/** A device that asks and is signed for is admitted, whatever else goes on
    (internal/mesh/invite.go, the handlers in cmd/shrooms/daemon.go); and exactly what the
    handlers take from whom. */
module EnrolmentRuns {
  import opened Options
  import opened Enrolment

  // ---------------------------------------------------------------- what the handlers take

  /** A draft and a signature over it, whole or cut, by a key of the mesh and valid now; and
      what they make. */
  predicate Completes(auth: Option<Authority>, draft: Wire, sig: Sig, now: int, revoking: bool, w: Wire) {
    && auth.Some? && draft.Readable? && draft.signed.body.Revocation? == revoking
    && (sig.By? || sig.Cut?) && sig.body == draft.signed.body && sig.key in auth.value.keys
    && w == Readable(Signed(sig.body, By(sig.key, sig.body))) && Valid(auth.value, w.signed, now)
  }

  lemma CompletesExact(auth: Option<Authority>, draft: Wire, sig: Sig, now: int, revoking: bool, w: Wire)
    ensures Completes(auth, draft, sig, now, revoking, w) <==>
              auth.Some? && Finish(auth.value, draft, sig, now, revoking).Ok? && w == Readable(Finish(auth.value, draft, sig, now, revoking).value)
  {
    if auth.Some? {
      FinishExact(auth.value, draft, sig, now, revoking);
    }
  }

  /** A credential that proves a card approved this very exchange. */
  predicate Approved(auth: Option<Authority>, record: Option<Record>, w: Wire, now: int) {
    && CardOnly(auth) && w.Readable? && w.signed.body.Credential? && Valid(auth.value, w.signed, now)
    && record.Some? && now <= record.value.until
    && w.signed.body.device == record.value.device && w.signed.body.tunnel == record.value.tunnel
  }

  /** Exactly what /invite/reply lets through: what the signature given completes, or with
      none what is not an unsigned draft; from a caller that is not root only what proves
      that a card approved it. */
  lemma MayReplyExact(root: bool, auth: Option<Authority>, record: Option<Record>, credential: Wire, signature: Option<Sig>, now: int, w: Wire)
    ensures MayReply(root, auth, record, credential, signature, now) == Ok(w) <==>
              && (if signature.Some? then Completes(auth, credential, signature.value, now, false, w)
                  else w == credential && credential != Unreadable(true) && !(credential.Readable? && credential.signed.sig.Zero?))
              && (root || Approved(auth, record, w, now))
  {
    if signature.Some? {
      CompletesExact(auth, credential, signature.value, now, false, w);
    }
    ApprovedExact(auth, record, w, now);
    hide Finish, GroupMayReply, Valid, CardOnly, Completes, Approved;
  }

  lemma ApprovedExact(auth: Option<Authority>, record: Option<Record>, w: Wire, now: int)
    ensures Approved(auth, record, w, now) <==> GroupMayReply(auth, record, w, now).Ok?
  {
    GroupReplyExact(auth, record, w, now);
  }

  /** Exactly what /grant and /revoke take from whom: root's plain blob; and a draft that its
      signature completes, from root, or from anyone where the mesh trusts only cards. */
  predicate Taken(root: bool, auth: Option<Authority>, p: Posted, now: int, revoking: bool, w: Wire) {
    match p
    case Plain(blob) => root && blob == Some(w)
    case Draft(draft, sig) =>
      (root || CardOnly(auth)) && draft.Some? && sig.Some? && Completes(auth, draft.value, sig.value, now, revoking, w)
  }

  lemma TakenExact(root: bool, auth: Option<Authority>, p: Posted, now: int, revoking: bool, w: Wire)
    ensures ReadAdminBody(root, auth, p, now, revoking) == Ok(w) <==> Taken(root, auth, p, now, revoking, w)
  {
    if p.Draft? && p.draft.Some? && p.sig.Some? {
      CompletesExact(auth, p.draft.value, p.sig.value, now, revoking, w);
    }
    hide Finish, Completes, CardOnly;
  }

  /** A renewal or a withdrawal is published exactly when its body is taken and it is signed
      by a key of the mesh and valid now; and nothing else is. */
  lemma AdminPostExact(a: Meshes, s: State, mesh: nat, root: bool, posted: Posted, revoking: bool, post: Post)
    requires KnownPosted(s, posted)
    ensures var e := if revoking then Withdraw(mesh, root, posted) else Renew(mesh, root, posted);
            post in Step(a, s, e).posts <==>
              || post in s.posts
              || (&& post == Post(if revoking then Revoke else Grant, mesh, root, post.wire)
                  && Taken(root, a(mesh), posted, s.now, revoking, post.wire)
                  && post.wire.Readable? && post.wire.signed.body.Revocation? == revoking
                  && a(mesh).Some? && Valid(a(mesh).value, post.wire.signed, s.now))
  {
    TakenExact(root, a(mesh), posted, s.now, revoking, post.wire);
    if a(mesh).Some? && post.wire.Readable? {
      VerifyExact(a(mesh).value, post.wire.signed, s.now);
    }
    hide Taken, ReadAdminBody, VerifyBy, Valid;
  }

  // ---------------------------------------------------------------- what stays over a run

  /** Nothing in the run is an exchange of this invite's own. */
  predicate LeavesAlone(es: seq<Event>, slot: Slot) {
    forall k :: 0 <= k < |es| ==> !(es[k].Hold? && es[k].slot == slot) && !(es[k].GiveUp? && es[k].slot == slot)
                                  && !(es[k].Asked? && es[k].slot == slot)
  }

  predicate LeavesAloneOne(e: Event, slot: Slot) {
    !(e.Hold? && e.slot == slot) && !(e.GiveUp? && e.slot == slot) && !(e.Asked? && e.slot == slot)
  }

  lemma AloneRest(es: seq<Event>, slot: Slot)
    requires es != [] && LeavesAlone(es, slot)
    ensures LeavesAloneOne(es[0], slot) && LeavesAlone(es[1..], slot)
  {
    forall k | 0 <= k < |es[1..]|
      ensures LeavesAloneOne(es[1..][k], slot)
    {
      assert es[1..][k] == es[k + 1];
    }
  }

  lemma {:induction false} ClockRuns(a: Meshes, s: State, es: seq<Event>)
    requires Runs(a, s, es)
    ensures After(a, s, es).now >= s.now
    ensures s.signed <= After(a, s, es).signed && s.checked <= After(a, s, es).checked && s.posts <= After(a, s, es).posts
    decreases |es|
  {
    if es == [] {
    } else {
      Grows(a, s, es[0]);
      ClockRuns(a, Step(a, s, es[0]), es[1..]);
    }
  }

  /** The clock does not go back, and what is signed, checked or published stays so. */
  lemma Grows(a: Meshes, s: State, e: Event)
    requires Enabled(s, e)
    ensures var t := Step(a, s, e);
            t.now >= s.now && s.signed <= t.signed && s.checked <= t.checked && s.posts <= t.posts
  {
    hide MayReply, ReadAdminBody, Arrives;
  }

  /** An invite that is open stays open until it is asked on or given up. */
  lemma {:induction false} StaysOpen(a: Meshes, s: State, es: seq<Event>, slot: Slot)
    requires Runs(a, s, es) && LeavesAlone(es, slot) && slot in s.open
    ensures slot in After(a, s, es).open && After(a, s, es).open[slot] == s.open[slot]
    decreases |es|
  {
    if es == [] {
    } else {
      AloneRest(es, slot);
      OpenAfter(a, s, es[0], slot);
      StaysOpen(a, Step(a, s, es[0]), es[1..], slot);
    }
  }

  lemma OpenAfter(a: Meshes, s: State, e: Event, slot: Slot)
    requires Enabled(s, e) && LeavesAloneOne(e, slot) && slot in s.open
    ensures slot in Step(a, s, e).open && Step(a, s, e).open[slot] == s.open[slot]
  {
    hide MayReply, ReadAdminBody, Arrives;
  }

  predicate HoldsAgain(es: seq<Event>, slot: Slot) {
    exists k :: 0 <= k < |es| && es[k].Hold? && es[k].slot == slot
  }

  lemma {:induction false} StaysClosed(a: Meshes, s: State, es: seq<Event>, slot: Slot)
    requires Runs(a, s, es) && !HoldsAgain(es, slot) && slot !in s.open
    ensures slot !in After(a, s, es).open
    decreases |es|
  {
    if es == [] {
    } else {
      assert !(es[0].Hold? && es[0].slot == slot);
      forall k | 0 <= k < |es[1..]|
        ensures !(es[1..][k].Hold? && es[1..][k].slot == slot)
      {
        assert es[1..][k] == es[k + 1];
      }
      ClosedAfter(a, s, es[0], slot);
      StaysClosed(a, Step(a, s, es[0]), es[1..], slot);
    }
  }

  lemma ClosedAfter(a: Meshes, s: State, e: Event, slot: Slot)
    requires Enabled(s, e) && !(e.Hold? && e.slot == slot) && slot !in s.open
    ensures slot !in Step(a, s, e).open
  {
    hide MayReply, ReadAdminBody, Arrives;
  }

  /** An invite is for one: once a device has asked on it, or it was given up, no other can
      ask on it in any continuation until it is held open again. */
  lemma InvitesAreForOne(a: Meshes, s: State, e: Event, es: seq<Event>, device: nat, tunnel: nat)
    requires Enabled(s, e) && (e.Asked? || e.GiveUp?)
    requires Runs(a, Step(a, s, e), es) && !HoldsAgain(es, e.slot)
    ensures !Enabled(After(a, Step(a, s, e), es), Asked(e.slot, device, tunnel))
  {
    StaysClosed(a, Step(a, s, e), es, e.slot);
  }

  /** What an exchange recorded stays recorded until its time is over, whatever is swept. */
  lemma {:induction false} StaysRecorded(a: Meshes, s: State, es: seq<Event>, slot: Slot)
    requires Runs(a, s, es) && LeavesAlone(es, slot) && slot in s.records
    requires After(a, s, es).now <= s.records[slot].until
    ensures slot in After(a, s, es).records && After(a, s, es).records[slot] == s.records[slot]
    decreases |es|
  {
    if es == [] {
    } else {
      AloneRest(es, slot);
      Grows(a, s, es[0]);
      ClockRuns(a, Step(a, s, es[0]), es[1..]);
      RecordedAfter(a, s, es[0], slot);
      StaysRecorded(a, Step(a, s, es[0]), es[1..], slot);
    }
  }

  lemma RecordedAfter(a: Meshes, s: State, e: Event, slot: Slot)
    requires Enabled(s, e) && LeavesAloneOne(e, slot) && slot in s.records && s.now <= s.records[slot].until
    ensures slot in Step(a, s, e).records && Step(a, s, e).records[slot] == s.records[slot]
  {
    hide MayReply, ReadAdminBody, Arrives;
  }

  // ---------------------------------------------------------------- an enrolment

  /** A credential of this mesh for the two keys that asked. */
  predicate Names(c: Body, slot: Slot, device: nat, tunnel: nat) {
    c.Credential? && c.mesh == slot.mesh && c.device == device && c.tunnel == tunnel
  }

  /** The state after an invite is held, others do as they like, and a device asks. */
  function Asking(a: Meshes, s: State, slot: Slot, until: int, e1: seq<Event>, device: nat, tunnel: nat): State
    requires slot !in s.open && Runs(a, Step(a, s, Hold(slot, until)), e1)
    requires slot in After(a, Step(a, s, Hold(slot, until)), e1).open
  {
    Step(a, After(a, Step(a, s, Hold(slot, until)), e1), Asked(slot, device, tunnel))
  }

  /** From any state: an invite is held; a device asks on it; a card of the mesh signs a
      credential naming the keys that asked; the credential is offered by any caller,
      the signature whole or cut, before the invite and the credential end; and the reply
      is sent. Between these, any events that are not this invite's own. Each is possible
      when its turn comes, and the reply with that credential is published and stays so. */
  lemma DevicesAreAdmitted(a: Meshes, s: State, slot: Slot, until: int, device: nat, tunnel: nat, key: Key, c: Body, cut: bool, root: bool,
                           e1: seq<Event>, e2: seq<Event>, e3: seq<Event>, e4: seq<Event>, e5: seq<Event>)
    requires Named(a) && slot !in s.open
    requires CardOnly(a(slot.mesh)) && key in a(slot.mesh).value.keys && Names(c, slot, device, tunnel)
    requires LeavesAlone(e1, slot) && LeavesAlone(e2, slot) && LeavesAlone(e3, slot)
    requires Runs(a, Step(a, s, Hold(slot, until)), e1)
    ensures slot in After(a, Step(a, s, Hold(slot, until)), e1).open
    ensures var s2 := Asking(a, s, slot, until, e1, device, tunnel);
            Runs(a, s2, e2) ==>
              var s3 := Step(a, After(a, s2, e2), CardSigns(Fact(key, c)));
              Runs(a, s3, e3) ==>
                var s4 := After(a, s3, e3);
                var offer := Check(slot, root, Readable(Signed(c, Zero)), Some(if cut then Cut(key, c) else By(key, c)));
                var reply := Post(Reply(slot.topic), slot.mesh, root, Readable(Signed(c, By(key, c))));
                Enabled(s4, offer) && (s4.now <= until && c.notBefore <= s4.now < c.notAfter ==>
                  Runs(a, Step(a, s4, offer), e4) ==>
                    var s5 := After(a, Step(a, s4, offer), e4);
                    Enabled(s5, Send(reply)) && (Runs(a, Step(a, s5, Send(reply)), e5) ==>
                      reply in After(a, Step(a, s5, Send(reply)), e5).posts))
  {
    StaysOpen(a, Step(a, s, Hold(slot, until)), e1, slot);
    var s2 := Asking(a, s, slot, until, e1, device, tunnel);
    assert s2.records[slot] == Record(device, tunnel, until);
    if Runs(a, s2, e2) {
      var s3 := Step(a, After(a, s2, e2), CardSigns(Fact(key, c)));
      if Runs(a, s3, e3) {
        SignedStays(a, s3, e3, Fact(key, c));
        if After(a, s3, e3).now <= until {
          ClockRuns(a, s3, e3);
          StaysRecorded(a, s2, e2, slot);
          StaysRecorded(a, s3, e3, slot);
          OfferIsTaken(a, After(a, s3, e3), slot, Record(device, tunnel, until), key, c, cut, root, e4, e5);
        }
      }
    }
  }

  lemma SignedStays(a: Meshes, s: State, es: seq<Event>, f: Fact)
    requires Runs(a, s, es) && f in s.signed
    ensures f in After(a, s, es).signed
  {
    ClockRuns(a, s, es);
  }

  /** An offer that the gate lets through is published by the next Send and stays so. */
  lemma OfferIsTaken(a: Meshes, s: State, slot: Slot, r: Record, key: Key, c: Body, cut: bool, root: bool, e4: seq<Event>, e5: seq<Event>)
    requires Named(a) && CardOnly(a(slot.mesh)) && key in a(slot.mesh).value.keys && Names(c, slot, r.device, r.tunnel)
    requires slot in s.records && s.records[slot] == r && s.now <= r.until && Fact(key, c) in s.signed
    ensures var offer := Check(slot, root, Readable(Signed(c, Zero)), Some(if cut then Cut(key, c) else By(key, c)));
            var reply := Post(Reply(slot.topic), slot.mesh, root, Readable(Signed(c, By(key, c))));
            && Enabled(s, offer)
            && (c.notBefore <= s.now < c.notAfter ==> Runs(a, Step(a, s, offer), e4) ==>
                  var s5 := After(a, Step(a, s, offer), e4);
                  Enabled(s5, Send(reply)) && (Runs(a, Step(a, s5, Send(reply)), e5) ==>
                    reply in After(a, Step(a, s5, Send(reply)), e5).posts))
  {
    var offer := Check(slot, root, Readable(Signed(c, Zero)), Some(if cut then Cut(key, c) else By(key, c)));
    var reply := Post(Reply(slot.topic), slot.mesh, root, Readable(Signed(c, By(key, c))));
    if c.notBefore <= s.now < c.notAfter && Runs(a, Step(a, s, offer), e4) {
      EnrolmentSucceeds(a(slot.mesh).value, r, c, key, cut, root, s.now);
      hide MayReply;
      assert reply in Step(a, s, offer).checked;
      ClockRuns(a, Step(a, s, offer), e4);
      var s5 := After(a, Step(a, s, offer), e4);
      if Runs(a, Step(a, s5, Send(reply)), e5) {
        ClockRuns(a, Step(a, s5, Send(reply)), e5);
      }
    }
  }

  /** What an exchange records is exactly what asked, till when the invite was held; and an
      invite given up, or lapsed, records nothing. */
  lemma RecordExact(a: Meshes, s: State, e: Event, slot: Slot)
    requires Enabled(s, e)
    ensures Admitting(Get(Step(a, s, e).records, slot), Step(a, s, e).now) ==
              if e.Asked? && e.slot == slot then Admitting(Some(Record(e.device, e.tunnel, s.open[slot])), s.now)
              else Admitting(Get(s.records, slot), Step(a, s, e).now)
  {
    hide MayReply, ReadAdminBody, Arrives;
  }
}

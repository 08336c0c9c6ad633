/** Who may have a credential, a renewal or a withdrawal published (cmd/shrooms/invitegate.go,
    cmd/shrooms/cardadmin.go, the handlers in cmd/shrooms/daemon.go), over whole runs of
    holding invites, drafting, signing and replying (internal/mesh/invite.go,
    internal/cred/draft.go). Signatures are symbols: what one verifies as is what it was
    made from. */
module Enrolment {
  import opened Options

  /** A key's length says which it is. */
  datatype Key = CardKey(n: nat) | FileKey(n: nat)

  datatype Body =
    | Credential(mesh: nat, device: nat, tunnel: nat, notBefore: int, notAfter: int, rest: nat)
    | Revocation(mesh: nat, device: nat, rest: nat)

  /** Zero marks a draft; Cut is a card's signature with the bytes its parser lost. */
  datatype Sig = Zero | By(key: Key, body: Body) | Cut(key: Key, body: Body) | Junk

  datatype Signed = Signed(body: Body, sig: Sig)

  /** Bytes off the socket. `draft` says whether unreadable ones end in a zero signature. */
  datatype Wire = Empty | Unreadable(draft: bool) | Readable(signed: Signed)

  datatype Authority = Authority(mesh: nat, keys: seq<Key>)

  datatype Why =
    | NoAuthority | NotACard | NoCredential | Malformed | NoKeys | BadSignature | WrongMesh
    | NotYetValid | Expired | NotHeld | OtherDevice | OtherTunnel | UnsignedDraft | NeedsRoot

  datatype Result<+T> = Ok(value: T) | Refused(why: Why)

  // ---------------------------------------------------------------- signatures

  predicate CardOnly(auth: Option<Authority>) {
    auth.Some? && auth.value.keys != [] && forall k :: k in auth.value.keys ==> k.CardKey?
  }

  /** RepairCardSignature: a whole signature is left alone, a cut one completed. */
  function Repair(k: Key, b: Body, sig: Sig): Option<Sig> {
    if sig == By(k, b) || sig == Cut(k, b) then Some(By(k, b)) else None
  }

  function RepairAny(keys: seq<Key>, b: Body, sig: Sig): Sig {
    if keys == [] then sig
    else if Repair(keys[0], b, sig).Some? then Repair(keys[0], b, sig).value
    else RepairAny(keys[1..], b, sig)
  }

  predicate SignedBy(keys: seq<Key>, c: Signed) {
    c.sig.By? && c.sig.key in keys && c.sig.body == c.body
  }

  /** VerifyBy and VerifyRevocationBy, in their order. */
  function VerifyBy(auth: Authority, c: Signed, now: int): Result<()> {
    if auth.keys == [] then Refused(NoKeys)
    else if !SignedBy(auth.keys, c) then Refused(BadSignature)
    else if c.body.mesh != auth.mesh then Refused(WrongMesh)
    else if c.body.Credential? && now < c.body.notBefore then Refused(NotYetValid)
    else if c.body.Credential? && now >= c.body.notAfter then Refused(Expired)
    else Ok(())
  }

  /** Finish and FinishRevocation: `revoking` says which of the two wire forms is read. */
  function Finish(auth: Authority, draft: Wire, sig: Sig, now: int, revoking: bool): Result<Signed> {
    if !draft.Readable? || draft.signed.body.Revocation? != revoking then Refused(Malformed)
    else if draft.signed.body.mesh != auth.mesh then Refused(WrongMesh)
    else
      var c := Signed(draft.signed.body, RepairAny(auth.keys, draft.signed.body, sig));
      var v := VerifyBy(auth, c, now);
      if v.Refused? then Refused(v.why) else Ok(c)
  }

  predicate Valid(auth: Authority, c: Signed, now: int) {
    && SignedBy(auth.keys, c) && c.body.mesh == auth.mesh
    && (c.body.Credential? ==> c.body.notBefore <= now < c.body.notAfter)
  }

  lemma VerifyExact(auth: Authority, c: Signed, now: int)
    ensures VerifyBy(auth, c, now).Ok? <==> Valid(auth, c, now)
  {
  }

  lemma {:induction false} RepairExact(keys: seq<Key>, b: Body, sig: Sig)
    ensures RepairAny(keys, b, sig) == if sig.Cut? && sig.key in keys && sig.body == b then By(sig.key, b) else sig
  {
    if keys == [] {
    } else {
      RepairExact(keys[1..], b, sig);
    }
  }

  /** Exactly what a draft and a signature finish to. */
  lemma FinishExact(auth: Authority, draft: Wire, sig: Sig, now: int, revoking: bool)
    ensures var r := Finish(auth, draft, sig, now, revoking);
            r.Ok? <==>
              && draft.Readable? && draft.signed.body.Revocation? == revoking
              && (sig.By? || sig.Cut?) && sig.body == draft.signed.body && sig.key in auth.keys
              && Valid(auth, Signed(sig.body, By(sig.key, sig.body)), now)
    ensures var r := Finish(auth, draft, sig, now, revoking);
            r.Ok? ==> r.value == Signed(sig.body, By(sig.key, sig.body))
  {
    if draft.Readable? {
      RepairExact(auth.keys, draft.signed.body, sig);
    }
  }

  // ---------------------------------------------------------------- the handlers' decisions

  /** What a held invite's exchange recorded, and when to forget it. */
  datatype Record = Record(device: nat, tunnel: nat, until: int)

  /** Admitting: None when nothing is recorded or it has lapsed. */
  function Admitting(r: Option<Record>, now: int): Option<Record> {
    if r.Some? && now <= r.value.until then r else None
  }

  /** groupMayReply. */
  function GroupMayReply(auth: Option<Authority>, record: Option<Record>, credential: Wire, now: int): Result<()> {
    if auth.None? then Refused(NoAuthority)
    else if !CardOnly(auth) then Refused(NotACard)
    else if credential.Empty? then Refused(NoCredential)
    else if !credential.Readable? || !credential.signed.body.Credential? then Refused(Malformed)
    else
      var c := credential.signed;
      var v := VerifyBy(auth.value, c, now);
      if v.Refused? then v
      else
        var a := Admitting(record, now);
        if a.None? then Refused(NotHeld)
        else if c.body.device != a.value.device then Refused(OtherDevice)
        else if c.body.tunnel != a.value.tunnel then Refused(OtherTunnel)
        else Ok(())
  }

  /** IsDraft. */
  predicate IsDraft(w: Wire) {
    match w
    case Empty => false
    case Unreadable(draft) => draft
    case Readable(c) => c.sig == Zero
  }

  /** /invite/reply up to the publishing: what it would publish. */
  function MayReply(root: bool, auth: Option<Authority>, record: Option<Record>, credential: Wire, signature: Option<Sig>, now: int): Result<Wire> {
    var given: Result<Wire> :=
      if signature.Some? then
        if auth.None? then Refused(NoAuthority)
        else
          var f := Finish(auth.value, credential, signature.value, now, false);
          if f.Refused? then Refused(f.why) else Ok(Readable(f.value))
      else if IsDraft(credential) then Refused(UnsignedDraft)
      else Ok(credential);
    if given.Refused? then given
    else if root then given
    else
      var g := GroupMayReply(auth, record, given.value, now);
      if g.Refused? then Refused(g.why) else given
  }

  /** A body of /grant or /revoke. */
  datatype Posted = Plain(blob: Option<Wire>) | Draft(draft: Option<Wire>, sig: Option<Sig>)

  /** readAdminBody. */
  function ReadAdminBody(root: bool, auth: Option<Authority>, p: Posted, now: int, revoking: bool): Result<Wire> {
    match p
    case Plain(blob) =>
      if !root then Refused(NeedsRoot)
      else if blob.None? then Refused(Malformed)
      else Ok(blob.value)
    case Draft(draft, sig) =>
      if !root && !CardOnly(auth) then Refused(NotACard)
      else if draft.None? || sig.None? then Refused(Malformed)
      else if auth.None? then Refused(NoAuthority)
      else
        var f := Finish(auth.value, draft.value, sig.value, now, revoking);
        if f.Refused? then Refused(f.why) else Ok(Readable(f.value))
  }

  /** The mesh's own check on arrival, in Grant and Revoke. */
  function Arrives(auth: Option<Authority>, w: Wire, now: int, revoking: bool): Result<Signed> {
    if auth.None? then Refused(NoAuthority)
    else if !w.Readable? || w.signed.body.Revocation? != revoking then Refused(Malformed)
    else
      var v := VerifyBy(auth.value, w.signed, now);
      if v.Refused? then Refused(v.why) else Ok(w.signed)
  }

  /** Exactly when a caller from the socket group may have a reply published: the mesh
      trusts only cards, one of them signed the credential, it is valid now and it
      names the two keys this daemon recorded for the exchange. */
  lemma GroupReplyExact(auth: Option<Authority>, record: Option<Record>, credential: Wire, now: int)
    ensures GroupMayReply(auth, record, credential, now).Ok? <==>
              && CardOnly(auth) && credential.Readable? && credential.signed.body.Credential?
              && Valid(auth.value, credential.signed, now)
              && record.Some? && now <= record.value.until
              && credential.signed.body.device == record.value.device
              && credential.signed.body.tunnel == record.value.tunnel
  {
    if auth.Some? && credential.Readable? {
      VerifyExact(auth.value, credential.signed, now);
    }
  }

  // ---------------------------------------------------------------- runs

  datatype Slot = Slot(mesh: nat, topic: nat)

  datatype Fact = Fact(key: Key, body: Body)

  datatype Kind = Reply(topic: nat) | Grant | Revoke

  /** Something the daemon published, and whether root asked for it. */
  datatype Post = Post(kind: Kind, mesh: nat, root: bool, wire: Wire)

  /** The clock, the invites being held open, what their exchanges recorded, the
      replies past their check and not yet sent, what was published, and what cards
      have signed. */
  datatype State = State(now: int, open: map<Slot, int>, records: map<Slot, Record>,
                         checked: set<Post>, posts: set<Post>, signed: set<Fact>)

  datatype Event =
    | Tick(now: int)
    | Hold(slot: Slot, until: int)
    | GiveUp(slot: Slot)
    | Asked(slot: Slot, device: nat, tunnel: nat)
    | CardSigns(fact: Fact)
    | Check(slot: Slot, root: bool, credential: Wire, signature: Option<Sig>)
    | Send(post: Post)
    | Renew(mesh: nat, root: bool, posted: Posted)
    | Withdraw(mesh: nat, root: bool, posted: Posted)

  /** The authority of each mesh. */
  type Meshes = nat -> Option<Authority>

  function Start(now: int): State {
    State(now, map[], map[], {}, {}, {})
  }

  /** Only a card makes a card's signatures; a file's anybody may. */
  predicate KnownSig(s: State, sig: Sig) {
    (sig.By? || sig.Cut?) && sig.key.CardKey? ==> Fact(sig.key, sig.body) in s.signed
  }

  predicate KnownWire(s: State, w: Wire) {
    w.Readable? ==> KnownSig(s, w.signed.sig)
  }

  predicate KnownPosted(s: State, p: Posted) {
    match p
    case Plain(blob) => blob.Some? ==> KnownWire(s, blob.value)
    case Draft(draft, sig) => (draft.Some? ==> KnownWire(s, draft.value)) && (sig.Some? ==> KnownSig(s, sig.value))
  }

  predicate Enabled(s: State, e: Event) {
    match e
    case Tick(now) => now >= s.now
    case Hold(slot, until) => slot !in s.open
    case GiveUp(slot) => slot in s.open
    case Asked(slot, _, _) => slot in s.open
    case CardSigns(fact) => fact.key.CardKey?
    case Check(_, _, credential, signature) => KnownWire(s, credential) && (signature.Some? ==> KnownSig(s, signature.value))
    case Send(post) => post in s.checked
    case Renew(_, _, posted) => KnownPosted(s, posted)
    case Withdraw(_, _, posted) => KnownPosted(s, posted)
  }

  /** rememberAdmitting: what has lapsed is swept, and this is added. */
  function Remember(s: State, slot: Slot, r: Record): map<Slot, Record> {
    (map t | t in s.records && s.now <= s.records[t].until :: s.records[t])[slot := r]
  }

  function PublishAdmin(a: Meshes, s: State, mesh: nat, root: bool, posted: Posted, revoking: bool): State {
    var r := ReadAdminBody(root, a(mesh), posted, s.now, revoking);
    if r.Refused? || Arrives(a(mesh), r.value, s.now, revoking).Refused? then s
    else s.(posts := s.posts + {Post(if revoking then Revoke else Grant, mesh, root, r.value)})
  }

  function Step(a: Meshes, s: State, e: Event): State
    requires Enabled(s, e)
  {
    match e
    case Tick(now) => s.(now := now)
    case Hold(slot, until) => s.(open := s.open[slot := until])
    case GiveUp(slot) => s.(open := s.open - {slot})
    case Asked(slot, device, tunnel) =>
      s.(open := s.open - {slot}, records := Remember(s, slot, Record(device, tunnel, s.open[slot])))
    case CardSigns(fact) => s.(signed := s.signed + {fact})
    case Check(slot, root, credential, signature) =>
      var r := MayReply(root, a(slot.mesh), Get(s.records, slot), credential, signature, s.now);
      if r.Refused? then s else s.(checked := s.checked + {Post(Reply(slot.topic), slot.mesh, root, r.value)})
    case Send(post) => s.(posts := s.posts + {post})
    case Renew(mesh, root, posted) => PublishAdmin(a, s, mesh, root, posted, false)
    case Withdraw(mesh, root, posted) => PublishAdmin(a, s, mesh, root, posted, true)
  }

  predicate Runs(a: Meshes, s: State, es: seq<Event>)
    decreases |es|
  {
    es == [] || (Enabled(s, es[0]) && Runs(a, Step(a, s, es[0]), es[1..]))
  }

  function After(a: Meshes, s: State, es: seq<Event>): State
    requires Runs(a, s, es)
    decreases |es|
  {
    if es == [] then s else After(a, Step(a, s, es[0]), es[1..])
  }

  /** A card key of this mesh signed exactly what the wire carries. */
  ghost predicate CardSigned(a: Meshes, es: seq<Event>, mesh: nat, w: Wire) {
    && w.Readable? && w.signed.sig.By? && w.signed.sig.body == w.signed.body && w.signed.body.mesh == mesh
    && CardOnly(a(mesh)) && w.signed.sig.key in a(mesh).value.keys
    && CardSigns(Fact(w.signed.sig.key, w.signed.body)) in es
  }

  /** Everything a caller from the group got published was earned earlier in the run. */
  ghost predicate Earned(a: Meshes, es: seq<Event>, p: Post) {
    && CardSigned(a, es, p.mesh, p.wire)
    && (p.kind.Reply? ==>
          && p.wire.signed.body.Credential?
          && Asked(Slot(p.mesh, p.kind.topic), p.wire.signed.body.device, p.wire.signed.body.tunnel) in es)
    && (p.kind.Grant? ==> p.wire.signed.body.Credential?)
    && (p.kind.Revoke? ==> p.wire.signed.body.Revocation?)
  }

  /** The meshes have the ids their authorities carry. */
  ghost predicate Named(a: Meshes) {
    forall m :: a(m).Some? ==> a(m).value.mesh == m
  }

  /** A renewal or withdrawal, whoever asked for it, is signed by a key of its mesh. */
  ghost predicate Verified(a: Meshes, p: Post) {
    !p.kind.Reply? ==>
      && a(p.mesh).Some? && p.wire.Readable? && SignedBy(a(p.mesh).value.keys, p.wire.signed)
      && p.wire.signed.body.mesh == p.mesh && p.wire.signed.body.Revocation? == p.kind.Revoke?
  }

  /** What holds after the events `es`. */
  ghost predicate Inv(a: Meshes, es: seq<Event>, s: State) {
    && (forall f :: f in s.signed ==> CardSigns(f) in es)
    && (forall t :: t in s.records ==> Asked(t, s.records[t].device, s.records[t].tunnel) in es)
    && (forall p :: p in s.checked && !p.root ==> Earned(a, es, p))
    && (forall p :: p in s.posts && !p.root ==> Earned(a, es, p))
    && (forall p :: p in s.checked ==> p.kind.Reply?)
    && (forall p :: p in s.posts ==> Verified(a, p))
  }

  lemma EarnedLater(a: Meshes, es: seq<Event>, e: Event, p: Post)
    requires Earned(a, es, p)
    ensures Earned(a, es + [e], p)
  {
  }

  lemma CheckEarns(a: Meshes, es: seq<Event>, s: State, e: Event)
    requires Named(a) && Inv(a, es, s) && e.Check? && !e.root && Enabled(s, e)
    requires MayReply(false, a(e.slot.mesh), Get(s.records, e.slot), e.credential, e.signature, s.now).Ok?
    ensures Earned(a, es, Post(Reply(e.slot.topic), e.slot.mesh, false,
                               MayReply(false, a(e.slot.mesh), Get(s.records, e.slot), e.credential, e.signature, s.now).value))
  {
    var w := MayReply(false, a(e.slot.mesh), Get(s.records, e.slot), e.credential, e.signature, s.now).value;
    GroupReplyExact(a(e.slot.mesh), Get(s.records, e.slot), w, s.now);
    if e.signature.Some? {
      FinishExact(a(e.slot.mesh).value, e.credential, e.signature.value, s.now, false);
    }
  }

  lemma AdminEarns(a: Meshes, es: seq<Event>, s: State, mesh: nat, posted: Posted, revoking: bool)
    requires Named(a) && Inv(a, es, s) && KnownPosted(s, posted)
    requires ReadAdminBody(false, a(mesh), posted, s.now, revoking).Ok?
    ensures Earned(a, es, Post(if revoking then Revoke else Grant, mesh, false, ReadAdminBody(false, a(mesh), posted, s.now, revoking).value))
  {
    FinishExact(a(mesh).value, posted.draft.value, posted.sig.value, s.now, revoking);
  }

  lemma ReplyVerifies(a: Meshes, p: Post)
    requires p.kind.Reply?
    ensures Verified(a, p)
  {
  }

  lemma ArrivalVerifies(a: Meshes, s: State, mesh: nat, root: bool, w: Wire, revoking: bool)
    requires Named(a) && Arrives(a(mesh), w, s.now, revoking).Ok?
    ensures Verified(a, Post(if revoking then Revoke else Grant, mesh, root, w))
  {
    VerifyExact(a(mesh).value, w.signed, s.now);
  }

  lemma StepKeeps(a: Meshes, es: seq<Event>, s: State, e: Event)
    requires Named(a) && Inv(a, es, s) && Enabled(s, e)
    ensures Inv(a, es + [e], Step(a, s, e))
  {
    hide Earned, Verified, MayReply, ReadAdminBody, Arrives, Named;
    var s' := Step(a, s, e);
    forall p | p in s'.checked + s'.posts && !p.root
      ensures Earned(a, es + [e], p)
    {
      if p !in s.checked + s.posts {
        match e
        case Check(_, _, _, _) => CheckEarns(a, es, s, e);
        case Renew(mesh, _, posted) => AdminEarns(a, es, s, mesh, posted, false);
        case Withdraw(mesh, _, posted) => AdminEarns(a, es, s, mesh, posted, true);
      }
      EarnedLater(a, es, e, p);
    }
    forall p | p in s'.posts
      ensures Verified(a, p)
    {
      if p !in s.posts {
        match e
        case Renew(mesh, root, posted) => ArrivalVerifies(a, s, mesh, root, p.wire, false);
        case Withdraw(mesh, root, posted) => ArrivalVerifies(a, s, mesh, root, p.wire, true);
        case Send(_) => ReplyVerifies(a, p);
      }
    }
  }

  lemma {:induction false} RunKeeps(a: Meshes, done: seq<Event>, s: State, es: seq<Event>)
    requires Named(a) && Inv(a, done, s) && Runs(a, s, es)
    ensures Inv(a, done + es, After(a, s, es))
    decreases |es|
  {
    if es == [] {
      assert done + es == done;
    } else {
      StepKeeps(a, done, s, es[0]);
      RunKeeps(a, done + [es[0]], Step(a, s, es[0]), es[1..]);
      assert done + [es[0]] + es[1..] == done + es;
    }
  }

  /** In every run, what a caller from the group had published carries a body that a card
      of that mesh signed in the run; and a reply's names the very keys that asked to
      join on that invite. */
  lemma EverythingIsEarned(a: Meshes, now: int, es: seq<Event>, p: Post)
    requires Named(a) && Runs(a, Start(now), es)
    requires p in After(a, Start(now), es).posts && !p.root
    ensures Earned(a, es, p)
  {
    RunKeeps(a, [], Start(now), es);
    assert [] + es == es;
  }

  /** In every run, each renewal and each withdrawal published, root's too, is one that a
      key of its own mesh signed. */
  lemma AdminPostsVerify(a: Meshes, now: int, es: seq<Event>, p: Post)
    requires Named(a) && Runs(a, Start(now), es) && p in After(a, Start(now), es).posts
    ensures Verified(a, p)
  {
    RunKeeps(a, [], Start(now), es);
  }

  /** The other way: a device that asked, whose credential one of the mesh's cards signed,
      is admitted for any caller while the record and the credential last, whether the
      card's signature came whole or cut. */
  lemma EnrolmentSucceeds(auth: Authority, record: Record, c: Body, key: Key, cut: bool, root: bool, now: int)
    requires CardOnly(Some(auth)) && key in auth.keys
    requires c.Credential? && c.mesh == auth.mesh && c.notBefore <= now < c.notAfter
    requires c.device == record.device && c.tunnel == record.tunnel && now <= record.until
    ensures var sig := if cut then Cut(key, c) else By(key, c);
            MayReply(root, Some(auth), Some(record), Readable(Signed(c, Zero)), Some(sig), now) == Ok(Readable(Signed(c, By(key, c))))
  {
    var sig := if cut then Cut(key, c) else By(key, c);
    FinishExact(auth, Readable(Signed(c, Zero)), sig, now, false);
    GroupReplyExact(Some(auth), Some(record), Readable(Signed(c, By(key, c))), now);
  }

  /** Sweeping forgets nothing that could still be asked for. */
  lemma SweepForgetsNothing(s: State, slot: Slot, r: Record, t: Slot, later: int)
    requires later >= s.now && t != slot
    ensures Admitting(Get(Remember(s, slot, r), t), later) == Admitting(Get(s.records, t), later)
  {
  }
}

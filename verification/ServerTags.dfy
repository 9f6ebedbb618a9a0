/** The pending-request table of the file server (fileserver.go: register, respond, flush,
    version, received), as a transition system whose steps are the critical sections that
    `tagLock` protects.  Handlers run concurrently, one goroutine each, so any handler may
    take its next step at any time; only requests handled in the server loop itself keep the
    loop from reading the next message. */
module ServerTags {
  import opened Qp

  // requestState.  `reply` is bookkeeping: the position of this request's response in `out`.
  datatype Request = Request(tag: Tag, cancelled: bool, reply: Option<nat>)

  // A response written to the connection: its tag, the request it was computed for, its length.
  datatype Reply = Reply(tag: Tag, re: nat, size: nat)

  // `reqs` holds every requestState ever made, in order of arrival; its index is its identity.
  // `tags` is fs.tags.  `out` is everything written to the connection so far.
  datatype Table = Table(reqs: seq<Request>, tags: map<Tag, nat>, out: seq<Reply>)

  predicate WellFormed(tb: Table) {
    forall t :: t in tb.tags ==> tb.tags[t] < |tb.reqs|
  }

  function Cancelled(tb: Table, r: nat): Table
    requires r < |tb.reqs|
  {
    tb.(reqs := tb.reqs[r := tb.reqs[r].(cancelled := true)])
  }

  // A fresh requestState for an incoming message.
  function Begun(tb: Table, tag: Tag): Table {
    tb.(reqs := tb.reqs + [Request(tag, false, None)])
  }

  function InUse(tb: Table, tag: Tag): bool {
    tag != NOTAG && tag in tb.tags
  }

  // register(rs, cancelAndOverwrite)
  function Registered(tb: Table, r: nat, overwrite: bool): Table
    requires WellFormed(tb) && r < |tb.reqs|
  {
    var tag := tb.reqs[r].tag;
    if tag == NOTAG then tb
    else if tag in tb.tags then
      if overwrite then Cancelled(tb, tb.tags[tag]).(tags := tb.tags[tag := r]) else tb
    else tb.(tags := tb.tags[tag := r])
  }

  // The locked part of flush.
  function Flushed(tb: Table, oldTag: Tag): Table
    requires WellFormed(tb)
  {
    if oldTag in tb.tags then Cancelled(tb, tb.tags[oldTag]).(tags := tb.tags - {oldTag}) else tb
  }

  // respond(rs, m) for a message of `size` bytes: an oversize message is dropped and leaves
  // the table alone; a cancelled request is silent.
  function Responded(tb: Table, r: nat, size: nat, msgSize: nat): Table
    requires r < |tb.reqs|
  {
    var q := tb.reqs[r];
    if size > msgSize || q.cancelled then tb
    else Table(tb.reqs[r := q.(reply := Some(|tb.out|))], tb.tags - {q.tag}, tb.out + [Reply(q.tag, r, size)])
  }

  // The message size that version settles on, or None when it refuses.
  function Negotiated(asked: nat, suggested: nat): Option<nat> {
    if asked > suggested then Some(suggested) else if asked < MIN_SIZE then None else Some(asked)
  }

  // The lesser of the two sizes, unless the client asks for less than the minimum, and for no more
  // than the server suggests.
  lemma NegotiatedIs(asked: nat, suggested: nat)
    ensures Negotiated(asked, suggested) == None <==> asked < MIN_SIZE && asked <= suggested
    ensures Negotiated(asked, suggested).Some? ==>
      var m := Negotiated(asked, suggested).value;
      m <= asked && m <= suggested && (m == asked || m == suggested)
  {
  }

  // What a message asks for, as far as the tag table can tell: Inline requests are handled in
  // the server loop (auth, attach, unknown messages), Spawned ones in a goroutine.
  datatype Kind = Version(msize: nat) | Flush(oldTag: Tag) | Inline | Spawned

  // What a handler that has not responded yet does next.
  datatype Work = DropOldTag(oldTag: Tag) | ResetTags(msgSize: nat) | Answer

  // `kinds` is what each request asked for.  `loop` is the request that the server loop is busy
  // with.  `dropped` and `displaced` record which request a Tflush, or a newcomer on an occupied
  // tag, found in the table.  `base` is the number of requests that the last reset put behind it.
  datatype State = State(tb: Table, kinds: seq<Kind>, running: map<nat, Work>, loop: Option<nat>, msgSize: nat,
                         suggested: nat, base: nat, dropped: map<nat, nat>, displaced: map<nat, nat>)

  datatype Action =
    | Arrive(tag: Tag, kind: Kind)
    | Drop(r: nat)
    | Reset(r: nat)
    | Respond(r: nat, size: nat)

  predicate Enabled(s: State, a: Action) {
    match a
    case Arrive(_, _) => s.loop == None
    case Drop(r) => r in s.running && s.running[r].DropOldTag?
    case Reset(r) => r in s.running && s.running[r].ResetTags?
    case Respond(r, _) => r in s.running && s.running[r].Answer?
  }

  function FirstWork(s: State, tag: Tag, kind: Kind): Work {
    if InUse(s.tb, tag) then Answer
    else match kind
      case Version(msize) =>
        var n := Negotiated(msize, s.suggested);
        if tag == NOTAG && n.Some? then ResetTags(n.value) else Answer
      case Flush(oldTag) => DropOldTag(oldTag)
      case Inline => Answer
      case Spawned => Answer
  }

  function Apply(s: State, a: Action): State
    requires WellFormed(s.tb) && Enabled(s, a) && (a.Respond? ==> a.r < |s.tb.reqs|)
  {
    match a
    case Arrive(tag, kind) =>
      var r := |s.tb.reqs|;
      var clash := InUse(s.tb, tag);
      s.(tb := Registered(Begun(s.tb, tag), r, true),
         kinds := s.kinds + [kind],
         running := s.running[r := FirstWork(s, tag, kind)],
         loop := if clash || !kind.Spawned? then Some(r) else None,
         displaced := if clash then s.displaced[r := s.tb.tags[tag]] else s.displaced)
    case Drop(r) =>
      var t := s.running[r].oldTag;
      s.(tb := Flushed(s.tb, t),
         running := s.running[r := Answer],
         dropped := if t in s.tb.tags then s.dropped[r := s.tb.tags[t]] else s.dropped)
    case Reset(r) =>
      s.(tb := s.tb.(tags := map[]),
         running := s.running[r := Answer],
         msgSize := s.running[r].msgSize,
         base := |s.tb.reqs|)
    case Respond(r, size) =>
      s.(tb := Responded(s.tb, r, size, s.msgSize),
         running := s.running - {r},
         loop := if s.loop == Some(r) then None else s.loop)
  }

  // What holds in every reachable state, whatever the client sends.

  predicate EntrySound(tb: Table, t: Tag) {
    t in tb.tags ==>
      && t != NOTAG
      && tb.tags[t] < |tb.reqs|
      && tb.reqs[tb.tags[t]].tag == t
      && !tb.reqs[tb.tags[t]].cancelled
      && tb.reqs[tb.tags[t]].reply == None
  }

  predicate ReplySound(tb: Table, i: nat) {
    i < |tb.out| ==>
      && tb.out[i].re < |tb.reqs|
      && tb.reqs[tb.out[i].re].reply == Some(i)
      && tb.reqs[tb.out[i].re].tag == tb.out[i].tag
  }

  predicate RequestSound(tb: Table, r: nat) {
    r < |tb.reqs| && tb.reqs[r].reply.Some? ==>
      tb.reqs[r].reply.value < |tb.out| && tb.out[tb.reqs[r].reply.value].re == r
  }

  ghost predicate TableSound(tb: Table) {
    && WellFormed(tb)
    && (forall t :: EntrySound(tb, t))
    && (forall i :: ReplySound(tb, i))
    && (forall r :: RequestSound(tb, r))
  }

  // A handler about to touch the table is the flush or version handler it should be; such a handler
  // runs in the server loop.
  predicate WorkFits(s: State, r: nat)
    requires r in s.running && r < |s.tb.reqs| == |s.kinds|
  {
    match s.running[r]
    case DropOldTag(oldTag) => s.kinds[r] == Flush(oldTag)
    case ResetTags(m) => s.tb.reqs[r].tag == NOTAG && s.kinds[r].Version?
        && Negotiated(s.kinds[r].msize, s.suggested) == Some(m)
    case Answer => true
  }

  ghost predicate Safe(s: State) {
    && TableSound(s.tb)
    && |s.kinds| == |s.tb.reqs|
    && (forall r :: r in s.running ==> r < |s.tb.reqs| && s.tb.reqs[r].reply == None && WorkFits(s, r))
    && (forall r :: r in s.running && !s.running[r].Answer? ==> s.loop == Some(r))
    && (s.loop.Some? ==> s.loop.value in s.running)
    && (forall r :: r in s.displaced ==> r < |s.tb.reqs|)
    && s.base <= |s.tb.reqs|
  }

  ghost predicate Init(s: State)
    ensures Init(s) ==> Safe(s)
  {
    s.tb == Table([], map[], []) && s.kinds == [] && s.running == map[] && s.loop == None && s.base == 0
    && s.dropped == map[] && s.displaced == map[]
  }

  // fs.tags holds exactly the requests that arrived since the last reset, are registered, have
  // not been cancelled and have not been answered.
  predicate Listed(s: State, r: nat)
    requires r < |s.tb.reqs|
  {
    var q := s.tb.reqs[r];
    s.base <= r && q.tag != NOTAG && !q.cancelled && q.reply == None
  }

  predicate EntryExact(s: State, t: Tag) {
    t in s.tb.tags ==> s.tb.tags[t] < |s.tb.reqs| && Listed(s, s.tb.tags[t])
  }

  predicate RequestExact(s: State, r: nat) {
    r < |s.tb.reqs| && Listed(s, r) ==>
      s.tb.reqs[r].tag in s.tb.tags && s.tb.tags[s.tb.reqs[r].tag] == r
  }

  ghost predicate Exact(s: State)
    requires Safe(s)
  {
    && (forall t :: EntryExact(s, t))
    && (forall r :: RequestExact(s, r))
  }

  // Every handler that can still respond under a tag belongs to a request since the last reset.
  ghost predicate Current(s: State)
    requires Safe(s)
  {
    forall r :: r in s.running && !Muted(s, r) ==> s.base <= r
  }

  // A request whose response, if any, cannot disturb the table.
  predicate Muted(s: State, r: nat)
    requires r < |s.tb.reqs|
  {
    s.tb.reqs[r].cancelled || s.tb.reqs[r].tag == NOTAG
  }

  // No handler that could still respond under a tag is in flight.
  predicate Quiet(s: State)
    requires Safe(s)
  {
    forall r :: r in s.running ==> Muted(s, r)
  }

  lemma RegisteredSound(tb: Table, tag: Tag)
    requires TableSound(tb)
    ensures TableSound(Registered(Begun(tb, tag), |tb.reqs|, true))
  {
    var tb' := Registered(Begun(tb, tag), |tb.reqs|, true);
    forall t ensures EntrySound(tb', t) { assert EntrySound(tb, t) && EntrySound(tb, tag); }
    forall i ensures ReplySound(tb', i) { assert ReplySound(tb, i); }
    forall r ensures RequestSound(tb', r) { assert RequestSound(tb, r); }
  }

  lemma FlushedSound(tb: Table, oldTag: Tag)
    requires TableSound(tb)
    ensures TableSound(Flushed(tb, oldTag))
  {
    var tb' := Flushed(tb, oldTag);
    forall t ensures EntrySound(tb', t) { assert EntrySound(tb, t) && EntrySound(tb, oldTag); }
    forall i ensures ReplySound(tb', i) { assert ReplySound(tb, i); }
    forall r ensures RequestSound(tb', r) { assert RequestSound(tb, r); }
  }

  lemma RespondedSound(tb: Table, r: nat, size: nat, msgSize: nat)
    requires TableSound(tb) && r < |tb.reqs| && tb.reqs[r].reply == None
    ensures TableSound(Responded(tb, r, size, msgSize))
  {
    var tb' := Responded(tb, r, size, msgSize);
    forall t ensures EntrySound(tb', t) { assert EntrySound(tb, t); }
    forall i ensures ReplySound(tb', i) { assert ReplySound(tb, i); }
    forall r' ensures RequestSound(tb', r') { assert RequestSound(tb, r'); }
  }

  lemma TableSoundStep(s: State, a: Action)
    requires Safe(s) && Enabled(s, a)
    ensures TableSound(Apply(s, a).tb)
  {
    match a
    case Arrive(tag, kind) => RegisteredSound(s.tb, tag);
    case Drop(r) => FlushedSound(s.tb, s.running[r].oldTag);
    case Reset(r) =>
      var tb' := s.tb.(tags := map[]);
      forall i ensures ReplySound(tb', i) { assert ReplySound(s.tb, i); }
      forall q ensures RequestSound(tb', q) { assert RequestSound(s.tb, q); }
    case Respond(r, size) => RespondedSound(s.tb, r, size, s.msgSize);
  }

  lemma SafeStep(s: State, a: Action)
    requires Safe(s) && Enabled(s, a)
    ensures Safe(Apply(s, a))
  {
    TableSoundStep(s, a);
    var s' := Apply(s, a);
    forall r | r in s'.running
      ensures r < |s'.tb.reqs| && s'.tb.reqs[r].reply == None && WorkFits(s', r)
    {
      assert r in s.running ==> WorkFits(s, r);
    }
  }

  // A request that collides with a pending one displaces it, and can do nothing but respond: the other
  // requests, their entries and what was written stay as they are.
  lemma CollisionDoesNothingElse(s: State, tag: Tag, kind: Kind)
    requires Safe(s) && Enabled(s, Arrive(tag, kind)) && InUse(s.tb, tag)
    ensures var s' := Apply(s, Arrive(tag, kind));
      var n := |s.tb.reqs|;
      && |s'.tb.reqs| == n + 1 && s'.tb.tags == s.tb.tags[tag := n] && s'.tb.out == s.tb.out
      && (forall r :: 0 <= r < n && r != s.tb.tags[tag] ==> s'.tb.reqs[r] == s.tb.reqs[r])
      && forall a :: Enabled(s', a) && !Enabled(s, a) ==> a.Respond? && a.r == n
  {
  }

  // What any other request does first: a Tversion under NOTAG with an acceptable size resets, a Tflush
  // drops its old tag, and all others respond.  Only those with a goroutine of their own leave the
  // server loop free.
  lemma ArrivalDoes(s: State, tag: Tag, kind: Kind)
    requires Safe(s) && Enabled(s, Arrive(tag, kind)) && !InUse(s.tb, tag)
    ensures var s' := Apply(s, Arrive(tag, kind));
      var n := |s.tb.reqs|;
      && (Enabled(s', Reset(n)) <==> kind.Version? && tag == NOTAG && Negotiated(kind.msize, s.suggested).Some?)
      && (Enabled(s', Drop(n)) <==> kind.Flush?)
      && (Enabled(s', Respond(n, 0)) <==> !Enabled(s', Reset(n)) && !Enabled(s', Drop(n)))
      && (s'.loop == None <==> kind.Spawned?)
      && (tag != NOTAG ==> s'.tb.tags == s.tb.tags[tag := n]) && (tag == NOTAG ==> s'.tb.tags == s.tb.tags)
  {
  }

  // s' is reached from s by the given steps.
  ghost predicate Reaches(s: State, acts: seq<Action>, s': State)
    requires Safe(s)
    ensures Reaches(s, acts, s') ==> Safe(s')
    decreases |acts|
  {
    if acts == [] then s == s'
    else Enabled(s, acts[0]) && (SafeStep(s, acts[0]); Reaches(Apply(s, acts[0]), acts[1..], s'))
  }

  // ---- Exactness of the table -------------------------------------------------------------

  lemma EntryExactStep(s: State, a: Action, t: Tag)
    requires Safe(s) && Exact(s) && Enabled(s, a)
    ensures EntryExact(Apply(s, a), t)
  {
    assert EntryExact(s, t) && EntrySound(s.tb, t);
    match a
    case Arrive(tag, kind) => assert EntrySound(s.tb, tag);
    case Drop(r) => assert EntrySound(s.tb, s.running[r].oldTag);
    case Reset(r) =>
    case Respond(r, size) => assert RequestExact(s, r);
  }

  lemma RequestExactStep(s: State, a: Action, r: nat)
    requires Safe(s) && Exact(s) && Current(s) && Enabled(s, a)
    ensures RequestExact(Apply(s, a), r)
  {
    assert RequestExact(s, r);
    match a
    case Arrive(tag, kind) => assert EntrySound(s.tb, tag);
    case Drop(q) => assert EntrySound(s.tb, s.running[q].oldTag);
    case Reset(q) =>
    case Respond(q, size) => assert RequestExact(s, q);
  }

  lemma ExactStep(s: State, a: Action)
    requires Safe(s) && Exact(s) && Current(s) && Enabled(s, a)
    requires a.Reset? ==> Quiet(s)
    ensures Safe(Apply(s, a)) && Exact(Apply(s, a)) && Current(Apply(s, a))
  {
    SafeStep(s, a);
    forall t ensures EntryExact(Apply(s, a), t) { EntryExactStep(s, a, t); }
    forall r ensures RequestExact(Apply(s, a), r) { RequestExactStep(s, a, r); }
  }

  // Every Version in the run came when no handler could still respond.
  ghost predicate QuietResets(s: State, acts: seq<Action>)
    requires Safe(s)
    decreases |acts|
  {
    acts == []
    || (Enabled(s, acts[0]) && (acts[0].Reset? ==> Quiet(s))
        && (SafeStep(s, acts[0]); QuietResets(Apply(s, acts[0]), acts[1..])))
  }

  lemma {:induction false} ExactRun(s: State, acts: seq<Action>, s': State)
    requires Init(s) || (Safe(s) && Exact(s) && Current(s))
    requires Reaches(s, acts, s') && QuietResets(s, acts)
    ensures Exact(s') && Current(s')
    decreases |acts|
  {
    if acts != [] {
      ExactStep(s, acts[0]);
      ExactRun(Apply(s, acts[0]), acts[1..], s');
    }
  }

  // ---- When a reset is harmless -----------------------------------------------------------

  // From here on the table is exact in every run whose own resets are quiet.
  ghost predicate StaysExact(s: State)
    requires Safe(s)
  {
    forall acts, s' :: Reaches(s, acts, s') && QuietResets(s, acts) ==> Exact(s')
  }

  // Resetting the table leaves it exact, being empty.  It stays so just when no handler that could
  // still respond under a tag is in flight (the version handler itself runs under NOTAG).
  lemma ResetStaysExactIff(s: State, r: nat)
    requires Safe(s) && Exact(s) && Current(s) && Enabled(s, Reset(r))
    ensures Safe(Apply(s, Reset(r))) && Exact(Apply(s, Reset(r)))
    ensures StaysExact(Apply(s, Reset(r))) <==> Quiet(s)
  {
    SafeStep(s, Reset(r));
    var s1 := Apply(s, Reset(r));
    forall t ensures EntryExact(s1, t) { EntryExactStep(s, Reset(r), t); }
    forall q ensures RequestExact(s1, q) { RequestExactStep(s, Reset(r), q); }
    if Quiet(s) {
      ExactStep(s, Reset(r));
      forall acts, s' | Reaches(s1, acts, s') && QuietResets(s1, acts) ensures Exact(s') { ExactRun(s1, acts, s'); }
    } else {
      var q :| q in s.running && !Muted(s, q);
      var acts, s' := StaleDelete(s, r, q);
    }
  }

  // The run that does the damage: Rversion is sent, a new request comes in under the tag of the old
  // handler, and the old handler responds.  Its delete takes away the new request's entry.
  lemma StaleDelete(s: State, r: nat, q: nat) returns (acts: seq<Action>, s': State)
    requires Safe(s) && Enabled(s, Reset(r)) && q in s.running && !Muted(s, q)
    ensures Safe(Apply(s, Reset(r))) && Reaches(Apply(s, Reset(r)), acts, s') && QuietResets(Apply(s, Reset(r)), acts)
    ensures !Exact(s')
  {
    SafeStep(s, Reset(r));
    var s1 := Apply(s, Reset(r));
    assert WorkFits(s, r);
    var a1, s2 := RversionSent(s1, r, q);
    var a2, s3 := NewcomerOn(s2, q);
    var a3;
    a3, s' := OldHandlerAnswers(s3, q, |s2.tb.reqs|);
    acts := [a1, a2, a3];
    Three(s1, a1, a2, a3);
  }

  lemma RversionSent(s: State, r: nat, q: nat) returns (a: Action, s': State)
    requires Safe(s) && s.tb.tags == map[] && s.loop == Some(r) && r in s.running && s.running[r].Answer?
    requires q != r && q in s.running && !Muted(s, q)
    ensures a.Respond? && Enabled(s, a) && s' == Apply(s, a) && Safe(s')
    ensures s'.tb.tags == map[] && s'.loop == None && q in s'.running && !Muted(s', q)
  {
    a := Respond(r, s.msgSize);
    SafeStep(s, a);
    s' := Apply(s, a);
    assert s'.tb.tags == map[];
  }

  lemma OldHandlerAnswers(s: State, q: nat, n: nat) returns (a: Action, s': State)
    requires Safe(s) && q in s.running && s.running[q].Answer? && !Muted(s, q)
    requires n < |s.tb.reqs| && n != q && Listed(s, n) && s.tb.reqs[q].tag == s.tb.reqs[n].tag
    ensures a.Respond? && Enabled(s, a) && s' == Apply(s, a) && Safe(s') && !Exact(s')
    ensures Listed(s', n) && s'.tb.tags == s.tb.tags - {s.tb.reqs[n].tag} && s'.running == s.running - {q}
    ensures s.loop == None ==> s'.loop == None
  {
    a := Respond(q, s.msgSize);
    SafeStep(s, a);
    s' := Apply(s, a);
    assert !RequestExact(s', n);
  }

  // A request arrives under the tag of a handler that the table has forgotten.
  lemma NewcomerOn(s: State, q: nat) returns (a: Action, s': State)
    requires Safe(s) && s.tb.tags == map[] && s.loop == None && q in s.running && !Muted(s, q)
    ensures a.Arrive? && Enabled(s, a) && s' == Apply(s, a) && Safe(s')
    ensures q in s'.running && s'.running[q].Answer? && !Muted(s', q) && q < |s.tb.reqs|
    ensures |s'.tb.reqs| == |s.tb.reqs| + 1 && Listed(s', |s.tb.reqs|)
    ensures s'.tb.reqs[q].tag == s'.tb.reqs[|s.tb.reqs|].tag && s'.tb.tags == map[s'.tb.reqs[q].tag := |s.tb.reqs|]
    ensures |s.tb.reqs| in s'.running && s'.running[|s.tb.reqs|].Answer? && s'.loop == None
  {
    a := Arrive(s.tb.reqs[q].tag, Spawned);
    SafeStep(s, a);
    s' := Apply(s, a);
  }

  lemma Three(s: State, a: Action, b: Action, c: Action)
    requires Safe(s) && !a.Reset? && !b.Reset? && !c.Reset?
    requires Enabled(s, a) && Safe(Apply(s, a)) && Enabled(Apply(s, a), b) && Safe(Apply(Apply(s, a), b))
    requires Enabled(Apply(Apply(s, a), b), c)
    ensures Reaches(s, [a, b, c], Apply(Apply(Apply(s, a), b), c)) && QuietResets(s, [a, b, c])
  {
    var s1 := Apply(s, a);
    var s2 := Apply(s1, b);
    SafeStep(s2, c);
    var s3 := Apply(s2, c);
    assert [c][1..] == [] && [b, c][1..] == [c] && [a, b, c][1..] == [b, c];
    assert Reaches(s3, [], s3) && QuietResets(s3, []);
    assert Reaches(s2, [c], s3) && QuietResets(s2, [c]);
    assert Reaches(s1, [b, c], s3) && QuietResets(s1, [b, c]);
  }

  // The delete in respond removes the responder's own entry and no other.
  lemma RespondRemovesOwnEntry(s0: State, acts: seq<Action>, s: State, r: nat, size: nat)
    requires Init(s0) && Reaches(s0, acts, s) && QuietResets(s0, acts)
    requires Enabled(s, Respond(r, size)) && !Muted(s, r) && size <= s.msgSize
    ensures var t := s.tb.reqs[r].tag;
      t in s.tb.tags && s.tb.tags[t] == r && Apply(s, Respond(r, size)).tb.tags == s.tb.tags - {t}
  {
    ExactRun(s0, acts, s);
    assert RequestExact(s, r);
  }

  // Each request is answered at most once.
  lemma OneReplyEach(s: State, i: nat, j: nat)
    requires Safe(s) && i < |s.tb.out| && j < |s.tb.out| && s.tb.out[i].re == s.tb.out[j].re
    ensures i == j
  {
    assert ReplySound(s.tb, i) && ReplySound(s.tb, j);
  }

  // ---- Flush ------------------------------------------------------------------------------

  // What the past keeps: requests keep their tag and their response, a cancelled request stays
  // cancelled and gains no response, and nothing written is taken back.
  predicate Kept(tb: Table, tb': Table, r: nat) {
    r < |tb.reqs| ==>
      && r < |tb'.reqs|
      && tb'.reqs[r].tag == tb.reqs[r].tag
      && (tb.reqs[r].cancelled ==> tb'.reqs[r].cancelled && tb'.reqs[r].reply == tb.reqs[r].reply)
      && (tb.reqs[r].reply.Some? ==> tb'.reqs[r].reply == tb.reqs[r].reply)
  }

  ghost predicate Later(tb: Table, tb': Table) {
    (forall r :: Kept(tb, tb', r)) && tb.out <= tb'.out
  }

  lemma LaterStep(s: State, a: Action)
    requires Safe(s) && Enabled(s, a)
    ensures Later(s.tb, Apply(s, a).tb)
  {
    var tb' := Apply(s, a).tb;
    forall r ensures Kept(s.tb, tb', r) { if a.Arrive? { assert EntrySound(s.tb, a.tag); } }
  }

  lemma {:induction false} LaterRun(s: State, acts: seq<Action>, s': State)
    requires Safe(s) && Reaches(s, acts, s')
    ensures Later(s.tb, s'.tb)
    decreases |acts|
  {
    if acts == [] {
      forall r ensures Kept(s.tb, s'.tb, r) {}
    } else {
      var s1 := Apply(s, acts[0]);
      SafeStep(s, acts[0]);
      LaterStep(s, acts[0]);
      LaterRun(s1, acts[1..], s');
      forall r ensures Kept(s.tb, s'.tb, r) { assert Kept(s.tb, s1.tb, r) && Kept(s1.tb, s'.tb, r); }
    }
  }

  // No response to r is anywhere in what was written.
  predicate Unanswered(tb: Table, r: nat) {
    forall i :: 0 <= i < |tb.out| ==> tb.out[i].re != r
  }

  // A cancelled request without a response never gets one.
  lemma CancelledForever(s: State, acts: seq<Action>, s': State, v: nat)
    requires Safe(s) && Reaches(s, acts, s')
    requires v < |s.tb.reqs| && s.tb.reqs[v].cancelled && s.tb.reqs[v].reply == None
    ensures v < |s'.tb.reqs| && s'.tb.reqs[v].cancelled && Unanswered(s'.tb, v)
  {
    LaterRun(s, acts, s');
    assert Kept(s.tb, s'.tb, v);
    forall i | 0 <= i < |s'.tb.out| ensures s'.tb.out[i].re != v { assert ReplySound(s'.tb, i); }
  }

  // flush(5), for any client and any reuse of tags, Version included: the request that a Tflush
  // finds under its old tag is cancelled for good and never answered, before or after the Rflush.
  lemma FlushedNeverAnswered(s: State, f: nat, acts: seq<Action>, s': State)
    requires Safe(s) && Enabled(s, Drop(f)) && s.running[f].oldTag in s.tb.tags
    requires Safe(Apply(s, Drop(f))) && Reaches(Apply(s, Drop(f)), acts, s')
    ensures var v := s.tb.tags[s.running[f].oldTag];
      v < |s'.tb.reqs| && s'.tb.reqs[v].cancelled && Unanswered(s'.tb, v)
  {
    assert EntrySound(s.tb, s.running[f].oldTag);
    CancelledForever(Apply(s, Drop(f)), acts, s', s.tb.tags[s.running[f].oldTag]);
  }

  // A request that arrives on an occupied tag is an implicit flush of the request it displaces.
  lemma DisplacedNeverAnswered(s: State, tag: Tag, kind: Kind, acts: seq<Action>, s': State)
    requires Safe(s) && Enabled(s, Arrive(tag, kind)) && InUse(s.tb, tag)
    requires Safe(Apply(s, Arrive(tag, kind))) && Reaches(Apply(s, Arrive(tag, kind)), acts, s')
    ensures var v := s.tb.tags[tag];
      v < |s'.tb.reqs| && s'.tb.reqs[v].cancelled && Unanswered(s'.tb, v)
  {
    assert EntrySound(s.tb, tag);
    CancelledForever(Apply(s, Arrive(tag, kind)), acts, s', s.tb.tags[tag]);
  }

  // A Tflush whose turn on the table is over.
  predicate PastDrop(s: State, f: nat) {
    f < |s.kinds| && s.kinds[f].Flush? && f !in s.displaced
    && !(f in s.running && s.running[f].DropOldTag?)
  }

  // Once flush f has had its turn, no earlier request under its old tag can respond any more
  // (since the last reset, each is cancelled or answered), and any response such a request did
  // get precedes the Rflush.
  predicate FencedAt(s: State, f: nat, r: nat)
    requires |s.kinds| == |s.tb.reqs|
  {
    PastDrop(s, f) && r < f && s.tb.reqs[r].tag == s.kinds[f].oldTag != NOTAG ==>
      && (r in s.running ==> s.tb.reqs[r].cancelled)
      && (s.base <= r ==> s.tb.reqs[r].cancelled || s.tb.reqs[r].reply.Some?)
      && (s.tb.reqs[f].reply.Some? && s.tb.reqs[r].reply.Some? ==>
            s.tb.reqs[r].reply.value < s.tb.reqs[f].reply.value)
  }

  ghost predicate Fenced(s: State)
    requires Safe(s)
  {
    forall f, r :: FencedAt(s, f, r)
  }

  lemma FencedAtStep(s: State, a: Action, f: nat, r: nat)
    requires Safe(s) && Exact(s) && Current(s) && Enabled(s, a) && FencedAt(s, f, r)
    ensures |Apply(s, a).kinds| == |Apply(s, a).tb.reqs| && FencedAt(Apply(s, a), f, r)
  {
    match a
    case Arrive(tag, kind) => FencedAtArrive(s, tag, kind, f, r);
    case Drop(q) => FencedAtDrop(s, q, f, r);
    case Reset(q) => assert PastDrop(Apply(s, a), f) ==> PastDrop(s, f);
    case Respond(q, size) => FencedAtRespond(s, q, size, f, r);
  }

  lemma FencedAtArrive(s: State, tag: Tag, kind: Kind, f: nat, r: nat)
    requires Safe(s) && Enabled(s, Arrive(tag, kind)) && FencedAt(s, f, r)
    ensures |Apply(s, Arrive(tag, kind)).kinds| == |Apply(s, Arrive(tag, kind)).tb.reqs|
    ensures FencedAt(Apply(s, Arrive(tag, kind)), f, r)
  {
    assert EntrySound(s.tb, tag);
    assert PastDrop(Apply(s, Arrive(tag, kind)), f) ==> f < |s.kinds| && PastDrop(s, f);
  }

  lemma FencedAtDrop(s: State, q: nat, f: nat, r: nat)
    requires Safe(s) && Exact(s) && Current(s) && Enabled(s, Drop(q)) && FencedAt(s, f, r)
    ensures FencedAt(Apply(s, Drop(q)), f, r)
  {
    assert WorkFits(s, q);
    if r < |s.tb.reqs| { assert EntrySound(s.tb, s.running[q].oldTag) && RequestExact(s, r); }
  }

  lemma FencedAtRespond(s: State, q: nat, size: nat, f: nat, r: nat)
    requires Safe(s) && Enabled(s, Respond(q, size)) && FencedAt(s, f, r)
    ensures FencedAt(Apply(s, Respond(q, size)), f, r)
  {
    assert PastDrop(Apply(s, Respond(q, size)), f) ==> PastDrop(s, f);
    assert RequestSound(s.tb, r) && RequestSound(s.tb, f);
  }

  lemma FencedStep(s: State, a: Action)
    requires Safe(s) && Exact(s) && Current(s) && Fenced(s) && Enabled(s, a)
    ensures Safe(Apply(s, a)) && Fenced(Apply(s, a))
  {
    SafeStep(s, a);
    forall f, r ensures FencedAt(Apply(s, a), f, r) {
      assert FencedAt(s, f, r);
      FencedAtStep(s, a, f, r);
    }
  }

  lemma {:induction false} FencedRun(s: State, acts: seq<Action>, s': State)
    requires Safe(s) && Exact(s) && Current(s) && Fenced(s)
    requires Reaches(s, acts, s') && QuietResets(s, acts)
    ensures Exact(s') && Fenced(s')
    decreases |acts|
  {
    if acts != [] {
      ExactStep(s, acts[0]);
      FencedStep(s, acts[0]);
      FencedRun(Apply(s, acts[0]), acts[1..], s');
    }
  }

  // flush(5): after the Rflush, no response to any earlier request on the old tag is written.
  lemma NothingAfterRflush(s0: State, acts: seq<Action>, s: State, f: nat, i: nat, j: nat)
    requires Init(s0) && Reaches(s0, acts, s) && QuietResets(s0, acts)
    requires f < |s.kinds| && s.kinds[f].Flush? && f !in s.displaced
    requires i <= j < |s.tb.out| && s.tb.out[i].re == f
    ensures s.tb.out[j].tag == s.kinds[f].oldTag != NOTAG ==> s.tb.out[j].re >= f
  {
    forall f, r ensures FencedAt(s0, f, r) {}
    FencedRun(s0, acts, s);
    assert ReplySound(s.tb, i) && ReplySound(s.tb, j);
    assert FencedAt(s, f, s.tb.out[j].re);
  }

  // ---- A reset with a handler in flight ----------------------------------------------------

  lemma {:induction false} OneMore(s: State, acts: seq<Action>, s1: State, a: Action) returns (s2: State)
    requires Safe(s) && Reaches(s, acts, s1) && Enabled(s1, a)
    ensures s2 == Apply(s1, a) && Reaches(s, acts + [a], s2)
    decreases |acts|
  {
    s2 := Apply(s1, a);
    SafeStep(s1, a);
    if acts == [] {
      assert [a][1..] == [];
      assert Reaches(s2, [], s2);
    } else {
      SafeStep(s, acts[0]);
      var s2' := OneMore(Apply(s, acts[0]), acts[1..], s1, a);
      assert (acts + [a])[1..] == acts[1..] + [a];
    }
  }

  // Without quiet resets the promises fail.  A handler for tag 5 is in flight when a Tversion
  // empties the table; a second request takes tag 5; the old handler responds and its delete
  // removes the second request's entry.  A Tflush of tag 5 then finds nothing, and the second
  // request is answered after the Rflush.
  lemma ResetInFlightBreaksFlush(s0: State) returns (before: seq<Action>, mid: State, acts: seq<Action>, s: State)
    requires Init(s0) && s0.suggested == 10485760 && s0.msgSize >= 4096
    ensures Reaches(s0, before, mid) && |mid.tb.reqs| == 3
    ensures Listed(mid, 2) && mid.tb.tags == map[] && !Exact(mid)
    ensures Reaches(s0, acts, s) && |s.kinds| == 4 && s.kinds[3] == Flush(5)
    ensures s.tb.out == [Reply(NOTAG, 1, 19), Reply(5, 0, 20), Reply(6, 3, 7), Reply(5, 2, 20)]
  {
    before, mid := StaleHandler(s0);
    assert !RequestExact(mid, 2);
    acts, s := MissedFlush(s0, before, mid);
  }

  // The steps of the run, as plain evaluation.
  lemma StaleHandlerStates(s0: State) returns (s1: State, s2: State, s3: State)
    requires s0.tb == Table([], map[], []) && s0.kinds == [] && s0.running == map[] && s0.loop == None
    requires s0.displaced == map[] && s0.suggested == 10485760
    ensures Enabled(s0, Arrive(5, Spawned)) && WellFormed(s0.tb) && s1 == Apply(s0, Arrive(5, Spawned))
    ensures Enabled(s1, Arrive(NOTAG, Version(8192))) && WellFormed(s1.tb)
        && s2 == Apply(s1, Arrive(NOTAG, Version(8192)))
    ensures Enabled(s2, Reset(1)) && WellFormed(s2.tb) && s3 == Apply(s2, Reset(1))
    ensures s3.tb == Table([Request(5, false, None), Request(NOTAG, false, None)], map[], [])
    ensures s3.running == map[0 := Answer, 1 := Answer] && s3.loop == Some(1) && s3.msgSize == 8192 && s3.base == 2
    ensures s3.kinds == [Spawned, Version(8192)] && s3.displaced == map[]
  {
    s1 := Apply(s0, Arrive(5, Spawned));
    assert s1.running == map[0 := Answer] && s1.tb == Table([Request(5, false, None)], map[5 := 0], []);
    s2 := Apply(s1, Arrive(NOTAG, Version(8192)));
    assert s2.tb == Table([Request(5, false, None), Request(NOTAG, false, None)], map[5 := 0], []);
    s3 := Apply(s2, Reset(1));
  }

  lemma StaleHandlerAnswers(s3: State) returns (s4: State, s5: State, s6: State)
    requires s3.tb == Table([Request(5, false, None), Request(NOTAG, false, None)], map[], [])
    requires s3.running == map[0 := Answer, 1 := Answer] && s3.loop == Some(1) && s3.msgSize == 8192
    requires s3.kinds == [Spawned, Version(8192)] && s3.displaced == map[]
    ensures Enabled(s3, Respond(1, 19)) && WellFormed(s3.tb) && s4 == Apply(s3, Respond(1, 19))
    ensures Enabled(s4, Arrive(5, Spawned)) && WellFormed(s4.tb) && s5 == Apply(s4, Arrive(5, Spawned))
    ensures Enabled(s5, Respond(0, 20)) && WellFormed(s5.tb) && |s5.tb.reqs| == 3 && s6 == Apply(s5, Respond(0, 20))
    ensures s6.tb == Table([Request(5, false, Some(1)), Request(NOTAG, false, Some(0)), Request(5, false, None)],
                           map[], [Reply(NOTAG, 1, 19), Reply(5, 0, 20)])
    ensures s6.running == map[2 := Answer] && s6.loop == None && s6.msgSize == 8192 && s6.base == s3.base
    ensures s6.kinds == [Spawned, Version(8192), Spawned] && s6.displaced == map[]
  {
    s4 := Apply(s3, Respond(1, 19));
    assert s4.tb == Table([Request(5, false, None), Request(NOTAG, false, Some(0))], map[], [Reply(NOTAG, 1, 19)]);
    assert s4.running == map[0 := Answer] && s4.loop == None;
    s5 := Apply(s4, Arrive(5, Spawned));
    assert s5.running == map[0 := Answer, 2 := Answer] && s5.loop == None && s5.tb.tags == map[5 := 2];
    s6 := Apply(s5, Respond(0, 20));
    assert s6.tb.tags == map[] && s6.running == map[2 := Answer];
  }

  lemma StaleHandler(s0: State) returns (acts: seq<Action>, s: State)
    requires Init(s0) && s0.suggested == 10485760 && s0.msgSize >= 4096
    ensures Reaches(s0, acts, s)
    ensures s.tb == Table([Request(5, false, Some(1)), Request(NOTAG, false, Some(0)), Request(5, false, None)],
                          map[], [Reply(NOTAG, 1, 19), Reply(5, 0, 20)])
    ensures s.running == map[2 := Answer] && s.loop == None && s.msgSize == 8192 && s.base == 2
    ensures s.kinds == [Spawned, Version(8192), Spawned] && s.displaced == map[]
  {
    var s1, s2, s3 := StaleHandlerStates(s0);
    var s4, s5, s6 := StaleHandlerAnswers(s3);
    var t1 := OneMore(s0, [], s0, Arrive(5, Spawned));
    acts := [] + [Arrive(5, Spawned)];
    var t2 := OneMore(s0, acts, s1, Arrive(NOTAG, Version(8192)));
    acts := acts + [Arrive(NOTAG, Version(8192))];
    var t3 := OneMore(s0, acts, s2, Reset(1));
    acts := acts + [Reset(1)];
    var t4 := OneMore(s0, acts, s3, Respond(1, 19));
    acts := acts + [Respond(1, 19)];
    var t5 := OneMore(s0, acts, s4, Arrive(5, Spawned));
    acts := acts + [Arrive(5, Spawned)];
    s := OneMore(s0, acts, s5, Respond(0, 20));
    acts := acts + [Respond(0, 20)];
  }

  lemma MissedFlushStates(mid: State) returns (s7: State, s8: State, s9: State, s10: State)
    requires mid.tb == Table([Request(5, false, Some(1)), Request(NOTAG, false, Some(0)), Request(5, false, None)],
                             map[], [Reply(NOTAG, 1, 19), Reply(5, 0, 20)])
    requires mid.running == map[2 := Answer] && mid.loop == None && mid.msgSize == 8192
    requires mid.kinds == [Spawned, Version(8192), Spawned] && mid.displaced == map[]
    ensures Enabled(mid, Arrive(6, Flush(5))) && WellFormed(mid.tb) && s7 == Apply(mid, Arrive(6, Flush(5)))
    ensures Enabled(s7, Drop(3)) && WellFormed(s7.tb) && s8 == Apply(s7, Drop(3))
    ensures Enabled(s8, Respond(3, 7)) && WellFormed(s8.tb) && |s8.tb.reqs| == 4 && s9 == Apply(s8, Respond(3, 7))
    ensures Enabled(s9, Respond(2, 20)) && WellFormed(s9.tb) && |s9.tb.reqs| == 4 && s10 == Apply(s9, Respond(2, 20))
    ensures |s10.kinds| == 4 && s10.kinds[3] == Flush(5)
    ensures s10.tb.out == [Reply(NOTAG, 1, 19), Reply(5, 0, 20), Reply(6, 3, 7), Reply(5, 2, 20)]
  {
    s7 := Apply(mid, Arrive(6, Flush(5)));
    assert s7.running == map[2 := Answer, 3 := DropOldTag(5)] && s7.tb.tags == map[6 := 3];
    s8 := Apply(s7, Drop(3));
    assert s8.tb == s7.tb && s8.running == map[2 := Answer, 3 := Answer];
    s9 := Apply(s8, Respond(3, 7));
    assert s9.running == map[2 := Answer] && s9.tb.tags == map[];
    s10 := Apply(s9, Respond(2, 20));
  }

  lemma MissedFlush(s0: State, before: seq<Action>, mid: State) returns (acts: seq<Action>, s: State)
    requires Safe(s0) && Reaches(s0, before, mid)
    requires mid.tb == Table([Request(5, false, Some(1)), Request(NOTAG, false, Some(0)), Request(5, false, None)],
                             map[], [Reply(NOTAG, 1, 19), Reply(5, 0, 20)])
    requires mid.running == map[2 := Answer] && mid.loop == None && mid.msgSize == 8192
    requires mid.kinds == [Spawned, Version(8192), Spawned] && mid.displaced == map[]
    ensures Reaches(s0, acts, s) && |s.kinds| == 4 && s.kinds[3] == Flush(5)
    ensures s.tb.out == [Reply(NOTAG, 1, 19), Reply(5, 0, 20), Reply(6, 3, 7), Reply(5, 2, 20)]
  {
    var s7, s8, s9, s10 := MissedFlushStates(mid);
    var t7 := OneMore(s0, before, mid, Arrive(6, Flush(5)));
    acts := before + [Arrive(6, Flush(5))];
    var t8 := OneMore(s0, acts, s7, Drop(3));
    acts := acts + [Drop(3)];
    var t9 := OneMore(s0, acts, s8, Respond(3, 7));
    acts := acts + [Respond(3, 7)];
    s := OneMore(s0, acts, s9, Respond(2, 20));
    acts := acts + [Respond(2, 20)];
  }

  // ---- Message size -----------------------------------------------------------------------

  ghost predicate NoReset(acts: seq<Action>) {
    forall i :: 0 <= i < |acts| ==> !acts[i].Reset?
  }

  lemma {:induction false} SizesKept(s: State, acts: seq<Action>, s': State)
    requires Safe(s) && Reaches(s, acts, s') && NoReset(acts)
    ensures s'.msgSize == s.msgSize && s.tb.out <= s'.tb.out
    ensures forall i :: |s.tb.out| <= i < |s'.tb.out| ==> s'.tb.out[i].size <= s.msgSize
    decreases |acts|
  {
    if acts != [] {
      var s1 := Apply(s, acts[0]);
      SafeStep(s, acts[0]);
      LaterStep(s, acts[0]);
      SizesKept(s1, acts[1..], s');
    }
  }

  // From a successful Tversion until the next one, every message written fits the size that was
  // negotiated, which never exceeds what the client asked for or what the server suggests.
  lemma NegotiatedSizeRespected(s: State, r: nat, acts: seq<Action>, s': State)
    requires Safe(s) && Enabled(s, Reset(r)) && NoReset(acts)
    requires Safe(Apply(s, Reset(r))) && Reaches(Apply(s, Reset(r)), acts, s')
    ensures s.kinds[r].Version? && s'.msgSize <= s.kinds[r].msize && s'.msgSize <= s.suggested
    ensures s'.msgSize < MIN_SIZE ==> s.suggested < MIN_SIZE
    ensures forall i :: |s.tb.out| <= i < |s'.tb.out| ==> s'.tb.out[i].size <= s'.msgSize
  {
    assert WorkFits(s, r);
    SizesKept(Apply(s, Reset(r)), acts, s');
  }
}

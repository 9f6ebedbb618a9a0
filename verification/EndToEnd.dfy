/** Client transport, two FIFO wires and file server put together.  `sent` is everything the
    client ever wrote, and the server has read the first |srv.tb.reqs| of it; `srv.tb.out` is
    everything the server ever wrote, and the client has read the first `read` of it.  The unread
    rests are the contents of the wires.  A request is known by its position in `sent`, which is
    also its index in the server's table. */
module EndToEnd {
  import opened Qp
  import opened ServerTags
  import opened ClientTransport

  // A written request: its tag and kind, the channel its sender waits on, and for a Tflush the
  // request that the flusher means to get rid of.
  datatype Sent = Sent(tag: Tag, kind: Kind, chan: nat, victim: Option<nat>)

  // `wrote` says which request was sent from which channel; `dead` is the client having met a
  // response with an unknown tag.
  datatype Sys = Sys(client: Client, sent: seq<Sent>, wrote: map<nat, nat>, srv: State, read: nat, dead: bool)

  datatype Event =
    | TakeTag(t: Tag)                                  // Tag or TakeTag
    | Send(k: nat, kind: Kind, victim: Option<nat>)     // Send, on an allocated channel
    | Accept                                           // the server reads its next message
    | Serve(a: Action)                                  // a server handler takes a step
    | Receive                                          // the client reads its next message
    | DitchAfter(f: nat)                               // Ditch of the tag that Tflush f flushed
    | DitchUnsent(k: nat)                              // Ditch of a tag that nothing was sent on

  predicate Enabled(s: Sys, e: Event) {
    match e
    case TakeTag(t) => t != NOTAG && t !in s.client.queue
    // Each allocated tag is used for one request, none of them a Tversion; Tflush is used on a
    // request that has been written.
    case Send(k, kind, victim) =>
      && k < |s.client.chans| && Queued(s.client, k) && k !in s.wrote && !kind.Version?
      && (if kind.Flush? then victim.Some? && victim.value < |s.sent| && s.sent[victim.value].tag == kind.oldTag
          else victim == None)
    case Accept => |s.srv.tb.reqs| < |s.sent| && s.srv.loop == None
    case Serve(a) => !a.Arrive? && ServerTags.Enabled(s.srv, a)
    case Receive => s.read < |s.srv.tb.out| && !s.dead
    // Ditch comes after the Rflush, and only while the tag still stands for the flushed request.
    case DitchAfter(f) =>
      && f < |s.srv.tb.reqs| && f < |s.sent| && s.sent[f].victim.Some?
      && s.srv.tb.reqs[f].reply.Some? && s.srv.tb.reqs[f].reply.value < s.read
      && s.sent[f].victim.value < |s.sent|
      && var v := s.sent[s.sent[f].victim.value]; v.tag in s.client.queue && s.client.queue[v.tag] == v.chan
    case DitchUnsent(k) => k < |s.client.chans| && Queued(s.client, k) && k !in s.wrote
  }

  // Ditch(t), whatever the tag stands for.
  function Ditch(s: Sys, t: Tag): Sys
    requires Disciplined(s.client) && t in s.client.queue
  {
    assert EntryDisciplined(s.client, t);
    s.(client := Finished(s.client, t, Ditched))
  }

  function Apply(s: Sys, e: Event): Sys
    requires Enabled(s, e) && Disciplined(s.client) && Safe(s.srv)
  {
    match e
    case TakeTag(t) => s.(client := Allocated(s.client, t))
    case Send(k, kind, victim) =>
      s.(sent := s.sent + [Sent(s.client.chans[k].tag, kind, k, victim)], wrote := s.wrote[k := |s.sent|])
    case Accept =>
      var m := s.sent[|s.srv.tb.reqs|];
      s.(srv := ServerTags.Apply(s.srv, Arrive(m.tag, m.kind)))
    case Serve(a) => s.(srv := ServerTags.Apply(s.srv, a))
    case Receive =>
      var m := s.srv.tb.out[s.read];
      if m.tag in s.client.queue then
        assert EntryDisciplined(s.client, m.tag);
        s.(client := Finished(s.client, m.tag, Answered(m)), read := s.read + 1)
      else s.(read := s.read + 1, dead := true)
    case DitchAfter(f) => Ditch(s, s.sent[s.sent[f].victim.value].tag)
    case DitchUnsent(k) => Ditch(s, s.client.chans[k].tag)
  }

  ghost predicate Init(s: Sys) {
    && s.client == Client(map[], []) && s.sent == [] && s.wrote == map[] && s.read == 0 && !s.dead
    && ServerTags.Init(s.srv)
  }

  // ---- Runs and what is promised of them ---------------------------------------------------

  // Whatever happens, both tables stay as sound as Apply needs them.
  lemma StepSound(s: Sys, e: Event)
    requires Disciplined(s.client) && Safe(s.srv) && Enabled(s, e)
    ensures Disciplined(Apply(s, e).client) && Safe(Apply(s, e).srv)
  {
    match e
    case TakeTag(t) => AllocatedDisciplined(s.client, t);
    case Send(_, _, _) =>
    case Accept =>
      var m := s.sent[|s.srv.tb.reqs|];
      SafeStep(s.srv, Arrive(m.tag, m.kind));
    case Serve(a) => SafeStep(s.srv, a);
    case Receive =>
      var m := s.srv.tb.out[s.read];
      if m.tag in s.client.queue { FinishedDisciplined(s.client, m.tag, Answered(m)); }
    case DitchAfter(f) => FinishedDisciplined(s.client, s.sent[s.sent[f].victim.value].tag, Ditched);
    case DitchUnsent(k) => FinishedDisciplined(s.client, s.client.chans[k].tag, Ditched);
  }

  ghost predicate Sound(s: Sys) {
    Disciplined(s.client) && Safe(s.srv)
  }

  ghost predicate Reaches(s: Sys, events: seq<Event>, s': Sys)
    requires Sound(s)
    ensures Reaches(s, events, s') ==> Sound(s')
    decreases |events|
  {
    if events == [] then s == s'
    else Enabled(s, events[0]) && (StepSound(s, events[0]); Reaches(Apply(s, events[0]), events[1..], s'))
  }

  // The response on a channel answers the request that was sent from it.
  predicate Matched(s: Sys, k: nat) {
    k < |s.client.chans| && s.client.chans[k].got != [] && s.client.chans[k].got[0].Answered? ==>
      var m := s.client.chans[k].got[0].m;
      m.re < |s.sent| && s.sent[m.re].chan == k && s.sent[m.re].tag == s.client.chans[k].tag
  }

  // Besides, the server has never seen a tag collision, the client has never met an unknown tag, and
  // each channel has carried at most one message.
  ghost predicate Guaranteed(s: Sys) {
    && (forall k :: Matched(s, k))
    && s.srv.displaced == map[] && !s.dead
    && (forall k :: 0 <= k < |s.client.chans| ==> |s.client.chans[k].got| <= 1)
  }

  // Some run from here leads to a state without the guarantees.
  ghost predicate Endangered(s: Sys)
    requires Sound(s)
  {
    exists events, s' :: Reaches(s, events, s') && !Guaranteed(s')
  }

  lemma EndangeredNow(s: Sys)
    requires Sound(s) && !Guaranteed(s)
    ensures Endangered(s)
  {
    assert Reaches(s, [], s);
  }

  lemma EndangeredBy(s: Sys, e: Event)
    requires Sound(s) && Enabled(s, e) && Sound(Apply(s, e)) && Endangered(Apply(s, e))
    ensures Endangered(s)
  {
    var events, s' :| Reaches(Apply(s, e), events, s') && !Guaranteed(s');
    FirstStep(s, e, events, s');
  }

  lemma FirstStep(s: Sys, e: Event, rest: seq<Event>, s': Sys)
    requires Sound(s) && Enabled(s, e) && Sound(Apply(s, e)) && Reaches(Apply(s, e), rest, s')
    ensures Reaches(s, [e] + rest, s')
  {
    assert ([e] + rest)[1..] == rest;
  }

  // ---- The invariant -----------------------------------------------------------------------

  // The r-th written request: its channel knows it, and the server saw it as it was sent.
  predicate SentWell(s: Sys, r: nat) {
    r < |s.sent| ==>
      var m := s.sent[r];
      && m.tag != NOTAG && !m.kind.Version?
      && m.chan < |s.client.chans| && s.client.chans[m.chan].tag == m.tag
      && m.chan in s.wrote && s.wrote[m.chan] == r
      && (m.victim.Some? ==> m.kind.Flush? && m.victim.value < r && s.sent[m.victim.value].tag == m.kind.oldTag)
      && (r < |s.srv.tb.reqs| == |s.srv.kinds| ==> s.srv.tb.reqs[r].tag == m.tag && s.srv.kinds[r] == m.kind)
  }

  // What holds even after tags were misused.
  ghost predicate Base(s: Sys) {
    && Safe(s.srv) && Exact(s.srv) && Current(s.srv)
    && s.srv.base == 0 && (forall r :: r in s.srv.running ==> !s.srv.running[r].ResetTags?)
    && Disciplined(s.client) && (forall k :: 0 <= k < |s.client.chans| ==> s.client.chans[k].tag != NOTAG)
    && |s.srv.tb.reqs| <= |s.sent| && s.read <= |s.srv.tb.out|
    && (forall r :: SentWell(s, r))
    && (forall k :: k in s.wrote ==> s.wrote[k] < |s.sent| && s.sent[s.wrote[k]].chan == k)
  }

  // A Tflush of t will have its turn before any other request on t arrives.
  predicate Dropping(srv: State, t: Tag, f: nat) {
    f in srv.running && srv.running[f] == DropOldTag(t)
  }

  predicate Coming(sent: seq<Sent>, srv: State, t: Tag, f: nat) {
    && |srv.tb.reqs| <= f < |sent| && sent[f].kind == Flush(t)
    && forall g :: |srv.tb.reqs| <= g <= f ==> sent[g].tag != t
  }

  ghost predicate Doomed(sent: seq<Sent>, srv: State, t: Tag) {
    (exists f :: Dropping(srv, t, f)) || (exists f :: Coming(sent, srv, t, f))
  }

  // A response to r may still reach the client, or r may still occupy its tag at the server when
  // another request arrives on it.  A Tflush of its own tag cancels itself; a request whose response
  // was too big is never answered, and stays in the server's table until it is flushed.
  ghost predicate Live(s: Sys, r: nat)
    requires r < |s.sent|
  {
    var t := s.sent[r].tag;
    if |s.srv.tb.reqs| <= r then s.sent[r].kind != Flush(t)
    else if s.srv.tb.reqs[r].reply.Some? then s.read <= s.srv.tb.reqs[r].reply.value
    else
      && !s.srv.tb.reqs[r].cancelled
      && if r in s.srv.running then s.srv.running[r] != DropOldTag(t) else !Doomed(s.sent, s.srv, t)
  }

  // While r is live, its tag stands for r's channel and nothing else.
  ghost predicate LiveOwnsTag(s: Sys, r: nat) {
    r < |s.sent| && Live(s, r) ==> s.sent[r].chan < |s.client.chans| && Queued(s.client, s.sent[r].chan)
  }

  // A request has nothing left in flight once its tag has been used again.
  ghost predicate Succeeded(s: Sys, q: nat, r: nat) {
    q < r < |s.sent| && s.sent[q].tag == s.sent[r].tag ==> !Live(s, q)
  }

  predicate ChanWell(s: Sys, k: nat) {
    k < |s.client.chans| && s.client.chans[k].got != [] && s.client.chans[k].got[0].Answered? ==>
      k in s.wrote && s.client.chans[k].got[0].m.re == s.wrote[k]
  }

  ghost predicate Inv(s: Sys) {
    && Base(s) && Fenced(s.srv) && s.srv.displaced == map[] && !s.dead
    && (forall r :: LiveOwnsTag(s, r))
    && (forall q, r :: Succeeded(s, q, r))
    && (forall k :: ChanWell(s, k))
  }

  lemma InitInv(s: Sys)
    requires Init(s)
    ensures Inv(s)
  {
    forall f, r ensures FencedAt(s.srv, f, r) {}
  }

  lemma InvGuarantees(s: Sys)
    requires Inv(s)
    ensures Guaranteed(s)
  {
    forall k | 0 <= k < |s.client.chans| ensures Matched(s, k) && |s.client.chans[k].got| <= 1 {
      assert ChanWell(s, k) && ChanDisciplined(s.client, k) && EntryDisciplined(s.client, s.client.chans[k].tag);
      if k in s.wrote { assert SentWell(s, s.wrote[k]); }
    }
  }

  // So the server never meets a request on a tag that is in use.
  lemma NeverInUse(s: Sys)
    requires Inv(s) && Enabled(s, Accept)
    ensures !InUse(s.srv.tb, s.sent[|s.srv.tb.reqs|].tag)
  {
    var r := |s.srv.tb.reqs|;
    if InUse(s.srv.tb, s.sent[r].tag) {
      var q := RegisteredIsLive(s);
    }
  }

  lemma RegisteredIsLive(s: Sys) returns (q: nat)
    requires Base(s) && Enabled(s, Accept) && InUse(s.srv.tb, s.sent[|s.srv.tb.reqs|].tag)
    ensures q < |s.srv.tb.reqs| && Live(s, q) && !Succeeded(s, q, |s.srv.tb.reqs|)
  {
    var t := s.sent[|s.srv.tb.reqs|].tag;
    q := s.srv.tb.tags[t];
    assert EntrySound(s.srv.tb, t) && SentWell(s, q);
    assert !Doomed(s.sent, s.srv, t);
  }

  // And the client always knows the tag of the response it reads, under its own channel.
  lemma ResponseFindsItsChannel(s: Sys)
    requires Inv(s) && Enabled(s, Receive)
    ensures var m := s.srv.tb.out[s.read];
      m.re < |s.sent| && m.tag == s.sent[m.re].tag && m.tag in s.client.queue
          && s.client.queue[m.tag] == s.sent[m.re].chan
  {
    var m := s.srv.tb.out[s.read];
    assert ReplySound(s.srv.tb, s.read) && SentWell(s, m.re) && LiveOwnsTag(s, m.re);
  }

  // By the time of the Ditch nothing of the flushed request is left anywhere.
  lemma DitchedIsDead(s: Sys, f: nat)
    requires Inv(s) && Enabled(s, DitchAfter(f))
    ensures !Live(s, s.sent[f].victim.value)
  {
    var v := s.sent[f].victim.value;
    assert SentWell(s, f) && SentWell(s, v);
    assert FencedAt(s.srv, f, v);
    assert f !in s.srv.running;
  }

  // ---- Every step keeps the invariant ------------------------------------------------------

  lemma ServerStepBase(s: Sys, a: Action, s': Sys)
    requires Base(s) && ServerTags.Enabled(s.srv, a) && !a.Reset?
    requires a.Arrive? ==> |s.srv.tb.reqs| < |s.sent|
                           && a.tag == s.sent[|s.srv.tb.reqs|].tag && a.kind == s.sent[|s.srv.tb.reqs|].kind
    requires s' == s.(srv := ServerTags.Apply(s.srv, a))
    ensures Base(s')
  {
    ExactStep(s.srv, a);
    LaterStep(s.srv, a);
    if a.Arrive? { assert SentWell(s, |s.srv.tb.reqs|); }
    forall r ensures SentWell(s', r) { assert SentWell(s, r) && Kept(s.srv.tb, s'.srv.tb, r); }
  }

  lemma StepBase(s: Sys, e: Event)
    requires Base(s) && Enabled(s, e)
    ensures Base(Apply(s, e))
  {
    var s' := Apply(s, e);
    match e
    case Accept =>
      var m := s.sent[|s.srv.tb.reqs|];
      ServerStepBase(s, Arrive(m.tag, m.kind), s');
    case Serve(a) => ServerStepBase(s, a, s');
    case Send(k, _, _) =>
      assert EntryDisciplined(s.client, s.client.chans[k].tag);
      forall r ensures SentWell(s', r) { assert SentWell(s, r); }
    case TakeTag(t) =>
      AllocatedDisciplined(s.client, t);
      ClientStepBase(s, s');
    case Receive =>
      var m := s.srv.tb.out[s.read];
      assert EntryDisciplined(s.client, m.tag);
      if m.tag in s.client.queue { FinishBase(s, s', m.tag, Answered(m)); } else { ClientStepBase(s, s'); }
    case DitchAfter(f) =>
      var t := s.sent[s.sent[f].victim.value].tag;
      assert EntryDisciplined(s.client, t);
      FinishBase(s, s', t, Ditched);
    case DitchUnsent(k) => FinishBase(s, s', s.client.chans[k].tag, Ditched);
  }

  lemma FinishBase(s: Sys, s': Sys, t: Tag, d: Delivery)
    requires Base(s) && t in s.client.queue && s.client.queue[t] < |s.client.chans| && s'.read <= |s.srv.tb.out|
    requires s' == s.(client := Finished(s.client, t, d), read := s'.read, dead := s'.dead)
    ensures Base(s')
  {
    FinishedDisciplined(s.client, t, d);
    ClientStepBase(s, s');
  }

  // Channels keep their tags.
  lemma ClientStepBase(s: Sys, s': Sys)
    requires Base(s) && Disciplined(s'.client) && s'.read <= |s.srv.tb.out|
    requires s' == s.(client := s'.client, read := s'.read, dead := s'.dead)
    requires |s.client.chans| <= |s'.client.chans|
    requires forall k :: 0 <= k < |s.client.chans| ==> s'.client.chans[k].tag == s.client.chans[k].tag
    requires forall k :: |s.client.chans| <= k < |s'.client.chans| ==> s'.client.chans[k].tag != NOTAG
    ensures Base(s')
  {
    forall r ensures SentWell(s', r) { assert SentWell(s, r); }
  }

  // No step gives life to a request that had none left.
  lemma NotRevived(s: Sys, e: Event, r: nat)
    requires Base(s) && Enabled(s, e) && r < |s.sent| && Live(Apply(s, e), r)
    requires e.Accept? ==> !InUse(s.srv.tb, s.sent[|s.srv.tb.reqs|].tag)
    ensures Live(s, r)
  {
    assert SentWell(s, r);
    match e
    case Accept => NotRevivedByAccept(s, r);
    case Serve(a) => NotRevivedByServe(s, a, r);
    case Send(_, _, _) => if f :| Coming(s.sent, s.srv, s.sent[r].tag, f) { ComingKept(s, e, s.sent[r].tag, f); }
    case _ =>
  }

  lemma NotRevivedByAccept(s: Sys, r: nat)
    requires Base(s) && Enabled(s, Accept) && r < |s.sent| && Live(Apply(s, Accept), r)
    requires !InUse(s.srv.tb, s.sent[|s.srv.tb.reqs|].tag)
    ensures Live(s, r)
  {
    var s' := Apply(s, Accept);
    var t := s.sent[r].tag;
    assert SentWell(s, r);
    if f :| Coming(s.sent, s.srv, t, f) { ComingKept(s, Accept, t, f); }
  }

  lemma NotRevivedByServe(s: Sys, a: Action, r: nat)
    requires Base(s) && Enabled(s, Serve(a)) && r < |s.sent| && Live(Apply(s, Serve(a)), r)
    ensures Live(s, r)
  {
    var s' := Apply(s, Serve(a));
    var t := s.sent[r].tag;
    assert SentWell(s, r);
    if f :| Dropping(s.srv, t, f) { assert Dropping(s'.srv, t, f) || a == Drop(f); }
    if f :| Coming(s.sent, s.srv, t, f) { ComingKept(s, Serve(a), t, f); }
    ServeKeepsDead(s, a, r);
  }

  lemma ComingKept(s: Sys, e: Event, t: Tag, f: nat)
    requires Base(s) && Enabled(s, e) && Coming(s.sent, s.srv, t, f)
    requires e.Accept? ==> !InUse(s.srv.tb, s.sent[|s.srv.tb.reqs|].tag)
    ensures Coming(Apply(s, e).sent, Apply(s, e).srv, t, f) || Dropping(Apply(s, e).srv, t, f)
  {
  }

  lemma ServeKeepsDead(s: Sys, a: Action, r: nat)
    requires Base(s) && Enabled(s, Serve(a)) && r < |s.sent| && Live(Apply(s, Serve(a)), r)
    ensures r < |s.srv.tb.reqs| && s.srv.tb.reqs[r].reply == None ==> !s.srv.tb.reqs[r].cancelled
    ensures r < |s.srv.tb.reqs| && s.srv.tb.reqs[r].reply == None && a.Drop? ==>
        s.srv.running[a.r] != DropOldTag(s.sent[r].tag)
  {
    assert SentWell(s, r) && RequestExact(s.srv, r);
    LaterStep(s.srv, a);
    assert Kept(s.srv.tb, Apply(s, Serve(a)).srv.tb, r);
  }

  // Ditching a tag that stands for no live request keeps the invariant.
  lemma DitchKeeps(s: Sys, t: Tag)
    requires Inv(s) && t in s.client.queue && HarmlessDitch(s, t)
    ensures Inv(Ditch(s, t))
  {
    var s' := Ditch(s, t);
    assert EntryDisciplined(s.client, t);
    FinishBase(s, s', t, Ditched);
    forall r ensures LiveOwnsTag(s', r) { DeadOrElsewhere(s, t, r); }
    forall q: nat, r: nat ensures Succeeded(s', q, r) {
      assert Succeeded(s, q, r) && (q < |s.sent| ==> Live(s', q) == Live(s, q));
    }
    forall k ensures ChanWell(s', k) { assert ChanWell(s, k); }
  }

  // What t stands for is a channel on which nothing was sent, or whose request has nothing in flight.
  ghost predicate HarmlessDitch(s: Sys, t: Tag)
    requires t in s.client.queue
  {
    var k := s.client.queue[t];
    k in s.wrote ==> s.wrote[k] < |s.sent| && !Live(s, s.wrote[k])
  }

  lemma DeadOrElsewhere(s: Sys, t: Tag, r: nat)
    requires Inv(s) && t in s.client.queue && HarmlessDitch(s, t)
    ensures LiveOwnsTag(Ditch(s, t), r)
  {
    if r < |s.sent| {
      assert LiveOwnsTag(s, r) && SentWell(s, r) && EntryDisciplined(s.client, t);
      assert Live(Ditch(s, t), r) == Live(s, r);
    }
  }

  lemma TakeTagKeeps(s: Sys, t: Tag)
    requires Inv(s) && Enabled(s, TakeTag(t))
    ensures Inv(Apply(s, TakeTag(t)))
  {
    var s' := Apply(s, TakeTag(t));
    StepBase(s, TakeTag(t));
    forall r: nat ensures LiveOwnsTag(s', r) {
      assert LiveOwnsTag(s, r) && SentWell(s, r);
      if r < |s.sent| && Live(s', r) { NotRevived(s, TakeTag(t), r); }
    }
    forall q: nat, r: nat ensures Succeeded(s', q, r) {
      assert Succeeded(s, q, r);
      if q < |s.sent| && Live(s', q) { NotRevived(s, TakeTag(t), q); }
    }
    forall k ensures ChanWell(s', k) { assert ChanWell(s, k); }
  }

  lemma SendKeeps(s: Sys, k: nat, kind: Kind, victim: Option<nat>)
    requires Inv(s) && Enabled(s, Send(k, kind, victim))
    ensures Inv(Apply(s, Send(k, kind, victim)))
  {
    var e := Send(k, kind, victim);
    var s' := Apply(s, e);
    StepBase(s, e);
    forall r: nat ensures LiveOwnsTag(s', r) {
      assert LiveOwnsTag(s, r);
      if r < |s.sent| && Live(s', r) { NotRevived(s, e, r); }
    }
    forall q: nat, r: nat ensures Succeeded(s', q, r) {
      assert Succeeded(s, q, r);
      if q < r < |s'.sent| && Live(s', q) {
        NotRevived(s, e, q);
        assert LiveOwnsTag(s, q) && SentWell(s, q);
      }
    }
    forall c ensures ChanWell(s', c) { assert ChanWell(s, c); }
  }

  lemma ServerKeeps(s: Sys, e: Event)
    requires Inv(s) && Enabled(s, e) && (e.Accept? || e.Serve?)
    ensures Inv(Apply(s, e))
  {
    var s' := Apply(s, e);
    StepBase(s, e);
    if e.Accept? { NeverInUse(s); }
    FencedStep(s.srv, if e.Serve? then e.a else Arrive(s.sent[|s.srv.tb.reqs|].tag, s.sent[|s.srv.tb.reqs|].kind));
    forall r: nat ensures LiveOwnsTag(s', r) {
      assert LiveOwnsTag(s, r);
      if r < |s.sent| && Live(s', r) { NotRevived(s, e, r); }
    }
    forall q: nat, r: nat ensures Succeeded(s', q, r) {
      assert Succeeded(s, q, r);
      if q < |s.sent| && Live(s', q) { NotRevived(s, e, q); }
    }
    forall k ensures ChanWell(s', k) { assert ChanWell(s, k); }
  }

  lemma ReceiveKeeps(s: Sys)
    requires Inv(s) && Enabled(s, Receive)
    ensures Inv(Apply(s, Receive))
  {
    var s' := Apply(s, Receive);
    var m := s.srv.tb.out[s.read];
    StepBase(s, Receive);
    ResponseFindsItsChannel(s);
    assert SentWell(s, m.re) && ReplySound(s.srv.tb, s.read);
    forall r: nat ensures LiveOwnsTag(s', r) {
      assert LiveOwnsTag(s, r) && SentWell(s, r);
      if r < |s.sent| && Live(s', r) { NotRevived(s, Receive, r); }
    }
    forall q: nat, r: nat ensures Succeeded(s', q, r) {
      assert Succeeded(s, q, r);
      if q < |s.sent| && Live(s', q) { NotRevived(s, Receive, q); }
    }
    forall k ensures ChanWell(s', k) { assert ChanWell(s, k) && EntryDisciplined(s.client, m.tag); }
  }

  lemma StepKeeps(s: Sys, e: Event)
    requires Inv(s) && Enabled(s, e)
    ensures Inv(Apply(s, e))
  {
    match e
    case TakeTag(t) => TakeTagKeeps(s, t);
    case Send(k, kind, victim) => SendKeeps(s, k, kind, victim);
    case Accept => ServerKeeps(s, e);
    case Serve(_) => ServerKeeps(s, e);
    case Receive => ReceiveKeeps(s);
    case DitchAfter(f) =>
      DitchedIsDead(s, f);
      assert SentWell(s, s.sent[f].victim.value);
      DitchKeeps(s, s.sent[s.sent[f].victim.value].tag);
    case DitchUnsent(k) => DitchKeeps(s, s.client.chans[k].tag);
  }

  lemma {:induction false} RunKeeps(s: Sys, events: seq<Event>, s': Sys)
    requires Inv(s) && Reaches(s, events, s')
    ensures Inv(s')
    decreases |events|
  {
    if events != [] {
      StepKeeps(s, events[0]);
      RunKeeps(Apply(s, events[0]), events[1..], s');
    }
  }

  // ---- What every interleaving guarantees --------------------------------------------------

  // A response that arrives on a channel answers the very request that was sent from it; the
  // server never sees a tag collision; the client never meets an unknown tag; and each channel
  // carries at most one message, sent while it was open and empty.
  lemma EndToEndMatching(s0: Sys, events: seq<Event>, s: Sys)
    requires Init(s0) && Reaches(s0, events, s)
    ensures forall k :: 0 <= k < |s.client.chans| ==>
      var got := s.client.chans[k].got;
      && |got| <= 1
      && (got != [] && got[0].Answered? ==>
            var r := got[0].m.re;
            r < |s.sent| && s.sent[r].chan == k && s.sent[r].tag == s.client.chans[k].tag)
    ensures s.srv.displaced == map[] && !s.dead
  {
    InitInv(s0);
    RunKeeps(s0, events, s);
    InvGuarantees(s);
    forall k | 0 <= k < |s.client.chans|
      ensures var got := s.client.chans[k].got;
        got != [] && got[0].Answered? ==>
          var r := got[0].m.re;
          r < |s.sent| && s.sent[r].chan == k && s.sent[r].tag == s.client.chans[k].tag
    {
      assert Matched(s, k);
    }
  }

  // The tags that the client has in its table cover everything in flight: a request on the wire,
  // pending at the server, or answered but not yet read always finds its own channel queued.
  lemma InFlightIsQueued(s0: Sys, events: seq<Event>, s: Sys, r: nat)
    requires Init(s0) && Reaches(s0, events, s) && r < |s.sent| && Live(s, r)
    ensures s.sent[r].tag in s.client.queue && s.client.queue[s.sent[r].tag] == s.sent[r].chan
  {
    InitInv(s0);
    RunKeeps(s0, events, s);
    assert LiveOwnsTag(s, r) && SentWell(s, r);
  }
}

/** When Transport.Ditch is safe (transport.go: Ditch, killChannel).  Ditch frees a tag without asking
    what became of the request that was sent on it. */
module DitchSafety {
  import opened Qp
  import ServerTags
  import opened ClientTransport
  import opened EndToEnd

  // Ditch checks none of this itself.  In a reachable state, ditching a tag leaves the guarantees
  // intact in every continuation if and only if nothing was sent on the tag's channel, or nothing of
  // what was sent is left in flight.
  lemma DitchSafeIff(s0: Sys, events: seq<Event>, s: Sys, t: Tag)
    requires Init(s0) && Reaches(s0, events, s) && t in s.client.queue
    ensures Sound(Ditch(s, t))
    ensures !Endangered(Ditch(s, t)) <==> HarmlessDitch(s, t)
  {
    InitInv(s0);
    RunKeeps(s0, events, s);
    var s' := Ditch(s, t);
    assert EntryDisciplined(s.client, t);
    FinishBase(s, s', t, Ditched);
    var k := s.client.queue[t];
    if HarmlessDitch(s, t) {
      DitchKeeps(s, t);
      forall events, s'' | Reaches(s', events, s'') ensures Guaranteed(s'') {
        RunKeeps(s', events, s'');
        InvGuarantees(s'');
      }
    } else {
      var v := s.wrote[k];
      assert SentWell(s, v) && Live(s', v);
      Threatened(s', v);
    }
  }

  // A live request whose tag is free again does harm in some continuation.
  lemma Threatened(s: Sys, v: nat)
    requires Base(s) && v < |s.sent| && s.sent[v].tag !in s.client.queue && Live(s, v)
    ensures Endangered(s)
  {
    assert SentWell(s, v);
    if |s.srv.tb.reqs| <= v {
      OnTheWire(s, v);
    } else if s.srv.tb.reqs[v].reply.Some? {
      Unread(s, v);
    } else if v in s.srv.running {
      Pending(s, v);
    } else {
      Reused(s, v);
    }
  }

  // It is stuck in the server's table; the tag is taken again, and used.
  lemma Reused(s: Sys, v: nat)
    requires Base(s) && v < |s.srv.tb.reqs| && s.sent[v].tag !in s.client.queue
    requires v !in s.srv.running && !s.srv.tb.reqs[v].cancelled && s.srv.tb.reqs[v].reply == None
    requires !Doomed(s.sent, s.srv, s.sent[v].tag)
    ensures Endangered(s)
  {
    var t := s.sent[v].tag;
    var n := |s.client.chans|;
    assert SentWell(s, v);
    forall k | k in s.wrote ensures k < n { assert SentWell(s, s.wrote[k]); }
    var e1, e2 := TakeTag(t), Send(n, ServerTags.Spawned, None);
    StepBase(s, e1);
    var s1 := Apply(s, e1);
    StepBase(s1, e2);
    var s2 := Apply(s1, e2);
    NoneComing(s.sent, s2.sent, s.srv, t);
    Collides(s2, v, |s.sent|);
    EndangeredBy(s1, e2);
    EndangeredBy(s, e1);
  }

  lemma NoneComing(sent: seq<Sent>, sent': seq<Sent>, srv: ServerTags.State, t: Tag)
    requires !Doomed(sent, srv, t) && |sent'| == |sent| + 1 && sent == sent'[..|sent|] && !sent'[|sent|].kind.Flush?
    ensures !Doomed(sent', srv, t)
  {
    if f :| Coming(sent', srv, t, f) {
      assert forall g :: 0 <= g < |sent| ==> sent[g] == sent'[g];
      assert Coming(sent, srv, t, f);
    }
  }

  // Its response is on its way, and meets an unknown tag.
  lemma {:induction false} Unread(s: Sys, v: nat)
    requires Base(s) && v < |s.srv.tb.reqs| && s.sent[v].tag !in s.client.queue
    requires s.srv.tb.reqs[v].reply.Some? && s.read <= s.srv.tb.reqs[v].reply.value
    ensures Endangered(s)
    decreases |s.srv.tb.out| - s.read
  {
    assert SentWell(s, v) && ServerTags.RequestSound(s.srv.tb, v)
        && ServerTags.ReplySound(s.srv.tb, s.srv.tb.reqs[v].reply.value);
    if s.dead {
      EndangeredNow(s);
    } else {
      var s' := Apply(s, Receive);
      StepBase(s, Receive);
      if s'.dead { EndangeredNow(s'); } else { Unread(s', v); }
      EndangeredBy(s, Receive);
    }
  }

  // Its handler responds.
  lemma {:induction false} Pending(s: Sys, v: nat)
    requires Base(s) && v < |s.srv.tb.reqs| && s.sent[v].tag !in s.client.queue
    requires v in s.srv.running && !s.srv.tb.reqs[v].cancelled
        && s.srv.running[v] != ServerTags.DropOldTag(s.sent[v].tag)
    ensures Endangered(s)
    decreases if s.srv.running[v].Answer? then 0 else 1
  {
    assert SentWell(s, v);
    var e := Serve(if s.srv.running[v].Answer? then ServerTags.Respond(v, s.srv.msgSize) else ServerTags.Drop(v));
    StepBase(s, e);
    if s.srv.running[v].Answer? {
      Unread(Apply(s, e), v);
    } else {
      assert ServerTags.EntrySound(s.srv.tb, s.srv.running[v].oldTag);
      Pending(Apply(s, e), v);
    }
    EndangeredBy(s, e);
  }

  // How much the server loop has left to do before it reads the next message.
  function Busy(s: ServerTags.State): nat {
    if s.loop == None then 0 else if s.loop.value in s.running && !s.running[s.loop.value].Answer? then 2 else 1
  }

  // The next step of the server loop.
  function LoopStep(s: Sys): Event
    requires Base(s) && |s.srv.tb.reqs| < |s.sent|
    ensures Enabled(s, LoopStep(s))
  {
    if s.srv.loop == None then Accept
    else
      var r := s.srv.loop.value;
      Serve(if s.srv.running[r].Answer? then ServerTags.Respond(r, s.srv.msgSize) else ServerTags.Drop(r))
  }

  // The server reads on until it has the request, which then is pending, or has met a collision.
  lemma {:induction false} OnTheWire(s: Sys, v: nat)
    requires Base(s) && |s.srv.tb.reqs| <= v < |s.sent| && s.sent[v].tag !in s.client.queue
    requires s.sent[v].kind != ServerTags.Flush(s.sent[v].tag)
    ensures Endangered(s)
    decreases v - |s.srv.tb.reqs|, Busy(s.srv)
  {
    var e := LoopStep(s);
    var s' := Apply(s, e);
    StepBase(s, e);
    if s'.srv.displaced != map[] {
      EndangeredNow(s');
    } else if |s'.srv.tb.reqs| <= v {
      OnTheWire(s', v);
    } else {
      JustArrived(s);
      Pending(s', v);
    }
    EndangeredBy(s, e);
  }

  lemma JustArrived(s: Sys)
    requires Base(s) && Enabled(s, Accept) && Apply(s, Accept).srv.displaced == map[]
    requires s.sent[|s.srv.tb.reqs|].kind != ServerTags.Flush(s.sent[|s.srv.tb.reqs|].tag)
    ensures var v, srv := |s.srv.tb.reqs|, Apply(s, Accept).srv;
      v < |srv.tb.reqs| && v in srv.running && !srv.tb.reqs[v].cancelled
          && srv.running[v] != ServerTags.DropOldTag(s.sent[v].tag)
  {
    AcceptClash(s);
    assert SentWell(s, |s.srv.tb.reqs|);
  }

  // The request v is stuck in the server's table, and no Tflush will get it out before request g
  // arrives on the same tag: the server reads on until there is a collision.
  lemma {:induction false} Collides(s: Sys, v: nat, g: nat)
    requires Base(s) && v < |s.srv.tb.reqs| <= g < |s.sent| && s.sent[g].tag == s.sent[v].tag
    requires v !in s.srv.running && !s.srv.tb.reqs[v].cancelled && s.srv.tb.reqs[v].reply == None
    requires !Doomed(s.sent, s.srv, s.sent[v].tag)
    ensures Endangered(s)
    decreases g - |s.srv.tb.reqs|, Busy(s.srv)
  {
    var t := s.sent[v].tag;
    assert SentWell(s, v) && ServerTags.RequestExact(s.srv, v);
    var e := LoopStep(s);
    var s' := Apply(s, e);
    StepBase(s, e);
    if s'.srv.displaced != map[] {
      EndangeredNow(s');
    } else {
      StillStuck(s, v, e);
      Collides(s', v, g);
    }
    EndangeredBy(s, e);
  }

  lemma StillStuck(s: Sys, v: nat, e: Event)
    requires Base(s) && v < |s.srv.tb.reqs| < |s.sent| && e == LoopStep(s) && Apply(s, e).srv.displaced == map[]
    requires v !in s.srv.running && !s.srv.tb.reqs[v].cancelled && s.srv.tb.reqs[v].reply == None
    requires !Doomed(s.sent, s.srv, s.sent[v].tag)
    ensures var s' := Apply(s, e);
      && v !in s'.srv.running && !s'.srv.tb.reqs[v].cancelled && s'.srv.tb.reqs[v].reply == None
      && !Doomed(s'.sent, s'.srv, s.sent[v].tag) && (e.Accept? ==> s.sent[|s.srv.tb.reqs|].tag != s.sent[v].tag)
  {
    assert SentWell(s, v) && ServerTags.RequestExact(s.srv, v);
    if e.Accept? {
      AcceptClash(s);
      StillUndoomedAccept(s, s.sent[v].tag);
    } else {
      if e.a.Drop? {
        assert !Dropping(s.srv, s.sent[v].tag, e.a.r);
        assert ServerTags.EntrySound(s.srv.tb, s.srv.running[e.a.r].oldTag);
      }
      StillUndoomed(s, s.sent[v].tag, e);
    }
  }

  lemma AcceptClash(s: Sys)
    requires Base(s) && Enabled(s, Accept)
    ensures ServerTags.InUse(s.srv.tb, s.sent[|s.srv.tb.reqs|].tag) ==>
        |s.srv.tb.reqs| in Apply(s, Accept).srv.displaced
  {
  }

  lemma StillUndoomedAccept(s: Sys, t: Tag)
    requires Base(s) && Enabled(s, Accept) && !Doomed(s.sent, s.srv, t) && s.sent[|s.srv.tb.reqs|].tag != t
    ensures var s' := Apply(s, Accept); !Doomed(s'.sent, s'.srv, t)
  {
    var s' := Apply(s, Accept);
    var r := |s.srv.tb.reqs|;
    assert !Coming(s.sent, s.srv, t, r);
    if f :| Dropping(s'.srv, t, f) { assert Dropping(s.srv, t, f); }
    if f :| Coming(s'.sent, s'.srv, t, f) { assert Coming(s.sent, s.srv, t, f); }
  }

  lemma StillUndoomed(s: Sys, t: Tag, e: Event)
    requires Base(s) && e.Serve? && Enabled(s, e) && !Doomed(s.sent, s.srv, t)
    ensures var s' := Apply(s, e); !Doomed(s'.sent, s'.srv, t)
  {
    var s' := Apply(s, e);
    forall f: nat ensures Coming(s'.sent, s'.srv, t, f) == Coming(s.sent, s.srv, t, f) {
      assert |s'.srv.tb.reqs| == |s.srv.tb.reqs|;
    }
    if f :| Dropping(s'.srv, t, f) { assert Dropping(s.srv, t, f); }
  }

  // For one, a tag that is ditched without a flush and taken again delivers the old response to the
  // new request.
  lemma DitchedTooEarly(s0: Sys) returns (before: seq<Event>, mid: Sys, after: seq<Event>, s: Sys)
    requires Init(s0)
    ensures Reaches(s0, before, mid) && Sound(mid) && mid.client.queue == map[0 := 0]
    ensures Sound(Ditch(mid, 0)) && Reaches(Ditch(mid, 0), after, s)
    ensures s.wrote == map[0 := 0, 1 := 1] && |s.client.chans| == 2
    ensures s.client.chans[1].got == [Answered(ServerTags.Reply(0, 0, s.srv.msgSize))]
  {
    before, mid := OneSent(s0);
    FinishedDisciplined(mid.client, 0, Ditched);
    assert Ditch(mid, 0).client.chans[0].got == [Ditched];
    after, s := OldResponse(Ditch(mid, 0));
  }

  lemma OneSent(s0: Sys) returns (events: seq<Event>, s: Sys)
    requires Init(s0)
    ensures Reaches(s0, events, s) && Sound(s)
    ensures s.client == Client(map[0 := 0], [Chan(0, [], false)]) && s.sent == [Sent(0, ServerTags.Spawned, 0, None)]
    ensures s == Sys(s.client, s.sent, map[0 := 0], s0.srv, 0, false)
  {
    var e1, e2 := TakeTag(0), Send(0, ServerTags.Spawned, None);
    StepSound(s0, e1);
    var s1 := Apply(s0, e1);
    StepSound(s1, e2);
    s := Apply(s1, e2);
    assert Reaches(s, [], s);
    FirstStep(s1, e2, [], s);
    FirstStep(s0, e1, [e2], s);
    events := [e1] + [e2];
  }

  lemma OldResponse(s: Sys) returns (events: seq<Event>, s': Sys)
    requires Sound(s) && s.client.queue == map[] && s.client.chans == [Chan(0, [Ditched], true)]
    requires s.sent == [Sent(0, ServerTags.Spawned, 0, None)] && s.wrote == map[0 := 0] && s.read == 0 && !s.dead
    requires ServerTags.Init(s.srv)
    ensures Reaches(s, events, s') && s'.wrote == map[0 := 0, 1 := 1] && |s'.client.chans| == 2
    ensures s'.client.chans[1].got == [Answered(ServerTags.Reply(0, 0, s'.srv.msgSize))]
  {
    var e1, e2 := TakeTag(0), Send(1, ServerTags.Spawned, None);
    StepSound(s, e1);
    var s1 := Apply(s, e1);
    StepSound(s1, e2);
    var s2 := Apply(s1, e2);
    var rest;
    rest, s' := OldResponseRead(s2);
    FirstStep(s1, e2, rest, s');
    FirstStep(s, e1, [e2] + rest, s');
    events := [e1] + ([e2] + rest);
  }

  lemma OldResponseRead(s: Sys) returns (events: seq<Event>, s': Sys)
    requires Sound(s) && s.client.queue == map[0 := 1] && |s.client.chans| == 2
        && s.client.chans[1] == Chan(0, [], false)
    requires |s.sent| == 2 && s.sent[0] == Sent(0, ServerTags.Spawned, 0, None) && s.read == 0 && !s.dead
    requires ServerTags.Init(s.srv)
    ensures Reaches(s, events, s') && s'.wrote == s.wrote && |s'.client.chans| == 2
    ensures s'.client.chans[1].got == [Answered(ServerTags.Reply(0, 0, s'.srv.msgSize))]
  {
    StepSound(s, Accept);
    var s1 := Apply(s, Accept);
    var e2 := Serve(ServerTags.Respond(0, s.srv.msgSize));
    StepSound(s1, e2);
    var s2 := Apply(s1, e2);
    StepSound(s2, Receive);
    s' := Apply(s2, Receive);
    assert Reaches(s', [], s');
    FirstStep(s2, Receive, [], s');
    FirstStep(s1, e2, [Receive], s');
    FirstStep(s, Accept, [e2] + [Receive], s');
    events := [Accept] + ([e2] + [Receive]);
  }
}

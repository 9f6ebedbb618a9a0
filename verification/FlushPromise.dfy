/** What flush(5) promises, and which requests never get a response at all (fileserver.go: flush,
    respond, version), on the machine of module ServerTags. */
module FlushPromise {
  import opened Qp
  import opened ServerTags

  // ---- The promise -------------------------------------------------------------------------

  // The response at j, written after the Rflush at i, does not answer an earlier request on the tag
  // that Tflush f named.
  predicate SilentAt(s: State, f: nat, i: nat, j: nat) {
    f < |s.kinds| && s.kinds[f].Flush? && f !in s.displaced && i <= j < |s.tb.out| && s.tb.out[i].re == f ==>
      s.tb.out[j].tag == s.kinds[f].oldTag != NOTAG ==> s.tb.out[j].re >= f
  }

  ghost predicate Silent(s: State) {
    forall f, i, j :: SilentAt(s, f, i, j)
  }

  lemma FencedIsSilent(s: State)
    requires Safe(s) && Fenced(s)
    ensures Silent(s)
  {
    forall f: nat, i: nat, j: nat ensures SilentAt(s, f, i, j) {
      if f < |s.kinds| && i <= j < |s.tb.out| {
        assert ReplySound(s.tb, i) && ReplySound(s.tb, j);
        assert FencedAt(s, f, s.tb.out[j].re);
      }
    }
  }

  // Some run from here, with quiet resets only, breaks the promise.
  ghost predicate Breaks(s: State)
    requires Safe(s)
  {
    exists acts, s' :: Reaches(s, acts, s') && QuietResets(s, acts) && !Silent(s')
  }

  lemma BreaksNow(s: State)
    requires Safe(s) && !Silent(s)
    ensures Breaks(s)
  {
    assert Reaches(s, [], s) && QuietResets(s, []);
  }

  lemma BreaksBy(s: State, a: Action)
    requires Safe(s) && Enabled(s, a) && !a.Reset? && Safe(Apply(s, a)) && Breaks(Apply(s, a))
    ensures Breaks(s)
  {
    var acts, s' :| Reaches(Apply(s, a), acts, s') && QuietResets(Apply(s, a), acts) && !Silent(s');
    assert ([a] + acts)[1..] == acts;
    assert Reaches(s, [a] + acts, s') && QuietResets(s, [a] + acts);
  }

  // A Version reset leaves the promise standing in every run whose later resets are quiet if and only
  // if no handler that could still respond under a tag is in flight.
  lemma ResetStaysSilentIff(s: State, r: nat)
    requires Safe(s) && Exact(s) && Current(s) && Fenced(s) && Enabled(s, Reset(r))
    ensures Safe(Apply(s, Reset(r))) && Silent(Apply(s, Reset(r)))
    ensures !Breaks(Apply(s, Reset(r))) <==> Quiet(s)
  {
    var s1 := Apply(s, Reset(r));
    FencedStep(s, Reset(r));
    FencedIsSilent(s1);
    if Quiet(s) {
      ExactStep(s, Reset(r));
      forall acts, s' | Reaches(s1, acts, s') && QuietResets(s1, acts) ensures Silent(s') {
        FencedRun(s1, acts, s');
        FencedIsSilent(s');
      }
    } else {
      var q :| q in s.running && !Muted(s, q);
      StaleAnswer(s, r, q);
    }
  }

  // As in StaleDelete, the old handler's delete takes away a newcomer's entry; the Tflush of the newcomer
  // then finds nothing.
  lemma StaleAnswer(s: State, r: nat, q: nat)
    requires Safe(s) && Enabled(s, Reset(r)) && q in s.running && !Muted(s, q) && Safe(Apply(s, Reset(r)))
    ensures Breaks(Apply(s, Reset(r)))
  {
    var s1 := Apply(s, Reset(r));
    assert WorkFits(s, r);
    var a, s2 := RversionSent(s1, r, q);
    NewcomerForgotten(s2, q);
    BreaksBy(s1, a);
  }

  lemma NewcomerForgotten(s: State, q: nat)
    requires Safe(s) && s.tb.tags == map[] && s.loop == None && q in s.running && !Muted(s, q)
    ensures Breaks(s)
  {
    var n := |s.tb.reqs|;
    var a1, s1 := NewcomerOn(s, q);
    var a2, s2 := OldHandlerAnswers(s1, q, n);
    assert s2.tb.tags == map[];
    FlushFindsNothing(s2, n);
    BreaksBy(s1, a2);
    BreaksBy(s, a1);
  }

  // n is pending, but not in the table.
  predicate Forgotten(s: State, n: nat)
  {
    n < |s.tb.reqs| && n in s.running && s.running[n].Answer? && !Muted(s, n)
  }

  lemma FlushFindsNothing(s: State, n: nat)
    requires Safe(s) && s.tb.tags == map[] && s.loop == None && Forgotten(s, n)
    ensures Breaks(s)
  {
    var t := s.tb.reqs[n].tag;
    var a := Arrive(if t == 0 then 1 else 0, Flush(t));
    SafeStep(s, a);
    var s1 := Apply(s, a);
    DropFindsNothing(s1, n, |s.tb.reqs|);
    BreaksBy(s, a);
  }

  lemma DropFindsNothing(s: State, n: nat, f: nat)
    requires Safe(s) && Forgotten(s, n) && n < f < |s.tb.reqs| && f !in s.displaced
    requires s.tb.reqs[n].tag !in s.tb.tags && s.tb.reqs[f].tag !in {NOTAG, s.tb.reqs[n].tag}
    requires !s.tb.reqs[f].cancelled && f in s.running && s.running[f] == DropOldTag(s.tb.reqs[n].tag)
    ensures Breaks(s)
  {
    SafeStep(s, Drop(f));
    assert WorkFits(s, f);
    RflushThenAnswer(Apply(s, Drop(f)), n, f);
    BreaksBy(s, Drop(f));
  }

  lemma RflushThenAnswer(s: State, n: nat, f: nat)
    requires Safe(s) && Forgotten(s, n) && n < f < |s.tb.reqs| && f !in s.displaced
    requires s.kinds[f] == Flush(s.tb.reqs[n].tag) && Forgotten(s, f)
    ensures Breaks(s)
  {
    var a1 := Respond(f, s.msgSize);
    SafeStep(s, a1);
    var s1 := Apply(s, a1);
    var a2 := Respond(n, s1.msgSize);
    SafeStep(s1, a2);
    var s2 := Apply(s1, a2);
    assert !SilentAt(s2, f, |s.tb.out|, |s1.tb.out|);
    BreaksNow(s2);
    BreaksBy(s1, a2);
    BreaksBy(s, a1);
  }

  // ---- Requests that are never answered ------------------------------------------------------

  // A handler that is done without having written a response leaves its request unanswered for good:
  // one that was cancelled, or one whose response was too big.
  lemma {:induction false} DoneUnanswered(s: State, acts: seq<Action>, s': State, r: nat)
    requires Safe(s) && Reaches(s, acts, s')
    requires r < |s.tb.reqs| && r !in s.running && s.tb.reqs[r].reply == None
    ensures r < |s'.tb.reqs| && r !in s'.running && s'.tb.reqs[r].reply == None && Unanswered(s'.tb, r)
    decreases |acts|
  {
    if acts == [] {
      forall i | 0 <= i < |s.tb.out| ensures s.tb.out[i].re != r { assert ReplySound(s.tb, i); }
    } else {
      DoneStep(s, acts[0], r);
      DoneUnanswered(Apply(s, acts[0]), acts[1..], s', r);
    }
  }

  lemma DoneStep(s: State, a: Action, r: nat)
    requires Safe(s) && Enabled(s, a) && r < |s.tb.reqs| && r !in s.running && s.tb.reqs[r].reply == None
    ensures var s' := Apply(s, a);
      Safe(s') && r < |s'.tb.reqs| && r !in s'.running && s'.tb.reqs[r].reply == None
  {
    SafeStep(s, a);
  }

  // Whether a response is written: in any state, Respond answers its request if and only if the
  // message fits and the request has not been cancelled; if it does not fit, the request keeps its tag.
  lemma AnsweredIff(s: State, r: nat, size: nat)
    requires Safe(s) && Enabled(s, Respond(r, size))
    ensures Apply(s, Respond(r, size)).tb.reqs[r].reply.Some? <==> size <= s.msgSize && !s.tb.reqs[r].cancelled
    ensures size > s.msgSize ==> Apply(s, Respond(r, size)).tb == s.tb
  {
  }

  // An oversize response: no run ever answers the request, and as long as its tag is in the table
  // under it, nobody else can have the tag without a collision.
  lemma OversizeNeverAnswered(s: State, r: nat, size: nat, acts: seq<Action>, s': State)
    requires Safe(s) && Enabled(s, Respond(r, size)) && size > s.msgSize
    requires Safe(Apply(s, Respond(r, size))) && Reaches(Apply(s, Respond(r, size)), acts, s')
    ensures r < |s'.tb.reqs| && Unanswered(s'.tb, r)
    ensures !Muted(s, r) && Exact(s) && Current(s) ==>
      var t := s.tb.reqs[r].tag;
      Exact(Apply(s, Respond(r, size))) && InUse(Apply(s, Respond(r, size)).tb, t)
  {
    DoneUnanswered(Apply(s, Respond(r, size)), acts, s', r);
    if !Muted(s, r) && Exact(s) && Current(s) {
      ExactStep(s, Respond(r, size));
      assert RequestExact(s, r);
    }
  }

  // A Tflush is answered by the Respond after its turn at the table if and only if it does not name the
  // tag it was sent under; if it does, it cancels itself.
  lemma FlushAnsweredIff(s: State, f: nat, size: nat)
    requires Safe(s) && Exact(s) && Current(s) && Enabled(s, Drop(f)) && !s.tb.reqs[f].cancelled && size <= s.msgSize
    ensures Safe(Apply(s, Drop(f))) && Enabled(Apply(s, Drop(f)), Respond(f, size))
    ensures var t := s.tb.reqs[f].tag;
      Apply(Apply(s, Drop(f)), Respond(f, size)).tb.reqs[f].reply.Some? <==> !(s.running[f].oldTag == t != NOTAG)
  {
    SafeStep(s, Drop(f));
    assert EntrySound(s.tb, s.running[f].oldTag) && RequestExact(s, f);
    AnsweredIff(Apply(s, Drop(f)), f, size);
  }
}

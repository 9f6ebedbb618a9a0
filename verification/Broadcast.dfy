/** The fan-out queue (trees/broadcastfile.go).  Push and Open/deregister exclude one another by
    the file's read/write lock, but pushes share it and may overlap, and each handle's queue has a
    lock of its own. */
module Broadcast {
  import opened Qp

  // ---- Interleavings -----------------------------------------------------------------------

  // Messages are known by the number of their push.  `fetched` is what fetch has taken off the
  // queue so far, refused as too big or not; `openAt` is the number of pushes before Open.
  // `closing` is Close having marked the handle while it still holds the queue lock.
  datatype Handle = Handle(consumer: bool, openAt: nat, fetched: seq<nat>, queue: seq<nat>, unwanted: bool,
                           closing: bool)

  // `files` is the listener list; pushes[m] is the part of it that push m has yet to reach.
  datatype State = State(handles: seq<Handle>, files: seq<nat>, pushed: nat, pushes: map<nat, seq<nat>>)

  datatype Action =
    | Open(readable: bool)
    | PushStart
    | PushOne(m: nat)
    | PushEnd(m: nat)
    | Fetch(h: nat)
    | CloseMark(h: nat)
    | CloseEnd(h: nat)

  predicate Enabled(s: State, a: Action) {
    match a
    case Open(_) => s.pushes == map[]
    case PushStart => true
    case PushOne(m) => m in s.pushes && s.pushes[m] != [] && s.pushes[m][0] < |s.handles|
        && !s.handles[s.pushes[m][0]].closing
    case PushEnd(m) => m in s.pushes && s.pushes[m] == []
    case Fetch(h) => h < |s.handles| && !s.handles[h].closing && (s.handles[h].queue != [] || s.handles[h].unwanted)
    case CloseMark(h) => h < |s.handles| && !s.handles[h].closing
    case CloseEnd(h) => h < |s.handles| && s.handles[h].closing && s.pushes == map[]
  }

  // The list without the first occurrence of h, the others in their order.
  function Without(files: seq<nat>, h: nat): seq<nat> {
    if files == [] then [] else if files[0] == h then files[1..] else [files[0]] + Without(files[1..], h)
  }

  function Apply(s: State, a: Action): State
    requires Enabled(s, a)
  {
    match a
    case Open(readable) =>
      s.(handles := s.handles + [Handle(readable, s.pushed, [], [], false, false)],
         files := if readable then s.files + [|s.handles|] else s.files)
    case PushStart => s.(pushed := s.pushed + 1, pushes := s.pushes[s.pushed := s.files])
    case PushOne(m) =>
      var h := s.pushes[m][0];
      s.(handles := s.handles[h := s.handles[h].(queue := s.handles[h].queue + [m])],
         pushes := s.pushes[m := s.pushes[m][1..]])
    case PushEnd(m) => s.(pushes := s.pushes - {m})
    case Fetch(h) =>
      var x := s.handles[h];
      if x.unwanted then s
      else s.(handles := s.handles[h := x.(fetched := x.fetched + [x.queue[0]], queue := x.queue[1..])])
    case CloseMark(h) => s.(handles := s.handles[h := s.handles[h].(queue := [], unwanted := true, closing := true)])
    case CloseEnd(h) =>
      s.(handles := s.handles[h := s.handles[h].(closing := false)],
         files := if s.handles[h].consumer then Without(s.files, h) else s.files)
  }

  predicate Init(s: State) {
    s == State([], [], 0, map[])
  }

  // ---- The listener list -------------------------------------------------------------------

  predicate Distinct(files: seq<nat>) {
    forall i, j :: 0 <= i < j < |files| ==> files[i] != files[j]
  }

  // deregister takes one handle off the list, and leaves the others in their order.
  lemma {:induction false} WithoutIs(files: seq<nat>, h: nat, i: nat)
    requires i < |files| && files[i] == h && h !in files[..i]
    ensures Without(files, h) == files[..i] + files[i + 1..]
  {
    if i > 0 {
      assert h !in files[1..][..i - 1] by {
        assert files[1..][..i - 1] == files[1..i] && files[..i][1..] == files[1..i];
      }
      WithoutIs(files[1..], h, i - 1);
      assert files[1..][..i - 1] == files[1..i] && files[1..][i..] == files[i + 1..];
      assert [files[0]] + files[1..i] == files[..i];
    }
  }

  lemma {:induction false} WithoutAbsent(files: seq<nat>, h: nat)
    requires h !in files
    ensures Without(files, h) == files
  {
    if files != [] { WithoutAbsent(files[1..], h); }
  }

  lemma WithoutKeeps(files: seq<nat>, h: nat)
    requires Distinct(files)
    ensures Distinct(Without(files, h)) && h !in Without(files, h)
    ensures forall g :: g in Without(files, h) <==> g in files && g != h
  {
    if h in files {
      var i :| 0 <= i < |files| && files[i] == h;
      WithoutIs(files, h, i);
    } else {
      WithoutAbsent(files, h);
    }
  }

  // ---- Delivery, whatever overlaps ---------------------------------------------------------

  function Seen(x: Handle): seq<nat> {
    x.fetched + x.queue
  }

  // Push m is under way and has not reached h yet.
  predicate Pending(s: State, h: nat, m: nat) {
    m in s.pushes && h in s.pushes[m]
  }

  predicate Listening(s: State, h: nat) {
    h < |s.handles| && s.handles[h].consumer && !s.handles[h].unwanted
  }

  // How often push m has been queued for h.
  predicate DeliveredWell(s: State, h: nat, m: nat) {
    h < |s.handles| ==>
      && multiset(Seen(s.handles[h]))[m] <= (if s.handles[h].openAt <= m < s.pushed then 1 else 0)
      && (Listening(s, h) && s.handles[h].openAt <= m < s.pushed ==>
            multiset(Seen(s.handles[h]))[m] == if Pending(s, h, m) then 0 else 1)
  }

  predicate ListedWell(s: State, h: nat) {
    && (h in s.files ==> h < |s.handles| && s.handles[h].consumer && (s.handles[h].unwanted ==> s.handles[h].closing))
    && (Listening(s, h) ==> h in s.files)
    && (h < |s.handles| ==> s.handles[h].openAt <= s.pushed && (s.handles[h].closing ==> s.handles[h].unwanted))
    && (h < |s.handles| && s.handles[h].unwanted ==> s.handles[h].queue == [])
  }

  predicate PushWell(s: State, m: nat) {
    m in s.pushes ==>
      && m < s.pushed && Distinct(s.pushes[m])
      && forall i :: 0 <= i < |s.pushes[m]| ==> s.pushes[m][i] in s.files && PushedAfterOpen(s, s.pushes[m][i], m)
  }

  predicate PushedAfterOpen(s: State, h: nat, m: nat) {
    h < |s.handles| && s.handles[h].openAt <= m
  }

  ghost predicate Inv(s: State) {
    && Distinct(s.files)
    && (forall h :: ListedWell(s, h))
    && (forall m :: PushWell(s, m))
    && (forall h, m :: DeliveredWell(s, h, m))
  }

  lemma FetchKeepsSeen(x: Handle)
    requires x.queue != []
    ensures Seen(x.(fetched := x.fetched + [x.queue[0]], queue := x.queue[1..])) == Seen(x)
  {
    assert x.queue == [x.queue[0]] + x.queue[1..];
  }

  lemma PushOneSeen(s: State, n: nat, h: nat, m: nat)
    requires Inv(s) && Enabled(s, PushOne(n)) && DeliveredWell(s, h, m)
    ensures DeliveredWell(Apply(s, PushOne(n)), h, m)
  {
    if h == s.pushes[n][0] {
      assert PushWell(s, n) && ListedWell(s, h) && PushedAfterOpen(s, h, n);
      PushOneSeenThere(s, n, m);
    } else {
      StillPending(s, n, h, m);
    }
  }

  // The other listeners that the push has in front of it stay the same.
  lemma StillPending(s: State, n: nat, h: nat, m: nat)
    requires Enabled(s, PushOne(n)) && h != s.pushes[n][0]
    ensures Pending(Apply(s, PushOne(n)), h, m) <==> Pending(s, h, m)
  {
    assert s.pushes[n] == [s.pushes[n][0]] + s.pushes[n][1..];
  }

  lemma PushOneSeenThere(s: State, n: nat, m: nat)
    requires Enabled(s, PushOne(n)) && DeliveredWell(s, s.pushes[n][0], m)
    requires PushWell(s, n) && ListedWell(s, s.pushes[n][0]) && PushedAfterOpen(s, s.pushes[n][0], n)
    ensures DeliveredWell(Apply(s, PushOne(n)), s.pushes[n][0], m)
  {
    var k := s.pushes[n][0];
    var x := s.handles[k];
    OneMoreSeen(x, n);
    assert k !in s.pushes[n][1..];
  }

  lemma OneMoreSeen(x: Handle, n: nat)
    ensures multiset(Seen(x.(queue := x.queue + [n]))) == multiset(Seen(x)) + multiset{n}
  {
    assert Seen(x.(queue := x.queue + [n])) == Seen(x) + [n];
  }

  lemma CloseMarkSeen(s: State, k: nat, h: nat, m: nat)
    requires Inv(s) && Enabled(s, CloseMark(k)) && DeliveredWell(s, h, m)
    ensures DeliveredWell(Apply(s, CloseMark(k)), h, m)
  {
    var x := s.handles[k];
    assert multiset(Seen(x)) == multiset(x.fetched) + multiset(x.queue);
    assert x.fetched + [] == x.fetched;
  }

  lemma PushStartSeen(s: State, h: nat, m: nat)
    requires Inv(s) && DeliveredWell(s, h, m)
    ensures DeliveredWell(Apply(s, PushStart), h, m)
  {
    assert ListedWell(s, h) && PushWell(s, m);
  }

  lemma ListSeen(s: State, a: Action, h: nat, m: nat)
    requires Inv(s) && Enabled(s, a) && (a.Open? || a.CloseEnd? || a.PushEnd?) && DeliveredWell(s, h, m)
    ensures DeliveredWell(Apply(s, a), h, m)
  {
    if h < |s.handles| {
      assert Seen(Apply(s, a).handles[h]) == Seen(s.handles[h]);
      assert ListedWell(s, h);
    }
  }

  lemma FetchSeen(s: State, k: nat, h: nat, m: nat)
    requires Inv(s) && Enabled(s, Fetch(k)) && DeliveredWell(s, h, m)
    ensures DeliveredWell(Apply(s, Fetch(k)), h, m)
  {
    if !s.handles[k].unwanted { FetchKeepsSeen(s.handles[k]); }
  }

  lemma DeliveredStep(s: State, a: Action, h: nat, m: nat)
    requires Inv(s) && Enabled(s, a)
    ensures DeliveredWell(Apply(s, a), h, m)
  {
    assert DeliveredWell(s, h, m);
    match a
    case Open(_) => ListSeen(s, a, h, m);
    case PushStart => PushStartSeen(s, h, m);
    case PushOne(n) => PushOneSeen(s, n, h, m);
    case PushEnd(_) => ListSeen(s, a, h, m);
    case Fetch(k) => FetchSeen(s, k, h, m);
    case CloseMark(k) => CloseMarkSeen(s, k, h, m);
    case CloseEnd(_) => ListSeen(s, a, h, m);
  }

  lemma StepKeeps(s: State, a: Action)
    requires Inv(s) && Enabled(s, a)
    ensures Inv(Apply(s, a))
  {
    var s' := Apply(s, a);
    assert ListedWell(s, |s.handles|);
    if a.CloseEnd? { WithoutKeeps(s.files, a.h); }
    if a.PushOne? { assert PushWell(s, a.m); }
    forall h ensures ListedWell(s', h) { assert ListedWell(s, h); }
    forall m ensures PushWell(s', m) {
      assert PushWell(s, m);
      if a.PushStart? && m == s.pushed {
        forall i | 0 <= i < |s.files| ensures PushedAfterOpen(s', s.files[i], m) { assert ListedWell(s, s.files[i]); }
      }
    }
    forall h, m ensures DeliveredWell(s', h, m) { DeliveredStep(s, a, h, m); }
  }

  ghost predicate Reaches(s: State, acts: seq<Action>, s': State)
    decreases |acts|
  {
    if acts == [] then s == s' else Enabled(s, acts[0]) && Reaches(Apply(s, acts[0]), acts[1..], s')
  }

  lemma {:induction false} RunKeeps(s: State, acts: seq<Action>, s': State)
    requires Inv(s) && Reaches(s, acts, s')
    ensures Inv(s')
    decreases |acts|
  {
    if acts != [] {
      StepKeeps(s, acts[0]);
      RunKeeps(Apply(s, acts[0]), acts[1..], s');
    }
  }

  // However pushes overlap, a message reaches each listener exactly once if it was pushed after
  // the listener's Open, and never if it was pushed before; one that is still under way has
  // reached exactly the listeners that it no longer has in front of it.
  lemma ExactlyOnce(s0: State, acts: seq<Action>, s: State, h: nat, m: nat)
    requires Init(s0) && Reaches(s0, acts, s) && h < |s.handles| && m < s.pushed
    ensures var n := multiset(Seen(s.handles[h]))[m];
      && n <= 1 && (m < s.handles[h].openAt ==> n == 0)
      && (Listening(s, h) && s.handles[h].openAt <= m ==> n == if Pending(s, h, m) then 0 else 1)
  {
    assert Inv(s0);
    RunKeeps(s0, acts, s);
    assert DeliveredWell(s, h, m);
  }

  // ---- The window, when pushes do not overlap ----------------------------------------------

  // What a handle has seen starts at its Open and is contiguous; for a listener it ends with the
  // latest push, or just before it while that push is still on its way to the listener.
  predicate WindowWell(s: State, h: nat) {
    h < |s.handles| ==>
      var x := s.handles[h];
      && (forall i :: 0 <= i < |Seen(x)| ==> Seen(x)[i] == x.openAt + i)
      && x.openAt + |Seen(x)| <= s.pushed
      && (Listening(s, h) ==>
            x.openAt + |Seen(x)| == if s.pushed > 0 && Pending(s, h, s.pushed - 1) then s.pushed - 1 else s.pushed)
  }

  ghost predicate SoloInv(s: State) {
    && Inv(s)
    && (forall m :: m in s.pushes ==> m + 1 == s.pushed)
    && (forall h :: WindowWell(s, h))
  }

  predicate SoloEnabled(s: State, a: Action) {
    Enabled(s, a) && (a.PushStart? ==> s.pushes == map[])
  }

  lemma PushOneWindow(s: State, n: nat, h: nat)
    requires SoloInv(s) && Enabled(s, PushOne(n)) && WindowWell(s, h)
    ensures WindowWell(Apply(s, PushOne(n)), h)
  {
    var k := s.pushes[n][0];
    var x := s.handles[k];
    assert PushWell(s, n) && ListedWell(s, k);
    assert Seen(x.(queue := x.queue + [n])) == Seen(x) + [n];
    assert s.pushes[n] == [k] + s.pushes[n][1..];
  }

  lemma CloseMarkWindow(s: State, k: nat, h: nat)
    requires Enabled(s, CloseMark(k)) && WindowWell(s, h)
    ensures WindowWell(Apply(s, CloseMark(k)), h)
  {
    var x := s.handles[k];
    assert Seen(x.(queue := [], unwanted := true, closing := true)) == x.fetched;
    assert forall i :: 0 <= i < |x.fetched| ==> x.fetched[i] == Seen(x)[i];
  }

  lemma FetchWindow(s: State, k: nat, h: nat)
    requires Enabled(s, Fetch(k)) && WindowWell(s, h)
    ensures WindowWell(Apply(s, Fetch(k)), h)
  {
    if !s.handles[k].unwanted { FetchKeepsSeen(s.handles[k]); }
  }

  lemma WindowStep(s: State, a: Action, h: nat)
    requires SoloInv(s) && SoloEnabled(s, a)
    ensures WindowWell(Apply(s, a), h)
  {
    assert WindowWell(s, h) && ListedWell(s, h);
    match a
    case PushOne(n) => PushOneWindow(s, n, h);
    case Fetch(k) => FetchWindow(s, k, h);
    case CloseMark(k) => CloseMarkWindow(s, k, h);
    case _ =>
  }

  lemma SoloStep(s: State, a: Action)
    requires SoloInv(s) && SoloEnabled(s, a)
    ensures SoloInv(Apply(s, a))
  {
    StepKeeps(s, a);
    forall h ensures WindowWell(Apply(s, a), h) { WindowStep(s, a, h); }
  }

  ghost predicate SoloReaches(s: State, acts: seq<Action>, s': State)
    decreases |acts|
  {
    if acts == [] then s == s' else SoloEnabled(s, acts[0]) && SoloReaches(Apply(s, acts[0]), acts[1..], s')
  }

  lemma {:induction false} SoloRunKeeps(s: State, acts: seq<Action>, s': State)
    requires SoloInv(s) && SoloReaches(s, acts, s')
    ensures SoloInv(s')
    decreases |acts|
  {
    if acts != [] {
      SoloStep(s, acts[0]);
      SoloRunKeeps(Apply(s, acts[0]), acts[1..], s');
    }
  }

  // A listener's fetched messages followed by its queue are exactly the pushes since its Open, in
  // order; after its Close, what it fetched is the beginning of that window.
  lemma ListenerWindow(s0: State, acts: seq<Action>, s: State, h: nat)
    requires Init(s0) && SoloReaches(s0, acts, s) && h < |s.handles|
    ensures forall i :: 0 <= i < |Seen(s.handles[h])| ==> Seen(s.handles[h])[i] == s.handles[h].openAt + i
    ensures s.handles[h].openAt + |Seen(s.handles[h])| <= s.pushed
    ensures Listening(s, h) && s.pushes == map[] ==> s.handles[h].openAt + |Seen(s.handles[h])| == s.pushed
    ensures s.handles[h].unwanted ==> s.handles[h].queue == []
  {
    assert SoloInv(s0);
    SoloRunKeeps(s0, acts, s);
    assert WindowWell(s, h) && ListedWell(s, h);
  }

  // ---- The objects themselves, one call at a time ------------------------------------------

  type Message = seq<byte>

  datatype ReadResult = Got(n: nat) | ReadTerminated | MessageTooBig | Waits

  class BroadcastHandle {
    const consumer: bool
    var queue: seq<Message>
    var unwanted: bool
    ghost var fetched: seq<Message>
    ghost const openAt: nat

    constructor (consumer: bool, ghost openAt: nat)
      ensures this.consumer == consumer && this.openAt == openAt && queue == [] && fetched == [] && !unwanted
    {
      this.consumer, this.openAt := consumer, openAt;
      queue, fetched, unwanted := [], [], false;
    }

    // ReadAt with fetch.  With nothing queued on an open handle it waits, having done nothing.
    method ReadAt(p: array<byte>) returns (r: ReadResult)
      modifies this`queue, this`fetched, p
      ensures r == Waits <==> old(queue) == [] && !old(unwanted)
      ensures r == Waits ==> queue == old(queue) && fetched == old(fetched) && p[..] == old(p[..])
      ensures fetched + queue == old(fetched + queue)
      ensures old(unwanted) ==> r == ReadTerminated && queue == old(queue) && fetched == old(fetched)
      ensures !old(unwanted) && old(queue) != [] ==>
        var m := old(queue)[0];
        && fetched == old(fetched) + [m] && queue == old(queue)[1..]
        && (if p.Length < |m| then r == MessageTooBig else r == Got(|m|) && p[..|m|] == m)
    {
      if |queue| == 0 && !unwanted { return Waits; }
      if unwanted { return ReadTerminated; }
      var buf := queue[0];
      queue, fetched := queue[1..], fetched + [buf];
      if p.Length < |buf| { return MessageTooBig; }
      forall i | 0 <= i < |buf| { p[i] := buf[i]; }
      return Got(|buf|);
    }

    method Push(b: Message)
      modifies this`queue
      ensures queue == old(queue) + [b]
    {
      queue := queue + [b];
    }
  }

  class BroadcastFile {
    var files: seq<BroadcastHandle>
    ghost var log: seq<Message>

    // Every listener has seen exactly the messages since its Open.
    ghost predicate Valid()
      reads this, files
    {
      && (forall i, j :: 0 <= i < j < |files| ==> files[i] != files[j])
      && (forall i :: 0 <= i < |files| ==> InWindow(files[i]))
    }

    ghost predicate InWindow(h: BroadcastHandle)
      reads this, h
    {
      h.consumer && !h.unwanted && h.openAt <= |log| && h.fetched + h.queue == log[h.openAt..]
    }

    constructor ()
      ensures Valid() && files == [] && log == []
    {
      files, log := [], [];
    }

    method Open(readable: bool) returns (x: BroadcastHandle)
      requires Valid()
      modifies this
      ensures Valid() && fresh(x) && x.consumer == readable && x.openAt == |log| && log == old(log)
      ensures files == if readable then old(files) + [x] else old(files)
    {
      x := new BroadcastHandle(readable, |log|);
      if readable {
        files := files + [x];
      }
    }

    method Push(b: Message)
      requires Valid()
      modifies this`log, files
      ensures Valid() && log == old(log) + [b]
      ensures forall h :: h in files ==> h.queue == old(h.queue) + [b] && h.fetched == old(h.fetched)
    {
      log := log + [b];
      var i := 0;
      while i < |files|
        invariant 0 <= i <= |files|
        invariant forall j :: 0 <= j < |files| ==> files[j].fetched == old(files[j].fetched) && !files[j].unwanted
        invariant forall j :: 0 <= j < |files| ==> files[j].queue == old(files[j].queue) + if j < i then [b] else []
        modifies files
      {
        files[i].Push(b);
        i := i + 1;
      }
      forall j | 0 <= j < |files| ensures InWindow(files[j]) {
        assert files[j].fetched + files[j].queue == old(files[j].fetched + files[j].queue) + [b];
      }
    }

    // Close empties and marks the handle, then takes it off the list.
    method Close(h: BroadcastHandle)
      requires Valid()
      modifies this`files, h`queue, h`unwanted
      ensures Valid() && h.queue == [] && h.unwanted && h !in files && log == old(log)
      ensures forall i :: 0 <= i < |old(files)| && old(files)[i] == h ==> files == old(files)[..i] + old(files)[i + 1..]
      ensures h !in old(files) ==> files == old(files)
    {
      h.queue, h.unwanted := [], true;
      if h.consumer {
        for i := 0 to |files|
          invariant files == old(files) && h !in files[..i]
        {
          if files[i] == h {
            files := files[..i] + files[i + 1..];
            return;
          }
        }
      }
    }
  }
}

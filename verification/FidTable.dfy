/** The fid table and the life of handles (fileserver.go: auth, attach, walk, open, create, clunk,
    remove, cleanup), at the granularity of the locks: `fidLock` guards the table, and each
    fidState has a lock of its own.  A request that takes its locks one after the other is split
    at that point, so that other requests may come between. */
module FidTable {
  import opened Qp

  // fidState.  `home` is the fid it was installed under; files are known by number.
  datatype FidState = FidState(home: Fid, location: seq<nat>, handle: Option<nat>)

  // `states` holds every fidState ever made and `fids` is fs.fids.  Handle h was opened into
  // states[owner[h]] and has been closed closes[h] times.
  datatype Table = Table(states: seq<FidState>, fids: map<Fid, nat>, owner: seq<nat>, closes: seq<nat>)

  predicate WellFormed(tb: Table) {
    && (forall f :: f in tb.fids ==> tb.fids[f] < |tb.states|)
    && |tb.closes| == |tb.owner|
    && (forall i :: 0 <= i < |tb.states| && tb.states[i].handle.Some? ==> tb.states[i].handle.value < |tb.closes|)
  }

  function Installed(tb: Table, f: Fid, location: seq<nat>): Table {
    tb.(states := tb.states + [FidState(f, location, None)], fids := tb.fids[f := |tb.states|])
  }

  // A new handle goes into states[i], whose location becomes `location`.
  function Opened(tb: Table, i: nat, location: seq<nat>): Table
    requires i < |tb.states|
  {
    tb.(states := tb.states[i := tb.states[i].(handle := Some(|tb.owner|), location := location)],
        owner := tb.owner + [i], closes := tb.closes + [0])
  }

  function Closed(tb: Table, i: nat): Table
    requires WellFormed(tb) && i < |tb.states|
  {
    match tb.states[i].handle
    case None => tb
    case Some(h) =>
      tb.(states := tb.states[i := tb.states[i].(handle := None)], closes := tb.closes[h := tb.closes[h] + 1])
  }

  // clunk, and the part of remove that concerns the fid.
  function Clunked(tb: Table, f: Fid): Table
    requires WellFormed(tb)
  {
    if f in tb.fids then Closed(tb, tb.fids[f]).(fids := tb.fids - {f}) else tb
  }

  // auth; `opens` is whether AuthFile.Open succeeds.
  function Authed(tb: Table, f: Fid, opens: bool): Table {
    if f == NOFID || f in tb.fids || !opens then tb else Opened(Installed(tb, f, []), |tb.states|, [])
  }

  // attach; `admitted` is the outcome of the checks on the afid and the service.  The fid is
  // installed before the root's Qid is asked for, so a failing Qid does not undo it.
  function Attached(tb: Table, f: Fid, admitted: bool, root: nat): Table {
    if f == NOFID || f in tb.fids || !admitted then tb else Installed(tb, f, [root])
  }

  // The locked part of open; `opens` is whether the file allows it.
  function OpenedAt(tb: Table, i: nat, opens: bool): Table
    requires i < |tb.states|
  {
    var st := tb.states[i];
    if st.handle.Some? || st.location == [] || !opens then tb else Opened(tb, i, st.location)
  }

  // The locked part of create; `made` is the file that was created and opened, if it was.
  function CreatedAt(tb: Table, i: nat, made: Option<nat>): Table
    requires i < |tb.states|
  {
    var st := tb.states[i];
    if st.handle.Some? || st.location == [] || made.None? then tb else Opened(tb, i, st.location + [made.value])
  }

  // The second critical section of walk.  With f == g the fid may be gone by now.
  function Walked(tb: Table, f: Fid, g: Fid, location: seq<nat>): Table
    requires WellFormed(tb)
  {
    if f == g then
      if g in tb.fids && tb.states[tb.fids[g]].handle.None? then Installed(tb, g, location) else tb
    else if g in tb.fids then tb
    else Installed(tb, g, location)
  }

  // ---- Interleavings -----------------------------------------------------------------------

  // Where a request stands between two of its critical sections.
  datatype Pc =
    | Opening(i: nat)                          // open has looked up its fidState
    | Creating(i: nat)                         // create has
    | Walking(f: Fid, g: Fid, i: nat)           // walk has
    | Arrived(f: Fid, g: Fid, location: seq<nat>)  // walkTo has produced a new fidState

  // `cleaning` is the set of fids that a cleanup in progress has yet to visit; cleanup holds
  // fidLock all along, but takes each fidState's lock only for its turn.  `jammed` is a walk having
  // dereferenced nil with fidLock held: nobody gets the lock any more, the cleanup that follows the
  // panic included.
  datatype State = State(tb: Table, threads: map<nat, Pc>, cleaning: Option<set<Fid>>, jammed: bool)

  datatype Action =
    | Auth(f: Fid, opens: bool)
    | Attach(f: Fid, admitted: bool, root: nat)
    | Clunk(f: Fid)                            // also remove
    | OpenLookup(id: nat, f: Fid, create: bool)
    | OpenFinish(id: nat, opens: bool)
    | CreateFinish(id: nat, made: Option<nat>)
    | WalkLookup(id: nat, f: Fid, g: Fid)
    | WalkRun(id: nat, result: Option<seq<nat>>)
    | WalkFinish(id: nat)
    | CleanStart
    | CleanOne(f: Fid)
    | CleanEnd

  predicate TakesFidLock(a: Action) {
    a.Auth? || a.Attach? || a.Clunk? || a.OpenLookup? || a.WalkLookup? || a.WalkFinish? || a.CleanStart?
  }

  predicate Enabled(s: State, a: Action) {
    && (TakesFidLock(a) ==> s.cleaning == None && !s.jammed)
    && match a
       case OpenLookup(id, f, _) => id !in s.threads && f in s.tb.fids
       case OpenFinish(id, _) => id in s.threads && s.threads[id].Opening?
       case CreateFinish(id, _) => id in s.threads && s.threads[id].Creating?
       case WalkLookup(id, f, g) =>
         id !in s.threads && g != NOFID && f in s.tb.fids && (f == g || g !in s.tb.fids)
       case WalkRun(id, _) => id in s.threads && s.threads[id].Walking?
       case WalkFinish(id) => id in s.threads && s.threads[id].Arrived?
       case CleanOne(f) => s.cleaning.Some? && f in s.cleaning.value && f in s.tb.fids
       case CleanEnd => s.cleaning == Some({})
       case _ => true
  }

  function Apply(s: State, a: Action): State
    requires Linked(s) && Enabled(s, a)
  {
    match a
    case Auth(f, opens) => s.(tb := Authed(s.tb, f, opens))
    case Attach(f, admitted, root) => s.(tb := Attached(s.tb, f, admitted, root))
    case Clunk(f) => s.(tb := Clunked(s.tb, f))
    case OpenLookup(id, f, create) =>
      s.(threads := s.threads[id := if create then Creating(s.tb.fids[f]) else Opening(s.tb.fids[f])])
    case OpenFinish(id, opens) =>
      s.(tb := OpenedAt(s.tb, s.threads[id].i, opens), threads := s.threads - {id})
    case CreateFinish(id, made) =>
      s.(tb := CreatedAt(s.tb, s.threads[id].i, made), threads := s.threads - {id})
    case WalkLookup(id, f, g) => s.(threads := s.threads[id := Walking(f, g, s.tb.fids[f])])
    case WalkRun(id, result) =>
      // walkTo refuses an open fid and one without a location; otherwise its answer is the tree's.
      var pc := s.threads[id];
      var st := s.tb.states[pc.i];
      if st.location == [] || st.handle.Some? || result.None? then s.(threads := s.threads - {id})
      else s.(threads := s.threads[id := Arrived(pc.f, pc.g, result.value)])
    case WalkFinish(id) =>
      var pc := s.threads[id];
      s.(tb := Walked(s.tb, pc.f, pc.g, pc.location), threads := s.threads - {id},
         jammed := pc.f == pc.g && pc.f !in s.tb.fids)
    case CleanStart => s.(cleaning := Some(s.tb.fids.Keys))
    case CleanOne(f) => s.(tb := Closed(s.tb, s.tb.fids[f]), cleaning := Some(s.cleaning.value - {f}))
    case CleanEnd => s.(tb := s.tb.(fids := map[]), cleaning := None)
  }

  // walkTo refuses an open fid and one without a location, or its walk fails; else it goes on to replace
  // or install a fid.
  lemma WalkGoesOnIff(s: State, id: nat, result: Option<seq<nat>>)
    requires Linked(s) && Enabled(s, WalkRun(id, result))
    ensures var st := s.tb.states[s.threads[id].i];
      var s' := Apply(s, WalkRun(id, result));
      && (id in s'.threads <==> st.location != [] && st.handle == None && result.Some?)
      && (id in s'.threads ==> s'.threads[id] == Arrived(s.threads[id].f, s.threads[id].g, result.value))
  {
  }

  predicate Linked(s: State) {
    && WellFormed(s.tb)
    && (forall id :: id in s.threads && !s.threads[id].Arrived? ==> s.threads[id].i < |s.tb.states|)
  }

  predicate Init(s: State) {
    s == State(Table([], map[], [], []), map[], None, false)
  }

  // ---- Ownership ---------------------------------------------------------------------------

  // A handle is either still in the one fidState it was opened into, never closed, or it has
  // left it and been closed exactly once.
  predicate HandleOwned(tb: Table, h: nat) {
    h < |tb.owner| == |tb.closes| ==>
      && tb.owner[h] < |tb.states|
      && tb.closes[h] == (if tb.states[tb.owner[h]].handle == Some(h) then 0 else 1)
  }

  predicate StateOwned(tb: Table, i: nat) {
    i < |tb.states| && tb.states[i].handle.Some? ==>
      tb.states[i].handle.value < |tb.owner| && tb.owner[tb.states[i].handle.value] == i
  }

  predicate FidOwned(tb: Table, f: Fid) {
    f in tb.fids ==> tb.fids[f] < |tb.states| && tb.states[tb.fids[f]].home == f
  }

  ghost predicate Owned(tb: Table) {
    && WellFormed(tb)
    && (forall h :: HandleOwned(tb, h))
    && (forall i :: StateOwned(tb, i))
    && (forall f :: FidOwned(tb, f))
  }

  lemma InstalledOwned(tb: Table, f: Fid, location: seq<nat>)
    requires Owned(tb)
    ensures Owned(Installed(tb, f, location))
  {
    var tb' := Installed(tb, f, location);
    forall h ensures HandleOwned(tb', h) { assert HandleOwned(tb, h); }
    forall i ensures StateOwned(tb', i) { assert StateOwned(tb, i); }
    forall g ensures FidOwned(tb', g) { assert FidOwned(tb, g); }
  }

  lemma OpenedOwned(tb: Table, i: nat, location: seq<nat>)
    requires Owned(tb) && i < |tb.states| && tb.states[i].handle == None
    ensures Owned(Opened(tb, i, location))
  {
    var tb' := Opened(tb, i, location);
    forall h ensures HandleOwned(tb', h) { assert HandleOwned(tb, h); }
    forall j ensures StateOwned(tb', j) { assert StateOwned(tb, j); }
    forall g ensures FidOwned(tb', g) { assert FidOwned(tb, g); }
  }

  lemma ClosedOwned(tb: Table, i: nat)
    requires Owned(tb) && i < |tb.states|
    ensures Owned(Closed(tb, i))
  {
    var tb' := Closed(tb, i);
    assert StateOwned(tb, i);
    forall h ensures HandleOwned(tb', h) { assert HandleOwned(tb, h); }
    forall j ensures StateOwned(tb', j) { assert StateOwned(tb, j); }
    forall g ensures FidOwned(tb', g) { assert FidOwned(tb, g); }
  }

  lemma FewerFidsOwned(tb: Table, fids: map<Fid, nat>)
    requires Owned(tb) && forall f :: f in fids ==> f in tb.fids && fids[f] == tb.fids[f]
    ensures Owned(tb.(fids := fids))
  {
    var tb' := tb.(fids := fids);
    forall h ensures HandleOwned(tb', h) { assert HandleOwned(tb, h); }
    forall j ensures StateOwned(tb', j) { assert StateOwned(tb, j); }
    forall g ensures FidOwned(tb', g) { assert FidOwned(tb, g); }
  }

  ghost predicate Inv(s: State) {
    Owned(s.tb) && Linked(s)
  }

  lemma StepOwned(s: State, a: Action)
    requires Inv(s) && Enabled(s, a)
    ensures Inv(Apply(s, a))
  {
    match a
    case Auth(f, opens) =>
      InstalledOwned(s.tb, f, []);
      OpenedOwned(Installed(s.tb, f, []), |s.tb.states|, []);
    case Attach(f, admitted, root) => InstalledOwned(s.tb, f, [root]);
    case Clunk(f) =>
      if f in s.tb.fids {
        ClosedOwned(s.tb, s.tb.fids[f]);
        FewerFidsOwned(Closed(s.tb, s.tb.fids[f]), s.tb.fids - {f});
      }
    case OpenFinish(id, opens) =>
      var i := s.threads[id].i;
      if s.tb.states[i].handle.None? { OpenedOwned(s.tb, i, s.tb.states[i].location); }
    case CreateFinish(id, made) =>
      var i := s.threads[id].i;
      if s.tb.states[i].handle.None? && made.Some? { OpenedOwned(s.tb, i, s.tb.states[i].location + [made.value]); }
    case WalkFinish(id) => InstalledOwned(s.tb, s.threads[id].g, s.threads[id].location);
    case CleanOne(f) => ClosedOwned(s.tb, s.tb.fids[f]);
    case CleanEnd => FewerFidsOwned(s.tb, map[]);
    case _ =>
  }

  ghost predicate Reaches(s: State, acts: seq<Action>, s': State)
    requires Inv(s)
    ensures Reaches(s, acts, s') ==> Inv(s')
    decreases |acts|
  {
    if acts == [] then s == s'
    else Enabled(s, acts[0]) && (StepOwned(s, acts[0]); Reaches(Apply(s, acts[0]), acts[1..], s'))
  }

  predicate Holds(tb: Table, i: nat, h: nat) {
    i < |tb.states| && tb.states[i].handle == Some(h)
  }

  // In every interleaving a handle sits in at most one fidState, is closed at most once, and is
  // closed precisely when it has left the fidState it was opened into.
  lemma HandleLife(s0: State, acts: seq<Action>, s: State, h: nat)
    requires Init(s0) && Reaches(s0, acts, s) && h < |s.tb.owner|
    ensures forall i, j :: Holds(s.tb, i, h) && Holds(s.tb, j, h) ==> i == j
    ensures |s.tb.closes| == |s.tb.owner| && s.tb.closes[h] <= 1
    ensures s.tb.closes[h] == 0 <==> exists i :: Holds(s.tb, i, h)
  {
    assert HandleOwned(s.tb, h);
    forall i | Holds(s.tb, i, h)
      ensures i == s.tb.owner[h]
    {
      assert StateOwned(s.tb, i);
    }
    assert s.tb.closes[h] == 0 ==> Holds(s.tb, s.tb.owner[h], h);
  }

  // ---- What is installed -------------------------------------------------------------------

  predicate Shows(tb: Table, f: Fid, st: FidState) {
    f in tb.fids && tb.fids[f] < |tb.states| && tb.states[tb.fids[f]] == st
  }

  // auth, attach and the end of a walk put a fid in the table, at no location, at the root or where the
  // walk led; auth opens a handle for it.  The other fids stay as they are.
  lemma Installs(s: State, a: Action)
    requires Inv(s) && Enabled(s, a)
    ensures a.Auth? && a.f != NOFID && a.f !in s.tb.fids && a.opens ==>
      Shows(Apply(s, a).tb, a.f, FidState(a.f, [], Some(|s.tb.owner|))) && Apply(s, a).tb.closes == s.tb.closes + [0]
    ensures a.Attach? && a.f != NOFID && a.f !in s.tb.fids && a.admitted ==>
      Shows(Apply(s, a).tb, a.f, FidState(a.f, [a.root], None))
    ensures a.WalkFinish? ==>
      var pc := s.threads[a.id];
      if (if pc.f == pc.g then pc.f in s.tb.fids && s.tb.states[s.tb.fids[pc.f]].handle.None? else pc.g !in s.tb.fids)
      then Shows(Apply(s, a).tb, pc.g, FidState(pc.g, pc.location, None))
      else Apply(s, a).tb == s.tb
    ensures a.Auth? || a.Attach? || a.WalkFinish? ==>
      forall f, st :: Shows(s.tb, f, st) && f != (if a.WalkFinish? then s.threads[a.id].g else a.f) ==>
        Shows(Apply(s, a).tb, f, st)
  {
  }

  // ---- Leaks -------------------------------------------------------------------------------

  predicate InTable(tb: Table, i: nat)
    requires i < |tb.states|
  {
    tb.states[i].home in tb.fids && tb.fids[tb.states[i].home] == i
  }

  predicate TidyState(tb: Table, i: nat) {
    i < |tb.states| && tb.states[i].handle.Some? ==> InTable(tb, i)
  }

  // Every open handle can still be reached through the fid table.
  ghost predicate Tidy(tb: Table) {
    forall i :: TidyState(tb, i)
  }

  // The steps that lose a handle: an open or create that finishes after its fidState has left
  // the table, and the end of a cleanup that an open has overtaken.
  predicate Leaks(s: State, a: Action)
    requires Linked(s) && Enabled(s, a)
  {
    match a
    case OpenFinish(id, opens) =>
      var i := s.threads[id].i;
      s.tb.states[i].handle.None? && s.tb.states[i].location != [] && opens && !InTable(s.tb, i)
    case CreateFinish(id, made) =>
      var i := s.threads[id].i;
      s.tb.states[i].handle.None? && s.tb.states[i].location != [] && made.Some? && !InTable(s.tb, i)
    case CleanEnd => exists f :: f in s.tb.fids && s.tb.states[s.tb.fids[f]].handle.Some?
    case _ => false
  }

  lemma LeaksIff(s: State, a: Action)
    requires Inv(s) && Tidy(s.tb) && Enabled(s, a)
    ensures Tidy(Apply(s, a).tb) <==> !Leaks(s, a)
  {
    var tb' := Apply(s, a).tb;
    if Leaks(s, a) {
      var i := if a.CleanEnd? then
                 var f :| f in s.tb.fids && s.tb.states[s.tb.fids[f]].handle.Some?; s.tb.fids[f]
               else s.threads[a.id].i;
      assert !TidyState(tb', i);
    } else {
      forall i ensures TidyState(tb', i) { TidyStateStep(s, a, i); }
    }
  }

  lemma TidyStateStep(s: State, a: Action, i: nat)
    requires Inv(s) && Tidy(s.tb) && Enabled(s, a) && !Leaks(s, a)
    ensures TidyState(Apply(s, a).tb, i)
  {
    assert TidyState(s.tb, i) && StateOwned(s.tb, i);
    if i < |s.tb.states| { assert FidOwned(s.tb, s.tb.states[i].home); }
    if a.Clunk? { assert FidOwned(s.tb, a.f); }
    if a.CleanOne? { assert FidOwned(s.tb, a.f); }
  }

  // What is lost stays lost: no later step, cleanup included, closes a handle whose fidState has
  // left the table.
  lemma {:induction false} LostForever(s: State, acts: seq<Action>, s': State, i: nat, h: nat)
    requires Inv(s) && Reaches(s, acts, s') && Holds(s.tb, i, h) && !InTable(s.tb, i)
    ensures Holds(s'.tb, i, h) && h < |s'.tb.closes| && s'.tb.closes[h] == 0
    decreases |acts|
  {
    assert StateOwned(s.tb, i) && HandleOwned(s.tb, h);
    if acts != [] {
      var a := acts[0];
      StepOwned(s, a);
      if a.Clunk? || a.CleanOne? { assert FidOwned(s.tb, a.f); }
      LostForever(Apply(s, a), acts[1..], s', i, h);
    }
  }

  // ---- Cleanup as a whole ------------------------------------------------------------------

  // Every fidState in the table, save those under the fids in `rest`, has given up its handle.
  function CleanedState(tb: Table, rest: set<Fid>, i: nat): FidState
    requires i < |tb.states|
  {
    if InTable(tb, i) && tb.states[i].home !in rest then tb.states[i].(handle := None) else tb.states[i]
  }

  function CleanedCount(tb: Table, rest: set<Fid>, h: nat): nat
    requires WellFormed(tb) && h < |tb.closes|
  {
    var i := tb.owner[h];
    tb.closes[h] + if Holds(tb, i, h) && InTable(tb, i) && tb.states[i].home !in rest then 1 else 0
  }

  function CleanedExcept(tb: Table, rest: set<Fid>): Table
    requires WellFormed(tb)
    ensures WellFormed(CleanedExcept(tb, rest))
  {
    Table(seq(|tb.states|, i requires 0 <= i < |tb.states| => CleanedState(tb, rest, i)), tb.fids, tb.owner,
          seq(|tb.closes|, h requires 0 <= h < |tb.closes| => CleanedCount(tb, rest, h)))
  }

  // A cleanup that nothing gets in the way of.
  function Cleaned(tb: Table): Table
    requires WellFormed(tb)
  {
    CleanedExcept(tb, {}).(fids := map[])
  }

  lemma CleanedNothing(tb: Table)
    requires Owned(tb)
    ensures CleanedExcept(tb, tb.fids.Keys) == tb
  {
    assert CleanedExcept(tb, tb.fids.Keys).states == tb.states;
    assert CleanedExcept(tb, tb.fids.Keys).closes == tb.closes;
  }

  lemma CleanedOneMore(tb: Table, rest: set<Fid>, f: Fid)
    requires Owned(tb) && f in rest && f in tb.fids
    ensures CleanedExcept(tb, rest - {f}) == Closed(CleanedExcept(tb, rest), tb.fids[f])
  {
    var i := tb.fids[f];
    assert FidOwned(tb, f) && StateOwned(tb, i);
    var l, r := CleanedExcept(tb, rest - {f}), Closed(CleanedExcept(tb, rest), i);
    forall j | 0 <= j < |tb.states| ensures l.states[j] == r.states[j] {}
    assert l.states == r.states;
    forall h | 0 <= h < |tb.closes| ensures l.closes[h] == r.closes[h] { assert HandleOwned(tb, h); }
    assert l.closes == r.closes;
  }

  // With every open handle in the table, a cleanup leaves none open.
  lemma CleanupClosesAll(tb: Table, h: nat)
    requires Owned(tb) && Tidy(tb) && h < |tb.owner|
    ensures Cleaned(tb).fids == map[] && Cleaned(tb).closes[h] == 1
  {
    assert HandleOwned(tb, h) && TidyState(tb, tb.owner[h]);
  }

  // One request at a time: a request, or a cleanup, starts only when no other is under way.
  predicate Starts(a: Action) {
    TakesFidLock(a) && !a.WalkFinish?
  }

  predicate Serial(s: State, a: Action) {
    Enabled(s, a) && (Starts(a) ==> s.threads == map[] && s.cleaning == None)
  }

  // The fid that a walk starts from is in the table.
  predicate OldFidThere(s: State, id: nat)
    requires id in s.threads
  {
    (s.threads[id].Walking? || s.threads[id].Arrived?) ==> s.threads[id].f in s.tb.fids
  }

  ghost predicate SerialInv(s: State) {
    && Inv(s) && Tidy(s.tb)
    && (forall id, id' :: id in s.threads && id' in s.threads ==> id == id')
    && (forall id :: id in s.threads && (s.threads[id].Opening? || s.threads[id].Creating?) ==>
        InTable(s.tb, s.threads[id].i))
    && (forall id :: id in s.threads ==> OldFidThere(s, id)) && !s.jammed
    && (s.cleaning.Some? ==> s.threads == map[])
    && (s.cleaning.Some? ==>
          forall f :: f in s.tb.fids && f !in s.cleaning.value ==> s.tb.states[s.tb.fids[f]].handle.None?)
  }

  lemma SerialStep(s: State, a: Action)
    requires SerialInv(s) && Serial(s, a)
    ensures SerialInv(Apply(s, a))
  {
    StepOwned(s, a);
    LeaksIff(s, a);
    if a.OpenLookup? { assert FidOwned(s.tb, a.f); }
    if a.CleanOne? {
      forall f | f in s.tb.fids ensures FidOwned(s.tb, f) {}
      assert StateOwned(s.tb, s.tb.fids[a.f]);
    }
  }

  ghost predicate SerialRun(s: State, acts: seq<Action>, s': State)
    requires Inv(s)
    decreases |acts|
  {
    if acts == [] then s == s'
    else Serial(s, acts[0]) && (StepOwned(s, acts[0]); SerialRun(Apply(s, acts[0]), acts[1..], s'))
  }

  lemma {:induction false} SerialRunKeeps(s: State, acts: seq<Action>, s': State)
    requires SerialInv(s) && SerialRun(s, acts, s')
    ensures SerialInv(s')
    decreases |acts|
  {
    if acts != [] {
      SerialStep(s, acts[0]);
      SerialRunKeeps(Apply(s, acts[0]), acts[1..], s');
    }
  }

  // When requests run one at a time, the handles that were opened and not closed are exactly the
  // handles in the fid table; once a cleanup has emptied the table, none is left.
  lemma SerialHandles(s0: State, acts: seq<Action>, s: State, h: nat)
    requires Init(s0) && SerialRun(s0, acts, s) && h < |s.tb.owner|
    ensures |s.tb.closes| == |s.tb.owner| && WellFormed(s.tb)
    ensures s.tb.closes[h] == 0 <==> exists f :: f in s.tb.fids && s.tb.states[s.tb.fids[f]].handle == Some(h)
    ensures s.tb.fids == map[] ==> s.tb.closes[h] == 1
    ensures !s.jammed
  {
    SerialRunKeeps(s0, acts, s);
    assert HandleOwned(s.tb, h);
    var i := s.tb.owner[h];
    if s.tb.closes[h] == 0 {
      assert TidyState(s.tb, i);
      var f := s.tb.states[i].home;
      assert f in s.tb.fids && s.tb.states[s.tb.fids[f]].handle == Some(h);
    }
    forall f | f in s.tb.fids && s.tb.states[s.tb.fids[f]].handle == Some(h)
      ensures s.tb.fids[f] == i
    {
      assert StateOwned(s.tb, s.tb.fids[f]);
    }
  }

  lemma {:induction false} OneMore(s: State, acts: seq<Action>, s1: State, a: Action, s2: State)
    requires Inv(s) && Reaches(s, acts, s1) && Enabled(s1, a) && s2 == Apply(s1, a)
    ensures Reaches(s, acts + [a], s2)
    decreases |acts|
  {
    StepOwned(s1, a);
    if acts == [] {
      assert [a][1..] == [];
      assert Reaches(s2, [], s2);
    } else {
      StepOwned(s, acts[0]);
      OneMore(Apply(s, acts[0]), acts[1..], s1, a, s2);
      assert (acts + [a])[1..] == acts[1..] + [a];
    }
  }

  // Interleaved requests can lose a handle for good: a clunk between the two halves of an open
  // leaves the handle in a fidState that no cleanup will ever visit.
  lemma ClunkDuringOpenLeaks(s0: State, f: Fid) returns (acts: seq<Action>, s: State)
    requires Init(s0) && f != NOFID
    ensures Reaches(s0, acts, s)
    ensures s.tb.fids == map[] && s.threads == map[] && s.cleaning == None && !s.jammed
    ensures s.tb.closes == [0] && Holds(s.tb, 0, 0) && !InTable(s.tb, 0)
  {
    var st, open := FidState(f, [0], None), FidState(f, [0], Some(0));
    var s1 := State(Table([st], map[f := 0], [], []), map[], None, false);
    var s2 := State(Table([st], map[f := 0], [], []), map[0 := Opening(0)], None, false);
    var s3 := State(Table([st], map[], [], []), map[0 := Opening(0)], None, false);
    var s4 := State(Table([open], map[], [0], [0]), map[], None, false);
    OneMore(s0, [], s0, Attach(f, true, 0), s1);
    acts := [] + [Attach(f, true, 0)];
    OneMore(s0, acts, s1, OpenLookup(0, f, false), s2);
    acts := acts + [OpenLookup(0, f, false)];
    OneMore(s0, acts, s2, Clunk(f), s3);
    acts := acts + [Clunk(f)];
    OneMore(s0, acts, s3, OpenFinish(0, true), s4);
    acts := acts + [OpenFinish(0, true)];
    s := s4;
  }

  // ---- A walk that loses its own fid ---------------------------------------------------------

  // A fid leaves the table by a clunk or remove of it, or by the end of a cleanup, and no other way.
  lemma GoneIff(s: State, a: Action, f: Fid)
    requires Inv(s) && Enabled(s, a) && f in s.tb.fids
    ensures f !in Apply(s, a).tb.fids <==> a == Clunk(f) || a == CleanEnd
  {
  }

  // A walk from a fid to itself jams fidLock if the fid is missing when it comes to replace it.  It was
  // there when the walk began, so it takes a clunk, remove or cleanup in between.
  lemma {:induction false} MissingAfterRemoval(s: State, acts: seq<Action>, s': State, f: Fid)
    requires Inv(s) && Reaches(s, acts, s') && f in s.tb.fids && f !in s'.tb.fids
    ensures exists i :: 0 <= i < |acts| && (acts[i] == Clunk(f) || acts[i] == CleanEnd)
    decreases |acts|
  {
    StepOwned(s, acts[0]);
    GoneIff(s, acts[0], f);
    if f in Apply(s, acts[0]).tb.fids {
      MissingAfterRemoval(Apply(s, acts[0]), acts[1..], s', f);
      var i :| 0 <= i < |acts[1..]| && (acts[1..][i] == Clunk(f) || acts[1..][i] == CleanEnd);
      assert acts[i + 1] == acts[1..][i];
    } else {
      assert acts[0] == Clunk(f) || acts[0] == CleanEnd;
    }
  }

  // After that the table is what it was for good, and the handles in it are never closed.
  lemma {:induction false} JammedForever(s: State, acts: seq<Action>, s': State, f: Fid, h: nat)
    requires Inv(s) && s.jammed && s.cleaning == None && Reaches(s, acts, s')
    requires f in s.tb.fids && Holds(s.tb, s.tb.fids[f], h)
    ensures s'.jammed && s'.tb.fids == s.tb.fids
    ensures Holds(s'.tb, s'.tb.fids[f], h) && h < |s'.tb.closes| && s'.tb.closes[h] == 0
    decreases |acts|
  {
    assert FidOwned(s.tb, f) && StateOwned(s.tb, s.tb.fids[f]) && HandleOwned(s.tb, h);
    if acts != [] {
      StepOwned(s, acts[0]);
      JammedForever(Apply(s, acts[0]), acts[1..], s', f, h);
    }
  }

  // It happens: a clunk between the two halves of a walk from a fid to itself.
  lemma ClunkDuringWalkJams(s0: State, f: Fid) returns (acts: seq<Action>, s: State)
    requires Init(s0) && f != NOFID
    ensures Reaches(s0, acts, s) && s.jammed
  {
    var s3;
    acts, s3 := WalkedHalf(s0, f);
    var s4 := s3.(tb := s3.tb.(fids := map[]));
    OneMore(s0, acts, s3, Clunk(f), s4);
    acts := acts + [Clunk(f)];
    s := Apply(s4, WalkFinish(0));
    OneMore(s0, acts, s4, WalkFinish(0), s);
    acts := acts + [WalkFinish(0)];
  }

  lemma WalkedHalf(s0: State, f: Fid) returns (acts: seq<Action>, s: State)
    requires Init(s0) && f != NOFID
    ensures Reaches(s0, acts, s)
    ensures s == State(Table([FidState(f, [0], None)], map[f := 0], [], []), map[0 := Arrived(f, f, [0])], None, false)
  {
    var s1 := State(Table([FidState(f, [0], None)], map[f := 0], [], []), map[], None, false);
    var s2 := s1.(threads := map[0 := Walking(f, f, 0)]);
    s := s1.(threads := map[0 := Arrived(f, f, [0])]);
    OneMore(s0, [], s0, Attach(f, true, 0), s1);
    acts := [] + [Attach(f, true, 0)];
    OneMore(s0, acts, s1, WalkLookup(0, f, f), s2);
    acts := acts + [WalkLookup(0, f, f)];
    OneMore(s0, acts, s2, WalkRun(0, Some([0])), s);
    acts := acts + [WalkRun(0, Some([0]))];
  }
}

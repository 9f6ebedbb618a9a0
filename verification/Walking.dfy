/** Walking (fileserver.go: walkTo; fileserver/utils.go: FilePath).  A location is a stack of
    files, from the attach root to the current file.  The tree's answers are functions, so they do
    not change during a walk; everything else about the tree is left open. */
module Walking {
  import opened Qp

  // Files, qids and errors are known by number only.
  type File = nat
  type Qid = nat
  type Error = nat

  datatype Answer<+T> = Yes(value: T) | No(error: Error)

  // The methods of trees.File and trees.Dir that a walk uses.  A file that Walk does not find is
  // None; an Arrived that does not divert the walk is None.
  datatype Tree = Tree(
    IsDir: File -> Answer<bool>,
    Walk: (string, File, string) -> Answer<Option<File>>,
    Arrived: (string, File) -> Answer<Option<File>>,
    Qid: File -> Answer<Qid>)

  const FID_NOT_DIRECTORY: Error := 1
  const NO_SUCH_FILE: Error := 2
  const INVALID_OP_ON_FID: Error := 3
  const FID_OPEN: Error := 4

  // ---- The walk as a fold ------------------------------------------------------------------

  // Entering a name from a directory: what the walk arrives at.
  function Enter(tree: Tree, user: string, dir: File, name: string): Answer<File> {
    match tree.Walk(user, dir, name)
    case No(e) => No(e)
    case Yes(None) => No(NO_SUCH_FILE)
    case Yes(Some(f)) =>
      match tree.Arrived(user, f)
      case No(e) => No(e)
      case Yes(None) => Yes(f)
      case Yes(Some(g)) => Yes(g)
  }

  // One step moves on, ends the walk where it is, or spoils it altogether.
  datatype Step = Moved(location: seq<File>, qid: Qid) | Ended(error: Error) | Spoiled(error: Error)

  function Landed(tree: Tree, location: seq<File>): Step
    requires location != []
  {
    match tree.Qid(location[|location| - 1])
    case No(e) => Spoiled(e)
    case Yes(q) => Moved(location, q)
  }

  function Up(location: seq<File>): seq<File>
    requires location != []
    ensures Up(location) != [] && Up(location)[0] == location[0]
  {
    if |location| > 1 then location[..|location| - 1] else location
  }

  function StepTo(tree: Tree, user: string, location: seq<File>, name: string): Step
    requires location != []
    ensures StepTo(tree, user, location, name).Moved? ==> StepTo(tree, user, location, name).location != []
  {
    var cur := location[|location| - 1];
    if name == "." then Landed(tree, location)
    else if name == ".." then Landed(tree, Up(location))
    else match tree.IsDir(cur)
      case No(e) => Spoiled(e)
      case Yes(false) => Ended(FID_NOT_DIRECTORY)
      case Yes(true) =>
        match Enter(tree, user, cur, name)
        case No(e) => Ended(e)
        case Yes(f) => Landed(tree, location + [f])
  }

  datatype Outcome =
    | Complete(location: seq<File>, qids: seq<Qid>)
    | Stopped(qids: seq<Qid>, error: Error)
    | Aborted(error: Error)

  function Walk(tree: Tree, user: string, location: seq<File>, names: seq<string>): Outcome
    requires location != []
    decreases |names|
  {
    if names == [] then Complete(location, [])
    else match StepTo(tree, user, location, names[0])
      case Ended(e) => Stopped([], e)
      case Spoiled(e) => Aborted(e)
      case Moved(location', q) => Prepend(q, Walk(tree, user, location', names[1..]))
  }

  function Prepend(q: Qid, o: Outcome): Outcome {
    match o
    case Complete(location, qids) => Complete(location, [q] + qids)
    case Stopped(qids, e) => Stopped([q] + qids, e)
    case Aborted(e) => Aborted(e)
  }

  // ---- Properties of the fold ----------------------------------------------------------------

  function AppendQids(qids: seq<Qid>, o: Outcome): Outcome {
    match o
    case Complete(location, more) => Complete(location, qids + more)
    case Stopped(more, e) => Stopped(qids + more, e)
    case Aborted(e) => Aborted(e)
  }

  lemma AppendPrepend(qids: seq<Qid>, q: Qid, o: Outcome)
    ensures AppendQids(qids, Prepend(q, o)) == AppendQids(qids + [q], o)
    ensures Prepend(q, AppendQids(qids, o)) == AppendQids([q] + qids, o)
  {
    if !o.Aborted? {
      assert qids + ([q] + o.qids) == qids + [q] + o.qids;
      assert [q] + (qids + o.qids) == [q] + qids + o.qids;
    }
  }

  // The outcome of a followed by b.
  function Then(tree: Tree, user: string, first: Outcome, b: seq<string>): Outcome {
    if !first.Complete? || first.location == [] then first
    else AppendQids(first.qids, Walk(tree, user, first.location, b))
  }

  // Walking a and then b is walking a ++ b: it completes just when both walks do, ends where the
  // second one ends, and yields their qids one after the other.
  lemma {:induction false} WalkConcat(tree: Tree, user: string, location: seq<File>, a: seq<string>, b: seq<string>)
    requires location != []
    ensures Walk(tree, user, location, a).Complete? ==> Walk(tree, user, location, a).location != []
    ensures Walk(tree, user, location, a + b) == Then(tree, user, Walk(tree, user, location, a), b)
    decreases |a|
  {
    if a == [] {
      assert a + b == b;
      var o := Walk(tree, user, location, b);
      if !o.Aborted? { assert [] + o.qids == o.qids; }
    } else {
      assert (a + b)[1..] == a[1..] + b;
      match StepTo(tree, user, location, a[0])
      case Ended(_) =>
      case Spoiled(_) =>
      case Moved(l, q) =>
        WalkConcat(tree, user, l, a[1..], b);
        var first := Walk(tree, user, l, a[1..]);
        if first.Complete? { AppendPrepend(first.qids, q, Walk(tree, user, first.location, b)); }
    }
  }

  // A walk that completes yields one qid per name; one that stops yields fewer.
  lemma {:induction false} QidCount(tree: Tree, user: string, location: seq<File>, names: seq<string>)
    requires location != []
    ensures var o := Walk(tree, user, location, names);
      && (o.Complete? ==> |o.qids| == |names|)
      && (o.Stopped? ==> |o.qids| < |names|)
    decreases |names|
  {
    if names != [] {
      var st := StepTo(tree, user, location, names[0]);
      if st.Moved? { QidCount(tree, user, st.location, names[1..]); }
    }
  }

  // Every file above the root of a location was entered from the one below it.
  ghost predicate Grounded(tree: Tree, user: string, location: seq<File>) {
    forall i :: 1 <= i < |location| ==> EnteredFrom(tree, user, location[i - 1], location[i])
  }

  // The directory below answers Walk with f0 for some name; f is what the arrival at f0 diverts to, or
  // else f0 itself.
  ghost predicate EnteredFrom(tree: Tree, user: string, below: File, f: File) {
    exists name, f0 :: name != "." && name != ".." && LeadsTo(tree, user, below, name, f0, f)
  }

  predicate LeadsTo(tree: Tree, user: string, below: File, name: string, f0: File, f: File) {
    && tree.IsDir(below) == Yes(true) && tree.Walk(user, below, name) == Yes(Some(f0))
    && (tree.Arrived(user, f0) == Yes(Some(f)) || (tree.Arrived(user, f0) == Yes(None) && f == f0))
  }

  // A walk never leaves its attach root and only ever stands on entered files.
  lemma {:induction false} WalkGrounded(tree: Tree, user: string, location: seq<File>, names: seq<string>)
    requires location != [] && Grounded(tree, user, location)
    ensures var o := Walk(tree, user, location, names);
      o.Complete? ==> o.location != [] && o.location[0] == location[0] && Grounded(tree, user, o.location)
    decreases |names|
  {
    if names != [] {
      var st := StepTo(tree, user, location, names[0]);
      if st.Moved? {
        forall i | 1 <= i < |st.location|
          ensures EnteredFrom(tree, user, st.location[i - 1], st.location[i])
        {
          if i < |location| {
            assert EnteredFrom(tree, user, location[i - 1], location[i]);
          } else {
            EnterLeads(tree, user, location[i - 1], names[0]);
          }
        }
        WalkGrounded(tree, user, st.location, names[1..]);
      }
    }
  }

  lemma EnterLeads(tree: Tree, user: string, dir: File, name: string)
    requires tree.IsDir(dir) == Yes(true) && Enter(tree, user, dir, name).Yes?
    ensures LeadsTo(tree, user, dir, name, tree.Walk(user, dir, name).value.value, Enter(tree, user, dir, name).value)
  {
  }

  // ---- Where one name leads --------------------------------------------------------------------

  // To a file that the directory answers with, or that its arrival diverts to, if its qid can be had.
  lemma NameLeads(tree: Tree, user: string, location: seq<File>, name: string, f0: File, f: File)
    requires location != [] && name != "." && name != ".."
    requires LeadsTo(tree, user, location[|location| - 1], name, f0, f)
    ensures match tree.Qid(f)
      case Yes(q) => Walk(tree, user, location, [name]) == Complete(location + [f], [q])
      case No(e) => Walk(tree, user, location, [name]) == Aborted(e)
  {
    assert [name][1..] == [];
    assert (location + [f])[|location + [f]| - 1] == f;
    assert Walk(tree, user, location + [f], []) == Complete(location + [f], []);
  }

  // "." stays, and ".." goes one down, the root being below itself.
  lemma DotsLead(tree: Tree, user: string, location: seq<File>, name: string)
    requires location != [] && (name == "." || name == "..")
    ensures var to := if name == "." || |location| == 1 then location else location[..|location| - 1];
      match tree.Qid(to[|to| - 1])
      case Yes(q) => Walk(tree, user, location, [name]) == Complete(to, [q])
      case No(e) => Walk(tree, user, location, [name]) == Aborted(e)
  {
    var to := if name == "." || |location| == 1 then location else location[..|location| - 1];
    assert [name][1..] == [];
    assert Walk(tree, user, to, []) == Complete(to, []);
  }

  // Every way in which a name leads nowhere, and the error of each.
  lemma NameFails(tree: Tree, user: string, location: seq<File>, name: string)
    requires location != [] && name != "." && name != ".."
    ensures var dir := location[|location| - 1];
      var o := Walk(tree, user, location, [name]);
      && (tree.IsDir(dir).No? ==> o == Aborted(tree.IsDir(dir).error))
      && (tree.IsDir(dir) == Yes(false) ==> o == Stopped([], FID_NOT_DIRECTORY))
      && (tree.IsDir(dir) == Yes(true) ==>
            && (tree.Walk(user, dir, name).No? ==> o == Stopped([], tree.Walk(user, dir, name).error))
            && (tree.Walk(user, dir, name) == Yes(None) ==> o == Stopped([], NO_SUCH_FILE))
            && forall f0 :: tree.Walk(user, dir, name) == Yes(Some(f0)) && tree.Arrived(user, f0).No? ==>
                 o == Stopped([], tree.Arrived(user, f0).error))
  {
  }

  // ---- FilePath as a Go slice ----------------------------------------------------------------

  // A slice shares its backing array with every other slice cut from it.
  datatype FilePath = FilePath(buf: array<File>, len: nat) {
    ghost predicate Valid() { len <= buf.Length }

    function View(): seq<File>
      requires Valid()
      reads buf
    {
      buf[..len]
    }

    function Current(): Option<File>
      requires Valid()
      reads buf
      ensures Current() == if View() == [] then None else Some(View()[|View()| - 1])
    {
      if len == 0 then None else Some(buf[len - 1])
    }

    function Parent(): Option<File>
      requires Valid()
      reads buf
      ensures View() != [] ==> Parent() == Some(Up(View())[|Up(View())| - 1])
      ensures View() == [] ==> Parent() == None
    {
      if len == 0 then None else if len == 1 then Some(buf[len - 1]) else Some(buf[len - 2])
    }

    method Clone() returns (n: FilePath)
      requires Valid()
      ensures n.Valid() && fresh(n.buf) && n.View() == View()
    {
      var b := new File[len];
      var i := 0;
      while i < len
        invariant 0 <= i <= len
        invariant b[..i] == buf[..i]
      {
        b[i] := buf[i];
        i := i + 1;
      }
      n := FilePath(b, len);
    }

    // append: in place while there is room, into a new array otherwise.
    method Append(f: File) returns (n: FilePath)
      requires Valid()
      modifies buf
      ensures n.Valid() && (n.buf == buf || fresh(n.buf)) && n.View() == old(View()) + [f]
    {
      if len < buf.Length {
        buf[len] := f;
        n := FilePath(buf, len + 1);
      } else {
        var b := new File[2 * len + 1];
        forall i | 0 <= i < len { b[i] := buf[i]; }
        b[len] := f;
        n := FilePath(b, len + 1);
      }
    }
  }

  class FidState {
    var location: FilePath
    var open: bool
    var username: string

    constructor (location: FilePath, username: string)
      ensures this.location == location && !open && this.username == username
    {
      this.location, open, this.username := location, false, username;
    }
  }

  // What walkTo returns: a new fidState and all qids, no fidState and some qids, or an error.
  datatype Result = Reached(state: FidState, qids: seq<Qid>) | Partial(qids: seq<Qid>) | Failed(error: Error)

  // What the fold's outcome looks like to the caller of walkTo.
  ghost predicate Reports(r: Result, o: Outcome, user: string)
    reads if r.Reached? then {r.state, r.state.location.buf} else {}
  {
    match o
    case Complete(location, qids) =>
      && r.Reached? && r.qids == qids
      && r.state.location.Valid() && r.state.location.View() == location && r.state.username == user && !r.state.open
    case Stopped(qids, e) => r == if qids == [] then Failed(e) else Partial(qids)
    case Aborted(e) => r == Failed(e)
  }

  // What the next step does to the whole walk.
  lemma WalkOneStep(tree: Tree, user: string, start: seq<File>, names: seq<string>, i: nat, qids: seq<Qid>,
                    here: seq<File>)
    requires start != [] && here != [] && i < |names|
    requires Walk(tree, user, start, names) == AppendQids(qids, Walk(tree, user, here, names[i..]))
    ensures match StepTo(tree, user, here, names[i])
      case Ended(e) => Walk(tree, user, start, names) == Stopped(qids, e)
      case Spoiled(e) => Walk(tree, user, start, names) == Aborted(e)
      case Moved(l, q) => Walk(tree, user, start, names) == AppendQids(qids + [q], Walk(tree, user, l, names[i + 1..]))
  {
    assert names[i..][0] == names[i] && names[i..][1..] == names[i + 1..];
    match StepTo(tree, user, here, names[i])
    case Ended(e) => assert qids + [] == qids;
    case Spoiled(e) =>
    case Moved(l, q) => AppendPrepend(qids, q, Walk(tree, user, l, names[i + 1..]));
  }

  // Walk to a name in a directory, then tell the file that it has been arrived at.
  method Descend(tree: Tree, user: string, dir: File, name: string) returns (r: Answer<File>)
    ensures r == Enter(tree, user, dir, name)
  {
    var f: File;
    match tree.Walk(user, dir, name) {
      case No(e) => return No(e);
      case Yes(None) => return No(NO_SUCH_FILE);
      case Yes(Some(g)) => f := g;
    }
    match tree.Arrived(user, f) {
      case No(e) => return No(e);
      case Yes(None) => return Yes(f);
      case Yes(Some(g)) => return Yes(g);
    }
  }

  datatype PathStep = Onward(newloc: FilePath, root: File, qid: Qid) | Break(error: Error) | Abort(error: Error)

  // The loop body of walkTo: go to `name` from the location, truncating or extending it in place.
  // The file that the walk has got to is carried along beside the location, and stays its top.
  method StepFrom(tree: Tree, user: string, location: FilePath, file: File, name: string) returns (r: PathStep)
    requires location.Valid() && location.Current() == Some(file)
    modifies location.buf
    ensures match StepTo(tree, user, old(location.View()), name)
      case Moved(l, q) =>
        && r.Onward? && r.qid == q && r.newloc.Valid() && r.newloc.View() == l
        && (r.newloc.buf == location.buf || fresh(r.newloc.buf))
        && r.newloc.Current() == Some(r.root)
      case Ended(e) => r == Break(e)
      case Spoiled(e) => r == Abort(e)
  {
    var newloc, root := location, file;
    if name == "." {
    } else if name == ".." {
      root := newloc.Parent().value;
      if newloc.len > 1 {
        newloc := newloc.(len := newloc.len - 1);
      }
    } else {
      var isdir := tree.IsDir(root);
      if isdir.No? { return Abort(isdir.error); }
      if !isdir.value { return Break(FID_NOT_DIRECTORY); }
      var next := Descend(tree, user, root, name);
      if next.No? { return Break(next.error); }
      root := next.value;
      newloc := newloc.Append(root);
    }
    match tree.Qid(root)
    case No(e) => return Abort(e);
    case Yes(q) => return Onward(newloc, root, q);
  }

  // walkTo modifies nothing that existed before, the old fid's location included.
  method WalkTo(tree: Tree, oldState: FidState, names: seq<string>) returns (r: Result)
    requires oldState.location.Valid()
    ensures r.Reached? ==> fresh(r.state) && fresh(r.state.location.buf)
    ensures oldState.location.View() == [] ==> r == Failed(INVALID_OP_ON_FID)
    ensures oldState.location.View() != [] && oldState.open ==> r == Failed(FID_OPEN)
    ensures oldState.location.View() != [] && !oldState.open ==>
      Reports(r, Walk(tree, oldState.username, oldState.location.View(), names), oldState.username)
    ensures r.Reached? ==> |r.qids| == |names|
    ensures r.Partial? ==> 0 < |r.qids| < |names|
  {
    var newloc := oldState.location.Clone();
    var user := oldState.username;
    var current := newloc.Current();
    if current == None { return Failed(INVALID_OP_ON_FID); }
    var root := current.value;
    if oldState.open { return Failed(FID_OPEN); }
    ghost var start := oldState.location.View();
    QidCount(tree, user, start, names);
    var qids: seq<Qid> := [];
    var i := 0;
    while i < |names|
      invariant 0 <= i <= |names| && |qids| == i
      invariant fresh(newloc.buf) && newloc.Valid() && newloc.Current() == Some(root)
      invariant Walk(tree, user, start, names) == AppendQids(qids, Walk(tree, user, newloc.View(), names[i..]))
    {
      WalkOneStep(tree, user, start, names, i, qids, newloc.View());
      var step := StepFrom(tree, user, newloc, root, names[i]);
      match step {
        case Break(e) => return Done(qids, e);
        case Abort(e) => return Failed(e);
        case Onward(l, f, q) => newloc, root, qids := l, f, qids + [q];
      }
      i := i + 1;
    }
    var s := new FidState(newloc, user);
    r := Reached(s, qids);
  }

  // The label `done` with an error pending: no qids at all is an error, otherwise a partial walk.
  function Done(qids: seq<Qid>, e: Error): Result {
    if qids == [] then Failed(e) else Partial(qids)
  }
}

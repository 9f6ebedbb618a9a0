/** The in-memory files and directories as objects (trees/syntheticfile.go, trees/syntheticdir.go)
    and setStat working on them in place (fileserver/utils.go).  The interface trees.File becomes
    the datatype File.  Every method is proved against the value functions of modules SetStat and
    TreeShape. */
module Synthetic {
  import opened Qp
  import opened Permissions
  import S = SetStat
  import T = TreeShape

  datatype File = OfFile(f: SyntheticFile) | OfDir(d: SyntheticDir)

  ghost function Object(x: File): object {
    match x
    case OfFile(f) => f
    case OfDir(d) => d
  }

  // The file's Stat.
  function ViewOf(x: File): S.Node
    reads Object(x)
  {
    match x
    case OfFile(f) => f.View()
    case OfDir(d) => d.View()
  }

  // The global counter that nextID draws from.
  class IdCounter {
    var globalID: nat

    constructor () { globalID := 0; }

    method NextID() returns (id: nat)
      modifies this
      ensures id == old(globalID) && globalID == old(globalID) + 1
    {
      id := globalID;
      globalID := globalID + 1;
    }
  }

  function IDOf(x: File): nat {
    match x
    case OfFile(f) => f.ID
    case OfDir(d) => d.ID
  }

  class SyntheticFile {
    const ID: nat
    var Filename: string
    var UID: string
    var GID: string
    var MUID: string
    var Permissions: FileMode
    var Atime: nat
    var Content: seq<byte>
    var FakeLength: Option<nat>

    constructor (id: nat, name: string, permissions: FileMode, user: string, group: string)
      ensures ID == id && View() == S.Node(false, name, user, group, user, permissions, 0, 0, None)
    {
      ID, Filename, UID, GID, MUID, Permissions := id, name, user, group, user, permissions;
      Atime, Content, FakeLength := 0, [], None;
    }

    function View(): S.Node
      reads this
    {
      S.Node(false, Filename, UID, GID, MUID, Permissions, Atime, |Content|, FakeLength)
    }

    method SetMode(user: string, mode: FileMode) returns (ok: bool)
      modifies this`Permissions
      ensures ok == S.SetMode(old(View()), user, mode).Some?
      ensures View() == S.Try(old(View()), S.SetMode(old(View()), user, mode))
    {
      if user != UID || !MayWrite(user, UID, Permissions) { return false; }
      Permissions := mode;
      return true;
    }

    method SetOwner(user: string, uid: string, gid: string) returns (ok: bool)
      modifies this`UID, this`GID
      ensures ok == S.SetOwner(old(View()), user, uid, gid).Some?
      ensures View() == S.Try(old(View()), S.SetOwner(old(View()), user, uid, gid))
    {
      if !MayWrite(user, UID, Permissions) { return false; }
      if uid != "" { UID := uid; }
      if gid != "" { GID := gid; }
      return true;
    }

    method SetLength(user: string, length: nat) returns (ok: bool)
      modifies this`Content
      ensures ok == S.SetLength(old(View()), user, length).Some?
      ensures View() == S.Try(old(View()), S.SetLength(old(View()), user, length))
      ensures Content == if ok then old(Content)[..length] else old(Content)
    {
      if !MayWrite(user, UID, Permissions) { return false; }
      if length > |Content| { return false; }
      if FakeLength.Some? { return false; }
      Content := Content[..length];
      return true;
    }
  }

  class SyntheticDir {
    const ID: nat
    var Filename: string
    var UID: string
    var GID: string
    var MUID: string
    var Permissions: FileMode
    var Atime: nat
    var Tree: map<string, File>

    constructor (id: nat, name: string, permissions: FileMode, user: string, group: string)
      ensures ID == id && View() == S.Node(true, name, user, group, user, permissions, 0, 0, None) && Tree == map[]
    {
      ID, Filename, UID, GID, MUID, Permissions := id, name, user, group, user, permissions;
      Atime, Tree := 0, map[];
    }

    function View(): S.Node
      reads this
    {
      S.Node(true, Filename, UID, GID, MUID, Permissions, Atime, 0, None)
    }

    ghost function Entries(): S.Dir<File>
      reads this
    {
      S.Dir(UID, Permissions, Tree)
    }

    method SetMode(user: string, mode: FileMode) returns (ok: bool)
      modifies this`Permissions
      ensures ok == S.SetMode(old(View()), user, mode).Some?
      ensures View() == S.Try(old(View()), S.SetMode(old(View()), user, mode))
    {
      if user != UID || !MayWrite(user, UID, Permissions) { return false; }
      Permissions := mode.(dir := true);
      return true;
    }

    method SetOwner(user: string, uid: string, gid: string) returns (ok: bool)
      modifies this`UID, this`GID
      ensures ok == S.SetOwner(old(View()), user, uid, gid).Some?
      ensures View() == S.Try(old(View()), S.SetOwner(old(View()), user, uid, gid))
    {
      if !MayWrite(user, UID, Permissions) { return false; }
      if uid != "" { UID := uid; }
      if gid != "" { GID := gid; }
      return true;
    }

    method SetLength(user: string, length: nat) returns (ok: bool)
      ensures ok == S.SetLength(View(), user, length).Some?
      ensures View() == S.Try(View(), S.SetLength(View(), user, length))
    {
      return length == 0;
    }

    method Create(user: string, name: string, perms: FileMode, ids: IdCounter) returns (r: Option<File>)
      modifies this`Tree, ids
      ensures r.Some? <==> MayWrite(user, UID, Permissions) && name !in old(Tree)
      ensures Tree == if r.Some? then old(Tree)[name := r.value] else old(Tree)
      ensures r.Some? ==>
        && fresh(Object(r.value)) && Some(Entries()) == T.CreateIn(old(Entries()), user, name, r.value)
        && IDOf(r.value) == old(ids.globalID) && ids.globalID == old(ids.globalID) + 1
        && ViewOf(r.value) == S.Node(perms.dir, name, UID, GID, UID, T.CreatedPerm(perms, Permissions), 0, 0, None)
        && (r.value.OfDir? ==> r.value.d.Tree == map[])
    {
      if !MayWrite(user, UID, Permissions) { return None; }
      if name in Tree { return None; }
      var id := ids.NextID();
      var f: File;
      if perms.dir {
        var d := new SyntheticDir(id, name, T.CreatedPerm(perms, Permissions), UID, GID);
        f := OfDir(d);
      } else {
        var p := new SyntheticFile(id, name, T.CreatedPerm(perms, Permissions), UID, GID);
        f := OfFile(p);
      }
      Tree := Tree[name := f];
      return Some(f);
    }

    method Remove(user: string, name: string) returns (ok: bool)
      modifies this`Tree
      ensures var r := T.RemoveFrom(old(Entries()), user, name, name in old(Tree) && old(CanRemove(Tree[name])));
        ok == r.Some? && Entries() == if ok then r.value else old(Entries())
      ensures ok <==>
        && PermCheck(UID == user, false, Permissions, OWRITE) && name in old(Tree)
        && (old(Tree)[name].OfDir? ==> old(Tree[name].d.Tree) == map[])
      ensures Tree == if ok then old(Tree) - {name} else old(Tree)
    {
      if !MayWrite(user, UID, Permissions) { return false; }
      if name !in Tree { return false; }
      if !CanRemove(Tree[name]) { return false; }
      Tree := Tree - {name};
      return true;
    }

    // The entry of a name, for a user who may search the directory.
    ghost function Lookup(name: string): Option<File>
      reads this
    {
      if name in Tree then Some(Tree[name]) else None
    }

    method Walk(user: string, name: string) returns (r: Option<Option<File>>)
      ensures r.Some? <==> PermCheck(UID == user, false, Permissions, OEXEC)
      ensures r.Some? ==> r.value == Lookup(name)
    {
      if !PermCheck(UID == user, false, Permissions, OEXEC) { return None; }
      if name !in Tree { return Some(None); }
      return Some(Some(Tree[name]));
    }

    // The stats of the entries, by key.
    function Views(): map<string, S.Node>
      reads this, set x | x in Tree.Values :: Object(x)
    {
      map n | n in Tree :: ViewOf(Tree[n])
    }

    // List: the stats v of the entries in any order, or None when the user may not read.
    method List(user: string, ghost v: map<string, S.Node>) returns (r: Option<seq<S.Node>>, ghost keys: seq<string>)
      requires v == Views()
      ensures r.Some? <==> PermCheck(UID == user, false, Permissions, OREAD)
      ensures r.Some? ==> Enumerates(v, keys, r.value)
    {
      if !PermCheck(UID == user, false, Permissions, OREAD) { return None, []; }
      var s;
      s, keys := Values(Views());
      r := Some(s);
    }

    // Walk and List agree: what List returns has one entry for a key if Walk finds a file under it,
    // the stat of that file, and none otherwise.
    lemma WalkAgreesWithList(keys: seq<string>, l: seq<S.Node>, name: string)
      requires Enumerates(Views(), keys, l)
      ensures Lookup(name).Some? <==> exists i :: 0 <= i < |keys| && keys[i] == name
      ensures forall i :: 0 <= i < |keys| && keys[i] == name ==>
          Lookup(name).Some? && l[i] == ViewOf(Lookup(name).value)
      ensures forall i, j :: 0 <= i < j < |keys| && keys[i] == name ==> keys[j] != name
    {
      EnumeratedAt(Views(), keys, l, name);
    }

    // Rename an entry, and tell it.  A directory is not an entry of its own.
    method Rename(user: string, oldname: string, newname: string) returns (ok: bool)
      requires OfDir(this) !in Tree.Values
      modifies this`Tree, set x | x in Tree.Values :: Object(x)
      ensures ok == S.Rename(old(Entries()), user, oldname, newname).Some?
      ensures ok <==>
        oldname in old(Tree) && newname !in old(Tree) && PermCheck(UID == user, false, Permissions, OWRITE)
      ensures ok ==> Tree == old(Tree)[newname := old(Tree)[oldname]] - {oldname}
      ensures ok ==> Entries() == S.Rename(old(Entries()), user, oldname, newname).value
      ensures !ok ==> Entries() == old(Entries())
      ensures Tree.Values == old(Tree.Values)
      ensures forall x :: x in old(Tree.Values) ==>
        ViewOf(x) == if ok && x == old(Tree[oldname]) then old(ViewOf(x)).(name := newname) else old(ViewOf(x))
    {
      if oldname !in Tree { return false; }
      if newname in Tree { return false; }
      if !MayWrite(user, UID, Permissions) { return false; }
      var elem := Tree[oldname];
      SetName(elem, newname);
      ghost var before := Tree;
      Tree := Tree[newname := elem] - {oldname};
      forall x | x in before.Values ensures x in Tree.Values {
        var k :| k in before && before[k] == x;
        assert Tree[if k == oldname then newname else k] == x;
      }
      return true;
    }
  }

  // The entries of l under the given keys, a later one in place of an earlier one of the same key.
  function Pairs(keys: seq<string>, l: seq<S.Node>): map<string, S.Node>
    requires |keys| == |l|
  {
    if l == [] then map[] else Pairs(keys[..|l| - 1], l[..|l| - 1])[keys[|l| - 1] := l[|l| - 1]]
  }

  // Each entry of v once, and nothing else.
  predicate Enumerates(v: map<string, S.Node>, keys: seq<string>, l: seq<S.Node>) {
    |keys| == |l| == |v| && Pairs(keys, l) == v
  }

  // The loop of List: the entries in any order.
  method Values(m: map<string, S.Node>) returns (l: seq<S.Node>, ghost keys: seq<string>)
    ensures Enumerates(m, keys, l)
  {
    l, keys := [], [];
    var rest := m.Keys;
    while rest != {}
      invariant rest <= m.Keys && Enumerates(m - rest, keys, l)
      decreases |rest|
    {
      var name :| name in rest;
      EnumeratesOneMore(m, rest, keys, l, name);
      l, keys, rest := l + [m[name]], keys + [name], rest - {name};
    }
    assert m - {} == m;
  }

  lemma EnumeratesOneMore(v: map<string, S.Node>, rest: set<string>, keys: seq<string>, l: seq<S.Node>, n: string)
    requires n in v && n in rest && Enumerates(v - rest, keys, l)
    ensures Enumerates(v - (rest - {n}), keys + [n], l + [v[n]])
  {
    assert (l + [v[n]])[..|l|] == l && (keys + [n])[..|l|] == keys;
    var w := v - (rest - {n});
    assert w == (v - rest)[n := v[n]];
    assert w.Keys == (v - rest).Keys + {n};
  }

  // A key has one entry if it has a file, the stat of that file, and none otherwise.
  lemma {:induction false} EnumeratedAt(v: map<string, S.Node>, keys: seq<string>, l: seq<S.Node>, name: string)
    requires Enumerates(v, keys, l)
    ensures name in v <==> exists i :: 0 <= i < |l| && keys[i] == name
    ensures forall i :: 0 <= i < |l| && keys[i] == name ==> name in v && l[i] == v[name]
    ensures forall i, j :: 0 <= i < j < |l| && keys[i] == name ==> keys[j] != name
  {
    if l != [] {
      var k := |l| - 1;
      PairsSize(keys[..k], l[..k]);
      var u := Pairs(keys[..k], l[..k]);
      assert v.Keys == u.Keys + {keys[k]};
      EnumeratedAt(u, keys[..k], l[..k], name);
    }
  }

  lemma {:induction false} PairsSize(keys: seq<string>, l: seq<S.Node>)
    requires |keys| == |l|
    ensures |Pairs(keys, l)| <= |l|
  {
    if l != [] {
      var k := |l| - 1;
      PairsSize(keys[..k], l[..k]);
      assert Pairs(keys, l).Keys == Pairs(keys[..k], l[..k]).Keys + {keys[k]};
    }
  }

  predicate CanRemove(x: File)
    reads if x.OfDir? then {x.d} else {}
  {
    match x
    case OfFile(_) => true
    case OfDir(d) => d.Tree == map[]
  }

  method SetName(x: File, name: string)
    modifies Object(x)
    ensures ViewOf(x) == old(ViewOf(x)).(name := name)
    ensures match x { case OfFile(f) => true case OfDir(d) => d.Tree == old(d.Tree) }
  {
    match x
    case OfFile(f) => f.Filename := name;
    case OfDir(d) => d.Filename := name;
  }

  // ---- Calls through the File interface ------------------------------------------------------

  method SetMode(x: File, user: string, mode: FileMode) returns (ok: bool)
    modifies Object(x)
    ensures ok == S.SetMode(old(ViewOf(x)), user, mode).Some?
    ensures ViewOf(x) == S.Try(old(ViewOf(x)), S.SetMode(old(ViewOf(x)), user, mode))
    ensures x.OfDir? ==> x.d.Tree == old(x.d.Tree)
  {
    match x
    case OfFile(f) => ok := f.SetMode(user, mode);
    case OfDir(d) => ok := d.SetMode(user, mode);
  }

  method SetOwner(x: File, user: string, uid: string, gid: string) returns (ok: bool)
    modifies Object(x)
    ensures ok == S.SetOwner(old(ViewOf(x)), user, uid, gid).Some?
    ensures ViewOf(x) == S.Try(old(ViewOf(x)), S.SetOwner(old(ViewOf(x)), user, uid, gid))
    ensures x.OfDir? ==> x.d.Tree == old(x.d.Tree)
  {
    match x
    case OfFile(f) => ok := f.SetOwner(user, uid, gid);
    case OfDir(d) => ok := d.SetOwner(user, uid, gid);
  }

  method SetLength(x: File, user: string, length: nat) returns (ok: bool)
    modifies Object(x)
    ensures ok == S.SetLength(old(ViewOf(x)), user, length).Some?
    ensures ViewOf(x) == S.Try(old(ViewOf(x)), S.SetLength(old(ViewOf(x)), user, length))
    ensures x.OfDir? ==> x.d.Tree == old(x.d.Tree)
  {
    match x
    case OfFile(f) => ok := f.SetLength(user, length);
    case OfDir(d) => ok := d.SetLength(user, length);
  }

  // ---- setStat -------------------------------------------------------------------------------

  ghost function WorldOf(e: File, parent: SyntheticDir?): S.World<File>
    reads Object(e), if parent != null then {parent} else {}
  {
    S.World(ViewOf(e), if parent == null then None else Some(parent.Entries()))
  }

  // Neither the file nor any entry of its parent is the parent itself.
  ghost predicate Apart(e: File, parent: SyntheticDir?)
    reads if parent != null then {parent} else {}
  {
    parent != null ==> e != OfDir(parent) && OfDir(parent) !in parent.Tree.Values
  }

  ghost function Entries(parent: SyntheticDir?): set<object>
    reads if parent != null then {parent} else {}
  {
    if parent == null then {} else set x | x in parent.Tree.Values :: Object(x)
  }

  // parent.Rename, with a missing parent left to the caller.
  method RenameIn(parent: SyntheticDir, e: File, user: string, oldname: string, newname: string) returns (ok: bool)
    requires Apart(e, parent)
    modifies parent, Entries(parent), Object(e)
    ensures ok == S.Renamed(old(WorldOf(e, parent)), e, user, oldname, newname).Some?
    ensures WorldOf(e, parent) == if ok then S.Renamed(old(WorldOf(e, parent)), e, user, oldname, newname).value
                                  else old(WorldOf(e, parent))
    ensures Apart(e, parent) && Entries(parent) == old(Entries(parent))
  {
    ghost var before := ViewOf(e);
    ok := parent.Rename(user, oldname, newname);
    assert e !in parent.Tree.Values ==> ViewOf(e) == before;
  }

  method SetStat(user: string, e: File, parent: SyntheticDir?, n: S.Request) returns (r: S.Result)
    requires Apart(e, parent)
    modifies Object(e), if parent == null then {} else {parent}, Entries(parent)
    ensures (r, WorldOf(e, parent)) == S.SetStat(user, e, old(WorldOf(e, parent)), n)
  {
    var o := ViewOf(e);
    ghost var w := WorldOf(e, parent);
    if S.Illegal(o, parent != null, n) { return S.Rejected; }
    if S.WantsMode(o, n) {
      var ok := SetMode(e, user, S.NewMode(o, n));
      if !ok { return S.ModeRefused; }
    }
    var ok := SetOwnerOrUndo(user, e, n, o);
    if !ok { return S.OwnerRefused; }
    r := SetNameAndLength(user, e, parent, n, o, w);
  }

  // The owner change of setStat, after the mode change.
  method SetOwnerOrUndo(user: string, e: File, n: S.Request, o: S.Node) returns (ok: bool)
    modifies Object(e)
    ensures ok == S.ApplyOwner(o, old(ViewOf(e)), user, n).Some?
    ensures ViewOf(e) == if ok then S.ApplyOwner(o, old(ViewOf(e)), user, n).value
        else S.UndoMode(old(ViewOf(e)), user, o)
    ensures e.OfDir? ==> e.d.Tree == old(e.d.Tree)
  {
    if S.WantsOwner(o, n) {
      ok := SetOwner(e, user, n.uid, n.gid);
      if !ok { var _ := SetMode(e, user, S.Mode(o)); }
      return;
    }
    return true;
  }

  // The second half of setStat.
  method SetNameAndLength(user: string, e: File, parent: SyntheticDir?, n: S.Request, o: S.Node, ghost w: S.World<File>)
    returns (r: S.Result)
    requires Apart(e, parent) && (S.WantsName(o, n) ==> parent != null) && w.e == o
    modifies Object(e), if parent == null then {} else {parent}, Entries(parent)
    ensures (r, WorldOf(e, parent)) == S.SetNameAndLength(user, e, w, old(WorldOf(e, parent)), n)
  {
    if S.WantsName(o, n) {
      var ok := RenameIn(parent, e, user, o.name, n.name);
      if !ok {
        var _ := SetMode(e, user, S.Mode(o));
        var _ := SetOwner(e, user, o.uid, o.gid);
        return S.RenameRefused;
      }
    }
    if S.WantsLength(o, n) {
      var ok := SetLength(e, user, n.length);
      if !ok {
        var _ := SetMode(e, user, S.Mode(o));
        var _ := SetOwner(e, user, o.uid, o.gid);
        if parent == null { return S.NilParent; }
        var _ := RenameIn(parent, e, user, n.name, o.name);
        return S.LengthRefused;
      }
    }
    return S.Done;
  }
}

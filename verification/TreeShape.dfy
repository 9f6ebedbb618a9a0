/** The shape of the in-memory tree (trees/syntheticdir.go: Create, Rename, Remove; trees/utils.go:
    nextID) over whole runs, and what the server's remove deletes (fileserver.go: remove).  The
    tree is a store from file IDs to nodes. */
module TreeShape {
  import opened Qp
  import opened Permissions
  import S = SetStat

  // ---- The single operations on a directory ----------------------------------------------------

  function CreateIn<T>(d: S.Dir<T>, user: string, name: string, f: T): Option<S.Dir<T>> {
    if !MayWrite(user, d.uid, d.perm) || name in d.tree then None
    else Some(d.(tree := d.tree[name := f]))
  }

  function RemoveFrom<T>(d: S.Dir<T>, user: string, name: string, canRemove: bool): Option<S.Dir<T>> {
    if !MayWrite(user, d.uid, d.perm) || name !in d.tree || !canRemove then None
    else Some(d.(tree := d.tree - {name}))
  }

  // The permissions of a new file: those asked for, limited by the directory's.
  function CreatedPerm(perms: FileMode, dirPerm: FileMode): FileMode {
    if perms.dir then Limited(perms, dirPerm) else LimitedReadWrite(perms, dirPerm)
  }

  // open(5): a new directory gets no permission its parent lacks, and a new file no read or write
  // permission its parent lacks.
  lemma CreatedPermLimited(perms: FileMode, dirPerm: FileMode, owner: bool, group: bool, mode: OpenMode)
    ensures PermCheck(owner, group, CreatedPerm(perms, dirPerm), mode) && (perms.dir || mode % 4 != OEXEC) ==>
      PermCheck(owner, group, perms, mode) && PermCheck(owner, group, dirPerm, mode)
    ensures CreatedPerm(perms, dirPerm).dir == perms.dir && CreatedPerm(perms, dirPerm).other == perms.other
  {
  }

  // On words, with the masks of Create.
  lemma CreatedPermOnWords(perms: bv32, d: bv32)
    ensures CreatedPerm(OfWord(perms), OfWord(d))
         == OfWord(if perms & DMDIR != 0 then Masked(perms, d, 0x1FF) else Masked(perms, d, 0x1B6))
  {
    if perms & DMDIR != 0 { LimitedOnWords(perms, d); } else { LimitedReadWriteOnWords(perms, d); }
  }

  // ---- The store -------------------------------------------------------------------------------

  // `up` is the directory a file was created in; `dir` is what a directory has in addition.
  datatype Node = Node(name: string, up: Option<nat>, dir: Option<S.Dir<nat>>)

  datatype Store = Store(nodes: map<nat, Node>, next: nat)

  datatype Action =
    | Create(p: nat, user: string, name: string, perms: FileMode)
    | Rename(p: nat, user: string, oldname: string, newname: string)
    | Remove(p: nat, user: string, name: string)
    | Rights(p: nat, uid: string, perm: FileMode)   // what SetOwner and SetMode do to a directory

  predicate IsDir(s: Store, p: nat) {
    p in s.nodes && s.nodes[p].dir.Some?
  }

  function Dir(s: Store, p: nat): S.Dir<nat>
    requires IsDir(s, p)
  {
    s.nodes[p].dir.value
  }

  function WithDir(s: Store, p: nat, d: S.Dir<nat>): Store
    requires IsDir(s, p)
  {
    s.(nodes := s.nodes[p := s.nodes[p].(dir := Some(d))])
  }

  predicate CanRemove(s: Store, c: nat) {
    c in s.nodes && (s.nodes[c].dir.Some? ==> s.nodes[c].dir.value.tree == map[])
  }

  // An operation on something that is no directory, or that is refused, changes nothing.
  function Apply(s: Store, a: Action): Store {
    if !IsDir(s, a.p) then s
    else match a
      case Create(p, user, name, perms) =>
        (match CreateIn(Dir(s, p), user, name, s.next)
         case None => s
         case Some(d) =>
           var dir := if perms.dir then Some(S.Dir(d.uid, CreatedPerm(perms, d.perm), map[])) else None;
           Store(WithDir(s, p, d).nodes[s.next := Node(name, Some(p), dir)], s.next + 1))
      case Rename(p, user, oldname, newname) =>
        (match S.Rename(Dir(s, p), user, oldname, newname)
         case None => s
         case Some(d) => Named(WithDir(s, p, d), Dir(s, p).tree[oldname], newname))
      case Remove(p, user, name) =>
        (match RemoveFrom(Dir(s, p), user, name, name in Dir(s, p).tree && CanRemove(s, Dir(s, p).tree[name]))
         case None => s
         case Some(d) => WithDir(s, p, d))
      case Rights(p, uid, perm) => WithDir(s, p, Dir(s, p).(uid := uid, perm := perm))
  }

  // SetName
  function Named(s: Store, c: nat, name: string): Store {
    if c in s.nodes then s.(nodes := s.nodes[c := s.nodes[c].(name := name)]) else s
  }

  // ---- The invariant ---------------------------------------------------------------------------

  // A file may always go, and a directory just when no file is in it.
  lemma CanRemoveIff(s: Store, c: nat)
    requires Inv(s) && c in s.nodes
    ensures CanRemove(s, c) <==> forall x :: !Inside(s, x, c)
  {
    if !CanRemove(s, c) {
      var n :| n in Dir(s, c).tree;
      assert EntryWell(s, c, n) && Inside(s, Dir(s, c).tree[n], c);
    }
  }

  predicate Inside(s: Store, x: nat, c: nat) {
    IsDir(s, c) && x in Dir(s, c).tree.Values
  }

  // The entry `name` of directory p leads to a file of that name that was created in p, later
  // than p.
  predicate EntryWell(s: Store, p: nat, name: string) {
    IsDir(s, p) && name in Dir(s, p).tree ==>
      var c := Dir(s, p).tree[name];
      p < c && c in s.nodes && s.nodes[c].name == name && s.nodes[c].up == Some(p)
  }

  ghost predicate Inv(s: Store) {
    && (forall i :: i in s.nodes ==> i < s.next)
    && (forall p, name :: EntryWell(s, p, name))
  }

  predicate Init(s: Store, root: nat) {
    && s.nodes.Keys == {root} && s.next == root + 1 && IsDir(s, root)
    && s.nodes[root].up == None && Dir(s, root).tree == map[]
  }

  lemma EntryStep(s: Store, a: Action, p: nat, name: string)
    requires Inv(s)
    ensures EntryWell(Apply(s, a), p, name)
  {
    assert EntryWell(s, p, name);
    if IsDir(s, a.p) {
      match a
      case Create(q, user, n, perms) =>
      case Rename(q, user, oldname, newname) => assert EntryWell(s, q, oldname) && EntryWell(s, q, name);
      case Remove(q, user, n) =>
      case Rights(q, uid, perm) =>
    }
  }

  lemma StepKeeps(s: Store, a: Action)
    requires Inv(s)
    ensures Inv(Apply(s, a))
  {
    forall p, name ensures EntryWell(Apply(s, a), p, name) { EntryStep(s, a, p, name); }
    if a.Rename? { assert EntryWell(s, a.p, a.oldname); }
  }

  // A created file belongs to the directory it was created in.  A created directory is empty and owned
  // as that directory is, so its creator may change it only as far as the owner or the others may.
  lemma CreateMakes(s: Store, p: nat, user: string, name: string, perms: FileMode)
    requires Inv(s) && IsDir(s, p) && MayWrite(user, Dir(s, p).uid, Dir(s, p).perm) && name !in Dir(s, p).tree
    ensures var s' := Apply(s, Create(p, user, name, perms));
      && s'.nodes.Keys == s.nodes.Keys + {s.next} && s'.next == s.next + 1
      && s'.nodes[s.next].name == name && s'.nodes[s.next].up == Some(p) && (IsDir(s', s.next) <==> perms.dir)
      && (perms.dir ==> Dir(s', s.next).tree == map[] && Dir(s', s.next).uid == Dir(s, p).uid
                        && Dir(s', s.next).perm == Limited(perms, Dir(s, p).perm))
      && IsDir(s', p) && Dir(s', p).tree == Dir(s, p).tree[name := s.next]
  {
  }

  // Who may change a directory is decided by its latest owner and mode.
  lemma RightsDecide(s: Store, p: nat, uid: string, perm: FileMode, user: string, name: string, perms: FileMode)
    requires Inv(s) && IsDir(s, p) && name !in Dir(s, p).tree
    ensures var s' := Apply(s, Action.Rights(p, uid, perm));
      && IsDir(s', p) && Dir(s', p).tree == Dir(s, p).tree
      && (Apply(s', Create(p, user, name, perms)) != s' <==> MayWrite(user, uid, perm))
  {
    var s' := Apply(s, Action.Rights(p, uid, perm));
    if MayWrite(user, uid, perm) { assert Apply(s', Create(p, user, name, perms)).next == s'.next + 1; }
  }

  function Run(s: Store, acts: seq<Action>): Store
    decreases |acts|
  {
    if acts == [] then s else Run(Apply(s, acts[0]), acts[1..])
  }

  lemma {:induction false} RunKeeps(s: Store, acts: seq<Action>)
    requires Inv(s)
    ensures Inv(Run(s, acts))
    decreases |acts|
  {
    if acts != [] {
      StepKeeps(s, acts[0]);
      RunKeeps(Apply(s, acts[0]), acts[1..]);
    }
  }

  // After any run from a single root: a key is the name of its file, a file is in at most one
  // directory entry, and a child's ID is greater than its directory's.
  lemma Shape(s0: Store, root: nat, acts: seq<Action>, p: nat, n: string, q: nat, m: string)
    requires Init(s0, root)
    requires IsDir(Run(s0, acts), p) && n in Dir(Run(s0, acts), p).tree
    ensures var s := Run(s0, acts);
      var c := Dir(s, p).tree[n];
      && c in s.nodes && s.nodes[c].name == n && p < c < s.next
      && (IsDir(s, q) && m in Dir(s, q).tree && Dir(s, q).tree[m] == c ==> p == q && n == m)
  {
    RunKeeps(s0, acts);
    assert EntryWell(Run(s0, acts), p, n) && EntryWell(Run(s0, acts), q, m);
  }

  // ids[0], ids[1], ... lead from each directory to one of its entries.
  predicate Chain(s: Store, ids: seq<nat>) {
    forall k :: 0 <= k < |ids| - 1 ==> IsDir(s, ids[k]) && ids[k + 1] in Dir(s, ids[k]).tree.Values
  }

  // So nothing is inside itself.
  lemma {:induction false} NoCycles(s: Store, ids: seq<nat>)
    requires Inv(s) && Chain(s, ids) && |ids| > 1
    ensures ids[0] < ids[|ids| - 1]
    decreases |ids|
  {
    var front := ids[..|ids| - 1];
    assert Chain(s, front);
    var p := ids[|ids| - 2];
    assert IsDir(s, p) && ids[|ids| - 2 + 1] in Dir(s, p).tree.Values;
    var name :| name in Dir(s, p).tree && Dir(s, p).tree[name] == ids[|ids| - 1];
    assert EntryWell(s, p, name);
    if |front| > 1 { NoCycles(s, front); }
  }

  // ---- The server's remove ---------------------------------------------------------------------

  // Name answers "/" for a directory without a name.
  function Name(s: Store, c: nat): string
    requires c in s.nodes
  {
    if s.nodes[c].dir.Some? && s.nodes[c].name == "" then "/" else s.nodes[c].name
  }

  // remove on a fid at file c below directory p: the parent removes whatever has c's name.
  function ServerRemove(s: Store, user: string, p: nat, c: nat): Store
    requires c in s.nodes
  {
    Apply(s, Remove(p, user, Name(s, c)))
  }

  // A directory under the empty name, which calls itself "/".
  predicate Nameless(s: Store, c: nat) {
    c in s.nodes && s.nodes[c].dir.Some? && s.nodes[c].name == ""
  }

  // What the server's remove takes away when c is still an entry of p: c itself, or nothing.  Only for
  // a nameless directory it is the entry "/", if there is one.  All else stays as it is.
  lemma RemoveTakes(s: Store, user: string, p: nat, c: nat)
    requires Inv(s) && IsDir(s, p) && c in Dir(s, p).tree.Values
    ensures c in s.nodes
    ensures ServerRemove(s, user, p, c) == s
         || ServerRemove(s, user, p, c) == WithDir(s, p, Dir(s, p).(tree := Dir(s, p).tree - {Name(s, c)}))
    ensures var s' := ServerRemove(s, user, p, c);
      var d := Dir(s, p);
      IsDir(s', p) &&
      if Nameless(s, c) then
        if MayWrite(user, d.uid, d.perm) && "/" in d.tree && CanRemove(s, d.tree["/"])
        then d.tree["/"] != c && Dir(s', p).tree.Values == d.tree.Values - {d.tree["/"]}
        else s' == s
      else if MayWrite(user, d.uid, d.perm) && CanRemove(s, c)
      then Dir(s', p).tree.Values == d.tree.Values - {c}
      else s' == s
  {
    var d := Dir(s, p);
    var key :| key in d.tree && d.tree[key] == c;
    assert EntryWell(s, p, key);
    var name := Name(s, c);
    if name in d.tree {
      assert EntryWell(s, p, name);
      OthersStay(s, p, name);
    }
  }

  // So, given that both p and c permit it, c goes if and only if it is no nameless directory.
  lemma RemoveDeletesItIff(s: Store, user: string, p: nat, c: nat)
    requires Inv(s) && IsDir(s, p) && c in Dir(s, p).tree.Values
    requires MayWrite(user, Dir(s, p).uid, Dir(s, p).perm) && CanRemove(s, c)
    ensures IsDir(ServerRemove(s, user, p, c), p)
    ensures c !in Dir(ServerRemove(s, user, p, c), p).tree.Values <==> !Nameless(s, c)
  {
    RemoveTakes(s, user, p, c);
  }

  // create refuses only "." and "..", so such a directory can be had: removing it deletes the file "/"
  // beside it, although the directory never left its parent.
  lemma NamelessRemove(s0: Store, root: nat, user: string, dirPerms: FileMode, perms: FileMode)
    returns (acts: seq<Action>, s: Store)
    requires Init(s0, root) && dirPerms.dir && !perms.dir && MayWrite(user, Dir(s0, root).uid, Dir(s0, root).perm)
    ensures s == Run(s0, acts) && IsDir(s, root) && Dir(s, root).tree == map["" := root + 1, "/" := root + 2]
    ensures root + 1 in s.nodes && IsDir(ServerRemove(s, user, root, root + 1), root)
    ensures Dir(ServerRemove(s, user, root, root + 1), root).tree == map["" := root + 1]
  {
    var a, b := Create(root, user, "", dirPerms), Create(root, user, "/", perms);
    var s1 := Apply(s0, a);
    assert Dir(s1, root).tree == map["" := root + 1];
    s := Apply(s1, b);
    acts := [a, b];
    assert acts[1..] == [b] && [b][1..] == [];
    assert Run(s, []) == s && Run(s1, [b]) == s;
  }

  // A fid whose file is no longer there names the wrong file.  The server's remove takes some entry
  // away exactly when another file now stands under c's name, and may be removed; then it is that
  // file, and no other, which goes.
  lemma RemoveHitsAnotherIff(s: Store, user: string, p: nat, c: nat)
    requires Inv(s) && IsDir(s, p) && c in s.nodes && c !in Dir(s, p).tree.Values
    ensures var s' := ServerRemove(s, user, p, c);
      var d := Dir(s, p);
      IsDir(s', p) &&
      if MayWrite(user, d.uid, d.perm) && Name(s, c) in d.tree && CanRemove(s, d.tree[Name(s, c)])
      then
        var x := d.tree[Name(s, c)];
        x != c && Dir(s', p).tree.Values == d.tree.Values - {x}
      else s' == s
  {
    var d := Dir(s, p);
    var name := Name(s, c);
    var s' := ServerRemove(s, user, p, c);
    if MayWrite(user, d.uid, d.perm) && name in d.tree && CanRemove(s, d.tree[name]) {
      assert Dir(s', p).tree == d.tree - {name};
      OthersStay(s, p, name);
    }
  }

  // Under the invariant a file has one entry, so taking a key away takes one file away.
  lemma OthersStay(s: Store, p: nat, name: string)
    requires Inv(s) && IsDir(s, p) && name in Dir(s, p).tree
    ensures (Dir(s, p).tree - {name}).Values == Dir(s, p).tree.Values - {Dir(s, p).tree[name]}
  {
    var tree := Dir(s, p).tree;
    assert EntryWell(s, p, name);
    forall x | x in (tree - {name}).Values ensures x in tree.Values && x != tree[name] {
      var n :| n in tree - {name} && (tree - {name})[n] == x;
      assert EntryWell(s, p, n) && tree[n] == x;
    }
    forall x | x in tree.Values && x != tree[name] ensures x in (tree - {name}).Values {
      var n :| n in tree && tree[n] == x;
      assert n in tree - {name} && (tree - {name})[n] == x;
    }
  }

  // It does happen: with a fid left on a file that was removed, after which another was created under
  // the name, a second remove deletes the other.
  lemma StaleRemove(s0: Store, root: nat, user: string, perms: FileMode) returns (acts: seq<Action>, s: Store)
    requires Init(s0, root) && !perms.dir && MayWrite(user, Dir(s0, root).uid, Dir(s0, root).perm)
    ensures s == Run(s0, acts) && IsDir(s, root) && Dir(s, root).tree == map["x" := root + 2]
    ensures root + 1 in s.nodes && IsDir(ServerRemove(s, user, root, root + 1), root)
    ensures Dir(ServerRemove(s, user, root, root + 1), root).tree == map[]
  {
    var a, b := Create(root, user, "x", perms), Remove(root, user, "x");
    var s1 := Apply(s0, a);
    assert Dir(s1, root).tree == map["x" := root + 1];
    var s2 := Apply(s1, b);
    assert Dir(s2, root).tree == map[];
    s := Apply(s2, a);
    acts := [a, b, a];
    assert acts[1..] == [b, a] && [b, a][1..] == [a] && [a][1..] == [];
    assert Run(s, []) == s && Run(s2, [a]) == s && Run(s1, [b, a]) == s;
  }
}

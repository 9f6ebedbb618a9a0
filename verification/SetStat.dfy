/** wstat (fileserver/utils.go: setStat) on the in-memory files of trees/syntheticfile.go and
    trees/syntheticdir.go, as a function on values.  stat(5) asks that a wstat change all that was
    requested or nothing; setStat applies up to four changes and undoes them by hand, and the
    undoing goes through the same permission checks as the changes. */
module SetStat {
  import opened Qp
  import opened Permissions

  // What setStat can see and change of a SyntheticFile or SyntheticDir.  `content` is the length
  // of a file's content and `fake` its FakeLength, if it has one.
  datatype Node = Node(isDir: bool, name: string, uid: string, gid: string, muid: string, perm: FileMode,
                       atime: nat, content: nat, fake: Option<nat>)

  // The parent directory: what Rename looks at and changes.
  datatype Dir<T(==)> = Dir(uid: string, perm: FileMode, tree: map<string, T>)

  // The stat of a Twstat; these values mean "leave alone".
  const NO_TYPE := 0xFFFF
  const NO_UINT32 := 0xFFFF_FFFF
  const NO_LENGTH := 0xFFFF_FFFF_FFFF_FFFF

  datatype Request = Request(typ: nat, dev: nat, muid: string, atime: nat, mode: FileMode, name: string,
                             uid: string, gid: string, length: nat)

  // ---- Stat and the single changes -----------------------------------------------------------

  function Mode(e: Node): FileMode {
    if e.isDir then e.perm.(dir := true) else e.perm
  }

  function Length(e: Node): nat {
    if e.isDir then 0 else if e.fake.Some? then e.fake.value else e.content
  }

  function SetMode(e: Node, user: string, mode: FileMode): Option<Node> {
    if user != e.uid || !MayWrite(user, e.uid, e.perm) then None
    else Some(e.(perm := if e.isDir then mode.(dir := true) else mode))
  }

  function SetOwner(e: Node, user: string, uid: string, gid: string): Option<Node> {
    if !MayWrite(user, e.uid, e.perm) then None
    else Some(e.(uid := if uid != "" then uid else e.uid, gid := if gid != "" then gid else e.gid))
  }

  function SetLength(e: Node, user: string, length: nat): Option<Node> {
    if e.isDir then if length != 0 then None else Some(e)
    else if !MayWrite(user, e.uid, e.perm) || length > e.content || e.fake.Some? then None
    else Some(e.(content := length))
  }

  // The directory's half of Rename; the other half is SetName on the entry.
  function Rename<T>(d: Dir<T>, user: string, oldname: string, newname: string): Option<Dir<T>> {
    if oldname !in d.tree || newname in d.tree || !MayWrite(user, d.uid, d.perm) then None
    else Some(d.(tree := d.tree[newname := d.tree[oldname]] - {oldname}))
  }

  // ---- setStat -------------------------------------------------------------------------------

  predicate Illegal(e: Node, hasParent: bool, n: Request) {
    || (n.typ != NO_TYPE && n.typ != 0)
    || (n.dev != NO_UINT32 && n.dev != 0)
    || (n.muid != "" && n.muid != e.muid)
    || (n.atime != NO_UINT32 && n.atime != e.atime)
    || (!hasParent && n.name != "" && n.name != e.name)
    || (n.length != NO_LENGTH && n.length != Length(e) && (Mode(e).dir || n.length > Length(e)))
  }

  predicate WantsMode(e: Node, n: Request) { n.mode != NO_MODE && n.mode != Mode(e) }
  predicate WantsOwner(e: Node, n: Request) { (n.uid != "" && n.uid != e.uid) || (n.gid != "" && n.gid != e.gid) }
  predicate WantsName(e: Node, n: Request) { n.name != "" && n.name != e.name }
  predicate WantsLength(e: Node, n: Request) { n.length != NO_LENGTH && n.length != Length(e) }

  // The new mode keeps the directory bit.
  function NewMode(e: Node, n: Request): FileMode {
    n.mode.(dir := Mode(e).dir)
  }

  datatype Result = Done | Rejected | ModeRefused | OwnerRefused | RenameRefused | LengthRefused | NilParent

  datatype World<T(==)> = World(e: Node, parent: Option<Dir<T>>)

  // A rollback step that fails is ignored.
  function Try(e: Node, r: Option<Node>): Node {
    if r.Some? then r.value else e
  }

  function UndoMode(e: Node, user: string, o: Node): Node {
    Try(e, SetMode(e, user, Mode(o)))
  }

  function UndoOwner(e: Node, user: string, o: Node): Node {
    Try(e, SetOwner(e, user, o.uid, o.gid))
  }

  // The entry that Rename renames is taken to be e itself when the tree says so.
  function Renamed<T>(w: World<T>, self: T, user: string, oldname: string, newname: string): Option<World<T>>
    requires w.parent.Some?
  {
    match Rename(w.parent.value, user, oldname, newname)
    case None => None
    case Some(d) =>
      Some(World(if w.parent.value.tree[oldname] == self then w.e.(name := newname) else w.e, Some(d)))
  }

  function ApplyMode(e: Node, user: string, n: Request): Option<Node> {
    if WantsMode(e, n) then SetMode(e, user, NewMode(e, n)) else Some(e)
  }

  function ApplyOwner(o: Node, e: Node, user: string, n: Request): Option<Node> {
    if WantsOwner(o, n) then SetOwner(e, user, n.uid, n.gid) else Some(e)
  }

  function SetStat<T>(user: string, self: T, w: World<T>, n: Request): (Result, World<T>) {
    var o := w.e;
    if Illegal(o, w.parent.Some?, n) then (Rejected, w)
    else match ApplyMode(o, user, n)
      case None => (ModeRefused, w)
      case Some(e1) =>
        match ApplyOwner(o, e1, user, n)
        case None => (OwnerRefused, w.(e := UndoMode(e1, user, o)))
        case Some(e2) => SetNameAndLength(user, self, w, w.(e := e2), n)
  }

  // The second half, from the state w2 that the first half has made of w.
  function SetNameAndLength<T>(user: string, self: T, w: World<T>, w2: World<T>, n: Request): (Result, World<T>)
    requires WantsName(w.e, n) ==> w2.parent.Some?
  {
    var o := w.e;
    var named := if WantsName(o, n) then Renamed(w2, self, user, o.name, n.name) else Some(w2);
    match named
    case None => (RenameRefused, w2.(e := UndoOwner(UndoMode(w2.e, user, o), user, o)))
    case Some(w3) =>
      if !WantsLength(o, n) then (Done, w3)
      else match SetLength(w3.e, user, n.length)
        case Some(e4) => (Done, w3.(e := e4))
        case None => NameUndone(user, self, o, w3.(e := UndoOwner(UndoMode(w3.e, user, o), user, o)), n)
  }

  // The last step of the rollback of a refused truncation.
  function NameUndone<T>(user: string, self: T, o: Node, w4: World<T>, n: Request): (Result, World<T>) {
    if w4.parent == None then (NilParent, w4)
    else match Renamed(w4, self, user, n.name, o.name)
      case None => (LengthRefused, w4)
      case Some(w5) => (LengthRefused, w5)
  }

  // ---- All or nothing ------------------------------------------------------------------------

  // The file sits in its parent directory under its own name.
  predicate InPlace<T>(w: World<T>, self: T) {
    w.parent.Some? && w.e.name in w.parent.value.tree && w.parent.value.tree[w.e.name] == self
  }

  // Nothing that stat shows, and nothing in the parent, is different.
  predicate Untouched<T>(w: World<T>, w': World<T>) {
    && Mode(w'.e) == Mode(w.e) && w'.e.uid == w.e.uid && w'.e.gid == w.e.gid && w'.e.name == w.e.name
    && Length(w'.e) == Length(w.e) && w'.parent == w.parent
  }

  predicate WantsUid(e: Node, n: Request) { n.uid != "" && n.uid != e.uid }
  predicate WantsGid(e: Node, n: Request) { n.gid != "" && n.gid != e.gid }

  // Whether a refusal, should one come, will be undone completely.  It can be told before the call:
  // when the mode change will be refused nothing has happened yet; when the owner change will be
  // refused there must have been no mode change; and when the rename or the truncation is refused,
  // the owner changes must be reversible and the new mode must let the user back in.
  predicate Recovers(user: string, e: Node, n: Request) {
    if WantsMode(e, n) && (user != e.uid || !MayWrite(user, e.uid, e.perm)) then true
    else if WantsOwner(e, n) && !MayWrite(user, e.uid, if WantsMode(e, n) then NewMode(e, n) else e.perm) then
      !WantsMode(e, n)
    else
      && (WantsGid(e, n) ==> e.gid != "")
      && if WantsUid(e, n) then
           (WantsMode(e, n) ==> NewMode(e, n) == Mode(e)) && MayWrite(user, n.uid, e.perm) && e.uid != ""
         else
           WantsMode(e, n) ==> MayWrite(user, e.uid, NewMode(e, n))
  }

  // Where the first half leaves the file.
  lemma FirstHalf(user: string, o: Node, e1: Node, e2: Node, n: Request)
    requires ApplyMode(o, user, n) == Some(e1) && ApplyOwner(o, e1, user, n) == Some(e2)
    ensures e2 == o.(perm := if WantsMode(o, n) then NewMode(o, n) else o.perm,
                     uid := if WantsUid(o, n) then n.uid else o.uid,
                     gid := if WantsGid(o, n) then n.gid else o.gid)
    ensures WantsMode(o, n) ==> user == o.uid && MayWrite(user, o.uid, o.perm)
    ensures WantsOwner(o, n) ==> MayWrite(user, o.uid, if WantsMode(o, n) then NewMode(o, n) else o.perm)
  {
  }

  // What the rollback of a refusal after the owner change restores.
  lemma UndoneIff(user: string, o: Node, e1: Node, e2: Node, n: Request)
    requires ApplyMode(o, user, n) == Some(e1) && ApplyOwner(o, e1, user, n) == Some(e2)
    ensures var e' := UndoOwner(UndoMode(e2, user, o), user, o);
      Mode(e') == Mode(o) && e'.uid == o.uid && e'.gid == o.gid <==> Recovers(user, o, n)
  {
  }

  // Renaming there and back leaves the directory as it was.
  lemma RenameBack<T>(w: World<T>, self: T, user: string, newname: string, e': Node)
    requires InPlace(w, self) && Renamed(w, self, user, w.e.name, newname).Some?
    ensures var w' := Renamed(w, self, user, w.e.name, newname).value;
      && w'.e == w.e.(name := newname) && w'.parent.Some?
      && Renamed(w'.(e := e'), self, user, newname, w.e.name) == Some(World(e'.(name := w.e.name), w.parent))
  {
    var d := w.parent.value;
    var w' := Renamed(w, self, user, w.e.name, newname).value;
    assert w'.parent.value.tree[w.e.name := self] - {newname} == d.tree;
  }

  // A refused rename or truncation ends with the directory as it was, and the file as the two
  // undo steps leave it.
  lemma LateRefusal<T>(user: string, self: T, w: World<T>, e2: Node, n: Request)
    requires InPlace(w, self) && e2.name == w.e.name
    requires SetNameAndLength(user, self, w, w.(e := e2), n).0 != Done
    ensures SetNameAndLength(user, self, w, w.(e := e2), n).1
         == World(UndoOwner(UndoMode(e2, user, w.e), user, w.e), w.parent)
  {
    var o := w.e;
    var w2 := w.(e := e2);
    UndoBothKeepsName(e2, user, o, n.name);
    var undone := UndoOwner(UndoMode(e2, user, o), user, o);
    if WantsName(o, n) {
      if Renamed(w2, self, user, o.name, n.name).Some? { RenamedRefusal(user, self, w, e2, undone, n); }
    } else {
      assert Renamed(w.(e := undone), self, user, n.name, o.name) == None;
    }
  }

  lemma RenamedRefusal<T>(user: string, self: T, w: World<T>, e2: Node, undone: Node, n: Request)
    requires InPlace(w, self) && e2.name == w.e.name == undone.name
    requires Renamed(w.(e := e2), self, user, w.e.name, n.name).Some?
    ensures var w3 := Renamed(w.(e := e2), self, user, w.e.name, n.name).value;
      w3.e == e2.(name := n.name) && NameUndone(user, self, w.e, w3.(e := undone.(name := n.name)), n).1
          == World(undone, w.parent)
  {
    RenameBack(w.(e := e2), self, user, n.name, undone.(name := n.name));
    assert undone.(name := n.name).(name := w.e.name) == undone;
  }

  lemma UndoBothKeepsName(e: Node, user: string, o: Node, name: string)
    ensures UndoOwner(UndoMode(e.(name := name), user, o), user, o)
         == UndoOwner(UndoMode(e, user, o), user, o).(name := name)
    ensures UndoOwner(UndoMode(e, user, o), user, o).name == e.name
  {
  }

  lemma OwnerRefusal(user: string, o: Node, e1: Node, n: Request)
    requires ApplyMode(o, user, n) == Some(e1) && ApplyOwner(o, e1, user, n) == None
    ensures var e' := UndoMode(e1, user, o);
      && e'.uid == o.uid && e'.gid == o.gid && e'.name == o.name && Length(e') == Length(o)
      && (Mode(e') == Mode(o) <==> Recovers(user, o, n))
  {
  }

  lemma LateIff<T>(user: string, self: T, w: World<T>, e1: Node, e2: Node, n: Request)
    requires InPlace(w, self)
    requires ApplyMode(w.e, user, n) == Some(e1) && ApplyOwner(w.e, e1, user, n) == Some(e2)
    requires SetNameAndLength(user, self, w, w.(e := e2), n).0 != Done
    ensures Untouched(w, SetNameAndLength(user, self, w, w.(e := e2), n).1) <==> Recovers(user, w.e, n)
  {
    FirstHalf(user, w.e, e1, e2, n);
    LateRefusal(user, self, w, e2, n);
    UndoneIff(user, w.e, e1, e2, n);
    var e' := UndoOwner(UndoMode(e2, user, w.e), user, w.e);
    assert e'.name == w.e.name && Length(e') == Length(w.e);
  }

  // stat(5) wants a wstat that fails to leave everything as it was.  For a file in its parent
  // directory it does so exactly when Recovers holds.
  lemma FailureIsUndoneIff<T>(user: string, self: T, w: World<T>, n: Request)
    requires InPlace(w, self) && SetStat(user, self, w, n).0 != Done && SetStat(user, self, w, n).0 != Rejected
    ensures Untouched(w, SetStat(user, self, w, n).1) <==> Recovers(user, w.e, n)
  {
    match ApplyMode(w.e, user, n)
    case None => assert SetStat(user, self, w, n) == (ModeRefused, w);
    case Some(e1) =>
      match ApplyOwner(w.e, e1, user, n)
      case None =>
        OwnerRefusal(user, w.e, e1, n);
        assert SetStat(user, self, w, n) == (OwnerRefused, w.(e := UndoMode(e1, user, w.e)));
      case Some(e2) =>
        assert SetStat(user, self, w, n) == SetNameAndLength(user, self, w, w.(e := e2), n);
        LateIff(user, self, w, e1, e2, n);
  }

  // In particular, a wstat that changes no owner, keeps the owner's write permission, and changes
  // the group only of a file that has one, is all or nothing.
  lemma AllOrNothing<T>(user: string, self: T, w: World<T>, n: Request)
    requires InPlace(w, self)
    requires !WantsUid(w.e, n) && (WantsMode(w.e, n) ==> n.mode.owner.w) && (WantsGid(w.e, n) ==> w.e.gid != "")
    ensures SetStat(user, self, w, n).0 != Done ==> Untouched(w, SetStat(user, self, w, n).1)
  {
    if SetStat(user, self, w, n).0 != Done && SetStat(user, self, w, n).0 != Rejected {
      FailureIsUndoneIff(user, self, w, n);
    }
  }

  // On words: the directory bit of the old mode and the rest of the new one.
  lemma NewModeOnWords(e: Node, n: Request, a: bv32, b: bv32)
    requires Mode(e) == OfWord(a) && n.mode == OfWord(b)
    ensures NewMode(e, n) == OfWord((a & DMDIR) | (b & !DMDIR))
  {
    DirOnWords(a, b);
  }

  // What stat shows: the permissions, with DMDIR for a directory; and the length, which is that of the
  // content unless it is faked, and nothing for a directory.
  lemma StatOnWords(e: Node, a: bv32)
    requires e.perm == OfWord(a)
    ensures Mode(e) == OfWord(if e.isDir then a | DMDIR else a)
    ensures e.isDir ==> Length(e) == 0
    ensures !e.isDir ==> if e.fake.None? then Length(e) == e.content else Some(Length(e)) == e.fake
  {
    DirOnWords(a, a);
  }

  // When a wstat succeeds: nothing that must not change is changed, the length is not extended and not
  // a directory's, the owner, who may write, changes the mode, and each other change is permitted by
  // the permissions as they are by then.
  lemma SucceedsIff<T>(user: string, self: T, w: World<T>, n: Request)
    requires InPlace(w, self)
    ensures SetStat(user, self, w, n).0 == Done <==>
      var e := w.e;
      var d := w.parent.value;
      var perm := if n.mode != NO_MODE && n.mode != Mode(e) then n.mode else e.perm;
      var uid := if n.uid != "" then n.uid else e.uid;
      && (n.typ == NO_TYPE || n.typ == 0) && (n.dev == NO_UINT32 || n.dev == 0)
      && (n.muid == "" || n.muid == e.muid) && (n.atime == NO_UINT32 || n.atime == e.atime)
      && (n.mode == NO_MODE || n.mode == Mode(e) || (user == e.uid && MayWrite(user, e.uid, e.perm)))
      && (((n.uid == "" || n.uid == e.uid) && (n.gid == "" || n.gid == e.gid)) || MayWrite(user, e.uid, perm))
      && (n.name == "" || n.name == e.name || (n.name !in d.tree && MayWrite(user, d.uid, d.perm)))
      && (n.length == NO_LENGTH || n.length == Length(e) ||
            (!Mode(e).dir && n.length < e.content && e.fake.None? && MayWrite(user, uid, perm)))
  {
    var e2 := HalfWay(user, w.e, n);
    if e2.Some? { LateSucceedsIff(user, self, w, e2.value, n); }
  }

  // The file after the mode and owner changes, if they are not refused.
  function HalfWay(user: string, e: Node, n: Request): Option<Node> {
    match ApplyMode(e, user, n)
    case None => None
    case Some(e1) => ApplyOwner(e, e1, user, n)
  }

  lemma LateSucceedsIff<T>(user: string, self: T, w: World<T>, e2: Node, n: Request)
    requires InPlace(w, self) && e2 == w.e.(perm := e2.perm, uid := e2.uid, gid := e2.gid)
    ensures SetNameAndLength(user, self, w, w.(e := e2), n).0 == Done <==>
      && (WantsName(w.e, n) ==>
            n.name !in w.parent.value.tree && MayWrite(user, w.parent.value.uid, w.parent.value.perm))
      && (WantsLength(w.e, n) ==> SetLength(e2, user, n.length).Some?)
  {
  }

  // A wstat that succeeds has made every requested change and no other; the directory bit stays.
  lemma SuccessIsComplete<T>(user: string, self: T, w: World<T>, n: Request)
    requires InPlace(w, self) && SetStat(user, self, w, n).0 == Done
    ensures var w' := SetStat(user, self, w, n).1;
      && Mode(w'.e) == (if WantsMode(w.e, n) then NewMode(w.e, n) else Mode(w.e))
      && w'.e.uid == (if WantsUid(w.e, n) then n.uid else w.e.uid)
      && w'.e.gid == (if WantsGid(w.e, n) then n.gid else w.e.gid)
      && w'.e.name == (if WantsName(w.e, n) then n.name else w.e.name)
      && Length(w'.e) == (if WantsLength(w.e, n) then n.length else Length(w.e))
      && w'.e.isDir == w.e.isDir && w'.e.muid == w.e.muid && w'.e.fake == w.e.fake
      && w'.parent.Some? && w'.parent.value.uid == w.parent.value.uid && w'.parent.value.perm == w.parent.value.perm
      && w'.parent.value.tree == (if WantsName(w.e, n) then w.parent.value.tree[n.name := self] - {w.e.name}
                                  else w.parent.value.tree)
    ensures Mode(SetStat(user, self, w, n).1.e).dir == Mode(w.e).dir
  {
  }

  // In terms of the request alone: each field that is not to be left alone is what was asked for, the
  // mode but for its directory bit.
  lemma RequestedIsDone<T>(user: string, self: T, w: World<T>, n: Request)
    requires InPlace(w, self) && SetStat(user, self, w, n).0 == Done
    ensures var w' := SetStat(user, self, w, n).1;
      && Mode(w'.e).(dir := false) == (if n.mode == NO_MODE then Mode(w.e) else n.mode).(dir := false)
      && w'.e.uid == (if n.uid == "" then w.e.uid else n.uid)
      && w'.e.gid == (if n.gid == "" then w.e.gid else n.gid)
      && w'.e.name == (if n.name == "" then w.e.name else n.name)
      && Length(w'.e) == (if n.length == NO_LENGTH then Length(w.e) else n.length)
  {
    SuccessIsComplete(user, self, w, n);
    var e := SetStat(user, self, w, n).1.e;
    assert Mode(e) == if WantsMode(w.e, n) then NewMode(w.e, n) else Mode(w.e);
  }

  // setStat crashes on a file without a parent exactly when everything up to the truncation goes
  // through and the truncation is refused, for its rollback renames through the missing parent.
  // The refusal comes from a fake length, or from the very changes made before.
  lemma NilParentIff<T>(user: string, self: T, w: World<T>, n: Request)
    requires w.parent == None
    ensures SetStat(user, self, w, n).0 == NilParent <==>
      var e := w.e;
      var perm := if WantsMode(e, n) then NewMode(e, n) else e.perm;
      && !Illegal(e, false, n) && WantsLength(e, n)
      && (WantsMode(e, n) ==> user == e.uid && MayWrite(user, e.uid, e.perm))
      && (WantsOwner(e, n) ==> MayWrite(user, e.uid, perm))
      && (e.fake.Some? || !MayWrite(user, if WantsUid(e, n) then n.uid else e.uid, perm))
  {
  }

  // For one: the owner of a root file of mode rw-r--r-- asks for r--r--r-- and a shorter file.
  lemma RootTruncationCrashes<T>(self: T)
    ensures var r := Rights(true, false, false);
      var e := Node(false, "/", "glenda", "sys", "glenda", FileMode(false, r.(w := true), r, r, 0), 0, 1, None);
      var n := Request(NO_TYPE, NO_UINT32, "", NO_UINT32, FileMode(false, r, r, r, 0), "", "", "", 0);
      SetStat("glenda", self, World(e, None), n).0 == NilParent
  {
    var r := Rights(true, false, false);
    var e := Node(false, "/", "glenda", "sys", "glenda", FileMode(false, r.(w := true), r, r, 0), 0, 1, None);
    var n := Request(NO_TYPE, NO_UINT32, "", NO_UINT32, FileMode(false, r, r, r, 0), "", "", "", 0);
    NilParentIff("glenda", self, World(e, None), n);
  }

  // A rename goes by name.  When it succeeds, it renames the file that the request was about if and
  // only if that file stands under its own name in the parent; otherwise the file there takes the new
  // name, and the request's own file keeps the old one.
  lemma RenamesItselfIff<T>(user: string, self: T, w: World<T>, n: Request)
    requires w.parent.Some? && WantsName(w.e, n) && SetStat(user, self, w, n).0 == Done
    ensures var w' := SetStat(user, self, w, n).1;
      && w.e.name in w.parent.value.tree
      && w'.e.name == (if InPlace(w, self) then n.name else w.e.name)
      && w'.parent.Some? && n.name in w'.parent.value.tree
      && w'.parent.value.tree[n.name] == w.parent.value.tree[w.e.name]
      && w'.parent.value.tree - {n.name} == w.parent.value.tree - {w.e.name}
  {
    var e2 := ApplyOwner(w.e, ApplyMode(w.e, user, n).value, user, n).value;
    assert SetStat(user, self, w, n) == SetNameAndLength(user, self, w, w.(e := e2), n);
    var tree := w.parent.value.tree;
    assert tree[n.name := tree[w.e.name]] - {w.e.name} - {n.name} == tree - {w.e.name};
  }

  // A mode change that takes the owner's write permission away cannot be undone: the rename to a
  // name that is taken fails, and a file of mode rw-r--r-- is left at r--r--r--.
  lemma ReadOnlyStays<T>(self: T, other: T)
    ensures var r := Rights(true, false, false);
      var e := Node(false, "a", "glenda", "sys", "glenda", FileMode(false, r.(w := true), r, r, 0), 0, 0, None);
      var w := World(e, Some(Dir("glenda", FileMode(true, r.(w := true), r, r, 0), map["a" := self, "b" := other])));
      var n := Request(NO_TYPE, NO_UINT32, "", NO_UINT32, FileMode(false, r, r, r, 0), "b", "", "", NO_LENGTH);
      SetStat("glenda", self, w, n) == (RenameRefused, w.(e := e.(perm := n.mode)))
  {
    assert "a" != "b";
  }
}

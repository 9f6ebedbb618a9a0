/** The union of two directories (trees/mixdir.go: List, Walk). */
module MixDir {
  import opened Qp
  import opened Permissions
  import opened Synthetic
  import S = SetStat

  class MixDir {
    const Top: SyntheticDir
    const Bottom: SyntheticDir

    constructor (top: SyntheticDir, bottom: SyntheticDir)
      ensures Top == top && Bottom == bottom
    {
      Top, Bottom := top, bottom;
    }

    ghost predicate MayRead(user: string)
      reads Top, Bottom
    {
      && PermCheck(Top.UID == user, false, Top.Permissions, OREAD)
      && PermCheck(Bottom.UID == user, false, Bottom.Permissions, OREAD)
    }

    // What stands under a name: Top's file, or else Bottom's.
    ghost function Lookup(name: string): Option<File>
      reads Top, Bottom
    {
      if name in Top.Tree then Top.Lookup(name) else Bottom.Lookup(name)
    }

    // Walk needs to search Bottom only for names that Top does not have.
    method Walk(user: string, name: string) returns (r: Option<Option<File>>)
      ensures r.Some? <==> MaySearch(Top, user) && (name in Top.Tree || MaySearch(Bottom, user))
      ensures r.Some? ==> r.value == Lookup(name)
    {
      var f := Top.Walk(user, name);
      if f.None? { return None; }
      if f.value.Some? { return f; }
      f := Bottom.Walk(user, name);
      if f.None? { return None; }
      return f;
    }

    // Whatever the keys, List gives one stat for each name of a file, a stat of Top's if Top has one of
    // that name.  The map m says which.
    method List(user: string) returns (r: Option<seq<S.Node>>, ghost m: map<string, S.Node>)
      ensures r.Some? <==> MayRead(user)
      ensures r.Some? ==> IsListing(m, r.value) && Merged(m, Bottom.Views(), Top.Views())
    {
      ghost var v1, v2 := Bottom.Views(), Top.Views();
      m := map[];
      label Before:
      var l1, k1 := Bottom.List(user, v1);
      if l1.None? { return None, m; }
      ViewsKept@Before(Top);
      var l2, k2 := Top.List(user, v2);
      if l2.None? { return None, m; }
      var l;
      l, m := Merge(l1.value, l2.value, v1, v2, k1, k2);
      ViewsKept@Before(Top);
      ViewsKept@Before(Bottom);
      r := Some(l);
    }

    // List agrees with Walk, when keys are names: in what List returns, a name has one entry if Walk
    // finds a file under it, the stat of that file, and no entry otherwise.
    lemma ListAgreesWithWalk(m: map<string, S.Node>, l: seq<S.Node>, name: string)
      requires KeysAreNames(Top.Views()) && KeysAreNames(Bottom.Views())
      requires IsListing(m, l) && Merged(m, Bottom.Views(), Top.Views())
      ensures Lookup(name).Some? <==> exists i :: 0 <= i < |l| && l[i].name == name
      ensures forall i :: 0 <= i < |l| && l[i].name == name ==> Lookup(name).Some? && l[i] == ViewOf(Lookup(name).value)
      ensures forall i, j :: 0 <= i < j < |l| && l[i].name == name ==> l[j].name != name
    {
      MergedIsUnion(m, Bottom.Views(), Top.Views());
      UnionIsLookup(name);
      EnumeratedAt(m, Names(l), l, name);
    }

    lemma UnionIsLookup(name: string)
      ensures var v := Bottom.Views() + Top.Views();
        && (name in v <==> Lookup(name).Some?)
        && (name in v ==> v[name] == ViewOf(Lookup(name).value))
    {
    }
  }

  ghost predicate MaySearch(d: SyntheticDir, user: string)
    reads d
  {
    PermCheck(d.UID == user, false, d.Permissions, OEXEC)
  }

  // Every key is the name of its file.
  predicate KeysAreNames(v: map<string, S.Node>) {
    forall n :: n in v ==> v[n].name == n
  }

  function Names(l: seq<S.Node>): (names: seq<string>)
    ensures |names| == |l| && forall i :: 0 <= i < |l| ==> names[i] == l[i].name
  {
    seq(|l|, i requires 0 <= i < |l| => l[i].name)
  }

  // One entry for each name.
  predicate IsListing(m: map<string, S.Node>, l: seq<S.Node>) {
    Enumerates(m, Names(l), l)
  }

  predicate Shows(v: map<string, S.Node>, y: S.Node) {
    y in v.Values
  }

  ghost predicate HasName(v: map<string, S.Node>, name: string) {
    exists y :: Shows(v, y) && y.name == name
  }

  // The names of both, each with a stat from v2 if there is one of that name, and else from v1.
  ghost predicate Merged(m: map<string, S.Node>, v1: map<string, S.Node>, v2: map<string, S.Node>) {
    && (forall n :: n in m <==> HasName(v1, n) || HasName(v2, n))
    && (forall n :: n in m ==> m[n].name == n && if HasName(v2, n) then Shows(v2, m[n]) else Shows(v1, m[n]))
  }

  lemma MergedIsUnion(m: map<string, S.Node>, v1: map<string, S.Node>, v2: map<string, S.Node>)
    requires KeysAreNames(v1) && KeysAreNames(v2) && Merged(m, v1, v2)
    ensures m == v1 + v2
  {
    forall n ensures (n in v1 <==> HasName(v1, n)) && (n in v2 <==> HasName(v2, n)) {
      if n in v1 { assert Shows(v1, v1[n]); }
      if n in v2 { assert Shows(v2, v2[n]); }
    }
  }

  twostate lemma ViewsKept(d: SyntheticDir)
    requires unchanged(d) && forall x :: x in d.Tree.Values ==> unchanged(Object(x))
    ensures d.Views() == old(d.Views())
  {
  }

  // List's loops: the second listing has priority.
  method Merge(l1: seq<S.Node>, l2: seq<S.Node>, ghost v1: map<string, S.Node>, ghost v2: map<string, S.Node>,
               ghost k1: seq<string>, ghost k2: seq<string>)
    returns (l: seq<S.Node>, ghost m: map<string, S.Node>)
    requires Enumerates(v1, k1, l1) && Enumerates(v2, k2, l2)
    ensures IsListing(m, l) && Merged(m, v1, v2)
  {
    var c: map<string, S.Node> := map[];
    c := AddAll(c, l1);
    assert c == Collected(l1);
    c := AddAll(c, l2);
    CollectedMerged(v1, v2, k1, k2, l1, l2);
    ghost var keys;
    l, keys := Values(c);
    m := c;
    KeysOfNames(m, keys, l);
  }

  // The entries by name, a later one in place of an earlier one.
  function Collected(l: seq<S.Node>): map<string, S.Node> {
    if l == [] then map[] else Collected(l[..|l| - 1])[l[|l| - 1].name := l[|l| - 1]]
  }

  lemma {:induction false} CollectedAt(l: seq<S.Node>, n: string)
    ensures n in Collected(l) <==> exists y :: y in l && y.name == n
    ensures n in Collected(l) ==> Collected(l)[n] in l && Collected(l)[n].name == n
  {
    if l != [] {
      var k := |l| - 1;
      CollectedAt(l[..k], n);
      if y :| y in l && y.name == n { assert y == l[k] || y in l[..k]; }
    }
  }

  lemma EnumeratesShown(v: map<string, S.Node>, keys: seq<string>, l: seq<S.Node>, y: S.Node)
    requires Enumerates(v, keys, l)
    ensures y in l <==> Shows(v, y)
  {
    if y in l {
      var i :| 0 <= i < |l| && l[i] == y;
      EnumeratedAt(v, keys, l, keys[i]);
    }
    if Shows(v, y) {
      var n :| n in v && v[n] == y;
      EnumeratedAt(v, keys, l, n);
    }
  }

  lemma CollectedMerged(v1: map<string, S.Node>, v2: map<string, S.Node>, k1: seq<string>, k2: seq<string>,
                        l1: seq<S.Node>, l2: seq<S.Node>)
    requires Enumerates(v1, k1, l1) && Enumerates(v2, k2, l2)
    ensures Merged(Collected(l1) + Collected(l2), v1, v2)
  {
    forall n
      ensures n in Collected(l1) <==> HasName(v1, n)
      ensures n in Collected(l2) <==> HasName(v2, n)
      ensures n in Collected(l1) ==> Shows(v1, Collected(l1)[n]) && Collected(l1)[n].name == n
      ensures n in Collected(l2) ==> Shows(v2, Collected(l2)[n]) && Collected(l2)[n].name == n
    {
      CollectedShown(v1, k1, l1, n);
      CollectedShown(v2, k2, l2, n);
    }
  }

  lemma CollectedShown(v: map<string, S.Node>, keys: seq<string>, l: seq<S.Node>, n: string)
    requires Enumerates(v, keys, l)
    ensures n in Collected(l) <==> HasName(v, n)
    ensures n in Collected(l) ==> Shows(v, Collected(l)[n]) && Collected(l)[n].name == n
  {
    CollectedAt(l, n);
    forall y ensures y in l <==> Shows(v, y) { EnumeratesShown(v, keys, l, y); }
  }

  lemma KeysOfNames(m: map<string, S.Node>, keys: seq<string>, l: seq<S.Node>)
    requires Enumerates(m, keys, l) && KeysAreNames(m)
    ensures IsListing(m, l)
  {
    forall i | 0 <= i < |l| ensures keys[i] == Names(l)[i] { EnumeratedAt(m, keys, l, keys[i]); }
    assert keys == Names(l);
  }

  // List's inner loops: each stat goes into the map under its name.
  method AddAll(m0: map<string, S.Node>, l: seq<S.Node>) returns (m: map<string, S.Node>)
    ensures m == m0 + Collected(l)
  {
    m := m0;
    for i := 0 to |l|
      invariant m == m0 + Collected(l[..i])
    {
      assert l[..i + 1][..i] == l[..i];
      m := m[l[i].name := l[i]];
    }
    assert l[..|l|] == l;
  }
}

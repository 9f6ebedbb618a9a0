/** Lexical path cleaning in the command line client (cmd/9pc/main.go: parsepath), and why the
    server ends up in the same place either way. */
module PathCleaning {
  import opened Qp
  import opened Walking

  // ---- Cleaning ----------------------------------------------------------------------------

  // What one component does to the stack of kept components.
  function Push(strs: seq<string>, str: string): seq<string> {
    if str == "" || str == "." then strs
    else if str == ".." && strs != [] && strs[|strs| - 1] != ".." then strs[..|strs| - 1]
    else strs + [str]
  }

  function Clean(components: seq<string>): seq<string> {
    if components == [] then [] else Push(Clean(components[..|components| - 1]), components[|components| - 1])
  }

  // No "." or empty component, and ".." only in front.
  predicate IsClean(strs: seq<string>) {
    && (forall i :: 0 <= i < |strs| ==> strs[i] != "" && strs[i] != ".")
    && (forall i :: 0 < i < |strs| && strs[i] == ".." ==> strs[i - 1] == "..")
  }

  lemma {:induction false} CleanIsClean(components: seq<string>)
    ensures IsClean(Clean(components))
  {
    if components != [] { CleanIsClean(components[..|components| - 1]); }
  }

  lemma {:induction false} CleanKeepsClean(strs: seq<string>)
    requires IsClean(strs)
    ensures Clean(strs) == strs
  {
    if strs != [] {
      var front, last := strs[..|strs| - 1], strs[|strs| - 1];
      CleanKeepsClean(front);
      assert strs == front + [last];
      assert last == ".." && front != [] ==> front[|front| - 1] == "..";
      assert Push(front, last) == front + [last];
    }
  }

  lemma CleanIdempotent(components: seq<string>)
    ensures Clean(Clean(components)) == Clean(components)
  {
    CleanIsClean(components);
    CleanKeepsClean(Clean(components));
  }

  // ---- Cleaning preserves the walk ---------------------------------------------------------

  function NonEmpty(components: seq<string>): seq<string> {
    if components == [] then []
    else
      var rest := NonEmpty(components[..|components| - 1]);
      var last := components[|components| - 1];
      if last == "" then rest else rest + [last]
  }

  lemma WalkOne(tree: Tree, user: string, location: seq<File>, name: string)
    requires location != []
    ensures var o := Walk(tree, user, location, [name]);
      match StepTo(tree, user, location, name)
      case Moved(l, q) => o == Complete(l, [q])
      case Ended(e) => !o.Complete?
      case Spoiled(e) => !o.Complete?
  {
    var st := StepTo(tree, user, location, name);
    assert [name][1..] == [];
    if st.Moved? {
      assert Walk(tree, user, st.location, []) == Complete(st.location, []);
    }
  }

  // A walk by one more name completes just when the walk up to it does and the step moves.
  lemma WalkSnoc(tree: Tree, user: string, location: seq<File>, names: seq<string>, name: string)
    requires location != []
    ensures var o := Walk(tree, user, location, names);
      var o' := Walk(tree, user, location, names + [name]);
      && (o.Complete? ==> o.location != [])
      && (o'.Complete? <==> o.Complete? && StepTo(tree, user, o.location, name).Moved?)
      && (o'.Complete? ==> o'.location == StepTo(tree, user, o.location, name).location)
  {
    WalkConcat(tree, user, location, names, [name]);
    var o := Walk(tree, user, location, names);
    if o.Complete? { WalkOne(tree, user, o.location, name); }
  }

  // Cleaning drops a name only together with the ".." that follows it; the name pushed exactly
  // one file, so the location below it is the one that ".." leads back to.
  lemma PopStep(tree: Tree, user: string, location: seq<File>, init: seq<string>, name: string)
    requires location != [] && name != "." && name != ".."
    requires Walk(tree, user, location, init + [name]).Complete?
    ensures Walk(tree, user, location, init).Complete?
    ensures var here := Walk(tree, user, location, init + [name]).location;
      here != [] && Up(here) == Walk(tree, user, location, init).location
  {
    WalkSnoc(tree, user, location, init, name);
    var below := Walk(tree, user, location, init).location;
    var here := StepTo(tree, user, below, name).location;
    assert here[..|here| - 1] == below;
  }

  // One component, walked raw and pushed on the cleaned stack.
  lemma PushStep(tree: Tree, user: string, location: seq<File>, strs: seq<string>, str: string)
    requires location != [] && IsClean(strs) && str != ""
    requires Walk(tree, user, location, strs).Complete?
    requires Walk(tree, user, location, strs).location != []
    requires StepTo(tree, user, Walk(tree, user, location, strs).location, str).Moved?
    ensures Walk(tree, user, location, Push(strs, str)).Complete?
    ensures Walk(tree, user, location, Push(strs, str)).location
         == StepTo(tree, user, Walk(tree, user, location, strs).location, str).location
  {
    if str == "." {
    } else if str == ".." && strs != [] && strs[|strs| - 1] != ".." {
      var init, name := strs[..|strs| - 1], strs[|strs| - 1];
      assert strs == init + [name];
      PopStep(tree, user, location, init, name);
    } else {
      WalkSnoc(tree, user, location, strs, str);
    }
  }

  // If the raw components, empty ones dropped, can be walked to the end, then so can the cleaned
  // ones, and they end on the same location stack.
  lemma {:induction false} CleanPreservesWalk(tree: Tree, user: string, location: seq<File>, components: seq<string>)
    requires location != []
    requires Walk(tree, user, location, NonEmpty(components)).Complete?
    ensures Walk(tree, user, location, Clean(components)).Complete?
    ensures Walk(tree, user, location, Clean(components)).location
         == Walk(tree, user, location, NonEmpty(components)).location
  {
    if components != [] {
      var front, last := components[..|components| - 1], components[|components| - 1];
      if last != "" { WalkSnoc(tree, user, location, NonEmpty(front), last); }
      CleanPreservesWalk(tree, user, location, front);
      if last != "" {
        CleanIsClean(front);
        PushStep(tree, user, location, Clean(front), last);
      }
    }
  }

  // ---- When the converse holds ---------------------------------------------------------------

  // A component that cleaning loses: a ".", a ".." that takes a name away, and the name it takes.
  // What is not lost is appended and still there in the end.
  predicate Lost(components: seq<string>, i: nat) {
    i < |components| && components[i] != "" &&
    !(Clean(components[..i + 1]) == Clean(components[..i]) + [components[i]]
        && Clean(components[..i + 1]) <= Clean(components))
  }

  // From where strs leads, one can go on to name.
  predicate CanGoOn(tree: Tree, user: string, location: seq<File>, strs: seq<string>, name: string)
    requires location != []
  {
    var o := Walk(tree, user, location, strs);
    o.Complete? && o.location != [] && StepTo(tree, user, o.location, name).Moved?
  }

  // The raw components can be walked to the end exactly when the cleaned ones can and each lost
  // component can be taken too, from where the cleaned components before it lead.
  lemma RawCompletesIff(tree: Tree, user: string, location: seq<File>, components: seq<string>)
    requires location != []
    ensures Walk(tree, user, location, NonEmpty(components)).Complete? <==>
      && Walk(tree, user, location, Clean(components)).Complete?
      && forall i: nat :: Lost(components, i) ==> CanGoOn(tree, user, location, Clean(components[..i]), components[i])
  {
    assert components[..|components|] == components;
    if Walk(tree, user, location, NonEmpty(components)).Complete? {
      CleanPreservesWalk(tree, user, location, components);
      forall i: nat | Lost(components, i) ensures CanGoOn(tree, user, location, Clean(components[..i]), components[i]) {
        RawGoesOn(tree, user, location, components, i);
      }
    } else if Walk(tree, user, location, Clean(components)).Complete?
           && forall i: nat :: Lost(components, i) ==>
               CanGoOn(tree, user, location, Clean(components[..i]), components[i]) {
      RawReaches(tree, user, location, components, |components|);
    }
  }

  // If a walk completes, so does the walk to any point on the way.
  lemma WalkPrefix(tree: Tree, user: string, location: seq<File>, a: seq<string>, ab: seq<string>)
    requires location != [] && a <= ab && Walk(tree, user, location, ab).Complete?
    ensures Walk(tree, user, location, a).Complete?
  {
    assert ab == a + ab[|a|..];
    WalkConcat(tree, user, location, a, ab[|a|..]);
  }

  lemma {:induction false} NonEmptyPrefix(components: seq<string>, i: nat)
    requires i <= |components|
    ensures NonEmpty(components[..i]) <= NonEmpty(components)
    decreases |components| - i
  {
    if i == |components| {
      assert components[..i] == components;
    } else {
      NonEmptyPrefix(components, i + 1);
      assert components[..i + 1][..i] == components[..i];
    }
  }

  lemma RawGoesOn(tree: Tree, user: string, location: seq<File>, components: seq<string>, i: nat)
    requires location != [] && i < |components| && components[i] != ""
    requires Walk(tree, user, location, NonEmpty(components)).Complete?
    ensures CanGoOn(tree, user, location, Clean(components[..i]), components[i])
  {
    assert components[..i + 1][..i] == components[..i];
    NonEmptyPrefix(components, i + 1);
    WalkPrefix(tree, user, location, NonEmpty(components[..i + 1]), NonEmpty(components));
    WalkSnoc(tree, user, location, NonEmpty(components[..i]), components[i]);
    CleanPreservesWalk(tree, user, location, components[..i]);
  }

  lemma {:induction false} RawReaches(tree: Tree, user: string, location: seq<File>, components: seq<string>, n: nat)
    requires location != [] && n <= |components|
    requires Walk(tree, user, location, Clean(components)).Complete?
    requires forall i: nat :: Lost(components, i) ==>
        CanGoOn(tree, user, location, Clean(components[..i]), components[i])
    ensures Walk(tree, user, location, NonEmpty(components[..n])).Complete?
    decreases n
  {
    if n > 0 {
      var i := n - 1;
      RawReaches(tree, user, location, components, i);
      assert components[..n][..i] == components[..i];
      if components[i] != "" {
        CleanPreservesWalk(tree, user, location, components[..i]);
        WalkSnoc(tree, user, location, NonEmpty(components[..i]), components[i]);
        if !Lost(components, i) {
          WalkPrefix(tree, user, location, Clean(components[..n]), Clean(components));
          WalkSnoc(tree, user, location, Clean(components[..i]), components[i]);
        }
      }
    }
  }

  // Two ways in which it fails: the name that cleaning removes does not exist, or a "." is walked to
  // where the qid cannot be had.
  lemma CleanMayComplete(tree: Tree, user: string, root: File)
    ensures tree.IsDir(root) == Yes(true) && tree.Walk(user, root, "gone") == Yes(None) ==>
      && !Walk(tree, user, [root], NonEmpty(["gone", ".."])).Complete?
      && Walk(tree, user, [root], Clean(["gone", ".."])) == Complete([root], [])
    ensures tree.Qid(root).No? ==>
      && !Walk(tree, user, [root], NonEmpty(["."])).Complete?
      && Walk(tree, user, [root], Clean(["."])) == Complete([root], [])
  {
    assert ["gone", ".."][..1] == ["gone"] && ["gone"][..0] == [] && ["."][..0] == [];
    assert NonEmpty(["gone"]) == ["gone"] && Clean(["gone"]) == ["gone"];
    assert NonEmpty(["gone", ".."]) == ["gone", ".."] && NonEmpty(["."]) == ["."];
    assert Clean(["gone", ".."]) == [] && Clean(["."]) == [];
    WalkOne(tree, user, [root], ".");
  }

  // ---- Path strings ------------------------------------------------------------------------

  // strings.Split(path, "/")
  function Split(path: string): seq<string>
    ensures Split(path) != []
  {
    if path == "" then [""]
    else
      var rest := Split(path[1..]);
      if path[0] == '/' then [""] + rest else [[path[0]] + rest[0]] + rest[1..]
  }

  function Join(strs: seq<string>): string {
    if strs == [] then "" else if |strs| == 1 then strs[0] else strs[0] + "/" + Join(strs[1..])
  }

  predicate NoSlash(str: string) {
    '/' !in str
  }

  // Split cuts at the slashes and nowhere else.
  lemma {:induction false} SplitPieces(path: string)
    ensures forall i :: 0 <= i < |Split(path)| ==> NoSlash(Split(path)[i])
    ensures Join(Split(path)) == path
  {
    if path != "" {
      SplitPieces(path[1..]);
      var rest := Split(path[1..]);
      if path[0] == '/' {
        assert Split(path)[1..] == rest;
      } else {
        assert Split(path)[1..] == rest[1..];
      }
    }
  }

  lemma {:induction false} SplitPiece(str: string)
    requires NoSlash(str)
    ensures Split(str) == [str]
  {
    if str != "" {
      SplitPiece(str[1..]);
      assert [str[0]] + str[1..] == str;
    }
  }

  lemma {:induction false} SplitPrefix(str: string, path: string)
    requires NoSlash(str)
    ensures Split(str + "/" + path) == [str] + Split(path)
  {
    if str == "" {
      assert (str + "/" + path)[1..] == path;
    } else {
      SplitPrefix(str[1..], path);
      assert (str + "/" + path)[1..] == str[1..] + "/" + path;
      assert [str[0]] + str[1..] == str;
      assert ([str[1..]] + Split(path))[1..] == Split(path);
    }
  }

  lemma {:induction false} SplitJoin(strs: seq<string>)
    requires strs != [] && forall i :: 0 <= i < |strs| ==> NoSlash(strs[i])
    ensures Split(Join(strs)) == strs
  {
    if |strs| == 1 {
      SplitPiece(strs[0]);
    } else {
      SplitJoin(strs[1..]);
      SplitPrefix(strs[0], Join(strs[1..]));
    }
  }

  lemma {:induction false} CleanNoSlash(components: seq<string>)
    requires forall i :: 0 <= i < |components| ==> NoSlash(components[i])
    ensures forall i :: 0 <= i < |Clean(components)| ==> NoSlash(Clean(components)[i])
  {
    if components != [] { CleanNoSlash(components[..|components| - 1]); }
  }

  // ---- parsepath itself --------------------------------------------------------------------

  method ParsePath(path: string) returns (strs: seq<string>, absolute: bool)
    ensures strs == Clean(Split(path)) && IsClean(strs)
    ensures absolute <==> path != "" && path[0] == '/'
  {
    CleanIsClean(Split(path));
    if |path| == 0 {
      assert Split(path)[..0] == [];
      return [], false;
    }
    absolute := path[0] == '/';
    var s := Split(path);
    strs := [];
    for i := 0 to |s|
      invariant strs == Clean(s[..i])
    {
      var str := s[i];
      assert s[..i + 1][..i] == s[..i];
      if str == "" || str == "." {
      } else if str == ".." {
        if |strs| > 0 && strs[|strs| - 1] != ".." {
          strs := strs[..|strs| - 1];
        } else {
          strs := strs + [str];
        }
      } else {
        strs := strs + [str];
      }
    }
    assert s[..|s|] == s;
  }

  // Cleaning a path that has been cleaned changes nothing.
  lemma ParseAgain(path: string)
    ensures Clean(Split(Join(Clean(Split(path))))) == Clean(Split(path))
  {
    var strs := Clean(Split(path));
    CleanIsClean(Split(path));
    if strs == [] {
      assert Split("")[..0] == [];
    } else {
      SplitPieces(path);
      CleanNoSlash(Split(path));
      SplitJoin(strs);
      CleanKeepsClean(strs);
    }
  }
}

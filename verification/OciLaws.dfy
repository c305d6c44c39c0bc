/** Paths and markers by their spelling: the equations that determine how an entry's path is
    cleaned, and what an entry hides, with the names written out. */
module OciLaws {
  import opened OciFlatten
  import opened OciPaths
  import opened Options

  // ----- What cleaning does to a path -----

  /** The components that are left of a path. */
  function Kept(p: string): seq<string>
  {
    Resolve(Split("/" + Slashed(p)), [], true)
  }

  lemma CleanPathJoins(p: string)
    ensures CleanPath(p) == Join(Kept(p))
  {
    var out := Join(Kept(p));
    assert ("/" + out)[1..] == out;
  }

  lemma SlashedAppend(a: string, b: string)
    ensures Slashed(a + b) == Slashed(a) + Slashed(b)
  {}

  /** What is kept of two texts joined by a slash, through a middle part. */
  lemma KeptThrough(a: string, middle: string, b: string, p: string)
    requires Slashed(p) == Slashed(a) + ['/'] + middle + ['/'] + Slashed(b)
    ensures Kept(p) == Resolve(Split(Slashed(b)), Resolve(Split(middle), Kept(a), true), true)
  {
    var front := "/" + Slashed(a);
    assert "/" + Slashed(p) == front + ['/'] + middle + ['/'] + Slashed(b);
    SplitConcat(front + ['/'] + middle, Slashed(b));
    SplitConcat(front, middle);
    ResolveAppend(Split(front) + Split(middle), Split(Slashed(b)), [], true);
    ResolveAppend(Split(front), Split(middle), [], true);
  }

  lemma KeptOfPair(a: string, b: string, p: string)
    requires Slashed(p) == Slashed(a) + ['/'] + Slashed(b)
    ensures Kept(p) == Resolve(Split(Slashed(b)), Kept(a), true)
  {
    var front := "/" + Slashed(a);
    assert "/" + Slashed(p) == front + ['/'] + Slashed(b);
    SplitConcat(front, Slashed(b));
    ResolveAppend(Split(front), Split(Slashed(b)), [], true);
  }

  lemma ResolveOne(c: string, stack: seq<string>)
    ensures Resolve([c], stack, true) == Push(stack, c, true)
  {
    assert [c][1..] == [];
  }

  lemma ResolveTwo(c: string, d: string, stack: seq<string>)
    ensures Resolve([c, d], stack, true) == Push(Push(stack, c, true), d, true)
  {
    assert [c, d][1..] == [d];
    ResolveOne(d, Push(stack, c, true));
  }

  lemma SamePath(p: string, q: string)
    requires Kept(p) == Kept(q)
    ensures CleanPath(p) == CleanPath(q)
  {
    CleanPathJoins(p);
    CleanPathJoins(q);
  }

  /** Slashes collapse. */
  lemma SlashesCollapse(a: string, b: string)
    ensures CleanPath(a + "//" + b) == CleanPath(a + "/" + b)
  {
    var p, q := a + "//" + b, a + "/" + b;
    assert Slashed(p) == Slashed(a) + ['/'] + "" + ['/'] + Slashed(b);
    KeptThrough(a, "", b, p);
    assert Slashed(q) == Slashed(a) + ['/'] + Slashed(b);
    KeptOfPair(a, b, q);
    ResolveOne("", Kept(a));
    SamePath(p, q);
  }

  /** A dot stands for the directory it is in. */
  lemma DotVanishes(a: string, b: string)
    ensures CleanPath(a + "/./" + b) == CleanPath(a + "/" + b)
  {
    var p, q := a + "/./" + b, a + "/" + b;
    assert Slashed(p) == Slashed(a) + ['/'] + "." + ['/'] + Slashed(b);
    KeptThrough(a, ".", b, p);
    assert Slashed(q) == Slashed(a) + ['/'] + Slashed(b);
    KeptOfPair(a, b, q);
    SplitNoSlash(".");
    ResolveOne(".", Kept(a));
    SamePath(p, q);
  }

  /** Two dots take back the component before them. */
  lemma ParentCancels(a: string, c: string, b: string)
    requires Proper(c)
    ensures CleanPath(a + "/" + c + "/../" + b) == CleanPath(a + "/" + b)
  {
    var p, q := a + "/" + c + "/../" + b, a + "/" + b;
    var middle := c + ['/'] + "..";
    assert Slashed(p) == Slashed(a) + ['/'] + middle + ['/'] + Slashed(b);
    KeptThrough(a, middle, b, p);
    assert Slashed(q) == Slashed(a) + ['/'] + Slashed(b);
    KeptOfPair(a, b, q);
    ParentPops(c, Kept(a));
    SamePath(p, q);
  }

  lemma ParentPops(c: string, stack: seq<string>)
    requires Proper(c)
    ensures Resolve(Split(c + ['/'] + ".."), stack, true) == stack
  {
    SplitConcat(c, "..");
    SplitNoSlash(c);
    SplitNoSlash("..");
    assert Split(c) + Split("..") == [c, ".."];
    ResolveTwo(c, "..", stack);
    assert Push(stack, c, true) == stack + [c];
    assert (stack + [c])[..|stack|] == stack;
  }

  /** Nothing lies above the root. */
  lemma RootHasNoParent(b: string)
    ensures CleanPath("../" + b) == CleanPath(b)
  {
    KeptOfEmpty();
    var p := "../" + b;
    SlashedAppend("../", b);
    assert "/" + Slashed(p) == "" + ['/'] + (".." + ['/'] + Slashed(b));
    SplitConcat("", ".." + ['/'] + Slashed(b));
    SplitConcat("..", Slashed(b));
    SplitNoSlash("..");
    RootTurn("..", b, p);
  }

  lemma KeptOfEmpty()
    ensures Split("") == [""]
  {}

  /** A first component that leaves the root where it is. */
  lemma RootTurn(c: string, b: string, p: string)
    requires Split("/" + Slashed(p)) == [""] + ([c] + Split(Slashed(b))) && Push([], c, true) == []
    ensures CleanPath(p) == CleanPath(b)
  {
    assert "/" + Slashed(b) == "" + ['/'] + Slashed(b);
    SplitConcat("", Slashed(b));
    ResolveAppend([""], [c] + Split(Slashed(b)), [], true);
    ResolveAppend([c], Split(Slashed(b)), [], true);
    ResolveAppend([""], Split(Slashed(b)), [], true);
    ResolveOne("", []);
    ResolveOne(c, []);
    SamePath(p, b);
  }

  /** A leading slash changes nothing. */
  lemma LeadingSlash(b: string)
    ensures CleanPath("/" + b) == CleanPath(b)
  {
    var p := "/" + b;
    SlashedAppend("/", b);
    assert "/" + Slashed(p) == "" + ['/'] + ("" + ['/'] + Slashed(b));
    SplitConcat("", "" + ['/'] + Slashed(b));
    SplitConcat("", Slashed(b));
    RootTurn("", b, p);
  }

  /** Nor does a trailing one. */
  lemma TrailingSlash(a: string)
    ensures CleanPath(a + "/") == CleanPath(a)
  {
    var p := a + "/";
    assert Slashed(p) == Slashed(a) + ['/'] + Slashed("");
    KeptOfPair(a, "", p);
    ResolveOne("", Kept(a));
    SamePath(p, a);
  }

  /** A backslash is a slash. */
  lemma BackslashIsSlash(a: string, b: string)
    ensures CleanPath(a + "\\" + b) == CleanPath(a + "/" + b)
  {
    SlashedAppend(a, "\\" + b);
    SlashedAppend("\\", b);
    SlashedAppend(a, "/" + b);
    SlashedAppend("/", b);
    assert a + "\\" + b == a + ("\\" + b) && a + "/" + b == a + ("/" + b);
    assert Slashed("\\") == "/" == Slashed("/");
  }

  // ----- What the markers hide -----

  lemma BeginsProperly(a: seq<string>, b: seq<string>)
    ensures a < b <==> |a| < |b| && b[..|a|] == a
  {}

  lemma UnderComponents(p: string, ps: seq<string>, dir: string, cs: seq<string>)
    requires Split(p) == ps && Split(dir) == cs && dir != ""
    ensures Under(p, dir) <==> |cs| < |ps| && ps[..|cs|] == cs
  {
    BeginsProperly(cs, ps);
  }

  /** Below a directory lie the paths its components properly begin. */
  lemma UnderBySpelling(ps: seq<string>, cs: seq<string>)
    requires AllProper(ps) && AllProper(cs) && cs != []
    ensures Under(Join(ps), Join(cs)) <==> |cs| < |ps| && ps[..|cs|] == cs
  {
    JoinHasNoBackslash(cs);
    SplitOfJoin(cs);
    if ps == [] {
      UnderComponents(Join(ps), [""], Join(cs), cs);
    } else {
      SplitOfJoin(ps);
      UnderComponents(Join(ps), ps, Join(cs), cs);
    }
  }

  lemma JoinTells(a: seq<string>, b: seq<string>)
    requires AllProper(a) && AllProper(b)
    ensures Join(a) == Join(b) <==> a == b
  {
    if a != [] {
      SplitOfJoin(a);
      JoinHasNoBackslash(a);
    }
    if b != [] {
      SplitOfJoin(b);
      JoinHasNoBackslash(b);
    }
  }

  lemma AtOrBelow(ps: seq<string>, dir: seq<string>)
    ensures ps == dir || (|dir| < |ps| && ps[..|dir|] == dir) <==> |dir| <= |ps| && ps[..|dir|] == dir
  {
    if |dir| == |ps| {
      assert ps[..|dir|] == ps;
    }
  }

  /** An entry .wh.name hides the name beside it and what lies below that. */
  lemma WhiteoutBySpelling(cs: seq<string>, name: string, data: seq<int>, ps: seq<string>, dir: seq<string>)
    requires AllProper(cs) && AllProper(ps) && Proper(name) && name != ".wh..opq" && dir == cs + [name]
    ensures Hides(File(Join(cs + [".wh." + name]), data), Join(ps)) <==> |dir| <= |ps| && ps[..|dir|] == dir
  {
    WhiteoutHidesItsName(cs, name, File(Join(cs + [".wh." + name]), data), Join(ps));
    UnderBySpelling(ps, dir);
    JoinTells(ps, dir);
    AtOrBelow(ps, dir);
  }

  /** An entry .wh..wh..opq hides what lies below its directory, at the top everything. */
  lemma OpaqueBySpelling(cs: seq<string>, data: seq<int>, ps: seq<string>)
    requires AllProper(cs) && AllProper(ps) && ps != []
    ensures Hides(File(Join(cs + [".wh..wh..opq"]), data), Join(ps)) <==> |cs| < |ps| && ps[..|cs|] == cs
  {
    OpaqueHidesItsDirectory(cs, File(Join(cs + [".wh..wh..opq"]), data), Join(ps));
    if cs != [] {
      UnderBySpelling(ps, cs);
    }
  }

  /** Every other entry is a file at its own path. */
  lemma FileBySpelling(cs: seq<string>, name: string, data: seq<int>, p: string)
    requires AllProper(cs) && Proper(name) && !(".wh." <= name)
    ensures var e := File(Join(cs + [name]), data);
            !Hides(e, p) && LastEntry([e], p) == if p == e.path then Some(e) else None
  {
    var e := File(Join(cs + [name]), data);
    EntryPaths(cs, name);
    assert WHITEOUT_OPAQUE[..4] == ".wh.";
    assert name == WHITEOUT_OPAQUE ==> ".wh." <= name;
    CleanPathOfClean(cs + [name]);
    JoinHasNoBackslash(cs + [name]);
    if p != "" {
      OneEntry(e, p);
    }
  }
}

/** Flattening image layers into one file tree, against the declarative reading of the OCI
    image layer changeset rules for whiteouts and opaque directories. */
module OciFlatten {
  import opened Options
  import opened OciPaths

  /** An entry of a layer: a regular file or a whiteout marker, told apart by its name. */
  datatype File = File(path: string, data: seq<int>)

  type Layer = seq<File>

  const WHITEOUT_PREFIX := ".wh."
  const WHITEOUT_OPAQUE := ".wh..wh..opq"

  predicate IsOpaque(e: File) { Base(e.path) == WHITEOUT_OPAQUE }

  predicate IsMarker(e: File) { IsOpaque(e) || HasPrefix(Base(e.path), WHITEOUT_PREFIX) }

  /** The path a whiteout names. */
  function Target(e: File): string
    requires HasPrefix(Base(e.path), WHITEOUT_PREFIX)
  {
    CleanPath(JoinPath(Dir(e.path), Base(e.path)[|WHITEOUT_PREFIX|..]))
  }

  /** The entry hides p in the layers below: a whiteout hides the path it names and all below
      it, an opaque marker hides all below its directory. */
  predicate Hides(e: File, p: string)
  {
    if IsOpaque(e) then Under(p, CleanPath(Dir(e.path)))
    else HasPrefix(Base(e.path), WHITEOUT_PREFIX) && (p == Target(e) || Under(p, Target(e)))
  }

  ghost predicate LayerHides(layer: Layer, p: string)
  {
    exists e :: e in layer && Hides(e, p)
  }

  lemma OneMoreEntryHides(layer: Layer, k: nat)
    requires k < |layer|
    ensures forall p {:trigger LayerHides(layer[..k + 1], p)} ::
      LayerHides(layer[..k + 1], p) <==> LayerHides(layer[..k], p) || Hides(layer[k], p)
  {
    assert layer[..k + 1] == layer[..k] + [layer[k]];
  }

  /** The last regular entry of the layer for p, filed under its clean path. */
  function LastEntry(layer: Layer, p: string): Option<File>
    decreases |layer|
  {
    if layer == [] || p == "" then None else
    var e := layer[|layer| - 1];
    if !IsMarker(e) && CleanPath(e.path) == p then Some(e.(path := p)) else LastEntry(layer[..|layer| - 1], p)
  }

  /** The layer neither has p nor hides it. */
  ghost predicate Transparent(layer: Layer, p: string)
  {
    LastEntry(layer, p) == None && !LayerHides(layer, p)
  }

  /** Layer i supplies f at p, and no higher layer replaces or hides it. */
  ghost predicate Survives(layers: seq<Layer>, p: string, i: nat, f: File)
  {
    && i < |layers| && LastEntry(layers[i], p) == Some(f)
    && forall j {:trigger Transparent(layers[j], p)} :: i < j < |layers| ==> Transparent(layers[j], p)
  }

  /** What the layers show at p, looking from the top down. */
  ghost function Effective(layers: seq<Layer>, p: string): Option<File>
    decreases |layers|
  {
    if layers == [] then None else
    var top := layers[|layers| - 1];
    if LastEntry(top, p).Some? then LastEntry(top, p)
    else if LayerHides(top, p) then None
    else Effective(layers[..|layers| - 1], p)
  }

  /** The tree shows at every path what the layers show there. */
  ghost predicate IsFlattened(layers: seq<Layer>, files: map<string, File>)
  {
    forall p :: Lookup(files, p) == Effective(layers, p)
  }

  function Lookup(files: map<string, File>, p: string): Option<File>
  {
    if p in files then Some(files[p]) else None
  }

  /** A layer's entry for p or else what is there. */
  function Over(files: map<string, File>, layer: Layer, p: string): Option<File>
  {
    if LastEntry(layer, p).Some? then LastEntry(layer, p) else Lookup(files, p)
  }

  /** What p shows once entry e is added to what it showed. */
  function Added(e: File, p: string, below: Option<File>): Option<File>
  {
    if !IsMarker(e) && p == CleanPath(e.path) && p != "" then Some(e.(path := p)) else below
  }

  lemma OneMoreOver(files: map<string, File>, init: Layer, e: File, layer: Layer)
    requires layer == init + [e]
    ensures forall p :: Over(files, layer, p) == Added(e, p, Over(files, init, p))
  {
    assert layer[..|layer| - 1] == init;
  }

  class FileTree {
    var files: map<string, File>

    constructor ()
      ensures files == map[]
    {
      files := map[];
    }

    /** Deletes every file below dir. */
    method RemovePrefix(dir: string)
      modifies this
      ensures files == map p | p in old(files) && !Under(p, CleanPath(dir)) :: old(files)[p]
    {
      var d := CleanPath(dir);
      var prefix := if d == "" then "" else d + ['/'];
      var keys := files.Keys;
      while keys != {}
        invariant keys <= old(files.Keys)
        invariant files == map p | p in old(files) && (p in keys || !Under(p, d)) :: old(files)[p]
        decreases |keys|
      {
        var k :| k in keys;
        if d != "" {
          PrefixIsUnder(k, d);
        }
        if prefix == "" || HasPrefix(k, prefix) {
          files := files - {k};
        }
        keys := keys - {k};
      }
    }

    /** Deletes a path and everything below it. */
    method Remove(path: string)
      modifies this
      ensures files == map p | p in old(files) && p != CleanPath(path) && !Under(p, CleanPath(path)) :: old(files)[p]
    {
      var p := CleanPath(path);
      files := files - {p};
      CleanPathTwice(path);
      RemovePrefix(p);
    }

    /** One entry of pass 1: a marker deletes what it hides, a regular file nothing. */
    method ApplyMarker(e: File)
      modifies this
      ensures files == map p | p in old(files) && !Hides(e, p) :: old(files)[p]
    {
      var base := Base(e.path);
      if base == WHITEOUT_OPAQUE {
        RemovePrefix(Dir(e.path));
        return;
      }
      if HasPrefix(base, WHITEOUT_PREFIX) {
        var joined := JoinPath(Dir(e.path), base[|WHITEOUT_PREFIX|..]);
        Remove(joined);
      }
    }

    /** Pass 1: the layer's markers against what lower layers left. */
    method ApplyMarkers(layer: Layer)
      modifies this
      ensures files == map p | p in old(files) && !LayerHides(layer, p) :: old(files)[p]
    {
      for k := 0 to |layer|
        invariant files == map p | p in old(files) && !LayerHides(layer[..k], p) :: old(files)[p]
      {
        OneMoreEntryHides(layer, k);
        ApplyMarker(layer[k]);
      }
      assert layer[..|layer|] == layer;
    }

    /** One entry of pass 2. */
    method AddFile(e: File)
      modifies this
      ensures forall p :: Lookup(files, p) == Added(e, p, Lookup(old(files), p))
    {
      if IsMarker(e) {
        return;
      }
      var cp := CleanPath(e.path);
      if cp == "" {
        return;
      }
      files := files[cp := e.(path := cp)];
    }

    /** Pass 2: the layer's regular files. */
    method AddFiles(layer: Layer)
      modifies this
      ensures forall p :: Lookup(files, p) == Over(old(files), layer, p)
    {
      for k := 0 to |layer|
        invariant forall p :: Lookup(files, p) == Over(old(files), layer[..k], p)
      {
        OneMoreOver(old(files), layer[..k], layer[k], layer[..k + 1]);
        AddFile(layer[k]);
      }
      assert layer[..|layer|] == layer;
    }
  }

  lemma CleanPathTwice(path: string)
    ensures CleanPath(CleanPath(path)) == CleanPath(path)
  {
    var cs := Resolve(Split("/" + Slashed(path)), [], true);
    SplitHasNoSlash("/" + Slashed(path));
    SlashedHasNoBackslash(path);
    ResolveIsProper(Split("/" + Slashed(path)), []);
    assert ("/" + Join(cs))[1..] == Join(cs);
    CleanPathOfClean(cs);
  }

  lemma {:induction false} SplitHasNoSlash(s: string)
    ensures forall i, j :: 0 <= i < |Split(s)| && 0 <= j < |Split(s)[i]| ==> Split(s)[i][j] != '/' && Split(s)[i][j] in s
    decreases s
  {
    if s != [] {
      SplitHasNoSlash(s[1..]);
    }
  }

  lemma SlashedHasNoBackslash(path: string)
    ensures '\\' !in "/" + Slashed(path)
  {}

  /** Cleaning a rooted path leaves proper components only. */
  lemma {:induction false} ResolveIsProper(cs: seq<string>, stack: seq<string>)
    requires forall i, j :: 0 <= i < |cs| && 0 <= j < |cs[i]| ==> cs[i][j] != '/' && cs[i][j] != '\\'
    requires AllProper(stack)
    ensures AllProper(Resolve(cs, stack, true))
    decreases cs
  {
    if cs != [] {
      ResolveIsProper(cs[1..], Push(stack, cs[0], true));
    }
  }

  /** Flatten: the result shows what the layers show. */
  method Flatten(layers: seq<Layer>) returns (t: FileTree)
    ensures fresh(t) && IsFlattened(layers, t.files)
  {
    t := new FileTree();
    for k := 0 to |layers|
      invariant fresh(t) && IsFlattened(layers[..k], t.files)
    {
      assert layers[..k + 1][..k] == layers[..k];
      t.ApplyMarkers(layers[k]);
      t.AddFiles(layers[k]);
    }
    assert layers[..|layers|] == layers;
  }

  // ----- What the rules mean -----

  /** A path shows f exactly when the highest layer that has the path supplies f and no layer
      above it hides the path. */
  lemma EffectiveIff(layers: seq<Layer>, p: string, f: File)
    ensures Effective(layers, p) == Some(f) <==> exists i: nat :: Survives(layers, p, i, f)
  {
    if Effective(layers, p) == Some(f) {
      var i := EffectiveSurvives(layers, p, f);
    }
    forall i: nat | Survives(layers, p, i, f)
      ensures Effective(layers, p) == Some(f)
    {
      SurvivorIsEffective(layers, p, i, f);
    }
  }

  lemma {:induction false} EffectiveSurvives(layers: seq<Layer>, p: string, f: File) returns (i: nat)
    requires Effective(layers, p) == Some(f)
    ensures Survives(layers, p, i, f)
    decreases |layers|
  {
    var n := |layers| - 1;
    if LastEntry(layers[n], p).Some? {
      i := n;
    } else {
      i := EffectiveSurvives(layers[..n], p, f);
      SurvivesAbove(layers, layers[..n], p, i, f);
    }
  }

  /** A transparent layer on top changes nothing. */
  lemma SurvivesAbove(layers: seq<Layer>, lower: seq<Layer>, p: string, i: nat, f: File)
    requires layers != [] && lower == layers[..|layers| - 1] && i < |lower|
    requires Transparent(layers[|layers| - 1], p)
    ensures Survives(layers, p, i, f) <==> Survives(lower, p, i, f)
  {
    assert lower[i] == layers[i];
    AllAbove(layers, lower, i, layer => Transparent(layer, p));
  }

  lemma AllAbove(layers: seq<Layer>, lower: seq<Layer>, i: nat, q: Layer -> bool)
    requires layers != [] && lower == layers[..|layers| - 1] && q(layers[|layers| - 1])
    ensures (forall j :: i < j < |layers| ==> q(layers[j])) <==> (forall j :: i < j < |lower| ==> q(lower[j]))
  {
    assert forall j :: 0 <= j < |lower| ==> lower[j] == layers[j];
  }

  lemma {:induction false} SurvivorIsEffective(layers: seq<Layer>, p: string, i: nat, f: File)
    requires Survives(layers, p, i, f)
    ensures Effective(layers, p) == Some(f)
    decreases |layers|
  {
    var n := |layers| - 1;
    if i < n {
      assert Transparent(layers[n], p);
      SurvivesAbove(layers, layers[..n], p, i, f);
      SurvivorIsEffective(layers[..n], p, i, f);
    }
  }

  /** A path is absent exactly when every layer that has it lies below one that replaces it or
      hides it. */
  lemma AbsentIff(layers: seq<Layer>, p: string)
    ensures Effective(layers, p) == None <==>
            forall i: nat :: i < |layers| && LastEntry(layers[i], p).Some? ==> Overlaid(layers, p, i)
  {
    if Effective(layers, p).Some? {
      EffectiveIff(layers, p, Effective(layers, p).value);
      var i: nat :| Survives(layers, p, i, Effective(layers, p).value);
      assert LastEntry(layers[i], p).Some? && !Overlaid(layers, p, i);
    } else {
      forall i: nat | i < |layers| && LastEntry(layers[i], p).Some?
        ensures Overlaid(layers, p, i)
      {
        EffectiveIff(layers, p, LastEntry(layers[i], p).value);
        assert !Survives(layers, p, i, LastEntry(layers[i], p).value);
      }
    }
  }

  ghost predicate Overlaid(layers: seq<Layer>, p: string, i: nat)
  {
    exists j :: i < j < |layers| && !Transparent(layers[j], p)
  }

  // ----- When the result is a file tree -----

  /** No file stands below another one. */
  ghost predicate IsTree(files: map<string, File>)
  {
    forall p, q :: p in files && q in files ==> !Under(p, q)
  }

  /** One of two entries that nest is replaced or hidden by a higher layer. */
  ghost predicate NestingIsOverlaid(layers: seq<Layer>, p: string, i: nat, q: string, j: nat)
    requires i < |layers| && j < |layers|
  {
    LastEntry(layers[i], p).Some? && LastEntry(layers[j], q).Some? && Under(p, q) ==>
    Overlaid(layers, p, i) || Overlaid(layers, q, j)
  }

  lemma ShownIff(layers: seq<Layer>, files: map<string, File>, p: string)
    requires IsFlattened(layers, files)
    ensures p in files <==>
            exists i: nat :: i < |layers| && LastEntry(layers[i], p).Some? && !Overlaid(layers, p, i)
  {
    assert Lookup(files, p) == Effective(layers, p);
    AbsentIff(layers, p);
  }

  /** The flattened files form a tree exactly when, of any two entries of which one lies below
      the other, in whichever layers, a higher layer replaces or hides one. */
  lemma TreeIff(layers: seq<Layer>, files: map<string, File>)
    requires IsFlattened(layers, files)
    ensures IsTree(files) <==>
            forall p, i: nat, q, j: nat {:trigger NestingIsOverlaid(layers, p, i, q, j)} ::
              i < |layers| && j < |layers| ==> NestingIsOverlaid(layers, p, i, q, j)
  {
    if IsTree(files) {
      forall p, i: nat, q, j: nat | i < |layers| && j < |layers|
        ensures NestingIsOverlaid(layers, p, i, q, j)
      {
        ShownIff(layers, files, p);
        ShownIff(layers, files, q);
      }
    } else {
      var p, q :| p in files && q in files && Under(p, q);
      ShownIff(layers, files, p);
      ShownIff(layers, files, q);
      var i: nat :| i < |layers| && LastEntry(layers[i], p).Some? && !Overlaid(layers, p, i);
      var j: nat :| j < |layers| && LastEntry(layers[j], q).Some? && !Overlaid(layers, q, j);
      assert !NestingIsOverlaid(layers, p, i, q, j);
    }
  }

  /** A file put where a lower layer has a directory leaves what stands in the directory. */
  lemma FileOverDirectory(dir: File, inner: File, p: string, q: string)
    requires !IsMarker(dir) && !IsMarker(inner) && CleanPath(dir.path) == q && CleanPath(inner.path) == p
    requires q != "" && p != "" && Under(p, q)
    ensures forall files :: IsFlattened([[inner], [dir]], files) ==> !IsTree(files)
  {
    var layers := [[inner], [dir]];
    forall files | IsFlattened(layers, files)
      ensures !IsTree(files)
    {
      OneEntry(inner, p);
      OneEntry(dir, q);
      OneEntry(dir, p);
      assert layers[0] == [inner] && layers[1] == [dir];
      assert !LayerHides([dir], p);
      assert Split(q) < Split(p);
      assert p != q;
      assert Transparent(layers[1], p);
      assert !Overlaid(layers, p, 0) && !Overlaid(layers, q, 1);
      assert !NestingIsOverlaid(layers, p, 0, q, 1);
      TreeIff(layers, files);
    }
  }

  lemma OneEntry(e: File, p: string)
    requires !IsMarker(e) && p != ""
    ensures LastEntry([e], p) == if CleanPath(e.path) == p then Some(e.(path := p)) else None
  {
    assert [e][..0] == [];
  }

  /** The regular entries of a layer, in order. */
  function Regular(layer: Layer): Layer
    decreases |layer|
  {
    if layer == [] then [] else
    Regular(layer[..|layer| - 1]) + (if IsMarker(layer[|layer| - 1]) then [] else [layer[|layer| - 1]])
  }

  lemma {:induction false} LastEntryIsRegular(layer: Layer, p: string)
    ensures LastEntry(layer, p) == LastEntry(Regular(layer), p)
    decreases |layer|
  {
    if layer != [] {
      var init, last := layer[..|layer| - 1], layer[|layer| - 1];
      LastEntryIsRegular(init, p);
      if IsMarker(last) {
        assert Regular(layer) == Regular(init);
      } else {
        LastEntryOfAppended(Regular(init), last, Regular(layer), p);
      }
    }
  }

  lemma LastEntryOfAppended(init: Layer, last: File, layer: Layer, p: string)
    requires layer == init + [last] && !IsMarker(last)
    ensures LastEntry(layer, p) ==
            if p != "" && CleanPath(last.path) == p then Some(last.(path := p)) else LastEntry(init, p)
  {
    assert layer[..|layer| - 1] == init;
  }

  /** Two layers with the same regular entries and, as a set, the same markers. */
  ghost predicate SameUpToMarkers(a: Layer, b: Layer)
  {
    Regular(a) == Regular(b) && forall e :: IsMarker(e) ==> (e in a <==> e in b)
  }

  lemma SameUpToMarkersHides(a: Layer, b: Layer, p: string)
    requires SameUpToMarkers(a, b)
    ensures LayerHides(a, p) <==> LayerHides(b, p)
  {
    forall e | Hides(e, p)
      ensures e in a <==> e in b
    {
      assert IsMarker(e);
    }
  }

  /** The order of markers within a layer, and how often they occur, are irrelevant. */
  lemma {:induction false} MarkerOrderIsIrrelevant(layers: seq<Layer>, layers': seq<Layer>, p: string)
    requires |layers| == |layers'| && forall i :: 0 <= i < |layers| ==> SameUpToMarkers(layers[i], layers'[i])
    ensures Effective(layers, p) == Effective(layers', p)
    decreases |layers|
  {
    if layers != [] {
      var n := |layers| - 1;
      SameUpToMarkersHides(layers[n], layers'[n], p);
      LastEntryIsRegular(layers[n], p);
      LastEntryIsRegular(layers'[n], p);
      MarkerOrderIsIrrelevant(layers[..n], layers'[..n], p);
    }
  }

  // ----- The markers as the image specification writes them -----

  lemma HasWhiteoutPrefix(name: string)
    ensures HasPrefix(WHITEOUT_PREFIX + name, WHITEOUT_PREFIX) && (WHITEOUT_PREFIX + name)[|WHITEOUT_PREFIX|..] == name
  {}

  /** `.wh.name` in a directory hides `name` in that directory and everything below it. */
  lemma WhiteoutHidesItsName(cs: seq<string>, name: string, e: File, p: string)
    requires AllProper(cs) && Proper(name) && name != ".wh..opq" && e.path == Join(cs + [WHITEOUT_PREFIX + name])
    ensures Hides(e, p) <==> p == Join(cs + [name]) || Under(p, Join(cs + [name]))
  {
    var base := WHITEOUT_PREFIX + name;
    HasWhiteoutPrefix(name);
    assert Proper(base) by { assert |base| > 4; }
    EntryPaths(cs, base);
    assert base != WHITEOUT_OPAQUE by { assert WHITEOUT_OPAQUE[4..] == ".wh..opq"; }
    TargetOfWhiteout(cs, name, e);
  }

  lemma TargetOfWhiteout(cs: seq<string>, name: string, e: File)
    requires AllProper(cs) && Proper(name) && Proper(WHITEOUT_PREFIX + name)
    requires e.path == Join(cs + [WHITEOUT_PREFIX + name]) && Base(e.path) == WHITEOUT_PREFIX + name
    ensures HasPrefix(Base(e.path), WHITEOUT_PREFIX) && Target(e) == Join(cs + [name])
  {
    var base := WHITEOUT_PREFIX + name;
    HasWhiteoutPrefix(name);
    DirOfEntry(cs, base);
    CleanPathOfClean(cs + [name]);
    if cs != [] {
      JoinHasNoBackslash(cs);
      JoinConcat(cs, [name]);
    } else {
      JoinDotName(name);
    }
  }

  lemma DirOfEntry(cs: seq<string>, name: string)
    requires AllProper(cs) && Proper(name)
    ensures Dir(Join(cs + [name])) == if cs == [] then "." else Join(cs)
  {
    if cs == [] {
      assert [name][1..] == [];
      DirPartOfName("", name);
      assert Clean("") == "." by { assert [""][1..] == []; }
    } else {
      JoinConcat(cs, [name]);
      DirPartOfName(Join(cs), name);
      CleanTrailingSlash(cs);
    }
  }

  lemma JoinDotName(name: string)
    requires Proper(name)
    ensures JoinPath(".", name) == name
  {
    var p := "." + ['/'] + name;
    SplitConcat(".", name);
    SplitNoSlash(".");
    SplitNoSlash(name);
    var cs := [".", name];
    assert Split(p) == cs && cs[1..] == [name] && [name][1..] == [];
    assert Push([], ".", false) == [] && Push([], name, false) == [name];
    assert Resolve(cs, [], false) == Resolve([name], [], false) == [name];
  }

  /** An opaque marker hides everything below its directory and nothing else. */
  lemma OpaqueHidesItsDirectory(cs: seq<string>, e: File, p: string)
    requires AllProper(cs) && e.path == Join(cs + [WHITEOUT_OPAQUE])
    ensures Hides(e, p) <==> Under(p, Join(cs))
  {
    EntryPaths(cs, WHITEOUT_OPAQUE);
  }
}

/** Slash paths: the lexical functions of Go's path package as far as image flattening uses
    them, and what "lies under" means for the strings the file tree is keyed by. */
module OciPaths {

  function HasPrefix(s: string, p: string): bool { p <= s }

  /** Components between slashes; "" has one empty component. */
  function Split(s: string): (cs: seq<string>)
    ensures cs != []
  {
    if s == [] then [""]
    else
      SplitStep(s[0], Split(s[1..]))
  }

  function Join(cs: seq<string>): string
  {
    if cs == [] then ""
    else if |cs| == 1 then cs[0]
    else cs[0] + ['/'] + Join(cs[1..])
  }

  predicate NoSlash(s: string)
  {
    forall i :: 0 <= i < |s| ==> s[i] != '/'
  }

  lemma {:induction false} SplitNoSlash(s: string)
    requires NoSlash(s)
    ensures Split(s) == [s]
    decreases s
  {
    if s != [] {
      SplitNoSlash(s[1..]);
      assert s == [s[0]] + s[1..];
    }
  }

  lemma SplitConcat(a: string, b: string)
    ensures Split(a + ['/'] + b) == Split(a) + Split(b)
  {
    SplitOfConcat(a, b, a + ['/'] + b);
  }

  lemma {:induction false} SplitOfConcat(a: string, b: string, s: string)
    requires s == a + ['/'] + b
    ensures Split(s) == Split(a) + Split(b)
    decreases a
  {
    if a == [] {
      assert s[1..] == b;
    } else {
      assert s[1..] == a[1..] + ['/'] + b;
      SplitOfConcat(a[1..], b, s[1..]);
      SplitStepConcat(a[0], Split(a[1..]), Split(b), Split(s[1..]));
      assert s[0] == a[0];
    }
  }

  /** What Split does with one more character in front of a text with components cs. */
  function SplitStep(c: char, cs: seq<string>): seq<string>
    requires cs != []
  {
    if c == '/' then [""] + cs else [[c] + cs[0]] + cs[1..]
  }

  lemma SplitStepConcat(c: char, cs: seq<string>, ds: seq<string>, both: seq<string>)
    requires cs != [] && both == cs + ds
    ensures SplitStep(c, both) == SplitStep(c, cs) + ds
  {}

  lemma {:induction false} JoinSplit(s: string)
    ensures Join(Split(s)) == s
    decreases s
  {
    if s != [] {
      JoinSplit(s[1..]);
      var rest := Split(s[1..]);
      if s[0] == '/' {
        assert ([""] + rest)[1..] == rest;
        assert Join([""] + rest) == "" + ['/'] + s[1..];
      } else {
        JoinHead([s[0]], rest);
      }
      assert s == [s[0]] + s[1..];
    }
  }

  lemma JoinHead(h: string, cs: seq<string>)
    requires cs != []
    ensures Join([h + cs[0]] + cs[1..]) == h + Join(cs)
  {
    var xs := [h + cs[0]] + cs[1..];
    assert xs[1..] == cs[1..];
    if |cs| > 1 {
      assert h + cs[0] + ['/'] + Join(cs[1..]) == h + (cs[0] + ['/'] + Join(cs[1..]));
    }
  }

  lemma {:induction false} SplitJoin(cs: seq<string>)
    requires cs != [] && forall i :: 0 <= i < |cs| ==> NoSlash(cs[i])
    ensures Split(Join(cs)) == cs
    decreases cs
  {
    SplitNoSlash(cs[0]);
    if |cs| > 1 {
      SplitJoin(cs[1..]);
      SplitConcat(cs[0], Join(cs[1..]));
    }
  }

  lemma {:induction false} JoinConcat(a: seq<string>, b: seq<string>)
    requires a != [] && b != []
    ensures Join(a + b) == Join(a) + ['/'] + Join(b)
    decreases a
  {
    if |a| == 1 {
      assert (a + b)[1..] == b;
    } else {
      JoinConcat(a[1..], b);
      assert (a + b)[1..] == a[1..] + b;
      assert a[0] + ['/'] + (Join(a[1..]) + ['/'] + Join(b)) == (a[0] + ['/'] + Join(a[1..])) + ['/'] + Join(b);
    }
  }

  /** p lies strictly below dir: dir's components are a proper prefix of p's.  Everything
      lies below the root "". */
  predicate Under(p: string, dir: string)
  {
    dir == "" || Split(dir) < Split(p)
  }

  /** The string test removePrefix makes is that relation: no sibling whose name merely starts
      with the directory's name is caught, and nothing below it is missed. */
  lemma PrefixIsUnder(p: string, dir: string)
    requires dir != ""
    ensures HasPrefix(p, dir + ['/']) <==> Under(p, dir)
  {
    if HasPrefix(p, dir + ['/']) {
      var rest := p[|dir| + 1..];
      assert p == dir + ['/'] + rest;
      SplitConcat(dir, rest);
    }
    if Split(dir) < Split(p) {
      var rest := Split(p)[|Split(dir)|..];
      assert Split(p) == Split(dir) + rest;
      JoinConcat(Split(dir), rest);
      JoinSplit(p);
      JoinSplit(dir);
      assert p == dir + ['/'] + Join(rest);
    }
  }

  // ----- path.Clean, path.Base, path.Dir, path.Join -----

  /** One component against what has been kept so far. */
  function Push(stack: seq<string>, c: string, rooted: bool): seq<string>
  {
    if c == "" || c == "." then stack
    else if c == ".." then
      if stack != [] && stack[|stack| - 1] != ".." then stack[..|stack| - 1]
      else if rooted then stack
      else stack + [".."]
    else stack + [c]
  }

  function Resolve(cs: seq<string>, stack: seq<string>, rooted: bool): seq<string>
    decreases cs
  {
    if cs == [] then stack else Resolve(cs[1..], Push(stack, cs[0], rooted), rooted)
  }

  function Clean(p: string): string
  {
    var rooted := p != "" && p[0] == '/';
    var out := Join(Resolve(Split(p), [], rooted));
    if rooted then "/" + out else if out == "" then "." else out
  }

  function TrimSlashesRight(p: string): string
  {
    if p != "" && p[|p| - 1] == '/' then TrimSlashesRight(p[..|p| - 1]) else p
  }

  function Base(p: string): string
  {
    if p == "" then "." else
    var q := TrimSlashesRight(p);
    if q == "" then "/" else var cs := Split(q); cs[|cs| - 1]
  }

  /** Everything up to and including the last slash. */
  function DirPart(p: string): string
  {
    if p == "" || p[|p| - 1] == '/' then p else DirPart(p[..|p| - 1])
  }

  function Dir(p: string): string
  {
    Clean(DirPart(p))
  }

  function JoinPath(a: string, b: string): string
  {
    if a == "" && b == "" then ""
    else if a == "" then Clean(b)
    else if b == "" then Clean(a)
    else Clean(a + ['/'] + b)
  }

  /** strings.ReplaceAll(p, "\\", "/") */
  function Slashed(p: string): (r: string)
    ensures |r| == |p|
  {
    seq(|p|, i requires 0 <= i < |p| => if p[i] == '\\' then '/' else p[i])
  }

  function CleanPath(p: string): string
  {
    var r := Clean("/" + Slashed(p));
    if HasPrefix(r, "/") then r[1..] else r
  }

  // ----- On paths that are already clean -----

  /** A component that no path function rewrites. */
  predicate Proper(c: string)
  {
    && c != "" && c != "." && c != ".."
    && forall i :: 0 <= i < |c| ==> c[i] != '/' && c[i] != '\\'
  }

  predicate AllProper(cs: seq<string>)
  {
    forall i :: 0 <= i < |cs| ==> Proper(cs[i])
  }

  lemma {:induction false} ResolveProper(cs: seq<string>, stack: seq<string>, rooted: bool)
    requires AllProper(cs)
    ensures Resolve(cs, stack, rooted) == stack + cs
    decreases cs
  {
    if cs == [] {
      assert stack + cs == stack;
    } else {
      ResolveProper(cs[1..], stack + [cs[0]], rooted);
      assert stack + [cs[0]] + cs[1..] == stack + cs;
    }
  }

  lemma {:induction false} JoinHasNoBackslash(cs: seq<string>)
    requires AllProper(cs)
    ensures forall i :: 0 <= i < |Join(cs)| ==> Join(cs)[i] != '\\'
    ensures cs != [] ==> Join(cs) != "" && Join(cs)[0] != '/' && Join(cs)[|Join(cs)| - 1] != '/'
    decreases cs
  {
    if |cs| > 1 {
      JoinHasNoBackslash(cs[1..]);
    }
  }

  lemma SplitOfJoin(cs: seq<string>)
    requires AllProper(cs) && cs != []
    ensures Split(Join(cs)) == cs
  {
    SplitJoin(cs);
  }

  /** A clean path is left as it is, with or without a leading slash. */
  lemma CleanPathOfClean(cs: seq<string>)
    requires AllProper(cs)
    ensures CleanPath(Join(cs)) == Join(cs)
    ensures cs != [] ==> Clean(Join(cs)) == Join(cs)
  {
    var p := Join(cs);
    JoinHasNoBackslash(cs);
    assert Slashed(p) == p;
    var q := "/" + p;
    assert q == "" + ['/'] + p;
    SplitConcat("", p);
    assert Split("") == [""];
    if cs == [] {
      assert Split(q) == ["", ""];
      assert Resolve(["", ""], [], true) == Resolve([""], [], true) == [] by {
        assert ["", ""][1..] == [""];
        assert [""][1..] == [];
      }
    } else {
      SplitOfJoin(cs);
      assert Split(q) == [""] + cs && ([""] + cs)[1..] == cs;
      ResolveProper(cs, [], true);
      ResolveProper(cs, [], false);
      assert [] + cs == cs;
    }
    assert Clean(q) == "/" + p;
    assert ("/" + p)[1..] == p;
  }

  lemma {:induction false} DirPartOfName(dir: string, name: string)
    requires NoSlash(name)
    ensures DirPart(name) == ""
    ensures DirPart(dir + ['/'] + name) == dir + ['/']
    decreases name
  {
    var p := dir + ['/'] + name;
    if name == "" {
      assert p == dir + ['/'];
    } else {
      DirPartOfName(dir, name[..|name| - 1]);
      assert p[..|p| - 1] == dir + ['/'] + name[..|name| - 1];
    }
  }

  /** For an entry `name` in the directory with components cs, the path functions say so. */
  lemma EntryPaths(cs: seq<string>, name: string)
    requires AllProper(cs) && Proper(name)
    ensures var p := Join(cs + [name]);
            Base(p) == name && CleanPath(Dir(p)) == Join(cs)
  {
    var p := Join(cs + [name]);
    JoinHasNoBackslash(cs + [name]);
    assert TrimSlashesRight(p) == p;
    SplitOfJoin(cs + [name]);
    assert Base(p) == name;
    if cs == [] {
      assert [name][1..] == [];
      assert p == name;
      DirPartOfName("", name);
      assert Clean("") == "." by { assert [""][1..] == []; }
      CleanDot();
    } else {
      JoinConcat(cs, [name]);
      DirPartOfName(Join(cs), name);
      CleanTrailingSlash(cs);
      CleanPathOfClean(cs);
    }
  }

  lemma CleanDot()
    ensures CleanPath(".") == ""
  {
    assert Slashed(".") == ".";
    assert "/" + "." == "" + ['/'] + ".";
    SplitConcat("", ".");
    SplitNoSlash(".");
    var cs := ["", "."];
    assert Split("/" + ".") == cs;
    assert cs[1..] == ["."] && ["."][1..] == [];
    assert Resolve(cs, [], true) == Resolve(["."], [], true) == [];
  }

  lemma CleanTrailingSlash(cs: seq<string>)
    requires AllProper(cs) && cs != []
    ensures Clean(Join(cs) + ['/']) == Join(cs)
  {
    var p := Join(cs) + ['/'];
    JoinHasNoBackslash(cs);
    assert p == Join(cs) + ['/'] + "";
    SplitConcat(Join(cs), "");
    SplitOfJoin(cs);
    assert Split(p) == cs + [""];
    ResolveAppend(cs, [""], [], false);
    ResolveProper(cs, [], false);
    assert [] + cs == cs;
    assert [""][1..] == [];
  }

  lemma {:induction false} ResolveAppend(a: seq<string>, b: seq<string>, stack: seq<string>, rooted: bool)
    ensures Resolve(a + b, stack, rooted) == Resolve(b, Resolve(a, stack, rooted), rooted)
    decreases a
  {
    if a == [] {
      assert a + b == b;
    } else {
      assert (a + b)[1..] == a[1..] + b;
      ResolveAppend(a[1..], b, Push(stack, a[0], rooted), rooted);
    }
  }
}

/** The line-level text functions of the YAML subset reader, and what they do to the pieces
    the block printer writes. */
module YamlText {
  import opened Options
  import opened Text

  // ----- strings.* of the Go standard library, as far as the reader uses it -----

  function TrimLeftSpaces(s: string): (r: string)
    ensures |r| <= |s|
  {
    if s != [] && s[0] == ' ' then TrimLeftSpaces(s[1..]) else s
  }

  /** The leading-space count of a line. */
  function IndentOf(s: string): (n: nat)
    ensures n <= |s|
  {
    if s != [] && s[0] == ' ' then 1 + IndentOf(s[1..]) else 0
  }

  function TrimFront(s: string): (r: string)
    ensures |r| <= |s|
  {
    if s != [] && IsSpace(s[0]) then TrimFront(s[1..]) else s
  }

  function TrimBack(s: string): (r: string)
    ensures |r| <= |s|
  {
    if s != [] && IsSpace(s[|s| - 1]) then TrimBack(s[..|s| - 1]) else s
  }

  function TrimSpace(s: string): (r: string)
    ensures |r| <= |s|
  {
    TrimBack(TrimFront(s))
  }

  /** strings.TrimRight(s, " \t"). */
  function TrimBlanksRight(s: string): (r: string)
    ensures |r| <= |s|
  {
    if s != [] && (s[|s| - 1] == ' ' || s[|s| - 1] == '\t') then TrimBlanksRight(s[..|s| - 1]) else s
  }

  function LeadingDashes(s: string): (n: nat)
    ensures n <= |s|
  {
    if s != [] && s[0] == '-' then 1 + LeadingDashes(s[1..]) else 0
  }

  function Spaces(n: nat): (s: string)
    ensures |s| == n
  {
    seq(n, _ => ' ')
  }

  predicate HasPrefix(s: string, p: string) { p <= s }

  predicate Enclosed(s: string, open: char, close: char)
  {
    s != [] && s[0] == open && s[|s| - 1] == close
  }

  // ----- Keys -----

  function Unquote(s: string): string
  {
    if |s| >= 2 && (Enclosed(s, '"', '"') || Enclosed(s, '\'', '\'')) then s[1..|s| - 1] else s
  }

  /** The position of the colon that ends the key, scanning from i with the quotes seen. */
  function ColonAt(s: string, i: nat, inSingle: bool, inDouble: bool): (r: Option<nat>)
    requires i <= |s|
    ensures r.Some? ==> i <= r.value < |s| && s[r.value] == ':'
    decreases |s| - i
  {
    if i == |s| then None
    else if s[i] == '\'' then ColonAt(s, i + 1, if inDouble then inSingle else !inSingle, inDouble)
    else if s[i] == '"' then ColonAt(s, i + 1, inSingle, if inSingle then inDouble else !inDouble)
    else if s[i] == ':' && !inSingle && !inDouble && (i == |s| - 1 || s[i + 1] == ' ' || s[i + 1] == '\t') then Some(i)
    else ColonAt(s, i + 1, inSingle, inDouble)
  }

  /** splitKey: the key and what follows its colon. */
  function SplitKeyF(s: string): Option<(string, string)>
  {
    match ColonAt(s, 0, false, false)
    case None => None
    case Some(i) => Some((Unquote(TrimSpace(s[..i])), s[i + 1..]))
  }

  method SplitKey(s: string) returns (r: Option<(string, string)>)
    ensures r == SplitKeyF(s)
  {
    var inSingle, inDouble := false, false;
    var i := 0;
    while i < |s|
      invariant 0 <= i <= |s|
      invariant ColonAt(s, 0, false, false) == ColonAt(s, i, inSingle, inDouble)
    {
      if s[i] == '\'' {
        if !inDouble {
          inSingle := !inSingle;
        }
      } else if s[i] == '"' {
        if !inSingle {
          inDouble := !inDouble;
        }
      } else if s[i] == ':' && !inSingle && !inDouble {
        if i == |s| - 1 {
          assert s[i + 1..] == "";
          return Some((Unquote(TrimSpace(s[..i])), ""));
        }
        if s[i + 1] == ' ' || s[i + 1] == '\t' {
          return Some((Unquote(TrimSpace(s[..i])), s[i + 1..]));
        }
      }
      i := i + 1;
    }
    r := None;
  }

  // ----- Comments -----

  /** The position of the '#' that opens an inline comment. */
  function HashAt(l: string, i: nat, inSingle: bool, inDouble: bool): (r: Option<nat>)
    requires i <= |l|
    ensures r.Some? ==> i <= r.value < |l|
    decreases |l| - i
  {
    if i == |l| then None
    else if l[i] == '\'' then HashAt(l, i + 1, if inDouble then inSingle else !inSingle, inDouble)
    else if l[i] == '"' then HashAt(l, i + 1, inSingle, if inSingle then inDouble else !inDouble)
    else if l[i] == '#' && !inSingle && !inDouble && i > 0 && (l[i - 1] == ' ' || l[i - 1] == '\t') then Some(i)
    else HashAt(l, i + 1, inSingle, inDouble)
  }

  function StripInlineF(l: string): string
  {
    match HashAt(l, 0, false, false)
    case None => l
    case Some(i) => TrimBlanksRight(l[..i])
  }

  method StripInlineComment(l: string) returns (r: string)
    ensures r == StripInlineF(l)
  {
    var inSingle, inDouble := false, false;
    for i := 0 to |l|
      invariant HashAt(l, 0, false, false) == HashAt(l, i, inSingle, inDouble)
    {
      if l[i] == '\'' {
        if !inDouble {
          inSingle := !inSingle;
        }
      } else if l[i] == '"' {
        if !inSingle {
          inDouble := !inDouble;
        }
      } else if l[i] == '#' {
        if !inSingle && !inDouble && i > 0 && (l[i - 1] == ' ' || l[i - 1] == '\t') {
          return TrimBlanksRight(l[..i]);
        }
      }
    }
    r := l;
  }

  /** A blank line, or one that is a comment as a whole. */
  predicate IsNoise(l: string)
  {
    TrimSpace(l) == "" || HasPrefix(TrimSpace(l), "#")
  }

  function StripCommentsF(lines: seq<string>): (r: seq<string>)
  {
    if lines == [] then []
    else if IsNoise(lines[0]) then StripCommentsF(lines[1..])
    else [StripInlineF(lines[0])] + StripCommentsF(lines[1..])
  }

  method StripComments(lines: seq<string>) returns (out: seq<string>)
    ensures out == StripCommentsF(lines)
  {
    out := [];
    for k := 0 to |lines|
      invariant StripCommentsF(lines) == out + StripCommentsF(lines[k..])
    {
      assert lines[k..][1..] == lines[k + 1..];
      if !IsNoise(lines[k]) {
        var s := StripInlineComment(lines[k]);
        out := out + [s];
      }
    }
  }

  // ----- Indentation and trimming of assembled lines -----

  lemma {:induction false} IndentOfSpaces(n: nat, s: string)
    requires s == [] || s[0] != ' '
    ensures IndentOf(Spaces(n) + s) == n && TrimLeftSpaces(Spaces(n) + s) == s
    decreases n
  {
    var l := Spaces(n) + s;
    if n == 0 {
      assert l == s;
    } else {
      IndentOfSpaces(n - 1, s);
      assert l[1..] == Spaces(n - 1) + s;
    }
  }

  lemma {:induction false} TrimLeftStops(s: string)
    ensures TrimLeftSpaces(s) == [] || TrimLeftSpaces(s)[0] != ' '
    decreases s
  {
    if s != [] && s[0] == ' ' {
      TrimLeftStops(s[1..]);
    }
  }

  /** A text with no white space at either end. */
  predicate Tight(s: string)
  {
    s != [] && !IsSpace(s[0]) && !IsSpace(s[|s| - 1])
  }

  lemma {:induction false} TrimTight(n: nat, s: string)
    requires Tight(s)
    ensures TrimSpace(Spaces(n) + s) == s
    decreases n
  {
    var l := Spaces(n) + s;
    if n == 0 {
      assert l == s;
    } else {
      assert l[1..] == Spaces(n - 1) + s;
      TrimTight(n - 1, s);
    }
  }

  // ----- Quotes, colons and hashes in assembled lines -----

  /** Between i and j there is no quote and no colon before a blank or the end. */
  predicate NoColon(s: string, i: nat, j: nat)
    requires i <= j <= |s|
  {
    forall k :: i <= k < j ==>
      s[k] != '"' && s[k] != '\'' && (s[k] == ':' ==> k + 1 < |s| && s[k + 1] != ' ' && s[k + 1] != '\t')
  }

  /** Between i and j there is no quote and no '#' after a blank. */
  predicate NoHash(s: string, i: nat, j: nat)
    requires i <= j <= |s|
  {
    forall k :: i <= k < j ==>
      s[k] != '"' && s[k] != '\'' && (s[k] == '#' ==> k == 0 || (s[k - 1] != ' ' && s[k - 1] != '\t'))
  }

  lemma {:induction false} ColonSkips(s: string, i: nat, j: nat)
    requires i <= j <= |s| && NoColon(s, i, j)
    ensures ColonAt(s, i, false, false) == ColonAt(s, j, false, false)
    decreases j - i
  {
    if i < j {
      assert NoColon(s, i + 1, j);
      assert s[i] == ':' ==> i + 1 < |s| && s[i + 1] != ' ' && s[i + 1] != '\t';
      ColonSkips(s, i + 1, j);
    }
  }

  lemma {:induction false} HashSkips(s: string, i: nat, j: nat)
    requires i <= j <= |s| && NoHash(s, i, j)
    ensures HashAt(s, i, false, false) == HashAt(s, j, false, false)
    decreases j - i
  {
    if i < j {
      HashSkips(s, i + 1, j);
    }
  }

  /** Inside quotes nothing counts until the closing quote. */
  lemma {:induction false} ScansSkipQuoted(s: string, i: nat, j: nat)
    requires i <= j < |s| && s[j] == '"' && forall k :: i <= k < j ==> s[k] != '"'
    ensures ColonAt(s, i, false, true) == ColonAt(s, j + 1, false, false)
    ensures HashAt(s, i, false, true) == HashAt(s, j + 1, false, false)
    decreases j - i
  {
    if i < j {
      ScansSkipQuoted(s, i + 1, j);
    }
  }

  lemma {:induction false} ScansSkipSingle(s: string, i: nat, j: nat)
    requires i <= j < |s| && s[j] == '\'' && forall k :: i <= k < j ==> s[k] != '\''
    ensures ColonAt(s, i, true, false) == ColonAt(s, j + 1, false, false)
    ensures HashAt(s, i, true, false) == HashAt(s, j + 1, false, false)
    decreases j - i
  {
    if i < j {
      ScansSkipSingle(s, i + 1, j);
    }
  }
}

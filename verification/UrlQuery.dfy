/** How a value pasted unescaped into a URL query reads at the other end: Go's url.Parse on
    the client's side, URL.Query on the server's. */
module UrlQuery {
  import opened Options

  /** The text before the first c and the text behind it. */
  function Cut(s: string, c: char): (r: (string, string))
    ensures |r.0| + |r.1| <= |s| && (s != "" ==> |r.1| < |s|)
  {
    if s == "" then ("", "")
    else if s[0] == c then ("", s[1..])
    else var (a, b) := Cut(s[1..], c); ([s[0]] + a, b)
  }

  function HexDigit(c: char): Option<nat>
  {
    if '0' <= c <= '9' then Some(c as nat - '0' as nat)
    else if 'a' <= c <= 'f' then Some(c as nat - 'a' as nat + 10)
    else if 'A' <= c <= 'F' then Some(c as nat - 'A' as nat + 10)
    else None
  }

  /** url.QueryUnescape, on text as bytes. */
  function Unescape(s: string): (r: Option<string>)
    ensures r.Some? ==> |r.value| <= |s|
  {
    if s == "" then Some("")
    else if s[0] == '%' then
      if |s| < 3 || HexDigit(s[1]).None? || HexDigit(s[2]).None? then None else
      var c := (16 * HexDigit(s[1]).value + HexDigit(s[2]).value) as char;
      var rest := Unescape(s[3..]);
      if rest.None? then None else Some([c] + rest.value)
    else
      var rest := Unescape(s[1..]);
      if rest.None? then None else Some([if s[0] == '+' then ' ' else s[0]] + rest.value)
  }

  /** Query().Get(key): the first readable pair with that key; "" without one. */
  function Get(query: string, key: string): string
    decreases |query|
  {
    if query == "" then "" else
    var (pair, rest) := Cut(query, '&');
    var (k, v) := Cut(pair, '=');
    if ';' !in pair && pair != "" && Unescape(k) == Some(key) && Unescape(v).Some? then Unescape(v).value
    else Get(rest, key)
  }

  const KEY := "artifactType"

  /** What the server reads when the client appends ?artifactType=t; None where the request
      does not get through. */
  function Received(t: string): Option<string>
  {
    if t == "" then Some("")
    else if exists i :: 0 <= i < |t| && (t[i] <= ' ' || t[i] == '\U{7f}') then None
    else
      var (value, fragment) := Cut(t, '#');
      if Unescape(fragment).None? then None else Some(Get(KEY + "=" + value, KEY))
  }

  /** Nothing in t means anything in a query. */
  predicate Plain(t: string)
  {
    forall i :: 0 <= i < |t| ==> PlainChar(t[i])
  }

  predicate PlainChar(c: char)
  {
    c > ' ' && c != '\U{7f}' && c != '+' && c != '%' && c != '&' && c != ';' && c != '#'
  }

  lemma {:induction false} CutWithout(s: string, c: char)
    ensures c !in s <==> Cut(s, c).0 == s
    ensures c !in s ==> Cut(s, c).1 == ""
    ensures c in s ==> |Cut(s, c).0| < |s|
    decreases |s|
  {
    if s != "" {
      CutWithout(s[1..], c);
      assert s == [s[0]] + s[1..];
      assert c in s <==> c == s[0] || c in s[1..];
    }
  }

  lemma {:induction false} CutAt(a: string, c: char, b: string, s: string)
    requires c !in a && s == a + [c] + b
    ensures Cut(s, c) == (a, b)
    decreases |a|
  {
    if a == "" {
      assert s[1..] == b;
    } else {
      assert s[1..] == a[1..] + [c] + b;
      CutAt(a[1..], c, b, s[1..]);
      assert a == [a[0]] + a[1..];
    }
  }

  /** Unescaping keeps a text exactly when there is nothing to unescape. */
  lemma {:induction false} UnescapeKeeps(s: string)
    ensures Unescape(s) == Some(s) <==> '%' !in s && '+' !in s
    ensures Unescape(s).Some? && |Unescape(s).value| == |s| ==> '%' !in s
    decreases |s|
  {
    if s != "" {
      var tail := s[1..];
      assert s == [s[0]] + tail;
      assert forall c: char :: c in s <==> c == s[0] || c in tail;
      if s[0] != '%' {
        UnescapeKeeps(tail);
      }
    }
  }

  lemma KeyIsPlain()
    ensures '%' !in KEY && '+' !in KEY && '=' !in KEY && '&' !in KEY && ';' !in KEY
    ensures Unescape(KEY) == Some(KEY)
  {
    KeyIsLetters(KEY);
    UnescapeKeeps(KEY);
  }

  lemma KeyIsLetters(key: string)
    requires key == KEY
    ensures forall c: char :: c in key ==> 'A' <= c <= 'z'
  {
    assert forall i :: 0 <= i < |key| ==> 'A' <= key[i] <= 'z';
  }

  /** The query of the client with a value that neither ends the pair nor spoils it. */
  lemma GetOfOnePair(value: string)
    requires '&' !in value && ';' !in value
    ensures Get(KEY + "=" + value, KEY) == if Unescape(value).Some? then Unescape(value).value else ""
  {
    var q := KEY + "=" + value;
    KeyIsPlain();
    assert forall c: char :: c in q <==> c in KEY || c == '=' || c in value;
    CutWithout(q, '&');
    assert q == KEY + ['='] + value;
    CutAt(KEY, '=', value, q);
    assert Get("", KEY) == "";
  }

  /** What is read is at least a key and a sign shorter than the query; and it is only as
      long as that allows when the whole query is one pair with nothing escaped in it. */
  lemma {:induction false} GetIsShorter(q: string, key: string)
    ensures Get(q, key) == "" || |Get(q, key)| + |key| + 1 <= |q|
    ensures Get(q, key) != "" && |Get(q, key)| + |key| + 1 == |q| ==> '&' !in q && ';' !in q
    decreases |q|
  {
    if q != "" {
      var (pair, rest) := Cut(q, '&');
      var (k, v) := Cut(pair, '=');
      GetIsShorter(rest, key);
      CutWithout(q, '&');
      CutWithout(pair, '=');
      CutShares(pair, '=');
      CutShares(q, '&');
    }
  }

  lemma {:induction false} CutShares(s: string, c: char)
    ensures c in s ==> |Cut(s, c).0| + |Cut(s, c).1| + 1 == |s|
    decreases |s|
  {
    if s != "" {
      CutShares(s[1..], c);
      assert s == [s[0]] + s[1..];
    }
  }

  /** A value reads as it was meant exactly when it is plain. */
  lemma PlainIsReceived(t: string)
    requires t != ""
    ensures Received(t) == Some(t) <==> Plain(t)
  {
    if Plain(t) {
      PlainIsKept(t);
    }
    if Received(t) == Some(t) {
      KeptIsPlain(t);
    }
  }

  lemma PlainIsKept(t: string)
    requires t != "" && Plain(t)
    ensures Received(t) == Some(t)
  {
    assert forall c: char :: c in t ==> PlainChar(c);
    CutWithout(t, '#');
    GetOfOnePair(t);
    UnescapeKeeps(t);
  }

  lemma KeptIsPlain(t: string)
    requires t != "" && Received(t) == Some(t)
    ensures Plain(t)
  {
    var value := Cut(t, '#').0;
    var q := KEY + "=" + value;
    CutWithout(t, '#');
    GetIsShorter(q, KEY);
    assert value == t;
    assert forall c: char :: c in t ==> c in q;
    GetOfOnePair(t);
    UnescapeKeeps(t);
    assert forall i :: 0 <= i < |t| ==> t[i] in t;
  }

  /** The text with a space for every plus sign. */
  function Spaced(s: string): (r: string)
    ensures |r| == |s| && forall i :: 0 <= i < |s| ==> r[i] == if s[i] == '+' then ' ' else s[i]
  {
    seq(|s|, i requires 0 <= i < |s| => if s[i] == '+' then ' ' else s[i])
  }

  /** A value with a plus sign, and otherwise plain, reads with a space for every plus sign. */
  lemma PlusIsReadAsSpace(t: string)
    requires '+' in t && forall i :: 0 <= i < |t| ==> PlainChar(t[i]) || t[i] == '+'
    ensures Received(t) == Some(Spaced(t)) && Spaced(t) != t
  {
    assert forall c: char :: c in t ==> PlainChar(c) || c == '+';
    CutWithout(t, '#');
    GetOfOnePair(t);
    UnescapeWithoutPercent(t);
    var i :| 0 <= i < |t| && t[i] == '+';
    assert Spaced(t)[i] == ' ';
  }

  lemma {:induction false} UnescapeWithoutPercent(s: string)
    requires '%' !in s
    ensures Unescape(s) == Some(Spaced(s))
    decreases |s|
  {
    if s != "" {
      assert s[0] in s && forall c: char :: c in s[1..] ==> c in s;
      UnescapeWithoutPercent(s[1..]);
      SpacedStep(s, s[1..]);
    } else {
      assert Spaced(s) == "";
    }
  }

  lemma SpacedStep(s: string, rest: string)
    requires s != "" && rest == s[1..]
    ensures Spaced(s) == [if s[0] == '+' then ' ' else s[0]] + Spaced(rest)
  {}

  // ----- Escaped values -----

  const HEX := "0123456789ABCDEF"

  /** The value with every byte escaped. */
  function Escaped(s: string): string
    requires forall i :: 0 <= i < |s| ==> s[i] < 256 as char
  {
    if s == "" then "" else ['%', HEX[s[0] as nat / 16], HEX[s[0] as nat % 16]] + Escaped(s[1..])
  }

  lemma HexIsRead(n: nat)
    requires n < 16
    ensures HexDigit(HEX[n]) == Some(n) && PlainChar(HEX[n])
  {
    assert HEX[n] == if n < 10 then (48 + n) as char else (55 + n) as char;
  }

  lemma {:induction false} EscapedIsRead(s: string)
    requires forall i :: 0 <= i < |s| ==> s[i] < 256 as char
    ensures Unescape(Escaped(s)) == Some(s)
    ensures forall i :: 0 <= i < |Escaped(s)| ==> QueryChar(Escaped(s)[i])
    decreases |s|
  {
    if s != "" {
      var c, t := s[0] as nat, Escaped(s);
      HexIsRead(c / 16);
      HexIsRead(c % 16);
      EscapedIsRead(s[1..]);
      assert t[3..] == Escaped(s[1..]) && t[1] == HEX[c / 16] && t[2] == HEX[c % 16];
      assert 16 * (c / 16) + c % 16 == c;
      assert s == [s[0]] + s[1..];
    }
  }

  predicate QueryChar(c: char)
  {
    c == '%' || PlainChar(c)
  }

  /** A value of such characters reaches the query as it is. */
  lemma EscapedIsGot(e: string, t: string)
    requires e != "" && Unescape(e) == Some(t) && forall c: char :: c in e ==> QueryChar(c)
    ensures Get(KEY + "=" + e, KEY) == t
  {
    GetOfOnePair(e);
  }

  lemma NothingToUnescape(s: string)
    requires |s| == 0
    ensures Unescape(s) == Some(s)
  {}

  lemma QueryIsReceived(e: string)
    requires e != "" && forall c: char :: c in e ==> QueryChar(c)
    ensures Received(e) == Some(Get(KEY + "=" + e, KEY))
  {
    CutWithout(e, '#');
    NothingToUnescape(Cut(e, '#').1);
    assert '#' !in e;
    assert forall i :: 0 <= i < |e| ==> QueryChar(e[i]);
  }

  /** A client that escaped every byte would always be read as it means. */
  lemma EscapedIsReceived(t: string)
    requires forall i :: 0 <= i < |t| ==> t[i] < 256 as char
    ensures Received(Escaped(t)) == Some(t)
  {
    EscapedIsRead(t);
    if t != "" {
      var e := Escaped(t);
      assert e[0] == '%';
      assert forall c: char :: c in e ==> QueryChar(c);
      EscapedIsGot(Escaped(t), t);
      QueryIsReceived(Escaped(t));
    }
  }
}

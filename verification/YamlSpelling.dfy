/** The ways to write a scalar or a key, told on their characters, and that the reader takes each
    of them for what it stands for. */
module YamlSpelling {
  import opened Options
  import opened Text
  import opened YamlText
  import opened Yaml

  datatype Quote = Double | Single | Bare

  /** A scalar as it is written: a word, an integer with its sign and leading zeros, the text of a
      float, or a string with or without quotes. */
  datatype Atom =
    | ANull(word: string)
    | ABool(b: bool, word: string)
    | AInt(i: int, sign: string, zeros: nat)
    | AFloat(text: string)
    | AStr(s: string, quote: Quote)

  // ----- Conditions on characters -----

  function LowerChar(c: char): char
  {
    if 'A' <= c <= 'Z' then (c as int + 32) as char else c
  }

  function Lowered(s: string): (r: string)
    ensures |r| == |s|
  {
    seq(|s|, i requires 0 <= i < |s| => LowerChar(s[i]))
  }

  predicate SaysNull(s: string)
  {
    Lowered(s) == "null" || s == "~"
  }

  predicate SaysTrue(s: string)
  {
    var t := Lowered(s);
    t == "true" || t == "yes" || t == "on"
  }

  predicate SaysFalse(s: string)
  {
    var t := Lowered(s);
    t == "false" || t == "no" || t == "off"
  }

  predicate SaysNatural(s: string)
  {
    s != "" && forall i :: 0 <= i < |s| ==> '0' <= s[i] <= '9'
  }

  /** Digits behind an optional sign. */
  predicate SaysInteger(s: string)
  {
    SaysNatural(s) || (s != "" && (s[0] == '+' || s[0] == '-') && SaysNatural(s[1..]))
  }

  predicate IsBlank(c: char)
  {
    c == ' ' || c == '\t'
  }

  /** A text on one line without quotes in which nothing looks like the end of a key or the start
      of a comment. */
  predicate Seamless(s: string)
  {
    && Tight(s) && s[0] != '#' && s[|s| - 1] != ':'
    && (forall i :: 0 <= i < |s| ==> s[i] != '"' && s[i] != '\'' && s[i] != '\n')
    && (forall i :: 0 < i < |s| ==> s[i - 1] == ':' ==> !IsBlank(s[i]))
    && (forall i :: 0 < i < |s| ==> s[i] == '#' ==> !IsBlank(s[i - 1]))
  }

  /** Neither a reserved word in any letter case nor an integer. */
  predicate Unreserved(s: string)
  {
    !SaysNull(s) && !SaysTrue(s) && !SaysFalse(s) && !SaysInteger(s)
  }

  predicate Bracketed(s: string)
  {
    s != "" && s[0] == '[' && s[|s| - 1] == ']'
  }

  predicate Without(s: string, c: char)
  {
    forall i :: 0 <= i < |s| ==> s[i] != c
  }

  predicate ValidAtom(a: Atom)
  {
    match a
    case ANull(word) => SaysNull(word)
    case ABool(b, word) => if b then SaysTrue(word) else SaysFalse(word)
    case AInt(i, sign, _) =>
      && -9223372036854775808 <= i <= 9223372036854775807
      && if sign == "-" then i <= 0 else i >= 0 && (sign == "" || sign == "+")
    case AFloat(text) => Seamless(text) && Unreserved(text)
    case AStr(s, Double) => Without(s, '"') && Without(s, '\n')
    case AStr(s, Single) => Without(s, '\'') && Without(s, '\n')
    case AStr(s, Bare) => Seamless(s) && Unreserved(s) && !Bracketed(s)
  }

  /** What the float parser must say of it. */
  predicate FitsAtom(isFloat: string -> bool, a: Atom)
  {
    match a
    case AFloat(text) => isFloat(text)
    case AStr(s, Bare) => !isFloat(s)
    case _ => true
  }

  function AtomValue(a: Atom): Value
  {
    match a
    case ANull(_) => YNull
    case ABool(b, _) => YBool(b)
    case AInt(i, _, _) => YInt(i)
    case AFloat(text) => YFloat(text)
    case AStr(s, _) => YStr(s)
  }

  // ----- Texts -----

  function Digit(d: nat): char
    requires d < 10
  {
    '0' + d as char
  }

  function Decimal(n: nat): (s: string)
    ensures s != [] && AllDigits(s)
  {
    (if n < 10 then [] else Decimal(n / 10)) + [Digit(n % 10)]
  }

  function Zeros(n: nat): (s: string)
    ensures AllDigits(s)
  {
    seq(n, _ => '0')
  }

  function Quoted(s: string, q: Quote): string
  {
    match q
    case Double => ['"'] + s + ['"']
    case Single => ['\''] + s + ['\'']
    case Bare => s
  }

  function AtomText(a: Atom): string
  {
    match a
    case ANull(word) => word
    case ABool(_, word) => word
    case AInt(i, sign, zeros) => sign + (Zeros(zeros) + Decimal(if i < 0 then -i else i))
    case AFloat(text) => text
    case AStr(s, q) => Quoted(s, q)
  }

  // ----- Words -----

  lemma WordIff(s: string, w: string)
    requires forall i :: 0 <= i < |w| ==> 'a' <= w[i] <= 'z'
    ensures IsWord(s, w) <==> Lowered(s) == w
  {
    if |s| == |w| {
      forall i | 0 <= i < |s|
        ensures SameLetter(s[i], w[i]) <==> Lowered(s)[i] == w[i]
      {}
      if forall i :: 0 <= i < |s| ==> Lowered(s)[i] == w[i] {
        assert Lowered(s) == w;
      }
    }
  }

  /** The reader's reserved words are these, in any letter case. */
  lemma WordsIff(s: string)
    ensures IsWord(s, "null") <==> Lowered(s) == "null"
    ensures IsWord(s, "true") || IsWord(s, "yes") || IsWord(s, "on") <==> SaysTrue(s)
    ensures IsWord(s, "false") || IsWord(s, "no") || IsWord(s, "off") <==> SaysFalse(s)
  {
    WordIff(s, "null");
    WordIff(s, "true");
    WordIff(s, "yes");
    WordIff(s, "on");
    WordIff(s, "false");
    WordIff(s, "no");
    WordIff(s, "off");
  }

  /** A text that starts with no letter is none of the words. */
  lemma StartsNoWord(s: string)
    requires s != [] && !('a' <= s[0] <= 'z') && !('A' <= s[0] <= 'Z')
    ensures Lowered(s) != "null" && !SaysTrue(s) && !SaysFalse(s)
  {
    assert Lowered(s)[0] == s[0];
    assert "null"[0] == 'n' && "true"[0] == 't' && "yes"[0] == 'y' && "on"[0] == 'o';
    assert "false"[0] == 'f' && "no"[0] == 'n' && "off"[0] == 'o';
  }

  predicate IsLetter(c: char)
  {
    'a' <= c <= 'z' || 'A' <= c <= 'Z'
  }

  lemma LoweredLetters(s: string, w: string)
    requires Lowered(s) == w && forall i :: 0 <= i < |w| ==> 'a' <= w[i] <= 'z'
    ensures forall i :: 0 <= i < |s| ==> IsLetter(s[i])
  {
    forall i | 0 <= i < |s|
      ensures IsLetter(s[i])
    {
      assert LowerChar(s[i]) == w[i];
    }
  }

  /** Reserved words are made of letters. */
  lemma WordLetters(s: string)
    requires Lowered(s) == "null" || SaysTrue(s) || SaysFalse(s)
    ensures s != "" && forall i :: 0 <= i < |s| ==> IsLetter(s[i])
  {
    var t := Lowered(s);
    LoweredLetters(s, t);
  }

  lemma LettersAreTight(s: string)
    requires s != "" && forall i :: 0 <= i < |s| ==> IsLetter(s[i])
    ensures Seamless(s) && TrimSpace(s) == s
  {
    TrimTight(0, s);
    assert Spaces(0) + s == s;
  }

  /** Whatever stands on its line alone is trimmed to itself. */
  lemma TightIsTrimmed(s: string)
    requires Tight(s)
    ensures TrimSpace(s) == s
  {
    TrimTight(0, s);
    assert Spaces(0) + s == s;
  }

  lemma WordIsRead(isFloat: string -> bool, s: string)
    requires Lowered(s) == "null" || SaysTrue(s) || SaysFalse(s)
    ensures Scalar(isFloat, s) == if SaysTrue(s) then YBool(true) else if SaysFalse(s) then YBool(false) else YNull
  {
    WordLetters(s);
    LettersAreTight(s);
    WordsIff(s);
    OneWord(s);
  }

  /** The three kinds of words have nothing in common. */
  lemma OneWord(s: string)
    ensures !(Lowered(s) == "null" && SaysTrue(s)) && !(Lowered(s) == "null" && SaysFalse(s))
    ensures !(SaysTrue(s) && SaysFalse(s))
  {
    assert "null"[0] == 'n' && "true"[0] == 't' && "yes"[0] == 'y' && "on"[1] == 'n';
    assert "false"[0] == 'f' && "no"[0] == 'n' && "off"[1] == 'f' && "no"[1] == 'o' && "on"[0] == 'o';
  }

  lemma TildeIsRead(isFloat: string -> bool)
    ensures Scalar(isFloat, "~") == YNull
  {
    TightIsTrimmed("~");
  }

  // ----- Integers -----

  lemma DigitsOfAppended(s: string, d: nat)
    requires AllDigits(s) && d < 10
    ensures AllDigits(s + [Digit(d)]) && DigitsValue(s + [Digit(d)]) == 10 * DigitsValue(s) + d
  {
    assert (s + [Digit(d)])[..|s|] == s;
  }

  lemma {:induction false} DecimalRoundTrip(n: nat)
    ensures DigitsValue(Decimal(n)) == n
    decreases n
  {
    if n < 10 {
      DigitsOfAppended([], n);
    } else {
      DecimalRoundTrip(n / 10);
      DigitsOfAppended(Decimal(n / 10), n % 10);
    }
  }

  lemma {:induction false} LeadingZero(s: string, t: string)
    requires AllDigits(s) && t == ['0'] + s
    ensures AllDigits(t) && DigitsValue(t) == DigitsValue(s)
    decreases |s|
  {
    if s == "" {
      assert t[..0] == "";
    } else {
      assert t[..|t| - 1] == ['0'] + s[..|s| - 1];
      LeadingZero(s[..|s| - 1], t[..|t| - 1]);
    }
  }

  lemma {:induction false} LeadingZeros(n: nat, s: string, t: string)
    requires AllDigits(s) && t == Zeros(n) + s
    ensures AllDigits(t) && DigitsValue(t) == DigitsValue(s)
    decreases n
  {
    if n == 0 {
      assert t == s;
    } else {
      assert t == ['0'] + (Zeros(n - 1) + s);
      LeadingZeros(n - 1, s, Zeros(n - 1) + s);
      LeadingZero(Zeros(n - 1) + s, t);
    }
  }

  lemma SignedIsParsed(digits: string, sign: string, i: int, s: string)
    requires digits != "" && AllDigits(digits) && DigitsValue(digits) == (if i < 0 then -i else i)
    requires s == sign + digits && ValidAtom(AInt(i, sign, 0))
    ensures ParseInt(s) == Some(i) && IntegerChars(s)
  {
    if sign == "" {
      assert s == digits && IsDigit(s[0]);
    } else {
      assert s[0] == sign[0] && s[1..] == digits;
    }
    assert forall k :: 0 <= k < |digits| ==> s[|sign| + k] == digits[k];
  }

  /** A sign and digits, so neither a key nor a comment, nor a blank. */
  predicate IntegerChars(s: string)
  {
    s != "" && forall k :: 0 <= k < |s| ==> IsDigit(s[k]) || s[k] == '-' || s[k] == '+'
  }

  lemma IntegerIsParsed(a: Atom, s: string)
    requires a.AInt? && ValidAtom(a) && s == AtomText(a)
    ensures ParseInt(s) == Some(a.i) && IntegerChars(s)
  {
    var n := if a.i < 0 then -a.i else a.i;
    var digits := Zeros(a.zeros) + Decimal(n);
    DecimalRoundTrip(n);
    LeadingZeros(a.zeros, Decimal(n), digits);
    SignedIsParsed(digits, a.sign, a.i, s);
  }

  lemma IntegerIsRead(isFloat: string -> bool, s: string, i: int)
    requires ParseInt(s) == Some(i) && IntegerChars(s)
    ensures Scalar(isFloat, s) == YInt(i) && Seamless(s)
  {
    TightIsTrimmed(s);
    StartsNoWord(s);
    WordsIff(s);
  }

  // ----- Texts without quotes -----

  lemma UnreservedIsNoInteger(s: string)
    requires !SaysInteger(s)
    ensures ParseInt(s) == None
  {}

  lemma PlainIsRead(isFloat: string -> bool, s: string)
    requires Seamless(s) && Unreserved(s)
    ensures isFloat(s) ==> Scalar(isFloat, s) == YFloat(s)
    ensures !isFloat(s) && !Bracketed(s) ==> Scalar(isFloat, s) == YStr(s)
  {
    TightIsTrimmed(s);
    WordsIff(s);
    UnreservedIsNoInteger(s);
  }

  lemma QuotedIsRead(isFloat: string -> bool, t: string, q: Quote, s: string)
    requires q != Bare && s == Quoted(t, q)
    ensures Scalar(isFloat, s) == YStr(t) && Tight(s)
  {
    TightIsTrimmed(s);
    assert s[0] == s[|s| - 1] && s[1..|s| - 1] == t;
  }

  // ----- Every spelling is read as its value -----

  lemma AtomRoundTrip(isFloat: string -> bool, a: Atom, s: string)
    requires ValidAtom(a) && FitsAtom(isFloat, a) && s == AtomText(a)
    ensures Scalar(isFloat, s) == AtomValue(a) && Tight(s)
  {
    match a
    case ANull(word) =>
      if Lowered(s) == "null" {
        OneWord(s);
        WordIsRead(isFloat, s);
        WordLetters(s);
      } else {
        TildeIsRead(isFloat);
      }
    case ABool(b, word) =>
      OneWord(s);
      WordIsRead(isFloat, s);
      WordLetters(s);
    case AInt(i, _, _) =>
      IntegerIsParsed(a, s);
      IntegerIsRead(isFloat, s, i);
    case AFloat(_) => PlainIsRead(isFloat, s);
    case AStr(t, q) =>
      if q == Bare {
        PlainIsRead(isFloat, s);
      } else {
        QuotedIsRead(isFloat, t, q, s);
      }
  }

  // ----- The scans for keys and comments pass over every spelling -----

  /** Neither scan stops in l between i and j, and behind it both are outside quotes. */
  predicate Passed(l: string, i: nat, j: nat)
  {
    && i <= j <= |l|
    && ColonAt(l, i, false, false) == ColonAt(l, j, false, false)
    && HashAt(l, i, false, false) == HashAt(l, j, false, false)
  }

  lemma PlainPasses(text: string, prefix: string, tail: string, l: string)
    requires Seamless(text) && l == prefix + text + tail
    ensures Passed(l, |prefix|, |prefix| + |text|)
  {
    var i, j := |prefix|, |prefix| + |text|;
    forall k | i <= k < j
      ensures l[k] == text[k - i]
    {}
    assert NoColon(l, i, j) by {
      forall k | i <= k < j && l[k] == ':'
        ensures k + 1 < |l| && l[k + 1] != ' ' && l[k + 1] != '\t'
      {
        assert l[k + 1] == text[k - i + 1];
      }
    }
    assert NoHash(l, i, j) by {
      forall k | i <= k < j && l[k] == '#'
        ensures k == 0 || (l[k - 1] != ' ' && l[k - 1] != '\t')
      {
        assert k > i && l[k - 1] == text[k - i - 1];
      }
    }
    ColonSkips(l, i, j);
    HashSkips(l, i, j);
  }

  lemma DoublePasses(s: string, prefix: string, tail: string, l: string)
    requires Without(s, '"') && l == prefix + (['"'] + s + ['"']) + tail
    ensures Passed(l, |prefix|, |prefix| + |s| + 2)
  {
    var i, j := |prefix|, |prefix| + |s| + 1;
    assert l[i] == '"' && l[j] == '"';
    forall k | i < k < j
      ensures l[k] != '"'
    {
      assert l[k] == s[k - i - 1];
    }
    ScansSkipQuoted(l, i + 1, j);
  }

  lemma SinglePasses(s: string, prefix: string, tail: string, l: string)
    requires Without(s, '\'') && l == prefix + (['\''] + s + ['\'']) + tail
    ensures Passed(l, |prefix|, |prefix| + |s| + 2)
  {
    var i, j := |prefix|, |prefix| + |s| + 1;
    assert l[i] == '\'' && l[j] == '\'';
    forall k | i < k < j
      ensures l[k] != '\''
    {
      assert l[k] == s[k - i - 1];
    }
    ScansSkipSingle(l, i + 1, j);
  }

  lemma QuotedPasses(s: string, q: Quote, prefix: string, tail: string, l: string)
    requires q == Double ==> Without(s, '"')
    requires q == Single ==> Without(s, '\'')
    requires q == Bare ==> Seamless(s)
    requires l == prefix + Quoted(s, q) + tail
    ensures Passed(l, |prefix|, |prefix| + |Quoted(s, q)|)
  {
    match q
    case Double => DoublePasses(s, prefix, tail, l);
    case Single => SinglePasses(s, prefix, tail, l);
    case Bare => PlainPasses(s, prefix, tail, l);
  }

  lemma AtomPasses(a: Atom, prefix: string, tail: string, l: string)
    requires ValidAtom(a) && l == prefix + AtomText(a) + tail
    ensures Passed(l, |prefix|, |prefix| + |AtomText(a)|)
  {
    if a.AStr? {
      QuotedPasses(a.s, a.quote, prefix, tail, l);
    } else {
      UnquotedIsSeamless(a);
      PlainPasses(AtomText(a), prefix, tail, l);
    }
  }

  lemma UnquotedIsSeamless(a: Atom)
    requires ValidAtom(a) && !a.AStr?
    ensures Seamless(AtomText(a))
  {
    var s := AtomText(a);
    if a.AInt? {
      IntegerIsParsed(a, s);
      IntegerIsRead(_ => false, s, a.i);
    } else if !a.AFloat? && s != "~" {
      WordLetters(s);
      LettersAreTight(s);
    }
  }

  lemma AtomIsOneLine(a: Atom)
    requires ValidAtom(a)
    ensures Tight(AtomText(a)) && Without(AtomText(a), '\n')
  {
    if !a.AStr? {
      UnquotedIsSeamless(a);
    }
  }

  // ----- Lists in brackets -----

  predicate ValidAtoms(atoms: seq<Atom>)
  {
    forall i :: 0 <= i < |atoms| ==> ValidAtom(atoms[i]) && Without(AtomText(atoms[i]), ',')
  }

  predicate FitAtoms(isFloat: string -> bool, atoms: seq<Atom>)
  {
    forall i :: 0 <= i < |atoms| ==> FitsAtom(isFloat, atoms[i])
  }

  function AtomValues(atoms: seq<Atom>): (vs: seq<Value>)
    ensures |vs| == |atoms|
  {
    if atoms == [] then [] else [AtomValue(atoms[0])] + AtomValues(atoms[1..])
  }

  function Inner(atoms: seq<Atom>): string
  {
    if atoms == [] then []
    else if |atoms| == 1 then AtomText(atoms[0])
    else AtomText(atoms[0]) + ([','] + ([' '] + Inner(atoms[1..])))
  }

  function FlowText(atoms: seq<Atom>): string
  {
    ['['] + Inner(atoms) + [']']
  }

  lemma {:induction false} SplitNone(s: string)
    requires Without(s, ',')
    ensures SplitCommas(s) == [s]
    decreases |s|
  {
    if s != "" {
      SplitNone(s[1..]);
      assert s == [s[0]] + s[1..];
    }
  }

  lemma SplitFirst(c: char, rest: string, s: string)
    requires s == [c] + rest && c != ','
    ensures SplitCommas(rest) != [] && SplitCommas(s) == [[c] + SplitCommas(rest)[0]] + SplitCommas(rest)[1..]
  {
    assert s[1..] == rest;
  }

  lemma {:induction false} SplitOne(a: string, b: string, s: string)
    requires Without(a, ',') && s == a + ([','] + b)
    ensures SplitCommas(s) == [a] + SplitCommas(b)
    decreases |a|
  {
    if a == "" {
      assert s[0] == ',' && s[1..] == b;
    } else {
      var rest := a[1..] + ([','] + b);
      assert s == [a[0]] + rest;
      SplitOne(a[1..], b, rest);
      SplitFirst(a[0], rest, s);
      assert a == [a[0]] + a[1..];
    }
  }

  lemma SpacedIsTrimmed(pad: nat, text: string, s: string)
    requires Tight(text) && s == Spaces(pad) + text
    ensures TrimSpace(s) == text
  {
    TrimTight(pad, text);
  }

  lemma {:induction false} InnerIsRead(isFloat: string -> bool, atoms: seq<Atom>, pad: nat, s: string, bound: nat)
    requires atoms != [] && ValidAtoms(atoms) && FitAtoms(isFloat, atoms) && s == Spaces(pad) + Inner(atoms)
    requires |s| <= bound
    ensures Scalars(isFloat, SplitCommas(s), bound) == AtomValues(atoms)
    decreases |atoms|
  {
    var text := AtomText(atoms[0]);
    var first := Spaces(pad) + text;
    AtomRoundTrip(isFloat, atoms[0], text);
    SpacedIsTrimmed(pad, text, first);
    SpacesHaveNoComma(pad, text, first);
    if |atoms| == 1 {
      SplitNone(first);
      OnePart(isFloat, first, [], bound);
      assert [first] + [] == [first];
    } else {
      var rest := Spaces(1) + Inner(atoms[1..]);
      InnerShape(text, Inner(atoms[1..]), rest, pad, s);
      SplitOne(first, rest, s);
      InnerIsRead(isFloat, atoms[1..], 1, rest, bound);
      OnePart(isFloat, first, SplitCommas(rest), bound);
    }
  }

  lemma SpacesHaveNoComma(pad: nat, text: string, s: string)
    requires Without(text, ',') && s == Spaces(pad) + text
    ensures Without(s, ',')
  {}

  lemma InnerShape(text: string, inner: string, rest: string, pad: nat, s: string)
    requires s == Spaces(pad) + (text + ([','] + ([' '] + inner))) && rest == Spaces(1) + inner
    ensures s == Spaces(pad) + text + ([','] + rest)
  {
    assert rest == [' '] + inner;
  }

  lemma OnePart(isFloat: string -> bool, first: string, parts: seq<string>, bound: nat)
    requires |first| <= bound && forall p :: p in parts ==> |p| <= bound
    ensures Scalars(isFloat, [first] + parts, bound) ==
            [Scalar(isFloat, TrimSpace(first))] + Scalars(isFloat, parts, bound)
  {
    assert ([first] + parts)[1..] == parts;
  }

  lemma {:induction false} InnerIsTight(atoms: seq<Atom>)
    requires atoms != [] && ValidAtoms(atoms)
    ensures Tight(Inner(atoms)) && Without(Inner(atoms), '\n')
    decreases |atoms|
  {
    AtomIsOneLine(atoms[0]);
    if |atoms| > 1 {
      InnerIsTight(atoms[1..]);
      var rest := Inner(atoms[1..]);
      var s := Inner(atoms);
      assert s == AtomText(atoms[0]) + ([','] + ([' '] + rest));
      assert s[|s| - 1] == rest[|rest| - 1] && s[0] == AtomText(atoms[0])[0];
    }
  }

  lemma BracketsAreNoScalar(s: string)
    requires s != "" && s[0] == '['
    ensures ParseInt(s) == None && !Enclosed(s, '"', '"') && !Enclosed(s, '\'', '\'') && s != "~"
    ensures Lowered(s) != "null" && !SaysTrue(s) && !SaysFalse(s)
  {
    StartsNoWord(s);
    assert !IsDigit(s[0]);
  }

  lemma FlowRoundTrip(isFloat: string -> bool, atoms: seq<Atom>, s: string)
    requires ValidAtoms(atoms) && FitAtoms(isFloat, atoms) && s == FlowText(atoms) && !isFloat(s)
    ensures Scalar(isFloat, s) == YSeq(AtomValues(atoms)) && Tight(s)
  {
    var inner := s[1..|s| - 1];
    assert inner == Inner(atoms);
    TightIsTrimmed(s);
    BracketsAreNoScalar(s);
    WordsIff(s);
    if atoms == [] {
      assert TrimSpace(inner) == "";
    } else {
      InnerIsTight(atoms);
      TightIsTrimmed(inner);
      assert inner == Spaces(0) + inner;
      InnerIsRead(isFloat, atoms, 0, inner, |inner|);
    }
  }

  predicate PassedIn(prefix: string, s: string, tail: string)
  {
    Passed(prefix + s + tail, |prefix|, |prefix| + |s|)
  }

  /** A text the scans pass over wherever it stands outside quotes. */
  ghost predicate Neutral(s: string)
  {
    forall prefix, tail :: PassedIn(prefix, s, tail)
  }

  lemma SeamlessIsNeutral(s: string)
    requires Seamless(s)
    ensures Neutral(s)
  {
    forall prefix, tail
      ensures PassedIn(prefix, s, tail)
    {
      PlainPasses(s, prefix, tail, prefix + s + tail);
    }
  }

  lemma AtomIsNeutral(a: Atom)
    requires ValidAtom(a)
    ensures Neutral(AtomText(a))
  {
    forall prefix, tail
      ensures PassedIn(prefix, AtomText(a), tail)
    {
      AtomPasses(a, prefix, tail, prefix + AtomText(a) + tail);
    }
  }

  lemma MarkIsNeutral(c: char)
    requires c == ' ' || c == ',' || c == '[' || c == ']'
    ensures Neutral([c])
  {
    forall prefix, tail
      ensures PassedIn(prefix, [c], tail)
    {
      var l := prefix + [c] + tail;
      assert l[|prefix|] == c;
    }
  }

  lemma NeutralAppend(a: string, b: string, s: string)
    requires Neutral(a) && Neutral(b) && s == a + b
    ensures Neutral(s)
  {
    forall prefix, tail
      ensures PassedIn(prefix, s, tail)
    {
      assert PassedIn(prefix, a, b + tail) && PassedIn(prefix + a, b, tail);
      assert prefix + s + tail == prefix + a + (b + tail) == prefix + a + b + tail;
    }
  }

  lemma {:induction false} InnerIsNeutral(atoms: seq<Atom>)
    requires atoms != [] && ValidAtoms(atoms)
    ensures Neutral(Inner(atoms))
    decreases |atoms|
  {
    AtomIsNeutral(atoms[0]);
    if |atoms| > 1 {
      InnerIsNeutral(atoms[1..]);
      JoinedIsNeutral(AtomText(atoms[0]), Inner(atoms[1..]), Inner(atoms));
    }
  }

  lemma JoinedIsNeutral(text: string, rest: string, s: string)
    requires Neutral(text) && Neutral(rest) && s == text + ([','] + ([' '] + rest))
    ensures Neutral(s)
  {
    MarkIsNeutral(' ');
    MarkIsNeutral(',');
    NeutralAppend([' '], rest, [' '] + rest);
    NeutralAppend([','], [' '] + rest, [','] + ([' '] + rest));
    NeutralAppend(text, [','] + ([' '] + rest), s);
  }

  lemma FlowIsNeutral(atoms: seq<Atom>)
    requires ValidAtoms(atoms)
    ensures Neutral(FlowText(atoms))
  {
    MarkIsNeutral('[');
    MarkIsNeutral(']');
    if atoms == [] {
      NeutralAppend(['['], [']'], FlowText(atoms));
    } else {
      InnerIsNeutral(atoms);
      NeutralAppend(['['], Inner(atoms), ['['] + Inner(atoms));
      NeutralAppend(['['] + Inner(atoms), [']'], FlowText(atoms));
    }
  }

  /** A text in which no comment starts and behind which both quotes are closed. */
  ghost predicate NoComment(s: string)
  {
    forall prefix, tail :: NoCommentIn(prefix, s, tail)
  }

  predicate NoCommentIn(prefix: string, s: string, tail: string)
  {
    var l := prefix + s + tail;
    HashAt(l, |prefix|, false, false) == HashAt(l, |prefix| + |s|, false, false)
  }

  lemma NeutralHasNoComment(s: string)
    requires Neutral(s)
    ensures NoComment(s)
  {
    forall prefix, tail
      ensures NoCommentIn(prefix, s, tail)
    {
      assert PassedIn(prefix, s, tail);
    }
  }

  lemma NoCommentAppend(a: string, b: string, s: string)
    requires NoComment(a) && NoComment(b) && s == a + b
    ensures NoComment(s)
  {
    forall prefix, tail
      ensures NoCommentIn(prefix, s, tail)
    {
      assert NoCommentIn(prefix, a, b + tail) && NoCommentIn(prefix + a, b, tail);
      assert prefix + s + tail == prefix + a + (b + tail) == prefix + a + b + tail;
    }
  }

  /** Blanks, dashes and colons start no comment. */
  lemma MarksHaveNoComment(s: string)
    requires forall i :: 0 <= i < |s| ==> s[i] == ' ' || s[i] == '\t' || s[i] == '-' || s[i] == ':'
    ensures NoComment(s)
  {
    forall prefix, tail
      ensures NoCommentIn(prefix, s, tail)
    {
      var l := prefix + s + tail;
      forall k | |prefix| <= k < |prefix| + |s|
        ensures l[k] == s[k - |prefix|]
      {}
      HashSkips(l, |prefix|, |prefix| + |s|);
    }
  }

  lemma FlowIsOneLine(atoms: seq<Atom>)
    requires ValidAtoms(atoms)
    ensures Tight(FlowText(atoms)) && Without(FlowText(atoms), '\n')
  {
    if atoms != [] {
      InnerIsTight(atoms);
    }
  }

  // ----- Keys -----

  /** A key that needs no quotes. */
  predicate PlainKey(k: string)
  {
    Seamless(k) && (k[0] == '-' && |k| > 1 ==> k[1] != ' ')
  }

  predicate ValidKey(key: string, q: Quote)
  {
    match q
    case Double => Without(key, '"') && Without(key, '\n')
    case Single => Without(key, '\'') && Without(key, '\n')
    case Bare => PlainKey(key)
  }

  /** A key text: it starts neither a comment nor an item. */
  lemma KeyTextIsTight(key: string, q: Quote, t: string)
    requires ValidKey(key, q) && t == Quoted(key, q)
    ensures Tight(t) && t[0] != '#' && (t[0] == '-' && |t| > 1 ==> t[1] != ' ') && Without(t, '\n')
  {}

  /** A key, in quotes or not, followed by its colon and the end of the line or a blank. */
  lemma KeyRoundTrip(key: string, q: Quote, tail: string)
    requires ValidKey(key, q) && (tail == "" || tail[0] == ' ' || tail[0] == '\t')
    ensures SplitKeyF(Quoted(key, q) + ":" + tail) == Some((key, tail))
  {
    var t := Quoted(key, q);
    var s := t + ":" + tail;
    assert s == "" + t + (":" + tail);
    QuotedPasses(key, q, "", ":" + tail, s);
    assert s[|t|] == ':' && s[..|t|] == t && s[|t| + 1..] == tail;
    KeyTextIsTight(key, q, t);
    TightIsTrimmed(t);
    KeyIsUnquoted(key, q, t);
  }

  lemma KeyIsUnquoted(key: string, q: Quote, t: string)
    requires ValidKey(key, q) && t == Quoted(key, q)
    ensures Unquote(t) == key
  {
    if q != Bare {
      assert t[0] == t[|t| - 1] && t[1..|t| - 1] == key;
    }
  }

  lemma KeyHasNoComment(key: string, q: Quote)
    requires ValidKey(key, q)
    ensures NoComment(Quoted(key, q))
  {
    forall prefix, tail
      ensures NoCommentIn(prefix, Quoted(key, q), tail)
    {
      QuotedPasses(key, q, prefix, tail, prefix + Quoted(key, q) + tail);
    }
  }
}

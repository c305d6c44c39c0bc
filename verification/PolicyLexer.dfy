/** The scanner of the policy language: as functions on the rest of the input, as the loops
    of the source, and with the renderer that is its inverse. */
module PolicyLexer {
  import opened Options
  import opened Text
  import opened PolicyAst
  import opened PolicyGrammar
  import opened PolicyParser

  const MAX_TOKENS: nat := 4096

  /** The libraries the scanner calls: Unicode letters and digits, and number conversion. */
  datatype Lang = Lang(letter: char -> bool, digit: char -> bool, parseFloat: string -> Option<real>)
  {
    predicate IdentStart(c: char) { c == '_' || letter(c) }

    predicate IdentPart(c: char) { c == '_' || letter(c) || digit(c) }
  }

  predicate AsciiLetter(c: char) { 'a' <= c <= 'z' || 'A' <= c <= 'Z' }

  predicate AsciiDigit(c: char) { '0' <= c <= '9' }

  /** The Unicode tables agree with ASCII on ASCII, and no letter is white space. */
  ghost predicate Known(lang: Lang)
  {
    && (forall c: char :: c < 128 as char ==> lang.letter(c) == AsciiLetter(c))
    && (forall c: char :: c < 128 as char ==> lang.digit(c) == AsciiDigit(c))
    && (forall c: char :: lang.letter(c) ==> !IsSpace(c))
  }

  // ----- One lexeme at the head of the input -----

  datatype Step = Skip | Take(t: Token, n: nat) | Bad

  /** The literal that starts behind an opening quote: its text and the length read. */
  function StringF(s: string, quote: char, acc: string, n: nat): (r: Option<(string, nat)>)
    ensures r.Some? ==> n < r.value.1 <= n + |s|
  {
    if s == [] then None
    else if s[0] == quote then Some((acc, n + 1))
    else if s[0] == '\\' then
      if |s| < 2 then None
      else match Unescape(s[1])
        case None => None
        case Some(c) => StringF(s[2..], quote, acc + [c], n + 2)
    else StringF(s[1..], quote, acc + [s[0]], n + 1)
  }

  function Unescape(c: char): Option<char>
  {
    if c == 'n' then Some('\n')
    else if c == 't' then Some('\t')
    else if c == '\\' || c == '"' || c == '\'' then Some(c)
    else None
  }

  /** Length of the longest run of digits with at most one dot. */
  function NumberLen(s: string, seenDot: bool): (n: nat)
    ensures n <= |s|
  {
    if s == [] then 0
    else if AsciiDigit(s[0]) then 1 + NumberLen(s[1..], seenDot)
    else if s[0] == '.' && !seenDot then 1 + NumberLen(s[1..], true)
    else 0
  }

  function IdentLen(lang: Lang, s: string): (n: nat)
    ensures n <= |s|
  {
    if s == [] || !lang.IdentPart(s[0]) then 0 else 1 + IdentLen(lang, s[1..])
  }

  predicate IsOperatorChar(c: char)
  {
    c == '&' || c == '|' || c == '=' || c == '!' || c == '<' || c == '>'
  }

  function OperatorF(s: string): (r: Step)
    requires s != []
    ensures r.Take? ==> 0 < r.n <= |s|
  {
    var two := if |s| > 1 then s[..2] else "";
    if two == "&&" then Take(TAnd, 2)
    else if two == "||" then Take(TOr, 2)
    else if two == "==" then Take(TEq, 2)
    else if two == "!=" then Take(TNe, 2)
    else if two == "<=" then Take(TLe, 2)
    else if two == ">=" then Take(TGe, 2)
    else if s[0] == '!' then Take(TNot, 1)
    else if s[0] == '<' then Take(TLt, 1)
    else if s[0] == '>' then Take(TGt, 1)
    else Bad
  }

  function WordToken(text: string): Token
  {
    if text == "true" then TTrue else if text == "false" then TFalse else TIdent(text)
  }

  function StepF(lang: Lang, s: string): (r: Step)
    requires s != []
    ensures r.Take? ==> 0 < r.n <= |s|
  {
    var c := s[0];
    if IsSpace(c) then Skip
    else if c == '(' then Take(TLParen, 1)
    else if c == ')' then Take(TRParen, 1)
    else if c == '[' then Take(TLBracket, 1)
    else if c == ']' then Take(TRBracket, 1)
    else if c == ',' then Take(TComma, 1)
    else if c == '+' then Take(TPlus, 1)
    else if c == '-' then Take(TMinus, 1)
    else if c == '"' || c == '\'' then
      (match StringF(s[1..], c, "", 1)
       case None => Bad
       case Some(p) => Take(TString(p.0), p.1))
    else if IsOperatorChar(c) then OperatorF(s)
    else if AsciiDigit(c) then
      var n := NumberLen(s, false);
      (match lang.parseFloat(s[..n])
       case None => Bad
       case Some(v) => Take(TNumber(s[..n], v), n))
    else if lang.IdentStart(c) then
      var n := IdentLen(lang, s);
      Take(WordToken(s[..n]), n)
    else Bad
  }

  datatype Lexed = Toks(ts: seq<Token>) | LexErr(error: ParseError)

  function LexF(lang: Lang, s: string, acc: seq<Token>): (r: Lexed)
    ensures r.Toks? ==> Ended(r.ts)
    decreases |s|
  {
    if s == [] then Toks(acc + [TEof]) else
    match StepF(lang, s)
    case Skip => LexF(lang, s[1..], acc)
    case Bad => LexErr(BadLexeme)
    case Take(t, n) =>
      if |acc| + 1 > MAX_TOKENS then LexErr(TooLong) else LexF(lang, s[n..], acc + [t])
  }

  // ----- The loops of the source -----

  method LexString(input: string, start: nat) returns (r: Option<(string, nat)>)
    requires start < |input|
    ensures r == StringF(input[start + 1..], input[start], "", 1)
  {
    var quote := input[start];
    var sb := "";
    var i := start + 1;
    while i < |input|
      invariant start + 1 <= i <= |input|
      invariant StringF(input[start + 1..], quote, "", 1) == StringF(input[i..], quote, sb, i - start)
    {
      var c := input[i];
      if c == quote {
        return Some((sb, i + 1 - start));
      }
      if c == '\\' {
        if i + 1 >= |input| {
          break;
        }
        match Unescape(input[i + 1]) {
          case None => return None;
          case Some(d) => sb := sb + [d];
        }
        i := i + 2;
        assert input[i - 2..][2..] == input[i..];
      } else {
        sb := sb + [c];
        i := i + 1;
        assert input[i - 1..][1..] == input[i..];
      }
    }
    r := None;
  }

  method LexNumber(input: string, start: nat) returns (n: nat)
    requires start < |input|
    ensures n == NumberLen(input[start..], false)
  {
    var i := start;
    var seenDot := false;
    while i < |input|
      invariant start <= i <= |input|
      invariant NumberLen(input[start..], false) == i - start + NumberLen(input[i..], seenDot)
    {
      var c := input[i];
      assert input[i..][1..] == input[i + 1..];
      if AsciiDigit(c) {
        i := i + 1;
        continue;
      }
      if c == '.' && !seenDot {
        seenDot := true;
        i := i + 1;
        continue;
      }
      break;
    }
    n := i - start;
  }

  method LexIdent(lang: Lang, input: string, start: nat) returns (n: nat)
    requires start < |input|
    ensures n == IdentLen(lang, input[start..])
  {
    var i := start;
    while i < |input|
      invariant start <= i <= |input|
      invariant IdentLen(lang, input[start..]) == i - start + IdentLen(lang, input[i..])
    {
      if !lang.IdentPart(input[i]) {
        break;
      }
      assert input[i..][1..] == input[i + 1..];
      i := i + 1;
    }
    n := i - start;
  }

  /** One turn of the scanner's switch. */
  method LexOne(lang: Lang, input: string, i: nat) returns (r: Step)
    requires i < |input|
    ensures r == StepF(lang, input[i..])
  {
    var c := input[i];
    if c == '"' || c == '\'' {
      assert input[i..][1..] == input[i + 1..];
      var lit := LexString(input, i);
      r := match lit case None => Bad case Some(p) => Take(TString(p.0), p.1);
    } else if AsciiDigit(c) {
      var n := LexNumber(input, i);
      assert input[i..][..n] == input[i..i + n];
      r := match lang.parseFloat(input[i..i + n])
        case None => Bad
        case Some(v) => Take(TNumber(input[i..i + n], v), n);
    } else if !IsSpace(c) && c !in "()[],+-" && !IsOperatorChar(c) && lang.IdentStart(c) {
      var n := LexIdent(lang, input, i);
      assert input[i..][..n] == input[i..i + n];
      r := Take(WordToken(input[i..i + n]), n);
    } else {
      r := StepF(lang, input[i..]);
    }
  }

  method Lex(lang: Lang, input: string) returns (r: Lexed)
    ensures r == LexF(lang, input, [])
  {
    var toks: seq<Token> := [];
    var i := 0;
    assert input[0..] == input;
    while i < |input|
      invariant 0 <= i <= |input| && |toks| <= MAX_TOKENS
      invariant LexF(lang, input, []) == LexF(lang, input[i..], toks)
    {
      var step := LexOne(lang, input, i);
      match step {
        case Skip =>
          assert input[i..][1..] == input[i + 1..];
          i := i + 1;
        case Bad =>
          return LexErr(BadLexeme);
        case Take(t, n) =>
          assert input[i..][n..] == input[i + n..];
          toks := toks + [t];
          i := i + n;
          if |toks| > MAX_TOKENS {
            return LexErr(TooLong);
          }
      }
    }
    r := Toks(toks + [TEof]);
  }

  // ----- What the scanner delivers -----

  predicate IsNumberText(s: string)
  {
    s != [] && AsciiDigit(s[0]) && NumberLen(s, false) == |s|
  }

  predicate IsName(lang: Lang, s: string)
  {
    s != [] && lang.IdentStart(s[0]) && IdentLen(lang, s) == |s| && s != "true" && s != "false"
  }

  /** The words of the scanner. */
  function WordsOf(lang: Lang): Words
  {
    Words((text, v) => IsNumberText(text) && lang.parseFloat(text) == Some(v), text => IsName(lang, text))
  }

  lemma {:induction false} NumberLenOfPrefix(s: string, seenDot: bool)
    ensures NumberLen(s[..NumberLen(s, seenDot)], seenDot) == NumberLen(s, seenDot)
    decreases s
  {
    var n := NumberLen(s, seenDot);
    if n > 0 {
      var dot := seenDot || s[0] == '.';
      NumberLenOfPrefix(s[1..], dot);
      assert s[..n][1..] == s[1..][..n - 1];
    }
  }

  lemma {:induction false} IdentLenOfPrefix(lang: Lang, s: string)
    ensures IdentLen(lang, s[..IdentLen(lang, s)]) == IdentLen(lang, s)
    decreases s
  {
    var n := IdentLen(lang, s);
    if n > 0 {
      IdentLenOfPrefix(lang, s[1..]);
      assert s[..n][1..] == s[1..][..n - 1];
    }
  }

  lemma StepDeliversWords(lang: Lang, s: string)
    requires s != [] && StepF(lang, s).Take?
    ensures TokenIn(StepF(lang, s).t, WordsOf(lang))
  {
    NumberLenOfPrefix(s, false);
    IdentLenOfPrefix(lang, s);
  }

  /** Every accepted input yields words only, ended by the end marker, within the budget. */
  lemma {:induction false} LexDeliversWords(lang: Lang, s: string, acc: seq<Token>)
    requires LexF(lang, s, acc).Toks? && AllIn(acc, WordsOf(lang)) && |acc| <= MAX_TOKENS
    ensures var ts := LexF(lang, s, acc).ts;
            && |acc| < |ts| <= MAX_TOKENS + 1 && ts[|ts| - 1] == TEof
            && AllIn(ts[..|ts| - 1], WordsOf(lang))
    decreases |s|
  {
    if s == [] {
      assert (acc + [TEof])[..|acc|] == acc;
    } else {
      match StepF(lang, s)
      case Skip => LexDeliversWords(lang, s[1..], acc);
      case Take(t, n) =>
        StepDeliversWords(lang, s);
        LexDeliversWords(lang, s[n..], acc + [t]);
      case Bad =>
    }
  }

  // ----- The renderer -----

  predicate IsQuote(c: char) { c == '"' || c == '\'' }

  function EscapeChar(c: char, quote: char): string
  {
    if c == quote || c == '\\' then ['\\', c]
    else if c == '\n' then ['\\', 'n']
    else if c == '\t' then ['\\', 't']
    else [c]
  }

  /** A text as it stands between these quotes. */
  function Escape(s: string, quote: char): string
  {
    if s == [] then [] else EscapeChar(s[0], quote) + Escape(s[1..], quote)
  }

  function TokenText(t: Token): string
  {
    match t
    case TEof => ""
    case TNumber(text, _) => text
    case TString(s) => ['"'] + Escape(s, '"') + ['"']
    case TIdent(name) => name
    case TLParen => "("
    case TRParen => ")"
    case TLBracket => "["
    case TRBracket => "]"
    case TComma => ","
    case TAnd => "&&"
    case TOr => "||"
    case TNot => "!"
    case TEq => "=="
    case TNe => "!="
    case TLt => "<"
    case TLe => "<="
    case TGt => ">"
    case TGe => ">="
    case TPlus => "+"
    case TMinus => "-"
    case TTrue => "true"
    case TFalse => "false"
  }

  /** Every lexeme followed by one blank. */
  function Render(ts: seq<Token>): string
  {
    if ts == [] then [] else TokenText(ts[0]) + [' '] + Render(ts[1..])
  }

  /** The blanks of plain text. */
  predicate IsGap(c: char)
  {
    c == ' ' || c == '\t' || c == '\n' || c == '\r'
  }

  lemma {:induction false} NumberLenStops(s: string, seenDot: bool, c: char, rest: string)
    requires IsGap(c) && NumberLen(s, seenDot) == |s|
    ensures NumberLen(s + [c] + rest, seenDot) == |s|
    decreases s
  {
    var whole := s + [c] + rest;
    if s != [] {
      var dot := seenDot || s[0] == '.';
      NumberLenStops(s[1..], dot, c, rest);
      assert whole[1..] == s[1..] + [c] + rest;
    }
  }

  lemma {:induction false} IdentLenStops(lang: Lang, s: string, c: char, rest: string)
    requires IsGap(c) && Known(lang) && IdentLen(lang, s) == |s|
    ensures IdentLen(lang, s + [c] + rest) == |s|
    decreases s
  {
    var whole := s + [c] + rest;
    if s == [] {
      assert whole[0] == c;
    } else {
      IdentLenStops(lang, s[1..], c, rest);
      assert whole[1..] == s[1..] + [c] + rest;
    }
  }

  lemma StringTurn(c: char, quote: char, head: string, tail: string, acc: string, n: nat)
    requires IsQuote(quote) && head == EscapeChar(c, quote)
    ensures StringF(head + tail, quote, acc, n) == StringF(tail, quote, acc + [c], n + |head|)
  {
    var s := head + tail;
    assert s[0] == head[0] && s[|head|..] == tail;
    if |head| == 2 {
      assert s[1] == head[1];
    }
  }

  /** Reading an escaped literal gives back the text it was made from. */
  lemma {:induction false} StringRoundTrip(s: string, quote: char, acc: string, n: nat, rest: string)
    requires IsQuote(quote)
    ensures StringF(Escape(s, quote) + [quote] + rest, quote, acc, n) == Some((acc + s, n + |Escape(s, quote)| + 1))
    decreases s
  {
    var whole := Escape(s, quote) + [quote] + rest;
    if s == [] {
      assert acc + s == acc;
    } else {
      var head, tail := EscapeChar(s[0], quote), Escape(s[1..], quote) + [quote] + rest;
      assert whole == head + tail;
      StringTurn(s[0], quote, head, tail, acc, n);
      StringRoundTrip(s[1..], quote, acc + [s[0]], n + |head|, rest);
      assert acc + [s[0]] + s[1..] == acc + s;
    }
  }

  /** A word before a blank is read back as that word. */
  lemma StepOfRendered(lang: Lang, t: Token, c: char, rest: string)
    requires IsGap(c) && Known(lang) && TokenIn(t, WordsOf(lang))
    ensures TokenText(t) != []
    ensures StepF(lang, TokenText(t) + [c] + rest) == Take(t, |TokenText(t)|)
  {
    match t
    case TNumber(text, num) =>
      assert WordsOf(lang).number(text, num);
      StepOfNumber(lang, text, num, c, rest);
    case TString(v) => StepOfString(lang, v, '"', c, rest);
    case TIdent(name) => StepOfWord(lang, name, c, rest);
    case TTrue => LettersAreIdent(lang, "true"); StepOfWord(lang, "true", c, rest);
    case TFalse => LettersAreIdent(lang, "false"); StepOfWord(lang, "false", c, rest);
    case _ => StepOfSymbol(lang, t, c, rest);
  }

  lemma StepOfNumber(lang: Lang, text: string, num: real, c: char, rest: string)
    requires IsGap(c) && IsNumberText(text) && lang.parseFloat(text) == Some(num)
    ensures StepF(lang, text + [c] + rest) == Take(TNumber(text, num), |text|)
  {
    var s := text + [c] + rest;
    NumberLenStops(text, false, c, rest);
    assert s[..|text|] == text && s[0] == text[0];
  }

  /** A literal between either quotes is one token. */
  lemma StepOfString(lang: Lang, v: string, quote: char, c: char, rest: string)
    requires IsQuote(quote)
    ensures var text := [quote] + Escape(v, quote) + [quote];
            StepF(lang, text + [c] + rest) == Take(TString(v), |text|)
  {
    var s := [quote] + Escape(v, quote) + [quote] + [c] + rest;
    StringRoundTrip(v, quote, "", 1, [c] + rest);
    assert s[1..] == Escape(v, quote) + [quote] + ([c] + rest);
    assert "" + v == v;
  }

  lemma StepOfSymbol(lang: Lang, t: Token, c: char, rest: string)
    requires IsGap(c) && !t.TEof? && !t.TNumber? && !t.TString? && !t.TIdent? && !t.TTrue? && !t.TFalse?
    ensures StepF(lang, TokenText(t) + [c] + rest) == Take(t, |TokenText(t)|)
  {
    var text := TokenText(t);
    var s := text + [c] + rest;
    if |text| == 2 {
      assert s[..2] == text && s[0] == text[0];
    } else {
      assert s[..2] == [text[0], c] && s[0] == text[0];
    }
  }

  lemma {:induction false} LettersAreIdent(lang: Lang, s: string)
    requires Known(lang) && forall c :: c in s ==> AsciiLetter(c)
    ensures IdentLen(lang, s) == |s|
    decreases s
  {
    if s != [] {
      assert s[0] in s;
      LettersAreIdent(lang, s[1..]);
    }
  }

  lemma StepOfWord(lang: Lang, text: string, c: char, rest: string)
    requires IsGap(c) && Known(lang) && text != [] && lang.IdentStart(text[0]) && IdentLen(lang, text) == |text|
    requires !IsSpace(text[0])
    ensures StepF(lang, text + [c] + rest) == Take(WordToken(text), |text|)
  {
    var s := text + [c] + rest;
    IdentLenStops(lang, text, c, rest);
    assert s[..|text|] == text && s[0] == text[0];
  }

  /** Scanning rendered words gives the words back when they fit the budget. */
  lemma {:induction false} LexOfRendered(lang: Lang, ts: seq<Token>, s: string, acc: seq<Token>, all: seq<Token>)
    requires Known(lang) && AllIn(ts, WordsOf(lang)) && |acc| + |ts| <= MAX_TOKENS
    requires s == Render(ts) && all == acc + ts
    ensures LexF(lang, s, acc) == Toks(all + [TEof])
    decreases |ts|
  {
    if ts != [] {
      var rest := Render(ts[1..]);
      assert all == acc + [ts[0]] + ts[1..];
      LexOfRendered(lang, ts[1..], rest, acc + [ts[0]], all);
      RenderedTurn(lang, ts[0], rest, s, acc);
    }
  }

  /** Rendered words beyond the budget are refused. */
  lemma {:induction false} LexOfTooMany(lang: Lang, ts: seq<Token>, s: string, acc: seq<Token>)
    requires Known(lang) && AllIn(ts, WordsOf(lang)) && |acc| <= MAX_TOKENS < |acc| + |ts|
    requires s == Render(ts)
    ensures LexF(lang, s, acc) == LexErr(TooLong)
    decreases |ts|
  {
    var rest := Render(ts[1..]);
    RenderedTurn(lang, ts[0], rest, s, acc);
    if |acc| < MAX_TOKENS {
      LexOfTooMany(lang, ts[1..], rest, acc + [ts[0]]);
    }
  }

  lemma RenderedTurn(lang: Lang, t: Token, rest: string, s: string, acc: seq<Token>)
    requires Known(lang) && TokenIn(t, WordsOf(lang)) && s == TokenText(t) + [' '] + rest
    ensures LexF(lang, s, acc) == if |acc| + 1 > MAX_TOKENS then LexErr(TooLong) else LexF(lang, rest, acc + [t])
  {
    StepOfRendered(lang, t, ' ', rest);
    var tail := s[|TokenText(t)|..];
    assert tail == [' '] + rest;
    assert tail[1..] == rest;
    assert LexF(lang, tail, acc + [t]) == LexF(lang, rest, acc + [t]);
  }
}

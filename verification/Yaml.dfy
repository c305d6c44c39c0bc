/** The YAML subset reader: its block grammar as functions on the lines still to read, and the
    parser object that moves `pos` and rewrites dash lines in place. */
module Yaml {
  import opened Options
  import opened YamlText

  /** A parsed value.  A float is kept as its source text. */
  datatype Value =
    | YNull
    | YBool(b: bool)
    | YInt(i: int)
    | YFloat(text: string)
    | YStr(s: string)
    | YSeq(vs: seq<Value>)
    | YMap(m: map<string, Value>)

  // ----- Scalars -----

  const MIN_INT64: int := -0x8000_0000_0000_0000
  const MAX_INT64: int := 0x7fff_ffff_ffff_ffff

  predicate IsDigit(c: char) { '0' <= c <= '9' }

  predicate AllDigits(s: string)
  {
    forall i :: 0 <= i < |s| ==> IsDigit(s[i])
  }

  function DigitsValue(s: string): nat
    requires AllDigits(s)
  {
    if s == [] then 0 else 10 * DigitsValue(s[..|s| - 1]) + (s[|s| - 1] as int - '0' as int)
  }

  /** strconv.ParseInt(s, 10, 64). */
  function ParseInt(s: string): Option<int>
  {
    var signed := s != [] && (s[0] == '-' || s[0] == '+');
    var digits := if signed then s[1..] else s;
    if digits == [] || !AllDigits(digits) then None else
    var v: int := if s[0] == '-' then 0 - DigitsValue(digits) else DigitsValue(digits);
    if MIN_INT64 <= v <= MAX_INT64 then Some(v) else None
  }

  predicate SameLetter(c: char, lower: char)
  {
    c == lower || ('A' <= c <= 'Z' && (c as int) + 32 == lower as int)
  }

  /** strings.ToLower(s) == word, for a word of plain ASCII letters without i and k. */
  predicate IsWord(s: string, word: string)
  {
    |s| == |word| && forall i :: 0 <= i < |s| ==> SameLetter(s[i], word[i])
  }

  /** strings.Split(s, ","). */
  function SplitCommas(s: string): (parts: seq<string>)
    ensures forall p :: p in parts ==> |p| <= |s|
  {
    if s == [] then [""]
    else if s[0] == ',' then [""] + SplitCommas(s[1..])
    else
      var rest := SplitCommas(s[1..]);
      if rest == [] then [[s[0]]] else [[s[0]] + rest[0]] + rest[1..]
  }

  /** A scalar token as a typed value; isFloat is strconv.ParseFloat's verdict. */
  function Scalar(isFloat: string -> bool, token: string): Value
    decreases |token|, 1
  {
    var s := TrimSpace(token);
    if s == "" then YNull
    else if Enclosed(s, '"', '"') || Enclosed(s, '\'', '\'') then YStr(Unquote(s))
    else if IsWord(s, "null") || s == "~" then YNull
    else if IsWord(s, "true") || IsWord(s, "yes") || IsWord(s, "on") then YBool(true)
    else if IsWord(s, "false") || IsWord(s, "no") || IsWord(s, "off") then YBool(false)
    else match ParseInt(s)
      case Some(i) => YInt(i)
      case None =>
        if isFloat(s) then YFloat(s)
        else if Enclosed(s, '[', ']') then
          var inner := TrimSpace(s[1..|s| - 1]);
          if inner == "" then YSeq([]) else
          assert |inner| < |token|;
          YSeq(Scalars(isFloat, SplitCommas(inner), |inner|))
        else YStr(s)
  }

  function Scalars(isFloat: string -> bool, parts: seq<string>, bound: nat): (vs: seq<Value>)
    requires forall p :: p in parts ==> |p| <= bound
    ensures |vs| == |parts|
    decreases bound, 2, parts
  {
    if parts == [] then [] else
    assert parts[0] in parts;
    [Scalar(isFloat, TrimSpace(parts[0]))] + Scalars(isFloat, parts[1..], bound)
  }

  // ----- Blocks -----

  datatype Result = Ok(v: Value, rest: seq<string>) | Err

  /** The content of a line that starts a sequence item. */
  predicate IsDash(content: string)
  {
    content == "-" || HasPrefix(content, "- ")
  }

  predicate IsItem(line: string)
  {
    IsDash(TrimLeftSpaces(line))
  }

  /** What follows the dash. */
  function AfterDash(line: string): string
  {
    var content := TrimLeftSpaces(line);
    TrimLeftSpaces(content[LeadingDashes(content)..])
  }

  /** The column at which an item's own content begins. */
  function ItemIndent(line: string): nat
  {
    var content := TrimLeftSpaces(line);
    IndentOf(line) + (|content| - |AfterDash(line)|)
  }

  /** A dash line with its first key moved to the item's column. */
  function Rewritten(line: string): string
  {
    Spaces(ItemIndent(line)) + AfterDash(line)
  }

  /** rest is what lines become when some of them have been read. */
  ghost predicate IsTail(rest: seq<string>, lines: seq<string>)
  {
    |rest| <= |lines| && rest == lines[|lines| - |rest|..]
  }

  function BlockF(isFloat: string -> bool, indent: nat, lines: seq<string>): (r: Result)
    ensures r.Ok? ==> IsTail(r.rest, lines)
    decreases |lines|, 3
  {
    if lines == [] then Ok(YNull, [])
    else if HasPrefix(TrimLeftSpaces(lines[0]), "- ") || TrimSpace(lines[0]) == "-" then SeqF(isFloat, indent, lines, [])
    else MapF(isFloat, indent, lines, map[])
  }

  function MapF(isFloat: string -> bool, indent: nat, lines: seq<string>, m: map<string, Value>): (r: Result)
    ensures r.Ok? ==> r.v.YMap? && IsTail(r.rest, lines)
    ensures r.Ok? && lines != [] && IndentOf(lines[0]) >= indent ==> |r.rest| < |lines|
    decreases |lines|, 0
  {
    if lines == [] || IndentOf(lines[0]) < indent then Ok(YMap(m), lines)
    else if IndentOf(lines[0]) > indent then Err
    else match SplitKeyF(TrimLeftSpaces(lines[0]))
      case None => Err
      case Some(kv) =>
        var text := TrimSpace(kv.1);
        if text != "" then MapF(isFloat, indent, lines[1..], m[kv.0 := Scalar(isFloat, text)])
        else match ChildF(isFloat, indent, lines[1..])
          case Err => Err
          case Ok(child, ls) => MapF(isFloat, indent, ls, m[kv.0 := child])
  }

  function SeqF(isFloat: string -> bool, indent: nat, lines: seq<string>, acc: seq<Value>): (r: Result)
    ensures r.Ok? ==> r.v.YSeq? && IsTail(r.rest, lines)
    decreases |lines|, 2
  {
    if lines == [] || IndentOf(lines[0]) != indent || !IsItem(lines[0]) then Ok(YSeq(acc), lines)
    else match ItemF(isFloat, indent, lines)
      case Err => Err
      case Ok(item, ls) => SeqF(isFloat, indent, ls, acc + [item])
  }

  /** One sequence item: a nested block, a mapping that starts on the dash line, or a scalar. */
  function ItemF(isFloat: string -> bool, indent: nat, lines: seq<string>): (r: Result)
    requires lines != []
    ensures r.Ok? ==> IsTail(r.rest, lines) && |r.rest| < |lines|
    decreases |lines|, 1
  {
    var after := AfterDash(lines[0]);
    if after == "" then ChildF(isFloat, indent, lines[1..])
    else if SplitKeyF(after).Some? then
      RewrittenIndent(lines[0]);
      MapF(isFloat, ItemIndent(lines[0]), [Rewritten(lines[0])] + lines[1..], map[])
    else Ok(Scalar(isFloat, after), lines[1..])
  }

  function ChildF(isFloat: string -> bool, parent: nat, lines: seq<string>): (r: Result)
    ensures r.Ok? ==> IsTail(r.rest, lines)
    decreases |lines|, 4
  {
    if lines == [] then Ok(YNull, [])
    else if IndentOf(lines[0]) == parent then
      if IsItem(lines[0]) then SeqF(isFloat, parent, lines, []) else Ok(YNull, lines)
    else if IndentOf(lines[0]) < parent then Ok(YNull, lines)
    else BlockF(isFloat, IndentOf(lines[0]), lines)
  }

  lemma RewrittenIndent(line: string)
    ensures AfterDash(line) != "" ==> IndentOf(Rewritten(line)) == ItemIndent(line)
    ensures TrimLeftSpaces(Rewritten(line)) == AfterDash(line)
  {
    var content := TrimLeftSpaces(line);
    TrimLeftStops(content[LeadingDashes(content)..]);
    IndentOfSpaces(ItemIndent(line), AfterDash(line));
  }

  // ----- The parser object -----

  datatype Outcome = Parsed(value: Value) | Failed

  class Parser {
    const isFloat: string -> bool
    const lines: array<string>
    var pos: nat

    constructor (isFloat: string -> bool, ls: seq<string>)
      ensures Valid() && fresh(lines) && this.isFloat == isFloat
      ensures pos == 0 && lines[..] == ls
    {
      this.isFloat := isFloat;
      lines := new string[|ls|](i requires 0 <= i < |ls| => ls[i]);
      pos := 0;
    }

    ghost predicate Valid()
      reads this
    {
      pos <= lines.Length
    }

    ghost function Rest(): seq<string>
      requires Valid()
      reads this, lines
    {
      lines[pos..]
    }

    /** The position never goes back, lines before the old position and lines still to read
        are untouched, and a line in between is untouched or a dash line rewritten once. */
    twostate predicate Kept()
      reads this, lines
    {
      && old(pos) <= pos <= lines.Length
      && (forall i :: 0 <= i < old(pos) ==> lines[i] == old(lines[i]))
      && (forall i :: pos <= i < lines.Length ==> lines[i] == old(lines[i]))
      && (forall i :: old(pos) <= i < lines.Length ==>
            lines[i] == old(lines[i]) || (IsItem(old(lines[i])) && lines[i] == Rewritten(old(lines[i]))))
    }

    /** What a parse step leaves behind: the outcome is what the block grammar says. */
    twostate predicate Left(r: Outcome, spec: Result)
      reads this, lines
    {
      && Kept()
      && (r.Parsed? <==> spec.Ok?)
      && (r.Parsed? ==> spec == Ok(r.value, lines[pos..]))
    }

    method ParseBlock(indent: nat) returns (r: Outcome)
      requires Valid()
      modifies this`pos, lines
      ensures Left(r, BlockF(isFloat, indent, old(Rest())))
      decreases lines.Length - pos, 4
    {
      if pos >= lines.Length {
        return Parsed(YNull);
      }
      var first := lines[pos];
      if HasPrefix(TrimLeftSpaces(first), "- ") || TrimSpace(first) == "-" {
        r := ParseSequence(indent);
      } else {
        r := ParseMapping(indent);
      }
    }

    method ParseMapping(indent: nat) returns (r: Outcome)
      requires Valid()
      modifies this`pos, lines
      ensures Left(r, MapF(isFloat, indent, old(Rest()), map[]))
      ensures old(pos) < lines.Length && IndentOf(old(lines[pos])) == indent ==>
                SplitKeyF(TrimLeftSpaces(old(lines[pos]))).Some? ==> pos > old(pos)
      ensures old(pos) < lines.Length ==> lines[old(pos)] == old(lines[pos])
      decreases lines.Length - pos, 0
    {
      var m: map<string, Value> := map[];
      ghost var spec := MapF(isFloat, indent, Rest(), map[]);
      while pos < lines.Length
        invariant Kept()
        invariant old(pos) < lines.Length ==> lines[old(pos)] == old(lines[pos])
        invariant spec == MapF(isFloat, indent, lines[pos..], m)
        decreases lines.Length - pos
      {
        var line := lines[pos];
        if IndentOf(line) < indent {
          break;
        }
        if IndentOf(line) > indent {
          return Failed;
        }
        var kv := SplitKey(TrimLeftSpaces(line));
        if kv.None? {
          return Failed;
        }
        ghost var here := lines[pos..];
        pos := pos + 1;
        assert lines[pos..] == here[1..];
        var value := ParseValue(indent, TrimSpace(kv.value.1));
        if value.Failed? {
          return Failed;
        }
        m := m[kv.value.0 := value.value];
      }
      r := Parsed(YMap(m));
    }

    /** What stands behind a key: a scalar on its line or a block below it. */
    method ParseValue(indent: nat, text: string) returns (r: Outcome)
      requires Valid()
      modifies this`pos, lines
      ensures Left(r, if text == "" then ChildF(isFloat, indent, old(Rest())) else Ok(Scalar(isFloat, text), old(Rest())))
      decreases lines.Length - pos, 6
    {
      if text != "" {
        return Parsed(Scalar(isFloat, text));
      }
      r := ParseChild(indent);
    }

    method ParseSequence(indent: nat) returns (r: Outcome)
      requires Valid()
      modifies this`pos, lines
      ensures Left(r, SeqF(isFloat, indent, old(Rest()), []))
      decreases lines.Length - pos, 3
    {
      var vs: seq<Value> := [];
      ghost var spec := SeqF(isFloat, indent, Rest(), []);
      while pos < lines.Length
        invariant Kept()
        invariant spec == SeqF(isFloat, indent, lines[pos..], vs)
        decreases lines.Length - pos
      {
        if IndentOf(lines[pos]) != indent || !IsItem(lines[pos]) {
          break;
        }
        var item := ParseItem(indent);
        if item.Failed? {
          return Failed;
        }
        vs := vs + [item.value];
      }
      r := Parsed(YSeq(vs));
    }

    method ParseItem(indent: nat) returns (r: Outcome)
      requires Valid() && pos < lines.Length && IsItem(lines[pos])
      modifies this`pos, lines
      ensures Left(r, ItemF(isFloat, indent, old(Rest())))
      ensures r.Parsed? ==> pos > old(pos)
      decreases lines.Length - pos, 2
    {
      var line := lines[pos];
      var after := AfterDash(line);
      ghost var here := lines[pos..];
      if after == "" {
        pos := pos + 1;
        assert lines[pos..] == here[1..];
        r := ParseChild(indent);
        return;
      }
      var kv := SplitKey(after);
      if kv.Some? {
        r := ParseDashMapping();
        return;
      }
      pos := pos + 1;
      assert lines[pos..] == here[1..];
      r := Parsed(Scalar(isFloat, after));
    }

    /** An item whose first key sits on the dash line: the line is rewritten so that the key
        stands at the item's column, and the whole item is read as one mapping. */
    method ParseDashMapping() returns (r: Outcome)
      requires Valid() && pos < lines.Length && IsItem(lines[pos])
      requires AfterDash(lines[pos]) != "" && SplitKeyF(AfterDash(lines[pos])).Some?
      modifies this`pos, lines
      ensures Left(r, MapF(isFloat, ItemIndent(old(lines[pos])),
                           [Rewritten(old(lines[pos]))] + old(Rest())[1..], map[]))
      ensures pos > old(pos)
      decreases lines.Length - pos, 1
    {
      var line := lines[pos];
      ghost var here := lines[pos..];
      RewrittenIndent(line);
      lines[pos] := Spaces(ItemIndent(line)) + AfterDash(line);
      assert lines[pos..] == [Rewritten(line)] + here[1..];
      label rewritten:
      r := ParseMapping(ItemIndent(line));
      assert lines[old(pos)] == old@rewritten(lines[pos]) == Rewritten(line);
    }

    method ParseChild(parent: nat) returns (r: Outcome)
      requires Valid()
      modifies this`pos, lines
      ensures Left(r, ChildF(isFloat, parent, old(Rest())))
      decreases lines.Length - pos, 5
    {
      if pos >= lines.Length {
        return Parsed(YNull);
      }
      var line := lines[pos];
      var childIndent := IndentOf(line);
      if childIndent == parent {
        if IsItem(line) {
          r := ParseSequence(parent);
          return;
        }
        return Parsed(YNull);
      }
      if childIndent < parent {
        return Parsed(YNull);
      }
      r := ParseBlock(childIndent);
    }
  }

  /** json.Marshal succeeds: every float in the value is finite. */
  predicate Encodes(finite: string -> bool, v: Value)
  {
    match v
    case YFloat(text) => finite(text)
    case YSeq(vs) => forall i :: 0 <= i < |vs| ==> Encodes(finite, vs[i])
    case YMap(m) => forall key :: key in m ==> Encodes(finite, m[key])
    case _ => true
  }

  /** ToJSON up to the text of the encoding: comments off, one block at column 0, and an error
      for a value that has no encoding.  Lines the block does not consume are ignored.  finite
      tells which float texts are neither NaN nor an infinity. */
  function ReadF(isFloat: string -> bool, finite: string -> bool, lines: seq<string>): Outcome
  {
    match BlockF(isFloat, 0, StripCommentsF(lines))
    case Err => Failed
    case Ok(v, _) => if Encodes(finite, v) then Parsed(v) else Failed
  }

  method ToValue(isFloat: string -> bool, finite: string -> bool, lines: seq<string>) returns (r: Outcome)
    ensures r == ReadF(isFloat, finite, lines)
  {
    var kept := StripComments(lines);
    var p := new Parser(isFloat, kept);
    assert p.Rest() == kept;
    r := p.ParseBlock(0);
    if r.Parsed? && !Encodes(finite, r.value) {
      r := Failed;
    }
  }
}

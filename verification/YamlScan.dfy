/** What the reader takes, refuses and leaves unread, told line by line: a scan that keeps the
    open columns on a stack and builds no value.  With it, the documents the package comment
    says are refused and the reader accepts. */
module YamlScan {
  import opened Options
  import opened Yaml
  import opened YamlPrint
  import opened YamlSpelling
  import opened YamlText

  // ----- The scan -----

  /** An open block, or a value still to come for a key or a bare dash at this column. */
  datatype Frame = InSeq(column: nat) | InMap(column: nat) | Awaiting(column: nat)

  /** The innermost frame comes first. */
  type Stack = seq<Frame>

  datatype Placed = Taken(open: Stack) | Unclaimed | Refused

  /** The document stops at these lines, or is refused. */
  datatype Verdict = Stops(rest: seq<string>) | Rejects

  /** The test by which a block is a sequence; it is not quite IsItem. */
  predicate DashFirst(line: string)
  {
    HasPrefix(TrimLeftSpaces(line), "- ") || TrimSpace(line) == "-"
  }

  /** What a key line leaves open above its mapping. */
  function OpenedByKey(text: string, column: nat): Stack
    requires SplitKeyF(text).Some?
  {
    if TrimSpace(SplitKeyF(text).value.1) == "" then [Awaiting(column)] else []
  }

  /** What an item line leaves open above its sequence. */
  function OpenedByItem(line: string, column: nat): Stack
  {
    var after := AfterDash(line);
    if after == "" then [Awaiting(column)]
    else if SplitKeyF(after).Some? then OpenedByKey(after, ItemIndent(line)) + [InMap(ItemIndent(line))]
    else []
  }

  /** A line that a mapping at this column does not end at. */
  function PlaceInMap(outer: Stack, line: string, column: nat): Placed
  {
    if IndentOf(line) > column || SplitKeyF(TrimLeftSpaces(line)).None? then Refused
    else Taken(OpenedByKey(TrimLeftSpaces(line), column) + [InMap(column)] + outer)
  }

  /** Offers a line to the innermost frame and, when that ends, to the next one. */
  function Place(open: Stack, line: string): Placed
  {
    if open == [] then Unclaimed else
    var outer := open[1..];
    var n := IndentOf(line);
    match open[0]
    case InSeq(c) =>
      if n == c && IsItem(line) then Taken(OpenedByItem(line, c) + [InSeq(c)] + outer) else Place(outer, line)
    case InMap(c) =>
      if n < c then Place(outer, line) else PlaceInMap(outer, line, c)
    case Awaiting(c) =>
      if n < c || (n == c && !IsItem(line)) then Place(outer, line)
      else if n > c && !DashFirst(line) then PlaceInMap(outer, line, n)
      else if IsItem(line) then Taken(OpenedByItem(line, n) + [InSeq(n)] + outer)
      else Place(outer, line)
  }

  function Scan(open: Stack, lines: seq<string>): Verdict
    decreases |lines|
  {
    if lines == [] then Stops([]) else
    match Place(open, lines[0])
    case Refused => Rejects
    case Unclaimed => Stops(lines)
    case Taken(more) => Scan(more, lines[1..])
  }

  /** The verdict on a document. */
  function ScanDocument(lines: seq<string>): Verdict
  {
    if lines == [] then Stops([]) else
    Scan(if DashFirst(lines[0]) then [InSeq(0)] else [InMap(0)], lines)
  }

  // ----- The scan is the reader without its values -----

  /** What the scan says once a block that was read with this result is behind it. */
  function After(r: Result, outer: Stack): Verdict
  {
    if r.Ok? then Scan(outer, r.rest) else Rejects
  }

  lemma {:induction false} MapScans(isFloat: string -> bool, indent: nat, lines: seq<string>, m: map<string, Value>, outer: Stack)
    ensures Scan([InMap(indent)] + outer, lines) == After(MapF(isFloat, indent, lines, m), outer)
    decreases |lines|, 0
  {
    var open := [InMap(indent)] + outer;
    assert open[1..] == outer;
    if lines != [] && IndentOf(lines[0]) == indent && SplitKeyF(TrimLeftSpaces(lines[0])).Some? {
      KeyScans(isFloat, indent, lines, m, outer);
    }
  }

  lemma {:induction false} KeyScans(isFloat: string -> bool, indent: nat, lines: seq<string>, m: map<string, Value>, outer: Stack)
    requires lines != [] && IndentOf(lines[0]) == indent && SplitKeyF(TrimLeftSpaces(lines[0])).Some?
    ensures Scan(OpenedByKey(TrimLeftSpaces(lines[0]), indent) + [InMap(indent)] + outer, lines[1..]) ==
            After(MapF(isFloat, indent, lines, m), outer)
    decreases |lines|, 0, 0
  {
    var kv := SplitKeyF(TrimLeftSpaces(lines[0])).value;
    var text := TrimSpace(kv.1);
    var open := [InMap(indent)] + outer;
    if text != "" {
      assert [] + [InMap(indent)] + outer == open;
      MapScans(isFloat, indent, lines[1..], m[kv.0 := Scalar(isFloat, text)], outer);
    } else {
      assert [Awaiting(indent)] + [InMap(indent)] + outer == [Awaiting(indent)] + open;
      ChildScans(isFloat, indent, lines[1..], open);
      var child := ChildF(isFloat, indent, lines[1..]);
      if child.Ok? {
        MapScans(isFloat, indent, child.rest, m[kv.0 := child.v], outer);
      }
    }
  }

  lemma {:induction false} SeqScans(isFloat: string -> bool, indent: nat, lines: seq<string>, acc: seq<Value>, outer: Stack)
    ensures Scan([InSeq(indent)] + outer, lines) == After(SeqF(isFloat, indent, lines, acc), outer)
    decreases |lines|, 2
  {
    var open := [InSeq(indent)] + outer;
    if lines != [] && IndentOf(lines[0]) == indent && IsItem(lines[0]) {
      ItemScans(isFloat, indent, lines, open);
      ItemIsPlaced(indent, lines, open, outer);
      var item := ItemF(isFloat, indent, lines);
      if item.Ok? {
        SeqScans(isFloat, indent, item.rest, acc + [item.v], outer);
        SeqTurn(isFloat, indent, lines, acc, item.v, item.rest);
      }
    } else {
      NoItemIsPlaced(indent, lines, open, outer);
    }
  }

  lemma ItemIsPlaced(indent: nat, lines: seq<string>, open: Stack, outer: Stack)
    requires open == [InSeq(indent)] + outer
    requires lines != [] && IndentOf(lines[0]) == indent && IsItem(lines[0])
    ensures Scan(open, lines) == Scan(OpenedByItem(lines[0], indent) + open, lines[1..])
  {
    assert open[1..] == outer;
    assert OpenedByItem(lines[0], indent) + [InSeq(indent)] + outer == OpenedByItem(lines[0], indent) + open;
  }

  lemma NoItemIsPlaced(indent: nat, lines: seq<string>, open: Stack, outer: Stack)
    requires open == [InSeq(indent)] + outer
    requires lines == [] || IndentOf(lines[0]) != indent || !IsItem(lines[0])
    ensures Scan(open, lines) == Scan(outer, lines)
  {
    assert open[1..] == outer;
  }

  lemma {:induction false} ItemScans(isFloat: string -> bool, indent: nat, lines: seq<string>, outer: Stack)
    requires lines != []
    ensures Scan(OpenedByItem(lines[0], indent) + outer, lines[1..]) == After(ItemF(isFloat, indent, lines), outer)
    decreases |lines|, 1
  {
    var line := lines[0];
    var after := AfterDash(line);
    if after == "" {
      ChildScans(isFloat, indent, lines[1..], outer);
    } else if SplitKeyF(after).Some? {
      RewrittenIndent(line);
      var block := [Rewritten(line)] + lines[1..];
      assert block[1..] == lines[1..];
      KeyScans(isFloat, ItemIndent(line), block, map[], outer);
    } else {
      assert [] + outer == outer;
    }
  }

  lemma {:induction false} ChildScans(isFloat: string -> bool, parent: nat, lines: seq<string>, outer: Stack)
    ensures Scan([Awaiting(parent)] + outer, lines) == After(ChildF(isFloat, parent, lines), outer)
    decreases |lines|, 4
  {
    var open := [Awaiting(parent)] + outer;
    assert open[1..] == outer;
    if lines != [] {
      var n := IndentOf(lines[0]);
      if (n == parent && IsItem(lines[0])) || n > parent {
        if n == parent || DashFirst(lines[0]) {
          SeqScans(isFloat, n, lines, [], outer);
        } else {
          MapScans(isFloat, n, lines, map[], outer);
        }
        assert ([InSeq(n)] + outer)[1..] == outer && ([InMap(n)] + outer)[1..] == outer;
      }
    }
  }

  /** For every document the scan says exactly what the reader does: it refuses what the
      reader refuses, and otherwise stops at the lines the reader leaves unread. */
  lemma ScanIsTheReader(isFloat: string -> bool, lines: seq<string>)
    ensures ScanDocument(lines) == (
      var r := BlockF(isFloat, 0, lines);
      if r.Ok? then Stops(r.rest) else Rejects)
  {
    if lines != [] {
      if DashFirst(lines[0]) {
        SeqScans(isFloat, 0, lines, [], []);
        assert [InSeq(0)] + [] == [InSeq(0)];
      } else {
        MapScans(isFloat, 0, lines, map[], []);
        assert [InMap(0)] + [] == [InMap(0)];
      }
    }
  }

  /** Every line continues a block that is open when it comes. */
  predicate AllContinue(lines: seq<string>)
  {
    ScanDocument(lines) == Stops([])
  }

  /** An accepted document is read to its last line exactly when all its lines continue. */
  lemma ReadWholeIff(isFloat: string -> bool, lines: seq<string>)
    requires BlockF(isFloat, 0, lines).Ok?
    ensures BlockF(isFloat, 0, lines).rest == [] <==> AllContinue(lines)
  {
    ScanIsTheReader(isFloat, lines);
  }

  /** ToJSON accepts exactly the documents that the scan does not refuse and whose value holds,
      inside [...] too, no float without an encoding. */
  lemma AcceptedIff(isFloat: string -> bool, finite: string -> bool, lines: seq<string>)
    ensures var r := BlockF(isFloat, 0, StripCommentsF(lines));
            ReadF(isFloat, finite, lines).Parsed? <==>
            ScanDocument(StripCommentsF(lines)).Stops? && (r.Ok? ==> Encodes(finite, r.v))
  {
    ScanIsTheReader(isFloat, StripCommentsF(lines));
  }

  /** A document that gives a key a float is accepted exactly when the float is finite. */
  lemma FloatDocument(isFloat: string -> bool, finite: string -> bool, key: string, s: string)
    requires PlainKey(key) && Seamless(s) && Unreserved(s) && isFloat(s)
    ensures ReadF(isFloat, finite, [key + ":" + (" " + s)]) ==
            if finite(s) then Parsed(YMap(map[key := YFloat(s)])) else Failed
  {
    KeyDocument(isFloat, key, AFloat(s), key + ":" + (" " + s));
    OneKeyIsEncoded(isFloat, finite, [key + ":" + (" " + s)], key, YFloat(s));
  }

  /** So nan is refused where ParseFloat takes it and the encoder does not. */
  lemma NanIsRefused(isFloat: string -> bool, finite: string -> bool, key: string, s: string)
    requires PlainKey(key) && s == "nan" && isFloat(s) && !finite(s)
    ensures ReadF(isFloat, finite, [key + ":" + (" " + s)]) == Failed
  {
    NanIsNoWord(s);
    FloatDocument(isFloat, finite, key, s);
  }

  lemma NoDigitNoInteger(s: string)
    requires s != "" && s[0] != '+' && s[0] != '-' && !('0' <= s[0] <= '9')
    ensures !SaysInteger(s)
  {}

  lemma NanIsNoWord(s: string)
    requires s == "nan"
    ensures Seamless(s) && Unreserved(s)
  {
    var t := Lowered(s);
    assert |t| == 3 && t[0] == 'n';
    assert "yes"[0] == 'y' && "off"[0] == 'o';
    NoDigitNoInteger(s);
  }

  /** Every float written in the document has an encoding. */
  predicate Finite(finite: string -> bool, d: Doc)
  {
    match d
    case DAtom(a) => FiniteAtom(finite, a)
    case DFlow(atoms) => forall i :: 0 <= i < |atoms| ==> FiniteAtom(finite, atoms[i])
    case DEmpty => true
    case DSeq(items) => FiniteDocs(finite, items)
    case DMap(entries) => FiniteEntries(finite, entries)
  }

  predicate FiniteAtom(finite: string -> bool, a: Atom)
  {
    a.AFloat? ==> finite(a.text)
  }

  predicate FiniteDocs(finite: string -> bool, ds: seq<Doc>)
  {
    ds == [] || (Finite(finite, ds[0]) && FiniteDocs(finite, ds[1..]))
  }

  predicate FiniteEntries(finite: string -> bool, es: seq<Entry>)
  {
    es == [] || (Finite(finite, es[0].value) && FiniteEntries(finite, es[1..]))
  }

  lemma {:induction false} PrintedEncodes(finite: string -> bool, d: Doc)
    requires Finite(finite, d)
    ensures Encodes(finite, ValueOf(d))
    decreases d, 0
  {
    if d.DSeq? {
      PrintedItemsEncode(finite, d.items);
    } else if d.DMap? {
      PrintedEntriesEncode(finite, map[], d.entries);
    } else if d.DFlow? {
      PrintedAtomsEncode(finite, d.atoms);
    }
  }

  lemma {:induction false} PrintedAtomsEncode(finite: string -> bool, atoms: seq<Atom>)
    requires forall i :: 0 <= i < |atoms| ==> FiniteAtom(finite, atoms[i])
    ensures forall i :: 0 <= i < |atoms| ==> Encodes(finite, AtomValues(atoms)[i])
    decreases |atoms|
  {
    if atoms != [] {
      PrintedAtomsEncode(finite, atoms[1..]);
      assert Encodes(finite, AtomValue(atoms[0]));
    }
  }

  lemma {:induction false} PrintedItemsEncode(finite: string -> bool, ds: seq<Doc>)
    requires FiniteDocs(finite, ds)
    ensures forall i :: 0 <= i < |ds| ==> Encodes(finite, ValuesOf(ds)[i])
    decreases ds, 0
  {
    if ds != [] {
      PrintedEncodes(finite, ds[0]);
      PrintedItemsEncode(finite, ds[1..]);
    }
  }

  lemma {:induction false} PrintedEntriesEncode(finite: string -> bool, m: map<string, Value>, es: seq<Entry>)
    requires FiniteEntries(finite, es) && forall key :: key in m ==> Encodes(finite, m[key])
    ensures forall key :: key in Bind(m, es) ==> Encodes(finite, Bind(m, es)[key])
    decreases es, 0
  {
    if es != [] {
      PrintedEncodes(finite, es[0].value);
      PrintedEntriesEncode(finite, m[es[0].key := ValueOf(es[0].value)], es[1..]);
    }
  }

  /** Every printed document, comments and blank lines strewn in, is accepted as its value,
      encoding included. */
  lemma PrintedIsAccepted(isFloat: string -> bool, finite: string -> bool, d: Doc, step: nat, out: seq<string>)
    requires !IsScalar(d) && ValidDoc(d) && Fits(isFloat, d) && Finite(finite, d) && step > 0
    requires Commented(out, PrintBlock(d, 0, step))
    ensures ReadF(isFloat, finite, out) == Parsed(ValueOf(d))
  {
    CommentedRoundTrip(isFloat, d, step, out);
    PrintedEncodes(finite, d);
  }

  // ----- Documents the package comment says are refused, and that are accepted -----

  lemma {:induction false} StripAppend(a: seq<string>, b: seq<string>)
    ensures StripCommentsF(a + b) == StripCommentsF(a) + StripCommentsF(b)
    decreases |a|
  {
    if a == [] {
      assert a + b == b;
    } else {
      assert (a + b)[1..] == a[1..] + b;
      StripAppend(a[1..], b);
    }
  }

  /** Lines behind a top-level sequence are dropped from the first one on that stands at
      column 0 and is no item, whatever they say. */
  lemma TrailingLinesAreDropped(isFloat: string -> bool, finite: string -> bool, d: Doc, step: nat, tail: seq<string>)
    requires d.DSeq? && ValidDoc(d) && Fits(isFloat, d) && Finite(finite, d) && step > 0
    requires var ls := StripCommentsF(tail); ls != [] && IndentOf(ls[0]) == 0 && !IsItem(ls[0])
    ensures ReadF(isFloat, finite, PrintBlock(d, 0, step) + tail) == Parsed(ValueOf(d))
  {
    var block, ls := PrintBlock(d, 0, step), StripCommentsF(tail);
    BlockIsClean(d, 0, step);
    StripKeepsClean(block);
    StripAppend(block, tail);
    BlockRoundTrip(isFloat, d, 0, step, block + ls, ls);
    PrintedEncodes(finite, d);
  }

  /** A whole document is left unread, and an empty list reported for it, exactly when it
      starts like a list and not at column 0 with a dash and a space. */
  lemma NothingIsReadIff(isFloat: string -> bool, lines: seq<string>)
    requires lines != []
    ensures BlockF(isFloat, 0, lines) == Ok(YSeq([]), lines) <==>
            DashFirst(lines[0]) && (IndentOf(lines[0]) != 0 || !IsItem(lines[0]))
  {
    if DashFirst(lines[0]) && IndentOf(lines[0]) == 0 && IsItem(lines[0]) {
      var item := ItemF(isFloat, 0, lines);
      if item.Ok? {
        SeqTurn(isFloat, 0, lines, [], item.v, item.rest);
      }
    }
  }

  /** So a list indented as a whole vanishes, while a mapping indented as a whole is refused. */
  lemma IndentedListVanishes(isFloat: string -> bool, finite: string -> bool, d: Doc, column: nat, step: nat)
    requires !IsScalar(d) && ValidDoc(d) && step > 0 && column > 0
    ensures ReadF(isFloat, finite, PrintBlock(d, column, step)) == if d.DSeq? then Parsed(YSeq([])) else Failed
  {
    var lines := PrintBlock(d, column, step);
    BlockIsClean(d, column, step);
    StripKeepsClean(lines);
    IndentedBlock(d, column, step, lines);
    if d.DSeq? {
      NothingIsReadIff(isFloat, lines);
    } else {
      DeepMappingIsRefused(isFloat, lines);
    }
  }

  lemma IndentedBlock(d: Doc, column: nat, step: nat, lines: seq<string>)
    requires !IsScalar(d) && ValidDoc(d) && step > 0 && lines == PrintBlock(d, column, step)
    ensures lines != [] && IndentOf(lines[0]) == column
    ensures if d.DSeq? then DashFirst(lines[0]) else !IsItem(lines[0]) && TrimSpace(lines[0]) != "-"
  {
    if d.DSeq? {
      assert lines == lines + [];
      FirstItemLine(d.items, column, step, lines, []);
      ItemHead(d.items[0], column, step, lines[0]);
    } else {
      EntryLine(d.entries[0], column, lines[0]);
    }
  }

  lemma DeepMappingIsRefused(isFloat: string -> bool, lines: seq<string>)
    requires lines != [] && IndentOf(lines[0]) > 0 && !IsItem(lines[0]) && TrimSpace(lines[0]) != "-"
    ensures BlockF(isFloat, 0, lines) == Err
  {}

  /** A bare dash reads as null exactly when the next line is absent, shallower, or at the
      dash's column and no item. */
  lemma BareDashIsNullIff(isFloat: string -> bool, indent: nat, lines: seq<string>)
    requires lines != [] && AfterDash(lines[0]) == ""
    ensures var item := ItemF(isFloat, indent, lines);
            item.Ok? && item.v == YNull <==> EndsSeq(lines[1..], indent)
    ensures EndsSeq(lines[1..], indent) ==> ItemF(isFloat, indent, lines).rest == lines[1..]
  {
    var rest := lines[1..];
    assert ItemF(isFloat, indent, lines) == ChildF(isFloat, indent, rest);
    if rest != [] && IndentOf(rest[0]) > indent {
      assert ChildF(isFloat, indent, rest) == BlockF(isFloat, IndentOf(rest[0]), rest);
    }
  }

  /** Otherwise, at the dash's own column, it takes the items behind it as its value. */
  lemma EmptyItemSwallowsSiblings(isFloat: string -> bool, indent: nat, lines: seq<string>, acc: seq<Value>, nested: Result)
    requires |lines| > 1 && IndentOf(lines[0]) == indent && IsItem(lines[0]) && AfterDash(lines[0]) == ""
    requires IndentOf(lines[1]) == indent && IsItem(lines[1]) && nested == SeqF(isFloat, indent, lines[1..], [])
    ensures SeqF(isFloat, indent, lines, acc) ==
            if nested.Ok? then Ok(YSeq(acc + [nested.v]), nested.rest) else Err
  {
    assert ItemF(isFloat, indent, lines) == nested;
    if nested.Ok? {
      SequenceReadsItsItems(isFloat, indent, lines[1..], []);
      SeqTurn(isFloat, indent, lines, acc, nested.v, nested.rest);
    }
  }

  lemma StripDash(dash: string, lines: seq<string>, whole: seq<string>)
    requires |dash| == 1 && dash[0] == '-' && whole == [dash] + lines
    ensures StripCommentsF(whole) == [dash] + StripCommentsF(lines)
  {
    assert !IsNoise(dash) by {
      DashIsTight(dash);
    }
    assert HashAt(dash, 1, false, false) == None;
    assert whole[0] == dash && whole[1..] == lines;
  }

  lemma DashIsTight(dash: string)
    requires |dash| == 1 && dash[0] == '-'
    ensures TrimSpace(dash) == dash
  {
    assert dash == Spaces(0) + dash && dash == "-";
    DashLine(0, dash);
  }

  lemma DashOverList(isFloat: string -> bool, block: seq<string>, lines: seq<string>, v: Value)
    requires block != [] && IndentOf(block[0]) == 0 && IsItem(block[0]) && lines == ["-"] + block
    requires SeqF(isFloat, 0, block, []) == Ok(v, [])
    ensures BlockF(isFloat, 0, lines) == Ok(YSeq([v]), [])
  {
    assert Spaces(0) + "-" == "-";
    DashLine(0, "-");
    assert lines[1..] == block;
    EmptyItemSwallowsSiblings(isFloat, 0, lines, [], SeqF(isFloat, 0, block, []));
    assert [] + [v] == [v];
  }

  lemma DashIsRead(isFloat: string -> bool, finite: string -> bool, block: seq<string>, lines: seq<string>, v: Value)
    requires block != [] && IndentOf(block[0]) == 0 && IsItem(block[0]) && lines == ["-"] + block
    requires SeqF(isFloat, 0, block, []) == Ok(v, []) && StripCommentsF(block) == block && Encodes(finite, v)
    ensures ReadF(isFloat, finite, lines) == Parsed(YSeq([v]))
  {
    StripDash("-", block, lines);
    DashOverList(isFloat, block, lines, v);
  }

  /** A list whose first item is empty reads as a list of one list. */
  lemma EmptyFirstItem(isFloat: string -> bool, finite: string -> bool, d: Doc, step: nat)
    requires d.DSeq? && ValidDoc(d) && Fits(isFloat, d) && Finite(finite, d) && step > 0
    ensures ReadF(isFloat, finite, ["-"] + PrintBlock(d, 0, step)) == Parsed(YSeq([ValueOf(d)]))
  {
    var block, v := PrintBlock(d, 0, step), ValueOf(d);
    BlockIsClean(d, 0, step);
    StripKeepsClean(block);
    PrintedEncodes(finite, d);
    PrintedListReads(isFloat, d, step, block, v);
    DashIsRead(isFloat, finite, block, ["-"] + block, v);
  }

  lemma PrintedListReads(isFloat: string -> bool, d: Doc, step: nat, block: seq<string>, v: Value)
    requires d.DSeq? && ValidDoc(d) && Fits(isFloat, d) && step > 0 && block == PrintBlock(d, 0, step) && v == ValueOf(d)
    ensures block != [] && IndentOf(block[0]) == 0 && IsItem(block[0]) && SeqF(isFloat, 0, block, []) == Ok(v, [])
  {
    assert block == block + [];
    FirstItemLine(d.items, 0, step, block, []);
    ItemHead(d.items[0], 0, step, block[0]);
    BlockRoundTrip(isFloat, d, 0, step, block, []);
  }

  /** The characters that open an anchor, an alias, a tag, a block scalar, a flow mapping, a
      directive or a reserved token. */
  predicate IsIndicator(c: char)
  {
    c == '&' || c == '*' || c == '!' || c == '|' || c == '>' || c == '{' || c == '%' || c == '@' || c == '`'
  }

  /** None of them is refused: the token is taken as a plain text. */
  lemma IndicatorIsText(isFloat: string -> bool, s: string)
    requires Tight(s) && IsIndicator(s[0]) && !isFloat(s)
    ensures Scalar(isFloat, s) == YStr(s)
  {
    TightIsTrimmed(s);
    StartsNoWord(s);
    WordsIff(s);
    assert !IsDigit(s[0]) && ParseInt(s) == None;
  }

  /** A document that gives one of them to a key is accepted, with the text as the value. */
  lemma IndicatorDocument(isFloat: string -> bool, finite: string -> bool, key: string, s: string)
    requires PlainKey(key) && Seamless(s) && IsIndicator(s[0]) && !isFloat(s)
    ensures ReadF(isFloat, finite, [key + ":" + (" " + s)]) == Parsed(YMap(map[key := YStr(s)]))
  {
    StartsNoWord(s);
    NoDigitNoInteger(s);
    KeyDocument(isFloat, key, AStr(s, Bare), key + ":" + (" " + s));
    OneKeyIsEncoded(isFloat, finite, [key + ":" + (" " + s)], key, YStr(s));
  }

  /** Only the mark is: the body of a block scalar stands deeper than its key, and a line deeper
      than a key with a scalar is refused. */
  lemma DeeperThanScalarIsRefused(isFloat: string -> bool, l: string, ls: seq<string>, key: string, tail: string)
    requires IndentOf(l) == 0 && !DashFirst(l) && SplitKeyF(TrimLeftSpaces(l)) == Some((key, tail))
    requires TrimSpace(tail) != "" && ls != [] && IndentOf(ls[0]) > 0
    ensures BlockF(isFloat, 0, [l] + ls) == Err
  {
    MapScalarTurn(isFloat, 0, l, ls, map[], key, tail);
  }

  /** A document of one key with a scalar behind it. */
  lemma KeyDocument(isFloat: string -> bool, key: string, a: Atom, l: string)
    requires PlainKey(key) && ValidAtom(a) && FitsAtom(isFloat, a) && l == key + ":" + (" " + AtomText(a))
    ensures BlockF(isFloat, 0, StripCommentsF([l])) == Ok(YMap(map[key := AtomValue(a)]), [])
  {
    var e := Entry(key, Bare, " ", DAtom(a), false);
    assert ValidEntries([]) && FitEntries(isFloat, []);
    assert [e][1..] == [];
    OneKeyIsPrinted(e, l);
    OneKeyIsBound(e);
    DocumentRoundTrip(isFloat, DMap([e]), 1);
  }

  lemma OneKeyIsPrinted(e: Entry, l: string)
    requires HasText(e.value) && l == EntryHead(e)
    ensures PrintBlock(DMap([e]), 0, 1) == [l]
  {
    assert Spaces(0) + l == l && [e][1..] == [];
    assert PrintEntries([e], 0, 1) == [Spaces(0) + EntryHead(e)] + [] + PrintEntries([], 0, 1);
  }

  lemma OneKeyIsBound(e: Entry)
    ensures ValueOf(DMap([e])) == YMap(map[e.key := ValueOf(e.value)])
  {
    assert [e][1..] == [];
    assert Bind(map[], [e]) == map[][e.key := ValueOf(e.value)];
  }

  lemma OneKeyIsEncoded(isFloat: string -> bool, finite: string -> bool, lines: seq<string>, key: string, v: Value)
    requires BlockF(isFloat, 0, StripCommentsF(lines)) == Ok(YMap(map[key := v]), [])
    ensures ReadF(isFloat, finite, lines) == if Encodes(finite, v) then Parsed(YMap(map[key := v])) else Failed
  {
    assert key in map[key := v];
  }
}

/** A block printer for the values the subset can carry, in every spelling of YamlSpelling, and
    the proof that the reader gives them back. */
module YamlPrint {
  import opened Options
  import opened Text
  import opened YamlSpelling
  import opened YamlText
  import opened Yaml

  /** A document in writing order: a scalar, a list in brackets, nothing at all, or a block.  A
      sequence under a key may sit at the key's own column (flush), as Kubernetes manifests write
      it, or deeper. */
  datatype Doc =
    | DAtom(a: Atom)
    | DFlow(atoms: seq<Atom>)
    | DEmpty
    | DSeq(items: seq<Doc>)
    | DMap(entries: seq<Entry>)

  /** A key, in quotes or not, the blanks behind its colon and its value. */
  datatype Entry = Entry(key: string, quote: Quote, pad: string, value: Doc, flush: bool)

  predicate HasText(d: Doc)
  {
    d.DAtom? || d.DFlow?
  }

  predicate IsScalar(d: Doc)
  {
    !d.DSeq? && !d.DMap?
  }

  /** An item may be empty only behind all others: it takes those behind it for its value. */
  predicate ValidDoc(d: Doc)
  {
    match d
    case DAtom(a) => ValidAtom(a)
    case DFlow(atoms) => ValidAtoms(atoms)
    case DEmpty => true
    case DSeq(items) => items != [] && ValidDocs(items)
    case DMap(entries) => entries != [] && ValidEntries(entries)
  }

  predicate ValidDocs(ds: seq<Doc>)
  {
    ds == [] || (ValidDoc(ds[0]) && (ds[0].DEmpty? ==> |ds| == 1) && ValidDocs(ds[1..]))
  }

  predicate IsPad(s: string)
  {
    s != "" && forall i :: 0 <= i < |s| ==> IsBlank(s[i])
  }

  predicate ValidHead(e: Entry)
  {
    ValidKey(e.key, e.quote) && IsPad(e.pad)
  }

  predicate ValidEntries(es: seq<Entry>)
  {
    es == [] || (ValidHead(es[0]) && ValidDoc(es[0].value) && ValidEntries(es[1..]))
  }

  /** The float parser takes the floats of the document and no other text. */
  predicate Fits(isFloat: string -> bool, d: Doc)
  {
    match d
    case DAtom(a) => FitsAtom(isFloat, a)
    case DFlow(atoms) => FitAtoms(isFloat, atoms) && !isFloat(FlowText(atoms))
    case DEmpty => true
    case DSeq(items) => FitDocs(isFloat, items)
    case DMap(entries) => FitEntries(isFloat, entries)
  }

  predicate FitDocs(isFloat: string -> bool, ds: seq<Doc>)
  {
    ds == [] || (Fits(isFloat, ds[0]) && FitDocs(isFloat, ds[1..]))
  }

  predicate FitEntries(isFloat: string -> bool, es: seq<Entry>)
  {
    es == [] || (Fits(isFloat, es[0].value) && FitEntries(isFloat, es[1..]))
  }

  /** The value a document stands for. */
  function ValueOf(d: Doc): Value
  {
    match d
    case DAtom(a) => AtomValue(a)
    case DFlow(atoms) => YSeq(AtomValues(atoms))
    case DEmpty => YNull
    case DSeq(items) => YSeq(ValuesOf(items))
    case DMap(entries) => YMap(Bind(map[], entries))
  }

  function ValuesOf(ds: seq<Doc>): (vs: seq<Value>)
    ensures |vs| == |ds|
  {
    if ds == [] then [] else [ValueOf(ds[0])] + ValuesOf(ds[1..])
  }

  function Bind(m: map<string, Value>, es: seq<Entry>): map<string, Value>
    decreases es
  {
    if es == [] then m else Bind(m[es[0].key := ValueOf(es[0].value)], es[1..])
  }

  // ----- Scalars -----

  function ScalarText(d: Doc): string
    requires HasText(d)
  {
    match d
    case DAtom(a) => AtomText(a)
    case DFlow(atoms) => FlowText(atoms)
  }

  lemma ScalarTextIsTight(d: Doc)
    requires HasText(d) && ValidDoc(d)
    ensures Tight(ScalarText(d)) && Without(ScalarText(d), '\n')
  {
    match d
    case DAtom(a) => AtomIsOneLine(a);
    case DFlow(atoms) => FlowIsOneLine(atoms);
  }

  /** Reading a scalar, or a list in brackets, in any of its spellings gives its value. */
  lemma ScalarRoundTrip(isFloat: string -> bool, d: Doc, s: string)
    requires HasText(d) && ValidDoc(d) && Fits(isFloat, d) && s == ScalarText(d)
    ensures Scalar(isFloat, s) == ValueOf(d)
  {
    match d
    case DAtom(a) => AtomRoundTrip(isFloat, a, s);
    case DFlow(atoms) => FlowRoundTrip(isFloat, atoms, s);
  }

  lemma ScalarTextIsNeutral(d: Doc)
    requires HasText(d) && ValidDoc(d)
    ensures Neutral(ScalarText(d))
  {
    match d
    case DAtom(a) => AtomIsNeutral(a);
    case DFlow(atoms) => FlowIsNeutral(atoms);
  }

  /** A printed scalar is never taken for a key. */
  lemma ScalarTextHasNoKey(d: Doc, s: string)
    requires HasText(d) && ValidDoc(d) && s == ScalarText(d)
    ensures SplitKeyF(s) == None
  {
    ScalarTextIsNeutral(d);
    assert PassedIn("", s, "");
    assert "" + s + "" == s;
  }

  // ----- Blocks -----

  /** What stands behind the key. */
  function EntryTail(e: Entry): string
  {
    if HasText(e.value) then e.pad + ScalarText(e.value) else ""
  }

  function EntryHead(e: Entry): string
  {
    Quoted(e.key, e.quote) + ":" + EntryTail(e)
  }

  /** The column of the block under a key. */
  function ValueColumn(e: Entry, indent: nat, step: nat): nat
  {
    if e.flush && e.value.DSeq? then indent else indent + step
  }

  function PrintBlock(d: Doc, indent: nat, step: nat): seq<string>
    requires !IsScalar(d)
    decreases d, 0
  {
    match d
    case DMap(entries) => PrintEntries(entries, indent, step)
    case DSeq(items) => PrintItems(items, indent, step)
  }

  function PrintEntries(es: seq<Entry>, indent: nat, step: nat): seq<string>
    decreases es
  {
    if es == [] then []
    else [Spaces(indent) + EntryHead(es[0])] + PrintValue(es[0], indent, step) + PrintEntries(es[1..], indent, step)
  }

  function PrintValue(e: Entry, indent: nat, step: nat): seq<string>
    decreases e, 1
  {
    if IsScalar(e.value) then [] else PrintBlock(e.value, ValueColumn(e, indent, step), step)
  }

  function PrintItems(ds: seq<Doc>, indent: nat, step: nat): seq<string>
    decreases ds
  {
    if ds == [] then [] else PrintItem(ds[0], indent, step) + PrintItems(ds[1..], indent, step)
  }

  /** A mapping starts on the dash line; a nested sequence starts on the next line. */
  function PrintItem(d: Doc, indent: nat, step: nat): seq<string>
    decreases d, 1
  {
    match d
    case DSeq(items) => [Spaces(indent) + "-"] + PrintItems(items, indent + step, step)
    case DMap(entries) =>
      if entries == [] then [] else
      [Spaces(indent) + ("- " + EntryHead(entries[0]))] + PrintValue(entries[0], indent + 2, step)
        + PrintEntries(entries[1..], indent + 2, step)
    case DEmpty => [Spaces(indent) + "-"]
    case _ => [Spaces(indent) + ("- " + ScalarText(d))]
  }

  // ----- What the reader sees on each kind of printed line -----

  lemma PadIsTrimmed(pad: string, text: string, tail: string)
    requires IsPad(pad) && Tight(text) && tail == pad + text
    ensures TrimSpace(tail) == text
    decreases |pad|
  {
    assert tail[1..] == pad[1..] + text;
    if |pad| == 1 {
      assert tail[1..] == text;
      TightIsTrimmed(text);
    } else {
      PadIsTrimmed(pad[1..], text, tail[1..]);
    }
  }

  lemma EntryTailShape(e: Entry)
    requires ValidHead(e) && ValidDoc(e.value)
    ensures var tail := EntryTail(e);
            && (tail != "" ==> IsBlank(tail[0]) && !IsSpace(tail[|tail| - 1]))
            && (if HasText(e.value) then TrimSpace(tail) == ScalarText(e.value) != "" else tail == "")
  {
    if HasText(e.value) {
      ScalarTextIsTight(e.value);
      PadIsTrimmed(e.pad, ScalarText(e.value), EntryTail(e));
    }
  }

  lemma HeadIsTight(key: string, tail: string, head: string)
    requires Tight(key) && key[0] != '#' && (key[0] == '-' && |key| > 1 ==> key[1] != ' ')
    requires head == key + ":" + tail && (tail != "" ==> !IsSpace(tail[|tail| - 1]))
    ensures Tight(head) && !IsDash(head) && head[0] == key[0] && !HasPrefix(head, "#")
  {
    assert head[0] == key[0] && head[1] == if |key| > 1 then key[1] else ':';
    assert head[|head| - 1] == if tail == "" then ':' else tail[|tail| - 1];
  }

  /** A key line: its indent, its key, and no dash. */
  lemma EntryLine(e: Entry, indent: nat, l: string)
    requires ValidHead(e) && ValidDoc(e.value) && l == Spaces(indent) + EntryHead(e)
    ensures IndentOf(l) == indent && TrimLeftSpaces(l) == EntryHead(e) == TrimSpace(l) && Tight(EntryHead(e))
    ensures SplitKeyF(EntryHead(e)) == Some((e.key, EntryTail(e)))
    ensures !IsDash(EntryHead(e)) && !HasPrefix(EntryHead(e), "#")
  {
    var head := EntryHead(e);
    EntryTailShape(e);
    KeyTextIsTight(e.key, e.quote, Quoted(e.key, e.quote));
    HeadIsTight(Quoted(e.key, e.quote), EntryTail(e), head);
    KeyRoundTrip(e.key, e.quote, EntryTail(e));
    IndentOfSpaces(indent, head);
    TrimTight(indent, head);
  }

  /** A dash line with content. */
  lemma ItemLine(content: string, indent: nat, l: string)
    requires content != "" && content[0] != ' ' && l == Spaces(indent) + ("- " + content)
    ensures IndentOf(l) == indent && IsItem(l) && AfterDash(l) == content && HasPrefix(TrimLeftSpaces(l), "- ")
    ensures ItemIndent(l) == indent + 2 && Rewritten(l) == Spaces(indent + 2) + content
  {
    var c := "- " + content;
    IndentOfSpaces(indent, c);
    assert c[1..] == " " + content && (" " + content)[1..] == content;
    assert LeadingDashes(c[1..]) == 0;
    assert TrimLeftSpaces(c[1..]) == TrimLeftSpaces(content) == content;
  }

  /** A bare dash. */
  lemma DashLine(indent: nat, l: string)
    requires l == Spaces(indent) + "-"
    ensures IndentOf(l) == indent && IsItem(l) && AfterDash(l) == "" && TrimSpace(l) == "-"
  {
    IndentOfSpaces(indent, "-");
    TrimTight(indent, "-");
    assert "-"[1..] == "";
  }

  /** What may follow a sequence at the given column: the end, a shallower line, or a line at
      the same column that is no item. */
  predicate EndsSeq(rest: seq<string>, indent: nat)
  {
    rest == [] || IndentOf(rest[0]) < indent || (IndentOf(rest[0]) == indent && !IsItem(rest[0]))
  }

  predicate Shallower(rest: seq<string>, indent: nat)
  {
    rest == [] || IndentOf(rest[0]) < indent
  }

  // ----- One turn of each loop of the reader -----

  lemma ScalarEntryTurn(isFloat: string -> bool, e: Entry, indent: nat, l: string, ls: seq<string>, m: map<string, Value>)
    requires ValidHead(e) && ValidDoc(e.value) && Fits(isFloat, e.value) && HasText(e.value)
    requires l == Spaces(indent) + EntryHead(e)
    ensures MapF(isFloat, indent, [l] + ls, m) == MapF(isFloat, indent, ls, m[e.key := ValueOf(e.value)])
  {
    EntryLine(e, indent, l);
    EntryTailShape(e);
    ScalarRoundTrip(isFloat, e.value, ScalarText(e.value));
    MapScalarTurn(isFloat, indent, l, ls, m, e.key, EntryTail(e));
  }

  lemma MapScalarTurn(isFloat: string -> bool, indent: nat, l: string, ls: seq<string>, m: map<string, Value>,
                      key: string, tail: string)
    requires IndentOf(l) == indent && SplitKeyF(TrimLeftSpaces(l)) == Some((key, tail)) && TrimSpace(tail) != ""
    ensures MapF(isFloat, indent, [l] + ls, m) == MapF(isFloat, indent, ls, m[key := Scalar(isFloat, TrimSpace(tail))])
  {
    assert ([l] + ls)[1..] == ls;
  }

  lemma MapBlockTurn(isFloat: string -> bool, indent: nat, lines: seq<string>, m: map<string, Value>,
                     key: string, v: Value, rest: seq<string>)
    requires lines != [] && IndentOf(lines[0]) == indent && SplitKeyF(TrimLeftSpaces(lines[0])) == Some((key, ""))
    requires ChildF(isFloat, indent, lines[1..]) == Ok(v, rest)
    ensures MapF(isFloat, indent, lines, m) == MapF(isFloat, indent, rest, m[key := v])
  {
    assert TrimSpace("") == "";
  }

  lemma SeqTurn(isFloat: string -> bool, indent: nat, lines: seq<string>, acc: seq<Value>, v: Value, rest: seq<string>)
    requires lines != [] && IndentOf(lines[0]) == indent && IsItem(lines[0])
    requires ItemF(isFloat, indent, lines) == Ok(v, rest)
    ensures SeqF(isFloat, indent, lines, acc) == SeqF(isFloat, indent, rest, acc + [v])
  {}

  // ----- Round trip, by the structure of the document -----

  lemma {:induction false} EntriesRoundTrip(isFloat: string -> bool, es: seq<Entry>, indent: nat, step: nat,
                                            lines: seq<string>, rest: seq<string>, m: map<string, Value>)
    requires step > 0 && ValidEntries(es) && FitEntries(isFloat, es) && Shallower(rest, indent)
    requires lines == PrintEntries(es, indent, step) + rest
    ensures MapF(isFloat, indent, lines, m) == Ok(YMap(Bind(m, es)), rest)
    decreases es, 0
  {
    if es == [] {
      assert lines == rest;
    } else {
      var after := PrintEntries(es[1..], indent, step) + rest;
      assert lines == [Spaces(indent) + EntryHead(es[0])] + PrintValue(es[0], indent, step) + after;
      NextEntryEndsSeq(es[1..], indent, step, after, rest);
      EntryRoundTrip(isFloat, es[0], indent, step, lines, after, m);
      EntriesRoundTrip(isFloat, es[1..], indent, step, after, rest, m[es[0].key := ValueOf(es[0].value)]);
    }
  }

  lemma {:induction false} EntryRoundTrip(isFloat: string -> bool, e: Entry, indent: nat, step: nat,
                                          lines: seq<string>, after: seq<string>, m: map<string, Value>)
    requires step > 0 && ValidHead(e) && ValidDoc(e.value) && Fits(isFloat, e.value) && EndsSeq(after, indent)
    requires lines == [Spaces(indent) + EntryHead(e)] + PrintValue(e, indent, step) + after
    ensures MapF(isFloat, indent, lines, m) == MapF(isFloat, indent, after, m[e.key := ValueOf(e.value)])
    decreases e, 0
  {
    var l := lines[0];
    var block := lines[1..];
    assert lines == [l] + block;
    if HasText(e.value) {
      assert block == after;
      ScalarEntryTurn(isFloat, e, indent, l, after, m);
    } else if e.value.DEmpty? {
      assert block == after;
      EntryLine(e, indent, l);
      MapBlockTurn(isFloat, indent, lines, m, e.key, YNull, after);
    } else {
      ChildRoundTrip(isFloat, e.value, indent, ValueColumn(e, indent, step), step, block, after);
      EntryLine(e, indent, l);
      MapBlockTurn(isFloat, indent, lines, m, e.key, ValueOf(e.value), after);
    }
  }

  lemma NextEntryEndsSeq(es: seq<Entry>, indent: nat, step: nat, lines: seq<string>, rest: seq<string>)
    requires ValidEntries(es) && Shallower(rest, indent) && lines == PrintEntries(es, indent, step) + rest
    ensures EndsSeq(lines, indent)
  {
    if es != [] {
      EntryLine(es[0], indent, lines[0]);
    } else {
      assert lines == rest;
    }
  }

  lemma {:induction false} ItemsRoundTrip(isFloat: string -> bool, ds: seq<Doc>, indent: nat, step: nat,
                                          lines: seq<string>, rest: seq<string>, acc: seq<Value>)
    requires step > 0 && ValidDocs(ds) && FitDocs(isFloat, ds) && EndsSeq(rest, indent)
    requires lines == PrintItems(ds, indent, step) + rest
    ensures SeqF(isFloat, indent, lines, acc) == Ok(YSeq(acc + ValuesOf(ds)), rest)
    decreases ds, 0
  {
    if ds == [] {
      assert lines == rest && acc + ValuesOf(ds) == acc;
    } else {
      var d := ds[0];
      var after := PrintItems(ds[1..], indent, step) + rest;
      ItemsSplit(ds, indent, step, lines, after, rest);
      NextItemIndent(ds[1..], indent, step, after, rest);
      ItemRoundTrip(isFloat, d, indent, step, lines, after);
      SeqTurn(isFloat, indent, lines, acc, ValueOf(d), after);
      ItemsRoundTrip(isFloat, ds[1..], indent, step, after, rest, acc + [ValueOf(d)]);
      OneMoreValue(acc, ValueOf(d), ValuesOf(ds[1..]), ValuesOf(ds));
    }
  }

  lemma ItemsSplit(ds: seq<Doc>, indent: nat, step: nat, lines: seq<string>, after: seq<string>, rest: seq<string>)
    requires ds != [] && lines == PrintItems(ds, indent, step) + rest
    requires after == PrintItems(ds[1..], indent, step) + rest
    ensures lines == PrintItem(ds[0], indent, step) + after
  {}

  lemma OneMoreValue(acc: seq<Value>, v: Value, vs: seq<Value>, all: seq<Value>)
    requires all == [v] + vs
    ensures acc + [v] + vs == acc + all
  {}

  lemma NextItemIndent(ds: seq<Doc>, indent: nat, step: nat, lines: seq<string>, rest: seq<string>)
    requires ValidDocs(ds) && EndsSeq(rest, indent) && lines == PrintItems(ds, indent, step) + rest
    ensures Shallower(lines, indent + 1)
  {
    if ds != [] {
      FirstItemLine(ds, indent, step, lines, rest);
      ItemHead(ds[0], indent, step, lines[0]);
    } else {
      assert lines == rest;
    }
  }

  /** The first line of an item. */
  lemma ItemHead(d: Doc, indent: nat, step: nat, l: string)
    requires ValidDoc(d) && PrintItem(d, indent, step)[0] == l
    ensures IndentOf(l) == indent && IsItem(l)
    ensures HasPrefix(TrimLeftSpaces(l), "- ") || TrimSpace(l) == "-"
  {
    if d.DSeq? {
      DashLine(indent, l);
    } else if d.DEmpty? {
      DashLine(indent, l);
    } else if d.DMap? {
      EntryLine(d.entries[0], 0, Spaces(0) + EntryHead(d.entries[0]));
      ItemLine(EntryHead(d.entries[0]), indent, l);
    } else {
      ScalarTextIsTight(d);
      ItemLine(ScalarText(d), indent, l);
    }
  }

  lemma {:induction false} ItemRoundTrip(isFloat: string -> bool, d: Doc, indent: nat, step: nat,
                                         lines: seq<string>, rest: seq<string>)
    requires step > 0 && ValidDoc(d) && Fits(isFloat, d) && Shallower(rest, indent + 1)
    requires d.DEmpty? ==> EndsSeq(rest, indent)
    requires lines == PrintItem(d, indent, step) + rest
    ensures lines != [] && IndentOf(lines[0]) == indent && IsItem(lines[0])
    ensures ItemF(isFloat, indent, lines) == Ok(ValueOf(d), rest)
    decreases d, 3
  {
    ItemHead(d, indent, step, lines[0]);
    if d.DSeq? {
      SeqItemRoundTrip(isFloat, d, indent, step, lines, rest);
    } else if d.DMap? {
      MapItemRoundTrip(isFloat, d, indent, step, lines, rest);
    } else if d.DEmpty? {
      DashLine(indent, lines[0]);
      assert lines[1..] == rest;
    } else {
      ScalarItemRoundTrip(isFloat, d, indent, lines, rest);
    }
  }

  lemma ScalarItemRoundTrip(isFloat: string -> bool, d: Doc, indent: nat, lines: seq<string>, rest: seq<string>)
    requires HasText(d) && ValidDoc(d) && Fits(isFloat, d)
    requires lines == [Spaces(indent) + ("- " + ScalarText(d))] + rest
    ensures ItemF(isFloat, indent, lines) == Ok(ValueOf(d), rest)
  {
    var text := ScalarText(d);
    ScalarTextIsTight(d);
    ItemLine(text, indent, lines[0]);
    ScalarTextHasNoKey(d, text);
    ScalarRoundTrip(isFloat, d, text);
    assert lines[1..] == rest;
  }

  lemma {:induction false} SeqItemRoundTrip(isFloat: string -> bool, d: Doc, indent: nat, step: nat,
                                            lines: seq<string>, rest: seq<string>)
    requires step > 0 && d.DSeq? && ValidDoc(d) && Fits(isFloat, d) && Shallower(rest, indent + 1)
    requires lines == PrintItem(d, indent, step) + rest
    ensures ItemF(isFloat, indent, lines) == Ok(ValueOf(d), rest)
    decreases d, 2
  {
    DashLine(indent, lines[0]);
    var block := PrintBlock(d, indent + step, step) + rest;
    assert lines[1..] == block;
    ChildRoundTrip(isFloat, d, indent, indent + step, step, block, rest);
  }

  lemma {:induction false} MapItemRoundTrip(isFloat: string -> bool, d: Doc, indent: nat, step: nat,
                                            lines: seq<string>, rest: seq<string>)
    requires step > 0 && d.DMap? && ValidDoc(d) && Fits(isFloat, d) && Shallower(rest, indent + 1)
    requires lines == PrintItem(d, indent, step) + rest
    ensures ItemF(isFloat, indent, lines) == Ok(ValueOf(d), rest)
    decreases d, 2
  {
    var e := d.entries[0];
    var l' := Spaces(indent + 2) + EntryHead(e);
    EntryLine(e, indent + 2, l');
    ItemLine(EntryHead(e), indent, lines[0]);
    MapItemShape(d, indent, step, lines, rest, l');
    EntriesRoundTrip(isFloat, d.entries, indent + 2, step, [l'] + lines[1..], rest, map[]);
  }

  /** With its dash line rewritten, a mapping item is the mapping's own block. */
  lemma MapItemShape(d: Doc, indent: nat, step: nat, lines: seq<string>, rest: seq<string>, l': string)
    requires d.DMap? && d.entries != [] && lines == PrintItem(d, indent, step) + rest
    requires l' == Spaces(indent + 2) + EntryHead(d.entries[0])
    ensures [l'] + lines[1..] == PrintEntries(d.entries, indent + 2, step) + rest
  {
    var dash := Spaces(indent) + ("- " + EntryHead(d.entries[0]));
    var value := PrintValue(d.entries[0], indent + 2, step);
    OtherHead(dash, l', value, PrintEntries(d.entries[1..], indent + 2, step), rest, lines);
  }

  lemma OtherHead(l: string, l': string, a: seq<string>, b: seq<string>, c: seq<string>, lines: seq<string>)
    requires lines == [l] + a + b + c
    ensures [l'] + lines[1..] == [l'] + a + b + c
  {}

  lemma {:induction false} ChildRoundTrip(isFloat: string -> bool, d: Doc, parent: nat, column: nat, step: nat,
                                          lines: seq<string>, rest: seq<string>)
    requires step > 0 && !IsScalar(d) && ValidDoc(d) && Fits(isFloat, d)
    requires column > parent || (column == parent && d.DSeq?)
    requires EndsSeq(rest, parent) || (column > parent && Shallower(rest, parent + 1))
    requires lines == PrintBlock(d, column, step) + rest
    ensures ChildF(isFloat, parent, lines) == Ok(ValueOf(d), rest)
    decreases d, 1
  {
    BlockRoundTrip(isFloat, d, column, step, lines, rest);
  }

  lemma {:induction false} BlockRoundTrip(isFloat: string -> bool, d: Doc, column: nat, step: nat,
                                          lines: seq<string>, rest: seq<string>)
    requires step > 0 && !IsScalar(d) && ValidDoc(d) && Fits(isFloat, d)
    requires Shallower(rest, column) || (d.DSeq? && EndsSeq(rest, column))
    requires lines == PrintBlock(d, column, step) + rest
    ensures lines != [] && IndentOf(lines[0]) == column && (IsItem(lines[0]) <==> d.DSeq?)
    ensures BlockF(isFloat, column, lines) == Ok(ValueOf(d), rest)
    ensures d.DSeq? ==> SeqF(isFloat, column, lines, []) == Ok(ValueOf(d), rest)
    decreases d, 0
  {
    if d.DSeq? {
      FirstItemLine(d.items, column, step, lines, rest);
      ItemHead(d.items[0], column, step, lines[0]);
      ItemsRoundTrip(isFloat, d.items, column, step, lines, rest, []);
      assert [] + ValuesOf(d.items) == ValuesOf(d.items);
    } else {
      EntryLine(d.entries[0], column, lines[0]);
      EntriesRoundTrip(isFloat, d.entries, column, step, lines, rest, map[]);
    }
  }

  lemma FirstItemLine(ds: seq<Doc>, column: nat, step: nat, lines: seq<string>, rest: seq<string>)
    requires ds != [] && ValidDoc(ds[0]) && lines == PrintItems(ds, column, step) + rest
    ensures lines != [] && PrintItem(ds[0], column, step) != [] && lines[0] == PrintItem(ds[0], column, step)[0]
  {}

  // ----- Comments -----

  /** A line that is no noise, holds no comment and does not end in a blank. */
  ghost predicate Clean(l: string)
  {
    !IsNoise(l) && NoComment(l) && l != "" && !IsBlank(l[|l| - 1])
  }

  ghost predicate AllClean(ls: seq<string>)
  {
    forall i :: 0 <= i < |ls| ==> Clean(ls[i])
  }

  lemma CleanIsKept(l: string)
    requires Clean(l)
    ensures StripInlineF(l) == l
  {
    assert NoCommentIn("", l, "");
    assert "" + l + "" == l;
  }

  lemma {:induction false} StripKeepsClean(ls: seq<string>)
    requires AllClean(ls)
    ensures StripCommentsF(ls) == ls
    decreases ls
  {
    if ls != [] {
      CleanIsKept(ls[0]);
      StripKeepsClean(ls[1..]);
    }
  }

  lemma EntryHeadHasNoComment(e: Entry)
    requires ValidHead(e) && ValidDoc(e.value)
    ensures NoComment(EntryHead(e))
  {
    var key, tail := Quoted(e.key, e.quote), EntryTail(e);
    KeyHasNoComment(e.key, e.quote);
    MarksHaveNoComment(":");
    NoCommentAppend(key, ":", key + ":");
    if HasText(e.value) {
      MarksHaveNoComment(e.pad);
      ScalarTextIsNeutral(e.value);
      NeutralHasNoComment(ScalarText(e.value));
      NoCommentAppend(e.pad, ScalarText(e.value), tail);
    } else {
      MarksHaveNoComment(tail);
    }
    NoCommentAppend(key + ":", tail, EntryHead(e));
  }

  lemma IndentedIsClean(indent: nat, content: string, l: string)
    requires Tight(content) && !HasPrefix(content, "#") && NoComment(content) && l == Spaces(indent) + content
    ensures Clean(l)
  {
    TrimTight(indent, content);
    MarksHaveNoComment(Spaces(indent));
    NoCommentAppend(Spaces(indent), content, l);
    assert l[|l| - 1] == content[|content| - 1];
  }

  lemma EntryLineIsClean(e: Entry, indent: nat)
    requires ValidHead(e) && ValidDoc(e.value)
    ensures Clean(Spaces(indent) + EntryHead(e))
  {
    var l := Spaces(indent) + EntryHead(e);
    EntryLine(e, indent, l);
    EntryHeadHasNoComment(e);
    IndentedIsClean(indent, EntryHead(e), l);
  }

  lemma ItemLineIsClean(content: string, indent: nat, l: string)
    requires Tight(content) && NoComment(content) && l == Spaces(indent) + ("- " + content)
    ensures Clean(l)
  {
    var c := "- " + content;
    assert c[0] == '-' && c[|c| - 1] == content[|content| - 1];
    MarksHaveNoComment("- ");
    NoCommentAppend("- ", content, c);
    IndentedIsClean(indent, c, l);
  }

  lemma {:induction false} EntriesAreClean(es: seq<Entry>, indent: nat, step: nat)
    requires ValidEntries(es)
    ensures AllClean(PrintEntries(es, indent, step))
    decreases es, 0
  {
    if es != [] {
      EntryLineIsClean(es[0], indent);
      ValueIsClean(es[0], indent, step);
      EntriesAreClean(es[1..], indent, step);
    }
  }

  lemma {:induction false} ValueIsClean(e: Entry, indent: nat, step: nat)
    requires ValidDoc(e.value)
    ensures AllClean(PrintValue(e, indent, step))
    decreases e, 0
  {
    if !IsScalar(e.value) {
      BlockIsClean(e.value, ValueColumn(e, indent, step), step);
    }
  }

  lemma {:induction false} BlockIsClean(d: Doc, indent: nat, step: nat)
    requires !IsScalar(d) && ValidDoc(d)
    ensures AllClean(PrintBlock(d, indent, step))
    decreases d, 0
  {
    if d.DSeq? {
      ItemsAreClean(d.items, indent, step);
    } else {
      EntriesAreClean(d.entries, indent, step);
    }
  }

  lemma {:induction false} ItemsAreClean(ds: seq<Doc>, indent: nat, step: nat)
    requires ValidDocs(ds)
    ensures AllClean(PrintItems(ds, indent, step))
    decreases ds, 0
  {
    if ds != [] {
      ItemIsClean(ds[0], indent, step);
      ItemsAreClean(ds[1..], indent, step);
    }
  }

  lemma {:induction false} ItemIsClean(d: Doc, indent: nat, step: nat)
    requires ValidDoc(d)
    ensures AllClean(PrintItem(d, indent, step))
    decreases d, 1
  {
    if d.DSeq? {
      DashIsClean(indent);
      ItemsAreClean(d.items, indent + step, step);
    } else if d.DEmpty? {
      DashIsClean(indent);
    } else if d.DMap? {
      MapItemIsClean(d, indent, step);
    } else {
      ScalarItemLineIsClean(d, indent);
    }
  }

  lemma {:induction false} MapItemIsClean(d: Doc, indent: nat, step: nat)
    requires d.DMap? && ValidDoc(d)
    ensures AllClean(PrintItem(d, indent, step))
    decreases d, 0
  {
    EntryItemLineIsClean(d.entries[0], indent);
    ValueIsClean(d.entries[0], indent + 2, step);
    EntriesAreClean(d.entries[1..], indent + 2, step);
  }

  lemma DashIsClean(indent: nat)
    ensures Clean(Spaces(indent) + "-")
  {
    MarksHaveNoComment("-");
    IndentedIsClean(indent, "-", Spaces(indent) + "-");
  }

  lemma EntryItemLineIsClean(e: Entry, indent: nat)
    requires ValidHead(e) && ValidDoc(e.value)
    ensures Clean(Spaces(indent) + ("- " + EntryHead(e)))
  {
    EntryLine(e, 0, Spaces(0) + EntryHead(e));
    EntryHeadHasNoComment(e);
    ItemLineIsClean(EntryHead(e), indent, Spaces(indent) + ("- " + EntryHead(e)));
  }

  lemma ScalarItemLineIsClean(d: Doc, indent: nat)
    requires ValidDoc(d) && HasText(d)
    ensures Clean(Spaces(indent) + ("- " + ScalarText(d)))
  {
    ScalarTextIsTight(d);
    ScalarTextIsNeutral(d);
    NeutralHasNoComment(ScalarText(d));
    ItemLineIsClean(ScalarText(d), indent, Spaces(indent) + ("- " + ScalarText(d)));
  }

  // ----- Comments come and go -----

  /** A blank line, or a comment by itself. */
  predicate IsRemark(l: string)
  {
    exists n: nat {:trigger Spaces(n)} :: n <= |l| && l[..n] == Spaces(n) && (n == |l| || l[n] == '#')
  }

  /** The line, or the line with blanks and a comment behind it. */
  predicate IsRemarked(o: string, l: string)
  {
    o == l || (|o| > |l| + 1 && o[..|l|] == l &&
      exists k :: |l| < k < |o| && o[k] == '#' && forall i :: |l| <= i < k ==> IsBlank(o[i]))
  }

  /** The lines out are the lines ls with comments and blank lines strewn in. */
  ghost predicate Commented(out: seq<string>, ls: seq<string>)
    decreases |out|
  {
    if out == [] then ls == []
    else
      || (IsRemark(out[0]) && Commented(out[1..], ls))
      || (ls != [] && IsRemarked(out[0], ls[0]) && Commented(out[1..], ls[1..]))
  }

  lemma {:induction false} RemarkIsNoise(n: nat, l: string)
    requires n <= |l| && l[..n] == Spaces(n) && (n == |l| || l[n] == '#')
    ensures IsNoise(l)
    decreases n
  {
    if n == 0 {
      if l != "" {
        TrimBackKeepsFirst(l);
      }
    } else {
      assert l[0] == l[..n][0] == ' ' && l[1..][..n - 1] == l[..n][1..] == Spaces(n - 1);
      RemarkIsNoise(n - 1, l[1..]);
    }
  }

  lemma {:induction false} TrimBackKeepsFirst(s: string)
    requires s != "" && !IsSpace(s[0])
    ensures TrimBack(s) != "" && TrimBack(s)[0] == s[0]
    decreases |s|
  {
    if IsSpace(s[|s| - 1]) {
      TrimBackKeepsFirst(s[..|s| - 1]);
    }
  }

  lemma {:induction false} BlanksAreTrimmed(l: string, pad: string, s: string)
    requires l != "" && !IsBlank(l[|l| - 1]) && s == l + pad && forall i :: 0 <= i < |pad| ==> IsBlank(pad[i])
    ensures TrimBlanksRight(s) == l
    decreases |pad|
  {
    if pad == "" {
      assert s == l;
    } else {
      assert s[..|s| - 1] == l + pad[..|pad| - 1] && s[|s| - 1] == pad[|pad| - 1];
      BlanksAreTrimmed(l, pad[..|pad| - 1], s[..|s| - 1]);
    }
  }

  lemma RemarkIsCut(o: string, l: string)
    requires Clean(l) && IsRemarked(o, l)
    ensures StripInlineF(o) == l
  {
    if o == l {
      CleanIsKept(l);
    } else {
      var k :| |l| < k < |o| && o[k] == '#' && forall i :: |l| <= i < k ==> IsBlank(o[i]);
      var pad, tail := o[|l|..k], o[k..];
      assert o == l + pad + tail;
      CommentStarts(l, pad, tail, o);
      assert o[..k] == l + pad;
      BlanksAreTrimmed(l, pad, o[..k]);
    }
  }

  /** The comment starts behind the blanks. */
  lemma CommentStarts(l: string, pad: string, tail: string, o: string)
    requires NoComment(l) && IsPad(pad) && tail != "" && tail[0] == '#' && o == l + pad + tail
    ensures HashAt(o, 0, false, false) == Some(|l| + |pad|)
  {
    MarksHaveNoComment(pad);
    NoCommentAppend(l, pad, l + pad);
    assert NoCommentIn("", l + pad, tail);
    assert "" + (l + pad) + tail == o;
    assert o[|l| + |pad|] == '#' && o[|l| + |pad| - 1] == pad[|pad| - 1];
  }

  lemma RemarkedIsNoNoise(o: string, l: string)
    requires Clean(l) && IsRemarked(o, l)
    ensures !IsNoise(o)
  {
    assert l <= o;
    ContentIsKept(l, o);
  }

  /** A line that starts with a content line has content. */
  lemma {:induction false} ContentIsKept(l: string, o: string)
    requires l <= o && !IsNoise(l)
    ensures !IsNoise(o)
    decreases |l|
  {
    assert l != "";
    if IsSpace(l[0]) {
      ContentIsKept(l[1..], o[1..]);
    } else {
      TrimBackKeepsFirst(l);
      TrimBackKeepsFirst(o);
    }
  }

  /** Comments leave no trace. */
  lemma {:induction false} CommentsAreStripped(out: seq<string>, ls: seq<string>)
    requires AllClean(ls) && Commented(out, ls)
    ensures StripCommentsF(out) == ls
    decreases |out|
  {
    if out != [] {
      if IsRemark(out[0]) && Commented(out[1..], ls) {
        var n: nat :| n <= |out[0]| && out[0][..n] == Spaces(n) && (n == |out[0]| || out[0][n] == '#');
        RemarkIsNoise(n, out[0]);
        CommentsAreStripped(out[1..], ls);
      } else {
        RemarkedIsNoNoise(out[0], ls[0]);
        RemarkIsCut(out[0], ls[0]);
        CommentsAreStripped(out[1..], ls[1..]);
      }
    }
  }

  // ----- Main results -----

  /** Printing a document as an indented block and reading it back gives its value, and every
      line is consumed; with comments stripped first, as ToJSON does. */
  lemma DocumentRoundTrip(isFloat: string -> bool, d: Doc, step: nat)
    requires step > 0 && !IsScalar(d) && ValidDoc(d) && Fits(isFloat, d)
    ensures BlockF(isFloat, 0, StripCommentsF(PrintBlock(d, 0, step))) == Ok(ValueOf(d), [])
  {
    var lines := PrintBlock(d, 0, step);
    BlockIsClean(d, 0, step);
    StripKeepsClean(lines);
    assert lines == lines + [];
    BlockRoundTrip(isFloat, d, 0, step, lines, []);
  }

  /** With blank lines and comments strewn in it reads the same. */
  lemma CommentedRoundTrip(isFloat: string -> bool, d: Doc, step: nat, out: seq<string>)
    requires step > 0 && !IsScalar(d) && ValidDoc(d) && Fits(isFloat, d) && Commented(out, PrintBlock(d, 0, step))
    ensures BlockF(isFloat, 0, StripCommentsF(out)) == Ok(ValueOf(d), [])
  {
    BlockIsClean(d, 0, step);
    StripKeepsClean(PrintBlock(d, 0, step));
    CommentsAreStripped(out, PrintBlock(d, 0, step));
    DocumentRoundTrip(isFloat, d, step);
  }

  // ----- Where blocks end -----

  /** A mapping block that is read at all is read up to a shallower line. */
  lemma {:induction false} MappingReadsItsBlock(isFloat: string -> bool, indent: nat, lines: seq<string>, m: map<string, Value>)
    requires MapF(isFloat, indent, lines, m).Ok?
    ensures Shallower(MapF(isFloat, indent, lines, m).rest, indent)
    decreases |lines|
  {
    if lines != [] && IndentOf(lines[0]) == indent {
      var kv := SplitKeyF(TrimLeftSpaces(lines[0])).value;
      var text := TrimSpace(kv.1);
      if text != "" {
        MappingReadsItsBlock(isFloat, indent, lines[1..], m[kv.0 := Scalar(isFloat, text)]);
      } else {
        var child := ChildF(isFloat, indent, lines[1..]);
        MappingReadsItsBlock(isFloat, indent, child.rest, m[kv.0 := child.v]);
      }
    }
  }

  /** A sequence block is read up to a line at another column or one that is no item. */
  lemma {:induction false} SequenceReadsItsItems(isFloat: string -> bool, indent: nat, lines: seq<string>, acc: seq<Value>)
    requires SeqF(isFloat, indent, lines, acc).Ok?
    ensures var rest := SeqF(isFloat, indent, lines, acc).rest;
            rest == [] || IndentOf(rest[0]) != indent || !IsItem(rest[0])
    decreases |lines|
  {
    if lines != [] && IndentOf(lines[0]) == indent && IsItem(lines[0]) {
      var item := ItemF(isFloat, indent, lines);
      SequenceReadsItsItems(isFloat, indent, item.rest, acc + [item.v]);
    }
  }
}

/** Multi-document streams: splitting a text on `---`, and reading back what was printed. */
module YamlStream {
  import opened Text
  import opened Yaml
  import opened YamlPrint
  import opened YamlSpelling
  import opened YamlText

  // ----- Lines of a text -----

  /** strings.Split(src, "\n"). */
  function SplitLines(s: string): (ls: seq<string>)
    ensures ls != []
  {
    if s == [] then [""]
    else
      var rest := SplitLines(s[1..]);
      if s[0] == '\n' then [""] + rest else [[s[0]] + rest[0]] + rest[1..]
  }

  function JoinLines(ls: seq<string>): string
  {
    if ls == [] then ""
    else if |ls| == 1 then ls[0]
    else ls[0] + "\n" + JoinLines(ls[1..])
  }

  predicate OneLine(l: string)
  {
    forall i :: 0 <= i < |l| ==> l[i] != '\n'
  }

  predicate AllOneLine(ls: seq<string>)
  {
    forall i :: 0 <= i < |ls| ==> OneLine(ls[i])
  }

  lemma {:induction false} SplitOneLine(l: string, tail: string)
    requires OneLine(l)
    ensures SplitLines(l) == [l]
    ensures SplitLines(l + "\n" + tail) == [l] + SplitLines(tail)
    decreases l
  {
    var s := l + "\n" + tail;
    if l == [] {
      assert s[0] == '\n' && s[1..] == tail;
    } else {
      SplitOneLine(l[1..], tail);
      assert l == [l[0]] + l[1..] && s[0] == l[0] && s[1..] == l[1..] + "\n" + tail;
    }
  }

  lemma {:induction false} JoinSplit(ls: seq<string>)
    requires ls != [] && AllOneLine(ls)
    ensures SplitLines(JoinLines(ls)) == ls
    decreases ls
  {
    if |ls| == 1 {
      SplitOneLine(ls[0], "");
    } else {
      JoinSplit(ls[1..]);
      SplitOneLine(ls[0], JoinLines(ls[1..]));
    }
  }

  // ----- Documents of a stream -----

  predicate HasContent(ls: seq<string>)
  {
    exists i :: 0 <= i < |ls| && !IsNoise(ls[i])
  }

  predicate IsSeparator(l: string)
  {
    TrimSpace(l) == "---" || TrimSpace(l) == "..."
  }

  function Flush(docs: seq<seq<string>>, cur: seq<string>): seq<seq<string>>
  {
    if HasContent(cur) then docs + [cur] else docs
  }

  function DocsF(ls: seq<string>, docs: seq<seq<string>>, cur: seq<string>): seq<seq<string>>
    decreases ls
  {
    if ls == [] then Flush(docs, cur)
    else if IsSeparator(ls[0]) then DocsF(ls[1..], Flush(docs, cur), [])
    else DocsF(ls[1..], docs, cur + [ls[0]])
  }

  method SplitDocuments(src: string) returns (docs: seq<seq<string>>)
    ensures docs == DocsF(SplitLines(src), [], [])
  {
    docs := [];
    var cur: seq<string> := [];
    var lines := SplitLines(src);
    assert lines[0..] == lines;
    for i := 0 to |lines|
      invariant DocsF(lines, [], []) == DocsF(lines[i..], docs, cur)
    {
      assert lines[i..][1..] == lines[i + 1..];
      if IsSeparator(lines[i]) {
        docs := Flush(docs, cur);
        cur := [];
      } else {
        cur := cur + [lines[i]];
      }
    }
    docs := Flush(docs, cur);
  }

  /** Lines none of which separates documents are all kept. */
  lemma {:induction false} DocsKeepLines(ls: seq<string>, tail: seq<string>, docs: seq<seq<string>>, cur: seq<string>)
    requires forall i :: 0 <= i < |ls| ==> !IsSeparator(ls[i])
    ensures DocsF(ls + tail, docs, cur) == DocsF(tail, docs, cur + ls)
    decreases ls
  {
    if ls == [] {
      assert ls + tail == tail && cur + ls == cur;
    } else {
      assert (ls + tail)[1..] == ls[1..] + tail;
      DocsKeepLines(ls[1..], tail, docs, cur + [ls[0]]);
      assert cur + [ls[0]] + ls[1..] == cur + ls;
    }
  }

  // ----- Printed lines stay single lines and separate nothing -----

  /** A line a printed document may consist of. */
  ghost predicate Plain(l: string)
  {
    OneLine(l) && !IsSeparator(l)
  }

  ghost predicate AllPlain(ls: seq<string>)
  {
    forall i :: 0 <= i < |ls| ==> Plain(ls[i])
  }

  lemma EntryHeadIsOneLine(e: Entry)
    requires ValidHead(e) && ValidDoc(e.value)
    ensures OneLine(EntryHead(e)) && ':' in EntryHead(e)
  {
    var key := Quoted(e.key, e.quote);
    KeyTextIsTight(e.key, e.quote, key);
    assert EntryHead(e)[|key|] == ':';
    if HasText(e.value) {
      ScalarTextIsTight(e.value);
    }
  }

  lemma EntryLineIsPlain(e: Entry, indent: nat)
    requires ValidHead(e) && ValidDoc(e.value)
    ensures Plain(Spaces(indent) + EntryHead(e))
  {
    EntryLine(e, indent, Spaces(indent) + EntryHead(e));
    EntryHeadIsOneLine(e);
  }

  lemma ItemLineIsPlain(content: string, indent: nat)
    requires Tight(content) && OneLine(content)
    ensures Plain(Spaces(indent) + ("- " + content))
  {
    var c := "- " + content;
    assert c[|c| - 1] == content[|content| - 1] && c[1] == ' ';
    TrimTight(indent, c);
  }

  lemma {:induction false} BlockIsPlain(d: Doc, indent: nat, step: nat)
    requires !IsScalar(d) && ValidDoc(d)
    ensures AllPlain(PrintBlock(d, indent, step))
    decreases d, 0
  {
    if d.DSeq? {
      ItemsArePlain(d.items, indent, step);
    } else {
      EntriesArePlain(d.entries, indent, step);
    }
  }

  lemma {:induction false} EntriesArePlain(es: seq<Entry>, indent: nat, step: nat)
    requires ValidEntries(es)
    ensures AllPlain(PrintEntries(es, indent, step))
    decreases es, 0
  {
    if es != [] {
      EntryLineIsPlain(es[0], indent);
      ValueIsPlain(es[0], indent, step);
      EntriesArePlain(es[1..], indent, step);
    }
  }

  lemma {:induction false} ValueIsPlain(e: Entry, indent: nat, step: nat)
    requires ValidDoc(e.value)
    ensures AllPlain(PrintValue(e, indent, step))
    decreases e, 0
  {
    if !IsScalar(e.value) {
      BlockIsPlain(e.value, ValueColumn(e, indent, step), step);
    }
  }

  lemma {:induction false} ItemsArePlain(ds: seq<Doc>, indent: nat, step: nat)
    requires ValidDocs(ds)
    ensures AllPlain(PrintItems(ds, indent, step))
    decreases ds, 0
  {
    if ds != [] {
      ItemIsPlain(ds[0], indent, step);
      ItemsArePlain(ds[1..], indent, step);
    }
  }

  lemma {:induction false} ItemIsPlain(d: Doc, indent: nat, step: nat)
    requires ValidDoc(d)
    ensures AllPlain(PrintItem(d, indent, step))
    decreases d, 1
  {
    if d.DSeq? {
      DashLine(indent, Spaces(indent) + "-");
      ItemsArePlain(d.items, indent + step, step);
    } else if d.DEmpty? {
      DashLine(indent, Spaces(indent) + "-");
    } else if d.DMap? {
      MapItemIsPlain(d, indent, step);
    } else {
      ScalarTextIsTight(d);
      ItemLineIsPlain(ScalarText(d), indent);
    }
  }

  lemma EntryItemLineIsPlain(e: Entry, indent: nat)
    requires ValidHead(e) && ValidDoc(e.value)
    ensures Plain(Spaces(indent) + ("- " + EntryHead(e)))
  {
    EntryLine(e, 0, Spaces(0) + EntryHead(e));
    EntryHeadIsOneLine(e);
    ItemLineIsPlain(EntryHead(e), indent);
  }

  lemma {:induction false} MapItemIsPlain(d: Doc, indent: nat, step: nat)
    requires d.DMap? && ValidDoc(d)
    ensures AllPlain(PrintItem(d, indent, step))
    decreases d, 0
  {
    EntryItemLineIsPlain(d.entries[0], indent);
    ValueIsPlain(d.entries[0], indent + 2, step);
    EntriesArePlain(d.entries[1..], indent + 2, step);
  }

  // ----- Main result -----

  /** Documents printed one after the other, each behind a separator line. */
  function PrintStream(ds: seq<Doc>, step: nat): seq<string>
    requires forall i :: 0 <= i < |ds| ==> !IsScalar(ds[i])
  {
    if ds == [] then [] else ["---"] + PrintBlock(ds[0], 0, step) + PrintStream(ds[1..], step)
  }

  /** The line blocks of the documents. */
  function Blocks(ds: seq<Doc>, step: nat): (r: seq<seq<string>>)
    requires forall i :: 0 <= i < |ds| ==> !IsScalar(ds[i])
    ensures |r| == |ds|
  {
    if ds == [] then [] else [PrintBlock(ds[0], 0, step)] + Blocks(ds[1..], step)
  }

  lemma {:induction false} StreamSplits(ds: seq<Doc>, step: nat, lines: seq<string>, docs: seq<seq<string>>,
                                        cur: seq<string>, all: seq<seq<string>>)
    requires step > 0 && forall i :: 0 <= i < |ds| ==> !IsScalar(ds[i]) && ValidDoc(ds[i])
    requires lines == PrintStream(ds, step) && all == Flush(docs, cur) + Blocks(ds, step)
    ensures DocsF(lines, docs, cur) == all
    decreases ds
  {
    var done := Flush(docs, cur);
    if ds == [] {
      assert done + [] == done;
    } else {
      var block := PrintBlock(ds[0], 0, step);
      var tail := PrintStream(ds[1..], step);
      DocumentTurn(ds[0], step, tail, lines, docs, cur);
      assert all == Flush(done, block) + Blocks(ds[1..], step) by {
        BlockHasContent(ds[0], step);
        assert done + [block] + Blocks(ds[1..], step) == done + Blocks(ds, step);
      }
      StreamSplits(ds[1..], step, tail, done, block, all);
    }
  }

  lemma DocumentTurn(d: Doc, step: nat, tail: seq<string>, lines: seq<string>, docs: seq<seq<string>>, cur: seq<string>)
    requires !IsScalar(d) && ValidDoc(d) && lines == ["---"] + PrintBlock(d, 0, step) + tail
    ensures DocsF(lines, docs, cur) == DocsF(tail, Flush(docs, cur), PrintBlock(d, 0, step))
  {
    BlockIsPlain(d, 0, step);
    SeparatorLine();
    MarkTurn("---", PrintBlock(d, 0, step), tail, lines, docs, cur);
  }

  lemma MarkTurn(mark: string, block: seq<string>, tail: seq<string>, lines: seq<string>, docs: seq<seq<string>>,
      cur: seq<string>)
    requires IsSeparator(mark) && AllPlain(block) && lines == [mark] + block + tail
    ensures DocsF(lines, docs, cur) == DocsF(tail, Flush(docs, cur), block)
  {
    assert lines[1..] == block + tail;
    DocsKeepLines(block, tail, Flush(docs, cur), []);
    assert [] + block == block;
  }

  lemma {:induction false} BlocksAt(ds: seq<Doc>, step: nat, i: nat)
    requires (forall j :: 0 <= j < |ds| ==> !IsScalar(ds[j])) && i < |ds|
    ensures Blocks(ds, step)[i] == PrintBlock(ds[i], 0, step)
    decreases i
  {
    if i > 0 {
      BlocksAt(ds[1..], step, i - 1);
    }
  }

  lemma {:induction false} StreamIsOneLined(ds: seq<Doc>, step: nat)
    requires step > 0 && forall i :: 0 <= i < |ds| ==> !IsScalar(ds[i]) && ValidDoc(ds[i])
    ensures AllOneLine(PrintStream(ds, step))
    decreases ds
  {
    if ds != [] {
      BlockIsPlain(ds[0], 0, step);
      SeparatorLine();
      StreamIsOneLined(ds[1..], step);
    }
  }

  lemma SeparatorLine()
    ensures IsSeparator("---") && OneLine("---")
  {
    TrimTight(0, "---");
    assert Spaces(0) + "---" == "---";
  }

  lemma BlockIsWritten(d: Doc, indent: nat, step: nat)
    requires !IsScalar(d) && ValidDoc(d)
    ensures PrintBlock(d, indent, step) != []
  {
    if d.DSeq? {
      ItemIsWritten(d.items[0], indent, step);
    }
  }

  lemma ItemIsWritten(d: Doc, indent: nat, step: nat)
    requires ValidDoc(d)
    ensures PrintItem(d, indent, step) != []
  {}

  lemma BlockHasContent(d: Doc, step: nat)
    requires step > 0 && !IsScalar(d) && ValidDoc(d)
    ensures HasContent(PrintBlock(d, 0, step))
  {
    BlockIsClean(d, 0, step);
    assert Clean(PrintBlock(d, 0, step)[0]) by {
      BlockIsWritten(d, 0, step);
    }
  }

  /** Any number of documents printed into one text is split into those documents again, and
      each of them reads back as its value. */
  lemma StreamRoundTrip(isFloat: string -> bool, ds: seq<Doc>, step: nat)
    requires step > 0 && ds != [] && forall i :: 0 <= i < |ds| ==> !IsScalar(ds[i]) && ValidDoc(ds[i])
    requires forall i :: 0 <= i < |ds| ==> Fits(isFloat, ds[i])
    ensures var docs := DocsF(SplitLines(JoinLines(PrintStream(ds, step))), [], []);
            && |docs| == |ds|
            && forall i :: 0 <= i < |ds| ==> BlockF(isFloat, 0, StripCommentsF(docs[i])) == Ok(ValueOf(ds[i]), [])
  {
    assert Blocks(ds, step) == Flush([], []) + Blocks(ds, step);
    StreamSplits(ds, step, PrintStream(ds, step), [], [], Blocks(ds, step));
    StreamIsOneLined(ds, step);
    JoinSplit(PrintStream(ds, step));
    var docs := DocsF(SplitLines(JoinLines(PrintStream(ds, step))), [], []);
    forall i | 0 <= i < |ds|
      ensures BlockF(isFloat, 0, StripCommentsF(docs[i])) == Ok(ValueOf(ds[i]), [])
    {
      BlocksAt(ds, step, i);
      DocumentRoundTrip(isFloat, ds[i], step);
    }
  }

  // ----- Any stream, not only printed ones -----

  /** Spaces around three dashes or three dots. */
  ghost predicate IsMark(l: string)
  {
    exists n: nat, m: nat :: l == Spaces(n) + "---" + Spaces(m) || l == Spaces(n) + "..." + Spaces(m)
  }

  lemma {:induction false} SpacesAreTrimmed(s: string, m: nat, l: string)
    requires s != "" && !IsSpace(s[|s| - 1]) && l == s + Spaces(m)
    ensures TrimBack(l) == s
    decreases m
  {
    if m == 0 {
      assert l == s;
    } else {
      assert l[..|l| - 1] == s + Spaces(m - 1);
      SpacesAreTrimmed(s, m - 1, l[..|l| - 1]);
    }
  }

  lemma {:induction false} FrontIsTrimmed(n: nat, s: string, l: string)
    requires s != "" && !IsSpace(s[0]) && l == Spaces(n) + s
    ensures TrimFront(l) == s
    decreases n
  {
    if n == 0 {
      assert l == s;
    } else {
      assert l[1..] == Spaces(n - 1) + s;
      FrontIsTrimmed(n - 1, s, l[1..]);
    }
  }

  lemma MarkSeparates(l: string)
    requires IsMark(l)
    ensures IsSeparator(l)
  {
    var n: nat, m: nat :| l == Spaces(n) + "---" + Spaces(m) || l == Spaces(n) + "..." + Spaces(m);
    var s := if l == Spaces(n) + "---" + Spaces(m) then "---" else "...";
    assert l == Spaces(n) + (s + Spaces(m));
    FrontIsTrimmed(n, s + Spaces(m), l);
    SpacesAreTrimmed(s, m, s + Spaces(m));
  }

  lemma {:induction false} DocsAppend(ls: seq<string>, docs: seq<seq<string>>, cur: seq<string>)
    ensures DocsF(ls, docs, cur) == docs + DocsF(ls, [], cur)
    decreases |ls|
  {
    if ls == [] {
      assert docs + [cur] == docs + ([] + [cur]) && docs + [] == docs;
    } else if IsSeparator(ls[0]) {
      DocsAppend(ls[1..], Flush(docs, cur), []);
      DocsAppend(ls[1..], Flush([], cur), []);
      assert Flush(docs, cur) == docs + Flush([], cur);
      assert docs + Flush([], cur) + DocsF(ls[1..], [], []) == docs + (Flush([], cur) + DocsF(ls[1..], [], []));
    } else {
      DocsAppend(ls[1..], docs, cur + [ls[0]]);
    }
  }

  lemma {:induction false} DocsSplit(a: seq<string>, mark: string, b: seq<string>, cur: seq<string>, all: seq<string>)
    requires IsSeparator(mark) && all == a + [mark] + b
    ensures DocsF(all, [], cur) == DocsF(a, [], cur) + DocsF(b, [], [])
    decreases |a|
  {
    if a == [] {
      assert all[0] == mark && all[1..] == b;
      DocsAppend(b, Flush([], cur), []);
    } else {
      assert all[0] == a[0] && all[1..] == a[1..] + [mark] + b;
      if IsSeparator(a[0]) {
        DocsSplit(a[1..], mark, b, [], all[1..]);
        DocsAppend(all[1..], Flush([], cur), []);
        DocsAppend(a[1..], Flush([], cur), []);
        var first, x, y := Flush([], cur), DocsF(a[1..], [], []), DocsF(b, [], []);
        assert first + (x + y) == first + x + y;
      } else {
        DocsSplit(a[1..], mark, b, cur + [a[0]], all[1..]);
      }
    }
  }

  /** A stream is split at a mark, wherever it stands. */
  lemma SplitsAtMark(a: seq<string>, mark: string, b: seq<string>)
    requires IsMark(mark)
    ensures DocsF(a + [mark] + b, [], []) == DocsF(a, [], []) + DocsF(b, [], [])
  {
    MarkSeparates(mark);
    DocsSplit(a, mark, b, [], a + [mark] + b);
  }

  /** Blank lines and comments alone are no document. */
  lemma {:induction false} RemarksAreDropped(ls: seq<string>)
    requires forall i :: 0 <= i < |ls| ==> IsRemark(ls[i]) && !IsSeparator(ls[i])
    ensures DocsF(ls, [], []) == []
  {
    DocsKeepLines(ls, [], [], []);
    assert ls + [] == ls && [] + ls == ls;
    forall i | 0 <= i < |ls|
      ensures IsNoise(ls[i])
    {
      var n: nat :| n <= |ls[i]| && ls[i][..n] == Spaces(n) && (n == |ls[i]| || ls[i][n] == '#');
      RemarkIsNoise(n, ls[i]);
    }
  }
}

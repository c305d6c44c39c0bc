/** The ring told from its bytes: what each step of either side does, with positions, sizes and
    header bits as plain numbers. */
module RingLaws {
  import opened Options
  import opened RingMemory
  import opened RingProtocol

  /** The byte n behind a position of the one-megabyte ring. */
  function ByteAt(m: Memory, pos: nat, n: nat): nat
  {
    m[(pos + n) % 1_048_576]
  }

  /** The first four bytes of a record, the least significant first. */
  function FirstWord(m: Memory, pos: nat): nat
  {
    ByteAt(m, pos, 0) + 256 * ByteAt(m, pos, 1) + 65_536 * ByteAt(m, pos, 2) + 16_777_216 * ByteAt(m, pos, 3)
  }

  /** The end of a record of len bytes that starts at pos: behind its eight bytes of header, at the
      next multiple of eight. */
  predicate EndsAt(pos: nat, len: nat, end: nat)
  {
    end % 8 == 0 && pos + 8 + len <= end < pos + 16 + len
  }

  lemma SizeEnds(pos: nat, len: nat)
    requires pos % 8 == 0
    ensures EndsAt(pos, len, pos + Size(len))
  {}

  lemma WordIsHeader(m: Memory, pos: nat)
    ensures HeaderAt(m, pos) == FirstWord(m, pos)
  {}

  /** A header word: its top bit says busy, the next one discarded, the rest is the length. */
  lemma WordBits(w: nat)
    requires w < 4_294_967_296
    ensures IsBusy(w) <==> w >= 2_147_483_648
    ensures !IsBusy(w) ==> (IsDiscarded(w) <==> w >= 1_073_741_824)
    ensures LenOf(w) == w % 1_073_741_824
  {}

  lemma WordFits(m: Memory, pos: nat)
    ensures FirstWord(m, pos) < 4_294_967_296
  {}

  /** One poll, from the bytes: nothing on an empty ring or a busy record; otherwise the consumer
      moves behind the record, and unless it was discarded its payload is returned, cut to the
      buffer. */
  lemma PollLaw(s: Ring, cap: nat)
    requires Inv(s)
    ensures var (t, out) := Read(s, cap);
            var w := FirstWord(s.mem, s.consumer);
            var len := w % 1_073_741_824;
            if s.consumer == s.producer || w >= 2_147_483_648 then t == s && out == None
            else
              && EndsAt(s.consumer, len, t.consumer) && t.producer == s.producer && t.mem == s.mem
              && (w >= 1_073_741_824 ==> out == None)
              && (w < 1_073_741_824 ==>
                    && out.Some? && |out.value| == (if len < cap then len else cap)
                    && forall j :: 0 <= j < |out.value| ==> out.value[j] == ByteAt(s.mem, s.consumer, 8 + j))
  {
    var w := FirstWord(s.mem, s.consumer);
    ReadMemoryIsRead(s, cap);
    WordIsHeader(s.mem, s.consumer);
    WordFits(s.mem, s.consumer);
    WordBits(w);
    EmptyIff(s);
    if s.consumer != s.producer && !IsBusy(w) {
      SizeEnds(s.consumer, LenOf(w));
      var n := if LenOf(w) < cap then LenOf(w) else cap;
      PayloadBytes(s.mem, s.consumer, n, Cells(s.mem, s.consumer + 8, n));
    }
  }

  lemma PayloadBytes(m: Memory, pos: nat, n: nat, bs: seq<byte>)
    requires bs == Cells(m, pos + 8, n)
    ensures forall j :: 0 <= j < |bs| ==> bs[j] == ByteAt(m, pos, 8 + j)
  {
    forall j | 0 <= j < |bs|
      ensures bs[j] == ByteAt(m, pos, 8 + j)
    {
      assert bs[j] == Cell(m, pos + 8 + j);
    }
  }

  lemma EmptyIff(s: Ring)
    requires Inv(s)
    ensures s.consumer == s.producer <==> s.pending == []
  {
    if s.pending != [] {
      ChainBounds(s.pending, s.consumer, s.producer, 0);
    }
  }

  lemma EndIsUnique(pos: nat, len: nat, a: nat, b: nat)
    requires EndsAt(pos, len, a) && EndsAt(pos, len, b)
    ensures a == b
  {
    assert a == 8 * (a / 8) && b == 8 * (b / 8);
  }

  /** A reservation is made exactly when the record is shorter than a gigabyte and leaves part of
      the ring free; it is busy, and it starts where the last one ends. */
  lemma ReserveLaw(s: Ring, len: nat, end: nat)
    requires Inv(s) && EndsAt(s.producer, len, end)
    ensures var t := Reserve(s, len);
            if len < 1_073_741_824 && end < s.consumer + 1_048_576 then
              && t.pending == s.pending + [Rec(s.producer, len, Busy)] && t.producer == end
              && t.consumer == s.consumer && t.passed == s.passed
            else t == s
  {
    SizeEnds(s.producer, len);
    EndIsUnique(s.producer, len, end, s.producer + Size(len));
    Reserves(s, len, end);
  }

  lemma Reserves(s: Ring, len: nat, end: nat)
    requires end == s.producer + Size(len)
    ensures var t := Reserve(s, len);
            if len < 1_073_741_824 && end < s.consumer + 1_048_576 then
              && t.pending == s.pending + [Rec(s.producer, len, Busy)] && t.producer == end
              && t.consumer == s.consumer && t.passed == s.passed
            else t == s
  {}

  /** Committing closes the record with the payload, discarding without; only an open record can
      be closed, and only with as many bytes as it holds. */
  lemma CloseLaw(s: Ring, k: nat, payload: seq<byte>)
    requires Inv(s) && k < |s.pending|
    ensures var r := s.pending[k];
            && (r.state == Busy && |payload| == r.len ==>
                  Commit(s, k, payload).pending == s.pending[k := r.(state := Committed(payload))])
            && (r.state != Busy || |payload| != r.len ==> Commit(s, k, payload) == s)
            && (r.state == Busy ==> Discard(s, k).pending == s.pending[k := r.(state := Discarded)])
            && (r.state != Busy ==> Discard(s, k) == s)
    ensures Commit(s, k, payload).producer == Discard(s, k).producer == s.producer
    ensures Commit(s, k, payload).consumer == Discard(s, k).consumer == s.consumer
  {
    assert Holds(s.mem, s.pending[k]);
  }

  /** What each record not yet read has in its bytes. */
  lemma RecordLaw(s: Ring, k: nat)
    requires Inv(s) && k < |s.pending|
    ensures var r := s.pending[k];
            && r.len < 1_073_741_824
            && FirstWord(s.mem, r.start) == r.len + (
                 if r.state == Busy then 2_147_483_648 else if r.state == Discarded then 1_073_741_824 else 0)
            && (r.state.Committed? ==> (|r.state.payload| == r.len &&
                  forall j :: 0 <= j < r.len ==> ByteAt(s.mem, r.start, 8 + j) == r.state.payload[j]))
  {
    var r := s.pending[k];
    assert Holds(s.mem, r);
    WordIsHeader(s.mem, r.start);
    if r.state.Committed? {
      forall j | 0 <= j < r.len
        ensures ByteAt(s.mem, r.start, 8 + j) == r.state.payload[j]
      {
        assert Cell(s.mem, r.start + 8 + j) == r.state.payload[j];
      }
    }
  }
}

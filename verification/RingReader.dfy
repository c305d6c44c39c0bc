/** The consumer's view of the mapped ring: one array whose first page is the producer's and
    whose data pages appear twice in a row, so that a record that wraps reads contiguously. */
module RingReader {
  import opened Options
  import opened RingMemory
  import opened RingProtocol

  class RingState {
    const dataOff: nat
    const data: array<byte>
    var producer: nat
    var consumer: nat
    ghost var passed: seq<Rec>
    ghost var pending: seq<Rec>

    /** The layout mmapRing sets up. */
    ghost predicate Mapped()
      reads this, data
    {
      && data.Length == dataOff + 2 * RING
      && forall i :: dataOff <= i < dataOff + RING ==> data[i] == data[i + RING]
    }

    ghost function State(): Ring
      requires Mapped()
      reads this, data
    {
      Ring(data[dataOff..dataOff + RING], producer, consumer, passed, pending)
    }

    ghost predicate Valid()
      reads this, data
    {
      Mapped() && Inv(State())
    }

    constructor (pageSize: nat)
      ensures Valid() && Fresh(State()) && dataOff == pageSize && fresh(data)
    {
      dataOff := pageSize;
      data := new byte[pageSize + 2 * RING](_ => 0);
      producer, consumer := 0, 0;
      passed, pending := [], [];
    }

    /** Behind any position, less than one turn of cells can be read without wrapping. */
    lemma CellIsMapped(pos: nat, j: nat)
      requires Mapped() && j <= RING
      ensures dataOff + pos % RING + j < data.Length || j == RING
      ensures j < RING ==> data[dataOff + pos % RING + j] == Cell(State().mem, pos + j)
    {
      if j < RING {
        ModStep(pos, j);
        if pos % RING + j >= RING {
          var i := dataOff + (pos % RING + j - RING);
          assert data[i] == data[i + RING];
        }
      }
    }

    /** binary.LittleEndian.Uint32 at a position's offset in the mapping. */
    method HeaderWord(ghost pos: nat, off: nat) returns (w: nat)
      requires Mapped() && off == dataOff + pos % RING && off + 8 <= data.Length
      ensures w == HeaderAt(State().mem, pos)
    {
      CellIsMapped(pos, 0);
      CellIsMapped(pos, 1);
      CellIsMapped(pos, 2);
      CellIsMapped(pos, 3);
      w := Word(data[off], data[off + 1], data[off + 2], data[off + 3]);
    }

    /** copy(buf[:n], data[off+8:off+8+n]) for the record at a position. */
    method CopyPayload(ghost pos: nat, off: nat, buf: array<byte>, n: nat)
      requires Mapped() && off == dataOff + pos % RING && off + 8 + n <= data.Length && 8 + n < RING
      requires buf != data && n <= buf.Length
      modifies buf
      ensures buf[..n] == Cells(State().mem, pos + 8, n)
      ensures forall k :: n <= k < buf.Length ==> buf[k] == old(buf[k])
    {
      for k := 0 to n
        invariant forall j :: 0 <= j < k ==> buf[j] == Cell(State().mem, pos + 8 + j)
        invariant forall j :: k <= j < buf.Length ==> buf[j] == old(buf[j])
      {
        CellIsMapped(pos, 8 + k);
        buf[k] := data[off + 8 + k];
      }
    }

    /** *ringState.consumer = cons + 8 + roundLen, for a head record that is not open. */
    method Advance(recLen: nat, ghost cap: nat)
      requires Valid() && consumer < producer && !IsBusy(HeaderAt(State().mem, consumer))
      requires recLen == LenOf(HeaderAt(State().mem, consumer))
      modifies this`consumer, this`passed, this`pending
      ensures Valid() && State() == Read(old(State()), cap).0 && consumer > old(consumer)
    {
      ghost var spec := Read(State(), cap);
      ReadMemoryIsRead(State(), cap);
      ReadKeepsInv(State(), cap);
      consumer := consumer + Size(recLen);
      passed, pending := spec.0.passed, spec.0.pending;
    }

    /** readRingRecord on a mapped ring: a record's bytes and their number, or `again`. */
    method ReadRingRecord(buf: array<byte>) returns (n: nat, again: bool)
      requires Valid() && buf != data
      modifies this`consumer, this`passed, this`pending, buf
      ensures Valid() && State() == Read(old(State()), buf.Length).0
      ensures again <==> Read(old(State()), buf.Length).1 == None
      ensures !again ==> n <= buf.Length && Some(buf[..n]) == Read(old(State()), buf.Length).1
      ensures forall k :: (again || n <= k) && 0 <= k < buf.Length ==> buf[k] == old(buf[k])
    {
      ghost var s := State();
      ReadMemoryIsRead(s, buf.Length);
      n, again := 0, true;
      var prod, cons := producer, consumer;
      if cons >= prod {
        return;
      }
      var off := dataOff + cons % RING;
      OffsetFits(cons);
      if off + 8 > data.Length {
        assert false;
        return;
      }
      var hdr := HeaderWord(cons, off);
      if IsBusy(hdr) {
        return;
      }
      var recLen := LenOf(hdr);
      ReadFits(s, recLen);
      Advance(recLen, buf.Length);
      if IsDiscarded(hdr) {
        return;
      }
      n := if recLen > buf.Length then buf.Length else recLen;
      if off + 8 + n > data.Length {
        assert false;
        return;
      }
      CopyPayload(cons, off, buf, n);
      again := false;
    }

    lemma OffsetFits(pos: nat)
      requires Mapped()
      ensures dataOff + pos % RING + RING < data.Length
    {}

    /** A record at the consumer's position ends within one turn of the ring. */
    lemma ReadFits(s: Ring, recLen: nat)
      requires Inv(s) && s.consumer < s.producer && recLen == LenOf(HeaderAt(s.mem, s.consumer))
      ensures 8 + recLen < RING
    {
      ChainBounds(s.pending, s.consumer, s.producer, 0);
      assert Holds(s.mem, s.pending[0]);
      HeaderBits(s.pending[0].len, Flag(s.pending[0].state));
    }

    // ----- The kernel's stores, which show in both copies of the data pages -----

    method Store(pos: nat, bs: seq<byte>)
      requires Mapped()
      modifies data
      ensures Mapped() && State() == old(State()).(mem := Put(old(State()).mem, pos, bs))
      decreases |bs|
    {
      if bs != [] {
        var i := pos % RING;
        ghost var m := State().mem;
        data[dataOff + i] := bs[0];
        data[dataOff + i + RING] := bs[0];
        assert State().mem == m[i := bs[0]];
        Store(pos + 1, bs[1..]);
      }
    }

    method KernelReserve(len: nat)
      requires Valid()
      modifies this`producer, this`pending, data
      ensures Valid() && State() == Reserve(old(State()), len)
    {
      ReserveKeepsInv(State(), len);
      if len < DISCARD && producer + Size(len) < consumer + RING {
        Store(producer, Header(len, BUSY));
        pending := pending + [Rec(producer, len, Busy)];
        producer := producer + Size(len);
      }
    }

    method KernelCommit(ghost k: nat, r: Rec, payload: seq<byte>)
      requires Valid() && Open(State(), k) && pending[k] == r && |payload| == r.len
      modifies this`pending, data
      ensures Valid() && State() == Commit(old(State()), k, payload)
    {
      CommitKeepsInv(State(), k, payload);
      Store(r.start + 8, payload);
      Store(r.start, Header(r.len, 0));
      pending := pending[k := r.(state := Committed(payload))];
    }

    method KernelDiscard(ghost k: nat, r: Rec)
      requires Valid() && Open(State(), k) && pending[k] == r
      modifies this`pending, data
      ensures Valid() && State() == Discard(old(State()), k)
    {
      DiscardKeepsInv(State(), k);
      Store(r.start, Header(r.len, DISCARD));
      pending := pending[k := r.(state := Discarded)];
    }
  }
}

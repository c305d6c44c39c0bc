/** The BPF ring buffer as bytes: a ring of RING cells read through a double mapping, the
    record headers in it, and what a write leaves alone. */
module RingMemory {

  type byte = b: int | 0 <= b < 256

  /** ringBufDefault. */
  const RING: nat := 0x10_0000

  const BUSY: nat := 0x8000_0000
  const DISCARD: nat := 0x4000_0000

  /** (n + 7) / 8 * 8 */
  function RoundUp(n: nat): (r: nat)
    ensures n <= r < n + 8
  {
    (n + 7) / 8 * 8
  }

  /** Bytes a record takes in the ring: header and padded payload. */
  function Size(len: nat): (r: nat)
    ensures 8 + len <= r < len + 16
  {
    8 + RoundUp(len)
  }

  /** Records keep positions on 8-byte boundaries. */
  lemma SizeKeepsAligned(pos: nat, len: nat)
    requires pos % 8 == 0
    ensures (pos + Size(len)) % 8 == 0
  {}

  type Memory = m: seq<byte> | |m| == RING witness seq(RING, _ => 0)

  /** The cell a position falls on. */
  function Cell(m: Memory, pos: nat): byte
  {
    m[pos % RING]
  }

  lemma ModWindow(x: nat, y: nat)
    requires x < y < x + RING
    ensures x % RING != y % RING
  {}

  lemma ModStep(s: nat, j: nat)
    requires j < RING
    ensures (s + j) % RING == if s % RING + j < RING then s % RING + j else s % RING + j - RING
  {
    var q, r := s / RING, s % RING;
    assert s + j == q * RING + (r + j);
    if r + j >= RING {
      assert s + j == (q + 1) * RING + (r + j - RING);
    }
  }

  /** The memory after bs has been written from pos on. */
  function Put(m: Memory, pos: nat, bs: seq<byte>): Memory
    decreases |bs|
  {
    if bs == [] then m else Put(m[pos % RING := bs[0]], pos + 1, bs[1..])
  }

  /** A write changes the cells it covers and no other cell within one turn of the ring. */
  lemma {:induction false} PutCell(m: Memory, pos: nat, bs: seq<byte>, q: nat)
    requires |bs| <= RING && pos <= q + RING && q < pos + RING && q + RING >= pos + |bs|
    ensures Cell(Put(m, pos, bs), q) == if pos <= q < pos + |bs| then bs[q - pos] else Cell(m, q)
    decreases |bs|
  {
    if bs != [] {
      if q < pos {
        ModWindow(q, pos);
      } else if q > pos {
        ModWindow(pos, q);
      }
      if q == pos {
        PutLeaves(m[pos % RING := bs[0]], pos + 1, bs[1..], pos);
      } else {
        PutCell(m[pos % RING := bs[0]], pos + 1, bs[1..], q);
      }
    }
  }

  /** The cell just before a write of less than one turn is left alone. */
  lemma {:induction false} PutLeaves(m: Memory, pos: nat, bs: seq<byte>, q: nat)
    requires q < pos && pos + |bs| <= q + RING
    ensures Cell(Put(m, pos, bs), q) == Cell(m, q)
    decreases |bs|
  {
    if bs != [] {
      ModWindow(q, pos);
      PutLeaves(m[pos % RING := bs[0]], pos + 1, bs[1..], q);
    }
  }

  // ----- Record headers: a little-endian u32 whose top bits are flags -----

  function Word(b0: byte, b1: byte, b2: byte, b3: byte): nat
  {
    b0 + 0x100 * b1 + 0x1_0000 * b2 + 0x100_0000 * b3
  }

  lemma WordOfBytes(w: nat)
    requires w < 0x1_0000_0000
    ensures Word(w % 0x100, w / 0x100 % 0x100, w / 0x1_0000 % 0x100, w / 0x100_0000) == w
    ensures w / 0x100_0000 < 0x100
  {
    var a := w / 0x100;
    var b := a / 0x100;
    assert b == w / 0x1_0000 && b / 0x100 == w / 0x100_0000;
    assert w == 0x100 * a + w % 0x100 && a == 0x100 * b + a % 0x100 && b == 0x100 * (b / 0x100) + b % 0x100;
  }

  function Header(len: nat, flag: nat): (bs: seq<byte>)
    requires len < DISCARD && (flag == 0 || flag == BUSY || flag == DISCARD)
    ensures |bs| == 4 && Word(bs[0], bs[1], bs[2], bs[3]) == len + flag
  {
    var w := len + flag;
    WordOfBytes(w);
    [w % 0x100, w / 0x100 % 0x100, w / 0x1_0000 % 0x100, w / 0x100_0000]
  }

  function HeaderAt(m: Memory, pos: nat): nat
  {
    Word(Cell(m, pos), Cell(m, pos + 1), Cell(m, pos + 2), Cell(m, pos + 3))
  }

  predicate IsBusy(hdr: nat) { hdr / BUSY % 2 == 1 }

  predicate IsDiscarded(hdr: nat) { hdr / DISCARD % 2 == 1 }

  function LenOf(hdr: nat): nat { hdr % DISCARD }

  lemma HeaderBits(len: nat, flag: nat)
    requires len < DISCARD && (flag == 0 || flag == BUSY || flag == DISCARD)
    ensures IsBusy(len + flag) <==> flag == BUSY
    ensures IsDiscarded(len + flag) <==> flag == DISCARD
    ensures LenOf(len + flag) == len
  {}
}

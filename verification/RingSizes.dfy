/** The reader masks positions with the default ring size, whatever size the kernel's ring was
    created with: which positions it then reads right. */
module RingSizes {
  import opened RingMemory

  /** What the mapping shows at an offset of the data pages: the ring's cells, twice in a row. */
  function Shown(cells: seq<byte>, i: nat): byte
    requires cells != []
  {
    cells[i % |cells|]
  }

  /** The byte the reader takes for the j-th behind a position. */
  function ReaderByte(cells: seq<byte>, pos: nat, j: nat): byte
    requires cells != []
  {
    Shown(cells, pos % RING + j)
  }

  /** The byte the kernel wrote there. */
  function KernelByte(cells: seq<byte>, pos: nat, j: nat): byte
    requires cells != []
  {
    cells[(pos + j) % |cells|]
  }

  /** Whatever a ring of n bytes holds, the reader sees what was written from pos on. */
  ghost predicate ReadsRight(n: nat, pos: nat)
    requires n > 0
  {
    forall cells: seq<byte>, j: nat :: |cells| == n ==> ReaderByte(cells, pos, j) == KernelByte(cells, pos, j)
  }

  lemma ModOfMultiple(x: nat, n: nat, k: nat)
    requires n > 0 && k > 0 && n == k * RING
    ensures x % n % RING == x % RING
  {
    var q, r := x / n, x % n;
    var t := q * k;
    assert x == q * n + r;
    assert q * n == t * RING by {
      assert q * (k * RING) == (q * k) * RING;
    }
    assert x == t * RING + r;
  }

  lemma ModOfSum(x: nat, n: nat, j: nat)
    requires n > 0
    ensures (x + j) % n == (x % n + j) % n
  {
    var q, r := x / n, x % n;
    var q', r' := (r + j) / n, (r + j) % n;
    assert x + j == q * n + (q' * n + r');
    assert x + j == (q + q') * n + r' by {
      assert (q + q') * n == q * n + q' * n;
    }
    ModUnique(x + j, n, q + q', r');
  }

  lemma {:induction false} Grows(d: nat, n: nat)
    requires d > 0
    ensures d * n >= n
    decreases d
  {
    if d > 1 {
      Grows(d - 1, n);
      Distributes(d - 1, 1, n);
    }
  }

  lemma Distributes(a: nat, b: nat, n: nat)
    ensures (a + b) * n == a * n + b * n
  {}

  /** The larger quotient leaves more than a remainder can make up for. */
  lemma NotLarger(q: nat, r: nat, p: nat, s: nat, n: nat)
    requires q * n + r == p * n + s && r < n && s < n
    ensures q <= p
  {
    if q > p {
      Distributes(p, q - p, n);
      assert p + (q - p) == q;
      Grows(q - p, n);
    }
  }

  lemma ModUnique(x: nat, n: nat, q: nat, r: nat)
    requires n > 0 && x == q * n + r && r < n
    ensures x % n == r
  {
    var p, s := x / n, x % n;
    assert x == p * n + s;
    NotLarger(q, r, p, s, n);
    NotLarger(p, s, q, r, n);
  }

  /** On a ring of a multiple of the default size a position is read right exactly within the
      first default size of each turn. */
  lemma ReadsRightIff(n: nat, k: nat, pos: nat)
    requires k > 0 && n == k * RING
    ensures ReadsRight(n, pos) <==> pos % n < RING
  {
    ModOfMultiple(pos, n, k);
    if pos % n < RING {
      forall cells: seq<byte>, j: nat | |cells| == n
        ensures ReaderByte(cells, pos, j) == KernelByte(cells, pos, j)
      {
        ModOfSum(pos, n, j);
      }
    } else {
      var cells: seq<byte> := seq(n, i => if i == pos % n then 1 else 0);
      assert pos % RING < RING <= pos % n < n;
      ModUnique(pos % RING, n, 0, pos % RING);
      assert ReaderByte(cells, pos, 0) == 0 && KernelByte(cells, pos, 0) == 1;
    }
  }

  /** So every position is read right exactly on a ring of the default size. */
  lemma OnlyTheDefaultSize(n: nat, k: nat)
    requires k > 0 && n == k * RING
    ensures (forall pos: nat :: ReadsRight(n, pos)) <==> n == RING
  {
    forall pos: nat
      ensures ReadsRight(n, pos) <==> pos % n < RING
    {
      ReadsRightIff(n, k, pos);
    }
    if n != RING {
      assert k >= 2;
      ModUnique(RING, n, 0, RING);
      assert !ReadsRight(n, RING);
    }
  }
}

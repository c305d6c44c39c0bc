/** The ring buffer as a protocol: the kernel producer reserves, commits and discards records
    while the consumer reads; the invariant every step keeps, and what whole runs deliver. */
module RingProtocol {
  import opened Options
  import opened RingMemory

  datatype RecState = Busy | Committed(payload: seq<byte>) | Discarded

  /** A reservation: where it starts, how many payload bytes it holds, and how far it got. */
  datatype Rec = Rec(start: nat, len: nat, state: RecState)

  /** The shared memory and positions; as history, the reservations the consumer has passed
      and those it has not, both in reservation order. */
  datatype Ring = Ring(mem: Memory, producer: nat, consumer: nat, passed: seq<Rec>, pending: seq<Rec>)

  function Flag(state: RecState): nat
  {
    match state
    case Busy => BUSY
    case Committed(_) => 0
    case Discarded => DISCARD
  }

  /** The memory says about r what the history says. */
  ghost predicate Holds(m: Memory, r: Rec)
  {
    && r.len < DISCARD
    && HeaderAt(m, r.start) == r.len + Flag(r.state)
    && (r.state.Committed? ==> |r.state.payload| == r.len)
    && (r.state.Committed? ==> forall j :: 0 <= j < r.len ==> Cell(m, r.start + 8 + j) == r.state.payload[j])
  }

  /** Records lie back to back between two positions. */
  ghost predicate Chain(recs: seq<Rec>, from: nat, to: nat)
    decreases |recs|
  {
    if recs == [] then from == to
    else recs[0].start == from && Chain(recs[1..], from + Size(recs[0].len), to)
  }

  ghost predicate Inv(s: Ring)
  {
    && s.consumer <= s.producer < s.consumer + RING
    && s.consumer % 8 == 0 && s.producer % 8 == 0
    && Chain(s.pending, s.consumer, s.producer)
    && forall i {:trigger Holds(s.mem, s.pending[i])} :: 0 <= i < |s.pending| ==> Holds(s.mem, s.pending[i])
  }

  predicate Fresh(s: Ring)
  {
    s.producer == 0 && s.consumer == 0 && s.passed == [] && s.pending == []
  }

  lemma {:induction false} ChainBounds(recs: seq<Rec>, from: nat, to: nat, i: nat)
    requires Chain(recs, from, to) && i < |recs|
    ensures from <= recs[i].start && recs[i].start + Size(recs[i].len) <= to
    decreases |recs|
  {
    if i > 0 {
      ChainBounds(recs[1..], from + Size(recs[0].len), to, i - 1);
    } else {
      ChainAscends(recs[1..], from + Size(recs[0].len), to);
    }
  }

  lemma {:induction false} ChainAscends(recs: seq<Rec>, from: nat, to: nat)
    requires Chain(recs, from, to)
    ensures from <= to
    decreases |recs|
  {
    if recs != [] {
      ChainAscends(recs[1..], from + Size(recs[0].len), to);
    }
  }

  lemma {:induction false} ChainApart(recs: seq<Rec>, from: nat, to: nat, i: nat, k: nat)
    requires Chain(recs, from, to) && i < k < |recs|
    ensures recs[i].start + Size(recs[i].len) <= recs[k].start
    decreases |recs|
  {
    if i > 0 {
      ChainApart(recs[1..], from + Size(recs[0].len), to, i - 1, k - 1);
    } else {
      ChainBounds(recs[1..], from + Size(recs[0].len), to, k - 1);
    }
  }

  lemma {:induction false} ChainGrows(recs: seq<Rec>, from: nat, to: nat, r: Rec)
    requires Chain(recs, from, to) && r.start == to
    ensures Chain(recs + [r], from, to + Size(r.len))
    decreases |recs|
  {
    if recs != [] {
      ChainGrows(recs[1..], from + Size(recs[0].len), to, r);
      assert (recs + [r])[1..] == recs[1..] + [r];
    } else {
      assert (recs + [r])[1..] == [];
    }
  }

  lemma {:induction false} ChainIgnoresState(recs: seq<Rec>, from: nat, to: nat, k: nat, state: RecState)
    requires Chain(recs, from, to) && k < |recs|
    ensures Chain(recs[k := recs[k].(state := state)], from, to)
    decreases |recs|
  {
    var after := recs[k := recs[k].(state := state)];
    if k > 0 {
      ChainIgnoresState(recs[1..], from + Size(recs[0].len), to, k - 1, state);
      assert after[1..] == recs[1..][k - 1 := recs[k].(state := state)];
    } else {
      assert after[1..] == recs[1..];
    }
  }

  // ----- The producer: the kernel side -----

  /** bpf_ringbuf_reserve: refused when the record is too long or the ring would fill up. */
  function Reserve(s: Ring, len: nat): Ring
  {
    if len >= DISCARD || s.producer + Size(len) >= s.consumer + RING then s else
    s.(mem := Put(s.mem, s.producer, Header(len, BUSY)),
       producer := s.producer + Size(len),
       pending := s.pending + [Rec(s.producer, len, Busy)])
  }

  /** Record k of those not yet passed is still being written. */
  predicate Open(s: Ring, k: nat)
  {
    k < |s.pending| && s.pending[k].state == Busy && s.pending[k].len < DISCARD
  }

  /** The payload is written and then the busy bit cleared. */
  function Commit(s: Ring, k: nat, payload: seq<byte>): Ring
  {
    if !Open(s, k) || |payload| != s.pending[k].len then s else
    var r := s.pending[k];
    s.(mem := Put(Put(s.mem, r.start + 8, payload), r.start, Header(r.len, 0)),
       pending := s.pending[k := r.(state := Committed(payload))])
  }

  function Discard(s: Ring, k: nat): Ring
  {
    if !Open(s, k) then s else
    var r := s.pending[k];
    s.(mem := Put(s.mem, r.start, Header(r.len, DISCARD)),
       pending := s.pending[k := r.(state := Discarded)])
  }

  // ----- The consumer, in terms of the memory and in terms of the history -----

  function Min(a: nat, b: nat): nat
  {
    if a < b then a else b
  }

  function Cells(m: Memory, pos: nat, n: nat): (bs: seq<byte>)
    ensures |bs| == n && forall j :: 0 <= j < n ==> bs[j] == Cell(m, pos + j)
  {
    if n == 0 then [] else Cells(m, pos, n - 1) + [Cell(m, pos + n - 1)]
  }

  /** What readRingRecord finds in the memory, with a buffer of cap bytes: the consumer's new
      position and the bytes read, if any. */
  function ReadMemory(m: Memory, consumer: nat, producer: nat, cap: nat): (nat, Option<seq<byte>>)
  {
    if consumer >= producer then (consumer, None) else
    var hdr := HeaderAt(m, consumer);
    if IsBusy(hdr) then (consumer, None) else
    var next := consumer + Size(LenOf(hdr));
    if IsDiscarded(hdr) then (next, None) else
    (next, Some(Cells(m, consumer + 8, Min(LenOf(hdr), cap))))
  }

  /** The read on the queue of reservations: an open record at the head holds everything up, a
      discarded one is passed silently, a committed one is passed and returned. */
  function Read(s: Ring, cap: nat): (Ring, Option<seq<byte>>)
  {
    if s.pending == [] || s.pending[0].state.Busy? then (s, None) else
    var r := s.pending[0];
    var t := s.(consumer := s.consumer + Size(r.len), passed := s.passed + [r], pending := s.pending[1..]);
    if r.state.Discarded? then (t, None) else (t, Some(r.state.payload[..Min(|r.state.payload|, cap)]))
  }

  /** Reading the bytes is reading the queue: nothing is torn, skipped or made up. */
  lemma ReadMemoryIsRead(s: Ring, cap: nat)
    requires Inv(s)
    ensures var (t, out) := Read(s, cap);
            ReadMemory(s.mem, s.consumer, s.producer, cap) == (t.consumer, out)
  {
    if s.pending != [] {
      var r := s.pending[0];
      ChainBounds(s.pending, s.consumer, s.producer, 0);
      assert Holds(s.mem, r);
      HeaderBits(r.len, Flag(r.state));
      if r.state.Committed? {
        CommittedCells(s.mem, r, Min(r.len, cap));
      }
    }
  }

  lemma CommittedCells(m: Memory, r: Rec, n: nat)
    requires Holds(m, r) && r.state.Committed? && n <= r.len
    ensures Cells(m, r.start + 8, n) == r.state.payload[..n]
  {}

  lemma ReadKeepsInv(s: Ring, cap: nat)
    requires Inv(s)
    ensures Inv(Read(s, cap).0)
  {
    if s.pending != [] {
      SizeKeepsAligned(s.consumer, s.pending[0].len);
      ChainBounds(s.pending, s.consumer, s.producer, 0);
      var t := Read(s, cap).0;
      if t != s {
        forall i | 0 <= i < |t.pending|
          ensures Holds(t.mem, t.pending[i])
        {
          assert t.pending[i] == s.pending[i + 1];
        }
      }
    }
  }

  // ----- Producer steps keep the invariant -----

  /** A write that does not touch r's bytes within one turn of the ring leaves r as it is. */
  lemma WriteLeaves(m: Memory, r: Rec, pos: nat, bs: seq<byte>)
    requires Holds(m, r) && |bs| <= RING
    requires (r.start + Size(r.len) <= pos && pos + |bs| <= r.start + RING) ||
             (pos + |bs| <= r.start && r.start + Size(r.len) <= pos + RING)
    ensures Holds(Put(m, pos, bs), r)
  {
    forall q | r.start <= q < r.start + Size(r.len)
      ensures Cell(Put(m, pos, bs), q) == Cell(m, q)
    {
      PutCell(m, pos, bs, q);
    }
  }

  /** Writing a header makes the memory say so. */
  lemma WriteHeader(m: Memory, pos: nat, len: nat, flag: nat)
    requires len < DISCARD && (flag == 0 || flag == BUSY || flag == DISCARD)
    ensures HeaderAt(Put(m, pos, Header(len, flag)), pos) == len + flag
  {
    var bs := Header(len, flag);
    PutCell(m, pos, bs, pos);
    PutCell(m, pos, bs, pos + 1);
    PutCell(m, pos, bs, pos + 2);
    PutCell(m, pos, bs, pos + 3);
  }

  lemma ReserveKeepsInv(s: Ring, len: nat)
    requires Inv(s)
    ensures Inv(Reserve(s, len))
  {
    var t := Reserve(s, len);
    if t != s {
      var r := Rec(s.producer, len, Busy);
      SizeKeepsAligned(s.producer, len);
      ChainGrows(s.pending, s.consumer, s.producer, r);
      AllReservedHold(s, len, r, t.mem, t.pending);
    }
  }

  lemma AllReservedHold(s: Ring, len: nat, r: Rec, m: Memory, recs: seq<Rec>)
    requires Inv(s) && len < DISCARD && s.producer + Size(len) < s.consumer + RING
    requires r == Rec(s.producer, len, Busy) && recs == s.pending + [r]
    requires m == Put(s.mem, s.producer, Header(len, BUSY))
    ensures forall i {:trigger Holds(m, recs[i])} :: 0 <= i < |recs| ==> Holds(m, recs[i])
  {
    forall i | 0 <= i < |recs|
      ensures Holds(m, recs[i])
    {
      ReservedHolds(s, len, r, i);
    }
  }

  lemma ReservedHolds(s: Ring, len: nat, r: Rec, i: nat)
    requires Inv(s) && len < DISCARD && s.producer + Size(len) < s.consumer + RING
    requires r == Rec(s.producer, len, Busy) && i <= |s.pending|
    ensures Holds(Put(s.mem, s.producer, Header(len, BUSY)), (s.pending + [r])[i])
  {
    if i < |s.pending| {
      ChainBounds(s.pending, s.consumer, s.producer, i);
      WriteLeaves(s.mem, s.pending[i], s.producer, Header(len, BUSY));
    } else {
      WriteHeader(s.mem, s.producer, len, BUSY);
    }
  }

  /** Writing within an open record leaves the others as they are. */
  lemma WriteWithinLeaves(s: Ring, m: Memory, k: nat, i: nat, pos: nat, bs: seq<byte>)
    requires Inv(s) && k < |s.pending| && i < |s.pending| && i != k && Holds(m, s.pending[i])
    requires s.pending[k].start <= pos && pos + |bs| <= s.pending[k].start + Size(s.pending[k].len)
    ensures Holds(Put(m, pos, bs), s.pending[i])
  {
    ChainBounds(s.pending, s.consumer, s.producer, k);
    ChainBounds(s.pending, s.consumer, s.producer, i);
    if i < k {
      ChainApart(s.pending, s.consumer, s.producer, i, k);
    } else {
      ChainApart(s.pending, s.consumer, s.producer, k, i);
    }
    WriteLeaves(m, s.pending[i], pos, bs);
  }

  lemma DiscardKeepsInv(s: Ring, k: nat)
    requires Inv(s)
    ensures Inv(Discard(s, k))
  {
    if Open(s, k) {
      var t := Discard(s, k);
      var r := s.pending[k];
      ChainIgnoresState(s.pending, s.consumer, s.producer, k, Discarded);
      WriteHeader(s.mem, r.start, r.len, DISCARD);
      forall i | 0 <= i < |t.pending|
        ensures Holds(t.mem, t.pending[i])
      {
        if i != k {
          WriteWithinLeaves(s, s.mem, k, i, r.start, Header(r.len, DISCARD));
        }
      }
    }
  }

  lemma CommitKeepsInv(s: Ring, k: nat, payload: seq<byte>)
    requires Inv(s)
    ensures Inv(Commit(s, k, payload))
  {
    if Open(s, k) && |payload| == s.pending[k].len {
      ChainIgnoresState(s.pending, s.consumer, s.producer, k, Committed(payload));
      CommitHolds(s, k, payload);
    }
  }

  lemma CommitHolds(s: Ring, k: nat, payload: seq<byte>)
    requires Inv(s) && Open(s, k) && |payload| == s.pending[k].len
    ensures var t := Commit(s, k, payload);
            forall i {:trigger Holds(t.mem, t.pending[i])} :: 0 <= i < |t.pending| ==> Holds(t.mem, t.pending[i])
  {
    var t := Commit(s, k, payload);
    var r := s.pending[k];
    var m := Put(s.mem, r.start + 8, payload);
    ChainBounds(s.pending, s.consumer, s.producer, k);
    WriteHeader(m, r.start, r.len, 0);
    forall j | 0 <= j < r.len
      ensures Cell(t.mem, r.start + 8 + j) == payload[j]
    {
      PutCell(s.mem, r.start + 8, payload, r.start + 8 + j);
      PutCell(m, r.start, Header(r.len, 0), r.start + 8 + j);
    }
    forall i | 0 <= i < |t.pending|
      ensures Holds(t.mem, t.pending[i])
    {
      if i != k {
        WriteWithinLeaves(s, s.mem, k, i, r.start + 8, payload);
        WriteWithinLeaves(s, m, k, i, r.start, Header(r.len, 0));
      }
    }
  }

  // ----- Runs -----

  datatype Step = DoReserve(len: nat) | DoCommit(k: nat, payload: seq<byte>) | DoDiscard(k: nat) | DoRead

  function Apply(s: Ring, step: Step, cap: nat): (Ring, seq<seq<byte>>)
  {
    match step
    case DoReserve(len) => (Reserve(s, len), [])
    case DoCommit(k, payload) => (Commit(s, k, payload), [])
    case DoDiscard(k) => (Discard(s, k), [])
    case DoRead => var (t, out) := Read(s, cap); (t, if out.Some? then [out.value] else [])
  }

  /** The state after a run, and everything its polls returned, in order. */
  function Run(s: Ring, steps: seq<Step>, cap: nat): (Ring, seq<seq<byte>>)
    decreases steps
  {
    if steps == [] then (s, []) else
    var (t, out) := Apply(s, steps[0], cap);
    var (u, rest) := Run(t, steps[1..], cap);
    (u, out + rest)
  }

  /** The committed payloads among recs, in order, each cut to the buffer. */
  function Delivered(recs: seq<Rec>, cap: nat): seq<seq<byte>>
    decreases |recs|
  {
    if recs == [] then [] else
    (if recs[0].state.Committed? then [recs[0].state.payload[..Min(|recs[0].state.payload|, cap)]] else [])
      + Delivered(recs[1..], cap)
  }

  lemma {:induction false} DeliveredAppends(a: seq<Rec>, b: seq<Rec>, cap: nat)
    ensures Delivered(a + b, cap) == Delivered(a, cap) + Delivered(b, cap)
    decreases |a|
  {
    if a == [] {
      assert a + b == b;
    } else {
      DeliveredAppends(a[1..], b, cap);
      assert (a + b)[1..] == a[1..] + b;
    }
  }

  lemma StepKeepsInv(s: Ring, step: Step, cap: nat)
    requires Inv(s)
    ensures Inv(Apply(s, step, cap).0)
  {
    match step
    case DoReserve(len) => ReserveKeepsInv(s, len);
    case DoCommit(k, payload) => CommitKeepsInv(s, k, payload);
    case DoDiscard(k) => DiscardKeepsInv(s, k);
    case DoRead => ReadKeepsInv(s, cap);
  }

  /** What one step returns is what it adds to the passed records. */
  lemma StepDelivers(s: Ring, step: Step, cap: nat)
    ensures var (t, out) := Apply(s, step, cap);
            s.passed <= t.passed && Delivered(t.passed, cap) == Delivered(s.passed, cap) + out
  {
    if step.DoRead? && s.pending != [] && !s.pending[0].state.Busy? {
      DeliveredAppends(s.passed, [s.pending[0]], cap);
      assert [s.pending[0]][1..] == [];
    }
  }

  lemma {:induction false} RunKeepsInv(s: Ring, steps: seq<Step>, cap: nat)
    requires Inv(s)
    ensures Inv(Run(s, steps, cap).0)
    decreases steps
  {
    if steps != [] {
      StepKeepsInv(s, steps[0], cap);
      RunKeepsInv(Apply(s, steps[0], cap).0, steps[1..], cap);
    }
  }

  /** Over every interleaving of producer steps and reads, what the reads return is the
      committed records they passed: in reservation order, each once, and no other. */
  lemma {:induction false} RunDelivers(s: Ring, steps: seq<Step>, cap: nat)
    ensures Delivered(Run(s, steps, cap).0.passed, cap) == Delivered(s.passed, cap) + Run(s, steps, cap).1
    decreases steps
  {
    var before := Delivered(s.passed, cap);
    if steps == [] {
      assert before + [] == before;
    } else {
      var (t, out) := Apply(s, steps[0], cap);
      StepDelivers(s, steps[0], cap);
      RunDelivers(t, steps[1..], cap);
      var rest := Run(t, steps[1..], cap).1;
      assert (before + out) + rest == before + (out + rest);
    }
  }

  /** No step forgets or reorders a reservation: the reservations made are those passed and
      those pending, and a run only closes open ones and appends new ones. */
  ghost predicate Extends(t: Ring, s: Ring)
  {
    var before, after := s.passed + s.pending, t.passed + t.pending;
    |before| <= |after| &&
    forall i :: 0 <= i < |before| ==>
      after[i].start == before[i].start && after[i].len == before[i].len &&
      (!before[i].state.Busy? ==> after[i] == before[i])
  }

  lemma {:induction false} RunExtends(s: Ring, steps: seq<Step>, cap: nat)
    ensures Extends(Run(s, steps, cap).0, s)
    decreases steps
  {
    if steps != [] {
      var t := Apply(s, steps[0], cap).0;
      RunExtends(t, steps[1..], cap);
      StepExtends(s, steps[0], cap);
    }
  }

  lemma StepExtends(s: Ring, step: Step, cap: nat)
    ensures Extends(Apply(s, step, cap).0, s)
  {
    var t := Apply(s, step, cap).0;
    if step.DoRead? && t != s {
      assert t.passed + t.pending == s.passed + s.pending;
    }
  }

  /** From an empty ring, the polls return exactly the committed records among those passed. */
  lemma FreshRunDelivers(s: Ring, steps: seq<Step>, cap: nat)
    requires Fresh(s)
    ensures var (t, outs) := Run(s, steps, cap);
            Inv(t) && outs == Delivered(t.passed, cap)
  {
    RunKeepsInv(s, steps, cap);
    RunDelivers(s, steps, cap);
    var outs := Run(s, steps, cap).1;
    assert [] + outs == outs;
  }

  /** Once no reservation is open, one read per pending record passes them all, and the
      consumer has caught up with the producer. */
  lemma PollsDrain(s: Ring, polls: seq<Step>, cap: nat)
    requires Inv(s) && |polls| == |s.pending| && forall i :: 0 <= i < |polls| ==> polls[i] == DoRead
    requires forall i :: 0 <= i < |s.pending| ==> !s.pending[i].state.Busy?
    ensures var t := Run(s, polls, cap).0;
            t.pending == [] && t.passed == s.passed + s.pending && t.consumer == t.producer == s.producer
  {
    RunKeepsInv(s, polls, cap);
    PollsPass(s, polls, cap, s.passed + s.pending);
  }

  lemma {:induction false} PollsPass(s: Ring, polls: seq<Step>, cap: nat, all: seq<Rec>)
    requires |polls| == |s.pending| && forall i :: 0 <= i < |polls| ==> polls[i] == DoRead
    requires forall i :: 0 <= i < |s.pending| ==> !s.pending[i].state.Busy?
    requires all == s.passed + s.pending
    ensures var t := Run(s, polls, cap).0;
            t.pending == [] && t.passed == all && t.producer == s.producer
    decreases polls
  {
    if polls == [] {
      assert all == s.passed;
    } else {
      var t := Read(s, cap).0;
      assert t.passed + t.pending == all;
      PollsPass(t, polls[1..], cap, all);
    }
  }
}

/** The /proc-polling event source: diffs of process tables turned into one numbered stream. */
module ProcSource {
  import opened Lists

  /** What a snapshot knows of a process; only `exe` decides whether it counts as new. */
  datatype Info = Info(exe: string, rest: string)

  type Table = map<int, Info>

  datatype Event =
    | Process(seqNo: nat, pid: int, info: Info)
    | Network(seqNo: nat, pid: int, info: Info, conn: string)

  /** What happens when the source next looks: a snapshot with the connections each process
      has, a failure, or a cancellation. */
  datatype Poll =
    | Snapshot(table: Table, conns: int -> seq<string>)
    | Failure
    | Cancel

  /** `Waiting`: nothing more has happened yet. */
  datatype Outcome = Delivered(e: Event) | Eof | Failed | Cancelled | Waiting

  /** `root` tells whether connections are read; `interval` paces the polls. */
  datatype Config = Config(root: bool, interval: nat)

  datatype State = State(prev: Table, queue: seq<Event>, seqNo: nat, started: bool)

  const FRESH := State(map[], [], 0, false)

  // ----- Differences of tables -----

  predicate Changed(prev: Table, cur: Table, pid: int)
  {
    pid in cur && (pid !in prev || prev[pid].exe != cur[pid].exe)
  }

  ghost predicate Ascending(pids: seq<int>)
  {
    forall i, j :: 0 <= i < j < |pids| ==> pids[i] < pids[j]
  }

  lemma HasMember(s: set<int>)
    requires s != {}
    ensures exists x :: x in s
  {
    assert (forall x :: x !in s) ==> s == {};
  }

  /** The elements of a set in ascending order. */
  ghost function InAscending(s: set<int>): (r: seq<int>)
    ensures Ascending(r) && forall x :: x in r <==> x in s
  {
    if s == {} then [] else
    LeastExists(s);
    var m :| m in s && forall x :: x in s ==> m <= x;
    var rest := InAscending(s - {m});
    assert forall x :: x in rest <==> x in s - {m};
    assert forall i :: 0 <= i < |rest| ==> rest[i] in rest;
    [m] + rest
  }

  lemma {:induction false} LeastExists(s: set<int>)
    requires s != {}
    ensures exists m :: m in s && forall x :: x in s ==> m <= x
    decreases |s|
  {
    HasMember(s);
    var y :| y in s;
    var rest := s - {y};
    assert s == rest + {y};
    if rest != {} {
      LeastExists(rest);
      var m :| m in rest && forall x :: x in rest ==> m <= x;
      LeastOfTwo(s, rest, y, m);
    }
  }

  lemma LeastOfTwo(s: set<int>, rest: set<int>, y: int, m: int)
    requires s == rest + {y} && m in rest && forall x :: x in rest ==> m <= x
    ensures exists l :: l in s && forall x :: x in s ==> l <= x
  {
    var l := if m < y then m else y;
    assert l in s && forall x :: x in s ==> l <= x;
  }

  /** One order only. */
  lemma {:induction false} AscendingIsUnique(a: seq<int>, b: seq<int>)
    requires Ascending(a) && Ascending(b) && forall x :: x in a <==> x in b
    ensures a == b
    decreases |a|
  {
    assert |b| > 0 ==> b[0] in b;
    if a != [] {
      assert a[0] in a;
      assert b != [];
      assert a[0] in b && b[0] in a;
      forall x
        ensures x in a[1..] <==> x in b[1..]
      {
        assert x in a <==> x == a[0] || x in a[1..];
        assert x in b <==> x == b[0] || x in b[1..];
      }
      AscendingIsUnique(a[1..], b[1..]);
    }
  }

  ghost function ChangedPids(prev: Table, cur: Table): (r: seq<int>)
    ensures Ascending(r) && forall pid :: pid in r <==> Changed(prev, cur, pid)
    ensures forall i :: 0 <= i < |r| ==> r[i] in cur
  {
    var r := InAscending(set pid | pid in cur && Changed(prev, cur, pid));
    assert forall i :: 0 <= i < |r| ==> r[i] in r;
    r
  }

  /** The events of one process: the exec, then its connections. */
  function EventsOf(cfg: Config, pid: int, info: Info, conns: seq<string>): seq<Event>
  {
    [Process(0, pid, info)] + (if cfg.root then Map(conns, (c: string) => Network(0, pid, info, c)) else [])
  }

  function EventsOfAll(cfg: Config, pids: seq<int>, cur: Table, conns: int -> seq<string>): seq<Event>
    requires forall i :: 0 <= i < |pids| ==> pids[i] in cur
    decreases |pids|
  {
    if pids == [] then [] else
    var last := pids[|pids| - 1];
    EventsOfAll(cfg, pids[..|pids| - 1], cur, conns) + EventsOf(cfg, last, cur[last], conns(last))
  }

  /** What one snapshot adds: for every new or re-executed process, in ascending order. */
  ghost function PollEvents(cfg: Config, prev: Table, cur: Table, conns: int -> seq<string>): seq<Event>
  {
    EventsOfAll(cfg, ChangedPids(prev, cur), cur, conns)
  }

  /** Events numbered from n + 1. */
  function Numbered(es: seq<Event>, n: nat): (r: seq<Event>)
    ensures |r| == |es|
  {
    seq(|es|, i requires 0 <= i < |es| => es[i].(seqNo := n + 1 + i))
  }

  predicate SameTable(a: Table, b: Table)
  {
    a.Keys == b.Keys && forall pid :: pid in a ==> a[pid].exe == b[pid].exe
  }

  // ----- One call of Next -----

  /** The state after a snapshot was taken on an empty queue. */
  ghost function Take(cfg: Config, s: State, cur: Table, conns: int -> seq<string>): State
  {
    var queue := Numbered(PollEvents(cfg, s.prev, cur, conns), s.seqNo);
    State(cur, queue, s.seqNo + |queue|, true)
  }

  /** Next: the new state, the outcome, and what is still to happen. */
  ghost function NextF(cfg: Config, s: State, polls: seq<Poll>): (State, Outcome, seq<Poll>)
    decreases |polls|
  {
    if s.queue != [] then (s.(queue := s.queue[1..]), Delivered(s.queue[0]), polls)
    else if polls == [] then (s, Waiting, [])
    else match polls[0]
      case Cancel => (s, Cancelled, polls[1..])
      case Failure => (s, Failed, polls[1..])
      case Snapshot(cur, conns) =>
        var t := Take(cfg, s, cur, conns);
        if t.queue != [] then (t.(queue := t.queue[1..]), Delivered(t.queue[0]), polls[1..])
        else if cfg.interval == 0 && s.started && SameTable(s.prev, cur) then (t, Eof, polls[1..])
        else NextF(cfg, t, polls[1..])
  }

  // ----- The source -----

  method DiffProcTable(prev: Table, cur: Table) returns (pids: seq<int>)
    ensures pids == ChangedPids(prev, cur)
  {
    pids := [];
    var todo := cur.Keys;
    while todo != {}
      invariant todo <= cur.Keys
      invariant forall i, j :: 0 <= i < j < |pids| ==> pids[i] != pids[j]
      invariant forall pid :: pid in pids <==> pid in cur.Keys - todo && Changed(prev, cur, pid)
      decreases |todo|
    {
      HasMember(todo);
      var pid :| pid in todo;
      assert pid !in pids;
      if pid !in prev || prev[pid].exe != cur[pid].exe {
        pids := pids + [pid];
      }
      todo := todo - {pid};
    }
    var sorted := SortInts(pids);
    AscendingIsUnique(sorted, ChangedPids(prev, cur));
    pids := sorted;
  }

  /** sort.Ints on distinct numbers. */
  method SortInts(s: seq<int>) returns (r: seq<int>)
    requires forall i, j :: 0 <= i < j < |s| ==> s[i] != s[j]
    ensures Ascending(r) && forall x :: x in r <==> x in s
  {
    r := [];
    for k := 0 to |s|
      invariant Ascending(r) && forall x :: x in r <==> x in s[..k]
    {
      var i := 0;
      while i < |r| && r[i] < s[k]
        invariant 0 <= i <= |r| && forall j :: 0 <= j < i ==> r[j] < s[k]
      {
        i := i + 1;
      }
      assert i < |r| ==> r[i] in s[..k] && r[i] != s[k];
      ghost var before := r;
      r := r[..i] + [s[k]] + r[i..];
      InsertedMembers(before, i, s[k], r);
      assert s[..k + 1] == s[..k] + [s[k]];
    }
    assert s[..|s|] == s;
  }

  lemma InsertedMembers(s: seq<int>, i: nat, x: int, r: seq<int>)
    requires i <= |s| && r == s[..i] + [x] + s[i..]
    ensures forall y :: y in r <==> y in s || y == x
  {
    assert s == s[..i] + s[i..];
  }

  method SameProcTable(a: Table, b: Table) returns (same: bool)
    ensures same == SameTable(a, b)
  {
    if |a| != |b| {
      return false;
    }
    var todo := a.Keys;
    while todo != {}
      invariant todo <= a.Keys
      invariant forall pid :: pid in a.Keys - todo ==> pid in b && a[pid].exe == b[pid].exe
      decreases |todo|
    {
      HasMember(todo);
      var pid :| pid in todo;
      if pid !in b || a[pid].exe != b[pid].exe {
        return false;
      }
      todo := todo - {pid};
    }
    assert forall pid :: pid in a.Keys ==> pid in b.Keys;
    SubsetOfSameSize(a.Keys, b.Keys);
    same := true;
  }

  lemma {:induction false} SubsetOfSameSize(a: set<int>, b: set<int>)
    requires a <= b && |a| == |b|
    ensures a == b
    decreases |a|
  {
    if a == {} {
      assert |b| == 0;
    } else {
      HasMember(a);
      var x :| x in a;
      SubsetOfSameSize(a - {x}, b - {x});
      assert a == (a - {x}) + {x} && b == (b - {x}) + {x};
    }
  }

  class Source {
    const cfg: Config
    var prev: Table
    var queue: seq<Event>
    var seqNo: nat
    var started: bool

    constructor (cfg: Config)
      ensures this.cfg == cfg && Now() == FRESH
    {
      this.cfg := cfg;
      prev, queue, seqNo, started := map[], [], 0, false;
    }

    ghost function Now(): State
      reads this
    {
      State(prev, queue, seqNo, started)
    }

    method Enqueue(pids: seq<int>, cur: Table, conns: int -> seq<string>)
      requires queue == [] && forall i :: 0 <= i < |pids| ==> pids[i] in cur
      modifies this`queue
      ensures queue == EventsOfAll(cfg, pids, cur, conns)
    {
      for k := 0 to |pids|
        invariant queue == EventsOfAll(cfg, pids[..k], cur, conns)
      {
        assert pids[..k + 1][..k] == pids[..k];
        queue := queue + EventsOf(cfg, pids[k], cur[pids[k]], conns(pids[k]));
      }
      assert pids[..|pids|] == pids;
    }

    method NumberQueue()
      modifies this`queue, this`seqNo
      ensures queue == Numbered(old(queue), old(seqNo)) && seqNo == old(seqNo) + |queue|
    {
      for i := 0 to |queue|
        invariant |queue| == |old(queue)| && seqNo == old(seqNo) + i
        invariant forall j :: 0 <= j < i ==> queue[j] == old(queue)[j].(seqNo := old(seqNo) + 1 + j)
        invariant forall j :: i <= j < |queue| ==> queue[j] == old(queue)[j]
      {
        seqNo := seqNo + 1;
        queue := queue[i := queue[i].(seqNo := seqNo)];
      }
    }

    /** The part of Next behind the wait: diff, queue and number. */
    method Refill(cur: Table, conns: int -> seq<string>)
      requires queue == []
      modifies this
      ensures Now() == Take(cfg, old(Now()), cur, conns)
    {
      var before := prev;
      prev := cur;
      started := true;
      var pids := DiffProcTable(before, cur);
      Enqueue(pids, cur, conns);
      NumberQueue();
    }

    method Next(polls: seq<Poll>) returns (r: Outcome, rest: seq<Poll>)
      modifies this
      ensures (Now(), r, rest) == NextF(cfg, old(Now()), polls)
    {
      rest := polls;
      while true
        invariant NextF(cfg, Now(), rest) == NextF(cfg, old(Now()), polls)
        decreases |rest|
      {
        if queue != [] {
          r := Delivered(queue[0]);
          queue := queue[1..];
          return;
        }
        if rest == [] {
          return Waiting, [];
        }
        var poll := rest[0];
        rest := rest[1..];
        match poll {
          case Cancel =>
            return Cancelled, rest;
          case Failure =>
            return Failed, rest;
          case Snapshot(cur, conns) =>
            var wasStarted := started;
            var before := prev;
            Refill(cur, conns);
            if queue != [] {
              r := Delivered(queue[0]);
              queue := queue[1..];
              return;
            }
            var same := SameProcTable(before, cur);
            if cfg.interval == 0 && wasStarted && same {
              return Eof, rest;
            }
        }
      }
    }
  }

  // ----- What a run delivers -----

  /** The table last seen. */
  function TableAfter(polls: seq<Poll>): Table
    decreases |polls|
  {
    if polls == [] then map[]
    else if polls[|polls| - 1].Snapshot? then polls[|polls| - 1].table
    else TableAfter(polls[..|polls| - 1])
  }

  /** The whole stream these polls call for. */
  ghost function Stream(cfg: Config, polls: seq<Poll>): seq<Event>
    decreases |polls|
  {
    if polls == [] then [] else
    var init, last := polls[..|polls| - 1], polls[|polls| - 1];
    if !last.Snapshot? then Stream(cfg, init) else
    Stream(cfg, init) + Numbered(PollEvents(cfg, TableAfter(init), last.table, last.conns), |Stream(cfg, init)|)
  }

  /** The events delivered by n calls, the state and the polls left. */
  ghost function Calls(cfg: Config, polls: seq<Poll>, n: nat): (r: (seq<Event>, State, seq<Poll>))
    decreases n
  {
    if n == 0 then ([], FRESH, polls) else
    var (got, s, left) := Calls(cfg, polls, n - 1);
    var (t, o, rest) := NextF(cfg, s, left);
    (if o.Delivered? then got + [o.e] else got, t, rest)
  }

  /** The source has turned these polls into delivered and queued events, none lost. */
  ghost predicate Accounts(cfg: Config, used: seq<Poll>, got: seq<Event>, s: State)
  {
    && got + s.queue == Stream(cfg, used)
    && s.prev == TableAfter(used) && s.seqNo == |Stream(cfg, used)|
    && (s.started <==> exists i :: 0 <= i < |used| && used[i].Snapshot?)
  }

  lemma AfterSnapshot(cfg: Config, used: seq<Poll>, got: seq<Event>, s: State, p: Poll, more: seq<Poll>)
    requires Accounts(cfg, used, got, s) && s.queue == [] && p.Snapshot? && more == used + [p]
    ensures Accounts(cfg, more, got, Take(cfg, s, p.table, p.conns))
  {
    assert more[..|more| - 1] == used && more[|more| - 1] == p;
    assert got == Stream(cfg, used);
  }

  lemma AfterOther(cfg: Config, used: seq<Poll>, got: seq<Event>, s: State, p: Poll, more: seq<Poll>)
    requires Accounts(cfg, used, got, s) && !p.Snapshot? && more == used + [p]
    ensures Accounts(cfg, more, got, s)
  {
    assert more[..|more| - 1] == used && more[|more| - 1] == p;
    assert forall i :: 0 <= i < |used| ==> more[i] == used[i];
  }

  lemma AfterDelivery(cfg: Config, used: seq<Poll>, got: seq<Event>, s: State)
    requires Accounts(cfg, used, got, s) && s.queue != []
    ensures Accounts(cfg, used, got + [s.queue[0]], s.(queue := s.queue[1..]))
  {
    assert got + [s.queue[0]] + s.queue[1..] == got + s.queue;
  }

  /** One call keeps the account. */
  lemma {:induction false} NextAccounts(cfg: Config, used: seq<Poll>, got: seq<Event>, s: State, polls: seq<Poll>)
      returns (more: seq<Poll>)
    requires Accounts(cfg, used, got, s)
    ensures var (t, o, rest) := NextF(cfg, s, polls);
            Accounts(cfg, more, if o.Delivered? then got + [o.e] else got, t) && more + rest == used + polls
    decreases |polls|
  {
    more := used;
    if s.queue != [] {
      AfterDelivery(cfg, used, got, s);
    } else if polls != [] {
      var p := polls[0];
      more := used + [p];
      assert more + polls[1..] == used + polls;
      if p.Snapshot? {
        AfterSnapshot(cfg, used, got, s, p, more);
        var t := Take(cfg, s, p.table, p.conns);
        if t.queue != [] {
          AfterDelivery(cfg, more, got, t);
        } else if !(cfg.interval == 0 && s.started && SameTable(s.prev, p.table)) {
          more := NextAccounts(cfg, more, got, t, polls[1..]);
        }
      } else {
        AfterOther(cfg, used, got, s, p, more);
      }
    }
  }

  /** After any number of calls, what was delivered and what is queued is exactly the stream
      of the polls used so far. */
  lemma {:induction false} CallsDeliverTheStream(cfg: Config, polls: seq<Poll>, n: nat) returns (used: seq<Poll>)
    ensures var (got, s, left) := Calls(cfg, polls, n);
            Accounts(cfg, used, got, s) && used + left == polls
    decreases n
  {
    if n == 0 {
      used := [];
    } else {
      var u := CallsDeliverTheStream(cfg, polls, n - 1);
      var (got, s, left) := Calls(cfg, polls, n - 1);
      used := NextAccounts(cfg, u, got, s, left);
    }
  }

  /** The stream is numbered 1, 2, 3, ... */
  lemma {:induction false} StreamIsNumbered(cfg: Config, polls: seq<Poll>)
    ensures forall i :: 0 <= i < |Stream(cfg, polls)| ==> Stream(cfg, polls)[i].seqNo == i + 1
    decreases |polls|
  {
    if polls != [] {
      StreamIsNumbered(cfg, polls[..|polls| - 1]);
    }
  }

  /** Over every run the k-th event delivered carries number k. */
  lemma DeliveredAreNumbered(cfg: Config, polls: seq<Poll>, n: nat)
    ensures var got := Calls(cfg, polls, n).0;
            forall i :: 0 <= i < |got| ==> got[i].seqNo == i + 1
  {
    var used := CallsDeliverTheStream(cfg, polls, n);
    StreamIsNumbered(cfg, used);
    var (got, s, left) := Calls(cfg, polls, n);
    assert forall i :: 0 <= i < |got| ==> got[i] == (got + s.queue)[i];
  }

  // ----- The stream tells the current executables -----

  /** What a reader knows of each process from the exec events. */
  function Learned(es: seq<Event>): map<int, string>
    decreases |es|
  {
    if es == [] then map[] else
    var rest, last := Learned(es[..|es| - 1]), es[|es| - 1];
    if last.Process? then rest[last.pid := last.info.exe] else rest
  }

  lemma {:induction false} LearnedAppend(a: seq<Event>, b: seq<Event>)
    ensures Learned(a + b) == Learned(a) + Learned(b)
    decreases |b|
  {
    if b == [] {
      assert a + b == a;
    } else {
      assert (a + b)[..|a + b| - 1] == a + b[..|b| - 1];
      LearnedAppend(a, b[..|b| - 1]);
    }
  }

  lemma {:induction false} LearnedNumbered(es: seq<Event>, n: nat)
    ensures Learned(Numbered(es, n)) == Learned(es)
    decreases |es|
  {
    if es != [] {
      assert Numbered(es, n)[..|es| - 1] == Numbered(es[..|es| - 1], n);
      LearnedNumbered(es[..|es| - 1], n);
    }
  }

  lemma {:induction false} LearnedFromNetwork(es: seq<Event>)
    requires forall i :: 0 <= i < |es| ==> es[i].Network?
    ensures Learned(es) == map[]
    decreases |es|
  {
    if es != [] {
      LearnedFromNetwork(es[..|es| - 1]);
    }
  }

  lemma LearnedFromOne(cfg: Config, pid: int, info: Info, conns: seq<string>)
    ensures Learned(EventsOf(cfg, pid, info, conns)) == map[pid := info.exe]
  {
    var es := EventsOf(cfg, pid, info, conns);
    var head := [Process(0, pid, info)];
    assert es == head + es[1..];
    LearnedAppend(head, es[1..]);
    LearnedFromNetwork(es[1..]);
    assert head[..0] == [];
  }

  lemma {:induction false} LearnedFromAll(cfg: Config, pids: seq<int>, cur: Table, conns: int -> seq<string>)
    requires forall i :: 0 <= i < |pids| ==> pids[i] in cur
    ensures Learned(EventsOfAll(cfg, pids, cur, conns)) == map pid | pid in pids :: cur[pid].exe
    decreases |pids|
  {
    if pids != [] {
      var init, last := pids[..|pids| - 1], pids[|pids| - 1];
      LearnedFromAll(cfg, init, cur, conns);
      LearnedFromOne(cfg, last, cur[last], conns(last));
      LearnedAppend(EventsOfAll(cfg, init, cur, conns), EventsOf(cfg, last, cur[last], conns(last)));
      OneMorePid(pids, init, last, cur);
    }
  }

  lemma OneMorePid(pids: seq<int>, init: seq<int>, last: int, cur: Table)
    requires pids == init + [last]
    requires last in cur && forall pid :: pid in init ==> pid in cur
    ensures (map pid | pid in pids :: cur[pid].exe) == (map pid | pid in init :: cur[pid].exe) + map[last := cur[last].exe]
  {
    assert forall pid :: pid in pids <==> pid in init || pid == last;
  }

  /** A reader of the stream knows the executable of every process in the last table. */
  lemma {:induction false} StreamTellsExecutables(cfg: Config, polls: seq<Poll>)
    ensures forall pid :: pid in TableAfter(polls) ==>
      pid in Learned(Stream(cfg, polls)) && Learned(Stream(cfg, polls))[pid] == TableAfter(polls)[pid].exe
    decreases |polls|
  {
    if polls != [] {
      var init, last := polls[..|polls| - 1], polls[|polls| - 1];
      StreamTellsExecutables(cfg, init);
      if last.Snapshot? {
        var prev := TableAfter(init);
        var es := PollEvents(cfg, prev, last.table, last.conns);
        var earlier := Stream(cfg, init);
        LearnedAppend(earlier, Numbered(es, |earlier|));
        LearnedNumbered(es, |earlier|);
        LearnedFromAll(cfg, ChangedPids(prev, last.table), last.table, last.conns);
      }
    }
  }

  /** Whenever the queue is empty, the events delivered tell the current executable of every
      live process. */
  lemma DeliveredTellExecutables(cfg: Config, polls: seq<Poll>, n: nat)
    ensures var (got, s, left) := Calls(cfg, polls, n);
            s.queue == [] ==> forall pid :: pid in s.prev ==> pid in Learned(got) && Learned(got)[pid] == s.prev[pid].exe
  {
    var used := CallsDeliverTheStream(cfg, polls, n);
    StreamTellsExecutables(cfg, used);
    var (got, s, left) := Calls(cfg, polls, n);
    if s.queue == [] {
      assert got == got + s.queue;
    }
  }

  // ----- The end of the stream -----

  /** A paced source never ends. */
  lemma {:induction false} PacedSourceNeverEnds(cfg: Config, s: State, polls: seq<Poll>)
    requires cfg.interval > 0
    ensures !NextF(cfg, s, polls).1.Eof?
    decreases |polls|
  {
    if s.queue == [] && polls != [] && polls[0].Snapshot? {
      PacedSourceNeverEnds(cfg, Take(cfg, s, polls[0].table, polls[0].conns), polls[1..]);
    }
  }

  /** An unpaced source ends exactly when, some quiet snapshots on, one shows the same table
      as the one before. */
  ghost predicate SettlesWithin(s: State, polls: seq<Poll>)
    decreases |polls|
  {
    && polls != [] && polls[0].Snapshot?
    && (forall pid :: !Changed(s.prev, polls[0].table, pid))
    && ((s.started && SameTable(s.prev, polls[0].table)) ||
        SettlesWithin(State(polls[0].table, [], s.seqNo, true), polls[1..]))
  }

  lemma {:induction false} UnpacedSourceEndsWhenSettled(cfg: Config, s: State, polls: seq<Poll>)
    requires cfg.interval == 0 && s.queue == []
    ensures NextF(cfg, s, polls).1.Eof? <==> SettlesWithin(s, polls)
    decreases |polls|
  {
    if polls != [] && polls[0].Snapshot? {
      var cur := polls[0].table;
      var t := Take(cfg, s, cur, polls[0].conns);
      QueueIsEmptyIff(cfg, s, cur, polls[0].conns);
      if t.queue == [] && !(s.started && SameTable(s.prev, cur)) {
        assert t == State(cur, [], s.seqNo, true);
        UnpacedSourceEndsWhenSettled(cfg, t, polls[1..]);
      }
    }
  }

  lemma QueueIsEmptyIff(cfg: Config, s: State, cur: Table, conns: int -> seq<string>)
    ensures Take(cfg, s, cur, conns).queue == [] <==> forall pid :: !Changed(s.prev, cur, pid)
  {
    var pids := ChangedPids(s.prev, cur);
    if pids != [] {
      assert pids[0] in pids;
      assert Changed(s.prev, cur, pids[0]);
    } else {
      forall pid
        ensures !Changed(s.prev, cur, pid)
      {
        assert pid !in pids;
      }
    }
  }
}

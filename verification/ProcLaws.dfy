/** What one look at the process table puts on the stream, told process by process. */
module ProcLaws {
  import opened Lists
  import opened ProcSource

  /** The process is new, or runs another executable than when last seen. */
  predicate IsNews(prev: Table, cur: Table, pid: int)
  {
    pid in cur && !(pid in prev && prev[pid].exe == cur[pid].exe)
  }

  /** The connections of a process, in the order in which they were found. */
  function Connections(cfg: Config, pid: int, info: Info, conns: seq<string>): seq<Event>
  {
    if cfg.root then seq(|conns|, i requires 0 <= i < |conns| => Network(0, pid, info, conns[i])) else []
  }

  lemma BlockOf(cfg: Config, pid: int, info: Info, conns: seq<string>)
    ensures EventsOf(cfg, pid, info, conns) == [Process(0, pid, info)] + Connections(cfg, pid, info, conns)
    ensures AreOf(EventsOf(cfg, pid, info, conns), [pid])
  {}

  /** The events are of these processes. */
  predicate AreOf(es: seq<Event>, pids: seq<int>)
  {
    forall i :: 0 <= i < |es| ==> es[i].pid in pids
  }

  lemma {:induction false} PidsOf(cfg: Config, pids: seq<int>, cur: Table, conns: int -> seq<string>)
    requires forall i :: 0 <= i < |pids| ==> pids[i] in cur
    ensures AreOf(EventsOfAll(cfg, pids, cur, conns), pids)
    decreases |pids|
  {
    if pids != [] {
      var init, last := pids[..|pids| - 1], pids[|pids| - 1];
      PidsOf(cfg, init, cur, conns);
      BlockOf(cfg, last, cur[last], conns(last));
      PidsOfBoth(EventsOfAll(cfg, init, cur, conns), EventsOf(cfg, last, cur[last], conns(last)), init, last, pids);
    }
  }

  lemma PidsOfBoth(a: seq<Event>, b: seq<Event>, init: seq<int>, last: int, pids: seq<int>)
    requires pids == init + [last]
    requires AreOf(a, init) && AreOf(b, [last])
    ensures AreOf(a + b, pids)
  {
    forall i | 0 <= i < |a + b|
      ensures (a + b)[i].pid in pids
    {
      assert (a + b)[i] == if i < |a| then a[i] else b[i - |a|];
    }
  }

  lemma OneMorePiece(before: seq<Event>, here: seq<Event>, rest: seq<Event>, more: seq<Event>, all: seq<Event>)
    requires all == before + here + rest
    ensures all + more == before + here + (rest + more)
  {}

  lemma {:induction false} SplitsAt(cfg: Config, pids: seq<int>, cur: Table, conns: int -> seq<string>, k: nat)
      returns (before: seq<Event>, after: seq<Event>)
    requires (forall i :: 0 <= i < |pids| ==> pids[i] in cur) && k < |pids|
    ensures EventsOfAll(cfg, pids, cur, conns) == before + EventsOf(cfg, pids[k], cur[pids[k]], conns(pids[k])) + after
    ensures AreOf(before, pids[..k]) && AreOf(after, pids[k + 1..])
    decreases |pids|
  {
    var init, last := pids[..|pids| - 1], pids[|pids| - 1];
    var here := EventsOf(cfg, pids[k], cur[pids[k]], conns(pids[k]));
    if k == |init| {
      before, after := EventsOfAll(cfg, init, cur, conns), [];
      PidsOf(cfg, init, cur, conns);
      assert init == pids[..k];
      assert before + here + [] == before + here;
    } else {
      var rest;
      before, rest := SplitsAt(cfg, init, cur, conns, k);
      var more := EventsOf(cfg, last, cur[last], conns(last));
      BlockOf(cfg, last, cur[last], conns(last));
      after := rest + more;
      OneMorePiece(before, here, rest, more, EventsOfAll(cfg, init, cur, conns));
      PidsOfBoth(rest, more, init[k + 1..], last, pids[k + 1..]);
      assert init[..k] == pids[..k] && init[k] == pids[k];
    }
  }

  /** A process that is news puts its start and then its connections on the stream, as one piece
      between those of the processes with smaller and with larger numbers. */
  lemma NewsIsTold(cfg: Config, prev: Table, cur: Table, conns: int -> seq<string>, pid: int)
      returns (before: seq<Event>, after: seq<Event>)
    requires IsNews(prev, cur, pid)
    ensures PollEvents(cfg, prev, cur, conns) ==
            before + ([Process(0, pid, cur[pid])] + Connections(cfg, pid, cur[pid], conns(pid))) + after
    ensures forall i :: 0 <= i < |before| ==> before[i].pid < pid
    ensures forall i :: 0 <= i < |after| ==> pid < after[i].pid
  {
    var pids := ChangedPids(prev, cur);
    assert pid in pids;
    var k :| 0 <= k < |pids| && pids[k] == pid;
    before, after := SplitsAt(cfg, pids, cur, conns, k);
    BlockOf(cfg, pid, cur[pid], conns(pid));
  }

  /** And nothing else is put on it. */
  lemma OnlyNewsIsTold(cfg: Config, prev: Table, cur: Table, conns: int -> seq<string>, i: nat)
    requires i < |PollEvents(cfg, prev, cur, conns)|
    ensures IsNews(prev, cur, PollEvents(cfg, prev, cur, conns)[i].pid)
  {
    PidsOf(cfg, ChangedPids(prev, cur), cur, conns);
    var es := PollEvents(cfg, prev, cur, conns);
    assert AreOf(es, ChangedPids(prev, cur));
    assert es[i].pid in ChangedPids(prev, cur);
    assert Changed(prev, cur, es[i].pid);
  }

  /** The stream ends at a second look that tells no news and finds every process still there. */
  lemma EndsIff(cfg: Config, s: State, table: Table, conns: int -> seq<string>)
    requires s.queue == []
    ensures NextF(cfg, s, [Snapshot(table, conns)]).1.Eof? <==>
            && cfg.interval == 0 && s.started && s.prev.Keys == table.Keys
            && forall pid :: pid in table ==> s.prev[pid].exe == table[pid].exe
  {
    assert [Snapshot(table, conns)][1..] == [];
    var t := Take(cfg, s, table, conns);
    if s.prev.Keys == table.Keys && forall pid :: pid in table ==> s.prev[pid].exe == table[pid].exe {
      assert SameTable(s.prev, table);
      if t.queue != [] {
        OnlyNewsIsTold(cfg, s.prev, table, conns, 0);
        assert false;
      }
    }
  }
}

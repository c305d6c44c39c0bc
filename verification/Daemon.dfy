/** The sensor's loops: the detector, the daemon around it with its event ring and operator
    exceptions, and what the second owes to the first. */
module Daemon {
  import opened Lists
  import opened Text

  datatype Detection = Detection(
    seqNo: nat, ruleId: string, imageRef: string, containerName: string, containerId: string,
    metadata: map<string, string>, args: seq<string>, message: string)

  /** The detection rules: any deterministic steps that thread the sensor's state. */
  datatype RuleSet<!S, !E> = RuleSet(
    initial: S,
    observe: (S, E) -> S,
    rules: seq<(S, E) -> (S, seq<Detection>)>)

  /** What an event source delivers before it ends or breaks off with an error. */
  datatype Feed<E> = Feed(events: seq<E>, failed: bool)

  // ----- The detector -----

  function Evaluate<S, E>(rules: seq<(S, E) -> (S, seq<Detection>)>, s: S, ev: E): (S, seq<Detection>)
    decreases |rules|
  {
    if rules == [] then (s, []) else
    var (t, out) := Evaluate(rules[..|rules| - 1], s, ev);
    var (u, more) := rules[|rules| - 1](t, ev);
    (u, out + more)
  }

  /** One event: the state it leaves and the detections it raises, in rule order. */
  function ProcessF<S, E>(rs: RuleSet<S, E>, s: S, ev: E): (S, seq<Detection>)
  {
    Evaluate(rs.rules, rs.observe(s, ev), ev)
  }

  function StateAfter<S, E>(rs: RuleSet<S, E>, events: seq<E>): S
    decreases |events|
  {
    if events == [] then rs.initial
    else ProcessF(rs, StateAfter(rs, events[..|events| - 1]), events[|events| - 1]).0
  }

  /** The detections of event k. */
  function RaisedBy<S, E>(rs: RuleSet<S, E>, events: seq<E>, k: nat): seq<Detection>
    requires k < |events|
  {
    ProcessF(rs, StateAfter(rs, events[..k]), events[k]).1
  }

  /** All detections, as they are raised. */
  function Raised<S, E>(rs: RuleSet<S, E>, events: seq<E>): seq<Detection>
    decreases |events|
  {
    if events == [] then [] else
    Raised(rs, events[..|events| - 1]) + RaisedBy(rs, events, |events| - 1)
  }

  /** Canonical order: by event sequence, then rule id. */
  predicate Precedes(a: Detection, b: Detection)
  {
    a.seqNo < b.seqNo || (a.seqNo == b.seqNo && TextLess(a.ruleId, b.ruleId))
  }

  lemma PrecedesRanks()
    ensures Ranks(Precedes)
  {
    forall x: Detection, y: Detection | Precedes(x, y)
      ensures !Precedes(y, x)
    {
      TextLessIsTotal(x.ruleId, y.ruleId);
    }
    forall x: Detection, y: Detection, z: Detection | Precedes(x, y) && !Precedes(z, y)
      ensures Precedes(x, z)
    {
      TextLessIsTotal(y.ruleId, z.ruleId);
      if TextLess(x.ruleId, y.ruleId) && TextLess(y.ruleId, z.ruleId) {
        TextLessIsTransitive(x.ruleId, y.ruleId, z.ruleId);
      }
    }
  }

  class Detector<S, E> {
    const rs: RuleSet<S, E>
    var state: S

    constructor (rs: RuleSet<S, E>)
      ensures this.rs == rs && state == rs.initial
    {
      this.rs := rs;
      state := rs.initial;
    }

    method Process(ev: E) returns (out: seq<Detection>)
      modifies this
      ensures (state, out) == ProcessF(rs, old(state), ev)
    {
      out := [];
      state := rs.observe(state, ev);
      for k := 0 to |rs.rules|
        invariant (state, out) == Evaluate(rs.rules[..k], rs.observe(old(state), ev), ev)
      {
        assert rs.rules[..k + 1][..k] == rs.rules[..k];
        var (s, more) := rs.rules[k](state, ev);
        state := s;
        out := out + more;
      }
      assert rs.rules[..|rs.rules|] == rs.rules;
    }

    /** Detector.Run: drains the source from the state reached; the detections so far, in
        order, even on an error. */
    method Run(src: Feed<E>) returns (all: seq<Detection>, failed: bool)
      modifies this
      ensures all == StableSort(Raised(rs.(initial := old(state)), src.events), Precedes)
      ensures state == StateAfter(rs.(initial := old(state)), src.events)
      ensures failed == src.failed
    {
      ghost var from := rs.(initial := state);
      all := [];
      for k := 0 to |src.events|
        invariant state == StateAfter(from, src.events[..k])
        invariant all == Raised(from, src.events[..k])
      {
        assert src.events[..k + 1][..k] == src.events[..k];
        var ds := Process(src.events[k]);
        all := all + ds;
      }
      assert src.events[..|src.events|] == src.events;
      all := StableSort(all, Precedes);
      failed := src.failed;
    }
  }

  // ----- The ring of recent events -----

  class EventRing<E> {
    var buf: seq<E>
    const size: nat
    var n: nat

    ghost predicate Valid()
      reads this
    {
      && 0 < size && |buf| <= size
      && (if n < size then |buf| == n else |buf| == size)
    }

    /** The buffered events, oldest first. */
    ghost function Contents(): seq<E>
      requires Valid()
      reads this
    {
      if |buf| < size then buf else buf[n % size..] + buf[..n % size]
    }

    constructor (size: nat)
      requires size > 0
      ensures Valid() && Contents() == [] && this.size == size
    {
      buf := [];
      this.size := size;
      n := 0;
    }

    /** The ring now holds the last `size` events of what it held and the new one. */
    method Push(ev: E)
      requires Valid()
      modifies this
      ensures Valid() && Contents() == LastN(old(Contents()) + [ev], size)
    {
      SlotAfter(n, 1, size);
      if |buf| < size {
        buf := buf + [ev];
      } else {
        buf := buf[n % size := ev];
      }
      n := n + 1;
    }

    method Slice() returns (out: seq<E>)
      requires Valid()
      ensures out == Contents()
    {
      if |buf| < size {
        return buf;
      }
      out := [];
      for i := 0 to size
        invariant out == Contents()[..i]
      {
        SlotAfter(n, i, size);
        out := out + [buf[(n + i) % size]];
      }
    }
  }

  /** The slot i steps further on. */
  lemma SlotAfter(n: nat, i: nat, size: nat)
    requires size > 0 && i <= size
    ensures n < size ==> n % size == n
    ensures (n + i) % size == if n % size + i < size then n % size + i else n % size + i - size
  {
    var q, r := n / size, n % size;
    assert n == q * size + r;
    if r + i < size {
      Residue(n + i, q, r + i, size);
    } else {
      assert (q + 1) * size == q * size + size;
      Residue(n + i, q + 1, r + i - size, size);
    }
    if n < size {
      Residue(n, 0, n, size);
    }
  }

  lemma Residue(a: int, q: int, r: int, m: nat)
    requires m > 0 && a == q * m + r && 0 <= r < m
    ensures a % m == r
  {
    var k := q - a / m;
    assert k * m == a % m - r;
    Multiples(k, m);
  }

  lemma Multiples(k: int, m: int)
    requires m >= 0
    ensures k >= 1 ==> k * m >= m
    ensures k <= -1 ==> k * m <= -m
  {}

  // ----- Operator exceptions -----

  datatype Exception = Exception(ruleId: string, imageRef: string, container: string, pathPrefix: string, argSubstr: string)

  predicate Contains(s: string, t: string)
  {
    exists i :: 0 <= i <= |s| && t <= s[i..]
  }

  function JoinSpace(args: seq<string>): string
  {
    if args == [] then "" else if |args| == 1 then args[0] else args[0] + " " + JoinSpace(args[1..])
  }

  function PathOf(d: Detection): string
  {
    if "path" in d.metadata then d.metadata["path"] else ""
  }

  /** The rule id and every scope that is set agree. */
  predicate Matches(ex: Exception, d: Detection)
  {
    && ex.ruleId == d.ruleId
    && (ex.imageRef == "" || ex.imageRef == d.imageRef)
    && (ex.container == "" || ex.container == d.containerName || ex.container == d.containerId)
    && (ex.pathPrefix == "" || ex.pathPrefix <= PathOf(d))
    && (ex.argSubstr == "" || Contains(JoinSpace(d.args), ex.argSubstr))
  }

  predicate Suppressed(exceptions: seq<Exception>, d: Detection)
  {
    exists i :: 0 <= i < |exceptions| && Matches(exceptions[i], d)
  }

  // ----- The daemon -----

  /** `seal` captures and writes the forensic bundle of a detection with its window; "" where
      that is off or fails.  `plan` is the response policy. */
  datatype Config<!E, !A> = Config(
    windowSize: int,
    exceptions: seq<Exception>,
    plan: Detection -> A,
    seal: (Detection, seq<E>) -> string)
  {
    function Window(): (w: nat)
      ensures w > 0
    {
      if windowSize <= 0 then 32 else windowSize
    }

    function Kept(): Detection -> bool
    {
      (d: Detection) => !Suppressed(exceptions, d)
    }
  }

  datatype Record<A> = Record(detection: Detection, action: A, evidence: string)

  /** `emitted` is what the sink saw, in the order it saw it. */
  datatype DaemonResult<A> = DaemonResult(
    records: seq<Record<A>>, scanned: nat, evidence: seq<string>, suppressed: nat, emitted: seq<Record<A>>)

  predicate RecordPrecedes<A>(a: Record<A>, b: Record<A>)
  {
    Precedes(a.detection, b.detection)
  }

  function HandleF<E, A>(cfg: Config<E, A>, window: seq<E>): Detection -> Record<A>
  {
    (d: Detection) => Record(d, cfg.plan(d), cfg.seal(d, window))
  }

  /** The records of some detections: of the unsuppressed ones, sealed with the window. */
  function AnswersF<E, A>(cfg: Config<E, A>, ds: seq<Detection>, window: seq<E>): seq<Record<A>>
  {
    Map(Filter(ds, cfg.Kept()), HandleF(cfg, window))
  }

  lemma OneMoreAnswer<E, A>(cfg: Config<E, A>, ds: seq<Detection>, d: Detection, more: seq<Detection>, window: seq<E>)
    requires more == ds + [d]
    ensures AnswersF(cfg, more, window) ==
            AnswersF(cfg, ds, window) + (if cfg.Kept()(d) then [HandleF(cfg, window)(d)] else [])
  {
    FilterOfAppended(ds, d, more, cfg.Kept());
    MapAppend(Filter(ds, cfg.Kept()), [d], HandleF(cfg, window));
  }

  /** The records of event k: the window is the last Window() events up to and including it. */
  function RecordsBy<S, E, A>(cfg: Config<E, A>, rs: RuleSet<S, E>, events: seq<E>, k: nat): seq<Record<A>>
    requires k < |events|
  {
    AnswersF(cfg, RaisedBy(rs, events, k), LastN(events[..k + 1], cfg.Window()))
  }

  function Recorded<S, E, A>(cfg: Config<E, A>, rs: RuleSet<S, E>, events: seq<E>): seq<Record<A>>
    decreases |events|
  {
    if events == [] then [] else
    Recorded(cfg, rs, events[..|events| - 1]) + RecordsBy(cfg, rs, events, |events| - 1)
  }

  function HasEvidence<A>(): Record<A> -> bool
  {
    (r: Record<A>) => r.evidence != ""
  }

  function EvidenceOf<A>(): Record<A> -> string
  {
    (r: Record<A>) => r.evidence
  }

  function DetectionOf<A>(): Record<A> -> Detection
  {
    (r: Record<A>) => r.detection
  }

  /** The bundles that were written. */
  function EvidenceIn<A>(records: seq<Record<A>>): seq<string>
  {
    Map(Filter(records, HasEvidence()), EvidenceOf())
  }

  lemma EvidenceAppend<A>(a: seq<Record<A>>, b: seq<Record<A>>)
    ensures EvidenceIn(a + b) == EvidenceIn(a) + EvidenceIn(b)
  {
    FilterAppend(a, b, HasEvidence());
  }

  lemma EvidenceOfOne<A>(r: Record<A>)
    ensures EvidenceIn([r]) == if r.evidence != "" then [r.evidence] else []
  {
    FilterOfAppended([], r, [r], HasEvidence());
  }

  /** The state of one daemon run. */
  class Loop<S, E, A> {
    const cfg: Config<E, A>
    const det: Detector<S, E>
    const ring: EventRing<E>
    var scanned: nat
    var emitted: seq<Record<A>>
    var evidence: seq<string>
    var suppressed: nat

    constructor (cfg: Config<E, A>, rs: RuleSet<S, E>)
      ensures this.cfg == cfg && fresh(det) && fresh(ring) && det.rs == rs
      ensures Seen([])
    {
      this.cfg := cfg;
      det := new Detector(rs);
      ring := new EventRing(cfg.Window());
      scanned := 0;
      emitted := [];
      evidence := [];
      suppressed := 0;
    }

    /** The loop has consumed exactly these events. */
    ghost predicate Seen(events: seq<E>)
      reads this, det, ring
    {
      && scanned == |events|
      && det.state == StateAfter(det.rs, events)
      && ring.Valid() && ring.size == cfg.Window() && ring.Contents() == LastN(events, cfg.Window())
      && emitted == Recorded(cfg, det.rs, events)
      && evidence == EvidenceIn(emitted)
      && suppressed == |Raised(det.rs, events)| - |emitted|
    }

    method Handle(d: Detection) returns (r: Record<A>)
      requires ring.Valid()
      modifies this`emitted
      ensures r == HandleF(cfg, ring.Contents())(d)
      ensures emitted == old(emitted) + [r]
    {
      var action := cfg.plan(d);
      var recent := ring.Slice();
      var path := cfg.seal(d, recent);
      r := Record(d, action, path);
      emitted := emitted + [r];
    }

    /** One detection: suppressed, or answered and recorded. */
    method Answer(d: Detection)
      requires ring.Valid() && evidence == EvidenceIn(emitted)
      modifies this`emitted, this`evidence, this`suppressed
      ensures emitted == old(emitted) + (if cfg.Kept()(d) then [HandleF(cfg, ring.Contents())(d)] else [])
      ensures suppressed == old(suppressed) + if cfg.Kept()(d) then 0 else 1
      ensures evidence == EvidenceIn(emitted)
    {
      if Suppressed(cfg.exceptions, d) {
        suppressed := suppressed + 1;
        return;
      }
      var r := Handle(d);
      EvidenceAppend(old(emitted), [r]);
      EvidenceOfOne(r);
      if r.evidence != "" {
        evidence := evidence + [r.evidence];
      }
    }

    /** The detections of one event. */
    method AnswerAll(ds: seq<Detection>)
      requires ring.Valid() && evidence == EvidenceIn(emitted)
      modifies this`emitted, this`evidence, this`suppressed
      ensures emitted == old(emitted) + AnswersF(cfg, ds, ring.Contents())
      ensures evidence == EvidenceIn(emitted)
      ensures suppressed == old(suppressed) + |ds| - |AnswersF(cfg, ds, ring.Contents())|
    {
      ghost var window := ring.Contents();
      ghost var answers: seq<Record<A>> := [];
      for k := 0 to |ds|
        invariant answers == AnswersF(cfg, ds[..k], window)
        invariant emitted == old(emitted) + answers
        invariant evidence == EvidenceIn(emitted)
        invariant suppressed == old(suppressed) + k - |answers|
      {
        OneMoreAnswer(cfg, ds[..k], ds[k], ds[..k + 1], window);
        Answer(ds[k]);
        answers := AnswersF(cfg, ds[..k + 1], window);
      }
      assert ds[..|ds|] == ds;
    }

    /** One turn of the daemon's loop. */
    method Step(ev: E, ghost events: seq<E>)
      requires Seen(events)
      modifies this, det, ring
      ensures Seen(events + [ev])
    {
      ghost var upTo := events + [ev];
      assert upTo[..|events|] == events;
      scanned := scanned + 1;
      ring.Push(ev);
      assert ring.Contents() == LastN(upTo, cfg.Window());
      var ds := det.Process(ev);
      assert ds == RaisedBy(det.rs, upTo, |events|);
      assert upTo[..|upTo|] == upTo;
      AnswerAll(ds);
    }
  }

  /** DaemonConfig.Run. */
  method Run<S, E, A>(cfg: Config<E, A>, rs: RuleSet<S, E>, src: Feed<E>) returns (res: DaemonResult<A>, failed: bool)
    ensures failed == src.failed && res.scanned == |src.events|
    ensures res.emitted == Recorded(cfg, rs, src.events)
    ensures res.records == StableSort(res.emitted, RecordPrecedes)
    ensures res.evidence == EvidenceIn(res.emitted)
    ensures res.suppressed == |Raised(rs, src.events)| - |res.emitted|
  {
    var loop := new Loop(cfg, rs);
    for k := 0 to |src.events|
      invariant fresh(loop) && fresh(loop.det) && fresh(loop.ring)
      invariant loop.cfg == cfg && loop.det.rs == rs && loop.Seen(src.events[..k])
    {
      loop.Step(src.events[k], src.events[..k]);
      assert src.events[..k + 1] == src.events[..k] + [src.events[k]];
    }
    assert src.events[..|src.events|] == src.events;
    var records := StableSort(loop.emitted, RecordPrecedes);
    res := DaemonResult(records, loop.scanned, loop.evidence, loop.suppressed, loop.emitted);
    failed := src.failed;
  }

  // ----- What the daemon owes the detector -----

  lemma {:induction false} RecordedIsFilteredRaised<S, E, A>(cfg: Config<E, A>, rs: RuleSet<S, E>, events: seq<E>)
    ensures Map(Recorded(cfg, rs, events), DetectionOf()) == Filter(Raised(rs, events), cfg.Kept())
    decreases |events|
  {
    if events != [] {
      var k := |events| - 1;
      RecordedIsFilteredRaised(cfg, rs, events[..k]);
      var kept := Filter(RaisedBy(rs, events, k), cfg.Kept());
      FilterAppend(Raised(rs, events[..k]), RaisedBy(rs, events, k), cfg.Kept());
      assert Map(RecordsBy(cfg, rs, events, k), DetectionOf()) == kept;
      MapAppend(Recorded(cfg, rs, events[..k]), RecordsBy(cfg, rs, events, k), DetectionOf());
    }
  }

  /** The daemon's detections are the detector's, in the detector's order, without the
      suppressed ones. */
  lemma DaemonRefinesDetector<S, E, A>(cfg: Config<E, A>, rs: RuleSet<S, E>, events: seq<E>)
    ensures Map(StableSort(Recorded(cfg, rs, events), RecordPrecedes), DetectionOf()) ==
            Filter(StableSort(Raised(rs, events), Precedes), cfg.Kept())
  {
    var records := Recorded(cfg, rs, events);
    SortCommutesWithMap(records, DetectionOf(), RecordPrecedes, Precedes);
    RecordedIsFilteredRaised(cfg, rs, events);
    PrecedesRanks();
    SortCommutesWithFilter(Raised(rs, events), Precedes, cfg.Kept());
  }

  /** More exceptions only remove records, and never reorder the rest. */
  lemma MoreExceptionsFewerRecords<S, E, A>(cfg: Config<E, A>, more: Config<E, A>, rs: RuleSet<S, E>, events: seq<E>)
    requires forall ex :: ex in cfg.exceptions ==> ex in more.exceptions
    ensures Map(StableSort(Recorded(more, rs, events), RecordPrecedes), DetectionOf()) ==
            Filter(Map(StableSort(Recorded(cfg, rs, events), RecordPrecedes), DetectionOf()), more.Kept())
  {
    DaemonRefinesDetector(cfg, rs, events);
    DaemonRefinesDetector(more, rs, events);
    forall d: Detection
      ensures more.Kept()(d) ==> cfg.Kept()(d)
    {
      StillSuppressed(cfg.exceptions, more.exceptions, d);
    }
    FilterTwice(StableSort(Raised(rs, events), Precedes), cfg.Kept(), more.Kept());
  }

  lemma StillSuppressed(exceptions: seq<Exception>, more: seq<Exception>, d: Detection)
    requires forall ex :: ex in exceptions ==> ex in more
    ensures Suppressed(exceptions, d) ==> Suppressed(more, d)
  {
    if Suppressed(exceptions, d) {
      var i :| 0 <= i < |exceptions| && Matches(exceptions[i], d);
      assert exceptions[i] in more;
    }
  }

  lemma {:induction false} FilterTwice<T(!new)>(s: seq<T>, p: T -> bool, q: T -> bool)
    requires forall x :: q(x) ==> p(x)
    ensures Filter(Filter(s, p), q) == Filter(s, q)
    decreases |s|
  {
    if s != [] {
      FilterTwice(s[..|s| - 1], p, q);
      if p(s[|s| - 1]) {
        FilterOfAppended(Filter(s[..|s| - 1], p), s[|s| - 1], Filter(s, p), q);
      }
    }
  }

  /** Every record stands for one detection of one event, sealed with the events up to it. */
  lemma RecordsHaveTheirWindow<S, E, A>(cfg: Config<E, A>, rs: RuleSet<S, E>, events: seq<E>, r: Record<A>)
    requires r in StableSort(Recorded(cfg, rs, events), RecordPrecedes)
    ensures exists k :: 0 <= k < |events| && r in RecordsBy(cfg, rs, events, k)
  {
    SortMembers(Recorded(cfg, rs, events), RecordPrecedes);
    RecordedMembers(cfg, rs, events, r);
  }

  lemma {:induction false} RecordedMembers<S, E, A>(cfg: Config<E, A>, rs: RuleSet<S, E>, events: seq<E>, r: Record<A>)
    requires r in Recorded(cfg, rs, events)
    ensures exists k :: 0 <= k < |events| && r in RecordsBy(cfg, rs, events, k)
    decreases |events|
  {
    var init := events[..|events| - 1];
    if r in Recorded(cfg, rs, init) {
      RecordedMembers(cfg, rs, init, r);
      var k :| 0 <= k < |init| && r in RecordsBy(cfg, rs, init, k);
      assert init[..k] == events[..k] && init[..k + 1] == events[..k + 1] && init[k] == events[k];
      assert r in RecordsBy(cfg, rs, events, k);
    } else {
      assert r in RecordsBy(cfg, rs, events, |events| - 1);
    }
  }
}

/** The daemon's report told from the events: which detections are recorded, with which window,
    in which order, and what an operator's exception covers. */
module DaemonLaws {
  import opened Daemon
  import opened Lists
  import opened Text

  // ----- Exceptions -----

  /** Texts with a blank between them. */
  function Spaced(args: seq<string>): string
  {
    if args == [] then "" else if |args| == 1 then args[0] else Spaced(args[..|args| - 1]) + (" " + args[|args| - 1])
  }

  /** The exception is for this rule, and every scope that it sets fits the detection. */
  ghost predicate Excuses(ex: Exception, d: Detection)
  {
    && ex.ruleId == d.ruleId
    && (ex.imageRef != "" ==> ex.imageRef == d.imageRef)
    && (ex.container != "" ==> ex.container in [d.containerName, d.containerId])
    && (ex.pathPrefix != "" ==> "path" in d.metadata && exists rest :: d.metadata["path"] == ex.pathPrefix + rest)
    && (ex.argSubstr != "" ==> exists front, back :: Spaced(d.args) == front + ex.argSubstr + back)
  }

  lemma {:induction false} JoinsAppend(a: seq<string>, x: string)
    ensures JoinSpace(a + [x]) == if a == [] then x else JoinSpace(a) + (" " + x)
    decreases |a|
  {
    if |a| == 1 {
      assert (a + [x])[1..] == [x];
    } else if |a| > 1 {
      assert (a + [x])[1..] == a[1..] + [x];
      JoinsAppend(a[1..], x);
      assert a[0] + " " + (JoinSpace(a[1..]) + (" " + x)) == a[0] + " " + JoinSpace(a[1..]) + (" " + x);
    }
  }

  lemma {:induction false} JoinIsSpaced(args: seq<string>)
    ensures JoinSpace(args) == Spaced(args)
    decreases |args|
  {
    if |args| > 1 {
      var init, last := args[..|args| - 1], args[|args| - 1];
      assert args == init + [last];
      JoinIsSpaced(init);
      JoinsAppend(init, last);
    }
  }

  lemma ContainsIff(s: string, t: string)
    ensures Contains(s, t) <==> exists front, back :: s == front + t + back
  {
    if Contains(s, t) {
      var i :| 0 <= i <= |s| && t <= s[i..];
      assert s == s[..i] + t + s[i + |t|..];
    }
    if front, back :| s == front + t + back {
      assert s[|front|..] == t + back;
    }
  }

  lemma PrefixIff(s: string, t: string)
    ensures t <= s <==> exists rest :: s == t + rest
  {
    if t <= s {
      assert s == t + s[|t|..];
    }
  }

  lemma ExcusesIff(ex: Exception, d: Detection)
    ensures Matches(ex, d) <==> Excuses(ex, d)
  {
    JoinIsSpaced(d.args);
    ContainsIff(Spaced(d.args), ex.argSubstr);
    PrefixIff(PathOf(d), ex.pathPrefix);
    assert ex.pathPrefix != "" && "path" !in d.metadata ==> !(ex.pathPrefix <= PathOf(d));
  }

  // ----- Records -----

  /** The last events up to and including event k: as many as the window holds, 32 where no size
      is set. */
  ghost predicate IsWindow<E(!new), A>(cfg: Config<E, A>, events: seq<E>, k: nat, window: seq<E>)
    requires k < |events|
  {
    var size := if cfg.windowSize <= 0 then 32 else cfg.windowSize;
    && (exists front :: events[..k + 1] == front + window)
    && |window| == if k + 1 < size then k + 1 else size
  }

  /** The record of a detection that event k raised and no exception covers. */
  ghost predicate IsRecord<S, E(!new), A>(cfg: Config<E, A>, rs: RuleSet<S, E>, events: seq<E>, r: Record<A>, k: nat)
    requires k < |events|
  {
    && r.detection in RaisedBy(rs, events, k)
    && (forall ex :: ex in cfg.exceptions ==> !Excuses(ex, r.detection))
    && r.action == cfg.plan(r.detection)
    && exists window :: IsWindow(cfg, events, k, window) && r.evidence == cfg.seal(r.detection, window)
  }

  lemma WindowIff<E(!new), A>(cfg: Config<E, A>, events: seq<E>, k: nat, window: seq<E>)
    requires k < |events|
    ensures IsWindow(cfg, events, k, window) <==> window == LastN(events[..k + 1], cfg.Window())
  {
    var upTo := events[..k + 1];
    var last := LastN(upTo, cfg.Window());
    assert upTo == upTo[..|upTo| - |last|] + last;
    if IsWindow(cfg, events, k, window) {
      var front :| upTo == front + window;
      assert window == upTo[|front|..] && |window| == |last|;
    }
  }

  lemma KeptIff<E, A>(cfg: Config<E, A>, d: Detection)
    ensures cfg.Kept()(d) <==> forall ex :: ex in cfg.exceptions ==> !Excuses(ex, d)
  {
    forall ex
      ensures Matches(ex, d) <==> Excuses(ex, d)
    {
      ExcusesIff(ex, d);
    }
    if !cfg.Kept()(d) {
      var i :| 0 <= i < |cfg.exceptions| && Matches(cfg.exceptions[i], d);
      assert cfg.exceptions[i] in cfg.exceptions;
    }
    if ex :| ex in cfg.exceptions && Excuses(ex, d) {
      var i :| 0 <= i < |cfg.exceptions| && cfg.exceptions[i] == ex;
    }
  }

  lemma {:induction false} MapMembers<S, T>(s: seq<S>, f: S -> T, y: T)
    ensures y in Map(s, f) <==> exists x :: x in s && f(x) == y
  {
    if x :| x in s && f(x) == y {
      var i :| 0 <= i < |s| && s[i] == x;
      assert Map(s, f)[i] == y;
    }
  }

  lemma ByIff<S, E(!new), A>(cfg: Config<E, A>, rs: RuleSet<S, E>, events: seq<E>, r: Record<A>, k: nat)
    requires k < |events|
    ensures r in RecordsBy(cfg, rs, events, k) <==> IsRecord(cfg, rs, events, r, k)
  {
    var ds, d := RaisedBy(rs, events, k), r.detection;
    var window := LastN(events[..k + 1], cfg.Window());
    MapMembers(Filter(ds, cfg.Kept()), HandleF(cfg, window), r);
    FilterMembers(ds, cfg.Kept(), d);
    KeptIff(cfg, d);
    WindowIff(cfg, events, k, window);
    if IsRecord(cfg, rs, events, r, k) {
      var w :| IsWindow(cfg, events, k, w) && r.evidence == cfg.seal(d, w);
      WindowIff(cfg, events, k, w);
      assert HandleF(cfg, window)(d) == r;
    }
    if r in RecordsBy(cfg, rs, events, k) {
      var x :| x in Filter(ds, cfg.Kept()) && HandleF(cfg, window)(x) == r;
      assert x == d;
    }
  }

  lemma {:induction false} SomeEventRecords<S, E(!new), A>(cfg: Config<E, A>, rs: RuleSet<S, E>, events: seq<E>,
      r: Record<A>, k: nat)
    requires k < |events| && r in RecordsBy(cfg, rs, events, k)
    ensures r in Recorded(cfg, rs, events)
    decreases |events|
  {
    var init := events[..|events| - 1];
    if k < |init| {
      assert init[..k] == events[..k] && init[..k + 1] == events[..k + 1] && init[k] == events[k];
      SomeEventRecords(cfg, rs, init, r, k);
    }
  }

  /** A record is in the report exactly when some event raised its detection, no exception covers
      it, and it carries the planned action and the evidence sealed with that event's window. */
  lemma RecordedIff<S, E(!new), A>(cfg: Config<E, A>, rs: RuleSet<S, E>, events: seq<E>, r: Record<A>)
    ensures r in StableSort(Recorded(cfg, rs, events), RecordPrecedes) <==>
            exists k: nat :: k < |events| && IsRecord(cfg, rs, events, r, k)
  {
    SortMembers(Recorded(cfg, rs, events), RecordPrecedes);
    if r in StableSort(Recorded(cfg, rs, events), RecordPrecedes) {
      RecordsHaveTheirWindow(cfg, rs, events, r);
      var k: nat :| k < |events| && r in RecordsBy(cfg, rs, events, k);
      ByIff(cfg, rs, events, r, k);
    }
    if k: nat :| k < |events| && IsRecord(cfg, rs, events, r, k) {
      ByIff(cfg, rs, events, r, k);
      SomeEventRecords(cfg, rs, events, r, k);
    }
  }

  // ----- Order -----

  lemma RecordsRank<A(!new)>()
    ensures Ranks<Record<A>>(RecordPrecedes)
  {
    PrecedesRanks();
    forall x: Record<A>, y: Record<A>, z: Record<A> | RecordPrecedes(x, y) && !RecordPrecedes(z, y)
      ensures RecordPrecedes(x, z)
    {
      assert Precedes(x.detection, y.detection) && !Precedes(z.detection, y.detection);
    }
    forall x: Record<A>, y: Record<A> | RecordPrecedes(x, y)
      ensures !RecordPrecedes(y, x)
    {
      assert Precedes(x.detection, y.detection);
    }
  }

  /** The report goes by event number, and under one number by rule. */
  lemma RecordsAreOrdered<A(!new)>(emitted: seq<Record<A>>, i: nat, j: nat)
    requires i < j < |emitted|
    ensures var out := StableSort(emitted, RecordPrecedes);
            var a, b := out[i].detection, out[j].detection;
            a.seqNo <= b.seqNo && (a.seqNo == b.seqNo ==> !TextLess(b.ruleId, a.ruleId))
  {
    RecordsRank<A>();
    SortInOrder(emitted, RecordPrecedes);
    var out := StableSort(emitted, RecordPrecedes);
    assert !RecordPrecedes(out[j], out[i]);
  }

  /** So do the detector's detections. */
  lemma DetectionsAreOrdered(raised: seq<Detection>, i: nat, j: nat)
    requires i < j < |raised|
    ensures var out := StableSort(raised, Precedes);
            var a, b := out[i], out[j];
            a.seqNo <= b.seqNo && (a.seqNo == b.seqNo ==> !TextLess(b.ruleId, a.ruleId))
  {
    PrecedesRanks();
    SortInOrder(raised, Precedes);
    assert !Precedes(StableSort(raised, Precedes)[j], StableSort(raised, Precedes)[i]);
  }
}

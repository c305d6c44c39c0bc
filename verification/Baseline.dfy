/** The behavioural baseline: learning profiles from events, judging events by them, and
    turning them into seccomp allowlists. */
module Baseline {
  import opened Lists
  import opened Options
  import opened SortedText
  import opened Text

  datatype Kind = ProcessKind | FileKind | NetworkKind | SyscallKind | OtherKind

  datatype Container = Container(id: string, name: string, imageId: string, imageRef: string)

  datatype FileEvent = FileEvent(path: string, isWrite: bool)

  datatype NetworkEvent = NetworkEvent(domain: string, remoteIp: string, remotePort: int)

  datatype Event = Event(
    kind: Kind, container: Container, exe: string, caps: seq<string>,
    file: Option<FileEvent>, network: Option<NetworkEvent>, syscall: Option<string>)

  // ----- Keys -----

  /** A baseline is keyed by image, so that it covers every replica. */
  function WorkloadKey(c: Container): string
  {
    if c.imageId != "" then c.imageId else c.imageRef
  }

  function WorkloadImage(c: Container): string
  {
    if c.imageRef != "" then c.imageRef else c.imageId
  }

  function ContainerKey(c: Container): string
  {
    if c.id != "" then c.id else if c.name != "" then c.name + "@" + c.imageRef else c.imageRef
  }

  function Digits(n: nat): string
  {
    (if n < 10 then "" else Digits(n / 10)) + [('0' as nat + n % 10) as char]
  }

  function Itoa(n: int): string
  {
    if n < 0 then "-" + Digits(-n) else Digits(n)
  }

  function EndpointKey(n: NetworkEvent): string
  {
    if n.domain != "" then n.domain
    else if n.remoteIp == "" then ""
    else if n.remotePort != 0 then n.remoteIp + ":" + Itoa(n.remotePort)
    else n.remoteIp
  }

  // ----- What an event shows -----

  datatype Fact =
    | Uses(syscall: string)
    | Runs(exe: string)
    | Contacts(endpoint: string)
    | Holds(capability: string)
    | Reads(path: string)
    | Writes(path: string)
    | Execs(path: string)
    | HasNetwork

  /** The facts one event contributes to the profile of its workload. */
  ghost predicate Shows(ev: Event, f: Fact)
  {
    match f
    case Uses(s) =>
      || (ev.kind == ProcessKind && s == "execve")
      || (ev.kind == SyscallKind && ev.syscall == Some(s) && s != "")
      || (ev.kind == NetworkKind && ev.network.Some? && s == "connect")
      || (ev.kind == FileKind && s == "openat")
    case Runs(exe) => ev.kind == ProcessKind && exe != "" && ev.exe == exe
    case Execs(exe) => ev.kind == ProcessKind && exe != "" && ev.exe == exe
    case Contacts(ep) => ev.kind == NetworkKind && ev.network.Some? && ep != "" && EndpointKey(ev.network.value) == ep
    case Holds(c) => c in ev.caps
    case Reads(p) => ev.kind == FileKind && ev.file == Some(FileEvent(p, false)) && p != ""
    case Writes(p) => ev.kind == FileKind && ev.file == Some(FileEvent(p, true)) && p != ""
    case HasNetwork => ev.kind == NetworkKind && ev.network.Some?
  }

  // ----- Learning -----

  datatype ProfileSets = ProfileSets(
    image: string, syscalls: set<string>, exes: set<string>, endpoints: set<string>, caps: set<string>,
    fileReads: set<string>, fileWrites: set<string>, fileExecs: set<string>, network: bool)

  type Workloads = map<string, ProfileSets>

  ghost predicate Knows(ps: ProfileSets, f: Fact)
  {
    match f
    case Uses(s) => s in ps.syscalls
    case Runs(exe) => exe in ps.exes
    case Execs(p) => p in ps.fileExecs
    case Contacts(ep) => ep in ps.endpoints
    case Holds(c) => c in ps.caps
    case Reads(p) => p in ps.fileReads
    case Writes(p) => p in ps.fileWrites
    case HasNetwork => ps.network
  }

  function NewSets(image: string): ProfileSets
  {
    ProfileSets(image, {}, {}, {}, {}, {}, {}, {}, false)
  }

  function Fold(ps: ProfileSets, ev: Event): ProfileSets
  {
    var ps := ps.(caps := ps.caps + set c | c in ev.caps);
    match ev.kind
    case ProcessKind =>
      var ps := if ev.exe != "" then ps.(exes := ps.exes + {ev.exe}, fileExecs := ps.fileExecs + {ev.exe}) else ps;
      ps.(syscalls := ps.syscalls + {"execve"})
    case SyscallKind =>
      if ev.syscall.Some? && ev.syscall.value != "" then ps.(syscalls := ps.syscalls + {ev.syscall.value}) else ps
    case NetworkKind =>
      if ev.network.None? then ps else
      var ep := EndpointKey(ev.network.value);
      var ps := if ep != "" then ps.(endpoints := ps.endpoints + {ep}) else ps;
      ps.(syscalls := ps.syscalls + {"connect"}, network := true)
    case FileKind =>
      var ps := ps.(syscalls := ps.syscalls + {"openat"});
      if ev.file.None? || ev.file.value.path == "" then ps
      else if ev.file.value.isWrite then ps.(fileWrites := ps.fileWrites + {ev.file.value.path})
      else ps.(fileReads := ps.fileReads + {ev.file.value.path})
    case OtherKind => ps
  }

  function Record(ws: Workloads, ev: Event): Workloads
  {
    var key := WorkloadKey(ev.container);
    if key == "" then ws else
    ws[key := Fold(if key in ws then ws[key] else NewSets(WorkloadImage(ev.container)), ev)]
  }

  function Learned(events: seq<Event>): Workloads
    decreases |events|
  {
    if events == [] then map[] else Record(Learned(events[..|events| - 1]), events[|events| - 1])
  }

  datatype Profile = Profile(
    image: string, syscalls: seq<string>, exes: seq<string>, endpoints: seq<string>, capabilities: seq<string>,
    fileReads: seq<string>, fileWrites: seq<string>, fileExecs: seq<string>, network: bool)

  type Profiles = map<string, Profile>

  predicate SortedListOf(l: seq<string>, s: set<string>)
  {
    && (forall i, j :: 0 <= i < j < |l| ==> TextLess(l[i], l[j]))
    && (forall x :: x in l ==> x in s) && (forall x :: x in s ==> x in l)
  }

  /** The profile lists exactly what the sets hold, in order. */
  ghost predicate Freezes(p: Profile, ps: ProfileSets)
  {
    && p.image == ps.image && p.network == ps.network
    && SortedListOf(p.syscalls, ps.syscalls) && SortedListOf(p.exes, ps.exes) && SortedListOf(p.endpoints, ps.endpoints)
    && SortedListOf(p.capabilities, ps.caps) && SortedListOf(p.fileReads, ps.fileReads)
    && SortedListOf(p.fileWrites, ps.fileWrites) && SortedListOf(p.fileExecs, ps.fileExecs)
  }

  ghost predicate IsBaseline(b: Profiles, ws: Workloads)
  {
    b.Keys == ws.Keys && forall key :: key in ws ==> Freezes(b[key], ws[key])
  }

  method AddAll(s: set<string>, xs: seq<string>) returns (r: set<string>)
    ensures r == s + set x | x in xs
  {
    r := s;
    for i := 0 to |xs|
      invariant r == s + set x | x in xs[..i]
    {
      r := r + {xs[i]};
    }
    assert xs[..|xs|] == xs;
  }

  class Accumulator {
    var workloads: Workloads

    constructor ()
      ensures workloads == map[]
    {
      workloads := map[];
    }

    method RecordEvent(ev: Event)
      modifies this
      ensures workloads == Record(old(workloads), ev)
    {
      var key := WorkloadKey(ev.container);
      if key == "" {
        return;
      }
      if key !in workloads {
        workloads := workloads[key := NewSets(WorkloadImage(ev.container))];
      }
      var ps := workloads[key];
      var caps := AddAll(ps.caps, ev.caps);
      ps := ps.(caps := caps);
      match ev.kind {
        case ProcessKind =>
          if ev.exe != "" {
            ps := ps.(exes := ps.exes + {ev.exe}, fileExecs := ps.fileExecs + {ev.exe});
          }
          ps := ps.(syscalls := ps.syscalls + {"execve"});
        case SyscallKind =>
          if ev.syscall.Some? && ev.syscall.value != "" {
            ps := ps.(syscalls := ps.syscalls + {ev.syscall.value});
          }
        case NetworkKind =>
          if ev.network.Some? {
            var ep := EndpointKey(ev.network.value);
            if ep != "" {
              ps := ps.(endpoints := ps.endpoints + {ep});
            }
            ps := ps.(syscalls := ps.syscalls + {"connect"});
            ps := ps.(network := true);
          }
        case FileKind =>
          ps := ps.(syscalls := ps.syscalls + {"openat"});
          if ev.file.Some? && ev.file.value.path != "" {
            if ev.file.value.isWrite {
              ps := ps.(fileWrites := ps.fileWrites + {ev.file.value.path});
            } else {
              ps := ps.(fileReads := ps.fileReads + {ev.file.value.path});
            }
          }
        case OtherKind =>
      }
      workloads := workloads[key := ps];
    }

    /** Freezes what was learned. */
    method Build() returns (b: Profiles)
      ensures IsBaseline(b, workloads)
    {
      b := map[];
      var todo := workloads.Keys;
      while todo != {}
        invariant todo <= workloads.Keys && b.Keys == workloads.Keys - todo
        invariant forall key :: key in b ==> Freezes(b[key], workloads[key])
        decreases |todo|
      {
        var key :| key in todo;
        var p := Freeze(workloads[key]);
        b := b[key := p];
        todo := todo - {key};
      }
    }
  }

  method Freeze(ps: ProfileSets) returns (p: Profile)
    ensures Freezes(p, ps)
  {
    var syscalls := SortedKeys(ps.syscalls);
    var exes := SortedKeys(ps.exes);
    var endpoints := SortedKeys(ps.endpoints);
    var caps := SortedKeys(ps.caps);
    var fileReads := SortedKeys(ps.fileReads);
    var writes := SortedKeys(ps.fileWrites);
    var execs := SortedKeys(ps.fileExecs);
    p := Profile(ps.image, syscalls, exes, endpoints, caps, fileReads, writes, execs, ps.network);
  }

  /** A learning run. */
  method Learn(events: seq<Event>) returns (b: Profiles)
    ensures IsBaseline(b, Learned(events))
  {
    var acc := new Accumulator();
    for k := 0 to |events|
      invariant acc.workloads == Learned(events[..k])
    {
      assert events[..k + 1][..k] == events[..k];
      acc.RecordEvent(events[k]);
    }
    assert events[..|events|] == events;
    b := acc.Build();
  }

  // ----- What is learned -----

  lemma FoldAdds(ps: ProfileSets, ev: Event, f: Fact)
    ensures Knows(Fold(ps, ev), f) <==> Knows(ps, f) || Shows(ev, f)
    ensures Fold(ps, ev).image == ps.image
  {}

  /** Some event of the workload shows the fact. */
  ghost predicate Shown(events: seq<Event>, key: string, f: Fact)
  {
    exists i :: 0 <= i < |events| && WorkloadKey(events[i].container) == key && Shows(events[i], f)
  }

  ghost predicate Occurs(events: seq<Event>, key: string)
  {
    exists i :: 0 <= i < |events| && WorkloadKey(events[i].container) == key
  }

  /** A profile holds exactly the facts its workload's events show. */
  lemma {:induction false} LearnedIsShown(events: seq<Event>, key: string, f: Fact)
    requires key != ""
    ensures key in Learned(events) <==> Occurs(events, key)
    ensures key in Learned(events) ==> (Knows(Learned(events)[key], f) <==> Shown(events, key, f))
    ensures key !in Learned(events) ==> !Shown(events, key, f)
    decreases |events|
  {
    if events != [] {
      var init, ev := events[..|events| - 1], events[|events| - 1];
      LearnedIsShown(init, key, f);
      OneMoreEvent(init, ev, events, key, f);
      if WorkloadKey(ev.container) == key {
        var before := if key in Learned(init) then Learned(init)[key] else NewSets(WorkloadImage(ev.container));
        FoldAdds(before, ev, f);
      }
    }
  }

  lemma OneMoreEvent(init: seq<Event>, ev: Event, events: seq<Event>, key: string, f: Fact)
    requires events == init + [ev]
    ensures Occurs(events, key) <==> Occurs(init, key) || WorkloadKey(ev.container) == key
    ensures Shown(events, key, f) <==> Shown(init, key, f) || (WorkloadKey(ev.container) == key && Shows(ev, f))
  {
    assert forall i :: 0 <= i < |init| ==> events[i] == init[i];
    assert events[|init|] == ev;
  }

  lemma {:induction false} NoEmptyKey(events: seq<Event>)
    ensures "" !in Learned(events)
    decreases |events|
  {
    if events != [] {
      NoEmptyKey(events[..|events| - 1]);
    }
  }

  lemma SetsAgree(a: ProfileSets, b: ProfileSets)
    requires forall f :: Knows(a, f) <==> Knows(b, f)
    ensures a == b.(image := a.image)
  {
    forall s
      ensures s in a.syscalls <==> s in b.syscalls
      ensures s in a.exes <==> s in b.exes
      ensures s in a.endpoints <==> s in b.endpoints
      ensures s in a.caps <==> s in b.caps
      ensures s in a.fileReads <==> s in b.fileReads
      ensures s in a.fileWrites <==> s in b.fileWrites
      ensures s in a.fileExecs <==> s in b.fileExecs
    {
      assert Knows(a, Uses(s)) <==> Knows(b, Uses(s));
      assert Knows(a, Runs(s)) <==> Knows(b, Runs(s));
      assert Knows(a, Contacts(s)) <==> Knows(b, Contacts(s));
      assert Knows(a, Holds(s)) <==> Knows(b, Holds(s));
      assert Knows(a, Reads(s)) <==> Knows(b, Reads(s));
      assert Knows(a, Writes(s)) <==> Knows(b, Writes(s));
      assert Knows(a, Execs(s)) <==> Knows(b, Execs(s));
    }
    assert Knows(a, HasNetwork) <==> Knows(b, HasNetwork);
  }

  /** Order and repetition of events do not matter, but for the image name. */
  lemma LearningIgnoresOrder(events: seq<Event>, events': seq<Event>)
    requires forall e :: e in events <==> e in events'
    ensures Learned(events).Keys == Learned(events').Keys
    ensures forall key :: key in Learned(events) ==>
      Learned(events)[key] == Learned(events')[key].(image := Learned(events)[key].image)
  {
    NoEmptyKey(events);
    NoEmptyKey(events');
    forall key | key != ""
      ensures key in Learned(events) <==> key in Learned(events')
      ensures key in Learned(events) ==> Learned(events)[key] == Learned(events')[key].(image := Learned(events)[key].image)
    {
      forall f
        ensures Occurs(events, key) <==> Occurs(events', key)
        ensures Shown(events, key, f) <==> Shown(events', key, f)
      {
        ShownInOther(events, events', key, f);
        ShownInOther(events', events, key, f);
      }
      LearnedIsShown(events, key, HasNetwork);
      LearnedIsShown(events', key, HasNetwork);
      if key in Learned(events) {
        forall f
          ensures Knows(Learned(events)[key], f) <==> Knows(Learned(events')[key], f)
        {
          LearnedIsShown(events, key, f);
          LearnedIsShown(events', key, f);
        }
        SetsAgree(Learned(events)[key], Learned(events')[key]);
      }
    }
  }

  /** The frozen profiles are then equal list by list, but for the image name. */
  lemma ProfilesIgnoreOrder(b: Profiles, b': Profiles, events: seq<Event>, events': seq<Event>, key: string)
    requires forall e :: e in events <==> e in events'
    requires IsBaseline(b, Learned(events)) && IsBaseline(b', Learned(events'))
    ensures key in b <==> key in b'
    ensures key in b ==> b[key] == b'[key].(image := b[key].image)
  {
    LearningIgnoresOrder(events, events');
    if key in b {
      var p, p', ps := b[key], b'[key], Learned(events)[key];
      OneFreeze(p, p', ps, Learned(events')[key]);
    }
  }

  lemma OneFreeze(p: Profile, p': Profile, ps: ProfileSets, ps': ProfileSets)
    requires Freezes(p, ps) && Freezes(p', ps') && ps == ps'.(image := ps.image)
    ensures p == p'.(image := p.image)
  {
    OneList(p.syscalls, p'.syscalls, ps.syscalls);
    OneList(p.exes, p'.exes, ps.exes);
    OneList(p.endpoints, p'.endpoints, ps.endpoints);
    OneList(p.capabilities, p'.capabilities, ps.caps);
    OneList(p.fileReads, p'.fileReads, ps.fileReads);
    OneList(p.fileWrites, p'.fileWrites, ps.fileWrites);
    OneList(p.fileExecs, p'.fileExecs, ps.fileExecs);
  }

  lemma OneList(l: seq<string>, l': seq<string>, s: set<string>)
    requires SortedListOf(l, s) && SortedListOf(l', s)
    ensures l == l'
  {
    SortedIsUnique(l, l');
  }

  lemma ShownInOther(a: seq<Event>, b: seq<Event>, key: string, f: Fact)
    requires forall e :: e in a ==> e in b
    ensures Occurs(a, key) ==> Occurs(b, key)
    ensures Shown(a, key, f) ==> Shown(b, key, f)
  {
    if Occurs(a, key) {
      var i :| 0 <= i < |a| && WorkloadKey(a[i].container) == key;
      assert a[i] in b;
      var j :| 0 <= j < |b| && b[j] == a[i];
    }
    if Shown(a, key, f) {
      var i :| 0 <= i < |a| && WorkloadKey(a[i].container) == key && Shows(a[i], f);
      assert a[i] in b;
      var j :| 0 <= j < |b| && b[j] == a[i];
    }
  }

  // ----- Judging -----

  /** The fact of an event that the anomaly rule looks up. */
  function Judged(ev: Event): Option<Fact>
  {
    match ev.kind
    case ProcessKind => if ev.exe != "" then Some(Runs(ev.exe)) else None
    case SyscallKind => if ev.syscall.Some? && ev.syscall.value != "" then Some(Uses(ev.syscall.value)) else None
    case NetworkKind =>
      if ev.network.Some? && EndpointKey(ev.network.value) != "" then Some(Contacts(EndpointKey(ev.network.value)))
      else None
    case _ => None
  }

  /** What was reported already, by container. */
  datatype Marks = Marks(execs: set<(string, string)>, connects: set<(string, string)>)

  predicate Marked(m: Marks, ev: Event, f: Fact)
  {
    match f
    case Runs(exe) => (ContainerKey(ev.container) + "|anomaly", exe) in m.execs
    case Contacts(ep) => (ContainerKey(ev.container) + "|anomaly", ep) in m.connects
    case _ => false
  }

  function Mark(m: Marks, ev: Event, f: Fact): Marks
  {
    match f
    case Runs(exe) => m.(execs := m.execs + {(ContainerKey(ev.container) + "|anomaly", exe)})
    case Contacts(ep) => m.(connects := m.connects + {(ContainerKey(ev.container) + "|anomaly", ep)})
    case _ => m
  }

  /** The profile's lists know the fact, as the binary search finds it. */
  predicate Baselined(p: Profile, f: Fact)
  {
    match f
    case Uses(s) => IsFound(p.syscalls, s)
    case Runs(exe) => IsFound(p.exes, exe)
    case Contacts(ep) => IsFound(p.endpoints, ep)
    case _ => true
  }

  /** The event deviates from the baseline of its workload. */
  predicate Deviates(b: Profiles, ev: Event)
  {
    var key := WorkloadKey(ev.container);
    key in b && Judged(ev).Some? && !Baselined(b[key], Judged(ev).value)
  }

  /** The anomaly rule: what it reports, and what it remembers having reported. */
  function EvaluateF(b: Option<Profiles>, m: Marks, ev: Event): (Marks, Option<Fact>)
  {
    if b.None? || !Deviates(b.value, ev) || Marked(m, ev, Judged(ev).value) then (m, None)
    else (Mark(m, ev, Judged(ev).value), Judged(ev))
  }

  class AnomalyRule {
    const enabled: bool
    const baseline: Profiles
    var execSeen: set<(string, string)>
    var connectSeen: set<(string, string)>

    ghost function Now(): Marks
      reads this
    {
      Marks(execSeen, connectSeen)
    }

    ghost function InForce(): Option<Profiles>
    {
      if enabled then Some(baseline) else None
    }

    constructor (enableAnomaly: bool, baseline: Option<Profiles>)
      ensures InForce() == if enableAnomaly then baseline else None
      ensures Now() == Marks({}, {})
    {
      enabled := enableAnomaly && baseline.Some?;
      this.baseline := if baseline.Some? then baseline.value else map[];
      execSeen, connectSeen := {}, {};
    }

    method MarkExec(container: string, exe: string) returns (novel: bool)
      modifies this`execSeen
      ensures novel <==> (container, exe) !in old(execSeen)
      ensures execSeen == if novel then old(execSeen) + {(container, exe)} else old(execSeen)
    {
      if (container, exe) in execSeen {
        return false;
      }
      execSeen := execSeen + {(container, exe)};
      novel := true;
    }

    method MarkConnect(container: string, ep: string) returns (novel: bool)
      modifies this`connectSeen
      ensures novel <==> (container, ep) !in old(connectSeen)
      ensures connectSeen == if novel then old(connectSeen) + {(container, ep)} else old(connectSeen)
    {
      if (container, ep) in connectSeen {
        return false;
      }
      connectSeen := connectSeen + {(container, ep)};
      novel := true;
    }

    method Evaluate(ev: Event) returns (r: Option<Fact>)
      modifies this
      ensures (Now(), r) == EvaluateF(InForce(), old(Now()), ev)
    {
      r := None;
      if !enabled {
        return;
      }
      var key := WorkloadKey(ev.container);
      if key !in baseline {
        return;
      }
      var wp := baseline[key];
      match ev.kind {
        case ProcessKind =>
          var known := Contains(wp.exes, ev.exe);
          if ev.exe != "" && !known {
            var novel := MarkExec(ContainerKey(ev.container) + "|anomaly", ev.exe);
            if novel {
              r := Some(Runs(ev.exe));
            }
          }
        case SyscallKind =>
          if ev.syscall.Some? && ev.syscall.value != "" {
            var known := Contains(wp.syscalls, ev.syscall.value);
            if !known {
              r := Some(Uses(ev.syscall.value));
            }
          }
        case NetworkKind =>
          if ev.network.Some? {
            var ep := EndpointKey(ev.network.value);
            var known := Contains(wp.endpoints, ep);
            if ep != "" && !known {
              var novel := MarkConnect(ContainerKey(ev.container) + "|anomaly", ep);
              if novel {
                r := Some(Contacts(ep));
              }
            }
          }
        case _ =>
      }
    }
  }

  /** In a learned baseline the search finds exactly the members. */
  lemma LearnedIsFound(b: Profiles, ws: Workloads, key: string)
    requires IsBaseline(b, ws) && key in b
    ensures forall s :: IsFound(b[key].syscalls, s) <==> s in b[key].syscalls
    ensures forall s :: IsFound(b[key].exes, s) <==> s in b[key].exes
    ensures forall s :: IsFound(b[key].endpoints, s) <==> s in b[key].endpoints
  {
    assert Freezes(b[key], ws[key]);
    forall list, s | Strict(list, TextLess)
      ensures IsFound(list, s) <==> s in list
    {
      StrictInOrder(list);
      FoundIffMember(list, s);
    }
  }

  // ----- Baselines from elsewhere -----

  /** The lists of the profile hold the fact. */
  predicate InLists(p: Profile, f: Fact)
  {
    match f
    case Uses(s) => s in p.syscalls
    case Runs(exe) => exe in p.exes
    case Contacts(ep) => ep in p.endpoints
    case _ => true
  }

  /** The workload's events are judged as its lists say. */
  ghost predicate JudgedByLists(b: Profiles, key: string)
    requires key in b
  {
    forall ev: Event {:trigger Deviates(b, ev)} :: WorkloadKey(ev.container) == key ==>
      (Deviates(b, ev) <==> Judged(ev).Some? && !InLists(b[key], Judged(ev).value))
  }

  /** The search finds every member that an event can be judged by. */
  ghost predicate FindsNames(list: seq<string>)
  {
    forall v :: v in list && v != "" ==> IsFound(list, v)
  }

  /** An event of the workload that is judged by this fact. */
  function Witness(key: string, f: Fact): Event
  {
    var c := Container("", "", key, "");
    match f
    case Uses(s) => Event(SyscallKind, c, "", [], None, None, Some(s))
    case Runs(exe) => Event(ProcessKind, c, exe, [], None, None, None)
    case Contacts(ep) => Event(NetworkKind, c, "", [], None, Some(NetworkEvent(ep, "", 0)), None)
    case _ => Event(OtherKind, c, "", [], None, None, None)
  }

  /** For any baseline, events are judged as the lists say exactly when the search finds every
      name in them. */
  lemma JudgedByListsIff(b: Profiles, key: string)
    requires key in b
    ensures JudgedByLists(b, key) <==>
            FindsNames(b[key].syscalls) && FindsNames(b[key].exes) && FindsNames(b[key].endpoints)
  {
    var p := b[key];
    if JudgedByLists(b, key) {
      forall f: Fact | Judged(Witness(key, f)) == Some(f)
        ensures InLists(p, f) ==> Baselined(p, f)
      {
        assert WorkloadKey(Witness(key, f).container) == key;
        assert Deviates(b, Witness(key, f)) <==> !InLists(p, f);
      }
      forall v | v in p.syscalls && v != "" ensures IsFound(p.syscalls, v) { assert Baselined(p, Uses(v)); }
      forall v | v in p.exes && v != "" ensures IsFound(p.exes, v) { assert Baselined(p, Runs(v)); }
      forall v | v in p.endpoints && v != "" ensures IsFound(p.endpoints, v) { assert Baselined(p, Contacts(v)); }
    }
  }

  /** Lists without repetitions and empty names are judged by exactly when all three are ordered. */
  lemma JudgedByListsIffOrdered(b: Profiles, key: string)
    requires key in b && NoRepeats(b[key].syscalls) && NoRepeats(b[key].exes) && NoRepeats(b[key].endpoints)
    requires "" !in b[key].syscalls && "" !in b[key].exes && "" !in b[key].endpoints
    ensures JudgedByLists(b, key) <==>
            && InOrder(b[key].syscalls, TextLess) && InOrder(b[key].exes, TextLess)
            && InOrder(b[key].endpoints, TextLess)
  {
    JudgedByListsIff(b, key);
    FindsMembersIff(b[key].syscalls);
    FindsMembersIff(b[key].exes);
    FindsMembersIff(b[key].endpoints);
  }

  /** An empty name can stand out of order without any event being misjudged. */
  lemma EmptyNameIsNeverJudged()
    ensures FindsNames(["a", "b", ""]) && !InOrder(["a", "b", ""], TextLess)
  {
    var list := ["a", "b", ""];
    assert list[0][0] == 'a' && list[1][0] == 'b' && TextLess(list[2], list[1]);
    assert TextLess("a", "b") && !TextLess("b", "a") && !TextLess("a", "a") && !TextLess("b", "b");
    forall v | v in list && v != ""
      ensures IsFound(list, v)
    {
      assert v == list[0] || v == list[1];
      assert SearchBetween(list, v, 0, 3) == SearchBetween(list, v, 0, 1);
    }
  }

  /** Against a profile that lists write before read, reading is reported as never seen. */
  lemma ListedAndReported(m: Marks)
    ensures var p := Profile("app", ["write", "read"], [], [], [], [], [], [], false);
            var ev := Witness("app", Uses("read"));
            InLists(p, Uses("read")) && EvaluateF(Some(map["app" := p]), m, ev) == (m, Some(Uses("read")))
  {
    var list := ["write", "read"];
    assert list[0] == "write" && list[1] == "read" && list[0][0] == 'w' && list[1][0] == 'r';
    assert !TextLess("read", "read") by {
      TextLessIsTotal("read", "read");
    }
    assert SearchBetween(list, "read", 0, 2) == SearchBetween(list, "read", 0, 1) == SearchBetween(list, "read", 0, 0);
    assert !IsFound(list, "read");
  }

  // ----- Learn, then check -----

  /** What an event shows includes what it is judged by. */
  lemma JudgedIsShown(ev: Event)
    requires Judged(ev).Some?
    ensures Shows(ev, Judged(ev).value)
  {}

  /** Against a learned baseline an event deviates exactly when its workload occurred in
      learning and no event of that workload showed the fact. */
  lemma DeviatesIff(b: Profiles, events: seq<Event>, ev: Event)
    requires IsBaseline(b, Learned(events))
    ensures Deviates(b, ev) <==>
            var key := WorkloadKey(ev.container);
            key != "" && Occurs(events, key) && Judged(ev).Some? && !Shown(events, key, Judged(ev).value)
  {
    var key := WorkloadKey(ev.container);
    NoEmptyKey(events);
    if key != "" {
      LearnedIsShown(events, key, HasNetwork);
      if Judged(ev).Some? {
        LearnedIsShown(events, key, Judged(ev).value);
      }
      if key in b {
        assert Freezes(b[key], Learned(events)[key]);
        LearnedIsFound(b, Learned(events), key);
      }
    }
  }

  /** The marks and the number of reports after a run of the rule. */
  function Judge(b: Option<Profiles>, m: Marks, events: seq<Event>): (Marks, nat)
    decreases |events|
  {
    if events == [] then (m, 0) else
    var (m1, n) := Judge(b, m, events[..|events| - 1]);
    var (m2, r) := EvaluateF(b, m1, events[|events| - 1]);
    (m2, if r.Some? then n + 1 else n)
  }

  /** Events that were learned from never fire, in any order, with any repeats, from any state
      of the rule. */
  lemma {:induction false} LearnThenCheckIsQuiet(b: Profiles, events: seq<Event>, replay: seq<Event>, m: Marks)
    requires IsBaseline(b, Learned(events)) && forall e :: e in replay ==> e in events
    ensures Judge(Some(b), m, replay) == (m, 0)
    decreases |replay|
  {
    if replay != [] {
      var init, ev := replay[..|replay| - 1], replay[|replay| - 1];
      assert ev in replay;
      LearnThenCheckIsQuiet(b, events, init, m);
      DeviatesIff(b, events, ev);
      var key := WorkloadKey(ev.container);
      if Judged(ev).Some? {
        JudgedIsShown(ev);
        var i :| 0 <= i < |events| && events[i] == ev;
        assert Shown(events, key, Judged(ev).value);
      }
    }
  }

  // ----- Seccomp profiles -----

  const FLOOR: seq<string> := [
    "read", "write", "close", "fstat", "mmap", "mprotect", "munmap", "brk",
    "rt_sigaction", "rt_sigprocmask", "rt_sigreturn", "exit", "exit_group",
    "nanosleep", "clock_gettime", "gettimeofday", "getpid", "getppid",
    "futex", "sched_yield", "arch_prctl", "set_tid_address", "set_robust_list",
    "prlimit64", "getrandom", "epoll_create1", "epoll_ctl", "epoll_pwait"]

  /** A default-deny profile. */
  datatype Seccomp = Seccomp(allowed: seq<string>, image: string, observed: nat)

  method GenerateSeccompProfile(b: Option<Profiles>, key: string) returns (p: Option<Seccomp>)
    ensures p.Some? <==> b.Some? && key in b.value
    ensures p.Some? ==> Strict(p.value.allowed, TextLess)
    ensures p.Some? ==> forall s :: s in p.value.allowed <==> s in FLOOR || s in b.value[key].syscalls
    ensures p.Some? ==> p.value.image == b.value[key].image && p.value.observed == |b.value[key].syscalls|
  {
    if b.None? || key !in b.value {
      return None;
    }
    var wp := b.value[key];
    var allow: set<string> := {};
    for i := 0 to |FLOOR|
      invariant forall s :: s in allow <==> s in FLOOR[..i]
    {
      allow := allow + {FLOOR[i]};
    }
    ghost var floor := allow;
    assert FLOOR[..|FLOOR|] == FLOOR;
    for i := 0 to |wp.syscalls|
      invariant forall s :: s in allow <==> s in FLOOR || s in wp.syscalls[..i]
    {
      allow := allow + {wp.syscalls[i]};
    }
    assert wp.syscalls[..|wp.syscalls|] == wp.syscalls;
    var names := SortedKeys(allow);
    p := Some(Seccomp(names, wp.image, |wp.syscalls|));
  }

  /** A workload held to the profile learned from it may repeat every system call it was seen
      to make, and beyond the floor no other. */
  lemma ProfileAllowsWhatWasSeen(b: Profiles, events: seq<Event>, key: string, allowed: seq<string>, s: string)
    requires IsBaseline(b, Learned(events)) && key in b
    requires forall x :: x in allowed <==> x in FLOOR || x in b[key].syscalls
    ensures s in allowed <==> s in FLOOR || Shown(events, key, Uses(s))
  {
    NoEmptyKey(events);
    LearnedIsShown(events, key, Uses(s));
    assert Freezes(b[key], Learned(events)[key]);
  }
}

/** The baseline told event by event: under which names workloads, containers and endpoints go,
    and when the anomaly rule reports an event. */
module BaselineLaws {
  import opened Baseline
  import opened Options

  // ----- Names -----

  /** The workload of a container is its image, by identity where that is known. */
  predicate IsImage(c: Container, image: string)
  {
    image != "" && (c.imageId == image || (c.imageId == "" && c.imageRef == image))
  }

  predicate IsDecimal(s: string)
  {
    s != "" && forall i :: 0 <= i < |s| ==> '0' <= s[i] <= '9'
  }

  /** The number a decimal text stands for. */
  function Number(s: string): nat
    requires forall i :: 0 <= i < |s| ==> '0' <= s[i] <= '9'
  {
    if s == "" then 0 else 10 * Number(s[..|s| - 1]) + (s[|s| - 1] as int - 48)
  }

  lemma {:induction false} DigitsRead(n: nat)
    ensures IsDecimal(Digits(n)) && Number(Digits(n)) == n && (n > 0 ==> Digits(n)[0] != '0')
    decreases n
  {
    var s := Digits(n);
    if n >= 10 {
      DigitsRead(n / 10);
      assert s == Digits(n / 10) + [s[|s| - 1]];
    }
    assert s[..|s| - 1] == if n < 10 then "" else Digits(n / 10);
  }

  /** An endpoint goes by its domain; without one by its address, with the port behind a colon in
      decimal where one is set. */
  lemma EndpointLaw(n: NetworkEvent)
    ensures n.domain != "" ==> EndpointKey(n) == n.domain
    ensures n.domain == "" && (n.remoteIp == "" || n.remotePort == 0) ==> EndpointKey(n) == n.remoteIp
    ensures n.domain == "" && n.remoteIp != "" && n.remotePort > 0 ==>
              exists port :: EndpointKey(n) == n.remoteIp + ":" + port && IsDecimal(port) && port[0] != '0' &&
                Number(port) == n.remotePort
  {
    if n.domain == "" && n.remoteIp != "" && n.remotePort > 0 {
      DigitsRead(n.remotePort);
      assert EndpointKey(n) == n.remoteIp + ":" + Digits(n.remotePort);
    }
  }

  lemma WorkloadIff(c: Container, image: string)
    requires image != ""
    ensures WorkloadKey(c) == image <==> IsImage(c, image)
  {}

  // ----- Learning -----

  /** Some learned event is of this image. */
  ghost predicate Seen(events: seq<Event>, image: string)
  {
    exists e :: e in events && IsImage(e.container, image)
  }

  ghost predicate SeenRunning(events: seq<Event>, image: string, exe: string)
  {
    exists e :: e in events && IsImage(e.container, image) && e.kind == ProcessKind && e.exe == exe
  }

  /** Some learned event of the image makes the system call: by name, or by what it is an event of. */
  ghost predicate SeenCalling(events: seq<Event>, image: string, s: string)
  {
    exists e :: e in events && IsImage(e.container, image) && Makes(e, s)
  }

  predicate Makes(e: Event, s: string)
  {
    || (e.kind == SyscallKind && e.syscall == Some(s))
    || (e.kind == ProcessKind && s == "execve")
    || (e.kind == NetworkKind && e.network.Some? && s == "connect")
    || (e.kind == FileKind && s == "openat")
  }

  ghost predicate SeenContacting(events: seq<Event>, image: string, endpoint: string)
  {
    exists e :: e in events && IsImage(e.container, image) && e.kind == NetworkKind && e.network.Some? &&
      EndpointKey(e.network.value) == endpoint
  }

  lemma OccursIff(events: seq<Event>, image: string)
    requires image != ""
    ensures Occurs(events, image) <==> Seen(events, image)
  {
    if i :| 0 <= i < |events| && WorkloadKey(events[i].container) == image {
      assert events[i] in events;
    }
    if e :| e in events && IsImage(e.container, image) {
      var i :| 0 <= i < |events| && events[i] == e;
      assert WorkloadKey(events[i].container) == image;
    }
  }

  lemma ShownIff(events: seq<Event>, image: string, f: Fact)
    requires image != ""
    ensures Shown(events, image, f) <==> exists e :: e in events && IsImage(e.container, image) && Shows(e, f)
  {
    if i :| 0 <= i < |events| && WorkloadKey(events[i].container) == image && Shows(events[i], f) {
      assert events[i] in events;
    }
    if e :| e in events && IsImage(e.container, image) && Shows(e, f) {
      var i :| 0 <= i < |events| && events[i] == e;
      assert WorkloadKey(events[i].container) == image;
    }
  }

  // ----- Judging -----

  /** Against what was learned, a started process deviates exactly when its image was seen and
      never running this executable. */
  lemma ProcessLaw(b: Profiles, events: seq<Event>, ev: Event, image: string)
    requires IsBaseline(b, Learned(events)) && ev.kind == ProcessKind && IsImage(ev.container, image)
    ensures Deviates(b, ev) <==> ev.exe != "" && Seen(events, image) && !SeenRunning(events, image, ev.exe)
  {
    DeviatesIff(b, events, ev);
    OccursIff(events, image);
    ShownIff(events, image, Runs(ev.exe));
    if ev.exe != "" {
      forall e
        ensures Shows(e, Runs(ev.exe)) <==> e.kind == ProcessKind && e.exe == ev.exe
      {}
    }
  }

  /** A system call, exactly when its image was seen and never making it. */
  lemma SyscallLaw(b: Profiles, events: seq<Event>, ev: Event, image: string, s: string)
    requires IsBaseline(b, Learned(events)) && ev.kind == SyscallKind && IsImage(ev.container, image)
    requires ev.syscall == Some(s)
    ensures Deviates(b, ev) <==> s != "" && Seen(events, image) && !SeenCalling(events, image, s)
  {
    DeviatesIff(b, events, ev);
    OccursIff(events, image);
    ShownIff(events, image, Uses(s));
    if s != "" {
      forall e
        ensures Shows(e, Uses(s)) <==> Makes(e, s)
      {}
    }
  }

  /** A connection, exactly when its image was seen and never contacting the endpoint. */
  lemma NetworkLaw(b: Profiles, events: seq<Event>, ev: Event, image: string, endpoint: string)
    requires IsBaseline(b, Learned(events)) && ev.kind == NetworkKind && IsImage(ev.container, image)
    requires ev.network.Some? && EndpointKey(ev.network.value) == endpoint
    ensures Deviates(b, ev) <==>
            endpoint != "" && Seen(events, image) && !SeenContacting(events, image, endpoint)
  {
    DeviatesIff(b, events, ev);
    OccursIff(events, image);
    ShownIff(events, image, Contacts(endpoint));
    if endpoint != "" {
      forall e
        ensures Shows(e, Contacts(endpoint)) <==>
          e.kind == NetworkKind && e.network.Some? && EndpointKey(e.network.value) == endpoint
      {}
    }
  }

  /** Nothing else deviates: no other kind of event, none without its payload, and none of a
      container without an image. */
  lemma OtherwiseQuiet(b: Profiles, events: seq<Event>, ev: Event)
    requires IsBaseline(b, Learned(events))
    requires || ev.kind == FileKind || ev.kind == OtherKind || (ev.kind == SyscallKind && ev.syscall.None?)
             || (ev.kind == NetworkKind && ev.network.None?)
             || (ev.container.imageId == "" && ev.container.imageRef == "")
    ensures !Deviates(b, ev)
  {
    NoEmptyKey(events);
  }

  // ----- Reporting once -----

  /** The two containers are one: by id, else by name and image, else by image. */
  predicate SameContainer(c: Container, d: Container)
  {
    ContainerText(c) == ContainerText(d)
  }

  function ContainerText(c: Container): string
  {
    if c.id == "" && c.name == "" then c.imageRef else if c.id == "" then c.name + "@" + c.imageRef else c.id
  }

  /** An earlier event of the run on the same container deviated by the same executable. */
  ghost predicate StartedBefore(b: Profiles, run: seq<Event>, ev: Event)
  {
    exists e :: e in run && e.kind == ProcessKind && Deviates(b, e) && e.exe == ev.exe &&
      SameContainer(e.container, ev.container)
  }

  ghost predicate ContactedBefore(b: Profiles, run: seq<Event>, ev: Event)
    requires ev.network.Some?
  {
    exists e :: e in run && e.kind == NetworkKind && e.network.Some? && Deviates(b, e) &&
      EndpointKey(e.network.value) == EndpointKey(ev.network.value) && SameContainer(e.container, ev.container)
  }

  lemma MarkTexts(a: string, b: string)
    ensures a + "|anomaly" == b + "|anomaly" <==> a == b
  {
    if a + "|anomaly" == b + "|anomaly" {
      var s := a + "|anomaly";
      assert |a| == |b| && a == s[..|a|] && b == s[..|b|];
    }
  }

  /** What the rule remembers after a run: the deviating starts and connections of it. */
  lemma {:induction false} MarksTell(b: Profiles, run: seq<Event>, c: Container, x: string)
    ensures var m := Judge(Some(b), Marks({}, {}), run).0;
            && ((ContainerText(c) + "|anomaly", x) in m.execs <==>
                  exists e :: e in run && e.kind == ProcessKind && Deviates(b, e) && e.exe == x &&
                    SameContainer(e.container, c))
            && ((ContainerText(c) + "|anomaly", x) in m.connects <==>
                  exists e :: e in run && e.kind == NetworkKind && e.network.Some? && Deviates(b, e) &&
                    EndpointKey(e.network.value) == x && SameContainer(e.container, c))
    decreases |run|
  {
    if run != [] {
      var init, ev := run[..|run| - 1], run[|run| - 1];
      assert run == init + [ev];
      MarksTell(b, init, c, x);
      MarkTexts(ContainerText(ev.container), ContainerText(c));
      assert ContainerKey(ev.container) == ContainerText(ev.container);
    }
  }

  /** After a run of the rule a start is reported exactly when it deviates and no event of the run
      on the same container deviated by the same executable; likewise a connection; a system call
      is reported whenever it deviates. */
  lemma ReportLaw(b: Profiles, run: seq<Event>, ev: Event)
    ensures var r := EvaluateF(Some(b), Judge(Some(b), Marks({}, {}), run).0, ev).1;
            && (ev.kind == ProcessKind ==>
                  r == if Deviates(b, ev) && !StartedBefore(b, run, ev) then Some(Runs(ev.exe)) else None)
            && (ev.kind == NetworkKind && ev.network.Some? ==>
                  r == if Deviates(b, ev) && !ContactedBefore(b, run, ev)
                       then Some(Contacts(EndpointKey(ev.network.value))) else None)
            && (ev.kind == SyscallKind && ev.syscall.Some? ==>
                  r == if Deviates(b, ev) then Some(Uses(ev.syscall.value)) else None)
            && (!Deviates(b, ev) ==> r == None)
  {
    assert ContainerKey(ev.container) == ContainerText(ev.container);
    if ev.kind == ProcessKind {
      MarksTell(b, run, ev.container, ev.exe);
    } else if ev.kind == NetworkKind && ev.network.Some? {
      MarksTell(b, run, ev.container, EndpointKey(ev.network.value));
    }
  }
}

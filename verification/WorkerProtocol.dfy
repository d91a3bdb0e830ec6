/** One `WorkerProcess`: a sequence of processes, one output queue per start, and
    requests that are answered, time out, or fail. Reader threads, processes and
    the caller interleave freely, so the component is a state machine over its
    steps; a step that is not possible changes nothing. */
module WorkerProtocol {
  import opened Basics

  /** One line of output: not a JSON object, or an object with or without an id. */
  datatype Line = Malformed | Response(id: Option<int>, payload: string)

  datatype Item = Output(line: Line) | Eof

  /** A process started by the worker. `read` counts the lines its reader thread
      has put into `queue`, the queue of this start. */
  datatype Process = Process(queue: nat, alive: bool, inbox: seq<int>, emitted: seq<Line>, read: nat)

  /** Where the holder of the request lock stands. */
  datatype Stage = Idle | Entered | Started | Written(id: int, to: nat) | Waiting(id: int, to: nat, queue: nat)

  datatype Outcome = Replied(id: int, to: nat, queue: nat, line: Line) | Failed(id: int, to: nat)

  datatype State = State(
    closed: bool, process: Option<nat>, generation: nat, processes: seq<Process>,
    queues: seq<seq<Item>>, current: nat, nextId: int, stage: Stage, log: seq<Outcome>)

  const Initial := State(false, None, 0, [], [[]], 0, 1, Idle, [])

  datatype Event =
    // the caller inside `request`, and `close`
    | Enter | Start(spawns: bool) | Write(delivered: bool) | Wait | Receive | TimeOut | Close
    // a process and its reader thread
    | Emit(process: nat, line: Line) | Crash(process: nat) | Forward(process: nat) | ForwardEof(process: nat)
    // `start` called by somebody who does not hold the request lock
    | ForeignStart(spawns: bool)

  predicate Running(s: State) {
    s.process.Some? && s.process.value < |s.processes| && s.processes[s.process.value].alive
  }

  function WithProcess(s: State, p: nat, x: Process): State
    requires p < |s.processes|
  {
    s.(processes := s.processes[p := x])
  }

  /** `_stop_locked`. */
  function Stop(s: State): State {
    if s.process.Some? && s.process.value < |s.processes|
    then WithProcess(s, s.process.value, s.processes[s.process.value].(alive := false)).(process := None)
    else s.(process := None)
  }

  /** `start`: nothing while the process lives; otherwise a fresh queue, even if
      no process can be spawned for it. */
  function Launch(s: State, spawns: bool): State {
    if s.closed || Running(s) then s
    else
      var t := Stop(s);
      var u := t.(queues := t.queues + [[]], current := |t.queues|);
      if !spawns then u
      else u.(processes := u.processes + [Process(u.current, true, [], [], 0)],
              process := Some(|u.processes|), generation := u.generation + 1)
  }

  function Fail(s: State, id: int, to: nat): State {
    Stop(s).(stage := Idle, log := s.log + [Failed(id, to)])
  }

  function Put(s: State, q: nat, item: Item): State {
    if q < |s.queues| then s.(queues := s.queues[q := s.queues[q] + [item]]) else s
  }

  /** The caller takes the first item out of the queue it waits on. */
  function Taken(s: State): State
    requires s.stage.Waiting? && s.stage.queue < |s.queues| && s.queues[s.stage.queue] != []
  {
    s.(queues := s.queues[s.stage.queue := s.queues[s.stage.queue][1..]])
  }

  function Next(s: State, e: Event): State {
    match e
    case Enter => if s.stage.Idle? then s.(stage := Entered) else s
    case Start(spawns) =>
      if !s.stage.Entered? then s
      else
        var t := Launch(s, spawns);
        t.(stage := if Running(t) && !t.closed then Started else Idle)
    case Write(delivered) =>
      if !s.stage.Started? then s
      else
        var t := s.(nextId := s.nextId + 1);
        if !Running(s) then t.(stage := Idle)
        else
          var p := s.process.value;
          if !delivered then Fail(t, s.nextId, p)
          else
            WithProcess(t, p, s.processes[p].(inbox := s.processes[p].inbox + [s.nextId]))
            .(stage := Written(s.nextId, p))
    case Wait => if s.stage.Written? then s.(stage := Waiting(s.stage.id, s.stage.to, s.current)) else s
    case Receive =>
      if !s.stage.Waiting? || s.stage.queue >= |s.queues| || s.queues[s.stage.queue] == [] then s
      else
        var q := s.queues[s.stage.queue];
        var t := Taken(s);
        if q[0].Output? && q[0].line.Response? && q[0].line.id == Some(s.stage.id)
        then t.(stage := Idle, log := s.log + [Replied(s.stage.id, s.stage.to, s.stage.queue, q[0].line)])
        else Fail(t, s.stage.id, s.stage.to)
    case TimeOut => if s.stage.Waiting? then Fail(s, s.stage.id, s.stage.to) else s
    case Close => if s.stage.Idle? then Stop(s).(closed := true) else s
    case Emit(p, line) =>
      if p < |s.processes| && s.processes[p].alive
      then WithProcess(s, p, s.processes[p].(emitted := s.processes[p].emitted + [line])) else s
    case Crash(p) => if p < |s.processes| then WithProcess(s, p, s.processes[p].(alive := false)) else s
    case Forward(p) =>
      if p < |s.processes| && s.processes[p].read < |s.processes[p].emitted|
      then Put(WithProcess(s, p, s.processes[p].(read := s.processes[p].read + 1)),
               s.processes[p].queue, Output(s.processes[p].emitted[s.processes[p].read]))
      else s
    case ForwardEof(p) => if p < |s.processes| then Put(s, s.processes[p].queue, Eof) else s
    case ForeignStart(spawns) => Launch(s, spawns)
  }

  function Run(s: State, events: seq<Event>): State {
    if events == [] then s else Next(Run(s, events[..|events| - 1]), events[|events| - 1])
  }

  // ------------------------------------------------------------- invariants

  /** Only the newest process may live, and a process is reached through its own queue. */
  ghost predicate Lineage(s: State) {
    && s.generation == |s.processes| && s.current < |s.queues|
    && (s.process.Some? ==> s.process.value == |s.processes| - 1 && s.processes[s.process.value].queue == s.current)
    && (forall i :: 0 <= i < |s.processes| ==> s.processes[i].queue < |s.queues|)
    && (forall i, j :: 0 <= i < j < |s.processes| ==> s.processes[i].queue < s.processes[j].queue)
    && (forall i :: 0 <= i < |s.processes| && s.processes[i].alive ==> s.process == Some(i))
    && (forall i :: 0 <= i < |s.processes| && s.process != Some(i) ==> s.processes[i].queue <= s.current)
  }

  ghost predicate EmittedBy(s: State, q: nat, line: Line) {
    exists i :: 0 <= i < |s.processes| && s.processes[i].queue == q && line in s.processes[i].emitted
  }

  /** What a queue holds was printed by the process the queue was made for. */
  ghost predicate Provenance(s: State) {
    && (forall i :: 0 <= i < |s.processes| ==> s.processes[i].read <= |s.processes[i].emitted|)
    && (forall q, k :: 0 <= q < |s.queues| && 0 <= k < |s.queues[q]| && s.queues[q][k].Output? ==>
          EmittedBy(s, q, s.queues[q][k].line))
  }

  predicate InFlight(s: State) {
    s.stage.Written? || s.stage.Waiting?
  }

  /** Ids are handed out once, to one process. */
  ghost predicate FreshIds(s: State) {
    && (forall i, id :: 0 <= i < |s.processes| && id in s.processes[i].inbox ==> id < s.nextId)
    && (forall i, j, id :: 0 <= i < j < |s.processes| && id in s.processes[i].inbox ==> id !in s.processes[j].inbox)
    && (InFlight(s) ==>
          s.stage.id < s.nextId && s.stage.to < |s.processes| && s.stage.id in s.processes[s.stage.to].inbox)
    && (forall k :: 0 <= k < |s.log| ==> s.log[k].id < s.nextId)
    && (forall k, l :: 0 <= k < l < |s.log| ==> s.log[k].id < s.log[l].id)
    && (InFlight(s) ==> forall k :: 0 <= k < |s.log| ==> s.log[k].id < s.stage.id)
  }

  /** A reply carries the id of its request and was printed by the process its
      queue belongs to; the process of a failed request is dead. */
  ghost predicate Answered(s: State, o: Outcome) {
    match o
    case Replied(id, to, q, line) =>
      line.Response? && line.id == Some(id) && EmittedBy(s, q, line) && to < |s.processes|
        && id in s.processes[to].inbox
    case Failed(id, to) => to < |s.processes| && !s.processes[to].alive
  }

  ghost predicate Answers(s: State) {
    forall k :: 0 <= k < |s.log| ==> Answered(s, s.log[k])
  }

  ghost predicate Inv(s: State) {
    Lineage(s) && Provenance(s) && FreshIds(s) && Answers(s)
  }

  // -------------------------------------------------------------- framing

  /** Processes keep their queues, what they printed and received, and stay dead. */
  ghost predicate Evolves(s: State, t: State) {
    |s.processes| <= |t.processes| && forall i {:trigger t.processes[i]} :: 0 <= i < |s.processes| ==>
      && t.processes[i].queue == s.processes[i].queue
      && s.processes[i].emitted <= t.processes[i].emitted && s.processes[i].inbox <= t.processes[i].inbox
      && (t.processes[i].alive ==> s.processes[i].alive)
  }

  ghost predicate SameInboxes(s: State, t: State) {
    |s.processes| <= |t.processes| && forall i {:trigger t.processes[i]} :: 0 <= i < |t.processes| ==>
      t.processes[i].inbox == if i < |s.processes| then s.processes[i].inbox else []
  }

  lemma EmissionStays(s: State, t: State, q: nat, line: Line)
    requires Evolves(s, t) && EmittedBy(s, q, line)
    ensures EmittedBy(t, q, line)
  {
    var i :| 0 <= i < |s.processes| && s.processes[i].queue == q && line in s.processes[i].emitted;
    assert line in t.processes[i].emitted;
  }

  lemma AnswersStay(s: State, t: State)
    requires Answers(s) && Evolves(s, t) && s.log <= t.log
    requires forall k :: |s.log| <= k < |t.log| ==> Answered(t, t.log[k])
    ensures Answers(t)
  {
    hide EmittedBy;
    forall k | 0 <= k < |s.log| ensures Answered(t, t.log[k]) {
      assert Answered(s, s.log[k]);
      if s.log[k].Replied? {
        EmissionStays(s, t, s.log[k].queue, s.log[k].line);
      }
    }
  }

  lemma IdsStay(s: State, t: State)
    requires FreshIds(s) && SameInboxes(s, t) && t.nextId >= s.nextId && t.log == s.log
    requires InFlight(t) ==> InFlight(s) && t.stage.id == s.stage.id && t.stage.to == s.stage.to
    ensures FreshIds(t)
  {
  }

  lemma ProvenanceStays(s: State, t: State)
    requires Provenance(s) && Evolves(s, t)
    requires forall i :: 0 <= i < |t.processes| ==> t.processes[i].read <= |t.processes[i].emitted|
    requires forall q, k :: 0 <= q < |t.queues| && 0 <= k < |t.queues[q]| && t.queues[q][k].Output? ==>
               q < |s.queues| && t.queues[q][k] in s.queues[q]
    ensures Provenance(t)
  {
    hide EmittedBy, Evolves;
    forall q, k | 0 <= q < |t.queues| && 0 <= k < |t.queues[q]| && t.queues[q][k].Output?
      ensures EmittedBy(t, q, t.queues[q][k].line)
    {
      var l :| 0 <= l < |s.queues[q]| && s.queues[q][l] == t.queues[q][k];
      EmissionStays(s, t, q, s.queues[q][l].line);
    }
  }

  // ------------------------------------------------------ steps keep them

  lemma StopKeeps(s: State)
    requires Inv(s)
    ensures Inv(Stop(s)) && Evolves(s, Stop(s)) && SameInboxes(s, Stop(s))
    ensures forall i :: 0 <= i < |s.processes| ==> !Stop(s).processes[i].alive
  {
    hide EmittedBy, FreshIds, Answers, Provenance;
    var t := Stop(s);
    assert Lineage(t);
    ReadsKept(s);
    IdsStay(s, t);
    AnswersStay(s, t);
    ProvenanceStays(s, t);
  }

  lemma ReadsKept(s: State)
    requires Provenance(s)
    ensures forall i :: 0 <= i < |s.processes| ==> s.processes[i].read <= |s.processes[i].emitted|
  {
  }

  lemma LaunchKeeps(s: State, spawns: bool)
    requires Inv(s)
    ensures Inv(Launch(s, spawns)) && Launch(s, spawns).stage == s.stage
  {
    hide EmittedBy, FreshIds, Answers, Provenance;
    if !s.closed && !Running(s) {
      StopKeeps(s);
      LaunchFrom(s, Stop(s), spawns);
    }
  }

  lemma LaunchFrom(s: State, t: State, spawns: bool)
    requires Inv(t) && t == Stop(s) && t.process.None? && !s.closed && !Running(s)
    ensures Inv(Launch(s, spawns)) && Launch(s, spawns).stage == s.stage
  {
    hide EmittedBy, FreshIds, Answers, Provenance;
    var u := Launch(s, spawns);
    assert Lineage(u);
    ReadsKept(t);
    IdsStay(t, u);
    AnswersStay(t, u);
    ProvenanceStays(t, u);
  }

  /** Changing only where the caller stands. */
  lemma StageKeeps(s: State, stage: Stage)
    requires Inv(s)
    requires stage.Written? || stage.Waiting? ==> InFlight(s) && stage.id == s.stage.id && stage.to == s.stage.to
    ensures Inv(s.(stage := stage))
  {
    hide EmittedBy, FreshIds, Answers, Provenance;
    var t := s.(stage := stage);
    assert Lineage(t);
    ReadsKept(s);
    IdsStay(s, t);
    AnswersStay(s, t);
    ProvenanceStays(s, t);
  }

  lemma FailKeeps(s: State, id: int, to: nat)
    requires Inv(s) && to < |s.processes| && id < s.nextId && forall k :: 0 <= k < |s.log| ==> s.log[k].id < id
    ensures Inv(Fail(s, id, to))
  {
    hide EmittedBy, FreshIds, Answers, Provenance, Stop, Lineage;
    StopKeeps(s);
    var t := Stop(s).(stage := Idle);
    StageKeeps(Stop(s), Idle);
    var u := Fail(s, id, to);
    StopLog(s);
    LoggedKeeps(t, u, Failed(id, to));
  }

  lemma StopLog(s: State)
    ensures Stop(s).log == s.log && Stop(s).nextId == s.nextId && Stop(s).stage == s.stage
    ensures Stop(s).queues == s.queues && |Stop(s).processes| == |s.processes|
  {
  }

  lemma LoggedKeeps(t: State, u: State, o: Outcome)
    requires Inv(t) && t.stage.Idle? && u == t.(log := t.log + [o]) && Answered(t, o)
    requires o.id < t.nextId && forall k :: 0 <= k < |t.log| ==> t.log[k].id < o.id
    ensures Inv(u)
  {
    hide EmittedBy, Lineage, Provenance, FreshIds;
    LineageStays(t, u);
    ReadsKept(t);
    ProvenanceStays(t, u);
    if o.Replied? { EmissionStays(t, u, o.queue, o.line); }
    AnswersStay(t, u);
    LoggedIds(t, u, o);
  }

  lemma LoggedIds(t: State, u: State, o: Outcome)
    requires FreshIds(t) && t.stage.Idle? && u == t.(log := t.log + [o])
    requires o.id < t.nextId && forall k :: 0 <= k < |t.log| ==> t.log[k].id < o.id
    ensures FreshIds(u)
  {
  }

  lemma WriteKeeps(s: State, delivered: bool)
    requires Inv(s)
    ensures Inv(Next(s, Write(delivered)))
  {
    hide Inv, Fail;
    if s.stage.Started? {
      var t := s.(nextId := s.nextId + 1);
      UsedIdKeeps(s);
      StageKeeps(t, Idle);
      if Running(s) {
        LoggedBefore(s);
        FailKeeps(t, s.nextId, s.process.value);
        DeliveredKeeps(s, t, s.process.value);
      }
    }
  }

  lemma UsedIdKeeps(s: State)
    requires Inv(s)
    ensures Inv(s.(nextId := s.nextId + 1))
  {
    hide EmittedBy, Provenance, FreshIds, Answers;
    var t := s.(nextId := s.nextId + 1);
    assert Lineage(t);
    ReadsKept(s);
    IdsStay(s, t);
    AnswersStay(s, t);
    ProvenanceStays(s, t);
  }

  lemma LoggedBefore(s: State)
    requires Inv(s)
    ensures forall k :: 0 <= k < |s.log| ==> s.log[k].id < s.nextId
  {
  }

  lemma DeliveredKeeps(s: State, t: State, p: nat)
    requires Inv(s) && Inv(t) && t == s.(nextId := s.nextId + 1) && p < |s.processes| && !InFlight(s)
    ensures Inv(WithProcess(t, p, s.processes[p].(inbox := s.processes[p].inbox + [s.nextId]))
                .(stage := Written(s.nextId, p)))
  {
    hide EmittedBy, Provenance, FreshIds, Answers;
    var u := WithProcess(t, p, s.processes[p].(inbox := s.processes[p].inbox + [s.nextId]))
             .(stage := Written(s.nextId, p));
    LineageStays(t, u);
    ReadsKept(s);
    AnswersStay(t, u);
    ProvenanceStays(t, u);
    DeliveredIds(s, u, p);
  }

  lemma DeliveredIds(s: State, u: State, p: nat)
    requires FreshIds(s) && p < |s.processes| && u.nextId == s.nextId + 1 && u.log == s.log
    requires u.stage == Written(s.nextId, p)
    requires u.processes == s.processes[p := s.processes[p].(inbox := s.processes[p].inbox + [s.nextId])]
    ensures FreshIds(u)
  {
    assert s.nextId in u.processes[p].inbox;
  }

  lemma LineageStays(s: State, t: State)
    requires Lineage(s) && Evolves(s, t) && |t.processes| == |s.processes| && |t.queues| == |s.queues|
    requires t.process == s.process && t.current == s.current && t.generation == s.generation
    ensures Lineage(t)
  {
  }

  lemma ReceiveKeeps(s: State)
    requires Inv(s)
    ensures Inv(Next(s, Receive))
  {
    hide EmittedBy, FreshIds, Answers, Fail, Lineage;
    if s.stage.Waiting? && s.stage.queue < |s.queues| && s.queues[s.stage.queue] != [] {
      var q := s.queues[s.stage.queue];
      var t := Taken(s);
      assert q[0] in q;
      LineageStays(s, t);
      IdsStay(s, t);
      AnswersStay(s, t);
      ProvenanceStays(s, t);
      FlightFacts(t);
      FailKeeps(t, s.stage.id, s.stage.to);
      if q[0].Output? && q[0].line.Response? && q[0].line.id == Some(s.stage.id) {
        StageKeeps(t, Idle);
        EmissionStays(s, t.(stage := Idle), s.stage.queue, q[0].line);
        LoggedKeeps(t.(stage := Idle), Next(s, Receive), Replied(s.stage.id, s.stage.to, s.stage.queue, q[0].line));
      }
    }
  }

  lemma FlightFacts(s: State)
    requires FreshIds(s) && InFlight(s)
    ensures s.stage.id < s.nextId && s.stage.to < |s.processes| && s.stage.id in s.processes[s.stage.to].inbox
    ensures forall k :: 0 <= k < |s.log| ==> s.log[k].id < s.stage.id
  {
  }

  lemma OutputKeeps(s: State, e: Event)
    requires Inv(s) && (e.Emit? || e.Crash? || e.Forward? || e.ForwardEof?)
    ensures Inv(Next(s, e))
  {
    hide EmittedBy, FreshIds, Answers, Lineage, Provenance, Evolves, SameInboxes;
    var t := Next(s, e);
    OutputEvolves(s, e);
    LineageStays(s, t);
    IdsStay(s, t);
    AnswersStay(s, t);
    if e.Forward? && t != s {
      ForwardKeeps(s, e.process);
    } else {
      ReadsKept(s);
      ProvenanceStays(s, t);
    }
  }

  lemma OutputEvolves(s: State, e: Event)
    requires e.Emit? || e.Crash? || e.Forward? || e.ForwardEof?
    ensures Evolves(s, Next(s, e)) && SameInboxes(s, Next(s, e))
  {
  }

  lemma ForwardKeeps(s: State, p: nat)
    requires Inv(s) && p < |s.processes| && s.processes[p].read < |s.processes[p].emitted|
    ensures Provenance(Next(s, Forward(p)))
  {
    hide FreshIds, Answers;
    var t := Next(s, Forward(p));
    forall q, k | 0 <= q < |t.queues| && 0 <= k < |t.queues[q]| && t.queues[q][k].Output?
      ensures EmittedBy(t, q, t.queues[q][k].line)
    {
      if k < |s.queues[q]| {
        assert EmittedBy(s, q, s.queues[q][k].line);
        EmissionStays(s, t, q, s.queues[q][k].line);
      } else {
        assert q == t.processes[p].queue;
      }
    }
  }

  lemma NextKeeps(s: State, e: Event)
    requires Inv(s)
    ensures Inv(Next(s, e))
  {
    hide Inv, Launch, Fail;
    match e
    case Enter => if s.stage.Idle? { StageKeeps(s, Entered); }
    case Start(spawns) =>
      LaunchKeeps(s, spawns);
      if s.stage.Entered? {
        var t := Launch(s, spawns);
        StageKeeps(t, if Running(t) && !t.closed then Started else Idle);
      }
    case Write(delivered) => WriteKeeps(s, delivered);
    case Wait => if s.stage.Written? { StageKeeps(s, Waiting(s.stage.id, s.stage.to, s.current)); }
    case Receive => ReceiveKeeps(s);
    case TimeOut =>
      if s.stage.Waiting? {
        InvIds(s);
        FlightFacts(s);
        FailKeeps(s, s.stage.id, s.stage.to);
      }
    case Close =>
      StopKeeps(s);
      ClosedKeeps(Stop(s));
    case Emit(p, line) => OutputKeeps(s, e);
    case Crash(p) => OutputKeeps(s, e);
    case Forward(p) => OutputKeeps(s, e);
    case ForwardEof(p) => OutputKeeps(s, e);
    case ForeignStart(spawns) => LaunchKeeps(s, spawns);
  }

  lemma InvIds(s: State)
    requires Inv(s)
    ensures FreshIds(s)
  {
  }

  lemma ClosedKeeps(s: State)
    requires Inv(s)
    ensures Inv(s.(closed := true))
  {
    hide EmittedBy, FreshIds, Answers, Provenance;
    var t := s.(closed := true);
    assert Lineage(t);
    ReadsKept(s);
    IdsStay(s, t);
    AnswersStay(s, t);
    ProvenanceStays(s, t);
  }

  // --------------------------------------------------------- over whole runs

  /** No process serves a request after one of its requests failed. */
  ghost predicate Retired(s: State) {
    && (forall k, l :: 0 <= k < l < |s.log| && s.log[k].Failed? ==> s.log[l].to != s.log[k].to)
    && (InFlight(s) ==> forall k :: 0 <= k < |s.log| && s.log[k].Failed? ==> s.log[k].to != s.stage.to)
  }

  lemma NextRetires(s: State, e: Event)
    requires Inv(s) && Retired(s)
    ensures Retired(Next(s, e))
  {
    hide Inv, Stop, Launch, Retired;
    StopLog(s);
    match e
    case Start(spawns) => LaunchLog(s, spawns); RetiredStays(s, Next(s, e));
    case ForeignStart(spawns) => LaunchLog(s, spawns); RetiredStays(s, Next(s, e));
    case Write(delivered) =>
      if s.stage.Started? && Running(s) {
        StopLog(s.(nextId := s.nextId + 1));
        LivingIsNotFailed(s, s.process.value);
        RetiredWrite(s, Next(s, e), s.process.value);
      } else {
        RetiredStays(s, Next(s, e));
      }
    case Receive =>
      if s.stage.Waiting? && s.stage.queue < |s.queues| && s.queues[s.stage.queue] != [] {
        StopLog(Taken(s));
      }
      RetiredEnd(s, Next(s, e));
    case TimeOut => RetiredEnd(s, Next(s, e));
    case _ => RetiredStays(s, Next(s, e));
  }

  lemma LaunchLog(s: State, spawns: bool)
    ensures Launch(s, spawns).log == s.log && Launch(s, spawns).stage == s.stage
  {
  }

  lemma LivingIsNotFailed(s: State, p: nat)
    requires Inv(s) && p < |s.processes| && s.processes[p].alive
    ensures forall k :: 0 <= k < |s.log| && s.log[k].Failed? ==> s.log[k].to != p
  {
    forall k | 0 <= k < |s.log| && s.log[k].Failed? ensures s.log[k].to != p {
      assert Answered(s, s.log[k]);
    }
  }

  lemma RetiredStays(s: State, t: State)
    requires Retired(s) && t.log == s.log && (InFlight(t) ==> InFlight(s) && t.stage.to == s.stage.to)
    ensures Retired(t)
  {
  }

  lemma RetiredWrite(s: State, t: State, p: nat)
    requires Retired(s) && forall k :: 0 <= k < |s.log| && s.log[k].Failed? ==> s.log[k].to != p
    requires || (t.log == s.log && InFlight(t) && t.stage.to == p)
             || (!InFlight(t) && |t.log| == |s.log| + 1 && t.log == s.log + [t.log[|s.log|]] && t.log[|s.log|].to == p)
    ensures Retired(t)
  {
  }

  lemma RetiredEnd(s: State, t: State)
    requires Retired(s)
    requires || t == s
             || (&& InFlight(s) && !InFlight(t) && |t.log| == |s.log| + 1
                 && t.log == s.log + [t.log[|s.log|]] && t.log[|s.log|].to == s.stage.to)
    ensures Retired(t)
  {
  }

  /** The processes of failed requests have queues older than `bound`. */
  ghost predicate Behind(s: State, bound: nat) {
    forall k :: 0 <= k < |s.log| && s.log[k].Failed? ==>
      s.log[k].to < |s.processes| && s.processes[s.log[k].to].queue < bound
  }

  /** Whatever is read from now on, and whatever was returned, comes from a queue newer
      than those of the processes that had failed by then. */
  ghost predicate Superseded(s: State) {
    && (s.stage.Started? || s.stage.Written? ==> Behind(s, s.current))
    && (s.stage.Waiting? ==> Behind(s, s.stage.queue))
    && forall k, l :: 0 <= k < l < |s.log| && s.log[k].Failed? && s.log[l].Replied? ==>
         s.log[k].to < |s.processes| && s.processes[s.log[k].to].queue < s.log[l].queue
  }

  lemma NextSupersedes(s: State, e: Event)
    requires Inv(s) && Superseded(s)
    ensures Superseded(Next(s, e))
  {
    hide Inv, Stop, Launch, Superseded;
    match e
    case Start(spawns) =>
      LaunchQueues(s, spawns);
      LaunchKeeps(s, spawns);
      if s.stage.Entered? { StartSupersedes(s, Launch(s, spawns)); }
    case ForeignStart(spawns) =>
      LaunchQueues(s, spawns);
      LaunchKeeps(s, spawns);
      CurrentGrows(s, spawns);
      SupersededStays(s, Next(s, e));
    case Write(delivered) =>
      StopQueues(s.(nextId := s.nextId + 1));
      if s.stage.Started? && Running(s) && !delivered {
        EndSupersedes(s, Next(s, e));
      } else {
        SupersededStays(s, Next(s, e));
      }
    case Wait => WaitSupersedes(s);
    case Receive =>
      if s.stage.Waiting? && s.stage.queue < |s.queues| && s.queues[s.stage.queue] != [] {
        StopQueues(Taken(s));
        EndSupersedes(s, Next(s, e));
      }
    case TimeOut =>
      StopQueues(s);
      if s.stage.Waiting? { EndSupersedes(s, Next(s, e)); }
    case Close => StopQueues(s); SupersededStays(s, Next(s, e));
    case _ => SupersededStays(s, Next(s, e));
  }

  lemma SupersededStays(s: State, t: State)
    requires Superseded(s) && t.log == s.log && |s.processes| <= |t.processes|
    requires forall i :: 0 <= i < |s.processes| ==> t.processes[i].queue == s.processes[i].queue
    requires t.stage.Started? || t.stage.Written? ==> (s.stage.Started? || s.stage.Written?) && s.current <= t.current
    requires t.stage.Waiting? ==> s.stage == t.stage
    ensures Superseded(t)
  {
  }

  lemma CurrentGrows(s: State, spawns: bool)
    requires Inv(s)
    ensures s.current <= Launch(s, spawns).current
  {
  }

  /** The process a request is about to be written to is younger than every failed one. */
  lemma StartSupersedes(s: State, t: State)
    requires Inv(t) && Superseded(s) && !InFlight(s) && !s.stage.Started? && t.log == s.log
    requires |s.processes| <= |t.processes|
    requires forall i :: 0 <= i < |s.processes| ==> t.processes[i].queue == s.processes[i].queue
    ensures Superseded(t.(stage := if Running(t) && !t.closed then Started else Idle))
  {
    hide FreshIds, Provenance, EmittedBy;
    if Running(t) {
      forall k | 0 <= k < |t.log| && t.log[k].Failed?
        ensures t.log[k].to < |t.processes| && t.processes[t.log[k].to].queue < t.current
      {
        assert Answered(t, t.log[k]);
      }
    }
  }

  lemma WaitSupersedes(s: State)
    requires Superseded(s)
    ensures Superseded(Next(s, Wait))
  {
  }

  /** A request ends: with a failure, or with a line from the queue it waited on. */
  lemma EndSupersedes(s: State, t: State)
    requires Superseded(s) && t.stage.Idle? && |t.processes| == |s.processes|
    requires |t.log| == |s.log| + 1 && t.log == s.log + [t.log[|s.log|]]
    requires forall i :: 0 <= i < |s.processes| ==> t.processes[i].queue == s.processes[i].queue
    requires t.log[|s.log|].Replied? ==> s.stage.Waiting? && t.log[|s.log|].queue == s.stage.queue
    ensures Superseded(t)
  {
  }

  /** A process answers only requests it received. */
  predicate Honest(s: State, e: Event) {
    e.Emit? && e.process < |s.processes| && e.line.Response? && e.line.id.Some? ==>
      e.line.id.value in s.processes[e.process].inbox
  }

  ghost predicate HonestRun(events: seq<Event>) {
    forall k :: 0 <= k < |events| ==> Honest(Run(Initial, events[..k]), events[k])
  }

  /** Nobody else starts the worker while a request is in flight. */
  ghost predicate UndisturbedRun(events: seq<Event>) {
    forall k :: 0 <= k < |events| && events[k].ForeignStart? ==> !InFlight(Run(Initial, events[..k]))
  }

  ghost predicate Truthful(s: State) {
    forall i, line :: 0 <= i < |s.processes| && line in s.processes[i].emitted && line.Response? && line.id.Some? ==>
      line.id.value in s.processes[i].inbox
  }

  lemma NextTruthful(s: State, e: Event)
    requires Truthful(s) && Honest(s, e)
    ensures Truthful(Next(s, e))
  {
    hide Truthful, Next;
    if e.Emit? {
      TruthfulEmit(s, e.process, e.line);
    } else {
      NothingPrinted(s, e);
      TruthfulStays(s, Next(s, e));
    }
  }

  /** Processes keep their output, and new ones have none. */
  ghost predicate SameOutput(s: State, t: State) {
    && |s.processes| <= |t.processes|
    && (forall i :: 0 <= i < |s.processes| ==>
          t.processes[i].emitted == s.processes[i].emitted && s.processes[i].inbox <= t.processes[i].inbox)
    && (forall i :: |s.processes| <= i < |t.processes| ==> t.processes[i].emitted == [])
  }

  lemma StopPrintsNothing(s: State)
    ensures SameOutput(s, Stop(s))
  {
  }

  lemma LaunchPrintsNothing(s: State, spawns: bool)
    ensures SameOutput(s, Launch(s, spawns))
  {
    hide Stop;
    StopPrintsNothing(s);
  }

  lemma NothingPrinted(s: State, e: Event)
    requires !e.Emit?
    ensures SameOutput(s, Next(s, e))
  {
    hide Stop, Launch;
    match e
    case Start(spawns) => LaunchPrintsNothing(s, spawns);
    case ForeignStart(spawns) => LaunchPrintsNothing(s, spawns);
    case Write(delivered) => StopPrintsNothing(s.(nextId := s.nextId + 1));
    case Receive =>
      if s.stage.Waiting? && s.stage.queue < |s.queues| && s.queues[s.stage.queue] != [] {
        StopPrintsNothing(Taken(s));
      }
    case TimeOut => StopPrintsNothing(s);
    case Close => StopPrintsNothing(s);
    case _ =>
  }

  lemma TruthfulEmit(s: State, p: nat, line: Line)
    requires Truthful(s) && Honest(s, Emit(p, line))
    ensures Truthful(Next(s, Emit(p, line)))
  {
  }

  lemma TruthfulStays(s: State, t: State)
    requires Truthful(s) && SameOutput(s, t)
    ensures Truthful(t)
  {
  }

  /** The queue the caller reads is the queue of the process it wrote to. */
  ghost predicate Aligned(s: State) {
    && (InFlight(s) ==> s.stage.to < |s.processes|)
    && (InFlight(s) ==> s.processes[s.stage.to].queue == if s.stage.Written? then s.current else s.stage.queue)
    && forall k :: 0 <= k < |s.log| && s.log[k].Replied? ==>
         s.log[k].to < |s.processes| && s.processes[s.log[k].to].queue == s.log[k].queue
  }

  lemma NextAligned(s: State, e: Event)
    requires Lineage(s) && Aligned(s) && (e.ForeignStart? ==> !InFlight(s))
    ensures Aligned(Next(s, e))
  {
    hide Aligned, Launch, Stop;
    match e
    case Write(delivered) => AlignedWrite(s, delivered);
    case Wait => AlignedWait(s);
    case Receive => AlignedReceive(s);
    case TimeOut => AlignedTimeOut(s);
    case Start(spawns) => LaunchQueues(s, spawns); AlignedStays(s, Next(s, e));
    case ForeignStart(spawns) => LaunchQueues(s, spawns); AlignedStays(s, Next(s, e));
    case Close => StopQueues(s); AlignedStays(s, Next(s, e));
    case _ => AlignedStays(s, Next(s, e));
  }

  lemma StopQueues(s: State)
    ensures var t := Stop(s);
            && t.log == s.log && t.stage == s.stage && t.current == s.current && t.queues == s.queues
            && |t.processes| == |s.processes|
            && forall i :: 0 <= i < |s.processes| ==> t.processes[i].queue == s.processes[i].queue
  {
  }

  lemma LaunchQueues(s: State, spawns: bool)
    ensures var t := Launch(s, spawns);
            && t.log == s.log && t.stage == s.stage && |s.processes| <= |t.processes|
            && forall i :: 0 <= i < |s.processes| ==> t.processes[i].queue == s.processes[i].queue
  {
    hide Stop;
    StopQueues(s);
  }

  lemma AlignedWrite(s: State, delivered: bool)
    requires Lineage(s) && Aligned(s)
    ensures Aligned(Next(s, Write(delivered)))
  {
    hide Stop;
    StopQueues(s.(nextId := s.nextId + 1));
  }

  lemma AlignedWait(s: State)
    requires Aligned(s)
    ensures Aligned(Next(s, Wait))
  {
  }

  lemma AlignedReceive(s: State)
    requires Aligned(s)
    ensures Aligned(Next(s, Receive))
  {
    hide Stop;
    if s.stage.Waiting? && s.stage.queue < |s.queues| && s.queues[s.stage.queue] != [] {
      StopQueues(Taken(s));
    }
  }

  lemma AlignedTimeOut(s: State)
    requires Aligned(s)
    ensures Aligned(Next(s, TimeOut))
  {
    hide Stop;
    StopQueues(s);
  }

  lemma AlignedStays(s: State, t: State)
    requires Aligned(s) && t.log == s.log && |s.processes| <= |t.processes|
    requires forall i :: 0 <= i < |s.processes| ==> t.processes[i].queue == s.processes[i].queue
    requires InFlight(t) ==> t.stage == s.stage && t.current == s.current
    ensures Aligned(t)
  {
  }

  lemma {:induction false} RunKeeps(events: seq<Event>)
    ensures var s := Run(Initial, events);
            && Inv(s) && Retired(s) && Superseded(s)
            && (HonestRun(events) ==> Truthful(s)) && (UndisturbedRun(events) ==> Aligned(s))
  {
    hide Inv, Next, Retired, Superseded, Truthful, Aligned, Honest;
    if events == [] {
      StartHolds();
    } else {
      var init, e := events[..|events| - 1], events[|events| - 1];
      var s := Run(Initial, init);
      forall k | 0 <= k < |init| ensures init[..k] == events[..k] && init[k] == events[k] {}
      RunKeeps(init);
      NextKeeps(s, e);
      NextRetires(s, e);
      NextSupersedes(s, e);
      if HonestRun(events) {
        assert HonestRun(init);
        assert Honest(Run(Initial, events[..|events| - 1]), events[|events| - 1]);
        NextTruthful(s, e);
      }
      if UndisturbedRun(events) {
        assert UndisturbedRun(init);
        InvLineage(s);
        NextAligned(s, e);
      }
    }
  }

  lemma StartHolds()
    ensures Inv(Initial) && Retired(Initial) && Superseded(Initial) && Truthful(Initial) && Aligned(Initial)
  {
  }

  lemma InvLineage(s: State)
    requires Inv(s)
    ensures Lineage(s)
  {
  }

  /** The line was printed by a process started after process `p`, on the queue it was read from. */
  ghost predicate PrintedAfter(s: State, p: nat, q: nat, line: Line) {
    exists i :: p < i < |s.processes| && s.processes[i].queue == q && line in s.processes[i].emitted
  }

  /** Over every interleaving, a returned reply carries the id of its request; ids
      are never used twice; and once a request to a process failed, no later request
      is written to it, and no later reply was printed by it or by an older one. */
  lemma RepliesCarryTheirId(events: seq<Event>)
    ensures var s := Run(Initial, events);
            var log := s.log;
            && (forall k :: 0 <= k < |log| && log[k].Replied? ==>
                  log[k].line.Response? && log[k].line.id == Some(log[k].id))
            && (forall k, l :: 0 <= k < l < |log| ==> log[k].id < log[l].id)
            && (forall k, l :: 0 <= k < l < |log| && log[k].Failed? ==> log[l].to != log[k].to)
            && (forall k, l :: 0 <= k < l < |log| && log[k].Failed? && log[l].Replied? ==>
                  PrintedAfter(s, log[k].to, log[l].queue, log[l].line))
  {
    RunKeeps(events);
    var s := Run(Initial, events);
    hide Lineage, Provenance, EmittedBy, Run;
    forall k | 0 <= k < |s.log| && s.log[k].Replied?
      ensures s.log[k].line.Response? && s.log[k].line.id == Some(s.log[k].id)
    {
      assert Answered(s, s.log[k]);
    }
    forall k, l | 0 <= k < l < |s.log| && s.log[k].Failed? && s.log[l].Replied?
      ensures PrintedAfter(s, s.log[k].to, s.log[l].queue, s.log[l].line)
    {
      LaterPrinter(s, k, l);
    }
  }

  lemma LaterPrinter(s: State, k: nat, l: nat)
    requires Inv(s) && Superseded(s) && k < l < |s.log| && s.log[k].Failed? && s.log[l].Replied?
    ensures PrintedAfter(s, s.log[k].to, s.log[l].queue, s.log[l].line)
  {
    hide Provenance, FreshIds;
    assert Answered(s, s.log[l]);
    var i :| 0 <= i < |s.processes| && s.processes[i].queue == s.log[l].queue
      && s.log[l].line in s.processes[i].emitted;
    LargerQueueIsLater(s, s.log[k].to, i);
  }

  lemma LargerQueueIsLater(s: State, p: nat, i: nat)
    requires Lineage(s) && p < |s.processes| && i < |s.processes| && s.processes[p].queue < s.processes[i].queue
    ensures p < i
  {
  }

  /** A returned reply was printed by the process its request was written to,
      provided nobody else starts the worker in between or processes are honest. */
  lemma RepliesComeFromTheirProcess(events: seq<Event>, k: nat)
    requires UndisturbedRun(events) || HonestRun(events)
    ensures var s := Run(Initial, events);
            k < |s.log| && s.log[k].Replied? ==>
              s.log[k].to < |s.processes| && s.log[k].line in s.processes[s.log[k].to].emitted
  {
    hide Run, Provenance, UndisturbedRun, HonestRun;
    RunKeeps(events);
    var s := Run(Initial, events);
    if k < |s.log| && s.log[k].Replied? {
      var o := s.log[k];
      assert Answered(s, o);
      var i :| 0 <= i < |s.processes| && s.processes[i].queue == o.queue && o.line in s.processes[i].emitted;
      if UndisturbedRun(events) {
        assert i == o.to;
      } else {
        assert o.id in s.processes[i].inbox && o.id in s.processes[o.to].inbox;
        assert i == o.to;
      }
    }
  }

  const Takeover := [
    Enter, Start(true), Write(true), Crash(0), ForeignStart(true), Wait,
    Emit(1, Response(Some(1), "forged")), Forward(1), Receive]

  /** Without either proviso the reply of another process can be returned: the
      process dies after the request was written, somebody else starts a new one
      before the caller reads the queue, and that one guesses the id. */
  lemma ForeignStartCanMisdirect()
    ensures var s := Run(Initial, Takeover);
            && s.log == [Replied(1, 0, 2, Response(Some(1), "forged"))]
            && |s.processes| == 2 && s.processes[0].emitted == []
  {
    hide Next, Run;
    TakeoverBegins();
    TakeoverEnds();
    var states := TakeoverStates();
    forall k: nat | k < 9 ensures Next(states[k], Takeover[k]) == states[k + 1] {
      if k < 5 {
        assert k == 0 || k == 1 || k == 2 || k == 3 || k == 4;
      } else {
        assert k == 5 || k == 6 || k == 7 || k == 8;
      }
    }
    StepByStep(Takeover, states);
  }

  const Forged := Response(Some(1), "forged")

  /** The states the takeover passes through. */
  function TakeoverStates(): (states: seq<State>)
    ensures |states| == 10 && states[0] == Initial
  {
    var old_ := Process(1, false, [1], [], 0);
    var new_ := Process(2, true, [], [Forged], 0);
    var s3 := State(false, Some(0), 1, [old_.(alive := true)], [[], []], 1, 2, Written(1, 0), []);
    var s5 := State(false, Some(1), 2, [old_, new_.(emitted := [])], [[], [], []], 2, 2, Written(1, 0), []);
    var s7 := s5.(processes := [old_, new_], stage := Waiting(1, 0, 2));
    [ Initial,
      Initial.(stage := Entered),
      State(false, Some(0), 1, [Process(1, true, [], [], 0)], [[], []], 1, 1, Started, []),
      s3,
      s3.(processes := [old_]),
      s5,
      s5.(stage := Waiting(1, 0, 2)),
      s7,
      s7.(processes := [old_, new_.(read := 1)], queues := [[], [], [Output(Forged)]]),
      s7.(processes := [old_, new_.(read := 1)], stage := Idle, log := [Replied(1, 0, 2, Forged)])]
  }

  lemma TakeoverBegins()
    ensures var s := TakeoverStates(); forall k: nat :: k < 5 ==> Next(s[k], Takeover[k]) == s[k + 1]
  {
    var s := TakeoverStates();
    var none: seq<Item> := [];
    var p := Process(1, true, [], [], 0);
    assert Next(s[1], Start(true)) == s[2] by { assert [none] + [none] == [none, none]; }
    assert Next(s[2], Write(true)) == s[3] by {
      assert p.inbox + [1] == [1] && [p][0 := p.(inbox := [1])] == [p.(inbox := [1])];
    }
    var q := p.(inbox := [1]);
    assert Next(s[3], Crash(0)) == s[4] by { assert [q][0 := q.(alive := false)] == [q.(alive := false)]; }
    assert Next(s[4], ForeignStart(true)) == s[5] by {
      assert [none, none] + [none] == [none, none, none];
      var dead := q.(alive := false);
      assert [dead] + [Process(2, true, [], [], 0)] == [dead, Process(2, true, [], [], 0)]
        && [dead][0 := dead] == [dead];
    }
  }

  lemma TakeoverEnds()
    ensures var s := TakeoverStates(); forall k: nat :: 5 <= k < 9 ==> Next(s[k], Takeover[k]) == s[k + 1]
  {
    var s := TakeoverStates();
    var before, after := s[6].processes, s[7].processes;
    assert Next(s[6], Takeover[6]) == s[7] by {
      assert before[1].emitted + [Forged] == [Forged] && before[1 := after[1]] == after;
    }
    assert Next(s[7], Takeover[7]) == s[8] by {
      assert after[1 := s[8].processes[1]] == s[8].processes;
      assert s[7].queues[2] + [Output(Forged)] == [Output(Forged)] && s[7].queues[2 := [Output(Forged)]] == s[8].queues;
    }
    assert Next(s[8], Takeover[8]) == s[9] by { assert [Output(Forged)][1..] == []; }
  }

  lemma {:induction false} StepByStep(events: seq<Event>, states: seq<State>)
    requires |states| == |events| + 1 && states[0] == Initial
    requires forall k: nat :: k < |events| ==> Next(states[k], events[k]) == states[k + 1]
    ensures Run(Initial, events) == states[|events|]
  {
    if events != [] {
      StepByStep(events[..|events| - 1], states[..|events|]);
    }
  }
}

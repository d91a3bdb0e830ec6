/** How the backend uses the workers of a pool: every call of `start` and `request`
    on a worker happens inside a checkout of it, and the thread that holds it makes
    one call at a time. Under that discipline nobody starts a worker while one of its
    requests is in flight. */
module PooledUse {
  import opened Basics
  import WorkerPools
  import opened WorkerProtocol

  /** A client is one `with pool.checkout(...)` block; `busy` are those inside
      `worker.request`. `traces[w]` is what happened to worker `w` so far. */
  datatype System = System(pool: WorkerPools.Pool, holding: map<nat, nat>, busy: set<nat>, traces: seq<seq<Event>>)

  datatype Act =
    | Take(client: nat, requested: Option<nat>) | Return(client: nat)
    | CallStart(client: nat, spawns: bool) | CallRequest(client: nat) | Advance(client: nat, event: Event)
    // processes and their reader threads; closing
    | Ambient(worker: nat, event: Event) | ClosePool | CloseWorker(worker: nat)

  function Begin(size: nat): System {
    System(WorkerPools.Fresh(size), map[], {}, seq(size, _ => []))
  }

  function WorkerState(s: System, w: nat): State
    requires w < |s.traces|
  {
    Run(Initial, s.traces[w])
  }

  function Happens(s: System, w: nat, e: Event): System {
    if w < |s.traces| then s.(traces := s.traces[w := s.traces[w] + [e]]) else s
  }

  predicate IsCallerStep(e: Event) {
    e.Start? || e.Write? || e.Wait? || e.Receive? || e.TimeOut?
  }

  predicate IsOutput(e: Event) {
    e.Emit? || e.Crash? || e.Forward? || e.ForwardEof?
  }

  function Step(s: System, a: Act): System {
    match a
    case Take(c, requested) =>
      if c in s.holding then s
      else
        var (pool, answer) := WorkerPools.Acquire(s.pool, requested);
        if answer.Worker? then s.(pool := pool, holding := s.holding[c := answer.id]) else s
    case Return(c) =>
      if c !in s.holding || c in s.busy then s
      else s.(pool := WorkerPools.Serve(s.pool, WorkerPools.GiveBack(s.holding[c])).0, holding := s.holding - {c})
    case CallStart(c, spawns) =>
      if c !in s.holding || c in s.busy then s else Happens(s, s.holding[c], ForeignStart(spawns))
    case CallRequest(c) =>
      if c !in s.holding || c in s.busy then s else Happens(s, s.holding[c], Enter).(busy := s.busy + {c})
    case Advance(c, e) =>
      if c !in s.holding || c !in s.busy || !IsCallerStep(e) then s
      else
        var t := Happens(s, s.holding[c], e);
        if s.holding[c] < |t.traces| && WorkerState(t, s.holding[c]).stage.Idle? then t.(busy := s.busy - {c}) else t
    case Ambient(w, e) => if IsOutput(e) then Happens(s, w, e) else s
    case ClosePool => s.(pool := s.pool.(closed := true))
    case CloseWorker(w) => if s.pool.closed then Happens(s, w, Close) else s
  }

  function Steps(s: System, acts: seq<Act>): System {
    if acts == [] then s else Step(Steps(s, acts[..|acts| - 1]), acts[|acts| - 1])
  }

  /** Workers are held by one client each, and a worker with a request under way is
      held by a busy one. */
  ghost predicate Disciplined(s: System) {
    && WorkerPools.Valid(s.pool) && s.pool.size == |s.traces|
    && s.busy <= s.holding.Keys
    && (forall c :: c in s.holding ==> s.holding[c] in s.pool.held && s.holding[c] < |s.traces|)
    && (forall c, d :: c in s.holding && d in s.holding && c != d ==> s.holding[c] != s.holding[d])
    && (forall w {:trigger Attended(s, w)} :: 0 <= w < |s.traces| ==> Attended(s, w))
  }

  ghost predicate Attended(s: System, w: nat)
    requires w < |s.traces|
  {
    && (WorkerState(s, w).stage.Idle? || exists c :: c in s.busy && c in s.holding && s.holding[c] == w)
    && UndisturbedRun(s.traces[w])
  }

  lemma HappensNext(s: System, w: nat, e: Event)
    requires w < |s.traces|
    ensures |Happens(s, w, e).traces| == |s.traces|
    ensures WorkerState(Happens(s, w, e), w) == Next(WorkerState(s, w), e)
    ensures forall v :: 0 <= v < |s.traces| && v != w ==> Happens(s, w, e).traces[v] == s.traces[v]
  {
    assert (s.traces[w] + [e])[..|s.traces[w]|] == s.traces[w];
  }

  lemma OneMoreEvent(trace: seq<Event>, e: Event)
    requires UndisturbedRun(trace) && (e.ForeignStart? ==> !InFlight(Run(Initial, trace)))
    ensures UndisturbedRun(trace + [e])
  {
    hide Run;
    var all := trace + [e];
    forall k | 0 <= k < |all| && all[k].ForeignStart? ensures !InFlight(Run(Initial, all[..k])) {
      if k < |trace| {
        assert all[..k] == trace[..k];
      } else {
        assert all[..k] == trace;
      }
    }
  }

  /** What happens to one worker leaves the others alone. */
  lemma HappensKeeps(s: System, t: System, w: nat, e: Event)
    requires Disciplined(s) && w < |s.traces| && t == Happens(s, w, e).(busy := t.busy)
    requires t.busy <= s.holding.Keys && (e.ForeignStart? ==> !InFlight(WorkerState(s, w)))
    requires forall c :: c in s.holding && s.holding[c] != w ==> (c in t.busy <==> c in s.busy)
    requires Next(WorkerState(s, w), e).stage.Idle? || exists c :: c in t.busy && s.holding[c] == w
    ensures Disciplined(t)
  {
    hide Run, Next, UndisturbedRun, WorkerPools.Valid;
    HappensNext(s, w, e);
    forall v {:trigger Attended(t, v)} | 0 <= v < |t.traces| ensures Attended(t, v) {
      assert Attended(s, v);
      if v == w {
        OneMoreEvent(s.traces[w], e);
      } else {
        assert WorkerState(t, v) == WorkerState(s, v);
      }
    }
  }

  /** While its holder is not inside a request, a worker is idle. */
  lemma IdleWhileNotBusy(s: System, c: nat)
    requires Disciplined(s) && c in s.holding && c !in s.busy
    ensures WorkerState(s, s.holding[c]).stage.Idle?
  {
    assert Attended(s, s.holding[c]);
  }

  lemma AcquireFacts(p: WorkerPools.Pool, requested: Option<nat>)
    requires WorkerPools.Valid(p)
    ensures var (p', answer) := WorkerPools.Acquire(p, requested);
            && WorkerPools.Valid(p') && p'.size == p.size
            && (answer.Worker? ==>
                  answer.id < p.size && answer.id !in p.held && p'.held == p.held + multiset{answer.id})
  {
    if requested.None? {
      WorkerPools.TakenKeepsValid(p);
    } else {
      WorkerPools.NamedKeepsValid(p, requested.value);
    }
  }

  lemma NewHolder(s: System, c: nat, requested: Option<nat>)
    requires Disciplined(s)
    ensures Disciplined(Step(s, Take(c, requested)))
  {
    hide Run, UndisturbedRun, WorkerPools.Valid, WorkerPools.Acquire, WorkerPools.Serve;
    var t := Step(s, Take(c, requested));
    AcquireFacts(s.pool, requested);
    forall w {:trigger Attended(t, w)} | 0 <= w < |t.traces| ensures Attended(t, w) {
      assert Attended(s, w);
    }
  }

  lemma FormerHolder(s: System, c: nat)
    requires Disciplined(s)
    ensures Disciplined(Step(s, Return(c)))
  {
    hide Run, UndisturbedRun;
    var t := Step(s, Return(c));
    if c in s.holding && c !in s.busy {
      WorkerPools.GivenBackKeepsValid(s.pool, s.holding[c]);
      forall w {:trigger Attended(t, w)} | 0 <= w < |t.traces| ensures Attended(t, w) {
        assert Attended(s, w);
      }
    }
  }

  lemma StepKeeps(s: System, a: Act)
    requires Disciplined(s)
    ensures Disciplined(Step(s, a))
  {
    hide Run, UndisturbedRun, Disciplined, Launch, Stop, Fail;
    var t := Step(s, a);
    match a
    case Take(c, requested) => NewHolder(s, c, requested);
    case Return(c) => FormerHolder(s, c);
    case CallStart(c, spawns) =>
      if c in s.holding && c !in s.busy {
        IdleWhileNotBusy(s, c);
        Holds(s, c);
        LaunchLog(WorkerState(s, s.holding[c]), spawns);
        HappensKeeps(s, t, s.holding[c], ForeignStart(spawns));
      }
    case CallRequest(c) =>
      if c in s.holding && c !in s.busy {
        Holds(s, c);
        HappensKeeps(s, t, s.holding[c], Enter);
      }
    case Advance(c, e) =>
      if c in s.holding && c in s.busy && IsCallerStep(e) {
        Holds(s, c);
        HappensNext(s, s.holding[c], e);
        HappensKeeps(s, t, s.holding[c], e);
      }
    case Ambient(w, e) => if w < |s.traces| && IsOutput(e) { AmbientKeeps(s, w, e); }
    case ClosePool => ClosingKeeps(s);
    case CloseWorker(w) => if s.pool.closed && w < |s.traces| { AmbientKeeps(s, w, Close); }
  }

  lemma Holds(s: System, c: nat)
    requires Disciplined(s) && c in s.holding
    ensures s.holding[c] < |s.traces| && s.busy <= s.holding.Keys
    ensures forall d :: d in s.holding && d != c ==> s.holding[d] != s.holding[c]
  {
  }

  /** Output, crashes and closing do not move the caller. */
  lemma AmbientKeeps(s: System, w: nat, e: Event)
    requires Disciplined(s) && w < |s.traces| && (IsOutput(e) || e.Close?)
    ensures Disciplined(Happens(s, w, e))
  {
    hide Run, UndisturbedRun, Launch, Stop, Fail;
    StopLog(WorkerState(s, w));
    assert Attended(s, w);
    HappensKeeps(s, Happens(s, w, e), w, e);
  }

  lemma ClosingKeeps(s: System)
    requires Disciplined(s)
    ensures Disciplined(Step(s, ClosePool))
  {
    hide Run, UndisturbedRun;
    var t := Step(s, ClosePool);
    forall w {:trigger Attended(t, w)} | 0 <= w < |t.traces| ensures Attended(t, w) {
      assert Attended(s, w);
    }
  }

  lemma BeginDisciplined(size: nat)
    ensures Disciplined(Begin(size))
  {
    var s := Begin(size);
    WorkerPools.FreshIsValid(size);
    forall w {:trigger Attended(s, w)} | 0 <= w < |s.traces| ensures Attended(s, w) {
      assert s.traces[w] == [];
    }
  }

  lemma {:induction false} EveryRunIsDisciplined(size: nat, acts: seq<Act>)
    ensures Disciplined(Steps(Begin(size), acts)) && |Steps(Begin(size), acts).traces| == size
  {
    hide Disciplined, Step;
    BeginDisciplined(size);
    if acts != [] {
      EveryRunIsDisciplined(size, acts[..|acts| - 1]);
      StepKeeps(Steps(Begin(size), acts[..|acts| - 1]), acts[|acts| - 1]);
      StepSize(Steps(Begin(size), acts[..|acts| - 1]), acts[|acts| - 1]);
    }
  }

  lemma StepSize(s: System, a: Act)
    ensures |Step(s, a).traces| == |s.traces|
  {
  }

  /** Over every run of any number of clients on a pool: a worker has one holder, and
      what a worker returns was printed by the process the request was written to. */
  lemma PooledRepliesComeFromTheirProcess(size: nat, acts: seq<Act>, w: nat, k: nat)
    requires w < size
    ensures var s := Steps(Begin(size), acts);
            && |s.traces| == size && UndisturbedRun(s.traces[w])
            && (forall c, d :: c in s.holding && d in s.holding && s.holding[c] == s.holding[d] ==> c == d)
            && var x := Run(Initial, s.traces[w]);
               k < |x.log| && x.log[k].Replied? ==>
                 x.log[k].to < |x.processes| && x.log[k].line in x.processes[x.log[k].to].emitted
  {
    hide Run, UndisturbedRun, WorkerPools.Valid;
    EveryRunIsDisciplined(size, acts);
    var s := Steps(Begin(size), acts);
    assert Attended(s, w);
    RepliesComeFromTheirProcess(s.traces[w], k);
  }
}

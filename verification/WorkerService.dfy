/** What a worker does for its callers: while its process answers what it is asked, every
    request is answered by that process, in order, without a restart. */
module WorkerService {
  import opened Basics
  import opened WorkerProtocol

  /** Nobody is inside a request, and nothing is left over from earlier ones. */
  ghost predicate Quiet(s: State) {
    && Inv(s) && s.stage.Idle? && !s.closed
    && (Running(s) ==> Drained(s, s.process.value))
  }

  ghost predicate Drained(s: State, p: nat)
    requires p < |s.processes|
  {
    && s.processes[p].queue == s.current < |s.queues| && s.queues[s.current] == []
    && s.processes[p].read == |s.processes[p].emitted|
  }

  /** The request is written to process `p`, which has not answered yet. */
  ghost predicate Asked(s: State, id: int, p: nat) {
    && Inv(s) && !s.closed && s.stage == Written(id, p) && s.process == Some(p)
    && p < |s.processes| && s.processes[p].alive && Drained(s, p)
  }

  function Ask(s: State): State {
    Next(Next(Next(s, Enter), Start(true)), Write(true))
  }

  lemma AskKeeps(s: State)
    requires Inv(s)
    ensures Inv(Ask(s))
  {
    hide Inv, Next;
    NextKeeps(s, Enter);
    NextKeeps(Next(s, Enter), Start(true));
    NextKeeps(Next(Next(s, Enter), Start(true)), Write(true));
  }

  /** A request reaches a living process: the one that runs, or a new one. */
  lemma RequestIsWritten(s: State)
    requires Quiet(s)
    ensures var t := Ask(s);
            && t.process.Some? && Asked(t, s.nextId, t.process.value) && t.log == s.log && t.nextId == s.nextId + 1
            && (Running(s) ==> t.process == s.process && t.generation == s.generation)
            && (!Running(s) ==> t.generation == s.generation + 1)
  {
    hide Inv, Provenance, FreshIds, Answers;
    AskKeeps(s);
    InvFacts(s);
    var e := Next(s, Enter);
    var l := Next(e, Start(true));
    if Running(s) {
      assert l == e.(stage := Started);
    } else {
      assert l.process == Some(|s.processes|) && l.queues[l.current] == [];
    }
  }

  lemma InvFacts(s: State)
    requires Inv(s)
    ensures Lineage(s)
  {
  }

  /** The answer and the caller come in any order. */
  function Schedule(which: nat, p: nat, line: Line): seq<Event> {
    if which == 0 then [Wait, Emit(p, line), Forward(p), Receive]
    else if which == 1 then [Emit(p, line), Wait, Forward(p), Receive]
    else [Emit(p, line), Forward(p), Wait, Receive]
  }

  function Follow(s: State, events: seq<Event>): State
    requires |events| == 4
  {
    Next(Next(Next(Next(s, events[0]), events[1]), events[2]), events[3])
  }

  /** A process that prints its answer has it returned. */
  lemma AnswerIsReturned(s: State, id: int, p: nat, payload: string, which: nat)
    requires Asked(s, id, p)
    ensures var line := Response(Some(id), payload);
            var t := Follow(s, Schedule(which, p, line));
            && t.log == s.log + [Replied(id, p, s.current, line)] && Quiet(t)
            && t.process == s.process && Running(t) && t.generation == s.generation && t.nextId == s.nextId
  {
    hide Inv, Next;
    var line := Response(Some(id), payload);
    var x := s.processes[p];
    var y := x.(emitted := x.emitted + [line]);
    var z := y.(read := |y.emitted|);
    FollowKeeps(s, Schedule(which, p, line));
    Waits(s);
    Emits(s, p, line);
    Waits(s.(processes := s.processes[p := y]));
    Emits(s.(stage := Waiting(id, p, s.current)), p, line);
    Forwards(s.(processes := s.processes[p := y]), p, line);
    Forwards(s.(processes := s.processes[p := y], stage := Waiting(id, p, s.current)), p, line);
    var printed := s.(processes := s.processes[p := y][p := z], queues := s.queues[s.current := [Output(line)]]);
    Waits(printed);
    Receives(printed.(stage := Waiting(id, p, s.current)), id, p, line);
  }

  lemma FollowKeeps(s: State, events: seq<Event>)
    requires Inv(s) && |events| == 4
    ensures Inv(Follow(s, events))
  {
    hide Inv, Next;
    NextKeeps(s, events[0]);
    NextKeeps(Next(s, events[0]), events[1]);
    NextKeeps(Next(Next(s, events[0]), events[1]), events[2]);
    NextKeeps(Next(Next(Next(s, events[0]), events[1]), events[2]), events[3]);
  }

  lemma Waits(s: State)
    ensures s.stage.Written? ==> Next(s, Wait) == s.(stage := Waiting(s.stage.id, s.stage.to, s.current))
  {
  }

  lemma Emits(s: State, p: nat, line: Line)
    requires p < |s.processes| && s.processes[p].alive
    ensures var x := s.processes[p];
            Next(s, Emit(p, line)) == s.(processes := s.processes[p := x.(emitted := x.emitted + [line])])
  {
  }

  lemma Forwards(s: State, p: nat, line: Line)
    requires p < |s.processes| && s.processes[p].emitted != []
    requires s.processes[p].read == |s.processes[p].emitted| - 1
    requires s.processes[p].emitted[|s.processes[p].emitted| - 1] == line
    requires s.processes[p].queue == s.current < |s.queues| && s.queues[s.current] == []
    ensures var x := s.processes[p];
            Next(s, Forward(p)) == s.(processes := s.processes[p := x.(read := |x.emitted|)],
                                      queues := s.queues[s.current := [Output(line)]])
  {
    assert s.queues[s.current] + [Output(line)] == [Output(line)];
  }

  lemma Receives(s: State, id: int, p: nat, line: Line)
    requires s.stage == Waiting(id, p, s.current) && s.current < |s.queues| && s.queues[s.current] == [Output(line)]
    requires line.Response? && line.id == Some(id)
    ensures Next(s, Receive) == s.(queues := s.queues[s.current := []], stage := Idle,
                                   log := s.log + [Replied(id, p, s.current, line)])
  {
    assert [Output(line)][1..] == [];
  }

  /** One request after the other, each answered in its own order. */
  function Serve(s: State, answers: seq<(string, nat)>): State
    decreases |answers|
  {
    if answers == [] then s
    else
      var before := Serve(s, answers[..|answers| - 1]);
      var t := Ask(before);
      var (payload, which) := answers[|answers| - 1];
      if t.process.None? then t
      else Follow(t, Schedule(which, t.process.value, Response(Some(before.nextId), payload)))
  }

  /** The log entry of request `k` is the answer that was printed for it. */
  ghost predicate RepliesInTurn(s: State, t: State, k: nat, payload: string) {
    && |s.log| + k < |t.log|
    && var reply := t.log[|s.log| + k];
       && reply.Replied? && reply.id == s.nextId + k && Some(reply.to) == t.process
       && reply.line == Response(Some(s.nextId + k), payload)
  }

  /** Every request of a served worker returns the answer its process gave to it, in
      order, under consecutive ids; at most the first of them starts a process. */
  lemma {:induction false} EveryRequestIsServed(s: State, answers: seq<(string, nat)>)
    requires Quiet(s)
    ensures var t := Serve(s, answers);
            && Quiet(t) && t.nextId == s.nextId + |answers| && |t.log| == |s.log| + |answers| && s.log <= t.log
            && (forall k :: 0 <= k < |answers| ==> RepliesInTurn(s, t, k, answers[k].0))
            && (answers != [] ==> Running(t))
            && t.generation == s.generation + if answers == [] || Running(s) then 0 else 1
    decreases |answers|
  {
    hide Quiet, Ask, Follow, Asked;
    if answers != [] {
      var init := answers[..|answers| - 1];
      var before := Serve(s, init);
      EveryRequestIsServed(s, init);
      RequestIsWritten(before);
      var t := Ask(before);
      var (payload, which) := answers[|answers| - 1];
      AnswerIsReturned(t, before.nextId, t.process.value, payload, which);
      var after := Serve(s, answers);
      assert after.log == before.log + [Replied(before.nextId, t.process.value, t.current,
                                                Response(Some(before.nextId), payload))];
      forall k | 0 <= k < |answers| ensures RepliesInTurn(s, after, k, answers[k].0) {
        if k < |init| {
          assert RepliesInTurn(s, before, k, init[k].0);
          assert after.log[|s.log| + k] == before.log[|s.log| + k];
        }
      }
    }
  }
}

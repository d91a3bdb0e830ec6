/** The part of `WorkerOptBackend` that serves one worker, step by step: the LRU
    cache of path handles, the results handed out, and the process behind them.
    Every method does to the fields what the function of `HandleModel` with its
    name says. */
module WorkerShards {
  import opened Basics
  import opened HandleModel
  import opened HandleConservation
  import opened HandleContents

  lemma BeginLeavesResults(w: World, s: Shard)
    ensures Begin(w, s).results == s.results
  {
  }

  lemma MaterializeWrites(w: World, s: Shard, h: Handle, path: string)
    ensures var (t, reply) := Request(w, s, Materialize(h, path));
            t.results == s.results && (reply.Answer? ==> (path, h) in t.written)
  {
  }

  lemma RequestLeavesCache(w: World, s: Shard, op: Op)
    ensures Request(w, s, op).0.cache == s.cache
  {
  }

  class WorkerShard {
    const world: World
    const capacity: nat

    // the worker process
    var generation: nat
    var running: bool
    var refs: map<Handle, nat>
    // the Python side
    var cache: seq<Entry>
    var results: seq<RunResult>
    var clock: nat
    ghost var uncovered: multiset<Handle>
    ghost var written: set<(string, Handle)>

    ghost function Model(): Shard
      reads this
    {
      Shard(generation, running, refs, cache, results, clock, uncovered, written)
    }

    ghost predicate Conserved()
      reads this
    {
      capacity >= 1 && Sound(Model(), capacity, multiset{})
    }

    constructor (world: World, capacity: nat)
      requires capacity >= 1
      ensures Model() == Unstarted && Conserved() && this.world == world && this.capacity == capacity
    {
      this.world, this.capacity := world, capacity;
      generation, running, refs, cache, results, clock, uncovered := 0, false, map[], [], [], 0, multiset{};
      written := {};
    }

    method Start()
      modifies this
      ensures Model() == Begin(world, old(Model()))
    {
      var fate := world(clock);
      clock := clock + 1;
      if running && !fate.dies {
        return;
      }
      running := false;
      if !fate.startFails {
        running, refs, generation, uncovered := true, map[], generation + 1, multiset{};
      }
    }

    method SendRequest(op: Op) returns (reply: Reply)
      modifies this
      ensures (Model(), reply) == Request(world, old(Model()), op)
    {
      var fate := world(clock);
      Start();
      if !running {
        return Raised;
      }
      if fate.lost {
        running := false;
        return Raised;
      }
      var answer := Serve(refs, op, fate);
      refs, reply := answer.0, answer.1;
      written := Written(written, op, reply);
    }

    ghost method GiveUp(h: Handle, reply: Reply)
      modifies this`uncovered
      ensures Model() == Forgo(old(Model()), h, reply)
    {
      if reply.Refused? {
        uncovered := uncovered - multiset{h};
      }
    }

    /** The loop over evicted entries at the end of `_remember_signature`. */
    method ReleaseCacheReferences(dropped: seq<Entry>) returns (ok: bool)
      modifies this
      ensures (Model(), ok) == ReleaseAll(world, old(Model()), dropped)
    {
      for k := 0 to |dropped|
        invariant ReleaseAll(world, old(Model()), dropped) == ReleaseAll(world, Model(), dropped[k..])
      {
        assert dropped[k..][1..] == dropped[k + 1..];
        if dropped[k].generation == generation {
          var reply := SendRequest(Release(dropped[k].handle));
          if reply.Raised? {
            return false;
          }
          GiveUp(dropped[k].handle, reply);
        }
      }
      ok := true;
    }

    /** `popitem(last=False)` until the cache fits. */
    method EvictOldest() returns (evicted: seq<Entry>)
      modifies this`cache
      ensures var excess := Excess(|old(cache)|, capacity);
              cache == old(cache)[excess..] && evicted == old(cache)[..excess]
    {
      evicted := [];
      while |cache| > capacity
        invariant |evicted| <= |old(cache)| && cache == old(cache)[|evicted|..] && evicted == old(cache)[..|evicted|]
        invariant |evicted| > 0 ==> |cache| >= capacity
      {
        evicted, cache := evicted + [cache[0]], cache[1..];
      }
    }

    /** The branch of `_remember_signature` for a path that has this very handle already. */
    method RestampEntry(path: string, signature: Signature, h: Handle, owned: bool) returns (ok: bool)
      requires Known(Model(), path, h)
      modifies this
      ensures (Model(), ok) == Remember(world, old(Model()), capacity, path, signature, h, owned)
    {
      hide Request, ReleaseAll, Without, Picked, Find;
      RequestLeavesCache(world, Model(), Release(h));
      var at := Find(cache, path);
      if owned {
        ghost var before := generation;
        var reply := SendRequest(Release(h));
        if reply.Raised? {
          return false;
        }
        GiveUp(h, reply);
        if generation != before {
          uncovered := uncovered + multiset{h};
        }
      }
      cache := Without(cache, at) + [Entry(path, signature, generation, h)];
      ok := true;
    }

    method RememberSignature(path: string, signature: Signature, h: Handle, owned: bool) returns (ok: bool)
      modifies this
      ensures (Model(), ok) == Remember(world, old(Model()), capacity, path, signature, h, owned)
    {
      hide Request, ReleaseAll, Without, Picked, Find;
      RequestLeavesCache(world, Model(), Retain(h));
      var at := Find(cache, path);
      if at.Some? && cache[at.value].generation == generation && cache[at.value].handle == h {
        ok := RestampEntry(path, signature, h, owned);
        return;
      }
      if !owned {
        var reply := SendRequest(Retain(h));
        if !reply.Answer? {
          return false;
        }
      }
      var replaced := Picked(cache, at);
      cache := Without(cache, at) + [Entry(path, signature, generation, h)];
      var evicted := EvictOldest();
      ok := ReleaseCacheReferences(replaced + evicted);
    }

    method LoadPath(path: string, signature: Option<Signature>) returns (handle: Option<Handle>)
      modifies this
      ensures (Model(), handle) == LoadInput(world, old(Model()), capacity, path, signature)
    {
      Start();
      if !running || signature.None? {
        return None;
      }
      var at := Find(cache, path);
      var cached := Picked(cache, at);
      cache := Without(cache, at) + cached;
      if cached != [] && cached[0].signature == signature.value && cached[0].generation == generation {
        return Some(cached[0].handle);
      }
      var reply := SendRequest(Load(path, signature.value));
      if !reply.Answer? {
        return None;
      }
      var ok := RememberSignature(path, signature.value, reply.handle, true);
      handle := if ok then Some(reply.handle) else None;
    }

    method RememberMaterializedPath(path: string, signature: Option<Signature>, h: Handle) returns (ok: bool)
      modifies this
      ensures (Model(), ok) == RememberMaterialized(world, old(Model()), capacity, path, signature, h)
    {
      ok := false;
      if signature.Some? {
        ok := RememberSignature(path, signature.value, h, true);
      }
      if !ok {
        var reply := SendRequest(Release(h));
        GiveUp(h, reply);
      }
    }

    method ApplyPipeline(parent: Handle, pipeline: string, output: string, signature: Option<Signature>,
                         materialize: bool)
      modifies this
      ensures Model() == ApplyTo(world, old(Model()), capacity, parent, pipeline, output, signature, materialize)
    {
      var reply := SendRequest(Apply(parent, pipeline, if materialize then Some(output) else None));
      if !reply.Answer? {
        return;
      }
      if materialize {
        var ok := RememberMaterializedPath(output, signature, reply.handle);
        if !ok {
          return;
        }
      }
      results := results + [RunResult(reply.handle, generation, !materialize)];
    }

    method Disown(i: nat)
      requires i < |results|
      modifies this`results
      ensures Model() == Disowned(old(Model()), i)
    {
      results := results[i := results[i].(owned := false)];
    }

    /** The prologue shared by the operations on a result: is its handle still of
        this process? A stale result loses its claim. */
    method ResultIsCurrent(i: nat) returns (current: bool)
      requires i < |results|
      modifies this
      ensures var t := Begin(world, old(Model()));
              && current == (t.running && t.results[i].generation == t.generation)
              && Model() == if t.running && !current then Disowned(t, i) else t
    {
      Start();
      current := running && results[i].generation == generation;
      if running && !current {
        Disown(i);
      }
    }

    method RunOptOnce(input: string, inputSignature: Option<Signature>, pipeline: string,
                      output: string, outputSignature: Option<Signature>, materialize: bool)
      modifies this
      ensures Model() == Step(world, old(Model()), capacity,
              RunOpt(input, inputSignature, pipeline, output, outputSignature, materialize))
      ensures old(Conserved()) ==> Conserved()
      ensures forall tools {:trigger Honest(world, tools)} :: capacity >= 1 && Honest(world, tools) ==>
                Means(tools, old(Model()), Model(),
                      RunOpt(input, inputSignature, pipeline, output, outputSignature, materialize))
    {
      hide ApplyTo, LoadInput, Sound, Means, Honest;
      StepLaws(RunOpt(input, inputSignature, pipeline, output, outputSignature, materialize));
      var parent := LoadPath(input, inputSignature);
      if parent.Some? {
        ApplyPipeline(parent.value, pipeline, output, outputSignature, materialize);
      }
    }

    method RunOptFromResult(i: nat, pipeline: string, output: string, outputSignature: Option<Signature>,
                            materialize: bool)
      modifies this
      ensures Model() ==
              Step(world, old(Model()), capacity, RunFromResult(i, pipeline, output, outputSignature, materialize))
      ensures old(Conserved()) ==> Conserved()
      ensures forall tools {:trigger Honest(world, tools)} :: capacity >= 1 && Honest(world, tools) ==>
                Means(tools, old(Model()), Model(), RunFromResult(i, pipeline, output, outputSignature, materialize))
    {
      hide ApplyTo, Begin, Sound, Means, Honest;
      StepLaws(RunFromResult(i, pipeline, output, outputSignature, materialize));
      BeginLeavesResults(world, Model());
      if i >= |results| || !results[i].owned {
        return;
      }
      var parent := results[i].handle;
      var current := ResultIsCurrent(i);
      if current {
        ApplyPipeline(parent, pipeline, output, outputSignature, materialize);
      }
    }

    method MaterializeResult(i: nat, output: string, outputSignature: Option<Signature>) returns (remembered: bool)
      modifies this
      ensures Model() == Step(world, old(Model()), capacity, Command.MaterializeResult(i, output, outputSignature))
      ensures old(Conserved()) ==> Conserved()
      ensures forall tools {:trigger Honest(world, tools)} :: capacity >= 1 && Honest(world, tools) ==>
                Means(tools, old(Model()), Model(), Command.MaterializeResult(i, output, outputSignature))
      ensures remembered && capacity >= 1 ==>
                && i < |results| && outputSignature.Some? && (output, results[i].handle) in written
                && MostRecent(Model(), output, outputSignature.value, results[i].handle)
    {
      hide Remember, Request, Begin, Sound, Means, Honest, MostRecent;
      StepLaws(Command.MaterializeResult(i, output, outputSignature));
      BeginLeavesResults(world, Model());
      remembered := false;
      if i >= |results| {
        return;
      }
      var h := results[i].handle;
      var current := ResultIsCurrent(i);
      if current {
        MaterializeWrites(world, Model(), h, output);
        var reply := SendRequest(Materialize(h, output));
        if reply.Answer? && outputSignature.Some? {
          if capacity >= 1 {
            RememberNames(world, Model(), capacity, output, outputSignature.value, h, false);
          }
          remembered := RememberSignature(output, outputSignature.value, h, false);
        }
      }
    }

    method ReleaseResult(i: nat) returns (released: bool)
      modifies this
      ensures Model() == Step(world, old(Model()), capacity, Command.ReleaseResult(i))
      ensures released ==> i < |results| && !results[i].owned && old(results[i].owned)
      ensures old(Conserved()) ==> Conserved()
    {
      StepLaws(Command.ReleaseResult(i));
      released := false;
      if i >= |results| || !results[i].owned {
        return;
      }
      var h := results[i].handle;
      var current := ResultIsCurrent(i);
      if current {
        var reply := SendRequest(Release(h));
        if reply.Answer? {
          Disown(i);
          released := true;
        }
      }
    }

    /** What is known of a step: it keeps the balance and means what it should. */
    lemma StepLaws(c: Command)
      ensures Conserved() ==> Sound(Step(world, Model(), capacity, c), capacity, multiset{})
      ensures forall tools {:trigger Honest(world, tools)} :: capacity >= 1 && Honest(world, tools) ==>
                Means(tools, Model(), Step(world, Model(), capacity, c), c)
    {
      hide Sound, Honest, Means, Step;
      if Conserved() {
        StepKeeps(world, Model(), capacity, c);
      }
      forall tools {:trigger Honest(world, tools)} | capacity >= 1 && Honest(world, tools)
        ensures Means(tools, Model(), Step(world, Model(), capacity, c), c)
      {
        StepMeans(world, tools, Model(), capacity, c);
      }
    }
  }
}

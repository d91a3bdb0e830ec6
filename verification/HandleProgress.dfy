/** What the operations achieve while nothing goes wrong outside. */
module HandleProgress {
  import opened Basics
  import opened HandleModel
  import opened HandleConservation

  /** Processes start and answer, and the worker refuses nothing of its own accord. */
  ghost predicate Calm(w: World) {
    forall n: nat :: !w(n).dies && !w(n).startFails && !w(n).lost && !w(n).refused
  }

  /** The shard is sound and nothing is uncovered, which calm keeps (`EveryRunConserves`). */
  ghost predicate Covered(s: Shard, capacity: nat) {
    Sound(s, capacity, multiset{}) && s.uncovered == multiset{}
  }

  lemma CalmBegin(w: World, s: Shard)
    requires Calm(w)
    ensures var t := Begin(w, s);
            && t.running && (s.running ==> t.generation == s.generation) && t.generation >= s.generation
            && t.cache == s.cache && t.results == s.results
  {
  }

  lemma CalmRequest(w: World, s: Shard, op: Op)
    requires Calm(w)
    ensures var (t, reply) := Request(w, s, op);
            && t.running && !reply.Raised? && (s.running ==> t.generation == s.generation)
            && t.cache == s.cache && t.results == s.results
    ensures var known := Begin(w, s).refs;
            Request(w, s, op).1.Answer? <==>
            match op {
              case Load(_, _) => true
              case Compare => true
              case Apply(p, _, _) => p in known
              case Materialize(h, _) => h in known
              case Retain(h) => h in known
              case Release(h) => h in known
            }
  {
  }

  lemma {:induction false} CalmReleases(w: World, s: Shard, dropped: seq<Entry>)
    requires Calm(w) && s.running
    ensures var (t, ok) := ReleaseAll(w, s, dropped);
            ok && t.running && t.generation == s.generation && t.cache == s.cache && t.results == s.results
    decreases |dropped|
  {
    hide Request, Forgo, Calm;
    if dropped != [] {
      if dropped[0].generation == s.generation {
        var (t, reply) := Request(w, s, Release(dropped[0].handle));
        CalmRequest(w, s, Release(dropped[0].handle));
        ForgoFacts(t, dropped[0].handle, reply);
        CalmReleases(w, Forgo(t, dropped[0].handle, reply), dropped[1..]);
      } else {
        CalmReleases(w, s, dropped[1..]);
      }
    }
  }

  /** The last entry is a current one for this path and handle. */
  ghost predicate Current(s: Shard, path: string, h: Handle) {
    && s.cache != []
    && var e := s.cache[|s.cache| - 1]; e.path == path && e.handle == h && e.generation == s.generation
  }

  /** Remembering succeeds if there is a reference for the cache, or one can be had. */
  lemma CalmRemember(w: World, s: Shard, capacity: nat, path: string, signature: Signature, h: Handle, owned: bool)
    requires Calm(w) && s.running && capacity >= 1 && (owned || h in Begin(w, s).refs)
    ensures var (t, ok) := Remember(w, s, capacity, path, signature, h, owned);
            && ok && t.running && t.generation == s.generation && t.results == s.results
            && Current(t, path, h)
  {
    hide Request, ReleaseAll, Without, Find, Calm, Begin;
    var at := Find(s.cache, path);
    CalmRequest(w, s, Release(h));
    CalmRequest(w, s, Retain(h));
    if Known(s, path, h) {
      var (t, reply) := if owned then Request(w, s, Release(h)) else (s, Answer(h));
      ForgoFacts(t, h, reply);
    } else {
      var t := if owned then s else Request(w, s, Retain(h)).0;
      var longer := Without(s.cache, at) + [Entry(path, signature, t.generation, h)];
      var excess := Excess(|longer|, capacity);
      CalmReleases(w, t.(cache := longer[excess..]), Picked(s.cache, at) + longer[..excess]);
    }
  }

  /** A live, covered process knows the handles of current entries and owned results. */
  lemma CurrentIsKnown(s: Shard, capacity: nat, e: Entry)
    requires Covered(s, capacity) && s.running && e in s.cache && e.generation == s.generation
    ensures e.handle in s.refs
  {
    hide Held;
    var i :| 0 <= i < |s.cache| && s.cache[i] == e;
    HeldAround(s.cache[..i], e, s.cache[i + 1..], EntryClaim(s.generation));
    HeldOne(e, EntryClaim(s.generation));
    assert s.cache == s.cache[..i] + [e] + s.cache[i + 1..];
    assert e.handle in multiset{e.handle};
    assert Count(s.refs, e.handle) + s.uncovered[e.handle] == (References(s) + multiset{})[e.handle];
  }

  lemma OwnedIsKnown(s: Shard, capacity: nat, i: nat)
    requires Covered(s, capacity) && s.running && i < |s.results|
    requires s.results[i].owned && s.results[i].generation == s.generation
    ensures s.results[i].handle in s.refs
  {
    hide Held;
    var r := s.results[i];
    HeldAround(s.results[..i], r, s.results[i + 1..], ResultClaim(s.generation));
    HeldOne(r, ResultClaim(s.generation));
    assert s.results == s.results[..i] + [r] + s.results[i + 1..];
    assert r.handle in multiset{r.handle};
    assert Count(s.refs, r.handle) + s.uncovered[r.handle] == (References(s) + multiset{})[r.handle];
  }

  lemma CalmIsCovered(w: World, s: Shard, t: Shard, capacity: nat)
    requires Calm(w) && Covered(s, capacity) && Sound(t, capacity, multiset{}) && StaysClean(w, s, t)
    ensures Covered(t, capacity)
  {
  }

  /** A readable input can be opened, and the process knows the handle it is opened as. */
  lemma CalmLoad(w: World, s: Shard, capacity: nat, path: string, signature: Signature)
    requires Calm(w) && capacity >= 1 && Covered(s, capacity)
    ensures var (t, h) := LoadInput(w, s, capacity, path, Some(signature));
            h.Some? && t.running && Covered(t, capacity) && h.value in t.refs && t.results == s.results
  {
    hide Request, Remember, Find, Without, Calm, Sound, Begin;
    var (t, h) := LoadInput(w, s, capacity, path, Some(signature));
    LoadInputKeeps(w, s, capacity, path, Some(signature));
    CalmIsCovered(w, s, t, capacity);
    CalmBegin(w, s);
    var b := Begin(w, s);
    var at := Find(b.cache, path);
    var u := b.(cache := Without(b.cache, at) + Picked(b.cache, at));
    var op := Load(path, signature);
    CalmRequest(w, u, op);
    var (v, reply) := Request(w, u, op);
    CalmRemember(w, v, capacity, path, signature, reply.handle, true);
    CurrentIsKnown(t, capacity, t.cache[|t.cache| - 1]);
  }

  lemma CalmApply(w: World, s: Shard, capacity: nat, parent: Handle, pipeline: string, output: string,
                  signature: Option<Signature>, materialize: bool)
    requires Calm(w) && capacity >= 1 && s.running && parent in s.refs && (materialize ==> signature.Some?)
    ensures |ApplyTo(w, s, capacity, parent, pipeline, output, signature, materialize).results| == |s.results| + 1
  {
    hide Request, Remember;
    var op := Apply(parent, pipeline, if materialize then Some(output) else None);
    assert Begin(w, s).refs == s.refs;
    CalmRequest(w, s, op);
    var (t, reply) := Request(w, s, op);
    if materialize {
      CalmRemember(w, t, capacity, output, signature.value, reply.handle, true);
    }
  }

  /** In calm, the operations do what they are for: a pipeline on a readable input, and
      one on a result of this process, hand out a result; a result of this process can be
      given back. */
  lemma CalmStepSucceeds(w: World, s: Shard, capacity: nat, c: Command)
    requires Calm(w) && capacity >= 1 && Covered(s, capacity)
    ensures var t := Step(w, s, capacity, c);
            match c {
              case RunOpt(_, inputSignature, _, _, outputSignature, materialize) =>
                inputSignature.Some? && (materialize ==> outputSignature.Some?) ==> |t.results| == |s.results| + 1
              case RunFromResult(i, _, _, outputSignature, materialize) =>
                IsLive(s, i) && (materialize ==> outputSignature.Some?) ==> |t.results| == |s.results| + 1
              case MaterializeResult(i, output, outputSignature) =>
                IsLive(s, i) && outputSignature.Some? ==> Current(t, output, s.results[i].handle)
              case ReleaseResult(i) => IsLive(s, i) ==> t.results == s.results[i := s.results[i].(owned := false)]
              case ComparePaths => true
            }
  {
    hide LoadInput, ApplyTo, Remember, Request, Calm, Sound;
    match c
    case RunOpt(input, inputSignature, pipeline, output, outputSignature, materialize) =>
      if inputSignature.Some? && (materialize ==> outputSignature.Some?) {
        CalmLoad(w, s, capacity, input, inputSignature.value);
        var (t, parent) := LoadInput(w, s, capacity, input, inputSignature);
        CalmApply(w, t, capacity, parent.value, pipeline, output, outputSignature, materialize);
      }
    case RunFromResult(i, pipeline, output, outputSignature, materialize) =>
      if IsLive(s, i) && (materialize ==> outputSignature.Some?) {
        LiveBegins(w, s, capacity, i);
        CalmApply(w, Begin(w, s), capacity, s.results[i].handle, pipeline, output, outputSignature, materialize);
      }
    case MaterializeResult(i, output, outputSignature) =>
      if IsLive(s, i) && outputSignature.Some? {
        LiveBegins(w, s, capacity, i);
        LiveMaterializes(w, Begin(w, s), capacity, s.results[i].handle, output, outputSignature.value);
      }
    case ReleaseResult(i) =>
      if IsLive(s, i) {
        LiveBegins(w, s, capacity, i);
        LiveReleases(w, Begin(w, s), s.results[i].handle);
      }
    case ComparePaths =>
  }

  /** An owned result of the process that is running. */
  predicate IsLive(s: Shard, i: nat) {
    s.running && i < |s.results| && s.results[i].owned && s.results[i].generation == s.generation
  }

  lemma LiveBegins(w: World, s: Shard, capacity: nat, i: nat)
    requires Calm(w) && Covered(s, capacity) && IsLive(s, i)
    ensures Begin(w, s) == s.(clock := s.clock + 1) && s.results[i].handle in s.refs
  {
    hide Sound;
    OwnedIsKnown(s, capacity, i);
  }

  lemma LiveMaterializes(w: World, s: Shard, capacity: nat, h: Handle, output: string, signature: Signature)
    requires Calm(w) && capacity >= 1 && s.running && h in s.refs
    ensures var (t, reply) := Request(w, s, Materialize(h, output));
            reply.Answer? && Current(Remember(w, t, capacity, output, signature, h, false).0, output, h)
  {
    hide Remember;
    var (t, reply) := Request(w, s, Materialize(h, output));
    assert t.refs == s.refs && Begin(w, t).refs == t.refs;
    CalmRemember(w, t, capacity, output, signature, h, false);
  }

  lemma LiveReleases(w: World, s: Shard, h: Handle)
    requires Calm(w) && s.running && h in s.refs
    ensures Request(w, s, Release(h)).1.Answer? && Request(w, s, Release(h)).0.results == s.results
  {
  }

  /** So it is after every calm run. */
  lemma CalmRunIsCovered(w: World, capacity: nat, commands: seq<Command>)
    requires Calm(w) && capacity >= 1
    ensures Covered(Run(w, Unstarted, capacity, commands), capacity)
  {
    EveryRunIsSound(w, capacity, commands);
  }
}

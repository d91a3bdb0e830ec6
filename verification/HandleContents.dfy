/** What cached paths and results stand for. A handle is the hash of its module's text, so
    it names one module for ever; what remains is whether the right path gets it. */
module HandleContents {
  import opened Basics
  import opened HandleModel
  import opened HandleConservation

  /** What a file with a signature is read as, and what a pipeline makes of a module. */
  datatype Tools = Tools(parse: (string, Signature) -> Handle, apply: (Handle, string) -> Handle)

  /** The worker loads what the file holds and applies what it is asked to apply. */
  ghost predicate Honest(w: World, tools: Tools) {
    && (forall n: nat, path, file :: w(n).produced(Load(path, file)) == tools.parse(path, file))
    && (forall n: nat, parent, pipeline, target ::
          w(n).produced(Apply(parent, pipeline, target)) == tools.apply(parent, pipeline))
  }

  /** The path is cached under this signature, with this handle. */
  ghost predicate Cached(cache: seq<Entry>, path: string, signature: Signature, h: Handle) {
    exists e :: e in cache && e.path == path && e.signature == signature && e.handle == h
  }

  /** What an input may be opened as: what the file holds, or what is cached for it
      under the signature it has. */
  ghost predicate Opens(tools: Tools, cache: seq<Entry>, path: string, signature: Option<Signature>, h: Handle) {
    signature.Some? && (h == tools.parse(path, signature.value) || Cached(cache, path, signature.value, h))
  }

  /** The module the command is about. */
  ghost predicate Computes(tools: Tools, s: Shard, c: Command, h: Handle) {
    match c
    case RunOpt(input, inputSignature, pipeline, _, _, _) =>
      exists p :: Opens(tools, s.cache, input, inputSignature, p) && h == tools.apply(p, pipeline)
    case RunFromResult(i, pipeline, _, _, _) =>
      i < |s.results| && s.results[i].owned && h == tools.apply(s.results[i].handle, pipeline)
    case MaterializeResult(i, _, _) => i < |s.results| && h == s.results[i].handle
    case _ => false
  }

  predicate Materializes(c: Command) {
    c.MaterializeResult? || ((c.RunOpt? || c.RunFromResult?) && c.materialize)
  }

  /** The command makes `h` the module of the path: it read the path, or wrote to it. */
  ghost predicate Names(tools: Tools, s: Shard, t: Shard, c: Command, path: string, signature: Signature, h: Handle) {
    || (c.RunOpt? && path == c.input && c.inputSignature == Some(signature) && h == tools.parse(path, signature))
    || (Materializes(c) && path == c.output && c.outputSignature == Some(signature) && Computes(tools, s, c, h)
        && (path, h) in t.written)
  }

  /** The results are those from before, apart from claims given up, and perhaps a new one. */
  ghost predicate Extends(before: seq<RunResult>, after: seq<RunResult>) {
    && |before| <= |after| <= |before| + 1
    && forall i :: 0 <= i < |before| ==>
         after[i].handle == before[i].handle && after[i].generation == before[i].generation
  }

  /** What a command has done from `s` to `t`, said without the code that does it. */
  ghost predicate Means(tools: Tools, s: Shard, t: Shard, c: Command) {
    // every cached path keeps its module, or has just been given the right one
    && (forall e :: e in t.cache ==>
          || Cached(s.cache, e.path, e.signature, e.handle)
          || Names(tools, s, t, c, e.path, e.signature, e.handle))
    // only the output is written to, and only what the command is about
    && s.written <= t.written
    && (forall x :: x in t.written && x !in s.written ==>
          Materializes(c) && x.0 == c.output && Computes(tools, s, c, x.1))
    // a result handed out is that module; written to the output, it is what the output is cached as
    && Extends(s.results, t.results)
    && (|t.results| > |s.results| ==>
          && (c.RunOpt? || c.RunFromResult?) && Computes(tools, s, c, t.results[|s.results|].handle)
          && t.results[|s.results|].generation == t.generation && t.results[|s.results|].owned == !c.materialize
          && (c.materialize ==>
                && c.outputSignature.Some? && (c.output, t.results[|s.results|].handle) in t.written
                && MostRecent(t, c.output, c.outputSignature.value, t.results[|s.results|].handle)))
  }

  // ------------------------------------------------------------- one step

  lemma {:induction false} ReleaseAllAside(w: World, s: Shard, dropped: seq<Entry>)
    ensures var t := ReleaseAll(w, s, dropped).0; t.results == s.results && t.written == s.written
    decreases |dropped|
  {
    hide Request, Forgo;
    if dropped != [] {
      if dropped[0].generation == s.generation {
        var (t, reply) := Request(w, s, Release(dropped[0].handle));
        RequestAside(w, s, Release(dropped[0].handle));
        ForgoFacts(t, dropped[0].handle, reply);
        ForgoAside(t, dropped[0].handle, reply);
        if !reply.Raised? { ReleaseAllAside(w, Forgo(t, dropped[0].handle, reply), dropped[1..]); }
      } else {
        ReleaseAllAside(w, s, dropped[1..]);
      }
    }
  }

  /** Of other paths the least recently used are dropped, and only when the cache is full. */
  ghost predicate DropsOldest(before: seq<Entry>, after: seq<Entry>, path: string, capacity: nat) {
    var others := Without(before, Find(before, path));
    exists k :: DropsFirst(others, after, path, capacity, k)
  }

  ghost predicate DropsFirst(others: seq<Entry>, after: seq<Entry>, path: string, capacity: nat, k: int) {
    && 0 <= k <= |others| && |after| == |others| - k + 1
    && after[..|after| - 1] == others[k..] && after[|after| - 1].path == path
    && (k > 0 ==> |after| == capacity)
  }

  lemma RememberNames(w: World, s: Shard, capacity: nat, path: string, signature: Signature, h: Handle, owned: bool)
    requires capacity >= 1
    ensures var (t, ok) := Remember(w, s, capacity, path, signature, h, owned);
            && t.results == s.results && t.written == s.written
            && (forall e :: e in t.cache ==>
                  e in s.cache || (e.path == path && e.signature == signature && e.handle == h))
            && (ok ==> MostRecent(t, path, signature, h) && DropsOldest(s.cache, t.cache, path, capacity))
  {
    hide Remember, MostRecent, DropsOldest, Known;
    RememberedIsMostRecent(w, s, capacity, path, signature, h, owned);
    if Known(s, path, h) {
      KnownNames(w, s, capacity, path, signature, h, owned);
    } else {
      UnknownNames(w, s, capacity, path, signature, h, owned);
    }
  }

  lemma KnownNames(w: World, s: Shard, capacity: nat, path: string, signature: Signature, h: Handle, owned: bool)
    requires Known(s, path, h)
    ensures var (t, ok) := Remember(w, s, capacity, path, signature, h, owned);
            && t.results == s.results && t.written == s.written
            && (forall e :: e in t.cache ==>
                  e in s.cache || (e.path == path && e.signature == signature && e.handle == h))
            && (ok ==> DropsOldest(s.cache, t.cache, path, capacity))
  {
    hide Request, ReleaseAll, Find, Forgo;
    var at := Find(s.cache, path);
    RequestAside(w, s, Release(h));
    var (t, reply) := if owned then Request(w, s, Release(h)) else (s, Answer(h));
    ForgoFacts(t, h, reply);
    ForgoAside(t, h, reply);
    var u := Remember(w, s, capacity, path, signature, h, owned).0;
    if !reply.Raised? {
      assert DropsFirst(Without(s.cache, at), u.cache, path, capacity, 0);
    }
  }

  lemma UnknownNames(w: World, s: Shard, capacity: nat, path: string, signature: Signature, h: Handle, owned: bool)
    requires !Known(s, path, h) && capacity >= 1
    ensures var (t, ok) := Remember(w, s, capacity, path, signature, h, owned);
            && t.results == s.results && t.written == s.written
            && (forall e :: e in t.cache ==>
                  e in s.cache || (e.path == path && e.signature == signature && e.handle == h))
            && (ok ==> DropsOldest(s.cache, t.cache, path, capacity))
  {
    hide Request, ReleaseAll, Find, Known, Without, DropsFirst, DropsOldest;
    var at := Find(s.cache, path);
    RequestAside(w, s, Retain(h));
    var (t, reply) := if owned then (s, Answer(h)) else Request(w, s, Retain(h));
    if reply.Answer? {
      var entry := Entry(path, signature, t.generation, h);
      var longer := Without(s.cache, at) + [entry];
      var excess := Excess(|longer|, capacity);
      var u := t.(cache := longer[excess..]);
      ReleaseAllKeepsCache(w, u, Picked(s.cache, at) + longer[..excess]);
      ReleaseAllAside(w, u, Picked(s.cache, at) + longer[..excess]);
      EnteredNames(s.cache, path, entry, capacity);
    }
  }

  /** Entering a path drops the oldest of the others, as far as there is no room. */
  lemma EnteredNames(cache: seq<Entry>, path: string, entry: Entry, capacity: nat)
    requires entry.path == path && capacity >= 1
    ensures var longer := Without(cache, Find(cache, path)) + [entry];
            var after := longer[Excess(|longer|, capacity)..];
            && (forall e :: e in after ==> e in cache || e == entry)
            && DropsOldest(cache, after, path, capacity)
  {
    hide Find;
    var others := Without(cache, Find(cache, path));
    var longer := others + [entry];
    var excess := Excess(|longer|, capacity);
    assert DropsFirst(others, longer[excess..], path, capacity, excess);
  }

  lemma RequestAside(w: World, s: Shard, op: Op)
    requires op.Release? || op.Retain? || op.Compare?
    ensures var t := Request(w, s, op).0; t.cache == s.cache && t.results == s.results && t.written == s.written
  {
  }

  lemma HonestAnswers(w: World, tools: Tools, s: Shard, op: Op)
    requires Honest(w, tools)
    ensures var (t, reply) := Request(w, s, op);
            && t.cache == s.cache && t.results == s.results && t.written == Written(s.written, op, reply)
            && (reply.Answer? ==>
                  match op {
                    case Load(path, file) => reply.handle == tools.parse(path, file)
                    case Apply(parent, pipeline, _) => reply.handle == tools.apply(parent, pipeline)
                    case Materialize(h, _) => reply.handle == h
                    case _ => true
                  })
  {
  }

  lemma LoadNames(w: World, tools: Tools, s: Shard, capacity: nat, path: string, signature: Option<Signature>)
    requires Honest(w, tools) && capacity >= 1
    ensures var (t, h) := LoadInput(w, s, capacity, path, signature);
            && t.results == s.results && t.written == s.written
            && (forall e :: e in t.cache ==>
                  || e in s.cache
                  || (e.path == path && Some(e.signature) == signature && e.handle == tools.parse(path, e.signature)))
            && (h.Some? ==> Opens(tools, s.cache, path, signature, h.value)
                            && DropsOldest(s.cache, t.cache, path, capacity))
  {
    hide Request, Remember, Find, Honest, DropsOldest, MostRecent;
    var t := Begin(w, s);
    if t.running && signature.Some? {
      var at := Find(t.cache, path);
      var u := t.(cache := Without(t.cache, at) + Picked(t.cache, at));
      FoundPath(t.cache, path);
      TouchedOnly(t.cache, path, capacity);
      var op := Load(path, signature.value);
      HonestAnswers(w, tools, u, op);
      var (v, reply) := Request(w, u, op);
      if reply.Answer? {
        RememberNames(w, v, capacity, path, signature.value, reply.handle, true);
        TouchThenDrop(t.cache, Remember(w, v, capacity, path, signature.value, reply.handle, true).0.cache, path,
                      capacity);
      }
    }
  }

  /** Moving an entry to the end changes nothing but the order. */
  lemma TouchedOnly(cache: seq<Entry>, path: string, capacity: nat)
    ensures var at := Find(cache, path);
            var touched := Without(cache, at) + Picked(cache, at);
            && (forall e :: e in touched ==> e in cache)
            && (at.Some? ==> DropsOldest(cache, touched, path, capacity))
  {
    hide Find;
    var at := Find(cache, path);
    if at.Some? {
      assert DropsFirst(Without(cache, at), Without(cache, at) + Picked(cache, at), path, capacity, 0);
    }
  }

  lemma TouchThenDrop(cache: seq<Entry>, after: seq<Entry>, path: string, capacity: nat)
    ensures var at := Find(cache, path);
            DropsOldest(Without(cache, at) + Picked(cache, at), after, path, capacity) ==>
              DropsOldest(cache, after, path, capacity)
  {
    hide DropsFirst;
    var at := Find(cache, path);
    var touched := Without(cache, at) + Picked(cache, at);
    if at.Some? {
      assert Find(touched, path) == Some(|touched| - 1);
      assert Without(touched, Find(touched, path)) == Without(cache, at);
    } else {
      assert touched == cache;
    }
  }

  lemma ApplyNames(w: World, tools: Tools, s: Shard, capacity: nat, parent: Handle, pipeline: string, output: string,
                   signature: Option<Signature>, materialize: bool)
    requires Honest(w, tools) && capacity >= 1
    ensures var t := ApplyTo(w, s, capacity, parent, pipeline, output, signature, materialize);
            var h := tools.apply(parent, pipeline);
            && (t.written == s.written || (materialize && t.written == s.written + {(output, h)}))
            && (forall e :: e in t.cache ==>
                  || e in s.cache
                  || (materialize && e.path == output && Some(e.signature) == signature && e.handle == h
                      && (output, h) in t.written))
            && (|| t.results == s.results
                || (&& t.results == s.results + [RunResult(h, t.generation, !materialize)]
                    && (materialize ==> signature.Some? && (output, h) in t.written
                                        && MostRecent(t, output, signature.value, h))))
  {
    hide Request, Remember, Honest, MostRecent, Forgo, DropsOldest;
    var op := Apply(parent, pipeline, if materialize then Some(output) else None);
    HonestAnswers(w, tools, s, op);
    var (t, reply) := Request(w, s, op);
    if reply.Answer? && materialize {
      var h := reply.handle;
      if signature.Some? {
        RememberNames(w, t, capacity, output, signature.value, h, true);
      }
      var (u, ok) := if signature.None? then (t, false) else Remember(w, t, capacity, output, signature.value, h, true);
      RequestAside(w, u, Release(h));
      ForgoFacts(Request(w, u, Release(h)).0, h, Request(w, u, Release(h)).1);
      ForgoAside(Request(w, u, Release(h)).0, h, Request(w, u, Release(h)).1);
      if ok {
        MostRecentAside(u, u.results + [RunResult(h, u.generation, false)], output, signature.value, h);
      }
    }
  }

  lemma ForgoAside(s: Shard, h: Handle, reply: Reply)
    ensures Forgo(s, h, reply).written == s.written
  {
  }

  lemma MostRecentAside(s: Shard, results: seq<RunResult>, path: string, signature: Signature, h: Handle)
    ensures MostRecent(s.(results := results), path, signature, h) <==> MostRecent(s, path, signature, h)
  {
  }

  lemma RunOptMeans(w: World, tools: Tools, s: Shard, capacity: nat, c: Command)
    requires Honest(w, tools) && capacity >= 1 && c.RunOpt?
    ensures Means(tools, s, Step(w, s, capacity, c), c)
  {
    hide Honest, LoadInput, ApplyTo, MostRecent, DropsOldest, Opens, Cached, Computes;
    LoadNames(w, tools, s, capacity, c.input, c.inputSignature);
    var (t, parent) := LoadInput(w, s, capacity, c.input, c.inputSignature);
    OldIsCached(s.cache);
    if parent.Some? {
      ApplyNames(w, tools, t, capacity, parent.value, c.pipeline, c.output, c.outputSignature, c.materialize);
      OpenedComputes(tools, s, c, parent.value);
    }
  }

  lemma OldIsCached(cache: seq<Entry>)
    ensures forall e :: e in cache ==> Cached(cache, e.path, e.signature, e.handle)
  {
  }

  lemma OpenedComputes(tools: Tools, s: Shard, c: Command, p: Handle)
    requires c.RunOpt? && Opens(tools, s.cache, c.input, c.inputSignature, p)
    ensures Computes(tools, s, c, tools.apply(p, c.pipeline))
  {
  }

  /** What `ApplyNames` says, read as the meaning of a command. */
  lemma AppliedMeans(tools: Tools, s: Shard, t: Shard, c: Command, h: Handle)
    requires c.RunFromResult? && Computes(tools, s, c, h)
    requires t.written == s.written || (c.materialize && t.written == s.written + {(c.output, h)})
    requires forall e :: e in t.cache ==>
               || e in s.cache
               || (c.materialize && e.path == c.output && Some(e.signature) == c.outputSignature && e.handle == h
                   && (c.output, h) in t.written)
    requires || t.results == s.results
             || (&& t.results == s.results + [RunResult(h, t.generation, !c.materialize)]
                 && (c.materialize ==> c.outputSignature.Some? && (c.output, h) in t.written
                                       && MostRecent(t, c.output, c.outputSignature.value, h)))
    ensures Means(tools, s, t, c)
  {
    hide MostRecent, Cached, Computes;
    OldIsCached(s.cache);
  }

  lemma RunFromResultMeans(w: World, tools: Tools, s: Shard, capacity: nat, c: Command)
    requires Honest(w, tools) && capacity >= 1 && c.RunFromResult?
    ensures Means(tools, s, Step(w, s, capacity, c), c)
  {
    hide Honest, ApplyTo, MostRecent, DropsOldest, Cached, Begin, Means;
    var i, t := c.parent, Begin(w, s);
    BeginAside(w, s);
    if i < |s.results| && s.results[i].owned && t.running && s.results[i].generation == t.generation {
      ApplyNames(w, tools, t, capacity, s.results[i].handle, c.pipeline, c.output, c.outputSignature, c.materialize);
      AppliedMeans(tools, s, Step(w, s, capacity, c), c, tools.apply(s.results[i].handle, c.pipeline));
    } else {
      assert Disowned(t, i).results == Disowned(s, i).results;
      NothingNew(tools, s, Step(w, s, capacity, c), c);
    }
  }

  lemma MaterializeResultMeans(w: World, tools: Tools, s: Shard, capacity: nat, c: Command)
    requires Honest(w, tools) && capacity >= 1 && c.MaterializeResult?
    ensures Means(tools, s, Step(w, s, capacity, c), c)
  {
    hide Honest, Request, Remember, MostRecent, DropsOldest, Cached, Begin;
    OldIsCached(s.cache);
    BeginAside(w, s);
    var i := c.result;
    if i < |s.results| {
      var op := Materialize(s.results[i].handle, c.output);
      HonestAnswers(w, tools, Begin(w, s), op);
      if c.outputSignature.Some? {
        var u := Request(w, Begin(w, s), op).0;
        RememberNames(w, u, capacity, c.output, c.outputSignature.value, s.results[i].handle, false);
      }
    }
  }

  lemma BeginAside(w: World, s: Shard)
    ensures var t := Begin(w, s); t.cache == s.cache && t.results == s.results && t.written == s.written
  {
  }

  /** Giving up a claim, or doing nothing, is no news about paths or results. */
  lemma NothingNew(tools: Tools, s: Shard, t: Shard, c: Command)
    requires t.cache == s.cache && t.written == s.written
    requires t.results == s.results || exists i: nat :: t.results == Disowned(s, i).results
    ensures Means(tools, s, t, c)
  {
    hide Cached, MostRecent;
    OldIsCached(s.cache);
  }

  lemma OtherMeans(w: World, tools: Tools, s: Shard, capacity: nat, c: Command)
    requires c.ReleaseResult? || c.ComparePaths?
    ensures Means(tools, s, Step(w, s, capacity, c), c)
  {
    hide Means, Request, Begin;
    BeginAside(w, s);
    RequestAside(w, s, Compare);
    if c.ReleaseResult? && c.result < |s.results| {
      RequestAside(w, Begin(w, s), Release(s.results[c.result].handle));
      assert Disowned(s, c.result).results == s.results[c.result := s.results[c.result].(owned := false)];
    }
    NothingNew(tools, s, Step(w, s, capacity, c), c);
  }

  /** Every operation means what it should. */
  lemma StepMeans(w: World, tools: Tools, s: Shard, capacity: nat, c: Command)
    requires Honest(w, tools) && capacity >= 1
    ensures Means(tools, s, Step(w, s, capacity, c), c)
  {
    hide Honest, Step, Means;
    match c
    case RunOpt(_, _, _, _, _, _) => RunOptMeans(w, tools, s, capacity, c);
    case RunFromResult(_, _, _, _, _) => RunFromResultMeans(w, tools, s, capacity, c);
    case MaterializeResult(_, _, _) => MaterializeResultMeans(w, tools, s, capacity, c);
    case ReleaseResult(_) => OtherMeans(w, tools, s, capacity, c);
    case ComparePaths => OtherMeans(w, tools, s, capacity, c);
  }

  // ------------------------------------------------------------- whole runs

  /** Some command of the run made `h` the module of the path. */
  ghost predicate Named(tools: Tools, w: World, capacity: nat, commands: seq<Command>, path: string,
                        signature: Signature, h: Handle)
    decreases |commands|
  {
    && commands != []
    && var init, c := commands[..|commands| - 1], commands[|commands| - 1];
       || Named(tools, w, capacity, init, path, signature, h)
       || Names(tools, Run(w, Unstarted, capacity, init), Run(w, Unstarted, capacity, commands), c, path, signature, h)
  }

  /** Some command of the run computed `h`, from the results and cached paths it found. */
  ghost predicate Computed(tools: Tools, w: World, capacity: nat, commands: seq<Command>, h: Handle)
    decreases |commands|
  {
    && commands != []
    && var init, c := commands[..|commands| - 1], commands[|commands| - 1];
       Computed(tools, w, capacity, init, h) || Computes(tools, Run(w, Unstarted, capacity, init), c, h)
  }

  /** Over every run: what a path is cached as under a signature was read from it, or
      computed and written to it, when it had this signature; every result was computed
      by a command of the run, and nothing else was ever written. */
  lemma {:induction false} EveryEntryIsNamed(tools: Tools, w: World, capacity: nat, commands: seq<Command>)
    requires Honest(w, tools) && capacity >= 1
    ensures var s := Run(w, Unstarted, capacity, commands);
            && (forall e :: e in s.cache ==> Named(tools, w, capacity, commands, e.path, e.signature, e.handle))
            && (forall r :: r in s.results ==> Computed(tools, w, capacity, commands, r.handle))
            && (forall x :: x in s.written ==> Computed(tools, w, capacity, commands, x.1))
    decreases |commands|
  {
    hide Honest, Step, Names, Computes, MostRecent;
    if commands != [] {
      var init, c := commands[..|commands| - 1], commands[|commands| - 1];
      var s, t := Run(w, Unstarted, capacity, init), Run(w, Unstarted, capacity, commands);
      EveryEntryIsNamed(tools, w, capacity, init);
      StepMeans(w, tools, s, capacity, c);
      forall r | r in t.results ensures Computed(tools, w, capacity, commands, r.handle) {
        var i :| 0 <= i < |t.results| && t.results[i] == r;
        if i < |s.results| { assert s.results[i] in s.results; }
      }
    }
  }

  /** Whatever the run names is what a file with this signature is read as: a module
      that was written reads back as itself, under the signature it then has. */
  ghost predicate ReadsBack(tools: Tools, w: World, capacity: nat, commands: seq<Command>)
    decreases |commands|
  {
    commands == [] ||
    var init, c := commands[..|commands| - 1], commands[|commands| - 1];
    && ReadsBack(tools, w, capacity, init)
    && forall path, signature, h ::
         Names(tools, Run(w, Unstarted, capacity, init), Run(w, Unstarted, capacity, commands), c, path, signature, h)
         ==> h == tools.parse(path, signature)
  }

  lemma {:induction false} NamedReadsBack(tools: Tools, w: World, capacity: nat, commands: seq<Command>, path: string,
                                          signature: Signature, h: Handle)
    requires ReadsBack(tools, w, capacity, commands) && Named(tools, w, capacity, commands, path, signature, h)
    ensures h == tools.parse(path, signature)
    decreases |commands|
  {
    hide Names;
    var init := commands[..|commands| - 1];
    if Named(tools, w, capacity, init, path, signature, h) {
      NamedReadsBack(tools, w, capacity, init, path, signature, h);
    }
  }

  /** Then the cache is invisible. After any run, whatever died, was refused or evicted
      in it, a pipeline that is run on an input hands out what a fresh load of the input
      and the pipeline give. */
  lemma CacheIsInvisible(tools: Tools, w: World, capacity: nat, commands: seq<Command>, c: Command)
    requires Honest(w, tools) && capacity >= 1 && ReadsBack(tools, w, capacity, commands) && c.RunOpt?
    ensures var s := Run(w, Unstarted, capacity, commands);
            var t := Step(w, s, capacity, c);
            && (forall e :: e in s.cache ==> e.handle == tools.parse(e.path, e.signature))
            && (|t.results| > |s.results| ==>
                  && c.inputSignature.Some?
                  && t.results[|s.results|].handle ==
                     tools.apply(tools.parse(c.input, c.inputSignature.value), c.pipeline))
  {
    hide Honest, Step, MostRecent, Names;
    var s := Run(w, Unstarted, capacity, commands);
    EveryEntryIsNamed(tools, w, capacity, commands);
    forall e | e in s.cache ensures e.handle == tools.parse(e.path, e.signature) {
      NamedReadsBack(tools, w, capacity, commands, e.path, e.signature, e.handle);
    }
    StepMeans(w, tools, s, capacity, c);
  }
}

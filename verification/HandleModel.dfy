/** Who owns which module reference. One worker process keeps a reference count
    per module handle; the Python side keeps an LRU cache from paths to handles
    and hands results out, some of which own a reference. Processes die, and
    everything a dead process held is gone.

    The operations of `WorkerOptBackend` on one worker are functions of its state
    here, so that their laws can be stated for every run; the class `WorkerShard`
    performs them step by step. */
module HandleModel {
  import opened Basics

  type Handle = string
  type Signature = string

  /** A request, as the worker sees it. The signature in a load is not sent: it stands
      for what the file holds. */
  datatype Op =
    | Load(path: string, file: Signature)
    | Apply(parent: Handle, pipeline: string, target: Option<string>)
    | Materialize(module_: Handle, to: string)
    | Retain(kept: Handle) | Release(dropped: Handle) | Compare

  /** What the outside world does to one exchange with the worker. `dies`: the
      process was gone before it; `startFails`: no new one could be started;
      `lost`: the answer timed out, was malformed, or the process crashed on it;
      `refused`: the worker reports an error of its own; `produced`: the handle
      of the module a successful load or apply ends in. */
  datatype Fate = Fate(dies: bool, startFails: bool, lost: bool, refused: bool, produced: Op -> Handle)

  datatype Entry = Entry(path: string, signature: Signature, generation: nat, handle: Handle)

  datatype RunResult = RunResult(handle: Handle, generation: nat, owned: bool)

  /** `refs` belongs to the process, the rest to the Python side. `clock` counts
      exchanges. `written` is a history variable, the modules that processes have
      written to paths. `uncovered` is a history variable about this generation: a handle
      enters it when a cache entry is stamped although only an older process knew the
      handle, and leaves it when a reference is given up that the process refuses to
      take back. */
  datatype Shard = Shard(
    generation: nat, running: bool, refs: map<Handle, nat>,
    cache: seq<Entry>, results: seq<RunResult>, clock: nat, uncovered: multiset<Handle>,
    written: set<(string, Handle)>)

  type World = nat -> Fate

  // ------------------------------------------------------------ the process

  datatype Reply = Raised | Refused | Answer(handle: Handle)

  /** `WorkerProcess.start`: a dead process is replaced, and the generation counts up. */
  function Begin(w: World, s: Shard): Shard {
    var f := w(s.clock);
    var t := s.(clock := s.clock + 1);
    if s.running && !f.dies then t
    else if f.startFails then t.(running := false)
    else t.(running := true, generation := s.generation + 1, refs := map[], uncovered := multiset{})
  }

  function Intern(refs: map<Handle, nat>, h: Handle): map<Handle, nat> {
    refs[h := if h in refs then refs[h] + 1 else 1]
  }

  function Drop(refs: map<Handle, nat>, h: Handle): map<Handle, nat>
    requires h in refs
  {
    if refs[h] > 1 then refs[h := refs[h] - 1] else refs - {h}
  }

  /** What the worker process does with a request it receives. */
  function Serve(refs: map<Handle, nat>, op: Op, f: Fate): (map<Handle, nat>, Reply) {
    match op
    case Load(_, _) =>
      if f.refused then (refs, Refused) else (Intern(refs, f.produced(op)), Answer(f.produced(op)))
    case Apply(p, _, _) =>
      if p !in refs || f.refused then (refs, Refused) else (Intern(refs, f.produced(op)), Answer(f.produced(op)))
    case Materialize(h, _) => if h !in refs || f.refused then (refs, Refused) else (refs, Answer(h))
    case Retain(h) => if h !in refs then (refs, Refused) else (Intern(refs, h), Answer(h))
    case Release(h) => if h !in refs then (refs, Refused) else (Drop(refs, h), Answer(h))
    case Compare => (refs, if f.refused then Refused else Answer(""))
  }

  /** What is written once the request is answered. */
  function Written(written: set<(string, Handle)>, op: Op, reply: Reply): set<(string, Handle)> {
    if !reply.Answer? then written
    else
      match op
      case Apply(_, _, Some(path)) => written + {(path, reply.handle)}
      case Materialize(h, path) => written + {(path, h)}
      case _ => written
  }

  /** `WorkerProcess.request`: start if need be; whatever goes wrong stops the process. */
  function Request(w: World, s: Shard, op: Op): (Shard, Reply) {
    var f := w(s.clock);
    var t := Begin(w, s);
    if !t.running then (t, Raised)
    else if f.lost then (t.(running := false), Raised)
    else
      var (refs, reply) := Serve(t.refs, op, f);
      (t.(refs := refs, written := Written(t.written, op, reply)), reply)
  }

  /** A reference is given up, whatever the process answered to its release. */
  function Forgo(s: Shard, h: Handle, reply: Reply): Shard {
    if reply.Refused? then s.(uncovered := s.uncovered - multiset{h}) else s
  }

  // -------------------------------------------------------------- the cache

  function Find(cache: seq<Entry>, path: string): (at: Option<nat>)
    ensures at.Some? ==> at.value < |cache| && cache[at.value].path == path
    ensures at.None? ==> forall e :: e in cache ==> e.path != path
  {
    if cache == [] then None
    else if cache[|cache| - 1].path == path then Some(|cache| - 1)
    else Find(cache[..|cache| - 1], path)
  }

  function Without<T>(s: seq<T>, at: Option<nat>): seq<T>
    requires at.Some? ==> at.value < |s|
  {
    match at
    case None => s
    case Some(i) => s[..i] + s[i + 1..]
  }

  function Picked<T>(s: seq<T>, at: Option<nat>): seq<T>
    requires at.Some? ==> at.value < |s|
  {
    match at
    case None => []
    case Some(i) => [s[i]]
  }

  function Excess(size: nat, capacity: nat): nat {
    if size > capacity then size - capacity else 0
  }

  /** Give back the references of dropped entries, as far as they are of this generation. */
  function ReleaseAll(w: World, s: Shard, dropped: seq<Entry>): (Shard, bool)
    decreases |dropped|
  {
    if dropped == [] then (s, true)
    else if dropped[0].generation == s.generation then
      var (t, reply) := Request(w, s, Release(dropped[0].handle));
      if reply.Raised? then (t, false) else ReleaseAll(w, Forgo(t, dropped[0].handle, reply), dropped[1..])
    else ReleaseAll(w, s, dropped[1..])
  }

  /** The entry of `path` is of this generation and names this very handle. */
  predicate Known(s: Shard, path: string, h: Handle) {
    var at := Find(s.cache, path);
    at.Some? && s.cache[at.value].generation == s.generation && s.cache[at.value].handle == h
  }

  /** The entry is put at the end; `late` says that the process is a new one by now. */
  function Stamped(s: Shard, at: Option<nat>, entry: Entry, late: bool): Shard
    requires at.Some? ==> at.value < |s.cache|
  {
    s.(cache := Without(s.cache, at) + [entry],
       uncovered := if late then s.uncovered + multiset{entry.handle} else s.uncovered)
  }

  /** `_remember_signature`; the flag is false when it raises. */
  function Remember(
    w: World, s: Shard, capacity: nat, path: string, signature: Signature, h: Handle, owned: bool): (Shard, bool)
  {
    var at := Find(s.cache, path);
    if Known(s, path, h) then
      var (t, reply) := if owned then Request(w, s, Release(h)) else (s, Answer(h));
      if reply.Raised? then (t, false)
      else
        (Stamped(Forgo(t, h, reply), at, Entry(path, signature, t.generation, h), t.generation != s.generation), true)
    else
      var (t, reply) := if owned then (s, Answer(h)) else Request(w, s, Retain(h));
      if !reply.Answer? then (t, false)
      else
        var longer := Without(s.cache, at) + [Entry(path, signature, t.generation, h)];
        var excess := Excess(|longer|, capacity);
        ReleaseAll(w, t.(cache := longer[excess..]), Picked(s.cache, at) + longer[..excess])
  }

  /** `_load_input`; a missing signature is a file that cannot be read. */
  function LoadInput(
    w: World, s: Shard, capacity: nat, path: string, signature: Option<Signature>): (Shard, Option<Handle>)
  {
    var t := Begin(w, s);
    if !t.running || signature.None? then (t, None)
    else
      var at := Find(t.cache, path);
      var cached := Picked(t.cache, at);
      var u := t.(cache := Without(t.cache, at) + cached);
      if cached != [] && cached[0].signature == signature.value && cached[0].generation == t.generation
      then (u, Some(cached[0].handle))
      else
        var (v, reply) := Request(w, u, Load(path, signature.value));
        if !reply.Answer? then (v, None)
        else
          var (x, ok) := Remember(w, v, capacity, path, signature.value, reply.handle, true);
          (x, if ok then Some(reply.handle) else None)
  }

  /** `_remember_materialized_path`: when remembering fails the reference is given back. */
  function RememberMaterialized(
    w: World, s: Shard, capacity: nat, path: string, signature: Option<Signature>, h: Handle): (Shard, bool)
  {
    var (t, ok) := if signature.None? then (s, false) else Remember(w, s, capacity, path, signature.value, h, true);
    if ok then (t, true)
    else
      var (u, reply) := Request(w, t, Release(h));
      (Forgo(u, h, reply), false)
  }

  /** Apply a pipeline to a handle and hand out the result. */
  function ApplyTo(
    w: World, s: Shard, capacity: nat, parent: Handle, pipeline: string, output: string,
    signature: Option<Signature>, materialize: bool): Shard
  {
    var (t, reply) := Request(w, s, Apply(parent, pipeline, if materialize then Some(output) else None));
    if !reply.Answer? then t
    else
      var (u, ok) := if materialize then RememberMaterialized(w, t, capacity, output, signature, reply.handle)
        else (t, true);
      if ok then u.(results := u.results + [RunResult(reply.handle, u.generation, !materialize)]) else u
  }

  datatype Command =
    | RunOpt(input: string, inputSignature: Option<Signature>, pipeline: string,
             output: string, outputSignature: Option<Signature>, materialize: bool)
    | RunFromResult(parent: nat, pipeline: string,
                    output: string, outputSignature: Option<Signature>, materialize: bool)
    | MaterializeResult(result: nat, output: string, outputSignature: Option<Signature>)
    | ReleaseResult(result: nat)
    | ComparePaths

  /** One backend operation. Results are named by the order in which they were handed out. */
  function Step(w: World, s: Shard, capacity: nat, c: Command): Shard {
    match c
    case RunOpt(input, inputSignature, pipeline, output, outputSignature, materialize) =>
      var (t, parent) := LoadInput(w, s, capacity, input, inputSignature);
      if parent.None? then t
      else ApplyTo(w, t, capacity, parent.value, pipeline, output, outputSignature, materialize)
    case RunFromResult(i, pipeline, output, outputSignature, materialize) =>
      if i >= |s.results| || !s.results[i].owned then s
      else
        var t := Begin(w, s);
        if !t.running then t
        else if s.results[i].generation != t.generation then Disowned(t, i)
        else ApplyTo(w, t, capacity, s.results[i].handle, pipeline, output, outputSignature, materialize)
    case MaterializeResult(i, output, outputSignature) =>
      if i >= |s.results| then s
      else
        var t := Begin(w, s);
        if !t.running then t
        else if s.results[i].generation != t.generation then Disowned(t, i)
        else
          var (u, reply) := Request(w, t, Materialize(s.results[i].handle, output));
          if !reply.Answer? || outputSignature.None? then u
          else Remember(w, u, capacity, output, outputSignature.value, s.results[i].handle, false).0
    case ReleaseResult(i) =>
      if i >= |s.results| || !s.results[i].owned then s
      else
        var t := Begin(w, s);
        if !t.running then t
        else if s.results[i].generation != t.generation then Disowned(t, i)
        else
          var (u, reply) := Request(w, t, Release(s.results[i].handle));
          if reply.Answer? then Disowned(u, i) else u
    case ComparePaths => Request(w, s, Compare).0
  }

  function Disowned(s: Shard, i: nat): Shard {
    if i < |s.results| then s.(results := s.results[i := s.results[i].(owned := false)]) else s
  }

  function Run(w: World, s: Shard, capacity: nat, commands: seq<Command>): Shard {
    if commands == [] then s
    else Step(w, Run(w, s, capacity, commands[..|commands| - 1]), capacity, commands[|commands| - 1])
  }
}

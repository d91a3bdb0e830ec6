/** Conservation of module references: what the process counts is what the cache
    and the results stand for, over every run of the operations in `HandleModel`. */
module HandleConservation {
  import opened Basics
  import opened HandleModel

  // --------------------------------------------------------- who holds what

  function Held<T>(items: seq<T>, claim: T -> multiset<Handle>): multiset<Handle> {
    if items == [] then multiset{} else Held(items[..|items| - 1], claim) + claim(items[|items| - 1])
  }

  function EntryClaim(g: nat): Entry -> multiset<Handle> {
    (e: Entry) => if e.generation == g then multiset{e.handle} else multiset{}
  }

  function ResultClaim(g: nat): RunResult -> multiset<Handle> {
    (r: RunResult) => if r.generation == g && r.owned then multiset{r.handle} else multiset{}
  }

  /** The references that cache entries and owning results of this generation stand for. */
  function References(s: Shard): multiset<Handle> {
    Held(s.cache, EntryClaim(s.generation)) + Held(s.results, ResultClaim(s.generation))
  }

  function Count(refs: map<Handle, nat>, h: Handle): nat {
    if h in refs then refs[h] else 0
  }

  /** What the process counts, and what it does not cover, are exactly the references
      held, plus `extra` in transit. */
  ghost predicate Balanced(s: Shard, extra: multiset<Handle>) {
    && (forall h :: h in s.refs ==> s.refs[h] >= 1)
    && forall h :: Count(s.refs, h) + s.uncovered[h] == (References(s) + extra)[h]
  }

  /** Conservation as such. */
  ghost predicate Exact(s: Shard) {
    forall h :: Count(s.refs, h) == References(s)[h]
  }

  /** It holds exactly when nothing is uncovered. */
  lemma ExactWhenCovered(s: Shard)
    requires Balanced(s, multiset{})
    ensures Exact(s) <==> s.uncovered == multiset{}
    ensures forall h :: Count(s.refs, h) <= References(s)[h]
  {
    forall h ensures Count(s.refs, h) + s.uncovered[h] == References(s)[h] {
      assert (References(s) + multiset{})[h] == References(s)[h];
    }
  }

  ghost predicate Shape(s: Shard, capacity: nat) {
    && |s.cache| <= capacity
    && (forall i, j :: 0 <= i < j < |s.cache| ==> s.cache[i].path != s.cache[j].path)
    && (forall e :: e in s.cache ==> e.generation <= s.generation)
    && (forall r :: r in s.results ==> r.generation <= s.generation)
  }

  ghost predicate Sound(s: Shard, capacity: nat, extra: multiset<Handle>) {
    Shape(s, capacity) && (s.running ==> Balanced(s, extra))
  }

  lemma {:induction false} HeldConcat<T>(a: seq<T>, b: seq<T>, claim: T -> multiset<Handle>)
    ensures Held(a + b, claim) == Held(a, claim) + Held(b, claim)
  {
    if b == [] {
      assert a + b == a;
    } else {
      HeldConcat(a, b[..|b| - 1], claim);
      assert a + b == (a + b[..|b| - 1]) + [b[|b| - 1]];
    }
  }

  lemma HeldOne<T>(x: T, claim: T -> multiset<Handle>)
    ensures Held([x], claim) == claim(x)
  {
    assert [x][..0] == [];
  }

  lemma {:induction false} HeldNothing<T>(items: seq<T>, claim: T -> multiset<Handle>)
    requires forall x :: x in items ==> claim(x) == multiset{}
    ensures Held(items, claim) == multiset{}
  {
    if items != [] {
      HeldNothing(items[..|items| - 1], claim);
    }
  }

  lemma HeldWithout<T>(items: seq<T>, at: Option<nat>, claim: T -> multiset<Handle>)
    requires at.Some? ==> at.value < |items|
    ensures Held(Without(items, at), claim) + Held(Picked(items, at), claim) == Held(items, claim)
  {
    hide Held;
    if at.Some? {
      HeldAround(items[..at.value], items[at.value], items[at.value + 1..], claim);
      assert items == items[..at.value] + [items[at.value]] + items[at.value + 1..];
    } else {
      HeldNothing([], claim);
    }
  }

  lemma HeldAround<T>(a: seq<T>, x: T, b: seq<T>, claim: T -> multiset<Handle>)
    ensures Held(a + [x] + b, claim) == Held(a + b, claim) + Held([x], claim)
  {
    hide Held;
    HeldConcat(a, b, claim);
    HeldConcat(a, [x], claim);
    HeldConcat(a + [x], b, claim);
  }

  /** A new generation owes nothing to older entries and results. */
  lemma OlderHoldNothing(s: Shard, capacity: nat, g: nat)
    requires Shape(s, capacity) && g > s.generation
    ensures Held(s.cache, EntryClaim(g)) == multiset{} && Held(s.results, ResultClaim(g)) == multiset{}
  {
    HeldNothing(s.cache, EntryClaim(g));
    HeldNothing(s.results, ResultClaim(g));
  }

  // ---------------------------------------------------------- conservation

  function Needs(op: Op): multiset<Handle> {
    if op.Release? then multiset{op.dropped} else multiset{}
  }

  function Gains(op: Op, reply: Reply): multiset<Handle> {
    if reply.Answer? && (op.Load? || op.Apply? || op.Retain?) then multiset{reply.handle} else multiset{}
  }

  /** A release that is refused leaves its reference in transit. */
  function Unmet(op: Op, reply: Reply): multiset<Handle> {
    if reply.Refused? then Needs(op) else multiset{}
  }

  /** References in transit survive only as long as the process. */
  function Surviving(s: Shard, t: Shard, extra: multiset<Handle>): multiset<Handle> {
    if t.generation == s.generation then extra else multiset{}
  }

  /** What a request leaves alone, and when the process is gone. */
  ghost predicate Exchanged(s: Shard, t: Shard) {
    && t.cache == s.cache && t.results == s.results && t.generation >= s.generation
    && (t.generation == s.generation ==> t.uncovered <= s.uncovered && (t.running ==> s.running))
    && (t.generation != s.generation ==> t.uncovered == multiset{})
  }

  lemma BeginKeeps(w: World, s: Shard, capacity: nat, extra: multiset<Handle>)
    requires Sound(s, capacity, extra)
    ensures var t := Begin(w, s); Exchanged(s, t) && Sound(t, capacity, Surviving(s, t, extra))
    ensures var t := Begin(w, s); t.generation != s.generation ==> t.running && t.refs == map[]
    ensures var t := Begin(w, s); t.generation == s.generation ==> t.uncovered == s.uncovered
  {
    hide Held;
    var t := Begin(w, s);
    if t.generation != s.generation {
      OlderHoldNothing(s, capacity, t.generation);
    }
    assert References(s) == References(t) || t.generation != s.generation;
  }

  lemma ServeKeeps(refs: map<Handle, nat>, op: Op, f: Fate, uncovered: multiset<Handle>, held: multiset<Handle>)
    requires (forall h :: h in refs ==> refs[h] >= 1)
             && forall h :: Count(refs, h) + uncovered[h] == (held + Needs(op))[h]
    ensures var (refs', reply) := Serve(refs, op, f);
            && (forall h :: h in refs' ==> refs'[h] >= 1)
            && forall h :: Count(refs', h) + uncovered[h] == (held + Gains(op, reply) + Unmet(op, reply))[h]
    // a release is refused only for a handle the process does not know
    ensures op.Release? && Serve(refs, op, f).1.Refused? ==> uncovered[op.dropped] >= 1
  {
    if op.Release? {
      ReleaseServed(refs, op.dropped, f, uncovered, held);
    } else {
      OtherServed(refs, op, f);
      var (refs', reply) := Serve(refs, op, f);
      assert Needs(op) == Unmet(op, reply) == multiset{};
      forall h ensures Count(refs', h) + uncovered[h] == (held + Gains(op, reply) + Unmet(op, reply))[h] {
        assert Count(refs, h) + uncovered[h] == (held + Needs(op))[h];
      }
    }
  }

  lemma OtherServed(refs: map<Handle, nat>, op: Op, f: Fate)
    requires (forall h :: h in refs ==> refs[h] >= 1) && !op.Release?
    ensures var (refs', reply) := Serve(refs, op, f);
            && (forall h :: h in refs' ==> refs'[h] >= 1)
            && forall h :: Count(refs', h) == Count(refs, h) + Gains(op, reply)[h]
  {
  }

  lemma ReleaseServed(refs: map<Handle, nat>, dropped: Handle, f: Fate, uncovered: multiset<Handle>,
                      held: multiset<Handle>)
    requires (forall h :: h in refs ==> refs[h] >= 1)
    requires forall h :: Count(refs, h) + uncovered[h] == (held + multiset{dropped})[h]
    ensures var (refs', reply) := Serve(refs, Release(dropped), f);
            && (forall h :: h in refs' ==> refs'[h] >= 1)
            && (forall h :: Count(refs', h) + uncovered[h] ==
                            (held + Gains(Release(dropped), reply) + Unmet(Release(dropped), reply))[h])
            && (reply.Refused? ==> uncovered[dropped] >= 1)
  {
    var (refs', reply) := Serve(refs, Release(dropped), f);
    assert Count(refs, dropped) + uncovered[dropped] == (held + multiset{dropped})[dropped] >= 1;
    forall h ensures Count(refs', h) == if h == dropped && reply.Answer? then Count(refs, h) - 1 else Count(refs, h) {}
    assert Gains(Release(dropped), reply) == multiset{};
    assert Unmet(Release(dropped), reply) == if reply.Refused? then multiset{dropped} else multiset{};
    forall h ensures Count(refs', h) + uncovered[h] ==
                     (held + Gains(Release(dropped), reply) + Unmet(Release(dropped), reply))[h]
    {
      assert Count(refs, h) + uncovered[h] == (held + multiset{dropped})[h];
    }
  }

  lemma EmptyServeKeeps(op: Op, f: Fate)
    ensures var (refs, reply) := Serve(map[], op, f);
            && (forall h :: h in refs ==> refs[h] >= 1)
            && forall h :: Count(refs, h) == Gains(op, reply)[h]
    ensures op.Release? ==> Serve(map[], op, f) == (map[], Refused)
  {
  }

  lemma AnsweredKeeps(s: Shard, op: Op, f: Fate, extra: multiset<Handle>)
    requires Balanced(s, extra + Needs(op))
    ensures var (refs, reply) := Serve(s.refs, op, f);
            Balanced(s.(refs := refs), extra + Gains(op, reply) + Unmet(op, reply))
    ensures op.Release? && Serve(s.refs, op, f).1.Refused? ==> s.uncovered[op.dropped] >= 1
  {
    hide Held, Serve, Needs, Gains, Unmet;
    var (refs, reply) := Serve(s.refs, op, f);
    var held := References(s) + extra;
    assert held + Needs(op) == References(s) + (extra + Needs(op));
    ServeKeeps(s.refs, op, f, s.uncovered, held);
    assert References(s.(refs := refs)) == References(s);
    assert held + Gains(op, reply) + Unmet(op, reply) == References(s) + (extra + Gains(op, reply) + Unmet(op, reply));
  }

  lemma FreshAnsweredKeeps(s: Shard, op: Op, f: Fate)
    requires Balanced(s, multiset{}) && s.refs == map[] && s.uncovered == multiset{}
    ensures var (refs, reply) := Serve(s.refs, op, f); Balanced(s.(refs := refs), Gains(op, reply))
  {
    hide Held, Serve, Gains;
    FreshOwesNothing(s);
    EmptyServeKeeps(op, f);
    var (refs, reply) := Serve(s.refs, op, f);
    assert References(s.(refs := refs)) == References(s) == multiset{};
    assert multiset{} + Gains(op, reply) == Gains(op, reply);
  }

  /** What is still in transit after an exchange. */
  function InTransitAfter(s: Shard, t: Shard, extra: multiset<Handle>, op: Op, reply: Reply): multiset<Handle> {
    if t.generation == s.generation then extra + Gains(op, reply) + Unmet(op, reply) else Gains(op, reply)
  }

  /** Every exchange keeps the balance, whatever becomes of the process. */
  lemma RequestKeeps(w: World, s: Shard, capacity: nat, op: Op, extra: multiset<Handle>)
    requires Sound(s, capacity, extra + Needs(op))
    ensures var (t, reply) := Request(w, s, op);
            && Exchanged(s, t) && (reply.Raised? <==> !t.running)
            && Sound(t, capacity, InTransitAfter(s, t, extra, op, reply))
            && (t.generation == s.generation ==> t.uncovered == s.uncovered)
            && (t.generation != s.generation && op.Release? && t.running ==> t.refs == map[] && reply.Refused?)
            && (t.generation == s.generation && op.Release? && reply.Refused? ==> s.uncovered[op.dropped] >= 1)
  {
    hide Held, References, Serve, Balanced, Begin, Needs, Gains, Unmet;
    var b := Begin(w, s);
    BeginKeeps(w, s, capacity, extra + Needs(op));
    if b.running {
      if b.generation == s.generation {
        AnsweredKeeps(b, op, w(s.clock), extra);
      } else {
        FreshAnsweredKeeps(b, op, w(s.clock));
      }
    }
    ServeAnswers(b.refs, op, w(s.clock));
    var (refs, reply) := Serve(b.refs, op, w(s.clock));
    WrittenAside(b.(refs := refs), Written(b.written, op, reply), InTransitAfter(s, b, extra, op, reply));
  }

  lemma WrittenAside(s: Shard, written: set<(string, Handle)>, extra: multiset<Handle>)
    ensures Balanced(s.(written := written), extra) <==> Balanced(s, extra)
  {
    hide Held;
    assert References(s.(written := written)) == References(s);
  }

  lemma ServeAnswers(refs: map<Handle, nat>, op: Op, f: Fate)
    ensures !Serve(refs, op, f).1.Raised?
    ensures refs == map[] && op.Release? ==> Serve(refs, op, f) == (map[], Refused)
  {
  }

  lemma FreshOwesNothing(s: Shard)
    requires Balanced(s, multiset{}) && s.refs == map[] && s.uncovered == multiset{}
    ensures References(s) == multiset{}
  {
    forall h ensures References(s)[h] == 0 {
      assert Count(s.refs, h) + s.uncovered[h] == (References(s) + multiset{})[h];
    }
  }

  /** Giving a reference up: either the process takes it back, or it never covered it. */
  lemma ReleaseKeeps(w: World, s: Shard, capacity: nat, h: Handle, extra: multiset<Handle>)
    requires Sound(s, capacity, extra + multiset{h})
    ensures var (t, reply) := Request(w, s, Release(h));
            var u := Forgo(t, h, reply);
            && Exchanged(s, u) && (reply.Raised? <==> !u.running) && Sound(u, capacity, Surviving(s, u, extra))
            && (u.generation != s.generation && u.running ==> u.refs == map[])
            && (s.uncovered == multiset{} || u.generation != s.generation ==> u.uncovered == multiset{})
  {
    hide Held, References, Request, Balanced, Sound, InTransitAfter, Needs;
    var op := Release(h);
    var (t, reply) := Request(w, s, op);
    assert extra + Needs(op) == extra + multiset{h} by { ReleaseTransit(s, t, extra, h, reply); }
    RequestKeeps(w, s, capacity, op, extra);
    ReleaseTransit(s, t, extra, h, reply);
    if t.generation == s.generation && reply.Refused? {
      ForgoneIsSound(t, capacity, h, extra);
    } else {
      NothingToForgo(t, h, reply);
    }
  }

  lemma ReleaseTransit(s: Shard, t: Shard, extra: multiset<Handle>, h: Handle, reply: Reply)
    ensures Needs(Release(h)) == multiset{h}
    ensures InTransitAfter(s, t, extra, Release(h), reply) ==
            if t.generation != s.generation then multiset{} else if reply.Refused? then extra + multiset{h} else extra
  {
    assert Gains(Release(h), reply) == multiset{};
  }

  lemma NothingToForgo(t: Shard, h: Handle, reply: Reply)
    requires reply.Refused? ==> t.uncovered == multiset{}
    ensures Forgo(t, h, reply) == t
  {
  }

  lemma ForgoneIsSound(t: Shard, capacity: nat, h: Handle, extra: multiset<Handle>)
    requires Sound(t, capacity, extra + multiset{h}) && t.uncovered[h] >= 1
    ensures Sound(t.(uncovered := t.uncovered - multiset{h}), capacity, extra)
  {
    hide Held;
    var u := t.(uncovered := t.uncovered - multiset{h});
    if t.running {
      assert References(u) == References(t);
      forall k ensures Count(u.refs, k) + u.uncovered[k] == (References(u) + extra)[k] {
        assert Count(t.refs, k) + t.uncovered[k] == (References(t) + (extra + multiset{h}))[k];
      }
    }
  }

  lemma ExchangedItself(s: Shard)
    ensures Exchanged(s, s)
  {
  }

  lemma ExchangedTransitive(a: Shard, b: Shard, c: Shard)
    requires Exchanged(a, b) && Exchanged(b, c)
    ensures Exchanged(a, c)
  {
  }

  lemma {:induction false} ReleaseAllKeeps(w: World, s: Shard, capacity: nat, dropped: seq<Entry>)
    requires Sound(s, capacity, Held(dropped, EntryClaim(s.generation)))
    requires forall e :: e in dropped ==> e.generation <= s.generation
    ensures var (t, ok) := ReleaseAll(w, s, dropped);
            Exchanged(s, t) && Sound(t, capacity, multiset{}) && (!ok ==> !t.running)
    decreases |dropped|
  {
    hide Held, Sound, Request, Exchanged, EntryClaim, Forgo;
    if dropped == [] {
      HeldNothing(dropped, EntryClaim(s.generation));
      ExchangedItself(s);
    } else {
      var rest := dropped[1..];
      FirstClaim(dropped, s.generation);
      if dropped[0].generation == s.generation {
        var h := dropped[0].handle;
        var (t, reply) := Request(w, s, Release(h));
        var u := Forgo(t, h, reply);
        ReleaseKeeps(w, s, capacity, h, Held(rest, EntryClaim(s.generation)));
        if reply.Raised? {
          NothingRefused(t, h, reply);
          StoppedIsSound(u, capacity, Surviving(s, u, Held(rest, EntryClaim(s.generation))), multiset{});
        } else {
          RestAfter(s, u, rest);
          ReleaseAllKeeps(w, u, capacity, rest);
          ExchangedTransitive(s, u, ReleaseAll(w, u, rest).0);
        }
      } else {
        assert Held(rest, EntryClaim(s.generation)) + multiset{} == Held(rest, EntryClaim(s.generation));
        ReleaseAllKeeps(w, s, capacity, rest);
      }
    }
  }

  lemma NothingRefused(t: Shard, h: Handle, reply: Reply)
    requires !reply.Refused?
    ensures Forgo(t, h, reply) == t
  {
  }

  lemma FirstClaim(dropped: seq<Entry>, g: nat)
    requires dropped != []
    ensures Held(dropped, EntryClaim(g)) ==
            Held(dropped[1..], EntryClaim(g)) +
            if dropped[0].generation == g then multiset{dropped[0].handle} else multiset{}
  {
    assert dropped == [dropped[0]] + dropped[1..];
    HeldConcat([dropped[0]], dropped[1..], EntryClaim(g));
    HeldOne(dropped[0], EntryClaim(g));
  }

  lemma StoppedIsSound(s: Shard, capacity: nat, extra: multiset<Handle>, other: multiset<Handle>)
    requires Sound(s, capacity, extra) && !s.running
    ensures Sound(s, capacity, other)
  {
  }

  lemma RestAfter(s: Shard, t: Shard, rest: seq<Entry>)
    requires Exchanged(s, t) && forall e :: e in rest ==> e.generation <= s.generation
    ensures t.generation >= s.generation
    ensures Surviving(s, t, Held(rest, EntryClaim(s.generation))) == Held(rest, EntryClaim(t.generation))
  {
    if t.generation != s.generation {
      HeldNothing(rest, EntryClaim(t.generation));
    }
  }

  /** The same-handle branch gives a reference back and stamps the entry afterwards. */
  predicate StampsTooLate(w: World, s: Shard, path: string, h: Handle, owned: bool) {
    Known(s, path, h) && owned && var t := Request(w, s, Release(h)).0; t.running && t.generation != s.generation
  }

  lemma SameEntryAgain(s: Shard, capacity: nat, path: string, signature: Signature, h: Handle, g: nat)
    requires Shape(s, capacity) && Known(s, path, h) && g >= s.generation
    ensures var at := Find(s.cache, path);
            var cache := Without(s.cache, at) + [Entry(path, signature, g, h)];
            && Shape(s.(cache := cache, generation := g), capacity)
            && Held(cache, EntryClaim(g)) ==
               Held(s.cache, EntryClaim(g)) + if g == s.generation then multiset{} else multiset{h}
  {
    hide Held;
    var at := Find(s.cache, path);
    var entry := Entry(path, signature, g, h);
    HeldConcat(Without(s.cache, at), [entry], EntryClaim(g));
    HeldWithout(s.cache, at, EntryClaim(g));
    HeldOne(entry, EntryClaim(g));
    HeldOne(s.cache[at.value], EntryClaim(g));
    WithoutPath(s.cache, path);
  }

  lemma WithoutPath(cache: seq<Entry>, path: string)
    requires forall i, j :: 0 <= i < j < |cache| ==> cache[i].path != cache[j].path
    ensures var rest := Without(cache, Find(cache, path));
            && (forall e :: e in rest ==> e in cache && e.path != path)
            && (forall i, j :: 0 <= i < j < |rest| ==> rest[i].path != rest[j].path)
            && |rest| == |cache| - |Picked(cache, Find(cache, path))|
  {
    hide Find;
    var at := Find(cache, path);
    if at.Some? {
      WithoutPosition(cache, at.value);
    }
  }

  lemma WithoutPosition(cache: seq<Entry>, i: nat)
    requires i < |cache| && forall a, b :: 0 <= a < b < |cache| ==> cache[a].path != cache[b].path
    ensures var rest := Without(cache, Some(i));
            && |rest| == |cache| - 1
            && (forall e :: e in rest ==> e in cache && e.path != cache[i].path)
            && (forall a, b :: 0 <= a < b < |rest| ==> rest[a].path != rest[b].path)
  {
    var rest := Without(cache, Some(i));
    forall k | 0 <= k < |rest| ensures rest[k] == cache[if k < i then k else k + 1] {}
    forall e | e in rest ensures e in cache && e.path != cache[i].path {
      var k :| 0 <= k < |rest| && rest[k] == e;
      assert cache[if k < i then k else k + 1] == e;
    }
    forall a, b | 0 <= a < b < |rest| ensures rest[a].path != rest[b].path {
      assert rest[a] == cache[if a < i then a else a + 1] && rest[b] == cache[if b < i then b else b + 1];
    }
  }

  function InTransit(h: Handle, owned: bool): multiset<Handle> {
    if owned then multiset{h} else multiset{}
  }

  /** Later than `s`, with nothing newly uncovered. */
  ghost predicate StillCovered(s: Shard, t: Shard) {
    && t.generation >= s.generation
    && (if t.generation == s.generation then t.uncovered <= s.uncovered else t.uncovered == multiset{})
  }

  lemma KnownKeeps(w: World, s: Shard, capacity: nat, path: string, signature: Signature, h: Handle, owned: bool)
    requires Sound(s, capacity, InTransit(h, owned)) && Known(s, path, h)
    ensures var (t, ok) := Remember(w, s, capacity, path, signature, h, owned);
            && Sound(t, capacity, multiset{}) && t.results == s.results && (!ok ==> !t.running)
            && (!StampsTooLate(w, s, path, h, owned) ==> StillCovered(s, t))
            && (StampsTooLate(w, s, path, h, owned) ==>
                  t.generation > s.generation && t.running && t.uncovered == multiset{h})
  {
    hide Held, Request, References, Sound, Forgo, Stamped;
    var at := Find(s.cache, path);
    var entry := (g: nat) => Entry(path, signature, g, h);
    if owned {
      assert multiset{} + multiset{h} == InTransit(h, owned);
      ReleaseKeeps(w, s, capacity, h, multiset{});
    }
    var (t, reply) := if owned then Request(w, s, Release(h)) else (s, Answer(h));
    var u := Forgo(t, h, reply);
    ForgoFacts(t, h, reply);
    ExchangedItself(s);
    assert owned ==> Surviving(s, u, multiset{}) == multiset{};
    if reply.Raised? {
      NothingRefused(t, h, reply);
    } else {
      SoundIsShaped(s, capacity, InTransit(h, owned));
      RestampedIsSound(s, u, capacity, path, signature, h);
      StampedFacts(u, at, Entry(path, signature, t.generation, h), t.generation != s.generation);
    }
  }

  lemma ForgoFacts(t: Shard, h: Handle, reply: Reply)
    ensures var u := Forgo(t, h, reply);
            && u.generation == t.generation && u.running == t.running && u.cache == t.cache && u.results == t.results
            && (!reply.Refused? ==> u == t)
  {
  }

  lemma StampedFacts(s: Shard, at: Option<nat>, entry: Entry, late: bool)
    requires at.Some? ==> at.value < |s.cache|
    ensures var u := Stamped(s, at, entry, late);
            && u.generation == s.generation && u.running == s.running && u.results == s.results
            && (!late ==> u.uncovered == s.uncovered)
            && (late && s.uncovered == multiset{} ==> u.uncovered == multiset{entry.handle})
  {
    assert multiset{} + multiset{entry.handle} == multiset{entry.handle};
  }

  lemma SoundIsShaped(s: Shard, capacity: nat, extra: multiset<Handle>)
    requires Sound(s, capacity, extra)
    ensures Shape(s, capacity)
  {
  }

  lemma RestampedIsSound(s: Shard, t: Shard, capacity: nat, path: string, signature: Signature, h: Handle)
    requires Shape(s, capacity) && Sound(t, capacity, multiset{}) && Exchanged(s, t) && Known(s, path, h)
    ensures Sound(Stamped(t, Find(s.cache, path), Entry(path, signature, t.generation, h),
                          t.generation != s.generation),
                  capacity, multiset{})
  {
    hide Held;
    var u := Stamped(t, Find(s.cache, path), Entry(path, signature, t.generation, h), t.generation != s.generation);
    SameEntryAgain(s, capacity, path, signature, h, t.generation);
    if t.generation == s.generation {
      assert References(u) == References(t);
    } else {
      assert References(u) == References(t) + multiset{h};
      if t.running {
        OneMoreUncovered(t, u, h);
      }
    }
  }

  lemma OneMoreUncovered(t: Shard, u: Shard, h: Handle)
    requires Balanced(t, multiset{}) && u.refs == t.refs && u.uncovered == t.uncovered + multiset{h}
    requires References(u) == References(t) + multiset{h}
    ensures Balanced(u, multiset{})
  {
    hide References;
    forall k ensures Count(u.refs, k) + u.uncovered[k] == (References(u) + multiset{})[k] {
      assert Count(t.refs, k) + t.uncovered[k] == (References(t) + multiset{})[k];
    }
  }

  /** Entering a path, dropping what no longer fits: the references of the dropped
      entries are in transit afterwards. */
  lemma EnteredIsSound(t: Shard, capacity: nat, path: string, signature: Signature, h: Handle)
    requires capacity >= 1 && Shape(t, capacity) && Sound(t, capacity, multiset{h})
    ensures var at := Find(t.cache, path);
            var longer := Without(t.cache, at) + [Entry(path, signature, t.generation, h)];
            var excess := Excess(|longer|, capacity);
            var dropped := Picked(t.cache, at) + longer[..excess];
            && Sound(t.(cache := longer[excess..]), capacity, Held(dropped, EntryClaim(t.generation)))
            && forall e :: e in dropped ==> e.generation <= t.generation
  {
    hide Held, EntryClaim, Without, Picked, Balanced, References, Shape;
    var at := Find(t.cache, path);
    var entry := Entry(path, signature, t.generation, h);
    var longer := Without(t.cache, at) + [entry];
    var excess := Excess(|longer|, capacity);
    EnteredShape(t, capacity, entry);
    EnteredClaims(t.cache, at, entry, excess, EntryClaim(t.generation));
    EntryClaimOf(entry);
    if t.running {
      EnteredBalance(t, t.(cache := longer[excess..]), multiset{h},
                     Held(Picked(t.cache, at) + longer[..excess], EntryClaim(t.generation)));
    }
  }

  lemma EnteredBalance(t: Shard, u: Shard, before: multiset<Handle>, after: multiset<Handle>)
    requires Balanced(t, before) && u == t.(cache := u.cache)
    requires Held(u.cache, EntryClaim(t.generation)) + after == Held(t.cache, EntryClaim(t.generation)) + before
    ensures Balanced(u, after)
  {
    hide Held, EntryClaim, ResultClaim;
    var c, c' := Held(t.cache, EntryClaim(t.generation)), Held(u.cache, EntryClaim(t.generation));
    var r := Held(t.results, ResultClaim(t.generation));
    assert References(u) + after == r + (c' + after);
    assert References(t) + before == r + (c + before);
  }

  lemma EnteredShape(t: Shard, capacity: nat, entry: Entry)
    requires capacity >= 1 && Shape(t, capacity) && entry.generation == t.generation
    ensures var at := Find(t.cache, entry.path);
            var longer := Without(t.cache, at) + [entry];
            var excess := Excess(|longer|, capacity);
            && Shape(t.(cache := longer[excess..]), capacity)
            && forall e :: e in Picked(t.cache, at) + longer[..excess] ==> e.generation <= t.generation
  {
    hide Find, Without, Picked;
    var at := Find(t.cache, entry.path);
    WithoutPath(t.cache, entry.path);
    PickedIsCached(t.cache, at);
    var rest := Without(t.cache, at);
    var longer := rest + [entry];
    var excess := Excess(|longer|, capacity);
    forall e | e in longer ensures e.generation <= t.generation {
      assert e in rest || e == entry;
    }
    forall i, j | 0 <= i < j < |longer| ensures longer[i].path != longer[j].path {
      if j == |rest| { assert longer[i] in rest; }
    }
    forall e | e in longer[excess..] || e in longer[..excess] ensures e in longer {}
  }

  lemma PickedIsCached(cache: seq<Entry>, at: Option<nat>)
    requires at.Some? ==> at.value < |cache|
    ensures forall e :: e in Picked(cache, at) ==> e in cache
  {
  }

  lemma EntryClaimOf(e: Entry)
    ensures EntryClaim(e.generation)(e) == multiset{e.handle}
  {
  }

  lemma EnteredClaims(cache: seq<Entry>, at: Option<nat>, entry: Entry, excess: nat, claim: Entry -> multiset<Handle>)
    requires at.Some? ==> at.value < |cache|
    requires excess <= |Without(cache, at)| + 1
    ensures var longer := Without(cache, at) + [entry];
            Held(longer[excess..], claim) + Held(Picked(cache, at) + longer[..excess], claim) ==
            Held(cache, claim) + claim(entry)
  {
    hide Held;
    var longer := Without(cache, at) + [entry];
    HeldWithout(cache, at, claim);
    HeldConcat(Without(cache, at), [entry], claim);
    HeldOne(entry, claim);
    HeldConcat(longer[..excess], longer[excess..], claim);
    assert longer == longer[..excess] + longer[excess..];
    HeldConcat(Picked(cache, at), longer[..excess], claim);
    ghost var (stay, leave) := (Held(longer[excess..], claim), Held(longer[..excess], claim));
    ghost var (replaced, others) := (Held(Picked(cache, at), claim), Held(Without(cache, at), claim));
    assert stay + (replaced + leave) == replaced + (leave + stay);
    assert replaced + (others + claim(entry)) == (others + replaced) + claim(entry);
  }

  lemma UnknownKeeps(w: World, s: Shard, capacity: nat, path: string, signature: Signature, h: Handle, owned: bool)
    requires capacity >= 1 && Sound(s, capacity, InTransit(h, owned)) && !Known(s, path, h)
    ensures var (t, ok) := Remember(w, s, capacity, path, signature, h, owned);
            && Sound(t, capacity, multiset{}) && t.results == s.results && (owned && !ok ==> !t.running)
            && StillCovered(s, t)
  {
    hide Held, Request, References, Sound, Without, Picked, ReleaseAll;
    var at := Find(s.cache, path);
    var op := Retain(h);
    if !owned {
      assert multiset{} + Needs(op) == InTransit(h, owned);
      RequestKeeps(w, s, capacity, op, multiset{});
    }
    var (t, reply) := if owned then (s, Answer(h)) else Request(w, s, op);
    ExchangedItself(s);
    RetainAnswers(w, s, h);
    assert !owned ==> InTransitAfter(s, t, multiset{}, op, reply) == Gains(op, reply);
    if reply.Answer? {
      SoundIsShaped(t, capacity, multiset{h});
      EnteredIsSound(t, capacity, path, signature, h);
      var longer := Without(s.cache, at) + [Entry(path, signature, t.generation, h)];
      var excess := Excess(|longer|, capacity);
      var dropped := Picked(s.cache, at) + longer[..excess];
      ReleaseAllKeeps(w, t.(cache := longer[excess..]), capacity, dropped);
      StillCoveredThrough(s, t, t.(cache := longer[excess..]), ReleaseAll(w, t.(cache := longer[excess..]), dropped).0);
    }
  }

  lemma StillCoveredThrough(s: Shard, t: Shard, u: Shard, v: Shard)
    requires Exchanged(s, t) && u == t.(cache := u.cache) && Exchanged(u, v)
    ensures StillCovered(s, v)
  {
  }

  lemma RetainAnswers(w: World, s: Shard, h: Handle)
    ensures var (t, reply) := Request(w, s, Retain(h)); reply.Answer? ==> reply.handle == h
  {
  }

  /** Remembering a path keeps the balance. Something becomes uncovered in exactly one
      situation: the entry is known, the reference in transit is given back, and the
      process that is asked to take it back is a new one. From a covered state,
      conservation is lost in that situation and in no other. */
  lemma RememberKeeps(w: World, s: Shard, capacity: nat, path: string, signature: Signature, h: Handle, owned: bool)
    requires capacity >= 1 && Sound(s, capacity, InTransit(h, owned))
    ensures var (t, ok) := Remember(w, s, capacity, path, signature, h, owned);
            && Sound(t, capacity, multiset{}) && t.generation >= s.generation && t.results == s.results
            && (owned && !ok ==> !t.running)
            && (if StampsTooLate(w, s, path, h, owned) then t.running && t.uncovered == multiset{h}
                else StillCovered(s, t))
            && (s.uncovered == multiset{} && t.running ==> (Exact(t) <==> !StampsTooLate(w, s, path, h, owned)))
  {
    hide Remember, Balanced, Request, Exact, Known;
    var (t, ok) := Remember(w, s, capacity, path, signature, h, owned);
    if Known(s, path, h) {
      KnownKeeps(w, s, capacity, path, signature, h, owned);
    } else {
      UnknownKeeps(w, s, capacity, path, signature, h, owned);
    }
    if t.running {
      ExactWhenCovered(t);
      assert h in multiset{h};
    }
  }

  /** In terms of what can be seen before the call: the process is dead and a new
      one starts and answers. */
  lemma StampsTooLateMeansDead(w: World, s: Shard, path: string, h: Handle, owned: bool)
    ensures StampsTooLate(w, s, path, h, owned) <==>
            && Known(s, path, h) && owned
            && (!s.running || w(s.clock).dies) && !w(s.clock).startFails && !w(s.clock).lost
  {
  }

  // ------------------------------------------------------------ operations

  /** Processes die, but only over a request, where the failed answer shows it. */
  ghost predicate NoSilentDeath(w: World) {
    forall n: nat :: !w(n).dies
  }

  ghost predicate StaysClean(w: World, s: Shard, t: Shard) {
    NoSilentDeath(w) && s.uncovered == multiset{} ==> t.uncovered == multiset{}
  }

  lemma TouchedIsSound(s: Shard, capacity: nat, path: string)
    requires Sound(s, capacity, multiset{})
    ensures var at := Find(s.cache, path);
            Sound(s.(cache := Without(s.cache, at) + Picked(s.cache, at)), capacity, multiset{})
  {
    hide Held, Find;
    var at := Find(s.cache, path);
    var rest, cached := Without(s.cache, at), Picked(s.cache, at);
    WithoutPath(s.cache, path);
    HeldWithout(s.cache, at, EntryClaim(s.generation));
    HeldConcat(rest, cached, EntryClaim(s.generation));
    assert References(s.(cache := rest + cached)) == References(s);
    FoundPath(s.cache, path);
  }

  lemma FoundPath(cache: seq<Entry>, path: string)
    ensures forall e :: e in Picked(cache, Find(cache, path)) ==> e in cache && e.path == path
  {
  }

  lemma LoadInputKeeps(w: World, s: Shard, capacity: nat, path: string, signature: Option<Signature>)
    requires capacity >= 1 && Sound(s, capacity, multiset{})
    ensures var (t, handle) := LoadInput(w, s, capacity, path, signature);
            && Sound(t, capacity, multiset{}) && t.results == s.results && t.generation >= s.generation
            && StaysClean(w, s, t)
  {
    hide Held, Sound, Begin, Request, Remember, Balanced, StampsTooLate;
    var t := Begin(w, s);
    BeginKeeps(w, s, capacity, multiset{});
    if t.running && signature.Some? {
      TouchedIsSound(t, capacity, path);
      var at := Find(t.cache, path);
      var u := t.(cache := Without(t.cache, at) + Picked(t.cache, at));
      var op := Load(path, signature.value);
      assert multiset{} + Needs(op) == multiset{};
      RequestKeeps(w, u, capacity, op, multiset{});
      var (v, reply) := Request(w, u, op);
      assert InTransitAfter(u, v, multiset{}, op, reply) == Gains(op, reply);
      if reply.Answer? {
        RememberKeeps(w, v, capacity, path, signature.value, reply.handle, true);
        StampsTooLateMeansDead(w, v, path, reply.handle, true);
      }
    }
  }

  lemma RememberMaterializedKeeps(w: World, s: Shard, capacity: nat, path: string, signature: Option<Signature>,
                                  h: Handle)
    requires capacity >= 1 && Sound(s, capacity, multiset{h}) && s.running
    ensures var (t, ok) := RememberMaterialized(w, s, capacity, path, signature, h);
            && Sound(t, capacity, multiset{}) && t.results == s.results && t.generation >= s.generation
            && StaysClean(w, s, t)
  {
    hide Held, Sound, Request, Remember, Balanced, StampsTooLate, Forgo, Exact;
    var (t, ok) := if signature.None? then (s, false) else Remember(w, s, capacity, path, signature.value, h, true);
    if signature.Some? {
      RememberKeeps(w, s, capacity, path, signature.value, h, true);
      StampsTooLateMeansDead(w, s, path, h, true);
      if !t.running {
        StoppedIsSound(t, capacity, multiset{}, multiset{h});
      }
    }
    if !ok {
      assert multiset{} + multiset{h} == multiset{h};
      ReleaseKeeps(w, t, capacity, h, multiset{});
      var (u, reply) := Request(w, t, Release(h));
      assert Surviving(t, Forgo(u, h, reply), multiset{}) == multiset{};
    }
  }

  lemma HandedOutIsSound(s: Shard, capacity: nat, h: Handle, owned: bool)
    requires Sound(s, capacity, InTransit(h, owned))
    ensures Sound(s.(results := s.results + [RunResult(h, s.generation, owned)]), capacity, multiset{})
  {
    hide Held;
    var r := RunResult(h, s.generation, owned);
    HeldConcat(s.results, [r], ResultClaim(s.generation));
    HeldOne(r, ResultClaim(s.generation));
    var u := s.(results := s.results + [r]);
    assert References(u) + multiset{} == References(s) + InTransit(h, owned);
  }

  lemma ApplyToKeeps(w: World, s: Shard, capacity: nat, parent: Handle, pipeline: string, output: string,
                     signature: Option<Signature>, materialize: bool)
    requires capacity >= 1 && Sound(s, capacity, multiset{})
    ensures var t := ApplyTo(w, s, capacity, parent, pipeline, output, signature, materialize);
            Sound(t, capacity, multiset{}) && StaysClean(w, s, t)
  {
    hide Held, Sound, Request, RememberMaterialized, Balanced;
    var op := Apply(parent, pipeline, if materialize then Some(output) else None);
    assert multiset{} + Needs(op) == multiset{};
    RequestKeeps(w, s, capacity, op, multiset{});
    var (t, reply) := Request(w, s, op);
    assert InTransitAfter(s, t, multiset{}, op, reply) == Gains(op, reply);
    if reply.Answer? {
      if materialize {
        RememberMaterializedKeeps(w, t, capacity, output, signature, reply.handle);
        HandedOutIsSound(
          RememberMaterialized(w, t, capacity, output, signature, reply.handle).0, capacity, reply.handle, false);
      } else {
        HandedOutIsSound(t, capacity, reply.handle, true);
      }
    }
  }

  lemma DisownedReferences(s: Shard, i: nat)
    requires i < |s.results|
    ensures References(Disowned(s, i)) + ResultClaim(s.generation)(s.results[i]) == References(s) + multiset{}
  {
    hide Held, ResultClaim;
    var claim := ResultClaim(s.generation);
    var r := s.results[i].(owned := false);
    HeldAround(s.results[..i], s.results[i], s.results[i + 1..], claim);
    HeldAround(s.results[..i], r, s.results[i + 1..], claim);
    HeldOne(s.results[i], claim);
    HeldOne(r, claim);
    NothingOwned(r, s.generation);
    assert s.results == s.results[..i] + [s.results[i]] + s.results[i + 1..];
    assert Disowned(s, i).results == s.results[..i] + [r] + s.results[i + 1..];
  }

  /** Giving up a result puts its reference, if it still stands for one, in transit. */
  lemma DisownedIsSound(s: Shard, capacity: nat, i: nat)
    requires Sound(s, capacity, multiset{}) && i < |s.results|
    ensures Sound(Disowned(s, i), capacity, ResultClaim(s.generation)(s.results[i]))
  {
    hide Held, ResultClaim;
    DisownedReferences(s, i);
  }

  lemma NothingOwned(r: RunResult, g: nat)
    requires !r.owned
    ensures ResultClaim(g)(r) == multiset{}
  {
  }

  /** A result that keeps its claim takes its reference out of transit again. */
  lemma KeptIsSound(s: Shard, capacity: nat, i: nat)
    requires i < |s.results| && Sound(Disowned(s, i), capacity, ResultClaim(s.generation)(s.results[i]))
    requires Shape(s, capacity)
    ensures Sound(s, capacity, multiset{})
  {
    hide Held, ResultClaim, Disowned;
    DisownedReferences(s, i);
    DisownedFields(s, i);
  }

  lemma DisownedFields(s: Shard, i: nat)
    requires i < |s.results|
    ensures var d := Disowned(s, i);
            && d.generation == s.generation && d.running == s.running && d.refs == s.refs
            && d.uncovered == s.uncovered && d.cache == s.cache
  {
  }

  /** Releasing a result: taken back, refused, or asked of a new process. */
  lemma ReleaseResultKeeps(w: World, s: Shard, capacity: nat, i: nat)
    requires Sound(s, capacity, multiset{}) && i < |s.results| && s.results[i].owned
    requires s.results[i].generation == s.generation
    ensures var (t, reply) := Request(w, s, Release(s.results[i].handle));
            Sound(if reply.Answer? then Disowned(t, i) else t, capacity, multiset{}) && StaysClean(w, s, t)
  {
    hide Held, Begin, Serve, Balanced, Request, References;
    var op := Release(s.results[i].handle);
    var d := Disowned(s, i);
    DisownedIsSound(s, capacity, i);
    assert multiset{} + Needs(op) == ResultClaim(s.generation)(s.results[i]);
    RequestKeeps(w, d, capacity, op, multiset{});
    RequestKeepsAside(w, s, op, d.results);
    var (t, reply) := Request(w, s, op);
    var (t', reply') := Request(w, d, op);
    assert t' == Disowned(t, i) && reply' == reply;
    AfterReleaseIsShaped(s, t, t', capacity);
    if t.generation == s.generation {
      assert reply.Answer? ==> InTransitAfter(d, t', multiset{}, op, reply) == multiset{};
      if reply.Refused? {
        assert InTransitAfter(d, t', multiset{}, op, reply) == ResultClaim(t.generation)(t.results[i]);
        KeptIsSound(t, capacity, i);
      }
    } else {
      assert ResultClaim(t.generation)(t.results[i]) == multiset{} == InTransitAfter(d, t', multiset{}, op, reply);
      KeptIsSound(t, capacity, i);
    }
  }

  lemma AfterReleaseIsShaped(s: Shard, t: Shard, t': Shard, capacity: nat)
    requires Shape(s, capacity) && Shape(t', capacity) && t'.cache == t.cache && t'.generation == t.generation
    requires t.results == s.results && t.generation >= s.generation
    ensures Shape(t, capacity)
  {
  }

  /** Requests do not look at the results handed out. */
  lemma RequestKeepsAside(w: World, s: Shard, op: Op, results: seq<RunResult>)
    ensures var (t, reply) := Request(w, s, op);
            t.results == s.results && Request(w, s.(results := results), op) == (t.(results := results), reply)
  {
  }

  lemma StepKeeps(w: World, s: Shard, capacity: nat, c: Command)
    requires capacity >= 1 && Sound(s, capacity, multiset{})
    ensures var t := Step(w, s, capacity, c); Sound(t, capacity, multiset{}) && StaysClean(w, s, t)
  {
    hide Held, Sound, Begin, Request, Remember, ApplyTo, LoadInput, Balanced;
    match c
    case RunOpt(input, inputSignature, pipeline, output, outputSignature, materialize) =>
      LoadInputKeeps(w, s, capacity, input, inputSignature);
      var (t, parent) := LoadInput(w, s, capacity, input, inputSignature);
      if parent.Some? {
        ApplyToKeeps(w, t, capacity, parent.value, pipeline, output, outputSignature, materialize);
      }
    case RunFromResult(i, pipeline, output, outputSignature, materialize) =>
      StartedKeeps(w, s, capacity, i);
      if i < |s.results| {
        ApplyToKeeps(w, Begin(w, s), capacity, s.results[i].handle, pipeline, output, outputSignature, materialize);
      }
    case MaterializeResult(i, output, outputSignature) =>
      StartedKeeps(w, s, capacity, i);
      if i < |s.results| {
        MaterializeKeeps(w, Begin(w, s), capacity, s.results[i].handle, output, outputSignature);
      }
    case ReleaseResult(i) =>
      StartedKeeps(w, s, capacity, i);
      if i < |s.results| && s.results[i].owned && s.results[i].generation == Begin(w, s).generation {
        ReleaseResultKeeps(w, Begin(w, s), capacity, i);
      }
    case ComparePaths =>
      assert multiset{} + Needs(Compare) == multiset{};
      RequestKeeps(w, s, capacity, Compare, multiset{});
      assert InTransitAfter(s, Request(w, s, Compare).0, multiset{}, Compare, Request(w, s, Compare).1) == multiset{};
  }

  lemma StartedKeeps(w: World, s: Shard, capacity: nat, i: nat)
    requires Sound(s, capacity, multiset{})
    ensures var t := Begin(w, s);
            && Sound(t, capacity, multiset{}) && t.results == s.results && StaysClean(w, s, t)
            && (i < |s.results| && s.results[i].generation != t.generation ==>
                  Sound(Disowned(t, i), capacity, multiset{}))
  {
    hide Held, Sound, Begin, Balanced, Disowned;
    BeginKeeps(w, s, capacity, multiset{});
    if i < |s.results| {
      DisownedIsSound(Begin(w, s), capacity, i);
    }
  }

  lemma MaterializeKeeps(w: World, s: Shard, capacity: nat, h: Handle, output: string, signature: Option<Signature>)
    requires capacity >= 1 && Sound(s, capacity, multiset{})
    ensures var (u, reply) := Request(w, s, Materialize(h, output));
            && Sound(u, capacity, multiset{}) && StaysClean(w, s, u)
            && (signature.Some? ==>
                  var t := Remember(w, u, capacity, output, signature.value, h, false).0;
                  Sound(t, capacity, multiset{}) && StaysClean(w, s, t))
  {
    hide Held, Sound, Request, Remember, Balanced;
    var op := Materialize(h, output);
    assert multiset{} + Needs(op) == multiset{};
    RequestKeeps(w, s, capacity, op, multiset{});
    var (u, reply) := Request(w, s, op);
    assert InTransitAfter(s, u, multiset{}, op, reply) == multiset{};
    if signature.Some? {
      RememberKeeps(w, u, capacity, output, signature.value, h, false);
      StampsTooLateMeansDead(w, u, output, h, false);
    }
  }

  const Unstarted := Shard(0, false, map[], [], [], 0, multiset{}, {})

  /** Over every run of every sequence of operations, whatever the outside world
      does: paths are cached once and within capacity, nothing is stamped with a
      future generation, and a live process never counts more references to a handle
      than the cache entries and owning results that stand for it. It counts fewer by
      as many late stamps as have not been given up since, so the counts are equal
      exactly when there is none. Without silent deaths there never is one. */
  lemma {:induction false} EveryRunConserves(w: World, capacity: nat, commands: seq<Command>)
    requires capacity >= 1
    ensures var s := Run(w, Unstarted, capacity, commands);
            && Shape(s, capacity)
            && (s.running ==> forall h :: Count(s.refs, h) <= References(s)[h])
            && (s.running ==> forall h :: Count(s.refs, h) + s.uncovered[h] == References(s)[h])
            && (s.running ==> (Exact(s) <==> s.uncovered == multiset{}))
            && (NoSilentDeath(w) ==> s.uncovered == multiset{})
  {
    hide Step, Exact, Held;
    EveryRunIsSound(w, capacity, commands);
    var s := Run(w, Unstarted, capacity, commands);
    assert References(s) + multiset{} == References(s);
    if s.running { ExactWhenCovered(s); }
  }

  lemma {:induction false} EveryRunIsSound(w: World, capacity: nat, commands: seq<Command>)
    requires capacity >= 1
    ensures var s := Run(w, Unstarted, capacity, commands);
            Sound(s, capacity, multiset{}) && (NoSilentDeath(w) ==> s.uncovered == multiset{})
  {
    hide Step, References;
    if commands != [] {
      EveryRunIsSound(w, capacity, commands[..|commands| - 1]);
      StepKeeps(w, Run(w, Unstarted, capacity, commands[..|commands| - 1]), capacity, commands[|commands| - 1]);
    }
  }

  // ------------------------------------------------ what the cache is for

  lemma {:induction false} ReleaseAllKeepsCache(w: World, s: Shard, dropped: seq<Entry>)
    ensures ReleaseAll(w, s, dropped).0.cache == s.cache && ReleaseAll(w, s, dropped).0.generation >= s.generation
    decreases |dropped|
  {
    if dropped != [] {
      if dropped[0].generation == s.generation {
        var (t, reply) := Request(w, s, Release(dropped[0].handle));
        if !reply.Raised? { ReleaseAllKeepsCache(w, Forgo(t, dropped[0].handle, reply), dropped[1..]); }
      } else {
        ReleaseAllKeepsCache(w, s, dropped[1..]);
      }
    }
  }

  /** The most recently used entry is the last one. */
  ghost predicate MostRecent(s: Shard, path: string, signature: Signature, h: Handle) {
    && s.cache != []
    && var e := s.cache[|s.cache| - 1];
       e.path == path && e.signature == signature && e.handle == h && e.generation <= s.generation
  }

  lemma RememberedIsMostRecent(w: World, s: Shard, capacity: nat, path: string, signature: Signature, h: Handle,
                               owned: bool)
    requires capacity >= 1
    ensures var (t, ok) := Remember(w, s, capacity, path, signature, h, owned); ok ==> MostRecent(t, path, signature, h)
  {
    hide Request, ReleaseAll, Without, Picked;
    if !Known(s, path, h) {
      var at := Find(s.cache, path);
      var (t, reply) := if owned then (s, Answer(h)) else Request(w, s, Retain(h));
      var longer := Without(s.cache, at) + [Entry(path, signature, t.generation, h)];
      var excess := Excess(|longer|, capacity);
      ReleaseAllKeepsCache(w, t.(cache := longer[excess..]), Picked(s.cache, at) + longer[..excess]);
    }
  }

  /** A loaded input is the most recently used entry, under its current signature. */
  lemma LoadedIsMostRecent(w: World, s: Shard, capacity: nat, path: string, signature: Signature)
    requires capacity >= 1
    ensures var (t, h) := LoadInput(w, s, capacity, path, Some(signature)); h.Some? ==>
              MostRecent(t, path, signature, h.value)
  {
    hide Request, Remember;
    var t := Begin(w, s);
    if t.running {
      var at := Find(t.cache, path);
      var u := t.(cache := Without(t.cache, at) + Picked(t.cache, at));
      var (v, reply) := Request(w, u, Load(path, signature));
      if reply.Answer? {
        RememberedIsMostRecent(w, v, capacity, path, signature, reply.handle, true);
      }
    }
  }

  /** While the process lives, loading the most recent path again costs nothing:
      no request, no reference, the same handle. */
  lemma RecentLoadHits(w: World, s: Shard, capacity: nat, path: string, signature: Signature, h: Handle)
    requires s.cache != [] && s.cache[|s.cache| - 1] == Entry(path, signature, s.generation, h)
    requires s.running && !w(s.clock).dies
    ensures LoadInput(w, s, capacity, path, Some(signature)) == (s.(clock := s.clock + 1), Some(h))
  {
    var last := |s.cache| - 1;
    assert Find(s.cache, path) == Some(last);
    assert s.cache[..last] + s.cache[last + 1..] + [s.cache[last]] == s.cache;
  }

  // --------------------------------------------------- the late stamp is real

  /** The process dies just before it is asked to take the second reference to the
      reloaded file back. Later files are other modules. */
  const UnnoticedDeath: World := (t: nat) => Fate(t == 5, false, false, false, _ => if t < 7 then "m-1" else "m-2")

  const LoadA := RunOpt("a.ll", Some("v1"), "p", "b.ll", None, false)
  const ReloadA := RunOpt("a.ll", Some("v2"), "p", "b.ll", None, false)
  const LoadC := RunOpt("c.ll", Some("v1"), "p", "d.ll", None, false)

  const Loaded := Entry("a.ll", "v1", 1, "m-1")
  const Again := Entry("a.ll", "v2", 2, "m-1")
  const Other := Entry("c.ll", "v1", 2, "m-2")
  const First := RunResult("m-1", 1, true)
  const Third := RunResult("m-2", 2, true)

  const AfterLoadA := Shard(1, true, map["m-1" := 2], [Loaded], [First], 3, multiset{}, {})
  const AfterReloadA := Shard(2, true, map[], [Again], [First], 7, multiset{"m-1"}, {})
  const AfterLoadC := Shard(2, true, map["m-2" := 2], [Other], [First, Third], 11, multiset{}, {})

  /** Conservation does fail, for every capacity: after this run the cache holds a
      current entry whose handle the live process does not know. */
  lemma ConservationCanFail(capacity: nat)
    requires capacity >= 1
    ensures var s := Run(UnnoticedDeath, Unstarted, capacity, [LoadA, ReloadA]);
            && s.running && s.generation == 2 && Count(s.refs, "m-1") == 0 && References(s)["m-1"] == 1
  {
    RunReload(capacity);
    HeldOne(Again, EntryClaim(2));
    HeldOne(First, ResultClaim(2));
  }

  /** And it returns in the same generation, when a full cache drops that entry. */
  lemma ConservationCanReturn()
    ensures var s := Run(UnnoticedDeath, Unstarted, 1, [LoadA, ReloadA]);
            var t := Run(UnnoticedDeath, Unstarted, 1, [LoadA, ReloadA, LoadC]);
            && s.running && t.running && s.generation == t.generation && !Exact(s) && Exact(t)
  {
    RunReload(1);
    EveryRunConserves(UnnoticedDeath, 1, [LoadA, ReloadA]);
    EveryRunConserves(UnnoticedDeath, 1, [LoadA, ReloadA, LoadC]);
    assert [LoadA, ReloadA, LoadC][..2] == [LoadA, ReloadA];
    OtherRunOpt();
    assert "m-1" in AfterReloadA.uncovered;
  }

  lemma RunReload(capacity: nat)
    requires capacity >= 1
    ensures Run(UnnoticedDeath, Unstarted, capacity, [LoadA, ReloadA]) == AfterReloadA
  {
    var w := UnnoticedDeath;
    FirstRunOpt(capacity);
    SecondRunOpt(capacity);
    assert [LoadA, ReloadA][..1] == [LoadA] && [LoadA][..0] == [];
    assert Run(w, Unstarted, capacity, []) == Unstarted;
    assert Run(w, Unstarted, capacity, [LoadA]) == AfterLoadA;
  }

  lemma FirstRunOpt(capacity: nat)
    requires capacity >= 1
    ensures Step(UnnoticedDeath, Unstarted, capacity, LoadA) == AfterLoadA
  {
    var w := UnnoticedDeath;
    assert Find([], "a.ll") == None;
    var b := Shard(1, true, map[], [], [], 1, multiset{}, {});
    assert Begin(w, Unstarted) == b;
    var v := Shard(1, true, map["m-1" := 1], [], [], 2, multiset{}, {});
    assert Request(w, b, Load("a.ll", "v1")) == (v, Answer("m-1"));
    assert Remember(w, v, capacity, "a.ll", "v1", "m-1", true) == (v.(cache := [Loaded]), true) by {
      assert [] + [Loaded] == [Loaded] && [Loaded][0..] == [Loaded] && [Loaded][..0] == [];
    }
    assert LoadInput(w, Unstarted, capacity, "a.ll", Some("v1")) == (v.(cache := [Loaded]), Some("m-1"));
    assert [] + [First] == [First];
  }

  lemma SecondRunOpt(capacity: nat)
    ensures Step(UnnoticedDeath, AfterLoadA, capacity, ReloadA) == AfterReloadA
  {
    var w, s := UnnoticedDeath, AfterLoadA;
    assert Find([Loaded], "a.ll") == Some(0);
    var u := s.(clock := 4);
    assert Begin(w, s) == u && [Loaded][..0] + [Loaded][1..] == [] && [] + [Loaded] == [Loaded];
    var v := u.(refs := map["m-1" := 3], clock := 5);
    assert Intern(u.refs, "m-1") == v.refs;
    assert Request(w, u, Load("a.ll", "v2")) == (v, Answer("m-1"));
    var x := Shard(2, true, map[], [Loaded], [First], 6, multiset{}, {});
    assert Request(w, v, Release("m-1")) == (x, Refused);
    var y := x.(cache := [Again], uncovered := multiset{"m-1"});
    assert Remember(w, v, capacity, "a.ll", "v2", "m-1", true) == (y, true) by {
      assert [] + [Again] == [Again];
      assert multiset{} - multiset{"m-1"} == multiset{} && multiset{} + multiset{"m-1"} == multiset{"m-1"};
    }
    assert LoadInput(w, s, capacity, "a.ll", Some("v2")) == (y, Some("m-1"));
  }

  lemma OtherRunOpt()
    ensures Step(UnnoticedDeath, AfterReloadA, 1, LoadC) == AfterLoadC
  {
    hide LoadInput;
    OtherLoaded();
    assert [First] + [Third] == [First, Third];
  }

  /** The load of the third file, up to its entry in the cache. */
  lemma OtherLoaded()
    ensures LoadInput(UnnoticedDeath, AfterReloadA, 1, "c.ll", Some("v1")) ==
            (Shard(2, true, map["m-2" := 1], [Other], [First], 10, multiset{}, {}), Some("m-2"))
  {
    hide Remember;
    var w, s := UnnoticedDeath, AfterReloadA;
    NothingFound();
    var u := s.(clock := 8);
    assert Begin(w, s) == u && [Again] + [] == [Again];
    var v := u.(refs := map["m-2" := 1], clock := 9);
    assert Request(w, u, Load("c.ll", "v1")) == (v, Answer("m-2"));
    OtherRemembered(v);
  }

  lemma NothingFound()
    ensures Find([Again], "c.ll") == None
  {
    assert [Again][..0] == [];
  }

  /** The full cache drops the stamped entry, and its release is refused. */
  lemma OtherRemembered(v: Shard)
    requires v == Shard(2, true, map["m-2" := 1], [Again], [First], 9, multiset{"m-1"}, {})
    ensures Remember(UnnoticedDeath, v, 1, "c.ll", "v1", "m-2", true) ==
            (Shard(2, true, map["m-2" := 1], [Other], [First], 10, multiset{}, {}), true)
  {
    var w, x := UnnoticedDeath, v.(cache := [Other]);
    NothingFound();
    var longer := [Again] + [Other];
    assert longer[1..] == [Other] && [] + longer[..1] == [Again];
    hide Request;
    OtherDropped(x);
  }

  lemma OtherDropped(x: Shard)
    requires x == Shard(2, true, map["m-2" := 1], [Other], [First], 9, multiset{"m-1"}, {})
    ensures ReleaseAll(UnnoticedDeath, x, [Again]) == (x.(clock := 10, uncovered := multiset{}), true)
  {
    var w := UnnoticedDeath;
    assert Request(w, x, Release("m-1")) == (x.(clock := 10), Refused);
    assert [Again][1..] == [] && multiset{"m-1"} - multiset{"m-1"} == multiset{};
  }
}

/** `WorkerPool`: workers are checked out, by anybody or by name, and given back.
    Every method is one critical section of the pool's condition variable, so a
    run of the pool is a sequence of these calls. */
module WorkerPools {
  import opened Basics

  datatype Answer = Worker(id: nat) | Waits | PoolClosed | InvalidWorker

  datatype Call = CheckoutAny | CheckoutWorker(requested: int) | GiveBack(id: nat) | Close

  datatype Pool = Pool(size: nat, available: seq<nat>, held: multiset<nat>, closed: bool)

  function Fresh(size: nat): Pool {
    Pool(size, seq(size, i => i), multiset{}, false)
  }

  function Removed(s: seq<nat>, x: nat): seq<nat> {
    if s == [] then [] else if s[0] == x then s[1..] else [s[0]] + Removed(s[1..], x)
  }

  function Acquire(p: Pool, requested: Option<nat>): (Pool, Answer) {
    if p.closed then (p, PoolClosed)
    else if requested.None? && p.available != [] then
      (p.(available := p.available[1..], held := p.held + multiset{p.available[0]}), Worker(p.available[0]))
    else if requested.Some? && requested.value in p.available then
      (p.(available := Removed(p.available, requested.value), held := p.held + multiset{requested.value}),
       Worker(requested.value))
    else (p, Waits)
  }

  /** One call; only a worker that is held is given back. */
  function Serve(p: Pool, c: Call): (Pool, Answer) {
    match c
    case CheckoutAny => Acquire(p, None)
    case CheckoutWorker(id) => if 0 <= id < p.size then Acquire(p, Some(id)) else (p, InvalidWorker)
    case GiveBack(id) =>
      if id !in p.held then (p, Waits)
      else (p.(available := if p.closed then p.available else p.available + [id], held := p.held - multiset{id}), Waits)
    case Close => (p.(closed := true), Waits)
  }

  function Run(p: Pool, calls: seq<Call>): Pool {
    if calls == [] then p else Serve(Run(p, calls[..|calls| - 1]), calls[|calls| - 1]).0
  }

  /** Nobody shares a worker, the free ones are listed once, and no worker is lost
      while the pool is open. */
  ghost predicate Valid(p: Pool) {
    && Distinct(p.available)
    && (forall w :: p.held[w] <= 1)
    && (forall w :: w in p.held ==> w !in p.available)
    && (forall w :: w in p.available || w in p.held ==> w < p.size)
    && (!p.closed ==> forall w :: 0 <= w < p.size ==> w in p.available || w in p.held)
  }

  lemma {:induction false} RemovedContents(s: seq<nat>, x: nat)
    requires Distinct(s)
    ensures Distinct(Removed(s, x)) && forall y :: y in Removed(s, x) <==> y in s && y != x
  {
    if s != [] {
      assert s == [s[0]] + s[1..];
      forall i, j | 0 <= i < j < |s[1..]| ensures s[1..][i] != s[1..][j] { assert s[i + 1] != s[j + 1]; }
      assert s[0] !in s[1..];
      RemovedContents(s[1..], x);
    }
  }

  lemma ServeKeepsValid(p: Pool, c: Call)
    requires Valid(p)
    ensures Valid(Serve(p, c).0)
  {
    match c
    case CheckoutAny => TakenKeepsValid(p);
    case CheckoutWorker(id) => if id >= 0 { NamedKeepsValid(p, id); }
    case GiveBack(id) => GivenBackKeepsValid(p, id);
    case Close =>
  }

  lemma TakenKeepsValid(p: Pool)
    requires Valid(p)
    ensures Valid(Acquire(p, None).0)
  {
    if p.available != [] {
      var first, rest := p.available[0], p.available[1..];
      assert p.available == [first] + rest;
      forall i, j | 0 <= i < j < |rest| ensures rest[i] != rest[j] { assert p.available[i + 1] != p.available[j + 1]; }
      assert first !in rest;
    }
  }

  lemma NamedKeepsValid(p: Pool, id: nat)
    requires Valid(p)
    ensures Valid(Acquire(p, Some(id)).0)
  {
    RemovedContents(p.available, id);
  }

  lemma GivenBackKeepsValid(p: Pool, id: nat)
    requires Valid(p)
    ensures Valid(Serve(p, GiveBack(id)).0)
  {
  }

  lemma FreshIsValid(size: nat)
    ensures Valid(Fresh(size))
  {
    var all := Fresh(size).available;
    forall w | 0 <= w < size ensures w in all { assert all[w] == w; }
  }

  lemma ServeKeepsSize(p: Pool, c: Call)
    ensures Serve(p, c).0.size == p.size
  {
  }

  /** Over every run of checkouts, named checkouts, releases and close. */
  lemma {:induction false} EveryRunIsValid(size: nat, calls: seq<Call>)
    ensures Valid(Run(Fresh(size), calls)) && Run(Fresh(size), calls).size == size
  {
    hide Valid, Serve;
    if calls == [] {
      FreshIsValid(size);
    } else {
      EveryRunIsValid(size, calls[..|calls| - 1]);
      ServeKeepsValid(Run(Fresh(size), calls[..|calls| - 1]), calls[|calls| - 1]);
      ServeKeepsSize(Run(Fresh(size), calls[..|calls| - 1]), calls[|calls| - 1]);
    }
  }

  /** An open pool refuses a named worker only if somebody holds it, and any worker
      only if all are held; after close nobody gets one and none comes back. */
  lemma WaitingHasAReason(p: Pool, id: nat)
    requires Valid(p) && id < p.size
    ensures !p.closed ==> (Acquire(p, Some(id)).1 == Worker(id) <==> id !in p.held)
    ensures !p.closed ==> (Acquire(p, None).1.Worker? <==> exists w :: 0 <= w < p.size && w !in p.held)
    ensures p.closed ==> forall c :: !Serve(p, c).1.Worker? && Serve(p, c).0.available == p.available
  {
    if !p.closed && p.available != [] {
      assert p.available[0] in p.available;
    }
  }

  lemma {:induction false} RemovedOnce(s: seq<nat>, x: nat)
    ensures x in s ==> exists k :: 0 <= k < |s| && s[k] == x && Removed(s, x) == s[..k] + s[k + 1..]
  {
    if x in s {
      if s[0] == x {
        assert Removed(s, x) == s[..0] + s[1..];
      } else {
        RemovedOnce(s[1..], x);
        var k :| 0 <= k < |s[1..]| && s[1..][k] == x && Removed(s[1..], x) == s[1..][..k] + s[1..][k + 1..];
        assert Removed(s, x) == s[..k + 1] + s[k + 2..];
      }
    }
  }

  /** Calls for any worker hand the free ones out in the order in which they became free;
      what is given back meanwhile comes behind them. */
  lemma {:induction false} FreeWorkersTakeTurns(p: Pool, calls: seq<Call>)
    requires !p.closed && forall c :: c in calls ==> c.CheckoutAny? || c.GiveBack?
    requires |Checkouts(calls)| <= |p.available|
    ensures var (q, taken) := (Run(p, calls), |Checkouts(calls)|);
            && !q.closed && p.available[taken..] <= q.available
            && (taken < |p.available| ==> Serve(q, CheckoutAny).1 == Worker(p.available[taken]))
  {
    hide Serve;
    var taken := |Checkouts(calls)|;
    if calls != [] {
      var init, c := calls[..|calls| - 1], calls[|calls| - 1];
      var before := |Checkouts(init)|;
      FreeWorkersTakeTurns(p, init);
      OneTurn(Run(p, init), p.available[before..], c);
      assert c.CheckoutAny? ==> p.available[before..][1..] == p.available[taken..];
    }
    if taken < |p.available| {
      OneTurn(Run(p, calls), p.available[taken..], CheckoutAny);
    }
  }

  lemma OneTurn(p: Pool, free: seq<nat>, c: Call)
    requires !p.closed && free <= p.available && (c.GiveBack? || (c.CheckoutAny? && free != []))
    ensures var (q, answer) := Serve(p, c);
            && !q.closed && (if c.CheckoutAny? then free[1..] else free) <= q.available
            && (c.CheckoutAny? ==> answer == Worker(free[0]))
  {
    if c.CheckoutAny? {
      assert free[0] == p.available[0];
    }
  }

  function Checkouts(calls: seq<Call>): seq<Call> {
    if calls == [] then []
    else Checkouts(calls[..|calls| - 1]) + if calls[|calls| - 1].CheckoutAny? then [calls[|calls| - 1]] else []
  }

  class WorkerPool {
    const size: nat
    var available: seq<nat>
    var closed: bool
    ghost var held: multiset<nat>

    ghost function Model(): Pool
      reads this
    {
      Pool(size, available, held, closed)
    }

    ghost predicate Consistent()
      reads this
    {
      Valid(Model())
    }

    constructor (size: nat)
      requires size >= 1
      ensures Model() == Fresh(size) && Consistent()
    {
      this.size, available, closed, held := size, seq(size, i => i), false, multiset{};
      new;
      FreshIsValid(size);
    }

    /** `_acquire_worker`, up to the point where it would wait. */
    method AcquireWorker(requested: Option<nat>) returns (answer: Answer)
      modifies this`available, this`held
      ensures (Model(), answer) == Acquire(old(Model()), requested)
      // who has been free longest is handed out first, and the others keep their turn
      ensures requested.None? && !closed && old(available) != [] ==>
                answer == Worker(old(available)[0]) && old(available) == [answer.id] + available
      ensures requested.Some? && !closed && requested.value in old(available) ==>
                && answer == Worker(requested.value)
                && exists k :: 0 <= k < |old(available)| && old(available)[k] == requested.value
                               && available == old(available)[..k] + old(available)[k + 1..]
    {
      if requested.Some? { RemovedOnce(available, requested.value); }
      if closed {
        return PoolClosed;
      }
      answer := Waits;
      if requested.None? && available != [] {
        answer := Worker(available[0]);
        held, available := held + multiset{available[0]}, available[1..];
      } else if requested.Some? && requested.value in available {
        answer := Worker(requested.value);
        held, available := held + multiset{requested.value}, Removed(available, requested.value);
      }
    }

    method Checkout() returns (answer: Answer)
      requires Consistent()
      modifies this`available, this`held
      ensures (Model(), answer) == Serve(old(Model()), CheckoutAny) && Consistent()
      ensures answer.Worker? ==> answer.id !in old(held) && answer.id < size
    {
      ServeKeepsValid(Model(), CheckoutAny);
      answer := AcquireWorker(None);
    }

    method CheckoutNamed(id: int) returns (answer: Answer)
      requires Consistent()
      modifies this`available, this`held
      ensures (Model(), answer) == Serve(old(Model()), CheckoutWorker(id)) && Consistent()
      ensures answer.Worker? ==> answer.id == id && answer.id !in old(held)
    {
      ServeKeepsValid(Model(), CheckoutWorker(id));
      if id < 0 || id >= size {
        return InvalidWorker;
      }
      answer := AcquireWorker(Some(id));
    }

    method ReleaseWorker(id: nat)
      requires Consistent() && id in held
      modifies this`available, this`held
      ensures Model() == Serve(old(Model()), GiveBack(id)).0 && Consistent()
      ensures id !in held && (id in available <==> !closed)
      ensures available == if closed then old(available) else old(available) + [id]
    {
      ServeKeepsValid(Model(), GiveBack(id));
      held := held - multiset{id};
      if !closed {
        available := available + [id];
      }
    }

    method ClosePool()
      requires Consistent()
      modifies this`closed
      ensures Model() == Serve(old(Model()), Close).0 && Consistent()
    {
      ServeKeepsValid(Model(), Close);
      closed := true;
    }
  }
}

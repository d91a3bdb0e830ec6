/** LLVM seen from outside. A program is its text, a pass is its name, and one
    `Toolchain` value gathers what phasebatch asks of the tools: run a pass,
    digest a program, compare two programs.

    The equivalence the evidence is about is given by `meaning`: two programs
    are equivalent when they mean the same. `EquivalencesAreMeanings` shows
    that this loses nothing, every equivalence relation has this form. No code
    reads `meaning`. The three hypotheses relating the tools to it are named,
    so that every theorem can say what it rests on. */
module Toolchains {
  import opened Basics

  datatype Pass = Pass(name: string)

  datatype Ir = Ir(text: string)

  datatype Digest = Digest(hex: string)

  /** An equivalence class of programs. */
  datatype Meaning = Meaning(programs: iset<Ir>)

  /** Outcome of comparing two programs: foldable, different, or no answer. */
  datatype Verdict = Foldable | Different | CompareFailed

  datatype Toolchain = Toolchain(
    apply: (Pass, Ir) -> Option<Ir>,
    digest: Ir -> Digest,
    compare: (Ir, Ir) -> Verdict,
    meaning: Ir -> Meaning)
  {
    /** Run the passes of `order` one after the other; None once a pass fails. */
    function Replay(order: seq<Pass>, ir: Ir): Option<Ir> {
      if order == [] then Some(ir)
      else
        match Replay(order[..|order| - 1], ir)
        case None => None
        case Some(before) => apply(order[|order| - 1], before)
    }

    ghost predicate Equivalent(x: Ir, y: Ir) {
      meaning(x) == meaning(y)
    }

    ghost function OutcomeMeaning(a: Option<Ir>): Option<Meaning> {
      match a
      case None => None
      case Some(x) => Some(meaning(x))
    }

    /** Both runs failed, or both gave equivalent programs. */
    ghost predicate SameOutcome(a: Option<Ir>, b: Option<Ir>) {
      OutcomeMeaning(a) == OutcomeMeaning(b)
    }

    /** A pass fails on both of two equivalent programs, or gives equivalent results. */
    ghost predicate PassesRespectMeaning() {
      forall p, x, y :: Equivalent(x, y) ==> SameOutcome(apply(p, x), apply(p, y))
    }

    ghost predicate DigestDeterminesMeaning() {
      forall x, y :: digest(x) == digest(y) ==> Equivalent(x, y)
    }

    ghost predicate CompareDecidesMeaning() {
      forall x, y :: compare(x, y) != CompareFailed ==> (compare(x, y) == Foldable <==> Equivalent(x, y))
    }

    /** Passes always run and comparisons always answer. */
    ghost predicate NeverFails() {
      (forall p, x :: apply(p, x).Some?) && forall x, y :: compare(x, y) != CompareFailed
    }

    lemma {:induction false} ReplayNeverFails(order: seq<Pass>, ir: Ir)
      requires NeverFails()
      ensures Replay(order, ir).Some?
    {
      if order != [] {
        ReplayNeverFails(order[..|order| - 1], ir);
      }
    }

    ghost predicate Sound() {
      PassesRespectMeaning() && DigestDeterminesMeaning() && CompareDecidesMeaning()
    }

    /** The statement a full factorial check would establish: all n! orders run
        and any two of them end in equivalent programs. */
    ghost predicate AllOrdersEquivalent(root: Ir, passes: seq<Pass>) {
      && (forall order :: Arranges(order, passes) ==> Replay(order, root).Some?)
      && (forall a, b :: Arranges(a, passes) && Arranges(b, passes) ==>
            SameOutcome(Replay(a, root), Replay(b, root)))
    }

    lemma ReplayAppend(order: seq<Pass>, p: Pass, ir: Ir)
      ensures Replay(order + [p], ir) ==
              match Replay(order, ir) { case None => None case Some(x) => apply(p, x) }
    {
      assert (order + [p])[..|order + [p]| - 1] == order;
    }

    lemma {:induction false} ReplayConcat(a: seq<Pass>, b: seq<Pass>, ir: Ir)
      ensures Replay(a + b, ir) ==
              match Replay(a, ir) { case None => None case Some(x) => Replay(b, x) }
    {
      if b == [] {
        assert a + b == a;
      } else {
        var init, last := b[..|b| - 1], b[|b| - 1];
        ReplayConcat(a, init, ir);
        assert a + b == (a + init) + [last];
        ReplayAppend(a + init, last, ir);
      }
    }

    /** All orders agree as soon as each agrees with the canonical one. */
    lemma AgreementWithCanonicalSuffices(root: Ir, passes: seq<Pass>)
      requires Distinct(passes) && Replay(passes, root).Some?
      requires forall order :: Arranges(order, passes) ==> SameOutcome(Replay(passes, root), Replay(order, root))
      ensures AllOrdersEquivalent(root, passes)
    {
      forall order | Arranges(order, passes) ensures Replay(order, root).Some? {
        assert SameOutcome(Replay(passes, root), Replay(order, root));
      }
    }
  }

  /** Any equivalence relation is "means the same" for some meaning. */
  lemma EquivalencesAreMeanings(equiv: (Ir, Ir) -> bool) returns (meaning: Ir -> Meaning)
    requires forall x :: equiv(x, x)
    requires forall x, y :: equiv(x, y) ==> equiv(y, x)
    requires forall x, y, z :: equiv(x, y) && equiv(y, z) ==> equiv(x, z)
    ensures forall x, y :: equiv(x, y) <==> meaning(x) == meaning(y)
  {
    meaning := (x: Ir) => Meaning(iset y | equiv(x, y));
    forall x, y ensures equiv(x, y) <==> meaning(x) == meaning(y) {
      assert y in meaning(y).programs;
      assert y in meaning(x).programs <==> equiv(x, y);
      if equiv(x, y) {
        assert meaning(x).programs == meaning(y).programs;
      }
    }
  }
}

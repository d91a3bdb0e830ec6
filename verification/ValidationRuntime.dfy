/** The memo tables of one state's validation (`ValidationRuntime`): transitions
    are remembered by (source digest, pass), verdicts by an unordered pair of
    digests. Both are keyed by digests, so a hit may hand back work that was
    done on a different program with the same digest. What a table entry is
    evidence for is therefore stated about digests, not about programs. */
module ValidationRuntimes {
  import opened Basics
  import opened Toolchains

  datatype TransitionKey = TransitionKey(source: Digest, pass: Pass)

  datatype Transition = Transition(ir: Ir, digest: Digest)

  /** Some program with digest `source` was taken to `out` by pass `p`. */
  ghost predicate RanTo(tc: Toolchain, source: Digest, p: Pass, out: Ir) {
    exists y :: tc.digest(y) == source && tc.apply(p, y) == Some(out)
  }

  /** Two programs with these digests were compared, with this verdict. */
  ghost predicate Compared(tc: Toolchain, pair: set<Digest>, verdict: Verdict) {
    && verdict != CompareFailed
    && exists x, y :: pair == {tc.digest(x), tc.digest(y)} && tc.compare(x, y) == verdict
  }

  lemma RanToSpeaksForTheSource(tc: Toolchain, x: Ir, p: Pass, out: Ir)
    requires tc.Sound() && RanTo(tc, tc.digest(x), p, out)
    ensures tc.SameOutcome(tc.apply(p, x), Some(out))
  {
    var y :| tc.digest(y) == tc.digest(x) && tc.apply(p, y) == Some(out);
    assert tc.Equivalent(x, y);
    assert tc.SameOutcome(tc.apply(p, x), tc.apply(p, y));
  }

  lemma ComparedSpeaksForThePair(tc: Toolchain, a: Ir, b: Ir, verdict: Verdict)
    requires tc.Sound() && Compared(tc, {tc.digest(a), tc.digest(b)}, verdict)
    ensures verdict == Foldable <==> tc.Equivalent(a, b)
  {
    var x, y :| {tc.digest(a), tc.digest(b)} == {tc.digest(x), tc.digest(y)} && tc.compare(x, y) == verdict;
    var da, db, dx, dy := tc.digest(a), tc.digest(b), tc.digest(x), tc.digest(y);
    assert dx in {da, db} && dy in {da, db} && da in {dx, dy} && db in {dx, dy};
    if dx == da {
      assert dy == db;
      assert tc.Equivalent(a, x) && tc.Equivalent(b, y);
    } else {
      assert dx == db && dy == da;
      assert tc.Equivalent(b, x) && tc.Equivalent(a, y);
    }
  }

  class ValidationRuntime {
    var transitions: map<TransitionKey, Transition>
    var equivalences: map<set<Digest>, Verdict>

    /** Every entry records something that was really computed. */
    ghost predicate Faithful(tc: Toolchain)
      reads this
    {
      && (forall k :: k in transitions ==>
            && transitions[k].digest == tc.digest(transitions[k].ir)
            && RanTo(tc, k.source, k.pass, transitions[k].ir))
      && (forall pair :: pair in equivalences ==> Compared(tc, pair, equivalences[pair]))
    }

    constructor ()
      ensures transitions == map[] && equivalences == map[]
      ensures forall tc :: Faithful(tc)
    {
      transitions, equivalences := map[], map[];
    }

    /** `_seed_runtime_profile_transitions`: single-pass profile outputs of the state's input. */
    method Seed(tc: Toolchain, input: Ir, pass: Pass, output: Ir)
      requires Faithful(tc) && tc.apply(pass, input) == Some(output)
      modifies this
      ensures Faithful(tc) && equivalences == old(equivalences)
      ensures transitions ==
              old(transitions)[TransitionKey(tc.digest(input), pass) := Transition(output, tc.digest(output))]
    {
      transitions := transitions[TransitionKey(tc.digest(input), pass) := Transition(output, tc.digest(output))];
      assert RanTo(tc, tc.digest(input), pass, output);
    }

    /** A hit returns the entry; a miss runs the pass and remembers a success. */
    method GetOrComputeTransition(tc: Toolchain, source: Ir, sourceDigest: Digest, pass: Pass)
      returns (result: Option<Transition>, hit: bool)
      requires Faithful(tc) && sourceDigest == tc.digest(source)
      modifies this
      ensures Faithful(tc) && equivalences == old(equivalences)
      ensures hit <==> TransitionKey(sourceDigest, pass) in old(transitions)
      ensures hit ==> result == Some(old(transitions)[TransitionKey(sourceDigest, pass)])
      ensures !hit ==> (result.Some? <==> tc.apply(pass, source).Some?)
      ensures !hit && result.Some? ==>
                result.value == Transition(tc.apply(pass, source).value, tc.digest(tc.apply(pass, source).value))
      ensures transitions ==
              if hit || result.None? then old(transitions)
              else old(transitions)[TransitionKey(sourceDigest, pass) := result.value]
      ensures result.Some? ==>
                && result.value.digest == tc.digest(result.value.ir)
                && RanTo(tc, sourceDigest, pass, result.value.ir)
    {
      var key := TransitionKey(sourceDigest, pass);
      hit := key in transitions;
      if hit {
        result := Some(transitions[key]);
        return;
      }
      match tc.apply(pass, source)
      case None =>
        result := None;
      case Some(out) =>
        var transition := Transition(out, tc.digest(out));
        assert RanTo(tc, sourceDigest, pass, out);
        transitions := transitions[key := transition];
        result := Some(transition);
    }

    /** Failed comparisons are not remembered. */
    method GetOrComputeEquivalence(tc: Toolchain, left: Ir, right: Ir) returns (verdict: Verdict)
      requires Faithful(tc)
      modifies this
      ensures Faithful(tc) && transitions == old(transitions)
      ensures verdict != CompareFailed ==> Compared(tc, {tc.digest(left), tc.digest(right)}, verdict)
      ensures verdict == CompareFailed ==> tc.compare(left, right) == CompareFailed
      ensures {tc.digest(left), tc.digest(right)} in old(equivalences) ==>
                verdict == old(equivalences)[{tc.digest(left), tc.digest(right)}]
      ensures {tc.digest(left), tc.digest(right)} !in old(equivalences) ==> verdict == tc.compare(left, right)
      ensures equivalences ==
              if {tc.digest(left), tc.digest(right)} in old(equivalences) || verdict == CompareFailed
              then old(equivalences)
              else old(equivalences)[{tc.digest(left), tc.digest(right)} := verdict]
    {
      var pair := {tc.digest(left), tc.digest(right)};
      if pair in equivalences {
        verdict := equivalences[pair];
        return;
      }
      verdict := tc.compare(left, right);
      if verdict != CompareFailed {
        assert Compared(tc, pair, verdict);
        equivalences := equivalences[pair := verdict];
      }
    }
  }
}

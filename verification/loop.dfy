/** The two loops behind `rounds`, over any round function: run a fixed
    number of rounds adding up their results, or stop at the first round the
    state refuses. */
module Loop {
  import opened Outcome

  /** Adds `t` to the total of a successful run; failures pass through. */
  function Extend<S>(t: real, r: Result<(real, S)>): Result<(real, S)>
  {
    match r
    case Failure(e) => Failure(e)
    case Success(p) => Success((t + p.0, p.1))
  }

  /** n rounds from `x`, their results added up; the first failing round
      ends the loop with its error. */
  function SumOf<S>(round: S -> Result<(real, S)>, x: S, n: nat): Result<(real, S)>
    decreases n
  {
    if n == 0 then Success((0.0, x))
    else
      match round(x)
      case Failure(e) => Failure(e)
      case Success(first) => Extend(first.0, SumOf(round, first.1, n - 1))
  }

  /** Up to n rounds from `x`, each preceded by asking the state whether it accepts; the
      first refusal ends the loop with the partial sum. */
  function UntilRefused<S>(round: S -> Result<(real, S)>, accepts: S -> bool, x: S, n: nat): Result<(real, S)>
    decreases n
  {
    if n == 0 || !accepts(x) then Success((0.0, x))
    else
      match round(x)
      case Failure(e) => Failure(e)
      case Success(first) => Extend(first.0, UntilRefused(round, accepts, first.1, n - 1))
  }

  lemma ExtendTwice<S>(t0: real, t1: real, r: Result<(real, S)>)
    ensures Extend(t0, Extend(t1, r)) == Extend(t0 + t1, r)
  {
  }

  lemma ExtendZero<S>(r: Result<(real, S)>)
    ensures Extend(0.0, r) == r
  {
    if r.Success? {
      assert r.value == (r.value.0, r.value.1);
    }
  }

  /** The total cost of n rounds from `x`, or nothing if one of them fails. */
  function Cost<S>(round: S -> Result<(real, S)>, x: S, n: nat): (c: Option<real>)
    ensures c.Some? <==> SumOf(round, x, n).Success?
    ensures c.Some? ==> c.value == SumOf(round, x, n).value.0
  {
    match SumOf(round, x, n)
    case Failure(_) => None
    case Success(p) => Some(p.0)
  }

  /** A first round costing `t` followed by n - 1 rounds costing `u` is a
      run of n rounds costing `t + u`. */
  lemma CostAfterStep<S>(round: S -> Result<(real, S)>, x: S, n: nat, t: real, y: S, u: real)
    requires n > 0 && round(x) == Success((t, y))
    requires Cost(round, y, n - 1) == Some(u)
    ensures Cost(round, x, n) == Some(t + u)
  {
  }

  /** n + m rounds are n rounds followed by m rounds, results added. */
  lemma {:induction false} SumOfAdditive<S>(round: S -> Result<(real, S)>, x: S, n: nat, m: nat)
    ensures SumOf(round, x, n).Failure? ==> SumOf(round, x, n + m) == SumOf(round, x, n)
    ensures SumOf(round, x, n).Success? ==>
      SumOf(round, x, n + m) == Extend(SumOf(round, x, n).value.0, SumOf(round, SumOf(round, x, n).value.1, m))
    decreases n
  {
    if n == 0 {
      ExtendZero(SumOf(round, x, m));
    } else if round(x).Success? {
      var first := round(x).value;
      SumOfAdditive(round, first.1, n - 1, m);
      assert n + m - 1 == (n - 1) + m;
      var inner := SumOf(round, first.1, n - 1);
      if inner.Success? {
        ExtendTwice(first.0, inner.value.0, SumOf(round, inner.value.1, m));
      }
    }
  }

  /** The same for the loop that stops at the first refusal: once stopped,
      the further rounds stop at once. */
  lemma {:induction false} UntilRefusedAdditive<S>(round: S -> Result<(real, S)>, accepts: S -> bool, x: S, n: nat, m: nat)
    ensures UntilRefused(round, accepts, x, n).Failure? ==>
      UntilRefused(round, accepts, x, n + m) == UntilRefused(round, accepts, x, n)
    ensures UntilRefused(round, accepts, x, n).Success? ==>
      UntilRefused(round, accepts, x, n + m)
        == Extend(UntilRefused(round, accepts, x, n).value.0,
                  UntilRefused(round, accepts, UntilRefused(round, accepts, x, n).value.1, m))
    decreases n
  {
    if n == 0 || !accepts(x) {
      ExtendZero(UntilRefused(round, accepts, x, m));
      if n > 0 {
        assert UntilRefused(round, accepts, x, n) == Success((0.0, x));
        if m > 0 {
          assert UntilRefused(round, accepts, x, m) == Success((0.0, x));
        }
      }
    } else if round(x).Success? {
      var first := round(x).value;
      UntilRefusedAdditive(round, accepts, first.1, n - 1, m);
      assert n + m - 1 == (n - 1) + m;
      var inner := UntilRefused(round, accepts, first.1, n - 1);
      if inner.Success? {
        ExtendTwice(first.0, inner.value.0, UntilRefused(round, accepts, inner.value.1, m));
      }
    }
  }

  /** An invariant every successful round keeps, and a count every
      successful round raises by one, across n rounds: the final state keeps
      the invariant and the count rose by exactly n. An error no round of an
      invariant state raises is not raised by the loop either. */
  lemma {:induction false} SumOfInvariant<S>(round: S -> Result<(real, S)>, inv: S -> bool, count: S -> int,
                                             avoid: Error, x: S, n: nat)
    requires inv(x)
    requires forall y :: inv(y) && round(y).Success? ==>
      inv(round(y).value.1) && count(round(y).value.1) == count(y) + 1
    requires forall y :: inv(y) && round(y).Failure? ==> round(y).error != avoid
    ensures SumOf(round, x, n).Failure? ==> SumOf(round, x, n).error != avoid
    ensures SumOf(round, x, n).Success? ==>
      inv(SumOf(round, x, n).value.1) && count(SumOf(round, x, n).value.1) == count(x) + n
    decreases n
  {
    if n > 0 && round(x).Success? {
      SumOfInvariant(round, inv, count, avoid, round(x).value.1, n - 1);
    }
  }

  /** The same for the loop that stops at the first refusal: the count rose
      by at most n, and by less only when the final state refuses. */
  lemma {:induction false} UntilRefusedInvariant<S>(round: S -> Result<(real, S)>, accepts: S -> bool, inv: S -> bool,
                                                    count: S -> int, avoid: Error, x: S, n: nat)
    requires inv(x)
    requires forall y :: inv(y) && accepts(y) && round(y).Success? ==>
      inv(round(y).value.1) && count(round(y).value.1) == count(y) + 1
    requires forall y :: inv(y) && accepts(y) && round(y).Failure? ==> round(y).error != avoid
    ensures UntilRefused(round, accepts, x, n).Failure? ==> UntilRefused(round, accepts, x, n).error != avoid
    ensures UntilRefused(round, accepts, x, n).Success? ==>
      var y := UntilRefused(round, accepts, x, n).value.1;
      && inv(y) && count(x) <= count(y) <= count(x) + n
      && (count(y) < count(x) + n ==> !accepts(y))
    decreases n
  {
    if n > 0 && accepts(x) && round(x).Success? {
      UntilRefusedInvariant(round, accepts, inv, count, avoid, round(x).value.1, n - 1);
    }
  }

  /** Rounds that always succeed at no cost from states of an invariant they
      keep: any number of them costs nothing. */
  lemma {:induction false} SumOfFree<S>(round: S -> Result<(real, S)>, inv: S -> bool, x: S, n: nat)
    requires inv(x)
    requires forall y :: inv(y) ==> round(y).Success? && round(y).value.0 == 0.0 && inv(round(y).value.1)
    ensures SumOf(round, x, n).Success? && SumOf(round, x, n).value.0 == 0.0
    decreases n
  {
    if n > 0 {
      SumOfFree(round, inv, round(x).value.1, n - 1);
    }
  }

  /** Two round functions that agree step by step on related states agree
      over n rounds: the same error, or the same total and related final
      states. */
  lemma {:induction false} SumOfSimulation<S, T>(r1: S -> Result<(real, S)>, r2: T -> Result<(real, T)>,
                                                  rel: (S, T) -> bool, x: S, y: T, n: nat)
    requires rel(x, y)
    requires forall a, b :: rel(a, b) ==>
      && (r1(a).Success? <==> r2(b).Success?)
      && (r1(a).Failure? ==> r1(a).error == r2(b).error)
      && (r1(a).Success? ==> r1(a).value.0 == r2(b).value.0 && rel(r1(a).value.1, r2(b).value.1))
    ensures SumOf(r1, x, n).Success? <==> SumOf(r2, y, n).Success?
    ensures SumOf(r1, x, n).Failure? ==> SumOf(r1, x, n).error == SumOf(r2, y, n).error
    ensures SumOf(r1, x, n).Success? ==>
      SumOf(r1, x, n).value.0 == SumOf(r2, y, n).value.0 && rel(SumOf(r1, x, n).value.1, SumOf(r2, y, n).value.1)
    decreases n
  {
    if n > 0 && r1(x).Success? {
      SumOfSimulation(r1, r2, rel, r1(x).value.1, r2(y).value.1, n - 1);
    }
  }
}

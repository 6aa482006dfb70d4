/** The explore-then-commit bandit (`ExploreThenCommitBandit`): round-robin
    exploration for `nArms * nEpochs` pulls, then an irreversible commitment
    to the first arm of maximal total reward. */
module ExploreThenCommit {
  import opened Outcome
  import Reals
  import RewardAccumulator

  datatype State = State(
    nArms: nat,
    nEpochs: int,
    currentRound: nat,
    remainingEpochs: int,
    bestArm: Option<nat>,
    acc: RewardAccumulator.Accumulator)

  /** The number of exploration pulls, `n_arms * n_epochs` (negative when a
      negative epoch count is given). */
  function Horizon(s: State): int {
    s.nArms * s.nEpochs
  }

  /** The round at which the commit pull happens: the horizon, or 0 when the
      horizon is negative. */
  function CommitRound(s: State): nat {
    if Horizon(s) < 0 then 0 else Horizon(s)
  }

  /** What the fields of the bandit always satisfy. The epoch counter tracks
      the round counter; the bandit is committed exactly once the commit pull
      happened, and then to the first arg-maximum of the (then frozen)
      totals. */
  predicate Valid(s: State) {
    && RewardAccumulator.Valid(s.acc)
    && |s.acc.counts| == s.nArms
    && (s.nArms == 0 ==> s.currentRound == 0 && s.remainingEpochs == s.nEpochs)
    && (s.nArms > 0 ==> s.remainingEpochs == s.nEpochs - s.currentRound / s.nArms)
    && (s.bestArm.None? <==> s.currentRound <= CommitRound(s))
    && (s.bestArm.Some? ==> |s.acc.totals| > 0 && s.bestArm.value == Reals.FirstArgMax(s.acc.totals))
  }

  /** A new bandit. Without an explicit epoch count it explores for one
      epoch; an explicit count, zero or negative included, is used as is.
      (The gap/horizon way of choosing the count is not modelled.) */
  function Init(nArms: nat, nEpochs: Option<int>): (s: State)
    ensures Valid(s)
    ensures s.nArms == nArms && s.currentRound == 0 && s.bestArm.None?
    ensures nEpochs.None? ==> s.nEpochs == 1 && Horizon(s) == nArms
    ensures nEpochs.Some? ==> s.nEpochs == nEpochs.value
    ensures s.acc == RewardAccumulator.Init(nArms)
  {
    var e := if nEpochs.Some? then nEpochs.value else 1;
    State(nArms, e, 0, e, None, RewardAccumulator.Init(nArms))
  }

  /** If x == q * n + m with 0 <= m < n, then x / n == q. */
  lemma DivUnique(x: nat, n: nat, q: nat, m: nat)
    requires n > 0 && m < n && x == q * n + m
    ensures x / n == q
  {
    var q' := x / n;
    var m' := x % n;
    var d: int := q' - q;
    assert q' * n + m' == q * n + m;
    assert d * n == m - m' by {
      assert d * n == q' * n - q * n;
    }
  }

  /** One more round: the epoch counter drops whenever the round counter
      reaches a multiple of the number of arms. */
  lemma {:induction false} EpochStep(r: nat, n: nat)
    requires n > 0
    ensures (r + 1) / n == r / n + (if (r + 1) % n == 0 then 1 else 0)
  {
    var q := r / n;
    var m := r % n;
    assert r == q * n + m;
    if m + 1 == n {
      assert r + 1 == (q + 1) * n + 0;
      DivUnique(r + 1, n, q + 1, 0);
    } else {
      assert r + 1 == q * n + (m + 1);
      DivUnique(r + 1, n, q, m + 1);
    }
  }

  /** `_next_round`: advances the round counter by one and keeps the epoch
      counter in step with it. */
  function NextRound(s: State): (t: State)
    requires Valid(s) && s.nArms > 0
    ensures t.currentRound == s.currentRound + 1
    ensures t.remainingEpochs == s.nEpochs - t.currentRound / s.nArms
    ensures t == s.(currentRound := t.currentRound, remainingEpochs := t.remainingEpochs)
  {
    EpochStep(s.currentRound, s.nArms);
    var r := s.currentRound + 1;
    if r % s.nArms == 0 then s.(currentRound := r, remainingEpochs := s.remainingEpochs - 1)
    else s.(currentRound := r)
  }

  /** `pull`: the next arm to play. During exploration it is the round
      counter modulo the number of arms, whatever the rewards; the first pull
      after exploration commits to the first arm of maximal total reward, and
      every later pull returns that arm. A bandit without arms cannot pull:
      the maximum of its empty totals fails. */
  function Pull(s: State): (res: Result<(nat, State)>)
    requires Valid(s)
    ensures res.Success? <==> s.nArms > 0
    ensures res.Failure? ==> res.error == EmptyMaximum
    ensures res.Success? ==>
      var (arm, t) := res.value;
      && arm < s.nArms
      && Valid(t)
      && t.currentRound == s.currentRound + 1
      && t.nArms == s.nArms && t.nEpochs == s.nEpochs && t.acc == s.acc
    ensures res.Success? && s.currentRound < Horizon(s) ==>
      res.value.0 == s.currentRound % s.nArms && res.value.1.bestArm.None?
    ensures res.Success? && s.currentRound >= Horizon(s) ==>
      && res.value.1.bestArm == Some(res.value.0)
      && (forall j :: 0 <= j < s.nArms ==> s.acc.totals[j] <= s.acc.totals[res.value.0])
      && (forall j :: 0 <= j < res.value.0 ==> s.acc.totals[j] < s.acc.totals[res.value.0])
    ensures res.Success? && s.bestArm.Some? ==>
      res.value.0 == s.bestArm.value && res.value.1.bestArm == s.bestArm
  {
    if s.currentRound < Horizon(s) then
      Success((s.currentRound % s.nArms, NextRound(s)))
    else if s.bestArm.Some? then
      Success((s.bestArm.value, NextRound(s)))
    else if |s.acc.totals| == 0 then
      Failure(EmptyMaximum)
    else
      var best := Reals.FirstArgMax(s.acc.totals);
      Success((best, NextRound(s).(bestArm := Some(best))))
  }

  /** `reward`: recorded while the round counter is at most the horizon, so
      the reward for the last exploration pull still counts; once the commit
      pull has happened it is ignored. Only the accumulator changes. */
  function Reward(s: State, arm: nat, reward: real): (res: Result<State>)
    requires Valid(s)
    ensures res.Success? ==> Valid(res.value) && res.value == s.(acc := res.value.acc)
    ensures s.currentRound > Horizon(s) ==> res == Success(s)
    ensures s.currentRound <= Horizon(s) ==> (res.Success? <==> arm < s.nArms)
    ensures s.currentRound <= Horizon(s) && res.Success? ==>
      && res.value.acc.counts[arm] == s.acc.counts[arm] + 1
      && res.value.acc.totals[arm] == s.acc.totals[arm] + reward
      && forall i :: 0 <= i < s.nArms && i != arm ==>
           res.value.acc.counts[i] == s.acc.counts[i] && res.value.acc.totals[i] == s.acc.totals[i]
  {
    if s.currentRound <= Horizon(s) then
      var acc :- RewardAccumulator.Record(s.acc, arm, reward);
      Success(s.(acc := acc))
    else
      Success(s)
  }

  /** A call made on the bandit by its caller. */
  datatype Step = PullStep | RewardStep(arm: nat, reward: real)

  /** The pulls-only script of length k. */
  function Pulls(k: nat): (steps: seq<Step>)
    ensures |steps| == k && forall i :: 0 <= i < k ==> steps[i] == PullStep
  {
    seq(k, _ => PullStep)
  }

  /** The number of pulls in a script. */
  function PullCount(steps: seq<Step>): nat
    decreases |steps|
  {
    if |steps| == 0 then 0
    else PullCount(steps[..|steps| - 1]) + (if steps[|steps| - 1].PullStep? then 1 else 0)
  }

  /** A pulls-only script of length k holds k pulls. */
  lemma {:induction false} PullsCount(k: nat)
    ensures PullCount(Pulls(k)) == k
  {
    if k > 0 {
      assert Pulls(k)[..k - 1] == Pulls(k - 1);
      PullsCount(k - 1);
    }
  }

  /** Runs a script of calls in order, collecting the pulled arms: one arm
      per pull. */
  function Run(s: State, steps: seq<Step>): (res: Result<(seq<nat>, State)>)
    requires Valid(s)
    ensures res.Success? ==> Valid(res.value.1) && res.value.1.nArms == s.nArms && res.value.1.nEpochs == s.nEpochs
    ensures res.Success? ==> |res.value.0| == PullCount(steps)
    decreases |steps|
  {
    if |steps| == 0 then Success(([], s))
    else
      var prev :- Run(s, steps[..|steps| - 1]);
      match steps[|steps| - 1]
      case PullStep =>
        var next :- Pull(prev.1);
        Success((prev.0 + [next.0], next.1))
      case RewardStep(arm, reward) =>
        var t :- Reward(prev.1, arm, reward);
        Success((prev.0, t))
  }

  /** During exploration the bandit plays round-robin: k pulls from round r
      return arms r, r+1, ... modulo the number of arms, stay uncommitted
      and leave the statistics alone. */
  lemma {:induction false} RoundRobin(s: State, k: nat)
    requires Valid(s) && s.nArms > 0
    requires s.currentRound + k <= Horizon(s)
    ensures Run(s, Pulls(k)).Success?
    ensures var (arms, t) := Run(s, Pulls(k)).value;
      && |arms| == k
      && (forall i :: 0 <= i < k ==> arms[i] == (s.currentRound + i) % s.nArms)
      && t.currentRound == s.currentRound + k
      && t.bestArm.None?
      && t.acc == s.acc
  {
    if k > 0 {
      assert Pulls(k)[..k - 1] == Pulls(k - 1);
      RoundRobin(s, k - 1);
    }
  }

  /** Once committed, the bandit stays committed: whatever pulls and rewards
      follow, every pull returns the committed arm, the arm is never
      reassigned and late rewards change no statistic. */
  lemma {:induction false} CommitmentIsFinal(s: State, steps: seq<Step>)
    requires Valid(s) && s.bestArm.Some?
    ensures Run(s, steps).Success?
    ensures var (arms, t) := Run(s, steps).value;
      && (forall i :: 0 <= i < |arms| ==> arms[i] == s.bestArm.value)
      && t.bestArm == s.bestArm
      && t.acc == s.acc
      && t.currentRound >= s.currentRound
  {
    if |steps| > 0 {
      CommitmentIsFinal(s, steps[..|steps| - 1]);
    }
  }

  /** Exactly `nArms * nEpochs` pulls precede the commit pull: after them a
      fresh bandit is still uncommitted, and the next pull commits. */
  lemma ExplorationLength(nArms: nat, nEpochs: nat)
    requires nArms > 0
    ensures var s := Init(nArms, Some(nEpochs));
      && Run(s, Pulls(nArms * nEpochs)).Success?
      && Run(s, Pulls(nArms * nEpochs)).value.1.bestArm.None?
      && Run(s, Pulls(nArms * nEpochs + 1)).Success?
      && Run(s, Pulls(nArms * nEpochs + 1)).value.1.bestArm.Some?
  {
    var s := Init(nArms, Some(nEpochs));
    RoundRobin(s, nArms * nEpochs);
    assert Pulls(nArms * nEpochs + 1)[..nArms * nEpochs] == Pulls(nArms * nEpochs);
  }

  /** The `<=` in `reward` is the right bound: the reward for the last
      exploration pull, which arrives with the round counter at the horizon,
      is recorded; any reward after the commit pull is dropped. */
  lemma LastExplorationRewardCounts(s: State, r: real, late: nat, x: real)
    requires Valid(s) && s.nArms > 0
    requires s.currentRound + 1 == Horizon(s)
    ensures Pull(s).Success?
    ensures var (arm, t) := Pull(s).value;
      && t.currentRound == Horizon(s)
      && Reward(t, arm, r).Success?
      && Reward(t, arm, r).value.acc.counts[arm] == s.acc.counts[arm] + 1
      && var u := Reward(t, arm, r).value;
         && Pull(u).Success?
         && Reward(Pull(u).value.1, late, x) == Success(Pull(u).value.1)
  {
  }
}

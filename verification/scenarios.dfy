/** Concrete runs of the model that pin down the behaviour the repository's
    tests and design describe. */
module Scenarios {
  import opened Outcome
  import Reals
  import Etc = ExploreThenCommit
  import RewardAccumulator
  import Env = Environments
  import Bandits
  import Experiments
  import Loop

  /** From round zero, k exploration pulls on two arms alternate 0, 1, 0, ... */
  lemma Alternating(s: Etc.State, k: nat)
    requires Etc.Valid(s) && s.nArms == 2 && s.currentRound == 0 && k <= Etc.Horizon(s)
    ensures Etc.Run(s, Etc.Pulls(k)).Success?
    ensures var (arms, t) := Etc.Run(s, Etc.Pulls(k)).value;
      && |arms| == k
      && (forall i :: 0 <= i < k ==> arms[i] == i % 2)
      && t.currentRound == k && t.bestArm.None?
  {
    Etc.RoundRobin(s, k);
  }

  /** The alternating sequences of lengths two and six, written out. */
  lemma AlternatingLiterals(a: seq<nat>)
    requires forall i :: 0 <= i < |a| ==> a[i] == i % 2
    ensures |a| == 2 ==> a == [0, 1]
    ensures |a| == 6 ==> a == [0, 1, 0, 1, 0, 1]
  {
  }

  /** Three pulls of a committed bandit return the committed arm three times. */
  lemma ThreeCommittedPulls(u: Etc.State)
    requires Etc.Valid(u) && u.bestArm.Some?
    ensures Etc.Run(u, Etc.Pulls(3)).Success?
    ensures var c := u.bestArm.value; Etc.Run(u, Etc.Pulls(3)).value.0 == [c, c, c]
  {
    Etc.CommitmentIsFinal(u, Etc.Pulls(3));
    Etc.PullsCount(3);
  }

  /** The pull after exploration commits to one of the two arms. */
  lemma CommitsAfterExploration(t: Etc.State)
    requires Etc.Valid(t) && t.nArms == 2 && t.currentRound == Etc.Horizon(t)
    ensures Etc.Pull(t).Success?
    ensures var (c, u) := Etc.Pull(t).value; c < 2 && u.bestArm == Some(c)
  {
  }

  /** Two arms from round zero: alternate through the horizon, then commit
      to one arm and keep playing it. */
  lemma TwoArmsPlay(s: Etc.State, k: nat)
    requires Etc.Valid(s) && s.nArms == 2 && s.currentRound == 0 && Etc.Horizon(s) == k
    ensures Etc.Run(s, Etc.Pulls(k)).Success?
    ensures var (arms, t) := Etc.Run(s, Etc.Pulls(k)).value;
      && (forall i :: 0 <= i < |arms| ==> arms[i] == i % 2) && |arms| == k
      && Etc.Pull(t).Success?
      && var (c, u) := Etc.Pull(t).value;
         && c < 2
         && Etc.Run(u, Etc.Pulls(3)).Success?
         && Etc.Run(u, Etc.Pulls(3)).value.0 == [c, c, c]
  {
    Alternating(s, k);
    var t := Etc.Run(s, Etc.Pulls(k)).value.1;
    CommitsAfterExploration(t);
    ThreeCommittedPulls(Etc.Pull(t).value.1);
  }

  /** Two arms, one epoch (the default of `Etc.Init(2, None)`), from round
      zero: the pulls are 0, 1, then one arm repeated. */
  lemma TwoArmsOneEpoch(s: Etc.State)
    requires Etc.Valid(s) && s.nArms == 2 && s.nEpochs == 1 && s.currentRound == 0
    ensures Etc.Run(s, Etc.Pulls(2)).Success?
    ensures Etc.Run(s, Etc.Pulls(2)).value.0 == [0, 1]
    ensures var t := Etc.Run(s, Etc.Pulls(2)).value.1;
      && Etc.Pull(t).Success?
      && var (c, u) := Etc.Pull(t).value;
         && c < 2
         && Etc.Run(u, Etc.Pulls(3)).Success?
         && Etc.Run(u, Etc.Pulls(3)).value.0 == [c, c, c]
  {
    TwoArmsPlay(s, 2);
    AlternatingLiterals(Etc.Run(s, Etc.Pulls(2)).value.0);
  }

  /** Two arms, three epochs (as `Etc.Init(2, Some(3))`), from round zero:
      six alternating pulls, then one arm repeated. */
  lemma TwoArmsThreeEpochs(s: Etc.State)
    requires Etc.Valid(s) && s.nArms == 2 && s.nEpochs == 3 && s.currentRound == 0
    ensures Etc.Run(s, Etc.Pulls(6)).Success?
    ensures Etc.Run(s, Etc.Pulls(6)).value.0 == [0, 1, 0, 1, 0, 1]
    ensures var t := Etc.Run(s, Etc.Pulls(6)).value.1;
      && Etc.Pull(t).Success?
      && var (c, u) := Etc.Pull(t).value;
         && c < 2
         && Etc.Run(u, Etc.Pulls(3)).Success?
         && Etc.Run(u, Etc.Pulls(3)).value.0 == [c, c, c]
  {
    TwoArmsPlay(s, 6);
    AlternatingLiterals(Etc.Run(s, Etc.Pulls(6)).value.0);
  }

  /** One exploration round appended to a script: the pull returns the
      round-robin arm and the reward that follows is recorded for it. */
  lemma ExploreRound(s: Etc.State, steps: seq<Etc.Step>, arm: nat, r: real)
    requires Etc.Valid(s) && Etc.Run(s, steps).Success?
    requires var t := Etc.Run(s, steps).value.1;
      t.nArms > 0 && t.currentRound < Etc.Horizon(t) && arm == t.currentRound % t.nArms
    ensures var (arms, t) := Etc.Run(s, steps).value;
      && Etc.Run(s, steps + [Etc.PullStep, Etc.RewardStep(arm, r)]).Success?
      && var (arms', t') := Etc.Run(s, steps + [Etc.PullStep, Etc.RewardStep(arm, r)]).value;
         && arms' == arms + [arm]
         && t'.currentRound == t.currentRound + 1 && t'.bestArm.None?
         && t'.acc == RewardAccumulator.Record(t.acc, arm, r).value
  {
    var (arms, t) := Etc.Run(s, steps).value;
    var one := steps + [Etc.PullStep];
    var two := one + [Etc.RewardStep(arm, r)];
    assert one[..|one| - 1] == steps;
    var (arm1, t1) := Etc.Pull(t).value;
    assert Etc.Run(s, one) == Success((arms + [arm1], t1));
    assert two[..|two| - 1] == one;
    assert Etc.Run(s, two) == Success((arms + [arm1], Etc.Reward(t1, arm, r).value));
    assert two == steps + [Etc.PullStep, Etc.RewardStep(arm, r)];
  }

  /** The fresh three-arm bandit of the test. */
  predicate FreshThreeArms(s: Etc.State) {
    && Etc.Valid(s) && s.nArms == 3 && s.nEpochs == 1 && s.currentRound == 0
    && forall i :: 0 <= i < 3 ==> s.acc.counts[i] == 0 && s.acc.totals[i] == 0.0
  }

  /** The first exploration round of the three-arm test: arm 0 pays 10. */
  lemma ThreeArmsFirst(s: Etc.State)
    requires FreshThreeArms(s)
    ensures Etc.Run(s, [Etc.PullStep, Etc.RewardStep(0, 10.0)]).Success?
    ensures var (arms, t) := Etc.Run(s, [Etc.PullStep, Etc.RewardStep(0, 10.0)]).value;
      && arms == [0] && t.currentRound == 1 && t.bestArm.None? && t.nArms == 3 && t.nEpochs == 1
      && t.acc == RewardAccumulator.Record(s.acc, 0, 10.0).value
  {
    ExploreRound(s, [], 0, 10.0);
    assert [] + [Etc.PullStep, Etc.RewardStep(0, 10.0)] == [Etc.PullStep, Etc.RewardStep(0, 10.0)];
  }

  /** The second: arm 1 pays 0. */
  lemma ThreeArmsSecond(s: Etc.State)
    requires FreshThreeArms(s)
    ensures var e2 := [Etc.PullStep, Etc.RewardStep(0, 10.0)] + [Etc.PullStep, Etc.RewardStep(1, 0.0)];
      && Etc.Run(s, e2).Success?
      && var (arms, t) := Etc.Run(s, e2).value;
         && arms == [0, 1] && t.currentRound == 2 && t.bestArm.None? && t.nArms == 3 && t.nEpochs == 1
         && t.acc == RewardAccumulator.Record(RewardAccumulator.Record(s.acc, 0, 10.0).value, 1, 0.0).value
  {
    ThreeArmsFirst(s);
    ExploreRound(s, [Etc.PullStep, Etc.RewardStep(0, 10.0)], 1, 0.0);
  }

  /** The third: arm 2 pays 5. */
  lemma ThreeArmsThird(s: Etc.State)
    requires FreshThreeArms(s)
    ensures var e3 := [Etc.PullStep, Etc.RewardStep(0, 10.0)] + [Etc.PullStep, Etc.RewardStep(1, 0.0)]
                      + [Etc.PullStep, Etc.RewardStep(2, 5.0)];
      && Etc.Run(s, e3).Success?
      && var (arms, t) := Etc.Run(s, e3).value;
         && arms == [0, 1, 2] && t.currentRound == 3 && t.bestArm.None? && t.nArms == 3 && t.nEpochs == 1
         && t.acc == RewardAccumulator.Record(RewardAccumulator.Record(
                       RewardAccumulator.Record(s.acc, 0, 10.0).value, 1, 0.0).value, 2, 5.0).value
  {
    ThreeArmsSecond(s);
    ExploreRound(s, [Etc.PullStep, Etc.RewardStep(0, 10.0)] + [Etc.PullStep, Etc.RewardStep(1, 0.0)], 2, 5.0);
  }

  /** The exploration half of the three-arm test: rewards 10, 0 and 5 for
      arms 0, 1 and 2 are all recorded. */
  lemma ThreeArmsExplored(s: Etc.State)
    requires FreshThreeArms(s)
    ensures var explore := [Etc.PullStep, Etc.RewardStep(0, 10.0), Etc.PullStep, Etc.RewardStep(1, 0.0),
                            Etc.PullStep, Etc.RewardStep(2, 5.0)];
      && Etc.Run(s, explore).Success?
      && var (arms, t) := Etc.Run(s, explore).value;
         && arms == [0, 1, 2]
         && t.acc.counts == [1, 1, 1]
         && t.acc.totals == [10.0, 0.0, 5.0]
         && t.nArms == 3 && t.currentRound == 3 && t.bestArm.None? && Etc.Horizon(t) == 3
  {
    ThreeArmsThird(s);
    ThreeRoundScript();
    ThreeRecords(s.acc);
  }

  /** The three-arm test's script, one exploration round at a time. */
  lemma ThreeRoundScript()
    ensures [Etc.PullStep, Etc.RewardStep(0, 10.0)] + [Etc.PullStep, Etc.RewardStep(1, 0.0)]
              + [Etc.PullStep, Etc.RewardStep(2, 5.0)]
         == [Etc.PullStep, Etc.RewardStep(0, 10.0), Etc.PullStep, Etc.RewardStep(1, 0.0),
             Etc.PullStep, Etc.RewardStep(2, 5.0)]
  {
  }

  /** Recording 10, 0 and 5 for arms 0, 1 and 2 of a fresh three-arm
      accumulator. */
  lemma ThreeRecords(a: RewardAccumulator.Accumulator)
    requires RewardAccumulator.Valid(a) && |a.counts| == 3
    requires forall i :: 0 <= i < 3 ==> a.counts[i] == 0 && a.totals[i] == 0.0
    ensures var b := RewardAccumulator.Record(RewardAccumulator.Record(
                       RewardAccumulator.Record(a, 0, 10.0).value, 1, 0.0).value, 2, 5.0).value;
      b.counts == [1, 1, 1] && b.totals == [10.0, 0.0, 5.0]
  {
    var b1 := RewardAccumulator.Record(a, 0, 10.0).value;
    var b2 := RewardAccumulator.Record(b1, 1, 0.0).value;
    var b3 := RewardAccumulator.Record(b2, 2, 5.0).value;
    assert b3.counts[0] == 1 && b3.counts[1] == 1 && b3.counts[2] == 1;
    assert b3.totals[0] == 10.0 && b3.totals[1] == 0.0 && b3.totals[2] == 5.0;
  }

  /** Three arms, one epoch, fresh statistics: exploration rewards 10, 0 and
      5 are all recorded, the commit pull picks arm 0 (the largest total),
      and whatever follows only ever pulls arm 0 and changes no statistic. */
  lemma ThreeArmsRewarded(s: Etc.State, late: seq<Etc.Step>)
    requires FreshThreeArms(s)
    ensures var explore := [Etc.PullStep, Etc.RewardStep(0, 10.0), Etc.PullStep, Etc.RewardStep(1, 0.0),
                            Etc.PullStep, Etc.RewardStep(2, 5.0)];
      && Etc.Run(s, explore).Success?
      && var (arms, t) := Etc.Run(s, explore).value;
         && arms == [0, 1, 2]
         && t.acc.counts == [1, 1, 1]
         && t.acc.totals == [10.0, 0.0, 5.0]
         && Etc.Pull(t).Success?
         && var (c, u) := Etc.Pull(t).value;
            && c == 0
            && Etc.Run(u, late).Success?
            && (forall i :: 0 <= i < |Etc.Run(u, late).value.0| ==> Etc.Run(u, late).value.0[i] == 0)
            && Etc.Run(u, late).value.1.acc == t.acc
  {
    ThreeArmsExplored(s);
    var explore := [Etc.PullStep, Etc.RewardStep(0, 10.0), Etc.PullStep, Etc.RewardStep(1, 0.0),
                    Etc.PullStep, Etc.RewardStep(2, 5.0)];
    var t := Etc.Run(s, explore).value.1;
    CommitsToFirstOfThree(t);
    Etc.CommitmentIsFinal(Etc.Pull(t).value.1, late);
  }

  /** After the three exploration rounds the commit pull picks arm 0. */
  lemma CommitsToFirstOfThree(t: Etc.State)
    requires Etc.Valid(t) && t.nArms == 3 && t.currentRound == 3 && Etc.Horizon(t) == 3 && t.bestArm.None?
    requires t.acc.totals == [10.0, 0.0, 5.0]
    ensures Etc.Pull(t).Success? && Etc.Pull(t).value.0 == 0 && Etc.Pull(t).value.1.bestArm == Some(0)
    ensures Etc.Pull(t).value.1.acc == t.acc
  {
  }

  /** The facts about a stochastic experiment whose bandit is committed to
      an arm that always pays the best mean. */
  ghost predicate CommittedToBest(x: Experiments.Running) {
    && x.feedback == Experiments.BanditFeedback
    && x.env.kind.StochasticMultiArmed? && !Env.MayStopAcceptingInputs(x.env)
    && Bandits.NArms(x.bandit) == Env.NArms(x.env)
    && x.bandit.state.bestArm.Some? && x.bandit.state.bestArm.value < Env.NArms(x.env)
    && forall j: nat :: x.env.kind.dists[x.bandit.state.bestArm.value].draw(j) == x.env.kind.bestReward
  }

  /** One round of such an experiment succeeds, costs nothing and leaves it
      committed to the same arm. */
  lemma CommittedRoundCostsNothing(x: Experiments.Running)
    requires CommittedToBest(x)
    ensures Experiments.Round(x).Success?
    ensures Experiments.Round(x).value.0 == 0.0
    ensures CommittedToBest(Experiments.Round(x).value.1)
  {
    Experiments.StochasticRoundSucceeds(x);
    var y := Experiments.Round(x).value.1;
    assert y.bandit.state.bestArm == x.bandit.state.bestArm;
  }

  /** Once the bandit has committed to an arm that always pays the best
      mean, no further round of a stochastic experiment costs anything. */
  lemma CommittedToBestCostsNothing(x: Experiments.Running, k: nat)
    requires CommittedToBest(x)
    ensures Loop.Cost(Experiments.Round, x, k) == Some(0.0)
  {
    forall y | CommittedToBest(y)
      ensures Experiments.Round(y).Success? && Experiments.Round(y).value.0 == 0.0
      ensures CommittedToBest(Experiments.Round(y).value.1)
    {
      CommittedRoundCostsNothing(y);
    }
    Loop.SumOfFree(Experiments.Round, CommittedToBest, x, k);
  }

  /** A stochastic experiment on two arms whose samples are always 0 and 1,
      with a one-epoch explore-then-commit bandit over them. */
  ghost predicate OnTwoPointArms(dists: seq<Env.Distribution>, x: Experiments.Running) {
    && |dists| == 2 && (forall j: nat :: dists[0].draw(j) == 0.0 && dists[1].draw(j) == 1.0)
    && x.feedback == Experiments.BanditFeedback && !Env.MayStopAcceptingInputs(x.env)
    && x.env.kind.StochasticMultiArmed? && x.env.kind.dists == dists && x.env.kind.bestReward == 1.0
    && Bandits.NArms(x.bandit) == 2 && Etc.Horizon(x.bandit.state) == 2
  }

  /** After exploring two arms paying exactly 0 and 1, the commit pull picks
      the arm paying 1 and no round from there on costs anything. */
  lemma CommitToBetterArm(dists: seq<Env.Distribution>, x: Experiments.Running, m: nat)
    requires OnTwoPointArms(dists, x)
    requires x.bandit.state.currentRound == 2
    requires x.bandit.state.acc.totals[0] == 0.0 && x.bandit.state.acc.totals[1] == 1.0
    ensures Loop.Cost(Experiments.Round, x, m) == Some(0.0)
  {
    if m > 0 {
      var y := CommitRound(dists, x);
      CommittedToBestCostsNothing(y, m - 1);
      Loop.CostAfterStep(Experiments.Round, x, m, 0.0, y, 0.0);
    }
  }

  /** The commit round after exploring arms paying 0 and 1: it pulls arm 1,
      costs nothing and leaves the bandit committed to it. */
  lemma CommitRound(dists: seq<Env.Distribution>, x: Experiments.Running) returns (y: Experiments.Running)
    requires OnTwoPointArms(dists, x)
    requires x.bandit.state.currentRound == 2
    requires x.bandit.state.acc.totals[0] == 0.0 && x.bandit.state.acc.totals[1] == 1.0
    ensures Experiments.Round(x) == Success((0.0, y))
    ensures CommittedToBest(y) && y.bandit.state.bestArm == Some(1)
  {
    Experiments.StochasticRoundSucceeds(x);
    y := Experiments.Round(x).value.1;
    assert Bandits.Pull(x.bandit).value.0 == 1;
    assert y.bandit.state.bestArm == Some(1);
  }


  /** An exploration round on the two arms paying 0 and 1: the round-robin
      arm is pulled, its payment recorded, and the round costs 1 minus it. */
  lemma ExploreDeterministicArm(dists: seq<Env.Distribution>, x: Experiments.Running)
    requires OnTwoPointArms(dists, x)
    requires x.bandit.state.currentRound < 2
    ensures Experiments.Round(x).Success?
    ensures var (r, y) := Experiments.Round(x).value;
      var arm := x.bandit.state.currentRound;
      var paid := if arm == 0 then 0.0 else 1.0;
      && r == 1.0 - paid
      && OnTwoPointArms(dists, y) && y.env.flags == x.env.flags
      && y.bandit.state.currentRound == arm + 1
      && y.bandit.state.acc.totals[arm] == x.bandit.state.acc.totals[arm] + paid
      && y.bandit.state.acc.totals[1 - arm] == x.bandit.state.acc.totals[1 - arm]
  {
    Experiments.StochasticRoundSucceeds(x);
    assert Bandits.Pull(x.bandit).value.0 == x.bandit.state.currentRound;
  }

  /** The second exploration round on the two arms paying 0 and 1: it costs
      nothing and leaves the bandit at its commit round with the totals 0
      and 1. */
  lemma ExploreSecondArm(dists: seq<Env.Distribution>, x: Experiments.Running) returns (y: Experiments.Running)
    requires OnTwoPointArms(dists, x)
    requires x.bandit.state.currentRound == 1
    requires x.bandit.state.acc.totals[0] == 0.0 && x.bandit.state.acc.totals[1] == 0.0
    ensures Experiments.Round(x) == Success((0.0, y))
    ensures OnTwoPointArms(dists, y) && y.bandit.state.currentRound == 2
    ensures y.bandit.state.acc.totals[0] == 0.0 && y.bandit.state.acc.totals[1] == 1.0
  {
    ExploreDeterministicArm(dists, x);
    y := Experiments.Round(x).value.1;
  }

  /** From round one of a one-epoch bandit on the two arms paying 0 and 1,
      having drawn 0 from the first arm, the remaining n >= 1 rounds cost
      nothing: the second arm is explored and then committed to. */
  lemma TwoArmsFromRoundOne(dists: seq<Env.Distribution>, x: Experiments.Running, n: nat)
    requires OnTwoPointArms(dists, x)
    requires x.bandit.state.currentRound == 1
    requires x.bandit.state.acc.totals[0] == 0.0 && x.bandit.state.acc.totals[1] == 0.0
    requires n >= 1
    ensures Loop.Cost(Experiments.Round, x, n) == Some(0.0)
  {
    var y := ExploreSecondArm(dists, x);
    CommitToBetterArm(dists, y, n - 1);
    Loop.CostAfterStep(Experiments.Round, x, n, 0.0, y, 0.0);
  }

  /** From round zero of a one-epoch bandit on the two arms paying 0 and 1,
      n >= 2 rounds cost exactly 1 in total. */
  lemma TwoArmsFromRoundZero(dists: seq<Env.Distribution>, x: Experiments.Running, n: nat)
    requires OnTwoPointArms(dists, x)
    requires x.bandit.state.currentRound == 0
    requires x.bandit.state.acc.totals[0] == 0.0 && x.bandit.state.acc.totals[1] == 0.0
    requires n >= 2
    ensures Loop.Cost(Experiments.Round, x, n) == Some(1.0)
  {
    ExploreDeterministicArm(dists, x);
    var y := Experiments.Round(x).value.1;
    assert Experiments.Round(x) == Success((1.0, y));
    TwoArmsFromRoundOne(dists, y, n - 1);
    Loop.CostAfterStep(Experiments.Round, x, n, 1.0, y, 0.0);
  }

  /** Two arms paying exactly 0 and 1, a one-epoch explore-then-commit
      bandit, n >= 2 rounds: the total regret is exactly 1, the cost of the
      single exploration pull of the worse arm. */
  lemma TwoDeterministicArms(dists: seq<Env.Distribution>, x: Experiments.Running, n: nat)
    requires |dists| == 2 && dists[0].mean == 0.0 && dists[1].mean == 1.0
    requires forall j: nat :: dists[0].draw(j) == 0.0 && dists[1].draw(j) == 1.0
    requires x.feedback == Experiments.BanditFeedback && x.env == Env.NewStochastic(dists).value
    requires Bandits.NArms(x.bandit) == 2 && x.bandit.state.nEpochs == 1 && x.bandit.state.currentRound == 0
    requires forall i :: 0 <= i < 2 ==> x.bandit.state.acc.totals[i] == 0.0
    requires n >= 2
    ensures Experiments.Rounds(x, n).Success?
    ensures Experiments.Rounds(x, n).value.0 == 1.0
  {
    var k := x.env.kind;
    assert k.bestReward == 1.0 by {
      assert k.means[1] == 1.0 <= k.bestReward;
      assert k.bestArm < 2 && k.means[k.bestArm] == k.bestReward;
    }
    TwoArmsFromRoundZero(dists, x, n);
  }

  /** Two arms whose samples are always 0 and 1: two arms, true rewards 0
      and 1 (the entries of the true-reward list), samples 0 and 1, and the
      regret of each sample measured against the best mean 1. */
  lemma StochasticEnvironmentOfTwoPointMasses(dists: seq<Env.Distribution>)
    requires |dists| == 2 && dists[0].mean == 0.0 && dists[1].mean == 1.0
    requires forall j: nat :: dists[0].draw(j) == 0.0 && dists[1].draw(j) == 1.0
    ensures Env.NewStochastic(dists).Success?
    ensures var e := Env.NewStochastic(dists).value;
      && Env.NArms(e) == 2
      && Env.TrueReward(e, Env.One(0)) == Success(0.0) && Env.TrueReward(e, Env.One(1)) == Success(1.0)
      && e.kind.means == [0.0, 1.0]
      && Env.Reward(e, Env.One(0)).Success? && Env.Reward(e, Env.One(0)).value.0 == 0.0
      && var e' := Env.Reward(e, Env.One(0)).value.1;
         && Env.Reward(e', Env.One(1)).Success? && Env.Reward(e', Env.One(1)).value.0 == 1.0
         && Env.Regret(e', 0.0) == Success(1.0) && Env.Regret(e', 1.0) == Success(0.0)
  {
    var e := Env.NewStochastic(dists).value;
    assert e.kind.means == [0.0, 1.0];
    assert e.kind.bestReward == 1.0 by {
      assert e.kind.means[1] == 1.0 <= e.kind.bestReward;
      assert e.kind.bestArm < 2 && e.kind.means[e.kind.bestArm] == e.kind.bestReward;
    }
  }
}

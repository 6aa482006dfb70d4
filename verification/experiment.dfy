/** The experiment loop (`Experiment` and its feedback-shape variants): it
    couples a bandit and an environment round by round and adds up regret. */
module Experiments {
  import opened Outcome
  import Reals
  import Env = Environments
  import Bandits
  import Loop

  /** Which data flows from the environment back to the bandit each round. */
  datatype Feedback = BanditFeedback | SemiBanditFeedback | FullInformation

  /** An experiment: its feedback shape, the environment and the bandit it
      drives, and the best arm fixed at construction (none when the setting
      has no static best arm). */
  datatype Experiment = Experiment(feedback: Feedback, env: Env.Environment, bandit: Bandits.Bandit, bestArm: Option<nat>)

  predicate Valid(x: Experiment) {
    Env.Valid(x.env) && Bandits.Valid(x.bandit)
  }

  /** An experiment whose environment and bandit keep their invariants. */
  type Running = x: Experiment | Valid(x)
    witness Experiment(BanditFeedback, Env.NewAdversarial(Env.Adversary(0, _ => [], [])),
                       Bandits.NewExploreThenCommit(0, None), None)

  /** The base constructor: it checks nothing and sets no best arm. */
  function New(feedback: Feedback, env: Env.Environment, bandit: Bandits.Bandit): (x: Experiment)
    ensures x.bestArm.None? && x.feedback == feedback && x.env == env && x.bandit == bandit
  {
    Experiment(feedback, env, bandit, None)
  }

  /** A bandit-feedback experiment on a stochastic environment. The arm
      counts must agree; the best arm is the first arm of maximal true mean,
      computed once here. */
  function NewMultiArmedStochastic(env: Env.Environment, bandit: Bandits.Bandit): (res: Result<Experiment>)
    requires Env.Valid(env) && env.kind.StochasticMultiArmed?
    ensures res.Success? <==> Env.NArms(env) == Bandits.NArms(bandit)
    ensures res.Failure? ==> res.error == ArmCountMismatch
    ensures res.Success? ==>
      var x := res.value;
      && x.feedback == BanditFeedback && x.env == env && x.bandit == bandit
      && x.bestArm.Some? && x.bestArm.value < Env.NArms(env)
      && (forall j :: 0 <= j < Env.NArms(env) ==> env.kind.means[j] <= env.kind.means[x.bestArm.value])
      && (forall j :: 0 <= j < x.bestArm.value ==> env.kind.means[j] < env.kind.means[x.bestArm.value])
      && env.kind.means[x.bestArm.value] == env.kind.bestReward
  {
    var x := New(BanditFeedback, env, bandit);
    if Env.NArms(env) != Bandits.NArms(bandit) then Failure(ArmCountMismatch)
    else
      var means := env.kind.means;
      Success(x.(bestArm := Some(Reals.FirstArgMax(means))))
  }

  /** A bandit-feedback experiment on an adversarial environment. The arm
      counts must agree; there is no best arm. */
  function NewMultiArmedAdversarial(env: Env.Environment, bandit: Bandits.Bandit): (res: Result<Experiment>)
    requires env.kind.AdversarialMultiArmed?
    ensures res.Success? <==> Env.NArms(env) == Bandits.NArms(bandit)
    ensures res.Failure? ==> res.error == ArmCountMismatch
    ensures res.Success? ==>
      res.value.bestArm.None? && res.value.feedback == BanditFeedback && res.value.env == env && res.value.bandit == bandit
  {
    var x := New(BanditFeedback, env, bandit);
    if Env.NArms(env) != Bandits.NArms(bandit) then Failure(ArmCountMismatch) else Success(x)
  }

  /** `regret`: exactly the environment's regret. */
  function Regret(x: Experiment, reward: real): (res: Result<real>)
    ensures res == Env.Regret(x.env, reward)
  {
    Env.Regret(x.env, reward)
  }

  /** `round`: refuses at once, changing nothing, when the environment may
      stop and will not accept; otherwise pulls an arm, resolves it, hands
      the feedback to the bandit and returns the regret of the scalar reward.
      Bandit feedback passes the single reward. Semi-bandit and full
      information unpack what the environment returns into a vector and a
      reward and pass the vector, which no bandit of the core accepts. */
  function Round(x: Running): (res: Result<(real, Running)>)
    ensures res == Failure(Exhausted) <==> Env.MayStopAcceptingInputs(x.env) && !Env.WillAcceptInput(x.env)
    ensures res.Success? ==>
      var y := res.value.1;
      && y.feedback == x.feedback && y.bestArm == x.bestArm
      && y.env.flags == x.env.flags && y.env.interactions == x.env.interactions + 1
      && Env.NArms(y.env) == Env.NArms(x.env) && Bandits.NArms(y.bandit) == Bandits.NArms(x.bandit)
    ensures res.Success? ==> x.feedback == BanditFeedback
  {
    if Env.MayStopAcceptingInputs(x.env) && !Env.WillAcceptInput(x.env) then
      Failure(Exhausted)
    else
      match Bandits.Pull(x.bandit)
      case Failure(err) => Failure(err)
      case Success(pulled) =>
        var arm := pulled.0;
        match x.feedback
        case BanditFeedback =>
          (match Env.Reward(x.env, Env.One(arm))
           case Failure(err) => Failure(err)
           case Success(resolved) =>
             var reward := resolved.0;
             // an arm the bandit pulled is in range, so recording it succeeds,
             // and after a resolved reward the regret is always defined
             var bandit := Bandits.Reward(pulled.1, arm, reward).value;
             var y := x.(env := resolved.1, bandit := bandit);
             Success((Regret(y, reward).value, y)))
        case _ => Failure(VectorRoundError(x.env, pulled.1, arm))
  }

  /** The rest of a semi-bandit or full-information round once `arm` is
      pulled, which always ends in an error. Only the full-information
      environment returns a vector, and it returns that vector alone; the
      experiment unpacks it into `rewards, reward`, so a vector without
      exactly two entries fails there, and one with two hands its first entry
      to the bandit's `rewards`, which no bandit of the core overrides. */
  function VectorRoundError(env: Env.Environment, b: Bandits.Bandit, arm: nat): (err: Error)
    requires Env.Valid(env)
    ensures !env.kind.FullInformationAdversarial? ==> err == NotImplemented
    ensures env.kind.FullInformationAdversarial? ==>
      err == if |Env.DecideRewards(env.kind.adversary)| == 2 then NotCallable else UnpackMismatch
  {
    match Env.RewardsAsWritten(env, Env.One(arm))
    case Failure(e) => e
    case Success(resolved) =>
      match UnpackAsWritten(resolved.0)
      case Failure(e) => e
      // the regret of the second entry is never reached
      case Success(pair) => Bandits.Rewards(b, [pair.0]).error
  }

  /** `will_accept_input` of the experiment's environment. */
  predicate Accepts(x: Running) {
    Env.WillAcceptInput(x.env)
  }

  /** `rounds(n)`: the total regret of up to n rounds. An environment that
      never stops gets n rounds, their regrets added and any failure
      propagated; one that may stop is asked before each round and the first
      refusal ends the loop with the partial sum. */
  function Rounds(x: Running, n: nat): (res: Result<(real, Running)>)
    ensures n == 0 ==> res == Success((0.0, x))
    ensures res.Failure? ==> res.error != Exhausted
    ensures res.Success? ==>
      var y := res.value.1;
      && y.feedback == x.feedback && y.bestArm == x.bestArm && y.env.flags == x.env.flags
      && x.env.interactions <= y.env.interactions <= x.env.interactions + n
      && (!Env.MayStopAcceptingInputs(x.env) ==> y.env.interactions == x.env.interactions + n)
      && (y.env.interactions < x.env.interactions + n ==> !Env.WillAcceptInput(y.env))
  {
    if !Env.MayStopAcceptingInputs(x.env) then
      SumOfRoundsCounts(x, n);
      Loop.SumOf(Round, x, n)
    else
      UntilRefusedCounts(x, n);
      Loop.UntilRefused(Round, Accepts, x, n)
  }

  /** In a never-stopping environment, n rounds never report exhaustion and
      resolve exactly n rewards. */
  lemma SumOfRoundsCounts(x: Running, n: nat)
    requires !Env.MayStopAcceptingInputs(x.env)
    ensures var res := Loop.SumOf(Round, x, n);
      && (res.Failure? ==> res.error != Exhausted)
      && (res.Success? ==>
           var y := res.value.1;
           && y.feedback == x.feedback && y.bestArm == x.bestArm && y.env.flags == x.env.flags
           && y.env.interactions == x.env.interactions + n)
  {
    var keep := (y: Running) =>
      y.feedback == x.feedback && y.bestArm == x.bestArm && y.env.flags == x.env.flags;
    forall y: Running | keep(y) && Round(y).Failure?
      ensures Round(y).error != Exhausted
    {
      assert !Env.MayStopAcceptingInputs(y.env);
    }
    Loop.SumOfInvariant(Round, keep, (y: Running) => y.env.interactions, Exhausted, x, n);
  }

  /** In an environment that may stop, the loop never reports exhaustion,
      resolves at most n rewards, and resolves fewer only when the
      environment refuses at the end. */
  lemma UntilRefusedCounts(x: Running, n: nat)
    ensures var res := Loop.UntilRefused(Round, Accepts, x, n);
      && (res.Failure? ==> res.error != Exhausted)
      && (res.Success? ==>
           var y := res.value.1;
           && y.feedback == x.feedback && y.bestArm == x.bestArm && y.env.flags == x.env.flags
           && x.env.interactions <= y.env.interactions <= x.env.interactions + n
           && (y.env.interactions < x.env.interactions + n ==> !Env.WillAcceptInput(y.env)))
  {
    var keep := (y: Running) =>
      y.feedback == x.feedback && y.bestArm == x.bestArm && y.env.flags == x.env.flags;
    forall y: Running | keep(y) && Accepts(y) && Round(y).Failure?
      ensures Round(y).error != Exhausted
    {
    }
    Loop.UntilRefusedInvariant(Round, Accepts, keep, (y: Running) => y.env.interactions, Exhausted, x, n);
  }

  /** `rounds(n + m)` is `rounds(n)` followed by `rounds(m)`, regrets added,
      whether or not the environment may stop. */
  lemma RoundsAdditive(x: Running, n: nat, m: nat)
    ensures Rounds(x, n).Failure? ==> Rounds(x, n + m) == Rounds(x, n)
    ensures Rounds(x, n).Success? ==>
      Rounds(x, n + m) == Loop.Extend(Rounds(x, n).value.0, Rounds(Rounds(x, n).value.1, m))
  {
    if !Env.MayStopAcceptingInputs(x.env) {
      Loop.SumOfAdditive(Round, x, n, m);
    } else {
      Loop.UntilRefusedAdditive(Round, Accepts, x, n, m);
    }
  }

  /** An environment that may stop and refuses now: `rounds` returns zero
      and changes nothing, whereas a single `round` reports exhaustion. */
  lemma ExhaustedStopsRounds(x: Running, n: nat)
    requires Env.MayStopAcceptingInputs(x.env) && !Env.WillAcceptInput(x.env)
    ensures Rounds(x, n) == Success((0.0, x))
    ensures Round(x) == Failure(Exhausted)
  {
  }

  /** A bandit-feedback round forwards to the bandit the very arm it pulled
      and the reward the environment returned for it, and returns the regret
      of that reward as measured after the round. */
  lemma BanditFeedbackRoundForwards(x: Running)
    requires Round(x).Success?
    ensures Bandits.Pull(x.bandit).Success?
    ensures var (arm, b) := Bandits.Pull(x.bandit).value;
      && Env.Reward(x.env, Env.One(arm)).Success?
      && var (reward, e) := Env.Reward(x.env, Env.One(arm)).value;
         && Bandits.Reward(b, arm, reward).Success?
         && Round(x).value.1.env == e
         && Round(x).value.1.bandit == Bandits.Reward(b, arm, reward).value
         && Env.Regret(e, reward) == Success(Round(x).value.0)
  {
  }

  /** Each round against an adversary costs the maximum of that round's
      decided vector minus the entry of the pulled arm, which is never
      negative. */
  lemma AdversarialRoundRegret(x: Running)
    requires x.env.kind.AdversarialMultiArmed? && Round(x).Success?
    ensures var v := Env.DecideRewards(x.env.kind.adversary);
      var arm := Bandits.Pull(x.bandit).value.0;
      && arm < |v|
      && Round(x).value.1.env.kind.last == Some(v)
      && Round(x).value.0 == Reals.Max(v) - v[arm]
      && Round(x).value.0 >= 0.0
  {
    var arm := Bandits.Pull(x.bandit).value.0;
    Env.AdversarialRegretOfPlayedArm(x.env, arm);
  }

  /** Before the first round of an adversarial experiment there is no regret
      to ask for: the environment reports the sequencing error. */
  lemma AdversarialRegretBeforeFirstRound(adversary: Env.Adversary, bandit: Bandits.Bandit, r: real)
    requires NewMultiArmedAdversarial(Env.NewAdversarial(adversary), bandit).Success?
    ensures var x := NewMultiArmedAdversarial(Env.NewAdversarial(adversary), bandit).value;
      x.bestArm.None? && Regret(x, r) == Failure(RegretBeforeReward)
  {
  }

  /** Each round against a stochastic environment costs the best mean minus
      the sample drawn from the pulled arm; when that arm always yields its
      mean, the cost is never negative. */
  lemma StochasticRoundRegret(x: Running)
    requires x.env.kind.StochasticMultiArmed? && Round(x).Success?
    ensures var arm := Bandits.Pull(x.bandit).value.0;
      var sample := x.env.kind.dists[arm].draw(x.env.kind.draws[arm]);
      && Round(x).value.0 == x.env.kind.bestReward - sample
      && (sample == x.env.kind.dists[arm].mean ==> Round(x).value.0 >= 0.0)
  {
  }

  /** On a stochastic environment whose arm count matches the bandit's and
      that accepts the round, a bandit-feedback round never fails: the pulled
      arm is sampled, the bandit receives that sample, the environment keeps
      its distributions and best reward, and the round costs the best mean
      minus the sample. */
  lemma StochasticRoundSucceeds(x: Running)
    requires x.feedback == BanditFeedback && x.env.kind.StochasticMultiArmed?
    requires !(Env.MayStopAcceptingInputs(x.env) && !Env.WillAcceptInput(x.env))
    requires Bandits.NArms(x.bandit) == Env.NArms(x.env)
    ensures Bandits.Pull(x.bandit).Success? && Round(x).Success?
    ensures var (arm, b) := Bandits.Pull(x.bandit).value;
      var sample := x.env.kind.dists[arm].draw(x.env.kind.draws[arm]);
      var y := Round(x).value.1;
      && Bandits.Reward(b, arm, sample).Success?
      && y.bandit == Bandits.Reward(b, arm, sample).value
      && Round(x).value.0 == x.env.kind.bestReward - sample
      && y.env.kind.StochasticMultiArmed?
      && y.env.kind.dists == x.env.kind.dists
      && y.env.kind.bestReward == x.env.kind.bestReward
  {
  }

  /** Semi-bandit and full-information rounds never complete in this core.
      A bandit without arms cannot pull. Otherwise the full-information
      environment returns its decided vector alone, and the experiment
      unpacks that vector into `rewards, reward`: a vector that does not
      have exactly two entries fails right there, and one that does hands
      its first entry to the bandit's `rewards`, which no bandit accepts.
      Any other environment has no vector to give. */
  lemma VectorFeedbackRoundFails(x: Running)
    requires x.feedback != BanditFeedback
    requires !(Env.MayStopAcceptingInputs(x.env) && !Env.WillAcceptInput(x.env))
    ensures Bandits.NArms(x.bandit) == 0 ==> Round(x) == Failure(EmptyMaximum)
    ensures Bandits.NArms(x.bandit) > 0 && x.env.kind.FullInformationAdversarial? ==>
      var v := Env.DecideRewards(x.env.kind.adversary);
      Round(x) == Failure(if |v| == 2 then NotCallable else UnpackMismatch)
    ensures Bandits.NArms(x.bandit) > 0 && !x.env.kind.FullInformationAdversarial? ==>
      Round(x) == Failure(NotImplemented)
  {
  }

  /** Unpacking of the full-information result AS WRITTEN: the experiment
      unpacks `rewards, reward = ...`, so the bare reward list returned by
      the environment is split into its two entries when it has exactly two,
      and is an unpacking error otherwise. */
  function UnpackAsWritten(v: seq<real>): (res: Result<(real, real)>)
    ensures res.Success? <==> |v| == 2
    ensures res.Success? ==> res.value == (v[0], v[1])
  {
    if |v| == 2 then Success((v[0], v[1])) else Failure(UnpackMismatch)
  }

  /** The full-information environment as written does not fit the
      experiment: with three arms the unpacking fails, and with the two arms
      [0, 1] and arm 0 played, the "scalar reward" taken for regret is 1
      although the played arm earned 0, so the regret reads 0 instead of 1.
      The corrected `Rewards` returns the played arm's reward. */
  lemma FullInformationUnpackCounterexample()
    ensures var a2 := Env.Adversary(2, _ => [0.0, 1.0], []);
      var e2 := Env.NewFullInformation(a2);
      && Env.RewardsAsWritten(e2, Env.One(0)).Success?
      && var (v, e2') := Env.RewardsAsWritten(e2, Env.One(0)).value;
         && UnpackAsWritten(v) == Success((0.0, 1.0))
         && Env.Regret(e2', UnpackAsWritten(v).value.1) == Success(0.0)
         && Env.Rewards(e2, Env.One(0)).Success?
         && Env.Rewards(e2, Env.One(0)).value.1 == 0.0
         && Env.Regret(Env.Rewards(e2, Env.One(0)).value.2, 0.0) == Success(1.0)
    ensures var a3 := Env.Adversary(3, _ => [0.0, 1.0, 2.0], []);
      var e3 := Env.NewFullInformation(a3);
      && Env.RewardsAsWritten(e3, Env.One(0)).Success?
      && UnpackAsWritten(Env.RewardsAsWritten(e3, Env.One(0)).value.0) == Failure(UnpackMismatch)
  {
    var v2 := [0.0, 1.0];
    Reals.FirstArgMaxUnique(v2, 1);
  }
}

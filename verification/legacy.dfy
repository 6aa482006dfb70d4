/** The older revision of the environments and of the stochastic experiment
    (`skbandit/environment.py`, `skbandit/experiment.py`). For the play of a
    single arm, which is all the older experiment makes, its environments
    resolve rewards as the newer ones do, so they are expressed with the
    `Environments` datatypes. Its `reward` and `true_reward` have no case for
    a combination of arms; the older experiment never plays one. What else
    differs is construction, the full-information accessor and the
    experiment loop. */
module Legacy {
  import opened Outcome
  import Reals
  import Env = Environments
  import Bandits
  import Experiments
  import Loop

  /** The older adversarial environment is given its arm count separately
      and asserts that it equals the adversary's. */
  function NewAdversarial(nArms: nat, adversary: Env.Adversary): (res: Result<Env.Environment>)
    ensures res.Success? <==> nArms == adversary.nArms
    ensures res.Failure? ==> res.error == ArmCountMismatch
    ensures res.Success? ==>
      && Env.NArms(res.value) == nArms
      && res.value.kind == Env.AdversarialMultiArmed(adversary, None)
      && !Env.MayStopAcceptingInputs(res.value) && Env.WillAcceptInput(res.value)
  {
    if nArms != adversary.nArms then Failure(ArmCountMismatch)
    else Success(Env.NewAdversarial(adversary))
  }

  /** The older full-information environment plays like the adversarial one
      and adds `rewards()`: the vector the adversary decided in the last
      round, as cached, and nothing before the first round. */
  function LastRewards(e: Env.Environment): (v: Option<seq<real>>)
    requires e.kind.AdversarialMultiArmed?
    ensures v.None? ==> forall r: real :: Env.Regret(e, r) == Failure(RegretBeforeReward)
    ensures v.Some? && |v.value| > 0 ==> forall r: real :: Env.Regret(e, r) == Success(Reals.Max(v.value) - r)
  {
    e.kind.last
  }

  /** `rewards()` after a round returns that round's whole decided vector,
      whose entry at the played arm is the reward the round returned; the
      regret of that reward is measured against the same vector. Before any
      round there is nothing to return. */
  lemma LastRewardsAfterRound(adversary: Env.Adversary, e: Env.Environment, a: nat)
    requires e.kind.AdversarialMultiArmed? && e.kind.adversary == adversary
    requires Env.Reward(e, Env.One(a)).Success?
    ensures NewAdversarial(adversary.nArms, adversary).Success?
    ensures LastRewards(NewAdversarial(adversary.nArms, adversary).value).None?
    ensures var (r, e') := Env.Reward(e, Env.One(a)).value;
      && e'.kind.AdversarialMultiArmed?
      && LastRewards(e') == Some(Env.DecideRewards(adversary))
      && a < |LastRewards(e').value| && r == LastRewards(e').value[a]
      && Env.Regret(e', r) == Success(Reals.Max(LastRewards(e').value) - r)
  {
    var v := Env.DecideRewards(adversary);
    assert Env.PlayReward(v, Env.One(a)).Success?;
  }

  /** The older stochastic experiment: a stochastic environment, a bandit
      and the best arm computed at construction. */
  datatype Experiment = Experiment(env: Env.Environment, bandit: Bandits.Bandit, bestArm: nat)

  /** The best arm is the first arm of maximal mean; it stays so because no
      round changes the means. */
  predicate Valid(x: Experiment) {
    && Env.Valid(x.env) && x.env.kind.StochasticMultiArmed? && Bandits.Valid(x.bandit)
    && x.bestArm == Reals.FirstArgMax(x.env.kind.means)
  }

  type Running = x: Experiment | Valid(x)
    witness Experiment(Env.NewStochastic([Env.Distribution(0.0, _ => 0.0)]).value,
                       Bandits.NewExploreThenCommit(0, None), 0)

  /** The older constructor: the best arm is `means.index(max(means))`; the
      arm counts of bandit and environment are not compared. */
  function New(env: Env.Environment, bandit: Bandits.Bandit): (x: Running)
    requires Env.Valid(env) && env.kind.StochasticMultiArmed? && Bandits.Valid(bandit)
    ensures x.env == env && x.bandit == bandit
    ensures x.bestArm < Env.NArms(env)
    ensures forall j :: 0 <= j < Env.NArms(env) ==> env.kind.means[j] <= env.kind.means[x.bestArm]
    ensures forall j :: 0 <= j < x.bestArm ==> env.kind.means[j] < env.kind.means[x.bestArm]
  {
    Experiment(env, bandit, Reals.FirstArgMax(env.kind.means))
  }

  /** The older `regret`: the mean of the best arm minus the reward. It
      agrees with the environment's own regret, the maximal mean minus the
      reward. */
  function Regret(x: Running, reward: real): (res: real)
    ensures Env.Regret(x.env, reward) == Success(res)
  {
    x.env.kind.means[x.bestArm] - reward
  }

  /** The older `round`: pull, resolve, report, and the regret of the
      reward. It asks the environment nothing beforehand. */
  function Round(x: Running): (res: Result<(real, Running)>)
    ensures res.Failure? ==> res.error != Exhausted
    ensures res.Success? ==>
      var y := res.value.1;
      && y.bestArm == x.bestArm && y.env.flags == x.env.flags
      && y.env.interactions == x.env.interactions + 1
      && Env.NArms(y.env) == Env.NArms(x.env) && Bandits.NArms(y.bandit) == Bandits.NArms(x.bandit)
  {
    match Bandits.Pull(x.bandit)
    case Failure(err) => Failure(err)
    case Success(pulled) =>
      var arm := pulled.0;
      match Env.Reward(x.env, Env.One(arm))
      case Failure(err) => Failure(err)
      case Success(resolved) =>
        var reward := resolved.0;
        // an arm the bandit pulled is in range for the bandit's own lists
        var bandit := Bandits.Reward(pulled.1, arm, reward).value;
        var y := x.(env := resolved.1, bandit := bandit);
        Success((Regret(y, reward), y))
  }

  /** The older `rounds(n)`: the sum of n round regrets, with no exhaustion
      check: even an environment that may stop is given all n rounds, and
      exhaustion is never what fails. */
  function Rounds(x: Running, n: nat): (res: Result<(real, Running)>)
    ensures n == 0 ==> res == Success((0.0, x))
    ensures res.Failure? ==> res.error != Exhausted
    ensures res.Success? ==>
      var y := res.value.1;
      && y.bestArm == x.bestArm && y.env.flags == x.env.flags
      && y.env.interactions == x.env.interactions + n
  {
    RoundsCounts(x, n);
    Loop.SumOf(Round, x, n)
  }

  /** n older rounds never report exhaustion and resolve exactly n rewards,
      keeping the best arm and the flags. */
  lemma RoundsCounts(x: Running, n: nat)
    ensures var res := Loop.SumOf(Round, x, n);
      && (res.Failure? ==> res.error != Exhausted)
      && (res.Success? ==>
           var y := res.value.1;
           && y.bestArm == x.bestArm && y.env.flags == x.env.flags
           && y.env.interactions == x.env.interactions + n)
  {
    var keep := (y: Running) => y.bestArm == x.bestArm && y.env.flags == x.env.flags;
    Loop.SumOfInvariant(Round, keep, (y: Running) => y.env.interactions, Exhausted, x, n);
  }

  /** An older experiment and a newer bandit-feedback one that drive the same
      environment and bandit. */
  ghost predicate Corresponds(x: Running, y: Experiments.Running) {
    y.feedback == Experiments.BanditFeedback && y.env == x.env && y.bandit == x.bandit
  }

  /** Where the newer round does not refuse, one older round and one newer
      round do the same: both fail with the same error, or both succeed with
      the same regret and corresponding states. */
  lemma RoundAgrees(x: Running, y: Experiments.Running)
    requires Corresponds(x, y)
    requires !(Env.MayStopAcceptingInputs(y.env) && !Env.WillAcceptInput(y.env))
    ensures Round(x).Success? <==> Experiments.Round(y).Success?
    ensures Round(x).Failure? ==> Round(x).error == Experiments.Round(y).error
    ensures Round(x).Success? ==>
      && Round(x).value.0 == Experiments.Round(y).value.0
      && Corresponds(Round(x).value.1, Experiments.Round(y).value.1)
  {
  }

  /** With an environment that never stops, the older `rounds(n)` and the
      newer one agree: the same error, or the same total regret with
      corresponding final states. */
  lemma RoundsAgree(x: Running, y: Experiments.Running, n: nat)
    requires Corresponds(x, y) && !Env.MayStopAcceptingInputs(y.env)
    ensures Rounds(x, n).Success? <==> Experiments.Rounds(y, n).Success?
    ensures Rounds(x, n).Failure? ==> Rounds(x, n).error == Experiments.Rounds(y, n).error
    ensures Rounds(x, n).Success? ==>
      && Rounds(x, n).value.0 == Experiments.Rounds(y, n).value.0
      && Corresponds(Rounds(x, n).value.1, Experiments.Rounds(y, n).value.1)
  {
    var rel := (a: Running, b: Experiments.Running) => Corresponds(a, b) && !Env.MayStopAcceptingInputs(b.env);
    forall a, b | rel(a, b)
      ensures Round(a).Success? <==> Experiments.Round(b).Success?
      ensures Round(a).Failure? ==> Round(a).error == Experiments.Round(b).error
      ensures Round(a).Success? ==>
        Round(a).value.0 == Experiments.Round(b).value.0 && rel(Round(a).value.1, Experiments.Round(b).value.1)
    {
      RoundAgrees(a, b);
    }
    Loop.SumOfSimulation(Round, Experiments.Round, rel, x, y, n);
    assert Experiments.Rounds(y, n) == Loop.SumOf(Experiments.Round, y, n);
  }

  /** The older constructor does not compare arm counts, so a bandit with
      more arms than the environment is accepted, and the mismatch surfaces
      only when the bandit pulls an arm the environment lacks: an index
      error. The newer constructor refuses the pair outright. */
  lemma ArmCountSurfacesLate(x: Running)
    requires Bandits.Pull(x.bandit).Success? && Bandits.Pull(x.bandit).value.0 >= Env.NArms(x.env)
    ensures Round(x) == Failure(IndexOutOfRange)
    ensures Experiments.NewMultiArmedStochastic(x.env, x.bandit) == Failure(ArmCountMismatch)
  {
  }
}

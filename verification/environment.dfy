/** Reward environments (`Environment` and its stochastic and adversarial
    multi-armed variants): they resolve a played arm into a reward and
    measure the regret of a reward. Sampling and the adversary are oracles. */
module Environments {
  import opened Outcome
  import Reals

  /** What a player plays: one arm, or a combination of arms. */
  datatype Play = One(arm: nat) | Many(arms: seq<nat>)

  /** A reward distribution, given by its mean and its sequence of
      independent draws (`draw(k)` is the k-th sample). */
  datatype Distribution = Distribution(mean: real, draw: nat -> real)

  /** An adversary decides one reward per arm as a function of the plays it
      has been told about so far: it cannot see the play of the round it is
      deciding for. */
  datatype Adversary = Adversary(nArms: nat, decide: seq<Play> -> seq<real>, history: seq<Play>)

  /** `decide_rewards`. */
  function DecideRewards(a: Adversary): seq<real> {
    a.decide(a.history)
  }

  /** `register_interaction`: the adversary learns the play. */
  function RegisterInteraction(a: Adversary, p: Play): (a': Adversary)
    ensures a'.history == a.history + [p] && a'.nArms == a.nArms && a'.decide == a.decide
  {
    a.(history := a.history + [p])
  }

  /** The adversary told the plays `ps` one after the other. */
  function RegisterAll(a: Adversary, ps: seq<Play>): Adversary
    decreases |ps|
  {
    if |ps| == 0 then a else RegisterAll(RegisterInteraction(a, ps[0]), ps[1..])
  }

  /** After being told a run of plays, the adversary keeps its arms and its
      strategy and decides from exactly the plays it was told, in order:
      what it decides for a round depends on the earlier plays only. */
  lemma {:induction false} DecideAfterPlays(a: Adversary, ps: seq<Play>)
    ensures RegisterAll(a, ps).nArms == a.nArms && RegisterAll(a, ps).decide == a.decide
    ensures RegisterAll(a, ps).history == a.history + ps
    ensures DecideRewards(RegisterAll(a, ps)) == a.decide(a.history + ps)
    decreases |ps|
  {
    if |ps| == 0 {
      assert a.history + ps == a.history;
    } else {
      var b := RegisterInteraction(a, ps[0]);
      DecideAfterPlays(b, ps[1..]);
      assert b.history + ps[1..] == a.history + ps;
    }
  }

  /** The exhaustion escape hatch: whether the environment may stop
      accepting inputs, and whether it accepts the next input given how many
      interactions it has had. An environment with a finite resource
      overrides both. */
  datatype Flags = Flags(mayStop: bool, accepts: nat -> bool)

  /** The base behaviour: never stops, always accepts. */
  const DefaultFlags: Flags := Flags(false, _ => true)

  datatype Kind =
    | StochasticMultiArmed(dists: seq<Distribution>, means: seq<real>, bestReward: real, bestArm: nat, draws: seq<nat>)
    | AdversarialMultiArmed(adversary: Adversary, last: Option<seq<real>>)
    | FullInformationAdversarial(adversary: Adversary, last: Option<seq<real>>)

  /** An environment: its variant, its flags and the number of rewards it has
      resolved so far. */
  datatype Environment = Environment(kind: Kind, flags: Flags, interactions: nat)

  /** `may_stop_accepting_inputs`. */
  predicate MayStopAcceptingInputs(e: Environment) {
    e.flags.mayStop
  }

  /** `will_accept_input`. */
  predicate WillAcceptInput(e: Environment) {
    e.flags.accepts(e.interactions)
  }

  /** Unless an environment overrides them, it never may stop and it accepts
      every input, whatever the number of interactions so far. */
  lemma DefaultFlagsAlwaysAccept(e: Environment)
    requires e.flags == DefaultFlags
    ensures !MayStopAcceptingInputs(e)
    ensures forall k: nat :: WillAcceptInput(e.(interactions := k))
  {
  }

  /** A stochastic environment holds one distribution, one mean and one draw
      counter per arm; its best reward and best arm are the maximum of the
      means and the first arm attaining it. */
  predicate Valid(e: Environment) {
    match e.kind
    case StochasticMultiArmed(dists, means, bestReward, bestArm, draws) =>
      && |dists| > 0 && |means| == |dists| && |draws| == |dists|
      && (forall i :: 0 <= i < |dists| ==> means[i] == dists[i].mean)
      && bestReward == Reals.Max(means)
      && bestArm == Reals.FirstArgMax(means)
    case _ => true
  }

  /** `n_arms`: one arm per distribution, or the adversary's arm count. */
  function NArms(e: Environment): nat {
    match e.kind
    case StochasticMultiArmed(dists, _, _, _, _) => |dists|
    case AdversarialMultiArmed(adversary, _) => adversary.nArms
    case FullInformationAdversarial(adversary, _) => adversary.nArms
  }
  /** A stochastic environment has at least one arm, and each arm has its
      mean and its own count of draws taken. */
  lemma StochasticArmCount(e: Environment)
    requires Valid(e) && e.kind.StochasticMultiArmed?
    ensures NArms(e) > 0
    ensures NArms(e) == |e.kind.means| == |e.kind.draws|
    ensures forall a :: 0 <= a < NArms(e) ==> e.kind.means[a] == e.kind.dists[a].mean
  {
  }


  /** A stochastic environment over the given distributions. The means are
      computed once here; the best reward is their maximum and the best arm
      the first arm attaining it. Without distributions the maximum fails. */
  function NewStochastic(dists: seq<Distribution>): (res: Result<Environment>)
    ensures res.Success? <==> |dists| > 0
    ensures res.Failure? ==> res.error == EmptyMaximum
    ensures res.Success? ==>
      var e := res.value;
      && Valid(e) && e.kind.StochasticMultiArmed?
      && NArms(e) == |dists| && e.interactions == 0
      && !MayStopAcceptingInputs(e) && WillAcceptInput(e)
      && (forall i :: 0 <= i < |dists| ==> e.kind.means[i] == dists[i].mean <= e.kind.bestReward)
      && e.kind.bestArm < |dists| && e.kind.means[e.kind.bestArm] == e.kind.bestReward
      && (forall i :: 0 <= i < e.kind.bestArm ==> e.kind.means[i] < e.kind.bestReward)
  {
    if |dists| == 0 then Failure(EmptyMaximum)
    else
      var means := seq(|dists|, i requires 0 <= i < |dists| => dists[i].mean);
      var best := Reals.Max(means);
      Success(Environment(StochasticMultiArmed(dists, means, best, Reals.IndexOf(means, best), seq(|dists|, _ => 0)),
                          DefaultFlags, 0))
  }

  /** An adversarial environment with bandit feedback: as many arms as the
      adversary, nothing resolved yet, so regret cannot be asked yet. */
  function NewAdversarial(adversary: Adversary): (e: Environment)
    ensures Valid(e) && e.kind.AdversarialMultiArmed? && NArms(e) == adversary.nArms
    ensures !MayStopAcceptingInputs(e) && WillAcceptInput(e)
    ensures forall r: real :: Regret(e, r) == Failure(RegretBeforeReward)
  {
    Environment(AdversarialMultiArmed(adversary, None), DefaultFlags, 0)
  }

  /** An adversarial environment with full information. */
  function NewFullInformation(adversary: Adversary): (e: Environment)
    ensures Valid(e) && e.kind.FullInformationAdversarial? && NArms(e) == adversary.nArms
    ensures !MayStopAcceptingInputs(e) && WillAcceptInput(e)
    ensures forall r: real :: Regret(e, r) == Failure(RegretBeforeReward)
  {
    Environment(FullInformationAdversarial(adversary, None), DefaultFlags, 0)
  }

  /** The entries of `v` at the given arms (arms assumed in range). */
  function Pick(v: seq<real>, arms: seq<nat>): (picked: seq<real>)
    requires forall i :: 0 <= i < |arms| ==> arms[i] < |v|
    ensures |picked| == |arms| && forall i :: 0 <= i < |arms| ==> picked[i] == v[arms[i]]
  {
    seq(|arms|, i requires 0 <= i < |arms| => v[arms[i]])
  }

  /** The reward of a combination: the sum of its arms' entries; an arm out
      of range is an index error. */
  function CombinationSum(v: seq<real>, arms: seq<nat>): (res: Result<real>)
    ensures res.Success? <==> forall i :: 0 <= i < |arms| ==> arms[i] < |v|
    ensures res.Failure? ==> res.error == IndexOutOfRange
    ensures res.Success? ==> res.value == Reals.Sum(Pick(v, arms))
    decreases |arms|
  {
    if |arms| == 0 then Success(0.0)
    else
      var front :- CombinationSum(v, arms[..|arms| - 1]);
      var a := arms[|arms| - 1];
      if a < |v| then
        assert Pick(v, arms)[..|arms| - 1] == Pick(v, arms[..|arms| - 1]);
        Success(front + v[a])
      else Failure(IndexOutOfRange)
  }

  /** The reward of a play under a reward vector. */
  function PlayReward(v: seq<real>, p: Play): (res: Result<real>)
    ensures p.One? ==> (res.Success? <==> p.arm < |v|)
    ensures p.One? && res.Success? ==> res.value == v[p.arm]
    ensures p.Many? ==> (res.Success? <==> forall i :: 0 <= i < |p.arms| ==> p.arms[i] < |v|)
    ensures p.Many? && res.Success? ==> res.value == Reals.Sum(Pick(v, p.arms))
    ensures res.Failure? ==> res.error == IndexOutOfRange
  {
    match p
    case One(a) => if a < |v| then Success(v[a]) else Failure(IndexOutOfRange)
    case Many(arms) => CombinationSum(v, arms)
  }

  /** `true_reward`: the mean of one arm, or the summed means of a
      combination. Only stochastic environments know their means. */
  function TrueReward(e: Environment, p: Play): (res: Result<real>)
    requires Valid(e) && e.kind.StochasticMultiArmed?
    ensures p.One? ==> (res.Success? <==> p.arm < NArms(e))
    ensures p.One? && res.Success? ==> res.value == e.kind.dists[p.arm].mean
    ensures p.Many? ==> (res.Success? <==> forall i :: 0 <= i < |p.arms| ==> p.arms[i] < NArms(e))
    ensures p.Many? && res.Success? ==> res.value == Reals.Sum(Pick(e.kind.means, p.arms))
    ensures res.Failure? ==> res.error == IndexOutOfRange
  {
    PlayReward(e.kind.means, p)
  }

  /** `reward`: resolves a play into one scalar reward.
      - stochastic: one fresh draw of the played arm's distribution (a
        combination cannot index the list of distributions);
      - adversarial: the adversary decides the whole vector first, the
        vector is cached, the play's entry (or summed entries) is read off,
        and only then is the adversary told the play;
      - full information: not provided (the base method fails). */
  function Reward(e: Environment, p: Play): (res: Result<(real, Environment)>)
    requires Valid(e)
    ensures res.Success? ==>
      var e' := res.value.1;
      && Valid(e') && NArms(e') == NArms(e) && e'.flags == e.flags
      && e'.interactions == e.interactions + 1
    ensures e.kind.FullInformationAdversarial? ==> res == Failure(NotImplemented)
    ensures e.kind.StochasticMultiArmed? ==> (res.Success? <==> p.One? && p.arm < NArms(e))
    ensures e.kind.StochasticMultiArmed? && res.Success? ==>
      && res.value.0 == e.kind.dists[p.arm].draw(e.kind.draws[p.arm])
      && res.value.1.kind.StochasticMultiArmed?
      && res.value.1.kind.dists == e.kind.dists
      && res.value.1.kind.means == e.kind.means
      && res.value.1.kind.bestReward == e.kind.bestReward
      && res.value.1.kind.bestArm == e.kind.bestArm
    ensures e.kind.AdversarialMultiArmed? ==>
      && (res.Success? <==> PlayReward(DecideRewards(e.kind.adversary), p).Success?)
      && (res.Success? ==>
           && res.value.0 == PlayReward(DecideRewards(e.kind.adversary), p).value
           && res.value.1.kind == AdversarialMultiArmed(RegisterInteraction(e.kind.adversary, p),
                                                         Some(DecideRewards(e.kind.adversary))))
  {
    match e.kind
    case StochasticMultiArmed(dists, means, bestReward, bestArm, draws) =>
      (match p
       case Many(_) => Failure(CombinationNotSupported)
       case One(a) =>
         if a < |dists| then
           Success((dists[a].draw(draws[a]),
                    e.(kind := e.kind.(draws := draws[a := draws[a] + 1]), interactions := e.interactions + 1)))
         else Failure(IndexOutOfRange))
    case AdversarialMultiArmed(adversary, _) =>
      var v := DecideRewards(adversary);
      var r :- PlayReward(v, p);
      Success((r, e.(kind := AdversarialMultiArmed(RegisterInteraction(adversary, p), Some(v)),
                     interactions := e.interactions + 1)))
    case FullInformationAdversarial(_, _) =>
      Failure(NotImplemented)
  }

  /** A stochastic `reward` consumes one sample of the played arm: its draw
      counter advances by one and every other counter stays, so the next
      reward of that arm is a fresh sample. */
  lemma StochasticRewardAdvancesDraw(e: Environment, a: nat)
    requires Valid(e) && e.kind.StochasticMultiArmed? && a < NArms(e)
    ensures Reward(e, One(a)).Success?
    ensures var e' := Reward(e, One(a)).value.1;
      && e'.kind.StochasticMultiArmed?
      && e'.kind.draws == e.kind.draws[a := e.kind.draws[a] + 1]
      && Reward(e', One(a)).Success?
      && Reward(e', One(a)).value.0 == e.kind.dists[a].draw(e.kind.draws[a] + 1)
  {
  }

  /** `rewards` of the full-information environment, AS WRITTEN: decides and
      caches the vector, tells the adversary the play, and returns the
      vector alone. Every other environment of the core fails here. */
  function RewardsAsWritten(e: Environment, p: Play): (res: Result<(seq<real>, Environment)>)
    requires Valid(e)
    ensures res.Success? <==> e.kind.FullInformationAdversarial?
    ensures res.Failure? ==> res.error == NotImplemented
    ensures res.Success? ==>
      && res.value.0 == DecideRewards(e.kind.adversary)
      && res.value.1.kind == FullInformationAdversarial(RegisterInteraction(e.kind.adversary, p), Some(res.value.0))
  {
    match e.kind
    case FullInformationAdversarial(adversary, _) =>
      var v := DecideRewards(adversary);
      Success((v, e.(kind := FullInformationAdversarial(RegisterInteraction(adversary, p), Some(v)),
                     interactions := e.interactions + 1)))
    case _ => Failure(NotImplemented)
  }

  /** `rewards`, corrected to the shape the full-information contract
      promises: the whole decided vector, whatever the play, together with
      the scalar reward of the play. */
  function Rewards(e: Environment, p: Play): (res: Result<(seq<real>, real, Environment)>)
    requires Valid(e)
    ensures res.Success? ==> e.kind.FullInformationAdversarial?
    ensures !e.kind.FullInformationAdversarial? ==> res == Failure(NotImplemented)
    ensures e.kind.FullInformationAdversarial? ==>
      && (res.Success? <==> PlayReward(DecideRewards(e.kind.adversary), p).Success?)
      && (res.Success? ==>
           && res.value.0 == DecideRewards(e.kind.adversary)
           && res.value.1 == PlayReward(res.value.0, p).value
           && res.value.2.kind == FullInformationAdversarial(RegisterInteraction(e.kind.adversary, p), Some(res.value.0))
           && res.value.2.flags == e.flags
           && res.value.2.interactions == e.interactions + 1)
  {
    match e.kind
    case FullInformationAdversarial(adversary, _) =>
      var v := DecideRewards(adversary);
      var r :- PlayReward(v, p);
      Success((v, r, e.(kind := FullInformationAdversarial(RegisterInteraction(adversary, p), Some(v)),
                        interactions := e.interactions + 1)))
    case _ => Failure(NotImplemented)
  }

  /** `regret`: the best achievable reward minus the obtained one. For a
      stochastic environment the best is the maximal mean, fixed at
      construction; for an adversarial one it is the maximum of the vector
      decided in the last round, and asking before any round is a sequencing
      error. */
  function Regret(e: Environment, reward: real): (res: Result<real>)
    ensures e.kind.StochasticMultiArmed? ==> res == Success(e.kind.bestReward - reward)
    ensures !e.kind.StochasticMultiArmed? ==>
      && (e.kind.last.None? ==> res == Failure(RegretBeforeReward))
      && (e.kind.last.Some? ==> (res.Success? <==> |e.kind.last.value| > 0))
      && (e.kind.last.Some? && |e.kind.last.value| == 0 ==> res == Failure(EmptyMaximum))
      && (res.Success? ==> res.value == Reals.Max(e.kind.last.value) - reward)
  {
    match e.kind
    case StochasticMultiArmed(_, _, bestReward, _, _) => Success(bestReward - reward)
    case _ =>
      match e.kind.last
      case None => Failure(RegretBeforeReward)
      case Some(v) => if |v| == 0 then Failure(EmptyMaximum) else Success(Reals.Max(v) - reward)
  }

  /** The regret of an arm's true mean is never negative, and it is zero
      exactly for the arms of maximal mean, the best arm among them. */
  lemma StochasticRegretOfTrueReward(e: Environment, a: nat)
    requires Valid(e) && e.kind.StochasticMultiArmed? && a < NArms(e)
    ensures TrueReward(e, One(a)).Success?
    ensures var m := TrueReward(e, One(a)).value;
      && Regret(e, m).Success? && Regret(e, m).value >= 0.0
      && (Regret(e, m).value == 0.0 <==> forall j :: 0 <= j < NArms(e) ==> e.kind.means[j] <= m)
    ensures Regret(e, e.kind.means[e.kind.bestArm]) == Success(0.0)
  {
    var m := e.kind.means[a];
    if forall j :: 0 <= j < NArms(e) ==> e.kind.means[j] <= m {
      var k :| 0 <= k < |e.kind.means| && e.kind.means[k] == e.kind.bestReward;
      assert e.kind.means[k] <= m;
    }
  }

  /** A stochastic environment is stationary: resolving a reward changes
      neither the regret of any reward nor any true reward. */
  lemma StochasticRegretIsStationary(e: Environment, p: Play, x: real, q: Play)
    requires Valid(e) && e.kind.StochasticMultiArmed? && Reward(e, p).Success?
    ensures Regret(Reward(e, p).value.1, x) == Regret(e, x)
    ensures TrueReward(Reward(e, p).value.1, q) == TrueReward(e, q)
  {
  }

  /** The adversary decides before it learns the play: whichever play is
      made, the same vector is cached, and the adversary is then told exactly
      that play. */
  lemma AdversaryDecidesBeforePlay(e: Environment, p: Play, q: Play)
    requires Valid(e) && e.kind.AdversarialMultiArmed?
    requires Reward(e, p).Success? && Reward(e, q).Success?
    ensures Reward(e, p).value.1.kind.last == Reward(e, q).value.1.kind.last
    ensures Reward(e, p).value.1.kind.adversary.history == e.kind.adversary.history + [p]
    ensures Reward(e, q).value.1.kind.adversary.history == e.kind.adversary.history + [q]
  {
  }

  /** After a single arm is played against an adversary, the regret of the
      reward obtained is the maximum of that round's vector minus the arm's
      entry: never negative, and zero exactly when the arm attains the
      maximum. */
  lemma AdversarialRegretOfPlayedArm(e: Environment, a: nat)
    requires Valid(e) && e.kind.AdversarialMultiArmed? && Reward(e, One(a)).Success?
    ensures var (r, e') := Reward(e, One(a)).value;
      var v := DecideRewards(e.kind.adversary);
      && a < |v| && r == v[a]
      && Regret(e', r) == Success(Reals.Max(v) - v[a])
      && Reals.Max(v) - v[a] >= 0.0
      && (Reals.Max(v) - v[a] == 0.0 <==> forall j :: 0 <= j < |v| ==> v[j] <= v[a])
  {
  }

  /** The full-information vector does not depend on the play, and the
      regret of the scalar returned with it for a single arm is never
      negative. */
  lemma FullInformationRegret(e: Environment, a: nat, q: Play)
    requires Valid(e) && e.kind.FullInformationAdversarial?
    requires Rewards(e, One(a)).Success? && Rewards(e, q).Success?
    ensures Rewards(e, One(a)).value.0 == Rewards(e, q).value.0
    ensures var (v, r, e') := Rewards(e, One(a)).value;
      && a < |v| && r == v[a]
      && Regret(e', r).Success? && Regret(e', r).value >= 0.0
  {
  }
}

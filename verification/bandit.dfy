/** The bandit players of the core (`Bandit`): each has a fixed number of
    arms, a `pull`, and `reward`/`rewards` entry points whose base versions
    fail unless a player overrides them. */
module Bandits {
  import opened Outcome
  import Etc = ExploreThenCommit

  /** The explore-then-commit player is the one concrete player of the core;
      it overrides `reward` but not `rewards`. */
  datatype Bandit = ExploreThenCommitBandit(state: Etc.State)

  predicate Valid(b: Bandit) {
    Etc.Valid(b.state)
  }

  /** The number of arms given at construction. */
  function NArms(b: Bandit): nat {
    b.state.nArms
  }

  /** A new explore-then-commit player. */
  function NewExploreThenCommit(nArms: nat, nEpochs: Option<int>): (b: Bandit)
    ensures Valid(b) && NArms(b) == nArms
  {
    ExploreThenCommitBandit(Etc.Init(nArms, nEpochs))
  }

  /** Chooses an arm in range; the number of arms never changes. */
  function Pull(b: Bandit): (res: Result<(nat, Bandit)>)
    requires Valid(b)
    ensures res.Success? <==> NArms(b) > 0
    ensures res.Success? ==> res.value.0 < NArms(b) && Valid(res.value.1) && NArms(res.value.1) == NArms(b)
  {
    var next :- Etc.Pull(b.state);
    Success((next.0, ExploreThenCommitBandit(next.1)))
  }

  /** Bandit feedback: the reward obtained with one arm. The number of arms
      never changes. */
  function Reward(b: Bandit, arm: nat, reward: real): (res: Result<Bandit>)
    requires Valid(b)
    ensures res.Success? ==> Valid(res.value) && NArms(res.value) == NArms(b)
    ensures arm < NArms(b) ==> res.Success?
  {
    var s :- Etc.Reward(b.state, arm, reward);
    Success(ExploreThenCommitBandit(s))
  }

  /** Full-information or semi-bandit feedback. No player of the core
      overrides it, so it always fails the way the base method does. */
  function Rewards(b: Bandit, rewards: seq<real>): (res: Result<Bandit>)
    ensures res.Failure? && res.error == NotCallable
  {
    match b
    case ExploreThenCommitBandit(_) => Failure(NotCallable)
  }
}

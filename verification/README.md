# scikit-bandit core in Dafny

This project models the round-based protocol of scikit-bandit, a library for multi-armed bandit experiments, and
proves properties of the model. The protocol joins three parties:

- A **bandit policy** chooses an arm (`pull`) and may be told the reward that arm earned (`reward`).
- A **reward environment** resolves the played arm into a reward and measures the regret of a reward.
- An **experiment loop** joins them round by round (`round`, `rounds`) and adds up the regret.

Every class becomes an immutable datatype, and every method a pure step function that returns the new state. Python
exceptions become the `Error` constructors of a `Result`. Rewards are `real`, because the core only adds, subtracts and
takes maxima.

Modules, one per concept:

- `Outcome`: the `Result`/`Option` types and the error conditions of the core.
- `Reals`: `Sum`, `Max`, `IndexOf` and `FirstArgMax`. `FirstArgMax` is `s.index(max(s))`.
- `RewardAccumulator`: per-arm pull counts and reward totals (`RewardAccumulatorMixin`).
- `ExploreThenCommit`: the explore-then-commit state machine (`ExploreThenCommitBandit`). Its round counter is a `nat`.
  It explores round-robin for `n_arms * n_epochs` pulls, then commits for good to the first arm of maximal total reward.
- `Bandits`: the bandit interface (`Bandit`). Its one concrete player overrides `reward`; the base `rewards`, which
  fails, is kept.
- `Environments`: the base defaults, and the stochastic, adversarial and full-information multi-armed environments.
- `Loop`: the two loops of `rounds`, over any round function.
- `Experiments`: construction, `regret`, `round` for each feedback shape, and `rounds`.
- `Legacy`: the older revision in `skbandit/environment.py` and `skbandit/experiment.py`.
- `Scenarios`: the runs that `tests/tests.py` exercises, and an end-to-end regret computation.

Randomness and the adversary are oracles:

- A distribution is its mean plus a function from sample index to sample. The environment counts the draws per arm,
  so each draw is a fresh sample.
- An adversary is a function from the history of plays it has been told about to a reward vector. It cannot see the
  play of the round it is deciding for.
- An environment's exhaustion flags are a boolean `mayStop` and a predicate on its number of resolved rewards. The
  modelled environments take the base defaults: they never stop and always accept.

## Model

| member | source | states |
|---|---|---|
| Reals.Max | skbandit/bandits/mab.py:53 | `max` of a non-empty list is an element of it and bounds every element from above |
| Reals.IndexOf | skbandit/bandits/mab.py:53 | `list.index(v)` is a position holding `v` with no earlier position holding it |
| Reals.FirstArgMax | skbandit/bandits/mab.py:53 | `s.index(max(s))` is in range and holds the maximum; no entry exceeds it, and every earlier entry is strictly smaller |
| Reals.FirstArgMaxUnique | skbandit/environments/stochastic.py:49-50 | any index that is maximal and strictly above all earlier entries is `s.index(max(s))`, and holds `max(s)` |
| RewardAccumulator.Init | skbandit/bandits/base.py:37-39 | a fresh accumulator has `n_arms` counts all 0 and `n_arms` totals all 0.0 |
| RewardAccumulator.Record | skbandit/bandits/base.py:41-43 | `reward(arm, r)` succeeds exactly for an arm in range (otherwise IndexError); it adds 1 to that arm's count and r to its total, leaves every other arm alone and keeps both lengths |
| RewardAccumulator.RecordAll | skbandit/bandits/base.py:41-43 | a log of rewards is recorded exactly when every arm in it is in range; the lengths stay |
| RewardAccumulator.RecordAllTallies | skbandit/bandits/base.py:41-43 | after recording a log, each arm's count grows by the number of its events and its total by the sum of their rewards; the counts' sum grows by the log's length |
| RewardAccumulator.FreshTallies | skbandit/bandits/base.py:37-43 | from a fresh accumulator, after k rewards the counts sum to k and `totals[a]` is the sum of the rewards recorded for a |
| ExploreThenCommit.Init | skbandit/bandits/mab.py:22-38 | a new bandit is at round 0, uncommitted, with fresh statistics; without `n_epochs` it explores for one epoch (horizon `n_arms`), and an explicit `n_epochs` is kept as given |
| ExploreThenCommit.EpochStep | skbandit/bandits/mab.py:40-43 | advancing the round raises `round / n_arms` by one exactly when the new round is a multiple of `n_arms` (and leaves it unchanged otherwise), so `n_remaining_epochs` falls by one there |
| ExploreThenCommit.NextRound | skbandit/bandits/mab.py:40-43 | `_next_round` adds 1 to the round, keeps the remaining epochs equal to `n_epochs - round / n_arms`, and changes nothing else |
| ExploreThenCommit.Pull | skbandit/bandits/mab.py:45-57 | `pull` succeeds iff there are arms (otherwise `max` of the empty totals fails). The arm is in range and the round advances by 1. During exploration the arm is `round mod n_arms`. The first pull after exploration commits to the lowest index of maximal total. A committed bandit returns its arm and keeps it |
| ExploreThenCommit.Reward | skbandit/bandits/mab.py:59-62 | while `round <= n_arms * n_epochs` the reward is recorded: +1 count and +r total on that arm, other arms unchanged, IndexError for an arm out of range. Later rewards change nothing. Only the statistics ever change |
| ExploreThenCommit.Run | skbandit/bandits/mab.py:45-62 | a script of pulls and rewards returns one arm per pull and keeps the arm and epoch counts |
| ExploreThenCommit.RoundRobin | skbandit/bandits/mab.py:47-48 | within exploration, k pulls from round r return `(r + i) mod n_arms` whatever rewards came before; they stay uncommitted and change no statistic |
| ExploreThenCommit.CommitmentIsFinal | skbandit/bandits/mab.py:49-62 | once committed, any script of pulls and rewards pulls only the committed arm, never reassigns it and changes no statistic |
| ExploreThenCommit.ExplorationLength | skbandit/bandits/mab.py:47 | exactly `n_arms * n_epochs` pulls precede the commit pull |
| ExploreThenCommit.LastExplorationRewardCounts | skbandit/bandits/mab.py:59-62 | the `<=` bound is right: the reward of the last exploration pull arrives at round = horizon and is recorded; a reward after the commit pull is dropped |
| Bandits.NewExploreThenCommit | skbandit/bandits/base.py:18-19 | the bandit's `n_arms` is the constructor's value |
| Bandits.Pull | skbandit/bandits/base.py:21-33 | `pull` succeeds iff there are arms, returns an arm in range and never changes `n_arms` |
| Bandits.Reward | skbandit/bandits/mab.py:59-62 | bandit feedback for an arm in range always succeeds and never changes `n_arms` |
| Bandits.Rewards | skbandit/bandits/base.py:28-29 | the default `rewards` always fails (it calls `NotImplemented()`, a TypeError) |
| Environments.RegisterInteraction | skbandit/environments/adversarial.py:8-31 | the adversary learns the play: its history grows by exactly that play, nothing else changes |
| Environments.DecideAfterPlays | skbandit/environments/adversarial.py:8-31 | after being told a run of plays, the adversary keeps its arms and strategy, and `decide_rewards` decides from exactly those plays in order, so a round's vector depends only on earlier plays |
| Environments.DefaultFlagsAlwaysAccept | skbandit/environments/base.py:48-60 | unless overridden, `may_stop_accepting_inputs` is False and `will_accept_input` is True whatever the number of interactions |
| Environments.StochasticArmCount | skbandit/environments/stochastic.py:44-54 | `n_arms` of a stochastic environment is the number of distributions, at least one; each arm has its own mean (the distribution's) and its own count of draws |
| Environments.NewStochastic | skbandit/environments/stochastic.py:44-50 | construction succeeds iff there are distributions (`max` of no means fails). The means are the distributions' means and the best reward bounds them all. The best arm is the first arm attaining the best reward. The defaults hold: never stops, always accepts |
| Environments.NewAdversarial | skbandit/environments/adversarial.py:34-41 | an adversarial environment has the adversary's arm count and the default flags of skbandit/environments/base.py, lines 48-60 (never stops, always accepts); its regret fails before any reward |
| Environments.NewFullInformation | skbandit/environments/adversarial.py:35-41 | the same for the full-information environment |
| Environments.CombinationSum | skbandit/environments/adversarial.py:59 | the reward of a combination is defined iff every arm is in range, and is then the sum of their entries |
| Environments.PlayReward | skbandit/environments/adversarial.py:58-61 | one arm reads its entry; a combination sums its entries; an arm out of range is an IndexError |
| Environments.TrueReward | skbandit/environments/stochastic.py:13-25 | the true reward of an arm is its mean (IndexError out of range); that of a combination is the sum of its arms' means |
| Environments.Reward | skbandit/environments/adversarial.py:55-64 | an adversarial environment decides the vector before it learns the play, caches it, returns the played entry (or the sum of the entries), then registers the play. A stochastic environment (skbandit/environments/stochastic.py, lines 63-65) draws the next sample of the played arm (see StochasticRewardAdvancesDraw) and keeps its means, best reward and best arm; a combination cannot index its distributions. The full-information environment has no scalar `reward` and fails. Every success adds one interaction and keeps flags and arm count |
| Environments.StochasticRewardAdvancesDraw | skbandit/environments/stochastic.py:63-65 | a stochastic reward of an in-range arm advances that arm's draw counter by one and leaves the others alone, so the arm's next reward is the following, fresh sample of its distribution |
| Environments.RewardsAsWritten | skbandit/environments/adversarial.py:68-71 | the full-information `rewards` as written caches the decided vector, registers the play and returns the vector alone; only the full-information environment provides it |
| Environments.Rewards | skbandit/environments/base.py:68-75 | `rewards` returns the whole decided vector (whatever the play) and the scalar reward of the play, caches the vector and registers the play; other environments fail |
| Environments.Regret | skbandit/environments/adversarial.py:43-49 | adversarial regret fails before any reward has been resolved (AssertionError), fails on an empty cached vector (ValueError of `max`), and otherwise is the maximum of the last vector minus the reward; stochastic regret (skbandit/environments/stochastic.py, lines 60-61) is the best reward minus the reward |
| Environments.StochasticRegretOfTrueReward | skbandit/environments/stochastic.py:47-50 | the regret of an arm's true mean is non-negative; it is zero exactly for the arms of maximal mean, among which the best arm |
| Environments.StochasticRegretIsStationary | skbandit/environments/base.py:39-45 | in a stochastic environment, resolving a reward changes neither the regret of any reward nor any true reward |
| Environments.AdversaryDecidesBeforePlay | skbandit/environments/adversarial.py:55-64 | the cached vector does not depend on the play, and the adversary learns exactly the play |
| Environments.AdversarialRegretOfPlayedArm | skbandit/environments/adversarial.py:43-64 | after a round, the regret of the played arm's reward is the maximum of that round's vector minus its entry, and is never negative |
| Environments.FullInformationRegret | skbandit/environments/base.py:68-75 | the full-information vector is the same whatever the play; the scalar is the played entry, and its regret is the vector's maximum minus it, never negative |
| Experiments.New | skbandit/experiments/base.py:22-29 | a base experiment keeps the environment and bandit it is given and has no best arm |
| Experiments.NewMultiArmedStochastic | skbandit/experiments/stochastic.py:12-18 | construction fails iff the arm counts differ; otherwise the best arm is in range, its mean bounds all means and is the best reward, and every earlier mean is strictly smaller |
| Experiments.NewMultiArmedAdversarial | skbandit/experiments/adversarial.py:12-14 | construction fails iff the arm counts differ; otherwise there is no best arm |
| Experiments.Regret | skbandit/experiments/base.py:31-33 | the experiment's regret is exactly the environment's |
| Experiments.Round | skbandit/experiments/base.py:63-102 | `round` reports exhaustion iff the environment may stop and refuses. A successful round resolves exactly one reward and keeps feedback shape, best arm, flags and arm counts. Only bandit-feedback rounds complete |
| Experiments.Rounds | skbandit/experiments/base.py:40-54 | `rounds(0)` is zero. `rounds` never reports exhaustion and keeps best arm and flags. In a never-stopping environment it runs exactly n rounds; otherwise at most n, and fewer only when the environment refuses at the end |
| Experiments.SumOfRoundsCounts | skbandit/experiments/base.py:45-46 | without stopping, n rounds resolve exactly n rewards and never report exhaustion |
| Experiments.UntilRefusedCounts | skbandit/experiments/base.py:47-54 | with stopping, the loop resolves at most n rewards, stops early only on a refusal, and returns the partial sum without raising |
| Loop.SumOfInvariant | skbandit/experiments/base.py:45-46 | for any round function: an invariant every successful round keeps holds after n rounds, a count every successful round raises by one rose by exactly n, and an error no round raises is not raised by the loop |
| Loop.UntilRefusedInvariant | skbandit/experiments/base.py:47-54 | the same for the loop that asks before each round: the count rose by at most n, and by less only when the final state refuses |
| Loop.SumOfFree | skbandit/experiments/base.py:45-46 | rounds that always succeed at no cost from an invariant they keep cost nothing in total, for any n |
| Loop.SumOfSimulation | skbandit/experiment.py:26-28 | two round functions that agree step by step on related states agree over n rounds: the same error, or the same total and related final states |
| Experiments.RoundsAdditive | skbandit/experiments/base.py:40-54 | `rounds(n + m)` is `rounds(n)` then `rounds(m)` from the resulting state, regrets added; a failure in the first n propagates |
| Experiments.ExhaustedStopsRounds | skbandit/experiments/base.py:47-51 | when the environment may stop and refuses, `rounds(n)` returns 0 and changes nothing, while `round` reports exhaustion |
| Experiments.BanditFeedbackRoundForwards | skbandit/experiments/base.py:99-102 | a bandit-feedback round hands the bandit the very arm it pulled and the reward the environment returned, and returns that reward's regret |
| Experiments.VectorRoundError | skbandit/experiments/base.py:67-69 | after the pull, a semi-bandit or full-information round fails with NotImplemented unless the environment is full-information. With full information, the returned list is unpacked into `rewards, reward`: a list without exactly two entries fails there, and otherwise the bandit's `rewards` refuses its first entry |
| Experiments.VectorFeedbackRoundFails | skbandit/experiments/base.py:63-86 | where the environment does not refuse, a semi-bandit or full-information round fails: a bandit without arms at `pull`; with full information at the unpacking, unless the decided list has exactly two entries, and then at the bandit's `rewards`; with any other environment because it has no list to give |
| Experiments.AdversarialRoundRegret | skbandit/experiments/base.py:99-102 | each adversarial round costs the maximum of that round's vector minus the played entry, never negative |
| Experiments.AdversarialRegretBeforeFirstRound | skbandit/experiments/adversarial.py:12-14 | an adversarial experiment has no best arm, and its regret before the first round is the sequencing error |
| Experiments.StochasticRoundRegret | skbandit/experiments/base.py:99-102 | each stochastic round costs the best mean minus the sample of the pulled arm; never negative when that sample is the arm's mean |
| Experiments.StochasticRoundSucceeds | skbandit/experiments/stochastic.py:12-18 | with matching arm counts a stochastic bandit-feedback round never fails. The bandit receives the sample, the distributions and best reward stay, and the round costs the best mean minus the sample |
| Experiments.UnpackAsWritten | skbandit/experiments/base.py:68 | `rewards, reward = v` succeeds iff the list has exactly two entries, which it splits |
| Experiments.FullInformationUnpackCounterexample | skbandit/environments/adversarial.py:68-71 | as written, with three arms the unpacking fails. With arms [0, 1] and arm 0 played, the regret reads 0 instead of the 1 the corrected `rewards` gives |
| Legacy.NewAdversarial | skbandit/environment.py:148-153 | the older adversarial environment fails iff its arm count differs from the adversary's; otherwise it has nothing cached and the default flags |
| Legacy.LastRewards | skbandit/environment.py:165-176 | the older full-information `rewards()` reads the same cache as `regret`: when it is empty, regret is the sequencing error; when it holds a vector, regret is that vector's maximum minus the reward |
| Legacy.LastRewardsAfterRound | skbandit/environment.py:159-176 | the older full-information `rewards()` has nothing before the first round. After a round it is that round's whole vector, whose played entry is the reward returned and whose maximum sets the regret |
| Legacy.New | skbandit/experiment.py:10-14 | the older experiment's best arm is the first arm of maximal mean; the arm counts are not compared |
| Legacy.Regret | skbandit/experiment.py:16-17 | the mean of the best arm minus the reward, which equals the environment's regret |
| Legacy.Round | skbandit/experiment.py:19-24 | an older round never reports exhaustion, since it asks the environment nothing; a successful one resolves one reward and keeps best arm, flags and arm counts |
| Legacy.Rounds | skbandit/experiment.py:26-28 | the older `rounds(0)` is zero; `rounds(n)` never reports exhaustion, and a successful one resolves exactly n rewards, even in an environment that may stop, and keeps best arm and flags |
| Legacy.RoundsCounts | skbandit/experiment.py:26-28 | n older rounds never report exhaustion and resolve exactly n rewards, keeping best arm and flags |
| Legacy.RoundAgrees | skbandit/experiment.py:19-24 | where the newer round does not refuse, an older round and a newer bandit-feedback round give the same error, or the same regret and the same next environment and bandit |
| Legacy.RoundsAgree | skbandit/experiment.py:26-28 | for a never-stopping environment the older `rounds(n)` (a plain sum) and the newer one agree: the same error, or the same total and final state |
| Legacy.ArmCountSurfacesLate | skbandit/experiment.py:10-14 | the older experiment accepts a bandit with more arms than the environment, and the mismatch appears as an IndexError in the round; the newer constructor refuses |
| Scenarios.Alternating | skbandit/bandit.py:85-86 | from round 0, exploration pulls on two arms alternate 0, 1, 0, ... |
| Scenarios.ThreeCommittedPulls | skbandit/bandit.py:88-89 | three pulls of a committed bandit repeat the committed arm |
| Scenarios.CommitsAfterExploration | skbandit/bandit.py:90-92 | the pull at the horizon commits to one of the two arms |
| Scenarios.TwoArmsPlay | skbandit/bandit.py:83-95 | two arms from round 0: alternate through the horizon, then repeat one arm |
| Scenarios.TwoArmsOneEpoch | tests/tests.py:10-22 | two arms, default epochs: pulls 0, 1, then c, c, c for one c in {0, 1} |
| Scenarios.TwoArmsThreeEpochs | tests/tests.py:24-40 | two arms, three epochs: pulls 0, 1, 0, 1, 0, 1, then c, c, c |
| Scenarios.ExploreRound | skbandit/bandit.py:97-100 | an exploration pull followed by its reward returns the round-robin arm and records the reward for it |
| Scenarios.ThreeArmsExplored | tests/tests.py:63-72 | the three exploration rounds of the rewarded test pull 0, 1, 2 and leave totals [10, 0, 5] and counts [1, 1, 1], still uncommitted at the horizon |
| Scenarios.CommitsToFirstOfThree | tests/tests.py:74-78 | with totals [10, 0, 5] at the horizon, the commit pull picks arm 0 and changes no statistic |
| Scenarios.ThreeArmsRewarded | tests/tests.py:63-103 | three arms with exploration rewards 10, 0, 5: pulls 0, 1, 2. Totals become [10, 0, 5] and counts [1, 1, 1]. The bandit commits to arm 0, and any later script pulls only arm 0 and changes no statistic |
| Scenarios.CommittedToBestCostsNothing | skbandit/experiments/base.py:45-46 | once the bandit has committed to an arm whose samples are always the best mean, any number of further rounds costs 0 |
| Scenarios.CommittedRoundCostsNothing | skbandit/experiments/base.py:99-102 | one round with the bandit committed to an arm that always pays the best mean succeeds, costs 0 and keeps the bandit committed to that arm |
| Scenarios.CommitToBetterArm | skbandit/bandits/mab.py:52-54 | after exploring arms paying 0 and 1, the commit pull picks the arm paying 1 and the rounds from there cost 0 |
| Scenarios.CommitRound | skbandit/bandits/mab.py:52-54 | after arms paying 0 and 1 were explored, the commit round pulls arm 1, costs 0 and leaves the bandit committed to it |
| Scenarios.ExploreDeterministicArm | skbandit/experiments/base.py:99-102 | an exploration round on arms paying 0 and 1 costs 1 minus the payment of the round-robin arm, which is recorded |
| Scenarios.ExploreSecondArm | skbandit/bandits/mab.py:47-48 | the second exploration round on arms paying 0 and 1 costs 0 and leaves the bandit at its commit round with totals 0 and 1 |
| Scenarios.TwoArmsFromRoundOne | skbandit/experiments/base.py:45-46 | from round 1, having drawn 0 from the first arm, n >= 1 further rounds on arms paying 0 and 1 cost 0 in total |
| Scenarios.TwoArmsFromRoundZero | skbandit/experiments/base.py:45-46 | from round 0, n >= 2 rounds on arms paying 0 and 1 cost exactly 1 in total |
| Scenarios.TwoDeterministicArms | skbandit/experiments/stochastic.py:12-18 | with arms paying exactly 0 and 1 and a one-epoch explore-then-commit bandit, `rounds(n)` is 1 for every n >= 2 (in particular `rounds(10) == 1.0`) |
| Scenarios.StochasticEnvironmentOfTwoPointMasses | tests/tests.py:106-121 | two point masses at 0 and 1: two arms, true rewards 0 and 1 equal to the true-reward list's entries, samples 0 and 1, regrets 1 and 0 |

## Left out

- The `(gap, horizon)` choice of the epoch count (skbandit/bandits/mab.py:30-32, skbandit/bandit.py:68-70) and its test
  (tests/tests.py:42-61): floating-point `log` and `ceil`. The epoch count is a parameter instead.
- Contextual and linear LinUCB (skbandit/bandits/contextual.py, skbandit/bandits/linear.py) are not part of this model:
  floating-point linear algebra and square roots.
- `WeightedMajority` (skbandit/bandits/adversarial.py) is not part of this model: its `pull` and `reward` are empty.
- SciPy distributions: a distribution is its mean and a sequence of samples, with no probability attached. A draw
  returns the next sample of the arm.
- The adversary's `decide_rewards`/`register_interaction` are abstract in the source. The adversary is a deterministic
  function of the history of plays.
- Negative arm indices (Python reads them from the end of a list) and a negative `n_arms`: arms and arm counts are
  `nat`. A negative or zero `n_epochs` is kept.
- `isinstance(arm, collections.Sequence)` in skbandit/environments/stochastic.py:22 fails on recent Python. The model
  follows the evident intent: a list of arms is a combination.
- State left behind by a failure in the middle of a step is dropped. A failed operation returns only its error, whereas
  Python has already mutated some fields (for example the cached vector before an IndexError).
- Semi-bandit feedback is modelled with a reward vector rather than a dictionary. No environment of the core provides
  semi-bandit rewards, so such a round always fails.
- The regret that a full-information or semi-bandit round would compute after `bandit.rewards` succeeds. No bandit of
  the core overrides `rewards`, so that point is never reached.
- skbandit/experiment.py reads `environment.true_means` and `environment.true_mean(best_arm)`, which
  skbandit/environment.py does not define: it names them `true_rewards` and `true_reward`. The older experiment is
  modelled by meaning, with the means of the environment.
- The older adversarial environment's `reward` reports `(arm, reward)` to the adversary. The model reports the play
  alone, since the reward is itself a function of the history the adversary already holds.
- The older full-information environment plays through the adversarial `reward` (skbandit/environment.py:174-176). It
  is modelled as an adversarial environment read through `Legacy.LastRewards`.
- Experiments.Rounds, Legacy.Rounds: `n` is a `nat`. Python's `range(n)` is empty for a negative `n`, so `rounds(n)`
  returns 0 there; that case is not modelled.
- The older adversarial `reward` (skbandit/environment.py:159-163) and the older `true_reward`
  (skbandit/environment.py:103-104) index a list with the arm, so a list of arms is a TypeError there. The older
  revision is modelled with the newer environments, which sum the entries of a combination. The older experiment only
  plays single arms, where the two agree.
- Scenarios.TwoArmsOneEpoch, Scenarios.TwoArmsThreeEpochs, Scenarios.ThreeArmsRewarded: stated for any bandit with the
  test's arm and epoch counts at round 0 (and, for the rewarded test, zero statistics), such as `Init(2, None)`. This
  covers the tests' fresh bandits; a literal `Init(...)` is not used.
- Scenarios.TwoDeterministicArms, Scenarios.StochasticEnvironmentOfTwoPointMasses: the tests' `rv_histogram` point
  masses are distributions whose samples are always the stated value, not floating-point histograms.

## Findings

| source | as written | input that shows it | evidently intended | confidence | as-written member | corrected member |
|---|---|---|---|---|---|---|
| skbandit/environments/adversarial.py:68-71 | `FullInformationAdversarialMultiArmedEnvironment.rewards` returns the reward vector alone, while `FullInformationExperiment.round` (skbandit/experiments/base.py:68) unpacks `rewards, reward` from it | three arms: the unpacking of a 3-entry list fails. Two arms deciding [0, 1] with arm 0 played: `reward` becomes 1.0 and the regret reads 0 instead of 1 | return the vector together with the scalar reward of the play, as the full-information contract in skbandit/environments/base.py:68-75 promises | not executed | Environments.RewardsAsWritten, Experiments.UnpackAsWritten, Experiments.VectorRoundError, Experiments.FullInformationUnpackCounterexample | Environments.Rewards, Environments.FullInformationRegret |

`Experiments.Round` follows the code as written, through `Experiments.VectorRoundError`. The corrected `rewards` and
its regret are proved separately. No bandit of the core accepts a vector, so a full-information round fails under
either definition; only the error differs.

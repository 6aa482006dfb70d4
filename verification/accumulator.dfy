/** Per-arm pull counts and reward totals, shared by the bandits that learn
    from their own rewards (`RewardAccumulatorMixin`). */
module RewardAccumulator {
  import opened Outcome
  import Reals

  datatype Accumulator = Accumulator(counts: seq<nat>, totals: seq<real>)

  /** One count and one total per arm. */
  predicate Valid(a: Accumulator) {
    |a.counts| == |a.totals|
  }

  /** A fresh accumulator: every arm pulled zero times for a total of zero. */
  function Init(nArms: nat): (a: Accumulator)
    ensures Valid(a) && |a.counts| == nArms
    ensures forall i :: 0 <= i < nArms ==> a.counts[i] == 0 && a.totals[i] == 0.0
  {
    Accumulator(seq(nArms, _ => 0), seq(nArms, _ => 0.0))
  }

  /** Records that `arm` was pulled and yielded `reward`. An arm past the
      end of the lists is an index error. */
  function Record(a: Accumulator, arm: nat, reward: real): (res: Result<Accumulator>)
    requires Valid(a)
    ensures res.Success? <==> arm < |a.counts|
    ensures res.Failure? ==> res.error == IndexOutOfRange
    ensures res.Success? ==> Valid(res.value) && |res.value.counts| == |a.counts|
    ensures res.Success? ==> res.value.counts[arm] == a.counts[arm] + 1
    ensures res.Success? ==> res.value.totals[arm] == a.totals[arm] + reward
    ensures res.Success? ==> forall i :: 0 <= i < |a.counts| && i != arm ==>
      res.value.counts[i] == a.counts[i] && res.value.totals[i] == a.totals[i]
  {
    if arm < |a.counts| then
      Success(Accumulator(a.counts[arm := a.counts[arm] + 1], a.totals[arm := a.totals[arm] + reward]))
    else
      Failure(IndexOutOfRange)
  }

  /** One recorded interaction: the arm and the reward it yielded. */
  datatype Event = Event(arm: nat, reward: real)

  /** Records a log of interactions in order, stopping at the first bad arm. */
  function RecordAll(a: Accumulator, events: seq<Event>): (res: Result<Accumulator>)
    requires Valid(a)
    ensures res.Success? <==> forall i :: 0 <= i < |events| ==> events[i].arm < |a.counts|
    ensures res.Success? ==> Valid(res.value) && |res.value.counts| == |a.counts|
    decreases |events|
  {
    if |events| == 0 then Success(a)
    else
      var b :- RecordAll(a, events[..|events| - 1]);
      Record(b, events[|events| - 1].arm, events[|events| - 1].reward)
  }

  /** How many events of the log name `arm`. */
  function CountOf(events: seq<Event>, arm: nat): nat
  {
    if |events| == 0 then 0
    else CountOf(events[..|events| - 1], arm) + (if events[|events| - 1].arm == arm then 1 else 0)
  }

  /** The sum of the rewards the log records for `arm`. */
  function TotalOf(events: seq<Event>, arm: nat): real
  {
    if |events| == 0 then 0.0
    else TotalOf(events[..|events| - 1], arm) + (if events[|events| - 1].arm == arm then events[|events| - 1].reward else 0.0)
  }

  /** One recorded reward adds one to the sum of the counts. */
  lemma RecordCountsSum(a: Accumulator, arm: nat, reward: real)
    requires Valid(a) && arm < |a.counts|
    ensures Reals.SumNat(Record(a, arm, reward).value.counts) == Reals.SumNat(a.counts) + 1
  {
    assert Record(a, arm, reward).value.counts == a.counts[arm := a.counts[arm] + 1];
    Reals.SumNatIncrement(a.counts, arm);
  }

  /** Recording a log adds to each arm exactly its events: its count grows by
      the number of events naming it, its total by the sum of their rewards,
      and the sum of all counts by the length of the log. */
  lemma {:induction false} RecordAllTallies(a: Accumulator, events: seq<Event>)
    requires Valid(a)
    requires forall i :: 0 <= i < |events| ==> events[i].arm < |a.counts|
    ensures RecordAll(a, events).Success?
    ensures var b := RecordAll(a, events).value;
      && Reals.SumNat(b.counts) == Reals.SumNat(a.counts) + |events|
      && forall arm :: 0 <= arm < |a.counts| ==>
           b.counts[arm] == a.counts[arm] + CountOf(events, arm)
           && b.totals[arm] == a.totals[arm] + TotalOf(events, arm)
  {
    if |events| > 0 {
      var front := events[..|events| - 1];
      var last := events[|events| - 1];
      assert forall i :: 0 <= i < |front| ==> front[i] == events[i];
      RecordAllTallies(a, front);
      var b := RecordAll(a, front).value;
      var c := Record(b, last.arm, last.reward).value;
      assert RecordAll(a, events) == Success(c);
      RecordCountsSum(b, last.arm, last.reward);
      forall arm | 0 <= arm < |a.counts|
        ensures c.counts[arm] == a.counts[arm] + CountOf(events, arm)
        ensures c.totals[arm] == a.totals[arm] + TotalOf(events, arm)
      {
        assert CountOf(events, arm) == CountOf(front, arm) + (if last.arm == arm then 1 else 0);
        assert TotalOf(events, arm) == TotalOf(front, arm) + (if last.arm == arm then last.reward else 0.0);
      }
    }
  }

  /** From a fresh accumulator, after k recorded rewards the counts sum to k
      and each arm's total is the sum of the rewards recorded for it. */
  lemma FreshTallies(nArms: nat, events: seq<Event>)
    requires forall i :: 0 <= i < |events| ==> events[i].arm < nArms
    ensures RecordAll(Init(nArms), events).Success?
    ensures var b := RecordAll(Init(nArms), events).value;
      && |b.counts| == nArms
      && Reals.SumNat(b.counts) == |events|
      && forall arm :: 0 <= arm < nArms ==>
           b.counts[arm] == CountOf(events, arm) && b.totals[arm] == TotalOf(events, arm)
  {
    RecordAllTallies(Init(nArms), events);
    Reals.SumNatZeros(nArms);
  }
}

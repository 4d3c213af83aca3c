/**
 What the bus harness measures: subscribers on pods, publishing every community's events one by one,
 and the counts that come out; beside it the arithmetic model of the same scenario, and the assertion
 both are held to. Redis is a broker that hands each message to every subscriber of its channel;
 rates are exact numbers.
 */
module BusScaling {
  import opened Wrappers
  import opened BusTopics
  import opened Sequences
  import Resp

  // Counting.

  /** A Redis subscriber on one pod. */
  class RedisSubscriber {
    const channels: seq<string>
    const relevantCommunities: set<string>
    var received: nat
    var irrelevant: nat

    constructor (channels: seq<string>, relevantCommunities: set<string>)
      ensures this.channels == channels && this.relevantCommunities == relevantCommunities
      ensures received == 0 && irrelevant == 0
    {
      this.channels, this.relevantCommunities := channels, relevantCommunities;
      received, irrelevant := 0, 0;
    }

    /** One message frame, read off the stream. */
    method Receive(payload: string)
      modifies this
      ensures received == old(received) + 1
      ensures irrelevant == old(irrelevant) + if BeforeBar(payload) in relevantCommunities then 0 else 1
    {
      var community := BeforeBar(payload);
      received := received + 1;
      if community !in relevantCommunities {
        irrelevant := irrelevant + 1;
      }
    }
  }

  /** What publishing `events` events of each community adds to a subscriber's two counters. */
  function Heard(channels: seq<string>, topics: seq<string>, events: nat): nat {
    if topics == [] then 0
    else
      Heard(channels, topics[..|topics| - 1], events)
      + if topics[|topics| - 1] in channels then events else 0
  }

  function Strays(channels: seq<string>, relevant: set<string>, topics: seq<string>, events: nat): nat {
    if topics == [] then 0
    else
      Strays(channels, relevant, topics[..|topics| - 1], events)
      + if topics[|topics| - 1] in channels && CommunityId(|topics| - 1) !in relevant then events else 0
  }

  ghost predicate Distinct(subs: seq<RedisSubscriber>) {
    forall i, j :: 0 <= i < j < |subs| ==> subs[i] != subs[j]
  }

  /** PUBLISH: every subscriber of the channel receives the payload. */
  method Publish(subs: seq<RedisSubscriber>, channel: string, payload: string)
    requires Distinct(subs)
    modifies set s | s in subs
    ensures forall i :: 0 <= i < |subs| ==>
      subs[i].received == old(subs[i].received) + if channel in subs[i].channels then 1 else 0
    ensures forall i :: 0 <= i < |subs| ==>
      subs[i].irrelevant == old(subs[i].irrelevant)
        + if channel in subs[i].channels && BeforeBar(payload) !in subs[i].relevantCommunities then 1 else 0
  {
    for n := 0 to |subs|
      invariant forall i :: n <= i < |subs| ==>
        subs[i].received == old(subs[i].received) && subs[i].irrelevant == old(subs[i].irrelevant)
      invariant forall i :: 0 <= i < n ==>
        subs[i].received == old(subs[i].received) + if channel in subs[i].channels then 1 else 0
      invariant forall i :: 0 <= i < n ==>
        subs[i].irrelevant == old(subs[i].irrelevant)
          + if channel in subs[i].channels && BeforeBar(payload) !in subs[i].relevantCommunities then 1 else 0
    {
      if channel in subs[n].channels {
        subs[n].Receive(payload);
      }
    }
  }

  method PublishScenario(subs: seq<RedisSubscriber>, topics: seq<string>, events: nat)
    requires Distinct(subs)
    modifies set s | s in subs
    ensures forall i :: 0 <= i < |subs| ==>
      && subs[i].received == old(subs[i].received) + Heard(subs[i].channels, topics, events)
      && subs[i].irrelevant == old(subs[i].irrelevant)
           + Strays(subs[i].channels, subs[i].relevantCommunities, topics, events)
  {
    for c := 0 to |topics|
      invariant forall i :: 0 <= i < |subs| ==>
        && subs[i].received == old(subs[i].received) + Heard(subs[i].channels, topics[..c], events)
        && subs[i].irrelevant == old(subs[i].irrelevant)
             + Strays(subs[i].channels, subs[i].relevantCommunities, topics[..c], events)
    {
      var community := CommunityId(c);
      assert topics[..c + 1][..c] == topics[..c];
      PublishCommunity(subs, topics[c], community, events);
    }
    assert topics[..|topics|] == topics;
  }

  /** The inner loop: one community's events. */
  method PublishCommunity(subs: seq<RedisSubscriber>, channel: string, community: string, events: nat)
    requires Distinct(subs) && '|' !in community
    modifies set s | s in subs
    ensures forall i :: 0 <= i < |subs| ==>
      && subs[i].received == old(subs[i].received) + (if channel in subs[i].channels then events else 0)
      && subs[i].irrelevant == old(subs[i].irrelevant)
           + if channel in subs[i].channels && community !in subs[i].relevantCommunities then events else 0
  {
    for event := 0 to events
      invariant forall i :: 0 <= i < |subs| ==>
        && subs[i].received == old(subs[i].received) + (if channel in subs[i].channels then event else 0)
        && subs[i].irrelevant == old(subs[i].irrelevant)
             + if channel in subs[i].channels && community !in subs[i].relevantCommunities then event else 0
    {
      PayloadNamesItsCommunity(community, Resp.Decimal(event));
      Publish(subs, channel, community + "|" + Resp.Decimal(event));
    }
  }

  // Closed forms.

  function Ids(n: nat): seq<string> { seq(n, i requires 0 <= i < n => CommunityId(i)) }

  function ScopedTopics(n: nat): seq<string> {
    seq(n, i requires 0 <= i < n => ScopedChannel(CommunityId(i)))
  }

  function GlobalTopics(n: nat): seq<string> { seq(n, i requires 0 <= i < n => OLD_GLOBAL_CHANNEL) }

  function Relevant(n: nat): set<string> { set id | id in Ids(n) }

  /** Multiplication, under a name that proofs can treat as a symbol. */
  function Times(a: int, b: int): int { a * b }

  lemma TimesOneMore(a: int, b: int)
    ensures Times(a + 1, b) == Times(a, b) + b && Times(0, b) == 0
  {
  }

  lemma TimesNothing(a: int)
    ensures Times(a, 0) == 0
  {
  }

  lemma IdIsRelevant(c: nat, subscribed: nat)
    requires c + 1 < UUIDS && subscribed < UUIDS
    ensures CommunityId(c) in Relevant(subscribed) <==> c < subscribed
    ensures ScopedChannel(CommunityId(c)) in ScopedTopics(subscribed) <==> c < subscribed
  {
    hide CommunityId, ScopedChannel;
    if c < subscribed {
      assert Ids(subscribed)[c] == CommunityId(c);
      assert ScopedTopics(subscribed)[c] == ScopedChannel(CommunityId(c));
    }
    forall i | 0 <= i < subscribed
      ensures Ids(subscribed)[i] == CommunityId(c) ==> i == c
      ensures ScopedTopics(subscribed)[i] == ScopedChannel(CommunityId(c)) ==> i == c
    {
      TopicsAreDistinct(i, c);
    }
  }

  /** On the global bus a pod hears everything, and all but the subscribed communities' share is noise. */
  lemma {:induction false} GlobalBusCounts(communities: nat, subscribed: nat, events: nat)
    requires communities < UUIDS && subscribed < UUIDS
    ensures Heard([OLD_GLOBAL_CHANNEL], GlobalTopics(communities), events) == Times(communities, events)
    ensures Strays([OLD_GLOBAL_CHANNEL], Relevant(subscribed), GlobalTopics(communities), events)
      == Times(communities - Min(communities, subscribed), events)
  {
    hide CommunityId, Relevant, Times;
    TimesOneMore(communities - 1, events);
    TimesOneMore(communities - 1 - Min(communities - 1, subscribed), events);
    if communities > 0 {
      assert GlobalTopics(communities)[..communities - 1] == GlobalTopics(communities - 1);
      GlobalBusCounts(communities - 1, subscribed, events);
      IdIsRelevant(communities - 1, subscribed);
    }
  }

  /** On the scoped bus a pod hears the communities it subscribed to, and no noise at all. */
  lemma {:induction false} ScopedBusCounts(communities: nat, subscribed: nat, events: nat)
    requires communities < UUIDS && subscribed < UUIDS
    ensures Heard(ScopedTopics(subscribed), ScopedTopics(communities), events)
      == Times(Min(communities, subscribed), events)
    ensures Strays(ScopedTopics(subscribed), Relevant(subscribed), ScopedTopics(communities), events) == 0
  {
    hide CommunityId, ScopedChannel, Relevant, Times;
    TimesOneMore(communities - 1, events);
    TimesOneMore(Min(communities - 1, subscribed), events);
    if communities > 0 {
      assert ScopedTopics(communities)[..communities - 1] == ScopedTopics(communities - 1);
      ScopedBusCounts(communities - 1, subscribed, events);
      IdIsRelevant(communities - 1, subscribed);
    }
  }

  // Measuring and modelling.

  datatype Args = Args(
    communities: int, events: real, subscribed: int, interest: int,
    minReductionRatio: real, maxIrrelevantPct: real)
  {
    /** What `run` checks before either mode starts. */
    predicate Checked() { 0 < subscribed <= communities }
  }

  datatype Reduction = Infinite | Finite(factor: real)

  datatype Measurement = Measurement(
    pods: int, oldCluster: int, oldAvgPod: real, oldIrrelevantPct: real,
    newCluster: int, newAvgPod: real, newIrrelevantPct: real, reduction: Reduction, published: int)

  datatype MeasureError = FractionalEvents | NoSuchUuid | DividesByZero

  /** How many pods subscribe: all of them when the argument is 0. */
  function InterestedPods(args: Args, pods: int): int {
    if args.interest == 0 then pods else Min(pods, args.interest)
  }

  function Share(part: int, whole: int): real {
    if whole == 0 then 0.0 else 100.0 * part as real / whole as real
  }

  function Reduced(before: real, after: real): Reduction {
    if after == 0.0 then Infinite else Finite(before / after)
  }

  /** The measurement that counting `oldCluster`, … deliveries amounts to. */
  function Row(
      pods: int, oldCluster: int, oldIrrelevant: int, newCluster: int, newIrrelevant: int,
      published: int): Measurement
    requires pods > 0
  {
    Measurement(
      pods, oldCluster, oldCluster as real / pods as real, Share(oldIrrelevant, oldCluster),
      newCluster, newCluster as real / pods as real, Share(newIrrelevant, newCluster),
      Reduced(oldCluster as real, newCluster as real), published)
  }

  /** Starts `count` subscribers of the same channels and publishes every community's events. */
  method CountDeliveries(
      count: nat, channels: seq<string>, relevant: set<string>, topics: seq<string>, events: nat)
      returns (received: nat, irrelevant: nat)
    ensures received == Times(count, Heard(channels, topics, events))
    ensures irrelevant == Times(count, Strays(channels, relevant, topics, events))
  {
    hide Times, Heard, Strays;
    var heard, strays := Heard(channels, topics, events), Strays(channels, relevant, topics, events);
    var subs: seq<RedisSubscriber> := [];
    for pod := 0 to count
      invariant |subs| == pod && Distinct(subs) && forall s :: s in subs ==> fresh(s)
      invariant forall i :: 0 <= i < pod ==>
        && subs[i].channels == channels && subs[i].relevantCommunities == relevant
        && subs[i].received == 0 && subs[i].irrelevant == 0
    {
      var sub := new RedisSubscriber(channels, relevant);
      subs := subs + [sub];
    }
    PublishScenario(subs, topics, events);
    assert forall i :: 0 <= i < count ==> subs[i].received == heard && subs[i].irrelevant == strays;
    received, irrelevant := 0, 0;
    TimesOneMore(0, heard);
    TimesOneMore(0, strays);
    for i := 0 to count
      invariant forall j :: 0 <= j < count ==> subs[j].received == heard && subs[j].irrelevant == strays
      invariant received == Times(i, heard)
      invariant irrelevant == Times(i, strays)
    {
      TimesOneMore(i, heard);
      TimesOneMore(i, strays);
      received := received + subs[i].received;
      irrelevant := irrelevant + subs[i].irrelevant;
    }
  }

  /** What `--mode redis` reports, in closed form. */
  function Measured(args: Args, pods: int): Result<Measurement, MeasureError>
    requires args.Checked() && pods > 0
  {
    var events := args.events.Floor;
    var heard, interested := Max(events, 0), Max(InterestedPods(args, pods), 0);
    if events as real != args.events then Err(FractionalEvents)
    else if args.communities >= UUIDS then Err(NoSuchUuid)
    else
      Ok(Row(
        pods, Times(pods, Times(args.communities, heard)),
        Times(pods, Times(args.communities - args.subscribed, heard)),
        Times(interested, Times(args.subscribed, heard)), 0, Times(args.communities, events)))
  }

  method MeasureRedisForPods(args: Args, pods: int) returns (row: Result<Measurement, MeasureError>)
    requires args.Checked() && pods > 0
    ensures row == Measured(args, pods)
  {
    hide Times, Heard, Strays, Row;
    TimesNothing(Max(InterestedPods(args, pods), 0));
    var events := args.events.Floor;
    if events as real != args.events {
      return Err(FractionalEvents);
    }
    if args.communities >= UUIDS {
      return Err(NoSuchUuid);
    }
    var relevant := Relevant(args.subscribed);
    var published := Max(events, 0);
    GlobalBusCounts(args.communities, args.subscribed, published);
    ScopedBusCounts(args.communities, args.subscribed, published);
    var oldCluster, oldIrrelevant := CountDeliveries(
      pods, [OLD_GLOBAL_CHANNEL], relevant, GlobalTopics(args.communities), published);
    var newCluster, newIrrelevant := CountDeliveries(
      Max(InterestedPods(args, pods), 0), ScopedTopics(args.subscribed), relevant,
      ScopedTopics(args.communities), published);
    row := Ok(Row(pods, oldCluster, oldIrrelevant, newCluster, newIrrelevant, Times(args.communities, events)));
  }

  /** `int(x)` of a float: towards zero. */
  function Truncated(x: real): int { if x >= 0.0 then x.Floor else -(-x).Floor }

  /** The scenario of the arithmetic model. */
  datatype Scenario = Scenario(pods: int, communities: int, events: real, subscribed: int, interested: int)
  {
    function TotalRate(): real { communities as real * events }

    function SubscribedRate(): real { subscribed as real * events }

    /** Cluster ingress, ingress per pod, and how much of it is noise, on the global bus. */
    function OldGlobalFirehose(): (real, real, real)
      requires TotalRate() != 0.0
    {
      var noise := if TotalRate() - SubscribedRate() > 0.0 then TotalRate() - SubscribedRate() else 0.0;
      (pods as real * TotalRate(), TotalRate(), 100.0 * noise / TotalRate())
    }

    function ScopedCluster(): real { subscribed as real * Min(pods, interested) as real * events }

    function ScopedBus(): (real, real, real)
      requires pods != 0
    {
      (ScopedCluster(), ScopedCluster() / pods as real, 0.0)
    }
  }

  function ScenarioOf(args: Args, pods: int): Scenario {
    Scenario(pods, args.communities, args.events, args.subscribed, if args.interest == 0 then pods else args.interest)
  }

  /** One row of `--mode model`. */
  function Modelled(args: Args, pods: int): Result<Measurement, MeasureError>
    requires args.Checked() && pods > 0
  {
    var scenario := ScenarioOf(args, pods);
    if scenario.TotalRate() == 0.0 then Err(DividesByZero)
    else
      var (oldCluster, oldPod, oldIrrelevant) := scenario.OldGlobalFirehose();
      var (newCluster, newPod, newIrrelevant) := scenario.ScopedBus();
      Ok(Measurement(
        pods, Truncated(oldCluster), oldPod, oldIrrelevant, Truncated(newCluster), newPod, newIrrelevant,
        Reduced(oldCluster, newCluster), Truncated(scenario.TotalRate())))
  }

  /** Fractions are dropped towards zero. */
  lemma TruncatedIsNearest(x: real)
    ensures x >= 0.0 ==> 0 <= Truncated(x) && Truncated(x) as real <= x < Truncated(x) as real + 1.0
    ensures x <= 0.0 ==> Truncated(x) <= 0 && Truncated(x) as real - 1.0 < x <= Truncated(x) as real
  {
  }

  /** Measuring fails for rates that are not whole and ids that do not exist, modelling without any events. */
  lemma FailuresAreExact(args: Args, pods: int)
    requires args.Checked() && pods > 0
    ensures var fault := if args.events.Floor as real != args.events then FractionalEvents else NoSuchUuid;
      if args.events.Floor as real != args.events || args.communities >= UUIDS
      then Measured(args, pods) == Err(fault) else Measured(args, pods).Ok?
    ensures if args.events == 0.0 then Modelled(args, pods) == Err(DividesByZero) else Modelled(args, pods).Ok?
  {
    hide Row;
    if args.events != 0.0 {
      ProductIsZeroOnlyIf(args.communities as real, args.events);
    }
  }

  // The assertion.

  predicate Passes(args: Args, row: Measurement)
    requires args.subscribed != 0
  {
    var least := args.communities as real / args.subscribed as real * args.minReductionRatio;
    && !(row.reduction.Finite? && row.reduction.factor < least)
    && !(row.newIrrelevantPct > args.maxIrrelevantPct)
  }

  lemma DivisionCancels(a: real, b: real)
    requires b != 0.0
    ensures a * b / b == a
  {
  }

  lemma ProductIsZeroOnlyIf(a: real, b: real)
    requires a != 0.0 && b != 0.0
    ensures a * b != 0.0
  {
  }

  lemma Scaled(ideal: real, a: real, b: real)
    requires ideal > 0.0
    ensures b * ideal < ideal * a <==> b < a
  {
  }

  function Ideal(args: Args): real
    requires args.Checked()
  {
    args.communities as real / args.subscribed as real
  }

  function Spread(args: Args, pods: int): real
    requires args.Checked() && pods > 0
  {
    pods as real / InterestedPods(args, pods) as real
  }

  lemma Regrouped(p: real, i: real, q: real, s: real, e: real)
    ensures (p * i) * ((q * s) * e) == (p * q) * (s * i * e)
  {
  }

  lemma QuotientBack(a: real, b: real)
    requires b != 0.0
    ensures (a / b) * b == a
  {
  }

  lemma QuotientOfProducts(n: real, c: real, s: real, i: real, e: real)
    requires c != 0.0 && s != 0.0 && i != 0.0 && e != 0.0
    ensures c * e != 0.0 && s * i * e != 0.0
    ensures n * (c * e) / (s * i * e) == (n / i) * (c / s)
  {
    ProductIsZeroOnlyIf(c, e);
    ProductIsZeroOnlyIf(s, i);
    ProductIsZeroOnlyIf(s * i, e);
    QuotientBack(n, i);
    QuotientBack(c, s);
    Regrouped(n / i, i, c / s, s, e);
    DivisionCancels((n / i) * (c / s), s * i * e);
  }

  /** The modelled reduction is the ideal one, communities by subscribed, times pods by interested pods. */
  lemma ReductionFactors(args: Args, pods: int)
    requires args.Checked() && pods > 0 && args.events != 0.0
    ensures var s := ScenarioOf(args, pods);
            && s.TotalRate() != 0.0
            && Reduced(s.OldGlobalFirehose().0, s.ScopedBus().0) == Finite(Spread(args, pods) * Ideal(args))
  {
    QuotientOfProducts(
      pods as real, args.communities as real, args.subscribed as real,
      InterestedPods(args, pods) as real, args.events);
  }

  lemma ModelRow(args: Args, pods: int)
    requires args.Checked() && pods > 0 && args.events != 0.0
    ensures var row := Modelled(args, pods);
            && row.Ok? && row.value.reduction == Finite(Spread(args, pods) * Ideal(args))
            && row.value.newIrrelevantPct == 0.0
  {
    hide Scenario.TotalRate, Scenario.SubscribedRate, Scenario.ScopedCluster, Spread, Ideal;
    ReductionFactors(args, pods);
  }

  /**
   The assertion on a modelled row, exactly: it passes if and only if the required ratio is at most
   pods by interested pods, and a scoped pod may hear no noise at all.
   */
  lemma ModelPassesExactlyWhen(args: Args, pods: int)
    requires args.Checked() && pods > 0 && args.events != 0.0
    ensures var row := Modelled(args, pods);
            row.Ok? && (Passes(args, row.value) <==>
              args.minReductionRatio <= Spread(args, pods) && 0.0 <= args.maxIrrelevantPct)
  {
    hide Modelled, Spread;
    ModelRow(args, pods);
    Scaled(Ideal(args), args.minReductionRatio, Spread(args, pods));
  }

  /** For positive inputs no modelled row falls below the ideal reduction, so the assertion cannot fail. */
  lemma ModelCannotFail(args: Args, pods: int)
    requires args.Checked() && pods > 0 && args.events > 0.0 && args.interest >= 0
    requires args.minReductionRatio <= 1.0 && args.maxIrrelevantPct >= 0.0
    ensures var row := Modelled(args, pods);
            && row.Ok? && Passes(args, row.value)
            && row.value.reduction.Finite?
            && row.value.reduction.factor >= Ideal(args)
  {
    ModelPassesExactlyWhen(args, pods);
    ModelRow(args, pods);
    SpreadIsAtLeastOne(args, pods);
    hide Modelled, Spread;
    Scaled(Ideal(args), 1.0, Spread(args, pods));
  }

  lemma SpreadIsAtLeastOne(args: Args, pods: int)
    requires args.Checked() && pods > 0 && args.interest >= 0
    ensures Spread(args, pods) >= 1.0
  {
    var interested := InterestedPods(args, pods) as real;
    assert Spread(args, pods) * interested == pods as real >= interested > 0.0;
  }

  // The model against the measurement.

  lemma ProductAsReal(a: int, b: int)
    ensures Times(a, b) as real == a as real * b as real
  {
  }

  lemma WholeIsKept(n: int)
    ensures Truncated(n as real) == n
  {
  }

  lemma OldSidesAgree(pods: int, communities: int, subscribed: int, events: int)
    requires pods > 0 && 0 < subscribed <= communities && events > 0
    ensures var cluster, noise := Times(pods, Times(communities, events)), Times(pods, Times(communities - subscribed, events));
            var total, share := communities as real * events as real, subscribed as real * events as real;
            && total != 0.0 && total >= share
            && cluster as real == pods as real * total
            && cluster as real / pods as real == total
            && Share(noise, cluster) == 100.0 * (total - share) / total
  {
    var total, share := communities as real * events as real, subscribed as real * events as real;
    ProductIsZeroOnlyIf(communities as real, events as real);
    ProductIsZeroOnlyIf(pods as real, total);
    ProductAsReal(communities, events);
    ProductAsReal(communities - subscribed, events);
    ProductAsReal(pods, Times(communities, events));
    ProductAsReal(pods, Times(communities - subscribed, events));
    DivisionCancels(total, pods as real);
    SharesCancel(pods as real, total - share, total);
    GapIsPositive(communities as real, subscribed as real, events as real);
  }

  lemma GapIsPositive(c: real, s: real, e: real)
    requires c >= s && e > 0.0
    ensures c * e - s * e == (c - s) * e >= 0.0
  {
  }

  lemma SharesCancel(n: real, part: real, whole: real)
    requires n != 0.0 && whole != 0.0
    ensures n * whole != 0.0
    ensures 100.0 * (n * part) / (n * whole) == 100.0 * part / whole
  {
    ProductIsZeroOnlyIf(n, whole);
    var q := 100.0 * part / whole;
    QuotientBack(100.0 * part, whole);
    assert 100.0 * (n * part) == q * (n * whole);
    DivisionCancels(q, n * whole);
  }

  lemma NewSidesAgree(interested: int, subscribed: int, events: int)
    ensures Times(interested, Times(subscribed, events)) as real
      == subscribed as real * interested as real * events as real
  {
    ProductAsReal(subscribed, events);
    ProductAsReal(interested, Times(subscribed, events));
  }

  /** The scenario's figures are the counted ones: first for the global bus, then for the scoped one. */
  lemma OldFiguresAreCounts(args: Args, pods: int, events: int)
    requires args.Checked() && pods > 0 && events > 0 && events as real == args.events
    ensures var s := ScenarioOf(args, pods);
            var cluster := Times(pods, Times(args.communities, events));
            var noise := Times(pods, Times(args.communities - args.subscribed, events));
            && s.TotalRate() != 0.0
            && s.TotalRate() == Times(args.communities, events) as real
            && s.OldGlobalFirehose() == (cluster as real, cluster as real / pods as real, Share(noise, cluster))
  {
    hide Times, Share;
    OldSidesAgree(pods, args.communities, args.subscribed, events);
    ProductAsReal(args.communities, events);
    var s := ScenarioOf(args, pods);
    var total, share := args.communities as real * events as real, args.subscribed as real * events as real;
    assert s.TotalRate() == total;
    assert s.SubscribedRate() == share;
    assert s.TotalRate() == Times(args.communities, events) as real;
    hide Scenario.TotalRate, Scenario.SubscribedRate;
    var cluster := Times(pods, Times(args.communities, events));
    assert s.OldGlobalFirehose().0 == cluster as real;
    assert s.OldGlobalFirehose().1 == cluster as real / pods as real;
    assert s.OldGlobalFirehose().2 == 100.0 * (total - share) / total;
  }

  lemma NewFiguresAreCounts(args: Args, pods: int, events: int)
    requires args.Checked() && pods > 0 && events as real == args.events
    ensures var scoped := Times(InterestedPods(args, pods), Times(args.subscribed, events));
            ScenarioOf(args, pods).ScopedBus() == (scoped as real, scoped as real / pods as real, 0.0)
  {
    hide Times;
    var s := ScenarioOf(args, pods);
    NewSidesAgree(InterestedPods(args, pods), args.subscribed, events);
    assert Min(s.pods, s.interested) == InterestedPods(args, pods);
    assert s.ScopedCluster() == args.subscribed as real * InterestedPods(args, pods) as real * events as real;
    hide Scenario.ScopedCluster;
  }

  /**
   For a whole positive rate the model reports, figure for figure, what counting deliveries gives,
   exactly when the interest argument is not negative: nothing in either mode rejects a negative one,
   and then no pod subscribes while the model counts a negative number of them.
   */
  lemma ModelPredictsMeasurement(args: Args, pods: int)
    requires args.Checked() && pods > 0
    requires args.events > 0.0 && args.events.Floor as real == args.events && args.communities < UUIDS
    ensures Measured(args, pods) == Modelled(args, pods) <==> args.interest >= 0
  {
    var events, interested := args.events.Floor, InterestedPods(args, pods);
    OldFiguresAreCounts(args, pods, events);
    NewFiguresAreCounts(args, pods, events);
    NegativeTimes(interested, args.subscribed, events);
    hide Times, Truncated, Share, Scenario.TotalRate, Scenario.OldGlobalFirehose, Scenario.ScopedBus;
    WholeIsKept(Times(args.communities, events));
    WholeIsKept(Times(pods, Times(args.communities, events)));
    WholeIsKept(Times(interested, Times(args.subscribed, events)));
    NoShareOfNothing(Times(interested, Times(args.subscribed, events)));
  }

  /** One pod, two communities, one event each: with an interest of -1 the modes do not agree. */
  lemma NegativeInterestDisagrees() returns (args: Args)
    ensures args == Args(2, 1.0, 1, -1, 1.0, 0.0)
    ensures Measured(args, 1).Ok? && Modelled(args, 1).Ok? && Measured(args, 1) != Modelled(args, 1)
    ensures Measured(args, 1).value.newCluster == 0 && Modelled(args, 1).value.newCluster == -1
  {
    args := Args(2, 1.0, 1, -1, 1.0, 0.0);
    assert args.events.Floor == 1;
    ModelPredictsMeasurement(args, 1);
  }

  lemma NegativeTimes(a: int, b: int, c: int)
    requires b > 0 && c > 0
    ensures a < 0 <==> Times(a, Times(b, c)) < 0
    ensures Times(0, Times(b, c)) == 0
  {
    assert Times(b, c) > 0;
  }

  lemma FactorCancels(e: real, a: real, b: real)
    requires e != 0.0 && e * a == e * b
    ensures a == b
  {
  }

  lemma ShareOfCommunities(q: real, c: real, s: real, e: real)
    requires c != 0.0 && e != 0.0 && c * e != 0.0 && q == 100.0 * (c * e - s * e) / (c * e)
    ensures q * c == 100.0 * (c - s)
  {
    QuotientBack(100.0 * (c * e - s * e), c * e);
    assert e * (q * c) == q * (c * e) == 100.0 * (c * e - s * e) == e * (100.0 * (c - s));
    FactorCancels(e, q * c, 100.0 * (c - s));
  }

  /** The noise on the global bus is the share of the communities nobody subscribed to. */
  lemma NoiseIsShare(args: Args, pods: int, events: int)
    requires args.Checked() && pods > 0 && events > 0
    ensures var noise, cluster := Times(pods, Times(args.communities - args.subscribed, events)), Times(pods, Times(args.communities, events));
      Share(noise, cluster) * args.communities as real == 100.0 * (args.communities as real - args.subscribed as real)
  {
    OldSidesAgree(pods, args.communities, args.subscribed, events);
    hide Times, Share;
    var noise, cluster := Times(pods, Times(args.communities - args.subscribed, events)), Times(pods, Times(args.communities, events));
    ShareOfCommunities(Share(noise, cluster), args.communities as real, args.subscribed as real, events as real);
  }

  lemma RowInTimes(args: Args, pods: int, events: int)
    requires args.Checked() && pods > 0 && events > 0 && events as real == args.events
    ensures Modelled(args, pods).Ok? &&
      var row := Modelled(args, pods).value;
      && row.pods == pods && row.published == Times(args.communities, events)
      && row.oldCluster == Times(pods, Times(args.communities, events))
      && row.oldAvgPod == Times(args.communities, events) as real
      && row.oldIrrelevantPct * args.communities as real == 100.0 * (args.communities as real - args.subscribed as real)
      && row.newCluster == Times(InterestedPods(args, pods), Times(args.subscribed, events))
      && row.newAvgPod == row.newCluster as real / pods as real && row.newIrrelevantPct == 0.0
  {
    hide Times, Truncated, Share, Scenario.TotalRate, Scenario.OldGlobalFirehose, Scenario.ScopedBus, InterestedPods;
    OldFiguresAreCounts(args, pods, events);
    NewFiguresAreCounts(args, pods, events);
    NoiseIsShare(args, pods, events);
    AverageIsPodsShare(args, pods, events);
    WholeIsKept(Times(args.communities, events));
    WholeIsKept(Times(pods, Times(args.communities, events)));
    WholeIsKept(Times(InterestedPods(args, pods), Times(args.subscribed, events)));
  }

  lemma AverageIsPodsShare(args: Args, pods: int, events: int)
    requires args.Checked() && pods > 0 && events > 0
    ensures Times(pods, Times(args.communities, events)) as real / pods as real == Times(args.communities, events) as real
  {
    OldSidesAgree(pods, args.communities, args.subscribed, events);
    ProductAsReal(args.communities, events);
  }

  /**
   The figures of a row in plain numbers. On the global bus every pod gets every event, and the share
   of the communities nobody subscribed to is noise; on the scoped bus the interested pods get the
   events of the subscribed communities, and nothing else.
   */
  lemma RowInPlainNumbers(args: Args, pods: int, events: int)
    requires args.Checked() && pods > 0 && events > 0 && events as real == args.events
    ensures var interested := if args.interest == 0 || args.interest >= pods then pods else args.interest;
      Modelled(args, pods).Ok? &&
      var row := Modelled(args, pods).value;
      && row.pods == pods && row.published == args.communities * events
      && row.oldCluster == pods * (args.communities * events)
      && row.oldAvgPod == (args.communities * events) as real
      && row.oldIrrelevantPct * args.communities as real == 100.0 * (args.communities as real - args.subscribed as real)
      && row.newCluster == interested * (args.subscribed * events)
      && row.newAvgPod == row.newCluster as real / pods as real && row.newIrrelevantPct == 0.0
  {
    hide Modelled;
    RowInTimes(args, pods, events);
    TimesIsProduct(args.communities, events);
    TimesIsProduct(args.subscribed, events);
    TimesIsProduct(pods, args.communities * events);
    TimesIsProduct(InterestedPods(args, pods), args.subscribed * events);
    hide Times;
  }

  lemma TimesIsProduct(a: int, b: int)
    ensures Times(a, b) == a * b
  {
  }

  lemma NoShareOfNothing(whole: int)
    ensures Share(0, whole) == 0.0
  {
  }

  // The run.

  method ModelMeasurements(args: Args, podsValues: seq<int>) returns (rows: Result<seq<Measurement>, MeasureError>)
    requires args.Checked() && forall i :: 0 <= i < |podsValues| ==> podsValues[i] > 0
    ensures rows.Ok? ==>
      && |rows.value| == |podsValues|
      && forall i :: 0 <= i < |podsValues| ==> Modelled(args, podsValues[i]) == Ok(rows.value[i])
    ensures rows.Err? ==>
      exists i :: 0 <= i < |podsValues| && Modelled(args, podsValues[i]) == Err(rows.error)
  {
    hide Modelled;
    var measured: seq<Measurement> := [];
    for n := 0 to |podsValues|
      invariant |measured| == n
      invariant forall i :: 0 <= i < n ==> Modelled(args, podsValues[i]) == Ok(measured[i])
    {
      var row := Modelled(args, podsValues[n]);
      if row.Err? {
        return Err(row.error);
      }
      measured := measured + [row.value];
    }
    return Ok(measured);
  }

  /** The first row that fails, if one does. */
  method AssertScaling(args: Args, rows: seq<Measurement>) returns (failed: Option<nat>)
    requires args.Checked()
    ensures failed.None? <==> forall i :: 0 <= i < |rows| ==> Passes(args, rows[i])
    ensures failed.Some? ==>
      && failed.value < |rows| && !Passes(args, rows[failed.value])
      && forall i :: 0 <= i < failed.value ==> Passes(args, rows[i])
  {
    var minReduction := args.communities as real / args.subscribed as real * args.minReductionRatio;
    for n := 0 to |rows|
      invariant forall i :: 0 <= i < n ==> Passes(args, rows[i])
    {
      if rows[n].reduction.Finite? && rows[n].reduction.factor < minReduction {
        return Some(n);
      }
      if rows[n].newIrrelevantPct > args.maxIrrelevantPct {
        return Some(n);
      }
    }
    return None;
  }

  /** `run` in model mode: positive inputs, a ratio of at most 1 and any allowance always pass. */
  method RunModel(args: Args, podsValues: seq<int>) returns (outcome: Result<Option<nat>, MeasureError>)
    requires args.Checked() && forall i :: 0 <= i < |podsValues| ==> podsValues[i] > 0
    ensures args.events > 0.0 && args.interest >= 0 && args.minReductionRatio <= 1.0 && args.maxIrrelevantPct >= 0.0 ==>
      outcome == Ok(None)
  {
    hide Modelled, Passes;
    var rows := ModelMeasurements(args, podsValues);
    if args.events > 0.0 && args.interest >= 0 && args.minReductionRatio <= 1.0 && args.maxIrrelevantPct >= 0.0 {
      forall i | 0 <= i < |podsValues|
        ensures Modelled(args, podsValues[i]).Ok? && Passes(args, Modelled(args, podsValues[i]).value)
      {
        ModelCannotFail(args, podsValues[i]);
      }
    }
    if rows.Err? {
      return Err(rows.error);
    }
    var failed := AssertScaling(args, rows.value);
    return Ok(failed);
  }
}

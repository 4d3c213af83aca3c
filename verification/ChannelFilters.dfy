/**
 Which events an agent subscribes to in which channel: once for all channels found at start, and once
 for a channel found later. The two are written separately; what a filter means is stated once here,
 and both are proved to give it. UUID parsing comes in as a function.
 */
module ChannelFilters {
  import opened Wrappers

  type Uuid = nat
  type Kind = nat

  datatype ChannelScope = All(word: string) | Listed(ids: seq<string>)

  datatype Rule = Rule(channels: ChannelScope, kinds: seq<Kind>, requireMention: bool)

  datatype Mode = Mentions | AllEvents | ByRules

  datatype Config = Config(
    mode: Mode, kindsOverride: Option<seq<Kind>>, channelsOverride: Option<seq<string>>, noMentionFilter: bool)

  /** No kinds at all stands for every kind. */
  datatype ChannelFilter = ChannelFilter(kinds: Option<seq<Kind>>, requireMention: bool)

  const DEFAULT_KINDS: seq<Kind> := [9, 40010, 46010, 40007, 44300]

  type Parse = string -> Option<Uuid>

  predicate Names(parse: Parse, ids: seq<string>, channel: Uuid) {
    exists i :: 0 <= i < |ids| && parse(ids[i]) == Some(channel)
  }

  predicate Applies(parse: Parse, rule: Rule, channel: Uuid) {
    match rule.channels
    case All(word) => word == "all"
    case Listed(ids) => Names(parse, ids, channel)
  }

  // The filter of a channel.

  /** What the rules come to for one channel: the filter, and whether any rule applies. */
  datatype Merge = Merge(kinds: Option<seq<Kind>>, requireMention: bool, hasRule: bool)

  const NO_RULES := Merge(Some([]), true, false)

  /** `kinds` and after them the ones in `more` that it does not have. */
  function Extended(kinds: seq<Kind>, more: seq<Kind>): seq<Kind> {
    if more == [] then kinds
    else
      var longer, last := Extended(kinds, more[..|more| - 1]), more[|more| - 1];
      if last in longer then longer else longer + [last]
  }

  function Ruled(m: Merge, rule: Rule): Merge {
    Merge(
      if rule.kinds == [] || m.kinds.None? then None else Some(Extended(m.kinds.value, rule.kinds)),
      m.requireMention && rule.requireMention, true)
  }

  function Merged(parse: Parse, rules: seq<Rule>, channel: Uuid): Merge {
    if rules == [] then NO_RULES
    else
      var before, rule := Merged(parse, rules[..|rules| - 1], channel), rules[|rules| - 1];
      if Applies(parse, rule, channel) then Ruled(before, rule) else before
  }

  function FilterOf(parse: Parse, config: Config, rules: seq<Rule>, channel: Uuid): Option<ChannelFilter> {
    if config.mode != ByRules && config.channelsOverride.Some?
       && !Names(parse, config.channelsOverride.value, channel) then None
    else
      match config.mode
      case Mentions =>
        var kinds := if config.kindsOverride.Some? then config.kindsOverride.value else DEFAULT_KINDS;
        Some(ChannelFilter(Some(kinds), !config.noMentionFilter))
      case AllEvents => Some(ChannelFilter(config.kindsOverride, false))
      case ByRules =>
        var m := Merged(parse, rules, channel);
        if m.hasRule then Some(ChannelFilter(m.kinds, m.requireMention)) else None
  }

  // The two resolvers.

  method PushNewKinds(kinds: seq<Kind>, more: seq<Kind>) returns (longer: seq<Kind>)
    ensures longer == Extended(kinds, more)
  {
    longer := kinds;
    for i := 0 to |more|
      invariant longer == Extended(kinds, more[..i])
    {
      assert more[..i + 1][..i] == more[..i];
      if more[i] !in longer {
        longer := longer + [more[i]];
      }
    }
    assert more[..|more|] == more;
  }

  /** Every channel in `targets` gets the same filter. */
  method SameForAll(targets: seq<Uuid>, filter: ChannelFilter) returns (result: map<Uuid, ChannelFilter>)
    ensures forall ch :: ch in result <==> ch in targets
    ensures forall ch :: ch in result ==> result[ch] == filter
  {
    result := map[];
    for i := 0 to |targets|
      invariant forall ch :: ch in result <==> ch in targets[..i]
      invariant forall ch :: ch in result ==> result[ch] == filter
    {
      result := result[targets[i] := filter];
    }
    assert targets[..|targets|] == targets;
  }

  method TargetChannels(parse: Parse, config: Config, discovered: seq<Uuid>) returns (targets: seq<Uuid>)
    ensures forall ch :: ch in targets <==>
      ch in discovered && (config.channelsOverride.None? || Names(parse, config.channelsOverride.value, ch))
  {
    if config.channelsOverride.None? {
      return discovered;
    }
    var overrides := config.channelsOverride.value;
    targets := [];
    for i := 0 to |overrides|
      invariant forall ch :: ch in targets <==> ch in discovered && Names(parse, overrides[..i], ch)
    {
      NamesOneMore(parse, overrides, i);
      var parsed := parse(overrides[i]);
      if parsed.Some? && parsed.value in discovered {
        targets := targets + [parsed.value];
      }
    }
    assert overrides[..|overrides|] == overrides;
  }

  lemma NamesOneMore(parse: Parse, ids: seq<string>, i: nat)
    requires i < |ids|
    ensures forall ch: Uuid :: Names(parse, ids[..i + 1], ch) <==> Names(parse, ids[..i], ch) || parse(ids[i]) == Some(ch)
  {
    forall ch: Uuid | Names(parse, ids[..i], ch) || parse(ids[i]) == Some(ch)
      ensures Names(parse, ids[..i + 1], ch)
    {
      if parse(ids[i]) == Some(ch) {
        assert parse(ids[..i + 1][i]) == Some(ch);
      } else {
        var j :| 0 <= j < i && parse(ids[..i][j]) == Some(ch);
        assert parse(ids[..i + 1][j]) == Some(ch);
      }
    }
  }

  /** `resolve_channel_filters`: the channels that get a filter are the discovered ones in scope. */
  method ResolveChannelFilters(parse: Parse, config: Config, discovered: seq<Uuid>, rules: seq<Rule>)
      returns (result: map<Uuid, ChannelFilter>)
    ensures forall ch :: ch in result <==> ch in discovered && FilterOf(parse, config, rules, ch).Some?
    ensures forall ch :: ch in result ==> FilterOf(parse, config, rules, ch) == Some(result[ch])
  {
    hide Names;
    var targets := TargetChannels(parse, config, discovered);
    match config.mode {
      case Mentions =>
        var kinds := if config.kindsOverride.Some? then config.kindsOverride.value else DEFAULT_KINDS;
        result := SameForAll(targets, ChannelFilter(Some(kinds), !config.noMentionFilter));
      case AllEvents =>
        result := SameForAll(targets, ChannelFilter(config.kindsOverride, false));
      case ByRules =>
        result := map[];
        for c := 0 to |discovered|
          invariant forall ch :: ch in result <==> ch in discovered[..c] && FilterOf(parse, config, rules, ch).Some?
          invariant forall ch :: ch in result ==> FilterOf(parse, config, rules, ch) == Some(result[ch])
        {
          var channel := discovered[c];
          var mergedKinds, requireMention, hasRule := Some([]), true, false;
          for i := 0 to |rules|
            invariant Merge(mergedKinds, requireMention, hasRule) == Merged(parse, rules[..i], channel)
          {
            var rule := rules[i];
            assert rules[..i + 1][..i] == rules[..i];
            if !Applies(parse, rule, channel) {
              continue;
            }
            hasRule := true;
            if rule.kinds == [] {
              mergedKinds := None;
            } else if mergedKinds.Some? {
              var kinds := PushNewKinds(mergedKinds.value, rule.kinds);
              mergedKinds := Some(kinds);
            }
            if !rule.requireMention {
              requireMention := false;
            }
          }
          assert rules[..|rules|] == rules;
          if hasRule {
            result := result[channel := ChannelFilter(mergedKinds, requireMention)];
          }
        }
        assert discovered[..|discovered|] == discovered;
    }
  }

  /** `resolve_dynamic_channel_filter` */
  method ResolveDynamicChannelFilter(parse: Parse, config: Config, channel: Uuid, rules: seq<Rule>)
      returns (filter: Option<ChannelFilter>)
    ensures filter == FilterOf(parse, config, rules, channel)
  {
    if config.mode != ByRules && config.channelsOverride.Some? {
      if !Names(parse, config.channelsOverride.value, channel) {
        return None;
      }
    }
    match config.mode {
      case Mentions =>
        var kinds := if config.kindsOverride.Some? then config.kindsOverride.value else DEFAULT_KINDS;
        return Some(ChannelFilter(Some(kinds), !config.noMentionFilter));
      case AllEvents =>
        return Some(ChannelFilter(config.kindsOverride, false));
      case ByRules =>
        var mergedKinds, requireMention, hasRule := Some([]), true, false;
        for i := 0 to |rules|
          invariant Merge(mergedKinds, requireMention, hasRule) == Merged(parse, rules[..i], channel)
        {
          var rule := rules[i];
          assert rules[..i + 1][..i] == rules[..i];
          if !Applies(parse, rule, channel) {
            continue;
          }
          hasRule := true;
          if rule.kinds == [] {
            mergedKinds := None;
          } else if mergedKinds.Some? {
            var kinds := PushNewKinds(mergedKinds.value, rule.kinds);
            mergedKinds := Some(kinds);
          }
          if !rule.requireMention {
            requireMention := false;
          }
        }
        assert rules[..|rules|] == rules;
        if !hasRule {
          return None;
        }
        return Some(ChannelFilter(mergedKinds, requireMention));
    }
  }

  /** Resolving all channels and resolving each alone come to the same, for every discovered channel. */
  method ResolveBothWays(parse: Parse, config: Config, discovered: seq<Uuid>, rules: seq<Rule>, channel: Uuid)
      returns (all: map<Uuid, ChannelFilter>, one: Option<ChannelFilter>)
    requires channel in discovered
    ensures one == if channel in all then Some(all[channel]) else None
  {
    all := ResolveChannelFilters(parse, config, discovered, rules);
    one := ResolveDynamicChannelFilter(parse, config, channel, rules);
  }

  // What a filter means.

  /** The operator's list of channels, if there is one, has the channel in it. */
  predicate OnTheList(parse: Parse, config: Config, channel: Uuid) {
    match config.channelsOverride
    case None => true
    case Some(ids) => exists i :: 0 <= i < |ids| && parse(ids[i]) == Some(channel)
  }

  /** The rule is for all channels, or lists this one. */
  predicate Covers(parse: Parse, rule: Rule, channel: Uuid) {
    || rule.channels == All("all")
    || (rule.channels.Listed? &&
        exists j :: 0 <= j < |rule.channels.ids| && parse(rule.channels.ids[j]) == Some(channel))
  }

  /**
   By mentions: the listed channels, the overriding kinds or else the default ones, a mention needed
   unless that is switched off. All events: the listed channels, the overriding kinds or else every
   kind, no mention. By rules: the list of channels counts for nothing, some rule has to cover.
   */
  lemma FilterByMode(parse: Parse, config: Config, rules: seq<Rule>, channel: Uuid)
    ensures var filter := FilterOf(parse, config, rules, channel);
      match config.mode
      case Mentions =>
        filter == if OnTheList(parse, config, channel) then Some(ChannelFilter(
          Some(match config.kindsOverride case Some(kinds) => kinds case None => [9, 40010, 46010, 40007, 44300]),
          !config.noMentionFilter)) else None
      case AllEvents =>
        filter == if OnTheList(parse, config, channel) then Some(ChannelFilter(config.kindsOverride, false)) else None
      case ByRules => filter.Some? <==> AnyCovers(parse, rules, channel)
  {
    MergedSaysWhatRulesSay(parse, rules, channel);
  }

  // What merging rules means.

  predicate NoDuplicates(kinds: seq<Kind>) { forall i, j :: 0 <= i < j < |kinds| ==> kinds[i] != kinds[j] }

  predicate AsksFor(parse: Parse, rules: seq<Rule>, channel: Uuid, kind: Kind) {
    exists i :: 0 <= i < |rules| && Covers(parse, rules[i], channel) && kind in rules[i].kinds
  }

  predicate AnyCovers(parse: Parse, rules: seq<Rule>, channel: Uuid) {
    exists i :: 0 <= i < |rules| && Covers(parse, rules[i], channel)
  }

  predicate AnyWildcard(parse: Parse, rules: seq<Rule>, channel: Uuid) {
    exists i :: 0 <= i < |rules| && Covers(parse, rules[i], channel) && rules[i].kinds == []
  }

  predicate AllNeedMention(parse: Parse, rules: seq<Rule>, channel: Uuid) {
    forall i :: 0 <= i < |rules| && Covers(parse, rules[i], channel) ==> rules[i].requireMention
  }

  lemma {:induction false} ExtendedIsUnion(kinds: seq<Kind>, more: seq<Kind>)
    requires NoDuplicates(kinds)
    ensures NoDuplicates(Extended(kinds, more))
    ensures forall kind :: kind in Extended(kinds, more) <==> kind in kinds || kind in more
  {
    if more != [] {
      ExtendedIsUnion(kinds, more[..|more| - 1]);
      assert more == more[..|more| - 1] + [more[|more| - 1]];
    }
  }

  /** The merge says what the applicable rules say, with no reference to their order. */
  ghost predicate SaysWhatRulesSay(parse: Parse, rules: seq<Rule>, channel: Uuid, m: Merge) {
    && (m.hasRule <==> AnyCovers(parse, rules, channel))
    && (m.requireMention <==> AllNeedMention(parse, rules, channel))
    && (m.kinds.None? <==> AnyWildcard(parse, rules, channel))
    && (m.kinds.Some? ==>
         NoDuplicates(m.kinds.value) && forall kind :: kind in m.kinds.value <==> AsksFor(parse, rules, channel, kind))
  }

  lemma OneMoreRule(parse: Parse, rules: seq<Rule>, rule: Rule, channel: Uuid)
    ensures var on := Covers(parse, rule, channel); var all := rules + [rule];
            && (AnyCovers(parse, all, channel) <==> AnyCovers(parse, rules, channel) || on)
            && (AllNeedMention(parse, all, channel) <==>
                 AllNeedMention(parse, rules, channel) && (on ==> rule.requireMention))
            && (AnyWildcard(parse, all, channel) <==> AnyWildcard(parse, rules, channel) || (on && rule.kinds == []))
            && forall kind :: AsksFor(parse, all, channel, kind) <==>
                 AsksFor(parse, rules, channel, kind) || (on && kind in rule.kinds)
  {
    var all := rules + [rule];
    assert all[|rules|] == rule;
    assert forall i :: 0 <= i < |rules| ==> all[i] == rules[i];
    forall kind | AsksFor(parse, rules, channel, kind)
      ensures AsksFor(parse, all, channel, kind)
    {
      var i :| 0 <= i < |rules| && Covers(parse, rules[i], channel) && kind in rules[i].kinds;
      assert Covers(parse, all[i], channel) && kind in all[i].kinds;
    }
  }

  lemma {:induction false} MergedSaysWhatRulesSay(parse: Parse, rules: seq<Rule>, channel: Uuid)
    ensures SaysWhatRulesSay(parse, rules, channel, Merged(parse, rules, channel))
  {
    if rules != [] {
      var init, rule := rules[..|rules| - 1], rules[|rules| - 1];
      assert rules == init + [rule];
      MergedSaysWhatRulesSay(parse, init, channel);
      OneMoreRule(parse, init, rule, channel);
      assert Applies(parse, rule, channel) <==> Covers(parse, rule, channel);
      hide Applies, Covers, AnyCovers, AllNeedMention, AnyWildcard, AsksFor;
      var m := Merged(parse, init, channel);
      if m.kinds.Some? {
        ExtendedIsUnion(m.kinds.value, rule.kinds);
      }
    }
  }

  predicate SameKinds(a: Option<seq<Kind>>, b: Option<seq<Kind>>) {
    && a.None? == b.None?
    && (a.Some? ==> multiset(a.value) == multiset(b.value))
  }

  /** Reordering the rules changes nothing but the order in which kinds are listed. */
  lemma RuleOrderDoesNotMatter(parse: Parse, rules: seq<Rule>, others: seq<Rule>, channel: Uuid)
    requires multiset(rules) == multiset(others)
    ensures var m, n := Merged(parse, rules, channel), Merged(parse, others, channel);
            m.hasRule == n.hasRule && m.requireMention == n.requireMention && SameKinds(m.kinds, n.kinds)
  {
    MergedSaysWhatRulesSay(parse, rules, channel);
    MergedSaysWhatRulesSay(parse, others, channel);
    SameRulesSaySame(parse, rules, others, channel);
    SameRulesSaySame(parse, others, rules, channel);
    var m, n := Merged(parse, rules, channel), Merged(parse, others, channel);
    hide AnyCovers, AllNeedMention, AnyWildcard, AsksFor;
    if m.kinds.Some? {
      SameElementsOnce(m.kinds.value, n.kinds.value);
    }
  }

  lemma SameRulesSaySame(parse: Parse, rules: seq<Rule>, others: seq<Rule>, channel: Uuid)
    requires multiset(rules) == multiset(others)
    ensures AnyCovers(parse, rules, channel) ==> AnyCovers(parse, others, channel)
    ensures AllNeedMention(parse, others, channel) ==> AllNeedMention(parse, rules, channel)
    ensures AnyWildcard(parse, rules, channel) ==> AnyWildcard(parse, others, channel)
    ensures forall kind :: AsksFor(parse, rules, channel, kind) ==> AsksFor(parse, others, channel, kind)
  {
    hide Covers;
    forall i | 0 <= i < |rules|
      ensures exists j :: 0 <= j < |others| && others[j] == rules[i]
    {
      assert rules[i] in multiset(rules);
      assert rules[i] in others;
    }
  }

  lemma {:induction false} SameElementsOnce(a: seq<Kind>, b: seq<Kind>)
    requires NoDuplicates(a) && NoDuplicates(b)
    requires forall kind :: kind in a <==> kind in b
    ensures multiset(a) == multiset(b)
  {
    forall kind
      ensures multiset(a)[kind] == multiset(b)[kind]
    {
      OccursOnce(a, kind);
      OccursOnce(b, kind);
    }
  }

  lemma {:induction false} OccursOnce(kinds: seq<Kind>, kind: Kind)
    requires NoDuplicates(kinds)
    ensures multiset(kinds)[kind] == if kind in kinds then 1 else 0
  {
    if kinds != [] {
      OccursOnce(kinds[1..], kind);
      assert kinds == [kinds[0]] + kinds[1..];
      assert kinds[0] !in kinds[1..];
    }
  }
}

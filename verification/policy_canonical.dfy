/** The canonical form that a policy is hashed in, and exactly which policies it identifies. */
module PolicyCanonical {
  import opened PolicyModel
  import opened Sorting
  import TextOrder

  function SortedTexts(ss: seq<string>): seq<string> { StableSort(ss, TextOrder.Le) }

  function NormRule(r: Rule): Rule {
    r.(paths := SortedTexts(r.paths), addresses := SortedTexts(r.addresses), syscalls := SortedTexts(r.syscalls))
  }

  function NormRules(rules: seq<Rule>): (norm: seq<Rule>)
    ensures |norm| == |rules| && forall i | 0 <= i < |rules| :: norm[i] == NormRule(rules[i])
  {
    seq(|rules|, i requires 0 <= i < |rules| => NormRule(rules[i]))
  }

  predicate ById(a: Rule, b: Rule) { TextOrder.Le(a.ruleId, b.ruleId) }

  function CanonicalRules(rules: seq<Rule>): seq<Rule> {
    StableSort(NormRules(rules), ById)
  }

  /** `canonical_policy_dict`. */
  function CanonicalDict(p: Policy): Json {
    Object(map[NameKey := Text(p.name), VersionKey := Text(p.version),
               DefaultActionKey := Text(ActionText(p.defaultAction)),
               RulesKey := List(RuleDicts(CanonicalRules(p.rules)))])
  }

  // ---- what it looks like ----

  /** Rules stand in the order of their ids, and the lists of a rule in the order of their texts. */
  lemma CanonicalIsSorted(p: Policy, i: nat, j: nat)
    requires i < j < |CanonicalRules(p.rules)|
    ensures var rules := CanonicalRules(p.rules); !TextOrder.ComesBefore(rules[j].ruleId, rules[i].ruleId)
  {
    hide StableSort, NormRules;
    IdsAreOrdered();
    SortSorted(NormRules(p.rules), ById);
    var rules := CanonicalRules(p.rules);
    assert ById(rules[i], rules[j]);
    TextOrder.LtIff(rules[i].ruleId, rules[j].ruleId);
  }

  lemma IdsAreOrdered()
    ensures TotalPreorder(ById)
  {
    forall a: Rule, b: Rule ensures ById(a, b) || ById(b, a) { TextOrder.Total(a.ruleId, b.ruleId); }
    forall a: Rule, b: Rule, c: Rule | ById(a, b) && ById(b, c) ensures ById(a, c) {
      TextOrder.Transitive(a.ruleId, b.ruleId, c.ruleId);
    }
  }

  lemma CanonicalListsAreSorted(ss: seq<string>, i: nat, j: nat)
    requires i < j < |SortedTexts(ss)|
    ensures !TextOrder.ComesBefore(SortedTexts(ss)[j], SortedTexts(ss)[i]) && multiset(SortedTexts(ss)) == multiset(ss)
  {
    hide StableSort;
    SortElements(ss, TextOrder.Le);
    TextsAreOrdered();
    SortSorted(ss, TextOrder.Le);
    TextOrder.LtIff(SortedTexts(ss)[i], SortedTexts(ss)[j]);
  }

  lemma TextsAreOrdered()
    ensures TotalPreorder(TextOrder.Le)
  {
    forall a: string, b: string ensures TextOrder.Le(a, b) || TextOrder.Le(b, a) { TextOrder.Total(a, b); }
    forall a: string, b: string, c: string | TextOrder.Le(a, b) && TextOrder.Le(b, c) ensures TextOrder.Le(a, c) {
      TextOrder.Transitive(a, b, c);
    }
  }

  // ---- what it identifies ----

  ghost predicate Permuted(a: seq<string>, b: seq<string>) { multiset(a) == multiset(b) }

  /** The same rule up to the order of its lists. */
  ghost predicate RulesMatch(a: Rule, b: Rule) {
    && a.ruleId == b.ruleId && a.target == b.target && a.action == b.action && a.description == b.description
    && Permuted(a.paths, b.paths) && Permuted(a.addresses, b.addresses) && Permuted(a.syscalls, b.syscalls)
  }

  ghost predicate AllMatch(a: seq<Rule>, b: seq<Rule>) {
    |a| == |b| && forall i | 0 <= i < |a| :: RulesMatch(a[i], b[i])
  }

  function HasId(id: string): Rule -> bool { (r: Rule) => r.ruleId == id }

  /** The rules of one id, in the order of the policy. */
  function Group(rules: seq<Rule>, id: string): seq<Rule> { Filter(rules, HasId(id)) }

  // ---- lists of text ----

  lemma SameHead(a: seq<string>, b: seq<string>)
    requires SortedBy(a, TextOrder.Le) && SortedBy(b, TextOrder.Le) && multiset(a) == multiset(b)
    requires a != [] && b != []
    ensures a[0] == b[0]
  {
    hide TextOrder.Le;
    assert a[0] in multiset(b) && b[0] in multiset(a);
    TextOrder.Total(a[0], a[0]);
    TextOrder.Total(b[0], b[0]);
    var i :| 0 <= i < |b| && b[i] == a[0];
    var j :| 0 <= j < |a| && a[j] == b[0];
    TextOrder.Antisymmetric(a[0], b[0]);
  }

  lemma SameTail(a: seq<string>, b: seq<string>)
    requires a != [] && b != [] && a[0] == b[0] && multiset(a) == multiset(b)
    ensures multiset(a[1..]) == multiset(b[1..])
  {
    assert a == [a[0]] + a[1..] && b == [b[0]] + b[1..];
    assert multiset(a[1..]) == multiset(a) - multiset{a[0]} && multiset(b[1..]) == multiset(b) - multiset{b[0]};
  }

  lemma SameSize(a: seq<string>, b: seq<string>)
    requires multiset(a) == multiset(b)
    ensures |a| == |b|
  {
    assert |a| == |multiset(a)| && |multiset(b)| == |b|;
  }

  lemma {:induction false} SortedSameTexts(a: seq<string>, b: seq<string>)
    requires SortedBy(a, TextOrder.Le) && SortedBy(b, TextOrder.Le) && multiset(a) == multiset(b)
    ensures a == b
  {
    hide TextOrder.Le;
    SameSize(a, b);
    if a != [] {
      SameHead(a, b);
      SameTail(a, b);
      SortedSameTexts(a[1..], b[1..]);
      assert a == [a[0]] + a[1..] && b == [b[0]] + b[1..];
    }
  }

  lemma TextPreorder()
    ensures TotalPreorder(TextOrder.Le)
  {
    forall a, b ensures TextOrder.Le(a, b) || TextOrder.Le(b, a) { TextOrder.Total(a, b); }
    forall a, b, c | TextOrder.Le(a, b) && TextOrder.Le(b, c) ensures TextOrder.Le(a, c) {
      TextOrder.Transitive(a, b, c);
    }
  }

  lemma SortedTextsIff(a: seq<string>, b: seq<string>)
    ensures SortedTexts(a) == SortedTexts(b) <==> Permuted(a, b)
  {
    hide StableSort;
    TextPreorder();
    SortElements(a, TextOrder.Le);
    SortElements(b, TextOrder.Le);
    SortSorted(a, TextOrder.Le);
    SortSorted(b, TextOrder.Le);
    if Permuted(a, b) { SortedSameTexts(SortedTexts(a), SortedTexts(b)); }
  }

  lemma NormRuleIff(a: Rule, b: Rule)
    ensures NormRule(a) == NormRule(b) <==> RulesMatch(a, b)
  {
    hide SortedTexts, Permuted;
    SortedTextsIff(a.paths, b.paths);
    SortedTextsIff(a.addresses, b.addresses);
    SortedTextsIff(a.syscalls, b.syscalls);
  }

  lemma NormRulesIff(a: seq<Rule>, b: seq<Rule>)
    ensures NormRules(a) == NormRules(b) <==> AllMatch(a, b)
  {
    hide NormRule, RulesMatch;
    forall i | 0 <= i < |a| && i < |b| ensures NormRule(a[i]) == NormRule(b[i]) <==> RulesMatch(a[i], b[i]) {
      NormRuleIff(a[i], b[i]);
    }
    if NormRules(a) == NormRules(b) {
      assert forall i | 0 <= i < |a| :: NormRules(a)[i] == NormRules(b)[i];
    }
  }

  // ---- groups ----

  lemma ByIdPreorder()
    ensures TotalPreorder(ById)
  {
    TextPreorder();
    assert forall a: Rule, b: Rule :: TextOrder.Le(a.ruleId, b.ruleId) || TextOrder.Le(b.ruleId, a.ruleId);
  }

  lemma ClassIsGroup(rules: seq<Rule>, a: Rule)
    ensures Filter(rules, Class(a, ById)) == Group(rules, a.ruleId)
  {
    hide TextOrder.Le;
    forall r | r in rules ensures Class(a, ById)(r) == HasId(a.ruleId)(r) {
      TextOrder.Total(a.ruleId, a.ruleId);
      assert Class(a, ById)(r) == (ById(a, r) && ById(r, a));
      if Class(a, ById)(r) { TextOrder.Antisymmetric(a.ruleId, r.ruleId); }
    }
    FilterSame(rules, Class(a, ById), HasId(a.ruleId));
  }

  lemma SortKeepsGroups(rules: seq<Rule>, id: string)
    ensures Group(StableSort(rules, ById), id) == Group(rules, id)
  {
    TextOrder.Total(id, id);
    SortStable(rules, ById, HasId(id));
  }

  /** Rules sorted by id are determined by the sequence of rules of each id. */
  lemma SortedRulesIff(a: seq<Rule>, b: seq<Rule>)
    ensures StableSort(a, ById) == StableSort(b, ById) <==> forall id :: Group(a, id) == Group(b, id)
  {
    hide StableSort, Group, Class;
    forall id ensures Group(StableSort(a, ById), id) == Group(a, id) && Group(StableSort(b, ById), id) == Group(b, id) {
      SortKeepsGroups(a, id);
      SortKeepsGroups(b, id);
    }
    if forall id :: Group(a, id) == Group(b, id) {
      ByIdPreorder();
      SortSorted(a, ById);
      SortSorted(b, ById);
      forall r ensures Filter(StableSort(a, ById), Class(r, ById)) == Filter(StableSort(b, ById), Class(r, ById)) {
        ClassIsGroup(StableSort(a, ById), r);
        ClassIsGroup(StableSort(b, ById), r);
      }
      SortedUnique(StableSort(a, ById), StableSort(b, ById), ById);
    }
  }

  lemma {:induction false} GroupOfNorm(rules: seq<Rule>, id: string)
    ensures Group(NormRules(rules), id) == NormRules(Group(rules, id))
  {
    hide NormRule;
    if rules != [] {
      GroupOfNorm(rules[1..], id);
      assert NormRules(rules)[1..] == NormRules(rules[1..]);
      NormKeepsId(rules[0]);
    }
  }

  lemma NormKeepsId(r: Rule)
    ensures NormRule(r).ruleId == r.ruleId
  {
  }

  // ---- the main result ----

  lemma RuleDictsIff(a: seq<Rule>, b: seq<Rule>)
    ensures RuleDicts(a) == RuleDicts(b) <==> a == b
  {
    hide RuleToDict;
    if RuleDicts(a) == RuleDicts(b) {
      forall i | 0 <= i < |a| ensures a[i] == b[i] {
        assert RuleDicts(a)[i] == RuleDicts(b)[i];
        RuleToDictIsInjective(a[i], b[i]);
      }
    }
  }

  lemma CanonicalRulesIff(a: seq<Rule>, b: seq<Rule>)
    ensures CanonicalRules(a) == CanonicalRules(b) <==> forall id :: AllMatch(Group(a, id), Group(b, id))
  {
    hide StableSort, Group, AllMatch;
    SortedRulesIff(NormRules(a), NormRules(b));
    forall id ensures Group(NormRules(a), id) == Group(NormRules(b), id) <==> AllMatch(Group(a, id), Group(b, id)) {
      GroupOfNorm(a, id);
      GroupOfNorm(b, id);
      NormRulesIff(Group(a, id), Group(b, id));
    }
  }

  /** Two policies have one canonical form exactly when name, version and default action agree and, for every rule id,
      their rules of that id match one by one, in order, up to the order of paths, addresses and syscalls.
      `fail_closed` plays no part. */
  lemma CanonicalIff(p: Policy, q: Policy)
    ensures CanonicalDict(p) == CanonicalDict(q) <==>
            && p.name == q.name && p.version == q.version && p.defaultAction == q.defaultAction
            && forall id :: AllMatch(Group(p.rules, id), Group(q.rules, id))
  {
    hide CanonicalRules, AllMatch, Group, ActionText, RuleDicts;
    CanonicalRulesIff(p.rules, q.rules);
    RuleDictsIff(CanonicalRules(p.rules), CanonicalRules(q.rules));
    ActionRoundTrip(p.defaultAction);
    ActionRoundTrip(q.defaultAction);
    var dp, dq := CanonicalDict(p).fields, CanonicalDict(q).fields;
    if dp == dq {
      assert dp[NameKey] == dq[NameKey] && dp[VersionKey] == dq[VersionKey] && dp[RulesKey] == dq[RulesKey];
      assert dp[DefaultActionKey] == dq[DefaultActionKey];
    }
  }

  // ---- unique ids ----

  /** Every rule of `a` matches a rule of `b`. */
  ghost predicate MatchedIn(a: seq<Rule>, b: seq<Rule>) {
    forall r | r in a :: exists s | s in b :: RulesMatch(r, s)
  }

  lemma {:induction false} UniqueGroup(rules: seq<Rule>, r: Rule)
    requires UniqueIds(rules) && r in rules
    ensures Group(rules, r.ruleId) == [r]
  {
    if r == rules[0] {
      assert forall s | s in rules[1..] :: s.ruleId != r.ruleId;
      FilterNone(rules[1..], HasId(r.ruleId));
    } else {
      assert r in rules[1..];
      UniqueGroup(rules[1..], r);
    }
  }

  lemma AbsentGroup(rules: seq<Rule>, id: string)
    requires forall r | r in rules :: r.ruleId != id
    ensures Group(rules, id) == []
  {
    FilterNone(rules, HasId(id));
  }

  lemma MatchedGroups(a: seq<Rule>, b: seq<Rule>)
    requires UniqueIds(a) && UniqueIds(b)
    requires MatchedIn(a, b) && MatchedIn(b, a)
    ensures forall id :: AllMatch(Group(a, id), Group(b, id))
  {
    hide Group, RulesMatch, AllMatch, UniqueIds;
    forall id ensures AllMatch(Group(a, id), Group(b, id)) {
      if r :| r in a && r.ruleId == id {
        var s :| s in b && RulesMatch(r, s);
        SameIds(r, s);
        UniqueGroup(a, r);
        UniqueGroup(b, s);
      } else {
        forall s | s in b ensures s.ruleId != id {
          var r :| r in a && RulesMatch(s, r);
          SameIds(s, r);
        }
        AbsentGroup(a, id);
        AbsentGroup(b, id);
        NothingMatches();
      }
    }
  }

  lemma SameIds(r: Rule, s: Rule)
    requires RulesMatch(r, s)
    ensures r.ruleId == s.ruleId && AllMatch([r], [s])
  {
  }

  lemma NothingMatches()
    ensures AllMatch([], [])
  {
  }

  lemma GroupsMatched(a: seq<Rule>, b: seq<Rule>)
    requires UniqueIds(a)
    requires forall id :: AllMatch(Group(a, id), Group(b, id))
    ensures MatchedIn(a, b)
  {
    hide RulesMatch, UniqueIds;
    forall r | r in a ensures exists s | s in b :: RulesMatch(r, s) {
      UniqueGroup(a, r);
      assert AllMatch(Group(a, r.ruleId), Group(b, r.ruleId));
      FilterMembers(b, HasId(r.ruleId));
      var s := Group(b, r.ruleId)[0];
      assert s in Group(b, r.ruleId);
    }
  }

  /** When rule ids are unique, as `validate_policy` asks, the canonical form forgets the order of the rules and of
      their lists, and nothing else. */
  lemma CanonicalOfUniqueIff(p: Policy, q: Policy)
    requires UniqueIds(p.rules) && UniqueIds(q.rules)
    ensures CanonicalDict(p) == CanonicalDict(q) <==>
            && p.name == q.name && p.version == q.version && p.defaultAction == q.defaultAction
            && MatchedIn(p.rules, q.rules) && MatchedIn(q.rules, p.rules)
  {
    hide Group, CanonicalDict, RulesMatch, UniqueIds, MatchedIn;
    CanonicalIff(p, q);
    if MatchedIn(p.rules, q.rules) && MatchedIn(q.rules, p.rules) { MatchedGroups(p.rules, q.rules); }
    if forall id :: AllMatch(Group(p.rules, id), Group(q.rules, id)) {
      GroupsMatched(p.rules, q.rules);
      forall id ensures AllMatch(Group(q.rules, id), Group(p.rules, id)) {
        MatchBackwards(Group(p.rules, id), Group(q.rules, id));
      }
      GroupsMatched(q.rules, p.rules);
    }
  }

  lemma MatchBackwards(a: seq<Rule>, b: seq<Rule>)
    requires AllMatch(a, b)
    ensures AllMatch(b, a)
  {
    assert forall i | 0 <= i < |a| :: RulesMatch(a[i], b[i]);
  }

  /** Without unique ids the order of the rules does show: swapping two rules of one id that differ in more than
      the order of a list changes the canonical form. */
  lemma SwappedDuplicatesDiffer(p: Policy, r: Rule, s: Rule)
    requires p.rules == [r, s] && r.ruleId == s.ruleId
    ensures CanonicalDict(p) == CanonicalDict(p.(rules := [s, r])) <==> RulesMatch(r, s)
  {
    hide RulesMatch, CanonicalDict;
    CanonicalIff(p, p.(rules := [s, r]));
    FilterAll([r, s], HasId(r.ruleId));
    FilterAll([s, r], HasId(r.ruleId));
    if RulesMatch(r, s) {
      MatchBackwards([r], [s]);
      assert RulesMatch([s][0], [r][0]);
      forall id ensures AllMatch(Group([r, s], id), Group([s, r], id)) {
        if id != r.ruleId {
          AbsentGroup([r, s], id);
          AbsentGroup([s, r], id);
        }
      }
    }
    if forall id :: AllMatch(Group([r, s], id), Group([s, r], id)) {
      assert AllMatch(Group([r, s], r.ruleId), Group([s, r], r.ruleId));
    }
  }
}

/** Sandbox policies and the dictionaries they are stored as. */
module PolicyModel {

  datatype Result<+T, +E> = Ok(value: T) | Err(error: E)

  datatype Action = Allow | Deny | Kill | Trace

  datatype Target =
    | FileRead | FileWrite | FileExec | NetworkOut | NetworkIn | NetworkBind
    | ProcessSpawn | ProcessKill | DnsQuery | SignalSend | SyscallGeneric

  datatype Rule = Rule(ruleId: string, target: Target, action: Action, paths: seq<string>, addresses: seq<string>,
                       syscalls: seq<string>, description: string)

  datatype Policy = Policy(name: string, version: string, defaultAction: Action, rules: seq<Rule>, failClosed: bool)

  // ---- dictionaries ----

  datatype Key =
    | NameKey | VersionKey | DefaultActionKey | RulesKey | FailClosedKey
    | RuleIdKey | TargetKey | ActionKey | PathsKey | AddressesKey | SyscallsKey | DescriptionKey
    | AuthorKey | ChangeKey | HashKey | PolicyKey | TimestampKey
    | OtherKey(name: string)

  datatype Json =
    | Null
    | Bool(b: bool)
    | Number(n: int)
    | Text(s: string)
    | List(items: seq<Json>)
    | Object(fields: map<Key, Json>)

  /** `KeyError`, `ValueError` from an enum, and a value of the wrong JSON type. */
  datatype ReadError = MissingKey(key: Key) | BadValue | BadShape

  function ActionText(a: Action): string {
    match a
    case Allow => "allow"
    case Deny => "deny"
    case Kill => "kill"
    case Trace => "trace"
  }

  function ActionFromText(s: string): Result<Action, ReadError> {
    if s == "allow" then Ok(Allow)
    else if s == "deny" then Ok(Deny)
    else if s == "kill" then Ok(Kill)
    else if s == "trace" then Ok(Trace)
    else Err(BadValue)
  }

  function TargetText(t: Target): string {
    match t
    case FileRead => "file_read"
    case FileWrite => "file_write"
    case FileExec => "file_exec"
    case NetworkOut => "network_out"
    case NetworkIn => "network_in"
    case NetworkBind => "network_bind"
    case ProcessSpawn => "process_spawn"
    case ProcessKill => "process_kill"
    case DnsQuery => "dns_query"
    case SignalSend => "signal_send"
    case SyscallGeneric => "syscall_generic"
  }

  function TargetFromText(s: string): Result<Target, ReadError> {
    if s == "file_read" then Ok(FileRead)
    else if s == "file_write" then Ok(FileWrite)
    else if s == "file_exec" then Ok(FileExec)
    else if s == "network_out" then Ok(NetworkOut)
    else if s == "network_in" then Ok(NetworkIn)
    else if s == "network_bind" then Ok(NetworkBind)
    else if s == "process_spawn" then Ok(ProcessSpawn)
    else if s == "process_kill" then Ok(ProcessKill)
    else if s == "dns_query" then Ok(DnsQuery)
    else if s == "signal_send" then Ok(SignalSend)
    else if s == "syscall_generic" then Ok(SyscallGeneric)
    else Err(BadValue)
  }

  function Texts(ss: seq<string>): (items: seq<Json>)
    ensures |items| == |ss| && forall i | 0 <= i < |ss| :: items[i] == Text(ss[i])
  {
    seq(|ss|, i requires 0 <= i < |ss| => Text(ss[i]))
  }

  function RuleToDict(r: Rule): Json {
    Object(map[ActionKey := Text(ActionText(r.action)), AddressesKey := List(Texts(r.addresses)),
               DescriptionKey := Text(r.description), PathsKey := List(Texts(r.paths)), RuleIdKey := Text(r.ruleId),
               SyscallsKey := List(Texts(r.syscalls)), TargetKey := Text(TargetText(r.target))])
  }

  function RuleDicts(rules: seq<Rule>): (items: seq<Json>)
    ensures |items| == |rules| && forall i | 0 <= i < |rules| :: items[i] == RuleToDict(rules[i])
  {
    seq(|rules|, i requires 0 <= i < |rules| => RuleToDict(rules[i]))
  }

  function PolicyToDict(p: Policy): Json {
    Object(map[DefaultActionKey := Text(ActionText(p.defaultAction)), FailClosedKey := Bool(p.failClosed),
               NameKey := Text(p.name), RulesKey := List(RuleDicts(p.rules)), VersionKey := Text(p.version)])
  }

  // ---- reading them back ----

  function TextIn(d: map<Key, Json>, k: Key, default: string): Result<string, ReadError> {
    if k !in d then Ok(default) else if d[k].Text? then Ok(d[k].s) else Err(BadShape)
  }

  function AllTexts(items: seq<Json>): Result<seq<string>, ReadError> {
    if forall i | 0 <= i < |items| :: items[i].Text?
    then Ok(seq(|items|, i requires 0 <= i < |items| && items[i].Text? => items[i].s))
    else Err(BadShape)
  }

  function TextsIn(d: map<Key, Json>, k: Key): Result<seq<string>, ReadError> {
    if k !in d then Ok([]) else if d[k].List? then AllTexts(d[k].items) else Err(BadShape)
  }

  /** `r[k]`, which raises when the key is missing. */
  function TextAt(d: map<Key, Json>, k: Key): Result<string, ReadError> {
    if k !in d then Err(MissingKey(k)) else TextIn(d, k, "")
  }

  function TargetAt(d: map<Key, Json>, k: Key): Result<Target, ReadError> {
    if k !in d then Err(MissingKey(k)) else if d[k].Text? then TargetFromText(d[k].s) else Err(BadValue)
  }

  function ActionOf(j: Json): Result<Action, ReadError> {
    if j.Text? then ActionFromText(j.s) else Err(BadValue)
  }

  function ActionAt(d: map<Key, Json>, k: Key): Result<Action, ReadError> {
    if k !in d then Err(MissingKey(k)) else ActionOf(d[k])
  }

  function RuleFromDict(j: Json): Result<Rule, ReadError> {
    if !j.Object? then Err(BadShape)
    else
      match TextAt(j.fields, RuleIdKey)
      case Err(e) => Err(e)
      case Ok(ruleId) =>
        match TargetAt(j.fields, TargetKey)
        case Err(e) => Err(e)
        case Ok(target) =>
          match ActionAt(j.fields, ActionKey)
          case Err(e) => Err(e)
          case Ok(action) => RuleLists(j.fields, Rule(ruleId, target, action, [], [], [], ""))
  }

  function RuleLists(d: map<Key, Json>, r: Rule): Result<Rule, ReadError> {
    match TextsIn(d, PathsKey)
    case Err(e) => Err(e)
    case Ok(paths) =>
      match TextsIn(d, AddressesKey)
      case Err(e) => Err(e)
      case Ok(addresses) =>
        match TextsIn(d, SyscallsKey)
        case Err(e) => Err(e)
        case Ok(syscalls) =>
          match TextIn(d, DescriptionKey, "")
          case Err(e) => Err(e)
          case Ok(description) =>
            Ok(r.(paths := paths, addresses := addresses, syscalls := syscalls, description := description))
  }

  /** The rules read so far, then the rest; the first rule that cannot be read ends it. */
  function RulesFrom(items: seq<Json>, read: seq<Rule>): Result<seq<Rule>, ReadError>
    decreases |items|
  {
    if items == [] then Ok(read)
    else
      match RuleFromDict(items[0])
      case Err(e) => Err(e)
      case Ok(rule) => RulesFrom(items[1..], read + [rule])
  }

  function RulesIn(d: map<Key, Json>): Result<seq<Rule>, ReadError> {
    if RulesKey !in d then Ok([]) else if d[RulesKey].List? then RulesFrom(d[RulesKey].items, []) else Err(BadShape)
  }

  function PolicyHead(d: map<Key, Json>, rules: seq<Rule>): Result<Policy, ReadError> {
    match TextIn(d, NameKey, "custom")
    case Err(e) => Err(e)
    case Ok(name) =>
      match TextIn(d, VersionKey, "1.0")
      case Err(e) => Err(e)
      case Ok(version) =>
        match ActionOf(if DefaultActionKey in d then d[DefaultActionKey] else Text("deny"))
        case Err(e) => Err(e)
        case Ok(defaultAction) =>
          if FailClosedKey !in d then Ok(Policy(name, version, defaultAction, rules, true))
          else if d[FailClosedKey].Bool? then Ok(Policy(name, version, defaultAction, rules, d[FailClosedKey].b))
          else Err(BadShape)
  }

  function PolicyFromDict(j: Json): Result<Policy, ReadError> {
    if !j.Object? then Err(BadShape)
    else
      match RulesIn(j.fields)
      case Err(e) => Err(e)
      case Ok(rules) => PolicyHead(j.fields, rules)
  }

  // ---- what is read when something is missing ----

  /** An empty dictionary reads as the policy "custom" that denies everything and fails closed. */
  lemma DefaultsAreRead()
    ensures PolicyFromDict(Object(map[])) == Ok(Policy("custom", "1.0", Deny, [], true))
  {
  }

  /** A rule needs an id, a target and an action, in this order, and nothing else. */
  lemma RuleNeeds(d: map<Key, Json>, ruleId: string, target: string, action: string)
    requires RuleIdKey in d ==> d[RuleIdKey] == Text(ruleId)
    requires TargetKey in d ==> d[TargetKey] == Text(target)
    requires ActionKey in d ==> d[ActionKey] == Text(action)
    ensures RuleIdKey !in d ==> RuleFromDict(Object(d)) == Err(MissingKey(RuleIdKey))
    ensures RuleIdKey in d && TargetKey !in d ==> RuleFromDict(Object(d)) == Err(MissingKey(TargetKey))
    ensures RuleIdKey in d && TargetKey in d && TargetFromText(target).Ok? && ActionKey !in d ==>
              RuleFromDict(Object(d)) == Err(MissingKey(ActionKey))
    ensures d.Keys == {RuleIdKey, TargetKey, ActionKey} && target == "network_out" && action == "kill" ==>
              RuleFromDict(Object(d)) == Ok(Rule(ruleId, NetworkOut, Kill, [], [], [], ""))
  {
  }

  /** Which texts the actions are read from. */
  lemma ActionTexts(s: string)
    ensures ActionFromText(s) == Ok(Allow) <==> s == "allow"
    ensures ActionFromText(s) == Ok(Deny) <==> s == "deny"
    ensures ActionFromText(s) == Ok(Kill) <==> s == "kill"
    ensures ActionFromText(s) == Ok(Trace) <==> s == "trace"
    ensures ActionFromText(s).Err? <==> s !in {"allow", "deny", "kill", "trace"}
  {
  }

  // ---- the round trip ----

  lemma ActionRoundTrip(a: Action)
    ensures ActionFromText(ActionText(a)) == Ok(a)
  {
    assert "deny"[0] != "kill"[0] && "allow"[0] != "trace"[0];
  }

  lemma TargetRoundTrip(t: Target)
    ensures TargetFromText(TargetText(t)) == Ok(t)
  {
    assert "file_read"[5] != "file_exec"[5] && "file_read"[0] != "dns_query"[0] && "file_exec"[0] != "dns_query"[0];
    assert "file_write"[0] != "network_in"[0];
    assert "network_out"[0] != "signal_send"[0];
    assert "network_bind"[0] != "process_kill"[0];
  }

  lemma TextsRoundTrip(ss: seq<string>)
    ensures AllTexts(Texts(ss)) == Ok(ss)
  {
    assert AllTexts(Texts(ss)).value == ss;
  }

  lemma RuleRoundTrip(r: Rule)
    ensures RuleFromDict(RuleToDict(r)) == Ok(r)
  {
    hide ActionText, ActionFromText, TargetText, TargetFromText, AllTexts, Texts;
    ActionRoundTrip(r.action);
    TargetRoundTrip(r.target);
    TextsRoundTrip(r.paths);
    TextsRoundTrip(r.addresses);
    TextsRoundTrip(r.syscalls);
  }

  lemma {:induction false} RulesRoundTrip(rules: seq<Rule>, read: seq<Rule>)
    ensures RulesFrom(RuleDicts(rules), read) == Ok(read + rules)
    decreases |rules|
  {
    hide RuleFromDict, RuleToDict;
    if rules == [] {
      assert read + rules == read;
    } else {
      RuleRoundTrip(rules[0]);
      assert RuleDicts(rules)[1..] == RuleDicts(rules[1..]);
      RulesRoundTrip(rules[1..], read + [rules[0]]);
      assert read + [rules[0]] + rules[1..] == read + rules;
    }
  }

  /** `_policy_from_dict` inverts `to_dict`. */
  lemma PolicyRoundTrip(p: Policy)
    ensures PolicyFromDict(PolicyToDict(p)) == Ok(p)
  {
    hide RulesFrom, RuleDicts, ActionText, ActionFromText;
    ActionRoundTrip(p.defaultAction);
    RulesRoundTrip(p.rules, []);
    assert [] + p.rules == p.rules;
  }

  /** So two policies are stored as one dictionary only when they are the same policy. */
  lemma ToDictIsInjective(p: Policy, q: Policy)
    ensures PolicyToDict(p) == PolicyToDict(q) <==> p == q
  {
    hide PolicyToDict, PolicyFromDict;
    PolicyRoundTrip(p);
    PolicyRoundTrip(q);
  }

  lemma RuleToDictIsInjective(r: Rule, s: Rule)
    ensures RuleToDict(r) == RuleToDict(s) <==> r == s
  {
    hide RuleToDict, RuleFromDict;
    RuleRoundTrip(r);
    RuleRoundTrip(s);
  }

  method ReadRules(items: seq<Json>) returns (rules: Result<seq<Rule>, ReadError>)
    ensures rules == RulesFrom(items, [])
  {
    hide RuleFromDict;
    var read := [];
    assert items[0..] == items;
    for i := 0 to |items|
      invariant RulesFrom(items[i..], read) == RulesFrom(items, [])
    {
      assert items[i..][0] == items[i] && items[i..][1..] == items[i + 1..];
      var rule := RuleFromDict(items[i]);
      if rule.Err? { return Err(rule.error); }
      read := read + [rule.value];
    }
    return Ok(read);
  }

  // ---- validation ----

  ghost predicate UniqueIds(rules: seq<Rule>) {
    forall i, j | 0 <= i < j < |rules| :: rules[i].ruleId != rules[j].ruleId
  }

  datatype Complaint = NoRules | DuplicateId(ruleId: string)

  /** The id of an earlier rule comes back among the first `k`. */
  ghost predicate Repeats(rules: seq<Rule>, k: nat, id: string)
    requires k <= |rules|
  {
    exists i, j | 0 <= i < j < k :: rules[i].ruleId == rules[j].ruleId == id
  }

  lemma RepeatsNext(rules: seq<Rule>, k: nat, id: string)
    requires k < |rules|
    ensures Repeats(rules, k + 1, id) <==>
            Repeats(rules, k, id) || (rules[k].ruleId == id && exists i | 0 <= i < k :: rules[i].ruleId == id)
  {
  }

  /** `validate_policy`: an enum member is always one of its enum's values, so the target and action checks can
      never fire, and a policy passes exactly when it has rules and their ids are unique. */
  method ValidatePolicy(policy: Policy) returns (errors: seq<Complaint>)
    ensures errors == [] <==> policy.rules != [] && UniqueIds(policy.rules)
    ensures NoRules in errors <==> policy.rules == []
    ensures forall id :: DuplicateId(id) in errors <==> Repeats(policy.rules, |policy.rules|, id)
  {
    hide Repeats;
    errors := if policy.rules == [] then [NoRules] else [];
    var seen: set<string> := {};
    forall id ensures !Repeats(policy.rules, 0, id) { NoRepeats(policy.rules, id); }
    for k := 0 to |policy.rules|
      invariant seen == set i | 0 <= i < k :: policy.rules[i].ruleId
      invariant NoRules in errors <==> policy.rules == []
      invariant forall id :: DuplicateId(id) in errors <==> Repeats(policy.rules, k, id)
    {
      var rule := policy.rules[k];
      forall id ensures Repeats(policy.rules, k + 1, id) <==>
                        Repeats(policy.rules, k, id) || (rule.ruleId == id && id in seen)
      {
        RepeatsNext(policy.rules, k, id);
      }
      if rule.ruleId in seen {
        errors := errors + [DuplicateId(rule.ruleId)];
      }
      seen := seen + {rule.ruleId};
    }
    if errors != [] {
      match errors[0]
      case NoRules => assert NoRules in errors;
      case DuplicateId(id) => assert DuplicateId(id) in errors;
    }
    UniqueIffNoRepeats(policy.rules);
  }

  lemma NoRepeats(rules: seq<Rule>, id: string)
    ensures !Repeats(rules, 0, id)
  {
  }

  lemma UniqueIffNoRepeats(rules: seq<Rule>)
    ensures UniqueIds(rules) <==> forall id :: !Repeats(rules, |rules|, id)
  {
    if forall id :: !Repeats(rules, |rules|, id) {
      forall i, j | 0 <= i < j < |rules| ensures rules[i].ruleId != rules[j].ruleId {
        assert !Repeats(rules, |rules|, rules[i].ruleId);
      }
    }
  }
}

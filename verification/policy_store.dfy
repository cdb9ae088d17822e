/** `VersionedPolicyStore`: version files written, listed and compared step by step. */
module PolicyStores {
  import opened Collections
  import opened PolicyModel
  import opened PolicyHistory
  import opened PolicyRuns

  // ---- comparing two versions ----

  /** `{r.rule_id: r for r in rules}`: the last rule of an id counts. */
  function ById(rules: seq<Rule>): Dict<string, Rule>
    decreases |rules|
  {
    if rules == [] then DictRep([], map[])
    else
      var last := rules[|rules| - 1];
      ById(rules[..|rules| - 1]).Put(last.ruleId, last)
  }

  lemma ByIdNext(rules: seq<Rule>)
    requires rules != []
    ensures var last := rules[|rules| - 1];
            ById(rules).items == ById(rules[..|rules| - 1]).items[last.ruleId := last]
  {
  }

  /** The ids are those that rules have. */
  lemma {:induction false} ByIdHas(rules: seq<Rule>, id: string)
    ensures id in ById(rules).items <==> exists r | r in rules :: r.ruleId == id
    decreases |rules|
  {
    hide ById;
    if rules == [] {
      NothingById();
    } else {
      var init, last := rules[..|rules| - 1], rules[|rules| - 1];
      ByIdNext(rules);
      ByIdHas(init, id);
      SomeRule(init, last, id);
      assert rules == init + [last];
    }
  }

  lemma NothingById()
    ensures ById([]).items == map[]
  {
  }

  lemma SomeRule(init: seq<Rule>, last: Rule, id: string)
    ensures (exists r | r in init + [last] :: r.ruleId == id) <==>
            (exists r | r in init :: r.ruleId == id) || last.ruleId == id
  {
    assert last in init + [last];
    assert forall r | r in init :: r in init + [last];
  }

  /** An id stands for the last rule that has it. */
  lemma {:induction false} ByIdIs(rules: seq<Rule>, i: nat)
    requires i < |rules| && forall r | r in rules[i + 1..] :: r.ruleId != rules[i].ruleId
    ensures var id := rules[i].ruleId; id in ById(rules).items && ById(rules).items[id] == rules[i]
    decreases |rules|
  {
    hide ById;
    var n := |rules| - 1;
    ByIdNext(rules);
    if i < n {
      var init := rules[..n];
      assert rules[n] in rules[i + 1..];
      forall r | r in init[i + 1..] ensures r.ruleId != init[i].ruleId {
        assert init[i + 1..] == rules[i + 1..n] && r in rules[i + 1..n];
        assert rules[i + 1..] == rules[i + 1..n] + [rules[n]];
      }
      ByIdIs(init, i);
    }
  }

  datatype Difference = Difference(defaultChanged: bool, added: seq<string>, removed: seq<string>, changed: seq<string>)

  /** `diff` reports nothing exactly when both versions decide every rule id alike and share the default action. */
  method Compare(a: Policy, b: Policy) returns (d: Difference)
    ensures d.added == [] && d.removed == [] && d.changed == [] && !d.defaultChanged
       <==> ById(a.rules).items == ById(b.rules).items && a.defaultAction == b.defaultAction
    ensures forall id :: id in d.added <==> id in ById(b.rules).items && id !in ById(a.rules).items
    ensures forall id :: id in d.removed <==> id in ById(a.rules).items && id !in ById(b.rules).items
    ensures forall id :: id in d.changed <==> id in ById(a.rules).items && id in ById(b.rules).items
                                              && ById(a.rules).items[id] != ById(b.rules).items[id]
    ensures d.defaultChanged <==> a.defaultAction != b.defaultAction
  {
    hide ById;
    var rulesA, rulesB := ById(a.rules), ById(b.rules);
    var added := MissingFrom(rulesB, rulesA);
    var removed := MissingFrom(rulesA, rulesB);
    var changed := ChangedIn(rulesA, rulesB);
    d := Difference(a.defaultAction != b.defaultAction, added, removed, changed);
    NothingDiffers(rulesA, rulesB, added, removed, changed);
  }

  method MissingFrom(a: Dict<string, Rule>, b: Dict<string, Rule>) returns (ids: seq<string>)
    ensures forall id :: id in ids <==> id in a.items && id !in b.items
  {
    ids := [];
    for k := 0 to |a.keys|
      invariant forall id :: id in ids <==> id in a.keys[..k] && id !in b.items
    {
      if a.keys[k] !in b.items { ids := ids + [a.keys[k]]; }
    }
  }

  method ChangedIn(a: Dict<string, Rule>, b: Dict<string, Rule>) returns (ids: seq<string>)
    ensures forall id :: id in ids <==> id in a.items && id in b.items && a.items[id] != b.items[id]
  {
    ids := [];
    for k := 0 to |a.keys|
      invariant forall id :: id in ids <==> id in a.keys[..k] && id in b.items && a.items[id] != b.items[id]
    {
      if a.keys[k] in b.items {
        RuleToDictIsInjective(a.items[a.keys[k]], b.items[a.keys[k]]);
        if RuleToDict(a.items[a.keys[k]]) != RuleToDict(b.items[a.keys[k]]) { ids := ids + [a.keys[k]]; }
      }
    }
  }

  lemma NothingDiffers(a: Dict<string, Rule>, b: Dict<string, Rule>,
                       added: seq<string>, removed: seq<string>, changed: seq<string>)
    requires forall id :: id in added <==> id in b.items && id !in a.items
    requires forall id :: id in removed <==> id in a.items && id !in b.items
    requires forall id :: id in changed <==> id in a.items && id in b.items && a.items[id] != b.items[id]
    ensures added == [] && removed == [] && changed == [] <==> a.items == b.items
  {
    EmptyIff(added);
    EmptyIff(removed);
    EmptyIff(changed);
  }

  lemma EmptyIff(ids: seq<string>)
    ensures ids == [] <==> forall id :: id !in ids
  {
    if ids != [] { assert ids[0] in ids; }
  }

  // ---- the store ----

  lemma ReadNext(names: seq<string>, dir: Dir, read: seq<Version>, i: nat)
    requires forall name | name in names :: name in dir.items
    requires i < |names|
    ensures forall name | name in names[i..] :: name in dir.items
    ensures ReadNames(names[i..], dir, read) ==
            if !IsVersionFile(names[i]) then ReadNames(names[i + 1..], dir, read)
            else match ReadFile(dir.items[names[i]])
                 case Found(v) => ReadNames(names[i + 1..], dir, read + [v])
                 case Absent => ReadNames(names[i + 1..], dir, read)
                 case Raised => None
  {
    hide IsVersionFile, ReadFile;
    assert names[i..][1..] == names[i + 1..] && names[i..][0] == names[i];
  }

  class VersionedPolicyStore {
    const digest: Digest
    var files: Files

    constructor (digest: Digest)
      ensures this.digest == digest && files == map[]
    {
      this.digest := digest;
      this.files := map[];
    }

    method ListStored(name: string) returns (versions: Option<seq<Version>>)
      ensures versions == ListVersions(DirAt(files, name))
    {
      hide IsVersionFile, ReadFile, ReadNames, SortedNames;
      var dir := DirAt(files, name);
      var names := SortedNames(dir);
      var read := [];
      assert names[0..] == names;
      for i := 0 to |names|
        invariant forall n | n in names[i..] :: n in dir.items
        invariant ReadNames(names[i..], dir, read) == ReadNames(names, dir, [])
      {
        ReadNext(names, dir, read, i);
        if IsVersionFile(names[i]) {
          var outcome := ReadFile(dir.items[names[i]]);
          if outcome.Raised? { return None; }
          if outcome.Found? { read := read + [outcome.version]; }
        }
      }
      assert names[|names|..] == [];
      ReadNothing(dir, read);
      return Some(read);
    }

    method SaveVersion(policy: Policy, author: string, change: string, now: string) returns (saved: Option<Version>)
      modifies this
      ensures files == SaveIn(old(files), policy, author, change, now, digest)
      ensures saved == Save(DirAt(old(files), policy.name), policy, author, change, now, digest)
      ensures saved.Some? ==>
                && saved.value.policy == policy && saved.value.author == author
                && saved.value.timestamp == now && saved.value.change == change
                && saved.value.contentHash == digest(PolicyToDict(policy))
                && Load(DirAt(files, policy.name), saved.value.number) == Found(saved.value)
                && LoadLatest(DirAt(files, policy.name)) == Found(saved.value)
      ensures forall name | name != policy.name :: DirAt(files, name) == DirAt(old(files), name)
    {
      hide ListVersions, NextNumber, Write, Load, LoadLatest, PolicyToDict;
      var dir := DirAt(files, policy.name);
      files := files[policy.name := dir];
      var existing := ListStored(policy.name);
      if existing.None? { return None; }
      var v := Version(policy, NextNumber(existing.value), author, now, change, HashOf(policy, digest));
      dir := WriteFiles(dir, v);
      files := files[policy.name := dir];
      SaveReport(old(files), policy, author, change, now, digest);
      return Some(v);
    }

    /** The version file, then the latest pointer, each moved into place. */
    static method WriteFiles(dir: Dir, v: Version) returns (after: Dir)
      ensures after == Write(dir, v)
    {
      hide VersionToDict, FileName;
      after := dir.Put(FileName(v.number), Doc(VersionToDict(v)));
      after := after.Put(LATEST, Doc(VersionToDict(v)));
    }

    method LoadVersion(name: string, version: Option<int>) returns (outcome: Outcome)
      ensures outcome == match version
                         case None => LoadLatest(DirAt(files, name))
                         case Some(n) => Load(DirAt(files, name), n)
    {
      hide ListVersions, ReadFile, FileName;
      var dir := DirAt(files, name);
      if version.Some? {
        if FileName(version.value) !in dir.items { return Absent; }
        return ReadFile(dir.items[FileName(version.value)]);
      }
      if LATEST in dir.items { return ReadFile(dir.items[LATEST]); }
      var versions := ListStored(name);
      if versions.None? { return Raised; }
      if versions.value == [] { return Absent; }
      return Found(Highest(versions.value));
    }

    method RollbackTo(name: string, number: int, author: string, now: string) returns (saved: Option<Version>)
      modifies this
      ensures files == RollbackIn(old(files), name, number, author, now, digest)
      ensures saved.Some? ==> Load(DirAt(old(files), name), number).Found?
                              && saved.value.policy == Load(DirAt(old(files), name), number).version.policy
                              && saved.value.author == author && saved.value.timestamp == now
                              && saved.value.change == "Rollback to v" + Decimal(number)
    {
      hide Load, SaveIn, Save;
      var target := LoadVersion(name, Some(number));
      if !target.Found? { return None; }
      saved := SaveVersion(target.version.policy, author, RollbackNote(number), now);
    }

    method VerifyStored(name: string) returns (violations: Option<seq<Mismatch>>)
      ensures violations == VerifyIntegrity(DirAt(files, name), digest)
    {
      hide ListVersions, HashOf;
      var versions := ListStored(name);
      if versions.None? { return None; }
      var found := [];
      for i := 0 to |versions.value|
        invariant found == Mismatches(versions.value[..i], digest)
      {
        assert versions.value[..i + 1][..i] == versions.value[..i];
        var v := versions.value[i];
        var expected := HashOf(v.policy, digest);
        if v.contentHash != "" && v.contentHash != expected {
          found := found + [Mismatch(v.number, v.contentHash, expected)];
        }
      }
      assert versions.value[..|versions.value|] == versions.value;
      return Some(found);
    }
  }

  lemma SaveReport(files: Files, policy: Policy, author: string, change: string, now: string, digest: Digest)
    requires Save(DirAt(files, policy.name), policy, author, change, now, digest).Some?
    ensures var v := Save(DirAt(files, policy.name), policy, author, change, now, digest).value;
            var after := SaveIn(files, policy, author, change, now, digest);
            && Load(DirAt(after, policy.name), v.number) == Found(v)
            && LoadLatest(DirAt(after, policy.name)) == Found(v)
  {
    hide Load, LoadLatest, SaveIn, ListVersions;
    var v := Save(DirAt(files, policy.name), policy, author, change, now, digest).value;
    SaveWrites(files, policy, author, change, now, digest, v.number, policy.name);
  }

  lemma ReadNothing(dir: Dir, read: seq<Version>)
    ensures ReadNames([], dir, read) == Some(read)
  {
  }
}

/** Access policies: rules over patterns and groups of them, and the policy's own tests. */
module AccessPolicy {
  import opened Wrappers

  const GROUPS := "groups"
  const ACLS := "acls"
  const WRITE := "write"

  datatype Identity = Identity(typ: string, id: string)

  datatype Identifier = Identifier(typ: string, pattern: string)

  datatype Group = Group(id: string, members: seq<Identifier>)

  datatype Rule = Rule(id: string, action: string, principals: seq<Identifier>, resources: seq<Identifier>)

  datatype Test = Test(id: string, principal: Identity, allow: Option<string>, deny: Option<string>, resource: Identity)

  datatype Policy = Policy(rules: seq<Rule>, groups: seq<Group>, tests: seq<Test>)

  /** Whether an id matches a pattern: a glob match that is not part of this model. */
  type Matcher = (string, string) -> bool

  predicate Matches(i: Identifier, identity: Identity, glob: Matcher)
  {
    i.typ == identity.typ && glob(identity.id, i.pattern)
  }

  // ---------------------------------------------------------------- groups

  /** The identifiers, and the members of the groups that they name. */
  ghost predicate InResolved(i: Identifier, identifiers: seq<Identifier>, groups: seq<Group>, glob: Matcher)
  {
    i in identifiers || exists m :: m in identifiers && Belongs(i, m, groups, glob)
  }

  /** i is a member of a group that m names. */
  ghost predicate Belongs(i: Identifier, m: Identifier, groups: seq<Group>, glob: Matcher)
  {
    exists g :: g in groups && Names(m, g, glob) && i in g.members
  }

  predicate Names(i: Identifier, g: Group, glob: Matcher)
  {
    i.typ == GROUPS && Matches(i, Identity(GROUPS, g.id), glob)
  }

  method ResolveGroups(identifiers: seq<Identifier>, groups: seq<Group>, glob: Matcher) returns (resolved: seq<Identifier>)
    ensures forall i :: i in resolved <==> InResolved(i, identifiers, groups, glob)
  {
    resolved := [];
    for n := 0 to |identifiers|
      invariant forall i :: i in resolved <==> InResolved(i, identifiers[..n], groups, glob)
    {
      var i := identifiers[n];
      ghost var before := resolved;
      resolved := resolved + [i];
      if i.typ == GROUPS {
        for k := 0 to |groups|
          invariant forall j :: j in resolved <==> j in before || j == i || Belongs(j, i, groups[..k], glob)
        {
          assert groups[..k + 1] == groups[..k] + [groups[k]];
          if Matches(i, Identity(GROUPS, groups[k].id), glob) {
            resolved := resolved + groups[k].members;
          }
        }
        assert groups[..|groups|] == groups;
      }
      assert identifiers[..n + 1] == identifiers[..n] + [i];
    }
    assert identifiers[..|identifiers|] == identifiers;
  }

  /** A chain of memberships: each but the first is a member of a group that the one before names. */
  ghost predicate IsChain(chain: seq<Identifier>, identifiers: seq<Identifier>, groups: seq<Group>, glob: Matcher)
  {
    && chain != [] && chain[0] in identifiers
    && forall k :: 0 <= k < |chain| - 1 ==> Belongs(chain[k + 1], chain[k], groups, glob)
  }

  /** Membership through any number of groups. */
  ghost predicate InClosure(i: Identifier, identifiers: seq<Identifier>, groups: seq<Group>, glob: Matcher)
  {
    exists chain :: IsChain(chain, identifiers, groups, glob) && chain[|chain| - 1] == i
  }

  predicate NoSubgroups(groups: seq<Group>)
  {
    forall g, m :: g in groups && m in g.members ==> m.typ != GROUPS
  }

  /** Without groups in groups, resolving one level finds all members. */
  lemma OneLevelIsEnough(i: Identifier, identifiers: seq<Identifier>, groups: seq<Group>, glob: Matcher)
    requires NoSubgroups(groups)
    ensures InResolved(i, identifiers, groups, glob) <==> InClosure(i, identifiers, groups, glob)
  {
    if chain :| IsChain(chain, identifiers, groups, glob) && chain[|chain| - 1] == i {
      if |chain| > 1 {
        assert Belongs(chain[1], chain[0], groups, glob);
        MembersAreNoGroups(chain[1], chain[0], groups, glob);
        assert |chain| > 2 ==> Belongs(chain[2], chain[1], groups, glob);
      }
    }
    if i in identifiers {
      assert IsChain([i], identifiers, groups, glob);
    } else if m :| m in identifiers && Belongs(i, m, groups, glob) {
      assert IsChain([m, i], identifiers, groups, glob);
    }
  }

  lemma MembersAreNoGroups(i: Identifier, m: Identifier, groups: seq<Group>, glob: Matcher)
    requires NoSubgroups(groups) && Belongs(i, m, groups, glob)
    ensures i.typ != GROUPS && forall j :: !Belongs(j, i, groups, glob)
  {
  }

  // ---------------------------------------------------------------- what a policy grants

  /** Some identifier of the list, or a member of a group it names, matches. */
  ghost predicate Reaches(identifiers: seq<Identifier>, groups: seq<Group>, identity: Identity, glob: Matcher)
  {
    exists i :: InResolved(i, identifiers, groups, glob) && Matches(i, identity, glob)
  }

  ghost predicate RuleGrants(rule: Rule, principal: Identity, action: string, resource: Identity, groups: seq<Group>,
                             glob: Matcher)
  {
    && rule.action == action
    && Reaches(rule.principals, groups, principal, glob) && Reaches(rule.resources, groups, resource, glob)
  }

  ghost predicate Grants(p: Policy, principal: Identity, action: string, resource: Identity, glob: Matcher)
  {
    exists rule :: rule in p.rules && RuleGrants(rule, principal, action, resource, p.groups, glob)
  }

  method AnyMatches(identifiers: seq<Identifier>, groups: seq<Group>, identity: Identity, glob: Matcher) returns (found: bool)
    ensures found <==> Reaches(identifiers, groups, identity, glob)
  {
    var resolved := ResolveGroups(identifiers, groups, glob);
    for n := 0 to |resolved|
      invariant forall i :: i in resolved[..n] ==> !Matches(i, identity, glob)
    {
      if Matches(resolved[n], identity, glob) {
        return true;
      }
    }
    assert resolved[..|resolved|] == resolved;
    return false;
  }

  method RuleAssert(rule: Rule, principal: Identity, action: string, resource: Identity, groups: seq<Group>, glob: Matcher)
    returns (ok: bool)
    ensures ok <==> RuleGrants(rule, principal, action, resource, groups, glob)
  {
    if rule.action != action {
      return false;
    }
    ok := AnyMatches(rule.principals, groups, principal, glob);
    if ok {
      ok := AnyMatches(rule.resources, groups, resource, glob);
    }
  }

  method Assert(p: Policy, principal: Identity, action: string, resource: Identity, glob: Matcher) returns (ok: bool)
    ensures ok <==> Grants(p, principal, action, resource, glob)
  {
    for n := 0 to |p.rules|
      invariant forall rule :: rule in p.rules[..n] ==> !RuleGrants(rule, principal, action, resource, p.groups, glob)
    {
      ok := RuleAssert(p.rules[n], principal, action, resource, p.groups, glob);
      if ok {
        return true;
      }
    }
    assert p.rules[..|p.rules|] == p.rules;
    return false;
  }

  /** The patterns of this type that the principal may act on. */
  ghost predicate Listed(p: Policy, principal: Identity, action: string, typ: string, pattern: string, rules: seq<Rule>,
                         glob: Matcher)
  {
    exists rule ::
      && rule in rules && rule.action == action && Reaches(rule.principals, p.groups, principal, glob)
      && InResolved(Identifier(typ, pattern), rule.resources, p.groups, glob)
  }

  method List(p: Policy, principal: Identity, action: string, typ: string, glob: Matcher) returns (allowedPatterns: seq<string>)
    ensures forall pattern :: pattern in allowedPatterns <==> Listed(p, principal, action, typ, pattern, p.rules, glob)
  {
    allowedPatterns := [];
    for n := 0 to |p.rules|
      invariant forall pattern :: pattern in allowedPatterns <==> Listed(p, principal, action, typ, pattern, p.rules[..n], glob)
    {
      var rule := p.rules[n];
      assert p.rules[..n + 1] == p.rules[..n] + [rule];
      if rule.action != action {
        continue;
      }
      var principalFound := AnyMatches(rule.principals, p.groups, principal, glob);
      if !principalFound {
        continue;
      }
      var resources := ResolveGroups(rule.resources, p.groups, glob);
      ghost var before := allowedPatterns;
      for k := 0 to |resources|
        invariant forall s :: s in allowedPatterns <==> s in before || Identifier(typ, s) in resources[..k]
      {
        assert resources[..k + 1] == resources[..k] + [resources[k]];
        if resources[k].typ != typ {
          continue;
        }
        allowedPatterns := allowedPatterns + [resources[k].pattern];
      }
      assert resources[..|resources|] == resources;
    }
    assert p.rules[..|p.rules|] == p.rules;
  }

  /** Something is granted exactly if some listed pattern matches it. */
  lemma GrantedIsListed(p: Policy, principal: Identity, action: string, resource: Identity, patterns: seq<string>, glob: Matcher)
    requires forall pattern :: pattern in patterns <==> Listed(p, principal, action, resource.typ, pattern, p.rules, glob)
    ensures Grants(p, principal, action, resource, glob) <==> exists pattern :: pattern in patterns && glob(resource.id, pattern)
  {
    if Grants(p, principal, action, resource, glob) {
      var rule :| rule in p.rules && RuleGrants(rule, principal, action, resource, p.groups, glob);
      var i :| InResolved(i, rule.resources, p.groups, glob) && Matches(i, resource, glob);
      assert i == Identifier(resource.typ, i.pattern);
      assert Listed(p, principal, action, resource.typ, i.pattern, p.rules, glob);
    }
    if pattern :| pattern in patterns && glob(resource.id, pattern) {
      var rule :| rule in p.rules && rule.action == action && Reaches(rule.principals, p.groups, principal, glob)
                  && InResolved(Identifier(resource.typ, pattern), rule.resources, p.groups, glob);
      assert Matches(Identifier(resource.typ, pattern), resource, glob);
      assert RuleGrants(rule, principal, action, resource, p.groups, glob);
    }
  }

  // ---------------------------------------------------------------- what is wrong with a policy

  /** What is wrong, and where. */
  datatype Key = TestKey(id: string) | AllTests | GroupKey(id: string) | MemberKey(group: string, member: Identifier)
               | PrincipalKey(rule: string, principal: Identifier) | ResourceKey(rule: string, resource: Identifier)
               | ActionKey(rule: string)

  datatype Error = TestFails | SubgroupsForbidden | UnsupportedIdentityType | TestMustHaveCondition
                 | UnsupportedActionType | ACLTestMissing

  predicate ValidType(typ: string)
  {
    typ in {"users", "groups", "codebases", "acls", "files"}
  }

  predicate ForACL(test: Test, aclID: string)
  {
    test.resource.typ == ACLS && test.allow.Some? && test.resource.id == aclID
  }

  /** The test passes: what it allows to write is granted, what it denies is not. */
  ghost predicate Passes(p: Policy, test: Test, glob: Matcher)
  {
    && (test.allow.Some? || test.deny.Some?)
    && (test.allow == Some(WRITE) ==> Grants(p, test.principal, WRITE, test.resource, glob))
    && (test.deny.Some? ==> !Grants(p, test.principal, test.deny.value, test.resource, glob))
  }

  /** What is wrong with a test, if anything. */
  ghost function Verdict(p: Policy, test: Test, glob: Matcher): Option<Error>
  {
    if test.allow.None? && test.deny.None? then Some(TestMustHaveCondition)
    else if !Passes(p, test, glob) then Some(TestFails)
    else None
  }

  /** What is wrong with a member of a group, and where that is reported. */
  predicate MemberFault(group: string, m: Identifier, k: Key)
  {
    (k == GroupKey(group) && m.typ == GROUPS) || (k == MemberKey(group, m) && !ValidType(m.typ))
  }

  ghost predicate GroupFault(g: Group, k: Key)
  {
    exists m :: m in g.members && MemberFault(g.id, m, k)
  }

  predicate PrincipalFault(rule: string, principals: seq<Identifier>, k: Key)
  {
    k.PrincipalKey? && k.rule == rule && k.principal in principals && !ValidType(k.principal.typ)
  }

  predicate ResourceFault(rule: string, resources: seq<Identifier>, k: Key)
  {
    k.ResourceKey? && k.rule == rule && k.resource in resources && !ValidType(k.resource.typ)
  }

  predicate RuleFault(rule: Rule, k: Key)
  {
    || PrincipalFault(rule.id, rule.principals, k) || ResourceFault(rule.id, rule.resources, k)
    || (k == ActionKey(rule.id) && rule.action != WRITE)
  }

  /** The error that is reported under a key that is not about a test. */
  function ErrorAt(k: Key): Error
  {
    match k
    case TestKey(_) => TestFails
    case AllTests => ACLTestMissing
    case GroupKey(_) => SubgroupsForbidden
    case ActionKey(_) => UnsupportedActionType
    case _ => UnsupportedIdentityType
  }

  /** Every error is the one for its place; under a test, it is what is wrong with a test of that name. */
  ghost predicate Explained(p: Policy, errs: map<Key, Error>, glob: Matcher)
  {
    forall k :: k in errs ==>
      if k.TestKey? then exists test :: test in p.tests && test.id == k.id && Verdict(p, test, glob) == Some(errs[k])
      else errs[k] == ErrorAt(k)
  }

  /** Something is wrong with some test of this name. */
  ghost predicate TestFault(p: Policy, tests: seq<Test>, k: Key, glob: Matcher)
  {
    k.TestKey? && exists test :: test in tests && test.id == k.id && Verdict(p, test, glob).Some?
  }

  /** Checks the tests; one of them must be about writing the policy itself. */
  method TestErrors(p: Policy, aclID: string, glob: Matcher) returns (errs: map<Key, Error>)
    ensures Explained(p, errs, glob)
    ensures forall k :: k in errs <==>
              TestFault(p, p.tests, k, glob) || (k == AllTests && forall test :: test in p.tests ==> !ForACL(test, aclID))
  {
    errs := map[];
    var aclTest: Option<Test> := None;
    for n := 0 to |p.tests|
      invariant Explained(p, errs, glob) && forall k :: k in errs <==> TestFault(p, p.tests[..n], k, glob)
      invariant aclTest.Some? ==> aclTest.value in p.tests && ForACL(aclTest.value, aclID)
      invariant aclTest.None? ==> forall test :: test in p.tests[..n] ==> !ForACL(test, aclID)
    {
      var test := p.tests[n];
      ghost var before := errs;
      assert p.tests[..n + 1] == p.tests[..n] + [test];
      if test.allow.None? && test.deny.None? {
        errs := errs[TestKey(test.id) := TestMustHaveCondition];
      }
      if test.resource.typ == ACLS && test.allow.Some? && test.resource.id == aclID {
        aclTest := Some(test);
      }
      if test.allow.Some? && test.allow.value == WRITE {
        var granted := Assert(p, test.principal, test.allow.value, test.resource, glob);
        if !granted {
          errs := errs[TestKey(test.id) := TestFails];
        }
      }
      if test.deny.Some? {
        var granted := Assert(p, test.principal, test.deny.value, test.resource, glob);
        if granted {
          errs := errs[TestKey(test.id) := TestFails];
        }
      }
      assert errs == if Verdict(p, test, glob).Some? then before[TestKey(test.id) := Verdict(p, test, glob).value] else before;
      OneMoreTest(p, p.tests[..n], test, before, glob);
    }
    assert p.tests[..|p.tests|] == p.tests;
    if aclTest.None? {
      errs := errs[AllTests := ACLTestMissing];
    }
  }

  lemma OneMoreTest(p: Policy, tests: seq<Test>, test: Test, before: map<Key, Error>, glob: Matcher)
    requires Explained(p, before, glob) && test in p.tests
    requires forall k :: k in before <==> TestFault(p, tests, k, glob)
    ensures var errs := if Verdict(p, test, glob).Some? then before[TestKey(test.id) := Verdict(p, test, glob).value] else before;
            Explained(p, errs, glob) && forall k :: k in errs <==> TestFault(p, tests + [test], k, glob)
  {
    var errs := if Verdict(p, test, glob).Some? then before[TestKey(test.id) := Verdict(p, test, glob).value] else before;
    hide Verdict;
    forall k
      ensures k in errs <==> TestFault(p, tests + [test], k, glob)
    {
      assert test in tests + [test];
    }
  }

  method GroupErrors(p: Policy, before: map<Key, Error>, glob: Matcher) returns (errs: map<Key, Error>)
    requires Explained(p, before, glob)
    ensures Explained(p, errs, glob)
    ensures forall k :: k in errs <==> k in before || exists g :: g in p.groups && GroupFault(g, k)
  {
    hide Verdict;
    errs := before;
    for n := 0 to |p.groups|
      invariant Explained(p, errs, glob)
      invariant forall k :: k in errs <==> k in before || exists g :: g in p.groups[..n] && GroupFault(g, k)
    {
      var group := p.groups[n];
      ghost var was := errs;
      assert p.groups[..n + 1] == p.groups[..n] + [group];
      for k := 0 to |group.members|
        invariant Explained(p, errs, glob)
        invariant forall key :: key in errs <==>
                    (key in was || exists m :: m in group.members[..k] && MemberFault(group.id, m, key))
      {
        var member := group.members[k];
        ghost var before' := errs;
        assert group.members[..k + 1] == group.members[..k] + [member];
        if member.typ == GROUPS {
          errs := errs[GroupKey(group.id) := SubgroupsForbidden];
        }
        if !ValidType(member.typ) {
          errs := errs[MemberKey(group.id, member) := UnsupportedIdentityType];
        }
        assert member in group.members[..k + 1];
        assert forall key :: key in errs <==> key in before' || MemberFault(group.id, member, key);
      }
      assert group.members[..|group.members|] == group.members;
      assert group in p.groups[..n + 1];
    }
    assert p.groups[..|p.groups|] == p.groups;
  }

  lemma ExplainedMore(p: Policy, errs: map<Key, Error>, glob: Matcher, k: Key)
    requires Explained(p, errs, glob) && !k.TestKey?
    ensures Explained(p, errs[k := ErrorAt(k)], glob)
  {
    hide Verdict;
  }

  method RuleErrors(p: Policy, before: map<Key, Error>, glob: Matcher) returns (errs: map<Key, Error>)
    requires Explained(p, before, glob)
    ensures Explained(p, errs, glob)
    ensures forall k :: k in errs <==> k in before || exists rule :: rule in p.rules && RuleFault(rule, k)
  {
    hide Explained;
    errs := before;
    for n := 0 to |p.rules|
      invariant Explained(p, errs, glob)
      invariant forall k :: k in errs <==> k in before || exists rule :: rule in p.rules[..n] && RuleFault(rule, k)
    {
      var rule := p.rules[n];
      ghost var was := errs;
      assert p.rules[..n + 1] == p.rules[..n] + [rule];
      for k := 0 to |rule.principals|
        invariant Explained(p, errs, glob)
        invariant forall key :: key in errs <==> key in was || PrincipalFault(rule.id, rule.principals[..k], key)
      {
        assert rule.principals[..k + 1] == rule.principals[..k] + [rule.principals[k]];
        if !ValidType(rule.principals[k].typ) {
          ExplainedMore(p, errs, glob, PrincipalKey(rule.id, rule.principals[k]));
          errs := errs[PrincipalKey(rule.id, rule.principals[k]) := UnsupportedIdentityType];
        }
      }
      assert rule.principals[..|rule.principals|] == rule.principals;
      ghost var mid := errs;
      for k := 0 to |rule.resources|
        invariant Explained(p, errs, glob)
        invariant forall key :: key in errs <==> key in mid || ResourceFault(rule.id, rule.resources[..k], key)
      {
        assert rule.resources[..k + 1] == rule.resources[..k] + [rule.resources[k]];
        if !ValidType(rule.resources[k].typ) {
          ExplainedMore(p, errs, glob, ResourceKey(rule.id, rule.resources[k]));
          errs := errs[ResourceKey(rule.id, rule.resources[k]) := UnsupportedIdentityType];
        }
      }
      assert rule.resources[..|rule.resources|] == rule.resources;
      if rule.action != WRITE {
        ExplainedMore(p, errs, glob, ActionKey(rule.id));
        errs := errs[ActionKey(rule.id) := UnsupportedActionType];
      }
      assert rule in p.rules[..n + 1];
    }
    assert p.rules[..|p.rules|] == p.rules;
  }

  /** Everything that is wrong, and nothing else. */
  method Errors(p: Policy, aclID: string, glob: Matcher) returns (errs: map<Key, Error>)
    ensures Explained(p, errs, glob) && forall k :: k in errs <==> IsFault(p, aclID, glob, k)
  {
    errs := TestErrors(p, aclID, glob);
    errs := GroupErrors(p, errs, glob);
    errs := RuleErrors(p, errs, glob);
  }

  ghost predicate IsFault(p: Policy, aclID: string, glob: Matcher, k: Key)
  {
    || TestFault(p, p.tests, k, glob) || (k == AllTests && forall test :: test in p.tests ==> !ForACL(test, aclID))
    || (exists g :: g in p.groups && GroupFault(g, k)) || (exists rule :: rule in p.rules && RuleFault(rule, k))
  }

  /** In a policy that nothing is wrong with, what a test allows to write is granted, what it denies
      is refused, some test is about the policy itself, and one level of groups is all there is. */
  lemma ValidPolicy(p: Policy, aclID: string, glob: Matcher)
    requires forall k :: !IsFault(p, aclID, glob, k)
    ensures forall test :: test in p.tests ==> Passes(p, test, glob)
    ensures exists test :: test in p.tests && ForACL(test, aclID)
    ensures forall i, identifiers :: InResolved(i, identifiers, p.groups, glob) <==> InClosure(i, identifiers, p.groups, glob)
  {
    forall test | test in p.tests
      ensures Passes(p, test, glob)
    {
      assert !IsFault(p, aclID, glob, TestKey(test.id));
    }
    assert !IsFault(p, aclID, glob, AllTests);
    forall g, m | g in p.groups && m in g.members
      ensures m.typ != GROUPS
    {
      assert !IsFault(p, aclID, glob, GroupKey(g.id));
      assert MemberFault(g.id, m, GroupKey(g.id)) ==> GroupFault(g, GroupKey(g.id));
    }
    forall i, identifiers
      ensures InResolved(i, identifiers, p.groups, glob) <==> InClosure(i, identifiers, p.groups, glob)
    {
      OneLevelIsEnough(i, identifiers, p.groups, glob);
    }
  }
}

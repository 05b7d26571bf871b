/** What dispatch rules match, read off the strings of a rule, and where lists of exclusions do not exclude. */
module RuleMeaning {
  import opened Wrappers
  import opened Rules

  // ---------- one entry of a list ----------

  predicate Excludes(x: string) { |x| > 0 && x[0] == '-' }

  /** An entry without the sign of an exclusion. */
  function Bare(x: string): string { if Excludes(x) then x[1..] else x }

  /** An entry accepts a value: equal to it, or any other one than it excludes. */
  predicate Accepts(x: string, request: string) { if Excludes(x) then request != x[1..] else request == x }

  /** Exclusions count only in a list of nothing but exclusions. */
  predicate Counts(rules: seq<string>, x: string) {
    x in rules && (Excludes(x) ==> forall y :: y in rules ==> Excludes(y))
  }

  /** k splits a pattern into its beginning and its stars. */
  predicate StarsFrom(v: string, k: nat) {
    && k < |v| && (forall i :: k <= i < |v| ==> v[i] == '*') && (k > 0 ==> v[k - 1] != '*')
  }

  /** The pattern ends in stars, and the value begins as the pattern does before them. */
  ghost predicate Covers(v: string, request: string) { exists k: nat :: StarsFrom(v, k) && v[..k] <= request }

  /** What an entry accepts besides values. */
  ghost predicate AcceptsExtra(x: string, extra: Extra) {
    match extra
    case Nothing => false
    case UserPrefix(user) => Covers(Bare(x), user)
    case AnyResource(sub) =>
      && sub != "" && "*/" <= Bare(x)
      && if Excludes(x) then x[1..] != "*/" + sub else x == "*/" + sub
  }

  ghost predicate EntryAccepts(x: string, requests: seq<string>, extra: Extra) {
    (exists r :: r in requests && Accepts(x, r)) || AcceptsExtra(x, extra)
  }

  /** What a list accepts. */
  ghost predicate ListAccepts(rules: seq<string>, requests: seq<string>, extra: Extra) {
    "*" in rules || exists x :: Counts(rules, x) && EntryAccepts(x, requests, extra)
  }

  // ---------- matching means that ----------

  lemma {:induction false} TrimmedStars(v: string, k: nat)
    requires k <= |v| && (forall i :: k <= i < |v| ==> v[i] == '*') && (k > 0 ==> v[k - 1] != '*')
    ensures TrimStars(v) == v[..k]
  {
    if k < |v| {
      TrimmedStars(v[..|v| - 1], k);
      assert v[..|v| - 1][..k] == v[..k];
    } else {
      assert v[..k] == v;
    }
  }

  lemma {:induction false} StarsBegin(v: string) returns (k: nat)
    ensures k <= |v| && (forall i :: k <= i < |v| ==> v[i] == '*') && (k > 0 ==> v[k - 1] != '*')
  {
    k := |v|;
    if v != [] && v[|v| - 1] == '*' {
      k := StarsBegin(v[..|v| - 1]);
    }
  }

  lemma PrefixMatchIff(v: string, request: string)
    ensures PrefixMatch(v, request) <==> Covers(v, request)
  {
    var k := StarsBegin(v);
    TrimmedStars(v, k);
    if PrefixMatch(v, request) {
      assert StarsFrom(v, k);
    }
    if Covers(v, request) {
      var j: nat :| StarsFrom(v, j) && v[..j] <= request;
      TrimmedStars(v, j);
    }
  }

  /** The list that is matched holds exactly the entries that count. */
  lemma ChosenIff(rules: seq<string>, x: string)
    ensures var plain := Select(rules, false);
            x in (if plain != [] then plain else Select(rules, true)) <==> Counts(rules, x)
  {
    SelectSplits(rules, false);
    SelectSplits(rules, true);
    var plain := Select(rules, false);
    if plain == [] {
      assert forall y :: y in rules ==> Excludes(y);
    } else {
      assert plain[0] in rules && !Excludes(plain[0]);
    }
  }

  /** A matcher accepts what its entry accepts. */
  lemma MatcherIs(x: string, request: string, extra: Extra)
    ensures ToMatcher(x).Match(request) <==> Accepts(x, request)
    ensures extra.Match(ToMatcher(x)) <==> AcceptsExtra(x, extra)
  {
    match extra
    case Nothing =>
    case UserPrefix(user) => PrefixMatchIff(Bare(x), user);
    case AnyResource(sub) =>
  }

  /** One matcher of a list. */
  predicate MatcherAccepts(m: Matcher, requests: seq<string>, extra: Extra) {
    (exists j :: 0 <= j < |requests| && m.Match(requests[j])) || extra.Match(m)
  }

  lemma MatcherAcceptsIff(x: string, requests: seq<string>, extra: Extra)
    ensures MatcherAccepts(ToMatcher(x), requests, extra) <==> EntryAccepts(x, requests, extra)
  {
    MatcherIs(x, "", extra);
    forall j | 0 <= j < |requests| ensures ToMatcher(x).Match(requests[j]) <==> Accepts(x, requests[j]) {
      MatcherIs(x, requests[j], extra);
    }
  }

  lemma ChosenMatchers(rules: seq<string>, requests: seq<string>, extra: Extra)
    ensures (exists i :: 0 <= i < |Effective(rules)| && MatcherAccepts(Effective(rules)[i], requests, extra)) <==>
            (exists x :: Counts(rules, x) && EntryAccepts(x, requests, extra))
  {
    var plain := Select(rules, false);
    var chosen := if plain != [] then plain else Select(rules, true);
    assert Effective(rules) == ToMatchers(chosen);
    if i :| 0 <= i < |Effective(rules)| && MatcherAccepts(Effective(rules)[i], requests, extra) {
      ChosenIff(rules, chosen[i]);
      MatcherAcceptsIff(chosen[i], requests, extra);
      assert Counts(rules, chosen[i]) && EntryAccepts(chosen[i], requests, extra);
    }
    if x :| Counts(rules, x) && EntryAccepts(x, requests, extra) {
      ChosenIff(rules, x);
      var i :| 0 <= i < |chosen| && chosen[i] == x;
      MatcherAcceptsIff(x, requests, extra);
      assert MatcherAccepts(Effective(rules)[i], requests, extra);
    }
  }

  /** A list matches exactly what it accepts. */
  lemma SimpleMatchesIff(rules: seq<string>, requests: seq<string>, extra: Extra)
    ensures SimpleMatches(rules, requests, extra) <==> ListAccepts(rules, requests, extra)
  {
    ChosenMatchers(rules, requests, extra);
    assert SimpleMatches(rules, requests, extra) <==>
           MATCH_ALL in rules
           || exists i :: 0 <= i < |Effective(rules)| && MatcherAccepts(Effective(rules)[i], requests, extra);
  }

  // ---------- lists of values and lists of exclusions ----------

  /** A list of exclusions and nothing else. */
  predicate OnlyExclusions(rules: seq<string>) { rules != [] && forall x :: x in rules ==> Excludes(x) }

  /** Without a star and with some value, a list matches exactly its values; the exclusions are ignored. */
  lemma ValuesIff(rules: seq<string>, requests: seq<string>)
    requires "*" !in rules && exists x :: x in rules && !Excludes(x)
    ensures SimpleMatches(rules, requests, Nothing) <==> exists x :: x in rules && !Excludes(x) && x in requests
  {
    SimpleMatchesIff(rules, requests, Nothing);
    if x :| Counts(rules, x) && EntryAccepts(x, requests, Nothing) {
      assert x in rules && !Excludes(x) && x in requests;
    }
    if x :| x in rules && !Excludes(x) && x in requests {
      assert Counts(rules, x) && Accepts(x, x) && EntryAccepts(x, requests, Nothing);
    }
  }

  /** A list of exclusions matches when some value differs from some exclusion. */
  lemma ExclusionsIff(rules: seq<string>, requests: seq<string>)
    requires OnlyExclusions(rules)
    ensures SimpleMatches(rules, requests, Nothing) <==>
            exists x, r :: x in rules && r in requests && x != "-" + r
  {
    SimpleMatchesIff(rules, requests, Nothing);
    if x :| Counts(rules, x) && EntryAccepts(x, requests, Nothing) {
      var r :| r in requests && Accepts(x, r);
      assert x in rules && r in requests && x != "-" + r;
    }
    if x, r :| x in rules && r in requests && x != "-" + r {
      assert x == "-" + x[1..];
      assert Counts(rules, x) && Accepts(x, r) && EntryAccepts(x, requests, Nothing);
    }
  }

  lemma NothingMatchesNothing(requests: seq<string>)
    ensures !SimpleMatches([], requests, Nothing)
  {
    SimpleMatchesIff([], requests, Nothing);
  }

  // ---------- what the documentation promises of exclusions ----------

  /** A list of exclusions keeps its promise on a value: it matches unless the value is excluded. */
  predicate ExcludesExactly(rules: seq<string>, request: string) {
    SimpleMatches(rules, [request], Nothing) <==> "-" + request !in rules
  }

  /** On one value the promise fails exactly when it is excluded next to another one. */
  lemma PromiseFailsIff(rules: seq<string>, request: string)
    requires OnlyExclusions(rules)
    ensures !ExcludesExactly(rules, request) <==>
            "-" + request in rules && exists x :: x in rules && x != "-" + request
  {
    ExclusionsIff(rules, [request]);
    if "-" + request !in rules {
      assert rules[0] in rules && rules[0] != "-" + request && request in [request];
    } else if x :| x in rules && x != "-" + request {
      assert request in [request];
    }
  }

  /** A list of exclusions keeps its promise on every value if and only if it names a single value. */
  lemma PromiseHoldsIff(rules: seq<string>)
    requires OnlyExclusions(rules)
    ensures (forall request :: ExcludesExactly(rules, request)) <==>
            (forall x, y :: x in rules && y in rules ==> x == y)
  {
    if forall request :: ExcludesExactly(rules, request) {
      forall x, y | x in rules && y in rules ensures x == y {
        PromiseFailsIff(rules, x[1..]);
        assert x == "-" + x[1..] && ExcludesExactly(rules, x[1..]);
      }
    }
    if forall x, y :: x in rules && y in rules ==> x == y {
      forall request ensures ExcludesExactly(rules, request) {
        PromiseFailsIff(rules, request);
      }
    }
  }

  /** Otherwise it excludes nothing at all. */
  lemma DifferentExclusionsMatchAll(rules: seq<string>, requests: seq<string>, x: string, y: string)
    requires OnlyExclusions(rules) && x in rules && y in rules && x != y && requests != []
    ensures SimpleMatches(rules, requests, Nothing)
  {
    ExclusionsIff(rules, requests);
    var r := requests[0];
    assert r in requests && (x != "-" + r || y != "-" + r);
  }

  // ---------- resources ----------

  /** An entry for a subresource of every resource. */
  predicate OfEveryResource(v: string, sub: string) { sub != "" && v == "*/" + sub }

  /** With some value, a list matches a resource it names and a subresource it names for every resource. */
  lemma ResourcesIff(resources: seq<string>, combined: string, sub: string)
    requires "*" !in resources && exists x :: x in resources && !Excludes(x)
    ensures ResourceMatches(resources, combined, sub) <==>
            exists x :: x in resources && !Excludes(x) && (x == combined || OfEveryResource(x, sub))
  {
    SimpleMatchesIff(resources, [combined], AnyResource(sub));
    if x :| Counts(resources, x) && EntryAccepts(x, [combined], AnyResource(sub)) {
      assert x in resources && !Excludes(x) && (x == combined || OfEveryResource(x, sub));
    }
    if x :| x in resources && !Excludes(x) && (x == combined || OfEveryResource(x, sub)) {
      assert combined in [combined];
      assert Counts(resources, x) && EntryAccepts(x, [combined], AnyResource(sub));
    }
  }

  /** A list of exclusions rejects a resource only when every entry spells out that very resource. */
  lemma ResourceExclusionsIff(resources: seq<string>, combined: string, sub: string)
    requires OnlyExclusions(resources)
    ensures ResourceMatches(resources, combined, sub) <==>
            exists x :: x in resources &&
              (x != "-" + combined || (sub != "" && "-*/" <= x && x != "-*/" + sub))
  {
    SimpleMatchesIff(resources, [combined], AnyResource(sub));
    if x :| Counts(resources, x) && EntryAccepts(x, [combined], AnyResource(sub)) {
      ExclusionOfResource(x, combined, sub);
    }
    if x :| x in resources && (x != "-" + combined || (sub != "" && "-*/" <= x && x != "-*/" + sub)) {
      ExclusionOfResource(x, combined, sub);
      assert Counts(resources, x) && EntryAccepts(x, [combined], AnyResource(sub));
    }
  }

  lemma ExclusionOfResource(x: string, combined: string, sub: string)
    requires Excludes(x)
    ensures EntryAccepts(x, [combined], AnyResource(sub)) <==>
            x != "-" + combined || (sub != "" && "-*/" <= x && x != "-*/" + sub)
  {
    assert combined in [combined];
    assert x == "-" + x[1..];
    assert "-*/" + sub == "-" + ("*/" + sub);
    assert "*/" <= x[1..] <==> "-*/" <= x;
  }

  /** So excluding a subresource of every resource excludes it of none, but for one named star. */
  lemma SubresourceExclusionIff(resource: string, sub: string, excluded: string)
    requires '/' !in resource
    ensures ResourceMatches(["-*/" + excluded], resource + "/" + sub, sub) <==> !(resource == "*" && sub == excluded)
  {
    var x, combined := "-*/" + excluded, resource + "/" + sub;
    ResourceExclusionsIff([x], combined, sub);
    assert x in [x] && x[1] == '*' && x[2] == '/';
    if resource == "*" {
      assert "-" + combined == "-*/" + sub;
      assert ("-*/" + sub)[3..] == sub && x[3..] == excluded;
    } else if resource != "" && resource[0] == '*' {
      assert ("-" + combined)[2] == resource[1];
    } else {
      assert ("-" + combined)[1] == combined[0] != '*';
    }
  }

  /** Two different exclusions match every resource. */
  lemma DifferentExclusionsMatchResources(resources: seq<string>, combined: string, sub: string, x: string, y: string)
    requires OnlyExclusions(resources) && x in resources && y in resources && x != y
    ensures ResourceMatches(resources, combined, sub)
  {
    ResourceExclusionsIff(resources, combined, sub);
    assert x != "-" + combined || y != "-" + combined;
  }

  /** The documented example, everything but pods and deployments, matches pods. */
  lemma TwoExclusionsMatchPods()
    ensures ResourceMatches(["-pods", "-deployments"], "pods", "")
    ensures !ExcludesExactly(["-pods", "-deployments"], "pods")
  {
    var rules := ["-pods", "-deployments"];
    var x, y := rules[0], rules[1];
    assert x in rules && y in rules && |x| != |y|;
    DifferentExclusionsMatchResources(rules, "pods", "", x, y);
    PromiseFailsIff(rules, "pods");
    assert x == "-" + "pods";
  }

  // ---------- users, accounts and URLs ----------

  /** With some value, a list matches the users it names and those a pattern of it covers. */
  lemma UsersIff(users: seq<string>, user: string)
    requires "*" !in users && exists x :: x in users && !Excludes(x)
    ensures SimpleMatches(users, [user], UserPrefix(user)) <==>
            exists x :: x in users && !Excludes(x) && (x == user || Covers(x, user))
  {
    SimpleMatchesIff(users, [user], UserPrefix(user));
    if x :| Counts(users, x) && EntryAccepts(x, [user], UserPrefix(user)) {
      assert x in users && !Excludes(x) && (x == user || Covers(x, user));
    }
    if x :| x in users && !Excludes(x) && (x == user || Covers(x, user)) {
      assert user in [user];
      assert Counts(users, x) && EntryAccepts(x, [user], UserPrefix(user));
    }
  }

  /** A list of exclusions rejects only a user that every entry spells out, and none if the name ends in a star. */
  lemma UserExclusionsIff(users: seq<string>, user: string)
    requires OnlyExclusions(users)
    ensures SimpleMatches(users, [user], UserPrefix(user)) <==>
            (exists x :: x in users && x != "-" + user) || (user != [] && user[|user| - 1] == '*')
  {
    SimpleMatchesIff(users, [user], UserPrefix(user));
    if x :| Counts(users, x) && EntryAccepts(x, [user], UserPrefix(user)) {
      ExclusionOfUser(x, user);
    }
    if x :| x in users && x != "-" + user {
      ExclusionOfUser(x, user);
      assert Counts(users, x) && EntryAccepts(x, [user], UserPrefix(user));
    }
    if user != [] && user[|user| - 1] == '*' {
      ExclusionOfUser(users[0], user);
      assert Counts(users, users[0]) && EntryAccepts(users[0], [user], UserPrefix(user));
    }
  }

  lemma ExclusionOfUser(x: string, user: string)
    requires Excludes(x)
    ensures EntryAccepts(x, [user], UserPrefix(user)) <==> x != "-" + user || (user != [] && user[|user| - 1] == '*')
  {
    assert user in [user];
    assert x == "-" + x[1..];
    PrefixMatchIff(user, user);
    if x == "-" + user {
      assert x[1..] == user;
      var k := StarsBegin(user);
      TrimmedStars(user, k);
    }
  }

  /** The user name of a service account, for an account with both parts. */
  predicate IsAccount(accounts: seq<ServiceAccount>, user: string) {
    exists a :: a in accounts && a.namespace != "" && a.name != "" &&
      user == "system:serviceaccount:" + a.namespace + ":" + a.name
  }

  /** What the user fields of a rule accept. */
  ghost predicate UserAccepted(users: seq<string>, accounts: seq<ServiceAccount>, user: string) {
    || (users == [] && accounts == [])
    || ListAccepts(users, [user], UserPrefix(user))
    || IsAccount(accounts, user)
  }

  lemma UserMatchesIff(users: seq<string>, accounts: seq<ServiceAccount>, user: string)
    ensures UserMatches(users, accounts, user) <==> UserAccepted(users, accounts, user)
  {
    SimpleMatchesIff(users, [user], UserPrefix(user));
    if IsAccount(accounts, user) {
      var a :| a in accounts && a.namespace != "" && a.name != "" &&
        user == "system:serviceaccount:" + a.namespace + ":" + a.name;
      var i :| 0 <= i < |accounts| && accounts[i] == a;
      assert AccountUser(accounts[i]) == user;
    }
  }

  /** What a list of paths accepts: a value or a pattern of it; exclusions accept nothing. */
  ghost predicate PathAccepted(urls: seq<string>, path: string) {
    "*" in urls || exists x :: x in urls && !Excludes(x) && (x == path || Covers(x, path))
  }

  lemma URLMatchesIff(urls: seq<string>, path: string)
    ensures URLMatches(urls, path) <==> PathAccepted(urls, path)
  {
    var plain := Select(urls, false);
    var chosen := if plain != [] then plain else Select(urls, true);
    assert Effective(urls) == ToMatchers(chosen);
    if i :| 0 <= i < |Effective(urls)| && !Effective(urls)[i].reverse
            && (Effective(urls)[i].Match(path) || PrefixMatch(Effective(urls)[i].value, path)) {
      ChosenIff(urls, chosen[i]);
      PrefixMatchIff(chosen[i], path);
      assert chosen[i] in urls && !Excludes(chosen[i]) && (chosen[i] == path || Covers(chosen[i], path));
    }
    if x :| x in urls && !Excludes(x) && (x == path || Covers(x, path)) {
      ChosenIff(urls, x);
      PrefixMatchIff(x, path);
      var i :| 0 <= i < |chosen| && chosen[i] == x;
      assert !Effective(urls)[i].reverse
             && (Effective(urls)[i].Match(path) || PrefixMatch(Effective(urls)[i].value, path));
    }
  }

  // ---------- rules and policies ----------

  function Combined(a: Attributes): string {
    if a.subresource == "" then a.resource else a.resource + "/" + a.subresource
  }

  /** What a rule accepts, over its strings. */
  ghost predicate RuleAccepts(r: Rule, a: Attributes) {
    && ListAccepts(r.verbs, [a.verb], Nothing)
    && UserAccepted(r.users, r.serviceAccounts, a.user)
    && (r.userGroups != [] ==> ListAccepts(r.userGroups, a.groups, Nothing))
    && (a.isResource ==>
          && ListAccepts(r.apiGroups, [a.apiGroup], Nothing)
          && ListAccepts(r.resources, [Combined(a)], AnyResource(a.subresource))
          && (r.resourceNames != [] ==> ListAccepts(r.resourceNames, [a.name], Nothing)))
    && (!a.isResource ==> PathAccepted(r.nonResourceURLs, a.path))
  }

  lemma RuleMatchesIff(a: Attributes, r: Rule)
    ensures RuleMatches(a, r) <==> RuleAccepts(r, a)
  {
    SimpleMatchesIff(r.verbs, [a.verb], Nothing);
    UserMatchesIff(r.users, r.serviceAccounts, a.user);
    SimpleMatchesIff(r.userGroups, a.groups, Nothing);
    SimpleMatchesIff(r.apiGroups, [a.apiGroup], Nothing);
    SimpleMatchesIff(r.resources, [Combined(a)], AnyResource(a.subresource));
    SimpleMatchesIff(r.resourceNames, [a.name], Nothing);
    URLMatchesIff(r.nonResourceURLs, a.path);
  }

  ghost predicate PolicyAccepts(p: Policy, a: Attributes) {
    exists j :: 0 <= j < |p.rules| && RuleAccepts(p.rules[j], a)
  }

  lemma PolicyMatchesIff(a: Attributes, p: Policy)
    ensures PolicyMatches(a, p.rules) <==> PolicyAccepts(p, a)
  {
    forall j | 0 <= j < |p.rules| ensures RuleMatches(a, p.rules[j]) <==> RuleAccepts(p.rules[j], a) {
      RuleMatchesIff(a, p.rules[j]);
    }
  }

  /** A request goes to policy i exactly when it is the first one that accepts it. */
  lemma DispatchedIff(a: Attributes, policies: seq<Policy>, i: nat)
    requires i < |policies|
    ensures MatchPolicies(a, policies) == Some(i) <==>
            PolicyAccepts(policies[i], a) && forall k :: 0 <= k < i ==> !PolicyAccepts(policies[k], a)
  {
    forall k | 0 <= k < |policies| ensures Matching(a, policies)[k] <==> PolicyAccepts(policies[k], a) {
      PolicyMatchesIff(a, policies[k]);
    }
  }

  /** And to none exactly when none accepts it. */
  lemma UndispatchedIff(a: Attributes, policies: seq<Policy>)
    ensures MatchPolicies(a, policies).None? <==>
            forall k :: 0 <= k < |policies| ==> !PolicyAccepts(policies[k], a)
  {
    forall k | 0 <= k < |policies| ensures Matching(a, policies)[k] <==> PolicyAccepts(policies[k], a) {
      PolicyMatchesIff(a, policies[k]);
    }
  }

  /** After admission a request still goes to the first policy whose rules, as they were written, accept it. */
  lemma AdmittedDispatchIff(a: Attributes, policies: seq<Policy>, admitted: seq<Policy>, i: nat)
    requires AllAdmittedAs(policies, admitted) && i < |policies|
    ensures MatchPolicies(a, admitted) == Some(i) <==>
            PolicyAccepts(policies[i], a) && forall k :: 0 <= k < i ==> !PolicyAccepts(policies[k], a)
  {
    AdmissionPreservesDispatch(a, policies, admitted);
    DispatchedIff(a, policies, i);
  }
}

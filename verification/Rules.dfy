/** Dispatch rules: how requests are matched, and how admission rewrites rules before they are stored. */
module Rules {
  import opened Wrappers

  const MATCH_ALL := "*"

  predicate IsReversed(rule: string) { |rule| > 0 && rule[0] == '-' }

  /** The entries of a list that are, or are not, exclusions, in order. */
  function Select(rules: seq<string>, reversed: bool): seq<string> {
    if rules == [] then [] else
      var init, last := Select(rules[..|rules| - 1], reversed), rules[|rules| - 1];
      if IsReversed(last) == reversed then init + [last] else init
  }

  // ---------- matching ----------

  datatype Matcher = Matcher(reverse: bool, value: string) {
    predicate Match(request: string) { if reverse then value != request else value == request }
  }

  function ToMatcher(rule: string): Matcher {
    if IsReversed(rule) then Matcher(true, rule[1..]) else Matcher(false, rule)
  }

  function ToMatchers(rules: seq<string>): (m: seq<Matcher>)
    ensures |m| == |rules|
  {
    seq(|rules|, i requires 0 <= i < |rules| => ToMatcher(rules[i]))
  }

  /** The matchers that count: exclusions only if there is nothing else. */
  function Effective(rules: seq<string>): seq<Matcher> {
    if Select(rules, false) != [] then ToMatchers(Select(rules, false)) else ToMatchers(Select(rules, true))
  }

  method FilterMatchers(rules: seq<string>) returns (filtered: seq<Matcher>, matchAll: bool)
    ensures matchAll <==> MATCH_ALL in rules
    ensures !matchAll ==> filtered == Effective(rules)
  {
    filtered, matchAll := [], false;
    var reversed := [];
    for i := 0 to |rules|
      invariant MATCH_ALL !in rules[..i]
      invariant filtered == ToMatchers(Select(rules[..i], false)) && reversed == ToMatchers(Select(rules[..i], true))
    {
      if rules[i] == MATCH_ALL {
        return filtered, true;
      }
      assert rules[..i + 1][..i] == rules[..i];
      if IsReversed(rules[i]) {
        reversed := reversed + [Matcher(true, rules[i][1..])];
      } else {
        filtered := filtered + [Matcher(false, rules[i])];
      }
    }
    assert rules[..|rules|] == rules;
    if filtered == [] {
      filtered := reversed;
    }
  }

  predicate HasPrefix(s: string, prefix: string) { prefix <= s }

  function TrimStars(s: string): string {
    if s != [] && s[|s| - 1] == '*' then TrimStars(s[..|s| - 1]) else s
  }

  /** A value that ends in stars stands for everything with the part before them as a prefix. */
  predicate PrefixMatch(value: string, request: string) {
    |value| > 0 && value[|value| - 1] == '*' && HasPrefix(request, TrimStars(value))
  }

  /** A rule of the form star-slash-sub stands for a subresource of every resource. */
  predicate SubresourceMatch(m: Matcher, sub: string) {
    sub != "" && HasPrefix(m.value, "*/") && (m.reverse <==> m.value != "*/" + sub)
  }

  /** What a field accepts besides equal values. */
  datatype Extra = Nothing | UserPrefix(user: string) | AnyResource(subresource: string) {
    predicate Match(m: Matcher) {
      match this
      case Nothing => false
      case UserPrefix(user) => PrefixMatch(m.value, user)
      case AnyResource(sub) => SubresourceMatch(m, sub)
    }
  }

  predicate SimpleMatches(rules: seq<string>, requests: seq<string>, extra: Extra) {
    MATCH_ALL in rules
    || exists i :: 0 <= i < |Effective(rules)| &&
         (var m := Effective(rules)[i]; (exists j :: 0 <= j < |requests| && m.Match(requests[j])) || extra.Match(m))
  }

  predicate ResourceMatches(resources: seq<string>, combined: string, sub: string) {
    SimpleMatches(resources, [combined], AnyResource(sub))
  }

  predicate ResourceNameMatches(names: seq<string>, request: string) {
    names == [] || SimpleMatches(names, [request], Nothing)
  }

  datatype ServiceAccount = ServiceAccount(namespace: string, name: string)

  function AccountUser(sa: ServiceAccount): string { "system:serviceaccount:" + sa.namespace + ":" + sa.name }

  predicate UserMatches(users: seq<string>, accounts: seq<ServiceAccount>, user: string) {
    || (users == [] && accounts == [])
    || SimpleMatches(users, [user], UserPrefix(user))
    || exists i :: 0 <= i < |accounts| &&
         accounts[i].namespace != "" && accounts[i].name != "" && AccountUser(accounts[i]) == user
  }

  predicate GroupMatches(groups: seq<string>, requestGroups: seq<string>) {
    groups == [] || SimpleMatches(groups, requestGroups, Nothing)
  }

  predicate URLMatches(urls: seq<string>, path: string) {
    MATCH_ALL in urls
    || exists i :: 0 <= i < |Effective(urls)| &&
         (var m := Effective(urls)[i]; !m.reverse && (m.Match(path) || PrefixMatch(m.value, path)))
  }

  datatype Rule = Rule(verbs: seq<string>, apiGroups: seq<string>, resources: seq<string>, resourceNames: seq<string>,
                       users: seq<string>, serviceAccounts: seq<ServiceAccount>, userGroups: seq<string>,
                       nonResourceURLs: seq<string>)

  datatype Attributes = Attributes(verb: string, user: string, groups: seq<string>, isResource: bool,
                                   apiGroup: string, resource: string, subresource: string, name: string, path: string)

  predicate RuleMatches(a: Attributes, r: Rule) {
    && SimpleMatches(r.verbs, [a.verb], Nothing)
    && UserMatches(r.users, r.serviceAccounts, a.user)
    && GroupMatches(r.userGroups, a.groups)
    && if a.isResource then
         var combined := if a.subresource != "" then a.resource + "/" + a.subresource else a.resource;
         && SimpleMatches(r.apiGroups, [a.apiGroup], Nothing)
         && ResourceMatches(r.resources, combined, a.subresource)
         && ResourceNameMatches(r.resourceNames, a.name)
       else URLMatches(r.nonResourceURLs, a.path)
  }

  predicate PolicyMatches(a: Attributes, rules: seq<Rule>) {
    exists i :: 0 <= i < |rules| && RuleMatches(a, rules[i])
  }

  /** A dispatch policy; the strategy picks an endpoint once a rule has matched. */
  datatype Policy = Policy(strategy: string, rules: seq<Rule>)

  function FirstTrue(bs: seq<bool>): (r: Option<nat>)
    ensures r.Some? ==> r.value < |bs| && bs[r.value] && forall i :: 0 <= i < r.value ==> !bs[i]
    ensures r.None? ==> forall i :: 0 <= i < |bs| ==> !bs[i]
  {
    if bs == [] then None else
      var init := FirstTrue(bs[..|bs| - 1]);
      if init.Some? then init else if bs[|bs| - 1] then Some(|bs| - 1) else None
  }

  /** Which policies match. */
  function Matching(a: Attributes, policies: seq<Policy>): seq<bool> {
    seq(|policies|, i requires 0 <= i < |policies| => PolicyMatches(a, policies[i].rules))
  }

  /** The first policy with a matching rule. */
  function MatchPolicies(a: Attributes, policies: seq<Policy>): Option<nat> {
    FirstTrue(Matching(a, policies))
  }

  // ---------- normalisation at admission ----------

  /** A list that matches everything becomes a single star; exclusions next to other entries are dropped. */
  function Normalized(rules: seq<string>): seq<string> {
    if MATCH_ALL in rules then [MATCH_ALL]
    else if Select(rules, false) != [] then Select(rules, false)
    else Select(rules, true)
  }

  method NormalizeList(rules: seq<string>) returns (filtered: seq<string>)
    ensures filtered == Normalized(rules)
  {
    filtered := [];
    var reversed := [];
    for i := 0 to |rules|
      invariant MATCH_ALL !in rules[..i]
      invariant filtered == Select(rules[..i], false) && reversed == Select(rules[..i], true)
    {
      if rules[i] == MATCH_ALL {
        return [MATCH_ALL];
      }
      assert rules[..i + 1][..i] == rules[..i];
      if IsReversed(rules[i]) {
        reversed := reversed + [rules[i]];
      } else {
        filtered := filtered + [rules[i]];
      }
    }
    assert rules[..|rules|] == rules;
    if filtered == [] {
      filtered := reversed;
    }
  }

  function Normalize(r: Rule): Rule {
    Rule(Normalized(r.verbs), Normalized(r.apiGroups), Normalized(r.resources), Normalized(r.resourceNames),
         Normalized(r.users), r.serviceAccounts, Normalized(r.userGroups), Normalized(r.nonResourceURLs))
  }

  const ROUND_ROBIN := "RoundRobin"

  /** What admission makes of a policy: a strategy it lacks is filled in, and every rule takes its normal form. */
  ghost predicate AdmittedAs(p: Policy, admitted: Policy) {
    && admitted.strategy == (if p.strategy == "" then ROUND_ROBIN else p.strategy)
    && |admitted.rules| == |p.rules|
    && forall j :: 0 <= j < |p.rules| ==> admitted.rules[j] == Normalize(p.rules[j])
  }

  ghost predicate AllAdmittedAs(policies: seq<Policy>, admitted: seq<Policy>) {
    |admitted| == |policies| && forall i :: 0 <= i < |policies| ==> AdmittedAs(policies[i], admitted[i])
  }

  class UpstreamCluster {
    var policies: seq<Policy>

    constructor (policies: seq<Policy>)
      ensures this.policies == policies
    {
      this.policies := policies;
    }

    /** Fills in the round-robin strategy where a policy names none. */
    method SetDefaults()
      modifies this
      ensures |policies| == |old(policies)|
      ensures forall i :: 0 <= i < |policies| ==>
                && policies[i].rules == old(policies)[i].rules
                && (old(policies)[i].strategy != "" ==> policies[i] == old(policies)[i])
                && (old(policies)[i].strategy == "" ==> policies[i].strategy == ROUND_ROBIN)
    {
      for i := 0 to |policies|
        invariant |policies| == |old(policies)|
        invariant forall p :: 0 <= p < i ==>
                    && policies[p].rules == old(policies)[p].rules
                    && (old(policies)[p].strategy != "" ==> policies[p] == old(policies)[p])
                    && (old(policies)[p].strategy == "" ==> policies[p].strategy == ROUND_ROBIN)
        invariant forall p :: i <= p < |policies| ==> policies[p] == old(policies)[p]
      {
        if |policies[i].strategy| == 0 {
          policies := policies[i := policies[i].(strategy := ROUND_ROBIN)];
        }
      }
    }

    /** Sets the defaults and overwrites every rule of every policy by its normal form. */
    method Admit()
      modifies this
      ensures AllAdmittedAs(old(policies), policies)
    {
      SetDefaults();
      ghost var defaulted := policies;
      for i := 0 to |policies|
        invariant |policies| == |defaulted|
        invariant forall p :: 0 <= p < i ==> AdmittedAs(old(policies)[p], policies[p])
        invariant forall p :: i <= p < |policies| ==> policies[p] == defaulted[p]
      {
        var rules := NormalizePolicy(policies[i].rules);
        policies := policies[i := policies[i].(rules := rules)];
      }
    }

    static method NormalizePolicy(rules: seq<Rule>) returns (r: seq<Rule>)
      ensures |r| == |rules| && forall j :: 0 <= j < |r| ==> r[j] == Normalize(rules[j])
    {
      r := rules;
      for j := 0 to |rules|
        invariant |r| == |rules|
        invariant forall k :: 0 <= k < j ==> r[k] == Normalize(rules[k])
        invariant forall k :: j <= k < |r| ==> r[k] == rules[k]
      {
        var verbs := NormalizeList(r[j].verbs);
        var apiGroups := NormalizeList(r[j].apiGroups);
        var resources := NormalizeList(r[j].resources);
        var resourceNames := NormalizeList(r[j].resourceNames);
        var users := NormalizeList(r[j].users);
        var userGroups := NormalizeList(r[j].userGroups);
        var urls := NormalizeList(r[j].nonResourceURLs);
        r := r[j := Rule(verbs, apiGroups, resources, resourceNames, users, r[j].serviceAccounts, userGroups, urls)];
      }
    }
  }

  // ---------- normalisation does not change routing ----------

  lemma {:induction false} SelectSplits(rules: seq<string>, reversed: bool)
    ensures forall x :: x in Select(rules, reversed) <==> x in rules && IsReversed(x) == reversed
  {
    if rules != [] {
      var k := |rules| - 1;
      SelectSplits(rules[..k], reversed);
      assert rules == rules[..k] + [rules[k]];
    }
  }

  lemma {:induction false} SelectAgain(rules: seq<string>, reversed: bool)
    requires forall i :: 0 <= i < |rules| ==> IsReversed(rules[i]) == reversed
    ensures Select(rules, reversed) == rules && Select(rules, !reversed) == []
  {
    if rules != [] {
      var k := |rules| - 1;
      SelectAgain(rules[..k], reversed);
      assert rules == rules[..k] + [rules[k]];
    }
  }

  /** Nothing a matcher looks at changes, and an empty list stays the only empty list. */
  lemma NormalizedIsEquivalent(rules: seq<string>)
    ensures MATCH_ALL in Normalized(rules) <==> MATCH_ALL in rules
    ensures MATCH_ALL !in rules ==> Effective(Normalized(rules)) == Effective(rules)
    ensures Normalized(rules) == [] <==> rules == []
    ensures Normalized(Normalized(rules)) == Normalized(rules)
  {
    SelectSplits(rules, false);
    SelectSplits(rules, true);
    if MATCH_ALL !in rules {
      var keepsPositive := Select(rules, false) != [];
      assert forall i :: 0 <= i < |Normalized(rules)| ==> Normalized(rules)[i] in Normalized(rules);
      SelectAgain(Normalized(rules), !keepsPositive);
      if rules != [] {
        assert rules[0] in Select(rules, IsReversed(rules[0]));
      }
    }
  }

  lemma SimpleMatchesSame(rules: seq<string>, requests: seq<string>, extra: Extra)
    ensures SimpleMatches(Normalized(rules), requests, extra) == SimpleMatches(rules, requests, extra)
  {
    NormalizedIsEquivalent(rules);
  }

  lemma URLMatchesSame(urls: seq<string>, path: string)
    ensures URLMatches(Normalized(urls), path) == URLMatches(urls, path)
  {
    NormalizedIsEquivalent(urls);
  }

  lemma UserMatchesSame(users: seq<string>, accounts: seq<ServiceAccount>, user: string)
    ensures UserMatches(Normalized(users), accounts, user) == UserMatches(users, accounts, user)
  {
    NormalizedIsEquivalent(users);
    SimpleMatchesSame(users, [user], UserPrefix(user));
  }

  lemma ResourceMatchesSame(resources: seq<string>, combined: string, sub: string)
    ensures ResourceMatches(Normalized(resources), combined, sub) == ResourceMatches(resources, combined, sub)
  {
    SimpleMatchesSame(resources, [combined], AnyResource(sub));
  }

  lemma ResourceNameMatchesSame(names: seq<string>, request: string)
    ensures ResourceNameMatches(Normalized(names), request) == ResourceNameMatches(names, request)
  {
    NormalizedIsEquivalent(names);
    SimpleMatchesSame(names, [request], Nothing);
  }

  lemma GroupMatchesSame(groups: seq<string>, requestGroups: seq<string>)
    ensures GroupMatches(Normalized(groups), requestGroups) == GroupMatches(groups, requestGroups)
  {
    NormalizedIsEquivalent(groups);
    SimpleMatchesSame(groups, requestGroups, Nothing);
  }

  /** A rule matches exactly the same requests before and after admission. */
  lemma NormalizationPreservesRouting(a: Attributes, r: Rule)
    ensures RuleMatches(a, Normalize(r)) == RuleMatches(a, r)
  {
    SimpleMatchesSame(r.verbs, [a.verb], Nothing);
    UserMatchesSame(r.users, r.serviceAccounts, a.user);
    GroupMatchesSame(r.userGroups, a.groups);
    SimpleMatchesSame(r.apiGroups, [a.apiGroup], Nothing);
    var combined := if a.subresource != "" then a.resource + "/" + a.subresource else a.resource;
    ResourceMatchesSame(r.resources, combined, a.subresource);
    ResourceNameMatchesSame(r.resourceNames, a.name);
    URLMatchesSame(r.nonResourceURLs, a.path);
  }

  /** Admitting a rule again changes nothing. */
  lemma NormalizationIsIdempotent(r: Rule)
    ensures Normalize(Normalize(r)) == Normalize(r)
  {
    NormalizedIsEquivalent(r.verbs);
    NormalizedIsEquivalent(r.apiGroups);
    NormalizedIsEquivalent(r.resources);
    NormalizedIsEquivalent(r.resourceNames);
    NormalizedIsEquivalent(r.users);
    NormalizedIsEquivalent(r.userGroups);
    NormalizedIsEquivalent(r.nonResourceURLs);
  }

  lemma PolicyMatchesSame(a: Attributes, rules: seq<Rule>, admitted: seq<Rule>)
    requires |admitted| == |rules| && forall j :: 0 <= j < |rules| ==> admitted[j] == Normalize(rules[j])
    ensures PolicyMatches(a, admitted) == PolicyMatches(a, rules)
  {
    forall j | 0 <= j < |rules| ensures RuleMatches(a, admitted[j]) == RuleMatches(a, rules[j]) {
      NormalizationPreservesRouting(a, rules[j]);
    }
  }

  /** Every request is dispatched to the same policy before and after admission. */
  lemma AdmissionPreservesDispatch(a: Attributes, policies: seq<Policy>, admitted: seq<Policy>)
    requires AllAdmittedAs(policies, admitted)
    ensures MatchPolicies(a, admitted) == MatchPolicies(a, policies)
  {
    forall i | 0 <= i < |policies| ensures PolicyMatches(a, admitted[i].rules) == PolicyMatches(a, policies[i].rules) {
      PolicyMatchesSame(a, policies[i].rules, admitted[i].rules);
    }
    assert Matching(a, admitted) == Matching(a, policies);
  }

  /** Admission leaves no policy without a strategy and does not touch one that is named, nor service accounts. */
  lemma AdmissionFillsStrategy(p: Policy, admitted: Policy)
    requires AdmittedAs(p, admitted)
    ensures admitted.strategy != "" && (p.strategy != "" ==> admitted.strategy == p.strategy)
    ensures forall j :: 0 <= j < |p.rules| ==> admitted.rules[j].serviceAccounts == p.rules[j].serviceAccounts
  {
    assert |ROUND_ROBIN| == 10;
  }

  /** Admitting a cluster again changes nothing. */
  lemma AdmissionIsIdempotent(policies: seq<Policy>, admitted: seq<Policy>, again: seq<Policy>)
    requires AllAdmittedAs(policies, admitted) && AllAdmittedAs(admitted, again)
    ensures again == admitted
  {
    forall i | 0 <= i < |admitted| ensures again[i] == admitted[i] {
      forall j | 0 <= j < |admitted[i].rules| ensures again[i].rules[j] == admitted[i].rules[j] {
        NormalizationIsIdempotent(policies[i].rules[j]);
      }
      assert again[i].rules == admitted[i].rules;
    }
  }
}

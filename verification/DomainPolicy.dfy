/** The org's domain rules: an index by domain, and the lookup that walks parent domains. */
module DomainPolicy {
  import opened Seqs
  import opened Text

  datatype Rule = Rule(domain: string, action: string, reason: string, category: string,
                       orgId: Option<string>, riskScore: Option<int>)

  /** The domain a rule is filed under. `lower` is `to_lowercase`. */
  function Key(r: Rule, lower: string -> string): string { lower(Trim(r.domain)) }

  /** White space around the domain of a rule does not count, nor does case. */
  lemma KeyIs(r: Rule, lower: string -> string) returns (mid: string)
    ensures Stripped(r.domain, mid, IsWhitespace) && Key(r, lower) == lower(mid)
  {
    mid := Trim(r.domain);
    TrimStrips(r.domain);
  }

  /** The rules of one domain, in the order of the list. */
  function RulesFor(rules: seq<Rule>, domain: string, lower: string -> string): seq<Rule> {
    if rules == [] then []
    else
      var rest := RulesFor(rules[..|rules| - 1], domain, lower);
      var last := rules[|rules| - 1];
      if Key(last, lower) == domain then rest + [last] else rest
  }

  /** The index holds every domain that is named, with its rules in order; no domain is empty. */
  ghost predicate Indexes(index: map<string, seq<Rule>>, rules: seq<Rule>, lower: string -> string) {
    forall d :: && (d in index <==> d != "" && RulesFor(rules, d, lower) != [])
                && (d in index ==> index[d] == RulesFor(rules, d, lower))
  }

  /** The part of `refresh` that builds the index. */
  method BuildIndex(rules: seq<Rule>, lower: string -> string) returns (index: map<string, seq<Rule>>)
    ensures Indexes(index, rules, lower)
  {
    index := map[];
    for i := 0 to |rules|
      invariant Indexes(index, rules[..i], lower)
    {
      assert rules[..i + 1][..i] == rules[..i];
      var d := Key(rules[i], lower);
      if d != "" {
        index := index[d := (if d in index then index[d] else []) + [rules[i]]];
      }
    }
    assert rules[..|rules|] == rules;
  }

  function FirstWith(rules: seq<Rule>, org: bool): Option<Rule> {
    if rules == [] then None
    else if rules[0].orgId.Some? == org then Some(rules[0])
    else FirstWith(rules[1..], org)
  }

  /** An org-specific rule goes before a global one, whatever their order. */
  function Pick(rules: seq<Rule>): Option<Rule> {
    var own := FirstWith(rules, true);
    if own.Some? then own else FirstWith(rules, false)
  }

  function MatchDomain(index: map<string, seq<Rule>>, domain: string): Option<Rule> {
    if domain in index then Pick(index[domain]) else None
  }

  lemma {:induction false} FirstWithIsFirst(rules: seq<Rule>, org: bool)
    ensures var r := FirstWith(rules, org);
      && (r.None? <==> forall i | 0 <= i < |rules| :: rules[i].orgId.Some? != org)
      && (r.Some? ==> r.value in rules && r.value.orgId.Some? == org)
  {
    if rules != [] {
      FirstWithIsFirst(rules[1..], org);
      assert rules == [rules[0]] + rules[1..];
    }
  }

  lemma PickFinds(rules: seq<Rule>)
    ensures Pick(rules).None? <==> rules == []
    ensures Pick(rules).Some? ==> Pick(rules).value in rules
    ensures (exists r | r in rules :: r.orgId.Some?) ==> Pick(rules).Some? && Pick(rules).value.orgId.Some?
  {
    FirstWithIsFirst(rules, true);
    FirstWithIsFirst(rules, false);
    if rules != [] { assert rules[0] in rules; }
  }

  // ----- the linear definition -----

  /** The domain itself and, after each dot, a parent of two labels or more. */
  predicate Candidate(domain: string, k: nat) {
    k <= |domain| && (k == 0 || (domain[k - 1] == '.' && '.' in domain[k..]))
  }

  /** After a dot, a parent counts exactly when it has another dot: a top-level domain never does. */
  lemma ParentNeedsTwoLabels(a: string, b: string)
    ensures Candidate(a + ['.'] + b, |a| + 1) <==> '.' in b
    ensures Candidate(a + ['.'] + b, 0)
  {
    assert (a + ['.'] + b)[|a| + 1..] == b;
  }

  ghost predicate Listed(rules: seq<Rule>, domain: string, lower: string -> string) {
    domain != "" && RulesFor(rules, domain, lower) != []
  }

  ghost predicate ListedAt(rules: seq<Rule>, domain: string, k: nat, lower: string -> string) {
    Candidate(domain, k) && Listed(rules, domain[k..], lower)
  }

  ghost predicate NoneBefore(rules: seq<Rule>, domain: string, n: nat, lower: string -> string) {
    forall j: nat | j < n :: !ListedAt(rules, domain, j, lower)
  }

  /** The suffix at `k` is the longest that is listed, and `r` is the pick of its rules. */
  ghost predicate AnswersAt(rules: seq<Rule>, domain: string, lower: string -> string, r: Option<Rule>, k: nat) {
    && ListedAt(rules, domain, k, lower) && NoneBefore(rules, domain, k, lower)
    && r == Pick(RulesFor(rules, domain[k..], lower))
  }

  /** The answer a scan of the whole list would give. */
  ghost predicate IsAnswer(rules: seq<Rule>, domain: string, lower: string -> string, r: Option<Rule>) {
    if NoneBefore(rules, domain, |domain| + 1, lower) then r == None
    else exists k: nat :: AnswersAt(rules, domain, lower, r, k)
  }

  lemma {:induction false} RulesForMembers(rules: seq<Rule>, d: string, lower: string -> string, r: Rule)
    ensures r in RulesFor(rules, d, lower) <==> r in rules && Key(r, lower) == d
  {
    if rules != [] {
      RulesForMembers(rules[..|rules| - 1], d, lower, r);
      assert rules == rules[..|rules| - 1] + [rules[|rules| - 1]];
    }
  }

  /** Rule `r` is filed under the suffix of `domain` at `k`. */
  ghost predicate CoversAt(r: Rule, domain: string, k: nat, lower: string -> string) {
    Candidate(domain, k) && domain[k..] != "" && Key(r, lower) == domain[k..]
  }

  lemma ListedMeansCovered(rules: seq<Rule>, domain: string, k: nat, lower: string -> string)
    ensures ListedAt(rules, domain, k, lower) <==> exists r :: r in rules && CoversAt(r, domain, k, lower)
  {
    if Candidate(domain, k) {
      var found := RulesFor(rules, domain[k..], lower);
      if found != [] {
        assert found[0] in found;
        RulesForMembers(rules, domain[k..], lower, found[0]);
      }
      if r :| r in rules && CoversAt(r, domain, k, lower) {
        RulesForMembers(rules, domain[k..], lower, r);
      }
    }
  }

  /** Without an answer, no rule of the list covers the domain. */
  lemma NoAnswerMeansNoRule(rules: seq<Rule>, domain: string, lower: string -> string, a: Option<Rule>)
    requires IsAnswer(rules, domain, lower, a)
    ensures a.None? <==> forall r, k: nat :: r in rules ==> !CoversAt(r, domain, k, lower)
  {
    if NoneBefore(rules, domain, |domain| + 1, lower) {
      forall r, k: nat | r in rules ensures !CoversAt(r, domain, k, lower) {
        ListedMeansCovered(rules, domain, k, lower);
      }
    } else {
      var k: nat :| AnswersAt(rules, domain, lower, a, k);
      PickFinds(RulesFor(rules, domain[k..], lower));
      ListedMeansCovered(rules, domain, k, lower);
    }
  }

  lemma {:induction false} PlaceOfFirst(rules: seq<Rule>, org: bool) returns (i: nat)
    requires FirstWith(rules, org).Some?
    ensures i < |rules| && rules[i] == FirstWith(rules, org).value && rules[i].orgId.Some? == org
    ensures forall j | 0 <= j < i :: rules[j].orgId.Some? != org
  {
    i := 0;
    if rules[0].orgId.Some? != org {
      i := PlaceOfFirst(rules[1..], org);
      i := i + 1;
    }
  }

  /** Filing rules by domain keeps their order. */
  lemma {:induction false} PlaceInList(rules: seq<Rule>, d: string, lower: string -> string, i: nat) returns (n: nat)
    requires i < |RulesFor(rules, d, lower)|
    ensures n < |rules| && rules[n] == RulesFor(rules, d, lower)[i]
    ensures forall m | 0 <= m < n && Key(rules[m], lower) == d :: rules[m] in RulesFor(rules, d, lower)[..i]
  {
    var before := rules[..|rules| - 1];
    var rest := RulesFor(before, d, lower);
    if i < |rest| {
      n := PlaceInList(before, d, lower, i);
      assert RulesFor(rules, d, lower)[..i] == rest[..i];
    } else {
      n := |rules| - 1;
      assert RulesFor(rules, d, lower)[..i] == rest;
      forall m | 0 <= m < n && Key(rules[m], lower) == d ensures rules[m] in rest {
        assert before[m] in before;
        RulesForMembers(before, d, lower, rules[m]);
      }
    }
  }

  /** An answer is a rule of the list that covers the domain, such that no rule covers a longer suffix;
      of those that cover the same suffix it is the first org-specific one, or the first of all when
      none is org-specific. */
  lemma AnswerInTermsOfRules(rules: seq<Rule>, domain: string, lower: string -> string, a: Option<Rule>)
    returns (k: nat, n: nat)
    requires IsAnswer(rules, domain, lower, a) && a.Some?
    ensures n < |rules| && rules[n] == a.value && CoversAt(a.value, domain, k, lower)
    ensures forall r, j: nat | r in rules && j < k :: !CoversAt(r, domain, j, lower)
    ensures a.value.orgId.None? ==> forall r | r in rules && CoversAt(r, domain, k, lower) :: r.orgId.None?
    ensures forall m | 0 <= m < n && CoversAt(rules[m], domain, k, lower) ::
      rules[m].orgId.Some? != a.value.orgId.Some?
  {
    k :| AnswersAt(rules, domain, lower, a, k);
    var found := RulesFor(rules, domain[k..], lower);
    PickFinds(found);
    RulesForMembers(rules, domain[k..], lower, a.value);
    var i := PlaceOfFirst(found, FirstWith(found, true).Some?);
    n := PlaceInList(rules, domain[k..], lower, i);
    forall r, j: nat | r in rules && j < k ensures !CoversAt(r, domain, j, lower) {
      ListedMeansCovered(rules, domain, j, lower);
    }
    forall r | r in rules && CoversAt(r, domain, k, lower) ensures r in found {
      RulesForMembers(rules, domain[k..], lower, r);
    }
  }

  // ----- the code under study -----

  function Join(parts: seq<string>): string
    requires parts != []
  {
    if |parts| == 1 then parts[0] else parts[0] + ['.'] + Join(parts[1..])
  }

  lemma {:induction false} SplitParts(s: string)
    ensures var p := Split(s, '.');
      && '.' !in p[0] && |p[0]| <= |s| && s[..|p[0]|] == p[0]
      && (|p| == 1 ==> s == p[0])
      && (|p| > 1 ==> |p[0]| < |s| && s[|p[0]|] == '.' && Split(s[|p[0]| + 1..], '.') == p[1..])
  {
    if s != [] {
      SplitParts(s[1..]);
      assert s == [s[0]] + s[1..];
      var p := Split(s[1..], '.');
      if s[0] != '.' && |p| > 1 {
        assert s[1..][|p[0]| + 1..] == s[|p[0]| + 2..];
      }
    }
  }

  lemma {:induction false} JoinSplit(s: string)
    ensures Join(Split(s, '.')) == s
    decreases |s|
  {
    var p := Split(s, '.');
    SplitParts(s);
    if |p| > 1 {
      JoinSplit(s[|p[0]| + 1..]);
    }
  }

  lemma NoCandidateBetween(domain: string, k: nat, first: string)
    requires k + |first| < |domain| && domain[k..k + |first|] == first && '.' !in first
    ensures forall j: nat | k < j < k + |first| + 1 :: !Candidate(domain, j)
  {
    forall j: nat | k < j < k + |first| + 1 ensures !Candidate(domain, j) {
      assert domain[j - 1] == first[j - 1 - k];
    }
  }

  lemma NoCandidateAfter(domain: string, k: nat)
    requires k <= |domain| && '.' !in domain[k..]
    ensures forall j: nat | k < j :: !Candidate(domain, j)
  {
    forall j: nat | k < j <= |domain| ensures !Candidate(domain, j) {
      assert domain[j - 1] == domain[k..][j - 1 - k];
    }
  }

  /** One suffix looked up in the index. */
  lemma LookedUp(index: map<string, seq<Rule>>, rules: seq<Rule>, domain: string, k: nat, lower: string -> string)
    requires Indexes(index, rules, lower) && Candidate(domain, k) && NoneBefore(rules, domain, k, lower)
    ensures var r := MatchDomain(index, domain[k..]);
      if r.Some? then AnswersAt(rules, domain, lower, r, k) else NoneBefore(rules, domain, k + 1, lower)
  {
    PickFinds(RulesFor(rules, domain[k..], lower));
  }

  lemma AnsweredAt(rules: seq<Rule>, domain: string, lower: string -> string, r: Option<Rule>, k: nat)
    requires AnswersAt(rules, domain, lower, r, k)
    ensures IsAnswer(rules, domain, lower, r)
  {
  }

  /** The parents of a domain, longest first. */
  method WalkParents(index: map<string, seq<Rule>>, domain: string, lower: string -> string, ghost rules: seq<Rule>)
    returns (r: Option<Rule>)
    requires Indexes(index, rules, lower) && NoneBefore(rules, domain, 1, lower)
    ensures IsAnswer(rules, domain, lower, r)
  {
    var parts := Split(domain, '.');
    ghost var k: nat := 0;
    assert domain[0..] == domain && parts[0..] == parts;
    for i := 1 to |parts|
      invariant k <= |domain| && parts[i - 1..] == Split(domain[k..], '.')
      invariant NoneBefore(rules, domain, k + 1, lower)
    {
      ghost var next := NextParent(domain, k);
      assert parts[i - 1..][1..] == parts[i..];
      var parent := Join(parts[i..]);
      assert parent == domain[next..];
      assert NoneBefore(rules, domain, next, lower);
      if '.' in parent {
        LookedUp(index, rules, domain, next, lower);
        r := MatchDomain(index, parent);
        if r.Some? {
          AnsweredAt(rules, domain, lower, r, next);
          return;
        }
      }
      k := next;
    }
    SplitParts(domain[k..]);
    NoCandidateAfter(domain, k);
    r := None;
  }

  /** From the suffix at `k` to the one behind its first dot. */
  lemma NextParent(domain: string, k: nat) returns (next: nat)
    requires k <= |domain| && |Split(domain[k..], '.')| > 1
    ensures k < next <= |domain| && domain[next - 1] == '.'
    ensures Split(domain[next..], '.') == Split(domain[k..], '.')[1..]
    ensures Join(Split(domain[k..], '.')[1..]) == domain[next..]
    ensures forall j: nat | k < j < next :: !Candidate(domain, j)
  {
    var rest := domain[k..];
    var first := Split(rest, '.')[0];
    SplitParts(rest);
    next := k + |first| + 1;
    assert rest[|first| + 1..] == domain[next..];
    assert domain[k..k + |first|] == rest[..|first|];
    JoinSplit(domain[next..]);
    NoCandidateBetween(domain, k, first);
  }

  method Check(index: map<string, seq<Rule>>, host: string, revoked: bool, lower: string -> string,
               ghost rules: seq<Rule>)
    returns (r: Option<Rule>)
    requires Indexes(index, rules, lower)
    ensures revoked ==> r == None
    ensures !revoked ==> IsAnswer(rules, StripWww(lower(host)), lower, r)
  {
    if revoked {
      return None;
    }
    var domain := StripWww(lower(host));
    assert domain[0..] == domain;
    LookedUp(index, rules, domain, 0, lower);
    r := MatchDomain(index, domain);
    if r.Some? {
      AnsweredAt(rules, domain, lower, r, 0);
    } else {
      r := WalkParents(index, domain, lower, rules);
    }
  }
}

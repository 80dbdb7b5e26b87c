/** What a policy makes of a score, and the most severe of all policies. */
module Policies {
  import opened Scoring
  import opened Seqs

  datatype Policy = Policy(
    name: string, action: string, blockThreshold: Option<int>, alertThreshold: Option<int>, priority: int)

  datatype Defaults = Defaults(block: int, alert: int)

  datatype Thresholds = Thresholds(block: int, alert: int)

  datatype PolicyResult = PolicyResult(
    matched: bool, score: int, band: string, action: string, policyName: string,
    matches: seq<Match>, limits: Thresholds)

  function Nothing(name: string, limits: Thresholds): PolicyResult {
    PolicyResult(false, 0, "allow", "allow", name, [], limits)
  }

  function BandSeverity(band: string): int {
    if band == "block" then 3 else if band == "alert" then 2 else 0
  }

  function ActionSeverity(action: string): int {
    if action == "block" then 3 else if action == "alert" then 2 else if action == "log" then 1 else 0
  }

  function SeverityAction(severity: int): string {
    if severity == 3 then "block" else if severity == 2 then "alert" else if severity == 1 then "log" else "allow"
  }

  // ----- thresholds and bands -----

  function ThresholdsOf(p: Policy, cfg: Defaults): Thresholds {
    var block := if p.blockThreshold.Some? then p.blockThreshold.value else cfg.block;
    var alert := if p.alertThreshold.Some? then p.alertThreshold.value else cfg.alert;
    Thresholds(block, if alert >= block then (if block - 1 > 0 then block - 1 else 0) else alert)
  }

  /** A sound pair of thresholds is left alone; otherwise the alert threshold becomes the largest
      score below the block threshold, or 0 if there is none. It ends up below the block threshold
      exactly when it already was, or the block threshold is at least 1. */
  lemma ThresholdGuard(p: Policy, cfg: Defaults)
    ensures var t := ThresholdsOf(p, cfg);
      var block := if p.blockThreshold.Some? then p.blockThreshold.value else cfg.block;
      var alert := if p.alertThreshold.Some? then p.alertThreshold.value else cfg.alert;
      && t.block == block
      && (alert < block ==> t.alert == alert)
      && (alert >= block && block >= 1 ==> t.alert == block - 1)
      && (alert >= block && block < 1 ==> t.alert == 0)
      && (t.alert < t.block <==> alert < block || block >= 1)
  {
  }

  /** An input: with both thresholds at 0 the guard leaves the alert threshold where it was. */
  lemma GuardFailsExample()
    ensures var p := Policy("", "block", Some(0), Some(0), 0); ThresholdsOf(p, Defaults(80, 50)) == Thresholds(0, 0)
  {
  }

  function BandFor(score: int, t: Thresholds): string {
    if score >= t.block then "block" else if score >= t.alert then "alert" else "allow"
  }

  /** A higher score never falls into a milder band, whatever the thresholds. */
  lemma BandMonotone(score: int, score': int, t: Thresholds)
    requires score <= score'
    ensures BandSeverity(BandFor(score, t)) <= BandSeverity(BandFor(score', t))
  {
  }

  /** What a policy may do at most; an action it does not know counts as block. */
  function Ceiling(policyAction: string): int {
    if policyAction == "block" then 3 else if policyAction == "alert" then 2
    else if policyAction == "log" then 1 else if policyAction == "allow" then 0 else 3
  }

  function EffectiveAction(band: string, policyAction: string): string {
    var b, c := BandSeverity(band), Ceiling(policyAction);
    SeverityAction(if b < c then b else c)
  }

  /** The action is as severe as the band, up to the ceiling; so an alert policy never blocks. */
  lemma ActionIsCappedBand(band: string, policyAction: string)
    ensures var s := ActionSeverity(EffectiveAction(band, policyAction));
      && s <= BandSeverity(band) && s <= Ceiling(policyAction)
      && (s == BandSeverity(band) || s == Ceiling(policyAction))
  {
  }

  // ----- one policy -----

  /** What the detectors of a policy find in some content, and whether its file type is bypassed. */
  datatype Content = Content(found: Policy -> seq<Match>, bypassed: Policy -> bool)

  function ScorePolicy(p: Policy, content: Content, cfg: Defaults): PolicyResult {
    var t := ThresholdsOf(p, cfg);
    if content.bypassed(p) then Nothing(p.name, t)
    else
      var matches := Distinct(content.found(p), {});
      if matches == [] then Nothing(p.name, t)
      else
        var score := Score(Weights(matches), Combo(matches));
        var band := BandFor(score, t);
        PolicyResult(true, score, band, EffectiveAction(band, p.action), p.name, matches, t)
  }

  lemma SeverityInOrder(action: string)
    ensures ActionSeverity("block") > ActionSeverity("alert") > ActionSeverity("log") > ActionSeverity("allow")
    ensures action !in {"block", "alert", "log"} ==> ActionSeverity(action) == ActionSeverity("allow")
  {
  }

  // ----- one finding, one policy -----

  /** A single finding of weight 1 to 100 scores its weight, and by it a policy decides: one that may block,
      or whose action is unknown, blocks from its block threshold on and alerts from its alert threshold
      on; one that may alert alerts from the lower of the two on; one that may log logs from there on; one
      that may only allow allows. */
  lemma OneFindingDecides(p: Policy, content: Content, cfg: Defaults, m: Match)
    requires !content.bypassed(p) && content.found(p) == [m] && 1 <= m.weight <= 100
    ensures var r := ScorePolicy(p, content, cfg);
      var w, block, alert := m.weight, r.limits.block, r.limits.alert;
      && r.matched && r.score == w && r.limits == ThresholdsOf(p, cfg)
      && r.band == (if w >= block then "block" else if w >= alert then "alert" else "allow")
      && (p.action !in {"alert", "log", "allow"} ==>
        && (r.action == "block" <==> w >= block)
        && (r.action == "alert" <==> alert <= w < block)
        && (r.action == "allow" <==> w < block && w < alert))
      && (p.action == "alert" ==>
        && (r.action == "alert" <==> w >= block || w >= alert)
        && (r.action == "allow" <==> w < block && w < alert))
      && (p.action == "log" ==>
        && (r.action == "log" <==> w >= block || w >= alert)
        && (r.action == "allow" <==> w < block && w < alert))
      && (p.action == "allow" ==> r.action == "allow")
  {
    ScoreOfOne(m);
    assert [m][1..] == [];
  }

  /** ... and so does a scan with that one policy. */
  lemma OneFindingScanned(p: Policy, content: Content, cfg: Defaults, m: Match, r: PolicyResult)
    requires !content.bypassed(p) && content.found(p) == [m] && 1 <= m.weight <= 100 && p.action == "block"
    requires IsOutcome([p], content, cfg, r)
    ensures var block := if p.blockThreshold.Some? then p.blockThreshold.value else cfg.block;
      var alert := if p.alertThreshold.Some? then p.alertThreshold.value else cfg.alert;
      && (r.action == "block" <==> m.weight >= block)
      && (alert < block ==> (r.action == "alert" <==> alert <= m.weight < block))
  {
    OneFindingDecides(p, content, cfg, m);
    ThresholdGuard(p, cfg);
    var s := ScorePolicy(p, content, cfg);
    assert Keys([p], content, cfg)[0] == Some(KeyOf(p, s));
    assert r == s;
  }

  /** With nothing found, or for a bypassed file type, a policy does nothing. */
  lemma NothingFound(p: Policy, content: Content, cfg: Defaults)
    requires content.bypassed(p) || content.found(p) == []
    ensures var r := ScorePolicy(p, content, cfg);
      !r.matched && r.score == 0 && r.band == "allow" && r.action == "allow" && r.matches == []
  {
  }

  // ----- all policies -----

  datatype Key = Key(severity: int, score: int, precedence: int)

  predicate Less(a: Key, b: Key) {
    a.severity < b.severity
    || (a.severity == b.severity && (a.score < b.score || (a.score == b.score && a.precedence < b.precedence)))
  }

  function KeyOf(p: Policy, r: PolicyResult): Key {
    Key(ActionSeverity(r.action), r.score, -p.priority)
  }

  /** The keys of the policies that match. */
  function Keys(ps: seq<Policy>, content: Content, cfg: Defaults): (ks: seq<Option<Key>>)
    ensures |ks| == |ps|
  {
    seq(|ps|, i requires 0 <= i < |ps| =>
      var r := ScorePolicy(ps[i], content, cfg);
      if r.matched then Some(KeyOf(ps[i], r)) else None)
  }

  /** Key `k` is there, no other is larger, and no earlier one is as large. */
  ghost predicate Wins(ks: seq<Option<Key>>, k: nat) {
    && k < |ks| && ks[k].Some?
    && (forall i | 0 <= i < |ks| && ks[i].Some? :: !Less(ks[k].value, ks[i].value))
    && (forall i | 0 <= i < k && ks[i].Some? :: Less(ks[i].value, ks[k].value))
  }

  ghost predicate NoKey(ks: seq<Option<Key>>) {
    forall i | 0 <= i < |ks| :: ks[i].None?
  }

  /** The result of the winning policy, or of none when none matched. */
  ghost predicate IsOutcome(ps: seq<Policy>, content: Content, cfg: Defaults, r: PolicyResult) {
    var ks := Keys(ps, content, cfg);
    if NoKey(ks) then r == Nothing("", Thresholds(cfg.block, cfg.alert))
    else exists k: nat :: Wins(ks, k) && r == ScorePolicy(ps[k], content, cfg)
  }

  /** The winner after one more key. */
  lemma OneMoreKey(ks: seq<Option<Key>>, k: nat, key: Option<Key>)
    requires NoKey(ks) || Wins(ks, k)
    ensures key.None? && NoKey(ks) ==> NoKey(ks + [key])
    ensures key.None? && Wins(ks, k) ==> Wins(ks + [key], k)
    ensures key.Some? && (NoKey(ks) || Less(ks[k].value, key.value)) ==> Wins(ks + [key], |ks|)
    ensures key.Some? && Wins(ks, k) && !Less(ks[k].value, key.value) ==> Wins(ks + [key], k)
  {
    var more := ks + [key];
    assert forall i | 0 <= i < |ks| :: more[i] == ks[i];
  }

  method Scan(ps: seq<Policy>, content: Content, cfg: Defaults) returns (r: PolicyResult)
    ensures IsOutcome(ps, content, cfg, r)
  {
    var best: Option<PolicyResult> := None;
    var bestKey: Option<Key> := None;
    ghost var ks := Keys(ps, content, cfg);
    ghost var k: nat := 0;
    for i := 0 to |ps|
      invariant best.None? == bestKey.None? == NoKey(ks[..i])
      invariant best.Some? ==> (Wins(ks[..i], k) && bestKey == ks[k] && best.value == ScorePolicy(ps[k], content, cfg))
    {
      assert ks[..i + 1] == ks[..i] + [ks[i]];
      OneMoreKey(ks[..i], k, ks[i]);
      var result := ScorePolicy(ps[i], content, cfg);
      if result.matched {
        var key := KeyOf(ps[i], result);
        if bestKey.None? || Less(bestKey.value, key) {
          bestKey, best, k := Some(key), Some(result), i;
        }
      }
    }
    assert ks[..|ps|] == ks;
    r := if best.Some? then best.value else Nothing("", Thresholds(cfg.block, cfg.alert));
  }

  lemma OutcomeSource(ps: seq<Policy>, content: Content, cfg: Defaults, r: PolicyResult)
    requires IsOutcome(ps, content, cfg, r)
    ensures r.matched ==> exists p :: p in ps && r == ScorePolicy(p, content, cfg)
  {
    if r.matched {
      var k: nat :| Wins(Keys(ps, content, cfg), k) && r == ScorePolicy(ps[k], content, cfg);
      assert ps[k] in ps;
    }
  }

  /** `r`, from `p`, is as strong as `s`, from `q`. */
  predicate Precedes(p: Policy, r: PolicyResult, q: Policy, s: PolicyResult) {
    && ActionSeverity(s.action) <= ActionSeverity(r.action)
    && (ActionSeverity(s.action) == ActionSeverity(r.action) ==> s.score <= r.score)
    && (ActionSeverity(s.action) == ActionSeverity(r.action) && s.score == r.score ==> p.priority <= q.priority)
  }

  /** Without a matching policy a scan lets the content pass. */
  lemma NoMatchAllows(ps: seq<Policy>, content: Content, cfg: Defaults, r: PolicyResult)
    requires IsOutcome(ps, content, cfg, r)
    requires forall p | p in ps :: !ScorePolicy(p, content, cfg).matched
    ensures !r.matched && r.score == 0 && r.band == "allow" && r.action == "allow"
  {
    var ks := Keys(ps, content, cfg);
    forall i | 0 <= i < |ks| ensures ks[i].None? {
      assert ps[i] in ps;
    }
  }

  /** The order of precedence in full: no matching policy is more severe than the winner; of equally
      severe ones none scores higher; of those none has a smaller priority number; and of those that are
      equal in all three the winner is the first in the list. */
  lemma WinnerIsLexicographic(ps: seq<Policy>, content: Content, cfg: Defaults, r: PolicyResult)
    requires IsOutcome(ps, content, cfg, r)
    ensures r.matched ==> exists k ::
      && 0 <= k < |ps| && r == ScorePolicy(ps[k], content, cfg)
      && forall i | 0 <= i < |ps| && ScorePolicy(ps[i], content, cfg).matched ::
        var s := ScorePolicy(ps[i], content, cfg);
        Precedes(ps[k], r, ps[i], s) && (i < k ==> !Precedes(ps[i], s, ps[k], r))
  {
    if r.matched {
      var ks := Keys(ps, content, cfg);
      var k: nat :| Wins(ks, k) && r == ScorePolicy(ps[k], content, cfg);
      forall i | 0 <= i < |ps| && ScorePolicy(ps[i], content, cfg).matched
        ensures var s := ScorePolicy(ps[i], content, cfg);
          Precedes(ps[k], r, ps[i], s) && (i < k ==> !Precedes(ps[i], s, ps[k], r))
      {
        var s := ScorePolicy(ps[i], content, cfg);
        assert ks[i] == Some(KeyOf(ps[i], s)) && ks[k] == Some(KeyOf(ps[k], r));
        assert !Less(ks[k].value, ks[i].value) && (i < k ==> Less(ks[i].value, ks[k].value));
      }
    }
  }

  /** Every matching policy is at most as severe as the outcome. */
  lemma OutcomeCovers(ps: seq<Policy>, content: Content, cfg: Defaults, r: PolicyResult, p: Policy)
    requires IsOutcome(ps, content, cfg, r)
    requires p in ps && ScorePolicy(p, content, cfg).matched
    ensures r.matched
    ensures ActionSeverity(ScorePolicy(p, content, cfg).action) <= ActionSeverity(r.action)
  {
    var ks := Keys(ps, content, cfg);
    var i :| 0 <= i < |ps| && ps[i] == p;
    assert ks[i].Some?;
    var k: nat :| Wins(ks, k) && r == ScorePolicy(ps[k], content, cfg);
    assert !Less(ks[k].value, ks[i].value);
  }

  /** If any policy would block, the upload is blocked — and only then. */
  lemma BlocksIfAnyPolicyDoes(ps: seq<Policy>, content: Content, cfg: Defaults, r: PolicyResult)
    requires IsOutcome(ps, content, cfg, r)
    ensures r.action == "block" <==> exists p :: p in ps && ScorePolicy(p, content, cfg).action == "block"
  {
    if r.action == "block" {
      OutcomeSource(ps, content, cfg, r);
      var p :| p in ps && r == ScorePolicy(p, content, cfg);
    }
    if p :| p in ps && ScorePolicy(p, content, cfg).action == "block" {
      OutcomeCovers(ps, content, cfg, r, p);
    }
  }

  lemma MorePoliciesNeverWeaken(ps: seq<Policy>, more: seq<Policy>, content: Content, cfg: Defaults,
                                r: PolicyResult, r': PolicyResult)
    requires forall p | p in ps :: p in more
    requires IsOutcome(ps, content, cfg, r) && IsOutcome(more, content, cfg, r')
    ensures r.matched ==> r'.matched && ActionSeverity(r.action) <= ActionSeverity(r'.action)
  {
    if r.matched {
      OutcomeSource(ps, content, cfg, r);
      var p :| p in ps && r == ScorePolicy(p, content, cfg);
      OutcomeCovers(more, content, cfg, r', p);
    }
  }

  /** Adding a policy, anywhere in the list, never weakens the action. */
  lemma AddingAPolicyNeverWeakens(a: seq<Policy>, p: Policy, b: seq<Policy>, content: Content, cfg: Defaults,
                                  r: PolicyResult, r': PolicyResult)
    requires IsOutcome(a + b, content, cfg, r)
    requires IsOutcome(a + [p] + b, content, cfg, r')
    ensures r.matched ==> r'.matched && ActionSeverity(r.action) <= ActionSeverity(r'.action)
  {
    MorePoliciesNeverWeaken(a + b, a + [p] + b, content, cfg, r, r');
  }

  // ----- more findings -----

  /** For this policy `more` finds what `content` does, and perhaps one more that does no harm. */
  ghost predicate OneMoreFinding(content: Content, more: Content, p: Policy) {
    || more.found(p) == content.found(p)
    || exists a, m, b :: content.found(p) == a + b && more.found(p) == a + [m] + b && Harmless(a, m, b)
  }

  /** One result is no milder than another, in any respect. */
  predicate NoMilder(r: PolicyResult, r': PolicyResult) {
    && (r.matched ==> r'.matched && r.score <= r'.score)
    && BandSeverity(r.band) <= BandSeverity(r'.band)
    && ActionSeverity(r.action) <= ActionSeverity(r'.action)
  }

  lemma ScoredNoLower(p: Policy, content: Content, more: Content, cfg: Defaults)
    requires content.bypassed(p) == more.bypassed(p)
    requires FindingsScore(content.found(p)) <= FindingsScore(more.found(p))
    requires Distinct(content.found(p), {}) != [] ==> Distinct(more.found(p), {}) != []
    ensures NoMilder(ScorePolicy(p, content, cfg), ScorePolicy(p, more, cfg))
  {
    var r, r' := ScorePolicy(p, content, cfg), ScorePolicy(p, more, cfg);
    if r.matched {
      BandMonotone(r.score, r'.score, r.limits);
    }
  }

  lemma FindingNeverLowersAction(p: Policy, content: Content, more: Content, cfg: Defaults)
    requires OneMoreFinding(content, more, p) && content.bypassed(p) == more.bypassed(p)
    ensures NoMilder(ScorePolicy(p, content, cfg), ScorePolicy(p, more, cfg))
  {
    if more.found(p) != content.found(p) {
      var a, m, b :| content.found(p) == a + b && more.found(p) == a + [m] + b && Harmless(a, m, b);
      FindingNeverLowersScore(a, m, b);
    }
    ScoredNoLower(p, content, more, cfg);
  }

  /** Through the whole chain: a further value found, by any policies, never weakens the scan. */
  lemma FindingNeverWeakensScan(ps: seq<Policy>, content: Content, more: Content, cfg: Defaults,
                                r: PolicyResult, r': PolicyResult)
    requires forall p | p in ps :: OneMoreFinding(content, more, p) && content.bypassed(p) == more.bypassed(p)
    requires IsOutcome(ps, content, cfg, r) && IsOutcome(ps, more, cfg, r')
    ensures r.matched ==> r'.matched && ActionSeverity(r.action) <= ActionSeverity(r'.action)
  {
    if r.matched {
      OutcomeSource(ps, content, cfg, r);
      var p :| p in ps && r == ScorePolicy(p, content, cfg);
      FindingNeverLowersAction(p, content, more, cfg);
      OutcomeCovers(ps, more, cfg, r', p);
    }
  }
}

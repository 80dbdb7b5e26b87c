/** The verdict of one piece of content, and the strongest of many. */
module Verdicts {

  datatype Verdict = Verdict(
    matched: bool, score: int, band: string, action: string, policyName: string,
    detectors: seq<string>, previews: seq<string>, reason: string)
  {
    function Rank(): int {
      if action == "block" then 3 else if action == "alert" then 2 else if action == "log" then 1 else 0
    }

    predicate IsBlock() { action == "block" }

    /** The code's `max`: this one, unless the other is stronger. */
    function Max(other: Verdict): Verdict {
      if !other.matched then this
      else if !matched || other.Rank() > Rank() || (other.Rank() == Rank() && other.score > score) then other
      else this
    }
  }

  /** `Verdict::default()`. */
  const NOTHING := Verdict(false, 0, "", "", "", [], [], "")

  /** Strictly stronger: a match beats no match, then the action counts, then the score. */
  predicate Stronger(a: Verdict, b: Verdict) {
    a.matched && (!b.matched || a.Rank() > b.Rank() || (a.Rank() == b.Rank() && a.score > b.score))
  }

  /** Every verdict of the list, folded in order onto `worst`. */
  function Fold(worst: Verdict, vs: seq<Verdict>): Verdict
    decreases |vs|
  {
    if vs == [] then worst else Fold(worst.Max(vs[0]), vs[1..])
  }

  /** The same fold, given up at the first block. */
  function FoldToBlock(worst: Verdict, vs: seq<Verdict>): Verdict
    decreases |vs|
  {
    if vs == [] then worst
    else
      var w := worst.Max(vs[0]);
      if w.IsBlock() then w else FoldToBlock(w, vs[1..])
  }

  lemma FoldFirst(worst: Verdict, v: Verdict, vs: seq<Verdict>)
    ensures var w := worst.Max(v);
      FoldToBlock(worst, [v] + vs) == if w.IsBlock() then w else FoldToBlock(w, vs)
  {
    assert ([v] + vs)[1..] == vs;
  }

  lemma MaxAssociative(a: Verdict, b: Verdict, c: Verdict)
    ensures a.Max(b).Max(c) == a.Max(b.Max(c))
  {
  }

  /** `vs[k]` is a match, none is stronger, and it is stronger than all before it. */
  ghost predicate WinsAt(vs: seq<Verdict>, k: nat) {
    && k < |vs| && vs[k].matched
    && (forall i | 0 <= i < |vs| :: !Stronger(vs[i], vs[k]))
    && (forall i | 0 <= i < k :: Stronger(vs[k], vs[i]))
  }

  /** The winner of a whole list: nothing when nothing matched, and otherwise the first of the
      strongest. */
  ghost predicate FirstStrongest(vs: seq<Verdict>, r: Verdict) {
    if forall i | 0 <= i < |vs| :: !vs[i].matched then r == NOTHING
    else exists k: nat :: WinsAt(vs, k) && r == vs[k]
  }

  lemma {:induction false} FoldSnoc(worst: Verdict, vs: seq<Verdict>, v: Verdict)
    ensures Fold(worst, vs + [v]) == Fold(worst, vs).Max(v)
    decreases |vs|
  {
    if vs == [] {
      assert Fold(worst, [v]) == Fold(worst.Max(v), []);
    } else {
      assert (vs + [v])[1..] == vs[1..] + [v];
      FoldSnoc(worst.Max(vs[0]), vs[1..], v);
    }
  }

  lemma {:induction false} FoldIsFirstStrongest(vs: seq<Verdict>)
    ensures FirstStrongest(vs, Fold(NOTHING, vs))
    decreases |vs|
  {
    if vs != [] {
      var before, v := vs[..|vs| - 1], vs[|vs| - 1];
      assert vs == before + [v];
      FoldSnoc(NOTHING, before, v);
      FoldIsFirstStrongest(before);
      OneMore(before, v, Fold(NOTHING, before));
    }
  }

  lemma OneMore(before: seq<Verdict>, v: Verdict, r: Verdict)
    requires FirstStrongest(before, r)
    ensures FirstStrongest(before + [v], r.Max(v))
  {
    var vs := before + [v];
    assert vs[|before|] == v && forall i | 0 <= i < |before| :: vs[i] == before[i];
    if exists i | 0 <= i < |before| :: before[i].matched {
      var k: nat :| WinsAt(before, k) && r == before[k];
      assert vs[k].matched;
      assert WinsAt(vs, if Stronger(v, r) then |before| else k);
    } else if v.matched {
      assert WinsAt(vs, |before|);
    }
  }

  lemma {:induction false} BlockStays(worst: Verdict, vs: seq<Verdict>)
    requires worst.matched && worst.IsBlock()
    ensures Fold(worst, vs).matched && Fold(worst, vs).IsBlock()
    decreases |vs|
  {
    if vs != [] {
      BlockStays(worst.Max(vs[0]), vs[1..]);
    }
  }

  /** Giving up at the first block never changes the action; without a block it changes nothing. */
  lemma {:induction false} EarlyStopSameAction(worst: Verdict, vs: seq<Verdict>)
    requires !worst.IsBlock()
    ensures FoldToBlock(worst, vs).action == Fold(worst, vs).action
    ensures !FoldToBlock(worst, vs).IsBlock() ==> FoldToBlock(worst, vs) == Fold(worst, vs)
    decreases |vs|
  {
    if vs != [] {
      var w := worst.Max(vs[0]);
      if w.IsBlock() {
        BlockStays(w, vs[1..]);
      } else {
        EarlyStopSameAction(w, vs[1..]);
      }
    }
  }

  /** Among matches a block beats an alert, an alert a log, a log anything else, whatever their scores; with
      the same action the higher score wins; and a match beats no match. */
  lemma StrongerInOrder(a: Verdict, b: Verdict)
    ensures a.matched && !b.matched ==> Stronger(a, b)
    ensures a.matched && a.action == "block" && b.action != "block" ==> Stronger(a, b)
    ensures a.matched && a.action == "alert" && b.action !in {"block", "alert"} ==> Stronger(a, b)
    ensures a.matched && a.action == "log" && b.action !in {"block", "alert", "log"} ==> Stronger(a, b)
    ensures a.matched && b.matched && a.action == b.action ==> (Stronger(a, b) <==> a.score > b.score)
  {
  }
}

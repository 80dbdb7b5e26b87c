/** From detector matches to one score: each value counted once, weights added up at a discount. */
module Scoring {
  import opened Seqs

  const CONTEXT_BONUS := 10

  datatype Match = Match(detector: string, key: string, weight: int)

  // ===== the score =====

  function Sum(ws: seq<int>): int {
    if ws == [] then 0 else Sum(ws[..|ws| - 1]) + ws[|ws| - 1]
  }

  function Maximum(ws: seq<int>): int
    requires ws != []
  {
    if |ws| == 1 then ws[0] else var m := Maximum(ws[..|ws| - 1]); if ws[|ws| - 1] > m then ws[|ws| - 1] else m
  }

  /** Five times the exact score: max + 0.4 * (sum - max), and the bonus. */
  function Fifths(ws: seq<int>, combo: bool): int
    requires ws != []
  {
    3 * Maximum(ws) + 2 * Sum(ws) + if combo then 5 * CONTEXT_BONUS else 0
  }

  /** The integer nearest to n / 5; a fifth is never half way. */
  function Nearest(n: int): (r: int)
    ensures -2 <= 5 * r - n <= 2
  {
    (2 * n + 5) / 10
  }

  function Score(ws: seq<int>, combo: bool): int {
    if ws == [] then 0
    else
      var exact := Nearest(Fifths(ws, combo));
      if exact > 100 then 100 else exact
  }

  /** Only one integer is nearest, and it moves with n. */
  lemma NearestMonotone(n: int, m: int)
    ensures n <= m ==> Nearest(n) <= Nearest(m)
    ensures forall r: int :: -2 <= 5 * r - n <= 2 ==> r == Nearest(n)
  {
  }

  /** In real numbers: six tenths of the largest weight and four tenths of the sum of all, ten more with
      context, rounded to the nearest integer, and at most a hundred. */
  lemma ScoreInReals(ws: seq<int>, combo: bool)
    requires ws != []
    ensures var exact := 0.6 * (Maximum(ws) as real) + 0.4 * (Sum(ws) as real) + (if combo then 10.0 else 0.0);
      if exact >= 100.5 then Score(ws, combo) == 100
      else Score(ws, combo) <= 100 && -0.5 < exact - (Score(ws, combo) as real) < 0.5
  {
    var n := Fifths(ws, combo);
    assert n as real == 3.0 * (Maximum(ws) as real) + 2.0 * (Sum(ws) as real) + (if combo then 50.0 else 0.0);
    assert -2 <= 5 * Nearest(n) - n <= 2;
    assert (5 * Nearest(n)) as real == 5.0 * (Nearest(n) as real);
  }

  // ----- order does not matter -----

  lemma {:induction false} SumSplit(a: seq<int>, x: int, b: seq<int>)
    ensures Sum(a + [x] + b) == Sum(a + b) + x
  {
    if b == [] {
      assert a + [x] + b == a + [x] && a + b == a;
      assert (a + [x])[..|a|] == a;
    } else {
      var b', y := b[..|b| - 1], b[|b| - 1];
      assert (a + [x] + b)[..|a| + |b|] == a + [x] + b' && (a + b)[..|a| + |b| - 1] == a + b';
      SumSplit(a, x, b');
    }
  }

  lemma {:induction false} MaximumIsMax(ws: seq<int>)
    requires ws != []
    ensures Maximum(ws) in ws && forall i | 0 <= i < |ws| :: ws[i] <= Maximum(ws)
  {
    if |ws| > 1 {
      MaximumIsMax(ws[..|ws| - 1]);
    }
  }

  lemma MaximumUnique(ws: seq<int>, m: int)
    requires ws != [] && m in ws && forall i | 0 <= i < |ws| :: ws[i] <= m
    ensures Maximum(ws) == m
  {
    MaximumIsMax(ws);
  }

  lemma WithoutOne(ws: seq<int>, x: int) returns (a: seq<int>, b: seq<int>)
    requires x in ws
    ensures ws == a + [x] + b && multiset(a + b) == multiset(ws) - multiset{x}
  {
    var k :| 0 <= k < |ws| && ws[k] == x;
    a, b := ws[..k], ws[k + 1..];
    assert ws == a + [x] + b;
    assert multiset(ws) == multiset(a) + multiset{x} + multiset(b);
    assert multiset(a + b) == multiset(a) + multiset(b);
  }

  lemma {:induction false} SumPermutation(ws: seq<int>, vs: seq<int>)
    requires multiset(ws) == multiset(vs)
    ensures Sum(ws) == Sum(vs)
    decreases |ws|
  {
    assert |ws| == |multiset(ws)| == |vs|;
    if ws != [] {
      var x, ws' := ws[|ws| - 1], ws[..|ws| - 1];
      assert ws == ws' + [x];
      assert x in multiset(vs);
      var a, b := WithoutOne(vs, x);
      assert multiset(ws') == multiset(ws) - multiset{x};
      SumPermutation(ws', a + b);
      SumSplit(a, x, b);
    }
  }

  /** The order in which matches are found never changes the score. */
  lemma ScoreIgnoresOrder(ws: seq<int>, vs: seq<int>, combo: bool)
    requires multiset(ws) == multiset(vs)
    ensures Score(ws, combo) == Score(vs, combo)
  {
    SumPermutation(ws, vs);
    assert |ws| == |multiset(ws)| == |vs|;
    if ws != [] {
      assert ws[0] in multiset(vs);
      MaximumIsMax(ws);
      var m := Maximum(ws);
      assert m in multiset(vs);
      forall i | 0 <= i < |vs| ensures vs[i] <= m {
        assert vs[i] in multiset(ws);
      }
      MaximumUnique(vs, m);
    }
  }

  // ----- the code's computation -----

  ghost predicate Descending(r: seq<int>) {
    forall i, j | 0 <= i < j < |r| :: r[i] >= r[j]
  }

  function PutAt(r: seq<int>, k: nat, x: int): (r': seq<int>)
    requires k <= |r|
    ensures |r'| == |r| + 1 && multiset(r') == multiset(r) + multiset{x}
  {
    assert r == r[..k] + r[k..];
    r[..k] + [x] + r[k..]
  }

  lemma PutAtKeepsOrder(r: seq<int>, k: nat, x: int)
    requires Descending(r) && k <= |r|
    requires k > 0 ==> r[k - 1] >= x
    requires k < |r| ==> r[k] < x
    ensures Descending(PutAt(r, k, x))
  {
    var r' := PutAt(r, k, x);
    forall i, j | 0 <= i < j < |r'| ensures r'[i] >= r'[j] {
      PutAtIndex(r, k, x, i);
      PutAtIndex(r, k, x, j);
      PutPairInOrder(r, k, x, i, j);
    }
  }

  lemma PutAtIndex(r: seq<int>, k: nat, x: int, i: nat)
    requires k <= |r| && i <= |r|
    ensures PutAt(r, k, x)[i] == if i < k then r[i] else if i == k then x else r[i - 1]
  {
  }

  lemma PutPairInOrder(r: seq<int>, k: nat, x: int, i: nat, j: nat)
    requires Descending(r) && k <= |r| && i < j <= |r|
    requires k > 0 ==> r[k - 1] >= x
    requires k < |r| ==> r[k] < x
    ensures (if i < k then r[i] else if i == k then x else r[i - 1])
         >= (if j < k then r[j] else if j == k then x else r[j - 1])
  {
  }

  /** One value put in its place in a descending list: the inner loop of the sort below. */
  method Insert(r: seq<int>, x: int) returns (r': seq<int>)
    requires Descending(r)
    ensures Descending(r') && multiset(r') == multiset(r) + multiset{x}
  {
    var k := |r|;
    while k > 0 && r[k - 1] < x
      invariant 0 <= k <= |r|
      invariant k < |r| ==> r[k] < x
    {
      k := k - 1;
    }
    PutAtKeepsOrder(r, k, x);
    r' := PutAt(r, k, x);
  }

  /** `sort_unstable_by(|a, b| b.cmp(a))`, as far as its result goes. */
  method SortDescending(ws: seq<int>) returns (r: seq<int>)
    ensures multiset(r) == multiset(ws)
    ensures Descending(r)
  {
    r := [];
    for n := 0 to |ws|
      invariant multiset(r) == multiset(ws[..n])
      invariant Descending(r)
    {
      assert ws[..n + 1] == ws[..n] + [ws[n]];
      r := Insert(r, ws[n]);
    }
    assert ws[..|ws|] == ws;
  }

  method Aggregate(weights: seq<int>, combo: bool) returns (score: int)
    ensures score == Score(weights, combo)
  {
    if weights == [] {
      return 0;
    }
    var ordered := SortDescending(weights);
    ScoreIgnoresOrder(weights, ordered, combo);
    assert |ordered| == |multiset(ordered)| == |weights|;
    MaximumUnique(ordered, ordered[0]);
    var rest := 0;
    for i := 1 to |ordered|
      invariant rest == Sum(ordered[..i]) - ordered[0]
    {
      assert ordered[..i + 1][..i] == ordered[..i];
      rest := rest + ordered[i];
    }
    assert ordered[..|ordered|] == ordered;
    var fifths := 5 * ordered[0] + 2 * rest;
    if combo {
      fifths := fifths + 5 * CONTEXT_BONUS;
    }
    var exact := Nearest(fifths);
    score := if exact > 100 then 100 else exact;
  }

  // ----- more weight -----

  lemma ScoreOneMore(ws: seq<int>, w: int, combo: bool, combo': bool)
    requires w >= 0 && (combo ==> combo')
    ensures Score(ws, combo) <= Score(ws + [w], combo')
  {
    var more := ws + [w];
    assert more[..|ws|] == ws;
    assert Sum(more) == Sum(ws) + w;
    if ws == [] {
      assert Maximum(more) == w;
    } else {
      assert Maximum(more) >= Maximum(ws);
    }
    NearestMonotone(if ws == [] then 0 else Fifths(ws, combo), Fifths(more, combo'));
  }

  /** A match of weight `w` lowers no score exactly when its weight is not negative. */
  lemma OnlyNegativeWeightsLower(w: int)
    ensures w >= 0 <==> forall ws: seq<int>, combo: bool :: Score(ws, combo) <= Score(ws + [w], combo)
  {
    if w >= 0 {
      forall ws: seq<int>, combo: bool ensures Score(ws, combo) <= Score(ws + [w], combo) {
        ScoreOneMore(ws, w, combo, combo);
      }
    } else {
      var none: seq<int> := [];
      assert none + [w] == [w] && [w][..0] == none;
      assert Sum([w]) == w;
      assert Fifths([w], false) == 5 * w;
      assert Score(none, false) > Score(none + [w], false);
    }
  }

  /** Raising one weight never lowers the score. */
  lemma ScoreRaised(a: seq<int>, w: int, w': int, b: seq<int>, combo: bool, combo': bool)
    requires w <= w' && (combo ==> combo')
    ensures Score(a + [w] + b, combo) <= Score(a + [w'] + b, combo')
  {
    var ws, ws' := a + [w] + b, a + [w'] + b;
    SumSplit(a, w, b);
    SumSplit(a, w', b);
    MaximumIsMax(ws);
    MaximumIsMax(ws');
    var k :| 0 <= k < |ws| && ws[k] == Maximum(ws);
    assert ws[k] <= ws'[k];
    NearestMonotone(Fifths(ws, combo), Fifths(ws', combo'));
  }

  // ===== one finding per value =====

  function Id(m: Match): (string, string) { (m.detector, m.key) }

  function Ids(ms: seq<Match>): set<(string, string)> { set m | m in ms :: Id(m) }

  /** `retain` with a set of the values seen so far. */
  function Distinct(ms: seq<Match>, seen: set<(string, string)>): seq<Match> {
    if ms == [] then []
    else if Id(ms[0]) in seen then Distinct(ms[1..], seen)
    else [ms[0]] + Distinct(ms[1..], seen + {Id(ms[0])})
  }

  method Retain(ms: seq<Match>) returns (kept: seq<Match>)
    ensures kept == Distinct(ms, {})
  {
    kept := [];
    var seen: set<(string, string)> := {};
    for i := 0 to |ms|
      invariant kept + Distinct(ms[i..], seen) == Distinct(ms, {})
    {
      assert ms[i..][1..] == ms[i + 1..];
      if Id(ms[i]) !in seen {
        assert kept + ([ms[i]] + Distinct(ms[i + 1..], seen + {Id(ms[i])}))
            == kept + [ms[i]] + Distinct(ms[i + 1..], seen + {Id(ms[i])});
        seen := seen + {Id(ms[i])};
        kept := kept + [ms[i]];
      }
    }
    assert ms[|ms|..] == [];
  }

  /** What is left is each value once, at its first finding. */
  lemma {:induction false} DistinctAreFirst(ms: seq<Match>, seen: set<(string, string)>)
    ensures forall m :: m in Distinct(ms, seen) <==> Id(m) in Ids(ms) && Id(m) !in seen && m == FirstOf(ms, Id(m))
    ensures forall i, j | 0 <= i < j < |Distinct(ms, seen)| :: Id(Distinct(ms, seen)[i]) != Id(Distinct(ms, seen)[j])
  {
    if ms != [] {
      IdsOfFirst(ms);
      DistinctAreFirst(ms[1..], if Id(ms[0]) in seen then seen else seen + {Id(ms[0])});
      var rest := Distinct(ms[1..], seen + {Id(ms[0])});
      assert forall i | 0 <= i < |rest| :: rest[i] in rest;
    }
  }

  lemma IdsOfFirst(a: seq<Match>)
    requires a != []
    ensures Ids(a) == {Id(a[0])} + Ids(a[1..])
  {
    assert a == [a[0]] + a[1..];
  }

  lemma SeenAfter(a: seq<Match>, seen: set<(string, string)>)
    requires a != []
    ensures seen + Ids(a) == (if Id(a[0]) in seen then seen else seen + {Id(a[0])}) + Ids(a[1..])
  {
    IdsOfFirst(a);
  }

  lemma {:induction false} DistinctAppend(a: seq<Match>, b: seq<Match>, seen: set<(string, string)>)
    ensures Distinct(a + b, seen) == Distinct(a, seen) + Distinct(b, seen + Ids(a))
  {
    if a == [] {
      assert a + b == b && seen + Ids(a) == seen;
    } else {
      assert (a + b)[1..] == a[1..] + b;
      SeenAfter(a, seen);
      DistinctAppend(a[1..], b, if Id(a[0]) in seen then seen else seen + {Id(a[0])});
    }
  }

  lemma {:induction false} DistinctUnseen(b: seq<Match>, seen: set<(string, string)>, id: (string, string))
    requires id !in Ids(b)
    ensures Distinct(b, seen + {id}) == Distinct(b, seen)
  {
    if b != [] {
      assert Id(b[0]) in Ids(b) && Ids(b[1..]) <= Ids(b);
      assert seen + {id} + {Id(b[0])} == seen + {Id(b[0])} + {id};
      DistinctUnseen(b[1..], seen, id);
      DistinctUnseen(b[1..], seen + {Id(b[0])}, id);
    }
  }

  /** The first finding of a value. */
  function FirstOf(b: seq<Match>, id: (string, string)): (m: Match)
    requires id in Ids(b)
    ensures m in b && Id(m) == id
  {
    IdsOfFirst(b);
    if Id(b[0]) == id then b[0] else FirstOf(b[1..], id)
  }

  /** Seeing a value earlier takes exactly its first later finding away. */
  lemma {:induction false} DistinctSeenEarlier(b: seq<Match>, seen: set<(string, string)>, id: (string, string))
    returns (p: seq<Match>, q: seq<Match>)
    requires id in Ids(b) && id !in seen
    ensures Distinct(b, seen) == p + [FirstOf(b, id)] + q && Distinct(b, seen + {id}) == p + q
  {
    var later := FirstOf(b, id);
    if Id(b[0]) == id {
      p, q := [], Distinct(b[1..], seen + {id});
      assert seen + {id} + {id} == seen + {id};
      assert p + [later] + q == [later] + q && p + q == q;
    } else {
      IdsOfFirst(b);
      assert seen + {id} + {Id(b[0])} == seen + {Id(b[0])} + {id};
      if Id(b[0]) in seen {
        p, q := DistinctSeenEarlier(b[1..], seen, id);
      } else {
        var p';
        p', q := DistinctSeenEarlier(b[1..], seen + {Id(b[0])}, id);
        p := [b[0]] + p';
        assert p + [later] + q == [b[0]] + (p' + [later] + q) && p + q == [b[0]] + (p' + q);
      }
    }
  }

  // ===== one policy =====

  const STRUCTURED := {"credit_card", "pan_india", "aadhaar", "aws_key", "github_token", "generic_api_key"}

  function Weights(ms: seq<Match>): (ws: seq<int>)
    ensures |ws| == |ms|
  {
    seq(|ms|, i requires 0 <= i < |ms| => ms[i].weight)
  }

  /** An identifier or credential next to a keyword or custom pattern. */
  predicate Combo(ms: seq<Match>) {
    (exists m | m in ms :: m.detector in STRUCTURED)
    && (exists m | m in ms :: m.detector == "keyword" || m.detector == "custom_regex")
  }

  /** Context is an identifier or a credential next to a keyword or a custom pattern; two of one kind, or
      anything else, are none. */
  lemma ContextOfTwo(x: Match, y: Match)
    ensures var found := {"credit_card", "pan_india", "aadhaar", "aws_key", "github_token", "generic_api_key"};
      var words := {"keyword", "custom_regex"};
      Combo([x, y]) <==>
        (x.detector in found && y.detector in words) || (y.detector in found && x.detector in words)
  {
    assert forall m :: m in [x, y] <==> m == x || m == y;
    assert x in [x, y] && y in [x, y];
  }

  function FindingsScore(ms: seq<Match>): int {
    var found := Distinct(ms, {});
    Score(Weights(found), Combo(found))
  }

  /** Repeating a value that was already found changes nothing. */
  lemma RepeatChangesNothing(a: seq<Match>, m: Match, b: seq<Match>)
    requires Id(m) in Ids(a)
    ensures Distinct(a + [m] + b, {}) == Distinct(a + b, {})
  {
    InsertedInto(a, m, b);
  }

  lemma InsertedInto(a: seq<Match>, m: Match, b: seq<Match>)
    ensures Distinct(a + b, {}) == Distinct(a, {}) + Distinct(b, Ids(a))
    ensures Distinct(a + [m] + b, {}) == Distinct(a, {}) +
      if Id(m) in Ids(a) then Distinct(b, Ids(a)) else [m] + Distinct(b, Ids(a) + {Id(m)})
  {
    assert {} + Ids(a) == Ids(a);
    DistinctAppend(a, b, {});
    DistinctAppend(a, [m] + b, {});
    assert a + [m] + b == a + ([m] + b);
    assert ([m] + b)[1..] == b;
  }

  /** A finding between others is without effect when its value was found before; otherwise it takes
      the place of the first later finding of its value, or is one more. It does no harm if it is not
      lighter than what it replaces, or not negative when it replaces nothing. */
  predicate Harmless(a: seq<Match>, m: Match, b: seq<Match>) {
    Id(m) in Ids(a) || (if Id(m) in Ids(b) then FirstOf(b, Id(m)).weight <= m.weight else m.weight >= 0)
  }

  /** A further finding that does no harm never lowers the score, wherever it turns up. */
  lemma FindingNeverLowersScore(a: seq<Match>, m: Match, b: seq<Match>)
    requires Harmless(a, m, b)
    ensures FindingsScore(a + b) <= FindingsScore(a + [m] + b)
    ensures Distinct(a + b, {}) != [] ==> Distinct(a + [m] + b, {}) != []
  {
    InsertedInto(a, m, b);
    var first := Distinct(a, {});
    if Id(m) !in Ids(a) {
      if Id(m) !in Ids(b) {
        DistinctUnseen(b, Ids(a), Id(m));
        var rest := Distinct(b, Ids(a));
        assert first + ([m] + rest) == first + [m] + rest;
        OneMoreScores(first, m, rest);
      } else {
        LaterReplaced(first, m, b, Ids(a));
      }
    }
  }

  lemma LaterReplaced(first: seq<Match>, m: Match, b: seq<Match>, seen: set<(string, string)>)
    requires Id(m) in Ids(b) && Id(m) !in seen && FirstOf(b, Id(m)).weight <= m.weight
    ensures var less, more := first + Distinct(b, seen), first + ([m] + Distinct(b, seen + {Id(m)}));
      Score(Weights(less), Combo(less)) <= Score(Weights(more), Combo(more))
  {
    var later := FirstOf(b, Id(m));
    var p, q := DistinctSeenEarlier(b, seen, Id(m));
    var less, more := first + Distinct(b, seen), first + ([m] + Distinct(b, seen + {Id(m)}));
    assert less == first + p + [later] + q by {
      RegroupFour(first, p, [later], q);
    }
    assert more == first + [m] + p + q by {
      RegroupFour(first, [m], p, q);
      assert [m] + (p + q) == [m] + p + q;
    }
    ReplacedScores(first, p, later, m, q);
  }

  lemma OneMoreScores(first: seq<Match>, m: Match, rest: seq<Match>)
    requires m.weight >= 0
    ensures var less, more := first + rest, first + [m] + rest;
      Score(Weights(less), Combo(less)) <= Score(Weights(more), Combo(more))
  {
    var less, more := first + rest, first + [m] + rest;
    ComboGrows(less, more);
    Reordered(first, m, rest);
    ScoreIgnoresOrder(Weights(more), Weights(less) + [m.weight], Combo(more));
    ScoreOneMore(Weights(less), m.weight, Combo(less), Combo(more));
  }

  lemma ReplacedScores(first: seq<Match>, p: seq<Match>, later: Match, m: Match, q: seq<Match>)
    requires Id(m) == Id(later) && later.weight <= m.weight
    ensures var before, after := first + p + [later] + q, first + [m] + p + q;
      Score(Weights(before), Combo(before)) <= Score(Weights(after), Combo(after))
  {
    var before, after := first + p + [later] + q, first + [m] + p + q;
    Moved(first, p, later, m, q);
    ComboSame(before, after, m, later, first, p, q);
    ScoreIgnoresOrder(Weights(after), Weights(first + p) + [m.weight] + Weights(q), Combo(after));
    ScoreRaised(Weights(first + p), later.weight, m.weight, Weights(q), Combo(before), Combo(after));
  }

  lemma ComboGrows(before: seq<Match>, after: seq<Match>)
    requires forall x | x in before :: x in after
    ensures Combo(before) ==> Combo(after)
  {
  }

  lemma ComboSame(before: seq<Match>, after: seq<Match>, m: Match, later: Match,
                  first: seq<Match>, p: seq<Match>, q: seq<Match>)
    requires Id(m) == Id(later)
    requires before == first + p + [later] + q && after == first + [m] + p + q
    ensures Combo(before) ==> Combo(after)
  {
    assert m in after;
    forall x | x in before ensures exists y | y in after :: y.detector == x.detector {
      if x == later { assert m.detector == x.detector; } else { assert x in after; }
    }
  }

  lemma Reordered(first: seq<Match>, m: Match, rest: seq<Match>)
    ensures multiset(Weights(first + [m] + rest)) == multiset(Weights(first + rest) + [m.weight])
  {
    WeightsAround(first, m, rest);
    WeightsAppend(first, rest);
  }

  lemma WeightsAppend(a: seq<Match>, b: seq<Match>)
    ensures Weights(a + b) == Weights(a) + Weights(b)
  {
  }

  lemma WeightsAround(a: seq<Match>, m: Match, b: seq<Match>)
    ensures Weights(a + [m] + b) == Weights(a) + [m.weight] + Weights(b)
  {
    assert Weights([m]) == [m.weight];
    WeightsAppend(a, [m]);
    WeightsAppend(a + [m], b);
  }

  lemma Moved(first: seq<Match>, p: seq<Match>, later: Match, m: Match, q: seq<Match>)
    ensures Weights(first + p + [later] + q) == Weights(first + p) + [later.weight] + Weights(q)
    ensures multiset(Weights(first + [m] + p + q)) == multiset(Weights(first + p) + [m.weight] + Weights(q))
  {
    WeightsAround(first + p, later, q);
    WeightsAppend(first, p);
    assert first + [m] + p + q == first + [m] + (p + q);
    WeightsAround(first, m, p + q);
    WeightsAppend(p, q);
  }

  // ----- exactly when a finding lowers scores -----

  /** Two findings, the first of a detector that tells nothing about context. */
  lemma ScoreOfTwo(x: Match, y: Match)
    requires x.detector == "source_code" && Id(x) != Id(y)
    ensures FindingsScore([x, y]) == Score([x.weight, y.weight], false)
  {
    assert [x, y][1..] == [y] && [y][1..] == [];
    assert Distinct([x, y], {}) == [x] + Distinct([y], {} + {Id(x)});
    assert Distinct([y], {} + {Id(x)}) == [y];
    assert [x] + [y] == [x, y];
    assert Weights([x, y]) == [x.weight, y.weight];
    assert x.detector !in STRUCTURED;
    assert forall m | m in [x, y] :: m == x || m == y;
  }

  lemma ScoreWithBallast(k: nat, w: int)
    requires -5 * k < w <= 2 * k
    ensures Score([-5 * k, w], false) == w - 2 * k
  {
    SumOfOne(-5 * k);
    assert [-5 * k, w][..1] == [-5 * k];
    assert Fifths([-5 * k, w], false) == 5 * (w - 2 * k);
  }

  lemma SumOfOne(w: int)
    ensures Sum([w]) == w && Maximum([w]) == w
  {
    assert [w][..0] == [];
    assert Sum([w]) == Sum([]) + w;
  }

  /** Of two findings of one value the first counts. Finding the value earlier, as `m`, lowers no score
      exactly when `m` is not lighter than the finding it replaces. */
  lemma OnlyLighterFindingsLower(m: Match, later: Match)
    requires Id(m) == Id(later)
    ensures later.weight <= m.weight <==>
      forall a: seq<Match>, b: seq<Match> :: FindingsScore(a + [later] + b) <= FindingsScore(a + [m, later] + b)
  {
    if later.weight <= m.weight {
      forall a: seq<Match>, b: seq<Match>
        ensures FindingsScore(a + [later] + b) <= FindingsScore(a + [m, later] + b)
      {
        var rest := [later] + b;
        assert rest[1..] == b;
        IdsOfFirst(rest);
        FindingNeverLowersScore(a, m, rest);
        assert a + rest == a + [later] + b && a + [m] + rest == a + [m, later] + b;
      }
    } else {
      var k := Magnitude(m.weight) + Magnitude(later.weight) + 1;
      var other := Match("source_code", m.key + "'", -5 * k);
      ScoreOfTwo(other, later);
      ScoreOfTwo(other, m);
      ScoreWithBallast(k, later.weight);
      ScoreWithBallast(k, m.weight);
      LaterIsDropped(other, m, later);
      assert [other] + [later] + [] == [other, later] && [other] + [m, later] + [] == [other, m, later];
      assert FindingsScore([other] + [later] + []) > FindingsScore([other] + [m, later] + []);
    }
  }

  function Magnitude(n: int): nat { if n < 0 then -n else n }

  lemma LaterIsDropped(other: Match, m: Match, later: Match)
    requires Id(m) == Id(later)
    ensures FindingsScore([other, m, later]) == FindingsScore([other, m])
  {
    assert Id(m) in Ids([other, m]);
    RepeatChangesNothing([other, m], later, []);
    assert [other, m] + [later] + [] == [other, m, later] && [other, m] + [] == [other, m];
  }

  /** A value that is found nowhere else lowers no score exactly when its weight is not negative. */
  lemma OnlyNegativeFindingsLower(m: Match)
    ensures m.weight >= 0 <==>
      forall a: seq<Match>, b: seq<Match> | Id(m) !in Ids(a) && Id(m) !in Ids(b) ::
        FindingsScore(a + b) <= FindingsScore(a + [m] + b)
  {
    if m.weight >= 0 {
      forall a: seq<Match>, b: seq<Match> | Id(m) !in Ids(a) && Id(m) !in Ids(b)
        ensures FindingsScore(a + b) <= FindingsScore(a + [m] + b)
      {
        FindingNeverLowersScore(a, m, b);
      }
    } else {
      var none: seq<Match> := [];
      ScoreOfOne(m);
      assert Id(m) !in Ids(none);
      assert none + [m] + none == [m] && none + none == none;
      assert FindingsScore(none + none) > FindingsScore(none + [m] + none);
    }
  }

  lemma ScoreOfOne(m: Match)
    ensures FindingsScore([]) == 0
    ensures FindingsScore([m]) == if m.weight > 100 then 100 else m.weight
  {
    assert [m][1..] == [];
    assert Distinct([m], {}) == [m] && Weights([m]) == [m.weight];
    SumOfOne(m.weight);
    assert !Combo([m]);
  }

  /** An input: the same text match reported with little confidence first, then with more. */
  lemma LighterFirstExample()
    ensures FindingsScore([Match("ai_text", "x", 50)]) == 50
    ensures FindingsScore([Match("ai_text", "x", 1), Match("ai_text", "x", 50)]) == 1
  {
    var light, heavy := Match("ai_text", "x", 1), Match("ai_text", "x", 50);
    ScoreOfOne(heavy);
    ScoreOfOne(light);
    assert Id(light) in Ids([light]);
    RepeatChangesNothing([light], heavy, []);
    assert [light] + [heavy] + [] == [light, heavy] && [light] + [] == [light];
  }
}

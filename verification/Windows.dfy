/** Pattern detectors over text of any length, window by window. */
module Windows {
  import opened Seqs
  import opened Utf8
  import opened Verdicts

  const WINDOW := 4 * 1024 * 1024
  const WINDOW_OVERLAP := 64 * 1024

  datatype Window = Window(start: nat, end: nat)

  function Max(a: nat, b: nat): nat { if a > b then a else b }

  function WindowEnd(b: Bytes, start: nat): nat
    requires start <= |b|
  {
    FloorBoundary(b, Min(start + WINDOW, |b|))
  }

  function NextStart(b: Bytes, start: nat, end: nat): nat
    requires start <= end <= |b|
  {
    Max(FloorBoundary(b, end - Min(WINDOW_OVERLAP, end - start)), start + 1)
  }

  /** One round of the walk: the window does not run backwards, ends on a boundary at most three
      bytes early, and the next one starts on a boundary inside it. */
  lemma OneRound(b: Bytes, start: nat)
    requires IsText(b) && start < |b| && IsBoundary(b, start)
    ensures var end := WindowEnd(b, start);
      && start <= end <= |b| && end - start <= WINDOW && IsBoundary(b, end)
      && (end < |b| ==>
        var next := NextStart(b, start, end);
        && IsBoundary(b, next)
        && start + WINDOW - WINDOW_OVERLAP - 6 <= next <= end - WINDOW_OVERLAP)
  {
    var target := Min(start + WINDOW, |b|);
    FloorIsClose(b, target);
    var end := WindowEnd(b, start);
    assert start <= end;
    if end < |b| {
      assert target == start + WINDOW;
      FloorIsClose(b, end - WINDOW_OVERLAP);
    }
  }

  /** Every window of a text, from `start` on, when nothing ends the walk early. */
  function Walk(b: Bytes, start: nat): seq<Window>
    requires IsText(b) && start <= |b| && IsBoundary(b, start)
    decreases |b| - start
  {
    if start >= |b| then []
    else
      OneRound(b, start);
      var end := WindowEnd(b, start);
      [Window(start, end)] + if end == |b| then [] else Walk(b, NextStart(b, start, end))
  }

  /** The windows of a text: a short one is its own only window. */
  function WindowsOf(b: Bytes): seq<Window>
    requires IsText(b)
  {
    if |b| <= WINDOW then [Window(0, |b|)] else Walk(b, 0)
  }

  ghost predicate WellCut(b: Bytes, w: Window) {
    && w.start <= w.end <= |b| && IsBoundary(b, w.start) && IsBoundary(b, w.end)
    && w.end - w.start <= 4_194_304
  }

  /** `next` starts well after `w` does, and well before it ends. */
  ghost predicate Follows(w: Window, next: Window) {
    w.start + 4_194_304 - 65_536 - 6 <= next.start <= w.end - 65_536
  }

  ghost predicate AllCut(b: Bytes, ws: seq<Window>) {
    forall k | 0 <= k < |ws| :: WellCut(b, ws[k])
  }

  ghost predicate WellLinked(b: Bytes, ws: seq<Window>) {
    && AllCut(b, ws)
    && (forall k | 0 <= k < |ws| - 1 :: Follows(ws[k], ws[k + 1]))
  }

  predicate Within(i: nat, j: nat, w: Window) { w.start <= i && j <= w.end }

  lemma {:induction false} WalkIsWellLinked(b: Bytes, start: nat)
    requires IsText(b) && start < |b| && IsBoundary(b, start)
    ensures var ws := Walk(b, start);
      WellLinked(b, ws) && |ws| > 0 && ws[0].start == start && ws[|ws| - 1].end == |b|
    decreases |b| - start
  {
    OneRound(b, start);
    var end := WindowEnd(b, start);
    if end < |b| {
      var next := NextStart(b, start, end);
      WalkIsWellLinked(b, next);
      Prepend(b, Window(start, end), Walk(b, next));
    } else {
      assert Walk(b, start) == [Window(start, end)];
    }
  }

  lemma Prepend(b: Bytes, w: Window, ws: seq<Window>)
    requires WellLinked(b, ws) && WellCut(b, w) && |ws| > 0 && Follows(w, ws[0])
    ensures WellLinked(b, [w] + ws)
  {
    var all := [w] + ws;
    forall k | 0 <= k < |all| - 1 ensures Follows(all[k], all[k + 1]) {
      if k > 0 { assert Follows(ws[k - 1], ws[k - 1 + 1]); }
    }
  }

  /** All slices are texts, cut between characters; each window but the first starts at least
      WINDOW - OVERLAP - 6 bytes after the one before it, and at least OVERLAP before its end. */
  lemma WindowsAreWellCut(b: Bytes)
    requires IsText(b)
    ensures var ws := WindowsOf(b);
      && WellLinked(b, ws) && |ws| > 0 && ws[0].start == 0 && ws[|ws| - 1].end == |b|
      && forall k | 0 <= k < |ws| :: IsText(b[ws[k].start..ws[k].end])
  {
    if |b| > WINDOW {
      WalkIsWellLinked(b, 0);
    }
    var ws := WindowsOf(b);
    forall k | 0 <= k < |ws| ensures IsText(b[ws[k].start..ws[k].end]) {
      assert WellCut(b, ws[k]);
      SliceIsText(b, ws[k].start, ws[k].end);
    }
  }

  /** Nothing short falls between windows: every stretch of at most OVERLAP bytes lies in one. */
  lemma EveryStretchInAWindow(b: Bytes, i: nat, j: nat) returns (k: nat)
    requires IsText(b) && i <= j <= |b| && j - i <= 65_536
    ensures k < |WindowsOf(b)| && Within(i, j, WindowsOf(b)[k])
  {
    WindowsAreWellCut(b);
    var ws := WindowsOf(b);
    k := 0;
    while j > ws[k].end
      invariant k < |ws| && ws[k].start <= i
      decreases |ws| - k
    {
      assert k + 1 < |ws| && Follows(ws[k], ws[k + 1]);
      k := k + 1;
    }
  }

  function Slice(b: Bytes, w: Window): Bytes
    requires w.start <= w.end <= |b|
  {
    b[w.start..w.end]
  }

  /** What the detectors say about each window. */
  ghost function Judged(detect: Bytes -> Verdict, b: Bytes, ws: seq<Window>): (vs: seq<Verdict>)
    requires AllCut(b, ws)
    ensures |vs| == |ws|
  {
    if ws == [] then []
    else
      assert WellCut(b, ws[0]);
      [detect(Slice(b, ws[0]))] + Judged(detect, b, ws[1..])
  }

  lemma {:induction false} JudgedAt(detect: Bytes -> Verdict, b: Bytes, ws: seq<Window>, k: nat)
    requires AllCut(b, ws) && k < |ws|
    ensures WellCut(b, ws[k]) && Judged(detect, b, ws)[k] == detect(Slice(b, ws[k]))
  {
    if k > 0 {
      JudgedAt(detect, b, ws[1..], k - 1);
    }
  }

  /** The verdict of a text: of its only window, or the fold of all, given up at the first block. */
  ghost function TextVerdict(detect: Bytes -> Verdict, b: Bytes): Verdict
    requires IsText(b)
  {
    WindowsAreWellCut(b);
    if |b| <= WINDOW then detect(b) else FoldToBlock(NOTHING, Judged(detect, b, WindowsOf(b)))
  }

  /** The loop the code runs wherever it must not cut a character: back to a boundary. */
  method WalkBack(text: Bytes, at: nat) returns (i: nat)
    requires at <= |text|
    ensures i == FloorBoundary(text, at)
  {
    i := at;
    while !IsBoundary(text, i)
      invariant i <= |text| && FloorBoundary(text, i) == FloorBoundary(text, at)
      decreases i
    {
      i := i - 1;
    }
  }

  /** What the walk from `start` on makes of the worst verdict so far. */
  ghost function Rest(detect: Bytes -> Verdict, b: Bytes, start: nat, worst: Verdict): Verdict
    requires IsText(b) && start < |b| && IsBoundary(b, start)
    decreases |b| - start
  {
    OneRound(b, start);
    var end := WindowEnd(b, start);
    var w := worst.Max(detect(b[start..end]));
    if w.IsBlock() || end == |b| then w else Rest(detect, b, NextStart(b, start, end), w)
  }

  lemma JudgedFirst(detect: Bytes -> Verdict, b: Bytes, w: Window, ws: seq<Window>)
    requires WellCut(b, w) && AllCut(b, ws)
    ensures AllCut(b, [w] + ws)
    ensures Judged(detect, b, [w] + ws) == [detect(b[w.start..w.end])] + Judged(detect, b, ws)
  {
    assert ([w] + ws)[1..] == ws;
  }

  /** The walk that judges as it goes is the fold over all the windows. */
  lemma {:induction false} RestIsFold(detect: Bytes -> Verdict, b: Bytes, start: nat, worst: Verdict)
    requires IsText(b) && start < |b| && IsBoundary(b, start)
    ensures AllCut(b, Walk(b, start))
    ensures Rest(detect, b, start, worst) == FoldToBlock(worst, Judged(detect, b, Walk(b, start)))
    decreases |b| - start
  {
    WalkIsWellLinked(b, start);
    OneRound(b, start);
    var end := WindowEnd(b, start);
    var w, v := Window(start, end), detect(b[start..end]);
    if end == |b| {
      assert Walk(b, start) == [w] + [];
      JudgedFirst(detect, b, w, []);
      FoldFirst(worst, v, []);
    } else {
      var next := NextStart(b, start, end);
      WalkIsWellLinked(b, next);
      JudgedFirst(detect, b, w, Walk(b, next));
      FoldFirst(worst, v, Judged(detect, b, Walk(b, next)));
      if !worst.Max(v).IsBlock() {
        RestIsFold(detect, b, next, worst.Max(v));
      }
    }
  }

  lemma WholeWalk(detect: Bytes -> Verdict, b: Bytes)
    requires IsText(b) && |b| > WINDOW
    ensures TextVerdict(detect, b) == Rest(detect, b, 0, NOTHING)
  {
    RestIsFold(detect, b, 0, NOTHING);
  }

  method WalkToEnd(text: Bytes, start: nat) returns (end: nat)
    requires start <= |text|
    ensures end == WindowEnd(text, start)
  {
    end := WalkBack(text, Min(start + WINDOW, |text|));
  }

  method WalkToNext(text: Bytes, start: nat, end: nat) returns (next: nat)
    requires start <= end <= |text|
    ensures next == NextStart(text, start, end)
  {
    next := WalkBack(text, end - Min(WINDOW_OVERLAP, end - start));
    next := Max(next, start + 1);
  }

  method DetectWindowed(text: Bytes, detect: Bytes -> Verdict) returns (r: Verdict)
    requires IsText(text)
    ensures r == TextVerdict(detect, text)
  {
    if |text| <= WINDOW {
      return detect(text);
    }
    var worst := NOTHING;
    var start := 0;
    ghost var whole := Rest(detect, text, 0, NOTHING);
    while start < |text|
      invariant start < |text| && IsBoundary(text, start)
      invariant whole == Rest(detect, text, start, worst)
      decreases |text| - start
    {
      OneRound(text, start);
      var end := WalkToEnd(text, start);
      var v := detect(text[start..end]);
      worst := worst.Max(v);
      if worst.IsBlock() || end == |text| {
        WholeWalk(detect, text);
        return worst;
      }
      start := WalkToNext(text, start, end);
    }
    return worst;
  }

  lemma {:induction false} BlockIsSeen(worst: Verdict, vs: seq<Verdict>, k: nat)
    requires !worst.IsBlock() && k < |vs| && vs[k].matched && vs[k].IsBlock()
    ensures FoldToBlock(worst, vs).IsBlock()
    decreases |vs|
  {
    var w := worst.Max(vs[0]);
    if !w.IsBlock() {
      BlockIsSeen(w, vs[1..], k - 1);
    }
  }

  lemma SliceOfSlice(b: Bytes, w: Window, i: nat, j: nat)
    requires i <= j && Within(i, j, w) && w.end <= |b|
    ensures Slice(b, w)[i - w.start..j - w.start] == b[i..j]
  {
    var x, y := Slice(b, w)[i - w.start..j - w.start], b[i..j];
    forall k | 0 <= k < |x| ensures x[k] == y[k] {
      assert x[k] == b[w.start..w.end][i - w.start + k] == b[i + k];
    }
  }

  lemma WindowBlocks(detect: Bytes -> Verdict, b: Bytes, k: nat)
    requires IsText(b) && k < |WindowsOf(b)|
    requires WellCut(b, WindowsOf(b)[k])
    requires var v := detect(Slice(b, WindowsOf(b)[k])); v.matched && v.IsBlock()
    ensures TextVerdict(detect, b).IsBlock()
  {
    WindowsAreWellCut(b);
    if |b| <= WINDOW {
      assert Slice(b, WindowsOf(b)[k]) == b;
    } else {
      JudgedAt(detect, b, WindowsOf(b), k);
      BlockIsSeen(NOTHING, Judged(detect, b, WindowsOf(b)), k);
    }
  }

  /** Cutting a text into windows never hides a passage of at most 64 KiB that is blocked in every
      window it could lie in, whatever else stands in that window. */
  lemma NothingShortIsMissed(detect: Bytes -> Verdict, b: Bytes, i: nat, j: nat)
    requires IsText(b) && i <= j <= |b| && j - i <= 65_536
    requires forall w: Window | WellCut(b, w) && Within(i, j, w) ::
      var v := detect(Slice(b, w)); v.matched && v.IsBlock()
    ensures TextVerdict(detect, b).IsBlock()
  {
    WindowsAreWellCut(b);
    var k := EveryStretchInAWindow(b, i, j);
    var w := WindowsOf(b)[k];
    assert WellCut(b, w) && Within(i, j, w);
    WindowBlocks(detect, b, k);
  }

  // ----- values between word boundaries -----

  /** `value` stands at `p` with no word byte before or after it: a pattern between two `\b`. */
  ghost predicate StandsAt(x: Bytes, p: nat, value: Bytes, word: Byte -> bool) {
    && p + |value| <= |x| && x[p..p + |value|] == value
    && (p == 0 || !word(x[p - 1]))
    && (p + |value| == |x| || !word(x[p + |value|]))
  }

  /** The detectors block every text in which `value` stands between word boundaries. */
  ghost predicate BlocksDelimited(detect: Bytes -> Verdict, value: Bytes, word: Byte -> bool) {
    forall x: Bytes, p: nat | StandsAt(x, p, value, word) :: var v := detect(x); v.matched && v.IsBlock()
  }

  lemma StandsInWindow(b: Bytes, w: Window, i: nat, value: Bytes, word: Byte -> bool)
    requires WellCut(b, w) && Within(i, i + |value|, w) && StandsAt(b, i, value, word)
    ensures StandsAt(Slice(b, w), i - w.start, value, word)
  {
    SliceOfSlice(b, w, i, i + |value|);
    var x, p := Slice(b, w), i - w.start;
    assert p > 0 ==> x[p - 1] == b[i - 1];
    assert p + |value| < |x| ==> x[p + |value|] == b[i + |value|];
  }

  /** Nor does it hide a value between word boundaries: the edge of a window is one, and elsewhere the
      value's neighbours in the window are those in the text. */
  lemma DelimitedValueIsSeen(detect: Bytes -> Verdict, b: Bytes, i: nat, value: Bytes, word: Byte -> bool)
    requires IsText(b) && |value| <= 65_536
    requires BlocksDelimited(detect, value, word) && StandsAt(b, i, value, word)
    ensures TextVerdict(detect, b).IsBlock()
  {
    forall w: Window | WellCut(b, w) && Within(i, i + |value|, w)
      ensures var v := detect(Slice(b, w)); v.matched && v.IsBlock()
    {
      StandsInWindow(b, w, i, value, word);
    }
    NothingShortIsMissed(detect, b, i, i + |value|);
  }
}

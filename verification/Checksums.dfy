/** Numbers as digit strings, as the check-digit algorithms of the detectors see them. */
module Digits {

  type Digit = d: nat | d < 10

  predicate IsDigit(c: char) { '0' <= c <= '9' }

  predicate AllDigits(s: string) { forall i | 0 <= i < |s| :: '0' <= s[i] <= '9' }

  function Val(c: char): Digit
    requires IsDigit(c)
  {
    c as int - '0' as int
  }

  function Values(s: string): (ds: seq<Digit>)
    requires AllDigits(s)
    ensures |ds| == |s|
  {
    seq(|s|, i requires 0 <= i < |s| => Val(s[i]))
  }

  function Swap(s: seq<Digit>, i: nat): (r: seq<Digit>)
    requires i + 1 < |s|
    ensures |r| == |s|
  {
    s[i := s[i + 1]][i + 1 := s[i]]
  }

  /** The last `i` characters, one more taken: what one round of a right-to-left loop adds. */
  lemma {:induction false} TakeOneMore(s: string, i: nat)
    requires i < |s| && AllDigits(s[|s| - i..]) && IsDigit(s[|s| - 1 - i])
    ensures AllDigits(s[|s| - (i + 1)..])
    ensures Values(s[|s| - (i + 1)..]) == [Val(s[|s| - 1 - i])] + Values(s[|s| - i..])
  {
    var more, rest := s[|s| - (i + 1)..], s[|s| - i..];
    assert more == [s[|s| - 1 - i]] + rest;
  }

  // ----- right-to-left folds -----

  /** One round: running value, position from the right, digit. */
  type Step = (Digit, nat, Digit) -> Digit

  /** Running value after the digits of `s`, right to left, when `right` digits were already taken
      and the running value was `c`. */
  function Fold(f: Step, s: seq<Digit>, right: nat, c: Digit): Digit {
    if s == [] then c else f(Fold(f, s[1..], right, c), right + |s| - 1, s[0])
  }

  /** The last `i` characters are digits, and `c` is the running value after them. */
  ghost predicate FoldsTo(f: Step, s: string, i: nat, c: Digit)
    requires i <= |s|
  {
    AllDigits(s[|s| - i..]) && c == Fold(f, Values(s[|s| - i..]), 0, 0)
  }

  lemma FoldsOneMore(f: Step, s: string, i: nat, c: Digit)
    requires i < |s| && FoldsTo(f, s, i, c) && IsDigit(s[|s| - 1 - i])
    ensures FoldsTo(f, s, i + 1, f(c, i, Val(s[|s| - 1 - i])))
  {
    TakeOneMore(s, i);
    var more := Values(s[|s| - (i + 1)..]);
    assert more[1..] == Values(s[|s| - i..]);
  }

  /** `back` undoes a round of `f`. */
  ghost predicate Undoes(f: Step, back: Step) {
    && (forall c, i, d :: back(f(c, i, d), i, d) == c)
    && (forall c, i, d :: f(back(c, i, d), i, d) == c)
  }

  lemma {:induction false} FoldAppend(f: Step, s: seq<Digit>, t: seq<Digit>, right: nat, c: Digit)
    ensures Fold(f, s + t, right, c) == Fold(f, s, right + |t|, Fold(f, t, right, c))
  {
    if s == [] {
      assert s + t == t;
    } else {
      assert (s + t)[1..] == s[1..] + t;
      FoldAppend(f, s[1..], t, right, c);
    }
  }

  /** Different running values stay different. */
  lemma {:induction false} FoldInjective(f: Step, back: Step, s: seq<Digit>, right: nat, c: Digit, c': Digit)
    requires Undoes(f, back) && c != c'
    ensures Fold(f, s, right, c) != Fold(f, s, right, c')
  {
    if s != [] {
      FoldInjective(f, back, s[1..], right, c, c');
      var x, x' := Fold(f, s[1..], right, c), Fold(f, s[1..], right, c');
      assert back(f(x, right + |s| - 1, s[0]), right + |s| - 1, s[0]) == x;
    }
  }

  lemma {:induction false} FoldThree(f: Step, u: seq<Digit>, m: seq<Digit>, v: seq<Digit>)
    ensures Fold(f, u + (m + v), 0, 0) == Fold(f, u, |m| + |v|, Fold(f, m, |v|, Fold(f, v, 0, 0)))
  {
    FoldAppend(f, m, v, 0, 0);
    FoldAppend(f, u, m + v, 0, 0);
  }

  /** Replacing the middle of a number changes the outcome exactly when it changes the middle's. */
  lemma {:induction false} FoldMiddle(f: Step, back: Step, u: seq<Digit>, m: seq<Digit>, m': seq<Digit>, v: seq<Digit>)
    requires Undoes(f, back) && |m| == |m'|
    ensures Fold(f, u + (m + v), 0, 0) == Fold(f, u + (m' + v), 0, 0)
            <==> Fold(f, m, |v|, Fold(f, v, 0, 0)) == Fold(f, m', |v|, Fold(f, v, 0, 0))
  {
    FoldThree(f, u, m, v);
    FoldThree(f, u, m', v);
    var x, x' := Fold(f, m, |v|, Fold(f, v, 0, 0)), Fold(f, m', |v|, Fold(f, v, 0, 0));
    if x != x' {
      FoldInjective(f, back, u, |m| + |v|, x, x');
    }
  }

  lemma FoldChange(f: Step, back: Step, s: seq<Digit>, i: nat, d: Digit)
    requires Undoes(f, back) && i < |s|
    ensures var right := |s| - i - 1; var c := Fold(f, s[i + 1..], 0, 0);
      Fold(f, s, 0, 0) == Fold(f, s[i := d], 0, 0) <==> f(c, right, s[i]) == f(c, right, d)
  {
    var u, v := s[..i], s[i + 1..];
    assert s == u + ([s[i]] + v) && s[i := d] == u + ([d] + v);
    FoldMiddle(f, back, u, [s[i]], [d], v);
  }

  lemma FoldSwap(f: Step, back: Step, s: seq<Digit>, i: nat)
    requires Undoes(f, back) && i + 1 < |s|
    ensures var right := |s| - i - 2; var c := Fold(f, s[i + 2..], 0, 0); var a, b := s[i], s[i + 1];
      Fold(f, s, 0, 0) == Fold(f, Swap(s, i), 0, 0)
      <==> f(f(c, right, b), right + 1, a) == f(f(c, right, a), right + 1, b)
  {
    var a, b := s[i], s[i + 1];
    var u, v := s[..i], s[i + 2..];
    SwapSplit(s, i);
    FoldMiddle(f, back, u, [a, b], [b, a], v);
    FoldTwo(f, a, b, |v|, Fold(f, v, 0, 0));
    FoldTwo(f, b, a, |v|, Fold(f, v, 0, 0));
  }

  /** If every outcome of a round tells `s[i]` from `d`, a valid number with `d` there is not valid. */
  lemma ChangeCaught(f: Step, back: Step, s: seq<Digit>, i: nat, d: Digit)
    requires Undoes(f, back) && i < |s| && Fold(f, s, 0, 0) == 0
    requires forall c: Digit, r: nat :: f(c, r, s[i]) != f(c, r, d)
    ensures Fold(f, s[i := d], 0, 0) != 0
  {
    FoldChange(f, back, s, i, d);
  }

  /** Whether a swap in a valid number is caught is decided by two rounds on the swapped digits. */
  lemma SwapCaught(f: Step, back: Step, s: seq<Digit>, i: nat, caught: bool)
    requires Undoes(f, back) && i + 1 < |s| && Fold(f, s, 0, 0) == 0
    requires forall c: Digit, r: nat ::
      f(f(c, r, s[i + 1]), r + 1, s[i]) != f(f(c, r, s[i]), r + 1, s[i + 1]) <==> caught
    ensures Fold(f, Swap(s, i), 0, 0) != 0 <==> caught
  {
    FoldSwap(f, back, s, i);
    var right, c := |s| - i - 2, Fold(f, s[i + 2..], 0, 0);
    assert f(f(c, right, s[i + 1]), right + 1, s[i]) != f(f(c, right, s[i]), right + 1, s[i + 1]) <==> caught;
  }

  lemma SwapSplit(s: seq<Digit>, i: nat)
    requires i + 1 < |s|
    ensures s == s[..i] + ([s[i], s[i + 1]] + s[i + 2..])
    ensures Swap(s, i) == s[..i] + ([s[i + 1], s[i]] + s[i + 2..])
  {
  }

  lemma FoldTwo(f: Step, a: Digit, b: Digit, right: nat, c: Digit)
    ensures Fold(f, [a, b], right, c) == f(f(c, right, b), right + 1, a)
  {
    assert [a, b][1..] == [b];
    assert Fold(f, [b], right, c) == f(c, right, b);
  }

  /** The running value before the digits of `s` that leads to `target` after them. */
  function Unfold(f: Step, back: Step, s: seq<Digit>, right: nat, target: Digit): Digit {
    if s == [] then target else Unfold(f, back, s[1..], right, back(target, right + |s| - 1, s[0]))
  }

  lemma {:induction false} UnfoldFolds(f: Step, back: Step, s: seq<Digit>, right: nat, target: Digit)
    requires Undoes(f, back)
    ensures Fold(f, s, right, Unfold(f, back, s, right, target)) == target
  {
    if s != [] {
      UnfoldFolds(f, back, s[1..], right, back(target, right + |s| - 1, s[0]));
    }
  }

  /** When position 0 contributes its digit unchanged, every number has exactly one check digit. */
  lemma FoldCheckDigit(f: Step, back: Step, s: seq<Digit>) returns (check: Digit)
    requires Undoes(f, back)
    requires forall d: Digit :: f(0, 0, d) == d
    ensures forall d: Digit :: Fold(f, s + [d], 0, 0) == 0 <==> d == check
  {
    check := Unfold(f, back, s, 1, 0);
    UnfoldFolds(f, back, s, 1, 0);
    forall d: Digit ensures Fold(f, s + [d], 0, 0) == 0 <==> d == check {
      FoldAppend(f, s, [d], 0, 0);
      assert Fold(f, [d], 0, 0) == d;
      if d != check {
        FoldInjective(f, back, s, 1, d, check);
      }
    }
  }
}

/** Verhoeff's check digit (Aadhaar numbers). */
module Verhoeff {
  import opened Digits

  const VERHOEFF_D: seq<seq<nat>> := [
    [0, 1, 2, 3, 4, 5, 6, 7, 8, 9],
    [1, 2, 3, 4, 0, 6, 7, 8, 9, 5],
    [2, 3, 4, 0, 1, 7, 8, 9, 5, 6],
    [3, 4, 0, 1, 2, 8, 9, 5, 6, 7],
    [4, 0, 1, 2, 3, 9, 5, 6, 7, 8],
    [5, 9, 8, 7, 6, 0, 4, 3, 2, 1],
    [6, 5, 9, 8, 7, 1, 0, 4, 3, 2],
    [7, 6, 5, 9, 8, 2, 1, 0, 4, 3],
    [8, 7, 6, 5, 9, 3, 2, 1, 0, 4],
    [9, 8, 7, 6, 5, 4, 3, 2, 1, 0]
  ]

  const VERHOEFF_P: seq<seq<nat>> := [
    [0, 1, 2, 3, 4, 5, 6, 7, 8, 9],
    [1, 5, 7, 6, 2, 8, 3, 0, 9, 4],
    [5, 8, 0, 3, 7, 9, 6, 1, 4, 2],
    [8, 9, 1, 6, 0, 4, 3, 5, 2, 7],
    [9, 4, 5, 3, 1, 2, 6, 8, 7, 0],
    [4, 2, 8, 6, 5, 7, 3, 9, 0, 1],
    [2, 7, 9, 3, 8, 0, 6, 4, 1, 5],
    [7, 0, 4, 6, 9, 1, 3, 2, 5, 8]
  ]

  /** The group operation the table D spells out: the symmetries of a pentagon. */
  function Dihedral(a: Digit, b: Digit): (r: Digit)
  {
    if a < 5 then
      if b < 5 then Wrap5(a + b) else 5 + Wrap5(a + b - 5)
    else
      if b < 5 then 5 + Wrap5(a - b - 5) else Wrap5(a - b)
  }

  function Wrap5(n: int): (r: Digit)
    requires -5 <= n < 10
    ensures r < 5
  {
    if n < 0 then n + 5 else if n >= 5 then n - 5 else n
  }

  lemma RotationRows(a: Digit, b: Digit)
    requires a < 5
    ensures |VERHOEFF_D| == 10 && |VERHOEFF_D[a]| == 10
    ensures VERHOEFF_D[a][b] == Dihedral(a, b)
  {
  }

  lemma ReflectionRows(a: Digit, b: Digit)
    requires a >= 5
    ensures |VERHOEFF_D| == 10 && |VERHOEFF_D[a]| == 10
    ensures VERHOEFF_D[a][b] == Dihedral(a, b)
  {
  }

  lemma TableD(a: Digit, b: Digit)
    ensures |VERHOEFF_D| == 10 && |VERHOEFF_D[a]| == 10
    ensures VERHOEFF_D[a][b] == Dihedral(a, b)
  {
    if a < 5 {
      RotationRows(a, b);
    } else {
      ReflectionRows(a, b);
    }
  }

  /** The permutation behind the table P, and its powers. */
  function Sigma(x: Digit): (r: Digit)
  {
    if x == 0 then 1 else if x == 1 then 5 else if x == 2 then 7 else if x == 3 then 6 else if x == 4 then 2
    else if x == 5 then 8 else if x == 6 then 3 else if x == 7 then 0 else if x == 8 then 9 else 4
  }

  function SigmaPower(i: nat, x: Digit): (r: Digit)
  {
    if i == 0 then x else Sigma(SigmaPower(i - 1, x))
  }

  lemma TableP(i: nat, x: Digit)
    requires i < 8
    ensures |VERHOEFF_P| == 8 && |VERHOEFF_P[i]| == 10
    ensures VERHOEFF_P[i][x] == SigmaPower(i, x)
  {
    if i == 0 {
    } else {
      TableP(i - 1, x);
      TablePStep(i - 1, x);
    }
  }

  lemma TablePStep(i: nat, x: Digit)
    requires i < 7
    ensures |VERHOEFF_P| == 8 && |VERHOEFF_P[i]| == 10 && |VERHOEFF_P[i + 1]| == 10
    ensures VERHOEFF_P[i][x] < 10 && VERHOEFF_P[i + 1][x] == Sigma(VERHOEFF_P[i][x])
  {
  }

  /** The eight rows close a cycle, so a position may be taken modulo 8. */
  lemma SigmaCycle(x: Digit)
    ensures SigmaPower(8, x) == x
  {
    TableP(7, x);
    TableP(0, x);
    LastRow(x);
  }

  lemma LastRow(x: Digit)
    ensures |VERHOEFF_P| == 8 && |VERHOEFF_P[7]| == 10 && VERHOEFF_P[7][x] < 10
    ensures Sigma(VERHOEFF_P[7][x]) == x
  {
  }

  lemma {:induction false} SigmaInjective(i: nat, x: Digit, y: Digit)
    requires x != y
    ensures SigmaPower(i, x) != SigmaPower(i, y)
  {
    if i > 0 {
      SigmaInjective(i - 1, x, y);
    }
  }

  /** What catches a swap: u * sigma(v) is never v * sigma(u). */
  lemma SigmaTwist(u: Digit, v: Digit)
    requires u != v
    ensures Dihedral(u, Sigma(v)) != Dihedral(v, Sigma(u))
  {
  }

  // The group laws.

  function Inverse(a: Digit): (r: Digit)
  {
    if 0 < a < 5 then 5 - a else a
  }

  lemma AssociativeAfterRotation(a: Digit, b: Digit, c: Digit)
    requires a < 5
    ensures Dihedral(Dihedral(a, b), c) == Dihedral(a, Dihedral(b, c))
  {
  }

  lemma AssociativeAfterReflection(a: Digit, b: Digit, c: Digit)
    requires a >= 5
    ensures Dihedral(Dihedral(a, b), c) == Dihedral(a, Dihedral(b, c))
  {
  }

  lemma Associative(a: Digit, b: Digit, c: Digit)
    ensures Dihedral(Dihedral(a, b), c) == Dihedral(a, Dihedral(b, c))
  {
    if a < 5 {
      AssociativeAfterRotation(a, b, c);
    } else {
      AssociativeAfterReflection(a, b, c);
    }
  }

  lemma Unit(a: Digit)
    ensures Dihedral(0, a) == a && Dihedral(a, 0) == a
  {
  }

  lemma CancelLeft(a: Digit, b: Digit, c: Digit)
    ensures Dihedral(a, b) == Dihedral(a, c) ==> b == c
  {
  }

  lemma CancelRight(a: Digit, b: Digit)
    ensures Dihedral(Dihedral(b, a), Inverse(a)) == b
    ensures Dihedral(Dihedral(b, Inverse(a)), a) == b
  {
  }

  /** What digit `d` contributes at position `i`, counted from the right. */
  function Term(i: nat, d: Digit): Digit {
    SigmaPower(i % 8, d)
  }

  function Round(c: Digit, i: nat, d: Digit): Digit {
    Dihedral(c, Term(i, d))
  }

  function RoundBack(c: Digit, i: nat, d: Digit): Digit {
    Dihedral(c, Inverse(Term(i, d)))
  }

  lemma RoundUndone()
    ensures Undoes(Round, RoundBack)
  {
    forall c: Digit, i: nat, d: Digit
      ensures RoundBack(Round(c, i, d), i, d) == c && Round(RoundBack(c, i, d), i, d) == c
    {
      CancelRight(Term(i, d), c);
    }
  }

  predicate Valid(s: seq<Digit>) {
    Fold(Round, s, 0, 0) == 0
  }

  method IsValid(digits: string) returns (valid: bool)
    ensures valid <==> AllDigits(digits) && Valid(Values(digits))
  {
    var c: nat := 0;
    var i := 0;
    while i < |digits|
      invariant i <= |digits| && c < 10
      invariant FoldsTo(Round, digits, i, c)
    {
      var ch := digits[|digits| - 1 - i];
      if !IsDigit(ch) {
        return false;
      }
      TableP(i % 8, Val(ch));
      TableD(c, VERHOEFF_P[i % 8][Val(ch)]);
      FoldsOneMore(Round, digits, i, c);
      c := VERHOEFF_D[c][VERHOEFF_P[i % 8][Val(ch)]];
      i := i + 1;
    }
    assert digits[0..] == digits;
    return c == 0;
  }

  lemma OneMoreDigit(s: seq<Digit>, d: Digit, c: Digit) returns (t: seq<Digit>)
    requires Fold(Round, s, 0, 0) == c
    ensures t == [d] + s && Fold(Round, t, 0, 0) == Round(c, |s|, d)
  {
    t := [d] + s;
    assert t[1..] == s;
  }

  /** The terms of 12345 and its check digit, from the right, and of 236 and its own. */
  lemma KnownTerms()
    ensures Term(0, 1) == 1 && Term(1, 5) == 8 && Term(2, 4) == 7 && Term(3, 3) == 6
    ensures Term(4, 2) == 5 && Term(5, 1) == 2
    ensures Term(0, 3) == 3 && Term(1, 6) == 3 && Term(2, 3) == 3 && Term(3, 2) == 1
  {
    assert SigmaPower(1, 5) == 8 && SigmaPower(1, 6) == 3;
    assert SigmaPower(2, 4) == Sigma(SigmaPower(1, 4)) == 7 && SigmaPower(2, 3) == Sigma(SigmaPower(1, 3)) == 3;
    assert SigmaPower(3, 3) == Sigma(SigmaPower(2, 3)) == 6;
    assert SigmaPower(3, 2) == Sigma(SigmaPower(2, 2)) == Sigma(Sigma(SigmaPower(1, 2))) == 1;
    assert SigmaPower(4, 2) == Sigma(SigmaPower(3, 2)) == 5;
    assert SigmaPower(2, 1) == Sigma(SigmaPower(1, 1)) == 8;
    assert SigmaPower(4, 1) == Sigma(SigmaPower(3, 1)) == Sigma(Sigma(SigmaPower(2, 1)));
    assert SigmaPower(5, 1) == Sigma(SigmaPower(4, 1)) == 2;
  }

  /** Known answers: the check digit of 236 is 3, and that of 12345 is 1. */
  lemma KnownShortNumber() returns (s: seq<Digit>)
    ensures s == [2, 3, 6, 3] && Valid(s)
  {
    KnownTerms();
    s := OneMoreDigit([], 3, 0);
    s := OneMoreDigit(s, 6, 3);
    s := OneMoreDigit(s, 3, 1);
    s := OneMoreDigit(s, 2, 4);
  }

  lemma KnownLongNumber() returns (s: seq<Digit>)
    ensures s == [1, 2, 3, 4, 5, 1] && Valid(s)
  {
    KnownTerms();
    s := OneMoreDigit([], 1, 0);
    s := OneMoreDigit(s, 5, 1);
    s := OneMoreDigit(s, 4, 9);
    s := OneMoreDigit(s, 3, 2);
    s := OneMoreDigit(s, 2, 8);
    s := OneMoreDigit(s, 1, 3);
  }

  /** Changing one digit of a valid number never leaves it valid. */
  lemma CatchesOneDigit(s: seq<Digit>, i: nat, d: Digit)
    requires i < |s| && d != s[i]
    requires Valid(s)
    ensures !Valid(s[i := d])
  {
    RoundUndone();
    forall c: Digit, r: nat ensures Round(c, r, s[i]) != Round(c, r, d) {
      SigmaInjective(r % 8, s[i], d);
      CancelLeft(c, Term(r, s[i]), Term(r, d));
    }
    ChangeCaught(Round, RoundBack, s, i, d);
  }

  /** Swapping two different neighbours of a valid number never leaves it valid. */
  lemma CatchesSwap(s: seq<Digit>, i: nat)
    requires i + 1 < |s| && s[i] != s[i + 1]
    requires Valid(s)
    ensures !Valid(Swap(s, i))
  {
    RoundUndone();
    forall c: Digit, r: nat
      ensures Round(Round(c, r, s[i + 1]), r + 1, s[i]) != Round(Round(c, r, s[i]), r + 1, s[i + 1])
    {
      SwapDiffers(r, s[i], s[i + 1], c);
    }
    SwapCaught(Round, RoundBack, s, i, true);
  }

  lemma SwapDiffers(i: nat, a: Digit, b: Digit, c: Digit)
    requires a != b
    ensures Round(Round(c, i, b), i + 1, a) != Round(Round(c, i, a), i + 1, b)
  {
    TermStep(i, a);
    TermStep(i, b);
    var x, y := Term(i, a), Term(i, b);
    SigmaInjective(i % 8, a, b);
    SigmaTwist(y, x);
    Associative(c, y, Sigma(x));
    Associative(c, x, Sigma(y));
    CancelLeft(c, Dihedral(y, Sigma(x)), Dihedral(x, Sigma(y)));
  }

  lemma TermStep(i: nat, d: Digit)
    ensures Term(i + 1, d) == Sigma(Term(i, d))
  {
    SigmaCycle(d);
    assert (i + 1) % 8 == if i % 8 == 7 then 0 else i % 8 + 1;
  }

  /** Every number has exactly one check digit. */
  lemma CheckDigit(s: seq<Digit>) returns (check: Digit)
    ensures forall d: Digit :: Valid(s + [d]) <==> d == check
  {
    RoundUndone();
    forall d: Digit ensures Round(0, 0, d) == d {
      Unit(d);
    }
    check := FoldCheckDigit(Round, RoundBack, s);
  }
}

/** The Luhn check digit (payment cards; ISO/IEC 7812-1, annex B). */
module Luhn {
  import opened Digits

  /** What digit `d` contributes at position `i` from the right: every second one is doubled and
      its two figures added. */
  function Term(i: nat, d: Digit): Digit {
    if i % 2 == 0 then d else if 2 * d > 9 then 2 * d - 9 else 2 * d
  }

  function Wrap10(n: nat): Digit
    requires n < 20
  {
    if n >= 10 then n - 10 else n
  }

  /** The running total, of which only the last figure matters. */
  function Round(c: Digit, i: nat, d: Digit): Digit {
    Wrap10(c + Term(i, d))
  }

  function RoundBack(c: Digit, i: nat, d: Digit): Digit {
    Wrap10(c + 10 - Term(i, d))
  }

  lemma RoundUndone()
    ensures Undoes(Round, RoundBack)
  {
    assert forall c: Digit, i: nat, d: Digit :: RoundBack(Round(c, i, d), i, d) == c;
    assert forall c: Digit, i: nat, d: Digit :: Round(RoundBack(c, i, d), i, d) == c;
  }

  predicate Valid(s: seq<Digit>) {
    Fold(Round, s, 0, 0) == 0
  }

  lemma LastFigure(total: nat, d: Digit)
    ensures (total + d) % 10 == Wrap10(total % 10 + d)
  {
  }

  lemma OneRound(total: nat, i: nat, v: Digit, d: nat)
    requires d == if i % 2 == 0 then v else if 2 * v > 9 then 2 * v - 9 else 2 * v
    ensures Round(total % 10, i, v) == (total + d) % 10
  {
    assert d == Term(i, v);
    LastFigure(total, d);
  }

  method IsValid(digits: string) returns (valid: bool)
    ensures valid <==> AllDigits(digits) && Valid(Values(digits))
  {
    var total: nat := 0;
    var alt := false;
    var i := 0;
    while i < |digits|
      invariant i <= |digits|
      invariant alt == (i % 2 == 1)
      invariant FoldsTo(Round, digits, i, total % 10)
    {
      var ch := digits[|digits| - 1 - i];
      if !IsDigit(ch) {
        return false;
      }
      var d: nat := Val(ch);
      if alt {
        d := d * 2;
        if d > 9 {
          d := d - 9;
        }
      }
      OneRound(total, i, Val(ch), d);
      FoldsOneMore(Round, digits, i, total % 10);
      total := total + d;
      alt := !alt;
      i := i + 1;
    }
    assert digits[0..] == digits;
    return total % 10 == 0;
  }

  /** Changing one digit of a valid number never leaves it valid. */
  lemma CatchesOneDigit(s: seq<Digit>, i: nat, d: Digit)
    requires i < |s| && d != s[i]
    requires Valid(s)
    ensures !Valid(s[i := d])
  {
    RoundUndone();
    forall c: Digit, r: nat ensures Round(c, r, s[i]) != Round(c, r, d) {
      TermsDiffer(r, s[i], d, c);
    }
    ChangeCaught(Round, RoundBack, s, i, d);
  }

  lemma TermsDiffer(i: nat, a: Digit, b: Digit, c: Digit)
    requires a != b
    ensures Round(c, i, a) != Round(c, i, b)
  {
  }

  /** A swap of neighbours in a valid number goes unnoticed exactly when the digits are equal, or
      one is 0 and the other 9. */
  lemma SwapUnnoticed(s: seq<Digit>, i: nat)
    requires i + 1 < |s|
    requires Valid(s)
    ensures Valid(Swap(s, i)) <==> s[i] == s[i + 1] || (s[i] == 0 && s[i + 1] == 9) || (s[i] == 9 && s[i + 1] == 0)
  {
    RoundUndone();
    var unnoticed := s[i] == s[i + 1] || (s[i] == 0 && s[i + 1] == 9) || (s[i] == 9 && s[i + 1] == 0);
    forall c: Digit, r: nat
      ensures Round(Round(c, r, s[i + 1]), r + 1, s[i]) != Round(Round(c, r, s[i]), r + 1, s[i + 1]) <==> !unnoticed
    {
      SwapGap(r, s[i], s[i + 1], c);
    }
    SwapCaught(Round, RoundBack, s, i, !unnoticed);
  }

  lemma SwapGap(i: nat, a: Digit, b: Digit, c: Digit)
    ensures Round(Round(c, i, b), i + 1, a) == Round(Round(c, i, a), i + 1, b)
            <==> a == b || (a == 0 && b == 9) || (a == 9 && b == 0)
  {
    var gap := Term(i, b) + Term(i + 1, a) - Term(i, a) - Term(i + 1, b);
    RoundTwice(c, i, b, a);
    RoundTwice(c, i, a, b);
    TermGap(i, a, b);
  }

  lemma RoundTwice(c: Digit, i: nat, d: Digit, e: Digit)
    ensures var total := c + Term(i, d) + Term(i + 1, e);
      Round(Round(c, i, d), i + 1, e) == if total >= 20 then total - 20 else if total >= 10 then total - 10 else total
  {
  }

  lemma TermGap(i: nat, a: Digit, b: Digit)
    ensures var gap := Term(i, b) + Term(i + 1, a) - Term(i, a) - Term(i + 1, b);
      && -10 < gap < 10
      && (gap == 0 <==> a == b || (a == 0 && b == 9) || (a == 9 && b == 0))
  {
    assert (i + 1) % 2 == 1 - i % 2;
  }

  lemma FoldThreeDigits(a: Digit, b: Digit, c: Digit) returns (s: seq<Digit>)
    ensures s == [a, b, c] && Fold(Round, s, 0, 0) == Round(Round(Round(0, 0, c), 1, b), 2, a)
  {
    s := [a, b, c];
    assert s[1..] == [b, c];
    FoldTwo(Round, b, c, 0, 0);
  }

  /** Known answers: 18 and 59 are valid. */
  lemma KnownNumbers() returns (s: seq<Digit>, t: seq<Digit>)
    ensures s == [1, 8] && t == [5, 9] && Valid(s) && Valid(t)
  {
    s, t := [1, 8], [5, 9];
    FoldTwo(Round, 1, 8, 0, 0);
    FoldTwo(Round, 5, 9, 0, 0);
    assert Round(8, 1, 1) == 0 && Round(9, 1, 5) == 0;
  }

  /** An input: 109 is valid, and so is 190. */
  lemma SwapUnnoticedExample() returns (s: seq<Digit>)
    ensures s == [1, 0, 9] && Valid(s) && Valid(Swap(s, 1))
  {
    s := FoldThreeDigits(1, 0, 9);
    assert Round(0, 0, 9) == 9 && Round(9, 1, 0) == 9 && Round(9, 2, 1) == 0;
    SwapUnnoticed(s, 1);
  }

  /** Every number has exactly one check digit. */
  lemma CheckDigit(s: seq<Digit>) returns (check: Digit)
    ensures forall d: Digit :: Valid(s + [d]) <==> d == check
  {
    RoundUndone();
    check := FoldCheckDigit(Round, RoundBack, s);
  }
}

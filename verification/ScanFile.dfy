/** Scanning a file: a worker extracts items into a bounded channel while the scanner scores them,
    and stops at the first block. Every interleaving of the two is a run of this machine.
    An item is represented by the verdict its scoring gives. */
module ScanFile {
  import opened Seqs
  import opened Verdicts

  const CAPACITY := 16

  datatype Phase = Scoring | Joining | Returned

  datatype State = State(
    toSend: seq<Verdict>,   // items extraction has yet to emit
    walking: bool,          // the worker is running: the sending end is open
    queue: seq<Verdict>,    // the channel
    hand: Option<Verdict>,  // the item received, while it is being scored
    scored: seq<Verdict>,   // items received, in order
    worst: Verdict,
    phase: Phase)           // the receiving end is open while Scoring

  function Init(items: seq<Verdict>): State {
    State(items, true, [], None, [], NOTHING, Scoring)
  }

  // ----- the worker -----

  ghost predicate Send(s: State, t: State) {
    && s.walking && s.toSend != [] && s.phase == Scoring && |s.queue| < CAPACITY
    && t == s.(toSend := s.toSend[1..], queue := s.queue + [s.toSend[0]])
  }

  /** Sending to a closed channel fails; extraction then stops, now or after trying more items. */
  ghost predicate SendRefused(s: State, t: State) {
    && s.walking && s.toSend != [] && s.phase != Scoring
    && (t == s.(toSend := s.toSend[1..]) || t == s.(walking := false))
  }

  ghost predicate WalkEnds(s: State, t: State) {
    s.walking && s.toSend == [] && t == s.(walking := false)
  }

  // ----- the scanner -----

  ghost predicate Receive(s: State, t: State) {
    && s.phase == Scoring && s.hand.None? && s.queue != []
    && t == s.(hand := Some(s.queue[0]), queue := s.queue[1..])
  }

  /** The item received is scored; meanwhile the worker may have sent more. A block closes the channel
      and drops what waits in it. */
  function Judged(s: State): State
    requires s.hand.Some?
  {
    var worst := s.worst.Max(s.hand.value);
    var t := s.(hand := None, scored := s.scored + [s.hand.value], worst := worst);
    if worst.IsBlock() then t.(queue := [], phase := Joining) else t
  }

  ghost predicate Score(s: State, t: State) {
    s.phase == Scoring && s.hand.Some? && t == Judged(s)
  }

  ghost predicate EndOfStream(s: State, t: State) {
    s.phase == Scoring && s.hand.None? && s.queue == [] && !s.walking && t == s.(phase := Joining)
  }

  ghost predicate Join(s: State, t: State) {
    s.phase == Joining && !s.walking && t == s.(phase := Returned)
  }

  ghost predicate Next(s: State, t: State) {
    || Send(s, t) || SendRefused(s, t) || WalkEnds(s, t)
    || Receive(s, t) || Score(s, t) || EndOfStream(s, t) || Join(s, t)
  }

  ghost predicate IsRun(items: seq<Verdict>, run: seq<State>) {
    && |run| > 0 && run[0] == Init(items)
    && forall i | 0 <= i < |run| - 1 :: Next(run[i], run[i + 1])
  }

  // ----- what every run keeps -----

  /** The items that are yet to be scored, oldest first. */
  function Ahead(s: State): seq<Verdict> {
    (if s.hand.Some? then [s.hand.value] else []) + s.queue + s.toSend
  }

  ghost predicate Inv(items: seq<Verdict>, s: State) {
    && |s.queue| <= CAPACITY
    && s.scored <= items
    && (s.phase == Scoring ==>
      && items == s.scored + Ahead(s)
      && (!s.walking ==> s.toSend == [])
      && !s.worst.IsBlock()
      && FoldToBlock(NOTHING, items) == FoldToBlock(s.worst, Ahead(s)))
    && (s.phase != Scoring ==>
      && s.hand.None?
      && s.worst == FoldToBlock(NOTHING, items)
      && (!s.worst.IsBlock() ==> s.scored == items))
    && (s.phase == Returned ==> !s.walking)
  }

  lemma InitKeeps(items: seq<Verdict>)
    ensures Inv(items, Init(items))
  {
    assert Ahead(Init(items)) == items && [] + items == items;
  }

  lemma NextKeeps(items: seq<Verdict>, s: State, t: State)
    requires Inv(items, s) && Next(s, t)
    ensures Inv(items, t)
  {
    if Send(s, t) || Receive(s, t) {
      assert Ahead(s) == Ahead(t);
    } else if Score(s, t) {
      ScoreKeeps(items, s, t);
    } else if EndOfStream(s, t) {
      assert Ahead(s) == [] && s.scored + [] == s.scored;
    }
  }

  lemma ScoreKeeps(items: seq<Verdict>, s: State, t: State)
    requires Inv(items, s) && Score(s, t)
    ensures Inv(items, t)
  {
    var v, rest := s.hand.value, s.queue + s.toSend;
    RegroupFour(s.scored, [v], s.queue, s.toSend);
    Regroup([v], s.queue, s.toSend);
    assert [] + s.queue + s.toSend == rest;
    Regroup(t.scored, s.queue, s.toSend);
    FoldFirst(s.worst, v, rest);
  }

  lemma {:induction false} RunKeeps(items: seq<Verdict>, run: seq<State>, i: nat)
    requires IsRun(items, run) && i < |run|
    ensures Inv(items, run[i])
  {
    if i == 0 {
      InitKeeps(items);
    } else {
      RunKeeps(items, run, i - 1);
      assert Next(run[i - 1], run[i - 1 + 1]);
      NextKeeps(items, run[i - 1], run[i]);
    }
  }

  /** Whatever the interleaving: items are scored in order and none is skipped, at most 16 wait, and
      a run that returns has the action that scoring every item would have given. */
  lemma EveryRunIsRight(items: seq<Verdict>, run: seq<State>, i: nat)
    requires IsRun(items, run) && i < |run|
    ensures run[i].scored <= items && |run[i].queue| <= 16
    ensures run[i].phase == Returned ==>
      && run[i].worst.action == Fold(NOTHING, items).action && run[i].worst == FoldToBlock(NOTHING, items)
      && (!run[i].worst.IsBlock() ==> run[i].scored == items && run[i].worst == Fold(NOTHING, items))
  {
    RunKeeps(items, run, i);
    EarlyStopSameAction(NOTHING, items);
  }

  /** The state after the worker alone has sent `n` items. */
  function SentAlone(items: seq<Verdict>, n: nat): State
    requires n <= |items|
  {
    Init(items).(toSend := items[n..], queue := items[..n])
  }

  /** And sixteen can wait: a scanner that is slow to start finds as many. */
  lemma SixteenCanWait(items: seq<Verdict>) returns (run: seq<State>)
    requires |items| >= 16
    ensures IsRun(items, run) && run[|run| - 1].queue == items[..16]
  {
    run := seq(17, n requires 0 <= n < 17 => SentAlone(items, n));
    assert run[0] == Init(items) by {
      assert items[0..] == items;
    }
    forall i | 0 <= i < |run| - 1 ensures Next(run[i], run[i + 1]) {
      assert items[i..][1..] == items[i + 1..] && items[..i] + [items[i]] == items[..i + 1];
      assert Send(run[i], run[i + 1]);
    }
  }

  /** No deadlock: until the scanner has returned, someone can move. */
  lemma NoDeadlock(items: seq<Verdict>, run: seq<State>)
    requires IsRun(items, run) && run[|run| - 1].phase != Returned
    ensures exists t :: IsRun(items, run + [t])
  {
    var s := run[|run| - 1];
    RunKeeps(items, run, |run| - 1);
    var t := SomeStep(items, s);
    assert forall i | 0 <= i < |run| :: (run + [t])[i] == run[i];
    assert IsRun(items, run + [t]);
  }

  lemma SomeStep(items: seq<Verdict>, s: State) returns (t: State)
    requires Inv(items, s) && s.phase != Returned
    ensures Next(s, t)
  {
    if s.phase == Scoring && s.hand.Some? {
      t := Judged(s);
      assert Score(s, t);
    } else if s.phase == Scoring && s.queue != [] {
      t := s.(hand := Some(s.queue[0]), queue := s.queue[1..]);
      assert Receive(s, t);
    } else if s.walking && s.toSend == [] {
      t := s.(walking := false);
      assert WalkEnds(s, t);
    } else if s.walking && s.phase == Scoring {
      t := s.(toSend := s.toSend[1..], queue := s.queue + [s.toSend[0]]);
      assert Send(s, t);
    } else if s.walking {
      t := s.(walking := false);
      assert SendRefused(s, t);
    } else {
      t := if s.phase == Scoring then s.(phase := Joining) else s.(phase := Returned);
      assert EndOfStream(s, t) || Join(s, t);
    }
  }

  function Work(s: State): nat {
    4 * |s.toSend| + 3 * |s.queue| + (if s.hand.Some? then 2 else 0) + (if s.walking then 1 else 0)
    + match s.phase { case Scoring => 2 case Joining => 1 case Returned => 0 }
  }

  /** No run goes on for ever: each step uses up some of a finite amount of work. */
  lemma {:induction false} RunsAreFinite(items: seq<Verdict>, run: seq<State>)
    requires IsRun(items, run)
    ensures |run| + Work(run[|run| - 1]) <= 4 * |items| + 4
  {
    if |run| > 1 {
      var before := run[..|run| - 1];
      assert Next(run[|run| - 2], run[|run| - 2 + 1]);
      assert forall i | 0 <= i < |before| - 1 :: Next(before[i], before[i + 1]) by {
        forall i | 0 <= i < |before| - 1 ensures Next(before[i], before[i + 1]) {
          assert Next(run[i], run[i + 1]);
        }
      }
      RunsAreFinite(items, before);
    }
  }
}

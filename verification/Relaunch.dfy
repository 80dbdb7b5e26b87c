/** Keeping the agent running in every session, without relaunching a crashing one in a tight loop. */
module Relaunch {

  /** Five minutes, in seconds. */
  const SPAN := 300
  const STARTS := 3

  type Launches = map<int, seq<int>>

  /** The clock, as one round reads it: when old launches are dropped, when the limit applies, and
      when the launch is noted. */
  datatype Reading = Reading(drop: int, test: int, note: int)

  predicate InOrder(after: int, r: Reading) { after <= r.drop <= r.test <= r.note }

  // ----- one session -----

  /** `retain`: the launches less than five minutes old. */
  function Recent(launches: seq<int>, now: int): seq<int> {
    if launches == [] then []
    else
      var rest := Recent(launches[..|launches| - 1], now);
      if now - launches[|launches| - 1] < SPAN then rest + [launches[|launches| - 1]] else rest
  }

  /** Three recent starts, and the last of them still recent. */
  predicate BackOff(recent: seq<int>, test: int) {
    |recent| >= STARTS && test - recent[|recent| - 1] < SPAN
  }

  function Attempted(launches: seq<int>, r: Reading): seq<int> {
    var recent := Recent(launches, r.drop);
    if BackOff(recent, r.test) then recent else recent + [r.note]
  }

  function Of(launches: Launches, session: int): seq<int> {
    if session in launches then launches[session] else []
  }

  function Attempts(launches: Launches, sessions: seq<int>, running: set<int>, times: seq<Reading>): Launches
    requires |times| == |sessions|
  {
    if sessions == [] then launches
    else
      var n := |sessions| - 1;
      var before := Attempts(launches, sessions[..n], running, times[..n]);
      if sessions[n] in running then before
      else before[sessions[n] := Attempted(Of(before, sessions[n]), times[n])]
  }

  lemma AttemptsMore(launches: Launches, sessions: seq<int>, running: set<int>, times: seq<Reading>, n: nat)
    requires n < |sessions| == |times|
    ensures var before := Attempts(launches, sessions[..n], running, times[..n]);
      Attempts(launches, sessions[..n + 1], running, times[..n + 1]) ==
        if sessions[n] in running then before
        else before[sessions[n] := Attempted(Of(before, sessions[n]), times[n])]
  {
    assert sessions[..n + 1][..n] == sessions[..n] && times[..n + 1][..n] == times[..n];
  }

  /** One round: old launches dropped, and a new one noted unless the agent keeps crashing. */
  method Attempt(launches: seq<int>, r: Reading) returns (recent: seq<int>)
    ensures recent == Attempted(launches, r)
  {
    recent := Recent(launches, r.drop);
    if |recent| >= STARTS && r.test - recent[|recent| - 1] < SPAN {
      return;
    }
    recent := recent + [r.note];
  }

  class Supervisor {
    var launches: Launches

    constructor ()
      ensures launches == map[]
    {
      launches := map[];
    }

    /** One tick: `running` are the sessions that have an agent; `installerBusy` also stands for not
        knowing the agent's own path. */
    method Tick(installerBusy: bool, sessions: seq<int>, running: set<int>, times: seq<Reading>)
      requires |times| == |sessions|
      modifies this
      ensures launches == if installerBusy then old(launches) else Attempts(old(launches), sessions, running, times)
    {
      if installerBusy || sessions == [] {
        return;
      }
      for i := 0 to |sessions|
        invariant launches == Attempts(old(launches), sessions[..i], running, times[..i])
      {
        AttemptsMore(old(launches), sessions, running, times, i);
        var session := sessions[i];
        if session !in running {
          var recent := Attempt(if session in launches then launches[session] else [], times[i]);
          launches := launches[session := recent];
        }
      }
      assert sessions[..|sessions|] == sessions && times[..|times|] == times;
    }
  }

  // ----- all runs -----

  /** The launches that are remembered, and all that ever happened, for each session. */
  datatype World = World(launches: Launches, history: Launches, clock: int)

  /** A round for one session without an agent. */
  datatype Move = Try(session: int, times: Reading)

  predicate Happens(w: World, m: Move) { InOrder(w.clock, m.times) }

  function Next(w: World, m: Move): World {
    if !Happens(w, m) then w
    else
      var mine, all := Of(w.launches, m.session), Of(w.history, m.session);
      var launched := !BackOff(Recent(mine, m.times.drop), m.times.test);
      World(w.launches[m.session := Attempted(mine, m.times)],
            if launched then w.history[m.session := all + [m.times.note]] else w.history,
            m.times.note)
  }

  function Run(start: int, moves: seq<Move>): World {
    if moves == [] then World(map[], map[], start) else Next(Run(start, moves[..|moves| - 1]), moves[|moves| - 1])
  }

  /** The rounds that make up one tick: those for sessions without an agent. */
  function Moves(sessions: seq<int>, running: set<int>, times: seq<Reading>): seq<Move>
    requires |times| == |sessions|
  {
    if sessions == [] then []
    else
      var n := |sessions| - 1;
      Moves(sessions[..n], running, times[..n]) + if sessions[n] in running then [] else [Try(sessions[n], times[n])]
  }

  /** The clock readings of a tick, in order and none before `after`. */
  ghost predicate Ordered(after: int, times: seq<Reading>) {
    && (forall i | 0 <= i < |times| :: InOrder(after, times[i]))
    && (forall i, j | 0 <= i < j < |times| :: times[i].note <= times[j].drop)
  }

  lemma NextAttempts(w: World, m: Move)
    requires Happens(w, m)
    ensures Next(w, m).launches == w.launches[m.session := Attempted(Of(w.launches, m.session), m.times)]
    ensures Next(w, m).clock == m.times.note
  {
  }

  lemma RunMore(start: int, a: seq<Move>, b: seq<Move>, m: Move)
    ensures Run(start, a + (b + [m])) == Next(Run(start, a + b), m)
  {
    var all := a + (b + [m]);
    assert all[..|all| - 1] == a + b;
  }

  lemma MovesMore(sessions: seq<int>, running: set<int>, times: seq<Reading>, n: nat)
    requires n < |sessions| == |times|
    ensures Moves(sessions[..n + 1], running, times[..n + 1]) ==
      Moves(sessions[..n], running, times[..n]) + if sessions[n] in running then [] else [Try(sessions[n], times[n])]
  {
    assert sessions[..n + 1][..n] == sessions[..n] && times[..n + 1][..n] == times[..n];
  }

  /** The first `n` rounds of a tick, as a run. */
  ghost predicate RoundsAreARun(start: int, moves: seq<Move>, sessions: seq<int>, running: set<int>,
                                times: seq<Reading>, n: nat)
    requires n <= |times| == |sessions|
  {
    var w := Run(start, moves + Moves(sessions[..n], running, times[..n]));
    && w.launches == Attempts(Run(start, moves).launches, sessions[..n], running, times[..n])
    && forall i | n <= i < |times| :: w.clock <= times[i].drop
  }

  lemma OneRoundMore(start: int, moves: seq<Move>, sessions: seq<int>, running: set<int>, times: seq<Reading>, n: nat)
    requires n < |times| == |sessions| && Ordered(Run(start, moves).clock, times)
    requires RoundsAreARun(start, moves, sessions, running, times, n)
    ensures RoundsAreARun(start, moves, sessions, running, times, n + 1)
  {
    MovesMore(sessions, running, times, n);
    AttemptsMore(Run(start, moves).launches, sessions, running, times, n);
    var before := Moves(sessions[..n], running, times[..n]);
    if sessions[n] in running {
      assert before + [] == before;
    } else {
      var m := Try(sessions[n], times[n]);
      RunMore(start, moves, before, m);
      NextAttempts(Run(start, moves + before), m);
    }
  }

  /** A tick is a run of such rounds, so what is proved of all runs holds of all sequences of ticks. */
  lemma TickIsARun(start: int, moves: seq<Move>, sessions: seq<int>, running: set<int>, times: seq<Reading>)
    requires |times| == |sessions| && Ordered(Run(start, moves).clock, times)
    ensures Run(start, moves + Moves(sessions, running, times)).launches
         == Attempts(Run(start, moves).launches, sessions, running, times)
  {
    assert moves + [] == moves;
    for n := 0 to |times|
      invariant RoundsAreARun(start, moves, sessions, running, times, n)
    {
      OneRoundMore(start, moves, sessions, running, times, n);
    }
    assert sessions[..|times|] == sessions && times[..|times|] == times;
  }

  ghost predicate Sorted(s: seq<int>) { forall i, j | 0 <= i < j < |s| :: s[i] <= s[j] }

  /** Launches three apart are five minutes apart. */
  ghost predicate Apart(s: seq<int>) { forall i, j | 0 <= i && i + STARTS <= j < |s| :: s[j] - s[i] >= SPAN }

  /** For every later moment, what is remembered gives the same recent launches as the whole history. */
  ghost predicate SameRecent(mine: seq<int>, all: seq<int>, clock: int) {
    forall t | t >= clock :: Recent(mine, t) == Recent(all, t)
  }

  /** One session: what is remembered, and all its launches up to now. */
  ghost predicate Settled(mine: seq<int>, all: seq<int>, clock: int) {
    SameRecent(mine, all, clock) && Sorted(all) && Apart(all) && (all != [] ==> all[|all| - 1] <= clock)
  }

  ghost predicate Inv(w: World) {
    forall s: int :: Settled(Of(w.launches, s), Of(w.history, s), w.clock)
  }

  lemma {:induction false} RecentTwice(s: seq<int>, t: int, u: int)
    requires t <= u
    ensures Recent(Recent(s, t), u) == Recent(s, u)
  {
    if s != [] {
      var n := |s| - 1;
      RecentTwice(s[..n], t, u);
      if t - s[n] < SPAN {
        assert (Recent(s[..n], t) + [s[n]])[..|Recent(s[..n], t)|] == Recent(s[..n], t);
      }
    }
  }

  lemma RecentSnoc(s: seq<int>, x: int, t: int)
    ensures Recent(s + [x], t) == Recent(s, t) + if t - x < SPAN then [x] else []
  {
    assert (s + [x])[..|s|] == s;
  }

  /** Of a sorted history the recent launches are the last ones. */
  lemma {:induction false} RecentIsTail(s: seq<int>, t: int)
    requires Sorted(s)
    ensures var r := Recent(s, t);
      && |r| <= |s| && (r != [] ==> r[|r| - 1] == s[|s| - 1])
      && (forall i | 0 <= i < |s| - |r| :: t - s[i] >= SPAN)
  {
    if s != [] {
      var n := |s| - 1;
      RecentIsTail(s[..n], t);
      LastIsRecent(s[..n], t);
      assert n > 0 ==> s[n - 1] <= s[n];
    }
  }

  lemma {:induction false} TailIsRecent(s: seq<int>, t: int, i: nat)
    requires Sorted(s) && |s| - |Recent(s, t)| <= i < |s|
    ensures t - s[i] < SPAN
  {
    var n := |s| - 1;
    if t - s[n] < SPAN {
      if i < n {
        TailIsRecent(s[..n], t, i);
      }
    } else {
      TailIsRecent(s[..n], t, if i < n then i else n - 1);
    }
  }

  lemma {:induction false} LastIsRecent(s: seq<int>, t: int)
    ensures var r := Recent(s, t); r != [] ==> t - r[|r| - 1] < SPAN
  {
    if s != [] {
      LastIsRecent(s[..|s| - 1], t);
    }
  }

  /** A launch that is not held back comes five minutes after the third last one. */
  lemma ThirdLastIsOld(all: seq<int>, r: Reading)
    requires Sorted(all) && InOrder(r.drop, r) && |all| >= STARTS
    requires !BackOff(Recent(all, r.drop), r.test)
    ensures r.note - all[|all| - STARTS] >= SPAN
  {
    RecentIsTail(all, r.drop);
    var recent, n := Recent(all, r.drop), |all|;
    if |recent| >= STARTS {
      assert recent[|recent| - 1] == all[n - 1] && all[n - STARTS] <= all[n - 1];
    }
  }

  lemma LaunchIsApart(all: seq<int>, note: int)
    requires Sorted(all) && Apart(all) && (all != [] ==> all[|all| - 1] <= note)
    requires |all| >= STARTS ==> note - all[|all| - STARTS] >= SPAN
    ensures Sorted(all + [note]) && Apart(all + [note])
  {
    var n := |all|;
    forall i | 0 <= i < n ensures all[i] <= note && (i + STARTS <= n ==> note - all[i] >= SPAN) {
      assert i < n - 1 ==> all[i] <= all[n - 1];
      assert i < n - STARTS ==> all[i] <= all[n - STARTS];
    }
  }

  lemma NextKeeps(w: World, m: Move)
    requires Inv(w)
    ensures Inv(Next(w, m))
  {
    if Happens(w, m) {
      var t := Next(w, m);
      forall s: int ensures Settled(Of(t.launches, s), Of(t.history, s), t.clock) {
        var mine, all := Of(w.launches, s), Of(w.history, s);
        assert Settled(mine, all, w.clock);
        if s == m.session {
          SessionKeeps(mine, all, w.clock, m.times);
        } else {
          StaysSettled(mine, all, w.clock, t.clock);
        }
      }
    }
  }

  lemma StaysSettled(mine: seq<int>, all: seq<int>, clock: int, later: int)
    requires Settled(mine, all, clock) && clock <= later
    ensures Settled(mine, all, later)
  {
  }

  lemma SameRecentAfter(mine: seq<int>, all: seq<int>, clock: int, r: Reading)
    requires SameRecent(mine, all, clock) && InOrder(clock, r)
    ensures SameRecent(Recent(mine, r.drop), all, r.note)
    ensures SameRecent(Recent(mine, r.drop) + [r.note], all + [r.note], r.note)
  {
    forall t | t >= r.note ensures Recent(Recent(mine, r.drop), t) == Recent(all, t)
      && Recent(Recent(mine, r.drop) + [r.note], t) == Recent(all + [r.note], t)
    {
      RecentTwice(mine, r.drop, t);
      RecentSnoc(Recent(mine, r.drop), r.note, t);
      RecentSnoc(all, r.note, t);
    }
  }

  lemma SessionKeeps(mine: seq<int>, all: seq<int>, clock: int, r: Reading)
    requires Settled(mine, all, clock) && InOrder(clock, r)
    ensures BackOff(Recent(mine, r.drop), r.test) == BackOff(Recent(all, r.drop), r.test)
    ensures var all' := if BackOff(Recent(mine, r.drop), r.test) then all else all + [r.note];
      Settled(Attempted(mine, r), all', r.note)
  {
    SameRecentAfter(mine, all, clock, r);
    if !BackOff(Recent(all, r.drop), r.test) {
      if |all| >= STARTS {
        ThirdLastIsOld(all, r);
      }
      LaunchIsApart(all, r.note);
    }
  }

  lemma {:induction false} RunKeeps(start: int, moves: seq<Move>)
    ensures Inv(Run(start, moves))
  {
    if moves != [] {
      RunKeeps(start, moves[..|moves| - 1]);
      NextKeeps(Run(start, moves[..|moves| - 1]), moves[|moves| - 1]);
    }
  }

  /** In every run, any four launches for one session span at least five minutes. */
  lemma FourLaunchesSpan(start: int, moves: seq<Move>, session: int, i: nat, j: nat)
    requires i + 3 <= j < |Of(Run(start, moves).history, session)|
    ensures var all := Of(Run(start, moves).history, session); all[j] - all[i] >= 300
  {
    RunKeeps(start, moves);
    var w := Run(start, moves);
    assert Settled(Of(w.launches, session), Of(w.history, session), w.clock);
  }

  /** ... and forgetting old launches never changes a decision: it is the one the whole history gives. */
  lemma ForgettingInvisible(start: int, moves: seq<Move>, m: Move)
    requires Happens(Run(start, moves), m)
    ensures var w := Run(start, moves);
      BackOff(Recent(Of(w.launches, m.session), m.times.drop), m.times.test)
      == BackOff(Recent(Of(w.history, m.session), m.times.drop), m.times.test)
  {
    RunKeeps(start, moves);
    var w := Run(start, moves);
    assert Settled(Of(w.launches, m.session), Of(w.history, m.session), w.clock);
  }

  /** Exactly when a session without an agent gets one: when it has been launched fewer than three times,
      or the third last launch, or the last, is five minutes ago. */
  lemma LaunchesExactlyWhen(start: int, moves: seq<Move>, m: Move)
    requires Happens(Run(start, moves), m)
    ensures var all := Of(Run(start, moves).history, m.session);
      Of(Next(Run(start, moves), m).history, m.session) == all + [m.times.note] <==>
        |all| < 3 || m.times.drop - all[|all| - 3] >= 300 || m.times.test - all[|all| - 1] >= 300
  {
    RunKeeps(start, moves);
    var w := Run(start, moves);
    var all := Of(w.history, m.session);
    assert Settled(Of(w.launches, m.session), all, w.clock);
    RecentIsTail(all, m.times.drop);
    if |Recent(all, m.times.drop)| >= 3 {
      TailIsRecent(all, m.times.drop, |all| - 3);
    }
    assert all != all + [m.times.note];
  }
}

/** Activity events: repeats within eight seconds dropped, the rest queued and uploaded in batches. */
module Activity {
  import opened Seqs
  import Text

  /** Eight seconds, in milliseconds. */
  const DEDUP_WINDOW := 8000
  const MAX_QUEUE := 2000
  const RECENT_MAX := 512

  datatype Key = Key(domain: string, action: string)

  datatype Event = Event(key: Key, target: string, eventType: string, at: int)

  // ----- the rules -----

  /** The test in `record`: the same site and outcome fired again almost instantly. */
  predicate TooSoon(recent: map<Key, int>, key: Key, now: int) {
    key in recent && now - recent[key] < DEDUP_WINDOW
  }

  /** What `record` lets through. */
  predicate Accepts(recent: map<Key, int>, e: Event, logs: bool) {
    e.key.action != "allowed" && logs && !TooSoon(recent, e.key, e.at)
  }

  /** Entries too old to matter are dropped once there are many. */
  function Pruned(recent: map<Key, int>, now: int): map<Key, int> {
    if |recent| > RECENT_MAX then map k | k in recent && recent[k] >= now - DEDUP_WINDOW :: recent[k] else recent
  }

  function Remembered(recent: map<Key, int>, e: Event): map<Key, int> {
    Pruned(recent[e.key := e.at], e.at)
  }

  /** Nothing is forgotten up to 512 keys; beyond, what is older than the window. */
  lemma ForgottenBeyond(recent: map<Key, int>, e: Event)
    ensures var all, r := recent[e.key := e.at], Remembered(recent, e);
      && (|all| <= 512 ==> r == all)
      && (|all| > 512 ==> forall k :: k in r <==> k in all && e.at - all[k] <= 8000)
  {
  }

  /** The oldest there is room for. */
  function Take<T>(events: seq<T>): seq<T> {
    if |events| > MAX_QUEUE then events[..MAX_QUEUE] else events
  }

  /** The event of a visit: its domain in lower case and without "www.". `lower` is `to_lowercase`. */
  function EventOf(target: string, domain: string, action: string, eventType: string, at: int,
                   lower: string -> string): Event {
    Event(Key(Text.StripWww(lower(domain)), action), target, eventType, at)
  }

  class ActivityReporter {
    var queue: seq<Event>
    var recent: map<Key, int>

    constructor ()
      ensures queue == [] && recent == map[]
    {
      queue, recent := [], map[];
    }

    /** `logs` is what the enforcement gate says about this kind of event. */
    method Record(target: string, domain: string, action: string, eventType: string, now: int, logs: bool,
                  lower: string -> string)
      modifies this
      ensures var e := EventOf(target, domain, action, eventType, now, lower);
        && queue == (if Accepts(old(recent), e, logs) then old(queue) + [e] else old(queue))
        && recent == (if Accepts(old(recent), e, logs) then Remembered(old(recent), e) else old(recent))
    {
      if action == "allowed" || !logs {
        return;
      }
      var key := Key(Text.StripWww(lower(domain)), action);
      if key in recent {
        if now - recent[key] < DEDUP_WINDOW {
          return;
        }
      }
      recent := recent[key := now];
      if |recent| > RECENT_MAX {
        recent := map k | k in recent && recent[k] >= now - DEDUP_WINDOW :: recent[k];
      }
      queue := queue + [Event(key, target, eventType, now)];
    }

    /** The first half of `flush`: everything queued becomes the batch. */
    method TakeBatch() returns (batch: seq<Event>)
      modifies this
      ensures batch == old(queue) && queue == [] && recent == old(recent)
    {
      batch := queue;
      queue := [];
    }

    /** The second half. Any answer will do, whatever its status; without one the batch goes back to the
        front, in order, and the newest are dropped beyond the maximum. */
    method Finish(batch: seq<Event>, answered: bool)
      modifies this
      ensures queue == (if answered then old(queue) else Take(batch + old(queue))) && recent == old(recent)
    {
      if answered {
        return;
      }
      var i := |batch|;
      while i > 0
        invariant 0 <= i <= |batch| && queue == batch[i..] + old(queue) && recent == old(recent)
      {
        i := i - 1;
        queue := [batch[i]] + queue;
        assert batch[i..] == [batch[i]] + batch[i + 1..];
      }
      ghost var all := batch + old(queue);
      assert queue == all;
      while |queue| > MAX_QUEUE
        invariant queue <= all && recent == old(recent)
        invariant |queue| < |all| ==> |queue| >= MAX_QUEUE
      {
        queue := queue[..|queue| - 1];
      }
    }
  }

  // ----- all runs -----

  /** The reporter and its surroundings, every event by its place in the list of all that were ever
      accepted: what is queued, the batch being uploaded, what the server has stored, in the order it
      stored it, and — of that — what it stored in uploads it was not heard to answer. */
  datatype World = World(
    accepted: seq<Event>, recent: map<Key, int>, queue: seq<nat>, inFlight: Option<seq<nat>>,
    stored: seq<nat>, unheard: set<nat>, clock: int)
  {
    function Batch(): seq<nat> { if inFlight.Some? then inFlight.value else [] }

    function Pending(): seq<nat> { Batch() + queue }
  }

  const START := World([], map[], [], None, [], {}, 0)

  /** An upload ends with an answer or without one. With a success status the server has stored the
      batch; otherwise it has stored those of `kept`: none, all, or some. */
  datatype Move =
    | Happens(event: Event, logs: bool)
    | Flush
    | Answered(success: bool, kept: set<nat>)
    | Unheard(kept: set<nat>)

  /** Those of `kept`, in order. */
  function Part(ids: seq<nat>, kept: set<nat>): (r: seq<nat>)
    ensures forall x :: x in r <==> x in ids && x in kept
  {
    if ids == [] then []
    else
      var n := |ids| - 1;
      assert ids == ids[..n] + [ids[n]];
      Part(ids[..n], kept) + if ids[n] in kept then [ids[n]] else []
  }

  /** What the server stores when an upload ends. */
  function StoredNow(w: World, m: Move): seq<nat> {
    match m
    case Answered(success, kept) => if success then w.Batch() else Part(w.Batch(), kept)
    case Unheard(kept) => Part(w.Batch(), kept)
    case _ => []
  }

  /** What leaves the agent when an upload ends. */
  function LeavesNow(w: World, m: Move): seq<nat> {
    match m
    case Answered(_, _) => w.Batch()
    case Unheard(_) => if w.inFlight.Some? then w.Pending()[|Take(w.Pending())|..] else []
    case _ => []
  }

  function Places(ids: seq<nat>): set<nat> { set x | x in ids }

  /** What each move does; moves that do not apply change nothing. */
  function Next(w: World, m: Move): World {
    match m
    case Happens(e, logs) =>
      if e.at < w.clock then w
      else if !Accepts(w.recent, e, logs) then w.(clock := e.at)
      else w.(accepted := w.accepted + [e], recent := Remembered(w.recent, e), clock := e.at,
              queue := w.queue + [|w.accepted|])
    case Flush =>
      if w.inFlight.Some? || w.queue == [] then w else w.(inFlight := Some(w.queue), queue := [])
    case Answered(_, _) =>
      w.(inFlight := None, stored := w.stored + StoredNow(w, m))
    case Unheard(_) =>
      if w.inFlight.None? then w
      else w.(inFlight := None, queue := Take(w.Pending()), stored := w.stored + StoredNow(w, m),
              unheard := w.unheard + Places(StoredNow(w, m)))
  }

  function Run(moves: seq<Move>): World {
    if moves == [] then START else Next(Run(moves[..|moves| - 1]), moves[|moves| - 1])
  }

  predicate Below(ids: seq<nat>, n: nat) { forall i | 0 <= i < |ids| :: ids[i] < n }

  /** The events at these places. */
  function EventsOf(accepted: seq<Event>, ids: seq<nat>): (r: seq<Event>)
    requires Below(ids, |accepted|)
    ensures |r| == |ids|
  {
    seq(|ids|, i requires 0 <= i < |ids| => accepted[ids[i]])
  }

  /** What the reporter does to events, the machine does to their places. */
  lemma PlacesStandForEvents(accepted: seq<Event>, e: Event, batch: seq<nat>, queue: seq<nat>)
    requires Below(batch, |accepted|) && Below(queue, |accepted|)
    ensures Below(queue + [|accepted|], |accepted + [e]|) && Below(Take(batch + queue), |accepted|)
    ensures EventsOf(accepted + [e], queue + [|accepted|]) == EventsOf(accepted, queue) + [e]
    ensures EventsOf(accepted, Take(batch + queue)) == Take(EventsOf(accepted, batch) + EventsOf(accepted, queue))
  {
  }

  // ----- ascending places -----

  ghost predicate Ascending(s: seq<nat>) {
    forall i, j | 0 <= i < j < |s| :: s[i] < s[j]
  }

  lemma AscendingParts(a: seq<nat>, b: seq<nat>)
    requires Ascending(a + b)
    ensures Ascending(a) && Ascending(b) && forall x, y | x in a && y in b :: x < y
  {
    var s := a + b;
    assert forall i | 0 <= i < |a| :: s[i] == a[i];
    assert forall j | 0 <= j < |b| :: s[|a| + j] == b[j];
    forall x, y | x in a && y in b ensures x < y {
      var i :| 0 <= i < |a| && a[i] == x;
      var j :| 0 <= j < |b| && b[j] == y;
      assert s[i] < s[|a| + j];
    }
    forall i, j | 0 <= i < j < |b| ensures b[i] < b[j] {
      assert s[|a| + i] < s[|a| + j];
    }
  }

  lemma AscendingJoin(a: seq<nat>, b: seq<nat>)
    requires Ascending(a) && Ascending(b) && forall x, y | x in a && y in b :: x < y
    ensures Ascending(a + b)
  {
    var s := a + b;
    forall i, j | 0 <= i < j < |s| ensures s[i] < s[j] {
      if i < |a| <= j {
        assert a[i] in a && b[j - |a|] in b;
      }
    }
  }

  lemma {:induction false} PartAscends(ids: seq<nat>, kept: set<nat>)
    requires Ascending(ids)
    ensures Ascending(Part(ids, kept))
  {
    if ids != [] {
      var n := |ids| - 1;
      assert ids == ids[..n] + [ids[n]];
      AscendingParts(ids[..n], [ids[n]]);
      PartAscends(ids[..n], kept);
      AscendingJoin(Part(ids[..n], kept), if ids[n] in kept then [ids[n]] else []);
    }
  }

  /** The events of a list that holds every place below `n` in order are all `n`. */
  lemma {:induction false} EveryPlace(s: seq<nat>, n: nat, i: nat)
    requires Ascending(s) && (forall x | x in s :: x < n) && (forall x: nat | x < n :: x in s) && i < n
    ensures i < |s| && s[i] == i
  {
    if i > 0 {
      EveryPlace(s, n, i - 1);
    }
    assert i in s;
    var j :| 0 <= j < |s| && s[j] == i;
    AtLeastIndex(s, j);
    if j < i {
      EveryPlace(s, n, j);
    }
    assert j <= i;
  }

  lemma {:induction false} AtLeastIndex(s: seq<nat>, i: nat)
    requires i < |s| && Ascending(s)
    ensures s[i] >= i
  {
    if i > 0 {
      AtLeastIndex(s, i - 1);
    }
  }

  // ----- what every run keeps -----

  /** Pending events are accepted ones, in order and without repeats. An event that is stored and pending
      was stored unheard; and as long as nothing was, stored and pending events together are in order. */
  ghost predicate Tidy(w: World) {
    && Ascending(w.Pending())
    && (forall x | x in w.Pending() || x in w.stored :: x < |w.accepted|)
    && (forall x | x in w.unheard :: x in w.stored)
    && (forall x | x in w.Pending() && x in w.stored :: x in w.unheard)
    && (w.unheard == {} ==> Ascending(w.stored + w.Pending()))
  }

  /** Accepted events with equal keys are a window apart. */
  ghost predicate Apart(accepted: seq<Event>) {
    forall i, j | 0 <= i < j < |accepted| && accepted[i].key == accepted[j].key ::
      accepted[j].at - accepted[i].at >= DEDUP_WINDOW
  }

  /** `recent` remembers every accepted event that can still matter, and nothing else. */
  ghost predicate Remembers(w: World) {
    && (forall e | e in w.accepted :: e.at <= w.clock)
    && (forall e | e in w.accepted && w.clock - e.at < DEDUP_WINDOW :: e.key in w.recent && w.recent[e.key] >= e.at)
    && (forall k | k in w.recent :: exists e | e in w.accepted :: e.key == k && e.at == w.recent[k])
  }

  ghost predicate Inv(w: World) { Tidy(w) && Apart(w.accepted) && Remembers(w) }

  /** The decision looks at `recent`, which is pruned, but is the one the whole history gives. */
  lemma PruningInvisible(w: World, key: Key, now: int)
    requires Remembers(w) && now >= w.clock
    ensures TooSoon(w.recent, key, now) <==> exists e | e in w.accepted :: e.key == key && now - e.at < DEDUP_WINDOW
  {
  }

  lemma HappensKeeps(w: World, e: Event, logs: bool)
    requires Inv(w)
    ensures Inv(Next(w, Happens(e, logs)))
  {
    var t := Next(w, Happens(e, logs));
    if e.at >= w.clock && Accepts(w.recent, e, logs) {
      PruningInvisible(w, e.key, e.at);
      AcceptTidy(w, t);
      forall i, j | 0 <= i < j < |t.accepted| && t.accepted[i].key == t.accepted[j].key
        ensures t.accepted[j].at - t.accepted[i].at >= DEDUP_WINDOW
      {
        assert t.accepted[i] in w.accepted;
      }
      AcceptRemembers(w, t, e);
    }
  }

  lemma AcceptTidy(w: World, t: World)
    requires Tidy(w) && t.queue == w.queue + [|w.accepted|] && |t.accepted| == |w.accepted| + 1
    requires t.inFlight == w.inFlight && t.stored == w.stored && t.unheard == w.unheard
    ensures Tidy(t)
  {
    var last := [|w.accepted|];
    assert t.Pending() == w.Pending() + last;
    AscendingJoin(w.Pending(), last);
    if w.unheard == {} {
      assert w.stored + t.Pending() == w.stored + w.Pending() + last;
      AscendingJoin(w.stored + w.Pending(), last);
    }
  }

  lemma AcceptRemembers(w: World, t: World, e: Event)
    requires Remembers(w) && e.at >= w.clock && t.clock == e.at && t.accepted == w.accepted + [e]
    requires t.recent == Remembered(w.recent, e)
    ensures Remembers(t)
  {
    assert forall x :: x in t.accepted <==> x in w.accepted || x == e;
    forall k | k in t.recent ensures exists x | x in t.accepted :: x.key == k && x.at == t.recent[k] {
      RecentIsAccepted(w, e, k);
    }
    forall x | x in t.accepted && t.clock - x.at < DEDUP_WINDOW
      ensures x.key in t.recent && t.recent[x.key] >= x.at
    {
      AcceptedIsRecent(w, e, x);
    }
  }

  lemma RecentIsAccepted(w: World, e: Event, k: Key)
    requires Remembers(w) && k in Remembered(w.recent, e)
    ensures exists x | x in w.accepted + [e] :: x.key == k && x.at == Remembered(w.recent, e)[k]
  {
    if k == e.key {
      assert e in w.accepted + [e];
    } else {
      var x :| x in w.accepted && x.key == k && x.at == w.recent[k];
      assert x in w.accepted + [e];
    }
  }

  lemma AcceptedIsRecent(w: World, e: Event, x: Event)
    requires Remembers(w) && e.at >= w.clock && (x in w.accepted || x == e) && e.at - x.at < DEDUP_WINDOW
    ensures var r := Remembered(w.recent, e); x.key in r && r[x.key] >= x.at
  {
  }

  lemma EndKeeps(w: World, m: Move)
    requires Tidy(w) && !m.Happens?
    ensures Tidy(Next(w, m))
  {
    match m
    case Flush =>
      assert Next(w, m).Pending() == w.Pending();
    case Answered(success, kept) =>
      AnsweredTidy(w, m);
    case Unheard(kept) =>
      if w.inFlight.Some? {
        UnheardTidy(w, m);
      }
  }

  lemma StoredNowAscends(w: World, m: Move)
    requires Tidy(w)
    ensures Ascending(StoredNow(w, m)) && forall x | x in StoredNow(w, m) :: x in w.Batch()
  {
    AscendingParts(w.Batch(), w.queue);
    match m
    case Answered(_, kept) => PartAscends(w.Batch(), kept);
    case Unheard(kept) => PartAscends(w.Batch(), kept);
    case _ =>
  }

  lemma AnsweredTidy(w: World, m: Move)
    requires Tidy(w) && m.Answered?
    ensures Tidy(Next(w, m))
  {
    var t, now := Next(w, m), StoredNow(w, m);
    StoredNowAscends(w, m);
    AscendingParts(w.Batch(), w.queue);
    assert forall x :: x in w.Pending() <==> x in w.Batch() || x in w.queue;
    assert t.Pending() == w.queue;
    assert forall x :: x in t.stored <==> x in w.stored || x in now;
    if w.unheard == {} {
      AnsweredInOrder(w.stored, w.Batch(), w.queue, now);
    }
  }

  lemma AnsweredInOrder(stored: seq<nat>, batch: seq<nat>, queue: seq<nat>, now: seq<nat>)
    requires Ascending(stored + (batch + queue)) && Ascending(now) && forall x | x in now :: x in batch
    ensures Ascending(stored + now + queue)
  {
    AscendingParts(stored, batch + queue);
    AscendingParts(batch, queue);
    assert forall x | x in batch || x in queue :: x in batch + queue;
    AscendingJoin(stored, now);
    AscendingJoin(stored + now, queue);
  }

  lemma PendingSplits(w: World, m: Move)
    requires Tidy(w) && m.Unheard? && w.inFlight.Some?
    ensures Next(w, m).Pending() == Take(w.Pending()) && w.Pending() == Take(w.Pending()) + LeavesNow(w, m)
    ensures Ascending(Take(w.Pending()))
    ensures forall x, y | x in Take(w.Pending()) && y in LeavesNow(w, m) :: x < y
  {
    AscendingParts(Take(w.Pending()), LeavesNow(w, m));
  }

  lemma UnheardTidy(w: World, m: Move)
    requires Tidy(w) && m.Unheard? && w.inFlight.Some?
    ensures Tidy(Next(w, m))
  {
    var t, now := Next(w, m), StoredNow(w, m);
    StoredNowAscends(w, m);
    PendingSplits(w, m);
    assert forall x | x in t.Pending() || x in w.Batch() :: x in w.Pending();
    assert forall x :: x in t.stored <==> x in w.stored || x in now;
    assert forall x :: x in t.unheard <==> x in w.unheard || x in now;
    if t.unheard == {} {
      NothingUnheard(w, m);
    }
  }

  lemma NoMembers(s: seq<nat>)
    ensures s == [] <==> Places(s) == {}
  {
    assert s != [] ==> s[0] in Places(s);
  }

  lemma NothingUnheard(w: World, m: Move)
    requires Tidy(w) && m.Unheard? && w.inFlight.Some? && Next(w, m).unheard == {}
    ensures var t := Next(w, m); Ascending(t.stored + t.Pending())
  {
    var t, now := Next(w, m), StoredNow(w, m);
    NoMembers(now);
    assert now == [] && w.stored + now == w.stored;
    assert w.unheard <= t.unheard && t.stored == w.stored;
    PendingSplits(w, m);
    AscendingParts(w.stored, w.Pending());
    assert forall x | x in t.Pending() :: x in w.Pending();
    AscendingJoin(w.stored, t.Pending());
  }

  lemma {:induction false} RunKeeps(moves: seq<Move>)
    ensures Inv(Run(moves))
  {
    if moves != [] {
      RunKeeps(moves[..|moves| - 1]);
      var w, m := Run(moves[..|moves| - 1]), moves[|moves| - 1];
      if m.Happens? {
        HappensKeeps(w, m.event, m.logs);
      } else {
        EndKeeps(w, m);
      }
    }
  }

  // ----- the theorems -----

  /** Neither at the server nor on the way to it. */
  ghost predicate Lost(w: World, x: nat) {
    x < |w.accepted| && x !in w.stored && x !in w.Pending()
  }

  /** In any run what is in flight and queued is accepted events, in order and without repeats. As long as
      no upload was stored without being heard, what the server has, is in flight and is queued, in this
      order, is so too — and is exactly what was accepted, unless an event is lost. */
  lemma EventsInOrder(moves: seq<Move>)
    ensures var w := Run(moves);
      && Ascending(w.Pending()) && Below(w.stored + w.Pending(), |w.accepted|)
      && (w.unheard == {} ==> Ascending(w.stored + w.Pending()))
      && (w.unheard == {} && (forall x: nat :: !Lost(w, x)) ==>
            EventsOf(w.accepted, w.stored + w.Pending()) == w.accepted)
  {
    RunKeeps(moves);
    var w := Run(moves);
    TidyBelow(w);
    if w.unheard == {} && forall x: nat :: !Lost(w, x) {
      AllInOrder(w);
    }
  }

  lemma TidyBelow(w: World)
    requires Tidy(w)
    ensures Below(w.stored + w.Pending(), |w.accepted|)
  {
    var s := w.stored + w.Pending();
    assert forall i | 0 <= i < |s| :: s[i] in w.stored || s[i] in w.Pending();
  }

  lemma AllInOrder(w: World)
    requires Tidy(w) && w.unheard == {} && forall x: nat :: !Lost(w, x)
    ensures Below(w.stored + w.Pending(), |w.accepted|)
    ensures EventsOf(w.accepted, w.stored + w.Pending()) == w.accepted
  {
    TidyBelow(w);
    var s, n := w.stored + w.Pending(), |w.accepted|;
    forall x: nat | x < n ensures x in s { assert !Lost(w, x); }
    forall i: nat | i < n ensures i < |s| && s[i] == i { EveryPlace(s, n, i); }
    if |s| > n {
      assert s[n] in s;
      AtLeastIndex(s, n);
    }
    if n > 0 { EveryPlace(s, n, n - 1); }
    assert |s| == n;
  }

  ghost predicate LosesExactly(w: World, m: Move, x: nat) {
    Lost(Next(w, m), x) <==> Lost(w, x) || (x in LeavesNow(w, m) && x !in w.stored && x !in StoredNow(w, m))
  }

  lemma LostWhenUnheard(w: World, m: Move, x: nat)
    requires Tidy(w) && m.Unheard? && x < |w.accepted|
    ensures LosesExactly(w, m, x)
  {
    if w.inFlight.Some? {
      PendingSplits(w, m);
      assert x in w.Pending() <==> x in Take(w.Pending()) || x in LeavesNow(w, m);
    }
  }

  lemma LostOtherwise(w: World, m: Move, x: nat)
    requires Tidy(w) && !m.Unheard? && x < |w.accepted|
    ensures LosesExactly(w, m, x)
  {
    AscendingParts(w.Batch(), w.queue);
    assert x in w.Pending() <==> x in w.Batch() || x in w.queue;
    var t := Next(w, m);
    assert x in t.Pending() <==> x in t.Batch() || x in t.queue;
  }

  /** Exactly which events are lost: those that leave the agent — with an answered upload, whatever the
      answer, or beyond the maximum after one without an answer — and that the server did not store, now
      or before. A lost event stays lost. */
  lemma LostExactly(moves: seq<Move>, m: Move, x: nat)
    requires x < |Run(moves).accepted|
    ensures LosesExactly(Run(moves), m, x)
  {
    RunKeeps(moves);
    var w := Run(moves);
    if m.Unheard? {
      LostWhenUnheard(w, m, x);
    } else {
      LostOtherwise(w, m, x);
    }
  }

  /** So a success status loses nothing; an error status loses what was not stored; and without an answer
      only more than 2000 events lose any, and leave the queue full. */
  lemma LeavesExactly(w: World, m: Move)
    ensures m.Answered? && m.success ==> forall x | x in LeavesNow(w, m) :: x in StoredNow(w, m)
    ensures m.Answered? && !m.success ==>
      forall x :: x in LeavesNow(w, m) && x !in StoredNow(w, m) <==> x in w.Batch() && x !in m.kept
    ensures m.Unheard? && w.inFlight.Some? ==>
      && (LeavesNow(w, m) != [] <==> |w.inFlight.value| + |w.queue| > 2000)
      && (LeavesNow(w, m) != [] ==> |Next(w, m).queue| == 2000)
  {
  }

  /** Beyond the maximum it is the newest that go: every event that leaves was accepted after every one that
      stays, and these are the batch and the queue up to the maximum. */
  lemma NewestGo(moves: seq<Move>, m: Move)
    requires m.Unheard? && Run(moves).inFlight.Some?
    ensures var w := Run(moves); var t := Next(w, m);
      && (forall x, y | x in t.queue && y in LeavesNow(w, m) :: x < y)
      && t.queue + LeavesNow(w, m) == w.inFlight.value + w.queue && t.inFlight.None?
  {
    RunKeeps(moves);
    PendingSplits(Run(moves), m);
  }

  ghost predicate Repeats(s: seq<nat>) {
    exists i, j :: 0 <= i < j < |s| && s[i] == s[j]
  }

  /** Exactly when the server gets an event twice: when it stores one that it has stored before in an
      upload it was not heard to answer. */
  lemma RepeatedExactly(moves: seq<Move>, m: Move)
    ensures var w := Run(moves);
      Repeats(Next(w, m).stored) <==> Repeats(w.stored) || exists x :: x in StoredNow(w, m) && x in w.unheard
  {
    RunKeeps(moves);
    var w := Run(moves);
    StoredNowAscends(w, m);
    if Next(w, m).stored == w.stored + StoredNow(w, m) {
      RepeatsSplit(w.stored, StoredNow(w, m));
    }
  }

  lemma RepeatsSplit(a: seq<nat>, b: seq<nat>)
    requires Ascending(b)
    ensures Repeats(a + b) <==> Repeats(a) || exists x :: x in a && x in b
  {
    var s := a + b;
    assert forall i | 0 <= i < |a| :: s[i] == a[i];
    assert forall j | 0 <= j < |b| :: s[|a| + j] == b[j];
    if Repeats(a) {
      var i, j :| 0 <= i < j < |a| && a[i] == a[j];
      assert s[i] == s[j];
    }
    if x :| x in a && x in b {
      var i :| 0 <= i < |a| && a[i] == x;
      var j :| 0 <= j < |b| && b[j] == x;
      assert s[i] == s[|a| + j];
    }
    if Repeats(s) {
      var i, j :| 0 <= i < j < |s| && s[i] == s[j];
      if j < |a| {
        assert a[i] == a[j];
      } else {
        assert s[j] == b[j - |a|] && b[j - |a|] in b;
        if i < |a| {
          assert a[i] in a;
        } else {
          assert b[i - |a|] < b[j - |a|];
        }
      }
    }
  }

  const EXAMPLE := Event(Key("files.example", "blocked"), "https://files.example/", "web", 0)

  lemma RunMore(moves: seq<Move>, m: Move)
    ensures Run(moves + [m]) == Next(Run(moves), m)
  {
    assert (moves + [m])[..|moves|] == moves;
  }

  lemma ExampleFlushed()
    ensures Run([Happens(EXAMPLE, true), Flush]) == World([EXAMPLE], map[EXAMPLE.key := 0], [], Some([0]), [], {}, 0)
  {
    var first, second := Happens(EXAMPLE, true), Flush;
    RunMore([], first);
    RunMore([first], second);
    assert [] + [first] == [first] && [first] + [second] == [first, second];
    var no: seq<nat> := [];
    assert no + [0] == [0];
  }

  /** An input: the server answers an upload with an error, and the event is gone. */
  lemma ErrorAnswerExample()
    ensures var w := Run([Happens(EXAMPLE, true), Flush, Answered(false, {})]);
      w.accepted == [EXAMPLE] && w.stored == [] && w.Pending() == [] && Lost(w, 0)
  {
    var moves, m := [Happens(EXAMPLE, true), Flush], Answered(false, {});
    ExampleFlushed();
    RunMore(moves, m);
    assert moves + [m] == [Happens(EXAMPLE, true), Flush, m];
    assert Part([0], {}) == [];
  }

  /** An input: the server stores an upload and is not heard, and then has the event twice. */
  lemma UnheardExample()
    ensures var once := [Happens(EXAMPLE, true), Flush] + [Unheard({0})];
      Run(once + [Flush] + [Answered(true, {})]).stored == [0, 0]
  {
    ExampleFlushed();
    StoredTwice([Happens(EXAMPLE, true), Flush]);
  }

  lemma StoredTwice(moves: seq<Move>)
    requires var w := Run(moves); w.inFlight == Some([0]) && w.queue == [] && w.stored == []
    ensures Run(moves + [Unheard({0})] + [Flush] + [Answered(true, {})]).stored == [0, 0]
  {
    var once := moves + [Unheard({0})];
    RunMore(moves, Unheard({0}));
    RunMore(once, Flush);
    RunMore(once + [Flush], Answered(true, {}));
    StoredUnheard(Run(moves), 0);
    StoredAgain(Run(once), 0);
  }

  /** One event in flight, stored without being heard, and stored again. */
  lemma StoredUnheard(w: World, x: nat)
    requires w.inFlight == Some([x]) && w.queue == [] && w.stored == []
    ensures var t := Next(w, Unheard({x})); t.inFlight == None && t.queue == [x] && t.stored == [x]
  {
    assert [x][..0] == [] && Part([x], {x}) == [x];
    assert w.Pending() == [x];
  }

  lemma StoredAgain(w: World, x: nat)
    requires w.inFlight == None && w.queue == [x] && w.stored == [x]
    ensures Next(Next(w, Flush), Answered(true, {})).stored == [x, x]
  {
  }

  /** In any run, an event is accepted exactly when it is to be logged and no event with its key was
      accepted in the eight seconds before it — pruning never shows — and so accepted events with
      equal keys are eight seconds apart. */
  lemma AcceptedByHistory(moves: seq<Move>, e: Event, logs: bool)
    requires e.at >= Run(moves).clock
    ensures var w := Run(moves);
      && Apart(w.accepted)
      && (Next(w, Happens(e, logs)).accepted == w.accepted + [e] <==>
            && e.key.action != "allowed" && logs
            && forall x | x in w.accepted && x.key == e.key :: e.at - x.at >= 8000)
  {
    RunKeeps(moves);
    PruningInvisible(Run(moves), e.key, e.at);
    assert Run(moves).accepted != Run(moves).accepted + [e];
  }
}

/** A download that is relayed as it arrives, except for its last chunk, which waits for a verdict. */
module Download {
  import opened Seqs
  import opened Utf8

  /** 4000 MiB: past it a download is hashed but no longer kept. */
  const MAX_SPOOL := 4_194_304_000

  datatype Why = TooLarge | AvFlagged | SpoolFailed | Taken

  /** The copy on disk, or why there is none. */
  datatype Spool = Kept(bytes: Bytes) | Lost(why: Why)

  /** What writing a chunk to disk comes to. */
  datatype Write = Written | FlaggedByOs | Failed

  /** What the upstream body yields. */
  datatype Upstream = Chunk(data: Bytes, write: Write) | Trailers | Broken | End

  datatype Answer = Allow | Block | Died

  /** What is handed to the resolver at the end: everything hashed, its size, and the copy. */
  datatype Finished = Finished(hashed: Bytes, size: nat, spool: Spool)

  /** What poll_frame hands the browser: a frame, an error, the end, or nothing yet. */
  datatype Poll = Frame(data: Bytes) | Error | Finish | Pending

  datatype State = State(
    held: Option<Bytes>, hashed: Bytes, size: nat, spool: Spool,
    resolve: bool, verdict: bool, done: bool)
  {
    /** `record`. */
    function Record(data: Bytes, write: Write): State {
      var size' := size + |data|;
      var spool' :=
        match spool
        case Lost(_) => spool
        case Kept(b) =>
          if size' > MAX_SPOOL then Lost(TooLarge)
          else match write
            case Written => Kept(b + data)
            case FlaggedByOs => Lost(AvFlagged)
            case Failed => Lost(SpoolFailed);
      this.(hashed := hashed + data, size := size', spool := spool')
    }
  }

  /** A new download; `created` says whether the file for the copy could be created. */
  function Fresh(created: bool): State {
    State(None, [], 0, if created then Kept([]) else Lost(SpoolFailed), true, false, false)
  }

  // ----- one event: the specification of the body of the poll loop -----

  /** What the world does to a download: the upstream yields something, or the verdict arrives. */
  datatype Event = Up(u: Upstream) | Verdict(a: Answer)

  /** Events count only when they are polled for: the verdict while it is awaited, the upstream
      otherwise, and nothing once done. */
  predicate Polled(s: State, ev: Event) {
    if s.verdict then ev.Verdict? else !s.done && ev.Up?
  }

  function Step(s: State, ev: Event): (State, Poll) {
    if !Polled(s, ev) then (s, Pending)
    else
      match ev
      case Verdict(Block) => (s.(verdict := false, done := true), Error)
      case Verdict(_) =>
        (s.(held := None, verdict := false, done := true), if s.held.Some? then Frame(s.held.value) else Finish)
      case Up(Broken) => (s.(done := true), Error)
      case Up(Trailers) => (s, Pending)
      case Up(Chunk(data, write)) =>
        if data == [] then (s, Pending)
        else
          (s.Record(data, write).(held := Some(data)), if s.held.Some? then Frame(s.held.value) else Pending)
      case Up(End) => (s.(hashed := [], spool := Lost(Taken), resolve := false, verdict := true), Pending)
  }

  /** What the resolver is called with by an event, if it is called. */
  function Called(s: State, ev: Event): Option<Finished> {
    if Polled(s, ev) && ev == Up(End) then Some(Finished(s.hashed, s.size, s.spool)) else None
  }

  /** A history: the state, what the browser got, every call of the resolver, and the chunks that
      arrived (empty ones left out) with what writing each came to. */
  datatype Run = Run(state: State, out: seq<Poll>, calls: seq<Finished>, chunks: seq<Bytes>, writes: seq<Write>)

  predicate IsData(s: State, ev: Event) {
    Polled(s, ev) && ev.Up? && ev.u.Chunk? && ev.u.data != []
  }

  function Extend(r: Run, ev: Event): Run {
    var (s, p) := Step(r.state, ev);
    var c := Called(r.state, ev);
    Run(s,
        Put(r.out, p),
        if c.Some? then r.calls + [c.value] else r.calls,
        if IsData(r.state, ev) then r.chunks + [ev.u.data] else r.chunks,
        if IsData(r.state, ev) then r.writes + [ev.u.write] else r.writes)
  }

  function RunOf(created: bool, evs: seq<Event>): Run {
    if evs == [] then Run(Fresh(created), [], [], [], [])
    else Extend(RunOf(created, evs[..|evs| - 1]), evs[|evs| - 1])
  }

  function Relayed(out: seq<Poll>): Bytes {
    if out == [] then [] else Relayed(out[..|out| - 1]) + if out[|out| - 1].Frame? then out[|out| - 1].data else []
  }

  function Join(cs: seq<Bytes>): Bytes {
    if cs == [] then [] else Join(cs[..|cs| - 1]) + cs[|cs| - 1]
  }

  lemma RelayedSnoc(out: seq<Poll>, p: Poll)
    ensures Relayed(out + [p]) == Relayed(out) + if p.Frame? then p.data else []
  {
    assert (out + [p])[..|out|] == out;
  }

  lemma JoinSnoc(cs: seq<Bytes>, c: Bytes)
    ensures Join(cs + [c]) == Join(cs) + c
  {
    assert (cs + [c])[..|cs|] == cs;
  }

  function HeldBytes(s: State): Bytes { if s.held.Some? then s.held.value else [] }

  // ----- what every run keeps -----

  /** Nothing is lost, added or reordered on the way to the browser. */
  ghost predicate Conserved(r: Run) {
    Relayed(r.out) + HeldBytes(r.state) == Join(r.chunks)
  }

  /** Until there is an answer, the last chunk is held, and only frames went out. */
  ghost predicate LastHeld(r: Run) {
    !r.state.done ==>
      && r.state.held == (if r.chunks == [] then None else Some(r.chunks[|r.chunks| - 1]))
      && (forall i | 0 <= i < |r.out| :: r.out[i].Frame?)
  }

  /** The resolver is called at most once, when the upstream ends. */
  ghost predicate CalledOnce(r: Run) {
    && |r.calls| <= 1
    && (r.state.resolve <==> r.calls == [])
    && (r.state.verdict ==> !r.state.done && !r.state.resolve)
    && (!r.state.verdict && !r.state.done ==> r.state.resolve)
  }

  predicate AllWritten(writes: seq<Write>) {
    forall i | 0 <= i < |writes| :: writes[i] == Written
  }

  /** The copy exists exactly when it was created, every write worked and the size fits. */
  ghost predicate GoodCopy(created: bool, r: Run, spool: Spool) {
    && (spool.Kept? <==> created && AllWritten(r.writes) && |Join(r.chunks)| <= 4_194_304_000)
    && (spool.Kept? ==> spool.bytes == Join(r.chunks))
  }

  /** Size, hash and copy hold what arrived; that is what the resolver is given. */
  ghost predicate Recorded(created: bool, r: Run) {
    && r.state.size == |Join(r.chunks)|
    && (r.state.resolve ==> r.state.hashed == Join(r.chunks) && GoodCopy(created, r, r.state.spool))
    && (r.calls != [] ==>
      && r.calls[0].hashed == Join(r.chunks) && r.calls[0].size == |Join(r.chunks)|
      && GoodCopy(created, r, r.calls[0].spool))
  }

  ghost predicate Inv(created: bool, r: Run) {
    Conserved(r) && LastHeld(r) && CalledOnce(r) && Recorded(created, r)
  }

  lemma ExtendKeeps(created: bool, r: Run, ev: Event)
    requires Inv(created, r)
    ensures Inv(created, Extend(r, ev))
  {
    if IsData(r.state, ev) {
      ChunkKeeps(created, r, ev);
    } else if Polled(r.state, ev) && ev.Verdict? {
      AnswerKeeps(created, r, ev);
    } else if Polled(r.state, ev) && ev == Up(Broken) {
      BrokenKeeps(created, r);
    } else if Polled(r.state, ev) && ev == Up(End) {
      EndKeeps(created, r);
    } else {
      NothingHappens(r, ev);
    }
  }

  lemma NothingHappens(r: Run, ev: Event)
    requires !IsData(r.state, ev)
    requires !Polled(r.state, ev) || (ev.Up? && (ev.u.Trailers? || ev.u.Chunk?))
    ensures Extend(r, ev) == r
  {
  }

  lemma BrokenKeeps(created: bool, r: Run)
    requires Inv(created, r) && Polled(r.state, Up(Broken))
    ensures Inv(created, Extend(r, Up(Broken)))
  {
    RelayedSnoc(r.out, Error);
    assert Extend(r, Up(Broken)) == r.(state := r.state.(done := true), out := r.out + [Error]);
  }

  lemma AnswerKeeps(created: bool, r: Run, ev: Event)
    requires Inv(created, r) && r.state.verdict && ev.Verdict?
    ensures Inv(created, Extend(r, ev))
  {
    var (t, p) := Step(r.state, ev);
    RelayedSnoc(r.out, p);
    assert Extend(r, ev) == r.(state := t, out := r.out + [p]);
    assert Relayed(r.out + [p]) + HeldBytes(t) == Relayed(r.out) + HeldBytes(r.state);
  }

  lemma EndKeeps(created: bool, r: Run)
    requires Inv(created, r) && Polled(r.state, Up(End))
    ensures Inv(created, Extend(r, Up(End)))
  {
    var s := r.state;
    var t := s.(hashed := [], spool := Lost(Taken), resolve := false, verdict := true);
    assert Extend(r, Up(End)) == r.(state := t, calls := [Finished(s.hashed, s.size, s.spool)]);
  }

  lemma ChunkKeeps(created: bool, r: Run, ev: Event)
    requires Inv(created, r) && IsData(r.state, ev)
    ensures Inv(created, Extend(r, ev))
  {
    var s, data := r.state, ev.u.data;
    var t := Extend(r, ev);
    var recorded := s.Record(data, ev.u.write);
    assert t.state == recorded.(held := Some(data)) && t.chunks == r.chunks + [data] && t.calls == r.calls;
    RecordKeeps(created, r, data, ev.u.write, t);
    ChunkConserves(r, data, t);
  }

  lemma RecordKeeps(created: bool, r: Run, data: Bytes, write: Write, t: Run)
    requires Recorded(created, r) && r.state.resolve && r.calls == []
    requires t.state == r.state.Record(data, write).(held := Some(data))
    requires t.chunks == r.chunks + [data] && t.calls == [] && t.writes == r.writes + [write]
    ensures Recorded(created, t)
  {
    JoinSnoc(r.chunks, data);
    assert AllWritten(t.writes) <==> AllWritten(r.writes) && write == Written by {
      assert t.writes[|r.writes|] == write && forall i | 0 <= i < |r.writes| :: t.writes[i] == r.writes[i];
    }
  }

  lemma ChunkConserves(r: Run, data: Bytes, t: Run)
    requires Conserved(r) && LastHeld(r) && !r.state.done
    requires t.state.held == Some(data) && !t.state.done && t.chunks == r.chunks + [data]
    requires t.out == Put(r.out, if r.state.held.Some? then Frame(r.state.held.value) else Pending)
    ensures Conserved(t) && LastHeld(t)
  {
    JoinSnoc(r.chunks, data);
    if r.state.held.Some? {
      RelayedSnoc(r.out, Frame(r.state.held.value));
    }
    assert Relayed(t.out) == Join(r.chunks);
  }

  lemma {:induction false} RunKeeps(created: bool, evs: seq<Event>)
    ensures Inv(created, RunOf(created, evs))
  {
    if evs != [] {
      RunKeeps(created, evs[..|evs| - 1]);
      ExtendKeeps(created, RunOf(created, evs[..|evs| - 1]), evs[|evs| - 1]);
    }
  }

  // ----- the theorems -----

  function AllButLast(cs: seq<Bytes>): seq<Bytes> {
    if cs == [] then [] else cs[..|cs| - 1]
  }

  lemma LastWithheld(r: Run)
    requires Conserved(r) && LastHeld(r) && !r.state.done
    ensures Relayed(r.out) == Join(AllButLast(r.chunks))
  {
    if r.chunks != [] {
      var last := r.chunks[|r.chunks| - 1];
      var before := Join(AllButLast(r.chunks));
      assert Join(r.chunks) == before + last;
      assert (Relayed(r.out) + last)[..|before|] == (before + last)[..|before|];
    }
  }

  /** At any time in any run: what went out and what is held make up what arrived; the resolver was
      called at most once and, if at all, with the whole download; before an answer the browser has
      everything except the last chunk. */
  lemma EveryRun(created: bool, evs: seq<Event>)
    ensures var r := RunOf(created, evs);
      && Relayed(r.out) + HeldBytes(r.state) == Join(r.chunks)
      && |r.calls| <= 1
      && (r.calls != [] ==> r.calls[0].hashed == Join(r.chunks) && r.calls[0].size == |Join(r.chunks)|)
      && (r.calls != [] ==> (r.calls[0].spool == Kept(Join(r.chunks)) <==>
        created && AllWritten(r.writes) && |Join(r.chunks)| <= 4_194_304_000))
      && (!r.state.done ==> Relayed(r.out) == Join(AllButLast(r.chunks)))
  {
    RunKeeps(created, evs);
    var r := RunOf(created, evs);
    if !r.state.done {
      LastWithheld(r);
    }
  }

  /** The answer decides: allowed, or a resolver that died, and the browser has received exactly what
      arrived, without an error; blocked, and it received everything but the last chunk and then an
      error. */
  lemma AnswerDecides(created: bool, evs: seq<Event>, a: Answer)
    requires RunOf(created, evs).state.verdict
    ensures var before := RunOf(created, evs);
      var r := RunOf(created, evs + [Verdict(a)]);
      && r.state.done && r.chunks == before.chunks
      && (a != Block ==> Relayed(r.out) == Join(r.chunks) && Error !in r.out)
      && (a == Block ==> r.out == before.out + [Error] && Relayed(r.out) == Join(AllButLast(r.chunks)))
  {
    var before := RunOf(created, evs);
    RunKeeps(created, evs);
    LastWithheld(before);
    assert (evs + [Verdict(a)])[..|evs|] == evs;
    assert RunOf(created, evs + [Verdict(a)]) == Extend(before, Verdict(a));
    AnswerFrame(before, a);
  }

  lemma AnswerFrame(r: Run, a: Answer)
    requires r.state.verdict && Conserved(r) && LastHeld(r) && !r.state.done
    ensures var t := Extend(r, Verdict(a));
      && t.state.done && t.chunks == r.chunks
      && (a != Block ==> Relayed(t.out) == Join(r.chunks) && Error !in t.out)
      && (a == Block ==> t.out == r.out + [Error] && Relayed(t.out) == Relayed(r.out))
  {
    var (s, p) := Step(r.state, Verdict(a));
    RelayedSnoc(r.out, p);
    var t := Extend(r, Verdict(a));
    assert t.state == s && t.out == r.out + [p] && t.chunks == r.chunks;
    assert Error !in r.out;
    if a != Block {
      assert p != Error && Relayed(r.out + [p]) == Relayed(r.out) + HeldBytes(r.state);
    }
  }

  /** Once done, nothing moves any more. */
  lemma DoneStays(created: bool, evs: seq<Event>, ev: Event)
    requires RunOf(created, evs).state.done
    ensures RunOf(created, evs + [ev]) == RunOf(created, evs)
  {
    RunKeeps(created, evs);
    assert (evs + [ev])[..|evs|] == evs;
  }

  lemma BrokenFrame(r: Run)
    requires Conserved(r) && LastHeld(r) && !r.state.done && !r.state.verdict
    ensures Extend(r, Up(Broken)) == r.(state := r.state.(done := true), out := r.out + [Error])
    ensures Relayed(r.out + [Error]) == Join(AllButLast(r.chunks))
  {
    LastWithheld(r);
    RelayedSnoc(r.out, Error);
  }

  /** An upstream that breaks before its end is answered with an error, and the last chunk stays withheld;
      nobody is asked for a verdict. */
  lemma BrokenEnds(created: bool, evs: seq<Event>)
    requires var s := RunOf(created, evs).state; !s.done && !s.verdict
    ensures var before, r := RunOf(created, evs), RunOf(created, evs + [Up(Broken)]);
      && r.state.done && r.out == before.out + [Error] && r.chunks == before.chunks && r.calls == []
      && Relayed(r.out) == Join(AllButLast(r.chunks))
  {
    RunKeeps(created, evs);
    BrokenFrame(RunOf(created, evs));
    RunMore(created, evs, Up(Broken));
  }

  lemma RunMore(created: bool, evs: seq<Event>, ev: Event)
    ensures RunOf(created, evs + [ev]) == Extend(RunOf(created, evs), ev)
  {
    assert (evs + [ev])[..|evs|] == evs;
  }

  /** The verdict was awaited, and came: allowed, or the resolver died. */
  ghost predicate ReleasedAt(created: bool, evs: seq<Event>, i: nat) {
    i < |evs| && RunOf(created, evs[..i]).state.verdict && (evs[i] == Verdict(Allow) || evs[i] == Verdict(Died))
  }

  ghost predicate Released(created: bool, evs: seq<Event>) {
    exists i: nat :: ReleasedAt(created, evs, i)
  }

  lemma ReleasedMore(created: bool, evs: seq<Event>)
    requires evs != []
    ensures Released(created, evs) <==>
      Released(created, evs[..|evs| - 1]) || ReleasedAt(created, evs, |evs| - 1)
  {
    var before := evs[..|evs| - 1];
    assert forall i: nat | i < |before| :: before[..i] == evs[..i] && before[i] == evs[i];
    forall i: nat | i < |before| ensures ReleasedAt(created, evs, i) == ReleasedAt(created, before, i) {
    }
    if i: nat :| ReleasedAt(created, evs, i) && i < |before| {
      assert ReleasedAt(created, before, i);
    }
    if i: nat :| ReleasedAt(created, before, i) {
      assert ReleasedAt(created, evs, i);
    }
  }

  /** The whole download is out, or all but its last chunk. */
  ghost predicate OutOrWithheld(r: Run, released: bool) {
    && (forall c | c in r.chunks :: c != [])
    && (if released then r.state.done && Relayed(r.out) == Join(r.chunks)
        else Relayed(r.out) == Join(AllButLast(r.chunks)))
  }

  lemma StepOutOrWithheld(created: bool, r: Run, ev: Event, released: bool)
    requires Inv(created, r) && OutOrWithheld(r, released)
    ensures OutOrWithheld(Extend(r, ev), released || (r.state.verdict && (ev == Verdict(Allow) || ev == Verdict(Died))))
  {
    if !Polled(r.state, ev) {
      NothingHappens(r, ev);
    } else if ev.Verdict? {
      LastWithheld(r);
      AnswerFrame(r, ev.a);
    } else if ev.u.Broken? {
      BrokenFrame(r);
    } else {
      ExtendKeeps(created, r, ev);
      StillWithheld(r, ev);
    }
  }

  lemma StillWithheld(r: Run, ev: Event)
    requires Polled(r.state, ev) && ev.Up? && !ev.u.Broken?
    requires var t := Extend(r, ev); Conserved(t) && LastHeld(t)
    requires forall c | c in r.chunks :: c != []
    ensures !r.state.done && OutOrWithheld(Extend(r, ev), false)
  {
    var t := Extend(r, ev);
    LastWithheld(t);
    assert forall c | c in t.chunks :: c in r.chunks || (IsData(r.state, ev) && c == ev.u.data);
  }

  lemma {:induction false} ReleasedOrWithheld(created: bool, evs: seq<Event>)
    ensures OutOrWithheld(RunOf(created, evs), Released(created, evs))
  {
    if evs != [] {
      var before, ev := evs[..|evs| - 1], evs[|evs| - 1];
      ReleasedMore(created, evs);
      ReleasedOrWithheld(created, before);
      RunKeeps(created, before);
      StepOutOrWithheld(created, RunOf(created, before), ev, Released(created, before));
    }
  }

  /** In any run with a chunk, the browser has the whole download exactly when a verdict that was awaited
      has come and does not block. */
  lemma OnlyAnAnswerReleases(created: bool, evs: seq<Event>)
    ensures var r := RunOf(created, evs);
      r.chunks != [] ==> (Relayed(r.out) == Join(r.chunks) <==> Released(created, evs))
  {
    ReleasedOrWithheld(created, evs);
    var r := RunOf(created, evs);
    if r.chunks != [] {
      var last := r.chunks[|r.chunks| - 1];
      assert last in r.chunks;
      assert |Join(r.chunks)| == |Join(AllButLast(r.chunks))| + |last|;
    }
  }

  // ----- why there is no copy -----

  /** The copy was lost at the k-th chunk, and for this reason: the chunk made the download too large, or
      else the system's virus scanner refused the write, or it failed otherwise. */
  ghost predicate LostAt(r: Run, k: nat, why: Why) {
    && k < |r.chunks| == |r.writes|
    && (forall j | 0 <= j < k :: r.writes[j] == Written) && |Join(r.chunks[..k])| <= 4_194_304_000
    && (if |Join(r.chunks[..k + 1])| > 4_194_304_000 then why == TooLarge
        else (r.writes[k] == FlaggedByOs && why == AvFlagged) || (r.writes[k] == Failed && why == SpoolFailed))
  }

  ghost predicate LostFor(created: bool, r: Run, spool: Spool) {
    spool.Lost? ==> if created then exists k: nat :: LostAt(r, k, spool.why) else spool.why == SpoolFailed
  }

  ghost predicate Explained(created: bool, r: Run) {
    && |r.chunks| == |r.writes|
    && (r.state.resolve ==> LostFor(created, r, r.state.spool))
    && (r.calls != [] ==> LostFor(created, r, r.calls[0].spool))
  }

  lemma LostEarlier(r: Run, data: Bytes, write: Write, k: nat, why: Why)
    requires LostAt(r, k, why)
    ensures LostAt(r.(chunks := r.chunks + [data], writes := r.writes + [write]), k, why)
  {
    assert (r.chunks + [data])[..k + 1] == r.chunks[..k + 1] && (r.chunks + [data])[..k] == r.chunks[..k];
  }

  lemma ChunkExplained(created: bool, r: Run, data: Bytes, write: Write)
    requires Recorded(created, r) && Explained(created, r) && r.state.resolve && r.calls == []
    ensures var t := r.(chunks := r.chunks + [data], writes := r.writes + [write]);
      LostFor(created, t, r.state.Record(data, write).spool)
  {
    var t := r.(chunks := r.chunks + [data], writes := r.writes + [write]);
    var spool := r.state.Record(data, write).spool;
    if created && spool.Lost? {
      if r.state.spool.Lost? {
        var k: nat :| LostAt(r, k, r.state.spool.why);
        LostEarlier(r, data, write, k, r.state.spool.why);
      } else {
        JoinSnoc(r.chunks, data);
        assert t.chunks[..|r.chunks|] == r.chunks && t.chunks[..|r.chunks| + 1] == t.chunks;
        assert forall j | 0 <= j < |r.chunks| :: t.writes[j] == r.writes[j];
        assert LostAt(t, |r.chunks|, spool.why);
      }
    }
  }

  lemma ExtendExplained(created: bool, r: Run, ev: Event)
    requires Inv(created, r) && Explained(created, r)
    ensures Explained(created, Extend(r, ev))
  {
    if IsData(r.state, ev) {
      ChunkExplained(created, r, ev.u.data, ev.u.write);
      var t, copied := Extend(r, ev), r.(chunks := r.chunks + [ev.u.data], writes := r.writes + [ev.u.write]);
      assert t.chunks == copied.chunks && t.writes == copied.writes && t.calls == [];
      SameLost(created, copied, t, t.state.spool);
    } else {
      var t := Extend(r, ev);
      assert t.chunks == r.chunks && t.writes == r.writes;
      if r.state.resolve {
        SameLost(created, r, t, r.state.spool);
      }
      if r.calls != [] {
        SameLost(created, r, t, r.calls[0].spool);
      }
    }
  }

  lemma SameLost(created: bool, r: Run, t: Run, spool: Spool)
    requires t.chunks == r.chunks && t.writes == r.writes && LostFor(created, r, spool)
    ensures LostFor(created, t, spool)
  {
    if created && spool.Lost? {
      var k: nat :| LostAt(r, k, spool.why);
      assert LostAt(t, k, spool.why);
    }
  }

  lemma {:induction false} RunExplained(created: bool, evs: seq<Event>)
    ensures Explained(created, RunOf(created, evs))
  {
    if evs != [] {
      RunExplained(created, evs[..|evs| - 1]);
      RunKeeps(created, evs[..|evs| - 1]);
      ExtendExplained(created, RunOf(created, evs[..|evs| - 1]), evs[|evs| - 1]);
    }
  }

  /** A resolver that gets no copy is told the true reason: that of the first chunk that could not be kept. */
  lemma WhyThereIsNoCopy(created: bool, evs: seq<Event>)
    ensures var r := RunOf(created, evs);
      r.calls != [] && r.calls[0].spool.Lost? ==>
        if created then exists k: nat :: LostAt(r, k, r.calls[0].spool.why)
        else r.calls[0].spool.why == SpoolFailed
  {
    RunExplained(created, evs);
  }

  // ----- a download that goes well -----

  /** The upstream is up and yields only chunks and trailers. */
  predicate Flows(evs: seq<Event>) {
    forall ev | ev in evs :: ev.Up? && (ev.u.Chunk? || ev.u.Trailers?)
  }

  /** The bytes of the chunks among these events. */
  function Sent(evs: seq<Event>): Bytes {
    if evs == [] then []
    else
      var ev := evs[|evs| - 1];
      Sent(evs[..|evs| - 1]) + if ev.Up? && ev.u.Chunk? then ev.u.data else []
  }

  lemma {:induction false} FlowKeeps(created: bool, evs: seq<Event>)
    requires Flows(evs)
    ensures var r := RunOf(created, evs);
      && Join(r.chunks) == Sent(evs) && r.calls == [] && !r.state.verdict && !r.state.done
  {
    if evs != [] {
      var before, ev := evs[..|evs| - 1], evs[|evs| - 1];
      assert ev in evs && forall e | e in before :: e in evs;
      FlowKeeps(created, before);
      var r := RunOf(created, before);
      if IsData(r.state, ev) {
        JoinSnoc(r.chunks, ev.u.data);
      } else {
        NothingHappens(r, ev);
      }
    }
  }

  /** Whatever the upstream sends before its end, the resolver is then asked once, about all of it, and what
      it answers decides: the browser gets everything without an error, or an error in place of the last
      chunk. */
  lemma NormalRun(created: bool, evs: seq<Event>, a: Answer)
    requires Flows(evs)
    ensures var r := RunOf(created, evs + [Up(End)] + [Verdict(a)]);
      && r.state.done && |r.calls| == 1 && r.calls[0].hashed == Sent(evs) && r.calls[0].size == |Sent(evs)|
      && (if a == Block then Error in r.out && (Sent(evs) != [] ==> Relayed(r.out) < Sent(evs))
          else Error !in r.out && Relayed(r.out) == Sent(evs))
  {
    var all := evs + [Up(End)];
    FlowKeeps(created, evs);
    RunKeeps(created, evs);
    RunMore(created, evs, Up(End));
    RunKeeps(created, all);
    AnswerDecides(created, all, a);
    RunMore(created, all, Verdict(a));
    RunKeeps(created, all + [Verdict(a)]);
    assert Called(RunOf(created, all).state, Verdict(a)) == None;
    ReleasedOrWithheld(created, all);
    if Sent(evs) != [] && a == Block {
      WithheldIsLess(RunOf(created, all).chunks);
    }
  }

  lemma WithheldIsLess(cs: seq<Bytes>)
    requires Join(cs) != [] && forall c | c in cs :: c != []
    ensures Join(AllButLast(cs)) < Join(cs)
  {
    assert cs[|cs| - 1] in cs;
  }

  // ----- the body itself -----

  /** Several events, oldest first: the state after them and what they put out. */
  function Steps(s: State, evs: seq<Event>): (State, seq<Poll>) {
    if evs == [] then (s, [])
    else
      var (t, out) := Steps(s, evs[..|evs| - 1]);
      var (t', p) := Step(t, evs[|evs| - 1]);
      (t', Put(out, p))
  }

  function Put(out: seq<Poll>, p: Poll): (r: seq<Poll>)
    ensures out == [] && p != Pending ==> r == [p]
  {
    if p == Pending then out else out + [p]
  }

  lemma StepsSnoc(s: State, evs: seq<Event>, ev: Event)
    ensures var (t, out) := Steps(s, evs); var (t', p) := Step(t, ev);
      Steps(s, evs + [ev]) == (t', Put(out, p))
  {
    assert (evs + [ev])[..|evs|] == evs;
  }

  function Ups(us: seq<Upstream>): seq<Event> {
    seq(|us|, i requires 0 <= i < |us| => Up(us[i]))
  }

  lemma UpsMore(us: seq<Upstream>, n: nat)
    requires n < |us|
    ensures Ups(us[..n + 1]) == Ups(us[..n]) + [Up(us[n])]
  {
  }

  class ScannedDownload {
    var held: Option<Bytes>
    var hashed: Bytes
    var size: nat
    var spool: Spool
    var resolve: bool
    var verdict: bool
    var done: bool

    function View(): State
      reads this
    {
      State(held, hashed, size, spool, resolve, verdict, done)
    }

    constructor (created: bool)
      ensures View() == Fresh(created)
    {
      held, hashed, size, resolve, verdict, done := None, [], 0, true, false, false;
      spool := if created then Kept([]) else Lost(SpoolFailed);
    }

    /** Hash and copy one chunk. */
    method Record(data: Bytes, write: Write)
      modifies this
      ensures View() == old(View()).Record(data, write)
    {
      hashed := hashed + data;
      size := size + |data|;
      if spool.Kept? {
        if size > MAX_SPOOL {
          spool := Lost(TooLarge);
        } else if write == FlaggedByOs {
          spool := Lost(AvFlagged);
        } else if write == Failed {
          spool := Lost(SpoolFailed);
        } else {
          spool := Kept(spool.bytes + data);
        }
      }
    }

    /** The verdict has arrived. */
    method TakeAnswer(a: Answer) returns (p: Poll)
      requires verdict
      modifies this
      ensures (View(), p) == Step(old(View()), Verdict(a))
    {
      verdict := false;
      done := true;
      if a == Block {
        return Error;
      }
      p := if held.Some? then Frame(held.value) else Finish;
      held := None;
    }

    /** The upstream has yielded something. */
    method TakeUpstream(u: Upstream) returns (p: Poll)
      requires !verdict && !done && resolve  // the code's `expect("resolved once")` never fails
      modifies this
      ensures (View(), p) == Step(old(View()), Up(u))
    {
      p := Pending;
      match u
      case Broken =>
        done := true;
        p := Error;
      case Trailers =>
      case Chunk(data, write) =>
        if data != [] {
          Record(data, write);
          p := if held.Some? then Frame(held.value) else Pending;
          held := Some(data);
        }
      case End =>
        hashed, spool, resolve, verdict := [], Lost(Taken), false, true;
    }

    /** `poll_frame`: takes from what the upstream has ready, and the answer if it is there, until
        there is something to hand out. */
    method PollFrame(ready: seq<Upstream>, answer: Option<Answer>) returns (p: Poll, used: nat, ghost evs: seq<Event>)
      requires verdict || done || resolve
      modifies this
      ensures verdict || done || resolve
      ensures old(done) && !old(verdict) ==> p == Finish && View() == old(View())
      ensures !old(done) || old(verdict) ==> Steps(old(View()), evs) == (View(), if p == Pending then [] else [p])
      ensures used <= |ready|
      ensures evs == Ups(ready[..used]) || (answer.Some? && evs == Ups(ready[..used]) + [Verdict(answer.value)])
      ensures p == Pending ==> if verdict then answer.None? else used == |ready|
    {
      used, evs := 0, [];
      if done && !verdict {
        return Finish, used, evs;
      }
      ghost var start := View();
      while !verdict
        invariant used <= |ready| && evs == Ups(ready[..used])
        invariant Steps(start, evs) == (View(), [])
        invariant verdict || (!done && resolve)
        decreases |ready| - used, if verdict then 0 else 1
      {
        if used == |ready| {
          return Pending, used, evs;
        }
        StepsSnoc(start, evs, Up(ready[used]));
        UpsMore(ready, used);
        p := TakeUpstream(ready[used]);
        used := used + 1;
        evs := Ups(ready[..used]);
        if p != Pending {
          return p, used, evs;
        }
      }
      if answer.None? {
        return Pending, used, evs;
      }
      StepsSnoc(start, evs, Verdict(answer.value));
      evs := evs + [Verdict(answer.value)];
      p := TakeAnswer(answer.value);
    }
  }
}

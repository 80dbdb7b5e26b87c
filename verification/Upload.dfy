/** Uploading a file to a scan job in parts, over a network that loses requests and responses.
    The server side is admin-api's scan job. */
module Upload {
  import opened Seqs
  import opened Utf8

  // ----- the server -----

  /** A scan job; it accepts parts while it is open. */
  datatype Job = Job(size: nat, stored: Bytes, open: bool)

  datatype Reply = Ok(received: nat) | Conflict(received: nat) | BadRequest

  /** PUT of a part at `offset`, of which `arrived` bytes reach the server before the connection ends,
      and for which its disk has `room`. A job that is closed answers 409 without saying what it
      received, which the agent reads as 0. */
  function PutPart(job: Job, offset: nat, part: Bytes, arrived: nat, room: nat): (Job, Reply)
    requires arrived <= |part| && |job.stored| <= job.size
  {
    var received := |job.stored|;
    if !job.open then (job, Conflict(0))
    else if offset < received then (job, Ok(received))
    else if offset > received then (job, Conflict(received))
    else
      var limit := job.size - received + 1;
      var wanted := Min(arrived, limit);
      var stored := job.stored + part[..Min(wanted, room)];
      // Cut short, not written or too large, the part spoils the job; what it stored is never read again.
      if wanted < Min(|part|, limit) || room < wanted || |stored| > job.size then
        (job.(stored := if |stored| > job.size then stored[..job.size] else stored, open := false), BadRequest)
      else (job.(stored := stored), Ok(|stored|))
  }

  // ----- the agent -----

  /** What becomes of one round. */
  datatype Fate =
    | Answered          // request and response arrive
    | RequestLost       // the server never sees it
    | ResponseLost      // the server acts, the agent does not hear
    | Refused           // somebody answers with another status; the job is not touched
    | Cut(arrived: nat) // the connection breaks while the part is being sent
    | DiskFull(room: nat) // request and response arrive, but the server can write no more than this
    | Garbled           // a response arrives that cannot be read

  datatype Client = Uploading(offset: nat, failures: nat) | Uploaded | Failed

  datatype State = State(client: Client, job: Job)

  function Start(file: Bytes): State {
    State(At(file, 0, 0), Job(|file|, [], true))
  }

  /** The loop condition. */
  function At(file: Bytes, offset: nat, failures: nat): Client {
    if offset < |file| then Uploading(offset, failures) else Uploaded
  }

  function OneMoreFailure(failures: nat, offset: nat): Client {
    if failures + 1 > 3 then Failed else Uploading(offset, failures + 1)
  }

  function PartAt(file: Bytes, offset: nat, partBytes: nat): Bytes
    requires offset < |file|
  {
    file[offset..offset + Min(partBytes, |file| - offset)]
  }

  ghost predicate Fits(file: Bytes, s: State) {
    && s.job.size == |file| && s.job.stored <= file
    && (s.client.Uploading? ==> s.client.offset < |file| && s.client.failures <= 3)
  }

  /** One round of the loop. */
  function Round(file: Bytes, partBytes: nat, s: State, fate: Fate): State
    requires Fits(file, s)
  {
    if !s.client.Uploading? then s
    else
      var Uploading(offset, failures) := s.client;
      var part := PartAt(file, offset, partBytes);
      match fate
      case RequestLost => s.(client := OneMoreFailure(failures, offset))
      case Refused => s.(client := OneMoreFailure(failures, offset))
      case Cut(arrived) =>
        State(OneMoreFailure(failures, offset), PutPart(s.job, offset, part, Min(arrived, |part|), |part|).0)
      case ResponseLost => State(OneMoreFailure(failures, offset), PutPart(s.job, offset, part, |part|, |part|).0)
      case Garbled =>
        var (job, reply) := PutPart(s.job, offset, part, |part|, |part|);
        State(if reply == BadRequest then OneMoreFailure(failures, offset) else Failed, job)
      case Answered => Heard(file, s.client, PutPart(s.job, offset, part, |part|, |part|))
      case DiskFull(room) => Heard(file, s.client, PutPart(s.job, offset, part, |part|, room))
  }

  /** What the agent does with a response it can read. */
  function Heard(file: Bytes, c: Client, r: (Job, Reply)): State
    requires c.Uploading?
  {
    State(if r.1 == BadRequest then OneMoreFailure(c.failures, c.offset) else At(file, r.1.received, c.failures), r.0)
  }

  /** Whatever happens, what the server has stored is a growing prefix of the file. */
  lemma RoundFits(file: Bytes, partBytes: nat, s: State, fate: Fate)
    requires Fits(file, s)
    ensures Fits(file, Round(file, partBytes, s, fate))
    ensures Round(file, partBytes, s, fate).job.open ==> s.job.open
    ensures s.job.stored <= Round(file, partBytes, s, fate).job.stored
  {
    if s.client.Uploading? {
      var offset := s.client.offset;
      var part := PartAt(file, offset, partBytes);
      if offset == |s.job.stored| {
        assert s.job.stored == file[..offset];
        assert file[..offset] + part == file[..offset + |part|];
        forall n: nat | n <= |part| ensures s.job.stored + part[..n] <= file {
          assert file[..offset] + part[..n] == file[..offset + n];
        }
        assert part[..|part|] == part;
      }
    }
  }

  /** How much of the part sent in this round ends up on the server's disk, if the server wants it. */
  function Reaches(fate: Fate, part: nat): nat {
    match fate
    case RequestLost => 0
    case Refused => 0
    case Cut(arrived) => Min(arrived, part)
    case DiskFull(room) => Min(room, part)
    case _ => part
  }

  /** A round at the server's own offset stores the next bytes of the file, as far as they get; a round at
      another offset, or on a closed job, stores nothing. An answered round puts the agent where the server
      is, the end of the file ending the loop, or back at 0 when the job is closed. */
  lemma RoundMoves(file: Bytes, partBytes: nat, s: State, fate: Fate)
    requires Fits(file, s) && s.client.Uploading?
    ensures var t := Round(file, partBytes, s, fate);
      var at := |s.job.stored|;
      && (if s.job.open && s.client.offset == at
          then var n := Reaches(fate, Min(partBytes, |file| - at));
            at + n <= |file| && t.job.stored == file[..at + n]
          else t.job == s.job)
      && (fate == Answered ==>
        if !s.job.open then t.client == Uploading(0, s.client.failures)
        else if t.job.stored == file then t.client == Uploaded
        else t.client == Uploading(|t.job.stored|, s.client.failures))
      && (fate == RequestLost || fate == Refused || fate == ResponseLost || fate.Cut? ==>
        t.client == if s.client.failures == 3 then Failed
                    else Uploading(s.client.offset, s.client.failures + 1))
  {
    RoundFits(file, partBytes, s, fate);
    var part := PartAt(file, s.client.offset, partBytes);
    var t := Round(file, partBytes, s, fate);
    assert t.job.stored == file[..|t.job.stored|];
    assert s.job.stored == file[..|s.job.stored|];
    assert |s.job.stored| == |file| <==> s.job.stored == file;
    assert |t.job.stored| == |file| <==> t.job.stored == file;
  }

  /** More than the size announced is never kept: such a part is turned down and spoils the job. */
  lemma TooMuchIsTurnedDown(job: Job, part: Bytes, room: nat)
    requires job.open && |job.stored| <= job.size < |job.stored| + |part| && |part| <= room
    ensures var (after, reply) := PutPart(job, |job.stored|, part, |part|, room);
      reply == BadRequest && !after.open && |after.stored| == job.size && job.stored <= after.stored
  {
  }

  function Run(file: Bytes, partBytes: nat, fates: seq<Fate>): (s: State)
    ensures Fits(file, s)
  {
    if fates == [] then Start(file)
    else
      var before := Run(file, partBytes, fates[..|fates| - 1]);
      RoundFits(file, partBytes, before, fates[|fates| - 1]);
      Round(file, partBytes, before, fates[|fates| - 1])
  }

  // ----- exactness -----

  lemma RoundExact(file: Bytes, partBytes: nat, s: State, fate: Fate)
    requires Fits(file, s)
    requires s.client == Uploaded ==> s.job.stored == file && s.job.open
    ensures var t := Round(file, partBytes, s, fate); t.client == Uploaded ==> t.job.stored == file && t.job.open
  {
    RoundFits(file, partBytes, s, fate);
  }

  /** Whatever gets lost: once the agent is through, the server holds the file — no gap, no repeat,
      nothing out of order — and the job is still open to be completed. */
  lemma {:induction false} UploadedIsExact(file: Bytes, partBytes: nat, fates: seq<Fate>)
    ensures var s := Run(file, partBytes, fates);
      && s.job.stored <= file
      && (s.client == Uploaded ==> s.job.stored == file && s.job.open)
  {
    if fates != [] {
      UploadedIsExact(file, partBytes, fates[..|fates| - 1]);
      RoundExact(file, partBytes, Run(file, partBytes, fates[..|fates| - 1]), fates[|fates| - 1]);
    }
  }

  // ----- failures -----

  /** The agent does not hear from the server in this round, or hears that the part was not stored. */
  predicate Fails(file: Bytes, partBytes: nat, s: State, fate: Fate)
    requires Fits(file, s)
  {
    && s.client.Uploading?
    && match fate {
      case RequestLost => true
      case ResponseLost => true
      case Refused => true
      case Cut(_) => true
      case DiskFull(room) => NotWritten(file, partBytes, s, room)
      case Answered => false
      case Garbled => false
    }
  }

  /** The server would write the part, and has no room for all of it. */
  predicate NotWritten(file: Bytes, partBytes: nat, s: State, room: nat)
    requires Fits(file, s) && s.client.Uploading?
  {
    s.job.open && s.client.offset == |s.job.stored| && room < |PartAt(file, s.client.offset, partBytes)|
  }

  /** The failed rounds of a run. */
  function FailuresIn(file: Bytes, partBytes: nat, fates: seq<Fate>): nat {
    if fates == [] then 0
    else
      var before := fates[..|fates| - 1];
      FailuresIn(file, partBytes, before)
      + if Fails(file, partBytes, Run(file, partBytes, before), fates[|fates| - 1]) then 1 else 0
  }

  /** A part that arrives whole is turned down exactly when the server cannot write it. */
  lemma WholePartAccepted(file: Bytes, partBytes: nat, s: State, room: nat)
    requires Fits(file, s) && s.client.Uploading?
    ensures var part := PartAt(file, s.client.offset, partBytes);
      PutPart(s.job, s.client.offset, part, |part|, room).1 == BadRequest <==> NotWritten(file, partBytes, s, room)
  {
  }

  lemma RoundCounts(file: Bytes, partBytes: nat, s: State, fate: Fate)
    requires Fits(file, s) && s.client.Uploading?
    ensures var c := Round(file, partBytes, s, fate).client;
      if Fails(file, partBytes, s, fate) then c == OneMoreFailure(s.client.failures, s.client.offset)
      else if fate == Garbled then c == Failed
      else c.Uploaded? || (c.Uploading? && c.failures == s.client.failures)
  {
    var part := PartAt(file, s.client.offset, partBytes);
    WholePartAccepted(file, partBytes, s, |part|);
    if fate.DiskFull? {
      WholePartAccepted(file, partBytes, s, fate.room);
    }
  }

  /** Three failed rounds are tolerated, the fourth is not: an agent still at it has seen exactly the
      failures it has counted, and without an unreadable response only four failures make it fail. */
  lemma {:induction false} ThreeFailuresTolerated(file: Bytes, partBytes: nat, fates: seq<Fate>)
    ensures var c := Run(file, partBytes, fates).client;
      && (c.Uploading? ==> c.failures == FailuresIn(file, partBytes, fates) <= 3)
      && (c == Failed ==> FailuresIn(file, partBytes, fates) >= 4 || Garbled in fates)
  {
    if fates != [] {
      var before, fate := fates[..|fates| - 1], fates[|fates| - 1];
      assert fates == before + [fate];
      ThreeFailuresTolerated(file, partBytes, before);
      var s := Run(file, partBytes, before);
      if s.client.Uploading? {
        RoundCounts(file, partBytes, s, fate);
      }
    }
  }

  // ----- termination -----

  /** How many parts `n` bytes take. */
  function Parts(n: nat, partBytes: nat): nat
    requires partBytes > 0
  {
    if n == 0 then 0 else 1 + Parts(n - Min(partBytes, n), partBytes)
  }

  /** Rounds an open job can still take: its parts, one to catch up with the server, two for each
      failure that is left. */
  function Budget(file: Bytes, partBytes: nat, s: State): nat
    requires Fits(file, s) && partBytes > 0 && s.client.Uploading?
  {
    Parts(|file| - |s.job.stored|, partBytes)
    + (if s.client.offset != |s.job.stored| then 1 else 0) + 2 * (3 - s.client.failures)
  }

  lemma RoundSpends(file: Bytes, partBytes: nat, s: State, fate: Fate)
    requires Fits(file, s) && partBytes > 0 && s.client.Uploading?
    requires Round(file, partBytes, s, fate).job.open
    ensures var t := Round(file, partBytes, s, fate);
      Fits(file, t) && (t.client.Uploading? ==> Budget(file, partBytes, t) < Budget(file, partBytes, s))
  {
    RoundFits(file, partBytes, s, fate);
  }

  /** As long as the job is open the loop is about to end, whatever gets lost: after at most as many
      rounds as the file has parts, and six more. */
  lemma {:induction false} LoopEnds(file: Bytes, partBytes: nat, fates: seq<Fate>)
    requires partBytes > 0
    ensures var s := Run(file, partBytes, fates);
      s.client.Uploading? && s.job.open ==> |fates| + Budget(file, partBytes, s) <= Parts(|file|, partBytes) + 6
  {
    if fates != [] {
      var before := fates[..|fates| - 1];
      LoopEnds(file, partBytes, before);
      var s, fate := Run(file, partBytes, before), fates[|fates| - 1];
      RoundFits(file, partBytes, s, fate);
      if s.client.Uploading? && Round(file, partBytes, s, fate).job.open {
        RoundSpends(file, partBytes, s, fate);
      }
    }
  }

  // ----- and exactly when it does not -----

  /** `n` more rounds in which request and response arrive. */
  function Onwards(file: Bytes, partBytes: nat, s: State, n: nat): (t: State)
    requires Fits(file, s)
    ensures Fits(file, t)
  {
    if n == 0 then s
    else
      var t := Onwards(file, partBytes, s, n - 1);
      RoundFits(file, partBytes, t, Answered);
      Round(file, partBytes, t, Answered)
  }

  lemma {:induction false} ClosedJobLoops(file: Bytes, partBytes: nat, s: State, n: nat)
    requires Fits(file, s) && s.client.Uploading? && !s.job.open
    ensures var t := Onwards(file, partBytes, s, n); t.client.Uploading? && !t.job.open
  {
    if n > 0 {
      ClosedJobLoops(file, partBytes, s, n - 1);
    }
  }

  lemma {:induction false} EmptyPartsLoop(file: Bytes, s: State, n: nat)
    requires Fits(file, s) && s.client.Uploading? && s.job.stored == []
    ensures var t := Onwards(file, 0, s, n); t.client.Uploading? && t.job.stored == []
  {
    if n > 0 {
      EmptyPartsLoop(file, s, n - 1);
    }
  }

  lemma {:induction false} NothingStoredInEmptyParts(file: Bytes, fates: seq<Fate>)
    ensures Run(file, 0, fates).job.stored == []
  {
    if fates != [] {
      NothingStoredInEmptyParts(file, fates[..|fates| - 1]);
    }
  }

  lemma {:induction false} OpenJobFinishes(file: Bytes, partBytes: nat, s: State, n: nat)
    requires Fits(file, s) && s.client.Uploading? && s.job.open && partBytes > 0
    ensures var t := Onwards(file, partBytes, s, n);
      t.client.Uploading? ==> t.job.open && n + Budget(file, partBytes, t) <= Budget(file, partBytes, s)
  {
    if n > 0 {
      OpenJobFinishes(file, partBytes, s, n - 1);
      var t := Onwards(file, partBytes, s, n - 1);
      if t.client.Uploading? {
        RoundSpends(file, partBytes, t, Answered);
      }
    }
  }

  /** After any rounds at all, given an undisturbed network from then on, the loop ends exactly when
      parts are not empty and the job is still open. A closed job answers every part with a conflict
      that says nothing, and the agent starts over for ever. */
  lemma EndsExactlyWhenOpen(file: Bytes, partBytes: nat, fates: seq<Fate>)
    requires Run(file, partBytes, fates).client.Uploading?
    ensures var s := Run(file, partBytes, fates);
      (exists n: nat :: !Onwards(file, partBytes, s, n).client.Uploading?) <==> partBytes > 0 && s.job.open
  {
    var s := Run(file, partBytes, fates);
    if partBytes > 0 && s.job.open {
      var n := Budget(file, partBytes, s) + 1;
      OpenJobFinishes(file, partBytes, s, n);
      assert !Onwards(file, partBytes, s, n).client.Uploading?;
    } else {
      forall n: nat ensures Onwards(file, partBytes, s, n).client.Uploading? {
        if !s.job.open {
          ClosedJobLoops(file, partBytes, s, n);
        } else {
          NothingStoredInEmptyParts(file, fates);
          EmptyPartsLoop(file, s, n);
        }
      }
    }
  }

  /** A round closes the job exactly when a part the server is ready for does not arrive whole, or
      cannot be written whole. */
  lemma ClosesExactlyWhenNotStored(file: Bytes, partBytes: nat, s: State, fate: Fate)
    requires Fits(file, s) && s.client.Uploading? && s.job.open
    ensures !Round(file, partBytes, s, fate).job.open <==>
      var n := |PartAt(file, s.client.offset, partBytes)|;
      s.client.offset == |s.job.stored| && ((fate.Cut? && fate.arrived < n) || (fate.DiskFull? && fate.room < n))
  {
    RoundFits(file, partBytes, s, fate);
  }

  /** Two inputs: a connection that breaks at once, and a disk that is full; then the agent sends the
      first byte again and again. */
  lemma ClosedJobExample(n: nat)
    ensures var s := Run([1, 2], 1, [Cut(0)]); s == State(Uploading(0, 1), Job(2, [], false))
    ensures Run([1, 2], 1, [DiskFull(0)]) == Run([1, 2], 1, [Cut(0)])
    ensures Onwards([1, 2], 1, Run([1, 2], 1, [Cut(0)]), n).client.Uploading?
  {
    var file: Bytes := [1, 2];
    assert [Cut(0)][..0] == [] && [DiskFull(0)][..0] == [];
    assert Run(file, 1, [Cut(0)]) == Round(file, 1, Start(file), Cut(0));
    assert Run(file, 1, [DiskFull(0)]) == Round(file, 1, Start(file), DiskFull(0));
    ClosedJobLoops(file, 1, Run(file, 1, [Cut(0)]), n);
  }

  // ----- the loop itself -----

  lemma OneMoreRound(file: Bytes, partBytes: nat, fates: seq<Fate>, n: nat)
    requires n < |fates|
    ensures Run(file, partBytes, fates[..n + 1]) == Round(file, partBytes, Run(file, partBytes, fates[..n]), fates[n])
  {
    assert fates[..n + 1][..n] == fates[..n];
  }

  /** The body of the loop: read a part, send it, and see what comes back. */
  method SendPart(file: Bytes, partBytes: nat, offset: nat, failures: nat, job: Job, fate: Fate)
    returns (client: Client, job': Job)
    requires Fits(file, State(Uploading(offset, failures), job))
    ensures State(client, job') == Round(file, partBytes, State(Uploading(offset, failures), job), fate)
  {
    job' := job;
    var part := PartAt(file, offset, partBytes);
    var reply := BadRequest;
    if fate != RequestLost && fate != Refused {
      var arrived := if fate.Cut? then Min(fate.arrived, |part|) else |part|;
      var (after, answer) := PutPart(job, offset, part, arrived, if fate.DiskFull? then fate.room else |part|);
      job' := after;
      if fate == Answered || fate == Garbled || fate.DiskFull? {
        reply := answer;
      }
    }
    if reply == BadRequest {
      if failures + 1 > 3 {
        return Failed, job';
      }
      return Uploading(offset, failures + 1), job';
    }
    if fate == Garbled {
      return Failed, job';
    }
    return At(file, reply.received, failures), job';
  }

  /** The part loop, for as many rounds as `fates` describes. */
  method UploadParts(file: Bytes, partBytes: nat, fates: seq<Fate>) returns (s: State)
    ensures s == Run(file, partBytes, fates)
  {
    s := Start(file);
    var round: nat := 0;
    while s.client.Uploading? && round < |fates|
      invariant round <= |fates| && s == Run(file, partBytes, fates[..round])
    {
      OneMoreRound(file, partBytes, fates, round);
      var client, job := SendPart(file, partBytes, s.client.offset, s.client.failures, s.job, fates[round]);
      s := State(client, job);
      round := round + 1;
    }
    if s.client.Uploading? {
      assert fates[..round] == fates;
    } else {
      Stays(file, partBytes, fates, round);
    }
  }

  /** Once the loop is left, further rounds change nothing. */
  lemma {:induction false} Stays(file: Bytes, partBytes: nat, fates: seq<Fate>, n: nat)
    requires n <= |fates| && !Run(file, partBytes, fates[..n]).client.Uploading?
    ensures Run(file, partBytes, fates) == Run(file, partBytes, fates[..n])
    decreases |fates|
  {
    if n < |fates| {
      var before := fates[..|fates| - 1];
      assert before[..n] == fates[..n];
      Stays(file, partBytes, before, n);
    } else {
      assert fates[..n] == fates;
    }
  }
}

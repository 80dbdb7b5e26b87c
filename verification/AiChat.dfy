/** Asking AI models: the chain of models, and the loop that retries and falls back. */
module AiChat {
  import opened Seqs
  import opened Text

  // ----- the chain -----

  /** Where `x` first stands in the list. */
  function First(xs: seq<string>, x: string): (i: nat)
    ensures i <= |xs| && (x in xs ==> i < |xs| && xs[i] == x) && (x !in xs ==> i == |xs|)
    ensures forall j | 0 <= j < i :: xs[j] != x
  {
    if xs == [] then 0
    else
      assert xs == [xs[0]] + xs[1..];
      if xs[0] == x then 0 else 1 + First(xs[1..], x)
  }

  function Trimmed(xs: seq<string>): (r: seq<string>)
    ensures |r| == |xs|
  {
    seq(|xs|, i requires 0 <= i < |xs| => Trim(xs[i]))
  }

  /** A name that is not among the first `n` is first mentioned later than those that are. */
  lemma NewComesLater(named: seq<string>, n: nat, out: seq<string>)
    requires n < |named| && named[n] !in named[..n] && forall m | m in out :: m in named[..n]
    ensures First(named, named[n]) == n && forall i | 0 <= i < |out| :: First(named, out[i]) < n
  {
    assert forall j | 0 <= j < n :: named[j] == named[..n][j] && named[j] in named[..n];
    forall i | 0 <= i < |out| ensures First(named, out[i]) < n {
      assert out[i] in out;
      var j :| 0 <= j < n && named[..n][j] == out[i];
      assert named[j] == out[i];
    }
  }

  /** The first `n` names, each once and none empty, in the order of first mention. */
  ghost predicate IsChain(named: seq<string>, n: nat, out: seq<string>)
    requires n <= |named|
  {
    && (forall m :: m in out <==> m in named[..n] && m != "")
    && (forall i, j | 0 <= i < j < |out| :: First(named, out[i]) < First(named, out[j]))
  }

  lemma ChainMore(named: seq<string>, n: nat, out: seq<string>)
    requires n < |named| && IsChain(named, n, out)
    ensures var m := named[n]; IsChain(named, n + 1, if m != "" && m !in out then out + [m] else out)
  {
    var m := named[n];
    assert named[..n + 1] == named[..n] + [m];
    if m != "" && m !in out {
      NewComesLater(named, n, out);
    }
  }

  /** `model_chain`: every model that is named, once, in the order of first mention. */
  method ModelChain(primary: string, fallbacks: string) returns (out: seq<string>)
    ensures var named := Trimmed([primary] + Split(fallbacks, ','));
      && (forall m :: m in out <==> m in named && m != "")
      && (forall i, j | 0 <= i < j < |out| :: First(named, out[i]) < First(named, out[j]))
  {
    var named := Trimmed([primary] + Split(fallbacks, ','));
    out := [];
    for n := 0 to |named|
      invariant IsChain(named, n, out)
    {
      var m := named[n];
      ChainMore(named, n, out);
      if m != "" && m !in out {
        out := out + [m];
      }
    }
    assert named[..|named|] == named;
  }

  // ----- one call -----

  /** What a call comes to: no connection, a status without success, a body that is not JSON, or text. */
  datatype Response = Unreachable | Status(code: int) | Unreadable | Text(text: string)

  predicate IsRetryable(code: int) {
    code == 408 || code == 425 || code == 429 || 500 <= code < 600
  }

  /** Worth another attempt at the same model. */
  predicate TryAgain(r: Response) {
    match r
    case Unreachable => true
    case Status(code) => IsRetryable(code)
    case Unreadable => true
    case Text(_) => false
  }

  /** As many as configured, but at least one. */
  function Attempts(maxRetries: nat): (n: nat)
    ensures n >= 1 && n >= maxRetries && (n == 1 || n == maxRetries)
  {
    if maxRetries > 1 then maxRetries else 1
  }

  /** The model gives an answer at attempt `a`: all attempts before were worth another. */
  ghost predicate AnswersAt(reply: (nat, nat) -> Response, i: nat, a: nat, maxRetries: nat) {
    a < Attempts(maxRetries) && reply(i, a).Text? && forall b: nat | b < a :: TryAgain(reply(i, b))
  }

  ghost predicate Silent(reply: (nat, nat) -> Response, i: nat, maxRetries: nat) {
    forall a: nat :: !AnswersAt(reply, i, a, maxRetries)
  }

  /** A call that the code is to make: all attempts before it were worth another, and there is one left. */
  ghost predicate Due(reply: (nat, nat) -> Response, c: (nat, nat), models: nat, maxRetries: nat) {
    c.0 < models && c.1 < Attempts(maxRetries) && forall b: nat | b < c.1 :: TryAgain(reply(c.0, b))
  }

  /** Model by model and attempt by attempt, so none is made twice. */
  ghost predicate InOrder(calls: seq<(nat, nat)>) {
    forall m, n | 0 <= m < n < |calls| ::
      calls[m].0 < calls[n].0 || (calls[m].0 == calls[n].0 && calls[m].1 < calls[n].1)
  }

  /** `chat`, against what each model replies at each attempt: the answer of the first model of the
      chain that gives one, at its first answer; no answer exactly when no model gives one; and never
      more calls to a model than its attempts. `calls` lists the calls made, model and attempt. */
  method Chat(models: nat, maxRetries: nat, reply: (nat, nat) -> Response)
    returns (answer: Option<string>, calls: seq<(nat, nat)>)
    ensures answer.None? <==> forall i: nat | i < models :: Silent(reply, i, maxRetries)
    ensures answer.Some? ==> exists i: nat, a: nat ::
      && i < models && AnswersAt(reply, i, a, maxRetries) && answer.value == reply(i, a).text
      && (forall j: nat | j < i :: Silent(reply, j, maxRetries))
    ensures forall c | c in calls :: Due(reply, c, models, maxRetries)
    ensures InOrder(calls)
  {
    calls := [];
    var i: nat := 0;
    while i < models
      invariant i <= models && InOrder(calls)
      invariant forall j: nat | j < i :: Silent(reply, j, maxRetries)
      invariant forall c | c in calls :: c.0 < i && Due(reply, c, models, maxRetries)
    {
      var a: nat := 0;
      var next := false;
      while a < Attempts(maxRetries) && !next
        invariant a <= Attempts(maxRetries) && InOrder(calls)
        invariant forall c | c in calls :: Due(reply, c, models, maxRetries)
        invariant forall c | c in calls :: c.0 < i || (c.0 == i && c.1 < a)
        invariant if next then 0 < a && !TryAgain(reply(i, a - 1)) && !reply(i, a - 1).Text?
                  else forall b: nat | b < a :: TryAgain(reply(i, b))
        invariant next ==> forall b: nat | b < a - 1 :: TryAgain(reply(i, b))
        decreases Attempts(maxRetries) - a
      {
        assert forall m | 0 <= m < |calls| :: calls[m] in calls;
        calls := calls + [(i, a)];
        var r := reply(i, a);
        if r.Text? {
          assert AnswersAt(reply, i, a, maxRetries) && !Silent(reply, i, maxRetries);
          return Some(r.text), calls;
        }
        if !TryAgain(r) {
          next := true;
        }
        a := a + 1;
      }
      forall c: nat ensures !AnswersAt(reply, i, c, maxRetries) {
        assert next && c >= a ==> !TryAgain(reply(i, a - 1));
      }
      assert Silent(reply, i, maxRetries);
      i := i + 1;
    }
    answer := None;
  }

  /** A failed connection and an unreadable answer are worth another attempt, and so are these statuses; some
      that are not. */
  lemma KnownStatuses()
    ensures TryAgain(Unreachable) && TryAgain(Unreadable)
    ensures forall code | code in {408, 425, 429, 500, 502, 503, 504, 599} :: IsRetryable(code)
    ensures forall code | code in {301, 400, 401, 403, 404, 409, 413, 422, 499, 600} :: !IsRetryable(code)
  {
  }
}

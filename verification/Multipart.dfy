/** The multipart splitter (RFC 2046, section 5.1; RFC 7578, section 4.2): writing any parts as a
    body and splitting it gives the parts back. */
module Multipart {
  import opened Seqs
  import opened Text
  import opened Utf8

  datatype Part = Part(name: string, filename: Option<string>, contentType: string, data: Bytes)

  const CR: Byte := 13
  const LF: Byte := 10
  const CRLF: Bytes := [CR, LF]
  const BLANK: Bytes := [CR, LF, CR, LF]

  // ----- searching -----

  predicate OccursAt(hay: Bytes, p: nat, needle: Bytes) {
    p + |needle| <= |hay| && hay[p..p + |needle|] == needle
  }

  /** `find(&hay[i..], needle)`, the place counted from the front of `hay`. */
  function Find(hay: Bytes, needle: Bytes, i: nat): (r: Option<nat>)
    ensures r.Some? ==> i <= r.value && r.value + |needle| <= |hay|
    decreases |hay| - i
  {
    if needle == [] || i + |needle| > |hay| then None
    else if OccursAt(hay, i, needle) then Some(i)
    else Find(hay, needle, i + 1)
  }

  /** `find` returns the first place of all ... */
  lemma {:induction false} FindIsFirst(hay: Bytes, needle: Bytes, i: nat, k: nat)
    requires needle != [] && i <= k && OccursAt(hay, k, needle)
    requires forall p | i <= p < k :: !OccursAt(hay, p, needle)
    ensures Find(hay, needle, i) == Some(k)
    decreases k - i
  {
    if i < k {
      FindIsFirst(hay, needle, i + 1, k);
    }
  }

  /** ... or nothing. */
  lemma {:induction false} FindNothing(hay: Bytes, needle: Bytes, i: nat)
    requires forall p | i <= p :: !OccursAt(hay, p, needle)
    ensures Find(hay, needle, i).None?
    decreases |hay| - i
  {
    if i < |hay| {
      FindNothing(hay, needle, i + 1);
    }
  }

  // ----- the code under study -----

  /** `disposition_param` and `multipart_boundary`: the value of `key` among the parameters. */
  function Param(value: string, key: string): Option<string> {
    FirstParam(Split(value, ';')[1..], key)
  }

  function FirstParam(pieces: seq<string>, key: string): Option<string> {
    if pieces == [] then None
    else
      var kv := SplitOnce(pieces[0], '=');
      if kv.Some? && Lower(Trim(kv.value.0)) == Lower(key) then Some(Unquote(Trim(kv.value.1)))
      else FirstParam(pieces[1..], key)
  }

  datatype Headers = Headers(name: string, filename: Option<string>, contentType: string)

  const NO_HEADERS := Headers("", None, "")

  function ReadHeader(h: Headers, line: string): Headers {
    var kv := SplitOnce(line, ':');
    if kv.None? then h
    else
      var (k, v) := (Lower(Trim(kv.value.0)), kv.value.1);
      if k == "content-disposition" then
        var name := Param(v, "name");
        h.(name := if name.Some? then name.value else "", filename := Param(v, "filename"))
      else if k == "content-type" then h.(contentType := Trim(v))
      else h
  }

  function ReadHeaders(h: Headers, lines: seq<string>): Headers
    decreases |lines|
  {
    if lines == [] then h else ReadHeaders(ReadHeader(h, lines[0]), lines[1..])
  }

  function Unwrap(seg: Bytes): Bytes {
    var s := if OccursAt(seg, 0, CRLF) then seg[2..] else seg;
    if |s| >= 2 && OccursAt(s, |s| - 2, CRLF) then s[..|s| - 2] else s
  }

  /** One part from between two delimiters. `lossy` is `String::from_utf8_lossy`. */
  function ReadPart(seg: Bytes, lossy: Bytes -> string): Option<Part> {
    var s := Unwrap(seg);
    var end := Find(s, BLANK, 0);
    if end.None? then None
    else
      var h := ReadHeaders(NO_HEADERS, Lines(lossy(s[..end.value])));
      Some(Part(h.name, h.filename, h.contentType, s[end.value + 4..]))
  }

  ghost predicate Spaced(ps: seq<nat>, n: nat, end: nat) {
    && (forall k | 0 <= k < |ps| :: ps[k] + n <= end)
    && (forall j, k | 0 <= j < k < |ps| :: ps[j] + n <= ps[k])
  }

  /** Where the delimiter occurs from `i` on, without overlaps. */
  function Positions(body: Bytes, delim: Bytes, i: nat): seq<nat>
    requires i <= |body| && delim != []
    decreases |body| - i
  {
    var r := Find(body, delim, i);
    if r.None? then [] else [r.value] + Positions(body, delim, r.value + |delim|)
  }

  lemma {:induction false} PositionsSpaced(body: Bytes, delim: Bytes, i: nat)
    requires i <= |body| && delim != []
    ensures var ps := Positions(body, delim, i); Spaced(ps, |delim|, |body|) && (ps != [] ==> ps[0] >= i)
    decreases |body| - i
  {
    var r := Find(body, delim, i);
    if r.Some? {
      PositionsSpaced(body, delim, r.value + |delim|);
    }
  }

  /** The parts between neighbouring delimiters; those that do not parse are skipped. */
  function Between(body: Bytes, n: nat, ps: seq<nat>, lossy: Bytes -> string): seq<Part>
    requires Spaced(ps, n, |body|)
  {
    if |ps| < 2 then []
    else
      SpacedTail(ps, n, |body|);
      var part := if ps[0] + n >= ps[1] then None else ReadPart(body[ps[0] + n..ps[1]], lossy);
      (if part.Some? then [part.value] else []) + Between(body, n, ps[1..], lossy)
  }

  lemma SpacedTail(ps: seq<nat>, n: nat, end: nat)
    requires Spaced(ps, n, end) && ps != []
    ensures Spaced(ps[1..], n, end)
  {
  }

  function Delimiter(boundary: string): (d: Bytes)
    ensures |d| >= 2
  {
    assert EncodeChar('-') == [0x2D];
    [0x2D, 0x2D] + Encode(boundary)
  }

  function Parse(body: Bytes, boundary: string, lossy: Bytes -> string): seq<Part> {
    var d := Delimiter(boundary);
    PositionsSpaced(body, d, 0);
    Between(body, |d|, Positions(body, d, 0), lossy)
  }

  lemma NextPosition(body: Bytes, d: Bytes, i: nat, k: nat)
    requires d != [] && i <= |body| && Find(body, d, i) == Some(k)
    ensures Positions(body, d, i) == [k] + Positions(body, d, k + |d|)
  {
  }

  lemma OnePositionMore(body: Bytes, d: Bytes, done: seq<nat>, i: nat, k: nat)
    requires d != [] && i <= |body| && Find(body, d, i) == Some(k)
    ensures done + Positions(body, d, i) == (done + [k]) + Positions(body, d, k + |d|)
  {
    NextPosition(body, d, i, k);
  }

  /** The first loop: every position of the delimiter. */
  method FindAll(body: Bytes, delim: Bytes) returns (positions: seq<nat>)
    requires delim != []
    ensures positions == Positions(body, delim, 0)
  {
    positions := [];
    var i: nat := 0;
    ghost var all := Positions(body, delim, 0);
    while true
      invariant i <= |body|
      invariant all == positions + Positions(body, delim, i)
      decreases |body| - i
    {
      var p := Find(body, delim, i);
      if p.None? {
        assert positions + [] == positions;
        return;
      }
      var at: nat := p.value;
      OnePositionMore(body, delim, positions, i, at);
      positions := positions + [at];
      i := at + |delim|;
    }
  }

  lemma SpacedDrop(ps: seq<nat>, n: nat, end: nat, k: nat)
    requires Spaced(ps, n, end) && k <= |ps|
    ensures Spaced(ps[k..], n, end)
  {
  }

  /** What is read from the `k`th position on, one part taken. */
  lemma BetweenAt(body: Bytes, n: nat, ps: seq<nat>, k: nat, lossy: Bytes -> string)
    requires Spaced(ps, n, |body|) && k + 1 < |ps|
    ensures Spaced(ps[k..], n, |body|) && Spaced(ps[k + 1..], n, |body|) && ps[k] + n <= ps[k + 1] <= |body|
    ensures var part := if ps[k] + n >= ps[k + 1] then None else ReadPart(body[ps[k] + n..ps[k + 1]], lossy);
      Between(body, n, ps[k..], lossy) ==
        if part.Some? then [part.value] + Between(body, n, ps[k + 1..], lossy) else Between(body, n, ps[k + 1..], lossy)
  {
    SpacedDrop(ps, n, |body|, k);
    SpacedDrop(ps, n, |body|, k + 1);
    assert ps[k..][0] == ps[k] && ps[k..][1] == ps[k + 1] && ps[k..][1..] == ps[k + 1..];
    assert [] + Between(body, n, ps[k + 1..], lossy) == Between(body, n, ps[k + 1..], lossy);
  }

  /** The second loop, over `windows(2)`: what lies between each two positions. */
  method ReadBetween(body: Bytes, n: nat, positions: seq<nat>, lossy: Bytes -> string) returns (parts: seq<Part>)
    requires Spaced(positions, n, |body|)
    ensures parts == Between(body, n, positions, lossy)
  {
    parts := [];
    var k := 0;
    ghost var all := Between(body, n, positions, lossy);
    ghost var pending := all;
    assert positions[0..] == positions;
    while k + 1 < |positions|
      invariant k <= |positions| && Spaced(positions[k..], n, |body|)
      invariant pending == Between(body, n, positions[k..], lossy)
      invariant all == parts + pending
    {
      BetweenAt(body, n, positions, k, lossy);
      var start, end := positions[k] + n, positions[k + 1];
      var part := None;
      if start < end {
        part := ReadPart(body[start..end], lossy);
      }
      k := k + 1;
      pending := Between(body, n, positions[k..], lossy);
      if part.Some? {
        Regroup(parts, [part.value], pending);
        parts := parts + [part.value];
      }
    }
  }

  method MultipartParts(body: Bytes, boundary: string, lossy: Bytes -> string) returns (parts: seq<Part>)
    ensures parts == Parse(body, boundary, lossy)
  {
    var delim := Delimiter(boundary);
    var positions := FindAll(body, delim);
    PositionsSpaced(body, delim, 0);
    parts := ReadBetween(body, |delim|, positions, lossy);
  }
}

/** Writing parts as a multipart body, and why the splitter reads exactly those parts back. */
module MultipartRoundTrip {
  import opened Multipart
  import opened Seqs
  import opened Text
  import opened Utf8

  // ----- writing -----

  /** The freedom a writer has: how it spells the names, which of them it quotes, which header comes first,
      whether a carriage return goes before the line feed between them, and which other parameters and
      headers it puts before its own. */
  datatype Style = Style(
    disposition: string, contentType: string, name: string, filename: string,
    quoteName: bool, quoteFilename: bool, typeFirst: bool, bareLf: bool,
    params: seq<string>, headers: seq<string>)

  /** What stands between two delimiters: a part, or something that is none. */
  datatype Item = Good(part: Part, style: Style) | Noise(bytes: Bytes)

  function Quoted(s: string): string { "\"" + s + "\"" }

  function Value(s: string, quoted: bool): string { if quoted then Quoted(s) else s }

  function Parameter(key: string, value: string, quoted: bool): string { " " + key + ['='] + Value(value, quoted) }

  function NameParameter(p: Part, st: Style): string { Parameter(st.name, p.name, st.quoteName) }

  function FilenameParameter(p: Part, st: Style): string
    requires p.filename.Some?
  {
    Parameter(st.filename, p.filename.value, st.quoteFilename)
  }

  function FilenamePiece(p: Part, st: Style): seq<string> {
    if p.filename.Some? then [FilenameParameter(p, st)] else []
  }

  /** Pieces with a semicolon between each two. */
  function Semicolons(pieces: seq<string>): string
    requires pieces != []
  {
    if |pieces| == 1 then pieces[0] else pieces[0] + [';'] + Semicolons(pieces[1..])
  }

  function Parameters(p: Part, st: Style): seq<string> {
    st.params + ([NameParameter(p, st)] + FilenamePiece(p, st))
  }

  function DispositionValue(p: Part, st: Style): string { " form-data" + [';'] + Semicolons(Parameters(p, st)) }

  function DispositionLine(p: Part, st: Style): string { st.disposition + [':'] + DispositionValue(p, st) }

  function TypeLine(p: Part, st: Style): string { st.contentType + [':'] + (" " + p.contentType) }

  /** The headers that count: one, or two when there is a content type. */
  function OwnHeaders(p: Part, st: Style): seq<string> {
    var d, t := DispositionLine(p, st), TypeLine(p, st);
    if p.contentType == "" then [d] else if st.typeFirst then [t, d] else [d, t]
  }

  function BothLines(first: string, second: string, bareLf: bool): string {
    first + (if bareLf then "" else "\r") + ['\n'] + second
  }

  function Joined(lines: seq<string>, bareLf: bool): string
    requires lines != []
  {
    if |lines| == 1 then lines[0] else BothLines(lines[0], Joined(lines[1..], bareLf), bareLf)
  }

  function HeaderText(p: Part, st: Style): string { Joined(st.headers + OwnHeaders(p, st), st.bareLf) }

  function PartBytes(p: Part, st: Style): Bytes {
    CRLF + (Encode(HeaderText(p, st)) + BLANK + p.data) + CRLF
  }

  function ItemBytes(it: Item): Bytes {
    match it
    case Good(p, st) => PartBytes(p, st)
    case Noise(b) => CRLF + b + CRLF
  }

  function PartsOf(items: seq<Item>): seq<Part> {
    if items == [] then []
    else (if items[0].Good? then [items[0].part] else []) + PartsOf(items[1..])
  }

  const CLOSE: Bytes := [0x2D, 0x2D, CR, LF]

  /** A delimiter before each chunk, and the closing one. */
  function Chain(chunks: seq<Bytes>, d: Bytes): Bytes {
    d + if chunks == [] then CLOSE else chunks[0] + Chain(chunks[1..], d)
  }

  function Written(items: seq<Item>): (chunks: seq<Bytes>)
    ensures |chunks| == |items|
  {
    seq(|items|, i requires 0 <= i < |items| => ItemBytes(items[i]))
  }

  function Render(preamble: Bytes, items: seq<Item>, boundary: string): Bytes {
    preamble + Chain(Written(items), Delimiter(boundary))
  }

  // ----- what can be written -----

  predicate OneLine(s: string) { '\r' !in s && '\n' !in s }

  /** What may stand in a parameter: anything but its delimiters; without quotes, no white space at the ends. */
  predicate Plain(s: string, quoted: bool) {
    OneLine(s) && ';' !in s && '"' !in s && (quoted || Trim(s) == s)
  }

  predicate WellSpelled(st: Style) {
    && Lower(st.disposition) == "content-disposition" && Lower(st.contentType) == "content-type"
    && Lower(st.name) == "name" && Lower(st.filename) == "filename"
  }

  /** A parameter that names nothing, or something else. */
  ghost predicate IdleParameter(s: string) {
    && OneLine(s) && ';' !in s
    && ('=' !in s || exists key, value :: s == key + ['='] + value && '=' !in key && IsOther(key, "name", "filename"))
  }

  /** A header line that names nothing, or something else. */
  ghost predicate IdleHeader(s: string) {
    && OneLine(s) && s != []
    && (':' !in s || exists key, value ::
          s == key + [':'] + value && ':' !in key && IsOther(key, "content-disposition", "content-type"))
  }

  predicate IsOther(key: string, a: string, b: string) { Lower(Trim(key)) != a && Lower(Trim(key)) != b }

  ghost predicate Writable(p: Part, st: Style) {
    && WellSpelled(st)
    && Plain(p.name, st.quoteName)
    && (p.filename.Some? ==> Plain(p.filename.value, st.quoteFilename))
    && OneLine(p.contentType) && Trim(p.contentType) == p.contentType
    && (forall i | 0 <= i < |st.params| :: IdleParameter(st.params[i]))
    && (forall i | 0 <= i < |st.headers| :: IdleHeader(st.headers[i]))
  }

  /** Something without a blank line is no part. */
  ghost predicate Possible(it: Item) {
    match it
    case Good(p, st) => Writable(p, st)
    case Noise(b) => Absent(BLANK, b)
  }

  /** The contract of `String::from_utf8_lossy`: it reads UTF-8 as it is. */
  ghost predicate ReadsUtf8(lossy: Bytes -> string) {
    forall s: string :: lossy(Encode(s)) == s
  }

  // ----- the headers -----

  predicate WordChar(c: char) { 'a' <= c <= 'z' || 'A' <= c <= 'Z' || c == '-' }

  ghost predicate Word(s: string) { s != [] && forall c | c in s :: WordChar(c) }

  lemma SpelledWord(s: string)
    requires Word(Lower(s))
    ensures Word(s)
  {
    forall c | c in s ensures WordChar(c) {
      var i :| 0 <= i < |s| && s[i] == c;
      assert Lower(s)[i] in Lower(s);
    }
  }

  lemma StyleWords(st: Style)
    requires WellSpelled(st)
    ensures Word(st.disposition) && Word(st.contentType) && Word(st.name) && Word(st.filename)
  {
    FixedWords();
    SpelledWord(st.disposition);
    SpelledWord(st.contentType);
    SpelledWord(st.name);
    SpelledWord(st.filename);
  }

  lemma FixedWords()
    ensures Word("content-disposition") && Word("content-type") && Word("name") && Word("filename")
  {
  }

  lemma WordTrims(s: string)
    requires Word(s)
    ensures Trim(s) == s && Trim(" " + s) == s
    ensures ':' !in s && ';' !in s && '=' !in s && OneLine(s)
  {
    assert s[0] in s && s[|s| - 1] in s;
    TrimKeeps(s);
    TrimSpace(s);
  }

  lemma ValueReads(value: string, quoted: bool)
    requires Plain(value, quoted)
    ensures Unquote(Trim(Value(value, quoted))) == value
  {
    if quoted {
      TrimKeeps(Quoted(value));
      UnquoteQuoted(value);
    } else {
      UnquoteBare(value);
    }
  }

  lemma ParameterReads(key: string, value: string, quoted: bool)
    requires Word(key) && Plain(value, quoted)
    ensures SplitOnce(Parameter(key, value, quoted), '=') == Some((" " + key, Value(value, quoted)))
    ensures ';' !in Parameter(key, value, quoted)
  {
    WordTrims(key);
    SplitOnceFirst(" " + key, '=', Value(value, quoted));
  }

  /** A parameter answers to its own key in any spelling, and to no other. */
  lemma FirstParamReads(key: string, value: string, quoted: bool, rest: seq<string>, wanted: string)
    requires Word(key) && Plain(value, quoted)
    ensures FirstParam([Parameter(key, value, quoted)] + rest, wanted)
         == if Lower(key) == Lower(wanted) then Some(value) else FirstParam(rest, wanted)
  {
    ParameterReads(key, value, quoted);
    WordTrims(key);
    ValueReads(value, quoted);
    assert ([Parameter(key, value, quoted)] + rest)[1..] == rest;
  }

  lemma AfterFirstPiece(first: string, rest: string)
    requires ';' !in first
    ensures Split(first + [';'] + rest, ';')[1..] == Split(rest, ';')
  {
    SplitFirst(first, ';', rest);
  }

  lemma {:induction false} SplitSemicolons(pieces: seq<string>)
    requires pieces != [] && forall i | 0 <= i < |pieces| :: ';' !in pieces[i]
    ensures Split(Semicolons(pieces), ';') == pieces
  {
    if |pieces| == 1 {
      SplitFirst(pieces[0], ';', []);
    } else {
      SplitSemicolons(pieces[1..]);
      SplitFirst(pieces[0], ';', Semicolons(pieces[1..]));
    }
  }

  lemma LowerKeys()
    ensures Lower("name") == "name" && Lower("filename") == "filename"
  {
  }

  lemma IdleParameterSkipped(s: string, rest: seq<string>, wanted: string)
    requires IdleParameter(s) && (wanted == "name" || wanted == "filename")
    ensures FirstParam([s] + rest, wanted) == FirstParam(rest, wanted)
  {
    LowerKeys();
    assert ([s] + rest)[1..] == rest;
    SplitOnceNone(s, '=');
    if '=' in s {
      var key, value :| s == key + ['='] + value && '=' !in key && IsOther(key, "name", "filename");
      SplitOnceFirst(key, '=', value);
    }
  }

  lemma {:induction false} IdleParametersSkipped(idle: seq<string>, rest: seq<string>, wanted: string)
    requires (forall i | 0 <= i < |idle| :: IdleParameter(idle[i])) && (wanted == "name" || wanted == "filename")
    ensures FirstParam(idle + rest, wanted) == FirstParam(rest, wanted)
  {
    if idle == [] {
      assert idle + rest == rest;
    } else {
      assert idle + rest == [idle[0]] + (idle[1..] + rest);
      IdleParameterSkipped(idle[0], idle[1..] + rest, wanted);
      IdleParametersSkipped(idle[1..], rest, wanted);
    }
  }

  lemma ParametersArePieces(p: Part, st: Style)
    requires Writable(p, st)
    ensures forall i | 0 <= i < |Parameters(p, st)| :: ';' !in Parameters(p, st)[i] && OneLine(Parameters(p, st)[i])
  {
    StyleWords(st);
    WordTrims(st.name);
    WordTrims(st.filename);
    ParameterReads(st.name, p.name, st.quoteName);
    ParameterIsOneLine(st.name, p.name, st.quoteName);
    if p.filename.Some? {
      ParameterReads(st.filename, p.filename.value, st.quoteFilename);
      ParameterIsOneLine(st.filename, p.filename.value, st.quoteFilename);
    }
    var own := [NameParameter(p, st)] + FilenamePiece(p, st);
    assert forall i | 0 <= i < |own| :: ';' !in own[i] && OneLine(own[i]);
  }

  lemma DispositionReads(p: Part, st: Style)
    requires Writable(p, st)
    ensures Param(DispositionValue(p, st), "name") == Some(p.name)
    ensures Param(DispositionValue(p, st), "filename") == p.filename
  {
    StyleWords(st);
    LowerKeys();
    ParametersArePieces(p, st);
    SplitSemicolons(Parameters(p, st));
    AfterFirstPiece(" form-data", Semicolons(Parameters(p, st)));
    var rest := FilenamePiece(p, st);
    IdleParametersSkipped(st.params, [NameParameter(p, st)] + rest, "name");
    IdleParametersSkipped(st.params, [NameParameter(p, st)] + rest, "filename");
    FirstParamReads(st.name, p.name, st.quoteName, rest, "name");
    FirstParamReads(st.name, p.name, st.quoteName, rest, "filename");
    if p.filename.Some? {
      FirstParamReads(st.filename, p.filename.value, st.quoteFilename, [], "filename");
      assert rest + [] == rest;
    }
  }

  lemma DispositionLineReads(p: Part, st: Style, h: Headers)
    requires Writable(p, st)
    ensures ReadHeader(h, DispositionLine(p, st)) == h.(name := p.name, filename := p.filename)
  {
    StyleWords(st);
    WordTrims(st.disposition);
    SplitOnceFirst(st.disposition, ':', DispositionValue(p, st));
    DispositionReads(p, st);
  }

  lemma TypeLineReads(p: Part, st: Style, h: Headers)
    requires Writable(p, st) && p.contentType != ""
    ensures ReadHeader(h, TypeLine(p, st)) == h.(contentType := p.contentType)
  {
    StyleWords(st);
    WordTrims(st.contentType);
    SplitOnceFirst(st.contentType, ':', " " + p.contentType);
    TrimSpace(p.contentType);
  }

  lemma ParameterIsOneLine(key: string, value: string, quoted: bool)
    requires OneLine(key) && OneLine(value)
    ensures OneLine(Parameter(key, value, quoted))
  {
  }

  lemma {:induction false} SemicolonsOneLine(pieces: seq<string>)
    requires pieces != [] && forall i | 0 <= i < |pieces| :: OneLine(pieces[i])
    ensures OneLine(Semicolons(pieces))
  {
    if |pieces| > 1 {
      SemicolonsOneLine(pieces[1..]);
    }
  }

  lemma LinesAreOneLine(p: Part, st: Style)
    requires Writable(p, st)
    ensures OneLine(DispositionLine(p, st)) && OneLine(TypeLine(p, st))
  {
    StyleWords(st);
    WordTrims(st.disposition);
    WordTrims(st.contentType);
    ParametersArePieces(p, st);
    SemicolonsOneLine(Parameters(p, st));
  }

  ghost predicate AreLines(lines: seq<string>) {
    lines != [] && forall i | 0 <= i < |lines| :: OneLine(lines[i]) && lines[i] != []
  }

  lemma HeadersAreLines(p: Part, st: Style)
    requires Writable(p, st)
    ensures AreLines(st.headers + OwnHeaders(p, st))
  {
    LinesAreOneLine(p, st);
    assert forall i | 0 <= i < |st.headers| :: IdleHeader(st.headers[i]);
  }

  lemma OneLineIsALine(s: string)
    requires OneLine(s) && s != []
    ensures Lines(s) == [s]
  {
    SplitOnceNone(s, '\n');
  }

  lemma FirstLine(first: string, rest: string, bareLf: bool)
    requires OneLine(first)
    ensures Lines(BothLines(first, rest, bareLf)) == [first] + Lines(rest)
  {
    var line := first + if bareLf then "" else "\r";
    SplitOnceFirst(line, '\n', rest);
    assert first != [] ==> first[|first| - 1] in first;
    assert WithoutCr(line) == first;
  }

  lemma {:induction false} JoinedLines(lines: seq<string>, bareLf: bool)
    requires AreLines(lines)
    ensures Lines(Joined(lines, bareLf)) == lines
  {
    if |lines| == 1 {
      OneLineIsALine(lines[0]);
    } else {
      JoinedLines(lines[1..], bareLf);
      FirstLine(lines[0], Joined(lines[1..], bareLf), bareLf);
    }
  }

  lemma IdleHeaderSkipped(h: Headers, s: string)
    requires IdleHeader(s)
    ensures ReadHeader(h, s) == h
  {
    SplitOnceNone(s, ':');
    if ':' in s {
      var key, value :| s == key + [':'] + value && ':' !in key && IsOther(key, "content-disposition", "content-type");
      SplitOnceFirst(key, ':', value);
    }
  }

  lemma {:induction false} IdleHeadersSkipped(h: Headers, idle: seq<string>, rest: seq<string>)
    requires forall i | 0 <= i < |idle| :: IdleHeader(idle[i])
    ensures ReadHeaders(h, idle + rest) == ReadHeaders(h, rest)
  {
    if idle == [] {
      assert idle + rest == rest;
    } else {
      assert (idle + rest)[1..] == idle[1..] + rest;
      IdleHeaderSkipped(h, idle[0]);
      IdleHeadersSkipped(h, idle[1..], rest);
    }
  }

  lemma OneLineReads(h: Headers, line: string)
    ensures ReadHeaders(h, [line]) == ReadHeader(h, line)
  {
    assert [line][1..] == [];
    assert ReadHeaders(h, [line]) == ReadHeaders(ReadHeader(h, line), []);
  }

  lemma TwoLinesRead(h: Headers, first: string, second: string)
    ensures ReadHeaders(h, [first, second]) == ReadHeader(ReadHeader(h, first), second)
  {
    assert [first, second][1..] == [second];
    OneLineReads(ReadHeader(h, first), second);
  }

  lemma OwnHeadersRead(p: Part, st: Style)
    requires Writable(p, st)
    ensures ReadHeaders(NO_HEADERS, OwnHeaders(p, st)) == Headers(p.name, p.filename, p.contentType)
  {
    var d, t := DispositionLine(p, st), TypeLine(p, st);
    if p.contentType == "" {
      DispositionLineReads(p, st, NO_HEADERS);
      OneLineReads(NO_HEADERS, d);
    } else if st.typeFirst {
      TwoLinesRead(NO_HEADERS, t, d);
      TypeLineReads(p, st, NO_HEADERS);
      DispositionLineReads(p, st, Headers("", None, p.contentType));
    } else {
      TwoLinesRead(NO_HEADERS, d, t);
      DispositionLineReads(p, st, NO_HEADERS);
      TypeLineReads(p, st, Headers(p.name, p.filename, ""));
    }
  }

  lemma HeadersRead(p: Part, st: Style)
    requires Writable(p, st)
    ensures ReadHeaders(NO_HEADERS, Lines(HeaderText(p, st))) == Headers(p.name, p.filename, p.contentType)
  {
    HeadersAreLines(p, st);
    JoinedLines(st.headers + OwnHeaders(p, st), st.bareLf);
    IdleHeadersSkipped(NO_HEADERS, st.headers, OwnHeaders(p, st));
    OwnHeadersRead(p, st);
  }

  // ----- one part -----

  lemma {:induction false} AsciiStays(s: string, b: Byte)
    requires b < 0x80
    ensures b in Encode(s) <==> b as char in s
  {
    if s != [] {
      AsciiStays(s[1..], b);
      assert s == [s[0]] + s[1..];
      CharStays(s[0], b);
    }
  }

  lemma CharStays(c: char, b: Byte)
    requires b < 0x80
    ensures b in EncodeChar(c) <==> c == b as char
  {
    var e := EncodeChar(c);
    if c as int < 0x80 {
      assert e == [c as int];
    } else {
      assert forall i | 0 <= i < |e| :: e[i] >= 0x80;
    }
  }

  lemma NoBreaks(s: string)
    requires OneLine(s)
    ensures CR !in Encode(s) && LF !in Encode(s)
  {
    AsciiStays(s, CR);
    AsciiStays(s, LF);
  }

  function Break(bareLf: bool): Bytes { if bareLf then [LF] else CRLF }

  lemma BothLinesEncode(first: string, second: string, bareLf: bool)
    ensures Encode(BothLines(first, second, bareLf)) == Encode(first) + Break(bareLf) + Encode(second)
  {
    var sep := if bareLf then "\n" else "\r\n";
    assert BothLines(first, second, bareLf) == first + sep + second;
    EncodeAppend(first + sep, second);
    EncodeAppend(first, sep);
    EncodeCrlf();
  }

  lemma EncodeCrlf()
    ensures Encode("\r\n") == CRLF && Encode("\n") == [LF]
  {
    assert "\r\n"[1..] == "\n" && "\n"[1..] == "";
    assert Encode("\n") == [LF];
  }

  lemma LineStart(line: string)
    requires OneLine(line) && line != []
    ensures var a := Encode(line); a != [] && CR !in a && LF !in a
  {
    NoBreaks(line);
    EncodeStartsAtBoundary(line);
  }

  lemma JoinedStart(lines: seq<string>, bareLf: bool)
    requires AreLines(lines)
    ensures var h := Encode(Joined(lines, bareLf)); h != [] && h[0] != CR
  {
    LineStart(lines[0]);
    if |lines| > 1 {
      BothLinesEncode(lines[0], Joined(lines[1..], bareLf), bareLf);
    }
  }

  /** No blank line begins in the headers. */
  lemma {:induction false} NoBlankInside(lines: seq<string>, bareLf: bool, s: Bytes, q: nat)
    requires AreLines(lines)
    requires Encode(Joined(lines, bareLf)) <= s && q < |Encode(Joined(lines, bareLf))|
    ensures !OccursAt(s, q, BLANK)
    decreases |lines|
  {
    var a := Encode(lines[0]);
    LineStart(lines[0]);
    if |lines| == 1 {
      assert s[q] == a[q];
      Differs(s, q, BLANK, 0);
    } else {
      var sep, rest := Break(bareLf), Encode(Joined(lines[1..], bareLf));
      BothLinesEncode(lines[0], Joined(lines[1..], bareLf), bareLf);
      JoinedStart(lines[1..], bareLf);
      var n := |a| + |sep|;
      assert a + sep + rest <= s;
      if q < n {
        NoBlankInLine(a, bareLf, rest, s, q);
      } else {
        assert rest <= s[n..];
        NoBlankInside(lines[1..], bareLf, s[n..], q - n);
        ShiftedOccurrence(s, n, q);
      }
    }
  }

  lemma NoBlankInLine(a: Bytes, bareLf: bool, rest: Bytes, s: Bytes, q: nat)
    requires CR !in a && rest != [] && rest[0] != CR && a + Break(bareLf) + rest <= s && q < |a + Break(bareLf)|
    ensures !OccursAt(s, q, BLANK)
  {
    assert s[q] == (a + Break(bareLf))[q];
    if q == |a| && !bareLf {
      assert s[q + 2] == rest[0];
      Differs(s, q, BLANK, 2);
    } else {
      assert q < |a| ==> s[q] == a[q];
      Differs(s, q, BLANK, 0);
    }
  }

  lemma ShiftedOccurrence(s: Bytes, n: nat, q: nat)
    requires n <= q && n <= |s|
    ensures OccursAt(s[n..], q - n, BLANK) == OccursAt(s, q, BLANK)
  {
    if q + 4 <= |s| {
      assert s[n..][q - n..q - n + 4] == s[q..q + 4];
    }
  }

  /** The blank line is first found right after the headers. */
  lemma BlankAfterHeaders(lines: seq<string>, bareLf: bool, data: Bytes)
    requires AreLines(lines)
    ensures var h := Encode(Joined(lines, bareLf)); Find(h + BLANK + data, BLANK, 0) == Some(|h|)
  {
    var h := Encode(Joined(lines, bareLf));
    var s := h + BLANK + data;
    assert s[|h|..|h| + 4] == BLANK && h <= s;
    forall q | 0 <= q < |h| ensures !OccursAt(s, q, BLANK) {
      NoBlankInside(lines, bareLf, s, q);
    }
    FindIsFirst(s, BLANK, 0, |h|);
  }

  /** One byte that differs rules an occurrence out. */
  lemma Differs(s: Bytes, q: nat, needle: Bytes, j: nat)
    requires j < |needle| && q + j < |s| && s[q + j] != needle[j]
    ensures !OccursAt(s, q, needle)
  {
    if q + |needle| <= |s| {
      assert s[q..q + |needle|][j] == s[q + j];
    }
  }

  lemma Unwraps(s: Bytes)
    ensures Unwrap(CRLF + s + CRLF) == s
  {
    var seg := CRLF + s + CRLF;
    assert seg[0..2] == CRLF && seg[2..] == s + CRLF;
    assert (s + CRLF)[|s|..|s| + 2] == CRLF && (s + CRLF)[..|s|] == s;
  }

  lemma PartReads(p: Part, st: Style, lossy: Bytes -> string)
    requires Writable(p, st) && ReadsUtf8(lossy)
    ensures ReadPart(PartBytes(p, st), lossy) == Some(p)
  {
    var h := Encode(HeaderText(p, st));
    var s := h + BLANK + p.data;
    Unwraps(s);
    HeadersAreLines(p, st);
    BlankAfterHeaders(st.headers + OwnHeaders(p, st), st.bareLf, p.data);
    assert s[..|h|] == h && s[|h| + 4..] == p.data;
    assert lossy(h) == HeaderText(p, st);
    HeadersRead(p, st);
  }

  /** A disposition without parameters names nothing: the name is empty, and there is no file name. */
  lemma NamelessReads(key: string, value: string, h: Headers)
    requires Lower(key) == "content-disposition" && ';' !in value
    ensures ReadHeader(h, key + [':'] + value) == h.(name := "", filename := None)
  {
    FixedWords();
    SpelledWord(key);
    WordTrims(key);
    SplitOnceFirst(key, ':', value);
    SplitFirst(value, ';', []);
  }

  /** A part without headers is one without a name, a file name and a type. */
  lemma HeaderlessReads(data: Bytes, lossy: Bytes -> string)
    requires ReadsUtf8(lossy)
    ensures ReadPart(CRLF + (BLANK + data) + CRLF, lossy) == Some(Part("", None, "", data))
  {
    var s := BLANK + data;
    Unwraps(s);
    assert s[0..4] == BLANK && s[..0] == Encode("") && s[4..] == data;
    FindIsFirst(s, BLANK, 0, 0);
    assert lossy(s[..0]) == "";
  }

  /** What is no part is skipped. */
  lemma NoiseReads(b: Bytes, lossy: Bytes -> string)
    requires Absent(BLANK, b)
    ensures ReadPart(CRLF + b + CRLF, lossy).None?
  {
    Unwraps(b);
    FindNothing(b, BLANK, 0);
  }

  // ----- the whole body -----

  ghost predicate Absent(d: Bytes, s: Bytes) {
    forall q: nat :: !OccursAt(s, q, d)
  }

  lemma DelimiterIsOneLine(boundary: string)
    requires OneLine(boundary)
    ensures CR !in Delimiter(boundary) && LF !in Delimiter(boundary)
  {
    NoBreaks(boundary);
  }

  /** From behind a delimiter, the next one is found right behind the part. */
  lemma FoundAfterPart(before: Bytes, c: Bytes, d: Bytes, rest: Bytes)
    requires d != [] && LF !in d && Absent(d, c)
    requires |c| > 0 && c[|c| - 1] == LF
    requires OccursAt(before + c + rest, |before + c|, d)
    ensures Find(before + c + rest, d, |before|) == Some(|before + c|)
  {
    var s, n := before + c + rest, |before + c|;
    forall p | |before| <= p < n ensures !OccursAt(s, p, d) {
      var q := p - |before|;
      if q + |d| <= |c| {
        assert s[p..p + |d|] == c[q..q + |d|];
        assert !OccursAt(c, q, d);
      } else {
        assert s[n - 1] == LF && d[n - 1 - p] in d;
        Differs(s, p, d, n - 1 - p);
      }
    }
    FindIsFirst(s, d, |before|, n);
  }

  /** In the closing dashes only the delimiter of an empty boundary occurs, and right at the start. */
  lemma FoundInClose(before: Bytes, d: Bytes)
    requires |d| >= 2 && CR !in d && LF !in d
    ensures var r := Find(before + CLOSE, d, |before|); r.None? || (|d| == 2 && r == Some(|before|))
    ensures Find(before + CLOSE, d, |before| + 2).None?
  {
    var s, n := before + CLOSE, |before|;
    forall p | n <= p && (p > n || |d| > 2) ensures !OccursAt(s, p, d) {
      if p <= n + 2 && p + |d| > n + 2 {
        assert s[n + 2] == CR && d[n + 2 - p] in d;
        Differs(s, p, d, n + 2 - p);
      }
    }
    FindNothing(s, d, n + 1);
    FindNothing(s, d, n + 2);
  }

  /** From the delimiter at `at` on, the splitter reads `parts`. */
  ghost predicate Reads(body: Bytes, d: Bytes, at: nat, parts: seq<Part>, lossy: Bytes -> string) {
    && d != [] && at <= |body|
    && (PositionsSpaced(body, d, at);
        var ps := Positions(body, d, at);
        |ps| > 0 && ps[0] == at && Between(body, |d|, ps, lossy) == parts)
  }

  /** The closing delimiter leaves nothing to read. */
  lemma CloseReads(before: Bytes, d: Bytes, lossy: Bytes -> string)
    requires |d| >= 2 && CR !in d && LF !in d
    ensures Reads(before + d + CLOSE, d, |before|, [], lossy)
  {
    var body := before + d + CLOSE;
    var n := |before| + |d|;
    PositionsInClose(before, d);
    var ps := Positions(body, d, |before|);
    if ps == [|before|, n] {
      assert ps[1..] == [n];
      assert Between(body, |d|, [n], lossy) == [];
    }
  }

  /** Behind the last delimiter there is none, or the dashes are one. */
  lemma PositionsInClose(before: Bytes, d: Bytes)
    requires |d| >= 2 && CR !in d && LF !in d
    ensures var ps := Positions(before + d + CLOSE, d, |before|);
      ps == [|before|] || ps == [|before|, |before| + |d|]
  {
    var body := before + d + CLOSE;
    var n := |before| + |d|;
    assert body[|before|..n] == d;
    FoundInClose(before + d, d);
    NextPosition(body, d, |before|, |before|);
    if Find(body, d, n).Some? {
      NextPosition(body, d, n, n);
    }
  }

  lemma SamePositions(body: Bytes, d: Bytes, i: nat, k: nat)
    requires d != [] && i <= |body| && Find(body, d, i) == Some(k)
    ensures Positions(body, d, i) == Positions(body, d, k)
  {
    NextPosition(body, d, i, k);
    FindThere(body, d, i);
    NextPosition(body, d, k, k);
  }

  lemma {:induction false} FindThere(body: Bytes, d: Bytes, i: nat)
    ensures Find(body, d, i).Some? ==> OccursAt(body, Find(body, d, i).value, d) && d != []
    decreases |body| - i
  {
    if d != [] && i + |d| <= |body| && !OccursAt(body, i, d) {
      FindThere(body, d, i + 1);
    }
  }

  /** A chunk that holds one part or none, no delimiter, and ends its last line. */
  ghost predicate Holds(c: Bytes, it: Item, d: Bytes, lossy: Bytes -> string) {
    && |c| > 0 && c[|c| - 1] == LF && Absent(d, c)
    && ReadPart(c, lossy) == if it.Good? then Some(it.part) else None
  }

  lemma {:induction false} ChainReads(before: Bytes, chunks: seq<Bytes>, items: seq<Item>, d: Bytes,
                                      lossy: Bytes -> string)
    requires |d| >= 2 && CR !in d && LF !in d && |chunks| == |items|
    requires forall i | 0 <= i < |items| :: Holds(chunks[i], items[i], d, lossy)
    ensures Reads(before + Chain(chunks, d), d, |before|, PartsOf(items), lossy)
    decreases |chunks|
  {
    if chunks == [] {
      CloseReads(before, d, lossy);
      assert before + (d + CLOSE) == before + d + CLOSE;
    } else {
      var c, rest := chunks[0], Chain(chunks[1..], d);
      ChainReads(before + d + c, chunks[1..], items[1..], d, lossy);
      RegroupFour(before, d, c, rest);
      OneItemMore(before, d, c, rest, items, lossy);
    }
  }

  lemma OneItemMore(before: Bytes, d: Bytes, c: Bytes, rest: Bytes, items: seq<Item>, lossy: Bytes -> string)
    requires items != [] && d != [] && LF !in d && Holds(c, items[0], d, lossy)
    requires Reads(before + d + c + rest, d, |before + d + c|, PartsOf(items[1..]), lossy)
    ensures Reads(before + d + c + rest, d, |before|, PartsOf(items), lossy)
  {
    var body, next := before + d + c + rest, |before + d + c|;
    var ps := Positions(body, d, next);
    DelimiterAgain(body, d, next);
    PositionsThrough(before, d, c, rest);
    assert ([|before|] + ps)[1..] == ps;
    assert body[|before| + |d|..next] == c;
  }

  lemma DelimiterAgain(body: Bytes, d: Bytes, at: nat)
    requires d != [] && at <= |body| && Positions(body, d, at) != [] && Positions(body, d, at)[0] == at
    ensures OccursAt(body, at, d)
  {
    FindThere(body, d, at);
  }

  /** The positions from one delimiter on: itself, then those from the next one on. */
  lemma PositionsThrough(before: Bytes, d: Bytes, c: Bytes, rest: Bytes)
    requires d != [] && LF !in d && Absent(d, c)
    requires |c| > 0 && c[|c| - 1] == LF
    requires OccursAt(before + d + c + rest, |before + d + c|, d)
    ensures var body := before + d + c + rest;
      Positions(body, d, |before|) == [|before|] + Positions(body, d, |before + d + c|)
  {
    var body := before + d + c + rest;
    var i: nat := |before|;
    assert |before + d| == i + |d| && body[i..i + |d|] == d;
    FindIsFirst(body, d, i, i);
    FoundAfterPart(before + d, c, d, rest);
    TwoPositions(body, d, i, |before + d + c|);
  }

  lemma TwoPositions(body: Bytes, d: Bytes, i: nat, k: nat)
    requires d != [] && i + |d| <= |body|
    requires Find(body, d, i) == Some(i) && Find(body, d, i + |d|) == Some(k)
    ensures Positions(body, d, i) == [i] + Positions(body, d, k)
  {
    SamePositions(body, d, i + |d|, k);
  }

  /** A delimiter that stands nowhere in what goes before the first one, which ends a line. */
  ghost predicate Fits(preamble: Bytes, d: Bytes) {
    preamble == [] || (preamble[|preamble| - 1] == LF && Absent(d, preamble))
  }

  lemma SkipsPreamble(preamble: Bytes, d: Bytes, rest: Bytes)
    requires d != [] && LF !in d && Fits(preamble, d) && OccursAt(preamble + rest, |preamble|, d)
    ensures Positions(preamble + rest, d, 0) == Positions(preamble + rest, d, |preamble|)
  {
    if preamble != [] {
      assert [] + preamble == preamble;
      FoundAfterPart([], preamble, d, rest);
      SamePositions(preamble + rest, d, 0, |preamble|);
    }
  }

  /** Writing parts in any styles, with anything between that is no part, and splitting the body gives back
      every part, in order, byte for byte. */
  lemma RoundTrip(preamble: Bytes, items: seq<Item>, boundary: string, lossy: Bytes -> string)
    requires OneLine(boundary) && ReadsUtf8(lossy) && Fits(preamble, Delimiter(boundary))
    requires forall i | 0 <= i < |items| :: Possible(items[i]) && Absent(Delimiter(boundary), ItemBytes(items[i]))
    ensures Parse(Render(preamble, items, boundary), boundary, lossy) == PartsOf(items)
  {
    var d, chunks := Delimiter(boundary), Written(items);
    DelimiterIsOneLine(boundary);
    forall i | 0 <= i < |items| ensures Holds(chunks[i], items[i], d, lossy) {
      ItemReads(items[i], lossy);
    }
    ChainReads(preamble, chunks, items, d, lossy);
    var body := Render(preamble, items, boundary);
    DelimiterAgain(body, d, |preamble|);
    SkipsPreamble(preamble, d, Chain(chunks, d));
    PositionsSpaced(body, d, 0);
  }

  lemma ItemReads(it: Item, lossy: Bytes -> string)
    requires Possible(it) && ReadsUtf8(lossy)
    ensures var c := ItemBytes(it);
      |c| > 0 && c[|c| - 1] == LF && ReadPart(c, lossy) == if it.Good? then Some(it.part) else None
  {
    match it
    case Good(p, st) => PartReads(p, st, lossy);
    case Noise(b) => NoiseReads(b, lossy);
  }

  /** ... and the boundary itself is read back from the content type that announces it. */
  lemma BoundaryReads(mediaType: string, key: string, boundary: string, quoted: bool)
    requires ';' !in mediaType && Lower(key) == "boundary" && Plain(boundary, quoted)
    ensures Param(mediaType + [';'] + Parameter(key, boundary, quoted), "boundary") == Some(boundary)
  {
    var kv := Parameter(key, boundary, quoted);
    BoundaryIsAWord();
    SpelledWord(key);
    ParameterReads(key, boundary, quoted);
    AfterFirstPiece(mediaType, kv);
    SplitFirst(kv, ';', []);
    assert [kv] + [] == [kv];
    FirstParamReads(key, boundary, quoted, [], "boundary");
  }

  lemma BoundaryIsAWord()
    ensures Word("boundary") && Lower("boundary") == "boundary"
  {
  }
}

/** Percent-encoding (RFC 3986, section 2.1) and the forms built on it, on the bytes of UTF-8 text. */
module PercentCode {
  import opened Seqs
  import opened Utf8

  const PERCENT: Byte := 0x25
  const PLUS: Byte := 0x2B
  const SPACE: Byte := 0x20
  const AND: Byte := 0x26
  const EQUALS: Byte := 0x3D

  function HexValue(b: Byte): Option<int> {
    if 0x30 <= b <= 0x39 then Some(b - 0x30)
    else if 0x41 <= b <= 0x46 then Some(b - 0x41 + 10)
    else if 0x61 <= b <= 0x66 then Some(b - 0x61 + 10)
    else None
  }

  /** `u8::from_str_radix` on two bytes: two hexadecimal digits — or a plus sign and one. */
  function Pair(a: Byte, b: Byte): (r: Option<Byte>) {
    if HexValue(b).None? then None
    else if a == PLUS then Some(HexValue(b).value)
    else if HexValue(a).None? then None
    else Some(16 * HexValue(a).value + HexValue(b).value)
  }

  /** Two hexadecimal digits, as section 2.1 of RFC 3986 has it. */
  function StrictPair(a: Byte, b: Byte): (r: Option<Byte>) {
    if HexValue(a).None? || HexValue(b).None? then None
    else Some(16 * HexValue(a).value + HexValue(b).value)
  }

  /** Decoding from the front. With `form`, a plus sign is a space. */
  function Decode(s: Bytes, form: bool): Bytes {
    if s == [] then []
    else if form && s[0] == PLUS then [SPACE] + Decode(s[1..], form)
    else if s[0] == PERCENT && |s| > 2 && Pair(s[1], s[2]).Some? then
      [Pair(s[1], s[2]).value] + Decode(s[3..], form)
    else [s[0]] + Decode(s[1..], form)
  }

  function StrictDecode(s: Bytes, form: bool): Bytes {
    if s == [] then []
    else if form && s[0] == PLUS then [SPACE] + StrictDecode(s[1..], form)
    else if s[0] == PERCENT && |s| > 2 && StrictPair(s[1], s[2]).Some? then
      [StrictPair(s[1], s[2]).value] + StrictDecode(s[3..], form)
    else [s[0]] + StrictDecode(s[1..], form)
  }

  /** One step of the decoders, seen from index `i`. */
  lemma DecodeAt(b: Bytes, i: nat, form: bool)
    requires i < |b|
    ensures Decode(b[i..], form) ==
      if form && b[i] == PLUS then [SPACE] + Decode(b[i + 1..], form)
      else if b[i] == PERCENT && i + 2 < |b| && Pair(b[i + 1], b[i + 2]).Some? then
        [Pair(b[i + 1], b[i + 2]).value] + Decode(b[i + 3..], form)
      else [b[i]] + Decode(b[i + 1..], form)
  {
    var rest := b[i..];
    assert rest[0] == b[i] && rest[1..] == b[i + 1..];
    if i + 2 < |b| {
      assert rest[1] == b[i + 1] && rest[2] == b[i + 2] && rest[3..] == b[i + 3..];
    }
  }

  /** `percent_decode`, before the result is read as text. */
  method PercentDecode(b: Bytes) returns (out: Bytes)
    ensures out == Decode(b, false)
  {
    out := [];
    var i := 0;
    while i < |b|
      invariant i <= |b|
      invariant Decode(b, false) == out + Decode(b[i..], false)
    {
      DecodeAt(b, i, false);
      if b[i] == PERCENT && i + 2 < |b| {
        var v := Pair(b[i + 1], b[i + 2]);
        if v.Some? {
          Regroup(out, [v.value], Decode(b[i + 3..], false));
          out := out + [v.value];
          i := i + 3;
          continue;
        }
      }
      Regroup(out, [b[i]], Decode(b[i + 1..], false));
      out := out + [b[i]];
      i := i + 1;
    }
  }

  /** The decoder inside `parse_form`. */
  method FormDecode(b: Bytes) returns (out: Bytes)
    ensures out == Decode(b, true)
  {
    out := [];
    var i := 0;
    while i < |b|
      invariant i <= |b|
      invariant Decode(b, true) == out + Decode(b[i..], true)
    {
      DecodeAt(b, i, true);
      var c := b[i];
      if b[i] == PLUS {
        c := SPACE;
      } else if b[i] == PERCENT && i + 2 < |b| {
        var v := Pair(b[i + 1], b[i + 2]);
        if v.Some? {
          c := v.value;
          i := i + 2;
        }
      }
      i := i + 1;
      Regroup(out, [c], Decode(b[i..], true));
      out := out + [c];
    }
  }

  // ----- encoding -----

  predicate Unreserved(b: Byte) {
    0x41 <= b <= 0x5A || 0x61 <= b <= 0x7A || 0x30 <= b <= 0x39 || b == 0x2D || b == 0x5F || b == 0x2E || b == 0x7E
  }

  function HexDigit(n: nat): (b: Byte)
    requires n < 16
  {
    if n < 10 then 0x30 + n else 0x41 + n - 10
  }

  function EncodeByte(b: Byte): Bytes {
    if Unreserved(b) then [b] else [PERCENT, HexDigit(b / 16), HexDigit(b % 16)]
  }

  function UrlEncode(s: Bytes): Bytes {
    if s == [] then [] else EncodeByte(s[0]) + UrlEncode(s[1..])
  }

  method Urlencode(s: Bytes) returns (out: Bytes)
    ensures out == UrlEncode(s)
  {
    out := [];
    ghost var whole := UrlEncode(s);
    for i := 0 to |s|
      invariant whole == out + UrlEncode(s[i..])
    {
      assert s[i..][1..] == s[i + 1..];
      Regroup(out, EncodeByte(s[i]), UrlEncode(s[i + 1..]));
      if Unreserved(s[i]) {
        out := out + [s[i]];
      } else {
        out := out + [PERCENT, HexDigit(s[i] / 16), HexDigit(s[i] % 16)];
      }
    }
  }

  lemma EncodeByteDecodes(b: Byte, rest: Bytes, form: bool)
    ensures Decode(EncodeByte(b) + rest, form) == [b] + Decode(rest, form)
  {
    var e := EncodeByte(b) + rest;
    if Unreserved(b) {
      assert e[0] == b && e[1..] == rest;
    } else {
      assert e[0] == PERCENT && e[1] == HexDigit(b / 16) && e[2] == HexDigit(b % 16) && e[3..] == rest;
      assert HexValue(HexDigit(b / 16)) == Some(b / 16) && HexValue(HexDigit(b % 16)) == Some(b % 16);
    }
  }

  /** Encoding any bytes and decoding them gives the bytes back, to the last one. */
  lemma {:induction false} DecodeInvertsEncode(s: Bytes, form: bool)
    ensures Decode(UrlEncode(s), form) == s
  {
    if s != [] {
      EncodeByteDecodes(s[0], UrlEncode(s[1..]), form);
      DecodeInvertsEncode(s[1..], form);
    }
  }

  // ----- where the decoder is more lenient than the standard -----

  /** The triples "%+h", with h a hexadecimal digit. */
  function PlusTriples(s: Bytes): nat {
    if |s| < 3 then 0
    else (if s[0] == PERCENT && s[1] == PLUS && HexValue(s[2]).Some? then 1 else 0) + PlusTriples(s[1..])
  }

  /** Both decoders decode like the standard exactly when no "%+h" occurs. */
  lemma LenientOnlyOnPlusTriples(s: Bytes, form: bool)
    ensures Decode(s, form) == StrictDecode(s, form) <==> PlusTriples(s) == 0
  {
    LenientLength(s, form);
  }

  /** An input: "%+4" is no escape, but is decoded to one byte. */
  lemma PlusTripleExample()
    ensures Decode([PERCENT, PLUS, 0x34], false) == Decode([PERCENT, PLUS, 0x34], true) == [4]
    ensures StrictDecode([PERCENT, PLUS, 0x34], false) == [PERCENT, PLUS, 0x34]
    ensures StrictDecode([PERCENT, PLUS, 0x34], true) == [PERCENT, SPACE, 0x34]
  {
    var s: Bytes := [PERCENT, PLUS, 0x34];
    assert s[1..] == [PLUS, 0x34] && s[3..] == [] && s[1..][1..] == [0x34] && [0x34][1..] == [];
    forall form: bool
      ensures StrictDecode(s, form) == [PERCENT] + ([if form then SPACE else PLUS] + [0x34])
    {
      assert StrictDecode([0x34], form) == [0x34] + StrictDecode([], form);
      assert StrictDecode([PLUS, 0x34], form) == [if form then SPACE else PLUS] + StrictDecode([0x34], form);
    }
  }

  lemma {:induction false} LenientLength(s: Bytes, form: bool)
    ensures |StrictDecode(s, form)| == |Decode(s, form)| + 2 * PlusTriples(s)
    ensures PlusTriples(s) == 0 ==> Decode(s, form) == StrictDecode(s, form)
    decreases |s|
  {
    if |s| >= 3 && s[0] == PERCENT && HexValue(s[2]).Some? && (s[1] == PLUS || HexValue(s[1]).Some?) {
      assert s[1..][0] == s[1] && s[1..][1] == s[2] && s[2..][0] == s[2];
      assert s[1..][1..] == s[2..] && s[2..][1..] == s[3..];
      assert PlusTriples(s[1..]) == PlusTriples(s[2..]);
      assert PlusTriples(s[2..]) == PlusTriples(s[3..]);
      LenientLength(s[3..], form);
      if s[1] == PLUS {
        assert StrictDecode(s, form) == [PERCENT] + StrictDecode(s[1..], form);
        assert StrictDecode(s[1..], form) == [if form then SPACE else PLUS] + StrictDecode(s[2..], form);
        assert StrictDecode(s[2..], form) == [s[2]] + StrictDecode(s[3..], form);
      }
    } else if s != [] {
      LenientLength(s[1..], form);
    }
  }

  // ----- forms -----

  /** `split_once('=')`, or the whole piece and nothing. */
  function KeyAndValue(piece: Bytes): (Bytes, Bytes) {
    var r := SplitOnce(piece, EQUALS);
    if r.Some? then r.value else (piece, [])
  }

  /** A piece divides at its first equals sign; without one it is all key. */
  lemma PieceReads(key: Bytes, value: Bytes)
    requires 0x3D !in key
    ensures KeyAndValue(key + [0x3D] + value) == (key, value) && KeyAndValue(key) == (key, [])
  {
    SplitOnceFirst(key, EQUALS, value);
    SplitOnceNone(key, EQUALS);
  }

  datatype Field = Field(key: Bytes, value: Bytes)

  /** The fields of a form in order: pieces without a key are dropped. */
  function Fields(pieces: seq<Bytes>): seq<Field> {
    if pieces == [] then []
    else
      var (k, v) := KeyAndValue(pieces[0]);
      (if k == [] then [] else [Field(Decode(k, true), Decode(v, true))]) + Fields(pieces[1..])
  }

  /** Collected into a map: of equal keys the last one counts. */
  function AsMap(fields: seq<Field>): map<Bytes, Bytes> {
    if fields == [] then map[]
    else AsMap(fields[..|fields| - 1])[fields[|fields| - 1].key := fields[|fields| - 1].value]
  }

  lemma OneFieldMore(fields: seq<Field>, f: Field, rest: seq<Field>)
    ensures fields + ([f] + rest) == fields + [f] + rest
    ensures AsMap(fields + [f]) == AsMap(fields)[f.key := f.value]
  {
    assert (fields + [f])[..|fields|] == fields;
  }

  method ParseForm(body: Bytes) returns (form: map<Bytes, Bytes>)
    ensures form == AsMap(Fields(Split(body, AND)))
  {
    var pieces := Split(body, AND);
    form := map[];
    ghost var fields, whole := [], Fields(pieces);
    for i := 0 to |pieces|
      invariant fields + Fields(pieces[i..]) == whole
      invariant form == AsMap(fields)
    {
      assert pieces[i..][1..] == pieces[i + 1..];
      var (k, v) := KeyAndValue(pieces[i]);
      if k != [] {
        var key := FormDecode(k);
        var value := FormDecode(v);
        OneFieldMore(fields, Field(key, value), Fields(pieces[i + 1..]));
        fields := fields + [Field(key, value)];
        form := form[key := value];
      }
    }
    assert pieces[|pieces|..] == [] && fields + [] == fields;
  }

  /** The fields written as a form. */
  function WriteField(f: Field): Bytes {
    UrlEncode(f.key) + [EQUALS] + UrlEncode(f.value)
  }

  function WriteForm(fields: seq<Field>): Bytes {
    if fields == [] then []
    else if |fields| == 1 then WriteField(fields[0])
    else WriteField(fields[0]) + [AND] + WriteForm(fields[1..])
  }

  lemma {:induction false} EncodedIsPlain(s: Bytes)
    ensures AND !in UrlEncode(s) && EQUALS !in UrlEncode(s)
    ensures s != [] ==> UrlEncode(s) != []
  {
    if s != [] {
      EncodedIsPlain(s[1..]);
    }
  }

  function WithKeys(fields: seq<Field>): seq<Field> {
    if fields == [] then []
    else (if fields[0].key == [] then [] else [fields[0]]) + WithKeys(fields[1..])
  }

  function Written(fields: seq<Field>): seq<Bytes> {
    if fields == [] then [] else [WriteField(fields[0])] + Written(fields[1..])
  }

  lemma {:induction false} SplitWritten(fields: seq<Field>)
    requires fields != []
    ensures Split(WriteForm(fields), AND) == Written(fields)
  {
    var f := fields[0];
    EncodedIsPlain(f.key);
    EncodedIsPlain(f.value);
    assert AND !in WriteField(f);
    if |fields| == 1 {
      SplitFirst(WriteField(f), AND, []);
    } else {
      SplitFirst(WriteField(f), AND, WriteForm(fields[1..]));
      SplitWritten(fields[1..]);
    }
  }

  lemma {:induction false} FieldsOfWritten(fields: seq<Field>)
    ensures Fields(Written(fields)) == WithKeys(fields)
  {
    if fields != [] {
      var f := fields[0];
      EncodedIsPlain(f.key);
      SplitOnceFirst(UrlEncode(f.key), EQUALS, UrlEncode(f.value));
      DecodeInvertsEncode(f.key, true);
      DecodeInvertsEncode(f.value, true);
      assert Written(fields)[1..] == Written(fields[1..]);
      FieldsOfWritten(fields[1..]);
    }
  }

  /** Writing any fields as a form and parsing it gives back the fields, in order — all but those
      whose key is empty. */
  lemma FormRoundTrip(fields: seq<Field>)
    ensures Fields(Split(WriteForm(fields), AND)) == WithKeys(fields)
  {
    if fields != [] {
      SplitWritten(fields);
      FieldsOfWritten(fields);
    } else {
      assert KeyAndValue([]) == ([], []);
      assert Fields([[]]) == Fields([[]][1..]);
    }
  }

  /** ... and exactly the original fields when every key is non-empty. */
  lemma {:induction false} NothingDropped(fields: seq<Field>)
    ensures WithKeys(fields) == fields <==> forall f | f in fields :: f.key != []
  {
    WithKeysShrinks(fields);
  }

  lemma {:induction false} WithKeysShrinks(fields: seq<Field>)
    ensures |WithKeys(fields)| <= |fields|
    ensures |WithKeys(fields)| == |fields| <==> forall f | f in fields :: f.key != []
    ensures |WithKeys(fields)| == |fields| ==> WithKeys(fields) == fields
  {
    if fields != [] {
      WithKeysShrinks(fields[1..]);
      assert fields == [fields[0]] + fields[1..];
    }
  }

  // ----- comparing the state parameter -----

  /** Compares without stopping at the first difference. */
  method ConstantTimeEq(a: seq<bv8>, b: seq<bv8>) returns (equal: bool)
    ensures equal <==> a == b
  {
    if |a| != |b| {
      return false;
    }
    var diff: bv8 := 0;
    for i := 0 to |a|
      invariant diff == 0 <==> a[..i] == b[..i]
    {
      assert a[..i + 1] == a[..i] + [a[i]] && b[..i + 1] == b[..i] + [b[i]];
      diff := diff | (a[i] ^ b[i]);
    }
    assert a[..|a|] == a && b[..|b|] == b;
    return diff == 0;
  }

  // ----- known answers -----

  /** Digits are written in capitals and read in either case. */
  lemma HexBothCases(n: nat)
    requires n < 16
    ensures HexValue(HexDigit(n)) == Some(n)
    ensures n >= 10 ==> HexDigit(n) == 0x41 + n - 10 && HexValue(0x61 + n - 10) == Some(n)
  {
  }

  /** What is written as it is, and the neighbours that are not. */
  lemma WrittenPlainly(b: Byte)
    ensures b in {0x30, 0x39, 0x41, 0x5A, 0x61, 0x7A, 0x2D, 0x2E, 0x5F, 0x7E} ==> EncodeByte(b) == [b]
    ensures b in {0x2C, 0x2F, 0x3A, 0x40, 0x5B, 0x5E, 0x60, 0x7B, 0x7D, 0x7F} ==> |EncodeByte(b)| == 3
  {
  }

  /** A space, a slash and 255 become escapes in capitals, small ones are read too, and a plus sign is a space
      in forms alone. */
  lemma KnownEscapes()
    ensures EncodeByte(0x20) == [0x25, 0x32, 0x30] && EncodeByte(0x2F) == [0x25, 0x32, 0x46]
    ensures EncodeByte(0xFF) == [0x25, 0x46, 0x46] && EncodeByte(0x7E) == [0x7E]
    ensures Decode([0x25, 0x63, 0x33], false) == [0xC3] && Decode([0x25, 0x41, 0x39], true) == [0xA9]
    ensures Decode([0x2B], true) == [0x20] && Decode([0x2B], false) == [0x2B] && Decode([0x25], true) == [0x25]
  {
    assert [0x25, 0x63, 0x33][3..] == [] && [0x25, 0x41, 0x39][3..] == [];
  }
}

/** What a person wrote in a request body: the extractor that stops early, against the simple
    definition that walks everything. Output is the bytes of UTF-8 text. */
module UserText {
  import opened Seqs
  import opened Text
  import opened Utf8
  import Multipart
  import MultipartRoundTrip
  import RequestKeys

  const MAX_USER_TEXT := 1024 * 1024
  const NEWLINE: Byte := 10

  datatype Json =
    | Null
    | Bool(b: bool)
    | Number(text: string)
    | String(s: string)
    | Array(items: seq<Json>)
    | Object(fields: seq<Field>)

  datatype Field = Field(key: string, value: Json)

  /** At least one character for each value, two quotes or brackets around strings and containers. */
  function Size(v: Json): nat {
    match v
    case String(s) => |s| + 2
    case Array(items) => 2 + SizeItems(items)
    case Object(fields) => 2 + SizeFields(fields)
    case _ => 1
  }

  function SizeItems(items: seq<Json>): nat {
    if items == [] then 0 else Size(items[0]) + SizeItems(items[1..])
  }

  function SizeFields(fields: seq<Field>): nat {
    if fields == [] then 0 else |fields[0].key| + 3 + Size(fields[0].value) + SizeFields(fields[1..])
  }

  /** The parts that are not modelled: the JSON parser and the two lists of key names. */
  datatype Env = Env(parse: string -> Option<Json>, plumbing: string -> bool, content: string -> bool)
  {
    /** A parsed value is no larger than its text. */
    ghost predicate Fits() {
      forall s: string :: parse(s).Some? ==> Size(parse(s).value) <= |s|
    }
  }

  // ----- what is dropped -----

  predicate OpaqueChar(c: char) {
    'A' <= c <= 'Z' || 'a' <= c <= 'z' || '0' <= c <= '9' || c in "+/=_-.:%"
  }

  /** `looks_like_opaque_blob`: all its characters take one byte, so bytes and characters agree. */
  predicate LooksOpaque(s: string) {
    var t := Trim(s);
    |t| >= 24 && forall i | 0 <= i < |t| :: OpaqueChar(t[i])
  }

  predicate Blank(s: string) { Trim(s) == [] }

  predicate StartsLikeJson(s: string) {
    var t := TrimStart(s);
    t != [] && (t[0] == '{' || t[0] == '[')
  }

  /** The value a string holds when it is itself JSON. */
  function Inner(s: string, e: Env): (r: Option<Json>) {
    if StartsLikeJson(s) && |TrimStart(s)| > 1 then e.parse(s) else None
  }

  // ----- the walk -----

  function Line(s: string): Bytes { Encode(s) + [NEWLINE] }

  /** `push_string`. */
  function Pushed(s: string, key: Option<string>, inContent: bool, e: Env): Bytes {
    var content := inContent || (key.Some? && e.content(key.value));
    if Blank(s) || (!content && LooksOpaque(s)) then [] else Line(s)
  }

  /** What the walk appends when it never stops early. */
  function JsonText(v: Json, key: Option<string>, inContent: bool, e: Env): Bytes
    requires e.Fits()
    decreases Size(v), 1
  {
    match v
    case String(s) =>
      if Inner(s, e).Some? then JsonText(Inner(s, e).value, key, inContent, e) else Pushed(s, key, inContent, e)
    case Array(items) => ItemsText(items, key, inContent, e)
    case Object(fields) => FieldsText(fields, inContent, e)
    case _ => []
  }

  function ItemsText(items: seq<Json>, key: Option<string>, inContent: bool, e: Env): Bytes
    requires e.Fits()
    decreases SizeItems(items) + 1, 0, |items|
  {
    if items == [] then []
    else JsonText(items[0], key, inContent, e) + ItemsText(items[1..], key, inContent, e)
  }

  function FieldText(f: Field, inContent: bool, e: Env): Bytes
    requires e.Fits()
    decreases Size(f.value), 2
  {
    if e.plumbing(f.key) then [] else JsonText(f.value, Some(f.key), inContent || e.content(f.key), e)
  }

  function FieldsText(fields: seq<Field>, inContent: bool, e: Env): Bytes
    requires e.Fits()
    decreases SizeFields(fields) + 1, 0, |fields|
  {
    if fields == [] then [] else FieldText(fields[0], inContent, e) + FieldsText(fields[1..], inContent, e)
  }

  // ----- the cap -----

  /** As much of the output as decides what the cap leaves. */
  function Head(b: Bytes): Bytes {
    if |b| > MAX_USER_TEXT + 1 then b[..MAX_USER_TEXT + 1] else b
  }

  /** `cap`: cut at the last character boundary that fits. */
  function Cap(b: Bytes): Bytes {
    if |b| > MAX_USER_TEXT then b[..FloorBoundary(b, MAX_USER_TEXT)] else b
  }

  lemma HeadDecidesCap(a: Bytes, b: Bytes)
    requires Head(a) == Head(b)
    ensures Cap(a) == Cap(b)
  {
    if |a| > MAX_USER_TEXT {
      assert forall i | 0 <= i <= MAX_USER_TEXT :: a[i] == Head(a)[i] && b[i] == Head(b)[i];
      SameFloor(a, b, MAX_USER_TEXT);
    }
  }

  lemma {:induction false} SameFloor(a: Bytes, b: Bytes, max: nat)
    requires max < |a| && max < |b| && forall i | 0 <= i <= max :: a[i] == b[i]
    ensures FloorBoundary(a, max) == FloorBoundary(b, max)
    ensures a[..FloorBoundary(a, max)] == b[..FloorBoundary(b, max)]
    decreases max
  {
    if !IsBoundary(a, max) {
      SameFloor(a, b, max - 1);
    }
  }

  lemma HeadAppend(a: Bytes, b: Bytes, more: Bytes)
    requires Head(a) == Head(b)
    ensures Head(a + more) == Head(b + more)
  {
  }

  lemma HeadThen(out: Bytes, before: Bytes, first: Bytes, rest: Bytes)
    requires Head(out) == Head(before + first)
    ensures Head(out + rest) == Head(before + (first + rest))
  {
    HeadAppend(out, before + first, rest);
    assert before + first + rest == before + (first + rest);
  }

  lemma HeadFull(out: Bytes, more: Bytes)
    requires |out| > MAX_USER_TEXT
    ensures Head(out + more) == Head(out)
  {
  }

  /** A text of up to 1 MiB stays whole; a longer one keeps a prefix that is a text, and at most three
      bytes short of it. */
  lemma CapKeeps(b: Bytes)
    ensures |b| <= 1_048_576 ==> Cap(b) == b
    ensures |b| > 1_048_576 && IsText(b) ==> Cap(b) <= b && 1_048_573 <= |Cap(b)| <= 1_048_576 && IsText(Cap(b))
  {
    if |b| > 1_048_576 && IsText(b) {
      FloorIsClose(b, MAX_USER_TEXT);
      SliceIsText(b, 0, FloorBoundary(b, MAX_USER_TEXT));
      assert b[0..FloorBoundary(b, MAX_USER_TEXT)] == Cap(b);
    }
  }

  // ----- what is dropped, in other words -----

  lemma BlankIs(s: string)
    ensures Blank(s) <==> forall i | 0 <= i < |s| :: IsWhitespace(s[i])
  {
    TrimStrips(s);
    var i: nat, j: nat :| StrippedAt(s, Trim(s), IsWhitespace, i, j);
    if Trim(s) != [] {
      assert s[i] == Trim(s)[0];
    }
  }

  /** Letters and digits without a break are an opaque blob from 24 on. */
  lemma OpaqueFrom24(s: string)
    requires forall i | 0 <= i < |s| :: 'a' <= s[i] <= 'z' || 'A' <= s[i] <= 'Z' || '0' <= s[i] <= '9'
    ensures LooksOpaque(s) <==> |s| >= 24
  {
    TrimKeeps(s);
  }

  /** The characters that may be in one, and those of ASCII that may not. */
  lemma OpaqueAlphabet(c: char)
    ensures '0' <= c <= '9' || c in "+/=_-.:%" ==> OpaqueChar(c)
    ensures c <= '$' || '&' <= c <= '*' || c == ',' || c == ';' || c == '<' ==> !OpaqueChar(c)
    ensures '>' <= c <= '@' || '[' <= c <= '^' || c == '`' || c >= '{' ==> !OpaqueChar(c)
  {
  }

  /** One other character anywhere in a string, the very first included, and it is none. */
  lemma OtherCharacterIsNotOpaque(s: string, k: nat)
    requires k < |s| && !OpaqueChar(s[k]) && !IsWhitespace(s[k])
    ensures !LooksOpaque(s)
  {
    TrimStrips(s);
    var i: nat, j: nat :| StrippedAt(s, Trim(s), IsWhitespace, i, j);
    assert i <= k < j;
    assert Trim(s)[k - i] == s[k];
  }

  /** Two words never are. */
  lemma ProseIsNotOpaque(a: string, b: string)
    requires a != [] && b != [] && !IsWhitespace(a[0]) && !IsWhitespace(b[|b| - 1])
    ensures !LooksOpaque(a + " " + b)
  {
    var s := a + " " + b;
    TrimKeeps(s);
    assert s[|a|] == ' ' && !OpaqueChar(' ');
  }

  lemma StartsLikeJsonIs(s: string)
    ensures StartsLikeJson(s) <==>
      exists k :: 0 <= k < |s| && (s[k] == '{' || s[k] == '[') && forall i | 0 <= i < k :: IsWhitespace(s[i])
  {
    var n := StartStripped(s);
    if n < |s| { assert TrimStart(s)[0] == s[n]; }
    forall k | 0 <= k < |s| && (s[k] == '{' || s[k] == '[') && forall i | 0 <= i < k :: IsWhitespace(s[i])
      ensures k == n
    {
    }
  }

  // ----- the code under study -----

  /** `collect_json`: gives up as soon as the output is beyond the cap. */
  method CollectJson(v: Json, key: Option<string>, inContent: bool, e: Env, before: Bytes) returns (out: Bytes)
    requires e.Fits()
    ensures Head(out) == Head(before + JsonText(v, key, inContent, e))
    ensures |before| > MAX_USER_TEXT ==> out == before
    decreases Size(v), 1
  {
    out := before;
    if |out| > MAX_USER_TEXT {
      HeadFull(out, JsonText(v, key, inContent, e));
      return;
    }
    match v
    case String(s) =>
      var inner := Inner(s, e);
      if inner.Some? {
        out := CollectJson(inner.value, key, inContent, e, out);
      } else {
        out := out + Pushed(s, key, inContent, e);
      }
    case Array(items) =>
      out := CollectItems(items, key, inContent, e, out);
    case Object(fields) =>
      out := CollectFields(fields, inContent, e, out);
    case _ =>
      assert out + [] == out;
  }

  method CollectItems(items: seq<Json>, key: Option<string>, inContent: bool, e: Env, before: Bytes)
    returns (out: Bytes)
    requires e.Fits()
    ensures Head(out) == Head(before + ItemsText(items, key, inContent, e))
    decreases SizeItems(items) + 1, 0
  {
    out := before;
    ghost var all := ItemsText(items, key, inContent, e);
    ghost var pending := all;
    for i := 0 to |items|
      invariant pending == ItemsText(items[i..], key, inContent, e)
      invariant Head(out + pending) == Head(before + all)
    {
      assert items[i..][1..] == items[i + 1..];
      ghost var first, rest := JsonText(items[i], key, inContent, e), ItemsText(items[i + 1..], key, inContent, e);
      assert pending == first + rest;
      SizeOfItem(items, i);
      ghost var out0 := out;
      out := CollectJson(items[i], key, inContent, e, out);
      HeadThen(out, out0, first, rest);
      pending := rest;
    }
    assert out + [] == out;
  }

  method CollectFields(fields: seq<Field>, inContent: bool, e: Env, before: Bytes) returns (out: Bytes)
    requires e.Fits()
    ensures Head(out) == Head(before + FieldsText(fields, inContent, e))
    decreases SizeFields(fields) + 1, 0
  {
    out := before;
    ghost var all := FieldsText(fields, inContent, e);
    ghost var pending := all;
    for i := 0 to |fields|
      invariant pending == FieldsText(fields[i..], inContent, e)
      invariant Head(out + pending) == Head(before + all)
    {
      assert fields[i..][1..] == fields[i + 1..];
      ghost var first, rest := FieldText(fields[i], inContent, e), FieldsText(fields[i + 1..], inContent, e);
      assert pending == first + rest;
      SizeOfField(fields, i);
      ghost var out0 := out;
      if e.plumbing(fields[i].key) {
        assert out0 + first == out0;
      } else {
        out := CollectJson(fields[i].value, Some(fields[i].key), inContent || e.content(fields[i].key), e, out);
      }
      HeadThen(out, out0, first, rest);
      pending := rest;
    }
    assert out + [] == out;
  }

  lemma {:induction false} SizeOfItem(items: seq<Json>, i: nat)
    requires i < |items|
    ensures Size(items[i]) <= SizeItems(items)
  {
    if i > 0 {
      SizeOfItem(items[1..], i - 1);
    }
  }

  lemma {:induction false} SizeOfField(fields: seq<Field>, i: nat)
    requires i < |fields|
    ensures Size(fields[i].value) < SizeFields(fields)
  {
    if i > 0 {
      SizeOfField(fields[1..], i - 1);
    }
  }

  /** `collect_value`, for the value of a form field. */
  function ValueText(v: string, key: Option<string>, e: Env): Bytes
    requires e.Fits()
  {
    if key.Some? && e.plumbing(key.value) then []
    else if StartsLikeJson(v) && e.parse(v).Some? then JsonText(e.parse(v).value, key, false, e)
    else Pushed(v, key, false, e)
  }

  method CollectValue(v: string, key: Option<string>, e: Env, before: Bytes) returns (out: Bytes)
    requires e.Fits()
    ensures Head(out) == Head(before + ValueText(v, key, e))
  {
    out := before;
    if key.Some? && e.plumbing(key.value) {
      assert out + [] == out;
      return;
    }
    if StartsLikeJson(v) {
      var j := e.parse(v);
      if j.Some? {
        out := CollectJson(j.value, key, false, e, out);
        return;
      }
    }
    out := out + Pushed(v, key, false, e);
  }

  // ----- the simple definition -----

  /** A string in a value, with the object keys on the way to it. */
  datatype Leaf = Leaf(text: string, keys: seq<string>)

  function Under(k: string, leaves: seq<Leaf>): (r: seq<Leaf>)
    ensures |r| == |leaves|
  {
    seq(|leaves|, i requires 0 <= i < |leaves| => Leaf(leaves[i].text, [k] + leaves[i].keys))
  }

  /** All strings of a value in the order it lists them, those inside double-encoded strings included. */
  function Leaves(v: Json, e: Env): seq<Leaf>
    requires e.Fits()
    decreases Size(v), 1
  {
    match v
    case String(s) => if Inner(s, e).Some? then Leaves(Inner(s, e).value, e) else [Leaf(s, [])]
    case Array(items) => ItemLeaves(items, e)
    case Object(fields) => FieldLeaves(fields, e)
    case _ => []
  }

  function ItemLeaves(items: seq<Json>, e: Env): seq<Leaf>
    requires e.Fits()
    decreases SizeItems(items) + 1, 0, |items|
  {
    if items == [] then [] else Leaves(items[0], e) + ItemLeaves(items[1..], e)
  }

  function FieldLeaves(fields: seq<Field>, e: Env): seq<Leaf>
    requires e.Fits()
    decreases SizeFields(fields) + 1, 0, |fields|
  {
    if fields == [] then [] else Under(fields[0].key, Leaves(fields[0].value, e)) + FieldLeaves(fields[1..], e)
  }

  /** Kept: no plumbing key above it, not blank, and — unless it belongs to content — not an opaque
      blob. It belongs to content when some key above it says so; the key of the form field counts
      only when no object key stands between. */
  ghost predicate Kept(l: Leaf, formKey: Option<string>, inContent: bool, e: Env) {
    && (forall k | k in l.keys :: !e.plumbing(k))
    && !Blank(l.text)
    && (|| inContent || (exists k | k in l.keys :: e.content(k))
        || (l.keys == [] && formKey.Some? && e.content(formKey.value))
        || !LooksOpaque(l.text))
  }

  /** The kept strings, one line each. */
  ghost function KeptText(leaves: seq<Leaf>, formKey: Option<string>, inContent: bool, e: Env): Bytes {
    if leaves == [] then []
    else
      var first := if Kept(leaves[0], formKey, inContent, e) then Encode(leaves[0].text) + [10] else [];
      first + KeptText(leaves[1..], formKey, inContent, e)
  }

  lemma {:induction false} KeptAppend(a: seq<Leaf>, b: seq<Leaf>, key: Option<string>, inContent: bool, e: Env)
    ensures KeptText(a + b, key, inContent, e) == KeptText(a, key, inContent, e) + KeptText(b, key, inContent, e)
  {
    if a == [] {
      assert a + b == b;
    } else {
      assert (a + b)[1..] == a[1..] + b && (a + b)[0] == a[0];
      KeptAppend(a[1..], b, key, inContent, e);
      var first := if Kept(a[0], key, inContent, e) then Line(a[0].text) else [];
      Regroup(first, KeptText(a[1..], key, inContent, e), KeptText(b, key, inContent, e));
    }
  }

  /** Below one more key. */
  lemma {:induction false} KeptUnder(k: string, leaves: seq<Leaf>, key: Option<string>, inContent: bool, e: Env)
    ensures KeptText(Under(k, leaves), key, inContent, e) ==
      if e.plumbing(k) then [] else KeptText(leaves, Some(k), inContent || e.content(k), e)
    decreases |leaves|
  {
    if leaves != [] {
      assert Under(k, leaves)[1..] == Under(k, leaves[1..]);
      KeptUnder(k, leaves[1..], key, inContent, e);
      OneUnder(k, leaves[0], key, inContent, e);
    }
  }

  lemma OneUnder(k: string, l: Leaf, key: Option<string>, inContent: bool, e: Env)
    ensures Kept(Leaf(l.text, [k] + l.keys), key, inContent, e)
      <==> !e.plumbing(k) && Kept(l, Some(k), inContent || e.content(k), e)
  {
    var keys := [k] + l.keys;
    assert k in keys && forall x :: x in keys <==> x == k || x in l.keys;
  }

  /** The walk appends exactly the kept strings. */
  lemma {:induction false} JsonTextIsKept(v: Json, key: Option<string>, inContent: bool, e: Env)
    requires e.Fits()
    ensures JsonText(v, key, inContent, e) == KeptText(Leaves(v, e), key, inContent, e)
    decreases Size(v), 1
  {
    match v
    case String(s) =>
      if Inner(s, e).Some? {
        JsonTextIsKept(Inner(s, e).value, key, inContent, e);
      } else {
        assert [Leaf(s, [])][1..] == [];
      }
    case Array(items) => ItemsTextIsKept(items, key, inContent, e);
    case Object(fields) => FieldsTextIsKept(fields, key, inContent, e);
    case _ =>
  }

  lemma {:induction false} ItemsTextIsKept(items: seq<Json>, key: Option<string>, inContent: bool, e: Env)
    requires e.Fits()
    ensures ItemsText(items, key, inContent, e) == KeptText(ItemLeaves(items, e), key, inContent, e)
    decreases SizeItems(items) + 1, 0, |items|
  {
    if items != [] {
      JsonTextIsKept(items[0], key, inContent, e);
      ItemsTextIsKept(items[1..], key, inContent, e);
      KeptAppend(Leaves(items[0], e), ItemLeaves(items[1..], e), key, inContent, e);
    }
  }

  lemma {:induction false} FieldsTextIsKept(fields: seq<Field>, key: Option<string>, inContent: bool, e: Env)
    requires e.Fits()
    ensures FieldsText(fields, inContent, e) == KeptText(FieldLeaves(fields, e), key, inContent, e)
    decreases SizeFields(fields) + 1, 0, |fields|
  {
    if fields != [] {
      var f := fields[0];
      JsonTextIsKept(f.value, Some(f.key), inContent || e.content(f.key), e);
      KeptUnder(f.key, Leaves(f.value, e), key, inContent, e);
      FieldsTextIsKept(fields[1..], key, inContent, e);
      KeptAppend(Under(f.key, Leaves(f.value, e)), FieldLeaves(fields[1..], e), key, inContent, e);
    }
  }

  /** Stopping early is invisible: whatever `collect_json` returns, capping it gives the cap of all
      the kept strings. */
  lemma EarlyStopInvisible(v: Json, e: Env, out: Bytes)
    requires e.Fits() && Head(out) == Head([] + JsonText(v, None, false, e))
    ensures Cap(out) == Cap(KeptText(Leaves(v, e), None, false, e))
  {
    JsonTextIsKept(v, None, false, e);
    assert [] + JsonText(v, None, false, e) == JsonText(v, None, false, e);
    HeadDecidesCap(out, JsonText(v, None, false, e));
  }

  /** A string that starts, white space aside, with a bracket or a brace, has more after it and parses, is
      read for the strings in it; every other string is read as it stands. */
  lemma NestedIsRead(pad: string, t: string, e: Env)
    requires e.Fits() && (forall i | 0 <= i < |pad| :: IsWhitespace(pad[i])) && (t == [] || !IsWhitespace(t[0]))
    ensures Leaves(String(pad + t), e) ==
      if |t| > 1 && (t[0] == '{' || t[0] == '[') && e.parse(pad + t).Some? then Leaves(e.parse(pad + t).value, e)
      else [Leaf(pad + t, [])]
  {
    PadIsTrimmed(pad, t);
  }

  lemma {:induction false} PadIsTrimmed(pad: string, t: string)
    requires (forall i | 0 <= i < |pad| :: IsWhitespace(pad[i])) && (t == [] || !IsWhitespace(t[0]))
    ensures TrimStart(pad + t) == t
  {
    if pad == [] {
      assert pad + t == t;
    } else {
      assert (pad + t)[1..] == pad[1..] + t && (pad + t)[0] == pad[0];
      PadIsTrimmed(pad[1..], t);
    }
  }

  // ----- the key of a form field -----

  /** What a field whose key says content would give if that counted for everything in it, as a
      content key inside JSON does. */
  ghost function IntendedText(v: string, key: string, e: Env): Bytes
    requires e.Fits()
  {
    if e.plumbing(key) then []
    else if StartsLikeJson(v) && e.parse(v).Some? then KeptText(Leaves(e.parse(v).value, e), Some(key), true, e)
    else Pushed(v, Some(key), true, e)
  }

  /** An opaque string below object keys that say neither content nor plumbing. */
  ghost predicate Overlooked(l: Leaf, e: Env) {
    && l.keys != [] && LooksOpaque(l.text) && !Blank(l.text)
    && forall k | k in l.keys :: !e.plumbing(k) && !e.content(k)
  }

  lemma OverlookedIsDropped(l: Leaf, key: string, e: Env)
    requires e.content(key)
    ensures (Kept(l, Some(key), false, e) <==> Kept(l, Some(key), true, e)) <==> !Overlooked(l, e)
    ensures Kept(l, Some(key), false, e) ==> Kept(l, Some(key), true, e)
  {
  }

  lemma {:induction false} OverlookedShortens(leaves: seq<Leaf>, key: string, e: Env)
    requires e.content(key)
    ensures var got, meant := KeptText(leaves, Some(key), false, e), KeptText(leaves, Some(key), true, e);
      && |got| <= |meant|
      && (if exists l | l in leaves :: Overlooked(l, e) then |got| < |meant| else got == meant)
  {
    if leaves != [] {
      OverlookedShortens(leaves[1..], key, e);
      OverlookedIsDropped(leaves[0], key, e);
      assert forall l :: l in leaves <==> l == leaves[0] || l in leaves[1..];
    }
  }

  /** A content field gives everything it is meant to, exactly when it is not JSON or no string in it is
      overlooked. */
  lemma FieldKeyReaches(v: string, key: string, e: Env)
    requires e.Fits() && e.content(key) && !e.plumbing(key)
    ensures ValueText(v, Some(key), e) == IntendedText(v, key, e) <==>
      (StartsLikeJson(v) && e.parse(v).Some? ==> forall l | l in Leaves(e.parse(v).value, e) :: !Overlooked(l, e))
  {
    if StartsLikeJson(v) && e.parse(v).Some? {
      JsonTextIsKept(e.parse(v).value, Some(key), false, e);
      OverlookedShortens(Leaves(e.parse(v).value, e), key, e);
    }
  }

  const BLOB := "AAAAAAAAAAAAAAAAAAAAAAAA"

  const DRAFT := "{\"draft\":\"AAAAAAAAAAAAAAAAAAAAAAAA\"}"

  /** The two word lists of the code. */
  function CodeEnv(parse: string -> Option<Json>): Env {
    Env(parse, k => RequestKeys.IsPlumbingKey(k), k => RequestKeys.IsContentKey(k))
  }

  /** Of JSON texts only the one above is needed. */
  function ExampleEnv(): Env {
    CodeEnv(s => if s == DRAFT then Some(Object([Field("draft", String(BLOB))])) else None)
  }

  /** An opaque string that stands directly in a content field is kept; inside an object it is dropped. */
  lemma KeptDirectlyDroppedInside(blob: string, v: string, key: string, inner: string, e: Env)
    requires e.Fits() && e.content(key) && !e.plumbing(key) && !e.content(inner)
    requires LooksOpaque(blob) && !Blank(blob) && !StartsLikeJson(blob)
    requires StartsLikeJson(v) && e.parse(v) == Some(Object([Field(inner, String(blob))]))
    ensures ValueText(blob, Some(key), e) == Line(blob)
    ensures ValueText(v, Some(key), e) == []
  {
    var fields := [Field(inner, String(blob))];
    assert FieldText(fields[0], false, e) == [];
    assert fields[1..] == [];
    assert FieldsText(fields, false, e) == FieldText(fields[0], false, e) + FieldsText([], false, e);
    assert JsonText(Object(fields), Some(key), false, e) == FieldsText(fields, false, e);
  }

  lemma ExampleBlob()
    ensures LooksOpaque(BLOB) && !Blank(BLOB) && !StartsLikeJson(BLOB)
  {
    TrimKeeps(BLOB);
    assert TrimStart(BLOB) == BLOB;
  }

  lemma ExampleDraft()
    ensures StartsLikeJson(DRAFT)
  {
    assert DRAFT[0] == '{';
  }

  /** An input: a field "message", and a JSON text in which "draft" stands between. */
  lemma OverlookedExample()
    ensures ExampleEnv().Fits()
    ensures ValueText(BLOB, Some("message"), ExampleEnv()) == Line(BLOB)
    ensures ValueText(DRAFT, Some("message"), ExampleEnv()) == []
  {
    ExampleFits();
    ExampleBlob();
    ExampleDraft();
    RequestKeys.MessageIsContent();
    RequestKeys.DraftIsNeither();
    KeptDirectlyDroppedInside(BLOB, DRAFT, "message", "draft", ExampleEnv());
  }

  lemma ExampleFits()
    ensures ExampleEnv().Fits()
  {
    var fields := [Field("draft", String(BLOB))];
    assert SizeFields(fields) == 5 + 3 + Size(String(BLOB)) + SizeFields(fields[1..]);
    assert fields[1..] == [];
    assert Size(Object(fields)) == 36 == |DRAFT|;
  }

  // ----- the whole extractor -----

  predicate Contains(s: string, t: string) {
    exists i | 0 <= i <= |s| :: t <= s[i..]
  }

  /** Whatever stands around it. */
  lemma ContainsWithin(a: string, t: string, b: string)
    ensures Contains(a + t + b, t)
  {
    assert (a + t + b)[|a|..] == t + b;
  }

  lemma ContainedBetween(s: string, t: string) returns (a: string, b: string)
    requires Contains(s, t)
    ensures s == a + t + b
  {
    var i :| 0 <= i <= |s| && t <= s[i..];
    var rest := s[i..];
    a, b := s[..i], rest[|t|..];
    assert rest == t + b;
    Regroup(a, t, b);
  }

  predicate IsAsciiSpace(b: Byte) { b == 0x20 || b == 0x09 || b == 0x0A || b == 0x0C || b == 0x0D }

  function TrimAsciiStart(b: Bytes): Bytes {
    if b != [] && IsAsciiSpace(b[0]) then TrimAsciiStart(b[1..]) else b
  }

  /** Control characters that are not white space. */
  predicate IsControl(c: char) {
    (c as int < 0x20 || 0x7F <= c as int < 0xA0) && !IsWhitespace(c)
  }

  function Controls(s: string): nat {
    if s == [] then 0 else Controls(s[..|s| - 1]) + if IsControl(s[|s| - 1]) then 1 else 0
  }

  datatype FormField = FormField(key: string, value: string)

  function FormText(fields: seq<FormField>, e: Env): Bytes
    requires e.Fits()
  {
    if fields == [] then [] else ValueText(fields[0].value, Some(fields[0].key), e) + FormText(fields[1..], e)
  }

  /** The form fields of a multipart body: the parts that are not files. */
  function PartFields(parts: seq<Multipart.Part>, lossy: Bytes -> string): seq<FormField> {
    if parts == [] then []
    else
      var rest := PartFields(parts[1..], lossy);
      if parts[0].filename.Some? then rest else [FormField(parts[0].name, lossy(parts[0].data))] + rest
  }

  /** Parts that are files give nothing; the others their name and their text, in order. */
  lemma {:induction false} OnlyFieldsCount(a: seq<Multipart.Part>, p: Multipart.Part, b: seq<Multipart.Part>,
                                           lossy: Bytes -> string)
    ensures PartFields(a + [p] + b, lossy) == PartFields(a, lossy)
      + (if p.filename.None? then [FormField(p.name, lossy(p.data))] else []) + PartFields(b, lossy)
  {
    if a == [] {
      assert a + [p] + b == [p] + b && ([p] + b)[1..] == b;
    } else {
      assert (a + [p] + b)[1..] == a[1..] + [p] + b;
      OnlyFieldsCount(a[1..], p, b, lossy);
    }
  }

  /** A request body; its JSON and form readings come from libraries. */
  datatype Body = Body(bytes: Bytes, json: Option<Json>, form: seq<FormField>)

  predicate MayBeJson(ct: string, body: Body) {
    var t := TrimAsciiStart(body.bytes);
    Contains(ct, "json") || (t != [] && (t[0] == 0x7B || t[0] == 0x5B))
  }

  datatype Kind = JsonBody | FormBody | MultipartBody(boundary: Option<string>) | PlainBody | OtherBody

  /** The branch the content type and the first byte choose. */
  function KindOf(ct: string, rawCt: string, body: Body): (kind: Kind)
    ensures kind.JsonBody? ==> body.json.Some?
  {
    if MayBeJson(ct, body) && body.json.Some? then JsonBody
    else if ct == "application/x-www-form-urlencoded" then FormBody
    else if "multipart/" <= ct then MultipartBody(Multipart.Param(rawCt, "boundary"))
    else if "text/" <= ct || ct == "" then PlainBody
    else OtherBody
  }

  function PlainText(s: string): Bytes {
    var n := |Encode(s)|;
    if Controls(s) * 20 < (if n > 1 then n else 1) then Encode(s) else []
  }

  /** Everything a person wrote, without a cap. */
  function WholeText(kind: Kind, body: Body, e: Env, lossy: Bytes -> string): Bytes
    requires e.Fits() && (kind.JsonBody? ==> body.json.Some?)
  {
    match kind
    case JsonBody => JsonText(body.json.value, None, false, e)
    case FormBody => FormText(body.form, e)
    case MultipartBody(b) =>
      if b.None? then [] else FormText(PartFields(Multipart.Parse(body.bytes, b.value, lossy), lossy), e)
    case PlainBody => PlainText(lossy(body.bytes))
    case OtherBody => []
  }

  method CollectForm(fields: seq<FormField>, e: Env, before: Bytes) returns (out: Bytes)
    requires e.Fits()
    ensures Head(out) == Head(before + FormText(fields, e))
  {
    out := before;
    ghost var all := FormText(fields, e);
    ghost var pending := all;
    for i := 0 to |fields|
      invariant pending == FormText(fields[i..], e)
      invariant Head(out + pending) == Head(before + all)
    {
      assert fields[i..][1..] == fields[i + 1..];
      ghost var first, rest := ValueText(fields[i].value, Some(fields[i].key), e), FormText(fields[i + 1..], e);
      assert pending == first + rest;
      ghost var out0 := out;
      out := CollectValue(fields[i].value, Some(fields[i].key), e, out);
      HeadThen(out, out0, first, rest);
      pending := rest;
    }
    assert out + [] == out;
  }

  /** The branches of `user_text`. */
  method TextOfKind(kind: Kind, body: Body, e: Env, lossy: Bytes -> string) returns (text: Bytes)
    requires e.Fits() && (kind.JsonBody? ==> body.json.Some?)
    ensures text == Cap(WholeText(kind, body, e, lossy))
  {
    var out: Bytes := [];
    ghost var whole := WholeText(kind, body, e, lossy);
    assert out + whole == whole;
    match kind {
    case JsonBody => out := CollectJson(body.json.value, None, false, e, out);
    case FormBody => out := CollectForm(body.form, e, out);
    case MultipartBody(b) =>
      if b.Some? {
        var parts := Multipart.MultipartParts(body.bytes, b.value, lossy);
        out := CollectForm(PartFields(parts, lossy), e, out);
      }
    case PlainBody => out := PlainText(lossy(body.bytes));
    case OtherBody =>
    }
    HeadDecidesCap(out, whole);
    return Cap(out);
  }

  // ----- what each content type is read as -----

  /** The kept strings of a form field: those of the JSON in it, or the value itself. */
  ghost function FieldKept(f: FormField, e: Env): Bytes
    requires e.Fits()
  {
    if e.plumbing(f.key) then []
    else
      var json := StartsLikeJson(f.value) && e.parse(f.value).Some?;
      KeptText(if json then Leaves(e.parse(f.value).value, e) else [Leaf(f.value, [])], Some(f.key), false, e)
  }

  ghost function FormKept(fields: seq<FormField>, e: Env): Bytes
    requires e.Fits()
  {
    if fields == [] then [] else FieldKept(fields[0], e) + FormKept(fields[1..], e)
  }

  lemma FieldTextIsKept(f: FormField, e: Env)
    requires e.Fits()
    ensures ValueText(f.value, Some(f.key), e) == FieldKept(f, e)
  {
    if StartsLikeJson(f.value) && e.parse(f.value).Some? {
      JsonTextIsKept(e.parse(f.value).value, Some(f.key), false, e);
    } else {
      OneLeafIsKept(f.value, f.key, e);
    }
  }

  lemma OneLeafIsKept(v: string, key: string, e: Env)
    ensures KeptText([Leaf(v, [])], Some(key), false, e) == Pushed(v, Some(key), false, e)
  {
    assert [Leaf(v, [])][1..] == [];
  }

  lemma {:induction false} FormTextIsKept(fields: seq<FormField>, e: Env)
    requires e.Fits()
    ensures FormText(fields, e) == FormKept(fields, e)
  {
    if fields != [] {
      FieldTextIsKept(fields[0], e);
      FormTextIsKept(fields[1..], e);
    }
  }

  /** A body that parses as JSON and says so: in its type, or by its first byte that is not white space. */
  ghost predicate ReadAsJson(ct: string, body: Body) {
    && body.json.Some?
    && (Contains(ct, "json")
        || exists k: nat :: FirstVisible(body.bytes, k) && (body.bytes[k] == 0x7B || body.bytes[k] == 0x5B))
  }

  ghost predicate FirstVisible(b: Bytes, k: nat) {
    k < |b| && b[k] !in {9, 10, 12, 13, 32} && forall i | 0 <= i < k :: b[i] in {9, 10, 12, 13, 32}
  }

  lemma {:induction false} TrimmedIsFirstVisible(b: Bytes, k: nat)
    requires FirstVisible(b, k)
    ensures TrimAsciiStart(b) == b[k..]
  {
    if k > 0 {
      assert forall i | 0 <= i < k - 1 :: b[1..][i] == b[i + 1];
      TrimmedIsFirstVisible(b[1..], k - 1);
    }
  }

  lemma {:induction false} SomethingVisible(b: Bytes) returns (k: nat)
    requires TrimAsciiStart(b) != []
    ensures FirstVisible(b, k)
  {
    k := 0;
    if IsAsciiSpace(b[0]) {
      k := SomethingVisible(b[1..]);
      assert forall i | 0 < i <= k :: b[i] == b[1..][i - 1];
      k := k + 1;
    }
  }

  lemma JsonWhenItSaysSo(ct: string, body: Body)
    ensures MayBeJson(ct, body) && body.json.Some? <==> ReadAsJson(ct, body)
  {
    if k: nat :| FirstVisible(body.bytes, k) {
      TrimmedIsFirstVisible(body.bytes, k);
      forall j: nat | FirstVisible(body.bytes, j) ensures j == k {
        TrimmedIsFirstVisible(body.bytes, j);
      }
    } else if TrimAsciiStart(body.bytes) != [] {
      var k := SomethingVisible(body.bytes);
    }
  }

  /** How a multipart body was written and announced. */
  datatype Writing = Writing(
    mediaType: string, key: string, boundary: string, quoted: bool, preamble: Bytes,
    items: seq<MultipartRoundTrip.Item>)

  ghost predicate Writes(w: Writing, rawCt: string, bytes: Bytes) {
    && ';' !in w.mediaType && Lower(w.key) == "boundary" && MultipartRoundTrip.Plain(w.boundary, w.quoted)
    && rawCt == w.mediaType + [';'] + MultipartRoundTrip.Parameter(w.key, w.boundary, w.quoted)
    && MultipartRoundTrip.Fits(w.preamble, Multipart.Delimiter(w.boundary))
    && (forall i | 0 <= i < |w.items| ::
          && MultipartRoundTrip.Possible(w.items[i])
          && MultipartRoundTrip.Absent(
               Multipart.Delimiter(w.boundary), MultipartRoundTrip.ItemBytes(w.items[i])))
    && bytes == MultipartRoundTrip.Render(w.preamble, w.items, w.boundary)
  }

  /** `text` is what the code promises for a form, for a multipart body however it is written, for plain
      text and for everything else. */
  ghost predicate FormReading(body: Body, e: Env, text: Bytes)
    requires e.Fits()
  {
    text == Cap(FormKept(body.form, e))
  }

  ghost predicate MultipartReading(rawCt: string, body: Body, e: Env, lossy: Bytes -> string, text: Bytes)
    requires e.Fits()
  {
    && (';' !in rawCt ==> text == [])
    && (MultipartRoundTrip.ReadsUtf8(lossy) ==>
      forall w: Writing | Writes(w, rawCt, body.bytes) ::
        text == Cap(FormKept(PartFields(MultipartRoundTrip.PartsOf(w.items), lossy), e)))
  }

  /** Text is kept when less than a twentieth of it is control characters. */
  ghost predicate PlainReading(body: Body, lossy: Bytes -> string, text: Bytes) {
    var s := lossy(body.bytes);
    text == if 20 * |ControlPlaces(s)| < |Encode(s)| || s == [] then Cap(Encode(s)) else []
  }

  function ControlPlaces(s: string): set<nat> { set i: nat | i < |s| && InControlRange(s[i] as int) }

  /** The control characters without tab, line feed, vertical tab, form feed, return and next line. */
  predicate InControlRange(n: int) { n <= 8 || 14 <= n <= 31 || 127 <= n <= 132 || 134 <= n <= 159 }

  lemma {:induction false} ControlsCounts(s: string)
    ensures Controls(s) == |ControlPlaces(s)|
  {
    if s != [] {
      var n := |s| - 1;
      ControlsCounts(s[..n]);
      assert IsControl(s[n]) <==> InControlRange(s[n] as int);
      assert ControlPlaces(s) == ControlPlaces(s[..n]) + if IsControl(s[n]) then {n} else {};
    }
  }

  lemma PlainIsRead(s: string)
    ensures PlainText(s) == if 20 * |ControlPlaces(s)| < |Encode(s)| || s == [] then Encode(s) else []
  {
    ControlsCounts(s);
    if s != [] { EncodeStartsAtBoundary(s); }
  }

  lemma MultipartIsRead(rawCt: string, body: Body, e: Env, lossy: Bytes -> string)
    requires e.Fits()
    ensures MultipartReading(rawCt, body, e, lossy,
      Cap(WholeText(MultipartBody(Multipart.Param(rawCt, "boundary")), body, e, lossy)))
  {
    if ';' !in rawCt { SplitFirst(rawCt, ';', []); }
    if MultipartRoundTrip.ReadsUtf8(lossy) {
      forall w: Writing | Writes(w, rawCt, body.bytes)
        ensures WholeText(MultipartBody(Multipart.Param(rawCt, "boundary")), body, e, lossy)
             == FormKept(PartFields(MultipartRoundTrip.PartsOf(w.items), lossy), e)
      {
        WritingIsRead(w, rawCt, body, e, lossy);
      }
    }
  }

  lemma WritingIsRead(w: Writing, rawCt: string, body: Body, e: Env, lossy: Bytes -> string)
    requires e.Fits() && Writes(w, rawCt, body.bytes) && MultipartRoundTrip.ReadsUtf8(lossy)
    ensures WholeText(MultipartBody(Multipart.Param(rawCt, "boundary")), body, e, lossy)
         == FormKept(PartFields(MultipartRoundTrip.PartsOf(w.items), lossy), e)
  {
    AnnouncementIsRead(w, rawCt, body.bytes);
    RenderingIsRead(w, rawCt, body.bytes, lossy);
    PartsGive(w.boundary, MultipartRoundTrip.PartsOf(w.items), body, e, lossy);
  }

  lemma AnnouncementIsRead(w: Writing, rawCt: string, bytes: Bytes)
    requires Writes(w, rawCt, bytes)
    ensures Multipart.Param(rawCt, "boundary") == Some(w.boundary)
  {
    MultipartRoundTrip.BoundaryReads(w.mediaType, w.key, w.boundary, w.quoted);
  }

  lemma RenderingIsRead(w: Writing, rawCt: string, bytes: Bytes, lossy: Bytes -> string)
    requires Writes(w, rawCt, bytes) && MultipartRoundTrip.ReadsUtf8(lossy)
    ensures Multipart.Parse(bytes, w.boundary, lossy) == MultipartRoundTrip.PartsOf(w.items)
  {
    MultipartRoundTrip.RoundTrip(w.preamble, w.items, w.boundary, lossy);
  }

  lemma PartsGive(boundary: string, parts: seq<Multipart.Part>, body: Body, e: Env, lossy: Bytes -> string)
    requires e.Fits() && Multipart.Parse(body.bytes, boundary, lossy) == parts
    ensures WholeText(MultipartBody(Some(boundary)), body, e, lossy) == FormKept(PartFields(parts, lossy), e)
  {
    FormTextIsKept(PartFields(parts, lossy), e);
  }

  predicate IsForm(ct: string) { ct == "application/x-www-form-urlencoded" }

  predicate IsMultipart(ct: string) { "multipart/" <= ct }

  predicate IsPlain(ct: string) { "text/" <= ct || ct == "" }

  lemma KindIs(ct: string, rawCt: string, body: Body)
    ensures var kind := KindOf(ct, rawCt, body);
      if ReadAsJson(ct, body) then kind == JsonBody
      else if IsForm(ct) then kind == FormBody
      else if IsMultipart(ct) then kind == MultipartBody(Multipart.Param(rawCt, "boundary"))
      else if IsPlain(ct) then kind == PlainBody
      else kind == OtherBody
  {
    JsonWhenItSaysSo(ct, body);
  }

  lemma TypesDiffer(ct: string)
    ensures IsForm(ct) ==> !IsMultipart(ct) && !IsPlain(ct)
    ensures IsMultipart(ct) ==> !IsPlain(ct)
  {
    if IsForm(ct) { assert ct[0] == 'a'; }
    if IsMultipart(ct) { assert ct[0] == 'm'; }
    if "text/" <= ct { assert ct[0] == 't'; }
  }

  /** What each kind of body comes to. */
  ghost predicate Reading(kind: Kind, rawCt: string, body: Body, e: Env, lossy: Bytes -> string, text: Bytes)
    requires e.Fits() && (kind.JsonBody? ==> body.json.Some?)
  {
    match kind
    case JsonBody => text == Cap(KeptText(Leaves(body.json.value, e), None, false, e))
    case FormBody => FormReading(body, e, text)
    case MultipartBody(_) => MultipartReading(rawCt, body, e, lossy, text)
    case PlainBody => PlainReading(body, lossy, text)
    case OtherBody => text == []
  }

  lemma WholeTextIsRead(kind: Kind, rawCt: string, body: Body, e: Env, lossy: Bytes -> string)
    requires e.Fits() && (kind.JsonBody? ==> body.json.Some?)
    requires kind.MultipartBody? ==> kind == MultipartBody(Multipart.Param(rawCt, "boundary"))
    ensures Reading(kind, rawCt, body, e, lossy, Cap(WholeText(kind, body, e, lossy)))
  {
    match kind
    case JsonBody =>
      JsonTextIsKept(body.json.value, None, false, e);
    case FormBody =>
      FormTextIsKept(body.form, e);
    case MultipartBody(_) =>
      MultipartIsRead(rawCt, body, e, lossy);
    case PlainBody =>
      PlainIsRead(lossy(body.bytes));
    case OtherBody =>
  }

  /** `user_text`: a body that is JSON gives its kept strings; any other is read as its type says; always
      capped. */
  method UserText(ct: string, rawCt: string, body: Body, e: Env, lossy: Bytes -> string) returns (text: Bytes)
    requires e.Fits()
    ensures ReadAsJson(ct, body) ==> text == Cap(KeptText(Leaves(body.json.value, e), None, false, e))
    ensures !ReadAsJson(ct, body) && IsForm(ct) ==> FormReading(body, e, text)
    ensures !ReadAsJson(ct, body) && IsMultipart(ct) ==> MultipartReading(rawCt, body, e, lossy, text)
    ensures !ReadAsJson(ct, body) && IsPlain(ct) ==> PlainReading(body, lossy, text)
    ensures !ReadAsJson(ct, body) && !IsForm(ct) && !IsMultipart(ct) && !IsPlain(ct) ==> text == []
  {
    var kind := KindOf(ct, rawCt, body);
    text := TextOfKind(kind, body, e, lossy);
    TypesDiffer(ct);
    KindIs(ct, rawCt, body);
    WholeTextIsRead(kind, rawCt, body, e, lossy);
  }
}

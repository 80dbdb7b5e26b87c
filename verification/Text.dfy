/** The few operations on Rust strings that the request parsers use. */
module Text {
  import opened Seqs

  /** `char::is_whitespace`: Unicode's White_Space property. */
  predicate IsWhitespace(c: char) {
    var n := c as int;
    || 0x09 <= n <= 0x0D || n == 0x20 || n == 0x85 || n == 0xA0 || n == 0x1680 || 0x2000 <= n <= 0x200A
    || n == 0x2028 || n == 0x2029 || n == 0x202F || n == 0x205F || n == 0x3000
  }

  function TrimStart(s: string): string {
    if s != [] && IsWhitespace(s[0]) then TrimStart(s[1..]) else s
  }

  function TrimEnd(s: string): string {
    if s != [] && IsWhitespace(s[|s| - 1]) then TrimEnd(s[..|s| - 1]) else s
  }

  function Trim(s: string): string { TrimEnd(TrimStart(s)) }

  /** `trim_matches('"')`. */
  function Unquote(s: string): string {
    if s != [] && s[0] == '"' then Unquote(s[1..])
    else if s != [] && s[|s| - 1] == '"' then Unquote(s[..|s| - 1])
    else s
  }

  /** A host without its leading "www.". */
  function StripWww(host: string): string {
    if "www." <= host then host[4..] else host
  }

  function LowerChar(c: char): char {
    if 'A' <= c <= 'Z' then c - 'A' + 'a' else c
  }

  /** `to_ascii_lowercase`. */
  function Lower(s: string): (r: string)
    ensures |r| == |s|
  {
    seq(|s|, i requires 0 <= i < |s| => LowerChar(s[i]))
  }

  function WithoutCr(s: string): string {
    if s != [] && s[|s| - 1] == '\r' then s[..|s| - 1] else s
  }

  /** `lines`: pieces ended by a line feed, a carriage return before it dropped, and a rest without
      one kept as it is. */
  function Lines(s: string): seq<string>
    decreases |s|
  {
    if s == [] then []
    else
      var r := SplitOnce(s, '\n');
      if r.None? then [s]
      else
        SplitOnceShrinks(s, '\n');
        [WithoutCr(r.value.0)] + Lines(r.value.1)
  }

  lemma {:induction false} SplitOnceShrinks(s: string, sep: char)
    ensures SplitOnce(s, sep).Some? ==> |SplitOnce(s, sep).value.0| + |SplitOnce(s, sep).value.1| + 1 == |s|
  {
    if s != [] {
      SplitOnceShrinks(s[1..], sep);
    }
  }

  lemma TrimKeeps(s: string)
    requires s != [] ==> !IsWhitespace(s[0]) && !IsWhitespace(s[|s| - 1])
    ensures Trim(s) == s
  {
  }

  lemma TrimSpace(s: string)
    requires Trim(s) == s && s != []
    ensures Trim(" " + s) == s
  {
    assert (" " + s)[1..] == s;
    TrimmedStart(s);
  }

  lemma {:induction false} TrimmedStart(s: string)
    requires Trim(s) == s
    ensures TrimStart(s) == s
  {
    ShorterTrim(s);
    ShorterTrimEnd(TrimStart(s));
  }

  lemma {:induction false} ShorterTrim(s: string)
    ensures |TrimStart(s)| <= |s| && (|TrimStart(s)| == |s| ==> TrimStart(s) == s)
  {
    if s != [] && IsWhitespace(s[0]) {
      ShorterTrim(s[1..]);
    }
  }

  lemma {:induction false} ShorterTrimEnd(s: string)
    ensures |TrimEnd(s)| <= |s|
    decreases |s|
  {
    if s != [] && IsWhitespace(s[|s| - 1]) {
      ShorterTrimEnd(s[..|s| - 1]);
    }
  }

  lemma UnquoteQuoted(s: string)
    requires '"' !in s
    ensures Unquote("\"" + s + "\"") == s
  {
    var q := "\"" + s + "\"";
    assert q[1..] == s + "\"";
    if s != [] {
      assert s[0] in s && s[|s| - 1] in s;
      assert (s + "\"")[..|s|] == s;
      assert Unquote(s + "\"") == Unquote(s);
    } else {
      assert s + "\"" == "\"" && "\""[1..] == [];
      assert Unquote("\"") == [];
    }
  }

  // ----- what these operations mean -----

  /** White space is more than the keyboard's, but no visible character, and not the zero-width space or
      the byte order mark. */
  lemma WhiteSpaceIs(c: char)
    ensures c in "\t\n\r \U{000B}\U{000C}\U{0085}\U{00A0}" ==> IsWhitespace(c)
    ensures c in "\U{1680}\U{2000}\U{200A}\U{2028}\U{2029}\U{202F}\U{205F}\U{3000}" ==> IsWhitespace(c)
    ensures '!' <= c <= '~' || c in "\U{0008}\U{000E}\U{001F}\U{00A1}\U{1FFF}\U{200B}\U{FEFF}" ==> !IsWhitespace(c)
  {
  }

  /** `mid` is `s` from `i` to `j`, and all around it is of a kind. */
  ghost predicate StrippedAt(s: string, mid: string, kind: char -> bool, i: nat, j: nat) {
    && i <= j <= |s| && mid == s[i..j]
    && (forall k | 0 <= k < i :: kind(s[k])) && (forall k | j <= k < |s| :: kind(s[k]))
  }

  /** `mid` is `s` without the characters of a kind at its ends. */
  ghost predicate Stripped(s: string, mid: string, kind: char -> bool) {
    && (mid == [] || (!kind(mid[0]) && !kind(mid[|mid| - 1])))
    && exists i: nat, j: nat :: StrippedAt(s, mid, kind, i, j)
  }

  lemma {:induction false} StartStripped(s: string) returns (i: nat)
    ensures i <= |s| && TrimStart(s) == s[i..] && forall k | 0 <= k < i :: IsWhitespace(s[k])
    ensures i < |s| ==> !IsWhitespace(s[i])
  {
    i := 0;
    if s != [] && IsWhitespace(s[0]) {
      i := StartStripped(s[1..]);
      assert forall k | 0 < k <= i :: s[k] == s[1..][k - 1];
      i := i + 1;
    }
  }

  lemma {:induction false} EndStripped(s: string) returns (j: nat)
    ensures j <= |s| && TrimEnd(s) == s[..j] && forall k | j <= k < |s| :: IsWhitespace(s[k])
    ensures j > 0 ==> !IsWhitespace(s[j - 1])
    decreases |s|
  {
    j := |s|;
    if s != [] && IsWhitespace(s[|s| - 1]) {
      j := EndStripped(s[..|s| - 1]);
    }
  }

  /** Trimming takes white space off both ends, all of it, and nothing else. */
  lemma TrimStrips(s: string)
    ensures Stripped(s, Trim(s), IsWhitespace)
  {
    var i := StartStripped(s);
    var j := EndStripped(TrimStart(s));
    assert Trim(s) == s[i..i + j];
    assert forall k | i + j <= k < |s| :: s[k] == s[i..][k - i];
    assert StrippedAt(s, Trim(s), IsWhitespace, i, i + j);
  }

  predicate IsQuote(c: char) { c == '"' }

  lemma {:induction false} QuotesStripped(s: string) returns (i: nat, j: nat)
    ensures i <= j <= |s| && Unquote(s) == s[i..j]
    ensures (forall k | 0 <= k < i :: s[k] == '"') && (forall k | j <= k < |s| :: s[k] == '"')
    ensures i < j ==> s[i] != '"' && s[j - 1] != '"'
    decreases |s|
  {
    i, j := 0, |s|;
    if s != [] && s[0] == '"' {
      i, j := QuotesStripped(s[1..]);
      assert forall k | 0 < k < |s| :: s[k] == s[1..][k - 1];
      i, j := i + 1, j + 1;
    } else if s != [] && s[|s| - 1] == '"' {
      i, j := QuotesStripped(s[..|s| - 1]);
    }
  }

  /** Unquoting takes quotes off both ends, all of them, and nothing else. */
  lemma UnquoteStrips(s: string)
    ensures Stripped(s, Unquote(s), IsQuote)
  {
    var i, j := QuotesStripped(s);
    assert StrippedAt(s, Unquote(s), IsQuote, i, j);
  }

  lemma UnquoteBare(s: string)
    requires '"' !in s
    ensures Unquote(s) == s
  {
    assert s != [] ==> s[0] in s && s[|s| - 1] in s;
  }

  /** Only the 26 capital letters change. */
  lemma LowerAlphabet()
    ensures Lower("ABCDEFGHIJKLMNOPQRSTUVWXYZ") == "abcdefghijklmnopqrstuvwxyz"
  {
  }

  lemma OthersStay(c: char)
    requires c < 'A' || 'Z' < c
    ensures LowerChar(c) == c
  {
  }

  /** Only a leading "www." is taken off, and once. */
  lemma StripWwwIs(host: string)
    ensures StripWww("www." + host) == host
    ensures StripWww(host) != host ==> host == "www." + StripWww(host)
  {
    assert ("www." + host)[4..] == host;
    assert "www." <= host ==> host == "www." + host[4..];
  }
}

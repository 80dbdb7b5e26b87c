/** Which keys of a request body are content, and which are plumbing: the two word lists of the code. */
module RequestKeys {
  import opened Seqs
  import opened Text

  predicate IsContentWord(s: string) {
    s in {"content", "text", "message", "messages", "body", "prompt", "parts", "subject", "comment", "description",
          "title", "query", "input", "html", "plaintext", "caption", "note", "notes", "richtext", "markdown"}
  }

  predicate IsPlumbingWord(s: string) {
    s in {"id", "uuid", "guid", "token", "nonce", "csrf", "xsrf", "signature", "sig", "hash", "checksum", "etag",
          "cursor", "session", "timestamp", "ts", "time", "version", "v", "at", "ik", "key", "secret", "auth",
          "authorization", "state", "code", "challenge", "fingerprint", "cookie", "trace", "span", "sequence",
          "seq", "offset", "rev", "revision", "locale", "lang", "timezone", "tz", "platform", "useragent"}
  }

  /** Ordinary words that happen to end in "id". */
  predicate IsWordInId(s: string) {
    s in {"android", "paid", "unpaid", "prepaid", "valid", "invalid", "void", "avoid", "liquid", "fluid", "rapid",
          "hybrid", "solid", "vivid", "acid", "grid", "said", "raid", "bid", "kid", "lid", "mid", "did", "squid",
          "humid", "cupid", "candid", "splendid", "timid", "lucid", "pyramid", "aid", "maid", "braid", "druid"}
  }

  predicate EndsWith(s: string, t: string) {
    |t| <= |s| && s[|s| - |t|..] == t
  }

  predicate HasPlumbingEnding(s: string) {
    || EndsWith(s, "token") || EndsWith(s, "hash") || EndsWith(s, "nonce") || EndsWith(s, "secret")
    || EndsWith(s, "signature") || EndsWith(s, "timestamp") || EndsWith(s, "_at") || EndsWith(s, "_ts")
    || EndsWith(s, "uuid") || EndsWith(s, "guid")
  }

  predicate IsAlphanumeric(c: char) {
    'a' <= c <= 'z' || 'A' <= c <= 'Z' || '0' <= c <= '9'
  }

  /** Letters and digits only. */
  function Bare(s: string): string {
    if s == [] then [] else (if IsAlphanumeric(s[0]) then [s[0]] else []) + Bare(s[1..])
  }

  /** "threadid" and "userids", but not "ids" or "id" alone. */
  predicate NamesAnId(bare: string) {
    if EndsWith(bare, "ids") then |bare| > 3 else EndsWith(bare, "id") && |bare| > 2
  }

  predicate IsContentKey(key: string) { IsContentWord(Lower(key)) }

  predicate IsPlumbingKey(key: string) {
    var lower := Lower(key);
    var bare := Bare(lower);
    IsPlumbingWord(bare) || (NamesAnId(bare) && !IsWordInId(bare)) || HasPlumbingEnding(lower)
  }

  /** Case never matters. */
  lemma CaseIgnored(key: string)
    ensures IsContentKey(Lower(key)) == IsContentKey(key) && IsPlumbingKey(Lower(key)) == IsPlumbingKey(key)
  {
    assert Lower(Lower(key)) == Lower(key);
  }

  // ----- two keys in point -----

  predicate Letters(s: string) { forall i | 0 <= i < |s| :: 'a' <= s[i] <= 'z' }

  lemma {:induction false} BareLetters(s: string)
    requires Letters(s)
    ensures Bare(s) == s
  {
    if s != [] {
      BareLetters(s[1..]);
    }
  }

  predicate Harmless(s: string) {
    Letters(s) && !IsPlumbingWord(s) && !EndsWith(s, "id") && !EndsWith(s, "ids") && !HasPlumbingEnding(s)
  }

  /** A word of small letters that is not in the list and has none of the endings is not plumbing. */
  lemma HarmlessIsNotPlumbing(s: string)
    requires Harmless(s)
    ensures Lower(s) == s && !IsPlumbingKey(s)
  {
    assert Lower(s) == s;
    BareLetters(s);
  }

  lemma NoPlumbingWords()
    ensures !IsPlumbingWord("draft") && !IsPlumbingWord("message")
  {
  }

  lemma DraftIsHarmless()
    ensures Harmless("draft")
  {
    NoPlumbingWords();
  }

  lemma MessageIsHarmless()
    ensures Harmless("message")
  {
    NoPlumbingWords();
  }

  lemma DraftIsNoContentWord()
    ensures !IsContentWord("draft")
  {
  }

  lemma DraftIsNeither()
    ensures !IsContentKey("draft") && !IsPlumbingKey("draft")
  {
    DraftIsHarmless();
    HarmlessIsNotPlumbing("draft");
    DraftIsNoContentWord();
  }

  lemma MessageIsContent()
    ensures IsContentKey("message") && !IsPlumbingKey("message")
  {
    MessageIsHarmless();
    HarmlessIsNotPlumbing("message");
  }

  // ----- keys that name an id -----

  lemma {:induction false} BareAppend(a: string, b: string)
    ensures Bare(a + b) == Bare(a) + Bare(b)
  {
    if a == [] {
      assert a + b == b;
    } else {
      assert (a + b)[1..] == a[1..] + b && (a + b)[0] == a[0];
      BareAppend(a[1..], b);
      Regroup(if IsAlphanumeric(a[0]) then [a[0]] else [], Bare(a[1..]), Bare(b));
    }
  }

  lemma BareId()
    ensures Bare("_id") == "id" && Bare("id") == "id" && Lower("_Id") == "_id" && Lower("Id") == "id"
  {
    assert "_id"[1..] == "id" && "id"[1..] == "d" && "d"[1..] == "";
  }

  lemma BareIds()
    ensures Bare("_ids") == "ids" && Bare("ids") == "ids" && Lower("_Ids") == "_ids" && Lower("Ids") == "ids"
  {
    assert "_ids"[1..] == "ids" && "ids"[1..] == "ds" && "ds"[1..] == "s" && "s"[1..] == "";
  }

  lemma LowerAppend(a: string, b: string)
    ensures Lower(a + b) == Lower(a) + Lower(b)
  {
  }

  /** "thread_id", "threadId": whatever the word before it, unless the two together are an ordinary word. */
  lemma NamedIds(word: string, ending: string)
    requires Letters(word) && word != [] && !IsWordInId(word + "id") && ending in {"_Id", "Id", "_id", "id"}
    ensures IsPlumbingKey(word + ending)
  {
    BareId();
    LowerAppend(word, ending);
    assert Lower(word) == word;
    assert Lower(ending) == "_id" || Lower(ending) == "id";
    BareLetters(word);
    BareAppend(word, Lower(ending));
    EndsInId(word);
  }

  /** "userIds", "user_ids" too. */
  lemma NamedManyIds(word: string, ending: string)
    requires Letters(word) && word != [] && !IsWordInId(word + "ids") && ending in {"_Ids", "Ids", "_ids", "ids"}
    ensures IsPlumbingKey(word + ending)
  {
    BareIds();
    LowerAppend(word, ending);
    assert Lower(word) == word;
    assert Lower(ending) == "_ids" || Lower(ending) == "ids";
    BareLetters(word);
    BareAppend(word, Lower(ending));
    var bare := word + "ids";
    assert bare[|bare| - 3..] == "ids";
  }

  /** But "ids" alone is not plumbing. */
  lemma IdsAloneIsNotPlumbing()
    ensures !IsPlumbingKey("ids")
  {
    BareIds();
    IdsIsNoWord();
    IdsHasNoEnding();
    assert Lower("ids") == "ids";
  }

  lemma IdsIsNoWord()
    ensures !IsPlumbingWord("ids")
  {
    assert "ids"[0] == 'i' && |"ids"| == 3;
  }

  lemma IdsHasNoEnding()
    ensures !HasPlumbingEnding("ids")
  {
    var s := "ids";
    assert s[|s| - 3..][0] == 'i' && "_at"[0] == '_' && "_ts"[0] == '_';
  }

  /** Whatever goes before one of the ten endings. */
  lemma EndingsCount(before: string, ending: string)
    requires ending in {"token", "hash", "nonce", "secret", "signature"}
          || ending in {"timestamp", "_at", "_ts", "uuid", "guid"}
    ensures IsPlumbingKey(before + ending)
  {
    LowerAppend(before, ending);
    LowEnding(ending);
    var key := Lower(before) + ending;
    assert key[|key| - |ending|..] == ending;
  }

  lemma LowEnding(ending: string)
    requires ending in {"token", "hash", "nonce", "secret", "signature"}
          || ending in {"timestamp", "_at", "_ts", "uuid", "guid"}
    ensures Lower(ending) == ending
  {
    assert forall i | 0 <= i < |ending| :: !('A' <= ending[i] <= 'Z');
  }

  /** What counts in a key: letters and digits. */
  lemma BareKeeps(c: char)
    ensures c in "_-. $/:@[`{" ==> Bare([c]) == []
    ensures '0' <= c <= '9' || 'a' <= c <= 'z' || 'A' <= c <= 'Z' ==> Bare([c]) == [c]
  {
    assert [c][1..] == [];
  }

  lemma EndsInId(word: string)
    requires word != []
    ensures NamesAnId(word + "id")
  {
    var bare := word + "id";
    assert bare[|bare| - 2..] == "id";
    assert bare[|bare| - 1] == 'd';
  }

  /** An ordinary word in "id" is not plumbing. */
  lemma PaidIsNotPlumbing()
    ensures !IsPlumbingKey("paid")
  {
    PaidIsPlain();
    BareLetters("paid");
    assert Lower("paid") == "paid";
  }

  lemma PaidIsPlain()
    ensures Letters("paid") && !IsPlumbingWord("paid") && IsWordInId("paid") && !HasPlumbingEnding("paid")
  {
  }
}

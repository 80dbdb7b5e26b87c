# Aavishield: the data-loss engine and the agent's data plane

A Dafny model of two components, with proofs about it:

- the DLP engine, which reads what a person sends, finds identifiers and secrets in it, scores them and
  decides (`services/dlp-service-rust`);
- the stateful parts of the endpoint agent: downloads held back until a verdict, resumable uploads,
  stopping an application's processes, domain rules, activity reports, caches, the system proxy and the
  relaunching of a crashed agent (`services/endpoint-agent`), with the parts of the admin API that two of
  them talk to (`services/admin-api`).

Each file holds one module (Checksums.dfy three). Where the code computes a value, the module has functions;
where it loops or updates state, it has methods and classes, each proved against a function or a predicate,
and the lemmas are about that. Protocols are state machines: `ScanFile` (worker, channel, scanner),
`Download` (upstream, verdict, browser), `Upload` (agent, lossy network, server), `Activity`, `Caches`,
`Relaunch` and `SystemProxy` (lock holders one OS command at a time, and an outside world that changes
services at will). Their theorems hold of every run.

Time is an integer that does not run backwards, in the unit of the constant it is compared with. Text is a
sequence of characters, or of the bytes of UTF-8 (section 3 of RFC 3629) where the code counts bytes.

`dafny verify dfyconfig.toml` checks the project.

## What the code does not do

Properties one would expect that the model refutes. For each there is a lemma with an input at which it fails,
and the exact condition under which it holds is proved for all inputs.

- **Percent decoding is more lenient than section 2.1 of RFC 3986.** `u8::from_str_radix` accepts a plus
  sign, so "%+4" decodes to the byte 4 (`PercentCode.PlusTripleExample`). Both decoders agree with the standard
  exactly on inputs without such a triple (`PercentCode.LenientOnlyOnPlusTriples`).
- **The part upload need not end.** A part that does not arrive whole, or that the server cannot write, closes
  the server's job. A closed job answers every part with a 409 without `received`, which the agent reads as
  offset 0, without counting a failure: it starts over for ever (`Upload.ClosedJobExample`). The loop can end
  exactly when parts are not empty and the job is open (`Upload.EndsExactlyWhenOpen`), and a round closes it
  exactly in those two cases (`Upload.ClosesExactlyWhenNotStored`).
- **One more finding can lower a score**, in two ways. A value found nowhere else lowers some score exactly when
  its weight is negative (`Scoring.OnlyNegativeFindingsLower`); nothing in the engine bounds a policy's weights.
  And of two findings of one value the first counts, so a finding that stands before another of the same value
  lowers some score exactly when it is lighter (`Scoring.OnlyLighterFindingsLower`): an AI match reported with
  little confidence first and with more later scores 1 instead of 50 (`Scoring.LighterFirstExample`).
- **The guard against an alert threshold at or above the block threshold fails** (`Policies.GuardFailsExample`)
  exactly when they come that way and the block threshold is below 1 (`Policies.ThresholdGuard`).
- **Luhn does not notice a swap of 0 and 9**, as in 109 and 190 (`Luhn.SwapUnnoticedExample`), and no other swap
  of different digits (`Luhn.SwapUnnoticed`).
- **Activity events can be lost and can arrive twice.** The agent takes any answer to an upload for success,
  whatever its status: a batch that the server could not store is gone (`Activity.ErrorAnswerExample`). And a
  batch that was stored, but whose answer was not heard, is sent again (`Activity.UnheardExample`). An event is
  lost exactly when it leaves the agent — with an answered upload, or beyond the 2000 kept after one without an
  answer — and the server did not store it (`Activity.LostExactly`, `Activity.LeavesExactly`); the server gets
  one twice exactly when it stores one that it has stored before without being heard
  (`Activity.RepeatedExactly`).
- **A content field of a form does not mark what lies inside it.** A content key inside JSON marks everything
  below it; the key of a form field does not reach below an object key. An opaque string that stands directly in
  a field "message" is kept, and dropped under "draft" in the JSON value of that field
  (`UserText.OverlookedExample`, with the word lists of the code). The field gives all it is meant to exactly
  when no string in it is opaque and stands below object keys that say neither content nor plumbing
  (`UserText.FieldKeyReaches`).

## Model

| member | source | states |
|---|---|---|
| CivilDate.CivilIsTheDate | services/dlp-service-rust/src/ai.rs:587-598 | every integer day number, negative ones included, becomes a valid Gregorian date whose day number, counted straight from the calendar's leap-year rule, it is |
| CivilDate.EveryDateIsReached | services/dlp-service-rust/src/ai.rs:587-598 | the other half of the bijection: every valid date is what its own day number becomes |
| CivilDate.DayNumberInjective | services/dlp-service-rust/src/ai.rs:587-598 | no two valid dates share a day number |
| CivilDate.NextDay | services/dlp-service-rust/src/ai.rs:587-598 | one more day is exactly the calendar's next day, over ends of months, of years and of centuries |
| CivilDate.Epoch | services/dlp-service-rust/src/ai.rs:659-663 | day 0 is 1970-01-01 |
| CivilDate.YearOfEraIsYear | services/dlp-service-rust/src/ai.rs:592 | the year formula names the right year for each of the 146097 days of an era |
| AiChat.ModelChain | services/dlp-service-rust/src/ai.rs:253-262 | the chain holds every named model once and no empty name, in the order of first mention |
| AiChat.Chat | services/dlp-service-rust/src/ai.rs:377-445 | the answer is that of the first model with one, at its first answer, where retryable statuses, lost connections and unreadable bodies get another attempt and other statuses end the model; no answer exactly when no model has one; every call is one of its model's attempts, all before it having been worth another, and none is made twice |
| AiChat.KnownStatuses | services/dlp-service-rust/src/ai.rs:406-428 | lost connections and unreadable bodies are worth another attempt, and so are 408, 425, 429 and the 500s, but not other client errors or redirects |
| Verhoeff.TableD | services/dlp-service-rust/src/detectors.rs:183-195 | the multiplication table is the symmetry group of the pentagon |
| Verhoeff.TableP | services/dlp-service-rust/src/detectors.rs:196-206 | row i of the permutation table is the i-th power of one permutation |
| Verhoeff.SigmaCycle | services/dlp-service-rust/src/detectors.rs:196-212 | the eight rows close a cycle, which is why the position may be taken modulo 8 |
| Verhoeff.IsValid | services/dlp-service-rust/src/detectors.rs:208-215 | the loop over the tables accepts exactly the digit strings whose fold over the group ends at 0; anything but digits is refused |
| Verhoeff.CatchesOneDigit | services/dlp-service-rust/src/detectors.rs:208-215 | changing one digit of a valid number of any length never leaves it valid |
| Verhoeff.CatchesSwap | services/dlp-service-rust/src/detectors.rs:208-215 | swapping two different neighbouring digits of a valid number never leaves it valid |
| Verhoeff.CheckDigit | services/dlp-service-rust/src/detectors.rs:208-215 | every number has exactly one check digit |
| Verhoeff.KnownShortNumber | services/dlp-service-rust/src/detectors.rs:183-215 | known answer: 2363 is valid |
| Verhoeff.KnownLongNumber | services/dlp-service-rust/src/detectors.rs:183-215 | known answer: 123451 is valid |
| Luhn.IsValid | services/dlp-service-rust/src/detectors.rs:166-181 | the loop accepts exactly the digit strings whose total, every second digit from the right doubled and its figures added, ends in 0; anything but digits is refused |
| Luhn.CatchesOneDigit | services/dlp-service-rust/src/detectors.rs:166-181 | changing one digit of a valid number of any length never leaves it valid |
| Luhn.SwapUnnoticed | services/dlp-service-rust/src/detectors.rs:166-181 | a swap of neighbours goes unnoticed if and only if they are equal, or one is 0 and the other 9 |
| Luhn.SwapUnnoticedExample | services/dlp-service-rust/src/detectors.rs:166-181 | 109 and 190 are both valid |
| Luhn.CheckDigit | services/dlp-service-rust/src/detectors.rs:166-181 | every number has exactly one check digit |
| Luhn.KnownNumbers | services/dlp-service-rust/src/detectors.rs:166-181 | known answers: 18 and 59 are valid |
| Digits.FoldInjective | services/dlp-service-rust/src/detectors.rs:166-215 | when every round can be undone, different running values stay different over any further digits |
| Utf8.BoundaryCuts | services/dlp-service-rust/src/pipeline.rs:280-287 | a character boundary is a place where a UTF-8 text can be cut into two texts |
| Utf8.BoundaryNearby | services/dlp-service-rust/src/pipeline.rs:280-287 | walking back from any place in a text, a boundary is at most three bytes away |
| Utf8.FloorIsLargest | services/dlp-service-rust/src/pipeline.rs:280-287 | the place the walk back stops at is the largest boundary up to the limit |
| Utf8.SliceIsText | services/dlp-service-rust/src/pipeline.rs:135 | a text cut at two boundaries is a text, so slicing never panics |
| Utf8.CharReads | services/dlp-service-rust/src/pipeline.rs:280-287 | a character takes as many bytes as section 3 of RFC 3629 gives it, and its code point is read back from them |
| Windows.WalkBack | services/dlp-service-rust/src/pipeline.rs:281-287 | the loop ends at the largest boundary up to the limit |
| Windows.WindowsAreWellCut | services/dlp-service-rust/src/pipeline.rs:124-147 | all windows of any text are slices between boundaries of at most WINDOW bytes, the first starts at 0, the last ends the text, and each starts at least WINDOW - OVERLAP - 6 bytes after the one before it and at least OVERLAP before its end |
| Windows.EveryStretchInAWindow | services/dlp-service-rust/src/pipeline.rs:27-30 | every stretch of at most 64 KiB lies wholly inside one window |
| Windows.RestIsFold | services/dlp-service-rust/src/pipeline.rs:124-147 | judging windows while walking is the early-stopping fold over the list of all windows |
| Windows.DetectWindowed | services/dlp-service-rust/src/pipeline.rs:124-147 | returns that fold, and for a text of one window the detectors' own verdict |
| Windows.NothingShortIsMissed | services/dlp-service-rust/src/pipeline.rs:27-30 | a passage of at most 64 KiB that is blocked in every well-cut window it could lie in is never hidden by the cutting |
| Windows.DelimitedValueIsSeen | services/dlp-service-rust/src/pipeline.rs:27-30 | so for detectors that, like the patterns between two word boundaries, block every text in which a value stands with no word byte beside it, no such value of at most 64 KiB is missed |
| Verdicts.MaxAssociative | services/dlp-service-rust/src/pipeline.rs:77-85 | `max` is associative |
| Verdicts.FoldIsFirstStrongest | services/dlp-service-rust/src/pipeline.rs:77-85 | folding `max` over any list gives the first of the verdicts that no other beats by match, action and score, or the default verdict when none matched |
| Verdicts.EarlyStopSameAction | services/dlp-service-rust/src/pipeline.rs:264-275 | stopping at the first block gives the action that folding everything gives, and the very same verdict when nothing blocks |
| Verdicts.StrongerInOrder | services/dlp-service-rust/src/pipeline.rs:66-85 | a match beats no match; a block beats an alert, an alert a log, a log anything else, whatever the scores; with the same action the higher score wins |
| ScanFile.EveryRunIsRight | services/dlp-service-rust/src/pipeline.rs:243-278 | in every interleaving, sends during the scoring of an item included, items are scored in order without a gap, at most 16 wait, and a run that returns has the verdict of the early-stopping fold and the action of scoring every item |
| ScanFile.SixteenCanWait | services/dlp-service-rust/src/pipeline.rs:243-256 | some run has 16 items waiting, so 16 is the exact capacity |
| ScanFile.NoDeadlock | services/dlp-service-rust/src/pipeline.rs:251-277 | every run that has not returned can go on |
| ScanFile.RunsAreFinite | services/dlp-service-rust/src/pipeline.rs:251-277 | no run takes more steps than a bound linear in the number of items |
| Scoring.NearestMonotone | services/dlp-service-rust/src/scoring.rs:132 | the rounded score is the only integer nearest to the exact one, and grows with it |
| Scoring.ScoreIgnoresOrder | services/dlp-service-rust/src/scoring.rs:122-133 | the score of a list of weights depends only on which weights are in it and how often |
| Scoring.SortDescending | services/dlp-service-rust/src/scoring.rs:126-127 | the weights in descending order, none added or dropped |
| Scoring.Aggregate | services/dlp-service-rust/src/scoring.rs:122-133 | sorting and discounting all but the first gives round(0.6 max + 0.4 sum), 10 more with context, at most 100 |
| Scoring.ScoreInReals | services/dlp-service-rust/src/scoring.rs:122-133 | in real numbers: within a half of six tenths of the largest weight and four tenths of the sum, ten more with context; 100 when that is 100.5 or more |
| Scoring.OnlyNegativeWeightsLower | services/dlp-service-rust/src/scoring.rs:122-133 | in the weighted sum alone, a further weight never lowers any score if and only if it is not negative |
| Scoring.ScoreRaised | services/dlp-service-rust/src/scoring.rs:122-133 | raising one weight never lowers the score |
| Scoring.Retain | services/dlp-service-rust/src/scoring.rs:195-199 | the list with every later finding of the same detector and value removed |
| Scoring.DistinctAreFirst | services/dlp-service-rust/src/scoring.rs:195-199 | what is left is each value once, at its first finding |
| Scoring.ContextOfTwo | services/dlp-service-rust/src/scoring.rs:220-223 | two findings give context if and only if one is an identifier or credential and the other a keyword or custom pattern |
| Scoring.RepeatChangesNothing | services/dlp-service-rust/src/scoring.rs:195-199 | repeating a value that was already found changes nothing |
| Scoring.DistinctSeenEarlier | services/dlp-service-rust/src/scoring.rs:195-199 | seeing a value earlier takes exactly its first later finding away |
| Scoring.FindingNeverLowersScore | services/dlp-service-rust/src/scoring.rs:195-226 | through removal of repeats, context and aggregation: a further finding, wherever it turns up, never lowers the score if its value was found before, or it is not lighter than the first later finding of its value, or it is new and not negative |
| Scoring.OnlyLighterFindingsLower | services/dlp-service-rust/src/scoring.rs:195-226 | finding a value earlier lowers no score if and only if the earlier finding is not lighter than the one it replaces |
| Scoring.OnlyNegativeFindingsLower | services/dlp-service-rust/src/scoring.rs:195-226 | finding a value that is found nowhere else lowers no score if and only if its weight is not negative |
| Scoring.LighterFirstExample | services/dlp-service-rust/src/scoring.rs:181-198 | one AI match with weights 1 and 50 scores 1 when the lighter comes first |
| Policies.ThresholdGuard | services/dlp-service-rust/src/scoring.rs:74-82 | sound thresholds are left alone, others get the largest alert threshold below the block threshold or 0; the guard succeeds if and only if they were sound or the block threshold is at least 1 |
| Policies.GuardFailsExample | services/dlp-service-rust/src/scoring.rs:74-82 | with both thresholds at 0 the guard changes nothing |
| Policies.BandMonotone | services/dlp-service-rust/src/scoring.rs:112-120 | a higher score never falls into a milder band, whatever the thresholds (where the bands begin: `Policies.OneFindingDecides`) |
| Policies.ActionIsCappedBand | services/dlp-service-rust/src/scoring.rs:135-150 | the action is the band capped by the policy's own action, an unknown one counting as block |
| Policies.SeverityInOrder | services/dlp-service-rust/src/scoring.rs:135-150 | block before alert before log before everything else |
| Policies.OneFindingDecides | services/dlp-service-rust/src/scoring.rs:112-240 | a single finding of weight 1 to 100 scores its weight; a policy that may block blocks if and only if that is at least its block threshold and alerts if and only if it is below that and at least its alert threshold; one that may only alert or log does so from the lower of the two on; one that may only allow allows |
| Policies.OneFindingScanned | services/dlp-service-rust/src/scoring.rs:252-273 | and so does a scan with that one policy |
| Policies.NothingFound | services/dlp-service-rust/src/scoring.rs:206-226 | with nothing found, or a bypassed file type, a policy allows with score 0 |
| Policies.NoMatchAllows | services/dlp-service-rust/src/scoring.rs:252-273 | without a matching policy the scan allows with score 0 |
| Policies.Scan | services/dlp-service-rust/src/scoring.rs:252-273 | the loop returns the result of the policy that wins, the first of equals, or the empty result with the default thresholds when none matches |
| Policies.WinnerIsLexicographic | services/dlp-service-rust/src/scoring.rs:242-273 | no matching policy is more severe than the winner; of equally severe ones none scores higher; of those none has a smaller priority number; and of those equal in all three the winner stands first |
| Policies.BlocksIfAnyPolicyDoes | services/dlp-service-rust/src/scoring.rs:246-247 | the scan blocks if and only if some policy would |
| Policies.AddingAPolicyNeverWeakens | services/dlp-service-rust/src/scoring.rs:246-273 | adding a policy anywhere in the list never weakens the action |
| Policies.FindingNeverLowersAction | services/dlp-service-rust/src/scoring.rs:206-240 | for one policy, a further finding that does no harm in the sense of `Scoring.FindingNeverLowersScore` never lowers score, band or action |
| Policies.FindingNeverWeakensScan | services/dlp-service-rust/src/scoring.rs:206-273 | nor do such findings, at most one for each policy, weaken the outcome of all policies together |
| PercentCode.PercentDecode | services/dlp-service-rust/src/inspect.rs:512-528 | the loop over indices is decoding from the front, an escape at the very end included |
| PercentCode.FormDecode | services/endpoint-agent/src/enroll_interactive.rs:275-296 | the other decoder is the same function, with a plus sign read as a space |
| PercentCode.Urlencode | services/endpoint-agent/src/scan.rs:854-863 | the encoder's loop encodes byte by byte |
| PercentCode.DecodeInvertsEncode | services/endpoint-agent/src/scan.rs:854-863 | decoding undoes encoding on every byte string, for both decoders |
| PercentCode.HexBothCases | services/dlp-service-rust/src/inspect.rs:512-528 | digits are written in capitals and read in either case |
| PercentCode.WrittenPlainly | services/endpoint-agent/src/scan.rs:854-863 | which bytes are written as they are: the ends of the unreserved ranges, and their neighbours are not |
| PercentCode.KnownEscapes | services/endpoint-agent/src/scan.rs:854-863 | known escapes both ways, and a plus sign that is a space in forms alone |
| PercentCode.LenientOnlyOnPlusTriples | services/dlp-service-rust/src/inspect.rs:512-528 | either decoder agrees with a strict one if and only if no "%+h" occurs |
| PercentCode.PlusTripleExample | services/dlp-service-rust/src/inspect.rs:512-528 | both decode "%+4" to one byte, a strict one leaves it |
| PercentCode.ParseForm | services/endpoint-agent/src/enroll_interactive.rs:274-304 | the map of the fields in order, of equal keys the last one, pieces without a key dropped |
| PercentCode.PieceReads | services/endpoint-agent/src/enroll_interactive.rs:298-302 | a piece divides at its first equals sign, and without one is all key |
| PercentCode.FormRoundTrip | services/endpoint-agent/src/enroll_interactive.rs:274-354 | writing any fields as an encoded form and parsing it gives back exactly the fields whose key is not empty, in order |
| PercentCode.NothingDropped | services/endpoint-agent/src/enroll_interactive.rs:301 | those are all the fields if and only if no key is empty |
| PercentCode.ConstantTimeEq | services/endpoint-agent/src/enroll_interactive.rs:360-369 | accumulating differences decides equality of byte strings |
| Multipart.FindIsFirst | services/dlp-service-rust/src/inspect.rs:614-619 | `find` returns the first place of all |
| Multipart.FindNothing | services/dlp-service-rust/src/inspect.rs:614-619 | and nothing when there is none |
| Multipart.FindAll | services/dlp-service-rust/src/inspect.rs:566-573 | the first loop finds every position of the delimiter, without overlaps |
| Multipart.ReadBetween | services/dlp-service-rust/src/inspect.rs:574-599 | the second loop reads what lies between each two positions, skipping what does not parse |
| Multipart.MultipartParts | services/dlp-service-rust/src/inspect.rs:563-601 | together they are the splitter about which the round trip is proved |
| MultipartRoundTrip.RoundTrip | services/dlp-service-rust/src/inspect.rs:563-619 | writing a preamble and any list of parts, with other things that hold no blank line between them, and splitting the body gives back exactly the parts, names, file names, types and data byte for byte and in order: in any spelling of header and parameter names, values quoted or bare, headers in either order, line ends with or without a carriage return, other headers and parameters before the ones that count, and for every boundary without line breaks that occurs in no item |
| MultipartRoundTrip.PartReads | services/dlp-service-rust/src/inspect.rs:580-598 | one part written in any such style is read back as it was |
| MultipartRoundTrip.HeadersRead | services/dlp-service-rust/src/inspect.rs:584-612 | the header lines of a part give back its name, file name and type, bare values as well as quoted ones, and headers and parameters that name something else change nothing |
| MultipartRoundTrip.NamelessReads | services/dlp-service-rust/src/inspect.rs:591-593 | a disposition without parameters gives an empty name and no file name |
| MultipartRoundTrip.HeaderlessReads | services/dlp-service-rust/src/inspect.rs:580-599 | a part without headers is read, with nothing but its data |
| MultipartRoundTrip.BlankAfterHeaders | services/dlp-service-rust/src/inspect.rs:583-585 | the blank line that ends the headers is found right behind them, however their lines end and whatever the data |
| MultipartRoundTrip.ChainReads | services/dlp-service-rust/src/inspect.rs:566-599 | a chain of delimiters and chunks is cut into exactly these chunks, and those that hold a part are read |
| MultipartRoundTrip.BoundaryReads | services/dlp-service-rust/src/inspect.rs:550-559 | the boundary is read back from the content type that announces it, quoted or bare, in any case of the parameter name |
| Text.UnquoteStrips | services/dlp-service-rust/src/inspect.rs:603-612 | unquoting takes quotes off both ends, all of them, and nothing else |
| Text.TrimStrips | services/dlp-service-rust/src/inspect.rs:603-612 | trimming takes white space off both ends, all of it, and nothing else |
| Text.WhiteSpaceIs | services/dlp-service-rust/src/inspect.rs:603-612 | which characters are white space: those of Unicode, not the zero-width space or a visible character |
| Text.LowerAlphabet | services/dlp-service-rust/src/inspect.rs:590 | each of the 26 capitals has its small letter |
| Text.StripWwwIs | services/endpoint-agent/src/policy_cache.rs:121-124 | only a leading "www." is taken off, and once |
| UserText.CollectJson | services/dlp-service-rust/src/inspect.rs:770-805 | what is collected with early stopping and what is collected without agree on the first MAX_USER_TEXT + 1 bytes; ends on every value, strings that are JSON themselves included |
| UserText.CollectValue | services/dlp-service-rust/src/inspect.rs:743-759 | the same for the value of a form field |
| UserText.CollectForm | services/dlp-service-rust/src/inspect.rs:737-741 | the same for all fields of a form |
| UserText.HeadDecidesCap | services/dlp-service-rust/src/inspect.rs:726-735 | outputs that agree on those bytes are cut to the same text |
| UserText.CapKeeps | services/dlp-service-rust/src/inspect.rs:726-735 | a text of up to 1 MiB stays whole, a longer one keeps a prefix that is a text and at most three bytes short of it |
| UserText.JsonTextIsKept | services/dlp-service-rust/src/inspect.rs:761-805 | collecting without a cap gives exactly the kept string leaves, one line each: no plumbing key above, not blank, and not an opaque blob unless it belongs to content; numbers and booleans give nothing |
| UserText.NestedIsRead | services/dlp-service-rust/src/inspect.rs:776-786 | a string that starts, white space aside, with a bracket or brace, has more after it and parses, is read for the strings inside it; any other as it stands |
| UserText.BlankIs | services/dlp-service-rust/src/inspect.rs:761-765 | blank means nothing but white space |
| UserText.OpaqueAlphabet | services/dlp-service-rust/src/inspect.rs:670-676 | which ASCII characters an opaque blob may hold |
| UserText.OpaqueFrom24 | services/dlp-service-rust/src/inspect.rs:670-676 | letters and digits are an opaque blob from 24 on |
| UserText.OtherCharacterIsNotOpaque | services/dlp-service-rust/src/inspect.rs:670-676 | one other visible character anywhere, the first included, and it is none |
| UserText.ProseIsNotOpaque | services/dlp-service-rust/src/inspect.rs:670-676 | nor are two words |
| UserText.EarlyStopInvisible | services/dlp-service-rust/src/inspect.rs:726-805 | the capped output of the early-stopping walk is the cap of all the kept leaves |
| UserText.FieldKeyReaches | services/dlp-service-rust/src/inspect.rs:743-805 | a content field of a form gives everything it is meant to if and only if it is not JSON, or no string in it is opaque and stands below object keys that say neither content nor plumbing |
| UserText.KeptDirectlyDroppedInside | services/dlp-service-rust/src/inspect.rs:743-805 | any opaque string is kept when it stands directly in a content field and dropped below such an object key |
| UserText.OverlookedExample | services/dlp-service-rust/src/inspect.rs:622-805 | one such string, in the field "message" and under "draft" inside it, with the code's word lists |
| RequestKeys.CaseIgnored | services/dlp-service-rust/src/inspect.rs:638-666 | whether a key is content or plumbing never depends on its case |
| RequestKeys.DraftIsNeither | services/dlp-service-rust/src/inspect.rs:622-666 | "draft" is in neither list and has none of the endings |
| RequestKeys.NamedIds | services/dlp-service-rust/src/inspect.rs:638-653 | a word followed by "id", "Id", "_id" or "_Id" is plumbing, unless the two are one of the ordinary words |
| RequestKeys.PaidIsNotPlumbing | services/dlp-service-rust/src/inspect.rs:638-660 | "paid" is not |
| RequestKeys.NamedManyIds | services/dlp-service-rust/src/inspect.rs:646-653 | the same for "ids", "Ids", "_ids" and "_Ids" |
| RequestKeys.IdsAloneIsNotPlumbing | services/dlp-service-rust/src/inspect.rs:646-653 | "ids" alone is not |
| RequestKeys.EndingsCount | services/dlp-service-rust/src/inspect.rs:654-656 | a key with one of the ten endings is plumbing, whatever goes before |
| RequestKeys.BareKeeps | services/dlp-service-rust/src/inspect.rs:640 | the word lists are looked up with letters and digits only |
| UserText.UserText | services/dlp-service-rust/src/inspect.rs:678-711 | a body that parses as JSON and says so, by its type or its first visible byte, gives the cap of the kept strings in it; otherwise a form gives the cap of the kept strings of its fields; a multipart body, however it was written and announced, that of its parts without file names; text or no type the text, if fewer than a twentieth are control characters; any other type nothing |
| UserText.JsonWhenItSaysSo | services/dlp-service-rust/src/inspect.rs:680-686 | the test by type or trimmed prefix is the test by the first byte that is not ASCII white space |
| UserText.ContainsWithin | services/dlp-service-rust/src/inspect.rs:681 | a type that has "json" in it, wherever, contains it |
| UserText.ContainedBetween | services/dlp-service-rust/src/inspect.rs:681 | and no other does |
| UserText.FormTextIsKept | services/dlp-service-rust/src/inspect.rs:737-768 | a form gives, field by field, the kept strings of the JSON in the field, or the field itself; nothing for a plumbing key |
| UserText.OnlyFieldsCount | services/dlp-service-rust/src/inspect.rs:693-699 | parts with a file name give nothing, the others their name and text, in order |
| UserText.MultipartIsRead | services/dlp-service-rust/src/inspect.rs:691-703 | for every way of writing and announcing a multipart body its fields are read back and kept as those of a form |
| Download.EveryRun | services/endpoint-agent/src/scan.rs:309-422 | whatever the upstream yields and whenever: relayed and held bytes make up what arrived; the resolver is called at most once, with everything hashed, its size, and a copy of it exactly when it was created, every write worked and the size fits; before an answer the browser has all but the last chunk |
| Download.RunKeeps | services/endpoint-agent/src/scan.rs:309-422 | the full invariant of every run: conservation, the last chunk held, the resolver called once at the end of the upstream, size, hash and copy in step |
| Download.AnswerDecides | services/endpoint-agent/src/scan.rs:379-389 | allowed, or a resolver that died: the browser receives exactly what arrived and no error; blocked: all but the last chunk, then an error |
| Download.NormalRun | services/endpoint-agent/src/scan.rs:309-422 | whatever chunks and trailers come before the end, the resolver is then asked once, about all of them, and its answer decides between everything without an error and less than everything with one |
| Download.BrokenEnds | services/endpoint-agent/src/scan.rs:394-397 | an upstream that breaks is answered with an error; the last chunk stays withheld and nobody is asked |
| Download.OnlyAnAnswerReleases | services/endpoint-agent/src/scan.rs:309-422 | in every run with a chunk the browser has the whole download if and only if an awaited answer has come that does not block |
| Download.WhyThereIsNoCopy | services/endpoint-agent/src/scan.rs:328-346 | a resolver that gets no copy is told the reason of the first chunk that could not be kept: too large, flagged by the system, or failed |
| Download.DoneStays | services/endpoint-agent/src/scan.rs:391-393 | once done, nothing moves any more |
| Download.ScannedDownload.constructor | services/endpoint-agent/src/scan.rs:321-323 | a fresh download |
| Download.ScannedDownload.Record | services/endpoint-agent/src/scan.rs:328-345 | hash, size and copy after one chunk; a size over the limit or a failed write costs the copy for good |
| Download.ScannedDownload.TakeAnswer | services/endpoint-agent/src/scan.rs:379-389 | the step of the state machine for a verdict |
| Download.ScannedDownload.TakeUpstream | services/endpoint-agent/src/scan.rs:394-420 | the step of the state machine for what the upstream yields |
| Download.ScannedDownload.PollFrame | services/endpoint-agent/src/scan.rs:369-422 | a poll takes events, in order and no more than are there, until one puts something out, and waits only for what is not there; the resolver is never taken twice |
| Upload.UploadedIsExact | services/endpoint-agent/src/scan.rs:667-692 | over any losses of requests and responses the server's bytes are a prefix of the file, and the whole file once the agent is through |
| Upload.ThreeFailuresTolerated | services/endpoint-agent/src/scan.rs:684-690 | an agent still uploading has counted exactly the failed rounds, those of which it does not hear and those whose part the server could not write, at most three; without an unreadable response it gives up only after four |
| Upload.LoopEnds | services/endpoint-agent/src/scan.rs:671-692 | over any losses, as long as the job is open the loop ends within as many rounds as there are parts, and six |
| Upload.EndsExactlyWhenOpen | services/endpoint-agent/src/scan.rs:671-692 | after any rounds, on an undisturbed network, the loop ends if and only if parts are not empty and the job is open |
| Upload.ClosesExactlyWhenNotStored | services/admin-api/internal/handlers/download_scan.go:287-315 | a round closes an open job if and only if a part at the server's own offset does not arrive whole or cannot be written whole |
| Upload.ClosedJobExample | services/endpoint-agent/src/scan.rs:671-692 | a connection that breaks in the first part, or a full disk, and the agent is still uploading after any number of undisturbed rounds |
| Upload.RoundFits | services/admin-api/internal/handlers/download_scan.go:287-315 | every round keeps the stored bytes a growing prefix of the file |
| Upload.RoundMoves | services/endpoint-agent/src/scan.rs:671-692 | a round at the server's own offset stores the next bytes of the file as far as they get, any other nothing; an answered one puts the agent where the server is, or at 0 when the job is closed; an unheard one counts one failure, the fourth ending it |
| Upload.TooMuchIsTurnedDown | services/admin-api/internal/handlers/download_scan.go:304-314 | a part beyond the announced size is turned down, spoils the job, and no more than the size is kept |
| Upload.SendPart | services/endpoint-agent/src/scan.rs:672-691 | the body of the loop is one round of the protocol |
| Upload.UploadParts | services/endpoint-agent/src/scan.rs:669-692 | the loop is the run of the protocol the theorems are about |
| AppFamily.InBundleIffSameRoot | services/endpoint-agent/src/app_control.rs:481-484 | a path starts with a bundle's root and a slash if and only if that bundle is its outermost one |
| AppFamily.RootIs | services/endpoint-agent/src/app_control.rs:477-484 | the root is the path up to the end of its first ".app/" |
| AppFamily.Grow | services/endpoint-agent/src/app_control.rs:486-503 | the worklist ends on any process list, cycles included, with the least set that holds the seeds and the children of its members above 1 |
| AppFamily.Family | services/endpoint-agent/src/app_control.rs:477-508 | ascending, so without duplicates: exactly that set without pids up to 1 and without the agent |
| AppFamily.FamilyIsUnique | services/endpoint-agent/src/app_control.rs:477-508 | there is only one such set |
| AppFamily.SameBundleSameFamily | services/endpoint-agent/src/app_control.rs:477-516 | whichever process of a bundle is matched, the same processes are stopped |
| DomainPolicy.BuildIndex | services/endpoint-agent/src/policy_cache.rs:96-103 | the index holds exactly the named domains, with their rules in the order of the list |
| DomainPolicy.KeyIs | services/endpoint-agent/src/policy_cache.rs:97-101 | neither white space around a rule's domain nor its case counts |
| DomainPolicy.Check | services/endpoint-agent/src/policy_cache.rs:117-144 | the indexed lookup gives the answer of a scan of the whole list for the longest listed suffix; a revoked agent gets none |
| DomainPolicy.WalkParents | services/endpoint-agent/src/policy_cache.rs:131-143 | the walk over joined labels visits every suffix after a dot that has two labels, longest first |
| DomainPolicy.ParentNeedsTwoLabels | services/endpoint-agent/src/policy_cache.rs:132-137 | what follows a dot counts as a parent if and only if it has another dot |
| DomainPolicy.NoAnswerMeansNoRule | services/endpoint-agent/src/policy_cache.rs:117-144 | no answer if and only if no rule of the list covers the host without "www." or a parent of it of two labels or more (so a rule filed under "www." and that host is no answer for that host) |
| DomainPolicy.AnswerInTermsOfRules | services/endpoint-agent/src/policy_cache.rs:117-150 | an answer is a rule of the list for the longest covered suffix of the host without "www.": of the rules for it the first org-specific one, or the first of all when none is |
| DomainPolicy.PickFinds | services/endpoint-agent/src/policy_cache.rs:146-150 | a pick exists if and only if there is a rule, is one of them, and is org-specific if any is |
| Activity.ActivityReporter.Record | services/endpoint-agent/src/activity.rs:51-97 | an event that may be logged, is not "allowed" and is not a repeat within eight seconds of its domain, in lower case and without "www.", and outcome joins the queue and is remembered; any other changes nothing |
| Activity.ActivityReporter.TakeBatch | services/endpoint-agent/src/activity.rs:107-114 | everything queued becomes the batch |
| Activity.ActivityReporter.Finish | services/endpoint-agent/src/activity.rs:116-125 | after an upload without an answer the batch stands before what came since, in order, the newest dropped beyond 2000; after any answer nothing comes back |
| Activity.PlacesStandForEvents | services/endpoint-agent/src/activity.rs:51-125 | what the reporter does to its queue of events is what the machine does to their places among the accepted ones |
| Activity.EventsInOrder | services/endpoint-agent/src/activity.rs:51-126 | in every run in-flight and queued events are accepted events, in order and without repeats; as long as no upload was stored unheard, stored, in-flight and queued events, in this order, are so too, and are exactly what was accepted unless an event is lost |
| Activity.LostExactly | services/endpoint-agent/src/activity.rs:107-126 | in every run an event is lost, for good, if and only if it leaves the agent and the server did not store it, now or before |
| Activity.LeavesExactly | services/endpoint-agent/src/http_client.rs:67-77 | an answer with a success status loses nothing; one with an error status loses what was not stored of the batch; no answer lets events go if and only if more than 2000 are left, and the queue is full then |
| Activity.NewestGo | services/endpoint-agent/src/activity.rs:116-125 | beyond the maximum the newest go: what stays and what leaves are the batch and the queue in order |
| Activity.RepeatedExactly | services/admin-api/internal/handlers/agents.go:1932-1942 | in every run the server gets an event twice if and only if it stores one that it stored before in an unheard upload |
| Activity.ErrorAnswerExample | services/endpoint-agent/src/activity.rs:107-126 | one event, one upload answered with an error, and the event is gone |
| Activity.UnheardExample | services/endpoint-agent/src/activity.rs:107-126 | one event, one upload stored but not heard, and the server has it twice |
| Activity.AcceptedByHistory | services/endpoint-agent/src/activity.rs:67-81 | in every run an event is accepted if and only if it may be logged and no event with its key was accepted in the eight seconds before; accepted events with equal keys are eight seconds apart |
| Activity.PruningInvisible | services/endpoint-agent/src/activity.rs:71-81 | the pruned memory decides as the whole history would |
| Activity.ForgottenBeyond | services/endpoint-agent/src/activity.rs:75-81 | nothing is forgotten up to 512 keys; beyond, what is older than eight seconds |
| SystemProxy.HeldOffIsQuiet | services/endpoint-agent/src/system_proxy.rs:30-39 | in every interleaving, while held off the agent is never about to arm a service |
| SystemProxy.QuietAfterClear | services/endpoint-agent/src/system_proxy.rs:35-161 | once clear has returned no agent step arms a service until apply takes the lock, whatever watchdog passes, clears, failures and outside changes come between |
| SystemProxy.QuietFromStart | services/endpoint-agent/src/system_proxy.rs:30-35 | nor does any from the start of the agent until apply first takes the lock |
| SystemProxy.PassReachesGoal | services/endpoint-agent/src/system_proxy.rs:100-185 | whoever finds the lock free gets it, and an undisturbed pass ends; apply, and the watchdog while not held off, leave both proxies of every service on and pointing here whatever state they were in, and clear leaves both off everywhere and holds off |
| SystemProxy.FailuresStayLocal | services/endpoint-agent/src/system_proxy.rs:100-185 | whatever commands fail for other services, a service whose own commands succeed is at the goal when the pass is through |
| SystemProxy.FailedDoNothing | services/endpoint-agent/src/system_proxy.rs:119-185 | a service whose commands all fail keeps its settings through any number of passes |
| SystemProxy.UnlistedEndsPass | services/endpoint-agent/src/system_proxy.rs:229-235 | a pass whose listing of the services fails ends there, with nothing changed |
| SystemProxy.QuietWhenInOrder | services/endpoint-agent/src/system_proxy.rs:100-115 | a watchdog pass that finds every service in order arms nothing and changes nothing |
| SystemProxy.HeldOffLeavesAlone | services/endpoint-agent/src/system_proxy.rs:30-39 | while held off and until apply or clear takes the lock, after any number of watchdog passes and outside changes every service is exactly as it was or as others left it |
| Caches.VerdictCache.Find | services/endpoint-agent/src/casb_cache.rs:66-74 | a cached answer, an empty one included, exactly while it has not expired |
| Caches.VerdictCache.Store | services/endpoint-agent/src/threat_cache.rs:76-81 | the answer is kept from the beginning of its lookup on, and expired ones are dropped when there are more than 2048 |
| Caches.ClearedOutBeyond | services/endpoint-agent/src/threat_cache.rs:76-81 | nothing is cleared out up to 2048 entries; beyond, exactly what is live stays |
| Caches.LookupBegins | services/endpoint-agent/src/threat_cache.rs:57-75 | in every run a check begins a lookup if and only if no answer found so far is still live |
| Caches.HitsUntilExpiry | services/endpoint-agent/src/threat_cache.rs:57-83 | an answer serves every check of its key for 300 or 120 seconds from the beginning of its lookup, and none after |
| Caches.PruningInvisible | services/endpoint-agent/src/threat_cache.rs:57-83 | in every run, lookups overlapping at will, a check answers as if nothing had been removed, and an answer from the cache was found by a lookup for the same key begun less than one time to live ago |
| Caches.AnswersAreRecent | services/endpoint-agent/src/casb_cache.rs:57-88 | for each of the two caches: an answer comes from a lookup of the same host, in lower case and without "www.", and for CASB the same activity, begun less than 300 or 120 seconds ago |
| Caches.PruneLocked | services/endpoint-agent/src/mitm.rs:283-293 | only live leaves stay, unchanged, as many as there is room for, and none that is evicted outlasts one that stays |
| Caches.StoreLeaf | services/endpoint-agent/src/mitm.rs:275-279 | a new leaf is kept until 300 seconds before it expires, at most 2048 remain, and a leaf of at most 300 seconds is not kept |
| Caches.LearnRefused | services/endpoint-agent/src/mitm.rs:195-222 | a refusal is reported exactly when the host was not passed through already and there is room; from then on that host and no other is newly passed through, for a day |
| Relaunch.Supervisor.Tick | services/endpoint-agent/src/service.rs:240-276 | nothing while the installer is busy; otherwise one round for each session without an agent |
| Relaunch.Attempt | services/endpoint-agent/src/service.rs:260-267 | one round: launches of five minutes ago are dropped, and a new one noted unless three are left and the last is recent |
| Relaunch.LaunchesExactlyWhen | services/endpoint-agent/src/service.rs:260-267 | in every run a session without an agent is launched if and only if it was launched fewer than three times, or its third last launch, or its last, was at least 300 seconds ago |
| Relaunch.TickIsARun | services/endpoint-agent/src/service.rs:256-275 | a tick is a run of such rounds, so the next two hold of all sequences of ticks |
| Relaunch.FourLaunchesSpan | services/endpoint-agent/src/service.rs:260-267 | in every run any four launches for one session span at least 300 seconds |
| Relaunch.ForgettingInvisible | services/endpoint-agent/src/service.rs:260-267 | the pruned list decides as the whole history would |

## Left out

- Integer widths: integers are unbounded, where the code has i64, u64 and a u32 running total in `luhn_valid`.
- Scoring.Aggregate: computes in exact fifths where the code uses f64; the exact value is never half way between two integers, so rounding has no tie to break.
- Policies.FindingNeverWeakensScan: what the detectors find for a policy is a parameter; the regular expressions, keyword search, weight tables, and the scaling of an AI match by its confidence are not part of this model.
- Verdict texts: how a policy result becomes a verdict's reason and previews, and `scan_unscannable`.
- ScanFile: the extraction of items, and the AI classifiers that scoring awaits; an item is the verdict its scoring gives.
- Windows.DelimitedValueIsSeen: word boundaries are those of a predicate on bytes, and a keyword or context that a detector wants far outside a value is beyond it.
- The other helpers of `detectors.rs`: `redact_digits`, `card_network_valid`, Shannon entropy; each is one expression.
- AiChat.Chat: retry delays and their jitter, the Retry-After header and the text of the last error.
- `utc_date`: the clock, and the zero-padded rendering of a date.
- PercentCode.PercentDecode: stops at the decoded bytes; `from_utf8_lossy` after it is not modelled, nor is it before `split` in `parse_form`.
- PercentCode.ConstantTimeEq: says what is computed, not how long it takes.
- MultipartRoundTrip.RoundTrip: the writer puts no epilogue, and names hold no semicolons, quotes and line breaks, which the splitter does not read back; `from_utf8_lossy` is a parameter that reads UTF-8 as it is.
- UserText.UserText: `serde_json` and `form_urlencoded` are parameters, the former with the contract that a value is no larger than its text; so are `is_plumbing_key` and `is_content_key`, for which `RequestKeys` has the code's word lists.
- Download: the 60-second wait, the notices and the reporting around a decision; a hash is the sequence of bytes hashed, and cancelling by the browser is a run that stops.
- Upload: creating, completing and polling the scan job, and a local copy that disappears while it is read.
- AppFamily.Family: the seeds are walked from in any order, as a `HashSet` gives them; children come in the order of the process list.
- `is_primary_executable`, and the sweep and guard of `app_control.rs`: which processes are reported and notified.
- DomainPolicy.Check: fetching and decoding the rule list; Unicode lower-casing is a parameter.
- Activity.ActivityReporter.Record: takes the dedup lock and the queue lock as one step, and an event's rule, category and time stamp are left out; Unicode lower-casing is a parameter.
- Activity.EventsInOrder: what the server stores of an upload it has stored by the time the agent gives it up or hears the answer; events lost when the agent stops are not counted.
- SystemProxy.PassReachesGoal: models the macOS form, one setting for each network service; Windows and Linux have one setting. A listing names all services there are or fails. Closing browsers, and `apply_enforcement_transition`, which may skip a clear, are left out.
- Caches.VerdictCache.Find: a revoked agent, which is answered before the cache is asked.
- Caches.PruneLocked: of leaves with equal expiry any may go first, as in the code, where a map's iteration order decides.
- Caches.StoreLeaf: the request to the signing service, and the lookup that returns a leaf while it is live.
- `should_intercept`, `note_connection` and the CA settings of `mitm.rs`; the first-match CASB rules on the server.
- Relaunch.Supervisor.Tick: reads the clock once to drop old launches of a session, where the code reads it for each launch; `CaSync` is left out.

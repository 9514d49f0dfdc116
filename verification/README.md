# Reversible masking, modelled in Dafny

This project models the masking engine of the service: how detected personal data is cut out of a
text and recorded, how it is put back into a text that may have been rearranged on the way, how
overlapping detections are resolved, how large texts are detected in overlapping windows, how
concurrent calls share one record, and how check digits are written and read.

Texts are byte sequences and all offsets are byte offsets. The detectors are an opaque function from a
text to spans. A strategy is a name and a function from a value and its category to an optional shape:
`None` means the value is numbered (`[CATEGORY_N]`), which is how the token strategy treats every value
and the synthetic strategy some of them; the full and partial strategies always give a shape. All four
look into the document memo first. `sort.Slice` is not stable, so `Sorting.Sort` promises some ordered
permutation and nothing more, and every result below holds for all permutations the key allows.
SHA-256 is an ideal hash (a constructor, hence injective).

## Files

- `Bytes`, `Sorting`, `Spans`: bytes, the sort contract, detected spans.
- `Resolve`: the overlap resolver, order independence, idempotence, dominance.
- `Windows`, `Utf8`, `Runes`, `WindowedDetection`: tiling, coverage, rune boundaries, reading and
  writing runes, and that the windowed form refines one whole-text run.
- `Strategies`, `TokenNumbering`, `MaskOrigins`: the document state, its numbering, and where masks come
  from.
- `Splicing`, `Apply`, `Restore`, `RestoreLaws`, `RestoreOrder`, `Exactness`, `TokenRestore`: masking,
  restoring, round trips, which occurrence goes to which replacement, exactly which strategies can be
  undone, restoring tokens in any text.
- `Masking`: filtering, one masking run, batches.
- `Store`, `Calls`, `Engine`, `Protocol`: the record store, the calls on it, and many `Process` calls
  at once.
- `CheckDigits`, `FullMask`: check digits and the full strategy.

## Main results

- **Any text, any order** (`TokenRestore.TokensRestoreAnywhere`): bracket tokens are restored in a text
  that was shifted, reordered, duplicated or cut, each token min(recorded, occurring) times by its own
  original; with no token beyond its recorded count this is plain substitution, whatever the recorded
  offsets. `Masking.BatchTokensRestoreAnywhere` carries it over to a whole batch.
- **Any replacements** (`RestoreLaws.RestoreSplices`, `RestoreLaws.RestoreExhausts`): even nonsensical
  records only ever swap disjoint ranges that carry their masks, and nothing is lost from the count.
- **Who gets which occurrence** (`RestoreOrder.RestoreInOrder`): recorded places that still fit are
  trusted, all other masks take the leftmost occurrence left free, and equal masks keep their order.
- **What is shown** (`Applying.MasksComeFromStrategy`, `Engines.FreshAnswerHides`, `FullMask.FullIsApplied`):
  every span to be masked is hidden behind what the strategy asked for makes of it.
- **Who gets a text back** (`Calls.WhoMayUnmask`, `Calls.RestoredExactlyWhen`): exact conditions for
  UnmaskEx and Process; to all others a record looks like a missing one (`Calls.ForeignLooksMissing`).
- **Round trips** (`Masking.MaskRestores`, `Masking.BatchRoundTrip`, `Calls.ProcessRoundTrip`,
  `Calls.ServedRoundTrip` over the store and its clock, `Protocol.ConcurrentRoundTrip`).
- **First write wins** in every interleaving (`Protocol.FirstWriteWins`,
  `Protocol.RecordNeverChanges`, `Protocol.CompletedCallsAgree`).
- **Windowed equals whole** (`WindowedDetection.WindowedRefinesWhole`,
  `Masking.LargeTextLikeSmall`).

Three properties hold only under a condition. The exact condition is proved for each:

- **Restoring is exact** for all texts and spans exactly for the strategies that give no non-empty value
  an empty mask (`Exactness.ExactIffNonEmpty`). What goes wrong otherwise: two empty masks at one offset
  may be swapped (`RestoreLaws.EmptyMasksMaySwap`), and an empty mask directly before a non-empty one may
  be skipped by the defensive check, so its original is lost and a miss is reported
  (`RestoreLaws.EmptyMaskMayBeLost`); the comment there (`internal/mask/mask.go:165-166`) takes that for
  impossible. The full strategy meets the condition (`FullMask.FullCanBeUndone`); for one record it is
  enough that no two replacements start together (`RestoreLaws.RoundTrip`).
- **Every span overlaps a kept one** exactly when no replacement in the sweep starts behind the end of a
  span its predecessor stands for, a check of one comparison per replacement
  (`Resolver.EverySpanMeetsKept`). On the bare input it is enough that no span straddles a higher-ranked
  one and one that ends before it (`Resolver.UnstraddledSpansMeetKept`), and for all confidences together
  the exact condition is that overlapping is transitive (`Resolver.SureToMeetExactlyWhenTransitive`).
  `Resolver.DroppedWithoutOverlap` is an input that fails. Dominance holds always
  (`Resolver.ResolveDominance`).
- **Synthetic cards pass the Luhn check.** The comment on `synthCard`
  (`internal/mask/synthetic.go:311-312`) promises that, but the code accepts 13 to 19 digits. The result is
  sure to pass exactly for 16 (`CheckDigits.CardsPassExactlyAtSixteen`).

## Model

| member | source | states |
|---|---|---|
| Resolver.Resolve | internal/pii/resolve.go:8-37 | The caller's slice ends up as some permutation sorted by start, longer first, and the result is the sweep over that very permutation |
| Resolver.OrderIndependent | internal/pii/resolve.go:8-37 | For non-empty spans the kept positions and confidences are the same for every input order and every tie-breaking of the unstable sort |
| Resolver.ResolveIdempotent | internal/pii/resolve.go:8-37 | Resolving the output again, with any sorted permutation, returns it unchanged, categories and detectors included |
| Resolver.ResolveDominance | internal/pii/resolve.go:5-45 | Output is disjoint and taken from the input; every input span reaches a kept one through overlapping spans, each of higher confidence, or of equal confidence and no shorter, and strictly better when it starts later; so some kept span has its rank or a higher one |
| Resolver.ResolveKeepsClusters | internal/pii/resolve.go:20-35 | Every overlap-closed cluster of spans keeps at least one member |
| Resolver.EverySpanMeetsKept | internal/pii/resolve.go:20-35 | For every sorted permutation: every input span overlaps a kept one exactly when no replacement starts behind the end of a span that the replaced one stands for |
| Resolver.UnstraddledSpansMeetKept | internal/pii/resolve.go:20-45 | Every span overlaps a kept one if none overlaps both a higher-ranked span and one that ends before that |
| Resolver.SureToMeetExactlyWhenTransitive | internal/pii/resolve.go:20-45 | Whatever the confidences, every span overlaps a kept one exactly when overlapping is transitive among the ranges |
| Resolver.DroppedWithoutOverlap | internal/pii/resolve.go:30-34 | A replacement can drop a span that overlaps no survivor, so the condition above is needed |
| Windows.IndexLastBoundaryByte | internal/engine/chunk.go:144-151 | Finds the last whitespace byte of a range, or -1 when there is none |
| Windows.IndexFirstBoundaryByte | internal/engine/chunk.go:155-162 | Finds the first whitespace byte of a range, or -1 when there is none |
| Windows.Before | internal/engine/chunk.go:110-122 | The extended start is 0 or at least n-1 bytes before the core, and lies after whitespace or on a rune start |
| Windows.After | internal/engine/chunk.go:128-140 | The extended end is the text end or at least n bytes behind the core, on a rune start |
| Windows.BeforeIsNearest | internal/engine/chunk.go:106-122 | The extended start is the text start, just behind the nearest whitespace beyond n bytes, or without any the nearest rune start |
| Windows.AfterIsNearest | internal/engine/chunk.go:124-140 | The extended end is the text end, the nearest whitespace beyond n bytes, or without any the nearest rune start |
| Windows.ExtendBefore | internal/engine/chunk.go:110-122 | The loop computes that start |
| Windows.ExtendAfter | internal/engine/chunk.go:128-140 | The loop computes that end |
| Windows.CoreBoundaries | internal/engine/chunk.go:80-104 | The cutting loop ends (measure: bytes left) with the specified cut points |
| Windows.MakeWindows | internal/engine/chunk.go:61-75 | One window for a short text, else one widened window per core |
| Windows.CoresTileText | internal/engine/chunk.go:77-104 | The cores tile the text, each interior cut follows whitespace, only the last core can be empty, and there are at most 2*(len/32769)+2 windows |
| Windows.TwoCoresExceedChunk | internal/engine/chunk.go:83-102 | Two neighbouring cores, the last one aside, together exceed chunkSize |
| Windows.LongCoreIsUnbroken | internal/engine/chunk.go:88-98 | A core longer than chunkSize has no whitespace in its first chunkSize bytes |
| Windows.CoverageWithMargin | internal/engine/chunk.go:27-44 | A range of at most chunkOverlap+1 bytes lies inside the window of the core it starts in, with the stated margins unless at a text edge |
| Utf8.SplitValid | internal/engine/chunk.go:51-60 | Cutting valid UTF-8 (section 4 of RFC 3629) at a rune start leaves valid UTF-8 on both sides |
| Utf8.WindowsKeepUtf8 | internal/engine/chunk.go:51-60 | For valid UTF-8 every window starts and ends on a rune boundary, fallbacks included, and its slice is valid UTF-8 |
| WindowedDetection.DetectWindowed | internal/engine/chunk.go:178-214 | For any finishing order of the window goroutines the result is a resolve of what all windows found |
| WindowedDetection.EverySpanFound | internal/engine/chunk.go:27-44 | No whole-run span is lost: the window of the core it starts in finds it |
| WindowedDetection.WindowedRefinesWhole | internal/engine/chunk.go:169-214 | If each window run finds exactly the whole-run spans inside it, and those fit the overlap, the result is the whole-text list, for every sort and finishing order |
| WindowedDetection.WholeIsDetected | internal/engine/chunk.go:169-214 | Under the same conditions the whole-text list is a possible result, so the equality is not empty |
| Strategies.Itoa | internal/mask/synthetic.go:217-227 | Writes the decimal form, which reads back as the number |
| Strategies.ValueOfDecimal | internal/mask/synthetic.go:217-227 | The decimal form of a number has that number as its value |
| Strategies.TokenInjective | internal/mask/token.go:31 | The token text determines category and number |
| Strategies.TokenIsBracketed | internal/mask/token.go:31 | A token has one opening bracket first, one closing bracket last, none inside |
| Strategies.TokenReads | internal/mask/token.go:31 | A token reads as bracket, category in capitals, underscore, number without leading zeros, bracket |
| Strategies.DocState.Mask | internal/mask/token.go:21-36 | Returns the remembered mask if there is one, else a shape or the next token of the category, and remembers it |
| Strategies.DocState.Next | internal/mask/mask.go:47-50 | Issues the next number of a category and changes nothing else |
| TokenNumbering.EqualTokensEqualValues | internal/mask/token.go:21-36 | Over any sequence of Mask calls, whatever the strategy, values that were numbered get bracket tokens, equal exactly when the values are |
| TokenNumbering.IssuedNumbers | internal/mask/mask.go:21-50 | Whatever the strategy, the numbers issued for a category are exactly 1 up to its counter, each by one call |
| TokenNumbering.IssuedOnce | internal/mask/synthetic.go:200-215 | A value that was numbered is never numbered again |
| TokenNumbering.AllNumbered | internal/mask/token.go:21-36 | The token strategy numbers every value |
| TokenNumbering.TokensShown | internal/mask/token.go:21-36 | With the token strategy the tokens returned are exactly those of the numbers issued |
| TokenNumbering.EqualValuesEqualMasks | internal/mask/mask.go:12-19 | Whatever the strategy, equal values get equal masks within one document |
| MaskOrigins.MasksAreMade | internal/mask/token.go:21-36 | Over any sequence of Mask calls each mask is what the strategy made of the value at the first call that gave it one |
| Applying.Apply | internal/mask/mask.go:63-103 | The result is a pass over some sorted permutation of the spans, on the given document or a new one |
| Applying.MaskedStandsForText | internal/mask/mask.go:61-103 | For arbitrary spans no slice is out of bounds, replacements sit at their offsets in order and apart, and putting the originals back gives the text |
| Applying.MaskingCoversSpans | internal/mask/mask.go:63-101 | The masked text is the text with chosen spans of the input swapped for masks, each under its category, and every span in range has its first byte in a chosen one, or lies in it when both start together |
| Applying.DisjointSpansAllMasked | internal/mask/mask.go:79-101 | Disjoint spans in range are all masked and nothing else changes |
| Applying.ApplyLogs | internal/mask/mask.go:15-19 | Masking continues the session of the document it is given |
| Applying.ApplyShows | internal/mask/mask.go:83-100 | A strategy that gives no empty shape leaves no empty mask |
| Applying.MasksComeFromStrategy | internal/mask/mask.go:83-100 | On a new document every mask is the strategy's shape of its original, or a token, made for the first replacement that gave that original a mask |
| Restoring.FindUnclaimed | internal/mask/mask.go:198-216 | Finds the leftmost occurrence of a non-empty token that overlaps no claim, or tells that there is none |
| Restoring.FirstFree | internal/mask/mask.go:194-197 | The occurrence found is unclaimed and all earlier ones are claimed |
| Restoring.OverlapsAny | internal/mask/mask.go:185-192 | Tells whether a range overlaps some claim |
| Restoring.Restore | internal/mask/mask.go:122-176 | The result is one of those the two phases and the final splice allow, for some order of replacements and of claims |
| RestoreLaws.RestoreSplices | internal/mask/mask.go:112-176 | For arbitrary replacements: disjoint in-bounds ranges, at most one per replacement and each equal to its mask, are swapped, all else is copied, applied plus missed is the number given |
| RestoreLaws.RestoreExhausts | internal/mask/mask.go:112-176 | With non-empty masks the defensive check never fires, applied and missed are exactly those given, and every occurrence of a missed token overlaps a claim |
| RestoreOrder.RestoreInOrder | internal/mask/mask.go:112-216 | With non-empty masks: a mask found where it was recorded is claimed there unless an earlier recorded one is in the way, any other takes the leftmost occurrence no other claim overlaps, equal masks keep the order of their records, and the last of them are those missed |
| RestoreLaws.RoundTrip | internal/mask/mask.go:112-176 | Restoring the masked text gives the text with no miss when no two replacements start together |
| RestoreLaws.NonEmptyMasksRise | internal/mask/mask.go:61-103 | Non-empty masks never start together |
| RestoreLaws.EmptyMasksMaySwap | internal/mask/mask.go:125-160 | Two empty masks at one offset may come back in the wrong order |
| RestoreLaws.EmptyMaskMayBeLost | internal/mask/mask.go:156-175 | An empty mask directly before a non-empty one may be skipped: its original is lost and a miss reported |
| Exactness.ExactIffNonEmpty | internal/mask/mask.go:61-176 | Restoring what was masked gives the text with no miss, for all texts and spans, exactly when the strategy gives no non-empty value an empty mask |
| TokenRestore.TokensRestoreAnywhere | internal/mask/mask.go:112-216 | In any text each bracket token is replaced min(recorded, occurring) times by its original, misses are the recorded tokens left over, and with none in excess the result is plain substitution |
| TokenRestore.SeenCountsOccurrences | internal/mask/mask.go:194-216 | The counts used there are the numbers of occurrences in the text |
| TokenRestore.TokenStrategyRecords | internal/mask/token.go:21-36 | A session of the token strategy records bracket tokens, equal ones with equal originals |
| Masking.FilterSpans | internal/engine/chunk.go:247-267 | The loop keeps the wanted spans in order |
| Masking.FilteredStay | internal/engine/chunk.go:247-285 | Exactly the spans stay whose category is asked for, or none is, and whose first rule, if there is one, names a category detected as well; order is kept |
| Masking.WantedSpansMasked | internal/engine/engine.go:265-285 | With a resolved detection exactly the spans that pass the category filter and combo rules are masked |
| Masking.RunMask | internal/engine/engine.go:265-285 | Detects whole or windowed by size, filters, applies |
| Masking.RunHidesSpans | internal/engine/engine.go:265-285 | Any masking run swaps spans that stay for masks, and every span that stays has its first byte masked |
| Masking.LargeTextLikeSmall | internal/engine/chunk.go:216-243 | A text above the threshold is masked exactly as by one whole-text run, if windows see what that run sees |
| Masking.MaskRestores | internal/engine/engine.go:262-285 | Restoring any masking run gives the text, with no miss |
| Masking.Join | internal/engine/engine.go:206-223 | Joins texts, each followed by a newline |
| Masking.JoinedHolds | internal/engine/engine.go:206-223 | Every message stands in the joined text at its place, followed by a newline |
| Masking.MaskBatch | internal/engine/engine.go:145-187 | The loop over messages shares one document and shifts each message's replacements |
| Masking.MessageAdds | internal/engine/engine.go:155-187 | Each message keeps the joined masked text standing for the joined texts and the session going |
| Masking.BatchRoundTrip | internal/engine/engine.go:133-203 | Restoring the joined masked texts with all shifted replacements gives the joined texts, with no miss |
| Masking.BatchMasksAlike | internal/engine/engine.go:116-119 | Equal values across messages get equal masks, and with tokens only equal ones do |
| Masking.BatchHides | internal/engine/engine.go:155-187 | Every message of a batch has the spans that stay masked |
| Masking.BatchMasksMade | internal/engine/engine.go:145-187 | Across a batch every mask is what the strategy makes of its original |
| Masking.BatchTokensRestoreAnywhere | internal/engine/engine.go:133-203 | A batch masked with tokens can be restored in any answer, by plain substitution when no token exceeds its recorded count |
| Store.Memory.Save | internal/store/memory.go:91-100 | Stores the record with the expiry of its TTL; it is live at once |
| Store.Memory.SaveNew | internal/store/memory.go:103-116 | Succeeds exactly when no live record is there, and otherwise changes nothing |
| Store.Memory.Load | internal/store/memory.go:137-160 | Returns the live record; deleting an expired entry does not show |
| Store.Memory.Delete | internal/store/memory.go:163-168 | Removes the id |
| Store.Memory.Cleanup | internal/store/memory.go:62-69 | Leaves exactly the entries that have not expired; what is live does not change from then on |
| Store.Perform | internal/store/memory.go:54-168 | The class does what the run semantics says, operation by operation |
| Store.SavedIsFound | internal/store/memory.go:91-160 | A saved record is found at a later time exactly when it has no TTL or the TTL has not run out, whatever happened to other ids |
| Store.MemoryIsPlainMap | internal/store/memory.go:54-168 | Over any run with a clock that does not go back, replies are those of a plain last-write map with expiries |
| Calls.WriterOwns | internal/engine/engine.go:510-515 | A caller owns what it writes exactly when its SystemID is not empty |
| Calls.WhoMayUnmask | internal/engine/engine.go:359-371 | UnmaskEx gives a text exactly to the system named in the record, or the default system for a record without owner |
| Calls.ForeignLooksMissing | internal/engine/engine.go:359-371 | For all others it answers as for an id without a record |
| Calls.ServedForeignLooksMissing | internal/engine/engine.go:359-371 | The same over the store and its clock |
| Calls.RestoredExactlyWhen | internal/engine/engine.go:476-515 | On a record with non-empty masks Process restores exactly when the caller owns the record, may unmask, did not send the text itself, and some mask occurs in what it sent |
| Calls.ProcessRepeats | internal/engine/engine.go:492-495 | An owner that sends the text again gets the stored mask |
| Calls.MaskReplyIsStored | internal/engine/engine.go:225-345 | MaskEx answers with the mask now live for this text; refusals and unmask requests are told apart exactly, and change nothing |
| Calls.MaskExRepeats | internal/engine/engine.go:229-235 | A named system that sends the same text again gets the same mask and changes nothing |
| Calls.BatchReplyIsStored | internal/engine/engine.go:140-203 | MaskBatchEx answers with the masks whose joined text is now live for the joined texts, or that the record is foreign |
| Calls.ChangerIsNamed | internal/engine/engine.go:140-345 | Only the system named in a live record, or the default system for one without owner, changes it |
| Calls.OwnMaskGivesText | internal/engine/engine.go:492-504 | The stored mask sent back by an owner with Unmask on gives the text, also when mask and text are equal |
| Calls.NothingRestored | internal/engine/engine.go:476-498 | Without the Unmask permission or ownership no answer is a restored text |
| Calls.UnmaskGivesTexts | internal/engine/engine.go:359-371 | What MaskEx or MaskBatchEx stored, UnmaskEx gives back with no miss |
| Calls.OnlyOwnersChange | internal/engine/engine.go:140-345 | A live record changes only through MaskEx or MaskBatchEx by a system that owns it |
| Calls.OwnerKeepsRecord | internal/engine/engine.go:140-345 | Over any run of calls a live record keeps its owner, and does not change while its owner masks nothing under the id |
| Calls.ServedIsCallRun | internal/engine/engine.go:140-515 | Requests and cleanup ticks served on the store at times that do not go back form, through what is live, a run of calls with time passing in between |
| Calls.ServedRoundTrip | internal/engine/engine.go:394-504 | The Process round trip over the store and its clock, whatever is served in between |
| Calls.ProcessRoundTrip | internal/engine/engine.go:394-504 | A text masked under a new id comes back when its mask is sent again, after any calls by any systems while the record is live |
| Engines.ShowingIsUndoable | internal/engine/engine.go:262-285 | If no strategy gives empty shapes, every single or batch masking the engine may store can be undone |
| Engines.RecordHides | internal/engine/engine.go:248-345 | A record was masked with the strategy asked for, else the partial one, else any; the spans that stay are hidden behind what it makes of them |
| Engines.FreshAnswerHides | internal/engine/engine.go:463-471 | A fresh answer stands for the payload, hidden in the same way |
| Engines.BatchRecordHides | internal/engine/engine.go:145-203 | The same for every message of a batch |
| Engines.Engine.ResolveStrategy | internal/engine/engine.go:248-260 | The named strategy, else the partial one, else any, else none |
| Engines.Engine.ProcessExisting | internal/engine/engine.go:492-504 | Answers as specified on an owned record |
| Engines.Engine.Process | internal/engine/engine.go:394-461 | A whole call keeps live records and their expiry, or writes one new record with the TTL asked for and returns its mask |
| Engines.Engine.MaskEx | internal/engine/engine.go:225-345 | Refuses foreign records, returns the stored mask on a hash match, reports an unmask request, else overwrites |
| Engines.Engine.MaskBatchEx | internal/engine/engine.go:140-203 | Refuses foreign records, else stores one record for all messages |
| Engines.Engine.Serve | internal/engine/engine.go:140-515 | Every call of the interface, and every tick of the cleanup loop, does to the live records what the runs of calls allow |
| Engines.Engine.UnmaskEx | internal/engine/engine.go:359-371 | A foreign record looks like a missing one; nothing live changes |
| Protocol.MovesKeepTasks | internal/engine/engine.go:394-461 | Every step of any call keeps every call's invariant |
| Protocol.MovesKeepStore | internal/engine/engine.go:394-461 | Every step keeps the store invariant: each id saved at most once, where nothing was |
| Protocol.FirstWriteWins | internal/engine/engine.go:417-456 | In every interleaving at most one SaveNew per id succeeds and the plain-Save fallback is never reached |
| Protocol.RecordNeverChanges | internal/engine/engine.go:417-461 | Once written, a record never changes |
| Protocol.CompletedCallsAgree | internal/engine/engine.go:394-504 | Every completed call answered as the sequential specification allows on the one record of its id |
| Protocol.ConcurrentRoundTrip | internal/engine/engine.go:394-504 | Under concurrency, too, the owner sending the recorded mask gets the recorded text |
| Protocol.StepsMakeACall | internal/engine/engine.go:394-461 | The steps of one call with nothing in between are a Process call as a whole |
| CheckDigits.LuhnCheckDigit | internal/synth/synth.go:346-361 | The loop computes the check digit |
| CheckDigits.Luhn | internal/pii/detectors/validators.go:87-106 | Accepts exactly 13 to 19 digits with a Luhn sum divisible by 10 |
| CheckDigits.Card | internal/synth/synth.go:83-91 | Every drawn card has a valid Luhn sum |
| CheckDigits.CheckDigitIsRight | internal/synth/synth.go:345-361 | For any length the appended check digit is valid and no other digit is |
| CheckDigits.LuhnSumByPlaces | internal/pii/detectors/validators.go:92-106 | The sum counts digits at even places from the right as they are and at odd places the digits of their double |
| CheckDigits.SingleErrorDetected | internal/pii/detectors/validators.go:92-106 | Changing any single digit is detected |
| CheckDigits.SwapDetected | internal/pii/detectors/validators.go:92-106 | An adjacent swap goes undetected exactly for equal digits or 0 with 9 |
| CheckDigits.WriteDigits | internal/mask/synthetic.go:452-468 | The loop writes the new digits and copies everything else |
| CheckDigits.AppliedDigits | internal/mask/synthetic.go:450-478 | The digits read back are the new ones, then the old ones beyond them |
| CheckDigits.FakeFits | internal/mask/synthetic.go:450-478 | A value with as many digits takes on exactly the new ones, every separator in place |
| CheckDigits.CardsPassExactlyAtSixteen | internal/mask/synthetic.go:311-319 | Of the lengths accepted, synthetic cards are sure to pass the Luhn check exactly for 16 |
| CheckDigits.InnControl | internal/synth/synth.go:108-114 | The loop computes the control digit |
| CheckDigits.Inn | internal/pii/detectors/validators.go:109-141 | Accepts 10 or 12 digits with the right control digits |
| CheckDigits.Inn10WrittenOut | internal/pii/detectors/validators.go:121-128 | The 10-digit check with its weighted sum written out |
| CheckDigits.Inn12WrittenOut | internal/pii/detectors/validators.go:130-141 | The 12-digit check with its two weighted sums written out |
| CheckDigits.Inn12Agrees | internal/synth/synth.go:93-99 | A 12-digit INN passes exactly when its control digits are the generated ones |
| CheckDigits.Inn10Agrees | internal/synth/synth.go:101-106 | A 10-digit INN passes exactly when its control digit is the generated one |
| CheckDigits.ControlNumber | internal/synth/synth.go:119-133 | The loop and its branches compute the weighted sum modulo 101 modulo 100 |
| CheckDigits.ControlIsRemainder | internal/synth/synth.go:119-133 | The branches of the control number amount to those two remainders |
| CheckDigits.Snils | internal/pii/detectors/validators.go:144-165 | Accepts 11 digits that end in their control number |
| CheckDigits.SnilsWrittenOut | internal/pii/detectors/validators.go:144-165 | The check with its weighted sum written out, modulo 101 modulo 100 |
| CheckDigits.SnilsAgrees | internal/synth/synth.go:116-135 | Eleven digits pass exactly when the last two are the generated control number |
| CheckDigits.SyntheticNumbersPass | internal/mask/synthetic.go:321-338 | A synthetic INN or SNILS written over a value with separators passes its validator |
| Runes.DecodeEncode | internal/mask/full.go:57-82 | Runes written out are well-formed UTF-8 (section 4 of RFC 3629) and read back |
| Runes.EncodeDecode | internal/mask/full.go:57-82 | Reading runes and writing them again returns the bytes exactly when they are well-formed |
| FullMask.ScanWord | internal/mask/full.go:121-139 | The loop ends where the word ends |
| FullMask.AllServiceWords | internal/mask/full.go:85-103 | The loop tells whether there is a word and all are service words |
| FullMask.MaskAllLetters | internal/mask/full.go:107-118 | The loop writes a star for every letter and digit and all else as it was read |
| FullMask.MaskFull | internal/mask/full.go:57-82 | On any bytes, the loop masks word by word |
| FullMask.ScanFindsWord | internal/mask/full.go:120-139 | Scanning from the start of a word finds a maximal word |
| FullMask.FullShape | internal/mask/full.go:48-82 | Rune by rune: a letter or digit becomes a star unless it lies in a maximal service word of a value that has another word; all else stays in place |
| FullMask.FullHides | internal/mask/full.go:48-82 | The runes come back unchanged exactly when none is a letter or digit |
| FullMask.FullTextShape | internal/mask/full.go:57-82 | On any bytes the output is well-formed and reads as the masked runes, as many as went in |
| FullMask.FullTextHides | internal/mask/full.go:57-82 | The bytes come back unchanged exactly when they are well-formed and have no letter or digit |
| FullMask.FullCanBeUndone | internal/mask/full.go:36-46 | The full strategy gives no empty mask, so whatever it masks is restored exactly |
| FullMask.FullIsApplied | internal/mask/full.go:35-46 | Whatever is masked with the full strategy on a new document shows the masked form of each original |

## Left out

- Engines.Engine.Process: reads the clock once, so the branches after a lost race are not reached there; they are steps in `Protocol`.
- Protocol.FirstWriteWins: covers runs in which no record expires or is deleted; with expiry the fallback Save (`internal/engine/engine.go:447-456`) may overwrite a newer record.
- Engines.Engine.MaskEx: its Load and its Save are one atomic step here; load errors are not modelled.
- Engines.Engine.MaskBatchEx: its Load and its Save are one atomic step here; load errors are not modelled.
- Store.Memory.Load: its read and its delete of an expired entry are one atomic step here; decoding errors are not modelled.
- Store.MemoryIsPlainMap: records are kept as they are; encryption, JSON coding and the truncated keyed hash of ids are not modelled.
- WindowedDetection.WindowedRefinesWhole: that window runs see what a whole run sees near window edges is a condition; it depends on the detectors.
- WindowedDetection.DetectWindowed: goroutines appear as an arbitrary finishing order, each filling its own slot; the semaphore is not modelled.
- CheckDigits.Card: random draws are arguments; that a synthetic value differs from the original is not claimed, since a draw can coincide.
- FullMask.FullShape: which runes are letters or digits and which words are service words stays open, except that `*`, `-` and U+FFFD are neither letter nor digit.
- TokenNumbering.EqualTokensEqualValues: category names are lower-case ASCII words joined by underscores, as all constants in `internal/pii/types.go:6-28` are.
- The partial strategy's rules and the synthetic names, dates and e-mails: they are shapes, arbitrary functions here.
- The detectors with their dictionaries and regular expressions, and the reclassification of dates in the pipeline.
- Counts per category, stage timings, record creation times and load errors.
- HTTP handlers, the LLM proxy, configuration, metrics and logging, the Redis store.

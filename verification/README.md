# Models of a server security agent

This project models the parts of the agent where a small mistake would be hard
to see, and proves what they promise. Each module is one component; the
functions and predicates in it say what is meant, the methods and classes are
the program's own loops and state changes proved against them, and the lemmas
are the promises.

- **Signature matching** (`Clam*`). `ClamPattern` gives the naive meaning of a
  compiled hex signature: one start per segment, respecting bytes, gaps and
  offset rules. `ClamCompile`, `ClamVariants` and `ClamMeaning` compile texts and
  show what is kept; `ClamSignature` does the same from the signature as written
  to the patterns, and `ClamAccepted` which signatures are compiled at all.
  `ClamAnchor`, `ClamIndex` and `ClamScan` find the occurrences of
  shared segments through a filtered index; `ClamSearch` is the bounded search
  around the rarest segment, `ClamSearchProofs` what it finds and `ClamLimits` when no
  limit is reached. `ClamExpr` and
  `ClamExprMeaning` are the logical expressions. `ClamEngine` registers, scans and
  decides, `ClamLoader` reads database lines, `ClamCase` is about lowercased views
  and `ClamTextMeaning` goes from a signature's text to what it matches;
  `ClamVerdict` puts the whole verdict in naive terms, and `ClamDatabase` loads a
  whole database and states the verdict in terms of its lines; `ClamWritten` says how
  written lines are read and `ClamViews` what lowercased and normalised content is. `ClamCases` holds
  signatures that show what the engine does not give.
- **Database cleaning.** `PhpData` reads and writes serialized PHP data, `DbValue`
  cuts reported code out of stored values, `DbProtocol` is the saved value and the
  conditional write among other writers.
- **Pass cookies** (`SitePasses`): days, weeks, slots, generations, withdrawal.
- **Protocols.** `CentralPass` (pass list and WAF reloads under two locks),
  `SettingsApply` (settings applied in the background), `IpdbParts` (a list that
  comes in parts).
- **Caches and limits.** `Cleared` (verdicts and their cache), `ClearedSteps` (saves
  that overlap), `Base64` and
  `Challenge` (image challenges), `Limiters` (sliding windows), `ListEdit` (the
  merge of list settings).

Where the code does not meet what its comments promise, the model follows the
code, a lemma names the input, and the condition under which the promise is kept
is proved, exactly unless said otherwise:

- gaps in front of the first segment and behind the last are dropped
  (`ClamMeaning.NothingLost`, `ClamMeaning.LeadingGapLost`);
- the key under which segments are shared is not injective for choices of bytes
  (`ClamCases.TwinTexts`, `ClamCases.TwinsMiscounted`). The condition is exact for
  segments whose choices hold no "(" or ")" (`ClamIndex.KeysTellExactly`,
  `ClamVerdict.PlainKeysDistinct`); with these bytes inside, some choices clash
  (`ClamIndex.FramesClash`) and which others do is left open. The verdict is proved
  for distinct keys;
- a test behind a group that is the whole body of another group replaces the
  inner test (`ClamExprMeaning.ParsedMeans`, `ClamExprMeaning.InnerTestLost`). What
  the tree means is exact; that no test is replaced is enough for the text's own
  value, but not needed where both tests happen to agree;
- a logical signature is only looked at where a pattern of it matches, so one that
  is true of no match at all, such as "0=0", is passed over: exactly those whose
  expression is true of zero counts (`ClamEngine.Engine.UntouchedHolds`,
  `ClamVerdict.MissedLogic`, `ClamExprMeaning.ZeroTestTrue`,
  `ClamExprMeaning.InnerZeroTestFalse`);
- a matching signature with an empty name is not reported
  (`ClamEngine.Engine.Scan`, `ClamEngine.Engine.NamesEnough`);
- half-open bytes are not lowered with a case-insensitive signature
  (`ClamCase.IgnoresCase`, `ClamCase.LoweredExactly`, `ClamCases.HalfLetterLost`);
- a gap written as "-" and a number below zero ("{--5}") has no bound at all
  (`ClamSignature.RangeReads`);
- length fields may be written with a sign or leading zeros, and are then not
  reproduced (`PhpData.Rewritten`); white space behind serialized data is dropped
  when the value is rewritten (`DbValue.DataKept`: nothing follows the new value);
- a cleaning that loses its race leaves a saved value that makes the next restore
  refuse (`DbProtocol.StaleBackup`); exactly when the finding's last save is not of
  the value that was cleaned (`DbProtocol.RestoreGives`,
  `DbProtocol.CleanThenRestore`);
- a pass is remembered for 49 hours but counts only for the day it was given and
  the two after it (`SitePasses.OwnPassExact`, `SitePasses.InTimeFor`,
  `SitePasses.LatePass`);
- settings queued out of save order can be missed (`SettingsApply.SeenExactly`,
  `SettingsApply.OutOfOrder`), and a failed apply is forgotten when another follows
  (`SettingsApply.FailureShows`, `SettingsApply.FailureHidden`);
- the cache and the table disagree about an empty hash (`Cleared.NoteAgrees`);
- saves that overlap can leave an administrator's decision out of the cache, or
  replace it in the table (`ClearedSteps.RightExactly`, `ClearedSteps.RowSafe`,
  `ClearedSteps.NotedLate`);
- a challenge can be answered twice when its expiry falls between open and spend
  (`Challenge.AcceptedAgain`, `Challenge.SecondTime`, `Challenge.AcceptedTwice`).

Conventions: a text is a `string` with one character per byte, content is a
sequence of `bv8`; numbers are unbounded; clocks are whole seconds; keyed hashes
are uninterpreted functions (an injective constructor where a value must tell
its inputs apart); Go's map iteration is an arbitrary choice of the next key.

## Model

| member | source | states |
|---|---|---|
| ClamSearch.SearchInts | agent/internal/clamdb/hexsig.go:384-384 | binary search gives the first index of an increasing list that is not below x |
| ClamSearch.Fwd | agent/internal/clamdb/hexsig.go:365-406 | the forward search answers whether the segments after k can all be placed within reach, exactly as long as its steps stay in the budget, and counts those steps |
| ClamSearch.FwdListed | agent/internal/clamdb/hexsig.go:383-393 | the same for the listed occurrences of an anchored next segment, looked at in increasing order and left at the first success or when the budget is gone |
| ClamSearch.FwdScanned | agent/internal/clamdb/hexsig.go:394-405 | the same for a next segment without anchor, scanned up to the window |
| ClamSearch.Back | agent/internal/clamdb/hexsig.go:420-465 | the backward search answers whether the segments before k can be placed and the first start meets the offset rules, exactly within the budget |
| ClamSearch.BackListed | agent/internal/clamdb/hexsig.go:442-452 | backward over listed occurrences, latest first |
| ClamSearch.BackScanned | agent/internal/clamdb/hexsig.go:453-464 | backward over a window, latest first |
| ClamSearch.CountMatches | agent/internal/clamdb/hexsig.go:469-499 | the count is that of the hits among the occurrences of the rarest anchored segment in front of the first one that outruns the budget, capped at the limit |
| ClamSearchProofs.HitIsPlacement | agent/internal/clamdb/hexsig.go:365-465 | a hit at a position is exactly a placement of all segments (bytes, gaps, offset rules) with that segment there, among those the search can see |
| ClamSearchProofs.MatchesSound | agent/internal/clamdb/hexsig.go:469-499 | sound always: a positive count means there is one start per segment satisfying everything, whatever limit was hit |
| ClamSearchProofs.MatchesExact | agent/internal/clamdb/hexsig.go:469-499 | within the budget the count is positive exactly when a placement the search can see starts its rarest segment at a listed position |
| ClamSearchProofs.MatchesComplete | agent/internal/clamdb/hexsig.go:469-499 | with complete lists, no window cut and the budget kept, positive exactly when the pattern matches in the naive sense |
| ClamSearchProofs.MatchesCounted | agent/internal/clamdb/hexsig.go:469-499 | and the count then is the number of positions, among those of the rarest segment, at which a placement of the whole pattern has that segment, up to the limit |
| ClamSearchProofs.AnyAnchorDoes | agent/internal/clamdb/hexsig.go:470-478 | whether there is a hit does not depend on which anchored segment is searched from |
| ClamLimits.WorkBound | agent/internal/clamdb/hexsig.go:364-465 | a search takes no more steps than trying every candidate of every segment would |
| ClamLimits.BudgetHolds | agent/internal/clamdb/hexsig.go:354-499 | so no search runs out of steps when that number is at most 20000 |
| ClamLimits.TwoSegments | agent/internal/clamdb/hexsig.go:354-499 | which always holds for patterns of at most two segments |
| ClamLimits.SmallContents | agent/internal/clamdb/engine.go:483-556 | in contents of up to 4096 bytes such patterns reach no limit of the scan at all |
| ClamAnchor.SetAnchor | agent/internal/clamdb/hexsig.go:332-352 | the anchor is the longest literal run, the leftmost of the longest, read off the elements |
| ClamAnchor.PickKey | agent/internal/clamdb/hexsig.go:321-329 | every segment gets that anchor; the key is the first segment with the longest |
| ClamAnchor.IndexFrom | agent/internal/clamdb/hexsig.go:508-508 | the first place from an index on where the anchor stands |
| ClamAnchor.AnchorOfMatch | agent/internal/clamdb/hexsig.go:332-352 | wherever a segment matches, its anchor stands at its offset |
| ClamAnchor.SegOcc | agent/internal/clamdb/hexsig.go:502-519 | finds every position of an anchored segment, in order, up to the limit, by jumping between anchor occurrences |
| ClamSignature.RangeReads | agent/internal/clamdb/hexsig.go:297-318 | the text of a gap is read as the lengths it names: "n", "-m", "n-" and "n-m" in any digits, "n-m" refused when m is below n |
| ClamSignature.RangeWritten | agent/internal/clamdb/hexsig.go:297-318 | the same for numbers as they are printed |
| ClamSignature.RangeTexts | agent/internal/clamdb/hexsig.go:297-318 | no other text of digits and "-" is read |
| ClamSignature.PairReads | agent/internal/clamdb/hexsig.go:153-163 | two characters are read as the bytes whose two hex digits they are, "?" as any |
| ClamCompile.ParseHex | agent/internal/clamdb/hexsig.go:165-295 | parsing into segments and gaps step by step gives the pattern the token string denotes (anchors and key set), or refuses exactly when a token is bad or no two literal bytes stand together |
| ClamMeaning.DenSplit | agent/internal/clamdb/hexsig.go:188-281 | what a token string accepts splits at every point |
| ClamMeaning.GapsAddUp | agent/internal/clamdb/hexsig.go:174-181 | two adjacent gaps accept what their sum accepts |
| ClamMeaning.FixedIsWildcards | agent/internal/clamdb/hexsig.go:204-208 | a fixed gap accepts what that many wildcards accept |
| ClamMeaning.PutMeans | agent/internal/clamdb/hexsig.go:188-281 | each token put into the segments being built keeps the meaning of what was read |
| ClamMeaning.ShapeMeans | agent/internal/clamdb/hexsig.go:282-286 | the finished segments and gaps, with the two dropped gaps put back, mean what the tokens mean |
| ClamMeaning.CompiledMeans | agent/internal/clamdb/hexsig.go:165-295 | the token string accepts a stretch exactly when the pattern accepts a part of it with the dropped leading and trailing gaps around |
| ClamMeaning.NothingLost | agent/internal/clamdb/hexsig.go:169-173 | a pattern and its text agree on every content if and only if both dropped gaps have minimum 0 (or the pattern cannot match at all) |
| ClamMeaning.AllRoom | agent/internal/clamdb/hexsig.go:284-286 | the agreement, content by content, when both dropped gaps can be empty |
| ClamMeaning.LeadingGapLost | agent/internal/clamdb/hexsig.go:169-173 | a concrete loss: "{5}3c3f" compiles to a pattern that matches the two bytes alone, though the text demands five more in front |
| ClamVariants.FindMultiAlt | agent/internal/clamdb/hexsig.go:123-151 | finds the first group with an option longer than a byte, its bounds and its options |
| ClamVariants.ExpandRound | agent/internal/clamdb/hexsig.go:88-104 | one round replaces the first such group of every variant by each option, and reports whether there was one |
| ClamVariants.CompileHex | agent/internal/clamdb/hexsig.go:81-119 | at most four rounds and sixteen variants, each compiled; refused when the text is empty, too long, expands too far or any variant is refused |
| ClamSignature.LexShow | agent/internal/clamdb/hexsig.go:188-281 | reading a written signature gives tokens that accept exactly what its items accept |
| ClamSignature.ExpandOneKeeps | agent/internal/clamdb/hexsig.go:91-101 | replacing a group by its options keeps, taken together, what the signature accepts |
| ClamSignature.RoundsKeep | agent/internal/clamdb/hexsig.go:88-109 | so do all rounds of expansion |
| ClamSignature.VariantsMean | agent/internal/clamdb/hexsig.go:81-119 | the variants together accept a stretch exactly when the signature with its alternatives does |
| ClamSignature.CompileKeepsMeaning | agent/internal/clamdb/hexsig.go:81-119 | end to end: the compiled patterns together match exactly the contents in which the signature as written means something |
| ClamAccepted.LexReads | agent/internal/clamdb/hexsig.go:188-281 | a text is read if and only if each of its items can be, and its tokens hold two literal bytes side by side exactly where the items do |
| ClamAccepted.RoundsFit | agent/internal/clamdb/hexsig.go:88-109 | the rounds of expansion end within the limits exactly when the options multiply to at most sixteen, and settle the first four long choices |
| ClamAccepted.AcceptedExactly | agent/internal/clamdb/hexsig.go:79-119 | a written signature is compiled if and only if it has at most four long choices with at most sixteen combinations, every item can be read and every combination holds two plain bytes side by side |
| ClamIndex.BloomInRange | agent/internal/clamdb/engine.go:53-57 | the filter word of every key is inside the filter |
| ClamIndex.AddFinds | agent/internal/clamdb/engine.go:59-69 | adding an anchor makes its id findable, filter included, and loses no other |
| ClamIndex.KeysTell | agent/internal/clamdb/engine.go:379-396 | segments the compiler builds never share a key, as long as no choice holds "(" or ")" and none starts with "!" |
| ClamIndex.KeysTellExactly | agent/internal/clamdb/engine.go:379-396 | without "(" or ")" in a choice, two segments have one key if and only if they differ at most in choices that start with "!" against excluded choices of the same other bytes |
| ClamIndex.FramesClash | agent/internal/clamdb/engine.go:383-390 | with "(" and ")" inside, a choice of 41, 29, 28 and 7a has the key of a choice of 41 followed by one of 7a |
| ClamScan.Record | agent/internal/clamdb/engine.go:486-500 | an anchor found at a position adds the segment start it belongs to, once, when the bytes match and the cap is not reached |
| ClamScan.ScanAt | agent/internal/clamdb/engine.go:502-516 | the lookups at one index record exactly the segments whose anchor stands there |
| ClamScan.FindOccurrences | agent/internal/clamdb/engine.go:483-517 | one pass over the content lists, in strictly increasing order, exactly the positions of every indexed segment, up to the cap |
| ClamEngine.Engine.SegID | agent/internal/clamdb/engine.go:399-416 | a segment is shared under its key within its view, one id for each key for good; index and books stay consistent and nothing registered before is lost |
| ClamEngine.Engine.RegisterOne | agent/internal/clamdb/engine.go:366-374 | a new pattern gets its segments' ids and is appended |
| ClamEngine.Engine.Register | agent/internal/clamdb/engine.go:361-377 | a known key gives its old ids and changes nothing; a new one appends exactly its patterns |
| ClamEngine.Engine.TryPattern | agent/internal/clamdb/engine.go:528-551 | the check that all anchored segments occur changes nothing about the count |
| ClamEngine.Engine.NotTried | agent/internal/clamdb/engine.go:518-537 | a pattern none of whose segments occurs counts zero, so not trying it loses nothing |
| ClamEngine.Engine.ScanView | agent/internal/clamdb/engine.go:483-556 | one view reports the name of a matching body signature; when it reports none and no matching one is nameless, it has tallied every pattern of the view exactly |
| ClamEngine.Engine.HashHit | agent/internal/clamdb/engine.go:338-358 | the size check in front of the lookups loses no hash |
| ClamDatabase.HashesMean | agent/internal/clamdb/engine.go:338-358 | a file is named by the hash lists if and only if a kept line holds its md5, sha1 or sha256 with its size or with "*", by the name of the last such line, md5 first and sizes before "*"; it is known good if and only if a line of a known-good list holds one of its hashes |
| ClamEngine.HashSized | agent/internal/clamdb/engine.go:339-342 | a file whose hash is listed has a recorded size |
| ClamEngine.Engine.HashLine | agent/internal/clamdb/load.go:88-115 | a hash line enters the hash and its size together (or the known-good list), and every listed hash keeps a recorded size |
| ClamEngine.NormalizeBytes | agent/internal/clamdb/engine.go:305-324 | the normalising loop lowercases and turns each run of white space into one space |
| ClamViews.LettersAre | agent/internal/clamdb/engine.go:326-335 | two bytes are one in lower case exactly if they are equal or the same letter of the alphabet |
| ClamViews.NormalWords | agent/internal/clamdb/engine.go:305-324 | normalised content has the words of the content, lowercased |
| ClamViews.NormalSpaces | agent/internal/clamdb/engine.go:305-324 | with one space between them, and one in front or behind exactly where there was white space |
| ClamEngine.CountSubs | agent/internal/clamdb/engine.go:460-465 | each subsignature counts the sum of its patterns |
| ClamEngine.Engine.TouchedOnes | agent/internal/clamdb/engine.go:451-457 | the touched logical signatures are exactly those one of whose patterns counts |
| ClamEngine.Engine.CheckLogic | agent/internal/clamdb/engine.go:458-478 | a name it gives is that of a touched logical signature that holds, and it gives one whenever there is one with a name |
| ClamEngine.Engine.Untouched | agent/internal/clamdb/engine.go:451-457 | every subsignature of an untouched logical signature counts zero |
| ClamEngine.Engine.UntouchedHolds | agent/internal/clamdb/engine.go:448-478 | an untouched logical signature holds if and only if its expression is true of zero counts |
| ClamEngine.Engine.TouchedIsEnough | agent/internal/clamdb/engine.go:448-478 | looking only at touched ones misses exactly those, and nothing when no expression is true of zero counts |
| ClamEngine.Engine.Scan | agent/internal/clamdb/engine.go:419-479 | names content if and only if it is not known-good and a hash, a body signature or a touched logical signature says so, in that order; only a matching signature without a name can hide a verdict |
| ClamEngine.Engine.NamesEnough | agent/internal/clamdb/engine.go:419-479 | none does when every signature has a name |
| ClamVerdict.PlainKeysDistinct | agent/internal/clamdb/engine.go:379-396 | over all registered segments that get a key, without "(" or ")" in a choice, keys are distinct if and only if no two segments are such twins |
| ClamVerdict.OwnList | agent/internal/clamdb/engine.go:539-544 | a pattern sees exactly its own segments' positions though segments are shared |
| ClamVerdict.CountSound | agent/internal/clamdb/engine.go:551-553 | what is counted really matches, whatever cap is reached |
| ClamVerdict.CountDecides | agent/internal/clamdb/engine.go:545-553 | with distinct keys and no cap reached a pattern counts exactly when it matches in the naive sense |
| ClamVerdict.BodyDecides | agent/internal/clamdb/engine.go:545-549 | body signatures are reported exactly when one of them matches in its view |
| ClamVerdict.NothingUncounted | agent/internal/clamdb/engine.go:545-550 | not counting the patterns of body signatures loses nothing when none of them matched |
| ClamVerdict.CountIs | agent/internal/clamdb/engine.go:545-553 | where no limit is reached, what the engine counts for a pattern is the number given by naive matching |
| ClamVerdict.MissedLogic | agent/internal/clamdb/engine.go:448-478 | a logical signature true of its counts is passed over exactly when no pattern of it matches and it is true of zero counts |
| ClamVerdict.VerdictMeans | agent/internal/clamdb/engine.go:419-479 | the whole verdict in terms of naive matching, hashes and expressions over naive counts, for any expressions |
| ClamExpr.ParseExpr | agent/internal/clamdb/engine.go:149-255 | the parser object gives exactly the specified tree or refusal, and terminates |
| ClamExpr.ExprParser.Term | agent/internal/clamdb/engine.go:213-255 | one operand with its test, moving the position exactly as specified |
| ClamExpr.ExprParser.Or | agent/internal/clamdb/engine.go:161-179 | the loop over alternatives builds the specified node |
| ClamExpr.Parse | agent/internal/clamdb/engine.go:149-159 | every leaf of a parsed tree is below the subsignature count |
| ClamExpr.ZeroIsFalse | agent/internal/clamdb/engine.go:258-301 | a tree without a test for zero is (0, 0) on zero counts |
| ClamExprMeaning.ParsedMeans | agent/internal/clamdb/engine.go:149-301 | whatever is accepted is the whole text of one expression; the tree evaluates to its value with groups directly inside groups merged, and to its own value when no test is lost in the merging |
| ClamExprMeaning.AllAccepted | agent/internal/clamdb/engine.go:149-255 | the text of every well-formed expression is accepted, with its tree |
| ClamExprMeaning.InnerTestLost | agent/internal/clamdb/engine.go:226-239 | a concrete loss: the outer test "=1" around a group with the test ">2" replaces it |
| ClamExprMeaning.ZeroTestTrue | agent/internal/clamdb/engine.go:258-301 | "0=0" is true of zero counts |
| ClamExprMeaning.InnerZeroTestFalse | agent/internal/clamdb/engine.go:258-301 | "0&1=0", which holds a test for zero too, is not |
| ClamLoader.OffsetMeans | agent/internal/clamdb/load.go:141-169 | after an offset is set a pattern may start exactly where the offset text says |
| ClamLoader.LowerPattern | agent/internal/clamdb/load.go:204-220 | literals and alternatives lowered, everything else kept, anchors and key found anew |
| ClamLoader.Compile | agent/internal/clamdb/load.go:181-194 | a text compiled, put at its offset and lowered for its view, or skipped for one of those reasons |
| ClamLoader.KeysTellSignatures | agent/internal/clamdb/load.go:197-197 | the registry key tells view, offset and text apart |
| ClamLoader.Registered | agent/internal/clamdb/engine.go:361-377 | what is registered under a signature's key is always what compiling that signature gives |
| ClamLoader.AddBody | agent/internal/clamdb/load.go:171-201 | a body signature line is added if and only if no reason to refuse it holds, and then puts exactly its name on exactly its own patterns, new or shared; the uses of logical signatures and all other marks stay |
| ClamLoader.AddLogic | agent/internal/clamdb/load.go:222-320 | a logical signature line is added if and only if no reason to refuse it holds, and then with its parsed expression over subsignatures that are the patterns of their own texts; exactly those patterns learn of it, and the marks of body signatures and all other uses stay |
| ClamLoader.BodyStaysLoaded | agent/internal/clamdb/load.go:195-199 | what is loaded for a body signature stays when another is loaded |
| ClamLoader.BodyStaysUnderLogic | agent/internal/clamdb/load.go:308-317 | and when a logical one is |
| ClamLoader.LogicStaysLoaded | agent/internal/clamdb/load.go:308-317 | what is loaded for a logical signature stays when another is loaded |
| ClamLoader.LogicStaysUnderBody | agent/internal/clamdb/load.go:195-199 | and when a body signature is |
| ClamLoader.CompiledOnce | agent/internal/clamdb/load.go:181-194 | compiling is determined: one list of patterns for a view, an offset and a text |
| ClamLoader.BodyMeans | agent/internal/clamdb/load.go:195-199 | a body signature the engine holds, loaded first or last, matches exactly where some pattern compiled from its text does |
| ClamLoader.BodiesAre | agent/internal/clamdb/engine.go:545-549 | some body pattern matches exactly when some loaded body signature matches |
| ClamCompile.CompiledMasks | agent/internal/clamdb/hexsig.go:230-281 | compiled segments hold only the masks of whole bytes, nibbles and "any" |
| ClamCase.IgnoresCase | agent/internal/clamdb/load.go:204-220 | on lowercased content a lowered element the compiler builds ignores case, an excluded byte being excluded in either, if and only if it is not a half-open byte of capital letters ("4?" or "5?") |
| ClamCase.LoweredMeans | agent/internal/clamdb/load.go:204-220 | a lowered pattern matches in lowercased content only what the raw one means in any case, and all of it when it holds no half-open capital |
| ClamCase.LoweredExactly | agent/internal/clamdb/load.go:204-220 | for every compiled pattern: it follows its meaning in any case, on every content, if and only if it holds no half-open capital (or nothing meets it at all) |
| ClamCase.NoCaseIsRecased | agent/internal/clamdb/load.go:204-220 | without excluded choices, meeting a pattern in any case is matching it after changing the case of letters in the content |
| ClamTextMeaning.TextFrom | agent/internal/clamdb/load.go:181-194 | a text's patterns at their offset together match exactly where the text denotes something from an allowed start on |
| ClamTextMeaning.MatchMeans | agent/internal/clamdb/load.go:181-194 | the patterns of a text match exactly the contents its items accept from an allowed start; in a lowercased view those they accept after changing the case of letters |
| ClamTextMeaning.BodyTextMeans | agent/internal/clamdb/load.go:171-201 | from text to verdict, at every offset and in every view: any body signature the engine holds matches exactly the contents its items denote |
| ClamDatabase.LoadLine | agent/internal/clamdb/load.go:82-130 | each line, by the kind of its file, adds its own signature or hash and leaves every earlier one what it was |
| ClamDatabase.Load | agent/internal/clamdb/load.go:82-130 | after any sequence of lines the engine holds exactly the signatures and hashes of the lines that are not refused, in their order |
| ClamDatabase.LogicMatchIs | agent/internal/clamdb/engine.go:448-478 | a logical signature of the database decides by how often its subsignatures' compiled texts match |
| ClamDatabase.DatabaseVerdict | agent/internal/clamdb/engine.go:419-479 | the verdict of an engine that holds a database in terms of the database's lines alone, the hash lists included |
| ClamDatabase.DatabaseMeans | agent/internal/clamdb/engine.go:419-479 | and in terms of what the texts of its body signatures denote |
| ClamWritten.TargetReads | agent/internal/clamdb/load.go:130-138 | "0" and no target scan the content as it is, "3" and "7" normalised |
| ClamWritten.PlaceReads | agent/internal/clamdb/load.go:140-169 | "*", "n", "n,m" and "EOF-n" let a match start anywhere, at n, from n to n + m and n before the end; "EOF-0" is refused |
| ClamWritten.BodyReads | agent/internal/clamdb/load.go:171-201 | a written body line is read as its name, view, offset and text if and only if its name is kept and the compiler takes its text, and not at all otherwise |
| ClamWritten.SubReads | agent/internal/clamdb/load.go:249-299 | a written subsignature is read as its offset and text; "::i" looks at raw content in lower case |
| ClamWritten.LogicReads | agent/internal/clamdb/load.go:222-320 | a written logical line is read as its name, expression, view and subsignatures if and only if its name is kept, its expression parses and each subsignature is taken |
| ClamWritten.HashReads | agent/internal/clamdb/load.go:88-115 | a written hash line lists its hash with its size, and nothing else |
| ClamWritten.NotSupported | agent/internal/clamdb/load.go:231-277 | what is for executables, asks for whole words or holds a slash is not read |
| ClamWritten.ViewsMean | agent/internal/clamdb/engine.go:305-336 | a target's signatures see the content, its letters made small, or its words in small letters |
| ClamVerdict.LoneCounts | agent/internal/clamdb/engine.go:398-417 | a one-segment pattern counts exactly in the contents where the segment stored under its id stands, its own or the one that brought the key in |
| ClamVerdict.SharedCounts | agent/internal/clamdb/engine.go:398-417 | two one-segment patterns whose segments share a key count in exactly the same contents |
| ClamCases.TwinTexts | agent/internal/clamdb/engine.go:379-396 | "3c3f(21|41)" and "3c3f!(41)" compile, with an anchor, to different segments under one key |
| ClamCases.TwinsMiscounted | agent/internal/clamdb/engine.go:398-417 | an engine that holds both counts one of them in a content it does not match, "<?A" or "<?0" |
| ClamCases.RegisterTwins | agent/internal/clamdb/engine.go:361-377 | registering the two signatures gives such an engine |
| ClamCases.HalfLetterLost | agent/internal/clamdb/load.go:208-210 | "3c3f4?" compiles and finds "<?A"; lowered, it does not find it in the lowercased content |
| PhpData.Unserialize | agent/internal/cms/dbclean.go:356-403 | the recursive reader computes the specified value and rest, or refuses |
| PhpData.ReadPairs | agent/internal/cms/dbclean.go:421-437 | the loop reads exactly n pairs and the closing brace |
| PhpData.LenWritten | agent/internal/cms/dbclean.go:406-419 | writing a length that was read gives back its text exactly when the text is canonical |
| PhpData.ParsedWellFormed | agent/internal/cms/dbclean.go:366-374 | what is read is a tree a reader can produce: a scalar never holds its terminator |
| PhpData.RoundTrip | agent/internal/cms/dbclean.go:356-403 | reading undoes writing, for every tree and whatever text follows |
| PhpData.Samples | agent/internal/cms/dbclean.go:466-495 | the text of an array and of an object, character by character |
| PhpData.Rewritten | agent/internal/cms/dbclean.go:466-495 | writing what was read reproduces the text if and only if its length fields are canonical |
| PhpData.NeverLonger | agent/internal/cms/dbclean.go:466-495 | writing never takes more bytes than were read |
| PhpData.Builder.Write | agent/internal/cms/dbclean.go:472-495 | the writer appends exactly the serialized text |
| PhpData.SerializeValue | agent/internal/cms/dbclean.go:466-470 | building the text gives the serialized value |
| DbValue.CleanText | agent/internal/cms/dbclean.go:270-283 | the loop cuts the reported span and looks again, at most 200 times |
| DbValue.CutMeans | agent/internal/cms/dbclean.go:270-283 | the cleaned value is the old one without the spans reported one after the other, and without anything else, exactly when fewer than that many leave nothing to report |
| DbValue.WithoutShorter | agent/internal/cms/dbclean.go:270-283 | it is shorter by exactly the lengths of these spans |
| DbValue.CutKeeps | agent/internal/cms/dbclean.go:271-283 | what is left is part of the old text, in order; a clean text is left alone |
| DbValue.WalkStrings | agent/internal/cms/dbclean.go:440-464 | the recursive rewriting, through strings that hold serialized data, terminates and computes the specified tree and change flag |
| DbValue.WalkRewrites | agent/internal/cms/dbclean.go:440-464 | kinds, keys, classes, counts and scalars are kept; strings that held serialized data still do, and every other string is the old one without the spans reported in it and without anything else |
| DbValue.WalkDecides | agent/internal/cms/dbclean.go:247-253 | it fails exactly when some plain string cannot be cleaned, and reports a change exactly when one changed |
| DbValue.CleanStoredValue | agent/internal/cms/dbclean.go:242-268 | the program's branches compute the specified stored value |
| DbValue.DataKept | agent/internal/cms/dbclean.go:242-258 | serialized data: fails exactly when some string cannot be cleaned and stays exactly when none is reported; a rewritten value reads back completely, as the old tree with just the reported spans gone from its strings |
| DbValue.TextKept | agent/internal/cms/dbclean.go:260-267 | plain text: the result is exactly the old value without the reported spans, no longer reported, and still JSON when it was; otherwise it fails |
| DbValue.WrittenIsData | agent/internal/cms/dbclean.go:242-258 | a serialized array, object or string is taken as data, with any white space behind it, and read as what was written |
| DbValue.SiteUrlExact | agent/internal/cms/dbclean.go:329-340 | the address kept is the text in front of the first markup without the white space around it, exactly when that is an address |
| DbValue.SiteUrlKept | agent/internal/cms/dbclean.go:328-338 | a cleaned site address is an address, was in the value, holds no markup and is left alone by another cleaning |
| DbProtocol.Manager.CleanOne | agent/internal/cms/dbclean.go:97-168 | a cleaning is read, save, update in order, whatever others write between; the status changes only as said |
| DbProtocol.Manager.RestoreOne | agent/internal/cms/dbclean.go:189-237 | a restoring is load and conditional write |
| DbProtocol.Manager.UpdateWhere | agent/internal/cms/dbclean.go:158-165 | the write happens if and only if the row still holds the value |
| DbProtocol.Manager.Latest | agent/internal/cms/dbclean.go:191-192 | the newest saved value of a finding |
| DbProtocol.StepKeeps | agent/internal/cms/dbclean.go:130-236 | every step keeps: each write replaced the value the row really had, cleanings and restorings only pair a saved value with its cleaned form |
| DbProtocol.RunKeeps | agent/internal/cms/dbclean.go:130-236 | so does every run of any number of callers and outside writers, and nothing saved or logged is lost |
| DbProtocol.RestoreExact | agent/internal/cms/dbclean.go:207-235 | a restoring puts the newest saved value back exactly when the row holds its cleaned form |
| DbProtocol.RestoreGives | agent/internal/cms/dbclean.go:207-235 | over the cleaned form of a value a restoring gives that value if and only if it is the newest saved one of the finding |
| DbProtocol.NewestAfterRun | agent/internal/cms/dbclean.go:130-192 | over any run the newest saved value is that of the last save of the same finding, or the one before the run |
| DbProtocol.CleanThenRestore | agent/internal/cms/dbclean.go:152-235 | a cleaning, then any run that leaves its value in the row, then a restoring give back the original if and only if the finding's last save in between, if any, saved the original |
| DbProtocol.StaleBackup | agent/internal/cms/dbclean.go:153-164 | a cleaning that saved an older value and then lost the race makes a later restoring refuse: "xE" is saved behind the value "yE" that was cut to "y" |
| SitePasses.SitePasses.Slots | agent/internal/captcha/sitepasses.go:138-157 | the accepted values per slot, today's first |
| SitePasses.AcceptedDays | agent/internal/captcha/sitepasses.go:145-154 | a value is accepted exactly when it is the present one of a day from two days before the week to the day after it |
| SitePasses.SitePasses.GiveAll | agent/internal/captcha/sitepasses.go:195-222 | a pass is recorded for every address given, after old passes and generations are dropped |
| SitePasses.SitePasses.DropOld | agent/internal/captcha/sitepasses.go:225-250 | expired passes and generations of days no longer accepted go, a flood empties the list |
| SitePasses.SitePasses.Used | agent/internal/captcha/sitepasses.go:255-290 | a report withdraws the slot exactly when its value was not given to the address's network lately and the slot is not quiet |
| SitePasses.WithdrawnDays | agent/internal/captcha/sitepasses.go:279-283 | withdrawing bumps exactly the days of the slot from first to last and deletes exactly their values |
| SitePasses.RunGrows | agent/internal/captcha/sitepasses.go:225-290 | over any run the generations of days that still count never go down, restarts included |
| SitePasses.WithdrawnForGood | agent/internal/captcha/sitepasses.go:138-290 | a value accepted before a withdrawal of its slot is in no later list, in the same week or a later one |
| SitePasses.InTimeFor | agent/internal/captcha/sitepasses.go:270-276 | a pass is in time, that is alive and of a day a report looks back to, for 48 hours at least, and for its whole life exactly if it was given before the last hour of a day |
| SitePasses.HasAfterRun | agent/internal/captcha/sitepasses.go:195-290 | a given pass stays recorded as long as it is in time, whatever happens short of the slot's withdrawal, a flood reset or the loss of this pass in a restart |
| SitePasses.NeverOwnPass | agent/internal/captcha/sitepasses.go:255-276 | while the pass is in time no report from the visitor's network withdraws the slot |
| SitePasses.OwnPassExact | agent/internal/captcha/sitepasses.go:255-276 | with no other pass of the slot for the network and the slot not quiet, a report withdraws the slot if and only if the pass has ended or its day is more than two days back |
| SitePasses.GensStay | agent/internal/captcha/sitepasses.go:225-289 | over any timely run that withdraws nothing of a slot, no generation of a day still kept changes |
| SitePasses.AcceptedWhileGood | agent/internal/captcha/sitepasses.go:131-137 | the value given with a pass is, after any such run, in every list of its week and of the two days after its own |
| SitePasses.AcceptedBefore | agent/internal/captcha/sitepasses.go:131-137 | and the value given on a first day is already in every list made in the week before |
| SitePasses.LatePass | agent/internal/captcha/sitepasses.go:270-276 | a concrete pass, of the last second of a day, that still lives a second after 48 hours and is held against its visitor |
| SitePasses.SameNetworkIsOne | agent/internal/captcha/sitepasses.go:177-187 | being one network is an equivalence |
| SitePasses.NetworkIs | agent/internal/captcha/sitepasses.go:162-188 | two addresses are one network exactly if they begin with the same two numbers, or with the same four groups |
| SitePasses.QuietAfter | agent/internal/captcha/sitepasses.go:255-289 | for three hours after a slot was withdrawn no report withdraws it again, and then the next misuse does |
| CentralPass.Central.PassRecord | agent/internal/core/central.go:564-583 | refuses without any change when a text is no address; otherwise takes exactly the recording step |
| CentralPass.Central.PassFor | agent/internal/core/central.go:535-560 | one call among everybody else's steps: it ends in the state of the step machine after recording, taking the lock and, unless a later reload already ran, waiting, marking, reloading and moving the mark only on success; it returns without error exactly then |
| CentralPass.Central.Apply | agent/internal/core/central.go:555-557 | the reload starts, reads the stored list without ended passes at some time in between, and ends |
| CentralPass.Central.PassMap | agent/internal/core/central.go:505-515 | the list without ended passes |
| CentralPass.StepKeeps | agent/internal/core/central.go:535-583 | every step of every caller keeps the protocol's invariant |
| CentralPass.RunKeeps | agent/internal/core/central.go:535-583 | so does every interleaving |
| CentralPass.RecordsAre | agent/internal/core/central.go:565-584 | in every run a recorded pass is one that was asked for: for its addresses, ending that many minutes after it was recorded |
| CentralPass.ReturnedInForce | agent/internal/core/central.go:535-560 | starting with any stored list: when a caller returned without error, a reload that started after its addresses were stored has succeeded and read a list with them in it |
| CentralPass.MarksGrow | agent/internal/core/central.go:540-559 | the mark never passes the generation, reloads run one at a time and each success covers new passes |
| CentralPass.NoFurtherReload | agent/internal/core/central.go:542-544 | a pass at or below the mark never causes a reload, whatever happens around it |
| SettingsApply.Applier.QueueJob | agent/internal/core/core.go:1035-1049 | queueing keeps the oldest settings, sets the state and starts a worker exactly when there is none |
| SettingsApply.Applier.TakeJob | agent/internal/core/core.go:1053-1061 | the worker takes the pending job or stops |
| SettingsApply.Applier.FinishJob | agent/internal/core/core.go:1069-1079 | the outcome is recorded only when nothing more is pending |
| SettingsApply.Applier.Work | agent/internal/core/core.go:1051-1081 | the worker's loop among other people's changes: it takes, applies and records round by round and stops exactly when it finds nothing pending |
| SettingsApply.RoundsRun | agent/internal/core/core.go:1051-1081 | what the loop does is a run of the steps of the worker and of others |
| SettingsApply.RunKeeps | agent/internal/core/core.go:1022-1081 | in every run at most one worker and one apply; "applying" exactly while something is pending or being applied, and how the last apply ended otherwise |
| SettingsApply.SeenExactly | agent/internal/core/core.go:1035-1049 | in every run and queueing order a queued change is in a job for good, and that job starts from settings before the change if and only if nothing was pending, or a job from before the change, when it was queued |
| SettingsApply.NothingUnseen | agent/internal/core/core.go:1019-1081 | when every change is queued in such a moment, none is unseen |
| SettingsApply.OrderIsTurn | agent/internal/core/core.go:947-958 | a change queued after all older ones is queued in such a moment |
| SettingsApply.StoppedMeansApplied | agent/internal/core/core.go:1051-1060 | when the worker has stopped, the apply of every queued change's job has ended, and the change lies between the settings before and those read if and only if it was queued in such a moment |
| SettingsApply.AtRest | agent/internal/core/core.go:1069-1079 | whenever the worker has stopped, the status is how the last apply ended |
| SettingsApply.FailureShows | agent/internal/core/core.go:1069-1079 | a failed apply shows when it ends exactly if nothing was pending, and at rest exactly if besides nothing was queued since; otherwise a later apply decided the status |
| SettingsApply.Drains | agent/internal/core/core.go:1051-1081 | however its applies end, the worker always has a next step until it has stopped, and with no more changes stops after at most six |
| SettingsApply.OutOfOrder | agent/internal/core/core.go:947-958 | queued out of save order, a change can be missed |
| SettingsApply.FailureHidden | agent/internal/core/core.go:1070-1078 | a failed apply is forgotten when a change is queued meanwhile: the state ends "applied" |
| IpdbParts.Collector.Receive | agent/internal/core/core.go:1546-1586 | collects the newest copies of one version's parts and hands on their concatenation in part order exactly when the last one missing arrives |
| IpdbParts.FilledAll | agent/internal/core/core.go:1568-1576 | the count equals the number of parts exactly when none is missing |
| IpdbParts.PutIn | agent/internal/core/core.go:1568-1572 | one part put in raises the count by one exactly when it is new |
| IpdbParts.JoinedIsAssembled | agent/internal/core/core.go:1577-1580 | joining the slots gives the list assembled from the newest copies |
| Cleared.Cache.Save | agent/internal/ai/ai.go:232-255 | a verdict is stored or kept out as said; the cache stays equal to the table if and only if it is not a clean verdict without a hash while an untrusted finding has none |
| Cleared.Cache.NoteCleared | agent/internal/ai/ai.go:452-468 | exactly the saved hash is added or taken out |
| Cleared.Cache.LoadCleared | agent/internal/ai/ai.go:397-415 | loading gives exactly what the query over the table gives |
| Cleared.Cache.IsCleared | agent/internal/ai/ai.go:436-450 | answers what the table clears, loading on first use |
| Cleared.Cache.AdminCleared | agent/internal/ai/ai.go:426-433 | answers what an administrator of this server cleared |
| Cleared.NoteAgrees | agent/internal/ai/ai.go:452-468 | the cache follows the table for a verdict if and only if it is not the case of an empty hash with an untrusted finding |
| Cleared.AdminStays | agent/internal/ai/ai.go:229-240 | over any run of saves an administrator's row is only replaced by an administrator's decision |
| Cleared.OnlyAdvises | agent/internal/ai/ai.go:345-366 | a verdict of the AI, here or on another server, clears nothing |
| Cleared.AdminDecides | agent/internal/ai/ai.go:345-366 | an administrator's verdict clears content exactly if it is clean and sure, whatever is known of it |
| Cleared.PortalDecides | agent/internal/ai/ai.go:345-366 | one on the portal does too, but not content an untrusted signature caught |
| Cleared.MarkingClears | agent/internal/ai/ai.go:380-395 | the marking clears exactly the content the AI had put back and no untrusted signature caught |
| ClearedSteps.RightExactly | agent/internal/ai/ai.go:232-255 | over any run of saves that overlap the cache is right about a hash if and only if the verdict it took in last says what the row says |
| ClearedSteps.InTurnRight | agent/internal/ai/ai.go:232-255 | so it is right whenever no save waits to be noted, if each save of the hash was noted before the next was written |
| ClearedSteps.RowSafe | agent/internal/ai/ai.go:233-239 | an administrator's row is safe from every run without another administrator's decision if and only if no other save of it has looked already and is still to write |
| ClearedSteps.OneSave | agent/internal/ai/ai.go:232-255 | with nothing in between the steps are one save |
| ClearedSteps.NotedLate | agent/internal/ai/ai.go:254-254 | a note that comes late leaves an administrator's decision out of the cache |
| Base64.Decoded | agent/internal/captcha/captcha.go:448-448 | base64url text holds no dot and reads back as it was |
| Base64.CharOf | agent/internal/captcha/captcha.go:448-448 | a value of six bits is written as its letter of the alphabet in section 5 of RFC 4648 |
| Base64.SixAtATime | agent/internal/captcha/captcha.go:448-448 | the four values of three bytes are their 24 bits, six at a time from the highest |
| Challenge.OpenSeal | agent/internal/captcha/captcha.go:440-512 | opening undoes sealing exactly until the expiry, for at most eight digits, and for the address it was sealed for: for another exactly if the keyed hash collides on the two texts of address, body and expiry |
| Challenge.ChangedRefused | agent/internal/captcha/captcha.go:440-512 | an id whose body or expiry was changed opens only if the keyed hash collides on the old and the new text |
| Challenge.HexTells | agent/internal/captcha/captcha.go:420-424 | the hexadecimal text tells bytes apart as far as it is kept |
| Challenge.KeyStreamIs | agent/internal/captcha/captcha.go:452-461 | the key stream is the hash of the nonce again and again |
| Challenge.Server.NewChallenge | agent/internal/captcha/captcha.go:426-436 | a new challenge opens to its own digits and expires in five minutes |
| Challenge.Server.KeyStreamOf | agent/internal/captcha/captcha.go:452-461 | the doubling loop gives a stream of the length asked |
| Challenge.Server.Open | agent/internal/captcha/captcha.go:488-512 | the checks in order give the digits or nothing |
| Challenge.Server.SpendId | agent/internal/captcha/captcha.go:465-485 | old entries go when the table is full; a known id is refused, a new one remembered for five minutes |
| Challenge.Server.Verify | agent/internal/captcha/captcha.go:542-546 | an answer counts exactly when the id opens, is spent for the first time and says the digits |
| Challenge.AcceptedAgain | agent/internal/captcha/captcha.go:465-546 | over every run of challenges made and answered, an id is accepted again only by an answer that opened before the id expired and is spent after it |
| Challenge.OnceOnly | agent/internal/captcha/captcha.go:465-546 | so when every answer is spent before its id expires, no id is accepted twice |
| Challenge.SecondTime | agent/internal/captcha/captcha.go:465-485 | a remembered id is let through again if and only if the table is full and its entry has ended |
| Challenge.AcceptedTwice | agent/internal/captcha/captcha.go:465-546 | a run of a thousand challenges in which an id is accepted twice: sent in its last second and spent in the next |
| Limiters.Counter.Hit | agent/internal/firewall/bruteforce.go:113-141 | returns the exact number of hits in the window since the last reset, filtering and cleanup notwithstanding |
| Limiters.Counter.Reset | agent/internal/firewall/bruteforce.go:144-148 | forgets exactly one address |
| Limiters.RecentCounts | agent/internal/firewall/bruteforce.go:124-129 | filtering keeps as many times as there are after the cut |
| Limiters.RecentTwice | agent/internal/firewall/bruteforce.go:124-129 | filtering old times away earlier does not change what a later filter keeps |
| Limiters.DroppedAgrees | agent/internal/firewall/bruteforce.go:132-139 | dropping addresses whose last hit is too old changes no later count |
| Limiters.Attempts.TooMany | agent/internal/captcha/captcha.go:268-300 | refuses exactly the eleventh attempt in ten minutes; an unknown address, unrecorded, exactly under a flood of addresses that tried in the last ten minutes |
| Limiters.Cap.DropOld | agent/internal/ai/ai.go:197-204 | filtering a slice in place keeps exactly the recent times in order |
| Limiters.Cap.Allow | agent/internal/ai/ai.go:191-210 | lets a file through exactly when fewer than the cap were let through in the last hour, counted in the log of all calls |
| Limiters.NeverMore | agent/internal/ai/ai.go:190-210 | never more than the cap in any hour, wherever the hour starts |
| ListEdit.ApplyListEdit | web/src/listEdit.ts:30-42 | the loop gives the kept entries and then the first new entry of each key |
| ListEdit.ThreeWay | web/src/listEdit.ts:22-42 | exactly the current entries the page did not remove, in order, then what it added, each once |
| ListEdit.SameEntries | web/src/listEdit.ts:67-67 | sending the page's own list when nothing changed gives the same entries |
| ListEdit.MergeListPatch | web/src/listEdit.ts:58-71 | the recursive loop computes the specified patch |
| ListEdit.AppliedIsMerge | web/src/listEdit.ts:22-42 | entry by entry: the current entries whose key was not loaded and then left out, at their places in order, and then the entries sent under keys neither loaded nor kept, the first of each |
| ListEdit.EveryDepth | web/src/listEdit.ts:58-71 | at every path a list that changed since it was loaded comes out as that merge of the lists loaded, current and sent at the path; every other list and value comes out as sent, and nothing is added |
| ListEdit.NothingToMerge | web/src/listEdit.ts:46-50 | a patch without lists the page had loaded comes out as it is |

## Left out

- Text.Atoi: does not model the 64-bit range of numbers in texts; numbers are unbounded, so an overflow is not refused.
- ClamLoader.AddLogic: does not model PCRE subsignatures; a signature with one is refused here, and the scan has no PCRE counts. The loader's two loops over the subsignatures (register, then note the use) run one after the other.
- ClamEngine.Engine.Register: patterns, segments and logical signatures are values in the engine's lists, not objects shared by reference; the loader changes a copy and stores it back.
- ClamEngine.Engine.HashLine: the hash functions are parameters of the engine and hexadecimal texts are compared as texts.
- ClamIndex.KeysTellExactly: says nothing of segments with a choice that holds "(" or ")".
- ClamCase.LoweredExactly: is about patterns without an offset; `ClamCase.LoweredMeans` holds at every offset. `ClamTextMeaning.BodyTextMeans` leaves out half-open capitals and excluded choices in lowercased views, and dropped gaps that demand bytes or move a fixed start.
- ClamDatabase.Load: whether a line's name is kept (the name filter, the ignore list, the limit on the number of signatures) is given with the line; taking ignored names out again afterwards is not modelled.
- ClamDatabase.DatabaseMeans: states body signatures in terms of what their texts denote; logical signatures stay in terms of how often the patterns compiled from their texts match.
- ClamVerdict.VerdictMeans: states the verdict for segments with distinct keys and where no cap, window or budget is reached; soundness without the caps is `ClamVerdict.CountSound`, and `ClamLimits.SmallContents` and `ClamLimits.BudgetHolds` say when none is.
- DbValue.WalkStrings: rewrites trees as values and returns the new tree; the program rewrites its nodes in place.
- DbValue.CleanText: the scanner is a parameter of which only the bounds of its spans are known; TrimSpace knows the ASCII spaces only.
- DbProtocol.Manager.CleanOne: leaves out which table and column a finding may name, the categories that are never cleaned and database errors; a comparison in the row's WHERE clause is exact equality.
- SitePasses.SitePasses.Used: sub-second times, the parsing of addresses, and a state file that cannot be read are not modelled; the delay in front of a WAF apply after a withdrawal is not either.
- CentralPass.ReturnedInForce: the WAF reload is a start, a read of the list and an end; how long the wait for the reload gap is, and reloads started elsewhere, are not part of this model.
- SettingsApply.StoppedMeansApplied: says that an apply that covers the change has ended; that it succeeded is the firewall's and the WAF's matter. What an apply reloads is not modelled, nor are changes whose saver applies them itself.
- IpdbParts.Collector.Receive: two complete lists handed on by different callers may reach the firewall in either order.
- Cleared.Cache.Save: the findings do not change while the cache is in use, and storing never fails. Each save is one step here; saves that overlap are in `ClearedSteps`.
- Challenge.AcceptedAgain: an answered id is one that was made here; that nobody else can make one is the keyed hash's promise. The limit on attempts per address is not part of these runs.
- Limiters.Counter.Hit: the window is the same for all calls of a counter.
- ListEdit.MergeListPatch: the key of an entry is a parameter; objects are lists of named fields.
- Reading database files and archives, pruning ignored names, and the statistics of the loader.
- HTTP handlers, templates, the CAPTCHA picture, proof of work, provider checks, SQL, notification texts and audit checks: single branches or plumbing.
- The speed of the filter and of the caches: only their effect on results is modelled.

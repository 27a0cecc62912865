# Privacy Shield: a verified model

Privacy Shield replaces personal data in a text by opaque tokens, keeps the plaintext encrypted in a
Redis vault under one data encryption key (DEK) per organisation, and later turns tokens back into text.
This project models the parts of the service whose correctness depends on interleavings, on string
offsets or on counting, and proves what they are meant to guarantee.

| file | models |
|---|---|
| `VaultStore.dfy` | the Redis keys of one organisation, symbolic encryption, the effect of each transaction |
| `VaultProtocol.dfy` | any number of clients running tokenise, get-or-create-DEK, rotate and flush, one Redis command per step, with WATCH as a dirty flag |
| `VaultSafety.dfy` | the invariant of every run, and the refinement of a plain map |
| `VaultRotation.dfy` | rotation is all-or-nothing and once-only; DEK creation converges |
| `VaultCalls.dfy` | tokenise calls follow their own allocation of hashes, store every entry, and nobody else stores for them |
| `Contention.dfy` | when the bounded retries of DEK creation, of a store and of a rotation can give up |
| `VaultProgress.dfy`, `CallProgress.dfy` | an undisturbed rotation commits and an undisturbed call returns |
| `VaultExpiry.dfy` | how long tokens and request sets last, over every run |
| `VaultCount.dfy` | what a rotation reports while others store and flush |
| `VaultIndex.dfy`, `VaultFlush.dfy`, `VaultPending.dfy` | the request sets: exactly when a flush leaves them covering every live token, at once and for good, and counting while others write |
| `VaultAdapter.dfy` | the adapter and the rotation and rehydration use cases as imperative methods, proved against the same transactions |
| `TokenFormat.dfy` | token grammar, parser, printer, scanner, collision candidates |
| `SpanFusion.dfy` | overlap resolution and merging of detections |
| `CollisionTracker.dfy` | allocation of token hashes within a call |
| `CarryOver.dfy`, `Rehash.dfy` | the carry-over map across the texts of a request, and exactly when a hash can come to stand for two values |
| `TextPipeline.dfy` | right-to-left replacement and the round trip of a text |
| `RequestRun.dfy`, `SameDek.dfy` | the round trip over a whole run, for one call and for the texts of a route call: tokenise, interleave anything, rehydrate |
| `Separate.dfy`, `Collisions.dfy` | calls that share a request but no carry-over map: exactly when they are safe together, and runs in which they are not |
| `Quota.dfy`, `RateLimit.dfy`, `Histogram.dfy` | monthly quota, per-minute limiter, latency histogram |
| `Matching.dfy` | greedy IoU matching of predicted against gold spans |
| `Bio.dfy`, `BioPieces.dfy` | BIO labelling and its decoder, on aligned entities and for any labels |
| `NerFusion.dfy`, `NerRules.dfy` | punctuation trimming and merging of predicted entities, and both rules in terms of characters |
| `Wrappers.dfy`, `Sorting.dfy` | Option, Python slices, set sizes; the stable sort |

How the vault is modelled. A step is one Redis command, or one EXEC. `WATCH` is a flag on the client that every
command touching a watched key sets; EXEC succeeds only while it is clear. The rotation snapshot is an atomic read of
DEK and revision followed by one GET per key, and a SCAN is only assumed to return the keys that are present and
unchanged from its start to its end. Time is a step that may happen anywhere and drops what is past its deadline; such
a drop may or may not dirty a WATCH. A client may stop anywhere. Keys, revisions and nonces come from one supply that
never repeats; a ciphertext is the tuple of its DEK, associated data, plaintext and nonce, and opens only under the
same DEK and associated data. A tokenise call carries its tracker, its memo and its entries, so the hash it stores a
value under is the one its own allocation chose; the HMAC of each span is an arbitrary string, except where a theorem
is about one HMAC function. A log of puts, drops and commits records what each step means for the plain vault.

Where code and documentation differ, the model follows the code. The limiter's comment calls it a sliding window; it
counts in fixed minutes. The comment of `get_or_create_dek` speaks of a Lua script; the adapter uses WATCH/MULTI.

Some statements that one would expect are false of the code. Each has a counterexample and an exact condition:
- The text comes back unchanged: if and only if every one-character gap that fusion merged over is a space
  (`RequestRun.ExactIffSpaces`). Two names on two lines come back on one (`Collisions.LineBreakLost`).
- A hash stands for one value across the texts of a request: a text leaves every hash safe, from the next text on and
  for as long as the texts in between do too, if and only if every carried value that recurs in it is given its carried
  hash again (`Rehash.KeepsIffSafe`); texts that all do so never share a hash (`CarryOver.OneEach`), and one HMAC
  function ensures it (`CarryOver.OneRequest`). If a carried value loses a base hash, the next value with that HMAC is
  given it (`Rehash.LostIsReused`, `Rehash.RotationBetweenTexts`).
- Calls that share a request but no carry-over map are safe together, whether they return, raise or run side by side:
  if and only if the HMAC is injective on the values they tokenise (`Collisions.SafeIffInjective`). Of two such calls
  on one value each, the first text comes back if and only if the tokens differ or the values agree
  (`Collisions.SecondCallOverwrites`).
- The limiter allows at most its limit in any sixty seconds: if and only if the window is a minute bucket or the limit
  is zero (`RateLimit.SlidingIffBucket`); otherwise two bursts see exactly twice the limit (`RateLimit.TwiceTheLimit`).
- The request index covers every live token: the end of a flush keeps this if and only if every token stored for the
  request since the flush began has been dropped again (`VaultFlush.FlushKeepsIndexIff`). Up to tokens whose writer has
  still to register them, it keeps it if and only if every token of the request that was stored since the flush began,
  or waited for its writer then, has been dropped again or waits for a writer now (`VaultPending.FlushLastsIff`). A
  store and its registration between the commands of a flush break both (`VaultIndex.RaceLosesToken`).
- Refining predicted entities twice equals refining them once: if and only if no merged address ends in a known
  abbreviation that was joined over a comma (`NerFusion.FuseTwice`, `NerFusion.AbbreviationAfterComma`).

## Model

| member | source | states |
|---|---|---|
| VaultSafety.Refinement | app/infrastructure/adapters/redis_vault.py:57-84 | In every interleaving from the empty vault, the live token keys are exactly those of the plain map that the log of puts and drops describes, with the same deadlines, and each decrypts under the one stored DEK to the text its last writer stored |
| VaultSafety.StepKeeps | app/infrastructure/adapters/redis_vault.py:57-84 | Every step of every client, and every expiry, keeps the invariant: all live tokens are sealed under the stored DEK, each snapshot that is still current covers every live token, and the encrypted vault equals the replayed log |
| VaultSafety.Stable | app/infrastructure/adapters/redis_vault.py:283-316 | What a client knows in the middle of its call (a checked DEK, a complete snapshot, a list of live keys) survives any command of another client, or its WATCH is dirty |
| VaultSafety.PrepareKeeps | app/application/rotate_dek.py:33-45 | If DEK and revision are still those read before the scan, every live token is among the scanned ciphertexts, unchanged, however keys were written, expired or flushed during the scan |
| VaultSafety.ExecKeeps | app/infrastructure/adapters/redis_vault.py:297-316 | The EXEC of a rotation re-encrypts every live token with the same plaintext and deadline; the plain map does not change |
| VaultRotation.RotationIsAtomic | app/infrastructure/adapters/redis_vault.py:283-316 | Each step of a rotation either changes nothing in the vault, or is the commit: no key added or removed, no deadline moved, no plaintext changed, the result recorded once, and nothing opens under the retired DEK |
| VaultRotation.StepLog | app/infrastructure/adapters/redis_vault.py:283-316 | A result is recorded exactly by the step that logs a commit, and only for an operation id without one |
| VaultRotation.RotatesOnce | app/application/rotate_dek.py:27-51 | For one operation id, over any run with any number of callers and retries, at most one rotation takes effect and every caller that returned reports its recorded count |
| VaultRotation.CreationNeverOverwrites | app/infrastructure/adapters/redis_vault.py:171-191 | A stored DEK is replaced by a rotation commit and by no other step |
| VaultRotation.CreatorsConverge | app/infrastructure/adapters/aes_crypto.py:126-150 | Any number of concurrent get_or_create_dek calls return the same DEK, the stored one, as long as no rotation commits |
| VaultCalls.ReturnedMeansStored | app/application/tokenize_text.py:182-236 | A tokenise call that returned has given its spans the entries of the span loop and has stored every one of them under its request, also when stores were refused and repeated under a newer DEK |
| VaultCalls.StoresAgree | app/application/tokenize_text.py:191-236 | Over every run, when the calls of a request have returned and agree on what each hash stands for, so does every store ever made for the request, also those of refused and repeated attempts |
| Contention.CreationNeverContends | app/infrastructure/adapters/redis_vault.py:171-191 | In no run does DEK creation give up: a lost WATCH means that a DEK is stored, and the next attempt finds it |
| Contention.StoreContention | app/application/tokenize_text.py:202-216 | A tokenise call gives up storing a token only if at least five rotations committed since the call began |
| Contention.RotationContention | app/application/rotate_dek.py:32-51 | A rotation gives up for contention only if at least five stores, commits or losses of tokens were logged since it began, one in each round |
| Contention.FiveAttempts | app/application/tokenize_text.py:202-216 | With a DEK stored, a refused store gives up if and only if five attempts have failed; a refused round of a rotation that is not its fifth leads to the next one |
| Contention.UndecryptableNeedsCommit | app/application/rotate_dek.py:33-45 | A rotation fails to decrypt a scanned token only if another rotation committed since it read the DEK |
| VaultProgress.AloneCommits | app/application/rotate_dek.py:27-51 | From every reachable state with a DEK, a rotation commits by its own steps alone and reports the number of live tokens |
| VaultCount.CommitCountsLive | app/infrastructure/adapters/redis_vault.py:283-316 | Whatever other clients store or flush between its WATCH and its EXEC, a rotation that commits with no time passed reports exactly the number of tokens then in the vault |
| CallProgress.CallAlone | app/application/tokenize_text.py:191-236 | From every state with a DEK, a call on any spans, HMACs and carried tokens for which the allocation succeeds, and that no other client disturbs, stores the token of every entry under that DEK and returns; all other tokens stay as they are |
| Collisions.SecondCallOverwrites | app/application/tokenize_text.py:182-184 | Of two undisturbed calls on one request without a shared carry-over map, on one value each, the first text comes back if and only if the two hashes differ or the two values agree; with one hash it comes back as the second value |
| Separate.SeparateCallsRehydrate | app/application/tokenize_text.py:182-236 | Over any run, with any calls on the request, returned, raised, unfinished or concurrent: each returned one rehydrates, if the HMAC is injective on the values tokenised for the request |
| Collisions.SafeIffInjective | app/application/tokenize_text.py:182-236 | Calls on a set of values that share no carry-over map all rehydrate, in every run, if and only if the HMAC is injective on the set |
| Collisions.LineBreakLost | app/domain/services/span_fusion.py:36-50 | The text `ab`, line break, `cd`, detected as two names, rehydrates to `ab cd` |
| VaultFlush.CountCoversLive | app/infrastructure/adapters/redis_vault.py:234-255 | Whatever runs between its commands, the sum of the request set sizes is never below the number of tokens that were live from its start to its end, in every run with one TTL whose flushes end with every token stored for their request since they began dropped again |
| VaultFlush.AlwaysIndexed | app/infrastructure/adapters/redis_vault.py:57-84 | In such a run every live token is registered under its request at every moment, and its set expires no earlier |
| VaultFlush.NoneLiveIffQuenched | app/infrastructure/adapters/redis_vault.py:126-156 | When a flush that began in an indexed state comes to its DEL, no token of the request is live if and only if every token stored for it since SMEMBERS has been dropped again |
| VaultFlush.FlushKeepsIndexIff | app/infrastructure/adapters/redis_vault.py:126-156 | The DEL of a flush keeps every live token registered if and only if every token stored for the request since SMEMBERS has been dropped again |
| VaultFlush.LiveIffUndropped | app/infrastructure/adapters/redis_vault.py:57-84 | A token is live exactly if some store of it was followed by no flush or expiry of it |
| VaultIndex.IndexedStep | app/infrastructure/adapters/redis_vault.py:108-124 | With one TTL, every step of every client and every expiry keeps each live token registered, in a set that outlives it; the DEL of a flush does if no token of its request is live |
| VaultExpiry.SetDeadline | app/infrastructure/adapters/redis_vault.py:108-124 | Over every run with one TTL, a request set is there until exactly one TTL after the last store or registration of its request |
| VaultExpiry.TokenDeadline | app/infrastructure/adapters/redis_vault.py:74-82 | Over every run with one TTL, a token expires exactly one TTL after it was last stored, whatever rotations rewrite it |
| VaultExpiry.DeadlinesBounded | app/infrastructure/adapters/redis_vault.py:57-84 | So at every moment no set and no token is past its deadline, and none has more than the TTL left |
| VaultExpiry.QuietExpires | app/infrastructure/adapters/redis_vault.py:234-255 | A request for which nothing was stored or registered for one TTL has no set and no live token, and a count at that moment does not include it |
| VaultExpiry.RegisteredWasPut | app/infrastructure/adapters/redis_vault.py:108-124 | Every pair that a request set holds at any moment of a run was stored before |
| VaultExpiry.TickExact | app/infrastructure/adapters/redis_vault.py:74-82 | When time passes, exactly the tokens and sets with a later deadline remain, unchanged |
| VaultIndex.FlushIsComplete | app/infrastructure/adapters/redis_vault.py:126-156 | When every live token is indexed, an undisturbed flush leaves no live token of its request, keeps the other requests' tokens untouched, and keeps the index complete |
| VaultIndex.RaceLosesToken | app/infrastructure/adapters/redis_vault.py:126-156 | A call that stores and registers a new value for the request between SMEMBERS and DEL, under a hash the flush has not seen, leaves a live token that the index does not know and that nobody is left to register |
| VaultPending.StepLasts | app/infrastructure/adapters/redis_vault.py:57-84 | With one TTL, every step keeps each live token registered or waiting for its writer to register it; the DEL of a flush does if the live tokens of its request all wait |
| VaultPending.FlushLastsIff | app/infrastructure/adapters/redis_vault.py:126-156 | The DEL of a flush keeps this if and only if every token of the request that was stored since SMEMBERS, or waited for its writer then, has been dropped again or waits for a writer now |
| VaultPending.AlwaysLasts | app/application/tokenize_text.py:230-233 | If every flush of a run ends so, each live token is registered or waits for its writer at every moment |
| VaultPending.CountCoversDone | app/infrastructure/adapters/redis_vault.py:234-255 | In such a run a count, whatever runs between its commands, is never below the number of tokens that were live, with their writers done, from its start to its end |
| VaultAdapter.RedisVault.Store | app/infrastructure/adapters/redis_vault.py:57-84 | A TTL that is not positive is an error; a DEK other than the expected one returns false; neither changes anything; otherwise exactly the store transaction of the protocol happens, and token and request set expire one TTL from now |
| VaultAdapter.RedisVault.SetDekIfAbsent | app/infrastructure/adapters/redis_vault.py:171-191 | With rivals that may store a DEK during any attempt: returns the DEK that was there, or that of the first rival, or the candidate; nothing else changes and the contention error never comes |
| VaultAdapter.RedisVault.CountOrgTokens | app/infrastructure/adapters/redis_vault.py:234-255 | The accumulated total is the number of distinct registered (request, hash) pairs |
| VaultAdapter.RedisVault.FlushRequest | app/infrastructure/adapters/redis_vault.py:126-156 | Removes exactly the registered tokens and the request set, and returns how many of them were still live |
| VaultAdapter.RedisVault.SnapshotRotation | app/infrastructure/adapters/redis_vault.py:271-281 | The scan loop collects DEK, revision and every live ciphertext |
| VaultAdapter.RedisVault.CommitRotation | app/infrastructure/adapters/redis_vault.py:283-316 | A recorded result is returned as it is; a changed DEK, revision or ciphertext returns nothing and changes nothing; otherwise exactly the commit transaction over the snapshot keys still live |
| VaultAdapter.RedisVault.RotateDek | app/application/rotate_dek.py:27-51 | With rivals that may store a token during any round: a recorded count, a missing DEK or an undecryptable token change nothing; otherwise the first undisturbed round of five reports the count and keeps every plaintext and deadline, the rivals' too, under a new DEK; without one the answer is contention and only the rivals' stores remain |
| VaultAdapter.RedisVault.Rehydrate | app/application/rehydrate_text.py:61-94 | An error exactly when a found token is stored and there is no DEK; otherwise the text with every resolvable token replaced, and their number |
| RequestRun.TokenizeThenRehydrate | app/application/tokenize_text.py:182-236 | Over any run of stores, rotations, DEK creations, flushes and expiries: when the only call of a request returned, its tokens were neither expired nor flushed, and the rest of the text holds no token of the request, rehydrating gives the text with each fused span replaced by its own text |
| RequestRun.ExactIffSpaces | app/domain/services/span_fusion.py:36-50 | In the same runs, when detections carry their slices, the original text comes back if and only if every one-character gap bridged by fusion is a space |
| RequestRun.RouteRehydrates | app/infrastructure/api/routes.py:125-180 | The same for every text of a route call, whose calls are seeded one after the other from the carry-over map, if carried values keep their hashes |
| SameDek.RouteUnderOneDek | app/infrastructure/api/routes.py:125-180 | The same for every text of a route call, with nothing assumed about its hashes, if no rotation commits while its calls run; any number may commit before and after |
| TextPipeline.EndToEnd | app/application/rehydrate_text.py:61-94 | In every reachable state that holds the tokens of a text as they were assigned, its rehydration is the text with each span replaced by its own text |
| TextPipeline.NormalisedExact | app/domain/services/span_fusion.py:36-50 | The text with each fused span replaced by its own text is the original if and only if every bridged gap is a space |
| TextPipeline.RoundTrip | app/application/rehydrate_text.py:104-131 | Rehydrating a text with tokens put in place of its edits gives the text with their plaintexts put in the same places, if the kept pieces hold no resolvable token |
| TextPipeline.FindInserted | app/domain/services/token_format.py:97-114 | The scanner finds, in a text with tokens inserted, exactly the tokens of each kept piece and the inserted tokens, in order, at their shifted offsets; no match straddles an edge |
| TextPipeline.ReplaceSpans | app/application/tokenize_text.py:280-299 | Right-to-left replacement equals the left-to-right concatenation of kept pieces and tokens |
| TextPipeline.ReplaceTokens | app/application/rehydrate_text.py:104-131 | Right-to-left substitution replaces exactly the resolvable tokens, and the count is their number |
| TextPipeline.FillIsSplice | app/application/rehydrate_text.py:120-131 | Splicing the plaintexts at the offsets the scanner reports equals replacing the tokens piece by piece |
| TextPipeline.SpliceIdentity | app/application/tokenize_text.py:280-299 | Replacing ranges by texts of their own length changes nothing if and only if each text is the slice it replaces |
| TextPipeline.LastPut | app/infrastructure/adapters/redis_vault.py:57-84 | A token that the plain vault holds was put there by a store with that text |
| TokenFormat.GroupsExact | app/domain/services/token_format.py:19-21 | The matcher accepts exactly the strings that the token pattern denotes, and splits them into type and hash |
| TokenFormat.PatternExact | app/domain/services/token_format.py:19-21 | A type is two or three lower-case letters; a hash is four to eight of the characters 0-9 and a-f, alone or with a low line and digits |
| TokenFormat.AsciiDigits | app/domain/services/token_format.py:19-21 | Of the characters below U+0660, exactly 0 to 9 count as digits in a suffix |
| TokenFormat.ParseUndoesFormat | app/domain/services/token_format.py:44-85 | Parsing returns (type, hash) for a string if and only if formatting that type and hash prints the string |
| TokenFormat.DocumentedTokens | app/domain/services/token_format.py:9 | The three documented tokens are what formatting prints, and parse to their types and hashes |
| TokenFormat.MatchLenExact | app/domain/services/token_format.py:97-114 | At a position the scanner's match is the unique prefix that the pattern accepts |
| TokenFormat.FindAround | app/domain/services/token_format.py:97-114 | Around a token in a text, the scanner finds the tokens before it, the token, and the tokens after it, as if the three stood alone |
| TokenFormat.FindAllExact | app/domain/services/token_format.py:97-114 | A result is returned if and only if the slice at its offsets parses to its type and hash |
| TokenFormat.FindAllTokens | app/domain/services/token_format.py:97-114 | The scanning loop returns what these statements are about |
| TokenFormat.CandidatesAreHashes | app/domain/services/token_format.py:117-141 | All ten collision candidates of an 8-character base are hashes that the token format accepts |
| TokenFormat.CandidatesDiffer | app/domain/services/token_format.py:117-141 | Two candidates are equal if and only if base and attempt are |
| TokenFormat.CandidateSpelling | app/domain/services/token_format.py:117-141 | The first candidate is the base, the others end in `_2` to `_10`, and there is no eleventh |
| CollisionTracker.PickExact | app/application/tokenize_text.py:84-104 | Allocation fails exactly when all ten candidates belong to other values, and otherwise returns the first that does not |
| CollisionTracker.Tracker.FindOrAllocate | app/application/tokenize_text.py:84-104 | The loop makes that choice and records nothing but the chosen hash |
| CollisionTracker.AssignTokens | app/application/tokenize_text.py:182-235 | The span loop, with its memo of values and its tracker, against the assignment function |
| CollisionTracker.AssignSound | app/application/tokenize_text.py:191-228 | Whatever hashes the DEKs of a call give, each entry carries its span's text, its token parses to its hash, and no hash of a call stands for two values |
| CollisionTracker.EntryExact | app/application/tokenize_text.py:191-228 | Each span gets the entry of the first span with its value, which carries that span's type, place and source, a token of that type, and the first candidate of that span's HMAC that no other value holds |
| CollisionTracker.RefusedIff | app/application/tokenize_text.py:191-198 | For an eight-character HMAC, a span is refused if and only if its value is new and its type is none of the fourteen, or all ten candidates stand for other values |
| CollisionTracker.AssignNext | app/application/tokenize_text.py:191-228 | One more span changes nothing given before; its entry is for its value, and is an old one if the value came before |
| CollisionTracker.Allocate | app/application/tokenize_text.py:182-228 | A call with its own tracker, seeded with the carry-over map it is given, returns the entries of the assignment |
| CarryOver.TokenizeTexts | app/infrastructure/api/routes.py:125-180 | The loop over the texts of a request, recording each call's entries in the carry-over map that seeds the next |
| CarryOver.TextsSound | app/infrastructure/api/routes.py:125-180 | If carried values keep their hashes, the carry-over map says after each text exactly what the tracker knew, and nothing a tracker knew is ever changed |
| CarryOver.OneEach | app/infrastructure/api/routes.py:125-180 | Across all texts of a request whose carried values keep their hashes, two entries have the same value if and only if they have the same hash |
| CarryOver.OneRequest | app/infrastructure/api/routes.py:125-180 | The same under one HMAC function, from an empty carry-over map, with nothing assumed about the hashes |
| Rehash.KeepsIffSafe | app/infrastructure/api/routes.py:125-180 | From any carry-over map that calls produced: no later text gives a hash handed out so far to another value, the next one or one after texts that kept theirs, if and only if every carried value that recurs in this text is given its carried hash again |
| Rehash.RequestKeepsIffSafe | app/infrastructure/api/routes.py:125-180 | The same after any texts of a request that began with an empty map and kept their hashes, for every HMAC |
| Rehash.LostIsReused | app/infrastructure/api/routes.py:125-180 | If a carried value loses its base hash, the next text whose only value has that HMAC is given it, whatever the value |
| Rehash.RotationBetweenTexts | app/infrastructure/api/routes.py:125-180 | Three texts, a rotation and a hash that comes round again: the third text's value has the first one's hash |
| SpanFusion.FuseShape | app/domain/services/span_fusion.py:94-121 | The fused spans are valid, sorted, pairwise disjoint, and no two neighbours could be merged further |
| SpanFusion.FuseIdempotent | app/domain/services/span_fusion.py:94-121 | Fusing twice equals fusing once, which detection followed by tokenisation relies on |
| SpanFusion.FuseOrderIndependent | app/domain/services/span_fusion.py:113-121 | The result does not depend on the order of the detections, if no two agree on start, length and source |
| SpanFusion.BestOfFusionSurvives | app/domain/services/span_fusion.py:56-91 | The detection that is best by source, then length, then sorted position survives overlap resolution |
| SpanFusion.DroppedIsBeaten | app/domain/services/span_fusion.py:56-91 | A detection that overlap resolution drops shares a character with another one that beats it: a regex detection only with a regex one at least as long |
| SpanFusion.FusedParts | app/domain/services/span_fusion.py:23-53 | A fused span runs from its first part to its last, all of its type; it is regex if and only if one of them is; its confidence is theirs averaged one after the other |
| SpanFusion.FusedTogether | app/domain/services/span_fusion.py:34-53 | Two neighbours end up in one fused span if and only if they have one type and at most one character between them |
| SpanFusion.MergeCoverage | app/domain/services/span_fusion.py:23-53 | Merging covers exactly the characters of the resolved spans and the one-character gaps between same-type neighbours |
| SpanFusion.FusedSlices | app/domain/services/span_fusion.py:36-50 | If detections carry their slices, each fused text has the length of its range, and all are slices if and only if each bridged gap is a space |
| SpanFusion.ResolveOverlapping | app/domain/services/span_fusion.py:56-91 | The loop that overwrites the last kept span, against the resolution function |
| SpanFusion.MergeAdjacent | app/domain/services/span_fusion.py:23-53 | The loop that extends the last merged span, against the merge function |
| Quota.NeverOverLimit | app/application/tokenize_text.py:248-277 | In every interleaving of increments and separate rollbacks, also abandoned ones, the accepted tokens of a month never exceed the limit; with no rollback outstanding the counter equals them |
| Quota.BalancedStep | app/infrastructure/adapters/redis_api_key.py:291-302 | Every increment and rollback keeps the counter equal to the accepted tokens plus the refused ones not yet taken back |
| Quota.UsageCounters.IncrementAndCheck | app/infrastructure/adapters/redis_api_key.py:291-302 | The answer, the counter and the reported total are those of a reservation and, when it is refused, its rollback |
| RateLimit.AllowedExact | app/infrastructure/adapters/redis_api_key.py:73-85 | A call is allowed if and only if it is among the first `limit` calls of its minute; the 120-second expiry never resets a counter within its minute |
| RateLimit.KeyExpires | app/infrastructure/adapters/redis_api_key.py:73-85 | The counter of a minute expires 120 seconds after the first call of that minute |
| RateLimit.WindowBound | app/infrastructure/adapters/redis_api_key.py:196-210 | At most `limit` calls pass in a minute bucket and at most twice as many in any sixty seconds |
| RateLimit.SlidingIffBucket | app/infrastructure/adapters/redis_api_key.py:196-210 | At most `limit` calls pass in a given window of sixty seconds, over all runs, if and only if the window is a minute bucket or the limit is zero |
| RateLimit.TwiceTheLimit | app/infrastructure/adapters/redis_api_key.py:73-85 | For every other window a run of which exactly twice the limit passes |
| RateLimit.Limiter.CheckRateLimit | app/infrastructure/adapters/redis_api_key.py:196-210 | The answer of the Lua script, and the count read after it, which includes the calls counted in between |
| Histogram.AppendHolds | app/infrastructure/metrics.py:66-77 | For every capacity, the ring read from its cursor is exactly the last min(n, capacity) observations, oldest first |
| Histogram.Metric.Observe | app/infrastructure/metrics.py:79-96 | Each observation enters the overall ring and the ring of its label, and every other label's ring still holds its own history |
| Histogram.PercentileExact | app/infrastructure/metrics.py:145-150 | The reported percentile is one of the latest observations, at least p percent of them are at or below it, and fewer than p percent are below it |
| Matching.IouExact | eval/metrics.py:140-154 | For spans that do not end before they start: IoU times the number of characters in either is the number in both, and IoU is zero if there are none |
| Matching.Sorted | eval/metrics.py:197-208 | The sorted list holds exactly the same-type pairs above the threshold with their IoU, best first |
| Matching.ChosenMatches | eval/metrics.py:178-222 | The chosen pairs use each prediction and gold at most once, are candidates, and block every other candidate |
| Matching.ChosenExact | eval/metrics.py:178-222 | A pair is chosen if and only if its types agree, its IoU is above the threshold, and no chosen pair with its prediction or its gold span has a higher IoU, or the same and comes first in the list |
| Matching.ExactCounts | eval/metrics.py:161-175 | Each distinct prediction is a hit or spurious and each distinct gold span a hit or missed; none is spurious if and only if each has a gold span of its type and range, and likewise for missed |
| Matching.HalfOptimal | eval/metrics.py:178-222 | Greedy matching finds at least half as many pairs as any matching of candidates |
| Matching.OptimalWhenDisjoint | eval/metrics.py:178-222 | With disjoint predictions, disjoint golds and a threshold of at least one half, no matching of candidates is larger |
| Matching.PartialCoversExact | eval/metrics.py:161-222 | For positive-length spans and a threshold below one, partial true positives are never fewer than exact ones |
| Matching.MatchPartial | eval/metrics.py:178-222 | The loops over candidates with their two sets return the counts of that matching |
| Bio.LabelsInverse | dataset/entity_types.py:132-141 | Label ids and labels are inverse on the listed types; an unlisted type becomes O |
| BioPieces.LabelTable | dataset/entity_types.py:132-141 | The 21 ids stand for the 21 labels in the listed order, and every other id for O |
| BioPieces.LabelPosition | dataset/entity_types.py:132-141 | A listed label has its position as id, any other has 0 |
| Bio.ConvertExample | dataset/bio_converter.py:61-110 | The labelling loop gives each piece the label of the first entity it overlaps, in order of start, and ignores special tokens and later pieces of a word |
| BioPieces.EncodeExact | dataset/bio_converter.py:77-110 | For any pieces and entities: special tokens and later pieces of a word are ignored; any other piece gets B- or I- of the entity that starts first among those it shares a character with, by whether it starts at or before it, and O if there is none |
| Bio.ReconstructSpans | inference/inference.py:186-260 | The decoding loop, against the step function of the decoder |
| BioPieces.DecodeExact | inference/inference.py:186-260 | For any predictions and pieces, the outputs are the runs of pieces that begin at a B- label or at an I- label that does not go on with its type, in order |
| BioPieces.LabelsDecide | inference/inference.py:210-254 | For any predictions: a later piece of a word goes with the one before; a piece labelled O lies in no output; one labelled B- or I- of a type lies in an output of that type, and starts one unless it is I- and the piece before lies in an output of that type |
| BioPieces.EveryOutput | inference/inference.py:186-260 | Every output starts at the first piece of a word with a B- or I- label of its type, ends with a piece, and carries its slice |
| Bio.DecodeUndoesEncode | inference/inference.py:186-260 | For sorted disjoint entities of listed types that consist of whole words, decoding the encoder's labels returns exactly the entities with their slices, whatever is predicted at the ignored positions |
| NerFusion.TrimPunctuation | inference/span_fusion.py:49-128 | The two loops stop at the boundaries that the trim functions define |
| NerFusion.TrimIdempotent | inference/span_fusion.py:49-128 | Trimming stays within the span, trimming again changes nothing, and trimming changes nothing if and only if neither end can be cut |
| NerRules.TrimExact | inference/span_fusion.py:49-128 | The cut character by character: which first characters go, and that the last one goes, or a possessive ending at once, unless it is no trailing punctuation, closes a parenthesis, follows a letter as an apostrophe, or ends initials or a known abbreviation |
| NerFusion.TrimmedShape | inference/span_fusion.py:192-206 | Disjoint entities in bounds stay so after trimming, are not empty, and cannot be trimmed further |
| NerRules.TrimmedHolds | inference/span_fusion.py:192-206 | The trimmed entities are exactly the non-empty cuts of the inputs |
| NerFusion.MergedExact | inference/span_fusion.py:211-220 | Output q runs from the start of the q-th entity that does not join its predecessor to the end of the last one before the next such |
| NerFusion.GapAllowed | inference/span_fusion.py:135-167 | A joined gap has one or two characters, each a space or, in an address, a comma; never a line break. Exactly when there is one: `NerRules.FusedTogether` |
| NerRules.FusedTogether | inference/span_fusion.py:135-220 | Two neighbouring trimmed entities lie in one output if and only if they are of one type and the text between them is one space or, for an address, one or two characters that are each a space or a comma |
| NerFusion.FusedShape | inference/span_fusion.py:174-225 | For disjoint inputs, the outputs are disjoint, in bounds, could not be merged further, and cover for each type exactly the trimmed entities of that type and the gaps between joined ones; each trimmed entity lies within an input of its type |
| NerFusion.FuseSpans | inference/span_fusion.py:174-225 | The three passes return the fused spans, each with its slice of the source text |
| NerFusion.FuseTwice | inference/span_fusion.py:174-225 | For disjoint inputs, fusing twice equals fusing once if and only if no trimmed entity that ends a group of several is a known abbreviation right after a comma |
| NerFusion.AbbreviationAfterComma | inference/span_fusion.py:92-103 | The address `x,dott.`, predicted as `x` and `dott.`, changes when it is fused again |

## Left out

- One organisation at a time: key strings are (request, hash) pairs, so the string layout of Redis keys, the SCAN patterns over them and request ids that contain a colon are not modelled.
- Encryption, HMAC and random bytes are symbolic: no key sizes, no forged or truncated ciphertexts, and fresh draws never collide.
- The unguarded store without an expected DEK, store_dek, and the unlinking of request sets at shutdown, which removes the index on purpose.
- Errors of the network or of Redis itself: a client that fails stops taking steps.
- get_token_ttl, scan_active_token_hashes and the reading methods that return a stored value unchanged.
- The monthly quota, the detection and the count check of a tokenise call are modelled apart from the vault steps; a tokenise call starts at its read of the stored DEK.
- VaultAdapter.RedisVault.SnapshotRotation: reads an undisturbed vault; the scan that interleaves with writers is a client of the step system (`VaultSafety.PrepareKeeps`).
- VaultAdapter.RedisVault.CountOrgTokens: reads an undisturbed index; counting while others write is `VaultFlush.CountCoversLive`.
- VaultAdapter.RedisVault.RotateDek: a rival's store may fall between snapshot and commit of a round, one per round; rivals inside the scan or the commit loop, and rival rotations, are in the step system.
- VaultFlush.CountCoversLive: needs the flushes of the run to end clean, because the code's flush is three separate commands; `VaultPending.CountCoversDone` needs less of them and counts fewer tokens, and `VaultIndex.RaceLosesToken` shows what happens otherwise.
- SameDek.RouteUnderOneDek: no other call may use the request; with others, `Separate.SeparateCallsRehydrate` holds for an injective HMAC. When a rotation does commit between two texts, `RequestRun.RouteRehydrates` holds if carried values keep their hashes, and `Rehash.KeepsIffSafe` says what is at stake if they do not.
- Rehash.KeepsIffSafe: carried hashes of another shape than allocation gives, which a caller can send, are not covered.
- The Supabase branches and the non-atomic fallbacks of the API key adapter; key provisioning and listing, and store_key_if_under_limit.
- Floating point: IoU, confidences and percentile ranks are exact; the rounding of reported values is not modelled.
- build_confusion_matrix, compute_f1 and the report of the evaluation, which only combine the counts.
- Regex detectors, tokenizers and the ONNX model: detections, pieces and predictions are arbitrary.
- Truncation of long inputs by the tokenizer, aggregation of subword predictions, and the copies of the reconstruction loop in the server, the benchmark and the detection adapter, whose trim differs.
- Letters beyond ASCII in `isalpha` are a parameter of the trim functions; no known abbreviation depends on other letters' lower case.
- FastAPI routes, authentication, logging, metrics export, the web platform and the JavaScript SDK.

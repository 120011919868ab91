# The Go front, modelled and proved

This project models the stateful and arithmetic cores of the Go front - the page cache and its
disk, the WebSocket relay, the header and body guards, the path rules and the decoders - and
proves what they promise. Each module follows one part of a source file; the source is cited by
path and line.

Code the source runs step by step on fields is a class whose methods are proved against functions
on values; loops are loops with invariants. What spans several calls, or several goroutines, is
a state machine whose steps are the sections held under a lock, the channel operations, the
writes and the file operations, and its theorems speak of every run.

## The parts

**Page cache.** `CacheKeys` is the key of a page and the calls' grammar, `Revalidate` exactly what a
Revalidate names and leaves alone. `PageCache` is the list, the map and the tag index as three views
of one recency-ordered sequence. `IsrMemory` is the protocol under the mutex - requests, renders
that an invalidation can doom, refusals - and `IsrFreshness` what it keeps over every run; a flight
is named by the moment it was registered, so "rendered after" is a comparison of numbers.
`IsrAnswers` says what each section does in the clock's own terms: which answer a request gets, what
the end of a render leaves, what an invalidation takes. `IsrDisk` adds saves, sweeps, drains,
crashes and boots - of the same build or of another, of pairs that can be read and pairs that cannot
- every file operation a step of its own; `IsrSaves` is what each step keeps, `IsrDurability` what
can reach the disk and come back over every run, `IsrPairs` which files each operation touches and
that what lands is what loads, `IsrCrash` the two runs in which an invalidated page comes back.
`IsrFront` is the object with its methods, `IsrBoot` the boot that reads a directory.

**WebSocket relay.** `Utf8` is well-formed UTF-8 and the repair of a broken sequence. `Frames` and
`FrameReader` are RFC 6455 frames and the object that reads them, `FrameCodec` the round trips,
`ServerFrames` what the server writes, `FrameBytes` every header and code in the numbers of the RFC.
`SocketQueue` is one socket's queue with its sender, writer and reader, `SocketRules` who is turned
away, how a socket ends and which pings are answered, `SocketConn` its object; `Relay` and
`RelayOrder` are topics, fan-out and counts over many such sockets, `RelayRules` who leaves, when
the window fires and that the lock is always released, `RelayRuns` what the relay's fields stand
for, `RelayHub` the relay's object. `Surrogates` is the check for half a UTF-16 pair.

**Header and body guards.** `Directives` reads a Cache-Control line, `CacheGuard` rewrites it,
`CacheReading` is what a cache reads by spelling, before and after, `CacheHeader` is the header map
and the loops. `GzipStream`, `GzipCommit`, `GzipWire` and `GzipResponse` are the buffering writer:
functions on its state, what they keep, what they send read off the handler's calls, and the object.

**Paths.** `Paths` is `path.Clean` as a stack of segments and percent-escapes, `Canonical` the one
spelling of a path, `PathRules` their meaning by the rules of their documentation, `Middleware` the
prefix guard against the router, `Matchers` which entries it takes and exactly what each covers.

**Decoders.** `Punycode` is the decoder of RFC 3492, `PunycodeRoundTrip` the encoder of its section
6.3 and the inverse, `Rfc3492` that encoder again in the RFC's own numbers with a string it
publishes, `AllowedLetters` the letters a label may hold. `Json` is a reference reader of RFC 8259,
`Session` the envelope read by hand. `Arith` is multiplication as repeated addition, with the laws
the proofs use.

## What the results say of the code

Five promises hold under a condition, and each is stated as exactly that:

- A page dropped by a Revalidate can come back from disk. A boot restores every pair it can load, so
  the page returns, and is cached again, if the process ended while its pair was still waiting to be
  swept (`IsrCrash.CrashBeforeTheSweepBringsBack`), or if the boot before the Revalidate could not
  read the pair, which was then neither cached nor swept (`IsrCrash.UnreadPairComesBack`). Call such a
  pair at large. These are the only ways: over every run, with every invalidation ever made
  remembered, a loadable pair not at large is older than an invalidation naming it if and only if a
  crash found it at large and the boot after loaded it (`IsrDurability.StaleIffBroughtBack`).
  Every other key stays fresh across every crash, its answers included
  (`IsrDurability.OtherKeysStayFresh`). The comment at isr.go:533-536 promises it of every key.
- The Punycode decoder inverts the encoder on a label if and only if every insertion fits its
  31-bit guards (`Countable`). That the encoder itself does not overflow is not enough: the decoder adds
  the delta to the position the last insertion left. `PunycodeRoundTrip.NotEveryEncodedLabelDecodes`
  is a label of 53,688 stable letters that `allowedLabel` takes and the encoder writes within the
  bounds, and that the decoder refuses. Every label of at most 1927 code points meets the condition.
- The canonical spelling of a path is a fixed point if and only if no segment that cleaning keeps
  has an escape formed across a `%` that starts none, when what follows it is respelled
  (`Canonical.CanonicalPathIsIdempotent`): `/%%344` becomes `/%44`, and that `/D`; `/%` stays. With
  well-formed escapes, which is what net/http lets through, there is no such segment. The argument
  of a Revalidate comes from the app, and is not screened.
- A Revalidate of a path without a star names that page alone, with any query, under every host, if
  neither path holds an escape (`Revalidate.PlainPathNamesItselfAlone`). Of any other call a page is
  named if and only if the call's grammar covers it as both are spelled or as both decode
  (`Revalidate.NamedIsCovered`), and so an escaped star is a star: `/a%2A` names `/abc`
  (`Revalidate.EscapedStarNamesMore`). The source says that this only drops more.
- A matcher `base/*` that registration accepts guards everything the router sends below its base if
  and only if the base is not `/`: `//*` is accepted, and matches `/` alone
  (`Middleware.WhichEntriesGuardTheirSubtree`).

## Model

| member | source | states |
|---|---|---|
| CacheKeys.CacheKeyIsInjective | isr.go:366-398 | two requests have one key if and only if their scheme, normalised host, canonical path and query are the same |
| CacheKeys.KeyPathOfCacheKey | isr.go:402-407 | what is left of a key without its site is the page's path and query |
| CacheKeys.OneSpellingPerHost | isr.go:385-398 | a host is spelled in lower case, with its port unless that is 443 of https or 80 of any other scheme, and with none of NUL, slash, question mark and hash |
| CacheKeys.RevalidateNamesEverySpelling | isr.go:421-460 | a Revalidate of any spelling of a page without a star, escaped well or not, matches the page's key under every host and query |
| CacheKeys.RevalidateStarNamesTheSubtree | isr.go:421-460 | a Revalidate of `base/*` matches the key of the base and of every page below it, with every query |
| Revalidate.NamedIsCovered | isr.go:438-468 | for every call: a page's key is named if and only if the call's grammar covers the page and its query as both are spelled, or as both decode |
| Revalidate.RevalidateNamesOnly | isr.go:421-468 | a path that does not come to end in a star names a page if and only if the page with any query or none is spelled canonically as the path is, or decodes to what the path decodes to |
| Revalidate.PlainPathNamesItselfAlone | isr.go:421-468 | where neither holds an escape, that is if and only if the two canonical paths are equal |
| Revalidate.RevalidateStarNamesOnlyTheSubtree | isr.go:421-468 | `base/*` names the base with any query and what is below it, spelled or decoded, and nothing else |
| Revalidate.RevalidatePrefixNamesOnlyThePrefix | isr.go:421-468 | `prefix*` names what begins with the prefix, spelled or decoded, and nothing else, where the prefix does not come to end in a slash |
| Revalidate.EscapedStarNamesMore | isr.go:461-468 | a Revalidate of `/a%2A` names `/abc` |
| PageCache.PageCache.constructor | isr.go:273-275 | an empty cache whose three views agree |
| PageCache.PageCache.Get | isr.go:277-284 | answers with the copy stored under the key, moves it to the back of the order, and changes nothing else |
| PageCache.PageCache.Remove | isr.go:313-332 | exactly the key's copy leaves the order, the map and the index, and the hook is called for it if there was one and it was asked for |
| PageCache.PageCache.Append | isr.go:297-306 | the copy is last in the order and its tags are indexed: the index is still the inverse of the copies' tags |
| PageCache.PageCache.Evict | isr.go:307-310 | the newest 512 stay; those that leave were all touched before every one that stays, and the hook is called for them in order |
| PageCache.PageCache.Store | isr.go:293-311 | the copy replaces its key's, comes last, and only the least recently touched leave, to 512 entries |
| PageCache.PageCache.InvalidatePath | isr.go:334-343 | drops exactly the copies whose key the path names, each with one call of the hook, and returns their number |
| PageCache.PageCache.InvalidateTag | isr.go:345-352 | drops exactly the copies that carry the tag, each with one call of the hook, and returns their number |
| PageCache.FindIsLookup | isr.go:262-266 | the map and the order agree on what is stored under a key |
| PageCache.WithoutCount | isr.go:334-352 | dropping keys that are there shortens the sequence by exactly their number |
| IsrFreshness.HandleIsSound | isr.go:632-688 | a request's section keeps every copy, refusal, joinable flight and answer newer than the invalidations that name it |
| IsrFreshness.FinishIsSound | isr.go:739-811 | the end of a render, in all its five ways, keeps the same: a doomed one stores nothing and refuses nothing |
| IsrFreshness.CleanUpIsSound | isr.go:718-729 | the deferred cleanup keeps the same, and unregisters only its own flight |
| IsrFreshness.InvalidateIsSound | isr.go:904-944 | an invalidation drops the copies and refusals it names and dooms the registered flights it names |
| IsrFreshness.NothingStaleIsServed | isr.go:651-688 | over every run: a request that came after an invalidation is never answered with a page whose render was registered before it, and no copy, refusal or joinable flight is older than an invalidation naming it |
| IsrFreshness.OneFlightPerKey | isr.go:694-710 | over every run: a key has at most one flight that is neither doomed nor over |
| IsrFreshness.SuccessorStaysRegistered | isr.go:718-746 | over every run: a replaced flight's end, panic or cleanup leaves its successor registered and joinable |
| IsrFreshness.DoomedServesOnlyEarlierWaiters | isr.go:695-710 | over every run: once doomed, a flight adds no copy, no refusal and no waiter |
| IsrAnswers.EveryRequestIsAnswered | isr.go:651-688 | over every run, with the times compared as numbers: bypassed if and only if a refusal of the key stands, for its own time or for the policy's; a hit if and only if a copy is held and in its window; stale if and only if one is held and past it, and then a render of the key runs; and a wait if and only if none is held, for a render that may still answer |
| IsrAnswers.EveryRenderEnds | isr.go:737-811 | over every run: what a render's end does to the copies, the refusals and the flight, for every verdict, doomed or not; five seconds for a failed cold render, and past 512 copies or refusals the oldest goes |
| IsrAnswers.EveryInvalidationTakes | isr.go:904-944 | over every run: the copies, refusals and running renders named go, each of the others stays as it was |
| IsrAnswers.WaiterWakes | isr.go:683-688 | a waiter is answered with its flight's page if there is one, and waits no longer |
| IsrAnswers.EachFlightEndsOnce | isr.go:720-731 | over every run: a render ends once, is cleaned up once and after that, and its waiters can be woken then and not before |
| IsrAnswers.FailedRenderCools | isr.go:762-765 | after a failed cold render the key's requests bypass for five seconds exactly, under any policy |
| IsrAnswers.StoredPageIsServed | isr.go:804-808 | after a render is stored the key's requests are hits while its window lasts, or under "manual" for good, and stale after that |
| IsrSaves.UnderLockIsSound | isr.go:1000-1078 | a section under the lock keeps the generations those of the cached copies, and a pair on disk current or at large: about to be swept, or unread by the boot |
| IsrSaves.OnDiskIsSound | isr.go:1011-1094 | so does every write, rename, decision and removal beside the lock, in any order, failing or not |
| IsrDurability.RebootIsSound | isr.go:1099-1151 | so does a crash at any moment and the boot after it, of any build and with any pairs it cannot read, the log of invalidations kept whole |
| IsrDurability.SaveLandsIffUnmoved | isr.go:1005-1048 | over every run: a save's question under the lock is answered yes if and only if its key was neither stored again nor dropped since the save began |
| IsrDurability.LoadableIsSweptOrFresh | isr.go:533-540 | over every run with crashes: a pair a boot would load is waiting to be swept, or was unread by the last boot, or is of a cached key and was rendered after every invalidation ever that names it, but for those it outlived |
| IsrDurability.OutlivedIffBroughtBack | isr.go:533-540 | over every run with crashes: a render outlived an invalidation if and only if some crash found its pair loadable, named by that invalidation, no younger than it, and waiting to be swept or unread |
| IsrDurability.StaleIffBroughtBack | isr.go:533-540 | over every run with crashes: a loadable pair that is neither waiting to be swept nor unread is of a cached key, and is older than an invalidation naming it if and only if a crash brought it back in that way |
| IsrDurability.OtherKeysStayFresh | isr.go:651-688 | over every run with crashes: of a key no crash found waiting to be swept or unread, no answer to a later request, no copy and no loadable pair is older than any invalidation ever that names it, whatever happened to other keys |
| IsrDurability.QuietDiskIsCached | isr.go:533-540 | over every run with crashes: with nothing queued or held for removal, every loadable pair the boot could read is of a cached key |
| IsrDurability.OnlySavedPairsLoad | isr.go:1156-1181 | over every run with crashes, builds changing: what a boot of any build would load is one copy that a process of that build saved, its body under exactly its own meta; and that build is the one that runs, unless its boot could not read the pair |
| IsrDurability.SavedWasBegun | isr.go:1000-1010 | over every run: what counts as saved was in the first directory, or is the copy some save, in a process of its build, began with |
| IsrDurability.PairsNameTheirKeys | isr.go:993-998 | over every run: the meta of a loadable pair holds the key its file is named for |
| IsrDurability.BootRestores | isr.go:1099-1151 | a boot leaves the newest 512 of the copies it finds in the cache, oldest first, and on disk whole loadable pairs, those it could not read, and nothing else; a pair is stale after it if and only if it was before |
| IsrDurability.OtherBuildStartsEmpty | isr.go:1166-1168 | a boot of another build serves nothing and leaves nothing on disk, but for pairs one of the two boots could not read |
| IsrPairs.LoadsIs | isr.go:1156-1181 | a key's pair loads as a copy if and only if its meta is of the build, with a key and a status, and vouches for the body that is there by length and hash |
| IsrPairs.LandedIsLoaded | isr.go:1011-1048 | over every run: a save whose body and meta land is what a boot of its build loads, as it was stored with its time in milliseconds, unless a sweep of the key took the body in between |
| IsrPairs.StepTouches | isr.go:1011-1094 | an operation touches its save's files and the pair of its own key, and no other file |
| IsrPairs.StepRemoves | isr.go:1038-1094 | and removes of them exactly the scratch files it renamed or dropped, or the half it sweeps |
| IsrPairs.UnreadUntilTouched | isr.go:1038-1094 | a pair that could not be read stays so until its meta is replaced or swept |
| IsrPairs.MetaFollowsBody | isr.go:1087-1091 | over every run: a drain removes the meta of the pair whose body it removed last, and then has one fewer of that key to do |
| IsrPairs.OnePairAtATime | isr.go:1087-1091 | over every run: and no other body before that |
| IsrPairs.QueueIsConserved | isr.go:1075-1091 | what is queued for sweeping is taken whole, and a key stops waiting only when its meta goes, once for each time it was queued |
| IsrPairs.BootKeepsTheNewest | isr.go:1147-1150 | a boot that finds more than it keeps has kept 512, none stored before one it left out |
| IsrPairs.SavesGoOn | isr.go:1011-1054 | over every run: a save that has not ended has a next operation, whether that fails or not; only its landing waits, and only while another save lands |
| IsrPairs.DrainsGoOn | isr.go:1062-1094 | over every run: the queue can be taken once no save is landing, and a drain goes on until both files of every key it took are gone |
| IsrCrash.CrashBeforeTheSweepBringsBack | isr.go:1070-1094 | a run: a request, its render, the save that lands, a Revalidate, a crash before the sweep; the boot caches the page again, older than the Revalidate that named it |
| IsrCrash.UnreadPairComesBack | isr.go:1128-1132 | a run: a boot that cannot read the pair, a Revalidate that finds nothing to sweep, a boot that can read it; the page is cached, older than the Revalidate |
| IsrFront.SweepRefusals | isr.go:911-915 | the loop over the refusals keeps exactly those the invalidation does not name |
| IsrFront.DoomFlights | isr.go:916-920 | the loop over the registered flights dooms exactly those the invalidation names |
| IsrFront.TrimRefused | isr.go:514-524 | of 513 refusals the oldest leaves, of 512 none |
| IsrFront.Saver.ForgetSaved | isr.go:1070-1076 | the dropped keys lose their generation and are queued for removal |
| IsrFront.Saver.SaveEntry | isr.go:1000-1015 | a generation never used before is in force for the key, and one save begins with the copy, in the name of the running build |
| IsrFront.Saver.TakeSweep | isr.go:1081-1085 | a drain takes every queued key and leaves the queue empty |
| IsrFront.Isr.Regenerate | isr.go:694-710 | joins the registered flight while it may still answer, and registers a new one otherwise |
| IsrFront.Isr.Handle | isr.go:651-682 | the section is the protocol's step, and the answer is the one that the times, the copy and the refusal call for |
| IsrFront.Isr.StoreCopy | isr.go:806-809 | the stored copy, the evicted keys and the save begun are what the protocol tells the disk |
| IsrFront.Isr.EndRender | isr.go:750-811 | what a render's end does to the refusals, the cache and the disk is the protocol's, for every verdict, doomed or not |
| IsrFront.Isr.FinishRender | isr.go:739-811 | the section is the protocol's step, and keeps it sound |
| IsrFront.Isr.CleanUpFlight | isr.go:718-729 | the section is the protocol's step, and keeps it sound |
| IsrFront.Isr.InvalidateNamed | isr.go:904-944 | the section is the protocol's step, queues exactly the dropped keys, and returns how many copies went |
| IsrFront.Isr.InvalidatePath | isr.go:904-924 | the operator's spelling is taken in the one keys are stored in, and the section takes what that names and nothing else |
| IsrBoot.SortedByTime | isr.go:1147-1147 | the order a boot stores in is by the moment stored, and holds the same copies |
| IsrBoot.StoreAll | isr.go:1148-1150 | storing them one by one leaves what storing each under its key leaves: of distinct keys the newest 512, the others dropped in order |
| IsrBoot.FirstPass | isr.go:1111-1134 | the first pass finds exactly the pairs that load and can be read, each under the key its meta holds, and removes scratch files and pairs that cannot load, whatever it removed before; a pair it cannot read stays |
| IsrBoot.UnreadableIs | isr.go:1156-1191 | a pair is left for another boot if and only if its meta cannot be read, or its body cannot and the pair would load with some body |
| IsrBoot.LoadSaved | isr.go:1099-1151 | from any directory: the copies found are stored oldest first, and what stays is exactly the loadable pairs and the unread ones; where files are named for their keys, the cache is the newest 512 |
| Utf8.CharIsWhole | ws_relay.go:409-444 | the decoder's table of lead bytes and ranges accepts exactly the encodings of the scalar values |
| Utf8.BeginsIsShaped | ws_relay.go:411-440 | a byte sequence fits the table so far if and only if it is the beginning of some character |
| Utf8.DecodeUtf8 | ws_relay.go:402-450 | the result is the repair by definition: characters stay, and each maximal subpart of a broken sequence is one U+FFFD |
| Utf8.RepairIsWellFormed | ws_relay.go:399-401 | the repair of anything is well-formed |
| Utf8.RepairKeepsWellFormed | ws_relay.go:315-317 | the repair changes its input if and only if it was not well-formed |
| FrameBytes.ReplacementIs | ws_relay.go:399-401 | what stands for a broken sequence is the encoding of U+FFFD |
| Utf8.RepairIsLocal | ws_relay.go:445-447 | well-formed text ahead of a broken sequence is untouched by it |
| Utf8.ValidIsWellFormed | websocket.go:277-282 | reading character by character decides exactly well-formedness |
| Frames.MaskedTwice | websocket.go:227-229 | masking twice under one key gives the payload back |
| Frames.ReadsBigEndian | websocket.go:183-192 | a number written in network order is read back |
| Frames.WritesBigEndian | websocket.go:183-192 | bytes read as a number in network order are that number's bytes |
| FrameReader.SumIsExact | websocket.go:207-211 | the 64-bit sum of what is held and what is declared does not wrap |
| FrameReader.ParsedFits | websocket.go:207-211 | a data frame that is taken leaves the message within the limit |
| FrameReader.WsReader.ReadPayload | websocket.go:264-275 | reads exactly the declared bytes or fails, never asking for more than a chunk beyond what came |
| FrameReader.WsReader.ReadLength | websocket.go:177-200 | the declared length, refused unless it is in its least form and below 2^63 |
| FrameReader.WsReader.ReadFrame | websocket.go:165-229 | one frame is what the parse of the bytes says, with its checks in order and its code on a refusal |
| FrameReader.WsReader.Next | websocket.go:165-255 | one call brings what the bytes say: the message, the close code or a read error, with the fragments held after it, never more than the limit of them |
| FrameReader.Finished | websocket.go:277-282 | a text message is delivered only if it is UTF-8, and refused with 1007 otherwise |
| FrameReader.Unmask | websocket.go:227-229 | the buffer is unmasked in place, every byte |
| FrameCodec.WrittenIsParsed | websocket.go:165-229 | a frame written as section 5.2 of RFC 6455 requires is parsed back, whatever follows it |
| FrameCodec.ParsedIsWritten | websocket.go:165-229 | a parsed frame re-encodes to the bytes it was read from: a length has one spelling |
| FrameCodec.WireIsRead | websocket.go:165-255 | a stream of acceptable frames is read to its end, and the messages are those the frames make up |
| FrameCodec.ConversationIsRead | websocket.go:160-255 | messages cut into any fragments, with any control frames between them and each frame under any key, are read back exactly, in order |
| FrameCodec.AcceptedReencodes | websocket.go:160-255 | an accepted message re-encodes, frame by frame, to exactly the bytes it was read from |
| FrameCodec.AcceptedStreamReencodes | websocket.go:160-255 | of any stream whatever, what was read before the reader failed or refused re-encodes to exactly the bytes it was read from, and the answer at the end is the one to the bytes that are left |
| ServerFrames.WriteFrame | websocket.go:308-326 | the frame is unmasked, in one piece, its length in the least of the three forms |
| ServerFrames.ServerFramesAreDistinct | websocket.go:308-326 | a stream of server frames can be cut in one way only |
| ServerFrames.WriteCloseFrame | websocket.go:330-342 | the close frame carries the code and the reason cut at the last character boundary within 123 bytes |
| ServerFrames.ReasonIsReadable | websocket.go:328-338 | the cut reason is whole characters, a prefix, and at most three bytes short of the room |
| ServerFrames.CloseCodeRoundTrip | websocket.go:287-305 | a written code is read back if and only if it may be sent, and the payload fits a control frame |
| ServerFrames.StatusIsSendable | websocket.go:284-305 | a close payload is taken if and only if it is empty, or a code that may be sent and a UTF-8 reason |
| FrameBytes.HeaderIsJudged | websocket.go:165-229 | every header of section 5.2 of RFC 6455: 1002 for a reserved bit, no mask, a length not in its least form or of 2^63, a control frame cut or over 125; 1009 for data past the limit; otherwise the frame, once its key and payload have come |
| FrameBytes.EveryHeader | websocket.go:165-200 | whatever bytes begin a stream are one of those headers |
| FrameBytes.HeaderIsAwaited | websocket.go:165-200 | short of a whole header nothing but a reserved bit is judged |
| FrameBytes.NetworkOrder | websocket.go:183-192 | the first octet of a length counts most |
| FrameBytes.MaskIsXor | websocket.go:227-229 | bit by bit, an octet is unmasked by exclusive or with the key's octet at its place modulo four |
| FrameBytes.ExamplesAreWritten | websocket.go:308-326 | the unmasked frames of section 5.7 of RFC 6455 |
| FrameBytes.FrameIsTaken | websocket.go:230-255 | by opcode: control frames pass by a message in hand, text and binary begin one, a continuation goes on with one; 1007 for a text that is not UTF-8, 1002 for all else |
| FrameBytes.CloseIsRead | websocket.go:284-305 | 1005 for no code, 1002 for half of one or one that is not registered, 1007 for a reason that is not UTF-8, and otherwise the code |
| FrameBytes.ReasonFits | websocket.go:330-342 | a reason of up to 123 bytes goes out whole, and of a longer text at least 120 |
| SocketQueue.DoIsSound | websocket_conn.go:173-212 | every step of the sender, the writer and the reader keeps the accounts, the order, the wake-up and the close last |
| SocketQueue.QueueIsBounded | websocket_conn.go:75-78 | over every run: until the socket ends, the counters are the bytes and frames of the queue and of the unwritten batch, and never exceed the bounds |
| SocketQueue.FirstEndingDecides | websocket_conn.go:143-151 | over every run: an ending is never replaced, and nothing is written after a close frame |
| SocketQueue.OneCloseLast | websocket_conn.go:335-347 | over every run: a close frame on the wire is the decided one, and the last thing there |
| SocketQueue.WireIsPrefix | websocket_conn.go:331-370 | over every run: the data on the wire is a prefix of what was accepted |
| SocketQueue.NothingIsLeftWaiting | websocket_conn.go:189-193 | over every run: a writer with nothing to wait for, on a socket that has not ended, has written everything that was accepted |
| SocketRules.TurnedAwayAtTheBounds | websocket_conn.go:177-186 | over every run: a frame is turned away if and only if 16,384 frames are outstanding or its bytes would take them past 4 MiB, and queued last otherwise |
| SocketRules.AlwaysWithinBounds | websocket_conn.go:75-78 | over every run: what is outstanding never exceeds either |
| SocketRules.EndsByTheFirst | websocket_conn.go:143-151 | over every run: a socket ends at the first step that ends it, with 1013 when it fell behind, 1001 at a shutdown, no code when a write failed; nothing else ends it, and nothing changes the code |
| SocketRules.OpenUntilAWriteFails | websocket_conn.go:372-384 | over every run: the connection takes writes until the first that fails, and none after |
| SocketRules.ExitSaysTheEnd | websocket_conn.go:335-347 | over every run: a writer that has left wrote the close frame of the ending last, if there is one and it could be written |
| SocketRules.BacklogIsNotSent | websocket_conn.go:160-165 | over every run: what is still queued when a socket ends is not sent; at most one frame more is written, and then the close frame |
| SocketRules.ShutdownIsNext | websocket_conn.go:350-352 | over every run: after a shutdown that the writer takes, one frame at most goes out |
| SocketRules.PingsAreSent | websocket_conn.go:355-356 | over every run: a ping the ticker asked for is the writer's next write, or has been tried since |
| SocketRules.PingsAreAnswered | websocket_conn.go:331-370 | over every run: a ping that came is waiting for its pong, or a pong has been tried since |
| SocketRules.NoPongUnasked | websocket_conn.go:331-370 | over every run: there are never more pongs than pings |
| SocketRules.NeverStuck | websocket_conn.go:331-370 | a writer with something to do always has a step to take, whatever the connection does; so has a send under way, and a ping, an ending and a shutdown are taken at any time |
| SocketRules.WriterComesToRest | websocket_conn.go:331-370 | over every run: the writer takes only so many steps for what came from outside - frames, pings, endings, ticks - and so comes to rest |
| SocketRules.NoWakeUnposted | websocket_conn.go:189-192 | over every run: the writer wakes no more often than frames were posted, the token left included |
| SocketConn.WsConn.FinishWith | websocket_conn.go:143-151 | the ending is a step of the socket: the first frame decided stays |
| SocketConn.WsConn.Lock | websocket_conn.go:177-184 | the section under the queue's lock is a step of the socket: refused on either bound, counted otherwise |
| SocketConn.WsConn.Send | websocket_conn.go:173-194 | a whole send is its steps in order, and returns true if and only if the socket has not ended and both bounds allow the frame |
| SocketConn.WsConn.Take | websocket_conn.go:199-205 | the batch is the whole queue, and still counts |
| SocketConn.WsConn.Wrote | websocket_conn.go:207-212 | a written frame stops counting |
| RelayOrder.ActIsSound | ws_relay.go:230-304 | every step of the relay and of its sockets keeps the registry, the counts, the order and the window |
| RelayOrder.OneOrderPerTopic | ws_relay.go:52-55 | over every run: of each topic a socket holds, what is on its wire is a prefix of what it accepted, which is the topic's log from its join on without a gap |
| RelayOrder.SubscribersAgree | ws_relay.go:52-55 | over every run: two subscribers of a topic saw one order, the later one its end |
| RelayOrder.CountsConverge | ws_relay.go:259-284 | over every run: a topic not waiting for its count has last sent every live subscriber the number of its members, and the members are the live holders |
| RelayOrder.WindowIsArmed | ws_relay.go:260-266 | over every run: a topic waiting for its count has the window armed or its counts under way |
| RelayOrder.BrowsersKeepToTheirTopics | ws_relay.go:306-347 | over every run: a browser's message adds no count and reaches no topic its socket does not hold |
| RelayOrder.RelayedIsAllowed | ws_relay.go:311-353 | a browser's message is relayed if and only if the lock is free, the policy allows it, its topic is a string its socket holds without half a surrogate pair, and its event is a string other than `__count` |
| RelayOrder.BrowsersPublishWhatTheyMay | ws_relay.go:311-353 | over every run: only such a message is relayed, and what it adds to the log is its topic, event, bytes and socket |
| RelayOrder.CountsAreTheWindows | ws_relay.go:268-284 | over every run: a count goes out as `__count` with the number of the topic's subscribers, which then waits for none |
| RelayRules.OnlyTheEndedLeave | ws_relay.go:206-208 | over every run: only a socket that has ended leaves its topics, and it can whenever the lock is free |
| RelayRules.WindowFiresForAChange | ws_relay.go:260-270 | over every run: the window fires only after somebody came or went since it fired last |
| RelayRules.CountsFollowTheWindow | ws_relay.go:268-284 | over every run: a count goes out only in the section that the window began |
| RelayRules.LockIsReleased | ws_relay.go:268-304 | over every run: a fan-out or a sending of counts that holds the lock always has its next step |
| RelayRules.SectionEnds | ws_relay.go:268-304 | and each of its steps leaves less to do, so that it ends; nothing but its end releases the lock |
| RelayHub.WsRelay.FromBrowser | ws_relay.go:311-353 | publishes if and only if the message may be, to the topic's subscribers and nobody else, and changes nothing otherwise |
| RelayHub.WsRelay.CountSoon | ws_relay.go:260-266 | the window is armed if some topic waits for its count, and once |
| RelayHub.WsRelay.JoinTopics | ws_relay.go:230-243 | the socket is a subscriber of each of its topics, which all wait for their count; the section is the relay's step |
| RelayHub.WsRelay.LeaveTopics | ws_relay.go:245-257 | the socket is a subscriber of none of them, and a topic nobody holds is gone; the section is the relay's step |
| RelayHub.WsRelay.PublishFrame | ws_relay.go:298-304 | every subscriber of the topic is offered the frame once, and no other socket that ever joined; the section is a run of the relay's steps |
| RelayHub.WsRelay.SendCounts | ws_relay.go:268-284 | each waiting topic's count, as it stands, is offered once to each of its subscribers and to nobody else, and none waits any more; the section is a run of the relay's steps |
| RelayHub.WsRelay.InOrder | ws_relay.go:52-55 | of the objects at any moment: of each topic a socket holds, what is on its wire is a prefix of what it accepted, which is the topic's log from its join on |
| RelayRuns.TurnIsARun | ws_relay.go:298-304 | one subscriber's turn of a fan-out is a run: the send begins, takes its steps under the queue's lock, and returns |
| RelayRuns.ReachedIsOfARun | ws_relay.go:52-55 | a state reached from the start is the last of some run of the relay, so that what holds of every run holds of it |
| Surrogates.LoneSurrogate | ws_relay.go:360-389 | reports a half exactly when some escaped surrogate has no other half right beside it |
| Surrogates.Hex4Is | ws_relay.go:391-397 | four digits in either case are read as the number they spell, the first counting most |
| Directives.OneStop | cache.go:28-35 | a line has one place where reading its quoted strings stops |
| Directives.UnbalancedQuoteAt | cache.go:36-55 | finds it: before it every string is closed, from it on none is |
| Directives.SplitDirectives | cache.go:61-79 | splits on the commas outside the strings that are closed |
| Directives.JoinedIsCut | cache.go:61-79 | balanced fields, then perhaps one that opens a string and fields inside it, joined by commas, are split back into themselves |
| Directives.DirectivesAreLaid | cache.go:61-79 | the fields of any line are such a list, and join to the line |
| Directives.ReadableIsBalanced | cache.go:228-230 | a directive lies wholly before the stop if and only if it and those before it are balanced |
| CacheGuard.KeptIsLaid | cache.go:227-244 | what is kept can still be split back, whichever field was dropped or replaced, the one that opens the string included |
| CacheGuard.RewrittenIsRead | cache.go:259-268 | the directives of the rewritten line are exactly those it was put together from |
| CacheGuard.CookiesArePrivate | cache.go:161-204 | after the guard a cache reads a bare `private` before any unterminated quote, no `public` and no `s-maxage`, and every directive is one that was there or a bare `private` |
| CacheGuard.GuardIsIdempotent | cache.go:176-179 | a second pass changes nothing |
| CacheReading.NameIsSpelled | cache.go:83-97 | a directive has a name if and only if it is spelled as that word in any case, white space around it, with or without an argument |
| CacheReading.GuardLeavesTheOthers | cache.go:161-204 | by spelling: afterwards a `private` with no argument before any unterminated quote, no `public` and no `s-maxage` in any case, and every other directive as it stood, in its order |
| CacheReading.CrossesIs | cache.go:103-129 | an argument crosses a line if and only if a reader of the lines is inside a quoted string at the end of one that is not the last |
| CacheHeader.SameFieldIs | cache.go:130-136 | two spellings are one field if and only if they differ in the case of letters at most |
| CacheHeader.QuotedSpanCrossesALine | cache.go:103-129 | says whether some place where two lines meet lies inside a quoted argument |
| CacheHeader.Judge | cache.go:227-244 | the loop keeps, drops and replaces as the rule says, and its running offset finds the readable `private` |
| CacheHeader.WriteLine | cache.go:259-268 | the line is the kept directives joined by commas, with white space ahead of every one but the first |
| CacheHeader.Header.HasField | cache.go:141-148 | whether the field is there under any spelling |
| CacheHeader.Header.PrivateIfCookies | cache.go:205-277 | without a Set-Cookie or a Cache-Control nothing changes; otherwise the decided line replaces every spelling of the field, or the map stays |
| GzipCommit.CallIsSound | gzip.go:158-185 | every call keeps nothing on the wire before the commit, nothing held after it, and takes in exactly what was written |
| GzipCommit.NothingIsLost | gzip.go:436-463 | after any calls, the decoded body on the wire and the buffer are what the handler wrote |
| GzipCommit.AllIsSent | gzip.go:563-607 | after a return all of it is on the wire |
| GzipCommit.SameCommit | gzip.go:25-28 | after any calls, a gzip client and an identity one have the same status, the same decoded bytes on the wire and the same bytes held back |
| GzipCommit.SameEnd | gzip.go:560-607 | the same at the end, by a return or by a panic |
| GzipCommit.PanicLeavesNothing | gzip.go:585-599 | a panic leaves nothing on the wire if and only if no call flushed, none passed the response through at its status, and fewer than 1024 bytes were written |
| GzipCommit.KeptLengthIsExact | gzip.go:609-623 | a Content-Length that `finish` sends on a response that may have a body is the body's length |
| GzipCommit.CommittedLengthIsNotOutgrown | gzip.go:512-547 | over every run of calls: the header block goes out at one call and stays; a length in it is at least the bytes written up to and including that call - or before it, when the response went out as it is at the status the call implied - and a gzip body has none |
| GzipCommit.ReportIsExact | gzip.go:640-662 | a length that was not kept is reported alike on both encodings, exactly when the body is not as long as promised |
| GzipWire.HeadIsSent | gzip.go:158-185 | after any calls, read off them: the call that sends the header block, and in it the first status settled, the length of the headers as they stood then unless it is known to be short or the body is compressed |
| GzipWire.OnlyWhoAcceptsGetsGzip | gzip.go:436-463 | after any calls: gzip if and only if the client takes it and the header block was sent by a write that took the body to 1024 bytes; to any other client every chunk is raw |
| GzipWire.WireIsUniform | gzip.go:465-495 | after any calls: every chunk is compressed if and only if the header block says gzip |
| GzipWire.EndIsSent | gzip.go:563-607 | at the end of a response no call has sent: 200 or the status settled, a length only if it is the body's or no body can be, and the body raw; after a panic nothing |
| GzipWire.SentStaysSent | gzip.go:563-607 | what a call has sent the end adds nothing to |
| GzipWire.EarlyAreSent | gzip.go:158-164 | the early statuses go out as they come, in order, and none other |
| GzipWire.ReportIsReadOff | gzip.go:640-662 | the report, read off the calls: the length that stood when the status was settled is not that of the bytes written, after a return whose response may have a body |
| GzipResponse.GzipResponseWriter.WriteHeader | gzip.go:158-185 | the object's method is the function on its state: early statuses, superfluous calls, the snapshot and the pass-through |
| GzipResponse.GzipResponseWriter.Write | gzip.go:436-463 | the object's method is the function on its state, the split at the commit included |
| GzipResponse.GzipResponseWriter.Flush | gzip.go:497-510 | the object's method is the function on its state |
| GzipResponse.GzipResponseWriter.StartGzip | gzip.go:512-537 | the object's method is the function on its state |
| GzipResponse.GzipResponseWriter.StartPassthrough | gzip.go:541-547 | the object's method is the function on its state |
| GzipResponse.GzipResponseWriter.Finish | gzip.go:563-607 | the object's method is the function on its state, and says whether a length is reported |
| Paths.CleanIsIdempotent | canonical.go:66-66 | cleaning a cleaned path changes nothing |
| Paths.UnescapeAt | canonical.go:88-91 | unescaping works a segment at a time |
| PathRules.CleanDropsNothings | canonical.go:66-66 | a slash run is one slash, and a `.` segment is none |
| PathRules.CleanStepsBack | canonical.go:66-66 | a `..` takes the name before it away |
| PathRules.CleanStaysAtRoot | canonical.go:66-66 | at the root a `..` is nothing |
| PathRules.CleanKeepsNames | canonical.go:66-66 | names alone under the root stay, and nothing at all is `.` |
| PathRules.EscapeIsRead | canonical.go:88-91 | an escape in either case of its digits is read as its octet |
| PathRules.EscapeIsRespelled | canonical.go:48-64 | an escape is spelled as its octet if RFC 3986 calls that unreserved, and in capital digits otherwise |
| PathRules.RespellingKeepsMeaning | canonical.go:31-43 | the respelled path decodes to what the path decodes to |
| PathRules.RedirectKeepsTheQuery | canonical.go:140-150 | a redirect names the canonical path and the request's own query |
| PathRules.AliasIs | canonical.go:79-99 | an alias is found if and only if a segment holds an escape and does not decode, or has a `..` between slashes or at an end once decoded |
| Canonical.ComputeCanonicalPath | canonical.go:44-67 | the loop computes the normalised, cleaned path |
| Canonical.CanonicalPathIsIdempotent | canonical.go:31-67 | the canonical spelling is a fixed point if and only if no segment as written that cleaning keeps splices an escape across a `%` that starts none |
| Canonical.WellEscapedSplicesNothing | canonical.go:31-43 | with well-formed escapes no segment does, and the canonical spelling is a fixed point |
| Canonical.StrayPercentIsNotCanonical | canonical.go:31-43 | a path that splices: the canonical spelling of `/%%344` is `/%44`, whose canonical spelling is `/D` |
| Canonical.OneRedirectAtMost | canonical.go:140-150 | a request is redirected exactly when its spelling is not the canonical one, and the answer to a redirect is never another |
| Canonical.SlashAlias | canonical.go:79-99 | an alias is found exactly when some segment does not unescape or unescapes to hold a `..` |
| Middleware.AcceptedEntriesMatch | middleware.go:75-102 | every accepted entry covers some cleaned path |
| Middleware.GuardCoversTheRouter | middleware.go:105-127 | an accepted `base/*` whose base is not `/` covers the cleaned, decoded path of every request the router would take below base - empty and dot segments anywhere after it - unless it is refused as an alias |
| Middleware.WhichEntriesGuardTheirSubtree | middleware.go:75-127 | of the accepted entries `base/*`, exactly those whose base is not `/` guard every such request |
| Middleware.DoubleSlashGuardsTheRootAlone | middleware.go:75-102 | `//*` is accepted, and of all cleaned paths covers `/` alone |
| Matchers.TakenIs | middleware.go:75-102 | an entry is taken if and only if it is a cleaned rooted path without star, query, fragment or escape, alone, with a star, or with a slash and a star |
| Matchers.OfferedIsTaken | middleware.go:89-98 | what is offered instead of an entry that ends in a slash is taken, alone and as a subtree |
| Matchers.CoversExactly | middleware.go:105-127 | on cleaned paths an entry covers its path alone, what begins with it, or its path and what is below it name by name, and nothing else |
| Matchers.AppliesWhere | middleware.go:105-127 | without an entry the middleware applies everywhere, and otherwise where one of them covers the path |
| Punycode.CheckAllowedLabel | env_app.go:494-506 | the loop takes a label exactly when every rune is plain or a stable letter, and one is not ASCII |
| Punycode.DigitGuardIsExact | env_app.go:437-440 | the guard on a digit refuses exactly the sums beyond 2^31-1 |
| Punycode.WeightGuardIsExact | env_app.go:450-453 | the guard on a weight refuses exactly the products beyond 2^31-1 |
| Punycode.ReadInteger | env_app.go:420-454 | the loop reads the variable-length integer of the specification, every intermediate within 31 bits, and ends |
| Punycode.NextBias | env_app.go:455-468 | the loop computes the bias of section 6.1 of RFC 3492 |
| Punycode.InsertNext | env_app.go:469-479 | the insertion is in range, and the code points and positions stay within their bounds |
| Punycode.DecodesAsPunycode | env_app.go:404-482 | the method accepts exactly the labels the specification decodes to an allowed label |
| PunycodeRoundTrip.ReadsWhatWasWritten | env_app.go:420-454 | a variable-length integer written by section 6.3 of RFC 3492 is read back, if it fits |
| PunycodeRoundTrip.PassDecodes | env_app.go:420-482 | one pass of the encoder over a code point is decoded back |
| PunycodeRoundTrip.DecodeInvertsEncode | env_app.go:404-482 | the decoder gives an encoded label back if and only if every insertion fits, and refuses it otherwise |
| PunycodeRoundTrip.ShortLabelsAreCountable | env_app.go:437-472 | labels of at most 1927 code points always do |
| PunycodeRoundTrip.NotEveryEncodedLabelDecodes | env_app.go:404-510 | a label `allowedLabel` takes, whose encoding stays within 31 bits and 2^31-1 characters, and which the decoder refuses |
| Rfc3492.DecoderIsTheRfcs | env_app.go:404-482 | against an encoder in the numbers of sections 5, 6.1 and 6.3 of RFC 3492: the decoder gives back every label it can count and refuses every other |
| Rfc3492.ShortLabelsDecode | env_app.go:404-482 | up to 1927 code points, the encoding decodes if and only if each is a character and none a C1 control |
| Rfc3492.PublishedStringDecodes | env_app.go:404-482 | a string of section 7.1 of RFC 3492 decodes to the seven code points published for it |
| AllowedLetters.Latin1Letters | env_app.go:512-514 | of Latin-1 the small letters are allowed, each by its code point |
| AllowedLetters.ExtendedLetters | env_app.go:515-517 | of Latin Extended-A up to U+0137 the small letters, each by its code point |
| AllowedLetters.ExtendedRestLetters | env_app.go:515-517 | and of the rest, but for the three that NFKC rewrites |
| AllowedLetters.OtherLetters | env_app.go:518-528 | past it, the six blocks from their first letter to their last |
| AllowedLetters.AllowedLabelIs | env_app.go:494-506 | a label is allowed if and only if each character is one of these or plain, and one is not ASCII |
| Json.ValueInside | session.go:322-330 | a value is read the same wherever its text stands |
| Session.EnvelopeInt | session.go:334-357 | finds the integer after the prefix if and only if one is there, spelled as JSON spells it and within 64 bits |
| Session.FastEnvelope | session.go:308-331 | accepts exactly the one spelling, with the values it spells |
| Session.FastRefinesSlow | session.go:291-306 | whatever is accepted, the reference JSON reader reads the same envelope from |
| Session.DecodeEnvelope | session.go:297-306 | for every text, what is decoded is what the reference reader of the whole object decodes: the fast path changes nothing |
| Session.IntMemberIsLastSet | session.go:302-305 | the reference reader's integer member is the last one that is not null, or zero, and an error if any spelling of it that is not null is no 64-bit integer |
| Session.OnlyNullDecodesBesides | session.go:302-305 | of the texts that are no object null alone decodes, to an envelope with nothing set |
| Session.DecimalReads | session.go:343-355 | every integer, printed, has a sign just when it is negative, and is read back if it is one of 64 bits and refused if not |
| Session.PrintedIsSpelled | session.go:291-296 | every envelope that is printed is accepted and read back, over all 64-bit integers |
| Session.SessionPayload | session.go:238-275 | there is a session if and only if there is a secret and exactly one cookie of at most 4096 bytes is a payload, a dot and that payload's signature; and the session is that payload |
| Session.VerifiedEnvelope | session.go:217-231 | the payload's envelope, if it decodes and its expiry has not passed |
| Session.SetIsReadBack | session.go:131-187 | what is set is read back with its data until the second its time is up, and not at all if it was to last no time |
| Session.SetVerifies | session.go:131-166 | what is set carries its own signature, its data and the moment it was set, if it fits in 4096 bytes |

## Left out

- IsrFront.Saver: the fields that `isr` keeps for the disk are an object of their own beside the others, so that a method's frame names what it leaves alone.
- IsrFront.Isr.InvalidateNamed: a tag is compared as it is given; `normalizeTag` trims white space off it first.
- IsrFront.Isr.Handle: methods other than GET and HEAD, which are never cached, and the replay of a copy to the client.
- IsrFront.Isr.FinishRender: does not model log lines, the once-per-key memory of them, or the copying of headers, nonce and gzip body; which results are unstorable is any predicate of the render's result.
- IsrDurability.LoadableIsSweptOrFresh: assumes that removals succeed, that a page's tags are fixed while its build runs, and one process to a directory; a directory that cannot be listed at all is not modelled.
- IsrDisk.FirstBoot: of a directory nobody's run is known of, what the first boot would load or cannot read is taken to be written as a save writes it; anything else may lie there.
- IsrBoot.LoadSaved: a file's name stands for its key, as an injective hash; bodies are hashed injectively too.
- Fsync, partial writes to a file under its final name, and clocks other than the order of steps.
- FrameReader.WsReader.Next: after a refusal the position in the stream is not stated, since the socket is closed.
- FrameReader.WsReader.ReadPayload: the buffer is a sequence that grows; the capacity the allocator picks is not modelled.
- SocketQueue: a write puts a whole frame on the wire or none of it; the tail of a write that failed is not modelled, nor are deadlines and pings' timing.
- SocketQueue: one send is under way at a time, which the relay's mutex ensures; the handshake and the drain after a violation are left out.
- Relay: JSON is not encoded or decoded; a browser's message is its decoded `topic` and `event` and the frame it would be relayed in, and `CanSubscribe` and `CanPublish` are any predicates.
- Directives: text is characters, not bytes; bytes that are not UTF-8 are not modelled.
- CacheHeader.Header.PrivateIfCookies: the spellings of the field come sorted from outside; the sort is a library's.
- GzipResponse.GzipResponseWriter.Write: does not model write errors, trailers, Vary, content sniffing or the pool of gzip writers; gzip is a stream that decodes to what was fed to it.
- GzipResponse.GzipResponseWriter.WriteHeader: of the headers only the Content-Length and whether the response must go out as it is are modelled.
- `acceptsGzip` and its quality values: independent flags over a list, with nothing that spans calls.
- Paths.CleanIsIdempotent: `path.Clean` is a stack over segments, as its documentation describes it, not its byte loop.
- CacheKeys.CacheKeyIsInjective: lower case of a host is ASCII's; the scheme is given.
- Middleware.GuardCoversTheRouter: the router is its rule for a subtree - leading segments that decode to the base's, none of them written `..`, which `ServeMux` redirects first - and not `ServeMux` itself; registration is left out.
- Punycode.DecodesAsPunycode: labels are shorter than 2^31 characters, and characters are code units below 0x80 or not.
- Json.ValueInside: the reference reader has no limit on nesting; a cookie of 4096 characters cannot reach that of encoding/json.
- Session.SessionPayload: the keyed hash is any function; comparing in constant time is not modelled.
- The IPv4, port and domain rules of `env_app.go`, HTTP transport, TLS, static files, uploads, metrics and code generation.

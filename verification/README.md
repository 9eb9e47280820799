# Dafny model of the Agentic browser demo

This project models the algorithms and state machines behind the browser demo of the Agentic wallet
(`apps/browser-demo`) and proves what they promise, for every input or every run. Each `.dfy` file holds one module;
`dafny verify dfyconfig.toml` checks all of them.

- **Requests over an untrusted relay.** `BridgeRelayClient` is one call as its environment sees it: preflight,
  request, deadline loop over polls. `BridgeRelayProtocol` puts many calls, the relay and the paired desktop into one
  state machine; a sealed box is a handle into the log of what its side sealed, so the relay can drop, delay, replay
  and swap boxes but neither open nor make one; `BridgeRelayInvariant` is what its steps keep and `BridgeRelayRuns`
  what holds over its runs. `BridgeE2ee` is the hand-written base64url codec (RFC 4648, sections 3.2, 4 and 5) and the
  stored session; `BridgeE2eeNumbers` proves that the codec is base64url.
- **In-flight registries.** `DeviceAgentClient` (unbounded, with abort listeners), `ChatStream` (the stream
  demultiplexer beside it) and `AndroidConfigClient` (capped at 100 with oldest-first eviction) are classes whose
  methods are the turns of the event loop; a run is any sequence of turns.
- **Stored state.** `ChatResearchQuota` (sliding window), `ChatCloudSync` (replica merge), `AgentProfiles` (single-use
  intents and versioned profiles), `SkillInstalls`, `AgentReviewRecovery`.
- **Text.** `MarkdownInline`, `MarkdownPasses`, `MarkdownLinks`, `ChatMarkdown`, `ChatMarkdownLines` and
  `ChatMarkdownPage` (escape, three rewrites, lines, block structure), `SolAmount` (decimal amounts).
- **Forms and lists.** `ConnectorForms`, `ConnectorFormDefaults`, `ConnectorOptions` and `ConnectorOptionKeys`,
  `EvidenceRows`, `EvidenceSections`.
- **Fallback chains.** `AndroidRestore`, `ConnectorExecution`, `DesktopConnectFlow`.
- `Wrappers`, `Text`, `Sequences`, `StableSort` and `FirstOccurrences` hold what several modules share.

A loop or an object with fields is a method or a class, proved equal to a function of its inputs or of the old state;
the theorems are lemmas about that function over all inputs and all runs. Clocks, random values, answers of the network
and of native code, `Date.parse`, `localeCompare` and localization are parameters.

## Where the code does not do what is expected of it

Each of these is a lemma with the input or run that shows it, next to a lemma with the condition under which the code
does.

- Two requests under one nonce: the desktop's nonce cache hands the first one's result to the second
  (`RepeatedNonceCrossesCalls`, for any two and any nonce the desktop accepts). With fresh nonces no reply crosses
  (`PayloadIsTheDesktopsAnswer`); the phone's nonces repeat only if their sixteen random bytes do (`RandomNonces`).
- A request id that is reused while in flight leaves the second request of the device agent waiting forever
  (`ReusedIdStrandsARequest`). A run is consistent throughout iff it reuses none (`RunIsConsistentIff`), and no run
  does in which the app generates all ids (`GeneratedIdsKeepConsistency`).
- Filling the defaults of a liquidity form is not idempotent when the amount stands on the side that is not selected
  (`WrongSideTakesTwoRounds`); `FillingIsIdempotentIff` has the exact condition. The draft code fills twice.
- Flattening a form replaces a guard that a branch field has on the branch parameter itself, so the field is shown
  where that guard should hide it (`OwnGuardIsLost`); `FlatteningKeepsMeaning` has the exact condition. Only a form
  that guards on its own branch parameter is affected (`UnguardedFormsFlatten`), and no form of connectorDrafting.ts
  does: its branch parameter is `subAction`, its guards are on `amountSide` and `rangePreset`.
- Recovering reviews with no staleness is not idempotent for a record dated in the future
  (`FutureRecordTakesTwoPasses`); `RecoveryIsIdempotentIff` has the exact condition.
- Merging replicas is not associative when one copy of an id ties with a message of another id and another copy does not
  (`MovedCopyBreaksAssociativity`, for any such messages); on lists drawn from any other set of messages it is
  (`MergeIsAssociativeIff`).
- A bar in a value can give two forms one option cache key (`BarsCollide`). For any list of dependencies other values
  give the same key iff, in the order of the key, some dependency but the first has its separator (a bar, its id, an
  equals sign) in its own value or in the one before it (`KeyIsSharedIff`; ids distinct and without bars). With one
  dependency a bar is harmless (`OneDependencySeparates`), and every `dependsOn` in connectorDrafting.ts has at most
  one entry.
- The key that removes repeated evidence rows does not separate labels with line feeds (`LineBreaksCollide`). The
  labels of two rows collide, for some values that rows can have, iff one lowered label goes on after the other with a
  line feed and then something that does not start with white space (`LabelsCollideIff`).
- Decoding base64url ignores the spare bits of the last group, so two texts can decode alike (`SpareBitsCollide`), and
  it accepts padding, white space and the standard alphabet. A text that it accepts is the encoding of what it decodes
  to iff every character is url-safe and the spare bits are zero (`EncodeDecode`).
- Zero has no normal form among SOL amounts (`ZeroIsNotCanonical`); positive amounts have one (`NormalFormIsCanonical`).
- A comment beside the link rewrite says that the character class of urls keeps the tail of an entity out of an href.
  The characters of `&quot;` are all in that class: `[a](http://x"y)` is rendered with `http://x&quot;y`
  (`QuoteEntersHref`). Where no code or bold span interferes, the href is the escaped url, which differs from the
  typed one iff that holds one of the five special characters (`HrefIsTheEscapedUrl`). It cannot end the href: no
  quote, angle bracket or white space is left in it (`InlineIsSafe`).
- A dot in the item patterns matches no carriage return, so a carriage return at its end makes a paragraph of an item
  (`CarriageReturnUnlistsItem`), except of a bare marker (`CarriageReturnEndsNoText`).
- A saved Android session that comes back with another address ends the restore with an error instead of falling
  through to the next attempt (`SessionMismatchStops`). An answer with another address falls through iff it is the one
  to the reconnect by address (`MismatchFallsThroughIff`); answers alone can end the restore with an error iff there
  are both a session key and an expected address (`NeverRaisesIff`).

## Model
| member | source | states |
|---|---|---|
| BridgeRelayRuns.PayloadIsTheDesktopsAnswer | apps/browser-demo/src/bridgeRelayClient.ts:238-309 | over every run with fresh nonces, whatever the relay delivers, a call that accepts a reply ends as the result of a desktop run on its own path, nonce and body has it, sealed for its own request id: it returns that result, or raises the error text that the result carries |
| BridgeRelayRuns.NoReplyServesTwoCalls | apps/browser-demo/src/bridgeRelayClient.ts:289-309 | no sealed reply is accepted by two calls |
| BridgeRelayRuns.AcceptedRepliesMatch | apps/browser-demo/src/bridgeRelayClient.ts:289-309 | whatever the nonces, an accepted reply is of the call's path, nonce and request id |
| BridgeRelayRuns.CallsEndOnce | apps/browser-demo/src/bridgeRelayClient.ts:312-366 | a call that has ended stays as it is, whatever happens then |
| BridgeRelayRuns.ForwardOpensOrEnds | apps/browser-demo/src/bridgeRelayClient.ts:238-262 | a request opens a call, which ends at once iff the relay does not accept it, with the error of that |
| BridgeRelayRuns.GivingUpEnds | apps/browser-demo/src/bridgeRelayClient.ts:339-366 | a waiting call can end as a timeout or as cancelled |
| BridgeRelayRuns.OnlyRequestsRun | packages/mcp-server/src/bridgePairingClient.ts:360-438 | the desktop runs only what the phone sealed, under a valid nonce and on allowlisted paths, and one nonce at most once in any 33 runs, under however many request ids it is delivered |
| BridgeRelayRuns.IdsAreAnsweredOnce | packages/mcp-server/src/bridgePairingClient.ts:370-377 | one request id gets at most one sealed reply in any 33 replies |
| BridgeRelayRuns.PollIsRepeatedIff | apps/browser-demo/src/bridgeRelayClient.ts:258-287 | a poll is repeated iff the network failed, the status is 408, 429 or 5xx, or the result is not there yet |
| BridgeRelayRuns.HonestRelayDelivers | packages/mcp-server/src/bridgePairingClient.ts:360-438 | with an honest relay and an id the desktop does not remember, a call with a valid and fresh nonce gets what its own run gives: the connector's result, or the message of the error it throws |
| BridgeRelayRuns.ThrownErrorsAreRaised | apps/browser-demo/src/bridgeRelayClient.ts:354-360 | an error with a message that the connector throws is raised by the phone with that message |
| BridgeRelayRuns.UsedIdIsRefused | packages/mcp-server/src/bridgePairingClient.ts:370-377 | under a remembered id the request is not run and no box whatever answers the call |
| BridgeRelayRuns.RepeatedNonceCrossesCalls | packages/mcp-server/src/bridgePairingClient.ts:386-401 | for any two requests under one valid nonce, with any two ids, a run in which the second gets the first one's result and never runs |
| BridgeRelayRuns.RandomNonces | apps/browser-demo/src/bridgeE2ee.ts:81-83 | the phone's nonces pass the desktop's check, and repeat iff their random bytes do |
| BridgeRelayInvariant.StepIsSound | apps/browser-demo/src/bridgeRelayClient.ts:238-309 | each step of phone, relay or desktop keeps: runs come from sealed requests, the nonce cache is the last 32 runs, replies carry results of runs, accepted replies match their call |
| BridgeRelayClient.PollUntil | apps/browser-demo/src/bridgeRelayClient.ts:339-366 | where some round decides the loop ends; the first round that is past the deadline, cancelled or decisive gives the verdict, which for a result is the result itself or the error text it carries; one poll a round; no transient error escapes; the clock may stand still or step back |
| BridgeRelayClient.ForwardAi | apps/browser-demo/src/bridgeRelayClient.ts:312-366 | path, preflight and request errors in that order, each with its condition, then the loop; a payload is returned only from the last poll made |
| BridgeRelayClient.SendingErrors | apps/browser-demo/src/bridgeRelayClient.ts:238-262 | the request fails iff the relay did not accept it with an id that is not blank, and the code of each failure |
| BridgeRelayClient.RequestIdIsTrimmed | apps/browser-demo/src/bridgeRelayClient.ts:260-261 | the id is taken without the white space around it |
| BridgeRelayClient.OneVerdict | apps/browser-demo/src/bridgeRelayClient.ts:339-366 | a deciding round leaves one verdict only |
| BridgeRelayClient.TransientErrorsChangeNothing | apps/browser-demo/src/bridgeRelayClient.ts:345-353 | with transient poll errors replaced by unresolved answers the same round decides, and the same way |
| BridgeRelayClient.OneRoundDecides | apps/browser-demo/src/bridgeRelayClient.ts:339-366 | no two rounds decide |
| BridgeRelayClient.DeadlineDecides | apps/browser-demo/src/bridgeRelayClient.ts:339-341 | when every sleep takes time the deadline ends the loop, whatever the relay does |
| BridgeRelayClient.PollsAreBounded | apps/browser-demo/src/bridgeRelayClient.ts:339-341 | when sleeps take at least the interval, the number of polls made times the interval is less than timeout plus interval: at most ceil(timeout / interval) polls |
| BridgeE2ee.Base64UrlEncode | apps/browser-demo/src/bridgeE2ee.ts:58-62 | the text decodes to the bytes again, is in the url-safe alphabet and (4n + 2) / 3 long |
| BridgeE2ee.Base64UrlDecode | apps/browser-demo/src/bridgeE2ee.ts:64-71 | the byte loop fills an array with the decoding, or reports what atob refuses |
| BridgeE2eeNumbers.AcceptedIff | apps/browser-demo/src/bridgeE2ee.ts:64-67 | a text without white space is accepted iff it is of the two alphabets but for padding, of which at most two characters fill it up to a multiple of four |
| BridgeE2ee.DecodeEncode | apps/browser-demo/src/bridgeE2ee.ts:58-71 | decoding an encoding gives the bytes back, for every byte sequence |
| BridgeE2ee.EncodeDecode | apps/browser-demo/src/bridgeE2ee.ts:58-71 | a text that the decoder accepts re-encodes to itself iff it is url-safe and its spare bits are zero |
| BridgeE2ee.UrlSafeDecodes | apps/browser-demo/src/bridgeE2ee.ts:64-71 | a url-safe text is accepted iff its length is not 1 mod 4 |
| BridgeE2ee.StandardFormIsRead | apps/browser-demo/src/bridgeE2ee.ts:64-71 | padded texts in the standard alphabet are read as well |
| BridgeE2eeNumbers.EncodingIsBase64Url | apps/browser-demo/src/bridgeE2ee.ts:58-62 | the characters, by their places in the RFC alphabet, are the base-64 digits of the number that the bytes make in base 256, shifted by the spare bits |
| BridgeE2eeNumbers.DecodingIsBase64Url | apps/browser-demo/src/bridgeE2ee.ts:64-71 | decoding a url-safe text gives the bytes of the number that its digits make, without the spare bits |
| BridgeE2ee.EncodedForm | apps/browser-demo/src/bridgeE2ee.ts:58-62 | url-safe alphabet, no padding, length (4n + 2) / 3 and never 1 mod 4 |
| BridgeE2ee.PaddingRestored | apps/browser-demo/src/bridgeE2ee.ts:65-66 | the pad formula restores exactly what the encoder stripped |
| BridgeE2ee.EncodeIsInjective | apps/browser-demo/src/bridgeE2ee.ts:58-62 | different bytes have different encodings |
| BridgeE2ee.SpareBitsCollide | apps/browser-demo/src/bridgeE2ee.ts:64-71 | two different texts with one decoding |
| BridgeE2ee.SessionSurvivesStorage | apps/browser-demo/src/bridgeE2ee.ts:199-211 | a stored session is restored as it was, and different sessions are stored differently |
| DeviceAgentClient.StepKeepsConsistency | apps/browser-demo/src/deviceAgentClient.ts:340-405 | a turn keeps pending, timers and abort listeners equal to the unsettled requests iff it does not issue an id that is in flight |
| DeviceAgentClient.RunIsConsistentIff | apps/browser-demo/src/deviceAgentClient.ts:340-405 | an interleaving is consistent at every point iff its ids in flight are distinct |
| DeviceAgentClient.StepSettlesOnce | apps/browser-demo/src/deviceAgentClient.ts:894-927 | an outcome never changes, and is given in the turn in which the request leaves pending |
| DeviceAgentClient.SettledByItsOwnEvent | apps/browser-demo/src/deviceAgentClient.ts:376-404 | a waiting request is settled by its own callback, timer, abort or throw, with that outcome, and by nothing else |
| DeviceAgentClient.SettledForGood | apps/browser-demo/src/deviceAgentClient.ts:904-927 | once settled, an outcome is the same after any further events, reused ids or not |
| DeviceAgentClient.ReusedIdStrandsARequest | apps/browser-demo/src/deviceAgentClient.ts:393-404 | with a reused id the second request never settles, whatever follows |
| DeviceAgentClient.GeneratedIdsDiffer | apps/browser-demo/src/deviceAgentClient.ts:1150-1161 | two generated ids are equal iff their source (agent request or streamed chat turn), clock reading and count are |
| DeviceAgentClient.GeneratedIdsMatch | apps/browser-demo/src/deviceAgentClient.ts:1150-1161 | a generated id has its prefix and matches the pattern of request ids, up to the last date and safe integer |
| DeviceAgentClient.GeneratedIdsKeepConsistency | apps/browser-demo/src/deviceAgentClient.ts:330-405 | every run whose ids the app generates, from either counter and under any clock, reuses no id in flight and is consistent at every point |
| DeviceAgentClient.Client.GenerateRequestId | apps/browser-demo/src/deviceAgentClient.ts:1150-1161 | the id is of the clock reading and the counter, which moves on |
| DeviceAgentClient.Client.Request | apps/browser-demo/src/deviceAgentClient.ts:340-405 | registering a request and a bridge that throws, as steps of the registry |
| DeviceAgentClient.Client.OnNativeResolve | apps/browser-demo/src/deviceAgentClient.ts:908-920 | the resolve callback is its step |
| DeviceAgentClient.Client.OnNativeReject | apps/browser-demo/src/deviceAgentClient.ts:921-927 | the reject callback is its step |
| DeviceAgentClient.Client.OnTimer | apps/browser-demo/src/deviceAgentClient.ts:376-381 | the timeout is its step |
| DeviceAgentClient.Client.OnAbort | apps/browser-demo/src/deviceAgentClient.ts:385-390 | the abort is its step |
| ChatStream.SinkReceivesItsTurn | apps/browser-demo/src/deviceAgentClient.ts:194-208 | a sink installed once receives the payloads of exactly those events between its installation and the next change of sink that carry its id, or of all of them if it was installed without one |
| ChatStream.TurnIsHeard | apps/browser-demo/src/deviceAgentClient.ts:205-208 | a turn all of whose events carry its id is heard in full |
| ChatStream.NoBleed | apps/browser-demo/src/deviceAgentClient.ts:928-958 | events with other ids, strewn anywhere among those of its turn, make no difference to what a sink receives in the run |
| ChatStream.StreamSlot.SetNativeChatStreamSink | apps/browser-demo/src/deviceAgentClient.ts:201-204 | installing and clearing a sink are their steps |
| ChatStream.StreamSlot.OnNativeEvent | apps/browser-demo/src/deviceAgentClient.ts:928-958 | a chunk, end or error event is its step |
| AndroidConfigClient.StepKeepsConsistency | apps/browser-demo/src/androidConfigClient.ts:392-441 | a turn keeps the map within its cap and equal to the unsettled prompts, oldest first, with live timers for exactly these, iff it does not reuse an id in flight |
| AndroidConfigClient.RunIsConsistentIff | apps/browser-demo/src/androidConfigClient.ts:326-441 | a run is consistent at every point iff its ids in flight are distinct |
| AndroidConfigClient.PromptIdsDiffer | apps/browser-demo/src/androidConfigClient.ts:402 | two prompts have one id iff clock reading and random number are the same |
| AndroidConfigClient.DistinctReadingsKeepConsistency | apps/browser-demo/src/androidConfigClient.ts:326-441 | so a run is consistent throughout unless two prompts draw the same number in the same millisecond |
| AndroidConfigClient.EvictionTakesTheOldest | apps/browser-demo/src/androidConfigClient.ts:414-426 | at the cap, and only there, the oldest unsettled prompt is settled and makes room |
| AndroidConfigClient.PurgeSettlesAll | apps/browser-demo/src/androidConfigClient.ts:339-345 | a purge settles every prompt and leaves no entry and no timer |
| AndroidConfigClient.StepSettlesOnce | apps/browser-demo/src/androidConfigClient.ts:333-345 | an outcome never changes |
| AndroidConfigClient.SettledByItsOwnEvent | apps/browser-demo/src/androidConfigClient.ts:401-439 | a waiting prompt is settled by its own callback, timer or throw, a purge, or eviction as the oldest, with that outcome, and by nothing else |
| AndroidConfigClient.PendingPrompts.BiometricPrompt | apps/browser-demo/src/androidConfigClient.ts:392-441 | eviction, registration and a dispatch that throws, as steps |
| AndroidConfigClient.PendingPrompts.OnCallback | apps/browser-demo/src/androidConfigClient.ts:368-375 | the callback is its step |
| AndroidConfigClient.PendingPrompts.OnTimer | apps/browser-demo/src/androidConfigClient.ts:404-413 | the timeout is its step |
| AndroidConfigClient.PendingPrompts.PurgePendingBiometric | apps/browser-demo/src/androidConfigClient.ts:339-345 | the loop over the map is one purge step |
| ChatResearchQuota.RunIsNaive | apps/browser-demo/src/chatResearchQuota.ts:12-66 | with a positive non-decreasing clock every decision is that of a limiter that keeps the full history |
| ChatResearchQuota.SnapshotCounts | apps/browser-demo/src/chatResearchQuota.ts:12-49 | counted are exactly the stored numbers that are positive, not after now and less than a window old, ascending; allowed while fewer than the limit |
| ChatResearchQuota.UseIsAdded | apps/browser-demo/src/chatResearchQuota.ts:51-66 | a granted use is added to the counted ones and stays within the limit, a denied one changes nothing |
| ChatResearchQuota.NoWindowExceedsLimit | apps/browser-demo/src/chatResearchQuota.ts:51-66 | no window of the given length ever holds more grants than the limit |
| ChatResearchQuota.DeniedUntilRetry | apps/browser-demo/src/chatResearchQuota.ts:39-48 | a denied caller stays denied before now + retryAfterMs |
| ChatResearchQuota.AllowedAtRetry | apps/browser-demo/src/chatResearchQuota.ts:39-48 | and is allowed exactly then, when only the recorder writes the list |
| ChatResearchQuota.RetryIsExactWhen | apps/browser-demo/src/chatResearchQuota.ts:39-48 | for any stored list, the retry time is right iff fewer than the limit of its times lie after the oldest counted one and within a window of it |
| ChatResearchQuota.RetryOfPastIsExactWhen | apps/browser-demo/src/chatResearchQuota.ts:39-48 | without times in the future, iff fewer than the limit of the counted times are newer than the oldest |
| ChatCloudSync.MergeChatMessagesById | apps/browser-demo/src/chatCloudSync.ts:83-94 | the loop over both lists and the sort compute the merge |
| ChatCloudSync.MergeIsTheUnion | apps/browser-demo/src/chatCloudSync.ts:83-94 | exactly the union of valid ids, each once, sorted by createdAt |
| ChatCloudSync.LocalWins | apps/browser-demo/src/chatCloudSync.ts:80-91 | on an id collision the local copy stays |
| ChatCloudSync.MergeIsIdempotent | apps/browser-demo/src/chatCloudSync.ts:83-94 | merging the result again changes nothing |
| ChatCloudSync.MergeOrder | apps/browser-demo/src/chatCloudSync.ts:87-93 | one message stands before another iff its time stamp is earlier or, for a tie, its id comes first in the two lists |
| ChatCloudSync.TiesKeepFirstOccurrence | apps/browser-demo/src/chatCloudSync.ts:87-93 | messages that tie stand in the order of the first occurrence of their ids |
| ChatCloudSync.MergeIsAssociativeIff | apps/browser-demo/src/chatCloudSync.ts:83-94 | associative as a list on all lists drawn from a set of messages iff no copy of an id in it stands apart from a message that another copy ties with |
| ChatCloudSync.MergeIsAssociative | apps/browser-demo/src/chatCloudSync.ts:83-94 | so it is when an id determines its time stamp |
| ChatCloudSync.MovedCopyBreaksAssociativity | apps/browser-demo/src/chatCloudSync.ts:83-94 | for any messages that break the condition, lists that the two ways of merging order differently |
| MarkdownInline.EscapeIsPerCharacter | apps/browser-demo/src/chatMarkdown.ts:7-14 | the five replacements in turn are one character-wise replacement |
| MarkdownInline.UnescapeEscape | apps/browser-demo/src/chatMarkdown.ts:7-14 | escaping loses nothing |
| MarkdownInline.RewriteKeeps | apps/browser-demo/src/chatMarkdown.ts:17-22 | each rewrite keeps the markup safe and keeps what it reads back as |
| MarkdownInline.InlineIsSafe | apps/browser-demo/src/chatMarkdown.ts:17-22 | for every text the inline markup is plain characters and allowlisted tags, with hrefs free of quotes, angle brackets and white space |
| MarkdownInline.InlineIsReversible | apps/browser-demo/src/chatMarkdown.ts:17-22 | tags read back as markdown and entities as characters give the text again |
| MarkdownInline.EveryBracketIsATag | apps/browser-demo/src/chatMarkdown.ts:17-22 | in safe markup every '<' starts an allowlisted tag |
| MarkdownInline.RewriteAppliesIff | apps/browser-demo/src/chatMarkdown.ts:18-22 | a rewrite changes a text iff the text holds a span of its kind |
| MarkdownInline.InlineIsEscapeIff | apps/browser-demo/src/chatMarkdown.ts:17-22 | the markup is the bare escape iff no pass finds a span |
| MarkdownPasses.CharacterStays | apps/browser-demo/src/chatMarkdown.ts:17-22 | where no span starts a rewrite copies a character and goes on |
| MarkdownPasses.CodeIsTagged | apps/browser-demo/src/chatMarkdown.ts:18 | a code span becomes its content between code tags, and the rewrite goes on after it |
| MarkdownPasses.BoldIsTagged | apps/browser-demo/src/chatMarkdown.ts:19 | a bold span becomes its content between strong tags |
| MarkdownPasses.LinkIsAnchored | apps/browser-demo/src/chatMarkdown.ts:22 | a link becomes its text in an anchor on its url |
| MarkdownPasses.OneSpanStarts | apps/browser-demo/src/chatMarkdown.ts:18-22 | at most one span of each kind starts at a place, so these equations fix the result |
| MarkdownPasses.UrlIff | apps/browser-demo/src/chatMarkdown.ts:22 | a url is http or https and at least one character, none of them white space, a quote, an angle bracket or a closing parenthesis |
| MarkdownLinks.EscapedUrlIff | apps/browser-demo/src/chatMarkdown.ts:17-22 | an escaped text passes the url pattern iff the typed one is http or https followed by characters other than white space and a closing parenthesis |
| MarkdownLinks.HrefIsTheEscapedUrl | apps/browser-demo/src/chatMarkdown.ts:17-22 | a link in a text without code and bold spans is rendered with the escaped url as its href, which differs from the typed one iff that holds a special character |
| MarkdownLinks.QuoteEntersHref | apps/browser-demo/src/chatMarkdown.ts:20-22 | a typed url whose quote becomes an entity in the href |
| ChatMarkdown.RenderChatMarkdown | apps/browser-demo/src/chatMarkdown.ts:16-44 | the line loop with its open list writes the blocks of the text |
| ChatMarkdown.BlocksAreTheMaximalRuns | apps/browser-demo/src/chatMarkdown.ts:23-43 | the blocks are the one way to group the lines into maximal runs: no list is empty or split, and lines appear once, in order |
| ChatMarkdownPage.PageShowsTheBlocks | apps/browser-demo/src/chatMarkdown.ts:23-43 | a reader of block tags, with at most one list open, accepts the page, ends with none open and finds the blocks in order: kind and items of each list, each paragraph, rendered inline |
| ChatMarkdown.RenderedTagsAreAllowlisted | apps/browser-demo/src/chatMarkdown.ts:16-44 | for every text each '<' of the page starts one of the fixed tags |
| ChatMarkdown.SplitThenJoin | apps/browser-demo/src/chatMarkdown.ts:26 | splitting into lines loses nothing |
| ChatMarkdownLines.ItemIff | apps/browser-demo/src/chatMarkdown.ts:27-28 | a line is an item with a text iff it is space, a dash or star or number with dot, more space and that text, which holds no line terminator |
| ChatMarkdownLines.OtherwiseBlankOrParagraph | apps/browser-demo/src/chatMarkdown.ts:35-40 | any other line is blank iff it is all space, and else a paragraph |
| ChatMarkdown.CarriageReturnEndsNoText | apps/browser-demo/src/chatMarkdown.ts:27-28 | a line that ends in a carriage return is an item iff it is a bare marker, and then has no text |
| ChatMarkdown.CarriageReturnUnlistsItem | apps/browser-demo/src/chatMarkdown.ts:27-28 | one item that a carriage return makes a paragraph |
| SolAmount.NormalizeKeepsLamports | apps/browser-demo/src/connectorDrafting.ts:1292-1304 | normalization keeps the lamports, and every text that is not a positive amount |
| SolAmount.NormalizeIsIdempotent | apps/browser-demo/src/connectorDrafting.ts:1292-1304 | normalizing twice is normalizing once |
| SolAmount.NormalFormIsCanonical | apps/browser-demo/src/connectorDrafting.ts:1292-1304 | positive amounts have one normal form iff they are the same lamports |
| SolAmount.FormatDenotes | apps/browser-demo/src/connectorDrafting.ts:1300-1303 | the printed form denotes the lamports it was printed from |
| SolAmount.NormalFormIsShortest | apps/browser-demo/src/connectorDrafting.ts:1300-1303 | no superfluous zero in front or at the end, no dot without a fraction |
| SolAmount.DecimalIff | apps/browser-demo/src/connectorDrafting.ts:1294 | an amount is digits with at most one dot, and at least one digit |
| SolAmount.LamportsOf | apps/browser-demo/src/connectorDrafting.ts:1295-1298 | it denotes its digits without the dot, scaled by the open places; with more than nine places it is no amount |
| SolAmount.ZeroIsNotCanonical | apps/browser-demo/src/connectorDrafting.ts:1299 | zeros of any lengths denote the same and stay different |
| ConnectorForms.FormTemplateFields | apps/browser-demo/src/connectorDrafting.ts:2996-3020 | the loops build the flattened list |
| ConnectorForms.ConnectorVisibleFormFields | apps/browser-demo/src/connectorDrafting.ts:2917-2933 | the loop builds the list of the selected branch |
| ConnectorForms.SelectedFormIs | apps/browser-demo/src/connectorDrafting.ts:2917-2933 | the selected form is the choice between branches, then the selected branch's fields but for those the form has itself or that leave no choice, then its own |
| ConnectorForms.SelectedBranchIff | apps/browser-demo/src/connectorDrafting.ts:2826-2838 | selected is the branch that the parameter names, else the default one, else the first |
| ConnectorForms.FlatteningKeepsMeaning | apps/browser-demo/src/connectorDrafting.ts:2996-3020 | when the parameter names a branch, what the flattened form shows is what the selected form shows, in order, iff no field loses a guard of its own that alone hides it |
| ConnectorForms.UnguardedFormsFlatten | apps/browser-demo/src/connectorDrafting.ts:2996-3020 | so always for a form without guards on its own branch parameter |
| ConnectorForms.OwnGuardIsLost | apps/browser-demo/src/connectorDrafting.ts:2996-3020 | a form with such a guard whose flattening shows a hidden field |
| ConnectorForms.UnknownBranchShowsNone | apps/browser-demo/src/connectorDrafting.ts:3423-3434 | when it names none, the flattened form shows no branch field |
| ConnectorForms.RenderingIsAStableSort | apps/browser-demo/src/connectorDrafting.ts:2901-2915 | rendering is a permutation of the selected form, sorted by rank, stable within a rank |
| ConnectorFormDefaults.ApplyConnectorSubActionDefaults | apps/browser-demo/src/connectorDrafting.ts:2840-2860 | the loop over the branch's fields fills the defaults |
| ConnectorFormDefaults.ApplyOneSidedDefaults | apps/browser-demo/src/connectorDrafting.ts:2862-2879 | the one-sided amounts are copied and removed |
| ConnectorFormDefaults.FillingIsIdempotentIff | apps/browser-demo/src/connectorDrafting.ts:2840-2879 | filling is idempotent iff the parameters that come in do not give `amount` and, once fields have their defaults, an amount on the unselected side alone |
| ConnectorFormDefaults.OppositeSideIsEmpty | apps/browser-demo/src/connectorDrafting.ts:2840-2879 | after filling no amount and no maximum is left on the unselected side, the selected one has its amount or `amount`, and every other parameter is as given |
| ConnectorFormDefaults.GivenForField | apps/browser-demo/src/connectorDrafting.ts:2881-2889 | a field gets its default where it is blank, and always where it leaves no choice |
| ConnectorFormDefaults.DefaultsNameTheBranchIff | apps/browser-demo/src/connectorDrafting.ts:2826-2849 | afterwards the parameter names a branch iff it was blank or named one |
| ConnectorFormDefaults.WrongSideTakesTwoRounds | apps/browser-demo/src/connectorDrafting.ts:2873-2876 | a form and parameters for which a second filling changes the result |
| AgentProfiles.AcceptedIff | apps/browser-demo/vite.acpDevApi.ts:613-659 | with distinct nonces and a clock that does not step back a write is accepted iff it is signed and answers an earlier intent, unexpired and not spent in between: same action, same wallet, same domain, the text that was issued for these, and for a publish the same payload hash |
| AgentProfiles.AcceptedAnswers | apps/browser-demo/vite.acpDevApi.ts:613-659 | the first half needs neither: under any clock an accepted write is signed and answers such an intent |
| AgentProfiles.IntentsAreSpentOnce | apps/browser-demo/vite.acpDevApi.ts:613-649 | accepted writes map one-to-one into issued intents, under any clock |
| AgentProfiles.RecordsChangeByTheirWalletsIntent | apps/browser-demo/vite.acpDevApi.ts:515-566 | a wallet's record changes only through an intent that was issued to that wallet |
| AgentProfiles.WriteWalletIff | apps/browser-demo/vite.acpDevApi.ts:577-586 | the wallet of a write is the one its body names, else the connected one |
| AgentProfiles.WalletIff | apps/browser-demo/vite.acpDevApi.ts:577-586 | a wallet is 32 to 44 letters and digits without the look-alikes |
| AgentProfiles.VersionCountsStores | apps/browser-demo/vite.acpDevApi.ts:515-566 | a wallet's version is the number of its stored writes |
| AgentProfiles.ProfileIsTheLastPublished | apps/browser-demo/vite.acpDevApi.ts:515-566 | a profile is the last published payload, discoverable unless taken down since, dated by the last of these writes |
| AgentProfiles.LocalAgentProfiles.HandleIntent | apps/browser-demo/vite.acpDevApi.ts:445-486 | issuing an intent is its step, with its response |
| AgentProfiles.LocalAgentProfiles.HandleWrite | apps/browser-demo/vite.acpDevApi.ts:488-566 | publishing and taking down are their steps, with the response or the refusal of each case |
| AgentProfiles.LocalAgentProfiles.AssertIntent | apps/browser-demo/vite.acpDevApi.ts:613-649 | the checks in order, and the intent spent when all pass |
| AgentProfiles.LocalAgentProfiles.PruneExpired | apps/browser-demo/vite.acpDevApi.ts:652-659 | the loop leaves exactly the unexpired intents |
| SkillInstalls.RunIsConsistent | apps/browser-demo/vite.acpDevApi.ts:1000-1082 | over every run at most one live install for each wallet and skill, and one record for each id |
| SkillInstalls.InstallsWhereItMay | apps/browser-demo/vite.acpDevApi.ts:1000-1062 | a request adds an active install iff it names the published version, accepts its price and the wallet has no live install of the skill |
| SkillInstalls.ActsOnItsInstall | apps/browser-demo/vite.acpDevApi.ts:1064-1082 | an action sets the status of the live install with its id, and changes nothing where there is none |
| SkillInstalls.RevokedIsFinalIff | apps/browser-demo/vite.acpDevApi.ts:1064-1082 | a step leaves a revoked install as it is iff it does not install under the same id |
| SkillInstalls.RevokedForGood | apps/browser-demo/vite.acpDevApi.ts:1064-1082 | with fresh ids a revoked install is the same after any further events |
| SkillInstalls.CountIsLiveWallets | apps/browser-demo/vite.acpDevApi.ts:1167-1171 | the count is the number of wallets with a live install, paused ones included |
| SkillInstalls.CountIsInstallsLessUninstalls | apps/browser-demo/vite.acpDevApi.ts:1167-1171 | with fresh ids the count is installs less uninstalls |
| SkillInstalls.PauseThenResume | apps/browser-demo/vite.acpDevApi.ts:1069-1082 | pausing and resuming change nothing else |
| SkillInstalls.CatalogIsTheLastPublished | apps/browser-demo/vite.acpDevApi.ts:982-998 | the catalog has the manifest published last under each id, dated by its first and its last publication |
| SkillInstalls.LocalSkills.PublishSkillManifest | apps/browser-demo/vite.acpDevApi.ts:982-998 | publishing replaces the catalog entry of the manifest's id, keeps its date of creation, and answers 200 or 201 |
| SkillInstalls.LocalSkills.HandleInstallSkill | apps/browser-demo/vite.acpDevApi.ts:1000-1062 | installing is its step, with its response |
| SkillInstalls.LocalSkills.HandleSkillInstallAction | apps/browser-demo/vite.acpDevApi.ts:1064-1082 | pause, resume and uninstall are their step; the answer is the changed install or a 404 |
| AgentReviewRecovery.RecoverInterruptedAgentReviews | apps/browser-demo/src/agentReviewRecovery.ts:35-102 | the loop replaces exactly the interrupted records; `changed` iff the result differs |
| AgentReviewRecovery.RecoverRecord | apps/browser-demo/src/agentReviewRecovery.ts:44-99 | one record, and whether it was replaced |
| AgentReviewRecovery.ReplacedIff | apps/browser-demo/src/agentReviewRecovery.ts:53-93 | a record is replaced iff its review or one of its exchanges was interrupted |
| AgentReviewRecovery.StaleIff | apps/browser-demo/src/agentReviewRecovery.ts:112-118 | what has a date is stale from the given age on, what has none always is |
| AgentReviewRecovery.ReplacedRecord | apps/browser-demo/src/agentReviewRecovery.ts:53-93 | an interrupted review has failed now and any other keeps its status and reason; unanswered exchanges have failed now and the others stand as they were |
| AgentReviewRecovery.RecoveryIsIdempotentIff | apps/browser-demo/src/agentReviewRecovery.ts:35-118 | idempotent iff no record needs a second pass, with that condition on the input |
| AgentReviewRecovery.RecoveryIsIdempotent | apps/browser-demo/src/agentReviewRecovery.ts:35-118 | so it is with a positive stale age, or with nothing dated in the future |
| AgentReviewRecovery.FutureRecordTakesTwoPasses | apps/browser-demo/src/agentReviewRecovery.ts:75-92 | a record for which it is not |
| AgentReviewRecovery.NothingStaysInterrupted | apps/browser-demo/src/agentReviewRecovery.ts:55-118 | with no staleness and nothing in the future no exchange stays pending, and a review stays `checking` iff it is a resolved ask-only one |
| EvidenceRows.ReviewEvidenceRows | apps/browser-demo/src/agentReviewPresentation.ts:438-593 | the calls of addRow, the extra entries, the fallback and the cap compute the rows |
| EvidenceRows.RowBuilder.AddRow | apps/browser-demo/src/agentReviewPresentation.ts:448-460 | adds a trimmed, clipped row unless it is empty or its key was seen |
| EvidenceRows.RowsAreDistinct | apps/browser-demo/src/agentReviewPresentation.ts:448-593 | keys are unique and there are at most 32 rows |
| EvidenceRows.RowsAreTheFirsts | apps/browser-demo/src/agentReviewPresentation.ts:448-593 | the rows are the first 32 of the first offered rows of each key, in order; offered are the parts, then entries labelled unlike all rows, or else the fallback |
| EvidenceRows.RowTone | apps/browser-demo/src/agentReviewPresentation.ts:455-459 | a row has the tone it is offered with, else that of its label and value as shown |
| EvidenceRows.KeySeparates | apps/browser-demo/src/agentReviewPresentation.ts:452 | for labels that do not go on after each other with a line feed, equal keys mean equal label and value up to case |
| EvidenceRows.RowsAreMade | apps/browser-demo/src/agentReviewPresentation.ts:448-460 | the rows of that condition are exactly the non-empty rows addRow makes of some label and value |
| EvidenceRows.LabelsCollideIff | apps/browser-demo/src/agentReviewPresentation.ts:448-460 | the labels of two rows that addRow can make share a key for some of its values iff one lowered label goes on after the other with a line feed and then something other than white space |
| EvidenceRows.LineBreaksCollide | apps/browser-demo/src/agentReviewPresentation.ts:452 | two different rows with one key, the second of which is dropped |
| EvidenceSections.ReviewEvidenceSections | apps/browser-demo/src/agentReviewPresentation.ts:595-642 | the section map and the ordered loop compute the sections |
| EvidenceSections.SectionsConserveRows | apps/browser-demo/src/agentReviewPresentation.ts:595-642 | decision rows, evidence rows (without summaries where there are decision rows) and advanced rows appear once each, whatever the localization |
| EvidenceSections.SectionsAreInOrder | apps/browser-demo/src/agentReviewPresentation.ts:620-641 | sections in fixed order, none empty or twice, each listing its rows in their order |
| ConnectorOptionKeys.KeyIgnoresOrder | apps/browser-demo/src/connectorOptionProviders.ts:95-108 | the cache key does not depend on the order of the dependencies |
| ConnectorOptionKeys.KeySeparates | apps/browser-demo/src/connectorOptionProviders.ts:95-108 | equal keys mean equal wallet, cluster and values when values hold no bar and wallet and cluster no colon |
| ConnectorOptionKeys.ProvidersAreApart | apps/browser-demo/src/connectorOptionProviders.ts:95-108 | providers whose ids hold no colon never share a key |
| ConnectorOptionKeys.KeyIsSharedIff | apps/browser-demo/src/connectorOptionProviders.ts:95-108 | for any distinct ids without bars, other values give the same cache key iff some dependency but the first in sorted order has its separator in its own value or in the one before it |
| ConnectorOptionKeys.UnambiguousKeySeparates | apps/browser-demo/src/connectorOptionProviders.ts:95-108 | a form without such a value shares its key with no form of another wallet, cluster or values |
| ConnectorOptionKeys.OneDependencySeparates | apps/browser-demo/src/connectorOptionProviders.ts:95-108 | with one dependency keys are equal iff wallet, cluster and value are, whatever the value holds |
| ConnectorOptionKeys.BarsCollide | apps/browser-demo/src/connectorOptionProviders.ts:95-108 | two forms with one cache key, for every provider, wallet and cluster |
| ConnectorOptions.JupiterLendBorrowVaults | apps/browser-demo/src/connectorOptionProviders.ts:426-472 | the three loops compute the join |
| ConnectorOptions.EachVaultOnce | apps/browser-demo/src/connectorOptionProviders.ts:426-472 | every vault with a position or in the catalog exactly once, positions first, captions from the catalog |
| ConnectorOptions.OptionsAreTheJoin | apps/browser-demo/src/connectorOptionProviders.ts:426-472 | first each vault with a position, then each other vault of the catalog, by first occurrence, with caption and detail |
| ConnectorOptions.RaydiumPools | apps/browser-demo/src/connectorOptionProviders.ts:1356-1374 | every pool of either kind once, the first option of each |
| ConnectorOptions.VaultsAreSorted | apps/browser-demo/src/connectorOptionProviders.ts:922-929 | a permutation sorted by rank and label, stable |
| AndroidRestore.AndroidNativeWalletBackend.RestoreLatest | apps/browser-demo/src/androidNative.ts:218-366 | the loop over the attempts computes the chain, and a restored address is the backend's active one |
| AndroidRestore.AndroidNativeWalletBackend.Reconnect | apps/browser-demo/src/androidNative.ts:455-547 | a native answer becomes the active status, and its address the result |
| AndroidRestore.ChainIsTheFirstDecisive | apps/browser-demo/src/androidNative.ts:254-332 | the first attempt whose answer is taken, or that stops the restore, decides; the others are passed over |
| AndroidRestore.AttemptsAreInOrder | apps/browser-demo/src/androidNative.ts:222-252 | exactly the attempts that the options allow, each once: saved session, account by address, latest authorization |
| AndroidRestore.RestoredIsExpected | apps/browser-demo/src/androidNative.ts:295-332 | a restored address is the expected one unless none was expected or the latest authorization won |
| AndroidRestore.SessionMismatchStops | apps/browser-demo/src/androidNative.ts:503-508 | a session with another address raises an error and no other attempt is made |
| AndroidRestore.MismatchFallsThroughIff | apps/browser-demo/src/androidNative.ts:295-332 | an answer with another address falls through iff it is the one to the reconnect by address; the session attempt throws and the latest authorization is taken |
| AndroidRestore.MismatchDecides | apps/browser-demo/src/androidNative.ts:254-332 | so in the whole chain: the first such answer raises, hands over to the attempts that are left, or is restored |
| AndroidRestore.NeverRaisesIff | apps/browser-demo/src/androidNative.ts:254-332 | where every attempt is answered no error is possible iff the session key is blank or no address is expected |
| ConnectorExecution.ConnectorPrepareRouteChain | apps/browser-demo/src/connectorExecution.ts:234-260 | the pushes build the chain, which is never empty |
| ConnectorExecution.ChainIsTheOpenRoutes | apps/browser-demo/src/connectorExecution.ts:234-260 | exactly the routes open to the action, each once, by preference |
| ConnectorExecution.FetchWithFallback | apps/browser-demo/src/connectorExecution.ts:154-169 | routes are asked in turn up to the first that answers |
| ConnectorExecution.Usable | apps/browser-demo/src/connectorExecution.ts:118-121 | bytes or summary are usable iff they hold something other than white space |
| ConnectorExecution.ExecuteBrowserConnectorAction | apps/browser-demo/src/connectorExecution.ts:123-169 | the wallet signs at most once, after the requests, and exactly the bytes of the first answer; the status is looked up only after that; which error each failure gives |
| DesktopConnectFlow.RunIsTidy | apps/browser-demo/src/desktopConnectFlow.ts:210-246 | in every reachable state a step's fields are set only in that step |
| DesktopConnectFlow.RunShowsItsScreens | apps/browser-demo/src/desktopConnectFlow.ts:190-246 | the reducer is a stack of screens: after any actions the state shows those that were entered and not left |
| DesktopConnectFlow.BackReachesIdle | apps/browser-demo/src/desktopConnectFlow.ts:190-208 | `back` reaches the initial state after exactly as many presses as screens are open, at most three |

## Left out

- Cryptography (ECDH, HKDF, HMAC, AES-GCM): a sealed box is ideal. Pairing, claiming, unpairing and relay-host checks.
- Plaintext pairings, for which nothing binds a reply to its call.
- The desktop's marks for runs in progress: its poll loop handles one request after the other, so they are never seen
  set.
- A poll loop that never ends: `PollUntil` takes rounds one of which decides. A clock that never reaches the deadline
  beside a relay that never resolves does not give them.
- `fetch`, the DOM, Capacitor, Android and iOS bridges, Vite, analytics, local storage (a write that fails), logging,
  payload redaction.
- Strings are sequences of characters; JavaScript's are sequences of UTF-16 units. Lengths and clipping can differ for
  characters outside the basic plane.
- LZString compression, `decideCloudChatMeta` and the cloud stub predicates: decision tables of a few cases.
- The checks of `deviceAgentRequest` before it registers a request (availability, payload size, id pattern) and the
  timeout wrapper of the iOS bridge. A caller may supply any id (line 330 of
  deviceAgentClient.ts); the one that does draws it from a counter of its own, which the runs of generated ids include.
- Pending push requests and other registries of the same shape.
- `AndroidNativeWalletBackend.cancel` and signing: a cancelled approval can be overwritten by a later native result.
- Concrete connectors, their catalogs, aliases and the regular expressions of field ranks and section topics:
  parameters.
- The fields of evidence rows before they reach addRow, and the phrase packs. `toLowerCase` is a parameter;
  `LabelsCollideIff` asks of it that line feeds and leading white space stay, that it is idempotent and that no text
  grows more than threefold.
- The signature of a profile write: the development server asks only that it is not blank.
- Records of skill installs are values here; the source changes the record it finds, and clones it for every response.
- The recent-execution statistics of skills.

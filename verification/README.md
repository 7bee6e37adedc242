# Verified models of the call-statistics server

The server keeps one OAuth credential per Bitrix24 portal, reads telephony statistics with it,
and reacts to lifecycle events that arrive late, twice or out of order. This project models the
parts of that behaviour that are hard to get right and proves what they are meant to guarantee.
`dafny verify dfyconfig.toml` checks all of it.

- **Portal token** (`TokenProtocol`, `TokenSafety`, `TokenTheorems`). Any number of callers of
  `with_portal_token` interleave with the six handlers that store a credential after an admin proof, with the transition
  that clears it, and with an OAuth server whose refresh tokens work once. One state machine, one
  inductive invariant, theorems over every run.
- **Wire codec** (`Percent`, `PhpArrays`, `PhpRoundTrip`, `PhpLeaves`, `Batch`, `BatchAnswer`, `StatisticFilter`). Nested parameters become
  `A[b][c]` names, are percent-encoded, and are nested once more inside `cmd[key]` strings; the
  decoders undo each layer, and no accepted statistics filter is lost on the way.
- **Lifecycle events** (`Lifecycle`, `LifecycleRuns`, `LifecycleRaces`). The ladder that judges a delivery from an
  unlocked read, runs in which installs and other deliveries fall between that read and its
  transaction, and exactly what a delivery can meet when it is applied.
- **Windows, gates and caches** (`SlidingWindow`, `ViewerTokens`). Each class carries the full history
  it stands for as a ghost field, and every answer is stated about that history.
- **Scanners and readers** (`TextRedaction`, `TreeRedaction`, `RedactionLaws`, `HostNames`, `Hosts`, `StatisticRows`,
  `StatisticCells`, `StatisticFields`, `Users`). Each computes as the source does; `RedactionLaws` and
  `StatisticCells` say what comes out without naming the scanner or the parser.

Methods with loops and classes with fields follow the source's imperative code; each is proved
against a specification function, and what the source promises is proved about that function.

## Where the code and its documentation differ

- An `ok` row holds a spent refresh token exactly when an exchange was lost since the pair was last
  stored or cleared: its answer came back unusable with a non-terminal error, or the process died
  before the commit (`SpentIffLost`). `GarbledAnswerIsFatal` gives the run in which the next caller
  presents it. A handler that is posted the stored pair itself would do the same (`PostedPairMustBeForeign`).
- `events.py` says a stale uninstall never wipes a reinstall. The replay check is made on an unlocked
  read, so it does when the reinstall falls between that read and the transaction, and in no other
  way (`OnlyUninstallsInFlightWipe`; `RaceIsExact` is the smallest example).
- `events.py` says an update for an uninstalled portal is a no-op, and that a healthy portal keeps its working
  credential. Both are decided on the unlocked read. An update applied after an uninstall still writes the row
  (`UpdateMeetsUninstall`), and a re-seed or a creation in flight revives an uninstalled portal and replaces a credential
  that was healed since its read, whenever the last turn since that read was a wipe, or a heal
  (`StoreInFlightMeets`). The runs are `UpdateRevivesUninstalled`, `CreateRevivesUninstalled` and
  `ReseedReplacesHealthy`.
- `events.py` and section 4.9 of `docs/architecture.md` say an update is the only event that may replace the
  application token. An install event that read no token replaces one stored since, and only then
  (`SeedMeetsToken`; the run is `SeedReplacesStored`).
- Only the cursor's UPDATE is guarded. An update already in flight when a newer one is applied still replaces
  the newer application token (`StaleUpdateReplacesNewer`); a stale action can land if and only if
  it is in flight already (`StaleActionWasInFlight`, `StaleLandsIffInFlight`).
- `with_portal_token` says it refreshes at most once. One call may make two exchanges: before `fn`,
  when the token is about to expire, and after it (`TwoExchangesHappen`). Two is the bound (`CallerIsBounded`).
- `clear_credentials` says the version bump is what stops a waiting refresher. The re-read ignores the version of
  a row without an access token; the missing refresh token stops it (`ClearedStaysCleared`).
- The comments of the three host acceptors say they agree. Python's `$` also matches before a final newline, so
  they agree exactly on values without a newline that both languages trim alike (`AcceptorsAgree`);
  `NewlineAfterLabel` and `NewlineBeforePort` are the values on which they part.
- A filter value that is a list of nulls is accepted and then lost (`AcceptedYetLost`); an entry
  is lost if and only if every leaf of its value is null (`FilterSurvives`).
- `numeric(12,4)` does not hold every cost that passes the range check: rounding comes after it
  (`CostBound` says which costs stay below the limit; `CostReachesLimit` is one that does not).
- `client.py` says the list and the mapping shape of a batch answer never differ to a caller. They do when
  command keys such as `0` stand out of place, and only then (`PickIsMeant`, `MisalignedIsMisread`).
- Not every parameter key survives the wire. The round trip holds if and only if every leaf's path is
  carried: non-empty bracket-free keys, or a single top-level name that the decoder does not take
  apart (`RoundTripIffCarried`). `BracketedKeyCollides` is an example that is not.

## Model

| member | source | states |
|---|---|---|
| TokenProtocol.PortalRow.Refresh | api/app/bitrix/oauth.py:614-738 | reuse when the version moved, error without a refresh token, otherwise one exchange: its pair is stored under the next version, another portal's marks the row for re-authorization, and so does `invalid_grant`, a missing authorization, a payment or a scope error; any other error leaves the row as it was |
| TokenProtocol.PortalRow.Store | api/app/services/portals.py:204-364 | storing a credential replaces the whole pair, its endpoint and status, and bumps the version |
| TokenProtocol.PortalRow.Clear | api/app/services/portals.py:481-505 | clearing drops both tokens, requires re-authorization and bumps the version |
| TokenTheorems.SpentIffLost | api/app/bitrix/oauth.py:614-738 | in every run, whenever the lock is free or held by a caller about to exchange, the refresh token of an `ok` row is spent if and only if an exchange was lost since the pair was last stored or cleared; a re-authorization ends the loss |
| TokenTheorems.NoSpentTokenPresented | api/app/bitrix/oauth.py:614-738 | in every run that lost no exchange since the pair was stored, an `ok` row holds an unspent refresh token whenever the lock is free, and no exchange on an `ok` row presents a spent one |
| TokenTheorems.LossIsExact | api/app/bitrix/oauth.py:684-731 | one commit or crash on an `ok` row, after any earlier losses: the row is healthy afterwards unless the token was spent with a non-terminal error, or was already lost and is declined with one; after a crash, unless it is spent |
| TokenTheorems.TerminalFailureSticks | api/app/bitrix/oauth.py:123-130 | once one of those four errors or another portal's pair has come back, the row does not say `ok` in any continuation until a handler stores a credential; any other error changes nothing in the row |
| TokenTheorems.WhatIsStored | api/app/services/portals.py:204-364 | a handler's store writes the proved pair, at the endpoint it was issued for, under the next version, or under version 1 for a new row |
| TokenTheorems.GarbledAnswerIsFatal | api/app/bitrix/oauth.py:684-731 | from any state with a live token, a run in which one garbled answer makes the next caller present a spent token |
| TokenTheorems.PostedPairMustBeForeign | api/app/handlers/open.py:546-622 | a handler's exchange step on a healthy row leaves it healthy if and only if it was not posted the stored pair, and leaves no trace of it; the theorems above assume of a run that posted pairs were issued by the portal |
| TokenTheorems.StoredCredentialIsProven | api/app/handlers/install.py:410-491 | in every run of the refresher and of the exchange, admin proof, store sequence that the six handlers share (their kind decides only whether a row must exist), the stored pair descends, by exchanges that all answered this member, from a pair whose own access token proved an administrator at its own endpoint, and the stored endpoint is that pair's |
| TokenTheorems.OneRotationPerVersion | api/app/bitrix/oauth.py:707-731 | at most one exchange succeeds per stored `token_version`, crashes and lost answers included |
| TokenTheorems.ClearedStaysCleared | api/app/services/portals.py:488-494 | in every run, from the moment a credential is cleared until a handler stores another, the row holds no pair and no caller is handed one, whatever a waiting refresher had seen |
| TokenTheorems.CallerIsBounded | api/app/bitrix/oauth.py:777-814 | at most two runs of `fn` and two exchanges; a second run follows an expired-token answer and uses a token stored under a greater version |
| TokenTheorems.TwoExchangesHappen | api/app/bitrix/oauth.py:777-814 | from every initial state a run in which one call makes two exchanges and runs `fn` twice: the bound is attained |
| TokenTheorems.CallerTerminates | api/app/bitrix/oauth.py:777-814 | no caller takes more than nine steps in any run, however the others interleave |
| TokenTheorems.NoDeadlock | api/app/bitrix/oauth.py:614-738 | while a caller is unfinished, some caller can step without help from the outside |
| TokenTheorems.LockedSectionIsAtomic | api/app/bitrix/oauth.py:663-731 | a caller's steps leave version and token alone, except the one that hands out a credential, which is an atomic "ensure a token is stored above the version seen" |
| TokenTheorems.SectionIsRefreshLocked | api/app/bitrix/oauth.py:614-738 | lock, exchange and commit of the state machine compute what the program's locked section computes |
| PhpArrays.EncodeInto | api/app/bitrix/client.py:106-124 | the shared list grows by exactly the encoding of the value, or the call fails with the depth error of the first path that is too deep |
| PhpArrays.PhpQueryPairs | api/app/bitrix/client.py:127-143 | the loop over the parameters yields the pairs `PairsMeanLeaves` and the round trip are proved about |
| PhpArrays.CheckBodySize | api/app/bitrix/forms.py:190-202 | the running total accepts exactly the bodies inside all three limits, and reports the first violation |
| PhpArrays.CheckBodyAccepts | api/app/bitrix/forms.py:190-202 | early exit at the first violation decides the same as at most 512 fields, names of at most 256 characters and 65536 bytes in all |
| PhpArrays.ExpandForm | api/app/bitrix/forms.py:366-401 | the mutating walk over the form builds the tree the round trip is proved about, or fails with its error |
| PhpArrays.DigitsInjective | api/app/bitrix/client.py:120-123 | two list positions never share an index name |
| PhpRoundTrip.SplitNameIffRendered | api/app/bitrix/forms.py:379-387 | the bracket pattern takes a name apart into a base and segments exactly when printing them gives the name back |
| PhpRoundTrip.EncodePrints | api/app/bitrix/client.py:106-124 | encoding succeeds exactly within the depth limit, and then prints each leaf once, in order, under its path |
| PhpRoundTrip.ExpandReplays | api/app/bitrix/forms.py:366-401 | decoding carried leaves fails exactly when a path exceeds eight levels and otherwise assigns them in order |
| PhpRoundTrip.RoundTripIffCarried | api/app/bitrix/client.py:106-142 | for any parameters with distinct keys per mapping that the encoder accepts, decoding gives them back, nulls and empty containers pruned and lists index-keyed, if and only if every leaf's path is carried |
| PhpRoundTrip.ExpandCarries | api/app/bitrix/forms.py:366-401 | whatever it is given, the decoder produces carried paths only |
| PhpRoundTrip.RoundTrip | api/app/bitrix/client.py:106-142 | with non-empty bracket-free keys the parameters always come back; nothing the encoder accepts is too deep for the decoder |
| PhpRoundTrip.RoundTripForm | api/app/bitrix/forms.py:366-401 | through the size-checked entry point the same holds, and only the body limits can refuse |
| PhpRoundTrip.NamesDistinct | api/app/bitrix/client.py:106-142 | flattened names are pairwise distinct and no leaf name is also a container path |
| PhpRoundTrip.RenderInjective | api/app/bitrix/client.py:106-124 | two clean paths never print to the same name |
| PhpRoundTrip.BracketedKeyCollides | api/app/bitrix/client.py:116-119 | an example of a path that is not carried: the key `b][c` below a base is sent exactly as two nested keys are |
| PhpLeaves.DigitsRead | api/app/bitrix/client.py:101-103 | the digits of a number spell it, most significant first and without leading zeros |
| PhpLeaves.ScalarMeans | api/app/bitrix/client.py:86-103 | the text of a leaf reads back as the value: `1` and `0` as a flag, an optional minus and digits as a number, a text as itself |
| PhpLeaves.PairsMeanLeaves | api/app/bitrix/client.py:106-143 | the encoder sends one pair for each leaf, in order, under its keys and positions, and with a text that reads back as its value |
| PhpLeaves.TypedRoundTrip | api/app/bitrix/client.py:106-143 | what the wire carries decodes to a tree that holds every leaf, each reading back as the value that was sent, and nothing else |
| PhpLeaves.AppendsNumber | api/app/bitrix/forms.py:390-400 | a name with an empty segment, sent again and again, gathers its values under 0, 1, 2, ... in order |
| PhpLeaves.LengthIsUtf8 | api/app/bitrix/forms.py:199-201 | the size that is summed up is the length of the UTF-8 text |
| Percent.UnquoteQuote | api/app/bitrix/client.py:146-156 | percent-decoding the quoted form of any text gives the text back |
| Percent.QuoteIsSafe | api/app/bitrix/client.py:146-156 | no delimiter of a query survives quoting |
| Percent.QuoteChar | api/app/bitrix/client.py:146-156 | letters, digits and `_.-~` are sent as they are, and every byte of anything else as a percent sign and two upper-case hexadecimal digits |
| Percent.QuoteDistributes | api/app/bitrix/client.py:146-156 | a text is quoted character by character |
| Percent.ReadQueryString | api/app/bitrix/client.py:146-156 | splitting a query string and decoding both sides of every piece recovers the pairs in order |
| Batch.BuildRequest | api/app/bitrix/client.py:393-433 | a request goes out exactly when there are 1 to 50 commands, each acceptable and under a key of its own; it holds `halt`, then one `cmd[key]` for each command in order, and the token once; otherwise the first command that cannot go out is named, with what is wrong with it |
| Batch.BuildFormBody | api/app/bitrix/client.py:527-538 | refused exactly when two parameters share a name; with a token, `auth` stands in the body once, with the token, and every other parameter as it came, in order; without one the body is the parameters |
| Batch.RequestIffAcceptable | api/app/bitrix/client.py:393-433 | a batch goes out if and only if every key is 1 to 32 letters, digits, `_.-`, every trimmed method letters, digits, `_.`, no parameters are too deep, keys differ, and there are 1 to 50 commands |
| Batch.RequestMeets | api/app/bitrix/client.py:393-433 | which error is raised otherwise, and what a request that goes out holds |
| Batch.AddAllIffDiffer | api/app/bitrix/client.py:527-533 | the parameters are taken over unchanged if and only if no two share a name |
| Batch.BatchRoundTripIffCarried | api/app/bitrix/client.py:393-433 | for any commands with distinct keys per mapping, from an accepted batch a receiver recovers them in order, each with its key, trimmed method and null-pruned parameters, if and only if the wire carries every leaf of their parameters |
| Batch.BatchRoundTrip | api/app/bitrix/client.py:393-433 | with non-empty bracket-free parameter keys the commands of an accepted batch always come back |
| Batch.RequestNeverDuplicates | api/app/bitrix/client.py:527-538 | the duplicate-parameter refusal never fires for a batch |
| BatchAnswer.PickIsMeant | api/app/bitrix/client.py:253-265 | for distinct aligned keys, every command gets the value meant for its key whether the portal's array arrives as a mapping or as a list |
| BatchAnswer.MisalignedIsMisread | api/app/bitrix/client.py:253-265 | for any keys that are not aligned there is an answer of which some command reads the wrong entry |
| BatchAnswer.NamedKeysAreAligned | api/app/bitrix/client.py:253-265 | keys without `0` among them are aligned |
| BatchAnswer.Decode | api/app/bitrix/client.py:474-493 | the loop yields one result per requested key, in the order requested, an error hiding any result |
| BatchAnswer.DecodeIsFaithful | api/app/bitrix/client.py:203-228 | looking a command up by its key finds the outcome the portal meant for it, in either shape and any order of keys |
| BatchAnswer.FindKeyAt | api/app/bitrix/client.py:209-213 | the first result under a key is the one asked for |
| BatchAnswer.FirstErrorCutsPrefix | api/app/bitrix/client.py:240-250 | everything before the index is clean and the command at the index failed; no index means no failure |
| StatisticFilter.AcceptedIffDecomposes | api/app/bitrix/statistic.py:618-650 | first-match operator stripping accepts a key exactly when it is one of the fourteen operators, or none, followed by a documented field |
| StatisticFilter.DecompositionIsUnique | api/app/bitrix/statistic.py:237-252 | that decomposition is unique |
| StatisticFilter.CheckFilterIff | api/app/bitrix/statistic.py:618-650 | a filter passes exactly when every entry's key is accepted and its value is neither null nor an empty list |
| StatisticFilter.ParamsAccepted | api/app/bitrix/statistic.py:653-692 | a page is accepted exactly for a good filter, a documented field other than CALL_TYPE and an order, in any case and padded, and an offset that is a multiple of 50 |
| StatisticFields.FilterableIffRead | api/app/bitrix/statistic.py:200-231 | the documented fields are exactly the fields some column of a row is read from |
| StatisticFilter.FilterSurvives | api/app/bitrix/statistic.py:618-692 | for any accepted and encodable filter with distinct keys per mapping: the decoder finds the intended tree if and only if the wire carries every leaf, and an entry is missing from that tree if and only if every leaf of its value is null |
| StatisticFilter.FilterRoundTrip | api/app/bitrix/statistic.py:653-692 | an accepted filter of non-null scalars and non-empty lists of them is always encodable; what is decoded holds every entry, each scalar reading back as its value and each list in order, and nothing else, with the sort, the order and the offset |
| StatisticFilter.AcceptedYetLost | api/app/bitrix/statistic.py:644-650 | the list of one null is accepted and leaves no FILTER behind |
| Lifecycle.Ladder | api/app/handlers/events.py:862-955 | the step-by-step ladder decides as `Decide` does on the row it read, and the log entry says what was answered |
| Lifecycle.HandleUpdate | api/app/handlers/events.py:544-673 | on the row as read, an update acts if and only if the portal is active, both proofs hold, and the credential works or the exchanged pair proved an administrator; it re-seeds exactly a broken one, with the exchange's scope |
| Lifecycle.HandleKnownInstall | api/app/handlers/events.py:676-741 | an application token is seeded if and only if none is stored, one is presented and both proofs hold; when one is stored or none is presented the event moves the cursor alone |
| Lifecycle.HandleUnknown | api/app/handlers/events.py:744-859 | a portal is created if and only if the event is complete, its exchange lands on this member, and the exchanged pair proved an administrator; and exactly when each refusal is given |
| Lifecycle.ProveElevated | api/app/handlers/events.py:503-541 | proved if and only if both halves hold, and exactly when each of the three refusals is given; a retry is asked for only when the exchange was rate limited after the admin half passed |
| Lifecycle.PortalRecord.TouchLastEventTs | api/app/handlers/events.py:393-411 | the cursor moves only forward and nothing else changes |
| Lifecycle.PortalRecord.MarkUninstalled | api/app/services/portals.py:508-568 | an active portal is wiped of its tokens and keeps the purge that was asked for; an uninstalled one is left alone |
| Lifecycle.PortalRecord.Perform | api/app/handlers/events.py:464-500 | each handler's transaction changes the row to what `Performed` says of the row as it is by then |
| LifecycleRuns.ColumnsOfPerform | api/app/handlers/events.py:464-741 | what one transaction does to each column of a row: who sets it, to what, and when it stays |
| LifecycleRuns.ColumnsOfCreate | api/app/handlers/events.py:820-850 | what a created row starts as; no other action creates one |
| LifecycleRuns.ColumnsOfStore | api/app/services/portals.py:204-364 | what a store does to each column, and which columns it leaves alone |
| LifecycleRuns.UninstallIffAuthorised | api/app/handlers/events.py:464-500 | a wipe is decided if and only if the uninstall is authorised, with a purge if and only if CLEAN arrived as 1 |
| LifecycleRuns.RefusalsOfLadder | api/app/handlers/events.py:891-938 | the ladder's two refusals of an application token are given exactly when a stored one is not matched, or an uninstall meets an active row without one |
| LifecycleRaces.PurgeIsAsAsked | api/app/services/portals.py:548-560 | in every run, while a portal is uninstalled its purge flag is what the last wipe that was applied asked for: an event's CLEAN as it arrived, none for the worker; later uninstalls do not change it |
| LifecycleRuns.CursorNeverFalls | api/app/handlers/events.py:393-411 | `last_event_ts` never decreases in any run, however deliveries interleave |
| LifecycleRuns.AppliedEventIsFinal | api/app/handlers/events.py:414-438 | after a stamped delivery is applied, every event stamped no later that is read in any continuation, reinstalls included, is answered 200 and does nothing |
| LifecycleRuns.StaleActionWasInFlight | api/app/handlers/events.py:393-438 | and an action stamped no later that is applied in a continuation was already in flight when that delivery was applied |
| LifecycleRuns.StaleLandsIffInFlight | api/app/handlers/events.py:393-438 | with the cursor at some stamp or above, some run applies a delivery stamped no later if and only if one is in flight now |
| LifecycleRuns.StaleUpdateReplacesNewer | api/app/handlers/events.py:642-657 | of two proved updates read before either is applied, the older one, applied last, replaces the newer application token while the cursor keeps the newer stamp |
| LifecycleRuns.UninstalledHoldsNothing | api/app/services/portals.py:508-568 | in every run an uninstalled portal holds no API token, and a stored application token is never lost |
| LifecycleRuns.InflightWasRead | api/app/handlers/events.py:862-955 | every action waiting to be applied was decided on the row as it was at an earlier step |
| LifecycleRuns.UninstallWasAuthorised | api/app/handlers/events.py:464-500 | an event uninstalls only if it was read against a row whose token it matched, above the cursor and not before the install |
| LifecycleRuns.TokenChangeWasProved | api/app/handlers/events.py:615-664 | an event changes the application token only after the admin proof and the same-member refresh proof; an event that read a stored token changes it only as an update |
| LifecycleRuns.StoreWasProved | api/app/handlers/events.py:571-634 | an event stores a credential, for a known portal or a new one, only if both tokens came with it, its exchange landed on this member, and the exchanged pair itself proved an administrator; nothing else it does gives a portal tokens, an install time or its life back |
| LifecycleRaces.UpdateMeetsUninstall | api/app/handlers/events.py:559-561 | an update in flight was read while the portal was active; it meets an uninstalled row if and only if the last step since the read that wipes or revives the portal wiped it, and then revives it if and only if the credential was broken when read |
| LifecycleRaces.OnByLastTurn | api/app/handlers/events.py:862-955 | being uninstalled, having a working credential, holding an application token: each, off at some step of a run, is on later if and only if the last step in between that switches it switched it on |
| LifecycleRaces.StoreInFlightMeets | api/app/handlers/events.py:565-568 | a re-seed or creation in flight was read when there was no working credential and no uninstall; it meets an uninstalled row, or a working credential, exactly when the last turn since the read was a wipe, or a heal, and puts its own credential and scope in its place |
| LifecycleRaces.UpdateRevivesUninstalled | api/app/handlers/events.py:602-634 | for any such update and any genuine later uninstall, the run that leaves the portal active with tokens after the wipe |
| LifecycleRaces.CreateRevivesUninstalled | api/app/handlers/events.py:777-844 | for any event that may create an unknown portal, the run that revives one installed and uninstalled since its read |
| LifecycleRaces.ReseedReplacesHealthy | api/app/handlers/events.py:602-634 | for any update that re-seeds, the run in which it replaces the credential and scope of a re-authorization made since its read |
| LifecycleRaces.SeedMeetsToken | api/app/handlers/events.py:703-732 | an event other than an update that brings an application token was read when none was stored; it replaces one if and only if some step since the read gave the portal one |
| LifecycleRaces.SeedReplacesStored | api/app/handlers/events.py:703-732 | for any such install event, the run in which it replaces the token an administrator's open stored since its read |
| LifecycleRuns.StaleUninstallsAreHarmless | api/app/handlers/events.py:414-438 | no multiset of uninstalls stamped before the latest install and delivered after it leaves the portal uninstalled |
| LifecycleRaces.OnlyUninstallsInFlightWipe | api/app/handlers/events.py:862-955 | from an installed portal, with any deliveries in flight, in any run in which only uninstalls stamped before the install arrive: it ends uninstalled if and only if the last step that wipes or revives it is a wipe, and every event that wipes it was read before the run began |
| LifecycleRaces.RaceIsExact | api/app/handlers/events.py:862-955 | the smallest example: one genuine uninstall and one reinstall, in the three ways they can interleave |
| SlidingWindow.SpacedIsBounded | api/app/bitrix/oauth.py:276-303 | charges whose every `limit`+1 span a window never exceed `limit` in any 600 s interval |
| SlidingWindow.ExchangeLimiter.Check | api/app/bitrix/oauth.py:276-303 | it refuses exactly when some key has `limit` charges in the last 600 s of full history; a refusal charges nothing and adds no bucket, a grant charges every key once |
| SlidingWindow.ExchangeLimiter.Sweep | api/app/bitrix/oauth.py:260-263 | dropping aged windows changes no later answer, since it keeps the state faithful to the same history |
| SlidingWindow.ExchangeLimiter.NeverOverLimit | api/app/bitrix/oauth.py:276-303 | in every reachable state no 600 s interval holds more than `limit` charges of a key |
| SlidingWindow.ChargeAllAt | api/app/bitrix/oauth.py:302-303 | a grant adds one charge to exactly the named keys |
| SlidingWindow.ScopeKeys | api/app/bitrix/oauth.py:266-273 | a member's key when a member is given, then an address's when one is, and the two differ |
| SlidingWindow.SharedBuckets | api/app/bitrix/oauth.py:266-273 | two calls share a bucket if and only if their trimmed members agree but for case, or their trimmed addresses agree |
| SlidingWindow.FirstFullFinds | api/app/bitrix/oauth.py:290-300 | the key named by a refusal is full, and no key is full without one |
| SlidingWindow.Prune | api/app/api/calls.py:688-690 | popping aged entries leaves as many as the full history has inside the window |
| SlidingWindow.RefreshLimiter.Charge | api/app/api/calls.py:680-697 | granted exactly below 30 charges of the portal in the last 600 s of full history |
| SlidingWindow.RefreshLimiter.NeverOverLimit | api/app/api/calls.py:680-697 | no 600 s interval holds more than 30 charges of a portal |
| SlidingWindow.ReseedGate.Enter | api/app/handlers/open.py:150-167 | granted exactly when the portal was granted nothing in the last 600 s, whatever was dropped to bound the map |
| SlidingWindow.ReseedGate.GrantsAreApart | api/app/handlers/open.py:150-167 | two grants to one portal are at least 600 s apart |
| ViewerTokens.Store.Remember | api/app/api/record.py:183-192 | expired tokens go, at 2048 live ones one of earliest expiry goes as well, and nothing else is lost; never more than 2048 |
| ViewerTokens.Store.Lookup | api/app/api/record.py:195-210 | never an expired or foreign token, no live token consumed, and while no insert found 2048 live tokens the answer of the unbounded map |
| ViewerTokens.Store.Sweep | api/app/api/record.py:178-180 | exactly the expired entries are deleted |
| ViewerTokens.Store.Oldest | api/app/api/record.py:189-191 | the entry evicted expires no later than any other |
| ViewerTokens.Inserted | api/app/api/record.py:192 | an insert into the bounded and into the unbounded map keeps them in agreement |
| TextRedaction.RedactIsSub | api/app/security/redact.py:62-72 | the two early returns change nothing |
| TextRedaction.ParseWrites | api/app/security/redact.py:43-72 | text outside the matches is preserved verbatim, names included |
| TextRedaction.RedactsAlikeIffSameShape | api/app/security/redact.py:43-72 | two strings redact alike if and only if they differ only in credential values |
| TextRedaction.RedactIgnoresValues | api/app/security/redact.py:43-72 | replacing matched values by any others over the value alphabet leaves the output unchanged |
| TextRedaction.RedactTextIdempotent | api/app/security/redact.py:62-72 | redacting twice is redacting once |
| TextRedaction.NothingLeaks | api/app/security/redact.py:43-72 | wherever the expression matches in the output, the value it captures is the placeholder |
| RedactionLaws.RedactTextRedacts | api/app/security/redact.py:43-72 | the laws of the substitution, apart from the scan: text without `=` stays; up to an `=` that ends none of the eleven names it goes through; after one that does, the value up to white space or one of `&"'<>#` becomes `[redacted]` |
| RedactionLaws.RedactTextIsThat | api/app/security/redact.py:43-72 | `redact_text` is the only function that obeys those laws |
| RedactionLaws.NoListedValueLeaks | api/app/security/redact.py:43-72 | in the output, after any of the eleven names at a word boundary, in any case, and its `=`, stands `[redacted]` and there the value ends |
| TreeRedaction.WalkSettles | api/app/security/redact.py:83-125 | any payload, cyclic ones included, comes out bounded in depth with nothing left to redact |
| TreeRedaction.RedactIdempotent | api/app/security/redact.py:75-125 | redacting the copy again, wherever it is laid out in memory, gives the copy, which is at most 12 containers deep |
| TreeRedaction.RedactIgnoresSecrets | api/app/security/redact.py:75-125 | payloads that differ only below sensitive keys, inside bytes, in credential values or in the identities of containers redact alike |
| RedactionLaws.SecretIsSensitive | api/app/security/redact.py:35-59 | a key is sensitive if and only if one of the eight words stands anywhere in it, in any case |
| RedactionLaws.WhatStands | api/app/security/redact.py:75-140 | what stands in the copy at the end of every way down a payload, 12 containers at most: atoms as they were, text redacted, bytes and every value under a key with a listed word as `[redacted]`, a container met again or too deep as `[truncated]`, any other with its keys, its length and its kind |
| HostNames.LabelMatches | api/app/bitrix/forms.py:86-88 | on lower-case text the label pattern accepts exactly 1 to 63 letters, digits and inner hyphens |
| HostNames.HostMatches | api/app/handlers/render.py:59-63 | on lower-case text the host pattern of either language accepts exactly the dot-joined labels |
| Hosts.FormAccepts | api/app/bitrix/forms.py:219-246 | what the validator accepts, newlines included, and that it returns its input in lower case |
| Hosts.FormIdempotent | api/app/bitrix/forms.py:219-246 | validating a stored value again accepts it unchanged |
| Hosts.BadPorts | api/app/bitrix/forms.py:229-240 | a port is refused as such exactly when it is a numeral of at most five characters that is 0 or above 65535 |
| Hosts.RenderAccepts | api/app/handlers/render.py:86-105 | what the page renderer accepts, a newline before the port included |
| Hosts.MiddlewareAccepts | web/src/middleware.ts:67-100 | what the middleware accepts: a host of at most 253 characters and a port of 1 to 65535 |
| Hosts.AcceptorsAgree | web/src/middleware.ts:67-100 | the middleware accepts exactly what each Python acceptor accepts among newline-free values both languages trim alike, with the same host and port |
| Hosts.PoliciesAgree | api/app/handlers/render.py:108-116 | a stored domain yields the same frame policy from the server-rendered page and from the middleware |
| Hosts.PolicyOf | api/app/handlers/render.py:86-116 | the policy of either side: the accepted origin under its scheme, or no framing at all |
| Hosts.NewlineAfterLabel | api/app/bitrix/forms.py:86-88 | a newline after a label passes the form validator and not the renderer |
| Hosts.NewlineBeforePort | api/app/handlers/render.py:94-105 | a newline before the port passes both Python acceptors and not the middleware |
| StatisticRows.ParseRows | api/app/bitrix/statistic.py:588-612 | the loop keeps order, conserves rows and keeps every column within its bound; when parsing a URL undoes building it, no stored URL has userinfo or names a credential in its query |
| StatisticRows.Conservation | api/app/bitrix/statistic.py:588-612 | every input is either a kept row or exactly one entry without the `degraded:` prefix |
| StatisticRows.ParseKeepsOrDrops | api/app/bitrix/statistic.py:471-585 | a kept record reports only degradations, a dropped one exactly one plain reason |
| StatisticRows.ParseDistributes | api/app/bitrix/statistic.py:588-612 | rows are independent: a page may be cut anywhere |
| StatisticRows.RowInBounds | api/app/bitrix/statistic.py:471-585 | a kept row has every column, a positive id, and integers and clipped strings within their column bounds |
| StatisticRows.ReportedColumns | api/app/bitrix/statistic.py:494-548 | the reported columns are exactly the five identities and every number |
| StatisticRows.CostBound | api/app/bitrix/statistic.py:367-387 | a stored cost is at most 10^8, and below it exactly when the amount was more than half a unit below |
| StatisticRows.CostReachesLimit | api/app/bitrix/statistic.py:382-385 | an amount that passes the range check and is stored as 10^8 |
| StatisticRows.QuantizedIsNear | api/app/bitrix/statistic.py:382-385 | rounding moves a cost by at most half a unit of the last place |
| StatisticRows.ScrubIsClean | api/app/bitrix/statistic.py:433-465 | the scrubbed query holds, in the order sent, each piece as often as it was sent unless it is empty or names one of the nine credentials, and scrubbing again changes nothing |
| StatisticRows.RecordUrlIsClean | api/app/bitrix/statistic.py:433-465 | what is stored is the URL that was sent, without its userinfo and its credentials, and with the rest as it was; nothing is stored only when none was sent or nothing is left |
| StatisticCells.KeptRowHolds | api/app/bitrix/statistic.py:471-585 | every column of a kept row holds what its own field says: texts as far as the width takes them, integers when they are in range, and otherwise nothing, or 0 for a duration |
| StatisticCells.CostIs | api/app/bitrix/statistic.py:367-387 | the cost is the amount sent, to four places, when it is below 10^8 either way; without one there is none, reported when something was sent |
| StatisticCells.YesNoIs | api/app/bitrix/statistic.py:390-403 | the flag is the answer sent, in any of its spellings; anything else sent is reported |
| StatisticCells.StartDateIs | api/app/bitrix/statistic.py:406-430 | a date is kept exactly when it is a text with an offset inside the allowed span, and which of the reasons is given otherwise |
| StatisticCells.DroppedFor | api/app/bitrix/statistic.py:471-500 | a record without a readable id, with one out of range, or without a usable date is dropped for exactly that reason, under its id if it has one |
| StatisticCells.ReasonsAre | api/app/bitrix/statistic.py:494-585 | a kept row reports, in the order of the columns, each identity that was cut and each number that was sent and cannot be stored, then the cost and the flag |
| Users.Collect | api/app/bitrix/users.py:226-240 | an id is known afterwards if it was before or the answer holds a row with it, and its record is the last such row, whatever shape the answer has |
| Users.ChunkList | api/app/bitrix/users.py:243-244 | the slicing loop yields the chunks the partition is proved about |
| Users.ChunksPartition | api/app/bitrix/users.py:243-244 | chunks are non-empty, at most the size, and concatenate to the input |
| Users.WantedIsTheSet | api/app/bitrix/users.py:266 | each usable id is wanted once, in increasing order, and no other is |
| Users.ResultOfCommand | api/app/bitrix/client.py:203-228 | looking a result up by its key finds the answer at the command's own position |
| Users.FirstAnswerIsFaithful | api/app/bitrix/users.py:273-281 | the keys of a first pass are distinct and aligned, so the shape of the answer does not matter |
| Users.FetchUsers | api/app/bitrix/users.py:247-306 | on success every group was read to the end, an id is in the map if and only if some clean answer of the run holds a row with it, and its record is the last such row in batch, command and row order; otherwise the error raised is the first one, in command order, of the last batch sent |
| Users.FoldIsLearned | api/app/bitrix/users.py:226-240 | the same of any run of batches |
| Users.EveryIdIsAskedOnce | api/app/bitrix/users.py:247-306 | whether the run returns or raises, every distinct wanted id is asked for at most once in the first pass, in increasing order, and at most once more without ADMIN_MODE; on a normal return the first pass asked for all of them |
| Users.FetchFits | api/app/bitrix/users.py:270-283 | whether the run returns or raises, no batch exceeds 50 commands, no command 50 ids, and no two commands share a key |
| Users.GroupsAreFull | api/app/bitrix/users.py:243-271 | the wanted ids are asked for 50 to a command and 50 commands to a batch, in order; only the last of either holds fewer |
| Users.BatchesOfRun | api/app/bitrix/users.py:270-304 | a run that returns sends one batch for each group of commands, or two |
| Users.NoErrorIsSwallowed | api/app/bitrix/users.py:284-304 | on a normal return every failed command failed with ADMIN_MODE and a retryable error, and was answered by the next batch without it |

## Left out

- TokenProtocol.PortalRow.Store: the columns of the upsert outside the credential (scope, licence, sync cursor, purge flags) are not part of this model.
- Expiry times: whether a token expires within the proactive margin is a free choice of the environment, so the clock, the 30 s floor and the 60 s margin play no part in the token theorems.
- NoSpentTokenPresented: it speaks of rows whose status is `ok`, because `set_token_status` overwrites any status without a guard and a terminal one may be replaced by another failure status.
- Encryption, HTTP, TLS, sessions and row locks of the database: a lock, a commit and a guarded UPDATE are atomic steps, and what the outside world answers is a parameter.
- StaleUninstallsAreHarmless: it excludes uninstalls the worker infers by itself, which carry no timestamp; OnlyUninstallsInFlightWipe includes them.
- SpentIffLost: it assumes that no handler is posted a pair of our own, since those never leave the server side; PostedPairMustBeForeign shows why.
- PhpArrays.ExpandForm: the source walks a cursor through nested dicts in place; the model rebuilds the dicts along the path with the function `Put`, so aliasing between them is not captured. The loop over the form is a method.
- ExpandReplays: set-valued parameters, which the encoder sorts by their string form, are not modelled.
- Floats, decimals, dates and identifiers as parameters appear only by the string they are sent as.
- ScopeKeys: lower-casing is that of ASCII text.
- TextRedaction and TreeRedaction: Unicode case folding and Unicode word characters are not modelled; mapping keys are strings.
- TreeRedaction.Walk: the `except` of `redact`, which answers a placeholder when a hostile object raises, is not modelled.
- Hosts.AcceptorsAgree: text is ASCII; the integer conversion limit of Python for ports of thousands of digits is not modelled.
- Reading a number, an amount, a date or a URL out of text is a parameter of `StatisticRows`.
- BatchAnswer.Decode: the `time`, `next` and `total` blocks are left out, and classifying an error payload is not modelled: an entry of the error map is an error.
- TokenTheorems.StoredCredentialIsProven: the guards that decide when a handler stores (row status, cooldown, stored token status) are dropped, so the theorem covers more runs than the program has.
- ViewerTokens.Store.Oldest: among entries of equal expiry the source takes the first inserted, the model any.
- The sync engine, CRM lanes, jobs, rendering, translations, placement binding and settings are not modelled; they consume what is proved here or are configuration.

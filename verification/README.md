# Chaperone, modelled and proved in Dafny

Chaperone is a credential broker. An agent sends a signed intent; the gateway checks who signed it and that it
is fresh, asks policy, asks a human where policy says so, fetches the credential, uses it on the agent's behalf
and writes a hash-chained audit record. The agent never sees the credential.

This project models the state machines and algorithms that this rests on and proves what they keep over every
input and every run.

| file | part of the system |
|---|---|
| `text.dfy`, `word.dfy` | sequence search, split and join, as the standard string functions; 64-bit words |
| `glob.dfy`, `matcher.dfy` | the glob matcher and the rule matchers |
| `policy.dfy`, `policy_document.dfy`, `policy_meaning.dfy` | policy evaluation, the document writer beside its parser, and what a document's own texts decide |
| `replay_cache.dfy`, `replay_runs.dfy`, `replay_growth.dfy`, `replay_stale.dfy`, `replay_lean.dfy` | the nonce cache with its journal: over every run of reservations and restarts, how its file grows, with clock readings that arrive late, and how much of the file is dead weight |
| `attestation.dfy` | the verification sequence and its freshness arithmetic |
| `hex.dfy`, `journal_text.dfy` | hash text, and a journal file read as lines |
| `audit_chain.dfy`, `audit_writer.dfy`, `audit_laws.dfy`, `tamper_evidence.dfy`, `journal_records.dfy`, `transcript.dfy` | the audit verifier, the writer, cryptography that meets the laws used, what an accepted journal proves of its chain and of its parsed records, session transcripts |
| `gateway.dfy`, `gateway_laws.dfy`, `gateway_runs.dfy`, `gateway_rules.dfy`, `gateway_halt.dfy` | intents and session frames: as code, the laws of one intent, every interleaving of messages, halts and restarts, the rule behind each use of a credential, and what still happens after a halt |
| `session_table.dfy`, `session_runs.dfy`, `session_lifetimes.dfy`, `session_summary.dfy`, `session_frames.dfy`, `session_attested.dfy`, `session_lives.dfy` | the session table; sessions over every interleaving of frames, closes, exits and reaping; how long each answers; what a summary says; the frame handlers and liveness scan as code; sessions joined with the signatures on their frames; frames and process lives |
| `scrub.dfy`, `scrub_length.dfy` | removal of reflected credentials from responses, and how long the result is |
| `codec.dfy`, `length_line.dfy`, `frame_stream.dfy`, `header_blocks.dfy` | Content-Length framing: the codec, how a length line is spelled, streams of frames, and whole header blocks |
| `events.dfy` | the live event feed |
| `import.dfy`, `import_laws.dfy`, `import_grants.dfy`, `import_use.dfy`, `import_rerun.dfy` | bulk import of inventory rows, its laws, which rows the rule grants afterwards, what using such a row finds, and what a second run does |
| `policy_guard.dfy` | the policy integrity watch |

Code that works by changing things step by step is written as classes and methods with loops. Each such method
is proved equal to a function of the old state, and the run-wide results are lemmas about those functions.

## What is taken as given

- SHA-256, Ed25519, canonical JSON and JSON reading are function-valued parameters. `AuditWriter.Laws` states the
  laws used: digests are 32 bytes, a canonical object is one line that reads back as itself, and a signature
  verifies over what it signed. `AuditLaws.LawsCanBeMet` builds functions that meet them. Injectivity of the digest
  and unforgeability are not assumed. The tamper theorems name the collision instead, or the forgery: the signature
  that the file's last record carries, verifying over a hash that was never signed.
- UTF-8 decoding, the byte width of a journal line, debug escaping and the operator's allowlist are parameters too.
- The clock, the random handle, and the answers of the human gate, the vault, the certificate authority and the
  target are parameters of each call. File writes happen whole and succeed.
- The gateway reads the clock before it takes the cache's lock, so readings reach the cache out of order. The
  single-use theorems are stated for readings at most `d` seconds behind an earlier one, for every `d`. Across a
  restart readings are in order.

## What the proofs found

- Double acceptance of one signed message is impossible exactly when the configured skew is negative (nothing is
  ever fresh) or at least `d + 3` seconds, where readings reach the cache at most `d` seconds late; so 3 seconds
  when they arrive in order. Below that a run of three messages accepts one of them twice, in any cache whose cap
  holds two lines.
- The replay journal stays within its cap plus two lines over all runs with `n` restarts exactly when `n` is zero.
  A nonce refused for capacity is on disk and is loaded as a reservation, so each restart can add a line. Whatever
  the cap, and however few bytes a line takes, the file exceeds every bound.
- A message with a bad signature still uses up the nonce it names.
- The replay journal's line count is that of the file in every run without restarts. A load that rewrites the file
  counts on from zero, so the count is the file's exactly when the load did not rewrite it or nothing was left.
- `parse(source(m))` gives `m` back exactly when `m` is not an untagged text that starts with a tag. Otherwise a
  saved ruleset can decide differently.
- Saving a policy twice writes the same document exactly when it has no starless literal that starts with `exact:`
  and no glob that starts with `glob:` and has a star.
- An accepted audit journal can be extended by the writer exactly when it ends in a newline (JSON blanks aside) and
  its last hash is in lower case.
- Two transcript frames built at one position break the transcript, whatever records follow.
- For forms without brackets, scrubbing removes every form from every response exactly when no form lies inside the
  marker. Forms with brackets are covered by the wider condition `Apart`.
- A response within its byte ceiling stays within it after scrubbing exactly when every form is at least as long as
  the marker or longer than the ceiling, provided some character occurs in no form.
- A message that arrives after a halt does nothing. For one that arrived before it, every kind of step still ahead of
  it can still happen: a credential is fetched, or bytes reach a channel, in some continuation exactly when that step
  is left in its plan, or the message is still to be judged, can still be accepted and would then take that step. Runs
  show both. The halt flag is read only on arrival.
- A session's summary loads its three numbers one by one after the channel's lock is given back. Each falls short of
  what was relayed by its own moment by exactly what the frame that holds the channel has not yet counted. One run has
  a summary that misses a frame, another one with the bytes of a frame it does not count.
- The event feed counts a subscriber after registering it. The count is right exactly when nobody is between the
  two, and a subscriber dropped in between takes the counter to the largest 64-bit word.
- An intent that verifies but does not parse leaves no audit record.
- Import into a rule that leaves its target axis open refuses every row, although the rule would match each of them.
- Import compares rows by substring. For a rule without pair rows every fitting row is granted exactly when no
  fitting row's two texts lie inside those of a different fitting row that precedes its first occurrence.
- The reference of an imported row leads to the entry that the row stored exactly when the scheme has a `://`, and
  not at its start.
- The import comment that nothing is written on an error holds for every error but one. When the vault refuses a
  row's entry, the entries of the rows before it stay.
- A second import on the result of a first changes nothing exactly when no matcher of the saved policy loses a tag and
  every fitting row has its entry and is mentioned by one of the rule's rows as they are read back. A name with a
  backslash inside is not, because the debug form doubles the backslash: each run adds the row once more.

## Model

| member | source | states |
|---|---|---|
| Glob.GlobMatch | crates/policy/src/matcher.rs:147-176 | the greedy scan answers true exactly when the text is the pattern's literal pieces in order with some run, possibly empty, at each star |
| Glob.PlaceMiddles | crates/policy/src/matcher.rs:157-167 | placing each middle piece at its leftmost occurrence succeeds exactly when some placement does |
| Glob.LeftmostSuffices | crates/policy/src/matcher.rs:157-167 | the exchange argument: if a piece and the rest can be placed at all, they can with the piece at its leftmost place |
| Glob.DenotesIsFits | crates/policy/src/matcher.rs:147-176 | the declarative meaning (pieces woven with runs) and the placement meaning are the same |
| Matchers.Matches | crates/policy/src/matcher.rs:60-67 | answers exactly whether the matcher accepts the candidate |
| Matchers.ParseOfSource | crates/policy/src/matcher.rs:42-56 | a matcher written and parsed back is itself if and only if it is not mistagged |
| Matchers.MeaningOfSource | crates/policy/src/matcher.rs:102-124 | written and parsed back, a matcher accepts the same candidates if and only if it is not mistagged |
| Matchers.MistaggedDiffers | crates/policy/src/matcher.rs:102-124 | every mistagged matcher has a candidate on which its re-reading disagrees |
| Matchers.SourceTwice | crates/policy/src/matcher.rs:102-124 | written, parsed and written again, a matcher gives the same text if and only if it does not lose a tag |
| Matchers.StarAcceptsAll | crates/policy/src/matcher.rs:147-176 | the glob `*` accepts every text, as an absent axis does |
| Policy.CeilingsOnlyNarrow | crates/policy/src/lib.rs:76-86 | the combined ceiling admits exactly what both sides admit |
| Policy.FirstPair | crates/policy/src/lib.rs:506-558 | finds the least matching pair row, or says there is none |
| Policy.Evaluate | crates/policy/src/lib.rs:506-558 | the scan returns the decision of the least covering rule with its least matching row, carrying that rule's effect, flag and name and admitting exactly what both sides' ceilings admit, or the default-deny floor with the request's own ceilings |
| Policy.DecisionCarriesItsRule | crates/policy/src/lib.rs:536-546 | every decision by a rule has the rule's effect, notification and name, and a number is within its ceilings if and only if it is within the rule's and within the declared ones |
| Policy.FloorDenies | crates/policy/src/lib.rs:550-557 | the floor denies, notifies nobody and keeps exactly the declared ceilings |
| Policy.EveryRequestIsDecided | crates/policy/src/lib.rs:506-558 | the meaning of a ruleset is total: every request has a decision |
| Policy.DecisionIsUnique | crates/policy/src/lib.rs:506-558 | and has only one |
| Policy.AppendKeepsDecided | crates/policy/src/lib.rs:506-558 | appending rules never changes a request that a rule already decided |
| Policy.NonCoveringRuleIsInert | crates/policy/src/lib.rs:506-558 | inserting or deleting a rule that does not cover a request changes nothing of its decision but the rule's index |
| Policy.PermissionNeedsCover | crates/policy/src/lib.rs:506-558 | anything but a denial comes from a rule that covers the request and has that effect |
| PolicyDocument.ToToml | crates/policy/src/lib.rs:425-481 | the writer's loops produce one table per rule, rows in order |
| PolicyDocument.FromToml | crates/policy/src/lib.rs:332-395 | the parser accepts exactly the readable documents and then yields every rule, or nothing at all |
| PolicyDocument.LeftOutExactly | crates/policy/src/lib.rs:425-481 | an axis is left out of the document if and only if it takes everything, the table of ceilings if and only if there are none |
| PolicyDocument.RuleReadsBack | crates/policy/src/lib.rs:425-481 | one rule: it loads if and only if its ceilings fit, and reads back as itself (rows of Any as `*`) if and only if none of its matchers is mistagged |
| PolicyDocument.RoundTrip | crates/policy/src/lib.rs:332-395 | the same for whole rulesets, both if and only if |
| PolicyDocument.NormalDecidesTheSame | crates/policy/src/lib.rs:506-558 | writing a row of Any as `*` changes no decision |
| PolicyDocument.SavingKeepsDecisions | crates/policy/src/lib.rs:425-481 | a saved and reloaded ruleset gives every request the same effect, rule, row, name, notification and ceilings |
| PolicyMeaning.LoadsExactly | crates/policy/src/lib.rs:332-395 | a document loads if and only if every effect is one of the three words and every ceiling fits a TOML integer |
| PolicyMeaning.DocumentDecides | crates/policy/src/lib.rs:506-558 | the deciding entry is the first whose texts (tagged, starred or plain; absent takes all) take the request, by its first row that does; without one the request is denied |
| PolicyMeaning.DocumentSays | crates/policy/src/lib.rs:332-395 | the decision has the entry's effect word and name, admits what its written ceilings and the declared ones both admit, and notifies unless the entry says `on_use = false` |
| PolicyDocument.MistaggedAxisChangesDecisions | crates/policy/src/lib.rs:425-481 | every mistagged matcher gives a ruleset and a request whose decision changes by saving |
| PolicyDocument.SavingIsIdempotent | crates/policy/src/lib.rs:425-481 | saving twice writes the document that saving once wrote if and only if no matcher loses a tag: no starless literal starts with `exact:`, no glob with a star starts with `glob:` |
| ReplayCache.Cache.PurgeExpired | crates/identity/src/replay.rs:318-327 | drops expired entries from the front of the queue and their keys from the map, and nothing else |
| ReplayCache.Cache.RewriteJournal | crates/identity/src/replay.rs:269-302 | the journal becomes the queue, line for line, and the line count follows |
| ReplayCache.Cache.CheckAndReserve | crates/identity/src/replay.rs:180-239 | purge, look up, insert, compact if due, roll back over capacity, append: the new state and the answer |
| ReplayCache.SaturatesToNearest | crates/identity/src/replay.rs:187-188 | an expiry is the 64-bit number nearest to the sum |
| ReplayLean.JournalStaysLean | crates/identity/src/replay.rs:180-239 | in every run each fresh reservation leaves a journal counted under 1024 lines or at least half in force, and a rewrite within the cap happens at 1024 lines or more and drops more than it keeps |
| ReplayLean.CountIsTheFiles | crates/identity/src/replay.rs:180-302 | in every run without restarts the line count is that of the file |
| ReplayLean.LoadKeepsStepExactly | crates/identity/src/replay.rs:155-169 | after a load the count is that of the file if and only if the load did not rewrite it or nothing was left |
| ReplayCache.LoadLines | crates/identity/src/replay.rs:125-171 | loads exactly the unexpired entries in order with their index, or names the first corrupt line |
| ReplayCache.Open | crates/identity/src/replay.rs:125-171 | opens exactly the journals without a corrupt line, in the loaded state, dead weight rewritten away |
| ReplayRuns.ReserveRefines | crates/identity/src/replay.rs:180-239 | each reservation is a step of an abstract expiring set and keeps map, queue and journal in agreement |
| ReplayRuns.RestartRefines | crates/identity/src/replay.rs:125-171 | reopening keeps every unexpired reservation and the agreement |
| ReplayRuns.ReachableIsGood | crates/identity/src/replay.rs:180-239 | in every run the queue is distinct and sorted by expiry, the map is its index, and the journal's unexpired entries are the queue's plus at most one refused entry |
| ReplayRuns.RunRefinesExpiringSet | crates/identity/src/replay.rs:180-239 | every step of every run of reservations and restarts is a step of the abstract expiring set |
| ReplayRuns.HeldUntilExpiry | crates/identity/src/replay.rs:180-239 | a reservation stays, with its expiry, through any reservations and restarts until its expiry |
| ReplayRuns.FreshOnlyOnce | crates/identity/src/replay.rs:180-239 | a nonce answered Fresh is answered Duplicate until it expires, across restarts |
| ReplayRuns.DuplicateHasCause | crates/identity/src/replay.rs:180-239 | a nonce is answered Duplicate only if an earlier unexpired attempt with it was not itself a duplicate |
| ReplayRuns.RefusalChangesNothing | crates/identity/src/replay.rs:215-232 | CapacityFull leaves the reservations in memory as the purge left them |
| ReplayRuns.GhostIsLoaded | crates/identity/src/replay.rs:125-171 | a refused nonce left in the journal becomes a reservation on restart |
| ReplayRuns.RefusedNonceIsBurntByRestart | crates/identity/src/replay.rs:215-232 | so a nonce refused for capacity is answered Duplicate after a restart |
| ReplayRuns.SelfHeals | crates/identity/src/replay.rs:188-239 | when every reservation has expired, one whose line fits is Fresh |
| ReplayRuns.JournalIsBounded | crates/identity/src/replay.rs:188-239 | the file never exceeds its cap by more than two lines plus one line for each restart, a line being the longest of the run's own |
| ReplayGrowth.GrowsWithRestarts | crates/identity/src/replay.rs:215-232 | for every cap, every least width of a line and every number `n` of restarts, a run whose file exceeds its cap by more than `n + 1` such lines |
| ReplayGrowth.TwoLinesExactly | crates/identity/src/replay.rs:269-302 | all runs with `n` restarts stay within the cap and two lines if and only if `n` is zero |
| ReplayStale.ReserveKeeps | crates/identity/src/replay.rs:180-239 | with a late clock reading a reservation still keeps map, queue and journal in agreement on what is unexpired at the latest reading |
| ReplayStale.RestartKeeps | crates/identity/src/replay.rs:125-171 | reopening loads exactly what is unexpired and restores the agreement |
| ReplayStale.ReachableIsSound | crates/identity/src/replay.rs:180-239 | that agreement holds in every run whose readings arrive in any order between restarts |
| ReplayStale.HeldWhileUnread | crates/identity/src/replay.rs:318-327 | a reservation stays, with its expiry, until some reading reaches that expiry |
| ReplayStale.ReserveKeepsKeys | crates/identity/src/replay.rs:180-239 | a reservation takes away no key that a later reading would still find |
| Attestation.SupportedVersions | crates/identity/src/lib.rs:218-229 | exactly the versions `0.` followed by one component without a dot are supported |
| Attestation.FreshnessWindow | crates/identity/src/lib.rs:236-251 | truncated seconds make a message fresh exactly when it is strictly less than skew plus one second away, on either side |
| Attestation.Attestor.VerifyMessage | crates/identity/src/lib.rs:143-213 | the checks in order, the nonce reserved before the signature is checked: verdict and new cache state |
| Attestation.AcceptanceMeans | crates/identity/src/lib.rs:143-213 | an accepted message names an enrolled agent, carries that agent's signature, is within the window, and its nonce was free |
| Attestation.AcceptedExactly | crates/identity/src/lib.rs:143-213 | a message is accepted if and only if it is an object of major version 0, from an enrolled agent, within the window, with a nonce the cache reserved as fresh, and signed with that agent's key |
| Attestation.RetentionIsNearest | crates/identity/src/lib.rs:175-175 | the retention is the 64-bit number nearest to three times the skew |
| Attestation.AcceptedOnce | crates/identity/src/lib.rs:143-213 | with readings at most `d` seconds late and skew of at least `d + 3` seconds, no run accepts one agent, nonce and issue time twice, restarts included |
| Attestation.SmallSkewAcceptsTwice | crates/identity/src/lib.rs:236-251 | for every skew from 0 to `d + 2` and every cache whose cap holds two lines, a run of three messages that accepts one of them twice |
| Attestation.SingleUseExactly | crates/identity/src/lib.rs:143-213 | single use holds over all runs with readings at most `d` seconds late if and only if the skew is negative or at least `d + 3` |
| Attestation.BadSignatureBurnsNonce | crates/identity/src/lib.rs:143-213 | after a badly signed message, an honest one with the same nonce is refused as a replay until the reservation ends |
| Hex.EncodeBytes | crates/audit/src/writer.rs:70-77 | the encoder's loop writes two lower-case digits a byte |
| Hex.DecodeText | crates/audit/src/writer.rs:80-92 | the decoder's loop yields the bytes, or nothing for an odd length or a foreign digit |
| Hex.DecodesExactly | crates/audit/src/writer.rs:80-92 | a text decodes if and only if it has an even number of characters, all hex digits of either case |
| Hex.DecodeOfEncode | crates/audit/src/writer.rs:70-92 | decoding undoes encoding |
| Hex.EncodeOfDecode | crates/audit/src/writer.rs:80-92 | encoding what was decoded gives the text back in lower case |
| AuditChain.AcceptedBody | crates/audit/src/verify.rs:75-127 | the record check accepts if and only if version, number and predecessor fit, the stored hash is the recomputed one, and the record's own signature verifies over it |
| AuditChain.WalkLines | crates/audit/src/verify.rs:130-164 | the verifier's loop gives the report of the walk over the journal's lines |
| JournalText.LinesReadBack | crates/audit/src/verify.rs:130-164 | lines written with CRLF read back as they were, with bare newlines if and only if none ends in a carriage return |
| AuditChain.PrefixAccepted | crates/audit/src/verify.rs:130-164 | every prefix of an accepted journal is accepted |
| AuditChain.BrokenReport | crates/audit/src/verify.rs:130-164 | on a broken journal the tail and the count are those of its longest accepted prefix |
| AuditChain.BlankLinesIgnored | crates/audit/src/verify.rs:130-164 | blank lines change neither verdict, tail nor count |
| AuditChain.AcceptedIsChain | crates/audit/src/verify.rs:75-164 | an accepted journal is a numbered chain whose tail is its chain hash, and each record's own signature verifies over the chain hash up to it |
| AuditWriter.Journal.AppendGenesis | crates/audit/src/writer.rs:249-270 | the first record: number 0 over the zero hash |
| AuditWriter.Journal.AppendEvent | crates/audit/src/writer.rs:211-247 | seals the event at the next number over the previous hash, advances, writes the line and its newline |
| AuditWriter.Journal.Head | crates/audit/src/writer.rs:200-206 | the current number and hash text |
| AuditWriter.Open | crates/audit/src/writer.rs:123-190 | a blank file gets a genesis record, an accepted one is resumed at its tail, any other is refused with the reason |
| AuditWriter.SealedVerifies | crates/audit/src/writer.rs:300-329 | a sealed record is accepted exactly under the number and the predecessor that its body names |
| AuditLaws.LawsCanBeMet | crates/audit/src/writer.rs:300-329 | the laws assumed of digest, canonical form, reading and signature hold of some functions |
| AuditWriter.WriteKeepsSync | crates/audit/src/writer.rs:331-339 | a written record keeps file and writer in step if and only if its body was built at the current position |
| AuditWriter.AppendKeepsSync | crates/audit/src/writer.rs:211-247 | an append keeps the journal accepted with the writer's head as its tail |
| AuditWriter.GenesisSyncs | crates/audit/src/writer.rs:249-270 | a genesis record on a blank file is accepted if and only if only JSON whitespace precedes it |
| AuditWriter.ReopenResumes | crates/audit/src/writer.rs:123-190 | closing and reopening resumes exactly where the writer was |
| AuditWriter.RunStaysSynced | crates/audit/src/writer.rs:123-270 | in every run of appends and reopenings the journal is accepted, its tail is the head, and its count is the head's number plus one |
| AuditWriter.ExtendsExactlyWhen | crates/audit/src/writer.rs:123-247 | any accepted journal opens, and the next record is accepted if and only if the file ends in a newline (JSON blanks aside) and its last hash is in lower case |
| TamperEvidence.AcceptedIsAuthentic | crates/audit/src/verify.rs:75-164 | an accepted journal is body for body a prefix of a chain the key holder wrote, or it exhibits a digest collision, or the signature on its last record verifies over a chain hash that was never signed |
| TamperEvidence.KnownHeadIsWholeChain | crates/audit/src/verify.rs:130-164 | with the head known from outside it is the whole chain, or a collision |
| TamperEvidence.WriterChain | crates/audit/src/writer.rs:300-329 | the chain in a writer's own file is numbered and ends in the writer's hash |
| TamperEvidence.AppendAddsItsEvent | crates/audit/src/writer.rs:211-247 | an append adds exactly one body to the chain: its event, numbered and linked |
| TamperEvidence.EditedJournal | crates/audit/src/verify.rs:75-164 | a journal edited behind the writer's back and still accepted is a truncation of what was written, or a collision, or carries a verifying signature over a hash the writer never signed |
| JournalRecords.AcceptedExactly | crates/audit/src/verify.rs:75-164 | a journal is accepted if and only if every line that is not blank is an object and every parsed record is of this version, numbered by its place, names the hash text of the one before it (zeros for the first), and states and signs the digest of that and of all its fields but `this_hash` and `sig` |
| JournalRecords.EditedRecordsAgree | crates/audit/src/verify.rs:75-164 | if an edited journal is accepted, each of its parsed records has every field of the writer's record of that number but `this_hash` and `sig`, with its value, or the two journals' own records exhibit a collision or a forged signature |
| JournalRecords.AppendRecordsItsEvent | crates/audit/src/writer.rs:211-247 | an append adds one parsed record with every field of the event and no others besides the chain's, the next number and the writer's head as predecessor |
| JournalRecords.JournalKeepsItsEvents | crates/audit/src/writer.rs:123-270 | over every run of appends and reopenings the parsed records carry exactly the events recorded, in order, numbered from zero |
| JournalRecords.HistoryIsKept | crates/audit/src/verify.rs:75-164 | after every run, an edited journal that is accepted carries the run's events field by field, in order from the first, or holds a collision or a forgery |
| Transcript.TranscriptWriter.SealAndWriteBody | crates/audit/src/transcript.rs:162-183 | the second lock section: sealed over the position found by then |
| Transcript.TranscriptWriter.AppendFrame | crates/audit/src/transcript.rs:103-125 | one frame by one caller is one append |
| Transcript.Create | crates/audit/src/transcript.rs:53-98 | a transcript is created once, with its genesis record; an existing file is refused |
| Transcript.OneCallerIsAccepted | crates/audit/src/transcript.rs:53-183 | driven by one caller at a time, it is accepted with its head as tail and one record for each call |
| Transcript.SealAcceptsCurrentBodyOnly | crates/audit/src/transcript.rs:162-183 | a frame sealed later is accepted if and only if nothing was sealed in between |
| Transcript.BrokenForGood | crates/audit/src/transcript.rs:162-183 | no list of later records repairs a transcript that stopped being accepted |
| Transcript.OverlappingFramesBreak | crates/audit/src/transcript.rs:103-183 | two overlapping callers break the transcript, whatever records come next |
| Gateway.Broker.Halt | crates/gateway-core/src/lib.rs:346-355 | the first reason wins |
| Gateway.Broker.AuditDecision | crates/gateway-core/src/lib.rs:1224-1274 | one record always; the feed for a denial or a notified rule |
| Gateway.Broker.OpenSession | crates/gateway-core/src/lib.rs:443-613 | backend, mint or resolve, connect, insert, audit: the effects in order and the reply |
| Gateway.Broker.Inject | crates/gateway-core/src/lib.rs:1109-1175 | resolve late, inject once, audit |
| Gateway.Broker.RunOneShot | crates/gateway-core/src/lib.rs:974-1176 | the database and the HTTP paths, with their refusals |
| Gateway.Broker.Confirm | crates/gateway-core/src/lib.rs:938-972 | asks when asked to; anything but approval ends the message with its record |
| Gateway.Broker.RouteSession | crates/gateway-core/src/lib.rs:833-920 | a session mechanism: backend first, the gate also for an unpinned local command, then the opener |
| Gateway.Broker.Route | crates/gateway-core/src/lib.rs:802-972 | denial, mechanism routing, gate |
| Gateway.Broker.HandleFrame | crates/gateway-core/src/lib.rs:617-764 | a frame is verified first, then needs a handle and a session; a close removes, summarises and records it, a command writes, and on an exited channel removes, summarises and records |
| Gateway.Broker.HandleIntent | crates/gateway-core/src/lib.rs:766-800 | identity, schema, policy, then the route: effects, reply and the new replay state; the first effect is the decision on the verified agent and the envelope's own reference, target, mechanism and constraints |
| Gateway.Broker.HandleMessage | crates/gateway-core/src/lib.rs:406-430 | a halted gateway changes nothing and answers so; otherwise dispatch by type, with the effects of intents and of session frames |
| GatewayLaws.IntentIsLegal | crates/gateway-core/src/lib.rs:766-1176 | every admitted intent is a decision, the gate if needed, one legal use of a credential, and one record whose outcome fits that use |
| GatewayLaws.IntentEnds | crates/gateway-core/src/lib.rs:766-1176 | each outcome is reached if and only if the message, the setup and the answers call for it: denial, unanswered gate, unresolved credential, injected, session opened, and a mechanism error otherwise |
| GatewayLaws.UseFitsTheRequest | crates/gateway-core/src/lib.rs:443-1176 | a certificate is minted only for a `ca://` session of an enrolled agent, a channel is opened only by a configured backend, a credential is injected only into a parsed operation that brings no Authorization of its own, and each step has the answer it was given |
| GatewayLaws.SpentPastTheGate | crates/gateway-core/src/lib.rs:802-972 | a credential is fetched only after a decision that is not a denial and, where needed, after approval |
| GatewayLaws.Places | crates/gateway-core/src/lib.rs:443-613 | each kind of effect has one place; a target is reached only right after its credential was fetched, a session is added only right after its channel connected |
| GatewayLaws.AskedAndSpentOnce | crates/gateway-core/src/lib.rs:831-972 | at most one prompt and one credential, and a prompt only where the gate is needed |
| GatewayLaws.OneRecordThenTheFeed | crates/gateway-core/src/lib.rs:1224-1274 | exactly one record, after everything but the feed; the feed if and only if denied or notified |
| GatewayLaws.RecordTellsTheTruth | crates/gateway-core/src/lib.rs:766-1176 | each outcome is recorded if and only if the step that defines it happened, and success is answered if and only if it was recorded |
| GatewayRuns.ReachableFlights | crates/gateway-core/src/lib.rs:406-430 | in every interleaving each message has done, in order, a prefix of what its verdict prescribes and nothing else |
| GatewayRuns.CredentialOnlyPastTheGate | crates/gateway-core/src/lib.rs:443-613 | in every run a credential is fetched for a message only after it verified, policy did not deny it and the human approved it where needed |
| GatewayRules.CredentialByItsRule | crates/gateway-core/src/lib.rs:766-972 | in every run, when a credential is fetched for a message, the first rule that takes the verified agent and the envelope's reference, target and mechanism is not a denial; its decision, with its ceilings and the envelope's, came before, and a person approved wherever one must be asked |
| GatewayRules.AskedByItsRule | crates/gateway-core/src/lib.rs:857-920 | in every run a person is asked only where that rule says so, or about a `local-privilege` command that it allows and the allowlist does not permit |
| GatewayRules.DecidedByFirst | crates/gateway-core/src/lib.rs:793-800 | a decision other than a denial is that of the first rule that takes the agent and the envelope's own texts |
| GatewayRuns.OneOfEachIntent | crates/gateway-core/src/lib.rs:766-777 | two messages of one intent are never both verified, with readings at most `stale` seconds late and skew of at least `stale + 3` |
| GatewayRuns.OncePerIntent | crates/gateway-core/src/lib.rs:766-1176 | in every such run one intent causes at most one prompt and at most one credential to be fetched, restarts included |
| GatewayRuns.OnlyVerifiedFramesAct | crates/gateway-core/src/lib.rs:617-764 | in every run a channel is written to, and a session removed, summarised or recorded as closed, only by a frame that verified and named a session found for its agent; only a command writes, as its first step |
| GatewayRuns.OncePerFrame | crates/gateway-core/src/lib.rs:617-697 | one signed frame reaches a channel at most once, restarts included |
| GatewayRuns.EvidenceExactly | crates/gateway-core/src/lib.rs:636-800 | a finished message has left one record if it is an intent that failed verification or parses, or a frame that closed its session or found its channel exited; otherwise none |
| GatewayRuns.ClosedRecordExactly | crates/gateway-core/src/lib.rs:636-764 | a finished frame is recorded as an allowed, closed session if and only if it closed one or found its channel exited |
| GatewayRuns.FeedExactly | crates/gateway-core/src/lib.rs:1224-1274 | a finished, admitted intent is on the feed if and only if it was denied or its rule notifies, and on the chain either way, and its outcome is the one the answers call for |
| GatewayRuns.HaltedArrivalDoesNothing | crates/gateway-core/src/lib.rs:406-417 | a message that arrives at a halted gateway is never judged and never has an effect |
| GatewayRuns.RestartEndsMessages | crates/gateway-core/src/lib.rs:406-430 | no message in hand at a restart takes another step |
| GatewayRuns.FirstReasonStays | crates/gateway-core/src/lib.rs:346-355 | the first halt reason persists until the process restarts |
| GatewayHalt.ActsAfterHaltExactly | crates/gateway-core/src/lib.rs:406-430 | at a halted gateway a message has an effect in some continuation before a restart if and only if it had arrived and is unfinished: judged with steps left, or still to be judged and an intent, or a frame that can still be accepted and then has steps |
| GatewayHalt.TakesExactly | crates/gateway-core/src/lib.rs:406-430 | for every kind of step: a message in hand takes one in some continuation if and only if one is still ahead of it, for all continuations and for those whose clock readings are in order |
| GatewayHalt.StepsAfterHaltArrivedBefore | crates/gateway-core/src/lib.rs:406-417 | every effect after a halt is of a message that had arrived by then and was unfinished |
| GatewayHalt.SpendsAfterHaltExactly | crates/gateway-core/src/lib.rs:406-430 | a credential is still fetched for a message in some continuation if and only if a fetch is left in its plan, or it is still to be judged, can be accepted and would then fetch one |
| GatewayHalt.WritesAfterHaltExactly | crates/gateway-core/src/lib.rs:617-697 | bytes of a message still reach a channel in some continuation if and only if it is a command naming a session that is found and takes them, accepted and not yet written, or still to be judged and acceptable |
| GatewayHalt.CanVerifyMeans | crates/identity/src/lib.rs:143-213 | a message still to be judged can be accepted if the cache accepts it at some reading from here on, and only if all but the room in the journal speaks for it at one; for a cache in memory the two are the same |
| GatewayHalt.HaltedMessageGoesOn | crates/gateway-core/src/lib.rs:406-430 | for every message and every step its verdict prescribes, a run halted after the verdict in which that step follows the halt |
| GatewayHalt.CredentialAfterHalt | crates/gateway-core/src/lib.rs:346-355 | such a run exists: one rule that allows everything, a halt, then the fetch |
| GatewayHalt.BytesAfterHalt | crates/gateway-core/src/lib.rs:617-697 | and one in which a command's bytes reach the channel after the halt |
| SessionTable.Sessions.Insert | crates/gateway-core/src/session.rs:151-183 | a new live session under the handle and for the agent, opened now and ending a lifetime later, all counters zero |
| SessionTable.Sessions.Access | crates/gateway-core/src/session.rs:190-210 | unknown, foreign, expired or found, in that order |
| SessionTable.Lookup | crates/gateway-core/src/session.rs:190-210 | a session is found if and only if it is live under the handle, owned by the agent and not yet expired; the time left is positive |
| SessionTable.Sessions.Take | crates/gateway-core/src/session.rs:214-222 | removes the owner's session; nothing for an unknown or foreign one |
| SessionTable.Sessions.ReapExpired | crates/gateway-core/src/session.rs:237-249 | removes and returns exactly the expired sessions, each once |
| SessionTable.Sessions.NextOutSeq | crates/gateway-core/src/session.rs:254-256 | the next number, and nothing else changed; on 64-bit words it is the wrapping increment |
| SessionTable.Sessions.RecordRelay | crates/gateway-core/src/session.rs:293-297 | one more command and its bytes, and nothing else changed; on 64-bit words these are the three wrapping additions |
| SessionTable.Sessions.HeartbeatDue | crates/gateway-core/src/session.rs:313-330 | due once open for the threshold and silent for the threshold; remembers the beat |
| SessionTable.BeatsAreSpaced | crates/gateway-core/src/session.rs:313-330 | however often the scan runs, beats are a threshold apart and the first is a threshold after opening |
| SessionRuns.BooksBalance | crates/gateway-core/src/lib.rs:617-764 | in every interleaving each counter is the sum over relayed frames less what the frame that holds the channel has not yet counted, output numbers are 1, 2, 3 and so on without gaps, and each removal has its shutdown and its summary or is still to have them |
| SessionRuns.OnlyTheOpenerWrites | crates/gateway-core/src/lib.rs:617-697 | bytes reach a channel only from a frame verified as the opener whose lookup found the session live before its expiry |
| SessionRuns.FrameWritesOnce | crates/gateway-core/src/lib.rs:682-697 | in every interleaving a frame writes to its channel at most once |
| SessionLifetimes.HasItsOpening | crates/gateway-core/src/session.rs:151-183 | in every run each session was opened by one step and keeps that step's handle and agent, and its time plus lifetime as its end |
| SessionLifetimes.WrittenInItsTime | crates/gateway-core/src/session.rs:190-210 | in every run whatever is written to a channel is the input of a later command verified as the agent of the opening step, naming its handle, and looked up before that step's time plus its lifetime |
| SessionLifetimes.AnswersUntilItsEnd | crates/gateway-core/src/session.rs:190-210 | while in the table a session is found if and only if the agent is the opener's and the time is before the opening time plus the lifetime, with exactly the rest of it left |
| SessionLifetimes.LeavesForAReason | crates/gateway-core/src/session.rs:214-249 | in every run a session leaves the table only by its opener's close, by its opener's exited command, by a reap at or after the opening time plus the lifetime, or by another opening under its handle |
| SessionLifetimes.ReapedExactlyAtItsEnd | crates/gateway-core/src/session.rs:237-249 | a reap removes and reports a session in the table if and only if it comes at or after the opening time plus the lifetime |
| SessionLifetimes.ExitsOnce | crates/gateway-core/src/lib.rs:716-757 | one command's exited channel removes at most one session |
| SessionLives.FrameActsInItsLife | crates/gateway-core/src/lib.rs:617-697 | a frame acts only in the process life in which it was verified |
| SessionLives.OwnersCommandIsWritten | crates/gateway-core/src/lib.rs:617-697 | in every run an accepted command of the session's own agent, before its end and with its channel free, is written when it takes its turn |
| SessionLives.OwnersCloseEnds | crates/gateway-core/src/lib.rs:617-680 | in every run an accepted close of the session's own agent takes it out of the table |
| SessionAttested.WritesAreSigned | crates/gateway-core/src/lib.rs:617-697 | whatever is written to a channel is the input of a message that names that session, carries the signature of the agent who opened it, and was accepted; over every interleaving of verification, table and restarts |
| SessionAttested.SignedFrameWritesOnce | crates/gateway-core/src/lib.rs:617-697 | two writes, in one process life or over restarts, never come from one signed frame |
| SessionRuns.RemovalHasCause | crates/gateway-core/src/session.rs:214-249 | a session leaves the table only by its opener's close, its opener's exited channel, expiry, or a new session under the same handle |
| SessionRuns.LiveOrRemovedOnce | crates/gateway-core/src/session.rs:151-249 | every session opened is in the table, or was removed exactly once, or was replaced by one that drew its handle; never replaced when handles are fresh |
| SessionSummary.SummaryIsHonest | crates/gateway-core/src/session.rs:301-308 | the three numbers of a summary are loaded one after the other; each is what was relayed by its own moment, less exactly what the frame holding the channel then has not yet counted, and is exact if and only if that is nothing |
| SessionSummary.SummaryMayMissAFrame | crates/gateway-core/src/lib.rs:1324-1330 | for every handle, agent and input, a run whose summary misses a written frame |
| SessionSummary.SummaryMayDisagree | crates/gateway-core/src/session.rs:293-308 | for every handle, agent and input, a run whose summary has the input of a frame that it does not count |
| SessionFrames.CountAndNumber | crates/gateway-core/src/lib.rs:700-716 | a batch is counted once and its chunks numbered on from the last number, in order |
| SessionFrames.HandleCommand | crates/gateway-core/src/lib.rs:617-764 | the command handler, with other frames under way elsewhere, changes the table as its steps do, and relays exactly when the frame verified, its lookup succeeded and the write succeeded, with the outputs numbered in read order |
| SessionFrames.HandleClose | crates/gateway-core/src/lib.rs:636-676 | the close handler, whatever frames are under way, takes the opener's session and nothing else, and says so exactly when it did |
| SessionFrames.EmitHeartbeats | crates/gateway-core/src/lib.rs:1324-1340 | exactly the expired sessions are reaped and summarised; then exactly the live sessions with a beat due beat, and only their beat time changes |
| Scrub.PassOver | crates/injectors/src/http.rs:212-235 | one pass of the replacement loop replaces the form left to right |
| Scrub.ScrubBytes | crates/injectors/src/http.rs:212-235 | the passes, longest form first, leave no form that is apart from the marker and leave clean data untouched |
| Scrub.ScrubHeaderPairs | crates/injectors/src/http.rs:238-252 | header names stay, every value is scrubbed |
| Scrub.PassKeepsTheRest | crates/injectors/src/http.rs:212-235 | a pass swaps occurrences of the form for the marker and touches nothing else |
| Scrub.NothingComesBack | crates/injectors/src/http.rs:212-235 | a pass leaves none of its form and recreates no other form |
| Scrub.LongestFirstForms | crates/injectors/src/http.rs:212-235 | the sort keeps exactly the non-empty forms |
| Scrub.NoFormSurvives | crates/injectors/src/http.rs:212-235 | after all passes no form that cannot overlap the marker occurs anywhere |
| Scrub.BracketFreeIsApart | crates/injectors/src/http.rs:27 | a form without brackets that the marker does not contain cannot overlap it |
| Scrub.ScrubIsCleanExactly | crates/injectors/src/http.rs:212-235 | for bracket-free forms every response comes out clean if and only if the marker contains none of them |
| Scrub.CleanDataUnchanged | crates/injectors/src/http.rs:212-235 | data that holds no form is returned as it is |
| Scrub.ReflectedFormIsOneMarker | crates/injectors/src/http.rs:212-235 | longest first: a reflected form becomes one marker whole |
| Scrub.ReadBodyCapped | crates/injectors/src/http.rs:32-54 | the whole body within the cap, or an error; never a silent truncation |
| ScrubLength.PassLength | crates/injectors/src/http.rs:212-235 | a pass changes the length by marker minus form for each occurrence replaced, and replaces one if and only if the form occurs |
| ScrubLength.CapSurvivesExactly | crates/injectors/src/http.rs:186-197 | every response within its ceiling is within it after scrubbing if and only if every form is at least as long as the marker or longer than the ceiling |
| Codec.ParseContentLength | crates/transport/src/codec.rs:150-175 | the header-line loop gives the declared length or the first fault |
| Codec.LengthExactly | crates/transport/src/codec.rs:150-175 | a length is accepted if and only if exactly one header line declares it |
| LengthLine.LengthLineExactly | crates/transport/src/codec.rs:155-171 | a line declares `n` if and only if it is a name, its first colon and a value, the name `content-length` in any ASCII case between whitespace, the value a 64-bit decimal, perhaps with a plus sign, between whitespace |
| LengthLine.TrimOf | crates/transport/src/codec.rs:155-171 | trimming gives exactly the text between the whitespace |
| HeaderBlocks.BlockHoldsItsLines | crates/transport/src/codec.rs:155-157 | a block of lines without line breaks, the last not empty, is read as exactly those lines |
| HeaderBlocks.LinesMakeTheText | crates/transport/src/codec.rs:155-157 | the lines of any text, joined, are the text but for the terminators at its end, and none holds a line break |
| HeaderBlocks.BlockDeclaresExactly | crates/transport/src/codec.rs:150-175 | a header text declares `n` if and only if exactly one of its lines is a length, it says `n`, and every line that is not empty has a colon |
| HeaderBlocks.SecondLengthIsRefused | crates/transport/src/codec.rs:150-175 | a header text with a second length line is refused, whatever the two say |
| HeaderBlocks.FrameUnderItsHeaders | crates/transport/src/codec.rs:98-175 | a frame under any header lines of which exactly one declares its length is read as its payload, whatever follows |
| HeaderBlocks.TwoLengthsRefuseTheFrame | crates/transport/src/codec.rs:98-175 | a frame under two length lines is refused as malformed, whatever follows |
| Codec.DecimalRoundTrip | crates/transport/src/codec.rs:178-187 | a written length is digits that read back as that length |
| FrameStream.Reader.ReadHeader | crates/transport/src/codec.rs:119-143 | byte by byte to the first blank line, or close, end of input, or too large |
| FrameStream.Reader.ReadFrame | crates/transport/src/codec.rs:98-116 | one frame or its error; an oversized length is refused before any body byte is read |
| FrameStream.FrameReads | crates/transport/src/codec.rs:98-187 | a written frame reads back, whatever follows it |
| FrameStream.CutStream | crates/transport/src/codec.rs:98-187 | any prefix of a written stream yields exactly the whole frames' messages, then a close on a boundary and an unexpected end elsewhere |
| FrameStream.StreamRoundTrip | crates/transport/src/codec.rs:98-187 | all that was written is read back in order, then the stream closes |
| FrameStream.OversizeRefused | crates/transport/src/codec.rs:98-116 | a declared length over the limit is refused |
| Events.EventHub.Send | crates/gateway-core/src/events.rs:129-142 | the line goes to every subscriber that can take it; the others leave the registry |
| Events.EventHub.OfferAll | crates/gateway-core/src/events.rs:129-142 | each subscriber is offered the line once, in turn; those that cannot take it are counted out |
| Events.EventHub.Register | crates/gateway-core/src/events.rs:162-184 | a subscriber joins with an empty queue, or not at all if its thread did not start; it is not counted yet |
| Events.CountTellsExactly | crates/gateway-core/src/events.rs:129-184 | in every interleaving the counter equals the number registered if and only if no caller is still to count its own, as 64-bit words |
| Events.CountMayWrap | crates/gateway-core/src/events.rs:129-184 | a run in which a subscriber dropped before it is counted takes the counter to the largest word |
| Events.SubscriberFollowsFeed | crates/gateway-core/src/events.rs:129-184 | in every interleaving a subscriber holds an in-order prefix, without gaps, of the lines sent since it joined; all of them while registered and alive; never more than 256 queued |
| Events.DeliveredIsPrefix | crates/gateway-core/src/events.rs:162-184 | what was delivered is a contiguous prefix of the lines broadcast since joining |
| Events.SubscriberReadsLines | crates/gateway-core/src/events.rs:129-184 | read line by line, a subscriber's connection yields the first lines broadcast since it joined, each whole and once, if no line holds a newline |
| Events.DroppedExactlyWhenFull | crates/gateway-core/src/events.rs:129-142 | a live subscriber is dropped if and only if a broadcast finds its queue full |
| Events.DroppedForGood | crates/gateway-core/src/events.rs:129-142 | a dropped subscriber never gets another line |
| Events.DrainDeliversAll | crates/gateway-core/src/events.rs:162-184 | left alone, a live thread delivers everything it was given, dropped or not |
| Import.AnyListed | crates/cli/src/import_core.rs:175-181 | answers exactly whether some pair row mentions both texts |
| Import.TakeRows | crates/cli/src/import_core.rs:115-192 | the row loop: entries first, then pair rows, each checked against what earlier rows did, up to the first entry the vault refuses |
| Import.Publish | crates/cli/src/import_core.rs:198-210 | the canonical rewrite with the new rows, validated as it will be read |
| Import.RunImport | crates/cli/src/import_core.rs:83-211 | the whole run: vault, outcomes, document, and each refusal, those of listing the vault and of setting an entry included |
| ImportLaws.ImportOnlyAdds | crates/cli/src/import_core.rs:150-170 | no existing entry is changed or removed, each new path is set once, a dry run sets nothing |
| ImportLaws.FirstRowWins | crates/cli/src/import_core.rs:150-170 | a new path appears if and only if a fitting row resolves to it, and holds the first such row's value |
| ImportLaws.OutcomesTell | crates/cli/src/import_core.rs:130-170 | one outcome a row, in order: refused, already there (from the vault or an earlier row), or imported |
| ImportLaws.PairsComeFromRows | crates/cli/src/import_core.rs:182-191 | every pair row added is that of a fitting row |
| ImportLaws.NothingUnderCa | crates/cli/src/import_core.rs:97-108 | nothing under the certificate authority's namespace appears or changes |
| ImportLaws.RefusalWritesNothing | crates/cli/src/import_core.rs:83-211 | on an error the vault is as it was, unless the vault refused an entry; then it is as it was if and only if the rows before needed no new entry |
| ImportLaws.UntouchedExactly | crates/cli/src/import_core.rs:150-170 | taking rows leaves the vault as it was if and only if every fitting row's entry is already there |
| ImportLaws.GeneratedLoads | crates/cli/src/import_core.rs:198-210 | the generated document always validates |
| ImportLaws.TargetAxisMeans | crates/cli/src/import_core.rs:67-79 | a row agrees with a rule's target axis if and only if the axis's debug text holds `ssh` |
| ImportLaws.FitsExactly | crates/cli/src/import_core.rs:67-148 | a row fits if and only if the debug text of the rule's reference axis holds the part of the row's reference before the mark, where there is any, and that of its target axis holds `ssh` |
| ImportLaws.OpenTargetAxisRefusesAll | crates/cli/src/import_core.rs:67-79 | an open target axis accepts every row's target, yet every row is refused |
| ImportLaws.LongerRowHidesShorter | crates/cli/src/import_core.rs:172-191 | a row whose texts lie inside an added row's gets no pair row, and the added row does not match it |
| ImportLaws.EveryFitIsListed | crates/cli/src/import_core.rs:172-191 | after a run every fitting row is mentioned by the rule's rows |
| ImportGrants.MentionMeans | crates/cli/src/import_core.rs:118-181 | a matcher of any kind mentions a row's text if and only if its own escaped text holds it |
| ImportGrants.KnownExactly | crates/cli/src/import_core.rs:172-181 | a row is passed over if and only if an existing row mentions it or an earlier fitting row's texts contain its own |
| ImportGrants.GrantedExactly | crates/cli/src/import_core.rs:172-191 | after a run the rule's rows grant a row if and only if they did before, or no existing row mentions it and its first containing fitting row is its own |
| ImportGrants.AllGrantedExactly | crates/cli/src/import_core.rs:172-191 | for a rule without rows every fitting row is granted if and only if no fitting row's two texts lie inside those of a different fitting row that precedes its first occurrence |
| ImportUse.ReferenceFindsItsEntry | crates/vault/src/provider.rs:128-146 | a row's reference is routed to the entry the row resolves to if and only if the scheme has a mark, and not at its start |
| ImportUse.SecretIsStored | crates/cli/src/import_core.rs:150-170 | the first fitting row for a new entry has its own secret stored there, or the placeholder if it brings none |
| ImportUse.ReferenceFindsItsSecret | crates/cli/src/import_core.rs:83-211 | after an import the reference of such a row leads to that secret |
| ImportUse.ImportedRowIsDecided | crates/cli/src/import_core.rs:83-211 | the document an import leaves decides the use of a row by the rule it was imported into, with its effect, if and only if the rule's axes and one of its rows, old or added, take it |
| ImportRerun.RerunIdleExactly | crates/cli/src/import_core.rs:83-211 | after a successful run a second one changes neither vault nor document if and only if no matcher of the saved policy loses a tag, and every row that fits the rule as read back has its entry and is mentioned by one of its rows |
| ImportRerun.RerunWithoutRows | crates/cli/src/import_core.rs:172-210 | for a rule without rows: if and only if no matcher of the policy loses a tag and the two texts of every fitting row stand in the debug form of a row that was added |
| ImportRerun.RowsPileUp | crates/cli/src/import_core.rs:172-210 | a row that its own pair does not show is added again by every run: `n` runs leave `n` more copies |
| ImportRerun.PilesForEver | crates/cli/src/import_core.rs:172-210 | such runs succeed, so there is a series of every length |
| ImportRerun.BackslashHidesItself | crates/cli/src/import_core.rs:172-181 | a row whose reference has one backslash inside is such a row |
| PolicyGuard.Run | crates/gateway-core/src/policy_guard.rs:172-196 | the polling loop gives the halt state, the alerts and the failure count of its polls |
| PolicyGuard.FireDrift | crates/gateway-core/src/policy_guard.rs:201-252 | halts with the reason unless already halted, and alerts once |
| PolicyGuard.ShortShows | crates/gateway-core/src/policy_guard.rs:254-256 | a hash is shown by its first sixteen characters |
| PolicyGuard.QuietUntilDrift | crates/gateway-core/src/policy_guard.rs:144-196 | before the first drift there is no alert, and only the last poll's failure is counted |
| PolicyGuard.FiresAtFirstDrift | crates/gateway-core/src/policy_guard.rs:172-252 | the gateway is halted at exactly the first drift, with its reason, and alerted exactly once |
| PolicyGuard.HaltsExactly | crates/gateway-core/src/policy_guard.rs:144-196 | it halts if and only if some poll finds the file changed, missing, or unreadable twice running |
| PolicyGuard.HaltedWatchDoesNothing | crates/gateway-core/src/policy_guard.rs:182-185 | a gateway that is already halted keeps its reason and gets no alert |

## Left out

- Cryptography itself, canonical JSON formatting, JSON and TOML lexing, base64: library code, here parameters or trees.
- The user interface, toasts, console, command line and doctor: plumbing.
- The SSH, PostgreSQL, HTTP, pipe and helper-process back ends: their answers are parameters.
- File-system failure modes: writes and renames happen whole and succeed.
- Certificate building, enrolment and vault management, and the allowlist's own test: easy once their inputs are abstract.
- Reply texts and the fields of audit and feed records beyond effect and outcome.
- The session lifetime against a rule's ceiling: the table uses the declared constraint or the default, so there is no such law.
- JSON numbers are integers in the audit model, and characters stand for the bytes of text.
- SessionTable.Sessions.NextOutSeq: the overflow of the returned number itself, after 2^64 outputs, is a wrap-around here; a build that checks arithmetic stops there.
- SessionTable.Sessions.RecordRelay: one caller; its three additions are separate steps in the interleavings of SessionRuns.
- SessionSummary.SummaryIsHonest: counters are unbounded; their 64-bit words are those of SessionTable.Sessions.RecordRelay.
- ImportRerun.RerunWithoutRows: for references that do not start with a matcher tag and a rule whose own axes are not mistagged; ImportRerun.RerunIdleExactly has no such condition.
- AuditWriter.RunStaysSynced: record numbers stay below the 64-bit limit, where the writer's counter stops.
- Attestation.SingleUseExactly: for `d` up to a thousand million seconds, where every time in the witness run can be written.
- ImportGrants.AllGrantedExactly: for rows whose texts the debug form leaves alone, that hold no star and that do not start with a matcher tag.
- Scrub.NoFormSurvives: for forms with brackets `Apart` is sufficient only; whether an overlap with the marker can arise depends on how the form overlaps itself and on the other forms.
- GatewayHalt.CanVerifyMeans: for a cache with a journal the two conditions differ while the journal is over its cap; then another message judged first can make room or take it, and no condition on one message decides.
- GatewayRuns.OnlyVerifiedFramesAct: the session table's and the channel's answers to a frame are parameters there; SessionAttested has the table itself.
- HeaderBlocks.FrameUnderItsHeaders: for blocks within the header limit whose lines hold no carriage return and are not empty, since an empty line ends a block.
- ReplayLean.JournalStaysLean: on the count that the cache keeps; ReplayLean.LoadKeepsStepExactly says when that is the file's.
- ImportUse.ImportedRowIsDecided: for rules whose matchers are not mistagged and a request that no earlier rule covers.
- ScrubLength.CapSurvivesExactly: for forms that leave some character unused.
- The liveness scan goes on after a halt, since it is no message; it is modelled with the sessions only.

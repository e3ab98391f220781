# Verified models of the conformance, restore and authentication cores

This project models the parts of the repository that are algorithms, and proves what they promise. Each model keeps the
branches, constants and error cases of the code it stands for: loops that fill variables are methods with invariants,
records are datatypes, and the release gate's output files are fields of a class. Every such method is tied to a
specification function or to a declarative statement, and the theorems are about those.

| file | models |
|---|---|
| `RustBlanker`, `RustBlankerTheorems`, `RustLexemes`, `RustTokens` | the scanner that blanks comments, strings and literals in Rust source |
| `AuthzSession`, `EventReplay` | the authorization-session machine and the replay of its projected events |
| `Recovery` | Base32 secrets, recovery codes, and the lockout after wrong codes |
| `DynamoItems`, `RestoreRows`, `RestoreCutover` | the check of restored tables before a cutover |
| `RestoreMeaning`, `RestoreReaders`, `RestoreOwners`, `RestoreExact` | what the rows say in terms of their attributes, and that the check passes exactly the safe candidates |
| `RestoreErasure`, `RestoreCutoverOrder`, `RestoreCutoverExample` | what suppression codes stand for, and the order of the rows |
| `ConformanceEvidence`, `ConformanceInput`, `ConformanceGate`, `Promotion` | the release gate and the check before a promotion |
| `OidfConverter` | the program that makes the gate's evidence from an official export |
| `Watchdog`, `WatchdogMeaning` | the monitor of the scheduled gate, and what its findings say |
| `Escapes`, `Pieces`, `MarkdownRow` | the splitter of Markdown table rows |
| `Framing`, `Decimals` | the messages that are fed to message authentication codes |
| `Cooldown`, `MinorUnits` | the magic-link cooldown, and the printing of payment amounts |
| `Wrappers`, `MachineInts`, `Lists`, `PythonText` | shared vocabulary |

Functions and methods follow the code. What they are proved against is said in other terms, from the outside: table
attributes and decoded values, the runs and jobs a monitor was given, the letters of a token, the bits of a byte string.

Hash functions, message authentication codes, the UTF-8 encoder, the JSON and integer decoders and the URL parser are
function parameters: the theorems hold for every such function, and a theorem that needs one to be free of collisions
says so in its `requires`. Times are integers; 32-bit and 64-bit limits, truncation and saturation are written out where
the Rust code has them. The two regular expressions of the blanker, which match at a position, are written as a language
and a length function with a lemma that the two agree; those that match a whole text (commit ids, issue URLs, amounts)
are predicates.

## Findings

Properties that the code does not have, with the exact condition under which it does:

- The verdict of the restore verifier can depend on the order of the scanned rows. A suppression record whose
  `normalization_version` is the float `1.0` passes the comparison with 1, but packing the float raises an error. The
  set of versions keeps the first of two equal members, so the verifier fails when the float comes first and passes when
  the integer comes first (`RestoreCutoverExample.OrderCanMatter`). Reordering can change the verdict exactly when
  everything else is in order, some key version is recorded with a float, and each such key version is also recorded
  with an integer (`RestoreCutoverOrder.OrderMattersIffMixed`); without floats the order never matters
  (`RestoreCutoverOrder.OrderIsIrrelevant`).
- The cooldown's `retry_after` can be too short. For every 64-bit input, retrying at the advised time is allowed if and
  only if the end of the window, cut off at the largest time, is at most the current time plus the larger of 1 and the
  window (`Cooldown.AdviceIsExactIff`; `AdviceCanBeEarly` is an input). That holds whenever the clock has not run back before the last send; for a
  positive window that ends in range it holds only then.
- Two sends can be closer together than the window. For every 64-bit input, a send inside the window happens exactly at
  the largest representable time, when the window ends beyond it (`Cooldown.WindowFailsIffSaturated`); at that time
  every check sends (`SendsPileUpAtTheEnd`), and before it any T seconds hold at most 1 + T / window sends
  (`SendsAreRare`).
- The tag message of a magic link does not always determine the link. A link has the same message as some different link
  exactly when its id or its nonce contains a colon (`Framing.TagMessageIsSharedIffColon`; `TwoLinksOneMessage` is a
  pair). Among links whose ids hold
  no colon the message determines the link (`TagMessageIsInjective`).
- The blanker documents that it preserves line boundaries, and a caller splits the stripped text with `splitlines`. It
  preserves `\n`, but the other characters at which `splitlines` breaks are blanked like any other: a form feed in a
  line comment ends a line of the source and none of the stripped text (`RustLexemes.FormFeedIsLost`). The line breaks
  of the stripped text are those of the source if and only if every line break other than `\n` is code
  (`RustLexemes.LineBreaksAreKeptIff`).

## Model

| member | source | states |
|---|---|---|
| RustBlanker.CharLiteralLenIsExact | scripts/conformance_evidence_map.py:68-70 | The length function matches exactly the language of the char-literal expression, and at most one length per position |
| RustBlanker.RawOpenLenIsExact | scripts/conformance_evidence_map.py:71 | The length function matches exactly the raw-string openings, and finds the captured number of hashes |
| RustBlanker.CodeTurn | scripts/conformance_evidence_map.py:226-257 | One turn of the loop in code consumes one token, appends its blanked or copied text, and enters the right state |
| RustBlanker.NonCodeTurn | scripts/conformance_evidence_map.py:184-224 | One turn inside a comment or string does the same, for all four states and the depth counter |
| RustBlanker.StripRustNonCode | scripts/conformance_evidence_map.py:173-258 | The whole loop computes the recursive scan that all theorems below speak about |
| RustBlankerTheorems.ScanIsAligned | scripts/conformance_evidence_map.py:181-258 | From any state: same length, newlines at the same places, each character kept or a space, no double quote left |
| RustBlankerTheorems.StripIsAligned | scripts/conformance_evidence_map.py:387-390 | The alignment its caller relies on when it looks up a match position in the stripped text |
| RustBlankerTheorems.ScanComposes | scripts/conformance_evidence_map.py:181-258 | Text and end state compose over any cut after a newline, from any state |
| RustBlankerTheorems.BlanksComeInPairs | scripts/conformance_evidence_map.py:184-255 | A blanked first character is followed by another blank: no blanked region is one character long, except at the end |
| RustBlankerTheorems.KeptStaysKept | scripts/conformance_evidence_map.py:226-257 | A character kept in front of stripped text starts no comment, string or literal there either |
| RustBlankerTheorems.ScanIsClean | scripts/conformance_evidence_map.py:181-258 | From any state the output contains no place where a comment, string or literal would start |
| RustBlankerTheorems.StripIsIdempotent | scripts/conformance_evidence_map.py:173-258 | Stripping stripped source changes nothing, for every input |
| RustLexemes.BlockCommentsNest | scripts/conformance_evidence_map.py:190-205 | With inner and outer comments open, the inner ones close first and the outer ones after them: the depths add |
| RustLexemes.StringEndsAtFirstQuote | scripts/conformance_evidence_map.py:206-214 | A string ends at its first quote that a left-to-right escape automaton calls unescaped, or at the end of the source |
| RustLexemes.RawEndsAtFirstTerminator | scripts/conformance_evidence_map.py:215-224 | A raw string ends at the first quote followed by as many hashes as it opened with, or at the end of the source |
| RustLexemes.LexemesCoverTheSource | scripts/conformance_evidence_map.py:181-258 | The lexemes, written one after the other, are the source |
| RustLexemes.StripRendersLexemes | scripts/conformance_evidence_map.py:173-258 | The state machine equals a lexer that reads whole tokens: code copied, every other lexeme blanked |
| RustLexemes.VisibleIffCode | scripts/conformance_evidence_map.py:387-390 | At any visible character, "unchanged in the stripped text" is the same as "belongs to a code lexeme" |
| RustTokens.LiteralIsBlanked | scripts/conformance_evidence_map.py:237-242 | Every text of the char-literal language is blanked as a whole, whatever follows it |
| RustTokens.HexEscapeIsBlanked | scripts/conformance_evidence_map.py:68-70 | A two-digit escape with any of the 22 hexadecimal digits becomes six spaces |
| RustTokens.BracedEscapeIsBlanked | scripts/conformance_evidence_map.py:68-70 | So does a braced escape of one to six of those digits or underscores, in its length |
| RustTokens.LineCommentIsBlanked | scripts/conformance_evidence_map.py:184-189 | A line comment is blanked up to its newline or the end |
| RustTokens.BlockCommentIsBlanked | scripts/conformance_evidence_map.py:190-205 | A block comment without marks inside is blanked with both marks |
| RustTokens.StringIsBlanked | scripts/conformance_evidence_map.py:206-214 | A string without quotes and escapes inside is blanked with both quotes |
| RustTokens.RawStringIsBlanked | scripts/conformance_evidence_map.py:215-224 | A raw string with `r` or `br` and up to 255 hashes is blanked with its prefix, quotes and hashes |
| RustTokens.PlainCodeIsKept | scripts/conformance_evidence_map.py:256-257 | A character that starts no token stays, and scanning goes on after it |
| RustTokens.SlashIsKept | scripts/conformance_evidence_map.py:226-236 | So does a slash that starts no comment |
| RustTokens.LoneQuoteIsKept | scripts/conformance_evidence_map.py:237-242 | So does a quote that starts no char literal |
| RustTokens.LetterIsKept | scripts/conformance_evidence_map.py:248-255 | So does an `r` or `b` that starts no raw string |
| RustLexemes.LineBreaksAreKeptIff | scripts/conformance_evidence_map.py:262 | The stripped text breaks into lines at the same characters as the source, if and only if every line break other than a newline is code |
| RustLexemes.FormFeedIsLost | scripts/conformance_evidence_map.py:184-189 | A form feed in a line comment is a line break of the source and not of the stripped text |
| AuthzSession.ParseInvertsAsStr | crates/authn/src/authz_session.rs:33-60 | A text parses to a state exactly when it is the name of that state |
| AuthzSession.RanksRise | crates/authn/src/authz_session.rs:75-94 | Along every legal run the rank rises by at least one a step |
| AuthzSession.RunsAreShortAndFinal | crates/authn/src/authz_session.rs:63-94 | Every run from the created state makes at most four transitions, repeats no state, and ends at its first terminal state |
| AuthzSession.ExchangePassesThroughConsent | crates/authn/src/authz_session.rs:75-94 | Completion or a failed exchange comes directly after an issued code, and that directly after pending consent |
| AuthzSession.LiveRunsCanEnd | crates/authn/src/authz_session.rs:63-94 | Every run can be ended by expiry or revocation exactly while it is not terminal, and never goes on after an end |
| AuthzSession.RunsExtendExactly | crates/authn/src/authz_session.rs:63-94 | For every next state, a legal run can be extended by it exactly from the listed last states |
| AuthzSession.ParseReadsNames | crates/authn/src/authz_session.rs:47-60 | Parsing reads exactly the nine stored names, each as its state |
| EventReplay.OrInsertInserts | crates/authn/src/authz_session.rs:147-152 | An ordered entry-or-insert keeps strict order, and adds the event only if its sequence number is free |
| EventReplay.ReplayBySequence | crates/authn/src/authz_session.rs:139-157 | The result has exactly the delivered sessions, each with its first-delivered events in strictly increasing order |
| EventReplay.ReplayIsUnique | crates/authn/src/authz_session.rs:139-157 | That statement determines the result |
| EventReplay.ReplayRecoversHistories | crates/authn/src/authz_session.rs:139-157 | Any delivery of legal histories, repeated, reordered and interleaved, replays to exactly those histories, and their state names parse back |
| EventReplay.ReplayIsIdempotent | crates/authn/src/authz_session.rs:139-157 | Replaying the flattened result, in any order, gives the result again |
| EventReplay.OrderMattersIffConflict | crates/authn/src/authz_session.rs:136-152 | Reordering and repeating deliveries never changes the replay, if and only if no two different events share a session and sequence number |
| Base32.Base32Encode | crates/authn/src/recovery.rs:36-53 | The 32-bit buffer loop emits exactly the 5-bit groups of the zero-padded bit string, at any length |
| Base32.ShiftIn | crates/authn/src/recovery.rs:42 | Shifting a byte in keeps the pending bits although the shift drops the top of the 32-bit buffer |
| Base32.ShiftOut | crates/authn/src/recovery.rs:44-47 | The five bits written are the oldest pending ones, and the rest stay pending |
| Base32.Flush | crates/authn/src/recovery.rs:49-51 | The last letter holds the remaining bits, filled up with zeros |
| Base32.EncodedLetters | crates/authn/src/recovery.rs:36-53 | The k-th letter is the one, in the alphabet of section 6 of RFC 4648, for bits 5k to 5k+4 of the bytes, highest bit first, zeros after the end |
| Base32.DecodeInvertsEncode | crates/authn/src/recovery.rs:36-53 | Decoding gives the bytes back, for every byte string |
| Base32.EncodedIsInjective | crates/authn/src/recovery.rs:36-53 | Different byte strings have different texts |
| RecoveryCode.ParseIsExact | crates/authn/src/recovery.rs:63-72 | A code parses to (lookup, secret) exactly when it is the text `v1.`, a non-empty dot-free lookup, a dot and a non-empty secret |
| RecoveryCode.FormatThenParse | crates/authn/src/recovery.rs:57-72 | A printed code parses back exactly when the lookup is non-empty and dot-free and the secret is non-empty |
| RecoveryCode.CodesAreDistinct | crates/authn/src/recovery.rs:57-59 | Equal usable codes have equal lookups and equal secret bytes |
| Lockout.EvaluationsAreSpaced | crates/authn/src/recovery.rs:100-113 | From any record and under any clock, from the fifth wrong code on each evaluation waits out a full lock after the one before |
| Lockout.ThroughputIsBounded | crates/authn/src/recovery.rs:100-113 | From a fresh record, even with the clock jumping either way, any T seconds hold at most 5 + T / 900 evaluations of wrong codes |
| Lockout.BoundIsReached | crates/authn/src/recovery.rs:100-113 | For every T some run with a forward clock evaluates exactly that many |
| Framing.BuildSuppressionMessage | scripts/governance_restore_cutover_verify.py:185-190 | The loop over four fields builds the length-prefixed message |
| Framing.FrameIs | crates/authn/src/federation.rs:359-363 | A framed field is its length in eight bytes, the highest first, and the field |
| Framing.BigEndianDigit | crates/authn/src/federation.rs:359-363 | The byte at i of a length counts the multiples of 256 to the power of the bytes after it |
| Framing.FederatedMessageIs | crates/authn/src/federation.rs:357-364 | The message is the ten bytes of its tag, then tenant, issuer and subject, each behind its length |
| Framing.SuppressionMessageIs | scripts/governance_restore_cutover_verify.py:185-190 | The message is its 26-byte tag, then tenant, class, kind and value, each behind its length, then the version in four bytes |
| Framing.TagMessageIs | crates/authn/src/magic_link.rs:45-53 | The link id comes first, then the nonce, then the expiry in decimal, with colons at the two positions between |
| Framing.FrameIsPrefixFree | crates/authn/src/federation.rs:359-364 | A length-prefixed field followed by anything determines the field and what follows |
| Framing.FramedIsInjective | scripts/governance_restore_cutover_verify.py:186-189 | So does any fixed number of fields |
| Framing.FederatedMessageIsInjective | crates/authn/src/federation.rs:357-364 | Equal messages mean equal tenant, issuer and subject |
| Framing.FederatedIdsAreDistinct | crates/authn/src/federation.rs:351-369 | Under a code without collisions, ids are equal exactly when tenant, issuer and subject are |
| Framing.SuppressionMessageIsInjective | scripts/governance_restore_cutover_verify.py:177-190 | Equal suppression messages mean equal fields and equal version |
| Framing.TagMessageIsInjective | crates/authn/src/magic_link.rs:45-53 | Among links whose ids hold no colon, the colon-joined message determines the link |
| Framing.TagMessageIsSharedIffColon | crates/authn/src/magic_link.rs:45-53 | A link shares its message with another one exactly when its id or nonce holds a colon |
| Framing.TwoLinksOneMessage | crates/authn/src/magic_link.rs:45-53 | The link ("a:b", "c") and the link ("a", "b:c") have one message |
| RestoreOwners.OwnerIs | scripts/governance_restore_cutover_verify.py:198-262 | A row is owned by a tenant exactly when all its tenant places are legible and name that configured tenant and no other, at any depth of its encoded JSON |
| RestoreRows.ReadSuppression | scripts/governance_restore_cutover_verify.py:276-340 | A head is filed under epoch 0; an epoch is filed under its own number and the key of its record, its record has exactly the seven fields with the values read, and it names a known tenant and key with, for a tenant, the recomputed digest and an integer version |
| RestoreRows.FiledIsRead | scripts/governance_restore_cutover_verify.py:276-340 | Conversely, every row so filed and trusted is read as such: nothing else is refused |
| RestoreCutover.ParseSuppressions | scripts/governance_restore_cutover_verify.py:265-345 | Accepts exactly rows that are all valid with a head for every record; collects exactly the records, heads and versions, the first version of equal ones |
| RestoreCutover.ParseLifecycles | scripts/governance_restore_cutover_verify.py:348-378 | Accepts exactly valid rows with one lifecycle per tenant, and maps each tenant to its recorded state |
| RestoreCutover.CountRole | scripts/governance_restore_cutover_verify.py:441-456 | One role: refuses exactly a row without one owner or a malformed audit event, and adds every tenant's live rows |
| RestoreCutover.CountLive | scripts/governance_restore_cutover_verify.py:439-456 | All roles: each tenant's total of live rows, where control-only key rows and audit events do not count |
| RestoreCutover.RoleReferences | scripts/governance_restore_cutover_verify.py:458-545 | One role: refuses exactly its malformed rows, and collects exactly the users its rows refer to |
| RestoreCutover.CollectReferences | scripts/governance_restore_cutover_verify.py:458-545 | The union of the references over all roles |
| RestoreCutover.CollectRestoredInventory | scripts/governance_restore_cutover_verify.py:428-547 | Refuses exactly scans with a bad row or a canonical user twice; otherwise aliases, references and live counts are those of the rows |
| RestoreCutover.CollectAliases | scripts/governance_restore_cutover_verify.py:470-501 | Refuses exactly a canonical user that occurs twice, and maps each canonical user to its aliases |
| RestoreCutover.BlockedIffRecorded | scripts/governance_restore_cutover_verify.py:591-603 | Recomputing a tenant's digest under every version in use finds exactly the tenants with a recorded suppression |
| RestoreCutover.BlockedTenants | scripts/governance_restore_cutover_verify.py:591-607 | Fails exactly when a version came first as a float; otherwise the blocked tenants are the suppressed and the offboarding ones |
| RestoreCutover.CountSuppressed | scripts/governance_restore_cutover_verify.py:614-633 | Counts exactly the canonical users one of whose aliases is found suppressed in their tenant |
| RestoreCutover.SearchFindsErased | scripts/governance_restore_cutover_verify.py:614-631 | The users that the search finds are exactly the erased ones |
| RestoreCutover.Verify | scripts/governance_restore_cutover_verify.py:550-633 | Passes if and only if the inputs are well-formed, the versions are integers, no blocked tenant has a live row, every user reference resolves, and no erased user is back |
| RestoreExact.PassesIffSafe | scripts/governance_restore_cutover_verify.py:550-633 | That is so if and only if the candidate is safe to cut over, said of table attributes and decoded values alone |
| RestoreExact.AliasesAre | scripts/governance_restore_cutover_verify.py:482-497 | A canonical row has exactly the aliases its user id, email and two SCIM attributes give it |
| RestoreExact.ReferencesAre | scripts/governance_restore_cutover_verify.py:458-545 | Rows of each role are accepted exactly when formed as demanded, and refer exactly to the users their attributes name |
| RestoreExact.EpochIs | scripts/governance_restore_cutover_verify.py:287-333 | A row is read as a record exactly when its attributes and the members of its JSON say that record |
| RestoreExact.LifecycleIs | scripts/governance_restore_cutover_verify.py:354-378 | A row is read as a lifecycle exactly when its attributes and the members of its JSON say so |
| RestoreExact.GoneIs | scripts/governance_restore_cutover_verify.py:381-400 | A key row is control-only exactly when its JSON says that its tenant is offboarded and nothing of it is live |
| RestoreExact.KeptIs | scripts/governance_restore_cutover_verify.py:403-425 | An audit event is kept exactly when its two names have the right length and characters |
| RestoreReaders.PhysicalIdentityIs | scripts/governance_restore_cutover_verify.py:198-206 | A text is an identity exactly when it is a configured tenant, a separator and a name, and no other tenant could be meant |
| RestoreErasure.CodesAreDistinct | scripts/governance_restore_cutover_verify.py:177-195 | Without collisions, equal codes in one tenant mean equal aliases, whichever keys they were made under |
| RestoreErasure.SearchIsExact | scripts/governance_restore_cutover_verify.py:614-633 | Without collisions, and when each user suppression was written for one alias, the search for an alias finds it exactly when it was suppressed in its tenant |
| RestoreErasure.PassedMeansNobodyIsBack | scripts/governance_restore_cutover_verify.py:614-633 | A run that passes has no users row whose attributes give an alias that was suppressed in its tenant; this needs no freedom from collisions |
| RestoreCutoverOrder.OnlyVersionsSeeOrder | scripts/governance_restore_cutover_verify.py:550-633 | Well-formedness and safety depend only on the multiset of rows of each scan |
| RestoreCutoverOrder.OrderIsIrrelevant | scripts/governance_restore_cutover_verify.py:265-345 | Without float versions, permuting the rows of any scan never changes the verdict |
| RestoreCutoverOrder.OrderMattersIffMixed | scripts/governance_restore_cutover_verify.py:317-339 | Some permutation changes the verdict exactly when all else is in order, a float version occurs, and every key version that occurs with a float also occurs with an integer |
| RestoreCutoverExample.OrderCanMatter | scripts/governance_restore_cutover_verify.py:317-339 | Three rows with concrete JSON texts pass in one order and fail in the other, under any libraries that decode those texts |
| ConformanceInput.ValidateInput | scripts/conformance_gate.py:278-433 | The checks before the decision accept exactly the valid input, said of evidence, policy and arguments |
| ConformanceInput.ValidateClaims | scripts/conformance_gate.py:293-333 | Claims are accepted exactly when they are texts without repetition, include the required ones, are allowed, and none is disclaimed |
| ConformanceInput.ValidateSuites | scripts/conformance_gate.py:335-417 | Suites are accepted exactly when they are those of the policy, each once and valid |
| ConformanceInput.ValidateTests | scripts/conformance_gate.py:376-416 | Tests are accepted exactly when one is required, ids are distinct and not empty, and statuses and flags are known |
| ConformanceInput.ValidateSuiteContract | scripts/conformance_gate.py:85-255 | The loops over a suite accept exactly suites that meet the contract of their policy |
| ConformanceInput.ValidatePreflights | scripts/conformance_gate.py:45-66 | The loop accepts exactly a passed start and end summary for this issuer and version |
| ConformanceGate.RequiredTestsAre | scripts/conformance_gate.py:435-440 | The required tests are exactly the tests marked required of all suites of the evidence |
| ConformanceGate.RequiredTestsAreDistinct | scripts/conformance_gate.py:435-443 | No two required tests share suite and test id |
| ConformanceGate.IssueUrlsAre | scripts/conformance_gate.py:506-520 | An exception's issue address is the policy's repository on GitHub with a positive issue number |
| ConformanceGate.CheckWaivers | scripts/conformance_gate.py:451-526 | Accepts exactly lists of exceptions without a shared target, each for a waivable failed required test, approved and in force |
| ConformanceGate.Decide | scripts/conformance_gate.py:446-545 | When the decision is reached, exceptions and waived tests correspond one to one, and failures are the failed tests without exception |
| ConformanceGate.OnePerWaiver | scripts/conformance_gate.py:527-545 | As many waived tests as exceptions |
| ConformanceGate.DecisionTells | scripts/conformance_gate.py:532-547 | No failures are left exactly when every required test passed or has an exception |
| ConformanceGate.Judge | scripts/conformance_gate.py:278-582 | A pass exactly when the input is valid, exceptions are valid, and every required test of every suite passed or has one; the summary counts passed tests and exceptions, or lists exactly the failures |
| ConformanceGate.PassConserves | scripts/conformance_gate.py:532-564 | On a pass, passed plus waived is required, and there are as many exceptions as failed tests |
| ConformanceGate.PassedAndFailed | scripts/conformance_gate.py:446-450 | Passed and failed tests together are the required tests |
| ConformanceGate.Outputs.RunGate | scripts/conformance_gate.py:271-604 | Whatever files were there before, an approved-claims file exists afterwards exactly when the exit code is 0, exactly when the gate should pass and writing, hashing and moving succeed; it is the right document, and no temporary file is left |
| Promotion.ValidatePromotion | scripts/release_conformance.py:149-274 | An approved document is accepted exactly when it is the very document the gate writes for these files at its approval time, the evidence is not too old, and the files fit the request |
| Promotion.RequireStringArray | scripts/release_conformance.py:115-122 | Accepts exactly lists of non-empty texts without repetition |
| Promotion.GateAndPromotionAgree | scripts/release_conformance.py:149-274 | The document of a passing gate is promoted exactly from its approval to the end of validity, given what promotion asks beyond the gate, and at no other time |
| Promotion.ApprovalBindsTheFiles | scripts/release_conformance.py:188-202 | Under a digest without collisions, one approval is good for one evidence file and one policy file only |
| Watchdog.JudgeLatest | scripts/release_conformance.py:401-435 | Exactly the findings that hold of the latest run and its job, and whether its success still counts |
| Watchdog.JudgeEvidence | scripts/release_conformance.py:437-459 | Refuses exactly malformed or future success times, and reports missing or stale evidence exactly when it is |
| Watchdog.ContinuousGateFindings | scripts/release_conformance.py:369-459 | Fails exactly on the refused inputs, and otherwise lists exactly the findings that hold, each once |
| Watchdog.AlarmPersists | scripts/release_conformance.py:369-459 | With the same runs and jobs, an alarm at one time is an alarm at every later time |
| WatchdogMeaning.ReportsTell | scripts/release_conformance.py:369-459 | A report fails exactly on refused inputs, and each finding is listed exactly when what it says of the given runs and jobs is so |
| WatchdogMeaning.LatestIs | scripts/release_conformance.py:387-395 | The latest run is the scheduled run created last, the first of those created at the same time |
| WatchdogMeaning.SuccessesAre | scripts/release_conformance.py:437-443 | Evidence is exactly the scheduled runs that completed with success and are not the discounted latest one |
| WatchdogMeaning.SilenceMeansHealthy | scripts/release_conformance.py:369-459 | No findings exactly when the version is a full commit, the latest schedule started under 30 hours ago and is well, and some scheduled success that counts is young enough |
| OidfConverter.CleanupIs | scripts/oidf_basic_op_evidence.py:200-275 | Cleanup status and attempts are exactly what the log entries mean, and entries that mean nothing are refused |
| OidfConverter.StatusIs | scripts/oidf_basic_op_evidence.py:393-417 | Passed only with a pass and a cleanup; failed on a finish with a known bad result or a pass without cleanup; an error otherwise |
| OidfConverter.ConvertOne | scripts/oidf_basic_op_evidence.py:376-442 | Refuses exactly an export that does not match its module; each field of the test is what the export says |
| OidfConverter.PassedMeansCleanedUp | scripts/oidf_basic_op_evidence.py:238-275 | Cleanup is "passed" exactly when some cleanup succeeded and no reported one did not |
| OidfConverter.CollectInstances | scripts/oidf_basic_op_evidence.py:308-331 | Accepts exactly plans whose modules all ran under distinct latest instances |
| OidfConverter.IndexExports | scripts/oidf_basic_op_evidence.py:333-369 | Accepts exactly exports of one version and the trusted origin with one export per instance, and indexes them |
| OidfConverter.ConvertTests | scripts/oidf_basic_op_evidence.py:376-442 | Refuses exactly when some export does not match its module, and otherwise makes one test per module in order |
| OidfConverter.Convert | scripts/oidf_basic_op_evidence.py:291-455 | Succeeds exactly on valid plans and exports that name the same instances and match; the suite has the exported version, the plan's result URL, and one test per module, made from its export |
| OidfConverter.PassedTestsArePassed | scripts/oidf_basic_op_evidence.py:396-428 | A test marked passed finished with a pass upstream, and cleaned up with success and nothing but success |
| OidfConverter.TestContract | scripts/conformance_gate.py:139-201 | A converted test meets the gate's test contract exactly when its upstream texts are known and its cleanup did not fail |
| OidfConverter.ConverterAndGateAgree | scripts/conformance_gate.py:85-206 | A converted suite meets the gate's contract exactly when the policy pins the same run, no cleanup failed, the texts are known, and the runner's exit code is fitting |
| OidfConverter.ConvertedSuiteIsValidIff | scripts/conformance_gate.py:361-417 | A converted suite passes the gate's whole validation exactly when it meets the contract, its version is not blank, its source is HTTPS, and no two modules print the same test id |
| PythonText.BlankIffNothingIsLeft | scripts/conformance_gate.py:34-36 | "Blank" is what the non-empty check refuses: stripping leaves nothing |
| PythonText.TrimIsTheMiddle | scripts/conformance_inventory.py:64-81 | Stripping removes white space at both ends, and all of it |
| PythonText.SlashesAreStripped | scripts/conformance_gate.py:422-430 | The slashes at the end of the issuer are removed, and nothing else |
| MarkdownRow.CountBackslashes | scripts/conformance_inventory.py:73-77 | The backward count is odd exactly where a forward escape automaton says "escaped" |
| MarkdownRow.SplitMarkdownRow | scripts/conformance_inventory.py:63-82 | The loop returns the trimmed segments between the separators of the forward automaton |
| MarkdownRow.SegmentsRejoin | scripts/conformance_inventory.py:68-82 | The untrimmed cells, rejoined with pipes, are the body |
| MarkdownRow.SegmentsHoldNoSeparator | scripts/conformance_inventory.py:78-81 | No cell holds a separator |
| MarkdownRow.CellsAreCells | scripts/conformance_inventory.py:63-82 | Every returned cell is trimmed and has all its pipes escaped |
| MarkdownRow.SplitUndoesPrint | scripts/conformance_inventory.py:63-82 | Splitting a printed row gives its cells back, for every non-empty list of trimmed cells with all pipes escaped |
| MarkdownRow.CellsAreExactlyThePrintable | scripts/conformance_inventory.py:63-82 | The non-empty lists the splitter can return are exactly the printable ones |
| MarkdownRow.NoCellsIff | scripts/conformance_inventory.py:64-66 | A line gives no cells exactly when, stripped, it does not start and end with a pipe |
| MarkdownRow.CellsAreBetweenThePipes | scripts/conformance_inventory.py:67-82 | The cells are the trimmed segments of the text between the first and the last pipe |
| Cooldown.RetryIsBounded | crates/authn/src/cooldown.rs:47-54 | The retry time is at least 1 and at most the larger of 1 and the window, for all 64-bit inputs |
| Cooldown.AdviceIsExactIff | crates/authn/src/cooldown.rs:40-60 | Refused at every earlier instant; allowed at the advised one exactly when the window, cut off at the largest time, ends by then; if it is not allowed then, the advice is the whole window |
| Cooldown.AdviceCanBeEarly | crates/authn/src/cooldown.rs:40-60 | With a window of 60, a send at 100 and the clock back at 50, the advice is 60 and retrying at 110 is refused |
| Cooldown.WindowFailsIffSaturated | crates/authn/src/cooldown.rs:44-46 | For all inputs a send inside the window happens exactly at the largest time, when the end of the window lies beyond it |
| Cooldown.SendsAreApart | crates/authn/src/cooldown.rs:40-60 | Over any run of checks, with any clock and window, each send is a window after the one before, or at the largest time because the window ends beyond it |
| Cooldown.SendsAreRare | crates/authn/src/cooldown.rs:40-60 | Any T seconds of any such run hold at most 1 + T / window sends, unless they reach the largest time |
| Cooldown.SendsPileUpAtTheEnd | crates/authn/src/cooldown.rs:44-46 | At the largest time every check sends |
| MinorUnits.ShownAmountIsExact | web/src/paymentAmount.ts:15-23 | The shown number is exactly the amount over 10^exponent, with a canonical whole part and the right number of digits, and the amount can be read back |
| MinorUnits.ShownTextsAreTheDecimals | web/src/paymentAmount.ts:3-23 | The texts that can be shown are exactly the positive decimals without superfluous zeros that have as many digits after the point as the exponent, 0 to 4, and at most 18 significant digits |
| MinorUnits.ShownAmountsDiffer | web/src/paymentAmount.ts:15-23 | For one exponent two amounts never look alike |

## Left out

- Cryptography, the JSON, UTF-8, URL, integer and time-stamp libraries: parameters or decoded inputs.
- Reading and writing files, arguments, zip archives and GitHub calls: the models start at decoded records. Of the files only the approved-claims file and the summary are kept, as fields.
- Texts of messages, summaries and findings: modelled as data, not as prose.
- Errors the scripts do not catch (a field of an unexpected type that raises an attribute error): the records already have the fields the scripts read, with a value for "missing or of another type" where the script tells them apart.
- Text fields of evidence tests that are missing or not strings read as blank; policy durations are whole hours and days; schema versions are integers; deployment values and preflight fields are strings.
- RestoreCutover.Verify: the counts and the input digest in the report of a passing run are not modelled; an error and a failed check are both "does not pass".
- RestoreCutover.RoleReferences: a group member that is neither empty nor a text refuses its row at once; the script fails on it too, at the latest as a reference that does not resolve.
- RestoreCutover.CollectReferences: reads the rows role by role in the order of the role names, where the script goes table by table; an error in any of them fails the run either way.
- EventReplay.ReplayBySequence: a nested ordered map is a map to sorted lists; the order of the outer map's keys is not modelled.
- Lockout.ThroughputIsBounded: needs `now + 900` to fit 64 bits, as the addition in the code does; a reset of the record between attempts is not modelled.
- OidfConverter.ConverterAndGateAgree: signatures and archive reading are not modelled, and `suffix` stands for the printed variant; the origin is assumed to start with `https://`, which the URL check of the converter enforces.
- ConformanceGate.Outputs.RunGate: the files read are those hashed, and removing files and writing the failure summary succeed.
- Promotion.GateAndPromotionAgree: time stamps are integers, so printing and parsing them loses nothing.
- The users of the blanker (which tests are active, how library selectors are spelled): file-system lookups around the alignment proved here.
- `open` and `validate_ttl` of magic links, session tokens, password and assurance checks, federation claim checks: each is one comparison, with nothing to relate across calls.
- Infrastructure, the web application, the preflight and end-to-end scripts: no algorithm of this kind.

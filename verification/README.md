# Nanite: verified models of its hard parts

Nanite is an agent runtime. This project models the parts of it whose correctness cannot be
read off one function body, and proves what they promise for every input, every run or every
reachable state:

- **Protocols.** `SessionStop` and `StopReplies` (stopping a session while turns are being admitted) and
  `Autostart` (launchers racing to start one server) are state machines whose runs are any
  interleaving of any number of participants. `Pagination` and `Cursor` follow signed cursors
  over a table that changes between requests. `AgentImport` and `ImportTrust` are
  about imports that may fail anywhere.
- **Streams.** `UsageAnnotator` over `LineStream` (chunks against lines), `PolicyJson` (a token
  walk against a predicate on JSON trees), `TurnEvents` (a sequence-number automaton).
- **Text, paths, encodings.** `ManagedSection` over `Text`, `SkillTree` over `Paths` and `Utf8`,
  `AgentDir`.
- **Merges and gates.** `Flatten`, `OwnedCopy`, `FlattenHeap`, `Reflex`, `GosecRatchet`.
- `Common`, `Order`, `Sorting` and `Counting` are shared.

Code that updates things in place is modelled by classes and methods with loops, each proved
against a function of the old state; the laws are then proved about that function.

Where the code and its own comments part, the model follows the code:

- `WriteManagedSection` is documented as idempotent. It is exactly when the content holds no end
  marker and at most one newline follows the section (`IdempotentWhen`); otherwise every
  write adds a newline (`WritesGrow`).
- The comments on the repeat-run check of the security gate say that reading the first report only is
  sound. Equality there takes 1, 1.0 and true for equal while a later check does not, and an
  absent key equals null; `AgreementTransfers` gives the exact condition and
  `AgreementIsBlindToKinds` a failing twin of every accepted report.
- `EncodeSkillTree` is documented to give the same bytes for the same files. A nil slice and an
  empty one differ (`NilIsNotEmpty`), and two folders can share one encoding when a path is not
  UTF-8 (`JunkCollides`); `RoundTrip` says exactly when a folder comes back.
- Import resets the trust tier on every write, but after the content is written: when that last
  write fails, synced content stands under the old tier and a created row under the column's
  default (`TrustExactly`, `StaleTrust`).
- The delete route and the session update archive a session without its gate and without the
  cancel call of the stop route, and an update writes back the status it read earlier.
  `SettledExactly`, `DeleteSettlesExactly` and `StopSettlesExactly` say exactly when an ended
  session stays quiet, whoever holds its gate; `RenameUndoesStop` is a rename that turns a stopped session back.
- A missing directory is said to compare by where it would be; a dangling link compares by its
  own name (`LooseLater`, `DanglingLinkSlips`).
- The policy gate is meant to refuse repeated fields. It compares keys as strings, while decoding
  into a struct matches field names without regard to case, so "version" and "Version" both pass
  and the last one wins (`CaseTwinsPass`).

## Model

| member | source | states |
|---|---|---|
| `SessionStop.LockTable.Register` | internal/api/agent_v1_stop.go:77-87 | The registering half of `lockStop`, in place: finds or creates the entry and counts one more reference; the new table is `Enter` of the old one |
| `SessionStop.LockTable.Unregister` | internal/api/agent_v1_stop.go:88-98 | The releasing half: one reference less, and the last one drops the entry for the id |
| `SessionStop.LockTableSound` | internal/api/agent_v1_stop.go:77-98 | In every reachable state, for any number of callers: each entry's count is the number of registered calls and positive, every registered call points at the entry now in the table, at most one call per id is inside, and the table is empty when all have left |
| `SessionStop.NextKeeps` | internal/api/agent_v1_stop.go:27-73 | Every action of every stop call, submission, delete or update keeps the whole invariant (lock table, gates, answers against revivals) |
| `SessionStop.RunKeeps` | internal/api/agent_v1_stop.go:27-122 | So does every finite interleaving |
| `StopReplies.StopMovesRight` | internal/api/agent_v1_stop.go:27-73 | What each move of a stop call does to rows, turns and answers, said of the state before it: a failed gate or store call answers busy or failed and changes nothing, an ended session answers stopped=false and changes nothing, the archive commits the row, the cancel cancels every turn of the session and no other |
| `StopReplies.SecondStopAnswers` | internal/api/agent_v1_stop.go:52-60 | In every reachable state a stop call that finds its session ended under both locks answers stopped=false, turn_canceled=false, with rows and turns as they were |
| `StopReplies.AnswerComesFrom` | internal/api/agent_v1_stop.go:27-73 | Over every action of anyone: busy and failed are given only by a move of the call whose own gate or store call fails, stopped=false only on finding the session ended, with nothing changed, and stopped=true says turn_canceled exactly when the session has a turn then |
| `StopReplies.RepeatedStop` | internal/api/agent_v1_stop.go:21-73 | Over whole runs, whatever everyone else does: a stop call that comes when the session has ended and whose own calls succeed never answers anything but stopped=false, as long as no update turns the session back |
| `StopReplies.WholeSecondStop` | internal/api/agent_v1_stop.go:21-98 | From a quiet reachable state such a call runs to that answer and leaves rows, turns and lock table as they were |
| `SessionStop.StopsAreAfforded` | internal/api/agent_v1_stop.go:37-73 | However many calls race, the answers stopped=true for a session are at most the times an update has turned it back from archived, and one more only while it is archived |
| `SessionStop.StopsAreReached` | internal/api/agent_v1_stop.go:37-73 | For every number of such updates there is a run with one answer more: the bound cannot be lowered |
| `SessionStop.OneStopPerSession` | internal/api/agent_v1_stop.go:37-73 | As long as no update has turned the session back, at most one call answers stopped=true, and the session is archived |
| `SessionStop.StoppedSessionIsQuiet` | internal/api/agent_v1_stop.go:37-73 | In every state of every run, a session some call reported stopped and no update has turned back has every turn canceled and no submission about to create one |
| `SessionStop.SettledExactly` | internal/api/agent_v1_stop.go:37-73 | From any reachable state, whoever holds the gate: every continuation in which nobody asks for the session back leaves its turns canceled, if and only if it is archived, all its turns are canceled, no submission has passed its check and not yet registered, and no update under way holds an older status |
| `SessionStop.StopSettlesExactly` | internal/api/agent_v1_stop.go:57-72 | A stop call that answers stopped=true has settled its session in that sense if and only if the session is still archived then and no update under way holds an older status |
| `SessionStop.AnswerSettlesExactly` | internal/api/agent_v1_stop.go:44-72 | With the conversation gate or without it, the answer stopped=true settles a session if and only if it is still archived, no submission has passed its check and not yet registered, and no update under way holds an older status |
| `SessionStop.DeleteSettlesExactly` | internal/api/sessions.go:200-211 | The delete route, which neither takes the gate nor cancels, settles a session if and only if at that moment every turn of it is canceled, no submission has passed its check and not yet registered, and no update under way holds an older status |
| `SessionStop.UpdateSettlesExactly` | internal/api/sessions.go:133-188 | The same for an update that writes "archived" |
| `SessionStop.RenameUndoesStop` | internal/api/sessions.go:133-188 | An update that names no status, read before a stop and written after it, turns the stopped session back: a reachable state |
| `SessionStop.SomeoneCanMove` | internal/api/agent_v1_stop.go:27-98 | No deadlock between table locks and conversation gates: while a call is unfinished, some call can move |
| `SessionStop.DeletedSessionKeepsItsTurn` | internal/api/sessions.go:200-211 | A reachable state for it: free gate, archived by delete, one turn uncanceled |
| `SessionStop.UngatedStopMissesATurn` | internal/api/agent_v1_stop.go:37-73 | Without the conversation gate the same promise fails: a reachable state shows it |
| `Cursor.CursorRoundTrip` | internal/api/agent_v1_pages.go:23-58 | An issued token decodes to its cursor if and only if the scope is the same, both key fields are set and the token is at most 2048 long |
| `Cursor.AcceptedIsSigned` | internal/api/agent_v1_pages.go:29-58 | Any accepted token has two pieces, carries the MAC of its own body, and belongs to the query |
| `Pagination.ListPageSound` | internal/api/agent_v1_pages.go:88-99 | One page by lookahead: newest first, after the cursor, at most the limit, every row left out below the next cursor, which exists exactly when a row was left out, and then the page is full |
| `Pagination.HistoryIsListReversed` | internal/api/agent_v1_pages.go:127-138 | A history page, reversed with the lookahead dropped from the front, is the list page backwards with the same next cursor |
| `Pagination.SessionList` | cmd/nanite/agent_session_cmd.go:40-71 | The cursor-following loop collects what following the server's tokens gives, and stops at an error or an empty token |
| `Pagination.WalkFrom` | internal/api/agent_v1_pages.go:70-99 | From any cursor, for any page sizes and any table at each request: strictly descending rows, all of them served, and complete for rows present throughout |
| `Pagination.WalkCompletes` | internal/api/agent_v1_pages.go:70-99 | With valid limits and keys that fit in tokens, a walk with more requests than there are keys in all the tables together ends with its last page, whatever is inserted and removed |
| `Pagination.SessionListComplete` | cmd/nanite/agent_session_cmd.go:40-71 | A finished walk returns sessions strictly from newer to older, each visible with that id and time in some request, and every session visible throughout, whatever else is inserted, archived or removed between requests |
| `Pagination.ReadBackIsWalkReversed` | internal/api/agent_v1_pages.go:105-138 | Reading history back page by page is the newest-first walk over the same requests, reversed |
| `Pagination.HistoryComplete` | internal/api/agent_v1_pages.go:105-138 | A finished read-back returns messages strictly from older to newer, each a message of that session with that id and time in some request, and every message of the session present throughout |
| `Autostart.NextKeepsLock` | cmd/nanite/serve_autostart.go:73-92 | Every step keeps the launchers between acquire and release equal to the lock's owners, of which there is at most one |
| `Autostart.HoldsNeverOverlap` | cmd/nanite/serve_autostart.go:48-100 | In every state of every run at most one launcher holds the lock |
| `Autostart.NextKeepsAccount` | cmd/nanite/serve_autostart.go:48-100 | No step of a launcher or of the server lowers failed polls plus losses plus false negatives plus cover, less spawns |
| `Autostart.SpawnsBounded` | cmd/nanite/serve_autostart.go:48-100 | Between any two moments of a run, spawns exceed failed polls, losses and false negatives in between by at most one, and by none when the first moment is covered |
| `Autostart.OneServer` | cmd/nanite/serve_autostart.go:48-100 | Without such events any number of launchers spawn one server, and none while one is up and nobody was about to spawn |
| `Autostart.BoundIsReached` | cmd/nanite/serve_autostart.go:48-100 | For all counts of the three events there is a run that spends them all: the bound cannot be lowered |
| `Autostart.SuccessSawHealth` | cmd/nanite/serve_autostart.go:48-100 | A launcher that returns no error saw a healthy server during its call, unless it has a target elsewhere and no flag |
| `Autostart.HealthyStep` | cmd/nanite/serve_autostart.go:48-100 | With the server up, a launcher before its first check, its second check or in either poll is one step from success, without a spawn |
| `Autostart.HealthySucceeds` | cmd/nanite/serve_autostart.go:48-100 | From every such state, waiting for the lock included, its own moves alone bring it to return without an error and without a further spawn |
| `Autostart.CanSucceedExactly` | cmd/nanite/serve_autostart.go:48-100 | With the server up, some run without a further spawn brings a launcher to return without an error if and only if it has not failed and is not about to spawn |
| `Autostart.OptedOutExactly` | cmd/nanite/serve_autostart.go:48-61 | All the outcomes of a launcher with the flag or a target elsewhere: no error when the server answers or the target is elsewhere without the flag, an error when the flag is given and the check does not say yes, and nothing else |
| `Autostart.RemoteNeverFails` | cmd/nanite/serve_autostart.go:48-61 | With a target elsewhere and no flag a launcher that lives never returns an error |
| `Autostart.OptedOutStaysOut` | cmd/nanite/serve_autostart.go:53-61 | A launcher told not to start a server, or with a target elsewhere, never takes the lock and never spawns |
| `ManagedSection.MarkdownFile.WriteManagedSection` | internal/agent/managed_section.go:30-81 | The write as it assembles the file: the whole new text said of the old one, a block on lines of its own at the end or in place of the section, what stood behind it on the next line; a failed read or write changes nothing |
| `ManagedSection.MarkdownFile.RemoveManagedSection` | internal/agent/managed_section.go:131-187 | The removal: what is written is the text before the section less trailing newlines and the text behind it less leading ones, a blank line between them if both are there, or nothing if that is all white space; without a whole section, a file, a read or a write nothing changes |
| `ManagedSection.SameSection` | internal/agent/managed_section.go:43-63 | Write and read search for the end marker from different offsets and always find the same section |
| `ManagedSection.LocateExactly` | internal/agent/managed_section.go:43-63 | The section found is the first start marker and the first end marker from it on; missing and lone start markers likewise |
| `ManagedSection.ReadExactly` | internal/agent/managed_section.go:86-118 | Reading any text gives what stands between the two markers, less notices and outer white space, and nothing without a whole section |
| `ManagedSection.LocateBlock` | internal/agent/managed_section.go:43-63 | Behind text without a start marker, a written block is found where it was put, whatever its content and whatever follows |
| `ManagedSection.ReadAfterWrite` | internal/agent/managed_section.go:86-118 | Reading after writing, for every content and every file without a lone start marker: the content up to an end marker in it, less notices, trimmed |
| `ManagedSection.IdempotentWhen` | internal/agent/managed_section.go:43-81 | Writing twice is writing once if and only if the content has no end marker, the file has no lone start marker and at most one newline follows its section |
| `ManagedSection.WritesGrow` | internal/agent/managed_section.go:43-81 | k writes keep the text before the section byte for byte and put k newlines before the text that followed, less one newline, unless nothing followed |
| `ManagedSection.OrphanRewrite` | internal/agent/managed_section.go:47-63 | With a lone start marker a second write never reproduces the first |
| `ManagedSection.RemoveLeaves` | internal/agent/managed_section.go:141-177 | The same of removal as a function of the text, in terms of the two parts around the section alone |
| `ManagedSection.RemoveAfterWrites` | internal/agent/managed_section.go:141-185 | Removing after any number of writes leaves what removing from the original file leaves |
| `ManagedSection.RemoveUndoesWrites` | internal/agent/managed_section.go:141-185 | On a file without a section, removing after any number of writes leaves the original with one newline at its end in place of those it had, or nothing if it was all white space |
| `LineStream.CutAnywhere` | internal/api/agent_v1_usage_annotate.go:37-56 | Lines and rest of a text cut in two are those of the whole, the first part's rest being carried over |
| `UsageAnnotator.Annotator.Write` | internal/api/agent_v1_usage_annotate.go:37-56 | One call: memory, buffer, count and output are those of the complete lines of buffer and chunk; when the underlying write fails these lines are gone |
| `UsageAnnotator.WriteAll` | internal/api/agent_v1_usage_annotate.go:37-56 | However the bytes are cut into calls, the output is the annotation of the complete lines in order, the buffer the unfinished tail, and the model state that of one pass |
| `UsageAnnotator.OnlyUsageChanges` | internal/api/agent_v1_usage_annotate.go:66-127 | A changed line was a data frame of run.finish or usage, and only its usage object changed, in which every entry but the four annotations is kept and these have the stated values |
| `UsageAnnotator.AnnotatesExactly` | internal/api/agent_v1_usage_annotate.go:66-127 | Every line that frames a run.finish event, or a usage event with a usage object, is replaced by that event with its usage annotated (context reading or sum, model, window, source, all else as it was) unless it cannot be marshalled; every other line passes unchanged |
| `UsageAnnotator.RemembersExactly` | internal/api/agent_v1_usage_annotate.go:66-115 | The remembered model becomes the one a framed run.start event names and changes by nothing else; the context is read once for each framed run.finish event |
| `UsageAnnotator.OnlyStartSetsModel` | internal/api/agent_v1_usage_annotate.go:66-90 | Only a run.start event changes the remembered model, to the one it names, and its line passes unchanged |
| `UsageAnnotator.SumUsage` | internal/api/agent_v1_usage_annotate.go:129-140 | The loop gives the 64-bit wrapping sum of the five counted entries, entries that are no integers counting nothing |
| `UsageAnnotator.NewlinesPreserved` | internal/api/agent_v1_usage_annotate.go:37-127 | As long as no marshalled event holds a raw newline, the output has as many newlines as the input |
| `PolicyJson.CheckObject` | internal/agentpolicy/policy.go:196-239 | The token loop with its map of seen keys is the recursive check, and leaves the decoder where that does |
| `PolicyJson.CheckValue` | internal/agentpolicy/policy.go:196-239 | On the lexemes of any value followed by anything (numbers the decoder cannot convert are no lexemes), the check succeeds exactly when the value has no null, no repeated key and nothing deeper than 64, and then has consumed exactly that value |
| `PolicyJson.CheckSound` | internal/agentpolicy/policy.go:196-239 | On any input, malformed included, whatever the check consumed was the lexemes of a value |
| `PolicyJson.CheckDocument` | internal/agentpolicy/policy.go:170-177 | The gate in front of decoding computes `Accepts`: one checked value and then the end |
| `PolicyJson.AcceptsExactly` | internal/agentpolicy/policy.go:170-177 | The gate lets an input through if and only if it is one JSON value, with numbers the decoder can convert, that has no null, no key repeated as a string and nothing deeper than 64 |
| `PolicyJson.CaseTwinsPass` | internal/agentpolicy/policy.go:170-187 | Two keys that are different strings are let through, those that differ in case only included |
| `GosecRatchet.CheckoutIrrelevant` | scripts/quality-ratchet.py:386-393 | The path of a finding under internal/ does not depend on where the tree was checked out, nor on which way its slashes lean |
| `GosecRatchet.PathExactly` | scripts/quality-ratchet.py:386-393 | The path of a finding, said of the path in the report: slashes one way, from the last internal directory on, else less a leading ./ |
| `GosecRatchet.NoiseExactly` | scripts/quality-ratchet.py:386-403 | An exception excuses exactly the findings at its path, of its rule, whose code holds its symbol |
| `GosecRatchet.TallyIssues` | scripts/quality-ratchet.py:845-869 | The issue loop: match counts, overlaps, ignored and per-rule counters are the counts over all issues, and it gives up exactly on a malformed one |
| `GosecRatchet.Gate` | scripts/quality-ratchet.py:817-893 | The checks after agreement refuse a report exactly when it lacks the evidence: errors key there and null or without a non-empty entry, at least 75 of each 100 committed files and lines measured as integers against positive figures of a named source, and a list of well-formed issues; else they decide as `Decide` does |
| `GosecRatchet.UsableExactly` | scripts/quality-ratchet.py:473-590 | The error and coverage checks let a report through if and only if it holds that evidence |
| `GosecRatchet.GosecCommand` | scripts/quality-ratchet.py:798-893 | Refused if and only if the reports are not of one scan (version, coverage, errors, multiset of issues) or the first lacks that evidence; otherwise exit 0 is exactly one-to-one pairing and every rule within budget, and the second report gets the same result if and only if it has the kinds the checks ask for |
| `GosecRatchet.RulesCompare` | scripts/quality-ratchet.py:164-186 | No unbaselined name and no increase is: every rule's count is at most its baseline, absent ones counting zero |
| `GosecRatchet.AgreementIsMultiset` | scripts/quality-ratchet.py:592-621 | If the serializer keeps the issues of the two reports apart, equal sorted serializations are equal multisets of issues, and back |
| `GosecRatchet.AgreementExactly` | scripts/quality-ratchet.py:592-721 | Under the same condition the agreement check passes exactly two reports with equal version, coverage and errors and the same multiset of issues |
| `GosecRatchet.AgreementTransfers` | scripts/quality-ratchet.py:645-721 | Of two agreeing reports, if one gets a result code the other gets the same one if and only if it has the errors key and integer coverage figures |
| `GosecRatchet.AgreementIsBlindToKinds` | scripts/quality-ratchet.py:592-621 | Every usable report has a twin that agrees with it and is refused |
| `GosecRatchet.PassMeans` | scripts/quality-ratchet.py:839-893 | A usable report passes if and only if exceptions and excused findings pair off one to one and every rule is within its baseline plus its exceptions |
| `GosecRatchet.NoiseBalances` | scripts/quality-ratchet.py:839-893 | For each rule, findings are the actionable ones plus one for each exception |
| `GosecRatchet.PassConserves` | scripts/quality-ratchet.py:839-893 | In a passing report ignored findings are as many as exceptions, and with the actionable ones they are all findings |
| `AgentImport.ImportedIsExternal` | internal/agent/source_class.go:61-74 | What import writes classifies as external: never editable, may be copied |
| `AgentImport.ClassifyExactly` | internal/agent/source_class.go:61-74 | Which sources are internal, plugin and managed; every other is external |
| `AgentImport.SlugPieces` | internal/agent/slug.go:20-32 | A slug is valid if and only if it is non-empty segments of lower-case letters and digits joined by hyphens |
| `AgentImport.Importer.WriteDefinition` | internal/agentimport/import.go:335-443 | Lookup, create, refusal or sync with its preserved fields, as the store calls run, is `Write` of the old rows, errors included |
| `AgentImport.Importer.AfterWriting` | internal/agentimport/import.go:447-464 | Tier first, then children, each able to fail |
| `AgentImport.Importer.Import` | internal/agentimport/import.go:270-330 | The call is `Process` of the definitions up to the first failure, with its outcomes, its problem and a legal sequence of pipeline states |
| `AgentImport.WriteKeeps` | internal/agentimport/import.go:372-442 | One write, whatever fails in it: rows of other owners unchanged, owned rows keep identity and configuration, only the slug's row differs, and it is untrusted unless the tier write failed |
| `AgentImport.WriteDelivers` | internal/agentimport/import.go:345-442 | A write reported as created or synced leaves the definition's content, provenance and origin in the slug's row, untrusted, and says created exactly when no row held the slug |
| `AgentImport.CreatedRow` | internal/agentimport/import.go:345-384 | The whole row a reported creation leaves, identity, kind, version and tier included |
| `AgentImport.AnswersExactly` | internal/agentimport/import.go:361-464 | What one write answers, from what fails in it and who holds the slug: each error exactly when its call is reached and fails, a failed seed included, a skip exactly on another owner's row, and created or synced exactly when the write, the tier and the children all succeed |
| `AgentImport.RefusedExactly` | internal/agentimport/import.go:372-399 | A slug is skipped if and only if a row of another owner holds it |
| `ImportTrust.TrustExactly` | internal/agentimport/import.go:372-457 | A written row is left other than untrusted if and only if lookup and write succeed and the tier write fails, on a slug nobody held with a free identity or on an owned row that was not untrusted |
| `AgentImport.ProcessKeeps` | internal/agentimport/import.go:312-330 | A whole call: the same, every changed row named by an outcome or by the failure, one outcome for each present definition on success and fewer on failure |
| `AgentImport.RunKeeps` | internal/agentimport/import.go:270-443 | Any sequence of calls keeps ids and slugs unique and the boundary between first and last state |
| `AgentImport.OthersUntouched` | internal/agentimport/import.go:372-393 | Over any sequence of calls a managed, internal or plugin row is exactly as it was |
| `ImportTrust.StaleTrust` | internal/agentimport/import.go:447-457 | Exactly then the row has the new content under the tier it had, or under the default of a new row |
| `Reflex.ParseRules` | internal/agentpolicy/reflex.go:57-73 | The rule loop accepts exactly one to 128 checked rules with ids and names that are not blank and no id twice |
| `Reflex.Evaluate` | internal/agentpolicy/reflex.go:233-260 | Fails exactly on a broken trigger or a cancelled context; else the answer is the override of the sorted fired rules |
| `Reflex.OrderIrrelevant` | internal/agentpolicy/reflex.go:233-260 | For distinct ids, listing the rules in another order changes neither the answer nor whether there is one |
| `Reflex.AnswerIsMeant` | internal/agentpolicy/reflex.go:233-260 | The answer, said of the listed rules: the fired halt with the highest priority and then the smallest id, alone, or all fired rules by falling priority and then rising id when none is a halt |
| `Reflex.MeantIsUnique` | internal/agentpolicy/reflex.go:246-260 | That description fixes the answer of a parsed bundle |
| `SkillTree.CheckSkillPathExactly` | internal/agentpolicy/skilltree.go:86-91 | The path check accepts exactly "." and backslash-free paths of non-empty segments none of which is "." or ".." |
| `SkillTree.EncodeSkillTree` | internal/agentpolicy/skilltree.go:36-58 | Walking the map in any order and sorting gives a record that encodes the folder; refused exactly for a bad path, no SKILL.md or too many bytes |
| `SkillTree.DecodeSkillTree` | internal/agentpolicy/skilltree.go:62-84 | The loop accepts exactly records of the format with checked, distinct paths and a SKILL.md, and gives the files they list |
| `SkillTree.EncodingIsCanonical` | internal/agentpolicy/skilltree.go:36-58 | One folder has one encoding |
| `SkillTree.EncodesExactly` | internal/agentpolicy/skilltree.go:36-58 | An encoding holds the folder's files, each once, by rising path byte by byte, each path as JSON leaves it and each content as it is |
| `Utf8.WidthExactly` | internal/agentpolicy/skilltree.go:50-53 | What JSON takes for a UTF-8 sequence at the front of a path is the encoding of a Unicode scalar value, and every such encoding is taken |
| `SkillTree.RoundTrip` | internal/agentpolicy/skilltree.go:36-84 | Decoding an encoding gives the folder back if and only if all its paths are UTF-8 |
| `SkillTree.EncodingIsInjective` | internal/agentpolicy/skilltree.go:36-58 | An encoding fixes the folder among all folders of UTF-8 paths, and among all folders whatever if the paths of one of them are UTF-8 and hold no U+FFFD |
| `SkillTree.ReencodingSorts` | internal/agentpolicy/skilltree.go:36-84 | Re-encoding what was decoded sorts the record and changes nothing else |
| `SkillTree.JunkCollides` | internal/agentpolicy/skilltree.go:50-53 | Outside UTF-8 two different folders share one encoding |
| `SkillTree.SamePathsInjective` | internal/agentpolicy/skilltree.go:36-58 | Among folders with the same paths, UTF-8 or not, an encoding fixes the folder |
| `SkillTree.NilIsNotEmpty` | internal/agentpolicy/skilltree.go:36-58 | Two folders that hold the same bytes have one encoding if and only if the same files are nil slices in both |
| `AgentDir.RelTest` | internal/agentdir/agentdir.go:189-195 | The test on the relative path string is true exactly when one list of names begins with the other |
| `AgentDir.CleanAbsExactly` | internal/agentdir/agentdir.go:329-331 | Clean absolute paths are exactly the lists of names, the form the other results are about |
| `AgentDir.ResolveLoose` | internal/agentdir/agentdir.go:329-342 | The loop ends and gives the deepest ancestor that exists, resolved, with the rest put back, or the path itself when nothing of it exists |
| `AgentDir.LooseLater` | internal/agentdir/agentdir.go:327-342 | A directory that does not exist yet compares by where it would be: once it exists it is found there if and only if no dangling link stood, at the call, where its first missing name goes |
| `AgentDir.StaysApart` | internal/agentdir/agentdir.go:315-342 | Where no such link stands, directories found apart are apart once they exist, and back |
| `AgentDir.DanglingLinkSlips` | internal/agentdir/agentdir.go:327-342 | A link to the agent's directory that stands there but dangles is accepted, and overlaps that directory once it is made |
| `AgentDir.LooseFixed` | internal/agentdir/agentdir.go:329-342 | A loosely resolved path leads to itself or nowhere, so evaluating it again changes nothing |
| `AgentDir.Within` | internal/agentdir/agentdir.go:189-195 | Containment of a path in the evaluated root |
| `AgentDir.CheckOwnDirectories` | internal/agentdir/agentdir.go:315-325 | Accepted if and only if no path at all lies under both the agent's directory and a granted one |
| `TurnEvents.StreamEvents` | cmd/nanite/agent_client.go:313-410 | The frame loop puts on the channel what the automaton gives |
| `TurnEvents.ChannelClosesOnce` | cmd/nanite/agent_client.go:313-410 | For every frame sequence exactly one closing event, and it is last |
| `TurnEvents.AcceptedAreNumbered` | cmd/nanite/agent_client.go:324-345 | Accepted frames carry the next numbers of the run one by one, none past the largest 64-bit number, and only the last can end the turn |
| `TurnEvents.AcceptedExactly` | cmd/nanite/agent_client.go:316-345 | The accepted frames are the longest beginning in which each is the next event of the run and reduces, cut behind the first event that ends the turn |
| `TurnEvents.RefusedFor` | cmd/nanite/agent_client.go:320-344 | Which check a refused frame failed, and that it passed those before it |
| `TurnEvents.ChannelShows` | cmd/nanite/agent_client.go:346-406 | Before its closing event the channel carries the notes on the accepted events, each in its place, and nothing else |
| `TurnEvents.ClosingTells` | cmd/nanite/agent_client.go:343-410 | Which closing event it is says why the stream stopped: finish, abort, the run's own error with its text, or an end without a terminal event |
| `TurnEvents.StreamIsARun` | cmd/nanite/agent_client.go:313-410 | The whole call: events 1..k of the requested run beginning with run.start, then one closing event |
| `Flatten.FlattenExtensions` | internal/agentauthor/author.go:73-143 | The loop over the role's namespaces, in any order, gives the merged extensions or the refusal |
| `Flatten.CheckPins` | internal/agentauthor/author.go:213-260 | The walk through structs, slices and pointers with its map of digests accepts exactly when each URI is pinned to one digest and a reflex policy decodes |
| `Flatten.PinsExactly` | internal/agentauthor/author.go:213-260 | The references checked are the instructions, the procedures, every one anywhere in the other fields, and the decoded reflex bundle |
| `Flatten.FlattenDefinition` | internal/agentauthor/author.go:23-71 | The steps in order: without a role the definition as it was; with one, a result if and only if the role is valid, the definition meets what it asks and the result is valid with one digest per URI, and then the one definition that extends it from the role |
| `Flatten.FlattenExtends` | internal/agentauthor/author.go:42-143 | Nothing set in the concrete definition is overridden and nothing but five fields and the native class is inherited; the class is the one the decoder finds in the role's negotiated native policy, exactly when that has one and the concrete definition has none |
| `Flatten.FlattenExactly` | internal/agentauthor/author.go:23-143 | A definition is the result of flattening if and only if the role is valid, the concrete definition meets its mandatory parts, hooks and native policy, the definition extends the concrete one from the role, and it is valid with one digest per URI |
| `Flatten.FlattenIdempotent` | internal/agentauthor/author.go:23-71 | Flattening the result again with the same role changes nothing |
| `Flatten.MandatoryRepresented` | internal/agentauthor/author.go:90-141 | Every mandatory role extension is in the result, a native policy with every setting the role makes |
| `OwnedCopy.Copy` | internal/agentauthor/author.go:264-331 | The copy stands for the same value, is made of new cells only, leaves the input alone, and is refused exactly when something in it is unexported or a map with other keys than strings holds anything |
| `OwnedCopy.CopyableExactly` | internal/agentauthor/author.go:264-331 | A value is refused if and only if an unexported field or a non-empty map with other keys than strings stands somewhere in it |
| `FlattenHeap.ClassInPlace` | internal/agentauthor/author.go:118-125 | Writing the class into the data map in place changes the native extension and no other |
| `FlattenHeap.FlattenObjects` | internal/agentauthor/author.go:23-71 | On objects that may share anything, flattening changes nothing that was there, builds its result and all its cells anew, and the result stands for the flattened value, valid with one digest per URI, which extends the concrete definition from the role with the class the decoder finds there |

## Left out

- HMAC, SHA-256, base64 and JSON text: parameters with the few laws used (`Cursor.Sound`, `GosecRatchet.Faithful`); a skill-tree record is its contents, with what JSON does to paths.
- The services behind the stop route (archive, cancel, turn admission) are single atomic actions with the contracts the handler relies on, without the hook by which archiving closes a live runtime; store, workflow engine and scheduler are not modelled.
- Which status code a failed store call of the stop route maps to: every such answer is `Failed`, a second look that finds no row included.
- Wall-clock time, contexts and process death are steps that may happen at any moment; polling intervals and back-off delays are not modelled.
- Page queries are modelled as the next rows in key order; the re-read of each session behind the list is not.
- `SessionList`: a walk is followed for a given number of requests, because the server could hand out cursors for ever.
- The relational children seeded after an import, beyond their success or failure; two list entries that are the same definition object.
- Concurrent writers between the lookup and the write of an import.
- The repository's own profile store, which at this revision refuses every profile and tier write: the import results are about any store that keeps the interface's promises.
- Launchers for different ports, which share the lock file but want different servers: `Autostart` has one server.
- Validation of reflex triggers, predicates and actions, and native-policy defaults: they enter as tests on a rule or an extension.
- Non-finite numbers in reports, and the platform, package-list and lint commands of the quality script.
- Loading of the noise list: the gate's results hold for every list of exceptions, validated or not.
- Relative paths in the containment check; a path is a clean absolute one.
- Reduction of events and the rendering of events that do not close the stream; cancellation of the reading call.
- Rendering of definitions to files; the remaining fields of a definition are one identity.
- Cycles in authored data, which marshalling refuses before the copy.
- Numbers outside the range of float64 in policy documents: the decoder refuses them, and they are not lexemes here.
- HTTP handlers that only translate, command-line parsing, plugins, catalogs and UI.

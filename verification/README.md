# Verification of the job-application executor

This project models eight cores of the application executor in Dafny and proves what each of them is for. The model
follows the code: same branches, same order of checks, same constants. Code that updates state in place is a class or a
method with loops, proved against a specification function; the theorems are lemmas about those functions and
invariants of those methods.

| core | files | what is proved |
|---|---|---|
| Mach-O signing delta | `MachoBytes`, `Ranges`, `SignatureFrame`, `MachoLayout`, `MachoWalk`, `MachoLockstep`, `MachoDelta`, `MachoRebuild`, `MachoTheorems`, `MachoRewalk`, `MachoAvailable`, `MachoProtected`, `MachoFat`, `MachoFatAvailable` | an accepted output is the one image that original and signature force; exactly which signatures have an accepted output; accepted outputs form an equivalence class; mutable fields never meet protected bytes |
| app install and rollback | `AppSlots`, `Installer`, `Rollback`, `Transactions` | what every result means while another actor may change any slot; without one, conservation of bundles over any sequence of installs and rollbacks, and the round trip |
| SMS attempt journal | `AuthJournal`, `AuthAttempts`, `AuthRuns`, `OtpChallenge`, `OtpSession` | the bound on sends and on page clicks over whole runs, currency, cooldown, replay; exactly when a begin breaks the bound or the cooldown |
| READY boundary | `ReviewCertificate`, `RowContract`, `FillIdentity`, `ReadyRun`, `ReadyTheorems`, `ReadyMirror`, `ReadyRevisions`, `ReadyUploads`, `ReadyChildren`, `Executor` | READY names one draft and one set of values on every page, revealed fields included; which states can become READY; when the revision and the revealed fields are covered |
| field batch writer | `FieldOrder`, `FieldBatch` | parent-first order, exact cycle report, simultaneous readback on a reactive page |
| owned-process cleanup | `ProcessTable`, `OwnerLifecycle` | no descendant left, no foreign process signalled, for every interleaving |
| evidence ranking | `Evidence` | incremental merging against all facts ever offered; exactly when the highest single offer stays stored |
| receipt accounting | `CollectionInventory`, `SuiteReports`, `Receipts`, `Soak` | disjoint complete totals, one outcome per test, honest receipts are accepted exactly when nothing failed, the self-counting fixed point |

`dafny verify dfyconfig.toml` checks the whole project.

## How the outside is modelled

- Bytes are integers below 256 with explicit little- and big-endian readers; all other integers are unbounded, in Python
  as here.
- SHA-256 is treated as injective: a digest is represented by what it digests, or by a free constructor.
- Health checks, compatibility checks, browser pages, other processes, the file system and the clock answer anything. A
  method chooses such answers arbitrarily, or takes them as a parameter (`ReadyRun.Page`, `OtpChallenge.OtpAnswers`).
- In the installer other actors change the slots during renames, health and compatibility runs; in the field writer the
  page changes at every write, click, render wait, guard and journal callback; in the cleanup other processes move
  between any two system calls of the owner.
- Strings are compared by character codes; blank means only spaces, tabs and line ends.

## What the proofs show about the code

- The delta check is not reflexive: `MachoTheorems.ReflexiveIff` gives the exact condition. The check of the linkedit
  resize follows from the other checks (`MachoRebuild.ResizeFollows`).
- Not every framed signature has an accepted output. `MachoAvailable.AvailableIff` gives the exact condition on the
  original and the signature's size: the image limit, for an appended command the header's two limits and its place in
  the text segment before every section, an address space for the grown linkedit segment, and no other segment, empty ones
  included, beyond the new end of the file. `MachoFatAvailable.FatAvailableIff` is the same for two slices.
- The bound on SMS sends and the 60 seconds between them hold for every task whose attempts have distinct `created`
  values (`AuthRuns.RunCalls`). With equal values the query for the newest attempt has no fixed answer. The guard over
  the rows is `AuthJournal.StaleChoice`: some newest row permits a send although the last attempt forbids one. Without
  it no begin opens an attempt over an open send (`AuthAttempts.AuthAttemptStore.Begin`). With it, the begin and the
  send that follow break the bound exactly if no permission was spent unsent, and the spacing exactly if the last
  cooldown is not over (`AuthRuns.BeginThenSend`); each such begin adds at most one send. A stopped clock reaches such
  rows (`AuthRuns.TiedRun`).
- The only guard on the certified revision is the floor that certify_review is given, the highest of the last re-reads.
  READY covers every attachment revision that the run ever bound if and only if that floor does
  (`ReadyRevisions.CoveredIff`); it does when no binding falls (`ReadyRevisions.RisingIsCovered`). It can fail for an
  upload that is read again at a lower revision, recovered or made in the run (`ReadyUploads.LowerReReadIsReady`), and
  for a second upload at a lower revision (`ReadyUploads.LowerUploadIsReady`).
- The rounds over revealed fields resolve every field of every re-observation that they bind
  (`ReadyChildren.ConsumedIsCovered`). They end without an error at an unsupported re-observation and after four rounds;
  then everything shown next is resolved exactly if that re-observation adds nothing
  (`ReadyChildren.RevealedIsResolvedIff`), and either end can miss a field on the way to READY
  (`ReadyChildren.UnsupportedMayBeReady`, `ReadyChildren.RoundsUsedMayBeReady`). The server inventory must still equal
  the plan, so the missed field is then one that the server does not show.
- An exception while the form bounds are read leaves the unknown-outcome flag unset (`FieldBatch.GenericAdapter.Apply`);
  every write before it was confirmed. A failed first contract check with nothing kept leaves it unset too.
- A combobox without an exact choice may have been opened before it is declined; without a journal the flag stays unset.
- The stored value of a profile key can depend on the order of the offers (`Evidence.JoinedRankShadows`), because repeated
  offers of one value add up: a stored field then keeps out an offer that is higher than each of its own. One offer
  leaves a highest single offer stored exactly if it is not kept out in this way (`Evidence.HighestStaysIff`); without
  repeated values the first highest offer is stored (`Evidence.FirstHighestIsStored`). Whether the key is unresolved
  never depends on the order.
- Early discards of an unsigned candidate remove whatever staging holds; only the handler of an activation failure
  checks the identity first. Both are modelled as they are.
- The reap loop of the cleanup is bounded by the number of processes that still fork and exit, not by the five seconds.

## Model

| member | source | states |
|---|---|---|
| Ranges.SortedDisjoint | scripts/macos_signing_delta.py:70-74 | Sorting a list of ranges neither creates nor hides an overlap: the sorted list is disjoint exactly when the given one is. |
| Ranges.CheckDisjoint | scripts/macos_signing_delta.py:70-74 | The single pass over the sorted ranges accepts exactly the lists of non-empty, non-negative, pairwise disjoint ranges. |
| SignatureFrame.CheckGaps | scripts/macos_signing_delta.py:122-126 | The gap scan succeeds exactly when every byte between the ascending spans and up to the declared length is zero. |
| SignatureFrame.CheckSignatureFrame | scripts/macos_signing_delta.py:85-129 | The frame check accepts exactly the well-framed SuperBlobs: sizes, index, components, one code directory, disjointness and zero gaps. |
| SignatureFrame.FrameIsTiled | scripts/macos_signing_delta.py:94-127 | In an accepted SuperBlob each byte below the declared length is header or index, or in exactly one component, or zero. |
| SignatureFrame.ComponentsApart | scripts/macos_signing_delta.py:98-110 | Two components of an accepted SuperBlob share no byte and none reaches into the header and index. |
| SignatureFrame.OneCodeDirectory | scripts/macos_signing_delta.py:99-109 | An accepted SuperBlob has exactly one code directory slot, with the code directory magic and at least 44 bytes. |
| MachoLayout.ParseSections | scripts/macos_signing_delta.py:187-220 | The section loop computes the specification's section fold, refusing where it refuses. |
| MachoLayout.ParseCommand | scripts/macos_signing_delta.py:165-261 | One iteration of the command loop computes the specification's step, for every command kind. |
| MachoLayout.WalkCommands | scripts/macos_signing_delta.py:160-261 | The loop that updates cursor, lists and optional commands computes the recursive walk over the declared commands. |
| MachoLayout.FinishLayout | scripts/macos_signing_delta.py:262-313 | The checks after the loop, with their own loop over the linkedit references, compute the specification's verdict and layout. |
| MachoLayout.ParseLayout | scripts/macos_signing_delta.py:147-313 | The whole parser equals the layout specification on every byte string, with and without a missing signature allowed. |
| MachoLayout.SegmentOf | scripts/macos_signing_delta.py:173-186 | A segment that is read has a command of exactly its section count and lies inside the file. |
| MachoWalk.ReachApart | scripts/macos_signing_delta.py:163-168 | Two commands that the loop visits at different cursors do not overlap. |
| MachoWalk.LinkeditSegment | scripts/macos_signing_delta.py:273-279 | An accepted image has exactly one linkedit segment and it was read from a visited command whose fields are the layout's. |
| MachoWalk.LayoutReached | scripts/macos_signing_delta.py:160-313 | The commands named by an accepted layout were visited by the loop, inside the command area. |
| MachoWalk.WalkBacked | scripts/macos_signing_delta.py:187-220 | Every section and padding range that the walk records is backed by a segment that it recorded. |
| MachoWalk.FinishFacts | scripts/macos_signing_delta.py:262-311 | What acceptance after the loop says of the layout: terminal signature, linkedit bounds, disjointness, framed signature. |
| MachoLockstep.Lockstep | scripts/macos_signing_delta.py:316-318 | Parsing the original and parsing the output run in step: same commands, same cursor, parses that differ only in the linkedit sizes and the signature size. |
| MachoDelta.VerifyThin | scripts/macos_signing_delta.py:316-373 | The thin check computes the specification's result, field list and preserved bytes included. |
| MachoDelta.ThinParts | scripts/macos_signing_delta.py:316-355 | Acceptance is two accepted layouts, the value checks and the comparison outside the mutable fields, both ways. |
| MachoDelta.CompareMeans | scripts/macos_signing_delta.py:347-355 | When the comparison loop passes, every byte outside the fields and below the signature is unchanged. |
| MachoDelta.CompareAccepts | scripts/macos_signing_delta.py:347-355 | Conversely, equality outside disjoint ascending fields is enough for the loop to pass. |
| MachoRebuild.ResizeFollows | scripts/macos_signing_delta.py:340-341 | The check of the linkedit resize follows from the two layouts, the equal linkedit offsets and the forced signature offset. |
| MachoRebuild.AcceptedPlace | scripts/macos_signing_delta.py:321-344 | The place and the sizes of an accepted output's signature and linkedit segment are forced by the original and the file length. |
| MachoRebuild.AcceptedHolds | scripts/macos_signing_delta.py:321-344 | An accepted output holds the forced values in every mutable field: counts, new command, sizes, rounded memory size, padding. |
| MachoRebuild.AcceptedIsRebuilt | scripts/macos_signing_delta.py:316-355 | An accepted output is exactly the image rebuilt from the original and the output's signature bytes; nothing else is free. |
| MachoTheorems.RebuiltLockstep | scripts/macos_signing_delta.py:316-355 | An image that is rebuilt and parses follows the original's command loop, which is what makes the second parse redundant for the fields. |
| MachoTheorems.AcceptedIffRebuilt | scripts/macos_signing_delta.py:316-355 | Acceptance holds if and only if both images parse and the output is the rebuilt image with a signature of a multiple of 16 bytes. |
| MachoRewalk.WalkIff | scripts/macos_signing_delta.py:160-220 | Read in an output of another length, the command loop accepts the original's commands if and only if each segment fits: the linkedit segment in the address space, every other one inside the file with its sections after the commands. |
| MachoAvailable.RebuiltLayoutIff | scripts/macos_signing_delta.py:147-313 | A rebuilt image passes the whole layout parser if and only if its signature is framed and the original has room for one of that size. |
| MachoAvailable.AvailableIff | scripts/macos_signing_delta.py:316-355 | An accepted original has an accepted output with a given signature if and only if the signature is framed, of a multiple of 16 bytes, and has room in the image, the header, the text segment before the sections, and the address space. |
| MachoTheorems.OutputsInterchangeable | scripts/macos_signing_delta.py:316-355 | Any two outputs accepted for one original are accepted as signature-only changes of each other. |
| MachoTheorems.AcceptedTransitive | scripts/macos_signing_delta.py:316-355 | A signature-only change of an accepted output is a signature-only change of the original. |
| MachoTheorems.ReflexiveIff | scripts/macos_signing_delta.py:342-344 | An image is accepted as its own output exactly when it is signed, its signature size is a multiple of 16 and its linkedit memory size is the rounded file size. |
| MachoProtected.ProtectedPlace | scripts/macos_signing_delta.py:187-216 | Section bytes, zero-fill padding and linkedit references of an accepted image lie after its commands and before its signature. |
| MachoProtected.ProtectedPreserved | scripts/macos_signing_delta.py:316-355 | An accepted output has the same protected ranges as the original. |
| MachoProtected.MutableNeverMeetsProtected | scripts/macos_signing_delta.py:321-344 | In an accepted pair the mutable fields are pairwise disjoint, end before every protected range of either image, and the new signature starts after all of them, also when the command is added. |
| MachoFat.ReadSlices | scripts/macos_signing_delta.py:376-398 | The slice loop computes the specification's two slices or its refusal. |
| MachoFat.VerifySignatureOnlyChange | scripts/macos_signing_delta.py:426-456 | The entry point computes the specification's thin or two-slice result or its first refusal. |
| MachoFat.FatIsPacked | scripts/macos_signing_delta.py:376-398 | An accepted FAT file is byte for byte the minimal packing of its two slices at its alignments. |
| MachoFat.OutputsEquivalent | scripts/macos_signing_delta.py:426-446 | Accepted outputs of one original, thin or FAT, are accepted as changes of one another and of themselves. |
| MachoFat.ResigningChains | scripts/macos_signing_delta.py:426-446 | Acceptance chains: re-signing an accepted output, thin or FAT, is an accepted change of the first original. |
| MachoFat.FatOutputForced | scripts/macos_signing_delta.py:426-446 | An accepted FAT output is the packing, at 16 KiB, of the images that its two slices force. |
| MachoFatAvailable.PackReads | scripts/macos_signing_delta.py:376-398 | Two images with the proper headers, packed at 16 KiB, are read back as exactly these two slices. |
| MachoFatAvailable.FatAvailableIff | scripts/macos_signing_delta.py:426-446 | A FAT original has an accepted output whose slices end with two given signatures if and only if each signature suits its slice and the two signed slices fit into one packing. |
| MachoFatAvailable.FatReflexiveIff | scripts/macos_signing_delta.py:426-446 | A FAT file is its own output if and only if it is packed as an output and both slices are signed, with an aligned signature and a canonical linkedit memory size. |
| AppSlots.AppsDirectory.Rename | executor/autonomy/consumer.py:1227-1232 | A rename that succeeds replaced no bundle and no link, even when other actors change any slot around it; in a quiet directory it moved exactly the source, and a failure moved nothing. |
| Installer.Stage | executor/autonomy/consumer.py:1034-1042 | Staging never overwrites an occupied staging slot; on refusal the slots are the old ones, the old ones with the candidate staged, or the unsigned candidate was removed. |
| Installer.Check | executor/autonomy/consumer.py:1135-1211 | A candidate is passed on only when, after all foreign code has run, both identities still hold and the recovery slots are empty. |
| Installer.Activate | executor/autonomy/consumer.py:1226-1232 | Success in a quiet directory is exactly the two renames; a result that says restored means the prior identity is in the app slot, health-checked there if it had been moved. |
| Installer.Recover | executor/autonomy/consumer.py:1233-1287 | The failure handler removes nothing but the unsigned candidate itself, and reports restored only with the prior identity in place. |
| Installer.Confirm | executor/autonomy/consumer.py:1288-1398 | Success means the candidate is in the app slot and was healthy there, the prior release is retained and the failed slot is empty. |
| Installer.Withdraw | executor/autonomy/consumer.py:1292-1366 | An unhealthy result means the prior identity is back in the app slot and was healthy there, with the candidate kept in the failed slot. |
| Installer.Proceed | executor/autonomy/consumer.py:1226-1398 | From a checked candidate every outcome keeps its promise under any outside writer, and conserves all bundles without one. |
| Installer.Install | executor/autonomy/consumer.py:1202-1399 | For every answer of the environment: installed means candidate active, exact prior identity retained, failed empty; every restored result means the prior identity is active and, if it was moved, healthy there; without other writers nothing is lost. |
| Rollback.CheckRetained | executor/autonomy/consumer.py:1445-1500 | A rollback starts only with both identities captured, unchanged after the health run, and an empty failed slot; nothing has been moved. |
| Rollback.Reinstate | executor/autonomy/consumer.py:1511-1539 | After a failed activation rename, restored means both versions are where they were and the current one was healthy at its final path. |
| Rollback.Revert | executor/autonomy/consumer.py:1544-1593 | After a failed final-path check, restored means the current identity is active and healthy and the rejected one is back in its slot. |
| Rollback.RollBack | executor/autonomy/consumer.py:1449-1609 | Dual of Install: success means the retained identity is active and was healthy there, the displaced one is exactly in the failed slot and the previous slot is empty; nothing is ever removed. |
| Transactions.Perform | executor/autonomy/consumer.py:1202-1609 | One installation or rollback in a quiet directory, with any answers, loses no bundle and duplicates none. |
| Transactions.RunOperations | executor/autonomy/consumer.py:1202-1609 | Over any sequence of installations and rollbacks with distinct candidates every bundle of the start ends in exactly one slot, and only unsigned candidates of the sequence are removed. |
| Transactions.InstallThenRollBack | executor/autonomy/consumer.py:1202-1609 | A healthy installation followed by a healthy rollback leaves every slot as it was, with the candidate kept as failed, the original identity active and healthy, and nothing removed. |
| Transactions.PreviousWasFree | executor/autonomy/consumer.py:1211-1232 | A confirmed replacement that loses nothing had an empty previous slot. |
| AuthAttempts.AuthAttemptStore.Begin | executor/auth/attempts.py:65-97 | Begin returns the current attempt unchanged or appends one PREPARED current attempt under a new id, and records no send. Without a stale choice it never opens an attempt over an unreconciled send; with a permitting preferred row it does open one. |
| AuthAttempts.AuthAttemptStore.SelectNewest | executor/auth/attempts.py:83-84 | The query returns some row of the task than which none is newer; with equal creation times it may be any of them. |
| AuthAttempts.AuthAttemptStore.RecordSendIntent | executor/auth/attempts.py:99-116 | A send intent is recorded exactly for a leased task and its current PREPARED row, which becomes SEND_UNKNOWN with deadline and cooldown, and adds exactly one send. |
| AuthAttempts.AuthAttemptStore.AuthorizeResend | executor/auth/attempts.py:118-156 | A known command returns its row and creates nothing; otherwise one cooled attempt is retired and one PREPARED attempt is opened for it. |
| AuthAttempts.AuthAttemptStore.RecordSendResult | executor/auth/attempts.py:158-169 | A result only refines a recorded send and never changes currency or the log. |
| AuthAttempts.AuthAttemptStore.ObserveExternalWait | executor/auth/attempts.py:171-187 | An external wait spends a PREPARED row, which is current although the code does not ask, and records no send. |
| AuthAttempts.AuthAttemptStore.ValidWait | executor/auth/attempts.py:189-199 | A wait is valid exactly for a current, sent or observed attempt before its deadline that matches the given id and origin; otherwise nothing is returned. |
| AuthAttempts.AuthAttemptStore.Close | executor/auth/attempts.py:201-207 | A close retires only the named current attempt and logs the authentication. |
| AuthJournal.CurrentIsLast | executor/auth/attempts.py:83-97 | In every reachable journal the current attempt of a task is its last one. |
| AuthJournal.CurrentIsNewest | executor/auth/attempts.py:83-97 | A current attempt is unique and no attempt of the task is newer. |
| AuthJournal.NewestIsLast | executor/auth/attempts.py:83-84 | If no two attempts of a task were created at one instant, the row that the query returns is the last one. |
| AuthJournal.DistinctIsNeverStale | executor/auth/attempts.py:83-86 | With distinct creation times the query can never return a permitting attempt while the last one forbids a send. |
| AuthJournal.BeginTask | executor/auth/attempts.py:83-97 | A begin keeps the task's balance of sends and permissions, its spacing and its cooldown; over an open send it adds exactly one permission to the balance. |
| AuthJournal.SendTask | executor/auth/attempts.py:109-116 | A send by the prepared current attempt uses the permission, is at least 60 seconds after an open send, and starts the next cooldown. |
| AuthJournal.ObserveTask | executor/auth/attempts.py:180-187 | An external wait spends the permission without a send. |
| AuthJournal.ResendTask | executor/auth/attempts.py:139-156 | A resend after the cooldown keeps the balance and permits one more send. |
| AuthJournal.AuthenticatedTask | executor/auth/attempts.py:201-207 | An AUTHENTICATED close settles the open send and permits one more. |
| AuthJournal.BeginThenSendIff | executor/auth/attempts.py:83-116 | After a begin that read a permitting attempt, the send keeps the bound if and only if the last attempt permits it or a permission was spent unsent, and keeps the 60 seconds if and only if the last attempt permits it or its cooldown is over. |
| AuthRuns.RunCalls | executor/auth/attempts.py:65-207 | Over any sequence of store calls: each task with distinct creation times has at most one send plus one per resend and per authentication, 60 seconds apart while open; with tied times each begin over an open send adds at most one; every attempt sends at most once. |
| AuthRuns.BeginThenSend | executor/auth/attempts.py:65-116 | The same exact conditions for the two store calls, on the rows that begin reads: the bound is kept iff there is no stale choice or a spare permission, the spacing iff there is no stale choice or the last cooldown is over. |
| AuthRuns.TiedRun | executor/auth/attempts.py:65-207 | A run of store calls with a stopped clock in which one task sends twice without a resend or an authentication, so bound and spacing fail. |
| OtpSession.Session.PrepareSend | executor/adapters/generic_web.py:1261-1354 | The send control is clicked at most once, and only directly after its own intent was recorded; without a click the journal is unchanged. |
| ReviewCertificate.RowsAreBijection | executor/review_certificate.py:181-192 | Length plus map equality means that the server rows are a duplicate-free bijection with the expected records. |
| ReviewCertificate.LastRowIsNew | executor/review_certificate.py:183-191 | Equal length and map size exclude that a later record overwrote an earlier one. |
| ReviewCertificate.FieldsAgree | executor/review_certificate.py:144-158 | When the comparison loop passes, every field of the inventory agrees with the plan at its own index and kept defaults are confirmed. |
| ReviewCertificate.CertifiedCarries | executor/review_certificate.py:102-231 | A certificate means that the snapshot carries the planned fields, the expected rows and attachments, at the certificate's draft and a revision not below the minimum. |
| ReviewCertificate.ProjectHasRow | executor/review_certificate.py:193-206 | Every project that is not excluded has its own server row with its canonical values. |
| ReviewCertificate.RecheckBinds | executor/review_certificate.py:246-264 | An accepted recheck has the same document, revision, versions and plan binding as the first certificate. |
| ReviewCertificate.RecheckSeesSameDraft | executor/review_certificate.py:246-265 | If the recheck accepts, whatever it was given, both snapshots carry the same field values, rows, attachments, revision and document. |
| RowContract.ValidatedIsCanonical | executor/application.py:527-575 | A validated contract offers exactly one set of values per canonical record that is not excluded, even if it repeats a record. |
| RowContract.CanonicalIsUnique | executor/application.py:527-575 | Two validated contracts of one collection bind the same rows, whatever page offered them. |
| OtpSession.Session.Resolve | executor/application.py:126-325 | One challenge clicks at most once; its attempt is closed as AUTHENTICATED only when the run goes on with no challenge left and the return target verified. |
| OtpSession.Session.RunSteps | executor/application.py:126-325 | Over any sequence of challenges and store calls the page clicks the send control for a task with distinct creation times at most once plus once per resend and per authentication, and otherwise at most once more per begin over an open send. |
| ReadyRun.Highest | executor/application.py:1091-1093 | The minimum revision is one of the bound revisions and none is higher. |
| ReadyTheorems.ReconcileBinds | executor/application.py:703-728 | The reconciliation loop binds one row set per contract, in order, and keeps the earlier ones. |
| ReadyTheorems.BindKeeps | executor/application.py:669-728 | Row binding keeps one draft over all bindings, and every bound row set canonical. |
| ReadyTheorems.ChildrenKeep | executor/application.py:816-864 | The rounds over revealed child fields put every field that they fill into the plan and the unresolved list. |
| ReadyChildren.ConsumedIsCovered | executor/application.py:816-864 | Every field of every re-observation that the rounds bind is resolved under its selector. |
| ReadyChildren.RevealedIsResolvedIff | executor/application.py:816-877 | On a page that passes, every field of every bound re-observation is resolved, and everything the page would show next is resolved if and only if the next re-observation adds nothing, as it does when the loop ends at a supported form. |
| ReadyChildren.ReadySettlesRevealed | executor/application.py:816-1116 | On READY every field that the consumed rounds of a visited page revealed is settled in the plan and, unless it is a file, has its planned value on the server in both snapshots. |
| ReadyChildren.UnsupportedMayBeReady | executor/application.py:826-830 | For every reviewable task and plain form, some answers make a run READY although an unsupported re-observation showed a field that the plan lacks. |
| ReadyChildren.RoundsUsedMayBeReady | executor/application.py:816-864 | For every reviewable task and plain form of four fields or more, some answers make a run READY although the fourth fill revealed a field that the plan lacks. |
| ReadyMirror.MirrorCertifies | executor/application.py:1065-1116 | A server that mirrors the plan of a reviewable state is certified and rechecked at its own revision. |
| ReadyMirror.ReviewableIsReady | executor/application.py:975-1116 | Every reviewable state becomes READY for some answers, at every revision not below what its rows observed. |
| ReadyMirror.ReReadIsReady | executor/application.py:975-1116 | Whatever was read again, a reviewable state becomes READY for some answers at every revision from the floor of these re-reads on. |
| ReadyMirror.FloorIff | executor/application.py:1091-1093 | With given re-reads, every certificate of a reviewable state is at a height or above it if and only if their floor is: the highest of the row re-reads, the last attachment re-read and 1. |
| ReadyMirror.ReadyWasReviewable | executor/application.py:975-1116 | Only a reviewable state becomes READY: slots known, nothing unresolved, everything settled, all prior rows re-observed, all required projects bound. |
| ReadyTheorems.StepKeeps | executor/application.py:640-1188 | One page keeps the invariant, forgets no field and no row, and puts everything that it resolves, also after its fills, into the plan. |
| ReadyTheorems.RunProves | executor/application.py:577-1193 | From any state that keeps the invariant a READY run has proved its final state. |
| ReadyTheorems.ReadyNamesOneDraft | executor/application.py:975-1116 | READY names one draft: row bindings, attachment binding, draft receipt and both snapshots agree, at a revision not below any bound attachment or any row revision, reconciled or re-read. |
| ReadyTheorems.ReadyCarriesPlan | executor/application.py:1065-1116 | READY rests on one set of values: both snapshots carry the whole plan and are the same draft, for the canonical account, with every prior row journal re-observed. |
| ReadyTheorems.ReadyRowsAreCanonical | executor/application.py:1075-1106 | On READY both snapshots hold, for exactly the bound collections, exactly the canonical rows. |
| ReadyTheorems.VisitedIsPlanned | executor/application.py:791-864 | Everything that any visited page showed or revealed and that was resolved is in the final plan. |
| ReadyTheorems.ReadySettlesEveryPage | executor/application.py:934-946 | On READY everything that was resolved on any visited page, revealed fields included, is settled and, unless it is a file, has its planned value on the server in both snapshots. |
| ReadyRevisions.RunFloorIff | executor/application.py:975-1116 | For a run that comes to its review with given re-reads, every READY that the later answers allow is at a height or above it if and only if the floor of the re-reads is. |
| ReadyRevisions.CoveredIff | executor/application.py:879-1116 | Every READY that the re-reads of a run allow covers every attachment revision that the run ever bound if and only if the floor given to certify_review does. |
| ReadyRevisions.RisingIsCovered | executor/application.py:879-1093 | If no attachment binding of a READY run is below the one that it replaces, the floor of its last re-reads covers them all, and so does its certificate. |
| ReadyUploads.LowerReReadIsReady | executor/application.py:1000-1013 | For every task, on adapters with and without observe_form: an upload, recovered or made on the page, that is read again at a lower revision becomes READY at the lower one for some answers. |
| ReadyUploads.LowerUploadIsReady | executor/application.py:879-932 | A second upload at a lower revision, read again unchanged, becomes READY for some answers below the revision of the first. |
| Executor.ApplicationExecutor.ReconcileOffer | executor/application.py:668-733 | The loop that reconciles contracts and appends bindings does what the specification says, and binds nothing when admission refuses. |
| Executor.ApplicationExecutor.Fill | executor/application.py:779-877 | The fills of a page and of its revealed children update plan and unresolved fields as specified, in at most four rounds. |
| Executor.ApplicationExecutor.BindAttachments | executor/application.py:879-932 | An upload is bound only to the draft that is already bound; a refusal changes nothing. |
| Executor.ApplicationExecutor.ReviewFinal | executor/application.py:975-1141 | READY is set exactly when the specified review succeeds, and then the proof is kept. |
| Executor.ApplicationExecutor.VisitPage | executor/application.py:640-1188 | One iteration of the page loop ends exactly as specified: next page, READY, blocked or raised. |
| Executor.ApplicationExecutor.Run | executor/application.py:577-1193 | A run that returns leaves BLOCKED or READY_TO_SUBMIT, for exactly the reason or with exactly the proof of the specification; at READY_TO_SUBMIT the kept proof holds of the fields and bindings that the executor has. |
| FieldOrder.FindReady | executor/adapters/generic_web.py:755-761 | A round's ready list is exactly the pending items whose in-batch parent is done, without repetition. |
| FieldOrder.PlaceReady | executor/adapters/generic_web.py:765-777 | A round places ready items after their parents and refuses only an item with a real defect. |
| FieldOrder.Order | executor/adapters/generic_web.py:751-777 | The loop always ends: with a permutation of the batch in which every in-batch parent comes first, with a refusal of a really defective item, or with a cycle and exactly the items that wait for ever. |
| FieldOrder.CycleIffUngrounded | executor/adapters/generic_web.py:755-764 | The batch has a dependency cycle exactly when some item's ancestors never end. |
| FieldOrder.StuckIsUngrounded | executor/adapters/generic_web.py:762-764 | When nothing is ready the pending items are exactly those on or behind a cycle. |
| FieldOrder.CycleReportedIff | executor/adapters/generic_web.py:755-777 | With no missing and no unresolved parent a cycle is reported if and only if the batch has one. |
| FieldOrder.RefusedIff | executor/adapters/generic_web.py:765-774 | A missing or unresolved parent is reported if and only if some item that no cycle blocks has one. |
| FieldBatch.GenericAdapter.VerifyRetained | executor/adapters/generic_web.py:796-841 | Success means every kept readback holds on the page at one moment; failure sets the sticky flag. |
| FieldBatch.GenericAdapter.VerifyStructure | executor/adapters/generic_web.py:843-866 | Success means a complete, supported form; failure sets the sticky flag, and the limit flag only for an incomplete form. |
| FieldBatch.GenericAdapter.VerifyContract | executor/adapters/generic_web.py:896-914 | Success means the control still has its document, contract and place; failure sets the flag exactly when something was kept. |
| FieldBatch.GenericAdapter.ChooseOption | executor/adapters/generic_web.py:517-531 | The option is chosen from the options that the control has after the guard, not from those seen before. |
| FieldBatch.GenericAdapter.Dispatch | executor/adapters/generic_web.py:948-1001 | The decision to write reads the control as it is after the journal's begin and the second contract check; there is at most one write, and none without a choice that the item wants of the current options. |
| FieldBatch.GenericAdapter.WriteField | executor/adapters/generic_web.py:916-1015 | A confirmed field was bound to what its control was after the last contract check, asked for what the item wants of it and read back; any exit after a write without that sets the flag; every journal intent is closed. |
| FieldBatch.GenericAdapter.VisitField | executor/adapters/generic_web.py:868-915 | Before the write nothing is written; exceptions of the render wait, the bounds read and the locator leave the flag unset. |
| FieldBatch.GenericAdapter.WriteBatch | executor/adapters/generic_web.py:868-1018 | The loop over the ordered batch: returned actions cover the batch, ok children have ok parents, and all ok fields hold together at return. |
| FieldBatch.GenericAdapter.Apply | executor/adapters/generic_web.py:717-1018 | On a page that any write may change: a normal return means that all ok fields hold what they were asked at the same time; after the flag is set no call writes; any exit without the flag has every write confirmed; without an ok action nothing was written; an exception of the bounds read never sets the flag. |
| FieldBatch.ProgressMeans | executor/adapters/generic_web.py:1016-1018 | The final readback turns the loop's bookkeeping into the simultaneous claim for all ok fields. |
| FieldBatch.ParentIsOk | executor/adapters/generic_web.py:872-879 | A field is written only after its in-batch parent's own write was confirmed. |
| ProcessTable.ApplyKeeps | scripts/ci_full_suite_cohort.py:135-141 | Fork, exit with adoption, and reaping by others keep the tree below the owner: no descendant escapes and a direct child stays one until the owner reaps it. |
| ProcessTable.OwnedAreDescendants | scripts/ci_full_suite_cohort.py:135-141 | In every reachable process table the processes that ever descended from the owner and still exist are exactly its descendants. |
| ProcessTable.ChildlessMeansAlone | scripts/ci_full_suite_cohort.py:223-230 | With no child left, zombies included, nothing that ever descended from the owner is left. |
| OwnerLifecycle.StatTellsChildren | scripts/ci_full_suite_cohort.py:201-206 | Comparing the parent PID tells direct children exactly, as no two processes share a PID. |
| OwnerLifecycle.Host.Children | scripts/ci_full_suite_cohort.py:193-207 | Every process that is a child when the scan begins is found, and everything found is a child when it ends. |
| OwnerLifecycle.Owner.ReapExited | scripts/ci_full_suite_cohort.py:214-221 | The reap loop ends and reports ECHILD only with no child left. |
| OwnerLifecycle.DeliveredToChild | scripts/ci_full_suite_cohort.py:238-255 | If the parent was proved after the pidfd was opened and the signal is delivered, its target is that same process and still a direct child, whatever happened to the PID. |
| OwnerLifecycle.Owner.SignalChild | scripts/ci_full_suite_cohort.py:237-261 | One signalling step delivers to a direct child or not at all, and never repeats an identity and signal. |
| OwnerLifecycle.Owner.Cleanup | scripts/ci_full_suite_cohort.py:209-262 | For every interleaving: it returns only when no descendant exists and every earlier one is gone; it raises only after five seconds; every signal goes to a direct child, SIGTERM before and SIGKILL after two seconds, none twice. |
| OwnerLifecycle.AloneMeansGone | scripts/ci_full_suite_cohort.py:227-230 | ECHILD means no descendant, for all processes that descended from the owner at any time since the start. |
| Evidence.EvidencePriority | executor/evidence.py:326-335 | Only an explicit answer of the user has priority 500, confirmation never lowers a priority. |
| Evidence.FieldPriority | executor/evidence.py:338-340 | The field's priority is at least that of each source, and 500 exactly with a user_explicit source. |
| Evidence.ProfileBuilder.AddField | executor/evidence.py:348-386 | The method that merges, replaces or records a conflict in place computes the merge function. |
| Evidence.MergeRaises | executor/evidence.py:367-386 | No offer lowers the stored rank of any key. |
| Evidence.EveryOfferIsAccounted | executor/evidence.py:348-386 | After any sequence of offers the stored rank is at least every offered rank, every offered value is stored or in a conflict, and nothing else is. |
| Evidence.ProfileBuilder.AddAll | executor/evidence.py:348-386 | After any sequence of imports a new builder records only what was offered, has a conflict for a key exactly if two values were offered, and leaves it unresolved exactly if none of them came from the user. |
| Evidence.ConflictIff | executor/evidence.py:378-384 | A key has a conflict if and only if two different values were offered for it. |
| Evidence.HighestStaysIff | executor/evidence.py:378-384 | If the stored value is that of a highest single offer, it stays so after one more offer if and only if the stored field does not shadow that offer: its joined rank reaches the offer's while each of its own offers is below it. |
| Evidence.FirstHighestIsStored | executor/evidence.py:367-386 | When no value is offered twice for a key, the first of its highest-ranked offers is the one stored, whatever the order of the others. |
| Evidence.JoinedRankShadows | executor/evidence.py:367-386 | Concrete offers: two of one value shadow a higher single offer in one order, and not in the other. |
| Evidence.UserExplicitWins | executor/profile.py:156-157 | The chosen field has a user_explicit source if and only if one was offered for the key. |
| Evidence.UnresolvedIff | executor/profile.py:152-157 | A key is unresolved if and only if two different values were offered and none of them by the user. |
| CollectionInventory.SortedFilesAre | scripts/ci_full_suite.py:44-46 | The file list of an inventory is strictly increasing and holds exactly the files of its records. |
| CollectionInventory.AllocationIsComplete | scripts/ci_full_suite.py:64-70 | The three groups hold every record exactly as often as the collection. |
| CollectionInventory.FilesAreApart | scripts/ci_full_suite.py:71-73 | No file is in the groups of two owners. |
| CollectionInventory.Partition | scripts/ci_full_suite.py:64-76 | The loop fills the groups by owner; of the three refusals only the empty owner can ever happen, and exactly when a group is empty. |
| SuiteReports.FullSuite.LogReport | scripts/ci_full_suite.py:255-265 | The hook adds each report to exactly one counter of the test, its subtests or its teardown. |
| SuiteReports.OneTerminalOutcome | scripts/ci_full_suite.py:255-265 | Every test that the runner reports is counted in exactly one terminal outcome, whatever its fate and whatever its subtests. |
| SuiteReports.RunIsCounted | scripts/ci_full_suite.py:255-265 | The outcome counters of a run add up to its tests, and all counters pass if and only if no report failed. |
| Receipts.Aggregate | scripts/ci_full_suite.py:115-197 | The loop with its running totals accepts exactly the three receipts that pass and share one identity, and returns their sums. |
| Receipts.AcceptedAddsUp | scripts/ci_full_suite.py:193-197 | Accepted outcome totals sum to the full collection count, and each collection event is counted once. |
| Receipts.AcceptedCoversFiles | scripts/ci_full_suite.py:158-162 | A file is in a shard's accepted plan if and only if it is in the universe and owned by that shard. |
| Receipts.AcceptedRanCollection | scripts/ci_full_suite.py:163-174 | The universe digest is the root of what the three shards really finished. |
| Receipts.HonestCovers | scripts/ci_full_suite.py:57-61 | The plans of an honest collection are a permutation of its sorted files. |
| Receipts.HonestPasses | scripts/ci_full_suite.py:267-290 | The receipt of an honest run passes every check of its shard if and only if every owner has a test, each kept collection report is a skip with a relative path, the runtime is a Linux one and no report failed. |
| Receipts.HonestIsAccepted | scripts/ci_full_suite.py:115-197 | Three honest receipts over one collection are accepted if and only if nothing failed in the collection or in any of the three runs. |
| Soak.Settles | scripts/run_lifecycle_soak.py:57-62 | Three more encodings settle any counter that does not exceed its successor. |
| Soak.FixedPointByFive | scripts/run_lifecycle_soak.py:57-64 | The self-counting loop reaches its digit-length fixed point within five encodings, on every checkpoint. |
| Soak.FourMayFail | scripts/run_lifecycle_soak.py:57-62 | Four encodings are not always enough for the first checkpoint. |
| Soak.SoakReport.WriteReport | scripts/run_lifecycle_soak.py:51-80 | A successful checkpoint records the exact sum of all file lengths, its own included, within both budgets; a failed one stores nothing, and the byte accounting never fails. |
| Soak.SoakReport.WriteAll | scripts/run_lifecycle_soak.py:51-80 | After n checkpoints in a row the recorded total is the exact sum of the n file lengths. |

## Left out

- MachoFat.VerifySignatureOnlyChange: the constant strings of the report and the offsets quoted in messages are not modelled; the hashes are represented by the hashed bytes.
- SignatureFrame.CheckSignatureFrame: the refusals inside the frame are one reason, because only acceptance matters to the callers.
- Installer.Install: the approval, legacy-state and snapshot checks are arbitrary answers; guard exceptions, messages and reported paths are not modelled; identity capture is one atomic read; the exclusive first-install rename is an ordinary rename that can fail.
- Rollback.RollBack: as Install; the exception for a missing app is not modelled.
- AuthAttempts.AuthAttemptStore.AuthorizeResend: the queue's resume is an arbitrary success or failure, and the whole transaction is atomic.
- AuthRuns.RunCalls: claims the bound and the spacing only for tasks with distinct creation times; the calls of one process follow one another, each in one transaction.
- OtpSession.Session.RunSteps: the page's texts, consent and code entry are answers; the clock is read where the store reads it.
- ReadyRevisions.CoveredIff: the reconciler is abstract, and refuses a re-read row revision below the one that it reconciled.
- ReviewCertificate.CertifiedCarries: the default for missing expected attachments and the account digest are not modelled, because run passes both.
- RowContract.ValidatedIsCanonical: regular expressions on versions and ids are one Boolean of the contract.
- Executor.ApplicationExecutor.Run: exceptions of the audit store and of the guard inside the manifest save are not modelled; the reconciler, the attachment receipts, the field resolver and the consistency audit are answers of the page; an executor runs once.
- FieldBatch.GenericAdapter.WriteField: the kind of the control is read before the intent, as in the source, and is assumed to be covered by the control contract.
- FieldBatch.GenericAdapter.Apply: finishing a journal intent is assumed not to fail; text normalisation of options is represented by the set of names of a choice; the refusals of the admission carry no reason.
- OwnerLifecycle.Owner.Cleanup: the other processes make finitely many moves and the listing of /proc is one snapshot; that a killed process really exits is not claimed.
- Evidence.EveryOfferIsAccounted: values are compared structurally, so Python's equality of 1, 1.0 and True is not modelled; aliases, sensitivity and normalisation are left out.
- Receipts.Aggregate: a receipt of the wrong shape is absent from the map; git and the JSON text are not modelled.
- Receipts.HonestIsAccepted: the runner is assumed to report each selected test by its protocol and to end with status 0 when nothing failed; collected paths are relative.
- Soak.SoakReport.WriteReport: the encoding is its length, a constant plus the digits of the counter; the clock and the service under test are not modelled.
- inspect_signing_input, which reports a layout without a comparison.
- The document parsers of evidence.py and the education records that build adds.
- `_merge_projects`, `_legacy_get` and the other lookups of the legacy profile.
- DOM scripts, CDP, subprocesses, codesign, sockets, HTTP servers and windows.
- The label classifier and the model mapper of resolver.py and field_classifier.py, which are tables without invariants.
- Descriptor, attribute and link checks of the bundle copy and of the signing preparation.

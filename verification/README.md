# Verified core of WP Panel

WP Panel administers a web server: sites, backups, bans, updates. Most of it drives other programs. This
project models the parts that hold a state machine, a transformation or a transaction of their own, and
proves what they promise for every input, every run and every failure of the calls in between.

Everything is checked by `dafny verify dfyconfig.toml`. The code's own form is kept: what updates fields or
loops is a class or a method with loops, proved against a specification function; what only computes is a
function; the claims that span operations are lemmas about those functions.

Conventions. Bytes and Go strings are characters; nothing depends on their range except where Go's
widening of a byte above 0x7F to two bytes counts against a limit, which is modelled (`Width`). An operating
system, database or network call is a nondeterministic success or failure with its stated effect, including
what a failed write leaves behind. Signature, checksum, preflight and the address grammar are opaque
predicates.

| files | what they model |
|---|---|
| `GoStrings` | the part of Go's `strings` and string ordering the code relies on |
| `RestoreFilter`, `RestoreDecision`, `RestoreOpenings`, `RestoreComments`, `RestoreQuotes`, `RestoreStream`, `RestoreHeads` | the streaming filter that drops database-level statements from an SQL dump: the batch reading of it, which statements are dropped and which kept, told by their text, the byte-at-a-time machine, proved equal for every way of cutting the input into reads, and what gets past it |
| `RestoreCheck` | the check that a dump creates a table before it is restored |
| `Upgrades`, `UpgradeRuns`, `UpgradeList` | the schema upgrade chain over any sequence of start-ups, each stopped at any statement, and the maintained list itself |
| `PanelUpdate`, `PanelUpdateRun` | self-update with backup, plan, rename, health check and rollback; every step records the disk it leaves, so that a claim about every crash point is a claim about every recorded moment |
| `FileTree`, `FileCopy`, `FileKinds`, `FileTransfer`, `FileMove`, `FileHandlers` | the recursive merging copy and the Move and Copy requests of the file manager |
| `ChunkedUpload`, `Multipart` | resumable upload into chunks; cutting a backup into S3 parts |
| `Fail2ban`, `BanLadder` | reconciliation of jails, ban table and nginx list; over runs of reports and reconciliations, the escalation ladder and how long a ban stays |
| `NginxBan`, `NginxBanFile` | the generated ban file as a set, and edits of it that nginx may reject |
| `TaskQueue` | the serial task queue with panicking executors under any interleaving |
| `Versions`, `VersionOrder` | version comparison as a total preorder, which of two version texts is the later, and the patch-bump test |
| `RateLimit`, `RateBlocks`, `RateLimitFiles` | rewriting rate-limit directives, server block by server block; applying them to the nginx files with rollback |
| `ConfigEdit`, `ConfigLines`, `ConfigKeys` | get and put on php.ini, redis.conf and nginx.conf texts, which lines an edit touches, and what an edit of one key does to the others |
| `AlertMonitor` | the alert rules' debounce machine |

Findings. Where a promise fails, the model keeps the code as it is and states exactly when it holds, for most
with an input that shows the failure:

- A statement's bytes up to the deciding one are not lexed by the restore filter. Its statements end where the
  text's do, whatever follows, exactly after the heads without a semicolon outside quotes or a quote left open,
  and those that decide to skip at the first such semicolon (`PlainHeadIff`). Where every head is such a one no
  USE, CREATE DATABASE, DROP DATABASE or CREATE with a definer survives (`NoUnwantedStatementSurvives`). Behind a kept
  head of this kind nothing can hide (`PlainHeadHidesNothing`); what can hide behind any kept head is stated exactly
  (`KeptHeadHidesIff`), and an empty statement hides anything: `;USE x;` (`EmptyStatementCarriesUse`).
- The filter's comment stripping comes too late: a statement that a comment leads is kept, whatever it does
  (`CommentLedIsKept`, `HashLedIsKept`), and so is one with a comment opened by `/` or `-` after CREATE or DROP
  (`CommentSeparatedIsKept`). Only a `#` comment between those words is seen past (`HashSeparatedIsSkipped`).
- A statement whose word after CREATE is a proper beginning of DATABASE or DEFINER=, or after DROP of DATABASE,
  stays undecided up to the limit, and is dropped exactly if DEFINER= occurs before that (`HalfWordIsKeptIff`).
- A database without version rows, or at a beta version, can be taken for a fresh install after an interrupted
  start exactly when the migrations or the first upgrade make the canary column (`MistakenIff`); it then never
  runs an upgrade. On the maintained list that is exactly when the column is already there, or its table
  is missing and the schema creates it (`MaintainedListIsSafeIff`, `BetaSkipsEveryUpgrade`, `OldInstallationIsMistaken`).
- Moving a name up to an ancestor directory while overwriting loses files, and reports success, exactly when
  the copy reaches into its own source: `/x/n` moved to `/x` where `/x/n/n/n` exists (`Move`, and
  `UpwardsMoveLoses`, which runs it). The same holds of several names once all have left their sources.
- A failed ownership repair of a cross-site copy removes that item's destination with its old content; without
  obstacles the first unrepaired name is exactly what it happens to, and to nothing else (`Copy`,
  `OldContentIsLost`).
- The set pushed to nginx misses an open row exactly when the row's closing update failed and its address
  is not pushed for another reason (`MissedOpenRowIffStuck`, `StuckRowIsMissed`).
- A rolled-back rate limit leaves every file as it was exactly if no saved file existed unread and the sites, if
  they could not be listed for the backup, were not changed by the rewriting that lists them again
  (`UndoableIff` when what is put back can be, `Apply` in general; `UnreadFileIsRemoved`,
  `LateSiteStaysRewritten`).
- A patch bump compares as newer exactly unless the target's first number is not 0 and has a line break, or
  white space and a "v", before it, and the current version's has not (`PatchBumpIsNewerIff`,
  `OuterSpaceMisleads`).
- The edits of two nginx keys are independent exactly when neither key is a prefix of the other
  (`NginxIndependentIff`). A redis edit clears away stray lines, which a search for maxmemory takes a value from
  (`RedisOtherKey`, `StrayValueIsLost`).
- A rejected ban file leaves the file as it was exactly if the old one had been read and is written back, or
  there was none and the new one is removed, or a failed call happens to leave the old text (`BanFile.Write`,
  `BanFile.Update`); otherwise it may be gone although every call after the reading works
  (`RejectedEditRemovesFile`).
- The count of chunks overflows for files within one chunk of the largest 64-bit size: then no chunk is asked for
  and the upload completes as an empty file. A completed upload is the file exactly for the other sizes (`Upload`,
  `LargestUploadIsEmpty`).
- A chunk uploaded again is lost when its rename fails, but never wrong (`UploadChunk`).

## Model

| member | source | states |
|---|---|---|
| RestoreStream.WriteSanitized | executor/backup.go:376-498 | for every cutting of the input into reads, the bytes written are those the batch filter leaves of the whole input; a failing reader or sink leaves a prefix of them, and with neither the call succeeds; never more than 256 bytes are held back |
| RestoreStream.Machine.Feed | executor/backup.go:400-484 | one byte moves what was written plus what is still owed by exactly nothing, in every lexer state |
| RestoreStream.Machine.Settle | executor/backup.go:420-430 | when a statement's fate is known, what was held goes out or is forgotten, and only a deciding semicolon ends a skipped statement at once |
| RestoreFilter.SegmentsPartitionInput | executor/backup.go:398-484 | the segments of an input concatenate to it: every byte is kept, dropped or white space exactly once |
| RestoreFilter.HeadIsBounded | executor/backup.go:377-443 | a statement spends at most 256 bytes undecided, byte widening included |
| RestoreFilter.FilterFromHead | executor/backup.go:417-484 | a statement's decision depends on its head alone, whatever follows, and what follows is lexed from a fresh state |
| RestoreFilter.KeptStatementIsLocal | executor/backup.go:398-484 | a kept, terminated statement is kept with the same extent whatever comes after it |
| RestoreFilter.FilterIsIdempotent | executor/backup.go:376-498 | filtering the filter's own output changes nothing, for every input |
| RestoreDecision.NormalizePrefix | executor/backup.go:548-588 | the three in-place comment loops compute the recursive normalisation |
| RestoreDecision.UseIsSkipped | executor/backup.go:500-542 | a statement that starts with USE in any letter case is skipped, decided at its third byte |
| RestoreDecision.DatabaseIsSkipped | executor/backup.go:500-542 | a statement that starts, in any case, with CREATE or DROP, white space and DATABASE within 256 bytes is skipped, decided exactly there |
| RestoreDecision.DefinerIsSkipped | executor/backup.go:500-542 | a statement that starts, in any case, with CREATE, white space and DEFINER= within 256 bytes is skipped, decided exactly there |
| RestoreDecision.UnwantedStatementsAreDropped | executor/backup.go:417-443 | among all segments of any input, every one that starts in one of these three ways is dropped |
| RestoreDecision.UnwantedLeavesNoByte | executor/backup.go:417-484 | such a statement contributes no byte: the output is that of the rest of the input |
| RestoreOpenings.OtherFirstWordIsKept | executor/backup.go:500-542 | a statement whose first word, in any case, is none of USE, CREATE and DROP and does not start with USE is kept |
| RestoreOpenings.OtherSecondWordIsKept | executor/backup.go:500-542 | so is one whose word after CREATE or DROP starts neither DATABASE nor, after CREATE, DEFINER=, and is no beginning of them: CREATE TABLE, DROP TABLE |
| RestoreOpenings.HalfWordIsKeptIff | executor/backup.go:500-542 | one whose second word is such a beginning is kept if and only if no DEFINER= is in its undecided bytes |
| RestoreOpenings.OrdinaryStatementsAreKept | executor/backup.go:417-443 | among all segments of any input, every ordinary one is kept |
| RestoreQuotes.UnwantedGoesWhole | executor/backup.go:417-484 | an unwanted statement is dropped up to the first semicolon outside strings and quoted names, backslash escapes included, and no further |
| RestoreQuotes.KeptStaysWhole | executor/backup.go:417-484 | a kept statement passes up to that semicolon, and what follows it is read afresh |
| RestoreQuotes.OrdinaryStaysWhole | executor/backup.go:417-484 | a statement whose first byte settles that it stays passes whole, semicolons in its strings and names included |
| RestoreQuotes.OutlineIsSkeleton | executor/backup.go:306-355 | of a statement the check reads what stands outside strings and quoted names, and their opening marks |
| RestoreComments.EncodedLenIs | executor/backup.go:417-443 | the length the limit counts is one for every byte and one more for each from 0x80 up |
| RestoreComments.UndecidedHead | executor/backup.go:417-443 | a head without a decision ends with the byte that makes that count 256, or with the input |
| RestoreComments.HashSeparatedIsSkipped | executor/backup.go:500-588 | CREATE DATABASE and DROP DATABASE are dropped with a `#` comment between the two words that holds no marks of the other comments and no DEFINER= |
| RestoreComments.HashLedIsKept | executor/backup.go:500-588 | whatever a leading `#` comment of that kind leads is kept |
| RestoreComments.CommentedTableIsAccepted | executor/backup.go:291-374 | a dump is accepted if one of its statements is a comment of any of the three kinds, without quotes and the marks of those taken out before it, and CREATE TABLE behind it, within the limit |
| RestoreHeads.PlainHeadIff | executor/backup.go:417-484 | the filter's statement ends where the text's does, under every continuation, if and only if the head has no semicolon outside quotes and closes its quotes, or skips at the first such semicolon |
| RestoreHeads.OutputStatements | executor/backup.go:376-498 | for every input whose heads are of that kind, the statements of the output are the kept ones, one for one |
| RestoreHeads.NoUnwantedStatementSurvives | executor/backup.go:376-498 | then no statement of the output selects, creates or drops a database, or creates something for a definer |
| RestoreHeads.KeptHeadHidesIff | executor/backup.go:417-484 | a simple statement can pass as part of a kept one with this head if and only if the statement that the text has begun in the head is inside quotes, or goes on to it, or the head holds it already |
| RestoreHeads.PlainHeadHidesNothing | executor/backup.go:417-484 | behind a kept head without semicolons outside quotes that closes its quotes, no statement hides that the filter would drop |
| RestoreHeads.EmptyStatementCarriesUse | executor/backup.go:417-484 | a concrete dump: an empty statement carries a USE through the filter |
| RestoreHeads.FirstByteDecides | executor/backup.go:500-542 | a first byte settles a statement, always as kept, if and only if it cannot begin USE, CREATE or DROP and is no `#` or white space |
| RestoreHeads.CommentLedIsKept | executor/backup.go:500-588 | a statement led by a block or dash comment is kept, whatever the comment leads |
| RestoreHeads.CommentSeparatedIsKept | executor/backup.go:500-588 | a statement with such a comment after CREATE or DROP is kept |
| RestoreCheck.Validate | executor/backup.go:291-374 | for every cutting into reads, a dump is accepted exactly when a prefix of some statement, quoted text left out, reads as CREATE TABLE within the limit, and a read error is reported as such |
| RestoreCheck.Checker.Feed | executor/backup.go:306-355 | one byte keeps the final answer, in every lexer state |
| RestoreCheck.TableIsAccepted | executor/backup.go:291-374 | one statement that opens with CREATE and TABLE, in any case and spacing within the limit, is enough for a dump to be accepted |
| RestoreCheck.AcceptedSpellsCreate | executor/backup.go:544-588 | an accepted dump spells CREATE and TABLE outside quotes in one statement; removing comments cannot put a word together |
| Upgrades.Database.RunUpgrades | database/upgrades.go:420-538 | whatever statement fails or is the last before a crash, one call leaves the database in a state the start-up relation allows: chain position, rows, columns and attempts; it succeeds only for a database it knows how to place, and when nothing fails and every altered table exists exactly for such a one |
| Upgrades.Database.RunOne | database/upgrades.go:488-523 | one entry: its version row is written only after all its steps, and a stop leaves exactly what the steps done leave; creating a table adds nothing to one that exists |
| UpgradeRuns.UpgradeChainIsCrashSafe | database/upgrades.go:420-538 | any sequence of start-ups of an existing installation, beta ones included, each stopped anywhere, the migrations too: never taken for a fresh install, one history in list order, and after a success every pending upgrade recorded exactly once, what it adds present, the version latest |
| UpgradeRuns.RecordedInOrder | database/upgrades.go:488-523 | the recorded upgrades are those from the starting point to the next one, in list order, none twice |
| UpgradeRuns.RecordedNeverRunsAgain | database/upgrades.go:488-523 | after an upgrade is recorded every later attempt is at a later one |
| UpgradeRuns.StartKeeps | database/upgrades.go:420-538 | one start-up, stopped anywhere, keeps the run invariant and reaches the latest version when it succeeds |
| UpgradeRuns.MistakenIff | database/upgrades.go:384-471 | an installation without version rows, or at a beta version, can come to be taken for a fresh one if and only if the migrations or the first upgrade make the canary column |
| UpgradeRuns.FreshInstallRunsNothing | database/upgrades.go:439-457 | a fresh install is stamped with the latest version and runs no upgrade |
| UpgradeRuns.TableAfterChain | database/upgrades.go:488-523 | a table that exists gets from a chain of upgrades exactly the columns that its steps name: creating it again adds nothing |
| UpgradeList.MaintainedListIsSafeIff | database/upgrades.go:62-305 | the maintained list is well formed, and neither the migrations nor its first entry make the canary column exactly if the column is not there yet and its table exists or the schema lacks it |
| UpgradeList.BetaSkipsEveryUpgrade | database/upgrades.go:439-471 | a run from any beta installation without the canary table: interrupted once, it is stamped with the latest version and runs no upgrade |
| UpgradeList.OldInstallationIsMistaken | database/upgrades.go:439-457 | the same mistake for any database without version rows and without the canary table |
| UpgradeList.BetaIff | database/upgrades.go:414-416 | a version is a beta if and only if it has the four letters somewhere, in any case |
| PanelUpdateRun.ExecutePanelUpdate | executor/panel_update_runner.go:103-270 | at every crash point outside a rollback copy the installed path holds the complete old binary or a complete verified one, with backup and plan on disk while a new one is watched; only a later release that passes signature, checksum and preflight is installed, and without failing calls exactly such a one is; the plan names a copy of the live database as it was; a failure leaves the old binary unless the rollback copy failed |
| PanelUpdateRun.RunUpdateWatchdog | executor/panel_update_runner.go:316-374 | the plan goes only after a passed health check or a restored old binary, at every crash point; success is reported exactly when a check passes, otherwise the old binary is back unless the rollback copy failed; without failing calls the plan is gone and a broken database is replaced by its backup |
| PanelUpdateRun.UpdateAndWatch | executor/panel_update_runner.go:103-374 | the update, the start of the new version, which may change the database, and the watchdog keep the promise at every recorded moment and end with the new binary after a passed check, the old one otherwise; without failing calls a database broken by then holds again what it held at the start |
| PanelUpdateRun.RestoreDatabase | executor/panel_update_runner.go:1010-1026 | after a rollback an unusable database is replaced by its usable backup, the old binary staying installed |
| PanelUpdateRun.Download | executor/panel_update_runner.go:152-185 | the installed binary stays untouched, and a success means signature, checksum and preflight passed for these very bytes |
| PanelUpdateRun.BackUp | executor/panel_update_runner.go:194-212 | a success leaves copies of the old binary and of the live database, as they are at that moment, and touches nothing else |
| PanelUpdateRun.Stage | executor/panel_update_runner.go:195-240 | before the rename the old binary and the live database are backed up, the plan names both backups, and the staged copy equals the verified download |
| PanelUpdateRun.Swap | executor/panel_update_runner.go:241-259 | the rename and its two rollbacks keep the promise at every moment |
| PanelUpdate.Disk.Copy | executor/panel_update_runner.go:555-587 | copies piecewise, touches only the destination, and on success the destination equals the source |
| Versions.CompareVersions | executor/panel_update.go:49-89 | computes the comparison of the two version keys |
| Versions.ComparePreRelease | executor/panel_update.go:91-127 | computes the lexicographic comparison of maximal digit and non-digit runs |
| Versions.SplitAlphaNum | executor/panel_update.go:129-150 | computes the maximal runs |
| Versions.CompareAntisymmetric | executor/panel_update.go:49-159 | swapping the arguments swaps the sign, over all strings |
| Versions.CompareTransitive | executor/panel_update.go:49-159 | transitive over all strings, and strictly so when either step is strict, mixed numeric and alphabetic pieces included |
| Versions.EqualVersionsInterchange | executor/panel_update.go:49-159 | versions that compare equal are interchangeable in every comparison |
| Versions.PatchBumpIsNewer | executor/panel_update_runner.go:376-383 | without outer white space every patch bump compares as newer |
| Versions.PatchBumpIsNewerIff | executor/panel_update_runner.go:376-383 | for all strings a patch bump compares as newer if and only if it is not the case that white space keeps the comparison from reading the target's first number, other than 0, and not the current version's |
| Versions.StableTail | executor/panel_update.go:49-127 | for every version the policy test accepts, the comparison reads its three numbers, the first as 0 behind a line break or white space before a "v" |
| Versions.OuterSpaceMisleads | executor/panel_update_runner.go:873-891 | a concrete patch bump that compares as older |
| VersionOrder.NumbersDecide | executor/panel_update.go:49-78 | the first of the three numbers that differs decides, whatever the pre-releases; a missing number is zero, and so is one beyond 64 bits |
| VersionOrder.OnlyThreeNumbers | executor/panel_update.go:54-78 | versions with the same three numbers and the same pre-release are interchangeable, whatever numbers follow |
| VersionOrder.BelowReads | executor/panel_update.go:62-67 | within 64 bits numbers are in the order of their digits: fewer digits than one without a leading zero, or as many in textual order, make the smaller number |
| VersionOrder.LeadingVIsIgnored | executor/panel_update.go:50-51 | one leading "v" makes no difference |
| VersionOrder.ReleaseIsLater | executor/panel_update.go:69-87 | a release compares as later than each of its pre-releases, and as equal to itself with an empty one |
| VersionOrder.NumbersInOrder | executor/panel_update.go:91-127 | pre-releases that agree up to a run of digits are in the order of these numbers, as they are read |
| VersionOrder.Beta9BeforeBeta10 | executor/panel_update.go:91-127 | so "beta9" comes before "beta10" |
| VersionOrder.WordsInOrder | executor/panel_update.go:91-127 | where two pre-releases first differ and neither goes on with a digit, that character decides |
| VersionOrder.LongerIsLater | executor/panel_update.go:91-127 | a pre-release that goes on after the other ends is later, unless it only prolongs a number |
| VersionOrder.PatchBumpIff | executor/panel_update_runner.go:376-383 | between three-number versions a patch bump is a greater third number behind the same first two, all six within 64 bits |
| VersionOrder.NoBumpWithHyphen | executor/panel_update_runner.go:376-383 | nothing is a patch bump to or from a pre-release |
| FileTransfer.CopyTree | handlers/file.go:1791-1847 | unless the copy reaches into its own source: a success is the merge of both trees, the source and everything outside the destination is unchanged, nothing at the destination is lost, and without overwrite nothing that existed changes, even on failure; a destination inside the source is refused; without failing calls it succeeds where the kinds fit, also when it reaches into its source; the recursion ends for every pair of paths |
| FileTransfer.CopyDir | handlers/file.go:1802-1834 | the entries of a directory are merged one by one under the same promise |
| FileTransfer.CopyEntries | handlers/file.go:1824-1833 | the loop over the entries keeps that promise from entry to entry |
| FileTransfer.CopyFile | handlers/file.go:1835-1847 | a file is copied or refused by kind and policy under the same promise |
| FileTree.Disk.CopyOver | handlers/file.go:1879-1930 | replacing a file leaves it old, replaced, or saved beside its place, and touches nothing else |
| FileTree.Disk.CopyNew | handlers/file.go:1849-1877 | a new copy touches no existing node and on success equals the source |
| FileTree.Disk.MkdirAll | handlers/file.go:1806-1823 | only missing directories on the way to the destination are made |
| FileCopy.AllMerged | handlers/file.go:1824-1833 | merging every entry merges the directories |
| FileCopy.StepHarmless | handlers/file.go:1824-1833 | an entry whose copy failed leaves the whole copy harmless |
| FileMove.Resolve | handlers/file.go:1550-1619 | nothing is touched; every name becomes an item, is skipped by policy because the destination has it, or is reported; only the overwrite policy yields conflicting items; exactly the bad requests are invalid when look-ups work, a name that passes is not empty, not a dot name and without slashes, and otherwise a request is turned down only for a name that goes to itself or is not there |
| FileMove.Rename | handlers/file.go:1701-1707 | a rename moves the whole subtree or changes nothing, and without failing calls moves it to any vacant place |
| FileMove.RemoveTree | handlers/file.go:1632-1641 | a removal, even a partial one, takes nothing outside the subtree; it succeeds exactly for a present tree that does not resist, and then leaves nothing |
| FileHandlers.Move | handlers/file.go:1675-1751 | for every request in which no copy reaches into a source and nothing is replaced inside one, under every outcome and policy: each node below a moved source is at its source or its destination path, the destination's own content and everything elsewhere is kept, and after a success every requested item has arrived and left; once the items of a success have all left, as they have across sites and for a single name, nothing is lost if and only if the request is such a one; without obstacles it succeeds exactly when no call it depends on fails |
| FileHandlers.MoveWithin | handlers/file.go:1688-1711 | the same for the loop over the items of one site, however far it gets |
| FileHandlers.MoveAcross | handlers/file.go:1713-1750 | the same for copying all items to another site and then removing the sources |
| FileHandlers.MoveOver | handlers/file.go:1689-1700 | one item moved by copy and removal keeps what is promised of every item, those already moved included |
| FileHandlers.MoveFresh | handlers/file.go:1701-1707 | the same for one item moved by renaming |
| FileHandlers.MoveOne | handlers/file.go:1689-1708 | one item's step conserves it and every other item, and touches nothing outside its two paths when nothing is in its way |
| FileHandlers.CopyAll | handlers/file.go:1713-1736 | the copies of a cross-site move never touch a source of a sound request, and their cleanup neither; without obstacles they succeed exactly when every ownership can be repaired |
| FileHandlers.CleanUp | handlers/file.go:1643-1655 | removes copies that replaced nothing; sources, what the destination held and the rest stay |
| FileHandlers.RemoveSources | handlers/file.go:1738-1748 | each source goes once everything has arrived, and one that resists is reported |
| FileHandlers.Copy | handlers/file.go:1753-1785 | sources of a sound request are never touched, a success has every requested item at its destination, and the destination's other content survives unless an ownership repair fails; then the item is the first that cannot be repaired, its destination is gone whole, the items before it have arrived and the other old content is kept; without obstacles that happens exactly when some name cannot be repaired |
| FileHandlers.UpwardsMoveLoses | handlers/file.go:1689-1700 | Move run on a concrete disk without failures, up to an ancestor: it succeeds and a file is in neither place |
| FileHandlers.OldContentIsLost | handlers/file.go:1766-1781 | a concrete copy whose failed ownership repair removes a file that was only at the destination |
| ChunkedUpload.Upload | handlers/file.go:594-821 | over any order, repetition and failure of chunk requests, a completed upload is the file whose slices were sent if and only if its chunks can be counted in 64 bits, and empty otherwise; it completes if and only if every chunk has been stored at its right size, and not lost since by a failed rename, and its own calls succeed |
| ChunkedUpload.ExpectedChunks | handlers/file.go:424-429 | the count, with its overflow and its truncating division, is the number of chunks for every size that leaves room for one more chunk, and negative for every other |
| ChunkedUpload.AdmissibleIff | handlers/file.go:613-617 | as long as the count does not overflow, a session is opened if and only if the size is at most 20000 chunks of 5 MiB and the count is the one that just holds it |
| ChunkedUpload.LargestUploadIsEmpty | handlers/file.go:613-820 | the largest size with the count the server expects for it completes at once as an empty file |
| ChunkedUpload.Session.UploadChunk | handlers/file.go:667-725 | exactly a chunk of the right index and size is stored when the calls work; a failure keeps or loses the old one, as stated, but never leaves a wrong one |
| ChunkedUpload.Session.Complete | handlers/file.go:727-821 | succeeds exactly when all chunks are present and no call fails, and then the merged file has the declared size if and only if the chunks can be counted, and is empty otherwise |
| ChunkedUpload.MergedLength | handlers/file.go:771-820 | accepted chunks add up to the declared size at every point of the merge |
| ChunkedUpload.MergedIsPrefix | handlers/file.go:771-820 | merging the first chunks of a file gives its prefix |
| Fail2ban.BanTable.Sync | executor/fail2ban.go:385-542 | exactly the listed addresses all whose bans are closed get a new row, one each unless the insert fails, at the level their history calls for and in the first jail that listed them; an open row stays open exactly if it is live, or unexpired and manual or severe, or its update fails; and the pushed set is what the two web jails list with the open bans by hand or by a web jail, and no SSH ban |
| Fail2ban.BanTable.OpenRows | executor/fail2ban.go:422-474 | of the live addresses exactly those without an open row whose insert works get a new row, one each |
| Fail2ban.BanTable.Review | executor/fail2ban.go:476-534 | the loop over open rows computes the rows to close and the web addresses to keep |
| Fail2ban.BanTable.Record | executor/fail2ban.go:544-604 | a reported ban adds one row at the next level exactly for a valid address whose insert works, in the named jail if it is one of the three, else in the one found, else in the first |
| Fail2ban.PushedSetMatchesTable | executor/fail2ban.go:476-541 | an address is pushed if and only if it is live in a web jail or has a row still open afterwards with a web source |
| Fail2ban.MissedOpenRowIffStuck | executor/fail2ban.go:536-541 | no open web row is missed if and only if every row whose closing update failed is pushed for another reason |
| Fail2ban.StuckRowIsMissed | executor/fail2ban.go:536-541 | a concrete reconciliation that pushes nothing while a web ban's row stays open |
| Fail2ban.ToCloseMembers | executor/fail2ban.go:476-534 | exactly the unjustified open rows are closed |
| Fail2ban.WebOpenMembers | executor/fail2ban.go:476-534 | exactly the justified open rows with a web source are kept for nginx |
| Fail2ban.OtherRowsDoNotMatter | executor/fail2ban.go:634-650 | rows of other addresses change neither an address's next level nor whether it has an open row |
| BanLadder.LadderOverRuns | executor/fail2ban.go:385-604 | over any run of reported bans and reconciliations, whatever is closed and whoever else is banned in between, bans of an address without history less than a day apart have levels 2, 3, 3 and then 5 for ever |
| BanLadder.LevelsNeverDecrease | executor/fail2ban.go:385-604 | over such a run the levels of the address never go down |
| BanLadder.BansGetLonger | executor/fail2ban.go:544-604 | in such a run the first ban lasts ten minutes, the second and third a day, and every later one for ever |
| BanLadder.NextBan | executor/fail2ban.go:634-655 | the next ban, counted out over all rows ever written: level 2 for 600 seconds without a ban in the last 24 hours, else level 3 for 86400 seconds, or level 5 for ever if two of the last 30 days were severe |
| BanLadder.NextLevelSame | executor/fail2ban.go:634-650 | closing rows changes no address's next level |
| BanLadder.StaysOpenIff | executor/fail2ban.go:476-541 | a ban is open after a run if and only if every reconciliation in it finds it live, or unexpired and manual or severe, or fails to close it; nothing else about it changes, and none is opened again |
| BanLadder.PermanentBansSurvive | executor/fail2ban.go:476-541 | a permanent ban survives every run |
| NginxBan.ReadBack | executor/nginx_ban.go:64-149 | reading back a rendered listing returns exactly its members |
| NginxBan.SortedEntries | executor/nginx_ban.go:129-149 | the sorted entries list exactly the valid banned members |
| NginxBan.ListingIsUnique | executor/nginx_ban.go:129-149 | a set has one listing, so the generated file depends on the set alone |
| NginxBan.EntryBans | executor/nginx_ban.go:64-149 | one printed entry reads back as its address |
| NginxBan.OnlyOneBans | executor/nginx_ban.go:64-88 | a line with a valid address bans it if and only if its value is 1 |
| NginxBan.RenderedText | executor/nginx_ban.go:129-149 | the generated file to the letter |
| NginxBanFile.BanFile.Read | executor/nginx_ban.go:64-88 | the reading loop computes the set of the file |
| NginxBanFile.BanFile.Write | executor/nginx_ban.go:90-127 | the outcome is determined call by call: a success leaves the generated file of the valid banned members, and a rejected one leaves the file as it was if and only if the old one had been read and is put back, or there was none and the new one goes, or what a failed call leaves is the old text |
| NginxBanFile.BanFile.Update | executor/nginx_ban.go:44-62 | on any existing file a success changes the banned set by exactly the one address, an error before the new file is in place changes nothing, and a rejected file is undone under the same condition; with all calls working the edit succeeds |
| NginxBanFile.BanFile.Replace | executor/nginx_ban.go:38-42 | a replaced set is the one that nginx then bans, under the same condition when it is rejected |
| NginxBanFile.RejectedEditRemovesFile | executor/nginx_ban.go:90-127 | a concrete edit: the file is there and read for its addresses but not for its text, nginx rejects the new one, and no file is left |
| NginxBanFile.AddThenRemove | executor/nginx_ban.go:18-62 | adding an unbanned address and removing it restores the set |
| TaskQueue.CountIsUnretired | executor/queue.go:39-187 | under any interleaving the count is the number of tasks registered and not retired |
| TaskQueue.ReachableStatesAreSound | executor/queue.go:60-187 | at most one task runs, a result channel gets one value and it is the result, a snapshot has a result exactly when its status is terminal, and the running flag is up exactly while the worker has begun a task |
| TaskQueue.ResultIsTheExecutors | executor/queue.go:86-187 | over any run a snapshot shows a result if and only if an execution of that very task has ended with it, returned or made of a panic, and the worker has published it; the status is success exactly for a returned success, and the channel holds that result or nothing |
| TaskQueue.SnapshotTellsPlace | executor/queue.go:39-187 | exactly the registered tasks can be looked up; one waits until its execution begins and runs from then on until its result is published |
| TaskQueue.StartOrderIsChannelOrder | executor/queue.go:39-187 | tasks start in the order in which they entered the channel |
| TaskQueue.StatusesOnlyMoveForward | executor/queue.go:86-187 | over any run statuses only move forward and a terminal task never changes |
| TaskQueue.DeliveryNeverBlocks | executor/queue.go:86-187 | the worker's send into the result channel never blocks, also after a panic |
| TaskQueue.WorkerAlwaysHasANextStep | executor/queue.go:86-187 | the worker is never stuck while there is work |
| RateLimit.RewriteDirectives | executor/rate_limit.go:251-290 | the two loops compute the specified rewriting |
| RateLimit.CountBraces | executor/rate_limit.go:292-303 | the loop computes the brace balance |
| RateLimit.LastWriterWins | executor/rate_limit.go:251-290 | rewriting a rewritten text equals rewriting the original, through split and join: repeating changes nothing and disabling undoes enabling |
| RateLimit.CleanUndoesInject | executor/rate_limit.go:251-290 | stripping what was injected gives the stripped lines back |
| RateLimit.OtherLinesSurvive | executor/rate_limit.go:251-290 | every line that is not the rewriter's own survives, in order |
| RateLimit.OneInjectionPerBlock | executor/rate_limit.go:263-288 | between two injections a new server block opens |
| RateBlocks.EveryBlockIsLimited | executor/rate_limit.go:263-303 | in a file made of server blocks and lines outside them each block with a server name gets, below its first one, exactly the limits that are on, the one per address first, and nothing else is added |
| RateBlocks.OldLimitsGo | executor/rate_limit.go:251-290 | what the rewritten file says about the two zones or the status are the new lines, and lines that mention none of the three stay |
| RateLimit.BuiltSettingsAreProper | executor/rate_limit.go:222-235 | the directive lines the caller builds are owned by the rewriter and single lines |
| RateLimitFiles.NginxFiles.Apply | executor/rate_limit.go:46-74 | it applies exactly when the wanted files can be written and nginx takes the result; every file is then determined by what it was and what fails; a rollback leaves every file as it was if and only if each is saved readable or absent and can be put back, or was not changed |
| RateLimitFiles.NginxFiles.BackUp | executor/rate_limit.go:174-195 | every path is saved as it is, unreadable files as absent |
| RateLimitFiles.NginxFiles.Restore | executor/rate_limit.go:197-206 | every saved file is put back as saved, one that could not be read removed, one that cannot be written left as the failed call leaves it; others stay |
| RateLimitFiles.NginxFiles.RewriteSites | executor/rate_limit.go:222-249 | every listed site that can be read and written holds the rewriting of its old text, the rest theirs |
| RateLimitFiles.UndoableIff | executor/rate_limit.go:174-249 | when what is put back can be, a rollback undoes everything if and only if no saved file existed unread and the sites, unless listed for the backup, were left alone by the rewriting |
| RateLimitFiles.UnreadFileIsRemoved | executor/rate_limit.go:174-206 | a first failing input: a rejected change removes a file that could not be read |
| RateLimitFiles.LateSiteStaysRewritten | executor/rate_limit.go:174-249 | a second one: a site listed only for the rewriting stays rewritten after the rollback |
| Multipart.PartSize | executor/remote_sync.go:450-460 | the part size is within the service's limits, enough for ten thousand parts, and no larger than needed |
| Multipart.PutMultipart | executor/remote_sync.go:418-448 | a completed upload's parts are numbered from one, contiguous, cover the file, and meet the limits on count and size, within 64-bit arithmetic; it completes if and only if no request that it makes fails |
| Multipart.PutFileToS3 | executor/remote_sync.go:331-357 | every file is refused, sent whole within the limit, or cut into such parts |
| Multipart.EveryByteOnce | executor/remote_sync.go:418-448 | every byte belongs to exactly one part |
| Multipart.PartsConcatenate | executor/remote_sync.go:418-448 | the parts concatenate to the file |
| ConfigEdit.ReplaceIniValue | handlers/software.go:433-448 | the loop computes the specified edit |
| ConfigEdit.ReplaceNginxValue | handlers/software.go:450-478 | the loop computes the specified edit |
| ConfigEdit.ReplaceRedisValue | handlers/software.go:480-511 | the loops compute the specified edit |
| ConfigEdit.IniGetPut | handlers/software.go:433-527 | on every text, finding a key after replacing it yields the new value |
| ConfigEdit.IniPutPut | handlers/software.go:433-448 | on every text, replacing twice equals replacing once with the last value |
| ConfigEdit.RedisGetPut | handlers/software.go:480-544 | on every text, finding a key after replacing it yields the new value |
| ConfigEdit.RedisPutPut | handlers/software.go:480-511 | on every text, replacing twice equals replacing once with the last value |
| ConfigEdit.NginxGetPut | handlers/software.go:450-557 | on every text, finding a key after replacing it yields the new value |
| ConfigEdit.NginxPutPut | handlers/software.go:450-478 | on every text, replacing twice equals replacing once with the last value |
| ConfigLines.IniEdit | handlers/software.go:433-448 | every line that sets the key is replaced, duplicates included, and no other changes; a new setting goes to the end below a note |
| ConfigLines.NginxEdit | handlers/software.go:450-478 | every line that sets the key is replaced behind its own indentation, and no other changes; a new setting goes right below the first line that opens the http block, or to the end |
| ConfigLines.RedisEdit | handlers/software.go:480-511 | stray lines go; of the others only the first that sets the key is replaced; a new setting goes to the end below a note |
| ConfigLines.IniRead | handlers/software.go:513-527 | what is found is the trimmed text behind the first equals sign of the first line that sets the key and is no comment |
| ConfigLines.RedisRead | handlers/software.go:529-544 | what is found is the word behind the key, or behind an equals sign that stands alone |
| ConfigLines.NginxRead | handlers/software.go:546-557 | what is found is the second word without its closing semicolon |
| ConfigKeys.IniOtherKey | handlers/software.go:433-527 | on every text, replacing one key changes no other's value |
| ConfigKeys.RedisOtherKey | handlers/software.go:480-544 | replacing one key leaves every other's value, but for maxmemory where a stray assignment is cleared away |
| ConfigKeys.StrayValueIsLost | handlers/software.go:480-544 | a concrete text whose maxmemory is found before any other key is edited, and not after |
| ConfigKeys.NginxIndependentIff | handlers/software.go:450-557 | no edit of one key changes what is found for another, on any text, if and only if neither is a prefix of the other |
| AlertMonitor.AlertRule.Check | executor/alert_monitor.go:90-150 | an alert is raised exactly when the condition becomes sustained over the whole history of checks, a recovery recorded exactly when an enabled rule's stops being so, and repeats keep their interval |
| AlertMonitor.AlertRule.SustainedFiring | executor/alert_monitor.go:153-169 | the pending time starts, stays and clears as specified, and decides against the threshold |
| AlertMonitor.StreakStep | executor/alert_monitor.go:153-169 | the one remembered time stands for the whole unbroken run of true checks |
| AlertMonitor.SustainedIff | executor/alert_monitor.go:153-169 | a condition is sustained if and only if it has held from some check on that is at least the threshold before the last one |
| AlertMonitor.Run | executor/alert_monitor.go:74-151 | over any run of checks the alerts and recoveries are those of the history, an alert that goes on is repeated exactly when every notification before is more than a day ago for the two update alerts and half an hour for the others, and a recovery announced exactly when the rule has no threshold or every one is more than five minutes ago |

## Left out

- FileTransfer.CopyTree: when the copy reaches into its own source, only that nothing outside the destination changes and that the copy ends is stated, because the copy then rewrites the tree it reads.
- FileHandlers.Move: for several names within one site, that an unsound request loses something is stated for the runs in which all sources are gone at the end; a later copy may have filled an earlier source again, and then what it put there is not lost.
- RestoreHeads.NoUnwantedStatementSurvives: one way over whole inputs; head by head the condition is exact.
- FileTree.Disk.CopyOver: states the outcomes of a replacement, not the states between its system calls.
- PanelUpdateRun.RunUpdateWatchdog: one update and its watchdog; the watchdog of an earlier update may remove the plan of a later one, which is not modelled.
- Upgrades.Database.RunUpgrades: statements are data with the columns and tables they create; SQL text is not parsed, a migration function is one step that may fail halfway, and row time stamps are taken not to decrease.
- Fail2ban.BanTable.Sync: one clock; jail status text, the nftables set, rows that fail to scan and failing history queries are not modelled.
- Multipart.PutMultipart: the configured default part size is taken to be at most the service's 5 GiB.
- RateLimitFiles.NginxFiles.Apply: the text of the generated zone files is a parameter.
- ChunkedUpload.Session.Complete: session expiry, file names and the final hash are not modelled.
- TaskQueue.ReachableStatesAreSound: task ids are taken to be unique; executors are opaque.
- The lock files around the ban file, the chunk session and the panel update: calls are taken to be exclusive.
- Symbolic links, permissions, owners and disk space.
- Alert conditions, message texts and delivery.
- The lenient regex-based editing of wp-config, templates, site creation and domain changes, settings pages, remote storage requests and their signatures, cryptography.
- The waiting logic of automatic updates.

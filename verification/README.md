# Harrier's storage and coordination layer, modelled in Dafny

Harrier keeps one person's job search in a database, in files and in backups of
both. This project models the code that moves that data and proves what it is
relied on for: what a transaction keeps on either database, that two kernels
never open one SQLite file, that concurrent opens migrate it once, that the file
store keeps owners apart, that backups, restores and imports lose and overwrite
nothing, and that retention, restore and cutover survive failures part way.

`dafny verify dfyconfig.toml` checks everything.

## The parts

| file | subject |
|---|---|
| NestedTransactions, Savepoints | what nested `transaction()` blocks mean, and the stack of savepoints under them |
| SqliteSeam, PostgresSeam, SeamAgreement | the two backends, statement by statement, against that meaning and against each other |
| TextbookBlocks | what both come to when no statement that manages a block fails, said without them |
| KeyedWrite | `update_or_insert` with other writers at the same key |
| SqlRegions, StatementReader, FirstWord | the hand-written SQL scanners against grammars |
| HostLease, LeaseFiles | who may open the live database: every interleaving of the steps, and the code of one process |
| Migration | `_apply_schema` run by any number of processes |
| HostedStore, PrefixWalk, AccountErasure | object names, the store's operations, listing and emptying a prefix, and what that is to an account |
| HostedAccount, BackupDisk, FilesBackup, FilesRestore | the incremental backup with hard links, and the restore |
| OverlappingRuns | every interleaving of any number of backup runs over one disk |
| ArtifactImport, ArtifactCounts | the create-only import, its counts, and the waits for a 429 |
| Retention, RestoreDance, Cutover | pruning over histories, the rename dance, the resumable sequence |
| Options, Alphabets | a value that may be missing; letters and digits |

Code that updates fields is a class with those fields and loops are loops. A
method's `ensures` ties the new state to a value, and lemmas prove what the
source promises about that value. A statement, a request, a rename or a process
that may fail takes its outcome as a parameter or from an arbitrary choice, so a
contract holds for every pattern of failures, and a death is one of the outcomes.
Where a method takes `reliable`, it is also proved to end in order when nothing
fails.

## What the code does not quite promise

Some properties one would expect are false of the code as it is. Each has its
exact condition, or a concrete run and the condition under which it holds.

- A raising block's work is not always undone: `_quietly` swallows a failed
  ROLLBACK TO on SQLite, and an enclosing block that catches the error commits
  the work (`RaisingBlockUndoneIff`, `FailedUndoKeepsTheWork`).
- The savepoint queue does not always list the open blocks, as its comment says:
  a nested block refused the write lock leaves its name
  (`QueueListsOpenBlocksIff` at every point of a run, `RefusedLockLeavesAName`).
  No commit is affected: `Exec` is proved with such names in the queue.
- The two stores differ on a program that catches an error in the block it
  happened in (`StoresAgree`, `CaughtInItsBlockTheyDiffer`).
- "No pid is reused between `remove_dead`'s judgement and its unlink" does not
  protect a lease: one written in that time is unlinked
  (`LeaseWrittenAfterAJudgementIsLost`). Leases stand exactly in the runs in which
  no clean-up unlinks one that a living process relies on (`LeasesStandIff`), as
  when judging and unlinking are one step (`AtOnceTakesNone`). In those the two
  sides never meet (`NeverBothOpen`); after any other they can
  (`TakenLeaseLetsBothIn`).
- The backup index can lie after runs that overlap, of one day or of two
  (`RunsOfOneDayLie`, `RunsOfTwoDaysLie`). What everybody says of the files stays
  true exactly when no run puts other bytes than the object's where a saved index,
  another run's record or a copy another run counts on says the object is
  (`AlwaysSoundIff`, `HarmEndsInAFalseIndex`); runs one at a time never do
  (`OneAtATimeIsHarmless`, `Runs`).
- `_link` leaves its temporary name behind when the target already is the linked
  file, as in a rerun after a kill; `restore-files` then counts it not written
  (`Disk.Link`, `BackupThenRestore`).
- `restore_backup` into an absent target removes, or moves into the target, what
  already stood at the `.replaced-` name of that second (`Place.Restore`).
- A backup killed between writing and verifying, or one that fails and cannot
  delete its partial archive (`backup.py:284`), leaves an archive that counts in
  retention. When the next prune loses a good one for it is said exactly
  (`PartialCostsNothingIff`, `Directory.BackupAfterAPartialOne`).
- `update_or_insert` inside another block, whose own RELEASE fails, raises with the
  row written; the block around it undoes it (`WriteInside`).
- A cutover whose install worked and whose progress record then could not be
  written reloads the old jobs beside the new schedule, and the next invocation
  installs again (`RunCutover` says exactly when; `BothSchedulesInPlace`).

## Assumptions

- The seam: a SAVEPOINT sent directly after BEGIN IMMEDIATE works; any other
  statement works, fails alone or loses the transaction.
- Ownership: each process is one thread, `ps` answers correctly, an unreachable
  engine means the container is not running, stopping the container closes its
  connections, and a process closes its connections before its lease goes at exit.
- The store: SHA-256 in hex is 64 hex digits; what two keys with
  one hash come to is proved (`ObjectNamesEqualIff`), not assumed away. Every
  hosted write takes a version never used before: the version holds the entity tag
  and the update time.
- The backup root holds one account's objects, and temporary names are fresh.
- Cutover: launchctl answers with a code and that code is true; nobody else
  loads the old jobs meanwhile.

## Model

| member | source | states |
|---|---|---|
| NestedTransactions.KeepsExactlyTheNormalBlocks | services/api/src/harrier/connection.py:1492-1581 | At every end of every program of nested blocks, reads, writes, raises and caught errors, what the database gained is exactly the changes whose enclosing blocks all exited normally, provided no savepoint statement fails alone |
| NestedTransactions.KeepsAfterwards | services/api/src/harrier/connection.py:1492-1581 | The same said of a run that goes on after what it has already done |
| NestedTransactions.GivenUpStays | services/api/src/harrier/connection.py:1012-1020 | Once the store gave up on a transaction no later statement or block brings it back |
| NestedTransactions.Unbegun | services/api/src/harrier/connection.py:935-956 | A program that leaves the transaction unbegun has changed nothing |
| NestedTransactions.RaisingBlockUndoneIff | services/api/src/harrier/connection.py:1566-1577 | A nested block that raises leaves the database it was given if and only if its body changed nothing or its ROLLBACK TO worked |
| NestedTransactions.FailedUndoKeepsTheWork | services/api/src/harrier/connection.py:1571-1574 | A concrete program in which a swallowed ROLLBACK TO failure keeps the work of a block that raised, and the enclosing block exits normally |
| Savepoints.ReleaseInnermost | services/api/src/harrier/connection.py:1578-1581 | Releasing a block's savepoint leaves every outer block's savepoint standing, stale names of refused blocks notwithstanding |
| Savepoints.ForgetInnermost | services/api/src/harrier/connection.py:1004-1010 | Removing a block's name from the queue, first occurrence first as a list does, leaves every outer block queued |
| Savepoints.ExactQueueIsInOrder | services/api/src/harrier/connection.py:919-921 | A queue that covers n open blocks with n names lists them in order, outermost first |
| Savepoints.PushOpen | services/api/src/harrier/connection.py:995-999 | A new savepoint on top makes its block undoable and leaves the outer ones so |
| SqliteSeam.SqliteConnection.BeginWriting | services/api/src/harrier/connection.py:957-963 | BEGIN IMMEDIATE and, in the same moment, a savepoint for each queued block on the database of that moment, which no other connection has changed since the block was entered; refused, nothing changes |
| SqliteSeam.SqliteConnection.ExecuteRead | services/api/src/harrier/connection.py:935-938 | A read means what the abstract read means and never begins a transaction |
| SqliteSeam.SqliteConnection.ExecuteWrite | services/api/src/harrier/connection.py:935-941 | A write begins first when nothing has, and a transaction a block begins holds the write lock |
| SqliteSeam.SqliteConnection.OpenNested | services/api/src/harrier/connection.py:995-1002 | Opening a nested block: savepoint, queue or refusal, exactly as the meaning says |
| SqliteSeam.SqliteConnection.UndoSavepoint | services/api/src/harrier/connection.py:1571-1574 | ROLLBACK TO and RELEASE with their errors swallowed restore the block's entry exactly when the first works and neither loses the transaction |
| SqliteSeam.SqliteConnection.CloseRaised | services/api/src/harrier/connection.py:1571-1577 | The end of a nested block that raised |
| SqliteSeam.SqliteConnection.CloseNormally | services/api/src/harrier/connection.py:1578-1581 | The end of a nested block that did not raise, refused when the store gave up |
| SqliteSeam.SqliteConnection.Exec | services/api/src/harrier/connection.py:1450-1581 | The lazy backend refines the meaning of nested blocks: same raise, same answers read, same database seen, nothing committed, the write lock held through every transaction it begins, and every refused write lock counted |
| SqliteSeam.SqliteConnection.BeginBlock | services/api/src/harrier/connection.py:979-993 | The outermost block begins, adopts the module's transaction, or is refused, and that exactly when it asks for the write lock and is not given it, or asks inside an adopted transaction without it |
| SqliteSeam.SqliteConnection.FinishBlock | services/api/src/harrier/connection.py:1584-1616 | COMMIT, ROLLBACK or give up; nothing of a raising block is committed |
| SqliteSeam.SqliteConnection.Transaction | services/api/src/harrier/connection.py:1584-1616 | A whole outermost block commits what its meaning says from the driver's own state, and only at its normal exit; it is refused untouched exactly when it asks for the write lock and is not given it, or asks inside an adopted transaction without it |
| SqliteSeam.SqliteConnection.ExecuteOutside | services/api/src/harrier/connection.py:942-956 | After a write outside any block the flag says the lock is held exactly when it is |
| SqliteSeam.WholeKeepsExactlyTheNormalBlocks | services/api/src/harrier/connection.py:897-916 | A whole block that commits has added exactly the changes of its normally exited blocks; one that raises has committed nothing |
| SqliteSeam.QueueListsOpenBlocksIff | services/api/src/harrier/connection.py:995-1002 | At every point inside a block that has not begun, however deep, the queue lists the blocks open there in order if and only if no block inside it has been refused the write lock so far; the count of refusals is kept by the steps themselves (`InBlocks`, `OpenNested`) |
| SqliteSeam.RefusedLockLeavesAName | services/api/src/harrier/connection.py:999-1001 | A concrete run, on the code's own steps, that leaves a closed block's name in the queue |
| PostgresSeam.PgDriver.RollbackTo | services/api/src/harrier/connection.py:1571-1574 | The one statement that works in the failed state, and ends it |
| PostgresSeam.PgDriver.Commit | services/api/src/harrier/connection.py:1216-1218 | COMMIT in the failed state is answered without an error and keeps nothing |
| PostgresSeam.PostgresConnection.Exec | services/api/src/harrier/connection.py:1450-1581 | The eager backend refines the meaning of a program in Postgres's transactions |
| PostgresSeam.PostgresConnection.Transaction | services/api/src/harrier/connection.py:1136-1216 | A whole block commits what its meaning says, nothing on a failed state or a broken connection, and leaves a driver that was not idle untouched |
| SeamAgreement.LateBeginIsEagerBegin | services/api/src/harrier/connection.py:897-916 | For every program whose late begin hides nothing (`LateBeginUnseen`: the lock is given when asked for or the write refused all the same, no unbegun read loses a transaction, the savepoint statements not sent would have worked), beginning late is beginning at once: same exits, same answers, same database at every point |
| SeamAgreement.SameRun | services/api/src/harrier/connection.py:1202-1211 | Where each error leaves its block and the late begin hides nothing (`ErrorsLeaveTheirBlock`, `LateBeginUnseen`), the two backends go through a program alike, Postgres's failed state being cleared at the end of the block the error left |
| SeamAgreement.StoresAgree | services/api/src/harrier/connection.py:1584-1616 | Both backends end a whole block with the same committed database and the same normal or raised end when each error leaves the block it ran in, the late begin hides nothing (`ErrorsLeaveTheirBlock`, `LateBeginUnseen`), and the block began or Postgres's COMMIT, which SQLite then has nothing to do for, works |
| SeamAgreement.CaughtInItsBlockTheyDiffer | services/api/src/harrier/connection.py:1202-1211 | A concrete program that catches an error in its own block and ends differently on the two stores |
| TextbookBlocks.RunIsPlain | services/api/src/harrier/connection.py:1450-1581 | An independent meaning that knows no store: each raise is caught or leaves, and a block that raises puts the database back. While the lock is given and no statement that manages a block fails, this is what a program comes to on SQLite wherever in a transaction it runs, refused statements included: its raise, its answers, its database |
| TextbookBlocks.RunPgIsPlain | services/api/src/harrier/connection.py:1450-1581 | And on Postgres, when every statement works |
| TextbookBlocks.WholeIsPlain | services/api/src/harrier/connection.py:1584-1616 | A whole block on SQLite then commits what that leaves and does not raise, or raises and commits nothing, exactly as it says |
| TextbookBlocks.WholePgIsPlain | services/api/src/harrier/connection.py:1136-1216 | So does one on Postgres |
| TextbookBlocks.CommitsOnSqlite | services/api/src/harrier/connection.py:979-993 | The connection itself, idle on an idle driver with the lock free, immediate or not |
| SqlRegions.QuotedComplete | services/api/src/harrier/connection.py:469-485 | The quote scanner reads every quoted text of the grammar, doubled and escaped quotes included, to its end |
| SqlRegions.QuotedSound | services/api/src/harrier/connection.py:469-485 | What the quote scanner reads is a quoted text of the grammar |
| SqlRegions.CommentComplete | services/api/src/harrier/connection.py:488-505 | The counting scanner closes exactly one level of every comment of the nesting grammar, at any depth |
| SqlRegions.CommentSound | services/api/src/harrier/connection.py:488-505 | What it closes is a comment of the grammar |
| SqlRegions.BlockCommentEnd | services/api/src/harrier/connection.py:488-505 | The loop over an index returns the end the grammar gives, or the end of the text |
| SqlRegions.FindIs | services/api/src/harrier/connection.py:542-549 | Where a text is first found, and that it is not found before |
| StatementReader.StepIs | services/api/src/harrier/connection.py:509-565 | One branch of the scanner reads a region exactly when the independent grammar lets that region stand there |
| StatementReader.ReadsExactlyTheGrammar | services/api/src/harrier/connection.py:509-565 | The scanner accepts a text, with these regions, if and only if the grammar reads the text as these regions |
| StatementReader.OneReading | services/api/src/harrier/connection.py:509-565 | The grammar has one reading of a text at most |
| StatementReader.PsycopgReadsBack | services/api/src/harrier/connection.py:509-521 | psycopg's own reading of the output gives a parameter exactly at each placeholder and every other region's characters as they are |
| StatementReader.RoundTrip | services/api/src/harrier/connection.py:509-521 | Every accepted SQL text reaches the server as it was written: psycopg's tokens stand for its characters one by one, a parameter exactly at each of its placeholders and nowhere else, and as many as are counted |
| StatementReader.JoinedIsTheText | services/api/src/harrier/connection.py:509-565 | The regions of a text make up the text |
| StatementReader.QuotedEnd | services/api/src/harrier/connection.py:469-485 | The loop over an index returns the end of the quoted region, a last backslash included |
| StatementReader.RegionEnd | services/api/src/harrier/connection.py:522-563 | Every branch moves the index forward by the region's length, or refuses the text |
| StatementReader.ReadStatement | services/api/src/harrier/connection.py:509-565 | One pass, always advancing, gives the statement and the number of `?` the grammar gives |
| StatementReader.RefusedOnlyForAPair | services/api/src/harrier/connection.py:547-558 | A text is refused only where a colon meets a letter or an underscore, or a question mark a digit, a bar or an ampersand |
| StatementReader.OrdinaryText | services/api/src/harrier/connection.py:553-563 | Where nothing opens a quote or a comment every question mark is a placeholder |
| StatementReader.QuotesHide | services/api/src/harrier/connection.py:537-541 | Between quotes it is not, in a literal or a quoted name |
| StatementReader.LineCommentHides | services/api/src/harrier/connection.py:532-534 | Nor up to the end of a line comment |
| StatementReader.BlockCommentHides | services/api/src/harrier/connection.py:535-536 | Nor in a block comment |
| StatementReader.DollarQuoteHides | services/api/src/harrier/connection.py:542-546 | Nor in a dollar quote |
| StatementReader.EscapeIff | services/api/src/harrier/connection.py:537-539 | A quote opens an escape string exactly after an E of either case that is not the end of a longer name |
| StatementReader.CharactersAre | services/api/src/harrier/connection.py:456-457 | The characters of a name and of a tag, spelled out |
| FirstWord.LandsOnTheWord | services/api/src/harrier/connection.py:810-837 | Whatever gaps of the reading stand in front, nested comments included, the scanner lands on the word |
| FirstWord.SkipsOnlyGaps | services/api/src/harrier/connection.py:810-837 | What it skips is gaps of the reading and nothing else |
| FirstWord.WordAtIs | services/api/src/harrier/connection.py:840-851 | The word found is the word behind gaps, and the other way round |
| FirstWord.RefusesExactlyControl | services/api/src/harrier/connection.py:875-894 | A statement is refused exactly when its first word spells one of the eight control words, each letter in either case, or its first two spell PREPARE TRANSACTION, under either reading |
| FirstWord.NextWordAt | services/api/src/harrier/connection.py:810-837 | The loop over an index lands where the reading says |
| FirstWord.FindFirstWords | services/api/src/harrier/connection.py:840-851 | The first two words, lower case, under one reading |
| FirstWord.ControlsTheTransaction | services/api/src/harrier/connection.py:875-894 | True exactly for the control statements of SQLite's or of Postgres's reading |
| FirstWord.LowerSpells | services/api/src/harrier/connection.py:843-851 | The lower case the scanner takes of a word is a word of letters just when it spells that word |
| FirstWord.CharactersAre | services/api/src/harrier/connection.py:804-806 | What may stand before a word, the characters of a word and the ends of a line, spelled out |
| FirstWord.BlanksAreSkipped | services/api/src/harrier/connection.py:820-821 | Each of those characters is skipped |
| FirstWord.LinesAreSkipped | services/api/src/harrier/connection.py:822-828 | So is a line comment, which for Postgres ends at a carriage return too |
| FirstWord.CommentsAreSkipped | services/api/src/harrier/connection.py:829-834 | And a block comment |
| KeyedWrite.Store.Update | services/api/src/harrier/connection.py:1722-1724 | One row or none; refused in the failed state; a row touched is held |
| KeyedWrite.Store.InsertInABlock | services/api/src/harrier/connection.py:1725-1728 | A refused insert leaves the transaction usable and as it was, because its block rolls back to a savepoint; where the RELEASE at its normal exit fails the error is raised and the row stays for the block around it to undo |
| KeyedWrite.Store.UpdateOrInsert | services/api/src/harrier/connection.py:1701-1730 | Up to the normal exit of its own block: a normal end means the row has the values and is held; a raise keeps nothing. With every statement working it returns, whatever others commit between its statements, unless on Postgres the row, not held, is gone for the update, put there before the insert and removed again before the second update |
| KeyedWrite.Store.WriteInside | services/api/src/harrier/connection.py:1722-1730 | Inside another block: returns under the same condition; only where its own RELEASE fails can a raise leave the row changed, for that block to undo |
| KeyedWrite.Store.WriteAlone | services/api/src/harrier/connection.py:1722-1730 | As an outermost block: returns and commits the values under the same condition; or the error is raised and the committed row is as other people left it |
| HostLease.StepKeepsApart | services/api/src/harrier/db.py:191-217 | No step lets a host process past the engine's answer meet a container process past a clear look |
| HostLease.StepKeepsInvariant | services/api/src/harrier/hostlease.py:85-154 | Every step of every process, crashes, pid reuse and clean-up included, keeps the invariant |
| HostLease.RunKeepsInvariant | services/api/src/harrier/hostlease.py:85-154 | So does every run |
| HostLease.LeasesStandIff | services/api/src/harrier/hostlease.py:140-154 | Of all runs, those in which every living holder's lease stands at every state are exactly those in which no clean-up unlinks a lease that a living process relies on (a refused one does not) |
| HostLease.NeverBothOpen | services/api/src/harrier/db.py:191-236 | In every state reached without a clean-up unlinking a living lease no host process has the database open while a container process does, and a process that was refused has left no lease |
| HostLease.TakenLeaseLetsBothIn | services/api/src/harrier/hostlease.py:140-154 | After any clean-up that takes a lease relied on, from any state reached, some run that takes no other ends with both sides in the database |
| HostLease.AtOnceTakesNone | services/api/src/harrier/hostlease.py:140-154 | A run in which every judgement is followed at once by its unlink takes none |
| HostLease.LeaseWrittenAfterAJudgementIsLost | services/api/src/harrier/hostlease.py:140-154 | A concrete run in which a lease written under a pid already judged dead is unlinked and both sides open the database; no pid changes hands after the judgement |
| LeaseFiles.Directory.WriteLease | services/api/src/harrier/hostlease.py:85-107 | The process's lease stands under its pid whatever was there |
| LeaseFiles.Directory.RemoveDead | services/api/src/harrier/hostlease.py:140-154 | Exactly the dead leases go; live and unreadable files stay |
| LeaseFiles.Directory.OldestHold | services/api/src/harrier/hostlease.py:157-176 | None exactly when no other file is there, unknown when none can be read, else the oldest lease |
| LeaseFiles.Program.CheckOnHost | services/api/src/harrier/db.py:191-217 | Let through, exactly when it holds its lease already or the engine says no container runs, with a lease; or refused with none left; and no other lease touched |
| LeaseFiles.Program.CheckInContainer | services/api/src/harrier/db.py:174-188 | The container is let through exactly when there is no lease file |
| Migration.MaxVersionIs | services/api/src/harrier/db.py:322-325 | The version read is the greatest recorded, or 0 |
| Migration.PendingFromFile | services/api/src/harrier/db.py:338-372 | Against a file of k migrations the newer ones are the rest of the list |
| Migration.UptoIs | services/api/src/harrier/db.py:338-372 | A file of k migrations holds the statements of the first k in order, and their versions |
| Migration.StepKeepsInvariant | services/api/src/harrier/db.py:328-372 | Every step of every process, a death at any point included, keeps the file a whole prefix and each process's stage true of it |
| Migration.AlwaysAWholePrefix | services/api/src/harrier/db.py:328-372 | In every reachable state the schema is the fold of the migrations up to the recorded version, each whole, at most once, in order, and a process whose open returned finds all it knows applied |
| Migration.SchemaFile.ApplyOne | services/api/src/harrier/db.py:338-372 | Under the lock the version is read again: the migration is applied whole, found applied, or not at all |
| Migration.SchemaFile.ApplySchema | services/api/src/harrier/db.py:328-372 | The loop returns normally only when the file's schema begins with every statement of every known migration, in order, and every known version is recorded; always it is the statements of a beginning of the list |
| HostedStore.JoinedOnce | services/api/src/harrier/filestore.py:101-111 | A name has one reading as segments |
| HostedStore.ObjectNamesEqualIff | services/api/src/harrier/filestore.py:464-478 | Two object names are the same if and only if the owner is the same and the keys are, or they collide: different keys of one directory and extension, not of a listed family, with one hash |
| HostedStore.WriteIsOnlyAt | services/api/src/harrier/filestore.py:653-655 | A write under one owner's key is seen under that key of that owner, and the keys that collide with it, and nowhere else |
| HostedStore.DeleteIsOnlyAt | services/api/src/harrier/filestore.py:653-655 | So is a delete |
| HostedStore.OnlyThatPrivateMap | services/api/src/harrier/filestore.py:653-655 | Where no two keys in use collide an operation is an update of its owner's private map at its key, and no other owner's private map changes |
| HostedStore.CollidingKeysAreOneObject | services/api/src/harrier/filestore.py:469-478 | Where two keys collide, a write at one is found at the other |
| HostedStore.SupabaseStore.Read | services/api/src/harrier/filestore.py:711-720 | The bytes of the owner's map, absence, or the error of the answer |
| HostedStore.SupabaseStore.Put | services/api/src/harrier/filestore.py:722-766 | The owner's map changes at the key alone (`OnlyAt`), or not at all; refusals come before any request |
| HostedStore.SupabaseStore.Create | services/api/src/harrier/filestore.py:727-742 | Stored only where nothing was; what was there is left |
| HostedStore.SupabaseStore.Append | services/api/src/harrier/filestore.py:768-777 | The old text and the new as one, when it returns; the size limit is the whole's |
| HostedStore.SupabaseStore.Delete | services/api/src/harrier/filestore.py:779-792 | The key is gone, an absent one is no error, and nothing else changed |
| HostedStore.KeyIs | services/api/src/harrier/filestore.py:101-111 | A key is segments of the spelled-out alphabet, none of them empty, a dot or two dots |
| HostedStore.SuffixIs | services/api/src/harrier/filestore.py:474-478 | The extension of a file name is what follows its last dot, if something stands before the dot and after it |
| HostedStore.TakenIff | services/api/src/harrier/filestore.py:745-754 | A file is taken for upload exactly when its name is a key with a name before one of the five extensions and it is six megabytes at most |
| HostedStore.HashedNameIsAKey | services/api/src/harrier/filestore.py:469-478 | The name an object gets is itself a key of the same extension, so that what the store can hold the backup can copy and the restore can send |
| HostedStore.NameIsHidden | services/api/src/harrier/filestore.py:469-478 | Of a key outside the listed families only the directory, a hash and the extension are in the name |
| HostedStore.ListedNamesAreKept | services/api/src/harrier/filestore.py:456-466 | The listed families keep their names |
| PrefixWalk.Listing | services/api/src/harrier/filestore.py:818-848 | Page by page, every entry of a folder in order, a last full page included |
| PrefixWalk.WalkOne | services/api/src/harrier/filestore.py:887-897 | Taking one folder off the worklist keeps what is done, waiting and found in step |
| PrefixWalk.Walk | services/api/src/harrier/filestore.py:881-898 | Every object under the prefix once and only once, at any depth and width, and the walk ends |
| PrefixWalk.Bucket.DeleteEverything | services/api/src/harrier/filestore.py:949-956 | The prefix is emptied; or it raised, exactly when a batch failed or its answer was lost; nothing outside the prefix is touched |
| AccountErasure.ObjectNames | services/api/src/harrier/filestore.py:881-904 | Whatever key of an owner an object was stored under, the walk of the owner's prefix finds it, once; and nothing of another owner |
| AccountErasure.Erase | services/api/src/harrier/filestore.py:949-956 | After an erasure that ended none of the owner's objects is left, whatever its key, and no one else's is touched |
| AccountErasure.ErasedAccountIsEmpty | services/api/src/harrier/filestore.py:711-720 | Then the owner's store finds nothing under any key |
| HostedAccount.Account.StoredObjects | services/api/src/harrier/filestore.py:905-922 | Each object once, as it was when its page was sent, while others write |
| BackupDisk.Disk.Replace | services/api/src/harrier/filesbackup.py:185-212 | POSIX rename: nothing happens between two names of one file |
| BackupDisk.Disk.Write | services/api/src/harrier/filesbackup.py:185-196 | Whole or not at all, at whatever point it fails or is killed, and no other copy's bytes change |
| BackupDisk.Disk.Link | services/api/src/harrier/filesbackup.py:199-212 | The copy holds the earlier one's bytes, hard-linked or copied, and the temporary name stays behind exactly when the target already was the linked file |
| BackupDisk.Disk.EarlierDays | services/api/src/harrier/filesbackup.py:141-152 | The dated directories up to today, newest first |
| FilesBackup.NewestCopy | services/api/src/harrier/filesbackup.py:155-162 | The newest day that has both an entry and the file |
| FilesBackup.Run.KeepEarlier | services/api/src/harrier/filesbackup.py:297-302 | Today's copy counts present, another day's is linked and counted so |
| FilesBackup.Run.KeepBytes | services/api/src/harrier/filesbackup.py:313-322 | Equal bytes are kept or linked, others downloaded and counted so |
| FilesBackup.Run.CopyOne | services/api/src/harrier/filesbackup.py:276-323 | One object linked, present, downloaded or unwritten, with everything every index says still true and no file but its own touched; not downloaded when its newest copy was listed as it is |
| FilesBackup.CopyAll | services/api/src/harrier/filesbackup.py:253-254 | The loop over the listing, stopped by the first error |
| FilesBackup.BackupFiles | services/api/src/harrier/filesbackup.py:223-273 | However a run ends and whatever others wrote meanwhile, every index entry whose version is the object's is of a file that holds the object; other days are untouched; a quiet complete run leaves each object byte-equal in today's directory, is complete exactly when every name is a key, and ends in order when nothing fails. A run stopped by an error saves its record all the same, which has every object it linked, found or downloaded; and a quiet run downloads no more objects than are not up to date |
| FilesBackup.Resume | services/api/src/harrier/filesbackup.py:262-267 | A rerun after a run that an error stopped downloads nothing that run had copied: what the one copied and what the other downloads are at most the account's objects |
| FilesBackup.Runs | services/api/src/harrier/filesbackup.py:223-273 | The same over any number of runs one after another, on any days, with other people's work between; days no run was on are as they were. Runs that overlap are OverlappingRuns' |
| OverlappingRuns.SoundNextIff | services/api/src/harrier/filesbackup.py:276-323 | From any state of any number of overlapping runs in which whatever is said of a file is so (by a saved index, by a run's record, by a copy a run is about to record, by one it will keep or may take unread), the next state is such a one exactly when the step does not put other bytes than the object's where somebody says the object is |
| OverlappingRuns.AlwaysSoundIff | services/api/src/harrier/filesbackup.py:223-323 | Over every schedule: all of that stays so at every state if and only if no step of it is such a harmful one |
| OverlappingRuns.SoundBetweenRunsIff | services/api/src/harrier/filesbackup.py:223-323 | Between runs that is the truth of the saved indexes and nothing more |
| OverlappingRuns.HarmlessRunsKeepTheIndexesTrue | services/api/src/harrier/filesbackup.py:223-323 | Any number of runs, overlapping as they may, stopped or killed at any step, with other people writing, keep every saved index true if none of their steps is harmful |
| OverlappingRuns.HarmEndsInAFalseIndex | services/api/src/harrier/filesbackup.py:297-323 | After a harmful step a saved index is false, or becomes so by the further steps of one run alone |
| OverlappingRuns.OneAtATimeIsHarmless | services/api/src/harrier/filesbackup.py:223-323 | Runs one after another take no harmful step, whenever they stop and whatever others write |
| OverlappingRuns.RunsOfOneDayLie | services/api/src/harrier/filesbackup.py:313-323 | A schedule of two runs of one day after which an index entry is false |
| OverlappingRuns.RunsOfTwoDaysLie | services/api/src/harrier/filesbackup.py:313-323 | A schedule of runs of two days after which one is: the later compares with the earlier day's copy, that day's run replaces it, and the later links it |
| FilesRestore.Restore.CreateObject | services/api/src/harrier/filestore.py:938-947 | Create-only, a lost answer included, and an upload stored and answered 429 that its own repeat finds |
| FilesRestore.Restore.RestoreOne | services/api/src/harrier/filesrestore.py:125-162 | One file counted exactly once: not written when it cannot be read, is too large, or its upload or comparison fails; uploaded, equal or different otherwise; stopped and not counted when limited past every wait; never overwriting |
| FilesRestore.RestoreFiles | services/api/src/harrier/filesrestore.py:165-205 | However the account is used meanwhile the restore only adds, and only files of the directory, at names that were free, and each file is counted once; alone, nothing the account held changes, and with every request answered exactly the accepted files it lacked are uploaded and the four counts are the sizes of the four kinds |
| FilesRestore.AcceptedIsTaken | services/api/src/harrier/filesrestore.py:107-116 | The files it counts as accepted are exactly those the store takes |
| FilesRestore.RestoredIsTheAccount | services/api/src/harrier/filesrestore.py:165-205 | A complete backup restored into an empty account is the account, names and bytes |
| FilesRestore.NothingToUpload | services/api/src/harrier/filesrestore.py:142-162 | Into an account that already is the backup's nothing is uploaded and nothing differs |
| FilesRestore.BackupThenRestore | services/api/src/harrier/filesrestore.py:165-205 | Backup, restore and restore again through the code of both commands: the account is recreated and the second restore uploads nothing and counts every object present |
| ArtifactImport.Account.Create | services/api/src/harrier/artifactimport.py:325-345 | Create-only: an object put there since the check is left; an upload stored and answered 429 is found by its own repeat |
| ArtifactImport.CopyOne | services/api/src/harrier/artifactimport.py:303-362 | One file copied, present, different or stopped on, adding only |
| ArtifactImport.CopyAll | services/api/src/harrier/artifactimport.py:415-453 | However the account is used meanwhile the import only adds, and only local files' bytes, and the counts sum to the files listed; alone it leaves the account as the fold of single files says, with its counts too unless an upload answered 429 was stored and its repeat counted it present |
| ArtifactImport.RerunSettles | services/api/src/harrier/artifactimport.py:415-453 | Over anything that still has what a run left, a second run finds present what the first copied and everything else as before |
| ArtifactImport.RerunCopiesNothing | services/api/src/harrier/artifactimport.py:415-453 | A rerun over unchanged stores copies nothing and is complete exactly when the first was |
| ArtifactImport.ImportArtifacts | services/api/src/harrier/artifactimport.py:376-453 | Refused exactly when a check fails, and then nothing is uploaded |
| ArtifactCounts.CountsByKind | services/api/src/harrier/artifactimport.py:303-362 | In a quiet run over files of different keys each count is the number of files of one kind, decided by the account as it was and by what the store takes: per family copied and present, differing and kept newer, no hosted job, other, over the limit, attached and unattached; and the account gains exactly the new ones |
| ArtifactImport.Patiently | services/api/src/harrier/artifactimport.py:259-272 | The first answer that is not a 429 or the seventh, asked again only after a 429, having waited the waits in turn |
| Retention.PruneForgetsNothing | services/api/src/harrier/backup.py:166-203 | A prune of what earlier prunes left spares exactly what a prune of every archive ever taken would |
| Retention.PruneTwice | services/api/src/harrier/backup.py:166-203 | A second prune deletes nothing |
| Retention.NothingSparedIsLost | services/api/src/harrier/backup.py:166-203 | After any sequence of new archives and prunes the keep newest ever taken, the newest ever of each week and every name without a week are there |
| Retention.HistoryMakesNoDifference | services/api/src/harrier/backup.py:166-203 | With one keep throughout, a prune leaves the same whatever was pruned before |
| Retention.StandingIsSpared | services/api/src/harrier/backup.py:187-199 | What the loop spares by place in the list is what the rule spares |
| Retention.Directory.Sorted | services/api/src/harrier/backup.py:182-186 | The archives by name, newest first |
| Retention.Directory.Spared | services/api/src/harrier/backup.py:187-199 | The loop spares exactly the rule's archives |
| Retention.Directory.Prune | services/api/src/harrier/backup.py:166-203 | Refused below one; else, when no unlink fails, an archive stays exactly if fewer than keep are newer, its name gives no week, or none of its week is newer; with failures some others may stay |
| Retention.Directory.CreateBackup | services/api/src/harrier/backup.py:206-287 | A backup that fails leaves the directory as it was if the partial archive can be deleted, a failed or killed one deletes no other, and only a verified one is followed by a prune |
| Retention.PartialCostsNothingIff | services/api/src/harrier/backup.py:177-202 | A prune that counts a partial archive keeps every good one it would have kept without it if and only if the keep-th newest older good one is also spared by its week, and the newest good one of the partial one's week is not the keep-th newest or older |
| Retention.Directory.BackupAfterAPartialOne | services/api/src/harrier/backup.py:255-290 | A backup that leaves its partial archive, killed or with its removal refused, and then one that ends in order: the directory is what the rule spares with the partial one counted, and every good archive the rule spares is there exactly under that condition |
| RestoreDance.Place.SetAside | services/api/src/harrier/backup.py:448-449 | The old directory moves whole or stays; an occupied name refuses it |
| RestoreDance.Place.Install | services/api/src/harrier/backup.py:450-463 | The payload is in place, or what stood at the other name is put back, or the error says it could not be |
| RestoreDance.Place.Restore | services/api/src/harrier/backup.py:399-468 | At every point the old directory is whole at one of its two names until the verified one is in place; a failed install leaves the target as it was unless it was absent and the other name occupied |
| Cutover.CutoverResult.Quiesce | services/api/src/harrier/cutover.py:210-242 | Every job is down and was noted, or the first that would not stop is named and those stopped are reloaded or named |
| Cutover.CutoverResult.Rollback | services/api/src/harrier/cutover.py:245-276 | Every stopped job runs again or is named, and runs when its plist is there and launchctl works |
| Cutover.SortedIsTheRecord | services/api/src/harrier/cutover.py:509-511 | Sorting the done steps by name keeps their order unless all three are done |
| Cutover.TakeSteps | services/api/src/harrier/cutover.py:524-556 | The steps not recorded run in order until one fails, with every job down, and the record stays a prefix |
| Cutover.RunCutover | services/api/src/harrier/cutover.py:439-563 | It ends in order exactly when every job stops and every step still to do succeeds, is recorded and lets the process live. A failed run leaves each job it stopped reloaded or named; a recorded step is not run again; the record stays a prefix of snapshot, verify, install; and the install stands beside reloaded old jobs exactly when only its own record could not be written |
| Cutover.Invocations | services/api/src/harrier/cutover.py:439-563 | Over any number of invocations with one stamp, where what completes is recorded, each step takes effect once and in order; and they finish if in one of them every job stops and every step succeeds |
| Cutover.BothSchedulesInPlace | services/api/src/harrier/cutover.py:541-561 | A concrete invocation that ends with the new schedule installed, the old job running again and no record of the install |

## Left out

- Real drivers, HTTP, the engine socket, `ps`, launchctl, tar, gzip and hashing are outcomes, not code.
- `WITH`, `CREATE` and other statements SQLite runs in autocommit inside a block, and access through `sqlite_driver`, are outside the programs.
- The session options of `transaction()`, the identity's SQL and `withhold_values`: a SET or a read-back is one statement that may fail.
- An error that is not the driver's own, such as MemoryError, for a write outside any block.
- SqliteSeam.SqliteConnection.BeginWriting: no other connection commits between a block's entry and its late BEGIN IMMEDIATE, so what the block read before it began is what it writes to.
- SeamAgreement.StoresAgree: one way only; a program that catches an error in its own block and then does nothing more on the store can still end alike.
- A COMMIT that the server carried out and whose answer was lost: it counts as refused.
- What a Unicode letter, digit or space is: parameters of the scanners.
- KeyedWrite: the blocks are those of one session at READ COMMITTED, with the key's row alone in view; waits for another writer's lock are not steps.
- The modification times, `stat` and `list` of the file store, and `LocalFileStore`, whose operations the private map already says.
- HostedStore.SupabaseStore.Append: two appenders at once can lose an append, as the code's own notes say; one appender is modelled.
- PrefixWalk.Walk: the tree does not change during the walk; a page that fails raises and is not modelled. FilesBackup's listing does allow for changes.
- BackupDisk: directories hold only files and parts; a name that is a directory of another fails like any other write. Modes are not modelled.
- FilesBackup: dates are numbers in order, and an index that cannot be read is read as empty.
- OverlappingRuns: a run's copies and listings are values, as `BackupDisk` and `HostedAccount` give them for one run; names are those `check_key` accepts, and the directories a run looks at are any with an index.
- FilesRestore: symbolic links in the directory.
- ArtifactImport: what the account's rows make of names is a set of keys; a local file does not change during the run; the families are one list in their order, and the report lines are not modelled.
- Retention: a name is its place in the order of names, and the week in a name is a parameter.
- RestoreDance: the extraction and the check of the payload are one outcome, and the workspace is not a place.
- Cutover: the dry run, which touches nothing, and the four preflight checks, one outcome. A launchctl call that raises in `quiesce` would leave jobs down with no log; one that answers is modelled.
- `begins_a_transaction`, `changes_the_session`, URL and login checks, message texts and report lines.
- The rest of the repository: discovery, capture, digest, the hosted database backup, the extension, the web app.

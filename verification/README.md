# Verified models of the hosting panel

The panel is mostly Go that shells out. This project models the parts of it that
are algorithms or step protocols, and proves what they promise. The operating
system, nginx, MariaDB, restic and Kratos are small abstract states; the outcome
of every external step is a parameter, and a step that reports failure may still
have taken effect where the real one can.

| files | part of the panel |
|---|---|
| `Paths`, `FileSafe`, `QuotaMount` | lexical paths, the scope check of every file operation, the mount that holds a path |
| `FileTree`, `FileOps` | files.copy with its rollback, files.move |
| `PanelDb`, `Bundle`, `PlanShape`, `Convergence`, `AccountRuns`, `JsonText`, `Ownership` | the database rows of a backup bundle, and the runs that insert them |
| `Trials`, `TrialRows`, `TrialWarnings`, `TrialOrder`, `Restored`, `Reconstruct` | a reconstruction whose statements may fail: what it tries, in which order, what it reports and what is back afterwards |
| `Vhost` | nginx site files: write, enable, disable, delete |
| `DbTuning`, `TuningValues`, `TuningRanges`, `DbConfig` | database tunables and their apply/probe/rollback protocol |
| `ResticKeys`, `Base64`, `Dkim` | rotation of repository passwords and of DKIM keys |
| `SessionCache`, `CacheHistory`, `Whoami` | the Kratos session cache and the client that uses it |
| `KratosPages`, `LinkHeader`, `LinkParams` | the two lookups by email over listed pages, and the Link header that leads to the next page |
| `ShellWords`, `CronCommand`, `SftpCommand` | quoting: cron commands, ExecStart, the two SSH command builders |
| `EnvFile`, `Chunked`, `Disclaimer` | credential env files, HTTP chunk decoding, disclaimer escaping |
| `OsUsers`, `OsUsersBundle`, `BackupJobs` | the os_users bundle, backup job slots, the tar header of a dump |
| `Text` | the string functions the others share |

Code that works by changing state is a class whose methods follow the source's
branches; its methods are tied to functions or to the old state, and the lemmas
are about those. Pure code is functions and lemmas. What a function computes is
also said a second time, on the inputs and in other words: row by row for a
reconstruction, line by line for the os_users bundle, node by node for a copied
tree, by shape for texts that are parsed.

## What the proofs found

Some promises of the code or its comments do not hold as stated. Each of these
has a lemma with the exact condition, or with a case in which the promise fails.

- A docroot `/` owns only `/` itself (`Paths.WithinIsComponentPrefix`).
- After a reload of nginx fails, the content gate answers ok to every retry with
  the same text while nginx keeps running the old one
  (`Vhost.RetryAfterFailedReload`, `Vhost.OkWriteExactly`).
- An ok disable or delete has done its work only if its removals, whose errors
  are ignored, did theirs (`Vhost.OkAfterAnyRun`).
- A configuration rollback restores the drop-in only if reading and writing it
  and its backup, whose errors are ignored, went well; a drop-in that cannot be
  read is even removed (`DbConfig.RollbackExactly`).
- Validation lets newlines through around and between the number and the unit of
  a value (`TuningValues.BlanksValidate`, `TuningValues.ValidParts`). They do no
  harm to drift detection: validated settings with the same drop-in are equal
  all the same (`TuningValues.ValidatedInjective`).
- A NaN passes every range check of a tunable, and a whole-number setting takes a
  fraction (`TuningRanges.NaNAndFractionPass`).
- A newline in a key path that nothing else forces into quotes breaks the SSH
  command (`SftpCommand.BuildersAgree`).
- A chunk extension with a hexadecimal digit changes the chunk size
  (`Chunked.ExtensionKeepsSize`).
- A passwd line without a user name can make the os_users bundle unstable
  (`OsUsers.NamelessUserOrphansItsGroup`); `OsUsers.StableExactly` says exactly
  when a bundle is stable, on the four files.
- An app of the bundle whose domain was not restored, and a grant for a database
  nobody knows, are left out with a warning, but a database with an invalid name
  still lends its id to grants (`TrialRows.TriedExactly`,
  `TrialWarnings.WarnedExactly`).
- A second reconstruction run adds forwarders as well as mailbox shares
  (`AccountRuns.ForwarderArrivesSecond`), exactly when one that waited for a
  later mailbox would be accepted after the first run
  (`AccountRuns.SecondRunAddsTo`), and without an exported or findable
  Kratos identity every run makes a new one (`AccountRuns.ThreeRuns`).
- A domain can be restored for a user that is not there: INSERT IGNORE may drop
  the user, because its email belongs to another account
  (`Ownership.TakenEmailLeavesDomain`), the user may be sent under another id than
  the manifest's, or its statement may fail, and no foreign key stops the domain.
  `Ownership.OwnedExactly` says exactly when, on the database and the bundle, and
  `Ownership.OwnedAfter` for runs with failed statements. The order comment in
  the code lists users among the parents of domains; the model follows the
  migrations, which declare no such key.
- Section 2.4.2 of RFC 5228 reads `\n` in a Sieve string as the letter n, so the
  comment on the disclaimer's escaping is wrong about line breaks
  (`Disclaimer.ShownUnchanged`).
- A link of a Link header that names the next page by RFC 8288 is taken only if
  that is written `rel="next"` and no parameter before it holds a comma
  (`LinkParams.NextIsFirstLink`, `LinkParams.ReadsAsTheRFC`): a comma in a quoted
  parameter loses it (`LinkParams.QuotedCommaLosesNext`), and so does `rel=next`
  (`LinkParams.TokenLosesNext`), while `xrel="next"` is taken for it
  (`LinkParams.LongerNameIsTaken`). Kratos writes its links as the code expects.
- An empty file in a tar wrapper keeps its header (`BackupJobs.EmptyFileKeepsHeader`).

Some comments in the source do not match the code, and the model follows the
code: a failed read of passwd or group does end the os_users stage
(`OsUsers.LoadFilteredOSUsers`); its group filter also keeps gids from 1000 up and
primary gids; the "LRU" cache never reorders on `Get`, so it evicts by last `Set`;
a failed lookup of the Kratos identity by email is silent and goes on with a fresh
one (`Reconstruct.Restorer.RestoreUser`).

## Model

| member | source | states |
|---|---|---|
| `Paths.CleanIdempotent` | internal/filesafe/filesafe.go:110-132 | `filepath.Clean`, which every scope check relies on, is idempotent on every string |
| `Paths.CleanWithoutDotDot` | internal/filesafe/filesafe.go:228-271 | once `..` is rejected, cleaning drops exactly the empty and `.` elements |
| `Paths.CleanOneMore` | internal/filesafe/filesafe.go:110-132 | one more element: nothing for an empty one or `.`, the last element undone for `..`, which stops at the root and climbs out of a relative path, otherwise the element |
| `Paths.CleanOne` | internal/filesafe/filesafe.go:110-132 | a path of one element |
| `Paths.WithinIsComponentPrefix` | internal/filesafe/filesafe.go:275-303 | the string-prefix test is the component-prefix relation, except that `/` contains only itself |
| `Paths.DescendantIsComponentPrefix` | panel-agent/internal/commands/files_move.go:125-141 | isDescendant is the component-prefix relation, except for what lies under a child whose name begins with two dots |
| `FileSafe.Scope.NewScope` | internal/filesafe/filesafe.go:59-93 | which users and docroot lists are refused, and that an accepted scope holds every docroot, cleaned, in order |
| `FileSafe.Scope.CleanPath` | internal/filesafe/filesafe.go:110-132 | the method computes the decision that `PathTexts` and `ScopeCleanDecides` characterise |
| `FileSafe.Scope.Resolve` | internal/filesafe/filesafe.go:138-181 | the same with symlink resolution as an oracle, characterised by `ResolveDecides` |
| `FileSafe.PathTexts` | internal/filesafe/filesafe.go:186-226 | the texts that pass as paths: 1 to 4096 bytes, no control character, no two dots in a row; the first thing wrong is reported |
| `FileSafe.ResolveDecides` | internal/filesafe/filesafe.go:138-181 | Resolve accepts exactly what Clean accepts, once the path the host resolves it to is absolute, a docroot or below one as text, and no link; the code of each refusal |
| `FileSafe.ScopeCleanDecides` | internal/filesafe/filesafe.go:110-132 | a valid path is accepted exactly when it is absolute and some docroot's components are a prefix of its own, and what comes back is the path without empty and `.` elements; the three ways to be refused |
| `FileSafe.ScopeCleanIdempotent` | internal/filesafe/filesafe.go:110-132 | cleaning an accepted path again accepts it and changes nothing |
| `FileSafe.ResolveStaysInScope` | internal/filesafe/filesafe.go:138-181 | whatever the host answers about links, an accepted path is absolute, no link, and a docroot or below one as text; it is owned component by component when the answer is clean, and below a docroot when it holds no `..`; when nothing resolves, Resolve is Clean |
| `FileSafe.PathArgDecides` | internal/cronvalidate/cron.go:297-357 | the cron validator accepts exactly the arguments without two dots in a row whose resolved path, or which themselves when nothing resolves, are owned by a docroot; without resolution it agrees with the file scope |
| `FileSafe.DescendantOnAccepted` | panel-agent/internal/commands/files_move.go:125-141 | on accepted paths isDescendant is the component-prefix relation |
| `QuotaMount.QuotaMountFor` | internal/limits/quotamount.go:52-93 | the answer is a listed mount holding the path and no longer one does; the three errors are a table that cannot be opened, one that cannot be read to the end, and no mount holding the path |
| `QuotaMount.ListedExactly` | internal/limits/quotamount.go:71-78 | a mount point is listed exactly when it is the second white-space-separated column of a line |
| `QuotaMount.InnermostMount` | internal/limits/quotamount.go:52-93 | for normalised mount points the mounts that hold the path are exactly the component prefixes of the cleaned path, and the answer is the longest of them |
| `FileTree.RenamedWellFormed` | panel-agent/internal/commands/files_move.go:80-120 | a move keeps every node's parent a directory and leaves nothing at the old place |
| `FileTree.RenamedAt` | panel-agent/internal/commands/files_move.go:80-120 | a move relocates each node of the subtree and changes nothing else |
| `FileTree.MoveThereAndBack` | panel-agent/internal/commands/files_move.go:80-120 | moving back restores the tree |
| `FileTree.CopiedAt` | panel-agent/internal/commands/files_copy.go:115-158 | a copy reproduces exactly the directories, regular files and links of the source at their places, leaves the rest, and adds the missing directories above the destination exactly when it copies a directory |
| `FileTree.CopiedWellFormed` | panel-agent/internal/commands/files_copy.go:80-108 | a copy leaves a proper tree, and removing the copy gives the old tree |
| `FileTree.CopyThenRemoveIsMove` | panel-agent/internal/commands/files_copy.go:115-158 | without special files, copying and removing the source is a move |
| `FileTree.CopyAddsItsBytes` | panel-agent/internal/commands/files_copy.go:115-158 | the reported sum of sizes is what the copy adds to the tree |
| `FileTree.BytesCount` | panel-agent/internal/commands/files_copy.go:144-149 | the reported sum counts the regular files alone, each with its length |
| `FileTree.AddDirsAt` | panel-agent/internal/commands/files_copy.go:140-143 | making a path with its parents adds exactly the missing directories above and at it |
| `FileOps.FileSystem.CopyTree` | panel-agent/internal/commands/files_copy.go:115-158 | the recursive walk succeeds exactly when the source is there, nothing in it fails and the destination can be placed; it then gives the copied tree and the sum of the regular-file sizes, and else touches nothing outside the destination but directories leading to it |
| `FileOps.FileSystem.CopyFile` | panel-agent/internal/commands/files_copy.go:160-175 | an exclusive create, ok exactly when it works, the destination is new and its parent a directory; a failure leaves at most a truncated destination |
| `FileOps.FileSystem.FilesCopy` | panel-agent/internal/commands/files_copy.go:34-108 | refused exactly when the destination exists or lies in the source, completed exactly when every step works; after any failure, if the cleanup goes through, the tree is the old one, but for directories created above the destination when its parent was missing |
| `FileOps.FileSystem.FilesMove` | panel-agent/internal/commands/files_move.go:36-120 | refused and done exactly when; the tree of a done move, and the old tree otherwise |
| `PanelDb.RunIsSafe` | panel-agent/internal/commands/backup_system_accounts.go:337-539 | at every point of every run of INSERT IGNOREs no row was changed or deleted, foreign and unique keys still hold, and each new row is one of those sent, with its parents present |
| `PanelDb.SecondRunAddsOnlyForward` | panel-agent/internal/commands/backup_system_accounts.go:337-345 | a row that only a second run adds waited for a parent sent after it |
| `PanelDb.TwoRunsSuffice` | panel-agent/internal/commands/backup_system_accounts.go:337-345 | if nothing refers to such a row, two runs of the same rows are a fixpoint |
| `PanelDb.SecondRunIdleExactly` | panel-agent/internal/commands/backup_system_accounts.go:337-345 | the second run is already idle exactly when no row that waited would be accepted after the first |
| `Reconstruct.Restorer.ReconstructAccountState` | panel-agent/internal/commands/backup_system_accounts.go:346-539 | whatever statement fails, before or after it took effect: the rows that reached the database are exactly the tried ones that did not fail before, the database is the old one plus these, in order, the warnings are exactly the failed statements and what was left out; the user only comes with its identity; without failures it is the planned run; which login was picked; and when every row has its owner |
| `Reconstruct.Restorer.RestoreUser` | panel-agent/internal/commands/backup_system_accounts.go:596-742 | network and schema are the remembered ones or those of an active identity, and are found when the query works and every active identity has them; the identity is the exported one, else one with the email, else the new UUID; the statements go up to the first that fails, and a run without any identity to copy from is reported |
| `Reconstruct.Restorer.EnsureKratosLookup` | panel-agent/internal/commands/backup_system_accounts.go:547-573 | network and schema come from an active identity and, once found, stay the same for later runs; nothing is found only if the query fails, there is none, or one has no such words |
| `Reconstruct.KratosWordsAre` | panel-agent/internal/commands/backup_system_accounts.go:558-571 | a network and a schema that are words are taken as they are stored |
| `Reconstruct.Restorer.LookupByEmail` | panel-agent/internal/commands/backup_system_accounts.go:575-591 | finds an identity with the email, or none exists, its id is empty, or the query failed |
| `Reconstruct.Restorer.RestoreDomains` | panel-agent/internal/commands/backup_system_accounts.go:392-447 | the domain section tries its statements, what is below a domain only once the domain is there, and remembers exactly the ids of the domains with valid names whose statement succeeded |
| `Reconstruct.Restorer.RestoreDatabases` | panel-agent/internal/commands/backup_system_accounts.go:449-459 | the databases with valid names are tried; the id remembered for a name is that of its last database, even when its statement failed or was not tried |
| `Reconstruct.Restorer.RestoreGrant` | panel-agent/internal/commands/backup_system_accounts.go:466-482 | which database a grant is tied to, and when it is left out with a warning |
| `Reconstruct.Restorer.RestoreApps` | panel-agent/internal/commands/backup_system_accounts.go:486-500 | apps of restored domains are tried, the others left out with a warning |
| `TrialRows.TriedExactly` | panel-agent/internal/commands/backup_system_accounts.go:346-742 | which statements a run tries, read off the bundle: identity, credentials, user, pools and directives, domains with valid names and all below them, databases with valid names, database users, grants that find a database, apps of restored domains, SSH keys, cron jobs, egress and limits, each with its key, unique values, parents and columns, and each only after its parent's statement succeeded |
| `TrialRows.PlannedExactly` | panel-agent/internal/commands/backup_system_accounts.go:346-742 | the same for the planned rows: all that the bundle holds |
| `TrialWarnings.WarnedExactly` | panel-agent/internal/commands/backup_system_accounts.go:346-539 | what a run reports: exactly the failed statements, invalid domain and database names, grants for a database nobody knows, apps without a restored domain, and a user without an identity to copy from |
| `TrialOrder.TriedInOrder` | panel-agent/internal/commands/backup_system_accounts.go:337-539 | the user's rows are tried first, then the sections of the bundle in the code's order, and the items of a section one after the other |
| `Trials.DoneIsPlan` | panel-agent/internal/commands/backup_system_accounts.go:346-539 | if every statement is done, what was sent is the plan |
| `Restored.FirstIsStored` | panel-agent/internal/commands/backup_system_accounts.go:337-345 | a row that is sent, has its parents in the database and no rival for its keys, there or sent before it, is stored |
| `Restored.TwoRunsRestore` | panel-agent/internal/commands/backup_system_accounts.go:337-345 | a bundle whose rows are new, have no rivals and bring or find every parent is back after two runs without failures, and but for shares and forwarders after the first |
| `Convergence.SameLoginConverges` | panel-agent/internal/commands/backup_system_accounts.go:346-539 | for every bundle with distinct ids and the same login, a third run changes nothing, a second adds only shares and forwarders whose mailbox came later, and it adds nothing exactly when none of those would be accepted after the first |
| `AccountRuns.ThreeRuns` | panel-agent/internal/commands/backup_system_accounts.go:346-539 | three runs with whatever login each one picks, identity, network and schema included: the third changes nothing exactly when the identity is exported, already stored with the email, or written with it |
| `AccountRuns.SameIdentityAgain` | panel-agent/internal/commands/backup_system_accounts.go:629-636 | the identity a run generated is the one the next run finds by email |
| `AccountRuns.AnotherIdentityAgain` | panel-agent/internal/commands/backup_system_accounts.go:629-636 | otherwise each run creates an identity, forever |
| `AccountRuns.DefaultTraitsFound` | panel-agent/internal/commands/backup_system_accounts.go:637-648 | an identity written with the account's own email is found again exactly when the email holds no control character, quote, backslash, angle bracket, ampersand or line separator, which JSON escapes |
| `JsonText.JsonReadsBack` | panel-agent/internal/commands/backup_system_accounts.go:637-648 | reading the written JSON string by section 7 of RFC 8259 gives the text back, for every text |
| `AccountRuns.MintUnused` | panel-agent/internal/commands/backup_system_accounts.go:1018-1021 | if every grant carries an id, the fresh ids play no part |
| `AccountRuns.ForwarderArrivesSecond` | panel-agent/internal/commands/backup_system_accounts.go:432-438 | a bundle whose forwarder is added by the second run only |
| `AccountRuns.SecondRunAddsTo` | panel-agent/internal/commands/backup_system_accounts.go:346-539 | a second run adds a share, or a forwarder, exactly when one that waited for a later mailbox would be accepted after the first |
| `PlanShape.PlanShaped` | panel-agent/internal/commands/backup_system_accounts.go:346-539 | which rows a run sends: unique keys of their own table, one identity, one user, the bundle's domains, and pools that hang off the manifest's user |
| `Ownership.OwnedExactly` | panel-agent/internal/commands/backup_system_accounts.go:342-346 | after a run without failures every domain has its user and every user its identity exactly when the user was there, or is sent under the manifest's id and clashes with nobody, or no domain of the bundle could be stored |
| `Ownership.OwnedAfter` | panel-agent/internal/commands/backup_system_accounts.go:366-373 | the same for the rows a run really sent, whatever statements failed |
| `Ownership.PrefixSendable` | panel-agent/internal/commands/backup_system_accounts.go:346-539 | the same holds wherever a run is cut short: a prefix of the plan is such a list of rows |
| `Ownership.UserSettled` | panel-agent/internal/commands/backup_system_accounts.go:596-742 | the user is there after a run exactly when it was or its row could be stored |
| `Ownership.TakenEmailLeavesDomain` | panel-agent/internal/commands/backup_system_accounts.go:366-401 | a database and a bundle for which a domain ends up without its user |
| `Vhost.Server.WriteVhost` | panel-agent/internal/commands/domain_create.go:469-528 | the steps of the content gate, link, test, cleanup and reload, as the state machine below |
| `Vhost.Server.Enable` | panel-agent/internal/commands/domain_toggle.go:26-87 | enabling as a step of the machine |
| `Vhost.Server.Disable` | panel-agent/internal/commands/domain_toggle.go:89-126 | disabling as a step of the machine, which the next lemmas describe |
| `Vhost.Server.Delete` | panel-agent/internal/commands/domain_delete.go:26-67 | deleting as a step of the machine |
| `Vhost.OutcomeExactly` | panel-agent/internal/commands/domain_create.go:469-528 | each failed outcome of a write or an enable, exactly when its step fails and the gate did not answer; an ok one only after a reload that worked or the gate |
| `Vhost.OwnFileAndEntry` | panel-agent/internal/commands/domain_toggle.go:26-126 | enable, disable and a failed write keep every site file, a delete removes the domain's own, a write puts the new text; which operations leave the link |
| `Vhost.OnlyReloadsLoad` | panel-agent/internal/commands/domain_create.go:517-528 | what nginx runs changes at a reload only, and then to exactly the enabled site files |
| `Vhost.DisableThenEnable` | panel-agent/internal/commands/domain_toggle.go:26-126 | disabling and enabling again, when everything works, brings back the link and the same running text |
| `Vhost.StepKeepsSync` | panel-agent/internal/commands/domain_create.go:469-528 | nginx runs every enabled site file after a step exactly when neither the reload after a change nor the cleanup after a failed test went wrong |
| `Vhost.OkAfterAnyRun` | panel-agent/internal/commands/domain_toggle.go:43-120 | after every run that lost sync nowhere, an ok return means what it says (file, link and nginx agree, or the file is gone and nothing is left in sites-enabled) exactly when its removals did their work |
| `Vhost.OkWriteExactly` | panel-agent/internal/commands/domain_create.go:469-528 | after any ok write the file holds the text and the link points at it; nginx runs the text unless the gate answered for a site nginx never loaded |
| `Vhost.FailedTestCleansUp` | panel-agent/internal/commands/domain_create.go:506-516 | corollary: a failed test reloads nothing, and leaves neither file nor link exactly when both removals work |
| `Vhost.RepeatIsFree` | panel-agent/internal/commands/domain_create.go:473-486 | repeating an ok write writes and reloads nothing |
| `Vhost.RetryAfterFailedReload` | panel-agent/internal/commands/domain_create.go:473-486 | after a failed reload every retry answers ok and nginx keeps its old text |
| `Vhost.OthersUntouched` | panel-agent/internal/commands/domain_create.go:469-528 | no step touches another domain's file or link |
| `DbTuning.ParseBytes` | internal/dbtuning/dbtuning.go:83-121 | the scanning loop computes the reading that the next three lemmas describe |
| `TuningValues.BytesExactly` | internal/dbtuning/dbtuning.go:83-121 | a byte size is accepted exactly when it is blanks, a number, blanks, a unit, blanks, and the number parses |
| `TuningValues.ShapeReads` | internal/dbtuning/dbtuning.go:83-121 | such a value reads as the number times the unit |
| `TuningValues.BlanksValidate` | internal/dbtuning/dbtuning.go:125-160 | any blanks, newlines included, around and between number and unit leave the verdict on a byte size as it is |
| `TuningValues.ValidParts` | internal/dbtuning/dbtuning.go:125-160 | a validated value holds white space only around and between two solid texts, and no `=` |
| `DbTuning.Validate` | internal/dbtuning/dbtuning.go:125-160 | the branches by kind accept what `Valid` says, which `TuningRanges.AcceptedExactly` describes |
| `TuningRanges.AcceptedExactly` | internal/dbtuning/dbtuning.go:45-66 | a setting is accepted exactly when it is one of the listed tunables of its engine and its value, white space around it aside, reads as a number of the listed range, or as NaN, or is one of the two words of a switch |
| `TuningRanges.UnitsExactly` | internal/dbtuning/dbtuning.go:83-121 | the units are the binary ones, b to t, with or without b, in either case |
| `TuningRanges.NaNAndFractionPass` | internal/dbtuning/dbtuning.go:146-158 | two values that pass: NaN and a fraction for a whole-number setting |
| `DbTuning.ValidateSet` | internal/dbtuning/dbtuning.go:163-170 | a set is accepted exactly when each setting is |
| `TuningValues.ValidIsSeparable` | internal/dbtuning/dbtuning.go:125-160 | in the drop-in of validated settings each `=` belongs to one setting |
| `DbTuning.RenderMariaDBDropIn` | internal/dbtuning/dbtuning.go:174-188 | the text is the one drop-in of the settings, in whatever order the map is iterated |
| `DbTuning.DropInText` | internal/dbtuning/dbtuning.go:174-188 | the drop-in is two comment lines, the section, and a line `name = value` for each setting, by name |
| `DbTuning.RenderOrderFree` | internal/dbtuning/dbtuning.go:174-188 | rendering does not depend on the iteration order |
| `DbTuning.RenderInjective` | internal/dbtuning/dbtuning.go:174-188 | settings without `=` in names and values, and without newlines in names, have the same drop-in exactly when they are equal |
| `TuningValues.ValidatedInjective` | internal/dbtuning/dbtuning.go:174-188 | validated settings, newlines in values included, have the same drop-in exactly when they are equal |
| `DbConfig.MariaDB.ApplySettings` | panel-agent/internal/commands/db_config_apply.go:54-149 | invalid settings change nothing; valid ones go through the steps the lemmas describe |
| `DbConfig.Probe` | panel-agent/internal/commands/db_config_apply.go:109-139 | a probe succeeds exactly when one of its ten pings does |
| `DbConfig.FourEndings` | panel-agent/internal/commands/db_config_apply.go:54-149 | the step behind the next runs: with working file operations, unchanged without reload, changed and answering, restored and answering, or restored with the broken marker; each exactly when the pings say so |
| `DbConfig.EndsExactly` | panel-agent/internal/commands/db_config_apply.go:54-149 | whatever fails: which ending each call has, and what it leaves of the drop-in unless rolled back, of the backup, the broken marker and the restarts |
| `DbConfig.RollbackExactly` | panel-agent/internal/commands/db_config_apply.go:92-149 | a rollback restores the drop-in exactly when the ignored errors of reading and writing it and its backup did not get in the way |
| `DbConfig.GateDetectsDrift` | panel-agent/internal/commands/db_config_apply.go:67-71 | on a drop-in rendered from validated settings the gate skips exactly when it can read it and the settings are the same |
| `DbConfig.DiskHoldsLastGood` | panel-agent/internal/commands/db_config_apply.go:54-149 | over every run with working file operations the drop-in is the last one after whose writing the server answered, and the broken marker is there exactly when some rollback failed too |
| `DbConfig.SteadyState` | panel-agent/internal/commands/db_config_apply.go:67-71 | repeating an applied text changes nothing |
| `ResticKeys.Repository.Rotate` | panel-agent/internal/commands/backup_repo_password_rotate.go:56-168 | for every outcome of the four commands: when each error and success is answered, the new key's id, and that the old key is gone exactly when the first listing showed it and the removal took effect; at every point at most one old key is gone, listed as current, and a failure loses none |
| `ResticKeys.KeyIDSet` | panel-agent/internal/commands/backup_repo_password_rotate.go:239-245 | the set of the listed ids |
| `ResticKeys.AtMostOneGone` | panel-agent/internal/commands/backup_repo_password_rotate.go:75-167 | wherever a rotation stops at most one old key is gone, one of the old password and with a new key in place, and every other key opens as before |
| `ResticKeys.AlwaysOpens` | panel-agent/internal/commands/backup_repo_password_rotate.go:75-167 | wherever a rotation stops, the old or the new password opens the repository, and every other password that did still does |
| `ResticKeys.ChainOpens` | panel-agent/internal/commands/backup_repo_password_rotate.go:75-167 | over chains of rotations a password none of them replaced keeps opening the repository, and if one was replaced the password itself or a new one opens it |
| `Base64.RoundTrip` | internal/dkim/dkim.go:132-149 | decoding undoes encoding for every byte string |
| `Base64.KnownAnswers` | internal/dkim/dkim.go:132-149 | test vectors of section 10 of RFC 4648 |
| `Base64.LastDigits` | internal/dkim/dkim.go:132-149 | the last two digits of the alphabet are `+` and `/` |
| `Base64.GroupsExactly` | internal/dkim/dkim.go:132-149 | what decodes, line breaks aside: groups of four digits, the last with at most two `=`, and to how many bytes |
| `Base64.SkipAcross` | internal/dkim/dkim.go:132-149 | line breaks are skipped, wherever they stand |
| `Dkim.KeyFileRoundTrip` | internal/dkim/dkim.go:132-212 | loading the file written for a seed, base64 and a newline, gives the seed back |
| `Dkim.LoadsExactly` | internal/dkim/dkim.go:132-157 | a key file loads exactly when it is the base64 of 32 bytes, line breaks or not |
| `Dkim.KeyDir.WritePrivate` | internal/dkim/dkim.go:159-212 | ok exactly when every step works; at every point the key file is the old one or the complete new one; a failure keeps the old one |
| `Dkim.KeyDir.CopyToBackup` | panel-agent/internal/commands/domain_email_dkim_rotate.go:160-181 | ok exactly when it works; the copy leaves the key file alone and, when ok, holds its content |
| `Dkim.KeyDir.Rotate` | panel-agent/internal/commands/domain_email_dkim_rotate.go:57-155 | when each answer is given; at every crash point the key file is complete and the old key is saved before it is replaced; the TXT values answered are the fixed tags and then base64 of the public keys of the old seed and of the one on disk |
| `Dkim.KeyDir.EnsureKey` | panel-agent/internal/commands/domain_email_enable.go:170-217 | when it answers; an existing key is kept, and the TXT value answered is the fixed tags and then base64 of the public key of the seed on disk |
| `Dkim.RecoverableAnywhere` | panel-agent/internal/commands/domain_email_dkim_rotate.go:73-154 | wherever a rotation stops, the key file loads as the old or new seed, and if not the old one, `.old` holds it |
| `SessionCache.Cache.Get` | internal/kratosclient/cache.go:42-58 | an item with the cookie's hash is answered exactly until it expires; without one there is no answer; nothing changes |
| `SessionCache.Cache.Set` | internal/kratosclient/cache.go:62-92 | map and list keep agreeing, one entry per key, and the contents become the bounded list with the item newest |
| `SessionCache.Cache.Clear` | internal/kratosclient/cache.go:95-101 | empties both |
| `SessionCache.SameSize` | internal/kratosclient/cache.go:62-92 | map and list have the same size, so the size test on the map bounds the list |
| `CacheHistory.BoundedIsNewest` | internal/kratosclient/cache.go:62-92 | after every history the cache is the newest part of one that never evicts, at most max(1, maxSize) entries, keys distinct |
| `CacheHistory.CacheHoldsMostRecent` | internal/kratosclient/cache.go:42-101 | the cache holds the most recent distinct keys by last Set since the last Clear |
| `CacheHistory.EvictsFirstToExpire` | internal/kratosclient/cache.go:74-82 | with a clock that never goes back, what is evicted expires no later than anything kept |
| `Whoami.Client.Whoami` | internal/kratosclient/client.go:93-113 | when the cache answers, when the remote reply does, and that only a successful reply is stored |
| `Whoami.CallAlone` | internal/kratosclient/client.go:93-113 | a call that nothing interrupts does in the system below what the method does |
| `Whoami.CacheAnswersAreJustified` | internal/kratosclient/client.go:93-113 | in every interleaving a cached answer came from a successful remote call for a cookie of the same hash, stored at most the time to live earlier |
| `Whoami.OnlySuccessesAreCached` | internal/kratosclient/client.go:93-113 | in every interleaving every store and every cached item goes back to a success |
| `KratosPages.IdentityIDByEmail` | internal/kratosclient/admin.go:116-137 | the first identity with the email on the pages read before a failure |
| `KratosPages.ListedPages` | internal/kratosclient/admin.go:116-137 | a listing is its pages one after the other, up to the first that fails |
| `KratosPages.CaseIsIgnored` | internal/kratosclient/admin.go:116-137 | two emails match exactly when they differ at most in the case of ASCII letters |
| `KratosPages.AllIdentitiesByEmail` | internal/kratosclient/admin.go:479-499 | the map of last identities by email, or an error if any page fails |
| `KratosPages.LookupsAgreeExactly` | internal/kratosclient/admin.go:116-137 | over the same pages both know the same emails, and give the same id exactly when first and last identity with the email have it |
| `KratosPages.UniqueEmailsAgree` | internal/kratosclient/admin.go:479-499 | if no two identities share a nonempty email the two lookups agree |
| `LinkHeader.SplitCSV` | internal/kratosclient/admin.go:526-545 | the scanning loop yields the parts between commas outside angle brackets |
| `LinkHeader.ParseNextPageToken` | internal/kratosclient/admin.go:503-524 | the token is taken from the first part that has the text `rel="next"` and a URL that parses |
| `LinkHeader.HeaderSplits` | internal/kratosclient/admin.go:526-545 | a header of section 3 of RFC 8288, blanks around its commas included, is split between its links and at the commas of their parameters, not at those of their URIs |
| `LinkHeader.NextIsExactly` | internal/kratosclient/admin.go:503-559 | for every header the next page is the URI of the first usable link with the text `rel="next"` before the first comma of its parameters |
| `LinkParams.HeadSpells` | internal/kratosclient/admin.go:547-550 | in a link with parameters of the RFC's grammar that text is there exactly when some parameter with a name ending in `rel` has the quoted value `next`, and none before it holds a comma |
| `LinkParams.ReadsAsTheRFC` | internal/kratosclient/admin.go:547-550 | unless another parameter is so written, that is exactly when the RFC reads `next` among the relation types of `rel`, `rel` is written `rel="next"`, and no parameter before it holds a comma |
| `LinkParams.NextIsFirstLink` | internal/kratosclient/admin.go:503-559 | of the first link that names a usable next page by the RFC: it is taken exactly when it is so written, and otherwise the search goes on behind it; without such a link there is no next page |
| `LinkParams.QuotedCommaLosesNext` | internal/kratosclient/admin.go:526-545 | the next page of `<u>; title="a,b"; rel="next"`, by the RFC one link that names it, is lost |
| `LinkParams.TokenLosesNext` | internal/kratosclient/admin.go:547-550 | so is that of `<u>; rel=next` |
| `LinkParams.LongerNameIsTaken` | internal/kratosclient/admin.go:547-550 | `<u>; xrel="next"`, which names no next page by the RFC, is taken for one |
| `CronCommand.HasUnquotedMetachar` | internal/cronvalidate/cron.go:77-109 | the nested loops terminate and answer exactly whether a quote automaton reads a metacharacter outside quotes; the next two lemmas say what that means |
| `CronCommand.QuotesHide` | internal/cronvalidate/cron.go:55-109 | outside quotes the sixteen metacharacters count; a single-quoted part, and a double-quoted one with its backslash escapes, closed or not, hides whatever it holds |
| `CronCommand.MetaAcross` | internal/cronvalidate/cron.go:77-109 | of two texts, the first ending outside quotes, one after the other: either has a metacharacter outside quotes |
| `CronCommand.BuildExecLines` | panel-agent/internal/commands/cron_apply.go:182-229 | the ExecStart and ExecStartPre lines: the quoted argv, and the quoted docroot of `GuardIs` |
| `CronCommand.GuardIs` | panel-agent/internal/commands/cron_apply.go:192-229 | the docroot checked beforehand is the first one that is, or is above, the first absolute argument that has any |
| `CronCommand.ExecStartRoundTrip` | panel-agent/internal/commands/cron_apply.go:182-190 | splitting the ExecStart value by section 2.2 of POSIX.1-2017 XCU gives the argv back, for every argv |
| `ShellWords.QuotedSpells` | panel-agent/internal/commands/cron_apply.go:248-253 | single quotes around a text whose quotes are patched spell the text, wherever the word stands |
| `SftpCommand.SFTPCommandFlag` | internal/backup/sftpopts.go:51-88 | when an override is emitted, and its text, by the command lines below |
| `SftpCommand.BuildSSHMkdirArgs` | internal/backup/sftpmkdir.go:49-71 | the argv of the mkdir helper |
| `SftpCommand.CommandLines` | internal/backup/sftpopts.go:51-88 | the command line for a password, for a key and for neither, with the port when it is not 22, and when there is an override |
| `SftpCommand.ShellQuoteSpells` | internal/backup/sftpopts.go:94-99 | a nonempty key path with blanks, quotes or backslashes reads as itself |
| `SftpCommand.BuildersAgree` | internal/backup/sftpopts.go:51-99 | both builders run the same command up to user@host exactly when no newline in the key path goes unquoted |
| `EnvFile.CredsDir.WriteCreds` | panel-agent/internal/commands/backup_dest_creds.go:32-81 | ok exactly when it works and the destination, the keys and the values are valid; each error's cause; an ok write stores one line per key in some order, any other one changes no file |
| `EnvFile.IDsExactly` | panel-agent/internal/commands/backup_dest_creds.go:102-115 | destinations have 26 characters, capitals and digits |
| `EnvFile.KeysExactly` | panel-agent/internal/commands/backup_dest_creds.go:117-131 | keys are made of capitals, underscores and, behind the first character, digits |
| `EnvFile.LoadEnvFile` | internal/backup/copy.go:54-82 | missing, unreadable and readable files |
| `EnvFile.LoadsEach` | internal/backup/copy.go:65-81 | line by line: a line too long or without `=` ends it with its error, blank lines and comments are left out, any other line gives an entry without white space around it |
| `EnvFile.Utf8Bounds` | internal/backup/copy.go:65-81 | the size of a line counts the bytes of UTF-8 |
| `EnvFile.LoadAfterWrite` | internal/backup/copy.go:65-81 | loading a written file gives one entry per key, its value without trailing white space, and fails exactly when a line exceeds the scanner's limit |
| `EnvFile.EntriesDetermined` | internal/backup/copy.go:65-81 | the entries do not depend on the order, and a value survives exactly when it has no trailing white space |
| `Chunked.Dechunk` | install/adminer/jabali-sso-plugin.php:115-129 | terminates on every byte string, and computes the decoding the lemmas describe |
| `Chunked.DecodesAny` | install/adminer/jabali-sso-plugin.php:115-129 | from any line end on: nothing once a size reads as 0, else as much of the data as there is, and what follows two bytes later |
| `Chunked.NothingDecoded` | install/adminer/jabali-sso-plugin.php:115-129 | nothing comes of a rest in which no line ends |
| `Chunked.SizeReads` | install/adminer/jabali-sso-plugin.php:122 | a size is read digit by digit, in either case, other characters skipped |
| `Chunked.ChunkedRoundTrip` | install/adminer/jabali-sso-plugin.php:115-129 | chunks of section 7.1 of RFC 9112 without extensions decode to their concatenation, CRLF in the data included |
| `Chunked.DecodeSent` | install/adminer/jabali-sso-plugin.php:115-129 | the same for any size lines that read as the data lengths, whatever follows the last chunk |
| `Chunked.ExtensionKeepsSize` | install/adminer/jabali-sso-plugin.php:115-129 | an extension is harmless exactly when it holds no hexadecimal digit |
| `Disclaimer.SieveIsPerCharacter` | panel-agent/internal/commands/domain_disclaimer_apply.go:157-163 | the chain of replacements is one per-character map |
| `Disclaimer.SieveReadsBack` | panel-agent/internal/commands/domain_disclaimer_apply.go:157-163 | by section 2.4.2 of RFC 5228 the text stays inside its quoted string, which ends at the quote after it |
| `Disclaimer.ShownUnchanged` | panel-agent/internal/commands/domain_disclaimer_apply.go:154-163 | the string reads as the text exactly when the text has no line break |
| `Disclaimer.HtmlIsPerCharacter` | panel-agent/internal/commands/domain_disclaimer_apply.go:167-173 | the chain of replacements is one per-character map |
| `Disclaimer.HtmlReadsBack` | panel-agent/internal/commands/domain_disclaimer_apply.go:167-173 | escaped text holds no markup character and unescapes to the text |
| `Disclaimer.HtmlPartReadsBack` | panel-agent/internal/commands/domain_disclaimer_apply.go:132-134 | the twice escaped HTML part shows what the plain part shows |
| `OsUsers.SelectOSUsernames` | panel-agent/internal/commands/backup_system.go:1038-1075 | the users and primary gids of the selected passwd lines |
| `OsUsers.ReadGroupGIDMap` | panel-agent/internal/commands/backup_system.go:1077-1096 | group names by gid, the last row winning, comments included |
| `OsUsers.ReadGroupFile` | panel-agent/internal/commands/backup_system.go:1134-1161 | the kept group rows in order |
| `OsUsers.ReadKeyedFile` | panel-agent/internal/commands/backup_system.go:1100-1123 | the kept rows of passwd, shadow and gshadow in order |
| `OsUsers.LoadFilteredOSUsers` | panel-agent/internal/commands/backup_system.go:1006-1031 | which failed reads end the stage, and that the others only empty their part of the filtered files, which the next lemma describes |
| `OsUsersBundle.BundleHolds` | panel-agent/internal/commands/backup_system.go:1006-1188 | the four filtered files hold, in order and as often as they occur, exactly the passwd and shadow lines that name a hosting account, the group rows of the panel, of a hosting account or with a gid from 1000 up, and the gshadow lines that name one of the five groups of the panel |
| `OsUsersBundle.AtoiReads` | panel-agent/internal/commands/backup_system.go:1062-1063 | a number in decimal reads as itself |
| `OsUsers.KeyedByName` | panel-agent/internal/commands/backup_system.go:1100-1123 | a row is kept exactly when its nonempty first field is a kept name and a colon follows |
| `OsUsers.BundleIsClosed` | panel-agent/internal/commands/backup_system.go:1134-1161 | every non-comment group row with the primary gid of a selected line is bundled, and so is the line if it has a name |
| `OsUsers.StableExactly` | panel-agent/internal/commands/backup_system.go:1006-1188 | filtering the bundle again keeps passwd, shadow and gshadow, and the group rows exactly when, in the four files, each row kept for its gid alone is the primary group of a passwd line that has the nonempty name of a selected user and that the group rows other than comments select |
| `OsUsers.NamedUsersAreStable` | panel-agent/internal/commands/backup_system.go:1006-1188 | if every selected line has a name, the bundle is stable |
| `OsUsers.NamelessUserOrphansItsGroup` | panel-agent/internal/commands/backup_system.go:1038-1075 | two rows, `:x:1000:77` and `foo:x:77`, for which a second filtering drops the group |
| `BackupJobs.JobSlots.Acquire` | panel-agent/internal/commands/backup_create.go:39-48 | taken exactly when free; otherwise the job holding the slot is named |
| `BackupJobs.JobSlots.Release` | panel-agent/internal/commands/backup_create.go:50-54 | frees the slot and no other |
| `BackupJobs.AlwaysExclusive` | panel-agent/internal/commands/backup_create.go:28-54 | after any interleaving of starts and ends no two running jobs share a slot, and the open slots are theirs |
| `BackupJobs.RefusedWhileRunning` | panel-agent/internal/commands/backup_create.go:131-139 | a request is refused exactly while a job of the same kind, user and repository runs, and is told that job |
| `BackupJobs.SlotsDiffer` | panel-agent/internal/commands/backup_create.go:39-48 | different kind, user and repository have different slots |
| `BackupJobs.StripTar` | panel-agent/internal/commands/backup_create.go:539-555 | computes what the next lemmas describe |
| `BackupJobs.TarRoundTrip` | panel-agent/internal/commands/backup_create.go:534-555 | behind a header with its octal size a file comes out whole, whatever follows, exactly when it is not empty |
| `BackupJobs.KeepsTheRest` | panel-agent/internal/commands/backup_create.go:539-555 | without the letters `ustar` at their place, or with a size that runs past the end, everything is kept |
| `BackupJobs.SizeBetween` | panel-agent/internal/commands/backup_create.go:543 | the size stands between white space, and that between NULs |
| `BackupJobs.OctalDigits` | panel-agent/internal/commands/backup_create.go:544-550 | it is read in octal, up to the first other character |
| `BackupJobs.EmptyFileKeepsHeader` | panel-agent/internal/commands/backup_create.go:551-553 | a header with size 0 is taken for no header, so everything is kept |

## Left out

- FileOps.FileSystem.FilesCopy: as for files.move, both paths are ones Scope.Resolve accepted, so a destination that does not exist has no component beginning with two dots; symbolic links are leaves and no ancestor is one; modes, ownership, quotas and concurrent changes of the tree are not modelled. When the destination's parent does not exist and the source is a directory, a rollback leaves the created ancestors, and the contract says so.
- FileSafe.Scope.Resolve: symbolic-link resolution is an oracle; races between check and use are not modelled. The numeric user id of a scope is left out.
- QuotaMount.InnermostMount: holds for tables of normalised absolute mount points; escapes such as `\040` in mount tables are not decoded, as in the code.
- Convergence.SameLoginConverges: needs the ids of pools, domains, mailboxes and database users in the bundle to be distinct, as they are primary keys at the source.
- AccountRuns.ThreeRuns: needs distinct ids in the bundle as above, every grant to carry an id, at most one identity stored with the account's email, and lookups that work; a failed lookup by email silently gives a fresh identity.
- Reconstruct.Restorer.ReconstructAccountState: the end of a statement is a function of its row, so a statement that occurs twice in a run ends the same both times. SQL text, its escaping, collations, column truncation and time columns are not modelled; a mailbox's cached address is its local part with its domain. The `applied` report lines are left out, warnings are kept by kind. Kratos' own schema is not part of this model: credentials are taken to refer to their identity. `JSON_EXTRACT` is taken to return the email as it is stored.
- CronCommand.ExecStartRoundTrip: uses the POSIX rules; systemd's own unquoting (its specifiers, variables and backslash escapes) differs and is not modelled. The wp, php and schedule validators around the scan are left out.
- SftpCommand.BuildersAgree: expansions of a shell (`$`, backquotes) are not modelled; restic splits the option without them.
- Chunked.Dechunk: sizes beyond PHP's integer range, which hexdec turns into floats, are not modelled.
- Disclaimer.SieveReadsBack: the `variables` extension, which expands `${...}` in the text, is not modelled.
- DbConfig.MariaDB.ApplySettings: only the MariaDB engine; the Postgres handler and `PostgresStatements` are left out. Floats are rationals with infinities and NaN, and `strconv.ParseFloat` is a parameter.
- EnvFile.LoadEnvFile: an I/O error in the middle of a file is the same as one at its start.
- ResticKeys.Repository.Rotate: failures before the first command (no binary, no temp file) are not modelled. One rotation at a time; two concurrent rotations of one repository are not modelled.
- Whoami.Client.Whoami: the hash is a function and collisions are allowed; the remote endpoint is an oracle.
- OsUsers.LoadFilteredOSUsers: a failed read is a failed read of the whole file; the scanner's line limit is one way to fail.
- LinkHeader.NextIsExactly: headers whose URIs and parameters hold no angle bracket, and whose links are separated by commas with blanks around them.
- LinkParams.NextIsFirstLink: as above, with parameters in the grammar of RFC 8288, no quotes in URIs, and no parameter written `rel="next"` but the first `rel`; `LinkParams.HeadSpells` has no such condition.
- TuningValues.ValidParts: `strconv.ParseFloat` is a parameter that takes no text with white space or `=`.
- KratosPages.IdentityIDByEmail: the chain of page tokens is finite and one listing is not interleaved with changes; URL and query parsing are parameters.
- BackupJobs.StripTar: Unicode white space in the size field is not modelled; twelve octal digits cannot overflow the code's 64-bit size.
- Dkim.KeyDir.Rotate: Ed25519 is a function from seeds to public keys, so two rotations may draw the same seed.
- DbConfig.DiskHoldsLastGood: the server's own state is a list of answered pings; the result of the reload is ignored by the code, so a server that answers may still run an older configuration. An agent that dies between swapping the drop-in and the reload, after which the gate skips that drop-in for ever, is not modelled.
- Vhost.OkAfterAnyRun: a handler runs to its end; an agent that dies between the write and the reload is not modelled, and an entry in sites-enabled that is no link to the site file is not loaded in the model.
- The nginx template, its directives and `pathsUnderHome`: the rendered vhost is an opaque text.
- Backup and restore orchestration (stage lists, the status kept by stage name, manifest selection, newest-first sorts): bookkeeping around subprocesses.
- `validateAndNormalizePrivileges`, phpext, tag builders, regular-expression checks and one-branch handlers: left out.
- Subprocess, socket and HTTP plumbing, the web interface and the install scripts: outside the model.

# A model of DNF's own algorithms

DNF leaves dependency solving to libdnf and the transaction itself to rpm. What it keeps in Python
are protocols, parsers, schedulers and greedy allocators. This project models seven of them in
Dafny and proves what they are for. A module holds the functions that say what a part of the
program computes; where the program changes fields or variables step by step, a class or a method
with the same loops is proved to compute that function.

`dafny verify dfyconfig.toml` checks everything.

## What is modelled

**Process lock** (`dnf/lock.py`; LockProtocol, LockInvariant, LockRuns, LockNecessity,
ProcessLock, Decimal). The pid-file protocol as single system calls of any number of processes:
open, flock, read, judge, truncate, write, close, retry, unlink, crash. A state keeps the inode
that the path names apart from unlinked inodes that are still open. In every reachable state one
live process at most is inside a `with` body, the path names a file with its pid, and nobody
changes an unlinked file. This rests on assumptions: pids are not reused, a pid is written in one
step, each process uses one lock object per target, inode numbers are not reused, and a process
that unlinked the file does not die while another process has that inode open and is still to
judge the pid in it. The last one is needed because the inode is not looked at again after flock:
LockRuns ends with a run in which two processes hold the lock without it, and LockNecessity shows
that every death it rules out lets another process take the lock from the unlinked file, beside
whoever has it. The class ProcessLock has the fields and methods of the original. Of its errors a
LockError, and only that, leaves `count` raised and the thread lock taken; it is raised exactly if
the first attempt that need not wait reads a file that is neither free nor a number.

**Alias resolver** (`dnf/cli/aliases.py`; Aliases). Resolution with its stack and hoisted options,
against expansion that has neither stack nor cycle check. The "infinite recursion" error is raised
exactly when that expansion never ends. A resolved command resolves to itself, unless a backslash
was stripped on the way; then it does so exactly if resolution stops at its first word or that
alias gives back its own name.

**Release notes** (`scripts/update_releasenotes.py`; TextLines, ReleaseNotes, ReleaseRoundTrip,
ReleaseUpdate, ReleaseMeaning, ReleaseNotesParser). The line-driven parser, the printer and the
updater. Printing undoes parsing exactly on texts whose lines of `=` all sit in exact title
frames; parsing undoes printing exactly on well-formed lists. The updater's documentation promises
that an issue is not added twice. If no line of `=` is kept as text, updating twice gives the same
text as updating once except in one case: the section to extend is the last one, has no issues,
and its description lacks a final newline; the issue is then glued to the description and added
again by each update. An issue number that is given twice for a new section is listed twice, and
notes without any section get none. A line of `=` is kept as text only after a title whose
underline is missing; printed again, it is read as an overline. If an overline is shorter than the
title's fixed text, the title pattern's repetition bound is negative and stands for literal text;
the model does the same.

**Delta rpms** (`dnf/drpm.py`, `dnf/repo.py`, `dnf/base.py`; Payloads, DeltaScheduler, DeltaInfo,
Downloads, DownloadLoops). The choice of a delta, the bounded job scheduler over any sequence of
calls, and the download loop with its retries and accounting. `retries = 0` means forever, but
there is at most one retry: retried packages are plain rpms, which enqueue nothing.

**From goal to settled items** (`dnf/base.py`, `dnf/db/group.py`, `dnf/db/history.py`,
`dnf/util.py`; TransactionItems, RpmTransaction, GoalTransaction, GoalMeaning, GoalLoops,
StateSync, RpmSync, EndToEnd). The solver's goal becomes history items, these become rpm commands,
and after rpm has run its elements are matched back to items. The greedy matching is complete
exactly when keyless elements and open backward items agree in number for each NEVRA and every
forward item is a key. For a goal's transaction both hold, whatever the order of the elements and
whatever failed. It is assumed that `addItem` gives a new item in an unknown state, that rpm hands
back one element for each add call, and that the two ways of writing a NEVRA agree.

**Widths** (`dnf/cli/output.py`; Columns, CalcColumns, PostTransaction). The greedy allocation of
column widths and the round-robin layout of the post-transaction listing. `calcColumns` documents
`columns` as minimum widths; a column can end up narrower, as CalcColumns shows with widths 5 and
5 that become 2 and 9; the bound that holds is the smaller of the starting width and the shortest
item. A single column raises ZeroDivisionError exactly if there are spaces to hand out and no item
fills the available width exactly, even if every item fits; from a width of 0 the first item may
also exceed it by one. Where the terminal width is not known, full widths are used only if their
sum exceeds the default width, without counting separators: items of 27, 27 and 26 overflow at a
default width of 80.

**Text and progress** (`dnf/i18n.py`, `dnf/cli/progress.py`; TextWidth, TextWrap, TextWrapFill,
TextLayout, ProgressMeter). The wrapper's loops are proved to lay a text out as follows. The words
of the output are the words of the text, in order. An input line starts a new output line exactly
if the one before it fitted, or if it is blank, a list item, or a block outside of a list; the
output line then starts with its indent. Every other output line continues a wrapped input line,
behind the subsequent indent and as many spaces as the text column of its list item; the line
before it had no room for its first word. No word stands on a line that had no room for it, unless
the line is no wider than the subsequent indent. With a blank subsequent indent the wrapper keeps
every non-blank character in order and adds none; a line that is too wide is a single word behind
something no wider than the subsequent indent, or behind that indent and spaces; or it is the
initial indent alone. The three Unicode bullets that it lists are never recognised: the test
before them looks for the first byte of their encoding, which a text string no longer has. A list
item is one or more of the four other bullets followed by a space. The progress meter's sizes add
up over any sequence of calls.

## Model

| member | source | states |
|---|---|---|
| LockInvariant.StepKeepsInv | dnf/lock.py:79-147 | every step of every process, crashes included, keeps the inductive invariant that tells the named inode from unlinked ones |
| LockRuns.ReachableInv | dnf/lock.py:79-147 | the invariant holds in every state of every run that meets the assumption |
| LockRuns.MutualExclusion | dnf/lock.py:79-147 | in every reachable state at most one live process is inside a `with` body, and the path names a file with its pid |
| LockRuns.NoWriteToOrphan | dnf/lock.py:90-114 | whatever file a step changes is the one the path names |
| LockRuns.OnlyOwnerUnlinks | dnf/lock.py:144-147 | the path stops naming a file only by the outermost exit of the process whose pid is in it |
| LockRuns.CountIsDepth | dnf/lock.py:73-77 | `count` is the nesting depth, plus one while `__enter__` or `__exit__` runs |
| LockRuns.ErrorsThatCannotHappen | dnf/lock.py:96-107 | "malformed lock file" is never reported, nor "already locked" to a process that holds the lock |
| LockRuns.ExitAlwaysPossible | dnf/lock.py:144-147 | the unlink at the outermost exit always finds a file |
| LockRuns.TwoHoldersWithoutAssumption | dnf/lock.py:79-114 | without the assumption about dying processes there is a run in which two processes hold the lock |
| LockNecessity.ForbiddenDeathBreaks | dnf/lock.py:79-147 | whenever the assumption is not met and the process dies all the same, another one goes on to take the lock from the unlinked file, and who had the lock keeps it |
| ProcessLock.StepsMakeTryLock | dnf/lock.py:79-119 | the small steps of a process that has the flock add up to the verdict and the file contents of `_try_lock` |
| ProcessLock.StepsMakeEntering | dnf/lock.py:125-142 | the small steps from outside add up to `__enter__` as far as its first sleep: inside, raised with or without `count`, or about to try again, with the file it leaves |
| ProcessLock.PidFile | dnf/lock.py:90-117 | an empty file, its own pid and a dead one are taken over; the pid of a live process stays and is returned |
| ProcessLock.TryTextReads | dnf/lock.py:90-117 | `_try_lock` succeeds exactly if the file is empty, holds its pid or a dead one, and then the file reads as its pid |
| ProcessLock.EnteringDecided | dnf/lock.py:125-142 | the first attempt that need not wait decides: success if the file is free, LockError if it is malformed, else ProcessLockError with its pid |
| ProcessLock.EnteringWaits | dnf/lock.py:131-142 | if every attempt must wait, `__enter__` goes on waiting |
| ProcessLock.EnteringMine | dnf/lock.py:105-107 | while the file is its own, a process only ever waits for the flock |
| ProcessLock.MalformedAtOnce | dnf/lock.py:96-103 | there is a file at which a LockError is raised and `count` stays raised |
| ProcessLock.ProcessLock.constructor | dnf/lock.py:66-71 | a new lock object: count 0, thread lock free |
| ProcessLock.ProcessLock.LockThread | dnf/lock.py:73-77 | fails exactly if another thread has the lock; otherwise count and recursion go up by one |
| ProcessLock.ProcessLock.TryLock | dnf/lock.py:79-119 | verdict and new file contents, with and without a foreign flock |
| ProcessLock.ProcessLock.UnlockThread | dnf/lock.py:121-123 | count and recursion go down by one, and the last release frees the thread lock |
| ProcessLock.ProcessLock.Enter | dnf/lock.py:125-142 | result and machine for every pre-state and all sleeps, as `Entering` gives them, and what happens to count and the thread lock |
| ProcessLock.ProcessLock.Exit | dnf/lock.py:144-147 | only the outermost exit removes the file |
| ProcessLock.ProcessLock.Run | dnf/lock.py:125-147 | any nesting of `with` statements that comes to its end brings count back, and removes the file exactly if it was the outermost, whatever the machine was like at first |
| Decimal.IntOfStr | dnf/lock.py:93-97 | `int(str(pid))` is the pid |
| Decimal.IntOfSigned | dnf/lock.py:96-97 | a sign in front of the number counts |
| Decimal.IntOfPadded | dnf/lock.py:96-97 | white space around it does not |
| Decimal.StrInjective | dnf/lock.py:93-106 | two pids are never written alike |
| Aliases.Sub | dnf/cli/aliases.py:171-198 | the recursion ends on every alias map, and an empty result takes exactly one entry off the stack |
| Aliases.RecursionIffDiverges | dnf/cli/aliases.py:156-201 | the error is raised exactly if naive expansion runs out of every amount of fuel |
| Aliases.ResolveIsNaiveExpansion | dnf/cli/aliases.py:156-201 | otherwise the hoisted options and the command are those of naive expansion |
| Aliases.SubAgrees | dnf/cli/aliases.py:171-198 | a call under any stack agrees with naive expansion, where `nested` says that the stack is not empty |
| Aliases.CycleRecurs | dnf/cli/aliases.py:187-198 | a cycle is reported only if expanding some alias on the stack needs expanding it again with less fuel |
| Aliases.ResolvedIsFixedPoint | dnf/cli/aliases.py:156-201 | a result for which no backslash was stripped resolves to itself |
| Aliases.FixedPointExactly | dnf/cli/aliases.py:156-201 | any arguments resolve to themselves exactly if resolution stops at their first word or their alias gives back its own name |
| Aliases.StrippedIsNotFixed | dnf/cli/aliases.py:177-182 | with a stripped backslash the result can be an alias and resolve further |
| Aliases.ResolveNothing | dnf/cli/aliases.py:160-185 | options, and a word that is no alias or starts with a backslash, stay as they are |
| Aliases.ResolveAlias | dnf/cli/aliases.py:160-198 | an alias gives its options, hoisted behind those before it, and its words without a backslash, in front of the other arguments |
| Aliases.ResolveOptionsAlias | dnf/cli/aliases.py:187-198 | an alias for options only is hoisted, and resolution goes on behind it |
| Aliases.ResolveOneWord | dnf/cli/aliases.py:177-185 | an alias for one final word resolves to that word without its backslash |
| Aliases.Resolver.constructor | dnf/cli/aliases.py:156-158 | a resolver with its aliases and its switch |
| Aliases.Resolver.StorePrefix | dnf/cli/aliases.py:160-169 | the leading options, empty words included, are hoisted and the rest is returned |
| Aliases.Resolver.SubResolve | dnf/cli/aliases.py:171-198 | the recursion on the shared stack and options computes `Sub` |
| Aliases.Resolver.ResolveArgs | dnf/cli/aliases.py:203-209 | failed or disabled resolution leaves the arguments as they are |
| ReleaseRoundTrip.PrintUndoesParse | scripts/update_releasenotes.py:278-301 | printing the parsed text gives the text exactly if each line of `=` sits in an exact title frame |
| ReleaseRoundTrip.ParseUndoesPrint | scripts/update_releasenotes.py:576-596 | parsing printed releases gives the releases exactly if they are well formed |
| ReleaseRoundTrip.ExactParsesWellFormed | scripts/update_releasenotes.py:548-596 | what a text with exact frames parses to is well formed |
| ReleaseRoundTrip.OutputExact | scripts/update_releasenotes.py:548-574 | from any parser state outside a frame, what is printed again is all lines exactly if the frames are exact |
| ReleaseRoundTrip.OutputBound | scripts/update_releasenotes.py:548-574 | parsing and printing never makes a text longer |
| ReleaseRoundTrip.BrokenFrameLoses | scripts/update_releasenotes.py:510-574 | after an overline that starts no frame some line is lost |
| ReleaseRoundTrip.ParsedWellFormedExactly | scripts/update_releasenotes.py:548-596 | what any text parses to is well formed exactly if no line of `=` was kept as text |
| ReleaseUpdate.AddIssuesMeaning | scripts/update_releasenotes.py:269-274 | the old list stays at the end, each new issue is added, no others, and no duplicate arises |
| ReleaseUpdate.DuplicatesExactly | scripts/update_releasenotes.py:264-275 | exactly when no section of the version lists an issue twice after the update |
| ReleaseUpdate.IssueTwice | scripts/update_releasenotes.py:267-268 | an issue given twice for a new section is listed twice |
| ReleaseUpdate.BrokenFrameChanges | scripts/update_releasenotes.py:333-336 | where a line of `=` is kept as text, the second update can change the text |
| ReleaseMeaning.SectionPrepended | scripts/update_releasenotes.py:264-275 | a missing section, with an empty line, the issues as given and an empty line, is put right before the first titled one; without one nothing changes |
| ReleaseMeaning.SectionsExtended | scripts/update_releasenotes.py:264-275 | with the section there, each section of the version gets the missing issues in front, and nothing else changes |
| ReleaseMeaning.AddIssuesExactly | scripts/update_releasenotes.py:269-274 | the missing issues come in front in the order given, each where it is given last |
| ReleaseMeaning.FormatMeaning | scripts/update_releasenotes.py:293-301 | a release is printed as its exact frame, its description, one line for each issue in order, and its epilog |
| ReleaseMeaning.NewSectionText | scripts/update_releasenotes.py:333-336 | the new text is the old one with a frame of exact width, an empty line, a line for each issue in order and an empty line right before the first title frame |
| ReleaseMeaning.TitleRecognised | scripts/update_releasenotes.py:502-508 | under n signs a title is recognised exactly if its version has at most n - 14 characters |
| ReleaseMeaning.WideFrame | scripts/update_releasenotes.py:510-574 | a frame wider than its title starts a section all the same |
| ReleaseUpdate.ExtendWithPrepend | scripts/update_releasenotes.py:264-275 | a missing section is put right before the first one that has a version |
| ReleaseUpdate.ExtendWithoutPrepend | scripts/update_releasenotes.py:264-275 | with the section there, each section of the version is extended and nothing else changes |
| ReleaseUpdate.UpdateIdempotent | scripts/update_releasenotes.py:333-336 | if no line of `=` is kept as text, updating twice equals updating once, except exactly when an issue is glued to an unfinished last line |
| ReleaseUpdate.UpdateGlues | scripts/update_releasenotes.py:333-336 | in that case the second update makes the text longer |
| ReleaseUpdate.UpdateCanGlue | scripts/update_releasenotes.py:333-336 | there is such a text |
| ReleaseUpdate.SettledStays | scripts/update_releasenotes.py:264-275 | releases that list the issues already are not changed |
| ReleaseNotesParser.ReleaseNotesParser.constructor | scripts/update_releasenotes.py:431-439 | a parser that has read nothing |
| ReleaseNotesParser.ReleaseNotesParser.LastVersion | scripts/update_releasenotes.py:442-454 | the open section with its lines joined |
| ReleaseNotesParser.ReleaseNotesParser.ParseOverline | scripts/update_releasenotes.py:470-487 | an overline starts to expect a title, and any other line changes nothing |
| ReleaseNotesParser.ReleaseNotesParser.ParseTitle | scripts/update_releasenotes.py:489-508 | a title that is not too long is kept; any other line ends the expectation |
| ReleaseNotesParser.ReleaseNotesParser.ParseUnderline | scripts/update_releasenotes.py:510-528 | the same line again ends the open section and starts the next one |
| ReleaseNotesParser.ReleaseNotesParser.ParseIssue | scripts/update_releasenotes.py:530-546 | an issue line adds its number |
| ReleaseNotesParser.ReleaseNotesParser.ParseNextLine | scripts/update_releasenotes.py:548-574 | one line moves the parser object as `ParseLine` moves the state |
| ReleaseNotesParser.ReleaseNotesParser.ParseAll | scripts/update_releasenotes.py:576-596 | the loop over the lines computes `ParseLines` |
| ReleaseNotesParser.ExtendReleasesLoop | scripts/update_releasenotes.py:264-275 | the loop over the releases computes `ExtendReleases`, of which ReleaseMeaning says what it prepends and extends |
| ReleaseNotesParser.AddIssuesLoop | scripts/update_releasenotes.py:270-274 | the loop over the reversed issues computes `AddIssues` |
| ReleaseNotesParser.UpdateNotes | scripts/update_releasenotes.py:333-336 | parse, extend and print in a loop computes `Update`, whose text NewSectionText gives |
| DeltaInfo.DeltaInfo.constructor | dnf/drpm.py:85-106 | a delta context with nothing queued |
| DeltaInfo.DeltaInfo.DeltaFactory | dnf/drpm.py:108-132 | the first among the smallest deltas strictly below the percentage of the package, or None exactly if a check fails or there is none |
| DeltaInfo.DeltaInfo.JobDone | dnf/drpm.py:134-148 | a finished job leaves `jobs`, and its package goes to `err` unless the rebuild worked and its checksum fits |
| DeltaInfo.DeltaInfo.StartJob | dnf/drpm.py:150-158 | a started payload is listed under its pid |
| DeltaInfo.DeltaInfo.Enqueue | dnf/drpm.py:160-171 | the two loops compute `Enqueue`, whatever the system returns |
| DeltaInfo.DeltaInfo.Wait | dnf/drpm.py:173-179 | the loop ends, and computes `Wait` |
| DeltaScheduler.ReachableIsFifo | dnf/drpm.py:134-179 | after any sequence of calls jobs have started in the order of arrival, and what started is running or done |
| DeltaScheduler.JobsBounded | dnf/drpm.py:160-179 | with at least one slot, never more jobs than slots run, and payloads wait only when all slots are taken |
| DeltaScheduler.WaitFinishesAll | dnf/drpm.py:173-179 | `wait` leaves every payload that ever arrived finished exactly once, exactly if there is a slot at all or none arrived |
| DeltaScheduler.JobDoneMeaning | dnf/drpm.py:134-148 | after a child ends, its package is in `err` exactly if it was before, or the code is not 0 or the rebuilt package fails its check |
| DeltaScheduler.WaitErrsAreFailures | dnf/drpm.py:173-179 | `wait` adds to `err` exactly the packages of children that ended with a nonzero code or built a package that fails its check |
| DeltaScheduler.EnqueueErrsAreFailures | dnf/drpm.py:160-171 | so does `enqueue` for the children that it finds ended |
| DeltaScheduler.ReapsAll | dnf/drpm.py:160-166 | `enqueue` first reaps every child that has ended |
| DeltaScheduler.WaitErrors | dnf/drpm.py:134-179 | the same over the recorded exits, as a union of sets |
| DeltaScheduler.BagWithout | dnf/drpm.py:139-139 | taking a job out of `jobs` takes its payload out once |
| Downloads.TargetsArePayloads | dnf/repo.py:89-94 | sorting deltas first neither loses nor repeats a payload |
| Downloads.TargetsInOrder | dnf/repo.py:89-94 | deltas come first, and within deltas and within the others the order stays |
| Downloads.EnqueuedExactly | dnf/drpm.py:48-51 | exactly the deltas whose download did not fail are enqueued |
| Downloads.RoundErrorsMeaning | dnf/repo.py:104-115 | failed targets are irrecoverable, those already there are skipped, all others are neither |
| Downloads.RecoverableExactly | dnf/repo.py:92-103 | with a slot for jobs, every downloaded delta is rebuilt once, and exactly the packages of failed rebuilds can be retried |
| Downloads.RecoverableAreDeltas | dnf/repo.py:92-103 | only packages whose delta was downloaded but could not be rebuilt can be retried |
| Downloads.RpmRoundIsLast | dnf/base.py:1262-1283 | a round of plain rpms after another round leaves nothing to retry |
| Downloads.NoJobsAfterRound | dnf/repo.py:100-100 | no rebuild is running after a round, whatever the number of slots |
| Downloads.FullOnce | dnf/repo.py:120-129 | what is counted as full now and the packages still to retry make up every package once |
| Downloads.SpentExactly | dnf/repo.py:120-129 | the bytes spent in a first round are the full sizes less what the deltas save |
| Downloads.SpentBound | dnf/repo.py:120-129 | bytes spent, failed deltas and retries included, are at most (100 + percentage) percent of the full sizes, and at most those if nothing failed |
| Downloads.BandwidthAndSkipped | dnf/repo.py:154-157 | the bandwidth used and the bytes of skipped packages make up what is counted as spent |
| Downloads.RetrySaving | dnf/base.py:1283-1283 | a retry spends, and counts as full, the sizes of its packages |
| DownloadLoops.DownloadAndRebuild | dnf/repo.py:92-100 | end callbacks enqueue downloaded deltas, then the rebuilds are waited for |
| DownloadLoops.CollectErrors | dnf/repo.py:104-115 | targets are sorted into skipped and irrecoverable ones |
| DownloadLoops.DownloadPayloads | dnf/repo.py:87-117 | the whole round: scheduler and errors afterwards |
| DownloadLoops.ComputeSaving | dnf/repo.py:120-129 | the loop of `_update_saving` |
| DownloadLoops.ComputeBandwidth | dnf/repo.py:154-157 | the sum of the bandwidth used |
| DownloadLoops.RpmPayloads | dnf/base.py:1269-1272 | the retry has one plain rpm for each package that can be retried |
| DownloadLoops.DownloadRemotePayloads | dnf/base.py:1238-1290 | at most one retry for every value of `retries`; when an error is raised; every package counts as full once; the bounds on bytes spent; and bandwidth plus skipped bytes is what was spent |
| RpmTransaction.RPMTransaction.constructor | dnf/db/group.py:202-210 | an empty transaction |
| RpmTransaction.RPMTransaction.New | dnf/db/group.py:240-249 | a fresh item at the end, with the recorded reason unless one is given |
| RpmTransaction.RPMTransaction.AddObsoleted | dnf/db/group.py:265-270 | one obsoleted item for each package, replaced by the given item |
| RpmTransaction.RPMTransaction.AddReplacing | dnf/db/group.py:272-298 | the common part of downgrade, reinstall and upgrade: forward item, replaced item, obsoleted items |
| RpmTransaction.RPMTransaction.AddDowngrade | dnf/db/group.py:272-275 | the items of a downgrade |
| RpmTransaction.RPMTransaction.AddInstall | dnf/db/group.py:280-284 | the items of an install; without a reason it is the user's |
| RpmTransaction.RPMTransaction.AddReinstall | dnf/db/group.py:286-289 | the items of a reinstall |
| RpmTransaction.RPMTransaction.AddUpgrade | dnf/db/group.py:295-298 | the items of an upgrade |
| RpmTransaction.RPMTransaction.AddErase | dnf/db/group.py:277-293 | a removal; an unknown reason becomes the user's |
| RpmTransaction.RPMTransaction.AddReasonChange | dnf/db/history.py:394-401 | a reason change, done at once |
| RpmTransaction.PerformInitial | dnf/db/group.py:240-298 | after any calls each replaced item is replaced by the forward item of its own call and no other, and nothing is settled yet |
| RpmTransaction.PerformPackages | dnf/db/group.py:240-298 | action by action, the items' packages are the calls' packages in order |
| RpmTransaction.CommandAt | dnf/db/group.py:318-352 | the commands stand in the order of the items, one for each item but reason changes |
| RpmTransaction.CommandsExactly | dnf/db/group.py:318-352 | for each item and kind of command: `u` exactly for a downgrade, an obsoleting or an upgrade, `i` exactly for an install, a reinstall exactly for a reinstall, an erase exactly for the rest but reason changes |
| RpmTransaction.CommandsAreSets | dnf/db/group.py:364-386 | rpm is told to install `install_set` and to erase `remove_set` |
| RpmTransaction.PopulateRpmTs | dnf/db/group.py:314-362 | the loop over the items gives `Commands`, which CommandsExactly spells out; the modular error is raised exactly if some new package fails the check |
| RpmTransaction.ComputeInstallSet | dnf/db/group.py:364-374 | the packages of the forward items |
| RpmTransaction.ComputeRemoveSet | dnf/db/group.py:376-386 | the packages of the backward items, reinstalled ones included |
| GoalTransaction.ArrangeKeeps | dnf/base.py:766-772 | reordering for a reinstall loses nothing |
| GoalTransaction.ArrangeFirst | dnf/base.py:766-773 | a package of the same NEVRA comes first exactly if there is one |
| GoalTransaction.Upgradee | dnf/base.py:802-812 | the first package of the same name, else the first one; None exactly if there is none |
| GoalTransaction.Remaining | dnf/base.py:828-834 | a package of the same name and architecture that stays installed, if there is any |
| GoalTransaction.BestReasonIsBest | dnf/base.py:791-795 | the reason of an install is at least as good as those of all it obsoletes, and one of them or its own |
| GoalTransaction.ReplacedPackages | dnf/base.py:755-825 | how often each package is replaced by each job's forward item |
| GoalTransaction.GoalFails | dnf/base.py:755-812 | the translation fails exactly if some downgrade, reinstall or upgrade obsoletes nothing |
| GoalTransaction.GoalItemsMeaning | dnf/base.py:748-840 | action by action, items are the goal's packages in order, upgrades of install-only packages being installs, and each other item is replaced by exactly the forward item of its call |
| GoalTransaction.GoalReasons | dnf/base.py:783-797 | installs get their own or an inherited reason, removals the goal's or the user's, all other items the one on record |
| GoalMeaning.ArrangeExactly | dnf/base.py:766-772 | packages of the NEVRA first, the last one before the others, then the rest in order |
| GoalMeaning.KeptExactly | dnf/base.py:778-781 | a package is kept in its place exactly if it is obsoleted in the whole goal or has the name |
| GoalMeaning.BestReasonFirst | dnf/base.py:791-795 | the reason is the first of the best ones, if that is better than its own |
| GoalMeaning.RemainingFirst | dnf/base.py:828-834 | the first of the packages that stay is taken |
| GoalMeaning.DowngradeItems | dnf/base.py:755-760 | a downgrade replaces the first package it obsoletes as downgraded, and the others as obsoleted |
| GoalMeaning.ReinstallItems | dnf/base.py:761-774 | a reinstall replaces a package that it obsoletes as reinstalled, of its NEVRA exactly if there is one |
| GoalMeaning.InstallItems | dnf/base.py:775-799 | an install with its own or an inherited reason, and after it the kept packages that it obsoletes |
| GoalMeaning.UpgradeItems | dnf/base.py:800-823 | an upgrade replaces the first package of its name that it obsoletes, or else the first one, as upgraded |
| GoalMeaning.EraseItems | dnf/base.py:826-839 | an erasure comes right after the reason change of what stays of its name and architecture, if anything does |
| GoalMeaning.GoalCommands | dnf/db/group.py:318-352 | for each package: rpm is told `u` exactly for downgrades and for upgrades that are not install-only, `i` exactly for installs and the other upgrades, a reinstall exactly for reinstalls |
| GoalLoops.ArrangeObsoleted | dnf/base.py:767-772 | the loop that puts the same NEVRA first |
| GoalLoops.FilterObsoleted | dnf/base.py:778-781 | the filter of obsoleted packages |
| GoalLoops.InheritReason | dnf/base.py:791-795 | the loop for the best reason |
| GoalLoops.PickUpgraded | dnf/base.py:802-812 | the loop for the upgraded package |
| GoalLoops.FindRemaining | dnf/base.py:828-834 | the query for what remains installed |
| GoalLoops.DowngradeLoop | dnf/base.py:755-760 | the loop over downgrades makes the calls of its jobs |
| GoalLoops.ReinstallLoop | dnf/base.py:761-774 | the loop over reinstalls |
| GoalLoops.InstallLoop | dnf/base.py:775-799 | the loop over installs |
| GoalLoops.UpgradeLoop | dnf/base.py:800-825 | the loop over upgrades |
| GoalLoops.EraseLoop | dnf/base.py:826-839 | the loop over erasures, with the reason changes |
| GoalLoops.GoalToTransaction | dnf/base.py:748-840 | all loops together build the items of the goal, and tell whether one failed |
| StateSync.ClaimsInjective | dnf/util.py:458-477 | no two elements claim the same item |
| StateSync.StateMeaning | dnf/util.py:474-478 | an item's state is the outcome of the element that claimed it, or what it was |
| StateSync.GreedyCounts | dnf/util.py:462-473 | NEVRA by NEVRA, items left over and elements not found are the exact surplus of one over the other |
| StateSync.Completeness | dnf/util.py:449-486 | nothing is reported exactly if keyless elements and open backward items agree for each NEVRA and every forward item is a key |
| StateSync.ErrorsAreFailures | dnf/util.py:474-478 | as many items become errors as found elements failed |
| TransactionItems.KeylessPermuted | dnf/util.py:458-469 | the order of the elements does not matter for the count |
| RpmSync.FindCandidate | dnf/util.py:462-469 | the inner loop finds the first unsettled backward item of the NEVRA |
| RpmSync.SyncElements | dnf/util.py:458-478 | the outer loop sets the states, and tells whether an element was not found and whether one failed |
| RpmSync.SyncRpmTransWithSwdb | dnf/util.py:449-486 | the whole function, on items changed in place: new states, and a report exactly if sync is not complete |
| EndToEnd.OneErasePerItem | dnf/db/group.py:318-352 | rpm gets one keyless erase for each backward item |
| EndToEnd.OneInstallPerItem | dnf/db/group.py:318-352 | rpm gets one keyed install for each forward item |
| EndToEnd.SyncSettles | dnf/util.py:449-486 | for any untouched items and any order and failures of their elements, sync settles every item and reports nothing |
| EndToEnd.GoalIsSettled | dnf/base.py:748-840 | from goal to settled items: every item done or an error, as many errors as failures, no item claimed twice |
| Columns.HelpsCounts | dnf/cli/output.py:129-136 | spaces help exactly the items that are no longer than the column would be with them, by their counts |
| Columns.PickInNumbers | dnf/cli/output.py:219-236 | in numbers of items that would fit: the last column is expanded only if twice as many fit as in any other; else the best column, the rightmost among equals; none exactly if nothing more fits |
| Columns.PickMeaning | dnf/cli/output.py:219-236 | the same in terms of `Helps`, for items in any order |
| Columns.DistributeMeaning | dnf/cli/output.py:249-271 | the final split, column by column: the share of overflowed columns, the share of all but the last, and the remainder |
| Columns.AllocateConserves | dnf/cli/output.py:218-271 | the loop hands out exactly the spaces there are, up to the last column's separator |
| Columns.AllocateFits | dnf/cli/output.py:218-271 | if the spaces cover what all columns need, no item overflows, despite the greedy choice |
| Columns.AllocateKeepsMinimum | dnf/cli/output.py:218-271 | no column gets narrower than the smaller of its width and its shortest item |
| Columns.AllocateOne | dnf/cli/output.py:218-271 | a single column ends in the error exactly if no item fills it exactly |
| Columns.DistributeConserves | dnf/cli/output.py:249-271 | the final split uses up what was left |
| CalcColumns.NoOverflow | dnf/cli/output.py:146-273 | a width that covers each column's longest item or starting width, separators and indent is enough |
| CalcColumns.OverflowExactly | dnf/cli/output.py:146-273 | no item overflows if full widths are used, starting widths are enough or the width covers all needs; otherwise one does, with one space of doubt if the last column starts at 0 |
| CalcColumns.OneSpaceLess | dnf/cli/output.py:240-246 | in that one space of doubt both happen |
| CalcColumns.NoOverflowInPipe | dnf/cli/output.py:199-212 | the same where the terminal width is not known |
| CalcColumns.OverflowInPipe | dnf/cli/output.py:199-212 | full widths that just fit the default width leave no space for separators, and an item overflows |
| CalcColumns.ZeroDivisionExactly | dnf/cli/output.py:249-271 | an error is raised exactly for a single column with spaces to hand out that no item fills exactly |
| CalcColumns.ZeroDivisionOnRoom | dnf/cli/output.py:249-271 | an item of 3 in a single column of 80 raises it |
| CalcColumns.WidthConserved | dnf/cli/output.py:215-273 | with spaces to hand out, the total width is exceeded by one at most, and only if the last column started at 0; it is met if that column started positive and has no empty items |
| CalcColumns.MinimumKept | dnf/cli/output.py:156-160 | no column ends narrower than the smaller of its starting width and its shortest item, and none changes without spaces to hand out |
| CalcColumns.MinimumIsTight | dnf/cli/output.py:156-160 | every column with an item shorter than its starting width ends at that bound in some call |
| CalcColumns.MinimumNotKept | dnf/cli/output.py:156-160 | widths of 5 and 5 become 2 and 9 |
| CalcColumns.SpacesHelps | dnf/cli/output.py:129-136 | the loop gives the total count of the items that fit with the spaces |
| CalcColumns.FindColumn | dnf/cli/output.py:220-236 | the loop that finds the column to expand |
| CalcColumns.DistributeRest | dnf/cli/output.py:249-271 | the final split, or the ZeroDivisionError of a single column |
| CalcColumns.CalcColumnsLoop | dnf/cli/output.py:146-273 | the whole method, with its loop, computes `Calc` |
| PostTransaction.FitsInCols | dnf/cli/output.py:1353-1378 | a column count is accepted exactly if its longest messages, gaps and margin leave a space free; each column is then as wide as its longest message and an equal share of what is left |
| PostTransaction.ColumnMaxIsThere | dnf/cli/output.py:1361-1371 | some message of the column is that long |
| PostTransaction.ChooseColumns | dnf/cli/output.py:1387-1392 | the largest count from 8 down to 2 that fits, or one column |
| PostTransaction.Rows | dnf/cli/output.py:1393-1396 | every message is printed once, in order, in full rows but for the last |
| PostTransaction.PtoRows | dnf/cli/output.py:1350-1397 | both together |
| TextWidth.WidthCounts | dnf/i18n.py:151-178 | one column for each character and one more for each wide one |
| TextWidth.ChopMeaning | dnf/i18n.py:165-171 | chopping leaves the longest prefix that is not too wide |
| TextWidth.ChopStr | dnf/i18n.py:155-172 | the loop leaves the chopped message and its width |
| TextWidth.FillExactWidth | dnf/i18n.py:181-212 | the chopped message between prefix and suffix, padded with spaces on one side to exactly `fill` unless it is wider |
| TextWrap.IndentAtBegLoop | dnf/i18n.py:219-236 | the bullet scan with its loop and recursion ends, and computes `IndentAtBeg` |
| TextWrap.IndentAtBeg | dnf/i18n.py:219-236 | the leading spaces, and a text column behind one of four bullets within the line |
| TextWrap.ItemExactly | dnf/i18n.py:219-235 | a line is a list item exactly if its leading spaces are followed by one or more of four bullets and then a space |
| TextWrap.UnicodeBulletsIgnored | dnf/i18n.py:226-235 | lines with Unicode bullets are never list items |
| TextWrap.TextColumn | dnf/i18n.py:219-235 | the text column of an item is behind all its bullets and spaces, right behind a space, with no space and no further item there |
| TextWrap.TextStartsOnce | dnf/i18n.py:219-235 | there is only one such column |
| TextWrap.TabsExpanded | dnf/i18n.py:238-238 | a tab becomes eight spaces, all else stays |
| TextWrap.JoinOfSplit | dnf/i18n.py:238-238 | joining the split lines gives the text |
| TextWrapFill.WrapWords | dnf/i18n.py:280-286 | the loop over the words places each in order; lines are broken exactly where they must be |
| TextWrapFill.PlaceLine | dnf/i18n.py:268-287 | the rest of the body places a line whole if it fits, and wraps it otherwise |
| TextWrapFill.WrapLines | dnf/i18n.py:237-289 | the loop over the lines lays the text out |
| TextLayout.NewLineExactly | dnf/i18n.py:248-266 | an input line starts a new output line, with all words before it on earlier lines and behind its indent, exactly if it is the first, the one before fitted, it is a list item or blank, or it is a block that differs from the line before outside of a list |
| TextLayout.StartsInOrder | dnf/i18n.py:245-287 | lines that start an output line start later ones in turn |
| TextLayout.BlankLine | dnf/i18n.py:253-265 | a blank line ends the paragraph before it; if its indent fits, it is alone on its line |
| TextLayout.FittingLine | dnf/i18n.py:270-274 | a line is wrapped exactly if it is too wide behind what is pending; otherwise it ends an output line, letter by letter |
| TextLayout.FirstOrContinues | dnf/i18n.py:276-286 | every other output line continues a wrapped input line, behind the subsequent indent and the spaces of the text column or of the block; and the line before it had no room for its first word |
| TextLayout.ColumnOfHead | dnf/i18n.py:266-268 | all lines of a paragraph hang at the text column of its first line |
| TextLayout.WordsOfLine | dnf/i18n.py:280-286 | a line is its start and its words, each of which fitted or had no better place |
| TextLayout.WordsKept | dnf/i18n.py:237-291 | the words of the output lines are the words of the text, in order |
| TextLayout.TextwrapFill | dnf/i18n.py:215-291 | the whole function: its lines are laid out so, each fits or is one word, and the non-blank characters are those of indent and text exactly if there is one line or the subsequent indent is blank |
| ProgressMeter.Run | dnf/cli/progress.py:65-201 | after any calls `active` lists exactly the keys of `state`, each once |
| ProgressMeter.SizesAddUp | dnf/cli/progress.py:65-201 | `done_size` is the bytes of active downloads and the full sizes of the items counted since the last start, and `done_files` their number |
| ProgressMeter.RateMeaning | dnf/cli/progress.py:102-113 | a sample moves the rate towards itself by the part of the averaging period that went by, at most all the way; the first sample is the rate |
| ProgressMeter.ProgressMeaning | dnf/cli/progress.py:82-100 | what one `progress` call leaves of state, bytes done, size, time stamps and rate, and when the display is updated |
| ProgressMeter.TotalsStay | dnf/cli/progress.py:65-163 | files and delta rpms announced stay as the last `start` has them, and every delta rpm that ends is counted |
| ProgressMeter.TotalSizeMeaning | dnf/cli/progress.py:65-100 | the total size is the one announced, or a larger one reported since |
| ProgressMeter.RatesNotNegative | dnf/cli/progress.py:102-113 | no rate is ever negative for a positive averaging period |
| ProgressMeter.RemoveFirst | dnf/cli/progress.py:168-168 | `list.remove` |
| ProgressMeter.MultiFileProgressMeter.constructor | dnf/cli/progress.py:37-60 | an idle meter |
| ProgressMeter.MultiFileProgressMeter.Start | dnf/cli/progress.py:65-80 | everything is reset |
| ProgressMeter.MultiFileProgressMeter.ComputeRate | dnf/cli/progress.py:103-112 | the averaging |
| ProgressMeter.MultiFileProgressMeter.Update | dnf/cli/progress.py:102-119 | rate and time stamps; the index of the download shown is in range |
| ProgressMeter.MultiFileProgressMeter.Progress | dnf/cli/progress.py:82-100 | `progress` on the fields |
| ProgressMeter.MultiFileProgressMeter.Close | dnf/cli/progress.py:161-174 | the state changes of `end`, in the order of its cases |
| ProgressMeter.MultiFileProgressMeter.End | dnf/cli/progress.py:155-201 | `end` on the fields |

## Left out

- Everything inside libdnf, hawkey, librepo, libcomps and rpm: depsolving, queries, the history database, checksums. Their answers are parameters.
- System calls are abstract steps in the lock model; `_fit_lock_dir`, `ensure_dir`, logging and the length of a sleep are left out, and so is a process reading a pid file that another program wrote.
- LockProtocol has one thread for each process; threads that compete for one lock object appear only in the class ProcessLock.
- CalcColumns.CalcColumnsLoop: works on a copy of `columns`, while the original changes the caller's list as well; it gets each dictionary as the list of its pairs, whose order is an assumption (Ascending) where it matters.
- CalcColumns.OverflowExactly: where the last column starts at 0 and one space is missing, the greedy turns decide; columns that start wider than one of their items are left to NoOverflow.
- CalcColumns.MinimumKept: does not say which calls narrow a column with a shorter item, because that depends on what the other columns take in every turn; MinimumIsTight gives one for each such column.
- ReleaseUpdate.UpdateIdempotent: says nothing of texts in which a line of `=` is kept as text, because such lines can form new frames when they are printed; BrokenFrameChanges gives one.
- ProcessLock.ProcessLock.Run: what other processes do to the machine between two statements is given with the statements, and inside they leave a file with the holder's pid alone, as LockRuns.NoWriteToOrphan and LockRuns.OnlyOwnerUnlinks have it.
- TextLayout.FirstOrContinues: where a blank input line is wider than the width with its indent alone, the start of its output line is not stated, because its spaces are stripped before the next line is joined with it.
- Aliases.Resolver.ResolveArgs: the options and the stack that a failed resolution leaves behind are not stated, because the next call resets them.
- Reading and writing alias and notes files, the git log, the spec file, and the diff that `update_notes` logs.
- The regular expressions are direct predicates on strings; only the digits 0 to 9 count as digits, and only `\n` ends a line.
- A retry takes its packages in any order; the original takes the order in which rebuilds failed.
- `DeltaInfo` has no children but its jobs; another child's pid would raise a KeyError.
- `retries < 0` is modelled, but the full size is only promised for `retries >= 0`: below, packages are not retried and not counted.
- Progress callbacks, `fail_fast`, mirrors, and the messages about bytes saved.
- rpm merges two erase commands for one installed package, which the one-element-for-each-command assumption rules out; StateSync.Completeness says what sync does then.
- Reasons are numbers with a rank; how libdnf orders them is not modelled.
- Comps groups, modules, transaction replay, plugins, configuration, signatures and the option parser.
- Rendering in `dnf/cli/progress.py` and `dnf/cli/output.py`: bars, colours, number formats, translations.
- `select_short_long`, `format_time` and other one-branch helpers.

# Verified model of the builder

The builder accepts `git push` over SSH, serves it in a repository directory of its own, and turns the
pushed code into an image. This project models the parts of it where the order of events, the naming of
things or the handling of failures is delicate, and proves what they guarantee.

**Concurrent pushes** (`RepoLock`, `PushProtocol`, `PushLocking`, `PushHistory`, `PushDirectories`, `PushOutcomes`,
`PushNames`). Any number of calls of the lock wrapper run concurrently. Each has a caller and a worker; they
share the lock table, the mutex around directory creation and the directories below the git home. The model
is a transition system whose steps are the synchronisation points of the code: taking and releasing the
lock, spawning the worker, the select over timer and result channel, the deferred steps in last-in first-out
order, and inside the worker the reply, permission check, stat, mkdir, `git init`, serving and removal.
Results say what holds in every interleaving and, in `PushOutcomes`, what can happen in some. A call that times out releases the lock while its worker goes on,
so bodies of one repository can overlap; the theorems say exactly how far, and for exactly which lists of
repository names the directories nevertheless stay apart. `PushDirectories` proves this for arbitrary paths;
`PushNames` derives the paths from the names, as the server does.

**Health and readiness handlers** (`HealthFanIn`). A handler counts receives from its checks without
recording who sent. The model has any number of checks; the program has two per handler.

**Names and keys** (`RepoNames`, `Permission`, `BuildKeys`). How spellings of a repository become a lock
key, which names pass the permission check, how build and cleaner recover the application name from the
directory, and which storage keys the cleaner's regular expression accepts. The regular expression engine is
a parameter; `BuildKeys.EngineIsSound` says what is taken for granted about it: that it gives the usual
meaning to patterns of plain characters, dots and one-digit repeat counts between two anchors.

**The cleaner** (`Cleaner`). One pass as methods on a host with directory entries and storage objects, with
failures of single operations as a parameter.

**SSH channels** (`SshAnswer`, `PktLine`, `Fingerprint`), **the builder job** (`BuilderJob`,
`NodeSelector`), **waiting** (`ObjectWait`, `ProgressHandshake`). `Runs`, `GoStrings` and `Hex` hold what
these share.

Clocks, the network, Kubernetes, git and the storage appear as parameters or as choices of the environment.
The answering code says in a comment that the channel stays open after a failed exec; it does not, and the
model follows the code. `SshAnswer.Written` gives the text of each event; that of a refused push is framed by `PktLine`.

`dafny verify dfyconfig.toml` checks everything.

## Model

| member | source | states |
|---|---|---|
| RepoLock.InMemoryRepoLock.constructor | pkg/sshd/lock.go:50-56 | a new lock has an empty table and the given timeout |
| RepoLock.InMemoryRepoLock.Lock | pkg/sshd/lock.go:65-76 | succeeds exactly when the name was absent; the table gains that name and nothing else changes |
| RepoLock.InMemoryRepoLock.Unlock | pkg/sshd/lock.go:80-94 | fails exactly when the name is absent; an entry that is true is deleted, nothing else changes |
| RepoLock.UnlockUndoesLock | pkg/sshd/lock.go:65-94 | unlocking after a successful lock restores the table; no other name is affected |
| RepoLock.TableLaws | pkg/sshd/lock.go:65-94 | a refused lock leaves the table as it is; only an entry that is true is deleted; other names keep their entries |
| PushLocking.InvKept | pkg/sshd/lock.go:24-47 | every step of every call keeps: table entries match holders one to one, the creation mutex matches the worker inside createRepo, caller, worker and done channel of each call fit together |
| PushLocking.LockedIffOneHolder | pkg/sshd/lock.go:24-47 | in every reachable state a name is in the table exactly when some call for it is between Lock and deferred Unlock, and then only one is |
| PushLocking.UnlockReleasesOwnLock | pkg/sshd/lock.go:39 | the deferred Unlock always finds its entry and removes it, and every other holder's entry stays |
| PushLocking.OneLiveBodyPerRepo | pkg/sshd/lock.go:24-47 | of two workers running for one repository at least one belongs to a call that has timed out |
| PushLocking.ReturnedCalls | pkg/sshd/lock.go:25-46 | a refused call never started its body; a call that got a result returns exactly the body's result; after a timeout the worker is finished, in its body, or able to stop |
| PushLocking.DoneClosedBeforeRelease | pkg/sshd/lock.go:39-43 | a timed-out call has closed the done channel before it gives up the lock |
| PushLocking.InFlightCanMove | pkg/sshd/lock.go:24-47 | no deadlock: a push in flight, or the one inside createRepo, always has a step other than a timeout |
| PushLocking.RunsAreBounded | pkg/sshd/lock.go:24-47 | no interleaving of n pushes has more than 16 n steps |
| PushLocking.StuckMeansDone | pkg/sshd/lock.go:24-47 | where a run cannot go on, all callers have returned, no worker is left, the lock table is empty and the creation mutex free |
| PushHistory.OutcomeIsExplained | pkg/sshd/server.go:300-318 | in every run a call returns "already locked" for a refused Lock and no fired timer, a timeout exactly if its timer fired, and otherwise the verdict of the one step of its body (permission, stat, mkdir, init, serving) that decided it |
| PushHistory.NoReceiveWithoutPermission | pkg/sshd/server.go:302-306 | in every run each step of a receive comes after that push's own permission check passed |
| PushOutcomes.LockAnswersAtOnce | pkg/sshd/lock.go:25-27 | in every reachable state a push at its Lock is refused, and has returned without touching anything, exactly when another call holds its name; otherwise it becomes the holder |
| PushOutcomes.SecondIsRefused | pkg/sshd/lock.go:25-27 | two pushes of one name have a run in which the first serves and the second has returned "already locked" |
| PushOutcomes.TimesOutFromAnywhere | pkg/sshd/lock.go:28-43 | wherever the worker is, the timer may fire; the call then closes the done channel, frees its lock and returns, and leaves everything else alone |
| PushOutcomes.EveryVerdictIsReturned | pkg/git/git.go:57-64 | for every push and every reason (denied, stat, mkdir up to any parent, init, any end of serving) there is a run in which the client is told exactly that error, the directory is gone and only the parents made on the way stay |
| PushOutcomes.LookupIsHonest | pkg/git/git.go:134-152 | in every reachable state a directory that is there is used as it is, and one that is not there is made |
| PushOutcomes.FailedRemovalIsSilent | pkg/git/git.go:58 | a failed removal leaves the directories and changes nothing else |
| PushOutcomes.LosesDirectory | pkg/git/git.go:57-58 | a push whose directory is, or lies below, that of a push of another name has a run in which it serves while the other has ended and removed it |
| PushOutcomes.EitherAnswerIsPossible | pkg/sshd/server.go:300-304 | in every reachable state a body at its permission check can be permitted or denied, with any error |
| PushOutcomes.AnsweredByPermission | pkg/sshd/server.go:302-304 | in runs that decide permission by the substring search, a push that got a result was permitted if its name passes; otherwise its result is the permission error and no step of a receive was made for it |
| PushNames.NamesTidyIffSeparate | pkg/git/git.go:57-64 | for any list of repository names: in all runs receives find their directory absent, keep it until their own removal and leave nothing behind, exactly when the joined paths of the names have one component each and different names have different ones; with lock timeouts, exactly when moreover no two pushes share a path |
| PushNames.SlashFreePushesAreTidy | pkg/sshd/server.go:305 | names without slashes, repeated or not, are such names: their pushes are tidy in all runs without timeouts |
| PushNames.JoinDropsIdleComponents | pkg/git/git.go:57 | the path of a name drops empty components and single dots anywhere, and keeps every other component |
| PushNames.DoubleSlashCollides | pkg/sshd/server.go:365-374 | for every plain name n the request for //n gets the lock key /n, different from n, but the same directory, and there is a run without timeouts in which the second finds the first serving in it |
| PushNames.NestedNameLeavesParent | pkg/git/git.go:57-58 | for every plain name a/b there is a run at whose end nothing is in flight and the directory a is left |
| PushNames.InnerNameLosesDirectory | pkg/git/git.go:57-58 | for every plain slash-free name a, a push of a.git/b can lose its directory to a push of a while it serves |
| PushNames.NamesThatFail | pkg/git/git.go:57-58 | both failures at concrete requests: a/b, and x with //x |
| PushDirectories.TidyDespiteTimeoutsExactlyWhenAlone | pkg/sshd/lock.go:40-46 | with lock timeouts: the same holds exactly when no two pushes share a directory |
| PushDirectories.TimeoutIsNotFresh | pkg/sshd/lock.go:40-43 | two pushes of one name have a run in which, after a timeout of the first, the second finds the directory in use |
| PushDirectories.CompletedRunsLeaveNothing | pkg/git/git.go:57-64 | a complete run without timeouts answers every push with a refusal or its body's result and leaves no lock and no directory |
| RepoNames.SpellingsAgreeIffPlain | pkg/sshd/server.go:338-374 | all eight spellings of n (.git, leading slash, quotes) give the lock key n exactly when n is plain |
| RepoNames.DollarsVanish | pkg/sshd/server.go:338-346 | a dollar sign anywhere does not change the lock key, and a backtick counts as a quote |
| RepoNames.RefusedIff | pkg/sshd/server.go:365-371 | of names without these, exactly the empty one and those with double dots are refused, each with its own error |
| RepoNames.QuotesVanish | pkg/sshd/server.go:372 | a quote anywhere in an accepted name does not change the key |
| RepoNames.OneLayerIsRemoved | pkg/sshd/server.go:373 | exactly one leading slash and one final .git are removed, whatever is between; a name is its own key exactly when it has neither |
| RepoNames.AppOfRepoDir | pkg/gitreceive/config.go:37-43 | for every lock key, Config.App and the cleaner's suffix stripping both recover it from the directory name |
| RepoNames.AppIsBeforeLastDot | pkg/gitreceive/config.go:37-43 | the application of any repository name is what is before its last dot, or all of it |
| RepoNames.AcceptedDotDotIff | pkg/sshd/server.go:365-374 | an accepted name has double dots exactly when two dots of what was asked for have only quotes between them and the second does not begin a final .git |
| RepoNames.QuoteBetweenDots | pkg/sshd/server.go:369-373 | every name of the form .'.rest, with an ordinary rest, is such an accepted name |
| Permission.MayBuildIff | pkg/sshd/server.go:302 | the permission check passes every listed application and the empty name; any other name without comma and space passes exactly when it is a part of some listed name |
| Permission.AgreesWithListIff | pkg/sshd/server.go:302 | the check agrees with being listed exactly when the name is listed or is a part of no listed name |
| Permission.PartOfNamePasses | pkg/sshd/server.go:302 | foo passes for a user whose only application is foobar |
| Permission.AcrossTheSeparator | pkg/sshd/server.go:54 | a name written as two listed names with comma and space passes |
| SshAnswer.Answer | pkg/sshd/server.go:217-290 | consumes exactly the requests through the first exec and produces the specified transcript, with the reply of a timed-out body before the exit status, after it, or never |
| SshAnswer.RepliesAndStatuses | pkg/sshd/server.go:217-290 | each request gets at most one reply, those before the first exec exactly one, those after it none; at most one exit status |
| SshAnswer.CommandsByWord | pkg/sshd/server.go:231-246 | how a command is understood, by its first word and with or without an argument |
| SshAnswer.AnswerByCommand | pkg/sshd/server.go:233-280 | what the client of the first exec sees: ping gives pong, acceptance and 0; an unknown command a refusal and no status; git without a repository a refusal and 0; a bad name "No repo given" and nothing else; any other the status of the receive, and acceptance exactly if its body replies |
| SshAnswer.AnswerInOrder | pkg/sshd/server.go:233-280 | texts and refusals come before the status, the acknowledgement of a ping after it, that of a body as the body was early or late |
| SshAnswer.RefusalIsOneLine | pkg/sshd/server.go:256 | what a refused client reads is one pkt-line with the error |
| SshAnswer.ClientIsTold | pkg/sshd/server.go:251-270 | in every run and every continuation, the client of a returned push is sent acceptance exactly if its body replied, never a refusal, status 0 exactly if this push was served without error and timeout, and the error line exactly if its Lock was refused |
| SshAnswer.StatusTellsWhatHappened | pkg/sshd/server.go:252-270 | in every run of concurrent pushes, a client whose exec request names the repository of a returned push gets exactly one exit status, 0 exactly when serving git for this very push ended without error and its lock did not time out, else 1 |
| SshAnswer.RepliesFitOutcomes | pkg/sshd/server.go:300-304 | in every run, the body of a refused call never replies, however the run goes on, and that of a call with a result has replied before the call returns |
| PktLine.Stream.GitPktLine | pkg/sshd/server.go:377-380 | appends one framed line to what was written; fails exactly when the channel takes less than the line, and then only that part is written |
| PktLine.DecodesIffShort | pkg/sshd/server.go:377-380 | a sequence of lines decodes to the payloads that were written exactly when none exceeds 65516 bytes |
| PktLine.Hex4Is | pkg/sshd/server.go:378 | the length field denotes the length, with at least four digits and leading zeros only up to four |
| Fingerprint.Fingerprint | pkg/sshd/util.go:11-28 | the loop stays in its buffer and fills all 47 positions with the digits and colons of the digest |
| Fingerprint.DigitPositions | pkg/sshd/util.go:18-26 | byte k's digits are at 3k and 3k+1, colons at 3k+2 |
| Fingerprint.DigestRecovered | pkg/sshd/util.go:11-28 | removing colons and decoding gives the digest back |
| Hex.DigitIs | pkg/sshd/util.go:13-14 | digits are the lower-case hexadecimal ones |
| HealthFanIn.InvKept | pkg/healthsrv/healthz_handler.go:17-55 | every step keeps: the receive count equals the number of checks that delivered success, and stopCh is closed exactly when the handler has returned |
| HealthFanIn.OneHonestStatus | pkg/healthsrv/healthz_handler.go:32-55 | in every interleaving exactly one status is written, 200 exactly when all n checks delivered success, else 503 |
| HealthFanIn.StatusIsExplained | pkg/healthsrv/circuit_state.go:18-34 | in every run, 200 only if the call of every one of the n checks ended well, and 503 only if one ended in error or the timeout fired |
| HealthFanIn.StatusOfRun | pkg/healthsrv/healthz_handler.go:32-55 | the status of a returned handler is 200 exactly when all n services answered well and the timeout did not fire, else 503 |
| HealthFanIn.SelectTakesAnything | pkg/healthsrv/healthz_handler.go:33-53 | while the loop waits, the timeout can always end it with 503, and every offered verdict can be received |
| HealthFanIn.EveryRequestIsAnswered | pkg/healthsrv/readiness_handler.go:14-53 | for every behaviour of the n services, each answering well, badly or not at all, there is a run that returns, with 200 exactly when all answered well; silence leads to 503 |
| HealthFanIn.ChecksAreReleased | pkg/healthsrv/buckets_lister.go:21-34 | after the handler returned by any path, every check whose call has ended is done or can stop |
| HealthFanIn.NothingAfterReturn | pkg/healthsrv/namespace_lister.go:41-55 | no send completes and no status is written after the handler returned |
| HealthFanIn.LoopCanGoOn | pkg/healthsrv/readiness_handler.go:29-53 | while the loop runs, some check is still out whose verdict can be received once its call ends, or the loop is over |
| HealthFanIn.EveryRunEndsReleased | pkg/healthsrv/readiness_handler.go:14-53 | every run has at most 3n+3 steps, and at its end the handler has returned and all checks are done |
| BuildKeys.KeysDecode | pkg/gitreceive/build.go:36 | with hashes of equal length, equal keys have equal names and hashes |
| BuildKeys.KeysAreWritten | pkg/gitreceive/build.go:34-36 | the text of the keys |
| BuildKeys.ShortSha | pkg/git/sha.go:30-35 | accepts exactly 40 lower-case hexadecimal digits, and gives the first eight |
| BuildKeys.PatternMeansMatches | pkg/cleaner/cleaner.go:94 | the text compiled for a name in which only the dot is special stands for exactly the keys /home/name:git- with eight characters, the dots being wildcards |
| BuildKeys.OwnKeysMatch | pkg/cleaner/cleaner.go:93-100 | for a name in which only the dot is special, the compiled pattern of an application accepts the parent key of every tarball built for it |
| BuildKeys.NoForeignKeysIffNoDot | pkg/cleaner/cleaner.go:93-100 | for such names, the compiled pattern accepts no other application's keys exactly when the name has no dot |
| Cleaner.LocalDirs | pkg/cleaner/cleaner.go:29-45 | the names of the directories that pass the filter, in order |
| Cleaner.DirNamesMembers | pkg/cleaner/cleaner.go:35-43 | a name is listed exactly when it is a non-empty directory name other than "." that passes the filter |
| Cleaner.DirNamesConcat | pkg/cleaner/cleaner.go:35-43 | the listing keeps the order and lists no entry twice |
| Cleaner.StripSuffixes | pkg/cleaner/cleaner.go:69-80 | each string is cut before the last occurrence of the suffix |
| Cleaner.GetDiff | pkg/cleaner/cleaner.go:48-67 | the lower-cased names without a namespace, in order |
| Cleaner.UnmatchedMembers | pkg/cleaner/cleaner.go:48-67 | a name is in the difference exactly when it is some directory's lower-cased name and no namespace's |
| Cleaner.UnmatchedConcat | pkg/cleaner/cleaner.go:58-64 | the difference keeps the order and lists no name twice for one directory |
| Cleaner.FindApps | pkg/cleaner/cleaner.go:120-128 | the applications of git directories without a namespace, all and only those |
| Cleaner.Host.RemoveAll | pkg/cleaner/cleaner.go:131-134 | removes exactly the named entry unless its removal fails |
| Cleaner.Host.DeleteFromStorage | pkg/cleaner/cleaner.go:86-108 | fails exactly when listing, compiling or a matching delete fails; deletes only accepted objects, and all of them on success |
| Cleaner.Host.DeleteApps | pkg/cleaner/cleaner.go:130-138 | all removals and deletions happen whatever fails for other applications |
| Cleaner.Host.Pass | pkg/cleaner/cleaner.go:120-138 | one pass deletes exactly the applications without a namespace, from the git home and from the storage |
| Cleaner.RemovedIffOrphan | pkg/cleaner/cleaner.go:120-138 | a directory is removed exactly when it matches no namespace, its name is in lower case and its own removal succeeds |
| Cleaner.DirectoryGoesIffNoNamespace | pkg/cleaner/cleaner.go:48-67 | for an application with a name of lower-case letters, digits and dashes: its directory goes exactly when no namespace has that name, capitals apart, and its removal succeeds |
| Cleaner.LiveAppsSurvive | pkg/cleaner/cleaner.go:48-67 | no entry whose lower-cased name matches a namespace is removed |
| Cleaner.SecondPassIsIdle | pkg/cleaner/cleaner.go:112-138 | a second pass with unchanged namespaces has nothing to delete exactly when every orphan was in lower case and could be removed |
| Cleaner.LiveObjectsSurvive | pkg/cleaner/cleaner.go:86-108 | if the deleted names have no special characters, no object of a live application is deleted |
| Cleaner.DeletedObjectsGo | pkg/cleaner/cleaner.go:86-108 | no tarball of a deleted application remains unless deleting its objects failed |
| BuilderJob.Environ | pkg/sys/env.go:22-33 | exactly the variables with one of the prefixes, each with its first value |
| BuilderJob.FirstValueIs | pkg/sys/env.go:24-31 | the value kept is that of the first entry with the key |
| BuilderJob.FilteredByName | pkg/gitreceive/imagebuilder.go:38 | exactly the variables of the registry and of the storage are kept |
| BuilderJob.CheckImagebuilderRequiredEnv | pkg/gitreceive/imagebuilder.go:17-35 | no error exactly when all required variables and the one the location asks for are there; otherwise the first missing one is named |
| BuilderJob.CompleteIff | pkg/gitreceive/imagebuilder.go:17-35 | which variables are required, by name and location |
| BuilderJob.GetImagebuilderEnv | pkg/gitreceive/imagebuilder.go:37-59 | succeeds exactly when the filtered environment is complete, with exactly its settings (and the application as organization on-cluster) and the completed image name written through the pointer; on failure the image is untouched |
| BuilderJob.AddEnvToJob | pkg/gitreceive/k8s_util.go:172-179 | although the job is copied, the caller's first container gains the variable at the end, other containers are unchanged |
| BuilderJob.BuildJob | pkg/gitreceive/k8s_util.go:145-169 | the environment is the values of the global group in order, then the debug entry |
| BuilderJob.GlobalsAre | pkg/gitreceive/k8s_util.go:146-158 | exactly the values of the group global, each as often as given and in order |
| BuilderJob.GlobalsMembers | pkg/gitreceive/k8s_util.go:148-152 | a variable is among them exactly if the configuration has it in the group global |
| BuilderJob.LastGlobal | pkg/gitreceive/k8s_util.go:148-158 | of several global values of one name the last counts |
| BuilderJob.CreateBuilderJob | pkg/gitreceive/k8s_util.go:55-67 | then TAR_PATH, SOURCE_VERSION, IMAGE_NAME, then each setting once in some order |
| BuilderJob.OrderDoesNotMatter | pkg/gitreceive/k8s_util.go:63-65 | any two visiting orders give permutations and the same last-match value for every name |
| BuilderJob.WhatTheBuilderSees | pkg/gitreceive/k8s_util.go:55-67 | what any variable reads as in the builder: a passed-on setting, else one of the three job variables, else the debug flag, else the last global value |
| BuilderJob.JobVariablesNotShadowed | pkg/gitreceive/k8s_util.go:59-65 | neither configuration values nor settings hide the three variables, for every order |
| BuilderJob.SettingsAreImageKeys | pkg/gitreceive/imagebuilder.go:38-50 | settings read from any environment have names that cannot hide them |
| ObjectWait.ObjectExists | pkg/storage/object.go:18-29 | true exactly when found; an error exactly when the store failed otherwise than by not finding |
| ObjectWait.WaitForObject | pkg/storage/object.go:34-65 | stops at the first check that finds the object, and fails only after the check at the timeout failed |
| ObjectWait.FoundIffPresentAtTimeout | pkg/storage/object.go:31-33 | for an object that stays and a truthful store, success exactly when the object is there at the last check |
| ObjectWait.WaitOnTheClock | pkg/storage/object.go:34-65 | with instantaneous checks, success exactly when the object exists by the timeout, with at most 2 + timeout/tick stat calls |
| ProgressHandshake.ClosedOnceAndSilent | pkg/gitreceive/k8s_util.go:242-257 | quit is closed at most once, exactly once when the waiter is done, and then nothing more can happen |
| ProgressHandshake.CanAlwaysFinish | pkg/gitreceive/k8s_util.go:196-200 | no deadlock: from every reachable state at most five steps finish the handshake |
| ProgressHandshake.PrintsWhilePolling | pkg/gitreceive/k8s_util.go:246-254 | while the waiter polls, the message can be printed any number of times |
| NodeSelector.BuildBuilderPodNodeSelector | pkg/gitreceive/build.go:280-292 | computes the specified parse |
| NodeSelector.FailsIffColonsWrong | pkg/gitreceive/build.go:283-287 | fails exactly when a piece of a non-empty string does not have exactly one colon |
| NodeSelector.SelectorIsLast | pkg/gitreceive/build.go:288 | a key is selected exactly if some pair has it, with the value of the last such pair |
| NodeSelector.PrintedParses | pkg/gitreceive/build.go:280-292 | any list of plain pairs, printed with any padding, parses to the map in which later pairs win |

## Left out

- The SSH handshake, key loading, authentication and the listener: library and network code. In the push protocol the permission check may go either way; `Permission` says which way it goes, for a given list of applications, and `PushOutcomes.AnsweredByPermission` what follows for a run.
- Running git, tar and git-shell, and the hook script: foreign processes; a receive's service has an arbitrary result.
- The rest of the build: controller and Kubernetes calls, log streaming, YAML and JSON.
- The circuit, `CheckDurations`, job names, pull policies and stacks: reading them settles what they do.
- The "mock" receive type, fakes and mocks, charts and scripts.
- The concurrent protocols (lock wrapper and receive, health handlers, progress) are transition systems on values, not methods; time is only the choice of when a timer fires, and files inside a repository directory are not modelled.
- PushNames.NamesTidyIffSeparate: leaves out names with `..` as a path component, for which the joined path goes up.
- Permission.AgreesWithListIff: leaves out names with a comma or a space, which could reach across two listed names, and the empty name, which `Permission.MayBuildIff` covers.
- Strings are sequences of characters; `ToLower` changes ASCII letters only, and payload lengths count characters, one per byte.
- Regular expressions for names with special characters other than the dot: the engine's behaviour on them is a parameter.
- Cleaner.Host.Pass: failing removals leave the directory entry in place; the retry without pause after a listing error is not modelled.
- ObjectWait.WaitForObject: the times of wake-ups are an input; a slow check that makes the ticker drop ticks is just an input with fewer ticks.

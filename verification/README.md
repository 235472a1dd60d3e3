# Group lists, process groups, credentials, priorities, two thread queues and a speller

Four programs are modelled, and for each of them what holds of it for every input and in every run.

**`KernelDrivers_March2011/sys.c`**, the system calls of a kernel.

* `ShellSort`, `GroupSearch`, `GroupInfos`, `GroupStore`: supplementary groups. Lists of gids in
  blocks of pages are copied in, sorted in place, published, searched, shared and freed. The sort
  is proved through Knuth's Theorem K (The Art of Computer Programming, volume 3, section 5.2.1),
  the search with its 32-bit difference kept in an `int`, and the store with memory that may run
  out at any allocation and user memory that may end anywhere.
* `ProcessGroups`: `setpgid` and `setsid` (POSIX.1-2008, System Interfaces) on the table of
  processes, with fork, exec and exit as steps of their environment.
* `Credentials`: the `set*uid` and `set*gid` calls as a transition system over four ids.
* `Priority`: `setpriority` and `getpriority` as loops over the tasks that a selector names.

**`Examples/Threads/prodcons_threads.c`**: `RingQueue` is the step relation and the invariant,
`RingRuns` what holds in all runs, `RingLines` where the items come from, `RingProgress` how many
steps the threads make, `RingThreads` the functions of the threads on their shared variables. Any number of threads of each kind, any ring size.

**`Examples/Threads/thread_mutex_cond.c`**: `JobMonitor`, `JobRuns` and `JobThreads` in the same
way, the last with the linked list on the heap. Spurious wake-ups are allowed. The batch size of 5
is a parameter.

**`lua/Keyboard.lua`**: `FillButtons` gives requested letters to fill buttons, `Layouts` has the
searches for layouts and buttons, `Spellers` is the state machine, and `SpellerWidget` the methods
that update it in place.

Methods of the classes are proved to compute exactly what the functions of the models say; runs,
invariants and round trips are then proved of those functions. `Remainders` has facts about
division and `Errno` the error numbers. `dafny verify dfyconfig.toml` checks everything.

Where the code is not what its comments or its purpose suggest, the code is followed:

* `groups_search` misses members when gids are far apart. `AllMembersFoundIff` is the exact bound.
* `sys_setpriority` uses -ESRCH for "none found yet", so a security hook that refuses with -ESRCH
  is forgotten when a later task accepts. `CarryIsMeantIff` and `GetAfterSetIff` are exact.
* `setreuid(uid, uid)` drops nothing if uid is the value that means "leave as it is".
  `SetReDropsIff` is exact.
* The mailbox of `prodcons_threads.c` loses and repeats lines. `NoLineLostIff` says when it
  does not.
* `updateEnabled` gives a fill button to a requested code 0, which no button shows, instead of to a
  letter. `ZeroTakesAButtonIff` and `OnlyLettersGivenIff` are exact.
* A press on a disabled speller reports the letter under the cursor, requested or not.
  `PressReportsUnofferedIff` is exact.
* A fill button that the space is given to is enabled even while the entry field is empty.
  `SpaceOnEmptyFieldIff` is exact.
* A disabled speller accepts the focus from the right but not from the left.

In the thread programs a step is one lock, unlock, wait, post, signal or critical-section action.
A post hands its unit to a sleeping thread if there is one (`InterProcessCommunication`, lines
229 to 250). `pthread_cond_wait` releases the mutex and sleeps in one step, and takes the mutex
again before it returns.

## Model

| member | source | states |
|---|---|---|
| `ShellSort.TheoremK` | KernelDrivers_March2011/sys.c:1178-1194 | Knuth's Theorem K, for any two strides and any list: sorting each class of stride k, in whatever way, leaves a list sorted at stride h still sorted at h |
| `ShellSort.StrideOneIsAscending` | KernelDrivers_March2011/sys.c:1178-1194 | a list sorted at stride 1 is ascending throughout |
| `ShellSort.InsertStep` | KernelDrivers_March2011/sys.c:1185-1190 | one turn of the inner loop, moving an element up into the gap, keeps: putting the held element back gives a rearrangement within the classes, sorted but for that element |
| `ShellSort.InsertDone` | KernelDrivers_March2011/sys.c:1191-1191 | when the inner loop ends and the element is put into the gap, one more element is sorted at the stride, and only classes of the stride were rearranged |
| `ShellSort.StrideStepUndone` | KernelDrivers_March2011/sys.c:1174-1176 | (3s + 1) / 3 = s for every generated stride, so the descent goes back through the strides of the ascent |
| `ShellSort.DescentEndsAtOne` | KernelDrivers_March2011/sys.c:1178-1193 | from any generated stride above 0 the last pass has stride 1 |
| `GroupSearch.Difference` | KernelDrivers_March2011/sys.c:1209-1209 | the unsigned 32-bit difference read as an int: 0 exactly for equal gids, the true difference within 2^31, the wrong sign outside |
| `GroupSearch.FoundIsMember` | KernelDrivers_March2011/sys.c:1205-1217 | answer 1 implies membership, for any list, sorted or not, and any gids |
| `GroupSearch.MemberFoundIff` | KernelDrivers_March2011/sys.c:1205-1217 | in an ascending list a member is found if and only if the elements an exact bisection would compare it with all lie within the range of an int |
| `GroupSearch.AllMembersFoundIff` | KernelDrivers_March2011/sys.c:1205-1217 | an ascending list has all its members found if and only if largest minus middle is below 2^31 and middle minus smallest at most 2^31 |
| `GroupSearch.SearchDecides` | KernelDrivers_March2011/sys.c:1198-1218 | for a gid within 2^31 of every element of an ascending list, the search answers exactly membership |
| `GroupSearch.MemberMissed` | KernelDrivers_March2011/sys.c:1209-1213 | the bound is needed: a concrete ascending list whose last member is not found |
| `GroupInfos.DivisionAddresses` | KernelDrivers_March2011/sys.c:1183-1183 | the block and offset of a place, stepping through the blocks, are its quotient and remainder by NGROUPS_PER_BLOCK |
| `GroupInfos.RoundedUpDivision` | KernelDrivers_March2011/sys.c:1083-1085 | the rounded-up division with its "at least one" is the number of blocks that a list of that length begins |
| `GroupInfos.BlocksForBounds` | KernelDrivers_March2011/sys.c:1133-1144 | the blocks together hold the list, and every one of them starts inside it, so the remaining count never goes below 0 |
| `GroupInfos.GroupInfo.SetAt` | KernelDrivers_March2011/sys.c:1186-1191 | writing one place through the blocks changes that place of the list and no other |
| `GroupInfos.GroupInfo.FromUser` | KernelDrivers_March2011/sys.c:1149-1166 | stores exactly the first ngroups gids of user memory, for every length, if they are readable, and answers -EFAULT exactly if not |
| `GroupInfos.GroupInfo.ToUser` | KernelDrivers_March2011/sys.c:1129-1146 | returns exactly the stored list, for every length, if there is room for it; else -EFAULT with a prefix written |
| `GroupInfos.GroupInfo.StridePass` | KernelDrivers_March2011/sys.c:1179-1192 | one pass leaves the list sorted at its stride and at every stride it was sorted at before, with the same elements class by class |
| `GroupInfos.GroupInfo.Sink` | KernelDrivers_March2011/sys.c:1181-1191 | the insertion of one element down its class, through the blocks |
| `GroupInfos.GroupInfo.FirstStride` | KernelDrivers_March2011/sys.c:1174-1176 | the first pass has a generated stride, 0 only for fewer than two elements |
| `GroupInfos.GroupInfo.Sort` | KernelDrivers_March2011/sys.c:1169-1195 | groups_sort terminates and leaves an ascending permutation of the list |
| `GroupInfos.GroupInfo.GroupsSearch` | KernelDrivers_March2011/sys.c:1198-1218 | groups_search answers 1 exactly when the bisection with wrapped differences finds the gid, 0 without a list |
| `GroupStore.Kernel.AllocPages` | KernelDrivers_March2011/sys.c:1096-1111 | all pages, different and new, exactly if so many can be had; else the pages in use are exactly those before, at whichever page it failed |
| `GroupStore.Kernel.FreePages` | KernelDrivers_March2011/sys.c:1106-1109 | the undo loop frees exactly the pages taken, each once and only while in use |
| `GroupStore.Kernel.GroupsAlloc` | KernelDrivers_March2011/sys.c:1077-1112 | a well-formed list of the size with usage 1, exactly if memory is there for the structure and its pages; else nothing taken at all |
| `GroupStore.Kernel.GroupsFree` | KernelDrivers_March2011/sys.c:1116-1124 | exactly the structure and its pages go out of use |
| `GroupStore.Kernel.PutGroupInfo` | KernelDrivers_March2011/sys.c:1293-1293 | giving up a reference keeps every usage equal to the number of references, and frees a list exactly at its last one |
| `GroupStore.Kernel.SetCurrentGroups` | KernelDrivers_March2011/sys.c:1221-1241 | on success process t has the list, sorted, and its former one is given up; on failure nothing changed |
| `GroupStore.Kernel.SysSetGroups` | KernelDrivers_March2011/sys.c:1278-1301 | the answer is the error of the first cause that applies, exactly; on failure tasks, structures, pages and groups are as before; on success process t alone has a new list, the sorted one; in either case every usage equals its holders |
| `GroupStore.SetGroupsSucceedsIff` | KernelDrivers_March2011/sys.c:1283-1295 | exactly when setgroups succeeds, the empty list included, and the early errors |
| `GroupStore.Kernel.SysGetGroups` | KernelDrivers_March2011/sys.c:1245-1271 | the number or the stored list, and each error exactly for its cause |
| `GroupStore.Kernel.InGroupP` | KernelDrivers_March2011/sys.c:1306-1312 | 1 exactly if the gid is the fsgid or found in the list of process t |
| `GroupStore.Kernel.InEgroupP` | KernelDrivers_March2011/sys.c:1316-1322 | 1 exactly if the gid is the egid or found in the list of process t |
| `GroupStore.Kernel.Run` | KernelDrivers_March2011/sys.c:1226-1300 | any sequence of setgroups calls, successful or not, forks and exits keeps every usage equal to its holders and every page owned by one list in use; and the groups of all processes go through a run of these events |
| `GroupStore.Kernel.NothingLeaks` | KernelDrivers_March2011/sys.c:1116-1124 | between calls the structures in use are init_groups and those of tasks, and the pages in use are theirs |
| `GroupStore.MembershipAfterSetGroups` | KernelDrivers_March2011/sys.c:1278-1312 | for the sorted form of any list: in_group_p answers 1 exactly for the fsgid and the gids of the list that the search reaches with differences in range, so for all within 2^31 of the whole list |
| `GroupStore.MembershipInRun` | KernelDrivers_March2011/sys.c:1278-1322 | in every run of the system calls: from a successful setgroups(list) by a process until its next one or its end, in_group_p and in_egroup_p by it answer just that for the fsgid and egid it has then, whatever others do |
| `GroupStore.GroupsStay` | KernelDrivers_March2011/sys.c:1226-1240 | in every run no call of another process, and no failed one, changes the list of a process, nor its ids until it sets them |
| `GroupStore.ChildInherits` | KernelDrivers_March2011/sys.c:1226-1240 | in every run a child has the list its parent had at the fork until it sets its own, whatever the parent does, and the ids likewise |
| `GroupStore.Kernel.SetIds` | KernelDrivers_March2011/sys.c:843-863 | a change of fsgid or egid changes no list and keeps every usage equal to its holders |
| `ProcessGroups.RunKeepsInv` | KernelDrivers_March2011/sys.c:915-1068 | in every run of setpgid, setsid, fork, exec and exit: groups lie in one session, a live process naming a group is in its session, leaders lead, and a live process naming a session is its leader |
| `ProcessGroups.SetPgidKeepsInv` | KernelDrivers_March2011/sys.c:956-978 | setpgid with its checks keeps that invariant |
| `ProcessGroups.RegroupKeepsInvIff` | KernelDrivers_March2011/sys.c:956-968 | which moves keep it, exactly: a leader only to its own group, any process only to a group whose members and name are in its session; so the leader and session checks are needed, the did_exec check is not |
| `ProcessGroups.SetSidKeepsInv` | KernelDrivers_March2011/sys.c:1047-1058 | setsid keeps that invariant |
| `ProcessGroups.OneMemberSuffices` | KernelDrivers_March2011/sys.c:961-968 | the session of the one member g tells that of every member of the group |
| `ProcessGroups.SetPgidEffect` | KernelDrivers_March2011/sys.c:943-978 | success moved the caller or a child of it that has not executed, never a leader, to a group wholly in the caller's session, and nobody else |
| `ProcessGroups.SetPgidSucceedsIff` | KernelDrivers_March2011/sys.c:922-984 | exactly when setpgid succeeds: the hook accepts and the target is the caller or a child of it in its session that has not executed, no session leader, to a group of its own or one with a member in the caller's session; then that process alone is in that group; the hook's refusal is the answer, and every refusal moves nothing |
| `ProcessGroups.SetPgidRefusals` | KernelDrivers_March2011/sys.c:926-968 | the error for each cause |
| `ProcessGroups.ShellMakesJob` | KernelDrivers_March2011/sys.c:956-978 | two children just forked can be put into one new group |
| `ProcessGroups.ExecutedStays` | KernelDrivers_March2011/sys.c:947-949 | a child that has executed is refused to its parent with -EACCES |
| `ProcessGroups.ThreadIsNotMoved` | KernelDrivers_March2011/sys.c:939-941 | a thread that is no process is refused with -EINVAL |
| `ProcessGroups.SetSidSucceedsIff` | KernelDrivers_March2011/sys.c:1047-1067 | setsid succeeds exactly if no process is in a group named after the caller, and then makes the caller leader of its own session and group and changes nothing else |
| `ProcessGroups.ForkInherits` | KernelDrivers_March2011/sys.c:1047-1058 | a new child is in the group and session of its parent, leads nothing, and may start a session |
| `ProcessGroups.ExitLeavesOthers` | KernelDrivers_March2011/sys.c:943-943 | the end of a process takes nothing from the others but their parent |
| `ProcessGroups.GroupsShareSession` | KernelDrivers_March2011/sys.c:960-978 | in every run members of one group are in one session |
| `ProcessGroups.SetSidIsAlone` | KernelDrivers_March2011/sys.c:1047-1064 | in every run a successful setsid makes a session and a group that no other process belongs to |
| `ProcessGroups.LeaderStays` | KernelDrivers_March2011/sys.c:956-958 | in every run a session leader keeps pid = pgid = sid while it lives |
| `ProcessGroups.SessionChangesBySetSidOnly` | KernelDrivers_March2011/sys.c:1057-1058 | a live process changes session only by its own setsid |
| `ProcessGroups.ReusedPidSharesSession` | KernelDrivers_March2011/sys.c:1053-1058 | the rule for new pids is needed: with a session number reused as a pid, setsid joins a foreign process |
| `ProcessGroups.ProcessTable.SysSetPgid` | KernelDrivers_March2011/sys.c:915-985 | the error by the order of the checks, the whole new table, and the invariant |
| `ProcessGroups.ProcessTable.SysSetSid` | KernelDrivers_March2011/sys.c:1039-1068 | the result, the whole new table, and the invariant |
| `Credentials.FailureChangesNothing` | KernelDrivers_March2011/sys.c:601-743 | a call other than setfs* that does not answer 0 changes no id and not the dumpable flag |
| `Credentials.FsFollowsEffective` | KernelDrivers_March2011/sys.c:638-642 | a call other than setfs* that succeeds leaves the file-system id equal to the effective one |
| `Credentials.NewIdentityIsUndumpable` | KernelDrivers_March2011/sys.c:634-637 | no new effective id, nor a new file-system id by setfs*, without clearing dumpable |
| `Credentials.SetReEffect` | KernelDrivers_March2011/sys.c:586-648 | setreuid and setregid: exactly when they succeed and with which error not; which real, effective and saved id results, by the rules stated for it; when dumpable is cleared |
| `Credentials.SetIdEffect` | KernelDrivers_March2011/sys.c:652-695 | setuid and setgid: the same, all four ids with the capability, two without |
| `Credentials.SetResEffect` | KernelDrivers_March2011/sys.c:698-743 | setresuid and setresgid: the same, each id asked for is set and each other one kept |
| `Credentials.SetFsEffect` | KernelDrivers_March2011/sys.c:808-838 | setfsuid and setfsgid: the former id is answered, the new one set exactly if allowed |
| `Credentials.UnprivilegedRunConfined` | KernelDrivers_March2011/sys.c:601-838 | without the capability, over any sequence of calls: real, effective and saved id stay within the three at the start, the file-system id within these and itself |
| `Credentials.FrozenIffEqual` | KernelDrivers_March2011/sys.c:586-648 | no unprivileged call can change anything if and only if the four ids are equal |
| `Credentials.SetReSucceedsIff` | KernelDrivers_March2011/sys.c:614-632 | setreuid(u, u) succeeds exactly if the hook accepts and u is "leave as it is", or the real or effective id or asked for with the capability, with room for a new real user |
| `Credentials.SetReDropsIff` | KernelDrivers_March2011/sys.c:586-648 | after a setreuid(u, u) that succeeded no unprivileged call can change any id, exactly if u is not the "leave as it is" value or real, effective and saved id were equal |
| `Credentials.SetReDropsForGood` | KernelDrivers_March2011/sys.c:593-595 | after any setreuid(u, u) that succeeded, u not being that value, all ids are u and no later unprivileged sequence changes any |
| `Credentials.SetReOfOwnIdDrops` | KernelDrivers_March2011/sys.c:593-595 | a process that sets both to its real id always succeeds in that, unless the hook refuses |
| `Credentials.SetResDropsForGood` | KernelDrivers_March2011/sys.c:698-743 | after a setresuid(u, u, u) that succeeded, u not being "leave as it is", all ids are u and no later unprivileged sequence changes any |
| `Credentials.PrivilegedSetIdDropsForGood` | KernelDrivers_March2011/sys.c:656-659 | a privileged setuid leaves no way back without the capability |
| `Credentials.SetReOfNoneDropsNothing` | KernelDrivers_March2011/sys.c:614-642 | the exception, from any ids: with the "leave as it is" value the call succeeds and keeps real, effective and saved id |
| `Credentials.SetReOfOwnNoneKeepsRoot` | KernelDrivers_March2011/sys.c:614-642 | a process whose real id is that value, and what it keeps |
| `Credentials.SwapTwice` | KernelDrivers_March2011/sys.c:587-588 | unprivileged exchange of real and effective id succeeds, and twice restores both |
| `Credentials.TemporaryDrop` | KernelDrivers_March2011/sys.c:659-661 | dropping the effective id and taking it back from the saved one restores all ids |
| `Credentials.Cred.SysSetReUid` | KernelDrivers_March2011/sys.c:601-648 | setreuid: result, all four ids and the dumpable flag are those of the transition system |
| `Credentials.Cred.SysSetUid` | KernelDrivers_March2011/sys.c:663-695 | setuid: result, all four ids and the dumpable flag are those of the transition system |
| `Credentials.Cred.SysSetResUid` | KernelDrivers_March2011/sys.c:702-743 | setresuid: result, all four ids and the dumpable flag are those of the transition system |
| `Credentials.Cred.SysSetFsUid` | KernelDrivers_March2011/sys.c:814-838 | setfsuid: result, all four ids and the dumpable flag are those of the transition system |
| `Credentials.Cred.SysSetReGid` | KernelDrivers_March2011/sys.c:482-524 | setregid: result, all four ids and the dumpable flag are those of the transition system |
| `Credentials.Cred.SysSetGid` | KernelDrivers_March2011/sys.c:531-559 | setgid: result, all four ids and the dumpable flag are those of the transition system |
| `Credentials.Cred.SysSetFsGid` | KernelDrivers_March2011/sys.c:843-863 | setfsgid: result, all four ids and the dumpable flag are those of the transition system |
| `Credentials.Cred.SysSetResGid` | KernelDrivers_March2011/sys.c:759-794 | setresgid: result and all four ids are those of the transition system; the dumpable flag is cleared exactly for a new effective id, and not, as by setresuid, for a new real one |
| `Credentials.Cred.SetUser` | KernelDrivers_March2011/sys.c:561-584 | set_user: -EAGAIN and no change, or the new real id |
| `Priority.CarryIs` | KernelDrivers_March2011/sys.c:127-131 | the result in terms of the last refusal, for every list of verdicts |
| `Priority.CarryAfterLastRefusal` | KernelDrivers_March2011/sys.c:127-131 | the same for a refusal at a given place after which all accept |
| `Priority.CarryIsMeantIff` | KernelDrivers_March2011/sys.c:134-190 | setpriority answers what it is meant to, -ESRCH for none, else the last refusal, else 0, exactly unless the last task accepts and the last refusal is -ESRCH |
| `Priority.CarryZeroIff` | KernelDrivers_March2011/sys.c:144-190 | 0 exactly if the last selected task accepts, and all do or the last refusal is -ESRCH |
| `Priority.CarryWithoutESRCH` | KernelDrivers_March2011/sys.c:144-190 | if no hook refuses with -ESRCH: 0 exactly when a task is selected and all accept, -ESRCH exactly when none is selected, else the last refusal |
| `Priority.RefusalForgotten` | KernelDrivers_March2011/sys.c:127-128 | two tasks and a hook for which the answer is 0 although one refused and keeps its nice value |
| `Priority.BestInRange` | KernelDrivers_March2011/sys.c:216-218 | getpriority answers -ESRCH exactly when nobody is selected, else a value in 1..40 |
| `Priority.GetAfterSetIff` | KernelDrivers_March2011/sys.c:134-255 | after a 0, getpriority answers 20 minus the clamped nice value exactly if no selected task that refused is nicer |
| `Priority.GetAfterSet` | KernelDrivers_March2011/sys.c:134-255 | which is always so when no hook refuses with -ESRCH |
| `Priority.RenicedIff` | KernelDrivers_March2011/sys.c:113-129 | which tasks change, exactly: selected, the caller's or the caller privileged, the hook accepts, and the value is higher, or lower and allowed; nothing but the nice value changes, and only to the given one |
| `Priority.LoweredOnlyIfAllowed` | KernelDrivers_March2011/sys.c:118-121 | no task ends with a lower nice value without permission |
| `Priority.OwnTaskMayYield` | KernelDrivers_March2011/sys.c:113-129 | a caller can always raise the nice value of its own tasks, if the hook accepts |
| `Priority.VerdictByCause` | KernelDrivers_March2011/sys.c:113-126 | the error of a task for each cause |
| `Priority.AnswerIsLastRefusal` | KernelDrivers_March2011/sys.c:134-190 | in terms of the tasks: the answer is the error of the last selected task that refuses |
| `Priority.AnswerWithoutRefusal` | KernelDrivers_March2011/sys.c:134-190 | -ESRCH exactly if nobody is selected, 0 exactly if somebody is and nobody refuses |
| `Priority.SelectedIff` | KernelDrivers_March2011/sys.c:152-185 | whom each selector selects, 0 standing for the caller's own |
| `Priority.ClampIsNearest` | KernelDrivers_March2011/sys.c:144-149 | the nice value is clamped to the nearest one in -20..19 |
| `Priority.TaskList.SetOnePrio` | KernelDrivers_March2011/sys.c:109-132 | the carried error and the one task changed |
| `Priority.TaskList.SetSelected` | KernelDrivers_March2011/sys.c:166-181 | the loops: the error carried along all selected tasks, and exactly those without objection changed |
| `Priority.TaskList.SysSetPriority` | KernelDrivers_March2011/sys.c:134-190 | setpriority for every selector, zeros and unknown users included |
| `Priority.TaskList.SysGetPriority` | KernelDrivers_March2011/sys.c:198-255 | getpriority for every selector: the best value among the selected tasks |
| `RingQueue.TokensKept` | Examples/Threads/prodcons_threads.c:67-115 | every step balances the semaphores, the threads in flight and the queue |
| `RingQueue.LocksKept` | Examples/Threads/prodcons_threads.c:138-181 | every step keeps each lock held by exactly the thread that is where it is held |
| `RingQueue.SleepersKept` | InterProcessCommunication:229-250 | nobody ever sleeps on a semaphore whose value is positive |
| `RingQueue.PutKeepsRing` | Examples/Threads/prodcons_threads.c:104-108 | a put writes a slot that holds no item still to be got, and keeps the ring |
| `RingQueue.GetKeepsRing` | Examples/Threads/prodcons_threads.c:76-81 | a get takes the oldest item not yet got, and keeps the ring |
| `RingQueue.CriticalSectionsSafe` | Examples/Threads/prodcons_threads.c:97-108 | a put finds a free slot and a line not counted before, a get finds an item |
| `RingQueue.StepKeepsInv` | Examples/Threads/prodcons_threads.c:67-235 | every step of every thread keeps the invariant of all four parts |
| `RingRuns.RingAlways` | Examples/Threads/prodcons_threads.c:67-115 | under every interleaving, any number of threads and any ring size: gets are a prefix of puts, occupancy 0..n, bufin and bufout are puts and gets modulo n, filledslots = puts - gets = -freeslots, and semaphores plus threads in flight make n |
| `RingRuns.RefinesFifo` | Examples/Threads/prodcons_threads.c:67-115 | each step of the threads is a step of a FIFO queue of n items, or none |
| `RingRuns.MutualExclusion` | Examples/Threads/prodcons_threads.c:74-110 | no two threads are in critical sections of the same lock |
| `RingRuns.MailboxMonotone` | Examples/Threads/prodcons_threads.c:129-175 | put k is line f(k), f never decreases, f(k) >= k, and there are never more puts than lines |
| `RingRuns.LosslessIff` | Examples/Threads/prodcons_threads.c:129-175 | as far as puts have got: lines are queued once and in order if and only if each was typed after the lines before it had been put |
| `RingRuns.NoLineLostIff` | Examples/Threads/prodcons_threads.c:129-175 | every line typed was typed after the lines before it had been put if and only if the puts are the first lines, once and in order, and at most the latest line is not yet put |
| `RingRuns.NoLineLostInRun` | Examples/Threads/prodcons_threads.c:129-175 | that at every moment of every run; and then the puts are a prefix of the lines |
| `RingProgress.DeliveredOnceIff` | Examples/Threads/prodcons_threads.c:129-198 | in a run that has made all its steps every line is queued once and in order if and only if each was typed after the lines before it had been put; and then what was got is what was typed |
| `RingLines.TypedIsCopied` | Examples/Threads/prodcons_threads.c:129-147 | in every run the lines a user has typed are those it has copied into the mailbox and the one in hand, in order |
| `RingLines.InputsAreCopied` | Examples/Threads/prodcons_threads.c:141-141 | in every run the lines of the mailbox are those copied by the users |
| `RingLines.EveryItemWasTyped` | Examples/Threads/prodcons_threads.c:129-175 | in every run with one user every item put, and so every item got, is one of the lines typed |
| `RingRuns.LineLost` | Examples/Threads/prodcons_threads.c:129-175 | whatever other threads there are: a run in which a line is overwritten and the next one queued twice |
| `RingRuns.NeverBothAsleep` | Examples/Threads/prodcons_threads.c:71-97 | with one producer and one consumer they never sleep on semslots and semitems together |
| `RingRuns.SleepingPutterHasHelp` | Examples/Threads/prodcons_threads.c:169-175 | a producer asleep on semslots with input_buffer_lock held always leaves a consumer that can go on, and not to sleep, at once or after the step of the data_buffer_lock holder |
| `RingRuns.IdleMeansDelivered` | Examples/Threads/prodcons_threads.c:129-198 | no deadlock and no lost wake-up, for any number of threads: when only terminal and display can move, every line has been put and every item got |
| `RingRuns.RolesStay` | Examples/Threads/prodcons_threads.c:120-235 | in every run each thread stays in its own loop |
| `RingProgress.WorkIsConserved` | Examples/Threads/prodcons_threads.c:67-198 | under every scheduler and for any number of threads: between any two moments of a run, the steps done other than typing and display and the work left make the work there was plus 17 steps per line typed |
| `RingProgress.WorkIsBounded` | Examples/Threads/prodcons_threads.c:67-198 | so a run has at most 17 such steps per line typed and one per thread |
| `RingProgress.WorkCanGoOn` | Examples/Threads/prodcons_threads.c:67-226 | while work is left some thread can do it, or the display thread that holds data_buffer_lock can give it back |
| `RingProgress.LinesAreDelivered` | Examples/Threads/prodcons_threads.c:129-198 | a run that has made all those steps has put every line and got every item |
| `RingProgress.IdleMeansDone` | Examples/Threads/prodcons_threads.c:129-198 | when nothing but terminal and display can move, no work is left |
| `RingThreads.ProdCons.UserInputThread` | Examples/Threads/prodcons_threads.c:129-151 | each atomic step of the thread on the shared variables is one enabled step of the model, so all of RingRuns holds of them |
| `RingThreads.ProdCons.PutItem` | Examples/Threads/prodcons_threads.c:93-115 | each atomic step of putitem, on the array and with the remainder computed, is the step of the model, which adds at the end of the queue |
| `RingThreads.ProdCons.GetItem` | Examples/Threads/prodcons_threads.c:67-89 | each atomic step of getitem, on the array and with the remainder computed, is the step of the model, which takes the oldest item |
| `RingThreads.ProdCons.ProducerThread` | Examples/Threads/prodcons_threads.c:165-179 | each atomic step of the thread is that of the model |
| `RingThreads.ProdCons.DisplayStatusThread` | Examples/Threads/prodcons_threads.c:217-226 | each atomic step of the thread is that of the model |
| `JobMonitor.ConsumeKeepsCounter` | Examples/Threads/thread_mutex_cond.c:142-173 | the consumer's steps keep counter, list and whole batches in agreement |
| `JobMonitor.ConsumeKeepsSleep` | Examples/Threads/thread_mutex_cond.c:142-185 | the consumer's steps lose no wake-up |
| `JobMonitor.ProduceKeepsSleep` | Examples/Threads/thread_mutex_cond.c:231-283 | the producer's steps lose no wake-up |
| `JobMonitor.ConsumeKeepsHeap` | Examples/Threads/thread_mutex_cond.c:161-170 | nodes in use stay different, and what is freed is in use: nothing is freed twice |
| `JobMonitor.StepKeepsInv` | Examples/Threads/thread_mutex_cond.c:125-296 | every step of either thread and every spurious wake-up keeps the invariant |
| `JobRuns.WhenMutexIsFree` | Examples/Threads/thread_mutex_cond.c:142-261 | in every run, whenever the mutex is free: the counter is the length of the list, 0..batch; jobs were taken out first in first out, in whole batches; every job allocated was freed or is in the list, once; and the nodes of the list are different |
| `JobRuns.EveryJobOnce` | Examples/Threads/thread_mutex_cond.c:153-170 | at every moment each allocated job is freed, about to be, in the list or about to be linked, once, and only live nodes are freed |
| `JobRuns.AllocatedIsReadIn` | Examples/Threads/thread_mutex_cond.c:235-237 | in every run the jobs allocated are, in order, what malloc and read gave the producer, address and text |
| `JobRuns.ConsumedWasReadIn` | Examples/Threads/thread_mutex_cond.c:142-261 | in every run what was taken out is, text by text, the first of what was read in; the rest is in the list or about to be linked |
| `JobRuns.CounterNeverWraps` | Examples/Threads/thread_mutex_cond.c:167-261 | the unsigned counter never wraps, for any batch size it can hold |
| `JobRuns.NoLostWakeUp` | Examples/Threads/thread_mutex_cond.c:142-283 | a thread asleep without a signal has reason to be, or the other holds the mutex on its way to the signal; never both |
| `JobRuns.NeverStuck` | Examples/Threads/thread_mutex_cond.c:142-283 | one of the threads can always go on without a spurious wake-up |
| `JobRuns.Progress` | Examples/Threads/thread_mutex_cond.c:127-294 | under every scheduler: the steps between two moments are bounded by 4 * batch + 29 for each job put or spurious wake-up in between, and one round more |
| `JobRuns.JobsAreConsumed` | Examples/Threads/thread_mutex_cond.c:127-294 | a run of so many steps has consumed any wanted number of jobs |
| `JobThreads.Monitor.Append` | Examples/Threads/thread_mutex_cond.c:243-261 | the tail walk ends at the last node and links the new one behind it |
| `JobThreads.Monitor.Unlink` | Examples/Threads/thread_mutex_cond.c:161-167 | the first node is taken out of the list |
| `JobThreads.LastIsNoOther` | Examples/Threads/thread_mutex_cond.c:250-254 | a list that ends has its last node only once |
| `JobThreads.Monitor.ThreadFunc1` | Examples/Threads/thread_mutex_cond.c:127-187 | each step of the consumer on the heap is that of the model |
| `JobThreads.Monitor.ThreadFunc2` | Examples/Threads/thread_mutex_cond.c:199-294 | each step of the producer on the heap is that of the model, with malloc giving any node not in use, a freed one too |
| `FillButtons.WantedExactly` | lua/Keyboard.lua:661-700 | the letters given out are exactly the requested ones that no fixed button of any layout carries |
| `FillButtons.WantedInOrder` | lua/Keyboard.lua:699-710 | in the order of their first occurrence, so each once |
| `FillButtons.FillAllocation` | lua/Keyboard.lua:697-712 | the k-th fill button gets the k-th such letter, up to the smaller number; the others are blank and disabled |
| `FillButtons.NoLetterTwice` | lua/Keyboard.lua:663-709 | no fill button has the letter of another button |
| `FillButtons.OffersExactlyTheRequest` | lua/Keyboard.lua:668-712 | with enough fill buttons the enabled letters are exactly the requested ones |
| `FillButtons.OfferedWasRequested` | lua/Keyboard.lua:668-712 | with however few, every enabled letter was requested |
| `FillButtons.InvertedOffersTheRest` | lua/Keyboard.lua:680-688 | inverted, the enabled letters are exactly the fixed ones not requested |
| `FillButtons.SpaceOfferedIff` | lua/Keyboard.lua:690-692 | a fixed space button is enabled exactly if the speller is, the space is on offer, and the entry field allows it |
| `FillButtons.SpaceOnEmptyFieldIff` | lua/Keyboard.lua:690-709 | with an empty entry field a space button is enabled exactly if it is a fill button given the space |
| `FillButtons.OnlyLettersWantedIff` | lua/Keyboard.lua:699-700 | the code 0 is among the codes to give out if and only if it is requested |
| `FillButtons.ZeroTakesAButtonIff` | lua/Keyboard.lua:697-712 | a fill button is given to the code 0 if and only if the speller is enabled and not inverted, 0 is requested, and there are more fill buttons than letters to give out before it |
| `FillButtons.OnlyLettersGivenIff` | lua/Keyboard.lua:697-712 | the buttons are what they would be if only the letters had been requested, without 0, if and only if the code 0 does not come up in that way |
| `FillButtons.ZeroTakesAButton` | lua/Keyboard.lua:699-709 | a request in which 0 takes the only fill button from a letter |
| `FillButtons.AllocationForgets` | lua/Keyboard.lua:670-712 | the result does not depend on what fill buttons carried before |
| `FillButtons.AllocationRepeats` | lua/Keyboard.lua:670-712 | giving out the same letters again changes no button |
| `Layouts.VisibleIff` | lua/Keyboard.lua:715-739 | a layout is visible exactly if it has an enabled letter, or letters and an enabled space while no layout before it is visible |
| `Layouts.SomeVisibleIff` | lua/Keyboard.lua:715-739 | some layout is visible exactly if one has an enabled letter or both letters and an enabled space |
| `Layouts.NextIsLayout` | lua/Keyboard.lua:779-796 | the layout switched to exists and is visible unless none is |
| `Layouts.NextComesFirst` | lua/Keyboard.lua:779-796 | from any layout, visible or not, the search ends at the visible one that comes around first |
| `Layouts.SwitchesVisitAll` | lua/Keyboard.lua:777-797 | with V visible layouts, V switches from a visible one visit each exactly once and return |
| `Layouts.NearestEnabled` | lua/Keyboard.lua:1077-1100 | from positions 0..N an enabled speller finds the nearest enabled button, ties to the higher, and fails exactly if none is enabled |
| `Layouts.FoundWithin` | lua/Keyboard.lua:1084-1098 | from any position it succeeds exactly if an enabled button lies in the window of 2N positions around it |
| `Layouts.ProbeIs` | lua/Keyboard.lua:1084-1098 | enabled or not, the search finds the first button that will do in the order of the probes |
| `Layouts.MoveThereAndBack` | lua/Keyboard.lua:1012-1044 | a move right that finds a button is undone by a move left |
| `Spellers.ReactKeepsInv` | lua/Keyboard.lua:900-998 | every message and data update keeps the invariant |
| `Spellers.RunKeepsInv` | lua/Keyboard.lua:148-1257 | over every sequence of messages and data updates: valid layout number, focus exactly with a cursor, cursor in the current layout and on an enabled button unless all is disabled, and buttons, visible layouts and toggle button up to date |
| `Spellers.UpdateRepeats` | lua/Keyboard.lua:648-766 | updating again on unchanged inputs changes no button, layout, flag or cursor |
| `Spellers.UpdateUnchangedIff` | lua/Keyboard.lua:648-766 | an update on the inputs there are changes nothing at all, exactly unless an enabled speller shows a layout that is not visible and has another to show, or something pressed or a focus to give up |
| `Spellers.UpdateKeepsCursorNear` | lua/Keyboard.lua:756-764 | an update that leaves the layout puts the cursor on the enabled button nearest to where it was, ties to the higher, and loses the focus exactly if there is none |
| `Spellers.DisablingKeepsCursor` | lua/Keyboard.lua:752-764 | an update that disables the speller leaves layout, cursor, focus and what is pressed alone |
| `Spellers.UpdateEffect` | lua/Keyboard.lua:752-764 | from any state: when an update changes the layout and to which, and what it does to focus and press |
| `Spellers.NewSpellerShows` | lua/Keyboard.lua:158-229 | a new speller has no focus and nothing pressed, and shows its first visible layout, or the first one |
| `Spellers.FocusEnds` | lua/Keyboard.lua:925-938 | focus from the left goes to the first enabled button, from the right to the last, and is taken exactly if there is one |
| `Spellers.TogglesShowAll` | lua/Keyboard.lua:945-949 | with V visible layouts, V toggle messages from a visible one show each exactly once and end where they began |
| `Spellers.PosThenNeg` | lua/Keyboard.lua:990-994 | a step right that moves the cursor, followed by a step left, restores the whole state |
| `Spellers.PosGoesRight` | lua/Keyboard.lua:908-916 | the right message takes the cursor to the next enabled button on the right, and does nothing if there is none |
| `Spellers.NegGoesLeft` | lua/Keyboard.lua:908-911 | the left message takes it to the next enabled button on the left, and gives cursor and focus up if there is none |
| `Spellers.ToggleGoesOn` | lua/Keyboard.lua:945-949 | the toggle message goes to the visible layout that comes around first, gives up press and focus, and changes nothing else |
| `Spellers.EntryFieldRulesSpace` | lua/Keyboard.lua:974-988 | after the entry field message a fixed space button is enabled exactly if the field is not empty and the space is on offer |
| `Spellers.SmallMessages` | lua/Keyboard.lua:918-972 | what the key, view-change, redundant focus and other messages change, and what they leave |
| `Spellers.DisabledIsOff` | lua/Keyboard.lua:652-694 | in every run from the layouts as built, a disabled speller has no enabled button |
| `Spellers.DisabledFocus` | lua/Keyboard.lua:925-938 | for every position: a disabled speller takes the focus exactly from the right, if it has buttons, with the cursor on its last one |
| `Spellers.PressReportsRequested` | lua/Keyboard.lua:958-1218 | a press on an enabled speller, inverted or not, reports 0 or a letter on offer |
| `Spellers.PressReportsUnofferedIff` | lua/Keyboard.lua:1212-1218 | for any speller: a press reports a letter that is not on offer if and only if the speller is disabled and the cursor is on a fixed button with such a letter |
| `Spellers.DisabledPressReports` | lua/Keyboard.lua:1212-1218 | a disabled speller that takes the focus and reports a letter nobody requested |
| `SpellerWidget.BuildLayoutTable` | lua/Keyboard.lua:313-346 | each layout gets the buttons its sequence defines, in order, and bUseFill tells if there is a fill button |
| `SpellerWidget.DefinitionByCode` | lua/Keyboard.lua:319-336 | which button each character code defines |
| `SpellerWidget.Speller.constructor` | lua/Keyboard.lua:158-229 | the new speller is in the state of an update from its defaults |
| `SpellerWidget.Speller.AllocateButtons` | lua/Keyboard.lua:661-712 | both loops over buttons and letters, with their table and list of fill buttons, compute the allocation |
| `SpellerWidget.Speller.ShowLayouts` | lua/Keyboard.lua:715-739 | the nested loops with their early exit set the visible flags and count them |
| `SpellerWidget.Speller.UpdateEnabled` | lua/Keyboard.lua:648-766 | the in-place loops and calls together are the update of the state machine, of which UpdateRepeats and the invariant are proved; no other field changes |
| `SpellerWidget.Speller.SwitchLayout` | lua/Keyboard.lua:777-831 | the next visible layout, nothing pressed, and a focus that was there given away with its cursor; no other field changes |
| `SpellerWidget.Speller.FindLayout` | lua/Keyboard.lua:779-796 | the cyclic loop finds the next visible layout after the current one, else the first, else stays |
| `SpellerWidget.Speller.RepositionCursor` | lua/Keyboard.lua:1077-1100 | the cursor is where the search ends, and the result tells if it found a button |
| `SpellerWidget.Speller.MoveCursor` | lua/Keyboard.lua:1008-1067 | to the next enabled button in the direction; off the left end cursor and focus go, off the right end nothing changes |
| `SpellerWidget.Speller.OnMessage` | lua/Keyboard.lua:900-998 | the methods called for any message make the one step of the state machine that RunKeepsInv is about; and which messages are consumed |
| `SpellerWidget.Speller.OnDataUpdate` | lua/Keyboard.lua:1252-1257 | a data update makes the update step of the state machine |

## Left out

- Rebooting, power-off, `prctl`, `uname`, host names, limits and usage in `sys.c`: single branches and sums.
- Security hooks, `capable`, and how many allocations and how much of user memory there are: parameters, so that a call may fail at any of its points. Post-setuid hooks answer 0.
- Locks around a system call: each call is one step, and no other task runs within it. `set_current_groups` by a task does not overlap with `in_group_p` by the same task.
- GROUP_AT, NGROUPS_PER_BLOCK and NGROUPS_SMALL come from a header that is not part of this model: the first is read as division and remainder, the others are any numbers with 0 < NGROUPS_PER_BLOCK and NGROUPS_SMALL at most that. NGROUPS_MAX is 65536.
- The additions in `groups_alloc` and the midpoint of `groups_search` are not wrapped: lists have at most NGROUPS_MAX elements.
- Pid namespaces: one namespace, so pids are numbers. Process-group signals and terminals are not modelled.
- User namespaces and process limits behind `set_user`: one flag, whether there is room. Keyrings and the process-event connector have no effect here.
- Threads of a multithreaded process are only names in the table of `ProcessGroups`; they share their process's group and session.
- `bufferinit` and its error paths, the race on first use of `seminput`, EINTR and other errors of semaphore and lock calls, and the exits they cause: the ring starts after `bufferinit`.
- Cancellation, signals, scheduling attributes and thread stacks; `printf`, `fgets` and `read`: reads return and `malloc` succeeds. `fgets` and `strncpy` are taken to move whole lines.
- `display_buffer_lock`, which no thread uses.
- More than one producer or consumer on the job queue: the program starts one of each.
- JobRuns.Progress: counts a blocked `read` as a step that will come; it bounds steps, not time.
- RingProgress.WorkIsBounded: typing and the display's endless loop are not counted, and a display thread scheduled alone for ever is not excluded.
- Button texts, bitmaps, drawing, touch areas, traces, Arabic formatting and geometry of the buttons. Messages to other widgets are sinks: none calls back into the speller while it handles one.
- Each layout is as long as the button table of its type, so the number of buttons is the length of the layout. A table of another length, which the source only traces, is not modelled.
- The button records are places of one array, layout after layout, instead of tables of tables; the list of fill buttons holds their places instead of references.
- Message numbers are different from one another, also that of the toggle event. Only the speller itself sets the Enabled property of the toggle button.
- A press with a button number left over from a touch in a longer layout, where the source would index nil: `Reported` is 0 there.
- `Assignment` ring buffers, `uart_pci_latest_March2011.c`, the `/proc` examples and the prose notes.

# OS/161 kernel: a verified model of its hard parts

This project models the parts of the OS/161 teaching kernel that carry the hardest obligations, and proves what
they promise. Code that works in place is modelled in place, as methods with loops on arrays and object fields;
code whose point is concurrency is modelled as a transition system whose steps are the critical sections of the
source, and its theorems are about every reachable state of every run.

| file | models |
|---|---|
| `Words.dfy`, `QDivRem.dfy`, `MulDiv.dfy` | 64-bit division (Knuth's Algorithm D) and multiplication on 32-bit words |
| `Counting.dfy`, `Lists.dfy` | counting and lists without repetition, which several models share |
| `Sched.dfy`, `SchedRuns.dfy` | interrupt levels, spinlocks, context switches, wait channels, fork, exit and migration, as CPU steps; what thread_switch promises its caller over whole runs |
| `Threadlist.dfy`, `Migration.dfy` | the intrusive thread lists; the load balancer |
| `Synch.dfy`, `PidTable.dfy` | semaphores and sleep locks with barging; wait/exit on the pid table over a condition variable |
| `Airballoon.dfy`, `AirballoonEnd.dfy` | the airballoon protocol with any number of ropes and FlowerKillers, and that it can end |
| `KheapSpec.dfy`, `KheapRoots.dfy`, `Kheap.dfy`, `KheapTwice.dfy` | the kernel heap: its critical sections as steps, its pages of pagerefs, the pointer structures that carry the steps out, and blocks freed twice |
| `Bitmap.dfy`, `SfsSpec.dfy`, `Sfs.dfy` | bitmaps, SFS block allocation, block mapping and truncation |
| `Vnodes.dfy` | vnode reference counts and the SFS table of loaded inodes |
| `Numerals.dfy`, `Printf.dfy` | number printing and parsing, the printf state machine, snprintf |

Points where the code does something that its comments or its names do not say, and the model follows the code:

- The threads that CPUs are started with keep `t_state == S_READY` until they first come back from
  `thread_switch`: `cpu_create` never sets `S_RUN` (`RunningState` in `Sched.dfy`).
- `thread_yield` and `thread_exit` do not look at `c_spinlocks`; the count of 2 for switched-out threads holds
  exactly if the caller holds no spinlock (`Sched.LeftWithTwo`, and `Sched.YieldWithALock` for one that does).
- `allocpageref` leaves the bit of a pageref set if the page that would hold it cannot be had. Once such bits fill a
  page of pagerefs that does not exist, the next pageref comes from a later page, and freeing it breaks the assertion
  at `kmalloc.c:318`. This happens exactly if, when a pageref is taken, a page of pagerefs before it does not exist
  (`KheapRoots.PanicsIffUnguarded`, `KheapRoots.GuardedIsSafe`); 256 failing calls one after the other are enough
  (`KheapRoots.AfterFailures`).
- The number of pages that `kmalloc` asks for is computed in 32 bits. For the sizes above 2^32 - 4096 it is 0, and
  nothing keeps the address that comes back apart from other allocations (`KheapSpec.PagesFor`,
  `KheapSpec.FreshUnlessWrapped`, `KheapSpec.LargestSize`).
- `sfs_itrunc` keeps the length in blocks, and `sfi_size`, in 32 bits. Blocks below the new length are kept exactly if
  the file has none between the wrapped length and the real one, so always for lengths up to 512 * (2^32 - 1), while a
  length of 2^41 empties the file (`Sfs.BlockLen`, `Sfs.KeepsBelowLength`, `Sfs.TwoToThe41`).
- `subpage_kfree` notices that a block is freed twice exactly if the block is still at the head of its page's free list
  (`Kheap.Allocator.CheckFree`, `Kheap.Allocator.SubpageKfree`). Otherwise the free list becomes a loop from which the
  block is handed out again while it is in use (`KheapTwice.HandedOutAgain`), or, if one live block is left on the
  page, the page is given back under that block (`KheapTwice.GivenBackLive`). Both happen in runs that allocate a few
  blocks and free two of them before (`KheapTwice.FreedTwo`).
- A process that waits without reaping is missed if the process it waits for is reaped before it looks at the status
  again: it goes back to sleep, and does not return unless the slot is used again (`PidTable.ReturnsUnlessReaped`,
  `PidTable.MissedWaiter`). The waiter that reaps is never missed (`PidTable.ReaperReturns`).
- The field width of `printf` is kept in an `int`; it is what the format spells exactly below 2^31
  (`Printf.WidthFits`).
- `atoi` reads every decimal number modulo 2^32, as a signed word (`Numerals.ReadsNumber`).
- A FlowerKiller that draws one stake twice starts over without looking whether all ropes are severed. With one rope it
  never does anything else, and `airballoon()` never returns; with more it can always end
  (`AirballoonEnd.EndsUnlessOneRope`, `AirballoonEnd.CanAlwaysEnd`).
- `lock_release` does not look at its caller; mutual exclusion survives exactly if the caller holds the lock or
  nobody does (`Locks.ReleaseExclusive`, `Locks.TwoInside`).
- The test at `sfs_bmap.c:264` is strict, so that truncation can leave one block mapped past the end of the file
  (`SfsSpec.NothingLeftPast`, `SfsSpec.StaysPastTheEnd`).
- With both `-` and `0` a number is padded with zeros on its right, so that parsing does not undo printing
  (`Printf.PrintThenParse`, `Printf.FiveIsFifty`).
- `__divdi3` of the most negative number by -1 wraps around (`MulDiv.QuotientOverflow`).

## Model

| member | source | states |
|---|---|---|
| `QDivRem.QDivRem` | src/common/gcc-millicode/qdivrem.c:68-263 | for every dividend and divisor: traps exactly for divisor 0, otherwise returns the floor quotient and, on request, the remainder |
| `QDivRem.TrialDigitError` | src/common/gcc-millicode/qdivrem.c:182-210 | the digit estimated from three dividend and two divisor digits is the true one or one too large |
| `QDivRem.TrialDigit` | src/common/gcc-millicode/qdivrem.c:182-210 | D3 returns that digit; no 32-bit intermediate overflows |
| `QDivRem.SubtractDigit` | src/common/gcc-millicode/qdivrem.c:217-223 | the wrapped 32-bit word of D4 splits into a digit and a borrow without losing anything |
| `QDivRem.MultiplySubtract` | src/common/gcc-millicode/qdivrem.c:217-223 | D4 subtracts qhat times the divisor modulo B^(n+1); its borrow is set exactly if that product exceeds the window |
| `QDivRem.AddBack` | src/common/gcc-millicode/qdivrem.c:230-238 | D6 adds the divisor back, and its carry cancels the borrow |
| `QDivRem.Round` | src/common/gcc-millicode/qdivrem.c:178-240 | one round divides the window by the divisor: exact quotient digit, remainder below the divisor left in place |
| `QDivRem.Shl` | src/common/gcc-millicode/qdivrem.c:271-279 | shifts a digit string left in place: multiplies its value by a power of two |
| `QDivRem.Unshift` | src/common/gcc-millicode/qdivrem.c:247-258 | shifts the remainder right in place: divides its value by the same power |
| `QDivRem.Normalise` | src/common/gcc-millicode/qdivrem.c:169-175 | D1 scales dividend and divisor alike and brings the leading divisor digit to at least B/2 |
| `QDivRem.DivideLoop` | src/common/gcc-millicode/qdivrem.c:178-240 | D2 to D7: quotient digits times divisor plus what is left is the dividend, and what is left is below the divisor |
| `QDivRem.LongDivide` | src/common/gcc-millicode/qdivrem.c:157-262 | division by two or more digits, with the remainder shifted back |
| `QDivRem.ShortDivide` | src/common/gcc-millicode/qdivrem.c:124-149 | division by a single digit: exact quotient and remainder |
| `MulDiv.LMulQ` | src/common/gcc-millicode/muldi3.c:184-241 | the full 64-bit product of two 32-bit numbers, with manual carries |
| `MulDiv.MulDi3` | src/common/gcc-millicode/muldi3.c:100-164 | the signed product modulo 2^64, for every pair |
| `MulDiv.DivDi3` | src/common/gcc-millicode/divdi3.c:45-62 | truncates toward zero, wrapped to 64 bits; traps exactly for divisor 0 |
| `MulDiv.ModDi3` | src/common/gcc-millicode/moddi3.c:46-62 | the remainder with the sign of the dividend; traps exactly for divisor 0 |
| `MulDiv.TruncUnique` | src/common/gcc-millicode/divdi3.c:45-62 | truncation toward zero is the only division whose remainder has the dividend's sign and is smaller than the divisor |
| `MulDiv.DivModLaw` | src/common/gcc-millicode/moddi3.c:46-62 | (a/b)*b + a%b = a in 64-bit arithmetic, on the returned values (section 6.5.5 of C99) |
| `MulDiv.QuotientOverflow` | src/common/gcc-millicode/divdi3.c:45-62 | the 64-bit quotient is the true one exactly if not the most negative number over -1 |
| `Sched.StepInv` | src/kern/thread/thread.c:450-765 | every step that locks and assertions allow keeps conservation, states, levels and held locks |
| `Sched.ThreadsConserved` | src/kern/thread/thread.c:450-480 | in every reachable state each thread is in exactly one place, t_state agrees, and a queued thread's t_cpu names the queue's CPU |
| `Sched.LevelAccounting` | src/kern/thread/spl.c:87-160 | a running thread's t_iplhigh_count is 1 for a high t_curspl plus its CPU's spinlocks, c_spinlocks counts the locks held, interrupts are on exactly at 0 |
| `Sched.SwitchedOutAtTwo` | src/kern/thread/thread.c:532-537 | every switched-out thread, new, queued, sleeping or zombie, is at high level with count 2 |
| `Sched.ResumesWithItsLock` | src/kern/thread/thread.c:709-717 | a thread that starts or resumes owns exactly the run queue lock of its own CPU |
| `Sched.NoAssertionFails` | src/kern/thread/thread.c:278-287 | no reachable step breaks an assertion other than those about the caller's own locks, which are part of what enables a step; what exorcise destroys is a zombie and current on no CPU |
| `Sched.LeftWithTwo` | src/kern/thread/thread.c:560-660 | on the way to the switch the count is 2 plus the caller's spinlocks, so 2 remains exactly if yield and exit are called with none, sleep with one |
| `Sched.YieldWithALock` | src/kern/thread/thread.c:560-660 | a reachable state, one spinlock taken after boot, from which a yield leaves the thread with a count of 3 |
| `Sched.AcquireLevels` | src/kern/thread/spinlock.c:75-115 | taking a spinlock keeps the accounting of all CPUs |
| `Sched.ReleaseLevels` | src/kern/thread/spinlock.c:121-134 | giving it up keeps it, in whatever order locks and levels nest |
| `Sched.SplxLevels` | src/kern/thread/spl.c:132-160 | splx keeps it and sets the level asked for |
| `Sched.StepFork` | src/kern/thread/thread.c:493-546 | a forked thread enters as if it had been switched out |
| `Sched.StepMakeRunnable` | src/kern/thread/thread.c:450-480 | a woken thread goes from the waker to its own CPU's queue, also if that CPU still has it as current |
| `Sched.StepTakeNext` | src/kern/thread/thread.c:640-665 | the switch leaves the old thread at count 2 and gives the CPU to one at count 2 |
| `Sched.StepPlaceVictim` | src/kern/thread/thread.c:880-925 | migration moves a queued thread and its t_cpu together, and never the current thread |
| `Sched.StepTakeWaiter` | src/kern/thread/thread.c:1045-1101 | waking takes the first sleeper off the channel under the channel's lock |
| `Sched.StepReap` | src/kern/thread/thread.c:709-725 | exorcise and splx on the way out keep the invariant; the level is in `SchedRuns.ReturnsAtItsLevel` |
| `Sched.BootInv` | src/kern/thread/thread.c:170-233 | the state that cpu_create leaves satisfies the invariant, for any number of CPUs |
| `SchedRuns.ReturnsAtItsLevel` | src/kern/thread/thread.c:560-727 | over every run: when a thread that called thread_switch is back in ordinary code, on any CPU, it is at the level of the call, holds no spinlock, and interrupts are on exactly at the low level |
| `SchedRuns.ForkedStartsLow` | src/kern/thread/thread.c:737-765 | over every run: a forked thread first gets to its own code at the low level with interrupts on |
| `SchedRuns.ComesBackOnlyWoken` | src/kern/thread/thread.c:599-640 | over every run: a sleeping thread is not back before it was taken off that very channel, an exiting one never; until then it is on its way to the channel or the zombies, or there |
| `SchedRuns.YieldsToTheFirst` | src/kern/thread/thread.c:600-665 | a yield with a nonempty queue runs the first of the queue and puts the caller at its end |
| `SchedRuns.MovesThreads` | src/kern/thread/thread.c:450-546 | which list and which CPU a forked, woken or migrated thread goes to, in what order |
| `SchedRuns.LevelsAndLocks` | src/kern/thread/spinlock.c:75-134 | the level calls set the level; an acquired lock is the CPU's own, a released one is free, the others stay |
| `SchedRuns.SwitchGoesOn` | src/kern/thread/thread.c:560-727 | every step inside thread_switch leads to the next point of the code, with the run queue's and the channel's lock taken and given there |
| `Threadlists.InsertAfterNode` | src/kern/thread/threadlist.c:107-120 | links a node into a doubly linked chain at one place |
| `Threadlists.InsertBeforeNode` | src/kern/thread/threadlist.c:127-140 | the same from the other side |
| `Threadlists.RemoveNode` | src/kern/thread/threadlist.c:147-157 | unlinks a node and clears its links |
| `Threadlists.Threadlist.IsEmpty` | src/kern/thread/threadlist.c:91-97 | true exactly if the list that the links spell out is empty |
| `Threadlists.Threadlist.AddHead` | src/kern/thread/threadlist.c:163-170 | the list becomes the thread followed by the old list; the count is its length |
| `Threadlists.Threadlist.AddTail` | src/kern/thread/threadlist.c:173-180 | the list becomes the old list followed by the thread |
| `Threadlists.Threadlist.RemHead` | src/kern/thread/threadlist.c:183-198 | returns null exactly if empty, otherwise the first thread, unlinked, and leaves the rest |
| `Threadlists.Threadlist.RemTail` | src/kern/thread/threadlist.c:201-216 | the same at the other end |
| `Threadlists.Threadlist.InsertAfter` | src/kern/thread/threadlist.c:219-224 | inserts after a thread that is on the list |
| `Threadlists.Threadlist.InsertBefore` | src/kern/thread/threadlist.c:227-232 | inserts before it |
| `Threadlists.Threadlist.Remove` | src/kern/thread/threadlist.c:235-240 | takes one thread out and keeps the order of the others |
| `Threadlists.Threadlist.Forward` | src/kern/include/threadlist.h:90-93 | following next visits exactly the list, in order |
| `Threadlists.Threadlist.Backward` | src/kern/include/threadlist.h:95-98 | following prev visits it in the opposite order |
| `Migration.CountThreads` | src/kern/thread/thread.c:854-865 | the first pass counts the own and all queued threads |
| `Migration.LeastShare` | src/kern/thread/thread.c:866-867 | the share is the least with which the CPUs together have room for all threads |
| `Migration.DeficitEnough` | src/kern/thread/thread.c:866-872 | the other CPUs are together short of at least what this CPU has too much |
| `Migration.FillQueue` | src/kern/thread/thread.c:886-928 | fills one queue up to the share at most, skipping curthread, never from an empty victim list |
| `Migration.Distribute` | src/kern/thread/thread.c:880-932 | the second pass preserves all threads, and leaves no victim if the deficit covers them |
| `Migration.ConsiderMigration` | src/kern/thread/thread.c:846-948 | preserves the multiset of queued threads, keeps curthread, fills no queue above the share; run atomically with curthread not queued, the own queue ends at exactly the share |
| `Semaphores.StepInv` | src/kern/thread/synch.c:89-135 | P and V keep the wakeup and counting invariants under barging |
| `Semaphores.CountIsExact` | src/kern/thread/synch.c:89-135 | over every run: sem_count is the initial count plus the calls of V minus the calls of P that have returned |
| `Semaphores.NoLostWakeups` | src/kern/thread/synch.c:89-135 | while threads sleep, at least sem_count woken threads are still to try again |
| `Locks.NoLostWakeups` | src/kern/thread/synch.c:186-213 | a free lock with sleepers has a woken thread that has yet to try again, whoever released it |
| `Locks.ReleaseExclusive` | src/kern/thread/synch.c:203-213 | release keeps mutual exclusion exactly if the caller holds the lock or nobody does |
| `Locks.MutualExclusion` | src/kern/thread/synch.c:186-213 | with holder-only release at most one thread is inside, and it is lk_holder |
| `Locks.TwoInside` | src/kern/thread/synch.c:203-213 | a release by another thread lets two threads inside |
| `PidTable.FindFirstFreePid` | src/kern/proc/proc.c:412-421 | the search finds the least free slot from 2 on, or -1 |
| `PidTable.StepInv` | src/kern/thread/synch.c:271-310 | every step of wait, exit and add keeps the invariant |
| `PidTable.BroadcastReachesAll` | src/kern/thread/synch.c:271-310 | when a broadcast happens, no waiter is between releasing the lock and sleeping, and none stays asleep |
| `PidTable.NobodySleepsOnZombie` | src/kern/proc/proc.c:535-556 | while plock is free nobody sleeps, or is about to, for a pid that is a zombie |
| `PidTable.FirstFreeIsLeast` | src/kern/proc/proc.c:388-421 | in every reachable state firstFreePid is the least free slot in [2, PID_MAX), or -1 exactly if there is none |
| `PidTable.SlotsUsedWell` | src/kern/proc/proc.c:486-490 | a new process gets a free slot, a slot is reaped only as a zombie, a process becomes one only while running, and no other step changes a slot |
| `PidTable.ReturnsUnlessReaped` | src/kern/proc/proc.c:535-556 | over every run: once its process is a zombie, a waiter that looks at the status leaves the loop exactly if nobody has reaped the process in the meantime, unless the slot was used again |
| `PidTable.ReaperReturns` | src/kern/proc/proc.c:535-556 | over every run: once its process is a zombie, the waiter that is to reap it never goes back to sleep until it has reaped it |
| `PidTable.MissedWaiter` | src/kern/proc/proc.c:535-556 | a reachable state in which a waiter that does not reap sleeps for an available slot and no thread can step |
| `Airballoon.StepInv` | src/kern/synchprobs/airballoon.c:42-336 | every step of every thread keeps the protocol's invariant |
| `Airballoon.StakesArePermuted` | src/kern/synchprobs/airballoon.c:154-194 | the stakes hold all ropes, each once, whenever no swap is half done |
| `Airballoon.HalfDoneSwap` | src/kern/synchprobs/airballoon.c:171-193 | a half-done swap belongs to the one thread that holds both rope locks, and only its two stakes agree |
| `Airballoon.SeveredStays` | src/kern/synchprobs/airballoon.c:102-117 | once severed, a rope stays severed and on its stake for the rest of the run |
| `Airballoon.SeversOnce` | src/kern/synchprobs/airballoon.c:106-108 | a thread that severs finds the rope whole, and Marigold finds it on the stake she names |
| `Airballoon.SeveredAtMostOnce` | src/kern/synchprobs/airballoon.c:55-57 | two severing steps of a run cut different ropes |
| `Airballoon.RopesLeft` | src/kern/synchprobs/airballoon.c:62-64 | ropes_left is the number of whole ropes plus the threads between severing and decrementing |
| `Airballoon.EscapeIsTrue` | src/kern/synchprobs/airballoon.c:226-235 | the balloon announces the escape only when all ropes are severed |
| `Airballoon.CutsWhatItCan` | src/kern/synchprobs/airballoon.c:55-66 | in every run Dandelion gives a rope back only severed, Marigold severed or found off its stake |
| `Airballoon.SwapsWhatItCan` | src/kern/synchprobs/airballoon.c:178-193 | in every run, when a swap is announced the two ropes have changed places; when the second lock is given back they have, or one is severed, or one was not on its stake |
| `Airballoon.TakesBothLocks` | src/kern/synchprobs/airballoon.c:163-175 | a FlowerKiller goes for the second lock exactly if its two racy reads gave different ropes |
| `Airballoon.ReadsTheStakes` | src/kern/synchprobs/airballoon.c:103-104 | every stake can be drawn, and the rope gone for is the one the stake shows when it is read |
| `Airballoon.WaitsUpwards` | src/kern/synchprobs/airballoon.c:166-193 | a thread waits only for a lock above all that it holds, also when both racy reads give one rope |
| `Airballoon.NoDeadlock` | src/kern/synchprobs/airballoon.c:42-336 | in every reachable state with an unfinished thread some thread can step |
| `Airballoon.LocksUsedWell` | src/kern/synchprobs/airballoon.c:301-333 | locks are released only by their holder and never touched after main destroys them |
| `Airballoon.DestroysQuietly` | src/kern/synchprobs/airballoon.c:311-333 | when main destroys the locks every worker has exited and every lock is free |
| `AirballoonEnd.CanAlwaysEnd` | src/kern/synchprobs/airballoon.c:42-336 | from every state of every run some continuation ends with all ropes severed, all workers exited and main returned, unless there is one rope and a FlowerKiller |
| `AirballoonEnd.EndsUnlessOneRope` | src/kern/synchprobs/airballoon.c:154-161 | airballoon() can end if and only if there are two ropes or no FlowerKiller |
| `AirballoonEnd.OneRopeKiller` | src/kern/synchprobs/airballoon.c:154-161 | with one rope a FlowerKiller never leaves the top of its loop |
| `KheapSpec.BlockType` | src/kern/vm/kmalloc.c:853-867 | the smallest block size that is large enough |
| `KheapSpec.StepInv` | src/kern/vm/kmalloc.c:875-1154 | every critical section of every interleaving keeps the heap invariant and finds what it relies on |
| `KheapSpec.FreeLists` | src/kern/vm/kmalloc.c:920-1145 | each page's free list has distinct block-aligned offsets in the page; free and live blocks make up the page; at least one is live |
| `KheapSpec.NoOverlap` | src/kern/vm/kmalloc.c:1164-1217 | no two allocations of a run overlap, small or big, if big sizes are at most 2^32 - 4096 |
| `KheapSpec.BigEnough` | src/kern/vm/kmalloc.c:1164-1200 | each allocation, a block or whole pages, has at least the size asked for |
| `KheapSpec.PagesFor` | src/kern/vm/kmalloc.c:1180-1193 | in 32-bit arithmetic the pages are enough exactly for sizes up to 2^32 - 4096, and then not one too many; above that there are none |
| `KheapSpec.FreshUnlessWrapped` | src/kern/vm/kmalloc.c:1180-1193 | the page allocator's promise excludes an address in use exactly if the page count did not wrap |
| `KheapSpec.LargestSize` | src/kern/vm/kmalloc.c:1180-1193 | a reachable heap in which a request of 0xFFFFFFFF bytes may be given the address of a page in use |
| `KheapSpec.AllocFresh` | src/kern/vm/kmalloc.c:912-951 | an allocation returns an address that was not in use and leaves the others alone |
| `KheapSpec.ReturnedWithLast` | src/kern/vm/kmalloc.c:1128-1145 | a page leaves the lists and gives up its pageref exactly when its last live block is freed |
| `KheapSpec.Bookkeeping` | src/kern/vm/kmalloc.c:824-845 | the size lists partition the list of all pages by block type, and listed pagerefs are in use |
| `KheapRoots.StepOk` | src/kern/vm/kmalloc.c:220-337 | every critical section, and the arrival of a page of pagerefs, keeps listed pagerefs on pages that exist |
| `KheapRoots.RunsAreSteps` | src/kern/vm/kmalloc.c:220-337 | runs with pages of pagerefs are runs of the heap, so all that is proved of those holds |
| `KheapRoots.ListedExist` | src/kern/vm/kmalloc.c:220-337 | in every run from boot the heap is a reachable one and every listed pageref is in use and on a page that exists |
| `KheapRoots.ReserveStacked` | src/kern/vm/kmalloc.c:258-298 | taking a pageref keeps every page of pagerefs below one in use existing exactly if those before the lowest clear bit exist |
| `KheapRoots.GuardedIsSafe` | src/kern/vm/kmalloc.c:305-337 | a run from boot in which that holds whenever a pageref is taken never breaks the assertion of freepageref |
| `KheapRoots.PanicsAt` | src/kern/vm/kmalloc.c:1128-1145 | freeing a block breaks it exactly if the block is the page's last and a bit is set on an earlier page of pagerefs that does not exist |
| `KheapRoots.PanicsIffUnguarded` | src/kern/vm/kmalloc.c:258-337 | from every state: a call gets a page, takes a pageref, gets a page for that if it is missing and enters its page; if its block is freed next, the assertion breaks exactly if, when the pageref was taken, a page of pagerefs before it did not exist |
| `KheapRoots.AfterFailures` | src/kern/vm/kmalloc.c:258-337 | a run from boot: 256 calls that get a page, do not get the first page of pagerefs and give theirs back, one that succeeds, and freeing what it returned panics |
| `Kheap.Allocator.AllocFrom` | src/kern/vm/kmalloc.c:906-954 | the search and allocation under the lock carries out the step, or changes nothing if no page has a free block |
| `Kheap.Allocator.TakeHead` | src/kern/vm/kmalloc.c:920-951 | on any pageref and any word at the head of the list: which block is taken, what the pageref says then, and exactly when an assertion fails |
| `Kheap.Allocator.TakeFirst` | src/kern/vm/kmalloc.c:920-951 | unlinks the first free block in the page's memory; the source's assertions hold |
| `Kheap.Allocator.TypeFor` | src/kern/vm/kmalloc.c:853-867 | the search loop finds the block type |
| `Kheap.Allocator.AllocPageRef` | src/kern/vm/kmalloc.c:258-298 | sets the lowest clear bit, fails exactly if all are set, whatever pages of pagerefs exist; numinuse stays the number of set bits |
| `Kheap.Allocator.InstallRefPage` | src/kern/vm/kmalloc.c:220-251 | with a page the page of pagerefs exists afterwards, without one it exists exactly if another call brought it; the bit stays set |
| `Kheap.Allocator.FillPage` | src/kern/vm/kmalloc.c:990-1006 | the loop strings all blocks of a new page together, from last to first |
| `Kheap.Allocator.EnterPage` | src/kern/vm/kmalloc.c:978-1016 | enters the page into both lists and takes a block of it, whoever brought the page of its pageref |
| `Kheap.Allocator.RemoveSame` | src/kern/vm/kmalloc.c:824-836 | unlinks a pageref from its size list through the pointer to it |
| `Kheap.Allocator.RemoveAll` | src/kern/vm/kmalloc.c:838-845 | unlinks it from the list of all pages |
| `Kheap.Allocator.FreePageRef` | src/kern/vm/kmalloc.c:305-337 | clears the pageref's bit and counts it down, or fails exactly if a bit is set on an earlier page of pagerefs that does not exist; its other assertions hold |
| `Kheap.Allocator.FindPage` | src/kern/vm/kmalloc.c:1062-1084 | finds the page of an address, or none exactly if it is on no heap page |
| `Kheap.Allocator.CheckFree` | src/kern/vm/kmalloc.c:1062-1129 | for every address: refused exactly if on no heap page, noticed as freed twice exactly if at the head of the free list, let through exactly if a live block or another free one |
| `Kheap.Allocator.WriteBack` | src/kern/vm/kmalloc.c:1101-1132 | writes only inside the block, whose first word becomes the old head; the pageref starts at the block and counts one more |
| `Kheap.Allocator.SubpageKfree` | src/kern/vm/kmalloc.c:1024-1154 | for every address: a live block is freed, or panics exactly where freepageref does; a free block below the head makes the free list a loop, or, with one live block left, the page is unlinked under it; everything else changes nothing |
| `KheapTwice.HandedOutAgain` | src/kern/vm/kmalloc.c:920-951 | for every heap and every free block below the head, freed again: the next allocations get it and the blocks freed after it, whatever clients write into them, then it is at the head again; exactly which word in it lets the following allocation hand it out a second time |
| `KheapTwice.GivenBackLive` | src/kern/vm/kmalloc.c:1134-1145 | for every heap: if the second free makes the page count as fully free, a block on the given-back page is live, and the page allocator may hand the page out again |
| `KheapTwice.FreedTwo` | src/kern/vm/kmalloc.c:1103-1129 | reachable heaps of both kinds: three or four blocks allocated, the first and the second freed, the first is below the head |
| `Kheap.Allocator.ClientWrite` | src/kern/vm/kmalloc.c:142-144 | whatever a client writes into its block, the free lists in the pages survive |
| `Kheap.Allocator.Kmalloc` | src/kern/vm/kmalloc.c:1164-1200 | a whole call: a small request fails if and only if no page of the smallest sufficient block size has a free block and no new page can be had (no memory, no pageref, or no page for the lowest free pageref); a big one returns what the page allocator gave; exactly one new allocation, or none, and then the heap is as before except that a pageref is lost if its page could not be had; a size whose page count wraps gets an address and no pages |
| `Kheap.Allocator.Kfree` | src/kern/vm/kmalloc.c:1206-1217 | a whole call: removes exactly that allocation, or panics exactly if freepageref does; nothing for a null pointer |
| `Bitmaps.Bitmap.constructor` | src/kern/lib/bitmap.c:57-90 | all bits clear, the bits past the end in use |
| `Bitmaps.Bitmap.Alloc` | src/kern/lib/bitmap.c:99-121 | sets and returns the lowest clear bit, fails exactly if there is none |
| `Bitmaps.Bitmap.Mark` | src/kern/lib/bitmap.c:135-145 | sets one clear bit and no other |
| `Bitmaps.Bitmap.Unmark` | src/kern/lib/bitmap.c:148-158 | clears one set bit and no other |
| `Bitmaps.Bitmap.IsSet` | src/kern/lib/bitmap.c:162-169 | reads one bit |
| `Sfs.Volume.Balloc` | src/kern/fs/sfs/sfs_balloc.c:58-78 | takes the lowest free block on the disk and clears it, fails if and only if none is free; its panic cannot happen |
| `Sfs.Volume.Bmap` | src/kern/fs/sfs/sfs_bmap.c:49-196 | changes the logical maps only at the requested block, where a fresh, marked, zeroed block appears if it was empty and allocation was asked for; out of space if and only if that needs more blocks than are free, one or, past the direct blocks without an indirect block, two, and then all maps stay; too big exactly beyond the indirect block |
| `Sfs.Volume.Itrunc` | src/kern/fs/sfs/sfs_bmap.c:202-300 | carries out the truncation to the length in blocks and bytes, each in 32 bits, and keeps every block marked and reachable once |
| `Sfs.BlockLen` | src/kern/fs/sfs/sfs_bmap.c:215-216 | the length in blocks is the rounded-up one exactly for lengths up to 512 * (2^32 - 1) |
| `Sfs.KeepsBelowLength` | src/kern/fs/sfs/sfs_bmap.c:202-300 | every block with bytes below the new length is kept exactly if the file has none between the wrapped and the real length, other than what the strict test keeps; the stored size is the length in 32 bits, and no other file changes |
| `Sfs.TwoToThe41` | src/kern/fs/sfs/sfs_bmap.c:215-216 | truncation to 2^41 bytes empties every file |
| `Sfs.Volume.TruncateEntries` | src/kern/fs/sfs/sfs_bmap.c:260-274 | the loop drops the entries strictly past the new length, frees their blocks, and knows whether any is left |
| `Sfs.Volume.MakeObj` | src/kern/fs/sfs/sfs_inode.c:262-286 | a new file gets a block of its own and nothing else; out of space if and only if no block is free; if it cannot be loaded the block is free again and no map has changed |
| `Sfs.Volume.Reclaim` | src/kern/fs/sfs/sfs_inode.c:96-115 | a file without links is erased, one with links stays as it is |
| `SfsSpec.OneSlotInv` | src/kern/fs/sfs/sfs_bmap.c:49-196 | filling a slot with a marked block that is in no slot, or clearing it, keeps every block marked and in one slot |
| `SfsSpec.TruncateLookup` | src/kern/fs/sfs/sfs_bmap.c:202-300 | truncation keeps the blocks below the length, drops the direct ones from it on and the indirect ones strictly past it, frees the indirect block exactly if inspected and empty, and leaves other files alone |
| `SfsSpec.TruncateReleases` | src/kern/fs/sfs/sfs_bmap.c:226-287 | truncation frees exactly the blocks that it unmaps |
| `SfsSpec.TruncateAll` | src/kern/fs/sfs/sfs_bmap.c:202-300 | truncation to nothing empties every slot of the file |
| `SfsSpec.NothingLeftPast` | src/kern/fs/sfs/sfs_bmap.c:264-264 | nothing is left at or past the new length exactly if the block there is direct or not mapped |
| `SfsSpec.StaysPastTheEnd` | src/kern/fs/sfs/sfs_bmap.c:264-264 | a volume on which a block is left there |
| `SfsSpec.EraseReleases` | src/kern/fs/sfs/sfs_inode.c:96-115 | reclaiming an unlinked inode returns all its blocks and no other |
| `SfsSpec.MappedIsUsed` | src/kern/fs/sfs/sfs_bmap.c:188-192 | every block that a file maps is on the disk and marked |
| `Vnodes.StepInv` | src/kern/vfs/vnode.c:80-123 | every step of load, incref, decref and reclaim keeps the counts and the table |
| `Vnodes.CountIsExact` | src/kern/vfs/vnode.c:80-123 | vn_refcount is the outstanding references plus the one of a pending reclaim, of which there is at most one |
| `Vnodes.ReferencesAreGood` | src/kern/vfs/vnode.c:80-123 | a vnode that a thread has a reference to is loaded, counted and not being destroyed |
| `Vnodes.DestroyedAlone` | src/kern/fs/sfs/sfs_inode.c:69-143 | a vnode leaves the table, and is freed, only when nobody else refers to it |
| `Vnodes.OneVnodePerInode` | src/kern/fs/sfs/sfs_inode.c:150-256 | the table never holds two vnodes for one inode |
| `Vnodes.NoAssertionFails` | src/kern/fs/sfs/sfs_inode.c:69-143 | no step breaks an assertion or panics |
| `Vnodes.LoadsTheInode` | src/kern/fs/sfs/sfs_inode.c:150-256 | over every run of other threads between the search and the end of sfs_loadvnode(ino): the caller gains exactly one reference, to a listed vnode of inode ino, besides what it was given |
| `Vnodes.InodeStaysInRun` | src/kern/fs/sfs/sfs_inode.c:150-256 | over every run a vnode stands for the same inode as long as it is loaded |
| `Vnodes.ReferencesMove` | src/kern/vfs/vnode.c:80-123 | every thread's references change as the calls say and by nothing else |
| `Vnodes.LastDecrefReclaims` | src/kern/vfs/vnode.c:95-123 | vnode_decref reclaims if and only if it gives up the last reference |
| `Vnodes.ReclaimFrees` | src/kern/fs/sfs/sfs_inode.c:69-143 | a reclaim that finds its reference the only one takes the vnode out of the table and frees it, otherwise it gives its reference up and leaves the vnode |
| `Vnodes.BigLockNests` | src/kern/vfs/vfslist.c:123-141 | the big lock is taken and given up as often, and free again at the last |
| `Numerals.FitsBuffer` | src/common/libc/printf/__printf.c:84-84 | every 64-bit number in base 8, 10 or 16 fits the 23-byte buffer with its terminator |
| `Numerals.DigitsSpell` | src/common/libc/printf/__printf.c:415-468 | the digits of every number spell it in base 8, 10 or 16, without a leading zero |
| `Numerals.PrintDigits` | src/common/libc/printf/__printf.c:415-468 | the loop writes exactly the digits, right to left, inside the buffer |
| `Numerals.Atoi` | src/common/libc/stdlib/atoi.c:50-101 | the loops compute the value of blanks, sign and digits in 32 bits |
| `Numerals.ReadsNumber` | src/common/libc/stdlib/atoi.c:50-101 | sign, zeros and the digits of any number, followed by anything but a digit, are read as the number modulo 2^32 as a signed word, which is the number exactly if it fits |
| `Numerals.PlusSign` | src/common/libc/stdlib/atoi.c:61-69 | a plus sign in front changes nothing |
| `Numerals.ZeroedDiffers` | src/common/libc/stdlib/atoi.c:70-93 | appending zeros changes every number but 0, also modulo 2^32 |
| `Printf.PF.PrintStuff` | src/common/libc/printf/__printf.c:367-404 | prefixes and text padded to the field width on the proper side |
| `Printf.WidthFits` | src/common/libc/printf/__printf.c:204-232 | the field width in a wrapping int is the one that the modifiers spell exactly if that is below 2^31 |
| `Printf.PF.Modifier` | src/common/libc/printf/__printf.c:182-233 | flags, sizes and width, for widths that fit an int, accumulate as the format's grammar says |
| `Printf.PF.GetNum` | src/common/libc/printf/__printf.c:242-311 | sign and magnitude of the argument in its size |
| `Printf.PF.Send` | src/common/libc/printf/__printf.c:498-563 | one character: what was sent and what is still to come make up the same text |
| `Printf.PF.VPrintf` | src/common/libc/printf/__printf.c:571-592 | the whole text that the format stands for is sent, and its length returned |
| `Printf.Snp.Send` | src/common/libc/printf/snprintf.c:75-93 | the buffer keeps the longest prefix of the text that fits |
| `Printf.Vsnprintf` | src/common/libc/printf/snprintf.c:99-142 | stores the longest fitting prefix and a terminator, writes nothing past them, returns the full length |
| `Printf.RenderDirective` | src/common/libc/printf/__printf.c:498-563 | the modifiers of a directive take effect one after the other |
| `Printf.UnsignedText` | src/common/libc/printf/__printf.c:242-357 | for all modifiers, %x, %o, %u and %p print the argument modulo 2^32, or 2^64 for a long long, in their base and field, with the base shown where asked for |
| `Printf.PlainText` | src/common/libc/printf/__printf.c:498-563 | for all modifiers, %s, %c and %% print the string, the character and a percent sign in their field |
| `Printf.FieldIsPadded` | src/common/libc/printf/__printf.c:367-404 | a field is as wide as asked for or as its text needs, padded on the proper side, zeros between sign and digits |
| `Printf.PrintThenParse` | src/common/libc/printf/__printf.c:367-491 | atoi of the %d output gives every 32-bit number back, for all modifiers with a width that fits an int, exactly if not padded with zeros on the right, or the number is 0 |
| `Printf.FiveIsFifty` | src/common/libc/printf/__printf.c:399-403 | a format that prints five as fifty |

## Left out

- Device drivers, LAMEbus, emufs, console, menu, boot, ELF loading, address spaces, file tables: hardware, I/O and plumbing.
- Sched: memory barriers, the test-and-set loop of a busy spinlock (a step that cannot be taken yet), the assembler
  switch, interprocessor interrupts (waking an idle CPU is possible at any time), and the interrupt window inside
  `cpu_idle`. All CPUs exist from the start; wait channels are not created or destroyed.
- Migration.ConsiderMigration: interference by other CPUs is a parameter (the lengths seen by the first pass, and
  threads that arrive late); t_cpu is in `Sched.StepPlaceVictim`.
- Semaphores, Locks: creation and destruction; the choice of spinlock in the wait channel is an atomic step.
- PidTable: exit codes, children lists, and more than one reaping waiter per pid, for which the slot's reuse is not
  protected by the source.
- Airballoon: a second run, since threads_left is not reset; the failure of thread_fork.
- Kheap: the debug modes with guard bands, labels and checks; the pages of pagerefs themselves are only known to exist
  or not. Nothing is promised about the heap after a failed assertion, which stops the kernel.
- KheapSpec.NoOverlap: big allocations above 2^32 - 4096 bytes own no pages and are not part of the heap's state.
- KheapSpec.StepInv: its runs free live blocks only, which is what callers promise; what a second free does is in
  `Kheap.Allocator.SubpageKfree` and `KheapTwice`.
- Kheap.Allocator.Kfree: for null and for pointers in use only, as above.
- Kheap.Allocator.Kmalloc: the call is not interrupted; the interleavings are those of its critical sections.
- Sfs: negative lengths; disk errors other than in loading a new inode; dirty flags and the moment at which inodes and
  the bitmap are written back; directories; the content of data blocks after they are written. An inode in memory and
  on disk are one.
- Vnodes: errors of the disk during a reclaim, after which the source keeps the vnode; the check of inode blocks
  against the bitmap while the table is searched.
- Printf: the count of characters and the field width are unbounded numbers, and agree with the source's `int`s below
  2^31, beyond which C leaves the result open; missing arguments read as 0 or a null string; printing to anything but a
  buffer.
- MulDiv, QDivRem: the remaining millicode (add, subtract, shifts, comparisons) would only add easy members.

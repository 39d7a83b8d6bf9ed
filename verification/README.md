# Verified cores of the practice repository

This project models the parts of the repository whose correctness is not obvious and
proves what they are for. There are four groups.

* **Concurrent protocols**: the MCS queue lock (`McsLock`), the read-write lock (`RwLock`),
  the barrier (`Barrier`), the pipeline (`Pipeline`), the work queue (`WorkQueue`) and the
  alarm thread (`AlarmThread`, with its linked list in `AlarmList`). Each is a state
  machine over any number of threads. A step is one atomic memory access (MCS lock) or one
  critical section between lock, wait and unlock (the others). Waiting releases the mutex,
  spurious wakeups are steps of their own, and a signal wakes at least one waiter if there
  is one. The main theorems are about every state of every run.
* **A small kernel** (`snow_os/snow.c`): the scheduler and its lists (`Snow`), semaphores,
  recursive mutexes, sleeping, ticks and whole runs (`SnowSync`), who holds a mutex
  (`SnowMutex`), and what the clock does: preemption, sleeps and timeouts (`SnowTime`), all
  on sequences; and the same kernel in memory. There the lists are rings
  of linked nodes (`SnowList`), one node of a thread serves sched_list and every wait list,
  every node is in exactly one ring (`SnowLinks`), and the methods that change links and
  globals are proved to do what the functions on sequences say (`SnowProgram`).
* **An expression compiler and its machine** (`Calculator`, `CalculatorStacks`,
  `CalculatorProgram`): infix text to a postfix chain, the stack machine that runs the
  chain, and how much of their fixed stacks both use.
* **Algorithms that need number theory or linked structures**: the quadratic-probing hash
  table (`HashTable`, `HashTableProgram`), divisor generation (`Divisors`), the two in-place
  rotations (`Rotation`), the binary heap (`Heap`, `HeapProgram`), radix sort on circular
  lists (`RadixSort`, `RadixSortProgram`) and the cached area lookup (`FindVma`).
  `NumberTheory`, `Numerals`, `Counting` and `Sequences` hold what they share.

Where a file works by changing memory, a `...Program` module (or a class in the same module)
has the loops and updates, and each method is proved equal to a function whose properties
the lemmas state.

Some promises do not hold of the code on all inputs, and the exact condition is proved:

* A scheduling pass of the kernel keeps every thread in one place, and every node in one
  ring, if and only if it does not fire the wakeup timer of the thread that is still current
  (`Snow.PassKeepsInvIff`, `SnowProgram.Machine.Sched`). `snow_usleep` runs into this exactly
  for a sleep of 0, or for a sleep no longer than a tick that comes before its call of
  `snow_sched` (`SnowSync.SleepTooShort`); a timed wait exactly when such a tick comes no
  earlier than its deadline (`SnowSync.WaitTooShort`). The thread is then put on sched_list
  twice, and the links fit no layout of the lists any more (`SnowLinks.CorruptFitsNothing`).
* `snow_sched` makes a thread that can run give way to a ready one if and only if a tick has
  come since the start (`SnowTime.ProcessorGoesTo`).
* The fields of a mutex tell who holds it throughout a run if and only if no thread unlocks
  it without owning it (`SnowMutex.MutexOwnerIff`). The source lets any thread unlock: the
  assertion in `mutex_put` has its condition the wrong way round, so it prints on every
  unlock by the owner and is silent on one by another thread, which takes effect.
  `SnowMutex.ForeignUnlock` is a run in which two threads hold a mutex at once.
* When `workq_destroy` returns, every item accepted so far has run exactly once; the items
  accepted at any later moment have too if and only if no add is under way at the return
  (`WorkQueue.AllRanForeverIff`). `WorkQueue.LostAddRun` is a run that loses one.
* A waiter of the barrier can miss its toggle if and only if more threads than the threshold
  use it and the threshold is at least 2 (`Barrier.ToggleMissedIff`).
* The heap's `insert` keeps the heap when its loop ends, which it does exactly when the
  number is not below both the sentinel and the root (`Heap.InsertKeepsHeap`,
  `Heap.InsertLoopsForever`).
* `reverse` touches only elements of the array, for a range of the array, if and only if the
  range is not 0 .. -1; the three calls of `main` do so if and only if 1 <= num <= len
  (`Rotation.StaysInsideIff`, `Rotation.ThreeCallsStayInsideIff`).
* The lock of rwlock.c keeps its counters, its exclusion and its wakeups throughout a run if
  and only if no thread unlocks what it does not hold (`RwLock.RunInvIff`). Both unlock
  functions accept any caller; `RwLock.TwoWriters` is a run that ends with two writers.
* The calculator computes the value of a well-formed expression if and only if its stacks
  have at least as many slots as the nesting of the expression needs
  (`CalculatorProgram.Calculate`, with the exact needs in `CalculatorStacks`).
* A rehash of a hash table fits its new table, so that the inserts inside it never rehash in
  turn, if and only if the size of the old one is at least 2 (`HashTable.RehashFitsIff`). A
  table has such a size if and only if it was asked for
  (`HashTableProgram.Table.constructor`).

In `workq.c` the field `idle` is never changed, so no server is ever signalled; the model
follows the code, and servers come back by their timeout.

## Model

| member | source | states |
|---|---|---|
| McsLock.StepKeepsInv | c/code_only/kernel_practice.c:64-92 | every atomic step of any thread keeps the queue of nodes well linked, in the order of the exchanges, with one head |
| McsLock.RunInv | c/code_only/kernel_practice.c:64-92 | the invariant holds in every state of every run of any number of threads, each reusing its node |
| McsLock.MutualExclusion | c/code_only/kernel_practice.c:64-92 | in no reachable state do two threads hold the lock |
| McsLock.FifoOrder | c/code_only/kernel_practice.c:71-91 | the lock is entered in exactly the order of the exchange operations, and the holder is the first that has not left |
| McsLock.LosingReleaserHasSuccessor | c/code_only/kernel_practice.c:84-89 | a releaser whose compare-exchange failed has a next thread in the queue, which has linked itself or does so in its next step |
| McsLock.Progress | c/code_only/kernel_practice.c:64-92 | while anyone is queued, the head of the queue or its successor can take a step that changes it |
| McsLock.JoinsQueue | c/code_only/kernel_practice.c:64-75 | a thread that calls spin_lock is last in the queue after four steps of its own |
| Calculator.DigitCharacters | programming_pearls/parse.c:16-16 | isdigit accepts exactly the ten characters 0 to 9, and each alone is worth what it says |
| Calculator.AtoiIsDecimal | programming_pearls/parse.c:16-23 | the value of a buffered number is the sum of its digits, each times the power of ten of its place, leading zeros included |
| Calculator.AtoiOfNumeral | programming_pearls/parse.c:19-21 | reading the decimal numeral of any number gives that number |
| Calculator.ParserIsCorrect | programming_pearls/parse.c:6-69 | for every well-formed expression, with any skipped characters between its tokens, the chain is its postfix form under normal precedence and left associativity |
| Calculator.CloseWithoutOpen | programming_pearls/parse.c:29-54 | of all characters only a closing parenthesis without an opening one on a non-empty stack makes parseBuf pop an empty stack; on an empty stack it is pushed itself |
| Calculator.PostfixRuns | programming_pearls/cal.c:89-105 | running a postfix form on any stack pushes exactly the expression's value |
| Calculator.CalculatorIsCorrect | programming_pearls/cal.c:82-107 | parsing and running leaves exactly one value, the expression's, and the last result is that value when there is an operator and unset when there is none |
| CalculatorStacks.ExprHighest | programming_pearls/parse.c:15-59 | reading the text of an expression puts at most, and at some moment exactly, SymbolSlots of it on the operator stack, above what is there already |
| CalculatorStacks.TextHighest | programming_pearls/parse.c:6-69 | so that is what parseBuf needs for its text, whatever skipped characters follow |
| CalculatorStacks.PostfixHighest | programming_pearls/cal.c:88-105 | running its chain puts at most, and at some moment exactly, NumberSlots of it on the operand stack |
| CalculatorProgram.Stack.Push | programming_pearls/stack.h:17-19 | one element more on top of those in the array, unless all slots are taken, which is reported |
| CalculatorProgram.Stack.Pop | programming_pearls/stack.h:21-23 | takes the element that the last push put on top; none when there is none, where the C code would read below the array |
| CalculatorProgram.Stack.Peek | programming_pearls/stack.h:25-27 | the top element, or none, and the stack stays as it is |
| CalculatorProgram.Chain.Insert | programming_pearls/cal.c:50-79 | walking to the end and linking there appends one item to the chain |
| CalculatorProgram.IsSymbol | programming_pearls/cal.c:39-48 | true exactly for the four symbols |
| CalculatorProgram.MoveWhile | programming_pearls/parse.c:33-46 | the loops of the two operator cases move what PopWhile moves |
| CalculatorProgram.MoveToParen | programming_pearls/parse.c:50-54 | the loop of the closing parenthesis, with the underflow reported |
| CalculatorProgram.ReadSymbol | programming_pearls/parse.c:26-59 | one symbol changes stack and chain as ParseChar does |
| CalculatorProgram.ReadChar | programming_pearls/parse.c:15-59 | one character changes digits, stack and chain as ParseChar does |
| CalculatorProgram.ReadText | programming_pearls/parse.c:14-60 | the loop reads the whole text as ParseText does, unless the stack is full before |
| CalculatorProgram.MoveAll | programming_pearls/parse.c:67-68 | the rest of the stack goes to the chain, top first |
| CalculatorProgram.ParseBuf | programming_pearls/parse.c:6-69 | appends to the linked chain what ParseOnto gives; it ends early exactly when a symbol finds no free slot on its stack, or where the C code would pop an empty one |
| CalculatorProgram.ExecuteItem | programming_pearls/cal.c:90-104 | one chain element changes the stack and the result as Execute does |
| CalculatorProgram.Cal | programming_pearls/cal.c:82-107 | following the links runs the whole chain; it ends early exactly when a number finds no free slot, or where the C code would pop an empty stack or push an unset variable |
| CalculatorProgram.Calculate | programming_pearls/cal.c:109-115 | both programs together return the value of every well-formed expression if and only if it needs no more slots than the two stacks have |
| HashTable.IsPrime | programming_pearls/hashTable.c:36-46 | trial division up to the root accepts exactly the primes and the numbers below 2 |
| HashTable.NextPrime | programming_pearls/hashTable.c:48-56 | terminates on the least accepted number from its argument on |
| HashTable.ComputeHash | programming_pearls/hashTable.c:84-98 | the loop computes the 32-bit hash, reduced below the table size |
| HashTable.HashIsPositional | programming_pearls/hashTable.c:84-98 | the hash is the decimal digits of the value, the last one first, read in base 32, modulo 2^32 and then the size |
| HashTable.ProbeNext | programming_pearls/hashTable.c:110-113 | adding 2k-1 with one conditional subtraction is the step from one quadratic probe to the next, and stays in range |
| HashTable.ProbesDistinct | programming_pearls/hashTable.c:106-114 | probes up to half of a prime size are different slots |
| HashTable.ProbeSetSize | programming_pearls/hashTable.c:106-114 | k probes visit k slots |
| HashTable.PassesBound | programming_pearls/hashTable.c:108-114 | a search passes no more slots than are occupied |
| HashTable.StopMeaning | programming_pearls/hashTable.c:100-116 | where the search stops is the entry of the value with its total, or an empty slot exactly when the value is absent |
| HashTable.PlaceSound | programming_pearls/hashTable.c:151-155 | filling the empty slot where the search stopped keeps every entry reachable |
| HashTable.AddSound | programming_pearls/hashTable.c:149-150 | adding to an entry keeps every entry reachable |
| HashTable.PlaceRepresents | programming_pearls/hashTable.c:148-155 | the entries then represent the map with that one key increased |
| HashTable.OnePlace | programming_pearls/hashTable.c:100-116 | no value is stored twice |
| HashTable.RehashFitsIff | programming_pearls/hashTable.c:118-164 | the inserts inside rehash leave less than half of the new table filled if and only if the old size is at least 2; otherwise they rehash in turn |
| HashTableProgram.Table.constructor | programming_pearls/hashTable.c:58-76 | an empty table, valid if and only if n is at least 2; its size is then the least prime from n on, and n itself otherwise |
| HashTableProgram.Table.Find | programming_pearls/hashTable.c:100-116 | ends after fewer than size/2 collisions, in range, at the value's entry or an empty slot |
| HashTableProgram.Table.Store | programming_pearls/hashTable.c:149-155 | the map gains the repeat count at that one key |
| HashTableProgram.Table.Insert | programming_pearls/hashTable.c:143-164 | the returned table holds the old map with one key increased; it is a new table, of the least prime size from twice the old one on, exactly when a new value fills half of the slots |
| HashTableProgram.Table.Rehash | programming_pearls/hashTable.c:118-141 | the new table holds the same map, and its size is the least prime from twice the old one on |
| HashTableProgram.CopyEntry | programming_pearls/hashTable.c:131-134 | the insert inside rehash never rehashes, so its discarded result is the same table |
| HashTableProgram.CopyOne | programming_pearls/hashTable.c:130-135 | the copy of one entry is new to the copy, which stays smaller than the whole map |
| HashTableProgram.AllCopied | programming_pearls/hashTable.c:130-135 | after the last entry the copy is the whole map |
| HashTableProgram.Tally | programming_pearls/hashTable.c:202-206 | the table holds for every value how often it was read |
| Divisors.GetPrimeFactors | python/projecteuler/12.py:4-28 | primes in order whose product is the number |
| Divisors.MarkOnes | python/projecteuler/12.py:31-33 | every mark in the enumeration selects k positions |
| Divisors.MarkDistinct | python/projecteuler/12.py:35-53 | no selection is listed twice |
| Divisors.MarkComplete | python/projecteuler/12.py:35-53 | every selection of k positions is listed |
| Divisors.MarkFollows | python/projecteuler/12.py:38-50 | each mark follows the one before by the shift of the loop body |
| Divisors.ShiftMark | python/projecteuler/12.py:40-48 | the marks before the drop are packed to the front |
| Divisors.Advance | python/projecteuler/12.py:37-52 | finds the next mark, or none exactly after the last one |
| Divisors.GenerateCombos | python/projecteuler/12.py:35-53 | the loop emits one combination per mark, in order |
| Divisors.GetCombine | python/projecteuler/12.py:30-53 | all selections of k positions for 1 <= k <= length, each exactly once |
| Divisors.SelectDivides | python/projecteuler/12.py:61-62 | a product of selected prime factors divides the number |
| Divisors.DivisorSelected | python/projecteuler/12.py:59-65 | every divisor is the product of some selection |
| Divisors.AddProducts | python/projecteuler/12.py:61-65 | the products that are not there yet, and nothing else, are added once each |
| Divisors.GetFactors | python/projecteuler/12.py:55-68 | exactly the divisors of the number, strictly increasing, for every number from 1 on |
| Rotation.Reverse | programming_pearls/reverse.c:7-18 | for any bounds, reports exactly when the loop would leave the array; otherwise the range is reversed in place and the rest is unchanged |
| Rotation.MiddleRoundsToZero | programming_pearls/reverse.c:11-11 | the middle is half of the sum of the bounds, rounded toward zero also when the sum is negative |
| Rotation.StaysInsideIff | programming_pearls/reverse.c:11-17 | for a range of the array the loop stays inside it if and only if start + end >= 0, with the middle rounded toward zero |
| Rotation.ThreeCallsStayInsideIff | programming_pearls/reverse.c:59-61 | the three calls stay inside the array if and only if 1 <= num <= len |
| Rotation.FlippedAt | programming_pearls/reverse.c:13-17 | what a reversed range holds at each index |
| Rotation.BackwardsTwice | programming_pearls/reverse.c:7-18 | reversing twice changes nothing |
| Rotation.ThreeFlips | programming_pearls/reverse.c:59-61 | reversing both parts and then the whole is a rotation |
| Rotation.RotateByReversal | programming_pearls/reverse.c:59-61 | for any num, the calls rotate the array left by num exactly when 1 <= num <= len, and leave the array otherwise |
| Rotation.OrbitPeriod | programming_pearls/reverse.c:30-40 | a cycle closes after len/gcd moves |
| Rotation.NoShorterPeriod | programming_pearls/reverse.c:30-40 | and not before |
| Rotation.OrbitDistinct | programming_pearls/reverse.c:30-40 | a cycle visits no index twice |
| Rotation.OrbitResidue | programming_pearls/reverse.c:26-44 | a cycle stays in the residue class of its start modulo the gcd |
| Rotation.OrbitCovers | programming_pearls/reverse.c:26-44 | and visits all of it |
| Rotation.FollowCycle | programming_pearls/reverse.c:27-40 | the inner loop moves exactly the elements of one cycle, visits its indices in order and counts them |
| Rotation.PathsOnce | programming_pearls/reverse.c:26-44 | the cycles of the first n starts visit the indices of n residue classes, each once |
| Rotation.AllCounted | programming_pearls/reverse.c:42-43 | the count is len exactly when the last class has been visited |
| Rotation.Move | programming_pearls/reverse.c:20-45 | for any num: nothing moves unless num is positive; otherwise the array is rotated left by num mod len, which is the result of the three reversals where those stay inside, and the visited indices are all indices, each once, as many as the count |
| Heap.SiftOrders | programming_pearls/heap.c:128-142 | percolating down into a hole restores the heap below it |
| Heap.SiftPermutes | programming_pearls/heap.c:128-142 | and keeps the elements |
| Heap.SiftBuilds | programming_pearls/heap.c:144-150 | one step of buildHeap extends the ordered part downwards |
| Heap.DeleteMinKeepsHeap | programming_pearls/heap.c:73-118 | removing the root leaves a heap without exactly that element, which was a minimum |
| Heap.DeleteMinElements | programming_pearls/heap.c:152-166 | the elements above the sentinel lose exactly the minimum |
| Heap.InsertKeepsHeap | programming_pearls/heap.c:41-54 | when the loop ends, the result is a heap with exactly the new number added |
| Heap.InsertLoopsForever | programming_pearls/heap.c:49-50 | a number below the sentinel and the root keeps the loop running after any number of rounds |
| Heap.ClimbThenRise | programming_pearls/heap.c:49-51 | these rounds are those of the loop: where it ends, any number of them leads to the same result |
| Heap.CheckHeapExact | programming_pearls/heap.c:56-71 | checkHeap answers 0 exactly for heaps |
| Heap.CheckHeapCounts | programming_pearls/heap.c:56-71 | the number it answers is the number of faulty positions that are under no other faulty one |
| HeapProgram.Heap.constructor | programming_pearls/heap.c:24-39 | an empty heap with its sentinel |
| HeapProgram.Heap.Insert | programming_pearls/heap.c:41-54 | a full heap refuses; otherwise a heap stays one with the number added |
| HeapProgram.Heap.PercolateUp | programming_pearls/heap.c:49-51 | the loop computes Rise |
| HeapProgram.Heap.PercolateDown | programming_pearls/heap.c:128-142 | the loop computes Sift |
| HeapProgram.Heap.BuildHeap | programming_pearls/heap.c:144-150 | makes any array a heap of the same elements |
| HeapProgram.Heap.DelMin | programming_pearls/heap.c:73-94 | returns the root and leaves DeleteMin; -1 when empty |
| HeapProgram.Heap.DelMin2 | programming_pearls/heap.c:96-118 | the same result and the same elements as the other two |
| HeapProgram.Heap.DelMin3 | programming_pearls/heap.c:152-166 | the same result and the same elements as the other two |
| HeapProgram.Heap.Drain | programming_pearls/heap.c:206-215 | draining gives the sorted permutation |
| FindVma.LowestIsLowest | c/code_only/kernel_practice.c:1-31 | the plain search gives the lowest area that ends after the address, or none exactly when there is none |
| FindVma.LowestNode | c/code_only/kernel_practice.c:13-24 | one step of the descent keeps the answer |
| FindVma.ContainingIsLowest | c/code_only/kernel_practice.c:6-7 | a cached area that contains the address is the answer |
| FindVma.Find | c/code_only/kernel_practice.c:1-31 | the cached lookup agrees with the plain search whatever the cache holds |
| FindVma.FindAll | c/code_only/kernel_practice.c:1-31 | so does every lookup in any sequence of lookups |
| RadixSort.DistributeStable | programming_pearls/radix_sort.c:64-86 | a pass turns the stable order by k digits into the stable order by k + 1 |
| RadixSort.InitialStable | programming_pearls/radix_sort.c:119-124 | reading the file orders it stably by the last digit |
| RadixSort.StableOfInput | programming_pearls/radix_sort.c:119-132 | later passes are stable with respect to the file itself |
| RadixSort.StableIsPermutation | programming_pearls/radix_sort.c:50-90 | a stable order is a permutation |
| RadixSort.AllDigitsSort | programming_pearls/radix_sort.c:127-132 | with all digits of max used the order is the order of the numbers |
| RadixSortProgram.Ring.AddNum | programming_pearls/radix_sort.c:33-48 | a new last node of the circular list |
| RadixSortProgram.Ring.RemoveFirst | programming_pearls/radix_sort.c:73-81 | the first node is unlinked |
| RadixSortProgram.Lists.Put | programming_pearls/radix_sort.c:69-71 | a number goes to the end of the list of its digit |
| RadixSortProgram.MoveFirst | programming_pearls/radix_sort.c:69-81 | one node moves and nothing is lost |
| RadixSortProgram.EmptyRing | programming_pearls/radix_sort.c:68-82 | one list moves to the barrel in order |
| RadixSortProgram.ComputeBase | programming_pearls/radix_sort.c:61-62 | the power of ten of the pass |
| RadixSortProgram.Sort | programming_pearls/radix_sort.c:50-90 | ten linked lists become those of one stable pass |
| RadixSortProgram.ReadFile | programming_pearls/radix_sort.c:116-124 | the first distribution of the file |
| RadixSortProgram.NextPass | programming_pearls/radix_sort.c:128-131 | after pass k the lists read in order are the input ordered stably by value mod 10^k |
| RadixSortProgram.RunPasses | programming_pearls/radix_sort.c:126-132 | the loop makes one pass per digit of max |
| RadixSortProgram.SortFile | programming_pearls/radix_sort.c:116-132 | the lists read in order are the sorted permutation of the file when no number exceeds max |
| RwLock.StepKeepsInv | posix_multithread/programs_src/rwlock.c:117-276 | every critical section keeps the counters exact, the exclusion and the wakeups, an unlock by a thread that does not hold the lock excepted |
| RwLock.ForeignUnlockMiscounts | posix_multithread/programs_src/rwlock.c:167-276 | after an unlock by a thread that does not hold the lock the counters no longer count the holders |
| RwLock.RunInvIff | posix_multithread/programs_src/rwlock.c:117-276 | counters, exclusion and wakeups are right in all states of a run, of any threads that may also unlock what they do not hold, if and only if no thread does |
| RwLock.WriterExcludesAll | posix_multithread/programs_src/rwlock.c:117-276 | as long as only holders unlock, a writer is never active together with another holder |
| RwLock.WaitersAreServed | posix_multithread/programs_src/rwlock.c:117-276 | as long as only holders unlock, the wait counters are the numbers of waiting threads, readers sleep only under a writer, and on a free lock with waiters some waiter is woken and its next step gets the lock |
| RwLock.CallsAnswer | posix_multithread/programs_src/rwlock.c:117-276 | as long as only holders unlock, a reader is stopped, or told busy, exactly when some thread writes, and a writer exactly when some thread reads or writes; otherwise it holds the lock; the last reader to leave wakes a writer, and a writer that leaves wakes all readers or, if none waits, a writer; nothing else changes |
| RwLock.UnlockPossible | posix_multithread/programs_src/rwlock.c:167-276 | an unlock by any thread can always be made, and need not wake more than one writer |
| RwLock.TwoWriters | posix_multithread/programs_src/rwlock.c:206-276 | from every initial state with two threads there is a run in which one unlocks what the other holds for writing and then both are writers |
| Barrier.StepKeepsInv | posix_multithread/programs_src/barrier.c:90-144 | with any number of threads every step keeps counter, cycle and the calls of each round in step; with at most `threshold` threads also what each waiter and each missing return belongs to |
| Barrier.StepKeepsPace | posix_multithread/programs_src/barrier.c:99-132 | the part of the invariant that needs no bound: the counter stays between 1 and the threshold, the cycle bit is the parity of the round, and every round's calls fit the counter |
| Barrier.ReturnsAfterAllCalls | posix_multithread/programs_src/barrier.c:90-144 | with any number of threads no call of round k returns, with -1 or 0, before exactly `threshold` calls of round k were made |
| Barrier.CompletedRounds | posix_multithread/programs_src/barrier.c:101-144 | with any number of threads every completed round had `threshold` calls and returned -1 once; with at most `threshold` threads all its other calls have returned or are still inside |
| Barrier.NoMissedToggle | posix_multithread/programs_src/barrier.c:121-132 | with at most `threshold` threads no waiter misses its toggle, and a waiter of a past round can return at once |
| Barrier.ToggleCanBeMissed | posix_multithread/programs_src/barrier.c:90-144 | with more threads there is a schedule in which one does |
| Barrier.ToggleMissedIff | posix_multithread/programs_src/barrier.c:30-46 | a miss is possible if and only if the threads outnumber a threshold of at least 2 |
| Pipeline.StepKeepsInv | posix_multithread/programs_src/pipe.c:45-112 | every step of a stage or a client keeps the items in flight in order and the wakeups |
| Pipeline.RunInv | posix_multithread/programs_src/pipe.c:131-232 | so it holds in every state of every run from a new pipeline |
| Pipeline.InOrderNothingLost | posix_multithread/programs_src/pipe.c:45-232 | the n-th result is the n-th accepted value plus the number of stages, and accepted is results plus in flight |
| Pipeline.ItemsKeepMoving | posix_multithread/programs_src/pipe.c:84-112 | while an item is short of an empty tail some stage thread has a step that moves it on and does not only put it back to sleep |
| Pipeline.TakersAreOwed | posix_multithread/programs_src/pipe.c:184-232 | clients waiting for a result never outnumber the items in flight or being sent, and none sleeps past a full tail |
| Pipeline.ResultAnswers | posix_multithread/programs_src/pipe.c:210-222 | in every run pipe_result answers that there is nothing exactly when every item in the pipe and on its way into it is owed to a client already, and otherwise the caller is owed one |
| Pipeline.ClientsFinish | posix_multithread/programs_src/pipe.c:45-232 | a client that may go on and finds the head empty or the tail full can finish its call in one step |
| WorkQueue.StepKeepsInv | posix_multithread/programs_src/workq.c:51-142 | every critical section of server, add and destroy keeps the accounting |
| WorkQueue.ServersAreCounted | posix_multithread/programs_src/workq.c:249-307 | `counter` is the number of live servers, at most `parallelism`, and a non-empty queue has a live server |
| WorkQueue.AddStartsServer | posix_multithread/programs_src/workq.c:249-307 | in every run an add accepts one item and starts exactly one server if fewer than `parallelism` are alive, and none otherwise |
| WorkQueue.ServerChoices | posix_multithread/programs_src/workq.c:51-142 | in every run a server that gets the mutex takes the first item if there is one, otherwise leaves if it was asked to quit or has timed out, and otherwise waits; the last to leave wakes the destroyer |
| WorkQueue.SomeoneCanServe | posix_multithread/programs_src/workq.c:51-235 | while there are items some server can take the first, a sleeping server can always time out, and with no server left the destroyer can return |
| WorkQueue.ItemsLeaveInOrder | posix_multithread/programs_src/workq.c:92-102 | items are dequeued in the order in which they were accepted, each into one running server |
| WorkQueue.DestroyedMeansAllRan | posix_multithread/programs_src/workq.c:189-244 | at the step in which destroy returns, whatever adds are under way, the queue is empty, no server is left, every item accepted so far has run exactly once, and an add can still be made exactly when one is under way |
| WorkQueue.AllRanForeverIff | posix_multithread/programs_src/workq.c:189-307 | in every continuation of a run in which destroy has returned, all accepted items have run exactly once, if and only if no add is under way at the return |
| WorkQueue.NothingMore | posix_multithread/programs_src/workq.c:189-307 | with no add under way nothing happens after the return |
| WorkQueue.LateAdd | posix_multithread/programs_src/workq.c:255-306 | an add under way at the return can put an item into the destroyed queue |
| WorkQueue.LostAddRun | posix_multithread/programs_src/workq.c:189-307 | from every initial state with a client there is a run in which that happens |
| AlarmThread.InsertSorted | posix_multithread/programs_src/alarm_cond.c:50-69 | inserting keeps the list sorted by time |
| AlarmThread.StepTotal | posix_multithread/programs_src/alarm_cond.c:110-152 | a step neither loses nor duplicates an alarm |
| AlarmThread.StepKeepsInv | posix_multithread/programs_src/alarm_cond.c:39-152 | every step keeps the list sorted and current_alarm right |
| AlarmThread.RunInv | posix_multithread/programs_src/alarm_cond.c:94-152 | so they hold in every state of every run with a monotone clock and positive alarm times |
| AlarmThread.RunTotal | posix_multithread/programs_src/alarm_cond.c:184-195 | each alarm is queued, held and printed together as often as it was accepted |
| AlarmThread.AlarmsAreConserved | posix_multithread/programs_src/alarm_cond.c:39-152 | the list, the held alarm and the printed ones are exactly the accepted ones |
| AlarmThread.PrintedOnceNotEarly | posix_multithread/programs_src/alarm_cond.c:124-151 | an alarm is printed at most once and never before its time |
| AlarmThread.WaitsForEarliest | posix_multithread/programs_src/alarm_cond.c:131-143 | while the thread waits for an alarm with current_alarm at its time, no queued alarm is earlier, and it never sleeps on anything else |
| AlarmThread.AcceptedFor | posix_multithread/programs_src/alarm_cond.c:184-192 | the k-th alarm was accepted in one step of the run and its time is the time of that step plus its seconds |
| AlarmThread.TakesEarliest | posix_multithread/programs_src/alarm_cond.c:111-151 | the alarm thread takes the earliest queued alarm and prints it at once if its time has come, and otherwise waits for it |
| AlarmThread.StuckOnlyAsleep | posix_multithread/programs_src/alarm_cond.c:110-151 | the alarm thread has no step of its own only while nothing is queued or while nothing queued or held is due; a held alarm that is due can be printed |
| AlarmList.List.FindPlace | posix_multithread/programs_src/alarm_cond.c:50-60 | the walk stops at the first alarm that is not earlier |
| AlarmList.List.LinkIn | posix_multithread/programs_src/alarm_cond.c:53-69 | the two assignments insert one node there |
| AlarmList.List.InsertNode | posix_multithread/programs_src/alarm_cond.c:39-69 | the linked list becomes the sorted insertion |
| AlarmList.InsertAt | posix_multithread/programs_src/alarm_cond.c:50-69 | sorted insertion is insertion at that place |
| SnowList.ListInit | snow_os/snow.c:33-37 | a node alone in its ring |
| SnowList.ListInsert | snow_os/snow.c:39-47 | a new node between two neighbours of a ring |
| SnowList.ListRemove | snow_os/snow.c:49-57 | from a ring, the others stay a ring and the node is alone; a lone node stays so; and what is written on any links |
| SnowList.ListEmpty | snow_os/snow.c:59-62 | of the head of a ring, true exactly when the ring is nothing else |
| SnowList.ListFifoPut | snow_os/snow.c:65-68 | a new last node; the links stay inverse to each other exactly when the node was not on the list |
| SnowList.ListFifoGet | snow_os/snow.c:70-79 | takes the first node after the head, or none, and leaves a ring; a list into which a node was put twice stays broken |
| SnowList.RingNotBroken | snow_os/snow.c:33-79 | in a ring every node's successor leads back to it |
| Snow.TimerInsertOk | snow_os/snow.c:304-325 | timer_list stays sorted with one timer per thread |
| Snow.HasTimerInsert | snow_os/snow.c:304-325 | exactly the new timer is added |
| Snow.WakeupKeepsInv | snow_os/snow.c:144-154 | waking a thread that is not current keeps every thread in one place |
| Snow.FireKeepsInv | snow_os/snow.c:426-434 | firing timers does too and leaves no expired timer |
| Snow.DispatchKeepsInv | snow_os/snow.c:436-445 | so does the choice of the next thread |
| Snow.PassKeepsInvIff | snow_os/snow.c:417-448 | a whole pass keeps every thread in one place if and only if it does not fire the timer of the thread still current |
| Snow.DispatchIsFifo | snow_os/snow.c:436-445 | the head of the ready list runs, a preempted thread goes to its end, and the idle thread runs only when nobody can |
| SnowSync.StepKeepsPlaces | snow_os/snow.c:144-221 | every step of the kernel keeps all lists well formed |
| SnowSync.StepKeepsSync | snow_os/snow.c:169-294 | every step keeps the objects' counts and the wakeups |
| SnowSync.RunInv | snow_os/snow.c:365-448 | both hold in every state of every run from the start |
| SnowSync.SemaphoreCount | snow_os/snow.c:263-294 | a count is the initial value plus ups minus successful downs; it is never negative, or, when it starts negative, never below its start |
| SnowMutex.StepAccounted | snow_os/snow.c:230-261 | a step keeps the account of who holds a mutex if and only if it is not an unlock by a thread that is not the owner |
| SnowMutex.MutexOwnerIff | snow_os/snow.c:230-261 | throughout a run the owner is the one thread whose successful locks outnumber its unlocks, the count says by how many, and there is an owner exactly when it is positive, if and only if only owners unlock |
| SnowMutex.MutexExcludes | snow_os/snow.c:230-261 | as long as only owners unlock, two threads never hold a mutex at once |
| SnowMutex.ForeignUnlock | snow_os/snow.c:241-250 | a run from the start in which a thread unlocks what another locked and then both hold the mutex |
| SnowSync.NoLostWakeup | snow_os/snow.c:169-221 | while a thread is queued for an available object, at least as many threads as could take it were woken by a release and have yet to retry, and all of them can run |
| SnowSync.OnePlace | snow_os/snow.c:144-221 | a thread is exactly one of running, ready, on one wait list, or asleep with a linked timer, and no list holds it twice |
| SnowSync.ReadyAdvances | snow_os/snow.c:436-445 | a switch moves every ready thread one place forward; other steps do not move it |
| SnowSync.KeepsItsTurn | snow_os/snow.c:417-448 | over whole runs a thread behind n others is at the head after n switches |
| SnowSync.RunsAtItsTurn | snow_os/snow.c:417-448 | and runs at the next switch |
| SnowSync.SleepTooShort | snow_os/snow.c:156-167 | exactly which sleeps lead to the excluded pass |
| SnowSync.WaitTooShort | snow_os/snow.c:184-197 | exactly which timed waits lead to it |
| SnowSync.FireWakesDue | snow_os/snow.c:426-434 | a pass wakes exactly the threads whose timers have expired |
| SnowSync.WokenExactly | snow_os/snow.c:144-221 | a sleeping or waiting thread becomes runnable exactly by its expired timer or as the first waiter of a release |
| SnowSync.ReleaseMovesFirst | snow_os/snow.c:206-221 | a release moves the first waiter to the end of the ready list and nobody else |
| SnowTime.ClockCountsTicks | snow_os/snow.c:383-386 | a hundred ticks make a second |
| SnowTime.RunSlices | snow_os/snow.c:436-445 | in every run no time slice reaches further than one slice from now, and that of the current thread is not used up between two steps |
| SnowTime.ProcessorGoesTo | snow_os/snow.c:417-448 | in every run in which a thread is ready, one that can run loses the processor at every tick and, after the first tick, at every call of snow_sched, and never otherwise; the idle thread and one that cannot run lose it at the next pass; the head of the ready list gets it, for one slice |
| SnowTime.PreemptedGoesLast | snow_os/snow.c:437-438 | a thread that loses the processor although it can run goes behind all ready ones |
| SnowTime.SleepLasts | snow_os/snow.c:156-167 | a sleeper can run again at the first pass at which at least the asked time has gone by since its call, and not before |
| SnowTime.WaitLasts | snow_os/snow.c:169-221 | a thread waiting in a get is woken by a release that finds it first, any release of a semaphore or the last one of a mutex, or at the first pass at which its timeout has gone by since the get began, and by nothing else; without timeout never by the clock |
| SnowTime.GetAnswers | snow_os/snow.c:184-204 | every try of a get takes the object if it can; otherwise it answers -1 exactly when the timeout has gone by since the get began, and waits last on the list if it has not |
| SnowTime.GoesOnAfterSched | snow_os/snow.c:197-198 | when snow_sched returns, a thread that waited in a get tries again with the same deadline, and any other goes back to ordinary code |
| SnowLinks.RingsDisjoint | snow_os/snow.c:26-79 | sched_list, timer_list, the wait lists and the nodes on no list have no node in common |
| SnowLinks.Relinked | snow_os/snow.c:39-57 | relinking the nodes of two rings leaves all other rings as they are |
| SnowLinks.UnlinkThread | snow_os/snow.c:49-57 | list_remove takes a thread's node off whichever list it is on, the rings then spell the lists without it, and no other ring changes |
| SnowLinks.UnlinkTimer | snow_os/snow.c:327-332 | the same for a thread's timer |
| SnowLinks.InsertTimer | snow_os/snow.c:39-47 | list_insert of a loose timer behind the i-th node gives the ring of the list with it there |
| SnowLinks.PutReady | snow_os/snow.c:65-68 | list_fifo_put on sched_list gives the ring with the thread last, or, if it was there already, links put together wrong |
| SnowLinks.GetReady | snow_os/snow.c:70-79 | list_fifo_get on sched_list takes the first thread and leaves the ring of the others; wrong links stay wrong |
| SnowLinks.PutWait | snow_os/snow.c:65-68 | list_fifo_put on a wait list gives the ring with the thread last |
| SnowLinks.GetWait | snow_os/snow.c:70-79 | list_fifo_get on a wait list takes the first thread and leaves the ring of the others |
| SnowLinks.CorruptFitsNothing | snow_os/snow.c:436-441 | a link that does not lead back fits no layout of the lists |
| SnowLinks.MakeLists | snow_os/snow.c:23-37 | the empty lists are rings, with every node in one |
| SnowLinks.NewNodes | snow_os/snow.c:343-351 | the nodes of a new thread are rings of their own and the others stay |
| SnowProgram.Machine.constructor | snow_os/snow.c:365-375 | empty linked lists, in the state in which every run begins |
| SnowProgram.Machine.Rouse | snow_os/snow.c:147-151 | on the links, the thread goes from whichever list it is on to the end of sched_list |
| SnowProgram.Machine.Wake | snow_os/snow.c:144-154 | on the links, one list_remove, one list_fifo_put and the removal of the timer make the lists those of Wakeup, and every node stays in exactly one ring |
| SnowProgram.Machine.TimerAdd | snow_os/snow.c:304-325 | the walk along the links and the insertion between two nodes make timer_list the sorted insertion |
| SnowProgram.Machine.FireTimers | snow_os/snow.c:426-434 | the loop over the linked timers leaves the lists and flags of Fire |
| SnowProgram.Machine.Switch | snow_os/snow.c:436-445 | on the links, the lists and the current thread become those of Dispatch, unless a current thread that is on sched_list already is put there again, which corrupts the list |
| SnowProgram.Machine.Sched | snow_os/snow.c:417-448 | a pass, after which every node is in one ring and every thread in one place if and only if it did not fire the wakeup timer of the thread still current |
| SnowProgram.Machine.TickHandler | snow_os/snow.c:383-386 | the tick step on the links, with the same condition |
| SnowProgram.Machine.SchedCall | snow_os/snow.c:388-395 | the yield step on the links, with the same condition |
| SnowProgram.Machine.Sleep | snow_os/snow.c:156-167 | the sleep step on the links; the idle thread is refused |
| SnowProgram.Machine.Get | snow_os/snow.c:230-277 | mutex_get and sem_get change the object and answer as Take says |
| SnowProgram.Machine.Put | snow_os/snow.c:241-283 | mutex_put and sem_put, by whichever thread, change the object and answer as Give says |
| SnowProgram.Machine.BeginWait | snow_os/snow.c:169-183 | the deadline lies exactly the timeout after now: at once for 0, never for -1 as an unsigned number |
| SnowProgram.Machine.TryToGet | snow_os/snow.c:184-204 | the get step on the links: it returns 0 exactly when the object was taken, -1 when the time is up, and otherwise the caller is last on the wait list |
| SnowProgram.Machine.WaitPut | snow_os/snow.c:206-221 | the release step on the links, by whichever thread, and whether a waiter was woken |
| SnowProgram.Machine.Create | snow_os/snow.c:334-358 | two fresh nodes join the kernel's, the new thread is last in the ring of sched_list, its timer is alone, and every other ring is as it was |

## Left out

- Functions named main, printing, reading of files and arguments, malloc failure, and every error and cancellation path of the pthread calls.
- barrier_destroy, rwl_destroy, the init functions' cleanup, and the snow kernel's register save and restore, stack copying and user timers other than the wakeup timer.
- Integers are unbounded except for the 32-bit hash value: no overflow of counters, sums, table sizes, sys_time_us or the pipeline's data.
- The 16-character digit buffer of the calculator is unbounded. The number of slots of its stacks, 50 in the source, is a parameter. Peek on an empty stack gives nothing, so no operator; where push would write above the array or pop read below it the model ends and reports so.
- Freed memory: nodes and tables that the source frees are not reused, and the freed chain of a radix pass is not looked at again.
- The global collision counter of the hash table is the count that Find returns. What insert goes on to do to a table made with size 0 or 1, where it divides by zero or uses a freed table, is not modelled.
- Divisors.GetFactors: the sort of the list is modelled as insertion, and a list in place of Python's is a sequence that is reassigned.
- Memory order of the MCS lock: steps are sequentially consistent.
- RwLock, Barrier, Pipeline, WorkQueue and AlarmThread are state machines over values; update in place is modelled only for the alarm list.
- WorkQueue has one caller of workq_destroy, and the mutex that it destroys goes on working for a late add.
- SnowProgram keeps the fields of threads in sequences by thread, with their two nodes as objects; holder_of is a constant of the node.
- Snow runs leave out a pass that fires the timer of the current thread, and the idle thread calling a blocking function other than snow_usleep.
- snow_mutex_init does not set the owner; the model starts it without one.
- backoff.c, susp.c, crew.c, server.c, sort.c, move.c, sqrt.c, drivers, system-call demos and the remaining scripts: code around cores covered here, code that does not do what it is named for, or no logic.

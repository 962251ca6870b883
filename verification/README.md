# Verified models of the data structures, protocols and schedulers

The repository teaches data structures in C and system programming on Linux. This project models the programs in
it that do something hard to get right, and proves what they are for. `dafny verify dfyconfig.toml` checks it all.
Sizes, capacities, bounds and steps that the programs fix with `#define` are parameters here, but for `ClockConstants`.

| files | what they model |
|---|---|
| `Trees`, `TreeHeap` | the size-balanced search tree: `Trees` reasons about trees as values, `TreeHeap` rewrites linked nodes in place and is proved against it |
| `TreesAsWritten`, `RotationAsWritten`, `TreeHeapAsWritten` | the same tree with `find_max` as the source has it: single turns and deletions, the rotation loop and `balance`, and all of them on linked nodes |
| `LinkedQueue` | the circular doubly linked list with a sentinel and the queue on it, which the level-order traversal uses |
| `SaveLoad` | saving a tree as bracketed text and loading it back |
| `Expressions`, `Evaluator`, `Rejection`, `Calculator`, `ArrayStack` | the grammar and its meaning, the two-stack evaluator as a function, what it does not accept, and the same on array stacks |
| `BallClock`, `ClockMachine`, `RingQueue` | the ball clock on values, and on a ring queue and three array stacks |
| `ClockPlaces`, `ClockTrails`, `ClockConstants` | where each ball goes in half a day, and from it what the program does with its own constants and its check as written |
| `Primes`, `PrimePool` | trial division, and the one-slot task pool as a step system |
| `TokenBucket`, `BucketLocks`, `BucketTokens`, `BucketCalls` | the bucket's arithmetic with the loop that pays with it, its locking as a step system, what the locking leaves of the arithmetic, and what whole sweeps and calls do |
| `Relay`, `RelayRuns` | the two-way relay, polled or driven by select, and where its machines end up over whole runs |
| `Anytimer` | the table of timed jobs |
| `ServerPool`, `PoolTable` | the dynamic process pool's counters, scan and control pass, and which children its table holds |
| `Josephus`, `Polynomial` | pointer algorithms on a ring and on two lists |
| `Counting`, `Wrappers` | small shared definitions and facts of arithmetic |

How the models stand to the code:

- A parameter of type `**root` is modelled as the pointer passed in and its new value returned. Ghost parameters
  name the tree, circle or list that the pointers form.
- `exit`, `abort`, division by zero and a pop that finds nothing and leaves its variable unset are modelled as
  failure: `None` in functions, `false` in methods.
- Concurrent programs are step systems: any thread may take the next step, and lemmas speak of all sequences of
  steps. In `PrimePool` one stay inside the mutex is one step, since nothing else touches the shared data; in
  `BucketLocks`, where two levels of locks nest, each lock, wait and unlock is a step of its own. Spurious
  wake-ups may occur at any time.
- What `read`, `write`, `select`, `kill` and `fork` return, and what a child process's state looks like when the
  parent reads it, are parameters. Only what the calls guarantee is asked of them.

Where the code and its purpose part:

- `find_max` (C11-数据结构/ds/tree/btree/main.c:157-163) goes on with `find_min`. The tree is modelled with the
  function its name describes, and everything that calls it also as written. As written a right turn keeps the order
  exactly when the left child has at most one node on its right (`TurnRightAsWrittenKeepsOrderIff`); the rotation
  loop ends on every tree (`RotationAsWrittenEnds`), and the order of a tree of distinct nodes survives it, or all of
  `balance`, exactly when no pass of the loop meant turns right over more than that (`RotationAsWrittenIff`,
  `BalanceAsWrittenIff`): what one pass spoils no later one mends. Otherwise not even the balance is certain
  (`BalanceAsWrittenUneven`). `DeletionAsWrittenIff` says when deletion does no harm.
- The evaluator is unfinished. It is modelled with the index starting at 0, the end of the string as the end of
  the loop, and `(datatype *)&op` as the operator's value. A push on a full stack is dropped, as in the code, and
  the drop recorded.
- In the ball clock `time` is taken to start at 0 and `check` to compare neighbouring places, with `%` where line 25
  has `/`. `check` is asked about two or more balls. With `/` it cannot be relied on for any ring, head and number of
  balls (`CheckAsWrittenNeverRight`), and with the program's own 27 balls in a ring of 32 the loop ends after eleven
  half days with the balls in another order than the one they started in (`RunAsWritten`).
- Trial division with `j < i/2` takes 1 and 4 for primes; `MarkedExact` and `PrintsThePrimes` carry the exact
  condition.
- In the copying loop every write starts at the front of the buffer again, so a run copies what it reads exactly when
  no chunk is written in two pieces (`ShortWritesRepeat`, `RunCopiesIff`), and a read that
  fails hard makes the loop give back one token too many (`FailedReadMintsToken`), so `WrittenBound` counts such
  failures; without counting them the bound holds exactly under the condition of `AlwaysPaidIff`.
- `scan_pool` reads a child's state twice; a child that goes from busy to idle in between makes the parent abort
  (`Scanned`).
- One control pass of the pool need not reach the minimum; `OnePassEnoughIff` has the exact condition on MIN, MAX and
  the size of the pool.
- A job added with 0 seconds never fires, because its counter goes below zero (`JobLife`). `WaitJob` therefore asks
  that the job has a second left or is at rest; otherwise, and only then, the source waits for ever (`WaitsForever`).
- The relay's tests are crosswise by descriptor. They drive the right machine exactly when the two descriptors differ
  (`UncrossedIff`); `DrivenExactly`, `SomebodyDriven` and what follows from them are about two different ones.
- The saved format loses trees that hold a closing bracket (`RoundTripIff`).
- `jose_kill` with a step below 2 would use a variable that is not set; its methods ask for a step of at least 2.

## Model

| member | source | states |
|---|---|---|
| `Trees.RotationTerminates` | C11-数据结构/ds/tree/btree/main.c:199-209 | On every non-empty tree the rotation loop stops, after at most as many turns as the tree has nodes, with sides that differ by at most one node. |
| `Trees.TurnShrinks` | C11-数据结构/ds/tree/btree/main.c:201-208 | Seen as a middle tree with one tree grafted on its leftmost and one on its rightmost node, both smaller than half, every turn strictly shrinks the middle and never shrinks the two grafts; the side just rejected ends up outside the middle. |
| `Trees.RejectedRootNeverReturns` | C11-数据结构/ds/tree/btree/main.c:199-209 | However left and right turns alternate, a root that was turned away (known by its in-order place, the size of its left side) is never the root again. |
| `Trees.RebalancedCorrect` | C11-数据结构/ds/tree/btree/main.c:192-213 | After `balance` the in-order sequence of the nodes is unchanged and at every node the two subtrees differ in size by at most 1. |
| `Trees.BalancedHeight` | C11-数据结构/ds/tree/btree/main.c:186-213 | A balanced tree of n nodes has height exactly floor(log2 n)+1, and no tree of n nodes is lower. |
| `TreeHeap.Balance` | C11-数据结构/ds/tree/btree/main.c:192-213 | On linked nodes, in place: the links afterwards are those of the rebalanced tree of exactly the same nodes, none shared, and only `l` and `r` fields of the tree changed. |
| `TreeHeap.Settle` | C11-数据结构/ds/tree/btree/main.c:199-209 | The `while(1)` loop on linked nodes terminates with the links of the turned tree. |
| `TreeHeap.TurnLeftAt` | C11-数据结构/ds/tree/btree/main.c:144-155 | The left turn relinks the nodes to the tree with the old root and its left side hung under the leftmost node of the right side. |
| `TreeHeap.TurnRightAt` | C11-数据结构/ds/tree/btree/main.c:172-182 | The mirror image, with the rightmost node found by walking `r`. |
| `TreeHeap.FindMin` | C11-数据结构/ds/tree/btree/main.c:129-135 | The node found is the first of the in-order sequence. |
| `TreeHeap.FindMax` | C11-数据结构/ds/tree/btree/main.c:157-163 | The node found is the last of the in-order sequence (the function as its name requires, see below). |
| `TreesAsWritten.TurnRightAsWrittenKeepsOrderIff` | C11-数据结构/ds/tree/btree/main.c:157-182 | With `find_max` as written (it goes on with `find_min`), a right turn of a tree of distinct nodes keeps the in-order sequence exactly when the left child has at most one node on its right. |
| `TreesAsWritten.TurnRightAsWrittenLosesNodes` | C11-数据结构/ds/tree/btree/main.c:157-209 | A tree of six nodes that the rotation loop turns right, where the function as written loses a node and misplaces another. |
| `RotationAsWritten.TurnAsWrittenIff` | C11-数据结构/ds/tree/btree/main.c:157-208 | On a tree of distinct nodes a pass of the loop as written keeps the in-order sequence, and gives the tree meant, exactly when it does not turn right over more than one node. |
| `RotationAsWritten.RotationAsWrittenIff` | C11-数据结构/ds/tree/btree/main.c:199-209 | On a tree of distinct nodes, after any number k of passes, the loop as written has kept the in-order sequence, and equally is at the same tree as the loop meant, exactly when none of the first k passes of the loop meant turns right over more than one node: what a harmful pass loses or misplaces no later pass puts right. |
| `RotationAsWritten.RotationAsWrittenEnds` | C11-数据结构/ds/tree/btree/main.c:199-209 | On every tree with a node the loop as written, whatever it loses, comes to sides that differ by at most one node. |
| `RotationAsWritten.BalanceAsWrittenIff` | C11-数据结构/ds/tree/btree/main.c:192-213 | All of `balance` as written keeps the in-order sequence of a tree of distinct nodes exactly when no rotation loop of the balance meant, at any node, makes a harmful pass; then the result is the balanced tree meant. |
| `RotationAsWritten.BalanceAsWrittenUneven` | C11-数据结构/ds/tree/btree/main.c:192-213 | Ten nodes that `balance` as written does not leave balanced. |
| `TreeHeapAsWritten.TurnRightAsWrittenAt` | C11-数据结构/ds/tree/btree/main.c:157-182 | The right turn as written, on linked nodes: the links are those of the turn whose loss the rows above describe. |
| `TreeHeapAsWritten.SettleAsWritten` | C11-数据结构/ds/tree/btree/main.c:199-209 | The `while(1)` loop as written, on linked nodes, ends for every tree with the links of the tree the passes lead to. |
| `TreeHeapAsWritten.BalanceAsWritten` | C11-数据结构/ds/tree/btree/main.c:192-213 | `balance` as written, on linked nodes, ends with the links of the tree `BalanceAsWrittenIff` speaks of, made of nodes of the old tree, none shared. |
| `TreeHeapAsWritten.FindMaxAsWritten` | C11-数据结构/ds/tree/btree/main.c:157-163 | The function as written returns the first node, in order, of the right side. |
| `TreeHeap.GetNum` | C11-数据结构/ds/tree/btree/main.c:120-126 | Counts the nodes of the tree. |
| `Trees.InsertionInOrder` | C11-数据结构/ds/tree/btree/main.c:38-59 | Into a sorted tree the new element goes to the lower bound of its key in the in-order sequence, which is otherwise unchanged. |
| `Trees.InsertionSorted` | C11-数据结构/ds/tree/btree/main.c:38-59 | Insertion keeps the in-order sequence sorted by key. |
| `TreeHeap.Insert` | C11-数据结构/ds/tree/btree/main.c:38-59 | One fresh node with the given data is linked in; the links are those of the tree after insertion. |
| `Trees.LookupComplete` | C11-数据结构/ds/tree/btree/main.c:62-73 | In a sorted tree the search finds a node exactly when some node has the key, and what it finds is in the tree. |
| `TreeHeap.Find` | C11-数据结构/ds/tree/btree/main.c:62-73 | On linked nodes the search returns the node the lookup names, or null when there is none. |
| `Trees.DeletionInOrder` | C11-数据结构/ds/tree/btree/main.c:224-251 | Deletion takes exactly the node the search finds out of the in-order sequence, and changes nothing when it finds none. |
| `TreeHeap.Delete` | C11-数据结构/ds/tree/btree/main.c:224-251 | On linked nodes the loop that walks down by the address of a link, and the splicing after it, leave the links of the tree after deletion. |
| `TreesAsWritten.DeletionAsWrittenIff` | C11-数据结构/ds/tree/btree/main.c:224-251 | Deletion with `find_max` as written leaves the sequence that is meant, in a tree of distinct nodes, exactly when no node is found or the node found has no left side, or a left child with at most one node on its right, or no right side and nothing to the right of the leftmost node of the left child's right side. |
| `TreesAsWritten.DeletionAsWrittenLosesNode` | C11-数据结构/ds/tree/btree/main.c:242-248 | Five nodes of which deleting one loses another. |
| `TreeHeapAsWritten.HangRightAsWritten` | C11-数据结构/ds/tree/btree/main.c:244-248 | On linked nodes the splicing as written hangs the right side of the node taken out on the leftmost node right of the left child, in place of what was there, or on the left child itself when it has nothing on its right. |
| `TreeHeapAsWritten.DeleteAsWritten` | C11-数据结构/ds/tree/btree/main.c:224-251 | The whole deletion as written, on linked nodes, leaves the links of the tree `DeletionAsWrittenIff` speaks of. |
| `Trees.DrainedIsLevelOrder` | C11-数据结构/ds/tree/btree/main.c:282-311 | Taking a node from a queue and putting its children at the end visits the levels of the tree one after the other, each from left to right. |
| `Trees.LevelOrderVisitsOnce` | C11-数据结构/ds/tree/btree/main.c:282-311 | The level order holds every node of the tree exactly once. |
| `Trees.LevelLeftToRight` | C11-数据结构/ds/tree/btree/main.c:282-311 | Each level is visited from left to right: its nodes come in the order of the in-order sequence. |
| `TreeHeap.Travel` | C11-数据结构/ds/tree/btree/main.c:282-314 | The traversal over the linked-list queue terminates and visits the nodes in level order. |
| `LinkedQueue.LList.Insert` | C11-数据结构/ds/line/squeue/list/llist.c:22-52 | The circular doubly linked list stays well formed in both directions; the datum is first, last, or the list unchanged with code -3, by mode. |
| `LinkedQueue.FirstMatchUnique` | C11-数据结构/ds/line/squeue/list/llist.c:54-65 | The first match is the only place whose datum matches with none before it. |
| `LinkedQueue.LList.FindNode` | C11-数据结构/ds/line/squeue/list/llist.c:54-65 | Returns the node of the first match, or the sentinel when none matches. |
| `LinkedQueue.LList.Delete` | C11-数据结构/ds/line/squeue/list/llist.c:77-90 | Takes out exactly the first match, or returns -1 and changes nothing. |
| `LinkedQueue.LList.Fetch` | C11-数据结构/ds/line/squeue/list/llist.c:92-109 | Takes out exactly the first match and hands out its datum, or returns -1 and changes nothing. |
| `LinkedQueue.LList.QueueEn` | C11-数据结构/ds/line/squeue/list/queue.c:8-11 | Appends to the sequence held. |
| `LinkedQueue.LList.QueueDe` | C11-数据结构/ds/line/squeue/list/queue.c:13-21 | Hands out the oldest element, since every element matches; -1 on the empty queue. |
| `SaveLoad.RoundTripIff` | C11-数据结构/ds/tree/save_load/load.c:47-77 | Loading the saved text of a tree followed by any rest returns the tree and leaves exactly the rest, if and only if no node holds a closing bracket. |
| `SaveLoad.UniquelyDecodable` | C11-数据结构/ds/tree/save_load/save.c:84-103 | Two saved trees without a closing bracket in any node, each followed by anything, are equal texts only when trees and rests are equal. |
| `SaveLoad.BracketDatumLost` | C11-数据结构/ds/tree/save_load/load.c:61-63 | A node holding a closing bracket is read back as the empty tree with characters left over. |
| `SaveLoad.Save` | C11-数据结构/ds/tree/save_load/save.c:84-103 | Appends to the file exactly the text of the tree the nodes form. |
| `SaveLoad.TextIsPreorder` | C11-数据结构/ds/tree/save_load/save.c:84-103 | The saved text of a tree without bracket data is, without its brackets, the data in preorder; it has 5n+2 characters for n nodes and as many closing as opening brackets. |
| `SaveLoad.TextEnclosed` | C11-数据结构/ds/tree/save_load/save.c:84-103 | No proper beginning of it has closed all the brackets it opened. |
| `SaveLoad.Load` | C11-数据结构/ds/tree/save_load/load.c:47-77 | Reads through the shared cursor; succeeds exactly when the text parses, builds fresh nodes linked as the parsed tree, and leaves the cursor at the rest. |
| `Evaluator.EvalIsValue` | C11-数据结构/ds/line/compute/main.c:89-141 | For every expression of the grammar, written out as characters, and stacks of at least 2d+3 and 3d+2 entries at depth d, the scan and the final flush end with exactly the value of the expression, as the grammar's own arithmetic gives it, on the number stack and an empty operator stack; when a division by zero occurs on the way the program leaves its defined behaviour, and only then. |
| `Evaluator.TenDeepFits` | C11-数据结构/ds/line/compute/sqstack.c:24-32 | For every expression nested up to 10 deep no push onto stacks of 32 entries ever finds its stack full, at any point of the scan and whether or not a division by zero comes further on, and the outcome is exactly the value, or undefined when it divides by zero. |
| `Evaluator.OperatorStackBound` | C11-数据结构/ds/line/compute/main.c:28-86 | For any text of digits, operators and brackets, well formed or not: after every prefix the operators between open brackets strictly increase in priority, and with d brackets open there are at most 3d+2 entries. |
| `Evaluator.StackBounds` | C11-数据结构/ds/line/compute/main.c:106-135 | After every text whose characters can follow one another, closed or not, with n brackets open there are at most 3n+2 operators and 2n+3 numbers, counting the one being read, unless a push found its stack full; with stacks of 3d+2 and 2d+3 entries for a deepest nesting of d, none does. |
| `Evaluator.ExprScans` | C11-数据结构/ds/line/compute/main.c:106-135 | Every expression of the grammar is such a text, never deeper than its depth. |
| `Evaluator.BoundsAttained` | C11-数据结构/ds/line/compute/main.c:106-135 | For every depth some expression fills the operator stack with exactly 3d+2 and the number stack with exactly 2d+3 entries. |
| `Rejection.AcceptedMatches` | C11-数据结构/ds/line/compute/main.c:106-141 | Any text for which the program comes to its end with no push lost has matching brackets and no characters but digits, operators and brackets. |
| `Evaluator.ReadFactor` | C11-数据结构/ds/line/compute/main.c:108-132 | Scanning a factor, in any state between operands, leaves its value pending on top and the rest of the stacks as it was. |
| `Evaluator.ReadTerm` | C11-数据结构/ds/line/compute/main.c:58-86 | Scanning a term leaves the value of the term up to its last product, and the last factor pending under its operator. |
| `Evaluator.ReadExpr` | C11-数据结构/ds/line/compute/main.c:58-86 | The same for a sum, whose last term may itself be pending: the operators still on the stack are what left-to-right evaluation has not yet applied. |
| `Evaluator.ApplyPendingCollapses` | C11-数据结构/ds/line/compute/main.c:76-84 | The reducing loop applies exactly the operators on top that bind at least as strongly as the new one. |
| `Evaluator.DealBracketCollapses` | C11-数据结构/ds/line/compute/main.c:28-42 | A closing bracket applies exactly the operators down to the nearest opening one and removes it. |
| `Expressions.QuotientTruncates` | C11-数据结构/ds/line/compute/main.c:21 | The quotient is rounded towards zero: the remainder is smaller than the divisor and has the sign of the dividend (section 6.5.5 of ISO/IEC 9899:1999). |
| `Calculator.Machine.Compute` | C11-数据结构/ds/line/compute/main.c:9-26 | Pops the right operand first; the array stacks change as the evaluator on values does. |
| `Calculator.Machine.DealBracket` | C11-数据结构/ds/line/compute/main.c:28-42 | The loop over the array stacks does what a closing bracket does to the stacks as values. |
| `Calculator.Machine.DealOp` | C11-数据结构/ds/line/compute/main.c:58-86 | The same for an operator or opening bracket: push, push, or reduce first. |
| `Calculator.Machine.Evaluate` | C11-数据结构/ds/line/compute/main.c:106-141 | The whole program on its array stacks ends with the contents the evaluator gives, or fails exactly where that is undefined. |
| `Calculator.Machine.Flush` | C11-数据结构/ds/line/compute/main.c:134-141 | The final number is pushed and all operators left are applied, last first. |
| `ArrayStack.SqStack.Push` | C11-数据结构/ds/line/compute/sqstack.c:24-32 | Appends at the top, or returns -1 and changes nothing when full. |
| `ArrayStack.SqStack.Pop` | C11-数据结构/ds/line/compute/sqstack.c:35-43 | Removes and returns the top, or finds nothing. |
| `ArrayStack.SqStack.Top` | C11-数据结构/ds/line/ball_clock/sqstack.c:47-55 | Returns the top and leaves the stack as it is. |
| `RingQueue.Queue.Enqueue` | C11-数据结构/ds/line/ball_clock/queue.c:26-35 | The ring refines a sequence that holds one less than the ring has places: append, or -1 and no change when full. |
| `RingQueue.Queue.Dequeue` | C11-数据结构/ds/line/ball_clock/queue.c:37-46 | Takes the first of the sequence, or finds nothing. |
| `RingQueue.Queue.Check` | C11-数据结构/ds/line/ball_clock/main.c:19-31 | For two or more balls, true exactly when the balls in the ring ascend from first to last. |
| `RingQueue.Queue.CheckAsWritten` | C11-数据结构/ds/line/ball_clock/main.c:19-31 | The check with `/` as written compares each ball but the last with slot 0, or with slot 1 from the last slot of the ring. |
| `RingQueue.CheckAsWrittenNeverRight` | C11-数据结构/ds/line/ball_clock/main.c:25 | For every ring size, head and number n of two or more balls some order of the balls 1 to n, with balls in the other slots, is judged wrongly: the starting order is refused or one with the first two swapped is passed. |
| `BallClock.TickKeeps` | C11-数据结构/ds/line/ball_clock/main.c:65-102 | In every state with n >= 27 balls the queue is not empty when a ball is taken, the stacks hold at most 4, 11 and 11, and minutes + 5 fives + 60 hours counts the minutes modulo 720. |
| `BallClock.TickKeepsBalls` | C11-数据结构/ds/line/ball_clock/main.c:65-102 | A minute neither loses nor duplicates a ball. |
| `BallClock.AfterKeeps` | C11-数据结构/ds/line/ball_clock/main.c:63-103 | After any number of minutes the reading is that number modulo 720 and there still is a ball to take. |
| `BallClock.AfterKeepsBalls` | C11-数据结构/ds/line/ball_clock/main.c:63-103 | Conservation of the multiset of balls over any number of minutes. |
| `BallClock.TickRelabel` | C11-数据结构/ds/line/ball_clock/main.c:65-102 | A minute depends only on places, never on labels: it commutes with any relabelling of the balls. |
| `BallClock.HalfDayEndsAllIn` | C11-数据结构/ds/line/ball_clock/main.c:90-98 | After 720 minutes from a full queue all balls are in the queue again, rearranged. |
| `BallClock.HalfDayRearranges` | C11-数据结构/ds/line/ball_clock/main.c:63-98 | Twelve hours move the ball from a place fixed by the number of balls alone to each place. |
| `BallClock.HalfDayInjective` | C11-数据结构/ds/line/ball_clock/main.c:63-98 | Different orders stay different over twelve hours. |
| `BallClock.OrderReturns` | C11-数据结构/ds/line/ball_clock/main.c:63-103 | From any order of n >= 27 balls, that order comes back after some positive number of half days. |
| `BallClock.AscendingIsStart` | C11-数据结构/ds/line/ball_clock/main.c:98-99 | Of all orders of the numbered balls only the starting order ascends. |
| `ClockMachine.Machine.Minute` | C11-数据结构/ds/line/ball_clock/main.c:65-102 | One turn of the loop on ring and array stacks is one minute on values; no enqueue, push or dequeue fails; it reports the end exactly when all balls are back in ascending order. |
| `ClockMachine.Machine.Run` | C11-数据结构/ds/line/ball_clock/main.c:58-105 | The `while(1)` loop terminates with time = 720k for the least k >= 1 that brings the starting order back. |
| `ClockMachine.Machine.Spill` | C11-数据结构/ds/line/ball_clock/main.c:74-78 | Emptying a stack into the queue appends its balls last in first out. |
| `ClockMachine.Machine.MinuteAsWritten` | C11-数据结构/ds/line/ball_clock/main.c:65-102 | One turn of the loop with the check as written is the same minute, and ends the loop exactly when all balls are back and the check as written passes on the slots of the ring. |
| `ClockPlaces.HalfDayPlaces` | C11-数据结构/ds/line/ball_clock/main.c:63-98 | For every number of balls from 27 on, the ball in each place after 720 minutes came from the place that `Whence` computes from the number of balls, without running the clock. |
| `ClockConstants.EndsAtEleven` | C11-数据结构/ds/line/ball_clock/main.c:17-31 | With 27 balls in a ring of 32 the check as written refuses the ring at the end of each of the first ten half days and passes it at the eleventh; at none of them are the balls in the starting order. |
| `ClockConstants.RunAsWritten` | C11-数据结构/ds/line/ball_clock/main.c:33-105 | The program with its check as written and `time` from 0 ends with time = 7920, after eleven half days, with the balls in another order than the starting one. |
| `Primes.TrialDivision` | linux_c/parallel/thread/posix/primer0_pool.c:105-111 | The mark stays set exactly when no j with 2 <= j < i/2 divides i. |
| `Primes.MarkedExact` | linux_c/parallel/thread/posix/primer0_pool.c:105-113 | That bound tests primality exactly for every i >= 1 except 1 and 4. |
| `PrimePool.NextInv` | linux_c/parallel/thread/posix/primer0_pool.c:34-116 | Every step of every interleaving, with spurious wake-ups, keeps mutual exclusion, the order of tasks, the accounting of each task, and that no wake-up is lost. |
| `PrimePool.RunInv` | linux_c/parallel/thread/posix/primer0_pool.c:34-116 | The same over every run. |
| `PrimePool.TakenInOrder` | linux_c/parallel/thread/posix/primer0_pool.c:34-46 | In every reachable state the tasks taken, followed by the pending one, are exactly LEFT, LEFT+1, ... in order. |
| `PrimePool.NoLostWakeUp` | linux_c/parallel/thread/posix/primer0_pool.c:44-62 | Whenever a task is pending some worker is awake to take it. |
| `PrimePool.OnlyWaitersSleep` | linux_c/parallel/thread/posix/primer0_pool.c:50-62 | Taking a task and the last message leave nobody asleep; a thread is put to sleep only by its own step, a worker only with nothing to take and the producer only with a task not yet taken. |
| `PrimePool.EachTestedOnce` | linux_c/parallel/thread/posix/primer0_pool.c:81-115 | When all workers have exited each number of the range has been through trial division exactly once and no other number has. |
| `PrimePool.PrintsThePrimes` | linux_c/parallel/thread/posix/primer0_pool.c:105-113 | When all workers have exited the numbers printed are exactly the primes of the range, each once, if and only if neither 1 nor 4 is in the range. |
| `PrimePool.CanFinish` | linux_c/parallel/thread/posix/primer0_pool.c:66-72 | From every reachable state of one or more workers some continuation ends the program with all workers exited: no state is a dead end. |
| `TokenBucket.Bucket.Refill` | linux_c/parallel/thread/posix/mytbf_mt/mytbf.c:42-44 | Adds cps tokens, up to the burst. |
| `TokenBucket.Bucket.Fetch` | linux_c/parallel/thread/posix/mytbf_mt/mytbf.c:159-185 | Takes what is asked for or what is there, whichever is less; a negative size is refused and changes nothing. |
| `TokenBucket.Bucket.Return` | linux_c/parallel/thread/posix/mytbf_mt/mytbf.c:186-202 | Gives tokens back, up to the burst; a size that is not positive is refused and changes nothing. |
| `TokenBucket.WindowBound` | linux_c/parallel/thread/posix/mytbf_mt/mytbf.c:28-52 | Over any window of any run tokens stay in [0, burst], and fetched minus returned plus what is left at the end is at most the tokens at the start plus cps per refill. |
| `TokenBucket.OpExact` | linux_c/parallel/thread/posix/mytbf_mt/mytbf.c:42-44 | Tokens are lost only from a bucket that is full afterwards, and a fetch takes all it asks for or all there is. |
| `TokenBucket.WindowExact` | linux_c/parallel/thread/posix/mytbf_mt/mytbf.c:28-52 | Over any window of any run the account balances exactly: tokens at the start, cps per refill and those returned are those fetched, those left, and those that ran over. |
| `TokenBucket.CopyIsTokenRun` | linux_c/parallel/thread/posix/mytbf_mt/main.c:59-95 | What any run of the copying loop does to the bucket is a run of refills, fetches of a whole buffer and returns that are never refused, and ends with the same tokens. |
| `TokenBucket.RunCopyPaid` | linux_c/parallel/thread/posix/mytbf_mt/main.c:59-95 | In any run of the copying loop, tokens in the bucket, tokens held and bytes written together never exceed cps per refill, plus one for each read that fails hard. |
| `TokenBucket.WrittenBound` | linux_c/parallel/thread/posix/mytbf_mt/main.c:59-95 | Bytes written never exceed cps times the number of refills, plus one for each read that failed hard. |
| `TokenBucket.CopyExact` | linux_c/parallel/thread/posix/mytbf_mt/main.c:59-95 | While the copying loop goes on, all tokens that came in, and one for each read that failed hard, are in the bucket, held, written as bytes, or ran over: interruptions and short reads lose none. |
| `TokenBucket.CopyEndsIff` | linux_c/parallel/thread/posix/mytbf_mt/main.c:59-95 | The loop is over exactly when the end of the input was read or a write failed hard, and nothing but refills follows. |
| `TokenBucket.FailedReadMintsToken` | linux_c/parallel/thread/posix/mytbf_mt/main.c:66-78 | From any state in which the loop holds tokens and the burst leaves room, a read that fails with anything but EINTR gives back one token more than was taken. |
| `TokenBucket.AlwaysPaidIff` | linux_c/parallel/thread/posix/mytbf_mt/main.c:59-95 | Every run of the copying loop writes at most cps bytes a refill if and only if cps is 0, the burst at most 1, or the buffer empty. |
| `TokenBucket.BreakingRun` | linux_c/parallel/thread/posix/mytbf_mt/main.c:59-95 | For every other cps, burst and buffer size, and every k, a run that starts with the program, has one refill and writes k bytes. |
| `TokenBucket.WritingEmits` | linux_c/parallel/thread/posix/mytbf_mt/main.c:80-92 | The writing loop, with refills and interrupted writes in between, ends and puts out the front of the chunk again with each write. |
| `TokenBucket.ShortWritesRepeat` | linux_c/parallel/thread/posix/mytbf_mt/main.c:80-92 | Whatever happens between its writes, a chunk of any contents comes out of the writing loop right exactly when one of the writes takes all of it and the others, if any, nothing. |
| `TokenBucket.RunCopiesIff` | linux_c/parallel/thread/posix/mytbf_mt/main.c:59-95 | For any run of the copying loop: whatever bytes are read, those written are the front of those read, and at the start of a turn of the loop all of them, exactly when no write takes something of a chunk of which something was taken before. |
| `BucketLocks.NextInv` | linux_c/parallel/thread/posix/mytbf_mt/mytbf.c:28-217 | Every lock, wait, unlock and stretch of work between them, by the alarm thread or any client, keeps the invariant of table, mutexes, users and sleepers. |
| `BucketLocks.RunInv` | linux_c/parallel/thread/posix/mytbf_mt/mytbf.c:28-217 | The same over every run of any number of clients on a table of any size. |
| `BucketLocks.NoDeadlock` | linux_c/parallel/thread/posix/mytbf_mt/mytbf.c:36-49 | In no reachable state do threads wait for each other in a cycle. |
| `BucketLocks.SomebodyCanGoOn` | linux_c/parallel/thread/posix/mytbf_mt/mytbf.c:168-199 | Behind any thread that waits for a mutex there is, within two steps along the holders, a thread that can go on. |
| `BucketLocks.SleepersHaveNoTokens` | linux_c/parallel/thread/posix/mytbf_mt/mytbf.c:169-176 | In every reachable state a thread asleep on a bucket, with nobody inside its critical section, finds it without tokens. |
| `BucketLocks.OnlyLiveBuckets` | linux_c/parallel/thread/posix/mytbf_mt/mytbf.c:205-217 | The refill sweep and the clients inside fetch or return only touch buckets that have not been destroyed. |
| `BucketTokens.RunIsTokenRun` | linux_c/parallel/thread/posix/mytbf_mt/mytbf.c:28-217 | Seen from one bucket, every interleaving of alarm thread and clients is a run of single refills, fetches and returns that ends with the same tokens. |
| `BucketTokens.BucketWindow` | linux_c/parallel/thread/posix/mytbf_mt/mytbf.c:28-217 | So for any number of threads, any interleaving and any window of it, the tokens of a bucket with limits that are not negative stay in [0, burst], and fetched minus returned plus what is left is at most what was there plus cps per refill. |
| `BucketCalls.SweepRefillsEachOnce` | linux_c/parallel/thread/posix/mytbf_mt/mytbf.c:36-49 | From the start of a sweep to its end, in any interleaving and with any holes in the table, every bucket in the table is refilled exactly once and no other bucket at all. |
| `BucketCalls.EveryBucketRefilled` | linux_c/parallel/thread/posix/mytbf_mt/mytbf.c:36-49 | In every reachable state a sweep so refills every bucket that exists and whose destruction has not taken it out of the table, and none that has been destroyed. |
| `BucketCalls.NextListed` | linux_c/parallel/thread/posix/mytbf_mt/mytbf.c:124-145 | Every step keeps every existing bucket in the table at its own place until its own destruction takes it out. |
| `BucketCalls.CallDoesOnce` | linux_c/parallel/thread/posix/mytbf_mt/mytbf.c:159-202 | From call to return, in any interleaving, a fetch takes once and a return gives back once, each the size it was called with and from its own bucket, and the calling thread does nothing else to any bucket's tokens. |
| `BucketCalls.InitMakesOne` | linux_c/parallel/thread/posix/mytbf_mt/mytbf.c:98-149 | A call that makes a bucket ends by putting one with no tokens and the limits asked for into the first free entry, or, when the table is full, by changing nothing. |
| `BucketCalls.DestroyTakesOut` | linux_c/parallel/thread/posix/mytbf_mt/mytbf.c:205-217 | A call that destroys a bucket ends with it destroyed and in no entry of the table. |
| `Relay.DriveInv` | linux_c/io/adv/nonblock/relayer/relayer.c:54-112 | Each turn of the machine keeps: bytes read are bytes written followed by the unwritten part of the buffer, which lies inside it. |
| `Relay.DeliversPrefix` | linux_c/io/adv/nonblock/relayer/relayer.c:54-112 | For any pattern of short reads, partial writes, EAGAIN and errors the bytes delivered are a prefix of the bytes read, nothing delivered is taken back, and a machine ended by end of file has delivered everything. |
| `RelayRuns.EndsIff` | linux_c/io/adv/nonblock/relayer/relayer.c:54-112 | In any run from a machine at work: it is in STATE_Ex exactly in the turn after a hard failure, in STATE_T without end of file exactly from the turn after that, in STATE_T with everything delivered exactly when it met end of file, and else still at work; no short read, partial write or EAGAIN ends it. |
| `RelayRuns.NothingLost` | linux_c/io/adv/nonblock/relayer/relayer.c:54-112 | In any run the bytes that reads handed over are all logged in order, and exactly as many of them as writes took have been delivered. |
| `RelayRuns.PartialWrites` | linux_c/io/adv/nonblock/relayer/relayer.c:76-95 | However a chunk is cut up, writes that add up to it bring the machine from STATE_W to STATE_R with everything delivered, and with fewer bytes it still waits to write the rest. |
| `Relay.Direction.FsmDriver` | linux_c/io/adv/nonblock/relayer/relayer.c:54-112 | The machine with its buffer array and fields updated in place does exactly the turn on values. |
| `Relay.DriveJobInv` | linux_c/io/adv/nonblock/relayer/relayer.c:124-129 | A job becomes OVER only with both machines terminal, and then stays as it is. |
| `RelayRuns.JobDrivesBoth` | linux_c/io/adv/nonblock/relayer/relayer.c:119-135 | Over any number of sweeps each of a job's two machines takes every turn with its own results, and the job is OVER exactly when both are terminal. |
| `Relay.Relayer.Sweep` | linux_c/io/adv/nonblock/relayer/relayer.c:121-132 | One pass over the table drives both machines of each running job once and nothing else. |
| `Relay.Relayer.AddJob` | linux_c/io/adv/nonblock/relayer/relayer.c:166-223 | The job goes to the first free place; with none, ENOSPC and no change. |
| `Relay.DrivenExactly` | linux_c/io/adv/select/relay.c:127-151 | When select answers, a live machine is driven exactly when what it waits for itself was reported, or it is in the error state: the crosswise tests never drive the wrong machine. |
| `Relay.UncrossedIff` | linux_c/io/adv/select/relay.c:147-151 | For every answer of select the crosswise tests drive the right machines, if and only if the two descriptors differ. |
| `Relay.SomebodyDriven` | linux_c/io/adv/select/relay.c:139-151 | Every such iteration drives at least one live machine. |
| `Relay.SelectRefinesPolling` | linux_c/io/adv/select/relay.c:122-152 | Every run of the select loop is, up to the meaningless parts of the buffers, a run of the polling loop. |
| `Relay.SelectDelivers` | linux_c/io/adv/select/relay.c:122-152 | The delivery invariant of both machines holds over every run of the select loop. |
| `RelayRuns.SelectDrivesBoth` | linux_c/io/adv/select/relay.c:122-152 | A run of the select loop is for each machine a run of the turns in which it is driven, so the three rows on whole runs hold of it. |
| `Relay.Watched` | linux_c/io/adv/select/relay.c:124-135 | The descriptor sets built at each turn hold exactly what the two machines wait for. |
| `Relay.RelayTurn` | linux_c/io/adv/select/relay.c:122-152 | One iteration on the machines in memory, with the sets built anew, cut down by select if it is called, and tested crosswise, is the iteration on values. |
| `Relay.RelayLoop` | linux_c/io/adv/select/relay.c:122-152 | The loop ends exactly when both machines are terminal, in the state the iterations give. |
| `Anytimer.Timer.AlrmAction` | linux_c/parallel/signal/anytimer/anytimer.c:41-63 | A tick from the kernel counts down every running job and fires those that reach zero, in table order; any other signal does nothing. |
| `Anytimer.Timer.AddJob` | linux_c/parallel/signal/anytimer/anytimer.c:109-171 | Refuses negative seconds and a full table; otherwise the job runs in the first free place. |
| `Anytimer.Timer.CancelJob` | linux_c/parallel/signal/anytimer/anytimer.c:173-184 | Each of the four answers, with the state changed only by the last. |
| `Anytimer.Timer.WaitJob` | linux_c/parallel/signal/anytimer/anytimer.c:186-205 | Refuses free places and repeating jobs at once; otherwise pauses for exactly the ticks the job has left and frees the place. |
| `Anytimer.WaitsForever` | linux_c/parallel/signal/anytimer/anytimer.c:186-205 | A wait never ends, however many ticks come, exactly when it is for a running job that does not repeat and has no second left. |
| `Anytimer.FiringOnce` | linux_c/parallel/signal/anytimer/anytimer.c:47-62 | In one tick a job fires at most once, and exactly when it was about to reach zero. |
| `Anytimer.StandingRun` | linux_c/parallel/signal/anytimer/anytimer.c:41-63 | In any run of calls and ticks a job keeps the exact relation between ticks seen, firings and time left. |
| `Anytimer.JobLife` | linux_c/parallel/signal/anytimer/anytimer.c:109-171 | From its addition on: with a ticks seen while running, a repeating job has fired a/sec times and has sec - (a mod sec) left; a one-shot job fires exactly once, at tick sec, and is then over; a job of 0 seconds never fires. |
| `Anytimer.EndedStays` | linux_c/parallel/signal/anytimer/anytimer.c:173-184 | Canceled and over jobs change no more until their place is freed. |
| `Anytimer.CancelSilences` | linux_c/parallel/signal/anytimer/anytimer.c:173-184 | A cancel answers 0 exactly for a running job; in every run that follows the job then sees no tick, never fires, and keeps the time it had left. |
| `Anytimer.TicksSeen` | linux_c/parallel/signal/anytimer/anytimer.c:41-63 | Whatever other calls there are, a running job sees exactly the ticks before its cancellation, and one that does not repeat no more than it has seconds. |
| `Anytimer.FiresExactly` | linux_c/parallel/signal/anytimer/anytimer.c:109-184 | So with n ticks between its addition and its cancellation, if any, a repeating job fires n/sec times, another once if n >= sec and else not at all, and one of 0 seconds never. |
| `Anytimer.CallsLeaveOthers` | linux_c/parallel/signal/anytimer/anytimer.c:109-205 | A call changes no place but the one it is about, a refused call none; a place becomes free only by a wait for its ended job that does not repeat. |
| `Anytimer.AnswersIff` | linux_c/parallel/signal/anytimer/anytimer.c:109-205 | What each answer of the three calls says of the table, both ways. |
| `Anytimer.RepeatsBounded` | linux_c/parallel/signal/anytimer/anytimer.c:192-193 | Since repeating jobs are never freed, at most JOB_MAX additions of them succeed in a run. |
| `ServerPool.FreeSlotExists` | linux_c/ipc/socket/stream/pool_dynamic/server.c:97-101 | While the counters are below the maximum there is a free slot, so the search never runs off the table. |
| `ServerPool.AddOne` | linux_c/ipc/socket/stream/pool_dynamic/server.c:92-123 | Adding a child keeps the counters equal to the occupied slots and raises idle by one unless the pool is full. |
| `PoolTable.AddOneTable` | linux_c/ipc/socket/stream/pool_dynamic/server.c:92-123 | Below the limit the new child's id takes the place of one -1 and every used place keeps its id; at the limit nothing changes. |
| `ServerPool.DelOne` | linux_c/ipc/socket/stream/pool_dynamic/server.c:125-138 | Deleting keeps them equal too, whatever the children look like, and lowers idle by one exactly when an idle child is seen. |
| `PoolTable.DelOneTable` | linux_c/ipc/socket/stream/pool_dynamic/server.c:125-138 | With the counter above 0 and some child seen idle exactly the first such place becomes -1 and every other keeps its id; otherwise nothing changes. |
| `ServerPool.Scanned` | linux_c/ipc/socket/stream/pool_dynamic/server.c:141-168 | A scan makes the counters equal to the occupied slots from any state, keeping exactly the live children, with children dying and flipping during it; it aborts exactly when a live child looks busy at the first test and idle at the second. |
| `PoolTable.ScanExact` | linux_c/ipc/socket/stream/pool_dynamic/server.c:141-168 | The scan frees exactly the places of dead children, and counts each living child as idle or busy by its first look, unless one looks busy at first and idle when asked again, when and only when it aborts. |
| `ServerPool.AddLoopFills` | linux_c/ipc/socket/stream/pool_dynamic/server.c:252-254 | Since its bound reads the counter again, the adding loop adds half of what is missing, rounded up, or fills the pool. |
| `PoolTable.AddLoopTable` | linux_c/ipc/socket/stream/pool_dynamic/server.c:252-254 | The ids that the adding loop puts into the table are those of the children forked in its first turns, one for each free place taken. |
| `PoolTable.PassOnlyOutside` | linux_c/ipc/socket/stream/pool_dynamic/server.c:249-254 | With MIN <= MAX a pass changes nothing while idle is between them, adds half of what is missing to MAX when it is below MIN, and only deletes when it is above MAX. |
| `ServerPool.OnePassFills` | linux_c/ipc/socket/stream/pool_dynamic/server.c:249-254 | With MAX >= 2 MIN - 1 one pass brings idle to MIN or fills the pool. |
| `ServerPool.OnePassEnoughIff` | linux_c/ipc/socket/stream/pool_dynamic/server.c:249-254 | One pass brings idle to MIN or fills the pool, for every pool of a given size and whatever the children do, if and only if MAX >= 2 MIN - 1 or the size is at most half of MAX, rounded up. |
| `ServerPool.DelLoopKeeps` | linux_c/ipc/socket/stream/pool_dynamic/server.c:249-251 | Whatever the children do, the deleting loop deletes at most half of the excess, rounded up, and never goes below MAXSPARESERVER. |
| `PoolTable.DelLoopTable` | linux_c/ipc/socket/stream/pool_dynamic/server.c:249-251 | Every place that the deleting loop changes becomes -1 and was seen idle at one of its turns; it frees as many as it counts down. |
| `ServerPool.RoundHalves` | linux_c/ipc/socket/stream/pool_dynamic/server.c:245-251 | With children at rest a scan and a pass leave exactly half of the excess, rounded down. |
| `ServerPool.LogarithmicPasses` | linux_c/ipc/socket/stream/pool_dynamic/server.c:241-251 | With children at rest k passes remove the excess if and only if it is below 2^k. |
| `ServerPool.RunCounts` | linux_c/ipc/socket/stream/pool_dynamic/server.c:235-269 | From the start-up loop on, with different children at every turn, the counters equal the occupied slots, which are at most MAXCLIENTS, and under the condition above every turn ends with MIN idle children or a full pool. |
| `PoolTable.OnlyOwnChildren` | linux_c/ipc/socket/stream/pool_dynamic/server.c:235-269 | Over every run from the start-up loop on, every id in the table is that of a child the program has forked. |
| `ServerPool.Server.AddOneServer` | linux_c/ipc/socket/stream/pool_dynamic/server.c:92-123 | The method on the table does what adding does to the pool, and returns -1 exactly when it is full. |
| `ServerPool.Server.DelOneServer` | linux_c/ipc/socket/stream/pool_dynamic/server.c:125-138 | The same for deleting, with -1 exactly when the idle counter is zero. |
| `ServerPool.Server.ScanPool` | linux_c/ipc/socket/stream/pool_dynamic/server.c:141-168 | The scanning loop leaves table and counters as the scan describes, or fails where it aborts. |
| `ServerPool.Server.ControlPool` | linux_c/ipc/socket/stream/pool_dynamic/server.c:249-254 | Both loops, with the counter read again at each turn, do what the control pass describes. |
| `Josephus.JoseCreate` | C11-数据结构/ds/line/list/linklist/simple/josephu/jose.c:35-62 | A circle of exactly the numbers 1 to n in order (a single node for n < 1). |
| `Josephus.KillOne` | C11-数据结构/ds/line/list/linklist/simple/josephu/jose.c:84-96 | Counting n from a node takes out the node n-1 places on, counted round the circle; the links are one cycle over exactly the others, starting behind it. |
| `Josephus.JoseKill` | C11-数据结构/ds/line/list/linklist/simple/josephu/jose.c:77-102 | Terminates with a one-node circle; the nodes printed are those killed in order and the node left is the survivor. |
| `Josephus.SurvivorPlace` | C11-数据结构/ds/line/list/linklist/simple/josephu/jose.c:77-102 | The survivor of m nodes stands at place J(m), where J(1) = 0 and J(m) = (J(m-1) + n) mod m. |
| `Josephus.KilledAndSurvivor` | C11-数据结构/ds/line/list/linklist/simple/josephu/jose.c:82-99 | The nodes killed and the survivor are together exactly the nodes of the circle. |
| `Josephus.Play` | C11-数据结构/ds/line/list/linklist/simple/josephu/jose.c:104-116 | For any number of people and step >= 2 the program ends with J + 1 alone in the circle, and the kill order with it is a permutation of 1 to N. |
| `Polynomial.PolyCreate` | C11-数据结构/ds/line/list/linklist/simple/polynomial/poly.c:11-37 | A list with a head, without a cycle, that holds exactly the terms given, in order. |
| `Polynomial.PolyUnion` | C11-数据结构/ds/line/list/linklist/simple/polynomial/poly.c:50-90 | The pointer merge terminates; from the first head comes an acyclic list, made only of nodes of the two lists, that holds the merge of their terms. |
| `Polynomial.MergeTurn` | C11-数据结构/ds/line/list/linklist/simple/polynomial/poly.c:58-84 | Each turn of the loop keeps done, left and left lists disjoint and well linked, and the merge still to be reached the same. |
| `Polynomial.MergeAdds` | C11-数据结构/ds/line/list/linklist/simple/polynomial/poly.c:58-89 | At every point the value of the merge is the sum of the values, for any terms. |
| `Polynomial.MergeProper` | C11-数据结构/ds/line/list/linklist/simple/polynomial/poly.c:58-89 | The merge of two lists with strictly increasing exponents and no zero coefficients has both properties. |
| `Polynomial.MergeIsTheSum` | C11-数据结构/ds/line/list/linklist/simple/polynomial/poly.c:50-90 | Of two such lists the merge is the one such list whose coefficients are the sums of theirs. |

## Left out

- Real input and output, signals, timers, process creation and descriptors' flags: only the results the code depends on are modelled.
- Failing `malloc`, `free` (except the destroyed flag of a bucket), thread cancellation, `atexit` unloading and the one-time loading of modules.
- The overflow of C's `int`: numbers are unbounded.
- The head node of a polynomial is allocated with the size of a pointer; the model gives it all its fields.
- Drawing and printing, except where what is printed is the result (kill order, level order, primes).
- Trees.RotationTerminates: of the loop with `find_max` as its name says; `RotationAsWrittenEnds` is the loop as written.
- Trees.TurnShrinks: with `find_max` as its name says; the loop as written ends for another reason (`RotationAsWrittenEnds`).
- Trees.RejectedRootNeverReturns: with `find_max` as its name says.
- Trees.RebalancedCorrect: with `find_max` as its name says; `BalanceAsWrittenIff` says when `balance` as written does the same.
- Trees.DeletionInOrder: with `find_max` as its name says; `DeletionAsWrittenIff` says when the code as written does the same.
- TreeHeap.FindMax: walks right all the way, as its name says; `FindMaxAsWritten` is the function as written.
- TreeHeap.TurnRightAt: with `find_max` as its name says; `TurnRightAsWrittenAt` is the turn as written.
- TreeHeap.Settle: with `find_max` as its name says; `SettleAsWritten` is the loop as written.
- TreeHeap.Balance: with `find_max` as its name says; `BalanceAsWritten` is the function as written.
- TreeHeap.Delete: with `find_max` as its name says; `DeleteAsWritten` is the deletion as written.
- RingQueue.Queue.Check: compares neighbours; `CheckAsWritten` is the check as written.
- ClockMachine.Machine.Minute: ends on the check that compares neighbours; `MinuteAsWritten` ends on the check as written.
- ClockMachine.Machine.Run: starts `time` at 0 and ends on the check that compares neighbours; `RunAsWritten` is the run with the check as written on the program's own constants; for other numbers of balls that run is not followed to its end.
- TokenBucket.Bucket.Fetch: starts where the wait for tokens has ended; `BucketLocks` has the wait.
- SaveLoad.UniquelyDecodable: for trees without a closing bracket in a node, which the loader cannot read back.
- TokenBucket.RunCopyPaid: the copying loop is a step system rather than a method with loops, since refills by the alarm thread fall between any two of its calls.
- PrimePool.CanFinish: says that the program can always finish, not that a fair scheduler makes it finish.
- BucketLocks.RunInv: buckets are destroyed only while no client uses them, which the module expects of its callers; a thread asleep is not proved to wake at some time, only never to sleep past tokens.
- Anytimer.Timer.WaitJob: asks that the wait ends, since a method has to; between its pauses only ticks come, since the program has one thread; callbacks that call the module again are not modelled.
- Relay.Relayer.Sweep: the table holds the jobs themselves rather than pointers to them; descriptors are not shared between jobs.
- Relay.DrivenExactly: for two different descriptors, since with one for both sides it is false; `UncrossedIff` has the exact condition.
- Relay.SelectRefinesPolling: relates every run of the select loop to a run of the polling loop, not the other way round, since polling may drive a machine that would have to wait.
- ServerPool.LogarithmicPasses: needs children at rest; with children changing state `DelLoopKeeps`, `RunCounts` and the rows of `PoolTable` hold.
- The poll and epoll relays, the signal-based buckets and the thread-per-number prime programs, which are near copies of what is modelled.
- `mypipe`, whose byte-writing function is missing, and the message-queue programs `myftp_msg` and `myftp_udp`.
- `sqlist`, the lists without a head, the `lib1` to `lib4` variants, `trie`, `mysem` and the smaller demonstrations: short linear code in which nothing spans operations.

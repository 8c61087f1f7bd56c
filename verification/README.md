# Bitzer: a model of its supervision core, with proofs

Bitzer starts the processes named in a configuration file, sleeps, and restarts each process
when it exits. Three parts of it are modelled here and proved correct for all inputs and all
runs.

**The red-black tree** (`src/rbtree.c`, `src/rbtree.h`). The tree is intrusive, has parent links
and one shared sentinel. The model keeps its form: a `Node` class with `left`, `right`, `parent`,
`key` and the colour, a `RbTree` class with `root` and `sentinel`, and methods with the source's
branches and writes. Three things hold it together:

* `RbShape` describes a tree as a value: a `Shape`, and a path of `Frame`s from the root to a hole.
* `RbImage` says which fields a tree of a given shape must have, and what a rotation, a repaint or
  an unlinking changes in that picture. `RbTree.Linked(R, w)` ties the heap to the shape `w`. It
  leaves the root's `parent` open, and every field of the sentinel but its colour: the code never
  relies on them, and the proofs do not either. In particular a node may be inserted again while
  the root's `parent` still points at it.
* `RbInsert` and `RbDelete` run the two rebalancing loops on values, where the red-black
  invariant, the order of the contents and the number of rotations are proved. The methods in
  `RbTree` are proved to do to the heap what these functions do to the shape.

**The supervisor** (`src/context.c`, `src/task.c`, `src/sighandler.c`). `Machine` is a state
machine over the steps of the supervisor and the exits of its children, which may come between any
two supervisor steps; its theorems hold in every reachable state. `Supervisor` has the code itself:
task records, the tree over their embedded nodes, the loops. Every method there carries a ghost
machine state along and shows that what it does to the fields and the tree is a run of the machine,
so the theorems hold of the fields too (`Supervisor.Context.WhenSettled`).

**What feeds them.** `List` is the circular doubly linked list of `src/list.h`. `Grammar` is the
semantic actions of `src/conf_gram.y` that build a task's vectors, and `task_close`, which walks
them. A `Grammar.Task` is a task as the configuration builds it, a `Supervisor.TaskRec` the same
task's fields that change while the supervisor runs; a record's `runnable` says that name and path
are set.

## What the code does not keep

* The project's own README (line 7) says that a process that exits is restarted automatically. It
  is, over a whole run, if and only if no `fork` of its task fails there: after a failed one the
  task is out of the tree for good and nothing tries it again. `Machine.RestartedIff` and
  `Machine.RestartLedger` state the condition and the count of starts, `Machine.RestartCanBeLost`
  that every live child's task can be lost this way from every sleeping state, and
  `Machine.OneTaskRuns` gives such a state.
* `task_close` is to release a task's strings. It never frees one twice, and it frees all of them
  if and only if no setting is made twice and arguments come with a path
  (`Grammar.FreedOnce`). Without a path the vector starts with NULL and the walk stops at once
  (`Grammar.ArgumentLeaks`); of a repeated setting only the last string is kept
  (`Grammar.RepeatedNameLeaks`). `Grammar.FreedOrLost` says exactly what is lost.

## Assumptions

What the process does not decide is an input: the moves of the children between its system calls,
the answers of `fork`, the sleeps at which SIGCHLD comes through, and the callback's answers. A
fork answer that is not a positive pid free of children, live or dead, is a failed fork. The process starts without
children. The mask in force before SIGCHLD is blocked does not block it. `waitpid` returns -1 only
when there are no children. `realloc` and `malloc` succeed.

## Model

| member | source | states |
|---|---|---|
| RbTree.RbTree.constructor | src/rbtree.c:3-9 | an initialised tree is a valid red-black tree without elements, whatever the sentinel's fields were |
| RbShape.Node.Reset | src/rbtree.h:34-40 | links and key are cleared, the colour byte survives |
| RbTree.RbTree.LeftRotate | src/rbtree.c:63-88 | which link of which node changes and to what, for every node of the tree; the root moves only if the rotated node was the root; no field of the sentinel is written; the tree's count of rotations, which nothing else advances, goes up by one |
| RbTree.RbTree.RightRotate | src/rbtree.c:90-115 | the mirror image |
| RbTree.RbTree.LeftRotateAt | src/rbtree.c:63-88 | anywhere in a tree, the heap afterwards has every link, parent link, key and colour of the rotated shape, inside and outside the rotated subtree |
| RbTree.RbTree.RightRotateAt | src/rbtree.c:90-115 | the mirror image |
| RbShape.RotationsCancel | src/rbtree.c:63-115 | left and right rotation undo each other, in both orders |
| RbShape.RotationOrder | src/rbtree.c:63-115 | a rotation leaves the in-order sequence as it is, so equal keys may move to either side |
| RbTree.RbTree.FindLeaf | src/rbtree.c:137-145 | the descent ends at an empty place with every key before it at most the new key and every key after it greater |
| RbInsert.Grandparent | src/rbtree.c:155-157 | a red node under a red parent has a black grandparent, so the loop never reads past the root |
| RbTree.RbTree.InsertStep | src/rbtree.c:157-193 | one round of the loop, all cases and both sides, does to the heap what the value function does to the shape, and carries out exactly that many rotations |
| RbTree.RbTree.InsertFixup | src/rbtree.c:155-196 | the whole loop and the final blackening compute the rebalanced shape on the heap, with exactly as many rotations as on values; it terminates |
| RbInsert.InsertFixCorrect | src/rbtree.c:155-196 | from "the only possible fault is a red node under a red parent" the loop restores the whole red-black invariant, moves no element and makes at most two rotations |
| RbInsert.InsertLeaf | src/rbtree.c:135-196 | a leaf put where the descent ends and rebalanced gives a red-black tree, sorted, with the new element in its stable place |
| RbInsert.PlaceStable | src/rbtree.c:140 | the place of the new element in a sorted sequence: no key before it is greater, every key after it is |
| RbInsert.PlaceSorted | src/rbtree.c:140 | inserting at that place keeps a sequence sorted, non-strictly |
| RbTree.RbTree.Insert | src/rbtree.c:117-197 | for every valid tree and every node outside it: the tree is valid again, its in-order sequence is the old one with the node in its stable place, and at most two rotations are carried out; no key is written, nor any sentinel field |
| RbTree.RbTree.FindSubst | src/rbtree.c:207-218 | the node to unlink and its only child: the node itself if it lacks a child, else its in-order successor |
| RbTree.RbTree.NodeMin | src/rbtree.c:11-21 | the walk along left links ends at the leftmost node |
| RbTree.RbTree.DeleteRoot | src/rbtree.c:220-227 | the early return: the only child becomes a black root and everything is linked, although its parent field still points at the detached node |
| RbTree.RbTree.Unlink | src/rbtree.c:231-245 | which links the unlinking writes, the sentinel's parent among them when the child is the sentinel |
| RbTree.RbTree.Transplant | src/rbtree.c:247-268 | the successor takes over links and colour of the deleted node, and its neighbours point to it |
| RbTree.RbTree.Splice | src/rbtree.c:231-271 | the tree without the node, with the hole where the unlinked node was and that node's child in it; the child's parent field is right even if it is the sentinel |
| RbDelete.SpliceOrder | src/rbtree.c:207-271 | taking the node out, by either way, leaves the in-order sequence without exactly that node |
| RbDelete.SpliceColours | src/rbtree.c:229-275 | if the unlinked node was red all is well; if it was black the subtree in the hole is one black node short and everything else is in order |
| RbDelete.DeleteStepKeeps | src/rbtree.c:279-337 | the loop's invariant: the sibling is a node before and after the first rotation, one round leaves at most the next subtree one black node short, no element moves, and a round that rotates is either the last or makes the next subtree red |
| RbTree.RbTree.DeleteStep | src/rbtree.c:281-336 | one round, all cases and both sides, does to the heap what the value function does to the shape |
| RbDelete.DeleteFixCorrect | src/rbtree.c:279-339 | the loop terminates, never takes the sentinel for a sibling, restores the whole red-black invariant, moves no element and makes at most three rotations |
| RbTree.RbTree.DeleteFixup | src/rbtree.c:279-339 | the loop and the last blackening compute that on the heap, with exactly as many rotations, and leave the sentinel black |
| RbDelete.DeleteOutcome | src/rbtree.c:229-339 | taking out a node below the root and rebalancing gives a sorted red-black tree without that node |
| RbDelete.RootOutOutcome | src/rbtree.c:220-227 | so does the early return |
| RbDelete.RemoveSorted | src/rbtree.c:199-340 | the sequence without a node is sorted if the old one was, and has no new elements |
| RbDelete.RemovePlace | src/rbtree.c:117-340 | deleting what was just inserted gives the old sequence back |
| RbTree.RbTree.Delete | src/rbtree.c:199-340 | for every valid tree and every node in it: the tree is valid again, its in-order sequence is the old one without exactly that node, at most three rotations are carried out, the node's links and key are cleared |
| RbTree.RbTree.Min | src/rbtree.c:23-35 | the first element in order, or NULL if and only if there is none |
| RbTree.RbTree.Max | src/rbtree.c:49-61 | the last element in order, or NULL if and only if there is none |
| RbSearch.BlackHeightBounds | src/rbtree.c:117-340 | black height bounds the number of nodes from below and the height from above |
| RbSearch.HeightBound | src/rbtree.c:117-340 | a red-black tree with n nodes is at most 2 log2(n+1) high, written without logarithms |
| RbTree.RbTree.Lookup | src/context.c:165-188 | the search returns a node with the key, or NULL only if no element has it, also when equal keys lie on both sides; it looks at no more nodes than the height, hence at most 2 log2(n+1) |
| Machine.StepInv | src/context.c:131-227 | every step of the supervisor and every exit of a child keeps the invariant of the machine |
| Machine.NoLostExit | src/context.c:83-93 | in every reachable sleeping state, a dead child means that SIGCHLD is pending, and the wake-up leads to a reap of that child |
| Machine.IndexAgrees | src/context.c:141-158 | asleep, woken or at the head of the reap loop: a task is in the tree iff it is running iff its pid is nonzero, its key is its pid, and the keys are exactly the children not reaped yet, each under the task it was forked for |
| Machine.TriedOnce | src/context.c:200-209 | over every run from the start until all tasks have had their turn, each task whose turn has come has been attempted exactly once and every other one not at all; a success counts as one start, a failure as none |
| Machine.AllTried | src/context.c:200-209 | from then on no task is left untried |
| Machine.AlwaysFound | src/context.c:149-153 | the branch "no related task found" is unreachable: each reaped pid is found under the task it was forked for, even if pids are reused |
| Machine.Conservation | src/context.c:141-158 | the starts of all tasks add up to the nodes in the tree plus the exits reaped |
| Machine.DownForGood | src/context.c:206-226 | a task whose start or restart failed stays finished and out of the tree, with its count of starts, in every later state |
| Machine.Ledger | src/context.c:141-227 | over every run, each task's account balances: starts, attempts that failed and starts still owed on the one side, reaped exits on the other |
| Machine.RestartLedger | src/context.c:141-227 | from the start of a run to any moment when nothing is under way, a task has been attempted once and once more for each of its reaped exits; at most one attempt failed, and the task is running if and only if none did |
| Machine.RestartedIff | src/context.c:213-227 | for every run from a reachable state in which a task is running: it is running at the end if and only if no fork of it failed on the way, and finished otherwise; its starts have grown by its reaped exits, less the one that failed |
| Machine.OnlyForkFails | src/task.c:165-189 | for a task with name and path the only failure is fork's, so a restart cannot fail for want of either |
| Machine.ExitToRestart | src/context.c:137-155 | from every sleeping state the exit of any live child can be brought to the point where its task is run again |
| Machine.RestartCanBeLost | src/context.c:213-227 | and if fork fails there, that task is finished in every state of every continuation |
| Machine.OneTaskRuns | src/context.c:191-211 | a concrete reachable state to which this applies |
| Machine.FlagStays | src/sighandler.c:133-135 | once SIGCHLD's flag is set, it is set in every later state |
| Machine.WakesCounted | src/context.c:90-93 | the machine's count of wake-ups is the number of those events in the run |
| Supervisor.Process.Meanwhile | src/context.c:90-98 | between two system calls the children do what the given moves say, for any moves, and SIGCHLD follows |
| Supervisor.Process.ChildExits | src/sighandler.c:133-135 | an exit makes SIGCHLD pending while it is blocked, and sets the flag at once otherwise |
| Supervisor.Process.ChildHalts | src/sighandler.c:82-88 | so does a child that is stopped or continued, since the handler is installed without SA_NOCLDSTOP; there is nothing to reap then |
| Supervisor.Process.PSelect | src/context.c:91-93 | the atomic mask swap, at each sleep with the signal given for it: a pending SIGCHLD that comes through sets the flag, one that does not stays pending, and the flag is never cleared |
| Supervisor.Process.Fork | src/task.c:171-190 | one answer of the given ones is used up; it is the pid if it is positive and no child has it, and otherwise the fork has failed |
| Supervisor.Process.Mask | src/context.c:118-129 | SIGCHLD is blocked before the first fork |
| Supervisor.Process.Wait | src/context.c:142-148 | waitpid's three outcomes as machine steps; every reaped child uses up one exit |
| Supervisor.TaskRec.Reset | src/task.c:67-72 | pid zero and status finished, nothing else |
| Supervisor.TaskRec.Forked | src/task.c:192-195 | pid, key, status and the count of starts after a fork |
| Supervisor.Context.TaskRun | src/task.c:158-198 | without name or path the call fails and fork is not asked; with them fork is asked once, the call succeeds if and only if its answer is a pid that no child has, and the task then has that pid, which is among the children; the record is as the machine has it either way |
| Supervisor.FileNode | src/context.c:204 | inserting an unfiled task's node adds exactly its key to what the tree stands for |
| Supervisor.UnfileNode | src/context.c:216 | deleting a filed task's node takes exactly its key out and touches no other key |
| Supervisor.Context.AddNode | src/context.c:202-204 | filing the node of a task just forked is the machine's step |
| Supervisor.Context.RestartTask | src/context.c:213-227 | delete, one fork, insert again: a run of machine steps back to the reap loop; it reports success if and only if fork's answer was good, if and only if the task is running, and if and only if its node is in the tree again |
| Supervisor.Context.FindTask | src/context.c:163-189 | finds the task filed under the pid, and fails only if there is none |
| Supervisor.Context.StartTasks | src/context.c:191-211 | goes along the ring of tasks, which it leaves as it is, and asks fork once for each task that can be run: afterwards each task either runs and has been started once or is finished and has not been started, and records, tree and children agree |
| Supervisor.Context.HandleExit | src/context.c:149-157 | lookup and restart of a reaped child's task, with one fork; the not-found branch is proved dead |
| Supervisor.Context.EventHandler | src/context.c:131-161 | the reap loop is a run of the machine from a wake-up back to sleep, and ends as long as children exit only finitely often; it asks fork once for each child reaped, and if the flag is set no child is left dead |
| Supervisor.Context.Round | src/context.c:91-93 | one sleep and one wake-up: if SIGCHLD was pending and came through, or the flag had been set before, no child is left dead afterwards |
| Supervisor.Context.Run | src/context.c:78-101 | the whole program is a run of the machine with exactly one wake-up for each round up to the first after which the callback ends it; fork is asked once for each task that can be run and once for each child reaped; every child has one of fork's answers as its pid, and if these were all good, every task that can be run is running at the end |
| Supervisor.Context.constructor | src/task.c:43-65 | tasks as initialised and an empty tree stand for an initial state of the machine |
| Supervisor.Context.WhenSettled | src/context.c:90-158 | the theorems read off the fields, asleep, woken or at the head of the reap loop: the elements of the tree are exactly the nodes of the running tasks under their pids, these pids differ and are the unreaped children, starts are conserved, and asleep a dead child means a pending SIGCHLD |
| List.InitList | src/list.h:23-25 | the head alone is the empty ring |
| List.Add | src/list.h:51-54 | the ring of the entry in front of the old sequence, `next` and `prev` inverse to each other |
| List.AddTail | src/list.h:64-67 | the ring of the old sequence with the entry behind it |
| List.Del | src/list.h:88-91 | the ring without that entry, whose own links stay stale |
| List.DelInit | src/list.h:97-101 | the same, and the entry becomes an empty ring |
| List.Empty | src/list.h:107-110 | true if and only if the sequence is empty |
| List.Splice | src/list.h:117-131 | the concatenation of two disjoint rings; the spliced head is left as it was |
| List.ForEach | src/list.h:180-181 | the iteration meets every entry once, in order |
| Grammar.Vector.Check | src/conf_gram.y:20-29 | the array grows by the increment exactly when there is too little room; the contents stay, and what is used never exceeds what is allocated |
| Grammar.Vector.Push | src/conf_gram.y:155-156 | appends in bounds |
| Grammar.Vector.Frame | src/conf_gram.y:84-91 | the shift in place puts the path in front and NULL behind, in bounds |
| Grammar.Task.Option | src/conf_gram.y:120-203 | each option reduction changes what it names and nothing else |
| Grammar.OfConcat | src/conf_gram.y:147-158 | the strings of a kind given by two stretches of options are those of the first, then those of the second |
| Grammar.OfOne | src/conf_gram.y:147-158 | a single option gives its string to its kind and to no other; with the row above this fixes source order |
| Grammar.BuiltOpen | src/conf_gram.y:104-203 | after any sequence of options: each setting is the last one made, each vector has its strings in source order across all lines |
| Grammar.Task.Close | src/conf_gram.y:79-97 | the closing brace: path, arguments, NULL; an environment gets its NULL only if there is one |
| Grammar.Block | src/conf_gram.y:79-102 | a whole task block, from the first option that makes the task, gives exactly these vectors |
| Grammar.Config | src/conf_gram.y:75-102 | every block becomes a task as above, and the list of tasks is a ring in the reverse of declaration order |
| Grammar.Vector.Free | src/task.c:219-222 | the walk frees what lies before the first NULL, in bounds |
| Grammar.Task.Free | src/task.c:215-241 | the strings that closing a task frees, in order |
| Grammar.FreedOrLost | src/task.c:215-241 | exactly what is freed, for every block: all strings but the overwritten settings and, without a path, the arguments |
| Grammar.FreedOnce | src/task.c:215-241 | of the strings it was given a task never frees one more often than it was given it, and it frees all of them if and only if no setting is repeated and arguments come with a path |
| Grammar.ArgumentLeaks | src/task.c:219-235 | a name and an argument without a path: the argument is not freed |
| Grammar.RepeatedNameLeaks | src/conf_gram.y:120-126 | a name set twice: the first string is not freed |

## Left out

- `src/main.c`: option parsing, daemonizing, pid file and process title. Quit and terminate, which end the process from the callback after a wake-up, are one step of the machine from sleep.
- `src/log.c`, `src/strutil.c`, `src/alloc.c`: formatting and wrappers around the C library; log calls are dropped everywhere.
- `src/conf.c` and the generated scanner and parser: the model takes the sequence of option reductions of each block as its input.
- The child between `fork` and `exec` (redirection, working directory, log path): for the supervisor it is a pid that may exit at any time. `log_path` is therefore always NULL in the parent and freeing it does nothing.
- Failure of `sigprocmask`, of `realloc` and of `malloc`.
- A block without options: the closing brace then uses a NULL task pointer, so `Grammar.Block` and `Grammar.Config` require every block to have one.
- The flags for reconfiguring and reopening logs, which are set and never read, and the loop of `signal_handler` over its table, which only finds a name to log.
- Real time, `start_time`, liveness of the outer loop; its endless repetition is any number of rounds.
- Wrap-around of `start_count` and of the vectors' sizes in bytes.
- Releasing the arrays themselves and the task records; the list of freed strings is all that is recorded.
- Supervisor.Context.EventHandler: the source's reap loop has no bound of its own; the model ends it by a budget of exits, which is arbitrary.
- Supervisor.Context.Run: looks at any finite number of rounds, with any finite stretch of moves, answers and signals; beyond them the children are quiet and fork fails.
- Supervisor.Context.FindTask: the step from a node to the record around it is pointer arithmetic in the source and a search for the record here.
- Supervisor.Context.StartTasks: the same holds of the step from a list entry to its record.
- RbSearch.HeightBound: stated as 2^height at most (n+1)^2, which is the same without logarithms.

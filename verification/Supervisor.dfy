/** The supervisor as the program has it: task records, the tree over their embedded nodes,
    and what the process sees of the kernel.  Every method carries along a ghost state of
    the machine: what the method does to the fields and the tree is a sequence of machine
    steps, so all that holds in every run of the machine holds of the program. */
module Supervisor {
  import opened RbShape
  import opened RbInsert
  import opened RbDelete
  import opened RbSearch
  import opened RbTree
  import opened Machine
  import List

  // ---------------------------------------------------------------- the machine, step by step

  /** `s'` is reachable and comes from `s`. */
  ghost predicate Onward(s: State, s': State) {
    Reaches(s, s') && Reachable(s')
  }

  lemma Same(s: State)
    requires Reachable(s)
    ensures Onward(s, s)
  {
    ReachesSelf(s);
  }

  lemma Then(s: State, s1: State, s2: State)
    requires Onward(s, s1) && Onward(s1, s2)
    ensures Onward(s, s2)
  {
    ReachesTransitive(s, s1, s2);
  }

  lemma Step(s: State, e: Event)
    requires Reachable(s) && Enabled(s, e)
    ensures Onward(s, Apply(s, e))
  {
    ReachesStep(s, e);
    ReachableOn(s, Apply(s, e));
  }

  ghost function Dead(kids: map<int, Kid>): set<int> {
    set p | p in kids && kids[p].dead
  }

  /** No child has been reaped, and no wake-up dealt with. */
  predicate SameCounts(s: State, s': State) {
    s'.reaped == s.reaped && s'.wakes == s.wakes
  }

  /** Nothing but the environment has moved. */
  ghost predicate Idle(s: State, s': State) {
    && Onward(s, s') && SameCounts(s, s')
    && s'.pc == s.pc && s'.tasks == s.tasks && s'.index == s.index && s'.blocked == s.blocked
  }

  /** Where the supervisor goes on once it is through with task `i`. */
  function Resumed(starting: bool, i: nat): Pc {
    if starting then Starting(i + 1) else Reaping
  }

  function Tried(ok: bool, starting: bool, i: nat): Pc {
    if ok then Adding(i, starting) else Resumed(starting, i)
  }

  /** What an attempt to run task `i` leads to. */
  ghost predicate Ran(i: nat, pid: int, s: State, s': State) {
    && i < |s.tasks| && Onward(s, s') && SameCounts(s, s') && s'.index == s.index
    && (pid == -1 || 0 < pid <= MAX_PID)
    && s'.tasks == s.tasks[i := if pid == -1 then Machine.Reset(s.tasks[i]) else Machine.Forked(s.tasks[i], pid)]
    && s'.pc == Tried(pid != -1, s.pc.Starting?, i)
  }

  /** The reset comes first, then the fork. */
  lemma RanTasks(i: nat, pid: int, s: State, s': State)
    requires Ran(i, pid, s, s')
    ensures var ts := s.tasks[i := Machine.Reset(s.tasks[i])];
      s'.tasks == if pid == -1 then ts else ts[i := Machine.Forked(ts[i], pid)]
  {
  }

  lemma RanAfter(i: nat, pid: int, s: State, s1: State, s': State)
    requires Idle(s, s1) && Ran(i, pid, s1, s')
    ensures Ran(i, pid, s, s')
  {
    Then(s, s1, s');
  }

  lemma RanFails(i: nat, s: State, e: Event)
    requires Reachable(s) && AboutToRun(s, i) && Failure(e) && Enabled(s, e)
    ensures Apply(s, e) == GiveUp(s) && Ran(i, -1, s, Apply(s, e)) && SameKernel(s, Apply(s, e))
  {
    Step(s, e);
    assert Subject(s) == i;
  }

  lemma RanWell(i: nat, pid: int, s: State)
    requires Reachable(s) && AboutToRun(s, i) && s.tasks[i].runnable && Fresh(s, pid)
    ensures var s' := Apply(s, Runs(pid));
      && Ran(i, pid, s, s')
      && s'.kids == s.kids[pid := Kid(i, false)] && s'.pending == s.pending && s'.blocked == s.blocked &&
        s'.child == s.child
      && Dead(s'.kids) == Dead(s.kids)
  {
    Step(s, Runs(pid));
    assert Dead(s.kids[pid := Kid(i, false)]) == Dead(s.kids);
  }

  // ---------------------------------------------------------------- the process and the kernel

  datatype Move = Exits(pid: int) | Halts(pid: int)

  /** What the process does not decide: what the children do between its system calls, what fork
      answers, and at which sleep SIGCHLD is the signal that comes through.  A run meets only so
      much of it; beyond that the children are quiet, fork fails and another signal comes through. */
  datatype World = World(moves: seq<seq<Move>>, answers: seq<int>, sigchlds: seq<bool>) {
    function Moves(n: nat): seq<Move> {
      if n < |moves| then moves[n] else []
    }

    function Answer(n: nat): int {
      if n < |answers| then answers[n] else -1
    }

    function Sigchld(n: nat): bool {
      n < |sigchlds| && sigchlds[n]
    }
  }

  datatype Moved = Moved(kids: map<int, Kid>, exits: nat, raised: bool)

  /** What the moves come to.  A child that is not there or is dead does nothing, and no child
      exits once there have been as many exits as there may be. */
  function AfterMoves(kids: map<int, Kid>, exits: nat, ms: seq<Move>): Moved {
    if ms == [] then Moved(kids, exits, false) else
      var (v, m) := (AfterMoves(kids, exits, ms[..|ms| - 1]), ms[|ms| - 1]);
      if m.pid !in v.kids || v.kids[m.pid].dead then v
      else if m.Halts? then v.(raised := true)
      else if v.exits == 0 then v
      else Moved(v.kids[m.pid := v.kids[m.pid].(dead := true)], v.exits - 1, true)
  }

  lemma AfterOneMore(kids: map<int, Kid>, exits: nat, ms: seq<Move>, i: nat)
    requires i < |ms|
    ensures var v, m := AfterMoves(kids, exits, ms[..i]), ms[i];
      var moves := m.pid in v.kids && !v.kids[m.pid].dead && (m.Halts? || v.exits > 0);
      AfterMoves(kids, exits, ms[..i + 1]) ==
        Moved(if moves && m.Exits? then v.kids[m.pid := v.kids[m.pid].(dead := true)] else v.kids,
              if moves && m.Exits? then v.exits - 1 else v.exits, v.raised || moves)
  {
    assert ms[..i + 1][..i] == ms[..i];
  }

  /** fork can give out this pid. */
  predicate Free(pid: int, kids: set<int>) {
    0 < pid <= MAX_PID && pid !in kids
  }

  /** What an attempt at a task does with the answers of fork: none is used up if the task cannot
      be run, and otherwise one, which decides. */
  predicate Answered(runnable: bool, answer: int, kids: set<int>, asked: nat, ok: bool, pid: int, kids': set<int>,
    asked': nat) {
    && asked' == asked + (if runnable then 1 else 0)
    && (ok <==> runnable && Free(answer, kids))
    && (ok ==> pid == answer && pid in kids')
  }

  /** The answers of fork from `a0` on and before `a1` are all good: pids that no child had at the
      start, and no two the same. */
  predicate Generous(w: World, a0: nat, a1: nat, kids: set<int>) {
    && (forall n :: a0 <= n < a1 ==> Free(w.Answer(n), kids))
    && (forall m, n :: a0 <= m < n < a1 ==> w.Answer(m) != w.Answer(n))
  }

  /** No task that can be run has come down. */
  predicate NotLost(s0: State, s1: State)
    requires |s1.tasks| == |s0.tasks|
  {
    forall t :: 0 <= t < |s1.tasks| && s1.tasks[t].runnable && s1.tasks[t].status == Finished ==>
      s0.tasks[t].status == Finished
  }

  /** Between two states, fork has given its answers from `a0` on and before `a1`.  Every new child
      has one of them as its pid, and if they are all good, no task is lost. */
  ghost predicate Keeps(w: World, a0: nat, s0: State, a1: nat, s1: State) {
    && |s1.tasks| == |s0.tasks| && a0 <= a1
    && (forall t :: 0 <= t < |s1.tasks| ==> s1.tasks[t].runnable == s0.tasks[t].runnable)
    && (forall p :: p in s1.kids ==> p in s0.kids || exists n :: a0 <= n < a1 && w.Answer(n) == p)
    && (Generous(w, a0, a1, s0.kids.Keys) ==> NotLost(s0, s1))
  }

  ghost predicate Kept(w: World, a0: nat, s0: State, a1: nat, s1: State) {
    forall x: bool {:trigger Opened(x)} :: Opened(x) ==> Keeps(w, a0, s0, a1, s1)
  }

  lemma KeptIs(w: World, a0: nat, s0: State, a1: nat, s1: State)
    ensures Kept(w, a0, s0, a1, s1) <==> Keeps(w, a0, s0, a1, s1)
  {
    assert Opened(true);
  }

  lemma KeepsOn(w: World, a0: nat, s0: State, a1: nat, s1: State, a2: nat, s2: State)
    requires Keeps(w, a0, s0, a1, s1) && Keeps(w, a1, s1, a2, s2)
    ensures Keeps(w, a0, s0, a2, s2)
  {
    if Generous(w, a0, a2, s0.kids.Keys) {
      assert Generous(w, a0, a1, s0.kids.Keys);
      forall n | a1 <= n < a2
        ensures Free(w.Answer(n), s1.kids.Keys)
      {
        assert Free(w.Answer(n), s0.kids.Keys);
      }
      assert Generous(w, a1, a2, s1.kids.Keys);
    }
  }

  lemma KeptOn(w: World, a0: nat, s0: State, a1: nat, s1: State, a2: nat, s2: State)
    requires Kept(w, a0, s0, a1, s1) && Kept(w, a1, s1, a2, s2)
    ensures Kept(w, a0, s0, a2, s2)
  {
    KeptIs(w, a0, s0, a1, s1);
    KeptIs(w, a1, s1, a2, s2);
    KeepsOn(w, a0, s0, a1, s1, a2, s2);
    KeptIs(w, a0, s0, a2, s2);
  }

  /** Without a fork, when no child comes and no status changes. */
  lemma KeptStill(w: World, a: nat, s: State, s': State)
    requires s'.kids.Keys <= s.kids.Keys && |s'.tasks| == |s.tasks|
    requires forall t :: 0 <= t < |s.tasks| ==>
      s'.tasks[t].status == s.tasks[t].status && s'.tasks[t].runnable == s.tasks[t].runnable
    ensures Kept(w, a, s, a, s')
  {
  }

  lemma KeptSame(w: World, a: nat, s: State, s': State)
    requires s'.kids.Keys <= s.kids.Keys && s'.tasks == s.tasks
    ensures Kept(w, a, s, a, s')
  {
    KeptStill(w, a, s, s');
  }

  /** An attempt at a task. */
  lemma KeptRan(w: World, a: nat, i: nat, pid: int, s: State, a': nat, s': State)
    requires Ran(i, pid, s, s')
    requires Answered(s.tasks[i].runnable, w.Answer(a), s.kids.Keys, a, pid != -1, pid, s'.kids.Keys, a')
    requires s'.kids.Keys == s.kids.Keys + if pid == -1 then {} else {pid}
    ensures Kept(w, a, s, a', s')
  {
    if pid != -1 {
      assert w.Answer(a) == pid;
    }
    if Generous(w, a, a', s.kids.Keys) && s.tasks[i].runnable {
      assert Free(w.Answer(a), s.kids.Keys);
    }
    assert Keeps(w, a, s, a', s');
  }

  /** The children, the SIGCHLD state and the flag its handler sets.  `exits` bounds how often
      a child may still exit in the stretch of a run that is looked at.  The last three fields
      count how much of the world has been met: the pauses between system calls, the forks and
      the sleeps. */
  class Process {
    const world: World
    var kids: map<int, Kid>
    var pending: bool
    var blocked: bool
    var child: bool
    var exits: nat
    var pauses: nat
    var asked: nat
    var sleeps: nat

    constructor (world: World, exits: nat)
      ensures kids == map[] && !pending && !blocked && !child && this.world == world && this.exits == exits
      ensures pauses == asked == sleeps == 0
    {
      kids, pending, blocked, child, this.world, this.exits := map[], false, false, false, world, exits;
      pauses, asked, sleeps := 0, 0, 0;
    }

    ghost predicate Shows(s: State)
      reads this`kids, this`pending, this`blocked, this`child
    {
      s.kids == kids && s.pending == pending && s.blocked == blocked && s.child == child
    }

    /** Exits that may still come, and those waiting to be reaped. */
    ghost function Budget(): nat
      reads this`exits, this`kids
    {
      exits + |Dead(kids)|
    }

    /** A child exits: SIGCHLD becomes pending, or is handled at once if it is not blocked. */
    method ChildExits(p: int, ghost s: State) returns (ghost s': State)
      requires Shows(s) && Reachable(s) && p in kids && !kids[p].dead
      modifies this`kids, this`pending, this`child
      ensures s' == Apply(s, Exit(p)) && Shows(s') && Idle(s, s')
      ensures |Dead(kids)| == |Dead(old(kids))| + 1
      ensures if blocked then pending && child == old(child) else child && pending == old(pending)
    {
      Step(s, Exit(p));
      s' := Apply(s, Exit(p));
      assert Dead(kids[p := kids[p].(dead := true)]) == Dead(kids) + {p};
      kids := kids[p := kids[p].(dead := true)];
      RaiseChild();
    }

    method RaiseChild()
      modifies this`pending, this`child
      ensures pending == (old(pending) || blocked) && child == (old(child) || !blocked)
    {
      if blocked {
        pending := true;
      } else {
        child := true;
      }
    }

    /** A child is stopped or continued: the signal is the same, but there is nothing to reap. */
    method ChildHalts(p: int, ghost s: State) returns (ghost s': State)
      requires Shows(s) && Reachable(s) && p in kids && !kids[p].dead
      modifies this`pending, this`child
      ensures s' == Apply(s, Halt(p)) && Shows(s') && Idle(s, s')
      ensures if blocked then pending && child == old(child) else child && pending == old(pending)
    {
      Step(s, Halt(p));
      s' := Apply(s, Halt(p));
      RaiseChild();
    }

    /** Between two system calls of the supervisor, children exit, are stopped or are continued. */
    method Meanwhile(ghost s: State) returns (ghost s': State)
      requires Shows(s) && Reachable(s)
      modifies this`kids, this`pending, this`child, this`exits, this`pauses
      ensures Shows(s') && Idle(s, s') && Budget() <= old(Budget()) && kids.Keys == old(kids.Keys)
      ensures var v := AfterMoves(old(kids), old(exits), world.Moves(old(pauses)));
        && kids == v.kids && exits == v.exits
        && pending == (old(pending) || (v.raised && blocked)) && child == (old(child) || (v.raised && !blocked))
      ensures pauses == old(pauses) + 1
    {
      var ms := world.Moves(pauses);
      pauses := pauses + 1;
      s' := s;
      Same(s);
      for i := 0 to |ms|
        invariant Shows(s') && Idle(s, s') && Budget() <= old(Budget()) && kids.Keys == old(kids.Keys)
        invariant pauses == old(pauses) + 1
        invariant var v := AfterMoves(old(kids), old(exits), ms[..i]);
          && kids == v.kids && exits == v.exits
          && pending == (old(pending) || (v.raised && blocked)) && child == (old(child) || (v.raised && !blocked))
      {
        AfterOneMore(old(kids), old(exits), ms, i);
        ghost var s1 := s';
        s' := OneMove(ms[i], s1);
        Then(s, s1, s');
      }
      assert ms[..|ms|] == ms;
    }

    method OneMove(m: Move, ghost s: State) returns (ghost s': State)
      requires Shows(s) && Reachable(s)
      modifies this`kids, this`pending, this`child, this`exits
      ensures Shows(s') && Idle(s, s') && Budget() <= old(Budget()) && kids.Keys == old(kids.Keys)
      ensures var moves := m.pid in old(kids) && !old(kids)[m.pid].dead && (m.Halts? || old(exits) > 0);
        && kids == (if moves && m.Exits? then old(kids)[m.pid := old(kids)[m.pid].(dead := true)] else old(kids))
        && exits == (if moves && m.Exits? then old(exits) - 1 else old(exits))
        && pending == (old(pending) || (moves && blocked)) && child == (old(child) || (moves && !blocked))
    {
      s' := s;
      Same(s);
      if m.pid in kids && !kids[m.pid].dead {
        if m.Halts? {
          s' := ChildHalts(m.pid, s);
        } else if exits > 0 {
          exits := exits - 1;
          s' := ChildExits(m.pid, s);
        }
      }
    }

    /** fork: the answer, if it is a positive pid that no child has, and -1 otherwise. */
    method Fork(owner: nat) returns (pid: int)
      modifies this`kids, this`asked
      ensures asked == old(asked) + 1
      ensures pid == if Free(world.Answer(old(asked)), old(kids.Keys)) then world.Answer(old(asked)) else -1
      ensures kids == if pid == -1 then old(kids) else old(kids)[pid := Kid(owner, false)]
      ensures Answered(true, world.Answer(old(asked)), old(kids.Keys), old(asked), pid != -1, pid, kids.Keys, asked)
      ensures kids.Keys == old(kids.Keys) + if pid == -1 then {} else {pid}
    {
      pid := world.Answer(asked);
      asked := asked + 1;
      if 0 < pid <= MAX_PID && pid !in kids {
        kids := kids[pid := Kid(owner, false)];
      } else {
        pid := -1;
      }
    }

    /** The fork of task `i`. */
    method RunFork(i: nat, ghost s: State) returns (pid: int, ghost s': State)
      requires Shows(s) && Reachable(s) && AboutToRun(s, i) && s.tasks[i].runnable
      modifies this`kids, this`asked
      ensures Shows(s') && Ran(i, pid, s, s') && Dead(kids) == Dead(old(kids))
      ensures Answered(true, world.Answer(old(asked)), old(kids.Keys), old(asked), pid != -1, pid, kids.Keys, asked)
      ensures kids.Keys == old(kids.Keys) + if pid == -1 then {} else {pid}
    {
      pid := Fork(i);
      if pid == -1 {
        RanFails(i, s, ForkFails);
        s' := Apply(s, ForkFails);
      } else {
        RanWell(i, pid, s);
        s' := Apply(s, Runs(pid));
      }
    }

    method Try(runnable: bool, i: nat, ghost s: State) returns (pid: int, ghost s': State)
      requires Shows(s) && Reachable(s) && AboutToRun(s, i) && s.tasks[i].runnable == runnable
      modifies this`kids, this`asked
      ensures Shows(s') && Ran(i, pid, s, s') && Dead(kids) == Dead(old(kids))
      ensures Answered(runnable, world.Answer(old(asked)), old(kids.Keys), old(asked), pid != -1, pid, kids.Keys, asked)
      ensures kids.Keys == old(kids.Keys) + if pid == -1 then {} else {pid}
    {
      pid := -1;
      if runnable {
        pid, s' := RunFork(i, s);
      } else {
        RanFails(i, s, NotRunnable);
        s' := Apply(s, NotRunnable);
      }
    }

    /** The fork of a task, if it has a name and a path. */
    method Attempt(runnable: bool, i: nat, ghost s: State) returns (pid: int, ghost s': State)
      requires Shows(s) && Reachable(s) && AboutToRun(s, i) && s.tasks[i].runnable == runnable
      modifies this`kids, this`pending, this`child, this`exits, this`pauses, this`asked
      ensures Shows(s') && Ran(i, pid, s, s') && Budget() <= old(Budget())
      ensures Answered(runnable, world.Answer(old(asked)), old(kids.Keys), old(asked), pid != -1, pid, kids.Keys, asked)
      ensures sleeps == old(sleeps)
      ensures Kept(world, old(asked), s, asked, s')
    {
      ghost var s1 := Meanwhile(s);
      pid, s' := Try(runnable, i, s1);
      RanAfter(i, pid, s, s1, s');
      KeptRan(world, old(asked), i, pid, s, asked, s');
    }

    /** waitpid for any child, not blocking: a dead child, 0 if all are alive, -1 if there are
        none. */
    method WaitPid() returns (pid: int)
      requires forall p :: p in kids ==> 0 < p
      modifies this`kids
      ensures pid > 0 ==> pid in old(kids) && old(kids)[pid].dead && kids == old(kids) - {pid}
      ensures pid <= 0 ==> kids == old(kids) && forall p :: p in kids ==> !kids[p].dead
      ensures pid < 0 <==> old(kids) == map[]
    {
      if p :| p in kids && kids[p].dead {
        pid := p;
        kids := kids - {p};
      } else {
        pid := if kids == map[] then -1 else 0;
      }
    }

    /** One turn of the reap loop's waitpid. */
    method Wait(ghost s: State) returns (pid: int, ghost s': State)
      requires Shows(s) && Reachable(s) && s.pc == Reaping
      modifies this`kids, this`pending, this`child, this`exits, this`pauses
      ensures Shows(s') && Onward(s, s') && s'.tasks == s.tasks && s'.index == s.index
      ensures s'.wakes == s.wakes && s'.reaped == s.reaped + if pid > 0 then 1 else 0
      ensures pid <= 0 ==> forall p :: p in kids ==> !kids[p].dead
      ensures pid > 0 ==> pid <= MAX_PID && s'.pc.Reaped? && s'.pc.pid == pid && Budget() < old(Budget())
      ensures pid <= 0 ==> s'.pc == Asleep && Budget() <= old(Budget())
      ensures Kept(world, asked, s, asked, s')
    {
      ghost var s1 := Meanwhile(s);
      ReachableInv(s1);
      pid := WaitPid();
      if pid > 0 {
        s' := ReapStep(s1, pid);
      } else {
        s' := NoneStep(s1);
      }
      Then(s, s1, s');
      KeptSame(world, asked, s, s');
    }

    /** sigprocmask: from here on SIGCHLD is blocked, except in pselect. */
    method Mask(ghost s: State) returns (ghost s': State)
      requires Shows(s) && Reachable(s) && s.pc == Boot
      modifies this`blocked
      ensures s' == Apply(s, Block) && Shows(s') && Onward(s, s') && SameCounts(s, s')
      ensures Kept(world, asked, s, asked, s')
    {
      Step(s, Block);
      s' := Apply(s, Block);
      blocked := true;
      KeptSame(world, asked, s, s');
    }

    /** A signal arrives: SIGCHLD, if it is pending and is the one that comes through, runs its
        handler; any other handled signal wakes the supervisor just as well. */
    method Signal(ghost s: State) returns (ghost s': State)
      requires Shows(s) && Reachable(s) && s.pc == Asleep
      modifies this`pending, this`child
      ensures Shows(s') && Onward(s, s') && SameCounts(s, s') && s'.pc == Woken
      ensures s'.tasks == s.tasks && s'.index == s.index
      ensures var through := old(pending) && world.Sigchld(sleeps);
        pending == (old(pending) && !through) && child == (old(child) || through)
    {
      if pending && world.Sigchld(sleeps) {
        Step(s, ChildSignal);
        s' := Apply(s, ChildSignal);
        pending := false;
        child := true;
      } else {
        Step(s, OtherSignal);
        s' := Apply(s, OtherSignal);
      }
    }

    /** pselect sleeps and lets one signal in. */
    method PSelect(ghost s: State) returns (ghost s': State)
      requires Shows(s) && Reachable(s) && s.pc == Asleep
      modifies this`kids, this`pending, this`child, this`exits, this`pauses, this`sleeps
      ensures Shows(s') && Onward(s, s') && SameCounts(s, s') && s'.pc == Woken
      ensures s'.tasks == s.tasks && s'.index == s.index && sleeps == old(sleeps) + 1
      ensures (old(pending) ==> pending || child) && (old(child) ==> child)
      ensures old(pending) && world.Sigchld(old(sleeps)) ==> child && !pending
      ensures Kept(world, asked, s, asked, s')
    {
      ghost var s1 := Meanwhile(s);
      s' := Signal(s1);
      sleeps := sleeps + 1;
      Then(s, s1, s');
      KeptSame(world, asked, s, s');
    }
  }

  // ---------------------------------------------------------------- tasks and their nodes

  /** A pid as a key of the tree; the conversion to an unsigned 64-bit key wraps. */
  function KeyOf(pid: int): Key {
    pid % 0x1_0000_0000_0000_0000
  }

  class TaskRec {
    const node: Node
    const list: List.ListHead
    const runnable: bool  // name and path are set
    var pid: int
    var status: Status
    var startCount: nat

    constructor (n: Node, l: List.ListHead, runnable: bool)
      ensures node == n && list == l && this.runnable == runnable && pid == 0 && status == Init && startCount == 0
    {
      node, list, this.runnable, pid, status, startCount := n, l, runnable, 0, Init, 0;
    }

    method Reset()
      modifies this`pid, this`status
      ensures View() == Machine.Reset(old(View()))
    {
      pid := 0;
      status := Finished;
    }

    method Forked(pid: int)
      requires 0 < pid <= MAX_PID
      modifies this`pid, this`status, this`startCount, node`key
      ensures View() == Machine.Forked(old(View()), pid)
    {
      this.pid := pid;
      node.key := KeyOf(pid);
      status := Running;
      startCount := startCount + 1;
    }

    function View(): Task
      reads this, node
    {
      Task(runnable, pid, node.key, status, startCount)
    }
  }

  ghost function NodesOf(tasks: seq<TaskRec>): (ns: seq<Node>)
    ensures |ns| == |tasks| && forall i :: 0 <= i < |ns| ==> ns[i] == tasks[i].node
  {
    seq(|tasks|, i requires 0 <= i < |tasks| => tasks[i].node)
  }

  /** The list entries embedded in the records. */
  function ListsOf(tasks: seq<TaskRec>): (ls: seq<List.ListHead>)
    ensures |ls| == |tasks| && forall i :: 0 <= i < |ls| ==> ls[i] == tasks[i].list
  {
    seq(|tasks|, i requires 0 <= i < |tasks| => tasks[i].list)
  }

  /** The sequence `c` of a tree's elements holds the nodes that `index` lists, under the keys
      it lists them by, and nothing else. */
  ghost predicate Lists(c: seq<Elem>, ns: seq<Node>, index: map<int, nat>) {
    && |c| == |index|
    && (forall k :: k in index ==> 0 < k <= MAX_PID && index[k] < |ns|)
    && (forall i, k: Key {:trigger Elem(ns[i], k)} :: 0 <= i < |ns| ==>
      (Elem(ns[i], k) in c <==> k in index && index[k] == i))
    && (forall e :: e in c ==> e.node in ns)
  }

  predicate AllDifferent(ns: seq<Node>) {
    forall i, j :: 0 <= i < j < |ns| ==> ns[i] != ns[j]
  }

  lemma ListsInsert(c: seq<Elem>, ns: seq<Node>, index: map<int, nat>, i: nat, k: Key)
    requires Lists(c, ns, index) && AllDifferent(ns) && i < |ns| && k !in index && 0 < k <= MAX_PID
    ensures Lists(Place(c, Elem(ns[i], k)), ns, index[k := i])
  {
    PlaceMembers(c, Elem(ns[i], k));
  }

  lemma ListsRemove(c: seq<Elem>, ns: seq<Node>, index: map<int, nat>, i: nat, k: Key)
    requires Lists(c, ns, index) && AllDifferent(ns) && i < |ns| && k in index && index[k] == i
    requires forall j :: j in index && index[j] == i ==> j == k
    requires forall j: Key :: Elem(ns[i], j) !in Remove(c, ns[i])
    ensures Lists(Remove(c, ns[i]), ns, index - {k})
  {
    RemoveMembers(c, ns[i]);
    assert Elem(ns[i], k) in c;
    assert (index - {k}).Keys == index.Keys - {k};
    var d := Remove(c, ns[i]);
    forall j, h: Key | 0 <= j < |ns|
      ensures Elem(ns[j], h) in d <==> h in index - {k} && (index - {k})[h] == j
    {
      if j != i {
        assert Elem(ns[j], h) in d <==> Elem(ns[j], h) in c;
      }
    }
  }

  // ---------------------------------------------------------------- the supervisor

  /** Every record and every embedded node is its own. */
  ghost predicate Separate(tasks: seq<TaskRec>, nodes: set<Node>) {
    && (forall i :: 0 <= i < |tasks| ==> tasks[i].node in nodes)
    && (forall i, j :: 0 <= i < j < |tasks| ==> tasks[i] != tasks[j] && tasks[i].node != tasks[j].node)
  }

  /** The records' own fields are those of the machine's tasks ... */
  ghost predicate Own(tasks: seq<TaskRec>, ts: seq<Task>)
    reads tasks
  {
    && |ts| == |tasks|
    && forall i :: 0 <= i < |tasks| ==>
         var t := tasks[i]; ts[i] == Task(t.runnable, t.pid, ts[i].key, t.status, t.startCount)
  }

  /** ... and so are the keys of their nodes. */
  ghost predicate Keyed(ks: seq<Key>, ts: seq<Task>) {
    |ks| == |ts| && forall i :: 0 <= i < |ts| ==> ts[i].key == ks[i]
  }

  ghost predicate Fields(tasks: seq<TaskRec>, nodes: set<Node>, ts: seq<Task>)
    reads tasks, nodes
  {
    Separate(tasks, nodes) && Own(tasks, ts) && Keyed(KeysOf(NodesOf(tasks)), ts)
  }

  ghost predicate Indexed(tree: RbTree, ns: seq<Node>, index: map<int, nat>)
    reads tree, tree.sentinel, Nodes(tree.shape)
  {
    tree.Valid() && AllDifferent(ns) && Lists(tree.Contents(), ns, index)
  }

  lemma Unlisted(tree: RbTree, ns: seq<Node>, index: map<int, nat>, i: nat)
    requires Indexed(tree, ns, index) && i < |ns| && forall k :: k in index ==> index[k] != i
    ensures ns[i] !in Nodes(tree.shape)
  {
    NodesAreContents(tree.shape, ns[i]);
    forall k: Key
      ensures Elem(ns[i], k) !in tree.Contents()
    {
    }
  }

  /** The keys of all the nodes, listed or not. */
  ghost function KeysOf(ns: seq<Node>): (ks: seq<Key>)
    reads ns
    ensures |ks| == |ns| && forall i :: 0 <= i < |ns| ==> ks[i] == ns[i].key
  {
    seq(|ns|, i requires 0 <= i < |ns| reads ns => ns[i].key)
  }

  lemma NoContents(tree: RbTree)
    requires tree.Valid() && tree.Contents() == []
    ensures Nodes(tree.shape) == {}
  {
  }

  /** Filing a node that is not in the tree. */
  method FileNode(tree: RbTree, ghost ns: seq<Node>, node: Node, ghost i: nat, ghost index: map<int, nat>)
    requires Indexed(tree, ns, index) && i < |ns| && ns[i] == node && node !in Nodes(tree.shape) && tree.sentinel !in ns
    requires node.key !in index && 0 < node.key <= MAX_PID
    modifies tree`root, tree`shape, tree`turns, node`left, node`right, node`parent, node`red
    modifies Nodes(tree.shape)`left, Nodes(tree.shape)`right, Nodes(tree.shape)`parent, Nodes(tree.shape)`red
    ensures Indexed(tree, ns, index[node.key := i]) && Nodes(tree.shape) == old(Nodes(tree.shape)) + {node}
    ensures KeysOf(ns) == old(KeysOf(ns))
  {
    ghost var c := tree.Contents();
    ListsInsert(c, ns, index, i, node.key);
    ghost var ks := KeysOf(ns);
    tree.Insert(node);
    PlaceMembers(c, Elem(node, node.key));
    assert KeysOf(ns) == ks;
  }

  method DeleteListed(tree: RbTree, ghost ns: seq<Node>, node: Node, ghost i: nat, ghost index: map<int, nat>)
    requires Indexed(tree, ns, index) && i < |ns| && ns[i] == node && node in Nodes(tree.shape)
    requires node.key in index && index[node.key] == i && forall j :: j in index && index[j] == i ==> j == node.key
    modifies tree`root, tree`shape, tree`turns, node`key, tree.sentinel`parent, tree.sentinel`red
    modifies Nodes(tree.shape)`left, Nodes(tree.shape)`right, Nodes(tree.shape)`parent, Nodes(tree.shape)`red
    ensures Indexed(tree, ns, index - {old(node.key)}) && Nodes(tree.shape) == old(Nodes(tree.shape)) - {node}
    ensures tree.Contents() == Remove(old(tree.Contents()), node) && node.key == 0
  {
    ghost var c, k := tree.Contents(), node.key;
    tree.Delete(node);
    tree.NotAnElem(node);
    ListsRemove(c, ns, index, i, k);
  }

  /** Taking out a node that is in the tree; its key is cleared. */
  method UnfileNode(tree: RbTree, ghost ns: seq<Node>, node: Node, ghost i: nat, ghost index: map<int, nat>)
    requires Indexed(tree, ns, index) && i < |ns| && ns[i] == node && tree.sentinel !in ns
    requires node.key in index && index[node.key] == i && forall j :: j in index && index[j] == i ==> j == node.key
    modifies tree`root, tree`shape, tree`turns, node`key, tree.sentinel`parent, tree.sentinel`red
    modifies Nodes(tree.shape)`left, Nodes(tree.shape)`right, Nodes(tree.shape)`parent, Nodes(tree.shape)`red
    ensures Indexed(tree, ns, index - {old(node.key)}) && Nodes(tree.shape) == old(Nodes(tree.shape)) - {node}
    ensures KeysOf(ns) == old(KeysOf(ns))[i := 0]
  {
    ghost var ks := KeysOf(ns);
    assert Elem(ns[i], node.key) in tree.Contents();
    tree.ElemKey(node, node.key);
    DeleteListed(tree, ns, node, i, index);
    assert forall j :: 0 <= j < |ns| && j != i ==> ns[j].key == ks[j];
    assert KeysOf(ns) == ks[i := 0];
  }

  /** Filing and taking out leave the records alone, but for the key of a node taken out. */
  method FileTask(tree: RbTree, tasks: seq<TaskRec>, ghost nodes: set<Node>, i: nat, ghost ts: seq<Task>,
    ghost index: map<int, nat>)
    requires Fields(tasks, nodes, ts) && Indexed(tree, NodesOf(tasks), index) && i < |tasks|
    requires tree.sentinel !in nodes && Nodes(tree.shape) <= nodes && tasks[i].node !in Nodes(tree.shape)
    requires ts[i].key !in index && 0 < ts[i].key <= MAX_PID
    modifies tree`root, tree`shape, tree`turns, nodes`left, nodes`right, nodes`parent, nodes`red
    ensures Fields(tasks, nodes, ts) && Indexed(tree, NodesOf(tasks), index[ts[i].key := i])
    ensures Nodes(tree.shape) == old(Nodes(tree.shape)) + {tasks[i].node}
  {
    ghost var ns := NodesOf(tasks);
    FileNode(tree, ns, tasks[i].node, i, index);
  }

  lemma KeyCleared(tasks: seq<TaskRec>, ks: seq<Key>, ts: seq<Task>, i: nat)
    requires Own(tasks, ts) && Keyed(ks, ts) && i < |ts|
    ensures Own(tasks, ts[i := ts[i].(key := 0)]) && Keyed(ks[i := 0], ts[i := ts[i].(key := 0)])
  {
  }

  method UnfileTask(tree: RbTree, tasks: seq<TaskRec>, ghost nodes: set<Node>, i: nat, ghost ts: seq<Task>,
    ghost index: map<int, nat>)
    requires Fields(tasks, nodes, ts) && Indexed(tree, NodesOf(tasks), index) && i < |tasks|
    requires tree.sentinel !in nodes && Nodes(tree.shape) <= nodes
    requires ts[i].key in index && index[ts[i].key] == i && forall j :: j in index && index[j] == i ==> j == ts[i].key
    modifies tree`root, tree`shape, tree`turns, nodes`left, nodes`right, nodes`parent, nodes`red, tasks[i].node`key,
      tree.sentinel`parent, tree.sentinel`red
    ensures Own(tasks, ts) && KeysOf(NodesOf(tasks)) == old(KeysOf(NodesOf(tasks)))[i := 0]
    ensures Indexed(tree, NodesOf(tasks), index - {ts[i].key})
    ensures Nodes(tree.shape) == old(Nodes(tree.shape)) - {tasks[i].node}
  {
    UnfileNode(tree, NodesOf(tasks), tasks[i].node, i, index);
  }

  method TakeOut(tree: RbTree, tasks: seq<TaskRec>, ghost nodes: set<Node>, i: nat, ghost ts: seq<Task>,
    ghost index: map<int, nat>)
    requires Fields(tasks, nodes, ts) && Indexed(tree, NodesOf(tasks), index) && i < |tasks|
    requires tree.sentinel !in nodes && Nodes(tree.shape) <= nodes
    requires ts[i].key in index && index[ts[i].key] == i && forall j :: j in index && index[j] == i ==> j == ts[i].key
    modifies tree`root, tree`shape, tree`turns, nodes`left, nodes`right, nodes`parent, nodes`red, tasks[i].node`key,
      tree.sentinel`parent, tree.sentinel`red
    ensures Fields(tasks, nodes, ts[i := ts[i].(key := 0)]) && Indexed(tree, NodesOf(tasks), index - {ts[i].key})
    ensures Nodes(tree.shape) == old(Nodes(tree.shape)) - {tasks[i].node}
  {
    ghost var ks := KeysOf(NodesOf(tasks));
    UnfileTask(tree, tasks, nodes, i, ts, index);
    KeyCleared(tasks, ks, ts, i);
  }

  class Context {
    const tasks: seq<TaskRec>   // in list order
    const tree: RbTree
    const process: Process
    ghost const nodes: set<Node>

    /** What the task records stand for. */
    ghost function Recorded(): iset<seq<Task>>
      reads tasks, nodes
    {
      iset ts: seq<Task> | forall x: bool {:trigger Opened(x)} :: Opened(x) ==> Fields(tasks, nodes, ts)
    }

    /** What the tree stands for. */
    ghost function Filing(): iset<map<int, nat>>
      reads tree, tree.sentinel, Nodes(tree.shape)
    {
      iset index: map<int, nat> | forall x: bool {:trigger Opened(x)} :: Opened(x) ==>
        tree.sentinel !in nodes && Nodes(tree.shape) <= nodes && Indexed(tree, NodesOf(tasks), index)
    }

    /** The task records and the process are as the machine has them. */
    ghost predicate Records(s: State)
      reads tasks, process`kids, process`pending, process`blocked, process`child, nodes
    {
      s.tasks in Recorded() && process.Shows(s) && Reachable(s)
    }

    /** The tree is as the machine's index has it. */
    ghost predicate Filed(s: State)
      reads tree, tree.sentinel, Nodes(tree.shape)
    {
      s.index in Filing()
    }

    /** The states of the machine that the fields stand for. */
    ghost function Meaning(): iset<State>
      reads tasks, tree, tree.sentinel, nodes, Nodes(tree.shape)
      reads process`kids, process`pending, process`blocked, process`child
    {
      iset s: State | forall x: bool {:trigger Opened(x)} :: Opened(x) ==> Records(s) && Filed(s)
    }

    ghost predicate Valid(s: State)
      reads tasks, tree, tree.sentinel, nodes, Nodes(tree.shape)
      reads process`kids, process`pending, process`blocked, process`child
    {
      s in Meaning()
    }

    lemma ValidIs(s: State)
      ensures Valid(s) <==> Records(s) && Filed(s)
    {
      assert Opened(true);
    }

    /** A step of the machine that no field shows. */
    lemma StillValid(s: State, s': State)
      requires Valid(s) && Reachable(s') && SameKernel(s, s') && s'.tasks == s.tasks && s'.index == s.index
      ensures Valid(s')
    {
      ValidIs(s);
      ValidIs(s');
    }

    constructor (ts: seq<TaskRec>, sentinel: Node, world: World, exits: nat)
      requires forall i :: 0 <= i < |ts| ==>
        ts[i].status == Init && ts[i].pid == 0 && ts[i].startCount == 0 && ts[i].node != sentinel
      requires forall i, j :: 0 <= i < j < |ts| ==> ts[i] != ts[j] && ts[i].node != ts[j].node
      modifies sentinel
      ensures tasks == ts && tree.sentinel == sentinel && fresh(tree) && fresh(process) && process.exits == exits
      ensures process.world == world && process.asked == 0 && process.sleeps == 0
      ensures exists s :: Initial(s) && Valid(s)
    {
      tasks := ts;
      tree := new RbTree(sentinel);
      process := new Process(world, exits);
      nodes := set i | 0 <= i < |ts| :: ts[i].node;
      new;
      NothingFiled();
      NothingRun();
    }

    lemma NothingFiled()
      requires tree.Valid() && tree.Contents() == [] && tree.sentinel !in nodes
      requires forall i, j :: 0 <= i < j < |tasks| ==> tasks[i].node != tasks[j].node
      ensures map[] in Filing()
    {
      NoContents(tree);
      FilingIs(map[]);
    }

    lemma NothingRun()
      requires nodes == set i | 0 <= i < |tasks| :: tasks[i].node
      requires forall i, j :: 0 <= i < j < |tasks| ==> tasks[i] != tasks[j] && tasks[i].node != tasks[j].node
      requires forall i :: 0 <= i < |tasks| ==> tasks[i].status == Init && tasks[i].pid == 0 && tasks[i].startCount == 0
      requires process.kids == map[] && !process.pending && !process.blocked && !process.child && map[] in Filing()
      ensures exists s :: Initial(s) && Valid(s)
    {
      var views := seq(|tasks|, i requires 0 <= i < |tasks| reads tasks,
        set j | 0 <= j < |tasks| :: tasks[j].node => tasks[i].View());
      var s := State(Boot, views, map[], map[], false, false, false, 0, 0);
      ReachesSelf(s);
      RecordedIs(views);
      ValidIs(s);
      assert Initial(s) && Valid(s);
    }

    /** A task that is about to be run, or has just been forked, is not in the tree. */
    lemma NotListed(s: State, i: nat)
      requires Valid(s) && i < |tasks| && (AboutToRun(s, i) || (s.pc.Adding? && s.pc.task == i))
      ensures tasks[i].node !in Nodes(tree.shape) && tasks[i].node != tree.sentinel && Nodes(tree.shape) <= nodes
    {
      ValidIs(s);
      RecordedIs(s.tasks);
      FilingIs(s.index);
      NoEntry(s, i);
      Unlisted(tree, NodesOf(tasks), s.index, i);
    }

    lemma RecordedIs(ts: seq<Task>)
      ensures ts in Recorded() <==> Fields(tasks, nodes, ts)
    {
      assert Opened(true);
    }

    lemma FilingIs(index: map<int, nat>)
      ensures index in Filing() <==>
        tree.sentinel !in nodes && Nodes(tree.shape) <= nodes && Indexed(tree, NodesOf(tasks), index)
    {
      assert Opened(true);
    }

    method ResetRecord(task: TaskRec, i: nat, ghost ts: seq<Task>)
      requires ts in Recorded() && i < |tasks| == |ts| && tasks[i] == task
      modifies task`pid, task`status
      ensures ts[i := Machine.Reset(ts[i])] in Recorded() && task.status == Finished
    {
      RecordedIs(ts);
      task.Reset();
      RecordedIs(ts[i := Machine.Reset(ts[i])]);
    }

    method ForkedRecord(task: TaskRec, i: nat, pid: int, ghost ts: seq<Task>)
      requires ts in Recorded() && i < |tasks| == |ts| && tasks[i] == task && 0 < pid <= MAX_PID
      modifies task`pid, task`status, task`startCount, task.node`key
      ensures ts[i := Machine.Forked(ts[i], pid)] in Recorded() && task.status == Running && task.pid == pid
    {
      RecordedIs(ts);
      task.Forked(pid);
      RecordedIs(ts[i := Machine.Forked(ts[i], pid)]);
    }

    lemma TaskCount(s: State)
      requires Records(s)
      ensures |s.tasks| == |tasks|
    {
      RecordedIs(s.tasks);
    }

    /** Runs the task: a reset, and a fork if the task can be run. */
    method TaskRun(task: TaskRec, i: nat, ghost s: State) returns (ok: bool, ghost s': State)
      requires Records(s) && i < |tasks| && tasks[i] == task && AboutToRun(s, i)
      modifies process`kids, process`pending, process`child, process`exits, process`pauses, process`asked, task`pid,
        task`status, task`startCount,
        task.node`key
      ensures Records(s') && Onward(s, s') && s'.index == s.index && process.Budget() <= old(process.Budget())
      ensures s'.pc == Tried(ok, s.pc.Starting?, i) && SameCounts(s, s')
      ensures Answered(task.runnable, process.world.Answer(old(process.asked)), old(process.kids.Keys),
        old(process.asked), ok, task.pid, process.kids.Keys, process.asked)
      ensures (ok <==> task.status == Running) && (!task.runnable ==> !ok)
      ensures process.sleeps == old(process.sleeps)
      ensures Kept(process.world, old(process.asked), s, process.asked, s')
    {
      TaskCount(s);
      RecordedIs(s.tasks);
      ghost var ts := s.tasks[i := Machine.Reset(s.tasks[i])];
      ResetRecord(task, i, s.tasks);
      assert ts in Recorded();
      var pid;
      pid, s' := process.Attempt(task.runnable, i, s);
      assert ts in Recorded();
      RanTasks(i, pid, s, s');
      ok := pid != -1;
      if ok {
        ForkedRecord(task, i, pid, ts);
      }
      assert s'.tasks in Recorded();
    }

    /** Running a task that is not in the tree leaves the tree alone. */
    method RunApart(task: TaskRec, i: nat, ghost s: State) returns (ok: bool, ghost s': State)
      requires Records(s) && i < |tasks| && tasks[i] == task && AboutToRun(s, i)
      requires task.node !in Nodes(tree.shape) && task.node != tree.sentinel && Nodes(tree.shape) <= nodes
      modifies process`kids, process`pending, process`child, process`exits, process`pauses, process`asked, task`pid,
        task`status, task`startCount,
        task.node`key
      ensures Filing() == old(Filing())
      ensures Records(s') && Onward(s, s') && s'.index == s.index && process.Budget() <= old(process.Budget())
      ensures s'.pc == Tried(ok, s.pc.Starting?, i) && SameCounts(s, s')
      ensures Answered(task.runnable, process.world.Answer(old(process.asked)), old(process.kids.Keys),
        old(process.asked), ok, task.pid, process.kids.Keys, process.asked)
      ensures (ok <==> task.status == Running) && (!task.runnable ==> !ok)
      ensures process.sleeps == old(process.sleeps)
      ensures Kept(process.world, old(process.asked), s, process.asked, s')
    {
      ghost var listed := Nodes(tree.shape);
      ok, s' := TaskRun(task, i, s);
      assert unchanged(tree) && unchanged(tree.sentinel);
      assert unchanged(listed);
    }

    method RunUnlisted(task: TaskRec, i: nat, ghost s: State) returns (ok: bool, ghost s': State)
      requires Valid(s) && i < |tasks| && tasks[i] == task && AboutToRun(s, i)
      modifies process`kids, process`pending, process`child, process`exits, process`pauses, process`asked, task`pid,
        task`status, task`startCount,
        task.node`key
      ensures Valid(s') && Onward(s, s') && process.Budget() <= old(process.Budget())
      ensures s'.pc == Tried(ok, s.pc.Starting?, i) && SameCounts(s, s')
      ensures Answered(task.runnable, process.world.Answer(old(process.asked)), old(process.kids.Keys),
        old(process.asked), ok, task.pid, process.kids.Keys, process.asked)
      ensures (ok <==> task.status == Running) && (!task.runnable ==> !ok)
      ensures process.sleeps == old(process.sleeps)
      ensures Kept(process.world, old(process.asked), s, process.asked, s')
    {
      ValidIs(s);
      NotListed(s, i);
      ok, s' := RunApart(task, i, s);
      ValidIs(s');
    }

    method Enter(i: nat, ghost ts: seq<Task>, ghost index: map<int, nat>)
      requires ts in Recorded() && index in Filing() && i < |tasks| == |ts| && tasks[i].node !in Nodes(tree.shape)
      requires ts[i].key !in index && 0 < ts[i].key <= MAX_PID
      modifies tree`root, tree`shape, tree`turns, nodes`left, nodes`right, nodes`parent, nodes`red
      ensures ts in Recorded() && index[ts[i].key := i] in Filing() && tasks[i].node in Nodes(tree.shape)
    {
      RecordedIs(ts);
      FilingIs(index);
      FileTask(tree, tasks, nodes, i, ts, index);
      RecordedIs(ts);
      FilingIs(index[ts[i].key := i]);
    }

    method Leave(i: nat, ghost ts: seq<Task>, ghost index: map<int, nat>)
      requires ts in Recorded() && index in Filing() && i < |tasks| == |ts|
      requires ts[i].key in index && index[ts[i].key] == i && forall j :: j in index && index[j] == i ==> j == ts[i].key
      modifies tree`root, tree`shape, tree`turns, nodes`left, nodes`right, nodes`parent, nodes`red, tasks[i].node`key,
        tree.sentinel`parent, tree.sentinel`red
      ensures ts[i := ts[i].(key := 0)] in Recorded() && index - {ts[i].key} in Filing()
      ensures tasks[i].node !in Nodes(tree.shape)
    {
      RecordedIs(ts);
      FilingIs(index);
      TakeOut(tree, tasks, nodes, i, ts, index);
      RecordedIs(ts[i := ts[i].(key := 0)]);
      FilingIs(index - {ts[i].key});
    }

    /** Filing a node, as the machine does it. */
    method EnterStep(i: nat, ghost s: State, ghost s': State)
      requires Valid(s) && i < |tasks| == |s.tasks| && tasks[i].node !in Nodes(tree.shape)
      requires Reachable(s') && SameKernel(s, s') && s'.tasks == s.tasks
      requires var k := s.tasks[i].key; k !in s.index && 0 < k <= MAX_PID && s'.index == s.index[k := i]
      modifies tree`root, tree`shape, tree`turns, nodes`left, nodes`right, nodes`parent, nodes`red
      ensures Valid(s') && tasks[i].node in Nodes(tree.shape)
    {
      ValidIs(s);
      Enter(i, s.tasks, s.index);
      ValidIs(s');
    }

    method AddNode(task: TaskRec, i: nat, ghost s: State) returns (ghost s': State)
      requires Valid(s) && i < |tasks| && tasks[i] == task && s.pc.Adding? && s.pc.task == i
      modifies tree`root, tree`shape, tree`turns, nodes`left, nodes`right, nodes`parent, nodes`red
      ensures Valid(s') && Onward(s, s') && SameCounts(s, s') && s'.pc == Resumed(s.pc.starting, i)
      ensures task.node in Nodes(tree.shape)
      ensures process.sleeps == old(process.sleeps)
      ensures Kept(process.world, old(process.asked), s, process.asked, s')
    {
      ValidIs(s);
      TaskCount(s);
      NotListed(s, i);
      s' := AddStep(s);
      KeptSame(process.world, process.asked, s, s');
      EnterStep(i, s, s');
    }

    /** Taking a node out, as the machine does it. */
    method LeaveStep(i: nat, ghost s: State, ghost s': State)
      requires Valid(s) && i < |tasks| == |s.tasks|
      requires Reachable(s') && SameKernel(s, s') && s'.tasks == s.tasks[i := s.tasks[i].(key := 0)]
      requires var k := s.tasks[i].key; k in s.index && s.index[k] == i && s'.index == s.index - {k}
      requires forall j :: j in s.index && s.index[j] == i ==> j == s.tasks[i].key
      modifies tree`root, tree`shape, tree`turns, nodes`left, nodes`right, nodes`parent, nodes`red, tasks[i].node`key,
        tree.sentinel`parent, tree.sentinel`red
      ensures Valid(s') && tasks[i].node !in Nodes(tree.shape)
    {
      ValidIs(s);
      Leave(i, s.tasks, s.index);
      ValidIs(s');
    }

    method RemoveNode(task: TaskRec, i: nat, ghost s: State) returns (ghost s': State)
      requires Valid(s) && i < |tasks| && tasks[i] == task && s.pc == Removing(i)
      modifies tree`root, tree`shape, tree`turns, nodes`left, nodes`right, nodes`parent, nodes`red, task.node`key,
        tree.sentinel`parent, tree.sentinel`red
      ensures Valid(s') && Onward(s, s') && SameCounts(s, s') && s'.pc == Restarting(i)
      ensures task.node !in Nodes(tree.shape)
      ensures Kept(process.world, old(process.asked), s, process.asked, s')
    {
      ValidIs(s);
      TaskCount(s);
      s' := RemoveStep(s);
      KeptStill(process.world, process.asked, s, s');
      LeaveStep(i, s, s');
    }

    /** A task that is in the tree has a name and a path. */
    lemma MustRun(s: State, i: nat)
      requires Records(s) && i < |tasks| && s.pc == Removing(i)
      ensures tasks[i].runnable
    {
      RecordedIs(s.tasks);
      ReachableInv(s);
      assert tasks[i].View() == s.tasks[i];
    }

    /** Removes the task's node, runs the task again and, if that worked, files the node anew. */
    method RestartTask(task: TaskRec, i: nat, ghost s: State) returns (ok: bool, ghost s': State)
      requires Valid(s) && i < |tasks| && tasks[i] == task && s.pc == Removing(i)
      modifies tree`root, tree`shape, tree`turns, nodes`left, nodes`right, nodes`parent, nodes`red, task.node`key,
        tree.sentinel`parent, tree.sentinel`red, process`kids, process`pending, process`child, process`exits,
          process`pauses, process`asked, task`pid, task`status, task`startCount
      ensures Valid(s') && Onward(s, s') && SameCounts(s, s') && s'.pc == Reaping &&
        process.Budget() <= old(process.Budget())
      ensures (ok <==> task.status == Running) && (ok <==> task.node in Nodes(tree.shape)) && (!task.runnable ==> !ok)
      ensures Answered(task.runnable, process.world.Answer(old(process.asked)), old(process.kids.Keys),
        old(process.asked), ok, task.pid, process.kids.Keys, process.asked)
      ensures task.runnable
      ensures Kept(process.world, old(process.asked), s, process.asked, s')
    {
      ValidIs(s);
      MustRun(s, i);
      ghost var s1 := RemoveNode(task, i, s);
      ValidIs(s1);
      TaskCount(s1);
      ghost var s2;
      ok, s2 := RunUnlisted(task, i, s1);
      Then(s, s1, s2);
      KeptOn(process.world, old(process.asked), s, old(process.asked), s1, process.asked, s2);
      if ok {
        s' := AddNode(task, i, s2);
        Then(s, s2, s');
        KeptOn(process.world, old(process.asked), s, process.asked, s2, process.asked, s');
      } else {
        s' := s2;
      }
    }

    /** The record in which a node is embedded. */
    method Entry(node: Node) returns (i: nat)
      requires node in NodesOf(tasks)
      ensures i < |tasks| && tasks[i].node == node
    {
      i := 0;
      while tasks[i].node != node
        invariant i < |tasks| && node in NodesOf(tasks)[i..]
        decreases |tasks| - i
      {
        i := i + 1;
      }
    }

    /** The task whose node is filed under the pid, or none. */
    method FindTask(pid: int, ghost s: State) returns (found: bool, i: nat)
      requires Filed(s) && 0 < pid <= MAX_PID
      ensures found <==> pid in s.index
      ensures found ==> i < |tasks| && s.index[pid] == i
    {
      FilingIs(s.index);
      assert pid in s.index ==> Elem(NodesOf(tasks)[s.index[pid]], KeyOf(pid)) in tree.Contents();
      var node, steps := tree.Lookup(KeyOf(pid));
      found, i := node != null, 0;
      if found {
        i := Entry(node);
      }
    }

    /** The record in which a list entry is embedded. */
    method ListEntry(pos: List.ListHead, ghost i: nat) returns (j: nat)
      requires i < |tasks| && tasks[i].list == pos
      requires forall k, l :: 0 <= k < l < |tasks| ==> tasks[k].list != tasks[l].list
      ensures j == i
    {
      j := 0;
      while tasks[j].list != pos
        invariant j <= i
        decreases i - j
      {
        j := j + 1;
      }
    }

    /** How many of the first `n` tasks can be run. */
    function Runnable(n: nat): nat
      requires n <= |tasks|
    {
      if n == 0 then 0 else Runnable(n - 1) + if tasks[n - 1].runnable then 1 else 0
    }

    /** Every task has been tried: it runs and has been started once, or it is finished and has
        not been started. */
    ghost predicate AllStartedOnce()
      reads tasks
    {
      forall i :: 0 <= i < |tasks| ==>
        if tasks[i].status == Running then tasks[i].startCount == 1
        else tasks[i].status == Finished && tasks[i].startCount == 0
    }

    lemma StartedOnce(s: State)
      requires Records(s) && s.pc == Starting(|tasks|)
      ensures AllStartedOnce()
    {
      RecordedIs(s.tasks);
      ReachableInv(s);
      forall i | 0 <= i < |tasks|
        ensures tasks[i].View() == s.tasks[i]
        ensures s.tasks[i].starts == (if s.tasks[i].status == Running then 1 else 0) && s.tasks[i].status != Init
      {
      }
    }

    /** What the position in the list says of the tasks. */
    lemma AtTask(head: List.ListHead, pos: List.ListHead, i: nat)
      requires List.Distinct(head, ListsOf(tasks)) && i <= |tasks| && pos == List.At(head, ListsOf(tasks), i + 1)
      ensures pos == head ==> i == |tasks|
      ensures pos != head ==> i < |tasks| && tasks[i].list == pos
    {
      List.AtEntry(head, ListsOf(tasks), i);
    }

    /** The first `i` tasks have been tried since `s0`, when fork had been asked `asked` times. */
    ghost predicate Begun(s0: State, slept: nat, asked: nat, i: nat, s: State)
      reads tasks, tree, tree.sentinel, nodes, Nodes(tree.shape)
      reads process`kids, process`pending, process`blocked, process`child, process`asked, process`sleeps
    {
      forall x: bool {:trigger Opened(x)} :: Opened(x) ==>
        && Valid(s) && Onward(s0, s) && SameCounts(s0, s) && s.pc == Starting(i) && i <= |tasks|
        && process.sleeps == slept && process.asked == asked + Runnable(i)
        && Kept(process.world, asked, s0, process.asked, s)
    }

    lemma BegunIs(s0: State, slept: nat, asked: nat, i: nat, s: State)
      ensures Begun(s0, slept, asked, i, s) <==>
        && Valid(s) && Onward(s0, s) && SameCounts(s0, s) && s.pc == Starting(i) && i <= |tasks|
        && process.sleeps == slept && process.asked == asked + Runnable(i)
        && Kept(process.world, asked, s0, process.asked, s)
    {
      assert Opened(true);
    }

    /** Starts the tasks on a list that is not empty. */
    method StartListed(head: List.ListHead, ghost ls: seq<List.ListHead>, ghost s: State) returns (ghost s': State)
      requires Begun(s, process.sleeps, process.asked, 0, s) && ls == ListsOf(tasks) && List.Ring(head, ls)
      modifies tree`root, tree`shape, tree`turns, nodes`left, nodes`right, nodes`parent, nodes`red, nodes`key,
        process`kids, process`pending, process`child, process`exits, process`pauses, process`asked, tasks`pid,
          tasks`status, tasks`startCount
      ensures Begun(s, old(process.sleeps), old(process.asked), |tasks|, s')
    {
      s' := s;
      DifferentLists(head);
      assert List.Linked(head, ls, 0);
      var pos := head.next;
      ghost var i := 0;
      while pos != head
        invariant i <= |tasks| && pos == List.At(head, ls, i + 1)
        invariant Begun(s, old(process.sleeps), old(process.asked), i, s')
        decreases |tasks| - i
      {
        AtTask(head, pos, i);
        assert old(List.Linked(head, ls, i + 1));
        s' := StartAt(pos, i, s, old(process.sleeps), old(process.asked), s');
        pos, i := pos.next, i + 1;
      }
      AtTask(head, pos, i);
    }

    method StartEach(head: List.ListHead, ghost s: State) returns (ghost s': State)
      requires Valid(s) && s.pc == Starting(0) && List.Ring(head, ListsOf(tasks))
      modifies tree`root, tree`shape, tree`turns, nodes`left, nodes`right, nodes`parent, nodes`red, nodes`key,
        process`kids, process`pending, process`child, process`exits, process`pauses, process`asked, tasks`pid,
          tasks`status, tasks`startCount
      ensures Valid(s') && Onward(s, s') && SameCounts(s, s') && s'.pc == Starting(|tasks|)
      ensures process.asked == old(process.asked) + Runnable(|tasks|)
      ensures AllStartedOnce()
      ensures process.sleeps == old(process.sleeps)
      ensures Kept(process.world, old(process.asked), s, process.asked, s')
    {
      ValidIs(s);
      Same(s);
      KeptSame(process.world, process.asked, s, s);
      BegunIs(s, process.sleeps, process.asked, 0, s);
      var empty := List.Empty(head, ListsOf(tasks));
      if empty {
        s' := s;
      } else {
        s' := StartListed(head, ListsOf(tasks), s);
      }
      BegunIs(s, old(process.sleeps), old(process.asked), |tasks|, s');
      ValidIs(s');
      StartedOnce(s');
    }

    /** Goes along the list of tasks and starts each one; the list stays as it is. */
    method StartTasks(head: List.ListHead, ghost s: State) returns (ghost s': State)
      requires Valid(s) && s.pc == Starting(0) && List.Ring(head, ListsOf(tasks))
      modifies tree`root, tree`shape, tree`turns, nodes`left, nodes`right, nodes`parent, nodes`red, nodes`key,
        process`kids, process`pending, process`child, process`exits, process`pauses, process`asked, tasks`pid,
          tasks`status, tasks`startCount
      ensures Valid(s') && Onward(s, s') && SameCounts(s, s') && s'.pc == Starting(|tasks|)
      ensures process.asked == old(process.asked) + Runnable(|tasks|)
      ensures AllStartedOnce() && List.Ring(head, ListsOf(tasks))
      ensures process.sleeps == old(process.sleeps)
      ensures Kept(process.world, old(process.asked), s, process.asked, s')
    {
      ghost var ls := ListsOf(tasks);
      s' := StartEach(head, s);
      forall i: nat | i <= |ls|
        ensures List.Linked(head, ls, i)
      {
        assert old(List.Linked(head, ls, i));
      }
    }

    /** The task at one position of the list. */
    method StartAt(pos: List.ListHead, ghost i: nat, ghost s0: State, ghost slept: nat, ghost asked: nat,
      ghost s: State)
      returns (ghost s': State)
      requires Begun(s0, slept, asked, i, s) && i < |tasks| && tasks[i].list == pos
      requires forall k, l :: 0 <= k < l < |tasks| ==> tasks[k].list != tasks[l].list
      modifies tree`root, tree`shape, tree`turns, nodes`left, nodes`right, nodes`parent, nodes`red, nodes`key,
        process`kids, process`pending, process`child, process`exits, process`pauses, process`asked, tasks`pid,
          tasks`status, tasks`startCount
      ensures Begun(s0, slept, asked, i + 1, s')
    {
      var j := ListEntry(pos, i);
      s' := StartTurn(tasks[j], j, s0, slept, asked, s);
    }

    /** The next task on the list. */
    method StartTurn(task: TaskRec, i: nat, ghost s0: State, ghost slept: nat, ghost asked: nat,
      ghost s: State)
      returns (ghost s': State)
      requires Begun(s0, slept, asked, i, s) && i < |tasks| && tasks[i] == task
      modifies tree`root, tree`shape, tree`turns, nodes`left, nodes`right, nodes`parent, nodes`red, nodes`key,
        process`kids, process`pending, process`child, process`exits, process`pauses, process`asked, tasks`pid,
          tasks`status, tasks`startCount
      ensures Begun(s0, slept, asked, i + 1, s')
    {
      BegunIs(s0, slept, asked, i, s);
      s' := StartTask(task, i, s0, s);
      KeptOn(process.world, asked, s0, old(process.asked), s, process.asked, s');
      BegunIs(s0, slept, asked, i + 1, s');
    }

    lemma DifferentLists(head: List.ListHead)
      requires List.Distinct(head, ListsOf(tasks))
      ensures forall i, j :: 0 <= i < j < |tasks| ==> tasks[i].list != tasks[j].list
    {
      var ls := ListsOf(tasks);
      forall i, j | 0 <= i < j < |tasks|
        ensures tasks[i].list != tasks[j].list
      {
        assert ls[i] != ls[j];
      }
    }

    /** One task is started and, if that worked, its node is filed. */
    method StartTask(task: TaskRec, i: nat, ghost s0: State, ghost s: State) returns (ghost s': State)
      requires Valid(s) && Onward(s0, s) && i < |tasks| && tasks[i] == task && s.pc == Starting(i)
      modifies tree`root, tree`shape, tree`turns, nodes`left, nodes`right, nodes`parent, nodes`red, nodes`key,
        process`kids, process`pending, process`child, process`exits, process`pauses, process`asked, tasks`pid,
          tasks`status, tasks`startCount
      ensures Valid(s') && Onward(s0, s') && s'.pc == Starting(i + 1) && SameCounts(s, s')
      ensures Answered(task.runnable, process.world.Answer(old(process.asked)), old(process.kids.Keys),
        old(process.asked), task.status == Running, task.pid, process.kids.Keys, process.asked)
      ensures process.sleeps == old(process.sleeps)
      ensures Kept(process.world, old(process.asked), s, process.asked, s')
    {
      ValidIs(s);
      RecordedIs(s.tasks);
      TaskCount(s);
      var ok;
      ok, s' := RunUnlisted(task, i, s);
      Then(s0, s, s');
      if ok {
        ghost var s1 := s';
        s' := AddNode(task, i, s1);
        Then(s0, s1, s');
        KeptOn(process.world, old(process.asked), s, process.asked, s1, process.asked, s');
      }
    }

    /** A child has been reaped: its task is looked up and restarted. */
    method HandleExit(pid: int, ghost s: State) returns (ghost s': State)
      requires Valid(s) && s.pc.Reaped? && s.pc.pid == pid && 0 < pid <= MAX_PID
      modifies tree`root, tree`shape, tree`turns, nodes`left, nodes`right, nodes`parent, nodes`red, nodes`key,
        tree.sentinel`parent, tree.sentinel`red, process`kids, process`pending, process`child, process`exits,
          process`pauses, process`asked, tasks`pid, tasks`status, tasks`startCount
      ensures Valid(s') && Onward(s, s') && SameCounts(s, s') && s'.pc == Reaping &&
        process.Budget() <= old(process.Budget())
      ensures process.asked == old(process.asked) + 1
      ensures Kept(process.world, old(process.asked), s, process.asked, s')
    {
      ValidIs(s);
      RecordedIs(s.tasks);
      ghost var s1 := LookUpStep(s);
      var found, i := FindTask(pid, s);
      if !found {
        assert false;
        return;
      }
      StillValid(s, s1);
      var ok;
      ok, s' := RestartTask(tasks[i], i, s1);
      KeptSame(process.world, old(process.asked), s, s1);
      KeptOn(process.world, old(process.asked), s, old(process.asked), s1, process.asked, s');
      Then(s, s1, s');
    }

    ghost predicate NoneDead()
      reads process`kids
    {
      forall p :: p in process.kids ==> !process.kids[p].dead
    }

    method Wait(ghost s: State) returns (pid: int, ghost s': State)
      requires Valid(s) && s.pc == Reaping
      modifies process`kids, process`pending, process`child, process`exits, process`pauses
      ensures Valid(s') && Onward(s, s')
      ensures pid > 0 ==>
        pid <= MAX_PID && s'.pc.Reaped? && s'.pc.pid == pid && process.Budget() < old(process.Budget())
      ensures pid <= 0 ==> s'.pc == Asleep
      ensures s'.wakes == s.wakes && s'.reaped == s.reaped + if pid > 0 then 1 else 0
      ensures pid <= 0 ==> NoneDead()
      ensures Kept(process.world, process.asked, s, process.asked, s')
    {
      ValidIs(s);
      pid, s' := process.Wait(s);
      assert s'.tasks in Recorded() && s'.index in Filing();
      ValidIs(s');
    }

    /** One turn of the reap loop. */
    method ReapOne(ghost s: State) returns (more: bool, ghost s': State)
      requires Valid(s) && s.pc == Reaping
      modifies tree`root, tree`shape, tree`turns, nodes`left, nodes`right, nodes`parent, nodes`red, nodes`key,
        tree.sentinel`parent, tree.sentinel`red, process`kids, process`pending, process`child, process`exits,
          process`pauses, process`asked, tasks`pid, tasks`status, tasks`startCount
      ensures Valid(s') && Onward(s, s') && s'.pc == if more then Reaping else Asleep
      ensures more ==> process.Budget() < old(process.Budget())
      ensures s'.wakes == s.wakes && process.asked - old(process.asked) == s'.reaped - s.reaped
      ensures !more ==> NoneDead()
      ensures Kept(process.world, old(process.asked), s, process.asked, s')
    {
      var pid;
      pid, s' := Wait(s);
      if pid == 0 {
        return false, s';
      } else if pid < 0 {
        return false, s';
      }
      ghost var s1 := s';
      s' := HandleExit(pid, s1);
      Then(s, s1, s');
      KeptOn(process.world, old(process.asked), s, old(process.asked), s1, process.asked, s');
      more := true;
    }

    /** Reaps until waitpid has nothing more, restarting each task as its child is reaped.
        The loop ends because the children can exit only so often. */
    method EventHandler(ghost s: State) returns (ghost s': State)
      requires Valid(s) && s.pc == Woken
      modifies tree`root, tree`shape, tree`turns, nodes`left, nodes`right, nodes`parent, nodes`red, nodes`key,
        tree.sentinel`parent, tree.sentinel`red, process`kids, process`pending, process`child, process`exits,
          process`pauses, process`asked, tasks`pid, tasks`status, tasks`startCount
      ensures Valid(s') && Onward(s, s') && s'.pc == Asleep
      ensures s'.wakes == s.wakes + 1 && process.asked - old(process.asked) == s'.reaped - s.reaped
      ensures (old(process.child) ==> process.child) && (process.child ==> NoneDead())
      ensures Kept(process.world, old(process.asked), s, process.asked, s')
    {
      ValidIs(s);
      s' := FlagStep(s);
      StillValid(s, s');
      KeptSame(process.world, process.asked, s, s');
      if !process.child {
        return;
      }
      var more := true;
      while more
        invariant Valid(s') && Onward(s, s') && s'.pc == if more then Reaping else Asleep
        invariant s'.wakes == s.wakes + 1 && process.asked - old(process.asked) == s'.reaped - s.reaped
        invariant !more ==> NoneDead()
        invariant Kept(process.world, old(process.asked), s, process.asked, s')
        decreases more, process.Budget()
      {
        ghost var s1, asked := s', process.asked;
        more, s' := ReapOne(s1);
        Then(s, s1, s');
        KeptOn(process.world, old(process.asked), s, asked, s1, process.asked, s');
      }
      FlagStays(s, s');
      ValidIs(s');
    }

    /** A round, and the end of the program if the callback says so. */
    method RoundOrStop(stop: bool, ghost s0: State, ghost s: State) returns (ghost s': State)
      requires Valid(s) && Onward(s0, s) && s.pc == Asleep
      modifies tree, tree.sentinel, nodes, process, tasks
      ensures Valid(s') && Onward(s0, s') && s'.pc == (if stop then Stopped else Asleep)
      ensures s'.wakes == s.wakes + 1 && process.sleeps == old(process.sleeps) + 1
      ensures process.asked - old(process.asked) == s'.reaped - s.reaped
      ensures Kept(process.world, old(process.asked), s, process.asked, s')
    {
      s' := Round(s);
      Then(s0, s, s');
      if stop {
        ghost var s1 := s';
        ValidIs(s1);
        s' := StopStep(s1);
        StillValid(s1, s');
        KeptSame(process.world, process.asked, s1, s');
        KeptOn(process.world, old(process.asked), s, process.asked, s1, process.asked, s');
        Then(s0, s1, s');
      }
    }

    /** The rounds after the start. */
    method Rounds(stops: seq<bool>, ghost s: State) returns (ghost s': State, ghost woken: nat)
      requires Valid(s) && s.pc == Asleep
      modifies tree, tree.sentinel, nodes, process, tasks
      ensures Valid(s') && Onward(s, s') && woken <= |stops|
      ensures process.sleeps == old(process.sleeps) + woken && s'.wakes == s.wakes + woken
      ensures woken > 0 ==> Going(stops, woken - 1)
      ensures s'.pc == (if woken > 0 && stops[woken - 1] then Stopped else Asleep)
      ensures s'.pc == Asleep ==> woken == |stops|
      ensures process.asked - old(process.asked) == s'.reaped - s.reaped
      ensures Kept(process.world, old(process.asked), s, process.asked, s')
    {
      s' := s;
      ValidIs(s);
      Same(s);
      KeptSame(process.world, process.asked, s, s);
      var i, stop := 0, false;
      while i < |stops| && !stop
        invariant Valid(s') && Onward(s, s') && s'.pc == (if stop then Stopped else Asleep)
        invariant 0 <= i <= |stops| && stop == (i > 0 && stops[i - 1]) && (i > 0 ==> Going(stops, i - 1))
        invariant s'.wakes == s.wakes + i && process.sleeps == old(process.sleeps) + i
        invariant process.asked - old(process.asked) == s'.reaped - s.reaped
        invariant Kept(process.world, old(process.asked), s, process.asked, s')
        decreases |stops| - i
      {
        stop := stops[i];
        i := i + 1;
        ghost var s1, asked := s', process.asked;
        s' := RoundOrStop(stop, s, s1);
        KeptOn(process.world, old(process.asked), s, asked, s1, process.asked, s');
      }
      woken := i;
    }

    /** From the start of the program: the children have their pids from fork, and if fork never
        failed, every task that can be run is running. */
    lemma NoneLost(s: State, asked: nat, s': State)
      requires Reachable(s) && s.pc == Boot && Valid(s') && (s'.pc == Asleep || s'.pc == Stopped)
      requires Kept(process.world, asked, s, process.asked, s')
      ensures Generous(process.world, asked, process.asked, {}) ==>
        forall i :: 0 <= i < |tasks| && tasks[i].runnable ==> tasks[i].status == Running
      ensures forall p :: p in process.kids ==>
        exists n :: asked <= n < process.asked && process.world.Answer(n) == p
    {
      ValidIs(s');
      RecordedIs(s'.tasks);
      KeptIs(process.world, asked, s, process.asked, s');
      ReachableInv(s);
      ReachableInv(s');
      forall i | 0 <= i < |tasks|
        ensures tasks[i].View() == s'.tasks[i] && s'.tasks[i].status != Init && s.tasks[i].status == Init
      {
      }
    }

    /** The whole run, for any number of times that pselect wakes up: block the signals, start
        the tasks, and then sleep and reap until told to stop.  `stops` says for each of the rounds
        looked at whether the callback ends the program after it. */
    method Run(head: List.ListHead, stops: seq<bool>, ghost s: State)
      returns (ghost s': State, ghost woken: nat)
      requires Valid(s) && s.pc == Boot && List.Ring(head, ListsOf(tasks))
      modifies tree, tree.sentinel, nodes, process, tasks
      ensures Valid(s') && Onward(s, s') && woken <= |stops|
      ensures process.sleeps == old(process.sleeps) + woken
      ensures exists es :: Trace(s, es, s') && Wakes(es) == woken
      ensures forall i :: 0 <= i < woken - 1 ==> !stops[i]
      ensures s'.pc == (if woken > 0 && stops[woken - 1] then Stopped else Asleep)
      ensures s'.pc == Asleep ==> woken == |stops|
      ensures process.asked - old(process.asked) == Runnable(|tasks|) + s'.reaped - s.reaped
      ensures Kept(process.world, old(process.asked), s, process.asked, s')
      ensures Generous(process.world, old(process.asked), process.asked, {}) ==>
        forall i :: 0 <= i < |tasks| && tasks[i].runnable ==> tasks[i].status == Running
      ensures forall p :: p in process.kids ==>
        exists n :: old(process.asked) <= n < process.asked && process.world.Answer(n) == p
    {
      ghost var s1 := Begin(head, s);
      ghost var asked := process.asked;
      s', woken := Rounds(stops, s1);
      KeptOn(process.world, old(process.asked), s, asked, s1, process.asked, s');
      Then(s, s1, s');
      RunWakes(s, s');
      if woken > 0 {
        GoingMeans(stops, woken - 1);
      }
      NoneLost(s, old(process.asked), s');
    }

    /** The signals are blocked; nothing else happens. */
    method BlockSignals(head: List.ListHead, ghost s: State) returns (ghost s': State)
      requires Valid(s) && s.pc == Boot && List.Ring(head, ListsOf(tasks))
      modifies process`blocked
      ensures Valid(s') && Onward(s, s') && SameCounts(s, s') && s'.pc == Starting(0)
      ensures List.Ring(head, ListsOf(tasks))
      ensures process.sleeps == old(process.sleeps)
      ensures Kept(process.world, old(process.asked), s, process.asked, s')
    {
      ValidIs(s);
      s' := process.Mask(s);
      ValidIs(s');
    }

    /** Everything up to the first time the supervisor sleeps. */
    method Begin(head: List.ListHead, ghost s: State) returns (ghost s': State)
      requires Valid(s) && s.pc == Boot && List.Ring(head, ListsOf(tasks))
      modifies tree, tree.sentinel, nodes, process, tasks
      ensures Valid(s') && Onward(s, s') && s'.pc == Asleep
      ensures SameCounts(s, s') && process.sleeps == old(process.sleeps)
      ensures process.asked == old(process.asked) + Runnable(|tasks|)
      ensures Kept(process.world, old(process.asked), s, process.asked, s')
    {
      ghost var s1 := BlockSignals(head, s);
      ghost var s2 := StartTasks(head, s1);
      Then(s, s1, s2);
      ValidIs(s2);
      TaskCount(s2);
      s' := StartedStep(s2);
      StillValid(s2, s');
      KeptSame(process.world, process.asked, s2, s');
      KeptOn(process.world, old(process.asked), s, old(process.asked), s1, process.asked, s2);
      KeptOn(process.world, old(process.asked), s, process.asked, s2, process.asked, s');
      Then(s, s2, s');
    }

    /** One wake-up from pselect and what it leads to. */
    method Round(ghost s: State) returns (ghost s': State)
      requires Valid(s) && s.pc == Asleep
      modifies tree`root, tree`shape, tree`turns, nodes`left, nodes`right, nodes`parent, nodes`red, nodes`key,
        tree.sentinel`parent, tree.sentinel`red, process`kids, process`pending, process`child, process`exits,
          process`pauses, process`asked, process`sleeps, tasks`pid, tasks`status, tasks`startCount
      ensures Valid(s') && Onward(s, s') && s'.pc == Asleep
      ensures s'.wakes == s.wakes + 1 && process.sleeps == old(process.sleeps) + 1
      ensures process.asked - old(process.asked) == s'.reaped - s.reaped
      ensures old(process.child) || (old(process.pending) && process.world.Sigchld(old(process.sleeps))) ==>
        process.child
      ensures process.child ==> NoneDead()
      ensures Kept(process.world, old(process.asked), s, process.asked, s')
    {
      ValidIs(s);
      ghost var s1 := process.PSelect(s);
      ValidIs(s1);
      s' := EventHandler(s1);
      Then(s, s1, s');
      KeptOn(process.world, old(process.asked), s, old(process.asked), s1, process.asked, s');
    }

    /** A node is in the tree under its key exactly when the index has it there. */
    lemma InTree(s: State, i: nat, k: Key)
      requires Filed(s) && i < |tasks|
      ensures Elem(tasks[i].node, k) in tree.Contents() <==> k in s.index && s.index[k] == i
    {
      FilingIs(s.index);
      assert NodesOf(tasks)[i] == tasks[i].node;
    }

    lemma RunningInTree(s: State, i: nat)
      requires Records(s) && Filed(s) && Settled(s) && i < |tasks|
      ensures tasks[i].status == Running <==> tasks[i].pid != 0
      ensures tasks[i].status == Running <==> Elem(tasks[i].node, tasks[i].node.key) in tree.Contents()
      ensures tasks[i].status == Running ==> tasks[i].node.key == tasks[i].pid
    {
      FilingIs(s.index);
      RecordedIs(s.tasks);
      IndexAgrees(s);
      InTree(s, i, tasks[i].node.key);
    }

    /** Nothing else is in the tree. */
    lemma OnlyTasks(s: State, e: Elem)
      requires Records(s) && Filed(s) && Settled(s) && e in tree.Contents()
      ensures exists i ::
        0 <= i < |tasks| && e.node == tasks[i].node && tasks[i].status == Running && e.key == tasks[i].pid
    {
      ReachableInv(s);
      FilingIs(s.index);
      RecordedIs(s.tasks);
      var i :| 0 <= i < |tasks| && e.node == NodesOf(tasks)[i];
      InTree(s, i, e.key);
      assert e == Elem(tasks[i].node, e.key);
      assert tasks[i].View() == s.tasks[i] && s.index[e.key] == i;
    }

    lemma KeysDiffer(s: State, i: nat, j: nat)
      requires Records(s) && Filed(s) && Settled(s) && i < j < |tasks|
      requires tasks[i].status == Running && tasks[j].status == Running
      ensures tasks[i].pid != tasks[j].pid
    {
      IndexAgrees(s);
      RecordedIs(s.tasks);
      assert tasks[i].View() == s.tasks[i] && tasks[j].View() == s.tasks[j];
    }

    lemma KidsInTree(s: State, p: Key)
      requires Records(s) && Filed(s) && Settled(s)
      ensures p in process.kids <==> exists i :: 0 <= i < |tasks| && Elem(tasks[i].node, p) in tree.Contents()
    {
      FilingIs(s.index);
      RecordedIs(s.tasks);
      IndexAgrees(s);
      if p in s.index {
        InTree(s, s.index[p], p);
      }
      if i :| 0 <= i < |tasks| && Elem(tasks[i].node, p) in tree.Contents() {
        InTree(s, i, p);
      }
    }

    /** What all this comes to for the fields themselves, whenever the supervisor sleeps, has
        woken up or is at the head of the reap loop: the elements of the tree are exactly the
        nodes of the running tasks, each under its pid; these keys differ, and are the children
        not reaped yet; no start is unaccounted for; and while it sleeps SIGCHLD is pending if
        any child is dead. */
    lemma WhenSettled(s: State)
      requires Valid(s) && Settled(s)
      ensures forall i :: 0 <= i < |tasks| ==>
        && (tasks[i].status == Running <==> tasks[i].pid != 0)
        && (tasks[i].status == Running <==> Elem(tasks[i].node, tasks[i].node.key) in tree.Contents())
        && (tasks[i].status == Running ==> tasks[i].node.key == tasks[i].pid)
      ensures forall e :: e in tree.Contents() ==>
        exists i :: 0 <= i < |tasks| && e.node == tasks[i].node && tasks[i].status == Running && e.key == tasks[i].pid
      ensures forall i, j :: 0 <= i < j < |tasks| && tasks[i].status == Running && tasks[j].status == Running ==>
        tasks[i].pid != tasks[j].pid
      ensures forall p: Key ::
        p in process.kids <==> exists i :: 0 <= i < |tasks| && Elem(tasks[i].node, p) in tree.Contents()
      ensures Starts(s.tasks) == |tree.Contents()| + s.reaped
      ensures s.pc == Asleep && (exists p :: p in process.kids && process.kids[p].dead) ==> process.pending
    {
      FilingIs(s.index);
      RecordedIs(s.tasks);
      ValidIs(s);
      forall i | 0 <= i < |tasks|
        ensures tasks[i].status == Running <==> tasks[i].pid != 0
        ensures tasks[i].status == Running <==> Elem(tasks[i].node, tasks[i].node.key) in tree.Contents()
        ensures tasks[i].status == Running ==> tasks[i].node.key == tasks[i].pid
      {
        RunningInTree(s, i);
      }
      forall e | e in tree.Contents()
        ensures exists i ::
          0 <= i < |tasks| && e.node == tasks[i].node && tasks[i].status == Running && e.key == tasks[i].pid
      {
        OnlyTasks(s, e);
      }
      forall i, j | 0 <= i < j < |tasks| && tasks[i].status == Running && tasks[j].status == Running
        ensures tasks[i].pid != tasks[j].pid
      {
        KeysDiffer(s, i, j);
      }
      forall p: Key
        ensures p in process.kids <==> exists i :: 0 <= i < |tasks| && Elem(tasks[i].node, p) in tree.Contents()
      {
        KidsInTree(s, p);
      }
      Conservation(s);
      if s.pc == Asleep && exists p :: p in process.kids && process.kids[p].dead {
        Pending(s);
      }
    }

    lemma Pending(s: State)
      requires Valid(s) && s.pc == Asleep && exists p :: p in process.kids && process.kids[p].dead
      ensures process.pending
    {
      ValidIs(s);
      var p :| p in process.kids && process.kids[p].dead;
      NoLostExit(s, p);
    }
  }

  /** None of the first `n` rounds ends the program. */
  predicate Going(stops: seq<bool>, n: nat)
    requires n <= |stops|
  {
    n == 0 || (!stops[n - 1] && Going(stops, n - 1))
  }

  lemma {:induction false} GoingMeans(stops: seq<bool>, n: nat)
    requires n <= |stops|
    ensures Going(stops, n) <==> forall i :: 0 <= i < n ==> !stops[i]
  {
    if n == 0 {
    } else {
      GoingMeans(stops, n - 1);
    }
  }

  lemma RunWakes(s: State, s': State)
    requires Reaches(s, s') && s.wakes <= s'.wakes
    ensures exists es :: Trace(s, es, s') && Wakes(es) == s'.wakes - s.wakes
  {
    var es := ReachesBy(s, s');
    WakesCounted(s, es, s');
  }

  lemma NoEntry(s: State, i: nat)
    requires Reachable(s) && i < |s.tasks| && (AboutToRun(s, i) || (s.pc.Adding? && s.pc.task == i))
    ensures forall k :: k in s.index ==> s.index[k] != i
  {
    ReachableInv(s);
  }

  /** Two states that differ in nothing the process can see. */
  predicate SameKernel(s: State, s': State) {
    s'.kids == s.kids && s'.pending == s.pending && s'.blocked == s.blocked && s'.child == s.child
  }

  lemma AddStep(s: State) returns (s': State)
    requires Reachable(s) && s.pc.Adding?
    ensures Onward(s, s') && s.pc.task < |s.tasks| && SameKernel(s, s')
    ensures s'.tasks == s.tasks && s'.pc == Resumed(s.pc.starting, s.pc.task)
    ensures var k := s.tasks[s.pc.task].key;
      k !in s.index && 0 < k <= MAX_PID && s'.index == s.index[k := s.pc.task]
    ensures SameCounts(s, s')
  {
    ReachableInv(s);
    Step(s, Add);
    s' := Apply(s, Add);
  }

  lemma RemoveStep(s: State) returns (s': State)
    requires Reachable(s) && s.pc.Removing?
    ensures Onward(s, s') && s.pc.task < |s.tasks| && SameKernel(s, s') && s'.pc == Restarting(s.pc.task)
    ensures var i := s.pc.task; var t := s.tasks[i];
      && s'.tasks == s.tasks[i := t.(key := 0)]
      && t.key in s.index && s.index[t.key] == i && s'.index == s.index - {t.key}
      && forall j :: j in s.index && s.index[j] == i ==> j == t.key
    ensures SameCounts(s, s')
  {
    ReachableInv(s);
    Step(s, Event.RemoveNode);
    s' := Apply(s, Event.RemoveNode);
  }

  lemma FlagStep(s: State) returns (s': State)
    requires Reachable(s) && s.pc == Woken
    ensures Onward(s, s') && SameKernel(s, s') && s'.tasks == s.tasks && s'.index == s.index
    ensures s'.pc == if s.child then Reaping else Asleep
    ensures s'.reaped == s.reaped && s'.wakes == s.wakes + 1
  {
    Step(s, CheckFlag);
    s' := Apply(s, CheckFlag);
  }

  lemma LookUpStep(s: State) returns (s': State)
    requires Reachable(s) && s.pc.Reaped?
    ensures Onward(s, s') && SameKernel(s, s') && s'.tasks == s.tasks && s'.index == s.index
    ensures s.pc.pid in s.index && s'.pc == Removing(s.index[s.pc.pid])
    ensures SameCounts(s, s')
  {
    AlwaysFound(s);
    Step(s, LookUp);
    s' := Apply(s, LookUp);
  }

  lemma ReapStep(s: State, pid: int) returns (s': State)
    requires Reachable(s) && s.pc == Reaping && pid in s.kids && s.kids[pid].dead
    ensures Onward(s, s') && s'.tasks == s.tasks && s'.index == s.index && s'.pc == Reaped(pid, s.kids[pid].task)
    ensures s'.kids == s.kids - {pid} && s'.pending == s.pending && s'.blocked == s.blocked && s'.child == s.child
    ensures 0 < pid <= MAX_PID && |Dead(s'.kids)| == |Dead(s.kids)| - 1
    ensures s'.reaped == s.reaped + 1 && s'.wakes == s.wakes
  {
    ReachableInv(s);
    Step(s, Reap(pid));
    s' := Apply(s, Reap(pid));
    assert Dead(s.kids - {pid}) == Dead(s.kids) - {pid};
  }

  lemma NoneStep(s: State) returns (s': State)
    requires Reachable(s) && s.pc == Reaping && forall p :: p in s.kids ==> !s.kids[p].dead
    ensures Onward(s, s') && SameKernel(s, s') && s'.tasks == s.tasks && s'.index == s.index && s'.pc == Asleep
    ensures SameCounts(s, s')
  {
    Step(s, NothingToReap);
    s' := Apply(s, NothingToReap);
  }

  lemma StartedStep(s: State) returns (s': State)
    requires Reachable(s) && s.pc == Starting(|s.tasks|)
    ensures Onward(s, s') && SameKernel(s, s') && s'.tasks == s.tasks && s'.index == s.index && s'.pc == Asleep
    ensures SameCounts(s, s')
  {
    Step(s, AllStarted);
    s' := Apply(s, AllStarted);
  }

  lemma StopStep(s: State) returns (s': State)
    requires Reachable(s) && s.pc == Asleep
    ensures Onward(s, s') && SameKernel(s, s') && s'.tasks == s.tasks && s'.index == s.index && s'.pc == Stopped
    ensures SameCounts(s, s')
  {
    Step(s, Stop);
    s' := Apply(s, Stop);
  }
}

/** The supervisor and the kernel as one state machine.  A step is either one step of the
    supervisor (up to and including one system call) or one exit of a child; children may
    exit between any two supervisor steps.  The tree of tasks appears as the map from keys
    to tasks that it stands for. */
module Machine {

  const MAX_PID := 0x7fff_ffff

  datatype Status = Init | Running | Finished

  /** `runnable`: the configuration gave the task a name and a path. */
  datatype Task = Task(runnable: bool, pid: int, key: int, status: Status, starts: nat)

  /** A child process that has not been reaped.  `task` is the task it was forked for; the
      kernel does not know that. */
  datatype Kid = Kid(task: nat, dead: bool)

  datatype Pc =
    | Boot                               // signals not blocked yet
    | Starting(next: nat)                // starting the tasks, `next` is to come
    | Adding(task: nat, starting: bool)  // forked, not in the tree yet
    | Asleep                             // in pselect
    | Woken                              // pselect has returned
    | Reaping                            // at the head of the reap loop
    | Reaped(pid: int, owner: nat)       // waitpid has returned `pid`, forked for `owner`
    | Removing(task: nat)                // looked up, still in the tree
    | Restarting(task: nat)              // out of the tree, to be run again
    | Stopped                            // quit or terminate

  datatype State = State(
    pc: Pc,
    tasks: seq<Task>,
    index: map<int, nat>,
    kids: map<int, Kid>,
    pending: bool,   // SIGCHLD is pending
    blocked: bool,   // SIGCHLD is blocked outside pselect
    child: bool,     // the flag that the SIGCHLD handler sets and nothing clears
    reaped: nat,
    wakes: nat)      // wake-ups from pselect that have been dealt with

  datatype Event =
    | Block
    | NotRunnable          // no name or path
    | ForkFails
    | Runs(pid: int)       // fork returned `pid`
    | Add
    | AllStarted
    | ChildSignal          // pselect lets SIGCHLD in
    | OtherSignal
    | CheckFlag
    | Reap(pid: int)
    | NothingToReap
    | LookUp
    | RemoveNode
    | Exit(pid: int)
    | Halt(pid: int)       // a child is stopped or continued, which raises SIGCHLD as well
    | Stop

  // ---------------------------------------------------------------- steps

  predicate Fresh(s: State, pid: int) {
    0 < pid <= MAX_PID && pid !in s.kids
  }

  /** The task that is about to be run. */
  predicate AboutToRun(s: State, t: nat) {
    t < |s.tasks| && (s.pc == Starting(t) || s.pc == Restarting(t))
  }

  function Subject(s: State): nat {
    match s.pc
    case Starting(t) => t
    case Restarting(t) => t
    case _ => 0
  }

  predicate SomeDead(s: State) {
    exists p :: p in s.kids && s.kids[p].dead
  }

  predicate Enabled(s: State, e: Event) {
    match e
    case Block => s.pc == Boot
    case NotRunnable => AboutToRun(s, Subject(s)) && !s.tasks[Subject(s)].runnable
    case ForkFails => AboutToRun(s, Subject(s)) && s.tasks[Subject(s)].runnable
    case Runs(pid) => AboutToRun(s, Subject(s)) && s.tasks[Subject(s)].runnable && Fresh(s, pid)
    case Add => s.pc.Adding? && s.pc.task < |s.tasks|
    case AllStarted => s.pc == Starting(|s.tasks|)
    case ChildSignal => s.pc == Asleep && s.pending
    case OtherSignal => s.pc == Asleep
    case CheckFlag => s.pc == Woken
    case Reap(pid) => s.pc == Reaping && pid in s.kids && s.kids[pid].dead
    case NothingToReap => s.pc == Reaping && !SomeDead(s)
    case LookUp => s.pc.Reaped?
    case RemoveNode => s.pc.Removing? && s.pc.task < |s.tasks|
    case Exit(pid) => pid in s.kids && !s.kids[pid].dead
    case Halt(pid) => pid in s.kids && !s.kids[pid].dead
    case Stop => s.pc == Asleep
  }

  predicate Failure(e: Event) {
    e.NotRunnable? || e.ForkFails?
  }

  /** Running a task starts by resetting it. */
  function Reset(t: Task): Task {
    t.(pid := 0, status := Finished)
  }

  function Forked(t: Task, pid: int): Task {
    t.(pid := pid, key := pid, status := Running, starts := t.starts + 1)
  }

  /** The attempt to run a task has failed; it stays reset. */
  function GiveUp(s: State): State
    requires AboutToRun(s, Subject(s))
  {
    var t := Subject(s);
    s.(pc := if s.pc.Starting? then Starting(t + 1) else Reaping, tasks := s.tasks[t := Reset(s.tasks[t])])
  }

  /** SIGCHLD stays pending while it is blocked, and is handled at once otherwise. */
  function Raise(s: State): State {
    s.(pending := s.pending || s.blocked, child := s.child || !s.blocked)
  }

  function Apply(s: State, e: Event): State
    requires Enabled(s, e)
  {
    match e
    case Block => s.(pc := Starting(0), blocked := true)
    case NotRunnable => GiveUp(s)
    case ForkFails => GiveUp(s)
    case Runs(pid) =>
      var t := Subject(s);
      s.(pc := Adding(t, s.pc.Starting?),
         tasks := s.tasks[t := Forked(s.tasks[t], pid)],
         kids := s.kids[pid := Kid(t, false)])
    case Add =>
      var t := s.pc.task;
      s.(pc := if s.pc.starting then Starting(t + 1) else Reaping,
         index := s.index[s.tasks[t].key := t])
    case AllStarted => s.(pc := Asleep)
    case ChildSignal => s.(pc := Woken, pending := false, child := true)
    case OtherSignal => s.(pc := Woken)
    case CheckFlag => s.(pc := if s.child then Reaping else Asleep, wakes := s.wakes + 1)
    case Reap(pid) => s.(pc := Reaped(pid, s.kids[pid].task), kids := s.kids - {pid}, reaped := s.reaped + 1)
    case NothingToReap => s.(pc := Asleep)
    case LookUp => s.(pc := if s.pc.pid in s.index then Removing(s.index[s.pc.pid]) else Reaping)
    case RemoveNode =>
      var t := s.pc.task;
      s.(pc := Restarting(t),
         index := s.index - {s.tasks[t].key},
         tasks := s.tasks[t := s.tasks[t].(key := 0)])
    case Exit(pid) => Raise(s.(kids := s.kids[pid := s.kids[pid].(dead := true)]))
    case Halt(pid) => Raise(s)
    case Stop => s.(pc := Stopped)
  }

  predicate Initial(s: State) {
    && s.pc == Boot && s.index == map[] && s.kids == map[] && s.reaped == 0 && s.wakes == 0
    && !s.pending && !s.blocked && !s.child
    && forall t :: 0 <= t < |s.tasks| ==> s.tasks[t].status == Init && s.tasks[t].pid == 0 && s.tasks[t].starts == 0
  }

  /** `s'` comes from `s` by the events of `es`. */
  predicate Trace(s: State, es: seq<Event>, s': State)
    decreases |es|
  {
    if es == [] then s == s' else Enabled(s, es[0]) && Trace(Apply(s, es[0]), es[1..], s')
  }

  /** What stands behind this stays folded until it is mentioned. */
  predicate Opened(x: bool) {
    true
  }

  ghost predicate Reaches(s: State, s': State) {
    forall x: bool {:trigger Opened(x)} :: Opened(x) ==> exists es :: Trace(s, es, s')
  }

  lemma ReachesBy(s: State, s': State) returns (es: seq<Event>)
    requires Reaches(s, s')
    ensures Trace(s, es, s')
  {
    assert Opened(true);
    es :| Trace(s, es, s');
  }

  ghost predicate Reachable(s: State) {
    exists s0 :: Initial(s0) && Reaches(s0, s)
  }

  // ---------------------------------------------------------------- the invariant

  /** Tasks listed in the index run under the key they are listed by. */
  ghost predicate IndexOk(s: State) {
    forall k :: k in s.index ==>
      && s.index[k] < |s.tasks|
      && var t := s.tasks[s.index[k]]; t.key == k && t.pid == k && t.status == Running && 0 < k <= MAX_PID
  }

  /** The task `t` is out of the index for the moment. */
  predicate InTransit(s: State, t: nat) {
    (s.pc.Adding? && s.pc.task == t) || s.pc == Restarting(t)
  }

  predicate PcOk(s: State) {
    && (s.pc.Adding? || s.pc.Removing? || s.pc.Restarting? ==> s.pc.task < |s.tasks|)
    && (s.pc.Starting? ==> s.pc.next <= |s.tasks|)
  }

  /** The tasks that have not been run yet. */
  predicate Untouched(s: State, t: nat) {
    s.pc.Boot? || (s.pc.Starting? && s.pc.next <= t) || (s.pc.Adding? && s.pc.starting && s.pc.task < t)
  }

  ghost predicate TasksOk(s: State) {
    forall t :: 0 <= t < |s.tasks| ==>
         && (s.tasks[t].status == Running <==> s.tasks[t].pid != 0)
         && (s.tasks[t].status == Running ==> s.tasks[t].runnable)
         && (s.tasks[t].status == Running && !InTransit(s, t) ==>
               s.tasks[t].pid in s.index && s.index[s.tasks[t].pid] == t)
         && (InTransit(s, t) ==> s.tasks[t].status == Running && (s.pc.Restarting? ==> s.tasks[t].key == 0))
         && (Untouched(s, t) <==> s.tasks[t].status == Init)
  }

  /** Every child is listed under the task it was forked for, and only children are listed,
      but for the task being added and the one just reaped. */
  ghost predicate KidsOk(s: State)
    requires PcOk(s)
  {
    && (forall p :: p in s.kids ==>
          && 0 < p <= MAX_PID
          && ((p in s.index && s.index[p] == s.kids[p].task) ||
              (s.pc.Adding? && s.tasks[s.pc.task].pid == p && s.kids[p].task == s.pc.task)))
    && (s.pc.Adding? ==> var t := s.tasks[s.pc.task]; t.key == t.pid && t.pid in s.kids && t.pid !in s.index)
    && (forall k :: k in s.index ==>
          k in s.kids || s.pc == Reaped(k, s.index[k]) || s.pc == Removing(s.index[k]))
    && (s.pc.Reaped? ==> s.pc.pid !in s.kids && s.pc.pid in s.index && s.index[s.pc.pid] == s.pc.owner)
    && (s.pc.Removing? ==>
          var t := s.tasks[s.pc.task];
          t.pid in s.index && s.index[t.pid] == s.pc.task && t.pid !in s.kids)
  }

  /** Before the reap loop has seen that there is nothing left, it will look again. */
  predicate WillReap(s: State) {
    || s.pc.Reaping? || s.pc.Reaped? || s.pc.Removing? || s.pc.Restarting?
    || (s.pc.Adding? && !s.pc.starting)
    || (s.pc.Woken? && s.child)
    || s.pc.Stopped?
  }

  ghost predicate WakeOk(s: State) {
    && (s.pc.Boot? ==> s.kids == map[])
    && (s.blocked <==> !s.pc.Boot?)
    && (SomeDead(s) ==> s.pending || WillReap(s))
  }

  function Starts(tasks: seq<Task>): nat {
    if tasks == [] then 0 else tasks[0].starts + Starts(tasks[1..])
  }

  /** Starts not yet in the index, less exits already reaped but still in it. */
  function Unsettled(s: State): int {
    if s.pc.Adding? then 1 else if s.pc.Reaped? || s.pc.Removing? then -1 else 0
  }

  ghost predicate CountOk(s: State) {
    Starts(s.tasks) == |s.index| + s.reaped + Unsettled(s)
  }

  /** Up to the moment when all tasks have been tried. */
  predicate StartingUp(s: State) {
    s.pc.Boot? || s.pc.Starting? || (s.pc.Adding? && s.pc.starting)
  }

  /** Until then no task has been started twice. */
  ghost predicate FirstOk(s: State) {
    StartingUp(s) ==>
      forall t :: 0 <= t < |s.tasks| ==> s.tasks[t].starts == if s.tasks[t].status == Running then 1 else 0
  }

  ghost predicate Inv(s: State) {
    PcOk(s) && IndexOk(s) && TasksOk(s) && KidsOk(s) && WakeOk(s) && CountOk(s) && FirstOk(s)
  }

  lemma {:induction false} StartsZero(tasks: seq<Task>)
    requires forall t :: 0 <= t < |tasks| ==> tasks[t].starts == 0
    ensures Starts(tasks) == 0
  {
    if tasks == [] {
    } else {
      StartsZero(tasks[1..]);
    }
  }

  lemma {:induction false} StartsUpdate(tasks: seq<Task>, t: nat, x: Task)
    requires t < |tasks|
    ensures Starts(tasks[t := x]) == Starts(tasks) - tasks[t].starts + x.starts
  {
    if t > 0 {
      assert tasks[t := x][1..] == tasks[1..][t - 1 := x];
      StartsUpdate(tasks[1..], t - 1, x);
    } else {
      assert tasks[t := x][1..] == tasks[1..];
    }
  }

  lemma InitialInv(s: State)
    requires Initial(s)
    ensures Inv(s)
  {
    StartsZero(s.tasks);
  }

  /** The events that change no task and leave the index alone. */
  predicate Quiet(e: Event) {
    !Failure(e) && !e.Runs? && !e.Add? && !e.RemoveNode?
  }

  lemma QuietTasks(s: State, e: Event)
    requires PcOk(s) && IndexOk(s) && TasksOk(s) && KidsOk(s) && Enabled(s, e) && Quiet(e)
    ensures PcOk(Apply(s, e)) && TasksOk(Apply(s, e))
  {
    var s' := Apply(s, e);
    assert PcOk(s') && s'.tasks == s.tasks && s'.index == s.index;
    forall t: nat | t < |s.tasks|
      ensures InTransit(s', t) == InTransit(s, t) && Untouched(s', t) == Untouched(s, t) &&
        (s'.pc.Restarting? ==> s.pc.Restarting?)
    {
    }
  }

  lemma RunTasks(s: State, e: Event)
    requires PcOk(s) && TasksOk(s) && Enabled(s, e) && (Failure(e) || e.Runs?)
    ensures PcOk(Apply(s, e)) && TasksOk(Apply(s, e))
  {
    var (u, s') := (Subject(s), Apply(s, e));
    forall t: nat | t < |s.tasks| && t != u
      ensures s'.tasks[t] == s.tasks[t] && !InTransit(s, t) && !InTransit(s', t) && Untouched(s', t) == Untouched(s, t)
    {
    }
  }

  lemma IndexTasks(s: State, e: Event)
    requires PcOk(s) && IndexOk(s) && TasksOk(s) && KidsOk(s) && Enabled(s, e) && (e.Add? || e.RemoveNode?)
    ensures PcOk(Apply(s, e)) && TasksOk(Apply(s, e))
  {
    var (u, s') := (s.pc.task, Apply(s, e));
    forall t: nat | t < |s.tasks| && t != u
      ensures s'.tasks[t] == s.tasks[t] && !InTransit(s, t) && !InTransit(s', t) && Untouched(s', t) == Untouched(s, t)
      ensures s.tasks[t].status == Running ==> s.tasks[t].pid in s'.index && s'.index[s.tasks[t].pid] == t
    {
    }
  }

  lemma StepTasks(s: State, e: Event)
    requires Inv(s) && Enabled(s, e)
    ensures PcOk(Apply(s, e)) && TasksOk(Apply(s, e))
  {
    if Quiet(e) {
      QuietTasks(s, e);
    } else if Failure(e) || e.Runs? {
      RunTasks(s, e);
    } else {
      IndexTasks(s, e);
    }
  }

  lemma StepIndex(s: State, e: Event)
    requires Inv(s) && Enabled(s, e)
    ensures IndexOk(Apply(s, e))
  {
  }

  lemma RunKids(s: State, e: Event)
    requires PcOk(s) && TasksOk(s) && KidsOk(s) && Enabled(s, e) && (Failure(e) || e.Runs?) && PcOk(Apply(s, e))
    ensures KidsOk(Apply(s, e))
  {
  }

  lemma IndexKids(s: State, e: Event)
    requires PcOk(s) && IndexOk(s) && KidsOk(s) && Enabled(s, e) && (e.Add? || e.RemoveNode?) && PcOk(Apply(s, e))
    ensures KidsOk(Apply(s, e))
  {
  }

  lemma ReapKids(s: State, e: Event)
    requires PcOk(s) && IndexOk(s) && KidsOk(s) && Enabled(s, e) && (e.Reap? || e.LookUp?) && PcOk(Apply(s, e))
    ensures KidsOk(Apply(s, e))
  {
  }

  lemma QuietKids(s: State, e: Event)
    requires PcOk(s) && KidsOk(s) && Enabled(s, e) && Quiet(e) && !e.Reap? && !e.LookUp? && PcOk(Apply(s, e))
    ensures KidsOk(Apply(s, e))
  {
    var s' := Apply(s, e);
    assert s'.kids.Keys == s.kids.Keys && s'.index == s.index && s'.tasks == s.tasks;
    assert forall p :: p in s.kids ==> s'.kids[p].task == s.kids[p].task;
  }

  lemma StepKids(s: State, e: Event)
    requires Inv(s) && Enabled(s, e) && PcOk(Apply(s, e))
    ensures KidsOk(Apply(s, e))
  {
    if Failure(e) || e.Runs? {
      RunKids(s, e);
    } else if e.Add? || e.RemoveNode? {
      IndexKids(s, e);
    } else if e.Reap? || e.LookUp? {
      ReapKids(s, e);
    } else {
      QuietKids(s, e);
    }
  }

  lemma StepWake(s: State, e: Event)
    requires Inv(s) && Enabled(s, e)
    ensures WakeOk(Apply(s, e))
  {
  }

  lemma CountRun(s: State, e: Event)
    requires Inv(s) && Enabled(s, e) && (Failure(e) || e.Runs?)
    ensures CountOk(Apply(s, e))
  {
    var t := Subject(s);
    StartsUpdate(s.tasks, t, Apply(s, e).tasks[t]);
  }

  lemma CountRemove(s: State)
    requires Inv(s) && Enabled(s, RemoveNode)
    ensures CountOk(Apply(s, RemoveNode))
  {
    var t := s.pc.task;
    StartsUpdate(s.tasks, t, s.tasks[t].(key := 0));
    assert (s.index - {s.tasks[t].key}).Keys == s.index.Keys - {s.tasks[t].key};
  }

  lemma CountQuiet(s: State, e: Event)
    requires PcOk(s) && KidsOk(s) && CountOk(s) && Enabled(s, e) && Quiet(e)
    ensures CountOk(Apply(s, e))
  {
    assert Apply(s, e).tasks == s.tasks && Apply(s, e).index == s.index;
  }

  lemma CountAdd(s: State)
    requires PcOk(s) && KidsOk(s) && CountOk(s) && Enabled(s, Add)
    ensures CountOk(Apply(s, Add))
  {
    assert |s.index[s.tasks[s.pc.task].key := s.pc.task]| == |s.index| + 1;
  }

  lemma StepCount(s: State, e: Event)
    requires Inv(s) && Enabled(s, e)
    ensures CountOk(Apply(s, e))
  {
    if Quiet(e) {
      CountQuiet(s, e);
    } else if e.Add? {
      CountAdd(s);
    } else if e.RemoveNode? {
      CountRemove(s);
    } else {
      CountRun(s, e);
    }
  }

  lemma StepFirst(s: State, e: Event)
    requires Inv(s) && Enabled(s, e)
    ensures FirstOk(Apply(s, e))
  {
  }

  lemma StepInv(s: State, e: Event)
    requires Inv(s) && Enabled(s, e)
    ensures Inv(Apply(s, e))
  {
    StepTasks(s, e);
    StepIndex(s, e);
    StepKids(s, e);
    StepWake(s, e);
    StepCount(s, e);
    StepFirst(s, e);
  }

  lemma {:induction false} TraceInv(s: State, es: seq<Event>, s': State)
    requires Inv(s) && Trace(s, es, s')
    ensures Inv(s')
    decreases |es|
  {
    if es == [] {
    } else {
      StepInv(s, es[0]);
      TraceInv(Apply(s, es[0]), es[1..], s');
    }
  }

  lemma ReachableInv(s: State)
    requires Reachable(s)
    ensures Inv(s)
  {
    var s0 :| Initial(s0) && Reaches(s0, s);
    var es := ReachesBy(s0, s);
    InitialInv(s0);
    TraceInv(s0, es, s);
  }

  lemma {:induction false} TraceConcat(s: State, es: seq<Event>, s1: State, fs: seq<Event>, s2: State)
    requires Trace(s, es, s1) && Trace(s1, fs, s2)
    ensures Trace(s, es + fs, s2)
    decreases |es|
  {
    if es == [] {
      assert es + fs == fs;
    } else {
      assert (es + fs)[0] == es[0] && (es + fs)[1..] == es[1..] + fs;
      TraceConcat(Apply(s, es[0]), es[1..], s1, fs, s2);
    }
  }

  lemma ReachesTransitive(s: State, s1: State, s2: State)
    requires Reaches(s, s1) && Reaches(s1, s2)
    ensures Reaches(s, s2)
  {
    var es := ReachesBy(s, s1);
    var fs := ReachesBy(s1, s2);
    TraceConcat(s, es, s1, fs, s2);
  }

  lemma ReachesStep(s: State, e: Event)
    requires Enabled(s, e)
    ensures Reaches(s, Apply(s, e))
  {
    assert Trace(Apply(s, e), [], Apply(s, e));
    assert Trace(s, [e], Apply(s, e));
  }

  lemma ReachesSelf(s: State)
    ensures Reaches(s, s)
  {
    assert Trace(s, [], s);
  }

  lemma ReachableOn(s: State, s': State)
    requires Reachable(s) && Reaches(s, s')
    ensures Reachable(s')
  {
    var s0 :| Initial(s0) && Reaches(s0, s);
    ReachesTransitive(s0, s, s');
  }

  // ---------------------------------------------------------------- what holds in every run

  /** No task is between the tree and the kernel. */
  predicate Settled(s: State) {
    s.pc.Asleep? || s.pc.Woken? || s.pc.Reaping?
  }

  /** No exit is lost: a child that is dead while the supervisor sleeps keeps SIGCHLD pending,
      whatever the order of exits and supervisor steps. */
  lemma NoLostExit(s: State, p: int)
    requires Reachable(s) && s.pc == Asleep && p in s.kids && s.kids[p].dead
    ensures s.pending
    ensures var s' := Apply(Apply(s, ChildSignal), CheckFlag); Enabled(s', Reap(p))
  {
    ReachableInv(s);
  }

  /** The tree lists exactly the running tasks, each under its own pid, and its keys are
      exactly the children not reaped yet. */
  lemma IndexAgrees(s: State)
    requires Reachable(s) && Settled(s)
    ensures s.index.Keys == s.kids.Keys
    ensures forall p :: p in s.kids ==> s.index[p] == s.kids[p].task
    ensures forall t :: 0 <= t < |s.tasks| ==>
      && (s.tasks[t].status == Running <==> s.tasks[t].pid != 0)
      && (s.tasks[t].status == Running <==> exists k :: k in s.index && s.index[k] == t)
      && (s.tasks[t].status == Running ==> s.tasks[t].key == s.tasks[t].pid)
      && (s.tasks[t].status == Running ==> s.tasks[t].key in s.index && s.index[s.tasks[t].key] == t)
  {
    ReachableInv(s);
    assert forall k :: k in s.index <==> k in s.kids;
    forall t | 0 <= t < |s.tasks| && s.tasks[t].status == Running
      ensures exists k :: k in s.index && s.index[k] == t
    {
      assert s.tasks[t].pid in s.index;
    }
  }

  /** A pid that waitpid returns is always found, under the task it was forked for, even if
      the kernel has used the same pid before. */
  lemma AlwaysFound(s: State)
    requires Reachable(s) && s.pc.Reaped?
    ensures s.pc.pid in s.index && s.index[s.pc.pid] == s.pc.owner
    ensures Apply(s, LookUp).pc == Removing(s.pc.owner)
  {
    ReachableInv(s);
  }

  /** Starts are conserved: each is a node of the tree or an exit already reaped. */
  lemma Conservation(s: State)
    requires Reachable(s) && Settled(s)
    ensures Starts(s.tasks) == |s.index| + s.reaped
  {
    ReachableInv(s);
  }

  lemma {:induction false} FlagTrace(s: State, es: seq<Event>, s': State)
    requires Trace(s, es, s') && s.child
    ensures s'.child
    decreases |es|
  {
    if es == [] {
    } else {
      FlagTrace(Apply(s, es[0]), es[1..], s');
    }
  }

  /** Nothing clears the flag that the handler of SIGCHLD sets. */
  lemma FlagStays(s: State, s': State)
    requires Reaches(s, s') && s.child
    ensures s'.child
  {
    var es := ReachesBy(s, s');
    FlagTrace(s, es, s');
  }

  function Wakes(es: seq<Event>): nat {
    if es == [] then 0 else (if es[0].CheckFlag? then 1 else 0) + Wakes(es[1..])
  }

  /** The count of wake-ups is that of the events of the run. */
  lemma {:induction false} WakesCounted(s: State, es: seq<Event>, s': State)
    requires Trace(s, es, s')
    ensures s'.wakes == s.wakes + Wakes(es)
    decreases |es|
  {
    if es == [] {
    } else {
      WakesCounted(Apply(s, es[0]), es[1..], s');
    }
  }

  /** The run of a task failed and is over. */
  predicate Down(s: State, t: nat) {
    t < |s.tasks| && s.tasks[t].status == Finished && !AboutToRun(s, t)
  }

  lemma DownStep(s: State, e: Event, t: nat)
    requires Inv(s) && Enabled(s, e) && Down(s, t)
    ensures Down(Apply(s, e), t) && Apply(s, e).tasks[t] == s.tasks[t]
  {
  }

  lemma {:induction false} DownTrace(s: State, es: seq<Event>, s': State, t: nat)
    requires Inv(s) && Trace(s, es, s') && Down(s, t)
    ensures Down(s', t) && s'.tasks[t] == s.tasks[t]
    decreases |es|
  {
    if es == [] {
    } else {
      DownStep(s, es[0], t);
      StepInv(s, es[0]);
      DownTrace(Apply(s, es[0]), es[1..], s', t);
    }
  }

  /** A task whose start or restart failed is never tried again: it stays finished, out of
      the tree, with its count of starts as it is. */
  lemma DownForGood(s: State, s': State, t: nat)
    requires Reachable(s) && Reaches(s, s') && Down(s, t)
    ensures t < |s'.tasks| && s'.tasks[t] == s.tasks[t] && s'.tasks[t].status == Finished && s'.tasks[t].pid == 0
    ensures forall k :: k in s'.index ==> s'.index[k] != t
  {
    ReachableInv(s);
    var es := ReachesBy(s, s');
    DownTrace(s, es, s', t);
    TraceInv(s, es, s');
  }

  lemma TwoSteps(s: State, e: Event, f: Event)
    requires Enabled(s, e) && Enabled(Apply(s, e), f)
    ensures Reaches(s, Apply(Apply(s, e), f))
  {
    ReachesStep(s, e);
    ReachesStep(Apply(s, e), f);
    ReachesTransitive(s, Apply(s, e), Apply(Apply(s, e), f));
  }

  lemma ReapedToRestart(s: State) returns (s': State)
    requires Reachable(s) && s.pc.Reaped?
    ensures Reaches(s, s') && s'.pc == Restarting(s.pc.owner) && |s'.tasks| == |s.tasks|
  {
    ReachableInv(s);
    TwoSteps(s, LookUp, RemoveNode);
    s' := Apply(Apply(s, LookUp), RemoveNode);
  }

  // ---------------------------------------------------------------- the ledger of one task

  /** What the events of a run do to one task: how often a child of it is reaped, how often it
      is run, and how often an attempt to run it fails. */
  datatype Tally = Tally(exits: nat, runs: nat, failures: nat)

  function Hit(s: State, e: Event, t: nat): Tally
    requires Enabled(s, e)
  {
    Tally(if e.Reap? && s.kids[e.pid].task == t then 1 else 0,
          if e.Runs? && AboutToRun(s, t) then 1 else 0,
          if Failure(e) && AboutToRun(s, t) then 1 else 0)
  }

  function Plus(a: Tally, b: Tally): Tally {
    Tally(a.exits + b.exits, a.runs + b.runs, a.failures + b.failures)
  }

  function Total(s: State, es: seq<Event>, s': State, t: nat): Tally
    requires Trace(s, es, s')
    decreases |es|
  {
    if es == [] then Tally(0, 0, 0) else Plus(Hit(s, es[0], t), Total(Apply(s, es[0]), es[1..], s', t))
  }

  /** The task is still to be run: for the first time, or because its child has been reaped. */
  function Owed(s: State, t: nat): nat
    requires t < |s.tasks|
  {
    if s.tasks[t].status == Init || (s.pc.Reaped? && s.pc.owner == t) || s.pc == Removing(t) || s.pc == Restarting(t)
    then 1 else 0
  }

  function Is(status: Status, s: State, t: nat): nat
    requires t < |s.tasks|
  {
    if s.tasks[t].status == status then 1 else 0
  }

  /** What goes into a task's account and what comes out of it, between two states. */
  predicate Balanced(s: State, n: Tally, s': State, t: nat) {
    && t < |s.tasks| == |s'.tasks| && s'.tasks[t].runnable == s.tasks[t].runnable
    && s'.tasks[t].starts == s.tasks[t].starts + n.runs
    && s'.tasks[t].starts + Owed(s', t) + n.failures == s.tasks[t].starts + Owed(s, t) + n.exits
    && Is(Finished, s', t) == Is(Finished, s, t) + n.failures
    && (s'.tasks[t].status == Init ==> s.tasks[t].status == Init)
    && (StartingUp(s') ==> StartingUp(s) && n.exits == 0)
  }

  lemma BalanceQuiet(s: State, e: Event, t: nat)
    requires PcOk(s) && KidsOk(s) && TasksOk(s) && Enabled(s, e) && t < |s.tasks|
    requires Quiet(e) && !e.Reap? && !e.LookUp?
    ensures Balanced(s, Hit(s, e, t), Apply(s, e), t)
  {
    assert Apply(s, e).tasks == s.tasks && Owed(Apply(s, e), t) == Owed(s, t);
  }

  lemma BalanceReap(s: State, e: Event, t: nat)
    requires PcOk(s) && KidsOk(s) && IndexOk(s) && TasksOk(s) && Enabled(s, e) && t < |s.tasks| &&
      (e.Reap? || e.LookUp?)
    ensures Balanced(s, Hit(s, e, t), Apply(s, e), t)
  {
    assert Apply(s, e).tasks == s.tasks;
  }

  lemma BalanceIndex(s: State, e: Event, t: nat)
    requires PcOk(s) && KidsOk(s) && TasksOk(s) && Enabled(s, e) && t < |s.tasks| && (e.Add? || e.RemoveNode?)
    ensures Balanced(s, Hit(s, e, t), Apply(s, e), t)
  {
    assert Owed(Apply(s, e), t) == Owed(s, t);
  }

  lemma BalanceRun(s: State, e: Event, t: nat)
    requires PcOk(s) && TasksOk(s) && Enabled(s, e) && t < |s.tasks| && (Failure(e) || e.Runs?)
    ensures Balanced(s, Hit(s, e, t), Apply(s, e), t)
  {
    if t != Subject(s) {
      assert Apply(s, e).tasks[t] == s.tasks[t] && !AboutToRun(s, t);
    }
  }

  lemma BalanceStep(s: State, e: Event, t: nat)
    requires Inv(s) && Enabled(s, e) && t < |s.tasks|
    ensures Balanced(s, Hit(s, e, t), Apply(s, e), t)
  {
    if Failure(e) || e.Runs? {
      BalanceRun(s, e, t);
    } else if e.Add? || e.RemoveNode? {
      BalanceIndex(s, e, t);
    } else if e.Reap? || e.LookUp? {
      BalanceReap(s, e, t);
    } else {
      BalanceQuiet(s, e, t);
    }
  }

  /** The account of any task balances over any run. */
  lemma {:induction false} Ledger(s: State, es: seq<Event>, s': State, t: nat)
    requires Inv(s) && Trace(s, es, s') && t < |s.tasks|
    ensures Balanced(s, Total(s, es, s', t), s', t)
    decreases |es|
  {
    if es == [] {
    } else {
      BalanceStep(s, es[0], t);
      StepInv(s, es[0]);
      Ledger(Apply(s, es[0]), es[1..], s', t);
    }
  }

  /** Until all tasks have been tried, and at that moment too, each has been tried once or, if
      its turn is still to come, not at all; only a success counts as a start. */
  lemma TriedOnce(s0: State, es: seq<Event>, s: State, t: nat)
    requires Initial(s0) && Trace(s0, es, s) && StartingUp(s) && t < |s.tasks|
    ensures t < |s0.tasks|
    ensures var n := Total(s0, es, s, t); n.runs + n.failures == if Untouched(s, t) then 0 else 1
    ensures s.tasks[t].starts == if s.tasks[t].status == Running then 1 else 0
    ensures s.pc == Starting(|s.tasks|) ==> !Untouched(s, t)
  {
    InitialInv(s0);
    TraceInv(s0, es, s);
    SameTasks(s0, es, s);
    Ledger(s0, es, s, t);
  }

  lemma {:induction false} SameTasks(s: State, es: seq<Event>, s': State)
    requires Trace(s, es, s')
    ensures |s'.tasks| == |s.tasks|
    decreases |es|
  {
    if es == [] {
    } else {
      SameTasks(Apply(s, es[0]), es[1..], s');
    }
  }

  /** Every task has been tried once the starting is over. */
  lemma AllTried(s: State, t: nat)
    requires Reachable(s) && Settled(s) && t < |s.tasks|
    ensures s.tasks[t].status == Running || s.tasks[t].status == Finished
  {
    ReachableInv(s);
  }

  /** The whole life of a task.  Whenever nothing is under way, every exit that has been reaped
      has been answered by a start, but for one if an attempt has failed; no more than one
      fails, and the task is running if and only if none has. */
  lemma RestartLedger(s0: State, es: seq<Event>, s: State, t: nat)
    requires Initial(s0) && Trace(s0, es, s) && Settled(s) && t < |s.tasks|
    ensures t < |s0.tasks|
    ensures var n := Total(s0, es, s, t);
      && s.tasks[t].starts == n.runs && n.runs + n.failures == 1 + n.exits && n.failures <= 1
      && (s.tasks[t].status == Running <==> n.failures == 0)
      && (s.tasks[t].status == Finished <==> n.failures == 1)
  {
    InitialInv(s0);
    TraceInv(s0, es, s);
    SameTasks(s0, es, s);
    Ledger(s0, es, s, t);
  }

  lemma RunsOn(s: State, es: seq<Event>, s': State, t: nat)
    requires Inv(s) && Trace(s, es, s') && t < |s.tasks| && s.tasks[t].status == Running
    ensures |s'.tasks| == |s.tasks|
    ensures s'.tasks[t].status == Running <==> ForkFailures(s, es, s', t) == 0
    ensures s'.tasks[t].status == Finished <==> ForkFailures(s, es, s', t) == 1
    ensures Settled(s) && Settled(s') ==>
      s'.tasks[t].starts + ForkFailures(s, es, s', t) == s.tasks[t].starts + Total(s, es, s', t).exits
  {
    Ledger(s, es, s', t);
    OnlyForkFails(s, es, s', t);
  }

  /** A running task is restarted after each of its exits, in any run from here on, if and only
      if no fork of it fails there; one that fails leaves it finished and one start behind. */
  lemma RestartedIff(s: State, es: seq<Event>, s': State, t: nat)
    requires Reachable(s) && Trace(s, es, s') && t < |s.tasks| && s.tasks[t].status == Running
    ensures |s'.tasks| == |s.tasks|
    ensures s'.tasks[t].status == Running <==> ForkFailures(s, es, s', t) == 0
    ensures s'.tasks[t].status == Finished <==> ForkFailures(s, es, s', t) == 1
    ensures Settled(s) && Settled(s') ==>
      s'.tasks[t].starts + ForkFailures(s, es, s', t) == s.tasks[t].starts + Total(s, es, s', t).exits
  {
    ReachableInv(s);
    RunsOn(s, es, s', t);
  }

  function ForkFailures(s: State, es: seq<Event>, s': State, t: nat): nat
    requires Trace(s, es, s')
    decreases |es|
  {
    if es == [] then 0 else
      (if es[0].ForkFails? && AboutToRun(s, t) then 1 else 0) + ForkFailures(Apply(s, es[0]), es[1..], s', t)
  }

  /** A task that can be run fails only with fork. */
  lemma {:induction false} OnlyForkFails(s: State, es: seq<Event>, s': State, t: nat)
    requires Inv(s) && Trace(s, es, s') && t < |s.tasks| && s.tasks[t].runnable
    ensures Total(s, es, s', t).failures == ForkFailures(s, es, s', t)
    decreases |es|
  {
    if es == [] {
    } else {
      BalanceStep(s, es[0], t);
      StepInv(s, es[0]);
      OnlyForkFails(Apply(s, es[0]), es[1..], s', t);
    }
  }

  // ---------------------------------------------------------------- a task can be lost

  /** From any sleeping state, any live child can exit and be brought to the point where its
      task is run again ... */
  lemma ExitToRestart(s: State, p: int) returns (s': State)
    requires Reachable(s) && s.pc == Asleep && p in s.kids && !s.kids[p].dead
    ensures Reaches(s, s') && s'.pc == Restarting(s.kids[p].task) && |s'.tasks| == |s.tasks| &&
      s.kids[p].task < |s.tasks|
  {
    ReachableInv(s);
    var s2 := Apply(Apply(s, Exit(p)), ChildSignal);
    var s4 := Apply(Apply(s2, CheckFlag), Reap(p));
    TwoSteps(s, Exit(p), ChildSignal);
    TwoSteps(s2, CheckFlag, Reap(p));
    ReachesTransitive(s, s2, s4);
    ReachableOn(s, s4);
    s' := ReapedToRestart(s4);
    ReachesTransitive(s, s4, s');
  }

  /** ... and if fork fails there, the exit has cost the supervisor that task: from then on
      it is finished in every state of every run. */
  lemma RestartCanBeLost(s: State, p: int) returns (s': State)
    requires Reachable(s) && s.pc == Asleep && p in s.kids && !s.kids[p].dead
    ensures Reaches(s, s') && s.kids[p].task < |s.tasks|
    ensures s.tasks[s.kids[p].task].status == Running
    ensures forall u :: Reaches(s', u) ==> s.kids[p].task < |u.tasks| && u.tasks[s.kids[p].task].status == Finished
  {
    ReachableInv(s);
    var t := s.kids[p].task;
    var r := ExitToRestart(s, p);
    ReachableOn(s, r);
    ReachableInv(r);
    s' := Apply(r, ForkFails);
    ReachesStep(r, ForkFails);
    ReachesTransitive(s, r, s');
    ReachableOn(s, s');
    forall u | Reaches(s', u)
      ensures t < |u.tasks| && u.tasks[t].status == Finished
    {
      DownForGood(s', u, t);
    }
  }

  /** Such a state exists: one task, started and asleep with its child. */
  lemma OneTaskRuns() returns (s: State)
    ensures Reachable(s) && s.pc == Asleep && 7 in s.kids && !s.kids[7].dead
  {
    var s0 := State(Boot, [Task(true, 0, 0, Init, 0)], map[], map[], false, false, false, 0, 0);
    var s2 := Apply(Apply(s0, Block), Runs(7));
    s := Apply(Apply(s2, Add), AllStarted);
    TwoSteps(s0, Block, Runs(7));
    TwoSteps(s2, Add, AllStarted);
    ReachesTransitive(s0, s2, s);
  }
}

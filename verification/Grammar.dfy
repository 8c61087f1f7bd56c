/** The semantic actions of the configuration grammar, which build a task's argument and
    environment vectors in arrays that grow, and the closing of a task, which walks them.
    A task block is the sequence of its option reductions. */
module Grammar {
  import opened List

  const DEFAULT_LEN := 10

  /** A string the scanner has allocated; what matters is which allocation it is. */
  class Str {
    constructor () {
    }
  }

  datatype Kind = Name | Path | Arg | Env | Dir

  /** One option reduction: its keyword and the string it sets or appends. */
  datatype Opt = Opt(kind: Kind, s: Str)

  // ---------------------------------------------------------------- what the options say

  /** The strings given by the options of one kind, in source order. */
  ghost function Of(os: seq<Opt>, k: Kind): (r: seq<Str>) {
    if os == [] then [] else
      var o := os[|os| - 1];
      Of(os[..|os| - 1], k) + if o.kind == k then [o.s] else []
  }

  lemma OfOne(a: Opt, k: Kind)
    ensures Of([a], k) == if a.kind == k then [a.s] else []
  {
    assert [a][..0] == [];
  }

  /** The strings of what is given first come first, and the rest after them: with `OfOne` this
      says that every string of the kind is there once, in source order. */
  lemma {:induction false} OfConcat(a: seq<Opt>, b: seq<Opt>, k: Kind)
    ensures Of(a + b, k) == Of(a, k) + Of(b, k)
    decreases |b|
  {
    if b == [] {
      assert a + b == a;
    } else {
      var n := |b| - 1;
      assert (a + b)[..|a + b| - 1] == a + b[..n];
      OfConcat(a, b[..n], k);
    }
  }

  ghost function Latest(r: seq<Str>): Str? {
    if r == [] then null else r[|r| - 1]
  }

  /** A setting made more than once keeps its last value. */
  ghost function Setting(os: seq<Opt>, k: Kind): Str? {
    Latest(Of(os, k))
  }

  /** Every string the scanner handed to the block. */
  ghost function Strings(os: seq<Opt>): multiset<Str> {
    if os == [] then multiset{} else Strings(os[..|os| - 1]) + multiset{os[|os| - 1].s}
  }

  // ---------------------------------------------------------------- vectors that grow

  /** realloc: the old contents stay, what is beyond them is anything. */
  method Realloc(v: array?<Str?>, n: nat) returns (w: array?<Str?>)
    requires v != null ==> v.Length <= n
    ensures w != null && fresh(w) && w.Length == n
    ensures v != null ==> w[..v.Length] == v[..]
  {
    w := new Str?[n];
    if v != null {
      for i := 0 to v.Length
        invariant w[..i] == v[..i]
        invariant v[..] == old(v[..])
      {
        w[i] := v[i];
      }
    }
  }

  /** One of a task's two vectors, with the numbers of slots used and allocated. */
  class Vector {
    var data: array?<Str?>
    var len: nat
    var total: nat

    constructor ()
      ensures Valid() && Contents() == [] && data == null
    {
      data, len, total := null, 0, 0;
    }

    ghost predicate Valid()
      reads this, data
    {
      len <= total && if data == null then total == 0 else data.Length == total
    }

    ghost function Contents(): seq<Str?>
      requires Valid()
      reads this, data
    {
      if data == null then [] else data[..len]
    }

    /** Makes room for `need` more, growing by `incr` if there is not enough. */
    method Check(need: nat, incr: nat)
      requires Valid() && 0 < need <= incr
      modifies this`data, this`total
      ensures Valid() && len + need <= total && data != null && Contents() == old(Contents())
      ensures total == old(total) + if len + need > old(total) then incr else 0
      ensures data == old(data) || fresh(data)
    {
      if len + need > total {
        data := Realloc(data, total + incr);
        total := total + incr;
      }
    }

    method Push(s: Str?, incr: nat)
      requires Valid() && 0 < incr
      modifies this, data
      ensures Valid() && data != null && Contents() == old(Contents()) + [s]
      ensures data == old(data) || fresh(data)
    {
      Check(1, incr);
      data[len] := s;
      len := len + 1;
    }

    /** Moves the first `n` elements up by one. */
    static method ShiftUp(a: array<Str?>, n: nat)
      requires n < a.Length
      modifies a
      ensures a[1..n + 1] == old(a[..n])
    {
      var i := n;
      while i > 0
        invariant 0 <= i <= n
        invariant forall j :: i < j <= n ==> a[j] == old(a[j - 1])
        invariant forall j :: 0 <= j <= i ==> a[j] == old(a[j])
      {
        a[i] := a[i - 1];
        i := i - 1;
      }
    }

    static method FrameIn(a: array<Str?>, n: nat, first: Str?)
      requires n + 1 < a.Length
      modifies a
      ensures a[..n + 2] == [first] + old(a[..n]) + [null]
    {
      ghost var was := a[..n];
      ShiftUp(a, n);
      a[0] := first;
      a[n + 1] := null;
      assert a[1..n + 1] == was;
      assert a[..n + 2] == a[..1] + a[1..n + 1] + a[n + 1..n + 2];
    }

    /** Moves everything up by one, puts `first` in front and NULL at the end. */
    method Frame(first: Str?)
      requires Valid()
      modifies this, data
      ensures Valid() && data != null && Contents() == [first] + old(Contents()) + [null]
      ensures data == old(data) || fresh(data)
    {
      Check(2, 2);
      FrameIn(data, len, first);
      len := len + 2;
    }

    /** Frees the strings up to the first NULL. */
    method Free(ghost ss: seq<Str>) returns (freed: seq<Str>)
      requires Valid() && |ss| < |Contents()| && Contents()[|ss|] == null
      requires forall j :: 0 <= j < |ss| ==> Contents()[j] == ss[j]
      ensures freed == ss
    {
      freed := [];
      var i := 0;
      while data[i] != null
        invariant i <= |ss| && freed == ss[..i]
        decreases |ss| - i
      {
        freed := freed + [data[i]];
        i := i + 1;
      }
    }
  }

  // ---------------------------------------------------------------- tasks

  datatype View =
    | Broken
    | View(name: Str?, path: Str?, dir: Str?, args: seq<Str?>, envp: seq<Str?>)

  ghost function Open(os: seq<Opt>): (v: View)
    ensures v.View?
  {
    View(Setting(os, Name), Setting(os, Path), Setting(os, Dir), Of(os, Arg), Of(os, Env))
  }

  /** The argument vector is the path, the arguments in source order and NULL; the
      environment, if there is one, ends in NULL too. */
  ghost function Shut(os: seq<Opt>): (v: View)
    ensures v.View?
  {
    var env: seq<Str?> := Of(os, Env);
    View(Setting(os, Name), Setting(os, Path), Setting(os, Dir),
         [Setting(os, Path)] + Of(os, Arg) + [null], if env == [] then [] else env + [null])
  }

  const Blank := View(null, null, null, [], [])

  /** What one option changes. */
  ghost function Taken(v: View, o: Opt): (v': View)
    requires v.View?
    ensures v'.View?
  {
    match o.kind
    case Name => v.(name := o.s)
    case Path => v.(path := o.s)
    case Arg => v.(args := v.args + [o.s])
    case Env => v.(envp := v.envp + [o.s])
    case Dir => v.(dir := o.s)
  }

  /** What the closing brace changes. */
  ghost function Framed(v: View): View
    requires v.View?
  {
    v.(args := [v.path] + v.args + [null], envp := if v.envp == [] then [] else v.envp + [null])
  }

  /** The options of a block, one after the other. */
  ghost function Built(os: seq<Opt>): (v: View)
    ensures v.View?
  {
    if os == [] then Blank else Taken(Built(os[..|os| - 1]), os[|os| - 1])
  }

  lemma OpenSnoc(os: seq<Opt>, o: Opt)
    ensures Open(os + [o]) == Taken(Open(os), o)
  {
    assert (os + [o])[..|os|] == os;
  }

  /** What they come to. */
  lemma {:induction false} BuiltOpen(os: seq<Opt>)
    ensures Built(os) == Open(os)
  {
    if os == [] {
    } else {
      var (init, o) := (os[..|os| - 1], os[|os| - 1]);
      BuiltOpen(init);
      OpenSnoc(init, o);
      assert os == init + [o];
    }
  }

  lemma BuiltShut(os: seq<Opt>)
    ensures Framed(Built(os)) == Shut(os)
  {
    BuiltOpen(os);
  }

  class Task {
    var name: Str?
    var path: Str?
    var dir: Str?
    const args: Vector
    const envp: Vector
    const list: ListHead

    constructor ()
      ensures Shown() == Blank && fresh(Footprint()) && fresh(list)
    {
      name, path, dir := null, null, null;
      args := new Vector();
      envp := new Vector();
      list := new ListHead();
    }

    ghost function Footprint(): set<object>
      reads this, args, envp
    {
      {this, args, envp} + (if args.data == null then {} else {args.data}) +
      if envp.data == null then {} else {envp.data}
    }

    /** An environment vector exists exactly when it has a string. */
    ghost predicate Valid()
      reads this, args, args.data, envp, envp.data
    {
      && args.Valid() && envp.Valid() && args != envp
      && (args.data != null && envp.data != null ==> args.data != envp.data)
      && (envp.data == null <==> envp.Contents() == [])
    }

    ghost function Shown(): View
      reads this, args, args.data, envp, envp.data
    {
      if Valid() then View(name, path, dir, args.Contents(), envp.Contents()) else Broken
    }

    method AddArg(s: Str)
      requires Shown().View?
      modifies args, args.data
      ensures Shown() == Taken(old(Shown()), Opt(Arg, s))
      ensures fresh(Footprint() - old(Footprint()))
    {
      args.Push(s, DEFAULT_LEN);
      assert envp.Contents() == old(envp.Contents());
    }

    method AddEnv(s: Str)
      requires Shown().View?
      modifies envp, envp.data
      ensures Shown() == Taken(old(Shown()), Opt(Env, s))
      ensures fresh(Footprint() - old(Footprint()))
    {
      envp.Push(s, DEFAULT_LEN);
      assert args.Contents() == old(args.Contents());
    }

    method Option(o: Opt)
      requires Shown().View?
      modifies this, args, args.data, envp, envp.data
      ensures Shown() == Taken(old(Shown()), o)
      ensures fresh(Footprint() - old(Footprint()))
    {
      match o.kind
      case Name => name := o.s;
      case Path => path := o.s;
      case Arg => AddArg(o.s);
      case Env => AddEnv(o.s);
      case Dir => dir := o.s;
    }

    method Close()
      requires Shown().View?
      modifies args, args.data, envp, envp.data
      ensures Shown() == Framed(old(Shown()))
      ensures fresh(Footprint() - old(Footprint()))
    {
      args.Frame(path);
      if envp.data != null {
        envp.Push(null, 1);
      }
    }

    /** Returns every string it frees, in the order of the calls.  The path goes with the
        arguments, of which it is the first. */
    method Free(ghost os: seq<Opt>) returns (freed: seq<Str>)
      requires Shown() == Shut(os)
      ensures freed == Freed(os)
    {
      freed := FreeVectors(os);
      freed := freed + FreeString(name, Of(os, Name));
      freed := freed + FreeString(dir, Of(os, Dir));
    }

    /** free takes NULL too. */
    function FreeString(s: Str?, ghost r: seq<Str>): (freed: seq<Str>)
      requires s == Latest(r)
      ensures freed == Kept(r)
    {
      if s == null then [] else [s]
    }

    method FreeVectors(ghost os: seq<Opt>) returns (freed: seq<Str>)
      requires Shown() == Shut(os)
      ensures freed == Walked(Of(os, Path), Of(os, Arg)) + Of(os, Env)
    {
      ghost var w := Walked(Of(os, Path), Of(os, Arg));
      assert Valid();
      assert |w| < |args.Contents()| && args.Contents()[|w|] == null;
      freed := args.Free(w);
      if envp.data != null {
        var more := envp.Free(Of(os, Env));
        freed := freed + more;
      }
    }
  }

  // ---------------------------------------------------------------- ownership

  /** What is left of the strings of one setting. */
  ghost function Kept(r: seq<Str>): seq<Str> {
    if r == [] then [] else [r[|r| - 1]]
  }

  /** What the walk over the argument vector meets before a NULL, given the paths and the arguments. */
  ghost function Walked(p: seq<Str>, a: seq<Str>): seq<Str> {
    if p == [] then [] else Kept(p) + a
  }

  ghost function Freed(os: seq<Opt>): seq<Str> {
    Walked(Of(os, Path), Of(os, Arg)) + Of(os, Env) + Kept(Of(os, Name)) + Kept(Of(os, Dir))
  }

  lemma {:induction false} StringsByKind(os: seq<Opt>)
    ensures Strings(os) == multiset(Of(os, Name)) + multiset(Of(os, Path)) + multiset(Of(os, Arg)) +
      multiset(Of(os, Env)) + multiset(Of(os, Dir))
  {
    if os == [] {
    } else {
      StringsByKind(os[..|os| - 1]);
    }
  }

  /** No setting is made twice, and arguments come with a path. */
  ghost predicate Complete(os: seq<Opt>) {
    && |Of(os, Name)| <= 1 && |Of(os, Path)| <= 1 && |Of(os, Dir)| <= 1
    && (Of(os, Arg) != [] ==> Of(os, Path) != [])
  }

  lemma KeptPart(r: seq<Str>)
    ensures multiset(Kept(r)) <= multiset(r)
    ensures multiset(Kept(r)) == multiset(r) <==> |r| <= 1
  {
    if |r| > 0 {
      assert r == r[..|r| - 1] + Kept(r);
      assert |multiset(r)| == |r| && |multiset(Kept(r))| == 1;
    }
  }

  lemma WalkedPart(p: seq<Str>, a: seq<Str>)
    ensures multiset(Walked(p, a)) <= multiset(p) + multiset(a)
    ensures multiset(Walked(p, a)) == multiset(p) + multiset(a) <==> |p| <= 1 && (a != [] ==> p != [])
  {
    KeptPart(p);
    if p == [] {
      assert |multiset(a)| == |a|;
    } else {
      assert multiset(Kept(p) + a) == multiset(Kept(p)) + multiset(a);
      MultisetSums(multiset(Kept(p)), multiset(p), multiset(a), multiset(a));
    }
  }

  lemma MultisetSums(a: multiset<Str>, b: multiset<Str>, c: multiset<Str>, d: multiset<Str>)
    requires a <= b && c <= d
    ensures a + c <= b + d
    ensures a + c == b + d <==> a == b && c == d
  {
    if a + c == b + d {
      forall x ensures a[x] == b[x] && c[x] == d[x] {
        assert (a + c)[x] == (b + d)[x];
      }
      assert a == b && c == d;
    }
  }

  lemma FreedPart(n: seq<Str>, d: seq<Str>, e: multiset<Str>, w: multiset<Str>, pa: multiset<Str>)
    requires w <= pa
    ensures w + e + multiset(Kept(n)) + multiset(Kept(d)) <= pa + e + multiset(n) + multiset(d)
    ensures w + e + multiset(Kept(n)) + multiset(Kept(d)) == pa + e + multiset(n) + multiset(d)
            <==> w == pa && |n| <= 1 && |d| <= 1
  {
    KeptPart(n);
    KeptPart(d);
    MultisetSums(w, pa, e, e);
    MultisetSums(w + e, pa + e, multiset(Kept(n)), multiset(n));
    MultisetSums(w + e + multiset(Kept(n)), pa + e + multiset(n), multiset(Kept(d)), multiset(d));
  }

  /** Closing a task never frees a string it was not given, nor one more often than it was
      given it.  It frees all of them exactly when no setting is repeated and the arguments,
      if any, come with a path: otherwise the NULL in their first place hides them. */
  lemma {:induction false} FreedOnce(os: seq<Opt>)
    ensures multiset(Freed(os)) <= Strings(os)
    ensures multiset(Freed(os)) == Strings(os) <==> Complete(os)
  {
    StringsByKind(os);
    var (p, a) := (Of(os, Path), Of(os, Arg));
    WalkedPart(p, a);
    FreedPart(Of(os, Name), Of(os, Dir), multiset(Of(os, Env)), multiset(Walked(p, a)), multiset(p) + multiset(a));
    FreedSum(Walked(p, a), Of(os, Env), Kept(Of(os, Name)), Kept(Of(os, Dir)));
  }

  /** All but the last of the strings of one setting. */
  ghost function Forgotten(r: seq<Str>): seq<Str> {
    if r == [] then [] else r[..|r| - 1]
  }

  lemma KeptOrForgotten(r: seq<Str>)
    ensures multiset(r) == multiset(Kept(r)) + multiset(Forgotten(r))
  {
    if r != [] {
      assert r == Forgotten(r) + Kept(r);
    }
  }

  /** What closing a task loses: the settings that were overwritten, and the arguments of a task
      without a path. */
  ghost function Lost(os: seq<Opt>): multiset<Str> {
    multiset(Forgotten(Of(os, Name))) + multiset(Forgotten(Of(os, Path))) + multiset(Forgotten(Of(os, Dir))) +
    multiset(if Of(os, Path) == [] then Of(os, Arg) else [])
  }

  lemma WalkedOrLost(p: seq<Str>, a: seq<Str>)
    ensures multiset(p) + multiset(a) ==
      multiset(Walked(p, a)) + multiset(Forgotten(p)) + multiset(if p == [] then a else [])
  {
    KeptOrForgotten(p);
    if p != [] {
      assert multiset(Kept(p) + a) == multiset(Kept(p)) + multiset(a);
    }
  }

  lemma Account(n: multiset<Str>, d: multiset<Str>, e: multiset<Str>, pa: multiset<Str>, w: multiset<Str>,
    kn: multiset<Str>, kd: multiset<Str>, fn: multiset<Str>, fp: multiset<Str>, fd: multiset<Str>, l: multiset<Str>)
    requires n == kn + fn && d == kd + fd && pa == w + fp + l
    ensures n + pa + e + d == (w + e + kn + kd) + (fn + fp + fd + l)
  {
  }

  /** Exactly what is freed, whatever the options were: every string is either freed or lost. */
  lemma {:induction false} FreedOrLost(os: seq<Opt>)
    ensures Strings(os) == multiset(Freed(os)) + Lost(os)
  {
    StringsByKind(os);
    var (n, p, a, e, d) := (Of(os, Name), Of(os, Path), Of(os, Arg), Of(os, Env), Of(os, Dir));
    var l := if p == [] then a else [];
    WalkedOrLost(p, a);
    KeptOrForgotten(n);
    KeptOrForgotten(d);
    FreedSum(Walked(p, a), e, Kept(n), Kept(d));
    Account(multiset(n), multiset(d), multiset(e), multiset(p) + multiset(a), multiset(Walked(p, a)), multiset(Kept(n)),
            multiset(Kept(d)), multiset(Forgotten(n)), multiset(Forgotten(p)), multiset(Forgotten(d)), multiset(l));
    assert Strings(os) == multiset(n) + (multiset(p) + multiset(a)) + multiset(e) + multiset(d);
  }

  lemma OfTwo(a: Opt, b: Opt, k: Kind)
    ensures Of([a, b], k) == (if a.kind == k then [a.s] else []) + if b.kind == k then [b.s] else []
  {
    assert [a, b][..1] == [a];
    OfOne(a, k);
  }

  /** A name and one argument, but no path: the argument is never freed. */
  lemma ArgumentLeaks(n: Str, a: Str)
    ensures var os := [Opt(Name, n), Opt(Arg, a)]; Freed(os) == [n] && multiset(Freed(os)) != Strings(os)
  {
    var (x, y) := (Opt(Name, n), Opt(Arg, a));
    OfTwo(x, y, Name);
    OfTwo(x, y, Path);
    OfTwo(x, y, Arg);
    OfTwo(x, y, Env);
    OfTwo(x, y, Dir);
    FreedOnce([x, y]);
  }

  lemma TwoNames(m: Str, n: Str)
    ensures var os := [Opt(Name, m), Opt(Name, n)]; Freed(os) == [n] && |Of(os, Name)| == 2
  {
    var (x, y) := (Opt(Name, m), Opt(Name, n));
    OfTwo(x, y, Name);
    OfTwo(x, y, Path);
    OfTwo(x, y, Env);
    OfTwo(x, y, Dir);
  }

  /** A name set twice: the first one is never freed. */
  lemma RepeatedNameLeaks(m: Str, n: Str)
    ensures var os := [Opt(Name, m), Opt(Name, n)]; Freed(os) == [n] && multiset(Freed(os)) != Strings(os)
  {
    TwoNames(m, n);
    FreedOnce([Opt(Name, m), Opt(Name, n)]);
  }

  lemma FreedSum(a: seq<Str>, b: seq<Str>, c: seq<Str>, d: seq<Str>)
    ensures multiset(a + b + c + d) == multiset(a) + multiset(b) + multiset(c) + multiset(d)
  {
  }

  // ---------------------------------------------------------------- the whole file

  /** One option: the current task is made by the first that needs it. */
  method Reduce(task: Task?, o: Opt) returns (t: Task)
    requires task != null ==> task.Shown().View?
    modifies if task == null then {} else task.Footprint()
    ensures t.Shown() == Taken(if task == null then Blank else old(task.Shown()), o)
    ensures task == null ==> fresh(t.list) && fresh(t.Footprint())
    ensures task != null ==> t == task && fresh(t.Footprint() - old(task.Footprint()))
  {
    if task == null {
      t := new Task();
    } else {
      t := task;
    }
    t.Option(o);
  }

  /** The options of a block, up to the closing brace. */
  method Options(os: seq<Opt>) returns (task: Task?)
    ensures task == null <==> os == []
    ensures task != null ==> task.Shown() == Built(os) && fresh(task.list) && fresh(task.Footprint())
  {
    task := null;
    for i := 0 to |os|
      invariant task == null <==> i == 0
      invariant task != null ==> fresh(task.list) && fresh(task.Footprint()) && task.Shown() == Built(os[..i])
    {
      assert os[..i + 1][..i] == os[..i];
      task := Reduce(task, os[i]);
    }
    assert os[..|os|] == os;
  }

  /** One task block.  The closing brace needs a task: a block with no option has none. */
  method Block(os: seq<Opt>) returns (t: Task)
    requires os != []
    ensures fresh(t.list) && fresh(t.Footprint())
    ensures t.Shown() == Shut(os)
  {
    t := Options(os);
    t.Close();
    BuiltShut(os);
  }

  ghost predicate AllShown(ts: seq<Task>, vs: seq<View>)
    reads ts, set t | t in ts :: t.args, set t | t in ts :: t.envp
    reads set t | t in ts && t.args.data != null :: t.args.data, set t | t in ts && t.envp.data != null :: t.envp.data
  {
    |ts| == |vs| && forall j :: 0 <= j < |ts| ==> ts[j].Shown() == vs[j]
  }

  lemma AllShownSnoc(ts: seq<Task>, vs: seq<View>, t: Task)
    requires AllShown(ts, vs)
    ensures AllShown(ts + [t], vs + [t.Shown()])
  {
  }

  /** A finished task does not depend on the blocks after its own. */
  method Another(os: seq<Opt>, ghost ts: seq<Task>, ghost vs: seq<View>) returns (t: Task)
    requires os != [] && AllShown(ts, vs)
    ensures AllShown(ts, vs) && t.Shown() == Shut(os) && fresh(t.list)
  {
    t := Block(os);
    forall j | 0 <= j < |ts|
      ensures ts[j].Shown() == vs[j]
    {
      assert old(ts[j].Shown()) == vs[j];
    }
  }

  /** Nor on the links of the lists it is in. */
  method Enlist(entry: ListHead, tasks: ListHead, ghost ts: seq<Task>, ghost vs: seq<View>, ghost ls: seq<ListHead>)
    requires AllShown(ts, vs) && Ring(tasks, ls) && entry != tasks && entry !in ls
    modifies entry, tasks, ls
    ensures AllShown(ts, vs) && Ring(tasks, [entry] + ls)
  {
    Add(entry, tasks, ls);
    forall j | 0 <= j < |ts|
      ensures ts[j].Shown() == vs[j]
    {
      assert old(ts[j].Shown()) == vs[j];
    }
  }

  /** A whole block: the task is made and goes to the front of the list. */
  method TaskBlock(os: seq<Opt>, tasks: ListHead, ghost ts: seq<Task>, ghost vs: seq<View>,
    ghost ls: seq<ListHead>) returns (t: Task)
    requires os != [] && AllShown(ts, vs) && Ring(tasks, ls)
    modifies tasks, ls
    ensures AllShown(ts + [t], vs + [Shut(os)]) && Ring(tasks, [t.list] + ls) && fresh(t.list)
  {
    t := Another(os, ts, vs);
    AllShownSnoc(ts, vs, t);
    Enlist(t.list, tasks, ts + [t], vs + [Shut(os)], ls);
  }

  /** `ls` lists the tasks last first. */
  ghost predicate Reversed(ls: seq<ListHead>, ts: seq<Task>) {
    |ls| == |ts| && forall i :: 0 <= i < |ls| ==> ls[i] == ts[|ts| - 1 - i].list
  }

  lemma ReversedSnoc(ls: seq<ListHead>, ts: seq<Task>, t: Task)
    requires Reversed(ls, ts)
    ensures Reversed([t.list] + ls, ts + [t])
  {
  }

  ghost predicate AllShut(vs: seq<View>, blocks: seq<seq<Opt>>) {
    |vs| == |blocks| && forall i :: 0 <= i < |vs| ==> vs[i] == Shut(blocks[i])
  }

  lemma PrefixSnoc<T>(s: seq<T>, i: nat)
    requires i < |s|
    ensures s[..i + 1] == s[..i] + [s[i]]
  {
  }

  lemma AllShutSnoc(vs: seq<View>, bs: seq<seq<Opt>>, os: seq<Opt>)
    requires AllShut(vs, bs)
    ensures AllShut(vs + [Shut(os)], bs + [os])
  {
    forall i | 0 <= i <= |vs|
      ensures (vs + [Shut(os)])[i] == Shut((bs + [os])[i])
    {
      if i < |vs| {
        assert vs[i] == Shut(bs[i]);
      }
    }
  }

  /** Every block becomes a task, and the list holds them last block first. */
  method Config(blocks: seq<seq<Opt>>, tasks: ListHead) returns (ts: seq<Task>, ghost ls: seq<ListHead>,
    ghost vs: seq<View>)
    requires forall i :: 0 <= i < |blocks| ==> blocks[i] != []
    modifies tasks
    ensures AllShown(ts, vs) && AllShut(vs, blocks)
    ensures Ring(tasks, ls) && Reversed(ls, ts)
  {
    InitList(tasks);
    ts, ls, vs := [], [], [];
    ghost var bs: seq<seq<Opt>> := [];
    for i := 0 to |blocks|
      invariant AllShown(ts, vs) && bs == blocks[..i] && AllShut(vs, bs)
      invariant Ring(tasks, ls) && fresh(ls) && Reversed(ls, ts)
    {
      var os := blocks[i];
      var t := TaskBlock(os, tasks, ts, vs, ls);
      ReversedSnoc(ls, ts, t);
      AllShutSnoc(vs, bs, os);
      PrefixSnoc(blocks, i);
      ts, vs, ls, bs := ts + [t], vs + [Shut(os)], [t.list] + ls, bs + [os];
    }
  }
}

/** The round-robin task scheduler. `run` runs the first task that is not cancelled, but moves
    whatever is in front of the list to its back.
 */
module Tasks {

  // ---------------------------------------------------------------- the scheduler as a state machine

  /** The list, the flags of all tasks there are, and, to talk about histories, the tasks
      deleted so far and the log of the tasks run. */
  datatype Sched<T(==)> = Sched(
    tasks: seq<T>, repeating: set<T>, cancelled: set<T>, destroyed: set<T>, deleted: set<T>, log: seq<T>)

  /** What others do with a task: start, cancel and destroy of the runner, destroy of the task. */
  datatype Op<T> = Start(task: T) | Cancel(task: T) | Destroy(task: T) | Mark(task: T)

  function Apply<T(==)>(s: Sched<T>, op: Op<T>): Sched<T> {
    match op
    case Start(t) => if t in s.tasks then s else s.(tasks := s.tasks + [t])
    case Cancel(t) => s.(cancelled := s.cancelled + {t})
    case Destroy(t) => if t in s.tasks then s.(destroyed := s.destroyed + {t}) else s.(deleted := s.deleted + {t})
    case Mark(t) => s.(destroyed := s.destroyed + {t})
  }

  function ApplyAll<T(==)>(s: Sched<T>, ops: seq<Op<T>>): Sched<T> {
    if ops == [] then s else Apply(ApplyAll(s, ops[..|ops| - 1]), ops[|ops| - 1])
  }

  /** The index of the first task that is not cancelled, or the length of the list. */
  function FirstLive<T(==)>(tasks: seq<T>, cancelled: set<T>): (k: nat)
    ensures k <= |tasks|
    ensures forall i :: 0 <= i < k ==> tasks[i] in cancelled
    ensures k < |tasks| ==> tasks[k] !in cancelled
  {
    if tasks == [] || tasks[0] !in cancelled then 0
    else
      var k := FirstLive(tasks[1..], cancelled);
      assert forall i :: 0 < i <= k ==> tasks[i] == tasks[1..][i - 1];
      k + 1
  }

  function Without<T(==)>(tasks: seq<T>, t: T): seq<T> {
    if tasks == [] then [] else if tasks[0] == t then tasks[1..] else [tasks[0]] + Without(tasks[1..], t)
  }

  /** The task that has run: cancelled if it does not repeat, the list moved on by one place,
      and the task deleted if it is destroyed. */
  function Finish<T(==)>(s: Sched<T>, t: T): Sched<T>
    requires s.tasks != []
  {
    var tasks := s.tasks[1..] + [s.tasks[0]];
    var cancelled := if t in s.repeating then s.cancelled else s.cancelled + {t};
    if t in s.destroyed then s.(tasks := Without(tasks, t), cancelled := cancelled, deleted := s.deleted + {t})
    else s.(tasks := tasks, cancelled := cancelled)
  }

  /** run; `during` is what the task does to the runner's tasks while it runs. */
  function RunOnce<T(==)>(s: Sched<T>, during: seq<Op<T>>): Sched<T> {
    var k := FirstLive(s.tasks, s.cancelled);
    if k == |s.tasks| then s
    else
      var t := s.tasks[k];
      var u := ApplyAll(s.(log := s.log + [t]), during);
      KeepsTasks(s.(log := s.log + [t]), during);
      Finish(u, t)
  }

  /** Nothing but `run` takes a task off the list. */
  lemma {:induction false} KeepsTasks<T>(s: Sched<T>, ops: seq<Op<T>>)
    ensures s.tasks <= ApplyAll(s, ops).tasks && ApplyAll(s, ops).log == s.log
    ensures ApplyAll(s, ops).repeating == s.repeating
    ensures s.cancelled <= ApplyAll(s, ops).cancelled
  {
    if ops != [] {
      KeepsTasks(s, ops[..|ops| - 1]);
    }
  }

  // ---------------------------------------------------------------- histories

  datatype Event<T> = Between(op: Op<T>) | Run(during: seq<Op<T>>)

  function Happen<T(==)>(s: Sched<T>, e: Event<T>): Sched<T> {
    match e
    case Between(op) => Apply(s, op)
    case Run(during) => RunOnce(s, during)
  }

  function Execute<T(==)>(s: Sched<T>, h: seq<Event<T>>): Sched<T>
    decreases |h|
  {
    if h == [] then s else Execute(Happen(s, h[0]), h[1..])
  }

  /** A deleted task is no longer touched. */
  predicate LegalOps<T(==)>(s: Sched<T>, ops: seq<Op<T>>)
    decreases |ops|
  {
    ops == [] || (ops[0].task !in s.deleted && LegalOps(Apply(s, ops[0]), ops[1..]))
  }

  /** What the first live task does while it runs begins with its own entry in the log. */
  predicate LegalEvent<T(==)>(s: Sched<T>, e: Event<T>) {
    match e
    case Between(op) => op.task !in s.deleted
    case Run(during) =>
      var k := FirstLive(s.tasks, s.cancelled);
      k < |s.tasks| ==> LegalOps(s.(log := s.log + [s.tasks[k]]), during)
  }

  predicate Legal<T(==)>(s: Sched<T>, h: seq<Event<T>>)
    decreases |h|
  {
    h == [] || (LegalEvent(s, h[0]) && Legal(Happen(s, h[0]), h[1..]))
  }

  // ---------------------------------------------------------------- safety

  predicate NoDuplicates<T(==)>(tasks: seq<T>) { forall i, j :: 0 <= i < j < |tasks| ==> tasks[i] != tasks[j] }

  /** The list holds no task twice and no deleted one; a task that does not repeat has run at
      most once, and is cancelled if it has. `now` is the task that is running, if any. */
  ghost predicate Valid<T>(s: Sched<T>, now: set<T>) {
    && NoDuplicates(s.tasks)
    && (forall t :: t in s.tasks ==> t !in s.deleted)
    && (forall t :: t in s.log && t !in s.repeating ==> multiset(s.log)[t] == 1)
    && (forall t :: t in s.log && t !in s.repeating ==> t in s.cancelled + now)
    && (forall t :: t in now ==> t in s.tasks)
  }

  lemma ApplyKeepsValid<T>(s: Sched<T>, op: Op<T>, now: set<T>)
    requires Valid(s, now) && op.task !in s.deleted
    ensures Valid(Apply(s, op), now)
  {
  }

  lemma {:induction false} OpsKeepValid<T>(s: Sched<T>, ops: seq<Op<T>>, now: set<T>)
    requires Valid(s, now) && LegalOps(s, ops)
    ensures Valid(ApplyAll(s, ops), now)
    decreases |ops|
  {
    if ops != [] {
      ApplyKeepsValid(s, ops[0], now);
      OpsKeepValid(Apply(s, ops[0]), ops[1..], now);
      ApplyFirst(s, ops);
    }
  }

  lemma {:induction false} ApplyFirst<T>(s: Sched<T>, ops: seq<Op<T>>)
    requires ops != []
    ensures ApplyAll(s, ops) == ApplyAll(Apply(s, ops[0]), ops[1..])
  {
    var n := |ops| - 1;
    if n == 0 {
      assert ApplyAll(s, ops[..0]) == s;
    } else {
      ApplyFirst(s, ops[..n]);
      assert ops[..n][1..] == ops[1..][..n - 1];
    }
  }

  lemma {:induction false} WithoutIs<T>(tasks: seq<T>, t: T)
    requires NoDuplicates(tasks)
    ensures NoDuplicates(Without(tasks, t))
    ensures forall u :: u in Without(tasks, t) <==> u in tasks && u != t
  {
    if tasks != [] && tasks[0] != t {
      WithoutIs(tasks[1..], t);
      assert tasks == [tasks[0]] + tasks[1..];
      var w := Without(tasks[1..], t);
      assert tasks[0] !in w by {
        assert tasks[0] !in tasks[1..];
      }
    } else if tasks != [] {
      assert tasks == [t] + tasks[1..];
    }
  }

  /** Starting, cancelling, destroying and running tasks keeps the invariant. */
  lemma HappenKeepsValid<T>(s: Sched<T>, e: Event<T>)
    requires Valid(s, {}) && LegalEvent(s, e)
    ensures Valid(Happen(s, e), {})
  {
    match e
    case Between(op) => ApplyKeepsValid(s, op, {});
    case Run(during) =>
      var k := FirstLive(s.tasks, s.cancelled);
      if k < |s.tasks| {
        var t := s.tasks[k];
        var logged := s.(log := s.log + [t]);
        LoggedIsValid(s, t);
        OpsKeepValid(logged, during, {t});
        KeepsTasks(logged, during);
        FinishKeepsValid(ApplyAll(logged, during), t);
      }
  }

  lemma LoggedIsValid<T>(s: Sched<T>, t: T)
    requires Valid(s, {}) && t in s.tasks && t !in s.cancelled
    ensures Valid(s.(log := s.log + [t]), {t})
  {
    assert multiset(s.log + [t]) == multiset(s.log) + multiset{t};
    assert t !in s.repeating ==> t !in s.log;
  }

  lemma FinishKeepsValid<T>(s: Sched<T>, t: T)
    requires s.tasks != [] && Valid(s, {t})
    ensures Valid(Finish(s, t), {})
  {
    var rotated := s.tasks[1..] + [s.tasks[0]];
    assert NoDuplicates(rotated);
    assert forall u :: u in rotated <==> u in s.tasks by {
      assert s.tasks == [s.tasks[0]] + s.tasks[1..];
    }
    WithoutIs(rotated, t);
  }

  /** In every history: no task is listed twice, no deleted task is listed, and no task that
      does not repeat runs twice. */
  lemma {:induction false} AlwaysValid<T>(s: Sched<T>, h: seq<Event<T>>)
    requires Valid(s, {}) && Legal(s, h)
    ensures Valid(Execute(s, h), {})
    decreases |h|
  {
    hide Valid, Happen, LegalEvent;
    if h != [] {
      HappenKeepsValid(s, h[0]);
      AlwaysValid(Happen(s, h[0]), h[1..]);
    }
  }

  // ---------------------------------------------------------------- no starvation

  function Runs<T>(h: seq<Event<T>>): nat {
    if h == [] then 0 else (if h[0].Run? then 1 else 0) + Runs(h[1..])
  }

  predicate NoCancel<T(==)>(ops: seq<Op<T>>, t: T) { Cancel(t) !in ops }

  /** Nobody cancels this task. */
  predicate NeverCancelled<T(==)>(h: seq<Event<T>>, t: T) {
    forall i :: 0 <= i < |h| ==>
      match h[i]
      case Between(op) => op != Cancel(t)
      case Run(during) => NoCancel(during, t)
  }

  lemma {:induction false} NotCancelled<T>(s: Sched<T>, ops: seq<Op<T>>, t: T)
    requires NoCancel(ops, t) && t !in s.cancelled
    ensures t !in ApplyAll(s, ops).cancelled
  {
    if ops != [] {
      NotCancelled(s, ops[..|ops| - 1], t);
    }
  }

  /** A live task at index k either runs or moves at least one place to the front. */
  lemma RunAdvances<T>(s: Sched<T>, during: seq<Op<T>>, k: nat)
    requires NoDuplicates(s.tasks) && k < |s.tasks| && s.tasks[k] !in s.cancelled && NoCancel(during, s.tasks[k])
    requires NoDuplicates(RunOnce(s, during).tasks)
    ensures var r := RunOnce(s, during);
            var t := s.tasks[k];
            || (r.log == s.log + [t])
            || (s.log <= r.log && t !in r.cancelled && k > 0
                && exists j :: 0 <= j < k && j < |r.tasks| && r.tasks[j] == t)
  {
    var t := s.tasks[k];
    var j := FirstLive(s.tasks, s.cancelled);
    assert j <= k;
    var v := s.tasks[j];
    var logged := s.(log := s.log + [v]);
    KeepsTasks(logged, during);
    if j < k {
      NotCancelled(logged, during, t);
      RunMoves(s, during, k);
    }
  }

  /** Taking a task off the list moves no other task back. */
  lemma {:induction false} WithoutMoves<T>(tasks: seq<T>, v: T, k: nat)
    requires k < |tasks| && tasks[k] != v
    ensures exists j :: 0 <= j <= k && j < |Without(tasks, v)| && Without(tasks, v)[j] == tasks[k]
  {
    var w := Without(tasks, v);
    if tasks[0] == v {
      assert w[k - 1] == tasks[k];
    } else if k == 0 {
      assert w[0] == tasks[0];
    } else {
      WithoutMoves(tasks[1..], v, k - 1);
      var j :| 0 <= j <= k - 1 && j < |Without(tasks[1..], v)| && Without(tasks[1..], v)[j] == tasks[1..][k - 1];
      assert w[j + 1] == tasks[k];
    }
  }

  /** A live task at index k of the list that nobody cancels is run within k + 1 calls of `run`,
      whatever tasks are started, cancelled or destroyed in between and while tasks run. */
  lemma {:induction false} NoStarvation<T>(s: Sched<T>, h: seq<Event<T>>, k: nat)
    requires Valid(s, {}) && Legal(s, h)
    requires k < |s.tasks| && s.tasks[k] !in s.cancelled && NeverCancelled(h, s.tasks[k])
    requires Runs(h) >= k + 1
    ensures s.log <= Execute(s, h).log && s.tasks[k] in Execute(s, h).log[|s.log|..]
    decreases |h|
  {
    hide Valid, Legal, LegalEvent, Execute, RunOnce, NoCancel;
    var t := s.tasks[k];
    var e, rest := h[0], h[1..];
    var r := Happen(s, e);
    LegalFirst(s, h);
    HappenKeepsValid(s, e);
    assert NeverCancelled(rest, t) by {
      assert forall i :: 0 <= i < |rest| ==> rest[i] == h[i + 1];
    }
    LogGrows(r, rest);
    match e
    case Between(op) =>
      assert r.tasks[k] == t;
      NoStarvation(r, rest, k);
    case Run(during) =>
      ValidHasNone(s);
      ValidHasNone(r);
      RunAdvances(s, during, k);
      if r.log == s.log + [t] {
        assert Execute(s, h).log[|s.log|] == t;
      } else {
        var j :| 0 <= j < k && j < |r.tasks| && r.tasks[j] == t;
        NoStarvation(r, rest, j);
        var all := Execute(s, h).log;
        assert forall i :: |r.log| <= i < |all| ==> all[i] in all[|s.log|..];
      }
  }

  lemma LegalFirst<T>(s: Sched<T>, h: seq<Event<T>>)
    requires h != [] && Legal(s, h)
    ensures LegalEvent(s, h[0]) && Legal(Happen(s, h[0]), h[1..])
    ensures Execute(s, h) == Execute(Happen(s, h[0]), h[1..])
  {
  }

  lemma ValidHasNone<T>(s: Sched<T>)
    requires Valid(s, {})
    ensures NoDuplicates(s.tasks)
  {
  }

  lemma {:induction false} LogGrows<T>(s: Sched<T>, h: seq<Event<T>>)
    ensures s.log <= Execute(s, h).log
    decreases |h|
  {
    if h != [] {
      if h[0].Run? {
        var k := FirstLive(s.tasks, s.cancelled);
        if k < |s.tasks| {
          KeepsTasks(s.(log := s.log + [s.tasks[k]]), h[0].during);
        }
      }
      LogGrows(Happen(s, h[0]), h[1..]);
    }
  }

  /** A cancelled task is never run again, and so never taken off the list, destroyed or not. */
  lemma {:induction false} CancelledStays<T>(s: Sched<T>, h: seq<Event<T>>, t: T)
    requires Valid(s, {}) && Legal(s, h) && t in s.tasks && t in s.cancelled
    ensures s.log <= Execute(s, h).log
    ensures t in Execute(s, h).tasks && t !in Execute(s, h).log[|s.log|..]
    decreases |h|
  {
    hide Valid, Legal, LegalEvent, Execute, RunOnce;
    if h == [] {
      NothingHappens(s, h);
    } else {
      var r, rest := Happen(s, h[0]), h[1..];
      LegalFirst(s, h);
      HappenKeepsValid(s, h[0]);
      ValidHasNone(s);
      CancelledOnce(s, h[0], t);
      CancelledStays(r, rest, t);
      var all := Execute(s, h).log;
      assert forall i :: |s.log| <= i < |r.log| ==> all[i] == r.log[i];
      assert forall i :: |r.log| <= i < |all| ==> all[i] in all[|r.log|..];
    }
  }

  lemma NothingHappens<T>(s: Sched<T>, h: seq<Event<T>>)
    requires h == []
    ensures Execute(s, h) == s
  {
  }

  lemma CancelledOnce<T>(s: Sched<T>, e: Event<T>, t: T)
    requires NoDuplicates(s.tasks) && t in s.tasks && t in s.cancelled
    ensures var r := Happen(s, e);
            t in r.tasks && t in r.cancelled && s.log <= r.log && t !in r.log[|s.log|..]
  {
    if e.Run? {
      var k := FirstLive(s.tasks, s.cancelled);
      if k < |s.tasks| {
        var v := s.tasks[k];
        var logged := s.(log := s.log + [v]);
        KeepsTasks(logged, e.during);
        FinishKeepsOthers(ApplyAll(logged, e.during), v, t);
        assert forall i :: 0 <= i < |s.log| ==> logged.log[i] == s.log[i];
      }
    }
  }

  lemma FinishKeepsOthers<T>(u: Sched<T>, v: T, t: T)
    requires t in u.tasks && t != v
    ensures t in Finish(u, v).tasks && u.cancelled <= Finish(u, v).cancelled && Finish(u, v).log == u.log
  {
    var rotated := u.tasks[1..] + [u.tasks[0]];
    assert u.tasks == [u.tasks[0]] + u.tasks[1..];
    assert t in rotated;
    OthersStay(rotated, v, t);
  }

  lemma {:induction false} OthersStay<T>(tasks: seq<T>, v: T, t: T)
    requires t in tasks && t != v
    ensures t in Without(tasks, v)
  {
    assert tasks == [tasks[0]] + tasks[1..];
    if tasks[0] != v && tasks[0] != t {
      OthersStay(tasks[1..], v, t);
    }
  }

  // ---------------------------------------------------------------- what becomes of a destroyed task

  /** The task that this call of `run` runs. */
  predicate RunsNow<T(==)>(s: Sched<T>, e: Event<T>, t: T) {
    var k := FirstLive(s.tasks, s.cancelled);
    e.Run? && k < |s.tasks| && s.tasks[k] == t
  }

  /** The task is cancelled, or will be before it is run. */
  predicate CancelledFirst<T(==)>(s: Sched<T>, h: seq<Event<T>>, t: T)
    decreases |h|
  {
    t in s.cancelled || (h != [] && !RunsNow(s, h[0], t) && CancelledFirst(Happen(s, h[0]), h[1..], t))
  }

  lemma {:induction false} StaysDestroyed<T>(s: Sched<T>, ops: seq<Op<T>>)
    ensures s.destroyed <= ApplyAll(s, ops).destroyed && s.deleted <= ApplyAll(s, ops).deleted
  {
    if ops != [] {
      StaysDestroyed(s, ops[..|ops| - 1]);
    }
  }

  lemma HappenKeepsDeleted<T>(s: Sched<T>, e: Event<T>)
    ensures s.deleted <= Happen(s, e).deleted && s.destroyed <= Happen(s, e).destroyed
  {
    if e.Run? {
      var k := FirstLive(s.tasks, s.cancelled);
      if k < |s.tasks| {
        var logged := s.(log := s.log + [s.tasks[k]]);
        KeepsTasks(logged, e.during);
        StaysDestroyed(logged, e.during);
      }
    }
  }

  lemma {:induction false} StaysDeleted<T>(s: Sched<T>, h: seq<Event<T>>)
    ensures s.deleted <= Execute(s, h).deleted
    decreases |h|
  {
    hide Happen;
    if h != [] {
      HappenKeepsDeleted(s, h[0]);
      StaysDeleted(Happen(s, h[0]), h[1..]);
    }
  }

  /** A call that runs another task in front of this one moves this one to the front. */
  lemma RunMoves<T>(s: Sched<T>, during: seq<Op<T>>, k: nat)
    requires NoDuplicates(s.tasks) && k < |s.tasks|
    requires FirstLive(s.tasks, s.cancelled) < k
    ensures var r := RunOnce(s, during);
            exists j :: 0 <= j < k && j < |r.tasks| && r.tasks[j] == s.tasks[k]
  {
    var t, j := s.tasks[k], FirstLive(s.tasks, s.cancelled);
    var v := s.tasks[j];
    var logged := s.(log := s.log + [v]);
    KeepsTasks(logged, during);
    var u := ApplyAll(logged, during);
    assert u.tasks[k] == t && u.tasks[j] == v;
    var rotated := u.tasks[1..] + [u.tasks[0]];
    assert rotated[k - 1] == t && v != t;
    if v in u.destroyed {
      WithoutMoves(rotated, v, k - 1);
      assert RunOnce(s, during).tasks == Without(rotated, v);
      var i :| 0 <= i <= k - 1 && i < |Without(rotated, v)| && Without(rotated, v)[i] == rotated[k - 1];
      assert RunOnce(s, during).tasks[i] == t;
    } else {
      assert RunOnce(s, during).tasks[k - 1] == t;
    }
  }

  /** A destroyed task that runs is deleted. */
  lemma DestroyedRuns<T>(s: Sched<T>, e: Event<T>, t: T)
    requires RunsNow(s, e, t) && t in s.destroyed
    ensures t in Happen(s, e).deleted
  {
    var logged := s.(log := s.log + [t]);
    KeepsTasks(logged, e.during);
    StaysDestroyed(logged, e.during);
  }

  /** Before a destroyed task runs, an event leaves it on the list, no farther from the front,
      and nearer to it if another task runs. */
  lemma DestroyedWaits<T>(s: Sched<T>, e: Event<T>, k: nat)
    requires Valid(s, {}) && k < |s.tasks| && s.tasks[k] !in s.cancelled && !RunsNow(s, e, s.tasks[k])
    ensures var r := Happen(s, e);
            exists j :: 0 <= j < |r.tasks| && r.tasks[j] == s.tasks[k] && j <= k && (e.Run? ==> j < k)
  {
    match e
    case Between(op) =>
      assert Happen(s, e).tasks[k] == s.tasks[k];
    case Run(during) =>
      hide RunOnce;
      var i := FirstLive(s.tasks, s.cancelled);
      assert i <= k;
      RunMoves(s, during, k);
      var j :| 0 <= j < k && j < |Happen(s, e).tasks| && Happen(s, e).tasks[j] == s.tasks[k];
  }

  /** A destroyed task at index k of the list is deleted within k + 1 calls of `run`, and then is
      off the list, exactly if it is not cancelled before it is run. */
  lemma {:induction false} DestroyedIsDeleted<T>(s: Sched<T>, h: seq<Event<T>>, k: nat)
    requires Valid(s, {}) && Legal(s, h)
    requires k < |s.tasks| && s.tasks[k] in s.destroyed && Runs(h) >= k + 1
    ensures s.tasks[k] in Execute(s, h).deleted <==> !CancelledFirst(s, h, s.tasks[k])
    ensures s.tasks[k] in Execute(s, h).tasks <==> CancelledFirst(s, h, s.tasks[k])
    decreases |h|
  {
    hide Valid, Legal, LegalEvent, Execute, Happen;
    var t := s.tasks[k];
    AlwaysValid(s, h);
    DeletedIsOff(Execute(s, h), t);
    if t in s.cancelled {
      CancelledStays(s, h, t);
    } else {
      var e, rest := h[0], h[1..];
      var r := Happen(s, e);
      LegalFirst(s, h);
      HappenKeepsValid(s, e);
      HappenKeepsDeleted(s, e);
      if RunsNow(s, e, t) {
        DestroyedRuns(s, e, t);
        StaysDeleted(r, rest);
      } else {
        DestroyedWaits(s, e, k);
        var j :| 0 <= j < |r.tasks| && r.tasks[j] == t && j <= k && (e.Run? ==> j < k);
        DestroyedIsDeleted(r, rest, j);
      }
    }
  }

  lemma DeletedIsOff<T>(s: Sched<T>, t: T)
    requires Valid(s, {})
    ensures t in s.deleted ==> t !in s.tasks
  {
  }

  // ---------------------------------------------------------------- repeating tasks

  /** How an event cancels a task: by a Cancel, or by its own run if it does not repeat. */
  predicate Cancels<T(==)>(s: Sched<T>, e: Event<T>, t: T) {
    match e
    case Between(op) => op == Cancel(t)
    case Run(during) =>
      FirstLive(s.tasks, s.cancelled) < |s.tasks| && (Cancel(t) in during || (RunsNow(s, e, t) && t !in s.repeating))
  }

  lemma {:induction false} OpsCancel<T>(s: Sched<T>, ops: seq<Op<T>>, t: T)
    ensures t in ApplyAll(s, ops).cancelled <==> t in s.cancelled || Cancel(t) in ops
  {
    if ops != [] {
      var n := |ops| - 1;
      OpsCancel(s, ops[..n], t);
      assert ops == ops[..n] + [ops[n]];
    }
  }

  /** A task is cancelled after an event exactly if it was before or the event cancels it. */
  lemma CancelledHow<T>(s: Sched<T>, e: Event<T>, t: T)
    ensures t in Happen(s, e).cancelled <==> t in s.cancelled || Cancels(s, e, t)
    ensures Happen(s, e).repeating == s.repeating
  {
    if e.Run? {
      var k := FirstLive(s.tasks, s.cancelled);
      if k < |s.tasks| {
        var logged := s.(log := s.log + [s.tasks[k]]);
        KeepsTasks(logged, e.during);
        OpsCancel(logged, e.during, t);
      }
    }
  }

  /** A destroyed task has just run. */
  predicate Deletes<T(==)>(s: Sched<T>, e: Event<T>, t: T) {
    var k := FirstLive(s.tasks, s.cancelled);
    && e.Run? && k < |s.tasks| && t == s.tasks[k]
    && (t in s.destroyed || Destroy(t) in e.during || Mark(t) in e.during)
  }

  /** While a task is listed, destroying it only marks it. */
  lemma {:induction false} OpsMark<T>(s: Sched<T>, ops: seq<Op<T>>, t: T)
    requires t in s.tasks
    ensures t in ApplyAll(s, ops).destroyed <==> t in s.destroyed || Destroy(t) in ops || Mark(t) in ops
    ensures t in ApplyAll(s, ops).deleted <==> t in s.deleted
  {
    if ops != [] {
      var n := |ops| - 1;
      OpsMark(s, ops[..n], t);
      KeepsTasks(s, ops[..n]);
      assert ops == ops[..n] + [ops[n]];
    }
  }

  /** A listed task leaves the list, and is deleted, exactly by its own run and if it is destroyed
      by then. */
  lemma DeletedHow<T>(s: Sched<T>, e: Event<T>, t: T)
    requires Valid(s, {}) && LegalEvent(s, e) && t in s.tasks
    ensures t in Happen(s, e).deleted <==> Deletes(s, e, t)
    ensures t in Happen(s, e).tasks <==> !Deletes(s, e, t)
  {
    hide FirstLive;
    if e.Run? {
      var k := FirstLive(s.tasks, s.cancelled);
      if k < |s.tasks| {
        var logged := s.(log := s.log + [s.tasks[k]]);
        KeepsTasks(logged, e.during);
        OpsMark(logged, e.during, t);
        LoggedIsValid(s, s.tasks[k]);
        OpsKeepValid(logged, e.during, {s.tasks[k]});
        FinishDeletes(ApplyAll(logged, e.during), s.tasks[k], t);
      }
    }
  }

  /** A task that is not listed is deleted at once. */
  lemma DeletedAtOnce<T>(s: Sched<T>, t: T)
    requires t !in s.tasks
    ensures t in Happen(s, Between(Destroy(t))).deleted && Happen(s, Between(Destroy(t))).tasks == s.tasks
  {
  }

  lemma FinishDeletes<T>(u: Sched<T>, v: T, t: T)
    requires NoDuplicates(u.tasks) && t in u.tasks
    ensures t in Finish(u, v).deleted <==> t in u.deleted || (v in u.destroyed && t == v)
    ensures t !in Finish(u, v).tasks <==> v in u.destroyed && t == v
  {
    var rotated := u.tasks[1..] + [u.tasks[0]];
    assert u.tasks == [u.tasks[0]] + u.tasks[1..];
    WithoutIs(rotated, v);
  }

  predicate NoDestroy<T(==)>(ops: seq<Op<T>>, t: T) { Destroy(t) !in ops && Mark(t) !in ops }

  /** Nobody cancels or destroys this task. */
  predicate LeavesAlone<T(==)>(h: seq<Event<T>>, t: T) {
    forall i :: 0 <= i < |h| ==>
      match h[i]
      case Between(op) => op.task == t ==> op.Start?
      case Run(during) => NoCancel(during, t) && NoDestroy(during, t)
  }

  lemma {:induction false} OpsDestroy<T>(s: Sched<T>, ops: seq<Op<T>>, t: T)
    requires NoDestroy(ops, t) && t !in s.destroyed
    ensures t !in ApplyAll(s, ops).destroyed
  {
    if ops != [] {
      OpsDestroy(s, ops[..|ops| - 1], t);
    }
  }

  /** A repeating task that waits to be run. */
  predicate Recurs<T(==)>(s: Sched<T>, t: T) {
    t in s.tasks && t in s.repeating && t !in s.cancelled && t !in s.destroyed
  }

  lemma StillRecurs<T>(s: Sched<T>, e: Event<T>, t: T)
    requires NoDuplicates(s.tasks) && Recurs(s, t) && LeavesAlone([e], t)
    ensures Recurs(Happen(s, e), t)
  {
    CancelledHow(s, e, t);
    assert LeavesAlone([e], t) ==> [e][0] == e;
    match e
    case Between(op) =>
    case Run(during) =>
      assert NoCancel(during, t) && NoDestroy(during, t) by { assert [e][0] == e; }
      var k := FirstLive(s.tasks, s.cancelled);
      if k < |s.tasks| {
        var v := s.tasks[k];
        var logged := s.(log := s.log + [v]);
        KeepsTasks(logged, during);
        OpsDestroy(logged, during, t);
        var u := ApplyAll(logged, during);
        FinishKeepsLive(u, v, t);
      }
  }

  lemma FinishKeepsLive<T>(u: Sched<T>, v: T, t: T)
    requires t in u.tasks && t !in u.destroyed
    ensures t in Finish(u, v).tasks && Finish(u, v).destroyed == u.destroyed
  {
    var rotated := u.tasks[1..] + [u.tasks[0]];
    assert u.tasks == [u.tasks[0]] + u.tasks[1..];
    assert t in rotated;
    if v != t {
      OthersStay(rotated, v, t);
    }
  }

  /** A listed repeating task that nobody cancels or destroys stays listed and live for ever. */
  lemma {:induction false} RepeatingLives<T>(s: Sched<T>, h: seq<Event<T>>, t: T)
    requires Valid(s, {}) && Legal(s, h) && Recurs(s, t) && LeavesAlone(h, t)
    ensures Recurs(Execute(s, h), t)
    decreases |h|
  {
    hide Valid, Legal, LegalEvent, Happen, Recurs, NoDuplicates;
    if h != [] {
      LegalFirst(s, h);
      HappenKeepsValid(s, h[0]);
      ValidHasNone(s);
      AloneParts(h, t);
      StillRecurs(s, h[0], t);
      RepeatingLives(Happen(s, h[0]), h[1..], t);
    }
  }

  lemma AloneParts<T>(h: seq<Event<T>>, t: T)
    requires h != [] && LeavesAlone(h, t)
    ensures LeavesAlone([h[0]], t) && LeavesAlone(h[1..], t)
  {
    assert forall i :: 0 <= i < |h| - 1 ==> h[1..][i] == h[i + 1];
  }

  function Count<T(==)>(log: seq<T>, t: T): nat { multiset(log)[t] }

  /** The list is never longer than this. */
  predicate AtMost<T(==)>(s: Sched<T>, h: seq<Event<T>>, m: nat)
    decreases |h|
  {
    |s.tasks| <= m && (h != [] ==> AtMost(Happen(s, h[0]), h[1..], m))
  }

  /** A call that runs a task adds just that task to the log. */
  lemma RunLogs<T>(s: Sched<T>, e: Event<T>, t: T)
    ensures Count(Happen(s, e).log, t) == Count(s.log, t) + if RunsNow(s, e, t) then 1 else 0
  {
    if e.Run? {
      var k := FirstLive(s.tasks, s.cancelled);
      if k < |s.tasks| {
        KeepsTasks(s.(log := s.log + [s.tasks[k]]), e.during);
        assert multiset(s.log + [s.tasks[k]]) == multiset(s.log) + multiset{s.tasks[k]};
      }
    }
  }

  /** A listed repeating task that nobody cancels or destroys is run again and again: the first
      time within as many calls of `run` as there are places up to it, and then at least once in as
      many calls as the list is ever long. */
  lemma {:induction false} RunsAgain<T>(s: Sched<T>, h: seq<Event<T>>, k: nat, m: nat, n: nat)
    requires Valid(s, {}) && Legal(s, h) && AtMost(s, h, m)
    requires k < |s.tasks| && Recurs(s, s.tasks[k]) && LeavesAlone(h, s.tasks[k])
    requires Runs(h) >= k + 1 + n * m
    ensures Count(Execute(s, h).log, s.tasks[k]) >= Count(s.log, s.tasks[k]) + n + 1
    decreases |h|
  {
    hide Valid, Legal, LegalEvent, Happen, Recurs, Execute, NoDuplicates, Count, LeavesAlone, AtMost;
    var t := s.tasks[k];
    NotNegative(n, m);
    var e, rest := h[0], h[1..];
    var r := Happen(s, e);
    LegalFirst(s, h);
    HappenKeepsValid(s, e);
    ValidHasNone(s);
    AtMostRest(s, h, m);
    AloneParts(h, t);
    StillRecurs(s, e, t);
    RunLogs(s, e, t);
    if RunsNow(s, e, t) {
      var j := IndexOf(r, t);
      if n > 0 {
        Product(n, m);
        RunsAgain(r, rest, j, m, n - 1);
      } else {
        CountGrows(r, rest, t);
      }
    } else {
      WaitsLive(s, t);
      DestroyedWaits(s, e, k);
      var j :| 0 <= j < |r.tasks| && r.tasks[j] == t && j <= k && (e.Run? ==> j < k);
      RunsAgain(r, rest, j, m, n);
    }
  }

  lemma NotNegative(n: nat, m: nat)
    ensures n * m >= 0
  {
  }

  lemma Product(n: nat, m: nat)
    requires n > 0
    ensures n * m == m + (n - 1) * m
  {
  }

  lemma WaitsLive<T>(s: Sched<T>, t: T)
    requires Recurs(s, t)
    ensures t !in s.cancelled
  {
  }

  lemma AtMostRest<T>(s: Sched<T>, h: seq<Event<T>>, m: nat)
    requires AtMost(s, h, m) && h != []
    ensures AtMost(Happen(s, h[0]), h[1..], m) && |Happen(s, h[0]).tasks| <= m
  {
  }

  lemma IndexOf<T>(s: Sched<T>, t: T) returns (j: nat)
    requires Recurs(s, t)
    ensures j < |s.tasks| && s.tasks[j] == t
  {
    j :| 0 <= j < |s.tasks| && s.tasks[j] == t;
  }

  lemma CountGrows<T>(s: Sched<T>, h: seq<Event<T>>, t: T)
    ensures Count(Execute(s, h).log, t) >= Count(s.log, t)
  {
    LogGrows(s, h);
    var a, b := s.log, Execute(s, h).log;
    assert b == a + b[|a|..];
    assert multiset(b) == multiset(a) + multiset(b[|a|..]);
  }

  /** It is the front that goes to the back, not the task that has run: behind a cancelled task, a
      repeating one runs twice before the next. */
  lemma FrontRotates()
    ensures var s := Sched([1, 2, 3], {2, 3}, {1}, {}, {}, []);
            var r := Execute(s, [Run([]), Run([]), Run([])]);
            r.log == [2, 2, 3] && r.tasks == [1, 2, 3]
  {
    hide Happen, Execute;
    var s := Sched([1, 2, 3], {2, 3}, {1}, {}, {}, []);
    var s1 := Sched([2, 3, 1], {2, 3}, {1}, {}, {}, [2]);
    var s2 := Sched([3, 1, 2], {2, 3}, {1}, {}, {}, [2, 2]);
    FrontStep(s, 1, s1);
    FrontStep(s1, 0, s2);
    FrontStep(s2, 0, Sched([1, 2, 3], {2, 3}, {1}, {}, {}, [2, 2, 3]));
    ThreeRuns(s, s1, s2);
  }

  lemma ThreeRuns(s: Sched<int>, s1: Sched<int>, s2: Sched<int>)
    requires Happen(s, Run([])) == s1 && Happen(s1, Run([])) == s2
    ensures Execute(s, [Run([]), Run([]), Run([])]) == Happen(s2, Run([]))
  {
    hide Happen;
    var h: seq<Event<int>> := [Run([]), Run([]), Run([])];
    assert h[1..] == [Run([]), Run([])] && h[1..][1..] == [Run([])] && h[1..][1..][1..] == [];
  }

  lemma FrontStep(s: Sched<int>, k: nat, r: Sched<int>)
    requires k < |s.tasks| && s.tasks[k] !in s.cancelled && forall i :: 0 <= i < k ==> s.tasks[i] in s.cancelled
    requires s.tasks[k] in s.repeating && s.destroyed == {}
    requires r == s.(tasks := s.tasks[1..] + [s.tasks[0]], log := s.log + [s.tasks[k]])
    ensures Happen(s, Run([])) == r
  {
    var u := s.(log := s.log + [s.tasks[k]]);
    assert ApplyAll(u, []) == u;
    assert FirstLive(s.tasks, s.cancelled) == k;
  }

  // ---------------------------------------------------------------- the classes

  class Task {
    const repeating: bool
    var cancelled: bool
    var destroyed: bool
    ghost var deleted: bool

    constructor (repeat: bool)
      ensures repeating == repeat && !cancelled && !destroyed && !deleted
    {
      repeating, cancelled, destroyed, deleted := repeat, false, false, false;
    }
  }

  class TaskRunner {
    var tasks: seq<Task>
    ghost var all: set<Task>    // every task there is
    ghost var log: seq<Task>

    constructor (ghost all: set<Task>)
      ensures this.all == all && tasks == [] && log == []
    {
      tasks, this.all, log := [], all, [];
    }

    ghost predicate Knows()
      reads this
    {
      forall t :: t in tasks ==> t in all
    }

    /** The state of the machine. */
    ghost function State(): Sched<Task>
      reads this, all
    {
      Sched(tasks, (set t | t in all && t.repeating), (set t | t in all && t.cancelled),
            (set t | t in all && t.destroyed), (set t | t in all && t.deleted), log)
    }

    method Exists(task: Task) returns (found: bool)
      ensures found == (task in tasks)
    {
      var i := 0;
      while i < |tasks|
        invariant i <= |tasks| && task !in tasks[..i]
      {
        if tasks[i] == task {
          return true;
        }
        i := i + 1;
      }
      found := false;
    }

    /** start, which adds the task */
    method StartTask(task: Task) returns (ok: bool)
      requires Knows() && task in all
      modifies this`tasks
      ensures Knows() && State() == Apply(old(State()), Start(task)) && ok
    {
      var found := Exists(task);
      if !found {
        tasks := tasks + [task];
      }
      ok := true;
    }

    method CancelTask(task: Task) returns (done: bool)
      requires Knows() && task in all
      modifies task`cancelled
      ensures State() == Apply(old(State()), Cancel(task)) && done == old(!task.cancelled)
    {
      done := !task.cancelled;
      if !task.cancelled {
        task.cancelled := true;
      }
    }

    method DestroyTask(task: Task)
      requires Knows() && task in all
      modifies task`destroyed, task`deleted
      ensures State() == Apply(old(State()), Destroy(task))
    {
      var found := Exists(task);
      if found {
        task.destroyed := true;
      } else {
        task.deleted := true;
      }
    }

    /** Task::destroy */
    method MarkTask(task: Task)
      requires Knows() && task in all
      modifies task`destroyed
      ensures State() == Apply(old(State()), Mark(task))
    {
      task.destroyed := true;
    }

    method Remove(task: Task) returns (found: bool)
      modifies this`tasks
      ensures tasks == Without(old(tasks), task) && found == (task in old(tasks))
    {
      var i := 0;
      while i < |tasks|
        invariant i <= |tasks| && tasks == old(tasks) && task !in tasks[..i]
        invariant Without(tasks, task) == tasks[..i] + Without(tasks[i..], task)
      {
        if tasks[i] == task {
          tasks := tasks[..i] + tasks[i + 1..];
          return true;
        }
        i := i + 1;
      }
      found := false;
    }

    /** next */
    method Next() returns (task: Task?)
      requires Knows()
      ensures var k := FirstLive(tasks, State().cancelled);
              if k < |tasks| then task == tasks[k] else task == null
    {
      var i := 0;
      while i < |tasks|
        invariant i <= |tasks|
        invariant forall j :: 0 <= j < i ==> tasks[j].cancelled
      {
        if !tasks[i].cancelled {
          return tasks[i];
        }
        i := i + 1;
      }
      task := null;
    }

    /** What a task does to the runner's tasks while it runs. */
    method Perform(ops: seq<Op<Task>>)
      requires Knows() && forall op :: op in ops ==> op.task in all
      modifies this`tasks, all
      ensures Knows() && State() == ApplyAll(old(State()), ops)
    {
      var i := 0;
      while i < |ops|
        invariant i <= |ops| && Knows() && all == old(all)
        invariant State() == ApplyAll(old(State()), ops[..i])
      {
        assert ops[..i + 1][..i] == ops[..i];
        var op := ops[i];
        match op {
          case Start(task) => var _ := StartTask(task);
          case Cancel(task) => var _ := CancelTask(task);
          case Destroy(task) => DestroyTask(task);
          case Mark(task) => MarkTask(task);
        }
        i := i + 1;
      }
      assert ops[..i] == ops;
    }

    /** run */
    method RunNext(during: seq<Op<Task>>)
      requires Knows() && forall op :: op in during ==> op.task in all
      modifies this`tasks, this`log, all
      ensures Knows() && State() == RunOnce(old(State()), during)
    {
      hide ApplyAll, FirstLive, Finish;
      var task := Next();
      if task != null {
        ghost var start := State();
        log := log + [task];
        assert State() == start.(log := start.log + [task]);
        Perform(during);
        KeepsTasks(start.(log := start.log + [task]), during);
        FinishTask(task);
      }
    }

    /** The end of run, once the task has run. */
    method FinishTask(task: Task)
      requires Knows() && task in tasks
      modifies this`tasks, task`cancelled, task`deleted
      ensures Knows() && State() == Finish(old(State()), task)
    {
      hide Without;
      if !task.repeating {
        task.cancelled := true;
      }
      Rotate();
      if task.destroyed {
        OnlyFewer(tasks, task);
        var _ := Remove(task);
        task.deleted := true;
      }
    }

    method Rotate()
      requires Knows() && tasks != []
      modifies this`tasks
      ensures Knows() && tasks == old(tasks)[1..] + [old(tasks)[0]]
    {
      var t := tasks[0];
      tasks := tasks[1..];
      tasks := tasks + [t];
    }
  }

  lemma {:induction false} OnlyFewer<T>(tasks: seq<T>, t: T)
    ensures forall u :: u in Without(tasks, t) ==> u in tasks
  {
    if tasks != [] {
      OnlyFewer(tasks[1..], t);
      assert tasks == [tasks[0]] + tasks[1..];
    }
  }
}

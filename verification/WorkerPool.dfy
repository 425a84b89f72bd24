// The bounded worker pool (src/runtime/runtime.cpp) as interleaved atomic steps: any number of submitters,
// the workers, and one stopper. Each step is what one thread does between two points where others may run.
module WorkerPools {
  import opened Base

  datatype Worker<T> = Idle | Running(task: T) | Exited

  // The pool, with the history of what was accepted and started, in order. `joined` counts the workers the
  // stopper has joined so far, while it is at work.
  datatype Pool<T> = Pool(
    tasks: seq<T>,
    workers: seq<Worker<T>>,
    stopping: bool,
    maxPending: nat,
    submitted: nat,
    completed: nat,
    rejected: nat,
    joined: Option<nat>,
    accepted: seq<T>,
    started: seq<T>)

  datatype Action<T> = Start(count: nat, bound: nat) | Submit(task: T) | Take(w: nat) | Finish(w: nat) | BeginStop | Join | Clear

  function Fresh<T>(): Pool<T> { Pool([], [], false, 0, 0, 0, 0, None, [], []) }

  predicate Enabled<T(==)>(p: Pool<T>, a: Action<T>) {
    match a
    case Start(_, _) => true
    case Submit(_) => true
    case Take(w) => w < |p.workers| && p.workers[w].Idle? && (p.tasks != [] || p.stopping)
    case Finish(w) => w < |p.workers| && p.workers[w].Running?
    case BeginStop => p.joined.None?
    case Join => p.joined.Some? && p.joined.value < |p.workers| && p.workers[p.joined.value].Exited?
    case Clear => p.joined.Some? && p.joined.value == |p.workers|
  }

  // Why a submission is refused, if it is.
  function Refusal<T>(p: Pool<T>): Option<ErrorCode> {
    if p.stopping then Some(ShuttingDown)
    else if p.workers == [] then Some(Unsupported)
    else if |p.tasks| >= p.maxPending then Some(QueueFull)
    else None
  }

  function Apply<T(==)>(p: Pool<T>, a: Action<T>): Pool<T>
    requires Enabled(p, a)
  {
    match a
    case Start(count, bound) =>
      if p.workers != [] then p
      else p.(stopping := false, maxPending := bound, workers := seq(count, _ => Idle))
    case Submit(task) =>
      if Refusal(p) != None then p.(rejected := p.rejected + 1)
      else p.(tasks := p.tasks + [task], submitted := p.submitted + 1, accepted := p.accepted + [task])
    case Take(w) =>
      if p.tasks == [] then p.(workers := p.workers[w := Exited])
      else p.(workers := p.workers[w := Running(p.tasks[0])], tasks := p.tasks[1..], started := p.started + [p.tasks[0]])
    case Finish(w) => p.(workers := p.workers[w := Idle], completed := p.completed + 1)
    case BeginStop => p.(stopping := true, joined := Some(0))
    case Join => p.(joined := Some(p.joined.value + 1))
    case Clear => p.(workers := [], joined := None)
  }

  // ---- What every step keeps ----

  function Busy<T>(workers: seq<Worker<T>>): nat {
    if workers == [] then 0 else Busy(workers[1..]) + if workers[0].Running? then 1 else 0
  }

  ghost predicate Inv<T>(p: Pool<T>) {
    && p.accepted == p.started + p.tasks
    && p.submitted == |p.accepted|
    && |p.started| == p.completed + Busy(p.workers)
    && |p.tasks| <= p.maxPending
    && (p.workers == [] ==> p.tasks == [])
    && (forall w :: 0 <= w < |p.workers| && p.workers[w].Exited? ==> p.stopping && p.tasks == [])
    && (p.joined.Some? ==> p.joined.value <= |p.workers|)
    && (p.joined.Some? ==> forall w :: 0 <= w < p.joined.value ==> p.workers[w].Exited?)
  }

  lemma {:induction false} BusyUpdate<T>(workers: seq<Worker<T>>, w: nat, to: Worker<T>)
    requires w < |workers|
    ensures Busy(workers[w := to]) == Busy(workers) - (if workers[w].Running? then 1 else 0) + if to.Running? then 1 else 0
  {
    if w > 0 {
      BusyUpdate(workers[1..], w - 1, to);
      assert workers[w := to][1..] == workers[1..][w - 1 := to];
    } else {
      assert workers[w := to][1..] == workers[1..];
    }
  }

  lemma {:induction false} BusyNone<T>(workers: seq<Worker<T>>)
    requires forall w :: 0 <= w < |workers| ==> !workers[w].Running?
    ensures Busy(workers) == 0
  {
    if workers != [] {
      BusyNone(workers[1..]);
    }
  }

  lemma StepKeepsInv<T>(p: Pool<T>, a: Action<T>)
    requires Inv(p) && Enabled(p, a)
    ensures Inv(Apply(p, a))
  {
    var q := Apply(p, a);
    match a
    case Start(count, _) =>
      if p.workers == [] {
        BusyNone(q.workers);
      }
    case Submit(task) =>
      assert p.started + (p.tasks + [task]) == (p.started + p.tasks) + [task];
    case Take(w) =>
      BusyUpdate(p.workers, w, q.workers[w]);
      if p.tasks != [] {
        assert p.started + p.tasks == (p.started + [p.tasks[0]]) + p.tasks[1..];
      }
    case Finish(w) =>
      BusyUpdate(p.workers, w, Idle);
    case _ =>
      if a.Clear? {
        BusyNone(p.workers);
      }
  }

  // ---- Runs ----

  ghost predicate IsRun<T>(p: Pool<T>, run: seq<Action<T>>)
    decreases |run|
  {
    run == [] || (Enabled(p, run[0]) && IsRun(Apply(p, run[0]), run[1..]))
  }

  ghost function After<T>(p: Pool<T>, run: seq<Action<T>>): Pool<T>
    requires IsRun(p, run)
    decreases |run|
  {
    if run == [] then p else After(Apply(p, run[0]), run[1..])
  }

  lemma {:induction false} RunKeepsInv<T>(p: Pool<T>, run: seq<Action<T>>)
    requires Inv(p) && IsRun(p, run)
    ensures Inv(After(p, run))
    decreases |run|
  {
    if run != [] {
      StepKeepsInv(p, run[0]);
      RunKeepsInv(Apply(p, run[0]), run[1..]);
    }
  }

  lemma FreshKeepsInv<T>(start: Pool<T>)
    requires start == Fresh()
    ensures Inv(start)
  {
  }

  lemma InvMeans<T>(p: Pool<T>)
    requires Inv(p)
    ensures p.submitted == |p.tasks| + Busy(p.workers) + p.completed && |p.tasks| <= p.maxPending
    ensures p.started <= p.accepted && p.accepted[|p.started|..] == p.tasks
  {
  }

  // In every interleaving: submitted = queued + running + completed, the queue keeps its bound, and tasks
  // start in the order they were accepted.
  lemma Conservation<T>(start: Pool<T>, run: seq<Action<T>>)
    requires start == Fresh() && IsRun(start, run)
    ensures var p := After(start, run);
      && p.submitted == |p.tasks| + Busy(p.workers) + p.completed
      && |p.tasks| <= p.maxPending
      && p.started <= p.accepted && p.accepted[|p.started|..] == p.tasks
  {
    FreshKeepsInv(start);
    RunKeepsInv(start, run);
    InvMeans(After(start, run));
  }

  // Once the stopper has joined every worker the queue is empty and everything accepted has completed.
  lemma JoinedIsDrained<T>(start: Pool<T>, run: seq<Action<T>>)
    requires start == Fresh() && IsRun(start, run) && Enabled(After(start, run), Clear)
    ensures var p := After(start, run);
      p.tasks == [] && p.completed == p.submitted && p.started == p.accepted
  {
    FreshKeepsInv(start);
    RunKeepsInv(start, run);
    InvMeans(After(start, run));
    BusyNone(After(start, run).workers);
  }

  // ---- Shutdown finishes ----

  // What is left to do before every worker has exited.
  function Left<T>(p: Pool<T>): nat { 2 * |p.tasks| + Busy(p.workers) + Alive(p.workers) }

  function Alive<T>(workers: seq<Worker<T>>): nat {
    if workers == [] then 0 else Alive(workers[1..]) + if workers[0].Exited? then 0 else 1
  }

  lemma {:induction false} AliveUpdate<T>(workers: seq<Worker<T>>, w: nat, to: Worker<T>)
    requires w < |workers|
    ensures Alive(workers[w := to]) == Alive(workers) - (if workers[w].Exited? then 0 else 1) + if to.Exited? then 0 else 1
  {
    if w > 0 {
      AliveUpdate(workers[1..], w - 1, to);
      assert workers[w := to][1..] == workers[1..][w - 1 := to];
    } else {
      assert workers[w := to][1..] == workers[1..];
    }
  }

  // While stopping, every step of a worker brings the end nearer and no step of anyone else takes it away.
  lemma ShutdownShrinks<T>(p: Pool<T>, a: Action<T>)
    requires Inv(p) && Enabled(p, a) && p.stopping && p.workers != [] && !a.Clear?
    ensures Left(Apply(p, a)) <= Left(p) && Apply(p, a).stopping
    ensures a.Take? || a.Finish? ==> Left(Apply(p, a)) < Left(p)
  {
    match a
    case Take(w) =>
      var to := if p.tasks == [] then Exited else Running(p.tasks[0]);
      BusyUpdate(p.workers, w, to);
      AliveUpdate(p.workers, w, to);
    case Finish(w) =>
      BusyUpdate(p.workers, w, Idle);
      AliveUpdate(p.workers, w, Idle);
    case _ =>
  }

  // No deadlock: while the stopper is at work some step of it or of a worker is enabled.
  lemma ShutdownNeverStuck<T>(p: Pool<T>) returns (a: Action<T>)
    requires Inv(p) && p.stopping && p.joined.Some?
    ensures Enabled(p, a) && (a.Take? || a.Finish? || a.Join? || a.Clear?)
  {
    if p.joined.value == |p.workers| {
      a := Clear;
    } else {
      var w := p.joined.value;
      a := match p.workers[w] case Exited => Join case Running(_) => Finish(w) case Idle => Take(w);
    }
  }

  // ---- Fair interleavings ----

  // The threads that shutdown waits for; submitters and further starts and stops belong to none of them.
  datatype Thread = WorkerThread(w: nat) | Stopper

  predicate By<T>(a: Action<T>, t: Thread) {
    match t
    case WorkerThread(w) => (a.Take? && a.w == w) || (a.Finish? && a.w == w)
    case Stopper => a.Join? || a.Clear?
  }

  predicate Ready<T(==)>(p: Pool<T>, t: Thread) {
    match t
    case WorkerThread(w) => Enabled(p, Take(w)) || Enabled(p, Finish(w))
    case Stopper => Enabled(p, Join) || Enabled(p, Clear)
  }

  ghost predicate IsTrace<T(!new)>(states: nat -> Pool<T>, actions: nat -> Action<T>) {
    forall n: nat {:trigger actions(n)} :: Enabled(states(n), actions(n)) && states(n + 1) == Apply(states(n), actions(n))
  }

  // A thread that stays ready moves at last.
  ghost predicate FairFrom<T(!new)>(states: nat -> Pool<T>, actions: nat -> Action<T>, n: nat, t: Thread) {
    (exists m: nat :: n <= m && !Ready(states(m), t)) || (exists m: nat :: n <= m && By(actions(m), t))
  }

  ghost predicate Fair<T(!new)>(states: nat -> Pool<T>, actions: nat -> Action<T>) {
    forall n: nat, t: Thread :: FairFrom(states, actions, n, t)
  }

  // A step towards the end of the shutdown.
  predicate Moves<T>(a: Action<T>) { a.Take? || a.Finish? || a.Join? || a.Clear? }

  predicate Stopping<T>(p: Pool<T>) { p.stopping && p.joined.Some? && p.workers != [] }

  function ToGo<T>(p: Pool<T>): int { Left(p) + |p.workers| - if p.joined.Some? then p.joined.value else 0 }

  // Steps of others leave the shutdown where it is; its own bring it nearer to its end.
  lemma StoppingStep<T>(p: Pool<T>, a: Action<T>)
    requires Inv(p) && Enabled(p, a) && Stopping(p) && !a.Clear?
    ensures Inv(Apply(p, a)) && Stopping(Apply(p, a)) && ToGo(p) >= 0
    ensures if Moves(a) then ToGo(Apply(p, a)) < ToGo(p) else SameShutdown(p, Apply(p, a))
  {
    StepKeepsInv(p, a);
    ShutdownShrinks(p, a);
    if a.Submit? || a.Start? {
      assert SameShutdown(p, Apply(p, a));
    }
  }

  predicate SameShutdown<T(==)>(p: Pool<T>, q: Pool<T>) {
    q.workers == p.workers && q.tasks == p.tasks && q.joined == p.joined && q.stopping == p.stopping
  }

  // Until somebody moves nothing changes.
  lemma {:induction false} Unmoved<T(!new)>(states: nat -> Pool<T>, actions: nat -> Action<T>, n: nat, m: nat)
    requires IsTrace(states, actions) && Inv(states(n)) && Stopping(states(n)) && n <= m
    requires forall k: nat :: n <= k < m ==> !Moves(actions(k))
    ensures Inv(states(m)) && SameShutdown(states(n), states(m))
    decreases m - n
  {
    if n < m {
      Unmoved(states, actions, n, m - 1);
      assert !Moves(actions(m - 1));
      StoppingStep(states(m - 1), actions(m - 1));
    }
  }

  // In a fair interleaving somebody moves.
  lemma SomebodyMoves<T(!new)>(states: nat -> Pool<T>, actions: nat -> Action<T>, n: nat) returns (m: nat)
    requires IsTrace(states, actions) && Fair(states, actions) && Inv(states(n)) && Stopping(states(n))
    ensures n <= m && Moves(actions(m))
  {
    var a := ShutdownNeverStuck(states(n));
    var t := if a.Take? || a.Finish? then WorkerThread(a.w) else Stopper;
    assert Ready(states(n), t);
    assert FairFrom(states, actions, n, t);
    if k: nat :| n <= k && By(actions(k), t) {
      m := k;
    } else {
      var k: nat :| n <= k && !Ready(states(k), t);
      if forall i: nat :: n <= i < k ==> !Moves(actions(i)) {
        Unmoved(states, actions, n, k);
        assert false;
      }
      m :| n <= m < k && Moves(actions(m));
    }
  }

  // The first to move, and what it finds.
  lemma {:induction false} FirstMove<T(!new)>(states: nat -> Pool<T>, actions: nat -> Action<T>, n: nat, m: nat) returns (k: nat)
    requires IsTrace(states, actions) && Inv(states(n)) && Stopping(states(n)) && n <= m && Moves(actions(m))
    ensures n <= k <= m && Moves(actions(k)) && Inv(states(k)) && SameShutdown(states(n), states(k))
    decreases m - n
  {
    if Moves(actions(n)) {
      k := n;
    } else {
      StoppingStep(states(n), actions(n));
      k := FirstMove(states, actions, n + 1, m);
    }
  }

  // In every fair interleaving a stop that found workers ends: all of them are joined, the queue is empty, and
  // everything that was accepted has completed.
  lemma {:induction false} JoiningEnds<T(!new)>(states: nat -> Pool<T>, actions: nat -> Action<T>, n: nat) returns (m: nat)
    requires IsTrace(states, actions) && Fair(states, actions) && Inv(states(n)) && Stopping(states(n))
    ensures n <= m && actions(m).Clear?
    ensures states(m).tasks == [] && states(m).completed == states(m).submitted && states(m + 1).workers == []
    decreases ToGo(states(n))
  {
    var k := SomebodyMoves(states, actions, n);
    k := FirstMove(states, actions, n, k);
    if actions(k).Clear? {
      m := k;
      Drained(states(k));
    } else {
      StoppingStep(states(k), actions(k));
      StoppingStep(states(n), actions(k));
      m := JoiningEnds(states, actions, k + 1);
    }
  }

  lemma Drained<T>(p: Pool<T>)
    requires Inv(p) && Enabled(p, Clear) && p.workers != []
    ensures p.tasks == [] && p.completed == p.submitted
  {
    BusyNone(p.workers);
    assert p.workers[0].Exited?;
  }

  // ---- A stop that found no workers ----

  // A stop has begun and is not over.
  predicate Begun<T>(p: Pool<T>) { p.stopping && p.joined.Some? }

  predicate Adds<T>(a: Action<T>) { a.Start? && a.count > 0 }

  // It found no workers, and before it was over a start added some.
  ghost predicate Overtaken<T(!new)>(states: nat -> Pool<T>, actions: nat -> Action<T>, n: nat) {
    states(n).workers == []
    && exists m: nat :: n <= m && Adds(actions(m)) && forall k: nat :: n <= k < m ==> !actions(k).Clear?
  }

  ghost predicate Ends<T(!new)>(actions: nat -> Action<T>, n: nat) { exists m: nat :: n <= m && actions(m).Clear? }

  predicate Waiting<T>(p: Pool<T>) { p.joined == Some(0) && p.workers == [] }

  // Until it is cleared or overtaken, the stop has nothing to wait for.
  lemma {:induction false} StillWaiting<T(!new)>(states: nat -> Pool<T>, actions: nat -> Action<T>, n: nat, m: nat)
    requires IsTrace(states, actions) && Inv(states(n)) && Waiting(states(n)) && n <= m
    requires forall k: nat :: n <= k < m ==> !actions(k).Clear? && !Adds(actions(k))
    ensures Inv(states(m)) && Waiting(states(m))
    decreases m - n
  {
    if n < m {
      StillWaiting(states, actions, n, m - 1);
      assert !actions(m - 1).Clear? && !Adds(actions(m - 1));
      StepKeepsInv(states(m - 1), actions(m - 1));
    }
  }

  // The stop flag is gone, and nobody waits to set it again.
  ghost predicate Hung<T>(p: Pool<T>) {
    !p.stopping && p.joined == Some(0) && p.workers != [] && forall w :: 0 <= w < |p.workers| ==> !p.workers[w].Exited?
  }

  lemma {:induction false} StaysHung<T(!new)>(states: nat -> Pool<T>, actions: nat -> Action<T>, n: nat, m: nat)
    requires IsTrace(states, actions) && Hung(states(n)) && n <= m
    ensures Hung(states(m)) && !actions(m).Clear?
    decreases m - n
  {
    if n < m {
      StaysHung(states, actions, n, m - 1);
    }
    assert Enabled(states(m), actions(m));
  }

  // The first start that adds workers, or the first clearing.
  predicate Decides<T>(a: Action<T>) { a.Clear? || Adds(a) }

  lemma {:induction false} FirstToDecide<T(!new)>(actions: nat -> Action<T>, n: nat, m: nat) returns (k: nat)
    requires n <= m && Decides(actions(m))
    ensures n <= k <= m && Decides(actions(k)) && forall i: nat :: n <= i < k ==> !Decides(actions(i))
    decreases m - n
  {
    if Decides(actions(n)) {
      k := n;
    } else {
      k := FirstToDecide(actions, n + 1, m);
    }
  }

  lemma OvertakenHangs<T>(p: Pool<T>, a: Action<T>)
    requires Inv(p) && Waiting(p) && Adds(a)
    ensures Enabled(p, a) && Hung(Apply(p, a))
  {
  }

  // A start that overtakes the stop takes its flag away, so that the new workers never exit.
  lemma OvertakenNeverEnds<T(!new)>(states: nat -> Pool<T>, actions: nat -> Action<T>, n: nat)
    requires IsTrace(states, actions) && Inv(states(n)) && Begun(states(n)) && Overtaken(states, actions, n)
    ensures !Ends(actions, n)
  {
    var m: nat :| n <= m && Adds(actions(m)) && forall k: nat :: n <= k < m ==> !actions(k).Clear?;
    var first := FirstToDecide(actions, n, m);
    StillWaiting(states, actions, n, first);
    OvertakenHangs(states(first), actions(first));
    assert states(first + 1) == Apply(states(first), actions(first));
    forall k: nat | n <= k ensures !actions(k).Clear? {
      if first < k {
        StaysHung(states, actions, first + 1, k);
      } else if k < first {
        assert !Decides(actions(k));
      }
    }
  }

  lemma WaitingClears<T>(p: Pool<T>, a: Action<T>)
    requires Waiting(p) && Enabled(p, a) && (!Ready(p, Stopper) || By(a, Stopper))
    ensures a.Clear?
  {
  }

  lemma StopperTurns<T(!new)>(states: nat -> Pool<T>, actions: nat -> Action<T>, n: nat) returns (k: nat)
    requires Fair(states, actions)
    ensures n <= k && (!Ready(states(k), Stopper) || By(actions(k), Stopper))
  {
    assert FairFrom(states, actions, n, Stopper);
    k :| n <= k && (!Ready(states(k), Stopper) || By(actions(k), Stopper));
  }

  lemma NotOvertaken<T(!new)>(states: nat -> Pool<T>, actions: nat -> Action<T>, n: nat, m: nat)
    requires !Overtaken(states, actions, n) && states(n).workers == [] && n <= m && Decides(actions(m))
    requires forall i: nat :: n <= i < m ==> !Decides(actions(i))
    ensures actions(m).Clear?
  {
    assert forall i: nat :: n <= i < m ==> !actions(i).Clear?;
  }

  // A stop that found no workers and is not overtaken clears them at once.
  lemma WaitingEnds<T(!new)>(states: nat -> Pool<T>, actions: nat -> Action<T>, n: nat) returns (m: nat)
    requires IsTrace(states, actions) && Fair(states, actions) && Inv(states(n)) && Waiting(states(n)) && !Overtaken(states, actions, n)
    ensures n <= m && actions(m).Clear? && Inv(states(m)) && Waiting(states(m))
  {
    m := StopperTurns(states, actions, n);
    if i: nat :| n <= i < m && Decides(actions(i)) {
      m := FirstToDecide(actions, n, i);
      StillWaiting(states, actions, n, m);
      NotOvertaken(states, actions, n, m);
    } else {
      StillWaiting(states, actions, n, m);
      assert Enabled(states(m), actions(m));
      WaitingClears(states(m), actions(m));
    }
  }

  // In every fair interleaving a stop that has begun ends exactly when no start overtakes it, and then with every worker
  // joined, the queue empty and everything that was accepted completed.
  lemma StopEnds<T(!new)>(states: nat -> Pool<T>, actions: nat -> Action<T>, n: nat)
    requires IsTrace(states, actions) && Fair(states, actions) && Inv(states(n)) && Begun(states(n))
    ensures Ends(actions, n) <==> !Overtaken(states, actions, n)
    ensures !Overtaken(states, actions, n) ==>
      exists m: nat :: n <= m && actions(m).Clear? && states(m).tasks == [] && states(m).completed == states(m).submitted
                       && states(m + 1).workers == []
  {
    if Overtaken(states, actions, n) {
      OvertakenNeverEnds(states, actions, n);
    } else if states(n).workers == [] {
      var m := WaitingEnds(states, actions, n);
      assert Enabled(states(m), actions(m)) && states(m + 1) == Apply(states(m), actions(m));
    } else {
      var m := JoiningEnds(states, actions, n);
    }
  }

  // ---- The pool itself ----

  class WorkerPool<T(==)> {
    var tasks: seq<T>
    var workers: seq<Worker<T>>
    var stopping: bool
    var maxPending: nat
    var submitted: nat
    var completed: nat
    var rejected: nat
    ghost var joined: Option<nat>
    ghost var accepted: seq<T>
    ghost var started: seq<T>

    ghost function State(): Pool<T>
      reads this
    {
      Pool(tasks, workers, stopping, maxPending, submitted, completed, rejected, joined, accepted, started)
    }

    constructor ()
      ensures State() == Fresh() && Inv(State())
    {
      tasks, workers, stopping, maxPending, submitted, completed, rejected := [], [], false, 0, 0, 0, 0;
      joined, accepted, started := None, [], [];
    }

    method StartWorkers(count: nat, bound: nat)
      requires Inv(State())
      modifies this
      ensures State() == Apply(old(State()), Start(count, bound)) && Inv(State())
    {
      StepKeepsInv(State(), Start(count, bound));
      if workers != [] {
        return;
      }
      stopping := false;
      maxPending := bound;
      workers := seq(count, _ => Idle);
    }

    method SubmitTask(task: T) returns (refused: Option<ErrorCode>)
      requires Inv(State())
      modifies this
      ensures State() == Apply(old(State()), Submit(task)) && Inv(State())
      ensures refused == Refusal(old(State()))
    {
      StepKeepsInv(State(), Submit(task));
      refused := None;
      if stopping {
        refused := Some(ShuttingDown);
      } else if workers == [] {
        refused := Some(Unsupported);
      } else if |tasks| >= maxPending {
        refused := Some(QueueFull);
      }
      if refused != None {
        rejected := rejected + 1;
        return;
      }
      tasks := tasks + [task];
      submitted := submitted + 1;
      accepted := accepted + [task];
    }

    // One passage of a worker through the guarded part of its loop.
    method TakeTask(w: nat)
      requires Inv(State()) && Enabled(State(), Take(w))
      modifies this
      ensures State() == Apply(old(State()), Take(w)) && Inv(State())
    {
      StepKeepsInv(State(), Take(w));
      if tasks == [] {
        workers := workers[w := Exited];
        return;
      }
      var task := tasks[0];
      tasks := tasks[1..];
      workers := workers[w := Running(task)];
      started := started + [task];
    }

    method FinishTask(w: nat)
      requires Inv(State()) && Enabled(State(), Finish(w))
      modifies this
      ensures State() == Apply(old(State()), Finish(w)) && Inv(State())
    {
      StepKeepsInv(State(), Finish(w));
      workers := workers[w := Idle];
      completed := completed + 1;
    }

    method RequestStop()
      requires Inv(State()) && Enabled(State(), BeginStop)
      modifies this
      ensures State() == Apply(old(State()), BeginStop) && Inv(State())
    {
      StepKeepsInv(State(), BeginStop);
      stopping := true;
      joined := Some(0);
    }

    // The stopper joins the next worker, which has left its loop.
    ghost method JoinNext()
      requires Inv(State()) && Enabled(State(), Join)
      modifies this
      ensures State() == Apply(old(State()), Join) && Inv(State())
    {
      StepKeepsInv(State(), Join);
      joined := Some(joined.value + 1);
    }

    method ClearWorkers()
      requires Inv(State()) && Enabled(State(), Clear)
      modifies this
      ensures State() == Apply(old(State()), Clear) && Inv(State())
    {
      StepKeepsInv(State(), Clear);
      workers := [];
      joined := None;
    }
  }
}

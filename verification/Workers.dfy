/** The work queue of the device threads: a queue behind a lock and a counting semaphore
    (src/h9d/dev_workers.cc). Producers and workers interleave between the lock and the
    semaphore. */
module Workers {
  import opened Common
  import opened Frames

  /** The template argument of the semaphore. */
  const USHRT_MAX := 0xffff

  datatype Task = PeriodicTask(dev: nat) | UpdateTask(dev: nat, nodeId: nat, frame: Frame)

  datatype Worker = Idle | Acquired | Running(task: Task)

  /** `unreleased` counts producers between their push and their release. The history:
      `pushed` and `popped` list the tasks in order. `emptyFront` stands for taking the front
      of an empty queue, `overflow` for releasing past the semaphore's maximum. */
  datatype State = State(queue: seq<Task>, permits: nat, unreleased: nat, workers: seq<Worker>,
                         pushed: seq<Task>, popped: seq<Task>, emptyFront: bool, overflow: bool)

  datatype Event =
    | Push(task: Task)
    | Release
    | Acquire(w: nat)
    | Pop(w: nat)
    | Finish(w: nat)

  function Initial(workers: nat): State {
    State([], 0, 0, seq(workers, _ => Idle), [], [], false, false)
  }

  function Step(s: State, ev: Event): State {
    match ev
    case Push(t) => s.(queue := s.queue + [t], pushed := s.pushed + [t], unreleased := s.unreleased + 1)
    case Release =>
      if s.unreleased == 0 then s
      else s.(unreleased := s.unreleased - 1, permits := s.permits + 1, overflow := s.overflow || s.permits >= USHRT_MAX)
    case Acquire(w) =>
      if w < |s.workers| && s.workers[w].Idle? && s.permits > 0
      then s.(permits := s.permits - 1, workers := s.workers[w := Acquired]) else s
    case Pop(w) =>
      if w < |s.workers| && s.workers[w].Acquired? then
        if s.queue == [] then s.(emptyFront := true)
        else s.(queue := s.queue[1..], popped := s.popped + [s.queue[0]], workers := s.workers[w := Running(s.queue[0])])
      else s
    case Finish(w) =>
      if w < |s.workers| && s.workers[w].Running? then s.(workers := s.workers[w := Idle]) else s
  }

  function Run(s: State, evs: seq<Event>): State {
    if evs == [] then s else Step(Run(s, evs[..|evs| - 1]), evs[|evs| - 1])
  }

  /** Workers between the semaphore and the queue. */
  function Holding(ws: seq<Worker>): nat {
    if ws == [] then 0 else Holding(ws[..|ws| - 1]) + if ws[|ws| - 1].Acquired? then 1 else 0
  }

  lemma {:induction false} HoldingUpdate(ws: seq<Worker>, w: nat, x: Worker)
    requires w < |ws|
    ensures Holding(ws[w := x])
         == Holding(ws) - (if ws[w].Acquired? then 1 else 0) + if x.Acquired? then 1 else 0
  {
    var n := |ws| - 1;
    if w < n {
      HoldingUpdate(ws[..n], w, x);
      assert ws[w := x][..n] == ws[..n][w := x];
    } else {
      assert ws[w := x][..n] == ws[..n];
    }
  }

  lemma {:induction false} HoldingSome(ws: seq<Worker>, w: nat)
    requires w < |ws| && ws[w].Acquired?
    ensures Holding(ws) > 0
  {
    if w < |ws| - 1 { HoldingSome(ws[..|ws| - 1], w); }
  }

  /** Every queued task is accounted for once: by a permit, by a worker about to take it, or by
      a producer about to release. Tasks leave in the order they came. */
  ghost predicate Inv(s: State) {
    && |s.queue| == s.permits + Holding(s.workers) + s.unreleased
    && s.popped + s.queue == s.pushed
    && !s.emptyFront
  }

  lemma InvStep(s: State, ev: Event)
    requires Inv(s)
    ensures Inv(Step(s, ev))
  {
    hide Holding;
    match ev
    case Push(t) => assert s.popped + (s.queue + [t]) == (s.popped + s.queue) + [t];
    case Release =>
    case Acquire(w) => if w < |s.workers| { HoldingUpdate(s.workers, w, Acquired); }
    case Pop(w) =>
      if w < |s.workers| && s.workers[w].Acquired? {
        HoldingSome(s.workers, w);
        HoldingUpdate(s.workers, w, Running(s.queue[0]));
        assert s.popped + [s.queue[0]] + s.queue[1..] == s.popped + s.queue;
      }
    case Finish(w) => if w < |s.workers| { HoldingUpdate(s.workers, w, Idle); }
  }

  lemma {:induction false} NobodyHolds(n: nat)
    ensures Holding(seq(n, _ => Idle)) == 0
  {
    if n > 0 {
      NobodyHolds(n - 1);
      assert seq(n, _ => Idle)[..n - 1] == seq(n - 1, _ => Idle);
    }
  }

  lemma {:induction false} InvAlways(workers: nat, evs: seq<Event>)
    ensures Inv(Run(Initial(workers), evs))
  {
    if evs == [] {
      NobodyHolds(workers);
    } else {
      hide Inv, Step;
      InvAlways(workers, evs[..|evs| - 1]);
      InvStep(Run(Initial(workers), evs[..|evs| - 1]), evs[|evs| - 1]);
    }
  }

  /** Over every interleaving: the front is never taken from an empty queue, tasks are handed
      out once each and in order, and a queued task that nobody is bringing or fetching leaves
      a permit for an idle worker. */
  lemma QueueIsSafe(workers: nat, evs: seq<Event>)
    ensures var s := Run(Initial(workers), evs);
            && !s.emptyFront
            && s.popped <= s.pushed && s.queue == s.pushed[|s.popped|..]
            && (s.unreleased == 0 && Holding(s.workers) == 0 ==> s.permits == |s.queue|)
  {
    InvAlways(workers, evs);
    var s := Run(Initial(workers), evs);
    assert s.pushed[..|s.popped|] == s.popped;
  }

  /** The semaphore overflows only when more tasks are queued than it can count. */
  lemma {:induction false} WithinBound(workers: nat, evs: seq<Event>)
    requires forall k :: 0 <= k <= |evs| ==> |Run(Initial(workers), evs[..k]).queue| <= USHRT_MAX
    ensures !Run(Initial(workers), evs).overflow && Run(Initial(workers), evs).permits <= USHRT_MAX
  {
    InvAlways(workers, evs);
    assert evs[..|evs|] == evs;
    if evs != [] {
      var n := |evs| - 1;
      forall k | 0 <= k <= n ensures |Run(Initial(workers), evs[..n][..k]).queue| <= USHRT_MAX {
        assert evs[..n][..k] == evs[..k];
      }
      WithinBound(workers, evs[..n]);
      InvAlways(workers, evs[..n]);
      hide Run, Holding;
    }
  }

  /** The most permits there have been. */
  function Peak(s: State, evs: seq<Event>): nat {
    if evs == [] then s.permits
    else Max(Peak(s, evs[..|evs| - 1]), Run(s, evs).permits)
  }

  /** It overflows exactly when there are more permits than 65535. */
  lemma {:induction false} OverflowIsExact(workers: nat, evs: seq<Event>)
    ensures Run(Initial(workers), evs).overflow <==> Peak(Initial(workers), evs) > 65535
  {
    hide Holding;
    if evs != [] { OverflowIsExact(workers, evs[..|evs| - 1]); }
  }

  /** A worker's whole turn takes the oldest task and leaves the worker ready for the next. */
  lemma FullTurn(s: State, w: nat)
    requires s.queue != [] && s.permits > 0 && w < |s.workers| && s.workers[w].Idle?
    ensures Step(Step(Step(s, Acquire(w)), Pop(w)), Finish(w))
         == s.(queue := s.queue[1..], permits := s.permits - 1, popped := s.popped + [s.queue[0]])
  {
    assert s.workers[w := Acquired][w := Running(s.queue[0])][w := Idle] == s.workers;
  }

  // ---- the object ----

  class DevWorkers {
    var taskQueue: seq<Task>
    var permits: nat
    ghost var unreleased: nat
    ghost var workers: seq<Worker>
    ghost var pushed: seq<Task>
    ghost var popped: seq<Task>
    ghost var overflow: bool

    ghost function TheState(): State reads this {
      State(taskQueue, permits, unreleased, workers, pushed, popped, false, overflow)
    }

    constructor (ghost workers: nat)
      ensures TheState() == Initial(workers) && Inv(TheState())
    {
      taskQueue, permits, unreleased, pushed, popped, overflow := [], 0, 0, [], [], false;
      this.workers := seq(workers, _ => Idle);
      new;
      NobodyHolds(workers);
    }

    /** Called by the periodic timer. */
    method DevPeriodicTask(dev: nat)
      modifies this
      ensures TheState() == Step(Step(old(TheState()), Push(PeriodicTask(dev))), Release)
    {
      PushTask(PeriodicTask(dev));
      ReleaseOne();
    }

    method UpdateDevState(dev: nat, nodeId: nat, frame: Frame)
      modifies this
      ensures TheState() == Step(Step(old(TheState()), Push(UpdateTask(dev, nodeId, frame))), Release)
    {
      PushTask(UpdateTask(dev, nodeId, frame));
      ReleaseOne();
    }

    method PushTask(task: Task)
      modifies this
      ensures TheState() == Step(old(TheState()), Push(task))
    {
      taskQueue := taskQueue + [task];
      pushed, unreleased := pushed + [task], unreleased + 1;
    }

    method ReleaseOne()
      requires unreleased > 0
      modifies this
      ensures TheState() == Step(old(TheState()), Release)
    {
      overflow := overflow || permits >= USHRT_MAX;
      permits := permits + 1;
      unreleased := unreleased - 1;
    }

    /** A worker's turn, once the semaphore lets it through: its task is the oldest queued. */
    method WorkerTurn(ghost w: nat) returns (task: Task)
      requires Inv(TheState()) && permits > 0 && w < |workers| && workers[w].Idle?
      modifies this
      ensures old(taskQueue) != [] && task == old(taskQueue[0]) && Inv(TheState())
      ensures TheState() == Step(Step(old(TheState()), Acquire(w)), Pop(w))
      ensures w < |workers| && workers[w] == Running(task)
    {
      InvStep(TheState(), Acquire(w));
      InvStep(Step(TheState(), Acquire(w)), Pop(w));
      hide Holding, Inv;
      permits := permits - 1;
      workers := workers[w := Acquired];
      HasTask(TheState(), w);
      task := taskQueue[0];
      taskQueue := taskQueue[1..];
      popped := popped + [task];
      workers := workers[w := Running(task)];
    }
  }

  lemma HasTask(s: State, w: nat)
    requires Inv(s) && w < |s.workers| && s.workers[w].Acquired?
    ensures s.queue != []
  {
    HoldingSome(s.workers, w);
  }
}

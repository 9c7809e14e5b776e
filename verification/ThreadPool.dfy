/** The worker pool that runs RPC handlers (rpc/thr_pool.cc) on its bounded queue (rpc/fifo.h),
    and its shutdown by poison pills. */
module ThreadPool {
  import opened Common

  /** How one pass of the loop in enq ends; `Waits` is to sleep until there is space. */
  datatype Enqueued = Added | Refused | Waits

  class Fifo<T> {
    var q: seq<T>
    const max: nat        // 0 means unbounded

    constructor (limit: nat)
      ensures Valid() && q == [] && max == limit
    {
      q, max := [], limit;
    }

    ghost predicate Valid()
      reads this
    {
      max > 0 ==> |q| <= max
    }

    /** One pass of enq under the mutex: a full queue refuses a non-blocking call and makes a
        blocking one wait. */
    method Enq(e: T, blocking: bool) returns (r: Enqueued)
      requires Valid()
      modifies this
      ensures Valid() && (r == Added <==> max == 0 || old(|q|) < max) && (r == Waits ==> blocking) && (r == Refused ==> !blocking)
      ensures q == if r == Added then old(q) + [e] else old(q)
    {
      if max == 0 || |q| < max {
        q := q + [e];
        return Added;
      }
      r := if blocking then Waits else Refused;
    }

    /** One pass of deq; None is to sleep until the queue is not empty. */
    method Deq() returns (r: Option<T>)
      requires Valid()
      modifies this
      ensures Valid() && (r.None? <==> old(q) == [])
      ensures old(q) == if r.Some? then [r.value] + q else q
    {
      if q == [] {
        return None;
      }
      r := Some(q[0]);
      q := q[1..];
    }
  }

  // ---- the pool as a whole ----

  datatype Item = Job(id: nat) | Pill

  datatype Worker = Idle | Running(id: nat) | Exited

  /** `accepted`, `started` and `finished` are histories: the jobs addJob took, the jobs workers
      began and the jobs they ended, in order. `pills` counts those the destructor has queued. */
  datatype Pool = Pool(max: nat, q: seq<Item>, workers: seq<Worker>, closing: bool, pills: nat,
                       accepted: seq<nat>, started: seq<nat>, finished: seq<nat>)

  datatype Step =
    | AddJob(id: nat)
    | BeginDestroy
    | EnqPill
    | TakeJob(w: nat)
    | EndJob(w: nat)

  /** ThrPool(sz): a queue of at most 100 jobs per worker. */
  function Init(n: nat): Pool {
    Pool(100 * n, [], seq(n, _ => Idle), false, 0, [], [], [])
  }

  predicate HasSpace(p: Pool) { p.max == 0 || |p.q| < p.max }

  /** addJob is not called any more once the destructor runs. */
  predicate Enabled(p: Pool, s: Step) {
    match s
    case AddJob(_) => !p.closing
    case BeginDestroy => !p.closing
    case EnqPill => p.closing && p.pills < |p.workers| && HasSpace(p)
    case TakeJob(w) => w < |p.workers| && p.workers[w] == Idle && p.q != []
    case EndJob(w) => w < |p.workers| && p.workers[w].Running?
  }

  function Apply(p: Pool, s: Step): Pool
    requires Enabled(p, s)
  {
    match s
    case AddJob(id) => if HasSpace(p) then p.(q := p.q + [Job(id)], accepted := p.accepted + [id]) else p
    case BeginDestroy => p.(closing := true)
    case EnqPill => p.(q := p.q + [Pill], pills := p.pills + 1)
    case TakeJob(w) =>
      (match p.q[0]
       case Job(id) => p.(q := p.q[1..], workers := p.workers[w := Running(id)], started := p.started + [id])
       case Pill => p.(q := p.q[1..], workers := p.workers[w := Exited]))
    case EndJob(w) =>
      p.(workers := p.workers[w := Idle], finished := p.finished + [p.workers[w].id])
  }

  ghost predicate IsRun(p: Pool, ss: seq<Step>)
    decreases |ss|
  {
    ss == [] || (Enabled(p, ss[0]) && IsRun(Apply(p, ss[0]), ss[1..]))
  }

  ghost function After(p: Pool, ss: seq<Step>): Pool
    requires IsRun(p, ss)
    decreases |ss|
  {
    if ss == [] then p else After(Apply(p, ss[0]), ss[1..])
  }

  // ---- invariant ----

  function JobsIn(q: seq<Item>): seq<nat> {
    if q == [] then [] else if q[0].Job? then [q[0].id] + JobsIn(q[1..]) else JobsIn(q[1..])
  }

  function PillsIn(q: seq<Item>): nat {
    if q == [] then 0 else (if q[0].Pill? then 1 else 0) + PillsIn(q[1..])
  }

  function ExitedIn(ws: seq<Worker>): nat {
    if ws == [] then 0 else (if ws[0].Exited? then 1 else 0) + ExitedIn(ws[1..])
  }

  /** How many workers are running job `id`. */
  function RunningIn(ws: seq<Worker>, id: nat): nat {
    if ws == [] then 0 else (if ws[0] == Running(id) then 1 else 0) + RunningIn(ws[1..], id)
  }

  function Count(s: seq<nat>, id: nat): nat {
    if s == [] then 0 else Count(s[..|s| - 1], id) + (if s[|s| - 1] == id then 1 else 0)
  }

  lemma CountSnoc(s: seq<nat>, x: nat, id: nat)
    ensures Count(s + [x], id) == Count(s, id) + (if x == id then 1 else 0)
  {
    assert (s + [x])[..|s|] == s;
  }

  /** Started jobs have finished or are running. */
  ghost predicate Accounted(p: Pool, id: nat) {
    Count(p.started, id) == Count(p.finished, id) + RunningIn(p.workers, id)
  }

  ghost predicate PillsLast(q: seq<Item>) {
    forall i, j :: 0 <= i < j < |q| && q[i].Pill? ==> q[j].Pill?
  }

  ghost predicate Inv(p: Pool) {
    && (p.max > 0 ==> |p.q| <= p.max)
    && p.accepted == p.started + JobsIn(p.q)
    && (forall id :: Accounted(p, id))
    && PillsLast(p.q) && PillsIn(p.q) + ExitedIn(p.workers) == p.pills <= |p.workers|
    && (!p.closing ==> p.pills == 0)
    && (ExitedIn(p.workers) > 0 ==> JobsIn(p.q) == [])
  }

  lemma {:induction false} QueueSnoc(q: seq<Item>, x: Item)
    ensures JobsIn(q + [x]) == JobsIn(q) + (if x.Job? then [x.id] else [])
    ensures PillsIn(q + [x]) == PillsIn(q) + (if x.Pill? then 1 else 0)
  {
    if q == [] {
      assert [x][1..] == [];
    } else {
      assert (q + [x])[1..] == q[1..] + [x];
      QueueSnoc(q[1..], x);
    }
  }

  lemma {:induction false} NoPillsNoPill(q: seq<Item>)
    requires PillsIn(q) == 0
    ensures forall i :: 0 <= i < |q| ==> q[i].Job?
  {
    if q != [] {
      NoPillsNoPill(q[1..]);
      assert forall i :: 1 <= i < |q| ==> q[i] == q[1..][i - 1];
    }
  }

  lemma {:induction false} PillFirstNoJobs(q: seq<Item>)
    requires forall i :: 0 <= i < |q| ==> q[i].Pill?
    ensures JobsIn(q) == [] && PillsIn(q) == |q|
  {
    if q != [] { PillFirstNoJobs(q[1..]); }
  }

  lemma {:induction false} WorkerChange(ws: seq<Worker>, w: nat, x: Worker)
    requires w < |ws|
    ensures ExitedIn(ws[w := x]) == ExitedIn(ws) - (if ws[w].Exited? then 1 else 0) + (if x.Exited? then 1 else 0)
  {
    if w == 0 {
      assert ws[w := x][1..] == ws[1..];
    } else {
      assert ws[w := x][1..] == ws[1..][w - 1 := x];
      WorkerChange(ws[1..], w - 1, x);
    }
  }

  lemma {:induction false} RunningChange(ws: seq<Worker>, w: nat, x: Worker, id: nat)
    requires w < |ws|
    ensures RunningIn(ws[w := x], id)
         == RunningIn(ws, id) - (if ws[w] == Running(id) then 1 else 0) + (if x == Running(id) then 1 else 0)
  {
    if w == 0 {
      assert ws[w := x][1..] == ws[1..];
    } else {
      assert ws[w := x][1..] == ws[1..][w - 1 := x];
      RunningChange(ws[1..], w - 1, x, id);
    }
  }

  lemma AddKeeps(p: Pool, x: Item)
    requires Inv(p) && HasSpace(p) && (x.Job? ==> PillsIn(p.q) == 0)
    ensures PillsLast(p.q + [x])
  {
    if x.Job? { NoPillsNoPill(p.q); }
  }

  lemma TakeKeeps(p: Pool, w: nat)
    requires Inv(p) && Enabled(p, TakeJob(w))
    ensures Inv(Apply(p, TakeJob(w)))
  {
    var p' := Apply(p, TakeJob(w));
    WorkerChange(p.workers, w, p'.workers[w]);
    assert PillsLast(p'.q) by {
      assert forall i :: 0 <= i < |p'.q| ==> p'.q[i] == p.q[i + 1];
    }
    if p.q[0].Job? {
      assert p'.started + JobsIn(p'.q) == p.started + JobsIn(p.q);
    } else {
      forall i | 0 <= i < |p.q| ensures p.q[i].Pill? {
      }
      PillFirstNoJobs(p.q);
      PillFirstNoJobs(p'.q);
    }
    forall id ensures Accounted(p', id) {
      assert Accounted(p, id);
      RunningChange(p.workers, w, p'.workers[w], id);
      if p.q[0].Job? { CountSnoc(p.started, p.q[0].id, id); }
    }
  }

  lemma EndKeeps(p: Pool, w: nat)
    requires Inv(p) && Enabled(p, EndJob(w))
    ensures Inv(Apply(p, EndJob(w)))
  {
    var p' := Apply(p, EndJob(w));
    WorkerChange(p.workers, w, Idle);
    forall id ensures Accounted(p', id) {
      assert Accounted(p, id);
      RunningChange(p.workers, w, Idle, id);
      CountSnoc(p.finished, p.workers[w].id, id);
    }
  }

  lemma AddJobKeeps(p: Pool, id: nat)
    requires Inv(p) && !p.closing && HasSpace(p)
    ensures Inv(Apply(p, AddJob(id)))
  {
    QueueSnoc(p.q, Job(id));
    AddKeeps(p, Job(id));
    assert (p.started + JobsIn(p.q)) + [id] == p.started + (JobsIn(p.q) + [id]);
    forall i ensures Accounted(Apply(p, AddJob(id)), i) {
      assert Accounted(p, i);
    }
  }

  lemma PillKeeps(p: Pool)
    requires Inv(p) && Enabled(p, EnqPill)
    ensures Inv(Apply(p, EnqPill))
  {
    QueueSnoc(p.q, Pill);
    AddKeeps(p, Pill);
    forall i ensures Accounted(Apply(p, EnqPill), i) {
      assert Accounted(p, i);
    }
  }

  lemma StepKeeps(p: Pool, s: Step)
    requires Inv(p) && Enabled(p, s)
    ensures Inv(Apply(p, s)) && |Apply(p, s).workers| == |p.workers|
  {
    match s
    case AddJob(id) => if HasSpace(p) { AddJobKeeps(p, id); }
    case BeginDestroy =>
      forall i ensures Accounted(Apply(p, s), i) {
        assert Accounted(p, i);
      }
    case EnqPill => PillKeeps(p);
    case TakeJob(w) => TakeKeeps(p, w);
    case EndJob(w) => EndKeeps(p, w);
  }

  lemma {:induction false} RunKeeps(p: Pool, ss: seq<Step>)
    requires Inv(p) && IsRun(p, ss)
    ensures Inv(After(p, ss)) && |After(p, ss).workers| == |p.workers|
    decreases |ss|
  {
    if ss != [] {
      StepKeeps(p, ss[0]);
      RunKeeps(Apply(p, ss[0]), ss[1..]);
    }
  }

  lemma {:induction false} AllIdle(ws: seq<Worker>)
    requires forall i :: 0 <= i < |ws| ==> ws[i] == Idle
    ensures ExitedIn(ws) == 0
  {
    if ws != [] { AllIdle(ws[1..]); }
  }

  lemma {:induction false} AllExited(ws: seq<Worker>)
    requires forall i :: 0 <= i < |ws| ==> ws[i].Exited?
    ensures ExitedIn(ws) == |ws|
  {
    if ws != [] { AllExited(ws[1..]); }
  }

  lemma {:induction false} NoneRunning(ws: seq<Worker>, id: nat)
    requires forall i :: 0 <= i < |ws| ==> !ws[i].Running?
    ensures RunningIn(ws, id) == 0
  {
    if ws != [] { NoneRunning(ws[1..], id); }
  }

  lemma InitInv(n: nat)
    ensures Inv(Init(n)) && |Init(n).workers| == n
  {
    AllIdle(Init(n).workers);
    forall id ensures Accounted(Init(n), id) {
      NoneRunning(Init(n).workers, id);
    }
  }

  // ---- theorems ----

  /** In every run: a job offered before shutdown is accepted exactly if fewer than 100 items per
      worker are queued, and is then last in the queue; and an idle worker can take the first item
      that is queued, and runs it if it is a job. */
  lemma JobsAreAcceptedAndTaken(n: nat, ss: seq<Step>, id: nat, w: nat)
    requires n > 0 && IsRun(Init(n), ss)
    ensures var p := After(Init(n), ss);
            && (!p.closing ==> Enabled(p, AddJob(id)))
            && (!p.closing && |p.q| < 100 * n ==>
                  Apply(p, AddJob(id)) == p.(q := p.q + [Job(id)], accepted := p.accepted + [id]))
            && (!p.closing && |p.q| >= 100 * n ==> Apply(p, AddJob(id)) == p)
            && (w < n && |p.workers| == n && p.workers[w] == Idle && p.q != [] ==>
                  && Enabled(p, TakeJob(w)) && Apply(p, TakeJob(w)).q == p.q[1..]
                  && Apply(p, TakeJob(w)).workers == p.workers[w := if p.q[0].Job? then Running(p.q[0].id) else Exited])
            && (w < n && |p.workers| == n && p.workers[w].Running? ==>
                  && Enabled(p, EndJob(w)) && Apply(p, EndJob(w)).workers == p.workers[w := Idle]
                  && Apply(p, EndJob(w)).finished == p.finished + [p.workers[w].id])
            && |p.workers| == n
  {
    InitInv(n);
    RunKeeps(Init(n), ss);
    MaxKept(Init(n), ss);
  }

  /** The pool takes jobs until its destructor begins, and from then on none. */
  lemma {:induction false} OpenUntilDestroyed(p: Pool, ss: seq<Step>)
    requires IsRun(p, ss)
    ensures After(p, ss).closing <==> p.closing || BeginDestroy in ss
    decreases |ss|
  {
    if ss != [] {
      assert BeginDestroy in ss <==> ss[0] == BeginDestroy || BeginDestroy in ss[1..];
      OpenUntilDestroyed(Apply(p, ss[0]), ss[1..]);
    }
  }

  lemma OpensAndCloses(n: nat, ss: seq<Step>, id: nat)
    requires IsRun(Init(n), ss)
    ensures Enabled(After(Init(n), ss), AddJob(id)) <==> BeginDestroy !in ss
    ensures Enabled(After(Init(n), ss), BeginDestroy) <==> BeginDestroy !in ss
  {
    OpenUntilDestroyed(Init(n), ss);
  }

  /** In every run: the queue keeps its bound, and jobs are started in the order in which they
      were accepted, none twice and none skipped. */
  lemma JobsRunInOrder(n: nat, ss: seq<Step>)
    requires IsRun(Init(n), ss)
    ensures var p := After(Init(n), ss);
            && (n > 0 ==> |p.q| <= 100 * n)
            && p.started <= p.accepted && forall id :: Accounted(p, id)
  {
    InitInv(n);
    RunKeeps(Init(n), ss);
    MaxKept(Init(n), ss);
  }

  lemma {:induction false} MaxKept(p: Pool, ss: seq<Step>)
    requires IsRun(p, ss)
    ensures After(p, ss).max == p.max
    decreases |ss|
  {
    if ss != [] { MaxKept(Apply(p, ss[0]), ss[1..]); }
  }

  /** When the destructor has joined all workers, every accepted job has been run to its end
      exactly once, every pill has been taken and the queue is empty. */
  lemma ShutdownComplete(n: nat, ss: seq<Step>)
    requires n > 0 && IsRun(Init(n), ss)
    requires var p := After(Init(n), ss); forall i :: 0 <= i < |p.workers| ==> p.workers[i].Exited?
    ensures var p := After(Init(n), ss);
            && p.pills == n && p.q == [] && p.started == p.accepted
            && forall id :: Count(p.finished, id) == Count(p.accepted, id)
  {
    var p := After(Init(n), ss);
    InitInv(n);
    RunKeeps(Init(n), ss);
    AllExited(p.workers);
    assert PillsIn(p.q) == 0;
    NoPillsNoPill(p.q);
    forall id ensures Count(p.finished, id) == Count(p.started, id) {
      assert Accounted(p, id);
      NoneRunning(p.workers, id);
    }
  }

  /** Shutdown never gets stuck: until all workers have exited, some step can be taken. */
  lemma ShutdownProgresses(n: nat, ss: seq<Step>) returns (s: Step)
    requires n > 0 && IsRun(Init(n), ss) && After(Init(n), ss).closing
    requires exists i :: 0 <= i < |After(Init(n), ss).workers| && !After(Init(n), ss).workers[i].Exited?
    ensures Enabled(After(Init(n), ss), s) && (s.EnqPill? || s.TakeJob? || s.EndJob?)
  {
    var p := After(Init(n), ss);
    InitInv(n);
    RunKeeps(Init(n), ss);
    var i :| 0 <= i < |p.workers| && !p.workers[i].Exited?;
    if p.workers[i].Running? {
      s := EndJob(i);
    } else if p.q != [] {
      s := TakeJob(i);
    } else {
      NotAllExited(p.workers, i);
      MaxKept(Init(n), ss);
      s := EnqPill;
    }
  }

  lemma {:induction false} NotAllExited(ws: seq<Worker>, i: nat)
    requires i < |ws| && !ws[i].Exited?
    ensures ExitedIn(ws) < |ws|
  {
    ExitedAtMost(ws[1..]);
    if i > 0 { NotAllExited(ws[1..], i - 1); }
  }

  lemma {:induction false} ExitedAtMost(ws: seq<Worker>)
    ensures ExitedIn(ws) <= |ws|
  {
    if ws != [] { ExitedAtMost(ws[1..]); }
  }

  // ---- shutdown ends ----

  function BusyIn(ws: seq<Worker>): nat {
    if ws == [] then 0 else (if ws[0].Running? then 1 else 0) + BusyIn(ws[1..])
  }

  lemma {:induction false} BusyChange(ws: seq<Worker>, w: nat, x: Worker)
    requires w < |ws|
    ensures BusyIn(ws[w := x]) == BusyIn(ws) - (if ws[w].Running? then 1 else 0) + (if x.Running? then 1 else 0)
  {
    if w == 0 {
      assert ws[0 := x][1..] == ws[1..];
    } else {
      assert ws[w := x][1..] == ws[1..][w - 1 := x];
      BusyChange(ws[1..], w - 1, x);
    }
  }

  /** What is left to do: three for a pill not queued yet, two for an item in the queue, one for
      a job that is running. */
  function Remaining(p: Pool): int {
    3 * (|p.workers| - p.pills) + 2 * |p.q| + BusyIn(p.workers)
  }

  lemma StepLowers(p: Pool, s: Step)
    requires Inv(p) && p.closing && Enabled(p, s)
    ensures Remaining(Apply(p, s)) < Remaining(p) && Apply(p, s).closing
  {
    match s
    case EnqPill =>
    case TakeJob(w) =>
      BusyChange(p.workers, w, if p.q[0].Job? then Running(p.q[0].id) else Exited);
    case EndJob(w) => BusyChange(p.workers, w, Idle);
  }

  /** Once the destructor runs, no run is longer than what is left to do. */
  lemma {:induction false} ShutdownBound(p: Pool, ss: seq<Step>)
    requires Inv(p) && p.closing && IsRun(p, ss)
    ensures |ss| <= Remaining(p) && After(p, ss).closing
    decreases |ss|
  {
    if ss != [] {
      StepKeeps(p, ss[0]);
      StepLowers(p, ss[0]);
      ShutdownBound(Apply(p, ss[0]), ss[1..]);
    }
  }

  /** Shutdown ends, whatever is scheduled: a run of `more` steps after the destructor has begun
      has at most Remaining steps, and if no further step is possible then all workers have
      exited and every accepted job has run exactly once. */
  lemma ShutdownEnds(n: nat, ss: seq<Step>, more: seq<Step>)
    requires n > 0 && IsRun(Init(n), ss) && After(Init(n), ss).closing
    requires IsRun(After(Init(n), ss), more)
    ensures var p := After(After(Init(n), ss), more);
            && |more| <= Remaining(After(Init(n), ss))
            && ((forall s :: !Enabled(p, s)) ==>
                  && (forall i :: 0 <= i < |p.workers| ==> p.workers[i].Exited?)
                  && p.pills == n && p.q == [] && forall id :: Count(p.finished, id) == Count(p.accepted, id))
  {
    InitInv(n);
    RunKeeps(Init(n), ss);
    ShutdownBound(After(Init(n), ss), more);
    RunConcat(Init(n), ss, more);
    var p := After(Init(n), ss + more);
    if forall s :: !Enabled(p, s) {
      if i :| 0 <= i < |p.workers| && !p.workers[i].Exited? {
        var s := ShutdownProgresses(n, ss + more);
      }
      ShutdownComplete(n, ss + more);
    }
  }

  lemma {:induction false} RunConcat(p: Pool, ss: seq<Step>, more: seq<Step>)
    requires IsRun(p, ss) && IsRun(After(p, ss), more)
    ensures IsRun(p, ss + more) && After(p, ss + more) == After(After(p, ss), more)
    decreases |ss|
  {
    if ss == [] {
      assert ss + more == more;
    } else {
      assert (ss + more)[1..] == ss[1..] + more;
      RunConcat(Apply(p, ss[0]), ss[1..], more);
    }
  }
}

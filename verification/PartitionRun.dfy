/** Partitioning on the task queue. Counting tasks, the layout task, scattering
    tasks and the clean-up task are queue entries with barriers between the levels.
    The steps of the queue and the steps of the tasks that its workers are running
    are interleaved in any way; nothing but the barriers keeps the levels apart. */
module PartitionRun {
  import opened Arith
  import opened Partition
  import P = ParallelPartition
  import Q = TaskQueue

  // What to partition, on how many threads, and what new memory happens to hold.
  datatype Setup = Setup(plan: P.Plan, threads: nat, memory: nat -> nat)

  ghost predicate SoundSetup(s: Setup) {
    P.SoundPlan(s.plan) && s.threads > 0
  }

  // ----- the entries of the queue -----

  // Tasks are numbered in the order in which they are added: first the counting
  // tasks, then the layout, then the scattering tasks and last the clean-up.
  function Level(t: nat, id: nat): nat {
    if id < t then 0 else if id == t then 1 else if id <= 2 * t then 2 else 3
  }

  // Where a task stands among n barrier entries for each level before it.
  function Place(t: nat, n: nat, id: nat): nat {
    if id < t then id else if id == t then id + n else if id <= 2 * t then id + n + n else id + n + n + n
  }

  function EntryAt(t: nat, n: nat, p: nat): Q.Job {
    if p < t then Q.Task(p)
    else if p < t + n then Q.BarrierWait
    else if p == t + n then Q.Task(t)
    else if p < t + 1 + n + n then Q.BarrierWait
    else if p < 2 * t + 1 + n + n then Q.Task(p - n - n)
    else if p < 2 * t + 1 + n + n + n then Q.BarrierWait
    else Q.Task(2 * t + 1)
  }

  function Entries(t: nat, n: nat): (e: seq<Q.Job>)
    ensures |e| == 2 * t + 2 + n + n + n
  {
    seq(2 * t + 2 + n + n + n, p requires 0 <= p => EntryAt(t, n, p))
  }

  lemma EntriesAt(t: nat, n: nat, p: nat)
    requires p < |Entries(t, n)|
    ensures Entries(t, n)[p] == EntryAt(t, n, p)
  {
    hide EntryAt;
  }

  // Barrier entries among the first m.
  function Passed(t: nat, n: nat, m: nat): nat {
    if m <= t then 0
    else if m <= t + n then m - t
    else if m <= t + 1 + n then n
    else if m <= t + 1 + n + n then m - t - 1
    else if m <= 2 * t + 1 + n + n then n + n
    else if m <= 2 * t + 1 + n + n + n then m - 2 * t - 1
    else n + n + n
  }

  lemma {:induction false} BarriersAre(t: nat, n: nat, m: nat)
    requires n > 0 && m <= |Entries(t, n)|
    ensures Q.Barriers(Entries(t, n), m) == Passed(t, n, m)
  {
    hide Entries;
    if m > 0 {
      BarriersAre(t, n, m - 1);
      EntriesAt(t, n, m - 1);
    }
  }

  function Times(n: nat, level: nat): nat {
    if level == 0 then 0 else Times(n, level - 1) + n
  }

  lemma {:induction false} TimesIs(n: nat, level: nat)
    ensures Times(n, level) == Q.GroupStart(n, level)
  {
    Q.GroupStartNext(n, 0);
    if level > 0 {
      TimesIs(n, level - 1);
      Q.GroupStartNext(n, level - 1);
    }
    hide Q.GroupStart;
  }

  // A task stands behind as many whole groups of barrier entries as its level says.
  lemma {:induction false} TaskStands(t: nat, n: nat, id: nat)
    requires n > 0 && id < 2 * t + 2
    ensures Place(t, n, id) < |Entries(t, n)| && Entries(t, n)[Place(t, n, id)] == Q.Task(id)
    ensures Q.Barriers(Entries(t, n), Place(t, n, id)) == Q.GroupStart(n, Level(t, id))
  {
    hide Entries, Q.Barriers, Q.GroupStart;
    BarriersAre(t, n, Place(t, n, id));
    TimesIs(n, Level(t, id));
    assert Times(n, 1) == n && Times(n, 2) == n + n && Times(n, 3) == n + n + n;
    EntriesAt(t, n, Place(t, n, id));
  }

  lemma {:induction false} TaskStandsOnlyThere(t: nat, n: nat, p: nat)
    requires n > 0 && p < |Entries(t, n)| && Entries(t, n)[p].Task?
    ensures Entries(t, n)[p].id < 2 * t + 2 && p == Place(t, n, Entries(t, n)[p].id)
  {
    hide Entries;
    EntriesAt(t, n, p);
  }

  lemma {:induction false} EntriesGrouped(t: nat, n: nat)
    requires n > 0
    ensures Q.Grouped(Entries(t, n), n)
  {
    hide Entries, Q.Barriers, Place, Level, Q.GroupStart;
    var e := Entries(t, n);
    forall p | 0 <= p < |e| && e[p].Task?
      ensures Q.Whole(Q.Barriers(e, p), n)
    {
      TaskStandsOnlyThere(t, n, p);
      TaskStands(t, n, e[p].id);
      WholeGroups(n, Level(t, e[p].id));
    }
    BarriersAre(t, n, |e|);
    TimesIs(n, 3);
    assert Times(n, 1) == n && Times(n, 2) == n + n && Times(n, 3) == n + n + n;
    WholeGroups(n, 3);
  }

  lemma {:induction false} WholeGroups(n: nat, level: nat)
    requires n > 0
    ensures Q.Whole(Q.GroupStart(n, level), n)
  {
    DivModUnique(level * n, n, level, 0);
  }

  lemma {:induction false} NextTask(t: nat, n: nat, k: nat, id: nat)
    requires id < 2 * t + 2 && k == Place(t, n, id)
    ensures k < |Entries(t, n)| && Entries(t, n)[..k] + [Q.Task(id)] == Entries(t, n)[..k + 1]
  {
    hide Entries;
    EntriesAt(t, n, k);
  }

  lemma {:induction false} NextBarrier(t: nat, n: nat, k: nat)
    requires k == t || k == t + n + 1 || k == 2 * t + 1 + n + n
    ensures k + n <= |Entries(t, n)| && Entries(t, n)[..k] + Q.BarrierGroup(n) == Entries(t, n)[..k + n]
  {
    hide Entries;
    forall p: nat | k <= p < k + n
      ensures Entries(t, n)[p] == Q.BarrierWait
    {
      EntriesAt(t, n, p);
    }
  }

  // The first k entries are in the queue.
  ghost predicate Filled(queue: Q.TaskQueue, t: nat, k: nat)
    reads queue, queue.barrier
  {
    queue.Valid() && k <= |Entries(t, queue.nThreads)| && queue.tasks == Entries(t, queue.nThreads)[..k]
  }

  method AddTaskAt(queue: Q.TaskQueue, t: nat, ghost k: nat, id: nat)
    requires Filled(queue, t, k) && id < 2 * t + 2 && k == Place(t, queue.nThreads, id)
    modifies queue`tasks
    ensures Filled(queue, t, k + 1)
  {
    hide Entries, Q.Grouped;
    NextTask(t, queue.nThreads, k, id);
    queue.AddTask(id);
  }

  method AddBarrierAt(queue: Q.TaskQueue, t: nat, ghost k: nat)
    requires Filled(queue, t, k) && (k == t || k == t + queue.nThreads + 1 || k == 2 * t + 1 + queue.nThreads + queue.nThreads)
    modifies queue`tasks
    ensures Filled(queue, t, k + queue.nThreads)
  {
    hide Entries, Q.Grouped;
    NextBarrier(t, queue.nThreads, k);
    queue.AddBarrier();
  }

  // One task for each piece.
  method AddPieces(queue: Q.TaskQueue, t: nat, ghost k: nat, first: nat)
    requires Filled(queue, t, k)
    requires (first == 0 && k == 0) || (first == t + 1 && k == t + 1 + queue.nThreads + queue.nThreads)
    modifies queue`tasks
    ensures Filled(queue, t, k + t)
  {
    hide *;
    for i := 0 to t
      invariant Filled(queue, t, k + i)
    {
      PlaceIs(t, queue.nThreads, first + i);
      AddTaskAt(queue, t, k + i, first + i);
    }
  }

  // The counting tasks and the layout task.
  method AddCounting(queue: Q.TaskQueue, t: nat)
    requires Filled(queue, t, 0)
    modifies queue`tasks
    ensures Filled(queue, t, t + 1 + queue.nThreads + queue.nThreads)
  {
    hide *;
    ghost var n := queue.nThreads;
    AddPieces(queue, t, 0, 0);
    AddBarrierAt(queue, t, t);
    PlaceIs(t, n, t);
    AddTaskAt(queue, t, t + n, t);
    AddBarrierAt(queue, t, t + n + 1);
  }

  // The scattering tasks and the clean-up task.
  method AddScattering(queue: Q.TaskQueue, t: nat)
    requires Filled(queue, t, t + 1 + queue.nThreads + queue.nThreads)
    modifies queue`tasks
    ensures Filled(queue, t, 2 * t + 2 + queue.nThreads + queue.nThreads + queue.nThreads)
  {
    hide *;
    ghost var n := queue.nThreads;
    AddPieces(queue, t, t + 1 + n + n, t + 1);
    AddBarrierAt(queue, t, 2 * t + 1 + n + n);
    PlaceIs(t, n, 2 * t + 1);
    AddTaskAt(queue, t, 2 * t + 1 + n + n + n, 2 * t + 1);
  }

  // Fills the queue, level by level.
  method AddTasks(queue: Q.TaskQueue, t: nat)
    requires queue.Valid() && queue.tasks == []
    modifies queue`tasks
    ensures queue.Valid() && queue.tasks == Entries(t, queue.nThreads)
  {
    assert Filled(queue, t, 0);
    hide *;
    AddCounting(queue, t);
    AddScattering(queue, t);
    AllFilled(queue, t);
  }

  lemma AllFilled(queue: Q.TaskQueue, t: nat)
    requires Filled(queue, t, 2 * t + 2 + queue.nThreads + queue.nThreads + queue.nThreads)
    ensures queue.Valid() && queue.tasks == Entries(t, queue.nThreads)
  {
    hide Q.Grouped;
  }

  lemma PlaceIs(t: nat, n: nat, id: nat)
    ensures id < t ==> Place(t, n, id) == id
    ensures id == t ==> Place(t, n, id) == id + n
    ensures t < id <= 2 * t ==> Place(t, n, id) == id + n + n
    ensures 2 * t < id && t < id ==> Place(t, n, id) == id + n + n + n
  {
  }

  // ----- the state of a run -----

  // The queue with its workers; for each counting task its next element and its
  // histogram, empty until it has begun; what the layout task leaves; and the
  // scattering tasks with their threads' buffers.
  datatype Run = Run(queue: Q.State, next: seq<nat>, local: seq<seq<nat>>,
                     laid: bool, histogram: seq<nat>, offsets: seq<nat>, machine: P.Machine, cleaned: bool)

  predicate Sized(s: Setup, r: Run) {
    |r.next| == |r.local| == |r.machine.jobs| == s.plan.tasks
  }

  predicate Done(s: Setup, r: Run, id: nat)
    requires Sized(s, r) && id < 2 * s.plan.tasks + 2
  {
    var t := s.plan.tasks;
    if id < t then r.local[id] != [] && r.next[id] == P.Begin(s.plan, id + 1)
    else if id == t then r.laid
    else if id <= 2 * t then r.machine.jobs[id - t - 1].Complete?
    else r.cleaned
  }

  function Started(s: Setup): P.Machine {
    P.Machine([], [], P.EmptyBuffers(s.threads, s.plan.n), P.Queued(s.plan.tasks))
  }

  function Start(s: Setup): Run {
    var t := s.plan.tasks;
    Run(Q.Start(Entries(t, s.threads), s.threads), seq(t, i requires 0 <= i < t => P.Begin(s.plan, i)),
        seq(t, i => []), false, [], [], Started(s), false)
  }

  // ----- the invariant -----

  ghost predicate QueueOk(s: Setup, r: Run) {
    Q.Inv(r.queue) && r.queue.tasks == Entries(s.plan.tasks, s.threads) && |r.queue.workers| == s.threads
  }

  ghost predicate PieceOk(plan: P.Plan, i: nat, next: nat, local: seq<nat>)
    requires i < plan.tasks
  {
    P.BeginMono(plan, i, i + 1);
    && P.Begin(plan, i) <= next <= P.Begin(plan, i + 1)
    && if local == [] then next == P.Begin(plan, i)
       else |local| == plan.n && forall p: nat | p < plan.n :: local[p] == |P.Seen(plan, i, next, p)|
  }

  ghost predicate CountsOk(s: Setup, r: Run)
    requires Sized(s, r)
  {
    forall i: nat | i < s.plan.tasks :: PieceOk(s.plan, i, r.next[i], r.local[i])
  }

  // The histogram and the offsets are those of the whole input.
  ghost predicate LaidRight(plan: P.Plan, histogram: seq<nat>, offsets: seq<nat>) {
    && plan.capacity > 0
    && histogram == Histogram(plan.v, plan.n) && |offsets| == plan.n
    && forall p: nat | p < plan.n :: offsets[p] == Offset(Histogram(plan.v, plan.n), plan.capacity, p)
  }

  ghost predicate LayoutOk(s: Setup, r: Run) {
    if r.laid then
      && P.Inv(s.plan, r.machine) && LaidRight(s.plan, r.histogram, r.offsets)
      && |r.machine.buffers| == (if r.cleaned then 0 else s.threads)
      && (r.cleaned ==> P.AllComplete(r.machine))
    else
      !r.cleaned && r.machine == Started(s)
  }

  // A scattering task under way is the entry that its thread is running.
  ghost predicate OnThread(s: Setup, r: Run, i: nat)
    requires Sized(s, r) && i < s.plan.tasks
  {
    r.machine.jobs[i].Active? ==>
      && r.machine.jobs[i].thread < |r.queue.workers|
      && r.queue.workers[r.machine.jobs[i].thread] == Q.Running(Place(s.plan.tasks, s.threads, s.plan.tasks + 1 + i))
  }

  ghost predicate ThreadsOk(s: Setup, r: Run)
    requires Sized(s, r)
  {
    forall i: nat | i < s.plan.tasks :: OnThread(s, r, i)
  }

  // A task that has been taken and that no worker holds any more is done.
  ghost predicate Kept(s: Setup, r: Run, id: nat)
    requires Sized(s, r) && id < 2 * s.plan.tasks + 2
  {
    var p := Place(s.plan.tasks, s.threads, id);
    p < Q.Taken(r.queue) && !Q.HeldBySome(r.queue.workers, p) ==> Done(s, r, id)
  }

  ghost predicate NothingSkipped(s: Setup, r: Run)
    requires Sized(s, r)
  {
    forall id: nat | id < 2 * s.plan.tasks + 2 :: Kept(s, r, id)
  }

  ghost predicate Inv(s: Setup, r: Run) {
    && SoundSetup(s) && Sized(s, r) && QueueOk(s, r) && CountsOk(s, r) && LayoutOk(s, r)
    && ThreadsOk(s, r) && NothingSkipped(s, r)
  }

  lemma {:induction false} StartInv(s: Setup)
    requires SoundSetup(s)
    ensures Inv(s, Start(s))
  {
    var r, t := Start(s), s.plan.tasks;
    EntriesGrouped(t, s.threads);
    Q.StartInv(r.queue.tasks, s.threads);
    hide Q.Inv, Q.Grouped, P.SoundPlan, P.Begin, Entries, Place, P.Seen, P.Queued, P.EmptyBuffers;
    forall i: nat | i < t
      ensures PieceOk(s.plan, i, r.next[i], r.local[i])
    {
      P.BeginMono(s.plan, i, i + 1);
    }
    assert Q.Taken(r.queue) == 0;
  }

  // The parts of the invariant, for proofs that keep it closed.
  lemma InvMeans(s: Setup, r: Run)
    requires Inv(s, r)
    ensures SoundSetup(s) && P.SoundPlan(s.plan) && s.threads > 0
    ensures IsPower(s.plan.n) && s.plan.capacity > 0 && s.plan.tasks > 0
    ensures Sized(s, r) && |r.next| == |r.local| == |r.machine.jobs| == s.plan.tasks
    ensures QueueOk(s, r) && Q.Inv(r.queue)
    ensures r.queue.tasks == Entries(s.plan.tasks, s.threads) && |r.queue.workers| == s.threads
    ensures CountsOk(s, r) && LayoutOk(s, r) && ThreadsOk(s, r) && NothingSkipped(s, r)
  {
    hide Q.Inv, CountsOk, LayoutOk, ThreadsOk, NothingSkipped, IsPower;
  }

  lemma MakeInv(s: Setup, r: Run)
    requires SoundSetup(s) && Sized(s, r) && QueueOk(s, r) && CountsOk(s, r) && LayoutOk(s, r)
    requires ThreadsOk(s, r) && NothingSkipped(s, r)
    ensures Inv(s, r)
  {
    hide SoundSetup, Sized, QueueOk, CountsOk, LayoutOk, ThreadsOk, NothingSkipped;
  }

  lemma PieceAt(s: Setup, r: Run, i: nat)
    requires Sized(s, r) && CountsOk(s, r) && i < s.plan.tasks
    ensures i < |r.next| == |r.local| && PieceOk(s.plan, i, r.next[i], r.local[i])
  {
    hide PieceOk;
  }

  lemma PieceMeans(plan: P.Plan, i: nat, next: nat, local: seq<nat>)
    requires i < plan.tasks && PieceOk(plan, i, next, local)
    ensures P.Begin(plan, i) <= next <= P.Begin(plan, i + 1)
    ensures local == [] ==> next == P.Begin(plan, i)
    ensures local != [] ==> |local| == plan.n && forall p: nat | p < plan.n :: local[p] == |P.Seen(plan, i, next, p)|
  {
    P.BeginMono(plan, i, i + 1);
    hide P.Begin, P.Seen;
  }

  lemma OnThreadMeans(s: Setup, r: Run, i: nat)
    requires Sized(s, r) && ThreadsOk(s, r) && i < s.plan.tasks
    ensures i < |r.machine.jobs|
    ensures r.machine.jobs[i].Active? ==> Runs(s, r, r.machine.jobs[i].thread, s.plan.tasks + 1 + i)
  {
    assert OnThread(s, r, i);
    hide Place;
  }

  lemma LaidMeans(s: Setup, r: Run)
    requires LayoutOk(s, r)
    ensures r.laid ==>
              && P.Inv(s.plan, r.machine) && LaidRight(s.plan, r.histogram, r.offsets)
              && |r.machine.buffers| == (if r.cleaned then 0 else s.threads)
              && (r.cleaned ==> P.AllComplete(r.machine))
    ensures !r.laid ==> !r.cleaned && r.machine == Started(s)
  {
    hide P.Inv, LaidRight, P.AllComplete, Started;
  }

  lemma DoneMeans(s: Setup, r: Run, id: nat)
    requires Sized(s, r) && id < 2 * s.plan.tasks + 2
    ensures var t := s.plan.tasks;
            && t == |r.next| == |r.local| == |r.machine.jobs|
            && (id < t ==> (Done(s, r, id) <==> r.local[id] != [] && r.next[id] == P.Begin(s.plan, id + 1)))
            && (id == t ==> (Done(s, r, id) <==> r.laid))
            && (t < id <= 2 * t ==> (Done(s, r, id) <==> r.machine.jobs[id - t - 1].Complete?))
            && (2 * t < id ==> (Done(s, r, id) <==> r.cleaned))
  {
    hide P.Begin;
  }

  lemma LevelIs(t: nat, id: nat)
    ensures id < t ==> Level(t, id) == 0
    ensures id == t ==> Level(t, id) == 1
    ensures t < id <= 2 * t ==> Level(t, id) == 2
    ensures 2 * t < id && t < id ==> Level(t, id) == 3
  {
  }

  // ----- the barriers keep the levels apart -----

  lemma GroupStartApart(n: nat, a: nat, b: nat)
    requires n > 0
    ensures a < b <==> Q.GroupStart(n, a) < Q.GroupStart(n, b)
  {
    if a < b {
      MulLt(a, b, n);
    } else {
      MulLe(b, a, n);
    }
  }

  // Every task of a level below the barrier's generation is done.
  lemma {:induction false} LowerLevelsDone(s: Setup, r: Run, id: nat)
    requires Inv(s, r) && id < 2 * s.plan.tasks + 2 && Level(s.plan.tasks, id) < r.queue.generation
    ensures Done(s, r, id)
  {
    var t, n, p := s.plan.tasks, s.threads, Place(s.plan.tasks, s.threads, id);
    TaskStands(t, n, id);
    GroupStartApart(n, Level(t, id), r.queue.generation);
    hide Q.Count, Q.Barriers, Q.GroupStart, Q.Apart, Q.Grouped, Entries, Place, Level, P.SoundPlan, Done, CountsOk,
      LayoutOk, ThreadsOk, Q.AllOk, Q.Holds;
    if p >= Q.Taken(r.queue) {
      Q.BarriersMono(r.queue.tasks, Q.Taken(r.queue), p);
      assert false;
    }
    if j: nat :| j < n && Q.Holds(r.queue.workers[j], p) {
      HeldIsCurrent(r.queue, j, p);
      assert false;
    }
    assert Kept(s, r, id);
  }

  lemma HeldIsCurrent(q: Q.State, j: nat, p: nat)
    requires Q.Inv(q) && j < |q.workers| && Q.Holds(q.workers[j], p)
    ensures p < |q.tasks|
    ensures q.tasks[p].Task? ==> Q.Barriers(q.tasks, p) == Q.GroupStart(|q.workers|, q.generation)
  {
    Q.WorkerIs(q, j);
    hide Q.Barriers, Q.GroupStart, Q.Inv;
  }

  // The task that a worker is running.
  ghost predicate Runs(s: Setup, r: Run, w: nat, id: nat) {
    && w < |r.queue.workers| && id < 2 * s.plan.tasks + 2
    && r.queue.workers[w] == Q.Running(Place(s.plan.tasks, s.threads, id))
  }

  // When a worker runs a task, every task of a lower level is done.
  lemma {:induction false} LevelsApart(s: Setup, r: Run, w: nat, own: nat, id: nat)
    requires Inv(s, r) && Runs(s, r, w, own) && id < 2 * s.plan.tasks + 2
    requires Level(s.plan.tasks, id) < Level(s.plan.tasks, own)
    ensures Done(s, r, id)
  {
    RunsAtLevel(s, r, w, own);
    hide *;
    LowerLevelsDone(s, r, id);
  }

  lemma {:induction false} RunsAtLevel(s: Setup, r: Run, w: nat, own: nat)
    requires Inv(s, r) && Runs(s, r, w, own)
    ensures Level(s.plan.tasks, own) == r.queue.generation
  {
    var t, n := s.plan.tasks, s.threads;
    TaskStands(t, n, own);
    Q.WorkerIs(r.queue, w);
    GroupStartApart(n, Level(t, own), r.queue.generation);
    GroupStartApart(n, r.queue.generation, Level(t, own));
    hide Q.Count, Q.Barriers, Q.GroupStart, Q.Apart, Q.Grouped, Entries, Place, Level, P.SoundPlan, Done, CountsOk,
      LayoutOk, ThreadsOk, NothingSkipped;
  }

  // ----- steps -----

  // Counting task i begins, or counts its next element.
  function CountOne(s: Setup, r: Run, i: nat): Run
    requires Sized(s, r) && i < s.plan.tasks && IsPower(s.plan.n)
    requires r.local[i] != [] ==> r.next[i] < |s.plan.v| && |r.local[i]| == s.plan.n
  {
    if r.local[i] == [] then
      r.(local := r.local[i := seq(s.plan.n, p => 0)])
    else
      var p := PartitionOf(s.plan.v[r.next[i]], s.plan.n);
      PartitionInRange(s.plan.v[r.next[i]], s.plan.n);
      r.(next := r.next[i := r.next[i] + 1], local := P.Put2(r.local, i, p, r.local[i][p] + 1))
  }

  // Elements of partition p that the first i tasks have counted.
  function CountedUpTo(local: seq<seq<nat>>, i: nat, p: nat): nat
    requires i <= |local| && forall j | 0 <= j < |local| :: p < |local[j]|
  {
    if i == 0 then 0 else CountedUpTo(local, i - 1, p) + local[i - 1][p]
  }

  function Totals(plan: P.Plan, local: seq<seq<nat>>): (h: seq<nat>)
    requires P.Tabular(plan, local)
    ensures |h| == plan.n && forall p: nat | p < plan.n :: h[p] == CountedUpTo(local, plan.tasks, p)
  {
    seq(plan.n, p requires 0 <= p < plan.n => CountedUpTo(local, plan.tasks, p))
  }

  function OffsetsOf(h: seq<nat>, capacity: nat): (o: seq<nat>)
    requires capacity > 0
    ensures |o| == |h| && forall p: nat | p < |h| :: o[p] == Offset(h, capacity, p)
  {
    seq(|h|, p requires 0 <= p < |h| => Offset(h, capacity, p))
  }

  function RowOf(local: seq<seq<nat>>, offsets: seq<nat>, i: nat): (row: seq<nat>)
    requires i <= |local| && forall j | 0 <= j < |local| :: |local[j]| == |offsets|
    ensures |row| == |offsets| && forall p: nat | p < |offsets| :: row[p] == offsets[p] + CountedUpTo(local, i, p)
  {
    seq(|offsets|, p requires 0 <= p < |offsets| => offsets[p] + CountedUpTo(local, i, p))
  }

  // Where each task writes in each partition.
  function Positions(local: seq<seq<nat>>, offsets: seq<nat>): (a: seq<seq<nat>>)
    requires forall j | 0 <= j < |local| :: |local[j]| == |offsets|
    ensures |a| == |local| && forall i: nat | i < |local| :: a[i] == RowOf(local, offsets, i)
  {
    seq(|local|, i requires 0 <= i < |local| => RowOf(local, offsets, i))
  }

  function Allocated(s: Setup, size: nat): (values: seq<nat>)
    ensures |values| == size
  {
    if size == 0 then [] else Allocated(s, size - 1) + [s.memory(size - 1)]
  }

  // The layout task adds up the histograms and gives every task its ranges.
  function LayOut(s: Setup, r: Run): Run
    requires s.plan.capacity > 0 && P.Tabular(s.plan, r.local)
  {
    var h := Totals(s.plan, r.local);
    var o := OffsetsOf(h, s.plan.capacity);
    r.(laid := true, histogram := h, offsets := o,
       machine := P.Machine(Allocated(s, Offset(h, s.plan.capacity, |h|)), Positions(r.local, o),
                            r.machine.buffers, r.machine.jobs))
  }

  // A worker runs a task that is not done.
  ghost predicate Working(s: Setup, r: Run, w: nat, id: nat)
    requires Sized(s, r)
  {
    Runs(s, r, w, id) && !Done(s, r, id)
  }

  lemma {:induction false} CountReady(s: Setup, r: Run, w: nat, i: nat)
    requires Inv(s, r) && Sized(s, r) && Working(s, r, w, i) && i < s.plan.tasks
    ensures IsPower(s.plan.n) && (r.local[i] != [] ==> r.next[i] < |s.plan.v| && |r.local[i]| == s.plan.n)
    ensures r.local[i] != [] ==> r.next[i] < P.Begin(s.plan, i + 1)
  {
    hide *;
    InvMeans(s, r);
    PieceAt(s, r, i);
    PieceMeans(s.plan, i, r.next[i], r.local[i]);
    WorkingMeans(s, r, w, i);
    DoneMeans(s, r, i);
  }

  lemma WorkingMeans(s: Setup, r: Run, w: nat, id: nat)
    requires Sized(s, r)
    ensures Working(s, r, w, id) <==> Runs(s, r, w, id) && id < 2 * s.plan.tasks + 2 && !Done(s, r, id)
  {
    hide Done, Place;
  }

  // At the layout task all counting tasks are done.
  lemma {:induction false} LayOutReady(s: Setup, r: Run, w: nat)
    requires Inv(s, r) && Runs(s, r, w, s.plan.tasks)
    ensures s.plan.capacity > 0 && P.Tabular(s.plan, r.local) && P.Counted(s.plan, r.local)
  {
    hide *;
    InvMeans(s, r);
    forall i: nat | i < s.plan.tasks
      ensures P.CountedBy(s.plan, i, r.local[i])
    {
      LevelIs(s.plan.tasks, i);
      LevelIs(s.plan.tasks, s.plan.tasks);
      LevelsApart(s, r, w, s.plan.tasks, i);
      DoneMeans(s, r, i);
      PieceAt(s, r, i);
      PieceDone(s.plan, i, r.local[i]);
    }
    AllCounted(s.plan, r.local);
  }

  lemma PieceDone(plan: P.Plan, i: nat, local: seq<nat>)
    requires i < plan.tasks && local != [] && PieceOk(plan, i, P.Begin(plan, i + 1), local)
    ensures P.CountedBy(plan, i, local)
  {
    P.BeginMono(plan, i, i + 1);
    hide P.Begin, P.Seen;
  }

  lemma AllCounted(plan: P.Plan, local: seq<seq<nat>>)
    requires |local| == plan.tasks && forall i: nat | i < plan.tasks :: P.CountedBy(plan, i, local[i])
    ensures P.Counted(plan, local) && P.Tabular(plan, local)
  {
    hide P.Begin, P.Seen;
  }

  // At a scattering task the layout is done, the clean-up is not, and the thread
  // is free for a task that begins.
  lemma {:induction false} ScatterReady(s: Setup, r: Run, w: nat, i: nat)
    requires Inv(s, r) && Sized(s, r) && i < s.plan.tasks && Working(s, r, w, s.plan.tasks + 1 + i)
    ensures r.laid && !r.cleaned && P.Inv(s.plan, r.machine) && P.Enabled(s.plan, r.machine, i, w)
  {
    hide *;
    var m, t := r.machine, s.plan.tasks;
    InvMeans(s, r);
    WorkingMeans(s, r, w, t + 1 + i);
    LevelIs(t, t + 1 + i);
    LevelIs(t, t);
    LevelsApart(s, r, w, t + 1 + i, t);
    DoneMeans(s, r, t);
    DoneMeans(s, r, t + 1 + i);
    LaidMeans(s, r);
    NotAllComplete(m, i);
    if m.jobs[i].Active? {
      P.ActiveCanGoOn(s.plan, m, i);
      CanGoOn(s.plan, m, i, w);
    } else {
      forall j: nat | j < |m.jobs|
        ensures !(m.jobs[j].Active? && m.jobs[j].thread == w)
      {
        OnThreadMeans(s, r, j);
        if m.jobs[j].Active? && m.jobs[j].thread == w {
          RunsOnly(s, r, w, t + 1 + i, t + 1 + j);
        }
      }
      RunsWorker(s, r, w, t + 1 + i);
      CanBegin(s.plan, m, i, w);
    }
  }

  lemma NotAllComplete(m: P.Machine, i: nat)
    requires i < |m.jobs| && !m.jobs[i].Complete?
    ensures !P.AllComplete(m)
  {
  }

  lemma CanGoOn(plan: P.Plan, m: P.Machine, i: nat, w: nat)
    requires P.CanFeed(plan, m, i) || P.CanFlush(plan, m, i) || P.CanFinish(plan, m, i)
    ensures P.Enabled(plan, m, i, w)
  {
    hide P.CanFeed, P.CanFlush, P.CanFinish;
  }

  lemma CanBegin(plan: P.Plan, m: P.Machine, i: nat, w: nat)
    requires i < plan.tasks && i < |m.jobs| && m.jobs[i].Pending? && w < |m.buffers|
    requires forall j: nat | j < |m.jobs| :: !(m.jobs[j].Active? && m.jobs[j].thread == w)
    ensures P.Enabled(plan, m, i, w)
  {
    assert P.Free(m, w);
    hide P.CanFeed, P.CanFlush, P.CanFinish;
  }

  // A worker runs one task.
  lemma RunsOnly(s: Setup, r: Run, w: nat, id: nat, other: nat)
    requires Runs(s, r, w, id) && Runs(s, r, w, other)
    ensures id == other
  {
  }

  lemma RunsWorker(s: Setup, r: Run, w: nat, id: nat)
    requires Runs(s, r, w, id)
    ensures w < |r.queue.workers| && id < 2 * s.plan.tasks + 2
    ensures r.queue.workers[w] == Q.Running(Place(s.plan.tasks, s.threads, id))
  {
    hide Place;
  }

  // At the clean-up every scattering task is done.
  lemma {:induction false} CleanUpReady(s: Setup, r: Run, w: nat)
    requires Inv(s, r) && Runs(s, r, w, 2 * s.plan.tasks + 1)
    ensures r.laid && P.Inv(s.plan, r.machine) && P.AllComplete(r.machine)
  {
    hide *;
    var t := s.plan.tasks;
    InvMeans(s, r);
    LevelIs(t, 2 * t + 1);
    LevelIs(t, t);
    LevelsApart(s, r, w, 2 * t + 1, t);
    DoneMeans(s, r, t);
    LaidMeans(s, r);
    forall i: nat | i < t
      ensures r.machine.jobs[i].Complete?
    {
      LevelIs(t, t + 1 + i);
      LevelsApart(s, r, w, 2 * t + 1, t + 1 + i);
      DoneMeans(s, r, t + 1 + i);
    }
    AllAreComplete(r.machine);
  }

  lemma AllAreComplete(m: P.Machine)
    requires forall i: nat | i < |m.jobs| :: m.jobs[i].Complete?
    ensures P.AllComplete(m)
  {
  }

  function ScatterOne(s: Setup, r: Run, w: nat, i: nat): Run
    requires P.Inv(s.plan, r.machine) && P.Enabled(s.plan, r.machine, i, w)
  {
    r.(machine := P.Next(s.plan, r.machine, i, w))
  }

  // The buffers are freed.
  function CleanUp(r: Run): Run {
    r.(cleaned := true, machine := r.machine.(buffers := []))
  }

  // What a step of a task needs.
  ghost predicate Ready(s: Setup, r: Run, w: nat, id: nat) {
    var t := s.plan.tasks;
    && Sized(s, r) && id < 2 * t + 2
    && (id < t ==> IsPower(s.plan.n) && (r.local[id] != [] ==>
                                           r.next[id] < |s.plan.v| && |r.local[id]| == s.plan.n))
    && (id == t ==> s.plan.capacity > 0 && P.Tabular(s.plan, r.local))
    && (t < id <= 2 * t ==> P.Inv(s.plan, r.machine) && P.Enabled(s.plan, r.machine, id - t - 1, w))
  }

  // One step of the task that worker w is running.
  function Advance(s: Setup, r: Run, w: nat, id: nat): Run
    requires Ready(s, r, w, id)
  {
    if id < s.plan.tasks then CountOne(s, r, id)
    else if id == s.plan.tasks then LayOut(s, r)
    else if id <= 2 * s.plan.tasks then ScatterOne(s, r, w, id - s.plan.tasks - 1)
    else CleanUp(r)
  }

  lemma {:induction false} AdvanceReady(s: Setup, r: Run, w: nat, id: nat)
    requires Inv(s, r) && Sized(s, r) && Working(s, r, w, id)
    ensures Ready(s, r, w, id)
  {
    hide *;
    WorkingMeans(s, r, w, id);
    SizedIs(s, r);
    if id < s.plan.tasks {
      CountReady(s, r, w, id);
    } else if id == s.plan.tasks {
      LayOutReady(s, r, w);
    } else if id <= 2 * s.plan.tasks {
      ScatterReady(s, r, w, id - s.plan.tasks - 1);
    }
    MakeReady(s, r, w, id);
  }

  lemma MakeReady(s: Setup, r: Run, w: nat, id: nat)
    requires Sized(s, r) && id < 2 * s.plan.tasks + 2 && |r.next| == |r.local| == s.plan.tasks
    requires id < s.plan.tasks ==>
               IsPower(s.plan.n) && (r.local[id] != [] ==> r.next[id] < |s.plan.v| && |r.local[id]| == s.plan.n)
    requires id == s.plan.tasks ==> s.plan.capacity > 0 && P.Tabular(s.plan, r.local)
    requires s.plan.tasks < id <= 2 * s.plan.tasks ==>
               P.Inv(s.plan, r.machine) && P.Enabled(s.plan, r.machine, id - s.plan.tasks - 1, w)
    ensures Ready(s, r, w, id)
  {
    hide P.Inv, P.Enabled, IsPower, P.Tabular;
  }

  // The worker is running a task that is not done.
  predicate Busy(s: Setup, r: Run, w: nat)
    requires Sized(s, r) && w < |r.queue.workers|
  {
    && r.queue.workers[w].Running? && r.queue.workers[w].p < |r.queue.tasks|
    && r.queue.tasks[r.queue.workers[w].p].Task?
    && Own(r, w) < 2 * s.plan.tasks + 2 && !Done(s, r, Own(r, w))
  }

  function Own(r: Run, w: nat): nat
    requires w < |r.queue.workers| && r.queue.workers[w].Running? && r.queue.workers[w].p < |r.queue.tasks|
    requires r.queue.tasks[r.queue.workers[w].p].Task?
  {
    r.queue.tasks[r.queue.workers[w].p].id
  }

  lemma {:induction false} BusyIs(s: Setup, r: Run, w: nat)
    requires Inv(s, r) && Sized(s, r) && w < |r.queue.workers|
    ensures Busy(s, r, w) ==>
              && r.queue.workers[w].Running? && r.queue.workers[w].p < |r.queue.tasks|
              && r.queue.tasks[r.queue.workers[w].p].Task?
              && Working(s, r, w, Own(r, w))
    ensures forall id: nat | id < 2 * s.plan.tasks + 2 && Runs(s, r, w, id) && !Busy(s, r, w) :: Done(s, r, id)
  {
    InvMeans(s, r);
    hide Inv, Done, Place, Entries, Sized;
    if Busy(s, r, w) {
      TaskStandsOnlyThere(s.plan.tasks, s.threads, r.queue.workers[w].p);
    }
    forall id: nat | id < 2 * s.plan.tasks + 2 && Runs(s, r, w, id) && !Busy(s, r, w)
      ensures Done(s, r, id)
    {
      TaskStands(s.plan.tasks, s.threads, id);
    }
  }

  lemma OwnReady(s: Setup, r: Run, w: nat)
    requires Inv(s, r) && Sized(s, r) && w < |r.queue.workers|
    ensures Busy(s, r, w) ==>
              && r.queue.workers[w].Running? && r.queue.workers[w].p < |r.queue.tasks|
              && r.queue.tasks[r.queue.workers[w].p].Task? && Ready(s, r, w, Own(r, w))
  {
    hide *;
    BusyIs(s, r, w);
    if Busy(s, r, w) {
      AdvanceReady(s, r, w, Own(r, w));
    }
  }

  // One step of worker w: of its task if that is not done, otherwise of the queue.
  function Step(s: Setup, r: Run, w: nat): Run
    requires Inv(s, r) && Sized(s, r) && w < |r.queue.workers|
  {
    OwnReady(s, r, w);
    if Busy(s, r, w) then Advance(s, r, w, Own(r, w)) else r.(queue := Q.Step(r.queue, w))
  }

  // ----- every step keeps the invariant -----

  lemma {:induction false} AllKept(s: Setup, r: Run, u: Run)
    requires Sized(s, r) && Sized(s, u) && NothingSkipped(s, r) && u.queue == r.queue
    requires forall id: nat | id < 2 * s.plan.tasks + 2 && Done(s, r, id) :: Done(s, u, id)
    ensures NothingSkipped(s, u)
  {
    hide Done, Place, Q.Taken, Q.HeldBySome;
    forall id: nat | id < 2 * s.plan.tasks + 2
      ensures Kept(s, u, id)
    {
      assert Kept(s, r, id);
    }
  }

  lemma {:induction false} SameThreads(s: Setup, r: Run, u: Run)
    requires Sized(s, r) && Sized(s, u) && ThreadsOk(s, r) && u.queue == r.queue
    requires u.machine.jobs == r.machine.jobs
    ensures ThreadsOk(s, u)
  {
    hide Place;
    forall i: nat | i < s.plan.tasks
      ensures OnThread(s, u, i)
    {
      assert OnThread(s, r, i);
    }
  }

  lemma {:induction false} PieceBegins(plan: P.Plan, i: nat, local: seq<nat>)
    requires i < plan.tasks && |local| == plan.n && forall p: nat | p < plan.n :: local[p] == 0
    ensures PieceOk(plan, i, P.Begin(plan, i), local)
  {
    P.BeginMono(plan, i, i + 1);
    forall p: nat | p < plan.n
      ensures |P.Seen(plan, i, P.Begin(plan, i), p)| == 0
    {
      P.SeenNone(plan, i, p);
    }
    hide P.Begin, P.Seen;
  }

  lemma {:induction false} PieceGrows(plan: P.Plan, i: nat, next: nat, local: seq<nat>)
    requires i < plan.tasks && local != [] && next < P.Begin(plan, i + 1) && PieceOk(plan, i, next, local)
    requires IsPower(plan.n)
    ensures next < |plan.v| && PartitionOf(plan.v[next], plan.n) < |local|
    ensures var p := PartitionOf(plan.v[next], plan.n); PieceOk(plan, i, next + 1, local[p := local[p] + 1])
  {
    P.BeginMono(plan, i, i + 1);
    PartitionInRange(plan.v[next], plan.n);
    forall q: nat | q < plan.n
      ensures |P.Seen(plan, i, next + 1, q)|
              == |P.Seen(plan, i, next, q)| + if PartitionOf(plan.v[next], plan.n) == q then 1 else 0
    {
      P.SeenStep(plan, i, next, q);
    }
    hide P.Begin, P.Seen, PartitionOf, IsPower;
  }

  // The fields that counting changes.
  lemma {:induction false} CountOneIs(s: Setup, r: Run, i: nat)
    requires Sized(s, r) && i < s.plan.tasks && IsPower(s.plan.n) && CountsOk(s, r)
    requires r.local[i] != [] ==> r.next[i] < P.Begin(s.plan, i + 1) && r.next[i] < |s.plan.v| && |r.local[i]| == s.plan.n
    ensures var u := CountOne(s, r, i);
            && Sized(s, u) && u.queue == r.queue && u.machine == r.machine
            && u == r.(next := u.next, local := u.local)
            && |u.next| == |r.next| && |u.local| == |r.local|
            && (forall j: nat | j < s.plan.tasks && j != i :: u.next[j] == r.next[j] && u.local[j] == r.local[j])
            && PieceOk(s.plan, i, u.next[i], u.local[i])
  {
    assert PieceOk(s.plan, i, r.next[i], r.local[i]);
    PieceMeans(s.plan, i, r.next[i], r.local[i]);
    hide PieceOk, P.Begin, IsPower, PartitionOf;
    if r.local[i] == [] {
      PieceBegins(s.plan, i, seq(s.plan.n, p => 0));
    } else {
      PieceGrows(s.plan, i, r.next[i], r.local[i]);
    }
  }

  lemma {:induction false} CountKeepsInv(s: Setup, r: Run, w: nat, i: nat)
    requires Inv(s, r) && Sized(s, r) && Working(s, r, w, i) && i < s.plan.tasks
    ensures Ready(s, r, w, i) && Inv(s, Advance(s, r, w, i)) && Sized(s, Advance(s, r, w, i))
  {
    hide *;
    InvMeans(s, r);
    CountReady(s, r, w, i);
    CountOneIs(s, r, i);
    var u := CountOne(s, r, i);
    AdvanceIs(s, r, w, i);
    WorkingMeans(s, r, w, i);
    forall id: nat | id < 2 * s.plan.tasks + 2 && Done(s, r, id)
      ensures Done(s, u, id)
    {
      DoneMeans(s, r, id);
      DoneMeans(s, u, id);
    }
    AllKept(s, r, u);
    SameThreads(s, r, u);
    SameQueue(s, r, u);
    SameLayout(s, r, u);
    forall j: nat | j < s.plan.tasks
      ensures PieceOk(s.plan, j, u.next[j], u.local[j])
    {
      PieceAt(s, r, j);
    }
    AllPieces(s, u);
    MakeInv(s, u);
  }

  lemma AdvanceIs(s: Setup, r: Run, w: nat, id: nat)
    requires Inv(s, r) && Sized(s, r) && Working(s, r, w, id)
    ensures Ready(s, r, w, id)
    ensures id < s.plan.tasks ==>
              && IsPower(s.plan.n) && id < |r.next| == |r.local|
              && (r.local[id] != [] ==> r.next[id] < |s.plan.v| && |r.local[id]| == s.plan.n)
              && Advance(s, r, w, id) == CountOne(s, r, id)
    ensures id == s.plan.tasks ==>
              s.plan.capacity > 0 && P.Tabular(s.plan, r.local) && Advance(s, r, w, id) == LayOut(s, r)
    ensures s.plan.tasks < id <= 2 * s.plan.tasks ==>
              && P.Inv(s.plan, r.machine) && P.Enabled(s.plan, r.machine, id - s.plan.tasks - 1, w)
              && Advance(s, r, w, id) == ScatterOne(s, r, w, id - s.plan.tasks - 1)
    ensures 2 * s.plan.tasks < id && s.plan.tasks < id ==> Advance(s, r, w, id) == CleanUp(r)
  {
    hide *;
    AdvanceReady(s, r, w, id);
    ReadyMeans(s, r, w, id);
  }

  lemma ReadyMeans(s: Setup, r: Run, w: nat, id: nat)
    requires Ready(s, r, w, id)
    ensures id < s.plan.tasks ==>
              && IsPower(s.plan.n) && Sized(s, r) && id < |r.next| == |r.local|
              && (r.local[id] != [] ==> r.next[id] < |s.plan.v| && |r.local[id]| == s.plan.n)
              && Advance(s, r, w, id) == CountOne(s, r, id)
    ensures id == s.plan.tasks ==>
              s.plan.capacity > 0 && P.Tabular(s.plan, r.local) && Advance(s, r, w, id) == LayOut(s, r)
    ensures s.plan.tasks < id <= 2 * s.plan.tasks ==>
              && P.Inv(s.plan, r.machine) && P.Enabled(s.plan, r.machine, id - s.plan.tasks - 1, w)
              && Advance(s, r, w, id) == ScatterOne(s, r, w, id - s.plan.tasks - 1)
    ensures 2 * s.plan.tasks < id && s.plan.tasks < id ==> Advance(s, r, w, id) == CleanUp(r)
  {
    hide CountOne, LayOut, ScatterOne, CleanUp, P.Inv, P.Enabled, IsPower, P.Tabular;
  }

  lemma SameQueue(s: Setup, r: Run, u: Run)
    requires QueueOk(s, r) && u.queue == r.queue
    ensures QueueOk(s, u)
  {
    hide Q.Inv;
  }

  lemma SameLayout(s: Setup, r: Run, u: Run)
    requires LayoutOk(s, r) && u == r.(next := u.next, local := u.local, queue := u.queue)
    ensures LayoutOk(s, u)
  {
    hide P.Inv, LaidRight, P.AllComplete;
  }

  lemma AllPieces(s: Setup, r: Run)
    requires Sized(s, r)
    requires forall i: nat | i < s.plan.tasks :: PieceOk(s.plan, i, r.next[i], r.local[i])
    ensures CountsOk(s, r)
  {
    hide PieceOk;
  }

  lemma SameCounts(s: Setup, r: Run, u: Run)
    requires Sized(s, r) && Sized(s, u) && CountsOk(s, r) && u.next == r.next && u.local == r.local
    ensures CountsOk(s, u)
  {
    hide PieceOk;
  }

  // The first i tasks have counted what precedes the piece of task i.
  lemma {:induction false} CountedBefore(plan: P.Plan, local: seq<seq<nat>>, i: nat, p: nat)
    requires P.Counted(plan, local) && P.Tabular(plan, local) && i <= plan.tasks && p < plan.n && plan.capacity > 0
    ensures CountedUpTo(local, i, p) == P.Before(plan, i, p)
  {
    hide P.Begin, P.Counted, P.Seen, Chosen, P.Base;
    P.TabularMeans(plan, local);
    if i == 0 {
      P.BeginZero(plan, p);
    } else {
      CountedBefore(plan, local, i - 1, p);
      P.CountedAt(plan, local, i - 1, p);
      P.SeenAll(plan, i - 1, p);
    }
  }

  // The totals are the histogram, and the positions the bases of the ranges.
  lemma {:induction false} LayOutRight(plan: P.Plan, local: seq<seq<nat>>)
    requires P.SoundPlan(plan) && plan.capacity > 0 && plan.tasks > 0
    requires P.Counted(plan, local) && P.Tabular(plan, local)
    ensures Totals(plan, local) == Histogram(plan.v, plan.n)
    ensures LaidRight(plan, Totals(plan, local), OffsetsOf(Totals(plan, local), plan.capacity))
    ensures var a := Positions(local, OffsetsOf(Totals(plan, local), plan.capacity));
            && P.Tabular(plan, a)
            && forall i: nat, p: nat | i < plan.tasks && p < plan.n :: a[i][p] == P.Base(plan, i, p)
    ensures Offset(Totals(plan, local), plan.capacity, |Totals(plan, local)|) == P.Total(plan)
  {
    hide P.Begin, P.Counted, P.Before, Chosen, CountedUpTo, P.SoundPlan, Offset, Totals, OffsetsOf, Positions, RowOf;
    var h := Totals(plan, local);
    forall p: nat | p < plan.n
      ensures h[p] == Histogram(plan.v, plan.n)[p]
    {
      CountedBefore(plan, local, plan.tasks, p);
      P.BaseEnds(plan, p);
    }
    assert h == Histogram(plan.v, plan.n);
    forall i: nat, p: nat | i < plan.tasks && p < plan.n
      ensures CountedUpTo(local, i, p) == P.Before(plan, i, p)
    {
      CountedBefore(plan, local, i, p);
    }
  }

  lemma {:induction false} LayOutIs(s: Setup, r: Run)
    requires s.plan.capacity > 0 && P.Tabular(s.plan, r.local)
    ensures var u := LayOut(s, r);
            && u == r.(laid := true, histogram := u.histogram, offsets := u.offsets, machine := u.machine)
            && u.histogram == Totals(s.plan, r.local) && u.offsets == OffsetsOf(u.histogram, s.plan.capacity)
            && |u.machine.values| == Offset(u.histogram, s.plan.capacity, |u.histogram|)
            && u.machine == P.Machine(u.machine.values, Positions(r.local, u.offsets), r.machine.buffers, r.machine.jobs)
  {
    hide Totals, OffsetsOf, Positions, Offset, Allocated;
  }

  lemma {:induction false} LayOutKeepsInv(s: Setup, r: Run, w: nat)
    requires Inv(s, r) && Sized(s, r) && Working(s, r, w, s.plan.tasks)
    ensures Ready(s, r, w, s.plan.tasks)
    ensures Inv(s, Advance(s, r, w, s.plan.tasks)) && Sized(s, Advance(s, r, w, s.plan.tasks))
  {
    hide *;
    var plan, t := s.plan, s.plan.tasks;
    InvMeans(s, r);
    WorkingMeans(s, r, w, t);
    DoneMeans(s, r, t);
    LaidMeans(s, r);
    StartedIs(s);
    LayOutReady(s, r, w);
    AdvanceIs(s, r, w, t);
    LayOutIs(s, r);
    var u := LayOut(s, r);
    SizedIs(s, u);
    LayOutRight(plan, r.local);
    P.StartedInv(plan, u.machine.values, u.machine.position, s.threads);
    forall id: nat | id < 2 * t + 2 && Done(s, r, id)
      ensures Done(s, u, id)
    {
      DoneMeans(s, r, id);
      DoneMeans(s, u, id);
    }
    AllKept(s, r, u);
    SameThreads(s, r, u);
    SameQueue(s, r, u);
    SameCounts(s, r, u);
    NowLaid(s, u);
    MakeInv(s, u);
  }

  lemma StartedIs(s: Setup)
    ensures Started(s) == P.Machine([], [], P.EmptyBuffers(s.threads, s.plan.n), P.Queued(s.plan.tasks))
    ensures |Started(s).buffers| == s.threads
  {
  }

  lemma SizedIs(s: Setup, r: Run)
    ensures Sized(s, r) <==> |r.next| == |r.local| == |r.machine.jobs| == s.plan.tasks
  {
  }

  lemma NowLaid(s: Setup, r: Run)
    requires r.laid && P.Inv(s.plan, r.machine) && LaidRight(s.plan, r.histogram, r.offsets)
    requires |r.machine.buffers| == (if r.cleaned then 0 else s.threads)
    requires r.cleaned ==> P.AllComplete(r.machine)
    ensures LayoutOk(s, r)
  {
    hide P.Inv, LaidRight, P.AllComplete;
  }

  // ----- scattering -----

  // What a step of a scattering task changes, and on which thread it is.
  lemma {:induction false} NextThread(plan: P.Plan, m: P.Machine, i: nat, w: nat)
    requires P.Inv(plan, m) && P.Enabled(plan, m, i, w)
    ensures i < |m.jobs| == |P.Next(plan, m, i, w).jobs|
    ensures var job := P.Next(plan, m, i, w).jobs[i];
            && !m.jobs[i].Complete?
            && (job.Active? ==> if m.jobs[i].Active? then job.thread == m.jobs[i].thread else job.thread == w)
  {
    P.NextJobs(plan, m, i, w);
    hide P.Inv, P.Begin, P.Free, P.Put2, P.Put3, PartitionOf, IsPower;
  }

  lemma {:induction false} ScatterThreads(s: Setup, r: Run, u: Run, w: nat, i: nat, job: P.Job)
    requires Sized(s, r) && Sized(s, u) && ThreadsOk(s, r) && u.queue == r.queue && i < s.plan.tasks
    requires Runs(s, r, w, s.plan.tasks + 1 + i)
    requires i < |r.machine.jobs| && u.machine.jobs == r.machine.jobs[i := job]
    requires job.Active? ==>
               if r.machine.jobs[i].Active? then job.thread == r.machine.jobs[i].thread else job.thread == w
    ensures ThreadsOk(s, u)
  {
    hide Place;
    forall j: nat | j < s.plan.tasks
      ensures OnThread(s, u, j)
    {
      assert OnThread(s, r, j);
    }
  }

  lemma {:induction false} ScatterKeepsInv(s: Setup, r: Run, w: nat, own: nat)
    requires Inv(s, r) && Sized(s, r) && Working(s, r, w, own) && s.plan.tasks < own <= 2 * s.plan.tasks
    ensures Ready(s, r, w, own) && Inv(s, Advance(s, r, w, own)) && Sized(s, Advance(s, r, w, own))
  {
    hide *;
    var t := s.plan.tasks;
    var i := own - t - 1;
    InvMeans(s, r);
    WorkingMeans(s, r, w, own);
    ScatterReady(s, r, w, i);
    AdvanceIs(s, r, w, own);
    ScatterOneIs(s, r, w, i);
    var u := ScatterOne(s, r, w, i);
    var m2 := P.Next(s.plan, r.machine, i, w);
    P.NextKeepsInv(s.plan, r.machine, i, w);
    P.NextJobs(s.plan, r.machine, i, w);
    NextThread(s.plan, r.machine, i, w);
    SizedIs(s, u);
    LaidMeans(s, r);
    forall id: nat | id < 2 * t + 2 && Done(s, r, id)
      ensures Done(s, u, id)
    {
      DoneMeans(s, r, id);
      DoneMeans(s, u, id);
    }
    AllKept(s, r, u);
    ScatterThreads(s, r, u, w, i, m2.jobs[i]);
    SameQueue(s, r, u);
    SameCounts(s, r, u);
    NowLaid(s, u);
    MakeInv(s, u);
  }

  lemma ScatterOneIs(s: Setup, r: Run, w: nat, i: nat)
    requires P.Inv(s.plan, r.machine) && P.Enabled(s.plan, r.machine, i, w)
    ensures ScatterOne(s, r, w, i) == r.(machine := P.Next(s.plan, r.machine, i, w))
  {
    hide P.Inv, P.Enabled, P.Next;
  }

  // ----- the clean-up -----

  lemma {:induction false} DropBuffers(plan: P.Plan, m: P.Machine)
    requires P.Inv(plan, m) && P.AllComplete(m)
    ensures P.Inv(plan, m.(buffers := [])) && P.AllComplete(m.(buffers := []))
  {
    hide P.SoundPlan, P.Total, P.Begin, P.Base, P.Seen, P.Holds, P.Halfway;
    var u := m.(buffers := []);
    forall i: nat, p: nat | i < plan.tasks && p < plan.n
      ensures P.Cell(plan, u, i, p)
    {
      P.CellAt(plan, m, i, p);
    }
  }

  lemma {:induction false} CleanUpKeepsInv(s: Setup, r: Run, w: nat, own: nat)
    requires Inv(s, r) && Sized(s, r) && Working(s, r, w, own) && own == 2 * s.plan.tasks + 1
    ensures Ready(s, r, w, own) && Inv(s, Advance(s, r, w, own)) && Sized(s, Advance(s, r, w, own))
  {
    hide *;
    var t := s.plan.tasks;
    InvMeans(s, r);
    WorkingMeans(s, r, w, 2 * t + 1);
    CleanUpReady(s, r, w);
    AdvanceIs(s, r, w, 2 * t + 1);
    CleanUpIs(r);
    var u := CleanUp(r);
    DropBuffers(s.plan, r.machine);
    SizedIs(s, u);
    LaidMeans(s, r);
    forall id: nat | id < 2 * t + 2 && Done(s, r, id)
      ensures Done(s, u, id)
    {
      DoneMeans(s, r, id);
      DoneMeans(s, u, id);
    }
    AllKept(s, r, u);
    SameThreads(s, r, u);
    SameQueue(s, r, u);
    SameCounts(s, r, u);
    NowLaid(s, u);
    MakeInv(s, u);
  }

  lemma CleanUpIs(r: Run)
    ensures CleanUp(r) == r.(cleaned := true, machine := r.machine.(buffers := []))
  {
  }

  // ----- steps of the queue -----

  // A task that was held and no longer is was running and is done.
  lemma {:induction false} QueueKeeps(s: Setup, r: Run, w: nat, id: nat)
    requires Inv(s, r) && Sized(s, r) && w < |r.queue.workers| && !Busy(s, r, w) && id < 2 * s.plan.tasks + 2
    ensures Kept(s, r.(queue := Q.Step(r.queue, w)), id)
  {
    hide *;
    var q, u := r.queue, r.(queue := Q.Step(r.queue, w));
    var p := Place(s.plan.tasks, s.threads, id);
    InvMeans(s, r);
    SizedIs(s, r);
    SizedIs(s, u);
    KeptIs(s, r, id);
    KeptIs(s, u, id);
    DoneMeans(s, r, id);
    DoneMeans(s, u, id);
    TaskStands(s.plan.tasks, s.threads, id);
    if q.workers[w] == Q.Running(p) {
      RunsIs(s, r, w, id);
      BusyIs(s, r, w);
    } else {
      StillHeld(q, w, p);
    }
  }

  lemma KeptIs(s: Setup, r: Run, id: nat)
    requires Sized(s, r) && id < 2 * s.plan.tasks + 2
    ensures Kept(s, r, id) <==>
              (var p := Place(s.plan.tasks, s.threads, id);
               p < Q.Taken(r.queue) && !Q.HeldBySome(r.queue.workers, p) ==> Done(s, r, id))
    ensures NothingSkipped(s, r) ==> Kept(s, r, id)
  {
    hide Place, Q.Taken, Q.HeldBySome, Done;
  }

  lemma RunsIs(s: Setup, r: Run, w: nat, id: nat)
    ensures Runs(s, r, w, id) <==>
              && w < |r.queue.workers| && id < 2 * s.plan.tasks + 2
              && r.queue.workers[w] == Q.Running(Place(s.plan.tasks, s.threads, id))
  {
    hide Place;
  }

  // Only a running task can be let go, and an entry that is taken is held.
  lemma {:induction false} StillHeld(q: Q.State, w: nat, p: nat)
    requires w < |q.workers| && p < |q.tasks| && q.tasks[p].Task? && Q.Inv(q)
    requires q.workers[w] != Q.Running(p)
    ensures Q.HeldBySome(q.workers, p) ==> Q.HeldBySome(Q.Step(q, w).workers, p)
    ensures p < Q.Taken(Q.Step(q, w)) && p >= Q.Taken(q) ==> Q.HeldBySome(Q.Step(q, w).workers, p)
  {
    var ws := Q.Step(q, w).workers;
    Q.WorkerIs(q, w);
    hide Q.Inv, Q.Barriers, Q.GroupStart;
    if j: nat :| j < |q.workers| && Q.Holds(q.workers[j], p) {
      assert Q.Holds(ws[j], p);
    }
    if p < Q.Taken(Q.Step(q, w)) && p >= Q.Taken(q) {
      assert Q.Holds(ws[w], p);
    }
  }

  lemma {:induction false} QueueThreads(s: Setup, r: Run, w: nat)
    requires Inv(s, r) && Sized(s, r) && w < |r.queue.workers| && !Busy(s, r, w)
    ensures Sized(s, r.(queue := Q.Step(r.queue, w))) && ThreadsOk(s, r.(queue := Q.Step(r.queue, w)))
  {
    hide *;
    var u, t := r.(queue := Q.Step(r.queue, w)), s.plan.tasks;
    InvMeans(s, r);
    SizedIs(s, u);
    BusyIs(s, r, w);
    forall i: nat | i < t
      ensures OnThread(s, u, i)
    {
      OnThreadMeans(s, r, i);
      DoneMeans(s, r, t + 1 + i);
      if r.machine.jobs[i].Active? {
        RunsIs(s, r, r.machine.jobs[i].thread, t + 1 + i);
        OtherWorker(r.queue, w, r.machine.jobs[i].thread);
      }
      OnThreadIs(s, u, i);
    }
    MakeThreadsOk(s, u);
  }

  lemma OtherWorker(q: Q.State, w: nat, j: nat)
    requires w < |q.workers| && j < |q.workers|
    ensures |Q.Step(q, w).workers| == |q.workers|
    ensures j != w ==> Q.Step(q, w).workers[j] == q.workers[j]
  {
  }

  lemma OnThreadIs(s: Setup, r: Run, i: nat)
    requires Sized(s, r) && i < s.plan.tasks
    ensures i < |r.machine.jobs|
    ensures OnThread(s, r, i) <==>
              (r.machine.jobs[i].Active? ==>
                 && r.machine.jobs[i].thread < |r.queue.workers|
                 && r.queue.workers[r.machine.jobs[i].thread]
                    == Q.Running(Place(s.plan.tasks, s.threads, s.plan.tasks + 1 + i)))
  {
    hide Place;
  }

  lemma MakeThreadsOk(s: Setup, r: Run)
    requires Sized(s, r) && forall i: nat | i < s.plan.tasks :: OnThread(s, r, i)
    ensures ThreadsOk(s, r)
  {
    hide OnThread;
  }

  lemma {:induction false} QueueKeepsInv(s: Setup, r: Run, w: nat)
    requires Inv(s, r) && Sized(s, r) && w < |r.queue.workers| && !Busy(s, r, w)
    ensures Inv(s, r.(queue := Q.Step(r.queue, w)))
  {
    hide *;
    var u := r.(queue := Q.Step(r.queue, w));
    InvMeans(s, r);
    Q.StepKeepsInv(r.queue, w);
    QueueThreads(s, r, w);
    SameLayout(s, r, u);
    SameCounts(s, r, u);
    forall id: nat | id < 2 * s.plan.tasks + 2
      ensures Kept(s, u, id)
    {
      QueueKeeps(s, r, w, id);
    }
    MakeQueueOk(s, u);
    MakeNothingSkipped(s, u);
    MakeInv(s, u);
  }

  lemma MakeQueueOk(s: Setup, r: Run)
    requires Q.Inv(r.queue) && r.queue.tasks == Entries(s.plan.tasks, s.threads) && |r.queue.workers| == s.threads
    ensures QueueOk(s, r)
  {
    hide Q.Inv;
  }

  lemma MakeNothingSkipped(s: Setup, r: Run)
    requires Sized(s, r) && forall id: nat | id < 2 * s.plan.tasks + 2 :: Kept(s, r, id)
    ensures NothingSkipped(s, r)
  {
    hide Kept;
  }

  // Every step of every worker keeps the invariant, in any order.
  lemma {:induction false} StepKeepsInv(s: Setup, r: Run, w: nat)
    requires Inv(s, r) && Sized(s, r) && w < |r.queue.workers|
    ensures Inv(s, Step(s, r, w)) && Sized(s, Step(s, r, w))
  {
    hide *;
    StepIs(s, r, w);
    InvMeans(s, r);
    if Busy(s, r, w) {
      var id, t := Own(r, w), s.plan.tasks;
      WorkingMeans(s, r, w, id);
      if id < t {
        CountKeepsInv(s, r, w, id);
      } else if id == t {
        LayOutKeepsInv(s, r, w);
      } else if id <= 2 * t {
        ScatterKeepsInv(s, r, w, id);
      } else {
        CleanUpKeepsInv(s, r, w, id);
      }
    } else {
      QueueKeepsInv(s, r, w);
      InvMeans(s, r.(queue := Q.Step(r.queue, w)));
    }
  }

  lemma StepIs(s: Setup, r: Run, w: nat)
    requires Inv(s, r) && Sized(s, r) && w < |r.queue.workers|
    ensures !Busy(s, r, w) ==> Step(s, r, w) == r.(queue := Q.Step(r.queue, w))
    ensures Busy(s, r, w) ==>
              && r.queue.workers[w].Running? && r.queue.workers[w].p < |r.queue.tasks|
              && r.queue.tasks[r.queue.workers[w].p].Task?
              && Working(s, r, w, Own(r, w)) && Ready(s, r, w, Own(r, w))
              && Step(s, r, w) == Advance(s, r, w, Own(r, w))
  {
    BusyIs(s, r, w);
    OwnReady(s, r, w);
    hide Inv, Busy, Advance, Q.Step, Working, Ready;
  }

  // ----- the end of a run -----

  lemma {:induction false} FinishedTookAll(q: Q.State, p: nat)
    requires Q.Inv(q) && Q.AllFinished(q) && p < |q.tasks|
    ensures p < Q.Taken(q) && !Q.HeldBySome(q.workers, p)
  {
    Q.CountAll(q.workers, Q.AtEnd);
    hide Q.Count, Q.Barriers, Q.GroupStart, Q.AllOk, Q.Apart, Q.Grouped;
  }

  // When every worker has come to an end, every task is done.
  lemma {:induction false} FinishedDone(s: Setup, r: Run, id: nat)
    requires Inv(s, r) && Sized(s, r) && Q.AllFinished(r.queue) && id < 2 * s.plan.tasks + 2
    ensures Done(s, r, id)
  {
    hide *;
    InvMeans(s, r);
    TaskStands(s.plan.tasks, s.threads, id);
    FinishedTookAll(r.queue, Place(s.plan.tasks, s.threads, id));
    KeptIs(s, r, id);
  }

  // Whatever the interleaving, a run that has come to an end has partitioned the input.
  lemma {:induction false} FinishedIsPartitioned(s: Setup, r: Run)
    requires Inv(s, r) && Q.AllFinished(r.queue)
    ensures s.plan.capacity > 0
    ensures Partitioned(s.plan.v, s.plan.n, s.plan.capacity, r.histogram, r.offsets, r.machine.values)
  {
    hide *;
    var t := s.plan.tasks;
    InvMeans(s, r);
    SizedIs(s, r);
    FinishedDone(s, r, t);
    DoneMeans(s, r, t);
    LaidMeans(s, r);
    forall i: nat | i < t
      ensures r.machine.jobs[i].Complete?
    {
      FinishedDone(s, r, t + 1 + i);
      DoneMeans(s, r, t + 1 + i);
    }
    AllAreComplete(r.machine);
    LaidRightMeans(s.plan, r.histogram, r.offsets);
    P.ResultIsPartitioned(s.plan, r.machine, r.histogram, r.offsets);
  }

  lemma LaidRightMeans(plan: P.Plan, histogram: seq<nat>, offsets: seq<nat>)
    requires LaidRight(plan, histogram, offsets)
    ensures plan.capacity > 0 && histogram == Histogram(plan.v, plan.n) && |offsets| == plan.n
    ensures forall p: nat | p < plan.n :: offsets[p] == Offset(histogram, plan.capacity, p)
  {
    hide Offset, Histogram;
  }

  // ----- every run comes to an end -----

  // No deadlock: while a worker has not come to an end, some worker can go on.
  lemma {:induction false} SomeoneCanGoOn(s: Setup, r: Run)
    requires Inv(s, r) && !Q.AllFinished(r.queue)
    ensures exists w: nat | w < |r.queue.workers| :: Q.Enabled(r.queue, w)
  {
    hide *;
    InvMeans(s, r);
    Q.SomeoneCanGoOn(r.queue);
  }

  // Steps that the counting tasks still have to take.
  function CountsLeft(plan: P.Plan, next: seq<nat>, local: seq<seq<nat>>, i: nat): int
    requires i <= plan.tasks && |next| == |local| == plan.tasks
  {
    if i == 0 then 0
    else CountsLeft(plan, next, local, i - 1) + CountLeft(plan, i - 1, next[i - 1], local[i - 1])
  }

  function CountLeft(plan: P.Plan, i: nat, next: nat, local: seq<nat>): int
    requires i < plan.tasks
  {
    P.Begin(plan, i + 1) - next + if local == [] then 1 else 0
  }

  lemma {:induction false} CountsLeftUpdate(plan: P.Plan, next: seq<nat>, local: seq<seq<nat>>,
                                            next2: seq<nat>, local2: seq<seq<nat>>, i: nat, m: nat)
    requires i < plan.tasks && m <= plan.tasks
    requires |next| == |local| == plan.tasks && |next2| == |local2| == plan.tasks
    requires forall j: nat | j < plan.tasks && j != i :: next2[j] == next[j] && local2[j] == local[j]
    ensures CountsLeft(plan, next2, local2, m) - CountsLeft(plan, next, local, m)
            == if i < m then CountLeft(plan, i, next2[i], local2[i]) - CountLeft(plan, i, next[i], local[i]) else 0
  {
    hide CountLeft;
    if m > 0 {
      CountsLeftUpdate(plan, next, local, next2, local2, i, m - 1);
    }
  }

  // Steps that the tasks on the queue still have to take.
  function TasksLeft(s: Setup, r: Run): int
    requires Sized(s, r)
  {
    CountsLeft(s.plan, r.next, r.local, s.plan.tasks) + (if r.laid then 0 else 1)
    + P.Work(s.plan, r.machine.jobs) + (if r.cleaned then 0 else 1)
  }

  lemma {:induction false} CountsLeftBound(s: Setup, r: Run, i: nat)
    requires Sized(s, r) && CountsOk(s, r) && i <= s.plan.tasks && |r.next| == |r.local| == s.plan.tasks
    ensures CountsLeft(s.plan, r.next, r.local, i) >= 0
  {
    hide CountsOk, P.Begin, PieceOk, Sized;
    if i > 0 {
      CountsLeftBound(s, r, i - 1);
      PieceAt(s, r, i - 1);
      PieceMeans(s.plan, i - 1, r.next[i - 1], r.local[i - 1]);
    }
  }

  lemma {:induction false} TasksLeftBound(s: Setup, r: Run)
    requires Inv(s, r) && Sized(s, r)
    ensures TasksLeft(s, r) >= 0
  {
    InvMeans(s, r);
    LaidMeans(s, r);
    hide Inv, CountsOk, LayoutOk, ThreadsOk, NothingSkipped, QueueOk, P.Inv, P.Work, CountsLeft;
    CountsLeftBound(s, r, s.plan.tasks);
    if r.laid {
      P.InvWorkBound(s.plan, r.machine);
    } else {
      QueuedBound(s.plan);
    }
  }

  lemma {:induction false} QueuedBound(plan: P.Plan)
    ensures P.Work(plan, P.Queued(plan.tasks)) >= 0
  {
    hide P.Work, P.Begin, P.Queued;
    forall i: nat | i < plan.tasks
      ensures P.StepsLeft(plan, P.Queued(plan.tasks)[i], i) >= 0
    {
      P.BeginMono(plan, i, i + 1);
    }
    P.WorkBound(plan, P.Queued(plan.tasks));
  }

  lemma TasksLeftIs(s: Setup, r: Run)
    requires Sized(s, r)
    ensures |r.next| == |r.local| == s.plan.tasks == |r.machine.jobs|
    ensures TasksLeft(s, r)
            == CountsLeft(s.plan, r.next, r.local, s.plan.tasks) + (if r.laid then 0 else 1)
               + P.Work(s.plan, r.machine.jobs) + (if r.cleaned then 0 else 1)
  {
    hide CountsLeft, P.Work;
  }

  lemma {:induction false} AdvanceMakesProgress(s: Setup, r: Run, w: nat, id: nat)
    requires Inv(s, r) && Sized(s, r) && Working(s, r, w, id)
    ensures Ready(s, r, w, id)
    ensures var u := Advance(s, r, w, id);
            Sized(s, u) && u.queue == r.queue && TasksLeft(s, u) < TasksLeft(s, r)
  {
    hide *;
    var t := s.plan.tasks;
    InvMeans(s, r);
    WorkingMeans(s, r, w, id);
    AdvanceIs(s, r, w, id);
    TasksLeftIs(s, r);
    DoneMeans(s, r, id);
    if id < t {
      CountReady(s, r, w, id);
      CountOneIs(s, r, id);
      var u := CountOne(s, r, id);
      TasksLeftIs(s, u);
      PartitionIsRemainder(0, s.plan.n);
      CountsLeftUpdate(s.plan, r.next, r.local, u.next, u.local, id, t);
      CountOneLeft(s, r, id);
    } else if id == t {
      LayOutIs(s, r);
      SizedIs(s, LayOut(s, r));
      TasksLeftIs(s, LayOut(s, r));
    } else if id <= 2 * t {
      var i := id - t - 1;
      ScatterReady(s, r, w, i);
      ScatterOneIs(s, r, w, i);
      P.NextMakesProgress(s.plan, r.machine, i, w);
      SizedIs(s, ScatterOne(s, r, w, i));
      TasksLeftIs(s, ScatterOne(s, r, w, i));
    } else {
      CleanUpIs(r);
      SizedIs(s, CleanUp(r));
      TasksLeftIs(s, CleanUp(r));
    }
  }

  lemma {:induction false} CountOneLeft(s: Setup, r: Run, i: nat)
    requires Sized(s, r) && i < s.plan.tasks && IsPower(s.plan.n) && s.plan.n > 0
    requires r.local[i] != [] ==> r.next[i] < |s.plan.v| && |r.local[i]| == s.plan.n
    ensures var u := CountOne(s, r, i);
            && Sized(s, u) && i < |u.next| == |u.local|
            && CountLeft(s.plan, i, u.next[i], u.local[i]) < CountLeft(s.plan, i, r.next[i], r.local[i])
  {
    hide IsPower, PartitionOf, P.Begin;
    var u := CountOne(s, r, i);
    if r.local[i] == [] {
      assert |u.local[i]| == s.plan.n;
    } else {
      var p := PartitionOf(s.plan.v[r.next[i]], s.plan.n);
      PartitionInRange(s.plan.v[r.next[i]], s.plan.n);
      P.Put2Is(r.local, i, p, r.local[i][p] + 1);
    }
  }

  // Every step of a worker that can go on leaves less to do: of its task, or of
  // the queue.
  lemma {:induction false} StepMakesProgress(s: Setup, r: Run, w: nat)
    requires Inv(s, r) && Sized(s, r) && w < |r.queue.workers| && Q.Enabled(r.queue, w)
    ensures var u := Step(s, r, w);
            && Sized(s, u)
            && if u.queue == r.queue then TasksLeft(s, u) < TasksLeft(s, r)
               else Q.Remaining(u.queue) < Q.Remaining(r.queue)
  {
    hide *;
    InvMeans(s, r);
    StepIs(s, r, w);
    if Busy(s, r, w) {
      AdvanceMakesProgress(s, r, w, Own(r, w));
    } else {
      Q.StepMakesProgress(r.queue, w);
      SizedIs(s, r.(queue := Q.Step(r.queue, w)));
      SizedIs(s, r);
    }
  }

  // Runs the queue under any schedule at all until every worker has come to an end.
  method Execute(s: Setup) returns (r: Run)
    requires SoundSetup(s)
    ensures Q.AllFinished(r.queue) && s.plan.capacity > 0
    ensures Partitioned(s.plan.v, s.plan.n, s.plan.capacity, r.histogram, r.offsets, r.machine.values)
  {
    hide *;
    r := Start(s);
    StartInv(s);
    InvMeans(s, r);
    Q.RemainingBound(r.queue);
    TasksLeftBound(s, r);
    while !(forall w: nat | w < |r.queue.workers| :: r.queue.workers[w].Finished?)
      invariant Inv(s, r) && Sized(s, r) && Q.Remaining(r.queue) >= 0 && TasksLeft(s, r) >= 0
      decreases Q.Remaining(r.queue), TasksLeft(s, r)
    {
      Unfinished(r.queue);
      SomeoneCanGoOn(s, r);
      var w: nat :| w < |r.queue.workers| && Q.Enabled(r.queue, w);
      StepMakesProgress(s, r, w);
      StepKeepsInv(s, r, w);
      r := Step(s, r, w);
      InvMeans(s, r);
      Q.RemainingBound(r.queue);
      TasksLeftBound(s, r);
    }
    Unfinished(r.queue);
    FinishedIsPartitioned(s, r);
  }

  lemma Unfinished(q: Q.State)
    ensures Q.AllFinished(q) <==> forall w: nat | w < |q.workers| :: q.workers[w].Finished?
  {
  }
}

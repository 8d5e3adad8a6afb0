/** Task-parallel partitioning, level by level. The input is cut into one piece per
    task. A counting task fills its own histogram, the layout task gives every task
    its own range of every partition, and the scattering tasks run on any worker
    threads, interleaved in any way, each thread with one write buffer per
    partition. The result is that of the sequential form. PartitionRun puts the
    levels on the task queue. */
module ParallelPartition {
  import opened Arith
  import opened Partition
  import opened SequentialPartition

  datatype Plan = Plan(v: seq<nat>, n: nat, capacity: nat, tasks: nat)

  ghost predicate SoundPlan(plan: Plan) {
    IsPower(plan.n) && plan.capacity > 0 && plan.tasks > 0
  }

  // ----- cutting the input -----

  // Where the piece of task i begins: each task takes its share of what is left.
  function Begin(plan: Plan, i: nat): (b: nat)
    requires i <= plan.tasks
    ensures b <= |plan.v|
  {
    if i == 0 then 0
    else
      var b := Begin(plan, i - 1);
      DivNonNeg(|plan.v| - b, plan.tasks - (i - 1));
      b + (|plan.v| - b) / (plan.tasks - (i - 1))
  }

  lemma {:induction false} BeginMono(plan: Plan, i: nat, j: nat)
    requires i <= j <= plan.tasks
    ensures Begin(plan, i) <= Begin(plan, j)
  {
    if i < j {
      BeginMono(plan, i, j - 1);
      DivNonNeg(|plan.v| - Begin(plan, j - 1), plan.tasks - (j - 1));
    }
  }

  // The pieces cover the whole input.
  lemma {:induction false} PiecesCover(plan: Plan)
    requires plan.tasks > 0
    ensures Begin(plan, 0) == 0 && Begin(plan, plan.tasks) == |plan.v|
  {
    var b := Begin(plan, plan.tasks - 1);
    DivModUnique(|plan.v| - b, 1, |plan.v| - b, 0);
  }

  // ----- the range of a task in a partition -----

  function Before(plan: Plan, i: nat, p: nat): nat
    requires i <= plan.tasks
  {
    |Chosen(plan.v[..Begin(plan, i)], plan.n, p)|
  }

  function Base(plan: Plan, i: nat, p: nat): nat
    requires i <= plan.tasks && plan.capacity > 0 && p < plan.n
  {
    Offset(Histogram(plan.v, plan.n), plan.capacity, p) + Before(plan, i, p)
  }

  function Total(plan: Plan): nat
    requires plan.capacity > 0
  {
    Offset(Histogram(plan.v, plan.n), plan.capacity, plan.n)
  }

  // What task i has seen of partition p when its next element is at next.
  function Seen(plan: Plan, i: nat, next: nat, p: nat): seq<nat>
    requires i <= plan.tasks && Begin(plan, i) <= next <= |plan.v|
  {
    Chosen(plan.v[Begin(plan, i)..next], plan.n, p)
  }

  lemma {:induction false} SeenStep(plan: Plan, i: nat, next: nat, p: nat)
    requires i <= plan.tasks && Begin(plan, i) <= next < |plan.v|
    ensures Seen(plan, i, next + 1, p)
            == Seen(plan, i, next, p) + if PartitionOf(plan.v[next], plan.n) == p then [plan.v[next]] else []
  {
    var b := Begin(plan, i);
    ChosenStep(plan.v[b..], next - b, plan.n, p);
    assert plan.v[b..][..next - b] == plan.v[b..next];
    assert plan.v[b..][..next - b + 1] == plan.v[b..next + 1];
    hide Begin, Chosen, PartitionOf;
  }

  lemma {:induction false} SeenNone(plan: Plan, i: nat, p: nat)
    requires i <= plan.tasks
    ensures Seen(plan, i, Begin(plan, i), p) == []
  {
    hide Begin;
  }

  // The whole piece fills exactly the range up to that of the next task.
  lemma {:induction false} SeenAll(plan: Plan, i: nat, p: nat)
    requires i < plan.tasks && plan.capacity > 0 && p < plan.n
    ensures Begin(plan, i) <= Begin(plan, i + 1)
    ensures Base(plan, i + 1, p) == Base(plan, i, p) + |Seen(plan, i, Begin(plan, i + 1), p)|
    ensures Chosen(plan.v[..Begin(plan, i + 1)], plan.n, p)
            == Chosen(plan.v[..Begin(plan, i)], plan.n, p) + Seen(plan, i, Begin(plan, i + 1), p)
  {
    BeginMono(plan, i, i + 1);
    var b, e := Begin(plan, i), Begin(plan, i + 1);
    assert plan.v[..e] == plan.v[..b] + plan.v[b..e];
    ChosenAppend(plan.v[..b], plan.v[b..e], plan.n, p);
    hide Begin, Chosen, Offset;
  }

  lemma {:induction false} SeenWithin(plan: Plan, i: nat, next: nat, p: nat)
    requires i < plan.tasks && plan.capacity > 0 && p < plan.n
    requires Begin(plan, i) <= next <= Begin(plan, i + 1)
    ensures Base(plan, i, p) + |Seen(plan, i, next, p)| <= Base(plan, i + 1, p)
  {
    hide Begin, Chosen, Base, Before, Offset;
    SeenAll(plan, i, p);
    var b, e := Begin(plan, i), Begin(plan, i + 1);
    var w := plan.v[b..e];
    assert w[..next - b] == plan.v[b..next];
    assert w[..e - b] == w;
    ChosenMono(w, next - b, e - b, plan.n, p);
  }

  // Ranges of different tasks or partitions do not overlap, and all are inside
  // the values.
  lemma {:induction false} RangesApart(plan: Plan, i: nat, p: nat, j: nat, q: nat)
    requires SoundPlan(plan) && i < plan.tasks && j < plan.tasks && p < plan.n && q < plan.n
    ensures Base(plan, i, p) <= Base(plan, i + 1, p) <= Total(plan)
    ensures (i, p) != (j, q) ==>
              Base(plan, i + 1, p) <= Base(plan, j, q) || Base(plan, j + 1, q) <= Base(plan, i, p)
  {
    hide *;
    SoundPlanMeans(plan);
    var h := Histogram(plan.v, plan.n);
    Regions(h, plan.capacity, p, q);
    BaseBounds(plan, i, p);
    BaseBounds(plan, j, q);
    PaddedHolds(h[p], plan.capacity, 0);
    PaddedHolds(h[q], plan.capacity, 0);
    BaseIs(plan, i, p);
    BaseIs(plan, i + 1, p);
    BaseIs(plan, j, q);
    BaseIs(plan, j + 1, q);
    if i < j {
      BeforeMono(plan, i + 1, j, p);
    } else if j < i {
      BeforeMono(plan, j + 1, i, p);
    }
  }

  lemma BaseIs(plan: Plan, i: nat, p: nat)
    requires i <= plan.tasks && plan.capacity > 0 && p < plan.n
    ensures Base(plan, i, p) == Offset(Histogram(plan.v, plan.n), plan.capacity, p) + Before(plan, i, p)
    ensures Total(plan) == Offset(Histogram(plan.v, plan.n), plan.capacity, |Histogram(plan.v, plan.n)|)
  {
    hide Offset, Before, Histogram;
  }

  lemma SoundPlanMeans(plan: Plan)
    requires SoundPlan(plan)
    ensures IsPower(plan.n) && plan.capacity > 0 && plan.tasks > 0
  {
    hide IsPower;
  }

  lemma {:induction false} BeforeMono(plan: Plan, i: nat, j: nat, p: nat)
    requires i <= j <= plan.tasks
    ensures Before(plan, i, p) <= Before(plan, j, p)
  {
    BeginMono(plan, i, j);
    ChosenMono(plan.v, Begin(plan, i), Begin(plan, j), plan.n, p);
    hide Begin, Chosen;
  }

  lemma {:induction false} BaseBounds(plan: Plan, i: nat, p: nat)
    requires plan.capacity > 0 && i < plan.tasks && p < plan.n
    ensures Before(plan, i, p) <= Before(plan, i + 1, p) <= Histogram(plan.v, plan.n)[p]
  {
    BeforeMono(plan, i, i + 1, p);
    BeforeMono(plan, i + 1, plan.tasks, p);
    PiecesCover(plan);
    assert plan.v[..|plan.v|] == plan.v;
    hide Begin, Chosen;
  }

  // ----- the machine of the scattering level -----

  // A task on the queue, on a thread (with its next element and the partitions
  // it has flushed), or done.
  datatype Job = Pending | Active(thread: nat, next: nat, flushed: nat) | Complete

  // position[i][p] is where task i stores next in partition p; buffers[t][p]
  // is the used part of the write buffer of thread t.
  datatype Machine = Machine(values: seq<nat>, position: seq<seq<nat>>, buffers: seq<seq<seq<nat>>>, jobs: seq<Job>)

  function Put2(a: seq<seq<nat>>, i: nat, p: nat, x: nat): seq<seq<nat>>
    requires i < |a| && p < |a[i]|
  {
    var row: seq<nat> := a[i][p := x];
    a[i := row]
  }

  function Put3(a: seq<seq<seq<nat>>>, t: nat, p: nat, x: seq<nat>): (r: seq<seq<seq<nat>>>)
    requires t < |a| && p < |a[t]|
    ensures |r| == |a|
  {
    var row: seq<seq<nat>> := a[t][p := x];
    a[t := row]
  }

  ghost predicate Shaped(plan: Plan, m: Machine) {
    && plan.capacity > 0
    && |m.values| == Total(plan)
    && |m.position| == plan.tasks == |m.jobs|
    && (forall i | 0 <= i < plan.tasks :: |m.position[i]| == plan.n)
    && (forall t | 0 <= t < |m.buffers| :: |m.buffers[t]| == plan.n)
  }

  // How far task i has got with partition p.
  ghost predicate Cell(plan: Plan, m: Machine, i: nat, p: nat)
    requires Shaped(plan, m) && i < plan.tasks && p < plan.n
  {
    var base := Base(plan, i, p);
    match m.jobs[i]
    case Pending => m.position[i][p] == base
    case Active(t, next, flushed) =>
      && t < |m.buffers| && Begin(plan, i) <= next <= Begin(plan, i + 1)
      && flushed <= plan.n && (flushed > 0 ==> next == Begin(plan, i + 1))
      && (if p < flushed then m.buffers[t][p] == [] && Holds(m.values, base, Seen(plan, i, next, p))
          else Halfway(m.values, base, m.position[i][p], m.buffers[t][p], plan.capacity, Seen(plan, i, next, p)))
    case Complete => BeginMono(plan, i, i + 1); Holds(m.values, base, Seen(plan, i, Begin(plan, i + 1), p))
  }

  ghost predicate Holds(values: seq<nat>, base: nat, q: seq<nat>) {
    base + |q| <= |values| && values[base..base + |q|] == q
  }

  ghost predicate Halfway(values: seq<nat>, base: nat, at: nat, buffer: seq<nat>, capacity: nat, q: seq<nat>) {
    base <= at <= |values| && |buffer| < capacity && values[base..at] + buffer == q
  }

  // Threads run one task at a time, and free threads have empty buffers.
  ghost predicate ThreadsOk(plan: Plan, m: Machine)
    requires Shaped(plan, m)
  {
    && (forall i, j | 0 <= i < j < plan.tasks && m.jobs[i].Active? && m.jobs[j].Active? ::
          m.jobs[i].thread != m.jobs[j].thread)
    && (forall t: nat, p: nat | t < |m.buffers| && p < plan.n && Free(m, t) :: m.buffers[t][p] == [])
  }

  predicate Free(m: Machine, t: nat) {
    forall i | 0 <= i < |m.jobs| :: !(m.jobs[i].Active? && m.jobs[i].thread == t)
  }

  ghost predicate Inv(plan: Plan, m: Machine) {
    && SoundPlan(plan) && Shaped(plan, m) && ThreadsOk(plan, m)
    && forall i: nat, p: nat | i < plan.tasks && p < plan.n :: Cell(plan, m, i, p)
  }

  // ----- steps -----

  // A worker thread takes task i.
  function Assign(plan: Plan, m: Machine, i: nat, t: nat): Machine
    requires i < |m.jobs| && i <= plan.tasks
  {
    m.(jobs := m.jobs[i := Active(t, Begin(plan, i), 0)])
  }

  // The task puts its next element into the buffer of its partition.
  function Feed(plan: Plan, m: Machine, i: nat): Machine
    requires IsPower(plan.n) && i < |m.jobs| && m.jobs[i].Active? && m.jobs[i].next < |plan.v|
    requires m.jobs[i].thread < |m.buffers| && |m.buffers[m.jobs[i].thread]| == plan.n
    requires i < |m.position| && |m.position[i]| == plan.n
    requires var p := PartitionOf(plan.v[m.jobs[i].next], plan.n);
             p < plan.n ==> m.position[i][p] + |m.buffers[m.jobs[i].thread][p]| + 1 <= |m.values|
  {
    var t, next := m.jobs[i].thread, m.jobs[i].next;
    PartitionInRange(plan.v[next], plan.n);
    var p := PartitionOf(plan.v[next], plan.n);
    var b := m.buffers[t][p] + [plan.v[next]];
    var jobs := m.jobs[i := Active(t, next + 1, m.jobs[i].flushed)];
    if |b| == plan.capacity then
      Machine(AfterStore(m.values, m.position[i][p], b), Put2(m.position, i, p, m.position[i][p] + plan.capacity),
              Put3(m.buffers, t, p, []), jobs)
    else
      Machine(m.values, m.position, Put3(m.buffers, t, p, b), jobs)
  }

  // The task stores what is left in the next buffer.
  function Flush(plan: Plan, m: Machine, i: nat): Machine
    requires i < |m.jobs| && m.jobs[i].Active? && m.jobs[i].flushed < plan.n
    requires m.jobs[i].thread < |m.buffers| && |m.buffers[m.jobs[i].thread]| == plan.n
    requires i < |m.position| && |m.position[i]| == plan.n
    requires m.position[i][m.jobs[i].flushed] + |m.buffers[m.jobs[i].thread][m.jobs[i].flushed]| <= |m.values|
  {
    var t, p := m.jobs[i].thread, m.jobs[i].flushed;
    Machine(AfterStore(m.values, m.position[i][p], m.buffers[t][p]), m.position, Put3(m.buffers, t, p, []),
            m.jobs[i := Active(t, m.jobs[i].next, p + 1)])
  }

  function Finish(m: Machine, i: nat): Machine
    requires i < |m.jobs|
  {
    m.(jobs := m.jobs[i := Complete])
  }

  // ----- every step keeps the invariant -----

  lemma {:induction false} SliceKept(values: seq<nat>, at: nat, b: seq<nat>, lo: nat, hi: nat)
    requires at + |b| <= |values| && lo <= hi <= |values| && (hi <= at || at + |b| <= lo)
    ensures AfterStore(values, at, b)[lo..hi] == values[lo..hi]
  {
  }

  lemma {:induction false} HoldsKept(values: seq<nat>, after: seq<nat>, lo: nat, hi: nat, q: seq<nat>)
    requires lo <= hi <= |values| == |after| && after[lo..hi] == values[lo..hi] && lo + |q| <= hi
    ensures Holds(values, lo, q) ==> Holds(after, lo, q)
  {
    assert values[lo..hi][..|q|] == values[lo..lo + |q|];
    assert after[lo..hi][..|q|] == after[lo..lo + |q|];
  }

  lemma {:induction false} HalfwayKept(values: seq<nat>, after: seq<nat>, lo: nat, hi: nat, at: nat, b: seq<nat>,
                                       capacity: nat, q: seq<nat>)
    requires lo <= hi <= |values| == |after| && after[lo..hi] == values[lo..hi] && lo + |q| <= hi
    ensures Halfway(values, lo, at, b, capacity, q) ==> Halfway(after, lo, at, b, capacity, q)
  {
    if Halfway(values, lo, at, b, capacity, q) {
      assert |values[lo..at] + b| == |q|;
      assert values[lo..hi][..at - lo] == values[lo..at];
      assert after[lo..hi][..at - lo] == after[lo..at];
    }
  }

  lemma {:induction false} CellAt(plan: Plan, m: Machine, i: nat, p: nat)
    requires Inv(plan, m) && i < plan.tasks && p < plan.n
    ensures SoundPlan(plan) && Shaped(plan, m) && Cell(plan, m, i, p)
  {
    hide SoundPlan, Shaped, ThreadsOk, Cell;
  }

  // What a cell says depends only on its own range, position, buffer and job.
  lemma {:induction false} CellFrame(plan: Plan, m: Machine, u: Machine, i: nat, p: nat)
    requires SoundPlan(plan) && Shaped(plan, m) && Shaped(plan, u) && i < plan.tasks && p < plan.n
    requires Cell(plan, m, i, p)
    requires u.jobs[i] == m.jobs[i] && u.position[i][p] == m.position[i][p] && |u.buffers| == |m.buffers|
    requires m.jobs[i].Active? && m.jobs[i].thread < |m.buffers| ==>
               u.buffers[m.jobs[i].thread][p] == m.buffers[m.jobs[i].thread][p]
    requires Base(plan, i, p) <= Base(plan, i + 1, p) <= |m.values| == |u.values|
    requires u.values[Base(plan, i, p)..Base(plan, i + 1, p)] == m.values[Base(plan, i, p)..Base(plan, i + 1, p)]
    ensures Cell(plan, u, i, p)
  {
    hide Base, Begin, Seen, Holds, Halfway, SoundPlan, Total;
    var lo, hi := Base(plan, i, p), Base(plan, i + 1, p);
    match m.jobs[i]
    case Pending =>
    case Active(t, next, flushed) =>
      SeenWithin(plan, i, next, p);
      HoldsKept(m.values, u.values, lo, hi, Seen(plan, i, next, p));
      HalfwayKept(m.values, u.values, lo, hi, m.position[i][p], m.buffers[t][p], plan.capacity, Seen(plan, i, next, p));
    case Complete =>
      SeenAll(plan, i, p);
      HoldsKept(m.values, u.values, lo, hi, Seen(plan, i, Begin(plan, i + 1), p));
  }

  // Everything that a step of task i on thread t leaves alone.
  ghost predicate Elsewhere(plan: Plan, m: Machine, u: Machine, i: nat, t: nat) {
    && Shaped(plan, m) && Shaped(plan, u) && |m.buffers| == |u.buffers| && i < plan.tasks
    && (forall j | 0 <= j < plan.tasks && j != i :: u.jobs[j] == m.jobs[j] && u.position[j] == m.position[j])
    && (forall x | 0 <= x < |m.buffers| && x != t :: u.buffers[x] == m.buffers[x])
  }

  // A store for partition p of task i changes no other range.
  ghost predicate StoredWithin(plan: Plan, m: Machine, u: Machine, i: nat, p: nat)
    requires Shaped(plan, m) && i < plan.tasks && p < plan.n
  {
    u.values == m.values
    || exists at: nat, b: seq<nat> ::
         && Base(plan, i, p) <= at && at + |b| <= Base(plan, i + 1, p) && at + |b| <= |m.values|
         && u.values == AfterStore(m.values, at, b)
  }

  lemma {:induction false} RangeKept(plan: Plan, m: Machine, u: Machine, i: nat, p: nat, j: nat, q: nat)
    requires SoundPlan(plan) && Shaped(plan, m) && i < plan.tasks && p < plan.n && j < plan.tasks && q < plan.n
    requires StoredWithin(plan, m, u, i, p) && (j, q) != (i, p)
    ensures Base(plan, j, q) <= Base(plan, j + 1, q) <= |m.values| == |u.values|
    ensures u.values[Base(plan, j, q)..Base(plan, j + 1, q)] == m.values[Base(plan, j, q)..Base(plan, j + 1, q)]
  {
    hide Base, SoundPlan, Total;
    RangesApart(plan, i, p, j, q);
    RangesApart(plan, j, q, i, p);
    if u.values != m.values {
      var at: nat, b: seq<nat> :|
        && Base(plan, i, p) <= at && at + |b| <= Base(plan, i + 1, p) && at + |b| <= |m.values|
        && u.values == AfterStore(m.values, at, b);
      SliceKept(m.values, at, b, Base(plan, j, q), Base(plan, j + 1, q));
    }
  }

  // The cells of other tasks are unaffected.
  lemma {:induction false} OtherTask(plan: Plan, m: Machine, u: Machine, i: nat, t: nat, p: nat, j: nat, q: nat)
    requires Inv(plan, m) && Shaped(plan, u) && Elsewhere(plan, m, u, i, t)
    requires p < plan.n && StoredWithin(plan, m, u, i, p)
    requires j < plan.tasks && q < plan.n && j != i
    requires m.jobs[j].Active? ==> m.jobs[j].thread != t
    ensures Cell(plan, u, j, q)
  {
    hide Base, SoundPlan, Cell, StoredWithin, ThreadsOk;
    CellAt(plan, m, j, q);
    RangeKept(plan, m, u, i, p, j, q);
    CellFrame(plan, m, u, j, q);
  }

  // A cell whose task has moved on without touching this partition.
  lemma {:induction false} CellMoves(plan: Plan, m: Machine, u: Machine, i: nat, q: nat, next: nat, flushed: nat)
    requires SoundPlan(plan) && Shaped(plan, m) && Shaped(plan, u) && i < plan.tasks && q < plan.n
    requires Cell(plan, m, i, q) && m.jobs[i].Active?
    requires u.jobs[i] == Active(m.jobs[i].thread, next, flushed) && |u.buffers| == |m.buffers|
    requires Begin(plan, i) <= next <= Begin(plan, i + 1) && flushed <= plan.n
    requires flushed > 0 ==> next == Begin(plan, i + 1)
    requires q < flushed <==> q < m.jobs[i].flushed
    requires Begin(plan, i) <= m.jobs[i].next <= |plan.v|
    requires Seen(plan, i, next, q) == Seen(plan, i, m.jobs[i].next, q)
    requires u.position[i][q] == m.position[i][q]
    requires m.jobs[i].thread < |m.buffers| ==> u.buffers[m.jobs[i].thread][q] == m.buffers[m.jobs[i].thread][q]
    requires Base(plan, i, q) <= Base(plan, i + 1, q) <= |m.values| == |u.values|
    requires u.values[Base(plan, i, q)..Base(plan, i + 1, q)] == m.values[Base(plan, i, q)..Base(plan, i + 1, q)]
    ensures Cell(plan, u, i, q)
  {
    hide Base, Begin, Seen, Holds, Halfway, SoundPlan, Total;
    var lo, hi, t := Base(plan, i, q), Base(plan, i + 1, q), m.jobs[i].thread;
    SeenWithin(plan, i, next, q);
    HoldsKept(m.values, u.values, lo, hi, Seen(plan, i, next, q));
    HalfwayKept(m.values, u.values, lo, hi, m.position[i][q], m.buffers[t][q], plan.capacity, Seen(plan, i, next, q));
  }

  // The new element of a half-written range.
  lemma {:induction false} HalfwayPush(values: seq<nat>, base: nat, at: nat, b: seq<nat>, capacity: nat,
                                       q: seq<nat>, x: nat, hi: nat)
    requires Halfway(values, base, at, b, capacity, q) && base + |q| + 1 <= hi <= |values|
    ensures at + |b| + 1 == base + |q| + 1
    ensures |b| + 1 < capacity ==> Halfway(values, base, at, b + [x], capacity, q + [x])
    ensures |b| + 1 == capacity ==>
              Halfway(AfterStore(values, at, b + [x]), base, at + capacity, [], capacity, q + [x])
  {
    assert |values[base..at] + b| == |q|;
    assert values[base..at] + (b + [x]) == q + [x];
    if |b| + 1 == capacity {
      var after := AfterStore(values, at, b + [x]);
      assert after[base..at + capacity] == values[base..at] + (b + [x]);
    }
  }

  lemma {:induction false} HalfwayFlush(values: seq<nat>, base: nat, at: nat, b: seq<nat>, capacity: nat,
                                        q: seq<nat>, hi: nat)
    requires Halfway(values, base, at, b, capacity, q) && base + |q| <= hi <= |values|
    ensures base <= at && at + |b| == base + |q|
    ensures Holds(AfterStore(values, at, b), base, q)
  {
    assert |values[base..at] + b| == |q|;
    var after := AfterStore(values, at, b);
    assert after[base..base + |q|] == values[base..at] + b;
  }

  lemma {:induction false} SomePartition(plan: Plan)
    requires SoundPlan(plan)
    ensures plan.n > 0
  {
    PartitionIsRemainder(0, plan.n);
    hide PartitionOf;
  }

  lemma {:induction false} ActiveMeans(plan: Plan, m: Machine, i: nat)
    requires Inv(plan, m) && i < plan.tasks && m.jobs[i].Active?
    ensures SoundPlan(plan) && Shaped(plan, m) && plan.n > 0 && plan.capacity > 0
    ensures m.jobs[i].thread < |m.buffers| && m.jobs[i].flushed <= plan.n
    ensures Begin(plan, i) <= m.jobs[i].next <= Begin(plan, i + 1) <= |plan.v|
    ensures m.jobs[i].flushed > 0 ==> m.jobs[i].next == Begin(plan, i + 1)
  {
    hide SoundPlan, Begin, Base, Seen, ThreadsOk;
    SomePartition(plan);
    CellAt(plan, m, i, 0);
  }

  // What the running task knows about one of its partitions.
  lemma {:induction false} ActiveCell(plan: Plan, m: Machine, i: nat, p: nat)
    requires Inv(plan, m) && i < plan.tasks && m.jobs[i].Active? && p < plan.n
    ensures Shaped(plan, m) && m.jobs[i].thread < |m.buffers| && Begin(plan, i) <= m.jobs[i].next <= |plan.v|
    ensures Base(plan, i, p) + |Seen(plan, i, m.jobs[i].next, p)| <= Base(plan, i + 1, p) <= |m.values|
    ensures if p < m.jobs[i].flushed
            then m.buffers[m.jobs[i].thread][p] == []
                 && Holds(m.values, Base(plan, i, p), Seen(plan, i, m.jobs[i].next, p))
            else Halfway(m.values, Base(plan, i, p), m.position[i][p], m.buffers[m.jobs[i].thread][p], plan.capacity,
                         Seen(plan, i, m.jobs[i].next, p))
  {
    hide SoundPlan, Begin, Base, Seen, ThreadsOk, Holds, Halfway, Total;
    ActiveMeans(plan, m, i);
    CellAt(plan, m, i, p);
    RangesApart(plan, i, p, i, p);
    SeenWithin(plan, i, m.jobs[i].next, p);
  }

  // The threads of different running tasks are different.
  lemma {:induction false} ThreadsDiffer(plan: Plan, m: Machine, i: nat, j: nat)
    requires Inv(plan, m) && i < plan.tasks && j < plan.tasks && i != j && m.jobs[i].Active? && m.jobs[j].Active?
    ensures m.jobs[i].thread != m.jobs[j].thread
  {
    hide SoundPlan, Cell, Total;
    if j < i {
      assert m.jobs[j].thread != m.jobs[i].thread;
    }
  }

  lemma {:induction false} MakeInv(plan: Plan, m: Machine)
    requires SoundPlan(plan) && Shaped(plan, m) && ThreadsOk(plan, m)
    requires forall i: nat, p: nat | i < plan.tasks && p < plan.n :: Cell(plan, m, i, p)
    ensures Inv(plan, m)
  {
    hide SoundPlan, Shaped, ThreadsOk, Cell;
  }

  lemma {:induction false} AssignThreads(plan: Plan, m: Machine, i: nat, t: nat)
    requires Inv(plan, m) && i < plan.tasks && m.jobs[i].Pending? && t < |m.buffers| && Free(m, t)
    ensures Shaped(plan, Assign(plan, m, i, t)) && ThreadsOk(plan, Assign(plan, m, i, t))
  {
    hide SoundPlan, Cell, Total, Begin;
    var u := Assign(plan, m, i, t);
    forall x: nat | x < |m.buffers| && Free(u, x)
      ensures Free(m, x)
    {
      forall j | 0 <= j < |m.jobs|
        ensures !(m.jobs[j].Active? && m.jobs[j].thread == x)
      {
        assert !(u.jobs[j].Active? && u.jobs[j].thread == x);
      }
    }
  }

  lemma {:induction false} AssignCell(plan: Plan, m: Machine, i: nat, t: nat, p: nat)
    requires Inv(plan, m) && i < plan.tasks && m.jobs[i].Pending? && t < |m.buffers| && Free(m, t) && p < plan.n
    requires Shaped(plan, Assign(plan, m, i, t))
    ensures Cell(plan, Assign(plan, m, i, t), i, p)
  {
    hide SoundPlan, Total, Begin, Base, Seen;
    CellAt(plan, m, i, p);
    SeenNone(plan, i, p);
    RangesApart(plan, i, p, i, p);
    BeginMono(plan, i, i + 1);
  }

  lemma {:induction false} AssignKeepsInv(plan: Plan, m: Machine, i: nat, t: nat)
    requires Inv(plan, m) && i < plan.tasks && m.jobs[i].Pending? && t < |m.buffers| && Free(m, t)
    ensures Inv(plan, Assign(plan, m, i, t))
  {
    hide SoundPlan, Total, Begin, Base, ThreadsOk, Cell, Free;
    var u := Assign(plan, m, i, t);
    AssignThreads(plan, m, i, t);
    forall j: nat, q: nat | j < plan.tasks && q < plan.n
      ensures Cell(plan, u, j, q)
    {
      if j == i {
        AssignCell(plan, m, i, t, q);
      } else {
        CellAt(plan, m, j, q);
        RangesApart(plan, j, q, j, q);
        TotalIs(plan, m);
        CellFrame(plan, m, u, j, q);
      }
    }
    MakeInv(plan, u);
  }

  lemma TotalIs(plan: Plan, m: Machine)
    requires Shaped(plan, m)
    ensures plan.capacity > 0 && |m.values| == Total(plan)
  {
    hide Total;
  }

  // The element to be fed and the room for it.
  lemma {:induction false} FeedFits(plan: Plan, m: Machine, i: nat)
    requires Inv(plan, m) && i < plan.tasks && m.jobs[i].Active? && m.jobs[i].next < Begin(plan, i + 1)
    ensures IsPower(plan.n) && m.jobs[i].next < |plan.v| && m.jobs[i].flushed == 0
    ensures Shaped(plan, m) && m.jobs[i].thread < |m.buffers|
    ensures var t, p := m.jobs[i].thread, PartitionOf(plan.v[m.jobs[i].next], plan.n);
            && p < plan.n && Begin(plan, i) <= m.jobs[i].next
            && m.position[i][p] + |m.buffers[t][p]| + 1 <= Base(plan, i + 1, p) <= |m.values|
            && Base(plan, i, p) <= m.position[i][p]
            && Base(plan, i, p) + |Seen(plan, i, m.jobs[i].next, p)| + 1 <= Base(plan, i + 1, p)
            && Halfway(m.values, Base(plan, i, p), m.position[i][p], m.buffers[t][p], plan.capacity,
                       Seen(plan, i, m.jobs[i].next, p))
  {
    hide Begin, Base, Seen, ThreadsOk, Cell, Total, IsPower, PartitionOf;
    ActiveMeans(plan, m, i);
    SoundPlanMeans(plan);
    var next, t := m.jobs[i].next, m.jobs[i].thread;
    PartitionInRange(plan.v[next], plan.n);
    var p := PartitionOf(plan.v[next], plan.n);
    ActiveCell(plan, m, i, p);
    SeenStep(plan, i, next, p);
    SeenWithin(plan, i, next + 1, p);
    HalfwayPush(m.values, Base(plan, i, p), m.position[i][p], m.buffers[t][p], plan.capacity,
                Seen(plan, i, next, p), plan.v[next], Base(plan, i + 1, p));
  }

  predicate CanFeed(plan: Plan, m: Machine, i: nat) {
    i < plan.tasks && i < |m.jobs| && m.jobs[i].Active? && m.jobs[i].next < Begin(plan, i + 1)
  }

  lemma {:induction false} FeedShape(plan: Plan, m: Machine, i: nat)
    requires Inv(plan, m) && Shaped(plan, m) && CanFeed(plan, m, i)
    ensures IsPower(plan.n) && m.jobs[i].next < |plan.v| && m.jobs[i].thread < |m.buffers|
    ensures var p := PartitionOf(plan.v[m.jobs[i].next], plan.n);
            && p < plan.n
            && m.position[i][p] + |m.buffers[m.jobs[i].thread][p]| + 1 <= |m.values|
            && var u := Feed(plan, m, i);
            && Shaped(plan, u) && Elsewhere(plan, m, u, i, m.jobs[i].thread) && StoredWithin(plan, m, u, i, p)
            && u.jobs[i] == Active(m.jobs[i].thread, m.jobs[i].next + 1, m.jobs[i].flushed)
            && (forall q: nat | q < plan.n && q != p ::
                  u.position[i][q] == m.position[i][q]
                  && u.buffers[m.jobs[i].thread][q] == m.buffers[m.jobs[i].thread][q])
  {
    hide Begin, Base, Seen, ThreadsOk, Cell, Total, IsPower, PartitionOf, Halfway;
    FeedFits(plan, m, i);
    hide Inv;
    var t, p := m.jobs[i].thread, PartitionOf(plan.v[m.jobs[i].next], plan.n);
    var b := m.buffers[t][p] + [plan.v[m.jobs[i].next]];
    var u := Feed(plan, m, i);
    if |b| == plan.capacity {
      assert Base(plan, i, p) <= m.position[i][p] && m.position[i][p] + |b| <= Base(plan, i + 1, p);
      assert u.values == AfterStore(m.values, m.position[i][p], b);
    }
  }

  // Changing the buffers of a running thread's own, or its progress, does not
  // touch free threads.
  lemma {:induction false} ThreadsKept(plan: Plan, m: Machine, u: Machine, i: nat)
    requires Inv(plan, m) && i < plan.tasks && Shaped(plan, m) && m.jobs[i].Active? && m.jobs[i].thread < |m.buffers|
    requires Shaped(plan, u) && Elsewhere(plan, m, u, i, m.jobs[i].thread)
    requires u.jobs[i].Active? && u.jobs[i].thread == m.jobs[i].thread
    ensures ThreadsOk(plan, u)
  {
    hide SoundPlan, Cell, Total;
    var t := m.jobs[i].thread;
    forall x: nat | x < |u.buffers| && Free(u, x)
      ensures x != t && Free(m, x)
    {
      assert !(u.jobs[i].Active? && u.jobs[i].thread == x);
      forall j | 0 <= j < |m.jobs|
        ensures !(m.jobs[j].Active? && m.jobs[j].thread == x)
      {
        assert !(u.jobs[j].Active? && u.jobs[j].thread == x);
      }
    }
    forall a, b | 0 <= a < b < plan.tasks && u.jobs[a].Active? && u.jobs[b].Active?
      ensures u.jobs[a].thread != u.jobs[b].thread
    {
      ThreadsDiffer(plan, m, a, b);
    }
  }

  lemma {:induction false} FeedCell(plan: Plan, m: Machine, i: nat, q: nat)
    requires Inv(plan, m) && Shaped(plan, m) && CanFeed(plan, m, i) && q < plan.n
    requires IsPower(plan.n) && m.jobs[i].next < |plan.v| && m.jobs[i].thread < |m.buffers|
    requires var p := PartitionOf(plan.v[m.jobs[i].next], plan.n);
             p < plan.n && m.position[i][p] + |m.buffers[m.jobs[i].thread][p]| + 1 <= |m.values|
             && Shaped(plan, Feed(plan, m, i))
    ensures Cell(plan, Feed(plan, m, i), i, q)
  {
    hide Begin, Base, Seen, ThreadsOk, Total, IsPower, PartitionOf, Halfway, Holds, SoundPlan, StoredWithin;
    var next, t := m.jobs[i].next, m.jobs[i].thread;
    var p := PartitionOf(plan.v[next], plan.n);
    var u := Feed(plan, m, i);
    FeedShape(plan, m, i);
    ActiveMeans(plan, m, i);
    SeenStep(plan, i, next, q);
    CellAt(plan, m, i, q);
    if q != p {
      RangeKept(plan, m, u, i, p, i, q);
      CellMoves(plan, m, u, i, q, next + 1, m.jobs[i].flushed);
    } else {
      FeedFits(plan, m, i);
      HalfwayPush(m.values, Base(plan, i, p), m.position[i][p], m.buffers[t][p], plan.capacity,
                  Seen(plan, i, next, p), plan.v[next], Base(plan, i + 1, p));
      HalfwayUsed(m.values, Base(plan, i, p), m.position[i][p], m.buffers[t][p], plan.capacity, Seen(plan, i, next, p));
    }
  }

  lemma HalfwayUsed(values: seq<nat>, base: nat, at: nat, b: seq<nat>, capacity: nat, q: seq<nat>)
    requires Halfway(values, base, at, b, capacity, q)
    ensures |b| < capacity
  {
  }

  // Feeding an element keeps the invariant.
  lemma {:induction false} FeedKeepsInv(plan: Plan, m: Machine, i: nat)
    requires Inv(plan, m) && CanFeed(plan, m, i)
    ensures Shaped(plan, m) && IsPower(plan.n) && m.jobs[i].next < |plan.v| && m.jobs[i].thread < |m.buffers|
    ensures var p := PartitionOf(plan.v[m.jobs[i].next], plan.n);
            p < plan.n && m.position[i][p] + |m.buffers[m.jobs[i].thread][p]| + 1 <= |m.values|
    ensures Inv(plan, Feed(plan, m, i))
  {
    hide *;
    FeedableShaped(plan, m, i);
    FeedShape(plan, m, i);
    var t := m.jobs[i].thread;
    var p := PartitionOf(plan.v[m.jobs[i].next], plan.n);
    var u := Feed(plan, m, i);
    ThreadsKept(plan, m, u, i);
    forall j: nat, q: nat | j < plan.tasks && q < plan.n
      ensures Cell(plan, u, j, q)
    {
      if j == i {
        FeedCell(plan, m, i, q);
      } else {
        OtherThread(plan, m, i, j);
        OtherTask(plan, m, u, i, t, p, j, q);
      }
    }
    MakeInv(plan, u);
  }

  lemma {:induction false} FeedableShaped(plan: Plan, m: Machine, i: nat)
    requires Inv(plan, m) && CanFeed(plan, m, i)
    ensures SoundPlan(plan) && Shaped(plan, m) && i < plan.tasks == |m.jobs| == |m.position| && m.jobs[i].Active?
    ensures |m.position[i]| == plan.n
    ensures m.jobs[i].thread < |m.buffers| ==> |m.buffers[m.jobs[i].thread]| == plan.n
  {
    hide SoundPlan, Cell, ThreadsOk, Total;
  }

  lemma {:induction false} OtherThread(plan: Plan, m: Machine, i: nat, j: nat)
    requires Inv(plan, m) && i < plan.tasks && j < plan.tasks && i != j
    ensures |m.jobs| == plan.tasks
    ensures m.jobs[i].Active? && m.jobs[j].Active? ==> m.jobs[j].thread != m.jobs[i].thread
  {
    if m.jobs[i].Active? && m.jobs[j].Active? {
      ThreadsDiffer(plan, m, i, j);
    }
    hide SoundPlan, Cell, ThreadsOk, Total;
  }

  // ----- flushing -----

  predicate CanFlush(plan: Plan, m: Machine, i: nat) {
    i < plan.tasks && i < |m.jobs| && m.jobs[i].Active? && m.jobs[i].next == Begin(plan, i + 1)
    && m.jobs[i].flushed < plan.n
  }

  lemma {:induction false} FlushShape(plan: Plan, m: Machine, i: nat)
    requires Inv(plan, m) && Shaped(plan, m) && CanFlush(plan, m, i)
    ensures m.jobs[i].thread < |m.buffers|
    ensures var p := m.jobs[i].flushed;
            && m.position[i][p] + |m.buffers[m.jobs[i].thread][p]| <= |m.values|
            && var u := Flush(plan, m, i);
            && Shaped(plan, u) && Elsewhere(plan, m, u, i, m.jobs[i].thread) && StoredWithin(plan, m, u, i, p)
            && u.jobs[i] == Active(m.jobs[i].thread, m.jobs[i].next, p + 1)
            && (forall q: nat | q < plan.n && q != p ::
                  u.position[i][q] == m.position[i][q]
                  && u.buffers[m.jobs[i].thread][q] == m.buffers[m.jobs[i].thread][q])
  {
    hide Begin, Base, Seen, ThreadsOk, Cell, Total, Halfway, Holds;
    ActiveMeans(plan, m, i);
    var t, p, next := m.jobs[i].thread, m.jobs[i].flushed, m.jobs[i].next;
    ActiveCell(plan, m, i, p);
    hide Inv;
    var at, b := m.position[i][p], m.buffers[t][p];
    HalfwayFlush(m.values, Base(plan, i, p), at, b, plan.capacity, Seen(plan, i, next, p), Base(plan, i + 1, p));
    var u := Flush(plan, m, i);
    assert Base(plan, i, p) <= at && at + |b| <= Base(plan, i + 1, p);
    assert u.values == AfterStore(m.values, at, b);
  }

  lemma {:induction false} FlushCell(plan: Plan, m: Machine, i: nat, q: nat)
    requires Inv(plan, m) && Shaped(plan, m) && CanFlush(plan, m, i) && q < plan.n
    requires m.jobs[i].thread < |m.buffers|
    requires m.position[i][m.jobs[i].flushed] + |m.buffers[m.jobs[i].thread][m.jobs[i].flushed]| <= |m.values|
    requires Shaped(plan, Flush(plan, m, i))
    ensures Cell(plan, Flush(plan, m, i), i, q)
  {
    hide Begin, Base, Seen, ThreadsOk, Total, Halfway, Holds, SoundPlan, StoredWithin;
    var next, t, p := m.jobs[i].next, m.jobs[i].thread, m.jobs[i].flushed;
    var u := Flush(plan, m, i);
    FlushShape(plan, m, i);
    ActiveMeans(plan, m, i);
    CellAt(plan, m, i, q);
    if q != p {
      RangeKept(plan, m, u, i, p, i, q);
      CellMoves(plan, m, u, i, q, next, p + 1);
    } else {
      ActiveCell(plan, m, i, p);
      HalfwayFlush(m.values, Base(plan, i, p), m.position[i][p], m.buffers[t][p], plan.capacity,
                   Seen(plan, i, next, p), Base(plan, i + 1, p));
    }
  }

  // Flushing a buffer keeps the invariant.
  lemma {:induction false} FlushKeepsInv(plan: Plan, m: Machine, i: nat)
    requires Inv(plan, m) && CanFlush(plan, m, i)
    ensures Shaped(plan, m) && m.jobs[i].thread < |m.buffers|
    ensures m.position[i][m.jobs[i].flushed] + |m.buffers[m.jobs[i].thread][m.jobs[i].flushed]| <= |m.values|
    ensures Inv(plan, Flush(plan, m, i))
  {
    hide *;
    FlushableShaped(plan, m, i);
    FlushShape(plan, m, i);
    var t, p := m.jobs[i].thread, m.jobs[i].flushed;
    var u := Flush(plan, m, i);
    ThreadsKept(plan, m, u, i);
    forall j: nat, q: nat | j < plan.tasks && q < plan.n
      ensures Cell(plan, u, j, q)
    {
      if j == i {
        FlushCell(plan, m, i, q);
      } else {
        OtherThread(plan, m, i, j);
        OtherTask(plan, m, u, i, t, p, j, q);
      }
    }
    MakeInv(plan, u);
  }

  lemma {:induction false} FlushableShaped(plan: Plan, m: Machine, i: nat)
    requires Inv(plan, m) && CanFlush(plan, m, i)
    ensures SoundPlan(plan) && Shaped(plan, m) && i < plan.tasks == |m.jobs| == |m.position| && m.jobs[i].Active?
    ensures |m.position[i]| == plan.n && m.jobs[i].flushed < plan.n
    ensures m.jobs[i].thread < |m.buffers| ==> |m.buffers[m.jobs[i].thread]| == plan.n
  {
    hide SoundPlan, Cell, ThreadsOk, Total;
  }

  // ----- finishing -----

  predicate CanFinish(plan: Plan, m: Machine, i: nat) {
    i < plan.tasks && i < |m.jobs| && m.jobs[i].Active? && m.jobs[i].flushed == plan.n
  }

  lemma {:induction false} FinishCell(plan: Plan, m: Machine, i: nat, q: nat)
    requires Inv(plan, m) && Shaped(plan, m) && CanFinish(plan, m, i) && q < plan.n
    ensures Shaped(plan, Finish(m, i)) && Cell(plan, Finish(m, i), i, q)
    ensures m.jobs[i].thread < |m.buffers| && m.buffers[m.jobs[i].thread][q] == []
  {
    hide Begin, Base, Seen, ThreadsOk, Total, Halfway, Holds, SoundPlan;
    ActiveMeans(plan, m, i);
    ActiveCell(plan, m, i, q);
  }

  lemma {:induction false} FinishThreads(plan: Plan, m: Machine, i: nat)
    requires Inv(plan, m) && Shaped(plan, m) && CanFinish(plan, m, i)
    ensures Shaped(plan, Finish(m, i)) && ThreadsOk(plan, Finish(m, i))
  {
    hide SoundPlan, Cell, Total, Begin;
    var u, t := Finish(m, i), m.jobs[i].thread;
    forall x: nat, p: nat | x < |u.buffers| && p < plan.n && Free(u, x)
      ensures u.buffers[x][p] == []
    {
      if x == t {
        FinishCell(plan, m, i, p);
      } else {
        forall j | 0 <= j < |m.jobs|
          ensures !(m.jobs[j].Active? && m.jobs[j].thread == x)
        {
          assert !(u.jobs[j].Active? && u.jobs[j].thread == x);
        }
        assert Free(m, x);
      }
    }
  }

  lemma {:induction false} FinishKeepsInv(plan: Plan, m: Machine, i: nat)
    requires Inv(plan, m) && CanFinish(plan, m, i)
    ensures i < |m.jobs| && Inv(plan, Finish(m, i))
  {
    hide SoundPlan, Total, Begin, Base, ThreadsOk, Cell;
    var u := Finish(m, i);
    FinishThreads(plan, m, i);
    forall j: nat, q: nat | j < plan.tasks && q < plan.n
      ensures Cell(plan, u, j, q)
    {
      if j == i {
        FinishCell(plan, m, i, q);
      } else {
        CellAt(plan, m, j, q);
        RangesApart(plan, j, q, j, q);
        CellFrame(plan, m, u, j, q);
      }
    }
    MakeInv(plan, u);
  }

  // ----- every interleaving -----

  // Task i can go on, on thread t if it has not been taken yet.
  predicate Enabled(plan: Plan, m: Machine, i: nat, t: nat) {
    || (i < plan.tasks && i < |m.jobs| && m.jobs[i].Pending? && t < |m.buffers| && Free(m, t))
    || CanFeed(plan, m, i) || CanFlush(plan, m, i) || CanFinish(plan, m, i)
  }

  function Next(plan: Plan, m: Machine, i: nat, t: nat): Machine
    requires Inv(plan, m) && Enabled(plan, m, i, t)
  {
    match m.jobs[i]
    case Pending => Assign(plan, m, i, t)
    case Active(_, next, flushed) =>
      if next < Begin(plan, i + 1) then FeedKeepsInv(plan, m, i); Feed(plan, m, i)
      else if flushed < plan.n then
        ActiveMeans(plan, m, i);
        FlushKeepsInv(plan, m, i);
        Flush(plan, m, i)
      else Finish(m, i)
    case Complete => m
  }

  // No step of any task on any thread loses or misplaces an element.
  lemma {:induction false} NextKeepsInv(plan: Plan, m: Machine, i: nat, t: nat)
    requires Inv(plan, m) && Enabled(plan, m, i, t)
    ensures Inv(plan, Next(plan, m, i, t))
    ensures |m.jobs| == plan.tasks == |Next(plan, m, i, t).jobs|
  {
    hide Feed, Flush, Begin, Cell, SoundPlan, ThreadsOk, Total, Free;
    if m.jobs[i].Pending? {
      AssignKeepsInv(plan, m, i, t);
    } else {
      ActiveMeans(plan, m, i);
      if CanFeed(plan, m, i) {
        FeedKeepsInv(plan, m, i);
      } else if CanFlush(plan, m, i) {
        FlushKeepsInv(plan, m, i);
      } else {
        FinishKeepsInv(plan, m, i);
      }
    }
  }

  ghost predicate AllComplete(m: Machine) {
    forall i | 0 <= i < |m.jobs| :: m.jobs[i].Complete?
  }

  // While a task is not done, some task can go on.
  lemma {:induction false} SomeTaskCanGoOn(plan: Plan, m: Machine)
    requires Inv(plan, m) && !AllComplete(m) && |m.buffers| > 0
    ensures exists i: nat, t: nat :: i < |m.jobs| && t < |m.buffers| && Enabled(plan, m, i, t)
  {
    hide SoundPlan, Cell, ThreadsOk, Total, Begin, CanFeed, CanFlush, CanFinish;
    if i: nat :| i < plan.tasks && m.jobs[i].Active? {
      ActiveCanGoOn(plan, m, i);
      assert Enabled(plan, m, i, 0);
    } else {
      var i: nat :| i < plan.tasks && !m.jobs[i].Complete?;
      assert Free(m, 0);
      assert Enabled(plan, m, i, 0);
    }
  }

  lemma {:induction false} ActiveCanGoOn(plan: Plan, m: Machine, i: nat)
    requires Inv(plan, m) && i < plan.tasks && i < |m.jobs| && m.jobs[i].Active?
    ensures CanFeed(plan, m, i) || CanFlush(plan, m, i) || CanFinish(plan, m, i)
  {
    ActiveMeans(plan, m, i);
    hide Inv, Begin;
  }

  // Steps that task i still has to take.
  function StepsLeft(plan: Plan, job: Job, i: nat): int
    requires i < plan.tasks
  {
    match job
    case Pending => Begin(plan, i + 1) - Begin(plan, i) + plan.n + 2
    case Active(_, next, flushed) => Begin(plan, i + 1) - next + plan.n - flushed + 1
    case Complete => 0
  }

  function Work(plan: Plan, jobs: seq<Job>): int
    requires |jobs| <= plan.tasks
  {
    if jobs == [] then 0 else Work(plan, jobs[..|jobs| - 1]) + StepsLeft(plan, jobs[|jobs| - 1], |jobs| - 1)
  }

  lemma {:induction false} WorkUpdate(plan: Plan, jobs: seq<Job>, i: nat, job: Job)
    requires i < |jobs| <= plan.tasks
    ensures Work(plan, jobs[i := job]) + StepsLeft(plan, jobs[i], i) == Work(plan, jobs) + StepsLeft(plan, job, i)
  {
    hide StepsLeft;
    var n := |jobs| - 1;
    if i < n {
      WorkUpdate(plan, jobs[..n], i, job);
      assert jobs[i := job][..n] == jobs[..n][i := job];
    } else {
      assert jobs[i := job][..n] == jobs[..n];
    }
  }

  lemma {:induction false} WorkBound(plan: Plan, jobs: seq<Job>)
    requires |jobs| <= plan.tasks
    requires forall i: nat | i < |jobs| :: StepsLeft(plan, jobs[i], i) >= 0
    ensures Work(plan, jobs) >= 0
  {
    hide StepsLeft;
    if jobs != [] {
      WorkBound(plan, jobs[..|jobs| - 1]);
    }
  }

  lemma {:induction false} InvWorkBound(plan: Plan, m: Machine)
    requires Inv(plan, m)
    ensures |m.jobs| == plan.tasks && Work(plan, m.jobs) >= 0
  {
    hide Cell, ThreadsOk, SoundPlan, Total, Work, Begin;
    forall i: nat | i < |m.jobs|
      ensures StepsLeft(plan, m.jobs[i], i) >= 0
    {
      BeginMono(plan, i, i + 1);
      if m.jobs[i].Active? {
        ActiveMeans(plan, m, i);
      }
    }
    WorkBound(plan, m.jobs);
  }

  // Every step makes progress, so every schedule comes to an end.
  lemma {:induction false} NextMakesProgress(plan: Plan, m: Machine, i: nat, t: nat)
    requires Inv(plan, m) && Enabled(plan, m, i, t)
    ensures |m.jobs| == plan.tasks == |Next(plan, m, i, t).jobs|
    ensures Work(plan, Next(plan, m, i, t).jobs) < Work(plan, m.jobs)
  {
    hide Cell, ThreadsOk, SoundPlan, Total, Work, Begin, Free;
    WorkUpdate(plan, m.jobs, i, Next(plan, m, i, t).jobs[i]);
    BeginMono(plan, i, i + 1);
    if m.jobs[i].Active? {
      ActiveMeans(plan, m, i);
    }
    NextJobs(plan, m, i, t);
  }

  lemma {:induction false} NextJobs(plan: Plan, m: Machine, i: nat, t: nat)
    requires Inv(plan, m) && Enabled(plan, m, i, t)
    ensures i < |m.jobs| == |Next(plan, m, i, t).jobs| && |Next(plan, m, i, t).buffers| == |m.buffers|
    ensures Next(plan, m, i, t).jobs == m.jobs[i := Next(plan, m, i, t).jobs[i]]
  {
    hide Cell, ThreadsOk, SoundPlan, Total, Begin, Free;
  }

  // ----- the result -----

  function EmptyBuffers(threads: nat, n: nat): (b: seq<seq<seq<nat>>>)
    ensures |b| == threads
    ensures forall t | 0 <= t < threads :: |b[t]| == n && forall p | 0 <= p < n :: b[t][p] == []
  {
    seq(threads, t => seq(n, p => []))
  }

  function Queued(tasks: nat): (jobs: seq<Job>)
    ensures |jobs| == tasks && forall i | 0 <= i < tasks :: jobs[i] == Pending
  {
    seq(tasks, i => Pending)
  }

  ghost predicate Tabular(plan: Plan, a: seq<seq<nat>>) {
    |a| == plan.tasks && forall i | 0 <= i < plan.tasks :: |a[i]| == plan.n
  }

  lemma {:induction false} StartedInv(plan: Plan, values: seq<nat>, position: seq<seq<nat>>, threads: nat)
    requires SoundPlan(plan) && plan.capacity > 0 && |values| == Total(plan) && Tabular(plan, position)
    requires forall i: nat, p: nat | i < plan.tasks && p < plan.n :: position[i][p] == Base(plan, i, p)
    ensures Inv(plan, Machine(values, position, EmptyBuffers(threads, plan.n), Queued(plan.tasks)))
  {
    hide SoundPlan, Begin, Base, Seen, Holds, Halfway, Total, EmptyBuffers, Queued;
    var m := Machine(values, position, EmptyBuffers(threads, plan.n), Queued(plan.tasks));
    forall i: nat, p: nat | i < plan.tasks && p < plan.n
      ensures Cell(plan, m, i, p)
    {
    }
  }

  // The ranges of the first i tasks make up the beginning of a partition.
  lemma {:induction false} Assembled(plan: Plan, m: Machine, i: nat, p: nat)
    requires Inv(plan, m) && AllComplete(m) && i <= plan.tasks && p < plan.n && plan.capacity > 0
    ensures Base(plan, 0, p) <= Base(plan, i, p) <= |m.values|
    ensures m.values[Base(plan, 0, p)..Base(plan, i, p)] == Chosen(plan.v[..Begin(plan, i)], plan.n, p)
  {
    hide SoundPlan, Total, Begin, Base, ThreadsOk, Seen, Chosen;
    SoundPlanMeans(plan);
    RangesApart(plan, 0, p, 0, p);
    TotalIs(plan, m);
    if i == 0 {
      BeginZero(plan, p);
    } else {
      Assembled(plan, m, i - 1, p);
      CellAt(plan, m, i - 1, p);
      RangesApart(plan, i - 1, p, i - 1, p);
      SeenAll(plan, i - 1, p);
      var a, b, c := Base(plan, 0, p), Base(plan, i - 1, p), Base(plan, i, p);
      assert m.values[a..c] == m.values[a..b] + m.values[b..c];
    }
  }

  lemma {:induction false} BeginZero(plan: Plan, p: nat)
    ensures Begin(plan, 0) == 0 && Chosen(plan.v[..0], plan.n, p) == []
  {
  }

  // Whatever the schedule, the result is the specified layout.
  lemma {:induction false} ResultIsPartitioned(plan: Plan, m: Machine, histogram: seq<nat>, offsets: seq<nat>)
    requires Inv(plan, m) && AllComplete(m) && plan.capacity > 0
    requires histogram == Histogram(plan.v, plan.n) && |offsets| == plan.n
    requires forall p: nat | p < plan.n :: offsets[p] == Offset(histogram, plan.capacity, p)
    ensures Partitioned(plan.v, plan.n, plan.capacity, histogram, offsets, m.values)
  {
    hide SoundPlan, Begin, Base, ThreadsOk, Chosen, Offset, Cell, Before;
    SoundPlanMeans(plan);
    PiecesCover(plan);
    assert plan.v[..|plan.v|] == plan.v;
    forall p: nat | p < plan.n
      ensures offsets[p] + histogram[p] <= |m.values|
      ensures m.values[offsets[p]..offsets[p] + histogram[p]] == Chosen(plan.v, plan.n, p)
    {
      Assembled(plan, m, plan.tasks, p);
      BaseEnds(plan, p);
    }
  }

  lemma {:induction false} BaseEnds(plan: Plan, p: nat)
    requires plan.capacity > 0 && p < plan.n && plan.tasks > 0
    ensures Base(plan, 0, p) == Offset(Histogram(plan.v, plan.n), plan.capacity, p)
    ensures Base(plan, plan.tasks, p) == Base(plan, 0, p) + Histogram(plan.v, plan.n)[p]
  {
    PiecesCover(plan);
    BeginZero(plan, p);
    assert plan.v[..|plan.v|] == plan.v;
    hide Begin, Chosen, Offset;
  }

  // What counting task i leaves behind, and all of them.
  ghost predicate CountedBy(plan: Plan, i: nat, local: seq<nat>)
    requires i < plan.tasks
  {
    BeginMono(plan, i, i + 1);
    && |local| == plan.n
    && forall p: nat | p < plan.n :: local[p] == |Seen(plan, i, Begin(plan, i + 1), p)|
  }

  ghost predicate Counted(plan: Plan, local: seq<seq<nat>>) {
    |local| == plan.tasks && forall i: nat | i < plan.tasks :: CountedBy(plan, i, local[i])
  }

  lemma CountedAt(plan: Plan, local: seq<seq<nat>>, i: nat, p: nat)
    requires Counted(plan, local) && i < plan.tasks && p < plan.n
    ensures |local| == plan.tasks && |local[i]| == plan.n && Begin(plan, i) <= Begin(plan, i + 1)
    ensures local[i][p] == |Seen(plan, i, Begin(plan, i + 1), p)|
  {
    assert CountedBy(plan, i, local[i]);
    BeginMono(plan, i, i + 1);
    hide Begin, Seen;
  }

  function UpTo(n: nat): set<nat> {
    if n == 0 then {} else UpTo(n - 1) + {n - 1}
  }

  lemma {:induction false} UpToMeans(n: nat)
    ensures forall i: nat :: i in UpTo(n) <==> i < n
  {
    if n > 0 {
      UpToMeans(n - 1);
    }
  }

  lemma TabularMeans(plan: Plan, a: seq<seq<nat>>)
    ensures Tabular(plan, a) <==> |a| == plan.tasks && forall i | 0 <= i < plan.tasks :: |a[i]| == plan.n
  {
  }

  function ZeroTable(plan: Plan): (a: seq<seq<nat>>)
    ensures Tabular(plan, a)
  {
    seq(plan.tasks, i => seq(plan.n, p => 0))
  }

  lemma OffsetNext(h: seq<nat>, capacity: nat, p: nat)
    requires capacity > 0 && p <= |h|
    ensures Offset(h, capacity, p) == if p == 0 then 0 else Offset(h, capacity, p - 1) + Padded(h[p - 1], capacity)
  {
  }

  lemma TotalMeans(plan: Plan)
    requires plan.capacity > 0
    ensures Total(plan) == Offset(Histogram(plan.v, plan.n), plan.capacity, plan.n)
  {
    hide Offset, Histogram;
  }

  lemma Put2Is(a: seq<seq<nat>>, i: nat, p: nat, x: nat)
    requires i < |a| && p < |a[i]|
    ensures |Put2(a, i, p, x)| == |a| && |Put2(a, i, p, x)[i]| == |a[i]| && Put2(a, i, p, x)[i][p] == x
    ensures forall j | 0 <= j < |a| && j != i :: Put2(a, i, p, x)[j] == a[j]
    ensures forall q | 0 <= q < |a[i]| && q != p :: Put2(a, i, p, x)[i][q] == a[i][q]
  {
  }

  lemma Put3Twice(a: seq<seq<seq<nat>>>, t: nat, p: nat, x: seq<nat>, y: seq<nat>)
    requires t < |a| && p < |a[t]|
    ensures |Put3(a, t, p, x)| == |a| && |Put3(a, t, p, x)[t]| == |a[t]|
    ensures Put3(Put3(a, t, p, x), t, p, y) == Put3(a, t, p, y)
  {
    assert a[t][p := x][p := y] == a[t][p := y];
  }

  // ----- the class -----

  class ParallelPartitionSet {
    const nPartitions: nat
    var histogram: array<nat>
    var offsets: array<nat>
    var values: array<nat>
    var localHistograms: seq<seq<nat>>
    var localOffsets: seq<seq<nat>>
    var buffers: seq<seq<seq<nat>>>
    var jobs: seq<Job>

    constructor (n: nat)
      ensures nPartitions == n && histogram.Length == n && offsets.Length == n
      ensures histogram != offsets && fresh(histogram) && fresh(offsets) && fresh(values)
    {
      nPartitions := n;
      histogram := new nat[n](i => 0);
      offsets := new nat[n](i => 0);
      values := new nat[0];
      localHistograms, localOffsets, buffers, jobs := [], [], [], [];
    }

    function Snapshot(): Machine
      reads this, values
    {
      Machine(values[..], localOffsets, buffers, jobs)
    }

    // A counting task: how many elements of its piece go to each partition.
    method CountTask(plan: Plan, i: nat)
      requires SoundPlan(plan) && i < plan.tasks == |localHistograms| && plan.n == nPartitions
      modifies this`localHistograms
      ensures |localHistograms| == plan.tasks && CountedBy(plan, i, localHistograms[i])
      ensures forall j | 0 <= j < plan.tasks && j != i :: localHistograms[j] == old(localHistograms[j])
    {
      hide Begin, Seen, PartitionOf, SoundPlan, IsPower;
      SoundPlanMeans(plan);
      BeginMono(plan, i, i + 1);
      var local := new nat[nPartitions](p => 0);
      forall p: nat | p < plan.n
        ensures |Seen(plan, i, Begin(plan, i), p)| == 0
      {
        SeenNone(plan, i, p);
      }
      for next := Begin(plan, i) to Begin(plan, i + 1)
        invariant localHistograms == old(localHistograms)
        invariant forall p: nat | p < plan.n :: local[p] == |Seen(plan, i, next, p)|
      {
        var bucket := PartitionOf(plan.v[next], plan.n);
        PartitionInRange(plan.v[next], plan.n);
        forall p: nat | p < plan.n
          ensures |Seen(plan, i, next + 1, p)| == |Seen(plan, i, next, p)| + if bucket == p then 1 else 0
        {
          SeenStep(plan, i, next, p);
        }
        local[bucket] := local[bucket] + 1;
      }
      localHistograms := localHistograms[i := local[..]];
    }

    // The counting level: each task once, in any order.
    method CountLevel(plan: Plan)
      requires SoundPlan(plan) && plan.n == nPartitions
      modifies this`localHistograms
      ensures Counted(plan, localHistograms)
    {
      hide CountedBy, SoundPlan;
      localHistograms := seq(plan.tasks, i => []);
      UpToMeans(plan.tasks);
      var left: set<nat> := UpTo(plan.tasks);
      while left != {}
        invariant forall i | i in left :: i < plan.tasks
        invariant |localHistograms| == plan.tasks
        invariant forall i: nat | i < plan.tasks && i !in left :: CountedBy(plan, i, localHistograms[i])
        decreases |left|
      {
        var i: nat :| i in left;
        CountTask(plan, i);
        left := left - {i};
      }
    }

    // Where every task writes in partition p, and how many elements there are.
    method LayOutPartition(plan: Plan, p: nat, lastOffset: nat) returns (counter: nat)
      requires SoundPlan(plan) && plan.n == nPartitions && p < plan.n
      requires plan.capacity > 0 && lastOffset == Offset(Histogram(plan.v, plan.n), plan.capacity, p)
      requires Counted(plan, localHistograms) && Tabular(plan, localOffsets)
      modifies this`localOffsets
      ensures counter == Histogram(plan.v, plan.n)[p]
      ensures Tabular(plan, localOffsets)
      ensures forall i: nat | i < plan.tasks :: localOffsets[i][p] == Base(plan, i, p)
      ensures forall i: nat, q: nat | i < plan.tasks && q < plan.n && q != p ::
                localOffsets[i][q] == old(localOffsets)[i][q]
    {
      hide *;
      SoundPlanMeans(plan);
      counter := 0;
      BaseEnds(plan, p);
      TabularMeans(plan, localOffsets);
      for task := 0 to plan.tasks
        invariant lastOffset + counter == Base(plan, task, p)
        invariant |localOffsets| == plan.tasks && forall i | 0 <= i < plan.tasks :: |localOffsets[i]| == plan.n
        invariant forall i: nat, q: nat | i < plan.tasks && q < plan.n && q != p ::
                    localOffsets[i][q] == old(localOffsets)[i][q]
        invariant forall i: nat | i < task :: localOffsets[i][p] == Base(plan, i, p)
      {
        CountedAt(plan, localHistograms, task, p);
        SeenAll(plan, task, p);
        Put2Is(localOffsets, task, p, lastOffset + counter);
        localOffsets := Put2(localOffsets, task, p, lastOffset + counter);
        counter := counter + localHistograms[task][p];
      }
      TabularMeans(plan, localOffsets);
    }

    // The layout task: offsets of the partitions and of every task in them.
    method LayOutTask(plan: Plan)
      requires SoundPlan(plan) && plan.n == nPartitions == histogram.Length == offsets.Length && histogram != offsets
      requires Counted(plan, localHistograms)
      modifies this`localOffsets, this`values, histogram, offsets
      ensures histogram[..] == Histogram(plan.v, plan.n)
      ensures plan.capacity > 0
      ensures forall p: nat | p < plan.n :: offsets[p] == Offset(Histogram(plan.v, plan.n), plan.capacity, p)
      ensures values.Length == Total(plan) && fresh(values)
      ensures Tabular(plan, localOffsets)
      ensures forall i: nat, p: nat | i < plan.tasks && p < plan.n :: localOffsets[i][p] == Base(plan, i, p)
    {
      hide *;
      SoundPlanMeans(plan);
      ghost var h := Histogram(plan.v, plan.n);
      localOffsets := ZeroTable(plan);
      TabularMeans(plan, localOffsets);
      var lastOffset := 0;
      OffsetNext(h, plan.capacity, 0);
      for p := 0 to nPartitions
        invariant lastOffset == Offset(h, plan.capacity, p)
        invariant forall q: nat | q < p :: histogram[q] == h[q] && offsets[q] == Offset(h, plan.capacity, q)
        invariant Tabular(plan, localOffsets)
        invariant |localOffsets| == plan.tasks && forall i | 0 <= i < plan.tasks :: |localOffsets[i]| == plan.n
        invariant forall i: nat, q: nat | i < plan.tasks && q < p :: localOffsets[i][q] == Base(plan, i, q)
      {
        offsets[p] := lastOffset;
        var counter := LayOutPartition(plan, p, lastOffset);
        TabularMeans(plan, localOffsets);
        histogram[p] := counter;
        OffsetNext(h, plan.capacity, p + 1);
        lastOffset := lastOffset + Padded(counter, plan.capacity);
      }
      assert histogram[..] == h;
      TotalMeans(plan);
      values := new nat[lastOffset];
    }

    // Puts the next element of a scattering task into its buffer, and stores
    // the buffer when it is full.
    method FeedTask(plan: Plan, i: nat)
      requires Inv(plan, Snapshot()) && CanFeed(plan, Snapshot(), i)
      modifies this`localOffsets, this`buffers, this`jobs, values
      ensures Inv(plan, old(Snapshot())) && Enabled(plan, old(Snapshot()), i, 0)
      ensures Snapshot() == Next(plan, old(Snapshot()), i, 0)
    {
      ghost var m := Snapshot();
      hide Inv, Begin, PartitionOf, IsPower, Put3, Put2, AfterStore;
      FeedKeepsInv(plan, m, i);
      var thread, next := jobs[i].thread, jobs[i].next;
      var p := PartitionOf(plan.v[next], plan.n);
      var tuples := buffers[thread][p] + [plan.v[next]];
      Put3Twice(buffers, thread, p, tuples, []);
      buffers := Put3(buffers, thread, p, tuples);
      if |tuples| == plan.capacity {
        StoreTuples(localOffsets[i][p], tuples);
        localOffsets := Put2(localOffsets, i, p, localOffsets[i][p] + plan.capacity);
        buffers := Put3(buffers, thread, p, []);
      }
      jobs := jobs[i := Active(thread, next + 1, jobs[i].flushed)];
    }

    // One step of a scattering task on a thread.
    method StepTask(plan: Plan, i: nat, t: nat)
      requires Inv(plan, Snapshot()) && Enabled(plan, Snapshot(), i, t)
      modifies this`localOffsets, this`buffers, this`jobs, values
      ensures Snapshot() == Next(plan, old(Snapshot()), i, t)
    {
      ghost var m := Snapshot();
      hide Inv, Begin, Free, Put3, AfterStore, Feed;
      match jobs[i]
      case Pending =>
        jobs := jobs[i := Active(t, Begin(plan, i), 0)];
      case Active(thread, next, flushed) =>
        ActiveMeans(plan, m, i);
        if next < Begin(plan, i + 1) {
          FeedTask(plan, i);
        } else if flushed < plan.n {
          FlushKeepsInv(plan, m, i);
          StoreTuples(localOffsets[i][flushed], buffers[thread][flushed]);
          buffers := Put3(buffers, thread, flushed, []);
          jobs := jobs[i := Active(thread, next, flushed + 1)];
        } else {
          jobs := jobs[i := Complete];
        }
      case Complete =>
    }

    method StoreTuples(at: nat, tuples: seq<nat>)
      requires at + |tuples| <= values.Length
      modifies values
      ensures values[..] == AfterStore(old(values[..]), at, tuples)
    {
      ghost var before := values[..];
      for i := 0 to |tuples|
        invariant values[..] == before[..at] + tuples[..i] + before[at + i..]
      {
        values[at + i] := tuples[i];
      }
      assert tuples[..|tuples|] == tuples;
    }

    // Partitions the values level by level, scattering with any number of threads
    // under any schedule.
    method Init(v: seq<nat>, capacity: nat, tasks: nat, threads: nat)
      requires IsPower(nPartitions) && capacity > 0 && tasks > 0 && threads > 0
      requires histogram.Length == nPartitions == offsets.Length && histogram != offsets
      modifies this, histogram, offsets
      ensures Partitioned(v, nPartitions, capacity, histogram[..], offsets[..], values[..])
    {
      hide Inv, Begin, Seen, Base, IsPower, Counted, Enabled, Next, Work, Partitioned, Total, Histogram, Offset;
      var plan := Plan(v, nPartitions, capacity, tasks);
      assert SoundPlan(plan);
      CountLevel(plan);
      LayOutTask(plan);
      buffers := EmptyBuffers(threads, nPartitions);
      jobs := Queued(tasks);
      ghost var h, o := histogram[..], offsets[..];
      StartedInv(plan, values[..], localOffsets, threads);
      InvWorkBound(plan, Snapshot());
      while exists i: nat :: i < |jobs| && !jobs[i].Complete?
        invariant Inv(plan, Snapshot()) && |jobs| == plan.tasks && |buffers| == threads && fresh(values)
        invariant histogram == old(histogram) && offsets == old(offsets)
        invariant histogram[..] == h && offsets[..] == o && Work(plan, jobs) >= 0
        decreases Work(plan, jobs)
      {
        SomeTaskCanGoOn(plan, Snapshot());
        var i: nat, t: nat :| i < |jobs| && t < |buffers| && Enabled(plan, Snapshot(), i, t);
        NextKeepsInv(plan, Snapshot(), i, t);
        NextMakesProgress(plan, Snapshot(), i, t);
        InvWorkBound(plan, Next(plan, Snapshot(), i, t));
        NextJobs(plan, Snapshot(), i, t);
        StepTask(plan, i, t);
      }
      ResultIsPartitioned(plan, Snapshot(), h, o);
    }
  }
}

/** The task queue and its barrier. Barriers are ordinary queue entries, one per
    worker thread. The worker threads take entries with an atomic counter and
    may be interleaved in any way: every entry is run once, barriers separate
    what comes before them from what comes after, and all threads come to an end. */
module TaskQueue {
  import opened Arith

  datatype Job = Task(id: nat) | BarrierWait

  // What a worker thread is doing. A taken entry is first fetched, then
  // running, or, for a barrier entry, waiting for the generation to change.
  datatype Worker = Ready | Fetched(p: nat) | Running(p: nat) | Waiting(p: nat, generation: nat) | Finished

  // The shared state of the queue, its barrier and its worker threads.
  datatype State = State(tasks: seq<Job>, pos: nat, counter: nat, generation: nat, workers: seq<Worker>)

  // What can be observed of a run.
  datatype Event = Started(worker: nat, p: nat) | Completed(worker: nat, p: nat)

  // ----- barrier entries in the queue -----

  // Barrier entries among the first m.
  function Barriers(tasks: seq<Job>, m: nat): nat
    requires m <= |tasks|
  {
    if m == 0 then 0 else Barriers(tasks, m - 1) + if tasks[m - 1].BarrierWait? then 1 else 0
  }

  lemma {:induction false} BarriersMono(tasks: seq<Job>, a: nat, b: nat)
    requires a <= b <= |tasks|
    ensures Barriers(tasks, a) <= Barriers(tasks, b)
  {
    if a < b {
      BarriersMono(tasks, a, b - 1);
    }
  }

  lemma {:induction false} BarriersAppend(tasks: seq<Job>, more: seq<Job>, m: nat)
    requires m <= |tasks|
    ensures Barriers(tasks + more, m) == Barriers(tasks, m)
  {
    if m > 0 {
      BarriersAppend(tasks, more, m - 1);
    }
  }

  // The number of the barrier group that an entry is in or directly before.
  function Group(tasks: seq<Job>, n: nat, p: nat): nat
    requires n > 0 && p < |tasks|
  {
    Barriers(tasks, p) / n
  }

  // Barrier entries come in uninterrupted groups of n.
  ghost predicate Grouped(tasks: seq<Job>, n: nat)
    requires n > 0
  {
    && (forall p | 0 <= p < |tasks| && tasks[p].Task? :: Whole(Barriers(tasks, p), n))
    && Whole(Barriers(tasks, |tasks|), n)
  }

  ghost predicate Whole(b: nat, n: nat)
    requires n > 0
  {
    b % n == 0
  }

  // With n barrier entries in between, the later entry is in a later group.
  lemma {:induction false} BarrierSeparates(tasks: seq<Job>, n: nat, p: nat, s: nat, q: nat)
    requires n > 0 && p <= s && s + n <= q < |tasks|
    requires forall i | s <= i < s + n :: tasks[i].BarrierWait?
    ensures Group(tasks, n, p) < Group(tasks, n, q)
  {
    BarriersMono(tasks, p, s);
    AllBarriers(tasks, s, n);
    BarriersMono(tasks, s + n, q);
    DivStep(Barriers(tasks, p), Barriers(tasks, q), n);
  }

  lemma {:induction false} AllBarriers(tasks: seq<Job>, s: nat, n: nat)
    requires s + n <= |tasks| && forall i | s <= i < s + n :: tasks[i].BarrierWait?
    ensures Barriers(tasks, s + n) == Barriers(tasks, s) + n
  {
    if n > 0 {
      AllBarriers(tasks, s, n - 1);
    }
  }

  lemma DivStep(a: nat, b: nat, n: nat)
    requires n > 0 && a + n <= b
    ensures a / n < b / n
  {
    AddMulDiv(a, 1, n);
    DivMono(a + n, b, n);
  }

  // ----- counting worker threads -----

  datatype Query = AtBarrier(tasks: seq<Job>, g: nat) | Asleep(g: nat) | AtEnd

  // Whether a worker holds a barrier entry of generation g, is waiting for
  // it to end, or has come to an end.
  predicate Answers(q: Query, w: Worker) {
    match q
    case AtBarrier(tasks, g) =>
      (w.Fetched? && w.p < |tasks| && tasks[w.p].BarrierWait?) || (w.Waiting? && w.generation == g)
    case Asleep(g) => w.Waiting? && w.generation == g
    case AtEnd => w.Finished?
  }

  function Count(ws: seq<Worker>, q: Query): (c: nat)
    ensures c <= |ws|
  {
    if ws == [] then 0 else Count(ws[..|ws| - 1], q) + if Answers(q, ws[|ws| - 1]) then 1 else 0
  }

  lemma {:induction false} CountUpdate(ws: seq<Worker>, q: Query, i: nat, w: Worker)
    requires i < |ws|
    ensures Count(ws[i := w], q) + (if Answers(q, ws[i]) then 1 else 0)
            == Count(ws, q) + if Answers(q, w) then 1 else 0
  {
    hide Answers;
    var n := |ws| - 1;
    if i < n {
      CountUpdate(ws[..n], q, i, w);
      assert ws[i := w][..n] == ws[..n][i := w];
    } else {
      assert ws[i := w][..n] == ws[..n];
    }
  }

  lemma {:induction false} CountNone(ws: seq<Worker>, q: Query)
    requires forall i | 0 <= i < |ws| :: !Answers(q, ws[i])
    ensures Count(ws, q) == 0
  {
    hide Answers;
    if ws != [] {
      CountNone(ws[..|ws| - 1], q);
    }
  }

  lemma {:induction false} CountAll(ws: seq<Worker>, q: Query)
    ensures (forall i | 0 <= i < |ws| :: Answers(q, ws[i])) <==> Count(ws, q) == |ws|
  {
    hide Answers;
    if ws != [] {
      var n := |ws| - 1;
      CountAll(ws[..n], q);
      assert forall i | 0 <= i < n :: ws[..n][i] == ws[i];
    }
  }

  lemma {:induction false} CountSome(ws: seq<Worker>, q: Query, i: nat)
    requires i < |ws| && Answers(q, ws[i])
    ensures Count(ws, q) > 0
  {
    hide Answers;
    if i < |ws| - 1 {
      CountSome(ws[..|ws| - 1], q, i);
    }
  }

  // If only one worker is missing from the count, all others are in it.
  lemma {:induction false} CountAllButOne(ws: seq<Worker>, q: Query, i: nat, j: nat)
    requires i < |ws| && j < |ws| && i != j
    requires !Answers(q, ws[i]) && Count(ws, q) == |ws| - 1
    ensures Answers(q, ws[j])
  {
    hide Answers;
    var n := |ws| - 1;
    if i == n {
      CountAll(ws[..n], q);
      assert ws[..n][j] == ws[j];
    } else if j < n {
      if Answers(q, ws[n]) {
        CountAllButOne(ws[..n], q, i, j);
      } else {
        assert ws[..n][i] == ws[i];
        CountAll(ws[..n], q);
      }
    } else if !Answers(q, ws[j]) {
      assert ws[..n][i] == ws[i];
      CountAll(ws[..n], q);
    }
  }

  // A worker outside the count leaves room for one more.
  lemma {:induction false} CountRoom(ws: seq<Worker>, q: Query, i: nat)
    requires i < |ws| && !Answers(q, ws[i])
    ensures Count(ws, q) < |ws|
  {
    hide Answers;
    CountAll(ws, q);
  }

  // Fewer workers are asleep than hold a barrier entry.
  lemma {:induction false} AsleepAtBarrier(ws: seq<Worker>, tasks: seq<Job>, g: nat)
    ensures Count(ws, Asleep(g)) <= Count(ws, AtBarrier(tasks, g))
  {
    if ws != [] {
      AsleepAtBarrier(ws[..|ws| - 1], tasks, g);
    }
  }

  // ----- steps -----

  // A waiting worker can go on only after the generation has changed; a
  // wake-up before that has no effect.
  predicate Enabled(s: State, i: nat)
    requires i < |s.workers|
  {
    match s.workers[i]
    case Waiting(_, g) => g != s.generation
    case Finished => false
    case _ => true
  }

  // One step of worker i.
  function Step(s: State, i: nat): State
    requires i < |s.workers|
  {
    match s.workers[i]
    case Ready =>
      s.(pos := s.pos + 1, workers := s.workers[i := if s.pos >= |s.tasks| then Finished else Fetched(s.pos)])
    case Fetched(p) =>
      if p < |s.tasks| && s.tasks[p].BarrierWait? then
        if s.counter == 1 then
          s.(generation := s.generation + 1, counter := |s.workers|, workers := s.workers[i := Ready])
        else
          s.(counter := if s.counter > 0 then s.counter - 1 else 0, workers := s.workers[i := Waiting(p, s.generation)])
      else
        s.(workers := s.workers[i := Running(p)])
    case Running(p) =>
      s.(workers := s.workers[i := Ready])
    case Waiting(p, g) =>
      if g != s.generation then s.(workers := s.workers[i := Ready]) else s
    case Finished => s
  }

  // What the step adds to the observable events.
  function Emits(s: State, i: nat): seq<Event>
    requires i < |s.workers|
  {
    match s.workers[i]
    case Ready => []
    case Fetched(p) =>
      if p < |s.tasks| && s.tasks[p].BarrierWait? && s.counter == 1
      then [Started(i, p), Completed(i, p)] else [Started(i, p)]
    case Running(p) => [Completed(i, p)]
    case Waiting(p, g) => if g != s.generation then [Completed(i, p)] else []
    case Finished => []
  }

  // ----- the invariant -----

  function Taken(s: State): nat {
    if s.pos <= |s.tasks| then s.pos else |s.tasks|
  }

  // Barrier entries in the first g groups.
  function GroupStart(n: nat, g: nat): nat {
    n * g
  }

  lemma GroupStartNext(n: nat, g: nat)
    ensures GroupStart(n, 0) == 0 && GroupStart(n, g + 1) == GroupStart(n, g) + n
  {
  }

  // A count of earlier barrier entries that belongs to group g.
  ghost predicate InWindow(b: nat, n: nat, g: nat) {
    GroupStart(n, g) <= b < GroupStart(n, g) + n
  }

  ghost predicate WorkerOk(s: State, w: Worker) {
    match w
    case Ready => true
    case Fetched(p) =>
      && p < Taken(s)
      && InWindow(Barriers(s.tasks, p), |s.workers|, s.generation)
      && (s.tasks[p].Task? ==> Barriers(s.tasks, p) == GroupStart(|s.workers|, s.generation))
    case Running(p) =>
      p < Taken(s) && s.tasks[p].Task? && Barriers(s.tasks, p) == GroupStart(|s.workers|, s.generation)
    case Waiting(p, g) =>
      && p < Taken(s) && s.tasks[p].BarrierWait?
      && InWindow(Barriers(s.tasks, p), |s.workers|, g)
      && g <= s.generation <= g + 1
    case Finished => true
  }

  predicate Holds(w: Worker, p: nat) {
    (w.Fetched? || w.Running? || w.Waiting?) && w.p == p
  }

  // The atomic position, the barrier's counter and its generation agree with
  // what the workers are doing.
  ghost predicate Tally(s: State) {
    && s.pos == Taken(s) + Count(s.workers, AtEnd)
    && 1 <= s.counter && s.counter + Count(s.workers, Asleep(s.generation)) == |s.workers|
    && Barriers(s.tasks, Taken(s))
       == GroupStart(|s.workers|, s.generation) + Count(s.workers, AtBarrier(s.tasks, s.generation))
  }

  ghost predicate AllOk(s: State) {
    forall i | 0 <= i < |s.workers| :: WorkerOk(s, s.workers[i])
  }

  // No two workers hold the same entry.
  ghost predicate Apart(ws: seq<Worker>) {
    forall i, j, p: nat | 0 <= i < j < |ws| :: !(Holds(ws[i], p) && Holds(ws[j], p))
  }

  ghost predicate Inv(s: State) {
    |s.workers| > 0 && Grouped(s.tasks, |s.workers|) && Tally(s) && AllOk(s) && Apart(s.workers)
  }

  function Start(tasks: seq<Job>, n: nat): State {
    State(tasks, 0, n, 0, seq(n, i => Ready))
  }

  lemma StartInv(tasks: seq<Job>, n: nat)
    requires n > 0 && Grouped(tasks, n)
    ensures Inv(Start(tasks, n))
  {
    var s := Start(tasks, n);
    CountNone(s.workers, AtEnd);
    CountNone(s.workers, Asleep(0));
    CountNone(s.workers, AtBarrier(tasks, 0));
    hide Count, Grouped;
  }

  lemma WorkerIs(s: State, i: nat)
    requires Inv(s) && i < |s.workers|
    ensures WorkerOk(s, s.workers[i])
  {
    hide Tally, Grouped, WorkerOk, Apart;
  }

  lemma {:induction false} AllOkUpdate(s: State, u: State, i: nat, w: Worker)
    requires AllOk(s) && i < |s.workers| && u.workers == s.workers[i := w]
    requires u.tasks == s.tasks && u.generation == s.generation && Taken(s) <= Taken(u) && WorkerOk(u, w)
    ensures AllOk(u)
  {
    hide Barriers, GroupStart;
  }

  lemma {:induction false} ApartUpdate(ws: seq<Worker>, i: nat, w: Worker)
    requires Apart(ws) && i < |ws|
    requires forall j: nat, p: nat | j < |ws| && j != i && Holds(w, p) :: !Holds(ws[j], p)
    ensures Apart(ws[i := w])
  {
    hide Holds;
  }

  // Going on with the entry already held, or with none.
  lemma {:induction false} ApartKept(ws: seq<Worker>, i: nat, w: Worker)
    requires Apart(ws) && i < |ws| && forall p: nat | Holds(w, p) :: Holds(ws[i], p)
    ensures Apart(ws[i := w])
  {
    forall j: nat, p: nat | j < |ws| && j != i && Holds(w, p)
      ensures !Holds(ws[j], p)
    {
    }
    ApartUpdate(ws, i, w);
  }

  // The next entry belongs to the group that the barrier is at; a task only
  // comes up when no worker holds a barrier entry.
  lemma {:induction false} NextEntry(s: State, i: nat)
    requires Inv(s) && s.pos < |s.tasks| && i < |s.workers| && s.workers[i].Ready?
    ensures Taken(s) == s.pos && s.pos + 1 <= |s.tasks|
    ensures InWindow(Barriers(s.tasks, s.pos), |s.workers|, s.generation)
    ensures s.tasks[s.pos].Task? ==> Barriers(s.tasks, s.pos) == GroupStart(|s.workers|, s.generation)
    ensures Barriers(s.tasks, s.pos + 1) == Barriers(s.tasks, s.pos) + if s.tasks[s.pos].BarrierWait? then 1 else 0
  {
    hide Count;
    var n, g := |s.workers|, s.generation;
    CountRoom(s.workers, AtBarrier(s.tasks, g), i);
    if s.tasks[s.pos].Task? {
      assert Whole(Barriers(s.tasks, s.pos), n);
      DivModUnique(Barriers(s.tasks, s.pos), n, g, Count(s.workers, AtBarrier(s.tasks, g)));
    }
  }

  // The counts after worker i has changed.
  lemma {:induction false} Recount(s: State, i: nat, w: Worker, g: nat)
    requires i < |s.workers|
    ensures var ws := s.workers[i := w];
            && Count(ws, AtEnd) + (if s.workers[i].Finished? then 1 else 0)
               == Count(s.workers, AtEnd) + (if w.Finished? then 1 else 0)
            && Count(ws, Asleep(g)) + (if Answers(Asleep(g), s.workers[i]) then 1 else 0)
               == Count(s.workers, Asleep(g)) + (if Answers(Asleep(g), w) then 1 else 0)
            && Count(ws, AtBarrier(s.tasks, g)) + (if Answers(AtBarrier(s.tasks, g), s.workers[i]) then 1 else 0)
               == Count(s.workers, AtBarrier(s.tasks, g)) + (if Answers(AtBarrier(s.tasks, g), w) then 1 else 0)
  {
    CountUpdate(s.workers, AtEnd, i, w);
    CountUpdate(s.workers, Asleep(g), i, w);
    CountUpdate(s.workers, AtBarrier(s.tasks, g), i, w);
    hide Count;
  }

  lemma {:induction false} FetchTally(s: State, i: nat)
    requires Inv(s) && i < |s.workers| && s.workers[i].Ready?
    ensures Tally(Step(s, i))
  {
    hide Count, Barriers, Grouped, GroupStart, AllOk, Apart;
    var w := Step(s, i).workers[i];
    Recount(s, i, w, s.generation);
    if s.pos < |s.tasks| {
      NextEntry(s, i);
    }
  }

  // Taking the next entry of the queue.
  lemma {:induction false} FetchKeepsInv(s: State, i: nat)
    requires Inv(s) && i < |s.workers| && s.workers[i].Ready?
    ensures Inv(Step(s, i))
  {
    hide Count, Barriers, Grouped, GroupStart, Tally, AllOk, Apart, InWindow;
    var u := Step(s, i);
    var w := u.workers[i];
    FetchTally(s, i);
    if s.pos < |s.tasks| {
      NextEntry(s, i);
      NotTakenYet(s);
    }
    AllOkUpdate(s, u, i, w);
    ApartUpdate(s.workers, i, w);
  }

  lemma {:induction false} NotTakenYet(s: State)
    requires AllOk(s)
    ensures forall j: nat | j < |s.workers| :: !Holds(s.workers[j], s.pos)
  {
    forall j: nat | j < |s.workers|
      ensures !Holds(s.workers[j], s.pos)
    {
      assert WorkerOk(s, s.workers[j]);
    }
    hide Barriers, GroupStart;
  }

  // Starting a task, finishing one, and arriving at a barrier that other
  // workers have yet to reach.
  ghost predicate Plain(s: State, i: nat) {
    && i < |s.workers|
    && match s.workers[i]
       case Fetched(p) => p < |s.tasks| && (s.tasks[p].Task? || s.counter > 1)
       case Running(p) => true
       case Waiting(p, g) => g != s.generation
       case _ => false
  }

  lemma {:induction false} PlainTally(s: State, i: nat)
    requires Inv(s) && Plain(s, i)
    ensures Tally(Step(s, i))
  {
    hide Count, Barriers, Grouped, GroupStart, AllOk, Apart;
    WorkerIs(s, i);
    Recount(s, i, Step(s, i).workers[i], s.generation);
  }

  lemma {:induction false} PlainKeepsInv(s: State, i: nat)
    requires Inv(s) && Plain(s, i)
    ensures Inv(Step(s, i))
  {
    hide Count, Barriers, Grouped, GroupStart, Tally, AllOk, Apart, InWindow;
    var u := Step(s, i);
    PlainTally(s, i);
    WorkerIs(s, i);
    AllOkUpdate(s, u, i, u.workers[i]);
    ApartKept(s.workers, i, u.workers[i]);
  }

  // When the last worker arrives, all others are waiting.
  lemma {:induction false} LastArrival(s: State, i: nat, j: nat)
    requires Inv(s) && i < |s.workers| && s.workers[i].Fetched? && s.counter == 1
    requires j < |s.workers| && i != j
    ensures s.workers[j].Waiting? && s.workers[j].generation == s.generation
  {
    CountAllButOne(s.workers, Asleep(s.generation), i, j);
    hide Count, Barriers, Grouped, GroupStart, AllOk, Apart;
  }

  // The last worker at a barrier arrives.
  ghost predicate Releases(s: State, i: nat) {
    && i < |s.workers| && s.workers[i].Fetched? && s.counter == 1
    && s.workers[i].p < |s.tasks| && s.tasks[s.workers[i].p].BarrierWait?
  }

  lemma {:induction false} OthersWait(s: State, i: nat)
    requires Inv(s) && Releases(s, i)
    ensures var ws := s.workers[i := Ready];
            forall j: nat | j < |ws| :: ws[j].Ready? || (ws[j].Waiting? && ws[j].generation == s.generation)
  {
    forall j: nat | j < |s.workers| && j != i
      ensures s.workers[j].Waiting? && s.workers[j].generation == s.generation
    {
      LastArrival(s, i, j);
    }
    hide Inv;
  }

  lemma {:induction false} ReleaseTally(s: State, i: nat)
    requires Inv(s) && Releases(s, i)
    ensures Tally(Step(s, i))
  {
    hide Count, Barriers, Grouped, GroupStart, AllOk, Apart;
    var n, g, ws := |s.workers|, s.generation, s.workers[i := Ready];
    OthersWait(s, i);
    CountNone(ws, Asleep(g + 1));
    CountNone(ws, AtBarrier(s.tasks, g + 1));
    Recount(s, i, Ready, g);
    AsleepAtBarrier(ws, s.tasks, g);
    CountRoom(ws, AtBarrier(s.tasks, g), i);
    GroupStartNext(n, g);
  }

  lemma {:induction false} ReleaseAllOk(s: State, i: nat)
    requires Inv(s) && Releases(s, i)
    ensures AllOk(Step(s, i))
  {
    hide Count, Barriers, Grouped, GroupStart, Tally, Apart, InWindow;
    var u := Step(s, i);
    OthersWait(s, i);
    forall j: nat | j < |u.workers|
      ensures WorkerOk(u, u.workers[j])
    {
      if j != i {
        assert WorkerOk(s, s.workers[j]);
      }
    }
  }

  // The last arrival starts the next generation.
  lemma {:induction false} ReleaseKeepsInv(s: State, i: nat)
    requires Inv(s) && Releases(s, i)
    ensures Inv(Step(s, i))
  {
    hide Count, Barriers, Grouped, GroupStart, Tally, AllOk, Apart, InWindow;
    ReleaseTally(s, i);
    ReleaseAllOk(s, i);
    ApartKept(s.workers, i, Ready);
  }

  // Every step of every worker keeps the invariant, in any order.
  lemma {:induction false} StepKeepsInv(s: State, i: nat)
    requires Inv(s) && i < |s.workers|
    ensures Inv(Step(s, i)) && Step(s, i).tasks == s.tasks && |Step(s, i).workers| == |s.workers|
  {
    hide Count, Barriers, Grouped, GroupStart, AllOk, Apart, InWindow;
    WorkerIs(s, i);
    if s.workers[i].Ready? {
      FetchKeepsInv(s, i);
    } else if Plain(s, i) {
      PlainKeepsInv(s, i);
    } else if Releases(s, i) {
      ReleaseKeepsInv(s, i);
    }
  }

  // ----- progress -----

  ghost predicate AllFinished(s: State) {
    forall i | 0 <= i < |s.workers| :: s.workers[i].Finished?
  }

  // When nobody can go on, everybody has come to an end.
  lemma {:induction false} StuckMeansFinished(s: State)
    requires Inv(s) && forall i: nat | i < |s.workers| :: !Enabled(s, i)
    ensures AllFinished(s)
  {
    hide Count, Barriers, GroupStart, Apart, WorkerOk;
    var n, g := |s.workers|, s.generation;
    if i: nat :| i < n && !s.workers[i].Finished? {
      assert !Enabled(s, i);
      if j: nat :| j < n && !(s.workers[j].Waiting? && s.workers[j].generation == g) {
        assert !Enabled(s, j);
        CountSome(s.workers, AtBarrier(s.tasks, g), i);
        CountRoom(s.workers, AtBarrier(s.tasks, g), j);
        CountSome(s.workers, AtEnd, j);
        GroupRemainder(Barriers(s.tasks, Taken(s)), n, g, Count(s.workers, AtBarrier(s.tasks, g)));
      } else {
        CountAll(s.workers, Asleep(g));
      }
    }
  }

  // No deadlock: while a worker has not come to an end, some worker can go on.
  lemma {:induction false} SomeoneCanGoOn(s: State)
    requires Inv(s) && !AllFinished(s)
    ensures exists i: nat | i < |s.workers| :: Enabled(s, i)
  {
    if forall i: nat | i < |s.workers| :: !Enabled(s, i) {
      StuckMeansFinished(s);
    }
    hide Inv, Enabled;
  }

  lemma GroupRemainder(b: nat, n: nat, g: nat, r: nat)
    requires n > 0 && r < n && b == GroupStart(n, g) + r
    ensures b % n == r
  {
    DivModUnique(b, n, g, r);
  }

  function Weight(w: Worker): nat {
    match w
    case Ready => 1
    case Fetched(_) => 3
    case Running(_) => 2
    case Waiting(_, _) => 2
    case Finished => 0
  }

  function Load(ws: seq<Worker>): nat {
    if ws == [] then 0 else Load(ws[..|ws| - 1]) + Weight(ws[|ws| - 1])
  }

  lemma {:induction false} LoadUpdate(ws: seq<Worker>, i: nat, w: Worker)
    requires i < |ws|
    ensures Load(ws[i := w]) + Weight(ws[i]) == Load(ws) + Weight(w)
  {
    hide Weight;
    var n := |ws| - 1;
    if i < n {
      LoadUpdate(ws[..n], i, w);
      assert ws[i := w][..n] == ws[..n][i := w];
    } else {
      assert ws[i := w][..n] == ws[..n];
    }
  }

  // What is left to do: queue entries to take and work of the workers.
  function Remaining(s: State): int {
    4 * (|s.tasks| + |s.workers| - s.pos) + Load(s.workers)
  }

  lemma {:induction false} RemainingBound(s: State)
    requires Inv(s)
    ensures Remaining(s) >= 0
  {
    hide Count, Barriers, GroupStart, Load, AllOk, Apart;
  }

  // Every step of a worker that can go on leaves less to do; all others
  // leave everything as it is.
  lemma {:induction false} StepMakesProgress(s: State, i: nat)
    requires Inv(s) && i < |s.workers|
    ensures Enabled(s, i) ==> Remaining(Step(s, i)) < Remaining(s)
    ensures !Enabled(s, i) ==> Step(s, i) == s && Emits(s, i) == []
  {
    LoadUpdate(s.workers, i, Step(s, i).workers[i]);
    hide Load, Inv;
  }

  // ----- what a run looks like -----

  function Starts(log: seq<Event>, p: nat): nat {
    if log == [] then 0
    else Starts(log[..|log| - 1], p) + if log[|log| - 1].Started? && log[|log| - 1].p == p then 1 else 0
  }

  function Completions(log: seq<Event>, p: nat): nat {
    if log == [] then 0
    else Completions(log[..|log| - 1], p) + if log[|log| - 1].Completed? && log[|log| - 1].p == p then 1 else 0
  }

  // Whatever comes before a barrier group is over, and every barrier entry
  // of the group is taken, before anything behind the group starts.
  ghost predicate Ordered(tasks: seq<Job>, n: nat, log: seq<Event>)
    requires n > 0
  {
    forall j, p: nat | 0 <= j < |log| && p < |tasks| && log[j].Started? && log[j].p < |tasks|
                       && Group(tasks, n, p) < Group(tasks, n, log[j].p) ::
      if tasks[p].Task? then Completions(log[..j], p) > 0 else Starts(log[..j], p) > 0
  }

  // The entries of a barrier group are taken by different workers.
  ghost predicate DistinctTakers(tasks: seq<Job>, n: nat, log: seq<Event>)
    requires n > 0
  {
    forall x, y | x in log && y in log && x.Started? && y.Started? && x.p != y.p
                  && x.p < |tasks| && y.p < |tasks|
                  && tasks[x.p].BarrierWait? && tasks[y.p].BarrierWait?
                  && Group(tasks, n, x.p) == Group(tasks, n, y.p) ::
      x.worker != y.worker
  }

  // Every entry of the queue is run once, by some worker.
  ghost predicate RunOnce(tasks: seq<Job>, n: nat, log: seq<Event>) {
    && (forall e | e in log :: e.worker < n && e.p < |tasks|)
    && forall p: nat | p < |tasks| :: Starts(log, p) == 1 && Completions(log, p) == 1
  }

  ghost predicate HeldBySome(ws: seq<Worker>, p: nat) {
    exists i | 0 <= i < |ws| :: Holds(ws[i], p)
  }

  ghost predicate FetchedBySome(ws: seq<Worker>, p: nat) {
    exists i | 0 <= i < |ws| :: ws[i] == Fetched(p)
  }

  // An entry has been started unless it is only fetched, and completed once
  // no worker holds it.
  ghost predicate Logged(s: State, log: seq<Event>, p: nat) {
    && Starts(log, p) == (if p < Taken(s) && !FetchedBySome(s.workers, p) then 1 else 0)
    && Completions(log, p) == (if p < Taken(s) && !HeldBySome(s.workers, p) then 1 else 0)
  }

  // Who has started a barrier entry of the current generation still waits there.
  ghost predicate StillWaiting(s: State, e: Event)
    requires e.worker < |s.workers| && e.p < |s.tasks|
  {
    e.Started? && s.tasks[e.p].BarrierWait? && GroupStart(|s.workers|, s.generation) <= Barriers(s.tasks, e.p)
    ==> s.workers[e.worker] == Waiting(e.p, s.generation)
  }

  ghost predicate InRange(s: State, log: seq<Event>) {
    forall e | e in log :: e.worker < |s.workers| && e.p < Taken(s)
  }

  ghost predicate LogOk(s: State, log: seq<Event>) {
    && |s.workers| > 0
    && InRange(s, log)
    && (forall p: nat :: Logged(s, log, p))
    && (forall e | e in log :: StillWaiting(s, e))
    && Ordered(s.tasks, |s.workers|, log)
    && DistinctTakers(s.tasks, |s.workers|, log)
  }

  lemma {:induction false} StartsEmit(log: seq<Event>, e: Event, p: nat)
    ensures Starts(log + [e], p) == Starts(log, p) + if e.Started? && e.p == p then 1 else 0
    ensures Completions(log + [e], p) == Completions(log, p) + if e.Completed? && e.p == p then 1 else 0
  {
    assert (log + [e])[..|log|] == log;
  }

  lemma {:induction false} HolderUpdate(ws: seq<Worker>, i: nat, w: Worker, p: nat)
    requires Apart(ws) && i < |ws|
    ensures HeldBySome(ws[i := w], p) <==> Holds(w, p) || (HeldBySome(ws, p) && !Holds(ws[i], p))
  {
    hide Holds;
    var us := ws[i := w];
    assert us[i] == w;
    if HeldBySome(ws, p) {
      var j :| 0 <= j < |ws| && Holds(ws[j], p);
      assert j != i ==> us[j] == ws[j];
    }
    if HeldBySome(us, p) {
      var j :| 0 <= j < |us| && Holds(us[j], p);
      assert j != i ==> us[j] == ws[j];
    }
  }

  lemma {:induction false} FetcherUpdate(ws: seq<Worker>, i: nat, w: Worker, p: nat)
    requires Apart(ws) && i < |ws|
    ensures FetchedBySome(ws[i := w], p) <==> w == Fetched(p) || (FetchedBySome(ws, p) && ws[i] != Fetched(p))
  {
    var us := ws[i := w];
    assert us[i] == w;
    if FetchedBySome(ws, p) {
      var j :| 0 <= j < |ws| && ws[j] == Fetched(p);
      assert j != i ==> us[j] == ws[j];
    }
    if FetchedBySome(us, p) {
      var j :| 0 <= j < |us| && us[j] == Fetched(p);
      assert j != i ==> us[j] == ws[j];
      assert ws[i] == Fetched(p) ==> Holds(ws[i], p);
      assert us[j] == ws[j] ==> Holds(ws[j], p);
    }
  }

  lemma WindowGroup(b: nat, n: nat, g: nat)
    requires n > 0 && InWindow(b, n, g)
    ensures b / n == g
  {
    DivModUnique(b, n, g, b - GroupStart(n, g));
  }

  lemma WindowsApart(b: nat, n: nat, g: nat)
    requires n > 0
    ensures b < GroupStart(n, g) <==> b / n < g
  {
    if b < GroupStart(n, g) {
      DivUpper(b, n, g);
    } else {
      DivLower(b, n, g);
    }
  }

  // The step and its events, as one worker update and at most two events.
  lemma {:induction false} LoggedStep(s: State, log: seq<Event>, i: nat, p: nat)
    requires Inv(s) && i < |s.workers| && Logged(s, log, p)
    ensures Logged(Step(s, i), log + Emits(s, i), p)
  {
    hide Starts, Completions, HeldBySome, FetchedBySome, Tally, Grouped, Barriers, GroupStart, InWindow, AllOk, Apart;
    WorkerIs(s, i);
    var w := Step(s, i).workers[i];
    HolderUpdate(s.workers, i, w, p);
    FetcherUpdate(s.workers, i, w, p);
    assert Holds(s.workers[i], p) ==> HeldBySome(s.workers, p) by { HolderExists(s.workers, i, p); }
    assert s.workers[i] == Fetched(p) ==> FetchedBySome(s.workers, p) by { HolderExists(s.workers, i, p); }
    NotTakenHolder(s, p);
    var es := Emits(s, i);
    if |es| == 0 {
      assert log + es == log;
    } else {
      StartsEmit(log, es[0], p);
      if |es| == 1 {
        assert log + es == log + [es[0]];
      } else {
        StartsEmit(log + [es[0]], es[1], p);
        assert log + es == log + [es[0]] + [es[1]];
      }
    }
  }

  lemma HolderExists(ws: seq<Worker>, i: nat, p: nat)
    requires i < |ws|
    ensures Holds(ws[i], p) ==> HeldBySome(ws, p)
    ensures ws[i] == Fetched(p) ==> FetchedBySome(ws, p)
  {
  }

  // Only taken entries are held.
  lemma {:induction false} NotTakenHolder(s: State, p: nat)
    requires AllOk(s)
    ensures HeldBySome(s.workers, p) || FetchedBySome(s.workers, p) ==> p < Taken(s)
  {
    if HeldBySome(s.workers, p) {
      var j :| 0 <= j < |s.workers| && Holds(s.workers[j], p);
      assert WorkerOk(s, s.workers[j]);
    }
    if FetchedBySome(s.workers, p) {
      var j :| 0 <= j < |s.workers| && s.workers[j] == Fetched(p);
      assert WorkerOk(s, s.workers[j]);
    }
    hide Barriers, GroupStart;
  }

  // Entries of earlier groups are not in anybody's hands any more.
  lemma {:induction false} EarlierGroups(s: State, i: nat, p: nat)
    requires Inv(s) && i < |s.workers| && s.workers[i].Fetched? && p < |s.tasks|
    requires s.workers[i].p < |s.tasks|
    requires Group(s.tasks, |s.workers|, p) < Group(s.tasks, |s.workers|, s.workers[i].p)
    ensures p < Taken(s) && !FetchedBySome(s.workers, p)
    ensures s.tasks[p].Task? ==> !HeldBySome(s.workers, p)
  {
    hide Tally, Grouped, Apart;
    var n, g, q := |s.workers|, s.generation, s.workers[i].p;
    WorkerIs(s, i);
    WindowGroup(Barriers(s.tasks, q), n, g);
    WindowsApart(Barriers(s.tasks, p), n, g);
    if q <= p {
      BarriersMono(s.tasks, q, p);
    }
    forall j | 0 <= j < n && Holds(s.workers[j], p)
      ensures s.workers[j].Waiting? && s.tasks[p].BarrierWait?
    {
      assert WorkerOk(s, s.workers[j]);
    }
    hide Barriers, GroupStart;
  }

  lemma {:induction false} OrderedEmit(tasks: seq<Job>, n: nat, log: seq<Event>, e: Event)
    requires n > 0 && Ordered(tasks, n, log)
    requires e.Started? && e.p < |tasks| ==>
               forall p: nat | p < |tasks| && Group(tasks, n, p) < Group(tasks, n, e.p) ::
                 if tasks[p].Task? then Completions(log, p) > 0 else Starts(log, p) > 0
    ensures Ordered(tasks, n, log + [e])
  {
    var all := log + [e];
    forall j: nat, p: nat | j < |all| && p < |tasks| && all[j].Started? && all[j].p < |tasks|
                            && Group(tasks, n, p) < Group(tasks, n, all[j].p)
      ensures if tasks[p].Task? then Completions(all[..j], p) > 0 else Starts(all[..j], p) > 0
    {
      if j < |log| {
        assert all[..j] == log[..j] && all[j] == log[j];
      } else {
        assert all[..j] == log;
      }
    }
    hide Group, Starts, Completions;
  }

  // Starting the entry just fetched respects the order.
  lemma {:induction false} OrderedStart(s: State, log: seq<Event>, i: nat, p: nat)
    requires Inv(s) && LogOk(s, log) && i < |s.workers| && s.workers[i].Fetched? && p < |s.tasks|
    requires s.workers[i].p < |s.tasks|
    requires Group(s.tasks, |s.workers|, p) < Group(s.tasks, |s.workers|, s.workers[i].p)
    ensures if s.tasks[p].Task? then Completions(log, p) > 0 else Starts(log, p) > 0
  {
    EarlierGroups(s, i, p);
    assert Logged(s, log, p);
    hide Inv, Group, Starts, Completions, FetchedBySome, HeldBySome, Ordered, DistinctTakers, StillWaiting;
  }

  lemma {:induction false} OrderedStep(s: State, log: seq<Event>, i: nat)
    requires Inv(s) && LogOk(s, log) && i < |s.workers|
    ensures Ordered(s.tasks, |s.workers|, log + Emits(s, i))
  {
    hide Logged, StillWaiting, DistinctTakers, Ordered, Inv, Starts, Completions, Group;
    WorkerIs(s, i);
    if s.workers[i].Fetched? {
      forall p: nat | p < |s.tasks| && Group(s.tasks, |s.workers|, p) < Group(s.tasks, |s.workers|, s.workers[i].p)
        ensures if s.tasks[p].Task? then Completions(log, p) > 0 else Starts(log, p) > 0
      {
        OrderedStart(s, log, i, p);
      }
    }
    var es := Emits(s, i);
    if |es| == 0 {
      assert log + es == log;
    } else {
      OrderedEmit(s.tasks, |s.workers|, log, es[0]);
      if |es| == 1 {
        assert log + es == log + [es[0]];
      } else {
        OrderedEmit(s.tasks, |s.workers|, log + [es[0]], es[1]);
        assert log + es == log + [es[0]] + [es[1]];
      }
    }
  }

  // Nobody who still waits at the barrier has just fetched another entry of it.
  lemma {:induction false} TakersStep(s: State, log: seq<Event>, i: nat)
    requires Inv(s) && LogOk(s, log) && i < |s.workers|
    ensures DistinctTakers(s.tasks, |s.workers|, log + Emits(s, i))
  {
    var n := |s.workers|;
    WorkerIs(s, i);
    if s.workers[i].Fetched? && s.tasks[s.workers[i].p].BarrierWait? {
      var q := s.workers[i].p;
      WindowGroup(Barriers(s.tasks, q), n, s.generation);
      forall x | x in log && x.Started? && x.p < |s.tasks| && s.tasks[x.p].BarrierWait?
                 && Group(s.tasks, n, x.p) == Group(s.tasks, n, q)
        ensures x.worker != i
      {
        WindowsApart(Barriers(s.tasks, x.p), n, s.generation);
        assert StillWaiting(s, x);
      }
    }
    hide Logged, StillWaiting, Ordered, Inv, Starts, Completions, Barriers, GroupStart, InRange;
  }

  lemma {:induction false} StillWaitingStep(s: State, log: seq<Event>, i: nat, e: Event)
    requires Inv(s) && i < |s.workers| && e.worker < |s.workers| && e.p < Taken(s)
    requires StillWaiting(s, e) || e in Emits(s, i)
    requires e in Emits(s, i) ==> e.worker == i && e.p == s.workers[i].p
    ensures StillWaiting(Step(s, i), e)
  {
    hide Barriers, GroupStart, Inv, InWindow;
    WorkerIs(s, i);
    InvCounter(s);
    if Releases(s, i) && s.tasks[e.p].BarrierWait? {
      BeforeRelease(s, i, e.p);
    }
  }

  // At a release every entry taken so far is in a group that is over.
  lemma {:induction false} BeforeRelease(s: State, i: nat, p: nat)
    requires Inv(s) && Releases(s, i) && p < Taken(s) && s.tasks[p].BarrierWait?
    ensures Barriers(s.tasks, p) < GroupStart(|s.workers|, s.generation + 1)
  {
    hide Barriers, GroupStart, Count, AllOk, Apart, Grouped;
    BarriersMono(s.tasks, p + 1, Taken(s));
    BarriersNext(s.tasks, p);
    GroupStartNext(|s.workers|, s.generation);
  }

  lemma BarriersNext(tasks: seq<Job>, m: nat)
    requires m < |tasks|
    ensures Barriers(tasks, m + 1) == Barriers(tasks, m) + if tasks[m].BarrierWait? then 1 else 0
  {
  }

  lemma InvCounter(s: State)
    requires Inv(s)
    ensures s.counter >= 1
  {
    hide Count, Barriers, GroupStart, AllOk, Apart, Grouped;
  }

  // The events tell the story of every interleaving.
  lemma {:induction false} StepKeepsLog(s: State, log: seq<Event>, i: nat)
    requires Inv(s) && LogOk(s, log) && i < |s.workers|
    ensures LogOk(Step(s, i), log + Emits(s, i))
  {
    hide Logged, StillWaiting, DistinctTakers, Ordered, Inv;
    StepKeepsInv(s, i);
    OrderedStep(s, log, i);
    TakersStep(s, log, i);
    WorkerIs(s, i);
    forall p: nat
      ensures Logged(Step(s, i), log + Emits(s, i), p)
    {
      LoggedStep(s, log, i, p);
    }
    forall e | e in log + Emits(s, i)
      ensures e.worker < |s.workers| && e.p < Taken(s) && Taken(s) <= Taken(Step(s, i)) && StillWaiting(Step(s, i), e)
    {
      StillWaitingStep(s, log, i, e);
    }
  }

  lemma {:induction false} StartLog(tasks: seq<Job>, n: nat)
    requires n > 0
    ensures LogOk(Start(tasks, n), [])
  {
  }

  // When all workers have come to an end, everything has been run once.
  lemma {:induction false} FinishedLog(s: State, log: seq<Event>)
    requires Inv(s) && LogOk(s, log) && AllFinished(s)
    ensures RunOnce(s.tasks, |s.workers|, log)
    ensures Ordered(s.tasks, |s.workers|, log) && DistinctTakers(s.tasks, |s.workers|, log)
  {
    CountAll(s.workers, AtEnd);
    forall p: nat | p < |s.tasks|
      ensures Starts(log, p) == 1 && Completions(log, p) == 1
    {
      assert Logged(s, log, p);
    }
    hide Count, Starts, Completions, Barriers, GroupStart, AllOk, Apart, Ordered, DistinctTakers, StillWaiting, Grouped;
  }

  // ----- building the queue -----

  lemma {:induction false} AddTaskGrouped(tasks: seq<Job>, n: nat, id: nat)
    requires n > 0 && Grouped(tasks, n)
    ensures Grouped(tasks + [Task(id)], n)
  {
    var more := tasks + [Task(id)];
    forall p | 0 <= p <= |tasks|
      ensures Barriers(more, p) == Barriers(tasks, p)
    {
      BarriersAppend(tasks, [Task(id)], p);
    }
    hide Barriers, Whole;
    BarriersNext(more, |tasks|);
  }

  function BarrierGroup(n: nat): (g: seq<Job>)
    ensures |g| == n
  {
    seq(n, i => BarrierWait)
  }

  lemma {:induction false} AddBarrierGrouped(tasks: seq<Job>, n: nat)
    requires n > 0 && Grouped(tasks, n)
    ensures Grouped(tasks + BarrierGroup(n), n)
  {
    var more := tasks + BarrierGroup(n);
    forall p | 0 <= p <= |tasks|
      ensures Barriers(more, p) == Barriers(tasks, p)
    {
      BarriersAppend(tasks, BarrierGroup(n), p);
    }
    AllBarriers(more, |tasks|, n);
    AddMulDiv(Barriers(tasks, |tasks|), 1, n);
    assert Whole(Barriers(more, |more|), n);
    hide Barriers, Whole;
  }

  // ----- the classes -----

  // A generation-counting barrier. Waiting is two atomic steps under the
  // lock: arriving, and leaving once the generation has changed.
  class Barrier {
    const nThreads: nat
    var counter: nat
    var generation: nat

    constructor (n: nat)
      ensures nThreads == n && counter == n && generation == 0
    {
      nThreads, counter, generation := n, n, 0;
    }

    // The last to arrive starts the next generation and does not sleep.
    method Arrive() returns (lastGeneration: nat, sleeps: bool)
      requires counter > 0
      modifies this
      ensures lastGeneration == old(generation) && sleeps == (old(counter) > 1)
      ensures counter == if sleeps then old(counter) - 1 else nThreads
      ensures generation == if sleeps then old(generation) else old(generation) + 1
    {
      lastGeneration := generation;
      counter := counter - 1;
      sleeps := counter != 0;
      if !sleeps {
        generation := generation + 1;
        counter := nThreads;
      }
    }

    predicate MayLeave(lastGeneration: nat)
      reads this`generation
    {
      lastGeneration != generation
    }

    method Reset()
      modifies this
      ensures counter == nThreads && generation == 0
    {
      generation := 0;
      counter := nThreads;
    }
  }

  class TaskQueue {
    const nThreads: nat
    const barrier: Barrier
    var tasks: seq<Job>
    var pos: nat
    var workers: seq<Worker>

    ghost predicate Valid()
      reads this, barrier
    {
      && barrier.nThreads == nThreads && barrier.counter == nThreads && barrier.generation == 0
      && pos == 0 && workers == []
      && (nThreads > 0 ==> Grouped(tasks, nThreads))
    }

    // The shared state while tasks are executed.
    function Snapshot(): State
      reads this, barrier
    {
      State(tasks, pos, barrier.counter, barrier.generation, workers)
    }

    constructor (n: nat)
      ensures Valid() && nThreads == n && tasks == [] && fresh(barrier)
    {
      nThreads := n;
      barrier := new Barrier(n);
      tasks, pos, workers := [], 0, [];
    }

    method AddTask(id: nat)
      requires Valid()
      modifies this`tasks
      ensures Valid() && tasks == old(tasks) + [Task(id)]
    {
      if nThreads > 0 {
        AddTaskGrouped(tasks, nThreads, id);
      }
      tasks := tasks + [Task(id)];
    }

    // One barrier entry for each worker thread.
    method AddBarrier()
      requires Valid()
      modifies this`tasks
      ensures Valid() && tasks == old(tasks) + BarrierGroup(nThreads)
    {
      if nThreads > 0 {
        AddBarrierGrouped(tasks, nThreads);
      }
      ghost var before := tasks;
      for i := 0 to nThreads
        invariant tasks == before + BarrierGroup(nThreads)[..i]
      {
        tasks := tasks + [BarrierWait];
      }
      assert BarrierGroup(nThreads)[..nThreads] == BarrierGroup(nThreads);
    }

    // One atomic step of one worker thread.
    method StepWorker(i: nat) returns (events: seq<Event>)
      requires Inv(Snapshot()) && i < |workers| && |workers| == barrier.nThreads
      modifies this`pos, this`workers, barrier
      ensures Snapshot() == Step(old(Snapshot()), i)
      ensures events == Emits(old(Snapshot()), i)
    {
      WorkerIs(Snapshot(), i);
      InvCounter(Snapshot());
      hide Inv, Barriers, GroupStart, InWindow;
      events := [];
      match workers[i]
      case Ready =>
        var p := pos;
        pos := pos + 1;
        workers := workers[i := if p >= |tasks| then Finished else Fetched(p)];
      case Fetched(p) =>
        events := [Started(i, p)];
        match tasks[p] {
          case Task(_) => workers := workers[i := Running(p)];
          case BarrierWait =>
            var lastGeneration, sleeps := barrier.Arrive();
            if sleeps {
              workers := workers[i := Waiting(p, lastGeneration)];
            } else {
              workers := workers[i := Ready];
              events := events + [Completed(i, p)];
            }
        }
      case Running(p) =>
        workers := workers[i := Ready];
        events := [Completed(i, p)];
      case Waiting(p, lastGeneration) =>
        if barrier.MayLeave(lastGeneration) {
          workers := workers[i := Ready];
          events := [Completed(i, p)];
        }
      case Finished =>
    }

    // Runs all entries on all worker threads, interleaved in any way at all,
    // until every thread has come to an end; then the queue is empty again.
    // Without threads nothing is run.
    method ExecuteTasks() returns (ghost log: seq<Event>)
      requires Valid()
      modifies this`tasks, this`pos, this`workers, barrier
      ensures Valid() && tasks == []
      ensures nThreads == 0 ==> log == []
      ensures nThreads > 0 ==>
                && RunOnce(old(tasks), nThreads, log)
                && Ordered(old(tasks), nThreads, log)
                && DistinctTakers(old(tasks), nThreads, log)
    {
      workers := seq(nThreads, i => Ready);
      log := [];
      if nThreads > 0 {
        ghost var queue := tasks;
        StartInv(tasks, nThreads);
        StartLog(tasks, nThreads);
        RemainingBound(Snapshot());
        hide Inv, LogOk, Remaining, RunOnce, Ordered, DistinctTakers, Grouped, Step, Emits;
        while exists i: nat :: i < |workers| && !workers[i].Finished?
          invariant |workers| == nThreads == barrier.nThreads && tasks == queue
          invariant Inv(Snapshot()) && LogOk(Snapshot(), log) && Remaining(Snapshot()) >= 0
          decreases Remaining(Snapshot())
        {
          ghost var s := Snapshot();
          SomeoneCanGoOn(s);
          var i: nat :| i < |workers| && Enabled(Snapshot(), i);
          StepMakesProgress(s, i);
          StepKeepsInv(s, i);
          StepKeepsLog(s, log, i);
          RemainingBound(Step(s, i));
          var events := StepWorker(i);
          log := log + events;
        }
        FinishedLog(Snapshot(), log);
      }
      Reset();
    }

    method Reset()
      requires barrier.nThreads == nThreads
      modifies this`tasks, this`pos, this`workers, barrier
      ensures Valid() && tasks == []
    {
      tasks := [];
      barrier.Reset();
      workers := [];
      pos := 0;
    }
  }
}

/** The pool always finishes. */
module ThreadPoolTermination {

  // Every run with finitely many spurious wake-ups is finite and finishes every batch.

  import opened Vocabulary
  import opened Sums
  import opened ThreadPool
  import opened ThreadPoolProgress

  // ---- Work left ------------------------------------------------------------------------------------

  function WorkerWork(): Worker -> nat {
    (x: Worker) =>
      match x
      case Awake => 1
      case Asleep => 0
      case Holding(_) => 7
      case Ran(_) => 6
      case Notifying(_) => 5
      case Exited => 0
  }

  function StageWork(p: Producer): nat {
    match p
    case Idle => 6
    case Pushing(_) => 5
    case Full(_) => 4
    case Arriving => 3
    case Checking => 2
    case Committed => 1
    case Waiting => 0
    case Done => 0
  }

  function ProducerWork(c: Config, p: Producer, b: nat): nat
    requires b < |c.texts|
  {
    StageWork(p) + 11 * if Unpushed(c, p, b) >= 0 then Unpushed(c, p, b) else 0
  }

  function ProducersWork(c: Config, ps: seq<Producer>, n: nat): nat
    requires n <= |ps| && n <= |c.texts|
  {
    if n == 0 then 0 else ProducersWork(c, ps, n - 1) + ProducerWork(c, ps[n - 1], n - 1)
  }

  function ShutdownWork(s: Pool): nat {
    if s.shutdown then 0 else |s.workers| + 1
  }

  /** An upper bound on the steps still to come. */
  ghost function Work(c: Config, s: Pool): nat
    requires Sizes(c, s)
  {
    9 * |s.queue| + Sum(s.workers, WorkerWork()) + ProducersWork(c, s.producers, |c.texts|) + ShutdownWork(s)
  }

  lemma {:induction false} ProducersUpdate(c: Config, ps: seq<Producer>, b: nat, p: Producer, n: nat)
    requires b < |ps| && n <= |ps| && n <= |c.texts|
    ensures b < n ==> ProducersWork(c, ps[b := p], n) + ProducerWork(c, ps[b], b) ==
                      ProducersWork(c, ps, n) + ProducerWork(c, p, b)
    ensures b >= n ==> ProducersWork(c, ps[b := p], n) == ProducersWork(c, ps, n)
  {
    if n > 0 {
      ProducersUpdate(c, ps, b, p, n - 1);
    }
  }

  lemma {:induction false} WakeAllWork(ws: seq<Worker>)
    ensures Sum(WakeAll(ws), WorkerWork()) <= Sum(ws, WorkerWork()) + |ws|
  {
    if ws != [] {
      WakeAllWork(ws[..|ws| - 1]);
      assert WakeAll(ws)[..|ws| - 1] == WakeAll(ws[..|ws| - 1]);
    }
  }

  // ---- Every step but a spurious one uses some up ----------------------------------------------------

  lemma WorkerStepWork(c: Config, s: Pool, w: nat, x: Worker)
    requires Sizes(c, s) && w < |s.workers|
    ensures Work(c, SetWorker(s, w, x)) + WorkerWork()(s.workers[w]) == Work(c, s) + WorkerWork()(x)
  {
    SumUpdate(s.workers, w, x, WorkerWork());
  }

  lemma ProducerStepWork(c: Config, s: Pool, b: nat, p: Producer)
    requires Sizes(c, s) && b < |c.texts|
    ensures Work(c, SetProducer(s, b, p)) + ProducerWork(c, s.producers[b], b) == Work(c, s) + ProducerWork(c, p, b)
  {
    ProducersUpdate(c, s.producers, b, p, |c.texts|);
  }

  lemma QueueWork(c: Config, s: Pool, q: seq<Item>)
    requires Sizes(c, s) && |q| <= c.capacity
    ensures Work(c, s.(queue := q)) + 9 * |s.queue| == Work(c, s) + 9 * |q|
  {
  }

  lemma PushWork(c: Config, s: Pool, b: nat, k: Option<nat>)
    requires Sizes(c, s) && Enabled(c, s, Push(b, k)) && StageOk(c, s, b)
    ensures Sizes(c, AfterPush(c, s, b, k)) && Work(c, AfterPush(c, s, b, k)) < Work(c, s)
  {
    var i := s.producers[b].next;
    var s1 := SetProducer(s, b, StageAt(c, b, i + 1));
    var s2 := s1.(queue := s.queue + [Item(b, i, TextAt(c, b, i))]);
    ProducerStepWork(c, s, b, StageAt(c, b, i + 1));
    QueueWork(c, s1, s2.queue);
    if k.Some? { WorkerStepWork(c, s2, k.value, Awake); }
    hide Work, StageOk;
  }

  lemma TakeWork(c: Config, s: Pool, w: nat, k: Option<nat>)
    requires Sizes(c, s) && Enabled(c, s, Take(w, k))
    ensures Sizes(c, AfterTake(s, w, k)) && Work(c, AfterTake(s, w, k)) < Work(c, s)
  {
    var s1 := SetWorker(s, w, Holding(s.queue[0]));
    var s2 := s1.(queue := s.queue[1..]);
    WorkerStepWork(c, s, w, Holding(s.queue[0]));
    QueueWork(c, s1, s.queue[1..]);
    if k.Some? { ProducerStepWork(c, s2, k.value, Pushing(s.producers[k.value].next)); }
    hide Work;
  }

  lemma LogWork(c: Config, s: Pool, outputs: map<(nat, nat), Output>, log: seq<Item>)
    requires Sizes(c, s)
    ensures Work(c, s.(outputs := outputs, log := log)) == Work(c, s)
  {
  }

  lemma ExecuteWork(c: Config, s: Pool, w: nat)
    requires Sizes(c, s) && Enabled(c, s, Execute(w))
    ensures Sizes(c, AfterExecute(c, s, w)) && Work(c, AfterExecute(c, s, w)) < Work(c, s)
  {
    var s1, s2 := SetWorker(s, w, Ran(s.workers[w].item)), AfterExecute(c, s, w);
    WorkerStepWork(c, s, w, Ran(s.workers[w].item));
    LogWork(c, s1, s2.outputs, s2.log);
  }

  lemma DecrementWork(c: Config, s: Pool, w: nat)
    requires Sizes(c, s) && Enabled(c, s, Decrement(w))
    ensures Sizes(c, AfterDecrement(s, w)) && Work(c, AfterDecrement(s, w)) < Work(c, s)
  {
    WorkerStepWork(c, s, w, AfterDecrement(s, w).workers[w]);
    assert AfterDecrement(s, w).workers == SetWorker(s, w, AfterDecrement(s, w).workers[w]).workers;
  }

  lemma SignalWork(c: Config, s: Pool, w: nat)
    requires Sizes(c, s) && Enabled(c, s, Signal(w))
    ensures Sizes(c, AfterSignal(s, w)) && Work(c, AfterSignal(s, w)) < Work(c, s)
  {
    var b, s1 := s.workers[w].batch, SetWorker(s, w, Awake);
    WorkerStepWork(c, s, w, Awake);
    if ProducerIs(s, b, Waiting) { ProducerStepWork(c, s1, b, Arriving); }
    hide Work;
  }

  lemma ShutdownStepWork(c: Config, s: Pool)
    requires Sizes(c, s) && !s.shutdown
    ensures Sizes(c, AfterShutdown(s)) && Work(c, AfterShutdown(s)) < Work(c, s)
  {
    WakeAllWork(s.workers);
  }

  lemma OneThreadWork(c: Config, s: Pool, e: Event)
    requires Sizes(c, s) && Enabled(c, s, e)
    ensures OnlyWorker(e) ==>
              WorkerWork()(WorkerAfter(e)) + 1 <= WorkerWork()(s.workers[e.w]) + if Spurious(e) then 4 else 0
    ensures OnlyProducer(e) ==>
              ProducerWork(c, ProducerAfter(c, s, e), e.b) + 1 <=
              ProducerWork(c, s.producers[e.b], e.b) + if Spurious(e) then 4 else 0
  {
  }

  /** Every step uses up some work; a spurious wake-up adds at most three. */
  lemma StepWork(c: Config, s: Pool, e: Event)
    requires Inv(c, s) && Enabled(c, s, e)
    ensures Sizes(c, Next(c, s, e))
    ensures Work(c, Next(c, s, e)) + 1 <= Work(c, s) + if Spurious(e) then 4 else 0
  {
    InvParts(c, s);
    NextIs(c, s, e);
    NextSizes(c, s, e);
    EnabledIn(c, s, e);
    OneThreadWork(c, s, e);
    hide Inv, Next, Work, Enabled, ProducerAfter, ProducerWork, WorkerAfter, WorkerWork, StageOk;
    hide AfterPush, AfterTake, AfterExecute, AfterDecrement, AfterSignal, AfterShutdown;
    if e.Push? {
      PushWork(c, s, e.b, e.wakeWorker);
    } else if e.Take? {
      TakeWork(c, s, e.w, e.wakeProducer);
    } else if e.Execute? {
      ExecuteWork(c, s, e.w);
    } else if e.Decrement? {
      DecrementWork(c, s, e.w);
    } else if e.Signal? {
      SignalWork(c, s, e.w);
    } else if e.Shutdown? {
      ShutdownStepWork(c, s);
    } else if OnlyWorker(e) {
      WorkerStepWork(c, s, e.w, WorkerAfter(e));
    } else {
      ProducerStepWork(c, s, e.b, ProducerAfter(c, s, e));
    }
  }

  function SpuriousCount(events: seq<Event>): (n: nat)
  {
    if events == [] then 0 else (if Spurious(events[0]) then 1 else 0) + SpuriousCount(events[1..])
  }

  /** A run has no more steps than there was work, but for four more per spurious wake-up. */
  lemma {:induction false} RunsAreFinite(c: Config, s: Pool, events: seq<Event>, s': Pool)
    requires Inv(c, s) && Runs(c, s, events, s')
    ensures Sizes(c, s') && |events| + Work(c, s') <= Work(c, s) + 4 * SpuriousCount(events)
    decreases |events|
  {
    if events != [] {
      StepWork(c, s, events[0]);
      InvKept(c, s, events[0]);
      RunsAreFinite(c, Next(c, s, events[0]), events[1..], s');
    }
  }

  /** Every batch that was started is finished, and every slot of a finished batch holds the
      result for its own text. */
  ghost predicate Complete(c: Config, s: Pool) {
    && AllFinished(s)
    && forall b: nat, i: nat :: b < |c.texts| && i < |c.texts[b]| && ProducerIs(s, b, Done) ==> HasResult(c, s, b, i)
  }

  predicate HasResult(c: Config, s: Pool, b: nat, i: nat)
    requires b < |c.texts| && i < |c.texts[b]|
  {
    (b, i) in s.outputs && s.outputs[(b, i)] == c.run(b, c.texts[b][i])
  }

  /** Whatever the interleaving, and wherever it stops because no thread can move: the run
      was bounded in advance, every batch that was started is finished and every slot of it
      holds the right result. */
  lemma EveryRunCompletes(c: Config, s0: Pool, events: seq<Event>, s: Pool)
    requires Initial(c, s0) && c.capacity > 0 && s0.workers != []
    requires Runs(c, s0, events, s) && Stuck(c, s)
    ensures Sizes(c, s0) && |events| <= Work(c, s0) + 4 * SpuriousCount(events)
    ensures Complete(c, s)
  {
    InitialInv(c, s0);
    RunsAreFinite(c, s0, events, s);
    RunsInv(c, s0, events, s);
    assert Reachable(c, s);
    hide Initial, Inv, Runs, Reachable, Stuck, Work, Enabled, AllFinished;
    NoBatchIsStuck(c, s);
    forall b: nat, i: nat | b < |c.texts| && i < |c.texts[b]| && ProducerIs(s, b, Done) ensures HasResult(c, s, b, i) {
      FinishedBatchIsComplete(c, s, b);
    }
  }

  // ---- Such runs exist ---------------------------------------------------------------------------------

  /** A batch that was started stays started. */
  lemma StartedStays(c: Config, s: Pool, e: Event, b: nat)
    requires Sizes(c, s) && Enabled(c, s, e) && b < |s.producers| && !s.producers[b].Idle?
    ensures b < |Next(c, s, e).producers| && !Next(c, s, e).producers[b].Idle?
  {
    NextIs(c, s, e);
  }

  ghost predicate AllInside(events: seq<Event>) {
    forall k :: 0 <= k < |events| ==> !Spurious(events[k]) && !FromOutside(events[k])
  }

  lemma OwnStep(c: Config, s: Pool) returns (e: Event)
    requires !Stuck(c, s)
    ensures Enabled(c, s, e) && !Spurious(e) && !FromOutside(e)
  {
    hide Enabled;
    e :| Enabled(c, s, e) && !Spurious(e) && !FromOutside(e);
  }

  /** From any state of the invariant the pool's own steps lead to one where none is left, and
      every batch that was started is finished there. */
  lemma {:induction false} CanFinish(c: Config, s: Pool) returns (events: seq<Event>, s': Pool)
    requires Inv(c, s) && c.capacity > 0 && s.workers != []
    ensures Runs(c, s, events, s') && AllInside(events) && Inv(c, s') && Stuck(c, s')
    ensures forall b: nat :: b < |s.producers| && !s.producers[b].Idle? ==> ProducerIs(s', b, Done)
    decreases Work(c, s)
  {
    hide Inv, Stuck, Next, Work, Enabled;
    if Stuck(c, s) {
      StuckAllFinished(c, s);
      InvParts(c, s);
      events, s' := [], s;
    } else {
      var e := OwnStep(c, s);
      InvParts(c, s);
      StepWork(c, s, e);
      InvKept(c, s, e);
      NextSizes(c, s, e);
      var rest: seq<Event>;
      rest, s' := CanFinish(c, Next(c, s, e));
      events := [e] + rest;
      assert events[1..] == rest;
      forall b: nat | b < |s.producers| && !s.producers[b].Idle? ensures ProducerIs(s', b, Done) {
        StartedStays(c, s, e, b);
      }
    }
  }

  lemma {:induction false} RunsConcat(c: Config, s: Pool, first: seq<Event>, s1: Pool, second: seq<Event>, s2: Pool)
    requires Sizes(c, s) && Runs(c, s, first, s1)
    requires Sizes(c, s1) && Runs(c, s1, second, s2)
    ensures Runs(c, s, first + second, s2)
    decreases |first|
  {
    if first == [] {
      assert first + second == second;
    } else {
      NextSizes(c, s, first[0]);
      RunsConcat(c, Next(c, s, first[0]), first[1..], s1, second, s2);
      assert (first + second)[1..] == first[1..] + second;
    }
  }

  /** Starts the first n batches. */
  lemma {:induction false} CanStart(c: Config, s0: Pool, n: nat) returns (events: seq<Event>, s: Pool)
    requires Initial(c, s0) && n <= |c.texts|
    ensures Sizes(c, s0) && Runs(c, s0, events, s) && Sizes(c, s) && !s.shutdown && s.workers == s0.workers
    ensures forall b: nat :: b < |c.texts| ==> (s.producers[b].Idle? <==> n <= b)
    decreases n
  {
    if n == 0 {
      events, s := [], s0;
    } else {
      var s1: Pool;
      events, s1 := CanStart(c, s0, n - 1);
      NextSizes(c, s1, Start(n - 1));
      s := Next(c, s1, Start(n - 1));
      assert Runs(c, s, [], s);
      assert [Start(n - 1)][1..] == [];
      assert Runs(c, s1, [Start(n - 1)], s);
      RunsConcat(c, s0, events, s1, [Start(n - 1)], s);
      events := events + [Start(n - 1)];
    }
  }

  /** For all texts and any number of workers there is a run that starts every batch and
      finishes every batch, with the right result in every slot. */
  lemma SomeRunFinishesAll(c: Config, s0: Pool) returns (events: seq<Event>, s: Pool)
    requires Initial(c, s0) && c.capacity > 0 && s0.workers != []
    ensures Sizes(c, s0) && Runs(c, s0, events, s) && Stuck(c, s)
    ensures forall b: nat :: b < |c.texts| ==> ProducerIs(s, b, Done)
    ensures forall b: nat, i: nat :: b < |c.texts| && i < |c.texts[b]| ==> HasResult(c, s, b, i)
  {
    InitialInv(c, s0);
    var first, s1 := CanStart(c, s0, |c.texts|);
    RunsInv(c, s0, first, s1);
    var second, s2 := CanFinish(c, s1);
    InvParts(c, s2);
    RunsConcat(c, s0, first, s1, second, s2);
    events, s := first + second, s2;
    hide Inv, Stuck, Enabled, Next, Work;
    EveryRunCompletes(c, s0, events, s);
  }
}

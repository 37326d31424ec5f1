/** The pool in every interleaving. */
module ThreadPoolProgress {

  // The invariant, what a finished wait means, and why no unfinished batch is ever stuck.

  import opened Vocabulary
  import opened Sums
  import opened ThreadPool

  // ---- Wake-ups -------------------------------------------------------------------------------------

  lemma ActiveIs(s: Pool, w: nat)
    requires Active(s, w)
    ensures QueueWatched(s)
  {
  }

  lemma WatchedAfterPush(c: Config, s: Pool, b: nat, k: Option<nat>)
    requires Sizes(c, s) && Enabled(c, s, Push(b, k)) && ShutdownOk(s)
    ensures QueueWatched(AfterPush(c, s, b, k))
  {
    var s' := AfterPush(c, s, b, k);
    match k
    case Some(w) =>
      assert Active(s', w);
    case None =>
      if s.workers != [] {
        assert !WorkerIs(s, 0, Asleep) && !WorkerIs(s, 0, Exited);
        assert Active(s', 0);
      }
  }

  lemma WatchedAfterWorkers(s: Pool, s': Pool)
    requires QueueWatched(s) && s'.queue == s.queue && |s'.workers| == |s.workers|
    requires forall w: nat :: Active(s, w) ==> Active(s', w)
    ensures QueueWatched(s')
  {
  }

  lemma WatchedKept(c: Config, s: Pool, e: Event)
    requires Sizes(c, s) && Enabled(c, s, e) && QueueWatched(s) && ShutdownOk(s)
    ensures QueueWatched(Next(c, s, e))
  {
    NextIs(c, s, e);
    var s' := Next(c, s, e);
    hide Next, QueueWatched, ShutdownOk;
    if e.Push? {
      WatchedAfterPush(c, s, e.b, e.wakeWorker);
    } else if e.Take? || e.Execute? || e.Decrement? || e.Signal? || e.SpuriousWorker? {
      ActiveIs(s', e.w);
    } else if e.Sleep? || e.Exit? {
      EmptyWatched(s');
    } else {
      WatchedAfterWorkers(s, s');
    }
  }

  lemma EmptyWatched(s: Pool)
    requires s.queue == []
    ensures QueueWatched(s)
  {
  }

  lemma NoNewFull(s: Pool, b: nat, p: Producer)
    requires b < |s.producers| && !p.Full? && SomeFull(SetProducer(s, b, p))
    ensures SomeFull(s)
  {
  }

  lemma CoveredAfterProducer(c: Config, s: Pool, b: nat, p: Producer)
    requires FullCovered(c, s) && b < |s.producers| && !p.Full?
    requires PushingNow()(s.producers[b]) <= PushingNow()(p)
    ensures FullCovered(c, SetProducer(s, b, p))
  {
    SumUpdate(s.producers, b, p, PushingNow());
    if SomeFull(SetProducer(s, b, p)) { NoNewFull(s, b, p); }
  }

  lemma CoveredAfterPush(c: Config, s: Pool, b: nat, k: Option<nat>)
    requires Sizes(c, s) && Enabled(c, s, Push(b, k)) && FullCovered(c, s)
    ensures FullCovered(c, AfterPush(c, s, b, k))
  {
    var p := StageAt(c, b, s.producers[b].next + 1);
    SumUpdate(s.producers, b, p, PushingNow());
    assert AfterPush(c, s, b, k).producers == SetProducer(s, b, p).producers;
    if SomeFull(AfterPush(c, s, b, k)) {
      assert SomeFull(SetProducer(s, b, p));
      NoNewFull(s, b, p);
    }
  }

  lemma CoveredAfterTake(c: Config, s: Pool, w: nat, k: Option<nat>)
    requires Sizes(c, s) && Enabled(c, s, Take(w, k)) && FullCovered(c, s)
    ensures FullCovered(c, AfterTake(s, w, k))
  {
    match k
    case None =>
      assert AfterTake(s, w, k).producers == s.producers;
      assert !SomeFull(AfterTake(s, w, k));
    case Some(b) =>
      SumUpdate(s.producers, b, Pushing(s.producers[b].next), PushingNow());
  }

  lemma CoveredAfterBlock(c: Config, s: Pool, b: nat)
    requires b < |s.producers| && |s.queue| >= c.capacity
    ensures FullCovered(c, s)
  {
  }

  lemma CoveredSame(c: Config, s: Pool, s': Pool)
    requires FullCovered(c, s) && s'.producers == s.producers && s'.queue == s.queue
    ensures FullCovered(c, s')
  {
  }

  lemma CoveredAfterSignal(c: Config, s: Pool, w: nat)
    requires w < |s.workers| && s.workers[w].Notifying? && FullCovered(c, s)
    ensures FullCovered(c, AfterSignal(s, w))
  {
    var b, s1 := s.workers[w].batch, SetWorker(s, w, Awake);
    CoveredSame(c, s, s1);
    if ProducerIs(s, b, Waiting) { CoveredAfterProducer(c, s1, b, Arriving); }
  }

  lemma CoveredKept(c: Config, s: Pool, e: Event)
    requires Sizes(c, s) && Enabled(c, s, e) && FullCovered(c, s)
    ensures FullCovered(c, Next(c, s, e))
  {
    NextIs(c, s, e);
    var s' := Next(c, s, e);
    hide Next, FullCovered, AfterPush, AfterTake, AfterSignal;
    if e.Push? {
      CoveredAfterPush(c, s, e.b, e.wakeWorker);
    } else if e.Take? {
      CoveredAfterTake(c, s, e.w, e.wakeProducer);
    } else if e.Signal? {
      CoveredAfterSignal(c, s, e.w);
    } else if e.Block? {
      CoveredAfterBlock(c, s', e.b);
    } else if OnlyProducer(e) {
      CoveredAfterProducer(c, s, e.b, ProducerAfter(c, s, e));
    } else {
      CoveredSame(c, s, s');
    }
  }

  /** Who may be asleep or pushing once the pool is shut down. */
  lemma ShutdownKept(c: Config, s: Pool, e: Event)
    requires Sizes(c, s) && Enabled(c, s, e) && ShutdownOk(s)
    ensures ShutdownOk(Next(c, s, e))
  {
    NextIs(c, s, e);
    var s' := Next(c, s, e);
    hide Next;
    if e.Shutdown? {
      assert forall w: nat :: WorkerIs(s', w, Exited) ==> WorkerIs(s, w, Exited);
    } else if s.shutdown {
      ShutDownStays(c, s, e);
    } else {
      RunningStays(c, s, e);
    }
  }

  lemma ShutDownStays(c: Config, s: Pool, e: Event)
    requires Sizes(c, s) && Enabled(c, s, e) && ShutdownOk(s) && s.shutdown
    ensures ShutdownOk(Next(c, s, e))
  {
    NextIs(c, s, e);
    var s' := Next(c, s, e);
    forall b: nat | b < |s'.producers| ensures !s'.producers[b].Pushing? && !s'.producers[b].Full? {
      assert !s.producers[b].Pushing? && !s.producers[b].Full?;
    }
    forall w: nat ensures !WorkerIs(s', w, Asleep) {
      assert !WorkerIs(s, w, Asleep);
    }
  }

  lemma RunningStays(c: Config, s: Pool, e: Event)
    requires Sizes(c, s) && Enabled(c, s, e) && ShutdownOk(s) && !s.shutdown && !e.Shutdown?
    ensures ShutdownOk(Next(c, s, e))
  {
    NextIs(c, s, e);
    var s' := Next(c, s, e);
    forall w: nat ensures !WorkerIs(s', w, Exited) {
      assert !WorkerIs(s, w, Exited);
    }
  }

  // ---- The invariant ------------------------------------------------------------------------------

  lemma InvParts(c: Config, s: Pool)
    requires Inv(c, s)
    ensures Sizes(c, s) && Labels(c, s) && Written(c, s)
    ensures QueueWatched(s) && FullCovered(c, s) && ShutdownOk(s) && (s.workers == [] ==> s.log == [])
    ensures forall b: nat :: b < |c.texts| ==> Balance(c, s, b) && StageOk(c, s, b)
    ensures forall b: nat, i: nat :: b < |c.texts| ==> Conserved(c, s, b, i)
  {
  }

  lemma MakeInv(c: Config, s: Pool)
    requires Sizes(c, s) && Labels(c, s) && Written(c, s)
    requires QueueWatched(s) && FullCovered(c, s) && ShutdownOk(s) && (s.workers == [] ==> s.log == [])
    requires forall b: nat :: b < |c.texts| ==> Balance(c, s, b)
    requires forall b: nat :: b < |c.texts| ==> StageOk(c, s, b)
    requires forall b: nat, i: nat :: b < |c.texts| ==> Conserved(c, s, b, i)
    ensures Inv(c, s)
  {
  }

  lemma NoWorkerNoLog(c: Config, s: Pool, e: Event)
    requires Sizes(c, s) && Enabled(c, s, e) && (s.workers == [] ==> s.log == [])
    ensures Next(c, s, e).workers == [] ==> Next(c, s, e).log == []
  {
    NextSizes(c, s, e);
    if !e.Execute? { OutputsSame(c, s, e); }
  }

  lemma EnabledIn(c: Config, s: Pool, e: Event)
    requires Sizes(c, s) && Enabled(c, s, e) && Labels(c, s)
    ensures e.Push? ==> e.b < |c.texts|
    ensures e.Decrement? ==>
              && e.w < |s.workers| && s.workers[e.w].Ran? && Labelled(c, s.workers[e.w].item)
              && s.workers[e.w].item.batch < |c.texts|
  {
  }

  lemma InvKept(c: Config, s: Pool, e: Event)
    requires Inv(c, s) && Enabled(c, s, e)
    ensures Inv(c, Next(c, s, e))
  {
    hide *;
    InvParts(c, s);
    EnabledIn(c, s, e);
    NextSizes(c, s, e);
    LabelsKept(c, s, e);
    WrittenKept(c, s, e);
    WatchedKept(c, s, e);
    CoveredKept(c, s, e);
    ShutdownKept(c, s, e);
    NoWorkerNoLog(c, s, e);
    if e.Decrement? { CarriedCounts(c, s, e.w); }
    BatchesKept(c, s, e);
    MakeInv(c, Next(c, s, e));
  }

  lemma BatchesKept(c: Config, s: Pool, e: Event)
    requires Sizes(c, s) && Enabled(c, s, e)
    requires forall b: nat :: b < |c.texts| ==> Balance(c, s, b) && StageOk(c, s, b)
    requires forall b: nat, i: nat :: b < |c.texts| ==> Conserved(c, s, b, i)
    requires e.Push? ==> e.b < |c.texts|
    requires e.Decrement? ==> e.w < |s.workers| && s.workers[e.w].Ran? && Labelled(c, s.workers[e.w].item)
    requires e.Decrement? ==> s.workers[e.w].item.batch < |c.texts| && s.remaining[s.workers[e.w].item.batch] > 0
    ensures Sizes(c, Next(c, s, e))
    ensures forall b: nat :: b < |c.texts| ==> Balance(c, Next(c, s, e), b)
    ensures forall b: nat :: b < |c.texts| ==> StageOk(c, Next(c, s, e), b)
    ensures forall b: nat, i: nat :: b < |c.texts| ==> Conserved(c, Next(c, s, e), b, i)
  {
    NextSizes(c, s, e);
    var s' := Next(c, s, e);
    hide Next, Enabled, Balance, StageOk, Conserved, Labelled;
    forall b: nat | b < |c.texts| ensures Balance(c, s', b) { BalanceKept(c, s, e, b); }
    forall b: nat | b < |c.texts| ensures StageOk(c, s', b) { StageKept(c, s, e, b); }
    forall b: nat, i: nat | b < |c.texts| ensures Conserved(c, s', b, i) { ConservedKept(c, s, e, b, i); }
  }

  lemma InitialInv(c: Config, s: Pool)
    requires Initial(c, s)
    ensures Inv(c, s)
  {
    forall b: nat | b < |c.texts| ensures Balance(c, s, b) && StageOk(c, s, b) {
      SumZero(s.workers, Carries(b));
    }
    forall b: nat, i: nat | b < |c.texts| ensures Conserved(c, s, b, i) {
      SumZero(s.workers, Holds(b, i));
    }
  }

  lemma {:induction false} RunsInv(c: Config, s: Pool, events: seq<Event>, s': Pool)
    requires Inv(c, s) && Runs(c, s, events, s')
    ensures Inv(c, s') && |s'.workers| == |s.workers|
    decreases |events|
  {
    if events != [] {
      InvKept(c, s, events[0]);
      NextSizes(c, s, events[0]);
      RunsInv(c, Next(c, s, events[0]), events[1..], s');
    }
  }

  lemma ReachableInv(c: Config, s: Pool)
    requires Reachable(c, s)
    ensures Inv(c, s)
  {
    var s0: Pool, events: seq<Event> :| Initial(c, s0) && Runs(c, s0, events, s);
    InitialInv(c, s0);
    RunsInv(c, s0, events, s);
  }

  // ---- Safety in every interleaving ------------------------------------------------------------------

  /** A batch's unpushed, queued and in-flight items together are what its counter says. */
  lemma CounterIsExact(c: Config, s: Pool, b: nat)
    requires Reachable(c, s) && b < |c.texts|
    ensures |s.producers| == |s.remaining| == |c.texts|
    ensures s.remaining[b] == Unpushed(c, s.producers[b], b) + Sum(s.queue, OfBatch(b)) + Sum(s.workers, Carries(b))
    ensures |s.queue| <= c.capacity
  {
    ReachableInv(c, s);
    assert Balance(c, s, b);
  }

  /** No item runs twice, and none runs before it was pushed. */
  lemma RunsAtMostOnce(c: Config, s: Pool, b: nat, i: nat)
    requires Reachable(c, s) && b < |c.texts|
    ensures b < |s.producers|
    ensures Sum(s.log, AtSlot(b, i)) <= if i < Pushed(c, s.producers[b], b) then 1 else 0
  {
    ReachableInv(c, s);
    assert Conserved(c, s, b, i);
  }

  lemma NothingLeft(c: Config, s: Pool, b: nat)
    requires Inv(c, s) && b < |c.texts| && s.producers[b].Done?
    ensures Sum(s.queue, OfBatch(b)) == 0 && Sum(s.workers, Carries(b)) == 0
  {
    assert Balance(c, s, b) && StageOk(c, s, b);
  }

  lemma LoggedOnce(c: Config, s: Pool, b: nat, i: nat)
    requires Inv(c, s) && b < |c.texts| && i < |c.texts[b]| && s.producers[b].Done?
    ensures Sum(s.log, AtSlot(b, i)) == 1
  {
    NothingLeft(c, s, b);
    assert Conserved(c, s, b, i);
    SumMonotone(s.queue, AtSlot(b, i), OfBatch(b));
    SumMonotone(s.workers, Holds(b, i), Carries(b));
  }

  /** When the wait of a batch has ended, every one of its items has run exactly once, none is
      queued or in flight, and every output slot holds the result for its own text. */
  lemma FinishedBatchIsComplete(c: Config, s: Pool, b: nat)
    requires Reachable(c, s) && b < |c.texts| && ProducerIs(s, b, Done)
    ensures Sum(s.queue, OfBatch(b)) == 0 && Sum(s.workers, Carries(b)) == 0
    ensures forall i: nat :: i < |c.texts[b]| ==> Sum(s.log, AtSlot(b, i)) == 1
    ensures forall i: nat :: i < |c.texts[b]| ==> (b, i) in s.outputs && s.outputs[(b, i)] == c.run(b, c.texts[b][i])
  {
    ReachableInv(c, s);
    NothingLeft(c, s, b);
    hide Reachable;
    forall i: nat | i < |c.texts[b]|
      ensures Sum(s.log, AtSlot(b, i)) == 1
      ensures (b, i) in s.outputs && s.outputs[(b, i)] == c.run(b, c.texts[b][i])
    {
      SlotComplete(c, s, b, i);
    }
  }

  lemma SlotComplete(c: Config, s: Pool, b: nat, i: nat)
    requires Inv(c, s) && b < |c.texts| && i < |c.texts[b]| && s.producers[b].Done?
    ensures Sum(s.log, AtSlot(b, i)) == 1
    ensures (b, i) in s.outputs && s.outputs[(b, i)] == c.run(b, c.texts[b][i])
  {
    LoggedOnce(c, s, b, i);
    var k := SumPositive(s.log, AtSlot(b, i));
    assert Labelled(c, s.log[k]) && SlotHolds(c, s, s.log[k]);
  }

  /** Without a worker only empty batches finish. */
  lemma NoWorkerNoResult(c: Config, s: Pool, b: nat)
    requires Reachable(c, s) && s.workers == [] && b < |c.texts| && ProducerIs(s, b, Done)
    ensures c.texts[b] == []
  {
    ReachableInv(c, s);
    if c.texts[b] != [] {
      LoggedOnce(c, s, b, 0);
    }
  }

  // ---- No unfinished batch is stuck ------------------------------------------------------------------

  /** Calls into the pool from outside: a new batch, and the shutdown. */
  predicate FromOutside(e: Event) {
    e.Start? || e.Shutdown?
  }

  /** No thread that works for a batch or for the pool can move, unless one wakes up by itself
      or somebody calls the pool again. */
  ghost predicate Stuck(c: Config, s: Pool) {
    forall e: Event :: Enabled(c, s, e) ==> Spurious(e) || FromOutside(e)
  }

  /** A worker that is awake at the top of its loop can always take its next step. */
  lemma AwakeMoves(c: Config, s: Pool, w: nat) returns (e: Event)
    requires WorkerIs(s, w, Awake)
    ensures Enabled(c, s, e) && !Spurious(e) && !FromOutside(e)
  {
    if s.queue == [] {
      e := if s.shutdown then Exit(w) else Sleep(w);
    } else if b: nat :| b < |s.producers| && s.producers[b].Full? {
      assert WakesProducer(s, Some(b));
      e := Take(w, Some(b));
    } else {
      assert WakesProducer(s, None);
      e := Take(w, None);
    }
  }

  lemma StuckWorker(c: Config, s: Pool, w: nat)
    requires Sizes(c, s) && Stuck(c, s) && w < |s.workers|
    requires forall b: nat :: b < |s.producers| ==> !Locked(s, b)
    ensures s.workers[w].Asleep? || s.workers[w].Exited?
  {
    if s.workers[w].Awake? {
      var e := AwakeMoves(c, s, w);
    }
    assert !Enabled(c, s, Execute(w)) && !Enabled(c, s, Decrement(w)) && !Enabled(c, s, Signal(w));
  }

  lemma StuckProducer(c: Config, s: Pool, b: nat)
    requires Sizes(c, s) && Stuck(c, s) && b < |s.producers|
    ensures var p := s.producers[b]; p.Full? || p.Waiting? || p.Done? || p.Idle?
  {
    assert !Enabled(c, s, Block(b)) && !Enabled(c, s, Lock(b));
    assert !Enabled(c, s, Check(b)) && !Enabled(c, s, Commit(b));
    if w: nat :| WorkerIs(s, w, Asleep) {
      assert WakesWorker(s, Some(w));
      assert !Enabled(c, s, Push(b, Some(w)));
    } else {
      assert WakesWorker(s, None);
      assert !Enabled(c, s, Push(b, None));
    }
  }

  lemma AsleepWatched(s: Pool)
    requires QueueWatched(s) && s.workers != []
    requires forall w :: 0 <= w < |s.workers| ==> s.workers[w].Asleep? || s.workers[w].Exited?
    ensures s.queue == []
  {
  }

  /** With a worker, a stuck pool has an empty queue. */
  lemma StuckQueueEmpty(c: Config, s: Pool)
    requires Inv(c, s) && Stuck(c, s) && s.workers != []
    ensures s.queue == []
    ensures forall w :: 0 <= w < |s.workers| ==> s.workers[w].Asleep? || s.workers[w].Exited?
  {
    InvParts(c, s);
    hide Inv, Stuck, Labels, Written, FullCovered, ShutdownOk, Balance, StageOk, Conserved;
    forall b: nat | b < |s.producers| ensures !Locked(s, b) { StuckProducer(c, s, b); }
    forall w | 0 <= w < |s.workers| ensures s.workers[w].Asleep? || s.workers[w].Exited? { StuckWorker(c, s, w); }
    AsleepWatched(s);
  }

  lemma StuckNotFull(c: Config, s: Pool, b: nat)
    requires Inv(c, s) && Stuck(c, s) && s.queue == [] && c.capacity > 0 && b < |s.producers|
    ensures !s.producers[b].Full?
  {
    InvParts(c, s);
    hide Inv, Stuck, Labels, Written, QueueWatched, ShutdownOk, Balance, StageOk, Conserved;
    forall k | 0 <= k < |s.producers| ensures PushingNow()(s.producers[k]) == 0 { StuckProducer(c, s, k); }
    SumZero(s.producers, PushingNow());
    assert !SomeFull(s);
  }

  lemma StuckNotWaiting(c: Config, s: Pool, b: nat)
    requires Inv(c, s) && s.queue == [] && b < |c.texts|
    requires forall w :: 0 <= w < |s.workers| ==> s.workers[w].Asleep? || s.workers[w].Exited?
    ensures !s.producers[b].Waiting?
  {
    assert Balance(c, s, b) && StageOk(c, s, b);
    SumZero(s.workers, Carries(b));
    assert Sum(s.queue, OfBatch(b)) == 0;
  }

  ghost predicate AllFinished(s: Pool) {
    forall b: nat :: b < |s.producers| ==> s.producers[b].Done? || s.producers[b].Idle?
  }

  /** Every worker sleeps on not_empty or, after a shutdown, has left. */
  ghost predicate AllAtRest(s: Pool) {
    forall w: nat :: w < |s.workers| ==> s.workers[w] == if s.shutdown then Exited else Asleep
  }

  lemma StuckAllFinished(c: Config, s: Pool)
    requires Inv(c, s) && c.capacity > 0 && s.workers != [] && Stuck(c, s)
    ensures AllFinished(s) && s.queue == []
  {
    StuckQueueEmpty(c, s);
    InvParts(c, s);
    hide Inv, Stuck, Labels, Written, QueueWatched, FullCovered, Balance, StageOk, Conserved;
    forall b: nat | b < |s.producers| ensures s.producers[b].Done? || s.producers[b].Idle? {
      StuckProducer(c, s, b);
      StuckNotFull(c, s, b);
      StuckNotWaiting(c, s, b);
    }
  }

  lemma StuckAtRest(c: Config, s: Pool)
    requires Inv(c, s) && s.workers != [] && Stuck(c, s)
    ensures AllAtRest(s)
  {
    StuckQueueEmpty(c, s);
    InvParts(c, s);
    hide Inv, Stuck, Labels, Written, QueueWatched, FullCovered, Balance, StageOk, Conserved;
    forall w: nat | w < |s.workers| ensures s.workers[w] == if s.shutdown then Exited else Asleep {
      assert WorkerIs(s, w, Asleep) ==> !s.shutdown;
      assert WorkerIs(s, w, Exited) ==> s.shutdown;
    }
  }

  lemma AtRestIsStuck(c: Config, s: Pool)
    requires AllFinished(s) && AllAtRest(s)
    ensures Stuck(c, s)
  {
  }

  /** With at least one worker, whether or not the pool was shut down: no thread can move
      exactly when every batch that was started is finished and every worker is at rest; and
      then nothing is queued. */
  lemma NoBatchIsStuck(c: Config, s: Pool)
    requires Reachable(c, s) && c.capacity > 0 && s.workers != []
    ensures Stuck(c, s) <==> AllFinished(s) && AllAtRest(s)
    ensures Stuck(c, s) ==> s.queue == []
  {
    ReachableInv(c, s);
    if Stuck(c, s) {
      StuckAllFinished(c, s);
      StuckAtRest(c, s);
    }
    if AllFinished(s) && AllAtRest(s) {
      AtRestIsStuck(c, s);
    }
  }
}

/** The work-queue thread pool: producers push the items of a batch into a bounded queue and
    wait for the batch; workers take items, run them and count the batch down.

    Every step is one critical section, one atomic operation or one piece of work outside any
    lock.  A condition variable's sleepers are the threads in its waiting stage; a signal
    wakes one of them if there is any, and any sleeper may also wake up spuriously. */
module ThreadPool {
  import opened Vocabulary
  import opened Sums

  datatype Output = Encoded(tokens: seq<nat>) | Counted(count: Option<nat>)

  /** What the pool works on: the texts of each batch, and what running a text of a batch gives.  A batch has its
      own tokenizer, kind of work and limit. */
  datatype Config = Config(capacity: nat, texts: seq<seq<seq<byte>>>, run: (nat, seq<byte>) -> Output)

  datatype Item = Item(batch: nat, index: nat, text: seq<byte>)

  datatype Worker =
    | Awake
    | Asleep                 // on not_empty
    | Holding(item: Item)    // taken off the queue, not yet run
    | Ran(item: Item)        // run, batch not yet counted down
    | Notifying(batch: nat)  // counted the batch down to zero, about to signal
    | Exited

  datatype Producer =
    | Idle
    | Pushing(next: nat)
    | Full(next: nat)        // asleep on not_full
    | Arriving               // about to lock the batch's mutex
    | Checking               // holds it, about to read the counter
    | Committed              // holds it, read a positive counter
    | Waiting                // asleep on the batch's condition
    | Done

  /** The log of executed items is a history variable. */
  datatype Pool = Pool(queue: seq<Item>, shutdown: bool, workers: seq<Worker>, producers: seq<Producer>,
                       remaining: seq<int>, outputs: map<(nat, nat), Output>, log: seq<Item>)

  datatype Event =
    | Start(b: nat) | Push(b: nat, wakeWorker: Option<nat>) | Block(b: nat)
    | Lock(b: nat) | Check(b: nat) | Commit(b: nat)
    | Take(w: nat, wakeProducer: Option<nat>) | Sleep(w: nat) | Exit(w: nat)
    | Execute(w: nat) | Decrement(w: nat) | Signal(w: nat)
    | Shutdown
    | SpuriousWorker(w: nat) | SpuriousFull(b: nat) | SpuriousWaiting(b: nat)

  predicate Spurious(e: Event) {
    e.SpuriousWorker? || e.SpuriousFull? || e.SpuriousWaiting?
  }

  // ---- The steps ---------------------------------------------------------------------------------

  predicate WorkerIs(s: Pool, w: nat, x: Worker) {
    w < |s.workers| && s.workers[w] == x
  }

  predicate ProducerIs(s: Pool, b: nat, p: Producer) {
    b < |s.producers| && s.producers[b] == p
  }

  ghost predicate SomeAsleep(s: Pool) {
    exists w: nat :: WorkerIs(s, w, Asleep)
  }

  ghost predicate SomeFull(s: Pool) {
    exists b: nat :: b < |s.producers| && s.producers[b].Full?
  }

  /** The worker woken by a signal on not_empty. */
  ghost predicate WakesWorker(s: Pool, k: Option<nat>) {
    match k
    case None => !SomeAsleep(s)
    case Some(w) => WorkerIs(s, w, Asleep)
  }

  /** The producer woken by a signal on not_full. */
  ghost predicate WakesProducer(s: Pool, k: Option<nat>) {
    match k
    case None => !SomeFull(s)
    case Some(b) => b < |s.producers| && s.producers[b].Full?
  }

  /** The batch's mutex is held between two steps. */
  predicate Locked(s: Pool, b: nat) {
    b < |s.producers| && (s.producers[b].Checking? || s.producers[b].Committed?)
  }

  predicate IsPushing(s: Pool, b: nat) {
    b < |s.producers| && s.producers[b].Pushing?
  }

  ghost predicate NoPusher(s: Pool) {
    forall b: nat :: b < |s.producers| ==> !s.producers[b].Pushing? && !s.producers[b].Full?
  }

  ghost predicate Enabled(c: Config, s: Pool, e: Event) {
    match e
    case Start(b) => ProducerIs(s, b, Idle) && !s.shutdown
    case Push(b, k) => IsPushing(s, b) && |s.queue| != c.capacity && WakesWorker(s, k)
    case Block(b) => IsPushing(s, b) && |s.queue| == c.capacity
    case Lock(b) => ProducerIs(s, b, Arriving)
    case Check(b) => ProducerIs(s, b, Checking)
    case Commit(b) => ProducerIs(s, b, Committed)
    case Take(w, k) => WorkerIs(s, w, Awake) && s.queue != [] && WakesProducer(s, k)
    case Sleep(w) => WorkerIs(s, w, Awake) && s.queue == [] && !s.shutdown
    case Exit(w) => WorkerIs(s, w, Awake) && s.queue == [] && s.shutdown
    case Execute(w) => w < |s.workers| && s.workers[w].Holding?
    case Decrement(w) => w < |s.workers| && s.workers[w].Ran?
    case Signal(w) => w < |s.workers| && s.workers[w].Notifying? && !Locked(s, s.workers[w].batch)
    case Shutdown => !s.shutdown && NoPusher(s)
    case SpuriousWorker(w) => WorkerIs(s, w, Asleep)
    case SpuriousFull(b) => b < |s.producers| && s.producers[b].Full?
    case SpuriousWaiting(b) => ProducerIs(s, b, Waiting)
  }

  ghost predicate Sizes(c: Config, s: Pool) {
    |s.producers| == |s.remaining| == |c.texts| && |s.queue| <= c.capacity
  }

  function SetProducer(s: Pool, b: nat, p: Producer): Pool
    requires b < |s.producers|
  {
    s.(producers := s.producers[b := p])
  }

  function SetWorker(s: Pool, w: nat, x: Worker): Pool
    requires w < |s.workers|
  {
    s.(workers := s.workers[w := x])
  }

  /** The producer's stage before item k of batch b. */
  function StageAt(c: Config, b: nat, k: nat): Producer
    requires b < |c.texts|
  {
    if k < |c.texts[b]| then Pushing(k) else Arriving
  }

  function TextAt(c: Config, b: nat, k: nat): seq<byte> {
    if b < |c.texts| && k < |c.texts[b]| then c.texts[b][k] else []
  }

  function WakeAll(ws: seq<Worker>): (r: seq<Worker>)
    ensures |r| == |ws| && forall i :: 0 <= i < |ws| ==> r[i] == if ws[i].Asleep? then Awake else ws[i]
  {
    seq(|ws|, i requires 0 <= i < |ws| => if ws[i].Asleep? then Awake else ws[i])
  }

  /** Enqueues one item and signals not_empty. */
  ghost function AfterPush(c: Config, s: Pool, b: nat, k: Option<nat>): Pool
    requires Sizes(c, s) && Enabled(c, s, Push(b, k))
  {
    var i := s.producers[b].next;
    var s1 := SetProducer(s, b, StageAt(c, b, i + 1)).(queue := s.queue + [Item(b, i, TextAt(c, b, i))]);
    if k.Some? then SetWorker(s1, k.value, Awake) else s1
  }

  /** Dequeues one item and signals not_full. */
  ghost function AfterTake(s: Pool, w: nat, k: Option<nat>): Pool
    requires w < |s.workers| && s.queue != [] && WakesProducer(s, k)
  {
    var s1 := SetWorker(s, w, Holding(s.queue[0])).(queue := s.queue[1..]);
    if k.Some? then SetProducer(s1, k.value, Pushing(s.producers[k.value].next)) else s1
  }

  /** Runs the item and writes its output slot. */
  function AfterExecute(c: Config, s: Pool, w: nat): Pool
    requires w < |s.workers| && s.workers[w].Holding?
  {
    var x := s.workers[w].item;
    SetWorker(s, w, Ran(x)).(outputs := s.outputs[(x.batch, x.index) := c.run(x.batch, x.text)], log := s.log + [x])
  }

  /** Counts the batch down; the worker that brings it to zero goes on to signal. */
  function AfterDecrement(s: Pool, w: nat): Pool
    requires w < |s.workers| && s.workers[w].Ran?
  {
    var b := s.workers[w].item.batch;
    if b < |s.remaining| then
      SetWorker(s, w, if s.remaining[b] == 1 then Notifying(b) else Awake)
        .(remaining := s.remaining[b := s.remaining[b] - 1])
    else SetWorker(s, w, Awake)
  }

  function AfterSignal(s: Pool, w: nat): Pool
    requires w < |s.workers| && s.workers[w].Notifying?
  {
    var b, s1 := s.workers[w].batch, SetWorker(s, w, Awake);
    if ProducerIs(s, b, Waiting) then SetProducer(s1, b, Arriving) else s1
  }

  function AfterShutdown(s: Pool): Pool {
    s.(shutdown := true, workers := WakeAll(s.workers))
  }

  /** Steps that change nothing but one worker's stage. */
  predicate OnlyWorker(e: Event) {
    e.Sleep? || e.Exit? || e.SpuriousWorker?
  }

  /** Steps that change nothing but one producer's stage. */
  predicate OnlyProducer(e: Event) {
    e.Start? || e.Block? || e.Lock? || e.Check? || e.Commit? || e.SpuriousFull? || e.SpuriousWaiting?
  }

  function WorkerAfter(e: Event): Worker
    requires OnlyWorker(e)
  {
    match e
    case Sleep(_) => Asleep
    case Exit(_) => Exited
    case SpuriousWorker(_) => Awake
  }

  ghost function ProducerAfter(c: Config, s: Pool, e: Event): Producer
    requires Sizes(c, s) && OnlyProducer(e) && Enabled(c, s, e)
  {
    match e
    case Start(b) => StageAt(c, b, 0)
    case Block(b) => Full(s.producers[b].next)
    case Lock(b) => Checking
    case Check(b) => if s.remaining[b] > 0 then Committed else Done
    case Commit(b) => Waiting
    case SpuriousFull(b) => Pushing(s.producers[b].next)
    case SpuriousWaiting(b) => Arriving
  }

  ghost function Next(c: Config, s: Pool, e: Event): Pool
    requires Sizes(c, s) && Enabled(c, s, e)
  {
    match e
    case Push(b, k) => AfterPush(c, s, b, k)
    case Take(w, k) => AfterTake(s, w, k)
    case Execute(w) => AfterExecute(c, s, w)
    case Decrement(w) => AfterDecrement(s, w)
    case Signal(w) => AfterSignal(s, w)
    case Shutdown => AfterShutdown(s)
    case Start(b) => SetProducer(s, b, ProducerAfter(c, s, e))
    case Block(b) => SetProducer(s, b, ProducerAfter(c, s, e))
    case Lock(b) => SetProducer(s, b, ProducerAfter(c, s, e))
    case Check(b) => SetProducer(s, b, ProducerAfter(c, s, e))
    case Commit(b) => SetProducer(s, b, ProducerAfter(c, s, e))
    case SpuriousFull(b) => SetProducer(s, b, ProducerAfter(c, s, e))
    case SpuriousWaiting(b) => SetProducer(s, b, ProducerAfter(c, s, e))
    case Sleep(w) => SetWorker(s, w, WorkerAfter(e))
    case Exit(w) => SetWorker(s, w, WorkerAfter(e))
    case SpuriousWorker(w) => SetWorker(s, w, WorkerAfter(e))
  }

  /** The shape of a step that moves one thread only. */
  lemma NextIs(c: Config, s: Pool, e: Event)
    requires Sizes(c, s) && Enabled(c, s, e)
    ensures OnlyWorker(e) ==>
              && e.w < |s.workers| && Next(c, s, e) == SetWorker(s, e.w, WorkerAfter(e))
              && (s.workers[e.w].Awake? || s.workers[e.w].Asleep?)
    ensures OnlyProducer(e) ==>
              && e.b < |c.texts| && Next(c, s, e) == SetProducer(s, e.b, ProducerAfter(c, s, e))
              && Pushed(c, ProducerAfter(c, s, e), e.b) == Pushed(c, s.producers[e.b], e.b)
    ensures e.Push? ==> Next(c, s, e) == AfterPush(c, s, e.b, e.wakeWorker)
    ensures e.Take? ==> Next(c, s, e) == AfterTake(s, e.w, e.wakeProducer)
    ensures e.Execute? ==> Next(c, s, e) == AfterExecute(c, s, e.w)
    ensures e.Decrement? ==> Next(c, s, e) == AfterDecrement(s, e.w)
    ensures e.Signal? ==> Next(c, s, e) == AfterSignal(s, e.w)
    ensures e.Shutdown? ==> Next(c, s, e) == AfterShutdown(s)
    ensures e.Push? || e.Take? || e.Execute? || e.Decrement? || e.Signal? || e.Shutdown? || OnlyWorker(e)
            || OnlyProducer(e)
  {
  }

  lemma NextSizes(c: Config, s: Pool, e: Event)
    requires Sizes(c, s) && Enabled(c, s, e)
    ensures Sizes(c, Next(c, s, e)) && |Next(c, s, e).workers| == |s.workers|
  {
  }

  /** The pool at the start: every counter at its batch's size, every output slot unset. */
  ghost predicate Initial(c: Config, s: Pool) {
    && s.queue == [] && !s.shutdown && s.log == [] && s.outputs == map[]
    && |s.producers| == |s.remaining| == |c.texts|
    && (forall w :: 0 <= w < |s.workers| ==> s.workers[w] == Awake)
    && forall b :: 0 <= b < |c.texts| ==> s.producers[b] == Idle && s.remaining[b] == |c.texts[b]|
  }

  /** s' is reached from s by these events. */
  ghost predicate Runs(c: Config, s: Pool, events: seq<Event>, s': Pool)
    requires Sizes(c, s)
    decreases |events|
  {
    if events == [] then s' == s
    else
      Enabled(c, s, events[0]) &&
      (NextSizes(c, s, events[0]); Runs(c, Next(c, s, events[0]), events[1..], s'))
  }

  ghost predicate Reachable(c: Config, s: Pool) {
    exists s0: Pool, events: seq<Event> :: Initial(c, s0) && Runs(c, s0, events, s)
  }

  // ---- Counting items -------------------------------------------------------------------------------

  function OfBatch(b: nat): Item -> nat {
    (x: Item) => if x.batch == b then 1 else 0
  }

  function AtSlot(b: nat, i: nat): Item -> nat {
    (x: Item) => if x.batch == b && x.index == i then 1 else 0
  }

  /** The worker has taken an item of batch b and not yet counted it down. */
  function Carries(b: nat): Worker -> nat {
    (x: Worker) => if (x.Holding? || x.Ran?) && x.item.batch == b then 1 else 0
  }

  /** The worker has taken item i of batch b and not yet run it. */
  function Holds(b: nat, i: nat): Worker -> nat {
    (x: Worker) => if x.Holding? && x.item.batch == b && x.item.index == i then 1 else 0
  }

  function PushingNow(): Producer -> nat {
    (p: Producer) => if p.Pushing? then 1 else 0
  }

  /** How many items of batch b have been pushed. */
  function Pushed(c: Config, p: Producer, b: nat): int
    requires b < |c.texts|
  {
    match p
    case Idle => 0
    case Pushing(k) => k
    case Full(k) => k
    case _ => |c.texts[b]|
  }

  function Unpushed(c: Config, p: Producer, b: nat): int
    requires b < |c.texts|
  {
    |c.texts[b]| - Pushed(c, p, b)
  }

  // ---- Safety ---------------------------------------------------------------------------------------

  /** Unpushed, queued and in-flight items together equal the counter. */
  ghost predicate Balance(c: Config, s: Pool, b: nat)
    requires b < |c.texts| == |s.producers| == |s.remaining|
  {
    Unpushed(c, s.producers[b], b) + Sum(s.queue, OfBatch(b)) + Sum(s.workers, Carries(b)) == s.remaining[b]
  }

  /** A pushed item is in exactly one place, once: queued, held by a worker or run. */
  ghost predicate Conserved(c: Config, s: Pool, b: nat, i: nat)
    requires b < |c.texts| == |s.producers|
  {
    Sum(s.queue, AtSlot(b, i)) + Sum(s.workers, Holds(b, i)) + Sum(s.log, AtSlot(b, i))
      == if i < Pushed(c, s.producers[b], b) then 1 else 0
  }

  ghost predicate SomeNotifying(ws: seq<Worker>, b: nat) {
    exists w :: 0 <= w < |ws| && ws[w] == Notifying(b)
  }

  ghost predicate StageOk(c: Config, s: Pool, b: nat)
    requires b < |c.texts| == |s.producers| == |s.remaining|
  {
    var p := s.producers[b];
    && (p.Pushing? || p.Full? ==> p.next < |c.texts[b]|)
    && (p.Done? ==> s.remaining[b] == 0)
    && (p.Committed? || p.Waiting? ==> s.remaining[b] > 0 || SomeNotifying(s.workers, b))
  }

  /** The item carries the text of its own slot. */
  predicate Labelled(c: Config, x: Item) {
    x.batch < |c.texts| && x.index < |c.texts[x.batch]| && x.text == c.texts[x.batch][x.index]
  }

  ghost predicate Labels(c: Config, s: Pool) {
    && (forall k :: 0 <= k < |s.queue| ==> Labelled(c, s.queue[k]))
    && (forall w :: 0 <= w < |s.workers| && (s.workers[w].Holding? || s.workers[w].Ran?) ==>
          Labelled(c, s.workers[w].item))
    && (forall k :: 0 <= k < |s.log| ==> Labelled(c, s.log[k]))
  }

  /** Every item that ran left its text's result in its own slot. */
  ghost predicate Written(c: Config, s: Pool) {
    forall k :: 0 <= k < |s.log| ==> SlotHolds(c, s, s.log[k])
  }

  predicate SlotHolds(c: Config, s: Pool, x: Item) {
    (x.batch, x.index) in s.outputs && s.outputs[(x.batch, x.index)] == c.run(x.batch, x.text)
  }

  ghost predicate Batches(c: Config, s: Pool)
    requires |c.texts| == |s.producers| == |s.remaining|
  {
    && (forall b: nat :: b < |c.texts| ==> Balance(c, s, b))
    && (forall b: nat :: b < |c.texts| ==> StageOk(c, s, b))
  }

  ghost predicate Slots(c: Config, s: Pool)
    requires |c.texts| == |s.producers|
  {
    forall b: nat, i: nat :: b < |c.texts| ==> Conserved(c, s, b, i)
  }

  // ---- Liveness -------------------------------------------------------------------------------------

  /** Some worker is on its way to the queue. */
  ghost predicate SomeActive(s: Pool) {
    exists w: nat :: Active(s, w)
  }

  predicate Active(s: Pool, w: nat) {
    w < |s.workers| && !s.workers[w].Asleep? && !s.workers[w].Exited?
  }

  /** A non-empty queue has a worker that will get to it. */
  ghost predicate QueueWatched(s: Pool) {
    s.queue != [] && s.workers != [] ==> SomeActive(s)
  }

  /** While a producer sleeps on not_full, the queue is full or the missing items have
      awake producers about to push. */
  ghost predicate FullCovered(c: Config, s: Pool) {
    SomeFull(s) ==> |s.queue| + Sum(s.producers, PushingNow()) >= c.capacity
  }

  ghost predicate ShutdownOk(s: Pool) {
    && (s.shutdown ==> NoPusher(s) && !SomeAsleep(s))
    && (forall w: nat :: WorkerIs(s, w, Exited) ==> s.shutdown)
  }

  ghost predicate Wakeful(c: Config, s: Pool) {
    QueueWatched(s) && FullCovered(c, s) && ShutdownOk(s) && (s.workers == [] ==> s.log == [])
  }

  ghost predicate Inv(c: Config, s: Pool) {
    && Sizes(c, s) && Batches(c, s) && Slots(c, s) && Labels(c, s) && Written(c, s) && Wakeful(c, s)
  }

  // ---- Every step keeps the counter balanced ----------------------------------------------------

  lemma PushSums(s: Pool, x: Item, k: Option<nat>, g: Item -> nat, h: Worker -> nat)
    requires k.Some? ==> k.value < |s.workers| && h(s.workers[k.value]) == h(Awake)
    ensures Sum(s.queue + [x], g) == Sum(s.queue, g) + g(x)
    ensures k.Some? ==> Sum(s.workers[k.value := Awake], h) == Sum(s.workers, h)
  {
    SumSnoc(s.queue, x, g);
    if k.Some? { SumUpdate(s.workers, k.value, Awake, h); }
  }

  lemma TakeSums(s: Pool, w: nat, g: Item -> nat, h: Worker -> nat)
    requires w < |s.workers| && s.queue != []
    ensures Sum(s.queue, g) == g(s.queue[0]) + Sum(s.queue[1..], g)
    ensures Sum(s.workers[w := Holding(s.queue[0])], h) + h(s.workers[w]) == Sum(s.workers, h) + h(Holding(s.queue[0]))
  {
    SumTail(s.queue, g);
    SumUpdate(s.workers, w, Holding(s.queue[0]), h);
  }

  /** Setting a worker whose value for h does not change leaves the sum. */
  lemma SameWorkerSum(ws: seq<Worker>, w: nat, x: Worker, h: Worker -> nat)
    requires w < |ws| && h(x) == h(ws[w])
    ensures Sum(ws[w := x], h) == Sum(ws, h)
  {
    SumUpdate(ws, w, x, h);
  }

  lemma {:induction false} WakeAllSum(ws: seq<Worker>, h: Worker -> nat)
    requires h(Awake) == h(Asleep)
    ensures Sum(WakeAll(ws), h) == Sum(ws, h)
  {
    if ws != [] {
      WakeAllSum(ws[..|ws| - 1], h);
      assert WakeAll(ws)[..|ws| - 1] == WakeAll(ws[..|ws| - 1]);
    }
  }

  lemma BalanceAfterPush(c: Config, s: Pool, b': nat, k: Option<nat>, b: nat)
    requires Sizes(c, s) && Enabled(c, s, Push(b', k)) && b < |c.texts| && Balance(c, s, b) && StageOk(c, s, b')
    ensures Balance(c, AfterPush(c, s, b', k), b)
  {
    var i := s.producers[b'].next;
    PushSums(s, Item(b', i, TextAt(c, b', i)), k, OfBatch(b), Carries(b));
  }

  lemma BalanceAfterTake(c: Config, s: Pool, w: nat, k: Option<nat>, b: nat)
    requires Sizes(c, s) && Enabled(c, s, Take(w, k)) && b < |c.texts| && Balance(c, s, b)
    ensures Balance(c, AfterTake(s, w, k), b)
  {
    TakeSums(s, w, OfBatch(b), Carries(b));
  }

  lemma BalanceAfterExecute(c: Config, s: Pool, w: nat, b: nat)
    requires Sizes(c, s) && Enabled(c, s, Execute(w)) && b < |c.texts| && Balance(c, s, b)
    ensures Balance(c, AfterExecute(c, s, w), b)
  {
    SameWorkerSum(s.workers, w, Ran(s.workers[w].item), Carries(b));
  }

  lemma BalanceAfterShutdown(c: Config, s: Pool, b: nat)
    requires Sizes(c, s) && b < |c.texts| && Balance(c, s, b)
    ensures Balance(c, AfterShutdown(s), b)
  {
    WakeAllSum(s.workers, Carries(b));
  }

  lemma BalanceAfterDecrement(c: Config, s: Pool, w: nat, b: nat)
    requires Sizes(c, s) && Enabled(c, s, Decrement(w)) && b < |c.texts| && Balance(c, s, b)
    ensures Balance(c, AfterDecrement(s, w), b)
  {
    var b' := s.workers[w].item.batch;
    var x := if b' < |s.remaining| && s.remaining[b'] == 1 then Notifying(b') else Awake;
    SumUpdate(s.workers, w, x, Carries(b));
  }

  lemma BalanceAfterWorker(c: Config, s: Pool, w: nat, x: Worker, b: nat)
    requires Sizes(c, s) && w < |s.workers| && b < |c.texts| && Balance(c, s, b)
    requires Carries(b)(x) == Carries(b)(s.workers[w])
    ensures Balance(c, SetWorker(s, w, x), b)
  {
    SameWorkerSum(s.workers, w, x, Carries(b));
  }

  lemma BalanceAfterProducer(c: Config, s: Pool, b': nat, p: Producer, b: nat)
    requires Sizes(c, s) && b' < |c.texts| && b < |c.texts| && Balance(c, s, b)
    requires Pushed(c, p, b') == Pushed(c, s.producers[b'], b')
    ensures Balance(c, SetProducer(s, b', p), b)
  {
  }

  lemma BalanceAfterSignal(c: Config, s: Pool, w: nat, b: nat)
    requires Sizes(c, s) && Enabled(c, s, Signal(w)) && b < |c.texts| && Balance(c, s, b)
    ensures Balance(c, AfterSignal(s, w), b)
  {
    BalanceAfterWorker(c, s, w, Awake, b);
    var b', s1 := s.workers[w].batch, SetWorker(s, w, Awake);
    if ProducerIs(s, b', Waiting) { BalanceAfterProducer(c, s1, b', Arriving, b); }
  }

  lemma BalanceKept(c: Config, s: Pool, e: Event, b: nat)
    requires Sizes(c, s) && Enabled(c, s, e) && b < |c.texts| && Balance(c, s, b)
    requires e.Push? ==> StageOk(c, s, e.b)
    ensures Sizes(c, Next(c, s, e)) && Balance(c, Next(c, s, e), b)
  {
    NextSizes(c, s, e);
    NextIs(c, s, e);
    hide Balance, StageOk, Next, SetProducer, SetWorker;
    hide AfterPush, AfterTake, AfterExecute, AfterDecrement, AfterSignal;
    if e.Push? {
      BalanceAfterPush(c, s, e.b, e.wakeWorker, b);
    } else if e.Take? {
      BalanceAfterTake(c, s, e.w, e.wakeProducer, b);
    } else if e.Execute? {
      BalanceAfterExecute(c, s, e.w, b);
    } else if e.Decrement? {
      BalanceAfterDecrement(c, s, e.w, b);
    } else if e.Signal? {
      BalanceAfterSignal(c, s, e.w, b);
    } else if e.Shutdown? {
      BalanceAfterShutdown(c, s, b);
    } else if OnlyWorker(e) {
      BalanceAfterWorker(c, s, e.w, WorkerAfter(e), b);
    } else {
      BalanceAfterProducer(c, s, e.b, ProducerAfter(c, s, e), b);
    }
  }

  // ---- Every step keeps each item in one place ----------------------------------------------------

  lemma StageNext(c: Config, s: Pool, b: nat)
    requires Sizes(c, s) && b < |c.texts| && StageOk(c, s, b) && s.producers[b].Pushing?
    ensures s.producers[b].next < |c.texts[b]|
  {
  }

  lemma ConservedAfterPush(c: Config, s: Pool, b': nat, k: Option<nat>, b: nat, i: nat)
    requires Sizes(c, s) && Enabled(c, s, Push(b', k)) && b < |c.texts| && Conserved(c, s, b, i) && StageOk(c, s, b')
    ensures Conserved(c, AfterPush(c, s, b', k), b, i)
  {
    var j := s.producers[b'].next;
    hide StageOk;
    assert j < |c.texts[b']| by { StageNext(c, s, b'); }
    PushSums(s, Item(b', j, TextAt(c, b', j)), k, AtSlot(b, i), Holds(b, i));
  }

  lemma ConservedAfterTake(c: Config, s: Pool, w: nat, k: Option<nat>, b: nat, i: nat)
    requires Sizes(c, s) && Enabled(c, s, Take(w, k)) && b < |c.texts| && Conserved(c, s, b, i)
    ensures Conserved(c, AfterTake(s, w, k), b, i)
  {
    TakeSums(s, w, AtSlot(b, i), Holds(b, i));
  }

  lemma ConservedAfterExecute(c: Config, s: Pool, w: nat, b: nat, i: nat)
    requires Sizes(c, s) && Enabled(c, s, Execute(w)) && b < |c.texts| && Conserved(c, s, b, i)
    ensures Conserved(c, AfterExecute(c, s, w), b, i)
  {
    var x := s.workers[w].item;
    SumUpdate(s.workers, w, Ran(x), Holds(b, i));
    SumSnoc(s.log, x, AtSlot(b, i));
  }

  lemma ConservedAfterShutdown(c: Config, s: Pool, b: nat, i: nat)
    requires Sizes(c, s) && b < |c.texts| && Conserved(c, s, b, i)
    ensures Conserved(c, AfterShutdown(s), b, i)
  {
    WakeAllSum(s.workers, Holds(b, i));
  }

  lemma ConservedAfterWorker(c: Config, s: Pool, w: nat, x: Worker, b: nat, i: nat)
    requires Sizes(c, s) && w < |s.workers| && b < |c.texts| && Conserved(c, s, b, i) && !x.Holding?
    requires !s.workers[w].Holding?
    ensures Conserved(c, SetWorker(s, w, x), b, i)
  {
    SameWorkerSum(s.workers, w, x, Holds(b, i));
  }

  lemma ConservedAfterProducer(c: Config, s: Pool, b': nat, p: Producer, b: nat, i: nat)
    requires Sizes(c, s) && b' < |c.texts| && b < |c.texts| && Conserved(c, s, b, i)
    requires Pushed(c, p, b') == Pushed(c, s.producers[b'], b')
    ensures Conserved(c, SetProducer(s, b', p), b, i)
  {
  }

  lemma ConservedAfterSignal(c: Config, s: Pool, w: nat, b: nat, i: nat)
    requires Sizes(c, s) && Enabled(c, s, Signal(w)) && b < |c.texts| && Conserved(c, s, b, i)
    ensures Conserved(c, AfterSignal(s, w), b, i)
  {
    ConservedAfterWorker(c, s, w, Awake, b, i);
    var b', s1 := s.workers[w].batch, SetWorker(s, w, Awake);
    if ProducerIs(s, b', Waiting) { ConservedAfterProducer(c, s1, b', Arriving, b, i); }
  }

  lemma ConservedAfterDecrement(c: Config, s: Pool, w: nat, b: nat, i: nat)
    requires Sizes(c, s) && Enabled(c, s, Decrement(w)) && b < |c.texts| && Conserved(c, s, b, i)
    ensures Conserved(c, AfterDecrement(s, w), b, i)
  {
    var b' := s.workers[w].item.batch;
    var x := if b' < |s.remaining| && s.remaining[b'] == 1 then Notifying(b') else Awake;
    ConservedAfterWorker(c, s, w, x, b, i);
  }

  lemma ConservedKept(c: Config, s: Pool, e: Event, b: nat, i: nat)
    requires Sizes(c, s) && Enabled(c, s, e) && b < |c.texts| && Conserved(c, s, b, i)
    requires e.Push? ==> StageOk(c, s, e.b)
    ensures Sizes(c, Next(c, s, e)) && Conserved(c, Next(c, s, e), b, i)
  {
    NextSizes(c, s, e);
    NextIs(c, s, e);
    hide Conserved, StageOk, Next, SetProducer, SetWorker;
    hide AfterPush, AfterTake, AfterExecute, AfterDecrement, AfterSignal;
    if e.Push? {
      ConservedAfterPush(c, s, e.b, e.wakeWorker, b, i);
    } else if e.Take? {
      ConservedAfterTake(c, s, e.w, e.wakeProducer, b, i);
    } else if e.Execute? {
      ConservedAfterExecute(c, s, e.w, b, i);
    } else if e.Decrement? {
      ConservedAfterDecrement(c, s, e.w, b, i);
    } else if e.Signal? {
      ConservedAfterSignal(c, s, e.w, b, i);
    } else if e.Shutdown? {
      ConservedAfterShutdown(c, s, b, i);
    } else if OnlyWorker(e) {
      ConservedAfterWorker(c, s, e.w, WorkerAfter(e), b, i);
    } else {
      ConservedAfterProducer(c, s, e.b, ProducerAfter(c, s, e), b, i);
    }
  }

  // ---- Stages, labels and outputs -------------------------------------------------------------------

  /** A worker that still has to count its item down keeps the counter positive. */
  lemma CarriedCounts(c: Config, s: Pool, w: nat)
    requires Sizes(c, s) && w < |s.workers| && s.workers[w].Ran? && Labelled(c, s.workers[w].item)
    requires Balance(c, s, s.workers[w].item.batch) && StageOk(c, s, s.workers[w].item.batch)
    ensures s.remaining[s.workers[w].item.batch] > 0
  {
    var b := s.workers[w].item.batch;
    SumAtLeast(s.workers, w, Carries(b));
    assert Unpushed(c, s.producers[b], b) >= 0;
  }

  lemma StageAfterWorkers(c: Config, s: Pool, s': Pool, b: nat)
    requires Sizes(c, s) && b < |c.texts| && StageOk(c, s, b)
    requires s'.producers == s.producers && s'.remaining == s.remaining && |s'.workers| == |s.workers|
    requires forall w :: 0 <= w < |s.workers| && s.workers[w] == Notifying(b) ==> s'.workers[w] == s.workers[w]
    ensures StageOk(c, s', b)
  {
  }

  lemma StageAfterPush(c: Config, s: Pool, b': nat, k: Option<nat>, b: nat)
    requires Sizes(c, s) && Enabled(c, s, Push(b', k)) && b < |c.texts| && StageOk(c, s, b)
    ensures StageOk(c, AfterPush(c, s, b', k), b)
  {
    StageAfterWorkers(c, s, AfterPush(c, s, b', k).(producers := s.producers), b);
  }

  lemma StageAfterTake(c: Config, s: Pool, w: nat, k: Option<nat>, b: nat)
    requires Sizes(c, s) && Enabled(c, s, Take(w, k)) && b < |c.texts| && StageOk(c, s, b)
    ensures StageOk(c, AfterTake(s, w, k), b)
  {
    StageAfterWorkers(c, s, AfterTake(s, w, k).(producers := s.producers), b);
  }

  lemma StageAfterDecrement(c: Config, s: Pool, w: nat, b: nat)
    requires Sizes(c, s) && Enabled(c, s, Decrement(w)) && b < |c.texts| && StageOk(c, s, b)
    requires Labelled(c, s.workers[w].item) && s.remaining[s.workers[w].item.batch] > 0
    ensures StageOk(c, AfterDecrement(s, w), b)
  {
    var s' := AfterDecrement(s, w);
    StageAfterWorkers(c, s, s'.(remaining := s.remaining), b);
    if s.workers[w].item.batch == b && s.remaining[b] == 1 {
      assert s'.workers[w] == Notifying(b);
    }
  }

  lemma StageAfterSignal(c: Config, s: Pool, w: nat, b: nat)
    requires Sizes(c, s) && Enabled(c, s, Signal(w)) && b < |c.texts| && StageOk(c, s, b)
    ensures StageOk(c, AfterSignal(s, w), b)
  {
    var s' := AfterSignal(s, w);
    if s.workers[w].batch != b {
      StageAfterWorkers(c, s, s'.(producers := s.producers), b);
    }
  }

  lemma CounterNotNegative(c: Config, s: Pool, b: nat)
    requires Sizes(c, s) && b < |c.texts| && Balance(c, s, b) && StageOk(c, s, b)
    ensures s.remaining[b] >= 0
  {
  }

  lemma StageAfterProducer(c: Config, s: Pool, e: Event, b: nat)
    requires Sizes(c, s) && Enabled(c, s, e) && OnlyProducer(e) && b < |c.texts| && StageOk(c, s, b)
    requires s.remaining[b] >= 0
    ensures StageOk(c, SetProducer(s, e.b, ProducerAfter(c, s, e)), b)
  {
  }

  lemma StageKept(c: Config, s: Pool, e: Event, b: nat)
    requires Sizes(c, s) && Enabled(c, s, e) && b < |c.texts| && Balance(c, s, b) && StageOk(c, s, b)
    requires e.Decrement? ==> Labelled(c, s.workers[e.w].item) && s.remaining[s.workers[e.w].item.batch] > 0
    ensures Sizes(c, Next(c, s, e)) && StageOk(c, Next(c, s, e), b)
  {
    NextSizes(c, s, e);
    NextIs(c, s, e);
    CounterNotNegative(c, s, b);
    hide Balance, StageOk, AfterPush, AfterTake, AfterDecrement, AfterSignal, SetProducer, Next;
    if e.Push? {
      StageAfterPush(c, s, e.b, e.wakeWorker, b);
    } else if e.Take? {
      StageAfterTake(c, s, e.w, e.wakeProducer, b);
    } else if e.Decrement? {
      StageAfterDecrement(c, s, e.w, b);
    } else if e.Signal? {
      StageAfterSignal(c, s, e.w, b);
    } else if OnlyProducer(e) {
      StageAfterProducer(c, s, e, b);
    } else {
      StageAfterWorkers(c, s, Next(c, s, e), b);
    }
  }

  lemma LabelsKept(c: Config, s: Pool, e: Event)
    requires Sizes(c, s) && Enabled(c, s, e) && Labels(c, s)
    requires e.Push? ==> StageOk(c, s, e.b)
    ensures Labels(c, Next(c, s, e))
  {
    NextIs(c, s, e);
    hide Next, StageOk;
    if e.Push? {
      assert s.producers[e.b].next < |c.texts[e.b]| by { StageNext(c, s, e.b); }
    }
  }

  lemma WrittenKept(c: Config, s: Pool, e: Event)
    requires Sizes(c, s) && Enabled(c, s, e) && Labels(c, s) && Written(c, s)
    ensures Written(c, Next(c, s, e))
  {
    NextIs(c, s, e);
    var s' := Next(c, s, e);
    hide Next, Enabled;
    if e.Execute? {
      WrittenAfterExecute(c, s, e.w);
    } else {
      OutputsSame(c, s, e);
      forall k | 0 <= k < |s.log| ensures SlotHolds(c, s', s.log[k]) {
        assert SlotHolds(c, s, s.log[k]);
      }
    }
  }

  lemma OutputsSame(c: Config, s: Pool, e: Event)
    requires Sizes(c, s) && Enabled(c, s, e) && !e.Execute?
    ensures Next(c, s, e).log == s.log && Next(c, s, e).outputs == s.outputs
  {
  }

  lemma WrittenAfterExecute(c: Config, s: Pool, w: nat)
    requires w < |s.workers| && s.workers[w].Holding? && Labels(c, s) && Written(c, s)
    ensures Written(c, AfterExecute(c, s, w))
  {
  }
}

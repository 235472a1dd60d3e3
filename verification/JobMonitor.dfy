/** thread_mutex_cond.c: a queue of jobs between one producer and one consumer, who takes them
    in batches; a monitor of one mutex and two condition variables. The state, its atomic
    steps, and what every interleaving keeps. */
module JobMonitor {

  /** A job of the queue: the node that malloc gave, and the string read into it. */
  datatype Job<A> = Job(addr: A, text: string)

  /** thread_func1, the consumer: what it does next. */
  datatype ConsPc<A> =
    | ConsLock
    | ConsTest                     // holds the mutex
    | ConsAsleep                   // in the wait queue of dq_cv2
    | ConsWoken                    // signalled, must take the mutex again
    | Draining                     // holds the mutex from here
    | Freeing(job: Job<A>)         // next_job
    | ConsSignal
    | ConsUnlock                   // up to here

  /** thread_func2, the producer. */
  datatype ProdPc<A> =
    | ProdLock
    | ProdTest                     // holds the mutex
    | ProdAsleep                   // in the wait queue of eq_cv1
    | ProdWoken                    // signalled, must take the mutex again
    | Reading                      // holds the mutex from here
    | Linking(job: Job<A>)         // new_job
    | ProdSignal
    | ProdUnlock                   // up to here

  datatype Owner = Nobody | Consumer | Producer

  /** What has happened: the jobs allocated, put into the queue, taken out of it, and freed. */
  datatype History<A> = History(mallocs: seq<Job<A>>, produced: seq<Job<A>>, consumed: seq<Job<A>>, frees: seq<Job<A>>)

  /** count is the unsigned queue_count, list the linked list, live the nodes in use. */
  datatype State<A> = State(count: nat, list: seq<Job<A>>, mutex: Owner, cons: ConsPc<A>, prod: ProdPc<A>,
                            live: set<A>, past: History<A>)

  const WORD: nat := 0x1_0000_0000

  type Word = x: int | 0 <= x < WORD

  function Incremented(count: nat): nat {
    if count + 1 == WORD then 0 else count + 1
  }

  function Decremented(count: nat): nat {
    if count == 0 then WORD - 1 else count - 1
  }

  // ------------------------------------------------------------------- steps

  /** The consumer or the producer goes on, or its pthread_cond_wait wakes up spuriously. The
      producer's job is what malloc and read give it, when that is its step. */
  datatype Event<A> = Consume | Produce(job: Job<A>) | WakeConsumer | WakeProducer

  ghost predicate Enabled<A>(s: State<A>, e: Event<A>) {
    match e
    case Consume => s.cons != ConsAsleep && (s.cons == ConsLock || s.cons == ConsWoken ==> s.mutex == Nobody)
    case Produce(job) =>
      && s.prod != ProdAsleep && (s.prod == ProdLock || s.prod == ProdWoken ==> s.mutex == Nobody)
      && (s.prod == Reading ==> job.addr !in s.live)
    case WakeConsumer => s.cons == ConsAsleep
    case WakeProducer => s.prod == ProdAsleep
  }

  function ConsThen<A>(pc: ConsPc<A>, list: seq<Job<A>>, count: nat, batch: nat): ConsPc<A> {
    match pc
    case ConsLock => ConsTest
    case ConsTest => if count < batch then ConsAsleep else Draining
    case ConsAsleep => ConsWoken
    case ConsWoken => ConsTest
    case Draining => if list == [] then ConsSignal else Freeing(list[0])
    case Freeing(_) => Draining
    case ConsSignal => ConsUnlock
    case ConsUnlock => ConsLock
  }

  function ProdThen<A>(pc: ProdPc<A>, job: Job<A>, count: nat, batch: nat): ProdPc<A> {
    match pc
    case ProdLock => ProdTest
    case ProdTest => if count >= batch then ProdAsleep else Reading
    case ProdAsleep => ProdWoken
    case ProdWoken => ProdTest
    case Reading => Linking(job)
    case Linking(_) => ProdSignal
    case ProdSignal => ProdUnlock
    case ProdUnlock => ProdLock
  }

  predicate ConsHolds<A>(pc: ConsPc<A>) {
    pc.ConsTest? || pc.Draining? || pc.Freeing? || pc.ConsSignal? || pc.ConsUnlock?
  }

  predicate ProdHolds<A>(pc: ProdPc<A>) {
    pc.ProdTest? || pc.Reading? || pc.Linking? || pc.ProdSignal? || pc.ProdUnlock?
  }

  /** The signal of one thread wakes the other, if it sleeps. */
  function ConsumeNext<A>(s: State<A>, batch: nat): State<A> {
    var pc, to := s.cons, ConsThen(s.cons, s.list, s.count, batch);
    s.(cons := to,
       prod := if pc.ConsSignal? && s.prod.ProdAsleep? then ProdWoken else s.prod,
       mutex := if ConsHolds(to) then Consumer else Nobody,
       list := if to.Freeing? then s.list[1..] else s.list,
       count := if to.Freeing? then Decremented(s.count) else s.count,
       live := if pc.Freeing? then s.live - {pc.job.addr} else s.live,
       past := s.past.(consumed := if to.Freeing? then s.past.consumed + [to.job] else s.past.consumed,
                       frees := if pc.Freeing? then s.past.frees + [pc.job] else s.past.frees))
  }

  function ProduceNext<A>(s: State<A>, job: Job<A>, batch: nat): State<A> {
    var pc, to := s.prod, ProdThen(s.prod, job, s.count, batch);
    s.(prod := to,
       cons := if pc.ProdSignal? && s.count >= batch && s.cons.ConsAsleep? then ConsWoken else s.cons,
       mutex := if ProdHolds(to) then Producer else Nobody,
       list := if pc.Linking? then s.list + [pc.job] else s.list,
       count := if pc.Linking? then Incremented(s.count) else s.count,
       live := if to.Linking? then s.live + {job.addr} else s.live,
       past := s.past.(mallocs := if to.Linking? then s.past.mallocs + [job] else s.past.mallocs,
                       produced := if pc.Linking? then s.past.produced + [pc.job] else s.past.produced))
  }

  function Next<A>(s: State<A>, e: Event<A>, batch: nat): State<A> {
    match e
    case Consume => ConsumeNext(s, batch)
    case Produce(job) => ProduceNext(s, job, batch)
    case WakeConsumer => s.(cons := ConsWoken)
    case WakeProducer => s.(prod := ProdWoken)
  }

  // --------------------------------------------------------------- invariant

  /** The mutex is held by the thread that is where it is held. */
  ghost predicate Mutex<A>(mutex: Owner, cons: ConsPc<A>, prod: ProdPc<A>) {
    && (mutex == Consumer <==> ConsHolds(cons))
    && (mutex == Producer <==> ProdHolds(prod))
  }

  /** n is a multiple of batch. */
  ghost predicate Batched(n: nat, batch: nat)
    requires batch > 0
  {
    n == 0 || (n >= batch && Batched(n - batch, batch))
  }

  predicate Emptying<A>(cons: ConsPc<A>) {
    cons.Draining? || cons.Freeing?
  }

  /** The counter counts, there is room for a job that will be linked, and jobs are taken out
      in whole batches. */
  ghost predicate Counter<A>(count: nat, list: seq<Job<A>>, consumed: nat, cons: ConsPc<A>, prod: ProdPc<A>,
                             batch: nat) {
    && 0 < batch < WORD && count == |list| <= batch
    && (prod.Reading? || prod.Linking? ==> count < batch)
    && (cons.ConsSignal? || cons.ConsUnlock? ==> count == 0)
    && Batched(if Emptying(cons) then consumed + |list| else consumed, batch)
  }

  /** A thread sleeps without a signal only while it has to, or the other is about to signal. */
  ghost predicate Sleep<A>(count: nat, cons: ConsPc<A>, prod: ProdPc<A>, batch: nat) {
    && (cons.ConsAsleep? ==> count < batch || prod.ProdSignal?)
    && (prod.ProdAsleep? ==> count == batch || Emptying(cons) || cons.ConsSignal?)
  }

  function Unlinked<A>(cons: ConsPc<A>): seq<Job<A>> {
    if cons.Freeing? then [cons.job] else []
  }

  function Unqueued<A>(prod: ProdPc<A>): seq<Job<A>> {
    if prod.Linking? then [prod.job] else []
  }

  /** Jobs go through the queue in order, from malloc to free. */
  ghost predicate Order<A>(h: History<A>, list: seq<Job<A>>, cons: ConsPc<A>, prod: ProdPc<A>) {
    && h.mallocs == h.produced + Unqueued(prod)
    && h.produced == h.consumed + list
    && h.consumed == h.frees + Unlinked(cons)
  }

  /** The nodes of the jobs are different and are those in use. */
  ghost predicate Heap<A>(jobs: seq<Job<A>>, live: set<A>) {
    && (forall i, j :: 0 <= i < j < |jobs| ==> jobs[i].addr != jobs[j].addr)
    && (forall i :: 0 <= i < |jobs| ==> jobs[i].addr in live)
    && |live| == |jobs|
  }

  /** The jobs allocated and not yet freed. */
  function InUse<A>(list: seq<Job<A>>, cons: ConsPc<A>, prod: ProdPc<A>): seq<Job<A>> {
    Unlinked(cons) + list + Unqueued(prod)
  }

  ghost predicate Inv<A>(s: State<A>, batch: nat) {
    && Mutex(s.mutex, s.cons, s.prod)
    && Counter(s.count, s.list, |s.past.consumed|, s.cons, s.prod, batch)
    && Sleep(s.count, s.cons, s.prod, batch)
    && Order(s.past, s.list, s.cons, s.prod)
    && Heap(InUse(s.list, s.cons, s.prod), s.live)
  }

  // ------------------------------------------------------ what a step keeps

  lemma ConsumeKeepsMutex<A>(s: State<A>, batch: nat)
    requires Mutex(s.mutex, s.cons, s.prod) && Enabled(s, Consume)
    ensures var u := ConsumeNext(s, batch); Mutex(u.mutex, u.cons, u.prod)
  {
  }

  lemma ProduceKeepsMutex<A>(s: State<A>, job: Job<A>, batch: nat)
    requires Mutex(s.mutex, s.cons, s.prod) && Enabled(s, Produce(job))
    ensures var u := ProduceNext(s, job, batch); Mutex(u.mutex, u.cons, u.prod)
  {
  }

  /** A full queue adds a batch to those taken out. */
  lemma {:induction false} ConsumeKeepsCounter<A>(s: State<A>, batch: nat)
    requires Mutex(s.mutex, s.cons, s.prod) && Enabled(s, Consume)
    requires Counter(s.count, s.list, |s.past.consumed|, s.cons, s.prod, batch)
    ensures var u := ConsumeNext(s, batch); Counter(u.count, u.list, |u.past.consumed|, u.cons, u.prod, batch)
  {
    assert Batched(|s.past.consumed| + batch, batch) <== Batched(|s.past.consumed|, batch);
  }

  lemma ProduceKeepsCounter<A>(s: State<A>, job: Job<A>, batch: nat)
    requires Mutex(s.mutex, s.cons, s.prod) && Enabled(s, Produce(job))
    requires Counter(s.count, s.list, |s.past.consumed|, s.cons, s.prod, batch)
    ensures var u := ProduceNext(s, job, batch); Counter(u.count, u.list, |u.past.consumed|, u.cons, u.prod, batch)
  {
  }

  lemma ConsumeKeepsSleep<A>(s: State<A>, batch: nat)
    requires Mutex(s.mutex, s.cons, s.prod) && Enabled(s, Consume)
    requires Counter(s.count, s.list, |s.past.consumed|, s.cons, s.prod, batch)
    requires Sleep(s.count, s.cons, s.prod, batch)
    ensures var u := ConsumeNext(s, batch); Sleep(u.count, u.cons, u.prod, batch)
  {
  }

  lemma ProduceKeepsSleep<A>(s: State<A>, job: Job<A>, batch: nat)
    requires Mutex(s.mutex, s.cons, s.prod) && Enabled(s, Produce(job))
    requires Counter(s.count, s.list, |s.past.consumed|, s.cons, s.prod, batch)
    requires Sleep(s.count, s.cons, s.prod, batch)
    ensures var u := ProduceNext(s, job, batch); Sleep(u.count, u.cons, u.prod, batch)
  {
  }

  lemma ConsumeKeepsOrder<A>(s: State<A>, batch: nat)
    requires Order(s.past, s.list, s.cons, s.prod) && Enabled(s, Consume)
    ensures var u := ConsumeNext(s, batch); Order(u.past, u.list, u.cons, u.prod)
  {
  }

  lemma ProduceKeepsOrder<A>(s: State<A>, job: Job<A>, batch: nat)
    requires Order(s.past, s.list, s.cons, s.prod) && Enabled(s, Produce(job))
    ensures var u := ProduceNext(s, job, batch); Order(u.past, u.list, u.cons, u.prod)
  {
  }

  lemma HeapWithout<A>(jobs: seq<Job<A>>, live: set<A>)
    requires Heap(jobs, live) && jobs != []
    ensures jobs[0].addr in live && Heap(jobs[1..], live - {jobs[0].addr})
  {
  }

  lemma HeapWith<A>(jobs: seq<Job<A>>, live: set<A>, job: Job<A>)
    requires Heap(jobs, live) && job.addr !in live
    ensures Heap(jobs + [job], live + {job.addr})
  {
  }

  lemma {:induction false} ConsumeInUse<A>(s: State<A>, batch: nat)
    requires Enabled(s, Consume)
    ensures var u := ConsumeNext(s, batch); var before := InUse(s.list, s.cons, s.prod);
            && (s.cons.Freeing? ==> before != [] && s.cons.job == before[0])
            && InUse(u.list, u.cons, u.prod) == if s.cons.Freeing? then before[1..] else before
  {
    var tail := Unqueued(s.prod);
    if s.cons.Draining? && s.list != [] {
      assert Unlinked(Freeing(s.list[0])) + s.list[1..] == s.list;
      assert Unlinked(s.cons) + s.list == s.list;
    } else if s.cons.Freeing? {
      assert [s.cons.job] + s.list + tail == [s.cons.job] + (s.list + tail);
      assert [] + s.list + tail == s.list + tail;
    }
  }

  /** What is freed is in use: nothing is freed twice. */
  lemma {:induction false} ConsumeKeepsHeap<A>(s: State<A>, batch: nat)
    requires Heap(InUse(s.list, s.cons, s.prod), s.live) && Enabled(s, Consume)
    ensures var u := ConsumeNext(s, batch); Heap(InUse(u.list, u.cons, u.prod), u.live)
    ensures s.cons.Freeing? ==> s.cons.job.addr in s.live
  {
    ConsumeInUse(s, batch);
    if s.cons.Freeing? {
      HeapWithout(InUse(s.list, s.cons, s.prod), s.live);
    }
  }

  lemma {:induction false} ProduceKeepsHeap<A>(s: State<A>, job: Job<A>, batch: nat)
    requires Heap(InUse(s.list, s.cons, s.prod), s.live) && Enabled(s, Produce(job))
    ensures var u := ProduceNext(s, job, batch); Heap(InUse(u.list, u.cons, u.prod), u.live)
  {
    var u := ProduceNext(s, job, batch);
    var before, after := InUse(s.list, s.cons, s.prod), InUse(u.list, u.cons, u.prod);
    if s.prod.Reading? {
      HeapWith(before, s.live, job);
      assert after == before + [job];
    } else {
      assert after == before;
    }
  }

  lemma WakeKeepsInv<A>(s: State<A>, e: Event<A>, batch: nat)
    requires Inv(s, batch) && Enabled(s, e) && (e.WakeConsumer? || e.WakeProducer?)
    ensures Inv(Next(s, e, batch), batch)
  {
  }

  /** Every step of either thread, and every spurious wake-up, keeps the invariant. */
  lemma {:induction false} StepKeepsInv<A>(s: State<A>, e: Event<A>, batch: nat)
    requires Inv(s, batch) && Enabled(s, e)
    ensures Inv(Next(s, e, batch), batch)
  {
    if e.Consume? {
      ConsumeKeepsMutex(s, batch);
      ConsumeKeepsCounter(s, batch);
      ConsumeKeepsSleep(s, batch);
      ConsumeKeepsOrder(s, batch);
      ConsumeKeepsHeap(s, batch);
    } else if e.Produce? {
      ProduceKeepsMutex(s, e.job, batch);
      ProduceKeepsCounter(s, e.job, batch);
      ProduceKeepsSleep(s, e.job, batch);
      ProduceKeepsOrder(s, e.job, batch);
      ProduceKeepsHeap(s, e.job, batch);
    } else {
      WakeKeepsInv(s, e, batch);
    }
  }
}

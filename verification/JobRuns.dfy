/** What holds in every run of the two threads of thread_mutex_cond.c, under every interleaving
    and with spurious wake-ups, for any batch size that the counter can hold. */
module JobRuns {
  import opened JobMonitor
  import opened Remainders

  /** An empty queue, a free mutex and both threads at their start. */
  ghost predicate Init<A>(s: State<A>) {
    s == State(0, [], Nobody, ConsLock, ProdLock, {}, History([], [], [], []))
  }

  ghost predicate IsRun<A>(states: seq<State<A>>, events: seq<Event<A>>, batch: nat) {
    && 0 < batch < WORD
    && |states| == |events| + 1 && Init(states[0])
    && forall i :: 0 <= i < |events| ==> StepAt(states, events, batch, i)
  }

  /** Event number i takes state number i to the next. */
  ghost predicate StepAt<A>(states: seq<State<A>>, events: seq<Event<A>>, batch: nat, i: nat)
    requires i < |events| && |states| == |events| + 1
  {
    Enabled(states[i], events[i]) && states[i + 1] == Next(states[i], events[i], batch)
  }

  lemma {:induction false} RunKeepsInv<A>(states: seq<State<A>>, events: seq<Event<A>>, batch: nat, i: nat)
    requires IsRun(states, events, batch) && i < |states|
    ensures Inv(states[i], batch)
  {
    if i > 0 {
      RunKeepsInv(states, events, batch, i - 1);
      assert StepAt(states, events, batch, i - 1);
      StepKeepsInv(states[i - 1], events[i - 1], batch);
    }
  }

  lemma {:induction false} BatchedIsMultiple(n: nat, batch: nat)
    requires batch > 0
    ensures Batched(n, batch) <==> n % batch == 0
  {
    if n >= batch {
      BatchedIsMultiple(n - batch, batch);
      OnePeriodOn(n - batch, batch);
    } else {
      WithinFirst(n, batch);
    }
  }

  // ------------------------------------------------------------------- queue

  /** Whenever the mutex is free the counter is the length of the list, between 0 and the batch
      size; the jobs taken out are the first ones put in, in whole batches; every job ever
      allocated has been freed or is in the list, once; and the nodes in use are different. */
  lemma {:induction false} WhenMutexIsFree<A>(states: seq<State<A>>, events: seq<Event<A>>, batch: nat, i: nat)
    requires IsRun(states, events, batch) && i < |states| && states[i].mutex == Nobody
    ensures var s := states[i];
            && s.count == |s.list| <= batch
            && s.past.produced == s.past.consumed + s.list && |s.past.consumed| % batch == 0
            && s.past.mallocs == s.past.frees + s.list
            && |s.live| == |s.list| && (forall k :: 0 <= k < |s.list| ==> s.list[k].addr in s.live)
            && forall k, l :: 0 <= k < l < |s.list| ==> s.list[k].addr != s.list[l].addr
  {
    RunKeepsInv(states, events, batch, i);
    BatchedIsMultiple(|states[i].past.consumed|, batch);
    assert InUse(states[i].list, states[i].cons, states[i].prod) == states[i].list;
  }

  /** At every moment, free mutex or not, what is taken out is what was put in first, and every
      job allocated is freed, about to be freed, in the list, or about to be linked, once. */
  lemma {:induction false} EveryJobOnce<A>(states: seq<State<A>>, events: seq<Event<A>>, batch: nat, i: nat)
    requires IsRun(states, events, batch) && i < |states|
    ensures states[i].past.consumed <= states[i].past.produced
    ensures states[i].past.mallocs == states[i].past.frees + InUse(states[i].list, states[i].cons, states[i].prod)
    ensures states[i].cons.Freeing? ==> states[i].cons.job.addr in states[i].live
  {
    RunKeepsInv(states, events, batch, i);
    assert states[i].cons.Freeing? ==> InUse(states[i].list, states[i].cons, states[i].prod)[0] == states[i].cons.job;
  }

  /** What malloc and read gave the producer before moment i, in order: the jobs of its steps at the read. */
  ghost function ReadIn<A>(states: seq<State<A>>, events: seq<Event<A>>, i: nat): seq<Job<A>>
    requires i <= |events| <= |states|
  {
    if i == 0 then []
    else
      var rest := ReadIn(states, events, i - 1);
      if events[i - 1].Produce? && states[i - 1].prod.Reading? then rest + [events[i - 1].job] else rest
  }

  /** The jobs allocated are those, address and text. */
  lemma {:induction false} AllocatedIsReadIn<A>(states: seq<State<A>>, events: seq<Event<A>>, batch: nat, i: nat)
    requires IsRun(states, events, batch) && i < |states|
    ensures states[i].past.mallocs == ReadIn(states, events, i)
  {
    if i > 0 {
      AllocatedIsReadIn(states, events, batch, i - 1);
      assert StepAt(states, events, batch, i - 1);
    }
  }

  /** From the terminal to the consumer: at every moment of every run what has been taken out of the
      queue is, text by text, the first of what was read in; what is not yet taken out is in the
      list or about to be linked. */
  lemma {:induction false} ConsumedWasReadIn<A>(states: seq<State<A>>, events: seq<Event<A>>, batch: nat, i: nat)
    requires IsRun(states, events, batch) && i < |states|
    ensures var s := states[i];
            && ReadIn(states, events, i) == s.past.consumed + s.list + Unqueued(s.prod)
            && s.past.consumed <= ReadIn(states, events, i)
  {
    AllocatedIsReadIn(states, events, batch, i);
    RunKeepsInv(states, events, batch, i);
  }

  /** The unsigned counter never wraps around: a step changes it by as much as the list. */
  lemma {:induction false} CounterNeverWraps<A>(s: State<A>, e: Event<A>, batch: nat)
    requires Inv(s, batch) && Enabled(s, e)
    ensures var u := Next(s, e, batch); u.count - s.count == |u.list| - |s.list|
  {
    StepKeepsInv(s, e, batch);
  }

  // --------------------------------------------------------------- wake-ups

  /** No wake-up is lost: a consumer sleeping without a signal has less than a batch to take, and
      a producer sleeping without a signal finds the queue full, unless the other thread holds
      the mutex on its way to the signal. They never both sleep without a signal. */
  lemma {:induction false} NoLostWakeUp<A>(states: seq<State<A>>, events: seq<Event<A>>, batch: nat, i: nat)
    requires IsRun(states, events, batch) && i < |states|
    ensures var s := states[i];
            && (s.cons.ConsAsleep? ==> s.count < batch || (s.mutex == Producer && s.prod.ProdSignal?))
            && (s.prod.ProdAsleep? ==>
                  s.count == batch || (s.mutex == Consumer && (Emptying(s.cons) || s.cons.ConsSignal?)))
            && !(s.cons.ConsAsleep? && s.prod.ProdAsleep?)
  {
    RunKeepsInv(states, events, batch, i);
  }

  /** One of the threads can always go on, without a spurious wake-up. */
  lemma {:induction false} NeverStuck<A>(states: seq<State<A>>, events: seq<Event<A>>, batch: nat, i: nat, job: Job<A>)
    requires IsRun(states, events, batch) && i < |states| && job.addr !in states[i].live
    ensures Enabled(states[i], Consume) || Enabled(states[i], Produce(job))
  {
    RunKeepsInv(states, events, batch, i);
  }

  // ---------------------------------------------------------------- progress

  /** How long the consumer can go on before the producer must put a job. */
  function ConsRank<A>(pc: ConsPc<A>, count: nat, batch: nat): nat {
    var full := if count >= batch then 9 + 2 * batch else 0;
    match pc
    case ConsAsleep => 0
    case ConsTest => full + 1
    case ConsLock => full + 2
    case ConsWoken => full + 2
    case ConsUnlock => 3
    case ConsSignal => 8
    case Draining => 9 + 2 * count
    case Freeing(_) => 10 + 2 * count
  }

  function ProdRank<A>(pc: ProdPc<A>, count: nat, batch: nat): nat {
    match pc
    case ProdAsleep => 0
    case Linking(_) => 1
    case Reading => 2
    case ProdTest => 3
    case ProdLock => 4
    case ProdWoken => 4
    case ProdUnlock => 5
    case ProdSignal => 6 + if count >= batch then 11 + 2 * batch else 0
  }

  function Rank<A>(s: State<A>, batch: nat): nat {
    ConsRank(s.cons, s.count, batch) + ProdRank(s.prod, s.count, batch)
  }

  /** More steps than this put a job or contain a spurious wake-up. */
  function Round(batch: nat): nat {
    4 * batch + 29
  }

  lemma RankBelowRound<A>(s: State<A>, batch: nat)
    requires Inv(s, batch)
    ensures Rank(s, batch) < Round(batch)
  {
  }

  lemma ConsumeLowersRank<A>(s: State<A>, batch: nat)
    requires Inv(s, batch) && Enabled(s, Consume)
    ensures Rank(ConsumeNext(s, batch), batch) < Rank(s, batch)
  {
  }

  lemma ProduceLowersRank<A>(s: State<A>, job: Job<A>, batch: nat)
    requires Inv(s, batch) && Enabled(s, Produce(job)) && !s.prod.Linking?
    ensures Rank(ProduceNext(s, job, batch), batch) < Rank(s, batch)
  {
  }

  predicate Spurious<A>(e: Event<A>) {
    e.WakeConsumer? || e.WakeProducer?
  }

  /** The spurious wake-ups from moment i to moment j. */
  function Wakes<A>(events: seq<Event<A>>, i: nat, j: nat): nat
    requires i <= j <= |events|
  {
    if i == j then 0 else Wakes(events, i, j - 1) + if Spurious(events[j - 1]) then 1 else 0
  }

  lemma {:induction false} StepSpends<A>(s: State<A>, e: Event<A>, batch: nat)
    requires Inv(s, batch) && Enabled(s, e)
    ensures var u, round := Next(s, e, batch), Round(batch);
            && |u.past.produced| == |s.past.produced| + (if e.Produce? && s.prod.Linking? then 1 else 0)
            && 1 + Rank(u, batch)
               <= Rank(s, batch) + if Spurious(e) || (e.Produce? && s.prod.Linking?) then round else 0
  {
    StepKeepsInv(s, e, batch);
    RankBelowRound(Next(s, e, batch), batch);
    if e.Consume? {
      ConsumeLowersRank(s, batch);
    } else if e.Produce? && !s.prod.Linking? {
      ProduceLowersRank(s, e.job, batch);
    }
  }

  /** The length of so many rounds, k * Round(batch). */
  function Rounds(k: nat, batch: nat): nat {
    if k == 0 then 0 else Rounds(k - 1, batch) + Round(batch)
  }

  lemma {:induction false} RoundsAre(k: nat, batch: nat)
    ensures Rounds(k, batch) == k * Round(batch)
  {
    if k > 0 {
      RoundsAre(k - 1, batch);
      assert k * Round(batch) == (k - 1) * Round(batch) + Round(batch);
    }
  }

  lemma NextRound(k: nat, l: nat, batch: nat)
    requires k <= l <= k + 1
    ensures Rounds(l, batch) == Rounds(k, batch) + if l == k + 1 then Round(batch) else 0
  {
  }

  lemma {:induction false} MoreRounds(few: nat, many: nat, batch: nat)
    requires few <= many
    ensures Rounds(few, batch) <= Rounds(many, batch)
    decreases many
  {
    if few < many {
      MoreRounds(few, many - 1, batch);
    }
  }

  /** The jobs put between two moments of a run and the spurious wake-ups in between. */
  ghost function Gains<A>(states: seq<State<A>>, events: seq<Event<A>>, i: nat, j: nat): int
    requires i <= j < |states| && |states| == |events| + 1
  {
    |states[j].past.produced| - |states[i].past.produced| + Wakes(events, i, j)
  }

  lemma {:induction false} GainsStep<A>(states: seq<State<A>>, events: seq<Event<A>>, batch: nat, i: nat, j: nat)
    requires IsRun(states, events, batch) && i < j < |states|
    ensures var gain := Gains(states, events, i, j) - Gains(states, events, i, j - 1);
            && 0 <= gain <= 1
            && 1 + Rank(states[j], batch) <= Rank(states[j - 1], batch) + if gain == 1 then Round(batch) else 0
  {
    RunKeepsInv(states, events, batch, j - 1);
    assert StepAt(states, events, batch, j - 1);
    StepSpends(states[j - 1], events[j - 1], batch);
  }

  /** However the threads are scheduled, from any moment of any run on, a job is put within every
      round of steps, not counting rounds with a spurious wake-up: neither thread can spin, hold
      the mutex for ever, or sleep for ever while the other does not put or take jobs. */
  lemma {:induction false} Progress<A>(states: seq<State<A>>, events: seq<Event<A>>, batch: nat, i: nat, j: nat)
    requires IsRun(states, events, batch) && i <= j < |states|
    ensures Gains(states, events, i, j) >= 0
    ensures j - i + Rank(states[j], batch)
            <= Rank(states[i], batch) + Rounds(Gains(states, events, i, j), batch)
    decreases j
  {
    if i < j {
      Progress(states, events, batch, i, j - 1);
      GainsStep(states, events, batch, i, j);
      NextRound(Gains(states, events, i, j - 1), Gains(states, events, i, j), batch);
    }
  }

  /** And what is put is taken out: a run of so many steps has consumed all but a batch. */
  lemma {:induction false} JobsAreConsumed<A>(states: seq<State<A>>, events: seq<Event<A>>, batch: nat, wanted: nat)
    requires IsRun(states, events, batch)
    requires |events| >= (wanted + batch + Wakes(events, 0, |events|) + 1) * Round(batch)
    ensures |states[|events|].past.consumed| >= wanted
  {
    var n := |events|;
    RunKeepsInv(states, events, batch, 0);
    RunKeepsInv(states, events, batch, n);
    RankBelowRound(states[0], batch);
    Progress(states, events, batch, 0, n);
    RoundsAre(wanted + batch + Wakes(events, 0, |events|) + 1, batch);
    if |states[n].past.produced| < wanted + batch {
      MoreRounds(Gains(states, events, 0, n), wanted + batch + Wakes(events, 0, |events|), batch);
    }
  }
}

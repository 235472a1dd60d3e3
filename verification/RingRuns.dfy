/** What holds in every run of the threads of prodcons_threads.c, under every interleaving and
    for any number of threads of each kind and any ring size. */
module RingRuns {
  import opened RingQueue

  /** After bufferinit: all slots free, nothing typed, every thread at its start. */
  ghost predicate Init(s: State) {
    && 0 < s.ring.n == |s.ring.buffer| && s.ring.bufin == 0 && s.ring.bufout == 0
    && s.ring.filledslots == 0 && s.ring.freeslots == 0
    && s.sems == Sems(0, s.ring.n, 0) && s.inputLock.Free? && s.dataLock.Free?
    && s.past == History([], [], [], [], [])
    && forall t :: 0 <= t < |s.pcs| ==> s.pcs[t] == StartOf(RoleOf(s.pcs[t]))
  }

  lemma {:induction false} InitHasInv(s: State)
    requires Init(s)
    ensures Inv(s)
  {
    forall t | 0 <= t < |s.pcs|
      ensures !HoldsInput(s.pcs[t]) && !HoldsData(s.pcs[t]) && !Sleeps(s.pcs[t])
      ensures forall stage :: !At(s.pcs[t], stage)
    {
      assert s.pcs[t] == StartOf(RoleOf(s.pcs[t]));
    }
    CountNone(s.pcs, ItemPut);
    CountNone(s.pcs, ItemTaken);
    CountNone(s.pcs, SlotTaken);
    CountNone(s.pcs, ItemGot);
    CountNone(s.pcs, LineTaken);
    CountNone(s.pcs, LineCopied);
  }

  ghost predicate IsRun(states: seq<State>, events: seq<Event>) {
    && |states| == |events| + 1 && Init(states[0])
    && forall i :: 0 <= i < |events| ==> StepAt(states, events, i)
  }

  /** Event number i takes state number i to the next. */
  ghost predicate StepAt(states: seq<State>, events: seq<Event>, i: nat)
    requires i < |events| && |states| == |events| + 1
  {
    var s := states[i];
    && Enabled(s, events[i]) && s.ring.bufin < |s.ring.buffer| && s.ring.bufout < |s.ring.buffer|
    && states[i + 1] == Next(s, events[i])
  }

  lemma {:induction false} RunKeepsInv(states: seq<State>, events: seq<Event>, i: nat)
    requires IsRun(states, events) && i < |states|
    ensures Inv(states[i])
  {
    if i == 0 {
      InitHasInv(states[0]);
    } else {
      RunKeepsInv(states, events, i - 1);
      assert StepAt(states, events, i - 1);
      StepKeepsInv(states[i - 1], events[i - 1]);
    }
  }

  // -------------------------------------------------------------- FIFO queue

  /** Threads between the semaphore they took from and the one they post to. */
  ghost function InFlight(pcs: seq<Pc>): nat {
    Count(pcs, SlotTaken) + Count(pcs, ItemPut) + Count(pcs, ItemTaken) + Count(pcs, ItemGot)
  }

  /** At every moment of every run: what was got is a prefix of what was put, between 0 and n
      items are in the ring, the indices are the numbers of puts and gets modulo n, both
      counters tell the occupancy, and the semaphores with the threads in flight make n. */
  lemma {:induction false} RingAlways(states: seq<State>, events: seq<Event>, i: nat)
    requires IsRun(states, events) && i < |states|
    ensures var s := states[i]; var puts, gets, n := |s.past.puts|, |s.past.gets|, s.ring.n;
            && n > 0 && s.past.gets <= s.past.puts && 0 <= puts - gets <= n
            && s.ring.bufin == puts % n && s.ring.bufout == gets % n
            && s.ring.filledslots == puts - gets && s.ring.freeslots == gets - puts
            && s.sems.items + s.sems.slots + InFlight(s.pcs) == n
  {
    RunKeepsInv(states, events, i);
    var s := states[i];
    SlotIsRemainder(|s.past.puts|, s.ring.n);
    SlotIsRemainder(|s.past.gets|, s.ring.n);
  }

  /** The items put and not yet got. */
  ghost function Queue(h: History): seq<Item>
    requires |h.gets| <= |h.puts|
  {
    h.puts[|h.gets|..]
  }

  lemma {:induction false} QueueOfCopy(h: History, pc: Pc, mailbox: Item, r: Slots)
    requires Ring(r, h.puts, h.gets) && (pc.GetCopy? ==> |h.gets| < |h.puts|)
    ensures var after := NextPast(h, pc, mailbox, r);
            && |after.gets| <= |after.puts|
            && if pc.PutCopy? then Queue(after) == Queue(h) + [mailbox]
               else if pc.GetCopy? then after.gets == h.gets + [Queue(h)[0]] && Queue(after) == Queue(h)[1..]
               else Queue(after) == Queue(h) && after.gets == h.gets
  {
    if pc.GetCopy? {
      GetKeepsRing(r, h.puts, h.gets, mailbox);
    }
  }

  /** The ring refines a FIFO queue of at most n items: a step puts the mailbox at the end of a
      queue that is not full, or takes the first item of a queue that is not empty, or leaves
      the queue alone. */
  lemma {:induction false} RefinesFifo(s: State, e: Event)
    requires Inv(s) && Enabled(s, e)
    ensures var h, after, pc := s.past, Next(s, e).past, s.pcs[e.t];
            && |after.gets| <= |after.puts| && |Queue(after)| <= s.ring.n
            && if pc.PutCopy? then |Queue(h)| < s.ring.n && Queue(after) == Queue(h) + [s.mailbox]
               else if pc.GetCopy? then
                 |Queue(h)| > 0 && after.gets == h.gets + [Queue(h)[0]] && Queue(after) == Queue(h)[1..]
               else Queue(after) == Queue(h) && after.gets == h.gets
  {
    CriticalSectionsSafe(s.ring.n, s.sems, s.pcs, |s.past.inputs|, |s.past.puts|, |s.past.gets|, e.t);
    QueueOfCopy(s.past, s.pcs[e.t], s.mailbox, s.ring);
  }

  /** No two threads are in critical sections of the same lock. */
  lemma {:induction false} MutualExclusion(s: State, t: nat, u: nat)
    requires Inv(s) && t < |s.pcs| && u < |s.pcs|
    ensures HoldsData(s.pcs[t]) && HoldsData(s.pcs[u]) ==> t == u
    ensures HoldsInput(s.pcs[t]) && HoldsInput(s.pcs[u]) ==> t == u
  {
    assert HoldsData(s.pcs[t]) <==> s.dataLock == HeldBy(t);
    assert HoldsInput(s.pcs[t]) <==> s.inputLock == HeldBy(t);
  }

  // ----------------------------------------------------------------- mailbox

  /** The mailbox is monotone: put number k queues line source[k], never an earlier line than
      the put before it and never line number k before it was typed; there are no more puts
      than lines. */
  lemma {:induction false} MailboxMonotone(states: seq<State>, events: seq<Event>, i: nat, k: nat, l: nat)
    requires IsRun(states, events) && i < |states| && k <= l < |states[i].past.puts|
    ensures var h := states[i].past;
            && |h.puts| <= |h.inputs| && |h.source| == |h.puts|
            && k <= h.source[k] <= h.source[l] < |h.inputs|
            && h.puts[k] == h.inputs[h.source[k]]
  {
    RunKeepsInv(states, events, i);
  }

  /** Every line is queued exactly once, in order, exactly if every line was typed only after
      the lines before it had been put (as far as puts have got). */
  lemma {:induction false} LosslessIff(h: History, mailbox: Item)
    requires Mailbox(h, mailbox)
    ensures (forall k :: 0 <= k < |h.puts| ==> h.source[k] == k) <==>
            (forall j :: 0 <= j < |h.inputs| ==> h.putsBefore[j] >= j || h.putsBefore[j] >= |h.puts|)
  {
    if forall k :: 0 <= k < |h.puts| ==> h.source[k] == k {
      forall j | 0 <= j < |h.inputs| ensures h.putsBefore[j] >= j || h.putsBefore[j] >= |h.puts| {
        var m := h.putsBefore[j];
        assert m < |h.puts| ==> (j <= h.source[m] <==> h.putsBefore[j] <= m);
      }
    }
    if forall j :: 0 <= j < |h.inputs| ==> h.putsBefore[j] >= j || h.putsBefore[j] >= |h.puts| {
      forall k | 0 <= k < |h.puts| ensures h.source[k] == k {
        var j := h.source[k];
        assert h.putsBefore[j] <= k;
      }
    }
  }

  /** No line has been overwritten before it was put, at any moment, exactly if the puts have queued
      every line once and in order and at most the latest line is not yet put. */
  lemma {:induction false} NoLineLostIff(h: History, mailbox: Item)
    requires Mailbox(h, mailbox)
    ensures (forall j :: 0 <= j < |h.inputs| ==> h.putsBefore[j] >= j) <==>
            (forall k :: 0 <= k < |h.puts| ==> h.source[k] == k) && |h.inputs| <= |h.puts| + 1
  {
    LosslessIff(h, mailbox);
    var last := |h.inputs| - 1;
    if last >= 0 && h.putsBefore[last] >= last {
      assert |h.puts| >= last;
    }
  }

  /** At every moment of every run. */
  lemma {:induction false} NoLineLostInRun(states: seq<State>, events: seq<Event>, i: nat)
    requires IsRun(states, events) && i < |states|
    ensures var h := states[i].past;
            && |h.source| == |h.puts| <= |h.inputs| == |h.putsBefore|
            && ((forall j :: 0 <= j < |h.inputs| ==> h.putsBefore[j] >= j) <==>
                (forall k :: 0 <= k < |h.puts| ==> h.source[k] == k) && |h.inputs| <= |h.puts| + 1)
            && ((forall j :: 0 <= j < |h.inputs| ==> h.putsBefore[j] >= j) ==> h.puts <= h.inputs)
  {
    RunKeepsInv(states, events, i);
    NoLineLostIff(states[i].past, states[i].mailbox);
  }

  // ------------------------------------------------------------ no deadlock

  /** A putter and a getter asleep together: then as many threads as the ring has slots are in
      flight, so they are not the only producer and the only consumer. */
  lemma {:induction false} BothAsleep(s: State, p: nat, c: nat) returns (other: nat)
    requires Inv(s) && p < |s.pcs| && c < |s.pcs| && s.pcs[p] == PutAsleepSlot && s.pcs[c] == GetAsleepItem
    ensures InFlight(s.pcs) == s.ring.n
    ensures other < |s.pcs| && other != p && other != c
    ensures RoleOf(s.pcs[other]).Producer? || RoleOf(s.pcs[other]).Consumer?
  {
    assert s.sems.slots == 0 && s.sems.items == 0;
    if Count(s.pcs, SlotTaken) >= 1 {
      other := CountFind(s.pcs, SlotTaken);
    } else if Count(s.pcs, ItemPut) >= 1 {
      other := CountFind(s.pcs, ItemPut);
    } else if Count(s.pcs, ItemTaken) >= 1 {
      other := CountFind(s.pcs, ItemTaken);
    } else {
      other := CountFind(s.pcs, ItemGot);
    }
  }

  ghost predicate OnlyOne(pcs: seq<Pc>, role: Role) {
    forall i, j :: 0 <= i < j < |pcs| ==> RoleOf(pcs[i]) != role || RoleOf(pcs[j]) != role
  }

  /** With one producer and one consumer, as the program starts them, they are never both
      asleep on the semaphores of the ring. */
  lemma {:induction false} NeverBothAsleep(states: seq<State>, events: seq<Event>, i: nat, p: nat, c: nat)
    requires IsRun(states, events) && i < |states| && p < |states[i].pcs| && c < |states[i].pcs|
    requires OnlyOne(states[i].pcs, Producer) && OnlyOne(states[i].pcs, Consumer)
    ensures !(states[i].pcs[p] == PutAsleepSlot && states[i].pcs[c] == GetAsleepItem)
  {
    RunKeepsInv(states, events, i);
    var s := states[i];
    if s.pcs[p] == PutAsleepSlot && s.pcs[c] == GetAsleepItem {
      assert RoleOf(s.pcs[p]).Producer? && RoleOf(s.pcs[c]).Consumer?;
      var other := BothAsleep(s, p, c);
    }
  }

  ghost predicate Steps(s: State, t: nat) {
    CanStep(s.pcs, s.inputLock, s.dataLock, t)
  }

  /** A thread in a critical section of the data lock can always go on. */
  lemma {:induction false} DataHolderSteps(s: State)
    requires Inv(s) && s.dataLock.HeldBy?
    ensures Steps(s, s.dataLock.t)
  {
    assert HoldsData(s.pcs[s.dataLock.t]);
  }

  /** A producer that sleeps on semslots with the input lock in its hands always has help: some
      consumer can step, and not to fall asleep, or waits only for the data lock, whose holder can. */
  lemma {:induction false} SleepingPutterHasHelp(s: State, p: nat, c: nat) returns (helper: nat)
    requires Inv(s) && p < |s.pcs| && s.pcs[p] == PutAsleepSlot
    requires c < |s.pcs| && RoleOf(s.pcs[c]).Consumer?
    ensures helper < |s.pcs| && RoleOf(s.pcs[helper]).Consumer?
    ensures Steps(s, helper)
            || (s.pcs[helper] == GetWantsData && s.dataLock.HeldBy? && Steps(s, s.dataLock.t))
    ensures s.pcs[helper] != GetAsleepItem && (s.pcs[helper] == GetWaitItem ==> s.sems.items > 0)
  {
    NoOtherPutter(s, p);
    if Count(s.pcs, ItemTaken) >= 1 {
      helper := CountFind(s.pcs, ItemTaken);
    } else if Count(s.pcs, ItemGot) >= 1 {
      helper := CountFind(s.pcs, ItemGot);
    } else {
      helper := c;
      assert s.sems.items > 0;
    }
    AwakeConsumer(s, helper);
  }

  /** A consumer that does not sleep can step, or waits for a holder of the data lock who can. */
  lemma {:induction false} AwakeConsumer(s: State, c: nat)
    requires Inv(s) && c < |s.pcs| && RoleOf(s.pcs[c]).Consumer? && s.pcs[c] != GetAsleepItem
    ensures Steps(s, c) || (s.pcs[c] == GetWantsData && s.dataLock.HeldBy? && Steps(s, s.dataLock.t))
  {
    if s.dataLock.HeldBy? {
      DataHolderSteps(s);
    }
  }

  /** While one putter sleeps no other is in flight, and no slot is free. */
  lemma {:induction false} NoOtherPutter(s: State, p: nat)
    requires Inv(s) && p < |s.pcs| && s.pcs[p] == PutAsleepSlot
    ensures Count(s.pcs, SlotTaken) == 0 && Count(s.pcs, ItemPut) == 0 && s.sems.slots == 0
  {
    forall t | 0 <= t < |s.pcs| ensures !At(s.pcs[t], SlotTaken) && !At(s.pcs[t], ItemPut) {
      MutualExclusion(s, t, p);
    }
    CountNone(s.pcs, SlotTaken);
    CountNone(s.pcs, ItemPut);
  }

  /** Only terminal input and the status display can move, and the data lock is free. */
  ghost predicate Idle(s: State) {
    && s.dataLock.Free?
    && forall t :: 0 <= t < |s.pcs| ==> RoleOf(s.pcs[t]).Display? || s.pcs[t].Typing? || !Steps(s, t)
  }

  /** No wake-up is lost and there is no deadlock: when nothing but the terminal input and the
      display can move, every line has been put and every item got. */
  lemma {:induction false} IdleMeansDelivered(states: seq<State>, events: seq<Event>, i: nat, p: nat, c: nat)
    requires IsRun(states, events) && i < |states| && Idle(states[i])
    requires p < |states[i].pcs| && RoleOf(states[i].pcs[p]).Producer?
    requires c < |states[i].pcs| && RoleOf(states[i].pcs[c]).Consumer?
    ensures |states[i].past.gets| == |states[i].past.puts| == |states[i].past.inputs|
    ensures states[i].past.gets == states[i].past.puts
  {
    RunKeepsInv(states, events, i);
    var s := states[i];
    IdleStages(s);
    assert !Steps(s, c) && s.pcs[c] == GetAsleepItem;
    assert s.sems.items == 0;
    assert s.sems.slots > 0;
    IdleProducer(s, p);
  }

  lemma {:induction false} IdleStages(s: State)
    requires Inv(s) && Idle(s)
    ensures Count(s.pcs, SlotTaken) == 0 && Count(s.pcs, ItemPut) == 0
    ensures Count(s.pcs, ItemTaken) == 0 && Count(s.pcs, ItemGot) == 0
    ensures Count(s.pcs, LineCopied) == 0
  {
    forall t | 0 <= t < |s.pcs|
      ensures !At(s.pcs[t], SlotTaken) && !At(s.pcs[t], ItemPut) && !At(s.pcs[t], ItemTaken)
      ensures !At(s.pcs[t], ItemGot) && !At(s.pcs[t], LineCopied)
    {
      assert RoleOf(s.pcs[t]).Display? || s.pcs[t].Typing? || !Steps(s, t);
    }
    CountNone(s.pcs, SlotTaken);
    CountNone(s.pcs, ItemPut);
    CountNone(s.pcs, ItemTaken);
    CountNone(s.pcs, ItemGot);
    CountNone(s.pcs, LineCopied);
  }

  lemma {:induction false} IdleProducer(s: State, p: nat)
    requires Inv(s) && Idle(s) && s.sems.slots > 0
    requires p < |s.pcs| && RoleOf(s.pcs[p]).Producer?
    ensures s.sems.input == 0 && Count(s.pcs, LineTaken) == 0
  {
    forall t | 0 <= t < |s.pcs| ensures !HoldsInput(s.pcs[t]) {
      assert RoleOf(s.pcs[t]).Display? || s.pcs[t].Typing? || !Steps(s, t);
      assert s.pcs[t] != PutAsleepSlot;
    }
    assert s.inputLock.Free?;
    forall t | 0 <= t < |s.pcs| ensures !At(s.pcs[t], LineTaken) {
      assert RoleOf(s.pcs[t]).Display? || s.pcs[t].Typing? || !Steps(s, t);
      assert s.pcs[t] != PutAsleepSlot;
    }
    CountNone(s.pcs, LineTaken);
    assert !Steps(s, p);
  }

  /** A thread keeps its role: the number of producers and consumers is that of the start. */
  lemma {:induction false} RolesStay(states: seq<State>, events: seq<Event>, i: nat)
    requires IsRun(states, events) && i < |states|
    ensures |states[i].pcs| == |states[0].pcs|
    ensures forall t :: 0 <= t < |states[0].pcs| ==> RoleOf(states[i].pcs[t]) == RoleOf(states[0].pcs[t])
  {
    if i > 0 {
      RolesStay(states, events, i - 1);
      assert StepAt(states, events, i - 1);
      StepKeepsRoles(states[i - 1].pcs, states[i - 1].sems, events[i - 1]);
    }
  }

  lemma ThenKeepsRole(pc: Pc, sems: Sems, line: Item)
    ensures RoleOf(Then(pc, sems, line)) == RoleOf(pc)
  {
  }

  lemma {:induction false} StepKeepsRoles(pcs: seq<Pc>, sems: Sems, e: Event)
    requires e.t < |pcs| && (IsPost(pcs[e.t]) ==> MayWake(pcs, Wakes(pcs[e.t]), e.sleeper))
    ensures |NextPcs(pcs, sems, e)| == |pcs|
    ensures forall t :: 0 <= t < |pcs| ==> RoleOf(NextPcs(pcs, sems, e)[t]) == RoleOf(pcs[t])
  {
    ThenKeepsRole(pcs[e.t], sems, e.line);
    if Woke(pcs, e) {
      ThenKeepsRole(pcs[e.sleeper], sems, e.line);
    }
  }

  // ------------------------------------------------------------ lines get lost

  /** The run of the given events exists, and ends in u. */
  ghost predicate Leads(s: State, events: seq<Event>, u: State)
    decreases |events|
  {
    if events == [] then u == s
    else
      && s.ring.bufin < |s.ring.buffer| && s.ring.bufout < |s.ring.buffer|
      && Enabled(s, events[0]) && Leads(Next(s, events[0]), events[1..], u)
  }

  lemma {:induction false} LeadsOn(s: State, a: seq<Event>, t: State, b: seq<Event>, u: State)
    requires Leads(s, a, t) && Leads(t, b, u)
    ensures Leads(s, a + b, u)
    decreases |a|
  {
    if a == [] {
      assert a + b == b;
    } else {
      LeadsOn(Next(s, a[0]), a[1..], t, b, u);
      assert (a + b)[1..] == a[1..] + b;
    }
  }

  lemma {:induction false} LeadsOneMore(s: State, events: seq<Event>, t: State, e: Event)
    requires Leads(s, events, t) && t.ring.bufin < |t.ring.buffer| && t.ring.bufout < |t.ring.buffer| && Enabled(t, e)
    ensures Leads(s, events + [e], Next(t, e))
  {
    assert [e][1..] == [];
    LeadsOn(s, events, t, [e], Next(t, e));
  }

  /** Any threads, of which user number u and producer number p are at rest and none is asleep,
      with nobody holding a lock. */
  ghost predicate Resting(s: State, u: nat, p: nat) {
    && u < |s.pcs| && p < |s.pcs| && s.pcs[u] == Typing && s.pcs[p] == ProdWaitInput
    && (forall t :: 0 <= t < |s.pcs| ==> !Sleeps(s.pcs[t])) && s.inputLock.Free? && s.dataLock.Free?
    && s.ring.bufin < |s.ring.buffer| && s.ring.bufout < |s.ring.buffer| && s.ring.n == |s.ring.buffer|
  }

  /** The state k steps after the resting user starts to type a line. */
  ghost function WhileTyping(s: State, u: nat, p: nat, line: Item, k: nat): State
    requires Resting(s, u, p) && k <= 5
  {
    s.(pcs := s.pcs[u := [Typing, InWantsLock(line), InCopy(line), InUnlock, InPost, Typing][k]],
       inputLock := if k == 2 || k == 3 then HeldBy(u) else Free,
       mailbox := if k < 3 then s.mailbox else line,
       past := NextPast(s.past, if k < 3 then Typing else InCopy(line), s.mailbox, s.ring),
       sems := if k < 5 then s.sems else s.sems.(input := s.sems.input + 1))
  }

  /** Nobody sleeps, so a post wakes nobody: its sleeper is none of the threads. */
  lemma {:induction false} TypingStep(s: State, u: nat, p: nat, line: Item, k: nat)
    requires Resting(s, u, p) && k < 5
    ensures Enabled(WhileTyping(s, u, p, line, k), Event(u, line, |s.pcs|))
    ensures Next(WhileTyping(s, u, p, line, k), Event(u, line, |s.pcs|)) == WhileTyping(s, u, p, line, k + 1)
  {
    var before, after := WhileTyping(s, u, p, line, k), WhileTyping(s, u, p, line, k + 1);
    assert before.pcs[u := after.pcs[u]] == after.pcs;
  }

  /** The user types a line: five steps. */
  lemma {:induction false} TypeLine(s: State, u: nat, p: nat, line: Item) returns (events: seq<Event>, r: State)
    requires Resting(s, u, p)
    ensures Leads(s, events, r) && Resting(r, u, p) && r.ring == s.ring && r.mailbox == line
    ensures r.sems == s.sems.(input := s.sems.input + 1)
    ensures r.past.inputs == s.past.inputs + [line] && r.past.puts == s.past.puts && r.past.source == s.past.source
  {
    events, r := [], s;
    assert WhileTyping(s, u, p, line, 0) == s;
    for k := 0 to 5
      invariant r == WhileTyping(s, u, p, line, k) && Leads(s, events, r)
    {
      TypingStep(s, u, p, line, k);
      LeadsOneMore(s, events, r, Event(u, line, |s.pcs|));
      events, r := events + [Event(u, line, |s.pcs|)], WhileTyping(s, u, p, line, k + 1);
    }
  }

  /** The state k steps after the resting producer, with a line and a slot, starts to put it. */
  ghost function WhilePutting(s: State, u: nat, p: nat, k: nat): State
    requires Resting(s, u, p) && s.sems.input > 0 && s.sems.slots > 0 && k <= 8
  {
    s.(pcs := s.pcs[p := [ProdWaitInput, ProdWantsLock, PutWaitSlot, PutWantsData, PutCopy,
                          PutUnlock, PutPost, ProdUnlock, ProdWaitInput][k]],
       inputLock := if 2 <= k < 8 then HeldBy(p) else Free,
       dataLock := if k == 4 || k == 5 then HeldBy(p) else Free,
       ring := NextRing(s.ring, if k < 5 then Typing else PutCopy, s.mailbox),
       past := NextPast(s.past, if k < 5 then Typing else PutCopy, s.mailbox, s.ring),
       sems := Sems(if k < 7 then s.sems.items else s.sems.items + 1,
                    if k < 3 then s.sems.slots else s.sems.slots - 1,
                    if k < 1 then s.sems.input else s.sems.input - 1))
  }

  lemma {:induction false} PuttingStep(s: State, u: nat, p: nat, k: nat)
    requires Resting(s, u, p) && s.sems.input > 0 && s.sems.slots > 0 && k < 8
    ensures Enabled(WhilePutting(s, u, p, k), Event(p, "", |s.pcs|))
    ensures WhilePutting(s, u, p, k).ring.bufin < |WhilePutting(s, u, p, k).ring.buffer|
    ensures WhilePutting(s, u, p, k).ring.bufout < |WhilePutting(s, u, p, k).ring.buffer|
    ensures Next(WhilePutting(s, u, p, k), Event(p, "", |s.pcs|)) == WhilePutting(s, u, p, k + 1)
  {
    var before, after := WhilePutting(s, u, p, k), WhilePutting(s, u, p, k + 1);
    assert before.pcs[p := after.pcs[p]] == after.pcs;
  }

  /** The producer puts what is in the mailbox: eight steps. */
  lemma {:induction false} PutLine(s: State, u: nat, p: nat) returns (events: seq<Event>, r: State)
    requires Resting(s, u, p) && s.sems.input > 0 && s.sems.slots > 0
    ensures Leads(s, events, r) && Resting(r, u, p) && r.mailbox == s.mailbox
    ensures r.sems == Sems(s.sems.items + 1, s.sems.slots - 1, s.sems.input - 1)
    ensures r.past.inputs == s.past.inputs && r.past.puts == s.past.puts + [s.mailbox]
    ensures |s.past.inputs| > 0 ==> r.past.source == s.past.source + [|s.past.inputs| - 1]
  {
    events, r := [], s;
    assert WhilePutting(s, u, p, 0) == s;
    for k := 0 to 8
      invariant r == WhilePutting(s, u, p, k) && Leads(s, events, r)
    {
      PuttingStep(s, u, p, k);
      LeadsOneMore(s, events, r, Event(p, "", |s.pcs|));
      events, r := events + [Event(p, "", |s.pcs|)], WhilePutting(s, u, p, k + 1);
    }
  }

  /** Whatever other threads there are: a line can be overwritten before it is queued, and the next
      one queued twice. */
  lemma {:induction false} LineLost(s: State, u: nat, p: nat, a: Item, b: Item) returns (events: seq<Event>, r: State)
    requires Init(s) && s.ring.n >= 2 && u < |s.pcs| && p < |s.pcs|
    requires s.pcs[u] == Typing && s.pcs[p] == ProdWaitInput
    ensures Leads(s, events, r) && r.past.inputs == [a, b] && r.past.puts == [b, b] && r.past.source == [1, 1]
  {
    InitRests(s, u, p);
    var e1, r1 := TypeLine(s, u, p, a);
    var e2, r2 := TypeLine(r1, u, p, b);
    LeadsOn(s, e1, r1, e2, r2);
    var e3, r3 := PutTwice(r2, u, p);
    LeadsOn(s, e1 + e2, r2, e3, r3);
    events, r := e1 + e2 + e3, r3;
  }

  lemma {:induction false} InitRests(s: State, u: nat, p: nat)
    requires Init(s) && u < |s.pcs| && p < |s.pcs| && s.pcs[u] == Typing && s.pcs[p] == ProdWaitInput
    ensures Resting(s, u, p)
  {
    forall t | 0 <= t < |s.pcs| ensures !Sleeps(s.pcs[t]) {
      assert s.pcs[t] == StartOf(RoleOf(s.pcs[t]));
    }
  }

  lemma {:induction false} PutTwice(s: State, u: nat, p: nat) returns (events: seq<Event>, r: State)
    requires Resting(s, u, p) && s.sems.input >= 2 && s.sems.slots >= 2 && |s.past.inputs| > 0
    ensures Leads(s, events, r) && r.past.inputs == s.past.inputs
    ensures r.past.puts == s.past.puts + [s.mailbox, s.mailbox]
    ensures r.past.source == s.past.source + [|s.past.inputs| - 1, |s.past.inputs| - 1]
  {
    var e1, r1 := PutLine(s, u, p);
    var e2, r2 := PutLine(r1, u, p);
    LeadsOn(s, e1, r1, e2, r2);
    events, r := e1 + e2, r2;
  }
}

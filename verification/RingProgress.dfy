/** How much work the threads of prodcons_threads.c have: every typed line takes the same number of
    steps, however they are scheduled, and while there is work some thread can do it. */
module RingProgress {
  import opened RingQueue
  import opened RingRuns

  /** Steps that a thread makes by itself before it has to wait or to type. A thread asleep on
      semslots has its own ahead; the others that sleep get theirs from the post that wakes them. */
  function Ahead(pc: Pc): nat {
    match pc
    case Typing => 0 case InWantsLock(_) => 17 case InCopy(_) => 16 case InUnlock => 15 case InPost => 14
    case ProdWantsLock => 13 case PutWaitSlot => 12 case PutAsleepSlot => 11 case PutWantsData => 11
    case PutCopy => 10 case PutUnlock => 9 case PutPost => 8
    case ProdUnlock => 2 case ProdWaitInput => 1 case ProdAsleepInput => 0
    case GetWantsData => 5 case GetCopy => 4 case GetUnlock => 3 case GetPost => 2
    case GetWaitItem => 1 case GetAsleepItem => 0
    case ShowWantsData => 0 case ShowUnlock => 0
  }

  function AllAhead(pcs: seq<Pc>): nat {
    if pcs == [] then 0 else AllAhead(pcs[..|pcs| - 1]) + Ahead(pcs[|pcs| - 1])
  }

  /** The work that is left: a unit of seminput stands for 13 more steps, one of semitems for 5. */
  function Work(pcs: seq<Pc>, sems: Sems): nat {
    AllAhead(pcs) + 13 * sems.input + 5 * sems.items
  }

  lemma {:induction false} AheadGoto(pcs: seq<Pc>, t: nat, pc: Pc)
    requires t < |pcs|
    ensures AllAhead(pcs[t := pc]) == AllAhead(pcs) - Ahead(pcs[t]) + Ahead(pc)
  {
    var last := |pcs| - 1;
    if t < last {
      AheadGoto(pcs[..last], t, pc);
      assert pcs[t := pc][..last] == pcs[..last][t := pc];
    } else {
      assert pcs[t := pc][..last] == pcs[..last];
    }
  }

  predicate IsDisplay(pc: Pc) {
    pc.ShowWantsData? || pc.ShowUnlock?
  }

  /** A step of typing adds 17, one of the display nothing, and every other takes off exactly 1. */
  function Spent(pc: Pc): int {
    if pc.Typing? then -17 else if IsDisplay(pc) then 0 else 1
  }

  lemma StepSpends(pc: Pc, sems: Sems, line: Item, woke: bool)
    requires (woke ==> IsPost(pc)) && !Sleeps(pc)
    ensures var after := NextSems(sems, pc, woke);
            Ahead(Then(pc, sems, line)) + (if woke then Ahead(Then(Wakes(pc), sems, line)) else 0)
            + 13 * after.input + 5 * after.items + Spent(pc)
            == Ahead(pc) + (if woke then Ahead(Wakes(pc)) else 0) + 13 * sems.input + 5 * sems.items
  {
  }

  lemma {:induction false} WorkNext(pcs: seq<Pc>, sems: Sems, e: Event)
    requires e.t < |pcs| && !Sleeps(pcs[e.t])
    requires IsPost(pcs[e.t]) ==> MayWake(pcs, Wakes(pcs[e.t]), e.sleeper)
    ensures Work(NextPcs(pcs, sems, e), NextSems(sems, pcs[e.t], Woke(pcs, e))) == Work(pcs, sems) - Spent(pcs[e.t])
  {
    var to := Then(pcs[e.t], sems, e.line);
    StepSpends(pcs[e.t], sems, e.line, Woke(pcs, e));
    if Woke(pcs, e) {
      var awake := Then(Wakes(pcs[e.t]), sems, e.line);
      AheadGoto(pcs, e.sleeper, awake);
      AheadGoto(pcs[e.sleeper := awake], e.t, to);
    } else {
      AheadGoto(pcs, e.t, to);
    }
  }

  // -------------------------------------------------------------------- runs

  /** Where the thread is that makes step k. */
  function Mover(states: seq<State>, events: seq<Event>, k: nat): Pc {
    if k < |states| && k < |events| && events[k].t < |states[k].pcs| then states[k].pcs[events[k].t] else ShowUnlock
  }

  /** The lines that users start to type from moment i to moment j. */
  function Typed(states: seq<State>, events: seq<Event>, i: nat, j: nat): nat
    requires i <= j
  {
    if i == j then 0 else Typed(states, events, i, j - 1) + One(Mover(states, events, j - 1).Typing?)
  }

  /** The steps that are neither typing nor the display's. */
  function Worked(states: seq<State>, events: seq<Event>, i: nat, j: nat): nat
    requires i <= j
  {
    if i == j then 0
    else
      var pc := Mover(states, events, j - 1);
      Worked(states, events, i, j - 1) + One(!pc.Typing? && !IsDisplay(pc))
  }

  lemma {:induction false} WorkOfStep(states: seq<State>, events: seq<Event>, k: nat)
    requires IsRun(states, events) && k < |events|
    ensures Work(states[k + 1].pcs, states[k + 1].sems)
            == Work(states[k].pcs, states[k].sems) - Spent(Mover(states, events, k))
  {
    assert StepAt(states, events, k);
    WorkNext(states[k].pcs, states[k].sems, events[k]);
  }

  /** However the threads are scheduled, and for any number of them: between any two moments the
      steps done and the work left make the work there was and 17 steps for each line typed. */
  lemma {:induction false} WorkIsConserved(states: seq<State>, events: seq<Event>, i: nat, j: nat)
    requires IsRun(states, events) && i <= j < |states|
    ensures Worked(states, events, i, j) + Work(states[j].pcs, states[j].sems)
            == Work(states[i].pcs, states[i].sems) + 17 * Typed(states, events, i, j)
    decreases j
  {
    if i < j {
      WorkIsConserved(states, events, i, j - 1);
      WorkOfStep(states, events, j - 1);
    }
  }

  lemma {:induction false} WorkAtStart(pcs: seq<Pc>)
    requires forall t :: 0 <= t < |pcs| ==> pcs[t] == StartOf(RoleOf(pcs[t]))
    ensures AllAhead(pcs) <= |pcs|
  {
    if pcs != [] {
      WorkAtStart(pcs[..|pcs| - 1]);
      assert pcs[|pcs| - 1] == StartOf(RoleOf(pcs[|pcs| - 1]));
    }
  }

  /** So the threads make at most 17 steps for each line typed, and one more each: none of them can
      go round without a line. */
  lemma {:induction false} WorkIsBounded(states: seq<State>, events: seq<Event>, n: nat)
    requires IsRun(states, events) && n < |states|
    ensures Worked(states, events, 0, n) <= |states[0].pcs| + 17 * Typed(states, events, 0, n)
  {
    WorkIsConserved(states, events, 0, n);
    WorkAtStart(states[0].pcs);
  }

  // -------------------------------------------------------------- no deadlock

  lemma {:induction false} AheadOfOne(pcs: seq<Pc>, t: nat)
    requires t < |pcs|
    ensures Ahead(pcs[t]) <= AllAhead(pcs)
  {
    if t < |pcs| - 1 {
      AheadOfOne(pcs[..|pcs| - 1], t);
    }
  }

  lemma {:induction false} NothingAhead(pcs: seq<Pc>)
    requires forall t :: 0 <= t < |pcs| ==> Ahead(pcs[t]) == 0
    ensures AllAhead(pcs) == 0
  {
    if pcs != [] {
      NothingAhead(pcs[..|pcs| - 1]);
    }
  }

  /** When no work is left every line has been put and every item got. */
  lemma {:induction false} DoneMeansDelivered(s: State)
    requires Inv(s) && Work(s.pcs, s.sems) == 0
    ensures |s.past.gets| == |s.past.puts| == |s.past.inputs| && s.past.gets == s.past.puts
  {
    forall t | 0 <= t < |s.pcs| ensures Ahead(s.pcs[t]) == 0 {
      AheadOfOne(s.pcs, t);
    }
    CountNone(s.pcs, ItemPut);
    CountNone(s.pcs, ItemTaken);
    CountNone(s.pcs, LineTaken);
    CountNone(s.pcs, LineCopied);
  }

  /** With a producer and a consumer: when nothing but terminal and display can move, no work is left. */
  lemma {:induction false} IdleMeansDone(s: State, p: nat, c: nat)
    requires Inv(s) && Idle(s)
    requires p < |s.pcs| && RoleOf(s.pcs[p]).Producer? && c < |s.pcs| && RoleOf(s.pcs[c]).Consumer?
    ensures Work(s.pcs, s.sems) == 0
  {
    IdleStages(s);
    assert !Steps(s, c) && s.pcs[c] == GetAsleepItem;
    assert s.sems.items == 0 && s.sems.slots > 0;
    IdleProducer(s, p);
    IdleThreadsRest(s);
    NothingAhead(s.pcs);
  }

  lemma {:induction false} IdleThreadsRest(s: State)
    requires Inv(s) && Idle(s) && s.sems.slots > 0
    ensures forall t :: 0 <= t < |s.pcs| ==> Ahead(s.pcs[t]) == 0
  {
    forall t | 0 <= t < |s.pcs| ensures !HoldsInput(s.pcs[t]) {
      assert RoleOf(s.pcs[t]).Display? || s.pcs[t].Typing? || !Steps(s, t);
      assert s.pcs[t] != PutAsleepSlot;
    }
    assert s.inputLock.Free?;
    forall t | 0 <= t < |s.pcs| ensures Ahead(s.pcs[t]) == 0 {
      assert RoleOf(s.pcs[t]).Display? || s.pcs[t].Typing? || !Steps(s, t);
      assert s.pcs[t] != PutAsleepSlot;
    }
  }

  /** While work is left some thread can do it, unless a display thread holds the data lock, which can
      then give it back: the threads never block each other. */
  lemma {:induction false} WorkCanGoOn(s: State, p: nat, c: nat) returns (t: nat)
    requires Inv(s) && Work(s.pcs, s.sems) > 0
    requires p < |s.pcs| && RoleOf(s.pcs[p]).Producer? && c < |s.pcs| && RoleOf(s.pcs[c]).Consumer?
    ensures t < |s.pcs| && Steps(s, t)
    ensures (!s.pcs[t].Typing? && !IsDisplay(s.pcs[t])) || (s.pcs[t].ShowUnlock? && s.dataLock == HeldBy(t))
  {
    if s.dataLock.HeldBy? {
      DataHolderSteps(s);
      t := s.dataLock.t;
      assert HoldsData(s.pcs[t]);
    } else {
      if Idle(s) {
        IdleMeansDone(s, p, c);
      }
      t :| 0 <= t < |s.pcs| && !(RoleOf(s.pcs[t]).Display? || s.pcs[t].Typing? || !Steps(s, t));
    }
  }

  /** Every line is delivered: a run that has made all the steps that the lines typed in it call for
      has put every line and got every item. Until then it can go on, by WorkCanGoOn. */
  lemma {:induction false} LinesAreDelivered(states: seq<State>, events: seq<Event>, n: nat)
    requires IsRun(states, events) && n < |states|
    requires Worked(states, events, 0, n) == Work(states[0].pcs, states[0].sems) + 17 * Typed(states, events, 0, n)
    ensures |states[n].past.gets| == |states[n].past.puts| == |states[n].past.inputs|
    ensures states[n].past.gets == states[n].past.puts
  {
    RunKeepsInv(states, events, n);
    WorkIsConserved(states, events, 0, n);
    DoneMeansDelivered(states[n]);
  }

  /** Such a run has queued every line once and in order, and so delivered all that was typed, exactly
      if every line was typed only after the lines before it had been put. */
  lemma {:induction false} DeliveredOnceIff(states: seq<State>, events: seq<Event>, n: nat)
    requires IsRun(states, events) && n < |states|
    requires Worked(states, events, 0, n) == Work(states[0].pcs, states[0].sems) + 17 * Typed(states, events, 0, n)
    ensures var h := states[n].past;
            && |h.source| == |h.puts| == |h.inputs| == |h.putsBefore|
            && ((forall k :: 0 <= k < |h.puts| ==> h.source[k] == k) <==>
                (forall j :: 0 <= j < |h.inputs| ==> h.putsBefore[j] >= j))
            && ((forall j :: 0 <= j < |h.inputs| ==> h.putsBefore[j] >= j) ==> h.gets == h.inputs)
  {
    LinesAreDelivered(states, events, n);
    NoLineLostInRun(states, events, n);
  }
}

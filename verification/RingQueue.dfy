/** prodcons_threads.c: a ring of slots between producers and consumers, guarded by two
    counting semaphores and a lock, and fed through a one-slot mailbox that a third semaphore
    announces. The state, its atomic steps, and what every interleaving keeps. */
module RingQueue {
  import opened Remainders

  type Item = string

  /** Where a thread is: what it does next. Each constructor is one atomic step. */
  datatype Pc =
    // user_input_thread
    | Typing
    | InWantsLock(line: Item)
    | InCopy(line: Item)           // holds input_buffer_lock
    | InUnlock                     // holds input_buffer_lock
    | InPost
    // producer_thread and putitem
    | ProdWaitInput
    | ProdAsleepInput              // in the wait queue of seminput
    | ProdWantsLock
    | PutWaitSlot                  // holds input_buffer_lock from here
    | PutAsleepSlot                // in the wait queue of semslots
    | PutWantsData
    | PutCopy                      // holds data_buffer_lock
    | PutUnlock                    // holds data_buffer_lock
    | PutPost
    | ProdUnlock                   // holds input_buffer_lock up to here
    // consumer_thread and getitem
    | GetWaitItem
    | GetAsleepItem                // in the wait queue of semitems
    | GetWantsData
    | GetCopy                      // holds data_buffer_lock
    | GetUnlock                    // holds data_buffer_lock
    | GetPost
    // display_status_thread
    | ShowWantsData
    | ShowUnlock                   // holds data_buffer_lock

  datatype Lock = Free | HeldBy(t: nat)

  /** The ring of n slots. */
  datatype Slots = Slots(n: nat, buffer: seq<Item>, bufin: nat, bufout: nat, filledslots: int, freeslots: int)

  /** The values of the semaphores semitems, semslots and seminput. */
  datatype Sems = Sems(items: nat, slots: nat, input: nat)

  /** What has happened: the lines copied into the mailbox, the items put and got, for each
      put the number of the line it took, and for each line the number of puts before it. */
  datatype History = History(inputs: seq<Item>, puts: seq<Item>, gets: seq<Item>, source: seq<nat>,
                             putsBefore: seq<nat>)

  datatype State = State(ring: Slots, sems: Sems, inputLock: Lock, dataLock: Lock, mailbox: Item, pcs: seq<Pc>,
                         past: History)

  datatype Role = User | Producer | Consumer | Display

  function RoleOf(pc: Pc): Role {
    match pc
    case Typing => User case InWantsLock(_) => User case InCopy(_) => User case InUnlock => User case InPost => User
    case GetWaitItem => Consumer case GetAsleepItem => Consumer case GetWantsData => Consumer
    case GetCopy => Consumer case GetUnlock => Consumer case GetPost => Consumer
    case ShowWantsData => Display case ShowUnlock => Display
    case _ => Producer
  }

  /** Where a thread of each role starts. */
  function StartOf(role: Role): Pc {
    match role
    case User => Typing
    case Producer => ProdWaitInput
    case Consumer => GetWaitItem
    case Display => ShowWantsData
  }

  predicate HoldsInput(pc: Pc) {
    pc.InCopy? || pc.InUnlock? || pc.PutWaitSlot? || pc.PutAsleepSlot? || pc.PutWantsData?
    || pc.PutCopy? || pc.PutUnlock? || pc.PutPost? || pc.ProdUnlock?
  }

  predicate HoldsData(pc: Pc) {
    pc.PutCopy? || pc.PutUnlock? || pc.GetCopy? || pc.GetUnlock? || pc.ShowUnlock?
  }

  // ------------------------------------------------------------------- steps

  /** One step of thread t: line is what is typed, if that is the step; sleeper is the thread
      that a post wakes, if any thread sleeps on that semaphore. */
  datatype Event = Event(t: nat, line: Item, sleeper: nat)

  /** Where a thread goes from pc: it may find a semaphore at 0 and fall asleep. */
  function Then(pc: Pc, sems: Sems, line: Item): Pc {
    match pc
    case Typing => InWantsLock(line)
    case InWantsLock(l) => InCopy(l)
    case InCopy(_) => InUnlock
    case InUnlock => InPost
    case InPost => Typing
    case ProdWaitInput => if sems.input > 0 then ProdWantsLock else ProdAsleepInput
    case ProdWantsLock => PutWaitSlot
    case PutWaitSlot => if sems.slots > 0 then PutWantsData else PutAsleepSlot
    case PutWantsData => PutCopy
    case PutCopy => PutUnlock
    case PutUnlock => PutPost
    case PutPost => ProdUnlock
    case ProdUnlock => ProdWaitInput
    case GetWaitItem => if sems.items > 0 then GetWantsData else GetAsleepItem
    case GetWantsData => GetCopy
    case GetCopy => GetUnlock
    case GetUnlock => GetPost
    case GetPost => GetWaitItem
    case ShowWantsData => ShowUnlock
    case ShowUnlock => ShowWantsData
    case ProdAsleepInput => ProdWantsLock
    case PutAsleepSlot => PutWantsData
    case GetAsleepItem => GetWantsData
  }

  predicate IsPost(pc: Pc) {
    pc.InPost? || pc.PutPost? || pc.GetPost?
  }

  /** Where the threads sleep that a post wakes. */
  function Wakes(pc: Pc): Pc
    requires IsPost(pc)
  {
    if pc.InPost? then ProdAsleepInput else if pc.PutPost? then GetAsleepItem else PutAsleepSlot
  }

  predicate Sleeps(pc: Pc) {
    pc.GetAsleepItem? || pc.PutAsleepSlot? || pc.ProdAsleepInput?
  }

  ghost predicate NoneAt(pcs: seq<Pc>, pc: Pc) {
    forall t :: 0 <= t < |pcs| ==> pcs[t] != pc
  }

  /** A post wakes one of the threads that sleep on the semaphore, if there is one. */
  ghost predicate MayWake(pcs: seq<Pc>, asleep: Pc, sleeper: nat) {
    if sleeper < |pcs| then pcs[sleeper] == asleep else NoneAt(pcs, asleep)
  }

  /** The thread can make a step: it does not sleep and the lock it wants is free. */
  predicate CanStep(pcs: seq<Pc>, inputLock: Lock, dataLock: Lock, t: nat) {
    && t < |pcs| && !Sleeps(pcs[t])
    && (pcs[t].InWantsLock? || pcs[t].ProdWantsLock? ==> inputLock.Free?)
    && (pcs[t].PutWantsData? || pcs[t].GetWantsData? || pcs[t].ShowWantsData? ==> dataLock.Free?)
  }

  ghost predicate Enabled(s: State, e: Event) {
    && CanStep(s.pcs, s.inputLock, s.dataLock, e.t)
    && (IsPost(s.pcs[e.t]) ==> MayWake(s.pcs, Wakes(s.pcs[e.t]), e.sleeper))
  }

  /** The step is a post that wakes the sleeper. */
  predicate Woke(pcs: seq<Pc>, e: Event)
    requires e.t < |pcs|
  {
    IsPost(pcs[e.t]) && e.sleeper < |pcs|
  }

  function NextPcs(pcs: seq<Pc>, sems: Sems, e: Event): seq<Pc>
    requires e.t < |pcs|
  {
    var woken := if Woke(pcs, e) then pcs[e.sleeper := Then(Wakes(pcs[e.t]), sems, e.line)] else pcs;
    woken[e.t := Then(pcs[e.t], sems, e.line)]
  }

  /** A wait takes a unit if there is one; a post leaves one unless it wakes a thread. */
  function NextSems(sems: Sems, pc: Pc, woke: bool): Sems {
    if pc.ProdWaitInput? && sems.input > 0 then sems.(input := sems.input - 1)
    else if pc.PutWaitSlot? && sems.slots > 0 then sems.(slots := sems.slots - 1)
    else if pc.GetWaitItem? && sems.items > 0 then sems.(items := sems.items - 1)
    else if pc.InPost? && !woke then sems.(input := sems.input + 1)
    else if pc.PutPost? && !woke then sems.(items := sems.items + 1)
    else if pc.GetPost? && !woke then sems.(slots := sems.slots + 1)
    else sems
  }

  function NextInputLock(lock: Lock, pc: Pc, t: nat): Lock {
    if pc.InWantsLock? || pc.ProdWantsLock? then HeldBy(t)
    else if pc.InUnlock? || pc.ProdUnlock? then Free
    else lock
  }

  function NextDataLock(lock: Lock, pc: Pc, t: nat): Lock {
    if pc.PutWantsData? || pc.GetWantsData? || pc.ShowWantsData? then HeldBy(t)
    else if pc.PutUnlock? || pc.GetUnlock? || pc.ShowUnlock? then Free
    else lock
  }

  /** The next place in the ring, (b + 1) % n. */
  function Wrap(b: nat, n: nat): nat {
    if b + 1 == n then 0 else b + 1
  }

  /** The critical sections of putitem and getitem. */
  function NextRing(r: Slots, pc: Pc, mailbox: Item): Slots
    requires r.bufin < |r.buffer|
  {
    if pc.PutCopy? then
      r.(buffer := r.buffer[r.bufin := mailbox], bufin := Wrap(r.bufin, r.n),
         filledslots := r.filledslots + 1, freeslots := r.freeslots - 1)
    else if pc.GetCopy? then
      r.(bufout := Wrap(r.bufout, r.n), filledslots := r.filledslots - 1, freeslots := r.freeslots + 1)
    else r
  }

  function NextMailbox(mailbox: Item, pc: Pc): Item {
    if pc.InCopy? then pc.line else mailbox
  }

  function NextPast(h: History, pc: Pc, mailbox: Item, r: Slots): History
    requires r.bufout < |r.buffer|
  {
    if pc.InCopy? then h.(inputs := h.inputs + [pc.line], putsBefore := h.putsBefore + [|h.puts|])
    else if pc.PutCopy? then
      h.(puts := h.puts + [mailbox], source := h.source + [if |h.inputs| > 0 then |h.inputs| - 1 else 0])
    else if pc.GetCopy? then h.(gets := h.gets + [r.buffer[r.bufout]])
    else h
  }

  ghost function Next(s: State, e: Event): State
    requires Enabled(s, e) && s.ring.bufin < |s.ring.buffer| && s.ring.bufout < |s.ring.buffer|
  {
    var pc := s.pcs[e.t];
    State(NextRing(s.ring, pc, s.mailbox),
          NextSems(s.sems, pc, Woke(s.pcs, e)),
          NextInputLock(s.inputLock, pc, e.t),
          NextDataLock(s.dataLock, pc, e.t),
          NextMailbox(s.mailbox, pc),
          NextPcs(s.pcs, s.sems, e),
          NextPast(s.past, pc, s.mailbox, s.ring))
  }

  // ------------------------------------------------------- counting threads

  /** Stages between taking a unit from a semaphore and giving one to another. */
  datatype Stage =
    | LineTaken      // took a unit of seminput, has not put yet
    | LineCopied     // copied a line, has not posted seminput yet
    | SlotTaken      // took a unit of semslots, has not put yet
    | ItemPut        // has put, has not posted semitems yet
    | ItemTaken      // took a unit of semitems, has not got yet
    | ItemGot        // has got, has not posted semslots yet

  predicate At(pc: Pc, stage: Stage) {
    match stage
    case LineTaken => pc.ProdWantsLock? || pc.PutWaitSlot? || pc.PutAsleepSlot? || pc.PutWantsData? || pc.PutCopy?
    case LineCopied => pc.InUnlock? || pc.InPost?
    case SlotTaken => pc.PutWantsData? || pc.PutCopy?
    case ItemPut => pc.PutUnlock? || pc.PutPost?
    case ItemTaken => pc.GetWantsData? || pc.GetCopy?
    case ItemGot => pc.GetUnlock? || pc.GetPost?
  }

  function One(b: bool): nat {
    if b then 1 else 0
  }

  ghost function Count(pcs: seq<Pc>, stage: Stage): nat {
    if pcs == [] then 0
    else Count(pcs[..|pcs| - 1], stage) + One(At(pcs[|pcs| - 1], stage))
  }

  lemma {:induction false} CountGoto(pcs: seq<Pc>, t: nat, pc: Pc, stage: Stage)
    requires t < |pcs|
    ensures Count(pcs[t := pc], stage) == Count(pcs, stage) - One(At(pcs[t], stage)) + One(At(pc, stage))
  {
    var last := |pcs| - 1;
    if t < last {
      CountGoto(pcs[..last], t, pc, stage);
      assert pcs[t := pc][..last] == pcs[..last][t := pc];
    } else {
      assert pcs[t := pc][..last] == pcs[..last];
    }
  }

  lemma {:induction false} CountAtLeastOne(pcs: seq<Pc>, t: nat, stage: Stage)
    requires t < |pcs| && At(pcs[t], stage)
    ensures Count(pcs, stage) >= 1
  {
    if t < |pcs| - 1 {
      CountAtLeastOne(pcs[..|pcs| - 1], t, stage);
    }
  }

  lemma {:induction false} CountFind(pcs: seq<Pc>, stage: Stage) returns (t: nat)
    requires Count(pcs, stage) >= 1
    ensures t < |pcs| && At(pcs[t], stage)
  {
    if At(pcs[|pcs| - 1], stage) {
      t := |pcs| - 1;
    } else {
      t := CountFind(pcs[..|pcs| - 1], stage);
    }
  }

  lemma {:induction false} CountNone(pcs: seq<Pc>, stage: Stage)
    requires forall i :: 0 <= i < |pcs| ==> !At(pcs[i], stage)
    ensures Count(pcs, stage) == 0
  {
    if pcs != [] {
      CountNone(pcs[..|pcs| - 1], stage);
    }
  }

  // --------------------------------------------------------------- invariant

  /** Every unit of every semaphore is accounted for. */
  ghost predicate Tokens(n: nat, sems: Sems, pcs: seq<Pc>, inputs: nat, puts: nat, gets: nat) {
    && puts - gets == sems.items + Count(pcs, ItemPut) + Count(pcs, ItemTaken)
    && n - (puts - gets) == sems.slots + Count(pcs, SlotTaken) + Count(pcs, ItemGot)
    && inputs == puts + sems.input + Count(pcs, LineTaken) + Count(pcs, LineCopied)
  }

  /** A lock is held exactly by the thread whose stage says so. */
  ghost predicate Locks(pcs: seq<Pc>, inputLock: Lock, dataLock: Lock) {
    && (forall t :: 0 <= t < |pcs| ==> (HoldsInput(pcs[t]) <==> inputLock == HeldBy(t)))
    && (forall t :: 0 <= t < |pcs| ==> (HoldsData(pcs[t]) <==> dataLock == HeldBy(t)))
    && (inputLock.HeldBy? ==> inputLock.t < |pcs|)
    && (dataLock.HeldBy? ==> dataLock.t < |pcs|)
  }

  /** A thread sleeps on a semaphore only while its value is 0. */
  ghost predicate Sleepers(sems: Sems, pcs: seq<Pc>) {
    && (sems.items > 0 ==> NoneAt(pcs, GetAsleepItem))
    && (sems.slots > 0 ==> NoneAt(pcs, PutAsleepSlot))
    && (sems.input > 0 ==> NoneAt(pcs, ProdAsleepInput))
  }

  /** The slot of the j-th item, j % n. */
  ghost function Slot(j: nat, n: nat): nat
    requires n > 0
  {
    if j == 0 then 0 else Wrap(Slot(j - 1, n), n)
  }

  /** The ring holds the items put and not yet got, in order, at their slots. */
  ghost predicate Ring(r: Slots, puts: seq<Item>, gets: seq<Item>) {
    && 0 < r.n == |r.buffer|
    && |gets| <= |puts| <= |gets| + r.n
    && r.bufin == Slot(|puts|, r.n) && r.bufout == Slot(|gets|, r.n)
    && r.bufin < r.n && r.bufout < r.n
    && r.filledslots == |puts| - |gets| && r.freeslots == -r.filledslots
    && gets == puts[..|gets|]
    && forall j :: |gets| <= j < |puts| ==> Slot(j, r.n) < r.n && r.buffer[Slot(j, r.n)] == puts[j]
  }

  /** Each put took the line that was the latest then, and no line comes too early. */
  ghost predicate Mailbox(h: History, mailbox: Item) {
    && |h.source| == |h.puts| && |h.putsBefore| == |h.inputs|
    && (forall j :: 0 <= j < |h.inputs| ==> h.putsBefore[j] <= |h.puts|)
    && (|h.inputs| > 0 ==> mailbox == h.inputs[|h.inputs| - 1])
    && (forall k :: 0 <= k < |h.puts| ==> k <= h.source[k] < |h.inputs| && h.puts[k] == h.inputs[h.source[k]])
    && (forall k, j :: 0 <= k <= j < |h.puts| ==> h.source[k] <= h.source[j])
    && (forall k, j :: 0 <= k < |h.puts| && 0 <= j < |h.inputs| ==> (j <= h.source[k] <==> h.putsBefore[j] <= k))
  }

  ghost predicate Inv(s: State) {
    && Tokens(s.ring.n, s.sems, s.pcs, |s.past.inputs|, |s.past.puts|, |s.past.gets|)
    && Locks(s.pcs, s.inputLock, s.dataLock) && Sleepers(s.sems, s.pcs)
    && Ring(s.ring, s.past.puts, s.past.gets) && Mailbox(s.past, s.mailbox)
  }

  // ----------------------------------------------------- slots of the ring

  lemma {:induction false} SlotInRing(j: nat, n: nat)
    requires n > 0
    ensures Slot(j, n) < n
  {
    if j > 0 {
      SlotInRing(j - 1, n);
    }
  }

  /** n places further on the same slot comes again. */
  lemma {:induction false} SlotAhead(j: nat, d: nat, n: nat)
    requires n > 0 && d <= n
    ensures Slot(j + d, n) == if Slot(j, n) + d < n then Slot(j, n) + d else Slot(j, n) + d - n
  {
    SlotInRing(j, n);
    if d > 0 {
      SlotAhead(j, d - 1, n);
    }
  }

  /** It is the remainder that the source computes. */
  lemma {:induction false} SlotIsRemainder(j: nat, n: nat)
    requires n > 0
    ensures Slot(j, n) == j % n
  {
    SlotInRing(j, n);
    if j < n {
      SlotAhead(0, j, n);
      assert j % n == j by { WithinFirst(j, n); }
    } else {
      SlotIsRemainder(j - n, n);
      SlotAhead(j - n, n, n);
      assert j % n == (j - n) % n by { OnePeriodOn(j - n, n); }
    }
  }

  // ------------------------------------------------------ what a step keeps

  function Diff(a: Pc, b: Pc, stage: Stage): int {
    One(At(b, stage)) - One(At(a, stage))
  }

  /** What one step adds to the number of threads in a stage. */
  function Gain(pc: Pc, sems: Sems, line: Item, woke: bool, stage: Stage): int
    requires woke ==> IsPost(pc)
  {
    Diff(pc, Then(pc, sems, line), stage)
    + if woke then Diff(Wakes(pc), Then(Wakes(pc), sems, line), stage) else 0
  }

  lemma {:induction false} CountsNext(pcs: seq<Pc>, sems: Sems, e: Event, stage: Stage)
    requires e.t < |pcs| && (IsPost(pcs[e.t]) ==> MayWake(pcs, Wakes(pcs[e.t]), e.sleeper))
    ensures Count(NextPcs(pcs, sems, e), stage) == Count(pcs, stage) + Gain(pcs[e.t], sems, e.line, Woke(pcs, e), stage)
  {
    var to := Then(pcs[e.t], sems, e.line);
    if Woke(pcs, e) {
      var awake := Then(Wakes(pcs[e.t]), sems, e.line);
      CountGoto(pcs, e.sleeper, awake, stage);
      CountGoto(pcs[e.sleeper := awake], e.t, to, stage);
    } else {
      CountGoto(pcs, e.t, to, stage);
    }
  }

  // Each step is balanced: what the semaphores, the stages and the queue gain adds up.

  lemma ItemsBalance(pc: Pc, sems: Sems, line: Item, woke: bool)
    requires (woke ==> IsPost(pc)) && !Sleeps(pc)
    ensures One(pc.PutCopy?) - One(pc.GetCopy?)
            == NextSems(sems, pc, woke).items - sems.items
               + Gain(pc, sems, line, woke, ItemPut) + Gain(pc, sems, line, woke, ItemTaken)
  {
  }

  lemma SlotsBalance(pc: Pc, sems: Sems, line: Item, woke: bool)
    requires (woke ==> IsPost(pc)) && !Sleeps(pc)
    ensures One(pc.GetCopy?) - One(pc.PutCopy?)
            == NextSems(sems, pc, woke).slots - sems.slots
               + Gain(pc, sems, line, woke, SlotTaken) + Gain(pc, sems, line, woke, ItemGot)
  {
  }

  lemma LinesBalance(pc: Pc, sems: Sems, line: Item, woke: bool)
    requires (woke ==> IsPost(pc)) && !Sleeps(pc)
    ensures One(pc.InCopy?) - One(pc.PutCopy?)
            == NextSems(sems, pc, woke).input - sems.input
               + Gain(pc, sems, line, woke, LineTaken) + Gain(pc, sems, line, woke, LineCopied)
  {
  }

  lemma {:induction false} TokensKept(n: nat, sems: Sems, pcs: seq<Pc>, i: nat, p: nat, g: nat, e: Event)
    requires Tokens(n, sems, pcs, i, p, g)
    requires e.t < |pcs| && !Sleeps(pcs[e.t]) && (IsPost(pcs[e.t]) ==> MayWake(pcs, Wakes(pcs[e.t]), e.sleeper))
    ensures Tokens(n, NextSems(sems, pcs[e.t], Woke(pcs, e)), NextPcs(pcs, sems, e),
                   i + One(pcs[e.t].InCopy?), p + One(pcs[e.t].PutCopy?), g + One(pcs[e.t].GetCopy?))
  {
    ItemsBalance(pcs[e.t], sems, e.line, Woke(pcs, e));
    SlotsBalance(pcs[e.t], sems, e.line, Woke(pcs, e));
    LinesBalance(pcs[e.t], sems, e.line, Woke(pcs, e));
    CountsNext(pcs, sems, e, ItemPut);
    CountsNext(pcs, sems, e, ItemTaken);
    CountsNext(pcs, sems, e, SlotTaken);
    CountsNext(pcs, sems, e, ItemGot);
    CountsNext(pcs, sems, e, LineTaken);
    CountsNext(pcs, sems, e, LineCopied);
  }

  /** A thread that goes from one stage to another keeps, takes or gives back a lock. */
  predicate LockMove(before: Lock, after: Lock, t: nat, held: bool, holds: bool) {
    if held == holds then after == before
    else if holds then before.Free? && after == HeldBy(t)
    else after.Free?
  }

  lemma StepMovesLocks(pc: Pc, sems: Sems, line: Item, il: Lock, dl: Lock, t: nat)
    requires !Sleeps(pc)
    requires pc.InWantsLock? || pc.ProdWantsLock? ==> il.Free?
    requires pc.PutWantsData? || pc.GetWantsData? || pc.ShowWantsData? ==> dl.Free?
    ensures LockMove(il, NextInputLock(il, pc, t), t, HoldsInput(pc), HoldsInput(Then(pc, sems, line)))
    ensures LockMove(dl, NextDataLock(dl, pc, t), t, HoldsData(pc), HoldsData(Then(pc, sems, line)))
  {
  }

  lemma {:induction false} LocksMoved(pcs: seq<Pc>, inputLock: Lock, dataLock: Lock, t: nat, pc: Pc, il: Lock, dl: Lock)
    requires Locks(pcs, inputLock, dataLock) && t < |pcs|
    requires LockMove(inputLock, il, t, HoldsInput(pcs[t]), HoldsInput(pc))
    requires LockMove(dataLock, dl, t, HoldsData(pcs[t]), HoldsData(pc))
    ensures Locks(pcs[t := pc], il, dl)
  {
    forall i | 0 <= i < |pcs|
      ensures HoldsInput(pcs[t := pc][i]) <==> il == HeldBy(i)
      ensures HoldsData(pcs[t := pc][i]) <==> dl == HeldBy(i)
    {
      assert HoldsInput(pcs[i]) <==> inputLock == HeldBy(i);
      assert HoldsData(pcs[i]) <==> dataLock == HeldBy(i);
    }
  }

  lemma {:induction false} LocksKept(pcs: seq<Pc>, sems: Sems, il: Lock, dl: Lock, e: Event)
    requires Locks(pcs, il, dl) && CanStep(pcs, il, dl, e.t)
    requires IsPost(pcs[e.t]) ==> MayWake(pcs, Wakes(pcs[e.t]), e.sleeper)
    ensures Locks(NextPcs(pcs, sems, e), NextInputLock(il, pcs[e.t], e.t), NextDataLock(dl, pcs[e.t], e.t))
  {
    var pc := pcs[e.t];
    var to := Then(pc, sems, e.line);
    StepMovesLocks(pc, sems, e.line, il, dl, e.t);
    if Woke(pcs, e) {
      var awake := Then(Wakes(pc), sems, e.line);
      LocksMoved(pcs, il, dl, e.sleeper, awake, il, dl);
      LocksMoved(pcs[e.sleeper := awake], il, dl, e.t, to, NextInputLock(il, pc, e.t), NextDataLock(dl, pc, e.t));
    } else {
      LocksMoved(pcs, il, dl, e.t, to, NextInputLock(il, pc, e.t), NextDataLock(dl, pc, e.t));
    }
  }

  /** Nobody falls asleep on a semaphore with units, and only a post that wakes nobody adds one. */
  lemma StepSleeps(pc: Pc, sems: Sems, line: Item, woke: bool)
    requires (woke ==> IsPost(pc)) && !Sleeps(pc)
    ensures var to, after := Then(pc, sems, line), NextSems(sems, pc, woke);
            && (after.items > 0 ==> to != GetAsleepItem && (sems.items > 0 || (pc.PutPost? && !woke)))
            && (after.slots > 0 ==> to != PutAsleepSlot && (sems.slots > 0 || (pc.GetPost? && !woke)))
            && (after.input > 0 ==> to != ProdAsleepInput && (sems.input > 0 || (pc.InPost? && !woke)))
  {
  }

  lemma NoneAtKept(pcs: seq<Pc>, sems: Sems, e: Event, asleep: Pc)
    requires e.t < |pcs| && NoneAt(pcs, asleep) && Sleeps(asleep)
    requires Then(pcs[e.t], sems, e.line) != asleep
    ensures NoneAt(NextPcs(pcs, sems, e), asleep)
  {
  }

  lemma {:induction false} SleepersKept(sems: Sems, pcs: seq<Pc>, e: Event)
    requires Sleepers(sems, pcs) && e.t < |pcs| && !Sleeps(pcs[e.t])
    requires IsPost(pcs[e.t]) ==> MayWake(pcs, Wakes(pcs[e.t]), e.sleeper)
    ensures Sleepers(NextSems(sems, pcs[e.t], Woke(pcs, e)), NextPcs(pcs, sems, e))
  {
    var after := NextSems(sems, pcs[e.t], Woke(pcs, e));
    StepSleeps(pcs[e.t], sems, e.line, Woke(pcs, e));
    if after.items > 0 {
      NoneAtKept(pcs, sems, e, GetAsleepItem);
    }
    if after.slots > 0 {
      NoneAtKept(pcs, sems, e, PutAsleepSlot);
    }
    if after.input > 0 {
      NoneAtKept(pcs, sems, e, ProdAsleepInput);
    }
  }

  lemma {:induction false} LineKeepsMailbox(h: History, mailbox: Item, line: Item, r: Slots)
    requires Mailbox(h, mailbox) && r.bufout < |r.buffer|
    ensures Mailbox(NextPast(h, InCopy(line), mailbox, r), line)
  {
    var u := NextPast(h, InCopy(line), mailbox, r);
    assert forall j :: 0 <= j < |h.inputs| ==> u.inputs[j] == h.inputs[j] && u.putsBefore[j] == h.putsBefore[j];
  }

  lemma PutKeepsMailbox(h: History, mailbox: Item, r: Slots)
    requires Mailbox(h, mailbox) && |h.puts| < |h.inputs| && r.bufout < |r.buffer|
    ensures Mailbox(NextPast(h, PutCopy, mailbox, r), mailbox)
  {
  }

  /** An item goes into the first free slot, which is none of those in use. */
  lemma {:induction false} PutKeepsRing(r: Slots, puts: seq<Item>, gets: seq<Item>, item: Item)
    requires Ring(r, puts, gets) && |puts| < |gets| + r.n
    ensures Ring(NextRing(r, PutCopy, item), puts + [item], gets)
  {
    var u := NextRing(r, PutCopy, item);
    SlotInRing(|puts| + 1, r.n);
    forall j | |gets| <= j < |puts| + 1
      ensures Slot(j, r.n) < r.n && u.buffer[Slot(j, r.n)] == (puts + [item])[j]
    {
      SlotInRing(j, r.n);
      SlotAhead(j, |puts| - j, r.n);
    }
  }

  /** The item taken out is the oldest one not yet got. */
  lemma {:induction false} GetKeepsRing(r: Slots, puts: seq<Item>, gets: seq<Item>, item: Item)
    requires Ring(r, puts, gets) && |gets| < |puts|
    ensures Ring(NextRing(r, GetCopy, item), puts, gets + [r.buffer[r.bufout]])
    ensures r.buffer[r.bufout] == puts[|gets|]
  {
    SlotInRing(|gets| + 1, r.n);
  }

  /** A put finds a line that was not there at the put before, and a free slot; a get finds an item. */
  lemma {:induction false} CriticalSectionsSafe(n: nat, sems: Sems, pcs: seq<Pc>, i: nat, p: nat, g: nat, t: nat)
    requires Tokens(n, sems, pcs, i, p, g) && t < |pcs|
    ensures pcs[t].PutCopy? ==> p < i && p < g + n
    ensures pcs[t].GetCopy? ==> g < p
  {
    if pcs[t].PutCopy? {
      CountAtLeastOne(pcs, t, LineTaken);
      CountAtLeastOne(pcs, t, SlotTaken);
    } else if pcs[t].GetCopy? {
      CountAtLeastOne(pcs, t, ItemTaken);
    }
  }

  /** The copying steps keep the ring and the mailbox; the other steps do not touch them. */
  lemma {:induction false} DataKept(s: State, pc: Pc)
    requires Ring(s.ring, s.past.puts, s.past.gets) && Mailbox(s.past, s.mailbox)
    requires pc.PutCopy? ==> |s.past.puts| < |s.past.inputs| && |s.past.puts| < |s.past.gets| + s.ring.n
    requires pc.GetCopy? ==> |s.past.gets| < |s.past.puts|
    ensures var past := NextPast(s.past, pc, s.mailbox, s.ring);
            && Ring(NextRing(s.ring, pc, s.mailbox), past.puts, past.gets)
            && Mailbox(past, NextMailbox(s.mailbox, pc))
            && |past.inputs| == |s.past.inputs| + One(pc.InCopy?)
            && |past.puts| == |s.past.puts| + One(pc.PutCopy?)
            && |past.gets| == |s.past.gets| + One(pc.GetCopy?)
  {
    if pc.InCopy? {
      LineKeepsMailbox(s.past, s.mailbox, pc.line, s.ring);
    } else if pc.PutCopy? {
      PutKeepsMailbox(s.past, s.mailbox, s.ring);
      PutKeepsRing(s.ring, s.past.puts, s.past.gets, s.mailbox);
    } else if pc.GetCopy? {
      GetKeepsRing(s.ring, s.past.puts, s.past.gets, s.mailbox);
    }
  }

  /** Every step of every thread keeps the invariant. */
  lemma {:induction false} StepKeepsInv(s: State, e: Event)
    requires Inv(s) && Enabled(s, e)
    ensures Inv(Next(s, e))
  {
    var pc := s.pcs[e.t];
    CriticalSectionsSafe(s.ring.n, s.sems, s.pcs, |s.past.inputs|, |s.past.puts|, |s.past.gets|, e.t);
    TokensKept(s.ring.n, s.sems, s.pcs, |s.past.inputs|, |s.past.puts|, |s.past.gets|, e);
    LocksKept(s.pcs, s.sems, s.inputLock, s.dataLock, e);
    SleepersKept(s.sems, s.pcs, e);
    DataKept(s, pc);
  }
}

/** The threads of prodcons_threads.c on the variables they share. Each method is what its
    function does at one atomic step, and goes exactly where the model of the steps goes. */
module RingThreads {
  import opened Remainders
  import opened RingQueue
  import opened RingRuns

  class ProdCons {
    const buffer: array<Item>
    var bufin: nat
    var bufout: nat
    var filledslots: int
    var freeslots: int
    var semitems: nat
    var semslots: nat
    var seminput: nat
    var inputLock: Lock
    var dataLock: Lock
    var userInput: Item
    var pcs: seq<Pc>
    ghost var past: History

    ghost predicate Valid()
      reads this`bufin, this`bufout
    {
      bufin < buffer.Length && bufout < buffer.Length
    }

    ghost function RingView(): Slots
      reads buffer, this`bufin, this`bufout, this`filledslots, this`freeslots
    {
      Slots(buffer.Length, buffer[..], bufin, bufout, filledslots, freeslots)
    }

    ghost function SemsView(): Sems
      reads this`semitems, this`semslots, this`seminput
    {
      Sems(semitems, semslots, seminput)
    }

    ghost function View(): State
      reads this, buffer
    {
      State(RingView(), SemsView(), inputLock, dataLock, userInput, pcs, past)
    }

    /** After bufferinit, with the threads at their starts. */
    constructor (slots: nat, threads: seq<Role>)
      requires slots > 0
      ensures Valid() && View().ring.n == slots && fresh(buffer)
      ensures |pcs| == |threads| && forall t :: 0 <= t < |pcs| ==> pcs[t] == StartOf(threads[t])
      ensures Init(View())
    {
      buffer := new Item[slots](_ => "");
      bufin, bufout, filledslots, freeslots := 0, 0, 0, 0;
      semitems, semslots, seminput := 0, slots, 0;
      inputLock, dataLock, userInput := Free, Free, "";
      pcs := seq(|threads|, t requires 0 <= t < |threads| => StartOf(threads[t]));
      past := History([], [], [], [], []);
    }

    // ------------------------------------------------ semaphores and locks

    /** sem_post wakes a sleeping thread, which then goes on, or else adds a unit. */
    method Post(asleep: Pc, sleeper: nat) returns (units: nat)
      requires Sleeps(asleep) && MayWake(pcs, asleep, sleeper)
      modifies this`pcs
      ensures units == One(sleeper >= |pcs|)
      ensures pcs == if sleeper < |old(pcs)| then old(pcs)[sleeper := Then(asleep, SemsView(), "")] else old(pcs)
    {
      units := 1;
      if sleeper < |pcs| {
        units := 0;
        pcs := pcs[sleeper := if asleep.GetAsleepItem? then GetWantsData
                              else if asleep.PutAsleepSlot? then PutWantsData else ProdWantsLock];
      }
    }

    // ------------------------------------------------- critical sections

    method CopyIn(ghost pc: Pc)
      requires Valid() && pc.PutCopy?
      modifies buffer, this`bufin, this`filledslots, this`freeslots, this`past
      ensures Valid() && RingView() == NextRing(old(RingView()), pc, userInput)
      ensures past == NextPast(old(past), pc, userInput, old(RingView()))
    {
      past := NextPast(past, pc, userInput, RingView());
      buffer[bufin] := userInput;
      WrapIsRemainder(bufin, buffer.Length);
      bufin := (bufin + 1) % buffer.Length;
      filledslots := filledslots + 1;
      freeslots := freeslots - 1;
    }

    method CopyOut(ghost pc: Pc) returns (item: Item)
      requires Valid() && pc.GetCopy?
      modifies this`bufout, this`filledslots, this`freeslots, this`past
      ensures Valid() && RingView() == NextRing(old(RingView()), pc, userInput)
      ensures past == NextPast(old(past), pc, userInput, old(RingView()))
      ensures past.gets == old(past).gets + [item]
    {
      past := NextPast(past, pc, userInput, RingView());
      item := buffer[bufout];
      WrapIsRemainder(bufout, buffer.Length);
      bufout := (bufout + 1) % buffer.Length;
      filledslots := filledslots - 1;
      freeslots := freeslots + 1;
    }

    // ------------------------------------------------------------- threads

    method UserInputThread(t: nat, line: Item, sleeper: nat)
      requires Valid() && Enabled(View(), Event(t, line, sleeper)) && RoleOf(pcs[t]).User?
      modifies this`pcs, this`seminput, this`inputLock, this`userInput, this`past
      ensures Valid() && View() == Next(old(View()), Event(t, line, sleeper))
    {
      match pcs[t]
      case Typing =>
        pcs := pcs[t := InWantsLock(line)];
      case InWantsLock(typed) =>
        inputLock, pcs := HeldBy(t), pcs[t := InCopy(typed)];
      case InCopy(typed) =>
        past := NextPast(past, pcs[t], userInput, RingView());
        userInput, pcs := typed, pcs[t := InUnlock];
      case InUnlock =>
        inputLock, pcs := Free, pcs[t := InPost];
      case InPost =>
        var units := Post(ProdAsleepInput, sleeper);
        seminput, pcs := seminput + units, pcs[t := Typing];
    }

    method PutItem(t: nat, sleeper: nat)
      requires Valid() && Enabled(View(), Event(t, "", sleeper))
      requires pcs[t].PutWaitSlot? || pcs[t].PutWantsData? || pcs[t].PutCopy? || pcs[t].PutUnlock? || pcs[t].PutPost?
      modifies buffer, this`bufin, this`filledslots, this`freeslots, this`past
      modifies this`pcs, this`semslots, this`semitems, this`dataLock
      ensures Valid() && View() == Next(old(View()), Event(t, "", sleeper))
    {
      match pcs[t]
      case PutWaitSlot =>
        if semslots > 0 {
          semslots, pcs := semslots - 1, pcs[t := PutWantsData];
        } else {
          pcs := pcs[t := PutAsleepSlot];
        }
      case PutWantsData =>
        dataLock, pcs := HeldBy(t), pcs[t := PutCopy];
      case PutCopy =>
        CopyIn(pcs[t]);
        pcs := pcs[t := PutUnlock];
      case PutUnlock =>
        dataLock, pcs := Free, pcs[t := PutPost];
      case PutPost =>
        var units := Post(GetAsleepItem, sleeper);
        semitems, pcs := semitems + units, pcs[t := ProdUnlock];
    }

    method ProducerThread(t: nat, sleeper: nat)
      requires Valid() && Enabled(View(), Event(t, "", sleeper)) && RoleOf(pcs[t]).Producer?
      modifies this, buffer
      ensures Valid() && View() == Next(old(View()), Event(t, "", sleeper))
    {
      if pcs[t].ProdWaitInput? {
        if seminput > 0 {
          seminput, pcs := seminput - 1, pcs[t := ProdWantsLock];
        } else {
          pcs := pcs[t := ProdAsleepInput];
        }
      } else if pcs[t].ProdWantsLock? {
        inputLock, pcs := HeldBy(t), pcs[t := PutWaitSlot];
      } else if pcs[t].ProdUnlock? {
        inputLock, pcs := Free, pcs[t := ProdWaitInput];
      } else {
        PutItem(t, sleeper);
      }
    }

    method GetItem(t: nat, sleeper: nat)
      requires Valid() && Enabled(View(), Event(t, "", sleeper)) && RoleOf(pcs[t]).Consumer?
      modifies this`bufout, this`filledslots, this`freeslots, this`past
      modifies this`pcs, this`semslots, this`semitems, this`dataLock
      ensures Valid() && View() == Next(old(View()), Event(t, "", sleeper))
    {
      match pcs[t]
      case GetWaitItem =>
        if semitems > 0 {
          semitems, pcs := semitems - 1, pcs[t := GetWantsData];
        } else {
          pcs := pcs[t := GetAsleepItem];
        }
      case GetWantsData =>
        dataLock, pcs := HeldBy(t), pcs[t := GetCopy];
      case GetCopy =>
        var item := CopyOut(pcs[t]);
        pcs := pcs[t := GetUnlock];
      case GetUnlock =>
        dataLock, pcs := Free, pcs[t := GetPost];
      case GetPost =>
        var units := Post(PutAsleepSlot, sleeper);
        semslots, pcs := semslots + units, pcs[t := GetWaitItem];
    }

    method DisplayStatusThread(t: nat)
      requires Valid() && Enabled(View(), Event(t, "", 0)) && RoleOf(pcs[t]).Display?
      modifies this`dataLock, this`pcs
      ensures Valid() && View() == Next(old(View()), Event(t, "", 0))
    {
      if pcs[t].ShowWantsData? {
        dataLock, pcs := HeldBy(t), pcs[t := ShowUnlock];
      } else {
        dataLock, pcs := Free, pcs[t := ShowWantsData];
      }
    }
  }

  lemma {:induction false} WrapIsRemainder(b: nat, n: nat)
    requires b < n
    ensures (b + 1) % n == Wrap(b, n)
  {
    if b + 1 < n {
      WithinFirst(b + 1, n);
    } else {
      OnePeriodOn(0, n);
    }
  }
}

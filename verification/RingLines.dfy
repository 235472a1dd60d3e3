/** From the keyboard to the ring: what is copied into the mailbox of prodcons_threads.c, and so what is
    put, is what the users typed. */
module RingLines {
  import opened RingQueue
  import opened RingRuns

  /** The lines that user t typed before moment i. */
  ghost function TypedBy(states: seq<State>, events: seq<Event>, t: nat, i: nat): seq<Item>
    requires i <= |events| <= |states|
  {
    if i == 0 then []
    else
      var rest, pcs := TypedBy(states, events, t, i - 1), states[i - 1].pcs;
      if events[i - 1].t == t < |pcs| && pcs[t].Typing? then rest + [events[i - 1].line] else rest
  }

  /** The lines that were copied into the mailbox before moment i, by user t, or by anyone. */
  ghost function CopiedBy(states: seq<State>, events: seq<Event>, t: nat, i: nat): seq<Item>
    requires i <= |events| <= |states|
  {
    if i == 0 then []
    else
      var rest, pcs := CopiedBy(states, events, t, i - 1), states[i - 1].pcs;
      if events[i - 1].t == t < |pcs| && pcs[t].InCopy? then rest + [pcs[t].line] else rest
  }

  ghost function Copied(states: seq<State>, events: seq<Event>, i: nat): seq<Item>
    requires i <= |events| <= |states|
  {
    if i == 0 then []
    else
      var rest, pcs, t := Copied(states, events, i - 1), states[i - 1].pcs, events[i - 1].t;
      if t < |pcs| && pcs[t].InCopy? then rest + [pcs[t].line] else rest
  }

  /** The line that a user has typed and not yet copied. */
  function InHand(pc: Pc): seq<Item> {
    if pc.InWantsLock? || pc.InCopy? then [pc.line] else []
  }

  lemma {:induction false} InHandNext(pcs: seq<Pc>, sems: Sems, e: Event, t: nat)
    requires e.t < |pcs| && !Sleeps(pcs[e.t]) && t < |pcs|
    requires IsPost(pcs[e.t]) ==> MayWake(pcs, Wakes(pcs[e.t]), e.sleeper)
    ensures var pc, after := pcs[t], NextPcs(pcs, sems, e)[t];
            && (e.t == t && pc.Typing? ==> InHand(pc) == [] && InHand(after) == [e.line])
            && (e.t == t && pc.InCopy? ==> InHand(pc) == [pc.line] && InHand(after) == [])
            && (!(e.t == t && (pc.Typing? || pc.InCopy?)) ==> InHand(after) == InHand(pc))
  {
  }

  /** In every run, what a user has typed is what it has copied and what it has in hand, in order. */
  lemma {:induction false} TypedIsCopied(states: seq<State>, events: seq<Event>, t: nat, i: nat)
    requires IsRun(states, events) && i < |states| && t < |states[0].pcs|
    ensures t < |states[i].pcs|
    ensures TypedBy(states, events, t, i) == CopiedBy(states, events, t, i) + InHand(states[i].pcs[t])
  {
    RolesStay(states, events, i);
    if i == 0 {
      assert states[0].pcs[t] == StartOf(RoleOf(states[0].pcs[t]));
    } else {
      RolesStay(states, events, i - 1);
      TypedIsCopied(states, events, t, i - 1);
      assert StepAt(states, events, i - 1);
      InHandNext(states[i - 1].pcs, states[i - 1].sems, events[i - 1], t);
    }
  }

  /** And the lines of the mailbox are those copied, by all users together. */
  lemma {:induction false} InputsAreCopied(states: seq<State>, events: seq<Event>, i: nat)
    requires IsRun(states, events) && i < |states|
    ensures states[i].past.inputs == Copied(states, events, i)
  {
    if i > 0 {
      InputsAreCopied(states, events, i - 1);
      assert StepAt(states, events, i - 1);
    }
  }

  lemma {:induction false} CopiedByTheUser(states: seq<State>, events: seq<Event>, u: nat, i: nat)
    requires IsRun(states, events) && i < |states|
    requires u < |states[0].pcs| && RoleOf(states[0].pcs[u]).User? && OnlyOne(states[0].pcs, User)
    ensures Copied(states, events, i) == CopiedBy(states, events, u, i)
  {
    if i > 0 {
      CopiedByTheUser(states, events, u, i - 1);
      RolesStay(states, events, i - 1);
      assert StepAt(states, events, i - 1);
      var t := events[i - 1].t;
      if states[i - 1].pcs[t].InCopy? {
        assert RoleOf(states[0].pcs[t]).User?;
      }
    }
  }

  /** With one user, as the program starts it: the lines of the mailbox are the lines typed, in order,
      all but the one in hand; and every item put, and so every item got, is one of them. */
  lemma {:induction false} EveryItemWasTyped(states: seq<State>, events: seq<Event>, u: nat, i: nat, k: nat)
    requires IsRun(states, events) && i < |states|
    requires u < |states[0].pcs| && RoleOf(states[0].pcs[u]).User? && OnlyOne(states[0].pcs, User)
    ensures u < |states[i].pcs|
    ensures var h, typed := states[i].past, TypedBy(states, events, u, i);
            && typed == h.inputs + InHand(states[i].pcs[u])
            && |h.source| == |h.puts| && h.gets <= h.puts
            && (k < |h.puts| ==> h.source[k] < |typed| && h.puts[k] == typed[h.source[k]])
  {
    TypedIsCopied(states, events, u, i);
    InputsAreCopied(states, events, i);
    CopiedByTheUser(states, events, u, i);
    RunKeepsInv(states, events, i);
  }
}

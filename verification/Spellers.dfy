/** lua/Keyboard.lua: the speller as a state machine over its layouts, cursor and focus. The
    steps, what every sequence of messages and data updates keeps, and that an update repeated
    changes nothing. */
module Spellers {
  import opened FillButtons
  import opened Layouts

  /** The buttons of all layouts, one layout after another, with the layouts' visible flags; the
      toggle button's Enabled property, if there is such a button; and the fields of the speller. */
  datatype State = State(buttons: seq<Button>, visible: seq<bool>, toggle: Option<bool>,
                         nLayout: nat, cursor: Option<nat>, gotFocus: bool, pressed: bool,
                         nPressed: Option<nat>, enabled: bool, space: bool)

  datatype Duration = Press | LongPress | Repeat | ShortRelease | Release | OtherDuration

  /** The messages of onMessage, and onDataUpdate. Those that update get the properties then. */
  datatype Event =
    | Neg
    | Pos
    | SetFocus(fromWidget: bool, position: int)
    | ToggleLayout
    | Key(first: bool, duration: Duration)        // first: it is the PRESS message
    | ViewChange
    | EntryFieldEmpty(empty: bool, inputs: Inputs)
    | DataUpdate(inputs: Inputs)
    | Other

  /** Layout k takes the buttons from first[k - 1] up to first[k]. */
  ghost predicate Geometry(first: seq<nat>, n: nat) {
    && |first| >= 2 && first[0] == 0 && first[|first| - 1] == n
    && forall i, j :: 0 <= i < j < |first| ==> first[i] <= first[j] <= n
  }

  ghost function LayoutAt(buttons: seq<Button>, first: seq<nat>, k: nat): seq<Button>
    requires Geometry(first, |buttons|) && 0 < k < |first|
  {
    buttons[first[k - 1]..first[k]]
  }

  ghost function AllLayouts(buttons: seq<Button>, first: seq<nat>): seq<seq<Button>>
    requires Geometry(first, |buttons|)
  {
    seq(|first| - 1, k requires 0 <= k < |first| - 1 => LayoutAt(buttons, first, k + 1))
  }

  ghost predicate Valid(s: State, first: seq<nat>) {
    && Geometry(first, |s.buttons|) && |s.visible| == |first| - 1
    && 0 < s.nLayout < |first|
  }

  ghost function Current(s: State, first: seq<nat>): seq<Button>
    requires Valid(s, first)
  {
    LayoutAt(s.buttons, first, s.nLayout)
  }

  // ------------------------------------------------------------------- steps

  ghost function Switch(s: State, first: seq<nat>): State
    requires Valid(s, first)
  {
    s.(nLayout := NextVisible(s.visible, s.nLayout), pressed := false,
       cursor := if s.gotFocus then None else s.cursor, gotFocus := false)
  }

  ghost function Refocus(s: State, first: seq<nat>): State
    requires Valid(s, first)
  {
    if !s.gotFocus then s
    else
      var c := Probe(Current(s, first), s.enabled, if s.cursor.Some? then s.cursor.value else 1, 1);
      s.(cursor := c, gotFocus := c.Some?)
  }

  /** The first half of an update: the buttons, the visible layouts and the toggle button. */
  ghost function Reload(s: State, first: seq<nat>, inputs: Inputs): State
    requires Valid(s, first)
  {
    var buttons := Allocated(s.buttons, inputs, s.space);
    var visible := Visibles(AllLayouts(buttons, first));
    s.(buttons := buttons, visible := visible, enabled := inputs.enabled,
       toggle := if s.toggle.Some? then Some(Count(visible) > 1) else None)
  }

  /** The second half: another layout if the current one is gone, and the cursor. */
  ghost function Settle(s: State, first: seq<nat>): State
    requires Valid(s, first)
  {
    if s.enabled && !IsVisible(s.visible, s.nLayout) then
      NextIsLayout(s.visible, s.nLayout);
      Refocus(Switch(s, first), first)
    else Refocus(s, first)
  }

  ghost function Update(s: State, first: seq<nat>, inputs: Inputs): State
    requires Valid(s, first)
  {
    Settle(Reload(s, first, inputs), first)
  }

  /** Where a focus comes in: at 1 from the left, at 2 from the right. */
  function StartOf(position: int, n: nat): int {
    (position - 1) * n
  }

  ghost function FocusAt(s: State, first: seq<nat>, d: int): State
    requires Valid(s, first)
  {
    var c := Probe(Current(s, first), s.enabled, d, 1);
    if s.gotFocus then s else s.(cursor := c, gotFocus := c.Some?)
  }

  ghost function Focus(s: State, first: seq<nat>, position: int): State
    requires Valid(s, first)
  {
    FocusAt(s, first, StartOf(position, first[s.nLayout] - first[s.nLayout - 1]))
  }

  /** Past the left end the focus goes to the button container, past the right end nothing happens. */
  ghost function Move(s: State, first: seq<nat>, up: bool): State
    requires Valid(s, first)
  {
    if s.cursor.None? then s
    else
      var layout := Current(s, first);
      var c := Walk(layout, if up then s.cursor.value + 1 else s.cursor.value - 1, up);
      if 0 < c <= |layout| then s.(cursor := Some(c))
      else if c <= 0 then s.(cursor := None, gotFocus := false)
      else s
  }

  function PressKey(s: State, first: bool, duration: Duration): State {
    s.(nPressed := if first then s.cursor else s.nPressed,
       pressed := if duration.Press? then true else if duration.Release? then false else s.pressed)
  }

  ghost function React(s: State, first: seq<nat>, e: Event): State
    requires Valid(s, first)
  {
    match e
    case Neg => Move(s, first, false)
    case Pos => Move(s, first, true)
    case SetFocus(fromWidget, position) => if fromWidget then Focus(s, first, position) else s
    case ToggleLayout => Switch(s, first)
    case Key(isPress, duration) => PressKey(s, isPress, duration)
    case ViewChange => s.(pressed := false)
    case EntryFieldEmpty(empty, inputs) => Update(s.(space := !empty), first, inputs)
    case DataUpdate(inputs) => Update(s, first, inputs)
    case Other => s
  }

  // --------------------------------------------------------------- invariant

  /** The speller has the focus exactly while it has a cursor, which is on an enabled button
      unless the whole speller is disabled. */
  ghost predicate CursorFits(layout: seq<Button>, cursor: Option<nat>, gotFocus: bool, enabled: bool) {
    && (gotFocus <==> cursor.Some?)
    && (cursor.Some? ==> 0 < cursor.value <= |layout| && (enabled ==> IsOn(layout, cursor.value)))
  }

  /** The buttons, visible flags and toggle button are what the inputs make of them. */
  ghost predicate Loaded(s: State, first: seq<nat>, inputs: Inputs)
    requires Valid(s, first)
  {
    && s.enabled == inputs.enabled
    && s.buttons == Allocated(s.buttons, inputs, s.space)
    && s.visible == Visibles(AllLayouts(s.buttons, first))
    && (s.toggle.Some? ==> s.toggle.value == (Count(s.visible) > 1))
  }

  ghost predicate Inv(s: State, first: seq<nat>, inputs: Inputs) {
    && Valid(s, first) && Loaded(s, first, inputs)
    && CursorFits(Current(s, first), s.cursor, s.gotFocus, s.enabled)
  }

  lemma {:induction false} ReloadLoads(s: State, first: seq<nat>, inputs: Inputs)
    requires Valid(s, first)
    ensures Valid(Reload(s, first, inputs), first) && Loaded(Reload(s, first, inputs), first, inputs)
  {
    AllocationRepeats(s.buttons, inputs, s.space);
  }

  lemma {:induction false} SwitchKeeps(s: State, first: seq<nat>, inputs: Inputs)
    requires Valid(s, first) && Loaded(s, first, inputs) && (s.gotFocus <==> s.cursor.Some?)
    ensures var u := Switch(s, first);
            Valid(u, first) && Loaded(u, first, inputs) && u.cursor.None? && !u.gotFocus
  {
    NextIsLayout(s.visible, s.nLayout);
  }

  /** Where the search ends the cursor may be. */
  lemma {:induction false} ProbeFits(layout: seq<Button>, enabled: bool, d: int)
    ensures var c := Probe(layout, enabled, d, 1); CursorFits(layout, c, c.Some?, enabled)
  {
    ProbeIs(layout, enabled, d, 1);
  }

  lemma {:induction false} WalkFits(layout: seq<Button>, c: nat, up: bool)
    requires 0 < c <= |layout|
    ensures var r := Walk(layout, if up then c + 1 else c - 1, up); 0 < r <= |layout| ==> IsOn(layout, r)
  {
    WalkIs(layout, if up then c + 1 else c - 1, up);
  }

  lemma {:induction false} SettleKeepsInv(s: State, first: seq<nat>, inputs: Inputs)
    requires Valid(s, first) && Loaded(s, first, inputs) && (s.gotFocus <==> s.cursor.Some?)
    ensures Inv(Settle(s, first), first, inputs)
  {
    if s.enabled && !IsVisible(s.visible, s.nLayout) {
      SwitchKeeps(s, first, inputs);
    } else {
      ProbeFits(Current(s, first), s.enabled, if s.cursor.Some? then s.cursor.value else 1);
    }
  }

  lemma {:induction false} UpdateKeepsInv(s: State, first: seq<nat>, inputs: Inputs)
    requires Valid(s, first) && (s.gotFocus <==> s.cursor.Some?)
    ensures Inv(Update(s, first, inputs), first, inputs)
  {
    ReloadLoads(s, first, inputs);
    SettleKeepsInv(Reload(s, first, inputs), first, inputs);
  }

  function InputsAfter(inputs: Inputs, e: Event): Inputs {
    if e.EntryFieldEmpty? || e.DataUpdate? then e.inputs else inputs
  }

  lemma {:induction false} MoveKeepsInv(s: State, first: seq<nat>, inputs: Inputs, up: bool)
    requires Inv(s, first, inputs)
    ensures Inv(Move(s, first, up), first, inputs)
  {
    if s.cursor.Some? {
      WalkFits(Current(s, first), s.cursor.value, up);
    }
  }

  lemma {:induction false} FocusKeepsInv(s: State, first: seq<nat>, inputs: Inputs, position: int)
    requires Inv(s, first, inputs)
    ensures Inv(Focus(s, first, position), first, inputs)
  {
    ProbeFits(Current(s, first), s.enabled, StartOf(position, |Current(s, first)|));
  }

  lemma PressKeepsInv(s: State, first: seq<nat>, inputs: Inputs, isPress: bool, duration: Duration)
    requires Inv(s, first, inputs)
    ensures Inv(PressKey(s, isPress, duration), first, inputs)
    ensures Inv(s.(pressed := false), first, inputs)
  {
  }

  lemma {:induction false} UpdatesKeepInv(s: State, first: seq<nat>, inputs: Inputs, e: Event)
    requires Inv(s, first, inputs) && (e.EntryFieldEmpty? || e.DataUpdate?)
    ensures Inv(React(s, first, e), first, InputsAfter(inputs, e))
  {
    UpdateKeepsInv(if e.DataUpdate? then s else s.(space := !e.empty), first, e.inputs);
  }

  lemma {:induction false} MovesKeepInv(s: State, first: seq<nat>, inputs: Inputs, e: Event)
    requires Inv(s, first, inputs) && (e.Neg? || e.Pos? || e.SetFocus?)
    ensures Inv(React(s, first, e), first, inputs)
  {
    if e.SetFocus? {
      FocusKeepsInv(s, first, inputs, e.position);
    } else {
      MoveKeepsInv(s, first, inputs, e.Pos?);
    }
  }

  /** Every message and every data update keeps the invariant. */
  lemma {:induction false} ReactKeepsInv(s: State, first: seq<nat>, inputs: Inputs, e: Event)
    requires Inv(s, first, inputs)
    ensures Inv(React(s, first, e), first, InputsAfter(inputs, e))
  {
    if e.EntryFieldEmpty? || e.DataUpdate? {
      UpdatesKeepInv(s, first, inputs, e);
    } else if e.Neg? || e.Pos? || e.SetFocus? {
      MovesKeepInv(s, first, inputs, e);
    } else if e.ToggleLayout? {
      SwitchKeeps(s, first, inputs);
    } else if e.Key? {
      PressKeepsInv(s, first, inputs, e.first, e.duration);
    } else {
      PressKeepsInv(s, first, inputs, false, Press);
    }
  }

  // -------------------------------------------------------------------- runs

  /** What the constructor makes of the layouts: the first layout, no cursor and no focus. */
  ghost function Fresh(buttons: seq<Button>, first: seq<nat>, toggle: Option<bool>): State
    requires Geometry(first, |buttons|)
  {
    State(buttons, seq(|first| - 1, _ => false), toggle, 1, None, false, false, None, true, false)
  }

  /** A speller is constructed with the inputs of then, and gets the events one after another. */
  ghost predicate IsRun(states: seq<State>, events: seq<Event>, first: seq<nat>, inputs: Inputs, buttons: seq<Button>,
                        toggle: Option<bool>) {
    && Geometry(first, |buttons|)
    && |states| == |events| + 1 && states[0] == Update(Fresh(buttons, first, toggle), first, inputs)
    && forall i :: 0 <= i < |events| ==> StepAt(states, events, first, i)
  }

  ghost predicate StepAt(states: seq<State>, events: seq<Event>, first: seq<nat>, i: nat)
    requires i < |events| && |states| == |events| + 1
  {
    Valid(states[i], first) && states[i + 1] == React(states[i], first, events[i])
  }

  /** The inputs that the last update before moment i got. */
  ghost function LastInputs(inputs: Inputs, events: seq<Event>, i: nat): Inputs
    requires i <= |events|
  {
    if i == 0 then inputs else InputsAfter(LastInputs(inputs, events, i - 1), events[i - 1])
  }

  /** Over every sequence of messages and data updates the layout number is valid, the focus is
      there exactly with a cursor, the cursor is on an enabled button of the current layout unless
      the speller is disabled, and the buttons, visible layouts and toggle button are up to date. */
  lemma {:induction false} RunKeepsInv(states: seq<State>, events: seq<Event>, first: seq<nat>, inputs: Inputs,
                                       buttons: seq<Button>, toggle: Option<bool>, i: nat)
    requires IsRun(states, events, first, inputs, buttons, toggle) && i < |states|
    ensures Inv(states[i], first, LastInputs(inputs, events, i))
  {
    if i == 0 {
      UpdateKeepsInv(Fresh(buttons, first, toggle), first, inputs);
    } else {
      RunKeepsInv(states, events, first, inputs, buttons, toggle, i - 1);
      assert StepAt(states, events, first, i - 1);
      ReactKeepsInv(states[i - 1], first, LastInputs(inputs, events, i - 1), events[i - 1]);
    }
  }

  /** Fixed buttons without a letter are never enabled. */
  ghost predicate BlanksOff(buttons: seq<Button>) {
    forall i :: 0 <= i < |buttons| && !buttons[i].fill && buttons[i].character == 0 ==> !buttons[i].enabled
  }

  lemma AllocationKeepsBlanksOff(buttons: seq<Button>, inputs: Inputs, space: bool)
    requires BlanksOff(buttons)
    ensures BlanksOff(Allocated(buttons, inputs, space))
  {
  }

  /** Only an update changes a button. */
  lemma ButtonsAfter(s: State, first: seq<nat>, e: Event)
    requires Valid(s, first)
    ensures React(s, first, e).buttons ==
            if e.EntryFieldEmpty? then Allocated(s.buttons, e.inputs, !e.empty)
            else if e.DataUpdate? then Allocated(s.buttons, e.inputs, s.space)
            else s.buttons
  {
  }

  lemma {:induction false} ReactKeepsBlanksOff(s: State, first: seq<nat>, e: Event)
    requires Valid(s, first) && BlanksOff(s.buttons)
    ensures BlanksOff(React(s, first, e).buttons)
  {
    ButtonsAfter(s, first, e);
    if e.EntryFieldEmpty? {
      AllocationKeepsBlanksOff(s.buttons, e.inputs, !e.empty);
    } else if e.DataUpdate? {
      AllocationKeepsBlanksOff(s.buttons, e.inputs, s.space);
    }
  }

  /** With the layouts as they are built, all off, no button is ever enabled while the speller is
      disabled. */
  lemma {:induction false} DisabledIsOff(states: seq<State>, events: seq<Event>, first: seq<nat>, inputs: Inputs,
                                         buttons: seq<Button>, toggle: Option<bool>, i: nat)
    requires IsRun(states, events, first, inputs, buttons, toggle) && i < |states|
    requires forall k :: 0 <= k < |buttons| ==> !buttons[k].enabled
    ensures BlanksOff(states[i].buttons)
    ensures !states[i].enabled ==> forall k :: 0 <= k < |states[i].buttons| ==> !states[i].buttons[k].enabled
  {
    RunKeepsInv(states, events, first, inputs, buttons, toggle, i);
    if i == 0 {
      AllocationKeepsKeys(buttons, inputs, false);
    } else {
      DisabledIsOff(states, events, first, inputs, buttons, toggle, i - 1);
      assert StepAt(states, events, first, i - 1);
      ReactKeepsBlanksOff(states[i - 1], first, events[i - 1]);
    }
  }

  /** So a disabled speller takes the focus exactly from the right, if it has buttons, with the cursor
      on its last one; from the left, and from any other position, it refuses it. */
  lemma {:induction false} DisabledFocus(s: State, first: seq<nat>, position: int)
    requires Valid(s, first) && !s.enabled && !s.gotFocus
    requires forall k :: 0 <= k < |s.buttons| ==> !s.buttons[k].enabled
    ensures Focus(s, first, position).gotFocus <==> position == 2 && |Current(s, first)| > 0
    ensures Focus(s, first, position).gotFocus ==> Focus(s, first, position).cursor == Some(|Current(s, first)|)
  {
    var layout := Current(s, first);
    var d := StartOf(position, |layout|);
    StartsApart(position, |layout|);
    ProbeIs(layout, false, d, 1);
    if position == 2 {
      ProbeDisabled(layout);
    }
  }

  lemma {:induction false} StartsApart(position: int, n: nat)
    ensures StartOf(1, n) == 0 && StartOf(2, n) == n
    ensures position <= 1 ==> StartOf(position, n) <= 0
    ensures position >= 3 ==> StartOf(position, n) >= 2 * n
  {
    if position <= 1 {
      assert (position - 1) * n <= 0;
    } else if position >= 3 {
      assert (position - 1) * n == 2 * n + (position - 3) * n;
    }
  }

  // -------------------------------------------------------------- repetition

  lemma ReloadRepeats(s: State, first: seq<nat>, inputs: Inputs)
    requires Valid(s, first) && Loaded(s, first, inputs)
    ensures Reload(s, first, inputs) == s
  {
  }

  lemma {:induction false} SettleRepeats(s: State, first: seq<nat>)
    requires Valid(s, first) && (s.gotFocus <==> s.cursor.Some?)
    ensures Valid(Settle(s, first), first) && Settle(Settle(s, first), first) == Settle(s, first)
  {
    if s.enabled && !IsVisible(s.visible, s.nLayout) {
      SwitchRepeats(s, first);
    } else {
      var d := if s.cursor.Some? then s.cursor.value else 1;
      var c := Probe(Current(s, first), s.enabled, d, 1);
      ProbeFits(Current(s, first), s.enabled, d);
      if c.Some? {
        ProbeStays(Current(s, first), s.enabled, c.value);
      }
    }
  }

  lemma {:induction false} SwitchRepeats(s: State, first: seq<nat>)
    requires Valid(s, first) && s.enabled && !IsVisible(s.visible, s.nLayout) && (s.gotFocus <==> s.cursor.Some?)
    ensures Valid(Settle(s, first), first) && Settle(s, first) == Switch(s, first)
    ensures Settle(Settle(s, first), first) == Settle(s, first)
  {
    var u := Switch(s, first);
    NextIsLayout(s.visible, s.nLayout);
    if !IsVisible(u.visible, u.nLayout) {
      NextIsLayout(u.visible, u.nLayout);
    }
  }

  /** An update repeated on unchanged inputs changes nothing: no button, layout, flag or cursor. */
  lemma {:induction false} UpdateRepeats(s: State, first: seq<nat>, inputs: Inputs)
    requires Valid(s, first) && (s.gotFocus <==> s.cursor.Some?)
    ensures Valid(Update(s, first, inputs), first)
    ensures Update(Update(s, first, inputs), first, inputs) == Update(s, first, inputs)
  {
    UpdateKeepsInv(s, first, inputs);
    ReloadLoads(s, first, inputs);
    ReloadRepeats(Update(s, first, inputs), first, inputs);
    SettleRepeats(Reload(s, first, inputs), first);
  }

  /** What an update does to layout, cursor and focus, from any state. */
  lemma {:induction false} UpdateEffect(s: State, first: seq<nat>, inputs: Inputs)
    requires Valid(s, first) && (s.gotFocus <==> s.cursor.Some?)
    ensures var u := Update(s, first, inputs);
            && Valid(u, first) && u.enabled == inputs.enabled && u.space == s.space && u.nPressed == s.nPressed
            && (inputs.enabled && !IsVisible(u.visible, s.nLayout) ==>
                  u.nLayout == NextVisible(u.visible, s.nLayout) && !u.gotFocus && u.cursor.None? && !u.pressed)
            && (!inputs.enabled || IsVisible(u.visible, s.nLayout) ==>
                  u.nLayout == s.nLayout && u.pressed == s.pressed)
            && (!s.gotFocus ==> !u.gotFocus && u.cursor.None?)
  {
    NextIsLayout(Reload(s, first, inputs).visible, s.nLayout);
  }

  /** An update that leaves the layout keeps a focused cursor as near as it can: at the enabled button
      nearest to where it was, the higher one of two; the focus goes only if no button is enabled. */
  lemma {:induction false} UpdateKeepsCursorNear(s: State, first: seq<nat>, inputs: Inputs)
    requires Valid(s, first) && s.gotFocus && s.cursor.Some? && 0 < s.cursor.value <= |Current(s, first)|
    requires inputs.enabled && IsVisible(Update(s, first, inputs).visible, s.nLayout)
    ensures var u, c := Update(s, first, inputs), s.cursor.value;
            && Valid(u, first) && u.nLayout == s.nLayout && (u.gotFocus <==> u.cursor.Some?)
            && (u.gotFocus <==> exists d :: IsOn(Current(u, first), d))
            && (u.gotFocus ==> IsOn(Current(u, first), u.cursor.value))
            && (u.gotFocus ==> forall d :: IsOn(Current(u, first), d) ==>
                  || Distance(c, u.cursor.value) < Distance(c, d)
                  || (Distance(c, u.cursor.value) == Distance(c, d) && u.cursor.value >= d))
  {
    UpdateEffect(s, first, inputs);
    var layout := Current(Reload(s, first, inputs), first);
    NearestEnabled(layout, s.cursor.value);
    assert Current(Update(s, first, inputs), first) == layout;
  }

  /** An update that disables the speller leaves layout, cursor and focus alone. */
  lemma {:induction false} DisablingKeepsCursor(s: State, first: seq<nat>, inputs: Inputs)
    requires Valid(s, first) && (s.gotFocus <==> s.cursor.Some?) && !inputs.enabled
    requires s.cursor.Some? ==> 0 < s.cursor.value <= |Current(s, first)|
    ensures var u := Update(s, first, inputs);
            u.nLayout == s.nLayout && u.cursor == s.cursor && u.gotFocus == s.gotFocus && u.pressed == s.pressed
  {
    if s.gotFocus {
      ProbeStays(Current(Reload(s, first, inputs), first), false, s.cursor.value);
    }
  }

  /** With the inputs it has, an update changes nothing, exactly unless the speller is enabled and its
      layout is not visible, and there is another to show, or something pressed or a focus to give up. */
  lemma {:induction false} UpdateUnchangedIff(s: State, first: seq<nat>, inputs: Inputs)
    requires Inv(s, first, inputs)
    ensures Update(s, first, inputs) == s <==>
            || !s.enabled || IsVisible(s.visible, s.nLayout)
            || ((forall n :: !IsVisible(s.visible, n)) && !s.pressed && !s.gotFocus)
  {
    ReloadRepeats(s, first, inputs);
    if s.enabled && !IsVisible(s.visible, s.nLayout) {
      NextIsLayout(s.visible, s.nLayout);
      SettleSwitches(s, first);
    } else if s.gotFocus {
      ProbeStays(Current(s, first), s.enabled, s.cursor.value);
    }
  }

  lemma {:induction false} SettleSwitches(s: State, first: seq<nat>)
    requires Valid(s, first) && s.enabled && !IsVisible(s.visible, s.nLayout) && (s.gotFocus <==> s.cursor.Some?)
    ensures Settle(s, first) == s.(nLayout := NextVisible(s.visible, s.nLayout), pressed := false,
                                   cursor := None, gotFocus := false)
  {
    NextIsLayout(s.visible, s.nLayout);
  }

  /** A new speller has no focus and nothing pressed, and shows its first layout if it is disabled, its
      first visible layout if it is enabled and has one. */
  lemma {:induction false} NewSpellerShows(buttons: seq<Button>, first: seq<nat>, toggle: Option<bool>, inputs: Inputs)
    requires Geometry(first, |buttons|)
    ensures var s := Update(Fresh(buttons, first, toggle), first, inputs);
            && !s.gotFocus && s.cursor.None? && !s.pressed && s.nPressed.None? && !s.space
            && (!inputs.enabled ==> s.nLayout == 1)
            && (inputs.enabled ==> forall m :: IsVisible(s.visible, m) ==>
                  IsVisible(s.visible, s.nLayout) && s.nLayout <= m)
            && (inputs.enabled && (forall m :: !IsVisible(s.visible, m)) ==> s.nLayout == 1)
  {
    var s := Update(Fresh(buttons, first, toggle), first, inputs);
    UpdateEffect(Fresh(buttons, first, toggle), first, inputs);
    NextIsLayout(s.visible, 1);
    FirstFromIs(s.visible, 2);
  }

  // ------------------------------------------------------------ single messages

  /** To the right: to the next enabled button, and nowhere if there is none. */
  lemma {:induction false} PosGoesRight(s: State, first: seq<nat>)
    requires Valid(s, first) && s.cursor.Some? && 0 < s.cursor.value <= |Current(s, first)|
    ensures var u, layout, c := React(s, first, Pos), Current(s, first), s.cursor.value;
            && u == s.(cursor := u.cursor) && u.cursor.Some?
            && ((forall d :: IsOn(layout, d) ==> d <= c) ==> u == s)
            && forall d :: IsOn(layout, d) && d > c ==> IsOn(layout, u.cursor.value) && c < u.cursor.value <= d
  {
    WalkIs(Current(s, first), s.cursor.value + 1, true);
  }

  /** To the left: to the next enabled button, and out of the speller if there is none. */
  lemma {:induction false} NegGoesLeft(s: State, first: seq<nat>)
    requires Valid(s, first) && s.cursor.Some? && 0 < s.cursor.value <= |Current(s, first)|
    ensures var u, layout, c := React(s, first, Neg), Current(s, first), s.cursor.value;
            && ((forall d :: IsOn(layout, d) ==> d >= c) ==> u == s.(cursor := None, gotFocus := false))
            && forall d :: IsOn(layout, d) && d < c ==>
                 && u == s.(cursor := u.cursor) && u.cursor.Some?
                 && IsOn(layout, u.cursor.value) && d <= u.cursor.value < c
  {
    WalkIs(Current(s, first), s.cursor.value - 1, false);
  }

  /** The toggle message: the visible layout that comes around first, or the same if there is none; what
      is pressed and the focus are given up, and nothing else changes. */
  lemma {:induction false} ToggleGoesOn(s: State, first: seq<nat>, inputs: Inputs)
    requires Inv(s, first, inputs)
    ensures var u := React(s, first, ToggleLayout);
            && u == s.(nLayout := u.nLayout, pressed := false, cursor := None, gotFocus := false)
            && ((forall m :: !IsVisible(s.visible, m)) ==> u.nLayout == s.nLayout)
            && forall m :: IsVisible(s.visible, m) ==>
                 && IsVisible(s.visible, u.nLayout)
                 && StepsTo(s.nLayout, u.nLayout, |s.visible|) <= StepsTo(s.nLayout, m, |s.visible|)
  {
    NextIsLayout(s.visible, s.nLayout);
    forall m | IsVisible(s.visible, m)
      ensures IsVisible(s.visible, NextVisible(s.visible, s.nLayout))
      ensures StepsTo(s.nLayout, NextVisible(s.visible, s.nLayout), |s.visible|) <= StepsTo(s.nLayout, m, |s.visible|)
    {
      NextComesFirst(s.visible, s.nLayout, m);
    }
  }

  /** The entry field tells when a fixed space button may be used. */
  lemma {:induction false} EntryFieldRulesSpace(s: State, first: seq<nat>, empty: bool, inputs: Inputs, i: nat)
    requires Valid(s, first) && i < |s.buttons| && !s.buttons[i].fill && s.buttons[i].character == SPACE
    ensures var u := React(s, first, EntryFieldEmpty(empty, inputs));
            && |u.buttons| == |s.buttons| && u.space == !empty
            && (u.buttons[i].enabled <==> inputs.enabled && !empty && (SPACE in inputs.letters) != inputs.invert)
  {
    ButtonsAfter(s, first, EntryFieldEmpty(empty, inputs));
    SpaceOfferedIff(s.buttons, inputs, !empty, i);
    NextIsLayout(Reload(s.(space := !empty), first, inputs).visible, s.nLayout);
  }

  /** The messages that touch little: a key is down from a press to a release, whatever comes between; a
      change of view releases it; a focus that does not come from a widget, or comes to a speller that
      has it, does nothing; nor does a move without a cursor, or another message. */
  lemma {:induction false} SmallMessages(s: State, first: seq<nat>, isPress: bool, duration: Duration, position: int)
    requires Valid(s, first)
    ensures var u := React(s, first, Key(isPress, duration));
            && u == s.(pressed := u.pressed, nPressed := if isPress then s.cursor else s.nPressed)
            && (u.pressed <==> duration.Press? || (s.pressed && !duration.Release?))
    ensures React(s, first, ViewChange) == s.(pressed := false)
    ensures React(s, first, SetFocus(false, position)) == s && React(s, first, Other) == s
    ensures s.gotFocus ==> React(s, first, SetFocus(true, position)) == s
    ensures s.cursor.None? ==> React(s, first, Pos) == s && React(s, first, Neg) == s
  {
  }

  // ------------------------------------------------------------ focus and keys

  /** With the focus coming in from the left an enabled speller puts the cursor on its first
      enabled button, from the right on its last, and takes the focus exactly if it has one. */
  lemma {:induction false} FocusEnds(s: State, first: seq<nat>, position: int)
    requires Valid(s, first) && s.enabled && !s.gotFocus && (position == 1 || position == 2)
    ensures var layout, u := Current(s, first), Focus(s, first, position);
            && (u.gotFocus <==> exists c :: IsOn(layout, c))
            && (u.gotFocus <==> u.cursor.Some?)
            && (u.gotFocus ==> IsOn(layout, u.cursor.value))
            && (u.gotFocus ==> forall c :: IsOn(layout, c) ==>
                  if position == 1 then u.cursor.value <= c else c <= u.cursor.value)
  {
    var layout := Current(s, first);
    assert StartOf(1, |layout|) == 0 && StartOf(2, |layout|) == |layout|;
    NearestEnabled(layout, if position == 1 then 0 else |layout|);
  }

  /** The toggle message so many times. */
  ghost function Toggled(s: State, first: seq<nat>, times: nat): (u: State)
    requires Valid(s, first)
    ensures Valid(u, first) && u.visible == s.visible && u.nLayout == Switched(s.visible, s.nLayout, times)
  {
    if times == 0 then s
    else
      var u := Toggled(s, first, times - 1);
      NextIsLayout(u.visible, u.nLayout);
      React(u, first, ToggleLayout)
  }

  /** From a visible layout, as many toggle messages as there are visible layouts show each of them
      exactly once and end where they began. */
  lemma {:induction false} TogglesShowAll(s: State, first: seq<nat>, m: nat) returns (times: nat)
    requires Valid(s, first) && IsVisible(s.visible, s.nLayout) && IsVisible(s.visible, m)
    ensures 0 < times <= Count(s.visible) && Toggled(s, first, times).nLayout == m
    ensures forall j :: 0 < j <= Count(s.visible) && Toggled(s, first, j).nLayout == m ==> j == times
    ensures Toggled(s, first, Count(s.visible)).nLayout == s.nLayout
  {
    times := SwitchesVisitAll(s.visible, s.nLayout, m);
  }

  /** A step to the right that moves the cursor is undone by a step to the left. */
  lemma {:induction false} PosThenNeg(s: State, first: seq<nat>)
    requires Valid(s, first) && CursorFits(Current(s, first), s.cursor, s.gotFocus, true)
    requires Move(s, first, true) != s
    ensures Valid(Move(s, first, true), first) && Move(Move(s, first, true), first, false) == s
  {
    var layout, c := Current(s, first), s.cursor.value;
    var r := Walk(layout, c + 1, true);
    WalkIs(layout, c + 1, true);
    MoveThereAndBack(layout, c);
    assert Move(s, first, true) == s.(cursor := Some(r));
  }

  /** The letter that a press reports: that of the button, or 0. */
  ghost function Reported(s: State, first: seq<nat>): nat
    requires Valid(s, first)
  {
    var layout := Current(s, first);
    if s.nPressed.Some? && 0 < s.nPressed.value <= |layout| then layout[s.nPressed.value - 1].character else 0
  }

  /** The letter under the cursor is not on offer: requested while inverted, or not while not. */
  ghost predicate Unoffered(c: nat, inputs: Inputs) {
    c != 0 && (c in inputs.letters) == inputs.invert
  }

  /** A press reports what is under the cursor. */
  lemma PressReportsCursor(s: State, first: seq<nat>, inputs: Inputs)
    requires Inv(s, first, inputs)
    ensures var u := React(s, first, Key(true, Press));
            && u.pressed && u.nPressed == s.cursor && Valid(u, first)
            && Reported(u, first) == if s.cursor.Some? then Current(s, first)[s.cursor.value - 1].character else 0
  {
  }

  /** While the speller is enabled, inverted or not, a press reports 0 or a letter on offer. */
  lemma {:induction false} PressReportsRequested(s: State, first: seq<nat>, inputs: Inputs)
    requires Inv(s, first, inputs) && s.enabled
    ensures var u := React(s, first, Key(true, Press));
            && u.pressed && u.nPressed == s.cursor && Valid(u, first)
            && (Reported(u, first) != 0 ==> (Reported(u, first) in inputs.letters) != inputs.invert)
  {
    PressReportsCursor(s, first, inputs);
    if s.cursor.Some? {
      EnabledIsOffered(s, first, inputs, s.cursor.value);
    }
  }

  lemma {:induction false} EnabledIsOffered(s: State, first: seq<nat>, inputs: Inputs, c: nat)
    requires Valid(s, first) && Loaded(s, first, inputs) && s.enabled && IsOn(Current(s, first), c)
    ensures !Unoffered(Current(s, first)[c - 1].character, inputs)
  {
    var i := first[s.nLayout - 1] + c - 1;
    assert s.buttons[i] == Current(s, first)[c - 1];
    assert s.buttons[i] == AllocatedAt(s.buttons, inputs, s.space, i);
    if s.buttons[i].character != 0 && Filling(inputs) {
      OfferedWasRequested(s.buttons, inputs, s.space, i);
    }
  }

  /** A press reports a letter that is not on offer exactly if the speller is disabled and the cursor
      is on a fixed button with such a letter: a press does not look at the enabled flags. */
  lemma {:induction false} PressReportsUnofferedIff(s: State, first: seq<nat>, inputs: Inputs)
    requires Inv(s, first, inputs)
    ensures var u := React(s, first, Key(true, Press));
            && Valid(u, first)
            && (Unoffered(Reported(u, first), inputs) <==>
                && !s.enabled && s.cursor.Some?
                && var b := Current(s, first)[s.cursor.value - 1]; !b.fill && Unoffered(b.character, inputs))
  {
    PressReportsCursor(s, first, inputs);
    if s.enabled {
      PressReportsRequested(s, first, inputs);
    } else if s.cursor.Some? {
      var i := first[s.nLayout - 1] + s.cursor.value - 1;
      assert s.buttons[i] == Current(s, first)[s.cursor.value - 1];
      assert s.buttons[i] == AllocatedAt(s.buttons, inputs, s.space, i);
    }
  }

  /** Given the focus from the right, the speller takes it, and a press reports c. */
  ghost predicate PressAfterFocusReports(s: State, first: seq<nat>, inputs: Inputs, c: nat)
    requires Valid(s, first)
  {
    var t := React(s, first, SetFocus(true, 2));
    && Inv(t, first, inputs) && t.gotFocus
    && Reported(React(t, first, Key(true, Press)), first) == c
  }

  /** It happens: a disabled speller with one button A and nothing requested is given the focus from
      the right, and then reports A. */
  lemma {:induction false} DisabledPressReports() returns (s: State)
    ensures var first, inputs := [0, 1], Inputs([], false, false);
            Inv(s, first, inputs) && !s.gotFocus && PressAfterFocusReports(s, first, inputs, 65)
  {
    var first, inputs := [0, 1], Inputs([], false, false);
    s := Update(Fresh([Button(false, 65, false)], first, None), first, inputs);
    UpdateKeepsInv(Fresh([Button(false, 65, false)], first, None), first, inputs);
    assert s.buttons == [Button(false, 65, false)];
    DisabledFocus(s, first, 2);
    FocusKeepsInv(s, first, inputs, 2);
    PressReportsCursor(React(s, first, SetFocus(true, 2)), first, inputs);
  }
}

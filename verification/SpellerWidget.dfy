/** lua/Keyboard.lua: the methods of the speller, which update its buttons, layout, cursor and
    focus in place. Each goes exactly where the state machine goes. */
module SpellerWidget {
  import opened FillButtons
  import opened Layouts
  import opened Spellers

  /** The codes of GetSpellerSpecialCharacters. */
  datatype Codes = Codes(empty: nat, fill: nat, eol: nat)

  const NEWLINE: nat := 0x000A

  // -------------------------------------------------------- the layout table

  /** The button that a character of a layout's sequence defines. */
  function Definition(c: nat, codes: Codes): Button {
    if c == codes.empty || c == 0 || c == codes.fill then Button(c == codes.fill, 0, false)
    else if c != SPACE && c == codes.eol then Button(false, NEWLINE, false)
    else Button(false, c, false)
  }

  /** The empty code, 0 and the fill code make a blank button, only the fill code one to be filled; the
      end-of-line code makes a newline; any other character is the button's own. */
  lemma {:induction false} DefinitionByCode(c: nat, codes: Codes)
    ensures !Definition(c, codes).enabled && (Definition(c, codes).fill <==> c == codes.fill)
    ensures c in {codes.empty, codes.fill, 0} ==> Definition(c, codes).character == 0
    ensures c !in {codes.empty, codes.fill, 0} ==>
              Definition(c, codes).character == if c == codes.eol && c != SPACE then 10 else c
  {
  }

  /** The buttons of the layouts built so far, those of layout k at their places. */
  ghost predicate Built(defs: seq<Button>, first: seq<nat>, sequences: seq<seq<nat>>, codes: Codes) {
    && |first| == |sequences| + 1 && first[0] == 0 && first[|sequences|] == |defs|
    && forall k :: 0 <= k < |sequences| ==> Places(defs, first[k], first[k + 1], sequences[k], codes)
  }

  ghost predicate Places(defs: seq<Button>, from: nat, to: nat, characters: seq<nat>, codes: Codes) {
    && to == from + |characters| <= |defs|
    && forall j :: 0 <= j < |characters| ==> defs[from + j] == Definition(characters[j], codes)
  }

  lemma {:induction false} BuiltAscends(defs: seq<Button>, first: seq<nat>, sequences: seq<seq<nat>>, codes: Codes,
                                        i: nat, j: nat)
    requires Built(defs, first, sequences, codes) && i <= j < |first|
    ensures first[i] <= first[j]
    decreases j
  {
    if i < j {
      BuiltAscends(defs, first, sequences, codes, i, j - 1);
      assert Places(defs, first[j - 1], first[j], sequences[j - 1], codes);
    }
  }

  lemma {:induction false} BuiltHasGeometry(defs: seq<Button>, first: seq<nat>, sequences: seq<seq<nat>>, codes: Codes)
    requires Built(defs, first, sequences, codes) && sequences != []
    ensures Geometry(first, |defs|)
  {
    forall i, j | 0 <= i < j < |first| ensures first[i] <= first[j] <= |defs| {
      BuiltAscends(defs, first, sequences, codes, i, j);
      BuiltAscends(defs, first, sequences, codes, j, |sequences|);
    }
  }

  lemma {:induction false} PlacesGrow(defs: seq<Button>, more: seq<Button>, from: nat, to: nat, characters: seq<nat>,
                                      codes: Codes)
    requires Places(defs, from, to, characters, codes)
    ensures Places(defs + more, from, to, characters, codes)
  {
    forall j | 0 <= j < |characters| ensures (defs + more)[from + j] == Definition(characters[j], codes) {
      assert defs[from + j] == Definition(characters[j], codes);
    }
  }

  lemma {:induction false} PlacesLast(defs: seq<Button>, more: seq<Button>, characters: seq<nat>, codes: Codes)
    requires |more| == |characters| && forall j :: 0 <= j < |more| ==> more[j] == Definition(characters[j], codes)
    ensures Places(defs + more, |defs|, |defs| + |more|, characters, codes)
  {
    forall j | 0 <= j < |more| ensures (defs + more)[|defs| + j] == Definition(characters[j], codes) {
    }
  }

  lemma {:induction false} BuiltOneMore(defs: seq<Button>, first: seq<nat>, sequences: seq<seq<nat>>, codes: Codes,
                                        more: seq<Button>, characters: seq<nat>)
    requires Built(defs, first, sequences, codes)
    requires |more| == |characters| && forall j :: 0 <= j < |more| ==> more[j] == Definition(characters[j], codes)
    ensures Built(defs + more, first + [|defs| + |more|], sequences + [characters], codes)
  {
    var d, f, s := defs + more, first + [|defs| + |more|], sequences + [characters];
    forall k | 0 <= k < |s| ensures Places(d, f[k], f[k + 1], s[k], codes) {
      if k < |sequences| {
        PlacesGrow(defs, more, first[k], first[k + 1], sequences[k], codes);
      } else {
        PlacesLast(defs, more, characters, codes);
      }
    }
  }

  /** One layout, without buttons, if there is no sequence. */
  function Sequences(sequences: seq<seq<nat>>): seq<seq<nat>> {
    if sequences == [] then [[]] else sequences
  }

  method BuildLayout(characters: seq<nat>, codes: Codes) returns (defs: seq<Button>, useFill: bool)
    ensures |defs| == |characters| && forall j :: 0 <= j < |defs| ==> defs[j] == Definition(characters[j], codes)
    ensures useFill <==> exists j :: 0 <= j < |defs| && defs[j].fill
  {
    defs, useFill := [], false;
    for j := 0 to |characters|
      invariant |defs| == j && forall i :: 0 <= i < j ==> defs[i] == Definition(characters[i], codes)
      invariant useFill <==> exists i :: 0 <= i < j && defs[i].fill
    {
      var c := characters[j];
      var fill := c == codes.fill;
      useFill := useFill || fill;
      if c == codes.empty || c == 0 || fill {
        c := 0;
      } else if c != SPACE && c == codes.eol {
        c := NEWLINE;
      }
      defs := defs + [Button(fill, c, false)];
    }
  }

  /** Every layout has the buttons that its sequence defines, and bUseFill tells if any of them is
      a fill button. */
  method BuildLayoutTable(given: seq<seq<nat>>, codes: Codes)
    returns (defs: seq<Button>, first: seq<nat>, useFill: bool)
    ensures Geometry(first, |defs|) && Built(defs, first, Sequences(given), codes)
    ensures useFill <==> exists i :: 0 <= i < |defs| && defs[i].fill
  {
    var sequences := Sequences(given);
    defs, first, useFill := [], [0], false;
    for i := 0 to |sequences|
      invariant Built(defs, first, sequences[..i], codes)
      invariant useFill <==> exists j :: 0 <= j < |defs| && defs[j].fill
    {
      var more, anyFill := BuildLayout(sequences[i], codes);
      BuiltOneMore(defs, first, sequences[..i], codes, more, sequences[i]);
      assert sequences[..i + 1] == sequences[..i] + [sequences[i]];
      AnyFill(defs, more);
      defs, first, useFill := defs + more, first + [|defs| + |more|], useFill || anyFill;
    }
    assert sequences[..|sequences|] == sequences;
    BuiltHasGeometry(defs, first, sequences, codes);
  }

  lemma {:induction false} AnyFill(a: seq<Button>, b: seq<Button>)
    ensures (exists j :: 0 <= j < |a + b| && (a + b)[j].fill) <==>
            (exists j :: 0 <= j < |a| && a[j].fill) || (exists j :: 0 <= j < |b| && b[j].fill)
  {
    forall j | 0 <= j < |b| && b[j].fill ensures (a + b)[|a| + j].fill {
    }
    forall j | 0 <= j < |a| && a[j].fill ensures (a + b)[j].fill {
    }
  }

  // ----------------------------------------------------- what the loops find

  /** fills lists the fill buttons in order: each has its own number of fill buttons before it. */
  ghost predicate ListsFills(buttons: seq<Button>, n: nat, fills: seq<nat>)
    requires n <= |buttons|
  {
    && |fills| == FillsBefore(buttons, n)
    && forall k :: 0 <= k < |fills| ==> fills[k] < n && buttons[fills[k]].fill && FillsBefore(buttons, fills[k]) == k
  }

  /** The table tells of each requested letter if one of the first n buttons, fixed, carries it. */
  ghost predicate TellsCarried(buttons: seq<Button>, n: nat, letters: seq<nat>, used: map<nat, bool>)
    requires n <= |buttons|
  {
    && (forall c :: c in used <==> c in letters)
    && forall c :: c in used ==> (used[c] <==> Carried(buttons[..n], c))
  }

  lemma {:induction false} CarriedNext(buttons: seq<Button>, n: nat, c: nat)
    requires n < |buttons|
    ensures Carried(buttons[..n + 1], c) <==> Carried(buttons[..n], c) || CarriedAt(buttons[n], c)
  {
    if Carried(buttons[..n + 1], c) {
      var i :| 0 <= i < n + 1 && CarriedAt(buttons[..n + 1][i], c);
      assert i < n ==> CarriedAt(buttons[..n][i], c);
    }
    if Carried(buttons[..n], c) {
      var i :| 0 <= i < n && CarriedAt(buttons[..n][i], c);
      assert CarriedAt(buttons[..n + 1][i], c);
    }
    assert buttons[..n + 1][n] == buttons[n];
  }

  lemma {:induction false} TellsNext(buttons: seq<Button>, n: nat, letters: seq<nat>, used: map<nat, bool>)
    requires n < |buttons| && TellsCarried(buttons, n, letters, used)
    ensures var b := buttons[n];
            var after := if !b.fill && b.character != 0 && b.character in used then used[b.character := true] else used;
            TellsCarried(buttons, n + 1, letters, after)
  {
    var b := buttons[n];
    var after := if !b.fill && b.character != 0 && b.character in used then used[b.character := true] else used;
    forall c | c in after ensures after[c] <==> Carried(buttons[..n + 1], c) {
      CarriedNext(buttons, n, c);
    }
  }

  lemma FillsNext(buttons: seq<Button>, n: nat, fills: seq<nat>)
    requires n < |buttons| && ListsFills(buttons, n, fills)
    ensures ListsFills(buttons, n + 1, if buttons[n].fill then fills + [n] else fills)
  {
  }

  /** No button is missing in the list. */
  lemma {:induction false} FillIsListed(buttons: seq<Button>, fills: seq<nat>, i: nat)
    requires ListsFills(buttons, |buttons|, fills) && i < |buttons| && buttons[i].fill
    ensures FillsBefore(buttons, i) < |fills| && fills[FillsBefore(buttons, i)] == i
  {
    FillsGrow(buttons, i, |buttons|);
    var j := fills[FillsBefore(buttons, i)];
    FillsGrow(buttons, if i < j then i else j, if i < j then j else i);
  }

  lemma {:induction false} NoFills(buttons: seq<Button>, n: nat)
    requires n <= |buttons| && forall i :: 0 <= i < |buttons| ==> !buttons[i].fill
    ensures FillsBefore(buttons, n) == 0
  {
    if n > 0 {
      NoFills(buttons, n - 1);
    }
  }

  lemma {:induction false} WantedNext(buttons: seq<Button>, letters: seq<nat>, p: nat)
    requires p < |letters|
    ensures var w, c := Wanted(buttons, letters[..p]), letters[p];
            Wanted(buttons, letters[..p + 1]) == if Carried(buttons, c) || c in w then w else w + [c]
  {
    assert letters[..p + 1][..p] == letters[..p];
  }

  /** The first letters of the list are on the first fill buttons; the other buttons are not
      yet given any. */
  ghost predicate GivenOut(now: seq<Button>, buttons: seq<Button>, inputs: Inputs, space: bool, fills: seq<nat>,
                           given: seq<nat>) {
    && |now| == |buttons| && |given| <= |fills|
    && (forall k :: 0 <= k < |given| ==> fills[k] < |now| && now[fills[k]] == Button(true, given[k], true))
    && forall i :: 0 <= i < |now| && i !in fills[..|given|] ==> now[i] == Refreshed(buttons[i], inputs, space)
  }

  /** The table tells of each requested letter if a button carries it now. */
  ghost predicate TellsGiven(buttons: seq<Button>, letters: seq<nat>, used: map<nat, bool>, given: seq<nat>) {
    && (forall c :: c in used <==> c in letters)
    && forall c :: c in used ==> (used[c] <==> Carried(buttons, c) || c in given)
  }

  lemma {:induction false} GivingNext(buttons: seq<Button>, letters: seq<nat>, p: nat, used: map<nat, bool>,
                                      given: seq<nat>)
    requires p < |letters| && TellsGiven(buttons, letters, used, given) && given == Wanted(buttons, letters[..p])
    ensures letters[p] in used
    ensures var c := letters[p];
            if used[c] then Wanted(buttons, letters[..p + 1]) == given
            else
              && Wanted(buttons, letters[..p + 1]) == given + [c]
              && TellsGiven(buttons, letters, used[c := true], given + [c])
  {
    WantedNext(buttons, letters, p);
  }

  /** When the letters or the fill buttons have run out, the allocation is done. */
  lemma {:induction false} GivenOutIsAllocated(now: seq<Button>, buttons: seq<Button>, inputs: Inputs, space: bool,
                                               fills: seq<nat>, given: seq<nat>)
    requires Filling(inputs) && ListsFills(buttons, |buttons|, fills)
    requires GivenOut(now, buttons, inputs, space, fills, given) && given <= Wanted(buttons, inputs.letters)
    requires |given| == |fills| || given == Wanted(buttons, inputs.letters)
    ensures now == Allocated(buttons, inputs, space)
  {
    forall i | 0 <= i < |now| ensures now[i] == AllocatedAt(buttons, inputs, space, i) {
      if buttons[i].fill {
        FillIsListed(buttons, fills, i);
        var k := FillsBefore(buttons, i);
        if k < |given| {
          assert now[fills[k]] == Button(true, given[k], true);
        } else {
          NotGiven(buttons, fills, i, |given|);
        }
      } else {
        assert i !in fills[..|given|];
      }
    }
  }

  lemma NotGiven(buttons: seq<Button>, fills: seq<nat>, i: nat, n: nat)
    requires ListsFills(buttons, |buttons|, fills) && i < |buttons| && n <= |fills|
    requires FillsBefore(buttons, i) >= n
    ensures i !in fills[..n]
  {
  }

  lemma {:induction false} GiveOne(now: seq<Button>, buttons: seq<Button>, inputs: Inputs, space: bool, fills: seq<nat>,
                                   given: seq<nat>, c: nat)
    requires ListsFills(buttons, |buttons|, fills) && |given| < |fills|
    requires GivenOut(now, buttons, inputs, space, fills, given)
    ensures GivenOut(now[fills[|given|] := Button(true, c, true)], buttons, inputs, space, fills, given + [c])
  {
    var n := |given|;
    assert fills[..n + 1] == fills[..n] + [fills[n]];
    forall k | 0 <= k < n ensures fills[k] != fills[n] {
      assert FillsBefore(buttons, fills[k]) == k;
    }
  }

  // --------------------------------------------------------------- the widget

  class Speller {
    // tttLayouts: the records of all buttons, where the layouts begin and end, bUseFill
    const buttons: array<Button>
    const first: seq<nat>
    const useFill: bool
    var visible: seq<bool>
    var toggle: Option<bool>
    var nLayout: nat
    var cursor: Option<nat>
    var gotFocus: bool
    var pressed: bool
    var nPressed: Option<nat>
    var enabled: bool
    var spaceEnabled: bool

    ghost function View(): State
      reads this, buttons
    {
      State(buttons[..], visible, toggle, nLayout, cursor, gotFocus, pressed, nPressed, enabled, spaceEnabled)
    }

    ghost predicate Ok()
      reads this`visible, this`nLayout, buttons
    {
      && Geometry(first, buttons.Length) && |visible| == |first| - 1 && 0 < nLayout < |first|
      && (!useFill ==> forall i :: 0 <= i < buttons.Length ==> !buttons[i].fill)
    }

    ghost function Layout(): seq<Button>
      requires Ok()
      reads this`visible, this`nLayout, buttons
    {
      buttons[first[nLayout - 1]..first[nLayout]]
    }

    /** Takes the layout table over and sets the buttons as the inputs say. */
    constructor (defs: seq<Button>, first: seq<nat>, useFill: bool, toggle: Option<bool>, inputs: Inputs)
      requires Geometry(first, |defs|) && (useFill <==> exists i :: 0 <= i < |defs| && defs[i].fill)
      ensures Ok() && fresh(buttons) && this.first == first
      ensures View() == Update(Fresh(defs, first, toggle), first, inputs)
    {
      this.buttons := new Button[|defs|](i requires 0 <= i < |defs| => defs[i]);
      this.first, this.useFill, this.toggle := first, useFill, toggle;
      visible := seq(|first| - 1, _ => false);
      nLayout, cursor, gotFocus, pressed, nPressed := 1, None, false, false, None;
      enabled, spaceEnabled := true, false;
      new;
      assert buttons[..] == defs;
      UpdateEnabled(inputs);
    }

    // ------------------------------------------------------------ the buttons

    /** Sets all fixed buttons, blanks the fill buttons and collects them. */
    method RefreshButtons(inputs: Inputs, filling: bool) returns (used: map<nat, bool>, fills: seq<nat>)
      modifies buttons
      ensures forall i :: 0 <= i < buttons.Length ==> buttons[i] == Refreshed(old(buttons[i]), inputs, spaceEnabled)
      ensures TellsCarried(old(buttons[..]), buttons.Length, inputs.letters, used)
      ensures filling ==> ListsFills(old(buttons[..]), buttons.Length, fills)
    {
      ghost var was := buttons[..];
      used := Unused(inputs.letters);
      fills := [];
      assert TellsCarried(was, 0, inputs.letters, used);
      for i := 0 to buttons.Length
        invariant forall j :: 0 <= j < i ==> buttons[j] == Refreshed(was[j], inputs, spaceEnabled)
        invariant forall j :: i <= j < buttons.Length ==> buttons[j] == was[j]
        invariant TellsCarried(was, i, inputs.letters, used)
        invariant filling ==> ListsFills(was, i, fills)
      {
        TellsNext(was, i, inputs.letters, used);
        if filling {
          FillsNext(was, i, fills);
        }
        used, fills := RefreshOne(i, inputs, filling, used, fills);
      }
    }

    method Unused(letters: seq<nat>) returns (used: map<nat, bool>)
      ensures forall c :: c in used <==> c in letters
      ensures forall c :: c in used ==> !used[c]
    {
      used := map[];
      for p := 0 to |letters|
        invariant forall c :: c in used <==> c in letters[..p]
        invariant forall c :: c in used ==> !used[c]
      {
        used := used[letters[p] := false];
        assert letters[..p + 1] == letters[..p] + [letters[p]];
      }
    }

    method RefreshOne(i: nat, inputs: Inputs, filling: bool, u: map<nat, bool>, f: seq<nat>)
      returns (used: map<nat, bool>, fills: seq<nat>)
      requires i < buttons.Length && forall c :: c in u <==> c in inputs.letters
      modifies buttons
      ensures buttons[i] == Refreshed(old(buttons[i]), inputs, spaceEnabled)
      ensures forall j :: 0 <= j < buttons.Length && j != i ==> buttons[j] == old(buttons[j])
      ensures var b := old(buttons[i]);
              && used == (if !b.fill && b.character != 0 && b.character in u then u[b.character := true] else u)
              && fills == if b.fill && filling then f + [i] else f
    {
      used, fills := u, f;
      var b := buttons[i];
      if b.fill {
        b := Button(true, 0, false);
        if filling {
          fills := fills + [i];
        }
      } else if b.character != 0 {
        if b.character in used {
          used := used[b.character := true];
          b := b.(enabled := !inputs.invert && inputs.enabled);
        } else {
          b := b.(enabled := inputs.invert && inputs.enabled);
        }
      }
      if b.character == SPACE {
        b := b.(enabled := b.enabled && spaceEnabled);
      }
      buttons[i] := b;
    }

    /** Gives the letters that are not used yet to the fill buttons. */
    method GiveOut(inputs: Inputs, u: map<nat, bool>, fills: seq<nat>, ghost was: seq<Button>)
      requires Filling(inputs) && |was| == buttons.Length
      requires forall i :: 0 <= i < buttons.Length ==> buttons[i] == Refreshed(was[i], inputs, spaceEnabled)
      requires TellsCarried(was, |was|, inputs.letters, u) && ListsFills(was, |was|, fills)
      modifies buttons
      ensures buttons[..] == Allocated(was, inputs, spaceEnabled)
    {
      var used, nFill, letters := u, 0, inputs.letters;
      ghost var given := [];
      assert was[..|was|] == was;
      for p := 0 to |letters|
        invariant nFill == |given| && given == Wanted(was, letters[..p])
        invariant TellsGiven(was, letters, used, given)
        invariant GivenOut(buttons[..], was, inputs, spaceEnabled, fills, given)
      {
        GivingNext(was, letters, p, used, given);
        var c := letters[p];
        if !used[c] {
          if nFill == |fills| {
            WantedGrows(was, letters, p);
            GivenOutIsAllocated(buttons[..], was, inputs, spaceEnabled, fills, given);
            return;
          }
          GiveOne(buttons[..], was, inputs, spaceEnabled, fills, given, c);
          buttons[fills[nFill]] := Button(true, c, true);
          nFill, used, given := nFill + 1, used[c := true], given + [c];
        }
      }
      assert letters[..|letters|] == letters;
      GivenOutIsAllocated(buttons[..], was, inputs, spaceEnabled, fills, given);
    }

    method AllocateButtons(inputs: Inputs)
      requires Ok()
      modifies buttons
      ensures Ok() && buttons[..] == Allocated(old(buttons[..]), inputs, spaceEnabled)
    {
      ghost var was := buttons[..];
      var filling := useFill && !inputs.invert && inputs.enabled;
      var used, fills := RefreshButtons(inputs, filling);
      if filling {
        GiveOut(inputs, used, fills, was);
      }
      AllocationKeepsKeys(was, inputs, spaceEnabled);
      assert buttons[..] == Allocated(was, inputs, spaceEnabled);
      assert forall i :: 0 <= i < buttons.Length ==> buttons[..][i].fill == was[i].fill;
    }

    // ------------------------------------------------------------ the layouts

    /** The flag bVisible of one layout. */
    method LayoutVisible(k: nat, before: nat) returns (shown: bool)
      requires Geometry(first, buttons.Length) && 0 < k < |first|
      ensures shown == Shown(LayoutAt(buttons[..], first, k), before)
    {
      var charAvail, spaceAvail, from, n := false, false, first[k - 1], first[k] - first[k - 1];
      ghost var layout := LayoutAt(buttons[..], first, k);
      for j := 0 to n
        invariant charAvail <==> HasLetter(layout[..j])
        invariant spaceAvail <==> SpaceOn(layout[..j])
        invariant !LetterOn(layout[..j])
      {
        var b := buttons[from + j];
        OneMoreButton(layout, j);
        if b.character != 0 && b.character != SPACE {
          charAvail := true;
          if b.enabled {
            SomeButton(layout, j);
            return true;
          }
        } else if b.character == SPACE && b.enabled {
          spaceAvail := true;
        }
      }
      assert layout[..n] == layout;
      shown := before == 0 && charAvail && spaceAvail;
    }

    method ShowLayout(k: nat, before: nat, ghost layouts: seq<seq<Button>>) returns (shown: bool)
      requires Ok() && k < |visible| && layouts == AllLayouts(buttons[..], first)
      modifies this`visible
      ensures Ok() && shown == Shown(layouts[k], before) && visible == old(visible)[k := shown]
    {
      shown := LayoutVisible(k + 1, before);
      visible := visible[k := shown];
    }

    method ShowLayouts() returns (nVisible: nat)
      requires Ok()
      modifies this`visible
      ensures Ok() && visible == Visibles(AllLayouts(buttons[..], first)) && nVisible == Count(visible)
    {
      ghost var layouts := AllLayouts(buttons[..], first);
      nVisible := ShowEach(layouts);
      AllShown(layouts);
      assert visible[..|layouts|] == visible;
    }

    /** The outer loop over the layouts. */
    method ShowEach(ghost layouts: seq<seq<Button>>) returns (nVisible: nat)
      requires Ok() && layouts == AllLayouts(buttons[..], first)
      modifies this`visible
      ensures Ok() && visible[..|layouts|] == FirstShown(layouts, |layouts|)
      ensures nVisible == Count(FirstShown(layouts, |layouts|))
    {
      nVisible := 0;
      for k := 0 to |first| - 1
        invariant Ok() && layouts == AllLayouts(buttons[..], first)
        invariant visible[..k] == FirstShown(layouts, k) && nVisible == Count(FirstShown(layouts, k))
      {
        ShownNext(layouts, visible, k);
        var shown := ShowLayout(k, nVisible, layouts);
        if shown {
          nVisible := nVisible + 1;
        }
      }
    }

    method ShowAll()
      requires Ok()
      modifies this`visible, this`toggle
      ensures Ok() && visible == Visibles(AllLayouts(buttons[..], first))
      ensures toggle == if old(toggle).Some? then Some(Count(visible) > 1) else None
    {
      var nVisible := ShowLayouts();
      if toggle.Some? {
        if nVisible > 1 && !toggle.value {
          toggle := Some(true);
        } else if nVisible <= 1 && toggle.value {
          toggle := Some(false);
        }
      }
    }

    method UpdateEnabled(inputs: Inputs)
      requires Ok()
      modifies this, buttons
      ensures Ok() && View() == Update(old(View()), first, inputs)
    {
      ReloadAll(inputs);
      SettleCursor();
    }

    method ReloadAll(inputs: Inputs)
      requires Ok()
      modifies this`visible, this`toggle, this`enabled, buttons
      ensures Ok() && View() == Reload(old(View()), first, inputs)
    {
      enabled := inputs.enabled;
      AllocateButtons(inputs);
      assert View() == old(View()).(buttons := Allocated(old(buttons[..]), inputs, spaceEnabled),
                                    enabled := inputs.enabled);
      ShowAll();
    }

    method SettleCursor()
      requires Ok()
      modifies this
      ensures Ok() && View() == Settle(old(View()), first)
    {
      if !visible[nLayout - 1] && enabled {
        SwitchLayout();
      }
      if gotFocus {
        var found := RepositionCursor(if cursor.Some? then cursor.value else 1);
        if !found {
          FocusLost();
        }
      }
    }

    /** To the next visible layout, after the last one from the first on. */
    method SwitchLayout()
      requires Ok()
      modifies this`nLayout, this`pressed, this`cursor, this`gotFocus
      ensures Ok() && View() == Switch(old(View()), first)
    {
      nLayout := FindLayout();
      pressed := false;
      if gotFocus {
        cursor := None;
        FocusLost();
      }
    }

    method FindLayout() returns (n: nat)
      requires Ok()
      ensures n == NextVisible(visible, nLayout) && 0 < n < |first|
    {
      NextIsLayout(visible, nLayout);
      n := nLayout;
      var nNumLayouts := |first| - 1;
      for i := 1 to nNumLayouts + 1
        invariant 0 < n <= nNumLayouts
        invariant n == nLayout + i - 1 - if nLayout + i - 1 <= nNumLayouts then 0 else nNumLayouts
        invariant FirstFrom(visible, nLayout + 1)
                  == if nLayout + i - 1 <= nNumLayouts then FirstFrom(visible, n + 1) else 0
        invariant nLayout + i - 1 > nNumLayouts ==> FirstFrom(visible, 1) == FirstFrom(visible, n + 1)
      {
        if n >= nNumLayouts {
          n := 1;
        } else {
          n := n + 1;
        }
        if visible[n - 1] {
          break;
        }
      }
      if !visible[n - 1] {
        n := Limit(nLayout, 1, nNumLayouts);
      }
    }

    // ------------------------------------------------------------- the cursor

    /** Puts the cursor on the nearest enabled button around a position. */
    method RepositionCursor(d: int) returns (found: bool)
      requires Ok()
      modifies this`cursor
      ensures cursor == Probe(Layout(), enabled, d, 1) && found == cursor.Some?
    {
      cursor := None;
      cursor := NearestButton(d);
      found := cursor.Some?;
    }

    method NearestButton(d: int) returns (c: Option<nat>)
      requires Ok()
      ensures c == Probe(Layout(), enabled, d, 1)
    {
      ghost var layout := Layout();
      var n := first[nLayout] - first[nLayout - 1];
      for i := 1 to n + 1
        invariant Probe(layout, enabled, d, 1) == Probe(layout, enabled, d, i)
      {
        var nIndex := d - i + 1;
        if 0 < nIndex <= n && (ButtonOn(nIndex) || !enabled) {
          return Some(nIndex);
        }
        nIndex := d + i;
        if 0 < nIndex <= n && ButtonOn(nIndex) {
          return Some(nIndex);
        }
      }
      c := None;
    }

    function ButtonOn(c: int): (r: bool)
      requires Ok() && 0 < c <= first[nLayout] - first[nLayout - 1]
      reads this`visible, this`nLayout, buttons
      ensures r == IsOn(Layout(), c)
    {
      buttons[first[nLayout - 1] + c - 1].enabled
    }

    /** To the next enabled button in one direction. */
    method MoveCursor(up: bool)
      requires Ok() && cursor.Some?
      modifies this`cursor, this`gotFocus
      ensures View() == Move(old(View()), first, up)
    {
      var n := first[nLayout] - first[nLayout - 1];
      var c := NextButton(if up then cursor.value + 1 else cursor.value - 1, up);
      MoveIs(View(), first, up, c);
      if 0 < c <= n {
        cursor := Some(c);
      } else if c <= 0 {
        FocusLost();
        cursor := None;
      }
    }

    /** The loop of moveCursor: to an enabled button or out of the layout. */
    method NextButton(start: int, up: bool) returns (c: int)
      requires Ok()
      ensures c == Walk(Layout(), start, up)
    {
      ghost var layout := Layout();
      var n := first[nLayout] - first[nLayout - 1];
      c := start;
      while c > 0 && c <= n && !ButtonOn(c)
        invariant Walk(layout, c, up) == Walk(layout, start, up)
        decreases if up then n - c else c
      {
        c := if up then c + 1 else c - 1;
      }
    }

    method FocusGained()
      modifies this`gotFocus
      ensures gotFocus
    {
      if !gotFocus {
        gotFocus := true;
      }
    }

    method FocusLost()
      modifies this`gotFocus
      ensures !gotFocus
    {
      if gotFocus {
        gotFocus := false;
      }
    }

    method TakeFocus(d: int)
      requires Ok()
      modifies this`cursor, this`gotFocus
      ensures View() == FocusAt(old(View()), first, d)
    {
      if !gotFocus {
        var found := RepositionCursor(d);
        if found {
          FocusGained();
        }
      }
    }

    method PressButton(duration: Duration)
      modifies this`pressed
      ensures pressed == if duration.Press? then true else if duration.Release? then false else old(pressed)
    {
      if duration.Press? {
        pressed := true;
      } else if duration.Release? {
        pressed := false;
      }
    }

    // ------------------------------------------------------------ the messages

    method OnMessage(e: Event) returns (consumed: bool)
      requires Ok() && !e.DataUpdate?
      modifies this, buttons
      ensures Ok() && View() == React(old(View()), first, e)
      ensures consumed == !(e.SetFocus? || e.ViewChange? || e.Other?)
    {
      consumed := !(e.SetFocus? || e.ViewChange? || e.Other?);
      match e
      case Neg =>
        if cursor.Some? {
          MoveCursor(false);
        }
      case Pos =>
        if cursor.Some? {
          MoveCursor(true);
        }
      case SetFocus(fromWidget, position) =>
        if fromWidget {
          TakeFocus(StartOf(position, first[nLayout] - first[nLayout - 1]));
        }
      case ToggleLayout =>
        SwitchLayout();
      case Key(isPress, duration) =>
        if isPress {
          nPressed := cursor;
        }
        PressButton(duration);
      case ViewChange =>
        if pressed {
          pressed := false;
        }
      case EntryFieldEmpty(empty, inputs) =>
        spaceEnabled := !empty;
        UpdateEnabled(inputs);
      case Other =>
    }

    method OnDataUpdate(inputs: Inputs)
      requires Ok()
      modifies this, buttons
      ensures Ok() && View() == React(old(View()), first, DataUpdate(inputs))
    {
      UpdateEnabled(inputs);
    }
  }

  /** The three ways in which the walk of the cursor ends. */
  lemma MoveIs(s: State, first: seq<nat>, up: bool, c: int)
    requires Valid(s, first) && s.cursor.Some?
    requires c == Walk(Current(s, first), if up then s.cursor.value + 1 else s.cursor.value - 1, up)
    ensures Move(s, first, up) ==
            if 0 < c <= first[s.nLayout] - first[s.nLayout - 1] then s.(cursor := Some(c))
            else if c <= 0 then s.(cursor := None, gotFocus := false)
            else s
  {
  }

  function Limit(x: nat, low: nat, high: nat): nat {
    if x < low then low else if x > high then high else x
  }

  /** The visible flags of the first k layouts. */
  ghost function FirstShown(layouts: seq<seq<Button>>, k: nat): (v: seq<bool>)
    requires k <= |layouts|
    ensures |v| == k
  {
    if k == 0 then []
    else
      var v := FirstShown(layouts, k - 1);
      v + [Shown(layouts[k - 1], Count(v))]
  }

  lemma {:induction false} ShownNext(layouts: seq<seq<Button>>, visible: seq<bool>, k: nat)
    requires k < |layouts| == |visible| && visible[..k] == FirstShown(layouts, k)
    ensures var shown := Shown(layouts[k], Count(FirstShown(layouts, k)));
            && visible[k := shown][..k + 1] == FirstShown(layouts, k + 1)
            && Count(FirstShown(layouts, k + 1)) == Count(FirstShown(layouts, k)) + if shown then 1 else 0
  {
    var before := FirstShown(layouts, k);
    var shown := Shown(layouts[k], Count(before));
    assert (before + [shown])[..|before|] == before;
    assert visible[k := shown][..k + 1] == visible[..k] + [shown];
  }

  lemma {:induction false} ShownOfMore(layouts: seq<seq<Button>>, more: seq<seq<Button>>, k: nat)
    requires k <= |layouts|
    ensures FirstShown(layouts + more, k) == FirstShown(layouts, k)
  {
    if k > 0 {
      ShownOfMore(layouts, more, k - 1);
    }
  }

  lemma {:induction false} AllShown(layouts: seq<seq<Button>>)
    ensures FirstShown(layouts, |layouts|) == Visibles(layouts)
  {
    if layouts != [] {
      var rest := layouts[..|layouts| - 1];
      AllShown(rest);
      assert layouts == rest + [layouts[|layouts| - 1]];
      ShownOfMore(rest, [layouts[|layouts| - 1]], |rest|);
    }
  }

  lemma {:induction false} OneMoreButton(layout: seq<Button>, j: nat)
    requires j < |layout|
    ensures HasLetter(layout[..j + 1]) <==> HasLetter(layout[..j]) || IsLetter(layout[j])
    ensures SpaceOn(layout[..j + 1]) <==> SpaceOn(layout[..j]) || (layout[j].character == SPACE && layout[j].enabled)
    ensures LetterOn(layout[..j + 1]) <==> LetterOn(layout[..j]) || (IsLetter(layout[j]) && layout[j].enabled)
  {
    assert layout[..j + 1] == layout[..j] + [layout[j]];
    assert forall i :: 0 <= i < j ==> layout[..j + 1][i] == layout[..j][i];
    assert layout[..j + 1][j] == layout[j];
  }

  lemma SomeButton(layout: seq<Button>, j: nat)
    requires j < |layout| && IsLetter(layout[j]) && layout[j].enabled
    ensures LetterOn(layout)
  {
  }
}

/** lua/Keyboard.lua: the buttons of a speller, which of them are enabled, and how requested
    letters that no fixed button carries are given to the fill buttons. */
module FillButtons {

  const SPACE: nat := 32

  /** One button of a layout; a fill button carries a letter only while one is given to it. */
  datatype Button = Button(fill: bool, character: nat, enabled: bool)

  /** The properties GetLetterFunction, InvertGetLetterFunction and Enabled. */
  datatype Inputs = Inputs(letters: seq<nat>, invert: bool, enabled: bool)

  /** A button before letters are given to the fill buttons. */
  function Refreshed(b: Button, inputs: Inputs, space: bool): Button {
    if b.fill then Button(true, 0, false)
    else if b.character == 0 then b
    else b.(enabled := && inputs.enabled && ((b.character in inputs.letters) != inputs.invert)
                       && (b.character == SPACE ==> space))
  }

  /** Some fixed button carries the letter. */
  ghost predicate Carried(buttons: seq<Button>, c: nat) {
    exists i :: 0 <= i < |buttons| && CarriedAt(buttons[i], c)
  }

  predicate CarriedAt(b: Button, c: nat) {
    !b.fill && b.character == c && c != 0
  }

  /** The requested letters that no fixed button carries, once each. */
  ghost function Wanted(buttons: seq<Button>, letters: seq<nat>): seq<nat> {
    if letters == [] then []
    else
      var rest, c := Wanted(buttons, letters[..|letters| - 1]), letters[|letters| - 1];
      if Carried(buttons, c) || c in rest then rest else rest + [c]
  }

  /** The number of fill buttons before button i, in the order of layouts and buttons. */
  function FillsBefore(buttons: seq<Button>, i: nat): nat
    requires i <= |buttons|
  {
    if i == 0 then 0 else FillsBefore(buttons, i - 1) + if buttons[i - 1].fill then 1 else 0
  }

  /** Letters are given to fill buttons only then. */
  predicate Filling(inputs: Inputs) {
    !inputs.invert && inputs.enabled
  }

  ghost function AllocatedAt(buttons: seq<Button>, inputs: Inputs, space: bool, i: nat): Button
    requires i < |buttons|
  {
    var k := FillsBefore(buttons, i);
    if buttons[i].fill && Filling(inputs) && k < |Wanted(buttons, inputs.letters)|
    then Button(true, Wanted(buttons, inputs.letters)[k], true)
    else Refreshed(buttons[i], inputs, space)
  }

  /** All buttons after the letters are given out. */
  ghost function Allocated(buttons: seq<Button>, inputs: Inputs, space: bool): (r: seq<Button>)
    ensures |r| == |buttons|
    ensures forall i :: 0 <= i < |buttons| ==> r[i] == AllocatedAt(buttons, inputs, space, i)
  {
    seq(|buttons|, i requires 0 <= i < |buttons| => AllocatedAt(buttons, inputs, space, i))
  }

  // -------------------------------------------------------- the letters wanted

  /** Where a letter is requested first. */
  function FirstAt(letters: seq<nat>, c: nat): (p: nat)
    requires c in letters
    ensures p < |letters| && letters[p] == c && c !in letters[..p]
  {
    var rest := letters[..|letters| - 1];
    if c in rest then
      var p := FirstAt(rest, c);
      assert rest[..p] == letters[..p];
      p
    else |letters| - 1
  }

  /** Exactly the requested letters that no fixed button carries are wanted. */
  lemma {:induction false} WantedExactly(buttons: seq<Button>, letters: seq<nat>, c: nat)
    ensures c in Wanted(buttons, letters) <==> c in letters && !Carried(buttons, c)
  {
    if letters != [] {
      WantedExactly(buttons, letters[..|letters| - 1], c);
      assert letters == letters[..|letters| - 1] + [letters[|letters| - 1]];
    }
  }

  /** They are wanted in the order in which they are first requested, and so once each. */
  lemma {:induction false} WantedInOrder(buttons: seq<Button>, letters: seq<nat>, k: nat, l: nat)
    requires k < l < |Wanted(buttons, letters)|
    ensures Wanted(buttons, letters)[k] in letters && Wanted(buttons, letters)[l] in letters
    ensures FirstAt(letters, Wanted(buttons, letters)[k]) < FirstAt(letters, Wanted(buttons, letters)[l])
  {
    var w, rest := Wanted(buttons, letters), letters[..|letters| - 1];
    WantedExactly(buttons, letters, w[k]);
    WantedExactly(buttons, letters, w[l]);
    WantedExactly(buttons, rest, w[k]);
    WantedExactly(buttons, rest, w[l]);
    if l < |Wanted(buttons, rest)| {
      WantedInOrder(buttons, rest, k, l);
    }
  }

  // --------------------------------------------------------- the fill buttons

  lemma {:induction false} FillsGrow(buttons: seq<Button>, i: nat, j: nat)
    requires i <= j <= |buttons|
    ensures FillsBefore(buttons, i) <= FillsBefore(buttons, j)
    ensures i < j && buttons[i].fill ==> FillsBefore(buttons, i) < FillsBefore(buttons, j)
    decreases j
  {
    if i < j {
      FillsGrow(buttons, i, j - 1);
    }
  }

  /** The fill button with so many fill buttons before it. */
  lemma {:induction false} FindFill(buttons: seq<Button>, n: nat, k: nat) returns (i: nat)
    requires n <= |buttons| && k < FillsBefore(buttons, n)
    ensures i < n && buttons[i].fill && FillsBefore(buttons, i) == k
  {
    if buttons[n - 1].fill && FillsBefore(buttons, n - 1) == k {
      i := n - 1;
    } else {
      i := FindFill(buttons, n - 1, k);
    }
  }

  /** While filling, the wanted letters go to the fill buttons in order, one each, up to the
      smaller of the two numbers; the fill buttons left over are blank and disabled. */
  lemma {:induction false} FillAllocation(buttons: seq<Button>, inputs: Inputs, space: bool, k: nat) returns (i: nat)
    requires Filling(inputs) && k < FillsBefore(buttons, |buttons|)
    ensures i < |buttons| && buttons[i].fill && FillsBefore(buttons, i) == k
    ensures var w := Wanted(buttons, inputs.letters);
            Allocated(buttons, inputs, space)[i] == if k < |w| then Button(true, w[k], true) else Button(true, 0, false)
  {
    i := FindFill(buttons, |buttons|, k);
  }

  /** No two fill buttons get the same letter, and none gets a letter that a fixed button has. */
  lemma {:induction false} NoLetterTwice(buttons: seq<Button>, inputs: Inputs, space: bool, i: nat, j: nat)
    requires i < j < |buttons|
    ensures var after := Allocated(buttons, inputs, space);
            after[i].character == after[j].character && after[i].character != 0 ==> !buttons[i].fill && !buttons[j].fill
  {
    var w, after := Wanted(buttons, inputs.letters), Allocated(buttons, inputs, space);
    if after[i].character == after[j].character && after[i].character != 0 {
      if buttons[i].fill && buttons[j].fill {
        FillsGrow(buttons, i, j);
        WantedInOrder(buttons, inputs.letters, FillsBefore(buttons, i), FillsBefore(buttons, j));
      } else if buttons[i].fill || buttons[j].fill {
        assert CarriedAt(buttons[if buttons[i].fill then j else i], after[i].character);
        WantedExactly(buttons, inputs.letters, after[i].character);
      }
    }
  }

  /** Some enabled button carries the letter. */
  ghost predicate Offered(buttons: seq<Button>, c: nat) {
    exists i :: 0 <= i < |buttons| && buttons[i].character == c && buttons[i].enabled
  }

  /** With enough fill buttons the speller offers exactly the requested letters. */
  lemma {:induction false} OffersExactlyTheRequest(buttons: seq<Button>, inputs: Inputs, space: bool, c: nat)
    requires Filling(inputs) && |Wanted(buttons, inputs.letters)| <= FillsBefore(buttons, |buttons|)
    requires c != 0 && c != SPACE
    ensures Offered(Allocated(buttons, inputs, space), c) <==> c in inputs.letters
  {
    var w, after := Wanted(buttons, inputs.letters), Allocated(buttons, inputs, space);
    WantedExactly(buttons, inputs.letters, c);
    if Offered(after, c) {
      var i :| 0 <= i < |after| && after[i].character == c && after[i].enabled;
      assert after[i] == AllocatedAt(buttons, inputs, space, i);
    }
    if c in inputs.letters && Carried(buttons, c) {
      var i :| 0 <= i < |buttons| && CarriedAt(buttons[i], c);
      assert after[i].character == c && after[i].enabled;
    } else if c in inputs.letters {
      var k :| 0 <= k < |w| && w[k] == c;
      var i := FillAllocation(buttons, inputs, space, k);
      assert after[i].character == c && after[i].enabled;
    }
  }

  /** Whatever is offered while filling, on however few fill buttons, was requested. */
  lemma {:induction false} OfferedWasRequested(buttons: seq<Button>, inputs: Inputs, space: bool, i: nat)
    requires Filling(inputs) && i < |buttons|
    requires var b := Allocated(buttons, inputs, space)[i]; b.enabled && b.character != 0
    ensures Allocated(buttons, inputs, space)[i].character in inputs.letters
  {
    WantedExactly(buttons, inputs.letters, Allocated(buttons, inputs, space)[i].character);
  }

  /** A fixed space button is enabled exactly if the speller is, the space is on offer as any letter
      would be, and the entry field is not empty (space). */
  lemma {:induction false} SpaceOfferedIff(buttons: seq<Button>, inputs: Inputs, space: bool, i: nat)
    requires i < |buttons| && !buttons[i].fill && buttons[i].character == SPACE
    ensures var b := Allocated(buttons, inputs, space)[i];
            && !b.fill && b.character == SPACE
            && (b.enabled <==> inputs.enabled && space && (SPACE in inputs.letters) != inputs.invert)
  {
  }

  /** While the entry field is empty a space button is enabled exactly if it is a fill button that the
      space has been given to. */
  lemma {:induction false} SpaceOnEmptyFieldIff(buttons: seq<Button>, inputs: Inputs, i: nat)
    requires i < |buttons|
    ensures var w, k := Wanted(buttons, inputs.letters), FillsBefore(buttons, i);
            var b := Allocated(buttons, inputs, false)[i];
            b.character == SPACE && b.enabled <==> buttons[i].fill && Filling(inputs) && k < |w| && w[k] == SPACE
  {
  }

  /** Inverted, it offers exactly the letters of fixed buttons that are not requested. */
  lemma {:induction false} InvertedOffersTheRest(buttons: seq<Button>, inputs: Inputs, space: bool, c: nat)
    requires inputs.invert && inputs.enabled && c != 0 && c != SPACE
    ensures Offered(Allocated(buttons, inputs, space), c) <==> Carried(buttons, c) && c !in inputs.letters
  {
    var after := Allocated(buttons, inputs, space);
    if Offered(after, c) {
      var i :| 0 <= i < |after| && after[i].character == c && after[i].enabled;
      assert after[i] == AllocatedAt(buttons, inputs, space, i);
      assert CarriedAt(buttons[i], c);
    }
    if Carried(buttons, c) && c !in inputs.letters {
      var i :| 0 <= i < |buttons| && CarriedAt(buttons[i], c);
      assert after[i].character == c && after[i].enabled;
    }
  }

  // ------------------------------------------------------------ the letter code 0

  /** The letters wanted so far come first among all that are wanted. */
  lemma {:induction false} WantedGrows(buttons: seq<Button>, letters: seq<nat>, p: nat)
    requires p <= |letters|
    ensures Wanted(buttons, letters[..p]) <= Wanted(buttons, letters)
    decreases |letters|
  {
    if p < |letters| {
      WantedGrows(buttons, letters[..|letters| - 1], p);
      assert letters[..|letters| - 1][..p] == letters[..p];
    } else {
      assert letters[..p] == letters;
    }
  }

  /** 0, the code of a blank button, is among the letters to give out exactly if it is requested. */
  lemma {:induction false} OnlyLettersWantedIff(buttons: seq<Button>, letters: seq<nat>)
    ensures (forall k :: 0 <= k < |Wanted(buttons, letters)| ==> Wanted(buttons, letters)[k] != 0) <==> 0 !in letters
  {
    WantedExactly(buttons, letters, 0);
  }

  /** How many letters are to be given out before the code 0. */
  ghost function BeforeZero(buttons: seq<Button>, letters: seq<nat>): nat
    requires 0 in letters
  {
    |Wanted(buttons, letters[..FirstAt(letters, 0)])|
  }

  /** 0 has its place among the letters to give out. */
  lemma {:induction false} ZeroIsWantedAt(buttons: seq<Button>, letters: seq<nat>)
    requires 0 in letters
    ensures BeforeZero(buttons, letters) < |Wanted(buttons, letters)|
    ensures Wanted(buttons, letters)[BeforeZero(buttons, letters)] == 0
  {
    var rest := letters[..|letters| - 1];
    if 0 in rest {
      ZeroIsWantedAt(buttons, rest);
      assert rest[..FirstAt(rest, 0)] == letters[..FirstAt(letters, 0)];
    } else {
      WantedExactly(buttons, rest, 0);
    }
  }

  /** 0 is requested while letters are given out, and the fill buttons do not run out before it. */
  ghost predicate ZeroComesUp(buttons: seq<Button>, inputs: Inputs) {
    && Filling(inputs) && 0 in inputs.letters
    && BeforeZero(buttons, inputs.letters) < FillsBefore(buttons, |buttons|)
  }

  /** Button i is a fill button that 0 is given to: enabled, but blank. */
  ghost predicate TakesZero(buttons: seq<Button>, inputs: Inputs, space: bool, i: nat)
    requires i < |buttons|
  {
    buttons[i].fill && Allocated(buttons, inputs, space)[i] == Button(true, 0, true)
  }

  /** A fill button is given to the code 0 exactly then. */
  lemma {:induction false} ZeroTakesAButtonIff(buttons: seq<Button>, inputs: Inputs, space: bool)
    ensures (exists i :: 0 <= i < |buttons| && TakesZero(buttons, inputs, space, i)) <==> ZeroComesUp(buttons, inputs)
  {
    if ZeroComesUp(buttons, inputs) {
      var k := BeforeZero(buttons, inputs.letters);
      ZeroIsWantedAt(buttons, inputs.letters);
      var i := FillAllocation(buttons, inputs, space, k);
      assert TakesZero(buttons, inputs, space, i);
    }
    if i :| 0 <= i < |buttons| && TakesZero(buttons, inputs, space, i) {
      ZeroAtItsPlace(buttons, inputs, space, i);
      FillsGrow(buttons, i, |buttons|);
    }
  }

  lemma {:induction false} ZeroAtItsPlace(buttons: seq<Button>, inputs: Inputs, space: bool, i: nat)
    requires i < |buttons| && TakesZero(buttons, inputs, space, i)
    ensures Filling(inputs) && 0 in inputs.letters
    ensures FillsBefore(buttons, i) == BeforeZero(buttons, inputs.letters)
  {
    var w, k := Wanted(buttons, inputs.letters), FillsBefore(buttons, i);
    assert Filling(inputs) && k < |w| && w[k] == 0;
    WantedExactly(buttons, inputs.letters, 0);
    ZeroIsWantedAt(buttons, inputs.letters);
    var p := BeforeZero(buttons, inputs.letters);
    if k != p {
      WantedInOrder(buttons, inputs.letters, if k < p then k else p, if k < p then p else k);
    }
  }

  /** The requested letters without the code 0. */
  function Proper(letters: seq<nat>): (r: seq<nat>)
    ensures 0 !in r && forall c :: c != 0 ==> (c in r <==> c in letters)
  {
    if letters == [] then []
    else
      var rest, c := Proper(letters[..|letters| - 1]), letters[|letters| - 1];
      assert letters == letters[..|letters| - 1] + [c];
      if c == 0 then rest else rest + [c]
  }

  /** Up to the first 0 the request has no other letters than it would have without. */
  lemma {:induction false} ProperUpToZero(letters: seq<nat>)
    ensures 0 !in letters ==> Proper(letters) == letters
    ensures 0 in letters ==> letters[..FirstAt(letters, 0)] <= Proper(letters)
  {
    if letters != [] {
      var rest, c := letters[..|letters| - 1], letters[|letters| - 1];
      ProperUpToZero(rest);
      assert letters == rest + [c];
      if 0 in rest {
        assert rest[..FirstAt(rest, 0)] == letters[..FirstAt(letters, 0)];
      }
    }
  }

  /** Nor has it other letters to give out before the 0. */
  lemma {:induction false} WantedUpToZero(buttons: seq<Button>, letters: seq<nat>)
    requires 0 in letters
    ensures var before := Wanted(buttons, letters[..FirstAt(letters, 0)]);
            before <= Wanted(buttons, letters) && before <= Wanted(buttons, Proper(letters))
  {
    var p, proper := FirstAt(letters, 0), Proper(letters);
    ProperUpToZero(letters);
    WantedGrows(buttons, letters, p);
    WantedGrows(buttons, proper, p);
    assert proper[..p] == letters[..p];
  }

  /** The buttons are what they would be if only letters had been requested, exactly unless the
      code 0 comes up. */
  lemma {:induction false} OnlyLettersGivenIff(buttons: seq<Button>, inputs: Inputs, space: bool)
    ensures Allocated(buttons, inputs, space) == Allocated(buttons, inputs.(letters := Proper(inputs.letters)), space)
            <==> !ZeroComesUp(buttons, inputs)
  {
    var proper := inputs.(letters := Proper(inputs.letters));
    ZeroTakesAButtonIff(buttons, inputs, space);
    ZeroTakesAButtonIff(buttons, proper, space);
    if ZeroComesUp(buttons, inputs) {
      var i :| 0 <= i < |buttons| && TakesZero(buttons, inputs, space, i);
      assert !TakesZero(buttons, proper, space, i);
    } else {
      forall i | 0 <= i < |buttons|
        ensures AllocatedAt(buttons, inputs, space, i) == AllocatedAt(buttons, proper, space, i)
      {
        SameWithoutZero(buttons, inputs, space, i);
      }
    }
  }

  lemma {:induction false} SameWithoutZero(buttons: seq<Button>, inputs: Inputs, space: bool, i: nat)
    requires i < |buttons| && !ZeroComesUp(buttons, inputs)
    ensures AllocatedAt(buttons, inputs, space, i)
            == AllocatedAt(buttons, inputs.(letters := Proper(inputs.letters)), space, i)
  {
    ProperUpToZero(inputs.letters);
    if buttons[i].fill && 0 in inputs.letters {
      WantedUpToZero(buttons, inputs.letters);
      FillsGrow(buttons, i, |buttons|);
    }
  }

  /** So with [0, 'A'] requested and one fill button, that one stays blank and there is no A. */
  lemma {:induction false} ZeroTakesAButton()
    ensures var buttons, inputs := [Button(true, 0, false)], Inputs([0, 65], false, true);
            Allocated(buttons, inputs, true) == [Button(true, 0, true)] && 65 in Wanted(buttons, inputs.letters)
  {
    var buttons, letters := [Button(true, 0, false)], [0, 65];
    WantedExactly(buttons, letters, 65);
    assert FirstAt(letters, 0) == 0 && letters[..0] == [];
    ZeroIsWantedAt(buttons, letters);
  }

  // -------------------------------------------------------------- repetition

  /** The fill flags and the letters of the fixed buttons are what they were. */
  ghost predicate SameKeys(a: seq<Button>, b: seq<Button>) {
    && |a| == |b|
    && forall i :: 0 <= i < |a| ==> a[i].fill == b[i].fill && (a[i].fill || a[i].character == b[i].character)
  }

  lemma {:induction false} SameFills(a: seq<Button>, b: seq<Button>, i: nat)
    requires SameKeys(a, b) && i <= |a|
    ensures FillsBefore(a, i) == FillsBefore(b, i)
  {
    if i > 0 {
      SameFills(a, b, i - 1);
    }
  }

  lemma {:induction false} SameCarried(a: seq<Button>, b: seq<Button>, c: nat)
    requires SameKeys(a, b) && Carried(a, c)
    ensures Carried(b, c)
  {
    var i :| 0 <= i < |a| && CarriedAt(a[i], c);
    assert CarriedAt(b[i], c);
  }

  lemma {:induction false} SameWanted(a: seq<Button>, b: seq<Button>, letters: seq<nat>)
    requires SameKeys(a, b)
    ensures Wanted(a, letters) == Wanted(b, letters)
  {
    if letters != [] {
      var c := letters[|letters| - 1];
      SameWanted(a, b, letters[..|letters| - 1]);
      if Carried(a, c) {
        SameCarried(a, b, c);
      } else if Carried(b, c) {
        SameCarried(b, a, c);
      }
    }
  }

  lemma AllocationKeepsKeys(buttons: seq<Button>, inputs: Inputs, space: bool)
    ensures SameKeys(buttons, Allocated(buttons, inputs, space))
  {
  }

  /** Only the letters of fixed buttons count: what was given to fill buttons before does not
      matter, and giving out the same letters again changes no button. */
  lemma {:induction false} AllocationForgets(a: seq<Button>, b: seq<Button>, inputs: Inputs, space: bool)
    requires SameKeys(a, b)
    requires forall i :: 0 <= i < |a| && !a[i].fill && a[i].character == 0 ==> a[i] == b[i]
    ensures Allocated(a, inputs, space) == Allocated(b, inputs, space)
  {
    SameWanted(a, b, inputs.letters);
    forall i | 0 <= i < |a| ensures AllocatedAt(a, inputs, space, i) == AllocatedAt(b, inputs, space, i) {
      SameFills(a, b, i);
    }
  }

  lemma {:induction false} AllocationRepeats(buttons: seq<Button>, inputs: Inputs, space: bool)
    ensures Allocated(Allocated(buttons, inputs, space), inputs, space) == Allocated(buttons, inputs, space)
  {
    AllocationKeepsKeys(buttons, inputs, space);
    AllocationForgets(buttons, Allocated(buttons, inputs, space), inputs, space);
  }
}

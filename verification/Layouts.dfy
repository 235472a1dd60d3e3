/** lua/Keyboard.lua: which layouts of a speller are visible, the search for the next visible
    layout, and the search for the enabled button nearest to a position. */
module Layouts {
  import opened FillButtons

  datatype Option<T> = None | Some(value: T)

  // ---------------------------------------------------------- visible layouts

  predicate IsLetter(b: Button) {
    b.character != 0 && b.character != SPACE
  }

  predicate LetterOn(layout: seq<Button>) {
    exists i :: 0 <= i < |layout| && IsLetter(layout[i]) && layout[i].enabled
  }

  predicate HasLetter(layout: seq<Button>) {
    exists i :: 0 <= i < |layout| && IsLetter(layout[i])
  }

  predicate SpaceOn(layout: seq<Button>) {
    exists i :: 0 <= i < |layout| && layout[i].character == SPACE && layout[i].enabled
  }

  /** A layout is visible for an enabled letter; for the space alone only as the first one. */
  function Shown(layout: seq<Button>, before: nat): bool {
    LetterOn(layout) || (before == 0 && HasLetter(layout) && SpaceOn(layout))
  }

  /** The visible flags of the layouts, in order. */
  function Visibles(layouts: seq<seq<Button>>): (v: seq<bool>)
    ensures |v| == |layouts|
  {
    if layouts == [] then []
    else
      var v := Visibles(layouts[..|layouts| - 1]);
      v + [Shown(layouts[|layouts| - 1], Count(v))]
  }

  function Count(visible: seq<bool>): nat {
    if visible == [] then 0
    else Count(visible[..|visible| - 1]) + if visible[|visible| - 1] then 1 else 0
  }

  lemma {:induction false} CountZero(visible: seq<bool>)
    ensures Count(visible) == 0 <==> forall i :: 0 <= i < |visible| ==> !visible[i]
  {
    if visible != [] {
      CountZero(visible[..|visible| - 1]);
    }
  }

  /** A layout is visible exactly if it has an enabled letter, or letters and an enabled space
      while no layout before it is visible. */
  lemma {:induction false} VisibleIff(layouts: seq<seq<Button>>, k: nat)
    requires k < |layouts|
    ensures Visibles(layouts)[k] <==>
            || (exists b :: b in layouts[k] && b.character !in {0, 32} && b.enabled)
            || (&& (exists b :: b in layouts[k] && b.character !in {0, 32})
                && (exists b :: b in layouts[k] && b.character == 32 && b.enabled)
                && forall i :: 0 <= i < k ==> !Visibles(layouts)[i])
  {
    var rest := layouts[..|layouts| - 1];
    assert forall i :: 0 <= i < |rest| ==> Visibles(layouts)[i] == Visibles(rest)[i];
    if k < |layouts| - 1 {
      VisibleIff(rest, k);
    } else {
      CountZero(Visibles(rest));
    }
  }

  /** Some layout is visible exactly if there is an enabled letter somewhere, or a layout with
      letters and an enabled space. */
  lemma {:induction false} SomeVisibleIff(layouts: seq<seq<Button>>)
    ensures Count(Visibles(layouts)) > 0 <==>
            exists k :: 0 <= k < |layouts| && (LetterOn(layouts[k]) || (HasLetter(layouts[k]) && SpaceOn(layouts[k])))
  {
    if layouts != [] {
      var rest := layouts[..|layouts| - 1];
      SomeVisibleIff(rest);
      assert Visibles(layouts)[..|layouts| - 1] == Visibles(rest);
    }
  }

  // ---------------------------------------------- the next visible layout

  /** Layout n is visible. Layouts count from 1. */
  predicate IsVisible(visible: seq<bool>, n: nat) {
    0 < n <= |visible| && visible[n - 1]
  }

  /** The first visible layout from number n on, or 0. */
  function FirstFrom(visible: seq<bool>, n: nat): nat
    requires n > 0
    decreases |visible| + 1 - n
  {
    if n > |visible| then 0 else if visible[n - 1] then n else FirstFrom(visible, n + 1)
  }

  /** Where the cyclic search from layout n ends: at the next visible layout after it, else at
      the first visible one, else where it was. */
  function NextVisible(visible: seq<bool>, n: nat): (r: nat)
    requires 0 < n
  {
    var later, first := FirstFrom(visible, n + 1), FirstFrom(visible, 1);
    if later != 0 then later else if first != 0 then first else n
  }

  lemma {:induction false} FirstFromIs(visible: seq<bool>, n: nat)
    requires n > 0
    ensures var r := FirstFrom(visible, n);
            if r == 0 then forall i :: n <= i ==> !IsVisible(visible, i)
            else n <= r && IsVisible(visible, r) && forall i :: n <= i < r ==> !IsVisible(visible, i)
    decreases |visible| + 1 - n
  {
    if n <= |visible| && !visible[n - 1] {
      FirstFromIs(visible, n + 1);
    }
  }

  /** The next layout is a layout, and visible unless none is. */
  lemma {:induction false} NextIsLayout(visible: seq<bool>, n: nat)
    requires 0 < n <= |visible|
    ensures 0 < NextVisible(visible, n) <= |visible|
    ensures IsVisible(visible, NextVisible(visible, n))
            || (NextVisible(visible, n) == n && forall i :: !IsVisible(visible, i))
  {
    FirstFromIs(visible, n + 1);
    FirstFromIs(visible, 1);
  }

  /** Steps from layout n to layout m, at least one, around n layouts in all. */
  function StepsTo(n: nat, m: nat, all: nat): int {
    if m > n then m - n else m + all - n
  }

  /** From any layout, visible or not, the search ends at the first visible one that comes around. */
  lemma {:induction false} NextComesFirst(visible: seq<bool>, n: nat, m: nat)
    requires 0 < n <= |visible| && IsVisible(visible, m)
    ensures var r := NextVisible(visible, n);
            IsVisible(visible, r) && StepsTo(n, r, |visible|) <= StepsTo(n, m, |visible|)
  {
    FirstFromIs(visible, n + 1);
    FirstFromIs(visible, 1);
  }

  /** The numbers of the visible layouts, ascending. */
  ghost function VisibleList(visible: seq<bool>): seq<nat> {
    if visible == [] then []
    else VisibleList(visible[..|visible| - 1]) + if visible[|visible| - 1] then [|visible|] else []
  }

  lemma {:induction false} VisibleListIs(visible: seq<bool>)
    ensures |VisibleList(visible)| == Count(visible)
    ensures forall k :: 0 <= k < |VisibleList(visible)| ==>
              IsVisible(visible, VisibleList(visible)[k])
    ensures forall k, l :: 0 <= k < l < |VisibleList(visible)| ==> VisibleList(visible)[k] < VisibleList(visible)[l]
    ensures forall n :: IsVisible(visible, n) ==> n in VisibleList(visible)
  {
    if visible != [] {
      VisibleListIs(visible[..|visible| - 1]);
    }
  }

  /** From one visible layout the search goes to the next in the list, and from the last to the
      first. */
  lemma {:induction false} NextInList(visible: seq<bool>, k: nat)
    requires k < |VisibleList(visible)|
    ensures var list := VisibleList(visible);
            list[k] > 0 && NextVisible(visible, list[k]) == if k + 1 < |list| then list[k + 1] else list[0]
  {
    var list := VisibleList(visible);
    VisibleListIs(visible);
    FirstFromIs(visible, list[k] + 1);
    FirstFromIs(visible, 1);
    var later, first := FirstFrom(visible, list[k] + 1), FirstFrom(visible, 1);
    if k + 1 < |list| {
      assert IsVisible(visible, list[k + 1]);
      var l :| 0 <= l < |list| && list[l] == later;
      assert l >= k + 1;
    } else {
      assert later != 0 ==> later in list;
      assert IsVisible(visible, list[0]) && first in list;
    }
  }

  /** So many switches of the layout. */
  function Switched(visible: seq<bool>, n: nat, times: nat): (r: nat)
    requires n > 0
    ensures r > 0
  {
    if times == 0 then n else NextVisible(visible, Switched(visible, n, times - 1))
  }

  lemma {:induction false} SwitchesInList(visible: seq<bool>, k: nat, times: nat)
    requires k < |VisibleList(visible)| && times <= |VisibleList(visible)|
    ensures var list := VisibleList(visible);
            && list[k] > 0
            && Switched(visible, list[k], times) == list[if k + times < |list| then k + times else k + times - |list|]
  {
    VisibleListIs(visible);
    if times > 0 {
      SwitchesInList(visible, k, times - 1);
      var at := k + times - 1;
      NextInList(visible, if at < |VisibleList(visible)| then at else at - |VisibleList(visible)|);
    }
  }

  lemma {:induction false} PlaceInList(visible: seq<bool>, n: nat) returns (k: nat)
    requires IsVisible(visible, n)
    ensures k < |VisibleList(visible)| == Count(visible) && VisibleList(visible)[k] == n
  {
    VisibleListIs(visible);
    k :| 0 <= k < |VisibleList(visible)| && VisibleList(visible)[k] == n;
  }

  lemma {:induction false} SwitchesDiffer(visible: seq<bool>, k: nat, i: nat, j: nat)
    requires k < |VisibleList(visible)| && 0 < i < j <= |VisibleList(visible)| && VisibleList(visible)[k] > 0
    ensures Switched(visible, VisibleList(visible)[k], i) != Switched(visible, VisibleList(visible)[k], j)
  {
    VisibleListIs(visible);
    SwitchesInList(visible, k, i);
    SwitchesInList(visible, k, j);
  }

  /** From a visible layout, as many switches as there are visible layouts visit each of them
      exactly once and end where they began. */
  lemma {:induction false} SwitchesVisitAll(visible: seq<bool>, n: nat, m: nat) returns (times: nat)
    requires IsVisible(visible, n) && IsVisible(visible, m)
    ensures 0 < times <= Count(visible) && Switched(visible, n, times) == m
    ensures forall j :: 0 < j <= Count(visible) && Switched(visible, n, j) == m ==> j == times
    ensures Switched(visible, n, Count(visible)) == n
  {
    var k := PlaceInList(visible, n);
    var l := PlaceInList(visible, m);
    times := if l > k then l - k else l - k + Count(visible);
    SwitchesInList(visible, k, times);
    SwitchesInList(visible, k, Count(visible));
    forall j | 0 < j <= Count(visible) && j != times ensures Switched(visible, n, j) != m {
      SwitchesDiffer(visible, k, if j < times then j else times, if j < times then times else j);
    }
  }

  // ------------------------------------------------- the nearest enabled button

  /** Button c of the layout is enabled. Buttons count from 1. */
  predicate IsOn(layout: seq<Button>, c: int) {
    0 < c <= |layout| && layout[c - 1].enabled
  }

  /** Downwards any button will do while the speller is disabled. */
  predicate Takes(layout: seq<Button>, enabled: bool, d: int, c: int) {
    IsOn(layout, c) || (!enabled && 0 < c <= |layout| && c <= d)
  }

  /** Tries d, d + 1, d - 1, d + 2, ... from the i-th pair on. */
  function Probe(layout: seq<Button>, enabled: bool, d: int, i: nat): (r: Option<nat>)
    requires i > 0
    decreases |layout| - i
  {
    if i > |layout| then None
    else if Takes(layout, enabled, d, d - i + 1) then Some(d - i + 1)
    else if IsOn(layout, d + i) then Some(d + i)
    else Probe(layout, enabled, d, i + 1)
  }

  /** When a button is tried, counting from 0. */
  function Turn(d: int, c: int): nat {
    if c <= d then 2 * (d - c) else 2 * (c - d) - 1
  }

  /** The search finds the first button that will do, in the order of the turns. */
  lemma {:induction false} ProbeIs(layout: seq<Button>, enabled: bool, d: int, i: nat)
    requires i > 0
    ensures var r := Probe(layout, enabled, d, i);
            if r.None? then forall c :: 2 * i - 2 <= Turn(d, c) < 2 * |layout| ==> !Takes(layout, enabled, d, c)
            else 2 * i - 2 <= Turn(d, r.value) < 2 * |layout| && Takes(layout, enabled, d, r.value)
                 && forall c :: 2 * i - 2 <= Turn(d, c) < Turn(d, r.value) ==> !Takes(layout, enabled, d, c)
    decreases |layout| - i
  {
    if i <= |layout| && !Takes(layout, enabled, d, d - i + 1) && !IsOn(layout, d + i) {
      ProbeIs(layout, enabled, d, i + 1);
      forall c | 2 * i - 2 <= Turn(d, c) < 2 * i ensures !Takes(layout, enabled, d, c) {
        assert c == d - i + 1 || c == d + i;
      }
    }
  }

  function Distance(d: int, c: int): nat {
    if c <= d then d - c else c - d
  }

  /** From any position next to or in the layout an enabled speller finds the nearest enabled
      button, the higher one of two, and fails exactly if no button is enabled. */
  lemma {:induction false} NearestEnabled(layout: seq<Button>, d: nat)
    requires d <= |layout|
    ensures var r := Probe(layout, true, d, 1);
            if r.None? then forall c :: !IsOn(layout, c)
            else IsOn(layout, r.value)
                 && forall c :: IsOn(layout, c) ==>
                      Distance(d, r.value) < Distance(d, c) || (Distance(d, r.value) == Distance(d, c) && r.value >= c)
  {
    var r := Probe(layout, true, d, 1);
    ProbeIs(layout, true, d, 1);
    forall c | IsOn(layout, c) ensures r.Some? && Turn(d, r.value) <= Turn(d, c) {
      assert Takes(layout, true, d, c) && Turn(d, c) < 2 * |layout|;
    }
  }

  /** From any position at all it finds the nearest one not too far away. */
  lemma {:induction false} FoundWithin(layout: seq<Button>, d: int)
    ensures Probe(layout, true, d, 1).Some? <==> exists c :: IsOn(layout, c) && d - |layout| < c <= d + |layout|
  {
    ProbeIs(layout, true, d, 1);
    var r := Probe(layout, true, d, 1);
    if r.Some? {
      assert IsOn(layout, r.value);
    } else {
      forall c | IsOn(layout, c) ensures !(d - |layout| < c <= d + |layout|) {
        assert Takes(layout, true, d, c);
      }
    }
  }

  /** A cursor stays where it is if its button is still enabled, or the speller is not. */
  lemma ProbeStays(layout: seq<Button>, enabled: bool, d: nat)
    requires 0 < d <= |layout| && (enabled ==> IsOn(layout, d))
    ensures Probe(layout, enabled, d, 1) == Some(d)
  {
  }

  /** With no button enabled a disabled speller finds none from position 0, where the focus comes
      in from the left, and from the right the last button. */
  lemma {:induction false} ProbeDisabled(layout: seq<Button>)
    requires forall c :: !IsOn(layout, c)
    ensures Probe(layout, false, 0, 1) == None
    ensures |layout| > 0 ==> Probe(layout, false, |layout|, 1) == Some(|layout|)
  {
    ProbeIs(layout, false, 0, 1);
  }

  // -------------------------------------------------------- moving the cursor

  /** Where the walk from button c ends: at an enabled button or outside the layout. */
  function Walk(layout: seq<Button>, c: int, up: bool): int
    decreases if up then |layout| - c else c
  {
    if 0 < c <= |layout| && !layout[c - 1].enabled then Walk(layout, if up then c + 1 else c - 1, up) else c
  }

  lemma {:induction false} WalkIs(layout: seq<Button>, c: int, up: bool)
    requires 0 <= c <= |layout| + 1
    ensures var r := Walk(layout, c, up);
            && 0 <= r <= |layout| + 1 && (if up then c <= r else r <= c)
            && (0 < r <= |layout| ==> IsOn(layout, r))
            && forall i :: (if up then c <= i < r else r < i <= c) ==> !IsOn(layout, i)
    decreases if up then |layout| - c else c
  {
    if 0 < c <= |layout| && !layout[c - 1].enabled {
      WalkIs(layout, if up then c + 1 else c - 1, up);
    }
  }

  /** A move up that finds a button is undone by a move down. */
  lemma {:induction false} MoveThereAndBack(layout: seq<Button>, c: nat)
    requires IsOn(layout, c) && Walk(layout, c + 1, true) <= |layout|
    ensures Walk(layout, Walk(layout, c + 1, true) - 1, false) == c
  {
    var r := Walk(layout, c + 1, true);
    WalkIs(layout, c + 1, true);
    WalkIs(layout, r - 1, false);
  }
}

/** The binary search of sys.c on the level of sequences, with the 32-bit
    difference it stores in an int. */
module GroupSearch {
  import opened ShellSort

  const TWO_TO_THE_31: int := 0x8000_0000
  const TWO_TO_THE_32: int := 0x1_0000_0000

  /** gid_t is an unsigned 32-bit number. */
  type Gid = x: int | 0 <= x < TWO_TO_THE_32 witness 0

  /** The difference a - b, wrapped to 32 bits because it is unsigned, as the int it is assigned to. */
  function Difference(a: Gid, b: Gid): (d: int)
    ensures -TWO_TO_THE_31 <= d < TWO_TO_THE_31
    ensures d == 0 <==> a == b
    ensures -TWO_TO_THE_31 <= a - b < TWO_TO_THE_31 ==> d == a - b
    ensures a - b >= TWO_TO_THE_31 ==> d < 0
    ensures a - b < -TWO_TO_THE_31 ==> d > 0
  {
    var m := if a >= b then a - b else a - b + TWO_TO_THE_32;
    if m < TWO_TO_THE_31 then m else m - TWO_TO_THE_32
  }

  /** What the loop of groups_search answers once only s[left..right] is left. */
  ghost predicate SearchFrom(s: seq<Gid>, left: nat, right: nat, grp: Gid)
    requires left <= right <= |s|
    decreases right - left
  {
    if left == right then false
    else
      var mid := (left + right) / 2;
      var cmp := Difference(grp, s[mid]);
      if cmp > 0 then SearchFrom(s, mid + 1, right, grp)
      else if cmp < 0 then SearchFrom(s, left, mid, grp)
      else true
  }

  ghost predicate Search(s: seq<Gid>, grp: Gid) {
    SearchFrom(s, 0, |s|, grp)
  }

  /** A group that is found is a member: no bound and no order is needed for this direction. */
  lemma {:induction false} FoundIsMember(s: seq<Gid>, left: nat, right: nat, grp: Gid)
    requires left <= right <= |s| && SearchFrom(s, left, right, grp)
    ensures grp in s[left..right]
    decreases right - left
  {
    var mid := (left + right) / 2;
    var cmp := Difference(grp, s[mid]);
    if cmp > 0 {
      FoundIsMember(s, mid + 1, right, grp);
    } else if cmp < 0 {
      FoundIsMember(s, left, mid, grp);
    } else {
      assert s[left..right][mid - left] == grp;
    }
  }

  /** The elements an exact bisection for grp compares with all lie close enough to grp. */
  ghost predicate ProbesInRange(s: seq<Gid>, left: nat, right: nat, grp: Gid)
    requires left <= right <= |s|
    decreases right - left
  {
    left == right ||
    var mid := (left + right) / 2;
    && -TWO_TO_THE_31 <= grp - s[mid] < TWO_TO_THE_31
    && (grp > s[mid] ==> ProbesInRange(s, mid + 1, right, grp))
    && (grp < s[mid] ==> ProbesInRange(s, left, mid, grp))
  }

  /** One group, exactly: a member is found if and only if each element that an exact
      bisection compares it with is at distance -2^31 up to 2^31 - 1. */
  lemma {:induction false} MemberFoundIff(s: seq<Gid>, left: nat, right: nat, k: nat)
    requires left <= k < right <= |s| && Ascending(s)
    ensures SearchFrom(s, left, right, s[k]) <==> ProbesInRange(s, left, right, s[k])
    decreases right - left
  {
    var mid := (left + right) / 2;
    var grp := s[k];
    if grp > s[mid] {
      assert k > mid;
      MemberFoundIff(s, mid + 1, right, k);
      NotFoundBelow(s, left, mid, grp);
      assert Difference(grp, s[mid]) > 0 <==> grp - s[mid] < TWO_TO_THE_31;
    } else if grp < s[mid] {
      assert k < mid;
      MemberFoundIff(s, left, mid, k);
      NotFoundAbove(s, mid + 1, right, grp);
      assert Difference(grp, s[mid]) < 0 <==> -TWO_TO_THE_31 <= grp - s[mid];
    }
  }

  lemma {:induction false} NotFoundBelow(s: seq<Gid>, left: nat, right: nat, grp: Gid)
    requires left <= right < |s| && Ascending(s) && s[right] < grp
    ensures !SearchFrom(s, left, right, grp)
  {
    if SearchFrom(s, left, right, grp) {
      FoundIsMember(s, left, right, grp);
    }
  }

  lemma {:induction false} NotFoundAbove(s: seq<Gid>, left: nat, right: nat, grp: Gid)
    requires 0 < left <= right <= |s| && Ascending(s) && grp < s[left - 1]
    ensures !SearchFrom(s, left, right, grp)
  {
    if SearchFrom(s, left, right, grp) {
      FoundIsMember(s, left, right, grp);
    }
  }

  /** Largest minus middle element below 2^31, middle minus smallest at most 2^31. */
  ghost predicate SpreadFits(s: seq<Gid>) {
    |s| > 0 ==>
      && s[|s| - 1] - s[|s| / 2] < TWO_TO_THE_31
      && s[|s| / 2] - s[0] <= TWO_TO_THE_31
  }

  /** A whole list, exactly: the search finds every member of an ascending list if and
      only if the list spreads at most that far around its middle element. */
  lemma {:induction false} AllMembersFoundIff(s: seq<Gid>)
    requires Ascending(s)
    ensures (forall grp: Gid :: grp in s ==> Search(s, grp)) <==> SpreadFits(s)
  {
    if |s| > 0 {
      var mid := |s| / 2;
      if !SpreadFits(s) {
        var k := if s[|s| - 1] - s[mid] >= TWO_TO_THE_31 then |s| - 1 else 0;
        MemberFoundIff(s, 0, |s|, k);
        assert s[k] in s && !ProbesInRange(s, 0, |s|, s[k]);
      } else {
        forall grp: Gid | grp in s ensures Search(s, grp) {
          var k :| 0 <= k < |s| && s[k] == grp;
          FoundInSpread(s, k);
        }
      }
    }
  }

  lemma {:induction false} FoundInSpread(s: seq<Gid>, k: nat)
    requires k < |s| && Ascending(s) && SpreadFits(s)
    ensures Search(s, s[k])
  {
    var mid := |s| / 2;
    if s[k] > s[mid] {
      ProbesCloseEnough(s, mid + 1, |s|, s[k]);
    } else if s[k] < s[mid] {
      ProbesCloseEnough(s, 0, mid, s[k]);
    }
    assert ProbesInRange(s, 0, |s|, s[k]);
    MemberFoundIff(s, 0, |s|, k);
  }

  lemma {:induction false} ProbesCloseEnough(s: seq<Gid>, left: nat, right: nat, grp: Gid)
    requires left <= right <= |s|
    requires forall i :: left <= i < right ==> -TWO_TO_THE_31 <= grp - s[i] < TWO_TO_THE_31
    ensures ProbesInRange(s, left, right, grp)
    decreases right - left
  {
    if left < right {
      var mid := (left + right) / 2;
      ProbesCloseEnough(s, mid + 1, right, grp);
      ProbesCloseEnough(s, left, mid, grp);
    }
  }

  /** For a group within 2^31 of every listed group the search decides membership. */
  lemma {:induction false} SearchDecides(s: seq<Gid>, grp: Gid)
    requires Ascending(s)
    requires forall g :: g in s ==> -TWO_TO_THE_31 <= grp - g < TWO_TO_THE_31
    ensures Search(s, grp) <==> grp in s
  {
    if Search(s, grp) {
      FoundIsMember(s, 0, |s|, grp);
      assert s[0..|s|] == s;
    }
    if grp in s {
      var k :| 0 <= k < |s| && s[k] == grp;
      assert forall i :: 0 <= i < |s| ==> s[i] in s;
      ProbesCloseEnough(s, 0, |s|, grp);
      MemberFoundIff(s, 0, |s|, k);
    }
  }

  /** Without the bound a member can be missed. */
  lemma {:induction false} MemberMissed()
    ensures var s: seq<Gid> := [0, 1, 0xFFFF_FFFF];
            Ascending(s) && 0xFFFF_FFFF in s && !Search(s, 0xFFFF_FFFF)
  {
    var s: seq<Gid> := [0, 1, 0xFFFF_FFFF];
    assert s[2] == 0xFFFF_FFFF;
    assert !SearchFrom(s, 0, 1, 0xFFFF_FFFF) by {
      assert !SearchFrom(s, 0, 0, 0xFFFF_FFFF) && !SearchFrom(s, 1, 1, 0xFFFF_FFFF);
    }
  }
}

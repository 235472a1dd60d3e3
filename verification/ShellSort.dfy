/** The Shell sort of sys.c on the level of sequences: what one stride pass keeps,
    why an already established stride order survives later passes, and why the
    generated strides always come down to 1. */
module ShellSort {

  // ---------------------------------------------------------------- orders

  /** s is sorted at stride h: every element is at most the one h places further on. */
  ghost predicate StrideSorted(s: seq<int>, h: nat) {
    PrefixSorted(s, h, |s|)
  }

  /** The first m elements of s are sorted at stride h. */
  ghost predicate PrefixSorted(s: seq<int>, h: nat, m: int)
    requires m <= |s|
  {
    forall i, j :: 0 <= i && j == i + h && j < m ==> s[i] <= s[j]
  }

  ghost predicate Ascending(s: seq<int>) {
    forall i, j :: 0 <= i < j < |s| ==> s[i] <= s[j]
  }

  lemma {:induction false} StrideOneIsAscending(s: seq<int>)
    requires StrideSorted(s, 1)
    ensures Ascending(s)
  {
    forall i, j | 0 <= i < j < |s| ensures s[i] <= s[j] {
      StrideOneClimb(s, i, j);
    }
  }

  lemma {:induction false} StrideOneClimb(s: seq<int>, i: nat, j: nat)
    requires StrideSorted(s, 1)
    requires i <= j < |s|
    ensures s[i] <= s[j]
    decreases j
  {
    if i < j {
      StrideOneClimb(s, i, j - 1);
      assert s[j - 1] <= s[j];
    }
  }

  // ------------------------------------------------- counting along a stride

  /** How many of the elements at p, p + k, p + 2k, ... are at most v. */
  ghost function CountLe(s: seq<int>, p: nat, k: nat, v: int): nat
    requires k > 0
    decreases |s| - p
  {
    if p >= |s| then 0
    else (if s[p] <= v then 1 else 0) + CountLe(s, p + k, k, v)
  }

  /** t rearranges s within each residue class modulo k. */
  ghost predicate SamePerClass(s: seq<int>, t: seq<int>, k: nat)
    requires k > 0
  {
    && |s| == |t|
    && forall c: nat, v :: c < k ==> CountLe(s, c, k, v) == CountLe(t, c, k, v)
  }

  lemma {:induction false} CountLeSuffix(s: seq<int>, t: seq<int>, p: nat, k: nat, v: int)
    requires k > 0 && |s| == |t|
    requires forall i :: p <= i < |s| ==> s[i] == t[i]
    ensures CountLe(s, p, k, v) == CountLe(t, p, k, v)
    decreases |s| - p
  {
    if p < |s| {
      CountLeSuffix(s, t, p + k, k, v);
    }
  }

  /** In a stride-sorted sequence the elements up to an element that is at most v all count. */
  lemma {:induction false} CountLeAtLeast(t: seq<int>, p: nat, k: nat, m: nat, i: nat, v: int)
    requires k > 0 && StrideSorted(t, k)
    requires i == p + m * k && i < |t| && t[i] <= v
    ensures CountLe(t, p, k, v) >= m + 1
    ensures t[p] <= v
    decreases m
  {
    if m > 0 {
      assert p + k + (m - 1) * k == i;
      assert 0 <= (m - 1) * k;
      CountLeAtLeast(t, p + k, k, m - 1, i, v);
      assert t[p] <= t[p + k];
    }
  }

  /** In a stride-sorted sequence nothing from an element above v on counts. */
  lemma {:induction false} CountLeAtMost(t: seq<int>, p: nat, k: nat, m: nat, i: nat, v: int)
    requires k > 0 && StrideSorted(t, k)
    requires i == p + m * k && i < |t| && t[i] > v
    ensures CountLe(t, p, k, v) <= m
    decreases |t| - p
  {
    if m > 0 {
      assert p + k + (m - 1) * k == i;
      CountLeAtMost(t, p + k, k, m - 1, i, v);
    } else if p + k < |t| {
      assert t[p] <= t[p + k];
      CountLeAtMost(t, p + k, k, 0, p + k, v);
    }
  }

  /** Leaving out the first d members of a class loses at most d. */
  lemma {:induction false} CountLeSkip(s: seq<int>, p: nat, k: nat, d: nat, v: int)
    requires k > 0
    ensures 0 <= d * k && CountLe(s, p, k, v) <= d + CountLe(s, p + d * k, k, v)
    decreases d
  {
    if d > 0 {
      CountLeSkip(s, p + k, k, d - 1, v);
      assert p + k + (d - 1) * k == p + d * k;
      assert CountLe(s, p, k, v) <= 1 + CountLe(s, p + k, k, v);
    }
  }

  /** Each element that counts has, h places before it, an element that counts. */
  lemma {:induction false} CountLeShift(s: seq<int>, p: nat, k: nat, h: nat, v: int)
    requires k > 0 && StrideSorted(s, h)
    ensures CountLe(s, p + h, k, v) <= CountLe(s, p, k, v)
    decreases |s| - p
  {
    if p + h < |s| {
      assert s[p] <= s[p + h];
      CountLeShift(s, p + k, k, h, v);
      assert p + h + k == p + k + h;
    }
  }

  /** Theorem K of TAOCP volume 3, section 5.2.1: a sequence sorted at stride h
      stays sorted at stride h when it is sorted at stride k. */
  lemma {:induction false} TheoremK(s: seq<int>, t: seq<int>, h: nat, k: nat)
    requires k > 0 && h > 0
    requires StrideSorted(s, h) && StrideSorted(t, k) && SamePerClass(s, t, k)
    ensures StrideSorted(t, h)
  {
    forall i, j | 0 <= i && j == i + h && j < |t| ensures t[i] <= t[j] {
      var c, m := i % k, i / k;
      var c', d := (c + h) % k, (c + h) / k;
      DivMod(i, k);
      DivMod(c + h, k);
      TheoremKAt(s, t, h, k, c, m, c', d);
    }
  }

  lemma DivMod(x: nat, k: nat)
    requires k > 0
    ensures x == x % k + (x / k) * k && 0 <= x % k < k && 0 <= x / k
  {
  }

  /** Member m of class c, against the element h places on: member m + d of class c'. */
  lemma {:induction false} TheoremKAt(s: seq<int>, t: seq<int>, h: nat, k: nat, c: nat, m: nat, c': nat, d: nat)
    requires k > 0 && h > 0
    requires StrideSorted(s, h) && StrideSorted(t, k) && SamePerClass(s, t, k)
    requires c < k && c' < k && c + h == c' + d * k && 0 <= m * k
    requires c + m * k + h < |t|
    ensures t[c + m * k] <= t[c + m * k + h]
  {
    var i := c + m * k;
    var v := t[i + h];
    assert (m + d) * k == m * k + d * k;
    CountLeAtLeast(t, c', k, m + d, i + h, v);
    CountLeSkip(s, c', k, d, v);
    CountLeShift(s, c, k, h, v);
    assert CountLe(t, c, k, v) >= m + 1;
    if t[i] > v {
      CountLeAtMost(t, c, k, m, i, v);
    }
  }

  // --------------------------------------------------- one step of insertion

  ghost function Exchange(s: seq<int>, i: nat, j: nat): (t: seq<int>)
    requires i < |s| && j < |s|
  {
    s[i := s[j]][j := s[i]]
  }

  lemma {:induction false} ExchangeCounts(s: seq<int>, j: nat, k: nat, p: nat, v: int)
    requires k > 0 && j + k < |s| && p != j + k
    ensures CountLe(Exchange(s, j, j + k), p, k, v) == CountLe(s, p, k, v)
    decreases |s| - p
  {
    var t := Exchange(s, j, j + k);
    if p >= |s| {
    } else if p == j {
      CountLeSuffix(s, t, j + k + k, k, v);
    } else {
      ExchangeCounts(s, j, k, p + k, v);
    }
  }

  /** Exchanging two elements one stride apart keeps every class and the multiset. */
  lemma {:induction false} ExchangeKeeps(s: seq<int>, j: nat, k: nat)
    requires k > 0 && j + k < |s|
    ensures SamePerClass(s, Exchange(s, j, j + k), k)
    ensures multiset(Exchange(s, j, j + k)) == multiset(s)
  {
    forall c: nat, v | c < k
      ensures CountLe(s, c, k, v) == CountLe(Exchange(s, j, j + k), c, k, v)
    {
      ExchangeCounts(s, j, k, c, v);
    }
  }

  /** The first m elements of s are sorted at stride k, except that the element at
      right may still be smaller than the one a stride before it. */
  ghost predicate SortedButOne(s: seq<int>, k: nat, m: nat, right: nat)
    requires m <= |s|
  {
    && (forall i, j :: 0 <= i && j == i + k && j < m && j != right ==> s[i] <= s[j])
    && (right >= k && right + k < m ==> s[right - k] <= s[right + k])
  }

  lemma {:induction false} ExchangeMovesGap(s: seq<int>, k: nat, m: nat, left: nat)
    requires k > 0 && m <= |s| && left + k < m
    requires SortedButOne(s, k, m, left + k) && s[left] > s[left + k]
    ensures SortedButOne(Exchange(s, left, left + k), k, m, left)
  {
    var t := Exchange(s, left, left + k);
    forall i, j | 0 <= i && j == i + k && j < m && j != left ensures t[i] <= t[j] {
      if i == left + k {
        assert s[left] <= s[left + k + k];
      }
    }
    if left >= k {
      assert s[left - k] <= s[left];
    }
  }

  lemma {:induction false} SamePerClassTransitive(s: seq<int>, t: seq<int>, u: seq<int>, k: nat)
    requires k > 0 && SamePerClass(s, t, k) && SamePerClass(t, u, k)
    ensures SamePerClass(s, u, k)
  {
    forall c: nat, v | c < k ensures CountLe(s, c, k, v) == CountLe(u, c, k, v) {
      assert CountLe(s, c, k, v) == CountLe(t, c, k, v);
    }
  }

  /** While tmp is held out of the gap at right: putting it back there gives a
      rearrangement of start whose first m elements are sorted but for that one place. */
  ghost predicate Inserting(start: seq<int>, cur: seq<int>, k: nat, m: nat, right: nat, tmp: int) {
    && k > 0 && m <= |cur| && right < |cur|
    && SortedButOne(cur[right := tmp], k, m, right)
    && SamePerClass(start, cur[right := tmp], k)
    && multiset(cur[right := tmp]) == multiset(start)
  }

  lemma {:induction false} InsertStart(s: seq<int>, k: nat, right: nat)
    requires k > 0 && right < |s| && PrefixSorted(s, k, right)
    ensures Inserting(s, s, k, right + 1, right, s[right])
  {
    assert s[right := s[right]] == s;
  }

  lemma {:induction false} InsertStep(start: seq<int>, cur: seq<int>, k: nat, m: nat, left: nat, tmp: int)
    requires left + k < m && Inserting(start, cur, k, m, left + k, tmp) && cur[left] > tmp
    ensures Inserting(start, cur[left + k := cur[left]], k, m, left, tmp)
  {
    var right := left + k;
    var filled := cur[right := tmp];
    var next := Exchange(filled, left, right);
    assert next == cur[right := cur[left]][left := tmp];
    ExchangeKeeps(filled, left, k);
    ExchangeMovesGap(filled, k, m, left);
    SamePerClassTransitive(start, filled, next, k);
  }

  lemma {:induction false} InsertDone(start: seq<int>, cur: seq<int>, k: nat, m: nat, right: nat, tmp: int)
    requires Inserting(start, cur, k, m, right, tmp)
    requires right >= k ==> cur[right - k] <= tmp
    ensures PrefixSorted(cur[right := tmp], k, m)
    ensures SamePerClass(start, cur[right := tmp], k) && multiset(cur[right := tmp]) == multiset(start)
  {
  }

  // ----------------------------------------------------------------- strides

  /** 0 and the strides 1, 4, 13, 40, ... */
  ghost predicate IsStride(s: nat) {
    s == 0 || (s % 3 == 1 && IsStride(s / 3))
  }

  /** The strides of the passes that start with stride s. */
  ghost function Descent(s: nat): (strides: seq<nat>) {
    if s == 0 then [] else [s] + Descent(s / 3)
  }

  /** Dividing by 3 undoes the step that generated a stride. */
  lemma {:induction false} StrideStepUndone(s: nat)
    requires IsStride(s)
    ensures (3 * s + 1) / 3 == s
    ensures IsStride(3 * s + 1)
    ensures Descent(3 * s + 1) == [3 * s + 1] + Descent(s)
  {
    assert (3 * s + 1) / 3 == s && (3 * s + 1) % 3 == 1;
  }

  lemma StrideDivided(s: nat)
    requires IsStride(s) && s > 0
    ensures IsStride(s / 3) && (s / 3 == 0 ==> s == 1)
  {
  }

  /** The descent from any generated stride ends with a pass of stride 1. */
  lemma {:induction false} DescentEndsAtOne(s: nat)
    requires IsStride(s) && s > 0
    ensures |Descent(s)| > 0 && Descent(s)[|Descent(s)| - 1] == 1
    ensures forall i :: 0 <= i < |Descent(s)| ==> IsStride(Descent(s)[i])
  {
    if s > 1 {
      var rest := Descent(s / 3);
      assert Descent(s) == [s] + rest;
      DescentEndsAtOne(s / 3);
    } else {
      assert Descent(0) == [];
    }
  }
}

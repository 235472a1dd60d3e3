/** struct group_info of sys.c: the two-level block array with the operations that
    fill it, read it, sort it in place and search it. */
module GroupInfos {
  import opened ShellSort
  import opened GroupSearch
  import opened Remainders
  import opened Errno

  // -------------------------------------------------------------- addressing
  // Block numbers, offsets and block starts are defined by counting off blocks;
  // DivisionAddresses and RoundedUpDivision give the divisions of the source.

  /** The block that holds place i, i / perBlock. */
  function BlockNo(i: nat, perBlock: nat): nat
    requires perBlock > 0
  {
    if i < perBlock then 0 else 1 + BlockNo(i - perBlock, perBlock)
  }

  /** The offset of place i in its block, i % perBlock. */
  function Offset(i: nat, perBlock: nat): (r: nat)
    requires perBlock > 0
    ensures r < perBlock
  {
    if i < perBlock then i else Offset(i - perBlock, perBlock)
  }

  /** The first place of block b. */
  ghost function Start(b: nat, perBlock: nat): nat {
    if b == 0 then 0 else Start(b - 1, perBlock) + perBlock
  }

  /** Blocks needed for n groups: one for every perBlock groups begun, and at least one. */
  ghost function BlocksFor(n: nat, perBlock: nat): (k: nat)
    requires perBlock > 0
    ensures k >= 1
  {
    if n <= perBlock then 1 else 1 + BlocksFor(n - perBlock, perBlock)
  }

  /** GROUP_AT(g, i) is place i % perBlock of block i / perBlock. */
  lemma {:induction false} DivisionAddresses(i: nat, perBlock: nat)
    requires perBlock > 0
    ensures BlockNo(i, perBlock) == i / perBlock && Offset(i, perBlock) == i % perBlock
  {
    if i < perBlock {
      WithinFirst(i, perBlock);
    } else {
      DivisionAddresses(i - perBlock, perBlock);
      OnePeriodOn(i - perBlock, perBlock);
    }
  }

  /** The rounded-up division of groups_alloc, with its "?: 1", computes BlocksFor. */
  lemma {:induction false} RoundedUpDivision(n: nat, perBlock: nat)
    requires perBlock > 0
    ensures var k := (n + perBlock - 1) / perBlock;
            (n == 0 <==> k == 0) && BlocksFor(n, perBlock) == if k == 0 then 1 else k
  {
    if n == 0 {
      WithinFirst(perBlock - 1, perBlock);
    } else {
      OnePeriodOn(n - 1, perBlock);
      if n <= perBlock {
        WithinFirst(n - 1, perBlock);
      } else {
        RoundedUpDivision(n - perBlock, perBlock);
      }
    }
  }

  lemma {:induction false} InsideBlocks(i: nat, n: nat, perBlock: nat)
    requires perBlock > 0 && i < n
    ensures BlockNo(i, perBlock) < BlocksFor(n, perBlock)
    ensures n <= perBlock ==> Offset(i, perBlock) == i
  {
    if i >= perBlock {
      InsideBlocks(i - perBlock, n - perBlock, perBlock);
    }
  }

  /** Place i is at its offset after the start of its block. */
  lemma {:induction false} AddressOf(i: nat, perBlock: nat)
    requires perBlock > 0
    ensures i == Start(BlockNo(i, perBlock), perBlock) + Offset(i, perBlock)
  {
    if i >= perBlock {
      AddressOf(i - perBlock, perBlock);
    }
  }

  lemma {:induction false} StartsApart(a: nat, b: nat, perBlock: nat)
    requires a < b
    ensures Start(a, perBlock) + perBlock <= Start(b, perBlock)
    decreases b
  {
    if a < b - 1 {
      StartsApart(a, b - 1, perBlock);
    }
  }

  /** The places of block b are those from its start on, in order. */
  lemma {:induction false} AddressIn(i: nat, b: nat, perBlock: nat)
    requires perBlock > 0
    ensures BlockNo(i, perBlock) < b <==> i < Start(b, perBlock)
    ensures Start(b, perBlock) <= i < Start(b, perBlock) + perBlock ==>
              BlockNo(i, perBlock) == b && Offset(i, perBlock) == i - Start(b, perBlock)
  {
    var a := BlockNo(i, perBlock);
    AddressOf(i, perBlock);
    if a < b {
      StartsApart(a, b, perBlock);
    } else if b < a {
      StartsApart(b, a, perBlock);
    }
  }

  /** The blocks hold the list, and each of them starts inside it. */
  lemma {:induction false} BlocksForBounds(n: nat, b: nat, perBlock: nat)
    requires perBlock > 0
    ensures b < BlocksFor(n, perBlock) ==> Start(b, perBlock) <= n
    ensures b >= BlocksFor(n, perBlock) ==> n <= Start(b, perBlock)
  {
    if b > 0 {
      StartShift(b, perBlock);
      if n > perBlock {
        BlocksForBounds(n - perBlock, b - 1, perBlock);
      }
    }
  }

  lemma {:induction false} StartShift(b: nat, perBlock: nat)
    requires b > 0
    ensures Start(b, perBlock) == perBlock + Start(b - 1, perBlock)
  {
  }

  class GroupInfo {
    const perBlock: nat              // NGROUPS_PER_BLOCK
    const smallBlock: array<Gid>     // small_block, of NGROUPS_SMALL places
    var usage: int
    var ngroups: nat
    var nblocks: nat
    var blocks: seq<array<Gid>>

    /** What kmalloc hands out, for a given number of groups and blocks. */
    constructor (perBlock: nat, small: nat, ngroups: nat, nblocks: nat)
      ensures this.perBlock == perBlock && fresh(smallBlock) && smallBlock.Length == small
      ensures this.ngroups == ngroups && this.nblocks == nblocks && usage == 1 && blocks == []
    {
      this.perBlock := perBlock;
      this.smallBlock := new Gid[small];
      this.ngroups := ngroups;
      this.nblocks := nblocks;
      this.usage := 1;
      this.blocks := [];
    }

    /** The statically allocated info has no group and no block; every other one
        holds its groups in the small block, or in pages of perBlock places. */
    ghost predicate Valid()
      reads `ngroups, `nblocks, `blocks
    {
      && 0 < perBlock && smallBlock.Length <= perBlock
      && nblocks == |blocks|
      && (forall i, j :: 0 <= i < j < |blocks| ==> blocks[i] != blocks[j])
      && if nblocks == 0 then ngroups == 0
         else
           && nblocks == BlocksFor(ngroups, perBlock)
           && if ngroups <= smallBlock.Length then blocks == [smallBlock]
              else forall i :: 0 <= i < |blocks| ==> blocks[i].Length == perBlock && blocks[i] != smallBlock
    }

    ghost function Arrays(): set<array<Gid>>
      reads `blocks
    {
      set b | b in blocks
    }

    /** The pages it owns; the small block is part of the structure itself. */
    ghost function Pages(): set<array<Gid>>
      reads `blocks
    {
      Arrays() - {smallBlock}
    }

    /** GROUP_AT */
    function At(i: nat): Gid
      requires Valid() && i < ngroups
      reads `ngroups, `nblocks, `blocks, blocks
    {
      InBlock(i);
      blocks[BlockNo(i, perBlock)][Offset(i, perBlock)]
    }

    lemma {:induction false} InBlock(i: nat)
      requires Valid() && i < ngroups
      ensures BlockNo(i, perBlock) < |blocks| && Offset(i, perBlock) < blocks[BlockNo(i, perBlock)].Length
    {
      InsideBlocks(i, ngroups, perBlock);
    }

    ghost function Contents(): (s: seq<Gid>)
      requires Valid()
      reads this, blocks
      ensures |s| == ngroups
    {
      seq(ngroups, i requires 0 <= i < ngroups && Valid() reads this, blocks => At(i))
    }

    /** A list whose blocks are not written to stays the same, whatever becomes of usage. */
    twostate lemma {:induction false} Untouched()
      requires old(Valid()) && unchanged(`ngroups) && unchanged(`nblocks) && unchanged(`blocks)
      requires forall b :: b in blocks ==> unchanged(b)
      ensures Valid() && Contents() == old(Contents())
    {
      forall j: nat | j < ngroups ensures At(j) == old(At(j)) {
        InBlock(j);
        var b := blocks[BlockNo(j, perBlock)];
        assert b in blocks;
        assert b[Offset(j, perBlock)] == old(b[Offset(j, perBlock)]);
      }
    }

    /** get_group_info */
    method Get()
      requires Valid()
      modifies `usage
      ensures usage == old(usage) + 1 && Contents() == old(Contents())
    {
      usage := usage + 1;
      Untouched();
    }

    /** atomic_dec_and_test(&usage) */
    method DecAndTest() returns (zero: bool)
      requires Valid()
      modifies `usage
      ensures usage == old(usage) - 1 && Contents() == old(Contents())
      ensures zero <==> usage == 0
    {
      usage := usage - 1;
      Untouched();
      zero := usage == 0;
    }

    /** Different places are in different blocks or at different offsets. */
    lemma {:induction false} ElsewhereThan(i: nat, j: nat)
      requires Valid() && i < ngroups && j < ngroups && i != j
      ensures BlockNo(i, perBlock) < |blocks| && BlockNo(j, perBlock) < |blocks|
      ensures blocks[BlockNo(i, perBlock)] != blocks[BlockNo(j, perBlock)]
              || Offset(i, perBlock) != Offset(j, perBlock)
    {
      InBlock(i);
      InBlock(j);
      AddressOf(i, perBlock);
      AddressOf(j, perBlock);
    }

    /** Place j of the list, seen from block i that starts at off. */
    lemma {:induction false} SeenFromBlock(i: nat, off: nat, j: nat)
      requires Valid() && i < nblocks && off == Start(i, perBlock) && j < off + perBlock && j < ngroups
      ensures BlockNo(j, perBlock) < |blocks|
      ensures j < off ==> blocks[BlockNo(j, perBlock)] != blocks[i]
      ensures off <= j ==> j - off < blocks[i].Length && At(j) == blocks[i][j - off]
    {
      InBlock(j);
      AddressIn(j, i, perBlock);
    }

    method SetAt(i: nat, v: Gid)
      requires Valid() && i < ngroups
      modifies blocks
      ensures Contents() == old(Contents())[i := v]
    {
      InBlock(i);
      blocks[BlockNo(i, perBlock)][Offset(i, perBlock)] := v;
      forall j: nat | j < ngroups && j != i ensures At(j) == old(At(j)) {
        ElsewhereThan(i, j);
      }
    }

    // ------------------------------------------------------------ user copies

    /** copy_from_user: it fails exactly for memory that is not readable. */
    static method CopyFromUser(to: array<Gid>, user: seq<Gid>, off: nat, len: nat) returns (ok: bool)
      requires len <= to.Length
      modifies to
      ensures ok <==> off + len <= |user| || len == 0
      ensures ok ==> forall k :: 0 <= k < len ==> to[k] == user[off + k]
    {
      ok := len == 0 || off + len <= |user|;
      if ok {
        forall k | 0 <= k < len { to[k] := user[off + k]; }
      }
    }

    /** Copies one block: place off + k of the list is place k of block i. */
    method FillBlock(i: nat, user: seq<Gid>, off: nat, len: nat) returns (ok: bool)
      requires Valid() && i < nblocks && off == Start(i, perBlock) && len <= perBlock && off + len <= ngroups
      modifies blocks
      ensures ok <==> off + len <= |user| || len == 0
      ensures ok ==> forall j: nat :: off <= j < off + len ==> At(j) == user[j]
      ensures forall j: nat :: j < off ==> At(j) == old(At(j))
    {
      BlockIsLongEnough(i, off, len);
      ok := CopyFromUser(blocks[i], user, off, len);
      forall j: nat | j < off ensures At(j) == old(At(j)) {
        SeenFromBlock(i, off, j);
      }
      if ok {
        forall j: nat | off <= j < off + len ensures At(j) == user[j] {
          SeenFromBlock(i, off, j);
        }
      }
    }

    lemma {:induction false} BlockIsLongEnough(i: nat, off: nat, len: nat)
      requires Valid() && i < nblocks && off == Start(i, perBlock) && len <= perBlock && off + len <= ngroups
      ensures len <= blocks[i].Length
    {
      if ngroups <= smallBlock.Length {
        assert i == 0;
      }
    }

    /** groups_from_user: user is the readable part of user memory. */
    method FromUser(user: seq<Gid>) returns (ret: int)
      requires Valid() && nblocks > 0
      modifies blocks
      ensures ret == if ngroups <= |user| then 0 else -EFAULT
      ensures ret == 0 ==> Contents() == user[..ngroups]
    {
      var i, count, off := 0, ngroups, 0;
      while i < nblocks
        invariant Valid() && i <= nblocks && off == Start(i, perBlock)
        invariant count == if off < ngroups then ngroups - off else 0
        invariant ngroups - count <= |user|
        invariant forall j: nat :: j < ngroups - count ==> At(j) == user[j]
      {
        StartsInside(i, off);
        var cpCount := if perBlock < count then perBlock else count;
        var ok := FillBlock(i, user, off, cpCount);
        if !ok {
          return -EFAULT;
        }
        i, count, off := i + 1, count - cpCount, off + perBlock;
      }
      AllBlocksDone(off);
      return 0;
    }

    /** Every block starts before the end of the list. */
    lemma {:induction false} StartsInside(i: nat, off: nat)
      requires Valid() && i < nblocks && off == Start(i, perBlock)
      ensures off <= ngroups
    {
      BlocksForBounds(ngroups, i, perBlock);
    }

    lemma {:induction false} AllBlocksDone(off: nat)
      requires Valid() && off == Start(nblocks, perBlock)
      ensures off >= ngroups
    {
      BlocksForBounds(ngroups, nblocks, perBlock);
    }

    /** copy_to_user of the first len places of block i, to places off and on of user memory, of
        which the first writable may be written. */
    method CopyToUser(i: nat, off: nat, len: nat, writable: nat) returns (ok: bool, chunk: seq<Gid>)
      requires Valid() && i < nblocks && off == Start(i, perBlock) && len <= perBlock && off + len <= ngroups
      ensures ok <==> off + len <= writable || len == 0
      ensures ok ==> chunk == Contents()[off..off + len]
    {
      BlockIsLongEnough(i, off, len);
      ok, chunk := len == 0 || off + len <= writable, blocks[i][..len];
      forall k | 0 <= k < len ensures blocks[i][k] == Contents()[off + k] {
        SeenFromBlock(i, off, off + k);
      }
    }

    /** groups_to_user: out is what the copies that succeeded have written to user memory. */
    method ToUser(writable: nat) returns (ret: int, out: seq<Gid>)
      requires Valid()
      ensures ret == if ngroups <= writable then 0 else -EFAULT
      ensures out <= Contents() && |out| <= writable && (ret == 0 ==> out == Contents())
    {
      ghost var list := Contents();
      var i, count, off := 0, ngroups, 0;
      out := [];
      while i < nblocks
        invariant i <= nblocks && off == Start(i, perBlock)
        invariant |out| == if off < ngroups then off else ngroups
        invariant count == ngroups - |out| && out == list[..|out|] && |out| <= writable
      {
        StartsInside(i, off);
        var cpCount := if perBlock < count then perBlock else count;
        var ok, chunk := CopyToUser(i, off, cpCount, writable);
        if !ok {
          return -EFAULT, out;
        }
        out := out + chunk;
        assert out == list[..off + cpCount];
        i, count, off := i + 1, count - cpCount, off + perBlock;
      }
      AllBlocksDone(off);
      assert list[..ngroups] == list;
      return 0, out;
    }

    // -------------------------------------------------------------------- sort

    /** One pass of groups_sort: sorted at its stride, the same elements class by class,
        and still sorted at every stride at which the list was sorted before. */
    method StridePass(stride: nat)
      requires Valid() && stride > 0
      modifies blocks
      ensures StrideSorted(Contents(), stride)
      ensures SamePerClass(old(Contents()), Contents(), stride)
      ensures multiset(Contents()) == multiset(old(Contents()))
      ensures forall h: nat :: h > 0 && StrideSorted(old(Contents()), h) ==> StrideSorted(Contents(), h)
    {
      ghost var start := Contents();
      var max := ngroups - stride;
      var base := 0;
      while base < max
        invariant Valid() && |Contents()| == |start| == ngroups && max == ngroups - stride
        invariant 0 <= base && (base <= max || base == 0)
        invariant base <= max ==> PrefixSorted(Contents(), stride, base + stride)
        invariant SamePerClass(start, Contents(), stride)
        invariant multiset(Contents()) == multiset(start)
      {
        ghost var before := Contents();
        Insert(stride, base);
        SamePerClassTransitive(start, before, Contents(), stride);
        base := base + 1;
      }
      forall h: nat | h > 0 && StrideSorted(start, h) ensures StrideSorted(Contents(), h) {
        TheoremK(start, Contents(), h, stride);
      }
    }

    /** The body of the pass for one base: the element at base + stride goes down its class. */
    method Insert(stride: nat, base: nat)
      requires Valid() && stride > 0 && base + stride < ngroups
      requires PrefixSorted(Contents(), stride, base + stride)
      modifies blocks
      ensures PrefixSorted(Contents(), stride, base + stride + 1)
      ensures SamePerClass(old(Contents()), Contents(), stride)
      ensures multiset(Contents()) == multiset(old(Contents()))
    {
      ghost var start := Contents();
      InsertStart(start, stride, base + stride);
      Sink(stride, base + stride, At(base + stride), start);
    }

    /** The inner loop: the gap at right goes down its class until tmp fits in. */
    method Sink(stride: nat, top: nat, tmp: Gid, ghost start: seq<Gid>)
      requires Valid() && 0 < stride <= top < ngroups
      requires Inserting(start, Contents(), stride, top + 1, top, tmp)
      modifies blocks
      ensures PrefixSorted(Contents(), stride, top + 1)
      ensures SamePerClass(start, Contents(), stride) && multiset(Contents()) == multiset(start)
    {
      var left: int, right := top - stride, top;
      while left >= 0 && At(left) > tmp
        invariant Valid() && right <= top < ngroups && left == right - stride
        invariant Inserting(start, Contents(), stride, top + 1, right, tmp)
        decreases left
      {
        ShiftUp(stride, left, right, tmp, start, top + 1);
        right := left;
        left := left - stride;
      }
      FillGap(stride, right, tmp, start, top + 1);
    }

    /** After the inner loop: the element taken out goes into the gap. */
    method FillGap(stride: nat, right: nat, tmp: Gid, ghost start: seq<Gid>, ghost m: nat)
      requires Valid() && m <= ngroups && right < m
      requires Inserting(start, Contents(), stride, m, right, tmp)
      requires right >= stride ==> Contents()[right - stride] <= tmp
      modifies blocks
      ensures PrefixSorted(Contents(), stride, m)
      ensures SamePerClass(start, Contents(), stride) && multiset(Contents()) == multiset(start)
    {
      InsertDone(start, Contents(), stride, m, right, tmp);
      SetAt(right, tmp);
    }

    /** The body of the inner loop: the element at left moves up into the gap at right. */
    method ShiftUp(stride: nat, left: nat, right: nat, tmp: Gid, ghost start: seq<Gid>, ghost m: nat)
      requires Valid() && left + stride == right < m && m <= ngroups
      requires Inserting(start, Contents(), stride, m, right, tmp) && Contents()[left] > tmp
      modifies blocks
      ensures Inserting(start, Contents(), stride, m, left, tmp)
    {
      InsertStep(start, Contents(), stride, m, left, tmp);
      SetAt(right, At(left));
    }

    /** The stride groups_sort starts with: the largest below the length, or 0. */
    static method FirstStride(gidsetsize: nat) returns (stride: nat)
      ensures IsStride(stride)
      ensures gidsetsize <= 1 ==> stride == 0
      ensures gidsetsize > 1 ==> 0 < stride < gidsetsize <= 3 * stride + 1
    {
      stride := 1;
      while stride < gidsetsize
        invariant IsStride(stride) && stride > 0
        invariant stride > 1 ==> 0 < stride / 3 < gidsetsize && stride == 3 * (stride / 3) + 1
      {
        StrideStepUndone(stride);
        stride := 3 * stride + 1;
      }
      stride := stride / 3;
    }

    /** groups_sort */
    method Sort()
      requires Valid()
      modifies blocks
      ensures Ascending(Contents())
      ensures multiset(Contents()) == multiset(old(Contents()))
    {
      var stride := FirstStride(ngroups);
      while stride != 0
        invariant Valid() && IsStride(stride)
        invariant multiset(Contents()) == multiset(old(Contents()))
        invariant stride == 0 ==> ngroups <= 1 || StrideSorted(Contents(), 1)
      {
        StridePass(stride);
        StrideDivided(stride);
        stride := stride / 3;
      }
      if ngroups > 1 {
        StrideOneIsAscending(Contents());
      }
    }

    // ------------------------------------------------------------------ search

    /** groups_search: its answer for this list, and 0 without a list. */
    static method GroupsSearch(info: GroupInfo?, grp: Gid) returns (found: int)
      requires info != null ==> info.Valid()
      ensures found == 0 || found == 1
      ensures found == 1 <==> info != null && Search(info.Contents(), grp)
    {
      if info == null {
        return 0;
      }
      found := info.Bisect(grp);
    }

    /** The loop of groups_search. */
    method Bisect(grp: Gid) returns (found: int)
      requires Valid()
      ensures found == 0 || found == 1
      ensures found == 1 <==> Search(Contents(), grp)
    {
      ghost var list := Contents();
      var left, right := 0, ngroups;
      while left < right
        invariant 0 <= left <= right <= |list|
        invariant Search(list, grp) <==> SearchFrom(list, left, right, grp)
      {
        var mid := (left + right) / 2;
        var cmp := Compare(grp, mid);
        if cmp > 0 {
          left := mid + 1;
        } else if cmp < 0 {
          right := mid;
        } else {
          return 1;
        }
      }
      return 0;
    }

    function Compare(grp: Gid, mid: nat): (cmp: int)
      requires Valid() && mid < ngroups
      reads this, blocks
      ensures cmp == Difference(grp, Contents()[mid])
    {
      Difference(grp, At(mid))
    }
  }
}

/** Allocation, publication and reference counting of group lists, and the system calls
    that use them. */
module GroupStore {
  import opened ShellSort
  import opened GroupSearch
  import opened GroupInfos
  import opened Errno

  const NGROUPS_MAX: int := 65536

  /** What a task records of its groups; changing the list does not change the ids. */
  datatype Task = Task(groupInfo: GroupInfo, fsgid: Gid, egid: Gid)

  ghost function SetOf<T>(s: seq<T>): set<T> {
    set x | x in s
  }

  ghost function Holders(tasks: map<int, Task>, g: GroupInfo): set<int> {
    set t | t in tasks && tasks[t].groupInfo == g
  }

  lemma {:induction false} HoldersOfUpdate(tasks: map<int, Task>, t: int, task: Task, g: GroupInfo)
    ensures |Holders(tasks[t := task], g)| == |Holders(tasks - {t}, g)| + if task.groupInfo == g then 1 else 0
  {
    var others := Holders(tasks - {t}, g);
    assert Holders(tasks[t := task], g) == if task.groupInfo == g then others + {t} else others;
  }

  lemma {:induction false} HoldersOfNew(tasks: map<int, Task>, t: int, task: Task, g: GroupInfo)
    requires t !in tasks
    ensures |Holders(tasks[t := task], g)| == |Holders(tasks, g)| + if task.groupInfo == g then 1 else 0
  {
    HoldersOfUpdate(tasks, t, task, g);
    assert tasks - {t} == tasks;
  }

  lemma {:induction false} HoldersOfRemoval(tasks: map<int, Task>, t: int, g: GroupInfo)
    requires t in tasks
    ensures |Holders(tasks - {t}, g)| == |Holders(tasks, g)| - if tasks[t].groupInfo == g then 1 else 0
  {
    var others := Holders(tasks - {t}, g);
    assert Holders(tasks, g) == if tasks[t].groupInfo == g then others + {t} else others;
  }

  lemma {:induction false} IdsKeepHolders(tasks: map<int, Task>, t: int, fsgid: Gid, egid: Gid, g: GroupInfo)
    requires t in tasks
    ensures Holders(tasks[t := tasks[t].(fsgid := fsgid, egid := egid)], g) == Holders(tasks, g)
  {
    var after := tasks[t := tasks[t].(fsgid := fsgid, egid := egid)];
    assert forall u :: u in tasks ==> after[u].groupInfo == tasks[u].groupInfo;
  }

  lemma {:induction false} NoHolder(tasks: map<int, Task>, g: GroupInfo)
    ensures |Holders(tasks, g)| == 0 <==> forall t :: t in tasks ==> tasks[t].groupInfo != g
  {
    if forall t :: t in tasks ==> tasks[t].groupInfo != g {
      assert Holders(tasks, g) == {};
    } else if t :| t in tasks && tasks[t].groupInfo == g {
      assert t in Holders(tasks, g);
    }
  }

  /** References to g: the tasks that use it, those the running call holds, and the extra one that
      keeps init_groups. */
  ghost function RefsIn(tasks: map<int, Task>, g: GroupInfo, held: multiset<GroupInfo>, init: GroupInfo): nat {
    |Holders(tasks, g)| + held[g] + if g == init then 1 else 0
  }

  /** When t takes over the list that the call holds, the call holds the one that t used. */
  lemma {:induction false} ExchangeKeepsRefs(tasks: map<int, Task>, t: int, info: GroupInfo, g: GroupInfo,
                                             held: multiset<GroupInfo>, init: GroupInfo)
    requires t in tasks
    ensures RefsIn(tasks[t := tasks[t].(groupInfo := info)], g, held + multiset{tasks[t].groupInfo}, init)
            == RefsIn(tasks, g, held + multiset{info}, init)
  {
    HoldersOfUpdate(tasks, t, tasks[t].(groupInfo := info), g);
    HoldersOfRemoval(tasks, t, g);
  }

  lemma {:induction false} ForkAddsRef(tasks: map<int, Task>, parent: int, child: int, g: GroupInfo, init: GroupInfo)
    requires parent in tasks && child !in tasks
    ensures RefsIn(tasks[child := tasks[parent]], g, multiset{}, init)
            == RefsIn(tasks, g, multiset{}, init) + if tasks[parent].groupInfo == g then 1 else 0
  {
    HoldersOfNew(tasks, child, tasks[parent], g);
  }

  /** When t ends, its reference is held by the call that ends it. */
  lemma {:induction false} ExitKeepsRefs(tasks: map<int, Task>, t: int, g: GroupInfo, init: GroupInfo)
    requires t in tasks
    ensures RefsIn(tasks - {t}, g, multiset{} + multiset{tasks[t].groupInfo}, init)
            == RefsIn(tasks, g, multiset{}, init)
  {
    HoldersOfRemoval(tasks, t, g);
  }

  /** Allocations that a list of n groups takes: the structure, and its pages if it has any. */
  ghost function Allocations(n: nat, perBlock: nat, small: nat): nat
    requires perBlock > 0
  {
    1 + if n <= small then 0 else BlocksFor(n, perBlock)
  }

  class Kernel {
    const perBlock: nat              // NGROUPS_PER_BLOCK
    const small: nat                 // NGROUPS_SMALL
    const initGroups: GroupInfo      // init_groups
    var infos: set<GroupInfo>        // structures in use
    var pages: set<array<Gid>>       // pages in use
    var tasks: map<int, Task>

    /** init_groups has no group, and a usage of 2: for init, and to be never freed. */
    constructor (perBlock: nat, small: nat, init: int, fsgid: Gid, egid: Gid)
      requires 0 < perBlock && small <= perBlock
      ensures Valid() && tasks.Keys == {init} && infos == {initGroups} && pages == {}
    {
      this.perBlock := perBlock;
      this.small := small;
      var g := new GroupInfo(perBlock, small, 0, 0);
      g.usage := 2;
      this.initGroups := g;
      this.infos := {g};
      this.pages := {};
      this.tasks := map[init := Task(g, fsgid, egid)];
      new;
      assert Holders(tasks, g) == {init};
    }

    // --------------------------------------------------------------- invariant

    /** Every structure is well formed, owns its pages alone, and every page and every
        list a task uses belongs to a structure in use. */
    ghost predicate Structure()
      reads this, infos`ngroups, infos`nblocks, infos`blocks
    {
      && 0 < perBlock && small <= perBlock
      && initGroups in infos
      && (forall g :: g in infos ==> WellFormed(g))
      && (forall p :: p in pages ==> exists g :: g in infos && p in g.Pages())
      && (forall g, h :: g in infos && h in infos && g != h ==> Apart(g, h))
      && Listed()
    }

    /** Every list that a task uses is in use and well formed. */
    ghost predicate Listed()
      reads `infos, `tasks, infos`ngroups, infos`nblocks, infos`blocks
    {
      forall t :: t in tasks ==> tasks[t].groupInfo in infos && tasks[t].groupInfo.Valid()
    }

    static ghost predicate Apart(g: GroupInfo, h: GroupInfo)
      reads g`blocks, h`blocks
    {
      forall b :: b in g.blocks ==> b !in h.blocks
    }

    ghost predicate WellFormed(g: GroupInfo)
      reads `pages, g`ngroups, g`nblocks, g`blocks
    {
      && g.Valid() && g.perBlock == perBlock && g.smallBlock.Length == small
      && (g != initGroups ==> g.nblocks > 0)
      && g.Pages() <= pages
    }

    ghost function Refs(g: GroupInfo, held: multiset<GroupInfo>): nat
      reads `tasks
    {
      RefsIn(tasks, g, held, initGroups)
    }

    /** usage counts the references, and a structure is in use only while it has some. */
    ghost predicate Counted(held: multiset<GroupInfo>)
      reads `infos, `tasks, infos`usage
    {
      && (forall g :: g in held ==> g in infos)
      && (forall g :: g in infos ==> g.usage == Refs(g, held) && g.usage > 0)
    }

    /** Between system calls no call holds a reference. */
    ghost predicate Valid()
      reads this, infos
    {
      Structure() && Counted(multiset{})
    }

    ghost function Blocks(): (blocks: set<array<Gid>>)
      reads `infos, infos`blocks
      ensures forall g, b :: g in infos && b in g.blocks ==> b in blocks
    {
      set g, b | g in infos && b in g.blocks :: b
    }

    /** The groups of each task. */
    ghost function View(): map<int, Groups>
      requires Listed()
      reads this, infos, Blocks()
    {
      map t | t in tasks :: Groups(tasks[t].groupInfo.Contents(), tasks[t].fsgid, tasks[t].egid)
    }

    /** Nothing leaks: the structures in use are init_groups and those of the tasks, and
        the pages in use are theirs. */
    lemma {:induction false} NothingLeaks()
      requires Valid()
      ensures infos == {initGroups} + (set t | t in tasks :: tasks[t].groupInfo)
      ensures pages == set g, p | g in infos && p in g.Pages() :: p
    {
      forall g | g in infos && g != initGroups ensures exists t :: t in tasks && tasks[t].groupInfo == g {
        assert Refs(g, multiset{}) > 0;
        NoHolder(tasks, g);
      }
    }

    // -------------------------------------------------------------- allocation

    /** __get_free_page: a page, if one is available, or nothing. */
    method GetFreePage(available: bool) returns (p: array?<Gid>)
      modifies `pages
      ensures p == null <==> !available
      ensures p == null ==> pages == old(pages)
      ensures p != null ==> fresh(p) && p.Length == perBlock && pages == old(pages) + {p}
    {
      if !available {
        return null;
      }
      p := new Gid[perBlock];
      pages := pages + {p};
    }

    /** free_page: only a page in use may be freed. */
    method FreePage(p: array<Gid>)
      requires p in pages
      modifies `pages
      ensures pages == old(pages) - {p}
    {
      pages := pages - {p};
    }

    /** The page loop of groups_alloc: all the pages, or, when only free of them can be had and
        these are too few, every page it took given back. */
    method AllocPages(info: GroupInfo, free: nat) returns (ok: bool)
      requires info.blocks == []
      modifies info`blocks, `pages
      ensures ok <==> info.nblocks <= free
      ensures ok ==> |info.blocks| == info.nblocks && pages == old(pages) + SetOf(info.blocks)
      ensures ok ==> fresh(info.blocks) && forall b :: b in info.blocks ==> b.Length == perBlock
      ensures ok ==> forall i, j :: 0 <= i < j < |info.blocks| ==> info.blocks[i] != info.blocks[j]
      ensures !ok ==> pages == old(pages)
    {
      var i := 0;
      while i < info.nblocks
        invariant i == |info.blocks| <= info.nblocks && i <= free
        invariant fresh(info.blocks) && forall b :: b in info.blocks ==> b.Length == perBlock
        invariant forall k, j :: 0 <= k < j < i ==> info.blocks[k] != info.blocks[j]
        invariant pages == old(pages) + SetOf(info.blocks)
      {
        var b := GetFreePage(i < free);
        if b == null {
          FreePages(info, i, old(pages));
          return false;
        }
        info.blocks := info.blocks + [b];
        i := i + 1;
      }
      return true;
    }

    /** out_undo_partial_alloc: frees the first i blocks, the last of them first. */
    method FreePages(info: GroupInfo, taken: nat, ghost before: set<array<Gid>>)
      requires taken == |info.blocks| && pages == before + SetOf(info.blocks)
      requires forall b :: b in info.blocks ==> b !in before
      requires forall k, j :: 0 <= k < j < taken ==> info.blocks[k] != info.blocks[j]
      modifies `pages
      ensures pages == before
    {
      var i := taken;
      assert info.blocks[..i] == info.blocks;
      while i > 0
        invariant 0 <= i <= |info.blocks|
        invariant pages == before + SetOf(info.blocks[..i])
      {
        i := i - 1;
        assert info.blocks[..i + 1] == info.blocks[..i] + [info.blocks[i]];
        FreePage(info.blocks[i]);
      }
    }

    /** groups_alloc, when memory is there for so many allocations. */
    method GroupsAlloc(gidsetsize: nat, memory: nat) returns (info: GroupInfo?)
      requires 0 < perBlock && small <= perBlock
      modifies `infos, `pages
      ensures info == null <==> memory < Allocations(gidsetsize, perBlock, small)
      ensures info == null ==> infos == old(infos) && pages == old(pages)
      ensures info != null ==> fresh(info) && fresh(info.blocks)
      ensures info != null ==> info.usage == 1 && info.ngroups == gidsetsize && info.nblocks > 0
      ensures info != null ==> infos == old(infos) + {info} && pages == old(pages) + info.Pages()
      ensures info != null ==> WellFormed(info)
    {
      var nblocks := (gidsetsize + perBlock - 1) / perBlock;
      RoundedUpDivision(gidsetsize, perBlock);
      if nblocks == 0 {
        nblocks := 1;
      }
      if memory == 0 {
        return null;
      }
      info := new GroupInfo(perBlock, small, gidsetsize, nblocks);
      if gidsetsize <= small {
        info.blocks := [info.smallBlock];
      } else {
        var ok := AllocPages(info, memory - 1);
        if !ok {
          return null;      // kfree: the structure was never in use
        }
      }
      assert info.Pages() == if gidsetsize <= small then {} else SetOf(info.blocks);
      infos := infos + {info};
    }

    /** groups_free */
    method GroupsFree(info: GroupInfo)
      requires info in infos && WellFormed(info) && info.nblocks > 0
      modifies `infos, `pages
      ensures infos == old(infos) - {info} && pages == old(pages) - info.Pages()
    {
      if info.blocks[0] != info.smallBlock {
        var i := 0;
        while i < info.nblocks
          invariant i <= info.nblocks && infos == old(infos)
          invariant pages == old(pages) - SetOf(info.blocks[..i])
        {
          assert info.blocks[i] in info.Pages();
          assert info.blocks[..i + 1] == info.blocks[..i] + [info.blocks[i]];
          FreePage(info.blocks[i]);
          i := i + 1;
        }
        assert info.blocks[..i] == info.blocks;
        assert info.Pages() == SetOf(info.blocks);
      } else {
        assert info.Pages() == {};
      }
      infos := infos - {info};
    }

    // -------------------------------------------------------------- references

    /** get_group_info on behalf of the running call. */
    method GetGroupInfo(info: GroupInfo, ghost held: multiset<GroupInfo>)
      requires Structure() && Counted(held) && info in infos
      modifies info`usage
      ensures Structure() && Counted(held + multiset{info})
    {
      info.Get();
    }

    /** put_group_info of a reference that the running call holds beside held: the last one frees. */
    method PutGroupInfo(info: GroupInfo, ghost held: multiset<GroupInfo>)
      requires Structure() && Counted(held + multiset{info})
      modifies info`usage, `infos, `pages
      ensures Structure() && Counted(held)
      ensures if info in infos then infos == old(infos) && pages == old(pages)
              else infos == old(infos) - {info} && pages == old(pages) - info.Pages()
    {
      assert info in held + multiset{info};
      assert forall g :: g in held ==> g in held + multiset{info};
      var last := info.DecAndTest();
      if last {
        FreeLast(info, held);
      }
    }

    /** The last reference is gone: freeing the structure and its pages leaves the others as they are. */
    method FreeLast(info: GroupInfo, ghost held: multiset<GroupInfo>)
      requires Structure() && info in infos
      requires forall g :: g in held ==> g in infos
      requires forall g :: g in infos ==> g.usage == Refs(g, held) && (g == info <==> g.usage == 0)
      modifies `infos, `pages
      ensures Structure() && Counted(held)
      ensures infos == old(infos) - {info} && pages == old(pages) - info.Pages()
    {
      NoHolder(tasks, info);
      assert info !in held;
      GroupsFree(info);
      FreedStructure(info);
    }

    twostate lemma {:induction false} FreedStructure(info: GroupInfo)
      requires old(Structure()) && info in old(infos) && info != initGroups
      requires tasks == old(tasks) && forall t :: t in tasks ==> tasks[t].groupInfo != info
      requires infos == old(infos) - {info} && pages == old(pages) - info.Pages()
      requires forall g :: g in old(infos) ==> unchanged(g)
      ensures Structure()
    {
      forall p | p in pages ensures exists g :: g in infos && p in g.Pages() {
        var g :| g in old(infos) && p in old(g.Pages());
        assert g in infos && p in g.Pages();
      }
      forall g | g in infos ensures WellFormed(g) {
        assert old(WellFormed(g)) && old(Apart(g, info));
      }
    }

    /** The exchange of current->group_info: the reference held for info becomes the
        one that t uses, and the call holds the one that t used before. */
    method Publish(t: int, info: GroupInfo, ghost held: multiset<GroupInfo>) returns (oldInfo: GroupInfo)
      requires Structure() && Counted(held + multiset{info}) && t in tasks
      modifies `tasks
      ensures tasks == old(tasks)[t := old(tasks[t]).(groupInfo := info)]
      ensures oldInfo == old(tasks[t]).groupInfo && oldInfo in infos
      ensures Structure() && Counted(held + multiset{oldInfo})
    {
      oldInfo := tasks[t].groupInfo;
      ghost var before := tasks;
      tasks := tasks[t := tasks[t].(groupInfo := info)];
      assert info in held + multiset{info};
      forall g | g in infos ensures g.usage == Refs(g, held + multiset{oldInfo}) {
        ExchangeKeepsRefs(before, t, info, g, held, initGroups);
      }
    }

    /** set_current_groups for task t; secErr is what security_task_setgroups answers. */
    method SetCurrentGroups(t: int, info: GroupInfo, secErr: int, ghost held: multiset<GroupInfo>) returns (ret: int)
      requires Structure() && Counted(held) && info in held && t in tasks
      modifies info.blocks, info`usage, tasks[t].groupInfo`usage, `infos, `pages, `tasks
      ensures ret == secErr
      ensures Structure() && Counted(held)
      ensures ret != 0 ==> tasks == old(tasks) && infos == old(infos) && pages == old(pages)
      ensures ret == 0 ==> tasks == old(tasks)[t := old(tasks[t]).(groupInfo := info)]
      ensures ret == 0 ==> Ascending(info.Contents()) && multiset(info.Contents()) == multiset(old(info.Contents()))
      ensures infos <= old(infos)
      ensures forall h :: h in infos && h != info ==> h.Contents() == old(h.Contents())
    {
      if secErr != 0 {
        return secErr;
      }
      SortAlone(info);
      label Sorted:
      Install(t, info, held);
      OldListsKept@Sorted();
      return 0;
    }

    /** get_group_info, the exchange, and put_group_info of the list that was exchanged. */
    method Install(t: int, info: GroupInfo, ghost held: multiset<GroupInfo>)
      requires Structure() && Counted(held) && info in held && t in tasks
      modifies info`usage, tasks[t].groupInfo`usage, `infos, `pages, `tasks
      ensures Structure() && Counted(held)
      ensures tasks == old(tasks)[t := old(tasks[t]).(groupInfo := info)]
      ensures infos <= old(infos)
    {
      GetGroupInfo(info, held);
      var oldInfo := Publish(t, info, held);
      PutGroupInfo(oldInfo, held);
    }

    /** Sorting one list leaves every other list as it is. */
    method SortAlone(info: GroupInfo)
      requires Structure() && info in infos
      modifies info.blocks
      ensures Ascending(info.Contents()) && multiset(info.Contents()) == multiset(old(info.Contents()))
      ensures forall h :: h in infos && h != info ==> h.Contents() == old(h.Contents())
    {
      info.Sort();
      forall h | h in infos && h != info ensures h.Contents() == old(h.Contents()) {
        assert Apart(h, info);
        h.Untouched();
      }
    }

    // ------------------------------------------------------------ system calls

    /** groups_alloc when no call holds anything: the new list is held by this call alone. */
    method NewInfo(gidsetsize: nat, memory: nat) returns (info: GroupInfo?)
      requires Valid()
      modifies `infos, `pages
      ensures info == null <==> memory < Allocations(gidsetsize, perBlock, small)
      ensures info == null ==> infos == old(infos) && pages == old(pages)
      ensures info != null ==> fresh(info) && fresh(info.blocks)
      ensures info != null ==> info.ngroups == gidsetsize && info.nblocks > 0
      ensures info != null ==> infos == old(infos) + {info} && pages == old(pages) + info.Pages()
      ensures info != null ==> Structure() && Counted(multiset{} + multiset{info})
      ensures info == null ==> Valid()
    {
      info := GroupsAlloc(gidsetsize, memory);
      if info != null {
        NewInfoStructure(info);
        NewInfoCounted(info);
      }
    }

    twostate lemma {:induction false} NewInfoStructure(new info: GroupInfo)
      requires old(Structure()) && tasks == old(tasks) && fresh(info) && fresh(info.blocks)
      requires infos == old(infos) + {info} && pages == old(pages) + info.Pages()
      requires WellFormed(info)
      requires forall g :: g in old(infos) ==> unchanged(g)
      ensures Structure()
    {
      forall p | p in pages ensures exists g :: g in infos && p in g.Pages() {
        if p in old(pages) {
          var g :| g in old(infos) && p in old(g.Pages());
          assert p in g.Pages();
        }
      }
    }

    twostate lemma {:induction false} NewInfoCounted(new info: GroupInfo)
      requires old(Valid()) && tasks == old(tasks) && fresh(info)
      requires infos == old(infos) + {info} && info.usage == 1
      requires forall g :: g in old(infos) ==> unchanged(g)
      ensures Counted(multiset{} + multiset{info})
    {
      NoHolder(tasks, info);
    }

    /** The new list of a call that fails is given back: the store is as before. */
    method Discard(info: GroupInfo, ghost infosBefore: set<GroupInfo>, ghost pagesBefore: set<array<Gid>>)
      requires Structure() && Counted(multiset{} + multiset{info})
      requires info != initGroups && info !in infosBefore && infos == infosBefore + {info}
      requires info.Pages() !! pagesBefore && pages == pagesBefore + info.Pages()
      requires forall t :: t in tasks ==> tasks[t].groupInfo != info
      modifies info`usage, `infos, `pages
      ensures Valid() && infos == infosBefore && pages == pagesBefore
    {
      NoHolder(tasks, info);
      PutGroupInfo(info, multiset{});
      assert Refs(info, multiset{}) == 0;
      assert infosBefore + {info} - {info} == infosBefore;
      assert pagesBefore + info.Pages() - info.Pages() == pagesBefore;
    }

    /** sys_setgroups by process t, with or without CAP_SETGID: memory is there for so many
        allocations, user is the memory readable at grouplist, secErr what
        security_task_setgroups answers. */
    method SysSetGroups(t: int, capable: bool, gidsetsize: int, user: seq<Gid>, secErr: int, memory: nat)
      returns (ret: int)
      requires Valid() && t in tasks && -TWO_TO_THE_31 <= gidsetsize < TWO_TO_THE_31
      modifies this, tasks[t].groupInfo`usage
      ensures Valid() && t in tasks
      ensures ret == SetGroupsResult(capable, gidsetsize, |user|, secErr, memory, perBlock, small)
      ensures ret != 0 ==> tasks == old(tasks) && infos == old(infos) && pages == old(pages) && View() == old(View())
      ensures ret == 0 ==> View() == old(View())[t := old(View())[t].(list := View()[t].list)]
      ensures ret == 0 ==> IsSortedForm(View()[t].list, user[..gidsetsize])
      ensures ret == 0 ==> tasks == old(tasks)[t := old(tasks[t]).(groupInfo := tasks[t].groupInfo)]
      ensures forall h :: h in infos && h in old(infos) ==> h.Contents() == old(h.Contents())
      ensures forall h :: h in infos ==> h in old(infos) || fresh(h)
    {
      if !capable {
        return -EPERM;
      }
      var size := if gidsetsize < 0 then gidsetsize + TWO_TO_THE_32 else gidsetsize;
      if size > NGROUPS_MAX {
        return -EINVAL;
      }
      ret := SetGroups(t, gidsetsize, user, secErr, memory);
      OldListsKept();
      if ret == 0 {
        ViewAfterSetGroups(t);
      } else {
        ViewKept();
      }
    }

    /** sys_setgroups, once capability and size have been looked at. */
    method SetGroups(t: int, size: nat, user: seq<Gid>, secErr: int, memory: nat) returns (ret: int)
      requires Valid() && t in tasks
      modifies this, tasks[t].groupInfo`usage
      ensures Valid()
      ensures ret == if memory < Allocations(size, perBlock, small) then -ENOMEM
                     else if |user| < size then -EFAULT else secErr
      ensures ret != 0 ==> tasks == old(tasks) && infos == old(infos) && pages == old(pages)
      ensures ret == 0 ==> t in tasks && tasks == old(tasks)[t := old(tasks[t]).(groupInfo := tasks[t].groupInfo)]
      ensures ret == 0 ==> IsSortedForm(tasks[t].groupInfo.Contents(), user[..size])
      ensures forall h :: h in infos ==> h in old(infos) || fresh(h)
    {
      var info := NewInfo(size, memory);
      if info == null {
        return -ENOMEM;
      }
      ret := FillAndSet(t, info, user, secErr, old(infos), old(pages));
    }

    /** Lists whose blocks nobody writes to stay the same. */
    twostate lemma {:induction false} OldListsKept()
      requires old(Structure())
      requires forall h :: h in old(infos) ==> unchanged(h`ngroups) && unchanged(h`nblocks) && unchanged(h`blocks)
      requires forall h, b :: h in old(infos) && b in h.blocks ==> unchanged(b)
      ensures forall h :: h in old(infos) ==> h.Valid() && h.Contents() == old(h.Contents())
    {
      forall h | h in old(infos) ensures h.Valid() && h.Contents() == old(h.Contents()) {
        assert old(WellFormed(h));
        h.Untouched();
      }
    }

    /** A task that still uses the same list has the same groups, when lists stay the same. */
    twostate lemma {:induction false} GroupsKept(new u: int)
      requires old(Listed())
      requires Listed()
      requires u in tasks && u in old(tasks) && tasks[u] == old(tasks)[u]
      requires forall h :: h in infos && h in old(infos) && h.Valid() && old(h.Valid()) ==>
                 h.Contents() == old(h.Contents())
      ensures View()[u] == old(View())[u]
    {
      ListKept(u);
    }

    twostate lemma {:induction false} ListKept(new u: int)
      requires old(Listed())
      requires Listed()
      requires u in tasks && u in old(tasks) && tasks[u].groupInfo == old(tasks)[u].groupInfo
      requires forall h :: h in infos && h in old(infos) && h.Valid() && old(h.Valid()) ==>
                 h.Contents() == old(h.Contents())
      ensures View()[u].list == old(View())[u].list
    {
      var h := tasks[u].groupInfo;
      assert h in infos && h in old(infos);
    }

    twostate lemma {:induction false} ViewKept()
      requires old(Listed())
      requires Listed()
      requires tasks == old(tasks)
      requires forall h :: h in infos && h in old(infos) && h.Valid() && old(h.Valid()) ==>
                 h.Contents() == old(h.Contents())
      ensures View() == old(View())
    {
      forall u | u in tasks ensures View()[u] == old(View())[u] {
        GroupsKept(u);
      }
    }

    twostate lemma {:induction false} ViewAfterSetGroups(new t: int)
      requires old(Listed())
      requires Listed()
      requires t in old(tasks) && t in tasks
      requires tasks == old(tasks)[t := old(tasks[t]).(groupInfo := tasks[t].groupInfo)]
      requires forall h :: h in infos && h in old(infos) && h.Valid() && old(h.Valid()) ==>
                 h.Contents() == old(h.Contents())
      ensures View() == old(View())[t := old(View())[t].(list := View()[t].list)]
    {
      forall u | u in tasks && u != t ensures View()[u] == old(View())[u] {
        GroupsKept(u);
      }
    }

    twostate lemma {:induction false} ViewAfterSetIds(new t: int)
      requires old(Listed())
      requires Listed()
      requires t in tasks && t in old(tasks) && tasks[t].groupInfo == old(tasks)[t].groupInfo
      requires tasks == old(tasks)[t := tasks[t]]
      requires forall h :: h in infos && h in old(infos) && h.Valid() && old(h.Valid()) ==>
                 h.Contents() == old(h.Contents())
      ensures View() == old(View())[t := old(View())[t].(fsgid := tasks[t].fsgid, egid := tasks[t].egid)]
    {
      forall u | u in tasks && u != t ensures View()[u] == old(View())[u] {
        GroupsKept(u);
      }
      ListKept(t);
    }

    twostate lemma {:induction false} ViewAfterFork(new parent: int, new child: int)
      requires old(Listed())
      requires Listed()
      requires parent in old(tasks) && child !in old(tasks) && tasks == old(tasks)[child := old(tasks)[parent]]
      requires forall h :: h in infos && h in old(infos) && h.Valid() && old(h.Valid()) ==>
                 h.Contents() == old(h.Contents())
      ensures View() == old(View())[child := old(View())[parent]]
    {
      forall u | u in old(tasks) ensures u in tasks && View()[u] == old(View())[u] {
        GroupsKept(u);
      }
    }

    twostate lemma {:induction false} ViewAfterExit(new t: int)
      requires old(Listed())
      requires Listed()
      requires t in old(tasks) && tasks == old(tasks) - {t}
      requires forall h :: h in infos && h in old(infos) && h.Valid() && old(h.Valid()) ==>
                 h.Contents() == old(h.Contents())
      ensures View() == old(View()) - {t}
    {
      forall u | u in tasks ensures View()[u] == old(View())[u] {
        GroupsKept(u);
      }
    }

    /** The rest of sys_setgroups, once the new list is allocated. */
    method FillAndSet(t: int, info: GroupInfo, user: seq<Gid>, secErr: int,
                      ghost infosBefore: set<GroupInfo>, ghost pagesBefore: set<array<Gid>>) returns (ret: int)
      requires Structure() && Counted(multiset{} + multiset{info}) && t in tasks
      requires info != initGroups && info !in infosBefore && infos == infosBefore + {info}
      requires info.Pages() !! pagesBefore && pages == pagesBefore + info.Pages()
      requires forall u :: u in tasks ==> tasks[u].groupInfo != info
      modifies info.blocks, info`usage, tasks[t].groupInfo`usage, `infos, `pages, `tasks
      ensures Valid()
      ensures ret == if |user| < info.ngroups then -EFAULT else secErr
      ensures ret != 0 ==> tasks == old(tasks) && infos == infosBefore && pages == pagesBefore
      ensures ret == 0 ==> tasks == old(tasks)[t := old(tasks[t]).(groupInfo := info)] && infos <= infosBefore + {info}
      ensures ret == 0 ==> IsSortedForm(info.Contents(), user[..info.ngroups])
    {
      ret := info.FromUser(user);
      if ret != 0 {
        Discard(info, infosBefore, pagesBefore);
      } else {
        ret := SetFilled(t, info, secErr, infosBefore, pagesBefore);
      }
    }

    /** set_current_groups and put_group_info at the end of sys_setgroups. */
    method SetFilled(t: int, info: GroupInfo, secErr: int,
                     ghost infosBefore: set<GroupInfo>, ghost pagesBefore: set<array<Gid>>) returns (ret: int)
      requires Structure() && Counted(multiset{} + multiset{info}) && t in tasks
      requires info != initGroups && info !in infosBefore && infos == infosBefore + {info}
      requires info.Pages() !! pagesBefore && pages == pagesBefore + info.Pages()
      requires forall u :: u in tasks ==> tasks[u].groupInfo != info
      modifies info.blocks, info`usage, tasks[t].groupInfo`usage, `infos, `pages, `tasks
      ensures Valid() && ret == secErr
      ensures ret != 0 ==> tasks == old(tasks) && infos == infosBefore && pages == pagesBefore
      ensures ret == 0 ==> tasks == old(tasks)[t := old(tasks[t]).(groupInfo := info)] && infos <= infosBefore + {info}
      ensures ret == 0 ==> IsSortedForm(info.Contents(), old(info.Contents()))
    {
      ret := SetCurrentGroups(t, info, secErr, multiset{} + multiset{info});
      if ret != 0 {
        Discard(info, infosBefore, pagesBefore);
      } else {
        Release(info);
      }
    }

    /** put_group_info at the end of a sys_setgroups that has succeeded. */
    method Release(info: GroupInfo)
      requires Structure() && Counted(multiset{} + multiset{info})
      modifies info`usage, `infos, `pages
      ensures Valid() && infos <= old(infos) && info.Valid() && info.Contents() == old(info.Contents())
    {
      assert info in multiset{} + multiset{info};
      PutGroupInfo(info, multiset{});
      info.Untouched();
    }

    /** sys_getgroups by process t, of whose memory so much may be written: a size of 0 asks for
        the number only. */
    method SysGetGroups(t: int, gidsetsize: int, writable: nat) returns (ret: int, out: seq<Gid>)
      requires Valid() && t in tasks
      ensures var list := View()[t].list;
              && ret == (if gidsetsize < 0 then -EINVAL
                         else if gidsetsize == 0 then |list|
                         else if |list| > gidsetsize then -EINVAL
                         else if |list| > writable then -EFAULT
                         else |list|)
              && (ret >= 0 ==> out == if gidsetsize == 0 then [] else list)
    {
      if gidsetsize < 0 {
        return -EINVAL, [];
      }
      var info := tasks[t].groupInfo;
      if gidsetsize != 0 {
        if info.ngroups > gidsetsize {
          return -EINVAL, [];
        }
        var copied;
        copied, out := info.ToUser(writable);
        if copied != 0 {
          return -EFAULT, [];
        }
        return info.ngroups, out;
      }
      return info.ngroups, [];
    }

    /** in_group_p by process t */
    method InGroupP(t: int, grp: Gid) returns (ret: int)
      requires Valid() && t in tasks
      ensures ret == 0 || ret == 1
      ensures ret == 1 <==> IsInGroup(View()[t].fsgid, View()[t].list, grp)
    {
      ret := 1;
      if grp != tasks[t].fsgid {
        ret := GroupInfo.GroupsSearch(tasks[t].groupInfo, grp);
      }
    }

    /** in_egroup_p by process t */
    method InEgroupP(t: int, grp: Gid) returns (ret: int)
      requires Valid() && t in tasks
      ensures ret == 0 || ret == 1
      ensures ret == 1 <==> IsInGroup(View()[t].egid, View()[t].list, grp)
    {
      ret := 1;
      if grp != tasks[t].egid {
        ret := GroupInfo.GroupsSearch(tasks[t].groupInfo, grp);
      }
    }

    // ---------------------------------------------------- environment and runs

    /** A new task shares the list of its parent. */
    method Fork(parent: int, child: int)
      requires Valid() && parent in tasks && child !in tasks
      modifies `tasks, tasks[parent].groupInfo`usage
      ensures Valid() && tasks == old(tasks)[child := old(tasks[parent])]
      ensures infos == old(infos) && View() == old(View())[child := old(View())[parent]]
    {
      ShareList(parent, child);
      OldListsKept();
      ViewAfterFork(parent, child);
    }

    method ShareList(parent: int, child: int)
      requires Valid() && parent in tasks && child !in tasks
      modifies `tasks, tasks[parent].groupInfo`usage
      ensures Valid() && tasks == old(tasks)[child := old(tasks[parent])]
    {
      var info := tasks[parent].groupInfo;
      info.Get();
      ghost var before := tasks;
      tasks := tasks[child := tasks[parent]];
      forall g | g in infos ensures g.usage == Refs(g, multiset{}) {
        ForkAddsRef(before, parent, child, g, initGroups);
      }
    }

    /** A task ends and gives up its list. */
    method Exit(t: int)
      requires Valid() && t in tasks
      modifies this, tasks[t].groupInfo`usage
      ensures Valid() && tasks == old(tasks) - {t} && infos <= old(infos)
      ensures View() == old(View()) - {t}
    {
      DropList(t);
      OldListsKept();
      ViewAfterExit(t);
    }

    method DropList(t: int)
      requires Valid() && t in tasks
      modifies `tasks, `infos, `pages, tasks[t].groupInfo`usage
      ensures Valid() && tasks == old(tasks) - {t} && infos <= old(infos)
    {
      var info := tasks[t].groupInfo;
      ghost var before := tasks;
      tasks := tasks - {t};
      forall g | g in infos ensures g.usage == Refs(g, multiset{} + multiset{info}) {
        ExitKeepsRefs(before, t, g, initGroups);
      }
      PutGroupInfo(info, multiset{});
    }

    /** setgid, setfsgid and their like by t: its two ids change, not its list. */
    method SetIds(t: int, fsgid: Gid, egid: Gid)
      requires Valid() && t in tasks
      modifies `tasks
      ensures Valid() && tasks == old(tasks)[t := old(tasks[t]).(fsgid := fsgid, egid := egid)]
      ensures infos == old(infos) && View() == old(View())[t := old(View())[t].(fsgid := fsgid, egid := egid)]
    {
      ghost var before := tasks;
      tasks := tasks[t := tasks[t].(fsgid := fsgid, egid := egid)];
      forall g ensures Refs(g, multiset{}) == RefsIn(before, g, multiset{}, initGroups) {
        IdsKeepHolders(before, t, fsgid, egid, g);
      }
      OldListsKept();
      ViewAfterSetIds(t);
    }

    /** One event, if it can happen. */
    method Happen(e: Event)
      requires Valid()
      modifies this, infos`usage
      ensures Valid() && Leads(old(View()), e, View(), perBlock, small)
      ensures forall g :: g in infos ==> g in old(infos) || fresh(g)
    {
      match e
      case SetGroups(t, capable, size, user, secErr, memory) =>
        if t in tasks && -TWO_TO_THE_31 <= size < TWO_TO_THE_31 {
          var _ := SysSetGroups(t, capable, size, user, secErr, memory);
        }
      case Forked(parent, child) =>
        if parent in tasks && child !in tasks {
          Fork(parent, child);
        }
      case IdsSet(t, fsgid, egid) =>
        if t in tasks {
          SetIds(t, fsgid, egid);
        }
      case Exited(t) =>
        if t in tasks {
          Exit(t);
        }
    }

    /** Any run of system calls, forks and exits, successful or not, keeps the counts, and the groups
        of the tasks go through a run of the events. */
    method Run(events: seq<Event>) returns (ghost views: seq<map<int, Groups>>)
      requires Valid()
      modifies this, infos`usage
      ensures Valid() && IsRun(views, events, perBlock, small)
      ensures views[0] == old(View()) && views[|events|] == View()
    {
      views := [View()];
      for i := 0 to |events|
        invariant Valid() && |views| == i + 1 && views[0] == old(View()) && views[i] == View()
        invariant forall k :: 0 <= k < i ==> Leads(views[k], events[k], views[k + 1], perBlock, small)
        invariant forall g :: g in infos ==> g in old(infos) || fresh(g)
      {
        Happen(events[i]);
        views := views + [View()];
      }
    }
  }

  /** The groups of a task: its stored list and the two ids beside it. */
  datatype Groups = Groups(list: seq<Gid>, fsgid: Gid, egid: Gid)

  datatype Event =
    | SetGroups(t: int, capable: bool, size: int, user: seq<Gid>, secErr: int, memory: nat)
    | IdsSet(t: int, fsgid: Gid, egid: Gid)
    | Forked(parent: int, child: int)
    | Exited(t: int)

  /** What sys_setgroups answers: the first of its checks that fails. */
  ghost function SetGroupsResult(capable: bool, size: int, readable: nat, secErr: int, memory: nat,
                                 perBlock: nat, small: nat): int
    requires perBlock > 0
  {
    if !capable then -EPERM
    else if !(0 <= size <= NGROUPS_MAX) then -EINVAL
    else if memory < Allocations(size, perBlock, small) then -ENOMEM
    else if readable < size then -EFAULT
    else secErr
  }

  /** It succeeds exactly if the caller may, the list has at most 65536 groups, none included, memory and
      user memory are there for it, and the hook accepts; otherwise the first of these that fails
      tells the error. */
  lemma {:induction false} SetGroupsSucceedsIff(capable: bool, size: int, readable: nat, secErr: int, memory: nat,
                                                perBlock: nat, small: nat)
    requires perBlock > 0
    ensures var ret := SetGroupsResult(capable, size, readable, secErr, memory, perBlock, small);
            && (ret == 0 <==>
                  && capable && 0 <= size <= 65536 && size <= readable && secErr == 0
                  && memory >= 1 + if size <= small then 0 else BlocksFor(size, perBlock))
            && (!capable ==> ret == -EPERM)
            && (capable && (size < 0 || size > 65536) ==> ret == -EINVAL)
            && (capable && size == 0 && memory >= 1 ==> ret == secErr)
  {
  }

  /** The event is a sys_setgroups by t that succeeds. */
  ghost predicate Sets(e: Event, t: int, perBlock: nat, small: nat)
    requires perBlock > 0
  {
    && e.SetGroups? && e.t == t
    && SetGroupsResult(e.capable, e.size, |e.user|, e.secErr, e.memory, perBlock, small) == 0
  }

  /** An event takes the groups of the tasks from v to w. */
  ghost predicate Leads(v: map<int, Groups>, e: Event, w: map<int, Groups>, perBlock: nat, small: nat) {
    && perBlock > 0
    && match e
       case SetGroups(t, _, size, user, _, _) =>
         if t in v && Sets(e, t, perBlock, small)
         then t in w && w == v[t := v[t].(list := w[t].list)] && IsSortedForm(w[t].list, user[..size])
         else w == v
       case IdsSet(t, fsgid, egid) =>
         w == if t in v then v[t := v[t].(fsgid := fsgid, egid := egid)] else v
       case Forked(parent, child) =>
         w == if parent in v && child !in v then v[child := v[parent]] else v
       case Exited(t) => w == v - {t}
  }

  ghost predicate IsRun(views: seq<map<int, Groups>>, events: seq<Event>, perBlock: nat, small: nat) {
    && |views| == |events| + 1
    && forall i :: 0 <= i < |events| ==> Leads(views[i], events[i], views[i + 1], perBlock, small)
  }

  /** What in_group_p (id: fsgid) and in_egroup_p (id: egid) decide for a stored list. */
  ghost predicate IsInGroup(id: Gid, stored: seq<Gid>, grp: Gid) {
    grp == id || Search(stored, grp)
  }

  /** No event from i on and before j is a setgid or the like by t. */
  ghost predicate KeepsIds(events: seq<Event>, i: nat, j: nat, t: int)
    requires j <= |events|
  {
    forall k :: i <= k < j ==> !(events[k].IdsSet? && events[k].t == t)
  }

  /** No event from i on and before j is a successful sys_setgroups by t or its end. */
  ghost predicate KeepsList(events: seq<Event>, perBlock: nat, small: nat, i: nat, j: nat, t: int)
    requires j <= |events| && perBlock > 0
  {
    forall k :: i <= k < j ==> !Sets(events[k], t, perBlock, small) && events[k] != Exited(t)
  }

  /** No other task's call, and no failed one, changes the groups of a task: until its own next
      successful sys_setgroups or its end its list stays what it is, and its ids until it sets them. */
  lemma {:induction false} GroupsStay(views: seq<map<int, Groups>>, events: seq<Event>, perBlock: nat, small: nat,
                                      i: nat, j: nat, t: int)
    requires IsRun(views, events, perBlock, small) && i <= j < |views| && t in views[i] && perBlock > 0
    requires KeepsList(events, perBlock, small, i, j, t)
    ensures t in views[j] && views[j][t].list == views[i][t].list
    ensures KeepsIds(events, i, j, t) ==> views[j][t] == views[i][t]
    decreases j
  {
    if i < j {
      GroupsStay(views, events, perBlock, small, i, j - 1, t);
      assert Leads(views[j - 1], events[j - 1], views[j], perBlock, small);
    }
  }

  /** In every run: from a successful sys_setgroups(list) by t until its next one or its end,
      in_group_p by t answers 1 exactly for the fsgid it has then and those groups of the list that
      the search over the sorted list reaches with differences in range; all of them if they are
      within 2^31 of the whole list. So does in_egroup_p, with the egid. */
  lemma {:induction false} MembershipInRun(views: seq<map<int, Groups>>, events: seq<Event>, perBlock: nat, small: nat,
                                           i: nat, j: nat, t: int, grp: Gid)
    requires IsRun(views, events, perBlock, small) && i < j < |views| && t in views[i] && perBlock > 0
    requires Sets(events[i], t, perBlock, small) && KeepsList(events, perBlock, small, i + 1, j, t)
    ensures t in views[j]
    ensures KeepsIds(events, i, j, t) ==> views[j][t].fsgid == views[i][t].fsgid && views[j][t].egid == views[i][t].egid
    ensures forall id :: id == views[j][t].fsgid || id == views[j][t].egid ==>
              AnswersFor(events[i].user[..events[i].size], views[j][t].list, id, grp)
  {
    assert Leads(views[i], events[i], views[i + 1], perBlock, small);
    GroupsStay(views, events, perBlock, small, i + 1, j, t);
    MembershipAfterSetGroups(events[i].user[..events[i].size], views[j][t].list, views[j][t].fsgid, grp);
    MembershipAfterSetGroups(events[i].user[..events[i].size], views[j][t].list, views[j][t].egid, grp);
  }

  /** A child answers as its parent did when it was forked, until it sets groups or ids of its own. */
  lemma {:induction false} ChildInherits(views: seq<map<int, Groups>>, events: seq<Event>, perBlock: nat, small: nat,
                                         i: nat, j: nat, parent: int, child: int)
    requires IsRun(views, events, perBlock, small) && i < j < |views| && perBlock > 0
    requires events[i] == Forked(parent, child) && parent in views[i] && child !in views[i]
    requires KeepsList(events, perBlock, small, i + 1, j, child)
    ensures child in views[j] && views[j][child].list == views[i][parent].list
    ensures KeepsIds(events, i + 1, j, child) ==> views[j][child] == views[i][parent]
  {
    assert Leads(views[i], events[i], views[i + 1], perBlock, small);
    GroupsStay(views, events, perBlock, small, i + 1, j, child);
  }

  /** What the answer for the sorted form of a list means, exactly, and what it is when the list is
      close enough together. */
  ghost predicate AnswersFor(list: seq<Gid>, stored: seq<Gid>, id: Gid, grp: Gid) {
    && (IsInGroup(id, stored, grp) <==> grp == id || (grp in list && ProbesInRange(stored, 0, |stored|, grp)))
    && ((forall g :: g in list ==> -TWO_TO_THE_31 <= grp - g < TWO_TO_THE_31)
        ==> (IsInGroup(id, stored, grp) <==> grp == id || grp in list))
  }

  /** After sys_setgroups(list), in_group_p answers 1 exactly for the id itself and for the groups in
      the list that the search reaches with differences in range, and so for each of them that is
      within 2^31 of all the list. */
  lemma {:induction false} MembershipAfterSetGroups(list: seq<Gid>, stored: seq<Gid>, id: Gid, grp: Gid)
    requires IsSortedForm(stored, list)
    ensures AnswersFor(list, stored, id, grp)
  {
    SameMembers(stored, list);
    if Search(stored, grp) {
      FoundIsMember(stored, 0, |stored|, grp);
      assert stored[0..|stored|] == stored;
    }
    if grp in list {
      var k :| 0 <= k < |stored| && stored[k] == grp;
      MemberFoundIff(stored, 0, |stored|, k);
    }
    if forall g :: g in list ==> -TWO_TO_THE_31 <= grp - g < TWO_TO_THE_31 {
      SearchDecides(stored, grp);
    }
  }

  lemma {:induction false} SameMembers(s: seq<Gid>, t: seq<Gid>)
    requires multiset(s) == multiset(t)
    ensures forall g :: g in s <==> g in t
  {
    forall g ensures g in s <==> g in t {
      assert g in s <==> g in multiset(s);
      assert g in t <==> g in multiset(t);
    }
  }

  /** s holds the groups of list in ascending order. */
  ghost predicate IsSortedForm(s: seq<Gid>, list: seq<Gid>) {
    Ascending(s) && multiset(s) == multiset(list)
  }
}

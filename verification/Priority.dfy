/** sys_setpriority and sys_getpriority of sys.c: loops over the processes a selector names. */
module Priority {
  import opened Errno

  const PRIO_PROCESS: int := 0
  const PRIO_PGRP: int := 1
  const PRIO_USER: int := 2

  datatype Task = Task(tid: int, uid: int, euid: int, pgid: int, groupLeader: bool, nice: int)

  /** What the answers depend on beside the tasks: CAP_SYS_NICE, which tasks may be given the
      nice value (can_nice), and what the security hook answers for each task. */
  datatype Env = Env(capable: bool, canNice: int -> bool, hook: int -> int)

  /** Task lists in the order of the kernel's list: thread ids are unique. */
  ghost predicate Distinct(tasks: seq<Task>) {
    forall i, j :: 0 <= i < j < |tasks| ==> tasks[i].tid != tasks[j].tid
  }

  function Clamp(niceval: int): (n: int)
    ensures -20 <= n <= 19
    ensures -20 <= niceval <= 19 ==> n == niceval
  {
    if niceval < -20 then -20 else if niceval > 19 then 19 else niceval
  }

  // --------------------------------------------------------------- selection

  /** A selector with its zeros resolved for the caller: what to look for, and whether at all. */
  datatype Selector =
    | ByTid(tid: int)
    | ByGroup(pgid: int)
    | ByUser(uid: int)
    | Nobody

  function Select(which: int, who: int, me: Task, users: set<int>): Selector {
    if which == PRIO_PROCESS then ByTid(if who != 0 then who else me.tid)
    else if which == PRIO_PGRP then ByGroup(if who != 0 then who else me.pgid)
    else if who == 0 then ByUser(me.uid)
    else if who != me.uid && who !in users then Nobody
    else ByUser(who)
  }

  predicate Selected(t: Task, sel: Selector) {
    match sel
    case ByTid(tid) => t.tid == tid
    case ByGroup(pgid) => t.groupLeader && t.pgid == pgid
    case ByUser(uid) => t.uid == uid
    case Nobody => false
  }

  // ------------------------------------------------------------- setpriority

  /** What set_one_prio objects to, 0 for nothing. */
  function Verdict(p: Task, niceval: int, me: Task, env: Env): int {
    if p.uid != me.euid && p.euid != me.euid && !env.capable then -EPERM
    else if niceval < p.nice && !env.canNice(p.tid) then -EACCES
    else env.hook(p.tid)
  }

  /** The verdicts on the selected ones of the first n tasks, in order. */
  ghost function Verdicts(tasks: seq<Task>, n: nat, sel: Selector, niceval: int, me: Task, env: Env): seq<int>
    requires n <= |tasks|
  {
    if n == 0 then []
    else
      var before := Verdicts(tasks, n - 1, sel, niceval, me, env);
      if Selected(tasks[n - 1], sel) then before + [Verdict(tasks[n - 1], niceval, me, env)] else before
  }

  /** How the error is carried along the verdicts: -ESRCH at first. */
  ghost function Carry(verdicts: seq<int>): int {
    if verdicts == [] then -ESRCH
    else
      var v, error := verdicts[|verdicts| - 1], Carry(verdicts[..|verdicts| - 1]);
      if v != 0 then v else if error == -ESRCH then 0 else error
  }

  /** The tasks afterwards: every selected task without objection has the new nice value. */
  ghost predicate Reniced(before: seq<Task>, after: seq<Task>, n: nat, sel: Selector, niceval: int, me: Task, env: Env)
    requires n <= |before|
  {
    && |after| == |before|
    && forall i :: 0 <= i < |before| ==>
         after[i] == if i < n && Selected(before[i], sel) && Verdict(before[i], niceval, me, env) == 0
                     then before[i].(nice := niceval) else before[i]
  }

  // ------------------------------------------------------------- main results

  /** The last refusal among the verdicts, 0 if there is none. */
  ghost function LastError(verdicts: seq<int>): int {
    if verdicts == [] then 0
    else if verdicts[|verdicts| - 1] != 0 then verdicts[|verdicts| - 1]
    else LastError(verdicts[..|verdicts| - 1])
  }

  /** What setpriority is meant to answer: -ESRCH if nobody is selected, else the error of the last
      task that refuses, else 0. */
  ghost function Meant(verdicts: seq<int>): int {
    if verdicts == [] then -ESRCH else LastError(verdicts)
  }

  lemma {:induction false} LastErrorIs(verdicts: seq<int>)
    ensures LastError(verdicts) == 0 <==> forall j :: 0 <= j < |verdicts| ==> verdicts[j] == 0
    ensures forall k :: 0 <= k < |verdicts| && verdicts[k] != 0 && (forall j :: k < j < |verdicts| ==> verdicts[j] == 0)
              ==> LastError(verdicts) == verdicts[k]
  {
    if verdicts != [] && verdicts[|verdicts| - 1] == 0 {
      LastErrorIs(verdicts[..|verdicts| - 1]);
    }
  }

  /** The answer in terms of the last refusal. An error of -ESRCH is taken for "none found yet", so
      as the last refusal it becomes 0 when a task after it accepts. */
  lemma {:induction false} CarryIs(verdicts: seq<int>)
    ensures Carry(verdicts) ==
            if verdicts == [] then -ESRCH
            else if verdicts[|verdicts| - 1] == 0 && LastError(verdicts) == -ESRCH then 0
            else LastError(verdicts)
  {
    if |verdicts| > 1 {
      CarryIs(verdicts[..|verdicts| - 1]);
    }
  }

  lemma {:induction false} CarryAfterLastRefusal(verdicts: seq<int>, k: nat)
    requires k < |verdicts| && verdicts[k] != 0 && forall j :: k < j < |verdicts| ==> verdicts[j] == 0
    ensures Carry(verdicts) == if verdicts[k] != -ESRCH || k == |verdicts| - 1 then verdicts[k] else 0
  {
    CarryIs(verdicts);
    LastErrorIs(verdicts);
  }

  /** setpriority answers what it is meant to exactly unless the last task accepts and the last
      refusal before it is -ESRCH. */
  lemma {:induction false} CarryIsMeantIff(verdicts: seq<int>)
    ensures Carry(verdicts) == Meant(verdicts) <==>
            !(|verdicts| > 0 && verdicts[|verdicts| - 1] == 0 && LastError(verdicts) == -ESRCH)
  {
    CarryIs(verdicts);
  }

  /** 0, exactly: the last selected task accepts, and either all do or the last refusal is -ESRCH. */
  lemma {:induction false} CarryZeroIff(verdicts: seq<int>)
    ensures Carry(verdicts) == 0 <==>
            && |verdicts| > 0 && verdicts[|verdicts| - 1] == 0
            && ((forall j :: 0 <= j < |verdicts| ==> verdicts[j] == 0) || LastError(verdicts) == -ESRCH)
  {
    CarryIs(verdicts);
    LastErrorIs(verdicts);
  }

  /** Where no refusal is -ESRCH: 0 exactly when some task is selected and all accept,
      -ESRCH exactly when none is selected, else the error of the last task that refuses. */
  lemma {:induction false} CarryWithoutESRCH(verdicts: seq<int>)
    requires forall j :: 0 <= j < |verdicts| ==> verdicts[j] != -ESRCH
    ensures Carry(verdicts) == Meant(verdicts)
    ensures Carry(verdicts) == 0 <==> |verdicts| > 0 && forall j :: 0 <= j < |verdicts| ==> verdicts[j] == 0
    ensures Carry(verdicts) == -ESRCH <==> verdicts == []
    ensures forall k :: 0 <= k < |verdicts| && verdicts[k] != 0 && (forall j :: k < j < |verdicts| ==> verdicts[j] == 0)
              ==> Carry(verdicts) == verdicts[k]
  {
    CarryIs(verdicts);
    LastErrorIs(verdicts);
    LastErrorOccurs(verdicts);
  }

  lemma {:induction false} LastErrorOccurs(verdicts: seq<int>)
    ensures LastError(verdicts) == 0 || LastError(verdicts) in verdicts
  {
    if verdicts != [] && verdicts[|verdicts| - 1] == 0 {
      LastErrorOccurs(verdicts[..|verdicts| - 1]);
    }
  }

  /** With a hook that refuses one of a user's two tasks with -ESRCH, setpriority answers 0 although
      that task refused and keeps its nice value. */
  lemma {:induction false} RefusalForgotten()
    ensures var before := [Task(1, 0, 0, 1, true, 5), Task(2, 0, 0, 2, true, 5)];
            var after := before[1 := before[1].(nice := 0)];
            var env := Env(true, _ => true, tid => if tid == 1 then -ESRCH else 0);
            var verdicts := Verdicts(before, 2, ByUser(0), 0, before[1], env);
            && Reniced(before, after, 2, ByUser(0), 0, before[1], env)
            && Carry(verdicts) == 0 && Meant(verdicts) == -ESRCH
  {
    var before := [Task(1, 0, 0, 1, true, 5), Task(2, 0, 0, 2, true, 5)];
    var env := Env(true, _ => true, tid => if tid == 1 then -ESRCH else 0);
    var verdicts := Verdicts(before, 2, ByUser(0), 0, before[1], env);
    assert Verdicts(before, 1, ByUser(0), 0, before[1], env) == [-ESRCH];
    assert verdicts == [-ESRCH, 0] && verdicts[..1] == [-ESRCH];
    CarryIs(verdicts);
  }

  lemma {:induction false} VerdictOfSelected(tasks: seq<Task>, n: nat, sel: Selector, niceval: int, me: Task, env: Env,
                                             i: nat)
    requires i < n <= |tasks| && Selected(tasks[i], sel)
    ensures Verdict(tasks[i], niceval, me, env) in Verdicts(tasks, n, sel, niceval, me, env)
  {
    if i < n - 1 {
      VerdictOfSelected(tasks, n - 1, sel, niceval, me, env, i);
    }
  }

  lemma {:induction false} VerdictHasTask(tasks: seq<Task>, n: nat, sel: Selector, niceval: int, me: Task, env: Env,
                                          v: int)
    requires n <= |tasks| && v in Verdicts(tasks, n, sel, niceval, me, env)
    ensures exists i :: 0 <= i < n && Selected(tasks[i], sel) && Verdict(tasks[i], niceval, me, env) == v
  {
    if v in Verdicts(tasks, n - 1, sel, niceval, me, env) {
      VerdictHasTask(tasks, n - 1, sel, niceval, me, env, v);
    }
  }

  /** What one turn of the loop does to the error and the tasks. */
  lemma {:induction false} RenicedNext(before: seq<Task>, i: nat, sel: Selector, niceval: int, me: Task, env: Env)
    requires i < |before|
    ensures var v := Verdict(before[i], niceval, me, env);
            var error := Carry(Verdicts(before, i, sel, niceval, me, env));
            Carry(Verdicts(before, i + 1, sel, niceval, me, env))
            == if !Selected(before[i], sel) then error else if v != 0 then v else if error == -ESRCH then 0 else error
  {
    var verdicts := Verdicts(before, i + 1, sel, niceval, me, env);
    if Selected(before[i], sel) {
      assert verdicts[..|verdicts| - 1] == Verdicts(before, i, sel, niceval, me, env);
    }
  }

  /** ret is the best value of getpriority over the selected ones of the first n tasks. */
  ghost predicate Best(tasks: seq<Task>, n: nat, sel: Selector, ret: int)
    requires n <= |tasks|
  {
    && (forall i :: 0 <= i < n && Selected(tasks[i], sel) ==> 20 - tasks[i].nice <= ret)
    && (ret == -ESRCH || exists i :: 0 <= i < n && Selected(tasks[i], sel) && ret == 20 - tasks[i].nice)
  }

  ghost predicate NiceInRange(tasks: seq<Task>) {
    forall i :: 0 <= i < |tasks| ==> -20 <= tasks[i].nice <= 19
  }

  /** getpriority answers -ESRCH exactly when nobody is selected, else a value in 1 .. 40. */
  lemma BestInRange(tasks: seq<Task>, sel: Selector, ret: int)
    requires NiceInRange(tasks) && Best(tasks, |tasks|, sel, ret)
    ensures ret == -ESRCH <==> forall i :: 0 <= i < |tasks| ==> !Selected(tasks[i], sel)
    ensures ret != -ESRCH ==> 1 <= ret <= 40
  {
  }

  /** After setpriority has answered 0, getpriority with the same selector answers 20 minus the
      clamped nice value exactly if no selected task that refused is nicer than that. */
  lemma {:induction false} GetAfterSetIff(before: seq<Task>, after: seq<Task>, sel: Selector, niceval: int, me: Task,
                                          env: Env, got: int)
    requires Reniced(before, after, |before|, sel, niceval, me, env)
    requires Carry(Verdicts(before, |before|, sel, niceval, me, env)) == 0
    requires -20 <= niceval <= 19 && NiceInRange(before) && Best(after, |after|, sel, got)
    ensures got == 20 - niceval <==>
            forall i :: 0 <= i < |before| && Selected(before[i], sel) && Verdict(before[i], niceval, me, env) != 0 ==>
              before[i].nice >= niceval
  {
    var verdicts := Verdicts(before, |before|, sel, niceval, me, env);
    CarryZeroIff(verdicts);
    VerdictHasTask(before, |before|, sel, niceval, me, env, verdicts[|verdicts| - 1]);
    var k :| 0 <= k < |before| && Selected(before[k], sel) && Verdict(before[k], niceval, me, env) == 0;
    assert Selected(after[k], sel) && after[k].nice == niceval;
    forall i | 0 <= i < |before| ensures Selected(after[i], sel) == Selected(before[i], sel) {
    }
  }

  /** With no hook that refuses with -ESRCH it always does. */
  lemma {:induction false} GetAfterSet(before: seq<Task>, after: seq<Task>, sel: Selector, niceval: int, me: Task,
                                       env: Env, got: int)
    requires Reniced(before, after, |before|, sel, niceval, me, env)
    requires Carry(Verdicts(before, |before|, sel, niceval, me, env)) == 0
    requires forall tid :: env.hook(tid) != -ESRCH
    requires -20 <= niceval <= 19 && NiceInRange(before) && Best(after, |after|, sel, got)
    ensures got == 20 - niceval && 1 <= got <= 40
  {
    var verdicts := Verdicts(before, |before|, sel, niceval, me, env);
    forall j | 0 <= j < |verdicts| ensures verdicts[j] != -ESRCH {
      VerdictHasTask(before, |before|, sel, niceval, me, env, verdicts[j]);
    }
    CarryWithoutESRCH(verdicts);
    GetAfterSetIff(before, after, sel, niceval, me, env, got);
    forall i | 0 <= i < |before| && Selected(before[i], sel) ensures Verdict(before[i], niceval, me, env) == 0 {
      VerdictOfSelected(before, |before|, sel, niceval, me, env, i);
    }
  }

  // ------------------------------------------------- who, whether and what

  /** The clamped value is the nearest one in the range. */
  lemma {:induction false} ClampIsNearest(niceval: int, m: int)
    requires -20 <= m <= 19
    ensures -20 <= Clamp(niceval) <= 19 && Apart(niceval, Clamp(niceval)) <= Apart(niceval, m)
  {
  }

  function Apart(a: int, b: int): nat {
    if a < b then b - a else a - b
  }

  /** A process by its id, the leaders in a group, or the tasks of a user, each the caller's own for
      who = 0; nobody for a user that has no tasks on record. */
  lemma {:induction false} SelectedIff(t: Task, which: int, who: int, me: Task, users: set<int>)
    requires PRIO_PROCESS <= which <= PRIO_USER
    ensures Selected(t, Select(which, who, me, users)) <==>
            || (which == 0 && t.tid == if who == 0 then me.tid else who)
            || (which == 1 && t.groupLeader && t.pgid == if who == 0 then me.pgid else who)
            || (which == 2 && t.uid == (if who == 0 then me.uid else who)
                && (who == 0 || who == me.uid || who in users))
  {
  }

  /** me may change the priority of t: it is privileged, or t has its effective id as real or effective id. */
  predicate MayChange(t: Task, me: Task, env: Env) {
    env.capable || t.uid == me.euid || t.euid == me.euid
  }

  /** Nobody gets nicer to itself than it is allowed: only with can_nice does a nice value go down. */
  lemma {:induction false} LoweredOnlyIfAllowed(before: seq<Task>, after: seq<Task>, sel: Selector, niceval: int,
                                                me: Task, env: Env, i: nat)
    requires Reniced(before, after, |before|, sel, niceval, me, env) && i < |before|
    ensures after[i].nice < before[i].nice ==> env.canNice(before[i].tid)
  {
  }

  /** Which tasks end with which nice value, exactly; and nothing else about them changes. */
  lemma {:induction false} RenicedIff(before: seq<Task>, after: seq<Task>, sel: Selector, niceval: int,
                                      me: Task, env: Env, i: nat)
    requires Reniced(before, after, |before|, sel, niceval, me, env) && i < |before|
    ensures after[i] == before[i].(nice := after[i].nice)
    ensures after[i].nice != before[i].nice <==>
            && Selected(before[i], sel) && MayChange(before[i], me, env) && env.hook(before[i].tid) == 0
            && (niceval > before[i].nice || (niceval < before[i].nice && env.canNice(before[i].tid)))
    ensures after[i].nice == niceval || after[i].nice == before[i].nice
  {
  }

  /** A caller may always make a task of its own less urgent, if the hook accepts. */
  lemma {:induction false} OwnTaskMayYield(before: seq<Task>, after: seq<Task>, sel: Selector, niceval: int,
                                           me: Task, env: Env, i: nat)
    requires Reniced(before, after, |before|, sel, niceval, me, env) && i < |before|
    requires Selected(before[i], sel) && (before[i].uid == me.euid || before[i].euid == me.euid)
    requires before[i].nice <= niceval && env.hook(before[i].tid) == 0
    ensures after[i].nice == niceval && Verdict(before[i], niceval, me, env) == 0
  {
  }

  /** The error of a task, by its cause. */
  lemma {:induction false} VerdictByCause(t: Task, niceval: int, me: Task, env: Env)
    ensures !MayChange(t, me, env) ==> Verdict(t, niceval, me, env) == -EPERM
    ensures MayChange(t, me, env) && niceval < t.nice && !env.canNice(t.tid) ==> Verdict(t, niceval, me, env) == -EACCES
    ensures MayChange(t, me, env) && (niceval >= t.nice || env.canNice(t.tid)) ==>
              Verdict(t, niceval, me, env) == env.hook(t.tid)
  {
  }

  /** Task i is selected and refuses. */
  predicate Refuses(tasks: seq<Task>, i: nat, sel: Selector, niceval: int, me: Task, env: Env)
    requires i < |tasks|
  {
    Selected(tasks[i], sel) && Verdict(tasks[i], niceval, me, env) != 0
  }

  lemma {:induction false} LastErrorIsOf(tasks: seq<Task>, n: nat, sel: Selector, niceval: int, me: Task, env: Env,
                                         i: nat)
    requires i < n <= |tasks| && Refuses(tasks, i, sel, niceval, me, env)
    requires forall j :: i < j < n ==> !Refuses(tasks, j, sel, niceval, me, env)
    ensures LastError(Verdicts(tasks, n, sel, niceval, me, env)) == Verdict(tasks[i], niceval, me, env)
  {
    var verdicts := Verdicts(tasks, n, sel, niceval, me, env);
    if Selected(tasks[n - 1], sel) {
      assert verdicts[..|verdicts| - 1] == Verdicts(tasks, n - 1, sel, niceval, me, env);
    }
    if i < n - 1 {
      LastErrorIsOf(tasks, n - 1, sel, niceval, me, env, i);
      assert !Refuses(tasks, n - 1, sel, niceval, me, env);
    }
  }

  /** The answer is the error of the last selected task that refuses, where no hook refuses with -ESRCH. */
  lemma {:induction false} AnswerIsLastRefusal(tasks: seq<Task>, sel: Selector, niceval: int, me: Task, env: Env,
                                               i: nat)
    requires forall tid :: env.hook(tid) != -ESRCH
    requires i < |tasks| && Refuses(tasks, i, sel, niceval, me, env)
    requires forall j :: i < j < |tasks| ==> !Refuses(tasks, j, sel, niceval, me, env)
    ensures Carry(Verdicts(tasks, |tasks|, sel, niceval, me, env)) == Verdict(tasks[i], niceval, me, env)
  {
    LastErrorIsOf(tasks, |tasks|, sel, niceval, me, env, i);
    CarryIs(Verdicts(tasks, |tasks|, sel, niceval, me, env));
  }

  /** And then it is -ESRCH exactly if nobody is selected, and 0 exactly if somebody is and nobody refuses. */
  lemma {:induction false} AnswerWithoutRefusal(tasks: seq<Task>, sel: Selector, niceval: int, me: Task, env: Env)
    requires forall tid :: env.hook(tid) != -ESRCH
    ensures Carry(Verdicts(tasks, |tasks|, sel, niceval, me, env)) == -ESRCH <==>
            forall i :: 0 <= i < |tasks| ==> !Selected(tasks[i], sel)
    ensures Carry(Verdicts(tasks, |tasks|, sel, niceval, me, env)) == 0 <==>
            && (exists i :: 0 <= i < |tasks| && Selected(tasks[i], sel))
            && forall i :: 0 <= i < |tasks| ==> !Refuses(tasks, i, sel, niceval, me, env)
  {
    var verdicts := Verdicts(tasks, |tasks|, sel, niceval, me, env);
    forall k | 0 <= k < |verdicts| ensures verdicts[k] != -ESRCH {
      VerdictHasTask(tasks, |tasks|, sel, niceval, me, env, verdicts[k]);
    }
    CarryWithoutESRCH(verdicts);
    if verdicts != [] {
      VerdictHasTask(tasks, |tasks|, sel, niceval, me, env, verdicts[0]);
    }
    forall i | 0 <= i < |tasks| && Selected(tasks[i], sel)
      ensures exists k :: 0 <= k < |verdicts| && verdicts[k] == Verdict(tasks[i], niceval, me, env)
    {
      VerdictOfSelected(tasks, |tasks|, sel, niceval, me, env, i);
    }
    if forall i :: 0 <= i < |tasks| ==> !Refuses(tasks, i, sel, niceval, me, env) {
      forall k | 0 <= k < |verdicts| ensures verdicts[k] == 0 {
        VerdictHasTask(tasks, |tasks|, sel, niceval, me, env, verdicts[k]);
        var i :| 0 <= i < |tasks| && Selected(tasks[i], sel) && Verdict(tasks[i], niceval, me, env) == verdicts[k];
        assert !Refuses(tasks, i, sel, niceval, me, env);
      }
    }
  }

  // ------------------------------------------------------------- system calls

  class TaskList {
    var tasks: seq<Task>
    var users: set<int>              // users find_user knows

    constructor (tasks: seq<Task>, users: set<int>)
      ensures this.tasks == tasks && this.users == users
    {
      this.tasks := tasks;
      this.users := users;
    }

    /** set_one_prio on task i for the caller me: the carried error. */
    method SetOnePrio(i: nat, niceval: int, error: int, me: Task, env: Env) returns (ret: int)
      requires i < |tasks|
      modifies `tasks
      ensures var v := Verdict(old(tasks[i]), niceval, me, env);
              if v != 0 then ret == v && tasks == old(tasks)
              else ret == (if error == -ESRCH then 0 else error)
                   && tasks == old(tasks)[i := old(tasks[i]).(nice := niceval)]
    {
      var p := tasks[i];
      if p.uid != me.euid && p.euid != me.euid && !env.capable {
        return -EPERM;
      }
      if niceval < p.nice && !env.canNice(p.tid) {
        return -EACCES;
      }
      var noNice := env.hook(p.tid);
      if noNice != 0 {
        return noNice;
      }
      ret := if error == -ESRCH then 0 else error;
      tasks := tasks[i := p.(nice := niceval)];
    }

    /** find_task_by_vpid */
    method FindTask(tid: int) returns (found: bool, i: nat)
      ensures found ==> i < |tasks| && tasks[i].tid == tid
      ensures !found ==> forall j :: 0 <= j < |tasks| ==> tasks[j].tid != tid
    {
      i := 0;
      while i < |tasks|
        invariant i <= |tasks|
        invariant forall j :: 0 <= j < i ==> tasks[j].tid != tid
      {
        if tasks[i].tid == tid {
          return true, i;
        }
        i := i + 1;
      }
      return false, i;
    }

    /** The loops over the members of a group and over the tasks of a user. */
    method SetSelected(sel: Selector, niceval: int, me: Task, env: Env) returns (error: int)
      modifies `tasks
      ensures Reniced(old(tasks), tasks, |old(tasks)|, sel, niceval, me, env)
      ensures error == Carry(Verdicts(old(tasks), |old(tasks)|, sel, niceval, me, env))
    {
      ghost var before := tasks;
      error := -ESRCH;
      var i := 0;
      while i < |tasks|
        invariant i <= |tasks| == |before|
        invariant Reniced(before, tasks, i, sel, niceval, me, env)
        invariant error == Carry(Verdicts(before, i, sel, niceval, me, env))
      {
        if Selected(tasks[i], sel) {
          error := SetOnePrio(i, niceval, error, me, env);
        }
        RenicedNext(before, i, sel, niceval, me, env);
        i := i + 1;
      }
    }

    lemma OneVerdict(i: nat, n: nat, sel: Selector, niceval: int, me: Task, env: Env)
      requires Distinct(tasks) && i < |tasks| && n <= |tasks| && sel == ByTid(tasks[i].tid)
      ensures Verdicts(tasks, n, sel, niceval, me, env)
              == if i < n then [Verdict(tasks[i], niceval, me, env)] else []
    {
    }

    lemma NoVerdict(n: nat, sel: Selector, niceval: int, me: Task, env: Env)
      requires n <= |tasks| && forall j :: 0 <= j < |tasks| ==> !Selected(tasks[j], sel)
      ensures Verdicts(tasks, n, sel, niceval, me, env) == []
    {
    }

    /** sys_setpriority by task number me */
    method SysSetPriority(which: int, who: int, niceval: int, me: nat, env: Env) returns (error: int)
      requires Distinct(tasks) && me < |tasks|
      modifies `tasks
      ensures which < PRIO_PROCESS || which > PRIO_USER ==> error == -EINVAL && tasks == old(tasks)
      ensures PRIO_PROCESS <= which <= PRIO_USER ==>
                var caller, sel := old(tasks[me]), Select(which, who, old(tasks[me]), users);
                && Reniced(old(tasks), tasks, |old(tasks)|, sel, Clamp(niceval), caller, env)
                && error == Carry(Verdicts(old(tasks), |old(tasks)|, sel, Clamp(niceval), caller, env))
    {
      if which > PRIO_USER || which < PRIO_PROCESS {
        return -EINVAL;
      }
      error := -ESRCH;
      var nice := niceval;
      if nice < -20 {
        nice := -20;
      }
      if nice > 19 {
        nice := 19;
      }
      var caller := tasks[me];
      var sel := Select(which, who, caller, users);
      match sel
      case ByTid(tid) =>
        var found, i := FindTask(tid);
        if found {
          OneVerdict(i, |tasks|, sel, nice, caller, env);
          ghost var v := Verdict(tasks[i], nice, caller, env);
          assert [v][..0] == [];
          error := SetOnePrio(i, nice, error, caller, env);
        } else {
          NoVerdict(|tasks|, sel, nice, caller, env);
        }
      case Nobody =>
        NoVerdict(|tasks|, sel, nice, caller, env);
      case _ =>
        error := SetSelected(sel, nice, caller, env);
    }

    /** The loops of getpriority: the largest of 20 minus nice, or -ESRCH. */
    method BestSelected(sel: Selector) returns (retval: int)
      requires NiceInRange(tasks)
      ensures Best(tasks, |tasks|, sel, retval)
    {
      retval := -ESRCH;
      var i := 0;
      while i < |tasks|
        invariant i <= |tasks| && Best(tasks, i, sel, retval) && retval >= -ESRCH
      {
        if Selected(tasks[i], sel) {
          var niceval := 20 - tasks[i].nice;
          if niceval > retval {
            retval := niceval;
          }
        }
        i := i + 1;
      }
    }

    /** sys_getpriority by task number me */
    method SysGetPriority(which: int, who: int, me: nat) returns (retval: int)
      requires NiceInRange(tasks) && Distinct(tasks) && me < |tasks|
      ensures which < PRIO_PROCESS || which > PRIO_USER ==> retval == -EINVAL
      ensures PRIO_PROCESS <= which <= PRIO_USER ==>
                Best(tasks, |tasks|, Select(which, who, tasks[me], users), retval)
    {
      if which > PRIO_USER || which < PRIO_PROCESS {
        return -EINVAL;
      }
      retval := -ESRCH;
      var sel := Select(which, who, tasks[me], users);
      match sel
      case ByTid(tid) =>
        var found, i := FindTask(tid);
        if found {
          var niceval := 20 - tasks[i].nice;
          if niceval > retval {
            retval := niceval;
          }
        }
      case Nobody =>
      case _ =>
        retval := BestSelected(sel);
    }
  }
}

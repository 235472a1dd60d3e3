/** Process groups and sessions: sys_setpgid and sys_setsid of sys.c on a table of
    processes that also forks and ends processes. */
module ProcessGroups {
  import opened Errno

  /** A process, that is a thread group: its group, its session, whether it is marked as a
      session leader, its real parent, and whether it has executed a new program. */
  datatype Process = Process(pgid: int, sid: int, leader: bool, parent: int, didExec: bool)

  /** Processes by pid, and the threads that are not thread-group leaders with the process
      they belong to. */
  datatype Table = Table(procs: map<int, Process>, threads: map<int, int>)

  ghost predicate InGroup(t: Table, p: int, pgid: int) {
    p in t.procs && t.procs[p].pgid == pgid
  }

  /** All members of the group, and there is one, are in session sid. */
  ghost predicate GroupInSession(t: Table, pgid: int, sid: int) {
    && (exists g :: InGroup(t, g, pgid))
    && (forall g :: InGroup(t, g, pgid) ==> t.procs[g].sid == sid)
  }

  // ---------------------------------------------------------------- invariant

  /** All members of a group share one session. */
  ghost predicate OneSession(t: Table) {
    forall p, q :: p in t.procs && q in t.procs && t.procs[p].pgid == t.procs[q].pgid ==>
      t.procs[p].sid == t.procs[q].sid
  }

  /** A live process whose pid names a group is in the session of that group. */
  ghost predicate NamesOwnSession(t: Table) {
    forall p, q :: p in t.procs && q in t.procs && t.procs[q].pgid == p ==> t.procs[p].sid == t.procs[q].sid
  }

  /** A session leader leads its group too. */
  ghost predicate LeadersLead(t: Table) {
    forall p :: p in t.procs && t.procs[p].leader ==> t.procs[p].pgid == p && t.procs[p].sid == p
  }

  /** A live process whose pid is in use as a session is a leader. */
  ghost predicate SessionsAreLed(t: Table) {
    forall p, q :: p in t.procs && q in t.procs && t.procs[q].sid == p ==> t.procs[p].leader
  }

  /** What the code relies on without saying so. */
  ghost predicate Inv(t: Table) {
    OneSession(t) && NamesOwnSession(t) && LeadersLead(t) && SessionsAreLed(t)
  }

  /** A number that is not in use as a pid, a thread id, a group or a session. */
  ghost predicate Unused(t: Table, n: int) {
    && n > 0 && n !in t.procs && n !in t.threads
    && forall q :: q in t.procs ==> t.procs[q].pgid != n && t.procs[q].sid != n
  }

  // ------------------------------------------------------------------- steps

  /** What setpgid answers, for a caller in process me: the checks in the order of the
      source, with the group to be joined judged by all of its members. */
  ghost function SetPgidError(t: Table, me: int, pid0: int, pgid0: int, secErr: int): int
    requires me in t.procs
  {
    var pid := if pid0 == 0 then me else pid0;
    var pgid := if pgid0 == 0 then pid else pgid0;
    if pgid < 0 then -EINVAL
    else if pid in t.threads then -EINVAL
    else if pid !in t.procs then -ESRCH
    else
      var p := t.procs[pid];
      if p.parent == me && p.sid != t.procs[me].sid then -EPERM
      else if p.parent == me && p.didExec then -EACCES
      else if p.parent != me && pid != me then -ESRCH
      else if p.leader then -EPERM
      else if pgid != pid && !GroupInSession(t, pgid, t.procs[me].sid) then -EPERM
      else secErr
  }

  /** Process p in group pgid, and everything else the same. */
  ghost function Moved(t: Table, p: int, pgid: int): Table
    requires p in t.procs
  {
    t.(procs := t.procs[p := t.procs[p].(pgid := pgid)])
  }

  ghost function SetPgid(t: Table, me: int, pid0: int, pgid0: int, secErr: int): Table
    requires me in t.procs
  {
    var pid := if pid0 == 0 then me else pid0;
    var pgid := if pgid0 == 0 then pid else pgid0;
    if SetPgidError(t, me, pid0, pgid0, secErr) != 0 then t
    else Moved(t, pid, pgid)
  }

  /** setsid is refused to a leader and to a process whose pid names a group that has members. */
  ghost predicate MaySetSid(t: Table, me: int)
    requires me in t.procs
  {
    !t.procs[me].leader && forall g :: !InGroup(t, g, me)
  }

  ghost function SetSid(t: Table, me: int): Table
    requires me in t.procs
  {
    if !MaySetSid(t, me) then t
    else t.(procs := t.procs[me := t.procs[me].(leader := true, sid := me, pgid := me)])
  }

  ghost function Fork(t: Table, parent: int, child: int): Table
    requires parent in t.procs
  {
    t.(procs := t.procs[child := t.procs[parent].(leader := false, parent := parent, didExec := false)])
  }

  /** A process ends, with its threads; its children get another parent. */
  ghost function Exit(t: Table, p: int, reaper: int): Table {
    Table(map q | q in t.procs && q != p ::
            if t.procs[q].parent == p then t.procs[q].(parent := reaper) else t.procs[q],
          map n | n in t.threads && t.threads[n] != p :: t.threads[n])
  }

  datatype Event =
    | SetPgidCall(me: int, pid: int, pgid: int, secErr: int)
    | SetSidCall(me: int)
    | Forked(parent: int, child: int)
    | ThreadStarted(me: int, tid: int)
    | Executed(me: int)
    | Exited(p: int, reaper: int)

  /** One event: a call by a live process, or a step of its environment. */
  ghost predicate Enabled(t: Table, e: Event) {
    match e
    case SetPgidCall(me, _, _, _) => me in t.procs
    case SetSidCall(me) => me in t.procs
    case Forked(parent, child) => parent in t.procs && Unused(t, child)
    case ThreadStarted(me, tid) => me in t.procs && Unused(t, tid)
    case Executed(me) => me in t.procs
    case Exited(p, _) => p in t.procs
  }

  ghost function Step(t: Table, e: Event): Table
    requires Enabled(t, e)
  {
    match e
    case SetPgidCall(me, pid, pgid, secErr) => SetPgid(t, me, pid, pgid, secErr)
    case SetSidCall(me) => SetSid(t, me)
    case Forked(parent, child) => Fork(t, parent, child)
    case ThreadStarted(me, tid) => t.(threads := t.threads[tid := me])
    case Executed(me) => t.(procs := t.procs[me := t.procs[me].(didExec := true)])
    case Exited(p, reaper) => Exit(t, p, reaper)
  }

  /** The tables a run goes through, the first included. */
  ghost predicate IsRun(tables: seq<Table>, events: seq<Event>) {
    && |tables| == |events| + 1
    && forall i :: 0 <= i < |events| ==> Enabled(tables[i], events[i]) && tables[i + 1] == Step(tables[i], events[i])
  }

  // ----------------------------------------------------- the invariant holds

  /** Every member of the group, and the live process it is named after, is in the session of p. */
  ghost predicate InSessionOf(t: Table, p: int, pgid: int)
    requires p in t.procs
  {
    forall q :: q in t.procs && (t.procs[q].pgid == pgid || q == pgid) ==> t.procs[q].sid == t.procs[p].sid
  }

  /** Which moves the invariant allows, exactly: a leader only to its own group, and any process only
      to a group that has its members and its name in the session of the process. */
  lemma {:induction false} RegroupKeepsInvIff(t: Table, p: int, pgid: int)
    requires Inv(t) && p in t.procs
    ensures Inv(Moved(t, p, pgid)) <==> (t.procs[p].leader ==> pgid == p) && InSessionOf(t, p, pgid)
  {
    var u := Moved(t, p, pgid);
    assert forall q :: q in t.procs ==> u.procs[q].sid == t.procs[q].sid && u.procs[q].leader == t.procs[q].leader;
    if (t.procs[p].leader ==> pgid == p) && InSessionOf(t, p, pgid) {
      assert OneSession(u);
      assert NamesOwnSession(u);
    }
    if Inv(u) {
      assert u.procs[p].pgid == pgid;
      forall q | q in t.procs && (t.procs[q].pgid == pgid || q == pgid)
        ensures t.procs[q].sid == t.procs[p].sid
      {
        assert q != p ==> u.procs[q] == t.procs[q];
      }
    }
  }

  lemma {:induction false} SetPgidKeepsInv(t: Table, me: int, pid0: int, pgid0: int, secErr: int)
    requires Inv(t) && me in t.procs
    ensures Inv(SetPgid(t, me, pid0, pgid0, secErr))
  {
    var pid := if pid0 == 0 then me else pid0;
    var pgid := if pgid0 == 0 then pid else pgid0;
    if SetPgidError(t, me, pid0, pgid0, secErr) == 0 {
      if pgid != pid {
        var g :| InGroup(t, g, pgid);
      }
      RegroupKeepsInvIff(t, pid, pgid);
    }
  }

  /** The new session: its pid is in use neither as a group nor as a session. */
  lemma {:induction false} SetSidKeepsInv(t: Table, me: int)
    requires Inv(t) && me in t.procs
    ensures Inv(SetSid(t, me))
  {
    if MaySetSid(t, me) {
      forall q | q in t.procs ensures t.procs[q].pgid != me && t.procs[q].sid != me {
        assert !InGroup(t, q, me);
      }
    }
  }

  lemma {:induction false} ForkKeepsInv(t: Table, parent: int, child: int)
    requires Inv(t) && parent in t.procs && Unused(t, child)
    ensures Inv(Fork(t, parent, child))
  {
    var u := Fork(t, parent, child);
    assert forall q :: q in t.procs ==> u.procs[q] == t.procs[q];
    assert OneSession(u);
    assert NamesOwnSession(u);
    assert SessionsAreLed(u);
  }

  /** Taking processes away, and changing anything else but the ids, keeps the invariant. */
  lemma {:induction false} SmallerKeepsInv(t: Table, u: Table)
    requires Inv(t) && u.procs.Keys <= t.procs.Keys
    requires forall q :: q in u.procs ==> SameIds(u.procs[q], t.procs[q])
    ensures Inv(u)
  {
    assert OneSession(u);
    assert NamesOwnSession(u);
    assert SessionsAreLed(u);
  }

  ghost predicate SameIds(p: Process, q: Process) {
    p.pgid == q.pgid && p.sid == q.sid && p.leader == q.leader
  }

  lemma {:induction false} StepKeepsInv(t: Table, e: Event)
    requires Inv(t) && Enabled(t, e)
    ensures Inv(Step(t, e))
  {
    match e
    case SetPgidCall(me, pid, pgid, secErr) => SetPgidKeepsInv(t, me, pid, pgid, secErr);
    case SetSidCall(me) => SetSidKeepsInv(t, me);
    case Forked(parent, child) => ForkKeepsInv(t, parent, child);
    case ThreadStarted(_, _) => SmallerKeepsInv(t, Step(t, e));
    case Executed(_) => SmallerKeepsInv(t, Step(t, e));
    case Exited(_, _) => SmallerKeepsInv(t, Step(t, e));
  }

  lemma {:induction false} RunKeepsInv(tables: seq<Table>, events: seq<Event>, i: nat)
    requires IsRun(tables, events) && Inv(tables[0]) && i < |tables|
    ensures Inv(tables[i])
  {
    if i > 0 {
      RunKeepsInv(tables, events, i - 1);
      StepKeepsInv(tables[i - 1], events[i - 1]);
    }
  }

  // ------------------------------------------------------------ main results

  /** Any one member of a group tells the session of all of them: the test of the single
      member g that sys_setpgid makes decides the same as a test of the whole group. */
  lemma OneMemberSuffices(t: Table, pgid: int, sid: int, g: int)
    requires Inv(t) && InGroup(t, g, pgid)
    ensures t.procs[g].sid == sid <==> GroupInSession(t, pgid, sid)
  {
  }

  /** Whom setpgid may move where, for a caller in process me: itself or a child of it that is in its
      session and has not executed, if it leads no session, to a group of its own or to one with a
      member in the session of the caller. */
  ghost predicate MayMove(t: Table, me: int, pid: int, pgid: int)
    requires me in t.procs
  {
    && pgid >= 0 && pid in t.procs && pid !in t.threads && !t.procs[pid].leader
    && (pid == me || t.procs[pid].parent == me)
    && (t.procs[pid].parent == me ==> t.procs[pid].sid == t.procs[me].sid && !t.procs[pid].didExec)
    && (pgid == pid || exists g :: InGroup(t, g, pgid) && t.procs[g].sid == t.procs[me].sid)
  }

  /** The pid and group that a call names, 0 for the caller and for the group of the pid's own. */
  function Named(me: int, pid0: int, pgid0: int): (int, int) {
    var pid := if pid0 == 0 then me else pid0;
    (pid, if pgid0 == 0 then pid else pgid0)
  }

  /** setpgid does so exactly if it may and the hook accepts; the refusal of the hook is its answer,
      and whenever it refuses nothing moves. */
  lemma {:induction false} SetPgidSucceedsIff(t: Table, me: int, pid0: int, pgid0: int, secErr: int)
    requires Inv(t) && me in t.procs
    ensures var (pid, pgid) := Named(me, pid0, pgid0);
            var error, after := SetPgidError(t, me, pid0, pgid0, secErr), SetPgid(t, me, pid0, pgid0, secErr);
            && (error == 0 <==> MayMove(t, me, pid, pgid) && secErr == 0)
            && (MayMove(t, me, pid, pgid) ==> error == secErr)
            && (error != 0 ==> after == t)
            && (error == 0 ==>
                  after.threads == t.threads && after.procs == t.procs[pid := t.procs[pid].(pgid := pgid)])
  {
    var (pid, pgid) := Named(me, pid0, pgid0);
    if pid in t.procs && pgid != pid {
      var sid := t.procs[me].sid;
      if g :| InGroup(t, g, pgid) && t.procs[g].sid == sid {
        OneMemberSuffices(t, pgid, sid, g);
      }
    }
  }

  /** The refusals, as the checks come one after the other. */
  lemma {:induction false} SetPgidRefusals(t: Table, me: int, pid0: int, pgid0: int, secErr: int)
    requires Inv(t) && me in t.procs
    ensures var (pid, pgid) := Named(me, pid0, pgid0);
            var error := SetPgidError(t, me, pid0, pgid0, secErr);
            && (pgid < 0 ==> error == -EINVAL)
            && (pgid >= 0 && pid !in t.procs && pid !in t.threads ==> error == -ESRCH)
            && (pgid >= 0 && pid in t.threads ==> error == -EINVAL)
            && (pgid >= 0 && pid in t.procs && pid !in t.threads ==>
                  var p := t.procs[pid];
                  && (pid != me && p.parent != me ==> error == -ESRCH)
                  && (p.parent == me && p.sid != t.procs[me].sid ==> error == -EPERM)
                  && (p.parent == me && p.sid == t.procs[me].sid && p.didExec ==> error == -EACCES)
                  && ((p.parent == me ==> p.sid == t.procs[me].sid && !p.didExec) && (pid == me || p.parent == me) ==>
                        && (p.leader ==> error == -EPERM)
                        && (!MayMove(t, me, pid, pgid) ==> error == -EPERM)))
  {
    SetPgidSucceedsIff(t, me, pid0, pgid0, 0);
  }

  /** A shell puts the children it has just forked into one group: the first into a group of its own,
      the next into that of the first. */
  lemma {:induction false} ShellMakesJob(t: Table, me: int, a: int, b: int)
    requires Inv(t) && me in t.procs && me > 0 && Unused(t, a) && Unused(Fork(t, me, a), b)
    ensures var t1 := Fork(Fork(t, me, a), me, b);
            var t2 := SetPgid(t1, me, a, 0, 0);
            var t3 := SetPgid(t2, me, b, a, 0);
            && SetPgidError(t1, me, a, 0, 0) == 0 && SetPgidError(t2, me, b, a, 0) == 0
            && t3.procs[a].pgid == a && t3.procs[b].pgid == a
  {
    var t1 := Fork(Fork(t, me, a), me, b);
    ForkKeepsInv(t, me, a);
    ForkKeepsInv(Fork(t, me, a), me, b);
    SetPgidSucceedsIff(t1, me, a, 0, 0);
    var t2 := SetPgid(t1, me, a, 0, 0);
    SetPgidKeepsInv(t1, me, a, 0, 0);
    assert InGroup(t2, a, a);
    SetPgidSucceedsIff(t2, me, b, a, 0);
  }

  /** setsid succeeds exactly if no process is in a group named after the caller; then the caller leads
      a session and a group of its own, and otherwise nothing changes. */
  lemma {:induction false} SetSidSucceedsIff(t: Table, me: int)
    requires Inv(t) && me in t.procs
    ensures MaySetSid(t, me) <==> forall q :: q in t.procs ==> t.procs[q].pgid != me
    ensures SetSid(t, me).threads == t.threads
    ensures SetSid(t, me).procs ==
            if MaySetSid(t, me) then t.procs[me := t.procs[me].(leader := true, sid := me, pgid := me)] else t.procs
  {
    if MaySetSid(t, me) {
      forall q | q in t.procs ensures t.procs[q].pgid != me {
        assert !InGroup(t, q, me);
      }
    }
  }

  /** A child is in the group and session of its parent and no leader, and so may always start a
      session; its fork and the end of another process leave the rest as they are. */
  lemma {:induction false} ForkInherits(t: Table, parent: int, child: int)
    requires Inv(t) && parent in t.procs && Unused(t, child)
    ensures var u := Fork(t, parent, child);
            && u.procs[child] == Process(t.procs[parent].pgid, t.procs[parent].sid, false, parent, false)
            && (forall q :: q in t.procs ==> u.procs[q] == t.procs[q]) && u.procs.Keys == t.procs.Keys + {child}
            && u.threads == t.threads && MaySetSid(u, child)
  {
  }

  lemma {:induction false} ExitLeavesOthers(t: Table, p: int, reaper: int)
    requires p in t.procs
    ensures var u := Exit(t, p, reaper);
            && u.procs.Keys == t.procs.Keys - {p}
            && (forall q :: q in u.procs ==>
                  u.procs[q] == t.procs[q].(parent := if t.procs[q].parent == p then reaper else t.procs[q].parent))
            && forall n :: n in u.threads <==> n in t.threads && t.threads[n] != p
  {
  }

  /** A child that has executed can no longer be moved by its parent, and a thread never. */
  lemma {:induction false} ExecutedStays(t: Table, me: int, child: int, pgid: int, secErr: int)
    requires Inv(t) && me in t.procs && child in t.procs && child !in t.threads && child > 0 && pgid >= 0
    requires t.procs[child].parent == me && t.procs[child].sid == t.procs[me].sid
    ensures SetPgidError(Step(t, Executed(child)), me, child, pgid, secErr) == -EACCES
  {
  }

  lemma {:induction false} ThreadIsNotMoved(t: Table, me: int, tid: int, pgid: int, secErr: int)
    requires Inv(t) && me in t.procs && Unused(t, tid) && pgid >= 0
    ensures SetPgidError(Step(t, ThreadStarted(me, tid)), me, tid, pgid, secErr) == -EINVAL
    ensures Step(t, ThreadStarted(me, tid)).procs == t.procs
  {
  }

  /** What a successful setpgid has done: the caller itself or a child of it that has not
      executed a program and leads no session is now in the group, all of the group is in the
      caller's session, and nothing else has changed. */
  lemma {:induction false} SetPgidEffect(t: Table, me: int, pid0: int, pgid0: int)
    requires Inv(t) && me in t.procs && SetPgidError(t, me, pid0, pgid0, 0) == 0
    ensures var pid := if pid0 == 0 then me else pid0;
            var pgid := if pgid0 == 0 then pid else pgid0;
            var u := SetPgid(t, me, pid0, pgid0, 0);
            && pid in t.procs && !t.procs[pid].leader
            && (pid == me || (t.procs[pid].parent == me && !t.procs[pid].didExec))
            && u.procs.Keys == t.procs.Keys && InGroup(u, pid, pgid)
            && GroupInSession(u, pgid, t.procs[me].sid)
            && (forall q :: q in t.procs && q != pid ==> u.procs[q] == t.procs[q])
  {
    var pid := if pid0 == 0 then me else pid0;
    var pgid := if pgid0 == 0 then pid else pgid0;
    var u := SetPgid(t, me, pid0, pgid0, 0);
    SetPgidKeepsInv(t, me, pid0, pgid0, 0);
    assert InGroup(u, pid, pgid);
  }

  /** In every run the members of a group share one session, at every moment. */
  lemma {:induction false} GroupsShareSession(tables: seq<Table>, events: seq<Event>, i: nat, p: int, q: int)
    requires IsRun(tables, events) && Inv(tables[0]) && i < |tables|
    requires p in tables[i].procs && q in tables[i].procs
    requires tables[i].procs[p].pgid == tables[i].procs[q].pgid
    ensures tables[i].procs[p].sid == tables[i].procs[q].sid
  {
    RunKeepsInv(tables, events, i);
  }

  /** In every run a successful setsid makes a session and a group to which no other process
      belongs, and to which none belonged before. */
  lemma {:induction false} SetSidIsAlone(tables: seq<Table>, events: seq<Event>, i: nat, me: int)
    requires IsRun(tables, events) && Inv(tables[0]) && i < |events|
    requires events[i] == SetSidCall(me) && MaySetSid(tables[i], me)
    ensures var u := tables[i + 1];
            && u.procs[me].leader && u.procs[me].sid == me && u.procs[me].pgid == me
            && forall q :: q in u.procs && q != me ==> u.procs[q].sid != me && u.procs[q].pgid != me
    ensures forall q :: q in tables[i].procs ==> tables[i].procs[q].sid != me && tables[i].procs[q].pgid != me
  {
    RunKeepsInv(tables, events, i);
    forall q | q in tables[i].procs ensures tables[i].procs[q].pgid != me && tables[i].procs[q].sid != me {
      assert !InGroup(tables[i], q, me);
    }
  }

  /** A step takes the lead from no process that stays alive. */
  lemma LeaderStaysOneStep(t: Table, e: Event, p: int)
    requires Inv(t) && Enabled(t, e) && p in t.procs && p in Step(t, e).procs && t.procs[p].leader
    ensures Step(t, e).procs[p].leader
  {
  }

  /** In every run a session leader stays a leader, with pid, group and session the same,
      for as long as it lives. */
  lemma {:induction false} LeaderStays(tables: seq<Table>, events: seq<Event>, i: nat, j: nat, p: int)
    requires IsRun(tables, events) && Inv(tables[0]) && i <= j < |tables|
    requires forall k :: i <= k <= j ==> p in tables[k].procs
    requires tables[i].procs[p].leader
    ensures tables[j].procs[p].leader && tables[j].procs[p].pgid == p && tables[j].procs[p].sid == p
    decreases j
  {
    RunKeepsInv(tables, events, j);
    if i < j {
      LeaderStays(tables, events, i, j - 1, p);
      RunKeepsInv(tables, events, j - 1);
      LeaderStaysOneStep(tables[j - 1], events[j - 1], p);
    }
  }

  /** Nothing but its own setsid takes a live process to another session. */
  lemma SessionChangesBySetSidOnly(t: Table, e: Event, p: int)
    requires Enabled(t, e) && p in t.procs && p in Step(t, e).procs
    ensures Step(t, e).procs[p].sid == t.procs[p].sid || (e == SetSidCall(p) && MaySetSid(t, p))
    ensures Step(t, e).procs[p].pgid != t.procs[p].pgid ==> e.SetPgidCall? || e == SetSidCall(p)
  {
  }

  /** The rule for new pids is needed: with the number of an orphaned session given to a new
      process, its setsid is allowed and yields a session that has another member. */
  lemma {:induction false} ReusedPidSharesSession()
    ensures var t := Table(map[1 := Process(1, 1, true, 0, true), 7 := Process(7, 5, false, 1, true)], map[]);
            var u := SetSid(Fork(t, 1, 5), 5);
            && Inv(t) && 5 !in t.procs && !Unused(t, 5)
            && MaySetSid(Fork(t, 1, 5), 5) && u.procs[5].sid == 5 && u.procs[7].sid == 5
  {
    var t := Table(map[1 := Process(1, 1, true, 0, true), 7 := Process(7, 5, false, 1, true)], map[]);
    assert t.procs[7].sid == 5;
    var f := Fork(t, 1, 5);
    assert forall g :: g in f.procs ==> g in {1, 5, 7};
  }

  // ------------------------------------------------------------- system calls

  class ProcessTable {
    var procs: map<int, Process>     // tasks that are thread-group leaders, by pid
    var threads: map<int, int>       // other tasks, with the process they belong to

    ghost function View(): Table
      reads this
    {
      Table(procs, threads)
    }

    /** One process, the leader of its session. */
    constructor (init: int)
      ensures Inv(View()) && procs.Keys == {init} && procs[init].leader
    {
      procs := map[init := Process(init, init, true, 0, true)];
      threads := map[];
    }

    /** pid_task(pgrp, PIDTYPE_PGID): some member of the group, -1 for NULL. */
    method PidTask(pgid: int) returns (found: bool, g: int)
      ensures found ==> g in procs && procs[g].pgid == pgid
      ensures !found ==> forall q :: q in procs ==> procs[q].pgid != pgid
    {
      if q :| q in procs && procs[q].pgid == pgid {
        return true, q;
      }
      return false, -1;
    }

    /** sys_setpgid by a thread of process me; secErr is what security_task_setpgid answers. */
    method SysSetPgid(me: int, pid0: int, pgid0: int, secErr: int) returns (err: int)
      requires Inv(View()) && me in procs
      modifies this
      ensures err == SetPgidError(old(View()), me, pid0, pgid0, secErr)
      ensures View() == SetPgid(old(View()), me, pid0, pgid0, secErr)
      ensures Inv(View())
    {
      SetPgidKeepsInv(View(), me, pid0, pgid0, secErr);
      var pid, pgid := pid0, pgid0;
      if pid == 0 {
        pid := me;
      }
      if pgid == 0 {
        pgid := pid;
      }
      if pgid < 0 {
        return -EINVAL;
      }
      if pid in threads {
        return -EINVAL;
      }
      if pid !in procs {
        return -ESRCH;
      }
      var p := procs[pid];
      if p.parent == me {
        if p.sid != procs[me].sid {
          return -EPERM;
        }
        if p.didExec {
          return -EACCES;
        }
      } else {
        if pid != me {
          return -ESRCH;
        }
      }
      if p.leader {
        return -EPERM;
      }
      if pgid != pid {
        var found, g := PidTask(pgid);
        if found {
          OneMemberSuffices(View(), pgid, procs[me].sid, g);
        }
        if !found || procs[g].sid != procs[me].sid {
          return -EPERM;
        }
      }
      err := secErr;
      if err != 0 {
        return err;
      }
      if p.pgid != pgid {
        procs := procs[pid := p.(pgid := pgid)];
      }
      err := 0;
    }

    /** sys_setsid by a thread of process me: the new session, or -EPERM. */
    method SysSetSid(me: int) returns (ret: int)
      requires Inv(View()) && me in procs
      modifies this
      ensures ret == if MaySetSid(old(View()), me) then me else -EPERM
      ensures View() == SetSid(old(View()), me)
      ensures Inv(View())
    {
      ghost var before := View();
      SetSidKeepsInv(before, me);
      if procs[me].leader {
        return -EPERM;
      }
      var found, g := PidTask(me);
      if found {
        assert InGroup(before, g, me);
        return -EPERM;
      }
      assert MaySetSid(before, me);
      procs := procs[me := procs[me].(leader := true)];
      procs := procs[me := procs[me].(sid := me, pgid := me)];      // __set_special_pids
      ret := me;
    }
  }
}

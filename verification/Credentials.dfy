/** The set*uid and set*gid family of sys.c as a transition system over real, effective,
    saved and file-system ids. */
module Credentials {
  import opened Errno

  /** uid_t and gid_t are unsigned 32-bit numbers; (uid_t) -1 stands for "leave as it is". */
  type Id = x: int | 0 <= x < 0x1_0000_0000 witness 0
  const NONE: Id := 0xFFFF_FFFF

  /** Real, effective, saved and file-system id. */
  datatype Ids = Ids(r: Id, e: Id, s: Id, f: Id)

  /** Outcome of a call: what it returns, the ids, and whether it made the memory of the
      process undumpable. */
  datatype Outcome = Outcome(ret: int, ids: Ids, cleared: bool)

  /** What a call depends on beside its arguments: the answer of the security hook, the
      capability, and whether the new real user has room for one more process. */
  datatype Env = Env(secErr: int, capable: bool, room: bool)

  datatype Call =
    | SetRe(r: Id, e: Id)
    | SetId(u: Id)
    | SetRes(r: Id, e: Id, s: Id)
    | SetFs(u: Id)

  predicate NotHeld(x: Id, a: Id, b: Id, c: Id) {
    x != NONE && x != a && x != b && x != c
  }

  /** Without the capability only NONE and the three ids a, b, c may be asked for. */
  ghost predicate Refused(capable: bool, x: Id, a: Id, b: Id, c: Id) {
    !capable && NotHeld(x, a, b, c)
  }

  ghost function OrElse(x: Id, current: Id): Id {
    if x != NONE then x else current
  }

  /** setreuid and setregid */
  ghost function AfterSetRe(ids: Ids, r: Id, e: Id, env: Env): Outcome {
    var r', e' := OrElse(r, ids.r), OrElse(e, ids.e);
    if env.secErr != 0 then Outcome(env.secErr, ids, false)
    else if Refused(env.capable, r, ids.r, ids.e, ids.e) then Outcome(-EPERM, ids, false)
    else if Refused(env.capable, e, ids.r, ids.e, ids.s) then Outcome(-EPERM, ids, false)
    else if r' != ids.r && !env.room then Outcome(-EAGAIN, ids, false)
    else
      var s' := if r != NONE || (e != NONE && e != ids.r) then e' else ids.s;
      Outcome(0, Ids(r', e', s', e'), e' != ids.e)
  }

  /** setuid and setgid */
  ghost function AfterSetId(ids: Ids, u: Id, env: Env): Outcome {
    if env.secErr != 0 then Outcome(env.secErr, ids, false)
    else if env.capable then
      if u != ids.r && !env.room then Outcome(-EAGAIN, ids, false)
      else Outcome(0, Ids(u, u, u, u), u != ids.e)
    else if u != ids.r && u != ids.s then Outcome(-EPERM, ids, false)
    else Outcome(0, Ids(ids.r, u, ids.s, u), u != ids.e)
  }

  /** setresuid and setresgid */
  ghost function AfterSetRes(ids: Ids, r: Id, e: Id, s: Id, env: Env): Outcome {
    if env.secErr != 0 then Outcome(env.secErr, ids, false)
    else if Refused(env.capable, r, ids.r, ids.e, ids.s) then Outcome(-EPERM, ids, false)
    else if Refused(env.capable, e, ids.r, ids.e, ids.s) then Outcome(-EPERM, ids, false)
    else if Refused(env.capable, s, ids.r, ids.e, ids.s) then Outcome(-EPERM, ids, false)
    else if OrElse(r, ids.r) != ids.r && !env.room then Outcome(-EAGAIN, ids, false)
    else
      var ids' := Ids(OrElse(r, ids.r), OrElse(e, ids.e), OrElse(s, ids.s), OrElse(e, ids.e));
      Outcome(0, ids', ids'.e != ids.e || (ids'.r != ids.r && e != ids.e))
  }

  /** setfsuid and setfsgid: always answers the former id. */
  ghost function AfterSetFs(ids: Ids, u: Id, env: Env): Outcome {
    if env.secErr == 0 && (env.capable || u in {ids.r, ids.e, ids.s, ids.f}) then
      Outcome(ids.f, ids.(f := u), u != ids.f)
    else Outcome(ids.f, ids, false)
  }

  ghost function After(ids: Ids, c: Call, env: Env): Outcome {
    match c
    case SetRe(r, e) => AfterSetRe(ids, r, e, env)
    case SetId(u) => AfterSetId(ids, u, env)
    case SetRes(r, e, s) => AfterSetRes(ids, r, e, s, env)
    case SetFs(u) => AfterSetFs(ids, u, env)
  }

  // ---------------------------------------------------------------- one call

  ghost function Held(ids: Ids): set<Id> {
    {ids.r, ids.e, ids.s}
  }

  /** A call other than setfs that does not answer 0 changes nothing. */
  lemma FailureChangesNothing(ids: Ids, c: Call, env: Env)
    ensures !c.SetFs? && After(ids, c, env).ret != 0 ==> After(ids, c, env).ids == ids && !After(ids, c, env).cleared
  {
  }

  /** A call other than setfs that answers 0 leaves the file-system id equal to the effective one. */
  lemma FsFollowsEffective(ids: Ids, c: Call, env: Env)
    ensures !c.SetFs? && After(ids, c, env).ret == 0 ==> After(ids, c, env).ids.f == After(ids, c, env).ids.e
  {
  }

  /** No call changes the effective id, and setfs not the file-system id, without making
      the process undumpable. */
  lemma NewIdentityIsUndumpable(ids: Ids, c: Call, env: Env)
    ensures After(ids, c, env).ids.e != ids.e ==> After(ids, c, env).cleared
    ensures c.SetFs? && After(ids, c, env).ids.f != ids.f ==> After(ids, c, env).cleared
  {
  }

  /** Without the capability no call brings in an id that was not held. */
  lemma UnprivilegedCallConfined(ids: Ids, c: Call, env: Env)
    requires !env.capable
    ensures Held(After(ids, c, env).ids) <= Held(ids)
    ensures After(ids, c, env).ids.f in Held(ids) + {ids.f}
  {
  }

  // What each call sets, for whom it does, and when it clears the dumpable flag.

  /** x asks for no change, or for an id among those given. */
  predicate AsksFor(x: Id, allowed: set<Id>) {
    x == NONE || x in allowed
  }

  /** A new real user has room for one more process. */
  predicate HasRoom(r: Id, ids: Ids, env: Env) {
    r == NONE || r == ids.r || env.room
  }

  /** setreuid: without the capability the real id may become the real or effective one, the effective
      id any of the three. The saved id becomes the new effective one if the real id is asked for at
      all, or an effective id other than the real one. */
  lemma {:induction false} SetReEffect(ids: Ids, r: Id, e: Id, env: Env)
    ensures var o := After(ids, SetRe(r, e), env);
            var allowed := env.capable || (AsksFor(r, {ids.r, ids.e}) && AsksFor(e, Held(ids)));
            && (o.ret == 0 <==> env.secErr == 0 && allowed && HasRoom(r, ids, env))
            && (env.secErr != 0 ==> o.ret == env.secErr)
            && (env.secErr == 0 && o.ret != 0 ==> o.ret == if !allowed then -EPERM else -EAGAIN)
            && (o.ret == 0 ==>
                  && (if r == NONE then o.ids.r == ids.r else o.ids.r == r)
                  && (if e == NONE then o.ids.e == ids.e else o.ids.e == e)
                  && (if r != NONE || (e != NONE && e != ids.r) then o.ids.s == o.ids.e else o.ids.s == ids.s)
                  && o.ids.f == o.ids.e && (o.cleared <==> o.ids.e != ids.e))
  {
  }

  /** setuid: with the capability all four ids, else effective and file-system id to the real or saved one. */
  lemma {:induction false} SetIdEffect(ids: Ids, u: Id, env: Env)
    ensures var o := After(ids, SetId(u), env);
            && (o.ret == 0 <==> env.secErr == 0 && if env.capable then u == ids.r || env.room else u in {ids.r, ids.s})
            && (env.secErr != 0 ==> o.ret == env.secErr)
            && (env.secErr == 0 && o.ret != 0 ==> o.ret == if env.capable then -EAGAIN else -EPERM)
            && (o.ret == 0 ==>
                  && o.ids.e == u && o.ids.f == u && (o.cleared <==> u != ids.e)
                  && (env.capable ==> o.ids.r == u && o.ids.s == u)
                  && (!env.capable ==> o.ids.r == ids.r && o.ids.s == ids.s))
  {
  }

  /** setresuid: each id asked for is the one asked for, each other one is kept; without the capability
      only the three ids held may be asked for. It also clears the flag for a new real id unless it
      asks for the effective id that there is. */
  lemma {:induction false} SetResEffect(ids: Ids, r: Id, e: Id, s: Id, env: Env)
    ensures var o := After(ids, SetRes(r, e, s), env);
            var allowed := env.capable || (AsksFor(r, Held(ids)) && AsksFor(e, Held(ids)) && AsksFor(s, Held(ids)));
            && (o.ret == 0 <==> env.secErr == 0 && allowed && HasRoom(r, ids, env))
            && (env.secErr != 0 ==> o.ret == env.secErr)
            && (env.secErr == 0 && o.ret != 0 ==> o.ret == if !allowed then -EPERM else -EAGAIN)
            && (o.ret == 0 ==>
                  && (if r == NONE then o.ids.r == ids.r else o.ids.r == r)
                  && (if e == NONE then o.ids.e == ids.e else o.ids.e == e)
                  && (if s == NONE then o.ids.s == ids.s else o.ids.s == s)
                  && o.ids.f == o.ids.e
                  && (o.cleared <==> o.ids.e != ids.e || (o.ids.r != ids.r && e != ids.e)))
  {
  }

  /** setfsuid answers the former id, whether it sets the new one or not. */
  lemma {:induction false} SetFsEffect(ids: Ids, u: Id, env: Env)
    ensures var o := After(ids, SetFs(u), env);
            && o.ret == ids.f && o.ids.r == ids.r && o.ids.e == ids.e && o.ids.s == ids.s
            && o.ids.f == (if env.secErr == 0 && (env.capable || u in Held(ids) || u == ids.f) then u else ids.f)
            && (o.cleared <==> o.ids.f != ids.f)
  {
  }

  // ----------------------------------------------------------------- any run

  /** The ids a sequence of calls goes through, the first included. */
  ghost predicate IsRun(states: seq<Ids>, calls: seq<Call>, envs: seq<Env>) {
    && |states| == |calls| + 1 && |envs| == |calls|
    && forall i :: 0 <= i < |calls| ==> states[i + 1] == After(states[i], calls[i], envs[i]).ids
  }

  ghost predicate Unprivileged(envs: seq<Env>) {
    forall i :: 0 <= i < |envs| ==> !envs[i].capable
  }

  /** Without the capability, from any moment of any run on: real, effective and saved id stay
      within the three of that moment, so an id given up never comes back, and the
      file-system id stays within those and itself. */
  lemma {:induction false} UnprivilegedRunConfined(states: seq<Ids>, calls: seq<Call>, envs: seq<Env>, i: nat, j: nat)
    requires IsRun(states, calls, envs) && Unprivileged(envs) && i <= j < |states|
    ensures Held(states[j]) <= Held(states[i])
    ensures states[j].f in Held(states[i]) + {states[i].f}
    decreases j
  {
    if i < j {
      UnprivilegedRunConfined(states, calls, envs, i, j - 1);
      UnprivilegedCallConfined(states[j - 1], calls[j - 1], envs[j - 1]);
    }
  }

  ghost predicate AllEqual(ids: Ids) {
    ids.r == ids.e == ids.s == ids.f
  }

  /** No unprivileged call can change anything. */
  ghost predicate Frozen(ids: Ids) {
    forall c: Call, env: Env :: !env.capable ==> After(ids, c, env).ids == ids
  }

  /** That is so exactly when the four ids are equal. */
  lemma {:induction false} FrozenIffEqual(ids: Ids)
    ensures Frozen(ids) <==> AllEqual(ids)
  {
    var env := Env(0, false, true);
    if AllEqual(ids) {
      forall c: Call, env: Env | !env.capable ensures After(ids, c, env).ids == ids {
        UnprivilegedCallConfined(ids, c, env);
      }
    } else if ids.r != ids.s {
      var a, b := ids.r, ids.s;
      var c := if a != NONE then SetRes(NONE, NONE, a) else SetRes(b, NONE, NONE);
      assert After(ids, c, env).ids != ids;
    } else if ids.e != ids.r {
      assert After(ids, SetId(ids.r), env).ids != ids;
    } else {
      assert After(ids, SetFs(ids.r), env).ids != ids;
    }
  }

  /** setreuid(u, u) succeeds exactly if the hook accepts and u is "leave as it is", or else u is
      the real or the effective id or the caller is privileged, and a new real user has room. */
  lemma SetReSucceedsIff(ids: Ids, u: Id, env: Env)
    ensures After(ids, SetRe(u, u), env).ret == 0 <==>
            && env.secErr == 0
            && (u == NONE || ((env.capable || u == ids.r || u == ids.e) && (env.room || u == ids.r)))
  {
  }

  /** A setreuid(u, u) that succeeds gives up all privileges for good, so that no call without the
      capability can change any id, exactly if u is not "leave as it is" or there was nothing
      to give up. */
  lemma {:induction false} SetReDropsIff(ids: Ids, u: Id, env: Env)
    requires After(ids, SetRe(u, u), env).ret == 0
    ensures Frozen(After(ids, SetRe(u, u), env).ids) <==> u != NONE || ids.r == ids.e == ids.s
  {
    assert env.secErr == 0;
    FrozenIffEqual(After(ids, SetRe(u, u), env).ids);
  }

  /** After a setreuid(u, u) that succeeds, for any u other than "leave as it is", all ids are u, and
      no run without the capability changes one of them again. */
  lemma {:induction false} SetReDropsForGood(states: seq<Ids>, calls: seq<Call>, envs: seq<Env>, i: nat, j: nat, u: Id)
    requires IsRun(states, calls, envs) && i < j < |states|
    requires u != NONE && calls[i] == SetRe(u, u) && After(states[i], calls[i], envs[i]).ret == 0
    requires forall k :: i < k < |envs| ==> !envs[k].capable
    ensures states[j] == Ids(u, u, u, u)
  {
    assert envs[i].secErr == 0;
    StaysEqual(states, calls, envs, i + 1, j);
  }

  /** Setting both ids to one's own real id always succeeds, and so drops for good. */
  lemma {:induction false} SetReOfOwnIdDrops(states: seq<Ids>, calls: seq<Call>, envs: seq<Env>, i: nat, j: nat, u: Id)
    requires IsRun(states, calls, envs) && i < j < |states|
    requires u != NONE && calls[i] == SetRe(u, u) && states[i].r == u && envs[i].secErr == 0
    requires forall k :: i < k < |envs| ==> !envs[k].capable
    ensures After(states[i], calls[i], envs[i]).ret == 0 && states[j] == Ids(u, u, u, u)
  {
    SetReDropsForGood(states, calls, envs, i, j, u);
  }

  lemma {:induction false} StaysEqual(states: seq<Ids>, calls: seq<Call>, envs: seq<Env>, i: nat, j: nat)
    requires IsRun(states, calls, envs) && i <= j < |states| && AllEqual(states[i])
    requires forall k :: i <= k < |envs| ==> !envs[k].capable
    ensures states[j] == states[i]
    decreases j
  {
    if i < j {
      StaysEqual(states, calls, envs, i, j - 1);
      UnprivilegedCallConfined(states[j - 1], calls[j - 1], envs[j - 1]);
    }
  }

  /** And so does a setresuid(u, u, u) that succeeds. */
  lemma {:induction false} SetResDropsForGood(states: seq<Ids>, calls: seq<Call>, envs: seq<Env>, i: nat, j: nat, u: Id)
    requires IsRun(states, calls, envs) && i < j < |states|
    requires u != NONE && calls[i] == SetRes(u, u, u) && After(states[i], calls[i], envs[i]).ret == 0
    requires forall k :: i < k < |envs| ==> !envs[k].capable
    ensures states[j] == Ids(u, u, u, u)
  {
    SetResEffect(states[i], u, u, u, envs[i]);
    StaysEqual(states, calls, envs, i + 1, j);
  }

  /** With the capability, setuid sets the saved id too: there is no way back without it. */
  lemma {:induction false} PrivilegedSetIdDropsForGood(states: seq<Ids>, calls: seq<Call>, envs: seq<Env>, i: nat,
                                                       j: nat, u: Id)
    requires IsRun(states, calls, envs) && i < j < |states|
    requires calls[i] == SetId(u) && envs[i].capable && After(states[i], calls[i], envs[i]).ret == 0
    requires forall k :: i < k < |envs| ==> !envs[k].capable
    ensures states[j] == Ids(u, u, u, u)
  {
    StaysEqual(states, calls, envs, i + 1, j);
  }

  /** The exception, from any ids: with "leave as it is" for both the call succeeds and keeps real,
      effective and saved id; only the file-system id follows the effective one. */
  lemma SetReOfNoneDropsNothing(ids: Ids, env: Env)
    requires env.secErr == 0
    ensures After(ids, SetRe(NONE, NONE), env) == Outcome(0, ids.(f := ids.e), false)
  {
  }

  /** So a process whose real id is that number keeps the privileges of its other ids. */
  lemma {:induction false} SetReOfOwnNoneKeepsRoot()
    ensures var ids := Ids(NONE, 0, 0, 0);
            var after := After(ids, SetRe(ids.r, ids.r), Env(0, false, true));
            after.ret == 0 && after.ids.e == 0 && !Frozen(after.ids)
  {
    SetReDropsIff(Ids(NONE, 0, 0, 0), NONE, Env(0, false, true));
  }

  /** BSD exchange: any process may swap real and effective id, and swapping again restores both. */
  lemma SwapTwice(ids: Ids)
    requires ids.r != NONE && ids.e != NONE
    ensures var env := Env(0, false, true);
            var once := After(ids, SetRe(ids.e, ids.r), env);
            var twice := After(once.ids, SetRe(once.ids.e, once.ids.r), env);
            && once.ret == 0 && once.ids.r == ids.e && once.ids.e == ids.r
            && twice.ret == 0 && twice.ids == Ids(ids.r, ids.e, ids.e, ids.e)
  {
  }

  /** Dropping the effective id for a while, POSIX saved ids: a process whose saved id is its
      effective one may go to the real id with setuid and come back to where it was. */
  lemma TemporaryDrop(ids: Ids)
    requires ids.s == ids.e == ids.f
    ensures var env := Env(0, false, true);
            var down := After(ids, SetId(ids.r), env);
            var up := After(down.ids, SetId(ids.s), env);
            && down.ret == 0 && down.ids.e == ids.r && down.ids.f == ids.r
            && up.ret == 0 && up.ids == ids
  {
  }

  // ------------------------------------------------------------- system calls

  /** A call did what the outcome o says: its result, the ids, and the dumpable flag. */
  ghost predicate Did(o: Outcome, ret: int, ids: Ids, wasDumpable: bool, isDumpable: bool) {
    ret == o.ret && ids == o.ids && isDumpable == (wasDumpable && !o.cleared)
  }

  /** The credentials of the calling process. The group calls need no room for a process. */
  class Cred {
    var uid: Id
    var euid: Id
    var suid: Id
    var fsuid: Id
    var gid: Id
    var egid: Id
    var sgid: Id
    var fsgid: Id
    var dumpable: bool

    ghost function Uids(): Ids
      reads this
    {
      Ids(uid, euid, suid, fsuid)
    }

    ghost function Gids(): Ids
      reads this
    {
      Ids(gid, egid, sgid, fsgid)
    }

    constructor (u: Id, g: Id)
      ensures Uids() == Ids(u, u, u, u) && Gids() == Ids(g, g, g, g) && dumpable
    {
      uid, euid, suid, fsuid := u, u, u, u;
      gid, egid, sgid, fsgid := g, g, g, g;
      dumpable := true;
    }

    /** set_user: fails if the new user has no room for one more process. */
    method SetUser(newRuid: Id, dumpclear: bool, room: bool) returns (ret: int)
      modifies `uid, `dumpable
      ensures room ==> ret == 0 && uid == newRuid && dumpable == (old(dumpable) && !dumpclear)
      ensures !room ==> ret == -EAGAIN && uid == old(uid) && dumpable == old(dumpable)
    {
      if !room {
        return -EAGAIN;
      }
      if dumpclear {
        dumpable := false;
      }
      uid := newRuid;
      return 0;
    }

    method SysSetReUid(ruid: Id, euid': Id, env: Env) returns (ret: int)
      modifies `uid, `euid, `suid, `fsuid, `dumpable
      ensures Did(AfterSetRe(old(Uids()), ruid, euid', env), ret, Uids(), old(dumpable), dumpable)
    {
      if env.secErr != 0 {
        return env.secErr;
      }
      var oldRuid, oldEuid := uid, euid;
      var newRuid, newEuid := oldRuid, oldEuid;
      if ruid != NONE {
        newRuid := ruid;
        if oldRuid != ruid && euid != ruid && !env.capable {
          return -EPERM;
        }
      }
      if euid' != NONE {
        newEuid := euid';
        if oldRuid != euid' && euid != euid' && suid != euid' && !env.capable {
          return -EPERM;
        }
      }
      if newRuid != oldRuid {
        var r := SetUser(newRuid, newEuid != oldEuid, env.room);
        if r < 0 {
          return -EAGAIN;
        }
      }
      if newEuid != oldEuid {
        dumpable := false;
      }
      euid := newEuid;
      fsuid := newEuid;
      if ruid != NONE || (euid' != NONE && euid' != oldRuid) {
        suid := euid;
      }
      fsuid := euid;
      return 0;
    }

    method SysSetUid(u: Id, env: Env) returns (ret: int)
      modifies `uid, `euid, `suid, `fsuid, `dumpable
      ensures Did(AfterSetId(old(Uids()), u, env), ret, Uids(), old(dumpable), dumpable)
    {
      if env.secErr != 0 {
        return env.secErr;
      }
      var oldRuid, oldEuid, newSuid := uid, euid, suid;
      if env.capable {
        if u != oldRuid {
          var r := SetUser(u, oldEuid != u, env.room);
          if r < 0 {
            return -EAGAIN;
          }
        }
        newSuid := u;
      } else if u != uid && u != newSuid {
        return -EPERM;
      }
      if oldEuid != u {
        dumpable := false;
      }
      euid := u;
      fsuid := u;
      suid := newSuid;
      return 0;
    }

    method SysSetResUid(ruid: Id, euid': Id, suid': Id, env: Env) returns (ret: int)
      modifies `uid, `euid, `suid, `fsuid, `dumpable
      ensures Did(AfterSetRes(old(Uids()), ruid, euid', suid', env), ret, Uids(), old(dumpable), dumpable)
    {
      if env.secErr != 0 {
        return env.secErr;
      }
      if !env.capable {
        if NotHeld(ruid, uid, euid, suid) {
          return -EPERM;
        }
        if NotHeld(euid', uid, euid, suid) {
          return -EPERM;
        }
        if NotHeld(suid', uid, euid, suid) {
          return -EPERM;
        }
      }
      if ruid != NONE {
        if ruid != uid {
          var r := SetUser(ruid, euid' != euid, env.room);
          if r < 0 {
            return -EAGAIN;
          }
        }
      }
      if euid' != NONE {
        if euid' != euid {
          dumpable := false;
        }
        euid := euid';
      }
      fsuid := euid;
      if suid' != NONE {
        suid := suid';
      }
      return 0;
    }

    method SysSetFsUid(u: Id, env: Env) returns (oldFsuid: int)
      modifies `fsuid, `dumpable
      ensures Did(AfterSetFs(old(Uids()), u, env), oldFsuid, Uids(), old(dumpable), dumpable)
    {
      oldFsuid := fsuid;
      if env.secErr != 0 {
        return oldFsuid;
      }
      if u == uid || u == euid || u == suid || u == fsuid || env.capable {
        if u != oldFsuid {
          dumpable := false;
        }
        fsuid := u;
      }
    }

    method SysSetReGid(rgid: Id, egid': Id, env: Env) returns (ret: int)
      modifies `gid, `egid, `sgid, `fsgid, `dumpable
      ensures Did(AfterSetRe(old(Gids()), rgid, egid', env.(room := true)), ret, Gids(), old(dumpable), dumpable)
    {
      var oldRgid, oldEgid := gid, egid;
      var newRgid, newEgid := oldRgid, oldEgid;
      if env.secErr != 0 {
        return env.secErr;
      }
      if rgid != NONE {
        if oldRgid == rgid || egid == rgid || env.capable {
          newRgid := rgid;
        } else {
          return -EPERM;
        }
      }
      if egid' != NONE {
        if oldRgid == egid' || egid == egid' || sgid == egid' || env.capable {
          newEgid := egid';
        } else {
          return -EPERM;
        }
      }
      if newEgid != oldEgid {
        dumpable := false;
      }
      if rgid != NONE || (egid' != NONE && egid' != oldRgid) {
        sgid := newEgid;
      }
      fsgid := newEgid;
      egid := newEgid;
      gid := newRgid;
      return 0;
    }

    method SysSetGid(g: Id, env: Env) returns (ret: int)
      modifies `gid, `egid, `sgid, `fsgid, `dumpable
      ensures Did(AfterSetId(old(Gids()), g, env.(room := true)), ret, Gids(), old(dumpable), dumpable)
    {
      var oldEgid := egid;
      if env.secErr != 0 {
        return env.secErr;
      }
      if env.capable {
        if oldEgid != g {
          dumpable := false;
        }
        gid, egid, sgid, fsgid := g, g, g, g;
      } else if g == gid || g == sgid {
        if oldEgid != g {
          dumpable := false;
        }
        egid, fsgid := g, g;
      } else {
        return -EPERM;
      }
      return 0;
    }

    /** Other than setresuid it makes the process undumpable for a new effective id only. */
    method SysSetResGid(rgid: Id, egid': Id, sgid': Id, env: Env) returns (ret: int)
      modifies `gid, `egid, `sgid, `fsgid, `dumpable
      ensures var o := AfterSetRes(old(Gids()), rgid, egid', sgid', env.(room := true));
              ret == o.ret && Gids() == o.ids
      ensures dumpable == (old(dumpable) && egid == old(egid))
    {
      if env.secErr != 0 {
        return env.secErr;
      }
      if !env.capable {
        if NotHeld(rgid, gid, egid, sgid) {
          return -EPERM;
        }
        if NotHeld(egid', gid, egid, sgid) {
          return -EPERM;
        }
        if NotHeld(sgid', gid, egid, sgid) {
          return -EPERM;
        }
      }
      if egid' != NONE {
        if egid' != egid {
          dumpable := false;
        }
        egid := egid';
      }
      fsgid := egid;
      if rgid != NONE {
        gid := rgid;
      }
      if sgid' != NONE {
        sgid := sgid';
      }
      return 0;
    }

    method SysSetFsGid(g: Id, env: Env) returns (oldFsgid: int)
      modifies `fsgid, `dumpable
      ensures Did(AfterSetFs(old(Gids()), g, env), oldFsgid, Gids(), old(dumpable), dumpable)
    {
      oldFsgid := fsgid;
      if env.secErr != 0 {
        return oldFsgid;
      }
      if g == gid || g == egid || g == sgid || g == fsgid || env.capable {
        if g != oldFsgid {
          dumpable := false;
        }
        fsgid := g;
      }
    }
  }
}

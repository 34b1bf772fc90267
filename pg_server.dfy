/** The PostgreSQL account server (api/server-postgres.js): the `users`
    table, the `uid` sequence behind its SERIAL column and the `audit_log`
    table, updated in place by one method per route. bcrypt and SHA-256 are
    parameters: a password matches a stored hash when `hash(password)`
    equals it. A request field that is absent is the empty string. */
module PgServer {
  import opened Common
  import opened Text
  import opened Hwid
  import opened PgTable

  datatype AuditAction = SetRoleAction | BanAction | UnbanAction | DeleteAction

  /** The text stored in `audit_log.action`. */
  function ActionName(a: AuditAction): string {
    match a
    case SetRoleAction => "SET_ROLE"
    case BanAction => "BAN"
    case UnbanAction => "UNBAN"
    case DeleteAction => "DELETE"
  }

  datatype AuditEntry = AuditEntry(adminUid: int, action: AuditAction, targetUid: int, details: Option<string>)

  /** The audit log after one attempt to log `e`: the insert either adds
      the row (`stored`) or fails unnoticed. */
  function Logged(log: seq<AuditEntry>, e: AuditEntry, stored: bool): seq<AuditEntry> {
    if stored then log + [e] else log
  }

  class Server {
    var users: seq<Account>
    /** Next value of the `uid` sequence. */
    var serial: int
    var audit: seq<AuditEntry>
    const hash: string -> string
    const sha: string -> Sha256Hex

    ghost predicate Valid()
      reads this`users, this`serial
    {
      TableValid(users, serial)
    }

    /** A fresh database: no users, the sequence at 1, an empty audit log. */
    constructor (hash: string -> string, sha: string -> Sha256Hex)
      ensures Valid()
      ensures users == [] && serial == 1 && audit == []
      ensures this.hash == hash && this.sha == sha
    {
      users := [];
      serial := 1;
      audit := [];
      this.hash := hash;
      this.sha := sha;
    }

    /** logAdminAction: one audit row, unless the insert fails (`stored`
        false), which the caller never notices. */
    method LogAdminAction(adminUid: int, action: AuditAction, targetUid: int, details: Option<string>, stored: bool)
      modifies this`audit
      ensures audit == Logged(old(audit), AuditEntry(adminUid, action, targetUid, details), stored)
    {
      if stored {
        audit := audit + [AuditEntry(adminUid, action, targetUid, details)];
      }
    }

    /** POST /api/register. */
    method Register(email: string, nickname: string, password: string, now: int) returns (r: Reply<Registered>)
      requires Valid()
      modifies this`users, this`serial
      ensures Valid()
      ensures !r.Silent?
      ensures RegisterInputError(email, nickname, password).Some? ==>
        r == Fail(BadRequest, RegisterInputError(email, nickname, password).value)
      ensures RegisterInputError(email, nickname, password).None? && RegisterConflict(old(users), email, nickname).Some? ==>
        r == Fail(BadRequest, RegisterConflict(old(users), email, nickname).value)
      ensures r.Ok? <==>
        RegisterInputError(email, nickname, password).None? && RegisterConflict(old(users), email, nickname).None?
      ensures r.Fail? ==> users == old(users) && serial == old(serial)
      ensures r.Ok? ==>
        var role := NewAccountRole(old(users));
        && r.value == Registered(old(serial), nickname, role)
        && users == old(users) + [NewAccount(old(serial), email, nickname, hash(password), role, now)]
        && serial == old(serial) + 1
    {
      var bad := RegisterInputError(email, nickname, password);
      if bad.Some? {
        return Fail(BadRequest, bad.value);
      }
      var conflict := RegisterConflict(users, email, nickname);
      if conflict.Some? {
        return Fail(BadRequest, conflict.value);
      }
      var role := NewAccountRole(users);
      var a := NewAccount(serial, email, nickname, hash(password), role, now);
      AppendKeepsValid(users, serial, a);
      users := users + [a];
      serial := serial + 1;
      r := Ok(Registered(a.uid, nickname, role));
    }

    /** POST /api/login: on success the HWID is bound if it was unbound and
        one was supplied, the session count goes up by one and the last
        login is stamped; the answer carries the new session count. */
    method Login(id: string, password: string, hwid: string, now: int) returns (r: Reply<Session>)
      requires Valid()
      modifies this`users
      ensures Valid()
      ensures !r.Silent?
      ensures id == "" || password == "" ==> r == Fail(BadRequest, MissingFields)
      ensures r.Fail? ==> users == old(users)
      ensures id != "" && password != "" ==>
        var d := LoginDecision(old(users), hash, sha, id, password, hwid);
        && (d.Fail? ==> r == Fail(d.status, d.why))
        && (d.Ok? ==>
              && |users| == |old(users)|
              && users == old(users)[d.value.row := AfterLogin(old(users)[d.value.row], d.value.step, now)]
              && r == Ok(SessionOf(users[d.value.row])))
    {
      if id == "" || password == "" {
        return Fail(BadRequest, MissingFields);
      }
      var d := LoginDecision(users, hash, sha, id, password, hwid);
      match d
      case Fail(st, why) =>
        r := Fail(st, why);
      case Silent =>
        r := Fail(ServerError, BadQuery);
      case Ok(grant) =>
        var k := grant.row;
        var a := AfterLogin(users[k], grant.step, now);
        OwnNicknameUnique(users, serial, k);
        ReplaceKeepsValid(users, serial, k, a);
        users := users[k := a];
        r := Ok(SessionOf(a));
    }

    /** POST /api/verify, which changes nothing. */
    method Verify(uid: string, hwid: string) returns (r: Reply<Verified>)
      ensures r == VerifyAnswer(users, sha, uid, hwid)
    {
      r := VerifyAnswer(users, sha, uid, hwid);
    }

    /** POST /api/user/update: after the owner check, a new nickname held
        by another account (ignoring case) is refused before anything is
        written; otherwise nickname and password change as `Revised` says
        and the answer is the stored nickname. */
    method Update(uid: string, password: string, newNickname: string, newPassword: string) returns (r: Reply<string>)
      requires Valid()
      modifies this`users
      ensures Valid()
      ensures !r.Silent?
      ensures r.Fail? ==> users == old(users)
      ensures
        var d := OwnerDecision(old(users), hash, uid, password);
        && (d.Fail? ==> r == Fail(d.status, d.why))
        && (d.Ok? ==>
              var k := d.value;
              var taken := newNickname != "" && NicknameHeldByOther(old(users), newNickname, old(users)[k].uid);
              && (taken ==> r == Fail(BadRequest, NicknameTaken))
              && (!taken ==>
                    && users == old(users)[k := Revised(old(users)[k], hash, newNickname, newPassword)]
                    && r == Ok(users[k].nickname)))
    {
      var d := OwnerDecision(users, hash, uid, password);
      match d
      case Fail(st, why) =>
        r := Fail(st, why);
      case Silent =>
        r := Fail(ServerError, BadQuery);
      case Ok(k) =>
        var me := users[k];
        if newNickname != "" && exists j :: 0 <= j < |users| && SameIgnoringCase(users[j].nickname, newNickname) && users[j].uid != me.uid {
          return Fail(BadRequest, NicknameTaken);
        }
        var v := Revised(me, hash, newNickname, newPassword);
        if newNickname != "" {
          forall j | 0 <= j < |users| && j != k
            ensures !SameIgnoringCase(users[j].nickname, v.nickname)
          {
            assert users[j].uid != me.uid;
          }
        } else {
          OwnNicknameUnique(users, serial, k);
        }
        ReplaceKeepsValid(users, serial, k, v);
        users := users[k := v];
        r := Ok(v.nickname);
    }

    /** POST /api/reset-hwid: after the owner check, the binding is cleared. */
    method ResetHwid(uid: string, password: string) returns (r: Reply<()>)
      requires Valid()
      modifies this`users
      ensures Valid()
      ensures !r.Silent?
      ensures r.Fail? ==> users == old(users)
      ensures
        var d := OwnerDecision(old(users), hash, uid, password);
        && (d.Fail? ==> r == Fail(d.status, d.why))
        && (d.Ok? ==> r == Ok(()) && users == old(users)[d.value := old(users)[d.value].(hwid := None)])
    {
      var d := OwnerDecision(users, hash, uid, password);
      match d
      case Fail(st, why) =>
        r := Fail(st, why);
      case Silent =>
        r := Fail(ServerError, BadQuery);
      case Ok(k) =>
        RetouchKeepsValid(users, serial, k, users[k].(hwid := None));
        users := users[k := users[k].(hwid := None)];
        r := Ok(());
    }

    /** GET /api/next-uid as written: one more than the largest uid in use
        (1 for an empty table). It is not the uid the next registration
        receives once the newest account has been deleted. */
    method NextUid() returns (n: int)
      ensures forall i :: 0 <= i < |users| ==> users[i].uid < n
      ensures |users| == 0 ==> n == 1
      ensures |users| > 0 ==> exists i :: 0 <= i < |users| && users[i].uid == n - 1
    {
      n := MaxUid(users) + 1;
    }

    /** The uid the next successful registration receives: the sequence's
        next value, which is what the route is evidently meant to announce. */
    method UpcomingUid() returns (n: int)
      requires Valid()
      ensures n == serial && n >= 1
      ensures forall i :: 0 <= i < |users| ==> users[i].uid < n
    {
      n := serial;
    }

    /** POST /api/admin/users, which changes nothing: to an admin whose
        password matches, every account in uid order without password hash
        or HWID. */
    method AdminUsers(uid: string, password: string) returns (r: Reply<seq<Summary>>)
      requires Valid()
      ensures !r.Silent?
      ensures
        var d := AdminDecision(users, hash, uid, password);
        && (d.Fail? ==> r == Fail(d.status, d.why))
        && (d.Ok? ==> r == Ok(Listing(users)))
      ensures r.Ok? ==> forall i, j :: 0 <= i < j < |r.value| ==> r.value[i].uid < r.value[j].uid
    {
      var d := AdminDecision(users, hash, uid, password);
      match d
      case Fail(st, why) =>
        r := Fail(st, why);
      case Silent =>
        r := Fail(ServerError, BadQuery);
      case Ok(_) =>
        ListingAscending(users, serial);
        r := Ok(Listing(users));
    }

    /** POST /api/admin/set-role: only "user" and "admin" are accepted,
        checked before anything else; a target uid with no row is a
        successful no-op, and the change is audited. */
    method SetRole(uid: string, password: string, targetUid: string, role: string, stored: bool) returns (r: Reply<()>)
      requires Valid()
      modifies this`users, this`audit
      ensures Valid()
      ensures !r.Silent?
      ensures r.Fail? ==> users == old(users) && audit == old(audit)
      ensures role != "user" && role != "admin" ==> r == Fail(BadRequest, BadRole)
      ensures (role == "user" || role == "admin") ==>
        var d := AdminDecision(old(users), hash, uid, password);
        && (d.Fail? ==> r == Fail(d.status, d.why))
        && (d.Ok? && IntParam(targetUid).None? ==> r == Fail(ServerError, BadQuery))
        && (d.Ok? && IntParam(targetUid).Some? ==>
              var t := IntParam(targetUid).value;
              && r == Ok(())
              && users == SetRoleOf(old(users), t, ParseRole(role).value)
              && audit == Logged(old(audit), AuditEntry(IntParam(uid).value, SetRoleAction, t, Some("Role changed to " + role)), stored))
    {
      if role != "user" && role != "admin" {
        return Fail(BadRequest, BadRole);
      }
      var d := AdminDecision(users, hash, uid, password);
      if !d.Ok? {
        return if d.Fail? then Fail(d.status, d.why) else Fail(ServerError, BadQuery);
      }
      var target := IntParam(targetUid);
      if target.None? {
        return Fail(ServerError, BadQuery);
      }
      var newRole := ParseRole(role).value;
      var adminUid := IntParam(uid).value;
      var details := Some("Role changed to " + role);
      var revised := SetRoleOf(users, target.value, newRole);
      assert TableValid(revised, serial) by {
        SetRoleKeepsValid(users, serial, target.value, newRole);
      }
      users := revised;
      LogAdminAction(adminUid, SetRoleAction, target.value, details, stored);
      r := Ok(());
    }

    /** POST /api/admin/ban: an admin target is refused; otherwise the ban
        flag of the target (if any) is set and the change audited. No admin
        row ever changes. */
    method Ban(uid: string, password: string, targetUid: string, banned: bool, stored: bool) returns (r: Reply<()>)
      requires Valid()
      modifies this`users, this`audit
      ensures Valid()
      ensures !r.Silent?
      ensures r.Fail? ==> users == old(users) && audit == old(audit)
      ensures
        var d := AdminDecision(old(users), hash, uid, password);
        && (d.Fail? ==> r == Fail(d.status, d.why))
        && (d.Ok? ==>
              var td := TargetDecision(old(users), targetUid);
              && (td.Fail? ==> r == Fail(td.status, td.why))
              && (td.Ok? ==>
                    var t := IntParam(targetUid).value;
                    && r == Ok(())
                    && users == SetBannedOf(old(users), t, banned)
                    && audit == Logged(old(audit), AuditEntry(IntParam(uid).value, if banned then BanAction else UnbanAction, t, None), stored)))
      ensures AdminRowsUnchanged(old(users), users)
    {
      var d := AdminDecision(users, hash, uid, password);
      if !d.Ok? {
        return if d.Fail? then Fail(d.status, d.why) else Fail(ServerError, BadQuery);
      }
      var td := TargetDecision(users, targetUid);
      if !td.Ok? {
        return if td.Fail? then Fail(td.status, td.why) else Fail(ServerError, BadQuery);
      }
      var t := IntParam(targetUid).value;
      var adminUid := IntParam(uid).value;
      var action := if banned then BanAction else UnbanAction;
      var revised := SetBannedOf(users, t, banned);
      assert TableValid(revised, serial) && AdminRowsUnchanged(users, revised) by {
        SetBannedKeepsValid(users, serial, t, banned);
        BanSparesAdmins(users, serial, t, banned);
      }
      users := revised;
      LogAdminAction(adminUid, action, t, None, stored);
      r := Ok(());
    }

    /** POST /api/admin/delete: an admin target is refused; otherwise the
        target's row (if any) is deleted and the deletion audited. Every
        admin row survives. */
    method Delete(uid: string, password: string, targetUid: string, stored: bool) returns (r: Reply<()>)
      requires Valid()
      modifies this`users, this`audit
      ensures Valid()
      ensures !r.Silent?
      ensures r.Fail? ==> users == old(users) && audit == old(audit)
      ensures
        var d := AdminDecision(old(users), hash, uid, password);
        && (d.Fail? ==> r == Fail(d.status, d.why))
        && (d.Ok? ==>
              var td := TargetDecision(old(users), targetUid);
              && (td.Fail? ==> r == Fail(td.status, td.why))
              && (td.Ok? ==>
                    var t := IntParam(targetUid).value;
                    && r == Ok(())
                    && users == DeleteUid(old(users), t)
                    && audit == Logged(old(audit), AuditEntry(IntParam(uid).value, DeleteAction, t, None), stored)))
      ensures AdminsKept(old(users), users)
    {
      var d := AdminDecision(users, hash, uid, password);
      if !d.Ok? {
        return if d.Fail? then Fail(d.status, d.why) else Fail(ServerError, BadQuery);
      }
      var td := TargetDecision(users, targetUid);
      if !td.Ok? {
        return if td.Fail? then Fail(td.status, td.why) else Fail(ServerError, BadQuery);
      }
      var t := IntParam(targetUid).value;
      var adminUid := IntParam(uid).value;
      var left := DeleteUid(users, t);
      assert TableValid(left, serial) && AdminsKept(users, left) by {
        DeleteKeepsValid(users, serial, t);
        DeleteSparesAdmins(users, serial, t);
      }
      users := left;
      LogAdminAction(adminUid, DeleteAction, t, None, stored);
      r := Ok(());
    }
  }

  /** What `/api/next-uid` announces and what registration hands out drift
      apart as soon as the newest account is deleted: with accounts 1 and 2
      and account 2 deleted, the sequence stands at 3 (the uid `Register`
      hands out next) while the route says 2. */
  lemma NextUidMisses()
    ensures
      var a := NewAccount(1, "a@x", "a", "h", Admin, 0);
      var b := NewAccount(2, "b@x", "b", "h", User, 0);
      var left := DeleteUid([a, b], 2);
      && TableValid([a, b], 3) && TableValid(left, 3)
      && MaxUid(left) + 1 == 2
  {
    var a := NewAccount(1, "a@x", "a", "h", Admin, 0);
    var b := NewAccount(2, "b@x", "b", "h", User, 0);
    assert DeleteUid([b], 2) == [];
    assert DeleteUid([a, b], 2) == [a];
    assert Lower("a")[0] == 'a' && Lower("b")[0] == 'b';
  }
}

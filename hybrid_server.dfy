/** The hybrid server (website2/api/server.js): the PostgreSQL handlers
    behind a `usePostgres` switch. Without a database every route except
    next-uid validates its request, then answers nothing at all (`Silent`);
    next-uid answers 1. There is no audit log, and set-role accepts all six
    roles. */
module HybridServer {
  import opened Common
  import opened Text
  import opened Hwid
  import opened PgTable

  class Server {
    var users: seq<Account>
    /** Next value of the `uid` sequence. */
    var serial: int
    /** Whether the connection test succeeded at start-up. */
    const usePostgres: bool
    const hash: string -> string
    const sha: string -> Sha256Hex

    ghost predicate Valid()
      reads this
    {
      TableValid(users, serial)
    }

    constructor (usePostgres: bool, hash: string -> string, sha: string -> Sha256Hex)
      ensures Valid()
      ensures users == [] && serial == 1
      ensures this.usePostgres == usePostgres && this.hash == hash && this.sha == sha
    {
      users := [];
      serial := 1;
      this.usePostgres := usePostgres;
      this.hash := hash;
      this.sha := sha;
    }

    /** POST /api/register: the request checks run with or without a
        database. */
    method Register(email: string, nickname: string, password: string, now: int) returns (r: Reply<Registered>)
      requires Valid()
      modifies this`users, this`serial
      ensures Valid()
      ensures RegisterInputError(email, nickname, password).Some? ==>
        r == Fail(BadRequest, RegisterInputError(email, nickname, password).value)
      ensures RegisterInputError(email, nickname, password).None? && !usePostgres ==> r == Silent
      ensures RegisterInputError(email, nickname, password).None? && usePostgres && RegisterConflict(old(users), email, nickname).Some? ==>
        r == Fail(BadRequest, RegisterConflict(old(users), email, nickname).value)
      ensures r.Ok? <==>
        usePostgres && RegisterInputError(email, nickname, password).None? && RegisterConflict(old(users), email, nickname).None?
      ensures !r.Ok? ==> users == old(users) && serial == old(serial)
      ensures r.Ok? ==>
        var role := NewAccountRole(old(users));
        && r.value == Registered(old(serial), nickname, role)
        && users == old(users) + [NewAccount(old(serial), email, nickname, hash(password), role, now)]
        && serial == old(serial) + 1
    {
      var bad := RegisterInputError(email, nickname, password);
      if bad.Some? {
        return Fail(BadRequest, bad.value);
      }
      if !usePostgres {
        return Silent;
      }
      var conflict := RegisterConflict(users, email, nickname);
      if conflict.Some? {
        return Fail(BadRequest, conflict.value);
      }
      var role := NewAccountRole(users);
      var a := NewAccount(serial, email, nickname, hash(password), role, now);
      AppendKeepsValid(users, serial, a);
      users := users + [a];
      serial := serial + 1;
      r := Ok(Registered(a.uid, nickname, role));
    }

    /** POST /api/login. */
    method Login(id: string, password: string, hwid: string, now: int) returns (r: Reply<Session>)
      requires Valid()
      modifies this`users
      ensures Valid()
      ensures id == "" || password == "" ==> r == Fail(BadRequest, MissingFields)
      ensures id != "" && password != "" && !usePostgres ==> r == Silent
      ensures !r.Ok? ==> users == old(users)
      ensures id != "" && password != "" && usePostgres ==>
        var d := LoginDecision(old(users), hash, sha, id, password, hwid);
        && (d.Fail? ==> r == Fail(d.status, d.why))
        && (d.Ok? ==>
              && |users| == |old(users)|
              && users == old(users)[d.value.row := AfterLogin(old(users)[d.value.row], d.value.step, now)]
              && r == Ok(SessionOf(users[d.value.row])))
    {
      if id == "" || password == "" {
        return Fail(BadRequest, MissingFields);
      }
      if !usePostgres {
        return Silent;
      }
      var d := LoginDecision(users, hash, sha, id, password, hwid);
      match d
      case Fail(st, why) =>
        r := Fail(st, why);
      case Silent =>
        r := Fail(ServerError, BadQuery);
      case Ok(grant) =>
        var k := grant.row;
        var a := AfterLogin(users[k], grant.step, now);
        OwnNicknameUnique(users, serial, k);
        ReplaceKeepsValid(users, serial, k, a);
        users := users[k := a];
        r := Ok(SessionOf(a));
    }

    /** POST /api/verify, which changes nothing. */
    method Verify(uid: string, hwid: string) returns (r: Reply<Verified>)
      ensures !usePostgres ==> r == Silent
      ensures usePostgres ==> r == VerifyAnswer(users, sha, uid, hwid)
    {
      if !usePostgres {
        return Silent;
      }
      r := VerifyAnswer(users, sha, uid, hwid);
    }

    /** POST /api/user/update. */
    method Update(uid: string, password: string, newNickname: string, newPassword: string) returns (r: Reply<string>)
      requires Valid()
      modifies this`users
      ensures Valid()
      ensures !usePostgres ==> r == Silent
      ensures !r.Ok? ==> users == old(users)
      ensures usePostgres ==>
        var d := OwnerDecision(old(users), hash, uid, password);
        && (d.Fail? ==> r == Fail(d.status, d.why))
        && (d.Ok? ==>
              var k := d.value;
              var taken := newNickname != "" && NicknameHeldByOther(old(users), newNickname, old(users)[k].uid);
              && (taken ==> r == Fail(BadRequest, NicknameTaken))
              && (!taken ==>
                    && users == old(users)[k := Revised(old(users)[k], hash, newNickname, newPassword)]
                    && r == Ok(users[k].nickname)))
    {
      if !usePostgres {
        return Silent;
      }
      var d := OwnerDecision(users, hash, uid, password);
      match d
      case Fail(st, why) =>
        r := Fail(st, why);
      case Silent =>
        r := Fail(ServerError, BadQuery);
      case Ok(k) =>
        var me := users[k];
        if newNickname != "" && exists j :: 0 <= j < |users| && SameIgnoringCase(users[j].nickname, newNickname) && users[j].uid != me.uid {
          return Fail(BadRequest, NicknameTaken);
        }
        var v := Revised(me, hash, newNickname, newPassword);
        if newNickname != "" {
          forall j | 0 <= j < |users| && j != k
            ensures !SameIgnoringCase(users[j].nickname, v.nickname)
          {
            assert users[j].uid != me.uid;
          }
        } else {
          OwnNicknameUnique(users, serial, k);
        }
        ReplaceKeepsValid(users, serial, k, v);
        users := users[k := v];
        r := Ok(v.nickname);
    }

    /** POST /api/reset-hwid. */
    method ResetHwid(uid: string, password: string) returns (r: Reply<()>)
      requires Valid()
      modifies this`users
      ensures Valid()
      ensures !usePostgres ==> r == Silent
      ensures !r.Ok? ==> users == old(users)
      ensures usePostgres ==>
        var d := OwnerDecision(old(users), hash, uid, password);
        && (d.Fail? ==> r == Fail(d.status, d.why))
        && (d.Ok? ==> r == Ok(()) && users == old(users)[d.value := old(users)[d.value].(hwid := None)])
    {
      if !usePostgres {
        return Silent;
      }
      var d := OwnerDecision(users, hash, uid, password);
      match d
      case Fail(st, why) =>
        r := Fail(st, why);
      case Silent =>
        r := Fail(ServerError, BadQuery);
      case Ok(k) =>
        RetouchKeepsValid(users, serial, k, users[k].(hwid := None));
        users := users[k := users[k].(hwid := None)];
        r := Ok(());
    }

    /** GET /api/next-uid: one more than the largest uid in use, or 1
        without a database. */
    method NextUid() returns (n: int)
      ensures !usePostgres ==> n == 1
      ensures usePostgres ==> forall i :: 0 <= i < |users| ==> users[i].uid < n
      ensures usePostgres && |users| == 0 ==> n == 1
      ensures usePostgres && |users| > 0 ==> exists i :: 0 <= i < |users| && users[i].uid == n - 1
    {
      if !usePostgres {
        return 1;
      }
      n := MaxUid(users) + 1;
    }

    /** POST /api/admin/users, which changes nothing. */
    method AdminUsers(uid: string, password: string) returns (r: Reply<seq<Summary>>)
      requires Valid()
      ensures !usePostgres ==> r == Silent
      ensures usePostgres ==>
        var d := AdminDecision(users, hash, uid, password);
        && (d.Fail? ==> r == Fail(d.status, d.why))
        && (d.Ok? ==> r == Ok(Listing(users)))
      ensures r.Ok? ==> forall i, j :: 0 <= i < j < |r.value| ==> r.value[i].uid < r.value[j].uid
    {
      if !usePostgres {
        return Silent;
      }
      var d := AdminDecision(users, hash, uid, password);
      match d
      case Fail(st, why) =>
        r := Fail(st, why);
      case Silent =>
        r := Fail(ServerError, BadQuery);
      case Ok(_) =>
        ListingAscending(users, serial);
        r := Ok(Listing(users));
    }

    /** POST /api/admin/set-role: any of the six roles; the role is checked
        before the database switch. */
    method SetRole(uid: string, password: string, targetUid: string, role: string) returns (r: Reply<()>)
      requires Valid()
      modifies this`users
      ensures Valid()
      ensures !r.Ok? ==> users == old(users)
      ensures ParseRole(role).None? ==> r == Fail(BadRequest, BadRole)
      ensures ParseRole(role).Some? && !usePostgres ==> r == Silent
      ensures ParseRole(role).Some? && usePostgres ==>
        var d := AdminDecision(old(users), hash, uid, password);
        && (d.Fail? ==> r == Fail(d.status, d.why))
        && (d.Ok? && IntParam(targetUid).None? ==> r == Fail(ServerError, BadQuery))
        && (d.Ok? && IntParam(targetUid).Some? ==>
              r == Ok(()) && users == SetRoleOf(old(users), IntParam(targetUid).value, ParseRole(role).value))
    {
      var newRole := ParseRole(role);
      if newRole.None? {
        return Fail(BadRequest, BadRole);
      }
      if !usePostgres {
        return Silent;
      }
      var d := AdminDecision(users, hash, uid, password);
      if !d.Ok? {
        return if d.Fail? then Fail(d.status, d.why) else Fail(ServerError, BadQuery);
      }
      var target := IntParam(targetUid);
      if target.None? {
        return Fail(ServerError, BadQuery);
      }
      SetRoleKeepsValid(users, serial, target.value, newRole.value);
      users := SetRoleOf(users, target.value, newRole.value);
      r := Ok(());
    }

    /** POST /api/admin/ban: no admin row ever changes. */
    method Ban(uid: string, password: string, targetUid: string, banned: bool) returns (r: Reply<()>)
      requires Valid()
      modifies this`users
      ensures Valid()
      ensures !usePostgres ==> r == Silent
      ensures !r.Ok? ==> users == old(users)
      ensures usePostgres ==>
        var d := AdminDecision(old(users), hash, uid, password);
        && (d.Fail? ==> r == Fail(d.status, d.why))
        && (d.Ok? ==>
              var td := TargetDecision(old(users), targetUid);
              && (td.Fail? ==> r == Fail(td.status, td.why))
              && (td.Ok? ==> r == Ok(()) && users == SetBannedOf(old(users), IntParam(targetUid).value, banned)))
      ensures AdminRowsUnchanged(old(users), users)
    {
      if !usePostgres {
        return Silent;
      }
      var d := AdminDecision(users, hash, uid, password);
      if !d.Ok? {
        return if d.Fail? then Fail(d.status, d.why) else Fail(ServerError, BadQuery);
      }
      var td := TargetDecision(users, targetUid);
      if !td.Ok? {
        return if td.Fail? then Fail(td.status, td.why) else Fail(ServerError, BadQuery);
      }
      var t := IntParam(targetUid).value;
      var revised := SetBannedOf(users, t, banned);
      assert TableValid(revised, serial) && AdminRowsUnchanged(users, revised) by {
        SetBannedKeepsValid(users, serial, t, banned);
        BanSparesAdmins(users, serial, t, banned);
      }
      users := revised;
      r := Ok(());
    }

    /** POST /api/admin/delete: every admin row survives. */
    method Delete(uid: string, password: string, targetUid: string) returns (r: Reply<()>)
      requires Valid()
      modifies this`users
      ensures Valid()
      ensures !usePostgres ==> r == Silent
      ensures !r.Ok? ==> users == old(users)
      ensures usePostgres ==>
        var d := AdminDecision(old(users), hash, uid, password);
        && (d.Fail? ==> r == Fail(d.status, d.why))
        && (d.Ok? ==>
              var td := TargetDecision(old(users), targetUid);
              && (td.Fail? ==> r == Fail(td.status, td.why))
              && (td.Ok? ==> r == Ok(()) && users == DeleteUid(old(users), IntParam(targetUid).value)))
      ensures AdminsKept(old(users), users)
    {
      if !usePostgres {
        return Silent;
      }
      var d := AdminDecision(users, hash, uid, password);
      if !d.Ok? {
        return if d.Fail? then Fail(d.status, d.why) else Fail(ServerError, BadQuery);
      }
      var td := TargetDecision(users, targetUid);
      if !td.Ok? {
        return if td.Fail? then Fail(td.status, td.why) else Fail(ServerError, BadQuery);
      }
      var t := IntParam(targetUid).value;
      var left := DeleteUid(users, t);
      assert TableValid(left, serial) && AdminsKept(users, left) by {
        DeleteKeepsValid(users, serial, t);
        DeleteSparesAdmins(users, serial, t);
      }
      users := left;
      r := Ok(());
    }
  }
}

/** The JSON-file account server (api/server.js): a `users` array and a
    `nextUid` counter, read from and written back to one file around each
    request. Each handler is modelled as one atomic step on the loaded
    object. Passwords are stored as hex SHA-256 digests. */
module JsonServer {
  import opened Common
  import opened Text
  import opened Hwid

  datatype User = User(
    uid: int,
    email: string,
    nickname: string,
    password: string,          // hex SHA-256 of the password
    hwid: Option<string>,      // bound HWID hash, None is `null`
    createdAt: int,
    lastLogin: Option<int>,
    sessions: int,
    playTime: int)

  /** Body of a successful `/api/register` answer. */
  datatype Registered = Registered(uid: int, nickname: string)

  /** Body of a successful `/api/login` answer. */
  datatype Session = Session(uid: int, nickname: string, email: string, sessions: int, playTime: int, createdAt: int)

  /** The record a successful registration appends. */
  function NewUser(uid: int, email: string, nickname: string, hash: string, now: int): (u: User)
    ensures u.hwid.None? && u.sessions == 0 && u.lastLogin.None? && u.playTime == 0
    ensures u.uid == uid && u.email == email && u.nickname == nickname && u.password == hash
  {
    User(uid, email, nickname, hash, None, now, None, 0, 0)
  }

  /** loadDB: a missing (or zero) `nextUid` defaults to one past the number
      of stored users; a stored counter is kept. `stored == 0` stands for a
      file without the field. */
  function LoadedNextUid(users: seq<User>, stored: int): (n: int)
    ensures stored != 0 ==> n == stored
    ensures stored == 0 ==> n == |users| + 1
  {
    if stored == 0 then |users| + 1 else stored
  }

  // ---------------------------------------------------------------------
  // The table invariant
  // ---------------------------------------------------------------------

  ghost predicate UidsIncreasing(users: seq<User>) {
    forall i, j :: 0 <= i < j < |users| ==> users[i].uid < users[j].uid
  }

  ghost predicate UidsBelow(users: seq<User>, nextUid: int) {
    forall i :: 0 <= i < |users| ==> 1 <= users[i].uid < nextUid
  }

  ghost predicate EmailsDistinct(users: seq<User>) {
    forall i, j :: 0 <= i < j < |users| ==> users[i].email != users[j].email
  }

  ghost predicate NicknamesDistinct(users: seq<User>) {
    forall i, j :: 0 <= i < j < |users| ==> !SameIgnoringCase(users[i].nickname, users[j].nickname)
  }

  ghost predicate WellFormedRecords(users: seq<User>) {
    forall i :: 0 <= i < |users| ==>
      users[i].sessions >= 0 && (users[i].hwid.Some? ==> IsHwidHash(users[i].hwid.value))
  }

  /** What every state this server writes satisfies: uids are distinct (in
      fact increasing in file order), positive and below `nextUid`; emails
      are distinct; nicknames are distinct ignoring case; bound HWIDs are
      32-character hashes. */
  ghost predicate TableValid(users: seq<User>, nextUid: int) {
    && 1 <= nextUid
    && UidsIncreasing(users)
    && UidsBelow(users, nextUid)
    && EmailsDistinct(users)
    && NicknamesDistinct(users)
    && WellFormedRecords(users)
  }

  /** Replacing one record by one with the same uid and email, a nickname no
      other record holds, and well-formed fields keeps the table valid. */
  lemma ReplaceKeepsValid(users: seq<User>, nextUid: int, i: nat, v: User)
    requires TableValid(users, nextUid) && i < |users|
    requires v.uid == users[i].uid && v.email == users[i].email
    requires v.sessions >= 0 && (v.hwid.Some? ==> IsHwidHash(v.hwid.value))
    requires forall j :: 0 <= j < |users| && j != i ==> !SameIgnoringCase(users[j].nickname, v.nickname)
    ensures TableValid(users[i := v], nextUid)
  {
    var t := users[i := v];
    forall a, b | 0 <= a < b < |t|
      ensures !SameIgnoringCase(t[a].nickname, t[b].nickname)
    {
      if a == i {
        assert !SameIgnoringCase(users[b].nickname, v.nickname);
      } else if b == i {
        assert !SameIgnoringCase(users[a].nickname, v.nickname);
      }
    }
  }

  /** In a valid table no record other than `i` shares record `i`'s nickname. */
  lemma OwnNicknameUnique(users: seq<User>, nextUid: int, i: nat)
    requires TableValid(users, nextUid) && i < |users|
    ensures forall j :: 0 <= j < |users| && j != i ==> !SameIgnoringCase(users[j].nickname, users[i].nickname)
  {
    forall j | 0 <= j < |users| && j != i
      ensures !SameIgnoringCase(users[j].nickname, users[i].nickname)
    {
      if j < i {
        assert !SameIgnoringCase(users[j].nickname, users[i].nickname);
      } else {
        assert !SameIgnoringCase(users[i].nickname, users[j].nickname);
      }
    }
  }

  /** A file loadDB turns into a valid table: well-formed records with
      increasing uids, and either a positive stored counter above every uid
      or, without one, the uids 1, 2, ..., n in order. */
  ghost predicate Loadable(users: seq<User>, stored: int) {
    && UidsIncreasing(users)
    && EmailsDistinct(users)
    && NicknamesDistinct(users)
    && WellFormedRecords(users)
    && (stored != 0 ==> 1 <= stored && UidsBelow(users, stored))
    && (stored == 0 ==> forall i :: 0 <= i < |users| ==> users[i].uid == i + 1)
  }

  lemma LoadedTableValid(users: seq<User>, stored: int)
    requires Loadable(users, stored)
    ensures TableValid(users, LoadedNextUid(users, stored))
  {
  }

  /** Without a stored counter and with a gap in the uids, the defaulted
      counter is a uid already in use: for the uids 2 and 3 it is 3. */
  lemma LoadedCounterCollides(a: User, b: User)
    requires a.uid == 2 && b.uid == 3
    ensures LoadedNextUid([a, b], 0) == [a, b][1].uid
  {
  }

  /** Writing a valid table and loading it again keeps its counter. */
  lemma SaveLoadKeepsCounter(users: seq<User>, nextUid: int)
    requires TableValid(users, nextUid)
    ensures LoadedNextUid(users, nextUid) == nextUid
  {
  }

  // ---------------------------------------------------------------------
  // Lookups (Array.prototype.find over db.users)
  // ---------------------------------------------------------------------

  ghost predicate EmailInUse(users: seq<User>, email: string) {
    exists i :: 0 <= i < |users| && users[i].email == email
  }

  ghost predicate NicknameInUse(users: seq<User>, nickname: string) {
    exists i :: 0 <= i < |users| && SameIgnoringCase(users[i].nickname, nickname)
  }

  /** Some user other than `uid` holds `nickname`, ignoring case. */
  ghost predicate NicknameHeldByOther(users: seq<User>, nickname: string, uid: int) {
    exists i :: 0 <= i < |users| && SameIgnoringCase(users[i].nickname, nickname) && users[i].uid != uid
  }

  /** The login identifier matches a uid (through parseInt), an email, or a
      nickname, the nickname compared exactly. */
  predicate LoginMatch(u: User, id: string) {
    Some(u.uid) == ParseInt(id) || u.email == id || u.nickname == id
  }

  function FindLogin(users: seq<User>, id: string): (k: Option<nat>)
    ensures k.Some? ==> k.value < |users| && LoginMatch(users[k.value], id)
    ensures k.Some? ==> forall j :: 0 <= j < k.value ==> !LoginMatch(users[j], id)
    ensures k.None? ==> forall i :: 0 <= i < |users| ==> !LoginMatch(users[i], id)
  {
    FirstIndex(users, (u: User) => LoginMatch(u, id))
  }

  /** `users.find(u => u.uid === parseInt(uid))`; NaN equals no uid. */
  function FindUid(users: seq<User>, key: Option<int>): (k: Option<nat>)
    ensures k.Some? ==> k.value < |users| && key == Some(users[k.value].uid)
    ensures k.None? ==> forall i :: 0 <= i < |users| ==> key != Some(users[i].uid)
  {
    FirstIndex(users, (u: User) => Some(u.uid) == key)
  }

  /** Response of a successful login. */
  function SessionOf(u: User): Session {
    Session(u.uid, u.nickname, u.email, u.sessions, u.playTime, u.createdAt)
  }

  /** A user record after a successful login: HWID bound if the step says
      so, last login stamped, one more session; nothing else changes. */
  function AfterLogin(u: User, step: HwidStep, now: int): (v: User)
    requires step != Reject
    ensures v.sessions == u.sessions + 1 && v.lastLogin == Some(now)
    ensures v.uid == u.uid && v.email == u.email && v.nickname == u.nickname && v.password == u.password
    ensures v.hwid == AfterStep(u.hwid, step)
  {
    u.(hwid := AfterStep(u.hwid, step), lastLogin := Some(now), sessions := u.sessions + 1)
  }

  /** The update handler renames only when a non-empty nickname different
      from the current one is given. */
  predicate Renames(u: User, newNickname: string) {
    newNickname != "" && newNickname != u.nickname
  }

  /** A new password is taken only when it is at least 6 UTF-16 code units long. */
  predicate TakesPassword(newPassword: string) {
    newPassword != "" && Utf16Length(newPassword) >= 6
  }

  // ---------------------------------------------------------------------
  // The server
  // ---------------------------------------------------------------------

  class JsonDb {
    var users: seq<User>
    var nextUid: int
    const sha: string -> Sha256Hex

    ghost predicate Valid()
      reads this
    {
      TableValid(users, nextUid)
    }

    /** loadDB when no file exists yet: `{ users: [], nextUid: 1 }`. */
    constructor Create(sha: string -> Sha256Hex)
      ensures Valid() && users == [] && nextUid == 1 && this.sha == sha
    {
      this.sha := sha;
      users := [];
      nextUid := 1;
    }

    /** loadDB on an existing file, with the counter defaulting. */
    constructor Load(sha: string -> Sha256Hex, users: seq<User>, storedNextUid: int)
      ensures this.users == users && nextUid == LoadedNextUid(users, storedNextUid) && this.sha == sha
      ensures Loadable(users, storedNextUid) ==> Valid()
    {
      this.sha := sha;
      this.users := users;
      nextUid := if storedNextUid == 0 then |users| + 1 else storedNextUid;
      if Loadable(users, storedNextUid) {
        LoadedTableValid(users, storedNextUid);
      }
    }

    /** A user record after a successful profile update. */
    function Updated(u: User, newNickname: string, newPassword: string): (v: User)
      ensures v.uid == u.uid && v.email == u.email && v.hwid == u.hwid && v.sessions == u.sessions
      ensures v.nickname == (if Renames(u, newNickname) then newNickname else u.nickname)
      ensures v.password != u.password ==> TakesPassword(newPassword) && v.password == sha(newPassword)
      ensures TakesPassword(newPassword) ==> v.password == sha(newPassword)
      ensures v.createdAt == u.createdAt && v.lastLogin == u.lastLogin && v.playTime == u.playTime
    {
      u.(nickname := if Renames(u, newNickname) then newNickname else u.nickname,
         password := if TakesPassword(newPassword) then sha(newPassword) else u.password)
    }

    /** POST /api/register */
    method Register(email: string, nickname: string, password: string, now: int) returns (r: Reply<Registered>)
      requires Valid()
      modifies this
      ensures Valid()
      ensures !r.Silent?
      ensures r.Fail? ==> users == old(users) && nextUid == old(nextUid)
      ensures email == "" || nickname == "" || password == "" ==> r == Fail(BadRequest, MissingFields)
      ensures email != "" && nickname != "" && password != "" && Utf16Length(password) < 6 ==>
                r == Fail(BadRequest, ShortPassword)
      ensures email != "" && nickname != "" && Utf16Length(password) >= 6 && EmailInUse(old(users), email) ==>
                r == Fail(BadRequest, EmailTaken)
      ensures (email != "" && nickname != "" && Utf16Length(password) >= 6 && !EmailInUse(old(users), email)
               && NicknameInUse(old(users), nickname)) ==> r == Fail(BadRequest, NicknameTaken)
      ensures r.Ok? <==> email != "" && nickname != "" && Utf16Length(password) >= 6
                         && !EmailInUse(old(users), email) && !NicknameInUse(old(users), nickname)
      ensures r.Ok? ==> r.value == Registered(old(nextUid), nickname) && nextUid == old(nextUid) + 1
      ensures r.Ok? ==> users == old(users) + [NewUser(old(nextUid), email, nickname, sha(password), now)]
    {
      if email == "" || nickname == "" || password == "" {
        return Fail(BadRequest, MissingFields);
      }
      if Utf16Length(password) < 6 {
        return Fail(BadRequest, ShortPassword);
      }
      var sameEmail := FirstIndex(users, (u: User) => u.email == email);
      if sameEmail.Some? {
        return Fail(BadRequest, EmailTaken);
      }
      var sameNickname := FirstIndex(users, (u: User) => Lower(u.nickname) == Lower(nickname));
      if sameNickname.Some? {
        return Fail(BadRequest, NicknameTaken);
      }
      var uid := nextUid;
      nextUid := nextUid + 1;
      users := users + [NewUser(uid, email, nickname, sha(password), now)];
      r := Ok(Registered(uid, nickname));
    }

    /** POST /api/login: the identifier is a uid, an email or an exact nickname. */
    method Login(id: string, password: string, hwid: string, now: int) returns (r: Reply<Session>)
      requires Valid()
      modifies this
      ensures Valid() && nextUid == old(nextUid)
      ensures !r.Silent?
      ensures r.Fail? ==> users == old(users)
      ensures id == "" || password == "" ==> r == Fail(BadRequest, MissingFields)
      ensures id != "" && password != "" ==>
        var k := FindLogin(old(users), id);
        && (k.None? ==> r == Fail(Unauthorized, UnknownUser))
        && (k.Some? ==>
              var u := old(users)[k.value];
              var step := LoginHwidStep(sha, u.hwid, hwid);
              && (sha(password) != u.password ==> r == Fail(Unauthorized, WrongPassword))
              && (sha(password) == u.password && step == Reject ==> r == Fail(Forbidden, HwidMismatch))
              && (sha(password) == u.password && step != Reject ==>
                    && users == old(users)[k.value := AfterLogin(u, step, now)]
                    && r == Ok(SessionOf(AfterLogin(u, step, now)))))
    {
      if id == "" || password == "" {
        return Fail(BadRequest, MissingFields);
      }
      var k := FindLogin(users, id);
      if k.None? {
        return Fail(Unauthorized, UnknownUser);
      }
      var i := k.value;
      var u := users[i];
      if sha(password) != u.password {
        return Fail(Unauthorized, WrongPassword);
      }
      var step := LoginHwidStep(sha, u.hwid, hwid);
      if step == Reject {
        return Fail(Forbidden, HwidMismatch);
      }
      if step.BindTo? {
        u := u.(hwid := Some(step.hash));
      }
      u := u.(lastLogin := Some(now));
      u := u.(sessions := u.sessions + 1);
      assert u == AfterLogin(users[i], step, now);
      OwnNicknameUnique(users, nextUid, i);
      ReplaceKeepsValid(users, nextUid, i, u);
      users := users[i := u];
      r := Ok(SessionOf(u));
    }

    /** POST /api/user/update */
    method Update(uid: string, password: string, newNickname: string, newPassword: string)
      returns (r: Reply<string>)
      requires Valid()
      modifies this
      ensures Valid() && nextUid == old(nextUid)
      ensures !r.Silent?
      ensures r.Fail? ==> users == old(users)
      ensures
        var k := FindUid(old(users), ParseInt(uid));
        && (k.None? ==> r == Fail(NotFound, UnknownUser))
        && (k.Some? ==>
              var u := old(users)[k.value];
              && (sha(password) != u.password ==> r == Fail(Unauthorized, WrongPassword))
              && (sha(password) == u.password && Renames(u, newNickname)
                  && NicknameHeldByOther(old(users), newNickname, u.uid) ==>
                    r == Fail(BadRequest, NicknameTaken))
              && (sha(password) == u.password
                  && !(Renames(u, newNickname) && NicknameHeldByOther(old(users), newNickname, u.uid)) ==>
                    && users == old(users)[k.value := Updated(u, newNickname, newPassword)]
                    && r == Ok(Updated(u, newNickname, newPassword).nickname)))
    {
      var k := FindUid(users, ParseInt(uid));
      if k.None? {
        return Fail(NotFound, UnknownUser);
      }
      var i := k.value;
      var u := users[i];
      if sha(password) != u.password {
        return Fail(Unauthorized, WrongPassword);
      }
      var v := u;
      if newNickname != "" && newNickname != u.nickname {
        var holder := FirstIndex(users, (w: User) => Lower(w.nickname) == Lower(newNickname) && w.uid != u.uid);
        if holder.Some? {
          return Fail(BadRequest, NicknameTaken);
        }
        forall j | 0 <= j < |users| && j != i
          ensures !SameIgnoringCase(users[j].nickname, newNickname)
        {
          assert users[j].uid != u.uid;
        }
        v := v.(nickname := newNickname);
      } else {
        OwnNicknameUnique(users, nextUid, i);
      }
      if TakesPassword(newPassword) {
        v := v.(password := sha(newPassword));
      }
      assert v == Updated(u, newNickname, newPassword);
      ReplaceKeepsValid(users, nextUid, i, v);
      users := users[i := v];
      r := Ok(v.nickname);
    }

    /** POST /api/reset-hwid: the owner's password clears the binding. */
    method ResetHwid(uid: string, password: string) returns (r: Reply<()>)
      requires Valid()
      modifies this
      ensures Valid() && nextUid == old(nextUid)
      ensures !r.Silent?
      ensures r.Fail? ==> users == old(users)
      ensures
        var k := FindUid(old(users), ParseInt(uid));
        && (k.None? ==> r == Fail(NotFound, UnknownUser))
        && (k.Some? && sha(password) != old(users)[k.value].password ==> r == Fail(Unauthorized, WrongPassword))
        && (k.Some? && sha(password) == old(users)[k.value].password ==>
              r == Ok(()) && users == old(users)[k.value := old(users)[k.value].(hwid := None)])
    {
      var k := FindUid(users, ParseInt(uid));
      if k.None? {
        return Fail(NotFound, UnknownUser);
      }
      var i := k.value;
      if sha(password) != users[i].password {
        return Fail(Unauthorized, WrongPassword);
      }
      users := users[i := users[i].(hwid := None)];
      r := Ok(());
    }

    /** POST /api/verify: read-only; the answer is the nickname when the
        uid exists and the HWID, if supplied, matches a bound one. */
    method Verify(uid: string, hwid: string) returns (r: Reply<string>)
      ensures !r.Silent?
      ensures
        var k := FindUid(users, ParseInt(uid));
        && (k.None? ==> r == Fail(Unauthorized, UnknownUser))
        && (k.Some? ==>
              && (r.Fail? <==> VerifyRejects(sha, users[k.value].hwid, hwid))
              && (r.Fail? ==> r == Fail(Forbidden, HwidMismatch))
              && (r.Ok? ==> r.value == users[k.value].nickname))
    {
      var k := FindUid(users, ParseInt(uid));
      if k.None? {
        return Fail(Unauthorized, UnknownUser);
      }
      var u := users[k.value];
      if hwid != "" {
        var h := HashHwid(sha, hwid);
        if Bound(u.hwid) && u.hwid.value != h {
          return Fail(Forbidden, HwidMismatch);
        }
      }
      r := Ok(u.nickname);
    }

    /** GET /api/next-uid: the uid the next registration will receive,
        which no current user holds. */
    method NextUid() returns (n: int)
      requires Valid()
      ensures n == nextUid && n >= 1
      ensures forall i :: 0 <= i < |users| ==> users[i].uid < n
    {
      n := nextUid;
    }
  }
}

/** The `users` table shared by the PostgreSQL server (api/server-postgres.js)
    and the hybrid server (website2/api/server.js), and the read side of
    their handlers: every `SELECT` they issue is a function here, every
    handler's sequence of checks a decision function whose answer the
    server classes then apply with `UPDATE` / `INSERT` / `DELETE`.

    The table is kept in uid order (an invariant every operation keeps), so
    the `rows[0]` of a query without `ORDER BY` is modelled as its
    lowest-uid row, and `ORDER BY uid ASC` is the table order itself. */
module PgTable {
  import opened Common
  import opened Text
  import opened Hwid

  datatype Role = User | Admin | YouTube | TikTok | Vip | Beta

  /** The text stored in the `role` column. */
  function RoleName(r: Role): string {
    match r
    case User => "user"
    case Admin => "admin"
    case YouTube => "youtube"
    case TikTok => "tiktok"
    case Vip => "vip"
    case Beta => "beta"
  }

  /** The role a `role` request field names, if any. */
  function ParseRole(s: string): (r: Option<Role>)
    ensures r.Some? ==> RoleName(r.value) == s
    ensures r.None? ==> forall x: Role :: RoleName(x) != s
  {
    if s == "user" then Some(User)
    else if s == "admin" then Some(Admin)
    else if s == "youtube" then Some(YouTube)
    else if s == "tiktok" then Some(TikTok)
    else if s == "vip" then Some(Vip)
    else if s == "beta" then Some(Beta)
    else None
  }

  lemma ParseRoleName(r: Role)
    ensures ParseRole(RoleName(r)) == Some(r)
  {
  }

  datatype Account = Account(
    uid: int,
    email: string,
    nickname: string,
    passwordHash: string,      // bcrypt hash
    role: Role,
    banned: bool,
    hwid: Option<string>,      // bound HWID hash, None is NULL
    sessions: int,
    createdAt: int,
    lastLogin: Option<int>,
    playTime: int)

  /** The columns the admin listing returns: no password hash, no HWID. */
  datatype Summary = Summary(
    uid: int, nickname: string, email: string, role: Role, banned: bool,
    sessions: int, createdAt: int, lastLogin: Option<int>)

  function SummaryOf(a: Account): Summary {
    Summary(a.uid, a.nickname, a.email, a.role, a.banned, a.sessions, a.createdAt, a.lastLogin)
  }

  /** Body of a successful registration answer. */
  datatype Registered = Registered(uid: int, nickname: string, role: Role)

  /** Body of a successful login answer. */
  datatype Session = Session(uid: int, nickname: string, email: string, role: Role,
                             sessions: int, playTime: int, createdAt: int)

  /** Body of a successful verify answer. */
  datatype Verified = Verified(nickname: string, role: Role)

  // ---------------------------------------------------------------------
  // Integer parameters
  // ---------------------------------------------------------------------

  const Int4Min: int := -0x8000_0000
  const Int4Max: int := 0x7fff_ffff

  /** `parseInt(s)` passed as a parameter compared with the integer `uid`
      column: NaN or a value outside the 32-bit range makes PostgreSQL
      reject the query (None), which the handlers answer with 500. */
  function IntParam(s: string): (r: Option<int>)
    ensures r.Some? ==> ParseInt(s) == r && Int4Min <= r.value <= Int4Max
    ensures r.None? ==> ParseInt(s).None? || !(Int4Min <= ParseInt(s).value <= Int4Max)
  {
    match ParseInt(s)
    case None => None
    case Some(n) => if Int4Min <= n <= Int4Max then Some(n) else None
  }

  /** The uid parameter of the login query: `isNaN(uid) ? -1 : parseInt(uid)`. */
  function LoginKey(id: string): (r: Option<int>)
    ensures NumberIsNaN(id) ==> r == Some(-1)
    ensures !NumberIsNaN(id) ==> r == IntParam(id)
  {
    if NumberIsNaN(id) then Some(-1) else IntParam(id)
  }

  /** The numeral of any uid in the 32-bit range reaches the query as that
      uid. */
  lemma IntParamDecimal(n: nat)
    requires n <= Int4Max
    ensures IntParam(Decimal(n)) == Some(n)
  {
    ParseIntDecimal(n, "");
    assert Decimal(n) + "" == Decimal(n);
  }

  /** Typing a uid's numeral at login puts that uid in the query. */
  lemma LoginKeyNumeral(n: nat)
    requires n <= Int4Max
    ensures LoginKey(Decimal(n)) == Some(n)
  {
    var d := Decimal(n);
    assert !IsSpace(d[0]) && !IsSpace(d[|d| - 1]);
    assert SkipSpaces(d) == d && DropTrailingSpaces(d) == d;
    assert Unsigned(d) == d;
    LeadingDigitsOfNumeral(d, "");
    assert d + "" == d;
    assert d[|d|..] == "";
    IntParamDecimal(n);
  }

  /** An identifier that is not a number reaches the query as -1. */
  lemma LoginKeyWord()
    ensures LoginKey("alice") == Some(-1)
  {
    UnspacedTrim("alice");
    assert LeadingDigits("alice") == "";
    assert !IsNonDecimal("alice") && !IsUnsignedDecimal("alice");
  }

  /** A numeral parseInt cannot read (".5") makes the query fail. */
  lemma LoginKeyFraction()
    ensures LoginKey(".5") == None
  {
    var s := ".5";
    UnspacedTrim(s);
    assert Unsigned(s) == s;
    assert LeadingDigits(s) == "" && s[1..] == "5" && LeadingDigits("5") == "5";
    assert IsUnsignedDecimal(s);
    assert !NumberIsNaN(s);
    assert AfterSign(s) == s;
    ParseIntNaN(s);
  }

  /** A hexadecimal numeral is read as such. */
  lemma LoginKeyHex()
    ensures LoginKey("0x1F") == Some(31)
  {
    var s := "0x1F";
    UnspacedTrim(s);
    assert IsHex(s[2]) && IsHex(s[3]);
    assert IsNonDecimal(s);
    assert Unsigned(s) == s && HexPrefixed(s);
    var h := s[2..];
    assert h == "1F" && h[1..] == "F" && LeadingHex("F") == "F";
    assert LeadingHex(h) == h;
    assert HexValue('F') == 15 && HexValue('1') == 1;
    assert h[..1] == "1" && "1"[..0] == "";
    assert HexDigitsValue(h) == 31;
    assert ParseInt(s) == Some(31);
  }

  // ---------------------------------------------------------------------
  // The table invariant
  // ---------------------------------------------------------------------

  ghost predicate UidsIncreasing(users: seq<Account>) {
    forall i, j :: 0 <= i < j < |users| ==> users[i].uid < users[j].uid
  }

  ghost predicate UidsBelow(users: seq<Account>, serial: int) {
    forall i :: 0 <= i < |users| ==> 1 <= users[i].uid < serial
  }

  ghost predicate EmailsDistinct(users: seq<Account>) {
    forall i, j :: 0 <= i < j < |users| ==> users[i].email != users[j].email
  }

  ghost predicate NicknamesDistinct(users: seq<Account>) {
    forall i, j :: 0 <= i < j < |users| ==> !SameIgnoringCase(users[i].nickname, users[j].nickname)
  }

  ghost predicate WellFormedRecords(users: seq<Account>) {
    forall i :: 0 <= i < |users| ==>
      users[i].sessions >= 0 && (users[i].hwid.Some? ==> IsHwidHash(users[i].hwid.value))
  }

  /** uids are positive, increasing in table order and below the `uid`
      sequence's next value `serial`; emails are distinct; nicknames are
      distinct ignoring case; bound HWIDs are 32-character hashes. */
  ghost predicate TableValid(users: seq<Account>, serial: int) {
    && 1 <= serial
    && UidsIncreasing(users)
    && UidsBelow(users, serial)
    && EmailsDistinct(users)
    && NicknamesDistinct(users)
    && WellFormedRecords(users)
  }

  /** Replacing one row by one with the same uid and email, a nickname no
      other row holds, and well-formed fields keeps the table valid. */
  lemma ReplaceKeepsValid(users: seq<Account>, serial: int, i: nat, v: Account)
    requires TableValid(users, serial) && i < |users|
    requires v.uid == users[i].uid && v.email == users[i].email
    requires v.sessions >= 0 && (v.hwid.Some? ==> IsHwidHash(v.hwid.value))
    requires forall j :: 0 <= j < |users| && j != i ==> !SameIgnoringCase(users[j].nickname, v.nickname)
    ensures TableValid(users[i := v], serial)
  {
    var t := users[i := v];
    forall a, b | 0 <= a < b < |t|
      ensures !SameIgnoringCase(t[a].nickname, t[b].nickname)
    {
      if a == i {
        assert !SameIgnoringCase(users[b].nickname, v.nickname);
      } else if b == i {
        assert !SameIgnoringCase(users[a].nickname, v.nickname);
      }
    }
  }

  /** In a valid table no row other than `i` shares row `i`'s nickname. */
  lemma OwnNicknameUnique(users: seq<Account>, serial: int, i: nat)
    requires TableValid(users, serial) && i < |users|
    ensures forall j :: 0 <= j < |users| && j != i ==> !SameIgnoringCase(users[j].nickname, users[i].nickname)
  {
    forall j | 0 <= j < |users| && j != i
      ensures !SameIgnoringCase(users[j].nickname, users[i].nickname)
    {
      if j < i {
        assert !SameIgnoringCase(users[j].nickname, users[i].nickname);
      } else {
        assert !SameIgnoringCase(users[i].nickname, users[j].nickname);
      }
    }
  }

  /** Changing a row's fields other than uid, email, nickname, sessions and
      HWID (role, ban flag, password hash, timestamps) keeps the table valid. */
  lemma RetouchKeepsValid(users: seq<Account>, serial: int, i: nat, v: Account)
    requires TableValid(users, serial) && i < |users|
    requires v.uid == users[i].uid && v.email == users[i].email && v.nickname == users[i].nickname
    requires v.sessions >= 0 && (v.hwid.Some? ==> IsHwidHash(v.hwid.value))
    ensures TableValid(users[i := v], serial)
  {
    OwnNicknameUnique(users, serial, i);
    ReplaceKeepsValid(users, serial, i, v);
  }

  /** `DELETE ... WHERE uid = ...` of one row keeps the table valid. */
  lemma RemoveKeepsValid(users: seq<Account>, serial: int, i: nat)
    requires TableValid(users, serial) && i < |users|
    ensures TableValid(users[..i] + users[i + 1..], serial)
  {
    var t := users[..i] + users[i + 1..];
    assert forall a :: 0 <= a < |t| ==> t[a] == users[if a < i then a else a + 1];
  }

  // ---------------------------------------------------------------------
  // SELECTs
  // ---------------------------------------------------------------------

  ghost predicate EmailInUse(users: seq<Account>, email: string) {
    exists i :: 0 <= i < |users| && users[i].email == email
  }

  ghost predicate NicknameInUse(users: seq<Account>, nickname: string) {
    exists i :: 0 <= i < |users| && SameIgnoringCase(users[i].nickname, nickname)
  }

  /** `WHERE LOWER(nickname) = LOWER($1) AND uid != $2` finds a row. */
  ghost predicate NicknameHeldByOther(users: seq<Account>, nickname: string, uid: int) {
    exists i :: 0 <= i < |users| && SameIgnoringCase(users[i].nickname, nickname) && users[i].uid != uid
  }

  /** `SELECT ... WHERE uid = $1`. */
  function RowOf(users: seq<Account>, key: int): (k: Option<nat>)
    ensures k.Some? ==> k.value < |users| && users[k.value].uid == key
    ensures k.None? ==> forall i :: 0 <= i < |users| ==> users[i].uid != key
  {
    FirstIndex(users, (a: Account) => a.uid == key)
  }

  /** `WHERE email = $1 OR LOWER(nickname) = LOWER($2)`: the registration
      conflict query. */
  predicate Conflicts(a: Account, email: string, nickname: string) {
    a.email == email || Lower(a.nickname) == Lower(nickname)
  }

  /** `WHERE uid = $1 OR email = $2 OR LOWER(nickname) = LOWER($3)`: the
      login query; unlike the JSON server, nicknames match ignoring case. */
  predicate LoginMatch(a: Account, key: int, id: string) {
    a.uid == key || a.email == id || Lower(a.nickname) == Lower(id)
  }

  function LoginRow(users: seq<Account>, key: int, id: string): (k: Option<nat>)
    ensures k.Some? ==> k.value < |users| && LoginMatch(users[k.value], key, id)
    ensures k.Some? ==> forall j :: 0 <= j < k.value ==> !LoginMatch(users[j], key, id)
    ensures k.None? ==> forall i :: 0 <= i < |users| ==> !LoginMatch(users[i], key, id)
  {
    FirstIndex(users, (a: Account) => LoginMatch(a, key, id))
  }

  /** `SELECT COALESCE(MAX(uid), 0)`. */
  function MaxUid(users: seq<Account>): (m: int)
    ensures forall i :: 0 <= i < |users| ==> users[i].uid <= m
    ensures |users| == 0 ==> m == 0
    ensures |users| > 0 ==> exists i :: 0 <= i < |users| && users[i].uid == m
  {
    if |users| == 0 then 0
    else
      var rest := MaxUid(users[1..]);
      if |users| == 1 || users[0].uid >= rest then users[0].uid else rest
  }

  /** The rows of `SELECT ... FROM users ORDER BY uid ASC`, projected to the
      listed columns. */
  function Listing(users: seq<Account>): (r: seq<Summary>)
    ensures |r| == |users|
    ensures forall i :: 0 <= i < |users| ==> r[i] == SummaryOf(users[i])
  {
    seq(|users|, i requires 0 <= i < |users| => SummaryOf(users[i]))
  }

  /** In a valid table the listing is strictly ascending by uid. */
  lemma ListingAscending(users: seq<Account>, serial: int)
    requires TableValid(users, serial)
    ensures forall i, j :: 0 <= i < j < |Listing(users)| ==> Listing(users)[i].uid < Listing(users)[j].uid
  {
  }

  /** `COALESCE(MAX(uid), 0) + 1` never exceeds the sequence's next value
      in a valid table. */
  lemma MaxUidBelowSerial(users: seq<Account>, serial: int)
    requires TableValid(users, serial)
    ensures MaxUid(users) + 1 <= serial
  {
  }

  // ---------------------------------------------------------------------
  // Decisions of the handlers, after their request-level checks
  // ---------------------------------------------------------------------

  /** The request checks of `/api/register`, made before the table is
      touched: all fields present, password of 6 or more characters,
      nickname of 16 or fewer, both counted in UTF-16 code units. */
  function RegisterInputError(email: string, nickname: string, password: string): (r: Option<Why>)
    ensures r.None? <==> email != "" && nickname != "" && password != "" && Utf16Length(password) >= 6
                         && Utf16Length(nickname) <= 16
    ensures (email == "" || nickname == "" || password == "") ==> r == Some(MissingFields)
    ensures r == Some(LongNickname) ==> Utf16Length(password) >= 6
  {
    if email == "" || nickname == "" || password == "" then Some(MissingFields)
    else if Utf16Length(password) < 6 then Some(ShortPassword)
    else if Utf16Length(nickname) > 16 then Some(LongNickname)
    else None
  }

  /** The duplicate check of `/api/register`: the first conflicting row
      reports "email taken" when its email is the requested one, and
      "nickname taken" otherwise. The first row is the one with the lowest
      uid. */
  function RegisterConflict(users: seq<Account>, email: string, nickname: string): (r: Option<Why>)
    ensures r.None? <==> !EmailInUse(users, email) && !NicknameInUse(users, nickname)
    ensures r == Some(EmailTaken) ==> EmailInUse(users, email)
    ensures r == Some(NicknameTaken) ==> NicknameInUse(users, nickname)
    ensures r.Some? ==> r == Some(EmailTaken) || r == Some(NicknameTaken)
    ensures r == Some(EmailTaken) <==>
      exists k :: 0 <= k < |users| && users[k].email == email
        && forall j :: 0 <= j < k ==> !Conflicts(users[j], email, nickname)
  {
    match FirstIndex(users, (a: Account) => Conflicts(a, email, nickname))
    case None => None
    case Some(k) =>
      if users[k].email == email then Some(EmailTaken)
      else
        assert forall k' :: 0 <= k' < |users| && users[k'].email == email ==> k < k' by {
          forall k' | 0 <= k' < |users| && users[k'].email == email
            ensures k < k'
          {
            if k' <= k {
              assert Conflicts(users[k'], email, nickname);
            }
          }
        }
        Some(NicknameTaken)
  }

  /** The first account ever registered becomes an admin, every later one a user. */
  function NewAccountRole(users: seq<Account>): (r: Role)
    ensures r == Admin <==> |users| == 0
    ensures r != Admin ==> r == User
  {
    if |users| == 0 then Admin else User
  }

  /** The row an INSERT adds: not banned, no HWID, no sessions. */
  function NewAccount(uid: int, email: string, nickname: string, hash: string, role: Role, now: int): (a: Account)
    ensures !a.banned && a.hwid.None? && a.sessions == 0 && a.lastLogin.None?
    ensures a.uid == uid && a.email == email && a.nickname == nickname && a.passwordHash == hash && a.role == role
  {
    Account(uid, email, nickname, hash, role, false, None, 0, now, None, 0)
  }

  /** Appending a row whose uid is the sequence value and whose email and
      nickname are unused keeps the table valid with the sequence advanced. */
  lemma AppendKeepsValid(users: seq<Account>, serial: int, a: Account)
    requires TableValid(users, serial)
    requires a.uid == serial && !EmailInUse(users, a.email) && !NicknameInUse(users, a.nickname)
    requires a.sessions >= 0 && a.hwid.None?
    ensures TableValid(users + [a], serial + 1)
  {
    var t := users + [a];
    forall i, j | 0 <= i < j < |t|
      ensures !SameIgnoringCase(t[i].nickname, t[j].nickname) && t[i].email != t[j].email
    {
      if j == |users| {
        assert !SameIgnoringCase(users[i].nickname, a.nickname);
      }
    }
  }

  /** What a login that passed every check does. */
  datatype LoginGrant = LoginGrant(row: nat, step: HwidStep)

  /** The checks `/api/login` makes on the matched row, in the source's
      order: the ban is checked before the password, and the HWID only once
      the password is right. */
  function AccountLogin(a: Account, hash: string -> string, sha: string -> Sha256Hex,
                        password: string, hwid: string): (r: Reply<HwidStep>)
    ensures !r.Silent?
    ensures a.banned ==> r == Fail(Forbidden, Banned)
    ensures !a.banned && hash(password) != a.passwordHash ==> r == Fail(Unauthorized, WrongPassword)
    ensures !a.banned && hash(password) == a.passwordHash ==>
      && (r.Fail? <==> VerifyRejects(sha, a.hwid, hwid))
      && (r.Fail? ==> r == Fail(Forbidden, HwidMismatch))
    ensures r.Ok? ==> r.value == LoginHwidStep(sha, a.hwid, hwid) && r.value != Reject
  {
    if a.banned then Fail(Forbidden, Banned)
    else if hash(password) != a.passwordHash then Fail(Unauthorized, WrongPassword)
    else
      var step := LoginHwidStep(sha, a.hwid, hwid);
      if step == Reject then Fail(Forbidden, HwidMismatch)
      else Ok(step)
  }

  /** The checks of `/api/login` once identifier and password are present:
      the query must run (500 otherwise), a row must match (401 otherwise),
      and that row must pass `AccountLogin`. */
  function LoginDecision(users: seq<Account>, hash: string -> string, sha: string -> Sha256Hex,
                         id: string, password: string, hwid: string): (r: Reply<LoginGrant>)
    ensures !r.Silent?
    ensures LoginKey(id).None? ==> r == Fail(ServerError, BadQuery)
    ensures LoginKey(id).Some? && LoginRow(users, LoginKey(id).value, id).None? ==>
      r == Fail(Unauthorized, UnknownUser)
    ensures LoginKey(id).Some? && LoginRow(users, LoginKey(id).value, id).Some? ==>
      var k := LoginRow(users, LoginKey(id).value, id).value;
      match AccountLogin(users[k], hash, sha, password, hwid)
      case Ok(step) => r == Ok(LoginGrant(k, step))
      case Fail(st, why) => r == Fail(st, why)
      case Silent => false
  {
    match LoginKey(id)
    case None => Fail(ServerError, BadQuery)
    case Some(key) =>
      match LoginRow(users, key, id)
      case None => Fail(Unauthorized, UnknownUser)
      case Some(k) =>
        match AccountLogin(users[k], hash, sha, password, hwid)
        case Ok(step) => Ok(LoginGrant(k, step))
        case Fail(st, why) => Fail(st, why)
        case Silent => Silent
  }

  /** A banned account cannot log in, whatever password and HWID it offers. */
  lemma BannedCannotLogIn(users: seq<Account>, hash: string -> string, sha: string -> Sha256Hex,
                          id: string, password: string, hwid: string)
    requires LoginKey(id).Some? && LoginRow(users, LoginKey(id).value, id).Some?
    requires users[LoginRow(users, LoginKey(id).value, id).value].banned
    ensures LoginDecision(users, hash, sha, id, password, hwid) == Fail(Forbidden, Banned)
  {
  }

  /** A row after a successful login: HWID bound if it was unbound and one
      was supplied, one more session, last login stamped. */
  function AfterLogin(a: Account, step: HwidStep, now: int): (v: Account)
    requires step != Reject
    ensures v.sessions == a.sessions + 1 && v.lastLogin == Some(now)
    ensures v.hwid == AfterStep(a.hwid, step)
    ensures v.uid == a.uid && v.email == a.email && v.nickname == a.nickname
    ensures v.passwordHash == a.passwordHash && v.role == a.role && v.banned == a.banned
  {
    a.(hwid := AfterStep(a.hwid, step), lastLogin := Some(now), sessions := a.sessions + 1)
  }

  function SessionOf(a: Account): Session {
    Session(a.uid, a.nickname, a.email, a.role, a.sessions, a.playTime, a.createdAt)
  }

  /** `/api/verify`, which only reads: unknown uid 401, banned 403, an HWID
      that differs from a bound one 403, otherwise the nickname and role. */
  function VerifyAnswer(users: seq<Account>, sha: string -> Sha256Hex, uid: string, hwid: string): (r: Reply<Verified>)
    ensures !r.Silent?
    ensures IntParam(uid).None? ==> r == Fail(ServerError, BadQuery)
    ensures IntParam(uid).Some? ==>
      var k := RowOf(users, IntParam(uid).value);
      && (k.None? ==> r == Fail(Unauthorized, UnknownUser))
      && (k.Some? ==>
            var a := users[k.value];
            && (r.Ok? <==> !a.banned && !VerifyRejects(sha, a.hwid, hwid))
            && (a.banned ==> r == Fail(Forbidden, Banned))
            && (!a.banned && VerifyRejects(sha, a.hwid, hwid) ==> r == Fail(Forbidden, HwidMismatch))
            && (r.Ok? ==> r.value == Verified(a.nickname, a.role)))
  {
    match IntParam(uid)
    case None => Fail(ServerError, BadQuery)
    case Some(key) =>
      match RowOf(users, key)
      case None => Fail(Unauthorized, UnknownUser)
      case Some(k) =>
        var a := users[k];
        if a.banned then Fail(Forbidden, Banned)
        else if hwid != "" && Bound(a.hwid) && a.hwid.value != HashHwid(sha, hwid) then Fail(Forbidden, HwidMismatch)
        else Ok(Verified(a.nickname, a.role))
  }

  /** An account that logged in with an HWID verifies with the same HWID
      afterwards (as long as it is not banned). */
  lemma VerifyAfterLogin(users: seq<Account>, serial: int, sha: string -> Sha256Hex,
                         i: nat, uid: string, hwid: string, now: int)
    requires TableValid(users, serial) && i < |users| && !users[i].banned
    requires IntParam(uid) == Some(users[i].uid)
    requires LoginHwidStep(sha, users[i].hwid, hwid) != Reject
    ensures
      var after := users[i := AfterLogin(users[i], LoginHwidStep(sha, users[i].hwid, hwid), now)];
      VerifyAnswer(after, sha, uid, hwid) == Ok(Verified(users[i].nickname, users[i].role))
  {
    var after := users[i := AfterLogin(users[i], LoginHwidStep(sha, users[i].hwid, hwid), now)];
    var k := RowOf(after, users[i].uid);
    assert after[i].uid == users[i].uid;
    assert k.Some? && k.value == i;
  }

  /** The credential checks of `/api/user/update` and `/api/reset-hwid`:
      the row with that uid must exist (404) and the password match (401). */
  function OwnerDecision(users: seq<Account>, hash: string -> string, uid: string, password: string): (r: Reply<nat>)
    ensures !r.Silent?
    ensures r.Ok? ==> IntParam(uid).Some? && r.value < |users| && users[r.value].uid == IntParam(uid).value
    ensures IntParam(uid).None? ==> r == Fail(ServerError, BadQuery)
    ensures IntParam(uid).Some? && RowOf(users, IntParam(uid).value).None? ==> r == Fail(NotFound, UnknownUser)
    ensures IntParam(uid).Some? && RowOf(users, IntParam(uid).value).Some? ==>
      var k := RowOf(users, IntParam(uid).value).value;
      && (hash(password) == users[k].passwordHash ==> r == Ok(k))
      && (hash(password) != users[k].passwordHash ==> r == Fail(Unauthorized, WrongPassword))
  {
    match IntParam(uid)
    case None => Fail(ServerError, BadQuery)
    case Some(key) =>
      match RowOf(users, key)
      case None => Fail(NotFound, UnknownUser)
      case Some(k) => if hash(password) != users[k].passwordHash then Fail(Unauthorized, WrongPassword) else Ok(k)
  }

  /** The caller check of every admin route: the caller's row must exist
      and have role admin (403), then the caller's password must match
      (401). The answer is the caller's row. */
  function AdminDecision(users: seq<Account>, hash: string -> string, uid: string, password: string): (r: Reply<nat>)
    ensures !r.Silent?
    ensures r.Ok? ==>
      && r.value < |users| && users[r.value].role == Admin
      && hash(password) == users[r.value].passwordHash
      && IntParam(uid) == Some(users[r.value].uid)
    ensures IntParam(uid).None? ==> r == Fail(ServerError, BadQuery)
    ensures IntParam(uid).Some? ==>
      var k := RowOf(users, IntParam(uid).value);
      && (k.None? || users[k.value].role != Admin ==> r == Fail(Forbidden, NoAccess))
      && (k.Some? && users[k.value].role == Admin && hash(password) != users[k.value].passwordHash ==>
            r == Fail(Unauthorized, WrongPassword))
      && (k.Some? && users[k.value].role == Admin && hash(password) == users[k.value].passwordHash ==>
            r == Ok(k.value))
  {
    match IntParam(uid)
    case None => Fail(ServerError, BadQuery)
    case Some(key) =>
      match RowOf(users, key)
      case None => Fail(Forbidden, NoAccess)
      case Some(k) =>
        if users[k].role != Admin then Fail(Forbidden, NoAccess)
        else if hash(password) != users[k].passwordHash then Fail(Unauthorized, WrongPassword)
        else Ok(k)
  }

  /** The target check of ban and delete: an existing target whose role is
      admin is refused (400); a missing target passes, the answer being the
      target's row when there is one. */
  function TargetDecision(users: seq<Account>, targetUid: string): (r: Reply<Option<nat>>)
    ensures !r.Silent?
    ensures IntParam(targetUid).None? ==> r == Fail(ServerError, BadQuery)
    ensures IntParam(targetUid).Some? ==>
      var k := RowOf(users, IntParam(targetUid).value);
      && (k.Some? && users[k.value].role == Admin ==> r == Fail(BadRequest, AdminTarget))
      && (k.Some? && users[k.value].role != Admin ==> r == Ok(k))
      && (k.None? ==> r == Ok(None))
    ensures r.Ok? && r.value.Some? ==> r.value.value < |users| && users[r.value.value].role != Admin
  {
    match IntParam(targetUid)
    case None => Fail(ServerError, BadQuery)
    case Some(key) =>
      match RowOf(users, key)
      case None => Ok(None)
      case Some(k) => if users[k].role == Admin then Fail(BadRequest, AdminTarget) else Ok(Some(k))
  }

  /** Admin immunity: no target decision ever lets an admin row through. */
  lemma AdminTargetsAreImmune(users: seq<Account>, serial: int, targetUid: string, i: nat)
    requires TableValid(users, serial) && i < |users| && users[i].role == Admin
    requires IntParam(targetUid) == Some(users[i].uid)
    ensures TargetDecision(users, targetUid) == Fail(BadRequest, AdminTarget)
  {
    var k := RowOf(users, users[i].uid);
    assert k.Some? && k.value == i;
  }

  // ---------------------------------------------------------------------
  // Writes
  // ---------------------------------------------------------------------

  /** A row after `/api/user/update`: a non-empty new nickname replaces the
      old one (no length limit here), a new password of 6 or more
      UTF-16 code units replaces the hash, and a shorter one is silently ignored. */
  function Revised(a: Account, hash: string -> string, newNickname: string, newPassword: string): (v: Account)
    ensures v.uid == a.uid && v.email == a.email && v.role == a.role && v.banned == a.banned
    ensures v.hwid == a.hwid && v.sessions == a.sessions && v.createdAt == a.createdAt
    ensures v.nickname == (if newNickname != "" then newNickname else a.nickname)
    ensures v.lastLogin == a.lastLogin && v.playTime == a.playTime
    ensures v.passwordHash != a.passwordHash ==> Utf16Length(newPassword) >= 6 && v.passwordHash == hash(newPassword)
    ensures Utf16Length(newPassword) >= 6 ==> v.passwordHash == hash(newPassword)
  {
    a.(nickname := if newNickname != "" then newNickname else a.nickname,
       passwordHash := if newPassword != "" && Utf16Length(newPassword) >= 6 then hash(newPassword) else a.passwordHash)
  }

  /** `UPDATE users SET role = $1 WHERE uid = $2`: every row with that uid
      (at most one) takes the role, every other row is unchanged. */
  function SetRoleOf(users: seq<Account>, target: int, role: Role): (r: seq<Account>)
    ensures |r| == |users|
    ensures forall i :: 0 <= i < |users| ==>
      r[i] == if users[i].uid == target then users[i].(role := role) else users[i]
  {
    seq(|users|, i requires 0 <= i < |users| =>
      if users[i].uid == target then users[i].(role := role) else users[i])
  }

  /** `UPDATE users SET banned = $1 WHERE uid = $2`. */
  function SetBannedOf(users: seq<Account>, target: int, banned: bool): (r: seq<Account>)
    ensures |r| == |users|
    ensures forall i :: 0 <= i < |users| ==>
      r[i] == if users[i].uid == target then users[i].(banned := banned) else users[i]
  {
    seq(|users|, i requires 0 <= i < |users| =>
      if users[i].uid == target then users[i].(banned := banned) else users[i])
  }

  /** `DELETE FROM users WHERE uid = $1`: the rows with another uid, in
      their order. */
  function DeleteUid(users: seq<Account>, target: int): (r: seq<Account>)
    ensures |r| <= |users|
  {
    if |users| == 0 then []
    else (if users[0].uid == target then [] else [users[0]]) + DeleteUid(users[1..], target)
  }

  /** The rows left by a deletion are exactly the rows with another uid. */
  lemma {:induction false} DeleteUidRows(users: seq<Account>, target: int)
    ensures forall a :: a in DeleteUid(users, target) <==> a in users && a.uid != target
    decreases |users|
  {
    if |users| > 0 {
      DeleteUidRows(users[1..], target);
      assert users == [users[0]] + users[1..];
    }
  }

  /** Deleting a uid no row has changes nothing. */
  lemma {:induction false} DeleteAbsent(users: seq<Account>, target: int)
    requires forall i :: 0 <= i < |users| ==> users[i].uid != target
    ensures DeleteUid(users, target) == users
    decreases |users|
  {
    if |users| > 0 {
      DeleteAbsent(users[1..], target);
      assert users == [users[0]] + users[1..];
    }
  }

  /** In uid order, deleting the uid of row `k` removes exactly that row. */
  lemma {:induction false} DeleteRow(users: seq<Account>, k: nat)
    requires UidsIncreasing(users) && k < |users|
    ensures DeleteUid(users, users[k].uid) == users[..k] + users[k + 1..]
    decreases |users|
  {
    var t := users[k].uid;
    var rest := users[1..];
    assert UidsIncreasing(rest);
    if k == 0 {
      assert forall i :: 0 <= i < |rest| ==> rest[i].uid != t;
      DeleteAbsent(rest, t);
      assert DeleteUid(users, t) == [] + rest;
    } else {
      assert users[0].uid < t;
      assert rest[k - 1] == users[k];
      DeleteRow(rest, k - 1);
      assert DeleteUid(users, t) == [users[0]] + (rest[..k - 1] + rest[k..]);
      assert rest[..k - 1] == users[1..k] && rest[k..] == users[k + 1..];
      assert users[..k] == [users[0]] + users[1..k];
    }
  }

  /** Deletion keeps the table valid, whether or not the uid exists. */
  lemma DeleteKeepsValid(users: seq<Account>, serial: int, target: int)
    requires TableValid(users, serial)
    ensures TableValid(DeleteUid(users, target), serial)
  {
    match RowOf(users, target)
    case None => DeleteAbsent(users, target);
    case Some(k) =>
      DeleteRow(users, k);
      RemoveKeepsValid(users, serial, k);
  }

  /** Changing roles keeps the table valid. */
  lemma SetRoleKeepsValid(users: seq<Account>, serial: int, target: int, role: Role)
    requires TableValid(users, serial)
    ensures TableValid(SetRoleOf(users, target, role), serial)
  {
    var r := SetRoleOf(users, target, role);
    assert forall i :: 0 <= i < |users| ==>
      (r[i].uid == users[i].uid && r[i].email == users[i].email && r[i].nickname == users[i].nickname
       && r[i].sessions == users[i].sessions && r[i].hwid == users[i].hwid);
  }

  /** Banning and unbanning keep the table valid. */
  lemma SetBannedKeepsValid(users: seq<Account>, serial: int, target: int, banned: bool)
    requires TableValid(users, serial)
    ensures TableValid(SetBannedOf(users, target, banned), serial)
  {
    var r := SetBannedOf(users, target, banned);
    assert forall i :: 0 <= i < |users| ==>
      (r[i].uid == users[i].uid && r[i].email == users[i].email && r[i].nickname == users[i].nickname
       && r[i].sessions == users[i].sessions && r[i].hwid == users[i].hwid);
  }

  /** Every admin row of `before` is still a row of `after`. */
  ghost predicate AdminsKept(before: seq<Account>, after: seq<Account>) {
    forall i :: 0 <= i < |before| && before[i].role == Admin ==> before[i] in after
  }

  /** `after` has the rows of `before` in place, and every admin row of
      `before` is unchanged. */
  ghost predicate AdminRowsUnchanged(before: seq<Account>, after: seq<Account>) {
    && |after| == |before|
    && forall i :: 0 <= i < |before| && before[i].role == Admin ==> after[i] == before[i]
  }

  /** When the target check lets a uid through, banning it leaves every
      admin row exactly as it was. */
  lemma BanSparesAdmins(users: seq<Account>, serial: int, target: int, banned: bool)
    requires TableValid(users, serial)
    requires RowOf(users, target).None? || users[RowOf(users, target).value].role != Admin
    ensures AdminRowsUnchanged(users, SetBannedOf(users, target, banned))
  {
    forall i | 0 <= i < |users| && users[i].role == Admin
      ensures users[i].uid != target
    {
    }
  }

  /** When the target check lets a uid through, deleting it keeps every
      admin row. */
  lemma DeleteSparesAdmins(users: seq<Account>, serial: int, target: int)
    requires TableValid(users, serial)
    requires RowOf(users, target).None? || users[RowOf(users, target).value].role != Admin
    ensures AdminsKept(users, DeleteUid(users, target))
  {
    DeleteUidRows(users, target);
    forall i | 0 <= i < |users| && users[i].role == Admin
      ensures users[i].uid != target
    {
    }
  }
}

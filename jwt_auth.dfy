/** The JWT account router (routes/auth.js) over the table that
    database/db.js creates: register with server-side bot checks and a
    global registration rate limit, login by email, and token verification.
    bcrypt, `jwt.sign` and `jwt.verify` are parameters; `jwt.verify` takes
    the clock because tokens expire after seven days. */
module JwtAuth {
  import opened Common
  import opened Text

  /** A row of `users`: `subscription_type` defaults to "none". */
  datatype Account = Account(
    id: int,
    username: string,
    email: string,
    password: string,              // bcrypt hash
    subscriptionType: string,
    subscriptionExpires: Option<int>,
    createdAt: int)

  /** The user part of a registration answer. */
  datatype Profile = Profile(id: int, username: string, email: string)

  /** The user part of a login answer and the body of a verify answer. */
  datatype Member = Member(id: int, username: string, email: string,
                           subscriptionType: string, subscriptionExpires: Option<int>)

  /** A success answer carrying a freshly signed token. */
  datatype Issued<T> = Issued(token: string, user: T)

  /** `behaviorData` as the server receives it: any field may be missing. */
  datatype Behavior = Behavior(
    timeTaken: Option<int>,
    mouseMovements: Option<int>,
    keystrokes: Option<int>,
    focusChanges: Option<int>,
    botScore: Option<int>)

  const UsernameMax: nat := 50        // VARCHAR(50)
  const EmailMax: nat := 100          // VARCHAR(100)
  const RateWindow: int := 3600       // INTERVAL '1 hour', in seconds
  const RateLimit: nat := 5

  function MemberOf(a: Account): Member {
    Member(a.id, a.username, a.email, a.subscriptionType, a.subscriptionExpires)
  }

  /** `x > n` in JavaScript, where a missing value compares false. */
  predicate Above(x: Option<int>, n: int) { x.Some? && x.value > n }

  /** `x < n` in JavaScript, where a missing value compares false. */
  predicate Below(x: Option<int>, n: int) { x.Some? && x.value < n }

  /** The server-side bot checks, in the source's order: a reported score
      above 60, then a form filled in under five seconds, then both fewer
      than 5 mouse movements and fewer than 10 keystrokes. */
  function BehaviorError(b: Behavior): (r: Option<Why>)
    ensures r.None? <==>
      !Above(b.botScore, 60) && !Below(b.timeTaken, 5000) && !(Below(b.mouseMovements, 5) && Below(b.keystrokes, 10))
    ensures r == Some(Suspicious) <==> Above(b.botScore, 60)
    ensures r == Some(TooFast) <==> !Above(b.botScore, 60) && Below(b.timeTaken, 5000)
    ensures r.Some? ==> r.value in {Suspicious, TooFast, UnusualBehavior}
  {
    if Above(b.botScore, 60) then Some(Suspicious)
    else if Below(b.timeTaken, 5000) then Some(TooFast)
    else if Below(b.mouseMovements, 5) && Below(b.keystrokes, 10) then Some(UnusualBehavior)
    else None
  }

  /** A report with no fields at all passes every bot check. */
  lemma EmptyReportPasses()
    ensures BehaviorError(Behavior(None, None, None, None, None)).None?
  {
  }

  /** `SELECT COUNT(*) FROM users WHERE created_at > NOW() - INTERVAL '1 hour'`:
      every account, from any address, counts. */
  function RecentCount(users: seq<Account>, now: int): (n: nat)
    ensures n <= |users|
    ensures n == |set i | 0 <= i < |users| && users[i].createdAt > now - RateWindow|
  {
    if |users| == 0 then 0
    else
      var rest := users[..|users| - 1];
      var c := RecentCount(rest, now);
      var here := if users[|users| - 1].createdAt > now - RateWindow then 1 else 0;
      RecentSetSplit(users, now);
      c + here
  }

  lemma RecentSetSplit(users: seq<Account>, now: int)
    requires |users| > 0
    ensures
      var last := |users| - 1;
      var all := set i | 0 <= i < |users| && users[i].createdAt > now - RateWindow;
      var front := set i | 0 <= i < last && users[..last][i].createdAt > now - RateWindow;
      && (users[last].createdAt > now - RateWindow ==> all == front + {last} && last !in front)
      && (users[last].createdAt <= now - RateWindow ==> all == front)
  {
  }

  // ---------------------------------------------------------------------
  // The table invariant
  // ---------------------------------------------------------------------

  /** ids are positive, increasing and below the `id` sequence's next value;
      usernames and emails are distinct (UNIQUE) and within their column
      widths. */
  ghost predicate TableValid(users: seq<Account>, serial: int) {
    && 1 <= serial
    && (forall i, j :: 0 <= i < j < |users| ==> users[i].id < users[j].id)
    && (forall i :: 0 <= i < |users| ==> 1 <= users[i].id < serial)
    && (forall i, j :: 0 <= i < j < |users| ==> users[i].email != users[j].email)
    && (forall i, j :: 0 <= i < j < |users| ==> users[i].username != users[j].username)
    && (forall i :: 0 <= i < |users| ==> |users[i].username| <= UsernameMax && |users[i].email| <= EmailMax)
  }

  ghost predicate EmailInUse(users: seq<Account>, email: string) {
    exists i :: 0 <= i < |users| && users[i].email == email
  }

  ghost predicate UsernameInUse(users: seq<Account>, username: string) {
    exists i :: 0 <= i < |users| && users[i].username == username
  }

  /** A row that `WHERE email = $1 OR username = $2` selects. */
  predicate Clashes(a: Account, email: string, username: string) {
    a.email == email || a.username == username
  }

  /** `SELECT * FROM users WHERE email = $1 OR username = $2`, first row:
      "email registered" when its email is the one asked for, "username
      taken" otherwise. The first row is the one with the lowest id. */
  function DuplicateError(users: seq<Account>, email: string, username: string): (r: Option<Why>)
    ensures r.None? <==> !EmailInUse(users, email) && !UsernameInUse(users, username)
    ensures r.Some? ==> r == Some(EmailTaken) || r == Some(UsernameTaken)
    ensures r == Some(EmailTaken) ==> EmailInUse(users, email)
    ensures r == Some(UsernameTaken) ==> UsernameInUse(users, username)
    ensures r == Some(EmailTaken) <==>
      exists k :: 0 <= k < |users| && users[k].email == email
        && forall j :: 0 <= j < k ==> !Clashes(users[j], email, username)
    ensures EmailInUse(users, email)
      && (forall i :: 0 <= i < |users| && users[i].username == username ==> users[i].email == email)
      ==> r == Some(EmailTaken)
  {
    match FirstIndex(users, (a: Account) => Clashes(a, email, username))
    case None => None
    case Some(k) =>
      if users[k].email == email then Some(EmailTaken)
      else
        assert forall k' :: 0 <= k' < |users| && users[k'].email == email ==> k < k' by {
          forall k' | 0 <= k' < |users| && users[k'].email == email
            ensures k < k'
          {
            if k' <= k {
              assert Clashes(users[k'], email, username);
            }
          }
        }
        Some(UsernameTaken)
  }

  lemma AppendKeepsValid(users: seq<Account>, serial: int, a: Account)
    requires TableValid(users, serial)
    requires a.id == serial && |a.username| <= UsernameMax && |a.email| <= EmailMax
    requires !EmailInUse(users, a.email) && !UsernameInUse(users, a.username)
    ensures TableValid(users + [a], serial + 1)
  {
    var t := users + [a];
    forall i, j | 0 <= i < j < |t|
      ensures t[i].email != t[j].email && t[i].username != t[j].username
    {
      if j == |users| {
        assert t[i] == users[i];
      }
    }
  }

  /** Registration's outcome before anything is written, in the source's
      order: missing fields, short password, bot checks (only when a report
      was sent), the global rate limit, duplicates, and finally the column
      widths the INSERT enforces (a failed INSERT answers 500). */
  function RegisterRefusal(users: seq<Account>, username: string, email: string, password: string,
                           behavior: Option<Behavior>, now: int): (r: Option<(Status, Why)>)
    ensures username == "" || email == "" || password == "" ==> r == Some((BadRequest, MissingFields))
    ensures username != "" && email != "" && password != "" && Utf16Length(password) < 6 ==>
      r == Some((BadRequest, ShortPassword))
    ensures (username != "" && email != "" && password != "" && Utf16Length(password) >= 6
             && behavior.Some? && BehaviorError(behavior.value).Some?) ==>
      r == Some((BadRequest, BehaviorError(behavior.value).value))
    ensures (username != "" && email != "" && password != "" && Utf16Length(password) >= 6
             && (behavior.Some? ==> BehaviorError(behavior.value).None?)
             && RecentCount(users, now) <= RateLimit
             && DuplicateError(users, email, username).Some?) ==>
      r == Some((BadRequest, DuplicateError(users, email, username).value))
    ensures (username != "" && email != "" && password != "" && Utf16Length(password) >= 6
             && (behavior.Some? ==> BehaviorError(behavior.value).None?)
             && RecentCount(users, now) <= RateLimit
             && !EmailInUse(users, email) && !UsernameInUse(users, username)
             && (|username| > UsernameMax || |email| > EmailMax)) ==>
      r == Some((ServerError, BadQuery))
    ensures r.None? <==>
      && username != "" && email != "" && password != "" && Utf16Length(password) >= 6
      && (behavior.Some? ==> BehaviorError(behavior.value).None?)
      && RecentCount(users, now) <= RateLimit
      && !EmailInUse(users, email) && !UsernameInUse(users, username)
      && |username| <= UsernameMax && |email| <= EmailMax
    ensures r == Some((TooManyRequests, TooManyRegistrations)) <==>
      && username != "" && email != "" && password != "" && Utf16Length(password) >= 6
      && (behavior.Some? ==> BehaviorError(behavior.value).None?)
      && RecentCount(users, now) > RateLimit
  {
    if username == "" || email == "" || password == "" then Some((BadRequest, MissingFields))
    else if Utf16Length(password) < 6 then Some((BadRequest, ShortPassword))
    else if behavior.Some? && BehaviorError(behavior.value).Some? then Some((BadRequest, BehaviorError(behavior.value).value))
    else if RecentCount(users, now) > RateLimit then Some((TooManyRequests, TooManyRegistrations))
    else if DuplicateError(users, email, username).Some? then Some((BadRequest, DuplicateError(users, email, username).value))
    else if |username| > UsernameMax || |email| > EmailMax then Some((ServerError, BadQuery))
    else None
  }

  class Router {
    var users: seq<Account>
    /** Next value of the `id` sequence. */
    var serial: int
    const hash: string -> string
    /** `jwt.sign({ userId, username }, secret, { expiresIn: '7d' })`. */
    const sign: (int, string) -> string
    /** `jwt.verify(token, secret).userId` at a given time; None when the
        token is malformed, forged or expired. */
    const decode: (string, int) -> Option<int>

    ghost predicate Valid()
      reads this
    {
      TableValid(users, serial)
    }

    constructor (hash: string -> string, sign: (int, string) -> string, decode: (string, int) -> Option<int>)
      ensures Valid() && users == [] && serial == 1
      ensures this.hash == hash && this.sign == sign && this.decode == decode
    {
      users := [];
      serial := 1;
      this.hash := hash;
      this.sign := sign;
      this.decode := decode;
    }

    /** POST /register: on success one account is appended with the
        sequence's next id and the answer carries a token signed for it.
        A successful registration always finds at most five accounts
        created in the past hour. An INSERT refused because a value is
        wider than its column has already drawn an id, and the sequence
        does not give it back. */
    method Register(username: string, email: string, password: string, behavior: Option<Behavior>, now: int)
      returns (r: Reply<Issued<Profile>>)
      requires Valid()
      modifies this
      ensures Valid()
      ensures !r.Silent?
      ensures var refusal := RegisterRefusal(old(users), username, email, password, behavior, now);
        && (refusal.Some? ==> r == Fail(refusal.value.0, refusal.value.1) && users == old(users))
        && (refusal.Some? && refusal.value != (ServerError, BadQuery) ==> serial == old(serial))
        && (refusal == Some((ServerError, BadQuery)) ==> serial == old(serial) + 1)
        && (refusal.None? ==>
              && r == Ok(Issued(sign(old(serial), username), Profile(old(serial), username, email)))
              && users == old(users) + [Account(old(serial), username, email, hash(password), "none", None, now)]
              && serial == old(serial) + 1)
      ensures r.Ok? ==> RecentCount(old(users), now) <= RateLimit && RecentCount(users, now) == RecentCount(old(users), now) + 1
    {
      var refusal := RegisterRefusal(users, username, email, password, behavior, now);
      if refusal.Some? {
        if refusal.value == (ServerError, BadQuery) {
          // the INSERT drew its id from the sequence before the width check failed
          serial := serial + 1;
        }
        return Fail(refusal.value.0, refusal.value.1);
      }
      var a := Account(serial, username, email, hash(password), "none", None, now);
      AppendKeepsValid(users, serial, a);
      assert (users + [a])[..|users|] == users;
      users := users + [a];
      serial := serial + 1;
      r := Ok(Issued(sign(a.id, username), Profile(a.id, username, email)));
    }

    /** POST /login, which changes nothing: an unknown email and a wrong
        password get the same answer, so the route does not reveal which
        emails are registered. */
    method Login(email: string, password: string) returns (r: Reply<Issued<Member>>)
      ensures !r.Silent?
      ensures email == "" || password == "" ==> r == Fail(BadRequest, MissingFields)
      ensures email != "" && password != "" && r.Fail? ==> r == Fail(BadRequest, InvalidCredentials)
      ensures r.Ok? <==>
        email != "" && password != "" &&
        exists i :: 0 <= i < |users| && users[i].email == email && hash(password) == users[i].password &&
          (forall j :: 0 <= j < i ==> users[j].email != email)
      ensures r.Ok? ==>
        exists i :: 0 <= i < |users| && users[i].email == email &&
          r.value == Issued(sign(users[i].id, users[i].username), MemberOf(users[i]))
    {
      if email == "" || password == "" {
        return Fail(BadRequest, MissingFields);
      }
      var k := FirstIndex(users, (a: Account) => a.email == email);
      if k.None? {
        return Fail(BadRequest, InvalidCredentials);
      }
      var a := users[k.value];
      if hash(password) != a.password {
        return Fail(BadRequest, InvalidCredentials);
      }
      r := Ok(Issued(sign(a.id, a.username), MemberOf(a)));
    }

    /** GET /verify, which changes nothing: the token is the second
        space-separated word of the Authorization header. */
    method Verify(header: string, now: int) returns (r: Reply<Member>)
      ensures !r.Silent?
      ensures SecondWord(header).None? || SecondWord(header) == Some("") ==> r == Fail(Unauthorized, NoToken)
      ensures SecondWord(header).Some? && SecondWord(header).value != "" ==>
        var id := decode(SecondWord(header).value, now);
        && (id.None? ==> r == Fail(Unauthorized, InvalidToken))
        && (id.Some? && (forall i :: 0 <= i < |users| ==> users[i].id != id.value) ==> r == Fail(NotFound, UnknownUser))
        && (r.Ok? ==> id.Some? && exists i :: 0 <= i < |users| && users[i].id == id.value && r.value == MemberOf(users[i]))
      ensures r.Ok? <==>
        SecondWord(header).Some? && SecondWord(header).value != "" && decode(SecondWord(header).value, now).Some?
        && exists i :: 0 <= i < |users| && users[i].id == decode(SecondWord(header).value, now).value
    {
      var token := SecondWord(header);
      if token.None? || token.value == "" {
        return Fail(Unauthorized, NoToken);
      }
      var id := decode(token.value, now);
      if id.None? {
        return Fail(Unauthorized, InvalidToken);
      }
      var k := FirstIndex(users, (a: Account) => a.id == id.value);
      if k.None? {
        return Fail(NotFound, UnknownUser);
      }
      r := Ok(MemberOf(users[k.value]));
    }
  }
}

/** The development mock of the HTTP client: its interceptor registry, its token
    format and its two auth endpoints over a fixed user table. The artificial
    response delays are left out; clock readings are parameters. */
module MockApi {
  import opened Basics
  import opened Strings
  import opened Seqs

  // ------------------------------------------------------------ interceptors

  /** A registered pair of callbacks and the id `use` handed out for it. */
  datatype Handler<C> = Handler(fulfilled: C, rejected: C, id: nat)

  /** `InterceptorManager`: one slot per `use` call, `None` once ejected. */
  datatype InterceptorManager<C> = InterceptorManager(handlers: seq<Option<Handler<C>>>)

  /** Every live handler sits in the slot whose index is its id, counting slots
      from `base`. */
  predicate IdsFrom<C>(hs: seq<Option<Handler<C>>>, base: nat) {
    forall k :: 0 <= k < |hs| && hs[k].Some? ==> hs[k].value.id == base + k
  }

  predicate WellFormed<C>(m: InterceptorManager<C>) {
    IdsFrom(m.handlers, 0)
  }

  function NewManager<C>(): (m: InterceptorManager<C>)
    ensures WellFormed(m) && |m.handlers| == 0
  {
    InterceptorManager([])
  }

  /** `use`: the new handler's id is the number of slots so far, so ids are
      handed out in order and never reused. */
  function Use<C>(m: InterceptorManager<C>, fulfilled: C, rejected: C): (r: (InterceptorManager<C>, nat))
    ensures r.1 == |m.handlers|
    ensures |r.0.handlers| == |m.handlers| + 1
    ensures r.0.handlers[..|m.handlers|] == m.handlers
    ensures r.0.handlers[r.1] == Some(Handler(fulfilled, rejected, r.1))
    ensures WellFormed(m) ==> WellFormed(r.0)
    ensures forall k :: 0 <= k < |m.handlers| && m.handlers[k].Some? ==> m.handlers[k].value.id != r.1 || !WellFormed(m)
  {
    var id := |m.handlers|;
    (InterceptorManager(m.handlers + [Some(Handler(fulfilled, rejected, id))]), id)
  }

  /** `eject(id)`: clears the slot of a live handler; an unknown or already
      ejected id changes nothing. The number of slots never shrinks. */
  function Eject<C>(m: InterceptorManager<C>, id: int): (r: InterceptorManager<C>)
    ensures |r.handlers| == |m.handlers|
    ensures 0 <= id < |m.handlers| ==> r.handlers[id] == None
    ensures forall k :: 0 <= k < |m.handlers| && k != id ==> r.handlers[k] == m.handlers[k]
    ensures !(0 <= id < |m.handlers| && m.handlers[id].Some?) ==> r == m
    ensures WellFormed(m) ==> WellFormed(r)
  {
    if 0 <= id < |m.handlers| && m.handlers[id].Some? then InterceptorManager(m.handlers[id := None])
    else m
  }

  /** The live handlers of a slot sequence, in slot order. */
  function Live<C(==,!new)>(hs: seq<Option<Handler<C>>>): (r: seq<Handler<C>>)
    ensures |r| <= |hs|
  {
    if |hs| == 0 then []
    else
      var rest := Live(hs[1..]);
      if hs[0].Some? then [hs[0].value] + rest else rest
  }

  /** A handler is live exactly when some slot holds it. */
  lemma {:induction false} LiveMembers<C(!new)>(hs: seq<Option<Handler<C>>>)
    ensures forall h :: h in Live(hs) <==> Some(h) in hs
  {
    if |hs| > 0 {
      LiveMembers(hs[1..]);
      assert hs == [hs[0]] + hs[1..];
    }
  }

  /** `forEach(fn)`: the handlers `fn` is called with, in registration order. */
  function ForEach<C(==,!new)>(m: InterceptorManager<C>): (r: seq<Handler<C>>)
    ensures forall h :: h in r <==> Some(h) in m.handlers
  {
    LiveMembers(m.handlers);
    Live(m.handlers)
  }

  lemma {:induction false} LiveSnoc<C(!new)>(hs: seq<Option<Handler<C>>>, x: Option<Handler<C>>)
    ensures Live(hs + [x]) == Live(hs) + (if x.Some? then [x.value] else [])
  {
    var ys := hs + [x];
    if |hs| == 0 {
      assert ys[1..] == [];
    } else {
      assert ys[0] == hs[0];
      assert ys[1..] == hs[1..] + [x];
      LiveSnoc(hs[1..], x);
    }
  }

  /** After `use`, `forEach` visits the earlier handlers and then the new one. */
  lemma UseThenForEach<C(!new)>(m: InterceptorManager<C>, fulfilled: C, rejected: C)
    ensures var (m', id) := Use(m, fulfilled, rejected);
      ForEach(m') == ForEach(m) + [Handler(fulfilled, rejected, id)]
  {
    LiveSnoc(m.handlers, Some(Handler(fulfilled, rejected, |m.handlers|)));
  }

  /** The handlers of `xs` other than the one with id `id`, in order. */
  function Without<C(!new)>(xs: seq<Handler<C>>, id: int): (r: seq<Handler<C>>)
    ensures |r| <= |xs|
    ensures forall h :: h in r <==> h in xs && h.id != id
  {
    if |xs| == 0 then []
    else
      assert xs == [xs[0]] + xs[1..];
      (if xs[0].id != id then [xs[0]] else []) + Without(xs[1..], id)
  }

  lemma {:induction false} WithoutCons<C(!new)>(h: Handler<C>, xs: seq<Handler<C>>, id: int)
    ensures Without([h] + xs, id) == (if h.id != id then [h] else []) + Without(xs, id)
  {
    assert ([h] + xs)[0] == h;
    assert ([h] + xs)[1..] == xs;
  }

  /** Handlers in front that do not carry the id pass through. */
  lemma {:induction false} WithoutKeepsPrefix<C(!new)>(head: seq<Handler<C>>, xs: seq<Handler<C>>, id: int)
    requires forall h :: h in head ==> h.id != id
    ensures Without(head + xs, id) == head + Without(xs, id)
  {
    if |head| == 0 {
      assert head + xs == xs;
    } else {
      var h, rest := head[0], head[1..];
      assert h in head;
      assert forall g :: g in rest ==> g in head;
      calc {
        Without(head + xs, id);
      == { assert head + xs == [h] + (rest + xs); }
        Without([h] + (rest + xs), id);
      == { WithoutCons(h, rest + xs, id); }
        [h] + Without(rest + xs, id);
      == { WithoutKeepsPrefix(rest, xs, id); }
        [h] + (rest + Without(xs, id));
      == { assert head == [h] + rest; }
        head + Without(xs, id);
      }
    }
  }

  /** Removing an id that no handler carries changes nothing. */
  lemma {:induction false} WithoutAbsent<C(!new)>(xs: seq<Handler<C>>, id: int)
    requires forall h :: h in xs ==> h.id != id
    ensures Without(xs, id) == xs
  {
    if |xs| > 0 {
      assert xs[0] in xs;
      assert forall h :: h in xs[1..] ==> h in xs;
      WithoutAbsent(xs[1..], id);
      assert xs == [xs[0]] + xs[1..];
      WithoutCons(xs[0], xs[1..], id);
    }
  }

  lemma {:induction false} LiveCons<C(!new)>(x: Option<Handler<C>>, hs: seq<Option<Handler<C>>>)
    ensures Live([x] + hs) == (if x.Some? then [x.value] else []) + Live(hs)
  {
    assert ([x] + hs)[1..] == hs;
  }

  /** The slots after the first keep the numbering, shifted by one, and hold no
      handler with the first slot's id. */
  lemma {:induction false} IdsFromTail<C(!new)>(hs: seq<Option<Handler<C>>>, base: nat)
    requires IdsFrom(hs, base) && |hs| > 0
    ensures IdsFrom(hs[1..], base + 1)
    ensures forall h :: h in Live(hs[1..]) ==> h.id != base
  {
    forall k | 0 <= k < |hs[1..]| && hs[1..][k].Some? ensures hs[1..][k].value.id == base + 1 + k {
      assert hs[1..][k] == hs[k + 1];
    }
    LiveMembers(hs[1..]);
    forall h | h in Live(hs[1..]) ensures h.id != base {
      var k :| 0 <= k < |hs[1..]| && hs[1..][k] == Some(h);
      assert hs[k + 1] == Some(h);
    }
  }

  /** Clearing the first slot drops its handler, and nothing after it carries that id. */
  lemma {:induction false} LiveClearFirst<C(!new)>(hs: seq<Option<Handler<C>>>, base: nat)
    requires IdsFrom(hs, base) && |hs| > 0
    ensures Live(hs[0 := None]) == Without(Live(hs), base)
  {
    var tail := Live(hs[1..]);
    assert Without(tail, base) == tail by {
      IdsFromTail(hs, base);
      WithoutAbsent(tail, base);
    }
    assert Live(hs[0 := None]) == tail by {
      assert hs[0 := None] == [None] + hs[1..];
      LiveCons(None, hs[1..]);
    }
    if hs[0].Some? {
      assert Live(hs) == [hs[0].value] + tail by {
        assert hs == [hs[0]] + hs[1..];
        LiveCons(hs[0], hs[1..]);
      }
      WithoutCons(hs[0].value, tail, base);
    } else {
      assert hs == hs[0 := None];
    }
  }

  /** Clearing slot `j > 0` clears slot `j - 1` of the tail, whose numbering
      starts one later. */
  lemma {:induction false} LiveClearTail<C(!new)>(hs: seq<Option<Handler<C>>>, base: nat, j: nat)
    requires IdsFrom(hs, base) && 0 < j < |hs|
    ensures Live(hs[1..][j - 1 := None]) == Without(Live(hs[1..]), base + j)
    decreases j, 0
  {
    IdsFromTail(hs, base);
    LiveClear(hs[1..], base + 1, j - 1);
  }

  lemma {:induction false} LiveClear<C(!new)>(hs: seq<Option<Handler<C>>>, base: nat, j: nat)
    requires IdsFrom(hs, base) && j < |hs|
    ensures Live(hs[j := None]) == Without(Live(hs), base + j)
    decreases j, 1
  {
    if j == 0 {
      LiveClearFirst(hs, base);
    } else {
      var id := base + j;
      var head: seq<Handler<C>> := if hs[0].Some? then [hs[0].value] else [];
      var tl := hs[1..];
      var cl := tl[j - 1 := None];
      calc {
        Live(hs[j := None]);
      == { assert hs[j := None] == [hs[0]] + cl;
           LiveCons(hs[0], cl); }
        head + Live(cl);
      == { LiveClearTail(hs, base, j); }
        head + Without(Live(tl), id);
      == { assert forall h :: h in head ==> h.id == base;
           WithoutKeepsPrefix(head, Live(tl), id); }
        Without(head + Live(tl), id);
      == { assert hs == [hs[0]] + tl;
           LiveCons(hs[0], tl); }
        Without(Live(hs), id);
      }
    }
  }

  /** After ejecting a live id, `forEach` visits the same handlers minus exactly
      that one, in the same order. */
  lemma EjectThenForEach<C(!new)>(m: InterceptorManager<C>, id: int)
    requires WellFormed(m)
    ensures ForEach(Eject(m, id)) == Without(ForEach(m), id)
  {
    if 0 <= id < |m.handlers| && m.handlers[id].Some? {
      LiveClear(m.handlers, 0, id);
    } else {
      LiveMembers(m.handlers);
      forall h | h in Live(m.handlers) ensures h.id != id {
        var k :| 0 <= k < |m.handlers| && m.handlers[k] == Some(h);
      }
      WithoutAbsent(Live(m.handlers), id);
    }
  }

  /** Ejecting twice is ejecting once. */
  lemma EjectIdempotent<C>(m: InterceptorManager<C>, id: int)
    ensures Eject(Eject(m, id), id) == Eject(m, id)
  {
  }

  // ------------------------------------------------------------------ tokens

  const TokenPrefix: string := "mock-jwt-token-"

  /** `generateToken(userId)` at clock reading `now` (milliseconds). */
  function GenerateToken(userId: string, now: nat): (t: string)
    ensures StartsWith(t, TokenPrefix)
    ensures var p, u := |TokenPrefix|, |userId|;
      && |t| == p + u + 1 + |NatToString(now)|
      && t[p..p + u] == userId && t[p + u] == '-' && t[p + u + 1..] == NatToString(now)
  {
    var t := TokenPrefix + userId + "-" + NatToString(now);
    var p, u := |TokenPrefix|, |userId|;
    assert t[..p] == TokenPrefix;
    assert t[p..p + u] == userId;
    assert t[p + u + 1..] == NatToString(now);
    t
  }

  /** A string that reads `w` and a dash at position `i` splits there. */
  lemma WordAt(s: string, i: nat, w: string)
    requires i + |w| + 1 <= |s| && s[i..i + |w| + 1] == w + ['-']
    ensures s[i..] == w + ['-'] + s[i + |w| + 1..]
  {
    assert s[i..] == s[i..i + |w| + 1] + s[i + |w| + 1..];
  }

  /** A prefixed token is the three words of the prefix, each followed by a dash,
      and then the rest. */
  lemma TokenShape(token: string)
    requires StartsWith(token, TokenPrefix)
    ensures token == "mock" + ['-'] + token[5..]
    ensures token[5..] == "jwt" + ['-'] + token[9..]
    ensures token[9..] == "token" + ['-'] + token[15..]
  {
    var p := token[..15];
    assert p == TokenPrefix;
    assert token[0..5] == p[0..5] == "mock-";
    assert token[5..9] == p[5..9] == "jwt-";
    assert token[9..15] == p[9..15] == "token-";
    WordAt(token, 0, "mock");
    WordAt(token, 5, "jwt");
    WordAt(token, 9, "token");
    assert token[0..] == token;
  }

  /** Any string with the token prefix has at least four `-`-separated fields,
      the first three being the prefix's words. */
  lemma PrefixFields(token: string)
    requires StartsWith(token, TokenPrefix)
    ensures Split(token, '-') == ["mock", "jwt", "token"] + Split(token[|TokenPrefix|..], '-')
  {
    TokenShape(token);
    var rest := Split(token[15..], '-');
    calc {
      Split(token, '-');
    == { SplitCons("mock", '-', token[5..]); }
      ["mock"] + Split(token[5..], '-');
    == { SplitCons("jwt", '-', token[9..]); }
      ["mock"] + (["jwt"] + Split(token[9..], '-'));
    == { SplitCons("token", '-', token[15..]); }
      ["mock"] + (["jwt"] + (["token"] + rest));
    == { assert ["mock"] + (["jwt"] + (["token"] + rest)) == ["mock", "jwt", "token"] + rest; }
      ["mock", "jwt", "token"] + rest;
    }
  }

  /** The user id that `me` reads out of a prefixed token: its fourth field. */
  function TokenUserId(token: string): (id: string)
    requires StartsWith(token, TokenPrefix)
    ensures '-' !in id
    ensures var rest := token[|TokenPrefix|..]; id == rest[..IndexOf(rest, '-')]
  {
    PrefixFields(token);
    SplitHead(token[|TokenPrefix|..], '-');
    Split(token, '-')[3]
  }

  lemma NoDashInDigits(n: nat)
    ensures '-' !in NatToString(n)
  {
    var d := NatToString(n);
    assert forall k :: 0 <= k < |d| ==> d[k] != '-';
  }

  /** A token issued for a dash-free id names that id again. */
  lemma TokenRoundTrip(userId: string, now: nat)
    requires '-' !in userId
    ensures TokenUserId(GenerateToken(userId, now)) == userId
  {
    var t := GenerateToken(userId, now);
    var digits := NatToString(now);
    assert t[|TokenPrefix|..] == userId + ['-'] + digits;
    PrefixFields(t);
    NoDashInDigits(now);
    SplitCons(userId, '-', digits);
  }

  // ------------------------------------------------------------------- users

  datatype MockUser = MockUser(
    id: string,
    email: string,
    password: string,
    firstName: string,
    lastName: string,
    role: string,
    department: string,
    employeeId: string,
    phoneNumber: string)

  /** A user as the endpoints return it: everything but the password. */
  datatype SafeUser = SafeUser(
    id: string,
    email: string,
    firstName: string,
    lastName: string,
    role: string,
    department: string,
    employeeId: string,
    phoneNumber: string)

  function Safe(u: MockUser): (s: SafeUser)
    ensures s.id == u.id && s.email == u.email && s.role == u.role
  {
    SafeUser(u.id, u.email, u.firstName, u.lastName, u.role, u.department, u.employeeId, u.phoneNumber)
  }

  /** The mock's user table. */
  const MockUsers: seq<MockUser> := [
    MockUser("1", "admin@sasol.com", "Admin@123", "Admin", "User", "admin", "ESD", "SA001", "+27123456789"),
    MockUser("2", "trainer@sasol.com", "Trainer@123", "Training", "Manager", "trainer", "Training", "SA002", "+27123456790"),
    MockUser("3", "user@sasol.com", "User@123", "Regular", "User", "user", "Operations", "SA003", "+27123456791")
  ]

  /** A rejected mock request, by the message (and status) it carries. */
  datatype MockError = InvalidCredentials | Unauthorized401 | UserNotFound401

  datatype LoginData = LoginData(token: string, user: SafeUser)

  predicate CredentialsMatch(u: MockUser, email: string, password: string) {
    u.email == email && u.password == password
  }

  /** `auth.login`: the first user matching both email and password, with a token
      issued at `now`. */
  function Login(users: seq<MockUser>, email: string, password: string, now: nat): (r: Result<LoginData, MockError>)
    ensures r.Ok? <==> exists u :: u in users && CredentialsMatch(u, email, password)
    ensures r.Err? ==> r.error == InvalidCredentials
    ensures r.Ok? ==> exists i :: (0 <= i < |users|
      && CredentialsMatch(users[i], email, password)
      && (forall k :: 0 <= k < i ==> !CredentialsMatch(users[k], email, password))
      && r.value.user == Safe(users[i])
      && r.value.token == GenerateToken(users[i].id, now))
  {
    var i := FirstIndex(users, (u: MockUser) => CredentialsMatch(u, email, password));
    if i < |users| then Ok(LoginData(GenerateToken(users[i].id, now), Safe(users[i])))
    else
      assert forall u :: u in users ==> !CredentialsMatch(u, email, password) by {
        forall u | u in users ensures !CredentialsMatch(u, email, password) {
          var k :| 0 <= k < |users| && users[k] == u;
        }
      }
      Err(InvalidCredentials)
  }

  /** `auth.me`: a missing or unprefixed token is unauthorized; otherwise the
      first user whose id is the token's fourth field, if any. */
  function Me(users: seq<MockUser>, token: Option<string>): (r: Result<SafeUser, MockError>)
    ensures r == Err(Unauthorized401) <==> token.None? || !StartsWith(token.value, TokenPrefix)
    ensures r.Ok? <==> token.Some? && StartsWith(token.value, TokenPrefix)
                       && exists u :: u in users && u.id == TokenUserId(token.value)
    ensures r.Ok? ==> exists i :: (0 <= i < |users| && users[i].id == TokenUserId(token.value)
      && (forall k :: 0 <= k < i ==> users[k].id != users[i].id)
      && r.value == Safe(users[i]))
  {
    if token.None? || !StartsWith(token.value, TokenPrefix) then Err(Unauthorized401)
    else
      var id := TokenUserId(token.value);
      var i := FirstIndex(users, (u: MockUser) => u.id == id);
      if i < |users| then Ok(Safe(users[i]))
      else
        assert forall u :: u in users ==> u.id != id by {
          forall u | u in users ensures u.id != id {
            var k :| 0 <= k < |users| && users[k] == u;
          }
        }
        Err(UserNotFound401)
  }

  predicate UserIdsUnique(users: seq<MockUser>) {
    forall i, j :: 0 <= i < j < |users| ==> users[i].id != users[j].id
  }

  predicate UserIdsDashFree(users: seq<MockUser>) {
    forall i :: 0 <= i < |users| ==> '-' !in users[i].id
  }

  /** Logging in and then asking `me` with the issued token returns the same
      user, provided ids are unique and free of dashes. */
  lemma LoginThenMe(users: seq<MockUser>, email: string, password: string, now: nat)
    requires UserIdsUnique(users) && UserIdsDashFree(users)
    requires Login(users, email, password, now).Ok?
    ensures var data := Login(users, email, password, now).value;
      Me(users, Some(data.token)) == Ok(data.user)
  {
    var data := Login(users, email, password, now).value;
    var i :| 0 <= i < |users|
      && CredentialsMatch(users[i], email, password)
      && (forall k :: 0 <= k < i ==> !CredentialsMatch(users[k], email, password))
      && data.user == Safe(users[i])
      && data.token == GenerateToken(users[i].id, now);
    TokenRoundTrip(users[i].id, now);
    var r := Me(users, Some(data.token));
    assert r.Ok?;
    var j :| 0 <= j < |users| && users[j].id == users[i].id
      && (forall k :: 0 <= k < j ==> users[k].id != users[j].id)
      && r.value == Safe(users[j]);
    assert j == i;
  }

  /** The shipped table has distinct, dash-free ids. */
  lemma MockUsersWellFormed()
    ensures UserIdsUnique(MockUsers) && UserIdsDashFree(MockUsers)
  {
    forall i | 0 <= i < |MockUsers| ensures '-' !in MockUsers[i].id {
      assert |MockUsers[i].id| == 1 && MockUsers[i].id[0] != '-';
    }
  }

  /** The shipped table meets both conditions, so every successful login there
      round-trips through `me`. */
  lemma MockUsersRoundTrip(email: string, password: string, now: nat)
    requires Login(MockUsers, email, password, now).Ok?
    ensures Me(MockUsers, Some(Login(MockUsers, email, password, now).value.token))
            == Ok(Login(MockUsers, email, password, now).value.user)
  {
    MockUsersWellFormed();
    LoginThenMe(MockUsers, email, password, now);
  }
}

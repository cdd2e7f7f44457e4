/**
  Password login and two-factor authentication (internal/service/auth.go,
  internal/repository/user.go): setup, enabling with eight recovery codes, disabling,
  and the second step of a login, which takes a TOTP code or uses up a recovery code.
*/
module TwoFactor {
  import opened Wrappers
  import opened Text

  type UserId = string
  type Time = int

  /** The two-factor columns of a user, the password hash, and whether the account is active. */
  datatype Row = Row(enabled: bool, secret: Option<string>, codes: seq<string>, password: Option<string>, active: bool)

  type Users = map<UserId, Row>

  const CODE_COUNT := 8

  // -------------------------------------------------------- recovery codes

  /** The i-th of the 32 letters of a recovery code: 2-9, then A-Z without I and O. */
  function CodeChar(i: nat): (c: char)
    requires i < 32
    ensures IsCodeChar(c)
  {
    if i < 8 then (i + '2' as int) as char
    else if i < 16 then (i - 8 + 'A' as int) as char
    else if i < 21 then (i - 16 + 'J' as int) as char
    else (i - 21 + 'P' as int) as char
  }

  /** The 32 letters are different, so a code keeps five bits of each byte. */
  lemma CodeCharsDiffer(i: nat, j: nat)
    requires i < 32 && j < 32 && CodeChar(i) == CodeChar(j)
    ensures i == j
  {}

  /** Two codes are the same only if their bytes agree in those bits. */
  lemma SpelledApart(a: seq<nat>, b: seq<nat>)
    requires |a| == 8 && |b| == 8
    ensures Spelled(a) == Spelled(b) <==> forall k | 0 <= k < 8 :: a[k] % 32 == b[k] % 32
  {
    if Spelled(a) == Spelled(b) {
      forall k | 0 <= k < 8
        ensures a[k] % 32 == b[k] % 32
      {
        var at := if k < 4 then k else k + 1;
        assert Spelled(a)[at] == Letter(a, at) && Spelled(b)[at] == Letter(b, at);
        CodeCharsDiffer(a[k] % 32, b[k] % 32);
      }
    }
  }

  predicate IsCodeChar(c: char) {
    '2' <= c <= '9' || ('A' <= c <= 'Z' && c != 'I' && c != 'O')
  }

  /** XXXX-XXXX */
  predicate IsRecoveryCode(s: string) {
    |s| == 9 && s[4] == '-' && forall i | 0 <= i < 9 && i != 4 :: IsCodeChar(s[i])
  }

  /** The code eight random bytes spell, four letters on each side of the dash. */
  function Spelled(bytes: seq<nat>): (c: string)
    requires |bytes| == 8
    ensures IsRecoveryCode(c)
  {
    seq(9, k requires 0 <= k < 9 => Letter(bytes, k))
  }

  function Letter(bytes: seq<nat>, k: nat): (c: char)
    requires |bytes| == 8 && k < 9
    ensures if k == 4 then c == '-' else IsCodeChar(c)
  {
    if k == 4 then '-' else CodeChar(bytes[if k < 4 then k else k - 1] % 32)
  }

  /** random holds eight bytes for each code. */
  method GenerateRecoveryCodes(count: nat, random: seq<seq<nat>>) returns (codes: seq<string>)
    requires |random| == count && forall i | 0 <= i < count :: |random[i]| == 8
    ensures |codes| == count
    ensures forall i | 0 <= i < count :: codes[i] == Spelled(random[i])
  {
    codes := [];
    for i := 0 to count
      invariant |codes| == i
      invariant forall k | 0 <= k < i :: codes[k] == Spelled(random[k])
    {
      var sb: string := [];
      for j := 0 to 8
        invariant sb == Spelled(random[i])[..if j <= 4 then j else j + 1]
      {
        if j == 4 {
          sb := sb + ['-'];
        }
        sb := sb + [CodeChar(random[i][j] % 32)];
      }
      codes := codes + [sb];
    }
  }

  /** How a code is compared: trimmed, in upper case. */
  function Normal(c: string): string {
    ToUpper(TrimSpace(c))
  }

  /** Stored codes are already in that form, so a typed code matches the code it spells and no other. */
  lemma GeneratedIsNormal(c: string)
    requires IsRecoveryCode(c)
    ensures Normal(c) == c
  {
    TrimSpaceFixed(c);
    assert forall i | 0 <= i < 9 :: UpperChar(c[i]) == c[i];
  }

  /** The place of the first code that matches, or -1. */
  function FirstMatch(codes: seq<string>, code: string): (i: int)
    ensures -1 <= i < |codes|
    ensures i >= 0 ==> Normal(codes[i]) == Normal(code) && forall j | 0 <= j < i :: Normal(codes[j]) != Normal(code)
    ensures i == -1 ==> forall j | 0 <= j < |codes| :: Normal(codes[j]) != Normal(code)
  {
    if codes == [] then -1
    else if Normal(codes[0]) == Normal(code) then 0
    else
      var i := FirstMatch(codes[1..], code);
      if i == -1 then -1 else i + 1
  }

  /** The i-th stored code is the first that equals the typed one in normal form. */
  predicate FirstEqual(codes: seq<string>, typed: string, i: nat) {
    && i < |codes| && Normal(codes[i]) == Normal(typed)
    && forall j | 0 <= j < i :: Normal(codes[j]) != Normal(typed)
  }

  lemma MatchIsFirst(codes: seq<string>, typed: string)
    ensures forall i: nat :: FirstMatch(codes, typed) == i <==> FirstEqual(codes, typed, i)
  {
    forall i: nat
      ensures FirstMatch(codes, typed) == i <==> FirstEqual(codes, typed, i)
    {
      if FirstEqual(codes, typed, i) {
        MatchIs(codes, typed, i);
      }
    }
  }

  function Without(codes: seq<string>, i: nat): seq<string>
    requires i < |codes|
  {
    codes[..i] + codes[i + 1..]
  }

  // -------------------------------------------------------------- the steps

  /** totp and checkPassword stand for the TOTP and bcrypt libraries. */
  datatype Env = Env(totp: (string, string, Time) -> bool, checkPassword: (string, string) -> bool)

  datatype Error =
    | UserNotFound | NoSecret | InvalidCode | NotEnabled | SessionInvalid | WrongPurpose
    | InvalidCredentials | Deactivated
    | PasswordTooShort | PasswordTooLong | CurrentPasswordRequired | CurrentPasswordWrong

  datatype Payment = Totp | Recovery(index: nat)

  datatype Event =
    | AddUser(user: UserId, hash: Option<string>)
    | SetPassword(user: UserId, newHash: string)
    | SetActive(user: UserId, active: bool)
    | RemoveUser(user: UserId)
    | Setup(user: UserId, newSecret: string)
    | Enable(user: UserId, code: string, given: string, at: Time, codes: seq<string>)
    | Disable(user: UserId, code: string, password: string, at: Time)
    | Verify(user: UserId, code: string, at: Time)

  function SecretFor(row: Row, given: string): string {
    if given == "" && row.secret.Some? then row.secret.value else given
  }

  predicate Enrols(env: Env, us: Users, e: Event)
    requires e.Enable?
  {
    e.user in us && SecretFor(us[e.user], e.given) != ""
    && env.totp(TrimSpace(e.code), SecretFor(us[e.user], e.given), e.at)
  }

  predicate Confirms(env: Env, row: Row, code: string, password: string, at: Time) {
    || (code != "" && row.secret.Some? && env.totp(TrimSpace(code), row.secret.value, at))
    || (password != "" && row.password.Some? && env.checkPassword(row.password.value, password))
  }

  /** How the second step of a login is paid for, if it is. */
  function Pay(env: Env, row: Row, code: string, at: Time): Option<Payment> {
    if !row.enabled || row.secret.None? then None
    else
      var c := TrimSpace(code);
      if |c| == 6 && env.totp(c, row.secret.value, at) then Some(Totp)
      else
        var i := FirstMatch(row.codes, c);
        if i == -1 then None else Some(Recovery(i))
  }

  function PaidRow(row: Row, p: Option<Payment>): Row {
    if p.Some? && p.value.Recovery? && p.value.index < |row.codes|
    then row.(codes := Without(row.codes, p.value.index)) else row
  }

  function Next(env: Env, us: Users, e: Event): Users {
    match e
    case AddUser(u, hash) => if u in us then us else us[u := Row(false, None, [], hash, true)]
    case SetPassword(u, hash) => if u in us then us[u := us[u].(password := Some(hash))] else us
    case SetActive(u, active) => if u in us then us[u := us[u].(active := active)] else us
    case RemoveUser(u) => us - {u}
    case Setup(u, secret) => if u in us then us[u := us[u].(secret := Some(secret))] else us
    case Enable(u, code, given, at, codes) =>
      if Enrols(env, us, e)
      then us[u := us[u].(enabled := true, secret := Some(SecretFor(us[u], given)), codes := codes)]
      else us
    case Disable(u, code, password, at) =>
      if u in us && us[u].enabled && Confirms(env, us[u], code, password, at)
      then us[u := us[u].(enabled := false, secret := None, codes := [])] else us
    case Verify(u, code, at) =>
      if u in us then us[u := PaidRow(us[u], Pay(env, us[u], code, at))] else us
  }

  /** What a password login ends in: a session, or a challenge for the second step. */
  datatype LoginOutcome = Session | Challenge

  class Service {
    const env: Env
    var users: Users

    constructor (env: Env)
      ensures this.env == env && users == map[]
    {
      this.env := env;
      users := map[];
    }

    /** who is the user the identifier names, if there is one. */
    method Login(identifier: string, who: Option<UserId>, password: string) returns (r: Result<LoginOutcome, Error>)
      requires who.Some? ==> who.value in users
      ensures r.Ok? <==>
                && TrimSpace(identifier) != "" && password != "" && who.Some?
                && var row := users[who.value];
                && row.active && row.password.Some? && row.password.value != ""
                && env.checkPassword(row.password.value, password)
      ensures r.Ok? ==> (r.value == Challenge <==> users[who.value].enabled)
      ensures r == Err(Deactivated) <==>
                TrimSpace(identifier) != "" && password != "" && who.Some? && !users[who.value].active
    {
      if TrimSpace(identifier) == "" || password == "" {
        return Err(InvalidCredentials);
      }
      if who.None? {
        return Err(InvalidCredentials);
      }
      var row := users[who.value];
      if !row.active {
        return Err(Deactivated);
      }
      if row.password.None? || row.password.value == "" {
        return Err(InvalidCredentials);
      }
      if !env.checkPassword(row.password.value, password) {
        return Err(InvalidCredentials);
      }
      if row.enabled {
        return Ok(Challenge);
      }
      return Ok(Session);
    }

    /** Lengths are in bytes; newHash is what hashing the new password gives. */
    method SetPassword(u: UserId, current: Option<string>, newPassword: string, newHash: string)
      returns (r: Result<(), Error>)
      modifies this
      ensures r.Ok? <==>
                && 8 <= |newPassword| <= 72 && u in old(users)
                && var row := old(users)[u];
                   (row.password.Some? && row.password.value != "" ==>
                      current.Some? && current.value != "" && env.checkPassword(row.password.value, current.value))
      ensures users == if r.Ok? then Next(env, old(users), Event.SetPassword(u, newHash)) else old(users)
      ensures r.Ok? ==> users == old(users)[u := old(users)[u].(password := Some(newHash))]
    {
      if |newPassword| < 8 {
        return Err(PasswordTooShort);
      }
      if |newPassword| > 72 {
        return Err(PasswordTooLong);
      }
      if u !in users {
        return Err(UserNotFound);
      }
      var row := users[u];
      if row.password.Some? && row.password.value != "" {
        if current.None? || current.value == "" {
          return Err(CurrentPasswordRequired);
        }
        if !env.checkPassword(row.password.value, current.value) {
          return Err(CurrentPasswordWrong);
        }
      }
      users := users[u := row.(password := Some(newHash))];
      return Ok(());
    }

    method Setup2FA(u: UserId, newSecret: string) returns (r: Result<string, Error>)
      modifies this
      ensures users == Next(env, old(users), Setup(u, newSecret))
      ensures r == if u in old(users) then Ok(newSecret) else Err(UserNotFound)
      ensures users == if u in old(users) then old(users)[u := old(users)[u].(secret := Some(newSecret))]
                       else old(users)
    {
      if u !in users {
        return Err(UserNotFound);
      }
      users := users[u := users[u].(secret := Some(newSecret))];
      return Ok(newSecret);
    }

    method Enable2FA(u: UserId, code: string, secret: string, now: Time, random: seq<seq<nat>>)
      returns (r: Result<seq<string>, Error>)
      requires |random| == CODE_COUNT && forall i | 0 <= i < CODE_COUNT :: |random[i]| == 8
      modifies this
      ensures r.Ok? ==> |r.value| == CODE_COUNT && (forall i | 0 <= i < CODE_COUNT :: IsRecoveryCode(r.value[i]))
                        && Enrols(env, old(users), Enable(u, code, secret, now, r.value))
                        && users == Next(env, old(users), Enable(u, code, secret, now, r.value))
      ensures r.Err? ==> users == old(users) && !Enrols(env, users, Enable(u, code, secret, now, []))
      ensures r.Ok? <==>
                && u in old(users)
                && var inForce := if secret != "" then Some(secret) else old(users)[u].secret;
                   inForce.Some? && inForce.value != "" && env.totp(TrimSpace(code), inForce.value, now)
      ensures r.Ok? ==>
                var inForce := if secret != "" then Some(secret) else old(users)[u].secret;
                users == old(users)[u := old(users)[u].(enabled := true, secret := inForce, codes := r.value)]
    {
      if u !in users {
        return Err(UserNotFound);
      }
      var totpSecret := secret;
      if totpSecret == "" && users[u].secret.Some? {
        totpSecret := users[u].secret.value;
      }
      if totpSecret == "" {
        return Err(NoSecret);
      }
      if !env.totp(TrimSpace(code), totpSecret, now) {
        return Err(InvalidCode);
      }
      var codes := GenerateRecoveryCodes(8, random);
      users := users[u := users[u].(enabled := true, secret := Some(totpSecret), codes := codes)];
      return Ok(codes);
    }

    method Disable2FA(u: UserId, code: string, password: string, now: Time) returns (r: Result<(), Error>)
      modifies this
      ensures users == Next(env, old(users), Disable(u, code, password, now))
      ensures r.Ok? <==>
                && u in old(users) && old(users)[u].enabled
                && var row := old(users)[u];
                   || (code != "" && row.secret.Some? && env.totp(TrimSpace(code), row.secret.value, now))
                   || (password != "" && row.password.Some? && env.checkPassword(row.password.value, password))
      ensures users == if r.Ok? then old(users)[u := old(users)[u].(enabled := false, secret := None, codes := [])]
                       else old(users)
    {
      if u !in users {
        return Err(UserNotFound);
      }
      var row := users[u];
      if !row.enabled {
        return Err(NotEnabled);
      }
      var valid := false;
      if code != "" && row.secret.Some? {
        if env.totp(TrimSpace(code), row.secret.value, now) {
          valid := true;
        }
      }
      if !valid && password != "" && row.password.Some? {
        if env.checkPassword(row.password.value, password) {
          valid := true;
        }
      }
      if !valid {
        return Err(InvalidCode);
      }
      users := users[u := row.(enabled := false, secret := None, codes := [])];
      return Ok(());
    }

    method ConsumeRecoveryCode(u: UserId, code: string) returns (consumed: bool)
      requires u in users
      modifies this
      ensures var i := FirstMatch(old(users)[u].codes, code);
              && consumed == (i != -1)
              && users == if i == -1 then old(users)
                          else old(users)[u := old(users)[u].(codes := Without(old(users)[u].codes, i))]
    {
      var normCode := Normal(code);
      var codes := users[u].codes;
      var foundIndex := -1;
      for i := 0 to |codes|
        invariant forall j | 0 <= j < i :: Normal(codes[j]) != normCode
      {
        if Normal(codes[i]) == normCode {
          foundIndex := i;
          break;
        }
      }
      MatchIs(codes, code, foundIndex);
      if foundIndex == -1 {
        return false;
      }
      users := users[u := users[u].(codes := codes[..foundIndex] + codes[foundIndex + 1..])];
      return true;
    }

    /** The claims are a challenge for a user with two-factor enabled and a secret. */
    predicate Challenged(claims: Option<(string, UserId)>)
      reads this
    {
      && claims.Some? && claims.value.0 == "2fa_challenge" && claims.value.1 in users
      && users[claims.value.1].enabled && users[claims.value.1].secret.Some?
    }

    /** claims is what the temporary token says: its purpose and the user, or None when it does not verify. */
    method Verify2FA(claims: Option<(string, UserId)>, code: string, now: Time) returns (r: Result<Payment, Error>)
      modifies this
      ensures r.Ok? ==> claims.Some? && claims.value.0 == "2fa_challenge" && claims.value.1 in old(users)
                        && Pay(env, old(users)[claims.value.1], code, now) == Some(r.value)
                        && users == Next(env, old(users), Verify(claims.value.1, code, now))
      ensures r.Err? ==> users == old(users)
                         && (claims.Some? && claims.value.0 == "2fa_challenge" && claims.value.1 in users ==>
                               Pay(env, users[claims.value.1], code, now) == None)
      ensures r == Ok(Totp) <==>
                && old(Challenged(claims)) && |TrimSpace(code)| == 6
                && env.totp(TrimSpace(code), old(users)[claims.value.1].secret.value, now)
      ensures r == Ok(Totp) ==> users == old(users)
      ensures forall i: nat :: r == Ok(Recovery(i)) <==>
                && old(Challenged(claims))
                && !(|TrimSpace(code)| == 6 && env.totp(TrimSpace(code), old(users)[claims.value.1].secret.value, now))
                && FirstEqual(old(users)[claims.value.1].codes, TrimSpace(code), i)
      ensures forall i: nat :: r == Ok(Recovery(i)) ==>
                var row := old(users)[claims.value.1];
                users == old(users)[claims.value.1 := row.(codes := row.codes[..i] + row.codes[i + 1..])]
    {
      if claims.None? {
        return Err(SessionInvalid);
      }
      if claims.value.0 != "2fa_challenge" {
        return Err(WrongPurpose);
      }
      var u := claims.value.1;
      if u !in users {
        return Err(UserNotFound);
      }
      var row := users[u];
      if !row.enabled || row.secret.None? {
        return Err(NotEnabled);
      }
      var paid := TakeCode(u, code, now);
      if paid.None? {
        return Err(InvalidCode);
      }
      return Ok(paid.value);
    }

    /** The code of a challenged user: a TOTP code, or else a recovery code, which is used up. */
    method TakeCode(u: UserId, code: string, now: Time) returns (paid: Option<Payment>)
      requires u in users && users[u].enabled && users[u].secret.Some?
      modifies this
      ensures paid == Pay(env, old(users)[u], code, now) && users == Next(env, old(users), Verify(u, code, now))
      ensures paid == Some(Totp) <==>
                |TrimSpace(code)| == 6 && env.totp(TrimSpace(code), old(users)[u].secret.value, now)
      ensures paid == Some(Totp) || paid == None ==> users == old(users)
      ensures forall i: nat :: paid == Some(Recovery(i)) <==>
                paid != Some(Totp) && FirstEqual(old(users)[u].codes, TrimSpace(code), i)
      ensures forall i: nat :: paid == Some(Recovery(i)) ==>
                var row := old(users)[u]; users == old(users)[u := row.(codes := row.codes[..i] + row.codes[i + 1..])]
    {
      var row := users[u];
      var c := TrimSpace(code);
      if |c| == 6 && env.totp(c, row.secret.value, now) {
        return Some(Totp);
      }
      MatchIsFirst(row.codes, c);
      var index := IndexOf(row.codes, c);
      var consumed := ConsumeRecoveryCode(u, c);
      if !consumed {
        return None;
      }
      return Some(Recovery(index));
    }
  }

  function IndexOf(codes: seq<string>, c: string): nat {
    var i := FirstMatch(codes, c);
    if i == -1 then 0 else i
  }

  lemma MatchIs(codes: seq<string>, code: string, i: int)
    requires -1 <= i < |codes|
    requires i >= 0 ==> Normal(codes[i]) == Normal(code) && forall j | 0 <= j < i :: Normal(codes[j]) != Normal(code)
    requires i == -1 ==> forall j | 0 <= j < |codes| :: Normal(codes[j]) != Normal(code)
    ensures FirstMatch(codes, code) == i
  {
    var k := FirstMatch(codes, code);
    if 0 <= k < i || 0 <= i < k {
      assert false;
    }
  }

  // ------------------------------------------------------------ over any run

  /** Enabling stores eight codes, and Setup a secret. */
  predicate Legal(e: Event) {
    (e.Enable? ==> |e.codes| == CODE_COUNT) && (e.Setup? ==> e.newSecret != "")
  }

  ghost predicate RowOk(row: Row) {
    && (row.enabled ==> row.secret.Some? && row.secret.value != "")
    && (row.codes != [] ==> row.enabled)
    && |row.codes| <= CODE_COUNT
  }

  ghost predicate Inv(us: Users) {
    forall u | u in us :: RowOk(us[u])
  }

  lemma NextInv(env: Env, us: Users, e: Event)
    requires Inv(us) && Legal(e)
    ensures Inv(Next(env, us, e))
  {}

  function Run(env: Env, us: Users, es: seq<Event>): Users
    decreases |es|
  {
    if es == [] then us else Run(env, Next(env, us, es[0]), es[1..])
  }

  lemma {:induction false} RunInv(env: Env, us: Users, es: seq<Event>)
    requires Inv(us) && forall e | e in es :: Legal(e)
    ensures Inv(Run(env, us, es))
    decreases |es|
  {
    if es != [] {
      NextInv(env, us, es[0]);
      RunInv(env, Next(env, us, es[0]), es[1..]);
    }
  }

  /** In every reachable state: enabled users have a secret, and only enabled users have recovery codes. */
  lemma ReachableOk(env: Env, es: seq<Event>, u: UserId)
    requires forall e | e in es :: Legal(e)
    requires u in Run(env, map[], es)
    ensures var row := Run(env, map[], es)[u];
            (row.enabled ==> row.secret.Some?) && (row.codes != [] ==> row.enabled)
  {
    RunInv(env, map[], es);
  }

  predicate RecoveryLogin(env: Env, us: Users, e: Event, u: UserId) {
    && e.Verify? && e.user == u && u in us
    && var p := Pay(env, us[u], e.code, e.at);
    p.Some? && p.value.Recovery?
  }

  function RecoveryLogins(env: Env, us: Users, es: seq<Event>, u: UserId): nat
    decreases |es|
  {
    if es == [] then 0
    else (if RecoveryLogin(env, us, es[0], u) then 1 else 0) + RecoveryLogins(env, Next(env, us, es[0]), es[1..], u)
  }

  function CodesLeft(us: Users, u: UserId): nat {
    if u in us then |us[u].codes| else 0
  }

  lemma NextSpends(env: Env, us: Users, e: Event, u: UserId)
    requires e.Enable? ==> e.user != u
    ensures CodesLeft(Next(env, us, e), u) + (if RecoveryLogin(env, us, e, u) then 1 else 0) <= CodesLeft(us, u)
  {}

  /**
    Between enrolments every recovery login costs one code: logins plus codes left never
    exceed the codes there were.
  */
  lemma {:induction false} LoginsAreSpent(env: Env, us: Users, es: seq<Event>, u: UserId)
    requires forall e | e in es :: e.Enable? ==> e.user != u
    ensures RecoveryLogins(env, us, es, u) + CodesLeft(Run(env, us, es), u) <= CodesLeft(us, u)
    decreases |es|
  {
    if es != [] {
      NextSpends(env, us, es[0], u);
      LoginsAreSpent(env, Next(env, us, es[0]), es[1..], u);
    }
  }

  /** In any run, at most eight recovery logins succeed from any point until the user enrols again. */
  lemma AtMostEightRecoveryLogins(env: Env, history: seq<Event>, es: seq<Event>, u: UserId)
    requires forall e | e in history :: Legal(e)
    requires forall e | e in es :: e.Enable? ==> e.user != u
    ensures RecoveryLogins(env, Run(env, map[], history), es, u) <= CODE_COUNT
  {
    RunInv(env, map[], history);
    LoginsAreSpent(env, Run(env, map[], history), es, u);
  }

  /**
    In any run, a user who has enrolled and not disabled since is challenged, and the
    challenge can be met: the secret it needs is there.
  */
  lemma {:induction false} EnrolledStay(env: Env, us: Users, es: seq<Event>, u: UserId)
    requires u in us && us[u].enabled && us[u].secret.Some?
    requires forall e | e in es :: !(e.Disable? && e.user == u) && !(e.RemoveUser? && e.user == u)
    ensures var us' := Run(env, us, es); u in us' && us'[u].enabled && us'[u].secret.Some?
    decreases |es|
  {
    if es != [] {
      assert es[0] in es;
      EnrolledStay(env, Next(env, us, es[0]), es[1..], u);
    }
  }
}

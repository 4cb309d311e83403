/** The login state machine of one session, each handler and callback as one atomic step, and
    the server clock. */
module ClientSession {

  const UINT64_RANGE: nat := 0x1_0000_0000_0000_0000

  type uint64 = n: int | 0 <= n < UINT64_RANGE
  type int64 = n: int | -0x8000_0000_0000_0000 <= n < 0x8000_0000_0000_0000

  datatype Auth = Initialization | WaitToken | WaitCode | WaitPassword | WaitResponse | Authorized | BadToken | Closed

  datatype Login = Login(auth: Auth, botToken: string, userPhone: string)

  /** The kinds of result a callback tells apart. */
  datatype Reply = Ok | Error | Other

  datatype Request =
    | SetTdlibParameters          // and the four options sent with it
    | CheckEncryptionKey
    | CheckBotToken(token: string)
    | SetPhoneNumber(phone: string)
    | CheckCode(code: string)
    | CheckPassword(password: string)
    | SetOffline

  datatype Event =
    // authorization state updates
    | WantsParameters
    | WantsEncryptionKey
    | WantsPhoneNumber
    | IsReady
    | WantsCode
    | WantsPassword
    | UnknownState
    // what the started jobs do later
    | CodeTyped(line: string)
    | PasswordTyped(line: string)
    | OfflineDue
    // callbacks that change the state
    | BotTokenReply(reply: Reply)
    | CodeReply(reply: Reply)
    | PasswordReply(reply: Reply)
    // calls
    | LogInWithBotToken(token: string)
    | LogInWithPhoneNumber(phone: string)

  function Fresh(): Login { Login(Initialization, "", "") }

  function Without(line: string, cs: set<char>): string {
    if line == "" then ""
    else if line[0] in cs then Without(line[1..], cs)
    else [line[0]] + Without(line[1..], cs)
  }

  const SPACES: set<char> := {' ', '\t', '\n', '\r', 0x0B as char, 0x0C as char}

  predicate TakesToken(a: Auth) { a.WaitToken? || a.BadToken? }

  /** The state after an event, and the requests it sends. */
  function Handle(s: Login, e: Event): (Login, seq<Request>) {
    match e
    case WantsParameters => (s, [SetTdlibParameters])
    case WantsEncryptionKey => (s, [CheckEncryptionKey])
    case WantsPhoneNumber =>
      if !s.auth.Initialization? then (s.(auth := WaitToken), [])
      else if s.botToken != "" then (s.(auth := WaitResponse, botToken := ""), [CheckBotToken(s.botToken)])
      else if s.userPhone != "" then (s.(auth := WaitResponse, botToken := ""), [SetPhoneNumber(s.userPhone)])
      else (s, [])
    case IsReady => (s.(auth := Authorized), [])
    case WantsCode => (s.(auth := WaitCode), [])
    case WantsPassword => (s.(auth := WaitPassword), [])
    case UnknownState => (s, [])
    case CodeTyped(line) =>
      var code := Without(line, SPACES);
      if code == "" then (s.(auth := WaitToken), []) else (s, [CheckCode(code)])
    case PasswordTyped(line) =>
      var password := Without(line, {'\n'});
      if password == "" then (s.(auth := WaitToken), []) else (s, [CheckPassword(password)])
    case OfflineDue => (s, [SetOffline])
    case BotTokenReply(r) => (s.(auth := if r.Ok? then Authorized else BadToken), [])
    case CodeReply(r) => (s.(auth := if r.Ok? then WaitResponse else BadToken), [])
    case PasswordReply(r) => (s.(auth := if r.Ok? then WaitResponse else BadToken), [])
    case LogInWithBotToken(token) =>
      if token == "" || s.auth.Authorized? then (s, [])
      else if TakesToken(s.auth) then (s.(auth := WaitResponse, botToken := token), [CheckBotToken(token)])
      else (s.(botToken := token), [])
    case LogInWithPhoneNumber(phone) =>
      if phone == "" || s.auth.Authorized? then (s, [])
      else if TakesToken(s.auth) then (s.(auth := WaitResponse, userPhone := phone), [SetPhoneNumber(phone)])
      else if s.auth.Initialization? then (s.(userPhone := phone), [SetTdlibParameters])
      else (s.(userPhone := phone), [])
  }

  // ---------- runs ----------

  /** The state before event number k. */
  function At(s: Login, es: seq<Event>, k: nat): Login
    requires k <= |es|
  {
    if k == 0 then s else Handle(At(s, es, k - 1), es[k - 1]).0
  }

  predicate LogsIn(r: Request) { r.CheckBotToken? || r.SetPhoneNumber? }

  /** Event number k sends a bot token or a phone number. */
  predicate LoginAt(s: Login, es: seq<Event>, k: nat)
    requires k < |es|
  {
    var sent := Handle(At(s, es, k), es[k]).1;
    sent != [] && LogsIn(sent[0])
  }

  /** Event number k brings the session to waiting for a token, or to a bad one. */
  predicate EntersAt(s: Login, es: seq<Event>, k: nat)
    requires k < |es|
  {
    !TakesToken(At(s, es, k).auth) && TakesToken(At(s, es, k + 1).auth)
  }

  /** Initialization is never re-entered. */
  lemma {:induction false} InitializationOnlyOnce(s: Login, es: seq<Event>, j: nat, k: nat)
    requires j <= k <= |es| && !At(s, es, j).auth.Initialization?
    ensures !At(s, es, k).auth.Initialization?
    decreases k - j
  {
    if j < k { InitializationOnlyOnce(s, es, j, k - 1); }
  }

  /** The automatic attempt is made at most once in a session. */
  lemma AutomaticAttemptOnce(s: Login, es: seq<Event>, j: nat, k: nat)
    requires j < k < |es| && es[j].WantsPhoneNumber? && LoginAt(s, es, j)
    ensures !(es[k].WantsPhoneNumber? && LoginAt(s, es, k))
  {
    InitializationOnlyOnce(s, es, j + 1, k);
  }

  /** A login request is the only one of its event, and is followed by waiting for a response. */
  lemma LoginSends(s: Login, es: seq<Event>, k: nat)
    requires k < |es| && LoginAt(s, es, k)
    ensures |Handle(At(s, es, k), es[k]).1| == 1 && At(s, es, k + 1).auth.WaitResponse?
    ensures At(s, es, k).auth.Initialization? || TakesToken(At(s, es, k).auth)
  {
  }

  lemma {:induction false} EntryBetween(s: Login, es: seq<Event>, j: nat, k: nat)
    requires j < k <= |es| && !TakesToken(At(s, es, j).auth) && TakesToken(At(s, es, k).auth)
    ensures exists i :: j <= i < k && EntersAt(s, es, i)
    decreases k - j
  {
    if TakesToken(At(s, es, k - 1).auth) {
      EntryBetween(s, es, j, k - 1);
    } else {
      assert EntersAt(s, es, k - 1);
    }
  }

  /** Between any two login requests of a session the session has entered WAIT_TOKEN or
      BAD_TOKEN. */
  lemma LoginsSeparated(s: Login, es: seq<Event>, j: nat, k: nat)
    requires j < k < |es| && LoginAt(s, es, j) && LoginAt(s, es, k)
    ensures exists i :: j < i < k && EntersAt(s, es, i)
  {
    LoginSends(s, es, j);
    LoginSends(s, es, k);
    InitializationOnlyOnce(s, es, j + 1, k);
    EntryBetween(s, es, j + 1, k);
    var i :| j + 1 <= i < k && EntersAt(s, es, i);
  }

  function Logins(s: Login, es: seq<Event>, k: nat): nat
    requires k <= |es|
  {
    if k == 0 then 0 else Logins(s, es, k - 1) + if LoginAt(s, es, k - 1) then 1 else 0
  }

  function Entries(s: Login, es: seq<Event>, k: nat): nat
    requires k <= |es|
  {
    if k == 0 then 0 else Entries(s, es, k - 1) + if EntersAt(s, es, k - 1) then 1 else 0
  }

  lemma {:induction false} LoginsBudget(s: Login, es: seq<Event>, k: nat)
    requires k <= |es|
    ensures Logins(s, es, k) + (if TakesToken(At(s, es, k).auth) || At(s, es, k).auth.Initialization? then 1 else 0)
            <= Entries(s, es, k) + 1
  {
    if k > 0 {
      LoginsBudget(s, es, k - 1);
      if At(s, es, k - 1).auth.Initialization? && TakesToken(At(s, es, k).auth) { assert EntersAt(s, es, k - 1); }
    }
  }

  /** So a session sends at most one login request more than it makes such entries. */
  lemma LoginsCounted(s: Login, es: seq<Event>)
    ensures Logins(s, es, |es|) <= Entries(s, es, |es|) + 1
  {
    LoginsBudget(s, es, |es|);
  }

  /** The last token a caller has given; empty ones are ignored. */
  function LastToken(es: seq<Event>, k: nat): string
    requires k <= |es|
  {
    if k == 0 then ""
    else if es[k - 1].LogInWithBotToken? && es[k - 1].token != "" then es[k - 1].token
    else LastToken(es, k - 1)
  }

  /** The automatic attempt, when it is made with a token, uses the last one given. */
  lemma {:induction false} TokenKeptUntilUsed(es: seq<Event>, k: nat)
    requires k <= |es| && At(Fresh(), es, k).auth.Initialization?
    ensures At(Fresh(), es, k).botToken == LastToken(es, k)
  {
    if k > 0 {
      assert At(Fresh(), es, k - 1).auth.Initialization?;
      TokenKeptUntilUsed(es, k - 1);
    }
  }

  // ---------- the server clock ----------

  function Wrap(n: int): uint64 { n % UINT64_RANGE }

  /** What is stored when the server says its time is `server` seconds. */
  function Delta(server: int64, localMillis: uint64): uint64 {
    Wrap(Wrap(server) - localMillis / 1000)
  }

  function Seconds(localMillis: uint64, delta: uint64): uint64 {
    Wrap(localMillis / 1000 + delta)
  }

  function Millis(localMillis: uint64, delta: uint64): uint64 {
    Wrap(localMillis + Wrap(delta * 1000))
  }

  lemma WrapUnique(n: int, r: uint64, k: int)
    requires n == r + k * UINT64_RANGE
    ensures Wrap(n) == r
  {
  }

  lemma WrapParts(n: int) returns (k: int)
    ensures n == Wrap(n) + k * UINT64_RANGE
  {
    k := n / UINT64_RANGE;
  }

  /** Both clocks run on modulo 2^64, whichever of the two sides was ahead. */
  lemma ClockModulo(server: int64, told: uint64, now: uint64)
    ensures Seconds(now, Delta(server, told)) == Wrap(now / 1000 + server - told / 1000)
    ensures Millis(now, Delta(server, told)) == Wrap(now + 1000 * (server - told / 1000))
  {
    var d: int := Delta(server, told);
    var a := WrapParts(server);
    var b := WrapParts(Wrap(server) - told / 1000);
    var c := WrapParts(now / 1000 + d);
    WrapUnique(now / 1000 + server - told / 1000, Seconds(now, d), a + b + c);
    var e := WrapParts(d * 1000);
    var f := WrapParts(now + Wrap(d * 1000));
    WrapUnique(now + 1000 * (server - told / 1000), Millis(now, d), 1000 * (a + b) + e + f);
  }

  /** They give the server's time, in whole seconds and in milliseconds, if and only if that
      time in milliseconds is representable. */
  lemma ClockExact(server: int64, told: uint64, now: uint64)
    ensures var t := now + 1000 * (server - told / 1000);
            Millis(now, Delta(server, told)) == t && Seconds(now, Delta(server, told)) == t / 1000
            <==> 0 <= t < UINT64_RANGE
  {
    ClockModulo(server, told, now);
    WholeSeconds(now, server - told / 1000);
    WrapIs(now + 1000 * (server - told / 1000));
    WrapIs(now / 1000 + server - told / 1000);
  }

  lemma WrapIs(n: int)
    ensures Wrap(n) == n <==> 0 <= n < UINT64_RANGE
  {
  }

  lemma WholeSeconds(now: int, ahead: int)
    ensures (now + 1000 * ahead) / 1000 == now / 1000 + ahead
  {
  }

  // ---------- the session object ----------

  class ClientSession {
    var mAuthState: Auth
    var mAuthBotToken: string
    var mAuthUserPhone: string
    var mServerTimeDeltaSeconds: uint64

    function View(): Login
      reads this
    {
      Login(mAuthState, mAuthBotToken, mAuthUserPhone)
    }

    constructor ()
      ensures View() == Fresh() && mServerTimeDeltaSeconds == 0
    {
      mAuthState, mAuthBotToken, mAuthUserPhone, mServerTimeDeltaSeconds := Initialization, "", "", 0;
    }

    /** The authorization state updates; false for an unknown one. */
    method HandleUpdateAuthorizationState(update: Event) returns (known: bool, sent: seq<Request>)
      requires update.WantsParameters? || update.WantsEncryptionKey? || update.WantsPhoneNumber? || update.IsReady?
               || update.WantsCode? || update.WantsPassword? || update.UnknownState?
      modifies this`mAuthState, this`mAuthBotToken
      ensures (View(), sent) == Handle(old(View()), update) && (known <==> !update.UnknownState?)
    {
      known, sent := true, [];
      match update {
        case WantsParameters => sent := [SetTdlibParameters];
        case WantsEncryptionKey => sent := [CheckEncryptionKey];
        case WantsPhoneNumber =>
          if mAuthState == Initialization {
            if mAuthBotToken != "" {
              sent := [CheckBotToken(mAuthBotToken)];
              mAuthBotToken := "";
              mAuthState := WaitResponse;
            } else if mAuthUserPhone != "" {
              sent := [SetPhoneNumber(mAuthUserPhone)];
              mAuthBotToken := "";
              mAuthState := WaitResponse;
            }
          } else {
            mAuthState := WaitToken;
          }
        case IsReady => mAuthState := Authorized;
        case WantsCode => mAuthState := WaitCode;
        case WantsPassword => mAuthState := WaitPassword;
        case _ => known := false;
      }
    }

    /** The job that reads the code from the terminal. */
    method OnCodeTyped(line: string) returns (sent: seq<Request>)
      modifies this`mAuthState
      ensures (View(), sent) == Handle(old(View()), CodeTyped(line))
    {
      var code := Without(line, SPACES);
      sent := [];
      if code == "" {
        mAuthState := WaitToken;
        return;
      }
      sent := [CheckCode(code)];
    }

    method OnPasswordTyped(line: string) returns (sent: seq<Request>)
      modifies this`mAuthState
      ensures (View(), sent) == Handle(old(View()), PasswordTyped(line))
    {
      var password := Without(line, {'\n'});
      sent := [];
      if password == "" {
        mAuthState := WaitToken;
        return;
      }
      sent := [CheckPassword(password)];
    }

    method OnBotTokenReply(result: Reply)
      modifies this`mAuthState
      ensures (View(), []) == Handle(old(View()), BotTokenReply(result))
    {
      if result == Error {
        mAuthState := BadToken;
      } else if result == Ok {
        mAuthState := Authorized;
      } else {
        mAuthState := BadToken;
      }
    }

    /** The callbacks of the code and of the password check do the same. */
    method OnSecretReply(result: Reply)
      modifies this`mAuthState
      ensures (View(), []) == Handle(old(View()), CodeReply(result)) == Handle(old(View()), PasswordReply(result))
    {
      if result == Error {
        mAuthState := BadToken;
      } else if result == Ok {
        mAuthState := WaitResponse;
      } else {
        mAuthState := BadToken;
      }
    }

    method LogInBot(botToken: string) returns (sent: seq<Request>)
      modifies this`mAuthState, this`mAuthBotToken
      ensures (View(), sent) == Handle(old(View()), LogInWithBotToken(botToken))
    {
      sent := [];
      if botToken == "" {
        return;
      }
      if mAuthState == Authorized {
        return;
      }
      mAuthBotToken := botToken;
      if mAuthState == WaitToken || mAuthState == BadToken {
        sent := [CheckBotToken(mAuthBotToken)];
        mAuthState := WaitResponse;
      }
    }

    method LogInPhone(phoneNumber: string) returns (sent: seq<Request>)
      modifies this`mAuthState, this`mAuthUserPhone
      ensures (View(), sent) == Handle(old(View()), LogInWithPhoneNumber(phoneNumber))
    {
      sent := [];
      if phoneNumber == "" {
        return;
      }
      if mAuthState == Authorized {
        return;
      }
      mAuthUserPhone := phoneNumber;
      if mAuthState == WaitToken || mAuthState == BadToken {
        sent := [SetPhoneNumber(phoneNumber)];
        mAuthState := WaitResponse;
      } else if mAuthState == Initialization {
        sent := [SetTdlibParameters];
      }
    }

    /** The `unix_time` option. */
    method HandleUnixTime(value: int64, localMillis: uint64)
      modifies this`mServerTimeDeltaSeconds
      ensures mServerTimeDeltaSeconds == Delta(value, localMillis)
    {
      var serverTimeSeconds := Wrap(value);
      var localTimeSeconds := localMillis / 1000;
      mServerTimeDeltaSeconds := Wrap(serverTimeSeconds - localTimeSeconds);
    }
  }
}

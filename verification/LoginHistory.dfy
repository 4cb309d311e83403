/** What a session's history says about it: from the events alone, which state the session is in,
    which credentials it holds and what it sends. */
module LoginHistory {
  import opened ClientSession

  // ---------- stripped input ----------

  lemma {:induction false} StripAppend(a: string, b: string, cs: set<char>)
    ensures Without(a + b, cs) == Without(a, cs) + Without(b, cs)
  {
    if a == "" {
      assert a + b == b;
    } else {
      assert (a + b)[1..] == a[1..] + b;
      StripAppend(a[1..], b, cs);
    }
  }

  /** Stripping leaves no character of the set, and takes nothing away when there is none. */
  lemma {:induction false} StripIs(line: string, cs: set<char>)
    ensures forall c | c in Without(line, cs) :: c !in cs
    ensures Without(line, cs) == line <==> forall c | c in line :: c !in cs
    ensures Without(line, cs) == "" <==> forall c | c in line :: c in cs
    ensures |Without(line, cs)| <= |line|
  {
    if line != "" {
      StripIs(line[1..], cs);
      assert line == [line[0]] + line[1..];
      if line[0] !in cs { assert Without(line, cs)[1..] == Without(line[1..], cs); }
    }
  }

  // ---------- events ----------

  /** A line without a code, or without a password. */
  predicate Blank(e: Event) {
    (e.CodeTyped? && forall c | c in e.line :: c in SPACES) || (e.PasswordTyped? && forall c | c in e.line :: c == '\n')
  }

  predicate BadReply(e: Event) {
    (e.BotTokenReply? || e.CodeReply? || e.PasswordReply?) && !e.reply.Ok?
  }

  predicate GoodReply(e: Event) {
    (e.BotTokenReply? || e.CodeReply? || e.PasswordReply?) && e.reply.Ok?
  }

  predicate GivesToken(e: Event) { e.LogInWithBotToken? && e.token != "" }

  predicate GivesPhone(e: Event) { e.LogInWithPhoneNumber? && e.phone != "" }

  predicate GivesCredential(e: Event) { GivesToken(e) || GivesPhone(e) }

  lemma BlankIs(e: Event)
    ensures e.CodeTyped? ==> (Blank(e) <==> Without(e.line, SPACES) == "")
    ensures e.PasswordTyped? ==> (Blank(e) <==> Without(e.line, {'\n'}) == "")
  {
    if e.CodeTyped? { StripIs(e.line, SPACES); }
    if e.PasswordTyped? { StripIs(e.line, {'\n'}); }
  }

  // ---------- which state ----------

  /** No event has decided the state, and no phone number was wanted after a credential was given. */
  ghost predicate StillInitial(es: seq<Event>, k: nat)
    requires k <= |es|
  {
    && (forall j | 0 <= j < k ::
          && !es[j].IsReady? && !es[j].WantsCode? && !es[j].WantsPassword?
          && !Blank(es[j]) && !BadReply(es[j]) && !GoodReply(es[j]))
    && (forall i, j | 0 <= i < j < k :: !(GivesCredential(es[i]) && es[j].WantsPhoneNumber?))
  }

  /** Event i asked for a token, by a blank line, a refusal or a phone number wanted after the first
      attempt, and none after it and before k has brought anything else. */
  ghost predicate AskedFrom(es: seq<Event>, i: nat, k: nat)
    requires i < k <= |es|
  {
    && (Blank(es[i]) || BadReply(es[i]) || (es[i].WantsPhoneNumber? && !StillInitial(es, i)))
    && forall m | i < m < k ::
         && !es[m].IsReady? && !es[m].WantsCode? && !es[m].WantsPassword?
         && !GoodReply(es[m]) && !GivesCredential(es[m])
  }

  ghost predicate TokenWanted(es: seq<Event>, k: nat)
    requires k <= |es|
  {
    exists i: nat | i < k :: AskedFrom(es, i, k)
  }

  /** Event j brings the session into the state a, or leaves it there. */
  ghost predicate Enters(a: Auth, es: seq<Event>, j: nat)
    requires j < |es|
  {
    var e := es[j];
    match a
    case Authorized => e.IsReady? || e == BotTokenReply(Ok)
    case WaitCode => e.WantsCode?
    case WaitPassword => e.WantsPassword?
    case BadToken => BadReply(e)
    case WaitToken => Blank(e) || (e.WantsPhoneNumber? && !StillInitial(es, j))
    case WaitResponse =>
      || e == CodeReply(Ok)
      || e == PasswordReply(Ok)
      || (e.WantsPhoneNumber? && StillInitial(es, j) && CredentialBefore(es, j))
      || (GivesCredential(e) && TokenWanted(es, j))
    case _ => false
  }

  /** The event e takes the session out of the state a. */
  predicate Leaves(a: Auth, e: Event) {
    match a
    case Authorized =>
      || e.WantsPhoneNumber? || e.WantsCode? || e.WantsPassword?
      || Blank(e) || BadReply(e) || e == CodeReply(Ok) || e == PasswordReply(Ok)
    case WaitCode =>
      e.WantsPhoneNumber? || e.IsReady? || e.WantsPassword? || Blank(e) || BadReply(e) || GoodReply(e)
    case WaitPassword =>
      e.WantsPhoneNumber? || e.IsReady? || e.WantsCode? || Blank(e) || BadReply(e) || GoodReply(e)
    case BadToken =>
      || e.WantsPhoneNumber? || e.IsReady? || e.WantsCode? || e.WantsPassword?
      || Blank(e) || GoodReply(e) || GivesCredential(e)
    case WaitToken =>
      e.IsReady? || e.WantsCode? || e.WantsPassword? || BadReply(e) || GoodReply(e) || GivesCredential(e)
    case WaitResponse =>
      || e.WantsPhoneNumber? || e.IsReady? || e.WantsCode? || e.WantsPassword?
      || Blank(e) || BadReply(e) || e == BotTokenReply(Ok)
    case _ => true
  }

  /** Event j entered the state, and none after it and before k left. */
  ghost predicate HeldFrom(a: Auth, es: seq<Event>, j: nat, k: nat)
    requires j < k <= |es|
  {
    Enters(a, es, j) && forall i | j < i < k :: !Leaves(a, es[i])
  }

  ghost predicate Since(a: Auth, es: seq<Event>, k: nat)
    requires k <= |es|
  {
    exists j: nat | j < k :: HeldFrom(a, es, j, k)
  }

  lemma SinceStep(a: Auth, es: seq<Event>, k: nat)
    requires k < |es|
    ensures Since(a, es, k + 1) <==> Enters(a, es, k) || (Since(a, es, k) && !Leaves(a, es[k]))
  {
    if Since(a, es, k + 1) && !Enters(a, es, k) {
      var j: nat :| j < k + 1 && HeldFrom(a, es, j, k + 1);
      assert HeldFrom(a, es, j, k);
    }
    if Since(a, es, k) && !Leaves(a, es[k]) {
      var j: nat :| j < k && HeldFrom(a, es, j, k);
      assert HeldFrom(a, es, j, k + 1);
    }
    if Enters(a, es, k) { assert HeldFrom(a, es, k, k + 1); }
  }

  ghost predicate CredentialBefore(es: seq<Event>, k: nat)
    requires k <= |es|
  {
    exists i :: 0 <= i < k && GivesCredential(es[i])
  }

  // ---------- the credentials held ----------

  /** The last phone number a caller has given. */
  function LastPhone(es: seq<Event>, k: nat): string
    requires k <= |es|
  {
    if k == 0 then ""
    else if GivesPhone(es[k - 1]) then es[k - 1].phone
    else LastPhone(es, k - 1)
  }

  lemma {:induction false} LastGiven(es: seq<Event>, k: nat)
    requires k <= |es|
    ensures LastToken(es, k) != "" || LastPhone(es, k) != "" <==> CredentialBefore(es, k)
  {
    if k > 0 {
      LastGiven(es, k - 1);
      if GivesCredential(es[k - 1]) { assert CredentialBefore(es, k); }
      if CredentialBefore(es, k - 1) {
        var i :| 0 <= i < k - 1 && GivesCredential(es[i]);
        assert CredentialBefore(es, k);
      }
    }
  }

  /** In INITIALIZATION the session holds the last token and the last phone number given. */
  lemma {:induction false} InitialCredentials(es: seq<Event>, k: nat)
    requires k <= |es| && At(Fresh(), es, k).auth.Initialization?
    ensures At(Fresh(), es, k).botToken == LastToken(es, k)
    ensures At(Fresh(), es, k).userPhone == LastPhone(es, k)
  {
    if k > 0 {
      assert At(Fresh(), es, k - 1).auth.Initialization?;
      InitialCredentials(es, k - 1);
    }
  }

  lemma StillInitialStep(es: seq<Event>, k: nat)
    requires k < |es|
    ensures StillInitial(es, k + 1) <==>
              && StillInitial(es, k)
              && !es[k].IsReady? && !es[k].WantsCode? && !es[k].WantsPassword?
              && !Blank(es[k]) && !BadReply(es[k]) && !GoodReply(es[k])
              && !(es[k].WantsPhoneNumber? && CredentialBefore(es, k))
  {
    if StillInitial(es, k + 1) && es[k].WantsPhoneNumber? {
      forall i | 0 <= i < k ensures !GivesCredential(es[i]) {}
    }
  }

  /** INITIALIZATION, exactly. */
  lemma {:induction false} InitializationIff(es: seq<Event>, k: nat)
    requires k <= |es|
    ensures At(Fresh(), es, k).auth.Initialization? <==> StillInitial(es, k)
  {
    if k > 0 {
      InitializationIff(es, k - 1);
      StillInitialStep(es, k - 1);
      BlankIs(es[k - 1]);
      LastGiven(es, k - 1);
      if At(Fresh(), es, k - 1).auth.Initialization? { InitialCredentials(es, k - 1); }
    }
  }

  /** Entering, with what the history says about the state before the event. */
  predicate EntersFrom(a: Auth, s: Login, e: Event) {
    match a
    case Authorized => e.IsReady? || e == BotTokenReply(Ok)
    case WaitCode => e.WantsCode?
    case WaitPassword => e.WantsPassword?
    case BadToken => BadReply(e)
    case WaitToken => Blank(e) || (e.WantsPhoneNumber? && !s.auth.Initialization?)
    case WaitResponse =>
      || e == CodeReply(Ok)
      || e == PasswordReply(Ok)
      || (e.WantsPhoneNumber? && s.auth.Initialization? && (s.botToken != "" || s.userPhone != ""))
      || (GivesCredential(e) && (s.auth.WaitToken? || s.auth.BadToken?))
    case _ => false
  }

  lemma OneEvent(a: Auth, s: Login, e: Event)
    requires !a.Initialization?
    ensures if a.Closed? then Handle(s, e).0.auth == a ==> s.auth == a
            else Handle(s, e).0.auth == a <==> EntersFrom(a, s, e) || (s.auth == a && !Leaves(a, e))
  {
    BlankIs(e);
  }

  lemma TokenWantedStep(es: seq<Event>, k: nat)
    requires k < |es|
    ensures TokenWanted(es, k + 1) <==>
              || Blank(es[k]) || BadReply(es[k]) || (es[k].WantsPhoneNumber? && !StillInitial(es, k))
              || (TokenWanted(es, k) && !es[k].IsReady? && !es[k].WantsCode? && !es[k].WantsPassword?
                  && !GoodReply(es[k]) && !GivesCredential(es[k]))
  {
    if TokenWanted(es, k + 1) {
      var i: nat :| i < k + 1 && AskedFrom(es, i, k + 1);
      if i < k { assert AskedFrom(es, i, k); }
    }
    if TokenWanted(es, k) {
      var i: nat :| i < k && AskedFrom(es, i, k);
      if !es[k].IsReady? && !es[k].WantsCode? && !es[k].WantsPassword? && !GoodReply(es[k]) && !GivesCredential(es[k]) {
        assert AskedFrom(es, i, k + 1);
      }
    }
    if Blank(es[k]) || BadReply(es[k]) || (es[k].WantsPhoneNumber? && !StillInitial(es, k)) {
      assert AskedFrom(es, k, k + 1);
    }
  }

  /** Waiting for a token, or for one in place of a bad one, exactly. */
  lemma {:induction false} TokenWantedIff(es: seq<Event>, k: nat)
    requires k <= |es|
    ensures TakesToken(At(Fresh(), es, k).auth) <==> TokenWanted(es, k)
  {
    if k > 0 {
      TokenWantedIff(es, k - 1);
      TokenWantedStep(es, k - 1);
      InitializationIff(es, k - 1);
      OneEvent(WaitToken, At(Fresh(), es, k - 1), es[k - 1]);
      OneEvent(BadToken, At(Fresh(), es, k - 1), es[k - 1]);
    }
  }

  lemma EntersIs(es: seq<Event>, k: nat, a: Auth)
    requires k < |es|
    ensures EntersFrom(a, At(Fresh(), es, k), es[k]) <==> Enters(a, es, k)
  {
    InitializationIff(es, k);
    LastGiven(es, k);
    if StillInitial(es, k) { InitialCredentials(es, k); }
    TokenWantedIff(es, k);
  }

  /** Every state, exactly: the session is in INITIALIZATION as long as nothing has decided
      otherwise, and in any other state if and only if some event has brought it there and none since
      has taken it away. CLOSED is never reached. */
  lemma {:induction false} StateIff(es: seq<Event>, k: nat, a: Auth)
    requires k <= |es|
    ensures At(Fresh(), es, k).auth == a <==> if a.Initialization? then StillInitial(es, k) else Since(a, es, k)
    decreases k
  {
    InitializationIff(es, k);
    if k > 0 && !a.Initialization? {
      StateIff(es, k - 1, a);
      SinceStep(a, es, k - 1);
      OneEvent(a, At(Fresh(), es, k - 1), es[k - 1]);
      EntersIs(es, k - 1, a);
    }
  }

  // ---------- credentials and requests ----------

  /** The phone number held: the last one given while not authorized. */
  ghost function PhoneHeld(es: seq<Event>, k: nat): string
    requires k <= |es|
  {
    if k == 0 then ""
    else if GivesPhone(es[k - 1]) && !Since(Authorized, es, k - 1) then es[k - 1].phone
    else PhoneHeld(es, k - 1)
  }

  /** The token held: the last one given while not authorized, until the first phone number wanted,
      which uses it up. */
  ghost function TokenHeld(es: seq<Event>, k: nat): string
    requires k <= |es|
  {
    if k == 0 then ""
    else if GivesToken(es[k - 1]) && !Since(Authorized, es, k - 1) then es[k - 1].token
    else if es[k - 1].WantsPhoneNumber? && StillInitial(es, k - 1) then ""
    else TokenHeld(es, k - 1)
  }

  lemma HoldsAfter(s: Login, e: Event)
    ensures Handle(s, e).0.userPhone == if GivesPhone(e) && !s.auth.Authorized? then e.phone else s.userPhone
    ensures Handle(s, e).0.botToken
            == if GivesToken(e) && !s.auth.Authorized? then e.token
               else if e.WantsPhoneNumber? && s.auth.Initialization? then ""
               else s.botToken
  {
  }

  lemma {:induction false} PhoneIsHeld(es: seq<Event>, k: nat)
    requires k <= |es|
    ensures At(Fresh(), es, k).userPhone == PhoneHeld(es, k)
  {
    if k > 0 {
      PhoneIsHeld(es, k - 1);
      HoldsAfter(At(Fresh(), es, k - 1), es[k - 1]);
      StateIff(es, k - 1, Authorized);
    }
  }

  lemma {:induction false} TokenIsHeld(es: seq<Event>, k: nat)
    requires k <= |es|
    ensures At(Fresh(), es, k).botToken == TokenHeld(es, k)
  {
    if k > 0 {
      TokenIsHeld(es, k - 1);
      HoldsAfter(At(Fresh(), es, k - 1), es[k - 1]);
      StateIff(es, k - 1, Authorized);
      InitializationIff(es, k - 1);
    }
  }

  /** The credentials held, exactly. */
  lemma CredentialsHeld(es: seq<Event>, k: nat)
    requires k <= |es|
    ensures At(Fresh(), es, k).userPhone == PhoneHeld(es, k)
    ensures At(Fresh(), es, k).botToken == TokenHeld(es, k)
  {
    PhoneIsHeld(es, k);
    TokenIsHeld(es, k);
  }

  /** When an event sends a request: the parameters when they are wanted, and again when a phone
      number comes during INITIALIZATION; a login when the first phone number is wanted, with the
      token held or else the phone number held, or when it is given while one is wanted, and then
      that one; a code or password that is not blank, stripped. */
  predicate Calls(e: Event, initial: bool, wanted: bool, tokenHeld: string, phoneHeld: string, r: Request) {
    match r
    case SetTdlibParameters => e.WantsParameters? || (GivesPhone(e) && initial)
    case CheckEncryptionKey => e.WantsEncryptionKey?
    case CheckBotToken(token) =>
      && token != ""
      && ((e.WantsPhoneNumber? && initial && token == tokenHeld) || (e == LogInWithBotToken(token) && wanted))
    case SetPhoneNumber(phone) =>
      && phone != ""
      && ((e.WantsPhoneNumber? && initial && tokenHeld == "" && phone == phoneHeld)
          || (e == LogInWithPhoneNumber(phone) && wanted))
    case CheckCode(code) => e.CodeTyped? && !Blank(e) && code == Without(e.line, SPACES)
    case CheckPassword(password) => e.PasswordTyped? && !Blank(e) && password == Without(e.line, {'\n'})
    case SetOffline => e.OfflineDue?
  }

  lemma OneEventSends(s: Login, e: Event, r: Request)
    ensures |Handle(s, e).1| <= 1
    ensures r in Handle(s, e).1
            <==> Calls(e, s.auth.Initialization?, TakesToken(s.auth), s.botToken, s.userPhone, r)
  {
    BlankIs(e);
  }

  /** What event k sends, exactly, from the history alone. */
  lemma SentIff(es: seq<Event>, k: nat, r: Request)
    requires k < |es|
    ensures |Handle(At(Fresh(), es, k), es[k]).1| <= 1
    ensures r in Handle(At(Fresh(), es, k), es[k]).1
            <==> Calls(es[k], StillInitial(es, k), TokenWanted(es, k), TokenHeld(es, k), PhoneHeld(es, k), r)
  {
    OneEventSends(At(Fresh(), es, k), es[k], r);
    InitializationIff(es, k);
    CredentialsHeld(es, k);
    TokenWantedIff(es, k);
  }
}

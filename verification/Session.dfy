/** Whole sessions of the client, checked against the order of commands. */
module Session {
  import opened Basics
  import opened Bytes
  import opened Protocol
  import opened ServerView
  import opened Client
  import opened CommandOrder
  import opened Network
  import opened Plans
  import Attachment
  import Base64

  // ---------- the client's scripts are accepted ----------

  lemma ExchangeAccepted(s: Monitor, c: Command, text: seq<byte>)
    requires s.waiting.None? && MayStart(s, c) && c != Quit && c != DataBlock
    ensures Accepts(s, Exchange(c, text)) && Final(s, Exchange(c, text)) == Accepted(s, c)
  {
    hide Accepts, Final;
    OneEvent(s, Sent(c, text));
    OneEvent(After(s, Sent(c, text)), Got(ValidReply(c)));
    InTurn(s, [Sent(c, text)], [Got(ValidReply(c))]);
    assert Exchange(c, text) == [Sent(c, text)] + [Got(ValidReply(c))];
  }

  lemma OneEvent(s: Monitor, e: Event)
    ensures Final(s, [e]) == After(s, e) && (Accepts(s, [e]) <==> Allowed(s, e))
  {
    assert [e][..0] == [];
  }

  lemma {:induction false} NeverLeaves(s: Monitor, trace: seq<Event>)
    requires s.phase != Leaving && NoQuit(trace)
    ensures Final(s, trace).phase != Leaving
  {
    hide After;
    if trace != [] {
      NeverLeaves(s, trace[..|trace| - 1]);
      OnlyQuitLeaves(Final(s, trace[..|trace| - 1]), trace[|trace| - 1]);
    }
  }

  lemma OnlyQuitLeaves(s: Monitor, e: Event)
    requires s.phase != Leaving && !(e.Sent? && e.command == Quit)
    ensures After(s, e).phase != Leaving
  {
  }

  /** A run that follows an accepted script, cut short or ended by a wrong reply, is accepted too. */
  lemma CutAccepted(s: Monitor, script: seq<Event>, ran: seq<Event>)
    requires Accepts(s, script) && Cut(script, ran) && s.phase != Leaving && NoQuit(script)
    ensures Accepts(s, ran) && Final(s, ran).phase != Leaving
  {
    hide Accepts, Final, Allowed, After;
    var n := |ran| - 1;
    if ran <= script {
      AcceptsPrefix(s, script, |ran|);
      assert script[..|ran|] == ran;
    } else {
      StepAt(s, script, n);
      assert script[..n] == ran[..n];
      AnyCode(Final(s, ran[..n]), script[n].code, ran[n].code);
      OneEvent(Final(s, ran[..n]), ran[n]);
      InTurn(s, ran[..n], [ran[n]]);
      assert ran == ran[..n] + [ran[n]];
    }
    CutNoQuit(script, ran);
    NeverLeaves(s, ran);
  }

  lemma AnyCode(s: Monitor, code: nat, other: nat)
    ensures Allowed(s, Got(code)) ==> Allowed(s, Got(other))
  {
  }

  lemma CutNoQuit(script: seq<Event>, ran: seq<Event>)
    requires NoQuit(script) && Cut(script, ran)
    ensures NoQuit(ran)
  {
    forall i | 0 <= i < |ran| && ran[i].Sent?
      ensures ran[i] == script[i]
    {
    }
  }

  lemma NoQuitBoth(s: seq<Event>, t: seq<Event>)
    requires NoQuit(s) && NoQuit(t)
    ensures NoQuit(s + t)
  {
  }

  lemma QuitAccepted(s: Monitor, quit: seq<Event>)
    requires s.phase != Leaving && IsQuit(quit)
    ensures Accepts(s, quit)
  {
    hide Accepts, Final;
    Initially(s);
    if quit != [] {
      var asked := After(s, quit[0]);
      OneEvent(s, quit[0]);
      if |quit| == 2 {
        OneEvent(asked, quit[1]);
        InTurn(s, [quit[0]], [quit[1]]);
        assert quit == [quit[0]] + [quit[1]];
      } else {
        assert quit == [quit[0]];
      }
    }
  }

  function Welcomed(security: Security): Monitor { Monitor(security, security == UseSsl, true, None, Idle) }

  function Opened(security: Security): Monitor { Monitor(security, security != NoSecurity, true, None, Idle) }

  lemma ArrivalAccepted(security: Security)
    ensures Accepts(Start(security), Arrival(security))
    ensures Final(Start(security), Arrival(security)) == Welcomed(security).(greeted := false)
    ensures NoQuit(Arrival(security))
  {
    hide Accepts, Final;
    var s := Start(security);
    Initially(s);
    OneEvent(s, Prepared);
    OneEvent(s, Secured);
    InTurn(s, [Prepared], [Secured]);
    assert [Prepared, Secured] == [Prepared] + [Secured];
    var t := Final(s, Cipher(security));
    OneEvent(t, Got(220));
    InTurn(s, Cipher(security), [Got(220)]);
  }

  lemma WelcomeAccepted(security: Security, a: Account)
    ensures Accepts(Start(security), Welcome(security, a))
    ensures Final(Start(security), Welcome(security, a)) == Welcomed(security)
    ensures NoQuit(Welcome(security, a))
  {
    hide Accepts, Final;
    ArrivalAccepted(security);
    ExchangeAccepted(Welcomed(security).(greeted := false), Ehlo, HelloText(a.host));
    InTurn(Start(security), Arrival(security), Greeting(a));
    NoQuitBoth(Arrival(security), Greeting(a));
  }

  lemma UpgradingAccepted(security: Security, a: Account)
    ensures Accepts(Welcomed(security), Upgrading(security, a))
    ensures Final(Welcomed(security), Upgrading(security, a)) == Opened(security)
    ensures NoQuit(Upgrading(security, a))
  {
    hide Accepts, Final;
    var s := Welcomed(security);
    Initially(s);
    if security == UseTls {
      var text := Ascii("STARTTLS\r\n");
      ExchangeAccepted(s, StartTls, text);
      var t := Accepted(s, StartTls);
      OneEvent(t, Secured);
      InTurn(s, Exchange(StartTls, text), [Secured]);
      var u := After(t, Secured);
      ExchangeAccepted(u, Ehlo, HelloText(a.host));
      InTurn(s, StartTlsScript(), Greeting(a));
    }
  }

  lemma OpeningAccepted(security: Security, a: Account)
    ensures Accepts(Start(security), Opening(security, a))
    ensures Final(Start(security), Opening(security, a)) == Opened(security)
    ensures NoQuit(Opening(security, a))
  {
    hide Accepts, Final, NoQuit, Welcomed, Opened;
    WelcomeAccepted(security, a);
    UpgradingAccepted(security, a);
    InTurn(Start(security), Welcome(security, a), Upgrading(security, a));
    NoQuitBoth(Welcome(security, a), Upgrading(security, a));
  }

  lemma LoginAccepted(s: Monitor, a: Account)
    requires s.waiting.None? && s.phase == Idle && Ready(s)
    ensures Accepts(s, LoginScript(a)) && Final(s, LoginScript(a)) == s && NoQuit(LoginScript(a))
  {
    hide Accepts, Final;
    var dialog := s.(phase := Dialog);
    var ask := Exchange(AuthLogin, Ascii("AUTH LOGIN\r\n"));
    var user := Exchange(User, WithCrLf(Base64.Encode(a.login)));
    var password := Exchange(Password, WithCrLf(Base64.Encode(a.password)));
    ExchangeAccepted(s, AuthLogin, Ascii("AUTH LOGIN\r\n"));
    ExchangeAccepted(dialog, User, WithCrLf(Base64.Encode(a.login)));
    ExchangeAccepted(dialog, Password, WithCrLf(Base64.Encode(a.password)));
    InTurn(s, ask, user);
    InTurn(s, ask + user, password);
  }

  lemma CramAccepted(s: Monitor, a: Account, challenge: seq<byte>)
    requires s.waiting.None? && s.phase == Idle && Ready(s)
    ensures Accepts(s, CramScript(a, challenge)) && Final(s, CramScript(a, challenge)) == s
    ensures NoQuit(CramScript(a, challenge))
  {
    hide Accepts, Final, AnswerText;
    ExchangeAccepted(s, AuthCramMd5, Ascii("AUTH CRAM-MD5\r\n"));
    ExchangeAccepted(s.(phase := Dialog), Password, AnswerText(a, challenge));
    InTurn(s, Exchange(AuthCramMd5, Ascii("AUTH CRAM-MD5\r\n")), CramAnswer(a, challenge));
  }

  lemma AuthAccepted(s: Monitor, a: Account, auth: Auth)
    requires s.waiting.None? && s.phase == Idle && Ready(s)
    ensures Accepts(s, AuthScript(a, auth)) && NoQuit(AuthScript(a, auth))
    ensures !auth.DigestMd5Auth? ==> Final(s, AuthScript(a, auth)) == s
  {
    hide Accepts, Final, LoginScript, CramScript, PlainText;
    Initially(s);
    match auth
    case NoAuth =>
    case LoginAuth => LoginAccepted(s, a);
    case PlainAuth => ExchangeAccepted(s, AuthPlain, PlainText(a));
    case CramMd5Auth(challenge) => CramAccepted(s, a, challenge);
    case DigestMd5Auth => ExchangeAccepted(s, DigestMd5, Ascii("AUTH DIGEST-MD5\r\n"));
  }

  lemma ConnectAccepted(security: Security, a: Account, auth: Auth)
    ensures var script := ConnectScript(security, a, auth);
            && Accepts(Start(security), script) && NoQuit(script)
            && (!auth.DigestMd5Auth? ==> Final(Start(security), script) == Opened(security))
  {
    hide Accepts, Final, NoQuit, Opening, AuthScript;
    OpeningAccepted(security, a);
    AuthAccepted(Opened(security), a, auth);
    InTurn(Start(security), Opening(security, a), AuthScript(a, auth));
    NoQuitBoth(Opening(security, a), AuthScript(a, auth));
  }

  // After n more accepted recipients.
  function Counted(s: Monitor, n: nat): Monitor
    requires s.phase.Mail?
  {
    s.(phase := Mail(s.phase.recipients + n))
  }

  lemma LastRecipient(list: seq<seq<byte>>)
    requires list != []
    ensures var n := |list| - 1;
            Flatten(Recipients(list)) == Flatten(Recipients(list[..n])) + Exchange(RcptTo, RcptText(list[n]))
  {
    hide RcptText;
    var n := |list| - 1;
    FlattenAt(Recipients(list), n);
    assert Recipients(list)[..n] == Recipients(list[..n]) && Recipients(list)[..n + 1] == Recipients(list);
  }

  lemma RecipientAccepted(s: Monitor, n: nat, text: seq<byte>)
    requires s.waiting.None? && s.phase.Mail?
    ensures Accepts(Counted(s, n), Exchange(RcptTo, text))
    ensures Final(Counted(s, n), Exchange(RcptTo, text)) == Counted(s, n + 1)
  {
    hide Accepts, Final;
    ExchangeAccepted(Counted(s, n), RcptTo, text);
  }

  lemma {:induction false} RecipientsAccepted(s: Monitor, list: seq<seq<byte>>)
    requires s.waiting.None? && s.phase.Mail?
    ensures var script := Flatten(Recipients(list));
            Accepts(s, script) && NoQuit(script) && Final(s, script) == Counted(s, |list|)
  {
    hide Accepts, Final, RcptText, NoQuit;
    NoQuitIn([]);
    Initially(s);
    if list == [] {
      assert Counted(s, 0) == s && Flatten(Recipients(list)) == [];
    } else {
      hide Flatten, Recipients, Counted;
      var n := |list| - 1;
      var last := Exchange(RcptTo, RcptText(list[n]));
      RecipientsAccepted(s, list[..n]);
      LastRecipient(list);
      RecipientAccepted(s, n, RcptText(list[n]));
      InTurn(s, Flatten(Recipients(list[..n])), last);
      NoQuitIn(last);
      NoQuitBoth(Flatten(Recipients(list[..n])), last);
    }
  }

  lemma NoQuitIn(s: seq<Event>)
    requires s == [] || (s[0].Sent? && s[0].command != Quit && |s| == 2 && s[1].Got?)
    ensures NoQuit(s)
  {
  }

  lemma {:induction false} BlocksAccepted(s: Monitor, blocks: seq<seq<byte>>)
    requires s.waiting.None? && s.phase == Collecting
    ensures Accepts(s, BlockEvents(blocks)) && Final(s, BlockEvents(blocks)) == s && NoQuit(BlockEvents(blocks))
  {
    hide Accepts, Final;
    if blocks == [] {
      Initially(s);
    } else {
      var n := |blocks| - 1;
      BlocksAccepted(s, blocks[..n]);
      OneEvent(s, Sent(DataBlock, blocks[n]));
      InTurn(s, BlockEvents(blocks[..n]), [Sent(DataBlock, blocks[n])]);
      assert BlockEvents(blocks) == BlockEvents(blocks[..n]) + [Sent(DataBlock, blocks[n])];
    }
  }

  lemma EnvelopeAccepted(s: Monitor, m: Message)
    requires s.waiting.None? && s.phase == Idle && Ready(s)
    ensures Accepts(s, Envelope(m)) && NoQuit(Envelope(m))
    ensures Final(s, Envelope(m)) == s.(phase := Mail(|Everyone(m)|))
  {
    hide Accepts, Final, MailText, RcptText, Everyone;
    ExchangeAccepted(s, MailFrom, MailText(m.from));
    RecipientsAccepted(s.(phase := Mail(0)), Everyone(m));
    InTurn(s, Exchange(MailFrom, MailText(m.from)), Flatten(Recipients(Everyone(m))));
    NoQuitBoth(Exchange(MailFrom, MailText(m.from)), Flatten(Recipients(Everyone(m))));
  }

  lemma DataAccepted(s: Monitor, m: Message)
    requires s.waiting.None? && s.phase.Mail? && s.phase.recipients > 0
    ensures Accepts(s, DataScript(m)) && Final(s, DataScript(m)) == s.(phase := Idle) && NoQuit(DataScript(m))
  {
    hide Accepts, Final, Content;
    var data, end := Exchange(Data, Ascii("DATA\r\n")), Exchange(DataEnd, FINAL_DOT);
    var collecting := s.(phase := Collecting);
    ExchangeAccepted(s, Data, Ascii("DATA\r\n"));
    BlocksAccepted(collecting, Content(m));
    ExchangeAccepted(collecting, DataEnd, FINAL_DOT);
    InTurn(s, data, BlockEvents(Content(m)));
    InTurn(s, data + BlockEvents(Content(m)), end);
    NoQuitBoth(data, BlockEvents(Content(m)));
    NoQuitBoth(data + BlockEvents(Content(m)), end);
  }

  lemma MailAccepted(s: Monitor, m: Message)
    requires s.waiting.None? && s.phase == Idle && Ready(s) && m.to != []
    ensures Accepts(s, MailScript(m)) && Final(s, MailScript(m)) == s && NoQuit(MailScript(m))
  {
    hide Accepts, Final, NoQuit, Envelope, DataScript;
    EnvelopeAccepted(s, m);
    DataAccepted(s.(phase := Mail(|Everyone(m)|)), m);
    InTurn(s, Envelope(m), DataScript(m));
    NoQuitBoth(Envelope(m), DataScript(m));
  }

  /** Whatever Send adds for one message is accepted, even when its recipients are missing. */
  lemma MailRunAccepted(s: Monitor, m: Message, ran: seq<Event>, ok: bool)
    requires s.waiting.None? && s.phase == Idle && Ready(s)
    requires Follows(MailScript(m), ran, ok) && (m.to == [] ==> |ran| <= 2 && !ok)
    ensures Accepts(s, ran) && Final(s, ran).phase != Leaving && (ok ==> Final(s, ran) == s)
  {
    hide Accepts, Final, MailScript, DataScript, Follows, NoQuit, Cut, Envelope;
    if m.to != [] {
      MailAccepted(s, m);
      FollowsCut(MailScript(m), ran, ok);
      CutAccepted(s, MailScript(m), ran);
    } else {
      EnvelopeAccepted(s, m);
      EarlyCut(m, ran);
      CutAccepted(s, Envelope(m), ran);
    }
  }

  lemma EarlyCut(m: Message, ran: seq<Event>)
    requires Follows(MailScript(m), ran, false) && |ran| <= 2
    ensures Cut(Envelope(m), ran)
  {
    hide DataScript, MailText;
    assert |Envelope(m)| >= 2;
    assert MailScript(m)[..|Envelope(m)|] == Envelope(m);
  }

  // ---------- whole sessions ----------

  function Scripts(messages: seq<Message>): (scripts: seq<seq<Event>>)
    ensures |scripts| == |messages|
  {
    seq(|messages|, i requires 0 <= i < |messages| => MailScript(messages[i]))
  }

  // Everything that is said when all goes well, up to the QUIT.
  function SessionScript(security: Security, a: Account, auth: Auth, messages: seq<Message>): seq<Event> {
    ConnectScript(security, a, auth) + Flatten(Scripts(messages))
  }

  lemma SessionStep(security: Security, a: Account, auth: Auth, messages: seq<Message>, i: nat)
    requires i < |messages|
    ensures SessionScript(security, a, auth, messages[..i + 1]) ==
            SessionScript(security, a, auth, messages[..i]) + MailScript(messages[i])
  {
    hide MailScript, ConnectScript;
    FlattenAt(Scripts(messages), i);
    assert Scripts(messages)[..i + 1] == Scripts(messages[..i + 1]);
    assert Scripts(messages)[..i] == Scripts(messages[..i]);
    Assoc(ConnectScript(security, a, auth), Flatten(Scripts(messages[..i])), MailScript(messages[i]));
  }

  // The trace so far is accepted and a QUIT would be.
  ghost predicate InOrder(client: CSmtp)
    reads client
  {
    Accepts(Start(client.security), client.trace) &&
    (client.connected ==> Final(Start(client.security), client.trace).phase != Leaving)
  }

  /** Sends one message more; what it adds is in order. */
  method SendNext(client: CSmtp, m: Message, path: Path, a: Account, authenticate: bool)
    returns (r: Outcome, ghost ran: seq<Event>, ghost quit: seq<Event>)
    requires client.Inv() && client.socketOpen
    requires Accepts(Start(client.security), client.trace)
    requires Final(Start(client.security), client.trace) == Opened(client.security)
    modifies client
    ensures client.Inv() && client.security == old(client.security) && InOrder(client)
    ensures client.trace == old(client.trace) + ran + quit && IsQuit(quit)
    ensures CarriedBoth(ran, quit, old(client.wire), client.wire)
    ensures Follows(MailScript(m), ran, r.Ok?) && (m.to == [] ==> |ran| <= 2)
    ensures r.Ok? ==> Complete(m) && client.socketOpen && client.connected == old(client.connected) && quit == []
    ensures r.Ok? ==> client.wire == old(client.wire) + Wire(MailScript(m))
    ensures r.Ok? ==> Final(Start(client.security), client.trace) == Opened(client.security)
    ensures r.Ok? <==> Complete(m) && PlayAll(MailScript(m), old(client.Ahead())).Some?
    ensures r.Ok? ==> PlayAll(MailScript(m), old(client.Ahead())) == Some(client.Ahead())
    ensures r.Thrown? ==> !client.connected
  {
    hide Accepts, Final, MailScript, Follows, Cut, ConnectScript, QuitsApart, Greeted, Complete, PlayAll, Wire;
    hide Carried, CarriedBoth, Verdict, Ends, MailPlan, Played, Named, AsChosen, StopsItself;
    ghost var s, before := Start(client.security), client.trace;
    ghost var opening, auth, cause, told;
    r, opening, ran, quit, auth, cause, told := client.Send(m, path, a, authenticate);
    assert before + [] == before && [] + ran == ran && [] + MailScript(m) == MailScript(m);
    assert before + ran + [] == before + ran;
    CompleteHasTo(m);
    FollowsCut(MailScript(m), ran, r.Ok?);
    MailRunAccepted(Opened(client.security), m, ran, r.Ok?);
    InTurn(s, before, ran);
    QuitAccepted(Final(s, before + ran), quit);
    InTurn(s, before + ran, quit);
  }

  lemma CompleteHasTo(m: Message)
    ensures Complete(m) ==> m.to != []
  {
  }

  // Message n cannot be sent: it is incomplete, or the network does not let the session through to its end.
  predicate StoppedAt(security: Security, a: Account, auth: Auth, messages: seq<Message>, n: nat, net: Net) {
    n < |messages| &&
    (!Complete(messages[n]) || PlayAll(SessionScript(security, a, auth, messages[..n + 1]), net).None?)
  }

  // What a session has said after `sent` messages went through: the scripts of these, what ran of the next message, if
  // there is one, and a QUIT.
  predicate SessionTrace(security: Security, a: Account, auth: Auth, messages: seq<Message>, sent: nat,
                         ran: seq<Event>, quit: seq<Event>, trace: seq<Event>) {
    && sent <= |messages|
    && trace == SessionScript(security, a, auth, messages[..sent]) + ran + quit && IsQuit(quit)
    && (if sent == |messages| then ran == []
        else Cut(MailScript(messages[sent]), ran) && (messages[sent].to == [] ==> |ran| <= 2))
  }

  /** Sends messages until one fails. */
  method SendAll(client: CSmtp, messages: seq<Message>, path: Path, a: Account, authenticate: bool,
                 ghost auth: Auth, ghost net: Net) returns (sent: nat, ghost ran: seq<Event>, ghost quit: seq<Event>)
    requires client.Inv() && client.socketOpen && client.connected && !auth.DigestMd5Auth?
    requires client.trace == ConnectScript(client.security, a, auth)
    requires client.wire == Wire(ConnectScript(client.security, a, auth))
    requires PlayAll(ConnectScript(client.security, a, auth), net) == Some(client.Ahead())
    modifies client
    ensures client.Inv() && client.security == old(client.security) && InOrder(client)
    ensures sent <= |messages| && forall i :: 0 <= i < sent ==> Complete(messages[i])
    ensures SessionTrace(client.security, a, auth, messages, sent, ran, quit, client.trace)
    ensures CarriedBoth(SessionScript(client.security, a, auth, messages[..sent]) + ran, quit, [], client.wire)
    ensures sent == |messages| ==> client.connected && quit == []
    ensures sent == |messages| ==> client.wire == Wire(SessionScript(client.security, a, auth, messages))
    ensures sent < |messages| ==> !client.connected && StoppedAt(client.security, a, auth, messages, sent, net)
  {
    hide Accepts, Final, MailScript, ConnectScript, QuitsApart, Greeted, Complete, SessionScript, Wire, PlayAll;
    hide Carried, CarriedBoth, Cut, Follows;
    SessionStart(client.security, a, auth);
    ConnectAccepted(client.security, a, auth);
    sent, ran, quit := 0, [], [];
    assert messages[..0] == [];
    while sent < |messages|
      invariant client.Inv() && client.socketOpen && client.connected && client.security == old(client.security)
      invariant sent <= |messages| && forall i :: 0 <= i < sent ==> Complete(messages[i])
      invariant client.trace == SessionScript(client.security, a, auth, messages[..sent])
      invariant client.wire == Wire(SessionScript(client.security, a, auth, messages[..sent]))
      invariant Accepts(Start(client.security), client.trace)
      invariant Final(Start(client.security), client.trace) == Opened(client.security)
      invariant PlayAll(SessionScript(client.security, a, auth, messages[..sent]), net) == Some(client.Ahead())
    {
      ghost var script := SessionScript(client.security, a, auth, messages[..sent]);
      PlayConcat(script, MailScript(messages[sent]), net);
      SessionStep(client.security, a, auth, messages, sent);
      WireConcat(script, MailScript(messages[sent]));
      ghost var before := client.wire;
      var r;
      r, ran, quit := SendNext(client, messages[sent], path, a, authenticate);
      FollowsCut(MailScript(messages[sent]), ran, r.Ok?);
      if r.Thrown? {
        assert [] + before == before;
        CarriedOn(script, ran, quit, [], before, client.wire);
        return;
      }
      assert script + ran + [] == script + ran;
      sent := sent + 1;
    }
    ran, quit := [], [];
    ghost var all := SessionScript(client.security, a, auth, messages);
    assert messages[..sent] == messages && all + [] == all && all + [] + [] == all;
    AllCarried(all);
  }

  // A script that went through, with nothing after it.
  lemma AllCarried(script: seq<Event>)
    ensures CarriedBoth(script, [], [], Wire(script))
  {
    hide Wire, Carried;
    CarriedAll(script, []);
    assert [] + Wire(script) == Wire(script);
    NothingCarried(Wire(script));
    CarriedInTurn(script, [], [], Wire(script), Wire(script));
  }

  lemma SessionStart(security: Security, a: Account, auth: Auth)
    ensures SessionScript(security, a, auth, []) == ConnectScript(security, a, auth)
  {
    hide ConnectScript;
    assert Flatten(Scripts([])) == [];
  }

  // ---------- DATA and the final dot ----------

  lemma EnvelopeCommands(m: Message, i: nat)
    requires i < |Envelope(m)| && Envelope(m)[i].Sent?
    ensures Envelope(m)[i].command == MailFrom || Envelope(m)[i].command == RcptTo
  {
    if i >= 2 {
      RecipientCommands(Everyone(m), i - 2);
    }
  }

  lemma {:induction false} RecipientCommands(list: seq<seq<byte>>, i: nat)
    requires i < |Flatten(Recipients(list))| && Flatten(Recipients(list))[i].Sent?
    ensures Flatten(Recipients(list))[i].command == RcptTo
  {
    hide RcptText;
    if list != [] {
      LastRecipient(list);
      if i < |Flatten(Recipients(list[..|list| - 1]))| {
        RecipientCommands(list[..|list| - 1], i);
      }
    }
  }

  predicate IsData(e: Event) { e.Sent? && e.command == Data }

  // Where a command of the message stands, its envelope and what follows it told apart.
  lemma CommandPlace(m: Message, ran: seq<Event>, ok: bool, i: nat)
    requires Follows(MailScript(m), ran, ok) && i < |ran| && ran[i].Sent?
    requires ran[i].command == Data || ran[i].command == DataEnd
    ensures i >= |Envelope(m)| && ran[..i] == MailScript(m)[..i]
    ensures i < |MailScript(m)| && ran[i] == MailScript(m)[i] == DataScript(m)[i - |Envelope(m)|]
  {
    hide DataScript, Envelope;
    var script := MailScript(m);
    assert ran[i] == script[i];
    if i < |Envelope(m)| {
      assert script[i] == Envelope(m)[i];
      EnvelopeCommands(m, i);
    }
  }

  /** DATA goes out only after MAIL FROM and every To, CC and BCC recipient got their 250. */
  lemma DataFollowsEnvelope(m: Message, ran: seq<Event>, ok: bool, i: nat)
    requires Follows(MailScript(m), ran, ok) && i < |ran| && IsData(ran[i])
    ensures ran[..i] == Envelope(m)
  {
    hide Content, Envelope, Follows;
    CommandPlace(m, ran, ok, i);
    var k := |Envelope(m)|;
    assert k == i;
    assert MailScript(m)[..k] == Envelope(m);
  }

  /** The final dot goes out only after the envelope, DATA and every block of the content. */
  lemma DotEndsContent(m: Message, ran: seq<Event>, ok: bool, i: nat)
    requires Follows(MailScript(m), ran, ok) && i < |ran| && ran[i].Sent? && ran[i].command == DataEnd
    ensures ran[..i] == Envelope(m) + Exchange(Data, Ascii("DATA\r\n")) + BlockEvents(Content(m))
  {
    hide Content, Envelope, Follows;
    CommandPlace(m, ran, ok, i);
    var before := Envelope(m) + Exchange(Data, Ascii("DATA\r\n")) + BlockEvents(Content(m));
    assert i == |before|;
    assert MailScript(m)[..i] == before;
  }

  predicate NoData(script: seq<Event>) { forall i :: 0 <= i < |script| ==> !IsData(script[i]) }

  lemma NoDataBoth(s: seq<Event>, t: seq<Event>)
    requires NoData(s) && NoData(t)
    ensures NoData(s + t)
  {
  }

  lemma ConnectHasNoData(security: Security, a: Account, auth: Auth)
    ensures NoData(ConnectScript(security, a, auth))
  {
    hide NoData, AuthScript;
    OpeningHasNoData(security, a);
    AuthHasNoData(a, auth);
    NoDataBoth(Opening(security, a), AuthScript(a, auth));
  }

  lemma OpeningHasNoData(security: Security, a: Account)
    ensures NoData(Opening(security, a))
  {
    hide HelloText;
  }

  lemma AuthHasNoData(a: Account, auth: Auth)
    ensures NoData(AuthScript(a, auth))
  {
    hide PlainText, AnswerText, WithCrLf;
  }

  // DATA comes next after the messages before and the whole envelope of its own.
  ghost predicate AfterEnvelope(security: Security, a: Account, auth: Auth, messages: seq<Message>, said: seq<Event>) {
    exists k :: 0 <= k < |messages| && messages[k].to != [] &&
      said == SessionScript(security, a, auth, messages[..k]) + Envelope(messages[k])
  }

  lemma {:induction false} DataInScripts(security: Security, a: Account, auth: Auth, messages: seq<Message>,
                                         n: nat, i: nat)
    requires n <= |messages| && forall k :: 0 <= k < n ==> Complete(messages[k])
    requires i < |SessionScript(security, a, auth, messages[..n])|
    requires IsData(SessionScript(security, a, auth, messages[..n])[i])
    ensures AfterEnvelope(security, a, auth, messages, SessionScript(security, a, auth, messages[..n])[..i])
  {
    hide SessionScript, MailScript, ConnectScript, Envelope, Follows, FilesAcceptable, Reopen;
    if n == 0 {
      assert messages[..0] == [];
      SessionStart(security, a, auth);
      ConnectHasNoData(security, a, auth);
    } else {
      var before := SessionScript(security, a, auth, messages[..n - 1]);
      var last := MailScript(messages[n - 1]);
      SessionStep(security, a, auth, messages, n - 1);
      if i < |before| {
        DataInScripts(security, a, auth, messages, n - 1, i);
        assert (before + last)[..i] == before[..i];
      } else {
        WholeScript(last);
        DataFollowsEnvelope(messages[n - 1], last, true, i - |before|);
        assert (before + last)[..i] == before + last[..i - |before|];
      }
    }
  }

  lemma WholeScript(script: seq<Event>)
    ensures Follows(script, script, true)
  {
  }

  /** In every session DATA is sent only after MAIL FROM and every recipient of its message, at least one of them in To,
      were accepted, and after nothing but whole messages before. */
  lemma DataInSession(security: Security, a: Account, auth: Auth, messages: seq<Message>, sent: nat,
                      ran: seq<Event>, quit: seq<Event>, trace: seq<Event>)
    requires SessionTrace(security, a, auth, messages, sent, ran, quit, trace)
    requires forall k :: 0 <= k < sent ==> Complete(messages[k])
    ensures forall i :: 0 <= i < |trace| && IsData(trace[i]) ==> AfterEnvelope(security, a, auth, messages, trace[..i])
  {
    hide SessionScript, MailScript, Envelope, Cut, Follows, AfterEnvelope, Complete;
    var script := SessionScript(security, a, auth, messages[..sent]);
    forall i | 0 <= i < |trace| && IsData(trace[i])
      ensures AfterEnvelope(security, a, auth, messages, trace[..i])
    {
      if i < |script| {
        DataInScripts(security, a, auth, messages, sent, i);
        assert trace[..i] == script[..i];
      } else {
        assert i < |script| + |ran|;
        CutFollows(MailScript(messages[sent]), ran);
        DataFollowsEnvelope(messages[sent], ran, false, i - |script|);
        EnvelopeIsLong(messages[sent], ran, i - |script|);
        assert trace[..i] == script + ran[..i - |script|];
        NextMessage(security, a, auth, messages, sent);
      }
    }
  }

  lemma CutFollows(script: seq<Event>, ran: seq<Event>)
    requires Cut(script, ran)
    ensures Follows(script, ran, false)
  {
  }

  // Two events are not enough for DATA.
  lemma EnvelopeIsLong(m: Message, ran: seq<Event>, i: nat)
    requires i < |ran| && ran[..i] == Envelope(m)
    ensures |ran| > 2
  {
    hide MailText;
    assert |Envelope(m)| >= 2;
  }

  lemma NextMessage(security: Security, a: Account, auth: Auth, messages: seq<Message>, k: nat)
    requires k < |messages| && messages[k].to != []
    ensures AfterEnvelope(security, a, auth, messages,
                          SessionScript(security, a, auth, messages[..k]) + Envelope(messages[k]))
  {
  }

  lemma NoDataConnecting(security: Security, a: Account, auth: Auth, ran: seq<Event>, quit: seq<Event>)
    requires Cut(ConnectScript(security, a, auth), ran) && IsQuit(quit)
    ensures NoData(ran + quit)
  {
    hide ConnectScript;
    ConnectHasNoData(security, a, auth);
  }

  lemma OpeningSaid(security: Security, a: Account, auth: Auth, ran: seq<Event>, quit: seq<Event>)
    requires Cut(ConnectScript(security, a, auth), ran) && IsQuit(quit)
    ensures AllSpoken(a, auth, ran + quit)
  {
    hide ConnectScript, AllSpoken, Cut, IsQuit;
    ConnectSpoken(security, a, auth);
    CutSpoken(a, auth, ConnectScript(security, a, auth), ran);
    QuitSpoken(a, auth, quit);
    SpokenBoth(a, auth, ran, quit);
  }

  /** In every session each command is what its label says, and the secrets can be read where they should. */
  lemma SessionSaid(security: Security, a: Account, auth: Auth, messages: seq<Message>, sent: nat,
                    ran: seq<Event>, quit: seq<Event>, trace: seq<Event>)
    requires SessionTrace(security, a, auth, messages, sent, ran, quit, trace)
    ensures AllSpoken(a, auth, trace)
  {
    hide ConnectScript, MailScript, AllSpoken, Cut, IsQuit;
    ConnectSpoken(security, a, auth);
    forall i | 0 <= i < sent
      ensures AllSpoken(a, auth, Scripts(messages[..sent])[i])
    {
      MailSpoken(a, auth, messages[i]);
    }
    SpokenFlat(a, auth, Scripts(messages[..sent]));
    SpokenBoth(a, auth, ConnectScript(security, a, auth), Flatten(Scripts(messages[..sent])));
    if sent < |messages| {
      MailSpoken(a, auth, messages[sent]);
      CutSpoken(a, auth, MailScript(messages[sent]), ran);
    } else {
      NothingSpoken(a, auth);
    }
    QuitSpoken(a, auth, quit);
    SpokenBoth(a, auth, SessionScript(security, a, auth, messages[..sent]), ran);
    SpokenBoth(a, auth, SessionScript(security, a, auth, messages[..sent]) + ran, quit);
  }

  lemma {:induction false} HelloBefore(trace: seq<Event>)
    requires Greeted(trace)
    ensures exists k :: 0 <= k < |trace| && trace[k].Sent? && trace[k].command == Ehlo
  {
    var n := |trace|;
    if n > 1 && trace[n - 1] == Got(250) && trace[n - 2].Sent? && trace[n - 2].command == Ehlo {
      assert trace[n - 2].command == Ehlo;
    } else {
      HelloBefore(trace[..n - 1]);
      var k :| 0 <= k < n - 1 && trace[..n - 1][k].Sent? && trace[..n - 1][k].command == Ehlo;
      assert trace[k].Sent? && trace[k].command == Ehlo;
    }
  }

  lemma {:induction false} QuitFollowsHello(trace: seq<Event>, i: nat)
    requires QuitsApart(trace) && i < |trace| && trace[i].Sent? && trace[i].command == Quit
    ensures Greeted(trace[..i])
  {
    hide Greeted;
    if i < |trace| - 1 {
      QuitFollowsHello(trace[..|trace| - 1], i);
      assert trace[..|trace| - 1][..i] == trace[..i];
    }
  }

  /** With USE_SSL nothing goes out before the handshake, not even a QUIT. */
  lemma NothingBeforeSsl(trace: seq<Event>, i: nat)
    requires Accepts(Start(UseSsl), trace) && QuitsApart(trace) && i < |trace| && trace[i].Sent?
    ensures exists j :: 0 <= j < i && trace[j] == Secured
  {
    hide Accepts, QuitsApart, Greeted;
    if trace[i].command == Quit {
      QuitFollowsHello(trace, i);
      HelloBefore(trace[..i]);
      var k :| 0 <= k < i && trace[..i][k].Sent? && trace[..i][k].command == Ehlo;
      AllBehindSsl(trace, k);
    } else {
      AllBehindSsl(trace, i);
    }
  }

  /** One connection of a fresh object against any server: connect through select, send, disconnect. Whatever the
      network does, the trace is in the order SMTP asks for and is made of the scripts of the messages that went through
      and a cut of the next one's; DATA always comes after the whole envelope of its message; the authentication is the
      one the greeting asks for; and the session ends early only where the network or the message leaves no choice. */
  method RunSession(security: Security, a: Account, authenticate: bool, messages: seq<Message>,
                    contexts: seq<bool>, handshakes: seq<Tls>, writes: seq<WriteEvent>, inbox: seq<Incoming>)
    returns (client: CSmtp, sent: nat, ghost auth: Auth, ghost cause: Outcome,
             ghost ran: seq<Event>, ghost quit: seq<Event>)
    ensures client.security == security && Accepts(Start(security), client.trace)
    ensures client.Inv() && !client.connected
    ensures var net := Fresh(contexts, handshakes, writes, inbox);
            && Played(ConnectScript(security, a, auth), net, cause)
            && (if Decided(cause) then AsChosen(security, a, authenticate, auth, net) else auth == NoAuth)
            && (cause.Thrown? && IsLocal(cause.error) ==> StopsItself(security, a, authenticate, net, cause.error))
            && (cause.Ok? && sent < |messages| ==> StoppedAt(security, a, auth, messages, sent, net))
    ensures cause.Thrown? ==>
      && sent == 0 && Cut(ConnectScript(security, a, auth), ran)
      && client.trace == ran + quit && IsQuit(quit) && CarriedBoth(ran, quit, [], client.wire)
      && var net := Fresh(contexts, handshakes, writes, inbox);
         QuitsUnlessDenied(ConnectScript(security, a, auth), ran, quit, net, HelloAccepted(security, a, false, net))
    ensures cause.Ok? ==>
      && SessionTrace(security, a, auth, messages, sent, ran, quit, client.trace)
      && (forall i :: 0 <= i < sent ==> Complete(messages[i]))
      && CarriedBoth(SessionScript(security, a, auth, messages[..sent]) + ran, quit, [], client.wire)
    ensures forall i :: 0 <= i < |client.trace| && IsData(client.trace[i]) ==>
              AfterEnvelope(security, a, auth, messages, client.trace[..i])
    ensures AllSpoken(a, auth, client.trace)
  {
    hide Accepts, Final, ConnectScript, QuitsApart, Greeted, Complete, SessionScript, Wire, Cut, Follows, IsQuit;
    hide PlayAll, StoppedAt, AsChosen, StopsItself, Carried, CarriedBoth, SessionTrace, AfterEnvelope, Played;
    hide QuitsUnlessDenied, HelloAccepted, AllSpoken;
    client := new CSmtp(security, contexts, handshakes, writes, inbox);
    var r;
    ghost var net := client.Ahead();
    r, auth, ran, quit, cause := client.ConnectRemoteServer(Established, a, authenticate);
    ConnectAccepted(security, a, auth);
    FollowsCut(ConnectScript(security, a, auth), ran, r.Ok?);
    CutAccepted(Start(security), ConnectScript(security, a, auth), ran);
    sent := 0;
    assert [] + ran + quit == ran + quit && ran + [] == ran;
    if r.Thrown? {
      QuitAccepted(Final(Start(security), ran), quit);
      InTurn(Start(security), ran, quit);
      NoDataConnecting(security, a, auth, ran, quit);
      OpeningSaid(security, a, auth, ran, quit);
      return;
    }
    assert [] + Wire(ConnectScript(security, a, auth)) == Wire(ConnectScript(security, a, auth));
    sent, ran, quit := SendAll(client, messages, Established, a, authenticate, auth, net);
    quit := Hangup(client, a, auth, messages, sent, ran, quit);
    DataInSession(security, a, auth, messages, sent, ran, quit, client.trace);
    SessionSaid(security, a, auth, messages, sent, ran, quit, client.trace);
  }

  // The disconnection after the messages: a QUIT unless there was one.
  method Hangup(client: CSmtp, ghost a: Account, ghost auth: Auth, ghost messages: seq<Message>, ghost sent: nat,
                ghost ran: seq<Event>, ghost before: seq<Event>) returns (ghost quit: seq<Event>)
    requires client.Inv() && InOrder(client)
    requires SessionTrace(client.security, a, auth, messages, sent, ran, before, client.trace)
    requires sent == |messages| ==>
      before == [] && client.wire == Wire(SessionScript(client.security, a, auth, messages))
    requires sent < |messages| ==> !client.connected
    requires CarriedBoth(SessionScript(client.security, a, auth, messages[..sent]) + ran, before, [], client.wire)
    modifies client
    ensures client.Inv() && !client.connected && client.security == old(client.security)
    ensures Accepts(Start(client.security), client.trace)
    ensures SessionTrace(client.security, a, auth, messages, sent, ran, quit, client.trace)
    ensures CarriedBoth(SessionScript(client.security, a, auth, messages[..sent]) + ran, quit, [], client.wire)
  {
    hide Accepts, Final, QuitsApart, Greeted, SessionScript, Wire, Cut, PlayAll, Carried, CarriedBoth, IsQuit;
    ghost var script, wire := SessionScript(client.security, a, auth, messages[..sent]), client.wire;
    ghost var trace := client.trace;
    var d;
    d, quit := client.DisconnectRemoteServer();
    if quit == [] {
      quit := before;
      assert trace + [] == trace;
      SameWire(wire, client.wire);
    } else {
      QuitAccepted(Final(Start(client.security), trace), quit);
      InTurn(Start(client.security), trace, quit);
      assert messages[..sent] == messages && script + [] == script && trace == script;
      CarriedAll(script, []);
      assert [] + wire == wire;
      CarriedInTurn(script, quit, [], wire, client.wire);
    }
  }

  lemma SameWire(before: seq<byte>, after: seq<byte>)
    requires Carried([], before, after)
    ensures after == before
  {
  }

  // ---------- connect() succeeding at once ----------

  lemma MailComesFirst(m: Message, ran: seq<Event>, ok: bool)
    requires Follows(MailScript(m), ran, ok)
    ensures ran == [] || (ran[0].Sent? && ran[0].command == MailFrom)
  {
    hide DataScript, MailText;
    assert MailScript(m)[0] == Exchange(MailFrom, MailText(m.from))[0];
  }

  lemma {:induction false} NotGreeted(security: Security, trace: seq<Event>)
    requires trace != [] && trace[0].Sent? && trace[0].command == MailFrom
    ensures !Accepts(Start(security), trace)
  {
    if |trace| > 1 {
      NotGreeted(security, trace[..|trace| - 1]);
    } else {
      OneEvent(Start(security), trace[0]);
      assert trace == [trace[0]];
    }
  }

  /** When connect() succeeds at once, opening and TLS are skipped: the session is in order exactly when the message
      has no sender or its files cannot be sent, so that nothing goes out. */
  method RunImmediate(security: Security, a: Account, authenticate: bool, m: Message,
                      contexts: seq<bool>, handshakes: seq<Tls>, writes: seq<WriteEvent>, inbox: seq<Incoming>)
    returns (client: CSmtp, r: Outcome)
    ensures client.security == security
    ensures Accepts(Start(security), client.trace) <==> m.from == [] || !FilesAcceptable(m.attachments)
    ensures client.trace == [] <==> m.from == [] || !FilesAcceptable(m.attachments)
    ensures r.Ok? ==> client.trace == MailScript(m)
    ensures r.Ok? <==> Complete(m) && PlayAll(MailScript(m), Fresh(contexts, handshakes, writes, inbox)).Some?
  {
    hide Accepts, Final, QuitsApart, Greeted, Complete, Cut, MailScript, Follows, PlayAll, FilesAcceptable;
    hide Verdict, Ends, MailPlan, Played, Named, AsChosen, StopsItself, Carried, CarriedBoth, Wire;
    client := new CSmtp(security, contexts, handshakes, writes, inbox);
    ghost var connecting, ran, quit, auth, cause, told;
    r, auth, connecting, quit, cause := client.ConnectRemoteServer(Immediate, a, authenticate);
    assert [] + connecting + quit == [];
    r, ran, quit, told := client.Deliver(m);
    assert [] + ran + [] == ran;
    MailComesFirst(m, ran, r.Ok?);
    FollowsCut(MailScript(m), ran, r.Ok?);
    Initially(Start(security));
    if ran != [] {
      NotGreeted(security, client.trace);
    }
  }

  // ---------- any use of the object ----------

  datatype Operation =
    | Connect(path: Path, a: Account, authenticate: bool)
    | Post(m: Message, path: Path, a: Account, authenticate: bool)
    | Disconnect

  /** Whatever is done with an object, in any order: between two QUITs some EHLO has been accepted. */
  method RunAll(security: Security, operations: seq<Operation>,
                contexts: seq<bool>, handshakes: seq<Tls>, writes: seq<WriteEvent>, inbox: seq<Incoming>)
    returns (client: CSmtp)
    ensures QuitsApart(client.trace) && (client.connected ==> Greeted(client.trace))
    ensures forall i, j :: 0 <= i < j < |client.trace| && IsQuitAt(client.trace, i) && IsQuitAt(client.trace, j) ==>
              HelloBetween(client.trace, i, j)
  {
    hide Cut, Follows, ConnectScript, MailScript, FilesAcceptable, Complete, IsQuit, QuitsApart, Greeted;
    hide Verdict, Ends, MailPlan, Played, Named, AsChosen, StopsItself, Carried, CarriedBoth, Wire;
    client := new CSmtp(security, contexts, handshakes, writes, inbox);
    var i := 0;
    while i < |operations|
      invariant i <= |operations| && client.Inv()
    {
      var r;
      ghost var opening, ran, quit, auth, cause, told;
      match operations[i] {
        case Connect(path, a, authenticate) =>
          r, auth, ran, quit, cause := client.ConnectRemoteServer(path, a, authenticate);
        case Post(m, path, a, authenticate) =>
          r, opening, ran, quit, auth, cause, told := client.Send(m, path, a, authenticate);
        case Disconnect => r, quit := client.DisconnectRemoteServer();
      }
      i := i + 1;
    }
    forall i, j | 0 <= i < j < |client.trace| && IsQuitAt(client.trace, i) && IsQuitAt(client.trace, j)
      ensures HelloBetween(client.trace, i, j)
    {
      EhloBetweenQuits(client.trace, i, j);
    }
  }

  predicate IsQuitAt(trace: seq<Event>, i: int) {
    0 <= i < |trace| && trace[i].Sent? && trace[i].command == Quit
  }

  predicate HelloBetween(trace: seq<Event>, i: int, j: int) {
    0 <= i < j < |trace| &&
    exists k :: i < k && k + 1 < j && trace[k].Sent? && trace[k].command == Ehlo && trace[k + 1] == Got(250)
  }

  // ---------- the attachments ----------

  predicate StandsAt(part: seq<seq<byte>>, whole: seq<seq<byte>>, k: nat) {
    k + |part| <= |whole| && whole[k..k + |part|] == part
  }

  ghost predicate StandsIn(part: seq<seq<byte>>, whole: seq<seq<byte>>) {
    exists k: nat :: StandsAt(part, whole, k)
  }

  lemma StandsBetween(before: seq<seq<byte>>, part: seq<seq<byte>>, after: seq<seq<byte>>)
    ensures StandsIn(part, before + part + after)
  {
    assert StandsAt(part, before + part + after, |before|);
  }

  /** Every attachment stands in the content of its message, after its header and in blocks that fit into SendBuf, in
      lines of at most 72 characters, and whoever takes the line ends out and decodes gets the file. */
  lemma AttachmentsArrive(m: Message, i: nat)
    requires i < |m.attachments|
    ensures var f := m.attachments[i]; var blocks := Attachment.Blocks(f.content, BUFFER_SIZE);
            && StandsIn([PartHeader(f.name)] + blocks, Content(m))
            && Attachment.AllFit(blocks, BUFFER_SIZE) && Attachment.LinesWithin(Flatten(blocks), 72)
            && Base64.Decode(Attachment.WithoutCrLf(Flatten(blocks))) == f.content
  {
    hide Attachment.Blocks, Attachment.LinesWithin, Attachment.WithoutCrLf, Attachment.AllFit, Base64.Decode;
    hide PartHeader, TextBlocks, Closing, StandsIn;
    var f := m.attachments[i];
    var parts := Parts(m.attachments);
    Attachment.BlocksFit(f.content, BUFFER_SIZE);
    Attachment.LinesAtMost72(f.content, BUFFER_SIZE);
    Attachment.BlocksCarryFile(f.content, BUFFER_SIZE);
    FlattenAt(parts, i);
    var before := TextBlocks(m) + Flatten(parts[..i]);
    var after := Flatten(parts[i + 1..]) + Closing(m.attachments);
    assert Content(m) == before + parts[i] + after;
    StandsBetween(before, parts[i], after);
  }

  // Where the part of attachment i begins among the blocks.
  function PartStart(m: Message, i: nat): nat
    requires i <= |m.attachments|
  {
    if i == 0 then 1 + |BodyLines(m.lines)|
    else PartStart(m, i - 1) + 1 + |Attachment.Blocks(m.attachments[i - 1].content, BUFFER_SIZE)|
  }

  lemma {:induction false} PartStartIs(m: Message, i: nat)
    requires i <= |m.attachments|
    ensures PartStart(m, i) == |TextBlocks(m)| + |Flatten(Parts(m.attachments)[..i])|
  {
    hide PartHeader, Attachment.Blocks;
    if i > 0 {
      PartStartIs(m, i - 1);
      FlattenAt(Parts(m.attachments), i - 1);
    } else {
      assert Parts(m.attachments)[..0] == [];
    }
  }

  lemma PartPlace(m: Message, i: nat)
    requires i < |m.attachments|
    ensures var f := m.attachments[i];
            StandsAt([PartHeader(f.name)] + Attachment.Blocks(f.content, BUFFER_SIZE), Content(m), PartStart(m, i))
  {
    hide PartHeader, Attachment.Blocks, TextBlocks, Closing, PartStart, Flatten;
    var parts := Parts(m.attachments);
    PartStartIs(m, i);
    FlattenAt(parts, i);
    var before, after := TextBlocks(m) + Flatten(parts[..i]), Flatten(parts[i + 1..]) + Closing(m.attachments);
    assert Content(m) == before + parts[i] + after;
  }

  /** The header comes first, then the lines, then the attachments in their order, each with its header, then the last
      boundary, and nothing else. */
  lemma ContentInOrder(m: Message)
    requires m.header.Header?
    ensures var blocks, n := Content(m), |m.attachments|;
            && |blocks| == PartStart(m, n) + (if n > 0 then 1 else 0)
            && blocks[0] == m.header.text
            && (m.lines == [] ==> blocks[1] == [32, 13, 10])
            && (forall i :: 0 <= i < |m.lines| && |m.lines[i]| + 2 < BUFFER_SIZE ==>
                  blocks[1 + i] == m.lines[i] + [13, 10])
            && (forall i :: 0 <= i < n ==>
                  StandsAt([PartHeader(m.attachments[i].name)] +
                           Attachment.Blocks(m.attachments[i].content, BUFFER_SIZE), blocks, PartStart(m, i)))
            && (n > 0 ==> blocks[|blocks| - 1] == Ascii("\r\n--" + BOUNDARY_TEXT + "--\r\n"))
  {
    hide PartHeader, Attachment.Blocks, PartStart, StandsAt, Ascii;
    var n := |m.attachments|;
    PartStartIs(m, n);
    assert Parts(m.attachments)[..n] == Parts(m.attachments);
    BlankText();
    BoundaryFits();
    forall i | 0 <= i < n
      ensures StandsAt([PartHeader(m.attachments[i].name)] +
                       Attachment.Blocks(m.attachments[i].content, BUFFER_SIZE), Content(m), PartStart(m, i))
    {
      PartPlace(m, i);
    }
  }

  lemma BlankText()
    ensures WithCrLf(Ascii(" ")) == [32, 13, 10]
  {
  }

  lemma BoundaryFits()
    ensures |Ascii("\r\n--" + BOUNDARY_TEXT + "--\r\n")| < BUFFER_SIZE
  {
  }
}

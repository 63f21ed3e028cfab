/** What a server finds in the bytes of each command: the command its label says, and the names and secrets in it. */
module ServerView {
  import opened Basics
  import opened Bytes
  import opened Protocol
  import Attachment
  import Base64
  import CramMd5

  // ---------- lines ----------

  predicate EndsLine(text: seq<byte>) { |text| >= 2 && text[|text| - 2] == 13 && text[|text| - 1] == 10 }

  // A whole line without its end; nothing when the line was cut.
  function LineOf(text: seq<byte>): Option<seq<byte>> {
    if EndsLine(text) && Attachment.OneLine(text[..|text| - 2]) then Some(text[..|text| - 2]) else None
  }

  // What a line of base64 says.
  function Decoded(text: seq<byte>): Option<seq<byte>> {
    var line := LineOf(text);
    if line.Some? then Some(Base64.Decode(line.value)) else None
  }

  // n bytes, encoded, fit into SendBuf with the line end.
  predicate Fits(n: nat) { 4 * ((n + 2) / 3) + 2 < BUFFER_SIZE }

  lemma CutLine(line: seq<byte>)
    requires Attachment.OneLine(line) && |line| + 2 >= BUFFER_SIZE
    ensures !EndsLine(WithCrLf(line))
  {
    var text := line + Attachment.CRLF;
    assert forall i :: 0 <= i < |line| ==> text[i] != 10;
    assert WithCrLf(line)[BUFFER_SIZE - 2] == text[BUFFER_SIZE - 2];
  }

  lemma WholeLine(line: seq<byte>)
    requires Attachment.OneLine(line) && |line| + 2 < BUFFER_SIZE
    ensures LineOf(WithCrLf(line)) == Some(line)
  {
    assert (line + Attachment.CRLF)[..|line|] == line;
  }

  /** A secret comes out of its line exactly when the line fits, and nothing does otherwise. */
  lemma SecretRead(secret: seq<byte>)
    ensures Decoded(WithCrLf(Base64.Encode(secret))) == if Fits(|secret|) then Some(secret) else None
  {
    hide LineOf, WithCrLf, Base64.Encode, Base64.Decode;
    Attachment.EncodedIsOneLine(secret);
    Base64.EncodedLength(secret);
    Base64.DecodeEncode(secret);
    if Fits(|secret|) {
      WholeLine(Base64.Encode(secret));
    } else {
      CutLine(Base64.Encode(secret));
      NoLine(WithCrLf(Base64.Encode(secret)));
    }
  }

  lemma NoLine(text: seq<byte>)
    requires !EndsLine(text)
    ensures LineOf(text).None?
  {
  }

  // ---------- AUTH PLAIN ----------

  datatype Credentials = Credentials(actsFor: seq<byte>, login: seq<byte>, password: seq<byte>)

  predicate NoNul(s: seq<byte>) { forall i :: 0 <= i < |s| ==> s[i] != 0 }

  // The three fields of a message, set apart by its first two NULs.
  function Fields(message: seq<byte>): Option<Credentials> {
    var n := CramMd5.StrLen(message);
    if n == |message| then None
    else
      var rest := message[n + 1..];
      var k := CramMd5.StrLen(rest);
      if k == |rest| then None else Some(Credentials(message[..n], rest[..k], rest[k + 1..]))
  }

  function PlainRequest(text: seq<byte>): Option<Credentials> {
    var line := LineOf(text);
    if line.Some? && Ascii("AUTH PLAIN ") <= line.value then Fields(Base64.Decode(line.value[11..])) else None
  }

  lemma FieldsOf(login: seq<byte>, password: seq<byte>)
    requires NoNul(login)
    ensures Fields(PlainMessage(login, password)) == Some(Credentials(login, login, password))
  {
    var message, rest := PlainMessage(login, password), login + [0] + password;
    hide CramMd5.StrLen, NoNul;
    FirstNul(login, rest);
    assert message == login + [0] + rest && message[|login| + 1..] == rest && message[..|login|] == login;
    FirstNul(login, password);
    assert rest[..|login|] == login && rest[|login| + 1..] == password;
  }

  lemma FirstNul(front: seq<byte>, rest: seq<byte>)
    requires NoNul(front)
    ensures CramMd5.StrLen(front + [0] + rest) == |front|
  {
    var s, n := front + [0] + rest, CramMd5.StrLen(front + [0] + rest);
    assert s[|front|] == 0;
    assert forall i :: 0 <= i < |front| ==> s[i] == front[i];
  }

  lemma MessageInTurn(login: seq<byte>, password: seq<byte>)
    ensures login + [0] + (login + [0] + password) == PlainMessage(login, password)
  {
  }

  lemma SplitAt(s: seq<byte>, n: nat)
    requires n < |s| && s[n] == 0 && forall i :: 0 <= i < n ==> s[i] != 0
    ensures s == s[..n] + [0] + s[n + 1..] && NoNul(s[..n])
  {
  }

  lemma AtNul(s: seq<byte>)
    requires CramMd5.StrLen(s) < |s|
    ensures var n := CramMd5.StrLen(s); s == s[..n] + [0] + s[n + 1..] && NoNul(s[..n])
  {
    hide CramMd5.StrLen;
    SplitAt(s, CramMd5.StrLen(s));
  }

  lemma FieldsBack(message: seq<byte>, login: seq<byte>, password: seq<byte>)
    requires Fields(message) == Some(Credentials(login, login, password))
    ensures message == PlainMessage(login, password) && NoNul(login)
  {
    hide CramMd5.StrLen, NoNul;
    AtNul(message);
    AtNul(message[CramMd5.StrLen(message) + 1..]);
    MessageInTurn(login, password);
  }

  lemma PlainLine(code: seq<byte>)
    requires Attachment.OneLine(code)
    ensures var text := Snprintf(Ascii("AUTH PLAIN ") + code + Attachment.CRLF);
            if |code| + 13 < BUFFER_SIZE then LineOf(text) == Some(Ascii("AUTH PLAIN ") + code) else LineOf(text).None?
  {
    hide Ascii;
    PlainWord();
    var line := Ascii("AUTH PLAIN ") + code;
    if |code| + 13 < BUFFER_SIZE {
      WholeLine(line);
    } else {
      CutLine(line);
    }
  }

  predicate Printable(s: string) { forall i :: 0 <= i < |s| ==> ' ' <= s[i] < 128 as char }

  lemma TextIsOneLine(s: string)
    requires Printable(s)
    ensures Attachment.OneLine(Ascii(s)) && |Ascii(s)| == |s|
  {
    forall i | 0 <= i < |s|
      ensures Ascii(s)[i] != 13 && Ascii(s)[i] != 10
    {
      assert s[i] as int >= 32;
      assert Ascii(s)[i] == (s[i] as int % 256) as bv8;
    }
  }

  lemma PlainWord()
    ensures |Ascii("AUTH PLAIN ")| == 11 && Attachment.OneLine(Ascii("AUTH PLAIN "))
  {
    hide Ascii;
    TextIsOneLine("AUTH PLAIN ");
  }

  /** The server finds login, login and password in the PLAIN request exactly when the whole command fits into SendBuf,
      neither holds a caret, and the login no NUL. */
  lemma PlainRead(a: Account)
    ensures PlainRequest(PlainText(a)) == Some(Credentials(a.login, a.login, a.password)) <==>
            |PlainCommand(a)| < BUFFER_SIZE && NoCaret(a.login) && NoCaret(a.password) && NoNul(a.login)
  {
    hide Ascii, Base64.Encode, Base64.Decode, LineOf, PlainToken, NoCaret, Fields, PlainMessage, NoNul;
    var token, message := PlainToken(a), PlainMessage(a.login, a.password);
    var want := Credentials(a.login, a.login, a.password);
    PlainWord();
    PlainTextMeans(a);
    Attachment.EncodedIsOneLine(token);
    PlainLine(Base64.Encode(token));
    Base64.DecodeEncode(token);
    Base64.DecodeEncode(message);
    Attachment.EncodedIsOneLine(message);
    assert (Ascii("AUTH PLAIN ") + Base64.Encode(token))[11..] == Base64.Encode(token);
    if PlainRequest(PlainText(a)) == Some(want) {
      FieldsBack(token, a.login, a.password);
      assert PlainText(a) == PlainCommand(a);
    }
    if PlainText(a) == PlainCommand(a) && NoNul(a.login) {
      FieldsOf(a.login, a.password);
      PlainLine(Base64.Encode(message));
      assert (Ascii("AUTH PLAIN ") + Base64.Encode(message))[11..] == Base64.Encode(message);
    }
  }

  // ---------- AUTH CRAM-MD5 ----------

  // The line says the login and a code for the challenge.
  ghost predicate SaysCode(a: Account, challenge: seq<byte>, text: seq<byte>) {
    exists hex :: CramMd5.CodesFor(a.password, challenge, hex) && Decoded(text) == Some(a.login + [32] + hex)
  }

  /** The server finds the login and the code of RFC 2195 exactly when the line fits. */
  lemma AnswerRead(a: Account, challenge: seq<byte>)
    ensures SaysCode(a, challenge, AnswerText(a, challenge)) <==> Fits(|a.login| + 33)
  {
    hide Decoded, CramMd5.CodesFor, WithCrLf, Base64.Encode, CramMd5.Hmac;
    SecretRead(CramMd5.Answer(a.login, a.password, challenge));
    CramMd5.HmacCodes(a.password, challenge);
  }

  // ---------- every command ----------

  // The bytes are the command the label names, and carry what they should where they fit.
  ghost predicate Spoken(a: Account, auth: Auth, e: Event) {
    e.Sent? ==>
      match e.command
      case Ehlo =>
        Ascii("EHLO ") <= e.text &&
        (Attachment.OneLine(a.host) && |a.host| + 7 < BUFFER_SIZE ==> LineOf(e.text) == Some(Ascii("EHLO ") + a.host))
      case StartTls => e.text == Ascii("STARTTLS\r\n")
      case AuthLogin => auth.LoginAuth? && e.text == Ascii("AUTH LOGIN\r\n")
      case AuthCramMd5 => auth.CramMd5Auth? && e.text == Ascii("AUTH CRAM-MD5\r\n")
      case DigestMd5 => auth.DigestMd5Auth? && e.text == Ascii("AUTH DIGEST-MD5\r\n")
      case AuthPlain =>
        auth.PlainAuth? &&
        (PlainRequest(e.text) == Some(Credentials(a.login, a.login, a.password)) <==>
         |PlainCommand(a)| < BUFFER_SIZE && NoCaret(a.login) && NoCaret(a.password) && NoNul(a.login))
      case User => auth.LoginAuth? && Decoded(e.text) == if Fits(|a.login|) then Some(a.login) else None
      case Password =>
        if auth.LoginAuth? then Decoded(e.text) == if Fits(|a.password|) then Some(a.password) else None
        else auth.CramMd5Auth? && (SaysCode(a, auth.challenge, e.text) <==> Fits(|a.login| + 33))
      case MailFrom => Ascii("MAIL FROM:<") <= e.text
      case RcptTo => Ascii("RCPT TO:<") <= e.text
      case Data => e.text == Ascii("DATA\r\n")
      case DataBlock => true
      case DataEnd => e.text == [13, 10, 46, 13, 10]
      case Quit => e.text == Ascii("QUIT\r\n")
      case _ => false
  }

  ghost predicate AllSpoken(a: Account, auth: Auth, script: seq<Event>) {
    forall i :: 0 <= i < |script| ==> Spoken(a, auth, script[i])
  }

  lemma SpokenBoth(a: Account, auth: Auth, s: seq<Event>, t: seq<Event>)
    requires AllSpoken(a, auth, s) && AllSpoken(a, auth, t)
    ensures AllSpoken(a, auth, s + t)
  {
    hide Spoken;
  }

  lemma {:induction false} SpokenFlat(a: Account, auth: Auth, scripts: seq<seq<Event>>)
    requires forall i :: 0 <= i < |scripts| ==> AllSpoken(a, auth, scripts[i])
    ensures AllSpoken(a, auth, Flatten(scripts))
  {
    hide AllSpoken;
    if scripts == [] {
      NothingSpoken(a, auth);
    } else {
      var n := |scripts| - 1;
      SpokenFlat(a, auth, scripts[..n]);
      SpokenBoth(a, auth, Flatten(scripts[..n]), scripts[n]);
    }
  }

  lemma NothingSpoken(a: Account, auth: Auth)
    ensures AllSpoken(a, auth, [])
  {
  }

  lemma ExchangeSpoken(a: Account, auth: Auth, c: Command, text: seq<byte>)
    requires Spoken(a, auth, Sent(c, text))
    ensures AllSpoken(a, auth, Exchange(c, text))
  {
  }

  // What ran of a script that is spoken is spoken; the reply at its end may be another.
  lemma CutSpoken(a: Account, auth: Auth, script: seq<Event>, ran: seq<Event>)
    requires AllSpoken(a, auth, script) && Cut(script, ran)
    ensures AllSpoken(a, auth, ran)
  {
    forall i | 0 <= i < |ran|
      ensures Spoken(a, auth, ran[i])
    {
      if !ran[i].Got? {
        assert ran[i] == script[i];
      }
    }
  }

  // snprintf keeps the beginning.
  lemma BeginningKept(front: string, rest: seq<byte>)
    requires |front| < BUFFER_SIZE
    ensures Ascii(front) <= Snprintf(Ascii(front) + rest)
  {
  }

  lemma AuthSpoken(a: Account, auth: Auth)
    ensures AllSpoken(a, auth, AuthScript(a, auth))
  {
    hide PlainRequest, Decoded, SaysCode, PlainCommand, PlainText, AnswerText, WithCrLf, Base64.Encode, AllSpoken;
    hide Ascii, Exchange;
    SecretRead(a.login);
    SecretRead(a.password);
    match auth
    case NoAuth => NothingSpoken(a, auth);
    case LoginAuth =>
      ExchangeSpoken(a, auth, AuthLogin, Ascii("AUTH LOGIN\r\n"));
      ExchangeSpoken(a, auth, User, WithCrLf(Base64.Encode(a.login)));
      ExchangeSpoken(a, auth, Password, WithCrLf(Base64.Encode(a.password)));
      SpokenBoth(a, auth, Exchange(AuthLogin, Ascii("AUTH LOGIN\r\n")),
                 Exchange(User, WithCrLf(Base64.Encode(a.login))));
      SpokenBoth(a, auth, Exchange(AuthLogin, Ascii("AUTH LOGIN\r\n")) +
                          Exchange(User, WithCrLf(Base64.Encode(a.login))),
                 Exchange(Password, WithCrLf(Base64.Encode(a.password))));
    case PlainAuth =>
      PlainRead(a);
      ExchangeSpoken(a, auth, AuthPlain, PlainText(a));
    case CramMd5Auth(challenge) =>
      AnswerRead(a, challenge);
      ExchangeSpoken(a, auth, AuthCramMd5, Ascii("AUTH CRAM-MD5\r\n"));
      ExchangeSpoken(a, auth, Password, AnswerText(a, challenge));
      SpokenBoth(a, auth, CramRequest(), CramAnswer(a, challenge));
    case DigestMd5Auth =>
      ExchangeSpoken(a, auth, DigestMd5, Ascii("AUTH DIGEST-MD5\r\n"));
  }

  lemma HelloSpoken(a: Account, auth: Auth)
    ensures AllSpoken(a, auth, Greeting(a))
  {
    hide Ascii, LineOf, Snprintf, AllSpoken, PlainRequest, Decoded, SaysCode;
    HelloWords(a.host);
    ExchangeSpoken(a, auth, Ehlo, HelloText(a.host));
  }

  lemma HelloWords(host: seq<byte>)
    ensures Ascii("EHLO ") <= HelloText(host)
    ensures Attachment.OneLine(host) && |host| + 7 < BUFFER_SIZE ==>
              LineOf(HelloText(host)) == Some(Ascii("EHLO ") + host)
  {
    hide Ascii, LineOf;
    WordLengths();
    Assoc(Ascii("EHLO "), host, Attachment.CRLF);
    BeginningKept("EHLO ", host + Attachment.CRLF);
    TextIsOneLine("EHLO ");
    if Attachment.OneLine(host) && |host| + 7 < BUFFER_SIZE {
      WholeLine(Ascii("EHLO ") + host);
    }
  }

  lemma WordLengths()
    ensures |"EHLO "| < BUFFER_SIZE && |"MAIL FROM:<"| < BUFFER_SIZE && |"RCPT TO:<"| < BUFFER_SIZE
  {
  }

  lemma OpeningSpoken(security: Security, a: Account, auth: Auth)
    ensures AllSpoken(a, auth, Opening(security, a))
  {
    hide Greeting, Ascii, AllSpoken;
    HelloSpoken(a, auth);
    WithoutWords(a, auth, Arrival(security));
    SpokenBoth(a, auth, Arrival(security), Greeting(a));
    if security == UseTls {
      ExchangeSpoken(a, auth, StartTls, Ascii("STARTTLS\r\n"));
      WithoutWords(a, auth, [Secured]);
      SpokenBoth(a, auth, Exchange(StartTls, Ascii("STARTTLS\r\n")), [Secured]);
      SpokenBoth(a, auth, StartTlsScript(), Greeting(a));
    } else {
      NothingSpoken(a, auth);
    }
    SpokenBoth(a, auth, Welcome(security, a), Upgrading(security, a));
  }

  lemma WithoutWords(a: Account, auth: Auth, script: seq<Event>)
    requires forall i :: 0 <= i < |script| ==> !script[i].Sent?
    ensures AllSpoken(a, auth, script)
  {
  }

  /** Every command of a connection is what its label says, and carries the login and the password as it should. */
  lemma ConnectSpoken(security: Security, a: Account, auth: Auth)
    ensures AllSpoken(a, auth, ConnectScript(security, a, auth))
  {
    hide AllSpoken, Opening, AuthScript;
    OpeningSpoken(security, a, auth);
    AuthSpoken(a, auth);
    SpokenBoth(a, auth, Opening(security, a), AuthScript(a, auth));
  }

  lemma EnvelopeSpoken(a: Account, auth: Auth, m: Message)
    ensures AllSpoken(a, auth, Envelope(m))
  {
    hide Ascii, AllSpoken, Exchange;
    WordLengths();
    BeginningKept("MAIL FROM:<", m.from + Ascii(">\r\n"));
    Assoc(Ascii("MAIL FROM:<"), m.from, Ascii(">\r\n"));
    ExchangeSpoken(a, auth, MailFrom, MailText(m.from));
    forall i | 0 <= i < |Everyone(m)|
      ensures AllSpoken(a, auth, Recipients(Everyone(m))[i])
    {
      RecipientSpoken(a, auth, Everyone(m)[i]);
    }
    SpokenFlat(a, auth, Recipients(Everyone(m)));
    SpokenBoth(a, auth, Exchange(MailFrom, MailText(m.from)), Flatten(Recipients(Everyone(m))));
  }

  lemma RecipientSpoken(a: Account, auth: Auth, mail: seq<byte>)
    ensures AllSpoken(a, auth, Exchange(RcptTo, RcptText(mail)))
  {
    hide Ascii, AllSpoken;
    WordLengths();
    BeginningKept("RCPT TO:<", mail + Ascii(">\r\n"));
    Assoc(Ascii("RCPT TO:<"), mail, Ascii(">\r\n"));
    ExchangeSpoken(a, auth, RcptTo, RcptText(mail));
  }

  lemma DataSpoken(a: Account, auth: Auth, m: Message)
    ensures AllSpoken(a, auth, DataScript(m))
  {
    hide Ascii, AllSpoken, Exchange, Content;
    ExchangeSpoken(a, auth, Data, Ascii("DATA\r\n"));
    BlocksSpoken(a, auth, Content(m));
    ExchangeSpoken(a, auth, DataEnd, FINAL_DOT);
    SpokenBoth(a, auth, Exchange(Data, Ascii("DATA\r\n")), BlockEvents(Content(m)));
    SpokenBoth(a, auth, Exchange(Data, Ascii("DATA\r\n")) + BlockEvents(Content(m)), Exchange(DataEnd, FINAL_DOT));
  }

  lemma BlocksSpoken(a: Account, auth: Auth, blocks: seq<seq<byte>>)
    ensures AllSpoken(a, auth, BlockEvents(blocks))
  {
    hide Ascii;
  }

  /** The same for the commands of a message. */
  lemma MailSpoken(a: Account, auth: Auth, m: Message)
    ensures AllSpoken(a, auth, MailScript(m))
  {
    hide AllSpoken, Envelope, DataScript;
    EnvelopeSpoken(a, auth, m);
    DataSpoken(a, auth, m);
    SpokenBoth(a, auth, Envelope(m), DataScript(m));
  }

  lemma QuitSpoken(a: Account, auth: Auth, quit: seq<Event>)
    requires IsQuit(quit)
    ensures AllSpoken(a, auth, quit)
  {
    hide Ascii;
  }
}

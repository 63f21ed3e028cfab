/** The conversation CSmtp holds: its commands, the events of a connection and the scripts it follows. */
module Protocol {
  import opened Basics
  import opened Bytes
  import Attachment
  import Base64
  import CramMd5

  const BUFFER_SIZE: nat := 10240
  const MSG_SIZE_IN_MB: nat := 25

  // ---------- commands and errors ----------

  datatype Command =
    | Init | Ehlo | AuthPlain | AuthLogin | AuthCramMd5 | AuthDigestMd5 | DigestMd5 | User | Password
    | MailFrom | RcptTo | Data | DataBlock | DataEnd | Quit | StartTls

  datatype Error =
    | WsaSend | WsaRecv | WsaConnect | WsaGetHostByNameAddr | WsaInvalidSocket | WsaIoctlSocket | WsaSelect
    | SelectTimeout | UndefMailFrom | UndefRecipients | UndefLogin | UndefPassword
    | BadDigestResponse | BadServerName
    | CommandMailFrom | CommandEhlo | CommandAuthPlain | CommandAuthLogin | CommandAuthCramMd5
    | CommandAuthDigestMd5 | CommandDigestMd5 | CommandData | CommandQuit | CommandRcptTo | MsgBodyError
    | ConnectionClosed | ServerNotResponding | FileNotExist | MsgTooBig | BadLoginPass | UndefXyzResponse
    | LackOfMemory | TimeError | CommandEhloStartTls | SslProblem | CommandDataBlock
    | StartTlsNotSupported | LoginNotSupported

  // The reply code a command waits for; 0 where no reply is read.
  function ValidReply(c: Command): nat {
    match c
    case Init => 220
    case Ehlo => 250
    case AuthPlain => 235
    case AuthLogin => 334
    case AuthCramMd5 => 334
    case AuthDigestMd5 => 334
    case DigestMd5 => 335
    case User => 334
    case Password => 235
    case MailFrom => 250
    case RcptTo => 250
    case Data => 354
    case DataBlock => 0
    case DataEnd => 250
    case Quit => 221
    case StartTls => 220
  }

  function ReplyError(c: Command): Error {
    match c
    case Init => ServerNotResponding
    case Ehlo => CommandEhlo
    case AuthPlain => CommandAuthPlain
    case AuthLogin => CommandAuthLogin
    case AuthCramMd5 => CommandAuthCramMd5
    case AuthDigestMd5 => CommandAuthDigestMd5
    case DigestMd5 => CommandDigestMd5
    case User => UndefXyzResponse
    case Password => BadLoginPass
    case MailFrom => CommandMailFrom
    case RcptTo => CommandRcptTo
    case Data => CommandData
    case DataBlock => CommandDataBlock
    case DataEnd => MsgBodyError
    case Quit => CommandQuit
    case StartTls => CommandEhloStartTls
  }

  /** Which commands wait for which code: 220 on arrival and for STARTTLS, 221 when leaving, 235 where an authentication
      ends, 250 for what is accepted, 334 and 335 where it goes on, 354 before the content. */
  lemma CodesAwaited(c: Command)
    ensures ValidReply(c) == 220 <==> c in {Init, StartTls}
    ensures ValidReply(c) == 221 <==> c == Quit
    ensures ValidReply(c) == 235 <==> c in {AuthPlain, Password}
    ensures ValidReply(c) == 250 <==> c in {Ehlo, MailFrom, RcptTo, DataEnd}
    ensures ValidReply(c) == 334 <==> c in {AuthLogin, AuthCramMd5, AuthDigestMd5, User}
    ensures ValidReply(c) == 335 <==> c == DigestMd5
    ensures ValidReply(c) == 354 <==> c == Data
    ensures ValidReply(c) == 0 <==> c == DataBlock
  {
  }

  /** The error names the command that was refused: while connecting, and for a message. */
  lemma ConnectErrors()
    ensures ReplyError(Init) == ServerNotResponding && ReplyError(Ehlo) == CommandEhlo
    ensures ReplyError(StartTls) == CommandEhloStartTls && ReplyError(AuthPlain) == CommandAuthPlain
    ensures ReplyError(AuthLogin) == CommandAuthLogin && ReplyError(AuthCramMd5) == CommandAuthCramMd5
    ensures ReplyError(User) == UndefXyzResponse && ReplyError(Password) == BadLoginPass
    ensures ReplyError(DigestMd5) == CommandDigestMd5
  {
  }

  lemma MessageErrors()
    ensures ReplyError(MailFrom) == CommandMailFrom && ReplyError(RcptTo) == CommandRcptTo
    ensures ReplyError(Data) == CommandData && ReplyError(DataEnd) == MsgBodyError && ReplyError(Quit) == CommandQuit
  {
  }

  // Errors the client finds by itself, before it asks the network.
  predicate IsLocal(e: Error) {
    e in {UndefMailFrom, UndefRecipients, UndefLogin, UndefPassword, FileNotExist, MsgTooBig, TimeError,
          StartTlsNotSupported, LoginNotSupported, BadServerName}
  }

  // Everything else, which the network brings about.
  type NetworkError = e: Error | !IsLocal(e) witness ServerNotResponding

  lemma ReplyErrorsAreNotLocal(c: Command)
    ensures !IsLocal(ReplyError(c))
  {
  }

  // Normal return or a thrown ECSmtp.
  datatype Outcome = Ok | Thrown(error: Error) {
    // A normal return, or an error the network brought about.
    predicate FromNetwork() { Thrown? ==> !IsLocal(error) }
  }

  // ---------- events and scripts ----------

  // A command handed to SendData, a reply code received in full, a TLS context made ready, or a completed TLS
  // handshake.
  datatype Event = Sent(command: Command, text: seq<byte>) | Got(code: nat) | Prepared | Secured

  // `ran` follows `script` as far as it goes; only its last event may be a reply with another code.
  predicate Cut(script: seq<Event>, ran: seq<Event>) {
    && |ran| <= |script|
    && (ran <= script ||
        (var n := |ran| - 1; ran[..n] <= script && ran[n].Got? && script[n].Got? && ran[n] != script[n]))
  }

  predicate Follows(script: seq<Event>, ran: seq<Event>, ok: bool) {
    if ok then ran == script else Cut(script, ran)
  }

  lemma FollowsBoth(first: seq<Event>, second: seq<Event>, ran: seq<Event>, more: seq<Event>, ok: bool)
    requires Follows(first, ran, true) && Follows(second, more, ok)
    ensures Follows(first + second, ran + more, ok)
  {
    if !ok && !(more <= second) {
      var n := |more| - 1;
      assert (ran + more)[..|ran| + n] == ran + more[..n];
    }
  }

  lemma FollowsCut(script: seq<Event>, ran: seq<Event>, ok: bool)
    requires Follows(script, ran, ok)
    ensures Cut(script, ran) && (ok ==> ran == script)
  {
  }

  lemma FollowsFirst(first: seq<Event>, second: seq<Event>, ran: seq<Event>)
    requires Follows(first, ran, false)
    ensures Follows(first + second, ran, false)
  {
    if !(ran <= first) {
      var n := |ran| - 1;
      assert ran[..n] <= first;
    }
  }

  function Exchange(c: Command, text: seq<byte>): seq<Event> { [Sent(c, text), Got(ValidReply(c))] }

  // All bytes a script puts on the wire.
  function Wire(script: seq<Event>): seq<byte> {
    if script == [] then []
    else Wire(script[..|script| - 1]) + (if script[|script| - 1].Sent? then script[|script| - 1].text else [])
  }

  lemma {:induction false} WireConcat(s: seq<Event>, t: seq<Event>)
    ensures Wire(s + t) == Wire(s) + Wire(t)
  {
    if t == [] {
      assert s + t == s;
    } else {
      assert (s + t)[..|s + t| - 1] == s + t[..|t| - 1];
      WireConcat(s, t[..|t| - 1]);
    }
  }

  // ---------- texts ----------

  function Ascii(s: string): seq<byte> {
    seq(|s|, i requires 0 <= i < |s| => (s[i] as int % 256) as bv8)
  }

  // snprintf into a buffer of BUFFER_SIZE characters.
  function Snprintf(text: seq<byte>): seq<byte> {
    if |text| < BUFFER_SIZE then text else text[..BUFFER_SIZE - 1]
  }

  function WithCrLf(text: seq<byte>): seq<byte> { Snprintf(text + Attachment.CRLF) }

  const BOUNDARY_TEXT: string := "__MESSAGE__ID__54yg6f6h6y456345"

  // ---------- one message ----------

  // An attachment as the file system presents it: whether each of the two fopen calls succeeds.
  datatype File = File(name: seq<byte>, opensFirst: bool, opensAgain: bool, content: seq<byte>)

  // `header` is what FormatHeader leaves in SendBuf; None when it throws.
  datatype Header = Header(text: seq<byte>) | NoTime

  datatype Message = Message(
    from: seq<byte>, to: seq<seq<byte>>, cc: seq<seq<byte>>, bcc: seq<seq<byte>>,
    header: Header, lines: seq<seq<byte>>, attachments: seq<File>)

  function MailText(from: seq<byte>): seq<byte> { Snprintf(Ascii("MAIL FROM:<") + from + Ascii(">\r\n")) }

  function RcptText(mail: seq<byte>): seq<byte> { Snprintf(Ascii("RCPT TO:<") + mail + Ascii(">\r\n")) }

  function Recipients(list: seq<seq<byte>>): (exchanges: seq<seq<Event>>)
    ensures |exchanges| == |list|
  {
    seq(|list|, i requires 0 <= i < |list| => Exchange(RcptTo, RcptText(list[i])))
  }

  function Everyone(m: Message): seq<seq<byte>> { m.to + m.cc + m.bcc }

  // MAIL FROM accepted and every recipient accepted.
  function Envelope(m: Message): seq<Event> {
    Exchange(MailFrom, MailText(m.from)) + Flatten(Recipients(Everyone(m)))
  }

  function BlockEvents(blocks: seq<seq<byte>>): (events: seq<Event>)
    ensures |events| == |blocks|
  {
    seq(|blocks|, i requires 0 <= i < |blocks| => Sent(DataBlock, blocks[i]))
  }

  function BodyLines(lines: seq<seq<byte>>): seq<seq<byte>> {
    if lines == [] then [WithCrLf(Ascii(" "))]
    else seq(|lines|, i requires 0 <= i < |lines| => WithCrLf(lines[i]))
  }

  function PartHeader(name: seq<byte>): seq<byte> {
    var encoded := Ascii("=?UTF-8?B?") + Base64.Encode(name) + Ascii("?=");
    Ascii("--" + BOUNDARY_TEXT) + Attachment.CRLF +
    Ascii("Content-Type: " + "application/x-msdownload; name=\"") + encoded + Ascii("\"") + Attachment.CRLF +
    Ascii("Content-Transfer-Encoding: base64") + Attachment.CRLF +
    Ascii("Content-Disposition: " + "attachment; filename=\"") + encoded + Ascii("\"") + Attachment.CRLF +
    Attachment.CRLF
  }

  function FileBlocks(f: File): seq<seq<byte>> {
    [PartHeader(f.name)] + Attachment.Blocks(f.content, BUFFER_SIZE)
  }

  function Parts(files: seq<File>): (parts: seq<seq<seq<byte>>>)
    ensures |parts| == |files|
  {
    seq(|files|, i requires 0 <= i < |files| => FileBlocks(files[i]))
  }

  function Closing(files: seq<File>): seq<seq<byte>> {
    if files == [] then [] else [Snprintf(Ascii("\r\n--" + BOUNDARY_TEXT + "--\r\n"))]
  }

  function TextBlocks(m: Message): seq<seq<byte>> {
    [if m.header.Header? then m.header.text else []] + BodyLines(m.lines)
  }

  // Everything between the 354 and the final dot.
  function Content(m: Message): seq<seq<byte>> {
    TextBlocks(m) + Flatten(Parts(m.attachments)) + Closing(m.attachments)
  }

  // CRLF, a dot, CRLF.
  const FINAL_DOT: seq<byte> := [13, 10, 46, 13, 10]

  function DataScript(m: Message): seq<Event> {
    Exchange(Data, Ascii("DATA\r\n")) + BlockEvents(Content(m)) + Exchange(DataEnd, FINAL_DOT)
  }

  function MailScript(m: Message): seq<Event> { Envelope(m) + DataScript(m) }

  function TotalSize(files: seq<File>): nat {
    if files == [] then 0 else TotalSize(files[..|files| - 1]) + |files[|files| - 1].content|
  }

  // Every attachment can be opened and together they are not too big.
  predicate FilesAcceptable(files: seq<File>) {
    (forall i :: 0 <= i < |files| ==> files[i].opensFirst) && TotalSize(files) / 1024 <= MSG_SIZE_IN_MB * 1024
  }

  /** The limit, with its rounding down: 25 megabytes and a kilobyte less one byte. */
  lemma SizeLimit(files: seq<File>)
    ensures FilesAcceptable(files) <==>
            (forall i :: 0 <= i < |files| ==> files[i].opensFirst) && TotalSize(files) < 26_215_424
    ensures BUFFER_SIZE == 10240
  {
  }

  // The first n attachments are still there when they are opened for sending.
  predicate Reopen(files: seq<File>, n: nat) {
    n <= |files| && forall i :: 0 <= i < n ==> files[i].opensAgain
  }

  // What has to hold of a message for it to be sent to the end.
  predicate Complete(m: Message) {
    && m.from != [] && m.to != [] && m.header.Header?
    && FilesAcceptable(m.attachments) && Reopen(m.attachments, |m.attachments|)
  }

  // ---------- the greeting ----------

  datatype Security = NoSecurity | UseTls | UseSsl

  // The branch of the authentication the server's keywords lead to.
  datatype Auth = NoAuth | LoginAuth | PlainAuth | CramMd5Auth(challenge: seq<byte>) | DigestMd5Auth

  datatype Account = Account(host: seq<byte>, login: seq<byte>, password: seq<byte>)

  function HelloText(host: seq<byte>): seq<byte> { Snprintf(Ascii("EHLO ") + host + Attachment.CRLF) }

  function Greeting(a: Account): seq<Event> { Exchange(Ehlo, HelloText(a.host)) }

  // login NUL login NUL password, written with '^' first and NUL afterwards.
  function PlainToken(a: Account): seq<byte> {
    Carets(Snprintf(a.login + Ascii("^") + a.login + Ascii("^") + a.password))
  }

  function Carets(s: seq<byte>): seq<byte> {
    seq(|s|, i requires 0 <= i < |s| => if s[i] == 94 then 0 else s[i])
  }

  predicate NoCaret(s: seq<byte>) { forall i :: 0 <= i < |s| ==> s[i] != 94 }

  lemma CaretsConcat(s: seq<byte>, t: seq<byte>)
    ensures Carets(s + t) == Carets(s) + Carets(t)
  {
  }

  lemma CaretsKeep(s: seq<byte>)
    ensures Carets(s) == s <==> NoCaret(s)
  {
    if Carets(s) == s {
      assert forall i :: 0 <= i < |s| ==> Carets(s)[i] == s[i];
    }
  }

  // The message of the PLAIN mechanism (section 2 of RFC 4616), login and password set apart by NUL.
  function PlainMessage(login: seq<byte>, password: seq<byte>): seq<byte> { login + [0] + login + [0] + password }

  lemma PlainParts(login: seq<byte>, password: seq<byte>, other: seq<byte>, secret: seq<byte>)
    requires |login| == |other| && |password| == |secret|
    ensures PlainMessage(login, password) == PlainMessage(other, secret) <==> login == other && password == secret
  {
    var p, q, n := PlainMessage(login, password), PlainMessage(other, secret), |login|;
    assert p[..n] == login && q[..n] == other && p[2 * n + 2..] == password && q[2 * n + 2..] == secret;
  }

  /** The token is the PLAIN message exactly when it fits into SendBuf and no '^' of the credentials is taken for a
      separator. */
  lemma PlainTokenMeans(a: Account)
    ensures PlainToken(a) == PlainMessage(a.login, a.password) <==>
            |PlainMessage(a.login, a.password)| < BUFFER_SIZE && NoCaret(a.login) && NoCaret(a.password)
  {
    hide Carets, NoCaret;
    var front := a.login + Ascii("^") + a.login + Ascii("^");
    if |front + a.password| < BUFFER_SIZE {
      CaretsConcat(a.login, Ascii("^"));
      CaretsConcat(a.login + Ascii("^"), a.login);
      CaretsConcat(a.login + Ascii("^") + a.login, Ascii("^"));
      CaretsConcat(front, a.password);
      OneCaret();
      CaretsKeep(a.login);
      CaretsKeep(a.password);
      CaretsLength(a.login);
      CaretsLength(a.password);
      PlainParts(a.login, a.password, Carets(a.login), Carets(a.password));
    } else {
      CaretsLength(Snprintf(front + a.password));
    }
  }

  lemma OneCaret()
    ensures Carets(Ascii("^")) == [0]
  {
  }

  lemma CaretsLength(s: seq<byte>)
    ensures |Carets(s)| == |s|
  {
  }

  function PlainText(a: Account): seq<byte> {
    Snprintf(Ascii("AUTH PLAIN ") + Base64.Encode(PlainToken(a)) + Attachment.CRLF)
  }

  // The command the PLAIN mechanism asks for.
  function PlainCommand(a: Account): seq<byte> {
    Ascii("AUTH PLAIN ") + Base64.Encode(PlainMessage(a.login, a.password)) + Attachment.CRLF
  }

  /** What is sent is that command exactly when it fits into SendBuf and no '^' of the credentials is taken for a
      separator; a token that fits may still be cut when it is encoded. */
  lemma PlainTextMeans(a: Account)
    ensures PlainText(a) == PlainCommand(a) <==>
            |PlainCommand(a)| < BUFFER_SIZE && NoCaret(a.login) && NoCaret(a.password)
  {
    hide PlainMessage, PlainToken, NoCaret, Base64.Encode, Base64.Decode, Ascii;
    var token, message := PlainToken(a), PlainMessage(a.login, a.password);
    PlainTokenMeans(a);
    TokenLength(a);
    Base64.EncodedLength(token);
    Base64.EncodedLength(message);
    Base64.DecodeEncode(token);
    Base64.DecodeEncode(message);
    if PlainText(a) == PlainCommand(a) {
      SameMiddle(Ascii("AUTH PLAIN "), Base64.Encode(token), Base64.Encode(message), Attachment.CRLF);
    }
  }

  lemma TokenLength(a: Account)
    ensures |PlainToken(a)| <= |PlainMessage(a.login, a.password)|
    ensures |Ascii("AUTH PLAIN ")| == 11
  {
    CaretsLength(Snprintf(a.login + Ascii("^") + a.login + Ascii("^") + a.password));
  }

  lemma SameMiddle(front: seq<byte>, x: seq<byte>, y: seq<byte>, back: seq<byte>)
    ensures front + x + back == front + y + back ==> x == y
  {
    if front + x + back == front + y + back {
      assert |x| == |y|;
      assert (front + x + back)[|front|..|front| + |x|] == x;
      assert (front + y + back)[|front|..|front| + |y|] == y;
    }
  }

  function AnswerText(a: Account, challenge: seq<byte>): seq<byte> {
    WithCrLf(Base64.Encode(CramMd5.Answer(a.login, a.password, challenge)))
  }

  function AuthScript(a: Account, auth: Auth): seq<Event> {
    match auth
    case NoAuth => []
    case LoginAuth => LoginScript(a)
    case PlainAuth => Exchange(AuthPlain, PlainText(a))
    case CramMd5Auth(challenge) => CramScript(a, challenge)
    case DigestMd5Auth => Exchange(DigestMd5, Ascii("AUTH DIGEST-MD5\r\n"))
  }

  function CramAnswer(a: Account, challenge: seq<byte>): seq<Event> { Exchange(Password, AnswerText(a, challenge)) }

  function CramRequest(): seq<Event> { Exchange(AuthCramMd5, Ascii("AUTH CRAM-MD5\r\n")) }

  function CramScript(a: Account, challenge: seq<byte>): seq<Event> { CramRequest() + CramAnswer(a, challenge) }

  function StartTlsScript(): seq<Event> { Exchange(StartTls, Ascii("STARTTLS\r\n")) + [Secured] }

  function LoginScript(a: Account): seq<Event> {
    Exchange(AuthLogin, Ascii("AUTH LOGIN\r\n")) +
    Exchange(User, WithCrLf(Base64.Encode(a.login))) +
    Exchange(Password, WithCrLf(Base64.Encode(a.password)))
  }

  // What the secure modes put before, and USE_TLS after, the plain opening.
  function Cipher(security: Security): seq<Event> {
    match security
    case NoSecurity => []
    case UseTls => [Prepared]
    case UseSsl => [Prepared, Secured]
  }

  function Upgrading(security: Security, a: Account): seq<Event> {
    if security == UseTls then StartTlsScript() + Greeting(a) else []
  }

  function Welcome(security: Security, a: Account): seq<Event> { Arrival(security) + Greeting(a) }

  function Arrival(security: Security): seq<Event> { Cipher(security) + [Got(ValidReply(Init))] }

  function Opening(security: Security, a: Account): seq<Event> { Welcome(security, a) + Upgrading(security, a) }

  function ConnectScript(security: Security, a: Account, auth: Auth): seq<Event> {
    Opening(security, a) + AuthScript(a, auth)
  }

  function QuitScript(): seq<Event> { Exchange(Quit, Ascii("QUIT\r\n")) }

  // What DisconnectRemoteServer may add: nothing, a QUIT, or a QUIT and its reply.
  predicate IsQuit(ran: seq<Event>) {
    ran == [] || ran == [Sent(Quit, Ascii("QUIT\r\n"))] ||
    (|ran| == 2 && ran[0] == Sent(Quit, Ascii("QUIT\r\n")) && ran[1].Got?)
  }
}

# A verified model of the mail client, its hashing and its helpers

The project models the parts of the repository that carry real algorithms, and proves what they are for:

- **MD5** (`Md5Rfc`, `Md5Words`, `Md5Transform`, `Md5Bijection`, `Md5`, `Md5Known`): the streaming context of
  `md5.cpp`, a class over arrays, computes the digest of RFC 1321 however its input is cut up. The block loop of
  `update` compares 32-bit sums; the exact condition under which they wrap is `Md5.GuardWraps`, and its negation is
  the one precondition of `Update`. `Md5Words` says bit by bit what the word operations do, and `Md5Known` works out
  one digest of the standard.
- **Base64** (`Base64`): encoder and decoder, their round trips in both directions.
- **CRAM-MD5** (`CramMd5`): HMAC-MD5 out of the two.
- **The SMTP client** (`Attachment`, `Reply`, `Keyword`, `Protocol`, `Plans`, `Network`, `Client`, `CommandOrder`,
  `Session`, `ServerView`, `Envelopes`, `EndOfData`): `CSmtp` is a class whose socket is an oracle, lists of what
  OpenSSL and the network are going to do, and which records a ghost trace of commands, replies and handshakes and the
  bytes delivered. `Protocol` says what a complete conversation looks like, `Network` how far the network lets it go,
  `Client` proves that every method follows it exactly so far, `CommandOrder` is an independent monitor of the order
  RFC 5321 and RFC 3207 ask for, and `Session` checks whole sessions against it. `Plans` says where and with which
  error an incomplete message stops. The server's side is `ServerView` for the commands of the connection, `Envelopes`
  for sender, recipients and part headers, and `EndOfData` for the content.
- **Ant patterns and the directory walk** (`AntGlob`, `AntMeaning`, `AntExact`, `AntConvention`, `GlobWalk`): the
  tokenizer, the regular expression it builds with its own semantics, what that means segment by segment and for which
  patterns, and the walk with an explicit stack.
- **Two refinements** (`TrailingSpace`, `TaskQueue`): trailing spaces skipped a word at a time, and the locked task
  queue under every interleaving of threads.

`Basics` and `Bytes` hold what the others share. `dafny verify dfyconfig.toml` checks everything.

Where the code does something other than one might expect, the model follows the code and a lemma says exactly when:

- `input_index + 63` in `MD5::update` wraps when bytes are buffered and the length comes within 64 of 2^32
  (`Md5.GuardWraps`).
- The decoded challenge is copied up to its first NUL but read to its full length (`CramMd5.ReadInBoundsIff`).
- A caret in login or password turns into a separator of the PLAIN token, and a line that does not fit is cut, once
  before it is encoded and once after (`Protocol.PlainTokenMeans`, `Protocol.PlainTextMeans`).
- When `connect()` succeeds at once, greeting, TLS and authentication are skipped, so the order is kept only for a
  message without a sender or with files that cannot be sent (`Session.RunImmediate`).
- When the QUIT fails, `DisconnectRemoteServer` throws before it closes the socket, so a later `Send` goes on with it
  (`Client.CSmtp.DisconnectRemoteServer`).
- Lines that begin with a dot are sent as they are: the server drops the dot, and a line that is a single dot ends the
  data, so that the rest of the content is read as commands (`EndOfData.FinalDotEnds`, `EndOfData.TextArrives`,
  `EndOfData.PlainLines`, `EndOfData.OneDotLine`).
- The buffer condition of the attachment loop has a gap, 114 to 148 bytes (`Attachment.BlocksFit`,
  `Attachment.TightBufferOverruns`).
- `**` alone matches one segment (`AntMeaning.TranslationMeans`), and `**` glued to other characters beside a slash
  changes what that slash means. For patterns without a `**` segment this is the exact condition
  (`AntExact.AgreesExactly`); with such segments around, glued stars may do no harm (`AntExact.HarmlessStars`).

## Model

| member | source | states |
|---|---|---|
| Md5Transform.AllRounds | socket服务端/md5.cpp:351-421 | The 64 unrolled calls, in their printed order of registers, words, shifts and constants, equal 64 table-driven steps that rotate the registers, for every word algebra with that schedule |
| Md5Transform.MachineRounds | socket服务端/md5.cpp:345-421 | The same for 32-bit words and the tables of section 3.4 of RFC 1321 |
| Md5Rfc.WordUsedOnce | socket服务端/md5.cpp:351-421 | In each of the four rounds every one of the sixteen decoded words is used by exactly one step, and which one |
| Md5Words.FChooses | socket服务端/md5.cpp:500-502 | Every bit of F is the bit of y where x is set and of z elsewhere |
| Md5Words.GChooses | socket服务端/md5.cpp:504-506 | Every bit of G is the bit of x where z is set and of y elsewhere |
| Md5Words.HIsParity | socket服务端/md5.cpp:508-510 | Every bit of H is the parity of the bits of its three words |
| Md5Words.IDiffers | socket服务端/md5.cpp:512-514 | Every bit of I says whether y differs from "x or not z" |
| Md5Words.RotatesLeft | socket服务端/md5.cpp:491-493 | Rotating by s carries bit k to bit k + s modulo 32, for every word, s and k |
| Md5Words.InitialBytes | socket服务端/md5.cpp:309-313 | The first registers are the bytes 01 23 .. ef fe dc .. 10 of section 3.3 of RFC 1321 |
| Md5Words.CounterMeans | socket服务端/md5.cpp:84-88 | The two words appended are the bit length modulo 2^64, low-order word first |
| Md5Bijection.RotateBack | socket服务端/md5.cpp:491-493 | Rotating left by s is undone by rotating left by 32 - s, for every s |
| Md5Bijection.CompressionCoreBijective | socket服务端/md5.cpp:345-421 | For every block the 64-step map on (a, b, c, d) is a bijection: its step-by-step inverse cancels it on both sides |
| Md5Bijection.BlockUndone | socket服务端/md5.cpp:345-426 | For every block and all registers: what transform adds to the registers, run backwards step by step, is the registers it started from |
| Bytes.UnpackPack | socket服务端/md5.cpp:437-461 | decode undoes encode |
| Md5.MD5.constructor | socket服务端/md5.cpp:302-314 | A fresh context is the context of the empty message |
| Md5.CounterAdds | socket服务端/md5.cpp:84-88 | The carry test and the high bits of the length make the two 32-bit words one 64-bit sum of 8 * length |
| Md5.MD5.CountBits | socket服务端/md5.cpp:84-88 | The counter after the update is 8 * n modulo 2^64 for n bytes fed |
| Md5.GuardWraps | socket服务端/md5.cpp:94-101 | The 32-bit expression input_index + 63 wraps at an index the loop reaches if and only if bytes are buffered and bufferIndex + length is 2^32 or more |
| Md5.MD5.TransformBlocks | socket服务端/md5.cpp:99-102 | The block loop absorbs whole 64-byte blocks, stays inside the input, terminates, and leaves fewer than 64 bytes |
| Md5.MD5.Update | socket服务端/md5.cpp:71-112 | After any update the registers are the fold of transform over the complete blocks of everything fed so far, the buffer holds the leftover tail and the counter 8 * n; a finalized context is left alone |
| Md5.MD5.AppendPadding | socket服务端/md5.cpp:185-206 | Either padding branch ends on a block boundary and appends the length saved before padding: the bytes fed become the padded message |
| Md5.MD5.Finalize | socket服务端/md5.cpp:182-216 | The digest is the MD5 of sections 3.1 to 3.5 of RFC 1321 of everything fed; a second call changes nothing |
| Md5.UnpadPad | socket服务端/md5.cpp:185-206 | Padding can be taken off again: every message comes back from its padded form |
| Md5.HashChunks | socket服务端/md5.cpp:71-216 | However a message is cut into updates on which the guard of the block loop does not wrap, the digest is that of the whole message |
| Md5Known.DigestOfLetters | socket服务端/md5.cpp:71-421 | The digest of the 26 letters is c3fcd3d7 6192e400 7dfb496c ca67e13b, as appendix A.5 of RFC 1321 has it, worked out step by step |
| Md5.SameBytesSameContext | socket服务端/md5.cpp:71-112 | Two contexts fed the same bytes agree in registers, counter and buffered bytes, whatever their histories |
| Md5.UnhexHex | socket服务端/md5.cpp:265-283 | The hexadecimal form consists of lower-case digits and determines the bytes |
| Md5.HexSpells | socket服务端/md5.cpp:275-276 | Byte i stands at 2i and 2i + 1 as its two hexadecimal digits, the high one first |
| Md5.MD5.HexDigest | socket服务端/md5.cpp:265-283 | The hexadecimal form of a finalized digest |
| Base64.DecodeEncode | socket服务端/base64.cpp:42-127 | Decoding what was encoded gives the bytes back, for every byte string |
| Base64.EncodeDecode | socket服务端/base64.cpp:42-127 | Encoding what was decoded gives the text back if and only if the text is canonical: length a multiple of 4, the right number of =, zero spare bits |
| Base64.DecodedLength | socket服务端/base64.cpp:86-127 | With k leading letters of the alphabet the decoded text has floor(3k/4) bytes, for every string |
| Base64.EncodedLength | socket服务端/base64.cpp:42-84 | n bytes are encoded in 4 * ceil(n/3) characters |
| Base64.EncodeBytes | socket服务端/base64.cpp:42-84 | The encoder loop through its three-byte buffer produces the encoding of section 4 of RFC 4648 |
| Base64.LetterSpelled | socket服务端/base64.cpp:31-34 | Letter v is character v of the 64 of the alphabet, as they are printed |
| Base64.EncodeSpells | socket服务端/base64.cpp:42-84 | Every character of the encoded text is the letter for its six of the 24 bits of its group, or = past the end of the bytes |
| Base64.DecodeLanes | socket服务端/base64.cpp:93-124 | A full or partial group decodes to the bytes of its letters: the lanes filled by failed look-ups never reach the output |
| Base64.DecodeText | socket服务端/base64.cpp:86-127 | The decoder loop decodes the leading letters and stops at the first other character |
| CramMd5.ReadInBoundsIff | socket服务端/CSmtp.cpp:968-999 | Reading size() bytes of the NUL-terminated copy stays inside it if and only if no NUL precedes the last byte |
| CramMd5.KeyBytes | socket服务端/CSmtp.cpp:969-981 | Keys over 64 bytes are replaced by their MD5; zero-filled, the result is the block key of section 2 of RFC 2104 |
| CramMd5.FillPad | socket服务端/CSmtp.cpp:984-994 | A pad holds the zero-filled key, masked in all 64 places |
| CramMd5.HmacHex | socket服务端/CSmtp.cpp:968-1008 | The two nested MD5 objects give the hexadecimal form of MD5(outer + MD5(inner + challenge)) for two pads of 64 bytes of which inner, masked by 0x36, and outer, masked by 0x5c, are the zero-filled key or its MD5 |
| CramMd5.Respond | socket服务端/CSmtp.cpp:968-1017 | The reply decodes to login, space and the hexadecimal form of just that code |
| CramMd5.AnswerCarriesHmac | socket服务端/CSmtp.cpp:1014-1017 | The last 32 characters of the reply are lower-case digits and determine the HMAC |
| Attachment.BlocksCarryFile | socket服务端/CSmtp.cpp:690-707 | The blocks sent for a file are its lines in order; with the line ends removed they decode to the file |
| Attachment.EveryLine | socket服务端/CSmtp.cpp:690-707 | Line i of what is sent for a file is the encoding of its bytes 54i to 54i + 53, or of what is left, and CRLF; nothing follows the last, which is empty where the file is a multiple of 54 bytes long |
| Attachment.LinesAtMost72 | socket服务端/CSmtp.cpp:690-707 | No line is longer than 72 characters (within the 76 of section 6.8 of RFC 2045) |
| Attachment.BlocksFit | socket服务端/CSmtp.cpp:690-707 | In a buffer of 75 to 113 bytes, or of 149 or more, no file overruns SendBuf, its terminator included, although MsgPart counts raw bytes |
| Attachment.TightBufferOverruns | socket服务端/CSmtp.cpp:690-707 | In a buffer of any other size some file overruns it |
| Reply.ParseMeansReply | socket服务端/CSmtp.cpp:2213-2245 | The line scan finds a code if and only if the text starts with complete lines of which the last and only the last ends a reply (section 4.2.1 of RFC 5321) |
| Reply.CodeIsDecimal | socket服务端/CSmtp.cpp:2213-2245 | For every number below 1000 its three decimal digits, alone on a line or before a space and any text, are read as that number; with a dash after them the line never ends a reply |
| Reply.ParseGrows | socket服务端/CSmtp.cpp:2205-2246 | Once a code is found, more bytes never change it |
| Reply.ScanLines | socket服务端/CSmtp.cpp:2209-2245 | The scan from the first byte terminates and finds that code |
| Reply.ReceiveReply | socket服务端/CSmtp.cpp:2205-2246 | Chunk after chunk, the loop stops at the first chunk that completes a reply, with the code of the whole stream |
| Reply.CuttingIrrelevant | socket服务端/CSmtp.cpp:2205-2246 | Two ways of cutting one stream into chunks, also between CR and LF, give the same code |
| Reply.NulFreeReceived | socket服务端/CSmtp.cpp:2207-2208 | From NUL-free chunks every byte is taken |
| Keyword.IsSupported | socket服务端/CSmtp.cpp:145-184 | True if and only if the keyword stands somewhere, in any case, after -, space or = and before space, = or CRLF |
| Keyword.DelimitedIsFound | socket服务端/CSmtp.cpp:145-184 | Whatever stands around them, a keyword between such delimiters is found where it stands |
| Keyword.PartOfWord | socket服务端/CSmtp.cpp:145-184 | At the start of the text, at its very end and next to a capital letter it is not |
| Keyword.CaseIgnored | socket服务端/CSmtp.cpp:145-184 | What is found equals the keyword up to the case of its letters |
| Protocol.PlainTokenMeans | socket服务端/CSmtp.cpp:935-941 | The PLAIN token is login, NUL, login, NUL, password if and only if it fits into SendBuf and neither login nor password contains a caret |
| Protocol.PlainTextMeans | socket服务端/CSmtp.cpp:935-946 | What goes out is the AUTH PLAIN command with login and password if and only if that whole line fits into SendBuf and there is no caret: the encoded line is cut once more |
| Protocol.CodesAwaited | socket服务端/CSmtp.cpp:109-127 | Which commands wait for 220, 221, 235, 250, 334, 335 and 354, and that a content block waits for none |
| Protocol.ConnectErrors | socket服务端/CSmtp.cpp:109-127 | The error that a wrong reply to each command of the connection gives |
| Protocol.MessageErrors | socket服务端/CSmtp.cpp:109-127 | The same for the commands of a message and for QUIT |
| Protocol.SizeLimit | socket服务端/CSmtp.cpp:569-589 | Files are acceptable if and only if all of them open and they hold less than 25 megabytes and a kilobyte together |
| Plans.StopMeans | socket服务端/CSmtp.cpp:569-683 | For each of UNDEF_MAIL_FROM, UNDEF_RECIPIENTS, TIME_ERROR, MSG_TOO_BIG and FILE_NOT_EXIST the exact messages that stop with it; the rest, and only they, are complete |
| Plans.StopsWhere | socket服务端/CSmtp.cpp:569-683 | How far each of them gets: nothing, MAIL FROM, the envelope with DATA, or the content up to the header of the first attachment that is gone |
| Network.GetsOut | socket服务端/CSmtp.cpp:1520-1573 | n bytes get out over a plain socket if and only if some run of write events without an error writes as many |
| Network.GetsOutTls | socket服务端/CSmtp.cpp:2255-2341 | Over TLS, while the socket stays writable, blocked writes lose nothing: only a failure keeps bytes back |
| Network.FirstError | socket服务端/CSmtp.cpp:1456-1508 | A reply that never becomes complete ends in the first error that is received |
| ServerView.SecretRead | socket服务端/CSmtp.cpp:918-930 | From the line of a secret the server decodes just that secret if and only if the line fits into SendBuf, and otherwise finds no line |
| ServerView.PlainRead | socket服务端/CSmtp.cpp:935-946 | The server finds login, login and password in the PLAIN request if and only if it fits, neither holds a caret and the login no NUL |
| ServerView.AnswerRead | socket服务端/CSmtp.cpp:948-1021 | The server finds the login and the code for its challenge in the CRAM-MD5 answer if and only if the line fits |
| ServerView.ConnectSpoken | socket服务端/CSmtp.cpp:880-1021 | The bytes of every command of a connection are what its label says: the verbs, the host, the login as user name and the password as password |
| ServerView.MailSpoken | socket服务端/CSmtp.cpp:591-725 | The same for the commands of a message |
| Envelopes.EnvelopeRead | socket服务端/CSmtp.cpp:593-625 | From the bytes of an envelope whose addresses fit a server reads the sender and then every To, CC and BCC recipient, in order |
| Envelopes.PartHeaderRead | socket服务端/CSmtp.cpp:663-676 | A part header is five lines: the boundary, the type and the disposition, each with the name of the file to be decoded from it, the encoding, and an empty line |
| Client.CSmtp.SendPlain | socket服务端/CSmtp.cpp:1520-1573 | For every pattern of partial writes: normal return, which the write events alone decide, delivers SendBuf once and in order, every throw a proper prefix of it and the error of the event that stopped it |
| Client.CSmtp.SendSsl | socket服务端/CSmtp.cpp:2255-2341 | The same with WANT_READ and WANT_WRITE stalls, a blocked write being tried again from the same place |
| Client.CSmtp.ReceiveResponse | socket服务端/CSmtp.cpp:2200-2253 | Returns normally if and only if the stream starts with a reply of the awaited code; another code throws the error of the command, and without a reply it is the first error received; whatever the code, RecvBuf then holds the chunks up to that reply |
| Client.CSmtp.InitOpenSSL | socket服务端/CSmtp.cpp:2343-2350 | The TLS context is made ready or the connection fails with SSL_PROBLEM, as OpenSSL decides |
| Client.CSmtp.Encipher | socket服务端/CSmtp.cpp:880-888 | In both secure modes the context comes before the first reply, in USE_SSL mode the handshake as well; nothing is sent meanwhile |
| Client.CSmtp.Open | socket服务端/CSmtp.cpp:880-899 | The opening follows its script to the end exactly if OpenSSL and the network let it and STARTTLS is offered where asked for: TLS first in USE_SSL mode, 220, EHLO, and in USE_TLS mode STARTTLS, handshake and a second EHLO |
| Client.CSmtp.Envelop | socket服务端/CSmtp.cpp:968-1017 | The reply to a challenge is the one CramMd5.Respond computes, wherever the original stays inside its buffers |
| Client.CSmtp.CramMd5Login | socket服务端/CSmtp.cpp:948-1021 | The exchange answers the decoded challenge of the very reply the server gave to AUTH CRAM-MD5 |
| Client.CSmtp.Authenticate | socket服务端/CSmtp.cpp:901-1208 | The branch taken is the first of LOGIN, PLAIN, CRAM-MD5 and DIGEST-MD5 that the last greeting offers, or none where AUTH is not offered or not asked for, and its script is followed; where it fails for no reason of the network, login, password or a mechanism is missing and nothing but the first line of DIGEST-MD5 was sent; every event of the exchange carries what its label says, so that the server decodes login and password from their own commands |
| Client.Preference | socket服务端/CSmtp.cpp:901-1040 | Which branch is taken: LOGIN where it is offered, then PLAIN, CRAM-MD5 and DIGEST-MD5, none without AUTH or without being asked |
| Client.ReasonsToStop | socket服务端/CSmtp.cpp:891-1208 | The errors by which the client stops connecting of its own: no STARTTLS in USE_TLS mode, no login, no password, no mechanism, or the end of DIGEST-MD5, each in its own case only |
| Client.CSmtp.ConnectRemoteServer | socket服务端/CSmtp.cpp:749-1222 | Normal return means the whole connect script, with the authentication the greeting asks for, and its bytes; otherwise a prefix of the script, at most one wrong reply, then at most a QUIT, the bytes of all but the last command sent in full, the object not connected, and the network or the client itself to blame; after a wrong reply there is a QUIT if and only if an EHLO has been accepted and the text of that reply does not begin with 530; connect() succeeding at once runs nothing; the error caught is that of the command refused, of the network or of what is missing, and it is the one thrown unless the QUIT itself fails |
| Client.CSmtp.GiveUp | socket服务端/CSmtp.cpp:1212-1219 | A QUIT is sent if and only if the object was connected and RecvBuf does not begin with 530; where it is let through, or none is sent, the error caught is thrown again, and otherwise the error of the QUIT |
| Client.CSmtp.Abandon | socket服务端/CSmtp.cpp:727-733 | A QUIT is sent if and only if the object was connected; where it is let through, or none is sent, the error caught is thrown again, and otherwise the error of the QUIT |
| Client.CSmtp.DisconnectRemoteServer | socket服务端/CSmtp.cpp:1234-1246 | A QUIT is sent if and only if the object was connected; normal return, exactly if the network lets the QUIT through, leaves no socket, and connected is false either way; otherwise the error is that of the QUIT |
| Client.CSmtp.SayQuit | socket服务端/CSmtp.cpp:2055-2065 | Whatever becomes of the QUIT, connected is cleared, so it is never sent again |
| Client.CSmtp.SayHello | socket服务端/CSmtp.cpp:2046-2053 | connected is set only by an accepted EHLO |
| Client.CSmtp.CheckFiles | socket服务端/CSmtp.cpp:569-589 | Passes if and only if every attachment opens and together they stay within the limit; otherwise the error is that of the first file that is missing or too much |
| Client.CSmtp.SendFileContent | socket服务端/CSmtp.cpp:690-707 | The loop sends exactly the blocks of the file, and every block, with its terminator, stays within BUFFER_SIZE |
| Client.CSmtp.SendMessage | socket服务端/CSmtp.cpp:564-726 | What is sent for a message follows its script, to the end if and only if the message is complete and the network lets it through; the error thrown is that of the command with the wrong reply, of the network, or the one by which an incomplete message stops; without acceptable files or a sender nothing is sent, without a To recipient nothing after MAIL FROM |
| Client.CSmtp.Send | socket服务端/CSmtp.cpp:546-734 | Connects only when there is no socket and follows the scripts; after connecting it returns normally, with every byte delivered, if and only if the message is complete and the network lets the scripts through; otherwise the bytes of all commands but the last are delivered, at most a QUIT is added and the object is not connected; the error thrown is the one that stopped it (the refused command, the network, or what the message lacks), or that of the QUIT where the QUIT fails |
| Client.EhloBetweenQuits | socket服务端/CSmtp.cpp:2046-2065 | Where every QUIT finds an accepted EHLO after the one before, an accepted EHLO lies between any two QUITs |
| Session.CutAccepted | socket服务端/CSmtp.cpp:2249-2252 | A run that follows an accepted script, cut short or ended by a wrong reply, is accepted by the monitor of the SMTP order |
| Session.ConnectAccepted | socket服务端/CSmtp.cpp:880-930 | Every connect script is in the order SMTP asks for and ends ready for MAIL FROM on the channel the mode asks for |
| Session.MailRunAccepted | socket服务端/CSmtp.cpp:591-733 | Whatever Send adds for one message is in order, also when its recipients are missing |
| Session.RunSession | socket服务端/CSmtp.cpp:546-1246 | One connection of a fresh object against any server and network: the trace is accepted by the monitor, it consists of the scripts of the messages delivered and a cut of the next one, the bytes of every command but perhaps the last of each run are on the wire, DATA always follows the whole envelope of its message, the authentication is the one the greeting and the challenge ask for, the invariant of the class holds at the end, a wrong reply while connecting is followed by a QUIT exactly as in ConnectRemoteServer, and the first message not delivered is incomplete or the network stops the session there, and every command carries what its label says |
| Session.SessionSaid | socket服务端/CSmtp.cpp:546-1246 | In every trace of a session each command is what its label says, and the server can decode the secrets from their own commands |
| Session.RunImmediate | socket服务端/CSmtp.cpp:818-835 | When connect() succeeds at once, the session is in order if and only if the message has no sender or its files cannot be sent, and then nothing goes out |
| Session.RunAll | socket服务端/CSmtp.cpp:217-221 | Over every sequence of connecting, sending and disconnecting, connected implies an EHLO accepted since the last QUIT, and an accepted EHLO lies between any two QUITs |
| CommandOrder.DataNeedsEnvelope | socket服务端/CSmtp.cpp:593-630 | In every accepted trace DATA is sent only after MAIL FROM and at least one RCPT, each accepted with 250, and nothing else between |
| Session.DataFollowsEnvelope | socket服务端/CSmtp.cpp:591-630 | DATA goes out exactly after MAIL FROM and every To, CC and BCC recipient of the message got their 250 |
| Session.DataInSession | socket服务端/CSmtp.cpp:591-630 | In every session what stands before a DATA is the connection, whole messages and the whole envelope of its own message, which has a To recipient |
| CommandOrder.ContentFollowsData | socket服务端/CSmtp.cpp:626-725 | Content blocks and the final dot are sent only after DATA got 354, with nothing but content between |
| CommandOrder.SecretsNeedTls | socket服务端/CSmtp.cpp:880-930 | In USE_TLS mode nothing but EHLO, STARTTLS and QUIT is sent before the 220 to STARTTLS, the handshake and an EHLO accepted after it: no step of an authentication, no envelope and no content |
| CommandOrder.AllBehindSsl | socket服务端/CSmtp.cpp:880-891 | In USE_SSL mode the monitor lets nothing but a QUIT out before the handshake |
| Session.NothingBeforeSsl | socket服务端/CSmtp.cpp:880-891 | With the invariant of the class, which every session keeps, not even a QUIT is sent before the handshake |
| CommandOrder.WrongReplyEnds | socket服务端/CSmtp.cpp:727-733 | After a wrong reply nothing follows but at most one QUIT and its reply |
| Session.DotEndsContent | socket服务端/CSmtp.cpp:591-725 | The command with the final dot goes out only after MAIL FROM, every To, CC and BCC recipient, DATA and every block of the content; whether the server reads that far is the next matter |
| EndOfData.DataOnWire | socket服务端/CSmtp.cpp:626-725 | DATA, the header, the lines, the attachments and the final dot put on the wire the DATA command and then the stream the next lemmas read |
| EndOfData.FinalDotEnds | socket服务端/CSmtp.cpp:632-725 | A server reading as section 4.5.2 of RFC 5321 says takes exactly what follows the final dot for commands if and only if no end mark (a line that is a single dot) stands in header and lines; attachments never make one |
| EndOfData.TextArrives | socket服务端/CSmtp.cpp:632-725 | Such a server keeps the content as it was sent if and only if no line of header and text begins with a dot |
| EndOfData.PlainLines | socket服务端/CSmtp.cpp:636-651 | For lines without line ends that fit into SendBuf, after a header that ends its last line: the data end early if and only if some line is a single dot, and dots are lost if and only if some line begins with one, or the header does the like |
| EndOfData.OneDotLine | socket服务端/CSmtp.cpp:640-651 | The input that fails: with a single dot for a text the server reads the attachments and the final dot as commands |
| Session.AttachmentsArrive | socket服务端/CSmtp.cpp:652-710 | Every attachment stands in the content of its message, header first, in blocks that fit into SendBuf and lines of at most 72 characters; with the line ends removed they decode to the file |
| Session.ContentInOrder | socket服务端/CSmtp.cpp:632-719 | The content is the header, the lines (or a blank one), the attachments in their order, each behind its header, and the closing boundary, and nothing else |
| AntGlob.TokensCover | socket服务端/json/devtools/antglob.py:56-86 | The tokens put together are the pattern: tokenizing leaves no gap |
| AntGlob.FindIter | socket服务端/json/devtools/antglob.py:69 | The matches are the tokens, each starting where the one before ended |
| AntGlob.Translate | socket服务端/json/devtools/antglob.py:69-86 | On any list of matches the loop raises ValueError if and only if there is a gap, and joins the pieces otherwise |
| AntGlob.AntPatternToRe | socket服务端/json/devtools/antglob.py:58-88 | The ValueError is never raised; the result is the regular expression of the tokens |
| AntMeaning.SegmentMeans | socket服务端/json/devtools/antglob.py:76-84 | The pieces of one segment match what its wildcards say, and only inside one segment |
| AntMeaning.PatternMeans | socket服务端/json/devtools/antglob.py:69-88 | The pieces of a list of segments match a path if and only if the segments match one by one, ** standing for any number of them |
| AntMeaning.PatternTokens | socket服务端/json/devtools/antglob.py:56-86 | Where ** keeps to whole segments the tokens are those of the segments |
| AntMeaning.TranslationMeans | socket服务端/json/devtools/antglob.py:58-88 | The compiled pattern accepts exactly the paths that match it segment by segment, a last ** needing at least one; a bare ** accepts exactly the paths of one segment |
| AntExact.AgreesExactly | socket服务端/json/devtools/antglob.py:58-88 | For patterns without a ** segment the compiled pattern and the segments agree on every path if and only if no ** touches a slash (or the pattern holds a line feed, which no path does) |
| AntMeaning.StarsBeforeSlash | socket服务端/json/devtools/antglob.py:71-79 | What goes wrong: ** at the end of a longer segment swallows the slash after it, for all names around it |
| AntMeaning.StarsAfterSlash | socket服务端/json/devtools/antglob.py:71-79 | ** at the start of a longer segment reaches over slashes, for all names around it |
| AntExact.HarmlessStars | socket服务端/json/devtools/antglob.py:71-79 | Beside whole ** segments a ** glued to a name may be harmless: **/*/**name agrees for every name |
| AntConvention.NameItself | socket服务端/json/devtools/antglob.py:58-88 | A name without wildcards is matched by itself alone |
| AntConvention.AtAnyDepth | socket服务端/json/devtools/antglob.py:58-88 | **/a matches a at any depth, as the documentation of the function promises |
| AntConvention.AnyBetween | socket服务端/json/devtools/antglob.py:58-88 | a/**/b matches a/b and whatever begins with a/ and ends in /b |
| AntConvention.OneStarBefore | socket服务端/json/devtools/antglob.py:58-88 | *a matches what ends in a without a slash |
| AntConvention.EverythingBelow | socket服务端/json/devtools/antglob.py:58-88 | a/** matches everything below a and not a itself |
| GlobWalk.GlobImpl | socket服务端/json/devtools/antglob.py:120-150 | The explicit stack terminates and finds what the recursive traversal finds, each as often |
| GlobWalk.WalkFinds | socket服务端/json/devtools/antglob.py:120-150 | Whatever is found lies below the root through unpruned directories and passes the include, exclude and type filters |
| GlobWalk.FindsInWalk | socket服务端/json/devtools/antglob.py:120-150 | Whatever lies there and passes is found |
| GlobWalk.AtMostOnce | socket服务端/json/devtools/antglob.py:120-150 | No path is listed twice |
| GlobWalk.Glob | socket服务端/json/devtools/antglob.py:95-151 | Each path is listed exactly once if it leads through unpruned directories to an entry that passes, and not at all otherwise |
| GlobWalk.TrailSpelled | socket服务端/json/devtools/antglob.py:125 | The path of an entry is the root and the names on the way, each after a slash |
| GlobWalk.TypesWanted | socket服务端/json/devtools/antglob.py:48-54 | 1 asks for directories, 2 for files, 3 for both; the bits of the links find nothing in a tree without links |
| GlobWalk.ListedIsWanted | socket服务端/json/devtools/antglob.py:131-135 | What is listed passes some include filter and no exclude filter |
| TrailingSpace.NaiveEndIs | socket服务端/mysql32/include/m_string.h:322-324 | The byte-by-byte result is the one place with only spaces after it and no space before it |
| TrailingSpace.SkipByWords | socket服务端/mysql32/include/m_string.h:277-306 | The aligned-word form returns the same end as the byte-by-byte loop for every start address, length and word size 4 or 8, reading only inside the buffer |
| TrailingSpace.SkipByEights | socket服务端/mysql32/include/m_string.h:314-326 | The eight-byte form returns the same end as the byte-by-byte loop for every buffer |
| TrailingSpace.WordOfSpaces | socket服务端/mysql32/include/m_string.h:280-284 | A word equals SPACE_INT if and only if all its bytes are spaces |
| TrailingSpace.SpaceIntIs | socket服务端/mysql32/include/m_string.h:280-284 | SPACE_INT is 0x20202020 for four bytes and 0x2020202020202020 for eight |
| TrailingSpace.KorrOfSpaces | socket服务端/mysql32/include/byte_order_generic.h:56-69 | uint8korr equals 0x2020202020202020 if and only if all eight bytes are spaces |
| TaskQueue.CMyQueue.Pop | socket服务端/MyQueue.cpp:13-24 | pop returns and removes the front task, or returns null from an empty queue |
| TaskQueue.CMyQueue.Push | socket服务端/MyQueue.cpp:26-36 | push appends; a null task is refused and nothing changes |
| TaskQueue.CMyQueue.PushFront | socket服务端/MyQueue.cpp:47-57 | pushFront prepends; a null task is refused and nothing changes |
| TaskQueue.CMyQueue.Clear | socket服务端/MyQueue.cpp:59-70 | clear empties the queue |
| TaskQueue.CMyQueue.IsEmpty | socket服务端/MyQueue.cpp:38-45 | isEmpty says whether the queue holds no task, and changes nothing |
| TaskQueue.RunInOrder | socket服务端/MyQueue.cpp:13-70 | In every state of every interleaving of any number of threads the invariant of lock, deque and log holds |
| TaskQueue.MutualExclusion | socket服务端/MyQueue.cpp:13-70 | No two threads are in their critical sections together, and front() and pop_front() never meet an empty deque |
| TaskQueue.Linearized | socket服务端/MyQueue.cpp:13-70 | Whenever the mutex is free the deque is the sequential replay of the completed calls; every call returned its result in that replay; null pushes return false without locking |
| TaskQueue.ReturnedComesFirst | socket服务端/MyQueue.cpp:13-70 | The log keeps the order of real time: a call that has returned comes before every call completed later |
| TaskQueue.TasksConserved | socket服务端/MyQueue.cpp:13-70 | Whenever the mutex is free, the tasks pushed are those popped, those cleared and those still queued |
| TaskQueue.FirstInFirstOut | socket服务端/MyQueue.cpp:13-36 | Without pushFront and clear, tasks come out in the order in which their pushes completed |
| TaskQueue.FrontComesNext | socket服务端/MyQueue.cpp:13-57 | A task pushed in front is the next one popped, with pushes and emptiness tests between |
| TaskQueue.EmptyMeansDrained | socket服务端/MyQueue.cpp:38-45 | isEmpty says true if and only if what was pushed so far has all been popped or cleared |
| TaskQueue.LoggedFlags | socket服务端/MyQueue.cpp:26-70 | A push of a task says true, at the back and in front, and so does clear |

## Left out

- Md5.MD5.Update: takes only lengths for which the block loop does not wrap; `Md5.GuardWraps` shows that these are
  all.
- Md5.HashChunks: takes only rows of chunks for which no update wraps, for the same reason.
- Md5.MD5.HexDigest: before finalization the original hands out an empty string with a message on the console; the
  model returns the empty sequence, and the constructors that read files and streams are not modelled.
- Base64.DecodeText: the original keeps the length in an `int`; texts of 2^31 characters and more are not modelled.
- CramMd5.Respond: a challenge or password with a NUL before its last byte makes the original read past its copy; in
  the session the reply is then taken to be the same function of them.
- Client.CSmtp.Authenticate: of the DIGEST-MD5 branch only the first exchange is modelled; what follows is taken to
  throw BAD_SERVER_NAME, as it does when the challenge has the expected parts and `getpeername` succeeds.
- Client.CSmtp.Open: error text, timeouts and the choice of ciphers are not modelled; whether OpenSSL makes a context
  and completes a handshake is an oracle.
- Client.CSmtp.ConnectRemoteServer: name resolution, socket options and the select loop appear only as the path they
  end in; the security mode is a field and not an argument.
- Client.CSmtp.ReceiveResponse: chunks may have any length; the original reads up to BUFFER_SIZE bytes into `RecvBuf`
  and then writes a NUL behind them, one past the array when the read is full. The received line is also the format
  string that fills `RecvBuf`; percent signs are copied as they are, and `isdigit` is the ASCII one.
- Client.CSmtp.SendMessage: the header text of `FormatHeader` and the file name cut from the path are inputs; the
  `strcat` calls that build a part header are unbounded in the original, so very long file names are not modelled;
  file sizes are unbounded integers.
- Protocol.MailText: `snprintf` truncates at BUFFER_SIZE - 1 characters, as on Linux; the other commands likewise.
- Session.RunSession: speaks of one connection of a fresh object; a reused object keeps its TLS handle after
  disconnecting, so the order of a second connection is not claimed.
- AntMeaning.TranslationMeans: patterns that hold a whole `**` segment and, elsewhere, a `**` glued to other
  characters beside a slash of its own are not covered; `AntExact.HarmlessStars` shows that being glued does not
  settle what they mean. Paths hold no line feed and the separator is `/`.
- GlobWalk.Glob: trees have no links, entry names are unique, nonempty and free of slashes; the unused `max_depth` and
  the matching of names by `fnmatch` are left out, filters being arbitrary predicates.
- TrailingSpace.SkipByWords: addresses are unbounded, so a buffer does not wrap around the address space.
- TaskQueue.RunInOrder: the mutex is taken to exclude, and each step of a critical section to be atomic; ownership of
  the tasks and their deletion are not modelled.
- Setters, recipient lists, error texts, `MyStack`, `MyList`, `SaveQueue`, the thread classes, the remaining headers
  of MySQL, JSON and the packaging scripts would only add easy members.

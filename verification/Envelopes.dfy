/** The envelope as a server reads it line by line from the wire. */
module Envelopes {
  import opened Basics
  import opened Bytes
  import opened Protocol
  import opened ServerView
  import Attachment
  import Base64

  // Where the first line end stands, or the length.
  function LineEnd(s: seq<byte>): (k: nat)
    ensures k <= |s| && (k < |s| ==> k + 1 < |s| && s[k] == 13 && s[k + 1] == 10)
  {
    if |s| < 2 then |s| else if s[0] == 13 && s[1] == 10 then 0 else 1 + LineEnd(s[1..])
  }

  function Lines(s: seq<byte>): seq<seq<byte>>
    decreases |s|
  {
    var k := LineEnd(s);
    if k < |s| then [s[..k]] + Lines(s[k + 2..]) else []
  }

  lemma {:induction false} FirstEnd(line: seq<byte>, rest: seq<byte>)
    requires Attachment.OneLine(line)
    ensures LineEnd(line + Attachment.CRLF + rest) == |line|
  {
    var s := line + Attachment.CRLF + rest;
    if line != [] {
      assert s[1..] == line[1..] + Attachment.CRLF + rest && s[0] == line[0];
      FirstEnd(line[1..], rest);
    }
  }

  lemma FirstLine(line: seq<byte>, rest: seq<byte>)
    requires Attachment.OneLine(line)
    ensures Lines(line + Attachment.CRLF + rest) == [line] + Lines(rest)
  {
    var s := line + Attachment.CRLF + rest;
    FirstEnd(line, rest);
    assert s[..|line|] == line && s[|line| + 2..] == rest;
  }

  datatype Request = From(address: seq<byte>) | To(address: seq<byte>) | Other

  // What stands between the word and a closing '>'.
  function Bracketed(word: string, line: seq<byte>): Option<seq<byte>> {
    if Ascii(word) <= line && |line| > |word| && line[|line| - 1] == 62 then Some(line[|word|..|line| - 1]) else None
  }

  function ReadLine(line: seq<byte>): Request {
    var sender, recipient := Bracketed("MAIL FROM:<", line), Bracketed("RCPT TO:<", line);
    if sender.Some? then From(sender.value) else if recipient.Some? then To(recipient.value) else Other
  }

  function ReadLines(lines: seq<seq<byte>>): (requests: seq<Request>)
    ensures |requests| == |lines|
  {
    seq(|lines|, i requires 0 <= i < |lines| => ReadLine(lines[i]))
  }

  // An address that goes out whole.
  predicate Addressable(word: string, address: seq<byte>) {
    Attachment.OneLine(address) && |word| + |address| + 3 < BUFFER_SIZE
  }

  lemma WordIsOneLine(word: string, address: seq<byte>)
    requires Printable(word) && Attachment.OneLine(address)
    ensures Attachment.OneLine(Ascii(word) + address + [62])
  {
    hide Ascii;
    TextIsOneLine(word);
  }

  lemma Closing()
    ensures Ascii(">\r\n") == [62] + Attachment.CRLF
  {
  }

  lemma BracketRead(word: string, address: seq<byte>)
    ensures Bracketed(word, Ascii(word) + address + [62]) == Some(address)
  {
    assert |Ascii(word)| == |word|;
    assert (Ascii(word) + address + [62])[|word|..|word| + |address|] == address;
  }

  lemma SenderRead(from: seq<byte>, rest: seq<byte>)
    requires Addressable("MAIL FROM:<", from)
    ensures ReadLines(Lines(MailText(from) + rest)) == [From(from)] + ReadLines(Lines(rest))
  {
    hide Ascii, Lines, Bracketed;
    var line := Ascii("MAIL FROM:<") + from + [62];
    Closing();
    WordIsOneLine("MAIL FROM:<", from);
    BracketRead("MAIL FROM:<", from);
    TextIsOneLine("MAIL FROM:<");
    assert MailText(from) + rest == line + Attachment.CRLF + rest;
    FirstLine(line, rest);
  }

  lemma RecipientRead(mail: seq<byte>, rest: seq<byte>)
    requires Addressable("RCPT TO:<", mail)
    ensures ReadLines(Lines(RcptText(mail) + rest)) == [To(mail)] + ReadLines(Lines(rest))
  {
    hide Ascii, Lines, Bracketed;
    var line := Ascii("RCPT TO:<") + mail + [62];
    Closing();
    WordIsOneLine("RCPT TO:<", mail);
    BracketRead("RCPT TO:<", mail);
    TextIsOneLine("RCPT TO:<");
    NotSender(mail);
    assert RcptText(mail) + rest == line + Attachment.CRLF + rest;
    FirstLine(line, rest);
  }

  lemma SenderLetter()
    ensures var word := Ascii("MAIL FROM:<"); |word| > 0 && word[0] == 77
  {
  }

  lemma RecipientLetter()
    ensures var word := Ascii("RCPT TO:<"); |word| > 0 && word[0] == 82
  {
  }

  lemma NotSender(mail: seq<byte>)
    ensures Bracketed("MAIL FROM:<", Ascii("RCPT TO:<") + mail + [62]).None?
  {
    hide Ascii;
    SenderLetter();
    RecipientLetter();
    assert (Ascii("RCPT TO:<") + mail + [62])[0] == 82;
  }

  function AllTo(list: seq<seq<byte>>): seq<Request> { seq(|list|, i requires 0 <= i < |list| => To(list[i])) }

  lemma LastRecipient(list: seq<seq<byte>>, n: nat)
    requires |list| == n + 1
    ensures Wire(Flatten(Recipients(list))) == Wire(Flatten(Recipients(list[..n]))) + RcptText(list[n])
    ensures AllTo(list) == AllTo(list[..n]) + [To(list[n])]
  {
    hide RcptText, Wire;
    var front, last := Recipients(list[..n]), Exchange(RcptTo, RcptText(list[n]));
    assert Recipients(list)[..n] == front;
    WireConcat(Flatten(front), last);
    WireOfExchange(RcptTo, RcptText(list[n]));
  }

  lemma NoRecipients()
    ensures Wire(Flatten(Recipients([]))) == [] && AllTo([]) == []
  {
  }

  lemma {:induction false} RecipientsRead(list: seq<seq<byte>>, rest: seq<byte>)
    requires forall i :: 0 <= i < |list| ==> Addressable("RCPT TO:<", list[i])
    ensures ReadLines(Lines(Wire(Flatten(Recipients(list))) + rest)) == AllTo(list) + ReadLines(Lines(rest))
  {
    hide Lines, RcptText, Addressable, Wire, Flatten, Recipients, ReadLines, AllTo;
    NoRecipients();
    if list == [] {
      assert [] + rest == rest;
      assert AllTo([]) + ReadLines(Lines(rest)) == ReadLines(Lines(rest));
    } else {
      var n := |list| - 1;
      LastRecipient(list, n);
      Assoc(Wire(Flatten(Recipients(list[..n]))), RcptText(list[n]), rest);
      RecipientsRead(list[..n], RcptText(list[n]) + rest);
      RecipientRead(list[n], rest);
      Assoc(AllTo(list[..n]), [To(list[n])], ReadLines(Lines(rest)));
    }
  }

  lemma WireOfExchange(c: Command, text: seq<byte>)
    ensures Wire(Exchange(c, text)) == text
  {
    assert Exchange(c, text)[..1] == [Sent(c, text)];
    assert Wire([Sent(c, text)]) == [] + text;
  }

  /** From the bytes of the envelope a server reads the sender and then every To, CC and BCC recipient, in order. */
  lemma EnvelopeRead(m: Message)
    requires Addressable("MAIL FROM:<", m.from)
    requires forall mail :: mail in m.to + m.cc + m.bcc ==> Addressable("RCPT TO:<", mail)
    ensures ReadLines(Lines(Wire(Envelope(m)))) == [From(m.from)] + AllTo(m.to + m.cc + m.bcc)
  {
    hide Lines, Wire, MailText, Addressable;
    var everyone := m.to + m.cc + m.bcc;
    var mail, rcpt := Exchange(MailFrom, MailText(m.from)), Flatten(Recipients(everyone));
    WireConcat(mail, rcpt);
    WireOfExchange(MailFrom, MailText(m.from));
    SenderRead(m.from, Wire(rcpt));
    RecipientsRead(everyone, []);
    NoLines();
    assert Wire(rcpt) + [] == Wire(rcpt);
    assert AllTo(everyone) + ReadLines(Lines([])) == AllTo(everyone);
  }

  lemma NoLines()
    ensures Lines([]) == []
  {
  }

  // ---------- the header of an attachment ----------

  lemma PrintableBoth(s: string, t: string)
    requires Printable(s) && Printable(t)
    ensures Printable(s + t)
  {
  }

  lemma HeaderWords()
    ensures Printable("Content-Type: " + "application/x-msdownload; name=\"")
    ensures Printable("Content-Transfer-Encoding: base64")
    ensures Printable("Content-Disposition: " + "attachment; filename=\"")
    ensures Printable("--" + BOUNDARY_TEXT)
  {
    hide Printable;
    TypeWords();
    DispositionWords();
    BoundaryWords();
    PrintableBoth("Content-Type: ", "application/x-msdownload; name=\"");
    PrintableBoth("Content-Disposition: ", "attachment; filename=\"");
    PrintableBoth("--", BOUNDARY_TEXT);
  }

  lemma TypeWords()
    ensures Printable("Content-Type: ") && Printable("application/x-msdownload; name=\"")
  {
  }

  lemma DispositionWords()
    ensures Printable("Content-Disposition: ") && Printable("attachment; filename=\"")
  {
  }

  lemma BoundaryWords()
    ensures Printable("--") && Printable(BOUNDARY_TEXT) && Printable("Content-Transfer-Encoding: base64")
  {
  }

  lemma QuoteWord()
    ensures Ascii("\"") == [34] && Printable("=?UTF-8?B?") && Printable("?=")
  {
  }

  // A line that ends in an encoded word (section 2 of RFC 2047) and a quotation mark.
  function Named(word: string, name: seq<byte>): seq<byte> {
    Ascii(word) + (Ascii("=?UTF-8?B?") + Base64.Encode(name) + Ascii("?=")) + [34]
  }

  // The name in such a line.
  function NameIn(word: string, line: seq<byte>): Option<seq<byte>> {
    var from, to := |word| + 10, |line| - 3;
    if from <= to && Ascii(word) + Ascii("=?UTF-8?B?") == line[..from] && line[to..] == Ascii("?=") + [34]
    then Some(Base64.Decode(line[from..to]))
    else None
  }

  lemma NameBack(word: string, name: seq<byte>)
    ensures NameIn(word, Named(word, name)) == Some(name)
  {
    hide Base64.Encode, Base64.Decode;
    Base64.DecodeEncode(name);
    var line, from := Named(word, name), |word| + 10;
    assert line == Ascii(word) + Ascii("=?UTF-8?B?") + Base64.Encode(name) + (Ascii("?=") + [34]);
    assert line[from..|line| - 3] == Base64.Encode(name);
  }

  lemma NamedIsOneLine(word: string, name: seq<byte>)
    requires Printable(word)
    ensures Attachment.OneLine(Named(word, name))
  {
    hide Ascii, Base64.Encode, Printable;
    QuoteWord();
    TextIsOneLine(word);
    TextIsOneLine("=?UTF-8?B?");
    TextIsOneLine("?=");
    Attachment.EncodedIsOneLine(name);
  }

  /** The five lines of a part header, and the name of the file in two of them. */
  lemma PartHeaderRead(name: seq<byte>)
    ensures var lines := Lines(PartHeader(name));
            && |lines| == 5
            && lines[0] == Ascii("--" + BOUNDARY_TEXT)
            && NameIn("Content-Type: " + "application/x-msdownload; name=\"", lines[1]) == Some(name)
            && lines[2] == Ascii("Content-Transfer-Encoding: base64")
            && NameIn("Content-Disposition: " + "attachment; filename=\"", lines[3]) == Some(name)
            && lines[4] == []
  {
    hide Ascii, Base64.Encode, Lines, NameIn, Printable, Named;
    var boundary, encoding := Ascii("--" + BOUNDARY_TEXT), Ascii("Content-Transfer-Encoding: base64");
    var kind := Named("Content-Type: " + "application/x-msdownload; name=\"", name);
    var file := Named("Content-Disposition: " + "attachment; filename=\"", name);
    HeaderLines(name);
    HeaderWords();
    TextIsOneLine("--" + BOUNDARY_TEXT);
    TextIsOneLine("Content-Transfer-Encoding: base64");
    NamedIsOneLine("Content-Type: " + "application/x-msdownload; name=\"", name);
    NamedIsOneLine("Content-Disposition: " + "attachment; filename=\"", name);
    NameBack("Content-Type: " + "application/x-msdownload; name=\"", name);
    NameBack("Content-Disposition: " + "attachment; filename=\"", name);
    FiveLines(boundary, kind, encoding, file);
  }

  // The header is these lines.
  lemma HeaderLines(name: seq<byte>)
    ensures PartHeader(name) ==
            Ascii("--" + BOUNDARY_TEXT) + Attachment.CRLF +
            (Named("Content-Type: " + "application/x-msdownload; name=\"", name) + Attachment.CRLF +
             (Ascii("Content-Transfer-Encoding: base64") + Attachment.CRLF +
              (Named("Content-Disposition: " + "attachment; filename=\"", name) + Attachment.CRLF +
               ([] + Attachment.CRLF + []))))
  {
    hide Ascii, Base64.Encode, Printable;
    QuoteWord();
  }

  lemma FiveLines(a: seq<byte>, b: seq<byte>, c: seq<byte>, d: seq<byte>)
    requires Attachment.OneLine(a) && Attachment.OneLine(b) && Attachment.OneLine(c) && Attachment.OneLine(d)
    ensures Lines(a + Attachment.CRLF + (b + Attachment.CRLF + (c + Attachment.CRLF + (d + Attachment.CRLF +
                  ([] + Attachment.CRLF + []))))) == [a] + ([b] + ([c] + ([d] + ([[]] + []))))
  {
    hide Lines, Attachment.OneLine;
    EmptyLine();
    NoLines();
    FirstLine([], []);
    FirstLine(d, [] + Attachment.CRLF + []);
    FirstLine(c, d + Attachment.CRLF + ([] + Attachment.CRLF + []));
    FirstLine(b, c + Attachment.CRLF + (d + Attachment.CRLF + ([] + Attachment.CRLF + [])));
    FirstLine(a, b + Attachment.CRLF + (c + Attachment.CRLF + (d + Attachment.CRLF + ([] + Attachment.CRLF + []))));
  }

  lemma EmptyLine()
    ensures Attachment.OneLine([])
  {
  }
}

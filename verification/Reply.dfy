/** The incremental reply parser of CSmtp::ReceiveResponse and the replies of section 4.2.1 of RFC 5321. */
module Reply {
  import opened Basics

  const CR := '\r'
  const LF := '\n'

  // ---------- replies as a grammar ----------

  // The length of the first CRLF-terminated line, its CRLF included; 0 when there is none.
  function LineLength(s: string): (n: nat)
    ensures n <= |s| && n != 1
    ensures n > 0 ==> s[n - 2] == CR && s[n - 1] == LF
    ensures forall i :: 0 <= i < (if n > 0 then n - 2 else |s| - 1) ==> !(s[i] == CR && s[i + 1] == LF)
  {
    if |s| < 2 then 0
    else if s[0] == CR && s[1] == LF then 2
    else var n := LineLength(s[1..]); if n == 0 then 0 else n + 1
  }

  predicate Digit(c: char) { '0' <= c <= '9' }

  // XYZ<CRLF> or XYZ<SP>...<CRLF>: the line that ends a reply.
  predicate IsFinal(line: string) {
    |line| >= 5 && Digit(line[0]) && Digit(line[1]) && Digit(line[2]) && (|line| == 5 || line[3] == ' ')
  }

  function Code(line: string): nat
    requires IsFinal(line)
  {
    (line[0] - '0') as int * 100 + (line[1] - '0') as int * 10 + (line[2] - '0') as int
  }

  predicate IsLine(line: string) { |line| > 0 && LineLength(line) == |line| }

  // Complete lines, of which the last and only the last ends the reply.
  predicate IsReply(lines: seq<string>) {
    lines != [] && IsLine(lines[0]) &&
    if |lines| == 1 then IsFinal(lines[0]) else !IsFinal(lines[0]) && IsReply(lines[1..])
  }

  function ReplyCode(lines: seq<string>): nat
    requires IsReply(lines)
  {
    if |lines| == 1 then Code(lines[0]) else ReplyCode(lines[1..])
  }

  ghost predicate StartsWithReply(s: string, code: nat) {
    exists lines: seq<string> :: IsReply(lines) && Flatten(lines) <= s && ReplyCode(lines) == code
  }

  // Skips lines until one ends the reply.
  function Parse(s: string): Option<nat>
    decreases |s|
  {
    var n := LineLength(s);
    if n == 0 then None
    else if IsFinal(s[..n]) then Some(Code(s[..n]))
    else Parse(s[n..])
  }

  lemma {:induction false} ParsedLength(s: string)
    requires Parse(s).Some?
    ensures |s| >= 5
    decreases |s|
  {
    var n := LineLength(s);
    if !IsFinal(s[..n]) {
      ParsedLength(s[n..]);
    }
  }

  lemma {:induction false} LineLengthIs(s: string, n: nat)
    requires 2 <= n <= |s| && s[n - 2] == CR && s[n - 1] == LF
    requires forall i :: 0 <= i < n - 2 ==> !(s[i] == CR && s[i + 1] == LF)
    ensures LineLength(s) == n
  {
    if n > 2 {
      LineLengthIs(s[1..], n - 1);
    }
  }

  lemma LineLengthGrows(s: string, t: string)
    requires LineLength(s) > 0
    ensures LineLength(s + t) == LineLength(s)
  {
    LineLengthIs(s + t, LineLength(s));
  }

  /** More bytes never change an answer that has been found. */
  lemma {:induction false} ParseGrows(s: string, t: string)
    requires Parse(s).Some?
    ensures Parse(s + t) == Parse(s)
    decreases |s|
  {
    hide LineLength, IsFinal, Code;
    LineLengthGrows(s, t);
    assert (s + t)[..LineLength(s)] == s[..LineLength(s)] && (s + t)[LineLength(s)..] == s[LineLength(s)..] + t;
    if !IsFinal(s[..LineLength(s)]) {
      ParseGrows(s[LineLength(s)..], t);
    }
  }

  lemma OneLineReply(line: string, rest: string)
    requires IsLine(line) && IsFinal(line)
    ensures StartsWithReply(line + rest, Code(line))
  {
    assert IsReply([line]) && ReplyCode([line]) == Code(line);
    FlattenFront(line, []);
    assert [line] + [] == [line];
  }

  lemma PrependLine(line: string, lines: seq<string>)
    requires IsLine(line) && !IsFinal(line) && IsReply(lines)
    ensures var all := [line] + lines;
            IsReply(all) && ReplyCode(all) == ReplyCode(lines) && Flatten(all) == line + Flatten(lines)
  {
    assert ([line] + lines)[1..] == lines;
    FlattenFront(line, lines);
  }

  lemma LineBeforeReply(line: string, rest: string, code: nat)
    requires IsLine(line) && !IsFinal(line) && StartsWithReply(rest, code)
    ensures StartsWithReply(line + rest, code)
  {
    var lines :| IsReply(lines) && Flatten(lines) <= rest && ReplyCode(lines) == code;
    PrependLine(line, lines);
    assert Flatten([line] + lines) <= line + rest;
  }

  lemma {:induction false} ParseFindsReply(s: string)
    requires Parse(s).Some?
    ensures StartsWithReply(s, Parse(s).value)
    decreases |s|
  {
    hide LineLength, IsFinal, Code, StartsWithReply;
    var line, rest := s[..LineLength(s)], s[LineLength(s)..];
    LineLengthIs(line, LineLength(s));
    assert s == line + rest;
    if IsFinal(line) {
      OneLineReply(line, rest);
    } else {
      ParseFindsReply(rest);
      LineBeforeReply(line, rest, Parse(s).value);
    }
  }

  lemma {:induction false} ReplyIsParsed(lines: seq<string>, tail: string)
    requires IsReply(lines)
    ensures Parse(Flatten(lines) + tail) == Some(ReplyCode(lines))
    decreases |lines|
  {
    hide Parse, Flatten, Code, IsFinal, IsLine;
    FlattenFront(lines[0], lines[1..]);
    assert lines == [lines[0]] + lines[1..];
    ParseAfterLine(lines[0], Flatten(lines[1..]) + tail);
    Assoc(lines[0], Flatten(lines[1..]), tail);
    if |lines| > 1 {
      ReplyIsParsed(lines[1..], tail);
    }
  }

  lemma ParseAfterLine(line: string, rest: string)
    requires IsLine(line)
    ensures Parse(line + rest) == if IsFinal(line) then Some(Code(line)) else Parse(rest)
  {
    LineLengthGrows(line, rest);
    assert (line + rest)[..|line|] == line && (line + rest)[|line|..] == rest;
  }

  lemma ReplyAtStart(s: string, code: nat)
    requires StartsWithReply(s, code)
    ensures Parse(s) == Some(code)
  {
    var lines :| IsReply(lines) && Flatten(lines) <= s && ReplyCode(lines) == code;
    var front := Flatten(lines);
    ReplyIsParsed(lines, s[|front|..]);
    assert s == front + s[|front|..];
  }

  /** Parsing finds a code exactly when the stream starts with a reply that carries it. */
  lemma ParseMeansReply(s: string, code: nat)
    ensures Parse(s) == Some(code) <==> StartsWithReply(s, code)
  {
    if Parse(s) == Some(code) {
      ParseFindsReply(s);
    } else if StartsWithReply(s, code) {
      ReplyAtStart(s, code);
    }
  }

  // ---------- codes in decimal ----------

  const DIGITS: string := "0123456789"

  // The three decimal digits of c.
  function Decimal(c: nat): string
    requires c < 1000
  {
    [DIGITS[c / 100], DIGITS[c / 10 % 10], DIGITS[c % 10]]
  }

  predicate NoCrLf(text: string) { forall i :: 0 <= i < |text| - 1 ==> !(text[i] == CR && text[i + 1] == LF) }

  lemma DigitIs(d: nat)
    requires d < 10
    ensures Digit(DIGITS[d]) && (DIGITS[d] - '0') as int == d
  {
  }

  lemma OneLine(text: string)
    requires NoCrLf(text)
    ensures IsLine(text + [CR, LF])
  {
    var line := text + [CR, LF];
    forall i | 0 <= i < |line| - 2
      ensures !(line[i] == CR && line[i + 1] == LF)
    {
      assert line[i] == text[i] && (i + 1 < |text| ==> line[i + 1] == text[i + 1]);
    }
    LineLengthIs(line, |line|);
  }

  // A line made of a code and what follows it.
  lemma CodeLine(c: nat, tail: string)
    requires c < 1000 && NoCrLf(Decimal(c) + tail)
    ensures var line := Decimal(c) + tail + [CR, LF];
            && IsLine(line)
            && (IsFinal(line) <==> tail == "" || tail[0] == ' ')
            && (IsFinal(line) ==> Code(line) == c)
  {
    hide IsLine, NoCrLf, IsFinal, Code;
    OneLine(Decimal(c) + tail);
    assert tail != "" ==> (Decimal(c) + tail + [CR, LF])[3] == tail[0];
    DigitsAddUp(c);
    CodeOf(Decimal(c) + tail + [CR, LF], c / 100, c / 10 % 10, c % 10);
  }

  lemma DigitsAddUp(c: nat)
    requires c < 1000
    ensures c == c / 100 * 100 + c / 10 % 10 * 10 + c % 10
  {
  }

  lemma CodeOf(line: string, hundreds: nat, tens: nat, ones: nat)
    requires |line| >= 5 && hundreds < 10 && tens < 10 && ones < 10
    requires line[0] == DIGITS[hundreds] && line[1] == DIGITS[tens] && line[2] == DIGITS[ones]
    ensures IsFinal(line) <==> |line| == 5 || line[3] == ' '
    ensures IsFinal(line) ==> Code(line) == hundreds * 100 + tens * 10 + ones
  {
    hide Digit;
    DigitIs(hundreds);
    DigitIs(tens);
    DigitIs(ones);
  }

  /** The code of a reply is the number its three digits spell: alone on the line, or before a space and any text. A
      dash after them never ends a reply. */
  lemma CodeIsDecimal(c: nat, text: string, rest: string)
    requires c < 1000 && NoCrLf(text)
    ensures Parse(Decimal(c) + [CR, LF] + rest) == Some(c)
    ensures Parse(Decimal(c) + " " + text + [CR, LF] + rest) == Some(c)
    ensures Parse(Decimal(c) + "-" + text + [CR, LF] + rest) == Parse(rest)
  {
    hide Parse, IsFinal, IsLine, Code;
    NoBreak(c, "", text);
    NoBreak(c, " ", text);
    NoBreak(c, "-", text);
    CodeLine(c, "");
    CodeLine(c, " " + text);
    CodeLine(c, "-" + text);
    ParseAfterLine(Decimal(c) + "" + [CR, LF], rest);
    ParseAfterLine(Decimal(c) + (" " + text) + [CR, LF], rest);
    ParseAfterLine(Decimal(c) + ("-" + text) + [CR, LF], rest);
    assert Decimal(c) + "" == Decimal(c);
    Assoc(Decimal(c), " ", text);
    Assoc(Decimal(c), "-", text);
  }

  lemma NoBreak(c: nat, mark: string, text: string)
    requires c < 1000 && NoCrLf(text) && (mark == "" || mark == " " || mark == "-")
    ensures NoCrLf(Decimal(c) + (if mark == "" then "" else mark + text))
  {
    DigitIs(c / 100);
    DigitIs(c / 10 % 10);
    DigitIs(c % 10);
  }

  // ---------- receiving ----------

  // What line.append(RecvBuf) takes from a received chunk: everything before the first NUL.
  function UpToNul(chunk: string): (s: string)
    ensures s <= chunk && ('\0' !in chunk ==> s == chunk)
  {
    if chunk == "" || chunk[0] == '\0' then "" else [chunk[0]] + UpToNul(chunk[1..])
  }

  function Received(chunks: seq<string>): string {
    if chunks == [] then "" else Received(chunks[..|chunks| - 1]) + UpToNul(chunks[|chunks| - 1])
  }

  lemma {:induction false} NulFreeReceived(chunks: seq<string>)
    requires forall i :: 0 <= i < |chunks| ==> '\0' !in chunks[i]
    ensures Received(chunks) == Flatten(chunks)
  {
    if chunks != [] {
      NulFreeReceived(chunks[..|chunks| - 1]);
    }
  }

  // Advances to the next CRLF, or to the end when there is none.
  method SkipToCrlf(line: string, from: nat) returns (offset: nat)
    requires from <= |line|
    ensures from <= offset <= |line|
    ensures offset + 1 < |line| ==> line[offset] == CR && line[offset + 1] == LF
    ensures forall i :: from <= i < offset && i + 1 < |line| ==> !(line[i] == CR && line[i + 1] == LF)
    ensures offset + 1 >= |line| ==> LineLength(line[from..]) == 0
  {
    offset := from;
    while offset + 1 < |line| && !(line[offset] == CR && line[offset + 1] == LF)
      invariant from <= offset <= |line|
      invariant forall i :: from <= i < offset && i + 1 < |line| ==> !(line[i] == CR && line[i + 1] == LF)
    {
      offset := offset + 1;
    }
  }

  // The scan over everything received so far, restarted at the first byte.
  method ScanLines(line: string) returns (found: Option<nat>)
    ensures found == Parse(line)
  {
    var begin, offset := 0, 0;
    assert line[0..] == line;
    while true
      invariant 0 <= begin == offset <= |line|
      invariant Parse(line) == Parse(line[begin..])
      decreases |line| - begin
    {
      offset := SkipToCrlf(line, offset);
      if offset + 1 < |line| {
        offset := offset + 2;
        ScannedLine(line, begin, offset);
        if IsFinal(line[begin..offset]) {
          return Some(Code(line[begin..offset]));
        }
        begin := offset;
      } else {
        return None;
      }
    }
  }

  lemma ScannedLine(s: string, begin: nat, end: nat)
    requires begin + 2 <= end <= |s| && s[end - 2] == CR && s[end - 1] == LF
    requires forall i :: begin <= i < end - 2 ==> !(s[i] == CR && s[i + 1] == LF)
    ensures Parse(s[begin..]) == if IsFinal(s[begin..end]) then Some(Code(s[begin..end])) else Parse(s[end..])
  {
    hide Parse, IsFinal, Code;
    var line := s[begin..end];
    assert line[end - begin - 2] == CR && line[end - begin - 1] == LF;
    LineLengthIs(line, end - begin);
    ParseAfterLine(line, s[end..]);
    assert s[begin..] == line + s[end..];
  }

  // What a call of ReceiveData brings: a chunk, or an error it throws.
  datatype Incoming<E> = Chunk(text: string) | Broken(error: E)

  // The chunks before the first error.
  function Chunks<E>(inbox: seq<Incoming<E>>): (chunks: seq<string>)
    ensures |chunks| <= |inbox|
  {
    if inbox == [] || inbox[0].Broken? then [] else [inbox[0].text] + Chunks(inbox[1..])
  }

  lemma {:induction false} ChunkAt<E>(inbox: seq<Incoming<E>>, i: nat)
    requires i <= |Chunks(inbox)|
    ensures i < |Chunks(inbox)| <==> i < |inbox| && inbox[i].Chunk?
    ensures i < |Chunks(inbox)| ==> Chunks(inbox)[i] == inbox[i].text
  {
    if i > 0 {
      ChunkAt(inbox[1..], i - 1);
    }
  }

  lemma ReceivedNext(chunks: seq<string>, i: nat)
    requires i < |chunks|
    ensures Received(chunks[..i + 1]) == Received(chunks[..i]) + UpToNul(chunks[i])
  {
    assert chunks[..i + 1][..i] == chunks[..i];
  }

  predicate NothingBefore(chunks: seq<string>, n: nat)
    requires n <= |chunks|
  {
    forall k :: 0 <= k < n ==> Parse(Received(chunks[..k])) == None
  }

  /** Appends chunk after chunk until the text received so far holds a complete reply. */
  method ReceiveReply<E>(inbox: seq<Incoming<E>>) returns (code: Option<nat>, text: string, used: nat)
    ensures used <= |Chunks(inbox)| && text == Received(Chunks(inbox)[..used])
    ensures code == Parse(text) == Parse(Received(Chunks(inbox)))
    ensures code.None? ==> used == |Chunks(inbox)|
    ensures NothingBefore(Chunks(inbox), used)
  {
    ghost var chunks := Chunks(inbox);
    text, code, used := "", None, 0;
    assert chunks[..0] == [];
    ChunkAt(inbox, 0);
    while code.None? && used < |inbox| && inbox[used].Chunk?
      invariant used <= |chunks| && text == Received(chunks[..used]) && code == Parse(text)
      invariant used < |chunks| <==> used < |inbox| && inbox[used].Chunk?
      invariant NothingBefore(chunks, used)
      decreases |inbox| - used
    {
      ChunkAt(inbox, used);
      ChunkAt(inbox, used + 1);
      ReceivedNext(chunks, used);
      text := text + UpToNul(inbox[used].text);
      used := used + 1;
      code := ScanLines(text);
    }
    AnswerStays(chunks, used);
  }

  lemma AnswerStays(chunks: seq<string>, used: nat)
    requires used <= |chunks| && (used < |chunks| ==> Parse(Received(chunks[..used])).Some?)
    ensures Parse(Received(chunks)) == Parse(Received(chunks[..used]))
  {
    if used < |chunks| {
      ReceivedSplit(chunks, used);
      ParseGrows(Received(chunks[..used]), Received(chunks[used..]));
    } else {
      assert chunks[..used] == chunks;
    }
  }

  lemma {:induction false} ReceivedSplit(chunks: seq<string>, k: nat)
    requires k <= |chunks|
    ensures Received(chunks) == Received(chunks[..k]) + Received(chunks[k..])
    decreases |chunks|
  {
    if k < |chunks| {
      var front := chunks[..|chunks| - 1];
      ReceivedSplit(front, k);
      assert front[..k] == chunks[..k];
      assert chunks[k..][..|chunks| - k - 1] == front[k..];
    } else {
      assert chunks[..k] == chunks && chunks[k..] == [];
    }
  }

  // How many chunks it takes until a reply is complete; all of them when none is.
  function Needed(chunks: seq<string>): (n: nat)
    ensures n <= |chunks|
  {
    var last := |chunks| - 1;
    if chunks != [] && Parse(Received(chunks[..last])).Some? then Needed(chunks[..last]) else |chunks|
  }

  lemma {:induction false} NeededParses(chunks: seq<string>)
    requires Parse(Received(chunks)).Some?
    ensures Parse(Received(chunks[..Needed(chunks)])).Some?
  {
    hide Parse, Received;
    var last := |chunks| - 1;
    if chunks != [] && Parse(Received(chunks[..last])).Some? {
      NeededParses(chunks[..last]);
      assert chunks[..last][..Needed(chunks)] == chunks[..Needed(chunks)];
    } else {
      assert chunks[..|chunks|] == chunks;
    }
  }

  lemma {:induction false} NeededIs(chunks: seq<string>, used: nat)
    requires used <= |chunks| && NothingBefore(chunks, used) && Parse(Received(chunks[..used])).Some?
    ensures Needed(chunks) == used
  {
    hide Parse, Received;
    if used < |chunks| {
      var front := chunks[..|chunks| - 1];
      assert forall k :: 0 <= k <= used ==> front[..k] == chunks[..k];
      AnswerStays(front, used);
      NeededIs(front, used);
    } else {
      assert chunks != [] ==> Parse(Received(chunks[..|chunks| - 1])) == None;
    }
  }

  /** Two ways of cutting the same stream give the same code, or both none. */
  lemma CuttingIrrelevant(p: seq<string>, q: seq<string>, i: nat, j: nat)
    requires Received(p) == Received(q) && i <= |p| && j <= |q|
    requires Parse(Received(p[..i])).Some? && Parse(Received(q[..j])).Some?
    ensures Parse(Received(p[..i])) == Parse(Received(q[..j]))
  {
    ReceivedSplit(p, i);
    ReceivedSplit(q, j);
    ParseGrows(Received(p[..i]), Received(p[i..]));
    ParseGrows(Received(q[..j]), Received(q[j..]));
  }
}

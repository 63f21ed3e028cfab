/** How a server reads the content of a message (section 4.5.2 of RFC 5321), and what becomes of lines with a dot. */
module EndOfData {
  import opened Basics
  import opened Bytes
  import opened Protocol
  import opened Attachment
  import Base64

  // ---------- the server ----------

  // A line that is a single dot.
  predicate DotLine(s: seq<byte>, start: bool) { start && |s| >= 3 && s[0] == 46 && s[1] == 13 && s[2] == 10 }

  predicate NewLine(s: seq<byte>) { |s| >= 2 && s[0] == 13 && s[1] == 10 }

  // What the server keeps of s: the lines up to a single dot, without the first dot of any other. `start` says whether
  // s begins a line.
  function TextOf(s: seq<byte>, start: bool): seq<byte>
    decreases |s|
  {
    if s == [] || DotLine(s, start) then []
    else if start && s[0] == 46 then TextOf(s[1..], false)
    else if NewLine(s) then CRLF + TextOf(s[2..], true)
    else [s[0]] + TextOf(s[1..], false)
  }

  // What it reads as commands after that.
  function RestOf(s: seq<byte>, start: bool): seq<byte>
    decreases |s|
  {
    if s == [] then []
    else if DotLine(s, start) then s[3..]
    else if NewLine(s) then RestOf(s[2..], true)
    else RestOf(s[1..], false)
  }

  // ---------- dots and marks ----------

  // A line end with a dot after it, and a whole end mark.
  predicate DotAt(s: seq<byte>, k: nat) { k + 3 <= |s| && s[k] == 13 && s[k + 1] == 10 && s[k + 2] == 46 }

  predicate MarkAt(s: seq<byte>, k: nat) { DotAt(s, k) && k + 5 <= |s| && s[k + 3] == 13 && s[k + 4] == 10 }

  ghost predicate HasDot(s: seq<byte>) { exists k: nat :: DotAt(s, k) }

  ghost predicate HasMark(s: seq<byte>) { exists k: nat :: MarkAt(s, k) }

  // What stands before the first byte of a line.
  function Front(start: bool): seq<byte> { if start then CRLF else [] }

  lemma NextByte(c: byte, s: seq<byte>)
    ensures HasDot([c] + s) <==> DotAt([c] + s, 0) || HasDot(s)
    ensures HasMark([c] + s) <==> MarkAt([c] + s, 0) || HasMark(s)
  {
    var t := [c] + s;
    assert forall k: nat :: (DotAt(s, k) <==> DotAt(t, k + 1)) && (MarkAt(s, k) <==> MarkAt(t, k + 1));
    if HasDot(t) && !DotAt(t, 0) {
      var k: nat :| DotAt(t, k);
      assert DotAt(s, k - 1);
    }
    if HasMark(t) && !MarkAt(t, 0) {
      var k: nat :| MarkAt(t, k);
      assert MarkAt(s, k - 1);
    }
  }

  // A byte that begins neither a line end nor, at the start of a line, a dot.
  lemma PlainByte(c: byte, s: seq<byte>, start: bool)
    requires !NewLine([c] + s) && !(start && c == 46)
    ensures HasDot(Front(start) + [c] + s) <==> HasDot(s)
    ensures HasMark(Front(start) + [c] + s) <==> HasMark(s)
  {
    hide HasDot, HasMark;
    NextByte(c, s);
    if start {
      NextByte(10, [c] + s);
      NextByte(13, [10] + ([c] + s));
      assert CRLF + [c] + s == [13] + ([10] + ([c] + s));
    } else {
      assert [] + [c] + s == [c] + s;
    }
  }

  // A line end.
  lemma LineByte(s: seq<byte>, start: bool)
    ensures HasDot(Front(start) + CRLF + s) <==> HasDot(CRLF + s)
    ensures HasMark(Front(start) + CRLF + s) <==> HasMark(CRLF + s)
  {
    hide HasDot, HasMark;
    if start {
      NextByte(10, CRLF + s);
      NextByte(13, [10] + (CRLF + s));
      assert CRLF + CRLF + s == [13] + ([10] + (CRLF + s));
    } else {
      assert [] + CRLF + s == CRLF + s;
    }
  }

  // A dot at the start of a line.
  lemma DotByte(s: seq<byte>)
    ensures HasDot(CRLF + [46] + s)
    ensures HasMark(CRLF + [46] + s) <==> NewLine(s) || HasMark(s)
  {
    hide HasMark;
    var t := CRLF + [46] + s;
    assert DotAt(t, 0);
    NextByte(46, s);
    NextByte(10, [46] + s);
    NextByte(13, [10] + ([46] + s));
    assert t == [13] + ([10] + ([46] + s));
    assert MarkAt(t, 0) <==> NewLine(s);
  }

  lemma DotOver(b: seq<byte>, end: seq<byte>)
    ensures HasDot(CRLF + ([46] + b) + end)
    ensures HasMark(CRLF + ([46] + b) + end) <==> NewLine(b + end) || HasMark(b + end)
  {
    hide HasDot, HasMark;
    DotByte(b + end);
    assert CRLF + ([46] + b) + end == CRLF + [46] + (b + end);
  }

  lemma LineOver(b: seq<byte>, end: seq<byte>, start: bool)
    ensures HasDot(Front(start) + (CRLF + b) + end) <==> HasDot(CRLF + b + end)
    ensures HasMark(Front(start) + (CRLF + b) + end) <==> HasMark(CRLF + b + end)
  {
    hide HasDot, HasMark, Front;
    LineByte(b + end, start);
    assert Front(start) + (CRLF + b) + end == Front(start) + CRLF + (b + end);
    assert CRLF + b + end == CRLF + (b + end);
  }

  lemma PlainOver(c: byte, b: seq<byte>, end: seq<byte>, start: bool)
    requires !NewLine([c] + (b + end)) && !(start && c == 46)
    ensures HasDot(Front(start) + ([c] + b) + end) <==> HasDot(b + end)
    ensures HasMark(Front(start) + ([c] + b) + end) <==> HasMark(b + end)
  {
    hide HasDot, HasMark, Front;
    PlainByte(c, b + end, start);
    assert Front(start) + ([c] + b) + end == Front(start) + [c] + (b + end);
  }

  // How the dots of a text carry over to the rest of it; `end` is what follows the text.
  lemma StepOver(a: seq<byte>, end: seq<byte>, start: bool)
    requires a != [] && (end == [] || end == CRLF)
    ensures var t := Front(start) + a + end;
            if start && a[0] == 46 then
              HasDot(t) && (HasMark(t) <==> NewLine(a[1..] + end) || HasMark(Front(false) + a[1..] + end))
            else if NewLine(a) then
              && (HasDot(t) <==> HasDot(Front(true) + a[2..] + end))
              && (HasMark(t) <==> HasMark(Front(true) + a[2..] + end))
            else
              && (HasDot(t) <==> HasDot(Front(false) + a[1..] + end))
              && (HasMark(t) <==> HasMark(Front(false) + a[1..] + end))
  {
    hide HasDot, HasMark;
    assert Front(false) + a[1..] + end == a[1..] + end && a == [a[0]] + a[1..];
    if start && a[0] == 46 {
      DotOver(a[1..], end);
    } else if NewLine(a) {
      LineOver(a[2..], end, start);
      assert a == CRLF + a[2..];
    } else {
      PlainOver(a[0], a[1..], end, start);
    }
  }

  // ---------- reading up to a line end ----------

  lemma {:induction false} RestAfter(a: seq<byte>, t: seq<byte>, start: bool)
    ensures if HasMark(Front(start) + a + CRLF) then |RestOf(a + CRLF + t, start)| >= |t|
            else RestOf(a + CRLF + t, start) == RestOf(t, true)
    decreases |a|
  {
    hide HasMark, HasDot;
    var s := a + CRLF + t;
    if a == [] {
      assert s == CRLF + t && s[2..] == t;
      NoMarkYet(start);
    } else {
      StepOver(a, CRLF, start);
      if NewLine(a) {
        assert s[2..] == a[2..] + CRLF + t;
        RestAfter(a[2..], t, true);
      } else {
        assert s[1..] == a[1..] + CRLF + t;
        RestAfter(a[1..], t, false);
      }
    }
  }

  lemma NoMarkYet(start: bool)
    ensures !HasMark(Front(start) + [] + CRLF)
  {
  }

  lemma {:induction false} TextAfter(a: seq<byte>, next: seq<byte>, start: bool)
    ensures if HasDot(Front(start) + a + []) then |TextOf(a + FINAL_DOT + next, start)| < |a| + 2
            else TextOf(a + FINAL_DOT + next, start) == a + CRLF
    decreases |a|
  {
    hide HasDot, HasMark;
    var s := a + FINAL_DOT + next;
    if a == [] {
      LastText(next, start);
      NoDotYet(start);
      assert s == FINAL_DOT + next;
    } else {
      StepOver(a, [], start);
      if NewLine(a) {
        assert s[2..] == a[2..] + FINAL_DOT + next;
        TextAfter(a[2..], next, true);
        assert TextOf(s, start) == CRLF + TextOf(s[2..], true);
      } else {
        assert s[1..] == a[1..] + FINAL_DOT + next;
        TextAfter(a[1..], next, false);
      }
    }
  }

  lemma LastText(next: seq<byte>, start: bool)
    ensures TextOf(FINAL_DOT + next, start) == CRLF
  {
    var s := FINAL_DOT + next;
    assert DotLine(s[2..], true);
    assert TextOf(s, start) == CRLF + TextOf(s[2..], true);
  }

  lemma NoDotYet(start: bool)
    ensures !HasDot(Front(start) + [] + [])
  {
  }

  // The server stops at the final dot exactly when no end mark stands before it.
  lemma StopsAtMark(a: seq<byte>, next: seq<byte>)
    ensures RestOf(a + FINAL_DOT + next, true) == next <==> !HasMark(CRLF + a + CRLF)
  {
    hide HasMark;
    var t := [46, 13, 10] + next;
    assert a + FINAL_DOT + next == a + CRLF + t;
    RestAfter(a, t, true);
    assert RestOf(t, true) == t[3..] == next;
  }

  // It keeps exactly what was meant when no line begins with a dot.
  lemma KeepsUndotted(a: seq<byte>, next: seq<byte>)
    ensures TextOf(a + FINAL_DOT + next, true) == a + CRLF <==> !HasDot(CRLF + a)
  {
    hide HasDot;
    TextAfter(a, next, true);
    assert CRLF + a + [] == CRLF + a;
  }

  // ---------- attachments hold no dot ----------

  predicate NoDot(s: seq<byte>) { forall i :: 0 <= i < |s| ==> s[i] != 46 }

  lemma NoDotBoth(s: seq<byte>, t: seq<byte>)
    requires NoDot(s) && NoDot(t)
    ensures NoDot(s + t)
  {
  }

  lemma NoDotEmpty()
    ensures NoDot([])
  {
  }

  predicate NoDotText(s: string) { forall i :: 0 <= i < |s| ==> s[i] < 128 as char && s[i] != '.' }

  lemma NoDotAscii(s: string)
    requires NoDotText(s)
    ensures NoDot(Ascii(s))
  {
    forall i | 0 <= i < |s|
      ensures Ascii(s)[i] != 46
    {
      assert s[i] as int != 46;
      assert Ascii(s)[i] == (s[i] as int % 256) as bv8;
    }
  }

  lemma {:induction false} NoDotEncoded(x: seq<byte>)
    ensures NoDot(Base64.Encode(x))
  {
    hide NoDot;
    if x == [] {
      NoDotEmpty();
    } else {
      var b := if |x| > 1 then x[1] else 0;
      var c := if |x| > 2 then x[2] else 0;
      NoDotGroup(x[0], b, c);
      if |x| > 2 {
        NoDotEncoded(x[3..]);
        NoDotBoth(Base64.EncodeGroup(x[0], b, c), Base64.Encode(x[3..]));
      }
    }
  }

  lemma NoDotGroup(a: byte, b: byte, c: byte)
    ensures var group := Base64.EncodeGroup(a, b, c);
            NoDot(group) && NoDot(group[..2] + [Base64.PAD, Base64.PAD]) && NoDot(group[..3] + [Base64.PAD])
  {
  }

  lemma {:induction false} NoDotJoined(rows: seq<Row>)
    requires forall i :: 0 <= i < |rows| ==> NoDot(rows[i].line)
    ensures NoDot(Joined(rows))
  {
    hide NoDot;
    if rows == [] {
      NoDotEmpty();
    } else {
      NoDotJoined(rows[1..]);
      NoDotBoth(rows[0].line, Joined(rows[1..]));
    }
  }

  lemma NoDotFile(file: seq<byte>)
    ensures NoDot(Flatten(Blocks(file, BUFFER_SIZE)))
  {
    hide NoDot, Blocks, Joined;
    BlocksCarryFile(file, BUFFER_SIZE);
    forall i | 0 <= i < Rounds(file)
      ensures NoDot(Line(file, i))
    {
      NoDotLine(Piece(file, i));
    }
    NoDotJoined(Rows(file));
  }

  lemma NoDotLine(piece: seq<byte>)
    ensures NoDot(Base64.Encode(piece) + CRLF)
  {
    hide Base64.Encode;
    NoDotEncoded(piece);
  }

  lemma NoDotName(name: seq<byte>)
    ensures NoDot(Ascii("=?UTF-8?B?") + Base64.Encode(name) + Ascii("?="))
  {
    hide NoDot, Base64.Encode, Ascii;
    NoDotAscii("=?UTF-8?B?");
    NoDotEncoded(name);
    NoDotAscii("?=");
    NoDotBoth(Ascii("=?UTF-8?B?"), Base64.Encode(name));
    NoDotBoth(Ascii("=?UTF-8?B?") + Base64.Encode(name), Ascii("?="));
  }

  lemma BoundaryTexts()
    ensures NoDotText("--") && NoDotText(BOUNDARY_TEXT) && NoDotText("\r\n--" + BOUNDARY_TEXT + "--\r\n")
  {
  }

  lemma TypeTexts()
    ensures NoDotText("Content-Type: ") && NoDotText("application/x-msdownload; name=\"")
  {
  }

  lemma DispositionTexts()
    ensures NoDotText("Content-Disposition: ") && NoDotText("attachment; filename=\"")
  {
  }

  lemma EncodingText()
    ensures NoDotText("Content-Transfer-Encoding: base64") && NoDotText("\"") && NoDot(CRLF)
  {
  }

  lemma NoDotTextBoth(s: string, t: string)
    requires NoDotText(s) && NoDotText(t)
    ensures NoDotText(s + t)
  {
  }

  lemma HeaderTexts()
    ensures NoDotText("--" + BOUNDARY_TEXT) && NoDotText("Content-Transfer-Encoding: base64")
    ensures NoDotText("Content-Type: " + "application/x-msdownload; name=\"")
    ensures NoDotText("Content-Disposition: " + "attachment; filename=\"")
    ensures NoDotText("\"") && NoDot(CRLF)
  {
    hide NoDotText;
    BoundaryTexts();
    TypeTexts();
    DispositionTexts();
    EncodingText();
    NoDotTextBoth("--", BOUNDARY_TEXT);
    NoDotTextBoth("Content-Type: ", "application/x-msdownload; name=\"");
    NoDotTextBoth("Content-Disposition: ", "attachment; filename=\"");
  }

  lemma NoDotHeader(name: seq<byte>)
    ensures NoDot(PartHeader(name)) && |PartHeader(name)| > 0 && PartHeader(name)[0] == 45
  {
    hide Base64.Encode, Ascii, NoDotText;
    HeaderTexts();
    NoDotName(name);
    NoDotAscii("--" + BOUNDARY_TEXT);
    NoDotAscii("Content-Type: " + "application/x-msdownload; name=\"");
    NoDotAscii("\"");
    NoDotAscii("Content-Transfer-Encoding: base64");
    NoDotAscii("Content-Disposition: " + "attachment; filename=\"");
    StartsWithDash();
  }

  lemma StartsWithDash()
    ensures var first := Ascii("--" + BOUNDARY_TEXT); |first| > 0 && first[0] == 45
  {
  }

  // What follows the text of the message: the parts of the attachments and the closing boundary.
  function Attached(m: Message): seq<byte> {
    Flatten(Flatten(Parts(m.attachments)) + Closing(m.attachments))
  }

  lemma ContentIs(m: Message)
    ensures Flatten(Content(m)) == Flatten(TextBlocks(m)) + Attached(m)
  {
    hide TextBlocks, Parts, Closing, Flatten;
    Assoc(TextBlocks(m), Flatten(Parts(m.attachments)), Closing(m.attachments));
    FlattenConcat(TextBlocks(m), Flatten(Parts(m.attachments)) + Closing(m.attachments));
  }

  lemma {:induction false} NoDotDeep(parts: seq<seq<seq<byte>>>)
    requires forall i :: 0 <= i < |parts| ==> NoDot(Flatten(parts[i]))
    ensures NoDot(Flatten(Flatten(parts)))
  {
    hide NoDot;
    if parts == [] {
      NoDotEmpty();
    } else {
      var n := |parts| - 1;
      NoDotDeep(parts[..n]);
      FlattenConcat(Flatten(parts[..n]), parts[n]);
      NoDotBoth(Flatten(Flatten(parts[..n])), Flatten(parts[n]));
    }
  }

  lemma NoDotPart(f: File)
    ensures NoDot(Flatten(FileBlocks(f)))
  {
    hide NoDot, PartHeader, Blocks, Flatten;
    FlattenFront(PartHeader(f.name), Blocks(f.content, BUFFER_SIZE));
    NoDotHeader(f.name);
    NoDotFile(f.content);
    NoDotBoth(PartHeader(f.name), Flatten(Blocks(f.content, BUFFER_SIZE)));
  }

  lemma NoDotClosing(files: seq<File>)
    ensures NoDot(Flatten(Closing(files)))
  {
    hide NoDot, Ascii;
    if files == [] {
      NoDotEmpty();
    } else {
      var closing := Snprintf(Ascii("\r\n--" + BOUNDARY_TEXT + "--\r\n"));
      BoundaryTexts();
      NoDotAscii("\r\n--" + BOUNDARY_TEXT + "--\r\n");
      NoDotCut(Ascii("\r\n--" + BOUNDARY_TEXT + "--\r\n"));
      FlattenFront(closing, []);
      assert [closing] + [] == [closing] && closing + Flatten([]) == closing;
    }
  }

  lemma NoDotCut(s: seq<byte>)
    requires NoDot(s)
    ensures NoDot(Snprintf(s))
  {
  }

  lemma AttachedHoldsNoDot(m: Message)
    ensures NoDot(Attached(m))
    ensures m.attachments == [] ==> Attached(m) == []
    ensures m.attachments != [] ==> Attached(m) != [] && Attached(m)[0] == 45
  {
    hide NoDot, FileBlocks, Flatten;
    var files := m.attachments;
    forall i | 0 <= i < |files|
      ensures NoDot(Flatten(Parts(files)[i]))
    {
      NoDotPart(files[i]);
    }
    NoDotDeep(Parts(files));
    NoDotClosing(files);
    NoDotBoth(Flatten(Flatten(Parts(files))), Flatten(Closing(files)));
    FlattenConcat(Flatten(Parts(files)), Closing(files));
    if files == [] {
      NothingAttached();
    } else {
      PartComesFirst(files, Closing(files));
    }
  }

  lemma NothingAttached()
    ensures Flatten(Flatten(Parts([])) + Closing([])) == []
  {
    assert Parts([]) == [];
  }

  lemma PartComesFirst(files: seq<File>, more: seq<seq<byte>>)
    requires files != []
    ensures var all := Flatten(Flatten(Parts(files)) + more); all != [] && all[0] == 45
  {
    hide PartHeader, Blocks, Flatten;
    var header, blocks := PartHeader(files[0].name), Blocks(files[0].content, BUFFER_SIZE);
    var rest := blocks + Flatten(Parts(files)[1..]) + more;
    FlattenAt(Parts(files), 0);
    NothingFlattened();
    assert Parts(files)[..0] == [];
    assert Flatten(Parts(files)) + more == [header] + rest;
    FlattenFront(header, rest);
    NoDotHeader(files[0].name);
  }

  lemma NothingFlattened()
    ensures Flatten<seq<byte>>([]) == []
  {
  }

  // What holds no dot adds none, and what begins with a dash completes no mark.
  lemma UndottedEnd(text: seq<byte>, end: seq<byte>)
    requires NoDot(end)
    ensures HasDot(text + end) <==> HasDot(text)
    ensures end != [] && end[0] == 45 ==> (HasMark(text + end) <==> HasMark(text))
  {
    var s := text + end;
    assert forall k: nat :: DotAt(s, k) ==> s[k + 2] == 46 && DotAt(text, k);
    assert forall k: nat :: DotAt(text, k) ==> DotAt(s, k);
    assert forall k: nat :: MarkAt(text, k) ==> MarkAt(s, k);
    if end != [] && end[0] == 45 {
      assert s[|text|] == 45;
      assert forall k: nat :: MarkAt(s, k) ==> DotAt(s, k) && DotAt(text, k) && MarkAt(text, k);
    }
  }

  // ---------- whole messages ----------

  // An end mark stands in the text of the message, or ends it together with the line end of the final dot.
  ghost predicate EndsEarly(m: Message) {
    HasMark(CRLF + Flatten(TextBlocks(m)) + if m.attachments == [] then CRLF else [])
  }

  ghost predicate LosesDots(m: Message) { HasDot(CRLF + Flatten(TextBlocks(m))) }

  /** The server ends the data at the final dot, and not before, exactly when the text of the message holds no end
      mark, whatever the attachments. */
  lemma FinalDotEnds(m: Message, next: seq<byte>)
    ensures RestOf(Flatten(Content(m)) + FINAL_DOT + next, true) == next <==> !EndsEarly(m)
  {
    hide HasMark, HasDot, TextBlocks, Content, Attached, NoDot;
    var text, attached := Flatten(TextBlocks(m)), Attached(m);
    ContentIs(m);
    AttachedHoldsNoDot(m);
    StopsAtMark(text + attached, next);
    if m.attachments == [] {
      assert text + attached == text;
    } else {
      NoDotLineEnd();
      NoDotBoth(attached, CRLF);
      UndottedEnd(CRLF + text, attached + CRLF);
      assert CRLF + (text + attached) + CRLF == CRLF + text + (attached + CRLF);
      assert CRLF + text + [] == CRLF + text;
    }
  }

  lemma NoDotLineEnd()
    ensures NoDot(CRLF)
  {
  }

  /** The server keeps exactly what the message says exactly when no line of its text begins with a dot. */
  lemma TextArrives(m: Message, next: seq<byte>)
    ensures TextOf(Flatten(Content(m)) + FINAL_DOT + next, true) == Flatten(Content(m)) + CRLF <==> !LosesDots(m)
  {
    hide HasMark, HasDot, TextBlocks, Content, Attached, NoDot;
    var text, attached := Flatten(TextBlocks(m)), Attached(m);
    ContentIs(m);
    AttachedHoldsNoDot(m);
    KeepsUndotted(text + attached, next);
    UndottedEnd(CRLF + text, attached);
    assert CRLF + (text + attached) == CRLF + text + attached;
  }

  // ---------- messages of plain lines ----------

  // A line that goes out as it is: without line ends, and short enough for SendBuf.
  predicate PlainLine(line: seq<byte>) { OneLine(line) && |line| + 2 < BUFFER_SIZE }

  // Some line begins with a dot.
  predicate DotBegins(lines: seq<seq<byte>>) {
    exists i :: 0 <= i < |lines| && lines[i] != [] && lines[i][0] == 46
  }

  lemma FirstDotBegins(lines: seq<seq<byte>>)
    requires lines != []
    ensures DotBegins(lines) <==> (lines[0] != [] && lines[0][0] == 46) || DotBegins(lines[1..])
    ensures [46] in lines <==> lines[0] == [46] || [46] in lines[1..]
  {
    assert lines == [lines[0]] + lines[1..];
    if DotBegins(lines[1..]) {
      var i :| 0 <= i < |lines[1..]| && lines[1..][i] != [] && lines[1..][i][0] == 46;
      assert lines[i + 1] == lines[1..][i];
    }
    if DotBegins(lines) && !(lines[0] != [] && lines[0][0] == 46) {
      var i :| 0 <= i < |lines| && lines[i] != [] && lines[i][0] == 46;
      assert lines[1..][i - 1] == lines[i];
    }
  }

  function Terminated(lines: seq<seq<byte>>): (blocks: seq<seq<byte>>)
    ensures |blocks| == |lines|
  {
    seq(|lines|, i requires 0 <= i < |lines| => lines[i] + CRLF)
  }

  // One more line after a line end.
  lemma OneMore(p: seq<byte>, line: seq<byte>)
    requires OneLine(line)
    ensures HasMark(p + CRLF + line + CRLF) <==> HasMark(p + CRLF) || line == [46]
    ensures HasDot(p + CRLF + line + CRLF) <==> HasDot(p + CRLF) || (line != [] && line[0] == 46)
  {
    var front, t, n := p + CRLF, p + CRLF + line + CRLF, |p|;
    assert t[n] == 13 && t[n + 1] == 10;
    assert forall i :: 0 <= i < |line| ==> t[n + 2 + i] == line[i];
    assert forall k: nat :: DotAt(front, k) ==> DotAt(t, k);
    assert forall k: nat :: MarkAt(front, k) ==> MarkAt(t, k);
    forall k: nat | DotAt(t, k)
      ensures DotAt(front, k) || (k == n && line != [] && line[0] == 46)
      ensures MarkAt(t, k) ==> MarkAt(front, k) || line == [46]
    {
      assert t[k + 1] == 10 && t[k + 2] == 46;
      assert k <= n;
    }
    if line != [] && line[0] == 46 {
      assert DotAt(t, n);
      assert line == [46] ==> MarkAt(t, n);
    }
  }

  lemma NoLines()
    ensures Flatten(Terminated([])) == [] && !DotBegins([])
  {
    assert Terminated([]) == [];
  }

  lemma {:induction false} MoreLines(p: seq<byte>, lines: seq<seq<byte>>)
    requires forall i :: 0 <= i < |lines| ==> PlainLine(lines[i])
    ensures var t := p + CRLF + Flatten(Terminated(lines));
            && (HasMark(t) <==> HasMark(p + CRLF) || [46] in lines)
            && (HasMark(t + CRLF) <==> HasMark(t))
            && (HasDot(t) <==> HasDot(p + CRLF) || DotBegins(lines))
    decreases |lines|
  {
    hide HasMark, HasDot, Flatten, DotBegins;
    if lines == [] {
      NoLines();
      OneMore(p, []);
      assert p + CRLF + [] == p + CRLF;
    } else {
      var line, rest := lines[0], lines[1..];
      OneMore(p, line);
      MoreLines(p + CRLF + line, rest);
      FlattenFront(line + CRLF, Terminated(rest));
      assert Terminated(lines) == [line + CRLF] + Terminated(rest);
      assert p + CRLF + line + CRLF + Flatten(Terminated(rest)) == p + CRLF + Flatten(Terminated(lines));
      FirstDotBegins(lines);
    }
  }

  // The lines that go out: a single blank where there are none.
  function Body(m: Message): seq<seq<byte>> { if m.lines == [] then [[32]] else m.lines }

  lemma TextOfPlain(m: Message, h: seq<byte>)
    requires m.header == Header(h + CRLF) && forall i :: 0 <= i < |m.lines| ==> PlainLine(m.lines[i])
    ensures forall i :: 0 <= i < |Body(m)| ==> PlainLine(Body(m)[i])
    ensures CRLF + Flatten(TextBlocks(m)) == CRLF + h + CRLF + Flatten(Terminated(Body(m)))
  {
    hide Flatten;
    BlankLine();
    assert BodyLines(m.lines) == Terminated(Body(m));
    FlattenFront(h + CRLF, BodyLines(m.lines));
  }

  lemma BlankLine()
    ensures [WithCrLf(Ascii(" "))] == Terminated([[32]])
  {
    assert Ascii(" ") == [32];
  }

  /** Where the header ends its last line and the lines are plain, the server ends the data early exactly when a line is
      a single dot, and changes the text exactly when a line begins with one; or the header does the like. */
  lemma PlainLines(m: Message, h: seq<byte>)
    requires m.header == Header(h + CRLF) && forall i :: 0 <= i < |m.lines| ==> PlainLine(m.lines[i])
    ensures EndsEarly(m) <==> HasMark(CRLF + h + CRLF) || [46] in m.lines
    ensures LosesDots(m) <==> HasDot(CRLF + h + CRLF) || DotBegins(m.lines)
  {
    hide HasMark, HasDot, TextBlocks, Flatten, PlainLine;
    TextOfPlain(m, h);
    MoreLines(CRLF + h, Body(m));
    var text := CRLF + Flatten(TextBlocks(m));
    assert text + [] == text;
  }

  /** A single dot for a text: the attachments and the final dot are what the server then reads as commands. */
  lemma OneDotLine(m: Message, h: seq<byte>, next: seq<byte>)
    requires m.header == Header(h + CRLF) && m.lines == [[46]] && !HasMark(CRLF + h + CRLF)
    ensures RestOf(Flatten(Content(m)) + FINAL_DOT + next, true) == Attached(m) + FINAL_DOT + next
  {
    hide HasMark, TextBlocks, Content, Attached, Flatten, PlainLine;
    var t := [46, 13, 10] + (Attached(m) + FINAL_DOT + next);
    ContentIs(m);
    DotAlone();
    TextOfPlain(m, h);
    DropFront(CRLF, Flatten(TextBlocks(m)), h + CRLF + [46, 13, 10]);
    assert Flatten(Content(m)) + FINAL_DOT + next == h + CRLF + t;
    RestAfter(h, t, true);
    assert t[3..] == Attached(m) + FINAL_DOT + next;
  }

  lemma DotAlone()
    ensures Flatten(Terminated([[46]])) == [46, 13, 10] && PlainLine([46])
  {
    assert [46] + CRLF == [46, 13, 10];
    assert Terminated([[46]]) == [[46, 13, 10]];
    FlattenFront([46, 13, 10], []);
    assert [[46, 13, 10]] + [] == [[46, 13, 10]];
  }

  lemma DropFront(front: seq<byte>, s: seq<byte>, t: seq<byte>)
    requires front + s == front + t
    ensures s == t
  {
    assert (front + s)[|front|..] == s && (front + t)[|front|..] == t;
  }

  // ---------- the wire ----------

  lemma {:induction false} BlocksOnWire(blocks: seq<seq<byte>>)
    ensures Wire(BlockEvents(blocks)) == Flatten(blocks)
  {
    if blocks != [] {
      var n := |blocks| - 1;
      assert BlockEvents(blocks)[..n] == BlockEvents(blocks[..n]);
      BlocksOnWire(blocks[..n]);
    }
  }

  /** What DATA, the blocks and the final dot put on the wire is the stream the server reads. */
  lemma DataOnWire(m: Message)
    ensures Wire(DataScript(m)) == Ascii("DATA\r\n") + (Flatten(Content(m)) + FINAL_DOT)
  {
    hide Content, Wire, Flatten, Ascii, Exchange, BlockEvents;
    var data, content, dot := Exchange(Data, Ascii("DATA\r\n")), BlockEvents(Content(m)), FINAL_DOT;
    BlocksOnWire(Content(m));
    ExchangeOnWire(Data, Ascii("DATA\r\n"));
    ExchangeOnWire(DataEnd, dot);
    WireConcat(data + content, Exchange(DataEnd, dot));
    WireConcat(data, content);
    Assoc(Ascii("DATA\r\n"), Flatten(Content(m)), dot);
  }

  lemma ExchangeOnWire(c: Command, text: seq<byte>)
    ensures Wire(Exchange(c, text)) == text
  {
    assert Exchange(c, text)[..1] == [Sent(c, text)];
    assert Wire([Sent(c, text)]) == [] + text;
  }
}

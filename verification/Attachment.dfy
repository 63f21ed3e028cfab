/** The attachment loop of CSmtp::Send: 54 bytes a line, lines collected in SendBuf up to half its size. */
module Attachment {
  import opened Basics
  import opened Bytes
  import Base64

  const CRLF: seq<byte> := [13, 10]

  // What fread delivers in round i of the loop; the last round may deliver nothing.
  function Piece(file: seq<byte>, i: nat): (p: seq<byte>)
    ensures |p| <= 54
  {
    if 54 * i >= |file| then [] else if 54 * i + 54 >= |file| then file[54 * i..] else file[54 * i..54 * i + 54]
  }

  function Rounds(file: seq<byte>): nat { |file| / 54 + 1 }

  function Line(file: seq<byte>, i: nat): seq<byte> { Base64.Encode(Piece(file, i)) + CRLF }

  // A line as it is appended to SendBuf, and the bytes of the file in it, which MsgPart counts.
  datatype Row = Row(line: seq<byte>, raw: nat)

  function Rows(file: seq<byte>): (rows: seq<Row>)
    ensures |rows| == Rounds(file)
  {
    seq(Rounds(file), i requires 0 <= i < Rounds(file) => Row(Line(file, i), |Piece(file, i)|))
  }

  // The blocks handed to SendData while the rows are worked off, given SendBuf and MsgPart before.
  function BlocksFrom(rows: seq<Row>, size: nat, buffer: seq<byte>, part: nat): seq<seq<byte>> {
    if rows == [] then
      if part > 0 then [buffer] else []
    else
      var buffer' := if part > 0 then buffer + rows[0].line else rows[0].line;
      var part' := part + rows[0].raw + 2;
      if part' >= size / 2 then [buffer'] + BlocksFrom(rows[1..], size, buffer', 0)
      else BlocksFrom(rows[1..], size, buffer', part')
  }

  lemma BlocksStep(rows: seq<Row>, i: nat, size: nat, buffer: seq<byte>, part: nat)
    requires i < |rows|
    ensures var next := if part > 0 then buffer + rows[i].line else rows[i].line;
            var part' := part + rows[i].raw + 2;
            BlocksFrom(rows[i..], size, buffer, part) ==
            if part' >= size / 2 then [next] + BlocksFrom(rows[i + 1..], size, next, 0)
            else BlocksFrom(rows[i + 1..], size, next, part')
  {
    assert rows[i..][0] == rows[i] && rows[i..][1..] == rows[i + 1..];
  }

  // At the start of a block it does not matter what SendBuf holds.
  lemma StartAnew(rows: seq<Row>, size: nat, buffer: seq<byte>)
    ensures BlocksFrom(rows, size, buffer, 0) == BlocksFrom(rows, size, [], 0)
  {
  }

  lemma NoRowsLeft(size: nat, buffer: seq<byte>, part: nat)
    ensures BlocksFrom([], size, buffer, part) == if part > 0 then [buffer] else []
  {
  }

  function Blocks(file: seq<byte>, size: nat): seq<seq<byte>> { BlocksFrom(Rows(file), size, [], 0) }

  function Joined(rows: seq<Row>): seq<byte> {
    if rows == [] then [] else rows[0].line + Joined(rows[1..])
  }

  // ---------- nothing is lost, repeated or reordered ----------

  lemma NothingFlat()
    ensures Flatten<byte>([]) == []
  {
  }

  lemma {:induction false} BlocksFromConcat(rows: seq<Row>, size: nat, buffer: seq<byte>, part: nat)
    ensures Flatten(BlocksFrom(rows, size, buffer, part)) == (if part > 0 then buffer else []) + Joined(rows)
  {
    hide Flatten;
    NothingFlat();
    if rows == [] {
      FlattenFront(buffer, []);
      assert [buffer] + [] == [buffer];
    } else {
      var pending := if part > 0 then buffer else [];
      var line := rows[0].line;
      var part' := part + rows[0].raw + 2;
      BlocksFromConcat(rows[1..], size, pending + line, if part' >= size / 2 then 0 else part');
      FlattenFront(pending + line, BlocksFrom(rows[1..], size, pending + line, 0));
      assert pending + line == if part > 0 then buffer + line else line;
    }
  }

  // Removes every CR and LF.
  function WithoutCrLf(s: seq<byte>): seq<byte> {
    if s == [] then [] else (if s[0] == 13 || s[0] == 10 then [] else [s[0]]) + WithoutCrLf(s[1..])
  }

  lemma {:induction false} WithoutCrLfConcat(s: seq<byte>, t: seq<byte>)
    ensures WithoutCrLf(s + t) == WithoutCrLf(s) + WithoutCrLf(t)
  {
    if s == [] {
      assert s + t == t;
    } else {
      assert (s + t)[1..] == s[1..] + t;
      WithoutCrLfConcat(s[1..], t);
    }
  }

  // Free of line ends.
  predicate OneLine(s: seq<byte>) { forall i :: 0 <= i < |s| ==> s[i] != 13 && s[i] != 10 }

  lemma {:induction false} OneLineKept(s: seq<byte>)
    requires OneLine(s)
    ensures WithoutCrLf(s) == s
  {
    if s != [] {
      OneLineKept(s[1..]);
    }
  }

  lemma {:induction false} EncodedIsOneLine(x: seq<byte>)
    ensures OneLine(Base64.Encode(x))
  {
    if x != [] {
      if |x| > 2 {
        EncodedIsOneLine(x[3..]);
      }
      var b := if |x| > 1 then x[1] else 0;
      var c := if |x| > 2 then x[2] else 0;
      GroupIsOneLine(x[0], b, c);
    }
  }

  lemma GroupIsOneLine(a: byte, b: byte, c: byte)
    ensures OneLine(Base64.EncodeGroup(a, b, c))
  {
  }

  lemma {:induction false} RowsDecode(file: seq<byte>, i: nat)
    requires i <= Rounds(file)
    ensures WithoutCrLf(Joined(Rows(file)[i..])) == Base64.Encode(if 54 * i < |file| then file[54 * i..] else [])
    decreases Rounds(file) - i
  {
    if i < Rounds(file) {
      RowsDecode(file, i + 1);
      RowsFrom(file, i);
      WithoutCrLfConcat(Line(file, i), Joined(Rows(file)[i + 1..]));
      LineStripped(file, i);
      PieceAndRest(file, i);
    }
  }

  lemma RowsFrom(file: seq<byte>, i: nat)
    requires i < Rounds(file)
    ensures Joined(Rows(file)[i..]) == Line(file, i) + Joined(Rows(file)[i + 1..])
  {
    assert Rows(file)[i..][1..] == Rows(file)[i + 1..];
  }

  lemma LineStripped(file: seq<byte>, i: nat)
    ensures WithoutCrLf(Line(file, i)) == Base64.Encode(Piece(file, i))
  {
    var encoded := Base64.Encode(Piece(file, i));
    WithoutCrLfConcat(encoded, CRLF);
    EncodedIsOneLine(Piece(file, i));
    OneLineKept(encoded);
    CrLfVanishes();
  }

  lemma CrLfVanishes()
    ensures WithoutCrLf(CRLF) == []
  {
    assert CRLF[1..] == [10];
  }

  lemma PieceAndRest(file: seq<byte>, i: nat)
    requires i < Rounds(file)
    ensures var rest := if 54 * (i + 1) < |file| then file[54 * (i + 1)..] else [];
            var here := if 54 * i < |file| then file[54 * i..] else [];
            Base64.Encode(here) == Base64.Encode(Piece(file, i)) + Base64.Encode(rest)
  {
    if 54 * (i + 1) < |file| {
      Base64.EncodeAppend(Piece(file, i), file[54 * (i + 1)..]);
      assert file[54 * i..] == Piece(file, i) + file[54 * (i + 1)..];
    }
  }

  /** The blocks put together, line ends removed, decode to the file. */
  lemma BlocksCarryFile(file: seq<byte>, size: nat)
    ensures Flatten(Blocks(file, size)) == Joined(Rows(file))
    ensures Base64.Decode(WithoutCrLf(Flatten(Blocks(file, size)))) == file
  {
    BlocksFromConcat(Rows(file), size, [], 0);
    RowsDecode(file, 0);
    assert Rows(file)[0..] == Rows(file);
    assert 0 < |file| ==> file[0..] == file;
    Base64.DecodeEncode(file);
  }

  // ---------- line length ----------

  // Every stretch without a line end has at most n characters.
  ghost predicate LinesWithin(s: seq<byte>, n: nat) {
    forall i, j :: 0 <= i <= j <= |s| && OneLine(s[i..j]) ==> j - i <= n
  }

  lemma PrependLine(line: seq<byte>, rest: seq<byte>, n: nat)
    requires |line| <= n && LinesWithin(rest, n)
    ensures LinesWithin(line + CRLF + rest, n)
  {
    var s := line + CRLF + rest;
    var k := |line| + 2;
    forall i, j | 0 <= i <= j <= |s|
      ensures OneLine(s[i..j]) ==> j - i <= n
    {
      if i <= |line| < j {
        assert s[i..j][|line| - i] == 13;
      } else if i == |line| + 1 < j {
        assert s[i..j][0] == 10;
      } else if i >= k {
        assert s[i..j] == rest[i - k..j - k];
      }
    }
  }

  lemma {:induction false} RowsWithin72(file: seq<byte>, i: nat)
    requires i <= Rounds(file)
    ensures LinesWithin(Joined(Rows(file)[i..]), 72)
    decreases Rounds(file) - i
  {
    if i < Rounds(file) {
      RowsWithin72(file, i + 1);
      RowsFrom(file, i);
      Base64.EncodedLength(Piece(file, i));
      PrependLine(Base64.Encode(Piece(file, i)), Joined(Rows(file)[i + 1..]), 72);
    }
  }

  /** No line of the sent text is longer than 72 characters, whatever the file and the buffer. */
  lemma LinesAtMost72(file: seq<byte>, size: nat)
    ensures LinesWithin(Flatten(Blocks(file, size)), 72)
  {
    BlocksCarryFile(file, size);
    RowsWithin72(file, 0);
    assert Rows(file)[0..] == Rows(file);
  }

  lemma {:induction false} RowsAfter(file: seq<byte>, i: nat)
    requires 54 * i <= |file|
    ensures |Joined(Rows(file))| >= 74 * i && Joined(Rows(file))[74 * i..] == Joined(Rows(file)[i..])
  {
    hide Joined, Base64.Encode;
    if i == 0 {
      assert Rows(file)[0..] == Rows(file);
    } else {
      RowsAfter(file, i - 1);
      RowsFrom(file, i - 1);
      Base64.EncodedLength(Piece(file, i - 1));
      DropLine(Joined(Rows(file)), 74 * (i - 1), Line(file, i - 1), Joined(Rows(file)[i..]));
    }
  }

  lemma DropLine(text: seq<byte>, at: nat, line: seq<byte>, rest: seq<byte>)
    requires at <= |text| && text[at..] == line + rest
    ensures at + |line| <= |text| && text[at + |line|..] == rest
  {
    assert text[at..][|line|..] == text[at + |line|..];
  }

  lemma LastLine(file: seq<byte>, i: nat)
    requires i == |file| / 54
    ensures Joined(Rows(file)[i..]) == Line(file, i)
  {
    hide Line;
    RowsFrom(file, i);
    assert Rows(file)[i + 1..] == [];
    assert Line(file, i) + [] == Line(file, i);
  }

  /** Line i encodes bytes 54i to 54i + 53, or what there is of them, and ends in CRLF; nothing follows the last line,
      which is empty where the file is a multiple of 54 bytes long. */
  lemma EveryLine(file: seq<byte>, size: nat, i: nat)
    requires 54 * i <= |file|
    ensures var text, end := Flatten(Blocks(file, size)), if 54 * i + 54 <= |file| then 54 * i + 54 else |file|;
            var line := Base64.Encode(file[54 * i..end]) + [13, 10];
            && 74 * i + |line| <= |text|
            && text[74 * i..74 * i + |line|] == line
            && (|file| < 54 * i + 54 ==> 74 * i + |line| == |text|)
  {
    hide Joined, Blocks, Flatten, Base64.Encode;
    BlocksCarryFile(file, size);
    RowsAfter(file, i);
    RowsFrom(file, i);
    if |file| < 54 * i + 54 {
      LastLine(file, i);
    }
    assert Piece(file, i) == file[54 * i..if 54 * i + 54 <= |file| then 54 * i + 54 else |file|];
    TakeLine(Joined(Rows(file)), 74 * i, Line(file, i), Joined(Rows(file)[i + 1..]));
  }

  lemma TakeLine(text: seq<byte>, at: nat, line: seq<byte>, rest: seq<byte>)
    requires at <= |text| && text[at..] == line + rest
    ensures at + |line| <= |text| && text[at..at + |line|] == line
  {
    assert text[at..][..|line|] == text[at..at + |line|];
  }

  // ---------- the buffer ----------

  // The sizes of SendBuf for which no file can overrun it, terminator included.
  predicate Roomy(size: nat) { 75 <= size < 114 || size >= 149 }

  predicate AllFit(blocks: seq<seq<byte>>, size: nat) {
    forall i :: 0 <= i < |blocks| ==> |blocks[i]| + 1 <= size
  }

  // Full rows of 54 bytes, then one that may be shorter.
  predicate RowSizes(rows: seq<Row>) {
    forall i :: 0 <= i < |rows| ==>
      |rows[i].line| <= 74 && (i + 1 < |rows| ==> |rows[i].line| == 74 && rows[i].raw == 54)
  }

  lemma RowSizesOf(file: seq<byte>)
    ensures RowSizes(Rows(file))
  {
    forall i | 0 <= i < Rounds(file)
      ensures |Line(file, i)| <= 74 && (i + 1 < Rounds(file) ==> |Line(file, i)| == 74 && |Piece(file, i)| == 54)
    {
      Base64.EncodedLength(Piece(file, i));
    }
  }

  lemma {:induction false} BlocksFromFit(rows: seq<Row>, size: nat, buffer: seq<byte>, part: nat, lines: nat)
    requires Roomy(size) && RowSizes(rows)
    requires part > 0 ==> |buffer| + 1 <= size
    requires rows != [] ==> part == 56 * lines && 2 * part <= size - 2 && (part > 0 ==> |buffer| == 74 * lines)
    ensures AllFit(BlocksFrom(rows, size, buffer, part), size)
  {
    if rows != [] {
      var buffer' := if part > 0 then buffer + rows[0].line else rows[0].line;
      var part' := part + rows[0].raw + 2;
      assert |buffer'| <= 74 * (lines + 1) && 74 * (lines + 1) + 1 <= size;
      assert RowSizes(rows[1..]);
      if part' >= size / 2 {
        BlocksFromFit(rows[1..], size, buffer', 0, 0);
      } else {
        BlocksFromFit(rows[1..], size, buffer', part', lines + 1);
      }
    }
  }

  /** In a roomy buffer no block overruns SendBuf, although MsgPart counts raw bytes. */
  lemma BlocksFit(file: seq<byte>, size: nat)
    requires Roomy(size)
    ensures AllFit(Blocks(file, size), size)
  {
    RowSizesOf(file);
    BlocksFromFit(Rows(file), size, [], 0, 0);
  }

  // The first block sent starts with the buffer extended by the next line.
  lemma {:induction false} FirstBlock(rows: seq<Row>, size: nat, buffer: seq<byte>, part: nat)
    requires rows != []
    ensures var next := if part > 0 then buffer + rows[0].line else rows[0].line;
            var blocks := BlocksFrom(rows, size, buffer, part);
            blocks != [] && next <= blocks[0]
  {
    var next := if part > 0 then buffer + rows[0].line else rows[0].line;
    var part' := part + rows[0].raw + 2;
    if part' < size / 2 && |rows| > 1 {
      FirstBlock(rows[1..], size, next, part');
    }
  }

  /** In any other buffer some file overruns it. */
  lemma TightBufferOverruns(size: nat)
    requires !Roomy(size)
    ensures exists file: seq<byte> :: !AllFit(Blocks(file, size), size)
  {
    var file := Zeros(if size < 75 then 54 else 108);
    var rows := Rows(file);
    RowSizesOf(file);
    if size < 75 {
      FirstBlock(rows, size, [], 0);
    } else {
      FirstBlock(rows[1..], size, rows[0].line, 56);
    }
    assert |Blocks(file, size)[0]| + 1 > size;
  }
}

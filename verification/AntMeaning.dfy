/** What the translated patterns match, told segment by segment. */
module AntMeaning {
  import opened AntGlob

  // ---------- the meaning the documentation gives ----------

  // The place of the first '/', or the length.
  function Slash(s: string): (k: nat)
    ensures k <= |s| && (k < |s| ==> s[k] == '/') && forall i :: 0 <= i < k ==> s[i] != '/'
  {
    if s == "" || s[0] == '/' then 0 else 1 + Slash(s[1..])
  }

  function Split(s: string): (segments: seq<string>)
    ensures segments != []
    decreases |s|
  {
    var k := Slash(s);
    if k < |s| then [s[..k]] + Split(s[k + 1..]) else [s]
  }

  // A '*' stands for any run of characters, everything else for itself.
  predicate WildMatch(pattern: string, s: string)
    decreases |pattern| + |s|
  {
    if pattern == "" then s == ""
    else if pattern[0] == '*' then WildMatch(pattern[1..], s) || (s != "" && WildMatch(pattern, s[1..]))
    else s != "" && s[0] == pattern[0] && WildMatch(pattern[1..], s[1..])
  }

  // "**" stands for any number of whole segments, at least one where it comes last.
  predicate SegmentsMatch(patterns: seq<string>, segments: seq<string>)
    decreases |patterns| + |segments|
  {
    if patterns == [] then segments == []
    else if patterns == ["**"] then segments != []
    else if patterns[0] == "**" then
      SegmentsMatch(patterns[1..], segments) || (segments != [] && SegmentsMatch(patterns, segments[1..]))
    else
      segments != [] && WildMatch(patterns[0], segments[0]) && SegmentsMatch(patterns[1..], segments[1..])
  }

  // ---------- what the building blocks match ----------

  predicate Plain(s: string) { forall i :: 0 <= i < |s| ==> s[i] != '\n' }

  predicate OneSegment(s: string) { forall i :: 0 <= i < |s| ==> s[i] != '/' }

  ghost predicate AllMatch(pieces: seq<Regex>, s: string) { Matches(Joined(pieces), s) }

  lemma FirstPiece(x: Regex, rest: seq<Regex>, s: string)
    ensures AllMatch([x] + rest, s) <==> exists k :: 0 <= k <= |s| && Matches(x, s[..k]) && AllMatch(rest, s[k..])
  {
    assert ([x] + rest)[1..] == rest;
  }

  lemma NoPiece(s: string)
    ensures AllMatch([], s) <==> s == ""
  {
  }

  lemma {:induction false} InSequence(first: seq<Regex>, second: seq<Regex>, s: string)
    ensures AllMatch(first + second, s) <==>
            exists k :: 0 <= k <= |s| && AllMatch(first, s[..k]) && AllMatch(second, s[k..])
  {
    hide Matches;
    if first == [] {
      assert first + second == second;
      assert s[0..] == s && s[..0] == "";
      NoPiece("");
      if k :| 0 <= k <= |s| && AllMatch(first, s[..k]) && AllMatch(second, s[k..]) {
        NoPiece(s[..k]);
      }
    } else {
      var x, rest := first[0], first[1..];
      assert first == [x] + rest && first + second == [x] + (rest + second);
      FirstPiece(x, rest + second, s);
      if k :| 0 <= k <= |s| && Matches(x, s[..k]) && AllMatch(rest + second, s[k..]) {
        InSequence(rest, second, s[k..]);
        var i :| 0 <= i <= |s[k..]| && AllMatch(rest, s[k..][..i]) && AllMatch(second, s[k..][i..]);
        assert s[k..][..i] == s[k..k + i] && s[k..][i..] == s[k + i..];
        Prepend(x, rest, s, k, k + i);
        assert AllMatch(first, s[..k + i]) && AllMatch(second, s[k + i..]);
      }
      if j :| 0 <= j <= |s| && AllMatch(first, s[..j]) && AllMatch(second, s[j..]) {
        var k := FirstCut(x, rest, s, j);
        InSequence(rest, second, s[k..]);
        assert s[k..][..j - k] == s[k..j] && s[k..][j - k..] == s[j..];
      }
    }
  }

  lemma Prepend(x: Regex, rest: seq<Regex>, s: string, k: nat, j: nat)
    requires k <= j <= |s| && Matches(x, s[..k]) && AllMatch(rest, s[k..j])
    ensures AllMatch([x] + rest, s[..j])
  {
    hide Matches, AllMatch;
    FirstPiece(x, rest, s[..j]);
    assert s[..j][..k] == s[..k] && s[..j][k..] == s[k..j];
  }

  lemma FirstCut(x: Regex, rest: seq<Regex>, s: string, j: nat) returns (k: nat)
    requires j <= |s| && AllMatch([x] + rest, s[..j])
    ensures k <= j && Matches(x, s[..k]) && AllMatch(rest, s[k..j])
  {
    hide Matches, AllMatch;
    FirstPiece(x, rest, s[..j]);
    k :| 0 <= k <= |s[..j]| && Matches(x, s[..j][..k]) && AllMatch(rest, s[..j][k..]);
    assert s[..j][..k] == s[..k] && s[..j][k..] == s[k..j];
  }

  lemma {:induction false} LiteralMeans(t: string, s: string)
    ensures Matches(Literal(t), s) <==> s == t
  {
    if t != "" {
      if s != "" {
        LiteralMeans(t[1..], s[1..]);
      }
      if s == t {
        assert s[..1] == [t[0]];
      }
      if Matches(Literal(t), s) {
        var k :| 0 <= k <= |s| && Matches(Char(t[0]), s[..k]) && Matches(Literal(t[1..]), s[k..]);
        assert s == s[..k] + s[k..];
      }
    }
  }

  lemma SeparatorMeans(s: string)
    ensures Matches(SEPARATOR, s) <==> s == "/"
  {
  }

  lemma {:induction false} AnythingMeans(s: string)
    ensures Matches(ANYTHING, s) <==> Plain(s)
    decreases |s|
  {
    if s != "" {
      AnythingMeans(s[1..]);
      if Plain(s) {
        assert Matches(Dot, s[..1]);
      }
      if k :| 0 < k <= |s| && Matches(Dot, s[..k]) && Matches(ANYTHING, s[k..]) {
        assert k == 1;
        assert s == s[..1] + s[1..];
      }
    }
  }

  lemma {:induction false} WildMeans(s: string)
    ensures Matches(WILD, s) <==> OneSegment(s)
    decreases |s|
  {
    if s != "" {
      WildMeans(s[1..]);
      if OneSegment(s) {
        assert Matches(NotSlash, s[..1]);
      }
      if k :| 0 < k <= |s| && Matches(NotSlash, s[..k]) && Matches(WILD, s[k..]) {
        assert k == 1;
        assert s == s[..1] + s[1..];
      }
    }
  }

  lemma DeepMeans(s: string)
    requires Plain(s)
    ensures Matches(DEEP, s) <==> s == "" || s[|s| - 1] == '/'
  {
    if s != "" {
      if s[|s| - 1] == '/' {
        AnythingMeans(s[..|s| - 1]);
        SeparatorMeans(s[|s| - 1..]);
      }
      if k :| 0 <= k <= |s| && Matches(ANYTHING, s[..k]) && Matches(SEPARATOR, s[k..]) {
        SeparatorMeans(s[k..]);
        assert s[k..][|s| - 1 - k] == s[|s| - 1];
      }
    }
  }

  // ---------- one segment ----------

  function SegmentPieces(w: string): seq<Regex>
    requires OneSegment(w)
    decreases |w|
  {
    if w == "" then []
    else if w[0] == '*' then [WILD] + SegmentPieces(w[1..])
    else [Literal(w[..Run(w)])] + SegmentPieces(w[Run(w)..])
  }

  lemma StarStep(rest: seq<Regex>, s: string)
    ensures AllMatch([WILD] + rest, s) <==>
            AllMatch(rest, s) || (s != "" && s[0] != '/' && AllMatch([WILD] + rest, s[1..]))
  {
    hide AllMatch;
    FirstPiece(WILD, rest, s);
    WildMeans("");
    assert s[..0] == "" && s[0..] == s;
    if s != "" {
      FirstPiece(WILD, rest, s[1..]);
      if k :| 0 <= k <= |s| && Matches(WILD, s[..k]) && AllMatch(rest, s[k..]) {
        if k > 0 {
          WildMeans(s[..k]);
          WildMeans(s[1..][..k - 1]);
          assert s[..k][0] == s[0] && s[1..][k - 1..] == s[k..];
          assert s[1..][..k - 1] == s[..k][1..];
        }
      }
      if s[0] != '/' && AllMatch([WILD] + rest, s[1..]) {
        var i :| 0 <= i <= |s[1..]| && Matches(WILD, s[1..][..i]) && AllMatch(rest, s[1..][i..]);
        WildMeans(s[1..][..i]);
        WildMeans(s[..i + 1]);
        assert s[..i + 1] == [s[0]] + s[1..][..i] && s[i + 1..] == s[1..][i..];
      }
    }
  }

  lemma LiteralStep(t: string, rest: seq<Regex>, s: string)
    ensures AllMatch([Literal(t)] + rest, s) <==> t <= s && AllMatch(rest, s[|t|..])
  {
    hide AllMatch, Literal;
    FirstPiece(Literal(t), rest, s);
    if k :| 0 <= k <= |s| && Matches(Literal(t), s[..k]) && AllMatch(rest, s[k..]) {
      LiteralMeans(t, s[..k]);
    }
    if t <= s {
      LiteralMeans(t, s[..|t|]);
    }
  }

  lemma {:induction false} WildRun(w: string, n: nat, s: string)
    requires n <= |w| && forall i :: 0 <= i < n ==> w[i] != '*'
    ensures WildMatch(w, s) <==> w[..n] <= s && WildMatch(w[n..], s[n..])
  {
    if n == 0 {
      assert w[0..] == w && s[0..] == s;
    } else if s != "" && s[0] == w[0] {
      WildRun(w[1..], n - 1, s[1..]);
      assert w[1..][n - 1..] == w[n..];
      assert w[1..][..n - 1] == w[..n][1..];
      if w[1..][..n - 1] <= s[1..] {
        assert s[..n] == [s[0]] + s[1..][..n - 1] && w[..n] == [w[0]] + w[1..][..n - 1];
        assert s[1..][n - 1..] == s[n..];
      }
      if w[..n] <= s {
        assert s[1..][..n - 1] == s[..n][1..] && s[1..][n - 1..] == s[n..];
      }
    } else {
      assert w[..n][0] == w[0];
    }
  }

  /** The pieces of a segment match what its wildcards say, inside one segment. */
  lemma {:induction false} SegmentMeans(w: string, s: string)
    requires OneSegment(w)
    ensures AllMatch(SegmentPieces(w), s) <==> OneSegment(s) && WildMatch(w, s)
    decreases |w| + |s|
  {
    hide AllMatch, Literal;
    if w == "" {
      NoPiece(s);
    } else if w[0] == '*' {
      StarStep(SegmentPieces(w[1..]), s);
      SegmentMeans(w[1..], s);
      if s != "" {
        SegmentMeans(w, s[1..]);
        assert OneSegment(s) <==> s[0] != '/' && OneSegment(s[1..]);
      }
    } else {
      var n := Run(w);
      LiteralStep(w[..n], SegmentPieces(w[n..]), s);
      WildRun(w, n, s);
      if w[..n] <= s {
        SegmentMeans(w[n..], s[n..]);
        assert s == w[..n] + s[n..];
      }
    }
  }

  // ---------- whole patterns ----------

  predicate Segments(patterns: seq<string>) {
    patterns != [] && forall i :: 0 <= i < |patterns| ==> OneSegment(patterns[i])
  }

  // The pieces of a pattern whose front has no slash left to match.
  function PatternPieces(patterns: seq<string>): seq<Regex>
    requires Segments(patterns)
    decreases |patterns|, 0
  {
    if |patterns| == 1 then SegmentPieces(patterns[0])
    else if patterns[0] == "**" then [DEEP] + PatternPieces(patterns[1..])
    else SegmentPieces(patterns[0]) + ([SEPARATOR] + RestPieces(patterns[1..]))
  }

  // The same after a slash, where a last "**" is taken together with the slash.
  function RestPieces(patterns: seq<string>): seq<Regex>
    requires Segments(patterns)
    decreases |patterns|, 1
  {
    if patterns == ["**"] then [ANYTHING] else PatternPieces(patterns)
  }

  lemma SplitStep(s: string)
    ensures var k := Slash(s);
            Split(s)[0] == s[..k] && OneSegment(s[..k]) &&
            Split(s)[1..] == if k < |s| then Split(s[k + 1..]) else []
    ensures Slash(s) == |s| <==> OneSegment(s)
  {
  }

  lemma {:induction false} NoSegments(patterns: seq<string>)
    requires patterns != []
    ensures !SegmentsMatch(patterns, [])
  {
    if |patterns| > 1 {
      NoSegments(patterns[1..]);
    }
  }

  // The first slash is where one segment ends.
  lemma ThenSlash(w: string, rest: seq<Regex>, s: string)
    requires OneSegment(w)
    ensures AllMatch(SegmentPieces(w) + ([SEPARATOR] + rest), s) <==>
            Slash(s) < |s| && WildMatch(w, s[..Slash(s)]) && AllMatch(rest, s[Slash(s) + 1..])
  {
    hide AllMatch, Matches, WildMatch, SegmentPieces;
    InSequence(SegmentPieces(w), [SEPARATOR] + rest, s);
    if i :| 0 <= i <= |s| && AllMatch(SegmentPieces(w), s[..i]) && AllMatch([SEPARATOR] + rest, s[i..]) {
      SegmentMeans(w, s[..i]);
      SeparatorStep(rest, s[i..]);
      assert s[i..][0] == s[i] && s[i..][1..] == s[i + 1..];
      SlashIs(s, i);
    }
    if Slash(s) < |s| {
      SegmentMeans(w, s[..Slash(s)]);
      SeparatorStep(rest, s[Slash(s)..]);
      assert s[Slash(s)..][1..] == s[Slash(s) + 1..];
    }
  }

  lemma SlashIs(s: string, i: nat)
    requires i < |s| && s[i] == '/' && OneSegment(s[..i])
    ensures Slash(s) == i
  {
    assert forall j :: 0 <= j < i ==> s[..i][j] == s[j];
  }

  lemma SeparatorStep(rest: seq<Regex>, s: string)
    ensures AllMatch([SEPARATOR] + rest, s) <==> s != "" && s[0] == '/' && AllMatch(rest, s[1..])
  {
    hide AllMatch, Matches;
    FirstPiece(SEPARATOR, rest, s);
    if k :| 0 <= k <= |s| && Matches(SEPARATOR, s[..k]) && AllMatch(rest, s[k..]) {
      SeparatorMeans(s[..k]);
    }
    if s != "" {
      SeparatorMeans(s[..1]);
    }
  }

  // DEEP drops nothing, or one segment and then any number more.
  lemma DeepStep(rest: seq<Regex>, s: string)
    requires Plain(s)
    ensures AllMatch([DEEP] + rest, s) <==>
            AllMatch(rest, s) || (Slash(s) < |s| && AllMatch([DEEP] + rest, s[Slash(s) + 1..]))
  {
    hide AllMatch, Matches, Plain;
    FirstPiece(DEEP, rest, s);
    assert s[..0] == "" && s[0..] == s;
    DeepPart(s, 0);
    if i :| 0 <= i <= |s| && Matches(DEEP, s[..i]) && AllMatch(rest, s[i..]) {
      DeepPart(s, i);
      if i > 0 {
        DropSegment(rest, s, i, Slash(s));
      }
    }
    if Slash(s) < |s| && AllMatch([DEEP] + rest, s[Slash(s) + 1..]) {
      AddSegment(rest, s, Slash(s));
    }
  }

  lemma DeepPart(s: string, i: nat)
    requires Plain(s) && i <= |s|
    ensures Matches(DEEP, s[..i]) <==> i == 0 || s[i - 1] == '/'
  {
    hide Matches;
    DeepMeans(s[..i]);
  }

  lemma AddSegment(rest: seq<Regex>, s: string, k: nat)
    requires Plain(s) && k < |s| && s[k] == '/' && AllMatch([DEEP] + rest, s[k + 1..])
    ensures AllMatch([DEEP] + rest, s)
  {
    hide AllMatch, Matches;
    var tail := s[k + 1..];
    FirstPiece(DEEP, rest, tail);
    var j :| 0 <= j <= |tail| && Matches(DEEP, tail[..j]) && AllMatch(rest, tail[j..]);
    DeepPart(tail, j);
    assert tail[j..] == s[k + 1 + j..];
    DeepPart(s, k + 1 + j);
    FirstPiece(DEEP, rest, s);
  }

  lemma DropSegment(rest: seq<Regex>, s: string, i: nat, k: nat)
    requires Plain(s) && k < i <= |s| && s[i - 1] == '/' && AllMatch(rest, s[i..])
    ensures AllMatch([DEEP] + rest, s[k + 1..])
  {
    hide AllMatch, Matches;
    var tail := s[k + 1..];
    FirstPiece(DEEP, rest, tail);
    assert tail[i - k - 1..] == s[i..];
    DeepPart(tail, i - k - 1);
  }

  /** Segment patterns translated and segment patterns matched one by one agree; a bare "**" matches one segment. */
  lemma {:induction false} PatternMeans(patterns: seq<string>, s: string)
    requires Segments(patterns) && Plain(s)
    ensures AllMatch(PatternPieces(patterns), s) <==>
            if patterns == ["**"] then OneSegment(s) else SegmentsMatch(patterns, Split(s))
    decreases |patterns|, |s|
  {
    hide AllMatch, Matches, WildMatch, Split, Slash;
    SplitStep(s);
    if |patterns| == 1 {
      SegmentMeans(patterns[0], s);
      assert s[..|s|] == s;
      if patterns == ["**"] {
        AnyRun(s);
      } else {
        assert patterns[1..] == [];
      }
    } else if patterns[0] == "**" {
      DeepStep(PatternPieces(patterns[1..]), s);
      PatternMeans(patterns[1..], s);
      NoSegments(patterns);
      if Slash(s) < |s| {
        PatternMeans(patterns, s[Slash(s) + 1..]);
        TwoStars(patterns, s[Slash(s) + 1..]);
      }
    } else {
      ThenSlash(patterns[0], RestPieces(patterns[1..]), s);
      NoSegments(patterns[1..]);
      if Slash(s) < |s| {
        AnythingLeft(s[Slash(s) + 1..]);
        PatternMeans(patterns[1..], s[Slash(s) + 1..]);
      }
    }
  }

  lemma {:induction false} AnyRun(s: string)
    ensures WildMatch("**", s) && WildMatch("*", s)
    decreases |s|
  {
    assert "**"[1..] == "*" && "*"[1..] == "";
    if s != "" {
      AnyRun(s[1..]);
    }
  }

  lemma AnythingLeft(s: string)
    requires Plain(s)
    ensures AllMatch([ANYTHING], s)
  {
    FirstPiece(ANYTHING, [], s);
    assert [ANYTHING] + [] == [ANYTHING];
    assert s[..|s|] == s;
    AnythingMeans(s);
    NoPiece(s[|s|..]);
  }

  lemma TwoStars(patterns: seq<string>, s: string)
    ensures |patterns| == 2 && patterns[0] == "**" && patterns[1] == "**" ==> SegmentsMatch(patterns, Split(s))
  {
    if |patterns| == 2 && patterns[0] == "**" && patterns[1] == "**" {
      assert patterns[1..] == ["**"];
    }
  }

  // ---------- from the tokens to the segments ----------

  predicate StartsWithStars(w: string) { "**" <= w }

  predicate EndsWithStars(w: string) { |w| >= 2 && w[|w| - 2..] == "**" }

  // Where "**" touches a slash it is the whole segment, or the slash belongs to the "**" before it.
  predicate WholeStars(patterns: seq<string>) {
    forall i :: 0 <= i < |patterns| && patterns[i] != "**" ==>
      (i > 0 && patterns[i - 1] != "**" ==> !StartsWithStars(patterns[i])) &&
      (i + 1 < |patterns| ==> !EndsWithStars(patterns[i]))
  }

  lemma {:induction false} SplitSegments(s: string)
    ensures Segments(Split(s))
    decreases |s|
  {
    SplitStep(s);
    var k := Slash(s);
    if k < |s| {
      SplitSegments(s[k + 1..]);
      assert Split(s) == [s[..k]] + Split(s[k + 1..]);
    }
  }

  lemma EndOfTokens()
    ensures Pieces(Tokens("")) == [Literal("")]
  {
    LastToken();
    OnePiece(Name(""), []);
    assert [Name("")] + [] == [Name("")];
    assert Pieces([]) == [];
  }

  lemma OnePiece(t: Token, rest: seq<Token>)
    ensures Pieces([t] + rest) == Piece(t) + Pieces(rest)
  {
    assert ([t] + rest)[1..] == rest;
  }

  // One token off the front, when it is known which.
  lemma TakeToken(s: string, t: Token, rest: string)
    requires s != "" && First(s) == t && s == Text(t) + rest
    ensures Pieces(Tokens(s)) == Piece(t) + Pieces(Tokens(rest))
  {
    hide First, Text, Piece;
    NextToken(s);
    assert s[|Text(t)|..] == rest;
    OnePiece(t, Tokens(rest));
  }

  lemma PrefixCharacters(s: string)
    ensures "**/" <= s ==> |s| >= 3 && s[0] == '*' && s[1] == '*' && s[2] == '/'
    ensures "/" <= s || "/**" <= s || "/**/" <= s ==> s != "" && s[0] == '/'
    ensures "*" <= s ==> s != "" && s[0] == '*'
  {
    if "**/" <= s {
      assert "**/"[0] == '*' && "**/"[1] == '*' && "**/"[2] == '/';
    }
    if "/" <= s || "/**" <= s || "/**/" <= s {
      assert "/"[0] == '/' && "/**"[0] == '/' && "/**/"[0] == '/';
    }
  }

  // Two stars and a slash at the front of a segment and what follows it are the end of the segment.
  lemma NoStarsSlash(w: string, r: string)
    requires OneSegment(w) && w != "" && (r == "" || r[0] == '/') && (r == "" || !EndsWithStars(w))
    ensures !("**/" <= w + r)
  {
    hide OneSegment, EndsWithStars;
    PrefixCharacters(w + r);
    if |w| > 2 {
      SegmentCharacter(w, 2);
    } else if |w| == 2 && r != "" {
      TwoStarsEnd(w);
    }
  }

  lemma SegmentCharacter(w: string, i: nat)
    requires OneSegment(w) && i < |w|
    ensures w[i] != '/'
  {
  }

  lemma TwoStarsEnd(w: string)
    requires |w| == 2 && !EndsWithStars(w)
    ensures w[0] != '*' || w[1] != '*'
  {
  }

  lemma FirstOfStar(w: string, r: string)
    requires OneSegment(w) && w != "" && w[0] == '*' && (r == "" || r[0] == '/') && (r == "" || !EndsWithStars(w))
    ensures First(w + r) == OneStar
  {
    hide OneSegment, EndsWithStars;
    NoStarsSlash(w, r);
    PrefixCharacters(w + r);
    assert "*" <= w + r;
  }

  lemma FirstOfName(w: string, r: string)
    requires OneSegment(w) && w != "" && w[0] != '*' && (r == "" || r[0] == '/')
    ensures First(w + r) == Name(w[..Run(w)])
  {
    hide OneSegment, Run;
    SegmentCharacter(w, 0);
    PrefixCharacters(w + r);
    SameRun(w, r);
  }

  lemma {:induction false} SameRun(w: string, r: string)
    requires OneSegment(w) && (r == "" || r[0] == '/')
    ensures Run(w + r) == Run(w) && (w + r)[..Run(w)] == w[..Run(w)]
  {
    if w != "" && w[0] != '*' {
      assert (w + r)[1..] == w[1..] + r;
      SameRun(w[1..], r);
    } else if w == "" {
      assert w + r == r;
    }
  }

  lemma TakeStar(w: string, r: string)
    requires OneSegment(w) && w != "" && w[0] == '*' && (r == "" || r[0] == '/') && (r == "" || !EndsWithStars(w))
    ensures Pieces(Tokens(w + r)) == [WILD] + Pieces(Tokens(w[1..] + r))
    ensures EndsWithStars(w[1..]) ==> EndsWithStars(w)
  {
    hide First, Tokens, Pieces;
    FirstOfStar(w, r);
    assert w + r == "*" + (w[1..] + r);
    TakeToken(w + r, OneStar, w[1..] + r);
  }

  lemma EndOfRest(w: string, n: nat)
    requires n <= |w|
    ensures EndsWithStars(w[n..]) ==> EndsWithStars(w)
  {
  }

  lemma CutInside(w: string, r: string, k: nat)
    requires k <= |w|
    ensures w + r == w[..k] + (w[k..] + r)
  {
  }

  lemma TakeName(w: string, r: string)
    requires OneSegment(w) && w != "" && w[0] != '*' && (r == "" || r[0] == '/')
    ensures Run(w) > 0 && Pieces(Tokens(w + r)) == [Literal(w[..Run(w)])] + Pieces(Tokens(w[Run(w)..] + r))
    ensures EndsWithStars(w[Run(w)..]) ==> EndsWithStars(w)
  {
    hide Literal, First, Tokens, Pieces, Run, EndsWithStars;
    EndOfRest(w, Run(w));
    RunIsReal(w);
    FirstOfName(w, r);
    CutInside(w, r, Run(w));
    TakeToken(w + r, Name(w[..Run(w)]), w[Run(w)..] + r);
  }

  lemma RunIsReal(w: string)
    requires OneSegment(w) && w != "" && w[0] != '*'
    ensures Run(w) > 0
  {
  }

  lemma {:induction false} SegmentTokens(w: string, r: string)
    requires OneSegment(w) && (r == "" || r[0] == '/') && (r == "" || !EndsWithStars(w))
    ensures Pieces(Tokens(w + r)) == SegmentPieces(w) + Pieces(Tokens(r))
    decreases |w|
  {
    hide Literal, First, Tokens, Pieces, Run, EndsWithStars;
    if w == "" {
      assert w + r == r;
    } else if w[0] == '*' {
      TakeStar(w, r);
      SegmentTokens(w[1..], r);
    } else {
      TakeName(w, r);
      SegmentTokens(w[Run(w)..], r);
    }
  }

  lemma FirstOfDeep(rest: string)
    ensures First("**/" + rest) == StarsSlash && First("/**/" + rest) == SlashStarsSlash
  {
    assert ("**/" + rest)[0] == '*';
    assert "**/" <= "**/" + rest && "/**/" <= "/**/" + rest;
  }

  lemma FirstOfSlashStars(rest: string)
    requires rest == "" || rest[0] != '/'
    ensures First("/**" + rest) == SlashStars
  {
    var s := "/**" + rest;
    assert s[0] == '/' && s[3..] == rest;
    assert "/**" <= s;
  }

  lemma FirstOfSlash(p: string)
    requires !StartsWithStars(p)
    ensures First("/" + p) == OneSlash
  {
    var s := "/" + p;
    assert s[0] == '/' && s[1..] == p;
    assert "/" <= s;
  }

  lemma WholeStarsLater(patterns: seq<string>)
    requires WholeStars(patterns) && |patterns| > 1
    ensures WholeStars(patterns[1..])
    ensures patterns[0] == "**" || !EndsWithStars(patterns[0])
    ensures patterns[0] == "**" || patterns[1] == "**" || !StartsWithStars(patterns[1])
  {
    forall i | 0 <= i < |patterns| - 1
      ensures patterns[1..][i] == patterns[i + 1]
    {
    }
  }

  lemma StarsInFirst(p: string)
    ensures StartsWithStars(p) ==> StartsWithStars(p[..Slash(p)])
  {
    if StartsWithStars(p) {
      assert p[0] == '*' && p[1] == '*';
    }
  }

  // The pieces of the first segment, and those of the others.
  lemma FirstPieces(patterns: seq<string>, last: seq<Regex>)
    requires Segments(patterns)
    ensures PatternPieces(patterns) + last ==
            if |patterns| == 1 then SegmentPieces(patterns[0]) + last
            else if patterns[0] == "**" then [DEEP] + (PatternPieces(patterns[1..]) + last)
            else SegmentPieces(patterns[0]) + ([SEPARATOR] + RestPieces(patterns[1..]) + last)
  {
    hide SegmentPieces, RestPieces;
  }

  /** Where "**" keeps to whole segments, the tokens are those of the segments. */
  lemma {:induction false} PatternTokens(p: string)
    requires WholeStars(Split(p))
    ensures Segments(Split(p)) && Pieces(Tokens(p)) == PatternPieces(Split(p)) + [Literal("")]
    decreases |p|, 0
  {
    hide Literal, WholeStars, First, Tokens, Pieces, Slash, Split, EndsWithStars, StartsWithStars, SegmentPieces;
    hide PatternPieces, RestPieces, OneSegment;
    SplitSegments(p);
    SplitStep(p);
    EndOfTokens();
    FirstPieces(Split(p), [Literal("")]);
    var k := Slash(p);
    if k == |p| {
      SegmentTokens(p, "");
      assert p + "" == p;
    } else {
      WholeStarsLater(Split(p));
      if p[..k] == "**" {
        FirstOfDeep(p[3..]);
        assert p == "**/" + p[3..];
        TakeToken(p, StarsSlash, p[3..]);
        PatternTokens(p[3..]);
      } else {
        SegmentTokens(p[..k], p[k..]);
        assert p == p[..k] + p[k..] && p[k..] == "/" + p[k + 1..];
        SlashTokens(p[k + 1..]);
      }
    }
  }

  lemma {:induction false} SlashTokens(p: string)
    requires WholeStars(Split(p)) && (Split(p)[0] == "**" || !StartsWithStars(Split(p)[0]))
    ensures Segments(Split(p)) && Pieces(Tokens("/" + p)) == [SEPARATOR] + RestPieces(Split(p)) + [Literal("")]
    decreases |p|, 1
  {
    hide Literal, WholeStars, First, Tokens, Pieces, Slash, Split, EndsWithStars, StartsWithStars, SegmentPieces;
    SplitSegments(p);
    SplitStep(p);
    EndOfTokens();
    var k := Slash(p);
    if p == "**" {
      assert Split(p) == ["**"];
      assert "/" + p == "/**" + "";
      FirstOfSlashStars("");
      TakeToken("/" + p, SlashStars, "");
    } else if p[..k] == "**" {
      WholeStarsLater(Split(p));
      FirstOfDeep(p[3..]);
      assert "/" + p == "/**/" + p[3..];
      TakeToken("/" + p, SlashStarsSlash, p[3..]);
      PatternTokens(p[3..]);
    } else {
      StarsInFirst(p);
      FirstOfSlash(p);
      TakeToken("/" + p, OneSlash, p);
      PatternTokens(p);
    }
  }

  /** The translated pattern accepts exactly the paths that match it segment by segment; a bare "**", which comes out
      as two stars, accepts exactly the paths of one segment. */
  lemma TranslationMeans(pattern: string, path: string)
    requires WholeStars(Split(pattern)) && Plain(path)
    ensures Accepts(Translation(pattern), path) <==>
            if pattern == "**" then OneSegment(path) else SegmentsMatch(Split(pattern), Split(path))
  {
    hide Matches, Pieces, Tokens, PatternPieces, Literal, SegmentsMatch;
    PatternTokens(pattern);
    PatternMeans(Split(pattern), path);
    BareStars(pattern);
    var pieces := PatternPieces(Split(pattern));
    InSequence(pieces, [Literal("")], path);
    NothingMore(path[|path|..]);
    assert path[..|path|] == path;
    if k :| 0 <= k <= |path| && AllMatch(pieces, path[..k]) && AllMatch([Literal("")], path[k..]) {
      NothingMore(path[k..]);
      assert path[..k] == path;
    }
  }

  lemma BareStars(pattern: string)
    ensures Split(pattern) == ["**"] <==> pattern == "**"
  {
    SplitStep(pattern);
    if Split(pattern) == ["**"] {
      assert Split(pattern)[1..] == [];
    }
  }

  lemma NothingMore(s: string)
    ensures AllMatch([Literal("")], s) <==> s == ""
  {
    FirstPiece(Literal(""), [], s);
    assert [Literal("")] + [] == [Literal("")];
    if s == "" {
      assert s[..0] == "" && s[0..] == "";
    }
    if k :| 0 <= k <= |s| && Matches(Literal(""), s[..k]) && AllMatch([], s[k..]) {
      assert s == s[..k] + s[k..];
    }
  }

  // ---------- where "**" does not keep to whole segments ----------

  predicate PlainName(s: string) {
    s != "" && Plain(s) && OneSegment(s) && forall i :: 0 <= i < |s| ==> s[i] != '*'
  }

  // Without a "**" segment the numbers of segments agree.
  lemma {:induction false} SameCount(patterns: seq<string>, segments: seq<string>)
    requires "**" !in patterns && SegmentsMatch(patterns, segments)
    ensures |patterns| == |segments|
  {
    if patterns != [] {
      assert patterns[0] != "**" && patterns != ["**"];
      SameCount(patterns[1..], segments[1..]);
    }
  }

  lemma SplitAtSlash(a: string, rest: string)
    requires OneSegment(a)
    ensures Split(a + "/" + rest) == [a] + Split(rest)
  {
    var s := a + "/" + rest;
    assert s[|a|] == '/' && forall i :: 0 <= i < |a| ==> s[i] == a[i];
    assert Slash(s) == |a| && s[..|a|] == a && s[|a| + 1..] == rest;
  }

  lemma SplitOne(a: string)
    requires OneSegment(a)
    ensures Split(a) == [a]
  {
    SplitStep(a);
  }

  lemma NameFirst(a: string, rest: string)
    requires PlainName(a) && (rest == "" || rest[0] == '*' || rest[0] == '/')
    ensures Pieces(Tokens(a + rest)) == [Literal(a)] + Pieces(Tokens(rest))
  {
    hide Literal;
    var s := a + rest;
    assert s[0] == a[0] && s[..|a|] == a && s[|a|..] == rest;
    assert Run(s) == |a|;
    assert !("/" <= s) && !("*" <= s);
    TakeToken(s, Name(a), rest);
  }

  lemma LiteralThen(a: string, rest: seq<Regex>, s: string)
    requires AllMatch(rest, s)
    ensures AllMatch([Literal(a)] + rest, a + s)
  {
    hide AllMatch, Literal;
    LiteralStep(a, rest, a + s);
    assert (a + s)[|a|..] == s;
  }

  lemma AllMatchAccepted(pattern: string, path: string)
    requires AllMatch(Pieces(Tokens(pattern)), path)
    ensures Accepts(Translation(pattern), path)
  {
  }

  // Two stars at the end of a longer segment swallow the slash after them.
  lemma StarsBeforeSlash(a: string, b: string)
    requires PlainName(a) && PlainName(b)
    ensures Accepts(Translation(a + "**/" + b), a + b)
    ensures !SegmentsMatch(Split(a + "**/" + b), Split(a + b))
  {
    hide Matches, AllMatch, Pieces, Tokens, Literal, First, Split, SegmentsMatch;
    var pattern := a + "**/" + b;
    assert pattern == a + ("**/" + b) && b == b + "";
    NameFirst(a, "**/" + b);
    FirstOfDeep(b);
    TakeToken("**/" + b, StarsSlash, b);
    NameFirst(b, "");
    EndOfTokens();
    NothingMore("");
    LiteralThen(b, [Literal("")], "");
    DeepStep([Literal(b)] + [Literal("")], b);
    LiteralThen(a, [DEEP] + ([Literal(b)] + [Literal("")]), b);
    AllMatchAccepted(pattern, a + b);
    assert pattern == (a + "**") + "/" + b;
    SplitAtSlash(a + "**", b);
    SplitOne(b);
    SplitOne(a + b);
    assert b[0] != '*';
    if SegmentsMatch(Split(pattern), Split(a + b)) {
      SameCount(Split(pattern), Split(a + b));
    }
  }

  // Two stars at the start of a longer segment reach over slashes.
  lemma StarsAfterSlash(a: string, b: string, c: string)
    requires PlainName(a) && PlainName(b) && PlainName(c)
    ensures Accepts(Translation(a + "/**" + c), a + "/" + (b + "/" + c))
    ensures !SegmentsMatch(Split(a + "/**" + c), Split(a + "/" + (b + "/" + c)))
  {
    hide Matches, AllMatch, Pieces, Tokens, Literal, Split, SegmentsMatch;
    var last := [Literal(c)] + [Literal("")];
    NothingMore("");
    LiteralThen(c, [Literal("")], "");
    assert c + "" == c;
    ReachOver(last, b + "/", c);
    assert b + "/" + c == (b + "/") + c;
    LiteralThen(a, [SEPARATOR] + ([ANYTHING] + last), "/" + (b + "/" + c));
    assert a + ("/" + (b + "/" + c)) == a + "/" + (b + "/" + c);
    AfterSlashPieces(a, c);
    AllMatchAccepted(a + "/**" + c, a + "/" + (b + "/" + c));
    AfterSlashSegments(a, b, c);
  }

  lemma AfterSlashPieces(a: string, c: string)
    requires PlainName(a) && PlainName(c)
    ensures Pieces(Tokens(a + "/**" + c)) ==
            [Literal(a)] + ([SEPARATOR] + ([ANYTHING] + ([Literal(c)] + [Literal("")])))
  {
    hide Pieces, Tokens, Literal, First;
    assert a + "/**" + c == a + ("/**" + c) && c == c + "";
    NameFirst(a, "/**" + c);
    FirstOfSlashStars(c);
    TakeToken("/**" + c, SlashStars, c);
    NameFirst(c, "");
    EndOfTokens();
  }

  lemma AfterSlashSegments(a: string, b: string, c: string)
    requires PlainName(a) && PlainName(b) && PlainName(c)
    ensures !SegmentsMatch(Split(a + "/**" + c), Split(a + "/" + (b + "/" + c)))
  {
    hide Split, SegmentsMatch;
    var pattern, path := a + "/**" + c, a + "/" + (b + "/" + c);
    assert pattern == a + "/" + ("**" + c);
    SplitAtSlash(a, "**" + c);
    SplitOne("**" + c);
    SplitAtSlash(a, b + "/" + c);
    SplitAtSlash(b, c);
    SplitOne(c);
    assert a[0] != '*' && |"**" + c| > 2;
    if SegmentsMatch(Split(pattern), Split(path)) {
      SameCount(Split(pattern), Split(path));
    }
  }

  lemma ReachOver(rest: seq<Regex>, front: string, s: string)
    requires Plain(front) && AllMatch(rest, s)
    ensures AllMatch([SEPARATOR] + ([ANYTHING] + rest), "/" + (front + s))
  {
    hide Matches, AllMatch;
    AnythingMeans(front);
    FirstPiece(ANYTHING, rest, front + s);
    assert (front + s)[..|front|] == front && (front + s)[|front|..] == s;
    SeparatorStep([ANYTHING] + rest, "/" + (front + s));
    assert ("/" + (front + s))[1..] == front + s;
  }
}

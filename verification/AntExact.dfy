/** Exactly which patterns without a "**" segment keep their segment-by-segment meaning when they are translated. */
module AntExact {
  import opened AntGlob
  import opened AntMeaning

  // The translation and the segments say the same of every path without a line feed.
  ghost predicate Agrees(pattern: string) {
    forall path :: Plain(path) ==>
      (Accepts(Translation(pattern), path) <==> SegmentsMatch(Split(pattern), Split(path)))
  }

  lemma AcceptsPlain(pattern: string, path: string)
    requires Plain(path)
    ensures Accepts(Translation(pattern), path) <==> AllMatch(Pieces(Tokens(pattern)), path)
  {
    hide Matches, Pieces, Tokens;
  }

  // ---------- counting segments ----------

  function Slashes(s: string): nat {
    if s == "" then 0 else (if s[0] == '/' then 1 else 0) + Slashes(s[1..])
  }

  lemma {:induction false} SlashesConcat(s: string, t: string)
    ensures Slashes(s + t) == Slashes(s) + Slashes(t)
  {
    if s == "" {
      assert s + t == t;
    } else {
      assert (s + t)[1..] == s[1..] + t;
      SlashesConcat(s[1..], t);
    }
  }

  lemma {:induction false} NoSlashes(s: string)
    requires OneSegment(s)
    ensures Slashes(s) == 0
  {
    if s != "" {
      NoSlashes(s[1..]);
    }
  }

  lemma {:induction false} SegmentCount(s: string)
    ensures |Split(s)| == Slashes(s) + 1
    decreases |s|
  {
    SplitStep(s);
    NoSlashes(s[..Slash(s)]);
    if Slash(s) < |s| {
      SegmentCount(s[Slash(s) + 1..]);
      assert s == s[..Slash(s)] + ("/" + s[Slash(s) + 1..]);
      SlashesConcat(s[..Slash(s)], "/" + s[Slash(s) + 1..]);
      assert ("/" + s[Slash(s) + 1..])[1..] == s[Slash(s) + 1..];
    } else {
      assert s[..|s|] == s;
    }
  }

  // ---------- tokens that reach over slashes ----------

  predicate IsDeep(t: Token) { t.SlashStarsSlash? || t.StarsSlash? || t.SlashStars? }

  predicate Shallow(tokens: seq<Token>) {
    tokens == [] || (!IsDeep(tokens[0]) && Shallow(tokens[1..]))
  }

  // The shortest text a token matches.
  function LeanText(t: Token): string {
    match t
    case SlashStarsSlash => "/"
    case StarsSlash => ""
    case SlashStars => "/"
    case OneStar => ""
    case OneSlash => "/"
    case Name(text) => text
  }

  function Lean(tokens: seq<Token>): string {
    if tokens == [] then "" else LeanText(tokens[0]) + Lean(tokens[1..])
  }

  // The same, with one slash more where the first deep token stands.
  function Fat(tokens: seq<Token>): string {
    if tokens == [] then ""
    else if IsDeep(tokens[0]) then LeanText(tokens[0]) + "/" + Lean(tokens[1..])
    else LeanText(tokens[0]) + Fat(tokens[1..])
  }

  lemma OneMatches(x: Regex, s: string)
    requires Matches(x, s)
    ensures AllMatch([x], s)
  {
    hide Matches, AllMatch;
    FirstPiece(x, [], s);
    assert [x] + [] == [x] && s[..|s|] == s;
    NoPiece(s[|s|..]);
  }

  lemma TwoMatch(x: Regex, y: Regex, s: string, t: string)
    requires Matches(x, s) && Matches(y, t)
    ensures AllMatch([x, y], s + t)
  {
    hide Matches, AllMatch;
    OneMatches(y, t);
    FirstPiece(x, [y], s + t);
    assert [x] + [y] == [x, y] && (s + t)[..|s|] == s && (s + t)[|s|..] == t;
  }

  lemma PieceMatches(t: Token)
    ensures AllMatch(Piece(t), LeanText(t))
    ensures IsDeep(t) ==> AllMatch(Piece(t), LeanText(t) + "/")
  {
    hide Matches, AllMatch, Literal;
    SeparatorMeans("/");
    DeepMeans("");
    DeepMeans("/");
    AnythingMeans("");
    AnythingMeans("/");
    assert "/" + "" == "/" && "" + "/" == "/";
    match t
    case SlashStarsSlash =>
      TwoMatch(SEPARATOR, DEEP, "/", "");
      TwoMatch(SEPARATOR, DEEP, "/", "/");
    case StarsSlash =>
      OneMatches(DEEP, "");
      OneMatches(DEEP, "/");
    case SlashStars =>
      TwoMatch(SEPARATOR, ANYTHING, "/", "");
      TwoMatch(SEPARATOR, ANYTHING, "/", "/");
    case OneStar =>
      WildMeans("");
      OneMatches(WILD, "");
    case OneSlash =>
      OneMatches(SEPARATOR, "/");
    case Name(text) =>
      LiteralMeans(text, text);
      OneMatches(Literal(text), text);
  }

  lemma MatchBoth(first: seq<Regex>, second: seq<Regex>, s: string, t: string)
    requires AllMatch(first, s) && AllMatch(second, t)
    ensures AllMatch(first + second, s + t)
  {
    hide AllMatch;
    InSequence(first, second, s + t);
    assert (s + t)[..|s|] == s && (s + t)[|s|..] == t;
  }

  lemma {:induction false} LeanMatches(tokens: seq<Token>)
    ensures AllMatch(Pieces(tokens), Lean(tokens))
  {
    hide AllMatch, Piece, LeanText;
    if tokens == [] {
      NoPiece("");
    } else {
      PieceMatches(tokens[0]);
      LeanMatches(tokens[1..]);
      MatchBoth(Piece(tokens[0]), Pieces(tokens[1..]), LeanText(tokens[0]), Lean(tokens[1..]));
    }
  }

  // A deep token matches texts of two different numbers of segments.
  lemma {:induction false} FatMatches(tokens: seq<Token>)
    requires !Shallow(tokens)
    ensures AllMatch(Pieces(tokens), Fat(tokens)) && Slashes(Fat(tokens)) == Slashes(Lean(tokens)) + 1
  {
    hide AllMatch, Piece, LeanText, IsDeep;
    var t, rest := tokens[0], tokens[1..];
    PieceMatches(t);
    SlashesConcat(LeanText(t), Lean(rest));
    if IsDeep(t) {
      LeanMatches(rest);
      MatchBoth(Piece(t), Pieces(rest), LeanText(t) + "/", Lean(rest));
      SlashesConcat(LeanText(t) + "/", Lean(rest));
      SlashesConcat(LeanText(t), "/");
      assert "/"[1..] == "";
    } else {
      FatMatches(rest);
      MatchBoth(Piece(t), Pieces(rest), LeanText(t), Fat(rest));
      SlashesConcat(LeanText(t), Fat(rest));
    }
  }

  // ---------- line feeds ----------

  predicate PlainNames(tokens: seq<Token>) {
    tokens == [] || ((tokens[0].Name? ==> Plain(tokens[0].text)) && PlainNames(tokens[1..]))
  }

  lemma PlainBoth(s: string, t: string)
    ensures Plain(s + t) <==> Plain(s) && Plain(t)
  {
    if Plain(s + t) {
      assert forall i :: 0 <= i < |s| ==> s[i] == (s + t)[i];
      assert forall i :: 0 <= i < |t| ==> t[i] == (s + t)[|s| + i];
    }
  }

  lemma PlainText(t: Token)
    ensures Plain(Text(t)) <==> (t.Name? ==> Plain(t.text))
    ensures Plain(LeanText(t)) <==> (t.Name? ==> Plain(t.text))
  {
  }

  lemma {:induction false} NamesOfPattern(tokens: seq<Token>)
    ensures PlainNames(tokens) <==> Plain(Texts(tokens))
    ensures PlainNames(tokens) ==> Plain(Lean(tokens)) && Plain(Fat(tokens))
  {
    hide Plain, Text, LeanText, IsDeep;
    NothingPlain();
    if tokens != [] {
      var t, rest := tokens[0], tokens[1..];
      NamesOfPattern(rest);
      PlainText(t);
      PlainBoth(Text(t), Texts(rest));
      PlainBoth(LeanText(t), Lean(rest));
      PlainBoth(LeanText(t) + "/", Lean(rest));
      PlainBoth(LeanText(t), "/");
      PlainBoth(LeanText(t), Fat(rest));
    }
  }

  lemma NothingPlain()
    ensures Plain("") && Plain("/")
  {
  }

  // A path without a line feed is accepted only by names without one.
  lemma {:induction false} PlainMatch(tokens: seq<Token>, s: string)
    requires AllMatch(Pieces(tokens), s) && Plain(s)
    ensures PlainNames(tokens)
  {
    hide AllMatch, Plain, Literal;
    if tokens != [] {
      InSequence(Piece(tokens[0]), Pieces(tokens[1..]), s);
      var k :| 0 <= k <= |s| && AllMatch(Piece(tokens[0]), s[..k]) && AllMatch(Pieces(tokens[1..]), s[k..]);
      PlainBoth(s[..k], s[k..]);
      assert s == s[..k] + s[k..];
      PlainMatch(tokens[1..], s[k..]);
      if tokens[0].Name? {
        LiteralStep(tokens[0].text, [], s[..k]);
        assert [Literal(tokens[0].text)] + [] == [Literal(tokens[0].text)];
        NoPiece(s[..k][|tokens[0].text|..]);
        assert s[..k] == tokens[0].text;
      }
    }
  }

  lemma {:induction false} PlainWild(pattern: string, s: string)
    requires WildMatch(pattern, s) && Plain(s)
    ensures Plain(pattern)
    decreases |pattern| + |s|
  {
    if pattern != "" {
      if pattern[0] == '*' {
        if WildMatch(pattern[1..], s) {
          PlainWild(pattern[1..], s);
        } else {
          PlainWild(pattern, s[1..]);
        }
      } else {
        PlainWild(pattern[1..], s[1..]);
      }
      PlainBoth(pattern[..1], pattern[1..]);
      assert pattern == pattern[..1] + pattern[1..];
    }
  }

  predicate AllPlain(segments: seq<string>) { forall i :: 0 <= i < |segments| ==> Plain(segments[i]) }

  lemma {:induction false} PlainSegments(s: string)
    ensures Plain(s) <==> AllPlain(Split(s))
    decreases |s|
  {
    hide Plain;
    SplitStep(s);
    if Slash(s) < |s| {
      var rest := s[Slash(s) + 1..];
      PlainSegments(rest);
      assert s == s[..Slash(s)] + ("/" + rest);
      PlainBoth(s[..Slash(s)], "/" + rest);
      PlainBoth("/", rest);
      NothingPlain();
      FirstAndRest(s[..Slash(s)], Split(rest));
    }
  }

  lemma FirstAndRest(first: string, rest: seq<string>)
    ensures AllPlain([first] + rest) <==> Plain(first) && AllPlain(rest)
  {
    hide Plain;
    var all := [first] + rest;
    if AllPlain(all) {
      assert all[0] == first && forall i :: 0 <= i < |rest| ==> rest[i] == all[i + 1];
    }
  }

  lemma {:induction false} PlainSegmentsMatch(patterns: seq<string>, segments: seq<string>)
    requires SegmentsMatch(patterns, segments) && AllPlain(segments)
    ensures AllPlain(patterns)
    decreases |patterns| + |segments|
  {
    hide Plain;
    StarsPlain();
    if patterns != [] && patterns != ["**"] {
      if segments != [] {
        FirstAndRest(segments[0], segments[1..]);
        assert segments == [segments[0]] + segments[1..];
      }
      FirstAndRest(patterns[0], patterns[1..]);
      assert patterns == [patterns[0]] + patterns[1..];
      if patterns[0] != "**" {
        PlainWild(patterns[0], segments[0]);
        PlainSegmentsMatch(patterns[1..], segments[1..]);
      } else if SegmentsMatch(patterns[1..], segments) {
        PlainSegmentsMatch(patterns[1..], segments);
      } else {
        PlainSegmentsMatch(patterns, segments[1..]);
      }
    }
  }

  lemma StarsPlain()
    ensures Plain("**")
  {
  }

  // A pattern with a line feed accepts no path without one, by either reading.
  lemma LineFeedAgrees(pattern: string)
    requires !Plain(pattern)
    ensures Agrees(pattern)
  {
    hide Plain, Accepts, Split, SegmentsMatch, AllMatch, Tokens, Pieces, PlainNames;
    TokensCover(pattern);
    NamesOfPattern(Tokens(pattern));
    PlainSegments(pattern);
    forall path | Plain(path)
      ensures Accepts(Translation(pattern), path) <==> SegmentsMatch(Split(pattern), Split(path))
    {
      AcceptsPlain(pattern, path);
      PlainSegments(path);
      if AllMatch(Pieces(Tokens(pattern)), path) {
        PlainMatch(Tokens(pattern), path);
      }
      if SegmentsMatch(Split(pattern), Split(path)) {
        PlainSegmentsMatch(Split(pattern), Split(path));
      }
    }
  }

  // ---------- stars beside slashes ----------

  // Two stars after a slash, or before one.
  predicate StarsBeside(s: string, k: nat) {
    k + 3 <= |s| && (s[k..k + 3] == "/**" || s[k..k + 3] == "**/")
  }

  lemma BesideInFront(s: string)
    requires StarsBeside(s, 0)
    ensures IsDeep(First(s))
  {
    assert s[..3] == s[0..3];
    if s[0..3] == "/**" {
      assert "/**" <= s;
    } else {
      assert "**/" <= s;
    }
  }

  // Tokens without a deep one leave no stars beside a slash.
  lemma {:induction false} ShallowMeans(s: string, k: nat)
    requires Shallow(Tokens(s))
    ensures !StarsBeside(s, k)
    decreases |s|
  {
    hide Tokens, First, Text;
    if StarsBeside(s, k) {
      NextToken(s);
      var t := First(s);
      assert Tokens(s)[0] == t && Tokens(s)[1..] == Tokens(s[|Text(t)|..]);
      if k == 0 {
        BesideInFront(s);
      } else {
        InsideToken(s, k);
        LaterInRest(s, k, |Text(t)|);
        ShallowMeans(s[|Text(t)|..], k - |Text(t)|);
      }
    }
  }

  lemma LaterInRest(s: string, k: nat, n: nat)
    requires StarsBeside(s, k) && n <= k
    ensures StarsBeside(s[n..], k - n)
  {
    assert s[n..][k - n..k - n + 3] == s[k..k + 3];
  }

  // No token but a deep one has a star or a slash behind its first character.
  lemma InsideToken(s: string, k: nat)
    requires s != "" && !IsDeep(First(s)) && 0 < k < |s| && (s[k] == '*' || s[k] == '/')
    ensures 0 < |Text(First(s))| <= k
  {
    if First(s).Name? {
      assert s[0] != '*' && s[0] != '/';
      assert k >= Run(s);
    }
  }

  lemma {:induction false} UncleanShows(s: string) returns (k: nat)
    requires !WholeStars(Split(s)) && "**" !in Split(s)
    ensures StarsBeside(s, k)
    decreases |s|
  {
    hide Split, Slash, WholeStars, StarsBeside, StartsWithStars;
    SplitStep(s);
    if Slash(s) == |s| {
      SingleIsClean(Split(s));
    } else {
      var a, rest := s[..Slash(s)], s[Slash(s) + 1..];
      assert s == a + "/" + rest;
      SplitAtSlash(a, rest);
      FirstIsPrefix(rest);
      OneSegmentMore(a, Split(rest));
      if EndsWithStars(a) {
        k := |a| - 2;
        StarsBefore(a, rest);
      } else if StartsWithStars(Split(rest)[0]) {
        k := |a|;
        StarsAfter(a, rest, Split(rest)[0]);
      } else {
        k := UncleanShows(rest);
        StarsLater(a, rest, k);
        k := |a| + 1 + k;
      }
    }
  }

  lemma StarsBefore(a: string, rest: string)
    requires EndsWithStars(a)
    ensures StarsBeside(a + "/" + rest, |a| - 2)
  {
    var s := a + "/" + rest;
    assert s[|a| - 2..|a| + 1] == a[|a| - 2..] + "/";
  }

  lemma StarsAfter(a: string, rest: string, first: string)
    requires StartsWithStars(first) && first <= rest
    ensures StarsBeside(a + "/" + rest, |a|)
  {
    var s := a + "/" + rest;
    assert s[|a|..|a| + 3] == "/" + first[..2];
  }

  lemma StarsLater(a: string, rest: string, k: nat)
    requires StarsBeside(rest, k)
    ensures StarsBeside(a + "/" + rest, |a| + 1 + k)
  {
    var s := a + "/" + rest;
    assert s[|a| + 1 + k..|a| + 1 + k + 3] == rest[k..k + 3];
  }

  lemma SingleIsClean(patterns: seq<string>)
    ensures |patterns| == 1 ==> WholeStars(patterns)
  {
  }

  lemma FirstIsPrefix(s: string)
    ensures Split(s)[0] <= s
  {
    SplitStep(s);
  }

  lemma OneSegmentMore(first: string, rest: seq<string>)
    requires rest != [] && "**" !in [first] + rest
    ensures "**" !in rest
    ensures !EndsWithStars(first) && !StartsWithStars(rest[0]) && WholeStars(rest) ==> WholeStars([first] + rest)
  {
    var all := [first] + rest;
    assert all[0] == first && forall i :: 0 <= i < |rest| ==> all[i + 1] == rest[i];
  }

  // ---------- the condition ----------

  lemma UncleanDisagrees(pattern: string)
    requires "**" !in Split(pattern) && Plain(pattern) && !WholeStars(Split(pattern))
    ensures !Agrees(pattern)
  {
    hide Plain, Accepts, Split, SegmentsMatch, AllMatch, Tokens, Pieces, PlainNames, WholeStars, Lean, Fat, Shallow;
    var tokens := Tokens(pattern);
    var k := UncleanShows(pattern);
    if Shallow(tokens) {
      ShallowMeans(pattern, k);
    }
    TokensCover(pattern);
    NamesOfPattern(tokens);
    LeanMatches(tokens);
    FatMatches(tokens);
    AcceptsPlain(pattern, Lean(tokens));
    AcceptsPlain(pattern, Fat(tokens));
    SegmentCount(Lean(tokens));
    SegmentCount(Fat(tokens));
    if Agrees(pattern) {
      SameCount(Split(pattern), Split(Lean(tokens)));
      SameCount(Split(pattern), Split(Fat(tokens)));
    }
  }

  /** For patterns without a "**" segment: the translation means what the segments say exactly when no two stars stand
      beside a slash, or the pattern holds a line feed and so accepts no path without one. */
  lemma AgreesExactly(pattern: string)
    requires "**" !in Split(pattern)
    ensures Agrees(pattern) <==> WholeStars(Split(pattern)) || !Plain(pattern)
  {
    hide Plain, Accepts, Split, SegmentsMatch, WholeStars, Translation;
    if !Plain(pattern) {
      LineFeedAgrees(pattern);
    } else if WholeStars(Split(pattern)) {
      BareStars(pattern);
      forall path | Plain(path)
        ensures Accepts(Translation(pattern), path) <==> SegmentsMatch(Split(pattern), Split(path))
      {
        TranslationMeans(pattern, path);
      }
    } else {
      UncleanDisagrees(pattern);
    }
  }

  // ---------- outside the class ----------

  predicate EndsIn(s: string, c: string) { |c| <= |s| && s[|s| - |c|..] == c }

  lemma {:induction false} WildEnd(c: string, s: string)
    requires PlainName(c)
    ensures WildMatch("**" + c, s) <==> EndsIn(s, c)
    ensures WildMatch("*" + c, s) <==> EndsIn(s, c)
    decreases |s|
  {
    assert ("**" + c)[1..] == "*" + c && ("*" + c)[1..] == c;
    WildName(c, s);
    if s != "" {
      WildEnd(c, s[1..]);
      EndsLater(s, c);
    }
  }

  lemma WildName(c: string, s: string)
    requires PlainName(c)
    ensures WildMatch(c, s) <==> s == c
  {
    WildRun(c, |c|, s);
    assert c[|c|..] == "" && c[..|c|] == c;
    if c <= s && s[|c|..] == "" {
      assert s == c + s[|c|..];
    }
  }

  lemma EndsLater(s: string, c: string)
    requires s != ""
    ensures EndsIn(s, c) <==> s == c || EndsIn(s[1..], c)
  {
    if |c| < |s| {
      assert s[1..][|s| - 1 - |c|..] == s[|s| - |c|..];
    } else if |c| == |s| {
      assert s[0..] == s;
    }
  }

  // Anything, then the name.
  lemma AnythingThen(c: string, s: string)
    requires Plain(s)
    ensures AllMatch([ANYTHING] + ([Literal(c)] + [Literal("")]), s) <==> EndsIn(s, c)
  {
    hide Matches, AllMatch, Literal;
    var last := [Literal(c)] + [Literal("")];
    FirstPiece(ANYTHING, last, s);
    if k :| 0 <= k <= |s| && Matches(ANYTHING, s[..k]) && AllMatch(last, s[k..]) {
      NameOnly(c, s[k..]);
      assert k == |s| - |c|;
    }
    if EndsIn(s, c) {
      NameOnly(c, s[|s| - |c|..]);
      AnythingMeans(s[..|s| - |c|]);
    }
  }

  lemma NameOnly(c: string, s: string)
    ensures AllMatch([Literal(c)] + [Literal("")], s) <==> s == c
  {
    hide AllMatch, Literal;
    LiteralStep(c, [Literal("")], s);
    if c <= s {
      NothingMore(s[|c|..]);
      assert s == c + s[|c|..];
    }
  }

  // Two or more segments, of which the last ends in the name.
  predicate LastEndsIn(s: string, c: string) { Slash(s) < |s| && EndsIn(s[Slash(s) + 1..], c) }

  function StarPieces(c: string): seq<Regex> {
    SegmentPieces("*") + ([SEPARATOR] + ([ANYTHING] + ([Literal(c)] + [Literal("")])))
  }

  lemma OneThenAny(c: string, s: string)
    requires Plain(s)
    ensures AllMatch(StarPieces(c), s) <==> LastEndsIn(s, c)
  {
    hide AllMatch, WildMatch, Literal, EndsIn;
    var last := [ANYTHING] + ([Literal(c)] + [Literal("")]);
    ThenSlash("*", last, s);
    if Slash(s) < |s| {
      AnyRun(s[..Slash(s)]);
      AnythingThen(c, s[Slash(s) + 1..]);
    }
  }

  lemma {:induction false} DeepThenOne(c: string, s: string)
    requires Plain(s)
    ensures AllMatch([DEEP] + StarPieces(c), s) <==> LastEndsIn(s, c)
    decreases |s|
  {
    hide AllMatch, StarPieces, EndsIn;
    DeepStep(StarPieces(c), s);
    OneThenAny(c, s);
    if Slash(s) < |s| {
      var rest := s[Slash(s) + 1..];
      DeepThenOne(c, rest);
      if LastEndsIn(rest, c) {
        EndOfEnd(rest, Slash(rest) + 1, c);
      }
    }
  }

  lemma EndOfEnd(s: string, n: nat, c: string)
    requires n <= |s| && EndsIn(s[n..], c)
    ensures EndsIn(s, c)
  {
    assert s[n..][|s| - n - |c|..] == s[|s| - |c|..];
  }

  function ThreePatterns(c: string): seq<string> { ["**", "*", "**" + c] }

  lemma LastSegment(c: string, s: string)
    requires PlainName(c)
    ensures SegmentsMatch(["**" + c], Split(s)) <==> Slash(s) == |s| && EndsIn(s, c)
  {
    hide WildMatch, EndsIn, Split;
    var patterns := ["**" + c];
    assert patterns[1..] == [] && |"**" + c| > 2;
    SplitStep(s);
    WildEnd(c, s);
    assert s[..|s|] == s;
  }

  lemma LastTwo(c: string, s: string)
    requires PlainName(c)
    ensures SegmentsMatch(["*", "**" + c], Split(s)) <==>
            Slash(s) < |s| && OneSegment(s[Slash(s) + 1..]) && EndsIn(s[Slash(s) + 1..], c)
  {
    hide WildMatch, EndsIn, Split, OneSegment;
    var patterns := ["*", "**" + c];
    assert patterns[1..] == ["**" + c];
    SplitStep(s);
    AnyRun(s[..Slash(s)]);
    NoSegments(["**" + c]);
    if Slash(s) < |s| {
      LastSegment(c, s[Slash(s) + 1..]);
      SplitStep(s[Slash(s) + 1..]);
    }
  }

  lemma {:induction false} ThreeMatch(c: string, s: string)
    requires PlainName(c)
    ensures SegmentsMatch(ThreePatterns(c), Split(s)) <==> LastEndsIn(s, c)
    decreases |s|
  {
    hide EndsIn, Split, OneSegment;
    var patterns := ThreePatterns(c);
    assert patterns[1..] == ["*", "**" + c];
    SplitStep(s);
    LastTwo(c, s);
    NoSegments(patterns);
    if Slash(s) < |s| {
      var rest := s[Slash(s) + 1..];
      ThreeMatch(c, rest);
      SplitStep(rest);
      if Slash(rest) < |rest| {
        EndAcross(rest, Slash(rest), c);
      }
    }
  }

  // A name cannot reach over a slash.
  lemma EndAcross(s: string, k: nat, c: string)
    requires PlainName(c) && k < |s| && s[k] == '/'
    ensures EndsIn(s, c) <==> EndsIn(s[k + 1..], c)
  {
    if EndsIn(s[k + 1..], c) {
      EndOfEnd(s, k + 1, c);
    }
    if EndsIn(s, c) {
      assert forall i :: |s| - |c| <= i < |s| ==> s[i] == c[i - (|s| - |c|)];
      assert s[k + 1..][|s| - k - 1 - |c|..] == s[|s| - |c|..];
    }
  }

  lemma ThreeSplit(c: string)
    requires PlainName(c)
    ensures Split("**/*/**" + c) == ThreePatterns(c)
  {
    hide Split;
    assert "**/*/**" + c == "**" + "/" + ("*" + "/" + ("**" + c));
    SplitAtSlash("**", "*" + "/" + ("**" + c));
    SplitAtSlash("*", "**" + c);
    SplitOne("**" + c);
    assert ["**"] + (["*"] + ["**" + c]) == ThreePatterns(c);
  }

  lemma ThreeUnclean(c: string)
    requires PlainName(c)
    ensures !WholeStars(ThreePatterns(c))
  {
    var patterns := ThreePatterns(c);
    assert |patterns[2]| > 2 && patterns[2] != "**" && patterns[1] != "**" && StartsWithStars(patterns[2]);
  }

  lemma ThreePieces(c: string)
    requires PlainName(c)
    ensures Pieces(Tokens("**/*/**" + c)) == [DEEP] + StarPieces(c)
  {
    hide Pieces, Tokens, Literal, First;
    assert "**/*/**" + c == "**/" + ("*/**" + c) && "*/**" + c == "*" + ("/**" + c) && "/**" + c == "/**" + c;
    FirstOfDeep("*/**" + c);
    TakeToken("**/" + ("*/**" + c), StarsSlash, "*/**" + c);
    SegmentTokens("*", "/**" + c);
    FirstOfSlashStars(c);
    TakeToken("/**" + c, SlashStars, c);
    NameFirst(c, "");
    EndOfTokens();
    assert c + "" == c;
  }

  // With whole "**" segments around, glued stars may be harmless: every pattern of this shape agrees, although its last
  // two stars stand behind a slash.
  lemma HarmlessStars(c: string)
    requires PlainName(c)
    ensures !WholeStars(Split("**/*/**" + c)) && Agrees("**/*/**" + c)
  {
    hide Accepts, Pieces, Tokens, Split, SegmentsMatch, StarPieces, LastEndsIn, AllMatch, Translation;
    ThreeSplit(c);
    ThreeUnclean(c);
    ThreePieces(c);
    forall path | Plain(path)
      ensures Accepts(Translation("**/*/**" + c), path) <==> SegmentsMatch(Split("**/*/**" + c), Split(path))
    {
      AcceptsPlain("**/*/**" + c, path);
      DeepThenOne(c, path);
      ThreeMatch(c, path);
    }
  }
}

/** The matching convention ant_pattern_to_re documents, told on the characters of a path. */
module AntConvention {
  import opened AntGlob
  import opened AntMeaning
  import opened AntExact

  // A name, and nothing after it.
  function Last(c: string): seq<Regex> { [Literal(c)] + [Literal("")] }

  lemma NamePieces(c: string)
    requires PlainName(c)
    ensures Pieces(Tokens(c)) == Last(c)
  {
    hide Pieces, Tokens, Literal;
    NameFirst(c, "");
    EndOfTokens();
    assert c + "" == c;
  }

  /** A name alone matches itself. */
  lemma NameItself(c: string, path: string)
    requires PlainName(c) && Plain(path)
    ensures Accepts(Translation(c), path) <==> path == c
  {
    hide Accepts, Translation, AllMatch, Pieces, Tokens;
    AcceptsPlain(c, path);
    NamePieces(c);
    NameOnly(c, path);
  }

  lemma DeepThen(c: string, path: string)
    requires Plain(path)
    ensures AllMatch([DEEP] + Last(c), path) <==> path == c || EndsIn(path, "/" + c)
  {
    hide Matches, AllMatch, Literal;
    FirstPiece(DEEP, Last(c), path);
    if k :| 0 <= k <= |path| && Matches(DEEP, path[..k]) && AllMatch(Last(c), path[k..]) {
      DeepPart(path, k);
      NameOnly(c, path[k..]);
      if k > 0 {
        assert path[k - 1..] == "/" + c;
      }
    }
    if path == c {
      DeepPart(path, 0);
      NameOnly(c, path[0..]);
    }
    if EndsIn(path, "/" + c) {
      var k := |path| - |c|;
      assert path[k - 1..] == "/" + c;
      assert path[k - 1..][0] == path[k - 1] && path[k - 1..][1..] == path[k..];
      DeepPart(path, k);
      NameOnly(c, path[k..]);
    }
  }

  /** Two stars and a slash before a name: the name at any depth. */
  lemma AtAnyDepth(c: string, path: string)
    requires PlainName(c) && Plain(path)
    ensures Accepts(Translation("**/" + c), path) <==> path == c || EndsIn(path, "/" + c)
  {
    hide Accepts, Translation, AllMatch, Pieces, Tokens, First, Literal;
    AcceptsPlain("**/" + c, path);
    FirstOfDeep(c);
    TakeToken("**/" + c, StarsSlash, c);
    NamePieces(c);
    DeepThen(c, path);
  }

  /** A star before a name: one segment that ends in the name. */
  lemma OneStarBefore(c: string, path: string)
    requires PlainName(c) && Plain(path)
    ensures Accepts(Translation("*" + c), path) <==> OneSegment(path) && EndsIn(path, c)
  {
    hide Accepts, Translation, AllMatch, Pieces, Tokens, SegmentPieces, Literal, WildMatch;
    AcceptsPlain("*" + c, path);
    SegmentTokens("*" + c, "");
    EndOfTokens();
    assert "*" + c + "" == "*" + c;
    InSequence(SegmentPieces("*" + c), [Literal("")], path);
    SegmentMeans("*" + c, path);
    WildEnd(c, path);
    NothingMore(path[|path|..]);
    assert path[..|path|] == path;
    if k :| 0 <= k <= |path| && AllMatch(SegmentPieces("*" + c), path[..k]) && AllMatch([Literal("")], path[k..]) {
      NothingMore(path[k..]);
      assert path[..k] == path;
    }
  }

  lemma NameThenSlash(a: string, rest: seq<Regex>, path: string)
    ensures AllMatch([Literal(a)] + ([SEPARATOR] + rest), path) <==>
            a + "/" <= path && AllMatch(rest, path[|a| + 1..])
  {
    hide AllMatch, Literal;
    LiteralStep(a, [SEPARATOR] + rest, path);
    if a <= path {
      SeparatorStep(rest, path[|a|..]);
      if path[|a|..] != "" {
        assert path[|a|..][0] == path[|a|] && path[|a|..][1..] == path[|a| + 1..];
        assert path[..|a| + 1] == a + [path[|a|]];
      }
    }
    if a + "/" <= path {
      assert path[|a|] == '/' && path[..|a|] == a;
    }
  }

  /** Two stars between two names: nothing, or any directories. */
  lemma AnyBetween(a: string, b: string, path: string)
    requires PlainName(a) && PlainName(b) && Plain(path)
    ensures Accepts(Translation(a + "/**/" + b), path) <==>
            path == a + "/" + b || (a + "/" <= path && EndsIn(path[|a| + 1..], "/" + b))
  {
    hide Accepts, Translation, AllMatch, Pieces, Tokens, First, Literal;
    var pattern := a + "/**/" + b;
    AcceptsPlain(pattern, path);
    assert pattern == a + ("/**/" + b);
    NameFirst(a, "/**/" + b);
    FirstOfDeep(b);
    TakeToken("/**/" + b, SlashStarsSlash, b);
    NamePieces(b);
    assert [SEPARATOR, DEEP] + Last(b) == [SEPARATOR] + ([DEEP] + Last(b));
    NameThenSlash(a, [DEEP] + Last(b), path);
    if a + "/" <= path {
      DeepThen(b, path[|a| + 1..]);
      assert path == a + "/" + path[|a| + 1..];
    }
  }

  /** A slash and two stars at the end: everything below the name. */
  lemma EverythingBelow(a: string, path: string)
    requires PlainName(a) && Plain(path)
    ensures Accepts(Translation(a + "/**"), path) <==> a + "/" <= path
  {
    hide Accepts, Translation, AllMatch, Pieces, Tokens, First, Literal;
    var pattern := a + "/**";
    AcceptsPlain(pattern, path);
    NameFirst(a, "/**");
    FirstOfSlashStars("");
    assert "/**" + "" == "/**";
    TakeToken("/**", SlashStars, "");
    EndOfTokens();
    assert [SEPARATOR, ANYTHING] + [Literal("")] == [SEPARATOR] + ([ANYTHING] + [Literal("")]);
    NameThenSlash(a, [ANYTHING] + [Literal("")], path);
    if a + "/" <= path {
      AnythingEnds(path[|a| + 1..]);
    }
  }

  lemma AnythingEnds(s: string)
    requires Plain(s)
    ensures AllMatch([ANYTHING] + [Literal("")], s)
  {
    hide AllMatch, Literal;
    FirstPiece(ANYTHING, [Literal("")], s);
    AnythingMeans(s[..|s|]);
    NothingMore(s[|s|..]);
  }
}

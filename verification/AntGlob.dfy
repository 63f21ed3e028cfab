/** ant_pattern_to_re of antglob.py: the tokenizer, the regular expression it builds and what that expression means. */
module AntGlob {

  // ---------- regular expressions ----------

  datatype Regex =
    | Empty
    | Char(c: char)
    | NotSlash  // [^/]
    | Dot  // any character but a line feed
    | Alt(left: Regex, right: Regex)
    | Cat(first: Regex, second: Regex)
    | Opt(body: Regex)
    | Star(body: Regex)

  // The whole of s is in the language of r.
  ghost predicate Matches(r: Regex, s: string)
    decreases r, |s|
  {
    match r
    case Empty => s == ""
    case Char(c) => s == [c]
    case NotSlash => |s| == 1 && s[0] != '/'
    case Dot => |s| == 1 && s[0] != '\n'
    case Alt(a, b) => Matches(a, s) || Matches(b, s)
    case Cat(a, b) => exists k :: 0 <= k <= |s| && Matches(a, s[..k]) && Matches(b, s[k..])
    case Opt(a) => s == "" || Matches(a, s)
    case Star(a) => s == "" || exists k :: 0 < k <= |s| && Matches(a, s[..k]) && Matches(Star(a), s[k..])
  }

  function Joined(pieces: seq<Regex>): Regex {
    if pieces == [] then Empty else Cat(pieces[0], Joined(pieces[1..]))
  }

  function Literal(s: string): Regex {
    if s == "" then Empty else Cat(Char(s[0]), Literal(s[1..]))
  }

  // re.match against ^r$; the dollar also stands before a line feed at the end.
  ghost predicate Accepts(r: Regex, path: string) {
    Matches(r, path) || (path != "" && path[|path| - 1] == '\n' && Matches(r, path[..|path| - 1]))
  }

  // ---------- tokens ----------

  datatype Token = SlashStarsSlash | StarsSlash | SlashStars | OneStar | OneSlash | Name(text: string)

  function Text(t: Token): string {
    match t
    case SlashStarsSlash => "/**/"
    case StarsSlash => "**/"
    case SlashStars => "/**"
    case OneStar => "*"
    case OneSlash => "/"
    case Name(text) => text
  }

  // The leading characters that are neither '*' nor '/'.
  function Run(s: string): (n: nat)
    ensures n <= |s|
    ensures forall i :: 0 <= i < n ==> s[i] != '*' && s[i] != '/'
    ensures n < |s| ==> s[n] == '*' || s[n] == '/'
  {
    if s == "" || s[0] == '*' || s[0] == '/' then 0 else 1 + Run(s[1..])
  }

  // The first alternative that matches at the front of s.
  function First(s: string): (t: Token)
    ensures Text(t) <= s && (s != "" ==> Text(t) != "")
  {
    if "/**/" <= s then SlashStarsSlash
    else if "**/" <= s then StarsSlash
    else if "/**" <= s then SlashStars
    else if "*" <= s then OneStar
    else if "/" <= s then OneSlash
    else
      assert s != "" ==> s[0] != '*' && s[0] != '/' by {
        assert s != "" ==> [s[0]] <= s;
      }
      Name(s[..Run(s)])
  }

  // All matches from the front to the end; at the end an empty name matches once more.
  function Tokens(s: string): seq<Token>
    decreases |s|
  {
    [First(s)] + if s == "" then [] else Tokens(s[|Text(First(s))|..])
  }

  function Texts(tokens: seq<Token>): string {
    if tokens == [] then "" else Text(tokens[0]) + Texts(tokens[1..])
  }

  /** The tokens put together are the pattern: nothing is skipped. */
  lemma {:induction false} TokensCover(s: string)
    ensures Texts(Tokens(s)) == s
    decreases |s|
  {
    var t := First(s);
    var rest := if s == "" then [] else Tokens(s[|Text(t)|..]);
    assert Tokens(s)[1..] == rest;
    if s != "" {
      TokensCover(s[|Text(t)|..]);
    }
  }

  // ---------- translation ----------

  const SEPARATOR: Regex := Alt(Char('/'), Char('/'))
  const DEEP: Regex := Opt(Cat(Star(Dot), SEPARATOR))
  const ANYTHING: Regex := Star(Dot)
  const WILD: Regex := Star(NotSlash)

  function Piece(t: Token): seq<Regex> {
    match t
    case SlashStarsSlash => [SEPARATOR, DEEP]
    case StarsSlash => [DEEP]
    case SlashStars => [SEPARATOR, ANYTHING]
    case OneStar => [WILD]
    case OneSlash => [SEPARATOR]
    case Name(text) => [Literal(text)]
  }

  function Pieces(tokens: seq<Token>): seq<Regex> {
    if tokens == [] then [] else Piece(tokens[0]) + Pieces(tokens[1..])
  }

  function Translation(pattern: string): Regex { Joined(Pieces(Tokens(pattern))) }

  datatype Result = Ok(regex: Regex) | ValueError

  // Whether `text` stands at `start`.
  predicate StandsAt(pattern: string, start: nat, text: string) {
    start + |text| <= |pattern| && pattern[start..start + |text|] == text
  }

  lemma StandsInFront(pattern: string, start: nat, text: string)
    requires start <= |pattern|
    ensures StandsAt(pattern, start, text) <==> text <= pattern[start..]
  {
    if text <= pattern[start..] {
      assert pattern[start..][..|text|] == pattern[start..start + |text|];
    }
    if StandsAt(pattern, start, text) {
      assert pattern[start..] == text + pattern[start + |text|..];
    }
  }

  // The end of the longest run of characters other than '*' and '/'.
  method NameEnd(pattern: string, start: nat) returns (end: nat)
    requires start <= |pattern|
    ensures start <= end <= |pattern| && pattern[start..end] == pattern[start..][..Run(pattern[start..])]
  {
    end := start;
    while end < |pattern| && pattern[end] != '*' && pattern[end] != '/'
      invariant start <= end <= |pattern|
      invariant forall i :: start <= i < end ==> pattern[i] != '*' && pattern[i] != '/'
    {
      end := end + 1;
    }
    var rest := pattern[start..];
    assert forall i :: 0 <= i < end - start ==> rest[i] == pattern[start + i];
    assert end < |pattern| ==> rest[end - start] == pattern[end];
  }

  // The six alternatives in their order. The last one matches anywhere, if only the empty string, so a search
  // always ends where it starts.
  method MatchAt(pattern: string, start: nat) returns (t: Token)
    requires start <= |pattern|
    ensures t == First(pattern[start..])
  {
    StandsInFront(pattern, start, "/**/");
    StandsInFront(pattern, start, "**/");
    StandsInFront(pattern, start, "/**");
    StandsInFront(pattern, start, "*");
    StandsInFront(pattern, start, "/");
    if StandsAt(pattern, start, "/**/") {
      return SlashStarsSlash;
    } else if StandsAt(pattern, start, "**/") {
      return StarsSlash;
    } else if StandsAt(pattern, start, "/**") {
      return SlashStars;
    } else if StandsAt(pattern, start, "*") {
      return OneStar;
    } else if StandsAt(pattern, start, "/") {
      return OneSlash;
    }
    var end := NameEnd(pattern, start);
    return Name(pattern[start..end]);
  }

  // A match object: where it starts and which group it filled.
  datatype Found = Found(start: nat, token: Token)

  function Placed(tokens: seq<Token>, from: nat): seq<Found> {
    if tokens == [] then [] else [Found(from, tokens[0])] + Placed(tokens[1..], from + |Text(tokens[0])|)
  }

  // What is still to come when the iterator stands at `from`; past the end there is nothing.
  function FoundFrom(pattern: string, from: nat): seq<Found> {
    if from <= |pattern| then Placed(Tokens(pattern[from..]), from) else []
  }

  method FindIter(pattern: string) returns (found: seq<Found>)
    ensures found == Placed(Tokens(pattern), 0)
  {
    hide First, FoundFrom, Placed, Tokens;
    var from: nat := 0;
    found := [];
    FoundAll(pattern);
    while from <= |pattern|
      invariant from <= |pattern| + 1
      invariant Placed(Tokens(pattern), 0) == found + FoundFrom(pattern, from)
    {
      var t := MatchAt(pattern, from);
      FoundNext(pattern, from);
      found := found + [Found(from, t)];
      from := if Text(t) == "" then from + 1 else from + |Text(t)|;
    }
    FoundNone(pattern, from);
  }

  lemma FoundAll(pattern: string)
    ensures FoundFrom(pattern, 0) == Placed(Tokens(pattern), 0)
  {
    assert pattern[0..] == pattern;
  }

  lemma FoundNone(pattern: string, from: nat)
    requires from > |pattern|
    ensures FoundFrom(pattern, from) == []
  {
  }

  lemma FoundNext(pattern: string, from: nat)
    requires from <= |pattern|
    ensures var t := First(pattern[from..]); var end := from + |Text(t)|;
            && end <= |pattern| && (Text(t) == "" ==> from == |pattern|)
            && FoundFrom(pattern, from) == [Found(from, t)] + FoundFrom(pattern, if Text(t) == "" then end + 1 else end)
  {
    hide First, Placed, Tokens;
    var rest := pattern[from..];
    var t := First(rest);
    assert rest[|Text(t)|..] == pattern[from + |Text(t)|..];
    if rest == "" {
      LastToken();
      PlacedOne(t, from);
    } else {
      NextToken(rest);
      PlacedFirst(t, Tokens(rest[|Text(t)|..]), from);
    }
  }

  lemma LastToken()
    ensures First("") == Name("") && Tokens("") == [Name("")]
  {
    assert ""[..0] == "";
  }

  lemma NextToken(s: string)
    requires s != ""
    ensures Tokens(s) == [First(s)] + Tokens(s[|Text(First(s))|..])
  {
    hide First;
  }

  lemma PlacedOne(t: Token, from: nat)
    ensures Placed([t], from) == [Found(from, t)]
  {
    assert [t][1..] == [];
  }

  lemma PlacedFirst(t: Token, rest: seq<Token>, from: nat)
    ensures Placed([t] + rest, from) == [Found(from, t)] + Placed(rest, from + |Text(t)|)
  {
    hide Text;
    assert ([t] + rest)[1..] == rest;
  }

  // Every match starts where the one before ended.
  predicate Gapless(found: seq<Found>, from: nat) {
    found == [] || (found[0].start == from && Gapless(found[1..], from + |Text(found[0].token)|))
  }

  function PiecesOf(found: seq<Found>): seq<Regex> {
    if found == [] then [] else Piece(found[0].token) + PiecesOf(found[1..])
  }

  /** The translating loop, on any list of matches: a ValueError exactly when there is a gap. */
  method Translate(found: seq<Found>) returns (r: Result)
    ensures r == if Gapless(found, 0) then Ok(Joined(PiecesOf(found))) else ValueError
  {
    hide Piece, Text, Joined;
    var nextPos: nat, i: nat := 0, 0;
    var rex := [];
    assert found[0..] == found;
    while i < |found|
      invariant i <= |found| && PiecesOf(found) == rex + PiecesOf(found[i..])
      invariant Gapless(found, 0) <==> Gapless(found[i..], nextPos)
    {
      assert found[i..][0] == found[i] && found[i..][1..] == found[i + 1..];
      if found[i].start != nextPos {
        return ValueError;
      }
      rex := rex + Piece(found[i].token);
      nextPos := found[i].start + |Text(found[i].token)|;
      i := i + 1;
    }
    assert found[i..] == [] && rex + PiecesOf([]) == rex;
    r := Ok(Joined(rex));
  }

  lemma {:induction false} PlacedWithoutGaps(tokens: seq<Token>, from: nat)
    ensures Gapless(Placed(tokens, from), from) && PiecesOf(Placed(tokens, from)) == Pieces(tokens)
  {
    if tokens != [] {
      var end := from + |Text(tokens[0])|;
      PlacedWithoutGaps(tokens[1..], end);
      assert Placed(tokens, from)[1..] == Placed(tokens[1..], end);
    }
  }

  /** The ValueError is never raised, and the result is the regular expression the tokens describe. */
  method AntPatternToRe(pattern: string) returns (r: Result)
    ensures r == Ok(Translation(pattern))
  {
    var found := FindIter(pattern);
    PlacedWithoutGaps(Tokens(pattern), 0);
    r := Translate(found);
  }
}

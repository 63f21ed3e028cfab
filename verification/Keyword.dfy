/** The keyword search of IsKeywordSupported in a server's greeting. */
module Keyword {

  function Lower(c: char): char { if 'A' <= c <= 'Z' then c + ' ' else c }

  predicate SameText(s: string, t: string) {
    |s| == |t| && forall i :: 0 <= i < |s| ==> Lower(s[i]) == Lower(t[i])
  }

  // The keyword stands at pos, after '-', ' ' or '=' and before ' ', '=' or CRLF.
  predicate StandsAt(response: string, keyword: string, pos: nat) {
    var end := pos + |keyword|;
    && 0 < pos && end < |response|
    && response[pos - 1] in "- ="
    && SameText(keyword, response[pos..end])
    && (response[end] == ' ' || response[end] == '=' ||
        (end + 1 < |response| && response[end] == '\r' && response[end + 1] == '\n'))
  }

  /** True exactly when the keyword stands somewhere as a word of its own. */
  method IsSupported(response: string, keyword: string) returns (found: bool)
    ensures found <==> exists pos: nat :: StandsAt(response, keyword, pos)
  {
    if |response| < |keyword| {
      return false;
    }
    var pos := 0;
    while pos < |response| - |keyword| + 1
      invariant 0 <= pos <= |response| - |keyword| + 1
      invariant forall p: nat :: p < pos ==> !StandsAt(response, keyword, p)
    {
      var end := pos + |keyword|;
      if SameText(keyword, response[pos..end]) {
        if pos > 0 && (response[pos - 1] == '-' || response[pos - 1] == ' ' || response[pos - 1] == '=') {
          if end < |response| {
            if response[end] == ' ' || response[end] == '=' {
              assert StandsAt(response, keyword, pos);
              return true;
            } else if end + 1 < |response| {
              if response[end] == '\r' && response[end + 1] == '\n' {
                assert StandsAt(response, keyword, pos);
                return true;
              }
            }
          }
        }
      }
      pos := pos + 1;
    }
    return false;
  }

  /** Found: after a dash, a space or an equals sign, before a space, an equals sign or the end of the line. */
  lemma DelimitedIsFound(before: string, first: char, keyword: string, last: string, after: string)
    requires (first == '-' || first == ' ' || first == '=') && (last == " " || last == "=" || last == "\r\n")
    ensures StandsAt(before + [first] + keyword + last + after, keyword, |before| + 1)
  {
    var response := before + [first] + keyword + last + after;
    var pos, end := |before| + 1, |before| + 1 + |keyword|;
    assert response[pos - 1] == first && response[pos..end] == keyword;
    assert response[end..end + |last|] == last;
    assert response[end] == last[0];
    if last == "\r\n" {
      assert response[end + 1] == last[1];
    }
  }

  /** Not found: at the start of the text, or as part of a longer word. */
  lemma PartOfWord(response: string, keyword: string, pos: nat)
    requires pos == 0 || pos + |keyword| >= |response| ||
             'A' <= response[pos - 1] <= 'Z' || 'A' <= response[pos + |keyword|] <= 'Z'
    ensures !StandsAt(response, keyword, pos)
  {
  }

  /** Case does not matter, and nothing but the letters may differ. */
  lemma CaseIgnored(response: string, keyword: string, pos: nat, i: nat)
    requires StandsAt(response, keyword, pos) && i < |keyword|
    ensures var c, k := response[pos + i], keyword[i];
            c == k || ('A' <= c <= 'Z' && k as int == c as int + 32) || ('A' <= k <= 'Z' && c as int == k as int + 32)
  {
    var text := response[pos..pos + |keyword|];
    assert Lower(keyword[i]) == Lower(text[i]);
  }
}

/**
 * The choice-line tags `{condition: name}`, `{test: name}` and `{result: name}`.
 * The source finds them with the regular expression
 *     \{\s*KEYWORD:\s*(\w+(?:\s|\w)*)\s*\}
 * (one per keyword) and takes the leftmost match. Here the pattern is matched
 * by hand: `IsTag` is the declarative reading of the pattern, `MatchAt` the
 * anchored matcher, `FindTag` the leftmost search, and `ExtractTag` what the
 * source does with a match (keep the trimmed name, cut the tag out).
 */
module ChoiceTags {
  import opened Wrappers
  import opened Strings

  /** The regex class `\w`, restricted to ASCII letters, digits and `_`. */
  predicate IsWordChar(c: char) {
    ('a' <= c <= 'z') || ('A' <= c <= 'Z') || ('0' <= c <= '9') || c == '_'
  }

  predicate AllWordOrSpace(s: string) {
    forall i :: 0 <= i < |s| ==> IsWordChar(s[i]) || IsWhitespace(s[i])
  }

  /** Every character is a word character (checked one character at a time, so literals evaluate). */
  predicate AllWord(s: string) {
    s == [] || (IsWordChar(s[0]) && AllWord(s[1..]))
  }

  lemma {:induction false} AllWordNoBrace(s: string)
    requires AllWord(s)
    ensures NoneIn(s, {'{'}) && (s != [] ==> !IsWhitespace(s[0]))
  {
    if s != [] {
      AllWordNoBrace(s[1..]);
      assert forall i :: 1 <= i < |s| ==> s[i] == s[1..][i - 1];
    }
  }

  /** The keywords the three patterns are built from. */
  predicate IsKeyword(keyword: string) {
    keyword == "condition" || keyword == "test" || keyword == "result"
  }

  /** Each keyword is a non-empty run of word characters. */
  lemma KeywordWord(keyword: string)
    requires IsKeyword(keyword)
    ensures keyword != [] && AllWord(keyword)
  {
    if keyword == "condition" {
      assert AllWord("condition");
    } else if keyword == "test" {
      assert AllWord("test");
    } else {
      assert AllWord("result");
    }
  }

  /**
   * Where one match lies: `{` at `start`, the keyword at `kwAt`, the name's
   * capture group from `nameAt` up to the closing `}` at `end - 1`.
   */
  datatype TagMatch = TagMatch(start: nat, kwAt: nat, nameAt: nat, end: nat)

  /**
   * `m` is a match of the pattern for `keyword` in `s`. The capture group
   * `\w+(?:\s|\w)*` is greedy, so it runs up to the closing brace and the
   * final `\s*` matches nothing.
   */
  predicate IsTag(s: string, keyword: string, m: TagMatch) {
    var colon := m.kwAt + |keyword| + 1;
    && m.start < m.kwAt && colon <= m.nameAt && m.nameAt + 1 < m.end <= |s|
    && s[m.start] == '{'
    && AllWhitespace(s[m.start + 1..m.kwAt])
    && s[m.kwAt..colon] == keyword + ":"
    && AllWhitespace(s[colon..m.nameAt])
    && IsWordChar(s[m.nameAt])
    && AllWordOrSpace(s[m.nameAt..m.end - 1])
    && s[m.end - 1] == '}'
  }

  /** First index at or after `i` that does not hold whitespace. */
  function SkipSpace(s: string, i: nat): (j: nat)
    requires i <= |s|
    ensures i <= j <= |s| && AllWhitespace(s[i..j]) && (j < |s| ==> !IsWhitespace(s[j]))
    decreases |s| - i
  {
    if i < |s| && IsWhitespace(s[i]) then
      var j := SkipSpace(s, i + 1);
      assert s[i..j] == [s[i]] + s[i + 1..j];
      j
    else i
  }

  /** First index at or after `i` that holds neither a word character nor whitespace. */
  function SkipWordOrSpace(s: string, i: nat): (j: nat)
    requires i <= |s|
    ensures i <= j <= |s| && AllWordOrSpace(s[i..j])
    ensures j < |s| ==> !IsWordChar(s[j]) && !IsWhitespace(s[j])
    decreases |s| - i
  {
    if i < |s| && (IsWordChar(s[i]) || IsWhitespace(s[i])) then
      var j := SkipWordOrSpace(s, i + 1);
      assert s[i..j] == [s[i]] + s[i + 1..j];
      j
    else i
  }

  /** The pattern anchored at position `p`. */
  function MatchAt(s: string, keyword: string, p: nat): Option<TagMatch>
  {
    if p < |s| && s[p] == '{' then
      var k := SkipSpace(s, p + 1);
      var colon := k + |keyword| + 1;
      if colon <= |s| && s[k..colon] == keyword + ":" then
        var n := SkipSpace(s, colon);
        if n < |s| && IsWordChar(s[n]) then
          var e := SkipWordOrSpace(s, n);
          if e < |s| && s[e] == '}' then Some(TagMatch(p, k, n, e + 1)) else None
        else None
      else None
    else None
  }

  lemma {:induction false} SkipSpaceLands(s: string, i: nat, j: nat)
    requires i <= j < |s| && AllWhitespace(s[i..j]) && !IsWhitespace(s[j])
    ensures SkipSpace(s, i) == j
    decreases j - i
  {
    if i < j {
      assert s[i] == s[i..j][0];
      assert s[i + 1..j] == s[i..j][1..];
      SkipSpaceLands(s, i + 1, j);
    }
  }

  lemma {:induction false} SkipWordOrSpaceLands(s: string, i: nat, j: nat)
    requires i <= j < |s| && AllWordOrSpace(s[i..j]) && !IsWordChar(s[j]) && !IsWhitespace(s[j])
    ensures SkipWordOrSpace(s, i) == j
    decreases j - i
  {
    if i < j {
      assert s[i] == s[i..j][0];
      assert s[i + 1..j] == s[i..j][1..];
      SkipWordOrSpaceLands(s, i + 1, j);
    }
  }

  /** The anchored matcher only reports matches of the pattern. */
  lemma MatchAtSound(s: string, keyword: string, p: nat)
    requires MatchAt(s, keyword, p).Some?
    ensures IsTag(s, keyword, MatchAt(s, keyword, p).value)
    ensures MatchAt(s, keyword, p).value.start == p
  {
  }

  /** Every match of the pattern is the one the anchored matcher reports at its start. */
  lemma MatchAtComplete(s: string, keyword: string, m: TagMatch)
    requires IsKeyword(keyword) && IsTag(s, keyword, m)
    ensures MatchAt(s, keyword, m.start) == Some(m)
  {
    KeywordLands(s, keyword, m);
    NameLands(s, keyword, m);
    NameEndLands(s, keyword, m);
    MatchAtLandings(s, keyword, m.start, m.kwAt, m.nameAt, m.end - 1);
  }

  lemma KeywordLands(s: string, keyword: string, m: TagMatch)
    requires IsKeyword(keyword) && IsTag(s, keyword, m)
    ensures SkipSpace(s, m.start + 1) == m.kwAt
  {
    assert s[m.kwAt] == (keyword + ":")[0];
    SkipSpaceLands(s, m.start + 1, m.kwAt);
  }

  lemma NameLands(s: string, keyword: string, m: TagMatch)
    requires IsTag(s, keyword, m)
    ensures SkipSpace(s, m.kwAt + |keyword| + 1) == m.nameAt
  {
    SkipSpaceLands(s, m.kwAt + |keyword| + 1, m.nameAt);
  }

  lemma NameEndLands(s: string, keyword: string, m: TagMatch)
    requires IsTag(s, keyword, m)
    ensures SkipWordOrSpace(s, m.nameAt) == m.end - 1
  {
    SkipWordOrSpaceLands(s, m.nameAt, m.end - 1);
  }

  /** The anchored matcher accepts once each of its skips lands where expected. */
  lemma MatchAtLandings(s: string, keyword: string, p: nat, k: nat, n: nat, e: nat)
    requires p < |s| && s[p] == '{' && p + 1 <= |s| && SkipSpace(s, p + 1) == k
    requires k + |keyword| + 1 <= |s| && s[k..k + |keyword| + 1] == keyword + ":"
    requires SkipSpace(s, k + |keyword| + 1) == n && n < |s| && IsWordChar(s[n])
    requires SkipWordOrSpace(s, n) == e && e < |s| && s[e] == '}'
    ensures MatchAt(s, keyword, p) == Some(TagMatch(p, k, n, e + 1))
  {
  }

  /** Leftmost match at or after `p`. */
  function FindTagFrom(s: string, keyword: string, p: nat): (r: Option<TagMatch>)
    requires IsKeyword(keyword)
    ensures r.Some? ==> IsTag(s, keyword, r.value) && p <= r.value.start
    ensures r.Some? ==> forall m :: IsTag(s, keyword, m) && p <= m.start ==> r.value.start <= m.start
    ensures r.None? ==> forall m :: IsTag(s, keyword, m) ==> m.start < p
    decreases |s| - p
  {
    if p >= |s| then None
    else match MatchAt(s, keyword, p)
      case Some(m) =>
        MatchAtSound(s, keyword, p);
        Some(m)
      case None =>
        assert forall m :: IsTag(s, keyword, m) ==> m.start != p by {
          forall m | IsTag(s, keyword, m)
            ensures m.start != p
          {
            MatchAtComplete(s, keyword, m);
          }
        }
        FindTagFrom(s, keyword, p + 1)
  }

  /** The match the regex engine reports: the leftmost one, or none if the pattern does not occur. */
  function FindTag(s: string, keyword: string): (r: Option<TagMatch>)
    requires IsKeyword(keyword)
    ensures r.Some? ==> IsTag(s, keyword, r.value)
    ensures r.Some? ==> forall m :: IsTag(s, keyword, m) ==> r.value.start <= m.start
    ensures r.None? <==> forall m :: !IsTag(s, keyword, m)
  {
    FindTagFrom(s, keyword, 0)
  }

  /**
   * The `insert_in_choice!` macro: the name captured by the leftmost tag,
   * trimmed (empty when there is no tag), and the text with the whole tag
   * cut out (unchanged when there is no tag).
   */
  function ExtractTag(text: string, keyword: string): (r: (string, string))
    requires IsKeyword(keyword)
    ensures r.1 != [] <==> FindTag(text, keyword).Some?
    ensures FindTag(text, keyword).None? ==> r.0 == text
  {
    match FindTag(text, keyword)
    case None => (text, "")
    case Some(m) => Cut(text, m)
  }

  /** The text without the tag found at `m`, and the tag's trimmed name. */
  function Cut(text: string, m: TagMatch): (r: (string, string))
    requires m.start <= m.nameAt < m.end - 1 && m.end <= |text| && !IsWhitespace(text[m.nameAt])
    ensures r.1 != []
  {
    var name := text[m.nameAt..m.end - 1];
    TrimNonBlank(name);
    (text[..m.start] + text[m.end..], Trim(name))
  }

  /** A name that starts with a non-space character survives trimming. */
  lemma TrimNonBlank(name: string)
    requires name != [] && !IsWhitespace(name[0])
    ensures Trim(name) != []
  {
    assert TrimStart(name) == name;
    TrimEndSpec(name);
  }

  /** A name as the editor writes it: word characters and spaces, starting and ending with a word character. */
  predicate IsName(name: string) {
    name != [] && IsWordChar(name[0]) && IsWordChar(name[|name| - 1]) && AllWordOrSpace(name)
  }

  lemma NameTrimmed(name: string)
    requires IsName(name)
    ensures IsTrimmed(name)
  {
  }

  /** The canonical spelling of a tag. */
  function TagText(keyword: string, name: string): string {
    "{" + keyword + ": " + name + "}"
  }

  /** The position of the canonical tag inserted after `a`. */
  function InsertedMatch(a: string, keyword: string, name: string): TagMatch {
    var kwAt := |a| + 1;
    TagMatch(|a|, kwAt, kwAt + |keyword| + 2, kwAt + |keyword| + 2 + |name| + 1)
  }

  lemma InsertedIsTag(a: string, keyword: string, name: string, b: string)
    requires IsKeyword(keyword) && IsName(name)
    ensures IsTag(a + TagText(keyword, name) + b, keyword, InsertedMatch(a, keyword, name))
  {
    var s := a + TagText(keyword, name) + b;
    var m := InsertedMatch(a, keyword, name);
    var colon := m.kwAt + |keyword| + 1;
    assert s[m.start] == '{';
    assert s[m.start + 1..m.kwAt] == [];
    assert s[m.kwAt..colon] == keyword + ":";
    assert s[colon..m.nameAt] == " ";
    assert s[m.nameAt..m.end - 1] == name;
    assert s[m.end - 1] == '}';
  }

  /** A tag cannot start where there is no opening brace. */
  lemma NoTagWithoutBrace(s: string, keyword: string, q: nat)
    requires IsKeyword(keyword) && q <= |s| && NoneIn(s[..q], {'{'})
    ensures forall m :: IsTag(s, keyword, m) ==> q <= m.start
  {
    forall i | 0 <= i < q
      ensures s[i] != '{'
    {
      assert s[..q][i] == s[i];
    }
  }

  /** The leftmost tag in a text that carries a canonical tag after a brace-free prefix. */
  lemma FindInserted(a: string, keyword: string, name: string, b: string)
    requires IsKeyword(keyword) && IsName(name) && NoneIn(a, {'{'})
    ensures FindTag(a + TagText(keyword, name) + b, keyword) == Some(InsertedMatch(a, keyword, name))
  {
    var s := a + TagText(keyword, name) + b;
    var m := InsertedMatch(a, keyword, name);
    InsertedIsTag(a, keyword, name, b);
    assert s[..|a|] == a;
    NoTagWithoutBrace(s, keyword, |a|);
    var f := FindTag(s, keyword);
    assert f.value.start == m.start;
    MatchAtComplete(s, keyword, f.value);
    MatchAtComplete(s, keyword, m);
  }

  /** The pieces of a text around an inserted canonical tag. */
  lemma InsertedPieces(a: string, keyword: string, name: string, b: string)
    ensures var s, m := a + TagText(keyword, name) + b, InsertedMatch(a, keyword, name);
      m.end <= |s| && m.nameAt <= m.end - 1
      && s[..m.start] == a && s[m.end..] == b && s[m.nameAt..m.end - 1] == name
  {
    var t := TagText(keyword, name);
    var s := a + t + b;
    var m := InsertedMatch(a, keyword, name);
    assert m.end == |a| + |t|;
    assert s[..|a|] == a;
    assert s[|a| + |t|..] == b;
    assert s[|a|..|a| + |t|] == t;
    assert t[|keyword| + 3..|t| - 1] == name;
    assert s[m.nameAt..m.end - 1] == s[|a|..|a| + |t|][|keyword| + 3..|t| - 1];
  }

  /**
   * Cutting a canonical tag back out of a text: when nothing before the tag
   * opens a brace, the extracted name is the inserted one and the remaining
   * text is what surrounded the tag.
   */
  lemma ExtractInserted(a: string, keyword: string, name: string, b: string)
    requires IsKeyword(keyword) && IsName(name) && NoneIn(a, {'{'})
    ensures ExtractTag(a + TagText(keyword, name) + b, keyword) == (a + b, name)
  {
    var s := a + TagText(keyword, name) + b;
    var m := InsertedMatch(a, keyword, name);
    assert FindTag(s, keyword) == Some(m) by {
      FindInserted(a, keyword, name, b);
    }
    assert ExtractTag(s, keyword) == Cut(s, m) by {
      ExtractFound(s, keyword, m);
    }
    assert Cut(s, m) == (a + b, name) by {
      InsertedPieces(a, keyword, name, b);
      assert s[m.nameAt] == s[m.nameAt..m.end - 1][0];
      NameTrimmed(name);
      CutPieces(s, m, a, name, b);
    }
  }

  lemma ExtractFound(text: string, keyword: string, m: TagMatch)
    requires IsKeyword(keyword) && FindTag(text, keyword) == Some(m)
    ensures m.start <= m.nameAt < m.end - 1 && m.end <= |text| && !IsWhitespace(text[m.nameAt])
    ensures ExtractTag(text, keyword) == Cut(text, m)
  {
  }

  lemma CutPieces(text: string, m: TagMatch, pre: string, name: string, post: string)
    requires m.start <= m.nameAt < m.end - 1 && m.end <= |text| && !IsWhitespace(text[m.nameAt])
    requires text[..m.start] == pre && text[m.end..] == post && text[m.nameAt..m.end - 1] == name
    requires IsTrimmed(name)
    ensures Cut(text, m) == (pre + post, name)
  {
    TrimTrimmed(name);
  }

  /** Every `{` of `s` is directly followed by a character that is neither whitespace nor `c`. */
  predicate BracesNotBefore(s: string, c: char) {
    forall i :: 0 <= i < |s| && s[i] == '{' ==> i + 1 < |s| && !IsWhitespace(s[i + 1]) && s[i + 1] != c
  }

  lemma BracesConcat(s: string, t: string, c: char)
    requires BracesNotBefore(s, c) && BracesNotBefore(t, c)
    ensures BracesNotBefore(s + t, c)
  {
    forall i | 0 <= i < |s + t| && (s + t)[i] == '{'
      ensures i + 1 < |s + t| && !IsWhitespace((s + t)[i + 1]) && (s + t)[i + 1] != c
    {
      if i < |s| {
        assert s[i] == '{';
        assert (s + t)[i + 1] == s[i + 1];
      } else {
        assert t[i - |s|] == '{';
        assert (s + t)[i + 1] == t[i - |s| + 1];
      }
    }
  }

  /** The canonical tag for one keyword opens with that keyword's first letter. */
  lemma TagBraces(keyword: string, name: string, c: char)
    requires IsKeyword(keyword) && keyword[0] != c && IsName(name)
    ensures BracesNotBefore(TagText(keyword, name), c)
  {
    var t := TagText(keyword, name);
    KeywordWord(keyword);
    AllWordNoBrace(keyword);
    assert t[1] == keyword[0];
    forall i | 1 <= i < |t|
      ensures t[i] != '{'
    {
      if i <= |keyword| {
        assert t[i] == keyword[i - 1];
      } else if i >= |keyword| + 3 && i < |t| - 1 {
        assert t[i] == name[i - |keyword| - 3];
      }
    }
  }

  /** The leftmost-match search finds nothing when the anchored matcher fails everywhere. */
  lemma NoMatchNoTag(s: string, keyword: string)
    requires IsKeyword(keyword) && forall p: nat :: MatchAt(s, keyword, p).None?
    ensures FindTag(s, keyword).None?
  {
    if FindTag(s, keyword).Some? {
      MatchAtComplete(s, keyword, FindTag(s, keyword).value);
    }
  }

  /** A tag needs its keyword right after its brace (up to whitespace). */
  lemma NoTagForKeyword(s: string, keyword: string)
    requires IsKeyword(keyword) && BracesNotBefore(s, keyword[0])
    ensures FindTag(s, keyword).None?
  {
    forall p: nat
      ensures MatchAt(s, keyword, p).None?
    {
      if p < |s| && s[p] == '{' {
        SkipSpaceLands(s, p + 1, p + 1);
        var colon := p + 1 + |keyword| + 1;
        if colon <= |s| {
          assert s[p + 1..colon][0] != (keyword + ":")[0];
        }
      }
    }
    NoMatchNoTag(s, keyword);
  }

  /** Without an opening brace there is no tag. */
  lemma NoBraceNoTag(s: string, keyword: string)
    requires IsKeyword(keyword) && NoneIn(s, {'{'})
    ensures FindTag(s, keyword).None?
  {
    NoTagForKeyword(s, keyword);
  }

  /** With no tag of the keyword, the text is left as it is and the name is empty. */
  lemma NoTagKept(s: string, keyword: string)
    requires IsKeyword(keyword) && FindTag(s, keyword).None?
    ensures ExtractTag(s, keyword) == (s, "")
  {
  }

  /** A tag written after a brace-free text, with one space before it, is cut out and its name read. */
  lemma TagTaken(pre: string, keyword: string, name: string)
    requires IsKeyword(keyword) && IsName(name) && NoneIn(pre, {'{'})
    ensures ExtractTag(pre + (" " + TagText(keyword, name)), keyword) == (pre + " ", name)
  {
    var a := pre + " ";
    var t := TagText(keyword, name);
    assert a + t + "" == pre + (" " + t);
    assert a + "" == a;
    assert NoneIn(a, {'{'});
    ExtractInserted(a, keyword, name, "");
  }

  /** Reading another keyword leaves such a text untouched. */
  lemma TagSkipped(pre: string, keyword: string, name: string, other: string)
    requires IsKeyword(keyword) && IsName(name) && NoneIn(pre, {'{'})
    requires IsKeyword(other) && other[0] != keyword[0]
    ensures ExtractTag(pre + (" " + TagText(keyword, name)), other) == (pre + (" " + TagText(keyword, name)), "")
  {
    var s := pre + (" " + TagText(keyword, name));
    assert BracesNotBefore(s, other[0]) by {
      TagBraces(keyword, name, other[0]);
      BracesConcat(" ", TagText(keyword, name), other[0]);
      BracesConcat(pre, " " + TagText(keyword, name), other[0]);
    }
    NoTagForKeyword(s, other);
    NoTagKept(s, other);
  }

  /** A brace-free text holds no tag. */
  lemma NoBraceKept(s: string, keyword: string)
    requires IsKeyword(keyword) && NoneIn(s, {'{'})
    ensures ExtractTag(s, keyword) == (s, "")
  {
    NoBraceNoTag(s, keyword);
    NoTagKept(s, keyword);
  }
}

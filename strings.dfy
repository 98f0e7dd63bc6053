/**
 * The operations on Rust `str` values that the story parser and the expression
 * evaluator are built from: trimming, the `split` family, `lines`,
 * `starts_with`, `replacen(.., "", 1)`, and `i32` parsing and printing.
 * Strings are sequences of Unicode scalar values.
 */
module Strings {
  import opened Wrappers

  const I32Min: int := -0x8000_0000
  const I32Max: int := 0x7fff_ffff

  predicate InI32(v: int) {
    I32Min <= v <= I32Max
  }

  /** Unicode White_Space, the set accepted by `char::is_whitespace`, `str::trim` and the regex class `\s`. */
  predicate IsWhitespace(c: char) {
    c == ' ' || ('\t' <= c <= '\r') || c == '\U{0085}' || c == '\U{00A0}' || c == '\U{1680}'
    || ('\U{2000}' <= c <= '\U{200A}') || c == '\U{2028}' || c == '\U{2029}' || c == '\U{202F}'
    || c == '\U{205F}' || c == '\U{3000}'
  }

  predicate AllWhitespace(s: string) {
    forall i :: 0 <= i < |s| ==> IsWhitespace(s[i])
  }

  /** No character of `s` belongs to `cs`. */
  predicate NoneIn(s: string, cs: set<char>) {
    forall i :: 0 <= i < |s| ==> s[i] !in cs
  }

  /** Neither end of `s` is whitespace: what `trim` leaves behind. */
  predicate IsTrimmed(s: string) {
    s == [] || (!IsWhitespace(s[0]) && !IsWhitespace(s[|s| - 1]))
  }

  /** `str::trim_start` */
  function TrimStart(s: string): (r: string)
    ensures |r| <= |s|
  {
    if s != [] && IsWhitespace(s[0]) then TrimStart(s[1..]) else s
  }

  /** `trim_start` removes a whitespace prefix, and no more. */
  lemma {:induction false} TrimStartSpec(s: string)
    ensures TrimStart(s) == s[|s| - |TrimStart(s)|..]
    ensures TrimStart(s) == [] || !IsWhitespace(TrimStart(s)[0])
    ensures AllWhitespace(s[..|s| - |TrimStart(s)|])
  {
    if s != [] && IsWhitespace(s[0]) {
      TrimStartSpec(s[1..]);
      var r := TrimStart(s);
      assert s[1..][|s| - 1 - |r|..] == s[|s| - |r|..];
      assert s[..|s| - |r|] == [s[0]] + s[1..][..|s| - 1 - |r|];
    }
  }

  /** `str::trim_end` */
  function TrimEnd(s: string): (r: string)
    ensures |r| <= |s|
  {
    if s != [] && IsWhitespace(s[|s| - 1]) then TrimEnd(s[..|s| - 1]) else s
  }

  /** `trim_end` removes a whitespace suffix, and no more. */
  lemma {:induction false} TrimEndSpec(s: string)
    ensures TrimEnd(s) == s[..|TrimEnd(s)|]
    ensures TrimEnd(s) == [] || !IsWhitespace(TrimEnd(s)[|TrimEnd(s)| - 1])
    ensures AllWhitespace(s[|TrimEnd(s)|..])
  {
    if s != [] && IsWhitespace(s[|s| - 1]) {
      var init := s[..|s| - 1];
      TrimEndSpec(init);
      var r := TrimEnd(s);
      assert init[..|r|] == s[..|r|];
      assert s[|r|..] == init[|r|..] + [s[|s| - 1]];
    }
  }

  /** `str::trim`: the longest infix of `s` that neither starts nor ends with whitespace. */
  function Trim(s: string): (r: string)
    ensures IsTrimmed(r) && |r| <= |s|
  {
    var t := TrimStart(s);
    var r := TrimEnd(t);
    TrimStartSpec(s);
    TrimEndSpec(t);
    assert IsTrimmed(r) by {
      if r != [] {
        assert r[0] == t[0];
      }
    }
    r
  }

  /** Trimming keeps no character that was not in the input. */
  lemma TrimKeeps(s: string, cs: set<char>)
    requires NoneIn(s, cs)
    ensures NoneIn(Trim(s), cs)
  {
    var t := TrimStart(s);
    var a := |s| - |t|;
    var r := TrimEnd(t);
    TrimStartSpec(s);
    TrimEndSpec(t);
    forall k | 0 <= k < |r|
      ensures r[k] !in cs
    {
      assert r[k] == t[k] == s[a + k];
    }
  }

  /** Trimming a trimmed string changes nothing. */
  lemma TrimTrimmed(s: string)
    requires IsTrimmed(s)
    ensures Trim(s) == s
  {
  }

  lemma {:induction false} TrimStartPadded(a: string, x: string)
    requires AllWhitespace(a) && (x == [] || !IsWhitespace(x[0]))
    ensures TrimStart(a + x) == x
  {
    if a != [] {
      assert (a + x)[1..] == a[1..] + x;
      TrimStartPadded(a[1..], x);
    } else {
      assert a + x == x;
    }
  }

  lemma {:induction false} TrimEndPadded(x: string, b: string)
    requires AllWhitespace(b) && (x == [] || !IsWhitespace(x[|x| - 1]))
    ensures TrimEnd(x + b) == x
  {
    if b != [] {
      assert (x + b)[..|x + b| - 1] == x + b[..|b| - 1];
      TrimEndPadded(x, b[..|b| - 1]);
    } else {
      assert x + b == x;
    }
  }

  /** Whitespace around a trimmed string is exactly what `trim` removes. */
  lemma TrimPadded(a: string, s: string, b: string)
    requires AllWhitespace(a) && AllWhitespace(b) && IsTrimmed(s)
    ensures Trim(a + s + b) == s
  {
    if s == [] {
      assert a + s + b == a + b;
      assert AllWhitespace(a + b);
      TrimStartPadded(a + b, []);
      assert a + b + [] == a + b;
    } else {
      assert a + s + b == a + (s + b);
      TrimStartPadded(a, s + b);
      TrimEndPadded(s, b);
    }
  }

  /** Trimming keeps a prefix that neither starts nor ends with whitespace. */
  lemma TrimStartsWith(s: string, p: string)
    requires StartsWith(s, p) && p != [] && !IsWhitespace(p[0]) && !IsWhitespace(p[|p| - 1])
    ensures StartsWith(Trim(s), p)
  {
    assert s[0] == p[0];
    assert TrimStart(s) == s;
    var r := TrimEnd(s);
    TrimEndSpec(s);
    assert r[..|p|] == s[..|p|];
  }

  /** Index of the first character of `s` that belongs to `cs`. */
  function FirstIn(s: string, cs: set<char>): (r: Option<nat>)
    ensures r.Some? ==> r.value < |s| && s[r.value] in cs && NoneIn(s[..r.value], cs)
    ensures r.None? <==> NoneIn(s, cs)
  {
    if s == [] then None
    else if s[0] in cs then Some(0)
    else match FirstIn(s[1..], cs)
      case None => None
      case Some(i) =>
        assert s[..i + 1] == [s[0]] + s[1..][..i];
        Some(i + 1)
  }

  /** A separator right after a separator-free prefix is the first one. */
  lemma FirstInAfter(a: string, c: char, b: string, cs: set<char>)
    requires NoneIn(a, cs) && c in cs
    ensures FirstIn(a + [c] + b, cs) == Some(|a|)
  {
    if a != [] {
      assert (a + [c] + b)[1..] == a[1..] + [c] + b;
      FirstInAfter(a[1..], c, b, cs);
    }
  }

  /** `str::split` with a char (or a slice of chars) as the pattern. */
  function Split(s: string, seps: set<char>): (parts: seq<string>)
    ensures |parts| >= 1
    ensures forall k :: 0 <= k < |parts| ==> NoneIn(parts[k], seps)
    decreases |s|
  {
    match FirstIn(s, seps)
    case None => [s]
    case Some(i) => [s[..i]] + Split(s[i + 1..], seps)
  }

  /** The inverse of `Split`: the parts with one separator between neighbours. */
  function Join(parts: seq<string>, sep: char): string
  {
    if |parts| == 0 then ""
    else if |parts| == 1 then parts[0]
    else parts[0] + [sep] + Join(parts[1..], sep)
  }

  lemma {:induction false} SplitJoin(parts: seq<string>, sep: char)
    requires |parts| >= 1
    requires forall k :: 0 <= k < |parts| ==> NoneIn(parts[k], {sep})
    ensures Split(Join(parts, sep), {sep}) == parts
  {
    if |parts| == 1 {
      assert FirstIn(parts[0], {sep}).None?;
    } else {
      var rest := Join(parts[1..], sep);
      FirstInAfter(parts[0], sep, rest, {sep});
      var s := parts[0] + [sep] + rest;
      assert s[..|parts[0]|] == parts[0];
      assert s[|parts[0]| + 1..] == rest;
      SplitJoin(parts[1..], sep);
      assert parts == [parts[0]] + parts[1..];
    }
  }

  /** The map-trim-filter step of the source's field lists: trim each part and drop the empty ones. */
  function TrimmedNonEmpty(parts: seq<string>): (fs: seq<string>)
    ensures |fs| <= |parts|
    ensures forall k :: 0 <= k < |fs| ==> fs[k] != [] && IsTrimmed(fs[k])
  {
    if parts == [] then []
    else
      var t := Trim(parts[0]);
      (if t == [] then [] else [t]) + TrimmedNonEmpty(parts[1..])
  }

  /** `text.split(";").map(|x| x.trim()).filter(|x| x.len() > 0)`: the field list of a tagged line. */
  function Fields(text: string): (fs: seq<string>)
    ensures forall k :: 0 <= k < |fs| ==> IsField(fs[k])
  {
    var parts := Split(text, {';'});
    FieldsHaveNoSeparator(parts);
    TrimmedNonEmpty(parts)
  }

  /** What a single field can be: non-empty, trimmed, without a `;`. */
  predicate IsField(f: string) {
    f != [] && IsTrimmed(f) && NoneIn(f, {';'})
  }

  lemma {:induction false} FieldsHaveNoSeparator(parts: seq<string>)
    requires forall k :: 0 <= k < |parts| ==> NoneIn(parts[k], {';'})
    ensures forall k :: 0 <= k < |TrimmedNonEmpty(parts)| ==> NoneIn(TrimmedNonEmpty(parts)[k], {';'})
  {
    if parts != [] {
      TrimKeeps(parts[0], {';'});
      FieldsHaveNoSeparator(parts[1..]);
    }
  }

  lemma {:induction false} TrimmedNonEmptyOfFields(fs: seq<string>)
    requires forall k :: 0 <= k < |fs| ==> IsField(fs[k])
    ensures TrimmedNonEmpty(fs) == fs
  {
    if fs != [] {
      TrimTrimmed(fs[0]);
      assert IsField(fs[0]);
      assert TrimmedNonEmpty(fs) == [fs[0]] + TrimmedNonEmpty(fs[1..]);
      TrimmedNonEmptyOfFields(fs[1..]);
      assert fs == [fs[0]] + fs[1..];
    }
  }

  /** Writing fields out separated by `;` and reading them back gives the same fields. */
  lemma {:induction false} FieldsJoin(fs: seq<string>)
    requires forall k :: 0 <= k < |fs| ==> IsField(fs[k])
    ensures Fields(Join(fs, ';')) == fs
  {
    if fs == [] {
      assert Split("", {';'}) == [""];
      assert Trim("") == "";
    } else {
      SplitJoin(fs, ';');
      TrimmedNonEmptyOfFields(fs);
    }
  }

  /** `str::splitn(2, sep)`: split at the first separator only. */
  function SplitOnce(s: string, sep: char): (parts: seq<string>)
    ensures 1 <= |parts| <= 2
    ensures |parts| == 1 <==> NoneIn(s, {sep})
    ensures |parts| == 1 ==> parts[0] == s
    ensures |parts| == 2 ==> s == parts[0] + [sep] + parts[1] && NoneIn(parts[0], {sep})
  {
    match FirstIn(s, {sep})
    case None => [s]
    case Some(i) =>
      assert s == s[..i] + [sep] + s[i + 1..];
      [s[..i], s[i + 1..]]
  }

  /** Concatenation of a sequence of strings. */
  function Concat(parts: seq<string>): string
  {
    if parts == [] then "" else parts[0] + Concat(parts[1..])
  }

  lemma {:induction false} ConcatAppend(parts: seq<string>, last: string)
    ensures Concat(parts + [last]) == Concat(parts) + last
  {
    if parts != [] {
      assert (parts + [last])[1..] == parts[1..] + [last];
      ConcatAppend(parts[1..], last);
    } else {
      assert Concat([last]) == last + Concat([]);
    }
  }

  function DropLast(s: string): string
    requires s != []
  {
    s[..|s| - 1]
  }

  /**
   * `str::split_inclusive` over a set of terminator characters: every piece but
   * possibly the last ends with its terminator, no piece is empty, and no
   * trailing empty piece is produced.
   */
  function SplitInclusive(s: string, seps: set<char>): (parts: seq<string>)
    ensures s == [] <==> parts == []
    decreases |s|
  {
    if s == [] then []
    else match FirstIn(s, seps)
      case None => [s]
      case Some(i) => [s[..i + 1]] + SplitInclusive(s[i + 1..], seps)
  }

  /** The pieces of `SplitInclusive` put back together give the input. */
  lemma {:induction false} SplitInclusiveConcat(s: string, seps: set<char>)
    ensures Concat(SplitInclusive(s, seps)) == s
    decreases |s|
  {
    if s != [] {
      match FirstIn(s, seps)
      case None =>
        assert Concat([s]) == s + "";
      case Some(i) =>
        var rest := SplitInclusive(s[i + 1..], seps);
        SplitInclusiveConcat(s[i + 1..], seps);
        assert ([s[..i + 1]] + rest)[1..] == rest;
        assert s == s[..i + 1] + s[i + 1..];
    }
  }

  /** No piece is empty, and only its last character can be a terminator. */
  lemma {:induction false} SplitInclusivePieces(s: string, seps: set<char>)
    ensures forall k :: 0 <= k < |SplitInclusive(s, seps)| ==>
      SplitInclusive(s, seps)[k] != [] && NoneIn(DropLast(SplitInclusive(s, seps)[k]), seps)
    decreases |s|
  {
    if s != [] {
      match FirstIn(s, seps)
      case None =>
      case Some(i) =>
        var rest := SplitInclusive(s[i + 1..], seps);
        SplitInclusivePieces(s[i + 1..], seps);
        assert DropLast(s[..i + 1]) == s[..i];
        var parts := [s[..i + 1]] + rest;
        assert SplitInclusive(s, seps) == parts;
        forall k | 0 <= k < |parts|
          ensures parts[k] != [] && NoneIn(DropLast(parts[k]), seps)
        {
          if k > 0 {
            assert parts[k] == rest[k - 1];
          }
        }
    }
  }

  /** Every piece but the last ends with a terminator. */
  lemma {:induction false} SplitInclusiveTerminated(s: string, seps: set<char>)
    ensures forall k :: 0 <= k < |SplitInclusive(s, seps)| - 1 ==>
      SplitInclusive(s, seps)[k] != [] && SplitInclusive(s, seps)[k][|SplitInclusive(s, seps)[k]| - 1] in seps
    decreases |s|
  {
    if s != [] {
      match FirstIn(s, seps)
      case None =>
      case Some(i) =>
        var rest := SplitInclusive(s[i + 1..], seps);
        SplitInclusiveTerminated(s[i + 1..], seps);
        SplitInclusivePieces(s[i + 1..], seps);
        var parts := [s[..i + 1]] + rest;
        assert SplitInclusive(s, seps) == parts;
        forall k | 0 <= k < |parts| - 1
          ensures parts[k] != [] && parts[k][|parts[k]| - 1] in seps
        {
          if k > 0 {
            assert parts[k] == rest[k - 1];
          }
        }
    }
  }

  /** A terminator after a terminator-free prefix ends the first piece. */
  lemma SplitInclusiveAfter(a: string, c: char, rest: string, seps: set<char>)
    requires NoneIn(a, seps) && c in seps
    ensures SplitInclusive(a + [c] + rest, seps) == [a + [c]] + SplitInclusive(rest, seps)
  {
    FirstInAfter(a, c, rest, seps);
    var s := a + [c] + rest;
    assert s[..|a| + 1] == a + [c] && s[|a| + 1..] == rest;
  }

  /** A string without terminators is a single piece. */
  lemma SplitInclusiveSingle(s: string, seps: set<char>)
    requires s != [] && NoneIn(s, seps)
    ensures SplitInclusive(s, seps) == [s]
  {
  }

  /** `lines()` drops one trailing `\n`, and a `\r` right before it. */
  function StripLineEnding(line: string): string
  {
    if line != [] && line[|line| - 1] == '\n' then
      var l := line[..|line| - 1];
      if l != [] && l[|l| - 1] == '\r' then l[..|l| - 1] else l
    else line
  }

  /** `str::lines`: split after every `\n`, then strip the line endings. */
  function Lines(text: string): (lines: seq<string>)
    ensures |lines| == |SplitInclusive(text, {'\n'})|
  {
    var parts := SplitInclusive(text, {'\n'});
    seq(|parts|, k requires 0 <= k < |parts| => StripLineEnding(parts[k]))
  }

  /** `str::starts_with` */
  predicate StartsWith(s: string, prefix: string) {
    |prefix| <= |s| && s[..|prefix|] == prefix
  }

  /** Index of the leftmost occurrence of `pat` in `s` at or after `i`. */
  function FindFrom(s: string, pat: string, i: nat): (r: Option<nat>)
    requires i <= |s|
    ensures r.Some? ==> i <= r.value && r.value + |pat| <= |s|
    decreases |s| - i
  {
    if StartsWith(s[i..], pat) then Some(i)
    else if i == |s| then None
    else FindFrom(s, pat, i + 1)
  }

  /** `FindFrom` finds an occurrence, and there is none before the one it finds. */
  lemma {:induction false} FindFromLeftmost(s: string, pat: string, i: nat)
    requires i <= |s|
    ensures FindFrom(s, pat, i).Some? ==> StartsWith(s[FindFrom(s, pat, i).value..], pat)
    ensures FindFrom(s, pat, i).Some? ==> forall j :: i <= j < FindFrom(s, pat, i).value ==> !StartsWith(s[j..], pat)
    ensures FindFrom(s, pat, i).None? ==> forall j :: i <= j <= |s| ==> !StartsWith(s[j..], pat)
    decreases |s| - i
  {
    if !StartsWith(s[i..], pat) && i < |s| {
      FindFromLeftmost(s, pat, i + 1);
    }
  }

  /** Index of the leftmost occurrence of `pat` in `s`. */
  function Find(s: string, pat: string): (r: Option<nat>)
    ensures r.Some? ==> r.value + |pat| <= |s|
  {
    FindFrom(s, pat, 0)
  }

  /** `Find` gives the leftmost occurrence, or none when there is none. */
  lemma FindLeftmost(s: string, pat: string)
    ensures Find(s, pat).Some? ==> StartsWith(s[Find(s, pat).value..], pat)
    ensures Find(s, pat).Some? ==> forall j :: 0 <= j < Find(s, pat).value ==> !StartsWith(s[j..], pat)
    ensures Find(s, pat).None? ==> forall j :: 0 <= j <= |s| ==> !StartsWith(s[j..], pat)
  {
    FindFromLeftmost(s, pat, 0);
  }

  /** `s.replacen(pat, "", 1)`: remove the leftmost occurrence of `pat`, if any. */
  function RemoveFirst(s: string, pat: string): string
  {
    match Find(s, pat)
    case None => s
    case Some(i) => s[..i] + s[i + |pat|..]
  }

  /** On a line that starts with the tag, removing the tag's first occurrence drops the prefix. */
  lemma RemoveFirstPrefix(s: string, pat: string)
    requires StartsWith(s, pat)
    ensures RemoveFirst(s, pat) == s[|pat|..]
  {
    assert s[0..] == s;
    assert Find(s, pat) == Some(0);
  }

  /** Without an occurrence, nothing is removed. */
  lemma RemoveFirstAbsent(s: string, pat: string)
    requires forall j :: 0 <= j <= |s| ==> !StartsWith(s[j..], pat)
    ensures RemoveFirst(s, pat) == s
  {
    FindLeftmost(s, pat);
  }

  predicate IsDigit(c: char) {
    '0' <= c <= '9'
  }

  predicate AllDigits(s: string) {
    forall i :: 0 <= i < |s| ==> IsDigit(s[i])
  }

  /** The value of a string of decimal digits. */
  function DigitsValue(s: string): nat
    requires AllDigits(s)
  {
    if s == [] then 0 else DigitsValue(s[..|s| - 1]) * 10 + (s[|s| - 1] as int - '0' as int)
  }

  /** `str::parse::<i32>()`: an optional sign, at least one digit, and a value inside the 32-bit range. */
  function ParseI32(s: string): (r: Option<int>)
    ensures r.Some? ==> InI32(r.value)
  {
    var negative := |s| > 0 && s[0] == '-';
    var digits := if |s| > 0 && (s[0] == '-' || s[0] == '+') then s[1..] else s;
    if digits == [] || !AllDigits(digits) then None
    else
      var v: int := if negative then -(DigitsValue(digits) as int) else DigitsValue(digits);
      if InI32(v) then Some(v) else None
  }

  function Digit(d: nat): (c: char)
    requires d < 10
    ensures IsDigit(c) && c as int - '0' as int == d
  {
    ('0' as int + d) as char
  }

  /** Decimal form of a natural number, without leading zeros. */
  function NatToString(n: nat): (s: string)
    ensures s != [] && AllDigits(s)
    decreases n
  {
    if n < 10 then [Digit(n)] else NatToString(n / 10) + [Digit(n % 10)]
  }

  /** Decimal form of an integer, as `Display` writes it: a `-` for negative values, then the digits. */
  function IntToString(v: int): (s: string)
    ensures s != []
  {
    if v < 0 then "-" + NatToString(-v) else NatToString(v)
  }

  lemma {:induction false} DigitsOfNat(n: nat)
    ensures DigitsValue(NatToString(n)) == n
    decreases n
  {
    if n >= 10 {
      DigitsOfNat(n / 10);
      var s := NatToString(n);
      assert s[..|s| - 1] == NatToString(n / 10);
    }
  }

  /** Every 32-bit value prints to a string that parses back to it. */
  lemma ParseIntToString(v: int)
    requires InI32(v)
    ensures ParseI32(IntToString(v)) == Some(v)
  {
    var s := IntToString(v);
    if v < 0 {
      DigitsOfNat(-v);
      assert s[1..] == NatToString(-v);
    } else {
      DigitsOfNat(v);
      assert s[0] != '-' && s[0] != '+';
    }
  }

  /** The printed form of an integer holds only digits and possibly a leading `-`. */
  lemma IntToStringChars(v: int, c: char)
    requires c != '-' && !IsDigit(c)
    ensures c !in IntToString(v)
  {
    var s := IntToString(v);
    if v < 0 {
      assert forall i :: 1 <= i < |s| ==> s[i] == NatToString(-v)[i - 1];
    }
  }
}

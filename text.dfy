/**
 * The JavaScript string operations the timetable pipeline relies on, each
 * with the semantics of the ECMAScript built-in it stands for:
 * `startsWith`, `endsWith`, `indexOf`, `substring`, `replace` with a string
 * pattern, `split` with a string separator, `trim`, the global replacement
 * of the pattern /h\d+/, and the decimal printing of integers.
 */
module Text {

  datatype Option<+T> = None | Some(value: T)

  predicate IsDigit(c: char) { '0' <= c <= '9' }

  function DigitValue(c: char): (v: nat)
    requires IsDigit(c)
    ensures v < 10
  {
    (c as int) - ('0' as int)
  }

  function DigitChar(v: nat): (c: char)
    requires v < 10
    ensures IsDigit(c) && DigitValue(c) == v
  {
    (('0' as int) + v) as char
  }

  predicate AllDigits(s: string) { forall i :: 0 <= i < |s| ==> IsDigit(s[i]) }

  predicate StartsWith(s: string, prefix: string)
  {
    |prefix| <= |s| && s[..|prefix|] == prefix
  }

  predicate EndsWith(s: string, suffix: string)
  {
    |suffix| <= |s| && s[|s| - |suffix|..] == suffix
  }

  /** A text that starts with a prefix holds each of its characters at the same place. */
  lemma PrefixChar(s: string, prefix: string, k: int)
    requires 0 <= k < |prefix| && StartsWith(s, prefix)
    ensures k < |s| && s[k] == prefix[k]
  {
    assert s[..|prefix|][k] == s[k];
  }

  /** `pat` occurs in `s` at position `j`. */
  predicate MatchAt(s: string, pat: string, j: int)
  {
    0 <= j && j + |pat| <= |s| && s[j..j + |pat|] == pat
  }

  /** `String.prototype.indexOf`: the first position at which `pat` occurs, or None (-1). */
  function IndexOf(s: string, pat: string): (r: Option<nat>)
    ensures r.Some? ==> MatchAt(s, pat, r.value)
    ensures r.Some? ==> forall k :: 0 <= k < r.value ==> !MatchAt(s, pat, k)
    ensures r.None? ==> forall k :: 0 <= k ==> !MatchAt(s, pat, k)
    decreases |s|
  {
    if |s| < |pat| then None
    else if s[..|pat|] == pat then Some(0)
    else
      var t := IndexOf(s[1..], pat);
      forall k | 1 <= k ensures MatchAt(s, pat, k) <==> MatchAt(s[1..], pat, k - 1) {
        MatchShift(s, pat, k);
      }
      if t.None? then None else Some(t.value + 1)
  }

  lemma MatchShift(s: string, pat: string, k: int)
    requires 1 <= k && |s| >= 1
    ensures MatchAt(s, pat, k) <==> MatchAt(s[1..], pat, k - 1)
  {
    var t := s[1..];
    if k + |pat| <= |s| {
      var u, v := s[k..k + |pat|], t[k - 1..k - 1 + |pat|];
      forall i | 0 <= i < |pat| ensures u[i] == v[i] {
        assert u[i] == s[k + i] && v[i] == t[k - 1 + i];
      }
      assert u == v;
    } else {
      assert !(k - 1 + |pat| <= |t|);
    }
  }

  /** A prefix one element longer is the shorter prefix and that element. */
  lemma PrefixSnoc<T>(s: seq<T>, i: int)
    requires 0 <= i < |s|
    ensures s[..i + 1] == s[..i] + [s[i]]
  {
  }

  /** A slice of a slice is a slice of the whole. */
  lemma SliceOfSlice(s: string, a: int, b: int, c: int, d: int)
    requires 0 <= a <= b <= |s| && 0 <= c <= d <= b - a
    ensures s[a..b][c..d] == s[a + c..a + d]
  {
    var u, v := s[a..b][c..d], s[a + c..a + d];
    forall i | 0 <= i < d - c ensures u[i] == v[i] {
      assert u[i] == s[a..b][c + i] == s[a + c + i];
    }
    assert u == v;
  }

  /** `String.prototype.substring(a, b)`: both bounds are clamped to the string and swapped when out of order. */
  function Substring(s: string, a: int, b: int): (r: string)
    ensures var fa, fb := Clamp(a, |s|), Clamp(b, |s|);
            r == s[(if fa <= fb then fa else fb)..(if fa <= fb then fb else fa)]
  {
    var lo := Clamp(if a <= b then a else b, |s|);
    var hi := Clamp(if a <= b then b else a, |s|);
    s[lo..hi]
  }

  function Clamp(x: int, n: nat): (r: nat)
    ensures r <= n
    ensures 0 <= x <= n ==> r == x
    ensures x < 0 ==> r == 0
    ensures x > n ==> r == n
  {
    if x < 0 then 0 else if x > n then n else x
  }

  /** `String.prototype.replace(pat, rep)` with a string pattern: only the first occurrence is replaced. */
  function ReplaceFirst(s: string, pat: string, rep: string): (r: string)
    ensures IndexOf(s, pat).None? ==> r == s
    ensures IndexOf(s, pat).Some? ==>
      var j := IndexOf(s, pat).value;
      && |r| == |s| - |pat| + |rep|
      && r[..j] == s[..j] && r[j..j + |rep|] == rep && r[j + |rep|..] == s[j + |pat|..]
  {
    match IndexOf(s, pat)
    case None => s
    case Some(j) => s[..j] + rep + s[j + |pat|..]
  }

  lemma ReplacePrefix(s: string, prefix: string)
    requires StartsWith(s, prefix)
    ensures ReplaceFirst(s, prefix, "") == s[|prefix|..]
  {
    assert s[..|prefix|] == prefix;
    assert IndexOf(s, prefix) == Some(0);
  }

  /** `String.prototype.split(sep)` with a non-empty string separator. */
  function Split(s: string, sep: string): (parts: seq<string>)
    requires |sep| > 0
    ensures |parts| >= 1
    ensures forall i :: 0 <= i < |parts| ==> IndexOf(parts[i], sep).None?
    ensures Join(parts, sep) == s
    decreases |s|
  {
    match IndexOf(s, sep)
    case None => [s]
    case Some(j) =>
      var rest := Split(s[j + |sep|..], sep);
      NoMatchInPrefix(s, sep, j);
      assert s == s[..j] + sep + s[j + |sep|..];
      [s[..j]] + rest
  }

  /** The parts rejoined by the separator, as `Array.prototype.join(sep)` does. */
  function Join(parts: seq<string>, sep: string): string
    requires |parts| >= 1
  {
    if |parts| == 1 then parts[0] else parts[0] + sep + Join(parts[1..], sep)
  }

  /** The first two parts of a join, and the rest. */
  lemma JoinFront(parts: seq<string>, sep: string)
    requires |parts| >= 2
    ensures |parts| == 2 ==> Join(parts, sep) == parts[0] + sep + parts[1]
    ensures |parts| >= 3 ==> Join(parts, sep) == parts[0] + sep + parts[1] + sep + Join(parts[2..], sep)
  {
    assert parts[1..][1..] == parts[2..];
  }

  lemma NoMatchInPrefix(s: string, pat: string, j: nat)
    requires j <= |s| && |pat| > 0
    requires forall k :: 0 <= k < j ==> !MatchAt(s, pat, k)
    ensures IndexOf(s[..j], pat).None?
  {
    var p := s[..j];
    forall k | 0 <= k ensures !MatchAt(p, pat, k) {
      if k + |pat| <= j {
        SliceOfSlice(s, 0, j, k, k + |pat|);
        assert k < j && !MatchAt(s, pat, k);
      }
    }
  }

  /**
   * `part` can stand before a separator without the separator being found
   * earlier: no occurrence of `sep` starts inside `part` in `part + sep`.
   */
  predicate IsSegment(part: string, sep: string)
    requires |sep| > 0
  {
    IndexOf(part + sep[..|sep| - 1], sep).None?
  }

  lemma SplitCons(part: string, sep: string, rest: string)
    requires |sep| > 0 && IsSegment(part, sep)
    ensures Split(part + sep + rest, sep) == [part] + Split(rest, sep)
  {
    var s := part + sep + rest;
    var t := part + sep[..|sep| - 1];
    forall k | 0 <= k < |part| ensures !MatchAt(s, sep, k) {
      assert s[k..k + |sep|] == t[k..k + |sep|];
      assert !MatchAt(t, sep, k);
    }
    assert s[|part|..|part| + |sep|] == sep;
    assert MatchAt(s, sep, |part|);
    assert IndexOf(s, sep) == Some(|part|);
    assert s[..|part|] == part;
    assert s[|part| + |sep|..] == rest;
  }

  /** The text before the first separator is a segment: the separator is found no earlier. */
  lemma HeadIsSegment(s: string, sep: string)
    requires |sep| > 0 && IndexOf(s, sep).Some?
    ensures IsSegment(s[..IndexOf(s, sep).value], sep)
  {
    var j := IndexOf(s, sep).value;
    var t := s[..j] + sep[..|sep| - 1];
    assert s[j..j + |sep|] == sep;
    assert t == s[..j + |sep| - 1];
    forall k | 0 <= k ensures !MatchAt(t, sep, k) {
      if k + |sep| <= |t| {
        SliceOfSlice(s, 0, j + |sep| - 1, k, k + |sep|);
        assert k < j && !MatchAt(s, sep, k);
      }
    }
  }

  /** Every part of a split but the last is a segment, since it ends at the leftmost match. */
  lemma {:induction false} SplitPartsAreSegments(s: string, sep: string)
    requires |sep| > 0
    ensures forall i :: 0 <= i < |Split(s, sep)| - 1 ==> IsSegment(Split(s, sep)[i], sep)
    decreases |s|
  {
    match IndexOf(s, sep)
    case None =>
    case Some(j) =>
      HeadIsSegment(s, sep);
      var rest := Split(s[j + |sep|..], sep);
      SplitPartsAreSegments(s[j + |sep|..], sep);
      var parts := Split(s, sep);
      assert parts == [s[..j]] + rest;
      forall i | 0 <= i < |parts| - 1 ensures IsSegment(parts[i], sep) {
        if i > 0 { assert parts[i] == rest[i - 1]; }
      }
  }

  /** A one-character pattern that occurs nowhere is a character the text lacks. */
  lemma NoCharMatch(s: string, c: char)
    requires IndexOf(s, [c]).None?
    ensures c !in s
  {
    forall k | 0 <= k < |s| ensures s[k] != c {
      assert !MatchAt(s, [c], k);
      assert s[k..k + 1] == [s[k]];
    }
  }

  /** A pattern with a character the text lacks occurs nowhere in it. */
  lemma AbsentCharNoMatch(s: string, pat: string, j: int)
    requires 0 <= j < |pat| && pat[j] !in s
    ensures IndexOf(s, pat).None?
  {
    forall k | 0 <= k ensures !MatchAt(s, pat, k) {
      if k + |pat| <= |s| {
        assert s[k..k + |pat|][j] == s[k + j];
      }
    }
  }

  /** The first part of a split is the whole text, or it is followed by the separator. */
  lemma SplitHead(s: string, sep: string)
    requires |sep| > 0
    ensures |Split(s, sep)| == 1 ==> s == Split(s, sep)[0]
    ensures |Split(s, sep)| >= 2 ==> StartsWith(s, Split(s, sep)[0] + sep)
    ensures Split(s, sep)[0] == s <==> IndexOf(s, sep).None?
  {
    var parts := Split(s, sep);
    if |parts| >= 2 {
      var head := parts[0] + sep;
      assert s == head + Join(parts[1..], sep);
      assert s[..|head|] == head;
    }
  }

  lemma SplitSingle(s: string, sep: string)
    requires |sep| > 0 && IndexOf(s, sep).None?
    ensures Split(s, sep) == [s]
  {
  }

  /** The characters `String.prototype.trim` removes: WhiteSpace and LineTerminator of ECMAScript. */
  predicate IsWhitespace(c: char)
  {
    || c == ' ' || c == '\t' || c == '\n' || c == '\r' || c == '\U{000B}' || c == '\U{000C}'
    || c == '\U{00A0}' || c == '\U{FEFF}' || c == '\U{1680}' || ('\U{2000}' <= c <= '\U{200A}')
    || c == '\U{2028}' || c == '\U{2029}' || c == '\U{202F}' || c == '\U{205F}' || c == '\U{3000}'
  }

  predicate AllWhitespace(s: string) { forall i :: 0 <= i < |s| ==> IsWhitespace(s[i]) }

  function TrimStart(s: string): (r: string)
    ensures |r| <= |s| && r == s[|s| - |r|..]
    ensures AllWhitespace(s[..|s| - |r|])
    ensures r == [] || !IsWhitespace(r[0])
    decreases |s|
  {
    if |s| > 0 && IsWhitespace(s[0]) then
      var t := s[1..];
      var r := TrimStart(t);
      var k := |s| - |r|;
      assert t[k - 1..] == s[k..];
      assert s[..k] == [s[0]] + t[..k - 1];
      WhitespaceCons(s[0], t[..k - 1]);
      r
    else s
  }

  function TrimEnd(s: string): (r: string)
    ensures |r| <= |s| && r == s[..|r|]
    ensures AllWhitespace(s[|r|..])
    ensures r == [] || !IsWhitespace(r[|r| - 1])
    decreases |s|
  {
    if |s| > 0 && IsWhitespace(s[|s| - 1]) then
      var t := s[..|s| - 1];
      var r := TrimEnd(t);
      assert t[..|r|] == s[..|r|];
      assert s[|r|..] == t[|r|..] + [s[|s| - 1]];
      WhitespaceSnoc(t[|r|..], s[|s| - 1]);
      r
    else s
  }

  lemma WhitespaceCons(c: char, w: string)
    requires IsWhitespace(c) && AllWhitespace(w)
    ensures AllWhitespace([c] + w)
  {
    forall i | 0 <= i < |w| ensures ([c] + w)[i + 1] == w[i] { }
  }

  lemma WhitespaceSnoc(w: string, c: char)
    requires AllWhitespace(w) && IsWhitespace(c)
    ensures AllWhitespace(w + [c])
  {
    forall i | 0 <= i < |w| ensures (w + [c])[i] == w[i] { }
  }

  /** `String.prototype.trim`. */
  function Trim(s: string): (r: string)
    ensures r == [] || (!IsWhitespace(r[0]) && !IsWhitespace(r[|r| - 1]))
  {
    TrimEnd(TrimStart(s))
  }

  /** Trim removes exactly the whitespace around a core that neither starts nor ends with whitespace. */
  lemma TrimPadded(lead: string, core: string, trail: string)
    requires AllWhitespace(lead) && AllWhitespace(trail)
    requires core == [] || (!IsWhitespace(core[0]) && !IsWhitespace(core[|core| - 1]))
    ensures Trim(lead + core + trail) == core
  {
    var s := lead + core + trail;
    if core == [] {
      assert AllWhitespace(s) by {
        forall i | 0 <= i < |s| ensures IsWhitespace(s[i]) {
          if i < |lead| { assert s[i] == lead[i]; } else { assert s[i] == trail[i - |lead|]; }
        }
      }
      TrimStartAll(s);
    } else {
      assert s == lead + (core + trail);
      TrimStartPadded(lead, core + trail);
      assert TrimStart(core + trail) == core + trail;
      TrimEndPadded(core, trail);
    }
  }

  lemma {:induction false} TrimStartAll(s: string)
    requires AllWhitespace(s)
    ensures TrimStart(s) == []
    decreases |s|
  {
    if s != [] {
      assert AllWhitespace(s[1..]) by {
        forall i | 0 <= i < |s| - 1 ensures IsWhitespace(s[1..][i]) {
          assert s[1..][i] == s[i + 1];
        }
      }
      TrimStartAll(s[1..]);
    }
  }

  lemma {:induction false} TrimStartPadded(lead: string, rest: string)
    requires AllWhitespace(lead)
    requires rest == [] || !IsWhitespace(rest[0])
    ensures TrimStart(lead + rest) == TrimStart(rest)
    decreases |lead|
  {
    if lead != [] {
      var s := lead + rest;
      assert s[0] == lead[0];
      assert s[1..] == lead[1..] + rest;
      assert AllWhitespace(lead[1..]) by {
        forall i | 0 <= i < |lead| - 1 ensures IsWhitespace(lead[1..][i]) {
          assert lead[1..][i] == lead[i + 1];
        }
      }
      TrimStartPadded(lead[1..], rest);
    } else {
      assert lead + rest == rest;
    }
  }

  lemma {:induction false} TrimEndPadded(core: string, trail: string)
    requires AllWhitespace(trail)
    requires core == [] || !IsWhitespace(core[|core| - 1])
    ensures TrimEnd(core + trail) == core
    decreases |trail|
  {
    var s := core + trail;
    if trail != [] {
      assert s[|s| - 1] == trail[|trail| - 1];
      var shorter := trail[..|trail| - 1];
      assert s[..|s| - 1] == core + shorter;
      assert AllWhitespace(shorter) by {
        forall i | 0 <= i < |shorter| ensures IsWhitespace(shorter[i]) {
          assert shorter[i] == trail[i];
        }
      }
      TrimEndPadded(core, shorter);
    } else {
      assert s == core;
    }
  }

  /** The length of the run of digits at the start of `s`. */
  function DigitRun(s: string): (n: nat)
    ensures n <= |s| && AllDigits(s[..n])
    ensures n < |s| ==> !IsDigit(s[n])
    decreases |s|
  {
    if |s| > 0 && IsDigit(s[0]) then 1 + DigitRun(s[1..]) else 0
  }

  /** No class token remains: no `h` is directly followed by a digit. */
  predicate NoClassToken(s: string)
  {
    forall i :: 0 <= i < |s| - 1 ==> !(s[i] == 'h' && IsDigit(s[i + 1]))
  }

  /**
   * `s.replace(/h\d+/g, '')`: scanning from the left, every `h` followed by
   * a maximal run of one or more digits is deleted; everything else is kept.
   */
  function StripClassTokens(s: string): (r: string)
    ensures |r| <= |s|
    ensures NoClassToken(r)
    ensures |s| > 0 && !IsDigit(s[0]) ==> r == [] || !IsDigit(r[0])
    ensures forall c :: c != 'h' && !IsDigit(c) ==> multiset(r)[c] == multiset(s)[c]
    decreases |s|
  {
    if |s| == 0 then []
    else if s[0] == 'h' && |s| >= 2 && IsDigit(s[1]) then
      var n := 1 + DigitRun(s[1..]);
      TokenEnd(s, n);
      TokenCounts(s, n);
      StripClassTokens(s[n..])
    else
      var rest := StripClassTokens(s[1..]);
      ConsNoToken(s[0], rest);
      ConsCounts(s, rest);
      [s[0]] + rest
  }

  /** The run of digits after a leading `h` ends the token: what follows is not a digit. */
  lemma TokenEnd(s: string, n: nat)
    requires |s| >= 2 && s[0] == 'h' && n == 1 + DigitRun(s[1..])
    ensures n <= |s| && AllDigits(s[1..n])
    ensures n < |s| ==> !IsDigit(s[n])
  {
    assert s[1..][..n - 1] == s[1..n];
    if n < |s| { assert s[1..][n - 1] == s[n]; }
  }

  /** A character kept in front of a stripped rest creates no token unless it is an `h` before a digit. */
  lemma ConsNoToken(x: char, rest: string)
    requires NoClassToken(rest)
    requires x == 'h' ==> rest == [] || !IsDigit(rest[0])
    ensures NoClassToken([x] + rest)
  {
    var t := [x] + rest;
    forall i | 0 <= i < |t| - 1 ensures !(t[i] == 'h' && IsDigit(t[i + 1])) {
      if i > 0 { assert t[i] == rest[i - 1] && t[i + 1] == rest[i]; }
    }
  }

  /** Keeping the first character keeps the counts that the rest keeps. */
  lemma ConsCounts(s: string, rest: string)
    requires |s| > 0
    requires forall c :: c != 'h' && !IsDigit(c) ==> multiset(rest)[c] == multiset(s[1..])[c]
    ensures forall c :: c != 'h' && !IsDigit(c) ==> multiset([s[0]] + rest)[c] == multiset(s)[c]
  {
    assert s == [s[0]] + s[1..];
  }

  lemma TokenCounts(s: string, n: nat)
    requires 1 <= n <= |s| && s[0] == 'h' && AllDigits(s[1..n])
    ensures forall c :: c != 'h' && !IsDigit(c) ==> multiset(s[n..])[c] == multiset(s)[c]
  {
    assert s == s[..n] + s[n..];
    forall i | 1 <= i < n ensures IsDigit(s[..n][i]) {
      assert s[..n][i] == s[1..n][i - 1];
    }
    forall c | c != 'h' && !IsDigit(c) ensures multiset(s[..n])[c] == 0 {
    }
  }

  lemma {:induction false} StripNoToken(s: string)
    requires NoClassToken(s)
    ensures StripClassTokens(s) == s
    decreases |s|
  {
    if |s| > 0 {
      assert !(s[0] == 'h' && |s| >= 2 && IsDigit(s[1])) by {
        if |s| >= 2 { assert !(s[0] == 'h' && IsDigit(s[1])); }
      }
      assert NoClassToken(s[1..]) by {
        forall i | 0 <= i < |s[1..]| - 1 ensures !(s[1..][i] == 'h' && IsDigit(s[1..][i + 1])) {
          assert s[1..][i] == s[i + 1] && s[1..][i + 1] == s[i + 2];
        }
      }
      StripNoToken(s[1..]);
      assert s == [s[0]] + s[1..];
    }
  }

  /**
   * A first character that does not start a token is kept, in front of the
   * rest stripped. With StripLeadingToken and the empty text this fixes the
   * result on every input.
   */
  lemma StripKeepsHead(c: char, rest: string)
    requires !(c == 'h' && rest != [] && IsDigit(rest[0]))
    ensures StripClassTokens([c] + rest) == [c] + StripClassTokens(rest)
  {
    var s := [c] + rest;
    assert s[0] == c && s[1..] == rest;
    if |s| >= 2 { assert s[1] == rest[0]; }
  }

  /** A leading `h` and the whole run of digits after it are deleted together. */
  lemma StripLeadingToken(digits: string, rest: string)
    requires |digits| > 0 && AllDigits(digits)
    requires rest == [] || !IsDigit(rest[0])
    ensures StripClassTokens("h" + digits + rest) == StripClassTokens(rest)
  {
    TokenAtFront(digits, rest);
  }

  /** The layout `StripClassTokens` sees at the front of `h`, digits and a rest. */
  lemma TokenAtFront(digits: string, rest: string)
    requires |digits| > 0 && AllDigits(digits)
    requires rest == [] || !IsDigit(rest[0])
    ensures var s := "h" + digits + rest;
      && s[0] == 'h' && |s| >= 2 && IsDigit(s[1])
      && DigitRun(s[1..]) == |digits| && s[1 + |digits|..] == rest
  {
    var s := "h" + digits + rest;
    assert s[1..] == digits + rest;
    assert s[1] == digits[0];
    DigitRunOf(digits, rest);
  }

  lemma {:induction false} DigitRunOf(digits: string, rest: string)
    requires AllDigits(digits)
    requires rest == [] || !IsDigit(rest[0])
    ensures DigitRun(digits + rest) == |digits|
    decreases |digits|
  {
    if |digits| > 0 {
      assert (digits + rest)[1..] == digits[1..] + rest;
      assert AllDigits(digits[1..]) by { assert forall i :: 0 <= i < |digits[1..]| ==> digits[1..][i] == digits[i + 1]; }
      DigitRunOf(digits[1..], rest);
    } else {
      assert digits + rest == rest;
    }
  }

  /** Decimal digits of a natural number, without leading zeros. */
  function NatToString(n: nat): (r: string)
    ensures |r| >= 1 && AllDigits(r)
    ensures r[0] == '0' ==> n == 0
    decreases n
  {
    if n < 10 then [DigitChar(n)] else NatToString(n / 10) + [DigitChar(n % 10)]
  }

  /** `String(x)` for an integer-valued Number. */
  function IntToString(x: int): string
  {
    if x < 0 then "-" + NatToString(-x) else NatToString(x)
  }

  /** The value of a string of decimal digits (0 for the empty string). */
  function DigitsValue(s: string): nat
    requires AllDigits(s)
  {
    if s == [] then 0 else DigitsValue(s[..|s| - 1]) * 10 + DigitValue(s[|s| - 1])
  }

  /** `n` written with exactly `width` digits, zeros in front. */
  function PadDigits(n: nat, width: nat): (r: string)
    ensures |r| == width && AllDigits(r)
  {
    if width == 0 then [] else PadDigits(n / 10, width - 1) + [DigitChar(n % 10)]
  }

  function Pow10(k: nat): (p: nat)
    ensures p >= 1
  {
    if k == 0 then 1 else 10 * Pow10(k - 1)
  }

  lemma {:induction false} PadDigitsValue(n: nat, width: nat)
    requires n < Pow10(width)
    ensures DigitsValue(PadDigits(n, width)) == n
  {
    if width > 0 {
      var q, d := n / 10, n % 10;
      assert n == 10 * q + d && d < 10;
      assert Pow10(width) == 10 * Pow10(width - 1);
      assert q < Pow10(width - 1);
      var r := PadDigits(n, width);
      assert r == PadDigits(q, width - 1) + [DigitChar(d)];
      assert r[..|r| - 1] == PadDigits(q, width - 1);
      assert DigitValue(r[|r| - 1]) == d;
      PadDigitsValue(q, width - 1);
    }
  }

  lemma {:induction false} DigitsValuePad(s: string)
    requires AllDigits(s)
    ensures DigitsValue(s) < Pow10(|s|)
    ensures PadDigits(DigitsValue(s), |s|) == s
  {
    if s != [] {
      var init := s[..|s| - 1];
      DigitsValuePad(init);
      var v := DigitsValue(s);
      assert v / 10 == DigitsValue(init) && v % 10 == DigitValue(s[|s| - 1]);
      assert s == init + [s[|s| - 1]];
    }
  }

  lemma {:induction false} NatToStringValue(n: nat)
    ensures DigitsValue(NatToString(n)) == n
    decreases n
  {
    if n >= 10 {
      var r := NatToString(n);
      assert r[..|r| - 1] == NatToString(n / 10);
      NatToStringValue(n / 10);
    }
  }

  /**
   * A canonical decimal numeral (digits, no leading zero except for "0"),
   * the form JSON.stringify writes for a natural number.
   */
  function ParseNat(s: string): (r: Option<nat>)
    ensures r.Some? ==> NatToString(r.value) == s
  {
    if |s| >= 1 && AllDigits(s) && (s[0] != '0' || |s| == 1) then
      CanonicalDigits(s);
      Some(DigitsValue(s))
    else None
  }

  lemma {:induction false} CanonicalDigits(s: string)
    requires |s| >= 1 && AllDigits(s) && (s[0] != '0' || |s| == 1)
    ensures NatToString(DigitsValue(s)) == s
    decreases |s|
  {
    if |s| == 1 {
      var c := s[0];
      assert s[..0] == [];
      assert DigitsValue(s) == DigitValue(c);
      DigitRoundTrip(c);
      assert s == [c];
    } else {
      var init, last := s[..|s| - 1], s[|s| - 1];
      assert init[0] == s[0];
      CanonicalDigits(init);
      var w := DigitsValue(init);
      assert w != 0;
      NatToStringSnoc(w, DigitValue(last));
      DigitRoundTrip(last);
      assert s == init + [last];
    }
  }

  lemma DigitRoundTrip(c: char)
    requires IsDigit(c)
    ensures DigitChar(DigitValue(c)) == c
  {
  }

  /** Appending a digit to the numeral of a positive number gives the numeral of ten times it plus the digit. */
  lemma NatToStringSnoc(w: nat, d: nat)
    requires w >= 1 && d < 10
    ensures NatToString(w * 10 + d) == NatToString(w) + [DigitChar(d)]
  {
    var v := w * 10 + d;
    assert v / 10 == w && v % 10 == d;
  }

  lemma ParseNatToString(n: nat)
    ensures ParseNat(NatToString(n)) == Some(n)
  {
    var r := NatToString(n);
    NatToStringValue(n);
  }
}

/**
 * The small part of Python's `str` and `re` behaviour that the pipeline relies on:
 * `in`, `lower()`, `replace(c, '')`, `strip()`, `split(sep)`, `sep.join(...)`,
 * `re.findall(r'\d+', s)`, `int(digits)` and `str(n)`.
 */
module Text {

  predicate IsDigit(c: char) { '0' <= c <= '9' }

  predicate AllDigits(s: string) { forall i :: 0 <= i < |s| ==> IsDigit(s[i]) }

  predicate StartsWith(s: string, prefix: string) {
    |prefix| <= |s| && s[..|prefix|] == prefix
  }

  /** Python's `sub in s`. */
  predicate Contains(s: string, sub: string)
    decreases |s|
  {
    StartsWith(s, sub) || (|s| > 0 && Contains(s[1..], sub))
  }

  lemma {:induction false} ContainsInside(a: string, sub: string, b: string)
    ensures Contains(a + sub + b, sub)
    decreases |a|
  {
    if a == [] {
      assert (a + sub + b)[..|sub|] == sub;
    } else {
      assert (a + sub + b)[1..] == a[1..] + sub + b;
      ContainsInside(a[1..], sub, b);
    }
  }

  /** A match in `a` is still a match once more text follows. */
  lemma {:induction false} ContainsExtend(a: string, b: string, sub: string)
    requires Contains(a, sub)
    ensures Contains(a + b, sub)
    decreases |a|
  {
    if StartsWith(a, sub) {
      assert (a + b)[..|sub|] == a[..|sub|];
    } else {
      assert (a + b)[1..] == a[1..] + b;
      ContainsExtend(a[1..], b, sub);
    }
  }

  /** A match in `b` is still a match once text comes before it. */
  lemma {:induction false} ContainsPrepend(a: string, b: string, sub: string)
    requires Contains(b, sub)
    ensures Contains(a + b, sub)
    decreases |a|
  {
    if |a| > 0 {
      assert (a + b)[1..] == a[1..] + b;
      ContainsPrepend(a[1..], b, sub);
    } else {
      assert a + b == b;
    }
  }

  /** A match inside a slice is a match in the whole string. */
  lemma ContainsSlice(s: string, i: nat, j: nat, sub: string)
    requires i <= j <= |s| && Contains(s[i..j], sub)
    ensures Contains(s, sub)
  {
    ContainsExtend(s[i..j], s[j..], sub);
    ContainsPrepend(s[..i], s[i..j] + s[j..], sub);
    assert s[..i] + (s[i..j] + s[j..]) == s;
  }

  /** Positions of `a` at which no match of `sub` starts can be skipped. */
  lemma {:induction false} ContainsSkip(a: string, b: string, sub: string)
    requires forall i :: 0 <= i < |a| ==> !StartsWith(a[i..] + b, sub)
    ensures Contains(a + b, sub) == Contains(b, sub)
    decreases |a|
  {
    if a != [] {
      assert a[0..] == a;
      assert !StartsWith(a + b, sub);
      assert (a + b)[1..] == a[1..] + b;
      forall i | 0 <= i < |a[1..]| ensures !StartsWith(a[1..][i..] + b, sub) {
        assert a[1..][i..] == a[i + 1..];
      }
      ContainsSkip(a[1..], b, sub);
      assert Contains(a + b, sub) == Contains(a[1..] + b, sub);
    } else {
      assert a + b == b;
    }
  }

  /** A prefix that never holds the first character of `sub` cannot start a match. */
  lemma ContainsSkipNoHead(a: string, b: string, sub: string)
    requires |sub| > 0
    requires forall i :: 0 <= i < |a| ==> a[i] != sub[0]
    ensures Contains(a + b, sub) == Contains(b, sub)
  {
    forall i | 0 <= i < |a| ensures !StartsWith(a[i..] + b, sub) {
      assert (a[i..] + b)[0] == a[i];
    }
    ContainsSkip(a, b, sub);
  }

  /** No match starts at the front of `a` when `a` disagrees with `sub` at offset `k`. */
  lemma ContainsMismatch(a: string, b: string, sub: string, k: nat)
    requires k < |a| && k < |sub| && a[k] != sub[k]
    ensures Contains(a + b, sub) == Contains(a[1..] + b, sub)
  {
    assert (a + b)[k] == a[k];
    if |sub| <= |a + b| {
      assert (a + b)[..|sub|][k] == a[k];
    }
    assert (a + b)[1..] == a[1..] + b;
  }

  lemma {:induction false} NotContainsShort(s: string, sub: string)
    requires |s| < |sub|
    ensures !Contains(s, sub)
    decreases |s|
  {
    if |s| > 0 {
      NotContainsShort(s[1..], sub);
    }
  }

  // ---------------------------------------------------------------------------
  // lower()

  /**
   * `str.lower()` on one character. Covered: ASCII, Latin-1 and the letters of the
   * Vietnamese alphabet (Ă Đ Ĩ Ũ Ơ Ư and the block U+1EA0..U+1EF9).
   */
  function LowerChar(c: char): char {
    if 'A' <= c <= 'Z' || ('\U{00C0}' <= c <= '\U{00DE}' && c != '\U{00D7}') then
      (c as int + 32) as char
    else if c == '\U{0102}' || c == '\U{0110}' || c == '\U{0128}' || c == '\U{0168}'
         || c == '\U{01A0}' || c == '\U{01AF}' then
      (c as int + 1) as char
    else if '\U{1EA0}' <= c <= '\U{1EF8}' && c as int % 2 == 0 then
      (c as int + 1) as char
    else
      c
  }

  /** `str.lower()`, which maps every character on its own. */
  function Lower(s: string): (r: string)
    ensures |r| == |s|
  {
    seq(|s|, i requires 0 <= i < |s| => LowerChar(s[i]))
  }

  lemma LowerConcat(a: string, b: string)
    ensures Lower(a + b) == Lower(a) + Lower(b)
  {
  }

  /** Text whose every character is already lower case is its own lower case. */
  lemma LowerFixed(s: string)
    requires forall i :: 0 <= i < |s| ==> LowerChar(s[i]) == s[i]
    ensures Lower(s) == s
  {
  }

  lemma LowerDigits(s: string)
    requires AllDigits(s)
    ensures Lower(s) == s
  {
  }

  // ---------------------------------------------------------------------------
  // replace(c, '') and replace(pattern, '')

  /** `s.replace(c, '')` for a single character `c`. */
  function RemoveChar(s: string, c: char): (r: string)
    ensures forall i :: 0 <= i < |r| ==> r[i] != c
  {
    if s == [] then []
    else if s[0] == c then RemoveChar(s[1..], c)
    else [s[0]] + RemoveChar(s[1..], c)
  }

  lemma {:induction false} RemoveCharConcat(a: string, b: string, c: char)
    ensures RemoveChar(a + b, c) == RemoveChar(a, c) + RemoveChar(b, c)
  {
    if a != [] {
      assert (a + b)[0] == a[0];
      assert (a + b)[1..] == a[1..] + b;
      RemoveCharConcat(a[1..], b, c);
      if a[0] != c {
        assert [a[0]] + (RemoveChar(a[1..], c) + RemoveChar(b, c))
            == ([a[0]] + RemoveChar(a[1..], c)) + RemoveChar(b, c);
      }
    } else {
      assert a + b == b;
    }
  }

  lemma {:induction false} RemoveCharAbsent(s: string, c: char)
    requires forall i :: 0 <= i < |s| ==> s[i] != c
    ensures RemoveChar(s, c) == s
  {
    if s != [] {
      RemoveCharAbsent(s[1..], c);
    }
  }

  /** `s.replace(pattern, '')`: occurrences are removed left to right, without overlap. */
  function RemoveAll(s: string, pattern: string): string
    requires |pattern| > 0
    decreases |s|
  {
    if |s| < |pattern| then s
    else if s[..|pattern|] == pattern then RemoveAll(s[|pattern|..], pattern)
    else [s[0]] + RemoveAll(s[1..], pattern)
  }

  /** Removing a pattern that does not occur changes nothing. */
  lemma RemoveAllAbsent(s: string, pattern: string)
    requires |pattern| > 0 && !Contains(s, pattern)
    ensures RemoveAll(s, pattern) == s
  {
    RemoveAllIsJoinSplit(s, pattern);
    SplitSingle(s, pattern);
  }

  // ---------------------------------------------------------------------------
  // strip()

  /** The characters `str.strip()` removes (`str.isspace()`). */
  predicate IsSpace(c: char) {
    c == ' ' || '\t' <= c <= '\r' || '\U{001C}' <= c <= '\U{001F}' || c == '\U{0085}'
    || c == '\U{00A0}' || c == '\U{1680}' || '\U{2000}' <= c <= '\U{200A}' || c == '\U{2028}'
    || c == '\U{2029}' || c == '\U{202F}' || c == '\U{205F}' || c == '\U{3000}'
  }

  function StripLeft(s: string): (r: string)
    ensures r == [] || !IsSpace(r[0])
    ensures |r| <= |s| && r == s[|s| - |r|..]
  {
    if s != [] && IsSpace(s[0]) then StripLeft(s[1..]) else s
  }

  function StripRight(s: string): (r: string)
    ensures r == [] || !IsSpace(r[|r| - 1])
    ensures |r| <= |s| && r == s[..|r|]
  {
    if s != [] && IsSpace(s[|s| - 1]) then StripRight(s[..|s| - 1]) else s
  }

  /** `s.strip()` */
  function Strip(s: string): (r: string)
  {
    StripRight(StripLeft(s))
  }

  /** `strip()` leaves no white space at either end. */
  lemma StripEnds(s: string)
    ensures var r := Strip(s);
      r == [] || (!IsSpace(r[0]) && !IsSpace(r[|r| - 1]))
  {
    var l := StripLeft(s);
    var r := StripRight(l);
    if r != [] {
      assert r == l[..|r|];
      assert r[0] == l[0];
    }
  }

  /** `strip()` leaves a slice of the text: what follows the leading white space. */
  lemma StripSlice(s: string)
    ensures var m := |s| - |StripLeft(s)|;
      m + |Strip(s)| <= |s| && Strip(s) == s[m..m + |Strip(s)|]
  {
    var l := StripLeft(s);
    var r := StripRight(l);
    assert r == l[..|r|] && l == s[|s| - |l|..];
    assert s[|s| - |l|..][..|r|] == s[|s| - |l|..|s| - |l| + |r|];
  }

  /** Stripping a stripped string changes nothing. */
  lemma StripIdempotent(s: string)
    ensures Strip(Strip(s)) == Strip(s)
  {
    StripEnds(s);
  }

  /** Stripping keeps a string free of a substring it did not contain. */
  lemma StripKeepsAbsent(s: string, sub: string)
    requires !Contains(s, sub)
    ensures !Contains(Strip(s), sub)
  {
    StripSlice(s);
    var m := |s| - |StripLeft(s)|;
    if Contains(Strip(s), sub) {
      ContainsSlice(s, m, m + |Strip(s)|, sub);
    }
  }

  /** `s.rstrip(c)`: drops every trailing `c`. */
  function RStrip(s: string, c: char): (r: string)
    ensures |r| <= |s| && r == s[..|r|]
    ensures r == [] || r[|r| - 1] != c
    ensures forall i :: |r| <= i < |s| ==> s[i] == c
  {
    if |s| > 0 && s[|s| - 1] == c then RStrip(s[..|s| - 1], c) else s
  }

  // ---------------------------------------------------------------------------
  // split(sep) and sep.join(xs)

  /** `s.split(sep)`: the separator is searched for left to right, without overlap. */
  function Split(s: string, sep: string): (r: seq<string>)
    requires |sep| > 0
    ensures |r| >= 1
    decreases |s|
  {
    if |s| < |sep| then [s]
    else if s[..|sep|] == sep then [""] + Split(s[|sep|..], sep)
    else
      var rest := Split(s[1..], sep);
      [[s[0]] + rest[0]] + rest[1..]
  }

  /** `sep.join(xs)` */
  function Join(sep: string, xs: seq<string>): string
  {
    if |xs| == 0 then ""
    else if |xs| == 1 then xs[0]
    else xs[0] + sep + Join(sep, xs[1..])
  }

  function Last<T>(xs: seq<T>): T
    requires |xs| > 0
  {
    xs[|xs| - 1]
  }

  /** `sep.join(s.split(sep)) == s` */
  lemma {:induction false} JoinSplit(s: string, sep: string)
    requires |sep| > 0
    ensures Join(sep, Split(s, sep)) == s
    decreases |s|
  {
    if |s| < |sep| {
    } else if s[..|sep|] == sep {
      var tail := s[|sep|..];
      JoinSplit(tail, sep);
      var parts := Split(tail, sep);
      assert Split(s, sep) == [""] + parts;
      assert ([""] + parts)[1..] == parts;
      assert Join(sep, [""] + parts) == "" + sep + Join(sep, parts);
      assert s == sep + tail;
    } else {
      JoinSplit(s[1..], sep);
      SplitCons(s, sep);
    }
  }

  /** One step of `JoinSplit`: a leading non-separator character joins the first piece. */
  lemma SplitCons(s: string, sep: string)
    requires |sep| > 0 && |s| >= |sep| && s[..|sep|] != sep
    requires Join(sep, Split(s[1..], sep)) == s[1..]
    ensures Join(sep, Split(s, sep)) == s
  {
    assert [s[0]] + s[1..] == s;
    JoinConsHead(s[0], Split(s[1..], sep), sep);
  }

  lemma JoinConsHead(c: char, xs: seq<string>, sep: string)
    requires |xs| >= 1
    ensures Join(sep, [[c] + xs[0]] + xs[1..]) == [c] + Join(sep, xs)
  {
    var r := [[c] + xs[0]] + xs[1..];
    if |xs| > 1 {
      assert r[1..] == xs[1..];
      var j := Join(sep, xs[1..]);
      assert ([c] + xs[0]) + sep + j == [c] + (xs[0] + sep + j);
    }
  }

  /** `s.split(sep)` has one piece exactly when `sep` does not occur, and the piece is `s`. */
  lemma {:induction false} SplitSingle(s: string, sep: string)
    requires |sep| > 0
    ensures (|Split(s, sep)| == 1) == !Contains(s, sep)
    ensures !Contains(s, sep) ==> Split(s, sep) == [s]
    decreases |s|
  {
    if |s| < |sep| {
      NotContainsShort(s, sep);
    } else if s[..|sep|] == sep {
    } else {
      SplitSingle(s[1..], sep);
      if !Contains(s, sep) {
        assert [s[0]] + s[1..] == s;
      }
    }
  }

  /** The last piece of `s.split(sep)` never holds `sep`. */
  lemma {:induction false} SplitLastNoSep(s: string, sep: string)
    requires |sep| > 0
    ensures !Contains(Last(Split(s, sep)), sep)
    decreases |s|
  {
    if |s| < |sep| {
      NotContainsShort(s, sep);
    } else if s[..|sep|] == sep {
      SplitLastNoSep(s[|sep|..], sep);
    } else {
      SplitStep(s, sep);
      if |Split(s[1..], sep)| == 1 {
        SplitSingle(s, sep);
      } else {
        SplitLastNoSep(s[1..], sep);
      }
    }
  }

  /** A first character that does not start `sep` joins the first piece of the rest. */
  lemma SplitStep(s: string, sep: string)
    requires |sep| > 0 && |s| >= |sep| && s[..|sep|] != sep
    ensures |Split(s, sep)| == |Split(s[1..], sep)|
    ensures |Split(s[1..], sep)| > 1 ==> Last(Split(s, sep)) == Last(Split(s[1..], sep))
  {
  }

  /**
   * The last piece of `s.split(sep)` ends `s`; it is all of `s` when there is one piece, and
   * otherwise it follows a `sep`.
   */
  lemma SplitLastSuffix(s: string, sep: string)
    requires |sep| > 0
    ensures var l := Last(Split(s, sep));
      |l| <= |s| && s[|s| - |l|..] == l
      && (|Split(s, sep)| == 1 ==> l == s)
      && (|Split(s, sep)| > 1 ==> |l| + |sep| <= |s| && s[|s| - |l| - |sep|..|s| - |l|] == sep)
  {
    JoinSplit(s, sep);
    JoinLastSuffix(sep, Split(s, sep));
  }

  /** The last of the joined pieces ends the joined text, right after a separator when there
      are several pieces. */
  lemma JoinLastSuffix(sep: string, parts: seq<string>)
    requires |parts| > 0
    ensures var s := Join(sep, parts); var l := Last(parts);
      |l| <= |s| && s[|s| - |l|..] == l
      && (|parts| == 1 ==> l == s)
      && (|parts| > 1 ==> |l| + |sep| <= |s| && s[|s| - |l| - |sep|..|s| - |l|] == sep)
  {
    var l := Last(parts);
    if |parts| > 1 {
      var init := parts[..|parts| - 1];
      assert parts == init + [l];
      JoinSnoc(sep, init, l);
      ConcatSlices(Join(sep, init), sep, l);
    }
  }

  lemma ConcatSlices(x: string, sep: string, l: string)
    ensures var s := x + sep + l;
      s[|s| - |l|..] == l && s[|s| - |l| - |sep|..|s| - |l|] == sep
  {
    var s := x + sep + l;
    assert s == (x + sep) + l;
    assert s[|x + sep|..] == l;
    assert s[|x|..|x + sep|] == (x + sep)[|x|..];
  }

  lemma {:induction false} JoinSnoc(sep: string, xs: seq<string>, y: string)
    requires |xs| > 0
    ensures Join(sep, xs + [y]) == Join(sep, xs) + sep + y
    decreases |xs|
  {
    if |xs| > 1 {
      assert (xs + [y])[1..] == xs[1..] + [y];
      JoinSnoc(sep, xs[1..], y);
    }
  }

  /** `s.replace(pattern, '') == ''.join(s.split(pattern))` */
  lemma {:induction false} RemoveAllIsJoinSplit(s: string, pattern: string)
    requires |pattern| > 0
    ensures RemoveAll(s, pattern) == Join("", Split(s, pattern))
    decreases |s|
  {
    if |s| < |pattern| {
    } else if s[..|pattern|] == pattern {
      RemoveAllIsJoinSplit(s[|pattern|..], pattern);
    } else {
      RemoveAllIsJoinSplit(s[1..], pattern);
      var rest := Split(s[1..], pattern);
      if |rest| > 1 {
        var r := [[s[0]] + rest[0]] + rest[1..];
        assert r[1..] == rest[1..];
      }
    }
  }

  // ---------------------------------------------------------------------------
  // Decimal numbers: int(digits), str(n), re.findall(r'\d+', s)

  function DigitValue(c: char): nat
    requires IsDigit(c)
  {
    c as int - '0' as int
  }

  function DigitChar(d: nat): (c: char)
    requires d < 10
    ensures IsDigit(c) && DigitValue(c) == d
  {
    ('0' as int + d) as char
  }

  /** `int(s)` for a string of ASCII digits. */
  function ParseNat(s: string): nat
    requires AllDigits(s)
    decreases |s|
  {
    if s == [] then 0 else ParseNat(s[..|s| - 1]) * 10 + DigitValue(s[|s| - 1])
  }

  lemma ParseNatSnoc(p: string, c: char)
    requires AllDigits(p) && IsDigit(c)
    ensures ParseNat(p + [c]) == ParseNat(p) * 10 + DigitValue(c)
  {
    assert (p + [c])[..|p|] == p;
  }

  /** `str(n)` */
  function NatToString(n: nat): (r: string)
    ensures |r| >= 1 && AllDigits(r)
    decreases n
  {
    if n < 10 then [DigitChar(n)] else NatToString(n / 10) + [DigitChar(n % 10)]
  }

  lemma {:induction false} ParseNatToString(n: nat)
    ensures ParseNat(NatToString(n)) == n
    decreases n
  {
    if n >= 10 {
      var p := NatToString(n / 10);
      var s := p + [DigitChar(n % 10)];
      assert s[..|s| - 1] == p;
      ParseNatToString(n / 10);
    } else {
      assert [DigitChar(n)][..0] == [];
    }
  }

  /** Length of the run of digits at the start of `s`. */
  function LeadingDigits(s: string): (k: nat)
    ensures k <= |s| && AllDigits(s[..k]) && (k < |s| ==> !IsDigit(s[k]))
  {
    if s == [] || !IsDigit(s[0]) then 0 else 1 + LeadingDigits(s[1..])
  }

  /** `re.findall(r'\d+', s)` with ASCII digits. */
  function DigitRuns(s: string): (r: seq<string>)
    ensures forall i :: 0 <= i < |r| ==> |r[i]| > 0 && AllDigits(r[i])
    decreases |s|
  {
    if s == [] then []
    else if !IsDigit(s[0]) then DigitRuns(s[1..])
    else
      var k := LeadingDigits(s);
      [s[..k]] + DigitRuns(s[k..])
  }

  lemma {:induction false} DigitRunsSkip(a: string, b: string)
    requires forall i :: 0 <= i < |a| ==> !IsDigit(a[i])
    ensures DigitRuns(a + b) == DigitRuns(b)
  {
    if a != [] {
      assert (a + b)[0] == a[0];
      assert (a + b)[1..] == a[1..] + b;
      DigitRunsSkip(a[1..], b);
    } else {
      assert a + b == b;
    }
  }

  lemma NoDigitRuns(s: string)
    requires forall i :: 0 <= i < |s| ==> !IsDigit(s[i])
    ensures DigitRuns(s) == []
  {
    DigitRunsSkip(s, "");
    assert s + "" == s;
  }

  lemma {:induction false} LeadingDigitsRun(d: string, rest: string)
    requires AllDigits(d)
    requires rest == [] || !IsDigit(rest[0])
    ensures LeadingDigits(d + rest) == |d|
  {
    if d != [] {
      assert (d + rest)[1..] == d[1..] + rest;
      LeadingDigitsRun(d[1..], rest);
    }
  }

  /** A maximal run of digits is one match of `\d+`. */
  lemma DigitRunsRun(d: string, rest: string)
    requires |d| > 0 && AllDigits(d)
    requires rest == [] || !IsDigit(rest[0])
    ensures DigitRuns(d + rest) == [d] + DigitRuns(rest)
  {
    LeadingDigitsRun(d, rest);
    assert (d + rest)[..|d|] == d;
    assert (d + rest)[|d|..] == rest;
  }

  // ---------------------------------------------------------------------------
  // Concatenating a sequence of sequences

  /** `xss[0] + xss[1] + ...`, the rows of several units in unit order. */
  function Flatten<T>(xss: seq<seq<T>>): seq<T> {
    if |xss| == 0 then [] else Flatten(xss[..|xss| - 1]) + xss[|xss| - 1]
  }

  /** Concatenation regroups freely. */
  lemma AppendAssoc<T>(x: seq<T>, y: seq<T>, z: seq<T>)
    ensures x + (y + z) == (x + y) + z
  {
  }

  /** An empty member adds nothing: dropping it leaves the concatenation unchanged. */
  lemma {:induction false} FlattenDropEmpty<T>(xss: seq<seq<T>>, i: nat)
    requires i < |xss| && xss[i] == []
    ensures Flatten(xss) == Flatten(xss[..i] + xss[i + 1..])
  {
    var init, last := xss[..|xss| - 1], xss[|xss| - 1];
    var rest := xss[..i] + xss[i + 1..];
    if i < |xss| - 1 {
      FlattenDropEmpty(init, i);
      assert rest[..|rest| - 1] == init[..i] + init[i + 1..];
      assert rest[|rest| - 1] == last;
    } else {
      assert rest == init;
    }
  }

  lemma {:induction false} FlattenLength<T>(xss: seq<seq<T>>, lens: seq<nat>)
    requires |lens| == |xss| && forall i :: 0 <= i < |xss| ==> lens[i] == |xss[i]|
    ensures |Flatten(xss)| == Sum(lens)
  {
    if |xss| > 0 {
      FlattenLength(xss[..|xss| - 1], lens[..|lens| - 1]);
    }
  }

  function Sum(xs: seq<nat>): nat {
    if |xs| == 0 then 0 else Sum(xs[..|xs| - 1]) + xs[|xs| - 1]
  }
}

/** The Python string operations the bot relies on: `str.lower`, `str.strip`,
    the substring test `in`, `startswith`/`endswith`, `", ".join`,
    `str(int)` inside an f-string and `split(" ", 1)[1]`. */
module Text {
  import opened Wrappers

  // ---------------------------------------------------------------------
  // Lowercasing

  /** Lowercases one character. Only the Latin letters A-Z and the Russian
      letters А-Я and Ё are folded; every other character is kept. */
  function LowerChar(c: char): (r: char)
    ensures 'A' <= c <= 'Z' ==> r as int == c as int + 32
    ensures 'А' <= c <= 'Я' ==> r as int == c as int + 32
    ensures !('A' <= c <= 'Z') && !('А' <= c <= 'Я') && c != 'Ё' ==> r == c
    ensures c == 'Ё' ==> r == 'ё'
    ensures !('A' <= r <= 'Z') && !('А' <= r <= 'Я') && r != 'Ё'
  {
    if 'A' <= c <= 'Z' || 'А' <= c <= 'Я' then (c as int + 32) as char
    else if c == 'Ё' then 'ё'
    else c
  }

  /** `s.lower()`: character by character, so the length never changes. */
  function Lower(s: string): (r: string)
    ensures |r| == |s|
    ensures forall i :: 0 <= i < |s| ==> r[i] == LowerChar(s[i])
  {
    if s == [] then [] else [LowerChar(s[0])] + Lower(s[1..])
  }

  /** Lowercasing twice is lowercasing once. */
  lemma LowerIdempotent(s: string)
    ensures Lower(Lower(s)) == Lower(s)
  {
  }

  /** Lowercasing distributes over concatenation. */
  lemma LowerAppend(a: string, b: string)
    ensures Lower(a + b) == Lower(a) + Lower(b)
  {
  }

  /** Lowercasing keeps white space at the ends of a stripped text away. */
  lemma LowerKeepsStripped(s: string)
    requires IsStripped(s)
    ensures IsStripped(Lower(s))
  {
    if s != [] {
      var r := Lower(s);
      assert r[0] == LowerChar(s[0]) && r[|r| - 1] == LowerChar(s[|s| - 1]);
    }
  }

  /** Lowercasing keeps a stripped piece in place with white space around it. */
  lemma LowerKeepsTrimmed(s: string, r: string, i: nat)
    requires TrimmedAt(s, r, i)
    ensures TrimmedAt(Lower(s), Lower(r), i)
  {
    assert Lower(r) == Lower(s)[i..i + |r|];
  }

  /** Text that has no upper-case Latin or Russian letter is its own lower case. */
  lemma LowerOfLowerCase(s: string)
    requires forall i :: 0 <= i < |s| ==> LowerChar(s[i]) == s[i]
    ensures Lower(s) == s
  {
  }

  // ---------------------------------------------------------------------
  // Stripping

  /** The characters for which Python's `str.isspace` holds. */
  predicate IsSpace(c: char)
    ensures IsSpace(c) ==> !('A' <= c <= 'Z') && !('А' <= c <= 'Я') && c != 'Ё'
    ensures c == ' ' || c == '\n' || c == '\t' ==> IsSpace(c)
  {
    var n := c as int;
    9 <= n <= 13 || 28 <= n <= 32 || n == 0x85 || n == 0xA0 || n == 0x1680
    || 0x2000 <= n <= 0x200A || n == 0x2028 || n == 0x2029 || n == 0x202F
    || n == 0x205F || n == 0x3000
  }

  /** `s.lstrip()`: the longest suffix of `s` that does not start with white space. */
  function StripLeft(s: string): (r: string)
    ensures |r| <= |s| && r == s[|s| - |r|..]
    ensures r != [] ==> !IsSpace(r[0])
    ensures forall k :: 0 <= k < |s| - |r| ==> IsSpace(s[k])
  {
    if s != [] && IsSpace(s[0]) then StripLeft(s[1..]) else s
  }

  /** `s.rstrip()`: the longest prefix of `s` that does not end with white space. */
  function StripRight(s: string): (r: string)
    ensures |r| <= |s| && r == s[..|r|]
    ensures r != [] ==> !IsSpace(r[|r| - 1])
    ensures forall k :: |r| <= k < |s| ==> IsSpace(s[k])
  {
    if s != [] && IsSpace(s[|s| - 1]) then StripRight(s[..|s| - 1]) else s
  }

  /** Text with no white space at either end. */
  predicate IsStripped(s: string)
  {
    s == [] || (!IsSpace(s[0]) && !IsSpace(s[|s| - 1]))
  }

  /** `r` is the piece of `s` starting at `i`, and everything of `s` before
      and after it is white space. */
  predicate TrimmedAt(s: string, r: string, i: nat)
  {
    && i + |r| <= |s| && r == s[i..i + |r|]
    && (forall k :: 0 <= k < i ==> IsSpace(s[k]))
    && (forall k :: i + |r| <= k < |s| ==> IsSpace(s[k]))
  }

  /** `s.strip()`: removes white space from both ends and nothing else. */
  function Strip(s: string): (r: string)
    ensures IsStripped(r)
    ensures |r| <= |s|
    ensures IsStripped(s) ==> r == s
    ensures exists i :: TrimmedAt(s, r, i)
  {
    StripTrims(s);
    StripRight(StripLeft(s))
  }

  /** Stripping cuts white space from the two ends of `s` and keeps the
      piece in between. */
  lemma StripTrims(s: string)
    ensures TrimmedAt(s, StripRight(StripLeft(s)), |s| - |StripLeft(s)|)
  {
    var left := StripLeft(s);
    TrimmedFromPieces(s, left, StripRight(left));
  }

  /** Cutting white space off the front and then off the back leaves a piece
      of `s` with only white space around it. */
  lemma TrimmedFromPieces(s: string, left: string, r: string)
    requires |left| <= |s| && left == s[|s| - |left|..]
    requires forall k :: 0 <= k < |s| - |left| ==> IsSpace(s[k])
    requires |r| <= |left| && r == left[..|r|]
    requires forall k :: |r| <= k < |left| ==> IsSpace(left[k])
    ensures TrimmedAt(s, r, |s| - |left|)
  {
    var i := |s| - |left|;
    assert r == s[i..i + |r|];
    forall k | i + |r| <= k < |s|
      ensures IsSpace(s[k])
    {
      assert s[k] == left[k - i];
    }
  }

  // ---------------------------------------------------------------------
  // Substrings, prefixes and suffixes

  /** Python's `sub in s`: `sub` starts at some position of `s`. */
  predicate Contains(s: string, sub: string)
    ensures sub <= s ==> Contains(s, sub)
    ensures Contains(s, sub) ==> |sub| <= |s|
  {
    sub <= s || (s != [] && Contains(s[1..], sub))
  }

  /** `s.startswith(p)`. */
  predicate StartsWith(s: string, p: string)
  {
    p <= s
  }

  /** `s.endswith(p)`. */
  predicate EndsWith(s: string, p: string)
  {
    |p| <= |s| && s[|s| - |p|..] == p
  }

  /** `sub` occurring at some index makes `Contains` hold. */
  lemma {:induction false} ContainsAt(s: string, sub: string, i: nat)
    requires i <= |s| && sub <= s[i..]
    ensures Contains(s, sub)
  {
    if i > 0 {
      assert s[1..][i - 1..] == s[i..];
      ContainsAt(s[1..], sub, i - 1);
    }
  }

  /** Conversely, when `Contains` holds, `sub` occurs at some index. */
  lemma {:induction false} ContainsHasIndex(s: string, sub: string) returns (i: nat)
    requires Contains(s, sub)
    ensures i <= |s| && sub <= s[i..]
  {
    if sub <= s {
      i := 0;
    } else {
      var j := ContainsHasIndex(s[1..], sub);
      assert s[1..][j..] == s[j + 1..];
      i := j + 1;
    }
  }

  /** A prefix of `s` that contains `b` makes `s` contain `b`. */
  lemma {:induction false} PrefixContains(s: string, a: string, b: string)
    requires a <= s && Contains(a, b)
    ensures Contains(s, b)
  {
    if !(b <= a) {
      PrefixContains(s[1..], a[1..], b);
    }
  }

  /** A string that contains `a` contains everything `a` contains. */
  lemma {:induction false} ContainsTransitive(s: string, a: string, b: string)
    requires Contains(s, a) && Contains(a, b)
    ensures Contains(s, b)
  {
    if a <= s {
      PrefixContains(s, a, b);
    } else {
      ContainsTransitive(s[1..], a, b);
    }
  }

  /** A string does not contain a text whose first character it lacks. */
  lemma {:induction false} NotContainsFirstChar(s: string, sub: string)
    requires sub != [] && sub[0] !in s
    ensures !Contains(s, sub)
  {
    if s != [] {
      NotContainsFirstChar(s[1..], sub);
    }
  }

  /** A string does not contain a longer text. */
  lemma {:induction false} NotContainsLonger(s: string, sub: string)
    requires |s| < |sub|
    ensures !Contains(s, sub)
  {
    if s != [] {
      NotContainsLonger(s[1..], sub);
    }
  }

  /** Every string contains itself. */
  lemma ContainsSelf(s: string)
    ensures Contains(s, s)
  {
  }

  /** A string contains each of the pieces it is concatenated from. */
  lemma {:induction false} ContainsInConcat(a: string, m: string, b: string)
    ensures Contains(a + m + b, m)
  {
    ContainsAt(a + m + b, m, |a|);
  }

  // ---------------------------------------------------------------------
  // Joining

  /** `sep.join(xs)`. */
  function Join(xs: seq<string>, sep: string): (r: string)
    ensures xs == [] ==> r == ""
    ensures |xs| == 1 ==> r == xs[0]
    ensures xs != [] ==> xs[0] <= r
  {
    if |xs| == 0 then ""
    else if |xs| == 1 then xs[0]
    else xs[0] + sep + Join(xs[1..], sep)
  }

  /** Appending an element appends the separator and that element, so the
      elements come out in list order with `sep` between each two. */
  lemma {:induction false} JoinSnoc(xs: seq<string>, sep: string, x: string)
    requires xs != []
    ensures Join(xs + [x], sep) == Join(xs, sep) + sep + x
  {
    if |xs| == 1 {
      assert (xs + [x])[1..] == [x];
    } else {
      assert (xs + [x])[1..] == xs[1..] + [x];
      JoinSnoc(xs[1..], sep, x);
    }
  }

  /** Every element of the list appears in the joined text. */
  lemma {:induction false} JoinContainsEach(xs: seq<string>, sep: string, k: nat)
    requires k < |xs|
    ensures Contains(Join(xs, sep), xs[k])
  {
    if |xs| == 1 {
      ContainsSelf(xs[0]);
    } else {
      var joined := Join(xs, sep);
      var rest := Join(xs[1..], sep);
      assert joined == xs[0] + sep + rest;
      if k == 0 {
        ContainsInConcat([], xs[0], sep + rest);
        assert [] + xs[0] + (sep + rest) == joined;
      } else {
        JoinContainsEach(xs[1..], sep, k - 1);
        assert xs[1..][k - 1] == xs[k];
        ContainsInConcat(xs[0] + sep, rest, []);
        assert xs[0] + sep + rest + [] == joined;
        ContainsTransitive(joined, rest, xs[k]);
      }
    }
  }

  // ---------------------------------------------------------------------
  // Decimal rendering of integers, as f-strings print them

  predicate IsDigit(c: char)
  {
    '0' <= c <= '9'
  }

  function DigitChar(d: nat): (c: char)
    requires d < 10
    ensures IsDigit(c) && c as int - '0' as int == d
  {
    ('0' as int + d) as char
  }

  /** The decimal digits of `n`, most significant first, with no leading zero. */
  function NatToString(n: nat): (r: string)
    ensures |r| >= 1
    ensures forall i :: 0 <= i < |r| ==> IsDigit(r[i])
    ensures |r| > 1 ==> r[0] != '0'
    decreases n
  {
    if n < 10 then [DigitChar(n)] else NatToString(n / 10) + [DigitChar(n % 10)]
  }

  /** `str(i)`: an optional minus sign followed by the digits. */
  function IntToString(i: int): (r: string)
    ensures r != []
    ensures r[0] == '-' <==> i < 0
    ensures forall k :: 0 < k < |r| ==> IsDigit(r[k])
  {
    if i < 0 then "-" + NatToString(-i) else NatToString(i)
  }

  /** Reads a run of decimal digits back as a number. */
  function ParseNat(s: string): nat
    requires forall i :: 0 <= i < |s| ==> IsDigit(s[i])
  {
    if s == [] then 0
    else
      var last := s[|s| - 1];
      assert IsDigit(last);
      ParseNat(s[..|s| - 1]) * 10 + (last as int - '0' as int)
  }

  /** Reads what `IntToString` writes. */
  function ParseInt(s: string): Option<int>
  {
    if s != [] && s[0] == '-' && forall i :: 1 <= i < |s| ==> IsDigit(s[i]) then Some(0 - ParseNat(s[1..]) as int)
    else if forall i :: 0 <= i < |s| ==> IsDigit(s[i]) then Some(ParseNat(s))
    else None
  }

  lemma {:induction false} NatToStringRoundTrip(n: nat)
    ensures ParseNat(NatToString(n)) == n
    decreases n
  {
    if n >= 10 {
      NatToStringRoundTrip(n / 10);
      var r := NatToString(n);
      assert r[..|r| - 1] == NatToString(n / 10);
    }
  }

  /** The number printed in an answer can be read back unchanged. */
  lemma IntToStringRoundTrip(i: int)
    ensures ParseInt(IntToString(i)) == Some(i)
  {
    var s := IntToString(i);
    if i < 0 {
      var digits := NatToString(-i);
      NatToStringRoundTrip(-i);
      assert s[1..] == digits;
      forall k | 1 <= k < |s|
        ensures IsDigit(s[k])
      {
        assert s[k] == digits[k - 1];
      }
    } else {
      NatToStringRoundTrip(i);
      assert IsDigit(s[0]);
    }
  }

  // ---------------------------------------------------------------------
  // Splitting once

  /** `s.split(" ", 1)[1]`: the text after the first space, or `None` where
      Python raises `IndexError` because `s` has no space. */
  function AfterFirstSpace(s: string): (r: Option<string>)
    ensures r.None? <==> ' ' !in s
    ensures r.Some? ==> |r.value| < |s| && r.value == s[|s| - |r.value|..]
    ensures r.Some? ==> s[|s| - |r.value| - 1] == ' ' && ' ' !in s[..|s| - |r.value| - 1]
  {
    if s == [] then None
    else if s[0] == ' ' then Some(s[1..])
    else
      var r := AfterFirstSpace(s[1..]);
      assert s == [s[0]] + s[1..];
      r
  }
}

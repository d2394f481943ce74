/** The handful of Python string built-ins the tools rely on, with the
    facts about them that the rest of the model needs: `str.split` on one
    separator character and `str.join` undo each other, `str.strip` removes
    exactly the surrounding white space, and `int(str(n)) == n`. */
module Strings {
  import opened Outcomes

  // ---------------------------------------------------------------------
  // White space and str.strip()

  /** The characters Python's `str.isspace` accepts, which are the ones
      `str.strip()` with no argument removes. */
  predicate IsSpace(c: char) {
    var n := c as int;
    (9 <= n <= 13) || (28 <= n <= 32) || n == 0x85 || n == 0xA0 || n == 0x1680
    || (0x2000 <= n <= 0x200A) || n == 0x2028 || n == 0x2029 || n == 0x202F || n == 0x205F || n == 0x3000
  }

  /** Every character of `s` is white space (true of ""). */
  predicate AllSpace(s: string) {
    forall k :: 0 <= k < |s| ==> IsSpace(s[k])
  }

  /** A concatenation is all white space exactly when both halves are. */
  lemma AllSpaceConcat(a: string, b: string)
    ensures AllSpace(a + b) <==> AllSpace(a) && AllSpace(b)
  {
    assert forall k :: 0 <= k < |a| ==> (a + b)[k] == a[k];
    assert forall k :: 0 <= k < |b| ==> (a + b)[|a| + k] == b[k];
  }

  /** Python's `s.strip()`: `s` with the white space at both ends cut off,
      one character at a time, front first. */
  function Strip(s: string): (r: string)
    ensures |r| <= |s|
    ensures r != [] ==> !IsSpace(r[0]) && !IsSpace(r[|r| - 1])
    ensures r == [] <==> AllSpace(s)
  {
    if s != [] && IsSpace(s[0]) then
      assert AllSpace(s) <==> AllSpace(s[1..]) by {
        assert s == [s[0]] + s[1..];
        AllSpaceConcat([s[0]], s[1..]);
      }
      Strip(s[1..])
    else if s != [] && IsSpace(s[|s| - 1]) then
      assert AllSpace(s) <==> AllSpace(s[..|s| - 1]) by {
        assert s == s[..|s| - 1] + [s[|s| - 1]];
        AllSpaceConcat(s[..|s| - 1], [s[|s| - 1]]);
      }
      Strip(s[..|s| - 1])
    else s
  }

  /** White space around a string with non-blank ends is exactly what
      `Strip` removes. */
  lemma {:induction false} StripAround(lead: string, mid: string, trail: string)
    requires AllSpace(lead) && AllSpace(trail)
    requires mid != [] ==> !IsSpace(mid[0]) && !IsSpace(mid[|mid| - 1])
    ensures Strip(lead + mid + trail) == mid
    decreases |lead| + |trail|
  {
    var s := lead + mid + trail;
    if lead != [] {
      assert s[0] == lead[0];
      assert s[1..] == lead[1..] + mid + trail;
      StripAround(lead[1..], mid, trail);
    } else if mid == [] {
      assert s == trail;
    } else if trail != [] {
      assert s == mid + trail;
      assert s[0] == mid[0] && s[|s| - 1] == trail[|trail| - 1];
      assert s[..|s| - 1] == [] + mid + trail[..|trail| - 1];
      StripAround([], mid, trail[..|trail| - 1]);
    } else {
      assert s == mid;
    }
  }

  /** A string with no white space at either end is its own strip. */
  lemma StripUnchanged(s: string)
    requires s != [] ==> !IsSpace(s[0]) && !IsSpace(s[|s| - 1])
    ensures Strip(s) == s
  {
  }

  /** Stripping twice strips no more than stripping once. */
  lemma StripIdempotent(s: string)
    ensures Strip(Strip(s)) == Strip(s)
  {
    StripUnchanged(Strip(s));
  }

  // ---------------------------------------------------------------------
  // str.split(c) and sep.join(parts)

  /** Python's `s.split(c)` for a one-character separator: the pieces
      between the occurrences of `c`, so `"".split(",") == [""]`. */
  function Split(s: string, c: char): (r: seq<string>)
    ensures |r| >= 1
  {
    if |s| == 0 then [""]
    else if s[0] == c then [""] + Split(s[1..], c)
    else
      var rest := Split(s[1..], c);
      [[s[0]] + rest[0]] + rest[1..]
  }

  /** Python's `sep.join(parts)`. */
  function Join(sep: string, parts: seq<string>): (r: string)
  {
    if |parts| == 0 then ""
    else if |parts| == 1 then parts[0]
    else parts[0] + sep + Join(sep, parts[1..])
  }

  /** Splitting a string whose first piece holds no separator peels that
      piece off. */
  lemma {:induction false} SplitAfter(a: string, c: char, t: string)
    requires c !in a
    ensures Split(a + [c] + t, c) == [a] + Split(t, c)
  {
    if a != [] {
      assert (a + [c] + t)[0] == a[0];
      assert (a + [c] + t)[1..] == a[1..] + [c] + t;
      SplitAfter(a[1..], c, t);
      assert [a[0]] + a[1..] == a;
    } else {
      assert (a + [c] + t)[1..] == t;
    }
  }

  /** A string without the separator splits into itself alone. */
  lemma {:induction false} SplitNone(a: string, c: char)
    requires c !in a
    ensures Split(a, c) == [a]
  {
    if a != [] {
      SplitNone(a[1..], c);
      assert [a[0]] + a[1..] == a;
    }
  }

  /** Joining with a one-character separator and splitting on it gives the
      pieces back, as long as no piece contains the separator. */
  lemma {:induction false} SplitJoin(parts: seq<string>, c: char)
    requires |parts| >= 1
    requires forall k :: 0 <= k < |parts| ==> c !in parts[k]
    ensures Split(Join([c], parts), c) == parts
  {
    if |parts| == 1 {
      SplitNone(parts[0], c);
    } else {
      SplitJoin(parts[1..], c);
      SplitAfter(parts[0], c, Join([c], parts[1..]));
      assert [parts[0]] + parts[1..] == parts;
    }
  }

  /** Splitting on a separator and joining with it gives the string back. */
  lemma {:induction false} JoinSplit(s: string, c: char)
    ensures Join([c], Split(s, c)) == s
  {
    if |s| > 0 {
      var rest := Split(s[1..], c);
      JoinSplit(s[1..], c);
      if s[0] == c {
        assert [""] + rest == [""] + rest[..1] + rest[1..];
        assert s == [c] + s[1..];
      } else if |rest| == 1 {
        assert s == [s[0]] + s[1..];
      } else {
        assert rest[1..] == (rest)[1..];
        assert Join([c], rest) == rest[0] + [c] + Join([c], rest[1..]);
        assert ([[s[0]] + rest[0]] + rest[1..])[1..] == rest[1..];
        assert s == [s[0]] + s[1..];
      }
    }
  }

  /** A character in neither the separator nor any piece is not in the join. */
  lemma {:induction false} JoinAvoids(sep: string, parts: seq<string>, c: char)
    requires c !in sep
    requires forall k :: 0 <= k < |parts| ==> c !in parts[k]
    ensures c !in Join(sep, parts)
  {
    if |parts| > 1 {
      JoinAvoids(sep, parts[1..], c);
    }
  }

  /** Every piece of a split is free of the separator. */
  lemma {:induction false} SplitPiecesAvoid(s: string, c: char)
    ensures forall k :: 0 <= k < |Split(s, c)| ==> c !in Split(s, c)[k]
  {
    if |s| > 0 {
      SplitPiecesAvoid(s[1..], c);
    }
  }

  /** Every piece is all white space. */
  predicate AllBlank(pieces: seq<string>) {
    forall k :: 0 <= k < |pieces| ==> AllSpace(pieces[k])
  }

  /** Every character of `s` is the separator `c` or white space. */
  predicate OnlySeparatorsAndSpace(s: string, c: char) {
    forall k :: 0 <= k < |s| ==> s[k] == c || IsSpace(s[k])
  }

  lemma AllBlankCons(x: string, pieces: seq<string>)
    ensures AllBlank([x] + pieces) <==> AllSpace(x) && AllBlank(pieces)
  {
    var all := [x] + pieces;
    assert all[0] == x;
    assert forall k :: 0 <= k < |pieces| ==> all[k + 1] == pieces[k];
    if AllSpace(x) && AllBlank(pieces) {
      forall k | 0 <= k < |all| ensures AllSpace(all[k]) {
        if k > 0 { assert all[k] == pieces[k - 1]; }
      }
    }
  }

  /** `s` holds only separators and white space exactly when every piece of
      its split is all white space. */
  lemma {:induction false} SplitAllBlank(s: string, c: char)
    ensures AllBlank(Split(s, c)) <==> OnlySeparatorsAndSpace(s, c)
  {
    if |s| > 0 {
      SplitAllBlank(s[1..], c);
      var rest := Split(s[1..], c);
      assert OnlySeparatorsAndSpace(s, c) <==> (s[0] == c || IsSpace(s[0])) && OnlySeparatorsAndSpace(s[1..], c) by {
        assert forall k :: 1 <= k < |s| ==> s[k] == s[1..][k - 1];
      }
      assert rest == [rest[0]] + rest[1..];
      AllBlankCons(rest[0], rest[1..]);
      if s[0] == c {
        AllBlankCons("", rest);
      } else {
        assert Split(s, c) == [[s[0]] + rest[0]] + rest[1..];
        AllBlankCons([s[0]] + rest[0], rest[1..]);
        AllSpaceConcat([s[0]], rest[0]);
        assert AllSpace([s[0]]) <==> IsSpace(s[0]) by { assert [s[0]][0] == s[0]; }
      }
    }
  }

  // ---------------------------------------------------------------------
  // Substrings

  /** Python's `needle in hay` on strings. */
  predicate Contains(hay: string, needle: string)
    decreases |hay|
  {
    needle <= hay || (hay != [] && Contains(hay[1..], needle))
  }

  // ---------------------------------------------------------------------
  // str(int) and int(str)

  predicate IsDigit(c: char) {
    '0' <= c <= '9'
  }

  function DigitChar(d: nat): (c: char)
    requires d < 10
    ensures IsDigit(c)
  {
    "0123456789"[d]
  }

  function DigitValue(c: char): (d: nat)
    requires IsDigit(c)
    ensures d < 10 && DigitChar(d) == c
  {
    c as int - '0' as int
  }

  /** The decimal digits of `n`, without leading zeros. */
  function NatToString(n: nat): (s: string)
    ensures |s| >= 1 && forall k :: 0 <= k < |s| ==> IsDigit(s[k])
  {
    if n < 10 then [DigitChar(n)]
    else NatToString(n / 10) + [DigitChar(n % 10)]
  }

  /** Python's `str(n)` for an integer. */
  function IntToString(n: int): (s: string)
    ensures |s| >= 1
    ensures forall k :: 0 <= k < |s| ==> IsDigit(s[k]) || (k == 0 && s[k] == '-')
    ensures IsDigit(s[|s| - 1])
  {
    if n < 0 then "-" + NatToString(-n) else NatToString(n)
  }

  /** The value of a string of decimal digits. */
  function DigitsValue(s: string): nat
    requires forall k :: 0 <= k < |s| ==> IsDigit(s[k])
  {
    if s == [] then 0
    else DigitsValue(s[..|s| - 1]) * 10 + DigitValue(s[|s| - 1])
  }

  predicate AllDigits(s: string) {
    s != [] && forall k :: 0 <= k < |s| ==> IsDigit(s[k])
  }

  /** Python's `int(s)` for a string: white space around an optional sign
      and one or more decimal digits; anything else raises `ValueError`. */
  function ParseInt(s: string): Option<int>
  {
    ParseSigned(Strip(s))
  }

  /** `int` on a string with no white space around it. */
  function ParseSigned(t: string): Option<int>
  {
    if t != [] && (t[0] == '-' || t[0] == '+') then
      if AllDigits(t[1..]) then
        Some(if t[0] == '-' then -(DigitsValue(t[1..]) as int) else DigitsValue(t[1..]))
      else None
    else if AllDigits(t) then Some(DigitsValue(t))
    else None
  }

  lemma {:induction false} NatToStringValue(n: nat)
    ensures DigitsValue(NatToString(n)) == n
  {
    if n >= 10 {
      var s := NatToString(n);
      NatToStringValue(n / 10);
      assert s[..|s| - 1] == NatToString(n / 10);
    }
  }

  /** A digit is never white space. */
  lemma DigitNotSpace(c: char)
    requires IsDigit(c)
    ensures !IsSpace(c)
  {
  }

  /** Unsigned digits read as their value. */
  lemma ParseSignedDigits(t: string)
    requires AllDigits(t)
    ensures ParseSigned(t) == Some(DigitsValue(t))
  {
    assert IsDigit(t[0]);
  }

  /** A minus sign before digits reads as the negated value. */
  lemma ParseSignedNegative(d: string)
    requires AllDigits(d)
    ensures ParseSigned("-" + d) == Some(-(DigitsValue(d) as int))
  {
    assert ("-" + d)[0] == '-' && ("-" + d)[1..] == d;
  }

  /** A string with no white space at its ends is parsed as it is. */
  lemma ParseIntUnstripped(s: string)
    requires s != [] && !IsSpace(s[0]) && !IsSpace(s[|s| - 1])
    ensures ParseInt(s) == ParseSigned(s)
  {
    StripUnchanged(s);
  }

  /** The digits of a natural number read back as that number. */
  lemma ParseIntNat(n: nat)
    ensures ParseInt(NatToString(n)) == Some(n as int)
  {
    var s := NatToString(n);
    DigitNotSpace(s[0]);
    DigitNotSpace(s[|s| - 1]);
    ParseIntUnstripped(s);
    ParseSignedDigits(s);
    NatToStringValue(n);
  }

  /** A minus sign before the digits of `m` reads back as `-m`. */
  lemma ParseIntNeg(m: nat)
    ensures ParseInt("-" + NatToString(m)) == Some(-(m as int))
  {
    var d := NatToString(m);
    var s := "-" + d;
    DigitNotSpace(d[|d| - 1]);
    assert s[|s| - 1] == d[|d| - 1];
    ParseIntUnstripped(s);
    ParseSignedNegative(d);
    NatToStringValue(m);
  }

  /** `int(str(n)) == n` for every integer. */
  lemma ParseIntToString(n: int)
    ensures ParseInt(IntToString(n)) == Some(n)
  {
    if n < 0 {
      ParseIntNeg(-n);
    } else {
      ParseIntNat(n);
    }
  }

  // ---------------------------------------------------------------------
  // Sub-sequences and the repr of a list of strings

  /** `a` is `b` with some elements left out, the others in their order. */
  predicate IsSubsequence<T(==)>(a: seq<T>, b: seq<T>)
  {
    if a == [] then true
    else if b == [] then false
    else if a[0] == b[0] then IsSubsequence(a[1..], b[1..])
    else IsSubsequence(a, b[1..])
  }

  /** Python's `repr` of a list of strings that hold no quote or backslash:
      `['A', 'B']`. */
  function ListRepr(items: seq<string>): string
  {
    "[" + Join(", ", seq(|items|, k requires 0 <= k < |items| => "'" + items[k] + "'")) + "]"
  }
}

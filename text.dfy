/** Character classes and string operations of Python's `str` and `re` that the
    schedule pipeline relies on: whitespace (`str.isspace`, the `\s` class,
    `str.strip`), decimal digits (the `\d` class and `int()`), decimal
    rendering (`f"{n}"`), code-point string order (`<` on `str`) and
    `"\n".join`. */
module Text {

  /** The characters for which `str.isspace()` holds, which are also the
      characters the `\s` class of a `str` pattern matches. */
  predicate IsSpace(c: char) {
    ('\t' <= c <= '\r') || ('\U{1C}' <= c <= '\U{1F}') || c == ' ' || c == '\U{85}' || c == '\U{A0}'
    || c == '\U{1680}' || ('\U{2000}' <= c <= '\U{200A}') || c == '\U{2028}' || c == '\U{2029}'
    || c == '\U{202F}' || c == '\U{205F}' || c == '\U{3000}'
  }

  /** `x` is one of the ten code points `zero`..`zero + 9`. */
  predicate InRun(x: int, zero: int) {
    zero <= x < zero + 10
  }

  /** The value Python's `int()` gives a one-character decimal digit, or -1
      for any other character. The decimal digits are the 68 runs of ten code
      points listed here by their zero (Unicode 15.0, the tables of Python 3.12). */
  function DigitValue(c: char): (v: int)
    ensures -1 <= v <= 9
  {
    var x := c as int;
    if InRun(x, 0x30) then x - 0x30
    else if InRun(x, 0x660) then x - 0x660
    else if InRun(x, 0x6f0) then x - 0x6f0
    else if InRun(x, 0x7c0) then x - 0x7c0
    else if InRun(x, 0x966) then x - 0x966
    else if InRun(x, 0x9e6) then x - 0x9e6
    else if InRun(x, 0xa66) then x - 0xa66
    else if InRun(x, 0xae6) then x - 0xae6
    else if InRun(x, 0xb66) then x - 0xb66
    else if InRun(x, 0xbe6) then x - 0xbe6
    else if InRun(x, 0xc66) then x - 0xc66
    else if InRun(x, 0xce6) then x - 0xce6
    else if InRun(x, 0xd66) then x - 0xd66
    else if InRun(x, 0xde6) then x - 0xde6
    else if InRun(x, 0xe50) then x - 0xe50
    else if InRun(x, 0xed0) then x - 0xed0
    else if InRun(x, 0xf20) then x - 0xf20
    else if InRun(x, 0x1040) then x - 0x1040
    else if InRun(x, 0x1090) then x - 0x1090
    else if InRun(x, 0x17e0) then x - 0x17e0
    else if InRun(x, 0x1810) then x - 0x1810
    else if InRun(x, 0x1946) then x - 0x1946
    else if InRun(x, 0x19d0) then x - 0x19d0
    else if InRun(x, 0x1a80) then x - 0x1a80
    else if InRun(x, 0x1a90) then x - 0x1a90
    else if InRun(x, 0x1b50) then x - 0x1b50
    else if InRun(x, 0x1bb0) then x - 0x1bb0
    else if InRun(x, 0x1c40) then x - 0x1c40
    else if InRun(x, 0x1c50) then x - 0x1c50
    else if InRun(x, 0xa620) then x - 0xa620
    else if InRun(x, 0xa8d0) then x - 0xa8d0
    else if InRun(x, 0xa900) then x - 0xa900
    else if InRun(x, 0xa9d0) then x - 0xa9d0
    else if InRun(x, 0xa9f0) then x - 0xa9f0
    else if InRun(x, 0xaa50) then x - 0xaa50
    else if InRun(x, 0xabf0) then x - 0xabf0
    else if InRun(x, 0xff10) then x - 0xff10
    else if InRun(x, 0x104a0) then x - 0x104a0
    else if InRun(x, 0x10d30) then x - 0x10d30
    else if InRun(x, 0x11066) then x - 0x11066
    else if InRun(x, 0x110f0) then x - 0x110f0
    else if InRun(x, 0x11136) then x - 0x11136
    else if InRun(x, 0x111d0) then x - 0x111d0
    else if InRun(x, 0x112f0) then x - 0x112f0
    else if InRun(x, 0x11450) then x - 0x11450
    else if InRun(x, 0x114d0) then x - 0x114d0
    else if InRun(x, 0x11650) then x - 0x11650
    else if InRun(x, 0x116c0) then x - 0x116c0
    else if InRun(x, 0x11730) then x - 0x11730
    else if InRun(x, 0x118e0) then x - 0x118e0
    else if InRun(x, 0x11950) then x - 0x11950
    else if InRun(x, 0x11c50) then x - 0x11c50
    else if InRun(x, 0x11d50) then x - 0x11d50
    else if InRun(x, 0x11da0) then x - 0x11da0
    else if InRun(x, 0x11f50) then x - 0x11f50
    else if InRun(x, 0x16a60) then x - 0x16a60
    else if InRun(x, 0x16ac0) then x - 0x16ac0
    else if InRun(x, 0x16b50) then x - 0x16b50
    else if InRun(x, 0x1d7ce) then x - 0x1d7ce
    else if InRun(x, 0x1d7d8) then x - 0x1d7d8
    else if InRun(x, 0x1d7e2) then x - 0x1d7e2
    else if InRun(x, 0x1d7ec) then x - 0x1d7ec
    else if InRun(x, 0x1d7f6) then x - 0x1d7f6
    else if InRun(x, 0x1e140) then x - 0x1e140
    else if InRun(x, 0x1e2f0) then x - 0x1e2f0
    else if InRun(x, 0x1e4f0) then x - 0x1e4f0
    else if InRun(x, 0x1e950) then x - 0x1e950
    else if InRun(x, 0x1fbf0) then x - 0x1fbf0
    else -1
  }

  /** What the `\d` class matches. */
  predicate IsDigit(c: char) {
    DigitValue(c) >= 0
  }

  predicate AllDigits(s: string) {
    forall i :: 0 <= i < |s| ==> IsDigit(s[i])
  }

  predicate AllSpaces(s: string) {
    forall i :: 0 <= i < |s| ==> IsSpace(s[i])
  }

  /** `int(s)` for a string of decimal digits. */
  function DigitsValue(s: string): (n: int)
    requires AllDigits(s)
    ensures n >= 0
  {
    if |s| == 0 then 0 else 10 * DigitsValue(s[..|s| - 1]) + DigitValue(s[|s| - 1])
  }

  lemma DigitIsNotSpace(c: char)
    requires IsDigit(c)
    ensures !IsSpace(c)
  {
  }

  lemma AllSpacesConcat(a: string, b: string)
    ensures AllSpaces(a + b) <==> AllSpaces(a) && AllSpaces(b)
  {
    if AllSpaces(a + b) {
      forall k | 0 <= k < |a|
        ensures IsSpace(a[k])
      {
        assert a[k] == (a + b)[k];
      }
      forall k | 0 <= k < |b|
        ensures IsSpace(b[k])
      {
        assert b[k] == (a + b)[|a| + k];
      }
    }
    if AllSpaces(a) && AllSpaces(b) {
      forall k | 0 <= k < |a + b|
        ensures IsSpace((a + b)[k])
      {
        if k >= |a| {
          assert (a + b)[k] == b[k - |a|];
        }
      }
    }
  }

  /** Number of whitespace characters at the start of `s`. */
  function LeadingSpaces(s: string): (n: nat)
    ensures n <= |s|
    ensures AllSpaces(s[..n])
    ensures n < |s| ==> !IsSpace(s[n])
  {
    if |s| > 0 && IsSpace(s[0]) then
      var n := 1 + LeadingSpaces(s[1..]);
      assert s[..n] == [s[0]] + s[1..][..n - 1];
      n
    else 0
  }

  /** Number of whitespace characters at the end of `s`. */
  function TrailingSpaces(s: string): (n: nat)
    ensures n <= |s|
    ensures AllSpaces(s[|s| - n..])
    ensures n < |s| ==> !IsSpace(s[|s| - n - 1])
  {
    if |s| > 0 && IsSpace(s[|s| - 1]) then
      var init := s[..|s| - 1];
      var n := 1 + TrailingSpaces(init);
      SpacesSuffix(s, init, n - 1);
      n
    else 0
  }

  /** A whitespace suffix of `s` without its last character, followed by that
      last character when it is whitespace, is a whitespace suffix of `s`. */
  lemma SpacesSuffix(s: string, init: string, k: nat)
    requires |s| > 0 && init == s[..|s| - 1] && k <= |init|
    requires AllSpaces(init[|init| - k..]) && IsSpace(s[|s| - 1])
    ensures AllSpaces(s[|s| - (k + 1)..])
  {
    assert s[|s| - (k + 1)..] == init[|init| - k..] + [s[|s| - 1]];
    AllSpacesConcat(init[|init| - k..], [s[|s| - 1]]);
  }

  /** `s.strip()`: what is left neither starts nor ends with whitespace. */
  function Strip(s: string): (r: string)
    ensures |r| <= |s|
    ensures r != [] ==> !IsSpace(r[0]) && !IsSpace(r[|r| - 1])
  {
    var t := s[LeadingSpaces(s)..];
    t[..|t| - TrailingSpaces(t)]
  }

  /** Stripping cuts whitespace from both ends only: the result is a slice of
      `s` with nothing but whitespace before and after it. */
  lemma StripSlice(s: string)
    ensures exists i, j :: 0 <= i <= j <= |s| && Strip(s) == s[i..j] && AllSpaces(s[..i]) && AllSpaces(s[j..])
  {
    var i := LeadingSpaces(s);
    var t := s[i..];
    var n := TrailingSpaces(t);
    var j := i + |t| - n;
    assert Strip(s) == s[i..j];
    assert s[j..] == t[|t| - n..];
    StripWitness(s, i, j);
  }

  lemma StripWitness(s: string, i: int, j: int)
    requires 0 <= i <= j <= |s| && Strip(s) == s[i..j] && AllSpaces(s[..i]) && AllSpaces(s[j..])
    ensures exists i, j :: 0 <= i <= j <= |s| && Strip(s) == s[i..j] && AllSpaces(s[..i]) && AllSpaces(s[j..])
  {
  }

  /** Stripping leaves nothing exactly when the string is all whitespace. */
  lemma StripEmpty(s: string)
    ensures AllSpaces(s) <==> Strip(s) == []
  {
    var i := LeadingSpaces(s);
    var t := s[i..];
    var n := TrailingSpaces(t);
    assert s == s[..i] + t;
    AllSpacesConcat(s[..i], t);
    if Strip(s) == [] {
      assert n == |t|;
      assert t[|t| - n..] == t;
    }
  }

  /** A string that neither starts nor ends with whitespace is its own strip. */
  lemma StripUnchanged(s: string)
    requires |s| > 0 && !IsSpace(s[0]) && !IsSpace(s[|s| - 1])
    ensures Strip(s) == s
  {
    assert LeadingSpaces(s) == 0;
    assert s[0..] == s;
    assert TrailingSpaces(s) == 0;
    assert s[..|s|] == s;
  }

  /** A number written with ASCII digits, as `f"{n}"` writes it. */
  function NatToString(n: nat): (s: string)
    ensures |s| >= 1
    ensures forall i :: 0 <= i < |s| ==> '0' <= s[i] <= '9'
    decreases n
  {
    var last := [('0' as int + n % 10) as char];
    if n < 10 then last else NatToString(n / 10) + last
  }

  /** Reading back a number written by `NatToString` gives the number. */
  lemma {:induction false} NatToStringValue(n: nat)
    ensures AllDigits(NatToString(n)) && DigitsValue(NatToString(n)) == n
    decreases n
  {
    var s := NatToString(n);
    assert AllDigits(s) by {
      forall i | 0 <= i < |s|
        ensures IsDigit(s[i])
      {
        assert InRun(s[i] as int, 0x30);
      }
    }
    if n >= 10 {
      NatToStringValue(n / 10);
      assert s[..|s| - 1] == NatToString(n / 10);
    }
  }

  lemma NatToStringLength(n: nat)
    ensures n < 10 ==> |NatToString(n)| == 1
    ensures 10 <= n < 100 ==> |NatToString(n)| == 2
  {
  }

  /** Python's `a < b` on `str`: code-point lexicographic order, a proper prefix first. */
  predicate StrBefore(a: string, b: string)
    ensures StrBefore(a, b) ==> a != b
    decreases |a|
  {
    if |a| == 0 then |b| > 0
    else if |b| == 0 then false
    else if a[0] != b[0] then a[0] < b[0]
    else StrBefore(a[1..], b[1..])
  }

  lemma {:induction false} StrBeforeIrreflexive(a: string)
    ensures !StrBefore(a, a)
    decreases |a|
  {
    if |a| > 0 {
      StrBeforeIrreflexive(a[1..]);
    }
  }

  /** Any two strings are equal or ordered one way or the other, and not both ways. */
  lemma {:induction false} StrBeforeTotal(a: string, b: string)
    ensures a == b || StrBefore(a, b) || StrBefore(b, a)
    ensures !(StrBefore(a, b) && StrBefore(b, a))
    decreases |a|
  {
    if |a| > 0 && |b| > 0 && a[0] == b[0] {
      StrBeforeTotal(a[1..], b[1..]);
      if a[1..] == b[1..] {
        assert a == [a[0]] + a[1..] && b == [b[0]] + b[1..];
      }
    }
  }

  lemma {:induction false} StrBeforeTransitive(a: string, b: string, c: string)
    requires StrBefore(a, b) && StrBefore(b, c)
    ensures StrBefore(a, c)
    decreases |a|
  {
    if |a| > 0 && a[0] == b[0] && b[0] == c[0] {
      StrBeforeTransitive(a[1..], b[1..], c[1..]);
    }
  }

  /** `sep.join(lines)`: the text starts with the first line. */
  function Join(lines: seq<string>, sep: string): (r: string)
    ensures |lines| > 0 ==> |lines[0]| <= |r| && r[..|lines[0]|] == lines[0]
  {
    if |lines| == 0 then ""
    else if |lines| == 1 then lines[0]
    else Join(lines[..|lines| - 1], sep) + sep + lines[|lines| - 1]
  }
}

/** The string handling the program relies on: whitespace stripping of
    text-field contents, Python's ordering of strings, and `int(...)` on a
    decimal text. */
module Text {
  import opened Common

  /** Space, tab, line feed, carriage return, vertical tab and form feed:
      the whitespace `str.strip()` removes, short of the separators
      0x1C-0x1F and non-ASCII spaces. */
  predicate IsSpace(c: char) {
    c == ' ' || c == '\t' || c == '\n' || c == '\r' || c == 11 as char || c == 12 as char
  }

  predicate AllSpace(s: string) {
    forall k :: 0 <= k < |s| ==> IsSpace(s[k])
  }

  /** `s` without its leading whitespace. */
  function StripLeading(s: string): (r: string)
    ensures |r| <= |s| && r == s[|s| - |r|..]
    ensures forall k :: 0 <= k < |s| - |r| ==> IsSpace(s[k])
    ensures r != [] ==> !IsSpace(r[0])
  {
    if s == [] || !IsSpace(s[0]) then s else StripLeading(s[1..])
  }

  /** `s` without its trailing whitespace. */
  function StripTrailing(s: string): (r: string)
    ensures |r| <= |s| && r == s[..|r|]
    ensures forall k :: |r| <= k < |s| ==> IsSpace(s[k])
    ensures r != [] ==> !IsSpace(r[|r| - 1])
  {
    if s == [] || !IsSpace(s[|s| - 1]) then s else StripTrailing(s[..|s| - 1])
  }

  /** `str.strip()`: the text between the first and the last non-blank
      character. It is empty exactly when the text is blank. */
  function Strip(s: string): (r: string)
    ensures r == [] <==> AllSpace(s)
    ensures r != [] ==> !IsSpace(r[0]) && !IsSpace(r[|r| - 1])
  {
    var a := StripLeading(s);
    var b := StripTrailing(a);
    assert b == [] ==> AllSpace(s) by {
      if b == [] {
        forall k | 0 <= k < |s| ensures IsSpace(s[k]) {
          if k >= |s| - |a| {
            assert s[k] == a[k - (|s| - |a|)];
          }
        }
      }
    }
    b
  }

  /** Stripping twice is stripping once. */
  lemma StripIdempotent(s: string)
    ensures Strip(Strip(s)) == Strip(s)
  {
    var r := Strip(s);
    if r != [] {
      assert StripLeading(r) == r;
      assert StripTrailing(r) == r;
    }
  }

  lemma {:induction false} StripLeadingPadded(pad: string, x: string)
    requires AllSpace(pad) && x != [] && !IsSpace(x[0])
    ensures StripLeading(pad + x) == x
  {
    if pad != [] {
      assert (pad + x)[1..] == pad[1..] + x;
      StripLeadingPadded(pad[1..], x);
    } else {
      assert pad + x == x;
    }
  }

  lemma {:induction false} StripTrailingPadded(x: string, pad: string)
    requires AllSpace(pad) && x != [] && !IsSpace(x[|x| - 1])
    ensures StripTrailing(x + pad) == x
  {
    if pad != [] {
      assert (x + pad)[..|x + pad| - 1] == x + pad[..|pad| - 1];
      StripTrailingPadded(x, pad[..|pad| - 1]);
    } else {
      assert x + pad == x;
    }
  }

  /** Surrounding blanks are removed and nothing else: a text that starts
      and ends with a non-blank character survives stripping unchanged. */
  lemma StripPadded(before: string, x: string, after: string)
    requires AllSpace(before) && AllSpace(after)
    requires x != [] && !IsSpace(x[0]) && !IsSpace(x[|x| - 1])
    ensures Strip(before + x + after) == x
  {
    assert before + x + after == before + (x + after);
    StripLeadingPadded(before, x + after);
    StripTrailingPadded(x, after);
  }

  // ---------------------------------------------------------------------
  // Python's ordering of strings: code point by code point, a proper
  // prefix first.

  predicate LexLess(a: string, b: string)
    decreases |a|
  {
    if a == [] then b != []
    else if b == [] then false
    else if a[0] < b[0] then true
    else if a[0] == b[0] then LexLess(a[1..], b[1..])
    else false
  }

  lemma LexLessCons(x: char, a: string, y: char, b: string)
    ensures LexLess([x] + a, [y] + b) <==> x < y || (x == y && LexLess(a, b))
  {
    assert ([x] + a)[1..] == a;
    assert ([y] + b)[1..] == b;
  }

  lemma {:induction false} LexLessTotal(a: string, b: string)
    ensures LexLess(a, b) || a == b || LexLess(b, a)
    decreases |a|
  {
    if a != [] && b != [] && a[0] == b[0] {
      LexLessTotal(a[1..], b[1..]);
      if a[1..] == b[1..] {
        assert a == [a[0]] + a[1..] && b == [b[0]] + b[1..];
      }
    }
  }

  lemma {:induction false} LexLessTransitive(a: string, b: string, c: string)
    requires LexLess(a, b) && LexLess(b, c)
    ensures LexLess(a, c)
    decreases |a|
  {
    if a != [] && a[0] == b[0] && b[0] == c[0] {
      LexLessTransitive(a[1..], b[1..], c[1..]);
    }
  }

  // ---------------------------------------------------------------------
  // Decimal integers.

  predicate IsDigit(c: char) {
    '0' <= c <= '9'
  }

  function DigitChar(d: nat): (c: char)
    requires d < 10
    ensures IsDigit(c) && DigitValue(c) == d
  {
    (48 + d) as char
  }

  function DigitValue(c: char): nat
    requires IsDigit(c)
  {
    (c as int) - 48
  }

  predicate AllDigits(s: string) {
    forall k :: 0 <= k < |s| ==> IsDigit(s[k])
  }

  /** The value of a non-empty run of decimal digits. */
  function DigitsValue(s: string): nat
    requires AllDigits(s)
  {
    if s == [] then 0 else DigitsValue(s[..|s| - 1]) * 10 + DigitValue(s[|s| - 1])
  }

  /** The canonical decimal text of `n`: no sign, no leading zeros. */
  function ShowNat(n: nat): (s: string)
    ensures s != [] && AllDigits(s)
    ensures |s| > 1 ==> s[0] != '0'
  {
    if n < 10 then [DigitChar(n)] else ShowNat(n / 10) + [DigitChar(n % 10)]
  }

  /** `int(s)` on an already stripped text: an optional sign followed by one
      or more decimal digits; anything else is a ValueError. */
  function ParseInt(s: string): (r: Option<int>)
    ensures r.Some? ==> s != []
    ensures r.Some? && s[0] != '-' ==> r.value >= 0
  {
    if s == [] then None
    else if s[0] == '-' || s[0] == '+' then
      var digits := s[1..];
      if digits != [] && AllDigits(digits) then
        var v: int := DigitsValue(digits);
        Some(if s[0] == '-' then -v else v)
      else None
    else if AllDigits(s) then Some(DigitsValue(s))
    else None
  }

  lemma {:induction false} DigitsOfShow(n: nat)
    ensures DigitsValue(ShowNat(n)) == n
  {
    if n >= 10 {
      var s := ShowNat(n);
      DigitsOfShow(n / 10);
      assert s[..|s| - 1] == ShowNat(n / 10);
    }
  }

  /** The text `str(n)` reads back as `n`. */
  lemma ParseShow(n: nat)
    ensures ParseInt(ShowNat(n)) == Some(n)
  {
    DigitsOfShow(n);
  }

  lemma ParseNegShow(n: nat)
    ensures ParseInt("-" + ShowNat(n)) == Some(-(n as int))
  {
    var s := "-" + ShowNat(n);
    assert s[1..] == ShowNat(n);
    DigitsOfShow(n);
  }
}

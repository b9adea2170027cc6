/** The string operations the scripts lean on: decimal text of an integer
    (`${n}`), `parseInt`, `Number`, `split` and `join`. */
module Strings {
  import opened Wrappers

  predicate IsDigit(c: char) {
    '0' <= c <= '9'
  }

  predicate AllDigits(s: string) {
    forall i :: 0 <= i < |s| ==> IsDigit(s[i])
  }

  function Digit(d: nat): (c: char)
    requires d < 10
    ensures IsDigit(c) && c as int - '0' as int == d
  {
    "0123456789"[d]
  }

  function DigitValue(c: char): nat
    requires IsDigit(c)
  {
    c as int - '0' as int
  }

  /** The number a string of decimal digits denotes (most significant first). */
  function DigitsValue(s: string): nat
    requires AllDigits(s)
  {
    if |s| == 0 then 0 else DigitsValue(s[..|s| - 1]) * 10 + DigitValue(s[|s| - 1])
  }

  /** Decimal text of a natural number, without leading zeros. */
  function NatToText(n: nat): (s: string)
    ensures |s| >= 1 && AllDigits(s)
  {
    if n < 10 then [Digit(n)] else NatToText(n / 10) + [Digit(n % 10)]
  }

  /** The text JavaScript gives an integral number: a minus sign for
      negative values, then the digits. */
  function IntToText(n: int): (s: string)
    ensures |s| >= 1
    ensures s[0] == '-' <==> n < 0
    ensures forall i :: 0 < i < |s| ==> IsDigit(s[i])
    ensures IsDigit(s[|s| - 1])
  {
    if n < 0 then "-" + NatToText(-n) else NatToText(n)
  }

  lemma {:induction false} NatToTextValue(n: nat)
    ensures DigitsValue(NatToText(n)) == n
    decreases n
  {
    if n >= 10 {
      var s := NatToText(n);
      NatToTextValue(n / 10);
      assert s[..|s| - 1] == NatToText(n / 10);
    }
  }

  /** The characters ECMAScript strips as white space or line terminators. */
  predicate IsSpace(c: char) {
    var k := c as int;
    k == 0x09 || k == 0x0A || k == 0x0B || k == 0x0C || k == 0x0D || k == 0x20 ||
    k == 0xA0 || k == 0x1680 || (0x2000 <= k <= 0x200A) || k == 0x2028 ||
    k == 0x2029 || k == 0x202F || k == 0x205F || k == 0x3000 || k == 0xFEFF
  }

  function TrimStart(s: string): (t: string)
    ensures |t| <= |s| && t == s[|s| - |t|..]
    ensures |t| > 0 ==> !IsSpace(t[0])
    ensures forall i :: 0 <= i < |s| - |t| ==> IsSpace(s[i])
  {
    if |s| > 0 && IsSpace(s[0]) then TrimStart(s[1..]) else s
  }

  function TrimEnd(s: string): (t: string)
    ensures |t| <= |s| && t == s[..|t|]
    ensures |t| > 0 ==> !IsSpace(t[|t| - 1])
    ensures forall i :: |t| <= i < |s| ==> IsSpace(s[i])
  {
    if |s| > 0 && IsSpace(s[|s| - 1]) then TrimEnd(s[..|s| - 1]) else s
  }

  /** The length of the longest prefix of `s` made of decimal digits. */
  function DigitRun(s: string): (k: nat)
    ensures k <= |s| && AllDigits(s[..k])
    ensures k < |s| ==> !IsDigit(s[k])
  {
    if |s| > 0 && IsDigit(s[0]) then 1 + DigitRun(s[1..]) else 0
  }

  /** An optional sign followed by the rest: (negative?, rest). */
  function SplitSign(t: string): (bool, string) {
    if |t| > 0 && t[0] == '-' then (true, t[1..])
    else if |t| > 0 && t[0] == '+' then (false, t[1..])
    else (false, t)
  }

  /** `parseInt(s)` for decimal text: leading white space and one sign are
      skipped, then the longest run of digits is read; no digits is NaN
      (None). Trailing text after the digits is ignored. */
  function ParseInt(s: string): (r: Option<int>)
    ensures r.None? <==> DigitRun(SplitSign(TrimStart(s)).1) == 0
  {
    var (negative, body) := SplitSign(TrimStart(s));
    var k := DigitRun(body);
    if k == 0 then None
    else
      var v: int := DigitsValue(body[..k]);
      Some(if negative then -v else v)
  }

  /** `Number(s)` for decimal integer text: surrounding white space is
      stripped, the empty string is 0, and otherwise the whole remainder
      must be one optional sign and at least one digit, else NaN (None). */
  function ToNumber(s: string): (r: Option<int>)
    ensures TrimEnd(TrimStart(s)) == "" ==> r == Some(0)
  {
    var t := TrimEnd(TrimStart(s));
    if t == "" then Some(0)
    else
      var (negative, body) := SplitSign(t);
      if |body| > 0 && AllDigits(body) then
        var v: int := DigitsValue(body);
        Some(if negative then -v else v)
      else None
  }

  lemma DigitRunOfDigits(s: string)
    requires AllDigits(s)
    ensures DigitRun(s) == |s|
  {
    if |s| > 0 {
      DigitRunOfDigits(s[1..]);
    }
  }

  /** `parseInt` reads back the text JavaScript gives an integer. */
  lemma ParseIntOfIntText(n: int)
    ensures ParseInt(IntToText(n)) == Some(n)
  {
    var s := IntToText(n);
    var m: nat := if n < 0 then -n else n;
    var digits := NatToText(m);
    assert !IsSpace(s[0]);
    assert TrimStart(s) == s;
    assert SplitSign(s) == (n < 0, digits);
    DigitRunOfDigits(digits);
    assert digits[..|digits|] == digits;
    NatToTextValue(m);
  }

  /** `Number` reads back the text JavaScript gives an integer. */
  lemma ToNumberOfIntText(n: int)
    ensures ToNumber(IntToText(n)) == Some(n)
  {
    var s := IntToText(n);
    var m: nat := if n < 0 then -n else n;
    var digits := NatToText(m);
    assert !IsSpace(s[0]) && !IsSpace(s[|s| - 1]);
    assert TrimStart(s) == s;
    assert TrimEnd(s) == s;
    assert SplitSign(s) == (n < 0, digits);
    NatToTextValue(m);
  }

  /** `s.replace(c, "")` with a one-character pattern: drops the first
      occurrence of `c`, if any. */
  function RemoveFirst(s: string, c: char): (t: string)
    ensures c !in s ==> t == s
    ensures |s| > 0 && s[0] == c ==> t == s[1..]
  {
    if |s| == 0 then s
    else if s[0] == c then s[1..]
    else [s[0]] + RemoveFirst(s[1..], c)
  }

  // ---------------------------------------------------------------------
  // split and join on a two-character separator

  /** A separator of two distinct characters, such as "-W" or ", ": no
      occurrence of it can overlap another. */
  predicate Separator(sep: string) {
    |sep| == 2 && sep[0] != sep[1]
  }

  predicate OccursAt(s: string, sep: string, i: nat)
    requires |sep| == 2
  {
    i + 1 < |s| && s[i] == sep[0] && s[i + 1] == sep[1]
  }

  predicate Contains(s: string, sep: string)
    requires |sep| == 2
  {
    exists i: nat | i < |s| :: OccursAt(s, sep, i)
  }

  /** `s.split(sep)`: the pieces between the occurrences of `sep`, scanning
      from the left. There is always at least one piece. */
  function Split(s: string, sep: string): (pieces: seq<string>)
    requires |sep| == 2
    ensures |pieces| >= 1
  {
    if |s| == 0 then [""]
    else if OccursAt(s, sep, 0) then [""] + Split(s[2..], sep)
    else
      var rest := Split(s[1..], sep);
      [[s[0]] + rest[0]] + rest[1..]
  }

  /** `xs.join(sep)`. */
  function Join(xs: seq<string>, sep: string): string {
    if |xs| == 0 then ""
    else if |xs| == 1 then xs[0]
    else xs[0] + sep + Join(xs[1..], sep)
  }

  lemma {:induction false} SplitWithout(x: string, sep: string)
    requires |sep| == 2 && !Contains(x, sep)
    ensures Split(x, sep) == [x]
    decreases |x|
  {
    if |x| > 0 {
      assert !OccursAt(x, sep, 0);
      assert !Contains(x[1..], sep) by {
        forall i: nat | OccursAt(x[1..], sep, i)
          ensures false
        {
          assert OccursAt(x, sep, i + 1);
        }
      }
      SplitWithout(x[1..], sep);
      assert [x[0]] + x[1..] == x;
    }
  }

  lemma {:induction false} SplitAfterPiece(x: string, sep: string, rest: string)
    requires Separator(sep) && !Contains(x, sep)
    ensures Split(x + sep + rest, sep) == [x] + Split(rest, sep)
    decreases |x|
  {
    var s := x + sep + rest;
    if |x| == 0 {
      assert s == sep + rest;
      assert OccursAt(s, sep, 0);
      assert s[2..] == rest;
    } else {
      if |x| == 1 {
        assert !OccursAt(s, sep, 0);
      } else {
        assert !OccursAt(x, sep, 0);
        assert !OccursAt(s, sep, 0);
      }
      assert !Contains(x[1..], sep) by {
        forall i: nat | OccursAt(x[1..], sep, i)
          ensures false
        {
          assert OccursAt(x, sep, i + 1);
        }
      }
      assert s[1..] == x[1..] + sep + rest;
      SplitAfterPiece(x[1..], sep, rest);
      assert [x[0]] + x[1..] == x;
    }
  }

  /** Splitting a joined list gives the list back, provided no element
      contains the separator. */
  lemma {:induction false} SplitJoin(xs: seq<string>, sep: string)
    requires Separator(sep) && |xs| >= 1
    requires forall i :: 0 <= i < |xs| ==> !Contains(xs[i], sep)
    ensures Split(Join(xs, sep), sep) == xs
    decreases |xs|
  {
    if |xs| == 1 {
      SplitWithout(xs[0], sep);
    } else {
      SplitJoin(xs[1..], sep);
      SplitAfterPiece(xs[0], sep, Join(xs[1..], sep));
      assert [xs[0]] + xs[1..] == xs;
    }
  }

  /** Every element of a list occurs inside its join, at offset `k`. */
  lemma {:induction false} JoinContainsElement(xs: seq<string>, sep: string, i: nat) returns (k: nat)
    requires i < |xs|
    ensures k + |xs[i]| <= |Join(xs, sep)| && Join(xs, sep)[k..k + |xs[i]|] == xs[i]
    decreases |xs|
  {
    var j := Join(xs, sep);
    if |xs| == 1 || i == 0 {
      k := 0;
      assert j[0..|xs[0]|] == xs[0];
    } else {
      var k' := JoinContainsElement(xs[1..], sep, i - 1);
      var off := |xs[0]| + |sep|;
      k := off + k';
      assert j == xs[0] + sep + Join(xs[1..], sep);
      assert j[off..] == Join(xs[1..], sep);
      assert j[k..k + |xs[i]|] == Join(xs[1..], sep)[k'..k' + |xs[i]|];
    }
  }

  /** `x` occurs inside `text` starting at offset `k`. */
  predicate IncludesAt(text: string, x: string, k: nat) {
    k + |x| <= |text| && text[k..k + |x|] == x
  }

  /** `text.includes(x)`: `x` occurs somewhere inside `text`. */
  predicate Includes(text: string, x: string) {
    exists k: nat | k <= |text| :: IncludesAt(text, x, k)
  }

  /** Text around an occurrence keeps it. */
  lemma IncludesInside(front: string, middle: string, back: string, x: string)
    requires Includes(middle, x)
    ensures Includes(front + middle + back, x)
  {
    var k: nat :| IncludesAt(middle, x, k);
    assert IncludesAt(middle, x, k);
    var whole := front + middle + back;
    var at := |front| + k;
    assert whole[at..at + |x|] == middle[k..k + |x|];
    assert IncludesAt(whole, x, at);
  }

  /** Every element of a list occurs in its join. */
  lemma JoinIncludes(xs: seq<string>, sep: string)
    ensures forall j :: 0 <= j < |xs| ==> Includes(Join(xs, sep), xs[j])
  {
    forall j | 0 <= j < |xs|
      ensures Includes(Join(xs, sep), xs[j])
    {
      var k := JoinContainsElement(xs, sep, j);
      assert IncludesAt(Join(xs, sep), xs[j], k);
    }
  }
}

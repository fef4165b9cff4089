/**
 * The Python string operations the scripts rely on, with Python's semantics:
 * single-character `str.replace`, negative slicing `s[-n:]`, `s.rsplit(sep, 1)[0]`,
 * code-point ordering of strings, `str(int)`, `int(str)` and `sep.join(parts)`.
 */
module Text {
  import opened Wrappers

  /** Python's `s.replace(c, d)` for one-character arguments: every `c` becomes `d`. */
  function Replace(s: string, c: char, d: char): (r: string)
    ensures |r| == |s|
    ensures forall i :: 0 <= i < |s| ==> r[i] == if s[i] == c then d else s[i]
  {
    if s == [] then [] else [if s[0] == c then d else s[0]] + Replace(s[1..], c, d)
  }

  /** After the replacement no `c` is left, and characters other than `c` and `d` are where they were. */
  lemma ReplaceRemoves(s: string, c: char, d: char, e: char)
    requires c != d
    ensures c !in Replace(s, c, d)
    ensures e != c && e != d ==> (e in Replace(s, c, d) <==> e in s)
  {
    var r := Replace(s, c, d);
    if e != c && e != d {
      if e in r {
        var i :| 0 <= i < |r| && r[i] == e;
        assert s[i] == e;
      }
      if e in s {
        var i :| 0 <= i < |s| && s[i] == e;
        assert r[i] == e;
      }
    }
  }

  /** A string without `c` is left as it is. */
  lemma ReplaceAbsent(s: string, c: char, d: char)
    requires c !in s
    ensures Replace(s, c, d) == s
  {
    var r := Replace(s, c, d);
    assert forall i :: 0 <= i < |s| ==> r[i] == s[i];
  }

  /** Python's `s[-n:]` for n > 0: the last n characters, or all of `s` when it is shorter. */
  function Last(s: string, n: nat): (r: string)
    ensures |r| == if |s| <= n then |s| else n
    ensures r == s[|s| - |r|..]
  {
    if |s| <= n then s else s[|s| - n..]
  }

  /** The index of the last `c` in `s`, or -1 when there is none. */
  function LastIndex(s: string, c: char): (k: int)
    ensures -1 <= k < |s|
    ensures k >= 0 ==> s[k] == c && forall j :: k < j < |s| ==> s[j] != c
    ensures k == -1 ==> c !in s
  {
    if s == [] then -1
    else if s[|s| - 1] == c then |s| - 1
    else LastIndex(s[..|s| - 1], c)
  }

  /** Python's `s.rsplit(c, 1)[0]`: everything before the last `c`, or all of `s` when there is no `c`. */
  function RSplitBase(s: string, c: char): string
  {
    var k := LastIndex(s, c);
    if k < 0 then s else s[..k]
  }

  /** Stripping a suffix that was appended after a separator gives back the base, whatever the base holds. */
  lemma {:induction false} RSplitBaseOfSuffixed(base: string, c: char, suffix: string)
    requires c !in suffix
    ensures RSplitBase(base + [c] + suffix, c) == base
  {
    var s := base + [c] + suffix;
    var k := LastIndex(s, c);
    assert s[|base|] == c;
    assert k == |base|;
    assert s[..k] == base;
  }

  /** Python's `<` on `str`: code-point lexicographic order. */
  predicate StrLt(a: string, b: string)
  {
    if a == [] then b != []
    else if b == [] then false
    else if a[0] != b[0] then a[0] < b[0]
    else StrLt(a[1..], b[1..])
  }

  lemma {:induction false} StrLtIrreflexive(a: string)
    ensures !StrLt(a, a)
  {
    if a != [] {
      StrLtIrreflexive(a[1..]);
    }
  }

  /** Two different strings are always ordered one way or the other. */
  lemma {:induction false} StrLtTotal(a: string, b: string)
    requires a != b
    ensures StrLt(a, b) || StrLt(b, a)
  {
    if a != [] && b != [] && a[0] == b[0] {
      assert a == [a[0]] + a[1..] && b == [b[0]] + b[1..];
      StrLtTotal(a[1..], b[1..]);
    }
  }

  lemma {:induction false} StrLtTransitive(a: string, b: string, c: string)
    requires StrLt(a, b) && StrLt(b, c)
    ensures StrLt(a, c)
  {
    if a != [] && b != [] && c != [] && a[0] == b[0] && b[0] == c[0] {
      StrLtTransitive(a[1..], b[1..], c[1..]);
    }
  }

  lemma {:induction false} StrLtAsymmetric(a: string, b: string)
    requires StrLt(a, b)
    ensures !StrLt(b, a)
  {
    if a != [] && b != [] && a[0] == b[0] {
      StrLtAsymmetric(a[1..], b[1..]);
    }
  }

  function DigitChar(d: nat): char
    requires d < 10
  {
    "0123456789"[d]
  }

  predicate IsDigit(c: char)
  {
    '0' <= c <= '9'
  }

  /** The decimal digits of a natural number, most significant first, without leading zeros. */
  function Digits(n: nat): (s: string)
    ensures |s| > 0 && forall i :: 0 <= i < |s| ==> IsDigit(s[i])
    decreases n
  {
    if n < 10 then [DigitChar(n)] else Digits(n / 10) + [DigitChar(n % 10)]
  }

  /** Python's `str(i)` for an integer. */
  function Decimal(i: int): string
  {
    if i < 0 then "-" + Digits(-i) else Digits(i)
  }

  /** The value of a string of decimal digits. */
  function DigitsValue(s: string): nat
    requires forall i :: 0 <= i < |s| ==> IsDigit(s[i])
  {
    if s == [] then 0
    else
      assert IsDigit(s[|s| - 1]);
      DigitsValue(s[..|s| - 1]) * 10 + (s[|s| - 1] as int - '0' as int)
  }

  predicate AllDigits(s: string)
  {
    |s| > 0 && forall i :: 0 <= i < |s| ==> IsDigit(s[i])
  }

  /**
   * Python's `int(s)` for a string: an optional sign followed by ASCII digits.
   * Surrounding whitespace and `_` separators, which Python also accepts, are not modelled.
   */
  function ParseInt(s: string): Option<int>
  {
    if |s| > 0 && (s[0] == '-' || s[0] == '+') then
      if AllDigits(s[1..]) then
        Some(if s[0] == '-' then -(DigitsValue(s[1..]) as int) else DigitsValue(s[1..]))
      else None
    else if AllDigits(s) then Some(DigitsValue(s))
    else None
  }

  lemma {:induction false} DigitsValueOfDigits(n: nat)
    ensures DigitsValue(Digits(n)) == n
    decreases n
  {
    var s := Digits(n);
    if n >= 10 {
      DigitsValueOfDigits(n / 10);
      assert s[..|s| - 1] == Digits(n / 10);
    }
  }

  /** `int(str(i)) == i`: parsing the decimal rendering gives the number back. */
  lemma ParseDecimal(i: int)
    ensures ParseInt(Decimal(i)) == Some(i)
  {
    var s := Decimal(i);
    if i < 0 {
      var d := Digits(-i);
      DigitsValueOfDigits(-i);
      assert s[0] == '-' && s[1..] == d;
      assert AllDigits(d);
    } else {
      DigitsValueOfDigits(i);
      assert IsDigit(s[0]);
      assert AllDigits(s);
    }
  }

  /** Python's `sep.join(parts)`. */
  function Join(parts: seq<string>, sep: string): string
  {
    if parts == [] then ""
    else if |parts| == 1 then parts[0]
    else parts[0] + sep + Join(parts[1..], sep)
  }

  /** The index of the first `c` in `s`, or -1 when there is none. */
  function FirstIndex(s: string, c: char): (k: int)
    ensures -1 <= k < |s|
    ensures k >= 0 ==> s[k] == c && c !in s[..k]
    ensures k == -1 ==> c !in s
  {
    if s == [] then -1
    else if s[0] == c then 0
    else
      var k := FirstIndex(s[1..], c);
      if k < 0 then -1 else k + 1
  }

  /** Python's `s.split(c)` for a one-character separator: always at least one part. */
  function Split(s: string, c: char): (parts: seq<string>)
    ensures |parts| >= 1
    decreases |s|
  {
    var k := FirstIndex(s, c);
    if k < 0 then [s] else [s[..k]] + Split(s[k + 1..], c)
  }

  /** Splitting a join at its separator gives the parts back, provided no part holds the separator. */
  lemma {:induction false} SplitJoin(parts: seq<string>, c: char)
    requires |parts| >= 1
    requires forall i :: 0 <= i < |parts| ==> c !in parts[i]
    ensures Split(Join(parts, [c]), c) == parts
  {
    if |parts| == 1 {
      assert FirstIndex(parts[0], c) == -1;
    } else {
      var s := Join(parts, [c]);
      var rest := Join(parts[1..], [c]);
      assert s == parts[0] + [c] + rest;
      FirstIndexAfter(parts[0], c, rest);
      assert s[..|parts[0]|] == parts[0];
      assert s[|parts[0]| + 1..] == rest;
      SplitJoin(parts[1..], c);
      assert parts == [parts[0]] + parts[1..];
    }
  }

  lemma FirstIndexAfter(a: string, c: char, b: string)
    requires c !in a
    ensures FirstIndex(a + [c] + b, c) == |a|
  {
    var s := a + [c] + b;
    var k := FirstIndex(s, c);
    assert s[|a|] == c;
  }

  /** `str(i)` never holds a comma, so a comma-joined list of numbers can be split again. */
  lemma DecimalHasNoComma(i: int)
    ensures ',' !in Decimal(i)
  {
    var s := Decimal(i);
    if i < 0 {
      forall j | 1 <= j < |s| ensures s[j] != ',' {
        assert s[j] == Digits(-i)[j - 1];
      }
    }
  }
}

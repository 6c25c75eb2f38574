/** The subset of Python's text handling that schedule values go through:
    `int(text)`, `str(n)` and `text.split(':')`.

    `int` is modelled on an optional sign followed by one or more ASCII digits,
    at most `MaxStrDigits` of them; Python also admits surrounding whitespace,
    `_` between digits and non-ASCII digits, which this model rejects. */
module Literals {
  import opened Models

  /** CPython's default limit on the number of digits `int(text)` converts
      (`sys.int_info.default_max_str_digits`); longer digit runs, leading
      zeros included, raise ValueError. */
  const MaxStrDigits: int := 4300

  predicate IsDigit(c: char) {
    '0' <= c <= '9'
  }

  predicate AllDigits(s: string) {
    forall i :: 0 <= i < |s| ==> IsDigit(s[i])
  }

  function DigitValue(c: char): nat
    requires IsDigit(c)
  {
    (c as int) - ('0' as int)
  }

  function DigitChar(d: nat): char
    requires d < 10
  {
    ('0' as int + d) as char
  }

  /** The value of a run of decimal digits, most significant first. */
  function DigitsValue(s: string): nat
    requires AllDigits(s)
  {
    if s == [] then 0 else DigitsValue(s[..|s| - 1]) * 10 + DigitValue(s[|s| - 1])
  }

  /** `int(s)`: Some(value) when `s` is an optional `+`/`-` and one to
      `MaxStrDigits` digits, None where Python raises ValueError. */
  function ParseInt(s: string): (r: Option<int>)
    ensures r.Some? <==> (|s| > 0 && AllDigits(s) && |s| <= MaxStrDigits)
                         || (|s| > 1 && (s[0] == '+' || s[0] == '-') && AllDigits(s[1..]) && |s| - 1 <= MaxStrDigits)
    ensures r.Some? && s[0] != '-' ==> r.value >= 0
    ensures r.Some? && s[0] == '-' ==> r.value <= 0
  {
    if |s| > 0 && (s[0] == '+' || s[0] == '-') then
      if |s| > 1 && AllDigits(s[1..]) && |s| - 1 <= MaxStrDigits then
        var magnitude: int := DigitsValue(s[1..]);
        Some(if s[0] == '-' then -magnitude else magnitude)
      else None
    else if |s| > 0 && AllDigits(s) && |s| <= MaxStrDigits then Some(DigitsValue(s))
    else None
  }

  /** `str(n)` for n >= 0: the shortest decimal rendering. */
  function FormatNat(n: nat): (s: string)
    ensures |s| > 0 && AllDigits(s)
    ensures s[0] == '0' ==> n == 0
  {
    if n < 10 then [DigitChar(n)] else FormatNat(n / 10) + [DigitChar(n % 10)]
  }

  /** `str(n)`. */
  function FormatInt(n: int): (s: string)
    ensures |s| > 0
    ensures ':' !in s
  {
    if n < 0 then "-" + FormatNat(-n) else FormatNat(n)
  }

  lemma {:induction false} DigitsValueOfFormat(n: nat)
    ensures DigitsValue(FormatNat(n)) == n
  {
    if n >= 10 {
      var s := FormatNat(n);
      assert s[..|s| - 1] == FormatNat(n / 10);
      DigitsValueOfFormat(n / 10);
    }
  }

  /** `n` has at most `MaxStrDigits` decimal digits. */
  predicate FitsDigitLimit(n: int) {
    |FormatNat(if n < 0 then -n else n)| <= MaxStrDigits
  }

  /** `int(str(n)) == n` for every integer within the digit limit. */
  lemma ParseFormatInt(n: int)
    requires FitsDigitLimit(n)
    ensures ParseInt(FormatInt(n)) == Some(n)
  {
    if n < 0 {
      assert FormatInt(n)[1..] == FormatNat(-n);
      DigitsValueOfFormat(-n);
    } else {
      DigitsValueOfFormat(n);
    }
  }

  /** A digit run longer than the limit is refused, whatever its value. */
  lemma TooManyDigitsRefused(s: string)
    requires AllDigits(s) && |s| > MaxStrDigits
    ensures ParseInt(s) == None
    ensures ParseInt("-" + s) == None && ParseInt("+" + s) == None
  {
    assert ("-" + s)[1..] == s && ("+" + s)[1..] == s;
  }

  /** Distinct integers render as distinct strings. */
  lemma FormatIntInjective(a: int, b: int)
    requires FormatInt(a) == FormatInt(b)
    ensures a == b
  {
    var x := FormatInt(a);
    assert (a < 0) == (x[0] == '-') && (b < 0) == (x[0] == '-');
    if a < 0 {
      assert x[1..] == FormatNat(-a) == FormatNat(-b);
      DigitsValueOfFormat(-a);
      DigitsValueOfFormat(-b);
    } else {
      DigitsValueOfFormat(a);
      DigitsValueOfFormat(b);
    }
  }

  /** `s.split(sep)`: the pieces between separators, always at least one. */
  function Split(s: string, sep: char): (parts: seq<string>)
    ensures |parts| >= 1
    ensures forall k :: 0 <= k < |parts| ==> sep !in parts[k]
  {
    if s == [] then [""]
    else
      var rest := Split(s[1..], sep);
      if s[0] == sep then [""] + rest else [[s[0]] + rest[0]] + rest[1..]
  }

  /** `sep.join(parts)`. */
  function Join(parts: seq<string>, sep: char): string
    requires |parts| >= 1
  {
    if |parts| == 1 then parts[0] else parts[0] + [sep] + Join(parts[1..], sep)
  }

  /** Number of occurrences of `c` in `s`. */
  function Count(s: string, c: char): nat {
    if s == [] then 0 else (if s[0] == c then 1 else 0) + Count(s[1..], c)
  }

  /** Joining the pieces gives the text back, and there is one piece more
      than there are separators. */
  lemma {:induction false} JoinSplit(s: string, sep: char)
    ensures Join(Split(s, sep), sep) == s
    ensures |Split(s, sep)| == Count(s, sep) + 1
  {
    if s != [] {
      var rest := Split(s[1..], sep);
      JoinSplit(s[1..], sep);
      if s[0] != sep {
        var parts := Split(s, sep);
        assert parts[1..] == rest[1..];
        if |rest| > 1 {
          assert rest[1..][1..] == rest[2..];
        }
      }
    }
  }

  /** Splitting a join of separator-free pieces gives the pieces back. */
  lemma {:induction false} SplitJoin(parts: seq<string>, sep: char)
    requires |parts| >= 1
    requires forall k :: 0 <= k < |parts| ==> sep !in parts[k]
    ensures Split(Join(parts, sep), sep) == parts
  {
    if |parts| == 1 {
      SplitNoSeparator(parts[0], sep);
    } else {
      SplitJoin(parts[1..], sep);
      SplitPrefix(parts[0], Join(parts[1..], sep), sep);
      assert [parts[0]] + parts[1..] == parts;
    }
  }

  lemma {:induction false} SplitNoSeparator(s: string, sep: char)
    requires sep !in s
    ensures Split(s, sep) == [s]
  {
    if s != [] {
      SplitNoSeparator(s[1..], sep);
      assert [s[0]] + s[1..] == s;
    }
  }

  lemma {:induction false} SplitPrefix(a: string, b: string, sep: char)
    requires sep !in a
    ensures Split(a + [sep] + b, sep) == [a] + Split(b, sep)
  {
    if a == [] {
      assert ([sep] + b)[1..] == b;
    } else {
      assert (a + [sep] + b)[1..] == a[1..] + [sep] + b;
      SplitPrefix(a[1..], b, sep);
      assert [a[0]] + a[1..] == a;
    }
  }

  /** Python's `"H:M"` split: two separator-free texts joined by one colon
      split back into exactly those two. */
  lemma SplitPair(a: string, b: string)
    requires ':' !in a && ':' !in b
    ensures Split(a + ":" + b, ':') == [a, b]
  {
    SplitJoin([a, b], ':');
    assert Join([a, b], ':') == a + ":" + b;
  }
}

/**
 Decimal rendering of integers (Java's `Long.toString`, `Integer.toString`,
 `Byte.toString`), the first-separator split used by `String.split(",", 2)`,
 `String.join`, and the parsers that invert them.
 */
module Text {
  import opened Wrappers

  predicate IsDigit(c: char) {
    '0' <= c <= '9'
  }

  function DigitChar(d: nat): (c: char)
    requires d < 10
    ensures IsDigit(c)
  {
    ('0' as int + d) as char
  }

  function DigitValue(c: char): (d: nat)
    requires IsDigit(c)
    ensures d < 10 && DigitChar(d) == c
  {
    c as int - '0' as int
  }

  /** The decimal digits of `n`, most significant first. */
  function NatText(n: nat): (s: string)
    ensures 1 <= |s|
    ensures forall i :: 0 <= i < |s| ==> IsDigit(s[i])
    ensures s[0] == '0' ==> n == 0
    decreases n
  {
    if n < 10 then [DigitChar(n)] else NatText(n / 10) + [DigitChar(n % 10)]
  }

  /** Reads a non-empty run of decimal digits; anything else is rejected. */
  function ParseNat(s: string): (r: Option<nat>)
    ensures r.Some? ==> 1 <= |s| && forall i :: 0 <= i < |s| ==> IsDigit(s[i])
  {
    if |s| == 0 || !IsDigit(s[|s| - 1]) then None
    else if |s| == 1 then Some(DigitValue(s[0]))
    else match ParseNat(s[..|s| - 1])
      case None => None
      case Some(v) => Some(10 * v + DigitValue(s[|s| - 1]))
  }

  lemma {:induction false} NatTextRoundTrip(n: nat)
    ensures ParseNat(NatText(n)) == Some(n)
    decreases n
  {
    if n >= 10 {
      NatTextRoundTrip(n / 10);
      var s := NatText(n);
      assert s[..|s| - 1] == NatText(n / 10);
    }
  }

  /** Java's decimal rendering of a signed integer: an optional `-`, then the digits. */
  function LongText(x: int): (s: string)
    ensures 1 <= |s|
    ensures forall i :: 0 <= i < |s| ==> IsDigit(s[i]) || (i == 0 && s[i] == '-')
    ensures x >= 0 <==> IsDigit(s[0])
  {
    if x < 0 then "-" + NatText(-x) else NatText(x)
  }

  /** Inverse of `LongText`: an optional `-` followed by digits. */
  function ParseLong(s: string): Option<int> {
    if 1 <= |s| && s[0] == '-' then
      match ParseNat(s[1..])
      case None => None
      case Some(v) => Some(-(v as int))
    else
      match ParseNat(s)
      case None => None
      case Some(v) => Some(v)
  }

  lemma LongTextRoundTrip(x: int)
    ensures ParseLong(LongText(x)) == Some(x)
  {
    if x < 0 {
      var t := NatText(-x);
      NatTextRoundTrip(-x);
      assert ("-" + t)[1..] == t;
    } else {
      NatTextRoundTrip(x);
    }
  }

  /** A decimal rendering never contains a punctuation separator. */
  lemma LongTextPlain(x: int, sep: char)
    requires !IsDigit(sep) && sep != '-'
    ensures sep !in LongText(x)
  {
    var s := LongText(x);
    assert forall i :: 0 <= i < |s| ==> s[i] != sep;
  }

  /** Every field of `s` between occurrences of `sep`, empty ones included. */
  function Fields(s: string, sep: char): (r: seq<string>)
    ensures 1 <= |r|
    decreases |s|
  {
    if |s| == 0 then [""]
    else
      var rest := Fields(s[1..], sep);
      if s[0] == sep then [""] + rest else [[s[0]] + rest[0]] + rest[1..]
  }

  lemma {:induction false} FieldsOfPlain(a: string, sep: char)
    requires sep !in a
    ensures Fields(a, sep) == [a]
    decreases |a|
  {
    if |a| > 0 {
      FieldsOfPlain(a[1..], sep);
      assert [a[0]] + a[1..] == a;
    }
  }

  /** Appending a separator and a plain field appends exactly one field. */
  lemma {:induction false} FieldsSnoc(p: string, sep: char, q: string)
    requires sep !in q
    ensures Fields(p + [sep] + q, sep) == Fields(p, sep) + [q]
    decreases |p|
  {
    if |p| == 0 {
      assert p + [sep] + q == [sep] + q;
      assert ([sep] + q)[1..] == q;
      FieldsOfPlain(q, sep);
    } else {
      FieldsSnoc(p[1..], sep, q);
      assert (p + [sep] + q)[1..] == p[1..] + [sep] + q;
    }
  }

  /**
   The text after the first occurrence of `sep`, or None when `sep` does not
   occur: element 1 of Java's `s.split(sep, 2)`, whose absence makes the
   source index out of bounds.
   */
  function AfterFirst(s: string, sep: char): Option<string>
    decreases |s|
  {
    if |s| == 0 then None
    else if s[0] == sep then Some(s[1..])
    else AfterFirst(s[1..], sep)
  }

  /**
   There is a part after the separator exactly when the separator occurs,
   and it is the suffix behind the separator's first occurrence.
   */
  lemma {:induction false} AfterFirstSpec(s: string, sep: char)
    ensures AfterFirst(s, sep).Some? <==> sep in s
    ensures var r := AfterFirst(s, sep);
      r.Some? ==> |r.value| < |s| && r.value == s[|s| - |r.value|..] &&
                  s[|s| - |r.value| - 1] == sep && sep !in s[..|s| - |r.value| - 1]
    decreases |s|
  {
    if |s| > 0 && s[0] != sep {
      var t := s[1..];
      AfterFirstSpec(t, sep);
      assert sep in s <==> sep in t by {
        if sep in s {
          var i :| 0 <= i < |s| && s[i] == sep;
          assert t[i - 1] == sep;
        }
      }
      var r := AfterFirst(t, sep);
      if r.Some? {
        assert s[..|s| - |r.value| - 1] == [s[0]] + t[..|t| - |r.value| - 1];
      }
    }
  }

  /** The split happens at the first separator: the part after it comes back whole. */
  lemma {:induction false} AfterFirstPlain(a: string, sep: char, b: string)
    requires sep !in a
    ensures AfterFirst(a + [sep] + b, sep) == Some(b)
    decreases |a|
  {
    var s := a + [sep] + b;
    if |a| == 0 {
      assert s == [sep] + b;
      assert s[1..] == b;
    } else {
      assert s[0] == a[0] && a[0] in a;
      AfterFirstPlain(a[1..], sep, b);
      assert s[1..] == a[1..] + [sep] + b;
    }
  }

  /** `String.join(sep, xs)`: the elements with one separator between neighbours. */
  function Join(xs: seq<string>, sep: char): (s: string)
    ensures |xs| == 0 ==> s == ""
    decreases |xs|
  {
    if |xs| == 0 then ""
    else if |xs| == 1 then xs[0]
    else Join(xs[..|xs| - 1], sep) + [sep] + xs[|xs| - 1]
  }

  /** Splitting a join of separator-free parts gives the parts back. */
  lemma {:induction false} JoinFields(xs: seq<string>, sep: char)
    requires 1 <= |xs|
    requires forall i :: 0 <= i < |xs| ==> sep !in xs[i]
    ensures Fields(Join(xs, sep), sep) == xs
    decreases |xs|
  {
    if |xs| == 1 {
      FieldsOfPlain(xs[0], sep);
    } else {
      var init := xs[..|xs| - 1];
      JoinFields(init, sep);
      FieldsSnoc(Join(init, sep), sep, xs[|xs| - 1]);
      assert init + [xs[|xs| - 1]] == xs;
    }
  }
}

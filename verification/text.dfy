/** The pieces of Python's string handling the submission writer relies on:
    `str` of an integer, `sep.join`, and `str.split(sep)` with an explicit
    one-character separator, with their inverses. */
module Text {

  predicate IsDigit(c: char) {
    '0' <= c <= '9'
  }

  function DigitChar(d: nat): (c: char)
    requires d < 10
    ensures IsDigit(c)
  {
    ['0', '1', '2', '3', '4', '5', '6', '7', '8', '9'][d]
  }

  function DigitValue(c: char): (d: nat)
    ensures d < 10
    ensures IsDigit(c) ==> DigitChar(d) == c
  {
    if IsDigit(c) then (c as int - '0' as int) as nat else 0
  }

  lemma DigitRoundTrip(d: nat)
    requires d < 10
    ensures DigitValue(DigitChar(d)) == d
  {
  }

  /** The decimal digits of `n`, without leading zeros. */
  function NatToString(n: nat): (s: string)
    ensures |s| > 0
    ensures forall i :: 0 <= i < |s| ==> IsDigit(s[i])
    ensures s[0] == '0' ==> n == 0 && |s| == 1
    decreases n
  {
    if n < 10 then [DigitChar(n)] else NatToString(n / 10) + [DigitChar(n % 10)]
  }

  /** `str(i)` for a Python integer. */
  function IntToString(i: int): (s: string)
    ensures |s| > 0
    ensures forall k :: 0 <= k < |s| ==> s[k] != ' ' && s[k] != ',' && s[k] != '\n'
  {
    if i < 0 then "-" + NatToString(-i) else NatToString(i)
  }

  /** The value of a string of decimal digits. */
  function ParseNat(s: string): nat
    decreases |s|
  {
    if |s| == 0 then 0 else ParseNat(s[..|s| - 1]) * 10 + DigitValue(s[|s| - 1])
  }

  /** `int(s)` for what `str` produces: an optional minus sign and digits. */
  function ParseInt(s: string): int {
    if |s| > 0 && s[0] == '-' then -(ParseNat(s[1..]) as int) else ParseNat(s)
  }

  lemma {:induction false} ParseNatOfNatToString(n: nat)
    ensures ParseNat(NatToString(n)) == n
    decreases n
  {
    var s := NatToString(n);
    if n >= 10 {
      assert s[..|s| - 1] == NatToString(n / 10);
      ParseNatOfNatToString(n / 10);
      DigitRoundTrip(n % 10);
    } else {
      DigitRoundTrip(n);
    }
  }

  lemma ParseNegative(digits: string)
    ensures ParseInt("-" + digits) == -(ParseNat(digits) as int)
  {
    assert ("-" + digits)[1..] == digits;
  }

  lemma ParseUnsigned(digits: string)
    requires |digits| > 0 && IsDigit(digits[0])
    ensures ParseInt(digits) == ParseNat(digits)
  {
  }

  /** Reading back `str(i)` gives `i`. */
  lemma ParseIntOfIntToString(i: int)
    ensures ParseInt(IntToString(i)) == i
  {
    if i < 0 {
      var n: nat := -i;
      var digits := NatToString(n);
      assert IntToString(i) == "-" + digits;
      ParseNegative(digits);
      ParseNatOfNatToString(n);
    } else {
      var digits := NatToString(i);
      assert IntToString(i) == digits;
      ParseUnsigned(digits);
      ParseNatOfNatToString(i);
    }
  }

  /** `sep.join(xs)`. */
  function Join(xs: seq<string>, sep: string): string {
    if |xs| == 0 then ""
    else if |xs| == 1 then xs[0]
    else xs[0] + sep + Join(xs[1..], sep)
  }

  /** `s.split(c)` for a single-character separator: the pieces between the
      occurrences of `c`; the empty string gives one empty piece. */
  function Split(s: string, c: char): (r: seq<string>)
    ensures |r| >= 1
    decreases |s|
  {
    if |s| == 0 then [""]
    else
      var rest := Split(s[1..], c);
      if s[0] == c then [""] + rest else [[s[0]] + rest[0]] + rest[1..]
  }

  /** A string without the separator is a single piece. */
  lemma {:induction false} SplitWithout(w: string, c: char)
    requires c !in w
    ensures Split(w, c) == [w]
    decreases |w|
  {
    if |w| > 0 {
      SplitWithout(w[1..], c);
      assert [w[0]] + w[1..] == w;
    }
  }

  /** A first piece without the separator, then the separator, then the rest. */
  lemma {:induction false} SplitAfter(w: string, c: char, t: string)
    requires c !in w
    ensures Split(w + [c] + t, c) == [w] + Split(t, c)
    decreases |w|
  {
    if |w| == 0 {
      assert w + [c] + t == [c] + t;
      assert ([c] + t)[1..] == t;
    } else {
      var s := w + [c] + t;
      assert s[1..] == w[1..] + [c] + t;
      SplitAfter(w[1..], c, t);
      assert [w[0]] + w[1..] == w;
    }
  }

  /** Splitting a join of separator-free pieces gives back the pieces. */
  lemma {:induction false} SplitJoin(xs: seq<string>, c: char)
    requires |xs| >= 1
    requires forall i :: 0 <= i < |xs| ==> c !in xs[i]
    ensures Split(Join(xs, [c]), c) == xs
    decreases |xs|
  {
    if |xs| == 1 {
      SplitWithout(xs[0], c);
    } else {
      SplitJoin(xs[1..], c);
      SplitAfter(xs[0], c, Join(xs[1..], [c]));
      assert xs == [xs[0]] + xs[1..];
    }
  }

  /** Joining the pieces of a split gives back the string. */
  lemma {:induction false} JoinSplit(s: string, c: char)
    ensures Join(Split(s, c), [c]) == s
    decreases |s|
  {
    if |s| > 0 {
      JoinSplit(s[1..], c);
      var rest := Split(s[1..], c);
      if s[0] == c {
        assert s == [c] + s[1..];
      } else {
        var pieces := [[s[0]] + rest[0]] + rest[1..];
        assert pieces[1..] == rest[1..];
        if |rest| > 1 {
          assert Join(rest, [c]) == rest[0] + [c] + Join(rest[1..], [c]);
        }
        assert s == [s[0]] + s[1..];
      }
    }
  }

  /** The result of looking for the separator ", ": not found, or the text
      before its first occurrence and the text after it. */
  datatype Break = NotFound | Parts(before: string, after: string)

  /** The text before the first ", " and the text after it, provided no comma
      comes before that separator; a comma not followed by a space ends the
      search with `NotFound`. */
  function BreakAtFirst(s: string): (r: Break)
    ensures r.Parts? ==> s == r.before + ", " + r.after
    ensures r.Parts? ==> ',' !in r.before
    decreases |s|
  {
    if |s| < 2 then NotFound
    else if s[0] == ',' && s[1] == ' ' then
      assert s == "" + ", " + s[2..];
      Parts("", s[2..])
    else if s[0] == ',' then NotFound
    else match BreakAtFirst(s[1..])
      case NotFound => NotFound
      case Parts(b, a) =>
        assert s == [s[0]] + b + ", " + a;
        Parts([s[0]] + b, a)
  }

  /** A line whose first part has no comma breaks right after that part. */
  lemma {:induction false} BreakAtFirstOfCommaFree(p: string, q: string)
    requires ',' !in p
    ensures BreakAtFirst(p + ", " + q) == Parts(p, q)
    decreases |p|
  {
    var s := p + ", " + q;
    if |p| > 0 {
      assert s[1..] == p[1..] + ", " + q;
      BreakAtFirstOfCommaFree(p[1..], q);
      assert [p[0]] + p[1..] == p;
    } else {
      assert s[2..] == q;
    }
  }
}

/**
 * The string primitives the validator relies on: ASCII `downcase`,
 * `Integer#to_s`, `Array#join` and the underscore-to-space step of
 * ActiveSupport's `humanize`.
 */
module Text {

  predicate IsUpper(c: char) {
    'A' <= c <= 'Z'
  }

  /** A string with no upper-case ASCII letter in it. */
  predicate IsLower(s: string) {
    forall i :: 0 <= i < |s| ==> !IsUpper(s[i])
  }

  /** `t` occurs somewhere inside `s`. */
  ghost predicate IsInfix(t: string, s: string) {
    exists i, j :: 0 <= i <= j <= |s| && s[i..j] == t
  }

  /** Lower-cases an ASCII capital and leaves every other character alone. */
  function DowncaseChar(c: char): (d: char)
    ensures !IsUpper(d)
    ensures IsUpper(c) ==> d as int == c as int + 32
    ensures !IsUpper(c) ==> d == c
  {
    if IsUpper(c) then (c as int + 32) as char else c
  }

  /** `String#downcase`, restricted to ASCII letters. */
  function Downcase(s: string): (r: string)
    ensures |r| == |s|
  {
    if s == [] then [] else [DowncaseChar(s[0])] + Downcase(s[1..])
  }

  /** `Downcase` works character by character. */
  lemma {:induction false} DowncaseAt(s: string)
    ensures forall i :: 0 <= i < |s| ==> Downcase(s)[i] == DowncaseChar(s[i])
  {
    if s != [] {
      DowncaseAt(s[1..]);
      assert Downcase(s) == [DowncaseChar(s[0])] + Downcase(s[1..]);
    }
  }

  lemma DowncaseIsLower(s: string)
    ensures IsLower(Downcase(s))
  {
    DowncaseAt(s);
  }

  /**
   * The identifier-to-phrase step of `humanize`: every underscore becomes a
   * space and every other character is kept (capitalisation is irrelevant
   * because the validator down-cases the result).
   */
  function Humanize(name: string): (r: string)
    ensures |r| == |name|
  {
    if name == [] then [] else [if name[0] == '_' then ' ' else name[0]] + Humanize(name[1..])
  }

  /** `Humanize` replaces each underscore by a space and keeps every other character. */
  lemma {:induction false} HumanizeAt(name: string)
    ensures forall i :: 0 <= i < |name| ==>
      Humanize(name)[i] == (if name[i] == '_' then ' ' else name[i])
    ensures forall i :: 0 <= i < |name| ==> Humanize(name)[i] != '_'
  {
    if name != [] {
      HumanizeAt(name[1..]);
      assert Humanize(name) == [if name[0] == '_' then ' ' else name[0]] + Humanize(name[1..]);
    }
  }

  /** `Humanize` distributes over concatenation. */
  lemma {:induction false} HumanizeAppend(a: string, b: string)
    ensures Humanize(a + b) == Humanize(a) + Humanize(b)
  {
    if a == [] {
      assert a + b == b;
    } else {
      assert (a + b)[1..] == a[1..] + b;
      HumanizeAppend(a[1..], b);
    }
  }

  /** A name without underscores is its own humanized form. */
  lemma HumanizeWithoutUnderscore(name: string)
    requires forall i :: 0 <= i < |name| ==> name[i] != '_'
    ensures Humanize(name) == name
  {
    HumanizeAt(name);
  }

  /** `Array#join(sep)` over strings. */
  function Join(xs: seq<string>, sep: string): string {
    if |xs| == 0 then ""
    else if |xs| == 1 then xs[0]
    else xs[0] + sep + Join(xs[1..], sep)
  }

  predicate IsDigit(c: char) {
    '0' <= c <= '9'
  }

  function DigitChar(d: nat): (c: char)
    requires d < 10
    ensures IsDigit(c) && c as int - '0' as int == d
  {
    ('0' as int + d) as char
  }

  /** The decimal digits of `n`, most significant first, with no leading zero. */
  function NatToString(n: nat): (r: string)
    ensures |r| >= 1
    ensures |r| == 1 <==> n < 10
    ensures forall i :: 0 <= i < |r| ==> IsDigit(r[i])
    ensures r[0] == '0' ==> n == 0
    decreases n
  {
    if n < 10 then [DigitChar(n)] else NatToString(n / 10) + [DigitChar(n % 10)]
  }

  /** `Integer#to_s`: decimal, with a leading minus sign for negatives. */
  function IntToString(i: int): (r: string)
    ensures |r| >= 1
    ensures r[0] == '-' <==> i < 0
  {
    if i < 0 then "-" + NatToString(-i) else NatToString(i)
  }

  lemma DowncaseOfLower(s: string)
    requires IsLower(s)
    ensures Downcase(s) == s
  {
    DowncaseAt(s);
  }

  /** Decimal strings contain no capital letter, so `downcase` leaves them alone. */
  lemma IntToStringIsLower(i: int)
    ensures IsLower(IntToString(i))
    ensures Downcase(IntToString(i)) == IntToString(i)
  {
    var r := IntToString(i);
    if i < 0 {
      var d := NatToString(-i);
      assert r == "-" + d;
      forall k | 0 <= k < |r| ensures !IsUpper(r[k]) {
        if k > 0 { assert r[k] == d[k - 1]; }
      }
    }
    DowncaseOfLower(r);
  }

  lemma {:induction false} NatToStringInjective(m: nat, n: nat)
    requires NatToString(m) == NatToString(n)
    ensures m == n
    decreases m
  {
    var a, b := NatToString(m), NatToString(n);
    if m < 10 {
      assert n < 10;
      assert a == [DigitChar(m)] && b == [DigitChar(n)];
    } else {
      assert n >= 10;
      assert a == NatToString(m / 10) + [DigitChar(m % 10)];
      assert b == NatToString(n / 10) + [DigitChar(n % 10)];
      assert a[|a| - 1] == DigitChar(m % 10) && b[|b| - 1] == DigitChar(n % 10);
      assert a[..|a| - 1] == NatToString(m / 10);
      assert b[..|b| - 1] == NatToString(n / 10);
      NatToStringInjective(m / 10, n / 10);
    }
  }

  /** Distinct integers print differently. */
  lemma IntToStringInjective(i: int, k: int)
    requires IntToString(i) == IntToString(k)
    ensures i == k
  {
    var a := IntToString(i);
    if i < 0 {
      assert k < 0;
      assert a[1..] == NatToString(-i);
      assert IntToString(k)[1..] == NatToString(-k);
      NatToStringInjective(-i, -k);
    } else {
      assert k >= 0;
      NatToStringInjective(i, k);
    }
  }

  lemma InfixInPrefixed(t: string, p: string, s: string)
    requires IsInfix(t, s)
    ensures IsInfix(t, p + s)
  {
    var i, j :| 0 <= i <= j <= |s| && s[i..j] == t;
    assert (p + s)[i + |p|..j + |p|] == s[i..j];
  }

  lemma InfixAtStart(t: string, s: string)
    requires |t| <= |s| && s[..|t|] == t
    ensures IsInfix(t, s)
  {
    assert s[0..|t|] == t;
  }

  /** Each string between single quotes, in order. */
  function Quoted(xs: seq<string>): (r: seq<string>)
    ensures |r| == |xs|
    ensures forall k :: 0 <= k < |xs| ==> r[k] == "'" + xs[k] + "'"
  {
    if xs == [] then [] else ["'" + xs[0] + "'"] + Quoted(xs[1..])
  }

  /**
   * Joining with `', '` inside one outer pair of quotes is joining the
   * individually quoted strings with `, `: same order, same separator.
   */
  lemma {:induction false} JoinQuoted(xs: seq<string>)
    requires |xs| > 0
    ensures "'" + Join(xs, "', '") + "'" == Join(Quoted(xs), ", ")
    decreases |xs|
  {
    if |xs| > 1 {
      var q := Quoted(xs);
      assert q[0] == "'" + xs[0] + "'";
      assert q[1..] == Quoted(xs[1..]);
      JoinQuoted(xs[1..]);
      calc {
        "'" + Join(xs, "', '") + "'";
        "'" + (xs[0] + "', '" + Join(xs[1..], "', '")) + "'";
        ("'" + xs[0] + "'") + ", " + ("'" + Join(xs[1..], "', '") + "'");
        q[0] + ", " + Join(q[1..], ", ");
        Join(q, ", ");
      }
    }
  }

  /**
   * Joining with `', '` and quoting the whole result puts every element of
   * the list between its own pair of single quotes.
   */
  lemma {:induction false} JoinQuotesEach(xs: seq<string>, k: nat)
    requires k < |xs|
    ensures IsInfix("'" + xs[k] + "'", "'" + Join(xs, "', '") + "'")
    decreases |xs|
  {
    var t := "'" + xs[k] + "'";
    var s := "'" + Join(xs, "', '") + "'";
    if |xs| == 1 {
      assert s == t;
      InfixAtStart(t, s);
    } else {
      var rest := "'" + Join(xs[1..], "', '") + "'";
      assert s == "'" + xs[0] + "', " + rest;
      if k == 0 {
        assert s == t + ", " + rest;
        assert s[..|t|] == t;
        InfixAtStart(t, s);
      } else {
        JoinQuotesEach(xs[1..], k - 1);
        assert xs[1..][k - 1] == xs[k];
        InfixInPrefixed(t, "'" + xs[0] + "', ", rest);
      }
    }
  }
}

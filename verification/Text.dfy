/** String facts the composite keys and version identifiers rest on. A char stands for one byte. */
module Text {
  import opened Arithmetic

  predicate IsDigit(c: char) {
    '0' <= c <= '9'
  }

  function DigitValue(c: char): (d: nat)
    requires IsDigit(c)
    ensures d < 10
  {
    c as int - '0' as int
  }

  function DigitChar(d: nat): (c: char)
    requires d < 10
    ensures IsDigit(c) && DigitValue(c) == d
  {
    ('0' as int + d) as char
  }

  /** The %d form of a natural number. */
  function Decimal(n: nat): (s: string)
    ensures s != ""
  {
    if n < 10 then [DigitChar(n)] else Decimal(n / 10) + [DigitChar(n % 10)]
  }

  /** The %d form of an integer. */
  function DecimalInt(n: int): string {
    if n < 0 then "-" + Decimal(-n) else Decimal(n)
  }

  predicate AllDigits(s: string) {
    forall i :: 0 <= i < |s| ==> IsDigit(s[i])
  }

  /** The number a digit string denotes, most significant digit first. */
  function NumberOf(s: string): nat
    requires AllDigits(s)
  {
    if s == "" then 0 else NumberOf(s[..|s| - 1]) * 10 + DigitValue(s[|s| - 1])
  }

  /** The longest suffix made of digits. */
  function DigitRun(s: string): (r: string)
    ensures AllDigits(r)
  {
    if s == "" || !IsDigit(s[|s| - 1]) then "" else DigitRun(s[..|s| - 1]) + [s[|s| - 1]]
  }

  function Reversed(s: string): (r: string)
    ensures |r| == |s|
    ensures forall i :: 0 <= i < |s| ==> r[i] == s[|s| - 1 - i]
  {
    if s == "" then "" else [s[|s| - 1]] + Reversed(s[..|s| - 1])
  }

  lemma {:induction false} DecimalReadsBack(n: nat)
    ensures AllDigits(Decimal(n)) && NumberOf(Decimal(n)) == n
  {
    if n >= 10 {
      DecimalReadsBack(n / 10);
      assert Decimal(n)[..|Decimal(n)| - 1] == Decimal(n / 10);
    }
  }

  function Power10(k: nat): (p: nat)
    ensures p > 0
  {
    if k == 0 then 1 else 10 * Power10(k - 1)
  }

  /** The k-th digit from the end is that of the k-th power of ten, and there are just enough of them. */
  lemma {:induction false} DecimalDigits(n: nat, k: nat)
    ensures k < |Decimal(n)| ==> Decimal(n)[|Decimal(n)| - 1 - k] == "0123456789"[(n / Power10(k)) % 10]
    ensures k < |Decimal(n)| <==> k == 0 || Power10(k) <= n
    decreases k
  {
    hide Decimal, Power10, DigitChar;
    DecimalStep(n);
    DigitNamed(n % 10);
    PowersOfTen(k);
    if k > 0 {
      DecimalDigits(n / 10, k - 1);
      QuotientTwice(n, Power10(k - 1));
    }
  }

  lemma DecimalStep(n: nat)
    ensures Decimal(n) == (if n < 10 then "" else Decimal(n / 10)) + [DigitChar(n % 10)]
    ensures n < 10 ==> n % 10 == n && |Decimal(n / 10)| == 1
  {
  }

  lemma PowersOfTen(k: nat)
    ensures Power10(0) == 1 && (k > 0 ==> Power10(k) == 10 * Power10(k - 1) && Power10(k - 1) >= 1)
  {
  }

  lemma DigitNamed(d: nat)
    requires d < 10
    ensures DigitChar(d) == "0123456789"[d]
  {
  }

  lemma QuotientTwice(n: nat, p: nat)
    requires p > 0
    ensures n / (10 * p) == (n / 10) / p
    ensures 10 * p <= n <==> p <= n / 10
  {
    var q := (n / 10) / p;
    var r := n - q * (10 * p);
    assert n / 10 == q * p + (n / 10) % p;
    assert n == 10 * (n / 10) + n % 10;
    assert r == 10 * ((n / 10) % p) + n % 10;
    RemainderUnique(n, 10 * p, q, r);
  }

  /** The numeral of an integer: a sign if it is negative, then its digits without leading zeros. */
  predicate IsNumeral(s: string, n: int) {
    if n < 0 then s != "" && s[0] == '-' && IsDigits(s[1..], -n) else IsDigits(s, n)
  }

  predicate IsDigits(s: string, n: nat) {
    s != "" && AllDigits(s) && NumberOf(s) == n && (s[0] == '0' ==> |s| == 1)
  }

  lemma {:induction false} DecimalIsDigits(n: nat)
    ensures IsDigits(Decimal(n), n)
    ensures Decimal(n)[0] == '0' <==> n == 0
  {
    DecimalReadsBack(n);
    if n >= 10 {
      DecimalIsDigits(n / 10);
      assert Decimal(n)[0] == Decimal(n / 10)[0];
    }
  }

  lemma {:induction false} DigitsUnique(s: string, n: nat)
    requires IsDigits(s, n)
    ensures s == Decimal(n)
    decreases s
  {
    var front, d := s[..|s| - 1], DigitValue(s[|s| - 1]);
    assert s == front + [s[|s| - 1]] && DigitChar(d) == s[|s| - 1];
    if front == "" {
      assert NumberOf(front) == 0;
    } else {
      DigitsPositive(front);
      DigitsUnique(front, NumberOf(front));
    }
  }

  /** Digits that do not begin with a zero do not denote zero. */
  lemma {:induction false} DigitsPositive(s: string)
    requires s != "" && AllDigits(s) && s[0] != '0'
    ensures NumberOf(s) > 0
  {
    if |s| > 1 {
      DigitsPositive(s[..|s| - 1]);
    } else {
      assert s[..0] == "";
    }
  }

  /** An integer has one numeral. */
  lemma NumeralIsDecimal(s: string, n: int)
    ensures IsNumeral(s, n) <==> s == DecimalInt(n)
  {
    var m := if n < 0 then -n else n;
    DecimalIsDigits(m);
    if n < 0 {
      assert ("-" + Decimal(m))[1..] == Decimal(m);
      if IsNumeral(s, n) {
        DigitsUnique(s[1..], m);
        assert s == [s[0]] + s[1..];
      }
    } else if IsNumeral(s, n) {
      DigitsUnique(s, m);
    }
  }

  /** A decimal number written after any text that ends in a non-digit is exactly the trailing digit run. */
  lemma {:induction false} RunAfterText(prefix: string, digits: string)
    requires AllDigits(digits)
    requires prefix == "" || !IsDigit(prefix[|prefix| - 1])
    ensures DigitRun(prefix + digits) == digits
  {
    if digits == "" {
      assert prefix + digits == prefix;
    } else {
      var s := prefix + digits;
      RunAfterText(prefix, digits[..|digits| - 1]);
      assert s[..|s| - 1] == prefix + digits[..|digits| - 1];
      assert digits == digits[..|digits| - 1] + [digits[|digits| - 1]];
    }
  }

  /** The number can be read off the end of "<text><non-digit><decimal>", and so can the text. */
  lemma NumberedTextInjective(p: string, m: nat, q: string, n: nat)
    requires p != "" && !IsDigit(p[|p| - 1]) && q != "" && !IsDigit(q[|q| - 1])
    requires p + Decimal(m) == q + Decimal(n)
    ensures p == q && m == n
  {
    DecimalReadsBack(m);
    DecimalReadsBack(n);
    RunAfterText(p, Decimal(m));
    RunAfterText(q, Decimal(n));
    assert p == (p + Decimal(m))[..|p|];
    assert q == (q + Decimal(n))[..|q|];
  }

  /** With a separator-free right part, no separator occurs after the joint. */
  lemma JointIsLast(a: string, v: string, c: char)
    requires c !in v
    ensures forall i :: |a| < i < |a + [c] + v| ==> (a + [c] + v)[i] != c
  {
    forall i | |a| < i < |a + [c] + v| ensures (a + [c] + v)[i] != c {
      assert (a + [c] + v)[i] == v[i - |a| - 1];
    }
  }

  /** With a separator-free right part, the last separator splits the text uniquely. */
  lemma SplitAtLast(a: string, v: string, b: string, w: string, c: char)
    requires c !in v && c !in w
    requires a + [c] + v == b + [c] + w
    ensures a == b && v == w
  {
    var s, t := a + [c] + v, b + [c] + w;
    JointIsLast(a, v, c);
    JointIsLast(b, w, c);
    assert s[|a|] == c && t[|b|] == c;
    assert a == s[..|a|] && b == t[..|b|];
    assert v == s[|a| + 1..] && w == t[|b| + 1..];
  }

  /**
   Two joined pairs read the same exactly when they are the same pair, or the longer left part
   continues into the other pair's right part across a separator.
   */
  lemma JoinCollision(a: string, v: string, b: string, w: string, c: char)
    ensures a + [c] + v == b + [c] + w <==>
            (a == b && v == w)
            || (exists x :: b == a + [c] + x && v == x + [c] + w)
            || (exists x :: a == b + [c] + x && w == x + [c] + v)
  {
    if a + [c] + v == b + [c] + w {
      if |a| == |b| {
        assert a == (a + [c] + v)[..|a|] && b == (b + [c] + w)[..|b|];
        assert v == (a + [c] + v)[|a| + 1..] && w == (b + [c] + w)[|b| + 1..];
      } else if |a| < |b| {
        JoinOverlap(a, v, b, w, c);
      } else {
        JoinOverlap(b, w, a, v, c);
      }
    }
    if x :| b == a + [c] + x && v == x + [c] + w {
      assert a + [c] + (x + [c] + w) == (a + [c] + x) + [c] + w;
    }
    if x :| a == b + [c] + x && w == x + [c] + v {
      assert b + [c] + (x + [c] + v) == (b + [c] + x) + [c] + v;
    }
  }

  lemma JoinOverlap(a: string, v: string, b: string, w: string, c: char)
    requires a + [c] + v == b + [c] + w && |a| < |b|
    ensures exists x :: b == a + [c] + x && v == x + [c] + w
  {
    var s, t := a + [c] + v, b + [c] + w;
    var x := b[|a| + 1..];
    assert b == t[..|b|] && a == s[..|a|] && s[|a|] == c;
    assert b == a + [c] + x;
    assert v == s[|a| + 1..] && t[|a| + 1..] == x + [c] + w;
  }

  predicate HasPrefix(s: string, p: string) {
    |s| >= |p| && s[..|p|] == p
  }

  predicate HasSuffix(s: string, p: string) {
    |s| >= |p| && s[|s| - |p|..] == p
  }
}

/** The numeric rank of a version identifier that the stale-write guard compares. */
module Ranks {
  import opened Arithmetic
  import opened Text
  import opened Model
  import opened Versions

  /** The digits before a non-digit, folded from the last to the first, in 64-bit arithmetic. */
  function RankFrom(id: string, rank: int): int {
    if id == "" || !IsDigit(id[|id| - 1]) then rank
    else RankFrom(id[..|id| - 1], WrapInt64(rank * 10 + DigitValue(id[|id| - 1])))
  }

  function Rank(id: string): int {
    RankFrom(id, 0)
  }

  predicate VersionNewer(current: string, incoming: string) {
    Rank(current) > Rank(incoming)
  }

  method VersionRank(id: string) returns (rank: int)
    ensures rank == Rank(id)
  {
    rank := 0;
    assert id[..|id|] == id;
    var i := |id| - 1;
    while i >= 0
      invariant -1 <= i < |id|
      invariant RankFrom(id[..i + 1], rank) == Rank(id)
    {
      if !IsDigit(id[i]) {
        break;
      }
      assert id[..i + 1][..i] == id[..i];
      rank := WrapInt64(rank * 10 + DigitValue(id[i]));
      i := i - 1;
    }
  }

  /** The number a digit string continues an accumulator to, first digit first. */
  function Continued(acc: int, digits: string): int
    requires AllDigits(digits)
    decreases digits
  {
    if digits == "" then acc else Continued(acc * 10 + DigitValue(digits[0]), digits[1..])
  }

  lemma {:induction false} ContinuedIsNumber(digits: string)
    requires AllDigits(digits)
    ensures Continued(0, digits) == NumberOf(digits)
  {
    if digits != "" {
      var n := |digits| - 1;
      ContinuedIsNumber(digits[..n]);
      ContinuedSnoc(0, digits[..n], digits[n]);
      assert digits == digits[..n] + [digits[n]];
    }
  }

  lemma {:induction false} ContinuedSnoc(acc: int, digits: string, d: char)
    requires AllDigits(digits) && IsDigit(d)
    ensures AllDigits(digits + [d]) && Continued(acc, digits + [d]) == Continued(acc, digits) * 10 + DigitValue(d)
    decreases digits
  {
    if digits == "" {
      assert digits + [d] == [d];
    } else {
      ContinuedSnoc(acc * 10 + DigitValue(digits[0]), digits[1..], d);
      assert (digits + [d])[1..] == digits[1..] + [d];
    }
  }

  lemma WrapStep(a: int, d: int)
    ensures WrapInt64(WrapInt64(a) * 10 + d) == WrapInt64(a * 10 + d)
  {
    var m, h := 0x1_0000_0000_0000_0000, 0x8000_0000_0000_0000;
    var q := (a + h) / m;
    assert WrapInt64(a) == a - q * m;
    ModShift(a * 10 + d + h, -10 * q, m);
    assert WrapInt64(a) * 10 + d + h == (a * 10 + d + h) + (-10 * q) * m;
  }

  /** The rank of any identifier is the number its trailing digit run denotes when read backwards, modulo 2^64. */
  lemma RankReadsBackwards(id: string)
    ensures AllDigits(Reversed(DigitRun(id))) && Rank(id) == WrapInt64(NumberOf(Reversed(DigitRun(id))))
  {
    RankFromReadsBackwards(id, 0);
    ContinuedIsNumber(Reversed(DigitRun(id)));
  }

  lemma {:induction false} RankFromReadsBackwards(id: string, acc: int)
    ensures AllDigits(Reversed(DigitRun(id)))
    ensures RankFrom(id, WrapInt64(acc)) == WrapInt64(Continued(acc, Reversed(DigitRun(id))))
  {
    hide WrapInt64, DigitRun, Reversed, Continued;
    if id != "" && IsDigit(id[|id| - 1]) {
      var next := acc * 10 + DigitValue(id[|id| - 1]);
      RankFromReadsBackwards(id[..|id| - 1], next);
      WrapStep(acc, DigitValue(id[|id| - 1]));
      RunLastDigit(id, acc);
    } else {
      NoRun(id, acc);
    }
  }

  /** The last digit of a text is the first one read. */
  lemma RunLastDigit(id: string, acc: int)
    requires id != "" && IsDigit(id[|id| - 1]) && AllDigits(Reversed(DigitRun(id[..|id| - 1])))
    ensures AllDigits(Reversed(DigitRun(id)))
    ensures Continued(acc, Reversed(DigitRun(id))) ==
            Continued(acc * 10 + DigitValue(id[|id| - 1]), Reversed(DigitRun(id[..|id| - 1])))
  {
    hide DigitValue;
    var front, d := DigitRun(id[..|id| - 1]), id[|id| - 1];
    assert DigitRun(id) == front + [d] && (front + [d])[..|front|] == front;
    assert Reversed(front + [d]) == [d] + Reversed(front);
    assert ([d] + Reversed(front))[1..] == Reversed(front);
  }

  lemma NoRun(id: string, acc: int)
    requires id == "" || !IsDigit(id[|id| - 1])
    ensures Reversed(DigitRun(id)) == "" && Continued(acc, "") == acc
  {
  }

  /** A number written backwards ranks as itself, modulo 2^64. */
  lemma RankOfBackwards(table: string, n: nat)
    ensures Rank(table + "-v" + Reversed(Decimal(n))) == WrapInt64(n)
  {
    hide Rank;
    var digits := Reversed(Decimal(n));
    DecimalReadsBack(n);
    RunAfterText(table + "-v", digits);
    RankReadsBackwards(table + "-v" + digits);
    assert Reversed(digits) == Decimal(n);
  }

  /** The identifier whose digits read backwards are 2^63: its rank has wrapped to the least 64-bit integer. */
  function Wrapping(table: string): string {
    table + "-v" + Reversed(Decimal(0x8000_0000_0000_0000))
  }

  lemma WrappingRanksBelowZero(table: string)
    ensures Rank(Wrapping(table)) == -0x8000_0000_0000_0000
  {
    hide Decimal, Reversed, Rank;
    RankOfBackwards(table, 0x8000_0000_0000_0000);
  }

  lemma RankOfMint(table: string, n: nat)
    ensures AllDigits(Reversed(Decimal(n))) && Rank(Mint(table, n)) == WrapInt64(NumberOf(Reversed(Decimal(n))))
  {
    DecimalReadsBack(n);
    RunAfterText(table + "-v", Decimal(n));
    RankReadsBackwards(Mint(table, n));
  }

  lemma SmallRank(table: string, n: nat)
    requires n < 10
    ensures Rank(Mint(table, n)) == n
  {
    RankOfMint(table, n);
    assert Reversed(Decimal(n)) == [DigitChar(n)];
    assert NumberOf([DigitChar(n)]) == NumberOf("") * 10 + n by {
      assert [DigitChar(n)][..0] == "";
    }
  }

  lemma RankOfTen(table: string)
    ensures Rank(Mint(table, 10)) == 1
  {
    RankOfMint(table, 10);
    assert Decimal(10) == Decimal(1) + [DigitChar(0)] == [DigitChar(1), DigitChar(0)];
    assert Reversed(Decimal(10)) == [DigitChar(0), DigitChar(1)];
    var s := [DigitChar(0), DigitChar(1)];
    assert s[..1] == [DigitChar(0)] && s[..1][..0] == "";
  }

  /** Ranks follow creation order over the first n versions exactly up to n = 9: the tenth ranks 1. */
  lemma RankOrderLimit(table: string, n: nat)
    ensures (forall a, b :: 1 <= a < b <= n ==> Rank(Mint(table, a)) < Rank(Mint(table, b))) <==> n <= 9
  {
    if n <= 9 {
      forall a, b | 1 <= a < b <= n ensures Rank(Mint(table, a)) < Rank(Mint(table, b)) {
        SmallRank(table, a);
        SmallRank(table, b);
      }
    } else {
      RankOfTen(table);
      SmallRank(table, 2);
      assert 1 <= 2 < 10 <= n;
    }
  }
}

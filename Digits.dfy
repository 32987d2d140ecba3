/**
 * Decimal digit strings as JavaScript renders and reads them, and the two
 * derived strings the scanner builds from a work id: the six-character
 * RJ code (`("000000" + id).slice(-6)`) and the DLsite cover folder number.
 */
module Digits {

  import opened Arithmetic

  predicate IsDigit(c: char) { '0' <= c <= '9' }

  predicate AllDigits(s: string) { forall i | 0 <= i < |s| :: IsDigit(s[i]) }

  function DigitValue(c: char): nat
    requires IsDigit(c)
  {
    c as int - '0' as int
  }

  function DigitChar(d: nat): (c: char)
    requires d < 10
    ensures IsDigit(c) && DigitValue(c) == d
  {
    ('0' as int + d) as char
  }

  function Pow10(k: nat): (p: nat)
    ensures p >= 1
  {
    if k == 0 then 1 else 10 * Pow10(k - 1)
  }

  /** The number a digit string denotes (`Number(s)` for such strings; the empty string is 0). */
  function Value(s: string): nat
    requires AllDigits(s)
  {
    if s == [] then 0 else 10 * Value(s[..|s| - 1]) + DigitValue(s[|s| - 1])
  }

  /** `n.toString()` for a non-negative integer. */
  function Decimal(n: nat): (s: string)
    ensures AllDigits(s) && |s| >= 1
  {
    if n < 10 then [DigitChar(n)] else Decimal(n / 10) + [DigitChar(n % 10)]
  }

  /** Six zeros, the padding of the RJ code. */
  const Zeros: string := "000000"

  /** `` (`000000${id}`).slice(-6) ``: the RJ code of an id written as `idText`. */
  function RjCode(idText: string): (r: string)
    ensures |r| == 6
  {
    (Zeros + idText)[|idText|..]
  }

  /** `s.substr(-3, 3)`: the last three characters, or all of a shorter string. */
  function LastThree(s: string): (r: string)
    ensures |r| == if |s| < 3 then |s| else 3
    ensures r == s[|s| - |r|..]
  {
    if |s| < 3 then s else s[|s| - 3..]
  }

  /**
   * The number of the DLsite folder that holds a work's cover:
   * the id itself when its text ends in "000", otherwise
   * `id.toString() - id.toString().substr(-3,3) + 1000`.
   */
  function CoverBucket(idText: string): nat
    requires AllDigits(idText)
  {
    var tail := LastThree(idText);
    LastThreeValue(idText);
    if tail == "000" then Value(idText) else Value(idText) - Value(tail) + 1000
  }

  // ---------------------------------------------------------------------------
  // Lemmas about digit strings

  /** A digit string of length k denotes a number below 10^k. */
  lemma {:induction false} ValueBound(s: string)
    requires AllDigits(s)
    ensures Value(s) < Pow10(|s|)
  {
    if s != [] {
      ValueBound(s[..|s| - 1]);
    }
  }

  /** Prepending zeros does not change the value. */
  lemma {:induction false} ValueOfZerosPrefix(z: string, s: string)
    requires AllDigits(z) && AllDigits(s)
    requires forall i | 0 <= i < |z| :: z[i] == '0'
    ensures AllDigits(z + s) && Value(z + s) == Value(s)
  {
    if s == [] {
      assert z + s == z;
      ZerosValue(z);
    } else {
      var t := z + s;
      assert t[..|t| - 1] == z + s[..|s| - 1];
      ValueOfZerosPrefix(z, s[..|s| - 1]);
    }
  }

  lemma {:induction false} ZerosValue(z: string)
    requires forall i | 0 <= i < |z| :: z[i] == '0'
    ensures AllDigits(z) && Value(z) == 0
  {
    if z != [] {
      ZerosValue(z[..|z| - 1]);
    }
  }

  /** The last k digits of a digit string denote its value modulo 10^k. */
  lemma {:induction false} ValueOfSuffix(s: string, k: nat)
    requires AllDigits(s) && k <= |s|
    ensures AllDigits(s[|s| - k..])
    ensures Value(s[|s| - k..]) == Value(s) % Pow10(k)
  {
    if k == 0 {
      assert s[|s|..] == [];
    } else {
      var init := s[..|s| - 1];
      var d := DigitValue(s[|s| - 1]);
      ValueOfSuffix(init, k - 1);
      var suf := s[|s| - k..];
      var sufInit := init[|init| - (k - 1)..];
      assert suf[..|suf| - 1] == sufInit;
      assert suf[|suf| - 1] == s[|s| - 1];
      assert Value(suf) == 10 * Value(sufInit) + d;
      assert Value(s) == 10 * Value(init) + d;
      assert Pow10(k) == 10 * Pow10(k - 1);
      ModTimesTen(Value(init), Pow10(k - 1), d);
    }
  }

  lemma ModTimesTen(v: nat, p: nat, d: nat)
    requires p >= 1 && d < 10
    ensures 10 * (v % p) + d == (10 * v + d) % (10 * p)
  {
    var q := v / p;
    var r := v % p;
    assert v == p * q + r;
    assert 10 * v + d == (10 * p) * q + (10 * r + d) by {
      assert 10 * (p * q) == (10 * p) * q;
    }
    assert 10 * r + d < 10 * p by {
      assert r <= p - 1;
    }
    ModUnique(10 * v + d, 10 * p, q, 10 * r + d);
  }

  /** One more digit: the value of the first k+1 characters. */
  lemma ValuePrefixStep(s: string, k: nat)
    requires AllDigits(s) && k < |s|
    ensures AllDigits(s[..k]) && AllDigits(s[..k + 1])
    ensures Value(s[..k + 1]) == 10 * Value(s[..k]) + DigitValue(s[k])
  {
    assert s[..k + 1][..k] == s[..k];
  }

  /** Two digit strings of the same length and the same value are equal. */
  lemma {:induction false} ValueInjective(s: string, t: string)
    requires AllDigits(s) && AllDigits(t) && |s| == |t|
    requires Value(s) == Value(t)
    ensures s == t
  {
    if s != [] {
      var s', t' := s[..|s| - 1], t[..|t| - 1];
      var ds, dt := DigitValue(s[|s| - 1]), DigitValue(t[|t| - 1]);
      ModUnique(Value(s), 10, Value(s'), ds);
      ModUnique(Value(t), 10, Value(t'), dt);
      assert ds == dt;
      assert Value(s') == Value(t');
      ValueInjective(s', t');
      assert s == s' + [s[|s| - 1]] && t == t' + [t[|t| - 1]];
    }
  }

  /** `Decimal` writes the number back: `Number(n.toString()) == n`. */
  lemma {:induction false} DecimalValue(n: nat)
    ensures Value(Decimal(n)) == n
  {
    if n >= 10 {
      DecimalValue(n / 10);
      var s := Decimal(n);
      assert s[..|s| - 1] == Decimal(n / 10);
    }
  }

  /** A number below 10^k (k >= 1) has at most k decimal digits. */
  lemma {:induction false} DecimalLength(n: nat, k: nat)
    requires k >= 1 && n < Pow10(k)
    ensures |Decimal(n)| <= k
  {
    if n >= 10 {
      DecimalLength(n / 10, k - 1);
    }
  }

  // ---------------------------------------------------------------------------
  // RJ codes

  /**
   * The RJ code of any digit string is six digits denoting the id modulo 10^6:
   * shorter ids are left-padded with zeros, longer ones keep their last six digits.
   */
  lemma RjCodeDigits(idText: string)
    requires AllDigits(idText)
    ensures AllDigits(RjCode(idText))
    ensures Value(RjCode(idText)) == Value(idText) % 1000000
  {
    ZerosValue(Zeros);
    var t := Zeros + idText;
    ValueOfZerosPrefix(Zeros, idText);
    ValueOfSuffix(t, 6);
    assert t[|t| - 6..] == RjCode(idText);
  }

  /** A six-digit id text is its own RJ code. */
  lemma RjCodeOfSixDigits(idText: string)
    requires |idText| == 6
    ensures RjCode(idText) == idText
  {
  }

  /**
   * The RJ code of a numeric id: `id` left-padded to six digits when id < 10^6,
   * its last six digits otherwise; in both cases it denotes id mod 10^6.
   */
  lemma RjCodeOfNumber(id: nat)
    ensures AllDigits(RjCode(Decimal(id)))
    ensures Value(RjCode(Decimal(id))) == id % 1000000
    ensures id < 1000000 ==>
      |Decimal(id)| <= 6 && RjCode(Decimal(id)) == Zeros[..6 - |Decimal(id)|] + Decimal(id)
    ensures id >= 1000000 ==>
      |Decimal(id)| > 6 && RjCode(Decimal(id)) == Decimal(id)[|Decimal(id)| - 6..]
  {
    RjCodeDigits(Decimal(id));
    DecimalValue(id);
    if id < 1000000 {
      DecimalLength(id, 6);
    } else {
      ValueBound(Decimal(id));
      if |Decimal(id)| <= 6 {
        PowMonotone(|Decimal(id)|, 6);
      }
    }
  }

  lemma {:induction false} PowMonotone(j: nat, k: nat)
    requires j <= k
    ensures Pow10(j) <= Pow10(k)
  {
    if j < k {
      PowMonotone(j, k - 1);
    }
  }

  /** Equal ids modulo 10^6 have equal RJ codes, whatever their text. */
  lemma RjCodeByValue(s: string, t: string)
    requires AllDigits(s) && AllDigits(t)
    requires Value(s) % 1000000 == Value(t) % 1000000
    ensures RjCode(s) == RjCode(t)
  {
    RjCodeDigits(s);
    RjCodeDigits(t);
    ValueInjective(RjCode(s), RjCode(t));
  }

  // ---------------------------------------------------------------------------
  // The cover folder

  /** The last three characters read as a number give the id modulo 1000. */
  lemma LastThreeValue(s: string)
    requires AllDigits(s)
    ensures AllDigits(LastThree(s)) && Value(LastThree(s)) == Value(s) % 1000
  {
    if |s| < 3 {
      ValueBound(s);
      PowMonotone(|s|, 2);
      assert s[|s| - |s|..] == s;
    } else {
      ValueOfSuffix(s, 3);
    }
  }

  /** The text ends in "000" exactly when it has three characters or more and denotes a multiple of 1000. */
  lemma LastThreeZeros(s: string)
    requires AllDigits(s)
    ensures LastThree(s) == "000" <==> |s| >= 3 && Value(s) % 1000 == 0
  {
    LastThreeValue(s);
    var zeros := "000";
    assert zeros[0] == zeros[1] == zeros[2] == '0';
    ZerosValue(zeros);
    if LastThree(s) == zeros {
      assert |LastThree(s)| == 3;
    }
    if |s| >= 3 && Value(s) % 1000 == 0 {
      ValueInjective(LastThree(s), zeros);
    }
  }

  /**
   * For a positive id the cover folder is the smallest multiple of 1000 that is
   * at least the id: ids ending in 000 are their own folder, others round UP.
   */
  lemma CoverBucketRoundsUp(idText: string)
    requires AllDigits(idText) && Value(idText) > 0
    ensures CoverBucket(idText) % 1000 == 0
    ensures Value(idText) <= CoverBucket(idText) < Value(idText) + 1000
    ensures Value(idText) % 1000 == 0 ==> CoverBucket(idText) == Value(idText)
    ensures Value(idText) % 1000 != 0 ==> CoverBucket(idText) == Value(idText) - Value(idText) % 1000 + 1000
  {
    var v := Value(idText);
    var q, r := v / 1000, v % 1000;
    assert v == 1000 * q + r;
    LastThreeValue(idText);
    LastThreeZeros(idText);
    if r == 0 {
      LongEnough(idText);
      assert CoverBucket(idText) == v;
      ModUnique(v, 1000, q, 0);
    } else {
      assert LastThree(idText) != "000";
      assert CoverBucket(idText) == v - Value(LastThree(idText)) + 1000;
      assert CoverBucket(idText) == 1000 * (q + 1);
      ModUnique(1000 * (q + 1), 1000, q + 1, 0);
    }
  }

  /** An id of 1000 or more has at least four digits. */
  lemma LongEnough(s: string)
    requires AllDigits(s) && Value(s) >= 1000
    ensures |s| >= 4
  {
    ValueBound(s);
    if |s| < 4 {
      PowMonotone(|s|, 3);
    }
  }

  /** The value of a short literal, digit by digit. */
  lemma ValueOfLiteral(s: string)
    requires AllDigits(s)
    ensures |s| == 4 ==> Value(s) == 1000 * DigitValue(s[0]) + 100 * DigitValue(s[1]) + 10 * DigitValue(s[2]) + DigitValue(s[3])
    ensures |s| == 6 ==> Value(s) == 100000 * DigitValue(s[0]) + 10000 * DigitValue(s[1]) + 1000 * DigitValue(s[2])
                                      + 100 * DigitValue(s[3]) + 10 * DigitValue(s[4]) + DigitValue(s[5])
  {
    if |s| >= 4 {
      assert s[..0] == [];
      ValuePrefixStep(s, 0);
      ValuePrefixStep(s, 1);
      ValuePrefixStep(s, 2);
      ValuePrefixStep(s, 3);
      if |s| == 4 {
        assert s[..4] == s;
      }
      if |s| == 6 {
        ValuePrefixStep(s, 4);
        ValuePrefixStep(s, 5);
        assert s[..6] == s;
      }
    }
  }

  /** The numeric examples: 1999 and 2000 share folder 2000; 1000 has its own. */
  lemma CoverBucketExamples()
    ensures CoverBucket("001000") == 1000
    ensures CoverBucket("001999") == 2000
    ensures CoverBucket("002000") == 2000
  {
    BucketOfSixDigits("001000", 1000);
    BucketOfSixDigits("001999", 1999);
    BucketOfSixDigits("002000", 2000);
  }

  lemma BucketOfSixDigits(s: string, v: nat)
    requires |s| == 6 && AllDigits(s)
    requires v == 100000 * DigitValue(s[0]) + 10000 * DigitValue(s[1]) + 1000 * DigitValue(s[2])
                  + 100 * DigitValue(s[3]) + 10 * DigitValue(s[4]) + DigitValue(s[5])
    requires v > 0
    ensures CoverBucket(s) == (if v % 1000 == 0 then v else v - v % 1000 + 1000)
  {
    ValueOfLiteral(s);
    assert Value(s) == v;
    CoverBucketRoundsUp(s);
  }
}

/**
 * `hashNameIntoInt`, the surrogate id given to voice actors, and
 * `hasLetter`, the ASCII-letter test of the voice-actor merge.
 */
module Names {

  import opened Arithmetic
  import opened JsText

  const TwoTo32: int := 0x1_0000_0000

  /** The ECMAScript ToInt32 conversion: the signed 32-bit value congruent to x. */
  function ToInt32(x: int): (r: int)
    ensures -0x8000_0000 <= r < 0x8000_0000
    ensures r % TwoTo32 == x % TwoTo32
  {
    var m := x % TwoTo32;
    if m >= 0x8000_0000 then
      ModShift(m, TwoTo32, -1);
      m - TwoTo32
    else m
  }

  /** The 31-multiplier Horner sum h := 31*h + c over the code units, modulo 2^32. */
  function Horner(units: seq<nat>): (h: nat)
    ensures h < TwoTo32
  {
    if units == [] then 0 else (31 * Horner(units[..|units| - 1]) + units[|units| - 1]) % TwoTo32
  }

  function Abs(x: int): nat { if x < 0 then -x else x }

  /**
   * The hash of a name: the Horner sum read as a signed 32-bit integer, divided
   * by 1000 and rounded half up (`Math.round(h / 1000)` is floor((h + 500) / 1000)),
   * then made non-negative.
   */
  function NameHash(name: string): nat
  {
    Abs((ToInt32(Horner(Utf16(name))) + 500) / 1000)
  }

  /** The hash is at most 2147484 and the empty name hashes to 0. */
  lemma NameHashRange(name: string)
    ensures NameHash(name) <= 2147484
    ensures name == [] ==> NameHash(name) == 0
  {
    var h := ToInt32(Horner(Utf16(name)));
    assert -2147483148 <= h + 500 <= 2147484147;
    DivBounds(h + 500);
  }

  lemma DivBounds(x: int)
    requires -2147483148 <= x <= 2147484147
    ensures -2147484 <= x / 1000 <= 2147484
  {
    assert x == 1000 * (x / 1000) + x % 1000;
  }

  /** One pass of the loop: `((hash << 5) - hash) + char` agrees with the Horner step modulo 2^32. */
  lemma StepAgrees(hash: int, h: nat, c: nat)
    requires hash % TwoTo32 == h % TwoTo32
    ensures (ToInt32(ToInt32(hash) * 32) - hash + c) % TwoTo32 == (31 * h + c) % TwoTo32
  {
    var t := ToInt32(hash);
    ModScale(t, h, 32, TwoTo32);
    ModCombine(ToInt32(t * 32), 32 * h, hash, h, c, TwoTo32);
    assert 32 * h - h + c == 31 * h + c;
  }

  /**
   * The source's loop: `hash` starts as '' (0 once coerced), each code unit
   * applies `((hash << 5) - hash) + char` in exact arithmetic with `<<` acting on
   * the ToInt32 of its operand, then `hash |= 0` and `Math.abs(Math.round(hash / 1000))`.
   */
  method HashNameIntoInt(name: string) returns (hash: nat)
    ensures hash == NameHash(name)
    ensures hash <= 2147484
  {
    var units := Utf16(name);
    var h := 0;
    var i := 0;
    while i < |units|
      invariant 0 <= i <= |units|
      invariant h % TwoTo32 == Horner(units[..i])
    {
      assert units[..i + 1][..i] == units[..i];
      StepAgrees(h, Horner(units[..i]), units[i]);
      h := ToInt32(ToInt32(h) * 32) - h + units[i];
      i := i + 1;
    }
    assert units[..i] == units;
    h := ToInt32(h);
    hash := Abs((h + 500) / 1000);
    NameHashRange(name);
  }

  // ---------------------------------------------------------------------------
  // hasLetter

  /** A code unit in 65..90 ('A'..'Z') or 97..122 ('a'..'z'). */
  predicate IsAsciiLetter(u: int)
  {
    65 <= u <= 90 || 97 <= u <= 122
  }

  /** Some character of `s` is an ASCII letter. */
  predicate ContainsLetter(s: string)
  {
    exists i | 0 <= i < |s| :: IsAsciiLetter(s[i] as int)
  }

  /** Some code unit is an ASCII letter. */
  predicate SomeLetterUnit(units: seq<nat>)
  {
    exists k | 0 <= k < |units| :: IsAsciiLetter(units[k])
  }

  /** A code unit of `s` is an ASCII letter exactly when a character of `s` is: surrogates never are. */
  lemma {:induction false} LetterUnits(s: string)
    ensures SomeLetterUnit(Utf16(s)) <==> ContainsLetter(s)
  {
    if s != [] {
      var init := s[..|s| - 1];
      var last := s[|s| - 1];
      var u := Utf16(s);
      var ui := Utf16(init);
      var cu := CodeUnits(last);
      LetterUnits(init);
      assert u == ui + cu;
      if SomeLetterUnit(u) {
        var k :| 0 <= k < |u| && IsAsciiLetter(u[k]);
        if k < |ui| {
          assert IsAsciiLetter(ui[k]);
          assert SomeLetterUnit(ui);
          var i :| 0 <= i < |init| && IsAsciiLetter(init[i] as int);
          assert s[i] == init[i];
        } else {
          assert u[k] == cu[k - |ui|];
          assert |cu| == 1;
          assert IsAsciiLetter(s[|s| - 1] as int);
        }
      }
      if ContainsLetter(s) {
        var i :| 0 <= i < |s| && IsAsciiLetter(s[i] as int);
        if i < |s| - 1 {
          assert init[i] == s[i];
          assert ContainsLetter(init);
          var k :| 0 <= k < |ui| && IsAsciiLetter(ui[k]);
          assert u[k] == ui[k];
        } else {
          assert cu == [last as int];
          assert u[|ui|] == last as int;
        }
      }
    }
  }

  /** The source's loop over the code units of `str`, returning at the first ASCII letter. */
  method HasLetter(str: string) returns (r: bool)
    ensures r == ContainsLetter(str)
  {
    var units := Utf16(str);
    LetterUnits(str);
    var i := 0;
    while i < |units|
      invariant 0 <= i <= |units|
      invariant forall k | 0 <= k < i :: !IsAsciiLetter(units[k])
    {
      var asc := units[i];
      if (asc >= 65 && asc <= 90) || (asc >= 97 && asc <= 122) {
        return true;
      }
      i := i + 1;
    }
    return false;
  }

  /** No letter in the empty string or in a name written only in kana/kanji; one in a Latin name. */
  lemma HasLetterExamples()
    ensures !ContainsLetter("")
    ensures !ContainsLetter("声優")
    ensures ContainsLetter("Aoi")
  {
    assert IsAsciiLetter("Aoi"[0] as int);
  }
}

/**
 * The JavaScript string operations the core relies on, over Dafny strings:
 * `indexOf`, `lastIndexOf`, `substring` after the last '/', and the UTF-16
 * code units that `charCodeAt` and `length` see.
 */
module JsText {

  /** `sub` occurs in `s` at position `p`. */
  predicate OccursAt(s: string, sub: string, p: int)
  {
    0 <= p && p + |sub| <= |s| && s[p..p + |sub|] == sub
  }

  /** `s.indexOf(sub, start)`, searching from `start` onwards. */
  function IndexFrom(s: string, sub: string, start: nat): (r: int)
    ensures r == -1 || (start <= r && OccursAt(s, sub, r))
    ensures r == -1 ==> forall p | start <= p :: !OccursAt(s, sub, p)
    ensures r != -1 ==> forall p | start <= p < r :: !OccursAt(s, sub, p)
    decreases |s| - start
  {
    if start + |sub| > |s| then -1
    else if s[start..start + |sub|] == sub then start
    else IndexFrom(s, sub, start + 1)
  }

  /** `s.indexOf(sub)`: the first position where `sub` occurs, or -1 when it does not. */
  function IndexOf(s: string, sub: string): (r: int)
  {
    IndexFrom(s, sub, 0)
  }

  /** `s.indexOf(sub) !== -1`. */
  predicate Contains(s: string, sub: string)
  {
    IndexOf(s, sub) != -1
  }

  /** `s.indexOf(prefix) === 0` holds exactly when `s` starts with `prefix`. */
  lemma IndexOfZeroIsPrefix(s: string, prefix: string)
    ensures IndexOf(s, prefix) == 0 <==> |prefix| <= |s| && s[..|prefix|] == prefix
  {
    if |prefix| <= |s| && s[..|prefix|] == prefix {
      assert OccursAt(s, prefix, 0);
    }
  }

  /** `s.indexOf(sub) !== -1` holds exactly when `sub` occurs somewhere in `s`. */
  lemma ContainsOccurs(s: string, sub: string)
    ensures Contains(s, sub) <==> exists p :: OccursAt(s, sub, p)
  {
  }

  /** `s.lastIndexOf(c)` for a one-character search string. */
  function LastIndexOf(s: string, c: char): (r: int)
    ensures -1 <= r < |s|
    ensures r >= 0 ==> s[r] == c
    ensures forall p | r < p < |s| :: s[p] != c
  {
    if s == [] then -1
    else if s[|s| - 1] == c then |s| - 1
    else LastIndexOf(s[..|s| - 1], c)
  }

  /** `s.substring(s.lastIndexOf('/') + 1)`: what follows the last slash, or all of `s`. */
  function AfterLastSlash(s: string): (r: string)
    ensures |r| <= |s| && r == s[|s| - |r|..]
    ensures forall p | 0 <= p < |r| :: r[p] != '/'
    ensures |r| < |s| ==> s[|s| - |r| - 1] == '/'
  {
    s[LastIndexOf(s, '/') + 1..]
  }

  // ---------------------------------------------------------------------------
  // UTF-16

  /** The UTF-16 code units of one Unicode scalar value. */
  function CodeUnits(c: char): (u: seq<nat>)
    ensures 1 <= |u| <= 2
    ensures forall k | 0 <= k < |u| :: u[k] < 0x1_0000
    ensures |u| == 1 <==> (c as int) < 0x1_0000
    ensures |u| == 1 ==> u[0] == c as int
    ensures |u| == 2 ==> 0xD800 <= u[0] < 0xDC00 <= u[1] < 0xE000
  {
    if (c as int) < 0x1_0000 then [c as int]
    else
      var v := c as int - 0x1_0000;
      [0xD800 + v / 0x400, 0xDC00 + v % 0x400]
  }

  /** The code units of a string, the sequence JavaScript's `length` and `charCodeAt` index. */
  function Utf16(s: string): (u: seq<nat>)
    ensures |u| >= |s|
    ensures forall k | 0 <= k < |u| :: u[k] < 0x1_0000
  {
    if s == [] then [] else Utf16(s[..|s| - 1]) + CodeUnits(s[|s| - 1])
  }
}

/** The few JavaScript built-ins the typing engine leans on, stated over
    unbounded integers: `Math.round` of a quotient, `String.prototype.lastIndexOf`
    for one character, `String.prototype.substring` and `Array.prototype.slice`
    with their clamping of out-of-range indices, and ASCII upper-casing. */
module Js {

  /** A value that may be `undefined` (or `null`). */
  datatype Option<T> = None | Some(value: T)

  function Min(a: int, b: int): int { if a <= b then a else b }

  function Max(a: int, b: int): int { if a >= b then a else b }

  /** No entry of the list occurs twice. */
  predicate NoDup<T(==)>(xs: seq<T>) {
    forall i, j :: 0 <= i < j < |xs| ==> xs[i] != xs[j]
  }

  /** `x` clamped into `[lo, hi]`. */
  function Clamp(x: int, lo: int, hi: int): (r: int)
    requires lo <= hi
    ensures lo <= r <= hi
    ensures lo <= x <= hi ==> r == x
  {
    if x < lo then lo else if x > hi then hi else x
  }

  /** `Math.round(n / d)` for a positive divisor: the integer nearest to the
      quotient, a half rounded up (towards +infinity), as JavaScript does. */
  function Round(n: int, d: int): (r: int)
    requires d > 0
    ensures 2 * d * r <= 2 * n + d < 2 * d * r + 2 * d
  {
    (2 * n + d) / (2 * d)
  }

  lemma {:induction false} RoundIsExactOnMultiples(k: int, d: int)
    requires d > 0
    ensures Round(k * d, d) == k
  {
    var r := Round(k * d, d);
    assert 2 * d * r <= 2 * k * d + d < 2 * d * r + 2 * d;
    if r > k {
      assert 2 * d * r >= 2 * d * (k + 1) by { MulMonotone(2 * d, k + 1, r); }
      assert false;
    } else if r < k {
      assert 2 * d * (r + 1) <= 2 * d * k by { MulMonotone(2 * d, r + 1, k); }
      assert false;
    }
  }

  lemma MulMonotone(c: int, a: int, b: int)
    requires c > 0 && a <= b
    ensures c * a <= c * b
  {
  }

  /** The largest index `i <= from` with `s[i] == c`, or -1 when there is none. */
  function LastIndexAtOrBefore(s: string, c: char, from: int): (r: int)
    requires -1 <= from < |s|
    ensures -1 <= r <= from
    ensures r >= 0 ==> s[r] == c
    ensures forall i :: r < i <= from && 0 <= i ==> s[i] != c
    decreases from
  {
    if from < 0 then -1
    else if s[from] == c then from
    else LastIndexAtOrBefore(s, c, from - 1)
  }

  /** `s.lastIndexOf(c, from)`: the search starts at `from` clamped into the
      string (a negative `from` still inspects index 0) and walks left. */
  function LastIndexOf(s: string, c: char, from: int): (r: int)
    ensures -1 <= r < |s| && r <= Max(from, 0)
    ensures r >= 0 ==> s[r] == c
    ensures forall i :: r < i < |s| && i <= Max(from, 0) ==> s[i] != c
  {
    if |s| == 0 then -1 else LastIndexAtOrBefore(s, c, Clamp(from, 0, |s| - 1))
  }

  /** `s.substring(start, end)`: both ends are clamped into `[0, |s|]` and
      swapped when given in the wrong order. */
  function Substring(s: string, start: int, end: int): (r: string)
    ensures start <= end ==> r == s[Clamp(start, 0, |s|)..Clamp(end, 0, |s|)]
    ensures start > end ==> r == Substring(s, end, start)
    decreases if start > end then 1 else 0
    ensures start == 0 ==> r == s[..Clamp(end, 0, |s|)]
  {
    var a := Clamp(start, 0, |s|);
    var b := Clamp(end, 0, |s|);
    if a <= b then s[a..b] else s[b..a]
  }

  /** `xs.slice(0, end)`: a negative `end` counts back from the end of the array. */
  function SlicePrefix<T>(xs: seq<T>, end: int): (r: seq<T>)
    ensures end >= 0 ==> |r| == Min(end, |xs|)
    ensures end < 0 ==> |r| == Max(|xs| + end, 0)
    ensures r <= xs
  {
    var e := if end < 0 then Max(|xs| + end, 0) else Min(end, |xs|);
    xs[..e]
  }

  /** `ch.toUpperCase()` restricted to ASCII: lower-case letters map to upper case. */
  function UpperAscii(ch: char): (r: char)
    ensures 'a' <= ch <= 'z' ==> 'A' <= r <= 'Z' && r as int == ch as int - 32
    ensures !('a' <= ch <= 'z') ==> r == ch
    ensures !('a' <= r <= 'z')
  {
    if 'a' <= ch <= 'z' then (ch as int - 32) as char else ch
  }
}

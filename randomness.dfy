/** The randomness of the text supply, turned into inputs. A `Draw` is what
    one text request consumes: the value `Math.random()` returned for an index
    pick, and the outcome of every `sort(() => 0.5 - Math.random())` shuffle,
    given as a function from (list, how many shuffles came before) to the
    reordered list. Only the shapes of these values are constrained; nothing
    is assumed about their distribution. */
module Randomness {

  /** `Math.random()` returns a double in [0, 1); each such double is
      `r / 2^53` for a whole `r` with `0 <= r < 2^53`. */
  const RandomScale: nat := 0x20_0000_0000_0000

  datatype Draw = Draw(r: nat, shuffle: (seq<string>, nat) -> seq<string>)

  /** `Math.random()` lies in [0, 1), and a sort with any comparator returns
      a permutation of its input. */
  ghost predicate ValidDraw(d: Draw) {
    && d.r < RandomScale
    && forall xs: seq<string>, k: nat :: multiset(d.shuffle(xs, k)) == multiset(xs)
  }

  /** `Math.floor(Math.random() * n)`: an index into a list of `n` items. */
  function PickIndex(r: nat, n: nat): (i: nat)
    requires r < RandomScale && n > 0
    ensures i < n
  {
    assert r * n < RandomScale * n by { MulStrict(r, RandomScale, n); }
    r * n / RandomScale
  }

  lemma MulStrict(a: nat, b: nat, c: nat)
    requires a < b && c > 0
    ensures a * c < b * c
  {
    assert b * c == a * c + (b - a) * c;
  }

  lemma ShuffleKeepsMembers(d: Draw, xs: seq<string>, k: nat, x: string)
    requires ValidDraw(d)
    ensures x in d.shuffle(xs, k) <==> x in xs
    ensures |d.shuffle(xs, k)| == |xs|
  {
    assert multiset(d.shuffle(xs, k)) == multiset(xs);
    assert x in d.shuffle(xs, k) <==> x in multiset(d.shuffle(xs, k));
    assert |multiset(d.shuffle(xs, k))| == |d.shuffle(xs, k)|;
  }
}

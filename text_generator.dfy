/** Local practice-text generation (client/src/lib/helpers/textGenerator.ts):
    a passage sized for the test duration, drawn from the mode's collection. */
module TextGenerator {
  import opened Js
  import opened Randomness
  import Corpus

  /** Characters a typist at 40 WPM, plus a 50% margin, produces in
      `duration` seconds: four tabulated buckets, `Math.round(duration * 5)`
      otherwise. The buckets agree with the formula. */
  function TargetLength(duration: int): (t: int)
    ensures t == 5 * duration
  {
    if duration == 15 then 75
    else if duration == 30 then 150
    else if duration == 60 then 300
    else if duration == 120 then 600
    else RoundFive(duration)
  }

  function RoundFive(duration: int): (t: int)
    ensures t == 5 * duration
  {
    RoundIsExactOnMultiples(duration, 1);
    Round(duration * 5, 1)
  }

  /** No space at any index in `[lo, hi]`. */
  ghost predicate NoSpaceIn(s: string, lo: int, hi: int) {
    forall i :: lo <= i <= hi && 0 <= i < |s| ==> s[i] != ' '
  }

  /** The short-test rule: a passage longer than 1.5 times the target is cut
      at the last space at or before the target, or at the target itself when
      the only candidate is index 0 or there is none. */
  function ShortText(text: string, target: int): (r: string)
    ensures r <= text
    ensures 2 * |text| <= 3 * target ==> r == text
    ensures 2 * |text| > 3 * target ==> |r| <= Max(target, 0)
    ensures 2 * |text| > 3 * target && target >= 0 ==> |r| < |text|
    ensures 2 * |text| > 3 * target && NoSpaceIn(text, 1, target) ==> |r| == Max(target, 0)
    ensures 2 * |text| > 3 * target && !NoSpaceIn(text, 1, target) ==>
              0 < |r| && text[|r|] == ' ' && NoSpaceIn(text, |r| + 1, target)
  {
    if 2 * |text| > 3 * target then
      var cut := LastIndexOf(text, ' ', target);
      Substring(text, 0, if cut > 0 then cut else target)
    else
      text
  }

  /** `if (result) result += " "; result += next`: a separating space only
      once something has been accumulated. */
  function Append(acc: string, next: string): string {
    if acc == "" then next else acc + " " + next
  }

  /** The text accumulated from `pieces`, taken in order. */
  function Join(pieces: seq<string>): string {
    if pieces == [] then "" else Append(Join(pieces[..|pieces| - 1]), pieces[|pieces| - 1])
  }

  lemma {:induction false} JoinEmptyIff(pieces: seq<string>)
    ensures Join(pieces) == "" <==> forall i :: 0 <= i < |pieces| ==> pieces[i] == ""
  {
    if pieces != [] {
      var init := pieces[..|pieces| - 1];
      JoinEmptyIff(init);
      assert forall i :: 0 <= i < |init| ==> init[i] == pieces[i];
    }
  }

  lemma {:induction false} JoinOfNonEmptyPieces(pieces: seq<string>, next: string)
    requires pieces != [] && forall i :: 0 <= i < |pieces| ==> pieces[i] != ""
    ensures Join(pieces + [next]) == Join(pieces) + " " + next
  {
    JoinEmptyIff(pieces);
    assert (pieces + [next])[..|pieces|] == pieces;
  }

  /** `s` back to front: the order in which popping from the end yields it. */
  function Reverse(s: seq<string>): seq<string> {
    seq(|s|, i requires 0 <= i < |s| => s[|s| - 1 - i])
  }

  /** The order in which passages leave the pool when it is popped from the
      end and refilled with shuffle 0, 1, ..., k - 1 of the collection. */
  function PopOrder(coll: seq<string>, shuffle: (seq<string>, nat) -> seq<string>, k: nat): seq<string> {
    if k == 0 then [] else PopOrder(coll, shuffle, k - 1) + Reverse(shuffle(coll, k - 1))
  }

  /** `result.lastIndexOf(' ', targetLength * 1.1)`: the last space at or
      before 1.1 times the target. */
  function CutIndex(joined: string, target: int): (c: int)
    ensures -1 <= c < |joined|
  {
    LastIndexOf(joined, ' ', 11 * target / 10)
  }

  /** The trim rule: the joined text is past 1.2 times the target and its
      cut point lies past 0.8 times the target. */
  ghost predicate Cuts(joined: string, target: int) {
    target > 0 && 10 * |joined| > 12 * target && 10 * CutIndex(joined, target) > 8 * target
  }

  /** What a long-test text is: the joined passages cut at `CutIndex` when
      the trim rule applies, and the joined passages, at least the target
      long, when it does not. */
  ghost predicate LongShape(joined: string, target: int, text: string, trimmed: bool) {
    if trimmed then
      Cuts(joined, target) && text == joined[..CutIndex(joined, target)]
    else
      text == joined && |text| >= target && !Cuts(joined, target)
  }

  /** The loop stops at the first passage that brings the joined text to the
      target: without the last piece, the text is still short of it. */
  ghost predicate StopsAtTarget(pieces: seq<string>, target: int) {
    pieces != [] ==> |Join(pieces[..|pieces| - 1])| < target
  }

  /** The promise of `getRandomText` for a collection and duration. */
  ghost predicate Sized(coll: seq<string>, duration: int, text: string) {
    var target := TargetLength(duration);
    if duration <= 15 then
      exists i :: 0 <= i < |coll| && text == ShortText(coll[i], target)
    else
      exists pieces: seq<string>, trimmed: bool ::
        && (forall p :: p in pieces ==> p in coll)
        && pieces != [] && StopsAtTarget(pieces, target)
        && LongShape(Join(pieces), target, text, trimmed)
  }

  /** The text `getRandomText` produces from `draw`: the short cut of the
      passage at the drawn index, or the pop-order prefix of the draw's
      shuffles that first reaches the target, joined and trimmed by the rule. */
  ghost predicate FromDraw(coll: seq<string>, duration: int, draw: Draw, text: string) {
    var target := TargetLength(duration);
    if duration <= 15 then
      |coll| > 0 && draw.r < RandomScale && text == ShortText(coll[PickIndex(draw.r, |coll|)], target)
    else
      exists pieces: seq<string>, rounds: nat, trimmed: bool ::
        && pieces <= PopOrder(coll, draw.shuffle, rounds)
        && pieces != [] && StopsAtTarget(pieces, target)
        && LongShape(Join(pieces), target, text, trimmed)
  }

  lemma RefillKeepsOrder(coll: seq<string>, shuffle: (seq<string>, nat) -> seq<string>, k: nat, pieces: seq<string>)
    requires pieces + Reverse([]) == PopOrder(coll, shuffle, k)
    ensures pieces + Reverse(shuffle(coll, k)) == PopOrder(coll, shuffle, k + 1)
  {
    assert pieces + Reverse([]) == pieces;
  }

  lemma PopKeepsOrder(pieces: seq<string>, shuffled: seq<string>, order: seq<string>)
    requires shuffled != [] && pieces + Reverse(shuffled) == order
    ensures (pieces + [shuffled[|shuffled| - 1]]) + Reverse(shuffled[..|shuffled| - 1]) == order
  {
    var last, init := shuffled[|shuffled| - 1], shuffled[..|shuffled| - 1];
    assert Reverse(shuffled) == [last] + Reverse(init);
    assert pieces + ([last] + Reverse(init)) == (pieces + [last]) + Reverse(init);
  }

  lemma JoinStep(pieces: seq<string>, text: string, next: string)
    requires text == Join(pieces)
    ensures Append(text, next) == Join(pieces + [next])
  {
    assert (pieces + [next])[..|pieces|] == pieces;
  }

  /** One more passage while the text is still short of the target: the
      join grows by it, and the loop has not yet passed the target. */
  lemma GrowStep(pieces: seq<string>, text: string, next: string, target: int)
    requires text == Join(pieces) && |text| < target
    ensures Append(text, next) == Join(pieces + [next])
    ensures StopsAtTarget(pieces + [next], target)
  {
    JoinStep(pieces, text, next);
    assert (pieces + [next])[..|pieces|] == pieces;
  }

  /** A trimmed text is a proper prefix of the joined text ending just
      before a space, with a length in (0.8, 1.1] times the target. */
  lemma TrimmedShape(joined: string, target: int, text: string)
    requires LongShape(joined, target, text, true)
    ensures |text| < |joined| && text == joined[..|text|] && joined[|text|] == ' '
    ensures 8 * target < 10 * |text| && 10 * |text| <= 11 * target
  {
    var from := 11 * target / 10;
    assert 10 * from <= 11 * target;
    assert |text| == CutIndex(joined, target) <= from;
  }

  /** One draw from the pool: refill it with the next shuffle of the
      collection when it is empty, then pop its last passage. */
  method NextPassage(collection: seq<string>, draw: Draw, shuffled: seq<string>, shuffles: nat,
                     ghost pieces: seq<string>)
    returns (next: string, rest: seq<string>, shuffles': nat)
    requires ValidDraw(draw) && Corpus.WellFormed(collection)
    requires pieces + Reverse(shuffled) == PopOrder(collection, draw.shuffle, shuffles)
    requires forall p :: p in shuffled ==> p in collection
    ensures (pieces + [next]) + Reverse(rest) == PopOrder(collection, draw.shuffle, shuffles')
    ensures next in collection && next != ""
    ensures forall p :: p in rest ==> p in collection
  {
    var pool, k := shuffled, shuffles;
    if |pool| == 0 {
      RefillKeepsOrder(collection, draw.shuffle, k, pieces);
      pool := draw.shuffle(collection, k);
      forall p | p in pool ensures p in collection {
        ShuffleKeepsMembers(draw, collection, k, p);
      }
      ShuffleKeepsMembers(draw, collection, k, collection[0]);
      k := k + 1;
    }
    next := pool[|pool| - 1];
    PopKeepsOrder(pieces, pool, PopOrder(collection, draw.shuffle, k));
    assert next in pool;
    rest, shuffles' := pool[..|pool| - 1], k;
  }

  /** Once the text is past 1.2 times the target, it is cut at the last
      space at or before 1.1 times the target, provided that space lies past
      0.8 times the target. */
  method TrimIfOvershot(text: string, target: int) returns (r: string, trimmed: bool)
    requires target > 0
    ensures trimmed <==> Cuts(text, target)
    ensures trimmed ==> r == text[..CutIndex(text, target)]
    ensures !trimmed ==> r == text
    ensures trimmed ==> 8 * target < 10 * |r| <= 11 * target
  {
    r, trimmed := text, false;
    if 10 * |text| > 12 * target {
      var cutIndex := LastIndexOf(text, ' ', 11 * target / 10);
      if 10 * cutIndex > 8 * target {
        r, trimmed := Substring(text, 0, cutIndex), true;
        TrimmedShape(text, target, r);
      }
    }
  }

  /** One pass of the long-test loop: pop the next passage, append it, and
      trim once the text overshoots (`cut` then ends the loop). */
  method ComposeStep(collection: seq<string>, draw: Draw, text: string, shuffled: seq<string>, shuffles: nat,
                     target: int, ghost pieces: seq<string>)
    returns (text': string, shuffled': seq<string>, shuffles': nat, cut: bool, ghost pieces': seq<string>)
    requires ValidDraw(draw) && Corpus.WellFormed(collection)
    requires text == Join(pieces) && |text| < target
    requires pieces + Reverse(shuffled) == PopOrder(collection, draw.shuffle, shuffles)
    requires forall p :: p in pieces ==> p in collection
    requires forall p :: p in shuffled ==> p in collection
    ensures pieces' + Reverse(shuffled') == PopOrder(collection, draw.shuffle, shuffles')
    ensures forall p :: p in pieces' ==> p in collection
    ensures forall p :: p in shuffled' ==> p in collection
    ensures pieces' != [] && StopsAtTarget(pieces', target)
    ensures cut ==> LongShape(Join(pieces'), target, text', true) && 8 * target < 10 * |text'| <= 11 * target
    ensures !cut ==> text' == Join(pieces') && !Cuts(text', target) && |text'| > |text|
  {
    var nextText;
    nextText, shuffled', shuffles' := NextPassage(collection, draw, shuffled, shuffles, pieces);
    GrowStep(pieces, text, nextText, target);
    pieces' := pieces + [nextText];
    text' := text;
    if text' != "" {
      text' := text' + " ";
    }
    text' := text' + nextText;
    assert text' == Join(pieces');
    text', cut := TrimIfOvershot(text', target);
  }

  /** The long-test loop: passages popped from the end of a shuffled pool
      (refilled with a fresh shuffle once empty) and joined by single spaces
      until the target is reached, with one trim once the text overshoots. */
  method ComposeLong(collection: seq<string>, target: int, draw: Draw)
    returns (text: string, ghost pieces: seq<string>, ghost rounds: nat, ghost trimmed: bool)
    requires ValidDraw(draw) && Corpus.WellFormed(collection)
    ensures pieces <= PopOrder(collection, draw.shuffle, rounds)
    ensures forall p :: p in pieces ==> p in collection
    ensures LongShape(Join(pieces), target, text, trimmed)
    ensures StopsAtTarget(pieces, target) && (target > 0 ==> pieces != [])
    ensures |text| >= target || 8 * target < 10 * |text| <= 11 * target
  {
    pieces, trimmed := [], false;
    var shuffled := draw.shuffle(collection, 0);
    var shuffles := 1;
    forall p | p in shuffled ensures p in collection {
      ShuffleKeepsMembers(draw, collection, 0, p);
    }
    text := "";
    while |text| < target
      invariant text == Join(pieces)
      invariant pieces + Reverse(shuffled) == PopOrder(collection, draw.shuffle, shuffles)
      invariant forall p :: p in pieces ==> p in collection
      invariant forall p :: p in shuffled ==> p in collection
      invariant !trimmed
      invariant StopsAtTarget(pieces, target)
      invariant pieces != [] ==> !Cuts(text, target)
      invariant pieces == [] ==> text == ""
      decreases target - |text|
    {
      var cut;
      text, shuffled, shuffles, cut, pieces := ComposeStep(collection, draw, text, shuffled, shuffles, target, pieces);
      if cut {
        trimmed := true;
        break;
      }
    }
    rounds := shuffles;
    assert pieces <= pieces + Reverse(shuffled);
  }

  /** `getRandomText(mode, duration)` over the client library `lib`, with the
      random index and the shuffles supplied by `draw`. */
  method GetRandomText(lib: Corpus.Library, mode: string, duration: int, draw: Draw)
    returns (text: string, ghost pieces: seq<string>, ghost rounds: nat, ghost trimmed: bool)
    requires Corpus.Stocks(lib, Corpus.ClientModes) && ValidDraw(draw)
    ensures Sized(Corpus.Collection(lib, mode), duration, text)
    ensures FromDraw(Corpus.Collection(lib, mode), duration, draw, text)
    ensures duration <= 15 ==>
      var coll := Corpus.Collection(lib, mode);
      text == ShortText(coll[PickIndex(draw.r, |coll|)], TargetLength(duration))
    ensures duration > 15 ==>
      && pieces <= PopOrder(Corpus.Collection(lib, mode), draw.shuffle, rounds)
      && (forall p :: p in pieces ==> p in Corpus.Collection(lib, mode))
      && pieces != [] && StopsAtTarget(pieces, TargetLength(duration))
      && LongShape(Join(pieces), TargetLength(duration), text, trimmed)
  {
    Corpus.CollectionOfAnyMode(lib, Corpus.ClientModes, mode);
    var collection := Corpus.Collection(lib, mode);
    var target := TargetLength(duration);
    if duration <= 15 {
      var randomIndex := PickIndex(draw.r, |collection|);
      text := ShortText(collection[randomIndex], target);
      pieces, rounds, trimmed := [], 0, false;
    } else {
      text, pieces, rounds, trimmed := ComposeLong(collection, target, draw);
    }
  }

  /** `getRandomTexts(mode, count, duration)`: `count` independent texts, the
      i-th drawn with `draws(i)`. */
  method GetRandomTexts(lib: Corpus.Library, mode: string, count: int, duration: int, draws: nat -> Draw)
    returns (results: seq<string>)
    requires Corpus.Stocks(lib, Corpus.ClientModes) && forall i :: ValidDraw(draws(i))
    ensures |results| == Max(count, 0)
    ensures forall i :: 0 <= i < |results| ==> Sized(Corpus.Collection(lib, mode), duration, results[i])
    ensures forall i :: 0 <= i < |results| ==> FromDraw(Corpus.Collection(lib, mode), duration, draws(i), results[i])
  {
    results := [];
    var i := 0;
    while i < count
      invariant |results| == i == Max(Min(i, count), 0)
      invariant forall j :: 0 <= j < i ==> Sized(Corpus.Collection(lib, mode), duration, results[j])
      invariant forall j :: 0 <= j < i ==> FromDraw(Corpus.Collection(lib, mode), duration, draws(j), results[j])
    {
      var text, _, _, _ := GetRandomText(lib, mode, duration, draws(i));
      results := results + [text];
      i := i + 1;
    }
  }
}

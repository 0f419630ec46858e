/** The process-wide text cache of client/src/lib/hooks/useTypingTest.ts:
    one list of ready texts per (mode, duration), filled by `preloadMode` and
    taken from by `getTextForTest`, guarded by the `fetchLock` flag. The
    answer of the `/api/texts` request is an input (`Response`), and so is
    the randomness of the local generator. */
module TextSupply {
  import opened Js
  import opened Randomness
  import opened Corpus
  import TextGenerator

  datatype CacheKey = CacheKey(mode: string, duration: int)

  /** What a request to `/api/texts` yielded: a JSON array of texts, or
      anything unusable (a network error, a non-OK status, a body that is
      not an array, an empty array). */
  datatype Response = Texts(texts: seq<string>) | Unusable

  /** A non-empty array answer, the only kind the cache accepts. */
  predicate Usable(r: Response) {
    r.Texts? && |r.texts| > 0
  }

  /** What `getTextForTest` delivers: a text together with whether a
      background `preloadMode` of the same key was scheduled, or, while the
      lock is held, a retry 200 ms later. */
  datatype Taken = Taken(text: string, refill: bool) | RetryLater

  const LoadFailedText := "Text loading failed. Click to try again."

  const AllModes := ["normal", "flirty", "developer", "python", "java", "csharp", "go"]

  /** `preloadMode` tops a list up only while it holds fewer than this many. */
  const PreloadBelow := 3

  /** After a take, a refill is scheduled when fewer than this many remain. */
  const RefillBelow := 2

  class TextCache {
    const library: Library
    var lists: map<CacheKey, seq<string>>
    var locked: bool

    ghost predicate Valid()
      reads this
    {
      Stocks(library, ClientModes)
    }

    constructor(library: Library)
      requires Stocks(library, ClientModes)
      ensures Valid() && this.library == library
      ensures lists == map[] && !locked
    {
      this.library := library;
      lists := map[];
      locked := false;
    }

    /** The list for `key`; a key never touched holds nothing. */
    function Queue(key: CacheKey): (q: seq<string>)
      reads this
      ensures key !in lists ==> q == []
      ensures key in lists ==> q == lists[key]
    {
      if key in lists then lists[key] else []
    }

    /** `preloadMode(mode, duration)`: a list holding fewer than three texts
        gets the fetched texts appended, or, when the fetch is unusable,
        three texts from the local generator. Returns what was appended. */
    method PreloadMode(mode: string, duration: int, response: Response, draws: nat -> Draw)
      returns (added: seq<string>)
      requires Valid() && forall i :: ValidDraw(draws(i))
      modifies this
      ensures Valid() && locked == old(locked)
      ensures var key := CacheKey(mode, duration);
        if |old(Queue(key))| >= PreloadBelow then
          added == [] && lists == old(lists)
        else
          && lists == old(lists)[key := old(Queue(key)) + added]
          && (Usable(response) ==> added == response.texts)
          && (!Usable(response) ==>
                && |added| == 3
                && (forall t :: t in added ==> TextGenerator.Sized(Collection(library, mode), duration, t))
                && forall i :: 0 <= i < 3 ==>
                     TextGenerator.FromDraw(Collection(library, mode), duration, draws(i), added[i]))
    {
      var key := CacheKey(mode, duration);
      var queue := Queue(key);
      if |queue| >= PreloadBelow {
        return [];
      }
      if Usable(response) {
        added := response.texts;
      } else {
        added := TextGenerator.GetRandomTexts(library, mode, 3, duration, draws);
      }
      lists := lists[key := queue + added];
    }

    /** `getTextForTest(mode, duration)`. While the lock is held nothing
        happens and the caller retries. Otherwise: the last cached text is
        popped, with a refill scheduled when fewer than two remain; failing
        that, the first fetched text, with a refill always scheduled; failing
        that, a text from the local generator; and should the generator fail
        (`generatorFails`), the load-failure placeholder. The lock is free
        again on every one of these paths. */
    method GetTextForTest(mode: string, duration: int, response: Response, draw: Draw, generatorFails: bool)
      returns (taken: Taken)
      requires Valid() && ValidDraw(draw)
      modifies this
      ensures Valid()
      ensures old(locked) ==> taken == RetryLater && locked && lists == old(lists)
      ensures !old(locked) ==> !locked && taken.Taken?
      ensures var key := CacheKey(mode, duration); var q := old(Queue(key));
        !old(locked) ==>
          if |q| > 0 then
            && taken == Taken(q[|q| - 1], |q| - 1 < RefillBelow)
            && lists == old(lists)[key := q[..|q| - 1]]
          else
            && lists == old(lists)
            && (Usable(response) ==> taken == Taken(response.texts[0], true))
            && (!Usable(response) && generatorFails ==> taken == Taken(LoadFailedText, false))
            && (!Usable(response) && !generatorFails ==>
                  && !taken.refill
                  && TextGenerator.Sized(Collection(library, mode), duration, taken.text)
                  && TextGenerator.FromDraw(Collection(library, mode), duration, draw, taken.text))
    {
      if locked {
        return RetryLater;
      }
      locked := true;
      var key := CacheKey(mode, duration);
      var queue := Queue(key);
      if |queue| > 0 {
        var text := queue[|queue| - 1];
        lists := lists[key := queue[..|queue| - 1]];
        var refill := |queue| - 1 < RefillBelow;
        locked := false;
        return Taken(text, refill);
      }
      if Usable(response) {
        locked := false;
        return Taken(response.texts[0], true);
      }
      if generatorFails {
        locked := false;
        return Taken(LoadFailedText, false);
      }
      var text, _, _, _ := TextGenerator.GetRandomText(library, mode, duration, draw);
      locked := false;
      return Taken(text, false);
    }

    /** The preload effect run whenever the duration changes: `normal`
        first, then every mode. Afterwards every mode has a text ready for
        that duration, and no other duration's list has changed. Each mode's
        request is answered by `responses(mode)`, so the two preloads of
        `normal` see the same answer, and every mode draws from the same
        `draws`; a second request answering differently is not expressed. */
    method PreloadAll(duration: int, responses: string -> Response, draws: nat -> Draw)
      requires Valid() && forall i :: ValidDraw(draws(i))
      modifies this
      ensures Valid() && locked == old(locked)
      ensures forall m :: m in AllModes ==> |Queue(CacheKey(m, duration))| > 0
      ensures forall k: CacheKey :: k.duration != duration ==> Queue(k) == old(Queue(k))
    {
      var order := ["normal"] + AllModes;
      var i := 0;
      while i < |order|
        invariant 0 <= i <= |order|
        invariant Valid() && locked == old(locked)
        invariant forall j :: 0 <= j < i ==> |Queue(CacheKey(order[j], duration))| > 0
        invariant forall k: CacheKey :: k.duration != duration ==> Queue(k) == old(Queue(k))
      {
        var _ := PreloadMode(order[i], duration, responses(order[i]), draws);
        i := i + 1;
      }
      forall m | m in AllModes
        ensures |Queue(CacheKey(m, duration))| > 0
      {
        var j :| 0 <= j < |AllModes| && AllModes[j] == m;
        assert order[j + 1] == m;
      }
    }
  }
}

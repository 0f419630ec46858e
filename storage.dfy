/** The server's in-memory store (server/storage.ts, class `MemStorage`):
    users keyed by id, an append-only log of typing tests, per-user settings,
    three id counters, and random picks from the server's text collections.
    The clock (`new Date()`) and the randomness are parameters. */
module Storage {
  import opened Js
  import opened Randomness
  import opened Corpus

  datatype User = User(id: int, username: string, password: string)

  datatype InsertUser = InsertUser(username: string, password: string)

  datatype TypingTest = TypingTest(
    id: int, userId: Option<int>, wpm: int, accuracy: int, duration: int,
    mode: string, characters: int, errors: int, timestamp: int)

  datatype InsertTypingTest = InsertTypingTest(
    userId: Option<int>, wpm: int, accuracy: int, duration: int,
    mode: string, characters: int, errors: int)

  datatype UserSettings = UserSettings(
    id: int, userId: int, soundEnabled: bool, caretStyle: string, showKeyboard: bool,
    showLiveWpm: bool, smoothCaret: bool, theme: string, fontFamily: string)

  /** A key of a partial object: left out, or given a value. */
  datatype Field<T> = Absent | Present(value: T)

  /** `Partial<InsertUserSettings>`: any of the settings columns except `id`. */
  datatype SettingsPatch = SettingsPatch(
    userId: Field<int>, soundEnabled: Field<bool>, caretStyle: Field<string>,
    showKeyboard: Field<bool>, showLiveWpm: Field<bool>, smoothCaret: Field<bool>,
    theme: Field<string>, fontFamily: Field<string>)

  const EmptyPatch: SettingsPatch :=
    SettingsPatch(Absent, Absent, Absent, Absent, Absent, Absent, Absent, Absent)

  /** The row `updateUserSettings` creates for a user without settings. */
  function Defaults(id: int, userId: int): UserSettings {
    UserSettings(id, userId, true, "line", false, true, true, "default", "Roboto Mono")
  }

  function Pick<T>(current: T, f: Field<T>): T {
    if f.Present? then f.value else current
  }

  /** `{ ...base, ...patch }`: every field the patch names takes the patch's
      value, every other field keeps the base's. */
  function Merge(base: UserSettings, patch: SettingsPatch): (r: UserSettings)
    ensures r.id == base.id
    ensures patch.userId.Present? ==> r.userId == patch.userId.value
    ensures patch.userId.Absent? ==> r.userId == base.userId
    ensures patch.soundEnabled.Present? ==> r.soundEnabled == patch.soundEnabled.value
    ensures patch.soundEnabled.Absent? ==> r.soundEnabled == base.soundEnabled
    ensures patch.caretStyle.Present? ==> r.caretStyle == patch.caretStyle.value
    ensures patch.caretStyle.Absent? ==> r.caretStyle == base.caretStyle
    ensures patch.showKeyboard.Present? ==> r.showKeyboard == patch.showKeyboard.value
    ensures patch.showKeyboard.Absent? ==> r.showKeyboard == base.showKeyboard
    ensures patch.showLiveWpm.Present? ==> r.showLiveWpm == patch.showLiveWpm.value
    ensures patch.showLiveWpm.Absent? ==> r.showLiveWpm == base.showLiveWpm
    ensures patch.smoothCaret.Present? ==> r.smoothCaret == patch.smoothCaret.value
    ensures patch.smoothCaret.Absent? ==> r.smoothCaret == base.smoothCaret
    ensures patch.theme.Present? ==> r.theme == patch.theme.value
    ensures patch.theme.Absent? ==> r.theme == base.theme
    ensures patch.fontFamily.Present? ==> r.fontFamily == patch.fontFamily.value
    ensures patch.fontFamily.Absent? ==> r.fontFamily == base.fontFamily
  {
    UserSettings(base.id, Pick(base.userId, patch.userId), Pick(base.soundEnabled, patch.soundEnabled),
                 Pick(base.caretStyle, patch.caretStyle), Pick(base.showKeyboard, patch.showKeyboard),
                 Pick(base.showLiveWpm, patch.showLiveWpm), Pick(base.smoothCaret, patch.smoothCaret),
                 Pick(base.theme, patch.theme), Pick(base.fontFamily, patch.fontFamily))
  }

  /** Sending the same patch twice changes nothing the second time, and an
      empty patch changes nothing at all. */
  lemma MergeIsIdempotent(base: UserSettings, patch: SettingsPatch)
    ensures Merge(Merge(base, patch), patch) == Merge(base, patch)
    ensures Merge(base, EmptyPatch) == base
  {
  }

  /** `a` is `b` with some entries left out, the rest in their order:
      matched greedily from the back. */
  predicate Subsequence<T(==)>(a: seq<T>, b: seq<T>)
    decreases |b|
  {
    if a == [] then true
    else if b == [] then false
    else if a[|a| - 1] == b[|b| - 1] then Subsequence(a[..|a| - 1], b[..|b| - 1])
    else Subsequence(a, b[..|b| - 1])
  }

  /** `tests.filter(test => test.userId === userId)`: the user's records,
      each as often as in the log and in the log's order. */
  function TestsOf(tests: seq<TypingTest>, userId: int): (r: seq<TypingTest>)
    ensures forall t :: t in r <==> t in tests && t.userId == Some(userId)
    ensures |r| <= |tests|
    ensures forall t :: multiset(r)[t] == if t.userId == Some(userId) then multiset(tests)[t] else 0
    ensures Subsequence(r, tests)
  {
    if tests == [] then []
    else
      var init, last := tests[..|tests| - 1], tests[|tests| - 1];
      assert tests == init + [last];
      var q := TestsOf(init, userId);
      if last.userId == Some(userId) then
        SubsequenceBothGrow(q, init, last);
        q + [last]
      else
        assert q != [] ==> q[|q| - 1] in q;
        SubsequenceSkip(q, init, last);
        q
  }

  lemma SubsequenceBothGrow<T>(a: seq<T>, b: seq<T>, x: T)
    requires Subsequence(a, b)
    ensures Subsequence(a + [x], b + [x])
  {
    assert (a + [x])[..|a|] == a && (b + [x])[..|b|] == b;
  }

  lemma SubsequenceSkip<T>(a: seq<T>, b: seq<T>, x: T)
    requires Subsequence(a, b) && (a == [] || a[|a| - 1] != x)
    ensures Subsequence(a, b + [x])
  {
    assert (b + [x])[..|b|] == b;
  }

  /** Filtering keeps insertion order: a record appended to the log comes
      last among its user's records. */
  lemma {:induction false} TestsOfAppend(tests: seq<TypingTest>, t: TypingTest, userId: int)
    ensures TestsOf(tests + [t], userId)
         == TestsOf(tests, userId) + (if t.userId == Some(userId) then [t] else [])
  {
    assert (tests + [t])[..|tests|] == tests;
  }

  lemma PrefixMultiset(s: seq<string>, k: nat)
    requires k <= |s|
    ensures multiset(s[..k]) <= multiset(s)
  {
    assert s == s[..k] + s[k..];
  }

  lemma {:induction false} DistinctCountsOnce(s: seq<string>, x: string)
    requires NoDup(s)
    ensures multiset(s)[x] <= 1
  {
    if s != [] {
      var init := s[..|s| - 1];
      assert s == init + [s[|s| - 1]];
      assert NoDup(init);
      DistinctCountsOnce(init, x);
      assert s[|s| - 1] !in init;
    }
  }

  lemma RepeatCountsTwice(s: seq<string>, i: nat, j: nat)
    requires i < j < |s| && s[i] == s[j]
    ensures multiset(s)[s[i]] >= 2
  {
    assert s == s[..i] + [s[i]] + s[i + 1..j] + [s[j]] + s[j + 1..];
  }

  /** Entries taken without repetition from a list of distinct entries are
      themselves distinct. */
  lemma SubMultisetOfDistinct(r: seq<string>, c: seq<string>)
    requires multiset(r) <= multiset(c) && NoDup(c)
    ensures NoDup(r)
  {
    forall i, j | 0 <= i < j < |r|
      ensures r[i] != r[j]
    {
      if r[i] == r[j] {
        RepeatCountsTwice(r, i, j);
        DistinctCountsOnce(c, r[i]);
        assert false;
      }
    }
  }

  class MemStorage {
    const library: Library
    var users: map<int, User>
    /** The ids of `users` in insertion order, the order `Map.values()` yields. */
    var userOrder: seq<int>
    var typingTests: seq<TypingTest>
    var userSettings: map<int, UserSettings>
    var currentUserId: int
    var currentTestId: int
    var currentSettingsId: int

    /** Every stored id was handed out by its counter: users are keyed by
        their own id, the log's ids increase, and settings rows have
        distinct ids. */
    ghost predicate Valid()
      reads this
    {
      && Stocks(library, ServerModes)
      && currentUserId >= 1 && currentTestId >= 1 && currentSettingsId >= 1
      && (forall id :: id in users ==> users[id].id == id && 1 <= id < currentUserId)
      && NoDup(userOrder)
      && (forall i :: 0 <= i < |userOrder| ==> userOrder[i] in users)
      && (forall id :: id in users ==> id in userOrder)
      && (forall i :: 0 <= i < |typingTests| ==> 1 <= typingTests[i].id < currentTestId)
      && (forall i, j :: 0 <= i < j < |typingTests| ==> typingTests[i].id < typingTests[j].id)
      && (forall u :: u in userSettings ==> 1 <= userSettings[u].id < currentSettingsId)
      && (forall u, v :: u in userSettings && v in userSettings && u != v ==>
            userSettings[u].id != userSettings[v].id)
    }

    constructor(library: Library)
      requires Stocks(library, ServerModes)
      ensures Valid() && this.library == library
      ensures users == map[] && userOrder == [] && typingTests == [] && userSettings == map[]
      ensures currentUserId == 1 && currentTestId == 1 && currentSettingsId == 1
    {
      this.library := library;
      users, userOrder, typingTests, userSettings := map[], [], [], map[];
      currentUserId, currentTestId, currentSettingsId := 1, 1, 1;
    }

    function GetUser(id: int): (r: Option<User>)
      reads this
      ensures r.Some? <==> id in users
      ensures r.Some? ==> r.value == users[id]
    {
      if id in users then Some(users[id]) else None
    }

    /** The first user, in insertion order, with this username. */
    method GetUserByUsername(username: string) returns (r: Option<User>)
      requires Valid()
      ensures r.None? <==> forall id :: id in users ==> users[id].username != username
      ensures r.Some? ==>
        && r.value.id in users && users[r.value.id] == r.value && r.value.username == username
        && exists i :: 0 <= i < |userOrder| && userOrder[i] == r.value.id
             && forall j :: 0 <= j < i ==> users[userOrder[j]].username != username
    {
      var i := 0;
      while i < |userOrder|
        invariant 0 <= i <= |userOrder|
        invariant forall j :: 0 <= j < i ==> users[userOrder[j]].username != username
      {
        var user := users[userOrder[i]];
        if user.username == username {
          assert userOrder[i] == user.id;
          return Some(user);
        }
        i := i + 1;
      }
      forall id | id in users ensures users[id].username != username {
        var j :| 0 <= j < |userOrder| && userOrder[j] == id;
      }
      return None;
    }

    /** `createUser`: the user gets the next id, which no stored user has. */
    method CreateUser(insert: InsertUser) returns (user: User)
      requires Valid()
      modifies this
      ensures Valid()
      ensures user == User(old(currentUserId), insert.username, insert.password)
      ensures user.id !in old(users)
      ensures users == old(users)[user.id := user] && userOrder == old(userOrder) + [user.id]
      ensures currentUserId == old(currentUserId) + 1
      ensures typingTests == old(typingTests) && userSettings == old(userSettings)
      ensures currentTestId == old(currentTestId) && currentSettingsId == old(currentSettingsId)
    {
      var id := currentUserId;
      assert id !in userOrder;
      currentUserId := currentUserId + 1;
      user := User(id, insert.username, insert.password);
      users := users[id := user];
      userOrder := userOrder + [id];
    }

    /** `saveTypingTest`: exactly one record, with the next id and the
        current time, is appended to the log. */
    method SaveTypingTest(test: InsertTypingTest, now: int) returns (saved: TypingTest)
      requires Valid()
      modifies this
      ensures Valid()
      ensures saved == TypingTest(old(currentTestId), test.userId, test.wpm, test.accuracy, test.duration,
                                  test.mode, test.characters, test.errors, now)
      ensures forall i :: 0 <= i < |old(typingTests)| ==> old(typingTests)[i].id < saved.id
      ensures typingTests == old(typingTests) + [saved]
      ensures currentTestId == old(currentTestId) + 1
      ensures users == old(users) && userOrder == old(userOrder) && userSettings == old(userSettings)
      ensures currentUserId == old(currentUserId) && currentSettingsId == old(currentSettingsId)
    {
      var id := currentTestId;
      currentTestId := currentTestId + 1;
      saved := TypingTest(id, test.userId, test.wpm, test.accuracy, test.duration,
                          test.mode, test.characters, test.errors, now);
      typingTests := typingTests + [saved];
    }

    /** `getTypingTests(userId)`: a truthy id (present and not 0) selects
        that user's records in insertion order; otherwise the whole log. */
    function GetTypingTests(userId: Option<int>): (r: seq<TypingTest>)
      reads this
      ensures userId.None? || userId == Some(0) ==> r == typingTests
      ensures userId.Some? && userId.value != 0 ==>
        forall t :: t in r <==> t in typingTests && t.userId == userId
      ensures userId.Some? && userId.value != 0 ==>
        forall t :: multiset(r)[t] == if t.userId == userId then multiset(typingTests)[t] else 0
      ensures userId.Some? && userId.value != 0 ==> Subsequence(r, typingTests)
    {
      if userId.Some? && userId.value != 0 then TestsOf(typingTests, userId.value) else typingTests
    }

    function GetUserSettings(userId: int): (r: Option<UserSettings>)
      reads this
      ensures r.Some? <==> userId in userSettings
      ensures r.Some? ==> r.value == userSettings[userId]
    {
      if userId in userSettings then Some(userSettings[userId]) else None
    }

    /** `updateUserSettings`: a user without settings first gets the default
        row with the next settings id; then the patch is laid over the row. */
    method UpdateUserSettings(userId: int, patch: SettingsPatch) returns (updated: UserSettings)
      requires Valid()
      modifies this
      ensures Valid()
      ensures userId in old(userSettings) ==>
        && updated == Merge(old(userSettings)[userId], patch)
        && currentSettingsId == old(currentSettingsId)
      ensures userId !in old(userSettings) ==>
        && updated == Merge(Defaults(old(currentSettingsId), userId), patch)
        && currentSettingsId == old(currentSettingsId) + 1
      ensures userSettings == old(userSettings)[userId := updated]
      ensures users == old(users) && userOrder == old(userOrder) && typingTests == old(typingTests)
      ensures currentUserId == old(currentUserId) && currentTestId == old(currentTestId)
    {
      var base: UserSettings;
      if userId in userSettings {
        base := userSettings[userId];
      } else {
        var id := currentSettingsId;
        currentSettingsId := currentSettingsId + 1;
        base := Defaults(id, userId);
      }
      updated := Merge(base, patch);
      userSettings := userSettings[userId := updated];
    }

    /** `getTexts(mode, count)`: one random entry when `count` is 1, and
        otherwise the first `Math.min(count, length)` entries of a shuffled
        copy, which are distinct entries of the collection (a negative
        `count` makes `slice` drop that many from the end). An unknown mode
        uses the `normal` collection. */
    function GetTexts(mode: string, count: int, draw: Draw): (r: seq<string>)
      requires Valid() && ValidDraw(draw)
      reads this
      ensures forall t :: t in r ==> t in Collection(library, mode)
      ensures multiset(r) <= multiset(Collection(library, mode))
      ensures count == 1 ==> |r| == 1
      ensures count != 1 && count >= 0 ==> |r| == Min(count, |Collection(library, mode)|)
      ensures count < 0 ==> |r| == Max(|Collection(library, mode)| + count, 0)
    {
      CollectionOfAnyMode(library, ServerModes, mode);
      var collection := Collection(library, mode);
      if count == 1 then
        var i := PickIndex(draw.r, |collection|);
        assert multiset([collection[i]]) <= multiset(collection);
        [collection[i]]
      else
        var shuffled := draw.shuffle(collection, 0);
        assert multiset(shuffled) == multiset(collection);
        assert |shuffled| == |collection| by {
          assert |multiset(shuffled)| == |multiset(collection)|;
        }
        var r := SlicePrefix(shuffled, Min(count, |collection|));
        PrefixMultiset(shuffled, |r|);
        assert forall t :: t in r ==> t in multiset(collection);
        r
    }

    /** The collections hold no repeated passage, so neither does an answer. */
    lemma GetTextsAreDistinct(mode: string, count: int, draw: Draw)
      requires Valid() && ValidDraw(draw) && NoDup(Collection(library, mode))
      ensures NoDup(GetTexts(mode, count, draw))
    {
      SubMultisetOfDistinct(GetTexts(mode, count, draw), Collection(library, mode));
    }
  }
}

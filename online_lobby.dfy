/** The online lobby (`SIOnlineViewModel` in
    src/SIGame/SIGame.ViewModel/ViewModel/SIOnlineViewModel.cs): the sorted
    list of users online, the bit-flag game filter and the search box, the
    cache of games the server reported and the list actually shown, which
    `RecountGames` resynchronises with the cache, and the Join gate. Games are
    values compared with `==` (the source compares `GameInfo` objects by
    reference, and the server never sends two equal ones). The server
    connection, the chat and the locks around the lists are not modelled. */
module OnlineLobby {
  import opened Common
  import opened GameRules
  import opened ConnectionData

  /** `SIEngine.GameModes`. */
  datatype GameMode = TvMode | SportMode

  /** What the server reports about a game (GameInfo); `started` stands for a
      `RealStartTime` other than `DateTime.MinValue`. */
  datatype GameInfo = GameInfo(
    id: int,
    name: string,
    started: bool,
    mode: GameMode,
    passwordRequired: bool,
    persons: seq<PersonSeat>)

  // ---------------------------------------------------------------------------
  // The game filter (GamesFilter, a flags enumeration)

  const FilterNew: bv32 := 1
  const FilterSport: bv32 := 2
  const FilterTv: bv32 := 4
  const FilterNoPassword: bv32 := 8

  predicate IsFlag(flag: bv32)
  {
    flag == FilterNew || flag == FilterSport || flag == FilterTv || flag == FilterNoPassword
  }

  /** `(filter & flag) > 0`. */
  predicate Has(filter: bv32, flag: bv32)
  {
    filter & flag != 0
  }

  /** The `IsNew`/`IsSport`/`IsTv`/`IsNoPassword` setters: set or clear one
      flag. */
  function SetFlag(filter: bv32, flag: bv32, on: bool): bv32
  {
    if on then filter | flag else filter & !flag
  }

  /** A flag setter makes its own flag read back as set or cleared and leaves
      every other flag as it was. */
  lemma SetFlagOwnBit(filter: bv32, flag: bv32, other: bv32, on: bool)
    requires IsFlag(flag) && IsFlag(other) && flag != other
    ensures Has(SetFlag(filter, flag, on), flag) == on
    ensures Has(SetFlag(filter, flag, on), other) == Has(filter, other)
  {
  }

  /** Setting one flag sets that bit and keeps every other flag. */
  lemma SetFlagBits(filter: bv32, flag: bv32, on: bool)
    requires IsFlag(flag)
    ensures Has(SetFlag(filter, flag, on), flag) == on
    ensures forall other :: IsFlag(other) && other != flag ==> Has(SetFlag(filter, flag, on), other) == Has(filter, other)
  {
    forall other | IsFlag(other) && other != flag
      ensures Has(SetFlag(filter, flag, on), other) == Has(filter, other)
    {
      SetFlagOwnBit(filter, flag, other, on);
    }
    if flag == FilterNew {
      SetFlagOwnBit(filter, flag, FilterSport, on);
    } else {
      SetFlagOwnBit(filter, flag, FilterNew, on);
    }
  }

  /** The parts of `GamesFilterValue`; the texts are localised resources and
      are joined with ", ". */
  datatype FilterLabel = AllLabel | NewLabel | SportLabel | TvLabel | NoPasswordLabel

  /** The label parts `GamesFilterValue` shows for a filter, in order. */
  function FilterLabels(filter: bv32): (r: seq<FilterLabel>)
    ensures r == [AllLabel] <==>
      Has(filter, FilterSport) == Has(filter, FilterTv) && !Has(filter, FilterNew) && !Has(filter, FilterNoPassword)
    ensures r != [AllLabel] ==>
      |r| > 0 && AllLabel !in r
      && (NewLabel in r <==> Has(filter, FilterNew))
      && (SportLabel in r <==> Has(filter, FilterSport) && !Has(filter, FilterTv))
      && (TvLabel in r <==> Has(filter, FilterTv) && !Has(filter, FilterSport))
      && (NoPasswordLabel in r <==> Has(filter, FilterNoPassword))
  {
    Labels(Has(filter, FilterNew), Has(filter, FilterSport), Has(filter, FilterTv), Has(filter, FilterNoPassword))
  }

  function Labels(onlyNew: bool, sport: bool, tv: bool, noPassword: bool): (r: seq<FilterLabel>)
    ensures r == [AllLabel] <==> sport == tv && !onlyNew && !noPassword
    ensures r != [AllLabel] ==>
      |r| > 0 && AllLabel !in r
      && (NewLabel in r <==> onlyNew)
      && (SportLabel in r <==> sport && !tv)
      && (TvLabel in r <==> tv && !sport)
      && (NoPasswordLabel in r <==> noPassword)
  {
    if ((sport && tv) || (!sport && !tv)) && !onlyNew && !noPassword then [AllLabel]
    else
      var parts := (if onlyNew then [NewLabel] else [])
        + (if sport && !tv then [SportLabel] else [])
        + (if tv && !sport then [TvLabel] else [])
        + (if noPassword then [NoPasswordLabel] else []);
      assert AllLabel !in parts;
      parts
  }

  /** What `FilterGame` reads besides the game: the flags, the search box
      (`None` for null) and the prefix of game links (`OnlineGameUrl`). */
  datatype FilterSettings = FilterSettings(filter: bv32, search: Option<string>, url: string)

  predicate StartsWith(s: string, prefix: string)
  {
    |prefix| <= |s| && s[..|prefix|] == prefix
  }

  /** `FilteredOk`: an empty search shows everything; a game link shows the
      game with that number; other text shows the games whose name contains
      it, trimmed. Case-insensitive matching is not modelled. */
  predicate SearchOk(s: FilterSettings, game: GameInfo)
  {
    s.search.None? || IsBlank(s.search.value)
    || (!StartsWith(s.search.value, s.url) && Contains(game.name, Trim(s.search.value)))
    || (StartsWith(s.search.value, s.url) && ParseInt(s.search.value[|s.url|..]) == Some(game.id))
  }

  /** `FilterGame`. */
  predicate FilterGame(s: FilterSettings, game: GameInfo)
  {
    var f := s.filter;
    !(Has(f, FilterNew) && game.started)
    && !(!Has(f, FilterSport) && Has(f, FilterTv) && game.mode == SportMode)
    && !(Has(f, FilterSport) && !Has(f, FilterTv) && game.mode == TvMode)
    && !(Has(f, FilterNoPassword) && game.passwordRequired)
    && SearchOk(s, game)
  }

  /** A game link is never blank: it ends with a digit. */
  lemma LinkNotBlank(url: string, n: int)
    ensures !IsBlank(url + FormatInt(n))
  {
    var text := url + FormatInt(n);
    var last := FormatInt(n)[|FormatInt(n)| - 1];
    DigitNotWhiteSpace(last);
    assert text[|text| - 1] == last;
  }

  /** A game link starts with the prefix and the rest reads back as the number. */
  lemma LinkParts(url: string, n: int)
    requires Int32Min <= n <= Int32Max
    ensures StartsWith(url + FormatInt(n), url)
    ensures ParseInt((url + FormatInt(n))[|url|..]) == Some(n)
  {
    var text := url + FormatInt(n);
    FormatParseRoundTrip(n);
    assert text[..|url|] == url;
    assert text[|url|..] == FormatInt(n);
  }

  /** Searching for the link of a game shows exactly the game with that
      number, whatever the flags. */
  lemma SearchByLink(s: FilterSettings, n: int, game: GameInfo)
    requires Int32Min <= n <= Int32Max
    requires s.search == Some(s.url + FormatInt(n))
    ensures SearchOk(s, game) <==> game.id == n
  {
    LinkNotBlank(s.url, n);
    LinkParts(s.url, n);
  }

  /** The flags and the search each reject on their own: a started game under
      New, a sport game when only Tv is set, a Tv game when only Sport is set,
      a game with a password under NoPassword, and a game the search does not
      match. */
  lemma FilterGameRejects(s: FilterSettings, game: GameInfo)
    ensures Has(s.filter, FilterNew) && game.started ==> !FilterGame(s, game)
    ensures !Has(s.filter, FilterSport) && Has(s.filter, FilterTv) && game.mode == SportMode ==> !FilterGame(s, game)
    ensures Has(s.filter, FilterSport) && !Has(s.filter, FilterTv) && game.mode == TvMode ==> !FilterGame(s, game)
    ensures Has(s.filter, FilterNoPassword) && game.passwordRequired ==> !FilterGame(s, game)
    ensures !SearchOk(s, game) ==> !FilterGame(s, game)
    ensures s.filter == 0 ==> (FilterGame(s, game) <==> SearchOk(s, game))
  {
  }

  // ---------------------------------------------------------------------------
  // Sorted lists without duplicates (Users by name, ServerGames by GameName)

  function UserKey(name: string): string
  {
    name
  }

  function GameName(game: GameInfo): string
  {
    game.name
  }

  /** Strictly increasing keys, hence no two entries with the same key. */
  predicate SortedBy<T>(xs: seq<T>, key: T -> string)
  {
    forall i, j :: 0 <= i < j < |xs| ==> Below(key(xs[i]), key(xs[j]))
  }

  /** Where the loop of `GameServerClient_Joined` and `InsertGame` stops:
      at the first entry whose key does not sort below the new one's. */
  function InsertPos<T>(xs: seq<T>, x: T, key: T -> string): (p: nat)
    ensures p <= |xs|
    ensures forall j :: 0 <= j < p ==> Below(key(xs[j]), key(x))
    ensures p < |xs| ==> !Below(key(xs[p]), key(x))
    decreases |xs|
  {
    if |xs| == 0 || !Below(key(xs[0]), key(x)) then 0
    else 1 + InsertPos(xs[1..], x, key)
  }

  /** The insertion of `GameServerClient_Joined` and `InsertGame`: nothing
      when the loop stops at an entry with the same key, otherwise `x` goes
      where the loop stopped (at the end when it ran through). */
  function InsertBy<T>(xs: seq<T>, x: T, key: T -> string): seq<T>
  {
    var p := InsertPos(xs, x, key);
    if p < |xs| && key(xs[p]) == key(x) then xs else xs[..p] + [x] + xs[p..]
  }

  /** On a sorted list the insertion keeps it sorted. */
  lemma InsertBySorted<T>(xs: seq<T>, x: T, key: T -> string)
    requires SortedBy(xs, key)
    ensures SortedBy(InsertBy(xs, x, key), key)
  {
    var p := InsertPos(xs, x, key);
    var r := InsertBy(xs, x, key);
    if !(p < |xs| && key(xs[p]) == key(x)) {
      if p < |xs| {
        BelowTotal(key(xs[p]), key(x));
      }
      forall k | p <= k < |xs|
        ensures Below(key(x), key(xs[k]))
      {
        if k > p {
          BelowTransitive(key(x), key(xs[p]), key(xs[k]));
        }
      }
      forall a, b | 0 <= a < b < |r|
        ensures Below(key(r[a]), key(r[b]))
      {
        if a < p && b > p {
          assert r[a] == xs[a] && r[b] == xs[b - 1];
          BelowTransitive(key(r[a]), key(x), key(r[b]));
        } else if a == p {
          assert r[b] == xs[b - 1];
        } else if b == p {
          assert r[a] == xs[a];
        } else if b < p {
          assert r[a] == xs[a] && r[b] == xs[b];
        } else {
          assert r[a] == xs[a - 1] && r[b] == xs[b - 1];
        }
      }
    }
  }

  /** On a sorted list the insertion leaves it alone exactly when an entry
      with the key of `x` is present, and otherwise adds just `x`. */
  lemma InsertByAdds<T>(xs: seq<T>, x: T, key: T -> string)
    requires SortedBy(xs, key)
    ensures InsertBy(xs, x, key) == xs <==> exists k :: 0 <= k < |xs| && key(xs[k]) == key(x)
    ensures InsertBy(xs, x, key) != xs ==> multiset(InsertBy(xs, x, key)) == multiset(xs) + multiset{x}
  {
    var p := InsertPos(xs, x, key);
    if p < |xs| && key(xs[p]) == key(x) {
      assert InsertBy(xs, x, key) == xs;
    } else {
      KeyMissingAfterMiss(xs, x, key);
      InsertedAt(xs, x, p);
    }
  }

  /** Putting `x` at position `p` adds one entry, and only `x`. */
  lemma InsertedAt<T>(xs: seq<T>, x: T, p: nat)
    requires p <= |xs|
    ensures |xs[..p] + [x] + xs[p..]| == |xs| + 1
    ensures multiset(xs[..p] + [x] + xs[p..]) == multiset(xs) + multiset{x}
  {
    assert xs == xs[..p] + xs[p..];
  }

  /** When the insertion loop does not stop at an entry with the key of `x`,
      no entry of the sorted list has that key. */
  lemma KeyMissingAfterMiss<T>(xs: seq<T>, x: T, key: T -> string)
    requires SortedBy(xs, key)
    requires var p := InsertPos(xs, x, key); !(p < |xs| && key(xs[p]) == key(x))
    ensures forall k :: 0 <= k < |xs| ==> key(xs[k]) != key(x)
  {
    var p := InsertPos(xs, x, key);
    forall k | p < k < |xs|
      ensures key(xs[k]) != key(x)
    {
      assert Below(key(xs[p]), key(xs[k]));
    }
  }

  /** The first position of `x`, or -1 (`IndexOf`). */
  function FirstIndex<T(==)>(xs: seq<T>, x: T): (i: int)
    ensures -1 <= i < |xs|
    ensures i >= 0 ==> xs[i] == x && x !in xs[..i]
    ensures i == -1 <==> x !in xs
    decreases |xs|
  {
    if |xs| == 0 then -1
    else if xs[0] == x then 0
    else
      var k := FirstIndex(xs[1..], x);
      if k == -1 then -1
      else
        assert xs[..k + 1] == [xs[0]] + xs[1..][..k];
        k + 1
  }

  /** `Users.Remove`: the first occurrence goes, the rest keep their order. */
  function RemoveFirst<T(==)>(xs: seq<T>, x: T): seq<T>
  {
    var i := FirstIndex(xs, x);
    if i == -1 then xs else xs[..i] + xs[i + 1..]
  }

  /** Dropping one entry of a sorted list leaves it sorted. */
  lemma RemoveAtSorted<T>(xs: seq<T>, i: nat, key: T -> string)
    requires SortedBy(xs, key) && i < |xs|
    ensures SortedBy(xs[..i] + xs[i + 1..], key)
  {
    var r := xs[..i] + xs[i + 1..];
    forall a, b | 0 <= a < b < |r|
      ensures Below(key(r[a]), key(r[b]))
    {
      var a' := if a < i then a else a + 1;
      var b' := if b < i then b else b + 1;
      assert r[a] == xs[a'] && r[b] == xs[b'];
    }
  }

  /** A user who leaves is gone from a sorted list, which stays sorted. */
  lemma RemoveFirstSorted(xs: seq<string>, x: string)
    requires SortedBy(xs, UserKey)
    ensures SortedBy(RemoveFirst(xs, x), UserKey)
    ensures x !in RemoveFirst(xs, x)
  {
    var i := FirstIndex(xs, x);
    if i >= 0 {
      var r := xs[..i] + xs[i + 1..];
      RemoveAtSorted(xs, i, UserKey);
      forall k | 0 <= k < |r|
        ensures r[k] != x
      {
        if k >= i {
          assert r[k] == xs[k + 1];
          assert Below(xs[i], xs[k + 1]);
        } else {
          assert r[k] == xs[..i][k];
        }
      }
    }
  }

  /** Removing a name keeps every other entry, in order. */
  lemma RemoveFirstKeeps<T>(xs: seq<T>, x: T)
    ensures var r := RemoveFirst(xs, x);
      (x !in xs ==> r == xs)
      && (x in xs ==> |r| == |xs| - 1 && multiset(r) == multiset(xs) - multiset{x})
    ensures x in xs ==>
      exists i :: 0 <= i < |xs| && xs[i] == x && x !in xs[..i] && RemoveFirst(xs, x) == xs[..i] + xs[i + 1..]
  {
    var i := FirstIndex(xs, x);
    if i >= 0 {
      assert xs == xs[..i] + [x] + xs[i + 1..];
    }
  }

  /** The loop of `GameServerClient_Joined` and `InsertGame`. */
  method InsertSorted<T>(xs: seq<T>, x: T, key: T -> string) returns (r: seq<T>)
    ensures r == InsertBy(xs, x, key)
  {
    r := xs;
    var i := 0;
    var stop := false;
    while i < |xs| && !stop
      invariant 0 <= i <= |xs|
      decreases |xs| - i, !stop
      invariant forall j :: 0 <= j < i ==> Below(key(xs[j]), key(x))
      invariant stop ==> i < |xs| && !Below(key(xs[i]), key(x)) && r == InsertBy(xs, x, key)
      invariant !stop ==> r == xs
    {
      var comparison := Compare(key(xs[i]), key(x));
      if comparison == 0 {
        stop := true;
        InsertPosAt(xs, x, key, i);
      } else if comparison > 0 {
        r := xs[..i] + [x] + xs[i..];
        stop := true;
        InsertPosAt(xs, x, key, i);
      } else {
        i := i + 1;
      }
    }
    if !stop {
      InsertPosAt(xs, x, key, i);
      r := xs + [x];
      assert r == xs[..i] + [x] + xs[i..];
    }
  }

  /** The insertion point is the first entry not below the new key. */
  lemma InsertPosAt<T>(xs: seq<T>, x: T, key: T -> string, i: nat)
    requires i <= |xs|
    requires forall j :: 0 <= j < i ==> Below(key(xs[j]), key(x))
    requires i < |xs| ==> !Below(key(xs[i]), key(x))
    ensures InsertPos(xs, x, key) == i
  {
  }

  // ---------------------------------------------------------------------------
  // The cache and RecountGames

  /** Position of the first game with the given number, or -1. */
  function FirstIdIndex(games: seq<GameInfo>, id: int): (r: int)
    ensures -1 <= r < |games|
    ensures r >= 0 ==> games[r].id == id && forall j :: 0 <= j < r ==> games[j].id != id
    ensures r == -1 ==> forall j :: 0 <= j < |games| ==> games[j].id != id
  {
    if |games| == 0 then -1
    else if games[0].id == id then 0
    else var k := FirstIdIndex(games[1..], id); if k == -1 then -1 else k + 1
  }

  /** `FirstOrDefault(sg => sg.GameID == id)`. */
  function FirstById(games: seq<GameInfo>, id: int): Option<GameInfo>
  {
    var i := FirstIdIndex(games, id);
    if i == -1 then None else Some(games[i])
  }

  /** No two games share a number (what the server guarantees). */
  predicate UniqueIds(games: seq<GameInfo>)
  {
    forall i, j :: 0 <= i < j < |games| ==> games[i].id != games[j].id
  }

  /** With unique numbers, looking a cached game up by its number finds it. */
  lemma FirstByIdFinds(games: seq<GameInfo>, g: GameInfo)
    requires UniqueIds(games) && g in games
    ensures FirstById(games, g.id) == Some(g)
  {
    var k :| 0 <= k < |games| && games[k] == g;
    var i := FirstIdIndex(games, g.id);
    assert i != -1 && i <= k;
  }

  /** The loop that looks a game up by number in `GameChanged`/`GameDeleted`. */
  method FindGame(games: seq<GameInfo>, id: int) returns (i: int)
    ensures i == FirstIdIndex(games, id)
  {
    i := 0;
    var found := false;
    while i < |games| && !found
      invariant 0 <= i <= |games|
      decreases |games| - i, !found
      invariant forall j :: 0 <= j < i ==> games[j].id != id
      invariant found ==> i < |games| && games[i].id == id
    {
      if games[i].id == id {
        found := true;
      } else {
        i := i + 1;
      }
    }
    if !found {
      i := -1;
    }
  }

  /** The shown game still has a cache entry with its number, and that entry
      passes the filter. */
  predicate Kept(s: FilterSettings, cache: seq<GameInfo>, item: GameInfo)
  {
    var g := FirstById(cache, item.id);
    g.Some? && FilterGame(s, g.value)
  }

  /** Phase one of `RecountGames`: the shown games that are kept, in order. */
  function Pruned(s: FilterSettings, cache: seq<GameInfo>, games: seq<GameInfo>): (r: seq<GameInfo>)
    ensures forall k :: 0 <= k < |r| ==> Kept(s, cache, r[k])
  {
    if |games| == 0 then []
    else
      var front := Pruned(s, cache, games[..|games| - 1]);
      var last := games[|games| - 1];
      if Kept(s, cache, last) then front + [last] else front
  }

  /** Removing an entry that sits right after a part without it. */
  lemma RemoveFirstAfter<T>(a: seq<T>, b: seq<T>, x: T)
    requires x !in a && |b| > 0 && b[0] == x
    ensures RemoveFirst(a + b, x) == a + b[1..]
  {
    var i := FirstIndex(a + b, x);
    assert (a + b)[|a|] == x;
    assert (a + b)[..|a|] == a;
    assert i == |a|;
    assert (a + b)[|a| + 1..] == b[1..];
  }

  /** One step of phase one: the shown list after the first `i` games moves
      on to the one after `i + 1`, by removing game `i` when it is not kept. */
  lemma PrunedStep(s: FilterSettings, cache: seq<GameInfo>, games: seq<GameInfo>, i: int)
    requires 0 <= i < |games|
    ensures var front, item := Pruned(s, cache, games[..i]), games[i];
      (if Kept(s, cache, item) then front + games[i..] else RemoveFirst(front + games[i..], item))
        == Pruned(s, cache, games[..i + 1]) + games[i + 1..]
  {
    var front, item := Pruned(s, cache, games[..i]), games[i];
    assert games[..i + 1][..i] == games[..i];
    if Kept(s, cache, item) {
      assert games[i..] == [item] + games[i + 1..];
    } else {
      assert item !in front;
      RemoveFirstAfter(front, games[i..], item);
      assert games[i..][1..] == games[i + 1..];
    }
  }

  /** Phase one's loop: every shown game whose number has left the cache, or
      whose cache entry the filter rejects, is removed. */
  method PruneShown(s: FilterSettings, cache: seq<GameInfo>, games: seq<GameInfo>) returns (shown: seq<GameInfo>)
    ensures shown == Pruned(s, cache, games)
  {
    shown := games;
    var i := 0;
    while i < |games|
      invariant 0 <= i <= |games|
      invariant shown == Pruned(s, cache, games[..i]) + games[i..]
    {
      var item := games[i];
      PrunedStep(s, cache, games, i);
      if !Kept(s, cache, item) {
        shown := RemoveFirst(shown, item);
      }
      i := i + 1;
    }
    assert games[..i] == games;
  }

  /** Phase two for one game: the cache entry with its number, if any. */
  function Refreshed(cache: seq<GameInfo>, g: GameInfo): GameInfo
  {
    var c := FirstById(cache, g.id);
    if c.Some? then c.value else g
  }

  function RefreshedAll(cache: seq<GameInfo>, games: seq<GameInfo>): (r: seq<GameInfo>)
    ensures |r| == |games| && forall k :: 0 <= k < |games| ==> r[k] == Refreshed(cache, games[k])
  {
    seq(|games|, k requires 0 <= k < |games| => Refreshed(cache, games[k]))
  }

  /** Phase two's loop: each shown game is replaced by the cache entry with
      its number where that is a different object. */
  method RefreshShown(cache: seq<GameInfo>, games: seq<GameInfo>) returns (shown: seq<GameInfo>)
    ensures shown == RefreshedAll(cache, games)
  {
    shown := games;
    var i := 0;
    while i < |games|
      invariant 0 <= i <= |games| && |shown| == |games|
      invariant forall k :: 0 <= k < i ==> shown[k] == Refreshed(cache, games[k])
      invariant forall k :: i <= k < |games| ==> shown[k] == games[k]
    {
      var item := games[i];
      var game := FirstById(cache, item.id);
      if game.Some? && game.value != item {
        shown := shown[i := game.value];
      }
      i := i + 1;
    }
  }

  /** Phase three: each cache entry, in cache order, is inserted when no
      shown game has its number and the filter passes it. */
  function WithMissing(s: FilterSettings, shown: seq<GameInfo>, items: seq<GameInfo>): seq<GameInfo>
    decreases |items|
  {
    if |items| == 0 then shown
    else
      var item := items[0];
      var next := if FirstById(shown, item.id).None? && FilterGame(s, item)
        then InsertBy(shown, item, GameName) else shown;
      WithMissing(s, next, items[1..])
  }

  /** Phase three's loop. */
  method AddMissing(s: FilterSettings, cache: seq<GameInfo>, shown0: seq<GameInfo>) returns (shown: seq<GameInfo>)
    ensures shown == WithMissing(s, shown0, cache)
  {
    shown := shown0;
    var i := 0;
    while i < |cache|
      invariant 0 <= i <= |cache|
      invariant WithMissing(s, shown, cache[i..]) == WithMissing(s, shown0, cache)
    {
      var item := cache[i];
      assert cache[i..][1..] == cache[i + 1..];
      if FirstById(shown, item.id).None? && FilterGame(s, item) {
        shown := InsertSorted(shown, item, GameName);
      }
      i := i + 1;
    }
  }

  /** The list `RecountGames` leaves shown. */
  function Recounted(s: FilterSettings, cache: seq<GameInfo>, shown: seq<GameInfo>): seq<GameInfo>
  {
    WithMissing(s, RefreshedAll(cache, Pruned(s, cache, shown)), cache)
  }

  /** Every shown game is a cache entry the filter passes. */
  predicate Displayable(s: FilterSettings, cache: seq<GameInfo>, games: seq<GameInfo>)
  {
    forall k :: 0 <= k < |games| ==> games[k] in cache && FilterGame(s, games[k])
  }

  /** Every shown game is the first cache entry with its number. */
  predicate Canonical(cache: seq<GameInfo>, games: seq<GameInfo>)
  {
    forall k :: 0 <= k < |games| ==> FirstById(cache, games[k].id) == Some(games[k])
  }

  /** The insertion adds nothing but the new entry. */
  lemma InsertByElements<T>(xs: seq<T>, x: T, key: T -> string)
    ensures forall k :: 0 <= k < |InsertBy(xs, x, key)| ==> InsertBy(xs, x, key)[k] in xs + [x]
  {
    var p := InsertPos(xs, x, key);
    var r := InsertBy(xs, x, key);
    if r != xs {
      forall k | 0 <= k < |r|
        ensures r[k] in xs + [x]
      {
        if k < p {
          assert r[k] == xs[k];
        } else if k > p {
          assert r[k] == xs[k - 1];
        }
      }
    }
  }

  /** Phase three only adds cache entries the filter passes, so it keeps
      both properties. */
  lemma {:induction false} WithMissingKeeps(s: FilterSettings, cache: seq<GameInfo>, shown: seq<GameInfo>, items: seq<GameInfo>)
    requires Displayable(s, cache, shown)
    requires UniqueIds(cache) ==> Canonical(cache, shown)
    requires forall k :: 0 <= k < |items| ==> items[k] in cache
    ensures Displayable(s, cache, WithMissing(s, shown, items))
    ensures UniqueIds(cache) ==> Canonical(cache, WithMissing(s, shown, items))
    decreases |items|
  {
    if |items| > 0 {
      var item := items[0];
      if FirstById(shown, item.id).None? && FilterGame(s, item) {
        var next := InsertBy(shown, item, GameName);
        InsertByElements(shown, item, GameName);
        if UniqueIds(cache) {
          FirstByIdFinds(cache, item);
        }
        assert Displayable(s, cache, next);
        WithMissingKeeps(s, cache, next, items[1..]);
      } else {
        WithMissingKeeps(s, cache, shown, items[1..]);
      }
    }
  }

  /** After `RecountGames` every shown game is a cache entry that the filter
      passes, and with unique numbers it is the cache entry with its number. */
  lemma RecountShowsFiltered(s: FilterSettings, cache: seq<GameInfo>, shown: seq<GameInfo>)
    ensures Displayable(s, cache, Recounted(s, cache, shown))
    ensures UniqueIds(cache) ==> Canonical(cache, Recounted(s, cache, shown))
  {
    var kept := Pruned(s, cache, shown);
    var refreshed := RefreshedAll(cache, kept);
    forall k | 0 <= k < |refreshed|
      ensures refreshed[k] in cache && FilterGame(s, refreshed[k])
      ensures FirstById(cache, refreshed[k].id) == Some(refreshed[k])
    {
      assert Kept(s, cache, kept[k]);
    }
    WithMissingKeeps(s, cache, refreshed, cache);
  }

  // ---------------------------------------------------------------------------
  // Cache updates

  /** `GameChanged` on the cache: the first entry with the game's number is
      replaced. */
  function Changed(cache: seq<GameInfo>, info: GameInfo): seq<GameInfo>
  {
    var i := FirstIdIndex(cache, info.id);
    if i == -1 then cache else cache[i := info]
  }

  /** After a change the cache answers the new game for its number, or is
      unchanged when it had no game with that number. */
  lemma ChangedFinds(cache: seq<GameInfo>, info: GameInfo)
    ensures FirstById(Changed(cache, info), info.id) ==
      if FirstById(cache, info.id).Some? then Some(info) else None
    ensures FirstById(cache, info.id).None? ==> Changed(cache, info) == cache
  {
    var i := FirstIdIndex(cache, info.id);
    if i != -1 {
      var c := Changed(cache, info);
      assert c[i] == info;
      assert forall j :: 0 <= j < i ==> c[j] == cache[j];
      assert FirstIdIndex(c, info.id) == i;
    }
  }

  /** `GameDeleted` on the cache: the first entry with the number goes. */
  function Deleted(cache: seq<GameInfo>, id: int): seq<GameInfo>
  {
    var i := FirstIdIndex(cache, id);
    if i == -1 then cache else cache[..i] + cache[i + 1..]
  }

  /** With unique numbers a deleted game is gone from the cache, the numbers
      stay unique and every other entry stays. */
  lemma DeletedRemoves(cache: seq<GameInfo>, id: int)
    requires UniqueIds(cache)
    ensures FirstById(Deleted(cache, id), id).None?
    ensures UniqueIds(Deleted(cache, id))
    ensures forall g :: g in cache && g.id != id ==> g in Deleted(cache, id)
  {
    var i := FirstIdIndex(cache, id);
    var d := Deleted(cache, id);
    if i != -1 {
      assert forall k :: 0 <= k < |d| ==> d[k] == cache[if k < i then k else k + 1];
      forall g | g in cache && g.id != id
        ensures g in d
      {
        var k :| 0 <= k < |cache| && cache[k] == g;
        assert d[if k < i then k else k - 1] == g;
      }
    }
  }

  /** `GameCreated` on the cache: a game with a new number is found by it. */
  lemma CreatedFinds(cache: seq<GameInfo>, info: GameInfo)
    requires FirstById(cache, info.id).None?
    ensures FirstById(cache + [info], info.id) == Some(info)
    ensures UniqueIds(cache) ==> UniqueIds(cache + [info])
  {
    var c := cache + [info];
    assert FirstIdIndex(cache, info.id) == -1;
    assert forall j :: 0 <= j < |cache| ==> c[j] == cache[j];
    assert c[|cache|].id == info.id;
    assert FirstIdIndex(c, info.id) == |cache|;
  }

  // ---------------------------------------------------------------------------
  // The lobby

  /** The selection after a recount: the selected game while it is still
      shown, otherwise the first shown game, or none when nothing is shown. */
  function Settled(current: Option<GameInfo>, shown: seq<GameInfo>): (r: Option<GameInfo>)
    ensures r.None? <==> |shown| == 0
    ensures r.Some? ==> r.value in shown
    ensures current.Some? && current.value in shown ==> r == current
  {
    if current.Some? && current.value in shown then current
    else if |shown| > 0 then Some(shown[0])
    else None
  }

  /** The joinable roles after the selection moves from `before` to `after`:
      rebuilt from a newly selected game, kept otherwise. */
  function JoinAreaAfter(before: Option<GameInfo>, after: Option<GameInfo>, area: seq<Role>): seq<Role>
  {
    if after != before && after.Some? then JoinableRoles(after.value.persons) else area
  }

  /** `CheckJoin`: a game is selected, and it needs no password or one has
      been typed. */
  predicate CanJoin(current: Option<GameInfo>, password: string)
  {
    current.Some? && (!current.value.passwordRequired || password != "")
  }

  class Lobby {
    var users: seq<string>
    /** `ServerGames`: the games shown, sorted by name as they are inserted. */
    var serverGames: seq<GameInfo>
    /** `ServerGamesCache`: every game the server reported. */
    var cache: seq<GameInfo>
    var currentGame: Option<GameInfo>
    var canJoin: bool
    var password: string
    var filter: bv32
    var searchFilter: Option<string>
    var showSearchBox: bool
    const onlineGameUrl: string
    /** The join-screen part this view-model inherits. */
    const connection: Connection

    constructor (onlineGameUrl: string, filter: bv32)
      ensures this.onlineGameUrl == onlineGameUrl && this.filter == filter
      ensures users == [] && serverGames == [] && cache == [] && currentGame.None?
      ensures password == "" && searchFilter.None? && fresh(connection)
      ensures JoinGate()
    {
      this.onlineGameUrl := onlineGameUrl;
      this.filter := filter;
      users := [];
      serverGames := [];
      cache := [];
      currentGame := None;
      canJoin := false;
      password := "";
      searchFilter := None;
      showSearchBox := false;
      connection := new Connection();
    }

    function Settings(): FilterSettings
      reads this`filter, this`searchFilter
    {
      FilterSettings(filter, searchFilter, onlineGameUrl)
    }

    /** `CanJoin` agrees with the selected game and the password. */
    predicate JoinGate()
      reads this`canJoin, this`currentGame, this`password
    {
      canJoin == CanJoin(currentGame, password)
    }

    /** `GameServerClient_Joined`. */
    method Joined(userName: string)
      modifies this`users
      ensures users == InsertBy(old(users), userName, UserKey)
    {
      users := InsertSorted(users, userName, UserKey);
    }

    /** `GameServerClient_Leaved`. */
    method Leaved(userName: string)
      modifies this`users
      ensures users == RemoveFirst(old(users), userName)
    {
      users := RemoveFirst(users, userName);
    }

    /** `InsertGame`. */
    method InsertGame(game: GameInfo)
      modifies this`serverGames
      ensures serverGames == InsertBy(old(serverGames), game, GameName)
    {
      serverGames := InsertSorted(serverGames, game, GameName);
    }

    method CheckJoin()
      modifies this`canJoin
      ensures JoinGate()
    {
      canJoin := currentGame.Some? && (!currentGame.value.passwordRequired || password != "");
    }

    /** The `CurrentGame` setter: a different game refreshes the joinable
        roles (when it is not null) and the Join gate. */
    method SetCurrentGame(value: Option<GameInfo>)
      requires JoinGate()
      modifies this`currentGame, this`canJoin, connection`joinArea
      ensures currentGame == value && JoinGate()
      ensures value != old(currentGame) && value.Some? ==> connection.joinArea == JoinableRoles(value.value.persons)
      ensures value == old(currentGame) || value.None? ==> connection.joinArea == old(connection.joinArea)
    {
      if currentGame != value {
        currentGame := value;
        if value.Some? {
          connection.UpdateJoinCommand(value.value.persons);
        }
        CheckJoin();
      }
    }

    /** The `Password` setter. */
    method SetPassword(value: string)
      requires JoinGate()
      modifies this`password, this`canJoin
      ensures password == value && JoinGate()
    {
      if password != value {
        password := value;
        CheckJoin();
      }
    }

    /** The three phases of `RecountGames` on the shown list. */
    method RecountList()
      modifies this`serverGames
      ensures serverGames == Recounted(Settings(), cache, old(serverGames))
      ensures Displayable(Settings(), cache, serverGames)
      ensures UniqueIds(cache) ==> Canonical(cache, serverGames)
    {
      RecountShowsFiltered(Settings(), cache, serverGames);
      var kept := PruneShown(Settings(), cache, serverGames);
      var refreshed := RefreshShown(cache, kept);
      serverGames := AddMissing(Settings(), cache, refreshed);
    }

    /** The end of `RecountGames`: a selected game no longer shown is dropped,
        and the first shown game is selected when none is. */
    method SettleCurrentGame()
      requires JoinGate()
      modifies this`currentGame, this`canJoin, connection`joinArea
      ensures JoinGate()
      ensures currentGame == Settled(old(currentGame), serverGames)
      ensures connection.joinArea == JoinAreaAfter(old(currentGame), currentGame, old(connection.joinArea))
    {
      if currentGame.Some? && currentGame.value !in serverGames {
        SetCurrentGame(None);
      }
      if currentGame.None? && |serverGames| > 0 {
        SetCurrentGame(Some(serverGames[0]));
      }
    }

    /** `RecountGames`: the shown list is resynchronised with the cache and
        the filter, then the selection is settled. */
    method RecountGames()
      requires JoinGate()
      modifies this`serverGames, this`currentGame, this`canJoin, connection`joinArea
      ensures serverGames == Recounted(Settings(), cache, old(serverGames))
      ensures Displayable(Settings(), cache, serverGames)
      ensures UniqueIds(cache) ==> Canonical(cache, serverGames)
      ensures currentGame == Settled(old(currentGame), serverGames)
      ensures connection.joinArea == JoinAreaAfter(old(currentGame), currentGame, old(connection.joinArea))
      ensures JoinGate()
    {
      RecountList();
      SettleCurrentGame();
    }

    /** The `GamesFilter` setter: a different filter recounts the games. */
    method SetGamesFilter(value: bv32)
      requires JoinGate()
      modifies this`filter, this`serverGames, this`currentGame, this`canJoin, connection`joinArea
      ensures filter == value && JoinGate()
      ensures value != old(filter) ==>
        serverGames == Recounted(Settings(), cache, old(serverGames)) && Displayable(Settings(), cache, serverGames)
      ensures value != old(filter) ==>
        currentGame == Settled(old(currentGame), serverGames)
        && connection.joinArea == JoinAreaAfter(old(currentGame), currentGame, old(connection.joinArea))
      ensures value == old(filter) ==>
        serverGames == old(serverGames) && currentGame == old(currentGame)
        && connection.joinArea == old(connection.joinArea)
    {
      if filter != value {
        filter := value;
        RecountGames();
      }
    }

    /** The `IsNew`/`IsSport`/`IsTv`/`IsNoPassword` setters: the filter
        becomes `SetFlag` of the old one (whose bits `SetFlagBits` states),
        and a changed filter recounts the games. */
    method SetFlagged(flag: bv32, on: bool)
      requires IsFlag(flag) && JoinGate()
      modifies this`filter, this`serverGames, this`currentGame, this`canJoin, connection`joinArea
      ensures filter == SetFlag(old(filter), flag, on) && JoinGate()
      ensures filter != old(filter) ==>
        serverGames == Recounted(Settings(), cache, old(serverGames)) && Displayable(Settings(), cache, serverGames)
      ensures filter != old(filter) ==>
        currentGame == Settled(old(currentGame), serverGames)
        && connection.joinArea == JoinAreaAfter(old(currentGame), currentGame, old(connection.joinArea))
      ensures filter == old(filter) ==>
        serverGames == old(serverGames) && currentGame == old(currentGame)
        && connection.joinArea == old(connection.joinArea)
    {
      SetGamesFilter(SetFlag(filter, flag, on));
    }

    /** The `SearchFilter` setter: a different search recounts the games. */
    method SetSearchFilter(value: Option<string>)
      requires JoinGate()
      modifies this`searchFilter, this`serverGames, this`currentGame, this`canJoin, connection`joinArea
      ensures searchFilter == value && JoinGate()
      ensures value != old(searchFilter) ==>
        serverGames == Recounted(Settings(), cache, old(serverGames)) && Displayable(Settings(), cache, serverGames)
      ensures value != old(searchFilter) ==>
        currentGame == Settled(old(currentGame), serverGames)
        && connection.joinArea == JoinAreaAfter(old(currentGame), currentGame, old(connection.joinArea))
      ensures value == old(searchFilter) ==>
        serverGames == old(serverGames) && currentGame == old(currentGame)
        && connection.joinArea == old(connection.joinArea)
    {
      if searchFilter != value {
        searchFilter := value;
        RecountGames();
      }
    }

    /** The `ShowSearchBox` setter: hiding the search box clears the search. */
    method SetShowSearchBox(value: bool)
      requires JoinGate()
      modifies this`showSearchBox, this`searchFilter, this`serverGames, this`currentGame, this`canJoin, connection`joinArea
      ensures showSearchBox == value && JoinGate()
      ensures value != old(showSearchBox) && !value ==> searchFilter.None?
      ensures value != old(showSearchBox) && !value && old(searchFilter).Some? ==>
        serverGames == Recounted(Settings(), cache, old(serverGames)) && Displayable(Settings(), cache, serverGames)
      ensures value != old(showSearchBox) && !value && old(searchFilter).Some? ==>
        currentGame == Settled(old(currentGame), serverGames)
        && connection.joinArea == JoinAreaAfter(old(currentGame), currentGame, old(connection.joinArea))
      ensures value == old(showSearchBox) || value || old(searchFilter).None? ==>
        searchFilter == old(searchFilter) && serverGames == old(serverGames) && currentGame == old(currentGame)
        && connection.joinArea == old(connection.joinArea)
    {
      if showSearchBox != value {
        showSearchBox := value;
        if !value {
          SetSearchFilter(None);
        }
      }
    }

    /** `GameServerClient_GameCreated`. */
    method GameCreated(info: GameInfo)
      requires JoinGate()
      modifies this`cache, this`serverGames, this`currentGame, this`canJoin, connection`joinArea
      ensures cache == old(cache) + [info]
      ensures serverGames == Recounted(Settings(), cache, old(serverGames)) && Displayable(Settings(), cache, serverGames)
      ensures currentGame == Settled(old(currentGame), serverGames)
        && connection.joinArea == JoinAreaAfter(old(currentGame), currentGame, old(connection.joinArea))
      ensures JoinGate()
    {
      cache := cache + [info];
      RecountGames();
    }

    /** `GameServerClient_GameChanged`. */
    method GameChanged(info: GameInfo)
      requires JoinGate()
      modifies this`cache, this`serverGames, this`currentGame, this`canJoin, connection`joinArea
      ensures cache == Changed(old(cache), info)
      ensures serverGames == Recounted(Settings(), cache, old(serverGames)) && Displayable(Settings(), cache, serverGames)
      ensures currentGame == Settled(old(currentGame), serverGames)
        && connection.joinArea == JoinAreaAfter(old(currentGame), currentGame, old(connection.joinArea))
      ensures JoinGate()
    {
      var i := FindGame(cache, info.id);
      if i != -1 {
        cache := cache[i := info];
      }
      RecountGames();
    }

    /** `GameServerClient_GameDeleted`. */
    method GameDeleted(id: int)
      requires JoinGate()
      modifies this`cache, this`serverGames, this`currentGame, this`canJoin, connection`joinArea
      ensures cache == Deleted(old(cache), id)
      ensures serverGames == Recounted(Settings(), cache, old(serverGames)) && Displayable(Settings(), cache, serverGames)
      ensures currentGame == Settled(old(currentGame), serverGames)
        && connection.joinArea == JoinAreaAfter(old(currentGame), currentGame, old(connection.joinArea))
      ensures JoinGate()
    {
      var i := FindGame(cache, id);
      if i != -1 {
        cache := cache[..i] + cache[i + 1..];
      }
      RecountGames();
    }
  }
}

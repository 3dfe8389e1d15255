/** The new-game settings screen (`GameSettingsViewModel` in
    src/SIGame/SIGame.ViewModel/ViewModel/GameSettingsViewModel.cs): the
    player slots and their resizing, the choice of a computer account for a
    computer slot, the duplicate-account check, the error shown under the
    form and the seat layout prepared for the game. Accounts and slots are
    objects compared by identity, as in the source. The random generator is
    replaced by a seed per draw: `Random.Next(n)` is `seed % n` for a
    positive `n` and 0 for `n == 0`, which covers every value it can
    return. */
module GameSettings {
  import opened Common
  import opened GameRules

  /** AccountTypes. */
  datatype AccountKind = HumanKind | ComputerKind

  /** NetworkGameType. */
  datatype NetworkKind = GameServer | DirectConnection

  /** The error shown under the form; the texts are localised resources, so
      the model keeps only which one is shown. */
  datatype SettingsError = NoPackage | Duplicate(name: string) | NameRequired | PortRequired | NoError

  /** An account (human or computer); compared by identity. */
  class Person {
    const name: string

    constructor (name: string)
      ensures this.name == name
    {
      this.name := name;
    }
  }

  /** A seat being configured (GameAccount): its kind, the selected account
      and whether its selection list is the computer-player list. The kind is
      fixed here because the operations that change it are not modelled. */
  class Slot {
    const kind: AccountKind
    var selected: Person?
    var listsComputers: bool

    constructor (kind: AccountKind, selected: Person?)
      ensures this.kind == kind && this.selected == selected && !listsComputers
    {
      this.kind := kind;
      this.selected := selected;
      listsComputers := false;
    }
  }

  /** The seat number of the organiser when they play (`PlayerNumber`). */
  const PlayerNumber: int := 0

  // ---------------------------------------------------------------------------
  // The error priority chain

  /** The error `SetErrorMessage` shows: the first failing check in the order
      package, duplicate account, game name, port. */
  function ErrorFor(hasPackage: bool, unique: Option<string>, network: bool, networkKind: NetworkKind,
                    gameName: string, port: int): (r: SettingsError)
    ensures r == NoPackage <==> !hasPackage
    ensures r.Duplicate? <==> hasPackage && unique.Some?
    ensures r.Duplicate? ==> r.name == unique.value
    ensures r == NameRequired <==>
      hasPackage && unique.None? && network && networkKind == GameServer && gameName == ""
    ensures r == PortRequired <==>
      hasPackage && unique.None? && network && networkKind == DirectConnection && port == 0
    ensures r == NoError <==>
      hasPackage && unique.None?
      && !(network && networkKind == GameServer && gameName == "")
      && !(network && networkKind == DirectConnection && port == 0)
  {
    if !hasPackage then NoPackage
    else if unique.Some? then Duplicate(unique.value)
    else if network && networkKind == GameServer && gameName == "" then NameRequired
    else if network && networkKind == DirectConnection && port == 0 then PortRequired
    else NoError
  }

  // ---------------------------------------------------------------------------
  // Duplicate accounts

  /** An account that takes part in the duplicate check: present and not
      the free-place placeholder. */
  predicate Checked(a: Person?)
  {
    a != null && a.name != FreePlace
  }

  /** The checked account at `i` occurs again later in the list. */
  predicate RepeatedAt(accounts: seq<Person?>, i: int)
  {
    0 <= i < |accounts| && Checked(accounts[i])
    && exists j :: i < j < |accounts| && accounts[j] == accounts[i]
  }

  /** The first position whose checked account occurs again later, or -1. */
  function FirstRepeated(accounts: seq<Person?>): (r: int)
    ensures -1 <= r < |accounts|
    ensures r >= 0 ==> RepeatedAt(accounts, r) && forall k :: 0 <= k < r ==> !RepeatedAt(accounts, k)
    ensures r == -1 ==> forall k :: 0 <= k < |accounts| ==> !RepeatedAt(accounts, k)
  {
    FirstRepeatedFrom(accounts, 0)
  }

  function FirstRepeatedFrom(accounts: seq<Person?>, from: nat): (r: int)
    requires from <= |accounts|
    ensures r == -1 || from <= r < |accounts|
    ensures r >= 0 ==> RepeatedAt(accounts, r) && forall k :: from <= k < r ==> !RepeatedAt(accounts, k)
    ensures r == -1 ==> forall k :: from <= k < |accounts| ==> !RepeatedAt(accounts, k)
    decreases |accounts| - from
  {
    if from == |accounts| then -1
    else if RepeatedAt(accounts, from) then from
    else FirstRepeatedFrom(accounts, from + 1)
  }

  /** The name `CheckUniqueAccounts` reports, if any. */
  function DuplicateName(accounts: seq<Person?>): (r: Option<string>)
    ensures r.None? <==> forall k :: 0 <= k < |accounts| ==> !RepeatedAt(accounts, k)
    ensures r.Some? ==> exists i :: RepeatedAt(accounts, i) && accounts[i].name == r.value
                                 && forall k :: 0 <= k < i ==> !RepeatedAt(accounts, k)
  {
    var i := FirstRepeated(accounts);
    if i == -1 then None else Some(accounts[i].name)
  }

  /** The nested loops of `CheckUniqueAccounts`. */
  method FindRepeated(accounts: seq<Person?>) returns (r: int)
    ensures r == FirstRepeated(accounts)
  {
    r := -1;
    var i := 0;
    while i < |accounts| && r == -1
      invariant 0 <= i <= |accounts|
      invariant r == -1 ==> forall k :: 0 <= k < i ==> !RepeatedAt(accounts, k)
      invariant r != -1 ==>
        r == i - 1 && RepeatedAt(accounts, r) && forall k :: 0 <= k < r ==> !RepeatedAt(accounts, k)
    {
      if Checked(accounts[i]) {
        var j := i + 1;
        while j < |accounts| && r == -1
          invariant i + 1 <= j <= |accounts|
          invariant r == -1 ==> forall m :: i < m < j ==> accounts[m] != accounts[i]
          invariant r != -1 ==> r == i && RepeatedAt(accounts, i)
        {
          if accounts[i] == accounts[j] {
            r := i;
          }
          j := j + 1;
        }
      }
      i := i + 1;
    }
    FirstRepeatedIs(accounts, r);
  }

  /** A position with no earlier repetition that repeats is the first one. */
  lemma FirstRepeatedIs(accounts: seq<Person?>, r: int)
    requires -1 <= r < |accounts|
    requires r >= 0 ==> RepeatedAt(accounts, r) && forall k :: 0 <= k < r ==> !RepeatedAt(accounts, k)
    requires r == -1 ==> forall k :: 0 <= k < |accounts| ==> !RepeatedAt(accounts, k)
    ensures r == FirstRepeated(accounts)
  {
  }

  // ---------------------------------------------------------------------------
  // Choosing a computer account

  /** The position of `a` in the computer list, or -1 (`Array.IndexOf`). */
  function PositionOf(computers: seq<Person>, a: Person?): (r: int)
    ensures -1 <= r < |computers|
    ensures r >= 0 ==> computers[r] == a && forall k :: 0 <= k < r ==> computers[k] != a
    ensures r == -1 ==> forall k :: 0 <= k < |computers| ==> computers[k] != a
  {
    if |computers| == 0 then -1
    else if computers[0] == a then 0
    else var k := PositionOf(computers[1..], a); if k == -1 then -1 else k + 1
  }

  /** `Random.Next(bound)` for a non-negative bound, driven by `seed`. */
  function Draw(bound: int, seed: nat): (r: int)
    requires bound >= 0
    ensures bound == 0 ==> r == 0
    ensures bound > 0 ==> 0 <= r < bound
  {
    if bound == 0 then 0 else seed % bound
  }

  /** Every integer of `[lo, hi)` occurs in `s`. */
  predicate RangeIn(lo: int, hi: int, s: seq<int>)
  {
    forall x :: lo <= x < hi ==> x in s
  }

  /** The integers of `[lo, hi)`. */
  function Range(lo: int, hi: int): (r: set<int>)
    ensures forall x :: x in r <==> lo <= x < hi
    ensures lo <= hi ==> |r| == hi - lo
    decreases hi - lo
  {
    if lo >= hi then {} else {lo} + Range(lo + 1, hi)
  }

  /** A list holding every integer of a range is at least as long as the
      range. */
  lemma RangeInBound(lo: int, hi: int, s: seq<int>)
    requires lo <= hi && RangeIn(lo, hi, s)
    ensures hi - lo <= |s|
  {
    SubsetOfSeq(Range(lo, hi), s);
  }

  /** A set whose elements all occur in a list is no larger than the list. */
  lemma {:induction false} SubsetOfSeq(r: set<int>, s: seq<int>)
    requires forall x :: x in r ==> x in s
    ensures |r| <= |s|
    decreases |s|
  {
    if |s| > 0 {
      var rest := r - {s[0]};
      forall x | x in rest
        ensures x in s[1..]
      {
        var k :| 0 <= k < |s| && s[k] == x;
        assert s[1..][k - 1] == x;
      }
      SubsetOfSeq(rest, s[1..]);
      if s[0] in r {
        assert r == rest + {s[0]};
      } else {
        assert r == rest;
      }
    } else {
      assert forall x :: x !in r;
      assert r == {};
    }
  }

  /** The increment loop of `UpdatePlayer`: the first integer from `i` on
      that no other computer seat uses. */
  function FreeFrom(start: int, i: int, visited: seq<int>): (r: int)
    requires start <= i && RangeIn(start, i, visited)
    ensures i <= r && r !in visited && RangeIn(start, r, visited)
    decreases |visited| - (i - start)
  {
    if i in visited then
      RangeInBound(start, i + 1, visited);
      FreeFrom(start, i + 1, visited)
    else i
  }

  /** The position in the computer list that `UpdatePlayer` selects for a
      computer seat: a random start below `count - |visited| - 1`, moved up
      past the positions the other computer seats use. `None` where the
      generator is given a negative bound and throws. */
  function Picked(count: int, visited: seq<int>, seed: nat): Option<int>
  {
    var bound := count - |visited| - 1;
    if bound < 0 then None
    else
      var start := Draw(bound, seed);
      Some(FreeFrom(start, start, visited))
  }

  /** The selected position is a real entry of the list that no other computer
      seat uses; when the random bound is positive it is below the trailing
      "New…" entry; the pick fails only for a negative bound. */
  lemma PickedComputer(count: int, visited: seq<int>, seed: nat)
    ensures Picked(count, visited, seed).None? <==> count - |visited| - 1 < 0
    ensures Picked(count, visited, seed).Some? ==>
      0 <= Picked(count, visited, seed).value < count
      && Picked(count, visited, seed).value !in visited
    ensures count - |visited| - 1 > 0 ==> Picked(count, visited, seed).value < count - 1
  {
    var bound := count - |visited| - 1;
    if bound >= 0 {
      var start := Draw(bound, seed);
      RangeInBound(start, FreeFrom(start, start, visited), visited);
    }
  }

  /** The random start and the increment loop of `UpdatePlayer`. */
  method PickComputer(count: int, visited: seq<int>, seed: nat) returns (index: Option<int>)
    ensures index == Picked(count, visited, seed)
  {
    var bound := count - |visited| - 1;
    if bound < 0 {
      index := None;
    } else {
      var start := Draw(bound, seed);
      var i := start;
      while i in visited
        invariant start <= i && RangeIn(start, i, visited)
        invariant FreeFrom(start, i, visited) == FreeFrom(start, start, visited)
        decreases |visited| - (i - start)
      {
        RangeInBound(start, i + 1, visited);
        i := i + 1;
      }
      index := Some(i);
    }
  }

  // ---------------------------------------------------------------------------
  // Seats

  /** The number of computer seats other than `except`. */
  function ComputerSeats(players: seq<Slot>, except: Slot?): (r: nat)
    ensures r <= |players|
  {
    if |players| == 0 then 0
    else
      var last := players[|players| - 1];
      ComputerSeats(players[..|players| - 1], except)
      + (if last != except && last.kind == ComputerKind then 1 else 0)
  }

  /** The `visited` list of `UpdatePlayer`: the positions in the computer list
      of the accounts the other computer seats show, in seat order; one entry
      per other computer seat. */
  function VisitedOf(players: seq<Slot>, player: Slot, computers: seq<Person>): (r: seq<int>)
    reads players
    ensures |r| == ComputerSeats(players, player)
    ensures forall x :: x in r ==> -1 <= x < |computers|
  {
    if |players| == 0 then []
    else
      var last := players[|players| - 1];
      VisitedOf(players[..|players| - 1], player, computers)
      + (if last != player && last.kind == ComputerKind then [PositionOf(computers, last.selected)] else [])
  }

  /** A seat appended last is not counted against itself. */
  lemma ComputerSeatsLast(players: seq<Slot>, s: Slot)
    ensures ComputerSeats(players + [s], s) == ComputerSeats(players, s)
  {
    assert (players + [s])[..|players|] == players;
  }

  /** The selected accounts of the seats, in order. */
  function SelectedOf(players: seq<Slot>): (r: seq<Person?>)
    reads players
    ensures |r| == |players| && forall k :: 0 <= k < |players| ==> r[k] == players[k].selected
  {
    if |players| == 0 then [] else SelectedOf(players[..|players| - 1]) + [players[|players| - 1].selected]
  }

  /** The kind `PrepareForGame` gives seat `i`. */
  function SeatKind(i: nat, role: Role, network: bool, types: Option<seq<AccountKind>>): AccountKind
  {
    if role == PlayerRole && i == PlayerNumber then HumanKind
    else if !network || types.None? || i >= |types.value| || types.value[i] == ComputerKind then ComputerKind
    else HumanKind
  }

  /** The removal loop of the `PlayersCount` setter: `RemoveAt(count - 1)`
      while `count` is above `value`, and whether it ends without an index
      outside the list. */
  function RemoveDown<T>(seats: seq<T>, count: int, value: int): (seq<T>, bool)
    decreases count - value
  {
    if count <= value then (seats, true)
    else if !(0 <= count - 1 < |seats|) then (seats, false)
    else RemoveDown(seats[..count - 1] + seats[count..], count - 1, value)
  }

  /** Shrinking removes exactly the seats at positions `value` to `count - 1`
      when those exist; a count above the seats, or not above zero, throws at
      once and removes nothing, and a negative target throws after emptying
      the front of the list. */
  lemma {:induction false} RemoveDownRange<T>(seats: seq<T>, count: int, value: int)
    requires value < count
    ensures RemoveDown(seats, count, value)
      == if count <= 0 || count > |seats| then (seats, false)
         else if value < 0 then (seats[count..], false)
         else (seats[..value] + seats[count..], true)
    decreases count - value
  {
    if 0 < count <= |seats| {
      var rest := seats[..count - 1] + seats[count..];
      if value < count - 1 {
        RemoveDownRange(rest, count - 1, value);
        if count - 1 == 0 {
          assert rest == seats[count..];
        } else if value < 0 {
          assert rest[count - 1..] == seats[count..];
        } else {
          assert rest[..value] + rest[count - 1..] == seats[..value] + seats[count..];
        }
      }
    }
  }

  class GameSettingsView {
    var players: seq<Slot>
    /** The accounts of the viewer entries (SimpleAccount wrappers are not
        modelled). */
    var viewers: seq<Person?>
    var showman: Slot?
    /** `_model.PlayersCount`. */
    var playersCount: int
    /** `_computerPlayers`: the stored computer players and, last, the
        "New…" entry. */
    const computers: seq<Person>
    /** `_computerShowmans`, also ending with a "New…" entry. */
    const computerShowmans: seq<Person>
    const human: Person
    var unique: Option<string>
    var errorMessage: SettingsError
    /** `BeginGame.CanBeExecuted`. */
    var canBegin: bool
    var fullError: Option<string>
    /** A package is selected. */
    var hasPackage: bool
    var networkGame: bool
    var networkKind: NetworkKind
    var gameName: string
    var port: int
    var role: Role

    /** The view-model over saved settings whose player count is
        `playersCount`, for a network game or not; the seat list starts empty
        whatever that count is. */
    constructor (human: Person, computers: seq<Person>, computerShowmans: seq<Person>, playersCount: int,
      networkGame: bool)
      ensures this.human == human && this.computers == computers
      ensures this.computerShowmans == computerShowmans
      ensures players == [] && viewers == [] && showman == null && this.playersCount == playersCount
      ensures this.networkGame == networkGame
      ensures unique.None? && !hasPackage && role == PlayerRole
    {
      this.human := human;
      this.computers := computers;
      this.computerShowmans := computerShowmans;
      players := [];
      viewers := [];
      showman := null;
      this.playersCount := playersCount;
      unique := None;
      errorMessage := NoError;
      canBegin := false;
      fullError := None;
      hasPackage := false;
      this.networkGame := networkGame;
      networkKind := GameServer;
      gameName := "";
      port := 0;
      role := PlayerRole;
    }

    /** The accounts `CheckUniqueAccounts` compares: players, viewers, then
        the showman when there is one. */
    function Accounts(): seq<Person?>
      reads this`players, this`viewers, this`showman, players, showman
    {
      SelectedOf(players) + viewers + (if showman != null then [showman.selected] else [])
    }

    /** A human seat shows the organiser in a local game, or in the organiser's
        own seat when they play; otherwise a free place. */
    predicate HumanSeat(player: Slot)
      reads this
    {
      !networkGame || (role == PlayerRole && 0 <= PlayerNumber < |players| && players[PlayerNumber] == player)
    }

    /** Shows the first failing check; the game can begin only without one. */
    method SetErrorMessage()
      modifies this`errorMessage, this`canBegin, this`fullError
      ensures errorMessage == ErrorFor(hasPackage, unique, networkGame, networkKind, gameName, port)
      ensures canBegin <==> errorMessage == NoError
      ensures errorMessage == NoError ==> fullError.None?
      ensures errorMessage != NoError ==> fullError == old(fullError)
    {
      if !hasPackage {
        errorMessage := NoPackage;
        canBegin := false;
      } else if unique.Some? {
        errorMessage := Duplicate(unique.value);
        canBegin := false;
      } else if networkGame && networkKind == GameServer && gameName == "" {
        errorMessage := NameRequired;
        canBegin := false;
      } else if networkGame && networkKind == DirectConnection && port == 0 {
        errorMessage := PortRequired;
        canBegin := false;
      } else {
        errorMessage := NoError;
        fullError := None;
        canBegin := true;
      }
    }

    /** Records the first account that occurs twice, then refreshes the error. */
    method CheckUniqueAccounts()
      modifies this`unique, this`errorMessage, this`canBegin, this`fullError
      ensures unique == DuplicateName(Accounts())
      ensures errorMessage == ErrorFor(hasPackage, unique, networkGame, networkKind, gameName, port)
      ensures canBegin <==> errorMessage == NoError
      ensures errorMessage == NoError ==> fullError.None?
      ensures errorMessage != NoError ==> fullError == old(fullError)
    {
      var accounts := Accounts();
      var r := FindRepeated(accounts);
      unique := if r == -1 then None else Some(accounts[r].name);
      SetErrorMessage();
    }

    /** The `visited` loop of `UpdatePlayer`. */
    method Visited(player: Slot) returns (visited: seq<int>)
      ensures visited == VisitedOf(players, player, computers)
    {
      visited := [];
      var i := 0;
      while i < |players|
        invariant 0 <= i <= |players|
        invariant visited == VisitedOf(players[..i], player, computers)
      {
        assert players[..i + 1][..i] == players[..i];
        if players[i] != player && players[i].kind == ComputerKind {
          visited := visited + [PositionOf(computers, players[i].selected)];
        }
        i := i + 1;
      }
      assert players[..i] == players;
    }

    /** Fills a seat: a human seat gets the organiser or a new free-place
        account; a computer seat that is forced, or does not list the computer
        players yet, gets a computer account no other computer seat uses.
        `ok` is false where the source throws, and then the seat is unchanged. */
    method UpdatePlayer(player: Slot, force: bool, seed: nat) returns (ok: bool)
      modifies player
      ensures player.kind == HumanKind ==>
        ok && !player.listsComputers && player.selected != null
        && (HumanSeat(player) ==> player.selected == human)
        && (!HumanSeat(player) ==> fresh(player.selected) && player.selected.name == FreePlace)
      ensures player.kind == ComputerKind && (force || !old(player.listsComputers)) ==>
        var pick := Picked(|computers|, old(VisitedOf(players, player, computers)), seed);
        (ok <==> pick.Some?)
        && (pick.Some? ==>
              0 <= pick.value < |computers| && player.selected == computers[pick.value]
              && player.listsComputers == (!force || old(player.listsComputers)))
        && (pick.None? ==> unchanged(player))
      ensures player.kind == ComputerKind && !force && old(player.listsComputers) ==> ok && unchanged(player)
    {
      ok := true;
      if player.kind == HumanKind {
        if HumanSeat(player) {
          player.selected := human;
        } else {
          var free := new Person(FreePlace);
          player.selected := free;
        }
        player.listsComputers := false;
      } else if force || !player.listsComputers {
        var visited := Visited(player);
        var index := PickComputer(|computers|, visited, seed);
        PickedComputer(|computers|, visited, seed);
        if index.None? {
          ok := false;
        } else {
          if !force {
            player.listsComputers := true;
          }
          player.selected := computers[index.value];
        }
      }
    }

    /** Appends a new seat of the given kind to the player list; the list's
        change handler then fills it. */
    method AddSeat(kind: AccountKind, selected: Person?, seed: nat) returns (s: Slot, ok: bool)
      modifies this`players
      ensures fresh(s) && s.kind == kind && players == old(players) + [s]
      ensures kind == HumanKind ==>
        ok && s.selected != null
        && (HumanSeat(s) ==> s.selected == human)
        && (!HumanSeat(s) ==> s.selected.name == FreePlace)
      ensures kind == ComputerKind && ok ==> s.selected != null && s.selected in computers
      ensures kind == ComputerKind && |old(players)| < |computers| ==> ok
    {
      s := new Slot(kind, selected);
      ComputerSeatsLast(players, s);
      players := players + [s];
      ok := UpdatePlayer(s, false, seed);
    }

    /** The `PlayersCount` setter, which works from the stored count whatever
        the seat list holds. Growing from count `c` to `value` appends
        `value - c` computer seats, each filled with the `draws` seed of its
        order; shrinking runs RemoveDown. `ok` is false where the source
        throws: a removal outside the list, or a computer seat for which no
        computer account is left (the seat stays, unfilled, and no more are
        added). */
    method SetPlayersCount(value: int, draws: nat -> nat) returns (ok: bool)
      modifies this`players, this`playersCount
      ensures playersCount == value
      ensures value == old(playersCount) ==> ok && players == old(players)
      ensures value < old(playersCount) ==> (players, ok) == RemoveDown(old(players), old(playersCount), value)
      ensures value > old(playersCount) ==>
        var n0, steps := |old(players)|, value - old(playersCount);
        n0 < |players| <= n0 + steps && players[..n0] == old(players)
        && (forall k :: n0 <= k < |players| ==> fresh(players[k]) && players[k].kind == ComputerKind)
        && (ok ==> |players| == n0 + steps)
        && (n0 + steps <= |computers| ==> ok)
        && (ok ==> forall k :: n0 <= k < |players| ==>
                      players[k].selected != null && players[k].selected in computers)
    {
      var n0, c0 := |players|, playersCount;
      ok := true;
      if c0 < value {
        playersCount := value;
        var count := c0;
        while count < value && ok
          invariant c0 <= count <= value && |players| == n0 + (count - c0)
          invariant players[..n0] == old(players)
          invariant forall k :: n0 <= k < |players| ==> fresh(players[k]) && players[k].kind == ComputerKind
          invariant ok ==> forall k :: n0 <= k < |players| ==>
                             players[k].selected != null && players[k].selected in computers
          invariant n0 + (value - c0) <= |computers| ==> ok
          invariant ok || c0 < count
          invariant playersCount == value
        {
          var seat, added := AddSeat(ComputerKind, null, draws(count - c0));
          ok := added;
          count := count + 1;
        }
      } else if value < c0 {
        playersCount := value;
        var count := c0;
        while count > value && ok
          invariant value <= count <= c0
          invariant ok ==> RemoveDown(players, count, value) == RemoveDown(old(players), c0, value)
          invariant !ok ==> RemoveDown(old(players), c0, value) == (players, false)
          invariant playersCount == value
          decreases count - value, ok
        {
          if !(0 <= count - 1 < |players|) {
            ok := false;
          } else {
            players := players[..count - 1] + players[count..];
            count := count - 1;
          }
        }
      }
    }

    /** The seat loop of `PrepareForGame`: `playersCount` new seats with the
        organiser in seat `PlayerNumber` when they play, the other seats
        computer ones unless a network game keeps them human, as `types`
        records. `ok` is false where filling a computer seat throws; the seats
        laid out so far stay. */
    method LayOutSeats(types: Option<seq<AccountKind>>, draws: nat -> nat) returns (ok: bool)
      modifies this`players
      ensures ok ==> |players| == (if playersCount < 0 then 0 else playersCount)
      ensures playersCount <= |computers| ==> ok
      ensures forall k :: 0 <= k < |players| ==>
        fresh(players[k]) && players[k].kind == SeatKind(k, role, networkGame, types)
      ensures role == PlayerRole && 0 <= PlayerNumber < |players| ==> players[PlayerNumber].selected == human
      ensures forall k :: 0 <= k < |players| && players[k].kind == HumanKind && !(role == PlayerRole && k == PlayerNumber) ==>
        players[k].selected != null && players[k].selected.name == FreePlace
      ensures ok ==> forall k :: 0 <= k < |players| && players[k].kind == ComputerKind ==>
        players[k].selected != null && players[k].selected in computers
    {
      players := [];
      var anyAccount := new Person(FreePlace);
      ok := true;
      var i := 0;
      while i < playersCount && ok
        invariant 0 <= i == |players| && (i <= playersCount || i == 0)
        invariant forall k :: 0 <= k < |players| ==>
          fresh(players[k]) && players[k].kind == SeatKind(k, role, networkGame, types)
        invariant role == PlayerRole && 0 <= PlayerNumber < |players| ==> players[PlayerNumber].selected == human
        invariant forall k :: 0 <= k < |players| && players[k].kind == HumanKind && !(role == PlayerRole && k == PlayerNumber) ==>
          players[k].selected != null && players[k].selected.name == FreePlace
        invariant ok ==> forall k :: 0 <= k < |players| && players[k].kind == ComputerKind ==>
          players[k].selected != null && players[k].selected in computers
        invariant playersCount <= |computers| ==> ok
        invariant !ok ==> i > 0
      {
        var kind := SeatKind(i, role, networkGame, types);
        var selected: Person? := if role == PlayerRole && i == PlayerNumber then human
          else if kind == ComputerKind then null else anyAccount;
        var seat, added := AddSeat(kind, selected, draws(i));
        ok := added;
        i := i + 1;
      }
    }

    /** The showman `PrepareForGame` creates when there is none, after the
        showman setter has filled it: the organiser when they host, a computer
        showman in a local game or when `showmanType` says so, and a free place
        otherwise. */
    method NewShowman(showmanType: AccountKind) returns (seat: Slot)
      requires |computerShowmans| > 0
      ensures fresh(seat) && seat.selected != null
      ensures role == ShowmanRole ==> seat.kind == HumanKind && seat.selected == human
      ensures role != ShowmanRole ==>
        if !networkGame || showmanType == ComputerKind
        then seat.kind == ComputerKind && seat.selected == computerShowmans[0]
        else seat.kind == HumanKind && seat.selected.name == FreePlace
    {
      if role == ShowmanRole {
        seat := new Slot(HumanKind, human);
      } else if !networkGame || showmanType == ComputerKind {
        seat := new Slot(ComputerKind, computerShowmans[0]);
      } else {
        var free := new Person(FreePlace);
        seat := new Slot(HumanKind, free);
      }
    }

    /** Lays out the seats for the game: the organiser alone among the viewers
        when they watch, the seats of `LayOutSeats`, and a showman if there is
        none and every seat was filled. */
    method PrepareForGame(types: Option<seq<AccountKind>>, showmanType: AccountKind, draws: nat -> nat)
      returns (ok: bool)
      requires |computerShowmans| > 0
      modifies this`players, this`viewers, this`showman
      ensures viewers == (if role == ViewerRole then [human] else [])
      ensures ok ==> |players| == (if playersCount < 0 then 0 else playersCount)
      ensures playersCount <= |computers| ==> ok
      ensures forall k :: 0 <= k < |players| ==>
        fresh(players[k]) && players[k].kind == SeatKind(k, role, networkGame, types)
      ensures role == PlayerRole && 0 <= PlayerNumber < |players| ==> players[PlayerNumber].selected == human
      ensures forall k :: 0 <= k < |players| && players[k].kind == HumanKind && !(role == PlayerRole && k == PlayerNumber) ==>
        players[k].selected != null && players[k].selected.name == FreePlace
      ensures ok ==> forall k :: 0 <= k < |players| && players[k].kind == ComputerKind ==>
        players[k].selected != null && players[k].selected in computers
      ensures old(showman) != null || !ok ==> showman == old(showman)
      ensures ok && old(showman) == null ==> showman != null && fresh(showman) && showman.selected != null
      ensures ok && old(showman) == null && role == ShowmanRole ==>
        showman.kind == HumanKind && showman.selected == human
      ensures ok && old(showman) == null && role != ShowmanRole ==>
        if !networkGame || showmanType == ComputerKind
        then showman.kind == ComputerKind && showman.selected == computerShowmans[0]
        else showman.kind == HumanKind && showman.selected.name == FreePlace
    {
      viewers := if role == ViewerRole then [human] else [];
      ok := LayOutSeats(types, draws);
      if ok && showman == null {
        showman := NewShowman(showmanType);
      }
    }
  }
}

/** The pure rules of the game session (`Game` in
    src/SICore/SICore/Clients/Game/Game.cs): the participant record, the seat
    search used when someone joins, the re-normalisation of stored player
    indices after a seat is deleted, and the validation of stakes, cat costs
    and final stakes. The session class in module GameSession applies them
    to its mutable state. */
module GameRules {
  import opened Common

  /** A participant's role at the table (GameRole). */
  datatype Role = ShowmanRole | PlayerRole | ViewerRole

  /** A participant account (ViewerAccount, GamePersonAccount and
      GamePlayerAccount flattened into one record; the player-only fields are
      unused for the showman and the viewers). */
  datatype Account = Account(
    name: string,
    isMale: bool,
    isHuman: bool,
    isConnected: bool,
    picture: string,
    ready: bool,
    sum: int,
    stakeMaking: bool,
    flag: bool,
    inGame: bool,
    finalStake: int)

  /** One entry of QuestionHistory: who answered the current question and
      whether the answer was accepted. */
  datatype AnswerResult = AnswerResult(playerIndex: int, isRight: bool)

  /** The sentinel name of a vacant seat. */
  const FreePlace: string := " "

  /** Most seats a table may have. */
  const MaxPlayers: int := 12

  /** Number of game timers (turn, thinking, pre-game countdown). */
  const TimersCount: int := 3

  /** A fresh vacant human seat, as AddTable and the synthetic viewer slot create it. */
  function FreeSeat(): (a: Account)
    ensures a.name == FreePlace && a.isHuman && !a.isConnected
  {
    Account(FreePlace, false, true, false, "", false, 0, false, false, false, -1)
  }

  // ---------------------------------------------------------------------------
  // Seat search (Join and CheckAccountNew)

  /** What scanning a candidate list for `name` finds: a seat already taken by
      a connected account of that name, the first seat that is not connected,
      or nothing. */
  datatype ClaimScan = Occupied | ClaimAt(index: nat) | NoPlace

  /** Scans `accounts` from position `from` as Join does: a connected account
      with the same name stops the scan with "place occupied", a connected
      account with another name is skipped, and the first account that is not
      connected is claimed. */
  function ScanFrom(accounts: seq<Account>, name: string, from: nat): (r: ClaimScan)
    requires from <= |accounts|
    ensures r.ClaimAt? ==> from <= r.index < |accounts| && !accounts[r.index].isConnected
    ensures r.ClaimAt? ==> forall j :: from <= j < r.index ==>
      accounts[j].isConnected && accounts[j].name != name
    ensures r.Occupied? ==> exists i :: (from <= i < |accounts| && accounts[i].isConnected
      && accounts[i].name == name
      && forall j :: from <= j < i ==> accounts[j].isConnected)
    ensures r.NoPlace? ==> forall j :: from <= j < |accounts| ==>
      accounts[j].isConnected && accounts[j].name != name
    decreases |accounts| - from
  {
    if from == |accounts| then NoPlace
    else if !accounts[from].isConnected then ClaimAt(from)
    else if accounts[from].name == name then Occupied
    else ScanFrom(accounts, name, from + 1)
  }

  function Scan(accounts: seq<Account>, name: string): ClaimScan
  {
    ScanFrom(accounts, name, 0)
  }

  /** A free seat is claimed whenever one exists and no connected account of
      the same name stands before it. */
  lemma {:induction false} ScanFindsFreeSeat(accounts: seq<Account>, name: string, i: nat)
    requires i < |accounts| && !accounts[i].isConnected
    requires forall j :: 0 <= j < i ==> accounts[j].name != name || !accounts[j].isConnected
    ensures Scan(accounts, name).ClaimAt? && Scan(accounts, name).index <= i
  {
    ScanFindsFreeSeatFrom(accounts, name, i, 0);
  }

  lemma {:induction false} ScanFindsFreeSeatFrom(accounts: seq<Account>, name: string, i: nat, from: nat)
    requires from <= i < |accounts| && !accounts[i].isConnected
    requires forall j :: from <= j < i ==> accounts[j].name != name || !accounts[j].isConnected
    ensures ScanFrom(accounts, name, from).ClaimAt? && ScanFrom(accounts, name, from).index <= i
    decreases i - from
  {
    if accounts[from].isConnected {
      ScanFindsFreeSeatFrom(accounts, name, i, from + 1);
    }
  }

  /** The account after CheckAccountNew has claimed it for `name`. */
  function Claimed(a: Account, name: string, isMale: bool): (r: Account)
    ensures r.name == name && r.isMale == isMale && r.picture == "" && r.isConnected
    ensures r.isHuman == a.isHuman && r.ready == a.ready && r.sum == a.sum
    ensures r.stakeMaking == a.stakeMaking && r.flag == a.flag
    ensures r.inGame == a.inGame && r.finalStake == a.finalStake
  {
    a.(name := name, isMale := isMale, picture := "", isConnected := true)
  }

  /** The first player whose name is `name`, or -1. */
  function FirstNamed(players: seq<Account>, name: string): (r: int)
    ensures -1 <= r < |players|
    ensures r >= 0 ==> players[r].name == name
    ensures forall j :: 0 <= j < |players| && (r == -1 || j < r) ==> players[j].name != name
  {
    if players == [] then -1
    else
      var r := FirstNamed(players[..|players| - 1], name);
      if r >= 0 then r
      else if players[|players| - 1].name == name then |players| - 1
      else -1
  }

  /** The names of the connected accounts of a roster (the keys of AllPersons). */
  function ConnectedNames(accounts: seq<Account>): (r: set<string>)
    ensures forall i :: 0 <= i < |accounts| && accounts[i].isConnected ==> accounts[i].name in r
    ensures forall n :: n in r ==> exists i :: 0 <= i < |accounts| && accounts[i].isConnected && accounts[i].name == n
  {
    set i | 0 <= i < |accounts| && accounts[i].isConnected :: accounts[i].name
  }

  /** The viewer list after candidate `k` of the viewers followed by the
      synthetic free slot has been claimed: the claimed viewer is updated in
      place, and a claimed free-place account is also appended as a copy. */
  function ViewersAfterClaim(viewers: seq<Account>, k: nat, name: string, isMale: bool): (r: seq<Account>)
    requires k <= |viewers|
    ensures k == |viewers| ==> r == viewers + [Claimed(FreeSeat(), name, isMale)]
    ensures k < |viewers| && viewers[k].name != FreePlace ==> r == viewers[k := Claimed(viewers[k], name, isMale)]
    ensures k < |viewers| && viewers[k].name == FreePlace
      ==> r == viewers[k := Claimed(viewers[k], name, isMale)] + [Claimed(viewers[k], name, isMale)]
  {
    var candidate := if k < |viewers| then viewers[k] else FreeSeat();
    var c := Claimed(candidate, name, isMale);
    (if k < |viewers| then viewers[k := c] else viewers) + (if candidate.name == FreePlace then [c] else [])
  }

  /** The first player still in the final round who has not staked yet and is
      named `name`, or -1. */
  function FirstFinalStaker(players: seq<Account>, name: string): (r: int)
    ensures -1 <= r < |players|
    ensures r >= 0 ==> players[r].inGame && players[r].finalStake == -1 && players[r].name == name
    ensures forall j :: 0 <= j < |players| && (r == -1 || j < r) ==>
      !(players[j].inGame && players[j].finalStake == -1 && players[j].name == name)
  {
    if players == [] then -1
    else
      var r := FirstFinalStaker(players[..|players| - 1], name);
      var last := players[|players| - 1];
      if r >= 0 then r
      else if last.inGame && last.finalStake == -1 && last.name == name then |players| - 1
      else -1
  }

  /** A Ready message from `sender` changes this main person: it is the
      sender's account and holds the other value. */
  predicate ChangesReady(a: Account, sender: string, toReady: bool)
  {
    a.name == sender && a.ready != toReady
  }

  /** A main person after a Ready message from `sender`. */
  function ReadyFor(a: Account, sender: string, toReady: bool): (r: Account)
    ensures r.ready == (if a.name == sender then toReady else a.ready)
    ensures r.(ready := a.ready) == a
  {
    if ChangesReady(a, sender, toReady) then a.(ready := toReady) else a
  }

  // ---------------------------------------------------------------------------
  // Index re-normalisation after a seat is removed (DropPlayerIndex)

  /** A stored player index after the seat `p` has been removed: indices above
      `p` move down by one. */
  function Shift(x: int, p: int): (r: int)
    ensures x > p ==> r == x - 1
    ensures x <= p ==> r == x
  {
    if x > p then x - 1 else x
  }

  /** The auction order with every entry equal to `p` dropped and the other
      entries shifted, in their original order. */
  function KeptOrder(order: seq<int>, p: int): (r: seq<int>)
    ensures |r| <= |order|
  {
    if order == [] then []
    else
      var last := order[|order| - 1];
      KeptOrder(order[..|order| - 1], p) + (if last == p then [] else [Shift(last, p)])
  }

  function CountOf(s: seq<int>, x: int): nat
  {
    if s == [] then 0 else CountOf(s[..|s| - 1], x) + (if s[|s| - 1] == x then 1 else 0)
  }

  lemma {:induction false} KeptOrderLength(order: seq<int>, p: int)
    ensures |KeptOrder(order, p)| == |order| - CountOf(order, p)
  {
    if order != [] {
      KeptOrderLength(order[..|order| - 1], p);
    }
  }

  /** Nothing is kept exactly when every entry was the removed seat. */
  lemma {:induction false} KeptOrderEmpty(order: seq<int>, p: int)
    ensures KeptOrder(order, p) == [] <==> forall k :: 0 <= k < |order| ==> order[k] == p
  {
    if order != [] {
      var i := |order| - 1;
      KeptOrderEmpty(order[..i], p);
      assert forall k :: 0 <= k < i ==> order[..i][k] == order[k];
    }
  }

  /** Taking one more position of the order extends the kept entries by at
      most that position. */
  lemma KeptOrderStep(order: seq<int>, p: int, i: nat)
    requires i < |order|
    ensures KeptOrder(order[..i + 1], p)
      == KeptOrder(order[..i], p) + (if order[i] == p then [] else [Shift(order[i], p)])
  {
    assert order[..i + 1][..i] == order[..i];
  }

  /** The kept entries of a prefix are a prefix of the kept entries of the whole order. */
  lemma {:induction false} KeptOrderPrefix(order: seq<int>, p: int, i: nat)
    requires i <= |order|
    ensures |KeptOrder(order[..i], p)| <= |KeptOrder(order, p)|
    ensures KeptOrder(order[..i], p) == KeptOrder(order, p)[..|KeptOrder(order[..i], p)|]
    decreases |order| - i
  {
    if i < |order| {
      KeptOrderPrefix(order, p, i + 1);
      KeptOrderStep(order, p, i);
    } else {
      assert order[..i] == order;
    }
  }

  /** The number of order positions the rebuilding loop visits before the new
      array of `n` entries is full (it stops right after the `n`-th kept entry). */
  function StopAt(order: seq<int>, p: int, n: nat, i: nat): (r: nat)
    requires i <= |order|
    ensures i <= r <= |order|
    decreases |order| - i
  {
    if i == |order| || |KeptOrder(order[..i], p)| >= n then i
    else StopAt(order, p, n, i + 1)
  }

  function Zeros(m: nat): (r: seq<int>)
    ensures |r| == m && forall k :: 0 <= k < m ==> r[k] == 0
  {
    if m == 0 then [] else Zeros(m - 1) + [0]
  }

  /** The new auction order for `n` remaining players: the first `n` kept
      entries, padded with zeros (the default of a fresh `int[n]`) if fewer
      remain. */
  function OrderAfterDrop(order: seq<int>, p: int, n: nat): (r: seq<int>)
    ensures |r| == n
  {
    var kept := KeptOrder(order, p);
    if |kept| >= n then kept[..n] else kept + Zeros(n - |kept|)
  }

  /** When the rebuilding loop stops, the array it filled is OrderAfterDrop
      and it has visited exactly StopAt positions. */
  lemma RebuiltOrderDone(order: seq<int>, p: int, n: nat, i: nat, j: nat, filled: seq<int>)
    requires i <= |order| && j <= n && |filled| == n
    requires filled[..j] == KeptOrder(order[..i], p)
    requires forall t :: j <= t < n ==> filled[t] == 0
    requires StopAt(order, p, n, 0) == StopAt(order, p, n, i)
    requires !(i < |order| && j < n)
    ensures filled == OrderAfterDrop(order, p, n)
    ensures StopAt(order, p, n, 0) == i
  {
    KeptOrderPrefix(order, p, i);
    if j < n {
      assert order[..i] == order;
      assert filled == filled[..j] + filled[j..];
      assert filled[j..] == Zeros(n - j);
    } else {
      assert filled == filled[..j];
    }
  }

  /** OrderIndex after the loop has looked at the positions of `prefix`: it
      goes down by one for every dropped entry at a position not above its
      current value. */
  function IndexAfterScan(prefix: seq<int>, p: int, k: int): (r: int)
  {
    if prefix == [] then k
    else
      var i := |prefix| - 1;
      var k0 := IndexAfterScan(prefix[..i], p, k);
      if prefix[i] == p && k0 >= i then k0 - 1 else k0
  }

  /** One more position of the rebuilding loop, taken while the new array is
      not full: the kept entries and the index grow by that position alone,
      and the loop has not reached its stop. */
  lemma OrderScanStep(order: seq<int>, p: int, n: nat, i: nat, k: int)
    requires i < |order| && |KeptOrder(order[..i], p)| < n
    ensures order[i] == p ==> KeptOrder(order[..i + 1], p) == KeptOrder(order[..i], p)
    ensures order[i] != p ==> KeptOrder(order[..i + 1], p) == KeptOrder(order[..i], p) + [Shift(order[i], p)]
    ensures order[i] == p && IndexAfterScan(order[..i], p, k) >= i ==>
      IndexAfterScan(order[..i + 1], p, k) == IndexAfterScan(order[..i], p, k) - 1
    ensures !(order[i] == p && IndexAfterScan(order[..i], p, k) >= i) ==>
      IndexAfterScan(order[..i + 1], p, k) == IndexAfterScan(order[..i], p, k)
    ensures StopAt(order, p, n, i) == StopAt(order, p, n, i + 1)
  {
    KeptOrderStep(order, p, i);
    assert order[..i + 1][..i] == order[..i];
  }

  /** OrderIndex after DropPlayerIndex: the scan over the visited positions,
      then a pointer to the old last slot is moved to the new last slot. */
  function OrderIndexAfterDrop(order: seq<int>, p: int, n: nat, k: int): int
  {
    var k1 := IndexAfterScan(order[..StopAt(order, p, n, 0)], p, k);
    if k1 == |order| - 1 then n - 1 else k1
  }

  /** The entries of an auction order are players of a table of `count`
      seats or -1. */
  predicate OrderEntriesValid(order: seq<int>, count: int)
  {
    forall k :: 0 <= k < |order| ==> -1 <= order[k] < count
  }

  lemma {:induction false} KeptOrderValid(order: seq<int>, p: int, n: nat)
    requires 0 <= p <= n && OrderEntriesValid(order, n + 1)
    ensures OrderEntriesValid(KeptOrder(order, p), n)
  {
    if order != [] {
      KeptOrderValid(order[..|order| - 1], p, n);
    }
  }

  /** After a seat is removed from a table of `n + 1` seats, every entry of the
      rebuilt order is a seat of the remaining `n` or -1. */
  lemma OrderAfterDropValid(order: seq<int>, p: int, n: nat)
    requires 0 <= p <= n && n >= 1 && OrderEntriesValid(order, n + 1)
    ensures OrderEntriesValid(OrderAfterDrop(order, p, n), n)
  {
    KeptOrderValid(order, p, n);
  }

  lemma {:induction false} IndexAfterScanBounds(prefix: seq<int>, p: int, k: int)
    requires k >= -1
    ensures -1 <= IndexAfterScan(prefix, p, k) <= k
  {
    if prefix != [] {
      IndexAfterScanBounds(prefix[..|prefix| - 1], p, k);
    }
  }

  /** OrderIndex stays -1 or a position of the new order when it was -1 or a
      position of an order no longer than the old table. */
  lemma OrderIndexAfterDropValid(order: seq<int>, p: int, n: nat, k: int)
    requires n >= 1 && |order| <= n + 1 && -1 <= k < |order|
    ensures -1 <= OrderIndexAfterDrop(order, p, n, k) < n
  {
    IndexAfterScanBounds(order[..StopAt(order, p, n, 0)], p, k);
  }

  /** A prefix without the removed seat leaves OrderIndex as it is. */
  lemma {:induction false} IndexAfterScanNoDrop(prefix: seq<int>, p: int, k: int)
    requires forall j :: 0 <= j < |prefix| ==> prefix[j] != p
    ensures IndexAfterScan(prefix, p, k) == k
  {
    if prefix != [] {
      IndexAfterScanNoDrop(prefix[..|prefix| - 1], p, k);
    }
  }

  /** When the removed seat occurs once in the visited part of the order, at
      position `q`, OrderIndex goes down by one exactly when it was at or
      after `q`. */
  lemma {:induction false} IndexAfterScanSingleDrop(prefix: seq<int>, p: int, k: int, q: nat)
    requires q < |prefix| && prefix[q] == p
    requires forall j :: 0 <= j < |prefix| && j != q ==> prefix[j] != p
    ensures IndexAfterScan(prefix, p, k) == if k >= q then k - 1 else k
  {
    var i := |prefix| - 1;
    if i == q {
      IndexAfterScanNoDrop(prefix[..i], p, k);
    } else {
      IndexAfterScanSingleDrop(prefix[..i], p, k, q);
      var k0 := IndexAfterScan(prefix[..i], p, k);
      assert prefix[i] != p;
      assert IndexAfterScan(prefix, p, k) == k0;
    }
  }

  /** Rebuilt QuestionHistory: the entries of the removed player are dropped,
      the others keep their order and verdict, with indices shifted. */
  function HistoryAfterDrop(h: seq<AnswerResult>, p: int): (r: seq<AnswerResult>)
    ensures |r| <= |h|
  {
    if h == [] then []
    else
      var last := h[|h| - 1];
      HistoryAfterDrop(h[..|h| - 1], p)
        + (if last.playerIndex == p then [] else [AnswerResult(Shift(last.playerIndex, p), last.isRight)])
  }

  lemma HistoryAfterDropStep(h: seq<AnswerResult>, p: int, i: nat)
    requires i < |h|
    ensures HistoryAfterDrop(h[..i + 1], p) == HistoryAfterDrop(h[..i], p)
      + (if h[i].playerIndex == p then [] else [AnswerResult(Shift(h[i].playerIndex, p), h[i].isRight)])
  {
    assert h[..i + 1][..i] == h[..i];
  }

  predicate HistoryValid(h: seq<AnswerResult>, count: int)
  {
    forall k :: 0 <= k < |h| ==> 0 <= h[k].playerIndex < count
  }

  function CountAnswersOf(h: seq<AnswerResult>, p: int): nat
  {
    if h == [] then 0
    else CountAnswersOf(h[..|h| - 1], p) + (if h[|h| - 1].playerIndex == p then 1 else 0)
  }

  /** The rebuilt history refers only to the remaining seats. */
  lemma {:induction false} HistoryAfterDropValid(h: seq<AnswerResult>, p: int, n: nat)
    requires 0 <= p <= n && HistoryValid(h, n + 1)
    ensures HistoryValid(HistoryAfterDrop(h, p), n)
  {
    if h != [] {
      HistoryAfterDropValid(h[..|h| - 1], p, n);
    }
  }

  /** The rebuilt history loses exactly the removed player's answers, and
      every remaining entry comes from an answer of another player with the
      same verdict. */
  lemma {:induction false} HistoryAfterDropSound(h: seq<AnswerResult>, p: int, n: nat)
    requires 0 <= p <= n && HistoryValid(h, n + 1)
    ensures |HistoryAfterDrop(h, p)| == |h| - CountAnswersOf(h, p)
    ensures forall k :: 0 <= k < |HistoryAfterDrop(h, p)| ==> exists j :: (0 <= j < |h|
      && h[j].playerIndex != p && h[j].isRight == HistoryAfterDrop(h, p)[k].isRight
      && Shift(h[j].playerIndex, p) == HistoryAfterDrop(h, p)[k].playerIndex)
  {
    if h != [] {
      var i := |h| - 1;
      HistoryAfterDropSound(h[..i], p, n);
      var r0 := HistoryAfterDrop(h[..i], p);
      var r := HistoryAfterDrop(h, p);
      forall k | 0 <= k < |r| ensures exists j :: (0 <= j < |h|
        && h[j].playerIndex != p && h[j].isRight == r[k].isRight
        && Shift(h[j].playerIndex, p) == r[k].playerIndex)
      {
        if k < |r0| {
          assert r[k] == r0[k];
          var j :| 0 <= j < |h[..i]| && h[..i][j].playerIndex != p && h[..i][j].isRight == r0[k].isRight
            && Shift(h[..i][j].playerIndex, p) == r0[k].playerIndex;
          assert h[j] == h[..i][j];
        } else {
          assert h[i].playerIndex != p && r[k] == AnswerResult(Shift(h[i].playerIndex, p), h[i].isRight);
        }
      }
    }
  }

  /** The smallest score on the table (LINQ `Min`). */
  function MinSum(players: seq<Account>): (m: int)
    requires |players| > 0
    ensures forall j :: 0 <= j < |players| ==> m <= players[j].sum
    ensures exists j :: 0 <= j < |players| && players[j].sum == m
  {
    if |players| == 1 then players[0].sum
    else
      var m0 := MinSum(players[..|players| - 1]);
      var last := players[|players| - 1].sum;
      assert forall j :: 0 <= j < |players| - 1 ==> players[j] == players[..|players| - 1][j];
      if last < m0 then last else m0
  }

  /** Number of leading players whose score differs from `m` (LINQ
      `TakeWhile(p => p.Sum != m).Count()`). */
  function LeadingOtherSums(players: seq<Account>, m: int): (r: nat)
    ensures r <= |players|
    ensures forall j :: 0 <= j < r ==> players[j].sum != m
    ensures r < |players| ==> players[r].sum == m
  {
    if players == [] || players[0].sum == m then 0
    else 1 + LeadingOtherSums(players[1..], m)
  }

  /** The new chooser when the chooser's seat was removed: the first player
      with the smallest score. */
  function LowestScoreIndex(players: seq<Account>): (r: nat)
    requires |players| > 0
    ensures r < |players|
    ensures forall j :: 0 <= j < |players| ==> players[r].sum <= players[j].sum
    ensures forall j :: 0 <= j < r ==> players[j].sum > players[r].sum
  {
    LeadingOtherSums(players, MinSum(players))
  }

  function CountStakeMaking(players: seq<Account>): nat
  {
    if players == [] then 0
    else CountStakeMaking(players[..|players| - 1]) + (if players[|players| - 1].stakeMaking then 1 else 0)
  }

  /** The first player still making stakes, or -1. */
  function FirstStakeMaking(players: seq<Account>): (r: int)
    ensures -1 <= r < |players|
    ensures r >= 0 ==> players[r].stakeMaking
    ensures forall j :: 0 <= j < |players| && (r == -1 || j < r) ==> !players[j].stakeMaking
  {
    if players == [] then -1
    else
      var r := FirstStakeMaking(players[..|players| - 1]);
      if r >= 0 then r
      else if players[|players| - 1].stakeMaking then |players| - 1
      else -1
  }

  lemma {:induction false} NoStakeMakingCount(players: seq<Account>)
    ensures CountStakeMaking(players) == 0 <==> FirstStakeMaking(players) == -1
  {
    if players != [] {
      NoStakeMakingCount(players[..|players| - 1]);
    }
  }

  /** With exactly one player making stakes, the first one is the only one. */
  lemma {:induction false} SoleStakerIsOnly(players: seq<Account>, j: int)
    requires CountStakeMaking(players) == 1 && 0 <= j < |players| && players[j].stakeMaking
    ensures j == FirstStakeMaking(players)
  {
    var i := |players| - 1;
    var init := players[..i];
    NoStakeMakingCount(init);
    if j < i {
      assert init[j] == players[j];
      SoleStakerIsOnly(init, j);
    }
  }

  /** The last player making stakes, or -1. */
  function LastStakeMaking(players: seq<Account>): (r: int)
    ensures -1 <= r < |players|
    ensures r >= 0 ==> players[r].stakeMaking
    ensures r == -1 ==> forall j :: 0 <= j < |players| ==> !players[j].stakeMaking
  {
    if players == [] then -1
    else if players[|players| - 1].stakeMaking then |players| - 1
    else LastStakeMaking(players[..|players| - 1])
  }

  /** The staker after the staker's seat was removed: the sole remaining player
      making stakes, otherwise -1. */
  function SoleStaker(players: seq<Account>): (r: int)
    ensures -1 <= r < |players|
    ensures r >= 0 ==> players[r].stakeMaking && CountStakeMaking(players) == 1
    ensures CountStakeMaking(players) == 1 ==> r >= 0
  {
    if CountStakeMaking(players) == 1 then
      NoStakeMakingCount(players);
      FirstStakeMaking(players)
    else -1
  }

  // ---------------------------------------------------------------------------
  // Stakes

  /** The stake modes of an auction (StakeMode: Nominal, Sum, Pass, AllIn). */
  datatype StakeMode = Nominal | SumStake | Pass | AllIn

  function StakeModeOf(code: int): (m: StakeMode)
    requires 0 <= code <= 3
  {
    if code == 0 then Nominal else if code == 1 then SumStake else if code == 2 then Pass else AllIn
  }

  /** The lowest acceptable raise before rounding: 100 above the current stake,
      or above the question price when nobody has staked yet. */
  function RaiseBase(stake: int, curPriceRight: int): int
  {
    if stake != -1 then stake + 100 else curPriceRight + 100
  }

  /** The smallest multiple of 100 that is at least `m`. */
  function RoundUpToHundred(m: int): (r: int)
    ensures r % 100 == 0 && m <= r < m + 100
  {
    m + (100 - m % 100) % 100
  }

  /** RoundUpToHundred is the only multiple of 100 between `m` and itself. */
  lemma RoundedIsUnique(m: int, r: int)
    requires r % 100 == 0 && m <= r <= RoundUpToHundred(m)
    ensures r == RoundUpToHundred(m)
  {
    var u := RoundUpToHundred(m);
    assert r == 100 * (r / 100);
    assert u == 100 * (u / 100);
    assert u - r < 100;
  }

  /** Whether a Sum stake is accepted (the C# `%` truncates, but divisibility by
      100 reads the same under either convention). */
  predicate SumStakeAccepted(stakeSum: int, minimum: int, activeSum: int)
  {
    !(stakeSum < minimum || stakeSum > activeSum || stakeSum % 100 != 0)
  }

  /** A stake sum is accepted exactly when it is a multiple of 100 between the
      rounded minimum and the active player's score. */
  lemma SumStakeAcceptedIff(stakeSum: int, stake: int, curPriceRight: int, activeSum: int)
    ensures SumStakeAccepted(stakeSum, RoundUpToHundred(RaiseBase(stake, curPriceRight)), activeSum)
      <==> stakeSum % 100 == 0 && stakeSum <= activeSum
           && stakeSum >= RaiseBase(stake, curPriceRight)
  {
  }

  /** Whether a cat-in-a-bag cost lies on the allowed grid. */
  predicate CatCostAccepted(sum: int, minimum: int, maximum: int, step: int)
    requires step != 0
  {
    sum >= minimum && sum <= maximum && (sum - minimum) % step == 0
  }

  /** Whether a final-round stake is accepted. */
  predicate FinalStakeAccepted(finalStake: int, playerSum: int)
  {
    finalStake >= 1 && finalStake <= playerSum
  }

  /** The text a player at `i` sends is a final stake the player may make. */
  predicate StakeTaken(players: seq<Account>, i: nat, text: string)
    requires i < |players|
  {
    ParseInt(text).Some? && FinalStakeAccepted(ParseInt(text).value, players[i].sum)
  }

  // ---------------------------------------------------------------------------
  // Pause timers

  /** C# conversion of a non-integral quotient to `int`: truncation toward zero. */
  function TruncDiv(x: int, d: int): (r: int)
    requires d > 0
    ensures x >= 0 ==> r == x / d
    ensures x < 0 ==> r == -((-x) / d)
  {
    if x >= 0 then x / d else -((-x) / d)
  }

  /** Elapsed time of each timer at the pause, in tenths of a second (times are
      in milliseconds). */
  function ElapsedTenths(pauseStart: int, starts: seq<int>): (r: seq<int>)
    ensures |r| == |starts|
    ensures forall i :: 0 <= i < |starts| ==> r[i] == TruncDiv(pauseStart - starts[i], 100)
  {
    seq(|starts|, i requires 0 <= i < |starts| => TruncDiv(pauseStart - starts[i], 100))
  }

  /** With exactly one player making stakes, a scan that keeps the last such
      player finds the same player as a scan that stops at the first. */
  lemma SoleStakerIsLast(players: seq<Account>)
    requires CountStakeMaking(players) == 1
    ensures LastStakeMaking(players) == SoleStaker(players)
  {
    NoStakeMakingCount(players);
    SoleStakerIsOnly(players, LastStakeMaking(players));
  }

  /** The position of the first recorded answer of seat `i`, or -1. */
  function FirstAnswerBy(h: seq<AnswerResult>, i: int): (r: int)
    ensures -1 <= r < |h|
    ensures r >= 0 ==> h[r].playerIndex == i
    ensures forall j :: 0 <= j < |h| && (r == -1 || j < r) ==> h[j].playerIndex != i
  {
    if h == [] then -1
    else
      var r := FirstAnswerBy(h[..|h| - 1], i);
      if r >= 0 then r
      else if h[|h| - 1].playerIndex == i then |h| - 1
      else -1
  }

  /** The appellant when `sender` disputes the rejection of an answer: the
      first seat named `sender`, provided the first answer recorded for that
      seat was rejected; otherwise -1. */
  function RejectionAppellant(players: seq<Account>, h: seq<AnswerResult>, sender: string): (r: int)
    ensures -1 <= r < |players|
    ensures r >= 0 ==> r == FirstNamed(players, sender) && FirstAnswerBy(h, r) >= 0 && !h[FirstAnswerBy(h, r)].isRight
    ensures r == -1 ==>
      (FirstNamed(players, sender) == -1 || FirstAnswerBy(h, FirstNamed(players, sender)) == -1
       || h[FirstAnswerBy(h, FirstNamed(players, sender))].isRight)
  {
    var i := FirstNamed(players, sender);
    if i < 0 then -1
    else
      var j := FirstAnswerBy(h, i);
      if j >= 0 && !h[j].isRight then i else -1
  }

  /** The appellant when `sender` disputes the acceptance of the last answer:
      its author, provided the sender is a player and that answer was accepted;
      otherwise -1. */
  function AcceptanceAppellant(players: seq<Account>, h: seq<AnswerResult>, sender: string): (r: int)
    ensures HistoryValid(h, |players|) ==> -1 <= r < |players|
    ensures r != -1 ==> FirstNamed(players, sender) >= 0 && |h| > 0 && h[|h| - 1].isRight
    ensures FirstNamed(players, sender) >= 0 && |h| > 0 && h[|h| - 1].isRight ==> r == h[|h| - 1].playerIndex
  {
    if FirstNamed(players, sender) >= 0 && |h| > 0 && h[|h| - 1].isRight then h[|h| - 1].playerIndex else -1
  }

  /** The appellant for either kind of appellation. */
  function Appellant(players: seq<Account>, h: seq<AnswerResult>, sender: string, forRight: bool): int
  {
    if forRight then RejectionAppellant(players, h, sender) else AcceptanceAppellant(players, h, sender)
  }
}

/** The game-session message handler (`Game` in
    src/SICore/SICore/Clients/Game/Game.cs) as a class over the mutable game
    data it owns. Calls into the unseen scheduler (`_logic.Stop`,
    `StopWaiting`, `ScheduleExecution`, ...) and the broadcaster are recorded
    in the ghost log `effects`, in call order. Every handler runs alone (the
    session lock is not modelled). */
module GameSession {
  import opened Common
  import opened GameRules

  datatype Stage = Before | Begin | Round | FinalRound | After

  /** The input the game is waiting for (DecisionType). */
  datatype Decision = NoDecision | StarterChoosing | QuestionChoosing | Pressing | Answering
    | AnswerValidating | CatGiving | CatCostSetting | AuctionStakeMaking | NextPersonStakeMaking
    | FinalThemeDeleting | NextPersonFinalThemeDeleting | FinalStakeMaking | AppellationDecision
    | Reporting

  datatype StopReason = NoStop | StopDecision | StopAppellation | StopMove | StopPause | StopWait

  /** Scheduler tasks named by the handlers (Tasks). */
  datatype Task = AskFirst | AskRight | AskStake | AskCatCost | Announce | AnnounceStake | CatInfo
    | ContinueQuestion | MoveNext | PrintAuctPlayer | StartGameTask | WaitCatCost | WaitTry | Winner
    | OtherTask

  /** Outbound protocol messages, without their localised text. */
  datatype Outbound =
    | Cancel
    | Connected(role: Role, seat: int, name: string, isMale: bool)
    | Hostname(host: string)
    | ReadyChanged(name: string, ready: bool)
    | PersonFinalStake(seat: int)
    | PauseChanged(paused: bool, times: seq<int>)
    | TableAdded
    | TableDeleted(seat: int)

  /** A call into the scheduler, the broadcaster or the connection fabric. */
  datatype Effect =
    | Stop(reason: StopReason)
    | StopWaiting
    | CancelStop
    | ResumeExecution
    | ExecuteImmediate
    | SkipQuestion
    | Schedule(task: Task, time: int, arg: int)
    | UpdatePausedTask(task: Task, time: int, arg: int)
    | Send(msg: Outbound, to: Option<string>)
    | Replic
    | InformSums
    | StageChanged
    | Authenticate
    | PersonsChanged
    | DeleteClient(client: string)
    | MoveNextRound
    | HandlerFault

  /** What Join answers. */
  datatype JoinOutcome = Joined | WrongPassword | NameTaken | PositionNotFound | PlaceOccupied | NoFreePlace

  /** The scheduler call PlanExecution makes: a paused game only updates the
      pending task. */
  function PlanEffect(paused: bool, task: Task, time: int, arg: int): Effect
  {
    if paused then UpdatePausedTask(task, time, arg) else Schedule(task, time, arg)
  }

  /** What the final round does once a seat has left the theme deleters and
      `kept` remain: when nobody is left to delete a theme the engine moves on
      to the next round, or, with no round left, the game plans the winner
      announcement. */
  function DeleterEffects(kept: seq<int>, canMoveNextRound: bool, paused: bool): seq<Effect>
  {
    if kept != [] then []
    else if canMoveNextRound then [MoveNextRound]
    else [PlanEffect(paused, Winner, 10, 0)]
  }

  /** The final round ends on a removal exactly when every remaining theme
      deleter was the removed seat, and then in one step. */
  lemma DeleterEffectsEnd(deleters: seq<int>, p: int, canMoveNextRound: bool, paused: bool)
    ensures var r := DeleterEffects(KeptOrder(deleters, p), canMoveNextRound, paused);
      (r != [] <==> forall k :: 0 <= k < |deleters| ==> deleters[k] == p)
      && (r != [] ==> r == [if canMoveNextRound then MoveNextRound else PlanEffect(paused, Winner, 10, 0)])
  {
    KeptOrderEmpty(deleters, p);
  }

  /** The calls CheckAccountNew makes after a seat is claimed. */
  function ClaimEffects(role: Role, seat: int, name: string, isMale: bool, hostAssigned: bool): seq<Effect>
  {
    [Replic, Send(Connected(role, seat, name, isMale), None)]
      + (if hostAssigned then [Send(Hostname(name), None)] else [])
      + [Authenticate, PersonsChanged]
  }

  /** The scheduler call ContinueMakingStakes makes. */
  function ContinueEffect(players: seq<Account>, paused: bool): Effect
  {
    if CountStakeMaking(players) == 1 then PlanEffect(paused, PrintAuctPlayer, 10, 0)
    else PlanEffect(paused, AskStake, 20, 0)
  }

  /** The staker after ContinueMakingStakes. */
  function StakerAfterContinue(players: seq<Account>, staker: int): int
  {
    if CountStakeMaking(players) == 1 then SoleStaker(players) else staker
  }

  /** The current stake after ContinueMakingStakes. */
  function StakeAfterContinue(players: seq<Account>, stake: int, curPriceRight: int): int
  {
    if CountStakeMaking(players) == 1 && stake == -1 then curPriceRight else stake
  }

  /** The follow-up when the answerer's seat is removed, given the game task the
      scheduler is on (the pending task while paused). */
  function AnswererDroppedEffects(decision: Decision, finalRound: bool, oralNow: bool,
    showmanName: string, task: Task, paused: bool): seq<Effect>
  {
    if decision == Answering && !finalRound then
      [StopWaiting] + (if oralNow then [Send(Cancel, Some(showmanName))] else [])
        + [PlanEffect(paused, ContinueQuestion, 1, 0)]
    else if task == AskRight then [PlanEffect(paused, ContinueQuestion, 1, 0)]
    else if task == CatInfo || task == AskCatCost || task == WaitCatCost then
      [SkipQuestion, PlanEffect(paused, MoveNext, 20, 1)]
    else if task == AnnounceStake then [PlanEffect(paused, Announce, 15, 0)]
    else []
  }

  predicate AnyStakeMaking(players: seq<Account>)
  {
    exists j :: 0 <= j < |players| && players[j].stakeMaking
  }

  /** Whether the rebuilt auction resumes the stake round. */
  predicate StakesResumed(players: seq<Account>, order: seq<int>, orderIndex: int, decision: Decision)
    requires -1 <= orderIndex < |order|
  {
    AnyStakeMaking(players)
    && if orderIndex == -1 || order[orderIndex] == -1
       then decision == AuctionStakeMaking || decision == NextPersonStakeMaking
       else decision == NextPersonStakeMaking
  }

  /** The scheduler calls after the auction order was rebuilt. */
  function AuctionEffects(players: seq<Account>, order: seq<int>, orderIndex: int, decision: Decision,
    oralNow: bool, showmanName: string, paused: bool): seq<Effect>
    requires -1 <= orderIndex < |order|
  {
    if !AnyStakeMaking(players) then [SkipQuestion, PlanEffect(paused, MoveNext, 20, 1)]
    else if orderIndex == -1 || order[orderIndex] == -1 then
      if decision == AuctionStakeMaking || decision == NextPersonStakeMaking then
        [StopWaiting]
          + (if oralNow || decision == NextPersonStakeMaking then [Send(Cancel, Some(showmanName))] else [])
          + [ContinueEffect(players, paused)]
      else []
    else if decision == NextPersonStakeMaking then
      [StopWaiting, Send(Cancel, Some(showmanName)), ContinueEffect(players, paused)]
    else []
  }

  /** Every stored player index refers to one of `n` seats or is -1. */
  predicate IndicesWithin(n: int, chooser: int, answerer: int, appelaer: int, staker: int)
  {
    -1 <= chooser < n && -1 <= answerer < n && -1 <= appelaer < n && -1 <= staker < n
  }

  /** An auction order names at most `n` seats and its position lies inside it. */
  predicate OrderWithin(n: int, isAuction: bool, order: seq<int>, orderIndex: int)
  {
    isAuction ==> |order| <= n && OrderEntriesValid(order, n) && -1 <= orderIndex < |order|
  }

  /** The calls DeleteTable makes once the seat is gone. */
  function RemovalEffects(index: int, account: Account, starts: bool): seq<Effect>
  {
    (if account.isHuman then [] else [DeleteClient(account.name)])
    + [Send(TableDeleted(index), None), Replic]
    + (if starts then [StageChanged, Schedule(StartGameTask, 1, 1)] else [])
    + [PersonsChanged]
  }

  class Game {
    // Roster
    var players: seq<Account>
    var showman: Account
    var viewers: seq<Account>
    var hostName: Option<string>
    /** NetworkGamePassword; the empty string stands for "none". */
    var networkGamePassword: string
    var isAutomatic: bool
    /** The Oral setting of the application. */
    var oralSetting: bool
    var isOral: bool

    // Flow
    var stage: Stage
    var decision: Decision
    var isWaiting: bool
    var isOralNow: bool
    var isFinalRound: bool
    var hasThemeDeleters: bool
    /** ThemeDeleters: the seats still entitled to delete a final theme. */
    var themeDeleters: seq<int>
    /** Engine.CanMoveNextRound, as the engine reports it. */
    var canMoveNextRound: bool
    var stopReason: StopReason
    var currentTask: Task
    var nextTask: Task

    // Stored player indices (-1 = nobody)
    var chooserIndex: int
    var answererIndex: int
    var appelaerIndex: int
    var stakerIndex: int
    /** ActivePlayer: a snapshot of the account whose turn it is. */
    var activePlayer: Option<Account>

    // Auction
    /** The current question is an auction and an order exists. */
    var isAuction: bool
    var order: seq<int>
    var orderIndex: int
    var stakeVariants: seq<bool>
    var stakeType: Option<StakeMode>
    var stakeSum: int
    var stake: int
    var curPriceRight: int

    // Cat in a bag
    var catMinimum: int
    var catMaximum: int
    var catStep: int

    // Final round
    var numOfStakers: int

    // Appellation
    var questionHistory: seq<AnswerResult>
    var allowAppellation: bool
    var isAppellationForRightAnswer: bool
    var appellationSource: string

    // Pause and timers (times in milliseconds)
    var isPaused: bool
    var pauseStartTime: int
    const timerStart: array<int>
    var isThinking: bool
    var isThinkingPaused: bool
    var isPlayingMedia: bool
    var isPlayingMediaPaused: bool
    /** TimeThinking in milliseconds (the source keeps tenths of a second). */
    var timeThinking: int

    ghost var effects: seq<Effect>

    /** Every seat the game refers to is one of `n` seats. */
    predicate Within(n: int)
      reads this`chooserIndex, this`answererIndex, this`appelaerIndex, this`stakerIndex, this`questionHistory,
        this`isAuction, this`order, this`orderIndex
    {
      IndicesWithin(n, chooserIndex, answererIndex, appelaerIndex, stakerIndex)
      && HistoryValid(questionHistory, n) && OrderWithin(n, isAuction, order, orderIndex)
    }

    predicate Shaped()
      reads this`stakeVariants
    {
      timerStart.Length == TimersCount && |stakeVariants| == 4
    }

    predicate Valid()
      reads this`players, this`stakeVariants, this`chooserIndex, this`answererIndex, this`appelaerIndex, this`stakerIndex, this`questionHistory,
        this`isAuction, this`order, this`orderIndex
    {
      timerStart.Length == TimersCount && |stakeVariants| == 4
      && IndicesWithin(|players|, chooserIndex, answererIndex, appelaerIndex, stakerIndex)
      && HistoryValid(questionHistory, |players|) && OrderWithin(|players|, isAuction, order, orderIndex)
    }

    /** Valid survives any change that keeps the number of players, keeps the
        stored player indices in range and leaves the history and the order alone. */
    twostate lemma ValidKept()
      requires old(Valid()) && |players| == |old(players)|
      requires unchanged(this`stakeVariants, this`questionHistory, this`isAuction, this`order, this`orderIndex)
      requires IndicesWithin(|players|, chooserIndex, answererIndex, appelaerIndex, stakerIndex)
      ensures Valid()
    {
    }

    /** AllPersons: the names of the connected showman, players and viewers. */
    function AllPersons(): set<string>
      reads this`showman, this`players, this`viewers
    {
      ConnectedNames([showman] + players + viewers)
    }

    /** The accounts Join scans for a role: the showman, the players, or the
        viewers followed by a synthetic free viewer slot. */
    function Candidates(role: Role): (r: seq<Account>)
      reads this`showman, this`players, this`viewers
      ensures role == ViewerRole ==> r == viewers + [FreeSeat()]
    {
      match role
      case ShowmanRole => [showman]
      case PlayerRole => players
      case ViewerRole => viewers + [FreeSeat()]
    }

    /** A new game before the start: a free showman seat and `seats` free
        player seats. */
    constructor (seats: nat, password: string, automatic: bool, oral: bool)
      requires seats <= MaxPlayers
      ensures Valid() && stage == Before && |players| == seats && viewers == []
      ensures networkGamePassword == password && isAutomatic == automatic && hostName == None
      ensures effects == []
    {
      players := seq(seats, _ => FreeSeat());
      showman := FreeSeat();
      viewers := [];
      hostName := None;
      networkGamePassword := password;
      isAutomatic := automatic;
      oralSetting := oral;
      isOral := false;
      stage := Before;
      decision := NoDecision;
      isWaiting := false;
      isOralNow := false;
      isFinalRound := false;
      hasThemeDeleters := false;
      themeDeleters := [];
      canMoveNextRound := false;
      stopReason := NoStop;
      currentTask := OtherTask;
      nextTask := OtherTask;
      chooserIndex := -1;
      answererIndex := -1;
      appelaerIndex := -1;
      stakerIndex := -1;
      activePlayer := None;
      isAuction := false;
      order := [];
      orderIndex := -1;
      stakeVariants := [true, true, true, true];
      stakeType := None;
      stakeSum := 0;
      stake := -1;
      curPriceRight := 0;
      catMinimum := 0;
      catMaximum := 0;
      catStep := 1;
      numOfStakers := 0;
      questionHistory := [];
      allowAppellation := false;
      isAppellationForRightAnswer := false;
      appellationSource := "";
      isPaused := false;
      pauseStartTime := 0;
      timerStart := new int[TimersCount](_ => 0);
      isThinking := false;
      isThinkingPaused := false;
      isPlayingMedia := false;
      isPlayingMediaPaused := false;
      timeThinking := 0;
      effects := [];
    }

    // -------------------------------------------------------------------------
    // Joining

    predicate PasswordRefuses(password: string)
      reads this`networkGamePassword
    {
      networkGamePassword != "" && networkGamePassword != password
    }

    /** The roster after candidate `k` of `role` has been claimed for `name`. */
    ghost predicate ClaimedState(role: Role, k: nat, name: string, isMale: bool,
      oldShowman: Account, oldPlayers: seq<Account>, oldViewers: seq<Account>)
      reads this`showman, this`players, this`viewers
    {
      match role
      case ShowmanRole =>
        k == 0 && showman == Claimed(oldShowman, name, isMale)
        && players == oldPlayers && viewers == oldViewers
      case PlayerRole =>
        k < |oldPlayers| && players == oldPlayers[k := Claimed(oldPlayers[k], name, isMale)]
        && showman == oldShowman && viewers == oldViewers
      case ViewerRole =>
        k <= |oldViewers| && viewers == ViewersAfterClaim(oldViewers, k, name, isMale)
        && showman == oldShowman && players == oldPlayers
    }

    /** CheckAccountNew: a connected candidate answers "occupied" when it has
        the same name and "next" otherwise; a free candidate is claimed. */
    method CheckAccountNew(role: Role, name: string, isMale: bool, k: nat) returns (r: Option<bool>)
      requires k < |Candidates(role)|
      modifies this`showman, this`players, this`viewers, this`hostName, this`effects
      ensures |players| == |old(players)|
      ensures old(Candidates(role)[k].isConnected) ==>
        r == (if old(Candidates(role)[k].name) == name then Some(false) else None) && unchanged(this`showman, this`players, this`viewers, this`hostName, this`effects)
      ensures !old(Candidates(role)[k].isConnected) ==>
        r == Some(true)
        && JoinedState(role, k, name, isMale, old(showman), old(players), old(viewers),
             old(hostName), old(effects))
    {
      var account := Candidates(role)[k];
      if account.isConnected {
        r := if account.name == name then Some(false) else None;
      } else {
        var c := Claimed(account, name, isMale);
        match role {
          case ShowmanRole => showman := c;
          case PlayerRole => players := players[k := c];
          case ViewerRole =>
            // the synthetic free slot is appended as a copy
            var seen := if k < |viewers| then viewers[k := c] else viewers;
            viewers := seen + (if account.name == FreePlace then [c] else []);
        }
        var hostAssigned := hostName.None? && !isAutomatic;
        hostName, effects := (if hostAssigned then Some(name) else hostName),
          effects + ClaimEffects(role, k, name, isMale, hostAssigned);
        r := Some(true);
      }
    }

    /** The seat bound to the host's name among the players. */
    method FindPlayer(name: string) returns (index: int)
      ensures index == FirstNamed(players, name)
    {
      index := -1;
      var i := 0;
      while i < |players|
        invariant 0 <= i <= |players|
        invariant forall j :: 0 <= j < i ==> players[j].name != name
      {
        if players[i].name == name {
          index := i;
          return;
        }
        i := i + 1;
      }
    }

    /** A name missing from AllPersons belongs to no connected candidate. */
    lemma CandidatesNotNamed(role: Role, name: string)
      requires name !in AllPersons()
      ensures forall j :: 0 <= j < |Candidates(role)| && Candidates(role)[j].isConnected ==>
        Candidates(role)[j].name != name
    {
      var all := [showman] + players + viewers;
      var cands := Candidates(role);
      forall j | 0 <= j < |cands| && cands[j].isConnected
        ensures cands[j].name != name
      {
        match role {
          case ShowmanRole => assert cands[j] == all[0];
          case PlayerRole => assert cands[j] == all[1 + j];
          case ViewerRole =>
            if j < |viewers| {
              assert cands[j] == all[1 + |players| + j];
            }
        }
      }
    }

    /** The state after candidate `seat` of `role` was claimed by CheckAccountNew. */
    ghost predicate JoinedState(role: Role, seat: int, name: string, isMale: bool,
      oldShowman: Account, oldPlayers: seq<Account>, oldViewers: seq<Account>,
      oldHost: Option<string>, oldEffects: seq<Effect>)
      reads this`showman, this`players, this`viewers, this`hostName, this`isAutomatic, this`effects
    {
      0 <= seat
      && ClaimedState(role, seat, name, isMale, oldShowman, oldPlayers, oldViewers)
      && hostName == (if oldHost.None? && !isAutomatic then Some(name) else oldHost)
      && effects == oldEffects + ClaimEffects(role, seat, name, isMale, oldHost.None? && !isAutomatic)
    }

    /** The host joining as a player takes the seat that carries the host's name. */
    method ClaimHostSeat(name: string, isMale: bool) returns (r: JoinOutcome, ghost seat: int)
      requires name !in AllPersons()
      modifies this`showman, this`players, this`viewers, this`hostName, this`effects
      ensures |players| == |old(players)|
      ensures r != Joined ==> unchanged(this`showman, this`players, this`viewers, this`hostName, this`effects)
      ensures FirstNamed(old(players), name) == -1 ==> r == PositionNotFound
      ensures FirstNamed(old(players), name) >= 0 ==> r == Joined
      ensures r == Joined ==>
        seat == FirstNamed(old(players), name)
        && JoinedState(PlayerRole, seat, name, isMale, old(showman), old(players), old(viewers),
             old(hostName), old(effects))
    {
      seat := -1;
      CandidatesNotNamed(PlayerRole, name);
      var index := FindPlayer(name);
      if index < 0 {
        return PositionNotFound, seat;
      }
      var res := CheckAccountNew(PlayerRole, name, isMale, index);
      if res == Some(false) {
        return PlaceOccupied, seat;
      } else if res == Some(true) {
        seat := index;
        return Joined, seat;
      }
      return NoFreePlace, seat;
    }

    /** Scans the candidates of `role` and claims the first free one. */
    method ClaimFirstFree(role: Role, name: string, isMale: bool) returns (r: JoinOutcome, ghost seat: int)
      requires name !in AllPersons()
      modifies this`showman, this`players, this`viewers, this`hostName, this`effects
      ensures |players| == |old(players)|
      ensures r != Joined ==> unchanged(this`showman, this`players, this`viewers, this`hostName, this`effects)
      ensures r == Joined <==> Scan(old(Candidates(role)), name).ClaimAt?
      ensures r == Joined ==>
        seat >= 0 && Scan(old(Candidates(role)), name) == ClaimAt(seat)
        && JoinedState(role, seat, name, isMale, old(showman), old(players), old(viewers),
             old(hostName), old(effects))
    {
      seat := -1;
      CandidatesNotNamed(role, name);
      var cands := Candidates(role);
      var k := 0;
      while k < |cands|
        invariant 0 <= k <= |cands| && cands == Candidates(role)
        invariant unchanged(this`showman, this`players, this`viewers, this`hostName, this`effects)
        invariant forall j :: 0 <= j < k ==> cands[j].isConnected && cands[j].name != name
        invariant ScanFrom(cands, name, k) == Scan(cands, name)
      {
        var res := CheckAccountNew(role, name, isMale, k);
        if res == Some(false) {
          return PlaceOccupied, seat;
        } else if res == Some(true) {
          seat := k;
          return Joined, seat;
        }
        k := k + 1;
      }
      return NoFreePlace, seat;
    }

    /** Join: refuse on a wrong password or a name already in the game, then
        claim the first free candidate seat (the host's own seat for the host
        joining as a player). */
    method Join(name: string, isMale: bool, role: Role, password: string)
      returns (r: JoinOutcome, ghost seat: int)
      requires Valid()
      modifies this`showman, this`players, this`viewers, this`hostName, this`effects
      ensures Valid()
      ensures old(PasswordRefuses(password)) ==> r == WrongPassword
      ensures !old(PasswordRefuses(password)) && name in old(AllPersons()) ==> r == NameTaken
      ensures r != Joined ==> unchanged(this`showman, this`players, this`viewers, this`hostName, this`effects)
      ensures r == Joined ==> JoinedState(role, seat, name, isMale, old(showman), old(players),
        old(viewers), old(hostName), old(effects))
      ensures r == Joined ==> name in AllPersons()
      ensures r == Joined && role == PlayerRole && old(hostName) == Some(name) ==>
        seat == FirstNamed(old(players), name)
      ensures (!old(PasswordRefuses(password)) && name !in old(AllPersons())
        && role == PlayerRole && old(hostName) == Some(name)) ==>
        (r == Joined <==> FirstNamed(old(players), name) >= 0) && (r != Joined ==> r == PositionNotFound)
      ensures (!old(PasswordRefuses(password)) && name !in old(AllPersons())
        && !(role == PlayerRole && old(hostName) == Some(name))) ==>
        (r == Joined <==> Scan(old(Candidates(role)), name).ClaimAt?)
        && (r == Joined ==> seat >= 0 && Scan(old(Candidates(role)), name) == ClaimAt(seat))
      ensures !old(PasswordRefuses(password)) && name !in old(AllPersons()) && role == ViewerRole ==>
        r == Joined
    {
      seat := -1;
      if PasswordRefuses(password) {
        r := WrongPassword;
      } else if name in AllPersons() {
        r := NameTaken;
      } else {
        r, seat := Claim(name, isMale, role);
      }
      ValidKept();
    }

    /** The claiming part of Join, for a name not yet in the game. */
    method Claim(name: string, isMale: bool, role: Role) returns (r: JoinOutcome, ghost seat: int)
      requires name !in AllPersons()
      modifies this`showman, this`players, this`viewers, this`hostName, this`effects
      ensures |players| == |old(players)|
      ensures r != Joined ==> unchanged(this`showman, this`players, this`viewers, this`hostName, this`effects)
      ensures r == Joined ==> JoinedState(role, seat, name, isMale, old(showman), old(players),
        old(viewers), old(hostName), old(effects))
      ensures r == Joined ==> name in AllPersons()
      ensures r == Joined && role == PlayerRole && old(hostName) == Some(name) ==>
        seat == FirstNamed(old(players), name)
      ensures role == PlayerRole && old(hostName) == Some(name) ==>
        (r == Joined <==> FirstNamed(old(players), name) >= 0) && (r != Joined ==> r == PositionNotFound)
      ensures !(role == PlayerRole && old(hostName) == Some(name)) ==>
        (r == Joined <==> Scan(old(Candidates(role)), name).ClaimAt?)
        && (r == Joined ==> seat >= 0 && Scan(old(Candidates(role)), name) == ClaimAt(seat))
      ensures role == ViewerRole ==> r == Joined
    {
      if role == PlayerRole && hostName == Some(name) {
        r, seat := ClaimHostSeat(name, isMale);
      } else {
        if role == ViewerRole {
          CandidatesNotNamed(role, name);
          ScanFindsFreeSeat(Candidates(role), name, |viewers|);
        }
        r, seat := ClaimFirstFree(role, name, isMale);
      }
      if r == Joined {
        JoinedNameIsPresent(role, seat, name, isMale);
      }
    }

    /** After a claim the claimed name is among the connected persons. */
    lemma JoinedNameIsPresent(role: Role, k: nat, name: string, isMale: bool)
      requires exists s: Account, ps: seq<Account>, vs: seq<Account> ::
        ClaimedState(role, k, name, isMale, s, ps, vs)
      ensures name in AllPersons()
    {
      var s: Account, ps: seq<Account>, vs: seq<Account> :|
        ClaimedState(role, k, name, isMale, s, ps, vs);
      var all := [showman] + players + viewers;
      match role {
        case ShowmanRole => assert all[0] == showman;
        case PlayerRole => assert all[1 + k] == players[k];
        case ViewerRole =>
          if k < |vs| {
            assert all[1 + |players| + k] == viewers[k];
          } else {
            assert all[|all| - 1] == viewers[|viewers| - 1];
          }
      }
    }

    // -------------------------------------------------------------------------
    // Scheduler hand-offs

    /** PlanExecution: a paused game updates the pending task, otherwise the
        task is scheduled. */
    method PlanExecution(task: Task, time: int, arg: int)
      modifies this`effects
      ensures effects == old(effects) + [PlanEffect(isPaused, task, time, arg)]
    {
      if isPaused {
        effects := effects + [UpdatePausedTask(task, time, arg)];
      } else {
        effects := effects + [Schedule(task, time, arg)];
      }
    }

    /** `_logic.Stop(reason)`: the scheduler is asked to leave its wait. */
    method StopWith(reason: StopReason)
      modifies this`stopReason, this`effects
      ensures stopReason == reason && effects == old(effects) + [Stop(reason)]
    {
      stopReason := reason;
      effects := effects + [Stop(reason)];
    }

    /** StartGame: the game leaves the Before stage. */
    method StartGame()
      modifies this`stage, this`isOral, this`effects
      ensures stage == Begin && isOral == (oralSetting && showman.isHuman)
      ensures effects == old(effects) + [StageChanged, Schedule(StartGameTask, 1, 1)]
    {
      stage := Begin;
      effects := effects + [StageChanged];
      isOral := oralSetting && showman.isHuman;
      effects := effects + [Schedule(StartGameTask, 1, 1)];
    }

    /** The index of the first player making stakes, or -1. */
    method FindStakeMaking() returns (index: int)
      ensures index == FirstStakeMaking(players)
    {
      index := -1;
      var i := 0;
      while i < |players|
        invariant 0 <= i <= |players|
        invariant forall j :: 0 <= j < i ==> !players[j].stakeMaking
      {
        if players[i].stakeMaking {
          index := i;
          return;
        }
        i := i + 1;
      }
    }

    /** ContinueMakingStakes: with a single player left making stakes that
        player becomes the staker (at the question price if nobody staked yet);
        otherwise the next stake is asked for. */
    method ContinueMakingStakes()
      modifies this`stakerIndex, this`stake, this`effects
      ensures stakerIndex == StakerAfterContinue(players, old(stakerIndex))
      ensures stake == StakeAfterContinue(players, old(stake), curPriceRight)
      ensures effects == old(effects) + [ContinueEffect(players, isPaused)]
      ensures -1 <= old(stakerIndex) < |players| ==> -1 <= stakerIndex < |players|
    {
      if CountStakeMaking(players) == 1 {
        var i := 0;
        while i < |players|
          invariant 0 <= i <= |players|
          invariant stakerIndex == (if LastStakeMaking(players[..i]) >= 0
            then LastStakeMaking(players[..i]) else old(stakerIndex))
          invariant stake == old(stake) && effects == old(effects)
        {
          assert players[..i + 1][..i] == players[..i];
          if players[i].stakeMaking {
            stakerIndex := i;
          }
          i := i + 1;
        }
        assert players[..i] == players;
        SoleStakerIsLast(players);
        if stake == -1 {
          stake := curPriceRight;
        }
        PlanExecution(PrintAuctPlayer, 10, 0);
      } else {
        PlanExecution(AskStake, 20, 0);
      }
    }

    // -------------------------------------------------------------------------
    // Seat deletion

    /** The follow-up when the answerer's seat was removed: an answer in
        progress outside the final round is abandoned, otherwise the game task the
        scheduler is on decides. */
    method AnswererDropped()
      modifies this`effects
      ensures effects == old(effects) + AnswererDroppedEffects(decision, isFinalRound, isOralNow, showman.name,
        if isPaused then nextTask else currentTask, isPaused)
    {
      var task := if isPaused then nextTask else currentTask;
      if decision == Answering && !isFinalRound {
        effects := effects + [StopWaiting];
        if isOralNow {
          effects := effects + [Send(Cancel, Some(showman.name))];
        }
        PlanExecution(ContinueQuestion, 1, 0);
      } else if task == AskRight {
        PlanExecution(ContinueQuestion, 1, 0);
      } else if task == CatInfo || task == AskCatCost || task == WaitCatCost {
        effects := effects + [SkipQuestion];
        PlanExecution(MoveNext, 20, 1);
      } else if task == AnnounceStake {
        PlanExecution(Announce, 15, 0);
      }
    }

    /** Chooser, answerer, appellant and staker after the seat `p` was removed
        from `players`. */
    method DropScalarIndices(p: int)
      requires Within(|players| + 1) && 0 <= p <= |players| && |players| >= 1
      modifies this`chooserIndex, this`answererIndex, this`appelaerIndex, this`stakerIndex, this`effects
      ensures chooserIndex ==
        (if old(chooserIndex) == p then LowestScoreIndex(players) else Shift(old(chooserIndex), p))
      ensures answererIndex == (if old(answererIndex) == p then -1 else Shift(old(answererIndex), p))
      ensures appelaerIndex == (if old(appelaerIndex) == p then -1 else Shift(old(appelaerIndex), p))
      ensures stakerIndex ==
        (if old(stakerIndex) == p then SoleStaker(players) else Shift(old(stakerIndex), p))
      ensures -1 <= chooserIndex < |players| && -1 <= answererIndex < |players|
        && -1 <= appelaerIndex < |players| && -1 <= stakerIndex < |players|
      ensures effects == old(effects) + (if old(answererIndex) == p then
        AnswererDroppedEffects(decision, isFinalRound, isOralNow, showman.name,
          if isPaused then nextTask else currentTask, isPaused) else [])
    {
      DropChooser(p);
      DropAnswerer(p);
      DropAppellant(p);
      DropStaker(p);
    }

    method DropChooser(p: int)
      requires -1 <= chooserIndex < |players| + 1 && 0 <= p <= |players| && |players| >= 1
      modifies this`chooserIndex
      ensures chooserIndex ==
        (if old(chooserIndex) == p then LowestScoreIndex(players) else Shift(old(chooserIndex), p))
      ensures -1 <= chooserIndex < |players|
    {
      if chooserIndex > p {
        chooserIndex := chooserIndex - 1;
      } else if chooserIndex == p {
        // the turn passes to the first player with the lowest score
        var minSum := MinSum(players);
        chooserIndex := LeadingOtherSums(players, minSum);
      }
    }

    method DropAnswerer(p: int)
      requires -1 <= answererIndex < |players| + 1 && 0 <= p <= |players|
      modifies this`answererIndex, this`effects
      ensures answererIndex == (if old(answererIndex) == p then -1 else Shift(old(answererIndex), p))
      ensures -1 <= answererIndex < |players|
      ensures effects == old(effects) + (if old(answererIndex) == p then
        AnswererDroppedEffects(decision, isFinalRound, isOralNow, showman.name,
          if isPaused then nextTask else currentTask, isPaused) else [])
    {
      if answererIndex > p {
        answererIndex := answererIndex - 1;
      } else if answererIndex == p {
        answererIndex := -1;
        AnswererDropped();
      }
    }

    method DropAppellant(p: int)
      requires -1 <= appelaerIndex < |players| + 1 && 0 <= p <= |players|
      modifies this`appelaerIndex
      ensures appelaerIndex == (if old(appelaerIndex) == p then -1 else Shift(old(appelaerIndex), p))
      ensures -1 <= appelaerIndex < |players|
    {
      if appelaerIndex > p {
        appelaerIndex := appelaerIndex - 1;
      } else if appelaerIndex == p {
        appelaerIndex := -1;
      }
    }

    method DropStaker(p: int)
      requires -1 <= stakerIndex < |players| + 1 && 0 <= p <= |players|
      modifies this`stakerIndex
      ensures stakerIndex ==
        (if old(stakerIndex) == p then SoleStaker(players) else Shift(old(stakerIndex), p))
      ensures -1 <= stakerIndex < |players|
    {
      if stakerIndex > p {
        stakerIndex := stakerIndex - 1;
      } else if stakerIndex == p {
        if CountStakeMaking(players) == 1 {
          stakerIndex := FindStakeMaking();
        } else {
          stakerIndex := -1;
        }
      }
    }

    /** The auction order rebuilt for the remaining players. */
    method RebuildOrder(p: int)
      requires 0 <= p <= |players| && |players| >= 1
      modifies this`order, this`orderIndex
      ensures order == OrderAfterDrop(old(order), p, |players|)
      ensures orderIndex == OrderIndexAfterDrop(old(order), p, |players|, old(orderIndex))
    {
      order, orderIndex := RebuiltOrder(order, orderIndex, p, |players|);
    }

    /** The auction follow-up: with nobody left making stakes the question is
        skipped; when the current staker is gone, or the showman was choosing
        the next staker, the stake round continues. */
    method ResumeAuctionAfterDrop()
      requires -1 <= orderIndex < |order|
      modifies this`stakerIndex, this`stake, this`effects
      ensures stakerIndex ==
        (if StakesResumed(players, order, orderIndex, decision) then StakerAfterContinue(players, old(stakerIndex)) else old(stakerIndex))
      ensures stake ==
        (if StakesResumed(players, order, orderIndex, decision) then StakeAfterContinue(players, old(stake), curPriceRight) else old(stake))
      ensures effects == old(effects) + AuctionEffects(players, order, orderIndex, decision, isOralNow, showman.name, isPaused)
    {
      if !AnyStakeMaking(players) {
        effects := effects + [SkipQuestion];
        PlanExecution(MoveNext, 20, 1);
      } else if orderIndex == -1 || order[orderIndex] == -1 {
        if decision == AuctionStakeMaking || decision == NextPersonStakeMaking {
          effects := effects + [StopWaiting];
          if isOralNow || decision == NextPersonStakeMaking {
            effects := effects + [Send(Cancel, Some(showman.name))];
          }
          ContinueMakingStakes();
        }
      } else if decision == NextPersonStakeMaking {
        effects := effects + [StopWaiting, Send(Cancel, Some(showman.name))];
        ContinueMakingStakes();
      }
    }

    /** QuestionHistory rebuilt without the answers of seat `p`. */
    method RebuildHistory(p: int)
      requires 0 <= p <= |players| && HistoryValid(questionHistory, |players| + 1)
      modifies this`questionHistory
      ensures questionHistory == HistoryAfterDrop(old(questionHistory), p)
      ensures HistoryValid(questionHistory, |players|)
    {
      var newHistory: seq<AnswerResult> := [];
      var i := 0;
      while i < |questionHistory|
        invariant 0 <= i <= |questionHistory|
        invariant questionHistory == old(questionHistory)
        invariant newHistory == HistoryAfterDrop(questionHistory[..i], p)
      {
        HistoryAfterDropStep(questionHistory, p, i);
        var answer := questionHistory[i];
        if answer.playerIndex != p {
          newHistory := newHistory
            + [AnswerResult(answer.playerIndex - (if answer.playerIndex > p then 1 else 0), answer.isRight)];
        }
        i := i + 1;
      }
      assert questionHistory[..i] == questionHistory;
      HistoryAfterDropValid(questionHistory, p, |players|);
      questionHistory := newHistory;
    }

    /** The auction part of DropPlayerIndex: the order is rebuilt and the
        stake round resumed where the removed seat held it up. */
    method DropFromAuction(p: int)
      requires 0 <= p <= |players| && |players| >= 1
      requires |order| <= |players| + 1 && OrderEntriesValid(order, |players| + 1) && -1 <= orderIndex < |order|
      requires -1 <= stakerIndex < |players|
      modifies this`order, this`orderIndex, this`stakerIndex, this`stake, this`effects
      ensures order == OrderAfterDrop(old(order), p, |players|)
      ensures orderIndex == OrderIndexAfterDrop(old(order), p, |players|, old(orderIndex))
      ensures |order| <= |players| && OrderEntriesValid(order, |players|) && -1 <= orderIndex < |order|
      ensures stakerIndex == (if StakesResumed(players, order, orderIndex, decision) then StakerAfterContinue(players, old(stakerIndex)) else old(stakerIndex))
      ensures -1 <= stakerIndex < |players|
      ensures stake == (if StakesResumed(players, order, orderIndex, decision) then StakeAfterContinue(players, old(stake), curPriceRight) else old(stake))
      ensures effects == old(effects) + AuctionEffects(players, order, orderIndex, decision, isOralNow, showman.name, isPaused)
    {
      OrderAfterDropValid(order, p, |players|);
      OrderIndexAfterDropValid(order, p, |players|, orderIndex);
      RebuildOrder(p);
      ResumeAuctionAfterDrop();
    }

    /** The index part of DropPlayerIndex: the stored indices, then the
        auction order and the stake round. */
    method DropIndices(p: int)
      requires Within(|players| + 1) && 0 <= p <= |players| && |players| >= 1
      modifies this`chooserIndex, this`answererIndex, this`appelaerIndex, this`stakerIndex,
        this`stake, this`order, this`orderIndex, this`effects
      ensures IndicesWithin(|players|, chooserIndex, answererIndex, appelaerIndex, stakerIndex)
      ensures OrderWithin(|players|, isAuction, order, orderIndex)
      ensures chooserIndex ==
        (if old(chooserIndex) == p then LowestScoreIndex(players) else Shift(old(chooserIndex), p))
      ensures answererIndex == (if old(answererIndex) == p then -1 else Shift(old(answererIndex), p))
      ensures appelaerIndex == (if old(appelaerIndex) == p then -1 else Shift(old(appelaerIndex), p))
      ensures isAuction ==>
        order == OrderAfterDrop(old(order), p, |players|)
        && orderIndex == OrderIndexAfterDrop(old(order), p, |players|, old(orderIndex))
      ensures !isAuction ==> order == old(order) && orderIndex == old(orderIndex)
      ensures var staker := if old(stakerIndex) == p then SoleStaker(players) else Shift(old(stakerIndex), p);
        isAuction && StakesResumed(players, order, orderIndex, decision) ==>
          stakerIndex == StakerAfterContinue(players, staker) && stake == StakeAfterContinue(players, old(stake), curPriceRight)
      ensures var staker := if old(stakerIndex) == p then SoleStaker(players) else Shift(old(stakerIndex), p);
        !(isAuction && StakesResumed(players, order, orderIndex, decision)) ==> stakerIndex == staker && stake == old(stake)
      ensures effects == old(effects)
        + (if old(answererIndex) == p then
             AnswererDroppedEffects(decision, isFinalRound, isOralNow, showman.name,
               if isPaused then nextTask else currentTask, isPaused) else [])
        + (if isAuction then AuctionEffects(players, order, orderIndex, decision, isOralNow, showman.name, isPaused)
           else [])
    {
      DropScalarIndices(p);
      if isAuction {
        DropFromAuction(p);
      }
    }

    /** The rest of DropPlayerIndex: the final-round theme deleters, the
        answer history, and a new request for the first chooser. */
    method DropTail(p: int)
      requires 0 <= p <= |players| && HistoryValid(questionHistory, |players| + 1)
      modifies this`themeDeleters, this`questionHistory, this`effects
      ensures isFinalRound && hasThemeDeleters ==> themeDeleters == KeptOrder(old(themeDeleters), p)
      ensures !(isFinalRound && hasThemeDeleters) ==> themeDeleters == old(themeDeleters)
      ensures questionHistory == HistoryAfterDrop(old(questionHistory), p)
      ensures HistoryValid(questionHistory, |players|)
      ensures effects == old(effects)
        + ((if isFinalRound && hasThemeDeleters then DeleterEffects(themeDeleters, canMoveNextRound, isPaused) else [])
           + (if isWaiting && decision == StarterChoosing then
                [Send(Cancel, Some(showman.name)), StopWaiting, PlanEffect(isPaused, AskFirst, 20, 0)] else []))
    {
      DropThemeDeleter(p);
      RebuildHistory(p);
      RepeatFirstRequest();
    }

    /** In the final round, seat `p` leaves the theme deleters
        (ThemeDeleters.RemoveAt), and a final nobody is left to play ends the
        round. */
    method DropThemeDeleter(p: int)
      modifies this`themeDeleters, this`effects
      ensures isFinalRound && hasThemeDeleters ==> themeDeleters == KeptOrder(old(themeDeleters), p)
      ensures !(isFinalRound && hasThemeDeleters) ==> themeDeleters == old(themeDeleters)
      ensures effects == old(effects) + (if isFinalRound && hasThemeDeleters then DeleterEffects(themeDeleters, canMoveNextRound, isPaused) else [])
    {
      if isFinalRound && hasThemeDeleters {
        themeDeleters := KeptOrder(themeDeleters, p);
        if themeDeleters == [] {
          // nobody who could play the final is left
          if canMoveNextRound {
            effects := effects + [MoveNextRound];
          } else {
            PlanExecution(Winner, 10, 0);
          }
        }
      }
    }

    /** A pending request for the first chooser is cancelled and asked again,
        since the set of possible choosers changed. */
    method RepeatFirstRequest()
      modifies this`effects
      ensures effects == old(effects) + (if isWaiting && decision == StarterChoosing then
        [Send(Cancel, Some(showman.name)), StopWaiting, PlanEffect(isPaused, AskFirst, 20, 0)] else [])
    {
      if isWaiting && decision == StarterChoosing {
        effects := effects + [Send(Cancel, Some(showman.name)), StopWaiting];
        PlanExecution(AskFirst, 20, 0);
      }
    }

    /** DropPlayerIndex: called right after seat `p` was removed from
        `players`; brings every stored index back onto the remaining seats,
        takes the seat out of the final round's theme deleters (ending the
        round when nobody is left) and renews a pending request for the first
        chooser. */
    method DropPlayerIndex(p: int)
      requires Shaped() && Within(|players| + 1) && 0 <= p <= |players| && |players| >= 1
      modifies this`chooserIndex, this`answererIndex, this`appelaerIndex, this`stakerIndex,
        this`stake, this`order, this`orderIndex, this`themeDeleters, this`questionHistory, this`effects
      ensures Valid()
      ensures old(chooserIndex) == p ==> chooserIndex == LowestScoreIndex(players)
      ensures old(chooserIndex) != p ==> chooserIndex == Shift(old(chooserIndex), p)
      ensures old(answererIndex) == p ==> answererIndex == -1
      ensures old(answererIndex) != p ==> answererIndex == Shift(old(answererIndex), p)
      ensures old(appelaerIndex) == p ==> appelaerIndex == -1
      ensures old(appelaerIndex) != p ==> appelaerIndex == Shift(old(appelaerIndex), p)
      ensures isAuction ==>
        order == OrderAfterDrop(old(order), p, |players|)
        && orderIndex == OrderIndexAfterDrop(old(order), p, |players|, old(orderIndex))
      ensures !isAuction ==> order == old(order) && orderIndex == old(orderIndex)
      ensures isFinalRound && hasThemeDeleters ==> themeDeleters == KeptOrder(old(themeDeleters), p)
      ensures !(isFinalRound && hasThemeDeleters) ==> themeDeleters == old(themeDeleters)
      ensures questionHistory == HistoryAfterDrop(old(questionHistory), p)
      ensures var staker := if old(stakerIndex) == p then SoleStaker(players) else Shift(old(stakerIndex), p);
        isAuction && StakesResumed(players, order, orderIndex, decision) ==>
          stakerIndex == StakerAfterContinue(players, staker) && stake == StakeAfterContinue(players, old(stake), curPriceRight)
      ensures var staker := if old(stakerIndex) == p then SoleStaker(players) else Shift(old(stakerIndex), p);
        !(isAuction && StakesResumed(players, order, orderIndex, decision)) ==> stakerIndex == staker && stake == old(stake)
      ensures effects == old(effects)
        + (if old(answererIndex) == p then
             AnswererDroppedEffects(decision, isFinalRound, isOralNow, showman.name,
               if isPaused then nextTask else currentTask, isPaused) else [])
        + (if isAuction then AuctionEffects(players, order, orderIndex, decision, isOralNow, showman.name, isPaused)
           else [])
        + ((if isFinalRound && hasThemeDeleters then DeleterEffects(themeDeleters, canMoveNextRound, isPaused) else [])
           + (if isWaiting && decision == StarterChoosing then
                [Send(Cancel, Some(showman.name)), StopWaiting, PlanEffect(isPaused, AskFirst, 20, 0)] else []))
    {
      DropIndices(p);
      DropTail(p);
    }

    /** The seat a DeleteTable message removes, or -1 when the message is
        refused: too few seats, an unparsable or out-of-range index, or an
        online human's seat after the game has started. */
    function DeletionIndex(args: seq<string>): (r: int)
      reads this`players, this`stage
      ensures -1 <= r < |players|
      ensures r >= 0 ==>
        |args| > 2 && |players| > 2 && ParseInt(args[2]) == Some(r)
        && !(stage != Before && players[r].isHuman && players[r].isConnected)
    {
      if |args| <= 2 || |players| <= 2 then -1
      else match ParseInt(args[2])
        case None => -1
        case Some(i) =>
          if i <= -1 || i >= |players| then -1
          else if stage != Before && players[i].isHuman && players[i].isConnected then -1
          else i
    }

    /** The removal itself: the seat leaves `players`, the stored indices
        follow, and an online human becomes a viewer. The source adds the
        viewer after DropPlayerIndex; neither step reads what the other
        writes, so the order here does not change the outcome. */
    method RemoveSeat(index: int)
      requires Valid() && 0 <= index < |players| && |players| >= 2
      modifies this`players, this`viewers, this`chooserIndex, this`answererIndex, this`appelaerIndex,
        this`stakerIndex, this`stake, this`order, this`orderIndex, this`themeDeleters, this`questionHistory, this`effects
      ensures Valid()
      ensures var account := old(players)[index];
        players == old(players)[..index] + old(players)[index + 1..]
        && viewers == old(viewers) + (if account.isConnected && account.isHuman then [account] else [])
      ensures old(chooserIndex) == index ==> chooserIndex == LowestScoreIndex(players)
      ensures old(chooserIndex) != index ==> chooserIndex == Shift(old(chooserIndex), index)
      ensures old(answererIndex) == index ==> answererIndex == -1
      ensures old(answererIndex) != index ==> answererIndex == Shift(old(answererIndex), index)
      ensures old(appelaerIndex) == index ==> appelaerIndex == -1
      ensures old(appelaerIndex) != index ==> appelaerIndex == Shift(old(appelaerIndex), index)
      ensures isAuction ==>
        order == OrderAfterDrop(old(order), index, |players|)
        && orderIndex == OrderIndexAfterDrop(old(order), index, |players|, old(orderIndex))
      ensures !isAuction ==> order == old(order) && orderIndex == old(orderIndex)
      ensures isFinalRound && hasThemeDeleters ==> themeDeleters == KeptOrder(old(themeDeleters), index)
      ensures !(isFinalRound && hasThemeDeleters) ==> themeDeleters == old(themeDeleters)
      ensures questionHistory == HistoryAfterDrop(old(questionHistory), index)
      ensures var staker := if old(stakerIndex) == index then SoleStaker(players) else Shift(old(stakerIndex), index);
        isAuction && StakesResumed(players, order, orderIndex, decision) ==>
          stakerIndex == StakerAfterContinue(players, staker) && stake == StakeAfterContinue(players, old(stake), curPriceRight)
      ensures var staker := if old(stakerIndex) == index then SoleStaker(players) else Shift(old(stakerIndex), index);
        !(isAuction && StakesResumed(players, order, orderIndex, decision)) ==> stakerIndex == staker && stake == old(stake)
      ensures effects == old(effects)
        + (if old(answererIndex) == index then
             AnswererDroppedEffects(decision, isFinalRound, isOralNow, showman.name,
               if isPaused then nextTask else currentTask, isPaused) else [])
        + (if isAuction then AuctionEffects(players, order, orderIndex, decision, isOralNow, showman.name, isPaused)
           else [])
        + ((if isFinalRound && hasThemeDeleters then DeleterEffects(themeDeleters, canMoveNextRound, isPaused) else [])
           + (if isWaiting && decision == StarterChoosing then
                [Send(Cancel, Some(showman.name)), StopWaiting, PlanEffect(isPaused, AskFirst, 20, 0)] else []))
    {
      var account := players[index];
      var isOnline := account.isConnected;
      players := players[..index] + players[index + 1..];
      if isOnline && account.isHuman {
        viewers := viewers + [account];
      }
      DropPlayerIndex(index);
    }

    /** The accepted branch of DeleteTable: seat `index` leaves the table and
        the removal is announced. */
    method RemoveTable(index: int)
      requires Valid() && 0 <= index < |players| && |players| > 2
      modifies this`players, this`viewers, this`chooserIndex, this`answererIndex, this`appelaerIndex,
        this`stakerIndex, this`stake, this`order, this`orderIndex, this`themeDeleters, this`questionHistory,
        this`stage, this`isOral, this`effects
      ensures Valid()
      ensures var account := old(players)[index];
        players == old(players)[..index] + old(players)[index + 1..]
        && viewers == old(viewers) + (if account.isConnected && account.isHuman then [account] else [])
      ensures old(chooserIndex) == index ==> chooserIndex == LowestScoreIndex(players)
      ensures old(chooserIndex) != index ==> chooserIndex == Shift(old(chooserIndex), index)
      ensures old(answererIndex) == index ==> answererIndex == -1
      ensures old(answererIndex) != index ==> answererIndex == Shift(old(answererIndex), index)
      ensures old(appelaerIndex) == index ==> appelaerIndex == -1
      ensures old(appelaerIndex) != index ==> appelaerIndex == Shift(old(appelaerIndex), index)
      ensures isAuction ==>
        order == OrderAfterDrop(old(order), index, |players|)
        && orderIndex == OrderIndexAfterDrop(old(order), index, |players|, old(orderIndex))
      ensures !isAuction ==> order == old(order) && orderIndex == old(orderIndex)
      ensures isFinalRound && hasThemeDeleters ==> themeDeleters == KeptOrder(old(themeDeleters), index)
      ensures !(isFinalRound && hasThemeDeleters) ==> themeDeleters == old(themeDeleters)
      ensures questionHistory == HistoryAfterDrop(old(questionHistory), index)
      ensures var staker := if old(stakerIndex) == index then SoleStaker(players) else Shift(old(stakerIndex), index);
        isAuction && StakesResumed(players, order, orderIndex, decision) ==>
          stakerIndex == StakerAfterContinue(players, staker) && stake == StakeAfterContinue(players, old(stake), curPriceRight)
      ensures var staker := if old(stakerIndex) == index then SoleStaker(players) else Shift(old(stakerIndex), index);
        !(isAuction && StakesResumed(players, order, orderIndex, decision)) ==> stakerIndex == staker && stake == old(stake)
      ensures var starts := old(stage) == Before && showman.ready && AllReady(players);
        stage == (if starts then Begin else old(stage))
      ensures var starts := old(stage) == Before && showman.ready && AllReady(players);
        effects == old(effects)
        + (if old(answererIndex) == index then
             AnswererDroppedEffects(decision, isFinalRound, isOralNow, showman.name,
               if isPaused then nextTask else currentTask, isPaused) else [])
        + (if isAuction then AuctionEffects(players, order, orderIndex, decision, isOralNow, showman.name, isPaused)
           else [])
        + ((if isFinalRound && hasThemeDeleters then DeleterEffects(themeDeleters, canMoveNextRound, isPaused) else [])
           + (if isWaiting && decision == StarterChoosing then
                [Send(Cancel, Some(showman.name)), StopWaiting, PlanEffect(isPaused, AskFirst, 20, 0)] else []))
        + RemovalEffects(index, old(players)[index], starts)
    {
      var account := players[index];
      RemoveSeat(index);
      AnnounceRemoval(index, account);
    }

    /** DeleteTable: removes a seat, re-normalises the stored indices, moves an
        online human to the viewers, deletes a computer player's client and
        starts a game whose remaining main persons are all ready. */
    method DeleteTable(args: seq<string>)
      requires Valid()
      modifies this`players, this`viewers, this`chooserIndex, this`answererIndex, this`appelaerIndex,
        this`stakerIndex, this`stake, this`order, this`orderIndex, this`themeDeleters, this`questionHistory,
        this`stage, this`isOral, this`effects
      ensures Valid()
      ensures old(DeletionIndex(args)) == -1 ==>
        unchanged(this`players, this`viewers, this`chooserIndex, this`answererIndex, this`appelaerIndex,
          this`stakerIndex, this`stake, this`order, this`orderIndex, this`themeDeleters, this`questionHistory,
          this`stage, this`isOral, this`effects)
      ensures var i := old(DeletionIndex(args));
        i >= 0 ==>
          var account := old(players)[i];
          players == old(players)[..i] + old(players)[i + 1..]
          && viewers == old(viewers) + (if account.isConnected && account.isHuman then [account] else [])
      ensures var i := old(DeletionIndex(args));
        i >= 0 ==>
          chooserIndex == (if old(chooserIndex) == i then LowestScoreIndex(players) else Shift(old(chooserIndex), i))
          && answererIndex == (if old(answererIndex) == i then -1 else Shift(old(answererIndex), i))
          && appelaerIndex == (if old(appelaerIndex) == i then -1 else Shift(old(appelaerIndex), i))
      ensures var i := old(DeletionIndex(args));
        i >= 0 && isAuction ==>
          order == OrderAfterDrop(old(order), i, |players|)
          && orderIndex == OrderIndexAfterDrop(old(order), i, |players|, old(orderIndex))
      ensures !isAuction ==> order == old(order) && orderIndex == old(orderIndex)
      ensures var i := old(DeletionIndex(args));
        i >= 0 && isFinalRound && hasThemeDeleters ==> themeDeleters == KeptOrder(old(themeDeleters), i)
      ensures !(isFinalRound && hasThemeDeleters) ==> themeDeleters == old(themeDeleters)
      ensures var i := old(DeletionIndex(args));
        i >= 0 ==> questionHistory == HistoryAfterDrop(old(questionHistory), i)
      ensures var i := old(DeletionIndex(args));
        var staker := if old(stakerIndex) == i then SoleStaker(players) else Shift(old(stakerIndex), i);
        i >= 0 && isAuction && StakesResumed(players, order, orderIndex, decision) ==>
          stakerIndex == StakerAfterContinue(players, staker) && stake == StakeAfterContinue(players, old(stake), curPriceRight)
      ensures var i := old(DeletionIndex(args));
        var staker := if old(stakerIndex) == i then SoleStaker(players) else Shift(old(stakerIndex), i);
        i >= 0 && !(isAuction && StakesResumed(players, order, orderIndex, decision)) ==>
          stakerIndex == staker && stake == old(stake)
      ensures var i := old(DeletionIndex(args));
        i >= 0 ==>
          var starts := old(stage) == Before && showman.ready && AllReady(players);
          stage == (if starts then Begin else old(stage))
          && effects == old(effects)
            + (if old(answererIndex) == i then
                 AnswererDroppedEffects(decision, isFinalRound, isOralNow, showman.name,
                   if isPaused then nextTask else currentTask, isPaused) else [])
            + (if isAuction then AuctionEffects(players, order, orderIndex, decision, isOralNow, showman.name, isPaused)
               else [])
            + ((if isFinalRound && hasThemeDeleters then DeleterEffects(themeDeleters, canMoveNextRound, isPaused) else [])
               + (if isWaiting && decision == StarterChoosing then
                    [Send(Cancel, Some(showman.name)), StopWaiting, PlanEffect(isPaused, AskFirst, 20, 0)] else []))
            + RemovalEffects(i, old(players)[i], starts)
    {
      var index := DeletionIndex(args);
      if index != -1 {
        RemoveTable(index);
      }
    }

    /** What DeleteTable does once the seat is gone: a computer player's
        client is deleted, the removal is announced, a game whose main persons
        are all ready starts, and the person list is refreshed. */
    method AnnounceRemoval(index: int, account: Account)
      modifies this`stage, this`isOral, this`effects
      ensures var starts := old(stage) == Before && showman.ready && AllReady(players);
        stage == (if starts then Begin else old(stage))
        && effects == old(effects) + RemovalEffects(index, account, starts)
    {
      effects := effects + (if account.isHuman then [] else [DeleteClient(account.name)])
        + [Send(TableDeleted(index), None), Replic];
      if stage == Before && showman.ready && AllReady(players) {
        StartGame();
      }
      effects := effects + [PersonsChanged];
    }

    /** AddTable: appends a free human seat while the table has room. */
    method AddTable()
      requires Valid()
      modifies this`players, this`effects
      ensures Valid()
      ensures |old(players)| >= MaxPlayers ==> unchanged(this)
      ensures |old(players)| < MaxPlayers ==>
        players == old(players) + [FreeSeat()]
        && effects == old(effects) + [Send(TableAdded, None), Replic, PersonsChanged]
    {
      if |players| >= MaxPlayers {
        return;
      }
      players := players + [FreeSeat()];
      effects := effects + [Send(TableAdded, None), Replic, PersonsChanged];
    }

    /** A Config message the game acts on: from the host, who is connected,
        with a sub-command. */
    predicate HostConfigures(sender: string, args: seq<string>)
      reads this`hostName, this`showman, this`players, this`viewers
    {
      hostName == Some(sender) && |args| > 1 && sender in AllPersons()
    }

    /** A configuration request from the connected host that deletes a table. */
    predicate ConfigDeletes(sender: string, args: seq<string>)
      reads this`hostName, this`showman, this`players, this`viewers
    {
      HostConfigures(sender, args) && args[1] == ConfigDeleteTable
    }

    /** ProcessConfig: table topology commands, accepted from the connected host only. */
    method ProcessConfig(sender: string, args: seq<string>)
      requires Valid()
      modifies this`players, this`viewers, this`chooserIndex, this`answererIndex, this`appelaerIndex,
        this`stakerIndex, this`stake, this`order, this`orderIndex, this`themeDeleters, this`questionHistory,
        this`stage, this`isOral, this`effects
      ensures Valid()
      ensures !old(HostConfigures(sender, args)) ==> unchanged(this)
      ensures old(HostConfigures(sender, args)) && args[1] == ConfigAddTable && |old(players)| >= MaxPlayers ==>
        unchanged(this)
      ensures old(HostConfigures(sender, args)) && args[1] == ConfigAddTable && |old(players)| < MaxPlayers ==>
        players == old(players) + [FreeSeat()]
        && effects == old(effects) + [Send(TableAdded, None), Replic, PersonsChanged]
      ensures old(ConfigDeletes(sender, args)) && old(DeletionIndex(args)) == -1 ==>
        unchanged(this`players, this`viewers, this`chooserIndex, this`answererIndex, this`appelaerIndex,
          this`stakerIndex, this`stake, this`order, this`orderIndex, this`themeDeleters, this`questionHistory,
          this`stage, this`isOral, this`effects)
      ensures var i := old(DeletionIndex(args));
        old(ConfigDeletes(sender, args)) && i >= 0 ==>
          var account := old(players)[i];
          players == old(players)[..i] + old(players)[i + 1..]
          && viewers == old(viewers) + (if account.isConnected && account.isHuman then [account] else [])
      ensures var i := old(DeletionIndex(args));
        old(ConfigDeletes(sender, args)) && i >= 0 ==>
          chooserIndex == (if old(chooserIndex) == i then LowestScoreIndex(players) else Shift(old(chooserIndex), i))
          && answererIndex == (if old(answererIndex) == i then -1 else Shift(old(answererIndex), i))
          && appelaerIndex == (if old(appelaerIndex) == i then -1 else Shift(old(appelaerIndex), i))
      ensures var i := old(DeletionIndex(args));
        old(ConfigDeletes(sender, args)) && i >= 0 && isAuction ==>
          order == OrderAfterDrop(old(order), i, |players|)
          && orderIndex == OrderIndexAfterDrop(old(order), i, |players|, old(orderIndex))
      ensures !isAuction ==> order == old(order) && orderIndex == old(orderIndex)
      ensures var i := old(DeletionIndex(args));
        old(ConfigDeletes(sender, args)) && i >= 0 && isFinalRound && hasThemeDeleters ==> themeDeleters == KeptOrder(old(themeDeleters), i)
      ensures !(isFinalRound && hasThemeDeleters) ==> themeDeleters == old(themeDeleters)
      ensures var i := old(DeletionIndex(args));
        old(ConfigDeletes(sender, args)) && i >= 0 ==> questionHistory == HistoryAfterDrop(old(questionHistory), i)
      ensures var i := old(DeletionIndex(args));
        var staker := if old(stakerIndex) == i then SoleStaker(players) else Shift(old(stakerIndex), i);
        old(ConfigDeletes(sender, args)) && i >= 0 && isAuction && StakesResumed(players, order, orderIndex, decision) ==>
          stakerIndex == StakerAfterContinue(players, staker) && stake == StakeAfterContinue(players, old(stake), curPriceRight)
      ensures var i := old(DeletionIndex(args));
        var staker := if old(stakerIndex) == i then SoleStaker(players) else Shift(old(stakerIndex), i);
        old(ConfigDeletes(sender, args)) && i >= 0 && !(isAuction && StakesResumed(players, order, orderIndex, decision)) ==>
          stakerIndex == staker && stake == old(stake)
      ensures var i := old(DeletionIndex(args));
        old(ConfigDeletes(sender, args)) && i >= 0 ==>
          var starts := old(stage) == Before && showman.ready && AllReady(players);
          stage == (if starts then Begin else old(stage))
          && effects == old(effects)
            + (if old(answererIndex) == i then
                 AnswererDroppedEffects(decision, isFinalRound, isOralNow, showman.name,
                   if isPaused then nextTask else currentTask, isPaused) else [])
            + (if isAuction then AuctionEffects(players, order, orderIndex, decision, isOralNow, showman.name, isPaused)
               else [])
            + ((if isFinalRound && hasThemeDeleters then DeleterEffects(themeDeleters, canMoveNextRound, isPaused) else [])
               + (if isWaiting && decision == StarterChoosing then
                    [Send(Cancel, Some(showman.name)), StopWaiting, PlanEffect(isPaused, AskFirst, 20, 0)] else []))
            + RemovalEffects(i, old(players)[i], starts)
      ensures (old(HostConfigures(sender, args)) && args[1] != ConfigAddTable && args[1] != ConfigDeleteTable)
        ==> unchanged(this)
    {
      if hostName != Some(sender) || |args| <= 1 {
        return;
      }
      if sender !in AllPersons() {
        return;
      }
      if args[1] == ConfigAddTable {
        AddTable();
      } else if args[1] == ConfigDeleteTable {
        DeleteTable(args);
      }
    }

    // -------------------------------------------------------------------------
    // Readiness and scores

    /** The readiness pass of Ready over the main persons (the showman, then
        the players): the sender's entries take the requested value; `found`
        tells whether one of them changed, `readyAll` whether every main person
        is now ready. */
    method SetReady(sender: string, toReady: bool) returns (found: bool, readyAll: bool)
      modifies this`showman, this`players
      ensures showman == ReadyFor(old(showman), sender, toReady)
      ensures |players| == |old(players)|
      ensures forall k :: 0 <= k < |players| ==> players[k] == ReadyFor(old(players)[k], sender, toReady)
      ensures found == (ChangesReady(old(showman), sender, toReady)
        || exists k :: 0 <= k < |old(players)| && ChangesReady(old(players)[k], sender, toReady))
      ensures readyAll == (showman.ready && AllReady(players))
    {
      var showmanChanged := false;
      if ChangesReady(showman, sender, toReady) {
        showman := showman.(ready := toReady);
        showmanChanged := true;
      }
      var items, playerChanged, playersReady := ReadyPass(players, sender, toReady);
      players := items;
      found := showmanChanged || playerChanged;
      readyAll := showman.ready && playersReady;
    }

    /** Ready: before the game starts, the sender's readiness among the
        showman and the players is set to the requested value; the game starts
        when every main person is ready, or, in an automatic game, when every
        player is connected. */
    method OnReady(sender: string, args: seq<string>)
      requires Valid() && |args| >= 1
      modifies this`showman, this`players, this`stage, this`isOral, this`effects
      ensures Valid()
      ensures old(stage) != Before ==> unchanged(this`showman, this`players, this`stage, this`isOral, this`effects)
      ensures old(stage) == Before ==>
        var toReady := |args| == 1 || args[1] == "+";
        var found := ChangesReady(old(showman), sender, toReady)
          || exists k :: 0 <= k < |old(players)| && ChangesReady(old(players)[k], sender, toReady);
        var starts := (showman.ready && AllReady(players)) || (isAutomatic && AllConnected(players));
        showman == ReadyFor(old(showman), sender, toReady)
        && |players| == |old(players)|
        && (forall k :: 0 <= k < |players| ==> players[k] == ReadyFor(old(players)[k], sender, toReady))
        && stage == (if starts then Begin else Before)
        && effects == old(effects)
          + (if found then [Send(ReadyChanged(sender, toReady), None)] else [])
          + (if starts then [StageChanged, Schedule(StartGameTask, 1, 1)] else [])
    {
      if stage == Before {
        var toReady := |args| == 1 || args[1] == "+";
        var found, readyAll := SetReady(sender, toReady);
        // an automatic game also starts once every player is connected
        AnnounceReady(sender, toReady, found, readyAll || (isAutomatic && AllConnected(players)));
      }
    }

    /** What Ready does once the flags are set: a change is broadcast, and the
        game starts when `starts` holds. */
    method AnnounceReady(sender: string, toReady: bool, found: bool, starts: bool)
      modifies this`stage, this`isOral, this`effects
      ensures stage == (if starts then Begin else old(stage))
      ensures effects == old(effects)
        + (if found then [Send(ReadyChanged(sender, toReady), None)] else [])
        + (if starts then [StageChanged, Schedule(StartGameTask, 1, 1)] else [])
    {
      if found {
        effects := effects + [Send(ReadyChanged(sender, toReady), None)];
      }
      if starts {
        StartGame();
      }
    }

    /** A Change message the handler applies: from the showman, with a valid
        1-based player position and a score. */
    predicate EditsScore(sender: string, args: seq<string>)
      reads this`showman, this`players
    {
      sender == showman.name && |args| == 3 && ParseInt(args[1]).Some? && ParseInt(args[2]).Some?
      && 1 <= ParseInt(args[1]).value <= |players|
    }

    /** Change: the showman sets the score of the player at 1-based position
        args[1] to args[2]. */
    method OnChanged(sender: string, args: seq<string>)
      requires Valid()
      modifies this`players, this`effects
      ensures Valid()
      ensures !old(EditsScore(sender, args)) ==> unchanged(this`players, this`effects)
      ensures old(EditsScore(sender, args)) ==>
        var i := ParseInt(args[1]).value - 1;
        players == old(players)[i := old(players)[i].(sum := ParseInt(args[2]).value)]
        && effects == old(effects) + [Replic, InformSums]
    {
      if EditsScore(sender, args) {
        var i := ParseInt(args[1]).value - 1;
        players, effects := players[i := players[i].(sum := ParseInt(args[2]).value)], effects + [Replic, InformSums];
      }
    }

    // -------------------------------------------------------------------------
    // Stakes

    /** The Stake message is from the player whose turn it is, or from the
        showman standing in for an oral game, while an auction stake is awaited. */
    predicate MayStake(sender: string)
      reads this`isWaiting, this`decision, this`activePlayer, this`isOralNow, this`showman
    {
      isWaiting && decision == AuctionStakeMaking
      && ((activePlayer.Some? && sender == activePlayer.value.name) || (isOralNow && sender == showman.name))
    }

    /** The end of an accepted decision message: in an oral game the other side
        of the decision gets Cancel (there is no active player to address when
        the showman answered for nobody, which faults), then Stop(Decision). */
    ghost predicate DecisionClosed(sender: string, oldStop: StopReason, oldEffects: seq<Effect>)
      reads this`isOralNow, this`showman, this`activePlayer, this`stopReason, this`effects
    {
      if isOralNow && sender == showman.name && activePlayer.None? then
        stopReason == oldStop && effects == oldEffects + [HandlerFault]
      else
        stopReason == StopDecision
        && effects == oldEffects
          + (if isOralNow then
               [Send(Cancel, Some(if sender == showman.name then activePlayer.value.name else showman.name))]
             else [])
          + [Stop(StopDecision)]
    }

    method CloseStake(sender: string)
      modifies this`stopReason, this`effects
      ensures DecisionClosed(sender, old(stopReason), old(effects))
    {
      if isOralNow {
        if sender == showman.name {
          if activePlayer.None? {
            effects := effects + [HandlerFault];
            return;
          }
          effects := effects + [Send(Cancel, Some(activePlayer.value.name))];
        } else {
          effects := effects + [Send(Cancel, Some(showman.name))];
        }
      }
      StopWith(StopDecision);
    }

    /** Stake: a stake mode 0..3 allowed by StakeVariants is recorded and the
        decision closed; a Sum stake must also be a multiple of 100 between the
        rounded minimum raise and the active player's score. A disallowed mode
        clears StakeType and still closes the decision. */
    method OnStake(sender: string, args: seq<string>)
      requires Shaped()
      modifies this`stakeType, this`stakeSum, this`stopReason, this`effects
      ensures !MayStake(sender) ==> unchanged(this`stakeType, this`stakeSum, this`stopReason, this`effects)
      ensures MayStake(sender) && |args| < 2 ==>
        unchanged(this`stakeType, this`stakeSum, this`stopReason) && effects == old(effects) + [HandlerFault]
      ensures MayStake(sender) && |args| >= 2 && !StakeCodeOk(args[1]) ==>
        unchanged(this`stakeType, this`stakeSum, this`stopReason, this`effects)
      ensures MayStake(sender) && |args| >= 2 && StakeCodeOk(args[1]) ==>
        var code := ParseInt(args[1]).value;
        var minimum := RoundUpToHundred(RaiseBase(stake, curPriceRight));
        if !stakeVariants[code] then
          stakeType == None && stakeSum == old(stakeSum) && DecisionClosed(sender, old(stopReason), old(effects))
        else if StakeModeOf(code) != SumStake then
          stakeType == Some(StakeModeOf(code)) && stakeSum == old(stakeSum)
          && DecisionClosed(sender, old(stopReason), old(effects))
        else if |args| < 3 then
          stakeType == Some(SumStake) && stakeSum == old(stakeSum) && stopReason == old(stopReason)
          && effects == old(effects) + [HandlerFault]
        else if ParseInt(args[2]).None? || ParseInt(args[2]).value < minimum then
          stakeType == None && stakeSum == old(stakeSum) && unchanged(this`stopReason, this`effects)
        else if activePlayer.None? then
          stakeType == Some(SumStake) && stakeSum == old(stakeSum) && stopReason == old(stopReason)
          && effects == old(effects) + [HandlerFault]
        else if !SumStakeAccepted(ParseInt(args[2]).value, minimum, activePlayer.value.sum) then
          stakeType == None && stakeSum == old(stakeSum) && unchanged(this`stopReason, this`effects)
        else
          stakeType == Some(SumStake) && stakeSum == ParseInt(args[2]).value
          && DecisionClosed(sender, old(stopReason), old(effects))
    {
      if MayStake(sender) {
        if |args| < 2 {
          effects := effects + [HandlerFault];
        } else if StakeCodeOk(args[1]) {
          var code := ParseInt(args[1]).value;
          var mode := StakeModeOf(code);
          if !stakeVariants[code] {
            // a disallowed mode is dropped, and the decision still closes
            stakeType := None;
            CloseStake(sender);
          } else if mode == SumStake {
            stakeType := Some(SumStake);
            StakeSum(sender, args);
          } else {
            stakeType := Some(mode);
            CloseStake(sender);
          }
        }
      }
    }

    /** The Sum branch of Stake: the amount in the third argument is checked
        against the rounded minimum raise and the active player's score. */
    method StakeSum(sender: string, args: seq<string>)
      requires stakeType == Some(SumStake)
      modifies this`stakeType, this`stakeSum, this`stopReason, this`effects
      ensures
        var minimum := RoundUpToHundred(RaiseBase(stake, curPriceRight));
        if |args| < 3 then
          stakeType == Some(SumStake) && stakeSum == old(stakeSum) && stopReason == old(stopReason)
          && effects == old(effects) + [HandlerFault]
        else if ParseInt(args[2]).None? || ParseInt(args[2]).value < minimum then
          stakeType == None && stakeSum == old(stakeSum) && unchanged(this`stopReason, this`effects)
        else if activePlayer.None? then
          stakeType == Some(SumStake) && stakeSum == old(stakeSum) && stopReason == old(stopReason)
          && effects == old(effects) + [HandlerFault]
        else if !SumStakeAccepted(ParseInt(args[2]).value, minimum, activePlayer.value.sum) then
          stakeType == None && stakeSum == old(stakeSum) && unchanged(this`stopReason, this`effects)
        else
          stakeType == Some(SumStake) && stakeSum == ParseInt(args[2]).value
          && DecisionClosed(sender, old(stopReason), old(effects))
    {
      var minimum := MinimumStake(stake, curPriceRight);
      if |args| < 3 {
        effects := effects + [HandlerFault];
        return;
      }
      var sum := ParseInt(args[2]);
      if sum.None? {
        stakeType := None;
        return;
      }
      if sum.value < minimum {
        stakeType := None;
        return;
      }
      if activePlayer.None? {
        effects := effects + [HandlerFault];
        return;
      }
      if sum.value > activePlayer.value.sum || sum.value % 100 != 0 {
        stakeType := None;
        return;
      }
      stakeSum := sum.value;
      CloseStake(sender);
    }

    /** The player whose final stake a message from `sender` sets, or -1. */
    method FindFinalStaker(sender: string) returns (index: int)
      ensures index == FirstFinalStaker(players, sender)
    {
      index := -1;
      var i := 0;
      while i < |players|
        invariant 0 <= i <= |players|
        invariant forall j :: 0 <= j < i ==>
          !(players[j].inGame && players[j].finalStake == -1 && players[j].name == sender)
      {
        var player := players[i];
        if player.inGame && player.finalStake == -1 && sender == player.name {
          index := i;
          return;
        }
        i := i + 1;
      }
    }

    /** The stake `text` of the player at `i` is recorded, and counted as
        one staker fewer, when it is a number the player may stake. */
    method TakeFinalStake(i: nat, text: string)
      requires Valid() && i < |players|
      modifies this`players, this`numOfStakers, this`effects
      ensures Valid()
      ensures StakeTaken(old(players), i, text) ==>
        players == old(players)[i := old(players)[i].(finalStake := ParseInt(text).value)]
        && numOfStakers == old(numOfStakers) - 1
        && effects == old(effects) + [Send(PersonFinalStake(i), None)]
      ensures !StakeTaken(old(players), i, text) ==>
        unchanged(this`players, this`numOfStakers, this`effects)
    {
      var player := players[i];
      var finalStake := ParseInt(text);
      if finalStake.Some? && finalStake.value >= 1 && finalStake.value <= player.sum {
        players, numOfStakers, effects :=
          players[i := player.(finalStake := finalStake.value)], numOfStakers - 1,
          effects + [Send(PersonFinalStake(i), None)];
      }
      ValidKept();
    }

    /** FinalStake: a player still in the final round who has not staked yet
        stakes between 1 and the player's score; the decision closes once no
        staker is left. */
    method OnFinalStake(sender: string, args: seq<string>)
      requires Valid()
      modifies this`players, this`numOfStakers, this`stopReason, this`effects
      ensures Valid()
      ensures !(isWaiting && decision == FinalStakeMaking) ==>
        unchanged(this`players, this`numOfStakers, this`stopReason, this`effects)
      ensures isWaiting && decision == FinalStakeMaking ==>
        var i := FirstFinalStaker(old(players), sender);
        if i >= 0 && |args| < 2 then
          unchanged(this`players, this`numOfStakers, this`stopReason)
          && effects == old(effects) + [HandlerFault]
        else
          var accepted := i >= 0 && StakeTaken(old(players), i, args[1]);
          players == (if accepted then old(players)[i := old(players)[i].(finalStake := ParseInt(args[1]).value)]
                      else old(players))
          && numOfStakers == (if accepted then old(numOfStakers) - 1 else old(numOfStakers))
          && stopReason == (if numOfStakers == 0 then StopDecision else old(stopReason))
          && effects == old(effects)
            + (if accepted then [Send(PersonFinalStake(i), None)] else [])
            + (if numOfStakers == 0 then [Stop(StopDecision)] else [])
    {
      if isWaiting && decision == FinalStakeMaking {
        var i := FindFinalStaker(sender);
        if i >= 0 && |args| < 2 {
          effects := effects + [HandlerFault];
        } else {
          StakeAndClose(i, args);
        }
      }
    }

    /** A stake from the player at `i` (none when `i` is -1), then the
        decision closes once no staker is left. */
    method StakeAndClose(i: int, args: seq<string>)
      requires Valid() && -1 <= i < |players| && (i >= 0 ==> |args| >= 2)
      modifies this`players, this`numOfStakers, this`stopReason, this`effects
      ensures Valid()
      ensures var accepted := i >= 0 && StakeTaken(old(players), i, args[1]);
        players == (if accepted then old(players)[i := old(players)[i].(finalStake := ParseInt(args[1]).value)]
                    else old(players))
        && numOfStakers == (if accepted then old(numOfStakers) - 1 else old(numOfStakers))
        && stopReason == (if numOfStakers == 0 then StopDecision else old(stopReason))
        && effects == old(effects)
          + (if accepted then [Send(PersonFinalStake(i), None)] else [])
          + (if numOfStakers == 0 then [Stop(StopDecision)] else [])
    {
      if i >= 0 {
        TakeFinalStake(i, args[1]);
      }
      if numOfStakers == 0 {
        StopWith(StopDecision);
      }
    }

    /** The CatCost message is from the answerer, or from the showman standing
        in for an oral game, while a cat-in-a-bag price is awaited. */
    predicate MaySetCatCost(sender: string)
      reads this`isWaiting, this`decision, this`answererIndex, this`players, this`isOralNow, this`showman
    {
      isWaiting && decision == CatCostSetting
      && ((0 <= answererIndex < |players| && sender == players[answererIndex].name)
          || (isOralNow && sender == showman.name))
    }

    /** CatCost: a price on the allowed grid becomes the question price; the
        decision closes whatever the value, unless reading the value faults. */
    method OnCatCost(sender: string, args: seq<string>)
      modifies this`curPriceRight, this`stopReason, this`effects
      ensures !MaySetCatCost(sender) ==> unchanged(this`curPriceRight, this`stopReason, this`effects)
      ensures MaySetCatCost(sender) ==>
        var inRange := |args| >= 2 && ParseInt(args[1]).Some?
          && catMinimum <= ParseInt(args[1]).value <= catMaximum;
        if |args| < 2 || (inRange && catStep == 0) then
          unchanged(this`curPriceRight, this`stopReason) && effects == old(effects) + [HandlerFault]
        else
          curPriceRight == (if inRange && CatCostAccepted(ParseInt(args[1]).value, catMinimum, catMaximum, catStep)
                            then ParseInt(args[1]).value else old(curPriceRight))
          && stopReason == StopDecision && effects == old(effects) + [Stop(StopDecision)]
    {
      if MaySetCatCost(sender) {
        if |args| < 2 {
          effects := effects + [HandlerFault];
        } else {
          var sum := ParseInt(args[1]);
          var inRange := sum.Some? && sum.value >= catMinimum && sum.value <= catMaximum;
          if inRange && catStep == 0 {
            // the remainder by a zero step throws
            effects := effects + [HandlerFault];
          } else {
            if inRange && (sum.value - catMinimum) % catStep == 0 {
              curPriceRight := sum.value;
            }
            StopWith(StopDecision);
          }
        }
      }
    }

    // -------------------------------------------------------------------------
    // Appellation

    /** The position of the first answer of seat `i` in QuestionHistory. */
    method FindAnswerBy(i: int) returns (index: int)
      ensures index == FirstAnswerBy(questionHistory, i)
    {
      index := -1;
      var j := 0;
      while j < |questionHistory|
        invariant 0 <= j <= |questionHistory|
        invariant forall t :: 0 <= t < j ==> questionHistory[t].playerIndex != i
      {
        if questionHistory[j].playerIndex == i {
          index := j;
          return;
        }
        j := j + 1;
      }
    }

    /** Apellate: while appellation is allowed, a player disputes either the
        rejection of the player's own first answer ("+") or the acceptance of
        the last answer ("-"); an appellant found starts the appellation once. */
    method OnApellation(sender: string, args: seq<string>)
      requires Valid() && |args| >= 1
      modifies this`isAppellationForRightAnswer, this`appellationSource, this`appelaerIndex,
        this`allowAppellation, this`stopReason, this`effects
      ensures Valid()
      ensures !old(allowAppellation) ==>
        unchanged(this`isAppellationForRightAnswer, this`appellationSource, this`appelaerIndex,
          this`allowAppellation, this`stopReason, this`effects)
      ensures old(allowAppellation) ==>
        isAppellationForRightAnswer == (|args| == 1 || args[1] == "+")
        && appellationSource == sender
        && appelaerIndex == Appellant(players, questionHistory, sender, isAppellationForRightAnswer)
        && allowAppellation == (appelaerIndex == -1)
        && stopReason == (if appelaerIndex != -1 then StopAppellation else old(stopReason))
        && effects == old(effects) + (if appelaerIndex != -1 then [Stop(StopAppellation)] else [])
    {
      if allowAppellation {
        var forRight := |args| == 1 || args[1] == "+";
        var index := FindAppellant(sender, forRight);
        isAppellationForRightAnswer, appellationSource, appelaerIndex := forRight, sender, index;
        if index != -1 {
          allowAppellation := false;
          StopWith(StopAppellation);
        }
      }
      ValidKept();
    }

    /** The player an appellation from `sender` is for: with `forRight`, the
        sender whose first answer was rejected; otherwise the author of the
        last answer when it was accepted and the sender is a player. */
    method FindAppellant(sender: string, forRight: bool) returns (index: int)
      requires Valid()
      ensures -1 <= index < |players|
      ensures index == Appellant(players, questionHistory, sender, forRight)
    {
      index := -1;
      var i := FindPlayer(sender);
      if forRight {
        if i >= 0 {
          var j := FindAnswerBy(i);
          if j >= 0 && !questionHistory[j].isRight {
            index := i;
          }
        }
      } else {
        if i < 0 {
          // only players may dispute
          return;
        }
        var count := |questionHistory|;
        if count > 0 && questionHistory[count - 1].isRight {
          index := questionHistory[count - 1].playerIndex;
        }
      }
    }

    // -------------------------------------------------------------------------
    // Pause

    /** OnPauseCore: pausing freezes the thinking and media sub-states and
        reports each timer's elapsed time; resuming shifts every timer start by
        the pause length, restores the sub-states and reports the same elapsed
        times. Pausing a paused game or resuming a running one does nothing. */
    method OnPauseCore(enable: bool, now: int) returns (times: Option<seq<int>>)
      requires Shaped()
      modifies this`isPaused, this`pauseStartTime, timerStart, this`isThinking, this`isThinkingPaused,
        this`isPlayingMedia, this`isPlayingMediaPaused, this`timeThinking, this`stopReason, this`effects
      ensures enable == old(isPaused) ==>
        times == None && unchanged(timerStart)
        && unchanged(this`isPaused, this`pauseStartTime, this`isThinking, this`isThinkingPaused,
             this`isPlayingMedia, this`isPlayingMediaPaused, this`timeThinking, this`stopReason, this`effects)
      ensures enable && !old(isPaused) ==>
        isPaused && pauseStartTime == now
        && timerStart[..] == old(timerStart[..])
        && times == Some(ElapsedTenths(now, old(timerStart[..])))
        && timeThinking == old(timeThinking) + (if old(isThinking) then now - old(timerStart[1]) else 0)
        && !isThinking && isThinkingPaused == (old(isThinkingPaused) || old(isThinking))
        && !isPlayingMedia && isPlayingMediaPaused == (old(isPlayingMediaPaused) || old(isPlayingMedia))
        && stopReason == StopPause
        && effects == old(effects) + [Stop(StopPause), Replic, Send(PauseChanged(true, times.value), None)]
      ensures !enable && old(isPaused) ==>
        !isPaused && pauseStartTime == old(pauseStartTime)
        && (forall i :: 0 <= i < TimersCount ==> timerStart[i] == old(timerStart[i]) + (now - old(pauseStartTime)))
        && times == Some(ElapsedTenths(old(pauseStartTime), old(timerStart[..])))
        && timeThinking == old(timeThinking)
        && !isThinkingPaused && isThinking == (old(isThinking) || old(isThinkingPaused))
        && !isPlayingMediaPaused && isPlayingMedia == (old(isPlayingMedia) || old(isPlayingMediaPaused))
        && stopReason == old(stopReason)
        && effects == old(effects)
          + (if old(stopReason) == StopPause then [CancelStop]
             else [ResumeExecution] + (if old(stopReason) == StopDecision then [ExecuteImmediate] else []))
          + [Replic, Send(PauseChanged(false, times.value), None)]
    {
      if enable == isPaused {
        return None;
      }
      var elapsed;
      if enable {
        elapsed := PauseGame(now);
      } else {
        elapsed := ResumeGame(now);
      }
      times := Some(elapsed);
    }

    /** The pausing half of OnPauseCore. */
    method PauseGame(now: int) returns (elapsed: seq<int>)
      requires Shaped() && !isPaused
      modifies this`isPaused, this`pauseStartTime, this`isThinking, this`isThinkingPaused,
        this`isPlayingMedia, this`isPlayingMediaPaused, this`timeThinking, this`stopReason, this`effects
      ensures isPaused && pauseStartTime == now
      ensures elapsed == ElapsedTenths(now, timerStart[..])
      ensures timeThinking == old(timeThinking) + (if old(isThinking) then now - timerStart[1] else 0)
      ensures !isThinking && isThinkingPaused == (old(isThinkingPaused) || old(isThinking))
      ensures !isPlayingMedia && isPlayingMediaPaused == (old(isPlayingMediaPaused) || old(isPlayingMedia))
      ensures stopReason == StopPause
      ensures effects == old(effects) + [Stop(StopPause), Replic, Send(PauseChanged(true, elapsed), None)]
    {
      var thinking, thinkingPaused, time := isThinking, isThinkingPaused, timeThinking;
      if thinking {
        time := time + (now - timerStart[1]);
        thinking, thinkingPaused := false, true;
      }
      var media, mediaPaused := isPlayingMedia, isPlayingMediaPaused;
      if media {
        media, mediaPaused := false, true;
      }
      elapsed := ElapsedAt(timerStart, now);
      isPaused, pauseStartTime, isThinking, isThinkingPaused, timeThinking, isPlayingMedia, isPlayingMediaPaused :=
        true, now, thinking, thinkingPaused, time, media, mediaPaused;
      stopReason, effects := StopPause, effects + [Stop(StopPause), Replic, Send(PauseChanged(true, elapsed), None)];
    }

    /** The resuming half of OnPauseCore. */
    method ResumeGame(now: int) returns (elapsed: seq<int>)
      requires Shaped() && isPaused
      modifies this`isPaused, timerStart, this`isThinking, this`isThinkingPaused,
        this`isPlayingMedia, this`isPlayingMediaPaused, this`effects
      ensures !isPaused
      ensures forall i :: 0 <= i < TimersCount ==> timerStart[i] == old(timerStart[i]) + (now - pauseStartTime)
      ensures elapsed == ElapsedTenths(pauseStartTime, old(timerStart[..]))
      ensures !isThinkingPaused && isThinking == (old(isThinking) || old(isThinkingPaused))
      ensures !isPlayingMediaPaused && isPlayingMedia == (old(isPlayingMedia) || old(isPlayingMediaPaused))
      ensures effects == old(effects)
        + (if stopReason == StopPause then [CancelStop]
           else [ResumeExecution] + (if stopReason == StopDecision then [ExecuteImmediate] else []))
        + [Replic, Send(PauseChanged(false, elapsed), None)]
    {
      elapsed := ElapsedAt(timerStart, pauseStartTime);
      ShiftTimers(timerStart, now - pauseStartTime);
      var media, mediaPaused := isPlayingMedia, isPlayingMediaPaused;
      if mediaPaused {
        media, mediaPaused := true, false;
      }
      var thinking, thinkingPaused := isThinking, isThinkingPaused;
      if thinkingPaused {
        thinking, thinkingPaused := true, false;
      }
      var resumed: seq<Effect> := [CancelStop];
      if stopReason != StopPause {
        resumed := [ResumeExecution] + (if stopReason == StopDecision then [ExecuteImmediate] else []);
      }
      isPaused, isPlayingMedia, isPlayingMediaPaused, isThinking, isThinkingPaused :=
        false, media, mediaPaused, thinking, thinkingPaused;
      effects := effects + resumed + [Replic, Send(PauseChanged(false, elapsed), None)];
    }

    /** A pause followed by a resume reports the same elapsed times twice and
        moves every timer start by the length of the pause. */
    method PauseThenResume(pausedAt: int, resumedAt: int) returns (onPause: Option<seq<int>>, onResume: Option<seq<int>>)
      requires Shaped() && !isPaused
      modifies this`isPaused, this`pauseStartTime, timerStart, this`isThinking, this`isThinkingPaused,
        this`isPlayingMedia, this`isPlayingMediaPaused, this`timeThinking, this`stopReason, this`effects
      ensures !isPaused
      ensures onPause.Some? && onPause == onResume
      ensures forall i :: 0 <= i < TimersCount ==> timerStart[i] == old(timerStart[i]) + (resumedAt - pausedAt)
      ensures isThinking == (old(isThinking) || old(isThinkingPaused))
      ensures isPlayingMedia == (old(isPlayingMedia) || old(isPlayingMediaPaused))
    {
      onPause := OnPauseCore(true, pausedAt);
      onResume := OnPauseCore(false, resumedAt);
    }
  }

  /** The auction order rebuilt for `n` remaining players after seat `p` left:
      the loop fills a fresh array of `n` entries and stops once it is full. */
  method RebuiltOrder(current: seq<int>, k0: int, p: int, n: int) returns (rebuilt: seq<int>, k: int)
    requires 0 <= p <= n && n >= 1
    ensures rebuilt == OrderAfterDrop(current, p, n)
    ensures k == OrderIndexAfterDrop(current, p, n, k0)
  {
    var newOrder := new int[n](_ => 0);
    var index := k0;
    var i, j := 0, 0;
    // the guard `j < n` is the source's `break` once the new array is full
    while i < |current| && j < n
      invariant 0 <= i <= |current| && 0 <= j <= n
      invariant newOrder[..j] == KeptOrder(current[..i], p)
      invariant forall t :: j <= t < n ==> newOrder[t] == 0
      invariant index == IndexAfterScan(current[..i], p, k0)
      invariant StopAt(current, p, n, 0) == StopAt(current, p, n, i)
    {
      OrderScanStep(current, p, n, i, k0);
      if current[i] == p {
        if index >= i {
          index := index - 1;
        }
      } else {
        ghost var filled := newOrder[..j];
        newOrder[j] := current[i] - (if current[i] > p then 1 else 0);
        assert newOrder[..j + 1] == filled + [newOrder[j]];
        j := j + 1;
      }
      i := i + 1;
    }
    RebuiltOrderDone(current, p, n, i, j, newOrder[..]);
    if index == |current| - 1 {
      index := n - 1;
    }
    rebuilt, k := newOrder[..], index;
  }


  /** The elapsed time of every timer at `at`, in tenths of a second. */
  method ElapsedAt(starts: array<int>, at: int) returns (elapsed: seq<int>)
    ensures elapsed == ElapsedTenths(at, starts[..])
  {
    var buffer := new int[starts.Length](_ => 0);
    var i := 0;
    while i < starts.Length
      invariant 0 <= i <= starts.Length
      invariant forall t :: 0 <= t < i ==> buffer[t] == TruncDiv(at - starts[t], 100)
    {
      buffer[i] := TruncDiv(at - starts[i], 100);
      i := i + 1;
    }
    elapsed := buffer[..];
  }

  /** Moves every timer start later by `shift`. */
  method ShiftTimers(starts: array<int>, shift: int)
    modifies starts
    ensures forall t :: 0 <= t < starts.Length ==> starts[t] == old(starts[t]) + shift
  {
    var i := 0;
    while i < starts.Length
      invariant 0 <= i <= starts.Length
      invariant forall t :: 0 <= t < i ==> starts[t] == old(starts[t]) + shift
      invariant forall t :: i <= t < starts.Length ==> starts[t] == old(starts[t])
    {
      starts[i] := starts[i] + shift;
      i := i + 1;
    }
  }

  /** Command tokens and Config sub-commands. */
  const ConfigAddTable: string := "ADD_TABLE"
  const ConfigDeleteTable: string := "DELETE_TABLE"

  /** The players' part of the readiness pass. */
  method ReadyPass(accounts: seq<Account>, sender: string, toReady: bool)
    returns (items: seq<Account>, found: bool, readyAll: bool)
    ensures |items| == |accounts|
    ensures forall k :: 0 <= k < |items| ==> items[k] == ReadyFor(accounts[k], sender, toReady)
    ensures found == exists k :: 0 <= k < |accounts| && ChangesReady(accounts[k], sender, toReady)
    ensures readyAll == AllReady(items)
  {
    items := accounts;
    found := false;
    readyAll := true;
    var i := 0;
    while i < |items|
      invariant 0 <= i <= |items| == |accounts|
      invariant forall k :: 0 <= k < i ==> items[k] == ReadyFor(accounts[k], sender, toReady)
      invariant forall k :: i <= k < |items| ==> items[k] == accounts[k]
      invariant found == exists k :: 0 <= k < i && ChangesReady(accounts[k], sender, toReady)
      invariant readyAll == forall k :: 0 <= k < i ==> items[k].ready
    {
      var item := items[i];
      if ChangesReady(item, sender, toReady) {
        items := items[i := item.(ready := toReady)];
        found := true;
      }
      readyAll := readyAll && items[i].ready;
      i := i + 1;
    }
  }

  predicate AllReady(players: seq<Account>)
  {
    forall k :: 0 <= k < |players| ==> players[k].ready
  }

  predicate AllConnected(players: seq<Account>)
  {
    forall k :: 0 <= k < |players| ==> players[k].isConnected
  }

  /** The stake-mode argument is a number 0..3. */
  predicate StakeCodeOk(arg: string)
  {
    ParseInt(arg).Some? && 0 <= ParseInt(arg).value <= 3
  }

  /** The lowest acceptable Sum stake, found as the source does by counting up
      to a multiple of 100. */
  method MinimumStake(stake: int, curPriceRight: int) returns (minimum: int)
    ensures minimum == RoundUpToHundred(RaiseBase(stake, curPriceRight))
  {
    minimum := if stake != -1 then stake + 100 else curPriceRight + 100;
    while minimum % 100 != 0
      invariant RaiseBase(stake, curPriceRight) <= minimum <= RoundUpToHundred(RaiseBase(stake, curPriceRight))
      decreases RoundUpToHundred(RaiseBase(stake, curPriceRight)) - minimum
    {
      minimum := minimum + 1;
    }
    RoundedIsUnique(RaiseBase(stake, curPriceRight), minimum);
  }
}

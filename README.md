# SI-Core game session and editor view-models in Dafny

This project models the core of SI-Game, an online quiz in the style of
"Svoya Igra", and of its package editor SIQuester:

- `game_session.dfy` (module `GameSession`): the server-side `Game`
  message handler of SI-Core. It covers joining a game (password, name
  and seat search), the Ready, Stake, FinalStake, CatCost, Change,
  Apellate and Pause messages, and the host's Config commands that add
  and delete seats. Deleting a seat re-normalises every stored player
  index, the auction order and the question history. Calls into the
  scheduler, the broadcaster and the connection fabric become entries of
  a ghost `effects` log.
- `game_rules.dfy` (module `GameRules`): the accounts and the pure rules
  those handlers apply: the seat scan, the index shift, the rebuilt order
  and history, the lowest-score chooser, the sole remaining staker, the
  stake grid, and the pause arithmetic with C# truncating division.
- `game_settings.dfy` (module `GameSettings`): the new-game settings
  screen. It covers the error shown under the form, the duplicate-account
  check, filling player seats with distinct computer accounts, the player
  count setter and the seat layout before a game.
- `online_lobby.dfy` (module `OnlineLobby`): the online lobby. It covers
  the sorted user list, the game cache and the shown games. Recounting
  the shown games resynchronises them with the cache under the filter
  flags and the search box. The module also models the flag setters and
  the Join gate.
- `connection_data.dfy` (module `ConnectionData`): the join screen. It
  covers the roles a player may join a game in, and the error text with
  its detailed companion.
- `navigator.dfy` (module `Navigator`): the client's screen navigator
  with its Back stack.
- `scenario.dfy` (module `Scenario`): the scenario editor of a question.
  The package's atom list mirrors the list of atom view-models, and the
  editor commands operate on the current atom.
- `answers.dfy` (module `Answers`): the answer-variant editor and its
  three "special" commands. It also models cutting a selection out into
  a new answer, a source or a comment.
- `common.dfy` (module `Common`): the .NET string and integer primitives
  these rely on: ordinal search and comparison, `Trim`, `Split`,
  `int.TryParse` and `ToString`.

Objects whose fields the source updates in place are classes with
`modifies` clauses: `Game`, `GameSettingsView`, `Slot`, `Lobby`,
`Connection`, `Navigator`, `ScenarioView`, `Atom` and `AnswerList`. Each
of their methods is stated against a specification function, and the
lemmas next to it prove that function's properties. Loops in the source
are loops here too, proved against those functions.

## Model

| member | source | states |
|---|---|---|
| GameRules.FreeSeat | src/SICore/SICore/Clients/Game/Game.cs:1735 | a new table seat is a vacant (free-place name), human, unconnected account |
| GameRules.ScanFrom | src/SICore/SICore/Clients/Game/Game.cs:338-368 | the candidate scan of Join: it claims the first unconnected candidate only when every earlier candidate is connected under another name, reports "occupied" when a connected candidate with the same name comes first, and "no place" when all are connected under other names |
| GameRules.ScanFindsFreeSeat | src/SICore/SICore/Clients/Game/Game.cs:338-368 | whenever a free seat exists and no connected namesake stands before it, the scan claims a seat no later than it |
| GameRules.ScanFindsFreeSeatFrom | src/SICore/SICore/Clients/Game/Game.cs:338-368 | the same guarantee for the scan started at any position |
| GameRules.Claimed | src/SICore/SICore/Clients/Game/Game.cs:2633-2636 | a claimed account takes the joining name and sex, an empty picture and is connected; every other attribute is kept |
| GameRules.FirstNamed | src/SICore/SICore/Clients/Game/Game.cs:284-299 | the host's seat is the first player with the host's name, or -1 when no player has it |
| GameRules.ConnectedNames | src/SICore/SICore/Clients/Game/Game.cs:269 | the names checked by Join are exactly the names of connected accounts |
| GameRules.ViewersAfterClaim | src/SICore/SICore/Clients/Game/Game.cs:2631-2641 | claiming a viewer slot renames it in place; claiming a free-place slot also appends one copy, so the synthetic slot adds exactly one viewer |
| GameRules.FirstFinalStaker | src/SICore/SICore/Clients/Game/Game.cs:797-812 | the final-stake message sets the first player still in the game, without a stake and named as the sender, or nobody |
| GameRules.ReadyFor | src/SICore/SICore/Clients/Game/Game.cs:515-522 | a Ready message changes only the readiness of the sender's accounts |
| GameRules.Shift | src/SICore/SICore/Clients/Game/Game.cs:1843-1846 | a stored index above the removed seat moves down by one; others stay |
| GameRules.KeptOrder | src/SICore/SICore/Clients/Game/Game.cs:1943-1960 | the entries the rebuilding loop keeps are never more than the old order |
| GameRules.KeptOrderLength | src/SICore/SICore/Clients/Game/Game.cs:1943-1960 | the kept auction entries are the old order minus exactly the entries of the removed seat |
| GameRules.KeptOrderStep | src/SICore/SICore/Clients/Game/Game.cs:1945-1958 | one loop step drops an entry equal to the removed seat and appends any other entry shifted |
| GameRules.KeptOrderPrefix | src/SICore/SICore/Clients/Game/Game.cs:1943-1960 | what the loop has kept so far is a prefix of the whole kept order |
| GameRules.StopAt | src/SICore/SICore/Clients/Game/Game.cs:1955-1958 | the loop stops no later than the end of the order |
| GameRules.Zeros | src/SICore/SICore/Clients/Game/Game.cs:1941 | a new `int` array holds only zeros |
| GameRules.OrderAfterDrop | src/SICore/SICore/Clients/Game/Game.cs:1941-1967 | the new order has exactly one entry per remaining player |
| GameRules.RebuiltOrderDone | src/SICore/SICore/Clients/Game/Game.cs:1941-1960 | when the loop stops, the array it filled is the rebuilt order (kept entries, then zeros) |
| GameRules.KeptOrderValid | src/SICore/SICore/Clients/Game/Game.cs:1941-1967 | every kept entry is a remaining seat |
| GameRules.OrderAfterDropValid | src/SICore/SICore/Clients/Game/Game.cs:1941-1967 | every entry of the rebuilt order is a remaining seat or -1 |
| GameRules.OrderIndexAfterDropValid | src/SICore/SICore/Clients/Game/Game.cs:1945-1965 | OrderIndex stays -1 or a position of the new order |
| GameRules.IndexAfterScanBounds | src/SICore/SICore/Clients/Game/Game.cs:1945-1951 | the decrements never move OrderIndex below -1 nor above its old value |
| GameRules.IndexAfterScanNoDrop | src/SICore/SICore/Clients/Game/Game.cs:1945-1951 | with no entry of the removed seat, OrderIndex is unchanged |
| GameRules.IndexAfterScanSingleDrop | src/SICore/SICore/Clients/Game/Game.cs:1945-1951 | with a single entry of the removed seat, OrderIndex drops by one exactly when that entry is at or before it |
| GameRules.HistoryAfterDrop | src/SICore/SICore/Clients/Game/Game.cs:2019-2036 | the rebuilt history is never longer than the old one |
| GameRules.HistoryAfterDropStep | src/SICore/SICore/Clients/Game/Game.cs:2020-2033 | one step skips an answer of the removed seat and appends any other with its verdict and shifted index |
| GameRules.HistoryAfterDropValid | src/SICore/SICore/Clients/Game/Game.cs:2019-2036 | the rebuilt history refers only to remaining seats |
| GameRules.HistoryAfterDropSound | src/SICore/SICore/Clients/Game/Game.cs:2019-2036 | exactly the removed seat's answers are gone and every remaining entry comes from an old one of another seat with the same verdict and shifted index |
| GameRules.MinSum | src/SICore/SICore/Clients/Game/Game.cs:1850 | the minimum score is attained and no player is below it |
| GameRules.LeadingOtherSums | src/SICore/SICore/Clients/Game/Game.cs:1851 | the count stops at the first player with the given score |
| GameRules.LowestScoreIndex | src/SICore/SICore/Clients/Game/Game.cs:1847-1852 | the new chooser is the first player with the lowest score |
| GameRules.FirstStakeMaking | src/SICore/SICore/Clients/Game/Game.cs:1915-1923 | the first player still making stakes, or -1 when there is none |
| GameRules.NoStakeMakingCount | src/SICore/SICore/Clients/Game/Game.cs:1971 | no player makes stakes exactly when the scan for one finds none |
| GameRules.SoleStakerIsOnly | src/SICore/SICore/Clients/Game/Game.cs:1912-1924 | with one staker left, the scan finds that staker |
| GameRules.LastStakeMaking | src/SICore/SICore/Clients/Game/Game.cs:2056-2064 | the scan that keeps overwriting ends at a staker, or -1 when there is none |
| GameRules.SoleStaker | src/SICore/SICore/Clients/Game/Game.cs:1910-1930 | a removed staker is replaced by the sole remaining staker when exactly one is left, otherwise by -1 |
| GameRules.SoleStakerIsLast | src/SICore/SICore/Clients/Game/Game.cs:2056-2064 | with one staker the scans of ContinueMakingStakes and DropPlayerIndex agree |
| GameRules.RoundUpToHundred | src/SICore/SICore/Clients/Game/Game.cs:737-743 | the minimum is raised to a multiple of 100 that is less than 100 above it |
| GameRules.RoundedIsUnique | src/SICore/SICore/Clients/Game/Game.cs:737-743 | that multiple is the smallest one at or above the minimum |
| GameRules.SumStakeAcceptedIff | src/SICore/SICore/Clients/Game/Game.cs:737-755 | a Sum stake is accepted iff it is a multiple of 100, at most the active player's score and at least the stake (or the price) plus 100 |
| GameRules.TruncDiv | src/SICore/SICore/Clients/Game/Game.cs:1356 | the (int) conversion of the quotient truncates toward zero for negative differences too |
| GameRules.ElapsedTenths | src/SICore/SICore/Clients/Game/Game.cs:1354-1357 | one value per timer: the time from its start to the pause, in tenths of a second, truncated |
| GameRules.FirstAnswerBy | src/SICore/SICore/Clients/Game/Game.cs:1180-1192 | the first recorded answer of a seat, or -1 when it has none |
| GameRules.RejectionAppellant | src/SICore/SICore/Clients/Game/Game.cs:1174-1197 | appealing a rejection names the sender's seat exactly when the sender's first recorded answer was rejected |
| GameRules.AcceptanceAppellant | src/SICore/SICore/Clients/Game/Game.cs:1198-1212 | appealing an acceptance names the author of the last answer exactly when it was accepted and the sender is a player |
| GameSession.Game.Candidates | src/SICore/SICore/Clients/Game/Game.cs:304-306 | viewers are searched with one synthetic free slot after them |
| GameSession.Game.CheckAccountNew | src/SICore/SICore/Clients/Game/Game.cs:2611-2661 | a connected account answers "occupied" for the same name and "skip" otherwise, changing nothing; a free one is claimed for the name, with the announcements, a host assigned if none, and one extra viewer for the free slot |
| GameSession.Game.FindPlayer | src/SICore/SICore/Clients/Game/Game.cs:284-299 | the loop finds the first player with the host's name |
| GameSession.Game.CandidatesNotNamed | src/SICore/SICore/Clients/Game/Game.cs:269-307 | a name not yet in the game belongs to no connected candidate |
| GameSession.Game.ClaimHostSeat | src/SICore/SICore/Clients/Game/Game.cs:284-335 | the host takes the seat with the host's name; without one the join fails with nothing changed |
| GameSession.Game.ClaimFirstFree | src/SICore/SICore/Clients/Game/Game.cs:336-368 | the join succeeds exactly when the scan claims a seat, and then that seat is claimed; otherwise nothing changes |
| GameSession.Game.Join | src/SICore/SICore/Clients/Game/Game.cs:254-371 | a wrong password or a name already in the game is refused with no roster change; otherwise the seat found by the scan (the host's own seat for the host) is claimed, a viewer always gets in, and the name is then in the game |
| GameSession.Game.Claim | src/SICore/SICore/Clients/Game/Game.cs:274-370 | the seat search of Join for a new name: the host's seat or the first free candidate |
| GameSession.Game.JoinedNameIsPresent | src/SICore/SICore/Clients/Game/Game.cs:2633-2636 | after a claim the claimed name is among the connected persons |
| GameSession.Game.PlanExecution | src/SICore/SICore/Clients/Game/Game.cs:1828-1839 | a paused game only updates the pending task; otherwise the game task is scheduled |
| GameSession.Game.StopWith | src/SICore/SICore/Clients/Game/Game.cs:766 | the scheduler is asked once to stop for the given reason |
| GameSession.Game.StartGame | src/SICore/SICore/Clients/Game/Game.cs:2524-2534 | the game leaves the Before stage, is oral iff the setting says so and the showman is human, and the start task is scheduled |
| GameSession.Game.FindStakeMaking | src/SICore/SICore/Clients/Game/Game.cs:1915-1923 | the loop finds the first player making stakes |
| GameSession.Game.ContinueMakingStakes | src/SICore/SICore/Clients/Game/Game.cs:2054-2077 | with one staker left that staker wins (stake defaulting to the price); otherwise the next stake is asked for; a valid staker index stays valid |
| GameSession.Game.AnswererDropped | src/SICore/SICore/Clients/Game/Game.cs:1858-1894 | the follow-up for a removed answerer depends on the decision and on the pending task while paused |
| GameSession.Game.DropScalarIndices | src/SICore/SICore/Clients/Game/Game.cs:1843-1930 | chooser, answerer, appellant and staker indices above the removed seat drop by one; the removed chooser becomes the first lowest score, the answerer and appellant -1, the staker the sole remaining staker or -1; all stay in range |
| GameSession.Game.DropChooser | src/SICore/SICore/Clients/Game/Game.cs:1843-1852 | the chooser part of that re-normalisation, kept in range |
| GameSession.Game.DropAnswerer | src/SICore/SICore/Clients/Game/Game.cs:1854-1894 | the answerer part, with its follow-up calls |
| GameSession.Game.DropAppellant | src/SICore/SICore/Clients/Game/Game.cs:1896-1904 | the appellant part |
| GameSession.Game.DropStaker | src/SICore/SICore/Clients/Game/Game.cs:1906-1930 | the staker part |
| GameSession.Game.RebuildOrder | src/SICore/SICore/Clients/Game/Game.cs:1941-1967 | the auction order and OrderIndex become the rebuilt ones |
| GameSession.Game.ResumeAuctionAfterDrop | src/SICore/SICore/Clients/Game/Game.cs:1971-1999 | no staker left skips the question; a current staker removed, or a pending next-staker choice, resumes the stake round |
| GameSession.Game.RebuildHistory | src/SICore/SICore/Clients/Game/Game.cs:2019-2036 | QuestionHistory becomes the rebuilt history and refers only to remaining seats |
| GameSession.Game.DropFromAuction | src/SICore/SICore/Clients/Game/Game.cs:1932-2000 | the rebuilt order is valid for the remaining seats and its position lies inside it |
| GameSession.Game.DropIndices | src/SICore/SICore/Clients/Game/Game.cs:1843-2000 | every stored index and the auction order refer to remaining seats afterwards |
| GameSession.Game.DropTail | src/SICore/SICore/Clients/Game/Game.cs:2002-2051 | in the final round the seat leaves the theme deleters and, when none is left, the round moves on if the engine can, otherwise Winner is planned in 10; the history is rebuilt; a pending first-chooser request is cancelled and asked again |
| GameSession.Game.DropThemeDeleter | src/SICore/SICore/Clients/Game/Game.cs:2002-2016 | the removed seat leaves the theme deleters, later seats shift down, and an emptied list ends the round: MoveNextRound when the engine can move on, Winner planned in 10 otherwise |
| GameSession.DeleterEffectsEnd | src/SICore/SICore/Clients/Game/Game.cs:2002-2016 | the round ends on a removal exactly when every remaining theme deleter was the removed seat, and then with exactly one call |
| GameRules.KeptOrderEmpty | src/SICore/SICore/Clients/Game/Game.cs:2004-2005 | nothing is left after dropping a seat exactly when every entry was that seat |
| GameSession.Game.RepeatFirstRequest | src/SICore/SICore/Clients/Game/Game.cs:2038-2051 | while the first chooser is awaited the showman gets Cancel, the wait stops and AskFirst is planned in 20; otherwise nothing is called |
| GameSession.Game.DropPlayerIndex | src/SICore/SICore/Clients/Game/Game.cs:1841-2052 | after a seat is removed: the chooser (the first lowest score when it was removed), answerer and appellant (-1 when removed) and staker (the sole remaining staker when removed) follow the shift; in an auction the order and OrderIndex are rebuilt and a resumed stake round moves the staker and the stake; the theme deleters and the history drop the seat; the scheduler calls are those of the answerer follow-up, the auction, the end of the final round and the renewed first-chooser request, in that order; the game state is valid again |
| GameSession.Game.DeletionIndex | src/SICore/SICore/Clients/Game/Game.cs:1761-1779 | a seat is deleted only with more than 2 players, a parsable in-range index and not an online human after the start |
| GameSession.Game.RemoveSeat | src/SICore/SICore/Clients/Game/Game.cs:1781-1798 | exactly that seat leaves and an online human becomes a viewer; every stored index, the order and OrderIndex, the theme deleters, the history, the staker, the stake and the scheduler calls are as DropPlayerIndex states for that seat |
| GameSession.Game.RemoveTable | src/SICore/SICore/Clients/Game/Game.cs:1781-1825 | the accepted deletion: everything RemoveSeat states, then the game starts when it had not and every main person is ready; the calls are DropPlayerIndex's followed by the announcement's |
| GameSession.Game.DeleteTable | src/SICore/SICore/Clients/Game/Game.cs:1759-1826 | an invalid request changes nothing; otherwise, for the parsed index, the seat, the viewers, every stored index, the order, the theme deleters, the history, the staker and stake, the stage and the calls are exactly as RemoveTable states |
| GameSession.Game.AnnounceRemoval | src/SICore/SICore/Clients/Game/Game.cs:1800-1825 | the removal is announced and the game starts when all are ready before the start |
| GameSession.Game.AddTable | src/SICore/SICore/Clients/Game/Game.cs:1728-1757 | a full table is left alone; otherwise one free seat is appended and announced |
| GameSession.Game.ProcessConfig | src/SICore/SICore/Clients/Game/Game.cs:1689-1726 | only the connected host's commands act, and anything else changes nothing; AddTable's request adds a free seat with its three calls, or changes nothing at full strength; DeleteTable's request has every effect DeleteTable states for the parsed index: the seat, the viewers, every stored index, the order, the theme deleters, the history, the staker and stake, the stage and the calls |
| GameSession.Game.SetReady | src/SICore/SICore/Clients/Game/Game.cs:512-525 | the sender's accounts get the new readiness; `found` says whether one changed and `readyAll` whether everyone is ready |
| GameSession.Game.OnReady | src/SICore/SICore/Clients/Game/Game.cs:506-545 | before the start a change is broadcast, and the game starts when all are ready or an automatic game has all players connected; after the start nothing changes |
| GameSession.Game.AnnounceReady | src/SICore/SICore/Clients/Game/Game.cs:527-542 | the broadcast and the start of Ready |
| GameSession.Game.OnChanged | src/SICore/SICore/Clients/Game/Game.cs:1242-1262 | only the showman, with a valid 1-based position and a number, changes exactly that player's score |
| GameSession.Game.CloseStake | src/SICore/SICore/Clients/Game/Game.cs:760-766 | in an oral game the other side is cancelled, then the decision closes |
| GameSession.Game.OnStake | src/SICore/SICore/Clients/Game/Game.cs:718-770 | a stake from someone else, or with a bad type, changes nothing; a type not allowed clears StakeType; a Sum outside the rounded minimum, the score or the 100 grid clears StakeType without Stop; an accepted stake is stored and closes the decision |
| GameSession.Game.StakeSum | src/SICore/SICore/Clients/Game/Game.cs:735-757 | the Sum branch of that check |
| GameSession.Game.FindFinalStaker | src/SICore/SICore/Clients/Game/Game.cs:797-812 | the loop finds the sender's pending final stake |
| GameSession.Game.OnFinalStake | src/SICore/SICore/Clients/Game/Game.cs:792-819 | a stake between 1 and the score is stored for the sender and counts down the stakers; Stop comes once none is left |
| GameSession.Game.TakeFinalStake | src/SICore/SICore/Clients/Game/Game.cs:802-808 | a parsed stake between 1 and the player's score is stored and counts down the stakers with a PersonFinalStake message; any other text changes nothing |
| GameSession.Game.OnCatCost | src/SICore/SICore/Clients/Game/Game.cs:1222-1240 | only a price on the grid becomes the question price; the decision closes whatever the value |
| GameSession.Game.FindAnswerBy | src/SICore/SICore/Clients/Game/Game.cs:1180-1192 | the loop finds a seat's first answer |
| GameSession.Game.OnApellation | src/SICore/SICore/Clients/Game/Game.cs:1163-1220 | when allowed, the appellant is computed; a found appellant disables appeals and stops once for the appellation |
| GameSession.Game.FindAppellant | src/SICore/SICore/Clients/Game/Game.cs:1170-1212 | the loops find the appellant, always a seat or -1 |
| GameSession.Game.OnPauseCore | src/SICore/SICore/Clients/Game/Game.cs:1322-1412 | pausing a paused game or resuming a running one is a no-op; a pause records the elapsed times and suspends thinking and media; a resume shifts every timer by the pause length and restores them |
| GameSession.Game.PauseGame | src/SICore/SICore/Clients/Game/Game.cs:1327-1361 | the pausing half |
| GameSession.Game.ResumeGame | src/SICore/SICore/Clients/Game/Game.cs:1362-1409 | the resuming half |
| GameSession.Game.PauseThenResume | src/SICore/SICore/Clients/Game/Game.cs:1322-1412 | a pause then a resume report the same elapsed times and move each timer start by the pause length |
| GameSession.RebuiltOrder | src/SICore/SICore/Clients/Game/Game.cs:1941-1967 | the array loop computes the rebuilt order and OrderIndex |
| GameSession.ElapsedAt | src/SICore/SICore/Clients/Game/Game.cs:1354-1357 | the timer loop computes the elapsed tenths |
| GameSession.ShiftTimers | src/SICore/SICore/Clients/Game/Game.cs:1373-1377 | the timer loop moves every start by the same amount |
| GameSession.ReadyPass | src/SICore/SICore/Clients/Game/Game.cs:515-525 | the readiness loop over the players |
| GameSession.MinimumStake | src/SICore/SICore/Clients/Game/Game.cs:737-743 | the counting loop reaches the rounded minimum |
| Common.IndexOf | src/SIQuester/SIQuester.ViewModel/AnswersViewModel.cs:115 | a character-by-character search standing for `IndexOf` (culture rules left out): the first position where the pattern occurs, -1 exactly when it does not occur |
| Common.IndexOfFrom | src/SIQuester/SIQuester.ViewModel/AnswersViewModel.cs:115 | the same ordinal search from a start position: the first occurrence at or after it, or -1 when there is none |
| Common.ContainsCharIff | src/SIQuester/SIQuester.ViewModel/AnswersViewModel.cs:58-60 | `Contains` of a one-character string is membership of that character |
| Common.TrimStart | src/SIQuester/SIQuester.ViewModel/AnswersViewModel.cs:139 | only leading white space is removed, and all of it |
| Common.TrimEnd | src/SIQuester/SIQuester.ViewModel/AnswersViewModel.cs:139 | only trailing white space is removed, and all of it |
| Common.Trim | src/SIQuester/SIQuester.ViewModel/AnswersViewModel.cs:139 | the result neither starts nor ends with white space, is empty exactly for a blank string and invents no character |
| Common.ToUpper | src/SIQuester/SIQuester.ViewModel/AnswersViewModel.cs:70 | only a lower-case letter changes |
| Common.GrowFirstLetter | src/SIQuester/SIQuester.ViewModel/AnswersViewModel.cs:70 | only the first character is upper-cased; the length and the rest are kept |
| Common.Split | src/SIQuester/SIQuester.ViewModel/AnswersViewModel.cs:68 | at least one piece, none containing a separator |
| Common.SplitJoin | src/SIQuester/SIQuester.ViewModel/AnswersViewModel.cs:68 | joining the pieces back with the separator gives the original string |
| Common.RemoveEmpty | src/SIQuester/SIQuester.ViewModel/AnswersViewModel.cs:68 | exactly the non-empty pieces are kept |
| Common.SplitNonEmptyIsEmpty | src/SIQuester/SIQuester.ViewModel/AnswersViewModel.cs:68-69 | no word is left exactly when the text consists of separators only |
| Common.Compare | src/SIGame/SIGame.ViewModel/ViewModel/SIOnlineViewModel.cs:421 | `CompareTo` answers -1, 0 or 1, and 0 exactly for equal strings |
| Common.CompareFlip | src/SIGame/SIGame.ViewModel/ViewModel/SIOnlineViewModel.cs:421 | swapping the arguments negates the answer |
| Common.BelowTransitive | src/SIGame/SIGame.ViewModel/ViewModel/SIOnlineViewModel.cs:419-433 | the order the sorted lists use is transitive |
| Common.BelowTotal | src/SIGame/SIGame.ViewModel/ViewModel/SIOnlineViewModel.cs:419-433 | and total |
| Common.ParseInt | src/SICore/SICore/Clients/Game/Game.cs:725 | `int.TryParse` yields only 32-bit values |
| Common.ParseSigned | src/SICore/SICore/Clients/Game/Game.cs:725 | an optional sign and decimal digits yield only 32-bit values |
| Common.StripLeadingSpec | src/SICore/SICore/Clients/Game/Game.cs:725 | exactly the leading number blanks (space, U+0009 to U+000D) are skipped before the number |
| Common.StripTrailingSpec | src/SICore/SICore/Clients/Game/Game.cs:725 | exactly the trailing number blanks are skipped after it |
| Common.ParseIntIgnoresBlanks | src/SICore/SICore/Clients/Game/Game.cs:725 | a number blank before or after the text does not change what it parses to |
| Common.NatToDigits | src/SIGame/SIGame.ViewModel/ViewModel/SIOnlineViewModel.cs:479-481 | a non-empty string of decimal digits |
| Common.DigitsRoundTrip | src/SIGame/SIGame.ViewModel/ViewModel/SIOnlineViewModel.cs:479-481 | reading the digits back gives the number |
| Common.FormatParseRoundTrip | src/SIGame/SIGame.ViewModel/ViewModel/SIOnlineViewModel.cs:479-481 | every 32-bit game number, formatted, parses back to itself |
| GameSettings.ErrorFor | src/SIGame/SIGame.ViewModel/ViewModel/GameSettingsViewModel.cs:992-1020 | each error is shown exactly when its check is the first to fail, in the order package, duplicate account, game name, port; no error only when all pass |
| GameSettings.FirstRepeated | src/SIGame/SIGame.ViewModel/ViewModel/GameSettingsViewModel.cs:845-871 | the first position whose account occurs again later, or -1 exactly when no account repeats |
| GameSettings.FirstRepeatedFrom | src/SIGame/SIGame.ViewModel/ViewModel/GameSettingsViewModel.cs:853-867 | the same from a start position |
| GameSettings.DuplicateName | src/SIGame/SIGame.ViewModel/ViewModel/GameSettingsViewModel.cs:845-871 | a name is reported exactly when some checked account repeats, and it is the name of one |
| GameSettings.FindRepeated | src/SIGame/SIGame.ViewModel/ViewModel/GameSettingsViewModel.cs:853-867 | the nested loops find the first repeated account |
| GameSettings.FirstRepeatedIs | src/SIGame/SIGame.ViewModel/ViewModel/GameSettingsViewModel.cs:853-867 | any position with that characterisation is FirstRepeated |
| GameSettings.PositionOf | src/SIGame/SIGame.ViewModel/ViewModel/GameSettingsViewModel.cs:973 | `Array.IndexOf`: the first position of the account, or -1 when absent |
| GameSettings.Draw | src/SIGame/SIGame.ViewModel/ViewModel/GameSettingsViewModel.cs:977 | `Random.Next(n)` lies in `[0, n)`, and is 0 for n = 0 |
| GameSettings.FreeFrom | src/SIGame/SIGame.ViewModel/ViewModel/GameSettingsViewModel.cs:978-981 | the increment loop stops at the first position no other computer seat uses |
| GameSettings.PickedComputer | src/SIGame/SIGame.ViewModel/ViewModel/GameSettingsViewModel.cs:977-988 | the pick fails exactly when the random bound is negative; otherwise it is a real computer account no other seat holds, below the last entry when the bound is positive |
| GameSettings.PickComputer | src/SIGame/SIGame.ViewModel/ViewModel/GameSettingsViewModel.cs:977-981 | the random start and the loop compute that pick |
| GameSettings.ComputerSeats | src/SIGame/SIGame.ViewModel/ViewModel/GameSettingsViewModel.cs:969-975 | the other computer seats are at most all seats |
| GameSettings.VisitedOf | src/SIGame/SIGame.ViewModel/ViewModel/GameSettingsViewModel.cs:969-975 | one position per other computer seat, each -1 or a computer-list position |
| GameSettings.ComputerSeatsLast | src/SIGame/SIGame.ViewModel/ViewModel/GameSettingsViewModel.cs:758-768 | a seat just appended is not counted against itself |
| GameSettings.SelectedOf | src/SIGame/SIGame.ViewModel/ViewModel/GameSettingsViewModel.cs:778 | the selected account of every seat, in order |
| GameSettings.GameSettingsView.SetErrorMessage | src/SIGame/SIGame.ViewModel/ViewModel/GameSettingsViewModel.cs:992-1020 | the first failing check is shown, the game can begin exactly without one, and the detailed error is cleared then |
| GameSettings.GameSettingsView.CheckUniqueAccounts | src/SIGame/SIGame.ViewModel/ViewModel/GameSettingsViewModel.cs:845-871 | the first repeated account among players, viewers and showman is recorded, then the error is refreshed |
| GameSettings.GameSettingsView.Visited | src/SIGame/SIGame.ViewModel/ViewModel/GameSettingsViewModel.cs:967-975 | the loop collects the positions of the other computer seats |
| GameSettings.GameSettingsView.UpdatePlayer | src/SIGame/SIGame.ViewModel/ViewModel/GameSettingsViewModel.cs:943-990 | a human seat gets the organiser or a new free place; a computer seat gets an account no other computer seat holds, or fails (where the source throws) unchanged; a listed computer seat is left alone unless forced |
| GameSettings.GameSettingsView.AddSeat | src/SIGame/SIGame.ViewModel/ViewModel/GameSettingsViewModel.cs:758-768 | a new seat is appended and filled; a computer seat always succeeds while there are more computer accounts than seats |
| GameSettings.GameSettingsView.SetPlayersCount | src/SIGame/SIGame.ViewModel/ViewModel/GameSettingsViewModel.cs:117-145 | the count is stored; shrinking is the removal loop RemoveDown (see RemoveDownRange); growing keeps the old seats and appends fresh computer seats, all of them unless the computer accounts run out, each filled with a computer account when it succeeds |
| GameSettings.RemoveDownRange | src/SIGame/SIGame.ViewModel/ViewModel/GameSettingsViewModel.cs:135-143 | shrinking removes exactly the seats from the new count to the old one when they exist; a count above the seats or not above zero throws at once, and a negative target throws after emptying the front of the list |
| GameSettings.GameSettingsView.constructor | src/SIGame/SIGame.ViewModel/ViewModel/GameSettingsViewModel.cs:360-371 | the saved player count and the network flag are kept, the seat list starts empty with no showman, and no repeated account or package is recorded yet |
| GameSettings.GameSettingsView.LayOutSeats | src/SIGame/SIGame.ViewModel/ViewModel/GameSettingsViewModel.cs:1041-1063 | the requested number of seats of the requested kinds, the organiser in their own seat, free places for other humans, distinct computer accounts; it succeeds whenever there are enough computers |
| GameSettings.GameSettingsView.NewShowman | src/SIGame/SIGame.ViewModel/ViewModel/GameSettingsViewModel.cs:1065-1073 | a human showman is the organiser when they host as showman; otherwise a seat of the requested kind with an account |
| GameSettings.GameSettingsView.PrepareForGame | src/SIGame/SIGame.ViewModel/ViewModel/GameSettingsViewModel.cs:1035-1074 | the organiser alone among the viewers when viewing, the seats laid out, and a showman created only when none existed and every seat was filled |
| OnlineLobby.SetFlagOwnBit | src/SIGame/SIGame.ViewModel/ViewModel/SIOnlineViewModel.cs:152-198 | a flag setter sets or clears its own flag and leaves every other flag as it was |
| OnlineLobby.SetFlagBits | src/SIGame/SIGame.ViewModel/ViewModel/SIOnlineViewModel.cs:152-198 | a setter's own flag reads back as requested and every other flag is kept |
| OnlineLobby.FilterLabels | src/SIGame/SIGame.ViewModel/ViewModel/SIOnlineViewModel.cs:94-150 | "all" is shown exactly when no flag restricts; otherwise one label per active restriction |
| OnlineLobby.Labels | src/SIGame/SIGame.ViewModel/ViewModel/SIOnlineViewModel.cs:94-150 | the same from the four flag values; sport and TV together restrict nothing |
| OnlineLobby.SearchByLink | src/SIGame/SIGame.ViewModel/ViewModel/SIOnlineViewModel.cs:475-481 | searching for a game's link shows exactly the game with that number |
| OnlineLobby.FilterGameRejects | src/SIGame/SIGame.ViewModel/ViewModel/SIOnlineViewModel.cs:483-511 | each flag and the search reject on their own; with no flag only the search decides |
| OnlineLobby.InsertPos | src/SIGame/SIGame.ViewModel/ViewModel/SIOnlineViewModel.cs:412-439 | the insertion point is after every entry sorting below the new key and at the first one that does not |
| OnlineLobby.InsertBySorted | src/SIGame/SIGame.ViewModel/ViewModel/SIOnlineViewModel.cs:412-439 | inserting into a sorted list keeps it sorted |
| OnlineLobby.InsertByAdds | src/SIGame/SIGame.ViewModel/ViewModel/SIOnlineViewModel.cs:412-439 | the list is unchanged exactly when the key is present, otherwise exactly the new entry is added |
| OnlineLobby.InsertSorted | src/SIGame/SIGame.ViewModel/ViewModel/SIOnlineViewModel.cs:412-439 | the loop performs that insertion |
| OnlineLobby.InsertPosAt | src/SIGame/SIGame.ViewModel/ViewModel/SIOnlineViewModel.cs:412-439 | where the loop stops is the insertion point |
| OnlineLobby.FirstIndex | src/SIGame/SIGame.ViewModel/ViewModel/SIOnlineViewModel.cs:404-410 | the first position of an entry, or -1 exactly when absent |
| OnlineLobby.RemoveFirstSorted | src/SIGame/SIGame.ViewModel/ViewModel/SIOnlineViewModel.cs:404-410 | a user who leaves is gone and the list stays sorted |
| OnlineLobby.RemoveFirstKeeps | src/SIGame/SIGame.ViewModel/ViewModel/SIOnlineViewModel.cs:404-410 | an absent name changes nothing; otherwise the first occurrence goes and every other entry stays, in order |
| OnlineLobby.FirstIdIndex | src/SIGame/SIGame.ViewModel/ViewModel/SIOnlineViewModel.cs:441-473 | the first game with a number, or -1 when none has it |
| OnlineLobby.FirstByIdFinds | src/SIGame/SIGame.ViewModel/ViewModel/SIOnlineViewModel.cs:441-473 | with unique numbers a cached game is found by its number |
| OnlineLobby.FindGame | src/SIGame/SIGame.ViewModel/ViewModel/SIOnlineViewModel.cs:441-473 | the loop finds the first game with the number |
| OnlineLobby.Pruned | src/SIGame/SIGame.ViewModel/ViewModel/SIOnlineViewModel.cs:683-690 | every game left after phase one still has a cache entry the filter passes |
| OnlineLobby.RemoveFirstAfter | src/SIGame/SIGame.ViewModel/ViewModel/SIOnlineViewModel.cs:683-690 | removing an entry right after a part without it removes that entry |
| OnlineLobby.PruneShown | src/SIGame/SIGame.ViewModel/ViewModel/SIOnlineViewModel.cs:683-690 | the loop of phase one computes Pruned |
| OnlineLobby.RefreshedAll | src/SIGame/SIGame.ViewModel/ViewModel/SIOnlineViewModel.cs:692-699 | each shown game becomes the cache entry with its number |
| OnlineLobby.RefreshShown | src/SIGame/SIGame.ViewModel/ViewModel/SIOnlineViewModel.cs:692-699 | the loop of phase two computes that |
| OnlineLobby.AddMissing | src/SIGame/SIGame.ViewModel/ViewModel/SIOnlineViewModel.cs:701-708 | the loop of phase three inserts the missing cache entries the filter passes |
| OnlineLobby.InsertByElements | src/SIGame/SIGame.ViewModel/ViewModel/SIOnlineViewModel.cs:701-708 | an insertion adds nothing but the new entry |
| OnlineLobby.WithMissingKeeps | src/SIGame/SIGame.ViewModel/ViewModel/SIOnlineViewModel.cs:701-708 | phase three keeps the shown list filtered and canonical |
| OnlineLobby.RecountShowsFiltered | src/SIGame/SIGame.ViewModel/ViewModel/SIOnlineViewModel.cs:681-708 | after a recount every shown game is a cache entry the filter passes, and with unique numbers the cache entry with its number |
| OnlineLobby.ChangedFinds | src/SIGame/SIGame.ViewModel/ViewModel/SIOnlineViewModel.cs:441-456 | after a change the cache answers the new game for its number, and is unchanged when it had none |
| OnlineLobby.DeletedRemoves | src/SIGame/SIGame.ViewModel/ViewModel/SIOnlineViewModel.cs:458-473 | a deleted game is gone, numbers stay unique and every other game stays |
| OnlineLobby.CreatedFinds | src/SIGame/SIGame.ViewModel/ViewModel/SIOnlineViewModel.cs:513-520 | a created game with a new number is found by it and numbers stay unique |
| OnlineLobby.Lobby.Joined | src/SIGame/SIGame.ViewModel/ViewModel/SIOnlineViewModel.cs:412-439 | the user list becomes the sorted insertion of the new name |
| OnlineLobby.Lobby.constructor | src/SIGame/SIGame.ViewModel/ViewModel/SIOnlineViewModel.cs:329-355 | the game address and the filter are kept; no users, games or selection, an empty password and search, a fresh connection screen, and Join starts disabled |
| OnlineLobby.Lobby.Leaved | src/SIGame/SIGame.ViewModel/ViewModel/SIOnlineViewModel.cs:404-410 | the first occurrence of the name leaves the user list |
| OnlineLobby.Lobby.InsertGame | src/SIGame/SIGame.ViewModel/ViewModel/SIOnlineViewModel.cs:522-548 | the shown games become the insertion by name of the game |
| OnlineLobby.Lobby.CheckJoin | src/SIGame/SIGame.ViewModel/ViewModel/SIOnlineViewModel.cs:67-68 | Join is enabled exactly when a game is selected that needs no password or a password is typed |
| OnlineLobby.Lobby.SetCurrentGame | src/SIGame/SIGame.ViewModel/ViewModel/SIOnlineViewModel.cs:33-50 | a different non-null game rebuilds the joinable roles; the Join gate follows the selection |
| OnlineLobby.Lobby.SetPassword | src/SIGame/SIGame.ViewModel/ViewModel/SIOnlineViewModel.cs:209-221 | the Join gate follows the password |
| OnlineLobby.Lobby.RecountList | src/SIGame/SIGame.ViewModel/ViewModel/SIOnlineViewModel.cs:681-708 | the three phases leave the recounted list, filtered and canonical |
| OnlineLobby.Lobby.SettleCurrentGame | src/SIGame/SIGame.ViewModel/ViewModel/SIOnlineViewModel.cs:710-714 | the selection becomes Settled of the old one and the shown list; the joinable roles are rebuilt from a newly selected game and otherwise stay |
| OnlineLobby.Settled | src/SIGame/SIGame.ViewModel/ViewModel/SIOnlineViewModel.cs:710-714 | none exactly when nothing is shown, otherwise a shown game, and a selection still shown is kept |
| OnlineLobby.Lobby.RecountGames | src/SIGame/SIGame.ViewModel/ViewModel/SIOnlineViewModel.cs:681-715 | the shown list is the recount of the cache under the filter; the selection is settled (kept while shown, else the first shown game, else none) and the joinable roles are rebuilt exactly when a new game is selected |
| OnlineLobby.Lobby.SetGamesFilter | src/SIGame/SIGame.ViewModel/ViewModel/SIOnlineViewModel.cs:74-90 | a different filter recounts the games, settles the selection and rebuilds the roles of a new one; the same filter changes neither the games, the selection nor the roles |
| OnlineLobby.Lobby.SetFlagged | src/SIGame/SIGame.ViewModel/ViewModel/SIOnlineViewModel.cs:152-198 | the filter becomes SetFlag of the old one (see SetFlagBits); a changed filter recounts the games and settles the selection and roles, an unchanged one leaves them |
| OnlineLobby.Lobby.SetSearchFilter | src/SIGame/SIGame.ViewModel/ViewModel/SIOnlineViewModel.cs:245-260 | a different search recounts the games and settles the selection and roles; the same one changes none of them |
| OnlineLobby.Lobby.SetShowSearchBox | src/SIGame/SIGame.ViewModel/ViewModel/SIOnlineViewModel.cs:225-240 | hiding the search box clears the search; when one was set the games are recounted and the selection and roles settled, otherwise nothing else changes |
| OnlineLobby.Lobby.GameCreated | src/SIGame/SIGame.ViewModel/ViewModel/SIOnlineViewModel.cs:513-520 | the game is added to the cache, the shown list is recounted, and the selection is settled (kept while shown, else the first shown game, else none) and the joinable roles are rebuilt exactly when a new game is selected |
| OnlineLobby.Lobby.GameChanged | src/SIGame/SIGame.ViewModel/ViewModel/SIOnlineViewModel.cs:441-456 | the cache entry with the number is replaced, the shown list is recounted, and the selection is settled (kept while shown, else the first shown game, else none) and the joinable roles are rebuilt exactly when a new game is selected |
| OnlineLobby.Lobby.GameDeleted | src/SIGame/SIGame.ViewModel/ViewModel/SIOnlineViewModel.cs:458-473 | the cache entry with the number goes, the shown list is recounted, and the selection is settled (kept while shown, else the first shown game, else none) and the joinable roles are rebuilt exactly when a new game is selected |
| Scenario.Toggled | src/SIQuester/SIQuester.ViewModel/ScenarioViewModel.cs:217-232 | Text and Oral swap, every other type stays |
| Scenario.ToggledTwice | src/SIQuester/SIQuester.ViewModel/ScenarioViewModel.cs:217-232 | changing the type twice restores it |
| Scenario.ModelsOf | src/SIQuester/SIQuester.ViewModel/ScenarioViewModel.cs:63-71 | the atoms under the view-models, one each, in order |
| Scenario.HasMarker | src/SIQuester/SIQuester.ViewModel/ScenarioViewModel.cs:167 | the loop finds whether some atom is a marker |
| Scenario.AnyMarkerSnoc | src/SIQuester/SIQuester.ViewModel/ScenarioViewModel.cs:167 | appending an atom adds a marker exactly when that atom is one |
| Scenario.CanRemoveKeepsOne | src/SIQuester/SIQuester.ViewModel/ScenarioViewModel.cs:234-237 | the guard lets a removal through exactly when an atom stays, and the package's atoms then lose just the removed one |
| Scenario.ScenarioView.constructor | src/SIQuester/SIQuester.ViewModel/ScenarioViewModel.cs:58-90 | one view-model per atom, owned by the editor, the package list mirrored, the marker flag raised exactly when some atom is a marker |
| Scenario.ScenarioView.UpdateAtomCommands | src/SIQuester/SIQuester.ViewModel/ScenarioViewModel.cs:127-135 | without a current atom every command is off; Collapse and Expand are never both enabled |
| Scenario.ScenarioView.Insert | src/SIQuester/SIQuester.ViewModel/ScenarioViewModel.cs:141-147 | the atom goes into the package list at the same index, which keeps mirroring the view-models |
| Scenario.ScenarioView.Replace | src/SIQuester/SIQuester.ViewModel/ScenarioViewModel.cs:148-154 | the package list is replaced at the same index |
| Scenario.ScenarioView.RemoveAt | src/SIQuester/SIQuester.ViewModel/ScenarioViewModel.cs:155-168 | the atom leaves both lists, its owner is cleared and the marker flag is recomputed |
| Scenario.ScenarioView.Reset | src/SIQuester/SIQuester.ViewModel/ScenarioViewModel.cs:169-178 | the package list is rebuilt from the view-models in order |
| Scenario.ScenarioView.Append | src/SIQuester/SIQuester.ViewModel/ScenarioViewModel.cs:184-190 | a new atom of the type and text is appended to both lists |
| Scenario.ScenarioView.AddText | src/SIQuester/SIQuester.ViewModel/ScenarioViewModel.cs:197-200 | an empty text atom is appended |
| Scenario.ScenarioView.AddVoice | src/SIQuester/SIQuester.ViewModel/ScenarioViewModel.cs:202-209 | a blank current atom is dropped first, which detaches it and recomputes the marker flag (the flag is otherwise kept); then an empty spoken atom is appended, the position kept |
| Scenario.ScenarioView.AddMarker | src/SIQuester/SIQuester.ViewModel/ScenarioViewModel.cs:211-215 | a marker atom is appended and the marker flag raised |
| Scenario.ScenarioView.ChangeType | src/SIQuester/SIQuester.ViewModel/ScenarioViewModel.cs:217-232 | the current atom's type is toggled and every other atom keeps its type |
| Scenario.ScenarioView.SetTime | src/SIQuester/SIQuester.ViewModel/ScenarioViewModel.cs:239-243 | the current atom lasts 5 seconds and keeps its type and text; the change of time re-runs the command update, which disables SetTime and sets Export, Collapse and Expand from the atom |
| Scenario.ScenarioView.CollapseMedia | src/SIQuester/SIQuester.ViewModel/ScenarioViewModel.cs:245-250 | the current atom is folded and only Expand stays enabled |
| Scenario.ScenarioView.ExpandMedia | src/SIQuester/SIQuester.ViewModel/ScenarioViewModel.cs:252-257 | the current atom is unfolded and only Collapse stays enabled |
| Scenario.ModelsOfSnoc | src/SIQuester/SIQuester.ViewModel/ScenarioViewModel.cs:184-190 | appending a view-model appends its atom |
| Scenario.MirrorInsert | src/SIQuester/SIQuester.ViewModel/ScenarioViewModel.cs:141-147 | inserting a view-model inserts its atom at the same index |
| Scenario.MirrorReplace | src/SIQuester/SIQuester.ViewModel/ScenarioViewModel.cs:148-154 | replacing a view-model replaces its atom |
| Scenario.MirrorRemove | src/SIQuester/SIQuester.ViewModel/ScenarioViewModel.cs:155-168 | removing a view-model removes its atom |
| Answers.Special1EnabledWithoutWord | src/SIQuester/SIQuester.ViewModel/AnswersViewModel.cs:58 | the source's enablement test accepts `" "`, which has no word to take |
| Answers.Special1UsableHasWord | src/SIQuester/SIQuester.ViewModel/AnswersViewModel.cs:58-69 | under the corrected test the command always finds a word, and the corrected test rejects only texts without words |
| Answers.Swapped | src/SIQuester/SIQuester.ViewModel/AnswersViewModel.cs:112-120 | a variant is produced exactly when the text contains the conjunction |
| Answers.SwappedSplits | src/SIQuester/SIQuester.ViewModel/AnswersViewModel.cs:115-118 | around the first conjunction, the part after it (first letter grown), the conjunction, then the part before it |
| Answers.TrimAll | src/SIQuester/SIQuester.ViewModel/AnswersViewModel.cs:92-98 | every piece trimmed |
| Answers.TrimAllSnoc | src/SIQuester/SIQuester.ViewModel/AnswersViewModel.cs:92-98 | trimming distributes over appending |
| Answers.JoinWithSnoc | src/SIQuester/SIQuester.ViewModel/AnswersViewModel.cs:92-98 | joining one more piece appends the separator and the piece |
| Answers.JoinWithChars | src/SIQuester/SIQuester.ViewModel/AnswersViewModel.cs:92-98 | joining brings in no character other than the separator |
| Answers.RejoinedKeepsOut | src/SIQuester/SIQuester.ViewModel/AnswersViewModel.cs:82-100 | rebuilding from parenthesis-free pieces yields no parenthesis |
| Answers.TrimKeepsOut | src/SIQuester/SIQuester.ViewModel/AnswersViewModel.cs:92-98 | trimming a piece without parentheses brings none in |
| Answers.ParenPiecesKeepOut | src/SIQuester/SIQuester.ViewModel/AnswersViewModel.cs:82-86 | no piece of the split holds a parenthesis |
| Answers.RejoinedHasNoParens | src/SIQuester/SIQuester.ViewModel/AnswersViewModel.cs:82-100 | the answer Special2 rebuilds has no parentheses left |
| Answers.WidenLeft | src/SIQuester/SIQuester.ViewModel/AnswersViewModel.cs:144-146 | the start moves left over exactly the separators before it |
| Answers.WidenRight | src/SIQuester/SIQuester.ViewModel/AnswersViewModel.cs:148-150 | the end moves right over exactly the separators after it |
| Answers.CutOut | src/SIQuester/SIQuester.ViewModel/AnswersViewModel.cs:152-154 | the item loses at least the selection: a prefix and a suffix stay, and what goes between them is the selection widened over the separators around it |
| Answers.CutOf | src/SIQuester/SIQuester.ViewModel/AnswersViewModel.cs:122-139 | an empty selection yields nothing, one outside the items is an error (where the source throws), and a text is cut exactly when the selection is non-empty and fits |
| Answers.TrimmedGrownBounds | src/SIQuester/SIQuester.ViewModel/AnswersViewModel.cs:139 | the cut text is never longer than the selection, and is empty exactly for a blank selection |
| Answers.ItemsAfter | src/SIQuester/SIQuester.ViewModel/AnswersViewModel.cs:141-154 | the items are unchanged unless a text is cut; then only the selected item changes, losing the selection and the separators around it |
| Answers.WidenSelection | src/SIQuester/SIQuester.ViewModel/AnswersViewModel.cs:141-150 | the loops widen the selection as WidenLeft and WidenRight say |
| Answers.KeptPiecesStep | src/SIQuester/SIQuester.ViewModel/AnswersViewModel.cs:92-98 | one loop step appends a space and the next trimmed piece |
| Answers.KeptPiecesSnoc | src/SIQuester/SIQuester.ViewModel/AnswersViewModel.cs:92-98 | the kept pieces grow by one trimmed piece per step |
| Answers.KeptPiecesEnds | src/SIQuester/SIQuester.ViewModel/AnswersViewModel.cs:92-98 | before the loop only piece 0 is kept, and after it the kept pieces join to the rebuilt answer |
| Answers.JoinTrimmed | src/SIQuester/SIQuester.ViewModel/AnswersViewModel.cs:92-98 | the loop builds the rebuilt answer |
| Answers.CanRemoveKeepsRightAnswer | src/SIQuester/SIQuester.ViewModel/AnswersViewModel.cs:206 | the right answers of a question may lose a variant exactly when one stays; wrong answers, or a list without a question, may always lose one |
| Answers.AnswerList.UpdateAnswersCommands | src/SIQuester/SIQuester.ViewModel/AnswersViewModel.cs:55-61 | Special2 and Special3 are enabled as the source tests; Special1 with the corrected test, so that it always finds a word |
| Answers.AnswerList.AnswerSpecial1 | src/SIQuester/SIQuester.ViewModel/AnswersViewModel.cs:65-71 | the last word, first letter grown, is appended; without a word (where the source throws) nothing changes |
| Answers.AnswerList.AnswerSpecial2 | src/SIQuester/SIQuester.ViewModel/AnswersViewModel.cs:73-110 | with two or more pieces, piece 1 goes to the comments and the rest is rejoined into the item; otherwise nothing changes |
| Answers.AnswerList.AnswerSpecial3 | src/SIQuester/SIQuester.ViewModel/AnswersViewModel.cs:112-120 | the swapped variant is appended when the conjunction occurs; otherwise nothing changes |
| Answers.AnswerList.ProcessSelection | src/SIQuester/SIQuester.ViewModel/AnswersViewModel.cs:122-157 | the outcome is CutOf and the new items are ItemsAfter of the old items |
| Answers.AnswerList.ToNewAnswer | src/SIQuester/SIQuester.ViewModel/AnswersViewModel.cs:159-168 | the cut is the one taken from the old items, the items are what it leaves, and the cut text, when there is one, becomes the new last answer |
| Answers.AnswerList.ToNewSource | src/SIQuester/SIQuester.ViewModel/AnswersViewModel.cs:170-187 | the same cut; the cut text, when there is one, is appended to the sources |
| Answers.AnswerList.ToNewComment | src/SIQuester/SIQuester.ViewModel/AnswersViewModel.cs:189-204 | the same cut; the cut text, when there is one, is appended to the comments as a new line |
| Navigator.Initial | src/SIGame/SIGame.ViewModel/ViewModel/NavigatorViewModel.cs:75-79 | nothing shown, empty history, Back disabled |
| Navigator.Assign | src/SIGame/SIGame.ViewModel/ViewModel/NavigatorViewModel.cs:18-59 | the same content changes nothing; a new one pushes the old content (if any) and enables Back; Back stays enabled exactly when there is history |
| Navigator.GoBack | src/SIGame/SIGame.ViewModel/ViewModel/NavigatorViewModel.cs:87-118 | Back succeeds exactly with a content and a history, shows the top of the history and pops it |
| Navigator.AssignAllPushes | src/SIGame/SIGame.ViewModel/ViewModel/NavigatorViewModel.cs:18-59 | a chain of new contents pushes the old content and all but the last |
| Navigator.BackNPops | src/SIGame/SIGame.ViewModel/ViewModel/NavigatorViewModel.cs:87-118 | k Backs pop k pushed contents |
| Navigator.AssignAllThenBackN | src/SIGame/SIGame.ViewModel/ViewModel/NavigatorViewModel.cs:18-118 | showing a chain of new contents and going back as often restores the state |
| Navigator.AssignThenBack | src/SIGame/SIGame.ViewModel/ViewModel/NavigatorViewModel.cs:18-118 | showing one new content and going back restores the state |
| Navigator.Navigator.constructor | src/SIGame/SIGame.ViewModel/ViewModel/NavigatorViewModel.cs:75-79 | a new navigator is in the initial state |
| Navigator.Navigator.SetContent | src/SIGame/SIGame.ViewModel/ViewModel/NavigatorViewModel.cs:18-59 | the `Content` setter moves the state as Assign says |
| Navigator.Navigator.Back | src/SIGame/SIGame.ViewModel/ViewModel/NavigatorViewModel.cs:87-118 | the Back command moves the state as GoBack says, and changes nothing where the source throws |
| ConnectionData.FirstOfRole | src/SIGame/SIGame.ViewModel/ViewModel/ConnectionDataViewModel.cs:59 | the first seat of a role, or -1 when there is none |
| ConnectionData.JoinableRoles | src/SIGame/SIGame.ViewModel/ViewModel/ConnectionDataViewModel.cs:54-69 | viewer always, last; showman exactly when the first showman seat is free; player exactly when some player seat is free; no role twice |
| ConnectionData.Connection.constructor | src/SIGame/SIGame.ViewModel/ViewModel/ConnectionDataViewModel.cs:88 | no roles offered and an empty error |
| ConnectionData.Connection.UpdateJoinCommand | src/SIGame/SIGame.ViewModel/ViewModel/ConnectionDataViewModel.cs:54-69 | the offered roles become the joinable roles of the seats |
| ConnectionData.Connection.SetError | src/SIGame/SIGame.ViewModel/ViewModel/ConnectionDataViewModel.cs:90-105 | the `Error` setter moves both errors as ErrorAfter says |
| ConnectionData.ErrorAfter | src/SIGame/SIGame.ViewModel/ViewModel/ConnectionDataViewModel.cs:90-105 | the new error is the value; a changed null or empty value clears the detailed error, any other value keeps it |
| ConnectionData.ErrorAfterIdempotent | src/SIGame/SIGame.ViewModel/ViewModel/ConnectionDataViewModel.cs:90-105 | setting the same error twice is the same as once |
| ConnectionData.FreePlayerFound | src/SIGame/SIGame.ViewModel/ViewModel/ConnectionDataViewModel.cs:63-65 | the scan that stops at the first free player seat decides the same as a scan of the whole list |

## Left out

- Concurrency: the locks around the roster and the lobby lists, and the asynchronous server calls. Every handler runs atomically.
- The scheduler, the broadcaster and the connection fabric of the game engine are not part of this model. Their calls are recorded as ghost `effects`, without message texts or localisation.
- Message texts and their formatting are not modelled; a message is its kind and its arguments.
- Clocks: `DateTime` values are integer milliseconds, and `TimeThinking` (a `double` of tenths of a second in the source) is integer milliseconds.
- Randomness: `Random.Next` is `GameSettings.Draw`, a seed modulo the bound. Which value it yields is not modelled, only its range.
- The mirror of the seats in the game model (`_model.Players`) and account-type changes of a seat are left out. This covers `UpdateRoleTrigger`, `NetworkGameOrRoleChanged` and `ChangePersonType`.
- The Free, Set and ChangeType commands of Config (`FreeTable`, `SetPerson`, `ChangePersonType`) and the Kick and Ban messages are left out. So are connection management (`OnConnectAsync`, disconnection) and the creation of bot clients.
- GameSession.Game.constructor: the initial state of a game is a parameterised fresh game (a free showman seat and free player seats) rather than one built from a package and settings.
- OnlineLobby.SearchOk: the case-insensitive, culture-aware name search of `FilteredOk` is modelled as ordinal substring search.
- Common.Compare: culture-sensitive `CompareTo` on user and game names is modelled as ordinal comparison. This keeps the order total and transitive.
- Common.ToUpper: upper-casing covers Latin and Cyrillic letters only.
- The bit values of the `GamesFilter` enumeration are not part of this model. The flags are taken as 1, 2, 4 and 8.
- The filter label texts are localised resources; only which labels are shown is modelled.
- `GameInfo` is a value, so the source's identity comparison of game objects becomes equality.
- Server I/O of the lobby (`ReloadGames`, `ReloadUsers`, the chat) is left out.
- The document's undo transactions, `ClearLinks` and `ExportMedia` (file I/O) of the scenario editor are left out. So are the close and navigate events of navigation nodes.
- The editor selection of the answer list comes from the view and is a parameter.
- GameSettings.Slot.constructor: the type of a seat is fixed once created, because the operations that change it are not modelled.
- The desktop manager and the rest of the client and editor context classes are not part of this model.
- Common.IndexOf: .NET's `string.IndexOf(string)` compares with the current culture's rules (an ignorable character such as U+00AD matches nothing); the model compares character by character, which agrees with it on texts without such characters.
- Common.IndexOfFrom: the same ordinal search stands for the culture-sensitive one.
- Common.ParseInt: `int.TryParse` also takes the current culture's sign symbols and ignores trailing `'\0'` characters; only `+`, `-` and the blanks space and U+0009 to U+000D are modelled.
- Answers.AnswerList.UpdateAnswersCommands: Special1 is enabled by the corrected test `Special1Usable` of the Findings table; the source's line 58 also enables it for a text such as `" "` that has no word.
- GameSession.Game.DropThemeDeleter: `ThemeDeletersEnumerator` is not part of this model. The theme deleters are the seats they still hold, in order; `RemoveAt` drops the removed seat's entries and shifts later seats down, and the enumerator's grouping and cursor are left out. `Engine.CanMoveNextRound` is a field the engine supplies, and `MoveNextRound` is recorded as a call.
- GameSettings.GameSettingsView.constructor: the saved settings other than the player count start at their defaults, and the package source, the storage and the command wiring are left out.
- OnlineLobby.Lobby.constructor: the server client, its event subscriptions and the initial server requests are left out.

## Findings

| source | as written | input that shows it | evidently intended | confidence | as-written member | corrected member |
|---|---|---|---|---|---|---|
| src/SIQuester/SIQuester.ViewModel/AnswersViewModel.cs:58 | Special1 ("add the last word") is enabled for any non-empty text that contains a space | the answer text `" "`: enabled, but its split without empty entries has no word, so `words[words.Length - 1]` at line 69 is out of range | enabled only when the text has a word to take | not executed | `Answers.Special1EnabledWithoutWord` | `Answers.Special1UsableHasWord` |

/** The parts of the join screen (`ConnectionDataViewModel` in
    src/SIGame/SIGame.ViewModel/ViewModel/ConnectionDataViewModel.cs) that
    decide which roles the user may join a game as, and the error text with
    its detailed companion. Connecting to servers is not modelled. */
module ConnectionData {
  import opened Common
  import opened GameRules

  /** What the server reports about one seat of a game (ConnectionPersonData). */
  datatype PersonSeat = PersonSeat(name: string, role: Role, isOnline: bool)

  /** Index of the first seat with the given role, or -1 (`FirstOrDefault`). */
  function FirstOfRole(persons: seq<PersonSeat>, role: Role): (r: int)
    ensures -1 <= r < |persons|
    ensures r >= 0 ==> persons[r].role == role && forall j :: 0 <= j < r ==> persons[j].role != role
    ensures r == -1 ==> forall j :: 0 <= j < |persons| ==> persons[j].role != role
  {
    if |persons| == 0 then -1
    else if persons[0].role == role then 0
    else var k := FirstOfRole(persons[1..], role); if k == -1 then -1 else k + 1
  }

  /** The showman seat can be taken: the first showman entry exists and nobody
      is online in it. */
  predicate ShowmanFree(persons: seq<PersonSeat>)
  {
    var s := FirstOfRole(persons, ShowmanRole);
    s >= 0 && !persons[s].isOnline
  }

  /** Some player seat has nobody online in it. */
  predicate PlayerFree(persons: seq<PersonSeat>)
  {
    exists i :: 0 <= i < |persons| && persons[i].role == PlayerRole && !persons[i].isOnline
  }

  /** The roles offered by the Join command, in the order they are added. */
  function JoinableRoles(persons: seq<PersonSeat>): (area: seq<Role>)
    ensures ViewerRole in area && area[|area| - 1] == ViewerRole
    ensures ShowmanRole in area <==> ShowmanFree(persons)
    ensures PlayerRole in area <==> PlayerFree(persons)
    ensures forall i, j :: 0 <= i < j < |area| ==> area[i] != area[j]
  {
    (if ShowmanFree(persons) then [ShowmanRole] else [])
    + (if PlayerFree(persons) then [PlayerRole] else [])
    + [ViewerRole]
  }

  /** The error shown on the join screen; `None` stands for a null string. */
  predicate NullOrEmpty(s: Option<string>)
  {
    s.None? || s.value == ""
  }

  class Connection {
    /** The roles of `Join.ExecutionArea`. */
    var joinArea: seq<Role>
    var error: Option<string>
    var fullError: Option<string>

    constructor ()
      ensures joinArea == [] && error == Some("") && fullError == None
    {
      joinArea := [];
      error := Some("");
      fullError := None;
    }

    /** Rebuilds the joinable roles from the seats of the selected game: the
        previous area is cleared first. */
    method UpdateJoinCommand(persons: seq<PersonSeat>)
      modifies this`joinArea
      ensures joinArea == JoinableRoles(persons)
    {
      joinArea := [];
      var showman := FirstOfRole(persons, ShowmanRole);
      if showman != -1 && !persons[showman].isOnline {
        joinArea := joinArea + [ShowmanRole];
      }
      var anyFree := false;
      var i := 0;
      while i < |persons| && !anyFree
        invariant 0 <= i <= |persons|
        invariant anyFree <==> PlayerFree(persons[..i])
      {
        if persons[i].role == PlayerRole && !persons[i].isOnline {
          anyFree := true;
        }
        i := i + 1;
      }
      FreePlayerFound(persons, i);
      if anyFree {
        joinArea := joinArea + [PlayerRole];
      }
      joinArea := joinArea + [ViewerRole];
    }

    /** The `Error` setter: a new value replaces the old one, and a null or
        empty one also clears the detailed error. */
    method SetError(value: Option<string>)
      modifies this`error, this`fullError
      ensures (error, fullError) == ErrorAfter(old(error), old(fullError), value)
    {
      if error != value {
        error := value;
        if NullOrEmpty(error) {
          fullError := None;
        }
      }
    }
  }

  /** The error pair after assigning `value` to `Error`. */
  function ErrorAfter(error: Option<string>, fullError: Option<string>, value: Option<string>)
    : (r: (Option<string>, Option<string>))
    ensures r.0 == value
    ensures value == error ==> r.1 == fullError
    ensures NullOrEmpty(value) && value != error ==> r.1 == None
    ensures !NullOrEmpty(value) ==> r.1 == fullError
  {
    if error == value then (error, fullError)
    else (value, if NullOrEmpty(value) then None else fullError)
  }

  /** Assigning the same error twice is the same as assigning it once. */
  lemma ErrorAfterIdempotent(error: Option<string>, fullError: Option<string>, value: Option<string>)
    ensures var r := ErrorAfter(error, fullError, value);
      ErrorAfter(r.0, r.1, value) == r
  {
  }

  /** The scan for a free player seat stops at the first one: the flag it
      computes is `PlayerFree` of the whole list. */
  lemma FreePlayerFound(persons: seq<PersonSeat>, i: nat)
    requires i <= |persons|
    requires PlayerFree(persons[..i]) || i == |persons|
    ensures PlayerFree(persons[..i]) ==> PlayerFree(persons)
    ensures i == |persons| ==> (PlayerFree(persons[..i]) <==> PlayerFree(persons))
  {
    if PlayerFree(persons[..i]) {
      var k :| 0 <= k < i && persons[..i][k].role == PlayerRole && !persons[..i][k].isOnline;
      assert persons[k] == persons[..i][k];
    }
    assert i == |persons| ==> persons[..i] == persons;
  }
}

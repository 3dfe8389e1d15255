/** The screen navigator of the game client (`NavigatorViewModel` in
    src/SIGame/SIGame.ViewModel/ViewModel/NavigatorViewModel.cs): the shown
    content, the stack of previously shown contents and the enablement of
    the Back command. Content boxes are compared by identity in the source;
    here they are values of a type `T` compared with `==`. Event
    (un)subscription on the content is not modelled. */
module Navigator {
  import opened Common

  /** The navigator's state; the top of the history stack is its last element. */
  datatype NavState<T> = NavState(content: Option<T>, history: seq<T>, canBack: bool)

  /** The state a fresh navigator starts in. */
  function Initial<T>(): (s: NavState<T>)
    ensures s.content.None? && s.history == [] && !s.canBack
  {
    NavState(None, [], false)
  }

  /** Back is enabled exactly when there is something to go back to. */
  predicate Consistent<T>(s: NavState<T>)
  {
    s.canBack <==> |s.history| > 0
  }

  /** The state after assigning `value` to `Content`. */
  function Assign<T(==)>(s: NavState<T>, value: Option<T>): (r: NavState<T>)
    ensures r.content == value
    ensures value == s.content ==> r == s
    ensures value != s.content && s.content.Some? ==>
      r.history == s.history + [s.content.value] && r.canBack
    ensures value != s.content && s.content.None? ==>
      r.history == s.history && r.canBack == s.canBack
    ensures Consistent(s) ==> Consistent(r)
  {
    if s.content == value then s
    else if s.content.Some? then NavState(value, s.history + [s.content.value], true)
    else NavState(value, s.history, s.canBack)
  }

  /** The state after the Back command, or `None` where the source throws
      (no content shown, or an empty history) without changing the state. */
  function GoBack<T>(s: NavState<T>): (r: Option<NavState<T>>)
    ensures r.Some? <==> s.content.Some? && |s.history| > 0
    ensures r.Some? ==>
      r.value.content == Some(s.history[|s.history| - 1])
      && r.value.history == s.history[..|s.history| - 1]
      && Consistent(r.value)
  {
    if s.content.None? || |s.history| == 0 then None
    else Some(NavState(Some(s.history[|s.history| - 1]), s.history[..|s.history| - 1],
                       |s.history| > 1))
  }

  /** Assigning each of `values` in turn. */
  function AssignAll<T(==)>(s: NavState<T>, values: seq<T>): NavState<T>
    decreases |values|
  {
    if |values| == 0 then s else AssignAll(Assign(s, Some(values[0])), values[1..])
  }

  /** Going back `n` times, or `None` as soon as one step throws. */
  function BackN<T>(s: NavState<T>, n: nat): Option<NavState<T>>
    decreases n
  {
    if n == 0 then Some(s)
    else match GoBack(s)
      case None => None
      case Some(t) => BackN(t, n - 1)
  }

  /** Consecutive values all differ, and the first differs from `current`. */
  predicate Fresh<T(==)>(current: Option<T>, values: seq<T>)
  {
    (|values| > 0 ==> current != Some(values[0]))
    && forall i :: 0 < i < |values| ==> values[i - 1] != values[i]
  }

  /** Showing a chain of new contents pushes the old content and all but the
      last new one. */
  lemma {:induction false} AssignAllPushes<T>(s: NavState<T>, values: seq<T>)
    requires s.content.Some? && Fresh(s.content, values) && |values| > 0
    ensures AssignAll(s, values).content == Some(values[|values| - 1])
    ensures AssignAll(s, values).history == s.history + ([s.content.value] + values[..|values| - 1])
    ensures Consistent(s) ==> Consistent(AssignAll(s, values))
    decreases |values|
  {
    var t := Assign(s, Some(values[0]));
    if |values| > 1 {
      assert Fresh(t.content, values[1..]);
      AssignAllPushes(t, values[1..]);
      assert values[1..][..|values| - 2] == values[1..|values| - 1];
      assert [values[0]] + values[1..|values| - 1] == values[..|values| - 1];
      assert t.history + ([t.content.value] + values[1..][..|values| - 2])
        == s.history + ([s.content.value] + values[..|values| - 1]);
    } else {
      assert AssignAll(t, values[1..]) == t;
    }
  }

  /** Going back pops what was pushed: `k` Backs over `k` pushed contents
      show the first of them again and leave the older history. */
  lemma {:induction false} BackNPops<T>(x: T, history: seq<T>, pushed: seq<T>, canBack: bool)
    requires |pushed| > 0
    ensures BackN(NavState(Some(x), history + pushed, canBack), |pushed|)
      == Some(NavState(Some(pushed[0]), history, |history| > 0))
    decreases |pushed|
  {
    var s := NavState(Some(x), history + pushed, canBack);
    var top := pushed[|pushed| - 1];
    var rest := pushed[..|pushed| - 1];
    assert (history + pushed)[..|history + pushed| - 1] == history + rest;
    assert GoBack(s) == Some(NavState(Some(top), history + rest, |history + pushed| > 1));
    if |pushed| > 1 {
      BackNPops(top, history, rest, |history + pushed| > 1);
    }
  }

  /** Showing a chain of new contents and going Back as many times restores
      the state before the chain. */
  lemma AssignAllThenBackN<T>(s: NavState<T>, values: seq<T>)
    requires Consistent(s) && s.content.Some? && Fresh(s.content, values) && |values| > 0
    ensures BackN(AssignAll(s, values), |values|) == Some(s)
  {
    var t := AssignAll(s, values);
    AssignAllPushes(s, values);
    var pushed := [s.content.value] + values[..|values| - 1];
    assert t.history == s.history + pushed;
    assert |pushed| == |values|;
    BackNPops(values[|values| - 1], s.history, pushed, t.canBack);
    assert NavState(Some(pushed[0]), s.history, |s.history| > 0) == s;
  }

  /** Showing a new content and then going Back restores the previous state
      whenever Back was consistent before. */
  lemma AssignThenBack<T>(s: NavState<T>, value: T)
    requires Consistent(s) && s.content.Some? && Some(value) != s.content
    ensures GoBack(Assign(s, Some(value))) == Some(s)
  {
  }

  class Navigator<T(==)> {
    var content: Option<T>
    var history: seq<T>
    /** `Back.CanBeExecuted`. */
    var canBack: bool

    function State(): NavState<T>
      reads this
    {
      NavState(content, history, canBack)
    }

    constructor ()
      ensures State() == Initial()
    {
      content := None;
      history := [];
      canBack := false;
    }

    /** The `Content` setter. */
    method SetContent(value: Option<T>)
      modifies this
      ensures State() == Assign(old(State()), value)
    {
      if content != value {
        if content.Some? {
          history := history + [content.value];
          canBack := true;
        }
        content := value;
      }
    }

    /** The Back command; `ok` is false where the source throws, and then
        nothing has changed. */
    method Back() returns (ok: bool)
      modifies this
      ensures ok == GoBack(old(State())).Some?
      ensures ok ==> State() == GoBack(old(State())).value
      ensures !ok ==> State() == old(State())
    {
      if content.None? || |history| == 0 {
        ok := false;
      } else {
        content := Some(history[|history| - 1]);
        history := history[..|history| - 1];
        canBack := |history| > 0;
        ok := true;
      }
    }
  }
}

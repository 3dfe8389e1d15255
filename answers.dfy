/** The list of answer variants of a question in the package editor
    (`AnswersViewModel` in src/SIQuester/SIQuester.ViewModel/AnswersViewModel.cs):
    the three "special" commands that derive a new variant from the current
    one, and the commands that cut the selected part of a variant out into a
    new answer, a source or a comment. The document's undo transaction and
    the text selection of the editor (a platform call) are not modelled: the
    selection is a parameter. */
module Answers {
  import opened Common

  /** `Environment.NewLine` on the desktop platform the editor runs on. */
  const NewLine: string := "\r\n"

  /** The conjunction " и " ("and") that Special3 swaps around. */
  const AndWord: string := " \U{0438} "

  /** Characters swallowed to the left of a cut selection. */
  const EmptyLeft: set<char> := {' ', '/', '(', ',', '\\', '\U{2014}'}

  /** Characters swallowed to the right of a cut selection. */
  const EmptyRight: set<char> := {' ', ')'}

  // ---------------------------------------------------------------------------
  // Command enablement

  /** Special1 ("add the last word") is enabled for the current text. */
  predicate Special1Enabled(text: Option<string>)
  {
    text.Some? && text.value != "" && Contains(text.value, " ")
  }

  /** Special2 ("move the parenthesised part to the comments") is enabled. */
  predicate Special2Enabled(text: Option<string>)
  {
    text.Some? && Contains(text.value, "(") && Contains(text.value, ")")
  }

  /** Special3 ("swap the parts around the conjunction") is enabled. */
  predicate Special3Enabled(text: Option<string>)
  {
    text.Some? && Contains(text.value, AndWord)
  }

  /** The space-separated words of a text. */
  function Words(text: string): seq<string>
  {
    SplitNonEmpty(text, {' '})
  }

  /** Special1 as it evidently should be enabled: there is a word to take. */
  predicate Special1Usable(text: Option<string>)
  {
    Special1Enabled(text) && exists i :: 0 <= i < |text.value| && text.value[i] != ' '
  }

  /** The enablement test lets through a text of spaces only, which has no
      word for the command to take. */
  lemma Special1EnabledWithoutWord()
    ensures Special1Enabled(Some(" ")) && Words(" ") == []
  {
    assert ContainsAt(" ", " ", 0);
    SplitNonEmptyIsEmpty(" ", {' '});
  }

  /** With the corrected test the command always finds a word, and the
      corrected test only narrows the original one. */
  lemma Special1UsableHasWord(text: Option<string>)
    ensures Special1Usable(text) ==> Special1Enabled(text) && Words(text.value) != []
    ensures Special1Enabled(text) && !Special1Usable(text) ==> Words(text.value) == []
  {
    if text.Some? {
      SplitNonEmptyIsEmpty(text.value, {' '});
    }
  }

  // ---------------------------------------------------------------------------
  // Derived variants

  /** The variant Special3 adds for a text containing the conjunction: the
      part after its first occurrence (first letter grown), the conjunction,
      then the part before it. */
  function Swapped(text: string): (r: Option<string>)
    ensures r.Some? <==> Contains(text, AndWord)
  {
    var i := IndexOf(text, AndWord);
    if i == -1 then None
    else Some(GrowFirstLetter(text[i + 3..]) + AndWord + text[..i])
  }

  /** Where the conjunction does not occur before the one between `a` and
      `b`, Special3 turns "a и b" into "B и a". */
  lemma SwappedSplits(a: string, b: string)
    requires !Contains(a + AndWord[..2], AndWord)
    ensures Swapped(a + AndWord + b) == Some(GrowFirstLetter(b) + AndWord + a)
  {
    var text := a + AndWord + b;
    assert text[|a|..|a| + 3] == AndWord;
    assert ContainsAt(text, AndWord, |a|);
    var i := IndexOf(text, AndWord);
    assert 0 <= i <= |a|;
    if i < |a| {
      var pre := a + AndWord[..2];
      assert pre == text[..|a| + 2];
      assert pre[i..i + 3] == text[i..i + 3];
      assert ContainsAt(pre, AndWord, i);
      assert false;
    }
    assert text[..|a|] == a;
    assert text[|a| + 3..] == b;
  }

  /** The pieces of a text split on parentheses, with empty pieces dropped. */
  function ParenPieces(text: string): seq<string>
  {
    SplitNonEmpty(text, {'(', ')'})
  }

  /** Trims every piece. */
  function TrimAll(ws: seq<string>): (r: seq<string>)
    ensures |r| == |ws| && forall k :: 0 <= k < |ws| ==> r[k] == Trim(ws[k])
  {
    if ws == [] then [] else [Trim(ws[0])] + TrimAll(ws[1..])
  }

  lemma {:induction false} TrimAllSnoc(ws: seq<string>, w: string)
    ensures TrimAll(ws + [w]) == TrimAll(ws) + [Trim(w)]
  {
    var r := TrimAll(ws + [w]);
    var t := TrimAll(ws) + [Trim(w)];
    assert |r| == |t|;
    forall k | 0 <= k < |r|
      ensures r[k] == t[k]
    {
      if k < |ws| {
        assert (ws + [w])[k] == ws[k];
        assert r[k] == Trim(ws[k]);
      } else {
        assert (ws + [w])[k] == w;
        assert r[k] == Trim(w);
      }
    }
  }

  /** The answer Special2 leaves: piece 0 and pieces 2.. trimmed, joined by
      single spaces; piece 1 goes to the comments. */
  function Rejoined(pieces: seq<string>): string
    requires |pieces| > 1
  {
    JoinWith([Trim(pieces[0])] + TrimAll(pieces[2..]), ' ')
  }

  lemma {:induction false} JoinWithSnoc(ws: seq<string>, w: string, c: char)
    requires |ws| >= 1
    ensures JoinWith(ws + [w], c) == JoinWith(ws, c) + [c] + w
    decreases |ws|
  {
    if |ws| > 1 {
      assert (ws + [w])[1..] == ws[1..] + [w];
      JoinWithSnoc(ws[1..], w, c);
    }
  }

  lemma {:induction false} JoinWithChars(ws: seq<string>, c: char, x: char)
    requires |ws| >= 1 && x != c
    requires forall k :: 0 <= k < |ws| ==> x !in ws[k]
    ensures x !in JoinWith(ws, c)
    decreases |ws|
  {
    if |ws| > 1 {
      JoinWithChars(ws[1..], c, x);
    }
  }

  /** Trimming and joining with spaces brings no parenthesis in. */
  lemma {:induction false} RejoinedKeepsOut(pieces: seq<string>)
    requires |pieces| > 1
    requires forall k :: 0 <= k < |pieces| ==> NoSeparator(pieces[k], {'(', ')'})
    ensures '(' !in Rejoined(pieces) && ')' !in Rejoined(pieces)
  {
    var ws := [Trim(pieces[0])] + TrimAll(pieces[2..]);
    forall k | 0 <= k < |ws|
      ensures '(' !in ws[k] && ')' !in ws[k]
    {
      var src := if k == 0 then pieces[0] else pieces[2..][k - 1];
      assert ws[k] == Trim(src);
      TrimKeepsOut(src);
    }
    JoinWithChars(ws, ' ', '(');
    JoinWithChars(ws, ' ', ')');
  }

  /** Trimming a piece without parentheses brings none in. */
  lemma TrimKeepsOut(src: string)
    requires NoSeparator(src, {'(', ')'})
    ensures '(' !in Trim(src) && ')' !in Trim(src)
  {
  }

  /** No piece of a split contains a separator. */
  lemma ParenPiecesKeepOut(text: string)
    ensures forall k :: 0 <= k < |ParenPieces(text)| ==> NoSeparator(ParenPieces(text)[k], {'(', ')'})
  {
    var ws := Split(text, {'(', ')'});
    forall k | 0 <= k < |ParenPieces(text)|
      ensures NoSeparator(ParenPieces(text)[k], {'(', ')'})
    {
      var w := ParenPieces(text)[k];
      assert w in ws;
      var j :| 0 <= j < |ws| && ws[j] == w;
      assert NoSeparator(ws[j], {'(', ')'});
    }
  }

  /** The answer Special2 rebuilds has no parentheses left. */
  lemma RejoinedHasNoParens(text: string)
    requires |ParenPieces(text)| > 1
    ensures '(' !in Rejoined(ParenPieces(text)) && ')' !in Rejoined(ParenPieces(text))
  {
    ParenPiecesKeepOut(text);
    RejoinedKeepsOut(ParenPieces(text));
  }

  /** The comments after appending a line. */
  function AppendLine(comments: string, line: string): string
  {
    (if |comments| > 0 then comments + NewLine else comments) + line
  }

  // ---------------------------------------------------------------------------
  // Cutting out a selection

  /** Moves `k` left over the characters of `EmptyLeft`. */
  function WidenLeft(item: string, k: nat): (r: nat)
    requires k <= |item|
    ensures r <= k
    ensures forall j :: r <= j < k ==> item[j] in EmptyLeft
    ensures r == 0 || item[r - 1] !in EmptyLeft
  {
    if k > 0 && item[k - 1] in EmptyLeft then WidenLeft(item, k - 1) else k
  }

  /** Moves `k` right over the characters of `EmptyRight`. */
  function WidenRight(item: string, k: nat): (r: nat)
    requires k <= |item|
    ensures k <= r <= |item|
    ensures forall j :: k <= j < r ==> item[j] in EmptyRight
    ensures r == |item| || item[r] !in EmptyRight
    decreases |item| - k
  {
    if k < |item| && item[k] in EmptyRight then WidenRight(item, k + 1) else k
  }

  /** The editor's selection: item index, start and length. */
  datatype Range = Range(index: int, start: int, length: int)

  /** The selection lies inside an existing item. */
  predicate Fits(items: seq<string>, r: Range)
  {
    0 <= r.index < |items| && 0 <= r.start <= |items[r.index]|
    && 0 <= r.length && r.start + r.length <= |items[r.index]|
  }

  /** The outcome of cutting out a selection: nothing selected, a selection
      outside the items (the source throws), or the cut text. */
  datatype Cut = NothingSelected | BadSelection | CutText(text: string)

  /** `item[a..b]` is the selection at `start` with the longest runs of left
      separators before it and right separators after it. */
  predicate WidenedTo(item: string, start: nat, length: nat, a: nat, b: nat)
  {
    a <= start && start + length <= b <= |item|
    && (forall j :: a <= j < start ==> item[j] in EmptyLeft) && (a == 0 || item[a - 1] !in EmptyLeft)
    && (forall j :: start + length <= j < b ==> item[j] in EmptyRight) && (b == |item| || item[b] !in EmptyRight)
  }

  /** The item with the selection and the separators around it removed: a
      prefix and a suffix stay, and what goes between them is the widened
      selection. */
  function CutOut(item: string, start: nat, length: nat): (r: string)
    requires start + length <= |item|
    ensures |r| <= |item| - length
    ensures exists a: nat, b: nat :: WidenedTo(item, start, length, a, b) && r == item[..a] + item[b..]
  {
    assert WidenedTo(item, start, length, WidenLeft(item, start), WidenRight(item, start + length));
    item[..WidenLeft(item, start)] + item[WidenRight(item, start + length)..]
  }

  /** The text a selection yields: trimmed, first letter grown. */
  function SelectedText(item: string, start: nat, length: nat): string
    requires start + length <= |item|
  {
    GrowFirstLetter(Trim(item[start..start + length]))
  }

  /** A selection cuts something out: it is non-empty and lies inside an
      item. */
  predicate Cuts(items: seq<string>, selection: Option<Range>)
  {
    selection.Some? && selection.value.length != 0 && Fits(items, selection.value)
  }

  /** The outcome of `ProcessSelection`: nothing for an empty selection, an
      error for one outside the items, and otherwise the selected text. */
  function CutOf(items: seq<string>, selection: Option<Range>): (r: Cut)
    ensures r == NothingSelected <==> selection.None? || selection.value.length == 0
    ensures r == BadSelection <==>
      selection.Some? && selection.value.length != 0 && !Fits(items, selection.value)
    ensures r.CutText? <==> Cuts(items, selection)
  {
    if selection.None? || selection.value.length == 0 then NothingSelected
    else if !Fits(items, selection.value) then BadSelection
    else
      var s := selection.value;
      CutText(SelectedText(items[s.index], s.start, s.length))
  }

  /** Trimming and growing the first letter never lengthens a text, and
      leaves nothing exactly of a blank one. */
  lemma TrimmedGrownBounds(raw: string)
    ensures |GrowFirstLetter(Trim(raw))| <= |raw|
    ensures GrowFirstLetter(Trim(raw)) == [] <==> IsBlank(raw)
  {
    assert |GrowFirstLetter(Trim(raw))| == |Trim(raw)|;
  }

  /** The items after `ProcessSelection`: the selected text is cut out of its
      item together with the separators around it; every other item stays,
      and nothing changes when the selection cuts nothing. */
  function ItemsAfter(items: seq<string>, selection: Option<Range>): (r: seq<string>)
    ensures !Cuts(items, selection) ==> r == items
    ensures Cuts(items, selection) ==>
      var s := selection.value;
      |r| == |items| && r[s.index] == CutOut(items[s.index], s.start, s.length)
      && forall k :: 0 <= k < |items| && k != s.index ==> r[k] == items[k]
  {
    if !Cuts(items, selection) then items
    else
      var s := selection.value;
      items[s.index := CutOut(items[s.index], s.start, s.length)]
  }

  /** The loops of `ProcessSelection` that widen the selection. */
  method WidenSelection(item: string, start0: nat, length: nat) returns (start: nat, end: nat)
    requires start0 + length <= |item|
    ensures start == WidenLeft(item, start0) && end == WidenRight(item, start0 + length)
  {
    start := start0;
    while start > 0 && item[start - 1] in EmptyLeft
      invariant start <= start0
      invariant WidenLeft(item, start) == WidenLeft(item, start0)
    {
      start := start - 1;
    }
    end := start0 + length;
    while end < |item| && item[end] in EmptyRight
      invariant start0 + length <= end <= |item|
      invariant WidenRight(item, end) == WidenRight(item, start0 + length)
    {
      end := end + 1;
    }
  }

  /** The trimmed pieces Special2 keeps, up to piece `i`. */
  function KeptPieces(pieces: seq<string>, i: nat): seq<string>
    requires 2 <= i <= |pieces|
  {
    [Trim(pieces[0])] + TrimAll(pieces[2..i])
  }

  lemma KeptPiecesStep(pieces: seq<string>, i: nat)
    requires 2 <= i < |pieces|
    ensures JoinWith(KeptPieces(pieces, i + 1), ' ')
      == JoinWith(KeptPieces(pieces, i), ' ') + [' '] + Trim(pieces[i])
  {
    KeptPiecesSnoc(pieces, i);
    JoinWithSnoc(KeptPieces(pieces, i), Trim(pieces[i]), ' ');
  }

  lemma KeptPiecesSnoc(pieces: seq<string>, i: nat)
    requires 2 <= i < |pieces|
    ensures KeptPieces(pieces, i + 1) == KeptPieces(pieces, i) + [Trim(pieces[i])]
  {
    assert pieces[2..i + 1] == pieces[2..i] + [pieces[i]];
    TrimAllSnoc(pieces[2..i], pieces[i]);
  }

  /** Before the loop only piece 0 is kept; after it, all the kept pieces. */
  lemma KeptPiecesEnds(pieces: seq<string>)
    requires |pieces| > 1
    ensures JoinWith(KeptPieces(pieces, 2), ' ') == Trim(pieces[0])
    ensures JoinWith(KeptPieces(pieces, |pieces|), ' ') == Rejoined(pieces)
  {
    assert KeptPieces(pieces, 2) == [Trim(pieces[0])];
    assert pieces[2..|pieces|] == pieces[2..];
  }

  /** Builds the rebuilt answer of Special2 piece by piece. */
  method JoinTrimmed(pieces: seq<string>) returns (str: string)
    requires |pieces| > 1
    ensures str == Rejoined(pieces)
  {
    KeptPiecesEnds(pieces);
    str := Trim(pieces[0]);
    var i := 2;
    while i < |pieces|
      invariant 2 <= i <= |pieces|
      invariant str == JoinWith(KeptPieces(pieces, i), ' ')
    {
      KeptPiecesStep(pieces, i);
      str := str + [' '] + Trim(pieces[i]);
      i := i + 1;
    }
  }

  /** Removal of a variant is allowed. */
  predicate CanRemove(count: nat, hasOwner: bool, isWrongList: bool)
  {
    count > 1 || !hasOwner || isWrongList
  }

  /** The right answers of a question may lose a variant exactly when one
      stays; a list of wrong answers, or one without a question, may be
      emptied. */
  lemma CanRemoveKeepsRightAnswer(items: seq<string>, index: nat, hasOwner: bool, isWrongList: bool)
    requires index < |items|
    ensures hasOwner && !isWrongList ==>
      (CanRemove(|items|, hasOwner, isWrongList) <==> |items[..index] + items[index + 1..]| >= 1)
    ensures !hasOwner || isWrongList ==> CanRemove(|items|, hasOwner, isWrongList)
  {
    assert |items[..index] + items[index + 1..]| == |items| - 1;
  }

  class AnswerList {
    var items: seq<string>
    /** `CurrentPosition`; the current item is null outside the list. */
    var position: int
    var special1: bool
    var special2: bool
    var special3: bool
    /** `Owner.Info.Comments.Text` and `Owner.Info.Sources`. */
    var comments: string
    var sources: seq<string>

    function Current(): Option<string>
      reads this
    {
      if 0 <= position < |items| then Some(items[position]) else None
    }

    /** Recomputes the enablement of the special commands from the current
        item. Special1 is enabled by the corrected test, so an enabled
        Special1 always finds a word. */
    method UpdateAnswersCommands()
      modifies this`special1, this`special2, this`special3
      ensures special1 == Special1Usable(Current())
      ensures special1 ==> Special1Enabled(Current()) && Words(Current().value) != []
      ensures special2 == Special2Enabled(Current())
      ensures special3 == Special3Enabled(Current())
    {
      var text := Current();
      Special1UsableHasWord(text);
      special1 := text.Some? && text.value != "" && Contains(text.value, " ")
        && exists i :: 0 <= i < |text.value| && text.value[i] != ' ';
      special2 := text.Some? && Contains(text.value, "(") && Contains(text.value, ")");
      special3 := text.Some? && Contains(text.value, AndWord);
    }

    /** Special1: appends the last word of the current item, first letter
        grown. `ok` is false where the source throws (no current item, or no
        word in it), and then nothing changes. */
    method AnswerSpecial1() returns (ok: bool)
      modifies this`items
      ensures ok <==> old(Current()).Some? && Words(old(Current()).value) != []
      ensures ok ==> var w := Words(old(Current()).value);
        items == old(items) + [GrowFirstLetter(w[|w| - 1])]
      ensures !ok ==> items == old(items)
    {
      ok := false;
      var text := Current();
      if text.Some? {
        var words := Words(text.value);
        if |words| > 0 {
          items := items + [GrowFirstLetter(words[|words| - 1])];
          ok := true;
        }
      }
    }

    /** Special2: moves the first parenthesised piece of the current item to
        the comments and rebuilds the item from the other pieces. An index
        outside the list throws and is rolled back: `ok` is false and nothing
        changes. */
    method AnswerSpecial2() returns (ok: bool)
      modifies this`items, this`comments
      ensures ok <==> 0 <= old(position) < |old(items)|
      ensures !ok || |ParenPieces(old(items)[position])| <= 1 ==>
        items == old(items) && comments == old(comments)
      ensures ok && |ParenPieces(old(items)[position])| > 1 ==>
        var p := ParenPieces(old(items)[position]);
        comments == AppendLine(old(comments), GrowFirstLetter(p[1]))
        && items == old(items)[position := Rejoined(p)]
    {
      ok := 0 <= position < |items|;
      if ok {
        var pieces := ParenPieces(items[position]);
        if |pieces| > 1 {
          var str := JoinTrimmed(pieces);
          comments := AppendLine(comments, GrowFirstLetter(pieces[1]));
          items := items[position := str];
        }
      }
    }

    /** Special3: appends the current item with the parts around the first
        conjunction swapped; a missing current item throws (`ok` false). */
    method AnswerSpecial3() returns (ok: bool)
      modifies this`items
      ensures ok <==> old(Current()).Some?
      ensures ok && Swapped(old(Current()).value).Some? ==>
        items == old(items) + [Swapped(old(Current()).value).value]
      ensures !ok || Swapped(old(Current()).value).None? ==> items == old(items)
    {
      var text := Current();
      ok := text.Some?;
      if ok {
        var swapped := Swapped(text.value);
        if swapped.Some? {
          items := items + [swapped.value];
        }
      }
    }

    /** `ProcessSelection`; a selection outside the items throws before
        anything changes. */
    method ProcessSelection(selection: Option<Range>) returns (r: Cut)
      modifies this`items
      ensures r == CutOf(old(items), selection)
      ensures items == ItemsAfter(old(items), selection)
    {
      if selection.None? || selection.value.length == 0 {
        r := NothingSelected;
      } else if !Fits(items, selection.value) {
        r := BadSelection;
      } else {
        var s := selection.value;
        var item := items[s.index];
        var text := SelectedText(item, s.start, s.length);
        var start, end := WidenSelection(item, s.start, s.length);
        items := items[s.index := item[..start] + item[end..]];
        r := CutText(text);
      }
    }

    /** ToNewAnswer: the cut text becomes a new answer. */
    method ToNewAnswer(selection: Option<Range>) returns (r: Cut)
      modifies this`items
      ensures r == CutOf(old(items), selection)
      ensures items == ItemsAfter(old(items), selection) + (if r.CutText? then [r.text] else [])
    {
      r := ProcessSelection(selection);
      if r.CutText? {
        items := items + [r.text];
      }
    }

    /** ToNewSource: the cut text becomes a new source. */
    method ToNewSource(selection: Option<Range>) returns (r: Cut)
      modifies this`items, this`sources
      ensures r == CutOf(old(items), selection)
      ensures items == ItemsAfter(old(items), selection)
      ensures sources == old(sources) + (if r.CutText? then [r.text] else [])
    {
      r := ProcessSelection(selection);
      if r.CutText? {
        sources := sources + [r.text];
      }
    }

    /** ToNewComment: the cut text is appended to the comments as a line. */
    method ToNewComment(selection: Option<Range>) returns (r: Cut)
      modifies this`items, this`comments
      ensures r == CutOf(old(items), selection)
      ensures items == ItemsAfter(old(items), selection)
      ensures comments == if r.CutText? then AppendLine(old(comments), r.text) else old(comments)
    {
      r := ProcessSelection(selection);
      if r.CutText? {
        comments := AppendLine(comments, r.text);
      }
    }
  }
}

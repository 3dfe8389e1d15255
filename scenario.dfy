/** The scenario editor of a question (`ScenarioViewModel` in
    src/SIQuester/SIQuester.ViewModel/ScenarioViewModel.cs): a list of atom
    view-models kept in step with the package's list of atoms, the marker
    flag `IsComplex`, the atom commands and their enablement. Atoms are
    objects shared between the two lists, so a change of an atom's type is
    seen through both. The collection is changed one item at a time, as an
    observable collection reports it; each change method below performs the
    change and then the handler the view-model runs for it. */
module Scenario {
  import opened Common

  /** The atom types (AtomTypes); `Other` is any other type name. */
  datatype AtomType = Text | Oral | Image | Audio | Video | Marker | Other(name: string)

  predicate IsMedia(t: AtomType)
  {
    t == Image || t == Audio || t == Video
  }

  /** The type ChangeType gives an atom: Text and Oral swap, every other
      type stays. */
  function Toggled(t: AtomType): (r: AtomType)
    ensures t == Text <==> r == Oral
    ensures t == Oral <==> r == Text
    ensures t != Text && t != Oral ==> r == t
  {
    if t == Text then Oral else if t == Oral then Text else t
  }

  /** Changing the type twice restores it. */
  lemma ToggledTwice(t: AtomType)
    ensures Toggled(Toggled(t)) == t
  {
  }

  /** An atom of the package (Atom). */
  class Atom {
    var kind: AtomType
    var text: string
    var time: int

    constructor (kind: AtomType, text: string)
      ensures this.kind == kind && this.text == text && this.time == 0
    {
      this.kind := kind;
      this.text := text;
      this.time := 0;
    }
  }

  /** The view-model of one atom (AtomViewModel). */
  class AtomView {
    const model: Atom
    var isExpanded: bool
    var owner: ScenarioView?

    constructor (model: Atom)
      ensures this.model == model && owner == null
    {
      this.model := model;
      isExpanded := true;
      owner := null;
    }
  }

  /** The atoms under a list of atom view-models. */
  function ModelsOf(views: seq<AtomView>): (r: seq<Atom>)
    ensures |r| == |views| && forall i :: 0 <= i < |views| ==> r[i] == views[i].model
  {
    if views == [] then [] else [views[0].model] + ModelsOf(views[1..])
  }

  /** Some atom of the list is a marker. */
  predicate AnyMarker(atoms: seq<Atom>)
    reads set a | a in atoms
  {
    exists i :: 0 <= i < |atoms| && atoms[i].kind == Marker
  }

  /** Appending an atom adds a marker exactly when the atom is one. */
  lemma AnyMarkerSnoc(atoms: seq<Atom>, a: Atom)
    ensures AnyMarker(atoms + [a]) == (AnyMarker(atoms) || a.kind == Marker)
  {
    if AnyMarker(atoms) {
      var j :| 0 <= j < |atoms| && atoms[j].kind == Marker;
      assert (atoms + [a])[j] == atoms[j];
    }
    if a.kind == Marker {
      assert (atoms + [a])[|atoms|] == a;
    }
  }

  /** The loop behind `Items.Any(atom => atom.Model.Type == AtomTypes.Marker)`. */
  method HasMarker(views: seq<AtomView>) returns (found: bool)
    ensures found == AnyMarker(ModelsOf(views))
  {
    found := false;
    var i := 0;
    while i < |views| && !found
      invariant 0 <= i <= |views|
      invariant found == exists k :: 0 <= k < i && views[k].model.kind == Marker
    {
      found := views[i].model.kind == Marker;
      i := i + 1;
    }
  }

  /** Removal of an atom is allowed only while more than one is left. */
  predicate CanRemove(count: nat)
  {
    count > 1
  }

  /** The guard lets a removal through exactly when the scenario keeps an
      atom afterwards, and the package's atoms then lose just the removed one. */
  lemma CanRemoveKeepsOne(views: seq<AtomView>, index: nat)
    requires index < |views|
    ensures CanRemove(|views|) <==> |views[..index] + views[index + 1..]| >= 1
    ensures CanRemove(|views|) ==>
      ModelsOf(views[..index] + views[index + 1..]) == ModelsOf(views)[..index] + ModelsOf(views)[index + 1..]
      && |ModelsOf(views[..index] + views[index + 1..])| >= 1
  {
    MirrorRemove(views, index);
  }

  class ScenarioView {
    var items: seq<AtomView>
    /** The package's list of atoms (`Model`). */
    var model: seq<Atom>
    var isComplex: bool
    /** `CurrentPosition`. */
    var position: int
    var canSetTime: bool
    var canCollapse: bool
    var canExpand: bool
    var canExport: bool

    /** The package's list holds exactly the atoms of the view-models, in
        order. */
    predicate Mirrored()
      reads this
    {
      model == ModelsOf(items)
    }

    function Current(): AtomView?
      reads this
    {
      if 0 <= position < |items| then items[position] else null
    }

    /** The constructor: one view-model per atom, in order, and the marker
        flag raised when some atom is a marker. */
    constructor (atoms: seq<Atom>)
      ensures model == atoms && Mirrored()
      ensures forall i :: 0 <= i < |items| ==> fresh(items[i]) && items[i].owner == this
      ensures isComplex == AnyMarker(atoms)
      ensures position == -1
    {
      items := [];
      model := atoms;
      isComplex := false;
      position := -1;
      canSetTime, canCollapse, canExpand, canExport := false, false, false, false;
      new;
      var i := 0;
      while i < |atoms|
        invariant 0 <= i <= |atoms| && |items| == i
        invariant ModelsOf(items) == atoms[..i] && model == atoms && position == -1
        invariant forall k :: 0 <= k < i ==> fresh(items[k]) && items[k].owner == this
        invariant isComplex == exists k :: 0 <= k < i && atoms[k].kind == Marker
      {
        var view := new AtomView(atoms[i]);
        view.owner := this;
        ModelsOfSnoc(items, view);
        assert atoms[..i + 1] == atoms[..i] + [atoms[i]];
        items := items + [view];
        if atoms[i].kind == Marker {
          isComplex := true;
        }
        i := i + 1;
      }
      assert atoms[..i] == atoms;
    }

    /** `UpdateAtomCommands`: enablement of the commands for the current
        atom. */
    method UpdateAtomCommands()
      modifies this`canSetTime, this`canCollapse, this`canExpand, this`canExport
      ensures Current() == null ==> !canSetTime && !canCollapse && !canExpand && !canExport
      ensures Current() != null ==>
        var atom := Current();
        (canSetTime <==> atom.model.time == 0)
        && (canExport <==> IsMedia(atom.model.kind))
        && (canCollapse <==> IsMedia(atom.model.kind) && atom.isExpanded)
        && (canExpand <==> IsMedia(atom.model.kind) && !atom.isExpanded)
      ensures !(canCollapse && canExpand)
    {
      var atom := Current();
      if atom == null {
        canSetTime, canCollapse, canExpand, canExport := false, false, false, false;
      } else {
        var media := IsMedia(atom.model.kind);
        canSetTime := atom.model.time == 0;
        canCollapse := media && atom.isExpanded;
        canExpand := media && !atom.isExpanded;
        canExport := media;
      }
    }

    /** An atom view-model is inserted at `index` (the Add event): the
        handler inserts its atom into the package's list at the same index. */
    method Insert(index: int, view: AtomView)
      requires Mirrored() && 0 <= index <= |items|
      modifies this, view
      ensures items == old(items)[..index] + [view] + old(items)[index..]
      ensures model == old(model)[..index] + [view.model] + old(model)[index..]
      ensures Mirrored() && view.owner == this
      ensures isComplex == old(isComplex) && position == old(position)
    {
      items := items[..index] + [view] + items[index..];
      view.owner := this;
      model := model[..index] + [items[index].model] + model[index..];
      MirrorInsert(old(items), index, view);
    }

    /** The atom view-model at `index` is replaced (the Replace event): the
        handler puts its atom at the same index of the package's list. */
    method Replace(index: int, view: AtomView)
      requires Mirrored() && 0 <= index < |items|
      modifies this, view
      ensures items == old(items)[index := view] && model == old(model)[index := view.model]
      ensures Mirrored() && view.owner == this
      ensures isComplex == old(isComplex) && position == old(position)
    {
      items := items[index := view];
      view.owner := this;
      model := model[index := items[index].model];
      MirrorReplace(old(items), index, view);
    }

    /** The atom view-model at `index` is removed (the Remove event): the
        handler detaches it, removes the atom at the same index and
        recomputes the marker flag. */
    method RemoveAt(index: int)
      requires Mirrored() && 0 <= index < |items|
      modifies this, items[index]
      ensures items == old(items)[..index] + old(items)[index + 1..]
      ensures model == old(model)[..index] + old(model)[index + 1..]
      ensures old(items)[index].owner == null
      ensures Mirrored() && isComplex == AnyMarker(model) && position == old(position)
    {
      var removed := items[index];
      items := items[..index] + items[index + 1..];
      removed.owner := null;
      model := model[..index] + model[index + 1..];
      MirrorRemove(old(items), index);
      isComplex := HasMarker(items);
    }

    /** The list is reset to `views` (the Reset event): the handler clears
        the package's list and rebuilds it from the view-models in order. */
    method Reset(views: seq<AtomView>)
      modifies this, set v | v in views
      ensures items == views && model == ModelsOf(views) && Mirrored()
      ensures forall v :: v in views ==> v.owner == this
      ensures isComplex == AnyMarker(model) && position == old(position)
    {
      items := views;
      model := [];
      var i := 0;
      while i < |items|
        invariant items == views && 0 <= i <= |items|
        invariant model == ModelsOf(items[..i])
        invariant forall k :: 0 <= k < i ==> items[k].owner == this
        invariant position == old(position)
      {
        items[i].owner := this;
        model := model + [items[i].model];
        assert items[..i + 1] == items[..i] + [items[i]];
        ModelsOfSnoc(items[..i], items[i]);
        i := i + 1;
      }
      assert items[..i] == items;
      isComplex := HasMarker(items);
    }

    /** Adds a new atom of the given type and text at the end (`Add`). */
    method Append(kind: AtomType, text: string) returns (view: AtomView)
      requires Mirrored()
      modifies this
      ensures fresh(view) && fresh(view.model)
      ensures view.model.kind == kind && view.model.text == text && view.owner == this
      ensures items == old(items) + [view] && model == old(model) + [view.model]
      ensures Mirrored() && isComplex == old(isComplex) && position == old(position)
    {
      var atom := new Atom(kind, text);
      view := new AtomView(atom);
      Insert(|items|, view);
    }

    /** AddText: appends an empty text atom. */
    method AddText() returns (view: AtomView)
      requires Mirrored()
      modifies this
      ensures fresh(view) && fresh(view.model) && view.model.kind == Text && view.model.text == ""
      ensures items == old(items) + [view] && Mirrored() && isComplex == old(isComplex)
    {
      view := Append(Text, "");
    }

    /** AddVoice: drops the current atom when its text is blank (which
        detaches it and recomputes the marker flag), then appends an empty
        spoken atom. */
    method AddVoice() returns (view: AtomView)
      requires Mirrored()
      modifies this, items
      ensures fresh(view) && fresh(view.model) && view.model.kind == Oral && view.model.text == ""
      ensures var i := old(position);
        if 0 <= i < |old(items)| && IsBlank(old(items)[i].model.text) then
          items == old(items)[..i] + old(items)[i + 1..] + [view]
        else items == old(items) + [view]
      ensures Mirrored() && position == old(position)
      ensures var i := old(position);
        0 <= i < |old(items)| && IsBlank(old(items)[i].model.text) ==>
          isComplex == AnyMarker(model) && old(items)[i].owner == null
      ensures var i := old(position);
        !(0 <= i < |old(items)| && IsBlank(old(items)[i].model.text)) ==> isComplex == old(isComplex)
    {
      var index := position;
      if 0 <= index < |items| && IsBlank(items[index].model.text) {
        RemoveAt(index);
      }
      ghost var before := model;
      view := Append(Oral, "");
      AnyMarkerSnoc(before, view.model);
    }

    /** AddMarker: appends a marker atom and raises the marker flag. */
    method AddMarker() returns (view: AtomView)
      requires Mirrored()
      modifies this
      ensures fresh(view) && fresh(view.model) && view.model.kind == Marker
      ensures items == old(items) + [view] && Mirrored()
      ensures isComplex && AnyMarker(model)
    {
      view := Append(Marker, "");
      isComplex := true;
      assert model[|model| - 1] == view.model;
    }

    /** ChangeType: swaps Text and Oral on the current atom; every other
        atom object keeps its type, and the atom keeps its text and time. */
    method ChangeType()
      modifies if 0 <= position < |items| then {items[position].model} else {}
      ensures 0 <= position < |items| ==>
        var atom := items[position].model;
        atom.kind == Toggled(old(atom.kind))
        && atom.text == old(atom.text) && atom.time == old(atom.time)
    {
      var index := position;
      if 0 <= index < |items| {
        var atom := items[index];
        if atom.model.kind == Text {
          atom.model.kind := Oral;
        } else if atom.model.kind == Oral {
          atom.model.kind := Text;
        }
      }
    }

    /** SetTime: gives the current atom a duration of 5 seconds; the change
        of the time re-runs UpdateAtomCommands, which disables SetTime. */
    method SetTime()
      requires Current() != null
      modifies Current().model, this`canSetTime, this`canCollapse, this`canExpand, this`canExport
      ensures Current().model.time == 5 && !canSetTime
      ensures Current().model.kind == old(Current().model.kind)
      ensures Current().model.text == old(Current().model.text)
      ensures canExport == IsMedia(Current().model.kind)
      ensures canCollapse == (IsMedia(Current().model.kind) && Current().isExpanded)
      ensures canExpand == (IsMedia(Current().model.kind) && !Current().isExpanded)
    {
      items[position].model.time := 5;
      UpdateAtomCommands();
    }

    /** CollapseMedia: folds the current atom; only Expand is left enabled. */
    method CollapseMedia()
      requires Current() != null
      modifies Current(), this`canCollapse, this`canExpand
      ensures !Current().isExpanded && !canCollapse && canExpand
    {
      items[position].isExpanded := false;
      canCollapse := false;
      canExpand := true;
    }

    /** ExpandMedia: unfolds the current atom; only Collapse is left enabled. */
    method ExpandMedia()
      requires Current() != null
      modifies Current(), this`canCollapse, this`canExpand
      ensures Current().isExpanded && canCollapse && !canExpand
    {
      items[position].isExpanded := true;
      canCollapse := true;
      canExpand := false;
    }
  }

  lemma ModelsOfSnoc(views: seq<AtomView>, v: AtomView)
    ensures ModelsOf(views + [v]) == ModelsOf(views) + [v.model]
  {
    var r := ModelsOf(views + [v]);
    var t := ModelsOf(views) + [v.model];
    forall k | 0 <= k < |r|
      ensures r[k] == t[k]
    {
      if k < |views| {
        assert (views + [v])[k] == views[k];
      }
    }
  }

  lemma MirrorInsert(views: seq<AtomView>, index: int, v: AtomView)
    requires 0 <= index <= |views|
    ensures ModelsOf(views[..index] + [v] + views[index..])
      == ModelsOf(views)[..index] + [v.model] + ModelsOf(views)[index..]
  {
    var r := ModelsOf(views[..index] + [v] + views[index..]);
    var t := ModelsOf(views)[..index] + [v.model] + ModelsOf(views)[index..];
    forall k | 0 <= k < |r|
      ensures r[k] == t[k]
    {
      if k < index {
        assert (views[..index] + [v] + views[index..])[k] == views[k];
      } else if k > index {
        assert (views[..index] + [v] + views[index..])[k] == views[k - 1];
      }
    }
  }

  lemma MirrorReplace(views: seq<AtomView>, index: int, v: AtomView)
    requires 0 <= index < |views|
    ensures ModelsOf(views[index := v]) == ModelsOf(views)[index := v.model]
  {
    var r := ModelsOf(views[index := v]);
    var t := ModelsOf(views)[index := v.model];
    forall k | 0 <= k < |r|
      ensures r[k] == t[k]
    {
    }
  }

  lemma MirrorRemove(views: seq<AtomView>, index: int)
    requires 0 <= index < |views|
    ensures ModelsOf(views[..index] + views[index + 1..])
      == ModelsOf(views)[..index] + ModelsOf(views)[index + 1..]
  {
    var r := ModelsOf(views[..index] + views[index + 1..]);
    var t := ModelsOf(views)[..index] + ModelsOf(views)[index + 1..];
    forall k | 0 <= k < |r|
      ensures r[k] == t[k]
    {
      if k < index {
        assert (views[..index] + views[index + 1..])[k] == views[k];
      } else {
        assert (views[..index] + views[index + 1..])[k] == views[k + 1];
      }
    }
  }
}

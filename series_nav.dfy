/**
 * The series bar: which position within a series the page is at, and whether
 * its previous and next buttons are usable.
 */
module SeriesNav {
  import opened Wrappers

  /* ---------- a link's disabled state ---------- */

  /** A button link: its attributes and its classes. */
  datatype Link = Link(attrs: map<string, string>, classes: set<string>)

  const AriaDisabled: string := "aria-disabled"
  const TabIndex: string := "tabindex"
  const DisabledClass: string := "is-disabled"

  /** All three marks of a disabled link are present. */
  predicate MarkedDisabled(l: Link) {
    && AriaDisabled in l.attrs && l.attrs[AriaDisabled] == "true"
    && TabIndex in l.attrs && l.attrs[TabIndex] == "-1"
    && DisabledClass in l.classes
  }

  /** None of the three marks is present. */
  predicate Cleared(l: Link) {
    AriaDisabled !in l.attrs && TabIndex !in l.attrs && DisabledClass !in l.classes
  }

  /** What `setDisabled` touches: nothing else of the link changes. */
  predicate SameApartFromMarks(a: Link, b: Link) {
    && a.attrs.Keys - {AriaDisabled, TabIndex} == b.attrs.Keys - {AriaDisabled, TabIndex}
    && (forall k :: k in a.attrs && k in b.attrs && k != AriaDisabled && k != TabIndex ==> a.attrs[k] == b.attrs[k])
    && a.classes - {DisabledClass} == b.classes - {DisabledClass}
  }

  /** `setDisabled(link, disabled)`; a missing link is left missing. */
  function SetDisabled(link: Option<Link>, disabled: bool): (r: Option<Link>)
    ensures link.None? <==> r.None?
    ensures r.Some? && disabled ==> MarkedDisabled(r.value)
    ensures r.Some? && !disabled ==> Cleared(r.value)
    ensures r.Some? ==> SameApartFromMarks(link.value, r.value)
  {
    match link
    case None => None
    case Some(l) =>
      if disabled then Some(Link(l.attrs[AriaDisabled := "true"][TabIndex := "-1"], l.classes + {DisabledClass}))
      else Some(Link(l.attrs - {AriaDisabled, TabIndex}, l.classes - {DisabledClass}))
  }

  /** Setting the same state twice is setting it once. */
  lemma SetDisabledIdempotent(link: Option<Link>, disabled: bool)
    ensures SetDisabled(SetDisabled(link, disabled), disabled) == SetDisabled(link, disabled)
  {
    if link.Some? {
      var l := link.value;
      if disabled {
        var m := l.attrs[AriaDisabled := "true"][TabIndex := "-1"];
        assert m[AriaDisabled := "true"][TabIndex := "-1"] == m;
        assert l.classes + {DisabledClass} + {DisabledClass} == l.classes + {DisabledClass};
      } else {
        assert l.attrs - {AriaDisabled, TabIndex} - {AriaDisabled, TabIndex} == l.attrs - {AriaDisabled, TabIndex};
        assert l.classes - {DisabledClass} - {DisabledClass} == l.classes - {DisabledClass};
      }
    }
  }

  /**
   * Enabling a link that had none of the marks restores its attributes and
   * classes. The click listener that disabling adds is not part of `Link`.
   */
  lemma EnableUndoesDisable(l: Link)
    requires Cleared(l)
    ensures SetDisabled(SetDisabled(Some(l), true), false) == Some(l)
  {
    var d := SetDisabled(Some(l), true).value;
    assert d.attrs - {AriaDisabled, TabIndex} == l.attrs;
    assert d.classes - {DisabledClass} == l.classes;
  }

  /* ---------- the position within the series ---------- */

  datatype Progress = Progress(current: int, total: int)

  /** The index of the first active pill. */
  function FirstActive(pills: seq<bool>): (r: Option<nat>)
    ensures r.Some? ==> r.value < |pills| && pills[r.value]
    ensures r.Some? ==> forall j :: 0 <= j < r.value ==> !pills[j]
    ensures r.None? ==> forall j :: 0 <= j < |pills| ==> !pills[j]
  {
    if |pills| == 0 then None
    else if pills[0] then Some(0)
    else match FirstActive(pills[1..])
      case None => None
      case Some(k) => Some(k + 1)
  }

  /**
   * `inferFromPills(bar)`, given whether each pill of the bar is active, in
   * document order: the first active pill, or the first pill when none is.
   */
  function InferFromPills(pills: seq<bool>): (r: Option<Progress>)
    ensures r.None? <==> |pills| == 0
    ensures r.Some? ==> r.value.total == |pills| && 1 <= r.value.current <= |pills|
    ensures r.Some? ==> forall j :: 0 <= j < r.value.current - 1 ==> !pills[j]
    ensures r.Some? ==> pills[r.value.current - 1] || (r.value.current == 1 && forall j :: 0 <= j < |pills| ==> !pills[j])
  {
    if |pills| == 0 then None
    else
      var idx := match FirstActive(pills) case Some(k) => k case None => 0;
      Some(Progress(idx + 1, |pills|))
  }

  /**
   * The numbers `init` settles on for a bar whose data attributes parsed to
   * `index` and `total` (0 standing for missing or not a number), or None when
   * it leaves the bar's buttons alone.
   */
  function Settle(index: int, total: int, pills: seq<bool>): (r: Option<Progress>)
    ensures index != 0 && total != 0 ==> r == Some(Progress(index, total))
    ensures index == 0 || total == 0 ==> r == InferFromPills(pills)
    ensures r.Some? ==> r.value.current != 0 && r.value.total != 0
  {
    var p :=
      if index == 0 || total == 0 then
        match InferFromPills(pills)
        case Some(q) => q
        case None => Progress(index, total)
      else Progress(index, total);
    if p.current == 0 || p.total == 0 then None else Some(p)
  }

  /* ---------- one bar, and all of them ---------- */

  /** A `.seriesbar`: its parsed attributes, its pills and its two buttons. */
  datatype Bar = Bar(index: int, total: int, pills: seq<bool>, prev: Option<Link>, next: Option<Link>)

  /** The body of `init`'s `forEach` for one bar. */
  function InitBar(b: Bar): (r: Bar)
    ensures r.index == b.index && r.total == b.total && r.pills == b.pills
    ensures Settle(b.index, b.total, b.pills).None? ==> r == b
  {
    match Settle(b.index, b.total, b.pills)
    case None => b
    case Some(p) => b.(prev := SetDisabled(b.prev, p.current <= 1), next := SetDisabled(b.next, p.current >= p.total))
  }

  /**
   * Once the numbers are settled, the previous button is disabled exactly when
   * the page is the first, the next button exactly when it is the last.
   */
  lemma InitBarButtons(b: Bar)
    requires Settle(b.index, b.total, b.pills).Some?
    ensures var p := Settle(b.index, b.total, b.pills).value; var r := InitBar(b);
      && (r.prev.Some? ==> (MarkedDisabled(r.prev.value) <==> p.current <= 1))
      && (r.next.Some? ==> (MarkedDisabled(r.next.value) <==> p.current >= p.total))
      && (r.prev.Some? <==> b.prev.Some?) && (r.next.Some? <==> b.next.Some?)
  {
    var p := Settle(b.index, b.total, b.pills).value;
    var r := InitBar(b);
    if r.prev.Some? && !(p.current <= 1) {
      assert Cleared(r.prev.value);
    }
    if r.next.Some? && !(p.current >= p.total) {
      assert Cleared(r.next.value);
    }
  }

  /** A bar without usable attributes is numbered by its pills: the active pill's neighbours decide. */
  lemma PillsDecide(b: Bar, k: nat)
    requires b.index == 0 && k < |b.pills| && b.pills[k] && forall j :: 0 <= j < k ==> !b.pills[j]
    requires b.prev.Some? && b.next.Some?
    ensures MarkedDisabled(InitBar(b).prev.value) <==> k == 0
    ensures MarkedDisabled(InitBar(b).next.value) <==> k == |b.pills| - 1
  {
    var p := InferFromPills(b.pills).value;
    assert p.current == k + 1;
    InitBarButtons(b);
  }

  /** With no numbers and no pills the bar is left exactly as it was. */
  lemma NoPillsNoChange(b: Bar)
    requires (b.index == 0 || b.total == 0) && |b.pills| == 0
    ensures InitBar(b) == b
  {
  }

  /** `init()` over every `.seriesbar` of the page. */
  method Init(bars: array<Bar>)
    modifies bars
    ensures forall i :: 0 <= i < bars.Length ==> bars[i] == InitBar(old(bars[i]))
  {
    var i := 0;
    while i < bars.Length
      invariant 0 <= i <= bars.Length
      invariant forall j :: 0 <= j < i ==> bars[j] == InitBar(old(bars[j]))
      invariant forall j :: i <= j < bars.Length ==> bars[j] == old(bars[j])
    {
      var bar := bars[i];
      var current := bar.index;
      var total := bar.total;
      if current == 0 || total == 0 {
        var inferred := InferFromPills(bar.pills);
        if inferred.Some? {
          current := inferred.value.current;
          total := inferred.value.total;
        }
      }
      if current != 0 && total != 0 {
        bars[i] := bar.(prev := SetDisabled(bar.prev, current <= 1), next := SetDisabled(bar.next, current >= total));
      }
      i := i + 1;
    }
  }
}

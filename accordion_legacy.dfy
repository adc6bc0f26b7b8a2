/**
 * The earlier accordion: at `DOMContentLoaded` it captures every
 * `details.menu` and gives each a `toggle` listener that, when its menu opens,
 * removes `open` from every other captured menu.
 */
module AccordionLegacy {
  import opened Wrappers

  /** A `details.menu`, with its `data-menu` if it has one (the rule ignores it). */
  datatype Menu = Menu(dataMenu: Option<string>, open: bool)

  /**
   * The menus after the listener of captured menu `k` has run with `k` open:
   * every captured menu other than `k` is closed, the rest are kept.
   */
  function AfterToggle(ms: seq<Menu>, captured: seq<nat>, k: nat): (r: seq<Menu>)
    ensures |r| == |ms|
    ensures forall i :: 0 <= i < |ms| ==> r[i].dataMenu == ms[i].dataMenu
    ensures forall i :: 0 <= i < |ms| && i in captured && i != k ==> !r[i].open
    ensures forall i :: 0 <= i < |ms| && (i !in captured || i == k) ==> r[i] == ms[i]
  {
    seq(|ms|, i requires 0 <= i < |ms| => if i in captured && i != k then ms[i].(open := false) else ms[i])
  }

  /** After an opening toggle, the opened menu is the only open captured menu. */
  lemma {:induction false} OneOpenCaptured(ms: seq<Menu>, captured: seq<nat>, k: nat)
    requires k < |ms| && ms[k].open
    ensures forall i :: 0 <= i < |ms| && i in captured ==> (AfterToggle(ms, captured, k)[i].open <==> i == k)
  {
    var r := AfterToggle(ms, captured, k);
    assert r[k] == ms[k];
  }

  class Page {
    /** Every `details.menu` of the document, in document order. */
    var menus: seq<Menu>
    /** The positions of the menus the listener was given to at load, in order. */
    var captured: seq<nat>

    /** A page whose script has not yet run. */
    constructor (menus0: seq<Menu>)
      ensures menus == menus0 && captured == []
    {
      menus := menus0;
      captured := [];
    }

    /** `DOMContentLoaded`: `Array.from(document.querySelectorAll("details.menu"))`. */
    method Capture()
      modifies this
      ensures menus == old(menus)
      ensures |captured| == |menus| && forall j :: 0 <= j < |captured| ==> captured[j] == j
    {
      var n := |menus|;
      captured := seq(n, j requires 0 <= j < n => j);
    }

    /**
     * The `toggle` listener of the `c`-th captured menu. A listener that does
     * not exist, or a toggle that left its menu closed, changes nothing.
     */
    method OnToggle(c: nat)
      modifies this
      ensures captured == old(captured)
      ensures var acts := c < |captured| && captured[c] < |old(menus)| && old(menus)[captured[c]].open;
        menus == if acts then AfterToggle(old(menus), captured, captured[c])
                 else old(menus)
    {
      if c >= |captured| || captured[c] >= |menus| || !menus[captured[c]].open {
        return;
      }
      var menu := captured[c];
      var t := 0;
      while t < |captured|
        invariant 0 <= t <= |captured|
        invariant captured == old(captured) && |menus| == |old(menus)|
        invariant forall i :: 0 <= i < |menus| ==>
          menus[i] == if i in captured[..t] && i != menu then old(menus)[i].(open := false) else old(menus)[i]
      {
        var other := captured[t];
        if other != menu && other < |menus| {
          menus := menus[other := menus[other].(open := false)];
        }
        assert captured[..t + 1] == captured[..t] + [other];
        t := t + 1;
      }
      assert captured[..t] == captured;
      assert menus == AfterToggle(old(menus), captured, menu);
    }
  }
}

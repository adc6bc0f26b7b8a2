/**
 * The sidebar accordion: which `details.menu[data-menu]` is opened when a page
 * loads, the one-open-menu rule, the remembered menu in local storage, and
 * the guard that stops a link to the page already shown from navigating.
 */
module Accordion {
  import opened Wrappers
  import opened Text

  /** The local-storage key under which the last opened menu is remembered. */
  const Key: string := "nav.activeMenu"

  /** `normPath(p)`: a missing path is empty; one trailing `/` is dropped. */
  function NormPath(p: Option<string>): (r: string)
    ensures p.None? ==> r == ""
    ensures p.Some? ==> (r == p.value || r + "/" == p.value)
    ensures p.Some? && EndsWith(p.value, "/") ==> |r| == |p.value| - 1
    ensures p.Some? && !EndsWith(p.value, "/") ==> r == p.value
  {
    match p
    case None => ""
    case Some(s) => if EndsWith(s, "/") then s[..|s| - 1] else s
  }

  /** Only one slash goes: `a//` becomes `a/`, not `a`. */
  lemma NormPathDropsOneSlash()
    ensures NormPath(Some("a//")) == "a/"
    ensures NormPath(Some(NormPath(Some("a//")))) == "a"
  {
    assert EndsWith("a//", "/");
    assert EndsWith("a/", "/");
  }

  /** A path and the same path with one trailing slash read as the same page. */
  lemma TrailingSlashIgnored(p: string)
    requires !EndsWith(p, "/")
    ensures NormPath(Some(p + "/")) == NormPath(Some(p)) == p
  {
    assert EndsWith(p + "/", "/");
    assert (p + "/")[..|p|] == p;
  }

  /* ---------- the menus ---------- */

  /**
   * A `details.menu[data-menu]`: its `data-menu` name, whether it is open, and
   * the path of every `.submenu a[href]` inside it, in document order (the
   * `pathname` its `href` resolves to).
   */
  datatype Menu = Menu(name: string, open: bool, linkPaths: seq<string>)

  /** The handlers `installOnce` and the script itself register. */
  datatype Handler = ToggleCapture | SaveMenuOnPointerDown | GuardPointerDown | GuardClick
                   | RestoreOnContentLoaded | RestoreOnPageShow

  /** The four document listeners guarded by the window flag. */
  const Installed: seq<Handler> := [ToggleCapture, SaveMenuOnPointerDown, GuardPointerDown, GuardClick]

  /**
   * The page as the script sees it: its menus, local storage, whether the root
   * element still carries `nav-preload`, the window flag, and the listeners.
   */
  datatype PageState = PageState(menus: seq<Menu>, storage: map<string, string>, preload: bool,
                                 installed: bool, handlers: seq<Handler>)

  /** `closeOthers(menus, openMenu)`, `openMenu` given by its position (any other value closes all). */
  function ClosedOthers(ms: seq<Menu>, k: nat): (r: seq<Menu>)
    ensures |r| == |ms|
    ensures forall i :: 0 <= i < |ms| ==> r[i].name == ms[i].name && r[i].linkPaths == ms[i].linkPaths
    ensures forall i :: 0 <= i < |ms| && i != k ==> !r[i].open
    ensures k < |ms| ==> r[k] == ms[k]
  {
    seq(|ms|, i requires 0 <= i < |ms| => if i != k && ms[i].open then ms[i].(open := false) else ms[i])
  }

  /** Closing the others a second time changes nothing. */
  lemma ClosedOthersIdempotent(ms: seq<Menu>, k: nat)
    ensures ClosedOthers(ClosedOthers(ms, k), k) == ClosedOthers(ms, k)
  {
    var once := ClosedOthers(ms, k);
    var twice := ClosedOthers(once, k);
    forall i | 0 <= i < |ms|
      ensures twice[i] == once[i]
    {
      if i != k {
        assert !once[i].open;
      }
    }
  }

  /** Some submenu link of `m` normalises to `current`. */
  predicate HasLink(m: Menu, current: string) {
    exists t | 0 <= t < |m.linkPaths| :: NormPath(Some(m.linkPaths[t])) == current
  }

  /** The first menu at or after `i` holding a link to `current`. */
  function FirstMatchFrom(ms: seq<Menu>, current: string, i: nat): (r: Option<nat>)
    ensures r.Some? ==> i <= r.value < |ms| && HasLink(ms[r.value], current)
    ensures r.Some? ==> forall j :: i <= j < r.value ==> !HasLink(ms[j], current)
    ensures r.None? ==> forall j :: i <= j < |ms| ==> !HasLink(ms[j], current)
    decreases |ms| - i
  {
    if i >= |ms| then None
    else if HasLink(ms[i], current) then Some(i)
    else FirstMatchFrom(ms, current, i + 1)
  }

  /** The first menu named `name` at or after `i`. */
  function FirstNamedFrom(ms: seq<Menu>, name: string, i: nat): (r: Option<nat>)
    ensures r.Some? ==> i <= r.value < |ms| && ms[r.value].name == name
    ensures r.Some? ==> forall j :: i <= j < r.value ==> ms[j].name != name
    ensures r.None? ==> forall j :: i <= j < |ms| ==> ms[j].name != name
    decreases |ms| - i
  {
    if i >= |ms| then None
    else if ms[i].name == name then Some(i)
    else FirstNamedFrom(ms, name, i + 1)
  }

  /** `localStorage.getItem(KEY)`. */
  function Saved(storage: map<string, string>): (r: Option<string>)
    ensures r.Some? <==> Key in storage
    ensures r.Some? ==> r.value == storage[Key]
  {
    if Key in storage then Some(storage[Key]) else None
  }

  /**
   * The menu `restoreOpenState` opens: the first whose submenu links to the
   * current page, else the first named as the saved value when one is saved
   * and non-empty, else none.
   */
  function Choose(ms: seq<Menu>, current: string, saved: Option<string>): (r: Option<nat>)
    ensures r.Some? ==> r.value < |ms|
    ensures (exists i | 0 <= i < |ms| :: HasLink(ms[i], current)) ==>
      r.Some? && HasLink(ms[r.value], current) && forall j :: 0 <= j < r.value ==> !HasLink(ms[j], current)
    ensures (forall i | 0 <= i < |ms| :: !HasLink(ms[i], current)) && saved.Some? && saved.value != "" ==>
      (r.Some? <==> exists i | 0 <= i < |ms| :: ms[i].name == saved.value)
    ensures (forall i | 0 <= i < |ms| :: !HasLink(ms[i], current)) && saved.Some? && saved.value != "" && r.Some? ==>
      ms[r.value].name == saved.value && forall j :: 0 <= j < r.value ==> ms[j].name != saved.value
    ensures (forall i | 0 <= i < |ms| :: !HasLink(ms[i], current)) && (saved.None? || saved.value == "") ==> r.None?
  {
    var matched := FirstMatchFrom(ms, current, 0);
    if matched.Some? then matched
    else if saved.Some? && saved.value != "" then FirstNamedFrom(ms, saved.value, 0)
    else None
  }

  /** The menus after `restoreOpenState` on a page at `pathname`. */
  function Restored(ms: seq<Menu>, storage: map<string, string>, pathname: string): (r: seq<Menu>)
    ensures |r| == |ms|
  {
    if |ms| == 0 then ms
    else match Choose(ms, NormPath(Some(pathname)), Saved(storage))
      case None => ms
      case Some(k) => ClosedOthers(ms[k := ms[k].(open := true)], k)
  }

  /** When a menu is chosen it is the one open menu afterwards; names and links are kept. */
  lemma RestoreOpensChosen(ms: seq<Menu>, storage: map<string, string>, pathname: string, k: nat)
    requires Choose(ms, NormPath(Some(pathname)), Saved(storage)) == Some(k)
    ensures var r := Restored(ms, storage, pathname);
      && (forall i :: 0 <= i < |r| ==> (r[i].open <==> i == k))
      && (forall i :: 0 <= i < |r| ==> r[i].name == ms[i].name && r[i].linkPaths == ms[i].linkPaths)
  {
    var withOpen := ms[k := ms[k].(open := true)];
    assert forall i :: 0 <= i < |ms| ==> withOpen[i].name == ms[i].name && withOpen[i].linkPaths == ms[i].linkPaths;
  }

  /** When no menu is chosen no menu changes. */
  lemma RestoreWithoutChoice(ms: seq<Menu>, storage: map<string, string>, pathname: string)
    requires Choose(ms, NormPath(Some(pathname)), Saved(storage)).None?
    ensures Restored(ms, storage, pathname) == ms
  {
  }

  /** The page the current path belongs to wins over the remembered menu. */
  lemma CurrentPageBeatsSaved(ms: seq<Menu>, storage: map<string, string>, pathname: string, i: nat)
    requires i < |ms| && HasLink(ms[i], NormPath(Some(pathname)))
    requires forall j :: 0 <= j < i ==> !HasLink(ms[j], NormPath(Some(pathname)))
    ensures Restored(ms, storage, pathname)[i].open
    ensures forall j :: 0 <= j < |ms| && j != i ==> !Restored(ms, storage, pathname)[j].open
  {
    var c := Choose(ms, NormPath(Some(pathname)), Saved(storage));
    assert c == Some(i);
    RestoreOpensChosen(ms, storage, pathname, i);
  }

  /* ---------- the same-page link guard ---------- */

  /** What `new URL(href, location.origin)` (or `location`) yields. */
  datatype Url = Url(origin: string, pathname: string, search: string, hash: string)

  /** The closest `a[href]:not([aria-disabled="true"])`: its `target`, its `href` and its resolved URL. */
  datatype Anchor = Anchor(target: string, href: string, url: Url)

  datatype Modifiers = Modifiers(meta: bool, ctrl: bool, shift: bool, alt: bool)

  /** The guard prevents the default action exactly when every condition holds. */
  predicate SamePageGuard(a: Option<Anchor>, mods: Modifiers, location: Url) {
    && a.Some?
    && a.value.target != "_blank"
    && !(mods.meta || mods.ctrl || mods.shift || mods.alt)
    && a.value.href != ""
    && !StartsWith(a.value.href, "#")
    && !StartsWith(a.value.href, "mailto:")
    && !StartsWith(a.value.href, "tel:")
    && a.value.url.origin == location.origin
    && NormPath(Some(a.value.url.pathname)) == NormPath(Some(location.pathname))
    && a.value.url.search == location.search
    && (a.value.url.hash == "" || a.value.url.hash == location.hash)
  }

  /** The `pointerdown` and `click` guards: whether `e.preventDefault()` is called. */
  method PreventsDefault(a: Option<Anchor>, mods: Modifiers, location: Url) returns (prevent: bool)
    ensures prevent <==> SamePageGuard(a, mods, location)
  {
    prevent := false;
    if a.None? {
      return;
    }
    var anchor := a.value;
    if anchor.target == "_blank" {
      return;
    }
    if mods.meta || mods.ctrl || mods.shift || mods.alt {
      return;
    }
    var href := anchor.href;
    if href == "" || StartsWith(href, "#") || StartsWith(href, "mailto:") || StartsWith(href, "tel:") {
      return;
    }
    var url := anchor.url;
    if url.origin != location.origin {
      return;
    }
    var linkPath := NormPath(Some(url.pathname));
    var currentPath := NormPath(Some(location.pathname));
    if linkPath == currentPath && url.search == location.search {
      if url.hash != "" && url.hash != location.hash {
        return;
      }
      prevent := true;
    }
  }

  /** A link to another section of the same page is followed. */
  lemma OtherHashNavigates(a: Anchor, mods: Modifiers, location: Url)
    requires a.url.hash != "" && a.url.hash != location.hash
    ensures !SamePageGuard(Some(a), mods, location)
  {
  }

  /**
   * A plain press on a link to the page already shown, written with or without
   * its trailing slash, is stopped.
   */
  lemma PlainLinkToSelfIsStopped(p: string, location: Url)
    requires |p| > 0 && p[0] == '/' && !EndsWith(p, "/") && location.pathname == p
    ensures SamePageGuard(Some(Anchor("", p + "/", Url(location.origin, p + "/", location.search, ""))),
                          Modifiers(false, false, false, false), location)
  {
    TrailingSlashIgnored(p);
    var href := p + "/";
    assert href[0] == '/';
    assert !StartsWith(href, "#") && !StartsWith(href, "mailto:") && !StartsWith(href, "tel:") by {
      assert href[..1][0] == '/';
    }
  }

  /* ---------- the page ---------- */

  class Page {
    var menus: seq<Menu>
    var storage: map<string, string>
    var preload: bool
    var installed: bool
    var handlers: seq<Handler>

    function State(): PageState
      reads this
    {
      PageState(menus, storage, preload, installed, handlers)
    }

    /** A page with these menus and this storage, before the script runs. */
    constructor (menus0: seq<Menu>, storage0: map<string, string>)
      ensures State() == PageState(menus0, storage0, true, false, [])
    {
      menus := menus0;
      storage := storage0;
      preload := true;
      installed := false;
      handlers := [];
    }

    /** `closeOthers(getMenus(), menus[k])`. */
    method CloseOthers(k: nat)
      modifies this
      ensures State() == old(State()).(menus := ClosedOthers(old(menus), k))
    {
      var i := 0;
      while i < |menus|
        invariant 0 <= i <= |menus| == |old(menus)|
        invariant forall j :: 0 <= j < i ==> menus[j] == ClosedOthers(old(menus), k)[j]
        invariant forall j :: i <= j < |menus| ==> menus[j] == old(menus)[j]
        invariant storage == old(storage) && preload == old(preload)
        invariant installed == old(installed) && handlers == old(handlers)
      {
        if i != k && menus[i].open {
          menus := menus[i := menus[i].(open := false)];
        }
        i := i + 1;
      }
      assert menus == ClosedOthers(old(menus), k);
    }

    /** The nested search of `restoreOpenState` for the menu linking to `current`. */
    method FindMatched(current: string) returns (matched: Option<nat>)
      ensures matched == FirstMatchFrom(menus, current, 0)
    {
      matched := None;
      var i := 0;
      while i < |menus|
        invariant 0 <= i <= |menus|
        invariant matched.None?
        invariant FirstMatchFrom(menus, current, i) == FirstMatchFrom(menus, current, 0)
      {
        var links := menus[i].linkPaths;
        var j := 0;
        while j < |links|
          invariant 0 <= j <= |links|
          invariant matched.None?
          invariant forall t :: 0 <= t < j ==> NormPath(Some(links[t])) != current
        {
          if NormPath(Some(links[j])) == current {
            matched := Some(i);
            break;
          }
          j := j + 1;
        }
        if matched.Some? {
          assert HasLink(menus[i], current);
          break;
        }
        i := i + 1;
      }
    }

    /** `restoreOpenState()`, on a page at `pathname`. */
    method RestoreOpenState(pathname: string)
      modifies this
      ensures State() == old(State()).(menus := Restored(old(menus), old(storage), pathname),
                                       preload := if |old(menus)| == 0 then false else old(preload))
    {
      if |menus| == 0 {
        preload := false;
        return;
      }
      var currentPath := NormPath(Some(pathname));
      var matched := FindMatched(currentPath);
      var saved := Saved(storage);
      var fallback := if saved.Some? && saved.value != "" then FirstNamedFrom(menus, saved.value, 0) else None;
      var toOpen := if matched.Some? then matched else fallback;
      if toOpen.Some? {
        var k := toOpen.value;
        menus := menus[k := menus[k].(open := true)];
        CloseOthers(k);
      }
    }

    /** The capturing `toggle` listener; `target` is the toggled menu's position, if it is a menu. */
    method OnToggle(target: Option<nat>)
      modifies this
      ensures var acts := target.Some? && target.value < |old(menus)| && old(menus)[target.value].open;
        State() == if acts
                   then old(State()).(menus := ClosedOthers(old(menus), target.value),
                                      storage := old(storage)[Key := old(menus)[target.value].name])
                   else old(State())
    {
      if target.None? || target.value >= |menus| || !menus[target.value].open {
        return;
      }
      var name := menus[target.value].name;
      CloseOthers(target.value);
      storage := storage[Key := name];
    }

    /** The first `pointerdown` listener: a press on a submenu link of menu `menu` remembers it. */
    method OnSubmenuPointerDown(menu: Option<nat>)
      modifies this
      ensures var acts := menu.Some? && menu.value < |old(menus)|;
        State() == if acts then old(State()).(storage := old(storage)[Key := old(menus)[menu.value].name])
                   else old(State())
    {
      if menu.None? || menu.value >= |menus| {
        return;
      }
      storage := storage[Key := menus[menu.value].name];
    }

    /** `installOnce()`: the four listeners are added only when the window flag is not yet set. */
    method InstallOnce()
      modifies this
      ensures State() == InstallAll(old(State()))
    {
      if installed {
        return;
      }
      installed := true;
      handlers := handlers + Installed;
    }

    /** The script body: `installOnce()`, then the `DOMContentLoaded` and `pageshow` listeners. */
    method Load()
      modifies this
      ensures State() == AfterLoad(old(State()))
    {
      InstallOnce();
      handlers := handlers + [RestoreOnContentLoaded, RestoreOnPageShow];
    }
  }

  /** The state after `installOnce`. */
  function InstallAll(s: PageState): (r: PageState)
    ensures r.installed
    ensures r.menus == s.menus && r.storage == s.storage && r.preload == s.preload
    ensures s.installed ==> r == s
    ensures !s.installed ==> r.handlers == s.handlers + Installed
  {
    if s.installed then s else s.(installed := true, handlers := s.handlers + Installed)
  }

  /** The state after the script has run once. */
  function AfterLoad(s: PageState): (r: PageState)
    ensures r.installed
    ensures r.menus == s.menus && r.storage == s.storage && r.preload == s.preload
  {
    var t := InstallAll(s);
    t.(handlers := t.handlers + [RestoreOnContentLoaded, RestoreOnPageShow])
  }

  /** However often the script runs, each guarded listener is registered once. */
  lemma {:induction false} LoadTwiceInstallsOnce(s: PageState, h: Handler)
    requires !s.installed && h !in s.handlers && h in Installed
    ensures multiset(AfterLoad(AfterLoad(s)).handlers)[h] == 1
  {
    var once := AfterLoad(s);
    var twice := AfterLoad(once);
    assert once.handlers == s.handlers + Installed + [RestoreOnContentLoaded, RestoreOnPageShow];
    assert twice.handlers == once.handlers + [RestoreOnContentLoaded, RestoreOnPageShow];
    assert multiset(Installed)[h] == 1;
  }
}

/**
 * The application store: two state fields and three actions, each handing the store's
 * `set` a partial state that is merged into the current one.
 */
module AppStore {
  import opened Wrappers

  datatype AppState = AppState(isMenuOpen: bool, fontSize: int)

  /** A partial state: the fields an action passes to `set`. */
  datatype Patch = Patch(isMenuOpen: Option<bool>, fontSize: Option<int>)

  /** The initial state. */
  const Initial := AppState(false, 16)

  /** `set(partial)`: the fields present in the patch replace the current ones; the others stay. */
  function Merge(s: AppState, p: Patch): (r: AppState)
    ensures p.isMenuOpen.None? ==> r.isMenuOpen == s.isMenuOpen
    ensures p.fontSize.None? ==> r.fontSize == s.fontSize
    ensures p.isMenuOpen.Some? ==> r.isMenuOpen == p.isMenuOpen.value
    ensures p.fontSize.Some? ==> r.fontSize == p.fontSize.value
  {
    AppState(p.isMenuOpen.GetOr(s.isMenuOpen), p.fontSize.GetOr(s.fontSize))
  }

  /** `setMenuOpen(open)` passes `{ isMenuOpen: open }`. */
  function MenuOpenPatch(open: bool): (p: Patch)
    ensures forall s :: Merge(s, p) == AppState(open, s.fontSize)
  {
    Patch(Some(open), None)
  }

  /** `toggleMenu` passes `state => ({ isMenuOpen: !state.isMenuOpen })`, evaluated on the current state. */
  function TogglePatch(s: AppState): (p: Patch)
    ensures Merge(s, p) == AppState(!s.isMenuOpen, s.fontSize)
  {
    Patch(Some(!s.isMenuOpen), None)
  }

  /** `setFontSize(size)` passes `{ fontSize: size }`. */
  function FontSizePatch(size: int): (p: Patch)
    ensures forall s :: Merge(s, p) == AppState(s.isMenuOpen, size)
  {
    Patch(None, Some(size))
  }

  /** `setMenuOpen(b)` sets the flag, keeps the font size, and repeating it changes nothing. */
  lemma SetMenuOpenFacts(s: AppState, open: bool)
    ensures Merge(s, MenuOpenPatch(open)) == AppState(open, s.fontSize)
    ensures Merge(Merge(s, MenuOpenPatch(open)), MenuOpenPatch(open)) == Merge(s, MenuOpenPatch(open))
  {
  }

  /** `toggleMenu` negates the flag and keeps the font size; toggling twice is the identity. */
  lemma ToggleMenuFacts(s: AppState)
    ensures Merge(s, TogglePatch(s)) == AppState(!s.isMenuOpen, s.fontSize)
    ensures var t := Merge(s, TogglePatch(s)); Merge(t, TogglePatch(t)) == s
  {
  }

  /** `setFontSize(size)` sets the size and keeps the flag. */
  lemma SetFontSizeFacts(s: AppState, size: int)
    ensures Merge(s, FontSizePatch(size)) == AppState(s.isMenuOpen, size)
  {
  }

  /** The store object: its two fields are overwritten by `set`. */
  class Store {
    var isMenuOpen: bool
    var fontSize: int

    function State(): AppState
      reads this
    {
      AppState(isMenuOpen, fontSize)
    }

    constructor ()
      ensures State() == Initial
    {
      isMenuOpen := false;
      fontSize := 16;
    }

    /** The store's `set`. */
    method Set(p: Patch)
      modifies this
      ensures State() == Merge(old(State()), p)
    {
      isMenuOpen := p.isMenuOpen.GetOr(isMenuOpen);
      fontSize := p.fontSize.GetOr(fontSize);
    }

    method SetMenuOpen(open: bool)
      modifies this
      ensures isMenuOpen == open && fontSize == old(fontSize)
    {
      Set(MenuOpenPatch(open));
    }

    method ToggleMenu()
      modifies this
      ensures isMenuOpen == !old(isMenuOpen) && fontSize == old(fontSize)
    {
      Set(TogglePatch(State()));
    }

    method SetFontSize(size: int)
      modifies this
      ensures fontSize == size && isMenuOpen == old(isMenuOpen)
    {
      Set(FontSizePatch(size));
    }
  }
}

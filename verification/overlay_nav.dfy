/**
 * The overlay's navigation (`OverlayWindow` in lib/overlay.py): a paged ring
 * of ten profiles per category, and for an opened profile a paged grid of
 * sixteen mods in rows of four. Painting, geometry and the rotation angle are
 * left out; what remains is a record of indices and the operations that move
 * them.
 */
module OverlayNav {
  import opened Wrappers
  import opened Arith

  const ProfilesPerPage := 10
  const ModsPerPage := 16
  const Columns := 4

  // ------------------------------------------------------------------ paging

  /** `math.ceil(n / per) if n else 1`: the number of pages for `n` entries. */
  function PageCount(n: nat, per: nat): (r: nat)
    requires per > 0
    ensures r >= 1
    ensures n > 0 ==> (r - 1) * per < n <= r * per
    ensures n == 0 ==> r == 1
  {
    if n == 0 then 1
    else
      var q := (n + per - 1) / per;
      assert (n + per - 1) == q * per + (n + per - 1) % per;
      q
  }

  /** `max(0, min(p, total - 1))`. */
  function Clamp(p: int, total: int): int {
    if p > total - 1 then (if total - 1 < 0 then 0 else total - 1)
    else if p < 0 then 0
    else p
  }

  /** An entry of a page: a real entry, or the `{'type': 'empty'}` padding. */
  datatype Slot<T> = Item(value: T) | Empty

  /** The real entries among the slots of a page. */
  function Filled<T>(v: seq<Slot<T>>): nat {
    if |v| == 0 then 0 else (if v[0].Item? then 1 else 0) + Filled(v[1..])
  }

  function Items<T>(c: seq<T>): (r: seq<Slot<T>>)
    ensures |r| == |c|
    ensures forall i :: 0 <= i < |c| ==> r[i] == Item(c[i])
  {
    seq(|c|, i requires 0 <= i < |c| => Item(c[i]))
  }

  function Pad<T>(k: nat): (r: seq<Slot<T>>)
    ensures |r| == k
    ensures forall i :: 0 <= i < k ==> r[i] == Empty
  {
    seq(k, _ => Empty)
  }

  /** The number of real entries on the page that starts at index `start`. */
  function OnPage(n: nat, start: nat, per: nat): nat {
    if start >= n then 0 else if n - start < per then n - start else per
  }

  /** `items[start:start + per]` padded with empty entries to `per` slots. */
  function Window<T>(items: seq<T>, start: nat, per: nat): (r: seq<Slot<T>>)
    ensures |r| == per
    ensures forall i :: 0 <= i < per ==> r[i] == if start + i < |items| then Item(items[start + i]) else Empty
  {
    var k := OnPage(|items|, start, per);
    var chunk := if start >= |items| then [] else items[start .. start + k];
    Items(chunk) + Pad(per - |chunk|)
  }

  /** Page `page` of the list, `per` slots from index `page * per` on. */
  function PageView<T>(items: seq<T>, page: nat, per: nat): (r: seq<Slot<T>>)
    ensures |r| == per
    ensures forall i :: 0 <= i < per ==>
      r[i] == if page * per + i < |items| then Item(items[page * per + i]) else Empty
  {
    Window(items, page * per, per)
  }

  lemma {:induction false} FilledConcat<T>(a: seq<Slot<T>>, b: seq<Slot<T>>)
    ensures Filled(a + b) == Filled(a) + Filled(b)
  {
    if |a| > 0 {
      assert (a + b)[1..] == a[1..] + b;
      FilledConcat(a[1..], b);
    } else {
      assert a + b == b;
    }
  }

  lemma {:induction false} FilledItems<T>(c: seq<T>)
    ensures Filled(Items(c)) == |c|
  {
    if |c| > 0 {
      assert Items(c)[1..] == Items(c[1..]);
      FilledItems(c[1..]);
    }
  }

  lemma {:induction false} FilledPad<T>(k: nat)
    ensures Filled(Pad<T>(k)) == 0
  {
    if k > 0 {
      assert Pad<T>(k)[1..] == Pad<T>(k - 1);
      FilledPad<T>(k - 1);
    }
  }

  /** A page holds as many real entries as remain from its first index on,
      up to a full page; the rest is padding. */
  lemma {:induction false} PageViewFilled<T>(items: seq<T>, page: nat, per: nat)
    ensures Filled(PageView(items, page, per)) == OnPage(|items|, page * per, per)
  {
    WindowFilled(items, page * per, per);
  }

  lemma {:induction false} WindowFilled<T>(items: seq<T>, start: nat, per: nat)
    ensures Filled(Window(items, start, per)) == OnPage(|items|, start, per)
  {
    var k := OnPage(|items|, start, per);
    var chunk := if start >= |items| then [] else items[start .. start + k];
    FilledConcat(Items(chunk), Pad<T>(per - |chunk|));
    FilledItems(chunk);
    FilledPad<T>(per - |chunk|);
  }

  // ---------------------------------------------------------------- profiles

  /** A mod-list profile: a managed profile records the path of its active mod
      (`None` for none) and its mods' paths; any other profile carries each
      mod's `active` flag as the data manager stores it. */
  datatype Profile = Managed(activeMod: Option<string>, paths: seq<string>) | Unmanaged(active: seq<bool>)

  datatype ProfileInfo = ProfileInfo(name: string, kind: Profile)

  datatype ViewMode = Profiles | Mods

  /** The overlay's navigation state. `cats[i]` is the profile list under the
      `i`-th category name; `mods` holds one flag per entry of the opened
      profile's mod list, true where that entry is the active one. */
  datatype Nav = Nav(
    visible: bool,
    mode: ViewMode,
    cats: seq<seq<ProfileInfo>>,
    category: int,
    page: int,
    pages: int,
    selected: int,
    chosen: Option<ProfileInfo>,
    mods: seq<bool>,
    modPage: int,
    modPages: int,
    selectedMod: int)

  /** The ten slots of the current profile page. */
  function ProfilesView(s: Nav): seq<Slot<ProfileInfo>>
    requires 0 <= s.category < |s.cats| && s.page >= 0
  {
    PageView(s.cats[s.category], s.page, ProfilesPerPage)
  }

  /** `prepare_mods_view`: the sixteen slots of the current mod page. */
  function ModsView(s: Nav): seq<Slot<bool>>
    requires s.modPage >= 0
  {
    PageView(s.mods, s.modPage, ModsPerPage)
  }

  /** The real mods on the current mod page, as `handle_dpad_*` count them. */
  function ModsOnPage(s: Nav): nat
    requires s.modPage >= 0
  {
    Filled(ModsView(s))
  }

  /** The states the overlay moves between: every index in range, the page
      counts matching the data, and in mods mode an opened profile whose
      selected entry is a real mod (when it has any). */
  predicate Valid(s: Nav) {
    && 0 <= s.category < |s.cats|
    && s.pages == PageCount(|s.cats[s.category]|, ProfilesPerPage)
    && 0 <= s.page < s.pages
    && 0 <= s.selected < ProfilesPerPage
    && s.modPages == PageCount(|s.mods|, ModsPerPage)
    && 0 <= s.modPage < s.modPages
    && 0 <= s.selectedMod < ModsPerPage
    && (s.mode.Mods? ==> s.chosen.Some? && (|s.mods| == 0 || s.selectedMod < ModsOnPage(s)))
  }

  /** `__init__` followed by `_update_display_data`: the window starts hidden,
      in profiles mode, on the first slot of the first page of the first
      category, with no profile opened. The mod page count, which the source
      leaves at 0 until a profile is opened and reads only in mods mode, is
      that of the empty mod list. */
  function Initial(cats: seq<seq<ProfileInfo>>): (r: Nav)
    requires |cats| > 0
    ensures Valid(r)
    ensures !r.visible && r.mode.Profiles? && r.cats == cats && r.chosen.None?
    ensures r.category == 0 && r.page == 0 && r.selected == 0 && r.mods == []
    ensures r.pages == PageCount(|cats[0]|, ProfilesPerPage)
  {
    UpdateDisplay(Nav(false, Profiles, cats, 0, 0, 0, 0, None, [], 0, PageCount(0, ModsPerPage), 0))
  }

  /** `_update_display_data`: recount the pages of the current category, clamp
      the page, and select the first slot. */
  function UpdateDisplay(s: Nav): (r: Nav)
    requires 0 <= s.category < |s.cats|
    ensures r.pages == PageCount(|s.cats[s.category]|, ProfilesPerPage)
    ensures 0 <= r.page < r.pages && r.selected == 0
    ensures 0 <= s.page < r.pages ==> r.page == s.page
    ensures r == s.(pages := r.pages, page := r.page, selected := 0)
  {
    var pages := PageCount(|s.cats[s.category]|, ProfilesPerPage);
    s.(pages := pages, page := Clamp(s.page, pages), selected := 0)
  }

  /** `change_category`: in profiles mode, move to the neighbouring category
      (wrapping) and show its first page. */
  function ChangeCategory(s: Nav, direction: int): (r: Nav)
    requires Valid(s)
    ensures Valid(r)
    ensures s.mode.Mods? ==> r == s
    ensures s.mode.Profiles? ==> r.category == (s.category + direction) % |s.cats| && r.page == 0 && r.selected == 0
    ensures r.mods == s.mods && r.mode == s.mode && r.cats == s.cats
  {
    if s.mode != Profiles || |s.cats| == 0 then s
    else
      var n := |s.cats|;
      ModShift(s.category + direction, 1, n);
      UpdateDisplay(s.(category := (s.category + direction + n) % n, page := 0))
  }

  /** `change_page`: with more than one page, move to the neighbouring page
      (wrapping) and select its first slot. */
  function ChangePage(s: Nav, direction: int): (r: Nav)
    requires Valid(s)
    ensures Valid(r)
    ensures s.pages <= 1 ==> r == s
    ensures s.pages > 1 ==> r.page == (s.page + direction) % s.pages && r.selected == 0
    ensures r.category == s.category && r.mods == s.mods && r.mode == s.mode
  {
    if s.pages <= 1 then s
    else
      ModShift(s.page + direction, 1, s.pages);
      UpdateDisplay(s.(page := (s.page + direction + s.pages) % s.pages))
  }

  /** `rotate_selection`: move the selection around the ring of ten slots. */
  function Rotate(s: Nav, direction: int): (r: Nav)
    requires Valid(s)
    ensures Valid(r)
    ensures r.selected == (s.selected + direction) % ProfilesPerPage
    ensures r == s.(selected := r.selected)
  {
    ModShift(s.selected + direction, 1, ProfilesPerPage);
    s.(selected := (s.selected + direction + ProfilesPerPage) % ProfilesPerPage)
  }

  /** `change_mod_page`: with more than one mod page, move to the neighbouring
      page (wrapping) and select its first mod. */
  function ChangeModPage(s: Nav, direction: int): (r: Nav)
    requires Valid(s)
    ensures Valid(r)
    ensures s.modPages <= 1 ==> r == s
    ensures s.modPages > 1 ==> r.modPage == (s.modPage + direction) % s.modPages && r.selectedMod == 0
    ensures r == s.(modPage := r.modPage, selectedMod := r.selectedMod)
  {
    if s.modPages <= 1 then s
    else
      ModShift(s.modPage + direction, 1, s.modPages);
      var r := s.(modPage := (s.modPage + direction + s.modPages) % s.modPages, selectedMod := 0);
      ModsOnPageIn(r);
      r
  }

  /** Every mod page before the last is full, and the last holds at least one
      mod. */
  lemma {:induction false} ModsOnPageIn(s: Nav)
    requires s.modPages == PageCount(|s.mods|, ModsPerPage) && 0 <= s.modPage < s.modPages
    ensures |s.mods| > 0 ==> ModsOnPage(s) >= 1
  {
    PageViewFilled(s.mods, s.modPage, ModsPerPage);
  }

  // --------------------------------------------------------------- the d-pad

  /** `handle_dpad_y`: in profiles mode turn the page; in mods mode move one
      row of four up or down, when the target is a real mod of the page. */
  function DpadY(s: Nav, value: int): (r: Nav)
    requires Valid(s)
  {
    if !s.visible || value == 0 then s
    else if s.mode.Profiles? then ChangePage(s, value)
    else
      var n := ModsOnPage(s);
      var target := s.selectedMod + value * Columns;
      if n == 0 then s
      else if 0 <= target < n then s.(selectedMod := target)
      else s
  }

  /** `handle_dpad_x`: in profiles mode rotate the selection; in mods mode move
      within the current row of four, when the target is a real mod. */
  function DpadX(s: Nav, value: int): (r: Nav)
    requires Valid(s)
  {
    if !s.visible || value == 0 then s
    else if s.mode.Profiles? then Rotate(s, value)
    else
      var n := ModsOnPage(s);
      var target := s.selectedMod + value;
      if n == 0 then s
      else if target / Columns == s.selectedMod / Columns && 0 <= target < n then s.(selectedMod := target)
      else s
  }

  /** In the mods grid a vertical move keeps the column and lands on a real
      mod of the page, or does nothing; a move that applied is undone by the
      opposite move. */
  lemma {:induction false} GridMoveY(s: Nav, value: int)
    requires Valid(s) && s.visible && s.mode.Mods? && value != 0
    ensures var r := DpadY(s, value);
      && Valid(r)
      && r.selectedMod % Columns == s.selectedMod % Columns
      && (r == s || (r.selectedMod < ModsOnPage(s) && r == s.(selectedMod := s.selectedMod + value * Columns)))
      && (r != s ==> DpadY(r, -value) == s)
  {
    PageViewFilled(s.mods, s.modPage, ModsPerPage);
    if DpadY(s, value) != s {
      ModShift(s.selectedMod, value, Columns);
    }
  }

  /** A horizontal move keeps the row of four and lands on a real mod of the
      page, or does nothing; a move that applied is undone by the opposite
      move. */
  lemma {:induction false} GridMoveX(s: Nav, value: int)
    requires Valid(s) && s.visible && s.mode.Mods? && value != 0
    ensures var r := DpadX(s, value);
      && Valid(r)
      && r.selectedMod / Columns == s.selectedMod / Columns
      && (r == s || (r.selectedMod < ModsOnPage(s) && r == s.(selectedMod := s.selectedMod + value)))
      && (r != s ==> DpadX(r, -value) == s)
  {
    PageViewFilled(s.mods, s.modPage, ModsPerPage);
  }

  /** In profiles mode the vertical d-pad turns pages and the horizontal one
      turns the ring; the opposite move restores the ring position. */
  lemma {:induction false} ProfileMoves(s: Nav, value: int)
    requires Valid(s) && s.visible && s.mode.Profiles? && value != 0
    ensures DpadY(s, value) == ChangePage(s, value)
    ensures DpadX(s, value) == Rotate(s, value)
    ensures DpadX(DpadX(s, value), -value) == s
  {
    var r := Rotate(s, value);
    var t := Rotate(r, -value);
    ModShift(s.selected + value, 0, ProfilesPerPage);
    RotateBack(s.selected, value);
    assert t.selected == s.selected;
  }

  lemma {:induction false} RotateBack(x: int, d: int)
    requires 0 <= x < ProfilesPerPage
    ensures ((x + d) % ProfilesPerPage - d) % ProfilesPerPage == x
  {
    var m := ProfilesPerPage;
    var q := (x + d) / m;
    assert x + d == q * m + (x + d) % m;
    ModUnique((x + d) % m - d, -q, x, m);
  }

  // --------------------------------------------------------- the mods grid

  /** One flag per entry of the profile's mod list, true for the active entry.
      A managed profile's list starts with the "none" entry, active when no
      mod is. */
  function ModFlags(p: Profile): (r: seq<bool>)
    ensures p.Unmanaged? ==> r == p.active
    ensures p.Managed? ==> |r| == |p.paths| + 1 && (r[0] <==> p.activeMod.None?)
    ensures p.Managed? ==> forall i :: 0 <= i < |p.paths| ==> (r[i + 1] <==> p.activeMod == Some(p.paths[i]))
  {
    match p
    case Managed(a, paths) => [a.None?] + seq(|paths|, i requires 0 <= i < |paths| => a == Some(paths[i]))
    case Unmanaged(flags) => flags
  }

  /** The index of the first active entry, or 0 when none is active. */
  function FirstActive(flags: seq<bool>): (r: nat)
    ensures |flags| > 0 ==> r < |flags|
    ensures true in flags ==> flags[r] && forall j :: 0 <= j < r ==> !flags[j]
    ensures true !in flags ==> r == 0
  {
    if |flags| == 0 || flags[0] then 0
    else if true in flags[1..] then 1 + FirstActive(flags[1..])
    else
      assert true !in flags by {
        assert flags == [flags[0]] + flags[1..];
      }
      0
  }

  /** `_set_initial_mods_page` followed by `prepare_mods_view`: open the mod
      list of `p` on the page of its active entry, with that entry selected. */
  function InitialModsPage(s: Nav, p: ProfileInfo): (r: Nav)
    ensures r == s.(mods := r.mods, modPages := r.modPages, modPage := r.modPage, selectedMod := r.selectedMod)
  {
    var flags := ModFlags(p.kind);
    var index := FirstActive(flags);
    var pages := PageCount(|flags|, ModsPerPage);
    s.(mods := flags, modPages := pages,
       modPage := Clamp(index / ModsPerPage, pages),
       selectedMod := index % ModsPerPage)
  }

  /** The cursor lands on the first active entry of the new mod list (on the
      first entry when none is active), and that entry is a real mod of the
      page shown. */
  lemma {:induction false} InitialModsPageSpec(s: Nav, p: ProfileInfo)
    ensures var r := InitialModsPage(s, p);
      && r.mods == ModFlags(p.kind)
      && r.modPages == PageCount(|r.mods|, ModsPerPage)
      && 0 <= r.modPage < r.modPages && 0 <= r.selectedMod < ModsPerPage
      && r.modPage * ModsPerPage + r.selectedMod == FirstActive(r.mods)
      && (|r.mods| == 0 || r.selectedMod < ModsOnPage(r))
  {
    var r := InitialModsPage(s, p);
    var index := FirstActive(r.mods);
    var n := |r.mods|;
    if n > 0 {
      assert index / ModsPerPage < r.modPages;
      PageViewFilled(r.mods, r.modPage, ModsPerPage);
    }
  }

  /** Where the cursor opens on a managed profile (with InitialModsPageSpec):
      on the "none" entry when no mod is active; on no active entry at all,
      hence again on "none", when the active path is none of its mods' paths;
      otherwise on the first mod with that path, one past "none". */
  lemma {:induction false} ManagedFirstActive(active: Option<string>, paths: seq<string>)
    ensures var flags := ModFlags(Managed(active, paths));
      && (active.None? ==> FirstActive(flags) == 0)
      && (active.Some? && active.value !in paths ==> true !in flags)
      && (active.Some? && active.value in paths ==>
            (var at := FirstActive(flags);
             1 <= at && paths[at - 1] == active.value && forall j :: 0 <= j < at - 1 ==> paths[j] != active.value))
  {
    var flags := ModFlags(Managed(active, paths));
    if active.Some? && active.value in paths {
      var j :| 0 <= j < |paths| && paths[j] == active.value;
      assert flags[j + 1];
      var at := FirstActive(flags);
      forall i | 0 <= i < at - 1
        ensures paths[i] != active.value
      {
        assert !flags[i + 1];
      }
    }
    if active.Some? && active.value !in paths {
      forall i | 0 <= i < |flags|
        ensures !flags[i]
      {
        if i > 0 {
          assert paths[i - 1] in paths;
        }
      }
    }
  }

  // ------------------------------------------------------ opening and closing

  /** `handle_button_a` in profiles mode: open the selected profile's mod list
      unless the slot is padding. (In mods mode the button activates a mod,
      which is not part of this model.) */
  function OpenProfile(s: Nav): (r: Nav)
    requires Valid(s)
    ensures Valid(r)
    ensures r.mode.Mods? <==> s.mode.Mods? || (s.visible && ProfilesView(s)[s.selected].Item?)
    ensures s.mode.Profiles? && r.mode.Mods? ==> r.chosen == Some(ProfilesView(s)[s.selected].value)
  {
    if !s.visible || s.mode.Mods? then s
    else
      var slot := ProfilesView(s)[s.selected];
      if slot.Empty? then s
      else
        var r := InitialModsPage(s.(chosen := Some(slot.value), mode := Mods), slot.value);
        InitialModsPageSpec(s.(chosen := Some(slot.value), mode := Mods), slot.value);
        r
  }

  /** `handle_button_b`: leave the mod list for the profile ring (back on the
      first mod page), or close the overlay from the ring. */
  function Back(s: Nav): (r: Nav)
    requires Valid(s)
    ensures Valid(r)
    ensures s.visible && s.mode.Mods? ==> r == s.(mode := Profiles, modPage := 0)
    ensures s.visible && s.mode.Profiles? ==> r == s.(visible := false)
    ensures !s.visible ==> r == s
  {
    if !s.visible then s
    else if s.mode.Mods? then s.(mode := Profiles, modPage := 0)
    else s.(visible := false)
  }

  // ----------------------------------------------------------------- refresh

  /** The first real slot of a page whose profile has the given name. */
  function FindByName(page: seq<Slot<ProfileInfo>>, name: string): (r: Option<ProfileInfo>)
    ensures r.Some? <==> exists i :: 0 <= i < |page| && page[i].Item? && page[i].value.name == name
    ensures r.Some? ==> r.value.name == name && Item(r.value) in page
  {
    if |page| == 0 then None
    else if page[0].Item? && page[0].value.name == name then Some(page[0].value)
    else
      var rest := FindByName(page[1..], name);
      assert forall i :: 1 <= i < |page| ==> page[i] == page[1..][i - 1];
      if rest.Some? then
        assert Item(rest.value) in page[1..];
        rest
      else None
  }

  /** `update_data_and_refresh_view`: take the new profile lists (one per
      category name, empty for a name that is gone), recount and clamp the
      page; in mods mode reopen the profile by name if it is still on the
      page, otherwise fall back to the ring. */
  function Refresh(s: Nav, cats: seq<seq<ProfileInfo>>): (r: Nav)
    requires Valid(s) && |cats| == |s.cats|
    ensures Valid(r)
    ensures r.cats == cats && r.category == s.category
    ensures s.mode.Profiles? ==> r.mode.Profiles? && r.selected == s.selected && r.mods == s.mods
    ensures 0 <= s.page < r.pages ==> r.page == s.page
    ensures s.mode.Mods? ==>
      var found := FindByName(PageView(cats[s.category], r.page, ProfilesPerPage), s.chosen.value.name);
      && (found.None? ==> r.mode.Profiles? && r.mods == s.mods && r.selected == s.selected)
      && (found.Some? ==>
            && r.mode.Mods? && r.chosen == found && r.mods == ModFlags(found.value.kind)
            && r.modPage * ModsPerPage + r.selectedMod == FirstActive(r.mods))
  {
    var s1 := s.(cats := cats);
    var pages := PageCount(|cats[s.category]|, ProfilesPerPage);
    var s2 := s1.(pages := pages, page := Clamp(s.page, pages));
    if s2.mode.Profiles? then
      s2.(selected := Clamp(s2.selected, ProfilesPerPage))
    else
      match FindByName(ProfilesView(s2), s2.chosen.value.name)
      case Some(p) =>
        InitialModsPageSpec(s2.(chosen := Some(p)), p);
        InitialModsPage(s2.(chosen := Some(p)), p)
      case None => s2.(mode := Profiles)
  }

  // ------------------------------------------------------------------ inputs

  /** The controller and keyboard signals the overlay reacts to. */
  datatype Input =
    | DpadYInput(value: int)
    | DpadXInput(value: int)
    | JoystickY(value: int)
    | JoystickX(value: int)
    | Bumper(direction: int)
    | Trigger(direction: int)
    | ButtonA
    | ButtonB
    | NewData(cats: seq<seq<ProfileInfo>>)

  /** The overlay's handler for one input. The joystick's vertical axis acts
      only in mods mode and upside down (`handle_joystick_y`); bumpers turn the
      page of whichever view is shown; triggers change the category. Fresh
      data of the wrong shape is ignored. */
  function Handle(s: Nav, input: Input): (r: Nav)
    requires Valid(s)
  {
    match input
    case DpadYInput(v) => DpadY(s, v)
    case DpadXInput(v) => DpadX(s, v)
    case JoystickY(v) => if !s.visible || v == 0 || s.mode.Profiles? then s else DpadY(s, -v)
    case JoystickX(v) => if !s.visible || v == 0 then s else DpadX(s, v)
    case Bumper(d) =>
      if !s.visible then s else if s.mode.Profiles? then ChangePage(s, d) else ChangeModPage(s, d)
    case Trigger(d) => if !s.visible then s else ChangeCategory(s, d)
    case ButtonA => OpenProfile(s)
    case ButtonB => Back(s)
    case NewData(cats) => if |cats| == |s.cats| then Refresh(s, cats) else s
  }

  /** Whatever the inputs, the overlay stays in a valid state: the indices
      stay in range and, in mods mode, the selection stays on a real mod. */
  lemma {:induction false} HandleValid(s: Nav, inputs: seq<Input>)
    requires Valid(s)
    ensures Valid(Run(s, inputs))
    decreases |inputs|
  {
    if |inputs| > 0 {
      HandleStepValid(s, inputs[0]);
      HandleValid(Handle(s, inputs[0]), inputs[1..]);
    }
  }

  lemma {:induction false} HandleStepValid(s: Nav, input: Input)
    requires Valid(s)
    ensures Valid(Handle(s, input))
  {
    match input
    case DpadYInput(v) =>
      if s.visible && v != 0 && s.mode.Mods? { GridMoveY(s, v); }
    case DpadXInput(v) =>
      if s.visible && v != 0 && s.mode.Mods? { GridMoveX(s, v); }
    case JoystickY(v) =>
      if s.visible && v != 0 && s.mode.Mods? { GridMoveY(s, -v); }
    case JoystickX(v) =>
      if s.visible && v != 0 && s.mode.Mods? { GridMoveX(s, v); }
    case Bumper(d) =>
    case Trigger(d) =>
    case ButtonA =>
    case ButtonB =>
    case NewData(cats) =>
  }

  /** From the window's first state on, every series of inputs keeps the
      overlay valid. */
  lemma {:induction false} RunFromInitialValid(cats: seq<seq<ProfileInfo>>, inputs: seq<Input>)
    requires |cats| > 0
    ensures Valid(Run(Initial(cats), inputs))
  {
    HandleValid(Initial(cats), inputs);
  }

  /** The state after handling `inputs` in order. */
  function Run(s: Nav, inputs: seq<Input>): Nav
    requires Valid(s)
    decreases |inputs|
  {
    if |inputs| == 0 then s
    else
      HandleStepValid(s, inputs[0]);
      Run(Handle(s, inputs[0]), inputs[1..])
  }
}

/**
 * The behaviour of the command lists a managed profile's manifest
 * (`MIMM_Profile.ini`) defines, as a state machine over the three variables it
 * declares. `_rewrite_profile_ini` and `create_managed_profile` (main.py) write
 * two textually different versions of Next and Prev; both are modelled and
 * compared.
 */
module ProfileCommands {
  import opened Arith

  /** `$active_slot` (0 = no mod), `$saved_slot` (-1 = nothing saved) and
      `$total_slots` (the number of mods in the profile). */
  datatype SlotState = SlotState(active: int, saved: int, total: int)

  /** The states the commands are meant to move between. */
  predicate InRange(s: SlotState) {
    && 0 <= s.active <= s.total
    && (s.saved == -1 || 0 <= s.saved <= s.total)
  }

  /** The state a freshly written manifest for `mods` declares: slot 0 active,
      nothing saved, one slot per mod. */
  function Initial<T>(mods: seq<T>): (s: SlotState)
    ensures InRange(s) && s.total == |mods| && s.active == 0 && s.saved == -1
  {
    SlotState(0, -1, |mods|)
  }

  /** `[CommandListModNext]` as `_rewrite_profile_ini` writes it. `ready` stands
      for the guard `time > $mimm_cooldown && $active == 1`. */
  function Next(s: SlotState, ready: bool): (r: SlotState)
    ensures r.saved == s.saved && r.total == s.total
    ensures InRange(s) ==> InRange(r)
    ensures ready && InRange(s) ==> r.active == (s.active + 1) % (s.total + 1)
    ensures !ready ==> r == s
  {
    if !ready then s
    else if s.active == s.total then s.(active := 0)
    else s.(active := s.active + 1)
  }

  /** `[CommandListModPrev]` as `_rewrite_profile_ini` writes it. */
  function Prev(s: SlotState, ready: bool): (r: SlotState)
    ensures r.saved == s.saved && r.total == s.total
    ensures InRange(s) ==> InRange(r)
    ensures ready && InRange(s) ==> r.active == (s.active + s.total) % (s.total + 1)
    ensures !ready ==> r == s
  {
    if !ready then s
    else if s.active == 0 then s.(active := s.total)
    else s.(active := s.active - 1)
  }

  /** `[CommandListModNext]` as `create_managed_profile` writes it: through
      `$next_slot`, wrapping when it passes `$total_slots`. */
  function NextAtCreate(s: SlotState, ready: bool): (r: SlotState)
    ensures r.saved == s.saved && r.total == s.total
    ensures ready ==> r.active == 0 || r.active == s.active + 1
  {
    if !ready then s
    else
      var next := s.active + 1;
      if next > s.total then s.(active := 0) else s.(active := next)
  }

  /** `[CommandListModPrev]` as `create_managed_profile` writes it: through
      `$prev_slot`, wrapping when it drops below 0. */
  function PrevAtCreate(s: SlotState, ready: bool): (r: SlotState)
    ensures r.saved == s.saved && r.total == s.total
    ensures ready ==> r.active == s.total || r.active == s.active - 1
  {
    if !ready then s
    else
      var prev := s.active - 1;
      if prev < 0 then s.(active := s.total) else s.(active := prev)
  }

  /** `[CommandListToggleSlot]`: park the active slot and switch to slot 0, or
      bring the parked slot back. It has no cooldown guard. */
  function Toggle(s: SlotState): (r: SlotState)
    ensures r.total == s.total
    ensures InRange(s) ==> InRange(r)
    ensures s.saved == -1 ==> r.active == 0 && r.saved == s.active
    ensures s.saved != -1 ==> r.active == s.saved && r.saved == -1
  {
    if s.saved == -1 then s.(saved := s.active, active := 0)
    else s.(active := s.saved, saved := -1)
  }

  /** Next and Prev undo each other on the states the commands keep. */
  lemma {:induction false} NextPrevInverse(s: SlotState)
    requires InRange(s)
    ensures Prev(Next(s, true), true) == s
    ensures Next(Prev(s, true), true) == s
  {
  }

  /** Next applied `k` times. */
  function NextN(s: SlotState, k: nat): SlotState {
    if k == 0 then s else Next(NextN(s, k - 1), true)
  }

  /** Repeated Next visits every slot in turn and comes back after
      `total + 1` presses. */
  lemma {:induction false} NextCycles(s: SlotState, k: nat)
    requires InRange(s)
    ensures InRange(NextN(s, k))
    ensures NextN(s, k).active == (s.active + k) % (s.total + 1)
    ensures NextN(s, k).saved == s.saved && NextN(s, k).total == s.total
  {
    if k > 0 {
      NextCycles(s, k - 1);
      ModStep(s.active + (k - 1), s.total + 1);
    }
  }

  lemma {:induction false} NextFullCircle(s: SlotState)
    requires InRange(s)
    ensures NextN(s, s.total + 1) == s
  {
    NextCycles(s, s.total + 1);
    ModUnique(s.active + (s.total + 1), 1, s.active, s.total + 1);
  }

  /** The two generated versions agree whenever the active slot is in range. */
  lemma {:induction false} VariantsAgree(s: SlotState, ready: bool)
    requires 0 <= s.active <= s.total
    ensures NextAtCreate(s, ready) == Next(s, ready)
    ensures PrevAtCreate(s, ready) == Prev(s, ready)
  {
  }

  /** Outside the range they part: past `$total_slots` the rewritten Next keeps
      counting up while the original wraps to 0, and below 0 the rewritten Prev
      keeps counting down while the original wraps to the top. */
  lemma {:induction false} VariantsDiverge(s: SlotState)
    ensures s.active > s.total ==> Next(s, true).active == s.active + 1 && NextAtCreate(s, true).active == 0
    ensures s.active < 0 ==> Prev(s, true).active == s.active - 1 && PrevAtCreate(s, true).active == s.total
  {
  }

  /** Toggling twice from a state with nothing parked restores it; from a
      state with a parked slot it leaves that slot parked and slot 0 active. */
  lemma {:induction false} ToggleTwice(s: SlotState)
    ensures s.saved == -1 && s.active != -1 ==> Toggle(Toggle(s)) == s
    ensures s.saved != -1 ==> Toggle(Toggle(s)) == SlotState(0, s.saved, s.total)
  {
  }
}

/**
 * The per-game manifest `MIMM_Global.ini` (main.py): the content written for a
 * game, the creation step `setup_global_structure` and the repair decision
 * `_repair_global_ini`. The file system is replaced by the state of the one
 * file involved.
 */
module GlobalManifest {
  import opened Text
  import IniSections

  const ActiveProfileVar := "$active_profile_id"
  const CooldownVar := "$mimm_cooldown"
  const KeyProfileHeader := "[KeyProfile]"

  /** The three markers whose absence marks a manifest as outdated. */
  const Markers: seq<string> := [CooldownVar, ActiveProfileVar, KeyProfileHeader]

  /** The manifest as both operations write it: the profile switcher sets
      `$active_profile_id` from the host's cursor register. */
  function Content(): string {
    Opening() + ActiveProfileVar + Middle() + CooldownVar + Separator() + KeyProfileHeader + Closing()
  }

  function Opening(): string {
    "; MIMM Global Config\nnamespace = " + IniSections.RootNamespace + "\\profile_manager\n\n"
    + "[System]\ncheck_foreground_window = 0\n\n[Constants]\npersist global "
  }

  function Closing(): string {
    "\nkey = VK_CLEAR VK_SPACE\nrun = CommandListProfile\n\n[CommandListProfile]\n"
    + ActiveProfileVar + " = cursor_screen_y\n"
  }

  /** The manifest file: absent, present but unreadable, or readable text. */
  datatype FileState = Missing | Unreadable | Readable(text: string)

  /** `_repair_global_ini`'s test: rewrite a missing or unreadable file, or one
      lacking any of the markers. */
  predicate NeedsRewrite(f: FileState) {
    match f
    case Missing => true
    case Unreadable => true
    case Readable(t) => exists i :: 0 <= i < |Markers| && !Contains(t, Markers[i])
  }

  /** `setup_global_structure`: with a management folder, create the manifest
      when it does not exist and leave any existing file alone. */
  function Setup(f: FileState, hasManagementPath: bool): (r: FileState)
    ensures !hasManagementPath || !f.Missing? ==> r == f
    ensures hasManagementPath && f.Missing? ==> r == Readable(Content())
  {
    if hasManagementPath && f.Missing? then Readable(Content()) else f
  }

  /** `_repair_global_ini`: with a management folder, replace the file by the
      correct content when it needs a rewrite; `writable` is false when that
      write fails, which leaves the file as it was. */
  function Repair(f: FileState, hasManagementPath: bool, writable: bool): (r: FileState)
    ensures r == f || r == Readable(Content())
    ensures r != f ==> NeedsRewrite(f)
    ensures hasManagementPath && writable && NeedsRewrite(f) ==> r == Readable(Content())
  {
    if hasManagementPath && NeedsRewrite(f) && writable then Readable(Content()) else f
  }

  function Middle(): string { " = 0\npersist global " }

  function Separator(): string { " = 0\n\n" }

  /** Text laid out like the manifest, whatever stands between the markers,
      carries all three. */
  lemma {:induction false} MarkersIn(o: string, m: string, s: string, c: string)
    ensures var t := o + ActiveProfileVar + m + CooldownVar + s + KeyProfileHeader + c;
      forall i :: 0 <= i < |Markers| ==> Contains(t, Markers[i])
  {
    var a := o + ActiveProfileVar + m;
    ContainsIntro(o, ActiveProfileVar, m);
    ContainsAppendRight(a, CooldownVar, ActiveProfileVar);
    ContainsAppendRight(a + CooldownVar, s, ActiveProfileVar);
    ContainsAppendRight(a + CooldownVar + s, KeyProfileHeader, ActiveProfileVar);
    ContainsAppendRight(a + CooldownVar + s + KeyProfileHeader, c, ActiveProfileVar);
    ContainsIntro(a, CooldownVar, s);
    ContainsAppendRight(a + CooldownVar + s, KeyProfileHeader, CooldownVar);
    ContainsAppendRight(a + CooldownVar + s + KeyProfileHeader, c, CooldownVar);
    ContainsIntro(a + CooldownVar + s, KeyProfileHeader, c);
  }

  /** The written content carries every marker, so it never needs repair. */
  lemma {:induction false} ContentComplete()
    ensures forall i :: 0 <= i < |Markers| ==> Contains(Content(), Markers[i])
    ensures !NeedsRewrite(Readable(Content()))
  {
    MarkersIn(Opening(), Middle(), Separator(), Closing());
  }

  /** After a successful repair the manifest is sound, and a second repair
      changes nothing. */
  lemma {:induction false} RepairSettles(f: FileState, writable: bool)
    ensures writable ==> !NeedsRewrite(Repair(f, true, writable))
    ensures Repair(Repair(f, true, writable), true, writable) == Repair(f, true, writable)
  {
    ContentComplete();
  }

  /** A manifest just created by the setup step passes the repair check untouched. */
  lemma {:induction false} SetupThenRepair(f: FileState, writable: bool)
    requires f.Missing? || f.Readable?
    ensures f.Missing? ==> Repair(Setup(f, true), true, writable) == Readable(Content())
    ensures f.Readable? && !NeedsRewrite(f) ==> Repair(Setup(f, true), true, writable) == f
  {
    ContentComplete();
  }
}

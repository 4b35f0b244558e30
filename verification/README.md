# MIMM core, modelled in Dafny

MIMM is a mod manager for games that load mods through the 3DMigoto/XXMI
loader. Each mod is managed by a *slot* inside a per-character *profile*.
The manager rewrites every mod's INI file so that the mod only acts while its
slot is the active one. It also writes a small manifest per profile and one
global manifest per game, and it drives an in-game overlay from a gamepad.

This project models the parts of that program that are pure logic and proves
properties of them.

- `text.dfy` (`Text`): the Python string operations the program relies on:
  `strip`/`lstrip`/`rstrip`, `lower`, substring tests, `split()` and
  `" ".join`, and `str(int)`. They are modelled over ASCII.
- `ini_doc.dfy` (`IniDoc`): the first two steps of `_rewrite_ini_file`.
  - Cleaning: blank lines and bare `;` lines are dropped.
  - Sectionizing: lines are grouped into an ordered map of sections, with a
    leading `global` region.
  - The writer's serialization, which the sectionizer inverts.
- `ini_sections.dfy` (`IniSections`): the per-section rules of step 4.
  - Key sections get the slot clause conjoined to their `condition =` lines.
  - Behavioural sections are unwrapped and then re-wrapped in the slot guard.
- `ini_rewrite.dfy` (`IniRewrite`): the rewrite end to end.
  - `[Constants]` handling.
  - The object-detection hooks in the first hash override and in `[Present]`.
  - Gating by section class.
  - The profile-information trailer, and the final trim.
- `ini_settle.dfy` (`IniSettle`): how the written text reads back. The final
  `rstrip` and `lstrip` touch only the last and the first written line, and
  the reader skips the profile-information trailer.
- `ini_written.dfy` (`IniWritten`): the sections a rewrite writes are again
  sections the reader produces.
- `ini_rerun.dfy` (`IniRerun`): what running the rewrite on its own output
  does. A second run can still change the file; a third never does.
- `profile_commands.dfy` (`ProfileCommands`): what the generated
  `CommandListModNext`, `CommandListModPrev` and `CommandListToggleSlot` do to
  the state `(active_slot, saved_slot, total_slots)`. Both generated variants
  are covered.
- `global_manifest.dfy` (`GlobalManifest`): the decision to create or repair
  `MIMM_Global.ini`.
- `registry.dfy` (`Registry`):
  - allocation of a profile id, as the least unused positive integer;
  - the slot renumbering that follows the removal of a managed mod.
- `helpers.dfy` (`ManagerHelpers`): four small helpers.
  - File-name sanitising.
  - UTF-8-bounded name truncation, with byte lengths from section 3 of RFC 3629.
  - The `mimm:` one-click link parser.
  - The mod-list search filter.
- `overlay_nav.dfy` (`OverlayNav`): the overlay's navigation as a state machine.
  - Profile pages and the ring of ten.
  - Category changes.
  - Mod pages, and the 4-column mod grid.
  - The initial mod page, and data refreshes.
- `controller.dfy` (`Controller`): `ControllerListener.process_event`. It
  covers the trigger and stick latches and the priority of the button combos.
- `window_monitor.dfy` (`WindowMonitor`): the foreground-window game detector.
- `ui_dialogs.dfy` (`UiDialogs`): the dialog helpers.
  - Two-line name splitting.
  - The dark-grayscale icon test.
  - List filtering.
  - `get_details` trimming.
- `translation.dfy` (`Translation`): key lookup with the English fallback,
  and language switching.
- `wrappers.dfy`, `seqs.dfy` and `arith.dfy` hold the `Option` type and
  small generic facts.

Text is a sequence of lines without their terminators. Reading a file is a
parameter: the lines it holds, or `None` when it is missing. Writing a file
is the value returned.

## Model

| member | source | states |
|---|---|---|
| IniDoc.Clean | main.py:1438-1447 | the cleaned lines are no more than the input, and every one of them survives the cleaning rule |
| IniDoc.CleanMembers | main.py:1438-1447 | a line is kept exactly when it occurs in the input and is neither blank nor a `;` with nothing after it |
| IniDoc.CleanConcat | main.py:1439-1447 | cleaning decides line by line: cleaning a concatenation concatenates the cleaned parts |
| IniDoc.CleanIdempotent | main.py:1438-1447 | cleaning cleaned text changes nothing |
| IniDoc.KeyIndex | main.py:1462-1463 | the index found holds the key and no earlier section does; none is found only when no section has the key |
| IniDoc.Sectionize | main.py:1449-1465 | the sections start with the leading region and have distinct headers, none of them a profile-information header |
| IniDoc.StepGood | main.py:1455-1465 | one loop iteration keeps the sectionizer's invariant: the leading region first, distinct valid headers, the current section in range |
| IniDoc.RunGood | main.py:1455-1465 | the whole loop keeps that invariant |
| IniDoc.StepBody | main.py:1464-1465 | a non-header line is appended to the section currently receiving lines |
| IniDoc.StepNewHeader | main.py:1457-1463 | a new header opens an empty section at the end, which then receives the lines |
| IniDoc.RunDiscarded | main.py:1457-1465 | lines read while a profile-information header is current never reach the document |
| IniDoc.SectionizeFlatten | main.py:1449-1465 | reading back a well-formed document's lines gives the same document, repeated headers merged as before |
| IniDoc.CleanEmit | main.py:1512-1523 | the blank separators the writer puts before each header vanish when the output is cleaned again |
| IniDoc.ParseWellFormed | main.py:1438-1465 | every document read from any file is one the writer and the reader agree on |
| IniDoc.ParseFlattenParse | main.py:1438-1465 | reading a file, writing its sections and reading again gives the same sections |
| IniSections.HasConditionIff | main.py:1534 | the recursive test holds exactly when some line is a `condition =` line |
| IniSections.RepairLineFacts | main.py:1528-1533 | a repaired line is a condition line exactly when the original was; a condition line ends up carrying the parenthesised slot clause; any other line is unchanged |
| IniSections.RepairAllFacts | main.py:1528-1533 | the same facts, for every line of a section |
| IniSections.HasConditionRepairAll | main.py:1528-1534 | repairing keeps exactly the condition lines a section had |
| IniSections.RepairKeyMatchesLoop | main.py:1525-1535 | the `condition_added` flag plus the rescan of the repaired lines decide exactly "no condition line in the section" |
| IniSections.RepairKeyOffset | main.py:1534-1535 | the rule inserts at most one line, first, and exactly when the section had no condition line |
| IniSections.RepairKeyKeepsOthers | main.py:1532-1533 | every line that is not a condition line comes out unchanged, in its place |
| IniSections.RepairKeyConditions | main.py:1529-1531 | every condition line comes out carrying the slot clause, either as it was or as its stripped text followed by ` && (clause)` |
| IniSections.RepairKeySpec | main.py:1524-1536 | all of the above together: every line reappears in order, and only the condition lines change |
| IniSections.RepairKeyHasCondition | main.py:1524-1536 | after the rule the section always has a condition line |
| IniSections.RepairKeyFixed | main.py:1529 | a section whose condition lines all carry the clause is left alone |
| IniSections.RepairKeySettles | main.py:1524-1536 | a section that already had a condition line is settled after one pass |
| IniSections.RepairKeyStable | main.py:1524-1536 | any key section is settled after two passes |
| IniSections.InsertedLacksKey | main.py:1535 | the inserted bare condition lacks the parenthesised clause the duplicate check looks for |
| IniSections.RepairKeyNotIdempotent | main.py:1527-1535 | one pass is not always enough: an empty key section changes again on the second pass |
| IniSections.FirstNonBlank | main.py:1540 | the index of the first non-blank line, or none when every line is blank |
| IniSections.LastNonBlank | main.py:1541 | the index of the last non-blank line, or none when every line is blank |
| IniSections.Inside | main.py:1548 | the lines strictly between the guard and its `endif` are at least two fewer, so the unwrap loop terminates |
| IniSections.UnwrapNotGuarded | main.py:1539-1559 | the unwrap loop stops only at lines that are not enclosed in the guard |
| IniSections.GuardedByStrip | main.py:1543-1546 | whether lines are guarded depends only on their stripped text |
| IniSections.UnwrapWrap | main.py:1538-1563 | unwrapping what the writer wrapped gives back the unguarded lines, left-stripped |
| IniSections.GuardIdempotent | main.py:1538-1563 | guarding a behavioural section twice is the same as guarding it once |
| IniRewrite.WithConstants | main.py:1471-1476 | an existing `[Constants]` stays where it is; a missing one is created empty directly after the leading region |
| IniRewrite.DropManaged | main.py:1478 | no kept line mentions `$managed_slot_id` |
| IniRewrite.DropManagedMembers | main.py:1478 | a line is kept exactly when it does not mention `$managed_slot_id` |
| IniRewrite.UpdateConstantsSpec | main.py:1478-1482 | the slot declaration comes first and is the only line naming the variable; the other lines follow in order; `$mod_enabled` is declared last exactly when the file never mentioned it |
| IniRewrite.UpdateConstantsSettles | main.py:1478-1482 | updating an updated section with the same slot changes nothing |
| IniRewrite.FirstHookFrom | main.py:1488 | the first texture or shader override with a `hash` line, or none |
| IniRewrite.PresentFrom | main.py:1492 | the first section whose header is `[present]` in any case, or none |
| IniRewrite.PlantActivation | main.py:1488-1490 | `$object_detected = 1` is put at the top of the first hook, and nothing else changes |
| IniRewrite.AddReset | main.py:1492-1506 | the reset block is appended to `[Present]` unless that section already has the guard line; a missing `[Present]` is appended holding just the block |
| IniRewrite.AddDetectionSpec | main.py:1485-1506 | declaring the detection flag, raising it in the first hook and clearing it in `[Present]` touch those three sections only |
| IniRewrite.AugmentShaped | main.py:1471-1506 | step 3 keeps the sections in shape and puts `[Constants]` where it was, or right after the leading region |
| IniRewrite.ConstantsAfterSpec | main.py:1478-1486 | the final `[Constants]` starts with the slot declaration, which is the only line naming `$managed_slot_id`, and it declares the detection flag |
| IniRewrite.ConstantsAfterModEnabled | main.py:1481-1482 | `$mod_enabled` is declared exactly when the file did not mention it or the section already declared it |
| IniRewrite.AugmentConstantsSpec | main.py:1471-1486 | the same facts about the `[Constants]` section that step 3 produces |
| IniRewrite.GatePassThrough | main.py:1513-1523 | the leading region and the `[Constants]`/`[Resource*]` sections are written with their lines untouched |
| IniRewrite.GateSettles | main.py:1512-1564 | gating every section is settled after two passes |
| IniRewrite.GateGuardedOnce | main.py:1537-1564 | a behavioural section is settled after one pass |
| IniRewrite.GateAllSettles | main.py:1512-1564 | the same, for the whole document |
| IniRewrite.TrimStartKeepsEnding | main.py:1597 | left-trimming the output never eats into a trailer that starts with a blank line |
| IniRewrite.RewriteTrailer | main.py:1466-1597 | a single mod's file with a recorded profile id ends with the profile sections; a file that merges several mods (a header naming `master`, or `merged mods` in the leading region) is written as if no id were recorded |
| IniRewrite.ProfileIdFor | main.py:1420-1430 | the id recorded by the first profile of the category whose folder is the mod's character folder; none when no profile uses it or the category is missing |
| IniRewrite.ProfileIndexFrom | main.py:1423-1426 | the index of the first profile whose folder is the given one, or none when no profile has it |
| IniRewrite.RewriteFile | main.py:1432-1436 | a missing file is left alone; any other file is rewritten |
| IniRewrite.Gate | main.py:1512-1563 | gating never changes a section's header |
| IniSettle.TrimEndEmit | main.py:1566-1567 | right-trimming the serialized sections only right-strips the last line of the last section |
| IniSettle.TrimStartEmit | main.py:1597 | left-trimming drops the separator before the first header when the leading region is empty, and otherwise left-strips the region's first line |
| IniSettle.OutputForm | main.py:1512-1597 | the written text is the sections with the first and last line trimmed, serialized, followed by the trailer |
| IniSettle.TouchWellFormed | main.py:1566-1597 | trimming the first and last line keeps the sections ones the reader produces |
| IniSettle.TailRun | main.py:1455-1465 | reading lines that only open profile-information sections leaves the sections read so far unchanged |
| IniSettle.TrailerGood | main.py:1570-1594 | the profile sections appended to a mod's file are skipped entirely when the file is read again |
| IniSettle.ParseOutput | main.py:1438-1597 | reading the written text gives back the written sections, first and last line trimmed |
| IniWritten.WrittenWellFormed | main.py:1466-1564 | the sections a rewrite writes are again ones the reader produces, led by the leading region |
| IniRerun.UnwrapMentions | main.py:1539-1559 | unwrapping never loses a line naming a variable that the guard line itself does not name |
| IniRerun.GateAllMentions | main.py:1512-1564 | gating keeps every line naming such a variable |
| IniRerun.AugmentMentions | main.py:1471-1506 | step 3 keeps a mention of `$mod_enabled` |
| IniRerun.AugmentDeclares | main.py:1478-1482 | step 3 declares `$mod_enabled` in `[Constants]` for a file that never mentioned it |
| IniRerun.WrittenDeclares | main.py:1478-1482 | a file that never mentioned `$mod_enabled` is written with it declared |
| IniRerun.RewriteWithDeclares | main.py:1466-1597 | the text written for such a file mentions `$mod_enabled`, so the next run does not declare it again |
| IniRerun.WrittenConstantsOk | main.py:1471-1486 | the written `[Constants]` starts with the slot line, names `$managed_slot_id` nowhere else and declares the detection flag |
| IniRerun.WrittenConditioned | main.py:1524-1536 | every written `[Key*]` section has a condition line |
| IniRerun.WrittenGateFixed | main.py:1512-1564 | when every key section already had a condition line, gating the written sections again changes nothing |
| IniRerun.MasterKeyKeys | main.py:1468 | the header test holds exactly when some header contains `master` in any case |
| IniRerun.MasterKept | main.py:1466-1597 | a written file is a merged-mods file exactly when the original was, so the next run treats the trailer alike |
| IniRerun.TouchIdempotent | main.py:1566-1597 | trimming the first and last line twice is trimming them once |
| IniRerun.ConstantsSettled | main.py:1478-1482 | a finished `[Constants]` of a file that mentions `$mod_enabled` is updated to itself |
| IniRerun.AugmentSettled | main.py:1471-1506 | step 3 leaves sections with a finished `[Constants]` alone once the file mentions `$mod_enabled` |
| IniRerun.SettledFixed | main.py:1466-1564 | sections with a finished `[Constants]`, settled gates and a `$mod_enabled` mention in the file are written unchanged |
| IniRerun.Pass | main.py:1432-1597 | one run writes text that reads back as the written sections, trimmed, which keep the finished `[Constants]`, the conditioned key sections and the merged-mods verdict |
| IniRerun.SecondPassMentions | main.py:1478-1482 | the second run's text mentions `$mod_enabled`, whether or not the first run's did |
| IniRerun.RewriteWithSettles | main.py:1432-1597 | with any trailer the reader skips, a third run reproduces the second run's text |
| IniRerun.RewriteSettles | main.py:1432-1597 | the rewrite of a mod's file settles after two runs: running it a third time on its own output changes nothing |
| IniRerun.RewriteWithOnce | main.py:1432-1597 | one run is enough when every key section has a condition line and the written text mentions `$mod_enabled` |
| IniRerun.RewriteOnce | main.py:1432-1597 | a file whose `[Key*]` sections all have a `condition =` line, and that never mentioned `$mod_enabled`, is settled by a single run |
| IniRerun.RewriteFileSettles | main.py:1432-1597 | the whole operation settles after two runs; a missing file is left alone every time |
| ProfileCommands.Initial | main.py:1292-1300 | a fresh manifest has slot 0 active, nothing saved, and one slot per mod |
| ProfileCommands.Next | main.py:1309-1317 | Next keeps the active slot in `[0, total]` and wraps from `total` to 0; it does nothing before the cooldown |
| ProfileCommands.Prev | main.py:1324-1332 | Prev keeps the active slot in `[0, total]` and wraps from 0 to `total`; it does nothing before the cooldown |
| ProfileCommands.Toggle | main.py:1348-1355 | Toggle parks the active slot and shows slot 0, or restores the parked slot |
| ProfileCommands.NextPrevInverse | main.py:1309-1332 | Next and Prev undo each other on in-range states |
| ProfileCommands.NextCycles | main.py:1309-1317 | `k` presses of Next advance the slot by `k` modulo `total + 1` |
| ProfileCommands.NextFullCircle | main.py:1309-1317 | `total + 1` presses of Next come back to the start |
| ProfileCommands.VariantsAgree | main.py:1217-1243 | the variant written at profile creation behaves like the rewritten one whenever the active slot is in range |
| ProfileCommands.VariantsDiverge | main.py:1217-1243 | out of range the two variants differ |
| ProfileCommands.ToggleTwice | main.py:1348-1355 | toggling twice from a state with nothing parked restores it |
| GlobalManifest.Repair | main.py:2949-2994 | repair writes the correct content only when a rewrite is needed; otherwise, or when the write fails, the file stays as it was |
| GlobalManifest.ContentComplete | main.py:2956-2969 | the content written carries every marker, so it never needs repair |
| GlobalManifest.RepairSettles | main.py:2971-2994 | after a successful repair the manifest passes the check, and a second repair changes nothing |
| GlobalManifest.SetupThenRepair | main.py:2927-2994 | a manifest just created by setup passes the repair check untouched |
| Registry.UsedIdsIff | main.py:1636-1644 | an id is in use exactly when some profile of a counted category records it |
| Registry.NextProfileId | main.py:1645-1648 | the id returned is the least positive integer not in use |
| Registry.Without | main.py:2070 | the removed mod is gone and every other mod is kept |
| Registry.SortStable | main.py:2071 | the sorted list holds exactly the mods of the input, each as often |
| Registry.SortStableSpec | main.py:2071 | the sort orders by slot, with a missing slot sorting as 999, and keeps mods with equal slots in their old order |
| Registry.InsertSorted | main.py:2071 | inserting into a sorted list keeps it sorted |
| Registry.RenumberSpec | main.py:2070-2080 | the survivors are numbered 1..n in the order of their old slots, none is lost and the removed mod does not return |
| ManagerHelpers.Sanitize | main.py:527 | the result has no forbidden character and is no longer than the input |
| ManagerHelpers.SanitizeCounts | main.py:527 | every allowed character is kept as often as it occurs, and no forbidden one survives |
| ManagerHelpers.SanitizeConcat | main.py:527 | sanitising works piece by piece, so it keeps the order of what it keeps |
| ManagerHelpers.SanitizeIdempotent | main.py:527 | sanitising twice is sanitising once |
| ManagerHelpers.CharBytes | main.py:2690 | one character takes between 1 and 4 bytes in UTF-8 |
| ManagerHelpers.ByteLenConcat | main.py:2686 | the encoded length of a concatenation is the sum of the parts' lengths |
| ManagerHelpers.TruncateUtf8 | main.py:2683-2695 | the result is a prefix of the name; a name within the limit is kept whole; otherwise the result fits the limit and is the longest prefix that does |
| ManagerHelpers.DigitRun | main.py:2281 | `\d+` matches greedily: the longest run of digits from the index |
| ManagerHelpers.MatchAtSound | main.py:2281 | a match at an index consists of `mmdl/`, two non-empty digit strings and `,Mod,`, laid out at that index |
| ManagerHelpers.MatchAtExact | main.py:2281 | digit runs laid out around `,Mod,` after `mmdl/`, followed by a non-digit, match with exactly those ids |
| ManagerHelpers.ParseStartupUrl | main.py:2276-2290 | a link not starting with `mimm:` is ignored; otherwise the result is the leftmost match, or none when nothing matches |
| ManagerHelpers.ParseStartupUrlSound | main.py:2276-2283 | the ids returned are two non-empty digit strings that occur in the link around `,Mod,` right after `mmdl/` |
| ManagerHelpers.OneClickLink | main.py:2276-2283 | a link `mimm:`, a lead-in, `mmdl/F,Mod,M` and a tail that does not continue the digits yields exactly F and M |
| ManagerHelpers.FilterNarrows | main.py:1899-1910 | an empty filter shows every row, and typing more only hides more |
| OverlayNav.Initial | lib/overlay.py:388-419 | the window opens hidden, in profiles mode, on the first page of the first category with the first slot selected |
| OverlayNav.PageCount | lib/overlay.py:462 | `ceil(n/per)` pages, and 1 for no entries |
| OverlayNav.PageView | lib/overlay.py:464-466 | the page has exactly `per` slots: the entries from `page*per` on, then `empty` padding |
| OverlayNav.PageViewFilled | lib/overlay.py:464-466 | a page holds as many real entries as remain from its first index, up to a full page |
| OverlayNav.UpdateDisplay | lib/overlay.py:459-468 | pages are recounted, the page is clamped into range (an in-range page is kept) and the first slot is selected |
| OverlayNav.ChangeCategory | lib/overlay.py:479-486 | in profiles mode the category wraps by the direction and the first page is shown; in mods mode nothing changes |
| OverlayNav.ChangePage | lib/overlay.py:887-889 | with at most one page nothing changes; otherwise the page moves modulo the page count |
| OverlayNav.Rotate | lib/overlay.py:891-893 | the selection moves modulo ten, and nothing else changes |
| OverlayNav.ChangeModPage | lib/overlay.py:880-885 | with at most one mod page nothing changes; otherwise the mod page moves modulo the page count and the first mod is selected |
| OverlayNav.GridMoveY | lib/overlay.py:488-500 | in mods mode a vertical move goes one row of four, only onto a real mod, and the opposite move undoes it |
| OverlayNav.GridMoveX | lib/overlay.py:502-515 | in mods mode a horizontal move stays in its row of four, only onto a real mod, and the opposite move undoes it |
| OverlayNav.ProfileMoves | lib/overlay.py:488-506 | in profiles mode the vertical d-pad turns pages, the horizontal one turns the ring, and the opposite turn restores it |
| OverlayNav.FirstActive | lib/overlay.py:956-960 | the index of the first active entry, or 0 when none is active |
| OverlayNav.InitialModsPage | lib/overlay.py:941-986 | opening a profile's mod list changes only the list, its page count, the page and the selected mod |
| OverlayNav.InitialModsPageSpec | lib/overlay.py:941-986 | the mod list opens on the page of its first active entry, with that entry selected and a real mod |
| OverlayNav.ManagedFirstActive | lib/overlay.py:945-960 | for a managed profile the first active entry is "none" when no mod is active, otherwise the first mod with the active path |
| OverlayNav.OpenProfile | lib/overlay.py:517-524 | button A in profiles mode opens the mod list of the selected profile, when the slot is a real profile |
| OverlayNav.Back | lib/overlay.py:528-534 | button B leaves the mod list for the ring on the first mod page, or closes the overlay from the ring |
| OverlayNav.FindByName | lib/overlay.py:814 | the profile found on the page has the given name; none is found only when no real slot has it |
| OverlayNav.Refresh | lib/overlay.py:801-821 | new data keeps the category, keeps an in-range page and, in profiles mode, keeps the selection |
| OverlayNav.HandleStepValid | lib/overlay.py:479-559 | one input of any kind keeps the overlay's indices in range and, in mods mode, the selection on a real mod |
| OverlayNav.HandleValid | lib/overlay.py:479-559 | whatever the inputs, the overlay's indices stay in range and, in mods mode, the selection stays on a real mod |
| OverlayNav.RunFromInitialValid | lib/overlay.py:388-559 | from the window's first state every series of inputs keeps the overlay valid |
| Controller.StickAxis | lib/overlay.py:107-115 | a stick push beyond ±8192 emits its direction once; the latch re-arms only inside the deadzone |
| Controller.TriggerAxis | lib/overlay.py:116-127 | a trigger rising above 128 emits once; the latch re-arms only below 128 |
| Controller.ProcessAxis | lib/overlay.py:104-127 | an axis event never changes the held-button flags |
| Controller.KeyPriority | lib/overlay.py:139-157 | on a press the sync combo wins over the toggle combo, which wins over the single-button signal |
| Controller.ReleaseOnlyHolds | lib/overlay.py:130-140 | a release emits nothing and changes only the released button's held flag |
| Controller.SyncChords | lib/overlay.py:141-155 | a stick click with the left bumper held always resyncs; the left bumper alone pages back |
| Controller.TriggerFiresOnce | lib/overlay.py:116-121 | however long the left trigger stays down it fires at most once, and not at all if already latched |
| Controller.StickFiresOnce | lib/overlay.py:107-111 | a stick held outside the deadzone signals at most once |
| Controller.StickRearms | lib/overlay.py:107-111 | a reading inside the deadzone re-arms the stick, so the next push signals again |
| Controller.RunConcat | lib/overlay.py:104-157 | the latches carry over from event to event: handling a run of events in two parts is handling it whole |
| Controller.RunAt | lib/overlay.py:104-157 | each signal is what its event produces from the flags the earlier events left |
| WindowMonitor.FindGame | lib/overlay.py:281-285 | an empty title matches no game; otherwise the first game in table order whose keyword the title contains |
| WindowMonitor.CheckSpec | lib/overlay.py:270-293 | a poll emits exactly when the current game changes: `game_detected` for a new game, `game_lost` only from a game to none |
| WindowMonitor.CheckSettles | lib/overlay.py:270-293 | a second poll that sees the same thing changes nothing and emits nothing |
| WindowMonitor.MonitorReplays | lib/overlay.py:270-293 | over any run of polls, replaying the events from the starting game gives the final game, and every event is a real change |
| UiDialogs.SplitNameSpec | lib/ui_dialogs.py:45-53 | a name of two or more words becomes two lines, ceil(n/2) words then the rest; other names are unchanged; no word is lost or reordered |
| UiDialogs.SplitWords | lib/ui_dialogs.py:49-53 | two or more words are laid out on two lines that split back into the two halves |
| UiDialogs.JoinedLines | lib/ui_dialogs.py:51-53 | two runs of words joined into two lines split back into the same words |
| UiDialogs.IsStrictlyDarkGrayscale | lib/ui_dialogs.py:66-87 | true exactly when some pixel has alpha of at least 50 and every such pixel has all channels at most 120 and spread at most 15 (corrected reading) |
| UiDialogs.TransparentIgnored | lib/ui_dialogs.py:77 | a pixel with alpha below 50 never changes the verdict |
| UiDialogs.TransparentIconCounted | lib/ui_dialogs.py:76-77 | as written, a fully transparent icon is judged dark grayscale although it has no visible pixel |
| UiDialogs.FilterListSpec | lib/ui_dialogs.py:553-557 | an empty search shows everything, typing more only hides more, and an item containing the search text is shown |
| UiDialogs.GetDetailsSpec | lib/ui_dialogs.py:682-688 | name, creator and url are returned without surrounding whitespace, and trimming again changes nothing |
| Translation.Create | lib/translation.py:8-15 | a new translator holds English as both its table and its fallback |
| Translation.LanguagesConsistent | lib/translation.py:8-32 | however the language is switched, the fallback stays English and the table is the current language's file or the fallback |
| Translation.TranslateFallsBack | lib/translation.py:34-37 | a key is answered by the current language's file, else by English, else by itself |
| Translation.FailedSwitch | lib/translation.py:24-32 | switching to an unreadable language leaves English active and reports a change, and asking again reloads |

## Left out

- File and network I/O, JSON loading and saving, `os.walk`, the Win32 calls, threads and timers are left out. A file's content is a parameter: its lines, or `None` when it is missing. A write is the value returned; whether it can fail is stated per operation below.
- Everything Qt draws or lays out is left out: widgets, painting, geometry, the marquee, the rotation angle and icon colouring. They hold no logic, and geometry uses floats.
- Text: Python's `strip`, `split` and `lower` know all of Unicode, but the model treats only ASCII whitespace and ASCII letters.
- Text: a line is kept without its `\n`, and the written text is its lines joined by line breaks.
- ManagerHelpers.DigitRun: `\d` matches only ASCII digits, whereas Python's `\d` on `str` also matches other Unicode decimal digits.
- ManagerHelpers.TruncateUtf8: a Dafny `char` is a Unicode scalar value, so lone surrogates, which Python's `encode` rejects, cannot occur.
- ProfileCommands.Next: the guard `time > $mimm_cooldown && $active == 1` is the `ready` parameter, and the `time + 0.3` cooldown is not modelled.
- ProfileCommands.Prev: the same cooldown parameter stands in for the guard.
- `[CommandListMod]`, which sets the slot from `cursor_screen_x`, is left out. So is `[CommandListProfile]`, which sets the profile from `cursor_screen_y`. Both depend on the host loader's runtime.
- `_rewrite_profile_ini` is modelled only as the transitions of its generated commands. The surrounding text it writes is left out.
- OverlayNav.OpenProfile: button A in mods mode activates the selected mod through `_trigger_mod_action`. That is a Win32 key simulation plus file renaming, so it is left out.
- UiDialogs.IsStrictlyDarkGrayscale: the scaling of the image to 16×16 pixels is not modelled. The pixels are given directly.
- `_is_dark_and_monochromatic` works on floating-point saturation and is left out.
- Translation.Translate: `str.format` substitution of keyword arguments is left out. A JSON `null` value, which the source treats like a missing key, is not modelled.
- Translation.Load: the log lines are left out. The source catches only a missing file and malformed JSON (lib/translation.py:24). A file that exists but cannot be opened or decoded (`PermissionError`, `UnicodeDecodeError`) raises out of `_load_language`, the constructor and `set_language`. The model does not raise: such a file is an absent entry of `files` and falls back to English. A file whose JSON is not an object is stored as it is by the source. The model has only string-to-string tables, so that case cannot be expressed.
- IniRewrite.RewriteTrailer: the trailer's final newline and the exact blank-line layout inside the written text are not tracked, because lines carry no terminators.
- Only the file's last line can lack a line break. When that line lies in a behavioural section, the wrap writes the next line straight after it (main.py:1562-1564). Usually the next line is the closing `endif`, which is then fused to it. This is not modelled, because lines carry no terminators. `[Key*]` sections are never wrapped, so this cannot happen to them.
- IniRewrite.AddReset: when that behavioural section is `[Present]` and the rewrite appends the reset block (main.py:1497-1506), the last line written is the block's own `endif`. The block's first item starts with a line break, but the wrap's `lstrip` removes it (main.py:1563). So the slot guard is fused to the last original line instead, as in `    run = X    if $managed_slot_id == $\MIMM\<folder>\active_slot`. The section then ends with three `endif` lines for two `if` lines. Later runs find the guard text (main.py:1498) and never repair it. The model keeps the guard on its own line and the block balanced.
- When `[Constants]` is the last section of the file and its last line has no line break, the appended `global persist $mod_enabled = 1` or `global persist $object_detected = 0` is fused to that line (main.py:1482, main.py:1486). This is not modelled either, for the same reason.
- IniRewrite.RewriteFile: the source catches only `FileNotFoundError` when reading (main.py:1435). An existing file that cannot be opened (`PermissionError`, `IsADirectoryError`) raises, and so does a failed write (main.py:1596). No caller catches either, so the renumbering walk (main.py:2076-2081) stops part-way and skips `_rewrite_profile_ini` and `save_profiles`. The model has no error outcome: `None` stands for a missing file only, and the write always succeeds.
- GlobalManifest.Repair: printing and `os.makedirs` are left out. `get_management_path` returning nothing is the `hasManagementPath` parameter, and a failing write is the `writable` parameter.
- OverlayNav.Initial: the source starts `total_mod_pages` at 0 and reads it only once a profile is opened, which recomputes it; the model starts it at the page count of the empty mod list, 1. The source also fails on a window with no category (`categories[0]`), so the model requires one.
- The rewrite's settling is stated for the model's reading of the written text, which keeps lines without terminators; the cases above where a missing line break fuses two lines are outside it.
- The icon download, GameBanana queries, archive extraction, drag and drop, the tray and the settings tab are left out. None of them is part of the modelled core.

## Findings

| source | as written | input that shows it | evidently intended | confidence | as-written member | corrected member |
|---|---|---|---|---|---|---|
| lib/ui_dialogs.py:76-77 | `QColor(scaled_image.pixel(x, y))` builds the colour from a `QRgb`, and that constructor drops the alpha channel, so `color.alpha() < 50` never skips a pixel | an icon whose pixels are all `0x00000000` (fully transparent) is judged dark grayscale | read the pixel with its alpha (`QColor.fromRgba`), so transparent pixels are skipped and an icon with no visible pixel is not dark grayscale | medium, not executed | UiDialogs.TransparentIconCounted | UiDialogs.IsStrictlyDarkGrayscale |

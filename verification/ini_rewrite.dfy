/**
 * `_rewrite_ini_file` (main.py) end to end: read a mod's INI, give
 * `[Constants]` the slot variables, plant the object-detection hooks, gate
 * every section by its treatment, append the profile-information trailer and
 * trim the result.
 */
module IniRewrite {
  import opened Text
  import opened Wrappers
  import opened Seqs
  import opened IniDoc
  import opened IniSections

  const ConstantsHeader := "[Constants]"
  const PresentHeader := "[Present]"
  const ModEnabledVar := "$mod_enabled"
  const DetectedVar := "$object_detected"

  /** The managed-slot declaration that heads `[Constants]`. */
  function ManagedLine(slot: int): string {
    "global " + ManagedVar + " = " + IntToString(slot)
  }

  const ModEnabledLine := "global persist " + ModEnabledVar + " = 1"
  const DetectedLine := "global persist " + DetectedVar + " = 0"
  const ActivationLine := "$object_detected = 1"

  /** The block added to `[Present]` that clears the detection flag every frame;
      its first line is the slot guard itself. */
  function ResetBlock(folder: string): seq<string> {
    [Wrapper(folder), ResetIfLine, ResetPostLine, ResetEndLine, "endif"]
  }

  const Pad := "    "
  const ResetIfLine := Pad + "if $object_detected"
  const ResetPostLine := Pad + Pad + "post $object_detected = 0"
  const ResetEndLine := Pad + "endif"

  // --------------------------------------------------------------- sections

  /** Replace the lines of section `i`, keeping its key and place. */
  function SetLines(doc: Doc, i: nat, lines: seq<string>): (r: Doc)
    requires i < |doc|
    ensures |r| == |doc| && r[i] == Section(doc[i].key, lines)
    ensures forall j :: 0 <= j < |doc| && j != i ==> r[j] == doc[j]
  {
    doc[i := Section(doc[i].key, lines)]
  }

  /** Two documents with the same keys in the same places find every key at the same index. */
  lemma {:induction false} KeyIndexSameKeys(a: Doc, b: Doc, k: Key)
    requires |a| == |b| && forall j :: 0 <= j < |a| ==> a[j].key == b[j].key
    ensures KeyIndex(a, k) == KeyIndex(b, k)
  {
    var ia, ib := KeyIndex(a, k), KeyIndex(b, k);
    if ia.Some? {
      assert b[ia.value].key == k;
    }
    if ib.Some? {
      assert a[ib.value].key == k;
    }
  }

  lemma {:induction false} SetLinesKeys(doc: Doc, i: nat, lines: seq<string>, k: Key)
    requires i < |doc|
    ensures KeysOf(SetLines(doc, i, lines)) == KeysOf(doc)
    ensures KeyIndex(SetLines(doc, i, lines), k) == KeyIndex(doc, k)
  {
    KeyIndexSameKeys(SetLines(doc, i, lines), doc, k);
  }

  // -------------------------------------------------------------- constants

  /** The leading region comes first, as it does in every sectionized document. */
  predicate Led(doc: Doc) {
    |doc| >= 1 && doc[0].key == Global
  }

  lemma {:induction false} ShapedLed(doc: Doc)
    requires Shaped(doc)
    ensures Led(doc)
  {
    assert KeysOf(doc)[0] == doc[0].key;
  }

  /** The document with a `[Constants]` section: an existing one is kept where
      it is, a missing one is created directly after the leading region. */
  function WithConstants(doc: Doc): (r: Doc)
    requires Led(doc)
    ensures KeyIndex(doc, Named(ConstantsHeader)).Some? ==> r == doc
    ensures KeyIndex(doc, Named(ConstantsHeader)).None? ==>
      && |r| == |doc| + 1
      && r[0] == doc[0]
      && r[1] == Section(Named(ConstantsHeader), [])
      && forall j :: 1 <= j < |doc| ==> r[j + 1] == doc[j]
  {
    if KeyIndex(doc, Named(ConstantsHeader)).Some? then doc
    else [doc[0], Section(Named(ConstantsHeader), [])] + doc[1..]
  }

  lemma {:induction false} ConstantsKeyValid()
    ensures ValidNamedKey(Named(ConstantsHeader))
  {
    assert |ConstantsHeader| == 11;
    assert ConstantsHeader != InfoHeaders[0] && ConstantsHeader != InfoHeaders[1] && ConstantsHeader != InfoHeaders[2] by {
      assert |InfoHeaders[0]| == 24 && |InfoHeaders[1]| == 16 && |InfoHeaders[2]| == 21;
    }
  }

  lemma {:induction false} WithConstantsHas(doc: Doc)
    requires Led(doc)
    ensures KeyIndex(WithConstants(doc), Named(ConstantsHeader)).Some?
  {
    if KeyIndex(doc, Named(ConstantsHeader)).None? {
      assert WithConstants(doc)[1].key == Named(ConstantsHeader);
    }
  }

  /** Adding `[Constants]` keeps the document's shape. */
  lemma {:induction false} WithConstantsShaped(doc: Doc)
    requires Shaped(doc)
    ensures Led(doc) && Shaped(WithConstants(doc))
  {
    ShapedLed(doc);
    var r := WithConstants(doc);
    var k := Named(ConstantsHeader);
    if KeyIndex(doc, k).None? {
      ConstantsKeyValid();
      var ks, ko := KeysOf(r), KeysOf(doc);
      assert ks[0] == Global && ks[1] == k;
      forall i, j | 0 <= i < j < |ks|
        ensures ks[i] != ks[j]
      {
        if i >= 2 {
          assert ks[i] == ko[i - 1] && ks[j] == ko[j - 1];
        } else if i == 1 {
          assert ks[j] == ko[j - 1];
        } else if j >= 2 {
          assert ks[j] == ko[j - 1] && ko[0] == Global;
        }
      }
      forall i | 1 <= i < |ks|
        ensures ValidNamedKey(ks[i])
      {
        if i >= 2 {
          assert ks[i] == ko[i - 1];
        }
      }
    }
  }

  /** The lines that do not mention `$managed_slot_id`, in order. */
  function DropManaged(lines: seq<string>): (r: seq<string>)
    ensures |r| <= |lines|
    ensures !AnyContains(r, ManagedVar)
  {
    if |lines| == 0 then []
    else if Contains(lines[0], ManagedVar) then DropManaged(lines[1..])
    else [lines[0]] + DropManaged(lines[1..])
  }

  /** Filtering keeps exactly the lines that do not mention the managed variable. */
  lemma {:induction false} DropManagedMembers(lines: seq<string>, l: string)
    ensures l in DropManaged(lines) <==> l in lines && !Contains(l, ManagedVar)
  {
    if |lines| > 0 {
      DropManagedMembers(lines[1..], l);
      assert lines == [lines[0]] + lines[1..];
    }
  }

  /** A section that never mentions the managed variable loses nothing. */
  lemma {:induction false} DropManagedNoop(lines: seq<string>)
    requires !AnyContains(lines, ManagedVar)
    ensures DropManaged(lines) == lines
  {
    if |lines| > 0 {
      DropManagedNoop(lines[1..]);
      assert lines == [lines[0]] + lines[1..];
    }
  }

  /** The new `[Constants]` lines: the managed-slot declaration, the section's
      other lines, and the `$mod_enabled` declaration when the file had none. */
  function UpdateConstants(lines: seq<string>, slot: int, modEnabledSeen: bool): seq<string> {
    [ManagedLine(slot)] + DropManaged(lines) + (if modEnabledSeen then [] else [ModEnabledLine])
  }

  lemma {:induction false} ManagedLineMentions(slot: int)
    ensures Contains(ManagedLine(slot), ManagedVar)
  {
    ContainsIntro("global ", ManagedVar, " = " + IntToString(slot));
    assert ManagedLine(slot) == "global " + ManagedVar + (" = " + IntToString(slot));
  }

  lemma {:induction false} ModEnabledLineSilent()
    ensures !Contains(ModEnabledLine, ManagedVar)
    ensures Contains(ModEnabledLine, ModEnabledVar)
  {
    NotContainsAround("global persist ", ModEnabledVar, " = 1", ManagedVar, 2);
    ContainsIntro("global persist ", ModEnabledVar, " = 1");
  }

  lemma {:induction false} DetectedLineSilent()
    ensures !Contains(DetectedLine, ManagedVar)
    ensures Contains(DetectedLine, DetectedVar)
  {
    NotContainsAround("global persist ", DetectedVar, " = 0", ManagedVar, 1);
    ContainsIntro("global persist ", DetectedVar, " = 0");
  }

  /** `[Constants]` after its update: exactly one line mentions the managed
      variable, it comes first and carries the slot; the section's other lines
      follow in order; the `$mod_enabled` declaration closes it iff the file had none. */
  lemma {:induction false} UpdateConstantsSpec(lines: seq<string>, slot: int, modEnabledSeen: bool)
    ensures var r := UpdateConstants(lines, slot, modEnabledSeen);
      && r[0] == ManagedLine(slot)
      && Contains(r[0], ManagedVar)
      && !AnyContains(r[1..], ManagedVar)
      && r[1..1 + |DropManaged(lines)|] == DropManaged(lines)
      && (modEnabledSeen <==> |r| == 1 + |DropManaged(lines)|)
      && (!modEnabledSeen ==> r[|r| - 1] == ModEnabledLine)
  {
    var d := DropManaged(lines);
    var tail := if modEnabledSeen then [] else [ModEnabledLine];
    var r := UpdateConstants(lines, slot, modEnabledSeen);
    ManagedLineMentions(slot);
    assert r[1..] == d + tail;
    ModEnabledLineSilent();
    AnyContainsConcat(d, tail, ManagedVar);
    if !modEnabledSeen {
      SingleTail(ModEnabledLine);
    }
  }

  /** Updating twice with the same slot changes nothing more, once `$mod_enabled` is known. */
  lemma {:induction false} UpdateConstantsSettles(lines: seq<string>, slot: int, modEnabledSeen: bool)
    ensures UpdateConstants(UpdateConstants(lines, slot, modEnabledSeen), slot, true)
         == UpdateConstants(lines, slot, modEnabledSeen)
  {
    var r := UpdateConstants(lines, slot, modEnabledSeen);
    UpdateConstantsSpec(lines, slot, modEnabledSeen);
    ManagedLineMentions(slot);
    assert r == [r[0]] + r[1..];
    assert DropManaged(r) == DropManaged(r[1..]);
    DropManagedNoop(r[1..]);
    ConcatEmpty([ManagedLine(slot)] + r[1..]);
  }

  // -------------------------------------------------------------- detection

  /** A texture or shader override that matches on a hash: the section that raises the detection flag. */
  predicate IsHook(s: Section) {
    HookKey(s.key) && AnyContainsFolded(s.lines, "hash")
  }

  predicate HookKey(k: Key) {
    k.Named? && (StartsWith(Lower(k.header), "[textureoverride") || StartsWith(Lower(k.header), "[shaderoverride"))
  }

  /** Index of the first hook at or after `k`. */
  function FirstHookFrom(doc: Doc, k: nat): (r: Option<nat>)
    requires k <= |doc|
    ensures r.Some? ==> k <= r.value < |doc| && IsHook(doc[r.value]) && forall j :: k <= j < r.value ==> !IsHook(doc[j])
    ensures r.None? ==> forall j :: k <= j < |doc| ==> !IsHook(doc[j])
    decreases |doc| - k
  {
    if k == |doc| then None
    else if IsHook(doc[k]) then Some(k)
    else FirstHookFrom(doc, k + 1)
  }

  /** The `[Present]` section, whatever the case of its header. */
  predicate PresentKey(k: Key) {
    k.Named? && Lower(k.header) == "[present]"
  }

  /** Index of the first `[Present]` section at or after `k`. */
  function PresentFrom(doc: Doc, k: nat): (r: Option<nat>)
    requires k <= |doc|
    ensures r.Some? ==> k <= r.value < |doc| && PresentKey(doc[r.value].key) && forall j :: k <= j < r.value ==> !PresentKey(doc[j].key)
    ensures r.None? ==> forall j :: k <= j < |doc| ==> !PresentKey(doc[j].key)
    decreases |doc| - k
  {
    if k == |doc| then None
    else if PresentKey(doc[k].key) then Some(k)
    else PresentFrom(doc, k + 1)
  }

  /** The object-detection hooks, planted when `[Constants]` (at `c`) does not
      declare the flag yet: declare it, raise it in the first hook, and make
      sure `[Present]` clears it. */
  function AddDetection(doc: Doc, c: nat, folder: string): Doc
    requires c < |doc|
  {
    AddReset(PlantActivation(SetLines(doc, c, doc[c].lines + [DetectedLine])), folder)
  }

  /** The activation line at the top of the first hook, if there is one. */
  function PlantActivation(doc: Doc): (r: Doc)
    ensures |r| == |doc| && forall j :: 0 <= j < |doc| ==> r[j].key == doc[j].key
    ensures forall j :: 0 <= j < |doc| && Some(j) != FirstHookFrom(doc, 0) ==> r[j] == doc[j]
    ensures FirstHookFrom(doc, 0).Some? ==>
      var i := FirstHookFrom(doc, 0).value; r[i].lines == [ActivationLine] + doc[i].lines
  {
    match FirstHookFrom(doc, 0)
    case Some(i) => SetLines(doc, i, [ActivationLine] + doc[i].lines)
    case None => doc
  }

  /** The reset block at the end of `[Present]` unless the section already
      mentions the guard; a missing `[Present]` is appended holding just the block. */
  function AddReset(doc: Doc, folder: string): (r: Doc)
    ensures |r| >= |doc|
    ensures forall j :: 0 <= j < |doc| ==> r[j].key == doc[j].key
    ensures forall j :: 0 <= j < |doc| && Some(j) != PresentFrom(doc, 0) ==> r[j] == doc[j]
    ensures PresentFrom(doc, 0).Some? ==>
      var p := PresentFrom(doc, 0).value;
      && |r| == |doc|
      && r[p].lines == (if AnyContains(doc[p].lines, Wrapper(folder)) then doc[p].lines else doc[p].lines + ResetBlock(folder))
    ensures PresentFrom(doc, 0).None? ==> r == doc + [Section(Named(PresentHeader), ResetBlock(folder))]
  {
    match PresentFrom(doc, 0)
    case Some(p) =>
      if AnyContains(doc[p].lines, Wrapper(folder)) then doc
      else SetLines(doc, p, doc[p].lines + ResetBlock(folder))
    case None => doc + [Section(Named(PresentHeader), ResetBlock(folder))]
  }

  /** Step 3 of the rewrite. `text` is the file as read, before cleaning: the
      `$mod_enabled` test looks at all of it. */
  function Augment(doc: Doc, text: seq<string>, slot: int, folder: string): (r: Doc)
    requires Led(doc)
  {
    WithConstantsHas(doc);
    var d1 := WithConstants(doc);
    var c := KeyIndex(d1, Named(ConstantsHeader)).value;
    var d2 := SetLines(d1, c, UpdateConstants(d1[c].lines, slot, AnyContains(text, ModEnabledVar)));
    if AnyContains(d2[c].lines, DetectedVar) then d2 else AddDetection(d2, c, folder)
  }

  lemma {:induction false} KeyIndexAt(doc: Doc, k: Key, c: nat)
    requires c < |doc| && doc[c].key == k && forall j :: 0 <= j < c ==> doc[j].key != k
    ensures KeyIndex(doc, k) == Some(c)
  {
  }

  lemma {:induction false} PresentHeaderValid()
    ensures ValidNamedKey(Named(PresentHeader))
  {
    assert |InfoHeaders[0]| == 24 && |InfoHeaders[1]| == 16 && |InfoHeaders[2]| == 21;
  }

  lemma {:induction false} PresentHeaderFolded()
    ensures Lower(PresentHeader) == "[present]"
  {
    var l := Lower(PresentHeader);
    LowerAt(PresentHeader);
    assert l[0] == '[' && l[1] == 'p' && l[2] == 'r' && l[3] == 'e' && l[4] == 's';
    assert l[5] == 'e' && l[6] == 'n' && l[7] == 't' && l[8] == ']';
  }

  /** `[Constants]` is neither a hook nor `[Present]`, and no hook is `[Present]`:
      the three edits of `AddDetection` touch three different sections. */
  lemma {:induction false} ConstantsNotTarget()
    ensures !HookKey(Named(ConstantsHeader)) && !PresentKey(Named(ConstantsHeader))
  {
    assert |Lower(ConstantsHeader)| == 11;
  }

  lemma {:induction false} HookNotPresent(k: Key)
    ensures HookKey(k) ==> !PresentKey(k)
  {
    if k.Named? {
      assert |Lower(k.header)| == |k.header|;
    }
  }

  lemma {:induction false} FirstHookSame(a: Doc, b: Doc)
    requires |a| == |b| && forall j :: 0 <= j < |a| ==> IsHook(a[j]) == IsHook(b[j])
    ensures FirstHookFrom(a, 0) == FirstHookFrom(b, 0)
  {
    var ra, rb := FirstHookFrom(a, 0), FirstHookFrom(b, 0);
    if ra.Some? {
      assert IsHook(b[ra.value]);
    }
    if rb.Some? {
      assert IsHook(a[rb.value]);
    }
  }

  lemma {:induction false} PresentSame(a: Doc, b: Doc)
    requires |a| <= |b| && forall j :: 0 <= j < |a| ==> a[j].key == b[j].key
    requires forall j :: |a| <= j < |b| ==> !PresentKey(b[j].key)
    ensures PresentFrom(a, 0) == PresentFrom(b, 0)
  {
    var ra, rb := PresentFrom(a, 0), PresentFrom(b, 0);
    if ra.Some? {
      assert PresentKey(b[ra.value].key);
    }
    if rb.Some? {
      assert PresentKey(a[rb.value].key);
    }
  }

  /** The intermediate documents of `AddDetection` agree with `doc` on where
      the hook and `[Present]` are. */
  lemma {:induction false} AddDetectionStages(doc: Doc, c: nat, folder: string)
    requires c < |doc| && !HookKey(doc[c].key) && !PresentKey(doc[c].key)
    ensures var d1 := SetLines(doc, c, doc[c].lines + [DetectedLine]);
      && FirstHookFrom(d1, 0) == FirstHookFrom(doc, 0)
      && PresentFrom(PlantActivation(d1), 0) == PresentFrom(doc, 0)
      && (FirstHookFrom(doc, 0).Some? ==> FirstHookFrom(doc, 0).value != c)
      && (PresentFrom(doc, 0).Some? ==> PresentFrom(doc, 0).value != c && Some(PresentFrom(doc, 0).value) != FirstHookFrom(doc, 0))
  {
    var d1 := SetLines(doc, c, doc[c].lines + [DetectedLine]);
    FirstHookSame(d1, doc);
    var hook := FirstHookFrom(doc, 0);
    if hook.Some? {
      HookNotPresent(doc[hook.value].key);
    }
    PresentSame(doc, PlantActivation(d1));
  }

  lemma {:induction false} AddDetectionKeeps(doc: Doc, c: nat, folder: string)
    requires c < |doc| && !HookKey(doc[c].key) && !PresentKey(doc[c].key)
    ensures var r := AddDetection(doc, c, folder);
      && |r| >= |doc|
      && (forall j :: 0 <= j < |doc| ==> r[j].key == doc[j].key)
      && (forall j :: 0 <= j < |doc| && j != c && Some(j) != FirstHookFrom(doc, 0) && Some(j) != PresentFrom(doc, 0) ==> r[j] == doc[j])
  {
    AddDetectionStages(doc, c, folder);
  }

  lemma {:induction false} AddDetectionEdits(doc: Doc, c: nat, folder: string)
    requires c < |doc| && !HookKey(doc[c].key) && !PresentKey(doc[c].key)
    ensures var r := AddDetection(doc, c, folder);
      && |r| >= |doc|
      && r[c].lines == doc[c].lines + [DetectedLine]
      && (FirstHookFrom(doc, 0).Some? ==>
            var i := FirstHookFrom(doc, 0).value; r[i].lines == [ActivationLine] + doc[i].lines)
  {
    AddDetectionStages(doc, c, folder);
  }

  lemma {:induction false} AddDetectionPresent(doc: Doc, c: nat, folder: string)
    requires c < |doc| && !HookKey(doc[c].key) && !PresentKey(doc[c].key)
    ensures var r := AddDetection(doc, c, folder);
      && (PresentFrom(doc, 0).Some? ==>
            var p := PresentFrom(doc, 0).value;
            && |r| == |doc|
            && r[p].lines == (if AnyContains(doc[p].lines, Wrapper(folder)) then doc[p].lines else doc[p].lines + ResetBlock(folder)))
      && (PresentFrom(doc, 0).None? ==>
            |r| == |doc| + 1 && r[|doc|] == Section(Named(PresentHeader), ResetBlock(folder)))
  {
    AddDetectionStages(doc, c, folder);
  }

  /** What planting the detection hooks does: `[Constants]` gains the flag
      declaration, the first hook gains the activation line at its top,
      `[Present]` (appended when missing) ends with the reset block unless it
      already mentions the guard, and nothing else changes. */
  lemma {:induction false} AddDetectionSpec(doc: Doc, c: nat, folder: string)
    requires c < |doc| && !HookKey(doc[c].key) && !PresentKey(doc[c].key)
    ensures var r := AddDetection(doc, c, folder);
      && |r| >= |doc|
      && (forall j :: 0 <= j < |doc| ==> r[j].key == doc[j].key)
      && r[c].lines == doc[c].lines + [DetectedLine]
      && (FirstHookFrom(doc, 0).Some? ==>
            var i := FirstHookFrom(doc, 0).value; r[i].lines == [ActivationLine] + doc[i].lines)
      && (PresentFrom(doc, 0).Some? ==>
            var p := PresentFrom(doc, 0).value;
            && |r| == |doc|
            && r[p].lines == (if AnyContains(doc[p].lines, Wrapper(folder)) then doc[p].lines else doc[p].lines + ResetBlock(folder)))
      && (PresentFrom(doc, 0).None? ==>
            |r| == |doc| + 1 && r[|doc|] == Section(Named(PresentHeader), ResetBlock(folder)))
      && (forall j :: 0 <= j < |doc| && j != c && Some(j) != FirstHookFrom(doc, 0) && Some(j) != PresentFrom(doc, 0) ==> r[j] == doc[j])
  {
    AddDetectionKeeps(doc, c, folder);
    AddDetectionEdits(doc, c, folder);
    AddDetectionPresent(doc, c, folder);
  }

  /** Where `Augment` finds `[Constants]`. */
  function ConstantsIndex(doc: Doc): (c: nat)
    requires Led(doc)
    ensures c < |WithConstants(doc)| && WithConstants(doc)[c].key == Named(ConstantsHeader)
  {
    WithConstantsHas(doc);
    KeyIndex(WithConstants(doc), Named(ConstantsHeader)).value
  }

  lemma {:induction false} NoPresentKey(doc: Doc)
    requires PresentFrom(doc, 0).None?
    ensures KeyIndex(doc, Named(PresentHeader)).None?
  {
    PresentHeaderFolded();
    var r := KeyIndex(doc, Named(PresentHeader));
    if r.Some? {
      assert PresentKey(doc[r.value].key);
    }
  }

  lemma {:induction false} AddDetectionKeysOf(doc: Doc, c: nat, folder: string)
    requires c < |doc| && !HookKey(doc[c].key) && !PresentKey(doc[c].key)
    ensures PresentFrom(doc, 0).Some? ==> KeysOf(AddDetection(doc, c, folder)) == KeysOf(doc)
    ensures PresentFrom(doc, 0).None? ==> KeysOf(AddDetection(doc, c, folder)) == KeysOf(doc) + [Named(PresentHeader)]
  {
    var r := AddDetection(doc, c, folder);
    AddDetectionKeeps(doc, c, folder);
    AddDetectionPresent(doc, c, folder);
    if PresentFrom(doc, 0).None? {
      assert KeysOf(r)[|doc|] == Named(PresentHeader);
      assert KeysOf(r)[..|doc|] == KeysOf(doc);
    }
  }

  /** Planting the hooks keeps the document's shape. */
  lemma {:induction false} AddDetectionShaped(doc: Doc, c: nat, folder: string)
    requires Shaped(doc) && c < |doc| && !HookKey(doc[c].key) && !PresentKey(doc[c].key)
    ensures Shaped(AddDetection(doc, c, folder))
  {
    AddDetectionKeysOf(doc, c, folder);
    if PresentFrom(doc, 0).None? {
      NoPresentKey(doc);
      PresentHeaderValid();
      ShapedAdd(doc, PresentHeader);
      assert KeysOf(doc + [Section(Named(PresentHeader), [])]) == KeysOf(doc) + [Named(PresentHeader)];
    }
  }

  /** Step 3 keeps the document's shape and finds `[Constants]` where it put it:
      where it was, or right after the leading region. */
  lemma {:induction false} AugmentShaped(doc: Doc, text: seq<string>, slot: int, folder: string)
    requires Shaped(doc)
    ensures Shaped(Augment(doc, text, slot, folder))
    ensures KeyIndex(Augment(doc, text, slot, folder), Named(ConstantsHeader)) == Some(ConstantsIndex(doc))
    ensures KeyIndex(doc, Named(ConstantsHeader)).None? ==> ConstantsIndex(doc) == 1
  {
    WithConstantsShaped(doc);
    var d1 := WithConstants(doc);
    var c := ConstantsIndex(doc);
    var k := Named(ConstantsHeader);
    var lines := UpdateConstants(d1[c].lines, slot, AnyContains(text, ModEnabledVar));
    var d2 := SetLines(d1, c, lines);
    SetLinesKeys(d1, c, lines, k);
    assert Shaped(d2);
    var r := Augment(doc, text, slot, folder);
    if !AnyContains(d2[c].lines, DetectedVar) {
      ConstantsNotTarget();
      AddDetectionShaped(d2, c, folder);
      AddDetectionKeeps(d2, c, folder);
      KeyIndexAt(r, k, c);
    }
    if KeyIndex(doc, k).None? {
      KeyIndexAt(d1, k, 1);
    }
  }

  /** `[Constants]` after step 3: the updated lines, then the detection flag's
      declaration when they do not mention the flag. */
  function ConstantsAfter(lines: seq<string>, slot: int, modEnabledSeen: bool): seq<string> {
    var u := UpdateConstants(lines, slot, modEnabledSeen);
    u + (if AnyContains(u, DetectedVar) then [] else [DetectedLine])
  }

  lemma {:induction false} AugmentConstants(doc: Doc, text: seq<string>, slot: int, folder: string)
    requires Led(doc)
    ensures Augment(doc, text, slot, folder)[ConstantsIndex(doc)].lines
         == ConstantsAfter(WithConstants(doc)[ConstantsIndex(doc)].lines, slot, AnyContains(text, ModEnabledVar))
  {
    var d1 := WithConstants(doc);
    var c := ConstantsIndex(doc);
    var u := UpdateConstants(d1[c].lines, slot, AnyContains(text, ModEnabledVar));
    var d2 := SetLines(d1, c, u);
    if !AnyContains(u, DetectedVar) {
      ConstantsNotTarget();
      AddDetectionEdits(d2, c, folder);
    } else {
      ConcatEmpty(u);
    }
  }

  /** Exactly one line of the final `[Constants]` mentions `$managed_slot_id`: the
      first, which carries the slot. The section declares the detection flag. */
  lemma {:induction false} ConstantsAfterSpec(lines: seq<string>, slot: int, modEnabledSeen: bool)
    ensures var r := ConstantsAfter(lines, slot, modEnabledSeen);
      && |r| >= 1
      && r[0] == ManagedLine(slot)
      && Contains(r[0], ManagedVar)
      && !AnyContains(r[1..], ManagedVar)
      && AnyContains(r, DetectedVar)
  {
    var u := UpdateConstants(lines, slot, modEnabledSeen);
    var tail: seq<string> := if AnyContains(u, DetectedVar) then [] else [DetectedLine];
    UpdateConstantsSpec(lines, slot, modEnabledSeen);
    DetectedLineSilent();
    var r := u + tail;
    assert r[1..] == u[1..] + tail;
    AnyContainsConcat(u[1..], tail, ManagedVar);
    AnyContainsConcat(u, tail, DetectedVar);
    if tail != [] {
      SingleTail(DetectedLine);
    }
  }

  /** The `$mod_enabled` declaration is in the final `[Constants]` exactly when
      the file did not mention `$mod_enabled` or the section already held it. */
  lemma {:induction false} ConstantsAfterModEnabled(lines: seq<string>, slot: int, modEnabledSeen: bool)
    ensures ModEnabledLine in ConstantsAfter(lines, slot, modEnabledSeen) <==> !modEnabledSeen || ModEnabledLine in lines
  {
    ModEnabledLineSilent();
    DropManagedMembers(lines, ModEnabledLine);
    assert ModEnabledLine != DetectedLine by {
      assert ModEnabledLine[16] == 'm' && DetectedLine[16] == 'o';
    }
    assert ModEnabledLine != ManagedLine(slot) by {
      ManagedLineMentions(slot);
    }
  }

  /** Step 3 on `[Constants]`, in the source's terms: exactly one line mentions
      `$managed_slot_id`, the first, carrying the slot; the detection flag is
      declared; `$mod_enabled` is declared exactly when the file did not mention it
      or the section already declared it. */
  lemma {:induction false} AugmentConstantsSpec(doc: Doc, text: seq<string>, slot: int, folder: string)
    requires Led(doc)
    ensures var lines := Augment(doc, text, slot, folder)[ConstantsIndex(doc)].lines;
      && |lines| >= 1
      && lines[0] == ManagedLine(slot)
      && !AnyContains(lines[1..], ManagedVar)
      && AnyContains(lines, DetectedVar)
      && (ModEnabledLine in lines <==> !AnyContains(text, ModEnabledVar) || ModEnabledLine in WithConstants(doc)[ConstantsIndex(doc)].lines)
  {
    var old_ := WithConstants(doc)[ConstantsIndex(doc)].lines;
    AugmentConstants(doc, text, slot, folder);
    ConstantsAfterSpec(old_, slot, AnyContains(text, ModEnabledVar));
    ConstantsAfterModEnabled(old_, slot, AnyContains(text, ModEnabledVar));
  }

  // ------------------------------------------------------------------ gating

  /** Step 4 for one section: the leading region and pass-through sections keep
      their lines, key sections are repaired, the rest are guarded. */
  function Gate(s: Section, folder: string): (r: Section)
    ensures r.key == s.key
  {
    match s.key
    case Global => s
    case Named(h) =>
      match TreatmentOf(h)
      case PassThrough => s
      case KeyRepair => Section(s.key, RepairKey(s.lines, folder))
      case Guarded => Section(s.key, Guard(s.lines, folder))
  }

  /** The leading region and the `[Constants]` and `[Resource...]` sections,
      whatever the case of their headers, come out with their lines untouched. */
  lemma {:induction false} GatePassThrough(s: Section, folder: string)
    requires s.key.Global? || StartsWith(Lower(s.key.header), "[constants]") || StartsWith(Lower(s.key.header), "[resource")
    ensures Gate(s, folder) == s
  {
  }

  function GateAll(doc: Doc, folder: string): (r: Doc)
    ensures |r| == |doc| && forall i :: 0 <= i < |doc| ==> r[i] == Gate(doc[i], folder)
  {
    seq(|doc|, i requires 0 <= i < |doc| => Gate(doc[i], folder))
  }

  /** Gating settles after two passes: a third changes nothing. (One pass is not
      always enough: a key section without any `condition` line first receives a
      condition that lacks the slot test, which the next pass extends.) */
  lemma {:induction false} GateSettles(s: Section, folder: string)
    ensures var g := Gate(Gate(s, folder), folder);
      Gate(g, folder) == g
  {
    match s.key
    case Global =>
    case Named(h) =>
      match TreatmentOf(h)
      case PassThrough =>
      case KeyRepair =>
        RepairKeyStable(s.lines, folder);
      case Guarded =>
        GuardIdempotent(s.lines, folder);
        GuardIdempotent(Guard(s.lines, folder), folder);
  }

  /** A behavioural section is already settled after one pass. */
  lemma {:induction false} GateGuardedOnce(s: Section, folder: string)
    requires s.key.Named? && TreatmentOf(s.key.header) == Guarded
    ensures Gate(Gate(s, folder), folder) == Gate(s, folder)
    ensures Gate(s, folder).lines == Wrap(Unwrap(s.lines, folder), folder)
  {
    GuardIdempotent(s.lines, folder);
  }

  lemma {:induction false} GateAllSettles(doc: Doc, folder: string)
    ensures var g := GateAll(GateAll(doc, folder), folder);
      GateAll(g, folder) == g
  {
    var g := GateAll(GateAll(doc, folder), folder);
    forall i | 0 <= i < |doc|
      ensures GateAll(g, folder)[i] == g[i]
    {
      GateSettles(doc[i], folder);
    }
  }

  // ----------------------------------------------------------------- trailer

  /** A file that merges several mods: a header or a leading-region line says so. */
  predicate IsMaster(doc: Doc) {
    MasterKey(doc) || AnyContainsFolded(GlobalLines(doc), "merged mods")
  }

  predicate MasterKey(doc: Doc) {
    |doc| > 0 && ((doc[0].key.Named? && Contains(Lower(doc[0].key.header), "master")) || MasterKey(doc[1..]))
  }

  /** Python's `sections.get('global', [])`. */
  function GlobalLines(doc: Doc): seq<string> {
    match KeyIndex(doc, Global)
    case Some(i) => doc[i].lines
    case None => []
  }

  /** The profile-information sections appended to a single mod's file, each
      led by a blank line. */
  function Trailer(folder: string, profileId: int): seq<string> {
    InfoBlock(profileId) + KeyShowBlock(folder) + ResourceInfoBlock(folder)
  }

  /** `[CommandListProfileInfo]`: shows the notification once and records the profile id. */
  function InfoBlock(profileId: int): seq<string> {
    ["", ProfileInfoHeader, ShowOnceLine, NotificationLine, FormatLine, TimeoutLine,
     ProfileIdPrefix + IntToString(profileId), ShownLine, "endif"]
  }

  /** `[KeyShowProfile]`: the key that shows the notification, gated on the slot. */
  function KeyShowBlock(folder: string): seq<string> {
    ["", KeyShowHeader, "condition = $mod_enabled && " + KeyCondition(folder) + DetectedSuffix,
     KeyboardLine, PadLine, "type = press", "$profileinfo = 0", RunInfoLine]
  }

  /** `[ResourceProfileInfo]`: the notification text naming the character folder. */
  function ResourceInfoBlock(folder: string): seq<string> {
    ["", ResourceInfoHeader, "type = Buffer", "data = \"MIMM - " + folder + "\""]
  }

  const ProfileInfoHeader := "[CommandListProfileInfo]"
  const KeyShowHeader := "[KeyShowProfile]"
  const ResourceInfoHeader := "[ResourceProfileInfo]"
  const ShowOnceLine := "if $profileinfo == 0 && $active == 1"
  const NotificationLine := "    pre Resource\\ShaderFixes\\help.ini\\Notification = ResourceProfileInfo"
  const FormatLine := "    pre run = CustomShader\\ShaderFixes\\help.ini\\FormatText"
  const TimeoutLine := "    pre $\\ShaderFixes\\help.ini\\notification_timeout = time + 2.0"
  const ProfileIdPrefix := "    $\\" + RootNamespace + "\\profile_manager\\active_profile_id = "
  const ShownLine := "    $profileinfo = 1"
  const DetectedSuffix := " && $object_detected"
  const KeyboardLine := "key = no_ctrl alt shift w"
  const PadLine := "key = XB_LEFT_THUMB XB_B"
  const RunInfoLine := "run = CommandListProfileInfo"

  // ------------------------------------------------------------------ output

  /** Python's `rstrip()` of the written text, by lines: trailing blank lines
      go and the last remaining line loses its trailing whitespace. */
  function TrimEnd(lines: seq<string>): seq<string> {
    match LastNonBlank(lines)
    case None => []
    case Some(j) => lines[..j] + [RStrip(lines[j])]
  }

  /** Python's `lstrip()` of the written text, by lines. */
  function TrimStart(lines: seq<string>): seq<string> {
    match FirstNonBlank(lines)
    case None => []
    case Some(j) => [LStrip(lines[j])] + lines[j + 1..]
  }

  /** Steps 3 and 4: the sections as they are written. */
  function Written(doc: Doc, text: seq<string>, slot: int, folder: string): Doc
    requires Led(doc)
  {
    GateAll(Augment(doc, text, slot, folder), folder)
  }

  /** The written text: the sections serialized and right-trimmed, the
      trailer appended, and the whole left-trimmed. */
  function Output(body: Doc, tail: seq<string>): seq<string> {
    TrimStart(TrimEnd(Emit(body)) + tail)
  }

  /** The profile sections for a recorded id; nothing without one. */
  function ProfileTail(folder: string, profileId: Option<int>): seq<string> {
    match profileId
    case Some(id) => Trailer(folder, id)
    case None => []
  }

  /** The rewrite with the profile sections given as `trailer`, which a file
      merging several mods does not receive. */
  function RewriteWith(text: seq<string>, slot: int, folder: string, trailer: seq<string>): seq<string> {
    var doc := Parse(text);
    ShapedLed(doc);
    Output(Written(doc, text, slot, folder), if IsMaster(doc) then [] else trailer)
  }

  /** The rewritten file for a mod in `slot` under the character folder
      `folder`; `profileId` is the id recorded for the profile, if any. */
  function Rewrite(text: seq<string>, slot: int, folder: string, profileId: Option<int>): seq<string> {
    RewriteWith(text, slot, folder, ProfileTail(folder, profileId))
  }

  lemma {:induction false} TrailerShape(folder: string, profileId: int)
    ensures var t := Trailer(folder, profileId);
      |t| >= 2 && Blank(t[0]) && !Blank(t[1]) && LStrip(t[1]) == t[1]
  {
    var b := InfoBlock(profileId);
    InfoBlockShape(profileId);
    var t := Trailer(folder, profileId);
    assert t[0] == b[0] && t[1] == b[1];
  }

  lemma {:induction false} InfoBlockShape(profileId: int)
    ensures var b := InfoBlock(profileId);
      |b| >= 2 && Blank(b[0]) && !Blank(b[1]) && LStrip(b[1]) == b[1]
  {
    var b := InfoBlock(profileId);
    var h := b[1];
    assert h[0] == '[' && h[|h| - 1] == ']';
    StripNoop(h);
    LStripNoop(h);
    assert Strip(b[0]) == "";
  }

  /** Left-trimming a text that ends with a blank line followed by a line
      without leading whitespace keeps that ending whole. */
  lemma {:induction false} TrimStartKeepsEnding(x: seq<string>, t: seq<string>)
    requires |t| >= 2 && Blank(t[0]) && !Blank(t[1]) && LStrip(t[1]) == t[1]
    ensures var r := TrimStart(x + t);
      |r| >= |t| - 1 && r[|r| - (|t| - 1)..] == t[1..]
  {
    var y := x + t;
    assert y[|x|] == t[0] && y[|x| + 1] == t[1];
    var r := TrimStart(y);
    var j := FirstNonBlank(y).value;
    if j < |x| {
      assert r == [LStrip(y[j])] + y[j + 1..];
      assert r[|r| - (|t| - 1)..] == y[|y| - (|t| - 1)..];
    } else {
      assert j == |x| + 1;
      assert r == [t[1]] + t[2..];
    }
  }

  /** A single mod's file with a recorded profile id ends with the profile
      sections, whatever its body; a file merging several mods never receives
      them, whatever id is recorded. */
  lemma {:induction false} RewriteTrailer(text: seq<string>, slot: int, folder: string, profileId: Option<int>)
    ensures var r := Rewrite(text, slot, folder, profileId);
      var t := if profileId.Some? then Trailer(folder, profileId.value) else [];
      !IsMaster(Parse(text)) && profileId.Some? ==>
        |r| >= |t| - 1 && r[|r| - (|t| - 1)..] == t[1..]
    ensures IsMaster(Parse(text)) ==> Rewrite(text, slot, folder, profileId) == Rewrite(text, slot, folder, None)
  {
    var doc := Parse(text);
    if !IsMaster(doc) && profileId.Some? {
      ShapedLed(doc);
      var x := TrimEnd(Emit(Written(doc, text, slot, folder)));
      TrailerShape(folder, profileId.value);
      TrimStartKeepsEnding(x, Trailer(folder, profileId.value));
    }
  }

  /** A profile record as far as the rewrite looks at it. */
  datatype Profile = Profile(folderName: Option<string>, profileId: Option<int>)

  /** The id recorded by the first profile of the current category that uses
      `folder`; `None` for a missing game or category, as the `KeyError` handler gives. */
  function ProfileIdFor(profiles: Option<seq<Profile>>, folder: string): (r: Option<int>)
    ensures profiles.None? ==> r.None?
    ensures profiles.Some? ==> match ProfileIndexFrom(profiles.value, folder, 0)
      case Some(i) => r == profiles.value[i].profileId
      case None => r.None?
  {
    match profiles
    case None => None
    case Some(ps) =>
      match ProfileIndexFrom(ps, folder, 0)
      case Some(i) => ps[i].profileId
      case None => None
  }

  /** Index of the first profile at or after `k` whose folder is `folder`. */
  function ProfileIndexFrom(ps: seq<Profile>, folder: string, k: nat): (r: Option<nat>)
    requires k <= |ps|
    ensures r.Some? ==> k <= r.value < |ps| && ps[r.value].folderName == Some(folder)
    ensures r.Some? ==> forall j :: k <= j < r.value ==> ps[j].folderName != Some(folder)
    ensures r.None? ==> forall j :: k <= j < |ps| ==> ps[j].folderName != Some(folder)
    decreases |ps| - k
  {
    if k == |ps| then None
    else if ps[k].folderName == Some(folder) then Some(k)
    else ProfileIndexFrom(ps, folder, k + 1)
  }

  /** The whole operation: a missing file is left alone (`None`), anything else is rewritten. */
  function RewriteFile(file: Option<seq<string>>, profiles: Option<seq<Profile>>, slot: int, folder: string): (r: Option<seq<string>>)
    ensures r.Some? <==> file.Some?
  {
    match file
    case None => None
    case Some(text) => Some(Rewrite(text, slot, folder, ProfileIdFor(profiles, folder)))
  }
}

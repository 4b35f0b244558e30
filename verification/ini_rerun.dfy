/**
 * Running `_rewrite_ini_file` (main.py) on its own output. The second run
 * completes what the first left open (a key section that had no `condition`
 * line, a `$mod_enabled` declaration whose only mention the first run
 * dropped); from then on the rewrite reproduces the file it reads.
 */
module IniRerun {
  import opened Text
  import opened Wrappers
  import opened Seqs
  import opened IniDoc
  import opened IniSections
  import opened IniRewrite
  import opened IniSettle
  import opened IniWritten

  // ------------------------------------------------------------ mentions

  /** A word the trims cannot cut: it neither starts nor ends with whitespace. */
  predicate Solid(w: string) {
    |w| > 0 && !IsSpace(w[0]) && !IsSpace(w[|w| - 1])
  }

  lemma {:induction false} ModEnabledSolid()
    ensures Solid(ModEnabledVar) && |ModEnabledVar| > 5
  {
    assert |ModEnabledVar| == 12;
  }

  lemma {:induction false} AnyContainsMember(lines: seq<string>, i: nat, w: string)
    requires i < |lines| && Contains(lines[i], w)
    ensures AnyContains(lines, w)
  {
    AnyContainsAt(lines, w);
  }

  lemma {:induction false} AnyContainsCons(l: string, rest: seq<string>, w: string)
    ensures AnyContains([l] + rest, w) <==> Contains(l, w) || AnyContains(rest, w)
  {
    assert ([l] + rest)[1..] == rest;
  }

  /** No line of a blank text holds a non-empty word. */
  lemma {:induction false} EmptyLacks(w: string)
    requires |w| > 0
    ensures !Contains("", w)
  {
  }

  /** A line holding a solid word is not blank. */
  lemma {:induction false} HolderNotBlank(l: string, w: string)
    requires Solid(w)
    ensures Contains(l, w) ==> !Blank(l)
  {
    ContainsStrip(l, w);
  }

  /** Whitespace in front of a text hides no word that starts with a non-space. */
  lemma {:induction false} ContainsPadded(pad: string, t: string, w: string)
    requires IsBlank(pad) && |w| > 0 && !IsSpace(w[0])
    ensures Contains(pad + t, w) <==> Contains(t, w)
  {
    LStripPad(pad, t);
    ContainsLStrip(pad + t, w);
    ContainsLStrip(t, w);
  }

  lemma {:induction false} UnindentMentions(l: string, w: string)
    requires Solid(w)
    ensures Contains(Unindent(l), w) <==> Contains(l, w)
  {
    UnindentStrip(l);
    ContainsLStrip(Unindent(l), w);
    ContainsLStrip(l, w);
  }

  lemma {:induction false} IndentedMentions(l: string, w: string)
    requires Solid(w)
    ensures Contains(Pad + LStrip(l), w) <==> Contains(l, w)
  {
    ContainsPadded(Pad, LStrip(l), w);
    ContainsLStrip(l, w);
  }

  lemma {:induction false} LTouchMentions(lines: seq<string>, w: string)
    requires Solid(w)
    ensures AnyContains(LTouch(lines), w) <==> AnyContains(lines, w)
  {
    if |lines| > 0 {
      ContainsLStrip(lines[0], w);
      AnyContainsCons(LStrip(lines[0]), lines[1..], w);
      AnyContainsCons(lines[0], lines[1..], w);
      assert lines == [lines[0]] + lines[1..];
    }
  }

  lemma {:induction false} RTouchMentions(lines: seq<string>, w: string)
    requires Solid(w)
    ensures AnyContains(RTouch(lines), w) <==> AnyContains(lines, w)
  {
    if |lines| > 0 {
      var n := |lines|;
      ContainsRStrip(lines[n - 1], w);
      AnyContainsConcat(lines[..n - 1], [RStrip(lines[n - 1])], w);
      AnyContainsConcat(lines[..n - 1], [lines[n - 1]], w);
      AnyContainsCons(RStrip(lines[n - 1]), [], w);
      AnyContainsCons(lines[n - 1], [], w);
      assert lines == lines[..n - 1] + [lines[n - 1]];
    }
  }

  // ------------------------------------------------- mentions in sections

  /** A section mentions `w` when its header or one of its lines holds it. */
  predicate Mentions(s: Section, w: string) {
    AnyContains(Chunk(s), w)
  }

  lemma {:induction false} MentionsByLines(s: Section, t: Section, w: string)
    requires s.key == t.key && (AnyContains(s.lines, w) ==> AnyContains(t.lines, w))
    ensures Mentions(s, w) ==> Mentions(t, w)
  {
    if s.key.Named? {
      AnyContainsCons(s.key.header, s.lines, w);
      AnyContainsCons(t.key.header, t.lines, w);
    }
  }

  /** A document's text mentions `w` exactly when one of its sections does. */
  lemma {:induction false} FlattenMentions(doc: Doc, w: string)
    ensures AnyContains(Flatten(doc), w) <==> exists j :: 0 <= j < |doc| && Mentions(doc[j], w)
    decreases |doc|
  {
    if |doc| > 0 {
      var n := |doc|;
      var front := doc[..n - 1];
      FlattenMentions(front, w);
      AnyContainsConcat(Flatten(front), Chunk(doc[n - 1]), w);
      if exists j :: 0 <= j < n - 1 && Mentions(front[j], w) {
        var j :| 0 <= j < n - 1 && Mentions(front[j], w);
        assert front[j] == doc[j];
      }
      if exists j :: 0 <= j < n && Mentions(doc[j], w) {
        var j :| 0 <= j < n && Mentions(doc[j], w);
        if j < n - 1 {
          assert front[j] == doc[j];
        }
      }
    }
  }

  /** Mentions carried section by section carry over to the whole text. */
  lemma {:induction false} MentionsCarried(a: Doc, b: Doc, w: string)
    requires |a| <= |b| && forall j :: 0 <= j < |a| && Mentions(a[j], w) ==> Mentions(b[j], w)
    ensures AnyContains(Flatten(a), w) ==> AnyContains(Flatten(b), w)
  {
    FlattenMentions(a, w);
    FlattenMentions(b, w);
    if AnyContains(Flatten(a), w) {
      var j :| 0 <= j < |a| && Mentions(a[j], w);
      assert Mentions(b[j], w);
    }
  }

  /** The separators the writer adds hold no word. */
  lemma {:induction false} EmitMentions(doc: Doc, w: string)
    requires |w| > 0
    ensures AnyContains(Emit(doc), w) <==> AnyContains(Flatten(doc), w)
    decreases |doc|
  {
    if |doc| > 0 {
      var n := |doc|;
      var s := doc[n - 1];
      EmitMentions(doc[..n - 1], w);
      AnyContainsConcat(Emit(doc[..n - 1]), EmitChunk(s), w);
      AnyContainsConcat(Flatten(doc[..n - 1]), Chunk(s), w);
      if s.key.Named? {
        EmptyLacks(w);
        AnyContainsCons("", Chunk(s), w);
        assert EmitChunk(s) == [""] + Chunk(s);
      }
    }
  }

  /** The shown text mentions a word exactly when the sections do. */
  lemma {:induction false} ShownMentions(doc: Doc, w: string)
    requires |doc| >= 2 && doc[0].key == Global && doc[1].key.Named? && |w| > 0
    ensures AnyContains(Shown(doc), w) <==> AnyContains(Flatten(doc), w)
  {
    EmitMentions(doc, w);
    var e := Emit(doc);
    if |doc[0].lines| == 0 {
      EmitBareStart(doc);
      EmptyLacks(w);
      AnyContainsCons(e[0], e[1..], w);
      assert e == [e[0]] + e[1..];
    }
  }

  // -------------------------------------------------- mentions in gating

  lemma {:induction false} RepairLineMentions(l: string, folder: string, w: string)
    requires Solid(w)
    ensures Contains(l, w) ==> Contains(RepairLine(l, folder), w)
  {
    if IsConditionLine(l) && !Contains(l, KeyCondition(folder)) && Contains(l, w) {
      ContainsStrip(l, w);
      ContainsAppendRight(Strip(l), " && ", w);
      ContainsAppendRight(Strip(l) + " && ", KeyCondition(folder), w);
    }
  }

  lemma {:induction false} RepairKeyMentions(lines: seq<string>, folder: string, w: string)
    requires Solid(w)
    ensures AnyContains(lines, w) ==> AnyContains(RepairKey(lines, folder), w)
  {
    var r := RepairAll(lines, folder);
    if AnyContains(lines, w) {
      AnyContainsAt(lines, w);
      var i :| 0 <= i < |lines| && Contains(lines[i], w);
      RepairAllAt(lines, folder, i);
      RepairLineMentions(lines[i], folder, w);
      AnyContainsMember(r, i, w);
      if !HasCondition(lines) {
        AnyContainsCons(InsertedCondition(folder), r, w);
      }
    }
  }

  /** A line holding a solid word longer than `endif` that the guard line does
      not hold lies strictly inside the guard. */
  lemma {:induction false} HolderInside(lines: seq<string>, folder: string, w: string, i: nat)
    requires Solid(w) && |w| > 5 && !Contains(Wrapper(folder), w)
    requires IsGuarded(lines, folder) && i < |lines| && Contains(lines[i], w)
    ensures FirstNonBlank(lines).value < i < LastNonBlank(lines).value
  {
    var fi := FirstNonBlank(lines).value;
    var li := LastNonBlank(lines).value;
    HolderNotBlank(lines[i], w);
    ContainsStrip(lines[fi], w);
    WrapperStripped(folder);
    ContainsStrip(lines[li], w);
    assert |Strip(lines[li])| == 5;
  }

  /** Peeling a guard keeps every solid word except one the guard line itself holds. */
  lemma {:induction false} UnwrapMentions(lines: seq<string>, folder: string, w: string)
    requires Solid(w) && |w| > 5 && !Contains(Wrapper(folder), w)
    ensures AnyContains(lines, w) ==> AnyContains(Unwrap(lines, folder), w)
    decreases |lines|
  {
    if IsGuarded(lines, folder) && AnyContains(lines, w) {
      var fi := FirstNonBlank(lines).value;
      var li := LastNonBlank(lines).value;
      AnyContainsAt(lines, w);
      var i :| 0 <= i < |lines| && Contains(lines[i], w);
      HolderInside(lines, folder, w, i);
      var inside := Inside(lines, folder);
      assert inside[i - fi - 1] == lines[i];
      var u := UnindentAll(inside);
      UnindentMentions(lines[i], w);
      AnyContainsMember(u, i - fi - 1, w);
      UnwrapMentions(u, folder, w);
    }
  }

  lemma {:induction false} GuardMentions(lines: seq<string>, folder: string, w: string)
    requires Solid(w) && |w| > 5
    ensures AnyContains(lines, w) ==> AnyContains(Guard(lines, folder), w)
  {
    var g := Guard(lines, folder);
    var u := Unwrap(lines, folder);
    assert g[0] == Wrapper(folder);
    if Contains(Wrapper(folder), w) {
      AnyContainsMember(g, 0, w);
    } else if AnyContains(lines, w) {
      UnwrapMentions(lines, folder, w);
      AnyContainsAt(u, w);
      var i :| 0 <= i < |u| && Contains(u[i], w);
      IndentedMentions(u[i], w);
      assert g[i + 1] == Indent(u)[i];
      AnyContainsMember(g, i + 1, w);
    }
  }

  lemma {:induction false} GateMentions(s: Section, folder: string, w: string)
    requires Solid(w) && |w| > 5
    ensures Mentions(s, w) ==> Mentions(Gate(s, folder), w)
  {
    var g := Gate(s, folder);
    match s.key
    case Global =>
    case Named(h) =>
      match TreatmentOf(h)
      case PassThrough =>
      case KeyRepair =>
        RepairKeyMentions(s.lines, folder, w);
        MentionsByLines(s, g, w);
      case Guarded =>
        GuardMentions(s.lines, folder, w);
        MentionsByLines(s, g, w);
  }

  lemma {:induction false} GateAllMentions(doc: Doc, folder: string, w: string)
    requires Solid(w) && |w| > 5
    ensures AnyContains(Flatten(doc), w) ==> AnyContains(Flatten(GateAll(doc, folder)), w)
  {
    var g := GateAll(doc, folder);
    forall j | 0 <= j < |doc| && Mentions(doc[j], w)
      ensures Mentions(g[j], w)
    {
      GateMentions(doc[j], folder, w);
    }
    MentionsCarried(doc, g, w);
  }

  lemma {:induction false} TouchMentionsAll(doc: Doc, w: string)
    requires |doc| >= 2 && Solid(w)
    ensures AnyContains(Flatten(doc), w) ==> AnyContains(Flatten(Touch(doc)), w)
  {
    var t := Touch(doc);
    TouchAt(doc);
    forall j | 0 <= j < |doc| && Mentions(doc[j], w)
      ensures Mentions(t[j], w)
    {
      if j == 0 {
        LTouchMentions(doc[0].lines, w);
        MentionsByLines(doc[0], t[0], w);
      } else if j == |doc| - 1 {
        RTouchMentions(doc[j].lines, w);
        MentionsByLines(doc[j], t[j], w);
      }
    }
    MentionsCarried(doc, t, w);
  }

  // -------------------------------------------------- mentions in step 3

  lemma {:induction false} IntToStringNoDollar(i: int)
    ensures '$' !in IntToString(i)
  {
    var n := if i < 0 then -i else i;
    var d := NatToString(n);
    assert forall k :: 0 <= k < |d| ==> d[k] != '$';
    if i < 0 {
      assert IntToString(i) == "-" + d;
    }
  }

  /** The managed-slot line does not mention `$mod_enabled`. */
  lemma {:induction false} ManagedLineLacks(slot: int)
    ensures !Contains(ManagedLine(slot), ModEnabledVar)
  {
    var b := " = " + IntToString(slot);
    IntToStringNoDollar(slot);
    assert '$' !in b;
    assert ManagedLine(slot) == "global " + ManagedVar + b;
    NotContainsAround("global ", ManagedVar, b, ModEnabledVar, 2);
  }

  lemma {:induction false} AddDetectionMentions(doc: Doc, c: nat, folder: string, w: string)
    requires c < |doc| && !HookKey(doc[c].key) && !PresentKey(doc[c].key)
    ensures AnyContains(Flatten(doc), w) ==> AnyContains(Flatten(AddDetection(doc, c, folder)), w)
  {
    var r := AddDetection(doc, c, folder);
    AddDetectionSpec(doc, c, folder);
    var hook := FirstHookFrom(doc, 0);
    var present := PresentFrom(doc, 0);
    forall j | 0 <= j < |doc| && Mentions(doc[j], w)
      ensures Mentions(r[j], w)
    {
      if j == c {
        AnyContainsConcat(doc[c].lines, [DetectedLine], w);
      } else if Some(j) == hook {
        AnyContainsConcat([ActivationLine], doc[j].lines, w);
      } else if Some(j) == present {
        AnyContainsConcat(doc[j].lines, ResetBlock(folder), w);
      }
      MentionsByLines(doc[j], r[j], w);
    }
    MentionsCarried(doc, r, w);
  }

  /** `[Constants]` as a finished rewrite leaves its lines: the managed-slot
      line first, no other line mentioning `$managed_slot_id`, the detection
      flag declared. */
  predicate ConstantsLinesOk(lines: seq<string>, slot: int) {
    && |lines| >= 1
    && lines[0] == ManagedLine(slot)
    && !AnyContains(lines[1..], ManagedVar)
    && AnyContains(lines, DetectedVar)
  }

  predicate ConstantsOk(doc: Doc, slot: int) {
    && KeyIndex(doc, Named(ConstantsHeader)).Some?
    && ConstantsLinesOk(doc[KeyIndex(doc, Named(ConstantsHeader)).value].lines, slot)
  }

  /** Step 3 on a document whose `[Constants]` is finished keeps every mention
      of `$mod_enabled`: the only line it drops is the managed-slot line. */
  lemma {:induction false} AugmentMentions(doc: Doc, text: seq<string>, slot: int, folder: string)
    requires Led(doc) && ConstantsOk(doc, slot)
    ensures AnyContains(Flatten(doc), ModEnabledVar) ==> AnyContains(Flatten(Augment(doc, text, slot, folder)), ModEnabledVar)
  {
    var w := ModEnabledVar;
    var c := KeyIndex(doc, Named(ConstantsHeader)).value;
    assert WithConstants(doc) == doc;
    assert ConstantsIndex(doc) == c;
    var lines := doc[c].lines;
    var u := UpdateConstants(lines, slot, AnyContains(text, w));
    var d2 := SetLines(doc, c, u);
    if AnyContains(lines, w) {
      AnyContainsAt(lines, w);
      var i :| 0 <= i < |lines| && Contains(lines[i], w);
      ManagedLineLacks(slot);
      assert i >= 1;
      assert lines[1..][i - 1] == lines[i];
      AnyContainsAt(lines[1..], ManagedVar);
      assert !Contains(lines[i], ManagedVar);
      DropManagedMembers(lines, lines[i]);
      var k :| 0 <= k < |DropManaged(lines)| && DropManaged(lines)[k] == lines[i];
      assert u[1 + k] == lines[i];
      AnyContainsMember(u, 1 + k, w);
    }
    forall j | 0 <= j < |doc| && Mentions(doc[j], w)
      ensures Mentions(d2[j], w)
    {
      MentionsByLines(doc[j], d2[j], w);
    }
    MentionsCarried(doc, d2, w);
    if !AnyContains(u, DetectedVar) {
      ConstantsNotTarget();
      AddDetectionMentions(d2, c, folder, w);
    }
  }

  /** Some line of `lines` is the `$mod_enabled` declaration, so the lines mention it. */
  lemma {:induction false} DeclaredMentions(lines: seq<string>)
    requires ModEnabledLine in lines
    ensures AnyContains(lines, ModEnabledVar)
  {
    var i :| 0 <= i < |lines| && lines[i] == ModEnabledLine;
    ModEnabledLineSilent();
    AnyContainsMember(lines, i, ModEnabledVar);
  }

  /** Step 3 declares `$mod_enabled` in `[Constants]` for a file that never mentioned it. */
  lemma {:induction false} AugmentDeclares(doc: Doc, text: seq<string>, slot: int, folder: string)
    requires Shaped(doc) && !AnyContains(text, ModEnabledVar)
    ensures Led(doc)
    ensures var a := Augment(doc, text, slot, folder);
      var c := ConstantsIndex(doc);
      && c < |a| && a[c].key == Named(ConstantsHeader)
      && AnyContains(a[c].lines, ModEnabledVar)
  {
    ShapedLed(doc);
    AugmentShaped(doc, text, slot, folder);
    AugmentConstantsSpec(doc, text, slot, folder);
    DeclaredMentions(Augment(doc, text, slot, folder)[ConstantsIndex(doc)].lines);
  }

  lemma {:induction false} WrittenDeclares(doc: Doc, text: seq<string>, slot: int, folder: string)
    requires Shaped(doc) && !AnyContains(text, ModEnabledVar)
    ensures Led(doc) && AnyContains(Flatten(Written(doc, text, slot, folder)), ModEnabledVar)
  {
    ShapedLed(doc);
    var a := Augment(doc, text, slot, folder);
    var c := ConstantsIndex(doc);
    AugmentDeclares(doc, text, slot, folder);
    var g := Written(doc, text, slot, folder);
    ConstantsFolded();
    GatePassThrough(a[c], folder);
    assert g[c] == a[c];
    AnyContainsCons(ConstantsHeader, a[c].lines, ModEnabledVar);
    assert Mentions(g[c], ModEnabledVar);
    FlattenMentions(g, ModEnabledVar);
  }

  lemma {:induction false} ConstantsFolded()
    ensures Lower(ConstantsHeader) == "[constants]"
  {
    var l := Lower(ConstantsHeader);
    LowerAt(ConstantsHeader);
    assert l[0] == '[' && l[1] == 'c' && l[2] == 'o' && l[3] == 'n' && l[4] == 's' && l[5] == 't';
    assert l[6] == 'a' && l[7] == 'n' && l[8] == 't' && l[9] == 's' && l[10] == ']';
  }

  /** A word the sections hold reaches the written text. */
  lemma {:induction false} OutputMentions(doc: Doc, tail: seq<string>, w: string)
    requires WellFormed(doc) && |doc| >= 2 && Solid(w)
    ensures AnyContains(Flatten(doc), w) ==> AnyContains(Output(doc, tail), w)
  {
    var t := Touch(doc);
    OutputForm(doc, tail);
    TouchAt(doc);
    assert KeysOf(doc)[0] == Global && ValidNamedKey(KeysOf(doc)[1]);
    TouchMentionsAll(doc, w);
    ShownMentions(t, w);
    AnyContainsConcat(Shown(t), tail, w);
  }

  /** The written text of a file that never mentions `$mod_enabled` does. */
  lemma {:induction false} RewriteWithDeclares(text: seq<string>, slot: int, folder: string, trailer: seq<string>)
    ensures !AnyContains(text, ModEnabledVar) ==> AnyContains(RewriteWith(text, slot, folder, trailer), ModEnabledVar)
  {
    var doc := Parse(text);
    if !AnyContains(text, ModEnabledVar) {
      ParseWellFormed(text);
      WrittenDeclares(doc, text, slot, folder);
      WrittenWellFormed(doc, text, slot, folder);
      ModEnabledSolid();
      OutputMentions(Written(doc, text, slot, folder), if IsMaster(doc) then [] else trailer, ModEnabledVar);
    }
  }

  // ------------------------------------------------ finished [Constants]

  lemma {:induction false} VarsSolid()
    ensures Solid(ManagedVar) && Solid(DetectedVar)
  {
  }

  lemma {:induction false} ManagedLineEnd(slot: int)
    ensures RStrip(ManagedLine(slot)) == ManagedLine(slot)
  {
    var d := IntToString(slot);
    var m := ManagedLine(slot);
    assert m == ("global " + ManagedVar + " = ") + d;
    assert m[|m| - 1] == d[|d| - 1];
    RStripNoop(m);
  }

  /** The final `rstrip` leaves a finished `[Constants]` finished. */
  lemma {:induction false} RTouchConstants(lines: seq<string>, slot: int)
    requires ConstantsLinesOk(lines, slot)
    ensures ConstantsLinesOk(RTouch(lines), slot)
  {
    var r := RTouch(lines);
    VarsSolid();
    RTouchMentions(lines, DetectedVar);
    if |lines| == 1 {
      ManagedLineEnd(slot);
      assert r == lines;
    } else {
      assert r[0] == lines[0];
      assert r[1..] == RTouch(lines[1..]);
      RTouchMentions(lines[1..], ManagedVar);
    }
  }

  /** Steps 3 and 4 always leave `[Constants]` finished. */
  lemma {:induction false} WrittenConstantsOk(doc: Doc, text: seq<string>, slot: int, folder: string)
    requires Shaped(doc)
    ensures Led(doc) && ConstantsOk(Written(doc, text, slot, folder), slot)
  {
    ShapedLed(doc);
    var a := Augment(doc, text, slot, folder);
    var g := Written(doc, text, slot, folder);
    var c := ConstantsIndex(doc);
    AugmentShaped(doc, text, slot, folder);
    AugmentConstantsSpec(doc, text, slot, folder);
    KeyIndexSameKeys(g, a, Named(ConstantsHeader));
    ConstantsFolded();
    GatePassThrough(a[c], folder);
  }

  /** The trims leave `[Constants]` finished. */
  lemma {:induction false} TouchConstantsOk(doc: Doc, slot: int)
    requires |doc| >= 2 && Led(doc) && ConstantsOk(doc, slot)
    ensures ConstantsOk(Touch(doc), slot)
  {
    var t := Touch(doc);
    TouchAt(doc);
    KeyIndexSameKeys(t, doc, Named(ConstantsHeader));
    var c := KeyIndex(doc, Named(ConstantsHeader)).value;
    if c == |doc| - 1 {
      RTouchConstants(doc[c].lines, slot);
    }
  }

  // ----------------------------------------------------- settled gating

  /** Every section is as gating leaves it. */
  predicate GateFixed(doc: Doc, folder: string) {
    forall i :: 0 <= i < |doc| ==> Gate(doc[i], folder) == doc[i]
  }

  predicate KeyRepairSection(s: Section) {
    s.key.Named? && TreatmentOf(s.key.header) == KeyRepair
  }

  /** Every key section has a `condition` line. */
  predicate KeysConditioned(doc: Doc) {
    forall i :: 0 <= i < |doc| && KeyRepairSection(doc[i]) ==> HasCondition(doc[i].lines)
  }

  /** One pass of gating settles a section unless it is a key section without a `condition` line. */
  lemma {:induction false} GateOnceFixed(s: Section, folder: string)
    requires KeyRepairSection(s) ==> HasCondition(s.lines)
    ensures Gate(Gate(s, folder), folder) == Gate(s, folder)
  {
    match s.key
    case Global =>
    case Named(h) =>
      match TreatmentOf(h)
      case PassThrough =>
      case KeyRepair => RepairKeySettles(s.lines, folder);
      case Guarded => GuardIdempotent(s.lines, folder);
  }

  lemma {:induction false} ConstantsTreatment()
    ensures TreatmentOf(ConstantsHeader) == PassThrough
  {
    ConstantsFolded();
  }

  lemma {:induction false} PresentTreatment(k: Key)
    requires PresentKey(k)
    ensures TreatmentOf(k.header) == Guarded
  {
    var l := Lower(k.header);
    assert l[1] == 'p' && |l| == 9;
  }

  lemma {:induction false} HookTreatment(k: Key)
    requires HookKey(k)
    ensures TreatmentOf(k.header) != KeyRepair
  {
    var l := Lower(k.header);
    if StartsWith(l, "[textureoverride") {
      assert l[..16][1] == 't';
    } else {
      assert l[..15][1] == 's';
    }
  }

  lemma {:induction false} PresentHeaderTreatment()
    ensures PresentKey(Named(PresentHeader)) && TreatmentOf(PresentHeader) == Guarded
  {
    PresentHeaderFolded();
    PresentTreatment(Named(PresentHeader));
  }

  lemma {:induction false} AddDetectionConditioned(doc: Doc, c: nat, folder: string)
    requires c < |doc| && doc[c].key == Named(ConstantsHeader) && KeysConditioned(doc)
    ensures !HookKey(doc[c].key) && !PresentKey(doc[c].key)
    ensures KeysConditioned(AddDetection(doc, c, folder))
  {
    ConstantsNotTarget();
    ConstantsTreatment();
    PresentHeaderTreatment();
    var r := AddDetection(doc, c, folder);
    AddDetectionSpec(doc, c, folder);
    var hook := FirstHookFrom(doc, 0);
    forall j | 0 <= j < |r| && KeyRepairSection(r[j])
      ensures HasCondition(r[j].lines)
    {
      if j < |doc| && Some(j) == hook {
        HookTreatment(doc[j].key);
      }
    }
  }

  lemma {:induction false} AugmentConditioned(doc: Doc, text: seq<string>, slot: int, folder: string)
    requires Led(doc) && KeysConditioned(doc)
    ensures KeysConditioned(Augment(doc, text, slot, folder))
  {
    ConstantsTreatment();
    var d1 := WithConstants(doc);
    if KeyIndex(doc, Named(ConstantsHeader)).None? {
      forall j | 0 <= j < |d1| && KeyRepairSection(d1[j])
        ensures HasCondition(d1[j].lines)
      {
        if j >= 2 {
          assert d1[j] == doc[j - 1];
        }
      }
    }
    var c := ConstantsIndex(doc);
    var u := UpdateConstants(d1[c].lines, slot, AnyContains(text, ModEnabledVar));
    var d2 := SetLines(d1, c, u);
    if !AnyContains(u, DetectedVar) {
      AddDetectionConditioned(d2, c, folder);
    }
  }

  /** After a pass every key section has a `condition` line. */
  lemma {:induction false} WrittenConditioned(doc: Doc, text: seq<string>, slot: int, folder: string)
    requires Led(doc)
    ensures KeysConditioned(Written(doc, text, slot, folder))
  {
    var a := Augment(doc, text, slot, folder);
    forall j | 0 <= j < |a| && KeyRepairSection(a[j])
      ensures HasCondition(Gate(a[j], folder).lines)
    {
      RepairKeyHasCondition(a[j].lines, folder);
    }
  }

  /** A pass over a document whose key sections all have a `condition` line
      leaves every section settled. */
  lemma {:induction false} WrittenGateFixed(doc: Doc, text: seq<string>, slot: int, folder: string)
    requires Led(doc) && KeysConditioned(doc)
    ensures GateFixed(Written(doc, text, slot, folder), folder)
  {
    var a := Augment(doc, text, slot, folder);
    AugmentConditioned(doc, text, slot, folder);
    forall j | 0 <= j < |a|
      ensures Gate(Gate(a[j], folder), folder) == Gate(a[j], folder)
    {
      GateOnceFixed(a[j], folder);
    }
  }

  lemma {:induction false} RStripConditionLine(l: string, folder: string)
    ensures IsConditionLine(RStrip(l)) == IsConditionLine(l)
    ensures Contains(RStrip(l), KeyCondition(folder)) == Contains(l, KeyCondition(folder))
  {
    StripOfRStrip(l);
    var k := KeyCondition(folder);
    assert k[0] == '(' && k[|k| - 1] == ')';
    ContainsRStrip(l, k);
  }

  /** The final `rstrip` keeps every line's being a `condition` line, and
      what a `condition` line carries. */
  lemma {:induction false} RTouchLineAt(lines: seq<string>, folder: string, i: nat)
    requires i < |lines|
    ensures IsConditionLine(RTouch(lines)[i]) == IsConditionLine(lines[i])
    ensures Contains(RTouch(lines)[i], KeyCondition(folder)) == Contains(lines[i], KeyCondition(folder))
  {
    var n := |lines|;
    if i < n - 1 {
      assert RTouch(lines)[i] == lines[i];
    } else {
      assert RTouch(lines)[i] == RStrip(lines[n - 1]);
      RStripConditionLine(lines[n - 1], folder);
    }
  }

  lemma {:induction false} RTouchHasCondition(lines: seq<string>, folder: string)
    ensures HasCondition(RTouch(lines)) == HasCondition(lines)
  {
    var r := RTouch(lines);
    HasConditionIff(lines);
    HasConditionIff(r);
    forall i | 0 <= i < |lines|
      ensures IsConditionLine(r[i]) == IsConditionLine(lines[i])
    {
      RTouchLineAt(lines, folder, i);
    }
  }

  lemma {:induction false} RTouchCarries(lines: seq<string>, folder: string)
    requires ConditionsCarryKey(lines, folder)
    ensures ConditionsCarryKey(RTouch(lines), folder)
  {
    var r := RTouch(lines);
    forall i | 0 <= i < |r| && IsConditionLine(r[i])
      ensures Contains(r[i], KeyCondition(folder))
    {
      RTouchLineAt(lines, folder, i);
    }
  }

  /** The final `rstrip` keeps a section's `condition` lines and what they carry. */
  lemma {:induction false} RTouchConditions(lines: seq<string>, folder: string)
    ensures HasCondition(RTouch(lines)) == HasCondition(lines)
    ensures ConditionsCarryKey(lines, folder) ==> ConditionsCarryKey(RTouch(lines), folder)
  {
    RTouchHasCondition(lines, folder);
    if ConditionsCarryKey(lines, folder) {
      RTouchCarries(lines, folder);
    }
  }

  /** A key section the rule leaves alone has a `condition` line, and every one carries the key condition. */
  lemma {:induction false} FixedKeyLines(lines: seq<string>, folder: string)
    requires RepairKey(lines, folder) == lines
    ensures HasCondition(lines) && ConditionsCarryKey(lines, folder)
  {
    assert HasCondition(lines);
    forall i | 0 <= i < |lines| && IsConditionLine(lines[i])
      ensures Contains(lines[i], KeyCondition(folder))
    {
      RepairAllAt(lines, folder, i);
      RepairLineFacts(lines[i], folder);
    }
  }

  /** The final `rstrip` keeps a settled section settled. */
  lemma {:induction false} RTouchGateFixed(s: Section, folder: string)
    requires Gate(s, folder) == s
    ensures Gate(Section(s.key, RTouch(s.lines)), folder) == Section(s.key, RTouch(s.lines))
  {
    var l := s.lines;
    match s.key
    case Global =>
    case Named(h) =>
      match TreatmentOf(h)
      case PassThrough =>
      case KeyRepair =>
        FixedKeyLines(l, folder);
        RTouchConditions(l, folder);
        RepairKeyFixed(RTouch(l), folder);
      case Guarded =>
        assert l == Wrap(Unwrap(l, folder), folder);
        assert l[|l| - 1] == "endif";
        EndifStripped();
        RStripNoop("endif");
        assert RTouch(l) == l;
  }

  lemma {:induction false} TouchGateFixed(doc: Doc, folder: string)
    requires |doc| >= 2 && Led(doc) && GateFixed(doc, folder)
    ensures GateFixed(Touch(doc), folder)
  {
    var t := Touch(doc);
    TouchAt(doc);
    RTouchGateFixed(doc[|doc| - 1], folder);
    assert t[|doc| - 1] == Section(doc[|doc| - 1].key, RTouch(doc[|doc| - 1].lines));
    forall i | 0 <= i < |t|
      ensures Gate(t[i], folder) == t[i]
    {
      if 0 < i < |doc| - 1 {
        assert t[i] == doc[i];
      }
    }
  }

  lemma {:induction false} TouchConditioned(doc: Doc, folder: string)
    requires |doc| >= 2 && Led(doc) && KeysConditioned(doc)
    ensures KeysConditioned(Touch(doc))
  {
    var t := Touch(doc);
    TouchAt(doc);
    RTouchConditions(doc[|doc| - 1].lines, folder);
    forall i | 0 <= i < |t| && KeyRepairSection(t[i])
      ensures HasCondition(t[i].lines)
    {
      if 0 < i < |doc| - 1 {
        assert t[i] == doc[i];
      }
    }
  }

  // ------------------------------------------------------ merged files

  predicate MasterHeader(k: Key) {
    k.Named? && Contains(Lower(k.header), "master")
  }

  /** Some key says the file merges several mods. */
  predicate AnyMaster(ks: seq<Key>) {
    |ks| > 0 && (MasterHeader(ks[0]) || AnyMaster(ks[1..]))
  }

  lemma {:induction false} MasterKeyKeys(doc: Doc)
    ensures MasterKey(doc) == AnyMaster(KeysOf(doc))
    decreases |doc|
  {
    if |doc| > 0 {
      MasterKeyKeys(doc[1..]);
      assert KeysOf(doc)[1..] == KeysOf(doc[1..]);
    }
  }

  lemma {:induction false} AnyMasterConcat(a: seq<Key>, b: seq<Key>)
    ensures AnyMaster(a + b) <==> AnyMaster(a) || AnyMaster(b)
    decreases |a|
  {
    if |a| > 0 {
      assert (a + b)[1..] == a[1..] + b;
      AnyMasterConcat(a[1..], b);
    } else {
      assert a + b == b;
    }
  }

  lemma {:induction false} LacksFirst(s: string, w: string)
    requires |w| > 0 && w[0] !in s
    ensures !Contains(s, w)
  {
  }

  /** The sections step 3 may add do not mark a merged file. */
  lemma {:induction false} AddedNotMaster()
    ensures !MasterHeader(Named(ConstantsHeader)) && !MasterHeader(Named(PresentHeader))
  {
    ConstantsFolded();
    PresentHeaderFolded();
    LacksFirst("[constants]", "master");
    LacksFirst("[present]", "master");
  }

  lemma {:induction false} WithConstantsMaster(doc: Doc)
    requires Shaped(doc)
    ensures Led(doc) && AnyMaster(KeysOf(WithConstants(doc))) == AnyMaster(KeysOf(doc))
  {
    ShapedLed(doc);
    var ks := KeysOf(doc);
    var k1 := KeysOf(WithConstants(doc));
    if KeyIndex(doc, Named(ConstantsHeader)).None? {
      AddedNotMaster();
      var lead := [Global, Named(ConstantsHeader)];
      assert k1 == lead + ks[1..];
      assert ks == [Global] + ks[1..];
      AnyMasterConcat([Global], ks[1..]);
      AnyMasterConcat(lead, ks[1..]);
      assert lead[1..] == [Named(ConstantsHeader)];
      assert lead[1..][1..] == [];
      assert !AnyMaster(lead[1..]);
    }
  }

  lemma {:induction false} AugmentMaster(doc: Doc, text: seq<string>, slot: int, folder: string)
    requires Shaped(doc)
    ensures Led(doc) && AnyMaster(KeysOf(Augment(doc, text, slot, folder))) == AnyMaster(KeysOf(doc))
  {
    WithConstantsMaster(doc);
    var d1 := WithConstants(doc);
    var c := ConstantsIndex(doc);
    var u := UpdateConstants(d1[c].lines, slot, AnyContains(text, ModEnabledVar));
    var d2 := SetLines(d1, c, u);
    SetLinesKeys(d1, c, u, Global);
    if !AnyContains(u, DetectedVar) {
      ConstantsNotTarget();
      AddedNotMaster();
      AddDetectionKeysOf(d2, c, folder);
      AnyMasterConcat(KeysOf(d2), [Named(PresentHeader)]);
      assert [Named(PresentHeader)][1..] == [];
    }
  }

  /** Step 3 keeps the leading region as it is. */
  lemma {:induction false} AugmentLead(doc: Doc, text: seq<string>, slot: int, folder: string)
    requires Led(doc)
    ensures Augment(doc, text, slot, folder)[0] == doc[0]
  {
    var d1 := WithConstants(doc);
    var c := ConstantsIndex(doc);
    var u := UpdateConstants(d1[c].lines, slot, AnyContains(text, ModEnabledVar));
    var d2 := SetLines(d1, c, u);
    if !AnyContains(u, DetectedVar) {
      ConstantsNotTarget();
      AddDetectionSpec(d2, c, folder);
    }
  }

  lemma {:induction false} FoldedLStrip(l: string, w: string)
    requires |w| > 0 && !IsSpace(w[0])
    ensures Contains(Lower(LStrip(l)), w) == Contains(Lower(l), w)
    decreases |l|
  {
    if |l| > 0 && IsSpace(l[0]) {
      FoldedLStrip(l[1..], w);
      LowerAt(l);
      LowerAt(l[1..]);
      assert Lower(l) == [l[0]] + Lower(l[1..]);
      ContainsPadded([l[0]], Lower(l[1..]), w);
    }
  }

  lemma {:induction false} FoldedLTouch(lines: seq<string>, w: string)
    requires |w| > 0 && !IsSpace(w[0])
    ensures AnyContainsFolded(LTouch(lines), w) == AnyContainsFolded(lines, w)
  {
    if |lines| > 0 {
      FoldedLStrip(lines[0], w);
      assert LTouch(lines)[1..] == lines[1..];
    }
  }

  /** A pass keeps a file's verdict as merged or single: the keys it adds do not
      say "master", and the trims keep "merged mods" in the leading region. */
  lemma {:induction false} MasterKept(doc: Doc, text: seq<string>, slot: int, folder: string)
    requires WellFormed(doc)
    ensures Led(doc) && |Written(doc, text, slot, folder)| >= 2
    ensures IsMaster(Touch(Written(doc, text, slot, folder))) == IsMaster(doc)
  {
    WrittenWellFormed(doc, text, slot, folder);
    var a := Augment(doc, text, slot, folder);
    var g := Written(doc, text, slot, folder);
    var t := Touch(g);
    ShapedSameKeys(a, g);
    TouchAt(g);
    ShapedSameKeys(g, t);
    MasterKeyKeys(doc);
    MasterKeyKeys(t);
    AugmentMaster(doc, text, slot, folder);
    AugmentLead(doc, text, slot, folder);
    KeyIndexAt(doc, Global, 0);
    KeyIndexAt(t, Global, 0);
    assert t[0].lines == LTouch(doc[0].lines);
    FoldedLTouch(doc[0].lines, "merged mods");
  }

  // ---------------------------------------------------------- settling

  lemma {:induction false} TouchIdempotent(doc: Doc)
    requires |doc| >= 2
    ensures Touch(Touch(doc)) == Touch(doc)
  {
    var t := Touch(doc);
    TouchAt(doc);
    TouchAt(t);
    var n := |doc|;
    if |doc[0].lines| > 0 {
      LStripIdempotent(doc[0].lines[0]);
      assert LTouch(t[0].lines) == t[0].lines;
    }
    if |doc[n - 1].lines| > 0 {
      var l := doc[n - 1].lines;
      RStripIdempotent(l[|l| - 1]);
      assert RTouch(t[n - 1].lines) == t[n - 1].lines;
    }
    assert forall i :: 0 <= i < n ==> Touch(t)[i] == t[i];
  }

  /** A finished `[Constants]` of a file that mentions `$mod_enabled` is updated to itself. */
  lemma {:induction false} ConstantsSettled(lines: seq<string>, slot: int)
    requires ConstantsLinesOk(lines, slot)
    ensures UpdateConstants(lines, slot, true) == lines
  {
    ManagedLineMentions(slot);
    assert lines == [lines[0]] + lines[1..];
    assert DropManaged(lines) == DropManaged(lines[1..]);
    DropManagedNoop(lines[1..]);
    ConcatEmpty([ManagedLine(slot)] + lines[1..]);
  }

  /** Step 3 leaves a document with a finished `[Constants]` alone once the
      file mentions `$mod_enabled`. */
  lemma {:induction false} AugmentSettled(doc: Doc, text: seq<string>, slot: int, folder: string)
    requires Led(doc) && ConstantsOk(doc, slot) && AnyContains(text, ModEnabledVar)
    ensures Augment(doc, text, slot, folder) == doc
  {
    var c := KeyIndex(doc, Named(ConstantsHeader)).value;
    assert WithConstants(doc) == doc;
    ConstantsSettled(doc[c].lines, slot);
    assert SetLines(doc, c, doc[c].lines) == doc;
  }

  /** A document settled in every respect, read from a text that mentions
      `$mod_enabled`, comes out of steps 3 and 4 unchanged. */
  lemma {:induction false} SettledFixed(doc: Doc, text: seq<string>, slot: int, folder: string)
    requires Shaped(doc) && ConstantsOk(doc, slot) && GateFixed(doc, folder)
    requires AnyContains(text, ModEnabledVar)
    ensures Led(doc) && Written(doc, text, slot, folder) == doc
  {
    ShapedLed(doc);
    AugmentSettled(doc, text, slot, folder);
    assert GateAll(doc, folder) == doc;
  }

  /** One pass of the rewrite over a well-formed document: what it writes, how
      that reads back, and what the read-back document keeps. */
  lemma {:induction false} Pass(doc: Doc, text: seq<string>, slot: int, folder: string, trailer: seq<string>)
    requires WellFormed(doc) && TailGood(trailer)
    ensures Led(doc)
    ensures var w := Written(doc, text, slot, folder);
      var tail := if IsMaster(doc) then [] else trailer;
      && WellFormed(w) && |w| >= 2
      && Output(w, tail) == Shown(Touch(w)) + tail
      && Parse(Output(w, tail)) == Touch(w)
      && WellFormed(Touch(w)) && Led(Touch(w))
      && ConstantsOk(Touch(w), slot)
      && KeysConditioned(Touch(w))
      && IsMaster(Touch(w)) == IsMaster(doc)
  {
    var w := Written(doc, text, slot, folder);
    var tail := if IsMaster(doc) then [] else trailer;
    WrittenWellFormed(doc, text, slot, folder);
    ShapedLed(w);
    OutputForm(w, tail);
    ParseOutput(w, tail);
    TouchWellFormed(w);
    ShapedLed(Touch(w));
    WrittenConstantsOk(doc, text, slot, folder);
    TouchConstantsOk(w, slot);
    WrittenConditioned(doc, text, slot, folder);
    TouchConditioned(w, folder);
    MasterKept(doc, text, slot, folder);
  }

  /** The second pass writes a text that mentions `$mod_enabled`: either the
      first pass's text did, and the mention survives, or the second pass
      declares it. */
  lemma {:induction false} SecondPassMentions(doc: Doc, text: seq<string>, tail: seq<string>, slot: int, folder: string)
    requires WellFormed(doc) && |doc| >= 2 && ConstantsOk(doc, slot)
    requires text == Shown(doc) + tail
    ensures Led(doc) && AnyContains(Output(Written(doc, text, slot, folder), tail), ModEnabledVar)
  {
    var mev := ModEnabledVar;
    ShapedLed(doc);
    ModEnabledSolid();
    var w := Written(doc, text, slot, folder);
    WrittenWellFormed(doc, text, slot, folder);
    OutputForm(w, tail);
    AnyContainsConcat(Shown(Touch(w)), tail, mev);
    if !AnyContains(tail, mev) {
      if AnyContains(text, mev) {
        AnyContainsConcat(Shown(doc), tail, mev);
        assert KeysOf(doc)[0] == Global && ValidNamedKey(KeysOf(doc)[1]);
        ShownMentions(doc, mev);
        AugmentMentions(doc, text, slot, folder);
        GateAllMentions(Augment(doc, text, slot, folder), folder, mev);
      } else {
        WrittenDeclares(doc, text, slot, folder);
      }
      OutputMentions(w, tail, mev);
    }
  }

  /** Rewriting settles after two runs: a third reproduces the second's text.
      (Two runs can be needed: a key section without any `condition` line, and
      a `$mod_enabled` mention the first run drops, are completed by the second.) */
  lemma {:induction false} RewriteWithSettles(text: seq<string>, slot: int, folder: string, trailer: seq<string>)
    requires TailGood(trailer)
    ensures var r2 := RewriteWith(RewriteWith(text, slot, folder, trailer), slot, folder, trailer);
      RewriteWith(r2, slot, folder, trailer) == r2
  {
    var d1 := Parse(text);
    ParseWellFormed(text);
    Pass(d1, text, slot, folder, trailer);
    var w1 := Written(d1, text, slot, folder);
    var tail := if IsMaster(d1) then [] else trailer;
    var r1 := RewriteWith(text, slot, folder, trailer);
    assert r1 == Output(w1, tail);
    var e2 := Touch(w1);
    Pass(e2, r1, slot, folder, trailer);
    var w2 := Written(e2, r1, slot, folder);
    var r2 := RewriteWith(r1, slot, folder, trailer);
    assert r2 == Output(w2, tail);
    var e3 := Touch(w2);
    WrittenGateFixed(e2, r1, slot, folder);
    ShapedLed(w2);
    TouchGateFixed(w2, folder);
    SecondPassMentions(e2, r1, tail, slot, folder);
    SettledFixed(e3, r2, slot, folder);
    TouchIdempotent(w2);
    OutputForm(e3, tail);
  }

  /** One run is enough for a file whose key sections all have a `condition`
      line, once the written text mentions `$mod_enabled` (as it does whenever
      the file did not, by `RewriteWithDeclares`). */
  lemma {:induction false} RewriteWithOnce(text: seq<string>, slot: int, folder: string, trailer: seq<string>)
    requires TailGood(trailer) && KeysConditioned(Parse(text))
    requires AnyContains(RewriteWith(text, slot, folder, trailer), ModEnabledVar)
    ensures RewriteWith(RewriteWith(text, slot, folder, trailer), slot, folder, trailer)
         == RewriteWith(text, slot, folder, trailer)
  {
    var d1 := Parse(text);
    ParseWellFormed(text);
    Pass(d1, text, slot, folder, trailer);
    var w1 := Written(d1, text, slot, folder);
    var tail := if IsMaster(d1) then [] else trailer;
    var r1 := RewriteWith(text, slot, folder, trailer);
    assert r1 == Output(w1, tail);
    var e2 := Touch(w1);
    WrittenGateFixed(d1, text, slot, folder);
    ShapedLed(w1);
    TouchGateFixed(w1, folder);
    SettledFixed(e2, r1, slot, folder);
    TouchIdempotent(w1);
    OutputForm(e2, tail);
  }

  /** The profile sections are a well-formed tail. */
  lemma {:induction false} ProfileTailGood(folder: string, profileId: Option<int>)
    ensures TailGood(ProfileTail(folder, profileId))
  {
    match profileId
    case Some(id) => TrailerGood(folder, id);
    case None =>
  }

  /** The rewrite of a mod's file settles after two runs, profile sections included. */
  lemma {:induction false} RewriteSettles(text: seq<string>, slot: int, folder: string, profileId: Option<int>)
    ensures var r2 := Rewrite(Rewrite(text, slot, folder, profileId), slot, folder, profileId);
      Rewrite(r2, slot, folder, profileId) == r2
  {
    ProfileTailGood(folder, profileId);
    RewriteWithSettles(text, slot, folder, ProfileTail(folder, profileId));
  }

  /** A file whose key sections all have a `condition` line, and that does not
      yet mention `$mod_enabled`, is settled by a single run. */
  lemma {:induction false} RewriteOnce(text: seq<string>, slot: int, folder: string, profileId: Option<int>)
    requires KeysConditioned(Parse(text)) && !AnyContains(text, ModEnabledVar)
    ensures Rewrite(Rewrite(text, slot, folder, profileId), slot, folder, profileId)
         == Rewrite(text, slot, folder, profileId)
  {
    var tr := ProfileTail(folder, profileId);
    ProfileTailGood(folder, profileId);
    RewriteWithDeclares(text, slot, folder, tr);
    RewriteWithOnce(text, slot, folder, tr);
  }

  /** Rewriting a mod's file settles after two runs; a missing file stays missing. */
  lemma {:induction false} RewriteFileSettles(file: Option<seq<string>>, profiles: Option<seq<Profile>>, slot: int, folder: string)
    ensures var r2 := RewriteFile(RewriteFile(file, profiles, slot, folder), profiles, slot, folder);
      RewriteFile(r2, profiles, slot, folder) == r2
  {
    if file.Some? {
      RewriteSettles(file.value, slot, folder, ProfileIdFor(profiles, folder));
    }
  }
}

/**
 * What `_rewrite_ini_file` (main.py) writes reads back as written: every line
 * it adds or rewrites is a body line (it survives cleaning and opens no
 * section), so the sections it produces are well formed.
 */
module IniWritten {
  import opened Text
  import opened Wrappers
  import opened Seqs
  import opened IniDoc
  import opened IniSections
  import opened IniRewrite
  import opened IniSettle

  // ------------------------------------------------------------- single lines

  /** A line whose text, after its indentation, starts with a character other
      than `[` and `;` is a body line. */
  lemma {:induction false} BodyLineByStart(l: string)
    requires |LStrip(l)| > 0 && LStrip(l)[0] != '[' && LStrip(l)[0] != ';'
    ensures BodyLine(l)
  {
    var t := LStrip(l);
    RStripShape(t);
    var s := RStrip(t);
    assert !IsSpace(t[0]);
    assert |s| > 0;
    assert s[0] == t[0];
  }

  /** A line starting with a character that is none of whitespace, `[` and `;`. */
  lemma {:induction false} BodyLinePlain(l: string)
    requires |l| > 0 && !IsSpace(l[0]) && l[0] != '[' && l[0] != ';'
    ensures BodyLine(l)
  {
    LStripNoop(l);
    BodyLineByStart(l);
  }

  /** A plain line after some indentation. */
  lemma {:induction false} BodyLineIndented(pad: string, t: string)
    requires IsBlank(pad)
    requires |t| > 0 && !IsSpace(t[0]) && t[0] != '[' && t[0] != ';'
    ensures BodyLine(pad + t)
  {
    LStripAfterSpaces(pad, t);
    BodyLineByStart(pad + t);
  }

  lemma {:induction false} BlankConcat(a: string, b: string)
    requires IsBlank(a) && IsBlank(b)
    ensures IsBlank(a + b)
  {
    var c := a + b;
    forall i | 0 <= i < |c|
      ensures IsSpace(c[i])
    {
      if i >= |a| {
        assert c[i] == b[i - |a|];
      }
    }
  }

  lemma {:induction false} PlainStart(a: string, b: string)
    requires |a| > 0
    ensures |a + b| > 0 && (a + b)[0] == a[0]
  {
  }

  lemma {:induction false} AddedLinesBody(slot: int, folder: string)
    ensures BodyLine(ManagedLine(slot)) && BodyLine(ModEnabledLine) && BodyLine(DetectedLine)
    ensures BodyLine(ActivationLine) && BodyLine(InsertedCondition(folder))
    ensures BodyLine(Wrapper(folder)) && BodyLine("endif")
  {
    PlainStart("global ", ManagedVar + " = " + IntToString(slot));
    assert ManagedLine(slot) == "global " + (ManagedVar + " = " + IntToString(slot));
    BodyLinePlain(ManagedLine(slot));
    BodyLinePlain(ModEnabledLine);
    BodyLinePlain(DetectedLine);
    BodyLinePlain(ActivationLine);
    PlainStart("condition = ", SlotTest(folder));
    BodyLinePlain(InsertedCondition(folder));
    PlainStart("if ", SlotTest(folder));
    BodyLinePlain(Wrapper(folder));
    BodyLinePlain("endif");
  }

  lemma {:induction false} ResetIfBody()
    ensures BodyLine(ResetIfLine)
  {
    BodyLineIndented(Pad, "if $object_detected");
  }

  lemma {:induction false} ResetPostBody()
    ensures BodyLine(ResetPostLine)
  {
    BlankConcat(Pad, Pad);
    BodyLineIndented(Pad + Pad, "post $object_detected = 0");
  }

  lemma {:induction false} ResetEndBody()
    ensures BodyLine(ResetEndLine)
  {
    BodyLineIndented(Pad, "endif");
  }

  lemma {:induction false} ResetBlockBody(folder: string)
    ensures BodyLines(ResetBlock(folder))
  {
    var b := ResetBlock(folder);
    AddedLinesBody(0, folder);
    ResetIfBody();
    ResetPostBody();
    ResetEndBody();
    BodyLinesAt(b);
  }

  // ------------------------------------------------------------- line lists

  lemma {:induction false} BodyLinesConcat(a: seq<string>, b: seq<string>)
    requires BodyLines(a) && BodyLines(b)
    ensures BodyLines(a + b)
  {
    BodyLinesAt(a);
    BodyLinesAt(b);
    var c := a + b;
    forall i | 0 <= i < |c|
      ensures BodyLine(c[i])
    {
      if i >= |a| {
        assert c[i] == b[i - |a|];
      }
    }
    BodyLinesAt(c);
  }

  lemma {:induction false} BodyLinesSlice(a: seq<string>, i: nat, j: nat)
    requires BodyLines(a) && i <= j <= |a|
    ensures BodyLines(a[i..j])
  {
    BodyLinesAt(a);
    var c := a[i..j];
    assert forall k :: 0 <= k < |c| ==> c[k] == a[i + k];
    BodyLinesAt(c);
  }

  lemma {:induction false} BodyLinesSingle(l: string)
    requires BodyLine(l)
    ensures BodyLines([l])
  {
    BodyLinesAt([l]);
  }

  lemma {:induction false} DropManagedBody(lines: seq<string>)
    requires BodyLines(lines)
    ensures BodyLines(DropManaged(lines))
  {
    var r := DropManaged(lines);
    BodyLinesAt(lines);
    forall i | 0 <= i < |r|
      ensures BodyLine(r[i])
    {
      DropManagedMembers(lines, r[i]);
    }
    BodyLinesAt(r);
  }

  lemma {:induction false} UpdateConstantsBody(lines: seq<string>, slot: int, seen: bool, folder: string)
    requires BodyLines(lines)
    ensures BodyLines(UpdateConstants(lines, slot, seen))
  {
    AddedLinesBody(slot, folder);
    DropManagedBody(lines);
    BodyLinesSingle(ManagedLine(slot));
    BodyLinesConcat([ManagedLine(slot)], DropManaged(lines));
    if !seen {
      BodyLinesSingle(ModEnabledLine);
      BodyLinesConcat([ManagedLine(slot)] + DropManaged(lines), [ModEnabledLine]);
    } else {
      ConcatEmpty([ManagedLine(slot)] + DropManaged(lines));
    }
  }

  // ---------------------------------------------------------------- sections

  /** Every section holds body lines: the second half of `WellFormed`. */
  predicate AllBody(doc: Doc) {
    forall i :: 0 <= i < |doc| ==> BodyLines(doc[i].lines)
  }

  lemma {:induction false} SetLinesBody(doc: Doc, i: nat, lines: seq<string>)
    requires i < |doc| && AllBody(doc) && BodyLines(lines)
    ensures AllBody(SetLines(doc, i, lines))
  {
  }

  lemma {:induction false} WithConstantsBody(doc: Doc)
    requires Led(doc) && AllBody(doc)
    ensures AllBody(WithConstants(doc))
  {
    var r := WithConstants(doc);
    if KeyIndex(doc, Named(ConstantsHeader)).None? {
      forall j | 0 <= j < |r|
        ensures BodyLines(r[j].lines)
      {
        if j >= 2 {
          assert r[j] == doc[j - 1];
        }
      }
    }
  }

  lemma {:induction false} AddDetectionBody(doc: Doc, c: nat, folder: string)
    requires c < |doc| && !HookKey(doc[c].key) && !PresentKey(doc[c].key) && AllBody(doc)
    ensures AllBody(AddDetection(doc, c, folder))
  {
    var r := AddDetection(doc, c, folder);
    AddDetectionSpec(doc, c, folder);
    AddedLinesBody(0, folder);
    ResetBlockBody(folder);
    BodyLinesAppend(doc[c].lines, DetectedLine);
    BodyLinesSingle(ActivationLine);
    var hook := FirstHookFrom(doc, 0);
    if hook.Some? {
      BodyLinesConcat([ActivationLine], doc[hook.value].lines);
    }
    var present := PresentFrom(doc, 0);
    if present.Some? {
      BodyLinesConcat(doc[present.value].lines, ResetBlock(folder));
    }
    forall j | 0 <= j < |r|
      ensures BodyLines(r[j].lines)
    {
      if j == |doc| {
        assert r[j].lines == ResetBlock(folder);
      } else if j == c {
        assert r[j].lines == doc[c].lines + [DetectedLine];
      } else if Some(j) == hook {
        assert r[j].lines == [ActivationLine] + doc[j].lines;
      } else if Some(j) != present {
        assert r[j] == doc[j];
      }
    }
  }

  /** Step 3 adds and rewrites body lines only. */
  lemma {:induction false} AugmentBody(doc: Doc, text: seq<string>, slot: int, folder: string)
    requires Led(doc) && AllBody(doc)
    ensures AllBody(Augment(doc, text, slot, folder))
  {
    WithConstantsBody(doc);
    var d1 := WithConstants(doc);
    var c := ConstantsIndex(doc);
    var u := UpdateConstants(d1[c].lines, slot, AnyContains(text, ModEnabledVar));
    UpdateConstantsBody(d1[c].lines, slot, AnyContains(text, ModEnabledVar), folder);
    var d2 := SetLines(d1, c, u);
    SetLinesBody(d1, c, u);
    if !AnyContains(u, DetectedVar) {
      ConstantsNotTarget();
      AddDetectionBody(d2, c, folder);
    }
  }

  // ------------------------------------------------------------------ gating

  /** A condition line's text starts with `c` or `C`. */
  lemma {:induction false} ConditionStart(line: string)
    requires IsConditionLine(line)
    ensures |Strip(line)| > 0 && (Strip(line)[0] == 'c' || Strip(line)[0] == 'C')
  {
    var t := Strip(line);
    LowerAt(t);
    assert Lower(t)[0] == 'c';
  }

  lemma {:induction false} RepairLineBody(line: string, folder: string)
    requires BodyLine(line)
    ensures BodyLine(RepairLine(line, folder))
  {
    if IsConditionLine(line) && !Contains(line, KeyCondition(folder)) {
      ConditionStart(line);
      PlainStart(Strip(line), " && " + KeyCondition(folder));
      assert Strip(line) + " && " + KeyCondition(folder) == Strip(line) + (" && " + KeyCondition(folder));
      BodyLinePlain(RepairLine(line, folder));
    }
  }

  lemma {:induction false} RepairAllBody(lines: seq<string>, folder: string)
    requires BodyLines(lines)
    ensures BodyLines(RepairAll(lines, folder))
  {
    var r := RepairAll(lines, folder);
    BodyLinesAt(lines);
    forall i | 0 <= i < |r|
      ensures BodyLine(r[i])
    {
      RepairAllAt(lines, folder, i);
      RepairLineBody(lines[i], folder);
    }
    BodyLinesAt(r);
  }

  lemma {:induction false} RepairKeyBody(lines: seq<string>, folder: string)
    requires BodyLines(lines)
    ensures BodyLines(RepairKey(lines, folder))
  {
    RepairAllBody(lines, folder);
    if !HasCondition(lines) {
      AddedLinesBody(0, folder);
      BodyLinesSingle(InsertedCondition(folder));
      BodyLinesConcat([InsertedCondition(folder)], RepairAll(lines, folder));
    }
  }

  /** Whitespace in front of a text does not change its left-strip. */
  lemma {:induction false} LStripPad(pad: string, t: string)
    requires IsBlank(pad)
    ensures LStrip(pad + t) == LStrip(t)
    decreases |pad|
  {
    if |pad| > 0 {
      assert (pad + t)[0] == pad[0];
      assert (pad + t)[1..] == pad[1..] + t;
      LStripPad(pad[1..], t);
    } else {
      assert pad + t == t;
    }
  }

  /** Dropping a level of indentation keeps a line's text. */
  lemma {:induction false} UnindentStrip(line: string)
    ensures LStrip(Unindent(line)) == LStrip(line)
    ensures Strip(Unindent(line)) == Strip(line)
  {
    if StartsWith(line, "    ") {
      assert line == line[..4] + line[4..];
      LStripPad(line[..4], line[4..]);
    } else if StartsWith(line, "\t") {
      assert line == line[..1] + line[1..];
      LStripPad(line[..1], line[1..]);
    }
  }

  lemma {:induction false} UnindentAllBody(lines: seq<string>)
    requires BodyLines(lines)
    ensures BodyLines(UnindentAll(lines))
  {
    var r := UnindentAll(lines);
    BodyLinesAt(lines);
    forall i | 0 <= i < |r|
      ensures BodyLine(r[i])
    {
      UnindentStrip(lines[i]);
      BodyLineByStrip(r[i], lines[i]);
    }
    BodyLinesAt(r);
  }

  lemma {:induction false} UnwrapBody(lines: seq<string>, folder: string)
    requires BodyLines(lines)
    ensures BodyLines(Unwrap(lines, folder))
    decreases |lines|
  {
    if IsGuarded(lines, folder) {
      var fi := FirstNonBlank(lines).value;
      var li := LastNonBlank(lines).value;
      if fi + 1 <= li {
        BodyLinesSlice(lines, fi + 1, li);
      }
      var inner := UnindentAll(Inside(lines, folder));
      UnindentAllBody(Inside(lines, folder));
      UnwrapBody(inner, folder);
    }
  }

  lemma {:induction false} IndentBody(lines: seq<string>)
    requires BodyLines(lines)
    ensures BodyLines(Indent(lines))
  {
    var r := Indent(lines);
    BodyLinesAt(lines);
    forall i | 0 <= i < |r|
      ensures BodyLine(r[i])
    {
      StripOfIndented(Pad, lines[i]);
      BodyLineByStrip(r[i], lines[i]);
    }
    BodyLinesAt(r);
  }

  lemma {:induction false} GuardBody(lines: seq<string>, folder: string)
    requires BodyLines(lines)
    ensures BodyLines(Guard(lines, folder))
  {
    UnwrapBody(lines, folder);
    IndentBody(Unwrap(lines, folder));
    AddedLinesBody(0, folder);
    BodyLinesSingle(Wrapper(folder));
    BodyLinesSingle("endif");
    BodyLinesConcat([Wrapper(folder)], Indent(Unwrap(lines, folder)));
    BodyLinesConcat([Wrapper(folder)] + Indent(Unwrap(lines, folder)), ["endif"]);
  }

  lemma {:induction false} GateBody(s: Section, folder: string)
    requires BodyLines(s.lines)
    ensures BodyLines(Gate(s, folder).lines)
  {
    match s.key
    case Global =>
    case Named(h) =>
      match TreatmentOf(h)
      case PassThrough =>
      case KeyRepair => RepairKeyBody(s.lines, folder);
      case Guarded => GuardBody(s.lines, folder);
  }

  lemma {:induction false} GateAllBody(doc: Doc, folder: string)
    requires AllBody(doc)
    ensures AllBody(GateAll(doc, folder))
  {
    forall i | 0 <= i < |doc|
      ensures BodyLines(GateAll(doc, folder)[i].lines)
    {
      GateBody(doc[i], folder);
    }
  }

  /** Steps 3 and 4 keep a document well formed, and it then has at least the
      leading region and `[Constants]`. */
  lemma {:induction false} WrittenWellFormed(doc: Doc, text: seq<string>, slot: int, folder: string)
    requires WellFormed(doc)
    ensures Led(doc)
    ensures WellFormed(Written(doc, text, slot, folder)) && |Written(doc, text, slot, folder)| >= 2
  {
    ShapedLed(doc);
    var a := Augment(doc, text, slot, folder);
    AugmentShaped(doc, text, slot, folder);
    AugmentBody(doc, text, slot, folder);
    var w := Written(doc, text, slot, folder);
    GateAllBody(a, folder);
    ShapedSameKeys(a, w);
    var c := KeyIndex(a, Named(ConstantsHeader)).value;
    assert KeysOf(a)[0] == Global && KeysOf(a)[c] == Named(ConstantsHeader);
  }
}

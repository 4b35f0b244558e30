/**
 * How `_rewrite_ini_file` (main.py) treats each section's lines on output:
 * key-binding sections get the slot test added to their `condition =` lines,
 * behavioural sections are unwrapped from any earlier slot guard and wrapped
 * in a fresh one, and `[Constants]`/`[Resource...]` sections pass through.
 */
module IniSections {
  import opened Text
  import opened Wrappers
  import opened Seqs

  const RootNamespace := "MIMM"
  const ManagedVar := "$managed_slot_id"

  /** The overlay's per-character slot variable, `$\MIMM\<folder>\active_slot`. */
  function ActiveSlotVar(folder: string): string {
    "$\\" + RootNamespace + "\\" + folder + "\\active_slot"
  }

  /** The test "this mod's slot is the active one". */
  function SlotTest(folder: string): string {
    ManagedVar + " == " + ActiveSlotVar(folder)
  }

  /** The guard line around behavioural sections; also the signature of the reset block in `[Present]`. */
  function Wrapper(folder: string): string {
    "if " + SlotTest(folder)
  }

  /** The parenthesised slot test conjoined to key conditions. */
  function KeyCondition(folder: string): string {
    "(" + SlotTest(folder) + ")"
  }

  /** The condition inserted into a key section that has none (the key condition without its parentheses). */
  function InsertedCondition(folder: string): string {
    "condition = " + SlotTest(folder)
  }

  /** Python's falsy `line.strip()`. */
  predicate Blank(line: string) {
    |Strip(line)| == 0
  }

  // ---------------------------------------------------------------- treatment

  datatype Treatment = PassThrough | KeyRepair | Guarded

  /** Which rule a named section's lines follow, decided on the lower-cased header. */
  function TreatmentOf(header: string): Treatment {
    var l := Lower(header);
    if StartsWith(l, "[constants]") || StartsWith(l, "[resource") then PassThrough
    else if StartsWith(l, "[key") then KeyRepair
    else Guarded
  }

  // --------------------------------------------------------------- key repair

  /** A `condition =` line, recognised case-insensitively after stripping. */
  predicate IsConditionLine(line: string) {
    StartsWith(Lower(Strip(line)), "condition =")
  }

  /** Python's `any(l.strip().lower().startswith('condition =') for l in lines)`. */
  predicate HasCondition(lines: seq<string>) {
    |lines| > 0 && (IsConditionLine(lines[0]) || HasCondition(lines[1..]))
  }

  lemma {:induction false} HasConditionIff(lines: seq<string>)
    ensures HasCondition(lines) <==> exists i :: 0 <= i < |lines| && IsConditionLine(lines[i])
  {
    if |lines| > 0 {
      HasConditionIff(lines[1..]);
      if HasCondition(lines[1..]) {
        var i :| 0 <= i < |lines[1..]| && IsConditionLine(lines[1..][i]);
        assert IsConditionLine(lines[i + 1]);
      }
      if exists i :: 0 <= i < |lines| && IsConditionLine(lines[i]) {
        var i :| 0 <= i < |lines| && IsConditionLine(lines[i]);
        if i > 0 {
          assert IsConditionLine(lines[1..][i - 1]);
        }
      }
    }
  }

  /** A condition line without the key condition gets it conjoined; every other line is kept verbatim. */
  function RepairLine(line: string, folder: string): string {
    if IsConditionLine(line) && !Contains(line, KeyCondition(folder)) then Strip(line) + " && " + KeyCondition(folder)
    else line
  }

  function RepairAll(lines: seq<string>, folder: string): (r: seq<string>)
    ensures |r| == |lines|
  {
    if |lines| == 0 then [] else [RepairLine(lines[0], folder)] + RepairAll(lines[1..], folder)
  }

  lemma {:induction false} RepairAllAt(lines: seq<string>, folder: string, i: nat)
    requires i < |lines|
    ensures RepairAll(lines, folder)[i] == RepairLine(lines[i], folder)
  {
    if i > 0 {
      RepairAllAt(lines[1..], folder, i - 1);
    }
  }

  /** The key-section rule: repair every condition line, and put the bare slot test
      first when the section has no condition line at all. `RepairKeyLoop` is the
      rule as the source computes it; `RepairKeyMatchesLoop` shows the two agree. */
  function RepairKey(lines: seq<string>, folder: string): seq<string> {
    if HasCondition(lines) then RepairAll(lines, folder) else [InsertedCondition(folder)] + RepairAll(lines, folder)
  }

  /** The source's loop: repair lines while noting whether any line was repaired,
      then insert the bare slot test unless a line was repaired or the repaired
      section has some condition line. */
  function RepairKeyLoop(lines: seq<string>, folder: string): seq<string> {
    var repaired := RepairAll(lines, folder);
    var added := AnyRepaired(lines, folder);
    if !added && !HasCondition(repaired) then [InsertedCondition(folder)] + repaired else repaired
  }

  /** The loop's `condition_added` flag: some condition line lacked the key condition. */
  predicate AnyRepaired(lines: seq<string>, folder: string) {
    |lines| > 0 && ((IsConditionLine(lines[0]) && !Contains(lines[0], KeyCondition(folder))) || AnyRepaired(lines[1..], folder))
  }

  lemma {:induction false} AnyRepairedHasCondition(lines: seq<string>, folder: string)
    ensures AnyRepaired(lines, folder) ==> HasCondition(lines)
  {
    if |lines| > 0 {
      AnyRepairedHasCondition(lines[1..], folder);
    }
  }

  lemma {:induction false} StartsWithExtend(s: string, p: string, t: string)
    requires StartsWith(s, p)
    ensures StartsWith(s + t, p)
  {
    assert (s + t)[..|p|] == s[..|p|];
  }

  /** The line a condition line is rewritten to keeps its text as a prefix, stays a
      condition line, and carries the key condition. */
  lemma {:induction false} ConjoinedFacts(line: string, folder: string)
    requires IsConditionLine(line)
    ensures var r := Strip(line) + " && " + KeyCondition(folder);
      IsConditionLine(r) && Contains(r, KeyCondition(folder)) && StartsWith(r, Strip(line))
  {
    var kc := KeyCondition(folder);
    var t := Strip(line);
    var tail := " && " + kc;
    var r := t + tail;
    assert r == Strip(line) + " && " + KeyCondition(folder);
    assert |t| > 0;
    assert r[0] == t[0];
    StripEnds(line);
    assert r[|r| - 1] == ')';
    StripNoop(r);
    LowerConcat(t, tail);
    StartsWithExtend(Lower(t), "condition =", Lower(tail));
    assert IsConditionLine(r);
    ContainsIntro(t + " && ", kc, "");
    assert t + " && " + kc + "" == r;
    assert r[..|t|] == t;
  }

  /** A repaired condition line is still a condition line and now carries the key condition. */
  lemma {:induction false} RepairLineFacts(line: string, folder: string)
    ensures IsConditionLine(RepairLine(line, folder)) <==> IsConditionLine(line)
    ensures IsConditionLine(line) ==> Contains(RepairLine(line, folder), KeyCondition(folder))
    ensures !IsConditionLine(line) ==> RepairLine(line, folder) == line
    ensures RepairLine(line, folder) == line || StartsWith(RepairLine(line, folder), Strip(line))
  {
    if IsConditionLine(line) && !Contains(line, KeyCondition(folder)) {
      ConjoinedFacts(line, folder);
    }
  }

  lemma {:induction false} RepairAllFacts(lines: seq<string>, folder: string)
    ensures var repaired := RepairAll(lines, folder);
      && (forall i :: 0 <= i < |lines| ==> (IsConditionLine(repaired[i]) <==> IsConditionLine(lines[i])))
      && (forall i :: 0 <= i < |lines| && IsConditionLine(lines[i]) ==> Contains(repaired[i], KeyCondition(folder)))
      && (forall i :: 0 <= i < |lines| && !IsConditionLine(lines[i]) ==> repaired[i] == lines[i])
      && (forall i :: 0 <= i < |lines| ==> repaired[i] == lines[i] || StartsWith(repaired[i], Strip(lines[i])))
  {
    var repaired := RepairAll(lines, folder);
    forall i | 0 <= i < |lines|
      ensures IsConditionLine(repaired[i]) <==> IsConditionLine(lines[i])
      ensures IsConditionLine(lines[i]) ==> Contains(repaired[i], KeyCondition(folder))
      ensures !IsConditionLine(lines[i]) ==> repaired[i] == lines[i]
      ensures repaired[i] == lines[i] || StartsWith(repaired[i], Strip(lines[i]))
    {
      RepairAllAt(lines, folder, i);
      RepairLineFacts(lines[i], folder);
    }
  }

  /** Repairing keeps exactly the condition lines a section had. */
  lemma {:induction false} HasConditionRepairAll(lines: seq<string>, folder: string)
    ensures HasCondition(RepairAll(lines, folder)) == HasCondition(lines)
  {
    if |lines| > 0 {
      RepairLineFacts(lines[0], folder);
      HasConditionRepairAll(lines[1..], folder);
      var r := RepairAll(lines, folder);
      assert r[0] == RepairLine(lines[0], folder);
      assert r[1..] == RepairAll(lines[1..], folder);
    }
  }

  /** The flag and the second scan of the source's loop together decide exactly
      "the section had no condition line". */
  lemma {:induction false} RepairKeyMatchesLoop(lines: seq<string>, folder: string)
    ensures RepairKeyLoop(lines, folder) == RepairKey(lines, folder)
  {
    AnyRepairedHasCondition(lines, folder);
    HasConditionRepairAll(lines, folder);
  }

  lemma {:induction false} RepairKeyOffset(lines: seq<string>, folder: string)
    ensures var r := RepairKey(lines, folder);
      var off := |r| - |lines|;
      && (off == 0 || off == 1)
      && (off == 1 <==> !HasCondition(lines))
      && (off == 1 ==> r[0] == InsertedCondition(folder))
      && (forall i :: 0 <= i < |lines| ==> r[i + off] == RepairAll(lines, folder)[i])
  {
    PrependUnless(HasCondition(lines), InsertedCondition(folder), RepairAll(lines, folder));
  }

  lemma {:induction false} RepairAllKeepsAt(lines: seq<string>, folder: string, i: nat)
    requires i < |lines| && !IsConditionLine(lines[i])
    ensures RepairAll(lines, folder)[i] == lines[i]
  {
    RepairAllAt(lines, folder, i);
  }

  lemma {:induction false} RepairKeyKeepsOthers(lines: seq<string>, folder: string)
    ensures var r := RepairKey(lines, folder);
      var off := |r| - |lines|;
      forall i :: 0 <= i < |lines| && !IsConditionLine(lines[i]) ==> r[i + off] == lines[i]
  {
    var repaired := RepairAll(lines, folder);
    if HasCondition(lines) {
      forall i | 0 <= i < |lines| && !IsConditionLine(lines[i])
        ensures repaired[i] == lines[i]
      {
        RepairAllKeepsAt(lines, folder, i);
      }
    } else {
      var r := [InsertedCondition(folder)] + repaired;
      forall i | 0 <= i < |lines| && !IsConditionLine(lines[i])
        ensures r[i + 1] == lines[i]
      {
        RepairAllKeepsAt(lines, folder, i);
      }
    }
  }

  lemma {:induction false} RepairKeyConditions(lines: seq<string>, folder: string)
    ensures var r := RepairKey(lines, folder);
      var off := |r| - |lines|;
      forall i :: 0 <= i < |lines| && IsConditionLine(lines[i]) ==>
        Contains(r[i + off], KeyCondition(folder)) && (r[i + off] == lines[i] || StartsWith(r[i + off], Strip(lines[i])))
  {
    var repaired := RepairAll(lines, folder);
    RepairAllFacts(lines, folder);
    if !HasCondition(lines) {
      var r := [InsertedCondition(folder)] + repaired;
      forall i | 0 <= i < |lines|
        ensures r[i + 1] == repaired[i]
      {
      }
    }
  }

  /** The key-section rule, stated as what it guarantees: every original line
      reappears in order, unchanged unless it is a condition line; each condition
      line ends up carrying the key condition, either as it was or with its
      stripped text kept as a prefix; and the bare slot test is inserted at the
      top exactly when the section had no condition line. */
  lemma {:induction false} RepairKeySpec(lines: seq<string>, folder: string)
    ensures var r := RepairKey(lines, folder);
      var off := |r| - |lines|;
      && (off == 0 || off == 1)
      && (off == 1 <==> !HasCondition(lines))
      && (off == 1 ==> r[0] == InsertedCondition(folder))
      && (forall i :: 0 <= i < |lines| && !IsConditionLine(lines[i]) ==> r[i + off] == lines[i])
      && (forall i :: 0 <= i < |lines| && IsConditionLine(lines[i]) ==>
            Contains(r[i + off], KeyCondition(folder)) && (r[i + off] == lines[i] || StartsWith(r[i + off], Strip(lines[i]))))
  {
    RepairKeyOffset(lines, folder);
    RepairKeyKeepsOthers(lines, folder);
    RepairKeyConditions(lines, folder);
  }

  /** After the rule, the section always has a condition line. */
  lemma {:induction false} RepairKeyHasCondition(lines: seq<string>, folder: string)
    ensures HasCondition(RepairKey(lines, folder))
  {
    HasConditionRepairAll(lines, folder);
    if !HasCondition(lines) {
      InsertedIsCondition(folder);
      var r := [InsertedCondition(folder)] + RepairAll(lines, folder);
      assert r[0] == InsertedCondition(folder);
    }
  }

  lemma {:induction false} InsertedIsCondition(folder: string)
    ensures IsConditionLine(InsertedCondition(folder))
  {
    var s := InsertedCondition(folder);
    assert s[0] == 'c';
    assert s[|s| - 1] == 't';
    StripNoop(s);
    assert s[..11] == "condition =";
    LowerOfLowerPrefix(s, "condition =");
  }

  /** Every condition line already carries the key condition. */
  predicate ConditionsCarryKey(lines: seq<string>, folder: string) {
    forall i :: 0 <= i < |lines| && IsConditionLine(lines[i]) ==> Contains(lines[i], KeyCondition(folder))
  }

  lemma {:induction false} RepairAllFixed(lines: seq<string>, folder: string)
    requires ConditionsCarryKey(lines, folder)
    ensures RepairAll(lines, folder) == lines
  {
    var r := RepairAll(lines, folder);
    forall i | 0 <= i < |lines|
      ensures r[i] == lines[i]
    {
      RepairAllAt(lines, folder, i);
    }
  }

  /** The rule leaves a section alone once it has a condition line and every condition line carries the key condition. */
  lemma {:induction false} RepairKeyFixed(lines: seq<string>, folder: string)
    requires HasCondition(lines)
    requires ConditionsCarryKey(lines, folder)
    ensures RepairKey(lines, folder) == lines
  {
    RepairAllFixed(lines, folder);
  }

  /** After one application every condition line carries the key condition, except an inserted bare test. */
  lemma {:induction false} RepairAllCarriesKey(lines: seq<string>, folder: string)
    ensures ConditionsCarryKey(RepairAll(lines, folder), folder)
  {
    var r := RepairAll(lines, folder);
    forall i | 0 <= i < |r| && IsConditionLine(r[i])
      ensures Contains(r[i], KeyCondition(folder))
    {
      RepairAllAt(lines, folder, i);
      RepairLineFacts(lines[i], folder);
    }
  }

  /** A section that already has a condition line is settled after one application. */
  lemma {:induction false} RepairKeySettles(lines: seq<string>, folder: string)
    requires HasCondition(lines)
    ensures RepairKey(RepairKey(lines, folder), folder) == RepairKey(lines, folder)
  {
    RepairKeyHasCondition(lines, folder);
    RepairAllCarriesKey(lines, folder);
    RepairKeyFixed(RepairAll(lines, folder), folder);
  }

  /** Any section is settled after two applications. */
  lemma {:induction false} RepairKeyStable(lines: seq<string>, folder: string)
    ensures var r2 := RepairKey(RepairKey(lines, folder), folder);
      RepairKey(r2, folder) == r2
  {
    RepairKeyHasCondition(lines, folder);
    RepairKeySettles(RepairKey(lines, folder), folder);
  }

  /** The bare slot test does not contain the parenthesised one. */
  lemma {:induction false} InsertedLacksKey(folder: string)
    ensures !Contains(InsertedCondition(folder), KeyCondition(folder))
  {
    var s := InsertedCondition(folder);
    var kc := KeyCondition(folder);
    assert |s| == 12 + |SlotTest(folder)|;
    assert |kc| == 2 + |SlotTest(folder)|;
    forall i | 0 <= i <= |s| - |kc|
      ensures !ContainsAt(s, kc, i)
    {
      assert s[i] == "condition = "[i];
      assert kc[0] == '(';
    }
  }

  /** The inserted bare slot test is itself a condition line without the
      parenthesised key condition, so a second application still rewrites it:
      one application is not always enough. */
  lemma {:induction false} RepairKeyNotIdempotent(folder: string)
    ensures RepairKey(RepairKey([], folder), folder) != RepairKey([], folder)
  {
    var s := InsertedCondition(folder);
    assert RepairKey([], folder) == [s];
    InsertedIsCondition(folder);
    InsertedLacksKey(folder);
    assert HasCondition([s]);
    RepairAllAt([s], folder, 0);
    var t := RepairLine(s, folder);
    assert t == Strip(s) + " && " + KeyCondition(folder);
    assert t != s by {
      StripNoop(s);
      assert |t| > |s|;
    }
    assert RepairKey([s], folder)[0] == t;
  }

  // ------------------------------------------------------- unwrap and re-wrap

  /** Index of the first non-blank line (Python's `next((i for i, l in enumerate(lines) if l.strip()), -1)`). */
  function FirstNonBlank(lines: seq<string>): (r: Option<nat>)
    ensures r.Some? ==> r.value < |lines| && !Blank(lines[r.value]) && forall j :: 0 <= j < r.value ==> Blank(lines[j])
    ensures r.None? ==> forall j :: 0 <= j < |lines| ==> Blank(lines[j])
  {
    FirstNonBlankFrom(lines, 0)
  }

  function FirstNonBlankFrom(lines: seq<string>, k: nat): (r: Option<nat>)
    requires k <= |lines|
    ensures r.Some? ==> k <= r.value < |lines| && !Blank(lines[r.value]) && forall j :: k <= j < r.value ==> Blank(lines[j])
    ensures r.None? ==> forall j :: k <= j < |lines| ==> Blank(lines[j])
    decreases |lines| - k
  {
    if k == |lines| then None
    else if !Blank(lines[k]) then Some(k)
    else FirstNonBlankFrom(lines, k + 1)
  }

  /** Index of the last non-blank line, scanning from the end. */
  function LastNonBlank(lines: seq<string>): (r: Option<nat>)
    ensures r.Some? ==> r.value < |lines| && !Blank(lines[r.value]) && forall j :: r.value < j < |lines| ==> Blank(lines[j])
    ensures r.None? ==> forall j :: 0 <= j < |lines| ==> Blank(lines[j])
  {
    LastNonBlankBefore(lines, |lines|)
  }

  function LastNonBlankBefore(lines: seq<string>, n: nat): (r: Option<nat>)
    requires n <= |lines|
    ensures r.Some? ==> r.value < n && !Blank(lines[r.value]) && forall j :: r.value < j < n ==> Blank(lines[j])
    ensures r.None? ==> forall j :: 0 <= j < n ==> Blank(lines[j])
  {
    if n == 0 then None
    else if !Blank(lines[n - 1]) then Some(n - 1)
    else LastNonBlankBefore(lines, n - 1)
  }

  /** The section is enclosed in the slot guard: its first non-blank line is the
      guard and its last non-blank line is `endif`. */
  predicate IsGuarded(lines: seq<string>, folder: string) {
    && FirstNonBlank(lines).Some?
    && LastNonBlank(lines).Some?
    && Strip(lines[FirstNonBlank(lines).value]) == Strip(Wrapper(folder))
    && Lower(Strip(lines[LastNonBlank(lines).value])) == "endif"
  }

  /** The lines strictly between the guard and its `endif`. */
  function Inside(lines: seq<string>, folder: string): (r: seq<string>)
    requires IsGuarded(lines, folder)
    ensures |r| + 2 <= |lines|
  {
    var fi := FirstNonBlank(lines).value;
    var li := LastNonBlank(lines).value;
    if fi + 1 <= li then lines[fi + 1..li] else []
  }

  /** Drop one level of indentation: four leading spaces, or else one leading tab. */
  function Unindent(line: string): string {
    if StartsWith(line, "    ") then line[4..]
    else if StartsWith(line, "\t") then line[1..]
    else line
  }

  function UnindentAll(lines: seq<string>): (r: seq<string>)
    ensures |r| == |lines| && forall i :: 0 <= i < |lines| ==> r[i] == Unindent(lines[i])
  {
    seq(|lines|, i requires 0 <= i < |lines| => Unindent(lines[i]))
  }

  /** Peel off slot guards, however many earlier rewrites left behind. */
  function Unwrap(lines: seq<string>, folder: string): seq<string>
    decreases |lines|
  {
    if IsGuarded(lines, folder) then Unwrap(UnindentAll(Inside(lines, folder)), folder) else lines
  }

  /** Every line re-indented by exactly four spaces. */
  function Indent(lines: seq<string>): (r: seq<string>)
    ensures |r| == |lines| && forall i :: 0 <= i < |lines| ==> r[i] == "    " + LStrip(lines[i])
  {
    seq(|lines|, i requires 0 <= i < |lines| => "    " + LStrip(lines[i]))
  }

  /** Enclose the lines in the slot guard, each re-indented by four spaces. */
  function Wrap(lines: seq<string>, folder: string): (r: seq<string>)
    ensures |r| == |lines| + 2
  {
    [Wrapper(folder)] + Indent(lines) + ["endif"]
  }

  /** The rule for behavioural sections. */
  function Guard(lines: seq<string>, folder: string): seq<string> {
    Wrap(Unwrap(lines, folder), folder)
  }

  lemma {:induction false} WrapperStripped(folder: string)
    ensures Strip(Wrapper(folder)) == Wrapper(folder)
  {
    var w := Wrapper(folder);
    assert w[0] == 'i';
    assert w[|w| - 1] == 't';
    StripNoop(w);
  }

  lemma {:induction false} EndifStripped()
    ensures Strip("endif") == "endif" && Lower("endif") == "endif"
  {
    StripNoop("endif");
  }

  /** Unwrapping stops at a section that is not guarded. */
  lemma {:induction false} UnwrapNotGuarded(lines: seq<string>, folder: string)
    ensures !IsGuarded(Unwrap(lines, folder), folder)
    decreases |lines|
  {
    if IsGuarded(lines, folder) {
      UnwrapNotGuarded(UnindentAll(Inside(lines, folder)), folder);
    }
  }

  /** Two sections with the same stripped lines are guarded alike. */
  lemma {:induction false} GuardedByStrip(a: seq<string>, b: seq<string>, folder: string)
    requires |a| == |b| && forall i :: 0 <= i < |a| ==> Strip(a[i]) == Strip(b[i])
    ensures FirstNonBlank(a) == FirstNonBlank(b) && LastNonBlank(a) == LastNonBlank(b)
    ensures IsGuarded(a, folder) == IsGuarded(b, folder)
  {
    FirstNonBlankByStrip(a, b);
    LastNonBlankByStrip(a, b);
  }

  lemma {:induction false} FirstNonBlankByStrip(a: seq<string>, b: seq<string>)
    requires |a| == |b| && forall i :: 0 <= i < |a| ==> Strip(a[i]) == Strip(b[i])
    ensures FirstNonBlank(a) == FirstNonBlank(b)
  {
    FirstFromByStrip(a, b, 0);
  }

  lemma {:induction false} FirstFromByStrip(a: seq<string>, b: seq<string>, k: nat)
    requires k <= |a| == |b| && forall i :: 0 <= i < |a| ==> Strip(a[i]) == Strip(b[i])
    ensures FirstNonBlankFrom(a, k) == FirstNonBlankFrom(b, k)
    decreases |a| - k
  {
    if k < |a| {
      assert Strip(a[k]) == Strip(b[k]);
      FirstFromByStrip(a, b, k + 1);
    }
  }

  lemma {:induction false} LastNonBlankByStrip(a: seq<string>, b: seq<string>)
    requires |a| == |b| && forall i :: 0 <= i < |a| ==> Strip(a[i]) == Strip(b[i])
    ensures LastNonBlank(a) == LastNonBlank(b)
  {
    LastBeforeByStrip(a, b, |a|);
  }

  lemma {:induction false} LastBeforeByStrip(a: seq<string>, b: seq<string>, n: nat)
    requires n <= |a| == |b| && forall i :: 0 <= i < |a| ==> Strip(a[i]) == Strip(b[i])
    ensures LastNonBlankBefore(a, n) == LastNonBlankBefore(b, n)
  {
    if n > 0 {
      assert Strip(a[n - 1]) == Strip(b[n - 1]);
      LastBeforeByStrip(a, b, n - 1);
    }
  }

  function LStripAll(lines: seq<string>): (r: seq<string>)
    ensures |r| == |lines| && forall i :: 0 <= i < |lines| ==> r[i] == LStrip(lines[i])
  {
    seq(|lines|, i requires 0 <= i < |lines| => LStrip(lines[i]))
  }

  /** Unwrapping what `Wrap` produced gives back the unguarded lines, left-stripped. */
  lemma {:induction false} UnwrapWrap(lines: seq<string>, folder: string)
    requires !IsGuarded(lines, folder)
    ensures Unwrap(Wrap(lines, folder), folder) == LStripAll(lines)
  {
    var g := Wrap(lines, folder);
    var n := |g|;
    WrapperStripped(folder);
    EndifStripped();
    assert g[0] == Wrapper(folder);
    assert !Blank(g[0]) by {
      assert |Wrapper(folder)| > 0;
    }
    assert FirstNonBlank(g) == Some(0);
    assert g[n - 1] == "endif";
    assert !Blank(g[n - 1]);
    assert LastNonBlank(g) == Some(n - 1);
    assert IsGuarded(g, folder);
    var inner := Inside(g, folder);
    assert inner == g[1..n - 1];
    var u := UnindentAll(inner);
    forall i | 0 <= i < |lines|
      ensures u[i] == LStrip(lines[i])
    {
      var x := "    " + LStrip(lines[i]);
      assert inner[i] == x;
      assert StartsWith(x, "    ");
      assert x[4..] == LStrip(lines[i]);
    }
    assert u == LStripAll(lines);
    forall i | 0 <= i < |lines|
      ensures Strip(LStripAll(lines)[i]) == Strip(lines[i])
    {
      StripOfLStrip(lines[i]);
    }
    GuardedByStrip(LStripAll(lines), lines, folder);
  }

  /** Guarding a section twice is the same as guarding it once. */
  lemma {:induction false} GuardIdempotent(lines: seq<string>, folder: string)
    ensures Guard(Guard(lines, folder), folder) == Guard(lines, folder)
  {
    var u := Unwrap(lines, folder);
    UnwrapNotGuarded(lines, folder);
    UnwrapWrap(u, folder);
    var v := LStripAll(u);
    forall i | 0 <= i < |u|
      ensures LStrip(v[i]) == LStrip(u[i])
    {
      LStripIdempotent(u[i]);
    }
    assert Indent(v) == Indent(u);
  }
}

/**
 * The line-level document model of a mod INI file as `_rewrite_ini_file` reads
 * it (main.py): the cleaning pass, the sectionizer that groups lines into an
 * ordered map of sections behind an implicit leading `global` region, and the
 * serializer that writes the sections back out.
 *
 * A file is a sequence of lines without their line terminators.
 */
module IniDoc {
  import opened Text
  import opened Wrappers
  import opened Seqs

  /** A section key: the implicit leading region, or a stripped `[...]` header line. */
  datatype Key = Global | Named(header: string)

  datatype Section = Section(key: Key, lines: seq<string>)

  /** The ordered dictionary of sections (Python's `OrderedDict`). */
  type Doc = seq<Section>

  /** Headers whose sections are discarded on reading: the profile-information
      block a previous rewrite appended. */
  const InfoHeaders: seq<string> := ["[CommandListProfileInfo]", "[KeyShowProfile]", "[ResourceProfileInfo]"]

  /** A stripped line that opens a section. */
  predicate IsHeaderText(t: string) {
    |t| > 0 && t[0] == '[' && t[|t| - 1] == ']'
  }

  predicate IsHeaderLine(line: string) {
    IsHeaderText(Strip(line))
  }

  /** The cleaning rule: a line survives unless it is blank or a `;` with nothing after it. */
  predicate Kept(line: string) {
    var t := Strip(line);
    |t| > 0 && !(t[0] == ';' && |Strip(t[1..])| == 0)
  }

  /** Step 1 of the rewrite: drop blank lines and bare `;` lines, keep everything else in order. */
  function Clean(lines: seq<string>): (r: seq<string>)
    ensures |r| <= |lines|
    ensures AllKept(r)
  {
    if |lines| == 0 then []
    else if Kept(lines[0]) then [lines[0]] + Clean(lines[1..])
    else Clean(lines[1..])
  }

  lemma {:induction false} CleanConcat(a: seq<string>, b: seq<string>)
    ensures Clean(a + b) == Clean(a) + Clean(b)
  {
    if |a| > 0 {
      TailOfConcat(a, b);
      CleanConcat(a[1..], b);
    } else {
      ConcatEmpty(b);
    }
  }

  /** Every line survives the cleaning rule. */
  predicate AllKept(lines: seq<string>) {
    |lines| == 0 || (Kept(lines[0]) && AllKept(lines[1..]))
  }

  lemma {:induction false} AllKeptAt(lines: seq<string>)
    ensures AllKept(lines) <==> forall i :: 0 <= i < |lines| ==> Kept(lines[i])
  {
    if |lines| > 0 {
      AllKeptAt(lines[1..]);
      assert forall i :: 1 <= i < |lines| ==> lines[i] == lines[1..][i - 1];
    }
  }

  /** Cleaning changes nothing once every line survives it. */
  lemma {:induction false} CleanAllKept(lines: seq<string>)
    requires AllKept(lines)
    ensures Clean(lines) == lines
  {
    if |lines| > 0 {
      CleanAllKept(lines[1..]);
    }
  }

  lemma {:induction false} CleanIdempotent(lines: seq<string>)
    ensures Clean(Clean(lines)) == Clean(lines)
  {
    CleanAllKept(Clean(lines));
  }

  /** Cleaning keeps exactly the lines the rule keeps. */
  lemma {:induction false} CleanMembers(lines: seq<string>, l: string)
    ensures l in Clean(lines) <==> l in lines && Kept(l)
  {
    if |lines| > 0 {
      CleanMembers(lines[1..], l);
      assert lines == [lines[0]] + lines[1..];
    }
  }

  /** Index of the first section with key `k`. */
  function KeyIndex(doc: Doc, k: Key): (r: Option<nat>)
    ensures r.Some? ==> r.value < |doc| && doc[r.value].key == k
    ensures r.Some? ==> forall j :: 0 <= j < r.value ==> doc[j].key != k
    ensures r.None? ==> forall j :: 0 <= j < |doc| ==> doc[j].key != k
  {
    if |doc| == 0 then None
    else if doc[0].key == k then Some(0)
    else match KeyIndex(doc[1..], k)
      case Some(i) => Some(i + 1)
      case None => None
  }

  /** The keys of a document, in order. */
  function KeysOf(doc: Doc): (ks: seq<Key>)
    ensures |ks| == |doc| && forall i :: 0 <= i < |doc| ==> ks[i] == doc[i].key
  {
    seq(|doc|, i requires 0 <= i < |doc| => doc[i].key)
  }

  /** No key occurs twice. */
  predicate DistinctKeys(ks: seq<Key>) {
    forall i, j :: 0 <= i < j < |ks| ==> ks[i] != ks[j]
  }

  /** A key the sectionizer can create: a header that is not a profile-information
      header. Such a header is its own strip, since it starts with `[` and ends with `]`. */
  predicate ValidNamedKey(k: Key) {
    k.Named? && IsHeaderText(k.header) && k.header !in InfoHeaders
  }

  lemma {:induction false} HeaderStripped(h: string)
    requires IsHeaderText(h)
    ensures Strip(h) == h
  {
    StripNoop(h);
  }

  predicate ShapedKeys(ks: seq<Key>) {
    && |ks| >= 1
    && ks[0] == Global
    && DistinctKeys(ks)
    && (forall i :: 1 <= i < |ks| ==> ValidNamedKey(ks[i]))
  }

  /** The shape every sectionized document has: the leading region first, then
      distinct valid headers. */
  predicate Shaped(doc: Doc) {
    ShapedKeys(KeysOf(doc))
  }

  lemma {:induction false} ShapedAdd(doc: Doc, h: string)
    requires Shaped(doc) && ValidNamedKey(Named(h)) && KeyIndex(doc, Named(h)).None?
    ensures Shaped(doc + [Section(Named(h), [])])
  {
    var d := doc + [Section(Named(h), [])];
    assert KeysOf(d) == KeysOf(doc) + [Named(h)];
  }

  /** The shape of a document depends on its keys alone. */
  lemma {:induction false} ShapedSameKeys(a: Doc, b: Doc)
    requires |a| == |b| && forall j :: 0 <= j < |a| ==> a[j].key == b[j].key
    ensures KeysOf(a) == KeysOf(b)
    ensures Shaped(a) == Shaped(b)
  {
  }

  lemma {:induction false} ShapedPrefix(doc: Doc, n: nat)
    requires Shaped(doc) && 1 <= n <= |doc|
    ensures Shaped(doc[..n])
  {
    assert KeysOf(doc[..n]) == KeysOf(doc)[..n];
  }

  /** Sectionizer state: the sections so far and the section receiving lines
      (`None` while inside a profile-information section). */
  datatype ParseState = ParseState(doc: Doc, cur: Option<nat>)

  predicate GoodState(st: ParseState) {
    Shaped(st.doc) && (st.cur.Some? ==> st.cur.value < |st.doc|)
  }

  function AppendLine(doc: Doc, c: nat, line: string): Doc
    requires c < |doc|
  {
    doc[c := Section(doc[c].key, doc[c].lines + [line])]
  }

  /** One iteration of the sectionizer loop. */
  function Step(st: ParseState, line: string): ParseState {
    var t := Strip(line);
    if IsHeaderText(t) then
      if t in InfoHeaders then ParseState(st.doc, None)
      else
        match KeyIndex(st.doc, Named(t))
        case Some(k) => ParseState(st.doc, Some(k))
        case None => ParseState(st.doc + [Section(Named(t), [])], Some(|st.doc|))
    else
      match st.cur
      case Some(c) => if c < |st.doc| then ParseState(AppendLine(st.doc, c, line), st.cur) else st
      case None => st
  }

  lemma {:induction false} StepGood(st: ParseState, line: string)
    requires GoodState(st)
    ensures GoodState(Step(st, line))
  {
    var t := Strip(line);
    if IsHeaderText(t) {
      if t !in InfoHeaders && KeyIndex(st.doc, Named(t)).None? {
        ShapedAdd(st.doc, t);
      }
    } else if st.cur.Some? {
      assert KeysOf(AppendLine(st.doc, st.cur.value, line)) == KeysOf(st.doc);
    }
  }

  /** The sectionizer loop over the remaining lines. */
  function Run(st: ParseState, lines: seq<string>): ParseState
    decreases |lines|
  {
    if |lines| == 0 then st else Run(Step(st, lines[0]), lines[1..])
  }

  lemma {:induction false} RunGood(st: ParseState, lines: seq<string>)
    requires GoodState(st)
    ensures GoodState(Run(st, lines))
    decreases |lines|
  {
    if |lines| > 0 {
      StepGood(st, lines[0]);
      RunGood(Step(st, lines[0]), lines[1..]);
    }
  }

  lemma {:induction false} RunSingle(st: ParseState, line: string)
    ensures Run(st, [line]) == Step(st, line)
  {
    SingleTail(line);
  }

  lemma {:induction false} RunConcat(st: ParseState, a: seq<string>, b: seq<string>)
    ensures Run(st, a + b) == Run(Run(st, a), b)
    decreases |a|
  {
    if |a| > 0 {
      TailOfConcat(a, b);
      RunConcat(Step(st, a[0]), a[1..], b);
    } else {
      ConcatEmpty(b);
    }
  }

  const InitialState: ParseState := ParseState([Section(Global, [])], Some(0))

  /** Step 2 of the rewrite: group lines into sections. */
  function Sectionize(lines: seq<string>): (doc: Doc)
    ensures Shaped(doc)
  {
    RunGood(InitialState, lines);
    Run(InitialState, lines).doc
  }

  /** Reading a file: clean, then sectionize. */
  function Parse(text: seq<string>): Doc {
    Sectionize(Clean(text))
  }

  /** The kept lines a document holds, headers included, in file order. */
  function Flatten(doc: Doc): seq<string>
  {
    if |doc| == 0 then [] else Flatten(doc[..|doc| - 1]) + Chunk(doc[|doc| - 1])
  }

  /** One section as it is written: the leading region bare, a named section after its header. */
  function Chunk(s: Section): seq<string> {
    match s.key
    case Global => s.lines
    case Named(h) => [h] + s.lines
  }

  /** The writer's output for one section: a blank line precedes every header. */
  function EmitChunk(s: Section): seq<string> {
    match s.key
    case Global => s.lines
    case Named(h) => ["", h] + s.lines
  }

  /** Serializing the sections in order (the `final_output` list). */
  function Emit(doc: Doc): seq<string>
  {
    if |doc| == 0 then [] else Emit(doc[..|doc| - 1]) + EmitChunk(doc[|doc| - 1])
  }

  /** Lines a section may hold for its document to survive a write/read cycle. */
  predicate BodyLine(line: string) {
    Kept(line) && !IsHeaderLine(line)
  }

  predicate BodyLines(lines: seq<string>) {
    |lines| == 0 || (BodyLine(lines[0]) && BodyLines(lines[1..]))
  }

  /** No line opens a section. */
  predicate NoHeaders(lines: seq<string>) {
    |lines| == 0 || (!IsHeaderLine(lines[0]) && NoHeaders(lines[1..]))
  }

  lemma {:induction false} BodyLinesAt(lines: seq<string>)
    ensures BodyLines(lines) <==> forall i :: 0 <= i < |lines| ==> BodyLine(lines[i])
  {
    if |lines| > 0 {
      BodyLinesAt(lines[1..]);
      assert forall i :: 1 <= i < |lines| ==> lines[i] == lines[1..][i - 1];
    }
  }

  lemma {:induction false} BodyLinesSplit(lines: seq<string>)
    requires BodyLines(lines)
    ensures AllKept(lines) && NoHeaders(lines)
  {
    if |lines| > 0 {
      BodyLinesSplit(lines[1..]);
    }
  }

  /** A document the writer and the sectionizer agree on. */
  predicate WellFormed(doc: Doc) {
    && Shaped(doc)
    && (forall i :: 0 <= i < |doc| ==> BodyLines(doc[i].lines))
  }

  lemma {:induction false} WellFormedPrefix(doc: Doc, n: nat)
    requires WellFormed(doc) && 1 <= n <= |doc|
    ensures WellFormed(doc[..n])
  {
    ShapedPrefix(doc, n);
  }

  lemma {:induction false} HeaderKept(h: string)
    requires IsHeaderText(h)
    ensures Kept(h) && IsHeaderLine(h)
  {
    HeaderStripped(h);
  }

  lemma {:induction false} SingleSection(doc: Doc)
    requires |doc| == 1
    ensures Flatten(doc) == Chunk(doc[0]) && Emit(doc) == EmitChunk(doc[0])
  {
    assert doc[..0] == [];
  }

  lemma {:induction false} CleanChunk(s: Section)
    requires BodyLines(s.lines)
    requires s.key.Named? ==> IsHeaderText(s.key.header)
    ensures Clean(EmitChunk(s)) == Chunk(s)
  {
    BodyLinesSplit(s.lines);
    CleanAllKept(s.lines);
    if s.key.Named? {
      var h := s.key.header;
      HeaderKept(h);
      assert !Kept("");
      ConsPair("", h, s.lines);
      CleanConcat([""], [h] + s.lines);
      CleanConcat([h], s.lines);
    }
  }

  /** The blank separators the writer adds vanish on reading. */
  lemma {:induction false} CleanEmit(doc: Doc)
    requires WellFormed(doc)
    ensures Clean(Emit(doc)) == Flatten(doc)
    decreases |doc|
  {
    if |doc| > 1 {
      var p := doc[..|doc| - 1];
      var s := doc[|doc| - 1];
      assert Emit(doc) == Emit(p) + EmitChunk(s);
      assert Flatten(doc) == Flatten(p) + Chunk(s);
      WellFormedPrefix(doc, |p|);
      CleanEmit(p);
      CleanConcat(Emit(p), EmitChunk(s));
      assert ValidNamedKey(KeysOf(doc)[|doc| - 1]);
      assert BodyLines(s.lines);
      CleanChunk(s);
    } else {
      SingleSection(doc);
      assert BodyLines(doc[0].lines);
      CleanChunk(doc[0]);
    }
  }

  lemma {:induction false} StepBody(st: ParseState, line: string)
    requires st.cur.Some? && st.cur.value < |st.doc| && !IsHeaderLine(line)
    ensures Step(st, line) == ParseState(AppendLine(st.doc, st.cur.value, line), st.cur)
  {
  }

  lemma {:induction false} StepNewHeader(st: ParseState, h: string)
    requires ValidNamedKey(Named(h)) && KeyIndex(st.doc, Named(h)).None?
    ensures Step(st, h) == ParseState(st.doc + [Section(Named(h), [])], Some(|st.doc|))
  {
    HeaderStripped(h);
  }

  /** Feeding body lines to the section receiving lines appends them to it. */
  lemma {:induction false} RunBody(st: ParseState, lines: seq<string>)
    requires st.cur.Some? && st.cur.value < |st.doc|
    requires NoHeaders(lines)
    ensures var c := st.cur.value;
      Run(st, lines) == ParseState(st.doc[c := Section(st.doc[c].key, st.doc[c].lines + lines)], st.cur)
    decreases |lines|
  {
    var c := st.cur.value;
    if |lines| == 0 {
      assert st.doc[c].lines + lines == st.doc[c].lines;
      assert st.doc[c := Section(st.doc[c].key, st.doc[c].lines)] == st.doc;
    } else {
      var st' := ParseState(AppendLine(st.doc, c, lines[0]), st.cur);
      StepBody(st, lines[0]);
      assert Run(st, lines) == Run(st', lines[1..]);
      RunBody(st', lines[1..]);
      assert st.doc[c].lines + [lines[0]] + lines[1..] == st.doc[c].lines + lines;
      assert st'.doc[c := Section(st'.doc[c].key, st'.doc[c].lines + lines[1..])]
          == st.doc[c := Section(st.doc[c].key, st.doc[c].lines + lines)];
    }
  }

  /** Reading the leading region. */
  lemma {:induction false} RunGlobal(lines: seq<string>)
    requires NoHeaders(lines)
    ensures Run(InitialState, lines) == ParseState([Section(Global, lines)], Some(0))
  {
    RunBody(InitialState, lines);
    var d := InitialState.doc;
    assert d[0].lines + lines == lines;
    assert d[0 := Section(Global, lines)] == [Section(Global, lines)];
  }

  /** Reading a section whose header is new to the document. */
  lemma {:induction false} RunNewSection(p: Doc, h: string, lines: seq<string>)
    requires |p| >= 1 && ValidNamedKey(Named(h)) && KeyIndex(p, Named(h)).None?
    requires NoHeaders(lines)
    ensures Run(ParseState(p, Some(|p| - 1)), [h] + lines) == ParseState(p + [Section(Named(h), lines)], Some(|p|))
  {
    var st := ParseState(p, Some(|p| - 1));
    RunConcat(st, [h], lines);
    var st1 := ParseState(p + [Section(Named(h), [])], Some(|p|));
    StepNewHeader(st, h);
    RunSingle(st, h);
    RunBody(st1, lines);
    ConcatEmpty(lines);
    UpdateLast(p, Section(Named(h), []), Section(Named(h), lines));
  }

  /** The sectionizer is a left inverse of the writer: reading back what was
      written reproduces the document, repeated headers and all. */
  lemma {:induction false} SectionizeFlatten(doc: Doc)
    requires WellFormed(doc)
    ensures Run(InitialState, Flatten(doc)) == ParseState(doc, Some(|doc| - 1))
    ensures Sectionize(Flatten(doc)) == doc
    decreases |doc|
  {
    if |doc| == 1 {
      SingleSection(doc);
      assert BodyLines(doc[0].lines);
      BodyLinesSplit(doc[0].lines);
      RunGlobal(doc[0].lines);
      assert [Section(Global, doc[0].lines)] == doc;
    } else {
      var p := doc[..|doc| - 1];
      var s := doc[|doc| - 1];
      assert ValidNamedKey(KeysOf(doc)[|doc| - 1]);
      var h := s.key.header;
      assert Flatten(doc) == Flatten(p) + ([h] + s.lines);
      WellFormedPrefix(doc, |p|);
      SectionizeFlatten(p);
      RunConcat(InitialState, Flatten(p), [h] + s.lines);
      assert KeyIndex(p, Named(h)).None? by {
        forall j | 0 <= j < |p|
          ensures p[j].key != Named(h)
        {
          assert KeysOf(doc)[j] != KeysOf(doc)[|doc| - 1];
        }
      }
      assert BodyLines(s.lines);
      BodyLinesSplit(s.lines);
      RunNewSection(p, h, s.lines);
      assert Section(Named(h), s.lines) == s;
      SplitLast(doc);
    }
  }

  lemma {:induction false} BodyLinesAppend(lines: seq<string>, line: string)
    requires BodyLines(lines) && BodyLine(line)
    ensures BodyLines(lines + [line])
    decreases |lines|
  {
    if |lines| > 0 {
      TailOfConcat(lines, [line]);
      BodyLinesAppend(lines[1..], line);
    } else {
      ConcatEmpty([line]);
      SingleTail(line);
    }
  }

  /** The sectionizer's invariant: its document is well formed. */
  predicate WellState(st: ParseState) {
    WellFormed(st.doc) && (st.cur.Some? ==> st.cur.value < |st.doc|)
  }

  lemma {:induction false} StepWell(st: ParseState, line: string)
    requires WellState(st) && Kept(line)
    ensures WellState(Step(st, line))
  {
    StepGood(st, line);
    var t := Strip(line);
    if IsHeaderText(t) {
      if t !in InfoHeaders && KeyIndex(st.doc, Named(t)).None? {
        var d := st.doc + [Section(Named(t), [])];
        assert forall i :: 0 <= i < |st.doc| ==> d[i] == st.doc[i];
      }
    } else if st.cur.Some? {
      var c := st.cur.value;
      var d := AppendLine(st.doc, c, line);
      BodyLinesAppend(st.doc[c].lines, line);
      assert forall i :: 0 <= i < |d| && i != c ==> d[i] == st.doc[i];
    }
  }

  lemma {:induction false} RunWell(st: ParseState, lines: seq<string>)
    requires WellState(st) && AllKept(lines)
    ensures WellState(Run(st, lines))
    decreases |lines|
  {
    if |lines| > 0 {
      StepWell(st, lines[0]);
      RunWell(Step(st, lines[0]), lines[1..]);
    }
  }

  lemma {:induction false} AllKeptConcat(a: seq<string>, b: seq<string>)
    requires AllKept(a) && AllKept(b)
    ensures AllKept(a + b)
    decreases |a|
  {
    if |a| > 0 {
      TailOfConcat(a, b);
      AllKeptConcat(a[1..], b);
    } else {
      ConcatEmpty(b);
    }
  }

  /** Everything the writer emits for a well-formed document survives cleaning. */
  lemma {:induction false} FlattenKept(doc: Doc)
    requires WellFormed(doc)
    ensures AllKept(Flatten(doc))
    decreases |doc|
  {
    if |doc| > 0 {
      var p := doc[..|doc| - 1];
      var s := doc[|doc| - 1];
      if |doc| > 1 {
        WellFormedPrefix(doc, |p|);
        FlattenKept(p);
        assert ValidNamedKey(KeysOf(doc)[|doc| - 1]);
      } else {
        assert p == [];
      }
      assert BodyLines(s.lines);
      BodyLinesSplit(s.lines);
      if s.key.Named? {
        HeaderKept(s.key.header);
        AllKeptConcat([s.key.header], s.lines);
      }
      AllKeptConcat(Flatten(p), Chunk(s));
    }
  }

  /** Whatever file is read, the writer and the sectionizer agree on the result. */
  lemma {:induction false} ParseWellFormed(text: seq<string>)
    ensures WellFormed(Parse(text))
  {
    assert BodyLines(InitialState.doc[0].lines);
    RunWell(InitialState, Clean(text));
  }

  /** Reading is stable under writing: a file read, written and read again gives the same sections. */
  lemma {:induction false} ParseFlattenParse(text: seq<string>)
    ensures Parse(Flatten(Parse(text))) == Parse(text)
  {
    var d := Parse(text);
    ParseWellFormed(text);
    FlattenKept(d);
    CleanAllKept(Flatten(d));
    SectionizeFlatten(d);
  }

  /** Lines after a profile-information header never reach the document, up to
      the next header that is not one. */
  lemma {:induction false} RunDiscarded(st: ParseState, lines: seq<string>)
    requires st.cur.None?
    requires forall j :: 0 <= j < |lines| && IsHeaderLine(lines[j]) ==> Strip(lines[j]) in InfoHeaders
    ensures Run(st, lines) == st
    decreases |lines|
  {
    if |lines| > 0 {
      RunDiscarded(Step(st, lines[0]), lines[1..]);
    }
  }
}

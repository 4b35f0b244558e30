/**
 * Running `_rewrite_ini_file` (main.py) again on its own output. The written
 * text reads back as the sections that were written, with the first line of
 * the leading region and the last line of the file trimmed. From the second
 * run on, the rewrite changes nothing more.
 */
module IniSettle {
  import opened Text
  import opened Wrappers
  import opened Seqs
  import opened IniDoc
  import opened IniSections
  import opened IniRewrite

  // ------------------------------------------------------------- trimming

  /** What the final `lstrip` does to the leading region: its first line loses
      its leading whitespace. */
  function LTouch(lines: seq<string>): (r: seq<string>)
    ensures |r| == |lines|
  {
    if |lines| == 0 then lines else [LStrip(lines[0])] + lines[1..]
  }

  /** What the final `rstrip` does to the last section: its last line loses
      its trailing whitespace. */
  function RTouch(lines: seq<string>): (r: seq<string>)
    ensures |r| == |lines|
  {
    if |lines| == 0 then lines else lines[..|lines| - 1] + [RStrip(lines[|lines| - 1])]
  }

  function LTouchFirst(doc: Doc): (r: Doc)
    requires |doc| >= 1
    ensures |r| == |doc|
  {
    doc[0 := Section(doc[0].key, LTouch(doc[0].lines))]
  }

  function RTouchLast(doc: Doc): (r: Doc)
    requires |doc| >= 1
    ensures |r| == |doc|
  {
    doc[|doc| - 1 := Section(doc[|doc| - 1].key, RTouch(doc[|doc| - 1].lines))]
  }

  /** The sections the written text reads back as. */
  function Touch(doc: Doc): (r: Doc)
    requires |doc| >= 1
    ensures |r| == |doc|
  {
    LTouchFirst(RTouchLast(doc))
  }

  /** The serialized sections without the blank separator that the final
      `lstrip` drops when the leading region is empty. */
  function Shown(doc: Doc): seq<string>
    requires |doc| >= 1
  {
    var e := Emit(doc);
    if |doc[0].lines| == 0 && |e| > 0 then e[1..] else e
  }

  lemma {:induction false} TouchAt(doc: Doc)
    requires |doc| >= 2
    ensures forall i :: 0 <= i < |doc| ==> Touch(doc)[i].key == doc[i].key
    ensures Touch(doc)[0].lines == LTouch(doc[0].lines)
    ensures Touch(doc)[|doc| - 1].lines == RTouch(doc[|doc| - 1].lines)
    ensures forall i :: 0 < i < |doc| - 1 ==> Touch(doc)[i] == doc[i]
  {
  }

  /** Whether a line is a body line depends on its stripped text alone. */
  lemma {:induction false} BodyLineByStrip(a: string, b: string)
    requires Strip(a) == Strip(b)
    ensures BodyLine(a) == BodyLine(b)
  {
  }

  lemma {:induction false} LTouchBody(lines: seq<string>)
    requires BodyLines(lines)
    ensures BodyLines(LTouch(lines))
  {
    if |lines| > 0 {
      StripOfLStrip(lines[0]);
      BodyLineByStrip(LStrip(lines[0]), lines[0]);
      assert LTouch(lines)[1..] == lines[1..];
    }
  }

  lemma {:induction false} RTouchBody(lines: seq<string>)
    requires BodyLines(lines)
    ensures BodyLines(RTouch(lines))
  {
    if |lines| > 0 {
      var n := |lines|;
      var pre := lines[..n - 1];
      BodyLinesAt(lines);
      BodyLinesAt(pre);
      StripOfRStrip(lines[n - 1]);
      BodyLineByStrip(RStrip(lines[n - 1]), lines[n - 1]);
      BodyLinesAppend(pre, RStrip(lines[n - 1]));
    }
  }

  /** The trims keep a document well formed. */
  lemma {:induction false} TouchWellFormed(doc: Doc)
    requires WellFormed(doc) && |doc| >= 2
    ensures WellFormed(Touch(doc))
  {
    var t := Touch(doc);
    TouchAt(doc);
    ShapedSameKeys(doc, t);
    LTouchBody(doc[0].lines);
    RTouchBody(doc[|doc| - 1].lines);
  }

  // ------------------------------------------------------------- emitting

  lemma {:induction false} EmitConcat(a: Doc, b: Doc)
    ensures Emit(a + b) == Emit(a) + Emit(b)
    decreases |b|
  {
    if |b| == 0 {
      assert a + b == a;
    } else {
      var b' := b[..|b| - 1];
      DropLastConcat(a, b);
      EmitConcat(a, b');
      Assoc(Emit(a), Emit(b'), EmitChunk(b[|b| - 1]));
    }
  }

  lemma {:induction false} EmitFront(doc: Doc)
    requires |doc| >= 1
    ensures Emit(doc) == EmitChunk(doc[0]) + Emit(doc[1..])
  {
    EmitConcat([doc[0]], doc[1..]);
    SingleSection([doc[0]]);
    assert [doc[0]] + doc[1..] == doc;
  }

  /** Right-trimming ends at the last line that is not blank. */
  lemma {:induction false} TrimEndLast(x: seq<string>, c: seq<string>)
    requires |c| > 0 && !Blank(c[|c| - 1])
    ensures TrimEnd(x + c) == x + (c[..|c| - 1] + [RStrip(c[|c| - 1])])
  {
    var y := x + c;
    assert y[|y| - 1] == c[|c| - 1];
    assert LastNonBlank(y) == Some(|y| - 1);
    DropLastConcat(x, c);
    Assoc(x, c[..|c| - 1], [RStrip(c[|c| - 1])]);
  }

  /** The chunk of a well-formed named section ends in a line that is not
      blank, and touching the section right-strips that line. */
  lemma {:induction false} ChunkRTouch(s: Section)
    requires s.key.Named? && IsHeaderText(s.key.header) && BodyLines(s.lines)
    ensures var c := EmitChunk(s);
      && |c| > 0 && !Blank(c[|c| - 1])
      && EmitChunk(Section(s.key, RTouch(s.lines))) == c[..|c| - 1] + [RStrip(c[|c| - 1])]
  {
    var h := s.key.header;
    var c := EmitChunk(s);
    assert c == ["", h] + s.lines;
    if |s.lines| == 0 {
      HeaderStripped(h);
      RStripNoop(h);
    } else {
      BodyLinesAt(s.lines);
      assert BodyLine(s.lines[|s.lines| - 1]);
      assert c[|c| - 1] == s.lines[|s.lines| - 1];
    }
  }

  /** Replacing the last section changes only the last chunk. */
  lemma {:induction false} EmitLast(doc: Doc, s: Section)
    requires |doc| >= 1
    ensures Emit(doc[|doc| - 1 := s]) == Emit(doc[..|doc| - 1]) + EmitChunk(s)
  {
    var r := doc[|doc| - 1 := s];
    assert r[..|doc| - 1] == doc[..|doc| - 1];
  }

  lemma {:induction false} TrimEndEmit(doc: Doc)
    requires WellFormed(doc) && |doc| >= 2
    ensures TrimEnd(Emit(doc)) == Emit(RTouchLast(doc))
  {
    var n := |doc|;
    var s := doc[n - 1];
    assert ValidNamedKey(KeysOf(doc)[n - 1]);
    assert BodyLines(s.lines);
    ChunkRTouch(s);
    EmitLast(doc, s);
    assert doc[n - 1 := s] == doc;
    EmitLast(doc, Section(s.key, RTouch(s.lines)));
    TrimEndLast(Emit(doc[..n - 1]), EmitChunk(s));
  }

  /** The first written line that is not blank is the first line of the
      leading region, or the first header when the region is empty. */
  lemma {:induction false} TrimStartEmit(doc: Doc, tail: seq<string>)
    requires |doc| >= 2 && doc[0].key == Global && doc[1].key.Named? && IsHeaderText(doc[1].key.header)
    requires |doc[0].lines| > 0 ==> !Blank(doc[0].lines[0])
    ensures TrimStart(Emit(doc) + tail) == Shown(LTouchFirst(doc)) + tail
  {
    if |doc[0].lines| > 0 {
      TrimStartLead(doc, tail);
    } else {
      TrimStartBare(doc, tail);
    }
  }

  /** Left-trimming starts at the first line that is not blank. */
  lemma {:induction false} TrimStartAt(x: seq<string>, j: nat)
    requires j < |x| && !Blank(x[j]) && forall i :: 0 <= i < j ==> Blank(x[i])
    ensures TrimStart(x) == [LStrip(x[j])] + x[j + 1..]
  {
    assert FirstNonBlank(x) == Some(j);
  }

  lemma {:induction false} TrimStartLine(g: seq<string>, rest: seq<string>)
    requires |g| > 0 && !Blank(g[0])
    ensures TrimStart(g + rest) == LTouch(g) + rest
  {
    var y := g + rest;
    assert y[0] == g[0];
    TrimStartAt(y, 0);
    DropConcat(g, rest, 1);
  }

  lemma {:induction false} TrimStartHeader(e: seq<string>, tail: seq<string>)
    requires |e| >= 2 && e[0] == "" && IsHeaderText(e[1])
    ensures TrimStart(e + tail) == e[1..] + tail
  {
    var y := e + tail;
    assert y[0] == "" && y[1] == e[1];
    assert Blank(y[0]);
    HeaderStripped(e[1]);
    LStripNoop(e[1]);
    TrimStartAt(y, 1);
    ConsDrop(y, 1);
    DropConcat(e, tail, 1);
  }

  /** Replacing the lines of the first section changes only the first chunk. */
  lemma {:induction false} EmitFirstLines(doc: Doc, lines: seq<string>)
    requires |doc| >= 1 && doc[0].key == Global
    ensures Emit(doc[0 := Section(Global, lines)]) == lines + Emit(doc[1..])
  {
    var l := doc[0 := Section(Global, lines)];
    EmitFront(l);
    assert l[1..] == doc[1..];
  }

  lemma {:induction false} TrimStartLead(doc: Doc, tail: seq<string>)
    requires |doc| >= 2 && doc[0].key == Global
    requires |doc[0].lines| > 0 && !Blank(doc[0].lines[0])
    ensures TrimStart(Emit(doc) + tail) == Shown(LTouchFirst(doc)) + tail
  {
    var g := doc[0].lines;
    var rest := Emit(doc[1..]);
    assert Emit(doc) == g + rest by {
      EmitFirstLines(doc, g);
      assert doc[0 := Section(Global, g)] == doc;
    }
    assert Shown(LTouchFirst(doc)) == LTouch(g) + rest by {
      EmitFirstLines(doc, LTouch(g));
    }
    Assoc(g, rest, tail);
    Assoc(LTouch(g), rest, tail);
    TrimStartLine(g, rest + tail);
  }

  /** With an empty leading region the text starts with the separator and the
      first header. */
  lemma {:induction false} EmitBareStart(doc: Doc)
    requires |doc| >= 2 && doc[0].key == Global && doc[1].key.Named? && |doc[0].lines| == 0
    ensures |Emit(doc)| >= 2 && Emit(doc)[0] == "" && Emit(doc)[1] == doc[1].key.header
  {
    var t := doc[1..];
    assert Emit(doc) == Emit(t) by {
      EmitFirstLines(doc, []);
      assert doc[0 := Section(Global, [])] == doc;
    }
    EmitFront(t);
    assert t[0] == doc[1];
  }

  lemma {:induction false} TrimStartBare(doc: Doc, tail: seq<string>)
    requires |doc| >= 2 && doc[0].key == Global && doc[1].key.Named? && IsHeaderText(doc[1].key.header)
    requires |doc[0].lines| == 0
    ensures TrimStart(Emit(doc) + tail) == Shown(LTouchFirst(doc)) + tail
  {
    EmitBareStart(doc);
    TrimStartHeader(Emit(doc), tail);
    assert LTouchFirst(doc) == doc;
  }

  /** The written text is the touched sections, serialized, followed by the trailer. */
  lemma {:induction false} OutputForm(doc: Doc, tail: seq<string>)
    requires WellFormed(doc) && |doc| >= 2
    ensures Output(doc, tail) == Shown(Touch(doc)) + tail
  {
    TrimEndEmit(doc);
    var r := RTouchLast(doc);
    assert r[0] == doc[0] && r[1].key == doc[1].key;
    assert ValidNamedKey(KeysOf(doc)[1]);
    assert KeysOf(doc)[0] == Global;
    assert BodyLines(doc[0].lines);
    if |doc[0].lines| > 0 {
      assert BodyLine(doc[0].lines[0]);
    }
    TrimStartEmit(r, tail);
  }

  // ------------------------------------------------------------- reading back

  /** Every header among `lines` is a profile-information header, so the
      sectionizer drops them all once it is inside such a section. */
  predicate Discarded(lines: seq<string>) {
    forall j :: 0 <= j < |lines| && IsHeaderLine(lines[j]) ==> Strip(lines[j]) in InfoHeaders
  }

  /** A trailer that reading discards: nothing, or a blank line, a
      profile-information header and lines that never leave such sections. */
  predicate TailGood(t: seq<string>) {
    t == [] || (|t| >= 2 && Blank(t[0]) && Strip(t[1]) in InfoHeaders && Discarded(t[2..]))
  }

  lemma {:induction false} CleanDiscarded(lines: seq<string>)
    requires Discarded(lines)
    ensures Discarded(Clean(lines))
  {
    var c := Clean(lines);
    forall j | 0 <= j < |c| && IsHeaderLine(c[j])
      ensures Strip(c[j]) in InfoHeaders
    {
      CleanMembers(lines, c[j]);
      var i :| 0 <= i < |lines| && lines[i] == c[j];
    }
  }

  /** Reading a discarded trailer leaves the sections as they were. */
  lemma {:induction false} TailRun(st: ParseState, t: seq<string>)
    requires TailGood(t)
    ensures Run(st, Clean(t)).doc == st.doc
  {
    if t != [] {
      var h := t[1];
      assert !Kept(t[0]);
      assert Clean(t) == Clean(t[1..]);
      assert t[1..][0] == h && t[1..][1..] == t[2..];
      assert Kept(h) && IsHeaderText(Strip(h));
      assert Clean(t[1..]) == [h] + Clean(t[2..]);
      var c := Clean(t[2..]);
      assert ([h] + c)[1..] == c;
      assert Step(st, h) == ParseState(st.doc, None);
      CleanDiscarded(t[2..]);
      RunDiscarded(ParseState(st.doc, None), c);
    }
  }

  /** Cleaning ignores the separator the final `lstrip` drops. */
  lemma {:induction false} CleanShown(doc: Doc)
    requires |doc| >= 2 && doc[0].key == Global && doc[1].key.Named?
    ensures Clean(Shown(doc)) == Clean(Emit(doc))
  {
    var e := Emit(doc);
    if |doc[0].lines| == 0 {
      EmitBareStart(doc);
      assert !Kept(e[0]);
    }
  }

  /** The written text reads back as the touched sections: the trailer is
      discarded and the separators vanish. */
  lemma {:induction false} ParseOutput(doc: Doc, tail: seq<string>)
    requires WellFormed(doc) && |doc| >= 2 && TailGood(tail)
    ensures Parse(Output(doc, tail)) == Touch(doc)
  {
    var t := Touch(doc);
    OutputForm(doc, tail);
    TouchWellFormed(doc);
    assert KeysOf(t)[0] == Global;
    assert ValidNamedKey(KeysOf(t)[1]);
    CleanConcat(Shown(t), tail);
    CleanShown(t);
    CleanEmit(t);
    RunConcat(InitialState, Flatten(t), Clean(tail));
    SectionizeFlatten(t);
    TailRun(ParseState(t, Some(|t| - 1)), tail);
  }

  /** A line whose last character is neither whitespace nor `]` opens no section. */
  lemma {:induction false} NotHeaderByLast(l: string)
    requires |l| > 0 && !IsSpace(l[|l| - 1]) && l[|l| - 1] != ']'
    ensures !IsHeaderLine(l)
  {
    var s := LStrip(l);
    LStripKeepsLast(l);
    RStripNoop(s);
    assert Strip(l) == s;
  }

  lemma {:induction false} EndsWithLiteral(a: string, b: string)
    requires |b| > 0
    ensures |a + b| > 0 && (a + b)[|a + b| - 1] == b[|b| - 1]
  {
  }

  lemma {:induction false} DiscardedConcat(a: seq<string>, b: seq<string>)
    requires Discarded(a) && Discarded(b)
    ensures Discarded(a + b)
  {
    var c := a + b;
    forall j | 0 <= j < |c| && IsHeaderLine(c[j])
      ensures Strip(c[j]) in InfoHeaders
    {
      if j >= |a| {
        assert c[j] == b[j - |a|];
      }
    }
  }

  lemma {:induction false} DiscardedSuffix(a: seq<string>, k: nat)
    requires Discarded(a) && k <= |a|
    ensures Discarded(a[k..])
  {
    var c := a[k..];
    forall j | 0 <= j < |c| && IsHeaderLine(c[j])
      ensures Strip(c[j]) in InfoHeaders
    {
      assert c[j] == a[j + k];
    }
  }

  /** A blank line followed by a profile-information header and lines that
      open no section. */
  lemma {:induction false} BlockDiscarded(b: seq<string>)
    requires |b| >= 2 && Blank(b[0]) && b[1] in InfoHeaders
    requires forall j :: 2 <= j < |b| ==> !IsHeaderLine(b[j])
    ensures Discarded(b)
  {
    HeaderStripped(b[1]);
  }

  lemma {:induction false} InfoBlockDiscarded(profileId: int)
    ensures Discarded(InfoBlock(profileId))
  {
    var b := InfoBlock(profileId);
    InfoBlockShape(profileId);
    forall j | 2 <= j < |b|
      ensures !IsHeaderLine(b[j])
    {
      if j == 6 {
        EndsWithLiteral(ProfileIdPrefix, IntToString(profileId));
      }
      NotHeaderByLast(b[j]);
    }
    BlockDiscarded(b);
  }

  lemma {:induction false} KeyShowBlockDiscarded(folder: string)
    ensures Discarded(KeyShowBlock(folder))
  {
    var b := KeyShowBlock(folder);
    assert Strip(b[0]) == "";
    EndsWithLiteral("condition = $mod_enabled && " + KeyCondition(folder), DetectedSuffix);
    NotHeaderByLast(b[2]);
    NotHeaderByLast(b[3]);
    NotHeaderByLast(b[4]);
    NotHeaderByLast(b[5]);
    NotHeaderByLast(b[6]);
    NotHeaderByLast(b[7]);
    BlockDiscarded(b);
  }

  lemma {:induction false} ResourceInfoBlockDiscarded(folder: string)
    ensures Discarded(ResourceInfoBlock(folder))
  {
    var b := ResourceInfoBlock(folder);
    assert Strip(b[0]) == "";
    EndsWithLiteral("data = \"MIMM - " + folder, "\"");
    NotHeaderByLast(b[2]);
    NotHeaderByLast(b[3]);
    BlockDiscarded(b);
  }

  /** The profile-information trailer is discarded on reading. */
  lemma {:induction false} TrailerGood(folder: string, profileId: int)
    ensures TailGood(Trailer(folder, profileId))
  {
    var i := InfoBlock(profileId);
    var k := KeyShowBlock(folder);
    var r := ResourceInfoBlock(folder);
    InfoBlockDiscarded(profileId);
    KeyShowBlockDiscarded(folder);
    ResourceInfoBlockDiscarded(folder);
    DiscardedConcat(i, k);
    DiscardedConcat(i + k, r);
    var t := Trailer(folder, profileId);
    TrailerShape(folder, profileId);
    DiscardedSuffix(t, 1);
    DiscardedSuffix(t, 2);
    assert t[1..][0] == t[1];
    HeaderStripped(t[1]);
  }
}

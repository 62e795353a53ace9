/** From the document's fences to the chunks: a section's own tracker repeats the document-wide one,
    merging keeps that up, and so a fenced block of the document reaches one chunk whole. */
module Regions {
  import opened Text
  import opened Lines
  import opened Trackers
  import opened Splitter
  import opened Chunker

  // ---------------------------------------------------- tracker agreement

  /** Outside a fence the remembered depth is dead; inside it matters. */
  predicate Agree(f: Fence, g: Fence) {
    f.inside == g.inside && (f.inside ==> f.depth == g.depth)
  }

  lemma {:induction false} AgreeRun(f: Fence, g: Fence, lines: seq<string>)
    requires Agree(f, g)
    ensures Agree(FenceRun(f, lines), FenceRun(g, lines))
    decreases lines
  {
    if lines != [] {
      AgreeRun(FenceStep(f, lines[0]), FenceStep(g, lines[0]), lines[1..]);
    }
  }

  /** The document-wide tracker before line i. */
  function Before(doc: seq<string>, i: nat): Fence
    requires i <= |doc|
  {
    FenceRun(NO_FENCE, doc[..i])
  }

  predicate ConsumedAt(doc: seq<string>, i: nat)
    requires i < |doc|
  {
    Consumed(Before(doc, i), doc[i])
  }

  /** The title of the last page heading before line i that became structure. */
  function PageBefore(doc: seq<string>, i: nat): Option<string>
    requires i <= |doc|
  {
    if i == 0 then None
    else if ConsumedAt(doc, i - 1) && PageTitle(doc[i - 1]).Some? then PageTitle(doc[i - 1])
    else PageBefore(doc, i - 1)
  }

  /** What the headings above line a say: nothing at the top, a page title alone, or a section title under
      the page it belongs to. */
  function HeadingAbove(doc: seq<string>, a: nat): seq<string>
    requires a <= |doc|
  {
    if a == 0 then []
    else if PageTitle(doc[a - 1]).Some? then [PageTitle(doc[a - 1]).value]
    else if SectionTitle(doc[a - 1]).None? then []
    else if PageBefore(doc, a).Some? then [PageBefore(doc, a).value, SectionTitle(doc[a - 1]).value]
    else [SectionTitle(doc[a - 1]).value]
  }

  /** The section is the stretch of the document from line a on, between two consumed headings (or
      the document's ends), under the headings above it. */
  predicate SpansFrom(doc: seq<string>, s: Section, a: nat, end: nat) {
    && a <= end <= |doc| && s.lines == doc[a..end] && s.headingPath == HeadingAbove(doc, a)
    && !Before(doc, a).inside
    && (a == 0 || ConsumedAt(doc, a - 1))
    && (forall i | a <= i < end :: !ConsumedAt(doc, i))
  }

  predicate Spans(doc: seq<string>, s: Section, a: nat) {
    var end := a + |s.lines|;
    SpansFrom(doc, s, a, end) && (end == |doc| || ConsumedAt(doc, end))
  }

  ghost predicate HasSpan(doc: seq<string>, s: Section) {
    exists a: nat :: Spans(doc, s, a)
  }

  lemma BeforeStep(doc: seq<string>, i: nat)
    requires i < |doc|
    ensures Before(doc, i + 1) == FenceStep(Before(doc, i), doc[i])
  {
    FenceRunSnoc(NO_FENCE, doc, i);
  }

  /** Where the section being read started, and what became of the lines already closed. */
  ghost predicate ReadInv(doc: seq<string>, k: nat, r: Reading, a: nat)
    requires k <= |doc|
  {
    && r.fence == Before(doc, k) && r.page == PageBefore(doc, k)
    && SpansFrom(doc, r.current, a, k)
    && (forall j | 0 <= j < |r.done| :: HasSpan(doc, r.done[j]))
    && (forall i | 0 <= i < a && !ConsumedAt(doc, i) && !Blank(doc[i]) :: InSomeSection(doc, r.done, i))
  }

  ghost predicate InSomeSection(doc: seq<string>, sections: seq<Section>, i: nat) {
    exists j: nat, a: nat :: j < |sections| && Spans(doc, sections[j], a) && a <= i < a + |sections[j].lines|
  }

  lemma {:induction false} BlankJoin(lines: seq<string>, i: nat)
    requires i < |lines| && !Blank(lines[i])
    ensures !Blank(Join(lines, ""))
  {
    if Blank(Join(lines, "")) { JoinBlank(lines); }
  }

  lemma MoreSections(doc: seq<string>, sections: seq<Section>, s: Section, i: nat)
    requires InSomeSection(doc, sections, i)
    ensures InSomeSection(doc, sections + [s], i)
  {
    var j: nat, a: nat :| j < |sections| && Spans(doc, sections[j], a) && a <= i < a + |sections[j].lines|;
    assert (sections + [s])[j] == sections[j];
  }

  /** Closing the current section at line k, which is a consumed heading or the end. */
  lemma CloseInv(doc: seq<string>, k: nat, r: Reading, a: nat)
    requires k <= |doc| && ReadInv(doc, k, r, a)
    requires k == |doc| || ConsumedAt(doc, k)
    ensures forall j | 0 <= j < |Close(r)| :: HasSpan(doc, Close(r)[j])
    ensures forall i | 0 <= i < k && !ConsumedAt(doc, i) && !Blank(doc[i]) :: InSomeSection(doc, Close(r), i)
  {
    hide ConsumedAt, Blank, Join, Before;
    assert Spans(doc, r.current, a);
    forall i | 0 <= i < k && !ConsumedAt(doc, i) && !Blank(doc[i])
      ensures InSomeSection(doc, Close(r), i)
    {
      if i < a {
        if !Blank(Join(r.current.lines, "")) { MoreSections(doc, r.done, r.current, i); }
      } else {
        assert r.current.lines[i - a] == doc[i];
        BlankJoin(r.current.lines, i - a);
        assert Close(r)[|r.done|] == r.current;
      }
    }
  }

  lemma KeepStepInv(doc: seq<string>, k: nat, r: Reading, a: nat)
    requires k < |doc| && ReadInv(doc, k, r, a) && !ConsumedAt(doc, k)
    ensures ReadInv(doc, k + 1, ReadStep(r, doc[k]), a)
  {
    hide IsHeading, IsFence, QuoteDepth, Blank, HasSpan, InSomeSection;
    BeforeStep(doc, k);
    var r' := ReadStep(r, doc[k]);
    assert r'.done == r.done && r'.current.lines == r.current.lines + [doc[k]];
    assert doc[a..k + 1] == doc[a..k] + [doc[k]];
    assert SpansFrom(doc, r'.current, a, k + 1);
  }

  lemma HeadPath(doc: seq<string>, k: nat, r: Reading)
    requires k < |doc| && r.fence == Before(doc, k) && r.page == PageBefore(doc, k) && ConsumedAt(doc, k)
    ensures ReadStep(r, doc[k]).current.headingPath == HeadingAbove(doc, k + 1)
    ensures ReadStep(r, doc[k]).page == PageBefore(doc, k + 1)
  {
    hide Before, FenceStep, TitleOf, Close, PageTitle, SectionTitle;
  }

  lemma HeadStepInv(doc: seq<string>, k: nat, r: Reading, a: nat)
    requires k < |doc| && ReadInv(doc, k, r, a) && ConsumedAt(doc, k)
    ensures ReadInv(doc, k + 1, ReadStep(r, doc[k]), k + 1)
  {
    hide IsHeading, IsFence, QuoteDepth, Blank, HasSpan, InSomeSection;
    BeforeStep(doc, k);
    CloseInv(doc, k, r, a);
    HeadPath(doc, k, r);
    hide HeadingAbove, PageBefore;
    var r' := ReadStep(r, doc[k]);
    assert r'.done == Close(r) && r'.current.lines == [] == doc[k + 1..k + 1];
    assert SpansFrom(doc, r'.current, k + 1, k + 1);
  }

  lemma {:induction false} ReadSpans(doc: seq<string>, k: nat) returns (a: nat)
    requires k <= |doc|
    ensures ReadInv(doc, k, ReadTo(doc, k), a)
  {
    hide ReadInv, ReadStep, ConsumedAt;
    if k == 0 {
      a := 0;
      ReadInvStart(doc);
    } else {
      a := ReadSpans(doc, k - 1);
      if ConsumedAt(doc, k - 1) {
        HeadStepInv(doc, k - 1, ReadTo(doc, k - 1), a);
        a := k;
      } else {
        KeepStepInv(doc, k - 1, ReadTo(doc, k - 1), a);
      }
    }
  }

  lemma ReadInvStart(doc: seq<string>)
    ensures ReadInv(doc, 0, UNREAD, 0)
  {
    assert doc[..0] == [] && doc[0..0] == [];
  }

  /** Every section is such a stretch, under the headings the document has above it, and every line that is
      neither blank nor consumed is in one. */
  lemma SectionsSpan(doc: seq<string>)
    ensures forall j | 0 <= j < |Sections(doc)| :: HasSpan(doc, Sections(doc)[j])
    ensures forall i | 0 <= i < |doc| && !ConsumedAt(doc, i) && !Blank(doc[i]) :: InSomeSection(doc, Sections(doc), i)
  {
    var a := ReadSpans(doc, |doc|);
    CloseInv(doc, |doc|, ReadTo(doc, |doc|), a);
  }

  // ------------------------------------------------------ headings of chunks

  lemma {:induction false} EmittedBody(cnt: TokenCount, path: seq<string>, bodies: seq<string>, ordinal: nat, i: nat)
    returns (k: nat)
    requires i < |Emit(cnt, path, bodies, ordinal)|
    ensures var c := Emit(cnt, path, bodies, ordinal)[i];
            k < |bodies| && c.headingPath == path && c.content == Trim(bodies[k])
    decreases bodies
  {
    hide Emit, Trim;
    EmitParts(cnt, path, bodies, ordinal);
    if Trim(bodies[0]) == [] {
      k := EmittedBody(cnt, path, bodies[1..], ordinal, i);
      k := k + 1;
    } else if i == 0 {
      k := 0;
    } else {
      k := EmittedBody(cnt, path, bodies[1..], ordinal + 1, i - 1);
      k := k + 1;
    }
  }

  /** Chunk i is among those piece m gives: it is the trimmed body k of that piece. */
  predicate GivenBy(cnt: TokenCount, pieces: seq<Piece>, ordinal: nat, i: nat, m: nat, k: nat) {
    var all := EmitAll(cnt, pieces, ordinal);
    && m < |pieces| && k < |pieces[m].bodies| && i < |all|
    && |EmitAll(cnt, pieces[..m], ordinal)| <= i < |EmitAll(cnt, pieces[..m + 1], ordinal)|
    && all[i].headingPath == pieces[m].path && all[i].content == Trim(pieces[m].bodies[k])
  }

  lemma GivenLater(cnt: TokenCount, pieces: seq<Piece>, ordinal: nat, here: nat, i: nat, m: nat, k: nat)
    requires pieces != [] && here == |Emit(cnt, pieces[0].path, pieces[0].bodies, ordinal)| <= i
    requires GivenBy(cnt, pieces[1..], ordinal + here, i - here, m, k)
    ensures GivenBy(cnt, pieces, ordinal, i, m + 1, k)
  {
    hide Emit, EmitAll, Trim;
    EmitCons(cnt, pieces, m + 1, ordinal);
    EmitCons(cnt, pieces, m + 2, ordinal);
    EmitCons(cnt, pieces, |pieces|, ordinal);
    assert pieces[..|pieces|] == pieces && pieces[1..][..|pieces| - 1] == pieces[1..];
  }

  lemma GivenFirst(cnt: TokenCount, pieces: seq<Piece>, ordinal: nat, i: nat) returns (k: nat)
    requires pieces != [] && i < |Emit(cnt, pieces[0].path, pieces[0].bodies, ordinal)|
    ensures GivenBy(cnt, pieces, ordinal, i, 0, k)
  {
    hide Emit, Trim;
    k := EmittedBody(cnt, pieces[0].path, pieces[0].bodies, ordinal, i);
    EmitNothing(cnt, pieces);
    EmitCons(cnt, pieces, 1, ordinal);
  }

  lemma {:induction false} EmittedFrom(cnt: TokenCount, pieces: seq<Piece>, ordinal: nat, i: nat)
    returns (m: nat, k: nat)
    requires i < |EmitAll(cnt, pieces, ordinal)|
    ensures GivenBy(cnt, pieces, ordinal, i, m, k)
    decreases pieces
  {
    var here := |Emit(cnt, pieces[0].path, pieces[0].bodies, ordinal)|;
    hide Emit, Trim, GivenBy;
    if i < here {
      m := 0;
      k := GivenFirst(cnt, pieces, ordinal, i);
    } else {
      m, k := EmittedFrom(cnt, pieces[1..], ordinal + here, i - here);
      GivenLater(cnt, pieces, ordinal, here, i, m, k);
      m := m + 1;
    }
  }

  lemma EmitNothing(cnt: TokenCount, pieces: seq<Piece>)
    ensures pieces[..0] == [] && forall ordinal: nat :: EmitAll(cnt, [], ordinal) == []
  {
  }

  lemma EmitCons(cnt: TokenCount, pieces: seq<Piece>, n: nat, ordinal: nat)
    requires 0 < n <= |pieces|
    ensures var here := Emit(cnt, pieces[0].path, pieces[0].bodies, ordinal);
            EmitAll(cnt, pieces[..n], ordinal) == here + EmitAll(cnt, pieces[1..][..n - 1], ordinal + |here|)
  {
    hide *;
    EmitOne(cnt, pieces[..n], ordinal);
    TailOfTake(pieces, n);
  }

  lemma EmitOne(cnt: TokenCount, pieces: seq<Piece>, ordinal: nat)
    requires pieces != []
    ensures var here := Emit(cnt, pieces[0].path, pieces[0].bodies, ordinal);
            EmitAll(cnt, pieces, ordinal) == here + EmitAll(cnt, pieces[1..], ordinal + |here|)
  {
    hide Emit;
  }

  lemma TailOfTake<T>(s: seq<T>, n: nat)
    requires 0 < n <= |s|
    ensures s[..n][1..] == s[1..][..n - 1]
  {
  }

  /** How many chunks these merged sections give. */
  function ChunkCount(cnt: TokenCount, lim: Limits, merged: seq<Section>): nat {
    |EmitAll(cnt, PiecesOf(cnt, lim, merged), 0)|
  }

  /** Chunk i is one of those cut from merged section m, and is one of its trimmed bodies. */
  predicate CutFrom(cnt: TokenCount, lim: Limits, content: string, i: nat, m: nat) {
    var merged, chunks := MergedSections(cnt, lim, content), Chunks(cnt, lim, content);
    && m < |merged| && i < |chunks|
    && ChunkCount(cnt, lim, merged[..m]) <= i < ChunkCount(cnt, lim, merged[..m + 1])
    && exists k :: 0 <= k < |SectionBodies(cnt, lim, merged[m].lines)|
                   && chunks[i].content == Trim(SectionBodies(cnt, lim, merged[m].lines)[k])
  }

  lemma ChunkIsCut(cnt: TokenCount, lim: Limits, content: string, i: nat) returns (m: nat)
    requires i < |Chunks(cnt, lim, content)|
    ensures CutFrom(cnt, lim, content, i, m) && m < |MergedSections(cnt, lim, content)|
    ensures Chunks(cnt, lim, content)[i].headingPath == MergedSections(cnt, lim, content)[m].headingPath
  {
    hide EmitAll, SectionBodies, MergedSections, Trim;
    var merged := MergedSections(cnt, lim, content);
    var k: nat;
    m, k := EmittedFrom(cnt, PiecesOf(cnt, lim, merged), 0, i);
    assert PiecesOf(cnt, lim, merged)[..m] == PiecesOf(cnt, lim, merged[..m]);
    assert PiecesOf(cnt, lim, merged)[..m + 1] == PiecesOf(cnt, lim, merged[..m + 1]);
  }

  /** A merged section is a range of sections under the heading of the earliest of its heaviest. */
  lemma MergedIsRange(cnt: TokenCount, min: int, sections: seq<Section>, m: nat) returns (a: nat, b: nat, h: nat)
    requires m < |Merged(cnt, min, sections)|
    ensures a < b <= |sections| && Heads(cnt, sections, a, b, h)
    ensures var s := Merged(cnt, min, sections)[m];
            s.lines == LinesOf(sections[a..b]) && s.headingPath == sections[h].headingPath
  {
    if min > 0 {
      hide Merged, Heads, LinesOf;
      var cuts := MergedAreRanges(cnt, min, sections);
      a, b := cuts[m], cuts[m + 1];
      assert MergedFrom(cnt, sections, Merged(cnt, min, sections)[m], a, b);
      h :| Heads(cnt, sections, a, b, h) && Merged(cnt, min, sections)[m].headingPath == sections[h].headingPath;
    } else {
      a, b, h := m, m + 1, m;
      assert sections[m..m + 1] == [sections[m]] && [sections[m]][..0] == [];
      assert LinesOf([sections[m]]) == [] + sections[m].lines;
    }
  }

  /** Every chunk is cut from a merged section, which is a range of the document's sections, and is headed by the
      headings the document has above the earliest of the heaviest sections of that range. */
  lemma ChunksAreHeaded(cnt: TokenCount, lim: Limits, content: string, i: nat)
    returns (m: nat, a: nat, b: nat, h: nat, start: nat)
    requires i < |Chunks(cnt, lim, content)|
    ensures CutFrom(cnt, lim, content, i, m) && m < |MergedSections(cnt, lim, content)|
    ensures var doc := Split(content, '\n');
            var sections := Sections(doc);
            && a <= h < b <= |sections| && MergedSections(cnt, lim, content)[m].lines == LinesOf(sections[a..b])
            && Heads(cnt, sections, a, b, h) && Spans(doc, sections[h], start)
            && Chunks(cnt, lim, content)[i].headingPath == HeadingAbove(doc, start)
  {
    hide Chunks, HeadingAbove, Sections, Split, ConsumedAt, Before, CutFrom, Merged, LinesOf;
    var doc := Split(content, '\n');
    m := ChunkIsCut(cnt, lim, content, i);
    a, b, h := MergedIsRange(cnt, lim.min, Sections(doc), m);
    SectionsSpan(doc);
    assert HasSpan(doc, Sections(doc)[h]);
    start :| Spans(doc, Sections(doc)[h], start);
  }

  /** A fresh tracker over one section's lines is, before every one of them and at the end, in the same
      state as the tracker that has read the whole document up to there. */
  lemma SectionSimulates(doc: seq<string>, s: Section, a: nat, j: nat)
    requires Spans(doc, s, a) && j <= |s.lines|
    ensures Agree(FenceRun(NO_FENCE, s.lines[..j]), Before(doc, a + j))
  {
    hide HeadingAbove, ConsumedAt, FenceRun;
    TakeFurther(doc, a, a + |s.lines|, j);
    FenceRunConcat(NO_FENCE, doc[..a], s.lines[..j]);
    AgreeRun(NO_FENCE, Before(doc, a), s.lines[..j]);
  }

  lemma TakeFurther<T>(s: seq<T>, a: nat, b: nat, j: nat)
    requires a <= b <= |s| && j <= b - a
    ensures s[..a + j] == s[..a] + s[a..b][..j]
  {
  }

  // ---------------------------------------------------------- merged groups

  /** The tracker ends outside any fence. */
  predicate Ends(lines: seq<string>) {
    !FenceRun(NO_FENCE, lines).inside
  }

  /** What a section's fences look like is unchanged inside a group: its lines are there, at offset o,
      and the group's tracker is outside a fence when it gets to them. */
  predicate SitsAt(lines: seq<string>, s: Section, o: nat) {
    o + |s.lines| <= |lines| && lines[o..o + |s.lines|] == s.lines && Ends(lines[..o])
  }

  lemma SitsSimulates(lines: seq<string>, s: Section, o: nat, j: nat)
    requires SitsAt(lines, s, o) && j <= |s.lines|
    ensures Agree(FenceRun(NO_FENCE, lines[..o + j]), FenceRun(NO_FENCE, s.lines[..j]))
  {
    assert lines[..o + j] == lines[..o] + s.lines[..j];
    FenceRunConcat(NO_FENCE, lines[..o], s.lines[..j]);
    AgreeRun(FenceRun(NO_FENCE, lines[..o]), NO_FENCE, s.lines[..j]);
  }

  lemma EndsConcat(a: seq<string>, b: seq<string>)
    requires Ends(a) && Ends(b)
    ensures Ends(a + b)
  {
    FenceRunConcat(NO_FENCE, a, b);
    AgreeRun(FenceRun(NO_FENCE, a), NO_FENCE, b);
  }

  /** Merging two texts keeps the second one's fences exactly when the first one ends outside a fence. */
  lemma MergeSimulatesIff(a: seq<string>)
    ensures Ends(a) <==>
            forall b: seq<string> | b != [] :: Agree(FenceRun(NO_FENCE, a + b), FenceRun(NO_FENCE, b))
  {
    if Ends(a) {
      forall b: seq<string> | b != []
        ensures Agree(FenceRun(NO_FENCE, a + b), FenceRun(NO_FENCE, b))
      {
        FenceRunConcat(NO_FENCE, a, b);
        AgreeRun(FenceRun(NO_FENCE, a), NO_FENCE, b);
      }
    } else {
      var f := FenceRun(NO_FENCE, a);
      var line := Quotes(f.depth);
      QuotesDepth(f.depth);
      var b := [line];
      FenceRunConcat(NO_FENCE, a, b);
      assert b[1..] == [];
      assert FenceRun(f, b) == FenceRun(FenceStep(f, line), []);
      assert FenceRun(NO_FENCE, b) == FenceRun(FenceStep(NO_FENCE, line), []);
      assert !Agree(FenceRun(NO_FENCE, a + b), FenceRun(NO_FENCE, b));
    }
  }

  function Quotes(n: nat): string {
    if n == 0 then [] else ">" + Quotes(n - 1)
  }

  lemma {:induction false} QuotesDepth(n: nat)
    ensures QuoteDepth(Quotes(n)) == n && !IsFence(Quotes(n))
  {
    if n > 0 {
      QuotesDepth(n - 1);
      assert Quotes(n)[0] == '>' && !IsWhite('>');
      assert TrimStart(Quotes(n)) == Quotes(n) && Quotes(n)[1..] == Quotes(n - 1);
    } else {
      assert |BACKTICKS| == 3;
    }
  }

  /** All sections but the last end outside a fence. */
  predicate AllEnd(sections: seq<Section>) {
    forall i | 0 <= i < |sections| - 1 :: Ends(sections[i].lines)
  }

  /** Section h lies in merged section m, behind the lines of the sections from a on. */
  predicate MergedBehind(sections: seq<Section>, lines: seq<string>, a: nat, h: nat) {
    a <= h < |sections| && LinesOf(sections[a..h]) + sections[h].lines <= lines
  }

  /** Every section is in some merged section. */
  lemma MergedAround(cnt: TokenCount, min: int, sections: seq<Section>, h: nat) returns (m: nat, a: nat)
    requires h < |sections|
    ensures m < |Merged(cnt, min, sections)| && MergedBehind(sections, Merged(cnt, min, sections)[m].lines, a, h)
  {
    hide Merged, MergedBehind, MergedFrom;
    if min <= 0 {
      m, a := h, h;
      AloneBehind(cnt, min, sections, h);
    } else {
      var cuts := MergedAreRanges(cnt, min, sections);
      m := RangeOf(cuts, h);
      a := cuts[m];
      InRange(cnt, sections, Merged(cnt, min, sections)[m], a, cuts[m + 1], h);
    }
  }

  lemma AloneBehind(cnt: TokenCount, min: int, sections: seq<Section>, h: nat)
    requires min <= 0 && h < |sections|
    ensures Merged(cnt, min, sections) == sections && MergedBehind(sections, sections[h].lines, h, h)
  {
    assert sections[h..h] == [] && [] + sections[h].lines == sections[h].lines;
  }

  lemma InRange(cnt: TokenCount, sections: seq<Section>, merged: Section, a: nat, b: nat, h: nat)
    requires MergedFrom(cnt, sections, merged, a, b) && a <= h < b
    ensures MergedBehind(sections, merged.lines, a, h)
  {
    hide LinesOf, Heads;
    LinesUpTo(sections, a, h, b);
  }

  lemma {:induction false} RangeOf(cuts: seq<nat>, h: nat) returns (m: nat)
    requires |cuts| >= 2 && cuts[0] <= h < cuts[|cuts| - 1]
    ensures m + 1 < |cuts| && cuts[m] <= h < cuts[m + 1]
    decreases |cuts|
  {
    var n := |cuts| - 1;
    if h >= cuts[n - 1] {
      m := n - 1;
    } else {
      m := RangeOf(cuts[..n], h);
    }
  }

  lemma LinesUpTo(sections: seq<Section>, a: nat, h: nat, b: nat)
    requires a <= h < b <= |sections|
    ensures LinesOf(sections[a..h]) + sections[h].lines <= LinesOf(sections[a..b])
  {
    LinesOfNext(sections, a, h);
    assert sections[a..b] == sections[a..h + 1] + sections[h + 1..b];
    LinesOfConcat(sections[a..h + 1], sections[h + 1..b]);
    hide LinesOf;
  }

  lemma LinesOfNext(sections: seq<Section>, a: nat, h: nat)
    requires a <= h < |sections|
    ensures LinesOf(sections[a..h + 1]) == LinesOf(sections[a..h]) + sections[h].lines
  {
    assert sections[a..h + 1][..h - a] == sections[a..h];
  }

  lemma {:induction false} RangeEnds(sections: seq<Section>, a: nat, h: nat)
    requires a <= h < |sections| && AllEnd(sections)
    ensures Ends(LinesOf(sections[a..h]))
    decreases h
  {
    hide LinesOf, Ends;
    if a == h {
      NothingEnds();
      assert sections[a..h] == [];
    } else {
      RangeEnds(sections, a, h - 1);
      LinesOfNext(sections, a, h - 1);
      EndsConcat(LinesOf(sections[a..h - 1]), sections[h - 1].lines);
    }
  }

  lemma NothingEnds()
    ensures LinesOf([]) == [] && Ends([])
  {
  }

  lemma BehindPrefix<T>(before: seq<T>, middle: seq<T>, all: seq<T>)
    requires before + middle <= all
    ensures var o := |before|;
            o + |middle| <= |all| && all[..o] == before && all[o..o + |middle|] == middle
  {
  }

  /** Every section keeps its fences through merging, provided each section but the last ends outside
      a fence. */
  lemma MergingKeepsFences(cnt: TokenCount, min: int, sections: seq<Section>, h: nat) returns (m: nat, o: nat)
    requires AllEnd(sections) && h < |sections|
    ensures m < |Merged(cnt, min, sections)| && SitsAt(Merged(cnt, min, sections)[m].lines, sections[h], o)
  {
    hide Merged, LinesOf, Ends;
    var a: nat;
    m, a := MergedAround(cnt, min, sections, h);
    RangeEnds(sections, a, h);
    o := |LinesOf(sections[a..h])|;
    BehindPrefix(LinesOf(sections[a..h]), sections[h].lines, Merged(cnt, min, sections)[m].lines);
  }

  // ----------------------------------------- a held stretch reaches one chunk

  lemma ConcatWithin(a: string, b: string)
    ensures Within(a, a + "\n" + b) && Within(b, a + "\n" + b)
  {
    assert OccursAt(a, a + "\n" + b, 0);
    assert OccursAt(b, a + "\n" + b, |a| + 1);
  }

  lemma JoinConcatWithin(a: seq<string>, b: seq<string>)
    requires a + b != []
    ensures a != [] ==> Within(Join(a, "\n"), Join(a + b, "\n"))
    ensures b != [] ==> Within(Join(b, "\n"), Join(a + b, "\n"))
  {
    if a == [] {
      assert a + b == b;
      assert OccursAt(Join(b, "\n"), Join(b, "\n"), 0);
    } else if b == [] {
      assert a + b == a;
      assert OccursAt(Join(a, "\n"), Join(a, "\n"), 0);
    } else {
      JoinConcat(a, b, "\n");
      ConcatWithin(Join(a, "\n"), Join(b, "\n"));
    }
  }

  lemma JoinWithin(lines: seq<string>, a: nat, b: nat)
    requires a < b <= |lines|
    ensures Within(Join(lines[a..b], "\n"), Join(lines, "\n"))
  {
    hide Within, Join;
    var pre, mid, post := lines[..a], lines[a..b], lines[b..];
    assert pre + mid == lines[..b] && lines[..b] + post == lines;
    JoinConcatWithin(pre, mid);
    JoinConcatWithin(lines[..b], post);
    WithinTransitive(Join(mid, "\n"), Join(lines[..b], "\n"), Join(lines, "\n"));
  }

  ghost predicate WithinSome(needle: string, bodies: seq<string>) {
    exists i | 0 <= i < |bodies| :: Within(needle, bodies[i])
  }

  lemma {:induction false} PartReachesBody(parts: seq<seq<string>>, j: nat, needle: string)
    requires j < |parts| && Within(needle, Join(parts[j], "\n")) && !Blank(Join(parts[j], ""))
    ensures WithinSome(needle, Bodies(parts))
  {
    var n := |parts| - 1;
    var init := parts[..n];
    if j == n {
      assert Bodies(parts)[|Bodies(init)|] == Join(parts[n], "\n");
    } else {
      PartReachesBody(init, j, needle);
      var i :| 0 <= i < |Bodies(init)| && Within(needle, Bodies(init)[i]);
      assert Bodies(parts)[i] == Bodies(init)[i];
    }
  }

  lemma FoldKeepsWithin(cnt: TokenCount, lim: Limits, bodies: seq<string>, needle: string)
    requires WithinSome(needle, bodies)
    ensures WithinSome(needle, FoldTrailing(cnt, lim, bodies))
  {
    var n, folded := |bodies|, FoldTrailing(cnt, lim, bodies);
    var i :| 0 <= i < n && Within(needle, bodies[i]);
    if folded != bodies {
      var a, b := bodies[n - 2], bodies[n - 1];
      if i < n - 2 {
        assert folded[i] == bodies[i];
      } else {
        ConcatWithin(a, b);
        assert folded[n - 2] == a + "\n" + b;
        WithinTransitive(needle, bodies[i], folded[n - 2]);
      }
    }
  }

  /** Lines x to y of a section, each after x held to the one before: their text is in one body. */
  lemma HeldStretchInOneBody(cnt: TokenCount, lim: Limits, lines: seq<string>, x: nat, y: nat)
    requires x <= y < |lines| && !Blank(lines[x])
    requires forall p | x < p <= y :: Held(cnt, lines, p)
    ensures WithinSome(Join(lines[x..y + 1], "\n"), SectionBodies(cnt, lim, lines))
  {
    hide Within, Join, Held, Parts, Blank, Bodies, FoldTrailing, Flatten;
    var needle := Join(lines[x..y + 1], "\n");
    if Tokens(cnt, lines) <= lim.max {
      JoinWithin(lines, x, y + 1);
      assert SectionBodies(cnt, lim, lines)[0] == Join(lines, "\n");
    } else {
      var parts := Parts(cnt, lim, lines);
      AtomicRegions(cnt, lim, lines, x, y);
      PartsCover(cnt, lim, lines);
      var j :| 0 <= j < |parts| && Start(parts, j) <= x && y < Start(parts, j + 1);
      PartAt(parts, j);
      var s := Start(parts, j);
      SliceOfSlice(lines, s, Start(parts, j + 1), x - s, y + 1 - s);
      JoinWithin(parts[j], x - s, y + 1 - s);
      BlankJoin(parts[j], x - s);
      PartReachesBody(parts, j, needle);
      FoldKeepsWithin(cnt, lim, Bodies(parts), needle);
    }
  }

  ghost predicate WithinSomeChunk(needle: string, chunks: seq<Chunk>) {
    exists i | 0 <= i < |chunks| :: Within(needle, chunks[i].content)
  }

  /** A needle whose two ends are not white survives trimming and emission. */
  lemma {:induction false} BodyReachesChunk(cnt: TokenCount, path: seq<string>, bodies: seq<string>, ordinal: nat,
                                            needle: string)
    requires WithinSome(needle, bodies) && needle != []
    requires !IsWhite(needle[0]) && !IsWhite(needle[|needle| - 1])
    ensures WithinSomeChunk(needle, Emit(cnt, path, bodies, ordinal))
    decreases bodies
  {
    hide Emit, Trim, Within, IsWhite;
    EmitParts(cnt, path, bodies, ordinal);
    var i :| 0 <= i < |bodies| && Within(needle, bodies[i]);
    var trimmed := Trim(bodies[0]);
    if i == 0 {
      WithinSurvivesTrim(needle, bodies[0]);
      NotWithinNothing(needle);
      assert Emit(cnt, path, bodies, ordinal)[0].content == trimmed;
    } else {
      assert bodies[1..][i - 1] == bodies[i];
      if trimmed == [] {
        BodyReachesChunk(cnt, path, bodies[1..], ordinal, needle);
      } else {
        BodyReachesChunk(cnt, path, bodies[1..], ordinal + 1, needle);
        var rest := Emit(cnt, path, bodies[1..], ordinal + 1);
        var k :| 0 <= k < |rest| && Within(needle, rest[k].content);
        assert Emit(cnt, path, bodies, ordinal)[k + 1] == rest[k];
      }
    }
  }

  lemma NotWithinNothing(needle: string)
    requires needle != []
    ensures !Within(needle, [])
  {
  }

  lemma {:induction false} PieceReachesChunk(cnt: TokenCount, pieces: seq<Piece>, m: nat, ordinal: nat, needle: string)
    requires m < |pieces| && WithinSome(needle, pieces[m].bodies) && needle != []
    requires !IsWhite(needle[0]) && !IsWhite(needle[|needle| - 1])
    ensures WithinSomeChunk(needle, EmitAll(cnt, pieces, ordinal))
    decreases pieces
  {
    hide Emit, EmitAll, Within, IsWhite;
    EmitOne(cnt, pieces, ordinal);
    var here := Emit(cnt, pieces[0].path, pieces[0].bodies, ordinal);
    var rest := EmitAll(cnt, pieces[1..], ordinal + |here|);
    if m == 0 {
      BodyReachesChunk(cnt, pieces[0].path, pieces[0].bodies, ordinal, needle);
      var k :| 0 <= k < |here| && Within(needle, here[k].content);
      assert (here + rest)[k] == here[k];
    } else {
      PieceReachesChunk(cnt, pieces[1..], m - 1, ordinal + |here|, needle);
      var k :| 0 <= k < |rest| && Within(needle, rest[k].content);
      assert (here + rest)[|here| + k] == rest[k];
    }
  }

  lemma TrimmedNeedle(text: string)
    requires !Blank(text)
    ensures var t := Trim(text); t != [] && !IsWhite(t[0]) && !IsWhite(t[|t| - 1]) && Within(t, text)
  {
    hide Within, Blank, Trim;
    var lo, hi := TrimShape(text);
    WithinIntro(text[..lo], text[lo..hi], text[hi..]);
    assert text[..lo] + text[lo..hi] + text[hi..] == text;
  }

  lemma {:induction false} JoinNotBlank(lines: seq<string>)
    requires lines != [] && !Blank(lines[0])
    ensures !Blank(Join(lines, "\n"))
  {
    var text := Join(lines, "\n");
    assert forall i | 0 <= i < |lines[0]| :: text[i] == lines[0][i];
  }

  /** The same, for the chunks: tables and fences of a merged section are never shared out between
      chunks. Only white space at the stretch's own two ends may go. */
  lemma HeldStretchInOneChunk(cnt: TokenCount, lim: Limits, content: string, m: nat, x: nat, y: nat)
    requires m < |MergedSections(cnt, lim, content)|
    requires var lines := MergedSections(cnt, lim, content)[m].lines;
             && x <= y < |lines| && !Blank(lines[x])
             && forall p | x < p <= y :: Held(cnt, lines, p)
    ensures var lines := MergedSections(cnt, lim, content)[m].lines;
            WithinSomeChunk(Trim(Join(lines[x..y + 1], "\n")), Chunks(cnt, lim, content))
  {
    hide Within, Join, Trim, Held, Blank, MergedSections, SectionBodies, EmitAll, IsWhite;
    var sections := MergedSections(cnt, lim, content);
    var lines := sections[m].lines;
    var text := Join(lines[x..y + 1], "\n");
    HeldStretchInOneBody(cnt, lim, lines, x, y);
    JoinNotBlank(lines[x..y + 1]);
    TrimmedNeedle(text);
    var bodies := SectionBodies(cnt, lim, lines);
    var i :| 0 <= i < |bodies| && Within(text, bodies[i]);
    WithinTransitive(Trim(text), text, bodies[i]);
    assert PiecesOf(cnt, lim, sections)[m].bodies == bodies;
    PieceReachesChunk(cnt, PiecesOf(cnt, lim, sections), m, 0, Trim(text));
  }

  // ------------------------------------------------- the document's fences

  /** No heading that becomes structure had to end an unclosed quoted fence. */
  predicate HeadingsOutside(doc: seq<string>) {
    forall i: nat | i < |doc| :: ConsumedAt(doc, i) ==> !Before(doc, i).inside
  }

  /** Lines a to b are one fenced block for the document-wide tracker: a marker, then lines that stay. */
  predicate FencedBlock(doc: seq<string>, a: nat, b: nat) {
    && a <= b < |doc|
    && IsFence(doc[a])
    && forall p: nat | a < p <= b :: FenceStays(Before(doc, p), doc[p])
  }

  /** None of the lines after a up to b closes a fence and would open a table. */
  predicate ClosersOpenNoTable(doc: seq<string>, a: nat, b: nat)
    requires b < |doc|
  {
    forall p: nat | a < p <= b && IsFence(doc[p]) && !FenceStep(Before(doc, p), doc[p]).inside :: !TableOpens(doc[p])
  }

  lemma SpanEnds(doc: seq<string>, s: Section, a: nat, end: nat)
    requires SpansFrom(doc, s, a, end) && !Before(doc, end).inside
    ensures Ends(s.lines)
  {
    assert doc[..end] == doc[..a] + s.lines;
    FenceRunConcat(NO_FENCE, doc[..a], s.lines);
    AgreeRun(NO_FENCE, Before(doc, a), s.lines);
  }

  lemma {:induction false} ClosedSectionsEnd(doc: seq<string>, k: nat)
    requires k <= |doc| && HeadingsOutside(doc)
    ensures forall j | 0 <= j < |ReadTo(doc, k).done| :: Ends(ReadTo(doc, k).done[j].lines)
  {
    hide ReadTo, ReadStep, FenceStep, IsHeading, Blank, SpansFrom, HasSpan, InSomeSection;
    if k == 0 {
      ReadToStart(doc);
    } else {
      ClosedSectionsEnd(doc, k - 1);
      ReadToNext(doc, k - 1);
      var r := ReadTo(doc, k - 1);
      var a := ReadSpans(doc, k - 1);
      if ConsumedAt(doc, k - 1) {
        SpanEnds(doc, r.current, a, k - 1);
      }
    }
  }

  lemma SectionsAllEnd(doc: seq<string>)
    requires HeadingsOutside(doc)
    ensures AllEnd(Sections(doc))
  {
    ClosedSectionsEnd(doc, |doc|);
  }

  lemma StaysNotConsumed(f: Fence, line: string)
    ensures FenceStays(f, line) || IsFence(line) ==> !Consumed(f, line)
  {
    HeadingsAreNotMarkers(line);
  }

  lemma BlockLine(doc: seq<string>, a: nat, b: nat, p: nat)
    requires FencedBlock(doc, a, b) && a <= p <= b
    ensures !ConsumedAt(doc, p)
  {
    StaysNotConsumed(Before(doc, p), doc[p]);
  }

  /** A stretch of which no line is consumed lies inside one section. */
  lemma StretchInSection(doc: seq<string>, a: nat, b: nat) returns (h: nat, start: nat)
    requires a <= b < |doc| && !Blank(doc[a]) && forall p | a <= p <= b :: !ConsumedAt(doc, p)
    ensures h < |Sections(doc)| && Spans(doc, Sections(doc)[h], start)
    ensures start <= a && b < start + |Sections(doc)[h].lines|
  {
    hide Blank, Sections, ConsumedAt, InSomeSection, HasSpan, Before, HeadingAbove;
    SectionsSpan(doc);
    h, start := FindSection(doc, Sections(doc), a);
  }

  lemma MarkerNotBlank(line: string)
    requires IsFence(line)
    ensures !Blank(line)
  {
    if Blank(line) { BlankIsNoFence(line); }
  }

  lemma FindSection(doc: seq<string>, sections: seq<Section>, i: nat) returns (j: nat, start: nat)
    requires InSomeSection(doc, sections, i)
    ensures j < |sections| && Spans(doc, sections[j], start) && start <= i < start + |sections[j].lines|
  {
    j, start :| j < |sections| && Spans(doc, sections[j], start) && start <= i < start + |sections[j].lines|;
  }

  /** Inside a merged section the block's lines hold together for the section's own trackers. */
  lemma BlockHeld(cnt: TokenCount, doc: seq<string>, s: Section, start: nat, lines: seq<string>, o: nat, p: nat)
    requires Spans(doc, s, start) && SitsAt(lines, s, o)
    requires start <= p < start + |s.lines| && FenceStays(Before(doc, p), doc[p])
    requires IsFence(doc[p]) && !FenceStep(Before(doc, p), doc[p]).inside ==> !TableOpens(doc[p])
    ensures Held(cnt, lines, o + (p - start))
  {
    hide IsHeading, IsFence, QuoteDepth, TableOpens, IsPipeRow, TableContinues, PipeContinues;
    var j := p - start;
    var q := o + j;
    SectionSimulates(doc, s, start, j);
    SitsSimulates(lines, s, o, j);
    ScanFence(cnt, lines, q);
    assert lines[q] == s.lines[j] == doc[p];
    FenceIsNeverPipeRow(doc[p]);
  }

  /** Every fenced block of the document comes out whole, in one chunk: a needle of the chunk's content,
      whatever the limits, if no structural heading cuts off an open quoted fence and no line that closes a
      fence in the block would open a table. Only white space at the block's two ends may be trimmed. */
  lemma FencedBlocksStayWhole(cnt: TokenCount, lim: Limits, content: string, a: nat, b: nat)
    requires var doc := Split(content, '\n');
             FencedBlock(doc, a, b) && HeadingsOutside(doc) && ClosersOpenNoTable(doc, a, b)
    ensures WithinSomeChunk(Trim(Join(Split(content, '\n')[a..b + 1], "\n")), Chunks(cnt, lim, content))
  {
    hide IsHeading, IsFence, Blank, Held, HeadingsOutside, WithinSomeChunk, Chunks, Split, Join, AllEnd;
    hide Sections, Merged, Spans, FenceStays, FenceStep, TableOpens, ConsumedAt, SitsAt;
    var doc := Split(content, '\n');
    forall p | a <= p <= b
      ensures !ConsumedAt(doc, p)
    {
      BlockLine(doc, a, b, p);
    }
    MarkerNotBlank(doc[a]);
    var h, start := StretchInSection(doc, a, b);
    SectionsAllEnd(doc);
    var m, o := MergingKeepsFences(cnt, lim.min, Sections(doc), h);
    var s, lines := Sections(doc)[h], MergedSections(cnt, lim, content)[m].lines;
    BlockText(doc, s, start, lines, o, a, b);
    var x, y := o + (a - start), o + (b - start);
    forall p | x < p <= y
      ensures Held(cnt, lines, p)
    {
      BlockHeld(cnt, doc, s, start, lines, o, start + (p - o));
    }
    HeldStretchInOneChunk(cnt, lim, content, m, x, y);
  }

  lemma BlockText(doc: seq<string>, s: Section, start: nat, lines: seq<string>, o: nat, a: nat, b: nat)
    requires Spans(doc, s, start) && SitsAt(lines, s, o) && start <= a <= b < start + |s.lines|
    ensures var x, y := o + (a - start), o + (b - start);
            y < |lines| && lines[x] == doc[a] && lines[x..y + 1] == doc[a..b + 1]
  {
    hide ConsumedAt, Ends, Before, HeadingAbove;
    var x, y := o + (a - start), o + (b - start);
    var n := |s.lines|;
    SliceOfSlice(lines, o, o + n, a - start, b + 1 - start);
    SliceOfSlice(doc, start, start + n, a - start, b + 1 - start);
    assert s.lines[a - start] == doc[a];
  }

  lemma SliceOfSlice<T>(s: seq<T>, from: nat, to: nat, i: nat, j: nat)
    requires from <= to <= |s| && i <= j <= to - from
    ensures s[from..to][i..j] == s[from + i..from + j]
  {
    var l, r := s[from..to][i..j], s[from + i..from + j];
    assert forall k | 0 <= k < |l| :: l[k] == r[k];
    assert l == r;
  }

  // ------------------------------------------------------ two witnesses

  /** Without its heading an unclosed quoted fence goes on: the document has `> x` outside any fence, and the one
      merged section, whatever the count, as soon as the first section is too small, has it inside. */
  lemma MergedQuotedFenceGoesOn(cnt: TokenCount, min: int)
    requires min > 0 && Tokens(cnt, ["> ```"]) < min
    ensures var doc := ["> ```", "### T", "> x"];
            var merged := Merged(cnt, min, Sections(doc));
            && ConsumedAt(doc, 1) && !HeadingsOutside(doc) && !Before(doc, 3).inside
            && |merged| == 1 && merged[0].lines == ["> ```"] + ["> x"] && FenceRun(NO_FENCE, merged[0].lines).inside
  {
    hide *;
    var doc := ["> ```", "### T", "> x"];
    QuotedFenceRun(doc);
    QuotedNotBlank();
    SectionsOfThree(doc);
    OutsideAfter(cnt, min, Sections(doc), ["> ```"], ["> x"]);
  }

  lemma OutsideAfter(cnt: TokenCount, min: int, sections: seq<Section>, a: seq<string>, b: seq<string>)
    requires |sections| == 2 && sections[0].lines == a && sections[1].lines == b
    requires min > 0 && Tokens(cnt, a) < min
    ensures var merged := Merged(cnt, min, sections); |merged| == 1 && merged[0].lines == a + b
  {
    hide *;
    assert sections == [sections[0], sections[1]];
    TwoSectionsMerge(cnt, min, sections[0], sections[1]);
  }

  lemma QuotedFenceRun(doc: seq<string>)
    requires doc == ["> ```", "### T", "> x"]
    ensures ConsumedAt(doc, 1) && !ConsumedAt(doc, 0) && !ConsumedAt(doc, 2) && !HeadingsOutside(doc)
    ensures Before(doc, 0) == NO_FENCE && Before(doc, 1).inside && !Before(doc, 3).inside
    ensures FenceRun(NO_FENCE, ["> ```"] + ["> x"]).inside
  {
    hide IsFence, QuoteDepth, IsHeading, FenceRun;
    MarkerAndQuote();
    assert doc[..1] == [doc[0]] && doc[..0] == [] && doc[..3] == doc;
    assert Before(doc, 0) == NO_FENCE by { RunOfNone(NO_FENCE); }
    BeforeStep(doc, 0);
    BeforeStep(doc, 1);
    BeforeStep(doc, 2);
    RunOfTwo(NO_FENCE, "> ```", "> x");
  }

  lemma RunOfNone(f: Fence)
    ensures FenceRun(f, []) == f
  {
  }

  lemma RunOfTwo(f: Fence, a: string, b: string)
    ensures FenceRun(f, [a] + [b]) == FenceStep(FenceStep(f, a), b)
  {
    hide FenceStep;
    assert ([a] + [b])[1..] == [b] && [b][1..] == [];
    assert FenceRun(FenceStep(f, a), [b]) == FenceRun(FenceStep(FenceStep(f, a), b), []);
  }

  lemma QuotedNotBlank()
    ensures !Blank("> ```") && !Blank("> x")
  {
    assert "> ```"[0] == "> x"[0] == '>' && !IsWhite('>');
  }

  /** A line, a heading, a line: two sections. */
  lemma SectionsOfThree(doc: seq<string>)
    requires |doc| == 3 && ConsumedAt(doc, 1) && !ConsumedAt(doc, 0) && !ConsumedAt(doc, 2)
    requires !Blank(doc[0]) && !Blank(doc[2])
    ensures |Sections(doc)| == 2 && Sections(doc)[0].lines == [doc[0]] && Sections(doc)[1].lines == [doc[2]]
  {
    var a0 := ReadSpans(doc, 0);
    var a1 := ReadSpans(doc, 1);
    var a2 := ReadSpans(doc, 2);
    ReadToStart(doc);
    ReadToNext(doc, 0);
    ReadToNext(doc, 1);
    ReadToNext(doc, 2);
    hide ReadTo, HeadingAbove, PageBefore, HasSpan, InSomeSection, FenceStep, IsHeading, Before, SpansFrom, Blank;
    assert ReadTo(doc, 1).current.lines == [doc[0]] && ReadTo(doc, 3).current.lines == [doc[2]];
    assert Join([doc[0]], "") == doc[0] && Join([doc[2]], "") == doc[2];
  }

  /** Two sections of which the first is too small are merged. */
  lemma TwoSectionsMerge(cnt: TokenCount, min: int, s: Section, t: Section)
    requires min > 0 && Tokens(cnt, s.lines) < min
    ensures var merged := Merged(cnt, min, [s, t]); |merged| == 1 && merged[0].lines == s.lines + t.lines
  {
    hide Tokens, DominantHeadingPath;
    var first := Absorb(cnt, NO_GROUP, s);
    var both := Absorb(cnt, first, t);
    assert [s, t][1..] == [t] && [t][1..] == [] && [] + s.lines == s.lines;
    assert GroupFrom(cnt, min, [s, t], NO_GROUP) == GroupFrom(cnt, min, [t], first) == [both];
  }

  lemma MarkerAndQuote()
    ensures IsFence("> ```") && QuoteDepth("> ```") == 1
    ensures !IsFence("> x") && QuoteDepth("> x") == 1
    ensures IsHeading("### T") && !IsFence("### T") && QuoteDepth("### T") == 0
    ensures !IsHeading("> ```") && !IsHeading("> x")
  {
    hide *;
    QuotedOnce("> ```", "```");
    QuotedOnce("> x", "x");
    TitleLine();
  }

  lemma QuotedOnce(line: string, rest: string)
    requires rest == "```" || rest == "x"
    requires line == "> " + rest
    ensures QuoteDepth(line) == 1 && !IsHeading(line) && (IsFence(line) <==> rest == "```")
  {
    var t := " " + rest;
    assert line[1..] == t && t[1..] == rest;
    assert TrimStart(rest) == rest && TrimStart(t) == rest && TrimStart(line) == line;
    assert Unquoted(line) == Unquoted(t) == t && QuoteDepth(line) == 1 + QuoteDepth(t);
    assert line[0] == '>' && PAGE_MARK[0] == SECTION_MARK[0] == '#';
  }

  lemma TitleLine()
    ensures IsHeading("### T") && !IsFence("### T") && QuoteDepth("### T") == 0
  {
    var h := "### T";
    assert h[3..] == " T" && " T"[1..] == "T" && TrimStart(" T") == "T" && TrimEnd("T") == "T";
    assert " T"[1] == 'T' && !Blank(" T");
    assert TitleOf(" T") == Some("T");
    HeadingShape(h);
  }

  /** A line that closes a fence and would open a table is cut off from its fence, here by a zero target. */
  lemma FenceEndOpeningTableIsCut(cnt: TokenCount)
    ensures var lines := ["```", "```<table>"];
            && !NoFenceEndOpensTable(cnt, lines)
            && Seam(Parts(cnt, Limits(0, 0, 0), lines), 1) && FenceContinues(cnt, lines, 1)
  {
    var lines := ["```", "```<table>"];
    var lim := Limits(0, 0, 0);
    ClosingMarker();
    ScanToNext(cnt, lines, 0);
    assert ScanTo(cnt, lines, 1).fence == Fence(true, 0) && !ScanTo(cnt, lines, 1).table.inside;
    SplitScan(cnt, lim, lines, 1);
    InsideFenceBufferHolds(cnt, lim, lines, 1);
    hide IsFence, QuoteDepth, TableOpens, IsPipeRow, Parts, SplitTo, Seam;
    assert OpensRegion(ScanTo(cnt, lines, 1), lines[1]);
    FenceIsCut(cnt, lim, lines, 1);
  }

  lemma ClosingMarker()
    ensures IsFence("```") && QuoteDepth("```") == 0 && !IsPipeRow("```") && !TableOpens("```")
    ensures IsFence("```<table>") && QuoteDepth("```<table>") == 0 && !IsPipeRow("```<table>")
    ensures TableOpens("```<table>")
  {
    var a, b := "```", "```<table>";
    assert TrimStart(a) == a && Unquoted(a) == a;
    assert TrimStart(b) == b && Unquoted(b) == b && b[..3] == BACKTICKS;
    assert MatchesAt(b, 3, OPEN_TAG) && b[9] == '>';
  }

  // --------------------------------------------------------- small documents

  /** No line becomes structure. */
  predicate NoStructure(doc: seq<string>) {
    forall i: nat | i < |doc| :: !ConsumedAt(doc, i)
  }

  lemma {:induction false} NothingConsumed(doc: seq<string>, k: nat)
    requires k <= |doc| && NoStructure(doc)
    ensures ReadTo(doc, k) == Reading(Before(doc, k), None, Section([], doc[..k]), [])
  {
    hide Before, FenceStep, ReadStep, ReadTo, ConsumedAt;
    if k == 0 {
      NothingRead(doc);
      NoLinesYet(doc);
    } else {
      NothingConsumed(doc, k - 1);
      OneMoreRead(doc, k - 1);
      BeforeStep(doc, k - 1);
      KeptLine(doc, k - 1);
      assert doc[..k] == doc[..k - 1] + [doc[k - 1]];
    }
  }

  lemma NoLinesYet(doc: seq<string>)
    ensures doc[..0] == [] && Before(doc, 0) == NO_FENCE
  {
  }

  lemma KeptLine(doc: seq<string>, k: nat)
    requires k < |doc| && !ConsumedAt(doc, k)
    ensures var r := Reading(Before(doc, k), None, Section([], doc[..k]), []);
            ReadStep(r, doc[k])
            == Reading(FenceStep(Before(doc, k), doc[k]), None, Section([], doc[..k] + [doc[k]]), [])
  {
    hide FenceStep, IsHeading, Before;
  }

  lemma OneSectionMerged(cnt: TokenCount, min: int, s: Section)
    ensures Merged(cnt, min, [s]) == [s]
  {
    hide Tokens;
    var next := Absorb(cnt, NO_GROUP, s);
    assert [s][1..] == [] && next.lines == s.lines;
    assert next.contributions == [Contribution(s.headingPath, Tokens(cnt, s.lines))];
    assert GroupFrom(cnt, min, [], next) == [next] && GroupFrom(cnt, min, [], NO_GROUP) == [];
    assert GroupFrom(cnt, min, [s], NO_GROUP) == [next];
    assert next.contributions[1..] == [];
    assert Dominant(next.contributions[0], next.contributions) == next.contributions[0];
    assert ToSections([next]) == [s];
  }

  /** A document without a heading that fits the maximum is one chunk: its text, trimmed, under no heading. */
  lemma SmallDocumentIsOneChunk(cnt: TokenCount, lim: Limits, content: string)
    requires NoStructure(Split(content, '\n'))
    requires cnt(content) <= lim.max && !Blank(content)
    ensures Chunks(cnt, lim, content) == [Chunk(Trim(content), [], cnt(Trim(content)), 0)]
  {
    hide *;
    var doc := Split(content, '\n');
    OneSectionRead(content);
    OneSectionMerged(cnt, lim.min, Section([], doc));
    OnePiece(cnt, lim, content);
    ChunksOf(cnt, lim, content);
  }

  lemma ChunksOf(cnt: TokenCount, lim: Limits, content: string)
    ensures Chunks(cnt, lim, content)
         == EmitAll(cnt, PiecesOf(cnt, lim, Merged(cnt, lim.min, Sections(Split(content, '\n')))), 0)
  {
    hide EmitAll, PiecesOf, Merged, Sections, Split;
  }

  lemma OneSectionRead(content: string)
    requires NoStructure(Split(content, '\n'))
    requires !Blank(content)
    ensures Sections(Split(content, '\n')) == [Section([], Split(content, '\n'))]
  {
    hide Split, ConsumedAt, Join, Blank, ReadTo, Before;
    var doc := Split(content, '\n');
    NothingConsumed(doc, |doc|);
    assert doc[..|doc|] == doc;
    JoinSplit(content, '\n');
    LinesNotBlank(doc);
  }

  lemma OnePiece(cnt: TokenCount, lim: Limits, content: string)
    requires cnt(content) <= lim.max && !Blank(content)
    ensures EmitAll(cnt, PiecesOf(cnt, lim, [Section([], Split(content, '\n'))]), 0)
         == [Chunk(Trim(content), [], cnt(Trim(content)), 0)]
  {
    hide Split, Join, Blank, Trim, Emit, EmitAll;
    JoinSplit(content, '\n');
    var pieces := PiecesOf(cnt, lim, [Section([], Split(content, '\n'))]);
    assert pieces == [Piece([], [content])];
    OneBody(cnt, content);
    EmitOne(cnt, pieces, 0);
    EmitNoPieces(cnt, pieces);
    assert pieces[1..] == [];
  }

  lemma LinesNotBlank(doc: seq<string>)
    requires doc != [] && !Blank(Join(doc, "\n"))
    ensures !Blank(Join(doc, ""))
  {
    if Blank(Join(doc, "")) {
      JoinBlank(doc);
      BlankLinesJoin(doc);
    }
  }

  lemma {:induction false} BlankLinesJoin(lines: seq<string>)
    requires forall i | 0 <= i < |lines| :: Blank(lines[i])
    ensures Blank(Join(lines, "\n"))
  {
    if |lines| > 1 {
      BlankLinesJoin(lines[1..]);
    }
  }

  lemma OneBody(cnt: TokenCount, content: string)
    requires !Blank(content)
    ensures Emit(cnt, [], [content], 0) == [Chunk(Trim(content), [], cnt(Trim(content)), 0)]
  {
    hide Trim, Blank;
    TrimEmptyIffBlank(content);
    EmitParts(cnt, [], [content], 0);
    EmitParts(cnt, [], [], 1);
    assert [content][1..] == [];
  }
}

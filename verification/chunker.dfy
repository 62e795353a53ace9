/** `chunkMarkdown`: sections, merging of undersized ones, splitting of oversized ones, chunks. */
module Chunker {
  import opened Text
  import opened Lines
  import opened Trackers
  import opened Splitter

  datatype Section = Section(headingPath: seq<string>, lines: seq<string>)

  datatype Contribution = Contribution(headingPath: seq<string>, tokens: nat)

  datatype MergeGroup = MergeGroup(lines: seq<string>, contributions: seq<Contribution>)

  datatype Chunk = Chunk(content: string, headingPath: seq<string>, tokenCount: nat, ordinal: nat)

  // ------------------------------------------------------------ sections

  datatype Reading = Reading(fence: Fence, page: Option<string>, current: Section, done: seq<Section>)

  const UNREAD := Reading(NO_FENCE, None, Section([], []), [])

  function Close(r: Reading): seq<Section> {
    if Blank(Join(r.current.lines, "")) then r.done else r.done + [r.current]
  }

  /** The line is a heading outside any fence: it becomes structure and leaves the text. */
  predicate Consumed(f: Fence, line: string) {
    !FenceStep(f, line).inside && IsHeading(line)
  }

  function ReadStep(r: Reading, line: string): Reading {
    var fence := FenceStep(r.fence, line);
    if !Consumed(r.fence, line) then
      r.(fence := fence, current := r.current.(lines := r.current.lines + [line]))
    else
      match PageTitle(line)
      case Some(title) => Reading(fence, Some(title), Section([title], []), Close(r))
      case None =>
        var title := SectionTitle(line).value;
        var path := if r.page.Some? then [r.page.value, title] else [title];
        Reading(fence, r.page, Section(path, []), Close(r))
  }

  function ReadTo(doc: seq<string>, k: nat): Reading
    requires k <= |doc|
  {
    if k == 0 then UNREAD else ReadStep(ReadTo(doc, k - 1), doc[k - 1])
  }

  function Sections(doc: seq<string>): seq<Section> {
    Close(ReadTo(doc, |doc|))
  }

  method SplitIntoSections(content: string) returns (sections: seq<Section>)
    ensures sections == Sections(Split(content, '\n'))
  {
    hide Split, Join, Blank, FenceStep, IsFence, QuoteDepth, PageTitle, SectionTitle, ReadTo;
    sections := [];
    var pageTitle: Option<string> := None;
    var current := Section([], []);
    var fence := new FenceTracker();
    var doc := Split(content, '\n');
    NothingRead(doc);
    for k := 0 to |doc|
      invariant fresh(fence)
      invariant ReadTo(doc, k) == Reading(fence.State(), pageTitle, current, sections)
    {
      var line := doc[k];
      OneMoreRead(doc, k);
      HeadingsAreNotMarkers(line);
      var marker := fence.Consume(line);
      if marker {
        current := current.(lines := current.lines + [line]);
        continue;
      }
      if !fence.insideFence {
        var page := PageTitle(line);
        if page.Some? {
          if !Blank(Join(current.lines, "")) { sections := sections + [current]; }
          pageTitle := page;
          current := Section([page.value], []);
          continue;
        }
        var section := SectionTitle(line);
        if section.Some? {
          if !Blank(Join(current.lines, "")) { sections := sections + [current]; }
          current := Section(if pageTitle.None? then [section.value] else [pageTitle.value, section.value], []);
          continue;
        }
      }
      current := current.(lines := current.lines + [line]);
    }
    if !Blank(Join(current.lines, "")) { sections := sections + [current]; }
  }

  lemma {:induction false} ClosedAreNotBlank(doc: seq<string>, k: nat)
    requires k <= |doc|
    ensures forall j | 0 <= j < |ReadTo(doc, k).done| :: !Blank(Join(ReadTo(doc, k).done[j].lines, ""))
  {
    hide Blank, Join, Consumed, FenceStep, PageTitle, SectionTitle, ReadTo;
    if k > 0 {
      ClosedAreNotBlank(doc, k - 1);
      OneMoreRead(doc, k - 1);
    } else {
      NothingRead(doc);
    }
  }

  /** A section always has something in it. */
  lemma SectionsAreNotBlank(doc: seq<string>)
    ensures forall j | 0 <= j < |Sections(doc)| :: !Blank(Join(Sections(doc)[j].lines, ""))
  {
    hide Blank, Join, ReadTo;
    ClosedAreNotBlank(doc, |doc|);
  }

  lemma NothingRead(doc: seq<string>)
    ensures ReadTo(doc, 0) == UNREAD
  {
  }

  lemma OneMoreRead(doc: seq<string>, k: nat)
    requires k < |doc|
    ensures ReadTo(doc, k + 1) == ReadStep(ReadTo(doc, k), doc[k])
  {
  }

  lemma HeadingsAreNotMarkers(line: string)
    ensures !(IsHeading(line) && IsFence(line))
  {
    if IsHeading(line) { HeadingShape(line); }
  }

  // ------------------------------------------------------------- merging

  const NO_GROUP := MergeGroup([], [])

  function Absorb(cnt: TokenCount, pending: MergeGroup, section: Section): MergeGroup {
    MergeGroup(pending.lines + section.lines,
               pending.contributions + [Contribution(section.headingPath, Tokens(cnt, section.lines))])
  }

  function GroupFrom(cnt: TokenCount, min: int, sections: seq<Section>, pending: MergeGroup): seq<MergeGroup>
    decreases sections
  {
    if sections == [] then
      if pending.contributions == [] then [] else [pending]
    else
      var next := Absorb(cnt, pending, sections[0]);
      if Tokens(cnt, next.lines) >= min then [next] + GroupFrom(cnt, min, sections[1..], NO_GROUP)
      else GroupFrom(cnt, min, sections[1..], next)
  }

  method GroupByMinimum(cnt: TokenCount, sections: seq<Section>, min: int) returns (groups: seq<MergeGroup>)
    ensures groups == GroupFrom(cnt, min, sections, NO_GROUP)
  {
    groups := [];
    var pending := NO_GROUP;
    for k := 0 to |sections|
      invariant groups + GroupFrom(cnt, min, sections[k..], pending) == GroupFrom(cnt, min, sections, NO_GROUP)
    {
      assert sections[k..][1..] == sections[k + 1..];
      pending := Absorb(cnt, pending, sections[k]);
      if cnt(Join(pending.lines, "\n")) >= min {
        groups := groups + [pending];
        pending := NO_GROUP;
      }
    }
    if |pending.contributions| > 0 {
      groups := groups + [pending];
    }
  }

  function FoldTrailingGroup(cnt: TokenCount, min: int, groups: seq<MergeGroup>): seq<MergeGroup> {
    var n := |groups|;
    if n < 2 || Tokens(cnt, groups[n - 1].lines) >= min then groups
    else
      var previous, last := groups[n - 2], groups[n - 1];
      groups[..n - 2] + [MergeGroup(previous.lines + last.lines, previous.contributions + last.contributions)]
  }

  /** The `reduce`: a later contribution wins only with strictly more tokens. */
  function Dominant(best: Contribution, rest: seq<Contribution>): Contribution
    decreases rest
  {
    if rest == [] then best
    else Dominant(if rest[0].tokens > best.tokens then rest[0] else best, rest[1..])
  }

  function DominantHeadingPath(contributions: seq<Contribution>): seq<string> {
    if contributions == [] then [] else Dominant(contributions[0], contributions).headingPath
  }

  function ToSections(groups: seq<MergeGroup>): seq<Section> {
    seq(|groups|, i requires 0 <= i < |groups| => Section(DominantHeadingPath(groups[i].contributions),
        groups[i].lines))
  }

  function Merged(cnt: TokenCount, min: int, sections: seq<Section>): seq<Section> {
    if min <= 0 then sections
    else ToSections(FoldTrailingGroup(cnt, min, GroupFrom(cnt, min, sections, NO_GROUP)))
  }

  method MergeUndersizedSections(cnt: TokenCount, sections: seq<Section>, min: int) returns (merged: seq<Section>)
    ensures merged == Merged(cnt, min, sections)
  {
    if min <= 0 {
      return sections;
    }
    var groups := GroupByMinimum(cnt, sections, min);
    merged := ToSections(FoldTrailingGroup(cnt, min, groups));
  }

  // -------------------------------------------------------------- chunks

  function Emit(cnt: TokenCount, path: seq<string>, bodies: seq<string>, ordinal: nat): seq<Chunk>
    decreases bodies
  {
    if bodies == [] then []
    else
      var trimmed := Trim(bodies[0]);
      if trimmed == [] then Emit(cnt, path, bodies[1..], ordinal)
      else [Chunk(trimmed, path, cnt(trimmed), ordinal)] + Emit(cnt, path, bodies[1..], ordinal + 1)
  }

  /** A merged section with the bodies it is split into. */
  datatype Piece = Piece(path: seq<string>, bodies: seq<string>)

  function PiecesOf(cnt: TokenCount, lim: Limits, sections: seq<Section>): seq<Piece> {
    seq(|sections|, i requires 0 <= i < |sections| =>
      Piece(sections[i].headingPath, SectionBodies(cnt, lim, sections[i].lines)))
  }

  function EmitAll(cnt: TokenCount, pieces: seq<Piece>, ordinal: nat): seq<Chunk>
    decreases pieces
  {
    if pieces == [] then []
    else
      var here := Emit(cnt, pieces[0].path, pieces[0].bodies, ordinal);
      here + EmitAll(cnt, pieces[1..], ordinal + |here|)
  }

  function MergedSections(cnt: TokenCount, lim: Limits, content: string): seq<Section> {
    Merged(cnt, lim.min, Sections(Split(content, '\n')))
  }

  function Chunks(cnt: TokenCount, lim: Limits, content: string): seq<Chunk> {
    EmitAll(cnt, PiecesOf(cnt, lim, MergedSections(cnt, lim, content)), 0)
  }

  method ChunkMarkdown(cnt: TokenCount, lim: Limits, content: string) returns (chunks: seq<Chunk>)
    ensures chunks == Chunks(cnt, lim, content)
  {
    hide Emit, EmitAll, Merged, Sections, Split, SectionBodies;
    var sections := SplitIntoSections(content);
    var merged := MergeUndersizedSections(cnt, sections, lim.min);
    chunks := [];
    ghost var pieces := PiecesOf(cnt, lim, merged);
    EmitNoPieces(cnt, pieces);
    for k := 0 to |merged|
      invariant chunks + EmitAll(cnt, pieces[k..], |chunks|) == EmitAll(cnt, pieces, 0)
    {
      EmitAllStep(cnt, pieces, k, chunks);
      var bodies := SplitOversizedSection(cnt, lim, merged[k].lines);
      chunks := PushBodies(cnt, merged[k].headingPath, bodies, chunks);
    }
  }

  lemma EmitNoPieces(cnt: TokenCount, pieces: seq<Piece>)
    ensures pieces[0..] == pieces && pieces[|pieces|..] == [] && forall ordinal: nat :: EmitAll(cnt, [], ordinal) == []
  {
  }

  lemma EmitAllStep(cnt: TokenCount, pieces: seq<Piece>, k: nat, chunks: seq<Chunk>)
    requires k < |pieces|
    ensures var here := Emit(cnt, pieces[k].path, pieces[k].bodies, |chunks|);
            chunks + EmitAll(cnt, pieces[k..], |chunks|)
            == chunks + here + EmitAll(cnt, pieces[k + 1..], |chunks + here|)
  {
    assert pieces[k..][1..] == pieces[k + 1..] && pieces[k..][0] == pieces[k];
  }

  lemma EmitParts(cnt: TokenCount, path: seq<string>, bodies: seq<string>, ordinal: nat)
    ensures bodies == [] ==> Emit(cnt, path, bodies, ordinal) == []
    ensures bodies != [] ==>
              var trimmed := Trim(bodies[0]);
              Emit(cnt, path, bodies, ordinal) ==
              if trimmed == [] then Emit(cnt, path, bodies[1..], ordinal)
              else [Chunk(trimmed, path, cnt(trimmed), ordinal)] + Emit(cnt, path, bodies[1..], ordinal + 1)
  {
    hide Trim;
  }

  /** The inner loop: every body that is not blank becomes the next chunk. */
  method PushBodies(cnt: TokenCount, path: seq<string>, bodies: seq<string>, chunks: seq<Chunk>)
    returns (chunks': seq<Chunk>)
    ensures chunks' == chunks + Emit(cnt, path, bodies, |chunks|)
  {
    hide Emit, Trim;
    chunks' := chunks;
    assert bodies[0..] == bodies && bodies[|bodies|..] == [];
    for i := 0 to |bodies|
      invariant chunks' + Emit(cnt, path, bodies[i..], |chunks'|) == chunks + Emit(cnt, path, bodies, |chunks|)
    {
      assert bodies[i..][0] == bodies[i] && bodies[i..][1..] == bodies[i + 1..];
      EmitParts(cnt, path, bodies[i..], |chunks'|);
      var trimmed := Trim(bodies[i]);
      if |trimmed| == 0 {
        continue;
      }
      chunks' := chunks' + [Chunk(trimmed, path, cnt(trimmed), |chunks'|)];
    }
    EmitParts(cnt, path, [], |chunks'|);
  }

  // -------------------------------------------------- what a chunk list is

  /** Ordinals count from 0, no chunk is empty, contents are trimmed and measured. */
  lemma {:induction false} EmitShape(cnt: TokenCount, path: seq<string>, bodies: seq<string>, ordinal: nat)
    ensures forall i | 0 <= i < |Emit(cnt, path, bodies, ordinal)| ::
              var c := Emit(cnt, path, bodies, ordinal)[i];
              c.ordinal == ordinal + i && !Blank(c.content) && c.tokenCount == cnt(c.content) && c.headingPath == path
    decreases bodies
  {
    if bodies != [] {
      var trimmed := Trim(bodies[0]);
      if trimmed == [] {
        EmitShape(cnt, path, bodies[1..], ordinal);
      } else {
        EmitShape(cnt, path, bodies[1..], ordinal + 1);
        var lo, hi := TrimShape(bodies[0]);
        assert !IsWhite(trimmed[0]);
      }
    }
  }

  lemma {:induction false} EmitAllShape(cnt: TokenCount, pieces: seq<Piece>, ordinal: nat)
    ensures forall i | 0 <= i < |EmitAll(cnt, pieces, ordinal)| ::
              var c := EmitAll(cnt, pieces, ordinal)[i];
              c.ordinal == ordinal + i && !Blank(c.content) && c.tokenCount == cnt(c.content)
    decreases pieces
  {
    if pieces != [] {
      EmitShape(cnt, pieces[0].path, pieces[0].bodies, ordinal);
      EmitAllShape(cnt, pieces[1..], ordinal + |Emit(cnt, pieces[0].path, pieces[0].bodies, ordinal)|);
    }
  }

  lemma ChunksAreNumbered(cnt: TokenCount, lim: Limits, content: string, i: nat)
    requires i < |Chunks(cnt, lim, content)|
    ensures var c := Chunks(cnt, lim, content)[i];
            c.ordinal == i && !Blank(c.content) && c.tokenCount == cnt(c.content)
  {
    EmitAllShape(cnt, PiecesOf(cnt, lim, MergedSections(cnt, lim, content)), 0);
  }

  // -------------------------------------------------------- conservation

  /** The document without the headings that became structure: one fence scan, no sections. */
  function Kept(f: Fence, doc: seq<string>): seq<string>
    decreases doc
  {
    if doc == [] then []
    else (if Consumed(f, doc[0]) then [] else [doc[0]]) + Kept(FenceStep(f, doc[0]), doc[1..])
  }

  lemma {:induction false} KeptConcat(f: Fence, a: seq<string>, b: seq<string>)
    ensures Kept(f, a + b) == Kept(f, a) + Kept(FenceRun(f, a), b)
    decreases a
  {
    if a == [] {
      assert a + b == b;
    } else {
      assert (a + b)[1..] == a[1..] + b;
      KeptConcat(FenceStep(f, a[0]), a[1..], b);
    }
  }

  lemma KeptSnoc(doc: seq<string>, k: nat)
    requires k < |doc|
    ensures Kept(NO_FENCE, doc[..k + 1]) ==
            Kept(NO_FENCE, doc[..k]) + if Consumed(FenceRun(NO_FENCE, doc[..k]), doc[k]) then [] else [doc[k]]
  {
    assert doc[..k + 1] == doc[..k] + [doc[k]];
    KeptConcat(NO_FENCE, doc[..k], [doc[k]]);
    assert [doc[k]][1..] == [];
    var f := FenceRun(NO_FENCE, doc[..k]);
    assert Kept(f, [doc[k]]) == (if Consumed(f, doc[k]) then [] else [doc[k]]) + Kept(FenceStep(f, doc[k]), []);
  }

  function LinesOf(sections: seq<Section>): seq<string> {
    if sections == [] then [] else LinesOf(sections[..|sections| - 1]) + sections[|sections| - 1].lines
  }

  lemma {:induction false} LinesOfConcat(a: seq<Section>, b: seq<Section>)
    ensures LinesOf(a + b) == LinesOf(a) + LinesOf(b)
  {
    if b == [] {
      assert a + b == a;
    } else {
      assert (a + b)[..|a + b| - 1] == a + b[..|b| - 1];
      LinesOfConcat(a, b[..|b| - 1]);
    }
  }

  lemma {:induction false} ReadFence(doc: seq<string>, k: nat)
    requires k <= |doc|
    ensures ReadTo(doc, k).fence == FenceRun(NO_FENCE, doc[..k])
  {
    hide ReadTo, ReadStep, FenceRun, FenceStep;
    if k == 0 {
      ReadToStart(doc);
    } else {
      ReadFence(doc, k - 1);
      ReadToNext(doc, k - 1);
      FenceRunSnoc(NO_FENCE, doc, k - 1);
    }
  }

  lemma CloseKeepsLines(r: Reading)
    ensures NonBlank(LinesOf(Close(r))) == NonBlank(LinesOf(r.done)) + NonBlank(r.current.lines)
  {
    if Blank(Join(r.current.lines, "")) {
      JoinBlank(r.current.lines);
      NonBlankOfBlank(r.current.lines);
    } else {
      assert (r.done + [r.current])[..|r.done|] == r.done;
      NonBlankConcat(LinesOf(r.done), r.current.lines);
    }
  }

  lemma {:induction false} ReadKeepsLines(doc: seq<string>, k: nat)
    requires k <= |doc|
    ensures var r := ReadTo(doc, k);
            NonBlank(LinesOf(r.done)) + NonBlank(r.current.lines) == NonBlank(Kept(NO_FENCE, doc[..k]))
  {
    hide ReadTo, ReadStep, NonBlank, Close, LinesOf, Kept, Consumed, FenceRun, FenceStep;
    if k == 0 {
      ReadToStart(doc);
    } else {
      var r, line := ReadTo(doc, k - 1), doc[k - 1];
      ReadKeepsLines(doc, k - 1);
      ReadToNext(doc, k - 1);
      ReadFence(doc, k - 1);
      KeptSnoc(doc, k - 1);
      CloseKeepsLines(r);
      OneMoreLine(LinesOf(r.done), r.current.lines, Kept(NO_FENCE, doc[..k - 1]), line);
    }
  }

  lemma NothingNonBlank()
    ensures NonBlank([]) == []
  {
  }

  lemma OneMoreLine(closed: seq<string>, current: seq<string>, kept: seq<string>, line: string)
    requires NonBlank(closed) + NonBlank(current) == NonBlank(kept)
    ensures NonBlank(closed) + NonBlank(current + [line]) == NonBlank(kept + [line])
    ensures NonBlank(closed) + NonBlank(current) + NonBlank([]) == NonBlank(kept + [])
  {
    hide NonBlank;
    NonBlankConcat(current, [line]);
    NonBlankConcat(kept, [line]);
    assert kept + [] == kept;
    NothingNonBlank();
  }

  lemma ReadToStart(doc: seq<string>)
    ensures var r := ReadTo(doc, 0);
            && r.done == [] && r.current.lines == [] && r.fence == FenceRun(NO_FENCE, doc[..0])
            && LinesOf([]) == [] && NonBlank([]) == [] && Kept(NO_FENCE, doc[..0]) == [] && NoNewlines([])
  {
    assert doc[..0] == [];
  }

  lemma ReadToNext(doc: seq<string>, k: nat)
    requires k < |doc|
    ensures var r, r' := ReadTo(doc, k), ReadTo(doc, k + 1);
            && r'.fence == FenceStep(r.fence, doc[k])
            && (Consumed(r.fence, doc[k]) ==> r'.done == Close(r) && r'.current.lines == [])
            && (!Consumed(r.fence, doc[k]) ==> r'.done == r.done && r'.current.lines == r.current.lines + [doc[k]])
  {
  }

  lemma DocLine(doc: seq<string>, k: nat)
    requires k < |doc| && NoNewlines(doc)
    ensures NoNewlines([doc[k]]) && NoNewlines([])
  {
  }

  function GroupLines(groups: seq<MergeGroup>): seq<string> {
    if groups == [] then [] else groups[0].lines + GroupLines(groups[1..])
  }

  lemma {:induction false} GroupLinesConcat(a: seq<MergeGroup>, b: seq<MergeGroup>)
    ensures GroupLines(a + b) == GroupLines(a) + GroupLines(b)
  {
    if a == [] {
      assert a + b == b;
    } else {
      assert (a + b)[1..] == a[1..] + b;
      GroupLinesConcat(a[1..], b);
    }
  }

  lemma {:induction false} GroupKeepsLines(cnt: TokenCount, min: int, sections: seq<Section>, pending: MergeGroup)
    requires pending.contributions == [] ==> pending.lines == []
    ensures GroupLines(GroupFrom(cnt, min, sections, pending)) == pending.lines + LinesOf(sections)
    decreases sections
  {
    hide GroupFrom, GroupLines, LinesOf, Tokens, Absorb;
    if sections == [] {
      LastGroupLines(cnt, min, pending);
    } else {
      var next := Absorb(cnt, pending, sections[0]);
      FirstSectionLines(sections);
      AbsorbedLines(cnt, pending, sections[0]);
      GroupFromNext(cnt, min, sections, pending);
      if Tokens(cnt, next.lines) >= min {
        GroupKeepsLines(cnt, min, sections[1..], NO_GROUP);
        assert GroupLines(GroupFrom(cnt, min, sections[1..], NO_GROUP)) == LinesOf(sections[1..]);
      } else {
        GroupKeepsLines(cnt, min, sections[1..], next);
      }
    }
  }

  lemma AbsorbedLines(cnt: TokenCount, pending: MergeGroup, section: Section)
    ensures var next := Absorb(cnt, pending, section);
            next.lines == pending.lines + section.lines && next.contributions != []
  {
    hide Tokens;
  }

  lemma LastGroupLines(cnt: TokenCount, min: int, pending: MergeGroup)
    requires pending.contributions == [] ==> pending.lines == []
    ensures GroupLines(GroupFrom(cnt, min, [], pending)) == pending.lines + LinesOf([])
  {
  }

  lemma GroupFromNext(cnt: TokenCount, min: int, sections: seq<Section>, pending: MergeGroup)
    requires sections != []
    ensures var next := Absorb(cnt, pending, sections[0]);
            GroupLines(GroupFrom(cnt, min, sections, pending)) ==
              if Tokens(cnt, next.lines) >= min then
                next.lines + GroupLines(GroupFrom(cnt, min, sections[1..], NO_GROUP))
              else GroupLines(GroupFrom(cnt, min, sections[1..], next))
  {
    var next := Absorb(cnt, pending, sections[0]);
    var tail := GroupFrom(cnt, min, sections[1..], NO_GROUP);
    assert ([next] + tail)[1..] == tail;
  }

  lemma FirstSectionLines(sections: seq<Section>)
    requires sections != []
    ensures LinesOf(sections) == sections[0].lines + LinesOf(sections[1..])
  {
    LinesOfConcat([sections[0]], sections[1..]);
    assert [sections[0]] + sections[1..] == sections;
    assert LinesOf([sections[0]]) == LinesOf([]) + sections[0].lines;
  }

  lemma FoldGroupKeepsLines(cnt: TokenCount, min: int, groups: seq<MergeGroup>)
    ensures GroupLines(FoldTrailingGroup(cnt, min, groups)) == GroupLines(groups)
  {
    var n := |groups|;
    if n >= 2 {
      var rest, a, b := groups[..n - 2], groups[n - 2], groups[n - 1];
      var both := MergeGroup(a.lines + b.lines, a.contributions + b.contributions);
      assert groups == rest + [a, b];
      GroupLinesConcat(rest, [a, b]);
      GroupLinesConcat(rest, [both]);
      assert [a, b][1..] == [b] && [b][1..] == [] && [both][1..] == [];
    }
  }

  lemma {:induction false} ToSectionsKeepsLines(groups: seq<MergeGroup>)
    ensures LinesOf(ToSections(groups)) == GroupLines(groups)
  {
    if groups != [] {
      var n := |groups| - 1;
      ToSectionsKeepsLines(groups[..n]);
      assert ToSections(groups)[..n] == ToSections(groups[..n]);
      assert groups == groups[..n] + [groups[n]];
      GroupLinesConcat(groups[..n], [groups[n]]);
      assert [groups[n]][1..] == [];
    }
  }

  /** Merging moves section borders and nothing else. */
  lemma MergedKeepsLines(cnt: TokenCount, min: int, sections: seq<Section>)
    ensures LinesOf(Merged(cnt, min, sections)) == LinesOf(sections)
  {
    if min > 0 {
      var groups := GroupFrom(cnt, min, sections, NO_GROUP);
      GroupKeepsLines(cnt, min, sections, NO_GROUP);
      FoldGroupKeepsLines(cnt, min, groups);
      ToSectionsKeepsLines(FoldTrailingGroup(cnt, min, groups));
    }
  }

  function Contents(chunks: seq<Chunk>): seq<string> {
    seq(|chunks|, i requires 0 <= i < |chunks| => chunks[i].content)
  }

  function ChunkEssence(chunks: seq<Chunk>): seq<string> {
    AllEssence(Contents(chunks))
  }

  lemma {:induction false} EmitKeepsLines(cnt: TokenCount, path: seq<string>, bodies: seq<string>, ordinal: nat)
    ensures ChunkEssence(Emit(cnt, path, bodies, ordinal)) == AllEssence(bodies)
    decreases bodies
  {
    if bodies == [] {
      return;
    }
    var trimmed := Trim(bodies[0]);
    FirstBodyKept(bodies, trimmed);
    if trimmed == [] {
      EmitKeepsLines(cnt, path, bodies[1..], ordinal);
      assert Emit(cnt, path, bodies, ordinal) == Emit(cnt, path, bodies[1..], ordinal);
      hide Emit, AllEssence;
    } else {
      EmitKeepsLines(cnt, path, bodies[1..], ordinal + 1);
      var first := Chunk(trimmed, path, cnt(trimmed), ordinal);
      assert Emit(cnt, path, bodies, ordinal) == [first] + Emit(cnt, path, bodies[1..], ordinal + 1);
      hide Emit, AllEssence;
      ContentsConcat([first], Emit(cnt, path, bodies[1..], ordinal + 1));
      assert Contents([first]) == [trimmed];
    }
    hide Emit, Trim, NonBlank, Split, AllEssence;
  }

  lemma FirstBodyKept(bodies: seq<string>, trimmed: string)
    requires bodies != [] && trimmed == Trim(bodies[0])
    ensures AllEssence(bodies) == (if trimmed == [] then [] else AllEssence([trimmed])) + AllEssence(bodies[1..])
  {
    assert Split([], '\n') == [[]];
    assert NonBlank([[]]) == [] by { NonBlankOfBlank([[]]); }
    assert bodies == [bodies[0]] + bodies[1..];
    AllEssenceConcat([bodies[0]], bodies[1..]);
    EssenceOfOne(bodies[0]);
    EssenceOfOne(trimmed);
    EssenceOfTrim(bodies[0]);
    hide NonBlank, Trim, Split;
  }

  function PiecesEssence(pieces: seq<Piece>): seq<string> {
    if pieces == [] then [] else AllEssence(pieces[0].bodies) + PiecesEssence(pieces[1..])
  }

  lemma {:induction false} EmitAllKeepsLines(cnt: TokenCount, pieces: seq<Piece>, ordinal: nat)
    ensures ChunkEssence(EmitAll(cnt, pieces, ordinal)) == PiecesEssence(pieces)
    decreases pieces
  {
    if pieces == [] {
      return;
    }
    var here := Emit(cnt, pieces[0].path, pieces[0].bodies, ordinal);
    EmitKeepsLines(cnt, pieces[0].path, pieces[0].bodies, ordinal);
    EmitAllKeepsLines(cnt, pieces[1..], ordinal + |here|);
    ContentsConcat(here, EmitAll(cnt, pieces[1..], ordinal + |here|));
    hide Emit, AllEssence, Contents, ChunkEssence;
  }

  lemma ContentsConcat(a: seq<Chunk>, b: seq<Chunk>)
    ensures ChunkEssence(a + b) == ChunkEssence(a) + ChunkEssence(b)
  {
    assert Contents(a + b) == Contents(a) + Contents(b);
    AllEssenceConcat(Contents(a), Contents(b));
  }

  lemma FirstLines(first: Section, tail: seq<Section>)
    requires NoNewlines(LinesOf([first] + tail))
    ensures LinesOf([first] + tail) == first.lines + LinesOf(tail)
    ensures NoNewlines(first.lines) && NoNewlines(LinesOf(tail))
  {
    LinesOfConcat([first], tail);
    assert LinesOf([first]) == LinesOf([]) + first.lines;
    hide LinesOf;
    NoNewlinesConcat(first.lines, LinesOf(tail));
  }

  lemma NoNewlinesConcat(a: seq<string>, b: seq<string>)
    ensures NoNewlines(a + b) <==> NoNewlines(a) && NoNewlines(b)
  {
    assert forall i | 0 <= i < |a| :: a[i] == (a + b)[i];
    assert forall i | 0 <= i < |b| :: b[i] == (a + b)[|a| + i];
  }

  lemma {:induction false} PiecesKeepLines(cnt: TokenCount, lim: Limits, sections: seq<Section>)
    requires NoNewlines(LinesOf(sections))
    ensures PiecesEssence(PiecesOf(cnt, lim, sections)) == NonBlank(LinesOf(sections))
  {
    hide SectionBodies, NonBlank, LinesOf, AllEssence, NoNewlines, PiecesOf, PiecesEssence;
    PiecesParts(cnt, lim, sections);
    if sections != [] {
      var first, tail := sections[0], sections[1..];
      assert sections == [first] + tail;
      FirstLines(first, tail);
      SectionKeepsLines(cnt, lim, first.lines);
      PiecesKeepLines(cnt, lim, tail);
      NonBlankConcat(first.lines, LinesOf(tail));
    }
  }

  lemma PiecesParts(cnt: TokenCount, lim: Limits, sections: seq<Section>)
    ensures sections == [] ==> PiecesEssence(PiecesOf(cnt, lim, sections)) == NonBlank(LinesOf(sections)) == []
    ensures sections != [] ==>
              PiecesEssence(PiecesOf(cnt, lim, sections)) ==
              AllEssence(SectionBodies(cnt, lim, sections[0].lines)) + PiecesEssence(PiecesOf(cnt, lim, sections[1..]))
  {
    hide SectionBodies, AllEssence;
    var pieces := PiecesOf(cnt, lim, sections);
    assert sections != [] ==> pieces[1..] == PiecesOf(cnt, lim, sections[1..]);
  }

  lemma {:induction false} ReadNoNewlines(doc: seq<string>, k: nat)
    requires k <= |doc| && NoNewlines(doc)
    ensures NoNewlines(LinesOf(ReadTo(doc, k).done)) && NoNewlines(ReadTo(doc, k).current.lines)
  {
    hide ReadTo, ReadStep, NoNewlines, Consumed, Close, LinesOf, FenceStep;
    if k == 0 {
      ReadToStart(doc);
    } else {
      var r, line := ReadTo(doc, k - 1), doc[k - 1];
      ReadNoNewlines(doc, k - 1);
      ReadToNext(doc, k - 1);
      CloseNoNewlines(r);
      NoNewlinesConcat(r.current.lines, [line]);
      DocLine(doc, k - 1);
    }
  }

  lemma CloseNoNewlines(r: Reading)
    ensures NoNewlines(LinesOf(r.done)) && NoNewlines(r.current.lines) ==> NoNewlines(LinesOf(Close(r)))
  {
    assert (r.done + [r.current])[..|r.done|] == r.done;
    NoNewlinesConcat(LinesOf(r.done), r.current.lines);
  }

  /** Conservation, end to end: the chunks in ordinal order carry exactly the non-blank lines of the
      document that are not headings consumed as structure, each once and in order. */
  lemma Conservation(cnt: TokenCount, lim: Limits, content: string)
    ensures ChunkEssence(Chunks(cnt, lim, content)) == NonBlank(Kept(NO_FENCE, Split(content, '\n')))
  {
    hide NonBlank, AllEssence, Kept, EmitAll, Merged, ReadTo;
    var doc := Split(content, '\n');
    var r := ReadTo(doc, |doc|);
    var sections := Sections(doc);
    ReadKeepsLines(doc, |doc|);
    CloseKeepsLines(r);
    assert doc[..|doc|] == doc;
    ReadNoNewlines(doc, |doc|);
    assert (r.done + [r.current])[..|r.done|] == r.done;
    MergedKeepsLines(cnt, lim.min, sections);
    PiecesKeepLines(cnt, lim, Merged(cnt, lim.min, sections));
    EmitAllKeepsLines(cnt, PiecesOf(cnt, lim, MergedSections(cnt, lim, content)), 0);
  }

  // ------------------------------------------------------------ merging

  /** Every group but the last reaches the minimum; only the last can fall short. */
  lemma {:induction false} GroupsReachMinimum(cnt: TokenCount, min: int, sections: seq<Section>, pending: MergeGroup,
      g: nat)
    requires g + 1 < |GroupFrom(cnt, min, sections, pending)|
    ensures Tokens(cnt, GroupFrom(cnt, min, sections, pending)[g].lines) >= min
    decreases sections
  {
    if sections != [] {
      var next := Absorb(cnt, pending, sections[0]);
      if Tokens(cnt, next.lines) < min {
        GroupsReachMinimum(cnt, min, sections[1..], next, g);
      } else if g > 0 {
        GroupsReachMinimum(cnt, min, sections[1..], NO_GROUP, g - 1);
      }
    }
  }

  lemma {:induction false} DominantIs(best: Contribution, rest: seq<Contribution>)
    ensures var d := Dominant(best, rest);
            && d.tokens >= best.tokens
            && (forall i | 0 <= i < |rest| :: rest[i].tokens <= d.tokens)
            && (d == best || exists i | 0 <= i < |rest| ::
                  rest[i] == d && d.tokens > best.tokens && forall k | 0 <= k < i :: rest[k].tokens < d.tokens)
    decreases rest
  {
    if rest != [] {
      var better := if rest[0].tokens > best.tokens then rest[0] else best;
      DominantIs(better, rest[1..]);
      var d := Dominant(better, rest[1..]);
      assert forall i | 1 <= i < |rest| :: rest[i] == rest[1..][i - 1];
      if d != better {
        var i :| 0 <= i < |rest| - 1 && rest[1..][i] == d && d.tokens > better.tokens
                 && forall k | 0 <= k < i :: rest[1..][k].tokens < d.tokens;
        assert rest[i + 1] == d;
      } else if better == rest[0] {
        assert rest[0] == d;
      }
    }
  }

  /** A merged section is headed by the earliest of its heaviest sections. */
  lemma HeaviestSectionHeads(contributions: seq<Contribution>)
    requires contributions != []
    ensures exists i | 0 <= i < |contributions| ::
              && DominantHeadingPath(contributions) == contributions[i].headingPath
              && (forall k | 0 <= k < |contributions| :: contributions[k].tokens <= contributions[i].tokens)
              && (forall k | 0 <= k < i :: contributions[k].tokens < contributions[i].tokens)
  {
    DominantIs(contributions[0], contributions);
    var d := Dominant(contributions[0], contributions);
    if d == contributions[0] {
      assert forall k | 0 <= k < |contributions| :: contributions[k].tokens <= contributions[0].tokens;
    } else {
      var i :| 0 <= i < |contributions| && contributions[i] == d && forall k | 0 <= k < i ::
          contributions[k].tokens < d.tokens;
      assert forall k | 0 <= k < |contributions| :: contributions[k].tokens <= contributions[i].tokens;
    }
  }

  // ------------------------------------------------------ merging as ranges

  function ContributionsIn(cnt: TokenCount, sections: seq<Section>): seq<Contribution> {
    seq(|sections|, i requires 0 <= i < |sections| => Contribution(sections[i].headingPath,
        Tokens(cnt, sections[i].lines)))
  }

  function GroupOf(cnt: TokenCount, sections: seq<Section>): MergeGroup {
    MergeGroup(LinesOf(sections), ContributionsIn(cnt, sections))
  }

  /** n consecutive ranges, none empty, from one place to another. */
  predicate Cuts(cuts: seq<nat>, from: nat, to: nat, n: nat) {
    |cuts| == n + 1 && cuts[0] == from && cuts[n] == to && forall i, j | 0 <= i < j <= n :: cuts[i] < cuts[j]
  }

  lemma AbsorbExtends(cnt: TokenCount, sections: seq<Section>, p: nat, k: nat)
    requires p <= k < |sections|
    ensures Absorb(cnt, GroupOf(cnt, sections[p..k]), sections[k]) == GroupOf(cnt, sections[p..k + 1])
  {
    var longer := sections[p..k + 1];
    assert longer[..|longer| - 1] == sections[p..k] && longer[|longer| - 1] == sections[k];
    hide Tokens;
  }

  predicate RangeAt(cnt: TokenCount, sections: seq<Section>, groups: seq<MergeGroup>, cuts: seq<nat>, i: nat)
    requires i < |groups| && i + 1 < |cuts|
  {
    cuts[i] < cuts[i + 1] <= |sections| && groups[i] == GroupOf(cnt, sections[cuts[i]..cuts[i + 1]])
  }

  /** The groups are the ranges between these cuts, from one place to the end. */
  predicate Ranged(cnt: TokenCount, sections: seq<Section>, groups: seq<MergeGroup>, cuts: seq<nat>, from: nat) {
    Cuts(cuts, from, |sections|, |groups|) && forall i | 0 <= i < |groups| :: RangeAt(cnt, sections, groups, cuts, i)
  }

  /** Sections a to b fall short of the minimum. */
  predicate Short(cnt: TokenCount, min: int, sections: seq<Section>, a: nat, b: nat) {
    a <= b <= |sections| && Tokens(cnt, LinesOf(sections[a..b])) < min
  }

  /** b is the first place behind a at which the minimum is reached. */
  predicate Closed(cnt: TokenCount, min: int, sections: seq<Section>, a: nat, b: nat) {
    !Short(cnt, min, sections, a, b) && forall m | a < m < b :: Short(cnt, min, sections, a, m)
  }

  /** From a to b the minimum is never reached. */
  predicate Trailing(cnt: TokenCount, min: int, sections: seq<Section>, a: nat, b: nat) {
    forall m | a < m <= b :: Short(cnt, min, sections, a, m)
  }

  /** Every range ends as soon as it reaches the minimum; only the last may end without. */
  predicate Timely(cnt: TokenCount, min: int, sections: seq<Section>, cuts: seq<nat>) {
    forall i | 0 <= i < |cuts| - 1 ::
      Closed(cnt, min, sections, cuts[i], cuts[i + 1])
      || (i == |cuts| - 2 && Trailing(cnt, min, sections, cuts[i], cuts[i + 1]))
  }

  lemma ConsTimely(cnt: TokenCount, min: int, sections: seq<Section>, cuts: seq<nat>, p: nat)
    requires cuts != [] && Timely(cnt, min, sections, cuts) && Closed(cnt, min, sections, p, cuts[0])
    ensures Timely(cnt, min, sections, [p] + cuts)
  {
    hide Closed, Trailing;
    var all := [p] + cuts;
    forall i | 0 <= i < |all| - 1
      ensures Closed(cnt, min, sections, all[i], all[i + 1])
              || (i == |all| - 2 && Trailing(cnt, min, sections, all[i], all[i + 1]))
    {
      assert i > 0 ==> all[i] == cuts[i - 1] && all[i + 1] == cuts[i];
    }
  }

  lemma ConsRanged(cnt: TokenCount, sections: seq<Section>, groups: seq<MergeGroup>, cuts: seq<nat>, p: nat, k: nat)
    requires p < k <= |sections| && Ranged(cnt, sections, groups, cuts, k)
    ensures Ranged(cnt, sections, [GroupOf(cnt, sections[p..k])] + groups, [p] + cuts, p)
  {
    hide GroupOf;
    var all, bounds := [GroupOf(cnt, sections[p..k])] + groups, [p] + cuts;
    forall i | 0 <= i < |all|
      ensures RangeAt(cnt, sections, all, bounds, i)
    {
      assert i > 0 ==> RangeAt(cnt, sections, groups, cuts, i - 1);
    }
  }

  lemma LastRange(cnt: TokenCount, min: int, sections: seq<Section>, p: nat) returns (cuts: seq<nat>)
    requires p <= |sections|
    requires Trailing(cnt, min, sections, p, |sections|)
    ensures Ranged(cnt, sections, GroupFrom(cnt, min, [], GroupOf(cnt, sections[p..])), cuts, p)
    ensures Timely(cnt, min, sections, cuts)
  {
    hide Trailing, Closed, Tokens;
    if p == |sections| {
      cuts := [p];
    } else {
      cuts := [p, |sections|];
      assert sections[p..|sections|] == sections[p..];
    }
  }

  lemma {:induction false} GroupsAreRanges(cnt: TokenCount, min: int, sections: seq<Section>, p: nat, k: nat)
    returns (cuts: seq<nat>)
    requires p <= k <= |sections| && Trailing(cnt, min, sections, p, k)
    ensures Ranged(cnt, sections, GroupFrom(cnt, min, sections[k..], GroupOf(cnt, sections[p..k])), cuts, p)
    ensures Timely(cnt, min, sections, cuts)
    decreases |sections| - k
  {
    hide Ranged, GroupOf, Tokens, Timely;
    if k == |sections| {
      cuts := LastRange(cnt, min, sections, p);
      assert sections[k..] == [] && sections[p..k] == sections[p..];
      return;
    }
    var next := GroupOf(cnt, sections[p..k + 1]);
    assert sections[k..][0] == sections[k] && sections[k..][1..] == sections[k + 1..];
    AbsorbExtends(cnt, sections, p, k);
    LinesOfGroup(cnt, sections[p..k + 1]);
    if Tokens(cnt, next.lines) >= min {
      EmptyGroup(cnt, sections, k + 1);
      cuts := GroupsAreRanges(cnt, min, sections, k + 1, k + 1);
      ConsRanged(cnt, sections, GroupFrom(cnt, min, sections[k + 1..], NO_GROUP), cuts, p, k + 1);
      CutsStart(cnt, sections, GroupFrom(cnt, min, sections[k + 1..], NO_GROUP), cuts, k + 1);
      ConsTimely(cnt, min, sections, cuts, p);
      cuts := [p] + cuts;
    } else {
      cuts := GroupsAreRanges(cnt, min, sections, p, k + 1);
    }
  }

  lemma LinesOfGroup(cnt: TokenCount, sections: seq<Section>)
    ensures GroupOf(cnt, sections).lines == LinesOf(sections)
  {
  }

  lemma CutsStart(cnt: TokenCount, sections: seq<Section>, groups: seq<MergeGroup>, cuts: seq<nat>, from: nat)
    requires Ranged(cnt, sections, groups, cuts, from)
    ensures |cuts| == |groups| + 1 && cuts[0] == from
  {
  }

  lemma EmptyGroup(cnt: TokenCount, sections: seq<Section>, k: nat)
    requires k <= |sections|
    ensures GroupOf(cnt, sections[k..k]) == NO_GROUP
  {
  }

  lemma JoinGroups(cnt: TokenCount, sections: seq<Section>, a: nat, b: nat, c: nat)
    requires a <= b <= c <= |sections|
    ensures var x, y := GroupOf(cnt, sections[a..b]), GroupOf(cnt, sections[b..c]);
            GroupOf(cnt, sections[a..c]) == MergeGroup(x.lines + y.lines, x.contributions + y.contributions)
  {
    assert sections[a..c] == sections[a..b] + sections[b..c];
    LinesOfConcat(sections[a..b], sections[b..c]);
    hide LinesOf, Tokens;
  }

  /** The last range after folding: it ends as soon as it reaches the minimum, or what follows that place falls
      short and was folded into it, or it is the only one and falls short itself. */
  ghost predicate LastRangeOk(cnt: TokenCount, min: int, sections: seq<Section>, a: nat, b: nat, only: bool) {
    || Closed(cnt, min, sections, a, b)
    || (only && Trailing(cnt, min, sections, a, b))
    || exists m: nat :: a < m < b && Closed(cnt, min, sections, a, m) && Trailing(cnt, min, sections, m, b)
  }

  /** Every range ends as soon as it reaches the minimum; the last may have a short rest folded into it. */
  ghost predicate FoldedTimely(cnt: TokenCount, min: int, sections: seq<Section>, cuts: seq<nat>) {
    && (forall i | 0 <= i < |cuts| - 2 :: Closed(cnt, min, sections, cuts[i], cuts[i + 1]))
    && (|cuts| >= 2 ==>
          LastRangeOk(cnt, min, sections, cuts[|cuts| - 2], cuts[|cuts| - 1], |cuts| == 2))
  }

  /** Folding joins the last two ranges. */
  lemma FoldedAreRanges(cnt: TokenCount, min: int, sections: seq<Section>, groups: seq<MergeGroup>, cuts: seq<nat>)
    returns (folded: seq<nat>)
    requires Ranged(cnt, sections, groups, cuts, 0) && Timely(cnt, min, sections, cuts)
    ensures Ranged(cnt, sections, FoldTrailingGroup(cnt, min, groups), folded, 0)
    ensures FoldedTimely(cnt, min, sections, folded)
  {
    hide GroupOf, Tokens, Closed, Trailing, LastRangeOk;
    var n, all := |groups|, FoldTrailingGroup(cnt, min, groups);
    if n > 0 {
      assert RangeAt(cnt, sections, groups, cuts, n - 1);
      LastGroupShort(cnt, min, sections, groups, cuts);
    }
    if n < 2 || Tokens(cnt, groups[n - 1].lines) >= min {
      if n > 0 {
        LastStands(cnt, min, sections, cuts[n - 1], cuts[n], n == 1);
      }
      return cuts;
    }
    LastFolds(cnt, min, sections, cuts[n - 2], cuts[n - 1], cuts[n], n == 2);
    folded := cuts[..n - 1] + [cuts[n]];
    assert RangeAt(cnt, sections, groups, cuts, n - 2) && RangeAt(cnt, sections, groups, cuts, n - 1);
    JoinGroups(cnt, sections, cuts[n - 2], cuts[n - 1], cuts[n]);
    forall i | 0 <= i < n - 1
      ensures RangeAt(cnt, sections, all, folded, i)
    {
      assert RangeAt(cnt, sections, groups, cuts, i);
    }
  }

  lemma LastGroupShort(cnt: TokenCount, min: int, sections: seq<Section>, groups: seq<MergeGroup>, cuts: seq<nat>)
    requires groups != [] && |cuts| == |groups| + 1 && RangeAt(cnt, sections, groups, cuts, |groups| - 1)
    ensures var a, b := cuts[|cuts| - 2], cuts[|cuts| - 1];
            && (Tokens(cnt, groups[|groups| - 1].lines) < min ==> !Closed(cnt, min, sections, a, b))
            && (Tokens(cnt, groups[|groups| - 1].lines) >= min ==> !Trailing(cnt, min, sections, a, b))
  {
    hide Tokens, LinesOf;
    var a, b := cuts[|cuts| - 2], cuts[|cuts| - 1];
    assert Short(cnt, min, sections, a, b) <==> Tokens(cnt, groups[|groups| - 1].lines) < min;
  }

  lemma LastStands(cnt: TokenCount, min: int, sections: seq<Section>, a: nat, b: nat, only: bool)
    requires Closed(cnt, min, sections, a, b) || (only && Trailing(cnt, min, sections, a, b))
    ensures LastRangeOk(cnt, min, sections, a, b, only)
  {
  }

  lemma LastFolds(cnt: TokenCount, min: int, sections: seq<Section>, a: nat, m: nat, b: nat, only: bool)
    requires a < m < b && Closed(cnt, min, sections, a, m) && Trailing(cnt, min, sections, m, b)
    ensures LastRangeOk(cnt, min, sections, a, b, only)
  {
  }

  /** The section of a range that heads it: the earliest of its heaviest. */
  predicate Heads(cnt: TokenCount, sections: seq<Section>, a: nat, b: nat, h: nat)
    requires a <= b <= |sections|
  {
    && a <= h < b
    && (forall k | a <= k < b :: Tokens(cnt, sections[k].lines) <= Tokens(cnt, sections[h].lines))
    && (forall k | a <= k < h :: Tokens(cnt, sections[k].lines) < Tokens(cnt, sections[h].lines))
  }

  /** A merged section is a range of sections, headed by the earliest of its heaviest. */
  ghost predicate MergedFrom(cnt: TokenCount, sections: seq<Section>, merged: Section, a: nat, b: nat) {
    && a < b <= |sections|
    && merged.lines == LinesOf(sections[a..b])
    && exists h: nat :: Heads(cnt, sections, a, b, h) && merged.headingPath == sections[h].headingPath
  }

  lemma RangeIsHeaded(cnt: TokenCount, sections: seq<Section>, a: nat, b: nat)
    requires a < b <= |sections|
    ensures var g := GroupOf(cnt, sections[a..b]);
            MergedFrom(cnt, sections, Section(DominantHeadingPath(g.contributions), g.lines), a, b)
  {
    hide Tokens, LinesOf, DominantHeadingPath;
    var cs := ContributionsIn(cnt, sections[a..b]);
    HeaviestSectionHeads(cs);
    var i :| 0 <= i < |cs| && DominantHeadingPath(cs) == cs[i].headingPath
             && (forall k | 0 <= k < |cs| :: cs[k].tokens <= cs[i].tokens)
             && (forall k | 0 <= k < i :: cs[k].tokens < cs[i].tokens);
    forall k | a <= k < b
      ensures cs[k - a] == Contribution(sections[k].headingPath, Tokens(cnt, sections[k].lines))
    {
    }
    assert Heads(cnt, sections, a, b, a + i);
  }

  /** Merging partitions the sections into consecutive ranges: each merged section has exactly the lines of its
      range, under the heading of the earliest of its heaviest sections, and ends at the first section with which
      it reaches the minimum; only the last takes in a rest that falls short. */
  lemma MergedAreRanges(cnt: TokenCount, min: int, sections: seq<Section>) returns (cuts: seq<nat>)
    requires min > 0
    ensures Cuts(cuts, 0, |sections|, |Merged(cnt, min, sections)|)
    ensures forall m | 0 <= m < |Merged(cnt, min, sections)| ::
              MergedFrom(cnt, sections, Merged(cnt, min, sections)[m], cuts[m], cuts[m + 1])
    ensures FoldedTimely(cnt, min, sections, cuts)
  {
    EmptyGroup(cnt, sections, 0);
    assert sections[0..] == sections;
    var groups := GroupFrom(cnt, min, sections, NO_GROUP);
    cuts := GroupsAreRanges(cnt, min, sections, 0, 0);
    cuts := FoldedAreRanges(cnt, min, sections, groups, cuts);
    hide GroupFrom, GroupOf, FoldTrailingGroup, DominantHeadingPath, Tokens, MergedFrom, FoldedTimely;
    var folded := FoldTrailingGroup(cnt, min, groups);
    forall m | 0 <= m < |folded|
      ensures MergedFrom(cnt, sections, Merged(cnt, min, sections)[m], cuts[m], cuts[m + 1])
    {
      assert RangeAt(cnt, sections, folded, cuts, m);
      RangeIsHeaded(cnt, sections, cuts[m], cuts[m + 1]);
    }
  }

  /** More lines never count for less. */
  ghost predicate Growing(cnt: TokenCount) {
    forall a: seq<string>, b: seq<string> :: Tokens(cnt, a) <= Tokens(cnt, a + b)
  }

  /** If more lines never count for less, every merged section reaches the minimum, unless all the sections
      together make a single one. */
  lemma MergedReachMinimum(cnt: TokenCount, min: int, sections: seq<Section>, m: nat)
    requires min > 0 && Growing(cnt) && m < |Merged(cnt, min, sections)|
    ensures Tokens(cnt, Merged(cnt, min, sections)[m].lines) >= min || |Merged(cnt, min, sections)| == 1
  {
    var groups := GroupFrom(cnt, min, sections, NO_GROUP);
    var folded, n := FoldTrailingGroup(cnt, min, groups), |groups|;
    hide GroupFrom, Tokens, DominantHeadingPath;
    if m + 1 < n {
      GroupsReachMinimum(cnt, min, sections, NO_GROUP, m);
      if folded != groups && m == n - 2 {
        assert Tokens(cnt, groups[m].lines) <= Tokens(cnt, groups[m].lines + groups[n - 1].lines);
      }
    }
  }

  /** Sections that all reach the minimum on their own are left alone. */
  lemma BigSectionsStayApart(cnt: TokenCount, min: int, sections: seq<Section>)
    requires forall k | 0 <= k < |sections| :: Tokens(cnt, sections[k].lines) >= min
    ensures Merged(cnt, min, sections) == sections
  {
    if min > 0 {
      hide Merged, Tokens, LastRangeOk, MergedFrom;
      var cuts := MergedAreRanges(cnt, min, sections);
      var merged := Merged(cnt, min, sections);
      OneByOne(cnt, min, sections, cuts);
      forall m | 0 <= m < |merged|
        ensures merged[m] == sections[m]
      {
        assert MergedFrom(cnt, sections, merged[m], cuts[m], cuts[m + 1]);
        HeadedAlone(cnt, sections, merged[m], m);
      }
    }
  }

  lemma LinesOfOneSection(sections: seq<Section>, k: nat)
    requires k < |sections|
    ensures LinesOf(sections[k..k + 1]) == sections[k].lines
  {
    assert sections[k..k + 1] == [sections[k]];
    assert LinesOf([]) == [] && [sections[k]][..0] == [];
  }

  lemma HeadedAlone(cnt: TokenCount, sections: seq<Section>, merged: Section, m: nat)
    requires m < |sections| && MergedFrom(cnt, sections, merged, m, m + 1)
    ensures merged == sections[m]
  {
    LinesOfOneSection(sections, m);
  }

  lemma OneByOne(cnt: TokenCount, min: int, sections: seq<Section>, cuts: seq<nat>)
    requires cuts != [] && Cuts(cuts, 0, |sections|, |cuts| - 1) && FoldedTimely(cnt, min, sections, cuts)
    requires forall k | 0 <= k < |sections| :: Tokens(cnt, sections[k].lines) >= min
    ensures |cuts| == |sections| + 1 && forall i | 0 <= i < |cuts| :: cuts[i] == i
  {
    hide Closed, Trailing, LastRangeOk, Tokens;
    for i := 0 to |cuts| - 1
      invariant forall k | 0 <= k <= i :: cuts[k] == k
    {
      assert cuts[i] < cuts[i + 1] <= |sections|;
      RangeOfOne(cnt, min, sections, i, cuts[i + 1], |cuts| == 2);
    }
  }

  lemma RangeOfOne(cnt: TokenCount, min: int, sections: seq<Section>, a: nat, b: nat, only: bool)
    requires a < b <= |sections|
    requires forall k | 0 <= k < |sections| :: Tokens(cnt, sections[k].lines) >= min
    requires Closed(cnt, min, sections, a, b) || LastRangeOk(cnt, min, sections, a, b, only)
    ensures b == a + 1
  {
    hide Tokens;
    LinesOfOneSection(sections, a);
    assert !Short(cnt, min, sections, a, a + 1);
    forall m | a < m < b
      ensures !Trailing(cnt, min, sections, m, b)
    {
      LinesOfOneSection(sections, m);
      assert !Short(cnt, min, sections, m, m + 1);
    }
  }
}

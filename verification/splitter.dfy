/** `splitAtSafeBoundaries` and the trailing fold: one loop over the lines of an oversized section,
    driven by the three trackers. */
module Splitter {
  import opened Text
  import opened Lines
  import opened Trackers

  datatype Limits = Limits(target: int, max: int, min: int)

  function Tokens(cnt: TokenCount, lines: seq<string>): nat {
    cnt(Join(lines, "\n"))
  }

  // ------------------------------------------------------------- the model

  /** The loop's state: the trackers, the buffers cut off so far (blank ones included), the open one. */
  datatype Work = Work(scan: Scan, done: seq<seq<string>>, buffer: seq<string>)

  const START := Work(FRESH, [], [])

  function Cut(w: Work): Work {
    if w.buffer == [] then w else Work(w.scan, w.done + [w.buffer], [])
  }

  function Append(w: Work, line: string): Work {
    w.(buffer := w.buffer + [line])
  }

  predicate CutsBeforeRegion(cnt: TokenCount, lim: Limits, w: Work, line: string) {
    OpensRegion(w.scan, line) && w.buffer != [] && Tokens(cnt, w.buffer) >= lim.target
  }

  /** What happens to a line once the trackers have seen it; w.scan is the state after it. */
  function Rest(cnt: TokenCount, lim: Limits, w: Work, line: string, tabled: bool): Work {
    if IsFence(line) || w.scan.fence.inside || tabled then Append(w, line)
    else
      var overflow := w.buffer != [] && Tokens(cnt, w.buffer + [line]) > lim.max;
      var w2 := Append(if overflow then Cut(w) else w, line);
      if Blank(line) && Tokens(cnt, w2.buffer) >= lim.target then Cut(w2) else w2
  }

  function SplitStep(cnt: TokenCount, lim: Limits, w: Work, line: string): Work {
    var w1 := (if CutsBeforeRegion(cnt, lim, w, line) then Cut(w) else w).(scan := ScanStep(cnt, w.scan, line));
    Rest(cnt, lim, w1, line, Tabled(w.scan, line))
  }

  function SplitTo(cnt: TokenCount, lim: Limits, lines: seq<string>, k: nat): Work
    requires k <= |lines|
  {
    if k == 0 then START else SplitStep(cnt, lim, SplitTo(cnt, lim, lines, k - 1), lines[k - 1])
  }

  /** The lines of a section, partitioned into the buffers that were cut. */
  function Parts(cnt: TokenCount, lim: Limits, lines: seq<string>): seq<seq<string>> {
    Cut(SplitTo(cnt, lim, lines, |lines|)).done
  }

  /** What is emitted for a partition: blank buffers are dropped, the others joined. */
  function Bodies(parts: seq<seq<string>>): seq<string> {
    if parts == [] then []
    else
      var last := parts[|parts| - 1];
      Bodies(parts[..|parts| - 1]) + if Blank(Join(last, "")) then [] else [Join(last, "\n")]
  }

  function FoldTrailing(cnt: TokenCount, lim: Limits, bodies: seq<string>): seq<string> {
    var n := |bodies|;
    if n < 2 || cnt(bodies[n - 1]) >= lim.min then bodies
    else
      var combined := bodies[n - 2] + "\n" + bodies[n - 1];
      if cnt(combined) > lim.max then bodies else bodies[..n - 2] + [combined]
  }

  // ----------------------------------------------------------- the method

  method SplitAtSafeBoundaries(cnt: TokenCount, lim: Limits, lines: seq<string>) returns (bodies: seq<string>)
    ensures bodies == Bodies(Parts(cnt, lim, lines))
  {
    hide SplitTo, SplitStep, Rest, Bodies, Blank, Join;
    hide IsFence, QuoteDepth, TableOpens, TableCloses, IsPipeRow, FenceStep, TableStep, PipeStep, InTable, InPipe;
    hide ScanStep, MayOpenTable, MayOpenPipe, OpensRegion, Tabled, CutsBeforeRegion;
    bodies := [];
    var buffer: seq<string> := [];
    var fence := new FenceTracker();
    var table := new TableTracker(cnt);
    var pipeTable := new PipeTableTracker(cnt);
    ghost var done: seq<seq<string>> := [];
    SplitToStart(cnt, lim, lines);
    NoBodies();
    for k := 0 to |lines|
      invariant fresh(fence) && fresh(table) && fresh(pipeTable)
      invariant table.cnt == cnt && pipeTable.cnt == cnt
      invariant SplitTo(cnt, lim, lines, k) == Work(Scan(fence.State(), table.State(), pipeTable.State()), done, buffer)
      invariant bodies == Bodies(done)
    {
      var line := lines[k];
      ghost var before := SplitTo(cnt, lim, lines, k);
      SplitToNext(cnt, lim, lines, k);
      Gates(cnt, lim, before, line);
      var fenceMarker := fence.Consume(line);
      var isPipeRow := IsPipeRow(line);
      var mayOpenTable := !fence.insideFence && !table.insideTable && !(pipeTable.insideTable && isPipeRow);
      var mayOpenPipe := !fence.insideFence && !table.insideTable && !pipeTable.insideTable;
      var opensTable := mayOpenTable && TableOpens(line);
      var opensPipe := mayOpenPipe && isPipeRow;
      if (opensTable || opensPipe) && |buffer| > 0 && cnt(Join(buffer, "\n")) >= lim.target {
        bodies, buffer, done := Flush(bodies, buffer, done);
      }
      var insideTable := table.Consume(line, mayOpenTable);
      var insidePipe := pipeTable.Consume(line, mayOpenPipe);
      ghost var scan := Scan(fence.State(), table.State(), pipeTable.State());
      StepIsRest(cnt, lim, before, line, scan, Work(scan, done, buffer));
      bodies, buffer, done := PlaceLine(cnt, lim, line, fenceMarker, fence.insideFence,
                                        insideTable || insidePipe, bodies, buffer, done, scan);
    }
    bodies, buffer, done := Flush(bodies, buffer, done);
  }

  lemma NoBodies()
    ensures Bodies([]) == []
  {
  }

  lemma SplitToStart(cnt: TokenCount, lim: Limits, lines: seq<string>)
    ensures SplitTo(cnt, lim, lines, 0) == START && START.scan == ScanTo(cnt, lines, 0)
    ensures Covers(START, lines[..0])
  {
  }

  lemma NoSeams(safe: nat -> bool)
    ensures AllSeams([], safe)
  {
  }

  lemma StepScan(cnt: TokenCount, lim: Limits, w: Work, line: string)
    ensures SplitStep(cnt, lim, w, line).scan == ScanStep(cnt, w.scan, line)
  {
  }

  lemma SplitToNext(cnt: TokenCount, lim: Limits, lines: seq<string>, k: nat)
    requires k < |lines|
    ensures SplitTo(cnt, lim, lines, k + 1) == SplitStep(cnt, lim, SplitTo(cnt, lim, lines, k), lines[k])
  {
  }

  /** The loop's local gates, spelled out. */
  lemma Gates(cnt: TokenCount, lim: Limits, w: Work, line: string)
    ensures var s, f, row := w.scan, FenceStep(w.scan.fence, line), IsPipeRow(line);
            var table := !f.inside && !s.table.inside && !(s.pipe.inside && row);
            var pipe := !f.inside && !s.table.inside && !s.pipe.inside;
            && CutsBeforeRegion(cnt, lim, w, line) ==
                 (((table && TableOpens(line)) || (pipe && row))
                  && |w.buffer| > 0 && cnt(Join(w.buffer, "\n")) >= lim.target)
            && ScanStep(cnt, s, line) ==
                 Scan(f, TableStep(cnt, s.table, line, table), PipeStep(cnt, s.pipe, line, pipe))
            && Tabled(s, line) == (InTable(s.table, line, table) || InPipe(s.pipe, line, pipe))
  {
  }

  lemma StepIsRest(cnt: TokenCount, lim: Limits, w: Work, line: string, scan: Scan, cut: Work)
    requires scan == ScanStep(cnt, w.scan, line)
    requires cut == (if CutsBeforeRegion(cnt, lim, w, line) then Cut(w) else w).(scan := scan)
    ensures SplitStep(cnt, lim, w, line) == Rest(cnt, lim, cut, line, Tabled(w.scan, line))
  {
  }

  /** The second half of the loop body: where the line goes once the trackers have seen it. */
  method PlaceLine(cnt: TokenCount, lim: Limits, line: string, fenceMarker: bool, insideFence: bool, tabled: bool,
                   bodies: seq<string>, buffer: seq<string>, ghost done: seq<seq<string>>, ghost scan: Scan)
    returns (bodies': seq<string>, buffer': seq<string>, ghost done': seq<seq<string>>)
    requires bodies == Bodies(done)
    requires fenceMarker == IsFence(line) && insideFence == scan.fence.inside
    ensures var w := Rest(cnt, lim, Work(scan, done, buffer), line, tabled);
            bodies' == Bodies(w.done) && buffer' == w.buffer && w == Work(scan, done', buffer')
  {
    bodies', buffer', done' := bodies, buffer, done;
    if fenceMarker {
      buffer' := buffer' + [line];
      return;
    }
    if !insideFence && tabled {
      buffer' := buffer' + [line];
      return;
    }
    if !insideFence && |buffer'| > 0 && cnt(Join(buffer' + [line], "\n")) > lim.max {
      bodies', buffer', done' := Flush(bodies', buffer', done');
    }
    buffer' := buffer' + [line];
    if insideFence {
      return;
    }
    var bufferTokens := cnt(Join(buffer', "\n"));
    if Blank(line) && bufferTokens >= lim.target {
      bodies', buffer', done' := Flush(bodies', buffer', done');
    }
  }

  /** The closure `flush`: a blank buffer is thrown away, any other becomes a body. */
  method Flush(bodies: seq<string>, buffer: seq<string>, ghost done: seq<seq<string>>)
    returns (bodies': seq<string>, buffer': seq<string>, ghost done': seq<seq<string>>)
    requires bodies == Bodies(done)
    ensures bodies' == Bodies(done') && buffer' == []
    ensures done' == if buffer == [] then done else done + [buffer]
  {
    assert (done + [buffer])[..|done|] == done;
    if !Blank(Join(buffer, "")) {
      bodies' := bodies + [Join(buffer, "\n")];
    } else {
      bodies' := bodies;
    }
    buffer' := [];
    done' := if buffer == [] then done else done + [buffer];
  }

  method SplitOversizedSection(cnt: TokenCount, lim: Limits, lines: seq<string>) returns (bodies: seq<string>)
    ensures bodies == SectionBodies(cnt, lim, lines)
  {
    var whole := Join(lines, "\n");
    if cnt(whole) <= lim.max {
      return [whole];
    }
    bodies := SplitAtSafeBoundaries(cnt, lim, lines);
    bodies := FoldTrailing(cnt, lim, bodies);
  }

  function SectionBodies(cnt: TokenCount, lim: Limits, lines: seq<string>): seq<string> {
    if Tokens(cnt, lines) <= lim.max then [Join(lines, "\n")]
    else FoldTrailing(cnt, lim, Bodies(Parts(cnt, lim, lines)))
  }

  // -------------------------------------------- seams and atomic regions

  function Start(parts: seq<seq<string>>, j: nat): nat
    requires j <= |parts|
  {
    |Flatten(parts[..j])|
  }

  /** Two consecutive parts meet just before line p. */
  ghost predicate Seam(parts: seq<seq<string>>, p: nat) {
    exists j | 0 < j < |parts| :: Start(parts, j) == p
  }

  /** A seam before line p cuts neither kind of table, and cuts a fence only where the guard of the
      pre-open flush lets it. */
  predicate SeamIsSafe(cnt: TokenCount, lim: Limits, lines: seq<string>, p: nat)
    requires p < |lines|
  {
    && !TableContinues(cnt, lines, p)
    && !PipeContinues(cnt, lines, p)
    && (FenceContinues(cnt, lines, p) ==> CutsBeforeRegion(cnt, lim, SplitTo(cnt, lim, lines, p), lines[p]))
  }

  lemma StartSnoc(parts: seq<seq<string>>, x: seq<string>, j: nat)
    requires j <= |parts|
    ensures Start(parts + [x], j) == Start(parts, j)
    ensures Start(parts + [x], |parts| + 1) == |Flatten(parts)| + |x|
  {
    assert (parts + [x])[..j] == parts[..j];
    assert (parts + [x])[..|parts| + 1] == parts + [x];
    FlattenSnoc(parts, x);
  }

  lemma {:induction false} SplitScan(cnt: TokenCount, lim: Limits, lines: seq<string>, k: nat)
    requires k <= |lines|
    ensures SplitTo(cnt, lim, lines, k).scan == ScanTo(cnt, lines, k)
  {
    hide SplitTo, SplitStep, ScanTo, ScanStep;
    if k == 0 {
      SplitToStart(cnt, lim, lines);
    } else {
      SplitScan(cnt, lim, lines, k - 1);
      SplitToNext(cnt, lim, lines, k - 1);
      StepScan(cnt, lim, SplitTo(cnt, lim, lines, k - 1), lines[k - 1]);
      ScanToNext(cnt, lines, k - 1);
    }
  }

  /** The parts are the lines: nothing lost, nothing moved, no part empty. */
  ghost predicate Covers(w: Work, prefix: seq<string>) {
    && Flatten(w.done) + w.buffer == prefix
    && forall j | 0 <= j < |w.done| :: w.done[j] != []
  }

  lemma CutCovers(w: Work, prefix: seq<string>)
    requires Covers(w, prefix)
    ensures Covers(Cut(w), prefix)
  {
    if w.buffer != [] { FlattenSnoc(w.done, w.buffer); }
  }

  lemma AppendCovers(w: Work, prefix: seq<string>, line: string)
    requires Covers(w, prefix)
    ensures Covers(Append(w, line), prefix + [line])
  {
    assert Flatten(w.done) + (w.buffer + [line]) == Flatten(w.done) + w.buffer + [line];
  }

  lemma StepCovers(cnt: TokenCount, lim: Limits, w: Work, line: string, prefix: seq<string>)
    requires Covers(w, prefix)
    ensures Covers(SplitStep(cnt, lim, w, line), prefix + [line])
  {
    var w1 := (if CutsBeforeRegion(cnt, lim, w, line) then Cut(w) else w).(scan := ScanStep(cnt, w.scan, line));
    CutCovers(w, prefix);
    assert Covers(w1, prefix);
    CutCovers(w1, prefix);
    AppendCovers(w1, prefix, line);
    AppendCovers(Cut(w1), prefix, line);
    CutCovers(Append(w1, line), prefix + [line]);
    CutCovers(Append(Cut(w1), line), prefix + [line]);
  }

  lemma {:induction false} SplitCovers(cnt: TokenCount, lim: Limits, lines: seq<string>, k: nat)
    requires k <= |lines|
    ensures Covers(SplitTo(cnt, lim, lines, k), lines[..k])
  {
    hide SplitTo, SplitStep, Covers;
    SplitToStart(cnt, lim, lines);
    if k > 0 {
      SplitToNext(cnt, lim, lines, k - 1);
      SplitCovers(cnt, lim, lines, k - 1);
      StepCovers(cnt, lim, SplitTo(cnt, lim, lines, k - 1), lines[k - 1], lines[..k - 1]);
      assert lines[..k] == lines[..k - 1] + [lines[k - 1]];
    }
  }

  lemma PartsCover(cnt: TokenCount, lim: Limits, lines: seq<string>)
    ensures Flatten(Parts(cnt, lim, lines)) == lines
    ensures forall j | 0 <= j < |Parts(cnt, lim, lines)| :: Parts(cnt, lim, lines)[j] != []
  {
    SplitCovers(cnt, lim, lines, |lines|);
    assert lines[..|lines|] == lines;
    CutCovers(SplitTo(cnt, lim, lines, |lines|), lines);
  }

  /** After a line that the loop does not treat as atomic, no region is left open. */
  lemma NotAtomicLeavesNothingOpen(cnt: TokenCount, s: Scan, line: string)
    requires !Atomic(s, line)
    ensures var s' := ScanStep(cnt, s, line); !s'.fence.inside && !s'.table.inside && !s'.pipe.inside
  {
  }

  /** A line at which some region continues is never preceded by a ceiling flush, and by a pre-open
      flush only if it also closes a fence. */
  lemma ContinuingLine(cnt: TokenCount, lines: seq<string>, p: nat)
    requires p < |lines|
    ensures TableContinues(cnt, lines, p) || PipeContinues(cnt, lines, p) ==>
              !OpensRegion(ScanTo(cnt, lines, p), lines[p])
    ensures TableContinues(cnt, lines, p) || PipeContinues(cnt, lines, p) || FenceContinues(cnt, lines, p) ==>
              Atomic(ScanTo(cnt, lines, p), lines[p])
  {
  }

  ghost predicate AllSeams(done: seq<seq<string>>, safe: nat -> bool) {
    forall j | 0 < j <= |done| :: safe(Start(done, j))
  }

  /** Cutting the buffer puts the new seam right after the lines read so far. */
  lemma CutSeams(w: Work, prefix: seq<string>, safe: nat -> bool)
    requires Covers(w, prefix) && AllSeams(w.done, safe)
    requires w.buffer != [] ==> safe(|prefix|)
    ensures AllSeams(Cut(w).done, safe)
  {
    if w.buffer != [] {
      forall j | 0 < j <= |w.done| + 1
        ensures safe(Start(Cut(w).done, j))
      {
        StartSnoc(w.done, w.buffer, if j <= |w.done| then j else |w.done|);
      }
    }
  }

  lemma StepSeams(cnt: TokenCount, lim: Limits, w: Work, line: string, prefix: seq<string>, safe: nat -> bool)
    requires Covers(w, prefix) && AllSeams(w.done, safe)
    requires CutsBeforeRegion(cnt, lim, w, line) ==> safe(|prefix|)
    requires !Atomic(w.scan, line) ==> safe(|prefix|) && safe(|prefix| + 1)
    ensures AllSeams(SplitStep(cnt, lim, w, line).done, safe)
  {
    var w1 := (if CutsBeforeRegion(cnt, lim, w, line) then Cut(w) else w).(scan := ScanStep(cnt, w.scan, line));
    CutCovers(w, prefix);
    assert AllSeams(w1.done, safe) by {
      if CutsBeforeRegion(cnt, lim, w, line) { CutSeams(w, prefix, safe); }
    }
    if !Atomic(w.scan, line) {
      CutSeams(w1, prefix, safe);
      CutCovers(w1, prefix);
      AppendCovers(w1, prefix, line);
      AppendCovers(Cut(w1), prefix, line);
      CutSeams(Append(w1, line), prefix + [line], safe);
      CutSeams(Append(Cut(w1), line), prefix + [line], safe);
    }
  }

  lemma {:induction false} SplitSeams(cnt: TokenCount, lim: Limits, lines: seq<string>, k: nat, safe: nat -> bool)
    requires k <= |lines|
    requires forall p: nat :: safe(p) == (p < |lines| ==> SeamIsSafe(cnt, lim, lines, p))
    ensures AllSeams(SplitTo(cnt, lim, lines, k).done, safe)
  {
    hide SplitTo, SplitStep, AllSeams, Covers, SeamIsSafe, Atomic, CutsBeforeRegion;
    if k == 0 {
      SplitToStart(cnt, lim, lines);
      NoSeams(safe);
    } else {
      var p := k - 1;
      SplitToNext(cnt, lim, lines, p);
      SplitSeams(cnt, lim, lines, p, safe);
      SplitCovers(cnt, lim, lines, p);
      SeamGuards(cnt, lim, lines, p);
      assert safe(p) == SeamIsSafe(cnt, lim, lines, p);
      assert safe(k) == (k < |lines| ==> SeamIsSafe(cnt, lim, lines, k));
      StepSeams(cnt, lim, SplitTo(cnt, lim, lines, p), lines[p], lines[..p], safe);
    }
  }

  /** What StepSeams asks of line p: a pre-open flush before it and, when it is not atomic, any flush
      around it are safe. */
  lemma SeamGuards(cnt: TokenCount, lim: Limits, lines: seq<string>, p: nat)
    requires p < |lines|
    ensures var w := SplitTo(cnt, lim, lines, p);
            && (CutsBeforeRegion(cnt, lim, w, lines[p]) ==> SeamIsSafe(cnt, lim, lines, p))
            && (!Atomic(w.scan, lines[p]) ==>
                  SeamIsSafe(cnt, lim, lines, p) && (p + 1 < |lines| ==> SeamIsSafe(cnt, lim, lines, p + 1)))
  {
    hide IsFence, QuoteDepth, TableOpens, TableCloses, IsPipeRow, SplitTo;
    SplitScan(cnt, lim, lines, p);
    ContinuingLine(cnt, lines, p);
    if !Atomic(ScanTo(cnt, lines, p), lines[p]) {
      NotAtomicLeavesNothingOpen(cnt, ScanTo(cnt, lines, p), lines[p]);
    }
  }

  /** No seam of the split cuts an HTML table or a pipe table, whatever nests or abuts; a seam cuts a
      fence exactly where the line that closes it would itself open a table and the buffer is full. */
  lemma SeamsOfSplit(cnt: TokenCount, lim: Limits, lines: seq<string>, p: nat)
    requires p < |lines| && Seam(Parts(cnt, lim, lines), p)
    ensures SeamIsSafe(cnt, lim, lines, p)
  {
    var n := |lines|;
    var w := SplitTo(cnt, lim, lines, n);
    var safe := (q: nat) => q < n ==> SeamIsSafe(cnt, lim, lines, q);
    SplitSeams(cnt, lim, lines, n, safe);
    SplitCovers(cnt, lim, lines, n);
    CutSeams(w, lines[..n], safe);
    var j :| 0 < j < |Cut(w).done| && Start(Cut(w).done, j) == p;
    assert safe(p);
  }

  lemma StepGrows(cnt: TokenCount, lim: Limits, w: Work, line: string)
    ensures w.done <= SplitStep(cnt, lim, w, line).done
    ensures CutsBeforeRegion(cnt, lim, w, line) ==> w.done + [w.buffer] <= SplitStep(cnt, lim, w, line).done
  {
    var w1 := (if CutsBeforeRegion(cnt, lim, w, line) then Cut(w) else w).(scan := ScanStep(cnt, w.scan, line));
    assert w.done <= w1.done;
    assert w1.done <= Cut(w1).done && forall x: Work | w1.done <= x.done :: w1.done <= Cut(x).done;
  }

  lemma {:induction false} DoneGrows(cnt: TokenCount, lim: Limits, lines: seq<string>, k: nat, m: nat)
    requires k <= m <= |lines|
    ensures SplitTo(cnt, lim, lines, k).done <= SplitTo(cnt, lim, lines, m).done
  {
    hide SplitTo, SplitStep;
    if k < m {
      DoneGrows(cnt, lim, lines, k, m - 1);
      SplitToNext(cnt, lim, lines, m - 1);
      StepGrows(cnt, lim, SplitTo(cnt, lim, lines, m - 1), lines[m - 1]);
    }
  }

  /** The other half: where the guard lets it, the fence is cut. */
  lemma FenceIsCut(cnt: TokenCount, lim: Limits, lines: seq<string>, p: nat)
    requires p < |lines| && CutsBeforeRegion(cnt, lim, SplitTo(cnt, lim, lines, p), lines[p])
    ensures Seam(Parts(cnt, lim, lines), p)
  {
    var w := SplitTo(cnt, lim, lines, p);
    SplitCovers(cnt, lim, lines, p);
    var cut := w.done + [w.buffer];
    StepGrows(cnt, lim, w, lines[p]);
    DoneGrows(cnt, lim, lines, p + 1, |lines|);
    var parts := Parts(cnt, lim, lines);
    assert cut <= parts;
    PartsCover(cnt, lim, lines);
    FlattenSnoc(w.done, w.buffer);
    assert parts[..|cut|] == cut;
    PrefixSeam(parts, |cut|);
  }

  lemma PrefixSeam(parts: seq<seq<string>>, j: nat)
    requires 0 < j <= |parts| && |Flatten(parts[..j])| < |Flatten(parts)|
    ensures Seam(parts, |Flatten(parts[..j])|)
  {
    assert parts[..|parts|] == parts;
    assert Start(parts, j) == |Flatten(parts[..j])|;
  }

  lemma InsideFenceBufferHolds(cnt: TokenCount, lim: Limits, lines: seq<string>, p: nat)
    requires p <= |lines| && ScanTo(cnt, lines, p).fence.inside
    ensures SplitTo(cnt, lim, lines, p).buffer != []
  {
    SplitScan(cnt, lim, lines, p - 1);
  }

  /** No limits make a seam fall inside a fence. */
  ghost predicate FencesNeverCut(cnt: TokenCount, lines: seq<string>) {
    forall lim: Limits, p: nat ::
      p < |lines| && Seam(Parts(cnt, lim, lines), p) ==> !FenceContinues(cnt, lines, p)
  }

  /** No line that closes a fence would also open a table: the guard of the pre-open flush. */
  predicate NoFenceEndOpensTable(cnt: TokenCount, lines: seq<string>) {
    forall p: nat | p < |lines| :: FenceContinues(cnt, lines, p) ==> !OpensRegion(ScanTo(cnt, lines, p), lines[p])
  }

  /** Fences are whole under every choice of limits exactly when no fence-closing line opens a table,
      which can be tested on the lines alone. */
  lemma FencesWholeIff(cnt: TokenCount, lines: seq<string>)
    ensures FencesNeverCut(cnt, lines) <==> NoFenceEndOpensTable(cnt, lines)
  {
    if NoFenceEndOpensTable(cnt, lines) {
      forall lim: Limits, p: nat | p < |lines| && Seam(Parts(cnt, lim, lines), p)
        ensures !FenceContinues(cnt, lines, p)
      {
        SeamsOfSplit(cnt, lim, lines, p);
        SplitScan(cnt, lim, lines, p);
      }
    } else {
      var p: nat :| p < |lines| && FenceContinues(cnt, lines, p) && OpensRegion(ScanTo(cnt, lines, p), lines[p]);
      var lim := Limits(0, 0, 0);
      SplitScan(cnt, lim, lines, p);
      InsideFenceBufferHolds(cnt, lim, lines, p);
      FenceIsCut(cnt, lim, lines, p);
    }
  }

  lemma {:induction false} LocatePart(parts: seq<seq<string>>, a: nat) returns (j: nat)
    requires a < |Flatten(parts)|
    ensures j < |parts| && Start(parts, j) <= a < Start(parts, j + 1)
  {
    var init, last := parts[..|parts| - 1], parts[|parts| - 1];
    assert parts == init + [last];
    FlattenSnoc(init, last);
    if a < |Flatten(init)| {
      j := LocatePart(init, a);
      StartSnoc(init, last, j);
      StartSnoc(init, last, j + 1);
    } else {
      j := |init|;
      assert parts[..j] == init && parts[..j + 1] == parts;
    }
  }

  lemma PartAt(parts: seq<seq<string>>, j: nat)
    requires j < |parts|
    ensures Start(parts, j) <= Start(parts, j + 1) <= |Flatten(parts)|
    ensures Flatten(parts)[Start(parts, j)..Start(parts, j + 1)] == parts[j]
  {
    assert parts[..j + 1] == parts[..j] + [parts[j]];
    FlattenSnoc(parts[..j], parts[j]);
    assert parts == parts[..j + 1] + parts[j + 1..];
    FlattenConcat(parts[..j + 1], parts[j + 1..]);
  }

  /** Lines a to b lie in one part of the partition. */
  ghost predicate InOnePart(parts: seq<seq<string>>, a: nat, b: nat) {
    exists j | 0 <= j < |parts| :: Start(parts, j) <= a && b < Start(parts, j + 1)
  }

  /** Line p belongs to a region that line p - 1 belongs to as well, and is not a fence-closing line
      that would open a table. */
  predicate Held(cnt: TokenCount, lines: seq<string>, p: nat)
    requires p < |lines|
  {
    || TableContinues(cnt, lines, p)
    || PipeContinues(cnt, lines, p)
    || (FenceContinues(cnt, lines, p) && !OpensRegion(ScanTo(cnt, lines, p), lines[p]))
  }

  lemma SeamNotHeld(cnt: TokenCount, lim: Limits, lines: seq<string>, p: nat)
    requires p < |lines| && Seam(Parts(cnt, lim, lines), p)
    ensures !Held(cnt, lines, p)
  {
    SeamsOfSplit(cnt, lim, lines, p);
    SplitScan(cnt, lim, lines, p);
  }

  /** Atomic regions: a stretch of lines each of which continues a fence, an HTML table or a pipe
      table, in any nesting and under any limits, is never cut. */
  lemma AtomicRegions(cnt: TokenCount, lim: Limits, lines: seq<string>, a: nat, b: nat)
    requires a <= b < |lines|
    requires forall p | a < p <= b :: Held(cnt, lines, p)
    ensures InOnePart(Parts(cnt, lim, lines), a, b)
  {
    var parts := Parts(cnt, lim, lines);
    PartsCover(cnt, lim, lines);
    var j := LocatePart(parts, a);
    if b >= Start(parts, j + 1) {
      var p := Start(parts, j + 1);
      assert parts[..|parts|] == parts;
      assert j + 1 != |parts|;
      assert Seam(parts, p);
      SeamNotHeld(cnt, lim, lines, p);
    }
  }

  // --------------------------------------------------------- the ceiling

  /** Within the ceiling, or a single line, or ending on a line of a fence or a table. */
  predicate PartOk(cnt: TokenCount, lim: Limits, lines: seq<string>, part: seq<string>, end: nat)
    requires 0 < end <= |lines|
  {
    || Tokens(cnt, part) <= lim.max
    || |part| == 1
    || Atomic(ScanTo(cnt, lines, end - 1), lines[end - 1])
  }

  predicate PartOkAt(cnt: TokenCount, lim: Limits, lines: seq<string>, done: seq<seq<string>>, j: nat)
    requires j < |done|
  {
    0 < Start(done, j + 1) <= |lines| && PartOk(cnt, lim, lines, done[j], Start(done, j + 1))
  }

  ghost predicate PartsOk(cnt: TokenCount, lim: Limits, lines: seq<string>, done: seq<seq<string>>) {
    forall j | 0 <= j < |done| :: PartOkAt(cnt, lim, lines, done, j)
  }

  lemma OlderPartOk(cnt: TokenCount, lim: Limits, lines: seq<string>, done: seq<seq<string>>, x: seq<string>, j: nat)
    requires j < |done| && PartOkAt(cnt, lim, lines, done, j)
    ensures PartOkAt(cnt, lim, lines, done + [x], j)
  {
    hide PartOk;
    StartSnoc(done, x, j + 1);
  }

  lemma NewPartOk(cnt: TokenCount, lim: Limits, lines: seq<string>, done: seq<seq<string>>, x: seq<string>)
    requires 0 < |Flatten(done)| + |x| <= |lines| && PartOk(cnt, lim, lines, x, |Flatten(done)| + |x|)
    ensures PartOkAt(cnt, lim, lines, done + [x], |done|)
  {
    hide PartOk;
    StartSnoc(done, x, 0);
  }

  lemma CutOk(cnt: TokenCount, lim: Limits, lines: seq<string>, w: Work, k: nat)
    requires k <= |lines| && Covers(w, lines[..k]) && PartsOk(cnt, lim, lines, w.done)
    requires w.buffer != [] ==> k > 0 && PartOk(cnt, lim, lines, w.buffer, k)
    ensures PartsOk(cnt, lim, lines, Cut(w).done)
  {
    if w.buffer == [] {
      return;
    }
    hide PartOk, PartOkAt;
    var cut := w.done + [w.buffer];
    assert |Flatten(w.done) + w.buffer| == k;
    forall j | 0 <= j < |cut|
      ensures PartOkAt(cnt, lim, lines, cut, j)
    {
      if j < |w.done| {
        OlderPartOk(cnt, lim, lines, w.done, w.buffer, j);
      } else {
        NewPartOk(cnt, lim, lines, w.done, w.buffer);
      }
    }
  }

  ghost predicate WorkOk(cnt: TokenCount, lim: Limits, lines: seq<string>, w: Work, k: nat)
    requires k <= |lines|
  {
    && Covers(w, lines[..k])
    && PartsOk(cnt, lim, lines, w.done)
    && (w.buffer != [] ==> k > 0 && PartOk(cnt, lim, lines, w.buffer, k))
  }

  lemma CutKeepsOk(cnt: TokenCount, lim: Limits, lines: seq<string>, w: Work, k: nat)
    requires k <= |lines| && WorkOk(cnt, lim, lines, w, k)
    ensures WorkOk(cnt, lim, lines, Cut(w), k)
  {
    CutOk(cnt, lim, lines, w, k);
    CutCovers(w, lines[..k]);
  }

  lemma AppendKeepsOk(cnt: TokenCount, lim: Limits, lines: seq<string>, w: Work, k: nat)
    requires k < |lines| && WorkOk(cnt, lim, lines, w, k)
    requires || Tokens(cnt, w.buffer + [lines[k]]) <= lim.max
             || w.buffer == []
             || Atomic(ScanTo(cnt, lines, k), lines[k])
    ensures WorkOk(cnt, lim, lines, Append(w, lines[k]), k + 1)
  {
    hide Covers, Atomic, Tokens, PartsOk, PartOk;
    AppendCovers(w, lines[..k], lines[k]);
    TakeOneMore(lines, k);
    AppendedOk(cnt, lim, lines, w.buffer, k);
  }

  lemma TakeOneMore<T>(s: seq<T>, k: nat)
    requires k < |s|
    ensures s[..k + 1] == s[..k] + [s[k]]
  {
  }

  lemma AppendedOk(cnt: TokenCount, lim: Limits, lines: seq<string>, buffer: seq<string>, k: nat)
    requires k < |lines|
    requires || Tokens(cnt, buffer + [lines[k]]) <= lim.max
             || buffer == []
             || Atomic(ScanTo(cnt, lines, k), lines[k])
    ensures PartOk(cnt, lim, lines, buffer + [lines[k]], k + 1)
  {
    hide Atomic, Tokens, ScanTo;
  }

  lemma StartOk(cnt: TokenCount, lim: Limits, lines: seq<string>)
    ensures WorkOk(cnt, lim, lines, START, 0)
  {
  }

  lemma StepOk(cnt: TokenCount, lim: Limits, lines: seq<string>, w: Work, k: nat)
    requires k < |lines| && WorkOk(cnt, lim, lines, w, k) && w.scan == ScanTo(cnt, lines, k)
    ensures WorkOk(cnt, lim, lines, SplitStep(cnt, lim, w, lines[k]), k + 1)
  {
    hide ScanTo, TableStep, PipeStep, Tabled, CutsBeforeRegion, PartsOk, PartOk, Covers, IsFence, Blank, FenceStep;
    var line := lines[k];
    CutKeepsOk(cnt, lim, lines, w, k);
    var w1 := (if CutsBeforeRegion(cnt, lim, w, line) then Cut(w) else w).(scan := ScanStep(cnt, w.scan, line));
    assert WorkOk(cnt, lim, lines, w1, k) by {
      ScanIsIrrelevant(cnt, lim, lines, if CutsBeforeRegion(cnt, lim, w, line) then Cut(w) else w, k, w1.scan);
    }
    hide WorkOk;
    if Atomic(w.scan, line) {
      AppendKeepsOk(cnt, lim, lines, w1, k);
    } else {
      CutKeepsOk(cnt, lim, lines, w1, k);
      var w2 := if w1.buffer != [] && Tokens(cnt, w1.buffer + [line]) > lim.max then Cut(w1) else w1;
      AppendKeepsOk(cnt, lim, lines, w2, k);
      CutKeepsOk(cnt, lim, lines, Append(w2, line), k + 1);
    }
  }

  lemma ScanIsIrrelevant(cnt: TokenCount, lim: Limits, lines: seq<string>, w: Work, k: nat, scan: Scan)
    requires k <= |lines| && WorkOk(cnt, lim, lines, w, k)
    ensures WorkOk(cnt, lim, lines, w.(scan := scan), k)
  {
  }

  lemma {:induction false} SplitOk(cnt: TokenCount, lim: Limits, lines: seq<string>, k: nat)
    requires k <= |lines|
    ensures WorkOk(cnt, lim, lines, SplitTo(cnt, lim, lines, k), k)
  {
    hide SplitTo, SplitStep, WorkOk;
    if k == 0 {
      SplitToStart(cnt, lim, lines);
      StartOk(cnt, lim, lines);
    } else {
      SplitOk(cnt, lim, lines, k - 1);
      SplitScan(cnt, lim, lines, k - 1);
      SplitToNext(cnt, lim, lines, k - 1);
      StepOk(cnt, lim, lines, SplitTo(cnt, lim, lines, k - 1), k - 1);
    }
  }

  /** The ceiling, on the parts themselves. */
  lemma PartsCeiling(cnt: TokenCount, lim: Limits, lines: seq<string>)
    ensures PartsOk(cnt, lim, lines, Parts(cnt, lim, lines))
  {
    var n := |lines|;
    SplitOk(cnt, lim, lines, n);
    CutOk(cnt, lim, lines, SplitTo(cnt, lim, lines, n), n);
  }

  lemma BodiesOfMore(parts: seq<seq<string>>)
    requires parts != []
    ensures var last := parts[|parts| - 1];
            Bodies(parts) == Bodies(parts[..|parts| - 1]) + if Blank(Join(last, "")) then [] else [Join(last, "\n")]
  {
    hide Blank, Join;
  }

  /** Which parts are not blank. */
  function NotBlank(parts: seq<seq<string>>): (r: seq<bool>)
    ensures |r| == |parts|
  {
    seq(|parts|, i requires 0 <= i < |parts| => !Blank(Join(parts[i], "")))
  }

  lemma OneMoreKept(parts: seq<seq<string>>, ks: seq<nat>)
    requires parts != [] && Places(NotBlank(parts[..|parts| - 1]), ks)
    ensures var n := |parts| - 1;
            Places(NotBlank(parts), if Blank(Join(parts[n], "")) then ks else ks + [n])
  {
    hide Blank, Join, Places;
    var n := |parts| - 1;
    assert NotBlank(parts) == NotBlank(parts[..n]) + [!Blank(Join(parts[n], ""))];
    OneMorePlace(NotBlank(parts[..n]), !Blank(Join(parts[n], "")), ks);
  }

  lemma NothingKept()
    ensures Places(NotBlank([]), []) && Bodies([]) == []
  {
  }

  /** The bodies are the parts that are not blank, in order, joined. */
  lemma {:induction false} BodiesAre(parts: seq<seq<string>>) returns (ks: seq<nat>)
    ensures |ks| == |Bodies(parts)| && Places(NotBlank(parts), ks)
    ensures forall i | 0 <= i < |ks| :: ks[i] < |parts| && Bodies(parts)[i] == Join(parts[ks[i]], "\n")
  {
    hide Blank, Join, Bodies, Places, NotBlank;
    if parts == [] {
      NothingKept();
      return [];
    }
    var n := |parts| - 1;
    var before := BodiesAre(parts[..n]);
    BodiesOfMore(parts);
    OneMoreKept(parts, before);
    ks := if Blank(Join(parts[n], "")) then before else before + [n];
    forall i | 0 <= i < |ks|
      ensures ks[i] < |parts| && Bodies(parts)[i] == Join(parts[ks[i]], "\n")
    {
      if i < |before| { assert before[i] < n && parts[..n][before[i]] == parts[before[i]]; }
    }
  }

  lemma {:induction false} BodiesComeFromParts(parts: seq<seq<string>>, i: nat)
    requires i < |Bodies(parts)|
    ensures exists j | 0 <= j < |parts| :: Bodies(parts)[i] == Join(parts[j], "\n")
  {
    var init := parts[..|parts| - 1];
    if i < |Bodies(init)| {
      BodiesComeFromParts(init, i);
      var j :| 0 <= j < |init| && Bodies(init)[i] == Join(init[j], "\n");
      assert parts[j] == init[j];
    } else {
      assert Bodies(parts)[i] == Join(parts[|parts| - 1], "\n");
    }
  }

  /** Every body a section is emitted as, before or after the trailing fold, is within the ceiling,
      or is one line, or ends on a line of a fence or a table. */
  lemma Ceiling(cnt: TokenCount, lim: Limits, lines: seq<string>, i: nat)
    requires i < |SectionBodies(cnt, lim, lines)|
    ensures var body, parts := SectionBodies(cnt, lim, lines)[i], Parts(cnt, lim, lines);
            cnt(body) <= lim.max
            || exists j | 0 <= j < |parts| ::
                 body == Join(parts[j], "\n") && PartOkAt(cnt, lim, lines, parts, j)
  {
    if Tokens(cnt, lines) > lim.max {
      var parts := Parts(cnt, lim, lines);
      PartsCeiling(cnt, lim, lines);
      if i < |Bodies(parts)| && SectionBodies(cnt, lim, lines)[i] == Bodies(parts)[i] {
        BodiesComeFromParts(parts, i);
      }
    }
  }

  // ------------------------------------------------------- no needless cut

  /** These lines, which end before line `end`, end on a paragraph break outside every region, and are enough. */
  predicate CutIsDue(cnt: TokenCount, lim: Limits, lines: seq<string>, some: seq<string>, end: nat)
    requires 0 < end <= |lines|
  {
    && Blank(lines[end - 1])
    && !Atomic(ScanTo(cnt, lines, end - 1), lines[end - 1])
    && Tokens(cnt, some) >= lim.target
  }

  /** A part that ends before line `end` was cut off for one of three reasons: it had reached the target at a
      paragraph break outside every region, or just before a line that opens one; or its next line, in no region,
      would have taken it over the maximum. */
  predicate HadReason(cnt: TokenCount, lim: Limits, lines: seq<string>, part: seq<string>, end: nat)
    requires 0 < end <= |lines|
  {
    || CutIsDue(cnt, lim, lines, part, end)
    || (end < |lines| && Tokens(cnt, part) >= lim.target && OpensRegion(ScanTo(cnt, lines, end), lines[end]))
    || (end < |lines| && Tokens(cnt, part + [lines[end]]) > lim.max
        && !Atomic(ScanTo(cnt, lines, end), lines[end]))
  }

  predicate ReasonAt(cnt: TokenCount, lim: Limits, lines: seq<string>, done: seq<seq<string>>, j: nat)
    requires j < |done|
  {
    0 < Start(done, j + 1) <= |lines| && HadReason(cnt, lim, lines, done[j], Start(done, j + 1))
  }

  ghost predicate Reasoned(cnt: TokenCount, lim: Limits, lines: seq<string>, done: seq<seq<string>>) {
    forall j | 0 <= j < |done| :: ReasonAt(cnt, lim, lines, done, j)
  }

  lemma OneMoreReason(cnt: TokenCount, lim: Limits, lines: seq<string>, done: seq<seq<string>>, x: seq<string>)
    requires Reasoned(cnt, lim, lines, done)
    requires 0 < |Flatten(done)| + |x| <= |lines| && HadReason(cnt, lim, lines, x, |Flatten(done)| + |x|)
    ensures Reasoned(cnt, lim, lines, done + [x])
  {
    hide HadReason;
    forall j | 0 <= j < |done + [x]|
      ensures ReasonAt(cnt, lim, lines, done + [x], j)
    {
      StartSnoc(done, x, if j < |done| then j + 1 else 0);
      assert j < |done| ==> ReasonAt(cnt, lim, lines, done, j);
    }
  }

  lemma CutReasoned(cnt: TokenCount, lim: Limits, lines: seq<string>, w: Work, k: nat)
    requires k <= |lines| && Covers(w, lines[..k]) && Reasoned(cnt, lim, lines, w.done)
    requires w.buffer != [] ==> k > 0 && HadReason(cnt, lim, lines, w.buffer, k)
    ensures Reasoned(cnt, lim, lines, Cut(w).done)
  {
    hide HadReason, Reasoned;
    if w.buffer != [] {
      assert |Flatten(w.done) + w.buffer| == k;
      OneMoreReason(cnt, lim, lines, w.done, w.buffer);
    }
  }

  /** What becomes of a line in no region. */
  function Placed(cnt: TokenCount, lim: Limits, w: Work, line: string): Work {
    var overflow := w.buffer != [] && Tokens(cnt, w.buffer + [line]) > lim.max;
    var w2 := Append(if overflow then Cut(w) else w, line);
    if Blank(line) && Tokens(cnt, w2.buffer) >= lim.target then Cut(w2) else w2
  }

  lemma StepIsPlaced(cnt: TokenCount, lim: Limits, w: Work, line: string)
    ensures var w1 := (if CutsBeforeRegion(cnt, lim, w, line) then Cut(w) else w).(scan := ScanStep(cnt, w.scan, line));
            SplitStep(cnt, lim, w, line) ==
            if Atomic(w.scan, line) then Append(w1, line) else Placed(cnt, lim, w1, line)
  {
    hide Tokens, Tabled, IsFence, FenceStep, TableStep, PipeStep, Blank, CutsBeforeRegion;
  }

  lemma PlacedReasoned(cnt: TokenCount, lim: Limits, lines: seq<string>, w: Work, k: nat)
    requires k < |lines| && Covers(w, lines[..k]) && Reasoned(cnt, lim, lines, w.done)
    requires !Atomic(ScanTo(cnt, lines, k), lines[k])
    ensures Reasoned(cnt, lim, lines, Placed(cnt, lim, w, lines[k]).done)
  {
    hide Tokens, ScanTo, Atomic, Blank, Reasoned, Covers, OpensRegion;
    var line := lines[k];
    var overflow := w.buffer != [] && Tokens(cnt, w.buffer + [line]) > lim.max;
    CoversEnd(w, lines, k);
    if overflow {
      CutReasoned(cnt, lim, lines, w, k);
      CutCovers(w, lines[..k]);
    }
    var w2 := Append(if overflow then Cut(w) else w, line);
    AppendCovers(if overflow then Cut(w) else w, lines[..k], line);
    assert lines[..k + 1] == lines[..k] + [line];
    if Blank(line) && Tokens(cnt, w2.buffer) >= lim.target {
      CutReasoned(cnt, lim, lines, w2, k + 1);
    }
  }

  lemma CoversEnd(w: Work, lines: seq<string>, k: nat)
    requires k <= |lines| && Covers(w, lines[..k])
    ensures w.buffer != [] ==> k > 0
  {
    assert |Flatten(w.done) + w.buffer| == k;
  }

  lemma StepReasoned(cnt: TokenCount, lim: Limits, lines: seq<string>, w: Work, k: nat)
    requires k < |lines| && Covers(w, lines[..k]) && Reasoned(cnt, lim, lines, w.done)
    requires w.scan == ScanTo(cnt, lines, k)
    ensures Reasoned(cnt, lim, lines, SplitStep(cnt, lim, w, lines[k]).done)
  {
    hide Tokens, ScanTo, Atomic, OpensRegion, Reasoned, Covers, SplitStep, ScanStep, Placed;
    var line := lines[k];
    StepIsPlaced(cnt, lim, w, line);
    CoversEnd(w, lines, k);
    if CutsBeforeRegion(cnt, lim, w, line) {
      CutReasoned(cnt, lim, lines, w, k);
      CutCovers(w, lines[..k]);
    }
    var w1 := (if CutsBeforeRegion(cnt, lim, w, line) then Cut(w) else w).(scan := ScanStep(cnt, w.scan, line));
    if !Atomic(ScanTo(cnt, lines, k), line) {
      ScanIsNoCover(if CutsBeforeRegion(cnt, lim, w, line) then Cut(w) else w, w1, lines[..k]);
      PlacedReasoned(cnt, lim, lines, w1, k);
    }
  }

  lemma ScanIsNoCover(w: Work, w': Work, prefix: seq<string>)
    requires Covers(w, prefix) && w'.done == w.done && w'.buffer == w.buffer
    ensures Covers(w', prefix)
  {
  }

  lemma {:induction false} SplitReasoned(cnt: TokenCount, lim: Limits, lines: seq<string>, k: nat)
    requires k <= |lines|
    ensures Reasoned(cnt, lim, lines, SplitTo(cnt, lim, lines, k).done)
  {
    hide SplitTo, SplitStep, ReasonAt;
    SplitToStart(cnt, lim, lines);
    if k > 0 {
      hide Reasoned, Covers;
      SplitReasoned(cnt, lim, lines, k - 1);
      SplitCovers(cnt, lim, lines, k - 1);
      SplitScan(cnt, lim, lines, k - 1);
      SplitToNext(cnt, lim, lines, k - 1);
      StepReasoned(cnt, lim, lines, SplitTo(cnt, lim, lines, k - 1), k - 1);
    }
  }

  /** No cut without one of the three reasons. */
  lemma NoNeedlessCut(cnt: TokenCount, lim: Limits, lines: seq<string>, j: nat)
    requires j + 1 < |Parts(cnt, lim, lines)|
    ensures ReasonAt(cnt, lim, lines, Parts(cnt, lim, lines), j)
  {
    SplitReasoned(cnt, lim, lines, |lines|);
    var w := SplitTo(cnt, lim, lines, |lines|);
    hide SplitTo, HadReason;
    assert ReasonAt(cnt, lim, lines, w.done, j);
    if w.buffer != [] { StartSnoc(w.done, w.buffer, j + 1); }
  }

  // ---------------------------------------------------- no missed opening

  /** The open buffer is kept until it is cut, and then it starts that part. */
  predicate BufferKept(w: Work, later: Work) {
    && w.done <= later.done
    && (if |later.done| == |w.done| then w.buffer <= later.buffer else w.buffer <= later.done[|w.done|])
  }

  lemma StepKeepsBuffer(cnt: TokenCount, lim: Limits, w: Work, line: string)
    ensures BufferKept(w, SplitStep(cnt, lim, w, line))
  {
    hide Tokens, ScanStep, Tabled, IsFence, Blank, OpensRegion;
  }

  lemma {:induction false} BufferStays(cnt: TokenCount, lim: Limits, lines: seq<string>, p: nat, k: nat)
    requires p <= k <= |lines|
    ensures BufferKept(SplitTo(cnt, lim, lines, p), SplitTo(cnt, lim, lines, k))
  {
    hide SplitTo, SplitStep;
    if p < k {
      BufferStays(cnt, lim, lines, p, k - 1);
      SplitToNext(cnt, lim, lines, k - 1);
      StepKeepsBuffer(cnt, lim, SplitTo(cnt, lim, lines, k - 1), lines[k - 1]);
    }
  }

  lemma {:induction false} StartsRise(parts: seq<seq<string>>, i: nat, j: nat)
    requires i <= j <= |parts|
    ensures Start(parts, i) <= Start(parts, j)
    ensures i < j ==> Start(parts, i + 1) == Start(parts, i) + |parts[i]|
  {
    assert parts[..j] == parts[..i] + parts[i..j];
    FlattenConcat(parts[..i], parts[i..j]);
    if i < j {
      assert parts[..i + 1] == parts[..i] + [parts[i]];
      FlattenSnoc(parts[..i], parts[i]);
    }
  }

  /** The lines of the part that line p is in the middle of, up to p, are what the buffer holds when p is read. */
  lemma BufferIsPart(cnt: TokenCount, lim: Limits, lines: seq<string>, j: nat, p: nat)
    requires j < |Parts(cnt, lim, lines)|
    requires Start(Parts(cnt, lim, lines), j) < p < Start(Parts(cnt, lim, lines), j + 1) <= |lines|
    ensures SplitTo(cnt, lim, lines, p).buffer == lines[Start(Parts(cnt, lim, lines), j)..p]
  {
    hide SplitTo, Flatten;
    var parts, w := Parts(cnt, lim, lines), SplitTo(cnt, lim, lines, p);
    var i := |w.done|;
    SplitCovers(cnt, lim, lines, p);
    BufferStays(cnt, lim, lines, p, |lines|);
    assert |Flatten(w.done) + w.buffer| == p;
    var last := SplitTo(cnt, lim, lines, |lines|);
    assert w.done <= parts && parts[..i] == w.done;
    assert Start(parts, i) == |Flatten(w.done)| == p - |w.buffer|;
    if i > j {
      StartsRise(parts, j + 1, i);
    } else if i < |parts| {
      assert w.buffer <= parts[i];
      StartsRise(parts, i, |parts|);
      if i < j { StartsRise(parts, i + 1, j); }
    }
    assert i == j;
    assert (Flatten(w.done) + w.buffer)[|Flatten(w.done)|..] == w.buffer;
  }

  /** No opening is missed: a line that opens a table inside a part finds the part still short of the target. */
  lemma NoMissedOpening(cnt: TokenCount, lim: Limits, lines: seq<string>, j: nat, p: nat)
    requires j < |Parts(cnt, lim, lines)|
    requires Start(Parts(cnt, lim, lines), j) < p < Start(Parts(cnt, lim, lines), j + 1) <= |lines|
    requires OpensRegion(ScanTo(cnt, lines, p), lines[p])
    ensures Tokens(cnt, lines[Start(Parts(cnt, lim, lines), j)..p]) < lim.target
  {
    hide SplitTo, Flatten, OpensRegion, Parts;
    BufferIsPart(cnt, lim, lines, j, p);
    SplitScan(cnt, lim, lines, p);
    if CutsBeforeRegion(cnt, lim, SplitTo(cnt, lim, lines, p), lines[p]) {
      FenceIsCut(cnt, lim, lines, p);
      NotBetween(Parts(cnt, lim, lines), j, p);
    }
  }

  lemma NotBetween(parts: seq<seq<string>>, j: nat, p: nat)
    requires j < |parts| && Start(parts, j) < p < Start(parts, j + 1)
    ensures !Seam(parts, p)
  {
    hide Start;
    forall i | 0 < i < |parts|
      ensures Start(parts, i) != p
    {
      if i <= j { StartsRise(parts, i, j); } else { StartsRise(parts, j + 1, i); }
    }
  }

  // --------------------------------------------------------- no missed cut

  /** The part that starts at line a was not due to be cut after any of its first n lines. */
  ghost predicate NeverDue(cnt: TokenCount, lim: Limits, lines: seq<string>, part: seq<string>, a: nat, n: nat)
    requires n <= |part| && a + n <= |lines|
  {
    forall m | 0 < m <= n :: !CutIsDue(cnt, lim, lines, part[..m], a + m)
  }

  ghost predicate PartNeverDue(cnt: TokenCount, lim: Limits, lines: seq<string>, done: seq<seq<string>>, j: nat)
    requires j < |done|
  {
    done[j] != [] && Start(done, j) + |done[j]| <= |lines|
    && NeverDue(cnt, lim, lines, done[j], Start(done, j), |done[j]| - 1)
  }

  ghost predicate Punctual(cnt: TokenCount, lim: Limits, lines: seq<string>, w: Work, k: nat)
    requires k <= |lines|
  {
    && Covers(w, lines[..k])
    && (forall j | 0 <= j < |w.done| :: PartNeverDue(cnt, lim, lines, w.done, j))
    && |Flatten(w.done)| + |w.buffer| == k
    && NeverDue(cnt, lim, lines, w.buffer, |Flatten(w.done)|, |w.buffer|)
  }

  /** Cutting is allowed even when it is just due. */
  ghost predicate AlmostPunctual(cnt: TokenCount, lim: Limits, lines: seq<string>, w: Work, k: nat)
    requires k <= |lines|
  {
    && Covers(w, lines[..k])
    && (forall j | 0 <= j < |w.done| :: PartNeverDue(cnt, lim, lines, w.done, j))
    && |Flatten(w.done)| + |w.buffer| == k
    && (w.buffer != [] ==> NeverDue(cnt, lim, lines, w.buffer, |Flatten(w.done)|, |w.buffer| - 1))
  }

  lemma OlderNeverDue(cnt: TokenCount, lim: Limits, lines: seq<string>, done: seq<seq<string>>, x: seq<string>, j: nat)
    requires j < |done| && PartNeverDue(cnt, lim, lines, done, j)
    ensures PartNeverDue(cnt, lim, lines, done + [x], j)
  {
    hide NeverDue;
    StartSnoc(done, x, j);
  }

  lemma CutIsPunctual(cnt: TokenCount, lim: Limits, lines: seq<string>, w: Work, k: nat)
    requires k <= |lines| && AlmostPunctual(cnt, lim, lines, w, k)
    ensures Punctual(cnt, lim, lines, Cut(w), k)
  {
    CutCovers(w, lines[..k]);
    hide CutIsDue, Covers;
    if w.buffer != [] {
      var cut := w.done + [w.buffer];
      FlattenSnoc(w.done, w.buffer);
      StartSnoc(w.done, w.buffer, |w.done|);
      WholeStart(w.done);
      forall j | 0 <= j < |cut|
        ensures PartNeverDue(cnt, lim, lines, cut, j)
      {
        if j < |w.done| {
          OlderNeverDue(cnt, lim, lines, w.done, w.buffer, j);
        }
      }
    }
  }

  lemma WholeStart(done: seq<seq<string>>)
    ensures Start(done, |done|) == |Flatten(done)|
  {
    assert done[..|done|] == done;
  }

  lemma AppendAlmostPunctual(cnt: TokenCount, lim: Limits, lines: seq<string>, w: Work, k: nat)
    requires k < |lines| && Punctual(cnt, lim, lines, w, k)
    ensures AlmostPunctual(cnt, lim, lines, Append(w, lines[k]), k + 1)
  {
    AppendCovers(w, lines[..k], lines[k]);
    assert lines[..k + 1] == lines[..k] + [lines[k]];
    hide CutIsDue, Covers, PartNeverDue;
    var longer := w.buffer + [lines[k]];
    assert forall m | 0 < m <= |w.buffer| :: longer[..m] == w.buffer[..m];
  }

  lemma AlmostIsPunctual(cnt: TokenCount, lim: Limits, lines: seq<string>, w: Work, k: nat)
    requires 0 < k <= |lines| && AlmostPunctual(cnt, lim, lines, w, k) && w.buffer != []
    requires !CutIsDue(cnt, lim, lines, w.buffer, k)
    ensures Punctual(cnt, lim, lines, w, k)
  {
    hide CutIsDue, Covers, PartNeverDue;
    assert w.buffer[..|w.buffer|] == w.buffer;
  }

  lemma PunctualIsAlmost(cnt: TokenCount, lim: Limits, lines: seq<string>, w: Work, scan: Scan, k: nat)
    requires k <= |lines| && Punctual(cnt, lim, lines, w, k)
    ensures AlmostPunctual(cnt, lim, lines, w, k) && Punctual(cnt, lim, lines, w.(scan := scan), k)
  {
    hide CutIsDue, PartNeverDue;
  }

  lemma StepPunctual(cnt: TokenCount, lim: Limits, lines: seq<string>, w: Work, k: nat)
    requires k < |lines| && Punctual(cnt, lim, lines, w, k) && w.scan == ScanTo(cnt, lines, k)
    ensures Punctual(cnt, lim, lines, SplitStep(cnt, lim, w, lines[k]), k + 1)
  {
    hide ScanTo, TableStep, PipeStep, Tabled, CutsBeforeRegion, Covers, IsFence, Blank, FenceStep, Tokens;
    hide Punctual, AlmostPunctual;
    var line := lines[k];
    PunctualIsAlmost(cnt, lim, lines, w, w.scan, k);
    CutIsPunctual(cnt, lim, lines, w, k);
    var w0 := if CutsBeforeRegion(cnt, lim, w, line) then Cut(w) else w;
    var w1 := w0.(scan := ScanStep(cnt, w.scan, line));
    PunctualIsAlmost(cnt, lim, lines, w0, w1.scan, k);
    PunctualIsAlmost(cnt, lim, lines, w1, w1.scan, k);
    CutIsPunctual(cnt, lim, lines, w1, k);
    var overflow := w1.buffer != [] && Tokens(cnt, w1.buffer + [line]) > lim.max;
    var w2 := if !Atomic(w.scan, line) && overflow then Cut(w1) else w1;
    AppendAlmostPunctual(cnt, lim, lines, w2, k);
    if CutIsDue(cnt, lim, lines, Append(w2, line).buffer, k + 1) {
      CutIsPunctual(cnt, lim, lines, Append(w2, line), k + 1);
    } else {
      AlmostIsPunctual(cnt, lim, lines, Append(w2, line), k + 1);
    }
  }

  lemma StartPunctual(cnt: TokenCount, lim: Limits, lines: seq<string>)
    ensures Punctual(cnt, lim, lines, START, 0)
  {
  }

  lemma {:induction false} SplitPunctual(cnt: TokenCount, lim: Limits, lines: seq<string>, k: nat)
    requires k <= |lines|
    ensures Punctual(cnt, lim, lines, SplitTo(cnt, lim, lines, k), k)
  {
    hide SplitTo, SplitStep, Punctual;
    if k == 0 {
      SplitToStart(cnt, lim, lines);
      StartPunctual(cnt, lim, lines);
    } else {
      SplitPunctual(cnt, lim, lines, k - 1);
      SplitScan(cnt, lim, lines, k - 1);
      SplitToNext(cnt, lim, lines, k - 1);
      StepPunctual(cnt, lim, lines, SplitTo(cnt, lim, lines, k - 1), k - 1);
    }
  }

  /** No cut is missed: a part never runs on past a paragraph break outside every region at which it had
      reached the target. */
  lemma NoMissedCut(cnt: TokenCount, lim: Limits, lines: seq<string>, j: nat, m: nat)
    requires j < |Parts(cnt, lim, lines)| && 0 < m < |Parts(cnt, lim, lines)[j]|
    ensures var parts := Parts(cnt, lim, lines);
            Start(parts, j) + m <= |lines| && !CutIsDue(cnt, lim, lines, parts[j][..m], Start(parts, j) + m)
  {
    var w := SplitTo(cnt, lim, lines, |lines|);
    SplitPunctual(cnt, lim, lines, |lines|);
    PunctualIsAlmost(cnt, lim, lines, w, w.scan, |lines|);
    CutIsPunctual(cnt, lim, lines, w, |lines|);
    hide SplitTo, CutIsDue;
    assert PartNeverDue(cnt, lim, lines, Cut(w).done, j);
  }

  // ------------------------------------------------- the whole, and the fold

  /** A section within the maximum is one body; any other is its parts, where a last one short of the minimum is
      folded into the one before it exactly if the two fit the maximum. */
  lemma ShortTailIsFolded(cnt: TokenCount, lim: Limits, lines: seq<string>)
    ensures var bodies, r := Bodies(Parts(cnt, lim, lines)), SectionBodies(cnt, lim, lines);
            var n := |bodies|;
            if cnt(Join(lines, "\n")) <= lim.max then r == [Join(lines, "\n")]
            else if n >= 2 && cnt(bodies[n - 1]) < lim.min && cnt(bodies[n - 2] + "\n" + bodies[n - 1]) <= lim.max then
              |r| == n - 1 && r[n - 2] == bodies[n - 2] + "\n" + bodies[n - 1] && r[..n - 2] == bodies[..n - 2]
            else r == bodies
  {
    hide Parts, Bodies, Join;
  }

  // -------------------------------------------------------- conservation

  function AllEssence(bodies: seq<string>): seq<string> {
    if bodies == [] then [] else AllEssence(bodies[..|bodies| - 1]) + Essence(bodies[|bodies| - 1])
  }

  lemma {:induction false} AllEssenceConcat(a: seq<string>, b: seq<string>)
    ensures AllEssence(a + b) == AllEssence(a) + AllEssence(b)
  {
    hide Essence;
    if b == [] {
      assert a + b == a;
    } else {
      assert (a + b)[..|a + b| - 1] == a + b[..|b| - 1];
      AllEssenceConcat(a, b[..|b| - 1]);
    }
  }

  ghost predicate NoNewlines(lines: seq<string>) {
    forall i | 0 <= i < |lines| :: '\n' !in lines[i]
  }

  lemma {:induction false} BodiesKeepLines(parts: seq<seq<string>>)
    requires NoNewlines(Flatten(parts))
    ensures AllEssence(Bodies(parts)) == NonBlank(Flatten(parts))
  {
    if parts != [] {
      var init, last := parts[..|parts| - 1], parts[|parts| - 1];
      assert parts == init + [last];
      FlattenSnoc(init, last);
      assert forall i | 0 <= i < |Flatten(init)| :: Flatten(init)[i] == Flatten(parts)[i];
      assert forall i | 0 <= i < |last| :: last[i] == Flatten(parts)[|Flatten(init)| + i];
      BodiesKeepLines(init);
      NonBlankConcat(Flatten(init), last);
      JoinEssence(last);
      var emitted := if Blank(Join(last, "")) then [] else [Join(last, "\n")];
      AllEssenceConcat(Bodies(init), emitted);
      if Blank(Join(last, "")) {
        JoinBlank(last);
        NonBlankOfBlank(last);
      }
    }
  }

  lemma FoldKeepsLines(cnt: TokenCount, lim: Limits, bodies: seq<string>)
    ensures AllEssence(FoldTrailing(cnt, lim, bodies)) == AllEssence(bodies)
  {
    var n := |bodies|;
    if n >= 2 {
      var rest, a, b := bodies[..n - 2], bodies[n - 2], bodies[n - 1];
      assert bodies == rest + [a] + [b];
      AllEssenceConcat(rest + [a], [b]);
      AllEssenceConcat(rest, [a]);
      AllEssenceConcat(rest, [a + "\n" + b]);
      EssenceOfOne(a);
      EssenceOfOne(b);
      EssenceOfOne(a + "\n" + b);
      EssenceConcat(a, b);
    }
  }

  lemma EssenceOfOne(body: string)
    ensures AllEssence([body]) == Essence(body)
  {
    assert [body][..0] == [];
  }

  /** Every non-blank line of a section is in its bodies, once, in order, trimmed; nothing else is. */
  lemma SectionKeepsLines(cnt: TokenCount, lim: Limits, lines: seq<string>)
    requires NoNewlines(lines)
    ensures AllEssence(SectionBodies(cnt, lim, lines)) == NonBlank(lines)
  {
    if Tokens(cnt, lines) <= lim.max {
      JoinEssence(lines);
      EssenceOfOne(Join(lines, "\n"));
    } else {
      PartsCover(cnt, lim, lines);
      BodiesKeepLines(Parts(cnt, lim, lines));
      FoldKeepsLines(cnt, lim, Bodies(Parts(cnt, lim, lines)));
    }
  }
}

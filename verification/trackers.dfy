/** The three mutable trackers of `chunker.ts`, each a class proved against a step function on its
    state, and the combined scan in which one line loop feeds them. */
module Trackers {
  import opened Lines

  const DEFAULT_MAX_TOKENS: nat := 1200
  const UNCLOSED_TABLE_TOKEN_BOUND: nat := 5 * DEFAULT_MAX_TOKENS

  type TokenCount = string -> nat

  // ---------------------------------------------------------------- fences

  datatype Fence = Fence(inside: bool, depth: nat)

  const NO_FENCE := Fence(false, 0)

  /** The quote the fence opened in has not ended at this line. */
  predicate FenceStays(f: Fence, line: string) {
    f.inside && QuoteDepth(line) >= f.depth
  }

  function FenceStep(f: Fence, line: string): Fence {
    var inside := FenceStays(f, line);
    if !IsFence(line) then Fence(inside, f.depth)
    else if !inside then Fence(true, QuoteDepth(line))
    else Fence(QuoteDepth(line) != f.depth, f.depth)
  }

  class FenceTracker {
    var insideFence: bool
    var openDepth: nat

    ghost function State(): Fence
      reads this
    {
      Fence(insideFence, openDepth)
    }

    constructor ()
      ensures State() == NO_FENCE
    {
      insideFence := false;
      openDepth := 0;
    }

    method Consume(line: string) returns (marker: bool)
      modifies this
      ensures State() == FenceStep(old(State()), line)
      ensures marker == IsFence(line)
    {
      if insideFence && QuoteDepth(line) < openDepth {
        insideFence := false;
      }
      if !IsFence(line) {
        return false;
      }
      if !insideFence {
        insideFence := true;
        openDepth := QuoteDepth(line);
      } else if QuoteDepth(line) == openDepth {
        insideFence := false;
      }
      return true;
    }
  }

  // ----------------------------------------------------------- HTML tables

  datatype Table = Table(inside: bool, depth: nat, tokens: nat)

  const NO_TABLE := Table(false, 0, 0)

  /** Neither the quote nor the token bound ends the table at this line. */
  predicate TableStays(t: Table, line: string) {
    t.inside && QuoteDepth(line) >= t.depth && t.tokens <= UNCLOSED_TABLE_TOKEN_BOUND
  }

  predicate TableStarts(t: Table, line: string, mayOpen: bool) {
    !TableStays(t, line) && mayOpen && TableOpens(line)
  }

  /** What `consume` returns: the line belongs to a table. */
  predicate InTable(t: Table, line: string, mayOpen: bool) {
    TableStays(t, line) || TableStarts(t, line, mayOpen)
  }

  function TableStep(cnt: TokenCount, t: Table, line: string, mayOpen: bool): Table {
    if TableStarts(t, line, mayOpen) then Table(!TableCloses(line), QuoteDepth(line), cnt(line))
    else if TableStays(t, line) then Table(!TableCloses(line), t.depth, t.tokens + cnt(line))
    else t.(inside := false)
  }

  class TableTracker {
    const cnt: TokenCount
    var insideTable: bool
    var openDepth: nat
    var tokensSinceOpen: nat

    ghost function State(): Table
      reads this
    {
      Table(insideTable, openDepth, tokensSinceOpen)
    }

    constructor (cnt: TokenCount)
      ensures State() == NO_TABLE && this.cnt == cnt
    {
      this.cnt := cnt;
      insideTable := false;
      openDepth := 0;
      tokensSinceOpen := 0;
    }

    method Consume(line: string, mayOpen: bool) returns (partOfTable: bool)
      modifies this
      ensures State() == TableStep(cnt, old(State()), line, mayOpen)
      ensures partOfTable == InTable(old(State()), line, mayOpen)
    {
      if insideTable && (QuoteDepth(line) < openDepth || tokensSinceOpen > UNCLOSED_TABLE_TOKEN_BOUND) {
        insideTable := false;
      }
      if !insideTable && mayOpen && TableOpens(line) {
        insideTable := true;
        openDepth := QuoteDepth(line);
        tokensSinceOpen := 0;
      }
      partOfTable := insideTable;
      if insideTable {
        tokensSinceOpen := tokensSinceOpen + cnt(line);
      }
      if insideTable && TableCloses(line) {
        insideTable := false;
      }
    }
  }

  // ----------------------------------------------------------- pipe tables

  datatype Pipe = Pipe(inside: bool, tokens: nat)

  const NO_PIPE := Pipe(false, 0)

  predicate PipeStays(p: Pipe, line: string) {
    p.inside && p.tokens <= UNCLOSED_TABLE_TOKEN_BOUND && IsPipeRow(line)
  }

  predicate PipeStarts(p: Pipe, line: string, mayOpen: bool) {
    !(p.inside && p.tokens <= UNCLOSED_TABLE_TOKEN_BOUND) && mayOpen && IsPipeRow(line)
  }

  predicate InPipe(p: Pipe, line: string, mayOpen: bool) {
    PipeStays(p, line) || PipeStarts(p, line, mayOpen)
  }

  function PipeStep(cnt: TokenCount, p: Pipe, line: string, mayOpen: bool): Pipe {
    if PipeStarts(p, line, mayOpen) then Pipe(true, cnt(line))
    else if PipeStays(p, line) then Pipe(true, p.tokens + cnt(line))
    else p.(inside := false)
  }

  class PipeTableTracker {
    const cnt: TokenCount
    var insideTable: bool
    var tokensSinceOpen: nat

    ghost function State(): Pipe
      reads this
    {
      Pipe(insideTable, tokensSinceOpen)
    }

    constructor (cnt: TokenCount)
      ensures State() == NO_PIPE && this.cnt == cnt
    {
      this.cnt := cnt;
      insideTable := false;
      tokensSinceOpen := 0;
    }

    method Consume(line: string, mayOpen: bool) returns (partOfTable: bool)
      modifies this
      ensures State() == PipeStep(cnt, old(State()), line, mayOpen)
      ensures partOfTable == InPipe(old(State()), line, mayOpen)
    {
      if insideTable && tokensSinceOpen > UNCLOSED_TABLE_TOKEN_BOUND {
        insideTable := false;
      }
      var isRow := IsPipeRow(line);
      if !insideTable && mayOpen && isRow {
        insideTable := true;
        tokensSinceOpen := 0;
      } else if insideTable && !isRow {
        insideTable := false;
      }
      partOfTable := insideTable && isRow;
      if partOfTable {
        tokensSinceOpen := tokensSinceOpen + cnt(line);
      }
    }
  }

  // ------------------------------------------------------ the combined scan

  datatype Scan = Scan(fence: Fence, table: Table, pipe: Pipe)

  const FRESH := Scan(NO_FENCE, NO_TABLE, NO_PIPE)

  predicate MayOpenTable(s: Scan, line: string) {
    && !FenceStep(s.fence, line).inside
    && !s.table.inside
    && !(s.pipe.inside && IsPipeRow(line))
  }

  predicate MayOpenPipe(s: Scan, line: string) {
    !FenceStep(s.fence, line).inside && !s.table.inside && !s.pipe.inside
  }

  /** The line would open a table of either kind. */
  predicate OpensRegion(s: Scan, line: string) {
    || (MayOpenTable(s, line) && TableOpens(line))
    || (MayOpenPipe(s, line) && IsPipeRow(line))
  }

  function ScanStep(cnt: TokenCount, s: Scan, line: string): Scan {
    Scan(FenceStep(s.fence, line),
         TableStep(cnt, s.table, line, MayOpenTable(s, line)),
         PipeStep(cnt, s.pipe, line, MayOpenPipe(s, line)))
  }

  /** The line is a fence marker or lies inside a fence. */
  predicate Fenced(s: Scan, line: string) {
    IsFence(line) || FenceStep(s.fence, line).inside
  }

  predicate Tabled(s: Scan, line: string) {
    InTable(s.table, line, MayOpenTable(s, line)) || InPipe(s.pipe, line, MayOpenPipe(s, line))
  }

  /** The line belongs to a fence or to a table. */
  predicate Atomic(s: Scan, line: string) {
    Fenced(s, line) || Tabled(s, line)
  }

  function FenceRun(f: Fence, lines: seq<string>): Fence
    decreases lines
  {
    if lines == [] then f else FenceRun(FenceStep(f, lines[0]), lines[1..])
  }

  /** The state of all three trackers after the first k lines. */
  function ScanTo(cnt: TokenCount, lines: seq<string>, k: nat): Scan
    requires k <= |lines|
  {
    if k == 0 then FRESH else ScanStep(cnt, ScanTo(cnt, lines, k - 1), lines[k - 1])
  }

  lemma ScanToNext(cnt: TokenCount, lines: seq<string>, k: nat)
    requires k < |lines|
    ensures ScanTo(cnt, lines, k + 1) == ScanStep(cnt, ScanTo(cnt, lines, k), lines[k])
  {
  }

  lemma {:induction false} FenceRunConcat(f: Fence, a: seq<string>, b: seq<string>)
    ensures FenceRun(f, a + b) == FenceRun(FenceRun(f, a), b)
    decreases a
  {
    if a == [] {
      assert a + b == b;
    } else {
      assert (a + b)[1..] == a[1..] + b;
      FenceRunConcat(FenceStep(f, a[0]), a[1..], b);
    }
  }

  lemma FenceRunSnoc(f: Fence, lines: seq<string>, k: nat)
    requires k < |lines|
    ensures FenceRun(f, lines[..k + 1]) == FenceStep(FenceRun(f, lines[..k]), lines[k])
  {
    assert lines[..k + 1] == lines[..k] + [lines[k]];
    FenceRunConcat(f, lines[..k], [lines[k]]);
    assert [lines[k]][1..] == [];
    assert FenceRun(FenceRun(f, lines[..k]), [lines[k]]) ==
           FenceRun(FenceStep(FenceRun(f, lines[..k]), lines[k]), []);
  }

  /** The fence component of the combined scan is a fence run on its own. */
  lemma {:induction false} ScanFence(cnt: TokenCount, lines: seq<string>, k: nat)
    requires k <= |lines|
    ensures ScanTo(cnt, lines, k).fence == FenceRun(NO_FENCE, lines[..k])
  {
    if k == 0 {
      assert lines[..0] == [];
    } else {
      ScanFence(cnt, lines, k - 1);
      FenceRunSnoc(NO_FENCE, lines, k - 1);
    }
  }

  // ------------------------------------------------- what the trackers bound

  function SumTokens(cnt: TokenCount, lines: seq<string>): nat {
    if lines == [] then 0 else SumTokens(cnt, lines[..|lines| - 1]) + cnt(lines[|lines| - 1])
  }

  lemma SumSnoc(cnt: TokenCount, lines: seq<string>, a: nat, b: nat)
    requires a <= b < |lines|
    ensures SumTokens(cnt, lines[a..b + 1]) == SumTokens(cnt, lines[a..b]) + cnt(lines[b])
  {
    assert lines[a..b + 1][..b - a] == lines[a..b];
  }

  /** Line p continues the HTML table that line p - 1 belongs to. */
  predicate TableContinues(cnt: TokenCount, lines: seq<string>, p: nat)
    requires p < |lines|
  {
    TableStays(ScanTo(cnt, lines, p).table, lines[p])
  }

  predicate PipeContinues(cnt: TokenCount, lines: seq<string>, p: nat)
    requires p < |lines|
  {
    PipeStays(ScanTo(cnt, lines, p).pipe, lines[p])
  }

  predicate FenceContinues(cnt: TokenCount, lines: seq<string>, p: nat)
    requires p < |lines|
  {
    FenceStays(ScanTo(cnt, lines, p).fence, lines[p])
  }

  predicate TableStartsAt(cnt: TokenCount, lines: seq<string>, a: nat)
    requires a < |lines|
  {
    var s := ScanTo(cnt, lines, a);
    TableStarts(s.table, lines[a], MayOpenTable(s, lines[a]))
  }

  predicate PipeStartsAt(cnt: TokenCount, lines: seq<string>, a: nat)
    requires a < |lines|
  {
    var s := ScanTo(cnt, lines, a);
    PipeStarts(s.pipe, lines[a], MayOpenPipe(s, lines[a]))
  }

  /** A table that opens at line a and still claims line b holds, before its last line, no more
      tokens than the bound, and the tracker's counter is their exact sum. */
  lemma {:induction false} TableBound(cnt: TokenCount, lines: seq<string>, a: nat, b: nat)
    requires a <= b < |lines|
    requires TableStartsAt(cnt, lines, a)
    requires forall p | a < p <= b :: TableContinues(cnt, lines, p)
    ensures SumTokens(cnt, lines[a..b]) <= UNCLOSED_TABLE_TOKEN_BOUND
    ensures ScanTo(cnt, lines, b + 1).table.tokens == SumTokens(cnt, lines[a..b + 1])
  {
    hide IsFence, QuoteDepth, TableOpens, TableCloses, IsPipeRow, FenceStep, PipeStep;
    SumSnoc(cnt, lines, a, b);
    if b == a {
      assert lines[a..a] == [];
    } else {
      TableBound(cnt, lines, a, b - 1);
      assert TableContinues(cnt, lines, b);
    }
  }

  lemma {:induction false} PipeBound(cnt: TokenCount, lines: seq<string>, a: nat, b: nat)
    requires a <= b < |lines|
    requires PipeStartsAt(cnt, lines, a)
    requires forall p | a < p <= b :: PipeContinues(cnt, lines, p)
    ensures SumTokens(cnt, lines[a..b]) <= UNCLOSED_TABLE_TOKEN_BOUND
    ensures ScanTo(cnt, lines, b + 1).pipe.tokens == SumTokens(cnt, lines[a..b + 1])
  {
    hide IsFence, QuoteDepth, TableOpens, TableCloses, IsPipeRow, FenceStep, TableStep;
    SumSnoc(cnt, lines, a, b);
    if b == a {
      assert lines[a..a] == [];
    } else {
      PipeBound(cnt, lines, a, b - 1);
      assert PipeContinues(cnt, lines, b);
    }
  }

  /** Conversely a run of pipe rows that starts a table stays one table for as long as the tokens
      before each row keep within the bound. */
  lemma {:induction false} PipeRunHolds(cnt: TokenCount, lines: seq<string>, a: nat, b: nat)
    requires a <= b < |lines|
    requires PipeStartsAt(cnt, lines, a)
    requires forall p | a <= p <= b :: IsPipeRow(lines[p])
    requires forall p | a < p <= b :: SumTokens(cnt, lines[a..p]) <= UNCLOSED_TABLE_TOKEN_BOUND
    ensures forall p | a < p <= b :: PipeContinues(cnt, lines, p)
  {
    hide IsFence, QuoteDepth, TableOpens, TableCloses, IsPipeRow, FenceStep, TableStep;
    if a < b {
      PipeRunHolds(cnt, lines, a, b - 1);
      PipeBound(cnt, lines, a, b - 1);
      assert a < b - 1 ==> PipeContinues(cnt, lines, b - 1);
      assert ScanTo(cnt, lines, b).pipe.inside;
    }
  }
}

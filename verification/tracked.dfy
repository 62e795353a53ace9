/** What it takes to be inside a fence or a table, said of the lines alone: which line opened it, and that no line
    since has ended it. */
module Tracked {
  import opened Lines
  import opened Trackers

  /** No line from a + 1 up to k ends the fence opened at line a: none is in a shallower quote, and no marker is at
      its depth. */
  predicate FenceUnended(lines: seq<string>, a: nat, k: nat)
    requires a < k <= |lines|
  {
    forall p | a < p < k ::
      && QuoteDepth(lines[p]) >= QuoteDepth(lines[a])
      && !(IsFence(lines[p]) && QuoteDepth(lines[p]) == QuoteDepth(lines[a]))
  }

  /** Line a is a marker that is in no fence yet. */
  predicate OpensFence(lines: seq<string>, a: nat)
    requires a < |lines|
  {
    IsFence(lines[a]) && !FenceStays(FenceRun(NO_FENCE, lines[..a]), lines[a])
  }

  /** Inside a fence after k lines: exactly if one of them opened it and none since has ended it. */
  lemma {:induction false} InsideFenceIff(lines: seq<string>, k: nat) returns (a: nat)
    requires k <= |lines|
    ensures var f := FenceRun(NO_FENCE, lines[..k]);
            && (f.inside ==> a < k && OpensFence(lines, a) && FenceUnended(lines, a, k)
                             && f.depth == QuoteDepth(lines[a]))
            && (forall o | 0 <= o < k && OpensFence(lines, o) && FenceUnended(lines, o, k) ::
                  f.inside && f.depth == QuoteDepth(lines[o]))
  {
    hide FenceRun, IsFence, QuoteDepth;
    a := 0;
    if k == 0 {
      NothingRun(lines);
      return;
    }
    var line, before := lines[k - 1], FenceRun(NO_FENCE, lines[..k - 1]);
    FenceRunSnoc(NO_FENCE, lines, k - 1);
    a := InsideFenceIff(lines, k - 1);
    if OpensFence(lines, k - 1) {
      a := k - 1;
    }
    forall o | 0 <= o < k && OpensFence(lines, o) && FenceUnended(lines, o, k)
      ensures var f := FenceStep(before, line); f.inside && f.depth == QuoteDepth(lines[o])
    {
      if o < k - 1 {
        assert FenceUnended(lines, o, k - 1);
      }
    }
  }

  lemma NothingRun(lines: seq<string>)
    ensures FenceRun(NO_FENCE, lines[..0]) == NO_FENCE
  {
  }

  // ------------------------------------------------------------- HTML tables

  /** The table opened at line a has not ended by line k: none of its lines closed it, none left its quote, and before
      none of them it was over the bound. */
  predicate TableUnended(cnt: TokenCount, lines: seq<string>, a: nat, k: nat)
    requires a < k <= |lines|
  {
    && (forall p | a <= p < k :: !TableCloses(lines[p]))
    && (forall p | a < p < k :: QuoteDepth(lines[p]) >= QuoteDepth(lines[a])
                                && SumTokens(cnt, lines[a..p]) <= UNCLOSED_TABLE_TOKEN_BOUND)
  }

  lemma SumOfOne(cnt: TokenCount, lines: seq<string>, a: nat)
    requires a < |lines|
    ensures SumTokens(cnt, lines[a..a + 1]) == cnt(lines[a])
  {
    assert lines[a..a + 1] == [lines[a]] && [lines[a]][..0] == [];
  }

  /** Inside an HTML table after k lines: exactly if one of them opened it and none since has ended it. */
  lemma {:induction false} InsideTableIff(cnt: TokenCount, lines: seq<string>, k: nat) returns (a: nat)
    requires k <= |lines|
    ensures var t := ScanTo(cnt, lines, k).table;
            && (t.inside ==> a < k && TableStartsAt(cnt, lines, a) && TableUnended(cnt, lines, a, k)
                             && t.depth == QuoteDepth(lines[a]) && t.tokens == SumTokens(cnt, lines[a..k]))
            && (forall o | 0 <= o < k && TableStartsAt(cnt, lines, o) && TableUnended(cnt, lines, o, k) ::
                  t.inside && t.depth == QuoteDepth(lines[o]) && t.tokens == SumTokens(cnt, lines[o..k]))
  {
    hide ScanTo, QuoteDepth, TableOpens, TableCloses, IsPipeRow, FenceStep, PipeStep, SumTokens;
    a := 0;
    if k == 0 {
      StartsFresh(cnt, lines);
      return;
    }
    var s := ScanTo(cnt, lines, k - 1);
    ScanToNext(cnt, lines, k - 1);
    a := InsideTableIff(cnt, lines, k - 1);
    SumOfOne(cnt, lines, k - 1);
    if TableStartsAt(cnt, lines, k - 1) {
      a := k - 1;
    } else if a < k - 1 {
      SumSnoc(cnt, lines, a, k - 1);
    }
    forall o | 0 <= o < k && TableStartsAt(cnt, lines, o) && TableUnended(cnt, lines, o, k)
      ensures var t := ScanTo(cnt, lines, k).table;
              t.inside && t.depth == QuoteDepth(lines[o]) && t.tokens == SumTokens(cnt, lines[o..k])
    {
      if o < k - 1 {
        assert TableUnended(cnt, lines, o, k - 1);
        SumSnoc(cnt, lines, o, k - 1);
      }
    }
  }

  lemma StartsFresh(cnt: TokenCount, lines: seq<string>)
    ensures ScanTo(cnt, lines, 0) == FRESH
  {
  }

  // -------------------------------------------------------------- pipe tables

  predicate PipeUnended(cnt: TokenCount, lines: seq<string>, a: nat, k: nat)
    requires a < k <= |lines|
  {
    && (forall p | a <= p < k :: IsPipeRow(lines[p]))
    && (forall p | a < p < k :: SumTokens(cnt, lines[a..p]) <= UNCLOSED_TABLE_TOKEN_BOUND)
  }

  /** The same for a run of pipe rows. */
  lemma {:induction false} InsidePipeIff(cnt: TokenCount, lines: seq<string>, k: nat) returns (a: nat)
    requires k <= |lines|
    ensures var t := ScanTo(cnt, lines, k).pipe;
            && (t.inside ==> a < k && PipeStartsAt(cnt, lines, a) && PipeUnended(cnt, lines, a, k)
                             && t.tokens == SumTokens(cnt, lines[a..k]))
            && (forall o | 0 <= o < k && PipeStartsAt(cnt, lines, o) && PipeUnended(cnt, lines, o, k) ::
                  t.inside && t.tokens == SumTokens(cnt, lines[o..k]))
  {
    hide ScanTo, QuoteDepth, TableOpens, TableCloses, IsPipeRow, FenceStep, TableStep, SumTokens;
    a := 0;
    if k == 0 {
      StartsFresh(cnt, lines);
      return;
    }
    ScanToNext(cnt, lines, k - 1);
    a := InsidePipeIff(cnt, lines, k - 1);
    SumOfOne(cnt, lines, k - 1);
    if PipeStartsAt(cnt, lines, k - 1) {
      a := k - 1;
    } else if a < k - 1 {
      SumSnoc(cnt, lines, a, k - 1);
    }
    forall o | 0 <= o < k && PipeStartsAt(cnt, lines, o) && PipeUnended(cnt, lines, o, k)
      ensures var t := ScanTo(cnt, lines, k).pipe; t.inside && t.tokens == SumTokens(cnt, lines[o..k])
    {
      if o < k - 1 {
        assert PipeUnended(cnt, lines, o, k - 1);
        SumSnoc(cnt, lines, o, k - 1);
      }
    }
  }

  // ---------------------------------------------------------------- openings

  /** Where a table of either kind opens: never in a fence or in an HTML table, a pipe table never in another, and an
      HTML table in a pipe table only on a line that is no row of it. */
  lemma OpeningIff(cnt: TokenCount, lines: seq<string>, a: nat)
    requires a < |lines|
    ensures var s, fenced := ScanTo(cnt, lines, a), FenceRun(NO_FENCE, lines[..a + 1]).inside;
            && (TableStartsAt(cnt, lines, a) <==>
                  TableOpens(lines[a]) && !fenced && !s.table.inside && !(s.pipe.inside && IsPipeRow(lines[a])))
            && (PipeStartsAt(cnt, lines, a) <==>
                  IsPipeRow(lines[a]) && !fenced && !s.table.inside && !s.pipe.inside)
            && (OpensRegion(s, lines[a]) <==> TableStartsAt(cnt, lines, a) || PipeStartsAt(cnt, lines, a))
  {
    hide ScanTo, QuoteDepth, TableOpens, IsPipeRow, FenceStep, FenceRun;
    ScanFence(cnt, lines, a);
    FenceRunSnoc(NO_FENCE, lines, a);
  }

  /** Which lines are never cut off from the line before or kept together with it for being in no region. */
  lemma AtomicIff(cnt: TokenCount, lines: seq<string>, p: nat)
    requires p < |lines|
    ensures Atomic(ScanTo(cnt, lines, p), lines[p]) <==>
            || IsFence(lines[p]) || FenceRun(NO_FENCE, lines[..p + 1]).inside
            || TableStartsAt(cnt, lines, p) || TableContinues(cnt, lines, p)
            || PipeStartsAt(cnt, lines, p) || PipeContinues(cnt, lines, p)
  {
    hide ScanTo, QuoteDepth, TableOpens, IsPipeRow, FenceStep, FenceRun;
    ScanFence(cnt, lines, p);
    FenceRunSnoc(NO_FENCE, lines, p);
  }
}

/** The tests `chunker.ts` puts to a single line, written on characters. */
module Lines {
  import opened Text

  /** What `\s*` leaves behind is `TrimStart`; one quote level is white space and a `>`. */
  predicate Quoted(line: string) {
    var t := TrimStart(line);
    t != [] && t[0] == '>'
  }

  /** The line after its longest run of quote levels. */
  function Unquoted(line: string): string
    decreases |line|
  {
    TrimStartShrinks(line);
    if Quoted(line) then Unquoted(TrimStart(line)[1..]) else line
  }

  function QuoteDepth(line: string): nat
    decreases |line|
  {
    TrimStartShrinks(line);
    if Quoted(line) then 1 + QuoteDepth(TrimStart(line)[1..]) else 0
  }

  const BACKTICKS: string := "```"

  /** A fence marker: any number of quote levels, white space, three backticks. */
  predicate IsFence(line: string) {
    BACKTICKS <= TrimStart(Unquoted(line))
  }

  /** A pipe-table row: the first character that is not white space is a pipe. */
  predicate IsPipeRow(line: string) {
    var t := TrimStart(line);
    t != [] && t[0] == '|'
  }

  function LowerAscii(c: char): char {
    if 'A' <= c <= 'Z' then ((c as int) + 32) as char else c
  }

  /** Case-insensitive match of an ASCII pattern at one position. */
  predicate MatchesAt(s: string, i: nat, pattern: string) {
    i + |pattern| <= |s| && forall k | 0 <= k < |pattern| :: LowerAscii(s[i + k]) == pattern[k]
  }

  const OPEN_TAG: string := "<table"
  const CLOSE_TAG: string := "</table>"

  /** `<table` followed by white space or `>`, anywhere in the line. */
  predicate TableOpens(line: string) {
    exists i: nat | i < |line| ::
      MatchesAt(line, i, OPEN_TAG) && i + 6 < |line| && (IsWhite(line[i + 6]) || line[i + 6] == '>')
  }

  predicate TableCloses(line: string) {
    exists i: nat | i < |line| :: MatchesAt(line, i, CLOSE_TAG)
  }

  /** What `.` does not match. */
  predicate IsLineTerminator(c: char) {
    c == '\n' || c == '\r' || c == '\U{2028}' || c == '\U{2029}'
  }

  /** The last position from 1 on that `.` can match. */
  function LastDot(s: string, k: nat): (r: Option<nat>)
    requires k < |s|
    ensures r.Some? ==> 1 <= r.value <= k && !IsLineTerminator(s[r.value])
    ensures forall i | (if r.Some? then r.value else 0) < i <= k :: IsLineTerminator(s[i])
  {
    if k == 0 then None
    else if IsLineTerminator(s[k]) then LastDot(s, k - 1)
    else Some(k)
  }

  /** The capture of `\s+(.+?)\s*$` on what follows the hashes. White space gives back as little as
      it can: the title is the trimmed rest, or, when nothing else is left, one white character. */
  function TitleOf(rest: string): Option<string> {
    if rest == [] || !IsWhite(rest[0]) then None
    else if !Blank(rest) then
      var title := Trim(rest);
      if exists i | 0 <= i < |title| :: IsLineTerminator(title[i]) then None else Some(title)
    else
      match LastDot(rest, |rest| - 1)
      case None => None
      case Some(k) => Some([rest[k]])
  }

  const PAGE_MARK: string := "###"
  const SECTION_MARK: string := "####"

  function PageTitle(line: string): Option<string> {
    if PAGE_MARK <= line then TitleOf(line[3..]) else None
  }

  function SectionTitle(line: string): Option<string> {
    if SECTION_MARK <= line then TitleOf(line[4..]) else None
  }

  predicate IsHeading(line: string) {
    PageTitle(line).Some? || SectionTitle(line).Some?
  }

  /** No line is both a fence marker and a pipe-table row, so the two kinds of region cannot both
      claim one. */
  lemma FenceIsNeverPipeRow(line: string)
    ensures !(IsFence(line) && IsPipeRow(line))
  {
    if IsPipeRow(line) {
      assert !Quoted(line) && Unquoted(line) == line;
      assert BACKTICKS[0] != '|';
    }
  }

  /** A heading starts in the first column with `#`: it is never quoted, never a fence marker. */
  lemma HeadingShape(line: string)
    requires IsHeading(line)
    ensures !IsFence(line) && QuoteDepth(line) == 0
    ensures !(PageTitle(line).Some? && SectionTitle(line).Some?)
  {
    assert line[0] == '#' && !IsWhite('#');
    assert TrimStart(line) == line && Unquoted(line) == line;
    assert BACKTICKS[0] != '#';
    if PageTitle(line).Some? {
      assert line[3..][0] == line[3] != SECTION_MARK[3];
    }
  }

  lemma BlankIsNoFence(line: string)
    requires Blank(line)
    ensures !IsFence(line)
  {
    var k := TrimStartShape(line);
    assert k == |line|;
    assert TrimStart(line) == [] && !Quoted(line) && Unquoted(line) == line;
    assert |BACKTICKS| == 3;
  }

  // ------------------------------------------------- the tests, by the line's shape

  /** A line is blank, or some white space, a character that is not, and a rest. Each quote mark is one level and
      leaves the rest to be looked at; any other character ends the quote and decides. */
  lemma LineShape(w: string, c: char, rest: string)
    requires Blank(w) && !IsWhite(c)
    ensures QuoteDepth(w) == 0 && !IsFence(w) && !IsPipeRow(w)
    ensures QuoteDepth(w + ([c] + rest)) == if c == '>' then 1 + QuoteDepth(rest) else 0
    ensures IsFence(w + ([c] + rest)) <==> if c == '>' then IsFence(rest) else BACKTICKS <= [c] + rest
    ensures IsPipeRow(w + ([c] + rest)) <==> c == '|'
  {
    var line := w + ([c] + rest);
    TrimStartPast(w, []);
    assert w + [] == w && TrimStart([]) == [];
    TrimStartPast(w, [c] + rest);
    assert TrimStart(line) == [c] + rest && ([c] + rest)[1..] == rest;
    if c != '>' { assert Unquoted(line) == line; }
    BlankIsNoFence(w);
  }

  /** Titles are read back: hashes, white space, a title that is trimmed and in one line, white space. */
  lemma TitlesReadBack(gap: string, title: string, tail: string)
    requires gap != [] && Blank(gap) && Blank(tail) && title != []
    requires !IsWhite(title[0]) && !IsWhite(title[|title| - 1])
    requires forall i | 0 <= i < |title| :: !IsLineTerminator(title[i])
    ensures PageTitle("###" + (gap + title + tail)) == Some(title) && SectionTitle("###" + (gap + title + tail)).None?
    ensures SectionTitle("####" + (gap + title + tail)) == Some(title) && PageTitle("####" + (gap + title + tail)).None?
  {
    var rest := gap + title + tail;
    TrimUnique(gap, title, tail);
    assert rest[0] == gap[0] && rest[|gap|] == title[0];
    assert !Blank(rest);
    var page, section := "###" + rest, "####" + rest;
    assert page[3..] == rest && section[4..] == rest && section[3] == '#' && page[3] == rest[0];
    assert SECTION_MARK[3] == '#';
    assert section[3..][0] == '#';
    assert PAGE_MARK <= section && SECTION_MARK <= section && PAGE_MARK <= page;
  }

  /** Without white space behind the hashes there is no title. */
  lemma NoTitle(c: char, rest: string)
    requires !IsWhite(c) && c != '#'
    ensures !IsHeading("###" + ([c] + rest)) && !IsHeading("####" + ([c] + rest))
  {
    var page, section := "###" + ([c] + rest), "####" + ([c] + rest);
    assert page[3..][0] == c && section[4..][0] == c && section[3..][0] == '#' && page[3] == c;
    assert SECTION_MARK[3] == '#';
  }

  /** The text is this tag, in whatever case. */
  predicate InAnyCase(s: string, tag: string) {
    && |s| == |tag|
    && forall k | 0 <= k < |s| :: s[k] == tag[k] || ('A' <= s[k] <= 'Z' && s[k] as int + 32 == tag[k] as int)
  }

  lemma TagMatches(a: string, s: string, b: string, tag: string)
    requires InAnyCase(s, tag) && forall k | 0 <= k < |tag| :: !('A' <= tag[k] <= 'Z')
    ensures MatchesAt(a + (s + b), |a|, tag)
  {
    forall k | 0 <= k < |tag|
      ensures LowerAscii((a + (s + b))[|a| + k]) == tag[k]
    {
      assert (a + (s + b))[|a| + k] == s[k];
    }
  }

  /** Tags are found anywhere in the line and in any case; without an angle bracket there is none. */
  lemma TagsAnywhere(a: string, open: string, close: string, c: char, b: string)
    requires InAnyCase(open, "<table") && InAnyCase(close, "</table>") && (IsWhite(c) || c == '>')
    ensures TableOpens(a + (open + ([c] + b))) && TableCloses(a + (close + b))
    ensures '<' !in a ==> !TableOpens(a) && !TableCloses(a)
  {
    TagMatches(a, open, [c] + b, OPEN_TAG);
    TagMatches(a, close, b, CLOSE_TAG);
    FoundAt(a + (open + ([c] + b)), a + (close + b), |a|, c);
    if '<' !in a { NoTagWithout(a); }
  }

  lemma FoundAt(line: string, other: string, i: nat, c: char)
    requires IsWhite(c) || c == '>'
    ensures i + 6 < |line| && line[i + 6] == c && MatchesAt(line, i, OPEN_TAG) ==> TableOpens(line)
    ensures MatchesAt(other, i, CLOSE_TAG) ==> TableCloses(other)
  {
  }

  lemma NoTagWithout(line: string)
    requires '<' !in line
    ensures !TableOpens(line) && !TableCloses(line)
  {
    forall i: nat | i < |line|
      ensures !MatchesAt(line, i, OPEN_TAG) && !MatchesAt(line, i, CLOSE_TAG)
    {
      assert line[i + 0] != '<' && OPEN_TAG[0] == '<' && CLOSE_TAG[0] == '<';
    }
  }

  /** Hashes with nothing but white space behind them: the title is the last of the characters but the first that
      ends no line. A title that is more than one line is none. */
  lemma OddTitles(rest: string)
    ensures Blank(rest) && |rest| > 1 && !IsLineTerminator(rest[|rest| - 1]) ==>
              TitleOf(rest) == Some([rest[|rest| - 1]])
    ensures |rest| < 2 && Blank(rest) ==> TitleOf(rest).None?
    ensures Blank(rest) && (forall i | 0 < i < |rest| :: IsLineTerminator(rest[i])) ==> TitleOf(rest).None?
    ensures !Blank(rest) && (exists i | 0 <= i < |Trim(rest)| :: IsLineTerminator(Trim(rest)[i])) ==>
              TitleOf(rest).None?
  {
    hide Trim;
    if Blank(rest) && rest != [] {
      var last := LastDot(rest, |rest| - 1);
      assert IsWhite(rest[0]);
    }
  }
}

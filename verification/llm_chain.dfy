/** `parseLlmChain`: a comma-separated list of provider:model links. */
module LlmChain {
  import opened Text

  datatype ChainLink = ChainLink(provider: string, model: string)

  datatype ChainError =
    | NoLink
    | EmptyLink
    | Malformed(entry: string)
    | UnknownProvider(provider: string)
    | Repeated(pair: string)

  predicate Supported(provider: string) {
    provider == "openai" || provider == "openrouter"
  }

  /** `indexOf(':')`. */
  function FirstColon(s: string): (i: int)
    ensures -1 <= i < |s|
    ensures i == -1 <==> ':' !in s
    ensures i >= 0 ==> s[i] == ':' && ':' !in s[..i]
  {
    if s == [] then -1
    else if s[0] == ':' then 0
    else
      var i := FirstColon(s[1..]);
      assert s == [s[0]] + s[1..];
      assert i >= 0 ==> s[..i + 1] == [s[0]] + s[1..][..i];
      if i == -1 then -1 else i + 1
  }

  function LinkOf(entry: string): Result<ChainLink, ChainError> {
    var separator := FirstColon(entry);
    if separator == -1 then Err(Malformed(entry))
    else
      var provider, model := Trim(entry[..separator]), Trim(entry[separator + 1..]);
      if provider == "" || model == "" then Err(Malformed(entry))
      else if !Supported(provider) then Err(UnknownProvider(provider))
      else Ok(ChainLink(provider, model))
  }

  /** `map` stops at the first entry that throws. */
  function LinksOf(entries: seq<string>): Result<seq<ChainLink>, ChainError> {
    if entries == [] then Ok([])
    else Extended(LinksOf(entries[..|entries| - 1]), LinkOf(entries[|entries| - 1]))
  }

  function Extended(links: Result<seq<ChainLink>, ChainError>, link: Result<ChainLink, ChainError>)
    : Result<seq<ChainLink>, ChainError>
  {
    if links.Err? then links else if link.Err? then Err(link.error) else Ok(links.value + [link.value])
  }

  function Pair(link: ChainLink): string {
    link.provider + ":" + link.model
  }

  function PairsOf(links: seq<ChainLink>): set<string> {
    set i | 0 <= i < |links| :: Pair(links[i])
  }

  /** The first link whose pair has come before. */
  function FirstRepeat(links: seq<ChainLink>): Option<ChainLink> {
    if links == [] then None
    else
      var before, last := links[..|links| - 1], links[|links| - 1];
      if FirstRepeat(before).Some? then FirstRepeat(before)
      else if Pair(last) in PairsOf(before) then Some(last)
      else None
  }

  function Trimmed(segments: seq<string>): (r: seq<string>)
    ensures |r| == |segments| && forall i | 0 <= i < |r| :: r[i] == Trim(segments[i])
  {
    seq(|segments|, i requires 0 <= i < |segments| => Trim(segments[i]))
  }

  function Parse(raw: string): Result<seq<ChainLink>, ChainError> {
    var entries := Trimmed(Split(raw, ','));
    if forall i | 0 <= i < |entries| :: entries[i] == "" then Err(NoLink)
    else if exists i :: 0 <= i < |entries| && entries[i] == "" then Err(EmptyLink)
    else
      match LinksOf(entries)
      case Err(e) => Err(e)
      case Ok(links) =>
        if FirstRepeat(links).Some? then Err(Repeated(Pair(FirstRepeat(links).value))) else Ok(links)
  }

  method ParseLlmChain(raw: string) returns (r: Result<seq<ChainLink>, ChainError>)
    ensures r == Parse(raw)
  {
    var entries := Trimmed(Split(raw, ','));
    if forall i | 0 <= i < |entries| :: entries[i] == "" {
      return Err(NoLink);
    }
    if exists i :: 0 <= i < |entries| && entries[i] == "" {
      return Err(EmptyLink);
    }
    var parsed := LinksOf(entries);
    if parsed.Err? {
      return Err(parsed.error);
    }
    var links := parsed.value;
    var seen: set<string> := {};
    assert seen == PairsOf(links[..0]) && FirstRepeat(links[..0]).None?;
    hide LinksOf, LinkOf, Trimmed, Pair, Split, Trim, FirstRepeat, PairsOf;
    for i := 0 to |links|
      invariant seen == PairsOf(links[..i]) && FirstRepeat(links[..i]).None?
    {
      RepeatNext(links, i);
      var pair := Pair(links[i]);
      if pair in seen {
        RepeatStays(links, i + 1);
        return Err(Repeated(pair));
      }
      seen := seen + {pair};
    }
    assert links[..|links|] == links;
    return Ok(links);
  }

  lemma RepeatNext(links: seq<ChainLink>, i: nat)
    requires i < |links| && FirstRepeat(links[..i]).None?
    ensures FirstRepeat(links[..i + 1]) == if Pair(links[i]) in PairsOf(links[..i]) then Some(links[i]) else None
    ensures PairsOf(links[..i + 1]) == PairsOf(links[..i]) + {Pair(links[i])}
  {
    var before := links[..i];
    assert links[..i + 1] == before + [links[i]] && links[..i + 1][..i] == before;
    hide Pair;
  }

  lemma {:induction false} RepeatStays(links: seq<ChainLink>, k: nat)
    requires k <= |links| && FirstRepeat(links[..k]).Some?
    ensures FirstRepeat(links) == FirstRepeat(links[..k])
  {
    if k < |links| {
      assert links[..|links| - 1][..k] == links[..k];
      RepeatStays(links[..|links| - 1], k);
    } else {
      assert links[..k] == links;
    }
  }

  // ------------------------------------------------------ what is accepted

  predicate ValidLink(l: ChainLink) {
    Supported(l.provider) && l.model != "" && Trim(l.model) == l.model
  }

  predicate ValidChain(links: seq<ChainLink>) {
    && links != []
    && (forall i | 0 <= i < |links| :: ValidLink(links[i]))
    && (forall i, j | 0 <= i < j < |links| :: links[i] != links[j])
  }

  /** A text that says provider:model, with any white space around either. */
  ghost predicate Says(segment: string, l: ChainLink) {
    exists a, b, c, d :: Spaced(segment, a, b, c, d, l)
  }

  predicate Spaced(segment: string, a: string, b: string, c: string, d: string, l: ChainLink) {
    && Blank(a) && Blank(b) && Blank(c) && Blank(d)
    && segment == a + l.provider + b + ":" + c + l.model + d
  }

  lemma TrimEnds(s: string)
    ensures Trim(s) != "" ==> !IsWhite(Trim(s)[0]) && !IsWhite(Trim(s)[|Trim(s)| - 1])
    ensures Trim(Trim(s)) == Trim(s)
  {
    var lo, hi := TrimShape(s);
    TrimUnique([], Trim(s), []);
    assert [] + Trim(s) + [] == Trim(s);
  }

  lemma BlankHasNoColon(s: string)
    requires Blank(s)
    ensures ':' !in s
  {
  }

  lemma {:induction false} FirstColonAt(p: string, m: string)
    requires ':' !in p
    ensures FirstColon(p + ":" + m) == |p|
  {
    var s := p + ":" + m;
    if p != [] {
      assert s[1..] == p[1..] + ":" + m;
      FirstColonAt(p[1..], m);
    }
  }

  /** An entry of a segment reads as this link exactly when the link is a valid one and the segment says it. */
  lemma LinkOfSegment(segment: string, l: ChainLink)
    ensures LinkOf(Trim(segment)) == Ok(l) <==> ValidLink(l) && Says(segment, l)
  {
    if LinkOf(Trim(segment)) == Ok(l) {
      SegmentSays(segment, l);
    }
    if ValidLink(l) && Says(segment, l) {
      var a, b, c, d :| Spaced(segment, a, b, c, d, l);
      SaidIsRead(segment, a, b, c, d, l);
    }
  }

  lemma Regroup(u: string, a: string, p: string, b: string, c: string, m: string, d: string, v: string)
    ensures u + ((a + p + b) + ":" + (c + m + d)) + v == (u + a) + p + b + ":" + c + m + (d + v)
  {
  }

  /** Trimming leaves blank margins. */
  lemma TrimMargins(s: string) returns (a: string, b: string)
    ensures s == a + Trim(s) + b && Blank(a) && Blank(b)
  {
    var lo, hi := TrimShape(s);
    a, b := s[..lo], s[hi..];
  }

  lemma SegmentSays(segment: string, l: ChainLink)
    requires LinkOf(Trim(segment)) == Ok(l)
    ensures ValidLink(l) && Says(segment, l)
  {
    var entry := Trim(segment);
    var separator := FirstColon(entry);
    var p, m := entry[..separator], entry[separator + 1..];
    assert entry == p + ":" + m;
    var u, v := TrimMargins(segment);
    var a, b := TrimMargins(p);
    var c, d := TrimMargins(m);
    TrimEnds(m);
    assert Blank(u + a) && Blank(d + v);
    hide Blank, FirstColon, Trim;
    Regroup(u, a, l.provider, b, c, l.model, d, v);
    assert Spaced(segment, u + a, b, c, d + v, l);
  }

  lemma Cut(p: string, m: string)
    ensures (p + ":" + m)[..|p|] == p && (p + ":" + m)[|p| + 1..] == m
  {
  }

  lemma LinkOfParts(p: string, m: string, l: ChainLink)
    requires ':' !in p && Trim(p) == l.provider && Trim(m) == l.model && ValidLink(l)
    ensures LinkOf(p + ":" + m) == Ok(l)
  {
    hide Trim, FirstColon;
    FirstColonAt(p, m);
    Cut(p, m);
  }

  lemma SaidIsRead(segment: string, a: string, b: string, c: string, d: string, l: ChainLink)
    requires ValidLink(l) && Spaced(segment, a, b, c, d, l)
    ensures LinkOf(Trim(segment)) == Ok(l)
  {
    hide FirstColon, Trim, IsWhite, LinkOf;
    TrimEnds(l.model);
    BlankHasNoColon(b);
    SpacedEnds(segment, a, b, c, d, l);
    BlankNothing();
    ProviderEnds(l);
    TrimUnique([], l.provider, b);
    TrimUnique(c, l.model, []);
    hide Blank;
    assert [] + l.provider + b == l.provider + b && c + l.model + [] == c + l.model;
    LinkOfParts(l.provider + b, c + l.model, l);
  }

  lemma BlankNothing()
    ensures Blank([])
  {
  }

  lemma ProviderEnds(l: ChainLink)
    requires ValidLink(l)
    ensures l.provider != [] && !IsWhite(l.provider[0]) && !IsWhite(l.provider[|l.provider| - 1]) && ':' !in l.provider
  {
    hide Trim;
  }

  lemma SpacedEnds(segment: string, a: string, b: string, c: string, d: string, l: ChainLink)
    requires ValidLink(l) && Spaced(segment, a, b, c, d, l)
    ensures Trim(segment) == (l.provider + b) + ":" + (c + l.model)
  {
    TrimEnds(l.model);
    hide Trim;
    var entry := (l.provider + b) + ":" + (c + l.model);
    assert segment == a + entry + d;
    assert entry[|entry| - 1] == l.model[|l.model| - 1];
    assert entry[0] == l.provider[0] == 'o';
    TrimUnique(a, entry, d);
  }

  /** Each segment says the valid link at its place. */
  ghost predicate Read(segments: seq<string>, links: seq<ChainLink>) {
    |links| == |segments| && forall i | 0 <= i < |links| :: ValidLink(links[i]) && Says(segments[i], links[i])
  }

  lemma ReadParts(segments: seq<string>, links: seq<ChainLink>, n: nat)
    requires |links| == |segments| == n + 1
    ensures Read(segments, links) <==>
            Read(segments[..n], links[..n]) && ValidLink(links[n]) && Says(segments[n], links[n])
  {
    hide ValidLink, Says;
  }

  lemma LinksOfLast(segments: seq<string>, n: nat)
    requires |segments| == n + 1
    ensures LinksOf(Trimmed(segments)) == Extended(LinksOf(Trimmed(segments[..n])), LinkOf(Trim(segments[n])))
  {
    assert Trimmed(segments)[..n] == Trimmed(segments[..n]);
    hide LinkOf, Trim;
  }

  lemma {:induction false} LinksOfSegments(segments: seq<string>, links: seq<ChainLink>)
    ensures LinksOf(Trimmed(segments)) == Ok(links) <==> Read(segments, links)
  {
    if segments == [] {
      assert Trimmed(segments) == [];
      return;
    }
    var n := |segments| - 1;
    LinksOfLast(segments, n);
    hide LinkOf, LinksOf, Trim, Trimmed;
    if |links| == n + 1 {
      LinksOfSegments(segments[..n], links[..n]);
      LinkOfSegment(segments[n], links[n]);
      ReadParts(segments, links, n);
      hide Read, Says, ValidLink;
      assert links == links[..n] + [links[n]];
    } else {
      var before := LinksOf(Trimmed(segments[..n]));
      if before.Ok? { LinksOfSegments(segments[..n], before.value); }
    }
  }

  lemma PairsDiffer(a: ChainLink, b: ChainLink)
    requires ValidLink(a) && ValidLink(b)
    ensures Pair(a) == Pair(b) <==> a == b
  {
    FirstColonAt(a.provider, a.model);
    FirstColonAt(b.provider, b.model);
    hide FirstColon, Trim;
    Cut(a.provider, a.model);
    Cut(b.provider, b.model);
  }

  lemma {:induction false} NoRepeatIffDistinct(links: seq<ChainLink>)
    requires forall i | 0 <= i < |links| :: ValidLink(links[i])
    ensures FirstRepeat(links).None? <==> forall i, j | 0 <= i < j < |links| :: links[i] != links[j]
  {
    if links != [] {
      var before, last := links[..|links| - 1], links[|links| - 1];
      assert forall i | 0 <= i < |before| :: before[i] == links[i];
      NoRepeatIffDistinct(before);
      forall i | 0 <= i < |before|
        ensures Pair(before[i]) == Pair(last) <==> before[i] == last
      {
        PairsDiffer(before[i], last);
      }
      hide Pair, ValidLink;
      assert Pair(last) in PairsOf(before) <==> exists i :: 0 <= i < |before| && before[i] == last;
    }
  }

  lemma ParseCases(raw: string, links: seq<ChainLink>)
    ensures var segments := Split(raw, ',');
            Parse(raw) == Ok(links) <==>
              && (forall i | 0 <= i < |segments| :: Trim(segments[i]) != "")
              && LinksOf(Trimmed(segments)) == Ok(links)
              && FirstRepeat(links).None?
  {
    var segments := Split(raw, ',');
    assert |segments| >= 1;
    hide Split, Trim, LinksOf, FirstRepeat;
    var entries := Trimmed(segments);
    assert forall i | 0 <= i < |segments| :: entries[i] == Trim(segments[i]);
  }

  lemma ReadIsValid(segments: seq<string>, links: seq<ChainLink>)
    requires Read(segments, links) && segments != []
    ensures FirstRepeat(links).None? <==> ValidChain(links)
  {
    hide Says, FirstRepeat, ValidLink;
    NoRepeatIffDistinct(links);
  }

  /** What is accepted, and as what: exactly the comma-separated texts whose every segment says a valid link,
      all of them different. */
  lemma ParseIff(raw: string, links: seq<ChainLink>)
    ensures Parse(raw) == Ok(links) <==> ValidChain(links) && Read(Split(raw, ','), links)
  {
    hide Parse, Split, Trim, Trimmed, LinksOf, FirstRepeat, ValidChain, Read;
    ParseCases(raw, links);
    LinksOfSegments(Split(raw, ','), links);
    if Read(Split(raw, ','), links) {
      ReadIsNotEmpty(Split(raw, ','), links);
      ReadIsValid(Split(raw, ','), links);
    }
  }

  lemma ReadIsNotEmpty(segments: seq<string>, links: seq<ChainLink>)
    requires Read(segments, links)
    ensures forall i | 0 <= i < |segments| :: Trim(segments[i]) != ""
  {
    hide Says, ValidLink, Trim;
    forall i | 0 <= i < |segments|
      ensures Trim(segments[i]) != ""
    {
      LinkOfSegment(segments[i], links[i]);
    }
  }

  function Shown(links: seq<ChainLink>): seq<string> {
    seq(|links|, i requires 0 <= i < |links| => Pair(links[i]))
  }

  function Render(links: seq<ChainLink>): string {
    Join(Shown(links), ",")
  }

  predicate CommaFree(links: seq<ChainLink>) {
    forall i | 0 <= i < |links| :: ',' !in links[i].model
  }

  /** Rendering any valid list and parsing it gives the list back, colons in model names included. */
  lemma RoundTrip(links: seq<ChainLink>)
    requires ValidChain(links) && CommaFree(links)
    ensures Parse(Render(links)) == Ok(links)
  {
    var shown := Shown(links);
    forall i | 0 <= i < |links|
      ensures ',' !in shown[i] && Says(shown[i], links[i])
    {
      assert ValidLink(links[i]) && shown[i] == Pair(links[i]);
      assert Spaced(shown[i], [], [], [], [], links[i]);
    }
    hide Says, Pair, ValidLink;
    assert Read(shown, links);
    hide Read, Shown, ValidChain;
    SplitJoin(shown, ',');
    ParseIff(Render(links), links);
  }

  lemma ModelHasNoComma(segment: string, l: ChainLink)
    requires Says(segment, l) && ',' !in segment
    ensures ',' !in l.model
  {
    var a, b, c, d :| Spaced(segment, a, b, c, d, l);
    var before := a + l.provider + b + ":" + c;
    assert segment == before + l.model + d;
    assert forall k | 0 <= k < |l.model| :: segment[|before| + k] == l.model[k];
  }

  /** Whatever is accepted, its rendering is accepted as the same chain. */
  lemma RenderIsFixedPoint(raw: string, links: seq<ChainLink>)
    requires Parse(raw) == Ok(links)
    ensures Parse(Render(links)) == Ok(links)
  {
    hide Parse, Render, Says, ValidChain, Split;
    ParseIff(raw, links);
    forall i | 0 <= i < |links|
      ensures ',' !in links[i].model
    {
      ModelHasNoComma(Split(raw, ',')[i], links[i]);
    }
    RoundTrip(links);
  }

  // ------------------------------------------------------------- the errors

  /** What one entry comes to, by the text before and behind its first colon. */
  lemma EntryReads(before: string, behind: string)
    requires ':' !in before
    ensures var entry := before + ":" + behind;
            LinkOf(entry) ==
              if Blank(before) || Blank(behind) then Err(Malformed(entry))
              else if Trim(before) != "openai" && Trim(before) != "openrouter" then Err(UnknownProvider(Trim(before)))
              else Ok(ChainLink(Trim(before), Trim(behind)))
    ensures LinkOf(before) == Err(Malformed(before))
  {
    FirstColonAt(before, behind);
    Cut(before, behind);
    TrimEmptyIffBlank(before);
    TrimEmptyIffBlank(behind);
    hide Trim;
  }

  /** Entry i is the first that is no link, and this is what is wrong with it. */
  predicate FirstFault(entries: seq<string>, i: nat, e: ChainError) {
    i < |entries| && LinkOf(entries[i]) == Err(e) && forall j | 0 <= j < i :: LinkOf(entries[j]).Ok?
  }

  lemma {:induction false} FaultsOf(entries: seq<string>, e: ChainError)
    ensures LinksOf(entries) == Err(e) <==> exists i: nat :: FirstFault(entries, i, e)
    ensures LinksOf(entries).Ok? <==> forall i | 0 <= i < |entries| :: LinkOf(entries[i]).Ok?
    ensures LinksOf(entries).Ok? ==>
              |LinksOf(entries).value| == |entries|
              && forall i | 0 <= i < |entries| :: LinkOf(entries[i]) == Ok(LinksOf(entries).value[i])
  {
    hide LinkOf;
    if entries != [] {
      var n := |entries| - 1;
      var before := entries[..n];
      FaultsOf(before, e);
      forall i: nat
        ensures i < n ==> (FirstFault(entries, i, e) <==> FirstFault(before, i, e))
      {
      }
      if LinksOf(entries) == Err(e) && LinksOf(before).Ok? {
        assert FirstFault(entries, n, e);
      }
      if LinksOf(before).Err? {
        FaultsOf(before, LinksOf(before).error);
      }
    }
  }

  /** Link i is the first whose provider and model have come before. */
  predicate FirstRepeatAt(links: seq<ChainLink>, i: nat) {
    && i < |links|
    && (exists j :: 0 <= j < i && Pair(links[j]) == Pair(links[i]))
    && forall k | 0 <= k < i :: forall j | 0 <= j < k :: Pair(links[j]) != Pair(links[k])
  }

  lemma {:induction false} RepeatsOf(links: seq<ChainLink>) returns (i: nat)
    ensures FirstRepeat(links).Some? ==> FirstRepeatAt(links, i) && FirstRepeat(links) == Some(links[i])
    ensures FirstRepeat(links).None? ==>
              forall k | 0 <= k < |links| :: forall j | 0 <= j < k :: Pair(links[j]) != Pair(links[k])
  {
    hide Pair;
    i := 0;
    if links != [] {
      var n := |links| - 1;
      i := RepeatsOf(links[..n]);
      assert forall k | 0 <= k < n :: links[..n][k] == links[k];
      if FirstRepeat(links[..n]).None? {
        i := n;
      }
    }
  }

  predicate AllBlank(segments: seq<string>) {
    forall k | 0 <= k < |segments| :: Blank(segments[k])
  }

  predicate SomeBlank(segments: seq<string>) {
    exists k :: 0 <= k < |segments| && Blank(segments[k])
  }

  lemma BlankEntries(segments: seq<string>)
    ensures AllBlank(segments) <==> forall i | 0 <= i < |Trimmed(segments)| :: Trimmed(segments)[i] == ""
    ensures SomeBlank(segments) <==> exists i :: 0 <= i < |Trimmed(segments)| && Trimmed(segments)[i] == ""
  {
    hide Blank, Trim;
    var entries := Trimmed(segments);
    forall k | 0 <= k < |segments|
      ensures entries[k] == "" <==> Blank(segments[k])
    {
      TrimEmptyIffBlank(segments[k]);
    }
  }

  /** Which error is reported for which text: no link at all, then an empty one among others, then the first entry
      that is none, then the first that repeats an earlier one. */
  lemma ErrorIs(raw: string) returns (i: nat)
    requires Parse(raw).Err?
    ensures var segments, e := Split(raw, ','), Parse(raw).error;
            var entries := Trimmed(segments);
            if AllBlank(segments) then e == NoLink
            else if SomeBlank(segments) then e == EmptyLink
            else if exists k :: 0 <= k < |entries| && LinkOf(entries[k]).Err? then FirstFault(entries, i, e)
            else
              exists links: seq<ChainLink> ::
                |links| == |entries| && (forall k | 0 <= k < |entries| :: LinkOf(entries[k]) == Ok(links[k]))
                && FirstRepeatAt(links, i) && e == Repeated(links[i].provider + ":" + links[i].model)
  {
    hide LinksOf, LinkOf, FirstRepeat, FirstRepeatAt, FirstFault, Split, AllBlank, SomeBlank, Trimmed;
    i := 0;
    var segments, e := Split(raw, ','), Parse(raw).error;
    var entries := Trimmed(segments);
    BlankEntries(segments);
    if AllBlank(segments) || SomeBlank(segments) {
      return;
    }
    FaultsOf(entries, e);
    if LinksOf(entries).Err? {
      i :| FirstFault(entries, i, e);
    } else {
      i := RepeatsOf(LinksOf(entries).value);
    }
  }
}

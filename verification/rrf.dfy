/** `fuseByRrf`: reciprocal rank fusion, score(chunk) = sum of 1 / (k + rank), over exact reals. */
module Rrf {
  import opened Text
  import opened StableSort

  datatype RankedChunk = RankedChunk(chunkId: string, documentPath: string, headingPath: seq<string>, content: string)

  datatype RetrievedChunk = RetrievedChunk(payload: RankedChunk, score: real)

  type Arm = seq<RankedChunk>

  /** A chunk and the rank one arm gave it. */
  datatype Placing = Placing(chunk: RankedChunk, rank: nat)

  // -------------------------------------------------- what the loops gather

  function Ranked(arm: Arm): seq<Placing> {
    seq(|arm|, i requires 0 <= i < |arm| => Placing(arm[i], i + 1))
  }

  function Placings(arms: seq<Arm>): seq<Placing> {
    if arms == [] then [] else Placings(arms[..|arms| - 1]) + Ranked(arms[|arms| - 1])
  }

  function Share(k: nat, rank: nat): real {
    if k + rank == 0 then 0.0 else 1.0 / ((k + rank) as real)
  }

  /** The exact sum of the shares of one id. */
  function Score(ps: seq<Placing>, k: nat, id: string): real {
    if ps == [] then 0.0
    else
      var last := ps[|ps| - 1];
      Score(ps[..|ps| - 1], k, id) + if last.chunk.chunkId == id then Share(k, last.rank) else 0.0
  }

  /** The ids in the order of their first appearance. */
  function Ids(ps: seq<Placing>): seq<string> {
    if ps == [] then []
    else
      var before, id := Ids(ps[..|ps| - 1]), ps[|ps| - 1].chunk.chunkId;
      if id in before then before else before + [id]
  }

  /** The chunk of the first placing under this id. */
  function Payload(ps: seq<Placing>, id: string): RankedChunk
    requires id in Ids(ps)
  {
    var before := ps[..|ps| - 1];
    if id in Ids(before) then Payload(before, id) else ps[|ps| - 1].chunk
  }

  function Table(ps: seq<Placing>, k: nat): seq<RetrievedChunk> {
    var ids := Ids(ps);
    seq(|ids|, i requires 0 <= i < |ids| => RetrievedChunk(Payload(ps, ids[i]), Score(ps, k, ids[i])))
  }

  // ------------------------------------------------------- the stable sort

  /** `(a, b) => b.score - a.score` does not put a after b. */
  predicate NotBelow(a: RetrievedChunk, b: RetrievedChunk) {
    a.score >= b.score
  }

  function Fuse(arms: seq<Arm>, k: nat): seq<RetrievedChunk> {
    Sort(Table(Placings(arms), k), NotBelow)
  }

  // ------------------------------------------------------------ the method

  method FuseByRrf(arms: seq<Arm>, k: nat) returns (fused: seq<RetrievedChunk>)
    requires k > 0
    ensures fused == Fuse(arms, k)
  {
    var keys: seq<string> := [];
    var scores: map<string, real> := map[];
    var payloads: map<string, RankedChunk> := map[];
    GatherNone(k);
    assert arms[..0] == [];
    hide Gathered, Placings, Table, Sort;
    for a := 0 to |arms|
      invariant Gathered(Placings(arms[..a]), k, keys, scores, payloads)
    {
      PlacingsNext(arms, a);
      keys, scores, payloads := AddArm(arms[a], k, keys, scores, payloads, Placings(arms[..a]));
    }
    assert arms[..|arms|] == arms;
    TableIs(Placings(arms), k, keys, scores, payloads);
    fused := [];
    for i := 0 to |keys|
      invariant fused == Table(Placings(arms), k)[..i]
    {
      fused := fused + [RetrievedChunk(payloads[keys[i]], scores[keys[i]])];
    }
    fused := Sort(fused, NotBelow);
  }

  /** The inner loop. */
  method AddArm(arm: Arm, k: nat, keys0: seq<string>, scores0: map<string, real>, payloads0: map<string, RankedChunk>,
                ghost before: seq<Placing>)
    returns (keys: seq<string>, scores: map<string, real>, payloads: map<string, RankedChunk>)
    requires k > 0 && Gathered(before, k, keys0, scores0, payloads0)
    ensures Gathered(before + Ranked(arm), k, keys, scores, payloads)
  {
    keys, scores, payloads := keys0, scores0, payloads0;
    assert Through(before, arm, 0) == before && Through(before, arm, |arm|) == before + Ranked(arm) by {
      assert arm[..|arm|] == arm;
    }
    ghost var done := before;
    hide Gathered, Ranked, Share, Through, Score, Ids, Payload;
    for i := 0 to |arm|
      invariant done == Through(before, arm, i) && Gathered(done, k, keys, scores, payloads)
    {
      ThroughNext(before, arm, i);
      keys, scores, payloads := AddOne(arm[i], i + 1, k, keys, scores, payloads, done);
      done := done + [Placing(arm[i], i + 1)];
    }
  }

  method AddOne(chunk: RankedChunk, rank: nat, k: nat, keys0: seq<string>, scores0: map<string, real>,
                payloads0: map<string, RankedChunk>, ghost done: seq<Placing>)
    returns (keys: seq<string>, scores: map<string, real>, payloads: map<string, RankedChunk>)
    requires k > 0 && Gathered(done, k, keys0, scores0, payloads0)
    ensures Gathered(done + [Placing(chunk, rank)], k, keys, scores, payloads)
  {
    GatherOne(done, Placing(chunk, rank), k, keys0, scores0, payloads0);
    hide Gathered;
    keys, scores, payloads := keys0, scores0, payloads0;
    var previous := if chunk.chunkId in scores then scores[chunk.chunkId] else 0.0;
    if chunk.chunkId !in scores {
      keys := keys + [chunk.chunkId];
    }
    scores := scores[chunk.chunkId := previous + 1.0 / ((k + rank) as real)];
    if chunk.chunkId !in payloads {
      payloads := payloads[chunk.chunkId := chunk];
    }
  }

  ghost function Through(before: seq<Placing>, arm: Arm, i: nat): seq<Placing>
    requires i <= |arm|
  {
    before + Ranked(arm[..i])
  }

  lemma ThroughNext(before: seq<Placing>, arm: Arm, i: nat)
    requires i < |arm|
    ensures Through(before, arm, i + 1) == Through(before, arm, i) + [Placing(arm[i], i + 1)]
  {
    assert Ranked(arm[..i + 1]) == Ranked(arm[..i]) + [Placing(arm[i], i + 1)];
  }

  lemma PlacingsNext(arms: seq<Arm>, a: nat)
    requires a < |arms|
    ensures Placings(arms[..a + 1]) == Placings(arms[..a]) + Ranked(arms[a])
  {
    assert arms[..a + 1][..a] == arms[..a];
  }

  lemma TableIs(ps: seq<Placing>, k: nat, keys: seq<string>, scores: map<string, real>, payloads: map<string,
      RankedChunk>)
    requires Gathered(ps, k, keys, scores, payloads)
    ensures |Table(ps, k)| == |keys| && Table(ps, k)[..|keys|] == Table(ps, k)
    ensures forall i | 0 <= i < |keys| :: keys[i] in scores && keys[i] in payloads
              && Table(ps, k)[i] == RetrievedChunk(payloads[keys[i]], scores[keys[i]])
  {
  }

  lemma GatherNone(k: nat)
    ensures Gathered([], k, [], map[], map[]) && Placings([]) == []
  {
  }

  /** The maps hold, for the ids seen so far in order, their sums and first payloads. */
  ghost predicate Gathered(ps: seq<Placing>, k: nat, keys: seq<string>, scores: map<string, real>,
                           payloads: map<string, RankedChunk>) {
    && keys == Ids(ps)
    && (forall id :: id in keys <==> id in scores)
    && (forall id :: id in keys <==> id in payloads)
    && (forall id | id in scores :: scores[id] == Score(ps, k, id))
    && (forall id | id in payloads :: payloads[id] == Payload(ps, id))
  }

  lemma {:induction false} NoScoreUnseen(ps: seq<Placing>, k: nat, id: string)
    requires id !in Ids(ps)
    ensures Score(ps, k, id) == 0.0
  {
    if ps != [] {
      NoScoreUnseen(ps[..|ps| - 1], k, id);
    }
  }

  lemma GatherOne(ps: seq<Placing>, p: Placing, k: nat, keys: seq<string>, scores: map<string, real>,
                  payloads: map<string, RankedChunk>)
    requires Gathered(ps, k, keys, scores, payloads)
    ensures var id := p.chunk.chunkId;
            Gathered(ps + [p], k, if id in scores then keys else keys + [id],
              scores[id := (if id in scores then scores[id] else 0.0) + Share(k, p.rank)],
              if id in payloads then payloads else payloads[id := p.chunk])
  {
    assert (ps + [p])[..|ps|] == ps;
    if p.chunk.chunkId !in scores {
      NoScoreUnseen(ps, k, p.chunk.chunkId);
    }
    hide Share;
  }

  // ------------------------------------------------------- what comes out

  function IdOf(c: RetrievedChunk): string {
    c.payload.chunkId
  }

  predicate DistinctIds(t: seq<RetrievedChunk>) {
    forall i, j | 0 <= i < j < |t| :: IdOf(t[i]) != IdOf(t[j])
  }

  /** By score, and by place in t among equal scores. */
  predicate Ahead(t: seq<RetrievedChunk>, a: RetrievedChunk, b: RetrievedChunk) {
    a.score > b.score || (a.score == b.score && PlaceIn(t, a) < PlaceIn(t, b))
  }

  predicate SortedFrom(t: seq<RetrievedChunk>, s: seq<RetrievedChunk>) {
    forall i, j | 0 <= i < j < |s| :: Ahead(t, s[i], s[j])
  }

  lemma {:induction false} IdsDistinct(ps: seq<Placing>)
    ensures forall i, j | 0 <= i < j < |Ids(ps)| :: Ids(ps)[i] != Ids(ps)[j]
  {
    if ps != [] {
      IdsDistinct(ps[..|ps| - 1]);
    }
  }

  lemma {:induction false} PayloadFound(ps: seq<Placing>, id: string) returns (i: nat)
    requires id in Ids(ps)
    ensures i < |ps| && ps[i].chunk == Payload(ps, id) && ps[i].chunk.chunkId == id
    ensures forall j | 0 <= j < i :: ps[j].chunk.chunkId != id
  {
    var before := ps[..|ps| - 1];
    if id in Ids(before) {
      i := PayloadFound(before, id);
      assert before[i] == ps[i];
      assert forall j | 0 <= j < i :: before[j] == ps[j];
    } else {
      i := |ps| - 1;
      IdsAreReported(before, id);
      assert forall j | 0 <= j < i :: before[j] == ps[j];
    }
  }

  predicate Reported(ps: seq<Placing>, id: string) {
    exists i :: 0 <= i < |ps| && ps[i].chunk.chunkId == id
  }

  lemma ReportedConcat(a: seq<Placing>, b: seq<Placing>, id: string)
    ensures Reported(a + b, id) <==> Reported(a, id) || Reported(b, id)
  {
    assert forall i | 0 <= i < |a| :: (a + b)[i] == a[i];
    assert forall i | 0 <= i < |b| :: (a + b)[|a| + i] == b[i];
  }

  lemma {:induction false} IdsAreReported(ps: seq<Placing>, id: string)
    ensures id in Ids(ps) <==> Reported(ps, id)
  {
    if ps != [] {
      var before := ps[..|ps| - 1];
      IdsAreReported(before, id);
      assert forall j | 0 <= j < |before| :: before[j] == ps[j];
    }
  }

  /** The output lists every reported id once, with its exact sum and the payload of its first report, by
      falling score and, among equal scores, in the order of first report. */
  lemma FusedShape(arms: seq<Arm>, k: nat)
    ensures var ps := Placings(arms);
            var fused, t := Fuse(arms, k), Table(ps, k);
            && DistinctIds(fused) && SortedFrom(t, fused) && SameElements(fused, t)
            && (forall i | 0 <= i < |fused| :: IdOf(fused[i]) in Ids(ps)
                  && fused[i] == RetrievedChunk(Payload(ps, IdOf(fused[i])), Score(ps, k, IdOf(fused[i]))))
            && |t| == |Ids(ps)| && (forall i | 0 <= i < |t| :: IdOf(t[i]) == Ids(ps)[i])
  {
    var ps := Placings(arms);
    var t, fused := Table(ps, k), Fuse(arms, k);
    TableShape(ps, k);
    SortShape(t, NotBelow);
    hide Score, Payload, Ids, Placings, Sort, PlaceIn, Table;
    SortedByScore(t, fused);
    assert forall i | 0 <= i < |fused| :: fused[i] in fused && fused[i] in t;
    hide SortedFrom;
  }

  lemma SortedByScore(t: seq<RetrievedChunk>, s: seq<RetrievedChunk>)
    requires StablySorted(t, NotBelow, s)
    ensures SortedFrom(t, s) && forall i, j | 0 <= i < j < |s| :: s[i] != s[j]
  {
    hide PlaceIn;
    forall i, j | 0 <= i < j < |s|
      ensures Ahead(t, s[i], s[j]) && s[i] != s[j]
    {
      assert Precedes(t, NotBelow, s[i], s[j]);
    }
  }

  lemma TableShape(ps: seq<Placing>, k: nat)
    ensures var t := Table(ps, k);
            && (forall i, j | 0 <= i < j < |t| :: t[i] != t[j])
            && (forall x, y | x in t && y in t && x != y :: IdOf(x) != IdOf(y))
            && (forall x | x in t :: IdOf(x) in Ids(ps)
                  && x == RetrievedChunk(Payload(ps, IdOf(x)), Score(ps, k, IdOf(x))))
            && |t| == |Ids(ps)| && (forall i | 0 <= i < |t| :: IdOf(t[i]) == Ids(ps)[i])
  {
    var t := Table(ps, k);
    IdsDistinct(ps);
    forall i | 0 <= i < |t|
      ensures IdOf(t[i]) == Ids(ps)[i]
    {
      var _ := PayloadFound(ps, Ids(ps)[i]);
    }
    hide Score, Payload, Ids;
  }

  /** What decides between two chunks of the output. */
  lemma HigherScoreFirst(arms: seq<Arm>, k: nat, i: nat, j: nat)
    requires i < |Fuse(arms, k)| && j < |Fuse(arms, k)|
    requires Score(Placings(arms), k, IdOf(Fuse(arms, k)[i])) > Score(Placings(arms), k, IdOf(Fuse(arms, k)[j]))
    ensures i < j
  {
    FusedShape(arms, k);
    hide Fuse, Placings, Score, Table;
    if j < i {
      assert Ahead(Table(Placings(arms), k), Fuse(arms, k)[j], Fuse(arms, k)[i]);
    }
  }

  // ------------------------------------------------------------ arm by arm

  predicate DupFree(arm: Arm) {
    forall i, j | 0 <= i < j < |arm| :: arm[i].chunkId != arm[j].chunkId
  }

  predicate AllDupFree(arms: seq<Arm>) {
    forall n | 0 <= n < |arms| :: DupFree(arms[n])
  }

  predicate Lists(arm: Arm, id: string) {
    exists i :: 0 <= i < |arm| && arm[i].chunkId == id
  }

  predicate ListedBySome(arms: seq<Arm>, id: string) {
    exists n :: 0 <= n < |arms| && Lists(arms[n], id)
  }

  lemma ListedParts(arms: seq<Arm>, id: string)
    requires arms != []
    ensures ListedBySome(arms, id) <==> ListedBySome(arms[..|arms| - 1], id) || Lists(arms[|arms| - 1], id)
  {
    var before := arms[..|arms| - 1];
    assert forall n | 0 <= n < |before| :: before[n] == arms[n];
    hide Lists;
  }

  lemma {:induction false} ScoreConcat(a: seq<Placing>, b: seq<Placing>, k: nat, id: string)
    ensures Score(a + b, k, id) == Score(a, k, id) + Score(b, k, id)
  {
    if b == [] {
      assert a + b == a;
    } else {
      assert (a + b)[..|a + b| - 1] == a + b[..|b| - 1];
      ScoreConcat(a, b[..|b| - 1], k, id);
    }
  }

  /** In one arm without duplicates the score is the share of the one rank, or nothing. */
  lemma {:induction false} ArmScore(arm: Arm, k: nat, id: string)
    requires DupFree(arm)
    ensures forall i | 0 <= i < |arm| && arm[i].chunkId == id :: Score(Ranked(arm), k, id) == Share(k, i + 1)
    ensures !Lists(arm, id) ==> Score(Ranked(arm), k, id) == 0.0
  {
    if arm != [] {
      var before := arm[..|arm| - 1];
      ArmScore(before, k, id);
      assert Ranked(arm)[..|arm| - 1] == Ranked(before);
      assert forall i | 0 <= i < |before| :: before[i] == arm[i];
      hide Share;
    }
  }

  lemma ShareFalls(k: nat, i: nat, j: nat)
    requires 0 < i < j
    ensures Share(k, i) > Share(k, j) > 0.0
  {
    var x, y := (k + i) as real, (k + j) as real;
    assert x * (1.0 / x) == 1.0 && y * (1.0 / y) == 1.0;
    if 1.0 / y >= 1.0 / x {
      assert x * (1.0 / y) >= x * (1.0 / x);
      assert y * (1.0 / y) > x * (1.0 / y);
    }
  }

  /** a stands before b in every arm that lists b. */
  predicate Dominates(arms: seq<Arm>, a: string, b: string) {
    forall n, j | 0 <= n < |arms| && 0 <= j < |arms[n]| && arms[n][j].chunkId == b ::
      Lists(arms[n][..j], a)
  }

  lemma ArmDominance(arm: Arm, k: nat, a: string, b: string)
    requires DupFree(arm) && forall j | 0 <= j < |arm| && arm[j].chunkId == b :: Lists(arm[..j], a)
    ensures Score(Ranked(arm), k, a) >= Score(Ranked(arm), k, b)
    ensures Lists(arm, b) ==> Score(Ranked(arm), k, a) > Score(Ranked(arm), k, b)
  {
    ArmScore(arm, k, a);
    ArmScore(arm, k, b);
    hide Score, Ranked, Share, Lists, DupFree;
    if Lists(arm, b) {
      var j := WhereListed(arm, b);
      var i := WhereListed(arm[..j], a);
      assert arm[i].chunkId == a;
      ShareFalls(k, i + 1, j + 1);
    } else if Lists(arm, a) {
      var i := WhereListed(arm, a);
      ShareFalls(k, i + 1, i + 2);
    }
  }

  lemma WhereListed(arm: Arm, id: string) returns (i: nat)
    requires Lists(arm, id)
    ensures i < |arm| && arm[i].chunkId == id
  {
    i :| i < |arm| && arm[i].chunkId == id;
  }

  lemma DominatesParts(arms: seq<Arm>, a: string, b: string)
    requires arms != [] && Dominates(arms, a, b) && AllDupFree(arms)
    ensures AllDupFree(arms[..|arms| - 1]) && DupFree(arms[|arms| - 1])
    ensures Dominates(arms[..|arms| - 1], a, b)
    ensures var arm := arms[|arms| - 1];
            forall j | 0 <= j < |arm| && arm[j].chunkId == b :: Lists(arm[..j], a)
  {
    hide Lists;
  }

  lemma {:induction false} DominantScore(arms: seq<Arm>, k: nat, a: string, b: string)
    requires AllDupFree(arms) && Dominates(arms, a, b)
    ensures Score(Placings(arms), k, a) >= Score(Placings(arms), k, b)
    ensures ListedBySome(arms, b) ==>
              Score(Placings(arms), k, a) > Score(Placings(arms), k, b)
  {
    assert Score([], k, a) == Score([], k, b) == 0.0;
    hide Score, Lists, Ranked, DupFree;
    if arms == [] {
      assert !ListedBySome(arms, b);
      return;
    }
    var arm, before := arms[|arms| - 1], arms[..|arms| - 1];
    DominatesParts(arms, a, b);
    ListedParts(arms, b);
    hide Dominates, AllDupFree, ListedBySome;
    DominantScore(before, k, a, b);
    ScoreConcat(Placings(before), Ranked(arm), k, a);
    ScoreConcat(Placings(before), Ranked(arm), k, b);
    ArmDominance(arm, k, a, b);
  }

  /** A chunk ahead of another in every arm that lists the other comes out ahead of it. */
  lemma DominantFirst(arms: seq<Arm>, k: nat, i: nat, j: nat)
    requires AllDupFree(arms)
    requires i < |Fuse(arms, k)| && j < |Fuse(arms, k)|
    requires Dominates(arms, IdOf(Fuse(arms, k)[i]), IdOf(Fuse(arms, k)[j]))
    ensures i < j
  {
    var b := IdOf(Fuse(arms, k)[j]);
    FusedShape(arms, k);
    ReportedBySome(arms, b);
    DominantScore(arms, k, IdOf(Fuse(arms, k)[i]), b);
    HigherScoreFirst(arms, k, i, j);
  }

  lemma {:induction false} ReportedBySome(arms: seq<Arm>, id: string)
    ensures id in Ids(Placings(arms)) <==> ListedBySome(arms, id)
  {
    IdsAreReported(Placings(arms), id);
    if arms != [] {
      var arm, before := arms[|arms| - 1], arms[..|arms| - 1];
      ReportedBySome(before, id);
      IdsAreReported(Placings(before), id);
      ReportedConcat(Placings(before), Ranked(arm), id);
      RankedReports(arm, id);
      ListedParts(arms, id);
      hide Ids, Ranked, Lists, Reported, ListedBySome;
    }
  }

  lemma RankedReports(arm: Arm, id: string)
    ensures Reported(Ranked(arm), id) <==> Lists(arm, id)
  {
    assert forall i | 0 <= i < |arm| :: Ranked(arm)[i].chunk == arm[i];
  }

  // ------------------------------------------------------------- one arm

  function Scored(arm: Arm, k: nat): seq<RetrievedChunk> {
    seq(|arm|, i requires 0 <= i < |arm| => RetrievedChunk(arm[i], Share(k, i + 1)))
  }

  lemma {:induction false} IdsOfArm(arm: Arm)
    requires DupFree(arm)
    ensures |Ids(Ranked(arm))| == |arm|
    ensures forall i | 0 <= i < |arm| :: Ids(Ranked(arm))[i] == arm[i].chunkId
  {
    if arm != [] {
      var before := arm[..|arm| - 1];
      IdsOfArm(before);
      assert Ranked(arm)[..|arm| - 1] == Ranked(before);
      assert forall i | 0 <= i < |before| :: before[i] == arm[i];
    }
  }

  lemma TableOfArm(arm: Arm, k: nat)
    requires DupFree(arm)
    ensures Table(Ranked(arm), k) == Scored(arm, k)
  {
    var ps := Ranked(arm);
    IdsOfArm(arm);
    forall i | 0 <= i < |arm|
      ensures Payload(ps, Ids(ps)[i]) == arm[i] && Score(ps, k, Ids(ps)[i]) == Share(k, i + 1)
    {
      var j := PayloadFound(ps, Ids(ps)[i]);
      assert ps[j].chunk == arm[j];
      ArmScore(arm, k, arm[i].chunkId);
    }
    hide Payload, Score, Ids, Ranked;
  }

  lemma ScoredSorted(arm: Arm, k: nat)
    ensures Sort(Scored(arm, k), NotBelow) == Scored(arm, k)
  {
    forall i, j | 0 <= i < j < |arm|
      ensures Scored(arm, k)[i].score >= Scored(arm, k)[j].score
    {
      ShareFalls(k, i + 1, j + 1);
    }
    hide Share;
    SortSorted(Scored(arm, k), NotBelow);
  }

  lemma EmptyArmPlacings(arm: Arm)
    ensures Placings([arm, []]) == Ranked(arm) == Placings([[], arm])
  {
    var none: Arm := [];
    assert Ranked(none) == [];
    TwoArmScore(arm, none, 0, []);
    TwoArmScore(none, arm, 0, []);
    hide Ranked, Placings;
    assert [] + Ranked(arm) == Ranked(arm) == Ranked(arm) + [];
  }

  /** An arm that finds nothing changes nothing: the other arm comes out as it is, wherever the empty one is. */
  lemma EmptyArmKeepsOrder(arm: Arm, k: nat)
    requires DupFree(arm)
    ensures Fuse([arm, []], k) == Fuse([[], arm], k) == Scored(arm, k)
  {
    EmptyArmPlacings(arm);
    TableOfArm(arm, k);
    ScoredSorted(arm, k);
    hide Placings, Ranked, Scored, Table, Sort;
  }

  // -------------------------------------------------------------- two arms

  lemma TwoArmScore(x: Arm, y: Arm, k: nat, id: string)
    ensures Placings([x, y]) == Ranked(x) + Ranked(y)
    ensures Score(Placings([x, y]), k, id) == Score(Ranked(x), k, id) + Score(Ranked(y), k, id)
  {
    PlacingsNext([x, y], 0);
    PlacingsNext([x, y], 1);
    assert [x, y][..0] == [] && [x, y][..2] == [x, y];
    assert Placings([x, y]) == Ranked(x) + Ranked(y);
    ScoreConcat(Ranked(x), Ranked(y), k, id);
  }

  lemma Reciprocals(a: real, b: real, c: real)
    requires a > 0.0 && b > 0.0 && c > 0.0
    ensures 1.0 / a + 1.0 / b > 1.0 / c <==> a * b < c * (a + b)
  {
    var u, v, w := 1.0 / a, 1.0 / b, 1.0 / c;
    assert a * u == 1.0 && b * v == 1.0 && c * w == 1.0;
    var whole := a * b * c;
    assert a * b > 0.0 && whole > 0.0;
    assert whole * u == (a * u) * (b * c) == b * c;
    assert whole * v == (b * v) * (a * c) == a * c;
    assert whole * w == (c * w) * (a * b) == a * b;
    assert whole * (u + v) == b * c + a * c == c * (a + b);
    if u + v > w {
      assert whole * (u + v) > whole * w;
    } else {
      assert whole * (u + v) <= whole * w;
    }
  }

  /** Two last ranks together are worth more than one first rank. */
  predicate LastTwoBeatFirst(k: nat, m: nat, n: nat) {
    (k + m) * (k + n) < (k + 1) * (2 * k + m + n)
  }

  lemma SharesCompare(k: nat, m: nat, n: nat)
    requires k > 0
    ensures Share(k, m) + Share(k, n) > Share(k, 1) <==> LastTwoBeatFirst(k, m, n)
  {
    var a, b, c := (k + m) as real, (k + n) as real, (k + 1) as real;
    Reciprocals(a, b, c);
    assert a * b == ((k + m) * (k + n)) as real;
    assert c * (a + b) == ((k + 1) * (2 * k + m + n)) as real;
  }

  predicate InBoth(x: Arm, y: Arm, id: string) {
    Lists(x, id) && Lists(y, id)
  }

  /** In the fusion of these two arms a chunk of both never comes after a chunk of one. */
  predicate BothFirst(x: Arm, y: Arm, k: nat) {
    var fused := Fuse([x, y], k);
    forall i, j | 0 <= i < |fused| && 0 <= j < |fused|
                  && InBoth(x, y, IdOf(fused[i])) && !InBoth(x, y, IdOf(fused[j])) :: i < j
  }

  ghost predicate AlwaysBothFirst(k: nat, m: nat, n: nat) {
    forall x: Arm, y: Arm | |x| == m && |y| == n && DupFree(x) && DupFree(y) :: BothFirst(x, y, k)
  }

  /** A listed chunk has at least the last share, and no more than the first. */
  lemma ShareOfListed(arm: Arm, k: nat, id: string)
    requires DupFree(arm)
    ensures Lists(arm, id) ==> Share(k, |arm|) <= Score(Ranked(arm), k, id) <= Share(k, 1)
    ensures !Lists(arm, id) ==> Score(Ranked(arm), k, id) == 0.0
  {
    ArmScore(arm, k, id);
    hide Score, Ranked, Lists, Share;
    if Lists(arm, id) {
      var i := WhereListed(arm, id);
      if i + 1 < |arm| { ShareFalls(k, i + 1, |arm|); }
      if i > 0 { ShareFalls(k, 1, i + 1); }
    }
  }

  lemma BothBeatOne(x: Arm, y: Arm, k: nat)
    requires k > 0 && DupFree(x) && DupFree(y) && LastTwoBeatFirst(k, |x|, |y|)
    ensures BothFirst(x, y, k)
  {
    var fused := Fuse([x, y], k);
    SharesCompare(k, |x|, |y|);
    ShareFalls(k, 1, 2);
    hide Fuse, Share, Score, LastTwoBeatFirst, Placings, Lists, DupFree;
    forall i, j | 0 <= i < |fused| && 0 <= j < |fused|
                  && InBoth(x, y, IdOf(fused[i])) && !InBoth(x, y, IdOf(fused[j]))
      ensures i < j
    {
      ShareOfListed(x, k, IdOf(fused[i]));
      ShareOfListed(y, k, IdOf(fused[i]));
      ShareOfListed(x, k, IdOf(fused[j]));
      ShareOfListed(y, k, IdOf(fused[j]));
      TwoArmScore(x, y, k, IdOf(fused[i]));
      TwoArmScore(x, y, k, IdOf(fused[j]));
      HigherScoreFirst([x, y], k, i, j);
    }
  }

  // ------------------------------------------------- arms that are too long

  function Named(n: nat): RankedChunk {
    RankedChunk(Decimal(n), [], [], [])
  }

  /** Two arms of lengths m and n that share only their last chunk, number m + n. */
  function LongArm(m: nat, n: nat): Arm {
    seq(m, i requires 0 <= i < m => Named(if i == m - 1 then m + n else i))
  }

  function OtherArm(m: nat, n: nat): Arm {
    seq(n, i requires 0 <= i < n => Named(if i == n - 1 then m + n else m + i))
  }

  lemma NamesDiffer(a: nat, b: nat)
    ensures Decimal(a) == Decimal(b) <==> a == b
  {
    DecimalRoundTrip(a);
    DecimalRoundTrip(b);
  }

  lemma LongArmsShape(m: nat, n: nat)
    requires m >= 2 && n >= 2
    ensures var x, y, first, both := LongArm(m, n), OtherArm(m, n), Decimal(0), Decimal(m + n);
            && DupFree(x) && DupFree(y)
            && InBoth(x, y, both) && !Lists(y, first) && x[0].chunkId == first
            && x[m - 1].chunkId == both && y[n - 1].chunkId == both && first != both
  {
    forall a: nat, b: nat
      ensures Named(a).chunkId == Named(b).chunkId <==> a == b
    {
      NamesDiffer(a, b);
    }
    var x, y := LongArm(m, n), OtherArm(m, n);
    assert forall i | 0 <= i < m :: x[i] == Named(if i == m - 1 then m + n else i);
    assert forall i | 0 <= i < n :: y[i] == Named(if i == n - 1 then m + n else m + i);
    assert x[m - 1].chunkId == y[n - 1].chunkId;
    hide Decimal;
  }

  lemma InFused(arms: seq<Arm>, k: nat, id: string) returns (i: nat)
    requires ListedBySome(arms, id)
    ensures i < |Fuse(arms, k)| && IdOf(Fuse(arms, k)[i]) == id
  {
    ReportedBySome(arms, id);
    FusedShape(arms, k);
    var t, fused := Table(Placings(arms), k), Fuse(arms, k);
    var a :| 0 <= a < |Ids(Placings(arms))| && Ids(Placings(arms))[a] == id;
    hide Ids, Table, Fuse, Placings, Ahead;
    assert t[a] in t;
    i :| 0 <= i < |fused| && fused[i] == t[a];
  }

  /** With equal scores the chunk reported first of all stands first. */
  lemma FirstReportedFirst(arms: seq<Arm>, k: nat, i: nat, j: nat)
    requires i < |Fuse(arms, k)| && j < |Fuse(arms, k)| && i != j
    requires Ids(Placings(arms)) != [] && IdOf(Fuse(arms, k)[i]) == Ids(Placings(arms))[0]
    requires Fuse(arms, k)[i].score >= Fuse(arms, k)[j].score
    ensures i < j
  {
    FusedShape(arms, k);
    var t, fused := Table(Placings(arms), k), Fuse(arms, k);
    TableShape(Placings(arms), k);
    assert fused[i] in fused && fused[i] in t;
    assert t[0] in t && fused[i] == t[0];
    FirstPlace(t);
    hide Ids, Table, Fuse, Placings, PlaceIn, Score, Payload;
  }

  lemma {:induction false} FirstPlace(t: seq<RetrievedChunk>)
    requires t != []
    ensures PlaceIn(t, t[0]) == 0
  {
    if |t| > 1 {
      FirstPlace(t[..|t| - 1]);
      assert t[..|t| - 1][0] == t[0];
    }
  }

  lemma {:induction false} FirstId(ps: seq<Placing>)
    requires ps != []
    ensures Ids(ps) != [] && Ids(ps)[0] == ps[0].chunk.chunkId
  {
    if |ps| > 1 {
      FirstId(ps[..|ps| - 1]);
    }
  }

  lemma LongArmsFail(k: nat, m: nat, n: nat)
    requires k > 0 && m >= 2 && n >= 2 && !LastTwoBeatFirst(k, m, n)
    ensures DupFree(LongArm(m, n)) && DupFree(OtherArm(m, n)) && !BothFirst(LongArm(m, n), OtherArm(m, n), k)
  {
    var x, y, first, both := LongArm(m, n), OtherArm(m, n), Decimal(0), Decimal(m + n);
    LongArmsShape(m, n);
    hide LongArm, OtherArm, Decimal, LastTwoBeatFirst, Fuse, Score, Share, DupFree;
    TwoArmScore(x, y, k, first);
    TwoArmScore(x, y, k, both);
    ArmScore(x, k, first);
    ArmScore(x, k, both);
    ArmScore(y, k, first);
    ArmScore(y, k, both);
    SharesCompare(k, m, n);
    var i := InFused([x, y], k, first);
    var j := InFused([x, y], k, both);
    FusedShape([x, y], k);
    FirstId(Placings([x, y]));
    assert Placings([x, y])[0] == Ranked(x)[0];
    hide Placings, Ids, Ranked;
    FirstReportedFirst([x, y], k, i, j);
  }

  /** In the fusion of any two arms of m and n chunks, those in both stand before those in one, exactly if two
      last ranks are worth more than one first rank. */
  lemma BothFirstIff(k: nat, m: nat, n: nat)
    requires k > 0
    ensures AlwaysBothFirst(k, m, n) <==> LastTwoBeatFirst(k, m, n)
  {
    if LastTwoBeatFirst(k, m, n) {
      forall x: Arm, y: Arm | |x| == m && |y| == n && DupFree(x) && DupFree(y)
        ensures BothFirst(x, y, k)
      {
        BothBeatOne(x, y, k);
      }
    } else {
      LongArmsAreLong(k, m, n);
      LongArmsFail(k, m, n);
      assert |LongArm(m, n)| == m && |OtherArm(m, n)| == n;
    }
  }

  /** The condition without the products on both sides. */
  lemma LastTwoBeatFirstIff(k: nat, m: nat, n: nat)
    ensures LastTwoBeatFirst(k, m, n) <==> m * n < k * (k + 2) + m + n
  {
    assert (k + m) * (k + n) == k * k + k * n + m * k + m * n;
    assert (k + 1) * (2 * k + m + n) == 2 * k * k + k * m + k * n + 2 * k + m + n;
  }

  lemma LongArmsAreLong(k: nat, m: nat, n: nat)
    requires k > 0 && !LastTwoBeatFirst(k, m, n)
    ensures m >= 2 && n >= 2
  {
    LastTwoBeatFirstIff(k, m, n);
    assert k * (k + 2) > 0;
    hide LastTwoBeatFirst;
  }

  /** Up to k + 1 chunks in each arm it always holds; with k + 2 in both it fails. */
  lemma ShortArmsAreFine(k: nat, m: nat, n: nat)
    requires k > 0
    ensures m <= k + 1 && n <= k + 1 ==> LastTwoBeatFirst(k, m, n)
    ensures !LastTwoBeatFirst(k, k + 2, k + 2)
  {
    LastTwoBeatFirstIff(k, m, n);
    LastTwoBeatFirstIff(k, k + 2, k + 2);
    hide LastTwoBeatFirst;
    assert (k + 2) * (k + 2) == k * (k + 2) + (k + 2) + (k + 2);
    if m <= k + 1 && n <= k + 1 {
      Products(k, m, n);
    }
  }

  lemma LessTimes(a: nat, b: nat, c: nat)
    requires a <= b
    ensures a * c <= b * c && c * a <= c * b
  {
  }

  lemma Products(k: nat, m: nat, n: nat)
    requires k > 0 && m <= k + 1 && n <= k + 1
    ensures m * n < k * (k + 2) + m + n
  {
    if m > 0 && n > 0 {
      var a, b := m - 1, n - 1;
      LessTimes(a, k, b);
      LessTimes(b, k, k);
      assert m * n == a * b + a + b + 1;
      assert k * (k + 2) == k * k + 2 * k;
    }
  }
}

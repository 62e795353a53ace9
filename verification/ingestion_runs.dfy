/** Concrete runs of the protocol: one whole ingestion up to its last call, and the run in which the reply to that
    call is lost and the source is claimed before it is marked failed. */
module IngestionRuns {
  import opened Text
  import opened Repository
  import Ingestion

  const DOC: Document := Document("a.md", None, [ChunkInput(0, "text", [], 1, [], [])])
  const PLAN: Ingestion.Plan := [Some(DOC)]
  const STEP: Ingestion.Event := Ingestion.Proceed(0, Ingestion.Replied)

  /** A run of one file, up to the call that marks its source ready; and what it writes. */
  const OPENING: seq<Ingestion.Event> := [Ingestion.Begin(0, "uri", PLAN, None), STEP, STEP, STEP, STEP, STEP]
  const OPENING_WRITES: seq<Write> := [CreateW("uri"), MarkProcessingW(0, None), InsertW(0, DOC), RecordSkippedW(0, 0)]

  ghost function WorldAt(es: seq<Ingestion.Event>, k: nat, lease: nat): Ingestion.World {
    Ingestion.After(Ingestion.EMPTY, if k <= |es| then es[..k] else es, lease)
  }

  ghost function WritesAt(es: seq<Ingestion.Event>, k: nat, lease: nat): seq<Write> {
    Ingestion.WritesOf(Ingestion.EMPTY, if k <= |es| then es[..k] else es, lease)
  }

  lemma StepAt(es: seq<Ingestion.Event>, k: nat, e: Ingestion.Event, lease: nat)
    requires k < |es| && es[k] == e
    ensures WorldAt(es, k + 1, lease) == Ingestion.Next(WorldAt(es, k, lease), e, lease)
    ensures WritesAt(es, k + 1, lease) == WritesAt(es, k, lease) + Ingestion.WriteOf(WorldAt(es, k, lease), e)
  {
    assert es[..k + 1][..k] == es[..k];
    hide Ingestion.Next, Ingestion.WriteOf;
  }

  lemma StartAt(es: seq<Ingestion.Event>, lease: nat)
    ensures WorldAt(es, 0, lease) == Ingestion.EMPTY && WritesAt(es, 0, lease) == []
  {
    assert es[..0] == [];
  }

  /** The one run is at this point; if its row is there, it was stamped just now and stores these documents. */
  ghost predicate RunAt(es: seq<Ingestion.Event>, k: nat, lease: nat, pc: Ingestion.Pc, writes: seq<Write>,
                        ids: set<nat>, documents: seq<Document>) {
    var w := WorldAt(es, k, lease);
    && 0 in w.runs && w.runs[0] == Ingestion.IngestRun("uri", PLAN, None, pc)
    && (forall rid | rid in w.runs :: rid == 0)
    && WritesAt(es, k, lease) == writes
    && (forall id | id in w.db.rows :: id == 0) && (0 in w.db.rows <==> 0 in ids) && ids <= {0}
    && w.db.nextId == (if writes == [] then 0 else 1)
    && (0 in w.db.rows ==> w.db.rows[0].updatedAt == w.db.now && w.db.rows[0].documents == documents
                           && w.db.rows[0].uri == "uri")
  }

  lemma OpeningBegins(es: seq<Ingestion.Event>, lease: nat)
    requires OPENING <= es
    ensures RunAt(es, 2, lease, Ingestion.Creating, [], {}, [])
  {
    hide WorldAt, WritesAt;
    StartAt(es, lease);
    StepAt(es, 0, Ingestion.Begin(0, "uri", PLAN, None), lease);
    StepAt(es, 1, STEP, lease);
  }

  lemma OpeningCreates(es: seq<Ingestion.Event>, lease: nat)
    requires OPENING <= es
    ensures RunAt(es, 3, lease, Ingestion.Fetching(0), [CreateW("uri")], {0}, [])
  {
    hide WorldAt, WritesAt;
    OpeningBegins(es, lease);
    StepAt(es, 2, STEP, lease);
    assert [] + [CreateW("uri")] == [CreateW("uri")];
  }

  lemma OpeningFetches(es: seq<Ingestion.Event>, lease: nat)
    requires OPENING <= es
    ensures RunAt(es, 4, lease, Ingestion.Working(0, 0), OPENING_WRITES[..2], {0}, [])
  {
    hide WorldAt, WritesAt;
    OpeningCreates(es, lease);
    StepAt(es, 3, STEP, lease);
  }

  lemma OpeningInserts(es: seq<Ingestion.Event>, lease: nat)
    requires OPENING <= es
    ensures RunAt(es, 5, lease, Ingestion.Working(0, 1), OPENING_WRITES[..3], {0}, [DOC])
  {
    hide WorldAt, WritesAt;
    OpeningFetches(es, lease);
    StepAt(es, 4, STEP, lease);
    assert [] + [DOC] == [DOC];
  }

  lemma OpeningEnds(es: seq<Ingestion.Event>, lease: nat)
    requires OPENING <= es
    ensures RunAt(es, 6, lease, Ingestion.Finishing(0), OPENING_WRITES, {0}, [DOC])
  {
    hide WorldAt, WritesAt;
    OpeningInserts(es, lease);
    StepAt(es, 5, STEP, lease);
    assert Ingestion.SkippedIn(PLAN) == 0;
  }

  /** Nobody claims anything, and what there is was stamped just now. */
  ghost predicate Calm(w: Ingestion.World) {
    && (forall rid | rid in w.runs :: rid == 0 && !w.runs[rid].pc.Claiming?)
    && (forall id | id in w.db.rows :: w.db.rows[id].updatedAt == w.db.now)
  }

  lemma CalmAt(es: seq<Ingestion.Event>, k: nat, lease: nat, pc: Ingestion.Pc, writes: seq<Write>, ids: set<nat>,
               documents: seq<Document>)
    requires RunAt(es, k, lease, pc, writes, ids, documents) && !pc.Claiming?
    ensures Calm(WorldAt(es, k, lease))
  {
    hide WorldAt, WritesAt;
  }

  lemma CalmFirst(es: seq<Ingestion.Event>, lease: nat)
    requires OPENING <= es
    ensures Calm(WorldAt(es, 0, lease)) && Calm(WorldAt(es, 1, lease))
  {
    hide WorldAt, WritesAt;
    StartAt(es, lease);
    StepAt(es, 0, Ingestion.Begin(0, "uri", PLAN, None), lease);
  }

  lemma OpeningIsCalm(es: seq<Ingestion.Event>, lease: nat, k: nat)
    requires OPENING <= es && k <= 6
    ensures Calm(WorldAt(es, k, lease))
  {
    hide Calm, RunAt, WorldAt;
    if k <= 1 {
      CalmFirst(es, lease);
    } else if k == 2 {
      OpeningBegins(es, lease);
      CalmAt(es, 2, lease, Ingestion.Creating, [], {}, []);
    } else if k == 3 {
      OpeningCreates(es, lease);
      CalmAt(es, 3, lease, Ingestion.Fetching(0), [CreateW("uri")], {0}, []);
    } else if k == 4 {
      OpeningFetches(es, lease);
      CalmAt(es, 4, lease, Ingestion.Working(0, 0), OPENING_WRITES[..2], {0}, []);
    } else if k == 5 {
      OpeningInserts(es, lease);
      CalmAt(es, 5, lease, Ingestion.Working(0, 1), OPENING_WRITES[..3], {0}, [DOC]);
    } else {
      OpeningEnds(es, lease);
      CalmAt(es, 6, lease, Ingestion.Finishing(0), OPENING_WRITES, {0}, [DOC]);
    }
  }

  lemma CalmIsOrderly(w: Ingestion.World, e: Ingestion.Event, lease: nat)
    requires Calm(w)
    ensures Ingestion.LeaseKept(w, lease) && !Ingestion.StrayClaim(w, e)
  {
  }

  // ------------------------------------------------------------ a stray claim

  /** Run 0 marks its source ready and is told it failed; run 1 looks the source up and claims it. */
  const STRAY: seq<Ingestion.Event> := OPENING + [
    Ingestion.Proceed(0, Ingestion.Lost), Ingestion.Begin(1, "uri", PLAN, None),
    Ingestion.Proceed(1, Ingestion.Replied), Ingestion.Proceed(1, Ingestion.Replied),
    Ingestion.Proceed(1, Ingestion.Replied)]

  /** Run 0 is about to mark the source failed, which is ready and was stamped just now; run 1, if begun, is at
      this point. */
  ghost predicate StrayAt(k: nat, lease: nat, other: Option<Ingestion.Pc>) {
    var w := WorldAt(STRAY, k, lease);
    && w.runs.Keys == (if other.Some? then {0, 1} else {0}) && w.runs[0].pc == Ingestion.Failing(0)
    && (other.Some? ==> w.runs[1] == Ingestion.IngestRun("uri", PLAN, None, other.value))
    && w.db.rows.Keys == {0} && w.db.rows[0].uri == "uri" && w.db.rows[0].status == Ready
    && w.db.rows[0].updatedAt == w.db.now
  }

  lemma ReplyIsLost(lease: nat)
    ensures StrayAt(7, lease, None)
  {
    hide WorldAt, WritesAt;
    OpeningEnds(STRAY, lease);
    StepAt(STRAY, 6, Ingestion.Proceed(0, Ingestion.Lost), lease);
  }

  lemma OtherBegins(lease: nat)
    ensures StrayAt(8, lease, Some(Ingestion.Looking))
  {
    hide WorldAt, WritesAt;
    ReplyIsLost(lease);
    StepAt(STRAY, 7, Ingestion.Begin(1, "uri", PLAN, None), lease);
  }

  lemma OtherFinds(lease: nat)
    ensures StrayAt(9, lease, Some(Ingestion.Reusing(0)))
  {
    hide WorldAt, WritesAt;
    OtherBegins(lease);
    StepAt(STRAY, 8, Ingestion.Proceed(1, Ingestion.Replied), lease);
  }

  lemma OtherIsAboutToClaim(lease: nat)
    ensures exists before: int :: StrayAt(10, lease, Some(Ingestion.Claiming(0, before)))
  {
    hide WorldAt, WritesAt;
    OtherFinds(lease);
    StepAt(STRAY, 9, Ingestion.Proceed(1, Ingestion.Replied), lease);
    var w := WorldAt(STRAY, 9, lease);
    assert StrayAt(10, lease, Some(Ingestion.Claiming(0, w.db.now - lease)));
  }

  lemma StampedKeepsLease(w: Ingestion.World, lease: nat)
    requires forall id | id in w.db.rows :: w.db.rows[id].updatedAt == w.db.now
    ensures Ingestion.LeaseKept(w, lease)
  {
  }

  lemma StrayKeepsLease(lease: nat, k: nat, other: Option<Ingestion.Pc>)
    requires StrayAt(k, lease, other)
    ensures Ingestion.LeaseKept(WorldAt(STRAY, k, lease), lease)
  {
    hide WorldAt;
    StampedKeepsLease(WorldAt(STRAY, k, lease), lease);
  }

  lemma OtherClaims(lease: nat)
    ensures Ingestion.StrayClaim(WorldAt(STRAY, 10, lease), STRAY[10])
    ensures Ingestion.LeaseKept(WorldAt(STRAY, 10, lease), lease)
    ensures Ingestion.LeaseKept(WorldAt(STRAY, 11, lease), lease)
  {
    hide WorldAt, WritesAt;
    OtherIsAboutToClaim(lease);
    var before: int :| StrayAt(10, lease, Some(Ingestion.Claiming(0, before)));
    StrayKeepsLease(lease, 10, Some(Ingestion.Claiming(0, before)));
    StepAt(STRAY, 10, Ingestion.Proceed(1, Ingestion.Replied), lease);
    assert Ingestion.LiveOn(WorldAt(STRAY, 10, lease).runs[0], 0);
    StampedKeepsLease(WorldAt(STRAY, 11, lease), lease);
  }

  lemma StrayIsLeased(lease: nat, k: nat)
    requires k <= 11
    ensures Ingestion.LeaseKept(WorldAt(STRAY, k, lease), lease)
  {
    hide WorldAt, StrayAt, Calm, Ingestion.LeaseKept;
    if k <= 6 {
      OpeningIsCalm(STRAY, lease, k);
      CalmIsOrderly(WorldAt(STRAY, k, lease), STEP, lease);
    } else if k == 7 {
      ReplyIsLost(lease);
      StrayKeepsLease(lease, 7, None);
    } else if k == 8 {
      OtherBegins(lease);
      StrayKeepsLease(lease, 8, Some(Ingestion.Looking));
    } else if k == 9 {
      OtherFinds(lease);
      StrayKeepsLease(lease, 9, Some(Ingestion.Reusing(0)));
    } else {
      OtherClaims(lease);
    }
  }

  /** The case the exclusion of stray claims excludes is there: whatever the lease, kept at every step, a lost
      reply and a second ingestion of the same source end with two live runs on it. */
  lemma StrayClaimHappens(lease: nat)
    ensures Ingestion.LeaseKeptThroughout(Ingestion.EMPTY, STRAY, lease)
    ensures Ingestion.StrayClaim(Ingestion.After(Ingestion.EMPTY, STRAY[..10], lease), STRAY[10])
    ensures !Ingestion.NoStrayClaim(Ingestion.EMPTY, STRAY, lease)
    ensures !Ingestion.Exclusive(Ingestion.After(Ingestion.EMPTY, STRAY, lease).runs)
  {
    assert forall k | 0 <= k <= 11 :: WorldAt(STRAY, k, lease) == Ingestion.After(Ingestion.EMPTY, STRAY[..k], lease);
    assert STRAY[..11] == STRAY;
    hide WorldAt, Ingestion.After, Ingestion.LeaseKept, Ingestion.StrayClaim, Ingestion.Next, Ingestion.Exclusive;
    forall k | 0 <= k <= 11
      ensures Ingestion.LeaseKept(Ingestion.After(Ingestion.EMPTY, STRAY[..k], lease), lease)
    {
      StrayIsLeased(lease, k);
    }
    OtherClaims(lease);
    Ingestion.StrayClaimBreaks(WorldAt(STRAY, 10, lease), STRAY[10], lease);
    StepAt(STRAY, 10, STRAY[10], lease);
  }
}

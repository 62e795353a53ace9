/** One concrete run: ingestion finishes between the version read and the retrieval of a request. */
module AskRace {
  import opened Text
  import opened Repository
  import opened CorpusVersion
  import opened CacheKeys
  import opened AskCache
  import Ingestion
  import opened IngestionRuns

  const EMPTY: Db := Db(map[], 0, 0)
  const CONFIG: AnsweringConfig := AnsweringConfig("chain", Finite(1), "model")
  const ANSWER: Completion := Completion("answer", "provider", "model", None)

  /** The writes of one whole ingestion run, and of the removal of its source. */
  const ADDING: seq<Write> := OPENING_WRITES + [MarkReadyW(0)]
  const REMOVING: Write := DeleteW(0)

  /** A source is ingested between the version read and retrieval of request 1, and removed before request 2. */
  function Race(): seq<Event> {[
    Ask(1, "q", CONFIG), ReadVersion(1), Lookup(1, true),
    Wrote(ADDING[0]), Wrote(ADDING[1]), Wrote(ADDING[2]), Wrote(ADDING[3]), Wrote(ADDING[4]),
    SearchVector(1, []), SearchText(1), Complete(1, ANSWER), Store(1, true),
    Wrote(REMOVING),
    Ask(2, "q", CONFIG), ReadVersion(2), Lookup(2, true)]}

  // ------------------------------------------------- it is a run of ingestion

  /** The same writes, as the protocol makes them. */
  const INGESTED: seq<Ingestion.Event> := OPENING + [STEP, Ingestion.Remove(0)]

  lemma IngestedEnds(lease: nat)
    ensures RunAt(INGESTED, 7, lease, Ingestion.Over, ADDING, {0}, [DOC])
    ensures WorldAt(INGESTED, 7, lease).db.rows[0].status == Ready
  {
    hide WorldAt, WritesAt;
    OpeningEnds(INGESTED, lease);
    StepAt(INGESTED, 6, STEP, lease);
  }

  lemma IngestedIsGone(lease: nat)
    ensures RunAt(INGESTED, 8, lease, Ingestion.Over, ADDING + [REMOVING], {}, [])
  {
    hide WorldAt, WritesAt, Ingestion.Commit, Ingestion.Passed;
    IngestedEnds(lease);
    StepAt(INGESTED, 7, Ingestion.Remove(0), lease);
  }

  lemma IngestedIsCalm(lease: nat, k: nat)
    requires k <= 8
    ensures Calm(WorldAt(INGESTED, k, lease))
  {
    hide Calm, RunAt, WorldAt;
    if k <= 6 {
      OpeningIsCalm(INGESTED, lease, k);
    } else if k == 7 {
      IngestedEnds(lease);
      CalmAt(INGESTED, 7, lease, Ingestion.Over, ADDING, {0}, [DOC]);
    } else {
      IngestedIsGone(lease);
      CalmAt(INGESTED, 8, lease, Ingestion.Over, ADDING + [REMOVING], {}, []);
    }
  }

  /** The writes of the race are those of one whole ingestion run and of a removal, the lease kept throughout. */
  lemma RaceIsIngestion(lease: nat)
    ensures Ingestion.WritesOf(Ingestion.EMPTY, INGESTED, lease) == ADDING + [REMOVING]
    ensures Ingestion.LeaseKeptThroughout(Ingestion.EMPTY, INGESTED, lease)
    ensures Ingestion.NoStrayClaim(Ingestion.EMPTY, INGESTED, lease)
  {
    IngestedIsGone(lease);
    assert INGESTED[..8] == INGESTED;
    assert forall k | 0 <= k <= 8 ::
             WorldAt(INGESTED, k, lease) == Ingestion.After(Ingestion.EMPTY, INGESTED[..k], lease);
    hide Ingestion.After, Ingestion.LeaseKept, Ingestion.StrayClaim, WorldAt, Calm, RunAt;
    forall k | 0 <= k <= 8
      ensures Ingestion.LeaseKept(Ingestion.After(Ingestion.EMPTY, INGESTED[..k], lease), lease)
    {
      IngestedIsCalm(lease, k);
      CalmIsOrderly(WorldAt(INGESTED, k, lease), INGESTED[0], lease);
    }
    forall k | 0 <= k < 8
      ensures !Ingestion.StrayClaim(Ingestion.After(Ingestion.EMPTY, INGESTED[..k], lease), INGESTED[k])
    {
      IngestedIsCalm(lease, k);
      CalmIsOrderly(WorldAt(INGESTED, k, lease), INGESTED[k], lease);
    }
  }

  // ---------------------------------------------------------------- the race

  ghost function Raced(env: Env, k: nat): World {
    After(env, EMPTY, if k <= |Race()| then Race()[..k] else Race())
  }

  lemma RaceStep(env: Env, k: nat, e: Event)
    requires k < |Race()| && Race()[k] == e
    ensures Raced(env, k + 1) == Next(env, Raced(env, k), e)
  {
    assert Race()[..k + 1][..k] == Race()[..k];
    hide Next;
  }

  ghost predicate RaceAt(env: Env, k: nat, writes: seq<Write>, rid: nat, pc: Pc) {
    var w := Raced(env, k);
    && w.start == EMPTY && w.writes == writes
    && rid in w.requests && w.requests[rid] == Request("q", CONFIG, pc) && (forall i | i in w.requests :: i <= rid)
  }

  ghost function EmptyVersion(env: Env): string {
    Render(Current(EMPTY), env.iso)
  }

  lemma RaceLooks(env: Env)
    ensures RaceAt(env, 3, [], 1, Retrieving(EmptyVersion(env), 0, None, None))
  {
    hide Current, Render, Key, Corpus;
    assert Race()[..0] == [];
    RaceStep(env, 0, Ask(1, "q", CONFIG));
    RaceStep(env, 1, ReadVersion(1));
    RaceStep(env, 2, Lookup(1, true));
    hide Raced, Race;
  }

  lemma {:induction false} RaceWrites(env: Env, k: nat)
    requires k <= 5
    ensures RaceAt(env, 3 + k, ADDING[..k], 1, Retrieving(EmptyVersion(env), 0, None, None))
  {
    hide EmptyVersion, NextPc;
    if k == 0 {
      RaceLooks(env);
    } else {
      RaceWrites(env, k - 1);
      RaceStep(env, 2 + k, Wrote(ADDING[k - 1]));
      hide Raced, Race;
      assert ADDING[..k] == ADDING[..k - 1] + [ADDING[k - 1]];
    }
  }

  lemma RaceSearches(env: Env)
    ensures RaceAt(env, 10, ADDING, 1, Retrieving(EmptyVersion(env), 0, Some((5, [])), Some(5)))
  {
    hide Raced, EmptyVersion, NextCache, LookedUp, Completed, VersionAt;
    RaceWrites(env, 5);
    assert ADDING[..5] == ADDING;
    RaceStep(env, 8, SearchVector(1, []));
    RaceStep(env, 9, SearchText(1));
  }

  function RaceOrigin(): Origin {
    Origin("q", CONFIG, 0, 5, 5, [], ANSWER)
  }

  lemma RaceCompletes(env: Env) returns (entry: Entry)
    ensures entry.origin == RaceOrigin()
    ensures RaceAt(env, 11, ADDING, 1, Answered(EmptyVersion(env), entry))
  {
    hide Raced, EmptyVersion, NextCache, LookedUp, VersionAt, OutcomeOf;
    RaceSearches(env);
    RaceStep(env, 10, Complete(1, ANSWER));
    entry := Raced(env, 11).requests[1].pc.entry;
  }

  lemma RaceStores(env: Env) returns (entry: Entry)
    ensures entry.origin == RaceOrigin()
    ensures RaceAt(env, 14, ADDING + [REMOVING], 2, Asked)
    ensures var key := Key(env, EmptyVersion(env), "q", CONFIG);
            key in Raced(env, 14).cache && Raced(env, 14).cache[key] == entry
  {
    hide Raced, EmptyVersion, Key, LookedUp, Completed, VersionAt, RaceOrigin;
    entry := RaceCompletes(env);
    RaceStep(env, 11, Store(1, true));
    RaceStep(env, 12, Wrote(REMOVING));
    RaceStep(env, 13, Ask(2, "q", CONFIG));
  }

  /** The database once the run has ended, and once its source is gone. */
  lemma StoredAndGone()
    ensures var full := Run(EMPTY, ADDING);
            full.rows.Keys == {0} && full.rows[0].status == Ready && full.rows[0].documents == [DOC]
    ensures Run(EMPTY, ADDING + [REMOVING]).rows == map[]
  {
    IngestedEnds(0);
    IngestedIsGone(0);
    hide Run, Ingestion.After;
    Ingestion.ProtocolIsRun(Ingestion.EMPTY, INGESTED[..7], 0);
    Ingestion.ProtocolIsRun(Ingestion.EMPTY, INGESTED[..8], 0);
  }

  lemma VersionReturns(env: Env, w: World)
    requires w.start == EMPTY && w.writes == ADDING + [REMOVING]
    ensures |w.writes| == 6 && VersionAt(env, w, 6) == EmptyVersion(env)
  {
    StoredAndGone();
    assert w.writes[..6] == w.writes;
    hide Run, Render, Newest;
    assert Corpus(At(w, 6)) == map[] == Corpus(EMPTY);
  }

  lemma RaceServes(env: Env) returns (entry: Entry)
    ensures entry.origin == RaceOrigin()
    ensures RaceAt(env, 16, ADDING + [REMOVING], 2, Served(EmptyVersion(env), 6, 6, entry))
  {
    hide Raced, Key, RaceOrigin, EmptyVersion, VersionAt, Completed;
    entry := RaceStores(env);
    VersionReturns(env, Raced(env, 14));
    RaceStep(env, 14, ReadVersion(2));
    RaceStep(env, 15, Lookup(2, true));
  }

  predicate StoresChunk(corpus: map<nat, Source>) {
    exists id, i :: id in corpus && 0 <= i < |corpus[id].documents| && corpus[id].documents[i].chunks != []
  }

  /** The vector query finds something near exactly where some chunk is stored. */
  ghost predicate FindsWhatIsStored(env: Env) {
    forall m: map<nat, Source> ::
      var near := env.byVector(m, []);
      if StoresChunk(m) then near != [] && AtMost(near[0].distance, Finite(1)) else near == []
  }

  /** What the two queries of request 1 came to, and what they would come to afterwards. */
  lemma RaceOutcomes(env: Env, w: World)
    requires FindsWhatIsStored(env) && w.start == EMPTY && w.writes == ADDING + [REMOVING]
    ensures OutcomeOf(env, w, RaceOrigin()).Some?
    ensures |w.writes| == 6 && Outcome(env, CONFIG, At(w, 6), At(w, 6), [], "q").None?
  {
    StoredAndGone();
    assert w.writes[..6] == w.writes && w.writes[..5] == ADDING;
    hide Run;
    var full := Corpus(At(w, 5));
    assert full[0].documents[0] == DOC;
    assert StoresChunk(full);
    assert !StoresChunk(Corpus(At(w, 6)));
  }

  /** The condition is needed: request 1 reads the version of the empty corpus, retrieves from a newer one and
      files its answer under the empty corpus's version; once the source is gone request 2 is served that
      answer, although nothing is stored any more and a fresh retrieval would refuse. */
  lemma NewerAnswerFiledUnderOlderVersion(env: Env, lease: nat)
    requires FindsWhatIsStored(env)
    ensures var w := After(env, EMPTY, Race());
            && Repository.Valid(EMPTY) && IsHit(env, EMPTY, Race(), 2)
            && w.writes == Ingestion.WritesOf(Ingestion.EMPTY, INGESTED, lease)
            && w.requests[2].pc.entry.cached.grounded
            && Outcome(env, CONFIG, At(w, |w.writes|), At(w, |w.writes|), [], "q").None?
  {
    var entry := RaceServes(env);
    RaceIsIngestion(lease);
    assert Race()[..16] == Race();
    hide Race;
    assert Raced(env, 16) == After(env, EMPTY, Race());
    hide Raced;
    HitIsFiled(env, EMPTY, Race(), 2);
    RaceOutcomes(env, After(env, EMPTY, Race()));
    hide After, At, Outcome, Key, VersionAt;
  }
}

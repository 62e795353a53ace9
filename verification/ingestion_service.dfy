/** `IngestionService` in its own form: claiming a source and running the pipeline are sequences of
    repository calls. What other clients write between two calls is a parameter. */
module IngestionService {
  import opened Text
  import opened Repository
  import opened Ingestion

  datatype ClaimError = Conflict | UniqueViolation

  class Service {
    const repository: IngestionRepository
    const leaseMs: nat

    constructor (repository: IngestionRepository, leaseMs: nat)
      ensures this.repository == repository && this.leaseMs == leaseMs
    {
      this.repository := repository;
      this.leaseMs := leaseMs;
    }

    /** Every write of the protocol's alphabet is one call on the repository. */
    method Perform(w: Write)
      modifies repository
      ensures repository.State() == Apply(old(repository.State()), w)
    {
      match w {
        case CreateW(uri) => var _ := repository.CreateSource(uri);
        case DeleteW(id) => repository.DeleteSource(id);
        case DeleteContentW(id) => repository.DeleteSourceContent(id);
        case MarkProcessingW(id, sha) => repository.MarkSourceProcessing(id, sha);
        case ClaimW(id, staleBefore) => var _ := repository.ClaimForProcessing(id, staleBefore);
        case TouchW(id) => repository.TouchProcessing(id);
        case MarkReadyW(id) => repository.MarkSourceReady(id);
        case MarkFailedW(id, error) => repository.MarkSourceFailed(id, error);
        case RecordSkippedW(id, skipped) => repository.RecordSkippedDocuments(id, skipped);
        case InsertW(id, document) => var _ := repository.InsertDocumentWithChunks(id, document);
        case TickW => repository.clock := repository.clock + 1;
      }
    }

    method Meanwhile(ws: seq<Write>)
      modifies repository
      ensures repository.State() == Run(old(repository.State()), ws)
    {
      for i := 0 to |ws|
        invariant repository.State() == Run(old(repository.State()), ws[..i])
      {
        Perform(ws[i]);
        assert ws[..i + 1][..i] == ws[..i];
      }
      assert ws[..|ws|] == ws;
    }

    /** The threshold is the database's clock at the first statement; the claim is a later one. */
    method Reuse(id: nat, between: seq<Write>) returns (r: Result<nat, ClaimError>)
      modifies repository
      ensures var was := Run(old(repository.State()), between);
              var staleBefore := old(repository.State()).now - leaseMs;
              if Claimable(was, id, staleBefore) then
                r == Ok(id) && repository.State() == DeleteContent(Claim(was, id, staleBefore), id)
              else r == Err(Conflict) && repository.State() == Claim(was, id, staleBefore)
    {
      var now := repository.DatabaseNow();
      var staleBefore := now - leaseMs;
      Meanwhile(between);
      var claimed := repository.ClaimForProcessing(id, staleBefore);
      if claimed.None? {
        return Err(Conflict);
      }
      repository.DeleteSourceContent(id);
      return Ok(id);
    }

    /** A claimed source is empty and running, whichever of the three ways it was claimed; a refusal leaves
        every row as the other clients' writes made it. */
    method ClaimSource(uri: string, beforeCreate: seq<Write>, beforeRetry: seq<Write>, beforeClaim: seq<Write>)
      returns (r: Result<nat, ClaimError>)
      requires Repository.Valid(repository.State())
      modifies repository
      ensures r.Ok? ==> && r.value in repository.rows
                        && (repository.rows[r.value].status == Pending || repository.rows[r.value].status == Processing)
                        && repository.rows[r.value].documents == [] && repository.rows[r.value].documentCount == 0
                        && repository.rows[r.value].updatedAt == repository.clock
                        && repository.rows[r.value].uri == uri
      ensures r.Err? ==>
                var lost := beforeCreate + [CreateW(uri)] + beforeRetry;
                || repository.rows == Run(old(repository.State()), beforeClaim).rows
                || repository.rows == Run(old(repository.State()), lost).rows
                || repository.rows == Run(old(repository.State()), lost + beforeClaim).rows
    {
      ghost var start := repository.State();
      var existing := repository.FindSourceByUri(uri);
      UriStays(start, beforeClaim);
      if existing.Some? {
        r := Reuse(existing.value.0, beforeClaim);
        return;
      }
      Meanwhile(beforeCreate);
      var created := repository.CreateSource(uri);
      if created.Some? {
        return Ok(created.value);
      }
      RunSnoc(start, beforeCreate, CreateW(uri));
      Meanwhile(beforeRetry);
      RunConcat(start, beforeCreate + [CreateW(uri)], beforeRetry);
      var winner := repository.FindSourceByUri(uri);
      if winner.None? {
        return Err(UniqueViolation);
      }
      CountersAlwaysExact(start, beforeCreate + [CreateW(uri)] + beforeRetry);
      UriStays(repository.State(), beforeClaim);
      r := Reuse(winner.value.0, beforeClaim);
      RunConcat(start, beforeCreate + [CreateW(uri)] + beforeRetry, beforeClaim);
    }

    /** What other clients write does not rewrite this row: they renew its stamp, delete it, or work elsewhere. */
    method Others(ws: seq<Write>, id: nat)
      requires Spares(ws, id)
      modifies repository
      ensures Kept(old(repository.State()), repository.State(), id)
      ensures ws == [] ==> repository.State() == old(repository.State())
    {
      SparedRow(repository.State(), ws, id);
      hide Spares, Kept;
      Meanwhile(ws);
    }

    /** The first mark, after what reaches the database while it is awaited. */
    method StartAwaited(ws: seq<Write>, reply: Reply, id: nat, commitSha: Option<string>, ghost start: Db)
      requires Spares(ws, id) && Holds(start, repository.State(), id, [])
      modifies repository
      ensures Holds(start, repository.State(), id, [])
      ensures ws == [] && SameElsewhere(start, old(repository.State()), id)
          ==> SameElsewhere(start, repository.State(), id)
    {
      hide Spares, Holds, Kept, SameElsewhere, MarkProcessing;
      ghost var was := repository.State();
      Others(ws, id);
      KeptHolds(start, was, repository.State(), id, []);
      if !reply.Refused? {
        StartHolds(start, repository.State(), id, commitSha);
        repository.MarkSourceProcessing(id, commitSha);
      }
    }

    /** The insertion of one file. A lost reply leaves it stored and its caller with an error. */
    method InsertAwaited(ws: seq<Write>, reply: Reply, id: nat, document: Document, ghost start: Db,
                         ghost added: seq<Document>)
      returns (ok: bool, ghost stored: bool)
      requires Spares(ws, id) && Holds(start, repository.State(), id, added)
      modifies repository
      ensures Holds(start, repository.State(), id, if stored then added + [document] else added)
      ensures ok ==> stored && reply.Replied?
      ensures ws == [] && SameElsewhere(start, old(repository.State()), id)
          ==> SameElsewhere(start, repository.State(), id)
    {
      hide Spares, Holds, Kept, SameElsewhere, Insert, Insertable;
      ghost var was := repository.State();
      Others(ws, id);
      KeptHolds(start, was, repository.State(), id, added);
      ok, stored := false, false;
      if !reply.Refused? {
        InsertHolds(start, repository.State(), id, added, document);
        ok := repository.InsertDocumentWithChunks(id, document);
        stored := ok;
        ok := ok && reply.Replied?;
      }
    }

    /** The catch block; its own call may fail as well. */
    method FailAwaited(ws: seq<Write>, reply: Reply, id: nat, error: string, ghost start: Db, ghost plan: Plan,
                       ghost k: nat)
      returns (thrown: string)
      requires Spares(ws, id) && k <= |plan| && Holds(start, repository.State(), id, Chosen(plan[..k]))
      modifies repository
      ensures !reply.Refused? ==> EndedFailed(start, repository.State(), id, plan, error)
      ensures LeftOpen(start, repository.State(), id, plan)
      ensures reply.Replied? ==> thrown == error
      ensures ws == [] && SameElsewhere(start, old(repository.State()), id)
          ==> SameElsewhere(start, repository.State(), id)
    {
      hide Spares, Holds, Kept, SameElsewhere, MarkFailed, EndedFailed, LeftOpen, Chosen;
      ghost var was := repository.State();
      Others(ws, id);
      KeptHolds(start, was, repository.State(), id, Chosen(plan[..k]));
      HoldsOpen(start, repository.State(), id, plan, k);
      if !reply.Refused? {
        FailedHolds(start, repository.State(), id, plan, k, error);
        repository.MarkSourceFailed(id, error);
      }
      thrown := if reply.Replied? then error else "database error";
    }

    /** The count of skipped files, then the mark. */
    method EndAwaited(before: seq<Write>, first: Reply, between: seq<Write>, second: Reply, id: nat, skipped: nat,
                      ghost start: Db, ghost plan: Plan)
      returns (ok: bool)
      requires Spares(before, id) && Spares(between, id) && Holds(start, repository.State(), id, Chosen(plan))
      requires skipped == SkippedIn(plan)
      modifies repository
      ensures ok <==> first.Replied? && second.Replied?
      ensures ok ==> EndedReady(start, repository.State(), id, plan)
      ensures !ok ==> Holds(start, repository.State(), id, Chosen(plan))
      ensures before == between == [] && SameElsewhere(start, old(repository.State()), id) ==>
                SameElsewhere(start, repository.State(), id)
    {
      hide Spares, Holds, Kept, SameElsewhere, RecordSkipped, MarkReady, EndedReady, Chosen;
      ghost var was := repository.State();
      Others(before, id);
      KeptHolds(start, was, repository.State(), id, Chosen(plan));
      if first.Refused? {
        return false;
      }
      was := repository.State();
      RecordHolds(start, was, id, Chosen(plan), skipped);
      repository.RecordSkippedDocuments(id, skipped);
      if first.Lost? {
        return false;
      }
      ghost var recorded := repository.State();
      Others(between, id);
      KeptHolds(start, recorded, repository.State(), id, Chosen(plan));
      if second.Refused? {
        return false;
      }
      ReadyHolds(start, was, repository.State(), id, plan);
      repository.MarkSourceReady(id);
      ok := second.Replied?;
    }

    /** The pipeline. embeds(k) says whether the embedding call for file k succeeds, meanwhile(n) what reaches the
        database before the pipeline's own n-th call (heartbeats, a removal of the source, work on other sources),
        reply(n) what becomes of that call: n is 0 for the first mark, k + 1 for file k, then the count, the mark
        and the call of the catch block. */
    method RunPipeline(id: nat, fetched: Result<Option<string>, string>, plan: Plan, embeds: nat -> bool,
                       meanwhile: nat -> seq<Write>, reply: nat -> Reply)
      returns (r: Result<nat, string>)
      requires forall n :: Spares(meanwhile(n), id)
      modifies repository
      ensures r.Ok? ==> EndedReady(old(repository.State()), repository.State(), id, plan)
      ensures r.Ok? ==> r.value == |plan| - SkippedIn(plan)
      ensures r.Err? && reply(|plan| + 3).Replied? ==>
                EndedFailed(old(repository.State()), repository.State(), id, plan, r.error)
      ensures r.Err? && reply(|plan| + 3).Lost? ==>
                exists e :: EndedFailed(old(repository.State()), repository.State(), id, plan, e)
      ensures r.Err? ==> LeftOpen(old(repository.State()), repository.State(), id, plan)
      ensures Quiet(meanwhile) ==> SameElsewhere(old(repository.State()), repository.State(), id)
      ensures r.Ok? ==> fetched.Ok? && reply(0).Replied? && reply(|plan| + 1).Replied? && reply(|plan| + 2).Replied?
      ensures r.Ok? ==> forall k: nat | k < |plan| && plan[k].Some? :: embeds(k) && reply(k + 1).Replied?
    {
      hide Chosen, SkippedIn, Spares, Holds, Kept, SameElsewhere, EndedReady, EndedFailed, LeftOpen, Quiet;
      ghost var start := repository.State();
      NothingDone(start, id, plan);
      QuietIs(meanwhile);
      if fetched.Err? {
        var thrown := FailAwaited(meanwhile(|plan| + 3), reply(|plan| + 3), id, fetched.error, start, plan, 0);
        return Err(thrown);
      }
      StartAwaited(meanwhile(0), reply(0), id, fetched.value, start);
      if !reply(0).Replied? {
        var thrown := FailAwaited(meanwhile(|plan| + 3), reply(|plan| + 3), id, "ingestion failed", start, plan, 0);
        return Err(thrown);
      }
      var skipped := 0;
      for k := 0 to |plan|
        invariant skipped == SkippedIn(plan[..k]) <= k
        invariant Holds(start, repository.State(), id, Chosen(plan[..k]))
        invariant Quiet(meanwhile) ==> SameElsewhere(start, repository.State(), id)
        invariant forall j: nat | j < k && plan[j].Some? :: embeds(j) && reply(j + 1).Replied?
      {
        ChosenSnoc(plan, k);
        SkippedSnoc(plan, k);
        if plan[k].None? {
          assert Chosen(plan[..k]) + [] == Chosen(plan[..k]);
          skipped := skipped + 1;
          continue;
        }
        var ok := embeds(k);
        ghost var stored := false;
        if ok {
          ok, stored := InsertAwaited(meanwhile(k + 1), reply(k + 1), id, plan[k].value, start, Chosen(plan[..k]));
        }
        if !ok {
          var thrown := FailAwaited(meanwhile(|plan| + 3), reply(|plan| + 3), id, "ingestion failed", start, plan,
                                    if stored then k + 1 else k);
          return Err(thrown);
        }
      }
      assert plan[..|plan|] == plan;
      var ended := EndAwaited(meanwhile(|plan| + 1), reply(|plan| + 1), meanwhile(|plan| + 2), reply(|plan| + 2),
                              id, skipped, start, plan);
      if !ended {
        var thrown := FailAwaited(meanwhile(|plan| + 3), reply(|plan| + 3), id, "ingestion failed", start, plan,
            |plan|);
        return Err(thrown);
      }
      return Ok(|plan| - skipped);
    }
  }

  /** The writes leave the row with this id alone, but for its stamp and its existence. */
  predicate Spares(ws: seq<Write>, id: nat) {
    forall i | 0 <= i < |ws| :: SparesIt(ws[i], id)
  }

  predicate SparesIt(w: Write, id: nat) {
    match w
    case DeleteContentW(i) => i != id
    case MarkProcessingW(i, _) => i != id
    case ClaimW(i, _) => i != id
    case MarkReadyW(i) => i != id
    case MarkFailedW(i, _) => i != id
    case RecordSkippedW(i, _) => i != id
    case InsertW(i, _) => i != id
    case _ => true
  }

  /** If the row is still there, it is what it was, but for its stamp. */
  predicate Kept(db: Db, db': Db, id: nat) {
    && db.nextId <= db'.nextId
    && (id < db.nextId && id in db'.rows ==>
          id in db.rows && db'.rows[id] == db.rows[id].(updatedAt := db'.rows[id].updatedAt))
  }

  lemma {:induction false} SparedRow(db: Db, ws: seq<Write>, id: nat)
    requires Spares(ws, id)
    ensures Kept(db, Run(db, ws), id)
  {
    if ws != [] {
      var before := Run(db, ws[..|ws| - 1]);
      SparedRow(db, ws[..|ws| - 1], id);
      SparedByOne(before, ws[|ws| - 1], id);
      hide Apply;
    }
  }

  lemma SparedByOne(db: Db, w: Write, id: nat)
    requires SparesIt(w, id)
    ensures Kept(db, Apply(db, w), id)
  {
  }

  /** If the row is still there, it holds these documents on top of what it held at the start. */
  predicate Holds(start: Db, db: Db, id: nat, added: seq<Document>) {
    && start.nextId <= db.nextId
    && (id < start.nextId && id in db.rows ==>
          id in start.rows && db.rows[id].documents == start.rows[id].documents + added)
  }

  /** A source that is still there is ready, with all chosen documents and the number of skipped ones. */
  predicate EndedReady(start: Db, db: Db, id: nat, plan: Plan) {
    id < start.nextId && id in db.rows ==>
      && id in start.rows && db.rows[id].status == Ready && db.rows[id].skipped == Some(SkippedIn(plan))
      && db.rows[id].documents == start.rows[id].documents + Chosen(plan)
  }

  /** A source that is still there is failed, with the error and the documents chosen from some first files. */
  ghost predicate EndedFailed(start: Db, db: Db, id: nat, plan: Plan, error: string) {
    id < start.nextId && id in db.rows ==>
      && id in start.rows && db.rows[id].status == Failed && db.rows[id].error == Some(error)
      && exists k: nat :: k <= |plan| && db.rows[id].documents == start.rows[id].documents + Chosen(plan[..k])
  }

  /** A source that is still there holds the documents chosen from some first files. */
  ghost predicate LeftOpen(start: Db, db: Db, id: nat, plan: Plan) {
    id < start.nextId && id in db.rows ==>
      && id in start.rows
      && exists k: nat :: k <= |plan| && db.rows[id].documents == start.rows[id].documents + Chosen(plan[..k])
  }

  /** Nobody else writes. */
  ghost predicate Quiet(meanwhile: nat -> seq<Write>) {
    forall n :: meanwhile(n) == []
  }

  predicate SameElsewhere(start: Db, db: Db, id: nat) {
    forall i | i in start.rows && i != id :: i in db.rows && db.rows[i] == start.rows[i]
  }

  lemma NothingDone(start: Db, id: nat, plan: Plan)
    ensures plan[..0] == [] && Chosen([]) == [] && SkippedIn([]) == 0
    ensures SameElsewhere(start, start, id) && Holds(start, start, id, [])
  {
    if id in start.rows { assert start.rows[id].documents + [] == start.rows[id].documents; }
  }

  lemma QuietIs(meanwhile: nat -> seq<Write>)
    ensures Quiet(meanwhile) ==> forall n :: meanwhile(n) == []
  {
  }

  lemma KeptHolds(start: Db, db: Db, db': Db, id: nat, added: seq<Document>)
    requires Holds(start, db, id, added) && Kept(db, db', id)
    ensures Holds(start, db', id, added)
  {
  }

  lemma StartHolds(start: Db, db: Db, id: nat, commitSha: Option<string>)
    requires Holds(start, db, id, [])
    ensures var db' := MarkProcessing(db, id, commitSha);
            Holds(start, db', id, []) && (SameElsewhere(start, db, id) ==> SameElsewhere(start, db', id))
  {
  }

  /** A refused insertion changes no row. */
  lemma InsertHolds(start: Db, db: Db, id: nat, added: seq<Document>, document: Document)
    requires Holds(start, db, id, added)
    ensures var db' := Insert(db, id, document);
            && Holds(start, db', id, if Insertable(db, id, document) then added + [document] else added)
            && (SameElsewhere(start, db, id) ==> SameElsewhere(start, db', id))
  {
    hide Insertable;
    if id in start.rows {
      assert start.rows[id].documents + (added + [document]) == start.rows[id].documents + added + [document];
    }
  }

  lemma FailedHolds(start: Db, db: Db, id: nat, plan: Plan, k: nat, error: string)
    requires k <= |plan| && Holds(start, db, id, Chosen(plan[..k]))
    ensures var db' := MarkFailed(db, id, error);
            && EndedFailed(start, db', id, plan, error) && LeftOpen(start, db', id, plan)
            && (SameElsewhere(start, db, id) ==> SameElsewhere(start, db', id))
  {
    hide Chosen;
  }

  lemma HoldsOpen(start: Db, db: Db, id: nat, plan: Plan, k: nat)
    requires k <= |plan| && Holds(start, db, id, Chosen(plan[..k]))
    ensures LeftOpen(start, db, id, plan)
  {
    hide Chosen;
  }

  lemma RecordHolds(start: Db, db: Db, id: nat, added: seq<Document>, skipped: nat)
    requires Holds(start, db, id, added)
    ensures var db' := RecordSkipped(db, id, skipped);
            Holds(start, db', id, added) && (SameElsewhere(start, db, id) ==> SameElsewhere(start, db', id))
  {
  }

  lemma ReadyHolds(start: Db, db: Db, later: Db, id: nat, plan: Plan)
    requires Holds(start, db, id, Chosen(plan)) && Kept(RecordSkipped(db, id, SkippedIn(plan)), later, id)
    ensures var db' := MarkReady(later, id);
            && EndedReady(start, db', id, plan) && Holds(start, db', id, Chosen(plan))
            && (SameElsewhere(start, later, id) ==> SameElsewhere(start, db', id))
  {
    hide Chosen, SkippedIn;
  }

  /** A row that is still there is still about the same URI. */
  lemma {:induction false} UriStays(db: Db, ws: seq<Write>)
    requires Repository.Valid(db)
    ensures db.nextId <= Run(db, ws).nextId
    ensures forall id | id in Run(db, ws).rows && id < db.nextId ::
              id in db.rows && Run(db, ws).rows[id].uri == db.rows[id].uri
  {
    if ws != [] {
      UriStays(db, ws[..|ws| - 1]);
      ApplyKeepsUris(Run(db, ws[..|ws| - 1]), ws[|ws| - 1]);
      hide Apply;
    }
  }

  lemma ApplyKeepsUris(db: Db, w: Write)
    ensures db.nextId <= Apply(db, w).nextId
    ensures forall id | id in Apply(db, w).rows && id < db.nextId ::
              id in db.rows && Apply(db, w).rows[id].uri == db.rows[id].uri
  {
  }

  lemma SkippedSnoc(plan: Plan, k: nat)
    requires k < |plan|
    ensures SkippedIn(plan[..k + 1]) == SkippedIn(plan[..k]) + if plan[k].None? then 1 else 0
  {
    assert plan[..k + 1][..k] == plan[..k];
  }
}

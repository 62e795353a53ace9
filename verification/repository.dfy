/** `IngestionRepository`: every SQL statement or transaction is one atomic step on the rows, and every
    write stamps its row with the database's clock. */
module Repository {
  import opened Text

  datatype Status = Pending | Processing | Ready | Failed

  datatype ChunkInput = ChunkInput(
    ordinal: nat, content: string, headingPath: seq<string>, tokenCount: nat, embedding: seq<real>,
        filenames: seq<string>)

  datatype Document = Document(path: string, title: Option<string>, chunks: seq<ChunkInput>)

  /** A `sources` row together with the documents (and chunks) that cascade from it. */
  datatype Source = Source(
    uri: string, status: Status, error: Option<string>, commitSha: Option<string>,
    documentCount: int, chunkCount: int, skipped: Option<nat>, updatedAt: nat, documents: seq<Document>)

  /** The database: rows by id, its clock, and the next id never used so far. */
  datatype Db = Db(rows: map<nat, Source>, now: nat, nextId: nat)

  // --------------------------------------------------------------- steps

  /** An UPDATE of at most one row. The clock has moved on since the last write; a missing row is no error. */
  function Update(db: Db, id: nat, row: Source): Db {
    var now := db.now + 1;
    if id in db.rows then db.(rows := db.rows[id := row.(updatedAt := now)], now := now) else db.(now := now)
  }

  function RowOr(db: Db, id: nat): Source {
    if id in db.rows then db.rows[id] else Source([], Failed, None, None, 0, 0, None, 0, [])
  }

  predicate UriTaken(db: Db, uri: string) {
    exists id | id in db.rows :: db.rows[id].uri == uri
  }

  function Create(db: Db, uri: string): Db {
    var now := db.now + 1;
    if UriTaken(db, uri) then db.(now := now)
    else Db(db.rows[db.nextId := Source(uri, Pending, None, None, 0, 0, None, now, [])], now, db.nextId + 1)
  }

  function Delete(db: Db, id: nat): Db {
    Db(map i | i in db.rows && i != id :: db.rows[i], db.now + 1, db.nextId)
  }

  function DeleteContent(db: Db, id: nat): Db {
    Update(db, id, RowOr(db, id).(documentCount := 0, chunkCount := 0, documents := []))
  }

  function MarkProcessing(db: Db, id: nat, commitSha: Option<string>): Db {
    Update(db, id, RowOr(db, id).(status := Processing, commitSha := commitSha, error := None))
  }

  /** The WHERE clause of the claim. */
  predicate Claimable(db: Db, id: nat, staleBefore: int) {
    id in db.rows
    && ((db.rows[id].status != Pending && db.rows[id].status != Processing) || db.rows[id].updatedAt < staleBefore)
  }

  function Claim(db: Db, id: nat, staleBefore: int): Db {
    if Claimable(db, id, staleBefore) then
      Update(db, id, RowOr(db, id).(status := Processing, commitSha := None, error := None))
    else db.(now := db.now + 1)
  }

  function Touch(db: Db, id: nat): Db {
    if RowOr(db, id).status == Processing then Update(db, id, RowOr(db, id)) else db.(now := db.now + 1)
  }

  function MarkReady(db: Db, id: nat): Db {
    Update(db, id, RowOr(db, id).(status := Ready))
  }

  function MarkFailed(db: Db, id: nat, error: string): Db {
    Update(db, id, RowOr(db, id).(status := Failed, error := Some(error)))
  }

  function RecordSkipped(db: Db, id: nat, skipped: nat): Db {
    Update(db, id, RowOr(db, id).(skipped := Some(skipped)))
  }

  /** The constraints an inserted document meets: its source exists, its path is new there, its chunks'
      ordinals are distinct. Otherwise the whole transaction is rolled back. */
  predicate Insertable(db: Db, id: nat, document: Document) {
    && id in db.rows
    && (forall i | 0 <= i < |db.rows[id].documents| :: db.rows[id].documents[i].path != document.path)
    && (forall i, j | 0 <= i < j < |document.chunks| :: document.chunks[i].ordinal != document.chunks[j].ordinal)
  }

  function Insert(db: Db, id: nat, document: Document): Db {
    if !Insertable(db, id, document) then db.(now := db.now + 1)
    else
      var row := db.rows[id];
      Update(db, id, row.(documentCount := row.documentCount + 1,
                          chunkCount := row.chunkCount + |document.chunks|,
                          documents := row.documents + [document]))
  }

  datatype Write =
    | CreateW(uri: string)
    | DeleteW(id: nat)
    | DeleteContentW(id: nat)
    | MarkProcessingW(id: nat, commitSha: Option<string>)
    | ClaimW(id: nat, staleBefore: int)
    | TouchW(id: nat)
    | MarkReadyW(id: nat)
    | MarkFailedW(id: nat, error: string)
    | RecordSkippedW(id: nat, skipped: nat)
    | InsertW(id: nat, document: Document)
    | TickW

  function Apply(db: Db, w: Write): Db {
    match w
    case CreateW(uri) => Create(db, uri)
    case DeleteW(id) => Delete(db, id)
    case DeleteContentW(id) => DeleteContent(db, id)
    case MarkProcessingW(id, sha) => MarkProcessing(db, id, sha)
    case ClaimW(id, staleBefore) => Claim(db, id, staleBefore)
    case TouchW(id) => Touch(db, id)
    case MarkReadyW(id) => MarkReady(db, id)
    case MarkFailedW(id, error) => MarkFailed(db, id, error)
    case RecordSkippedW(id, skipped) => RecordSkipped(db, id, skipped)
    case InsertW(id, document) => Insert(db, id, document)
    case TickW => db.(now := db.now + 1)
  }

  function Run(db: Db, ws: seq<Write>): Db {
    if ws == [] then db else Apply(Run(db, ws[..|ws| - 1]), ws[|ws| - 1])
  }

  lemma RunSnoc(db: Db, ws: seq<Write>, w: Write)
    ensures Run(db, ws + [w]) == Apply(Run(db, ws), w)
  {
    assert (ws + [w])[..|ws|] == ws;
  }

  lemma {:induction false} RunConcat(db: Db, a: seq<Write>, b: seq<Write>)
    ensures Run(db, a + b) == Run(Run(db, a), b)
  {
    if b == [] {
      assert a + b == a;
    } else {
      assert (a + b)[..|a + b| - 1] == a + b[..|b| - 1];
      RunConcat(db, a, b[..|b| - 1]);
    }
  }

  // ----------------------------------------------------------- the class

  class IngestionRepository {
    var rows: map<nat, Source>
    var clock: nat
    var nextId: nat

    ghost function State(): Db
      reads this
    {
      Db(rows, clock, nextId)
    }

    constructor ()
      ensures State() == Db(map[], 0, 0)
    {
      rows, clock, nextId := map[], 0, 0;
    }

    method CreateSource(uri: string) returns (r: Option<nat>)
      modifies this
      ensures State() == Create(old(State()), uri)
      ensures r == if UriTaken(old(State()), uri) then None else Some(old(nextId))
    {
      clock := clock + 1;
      if exists id | id in rows :: rows[id].uri == uri {
        return None;
      }
      rows := rows[nextId := Source(uri, Pending, None, None, 0, 0, None, clock, [])];
      r := Some(nextId);
      nextId := nextId + 1;
    }

    method FindSourceByUri(uri: string) returns (r: Option<(nat, Source)>)
      ensures r.None? <==> !UriTaken(State(), uri)
      ensures r.Some? ==> r.value.0 in rows && rows[r.value.0] == r.value.1 && r.value.1.uri == uri
    {
      if id :| id in rows && rows[id].uri == uri {
        return Some((id, rows[id]));
      }
      return None;
    }

    method DeleteSource(id: nat)
      modifies this
      ensures State() == Delete(old(State()), id)
    {
      clock := clock + 1;
      rows := map i | i in rows && i != id :: rows[i];
    }

    /** Two statements, one transaction. */
    method DeleteSourceContent(id: nat)
      modifies this
      ensures State() == DeleteContent(old(State()), id)
    {
      clock := clock + 1;
      if id in rows {
        rows := rows[id := rows[id].(documents := [])];
        rows := rows[id := rows[id].(documentCount := 0, chunkCount := 0, updatedAt := clock)];
      }
    }

    method MarkSourceProcessing(id: nat, commitSha: Option<string>)
      modifies this
      ensures State() == MarkProcessing(old(State()), id, commitSha)
    {
      clock := clock + 1;
      if id in rows {
        rows := rows[id := rows[id].(status := Processing, commitSha := commitSha, error := None, updatedAt := clock)];
      }
    }

    method DatabaseNow() returns (now: nat)
      ensures now == State().now
    {
      now := clock;
    }

    method ClaimForProcessing(id: nat, staleBefore: int) returns (claimed: Option<Source>)
      modifies this
      ensures State() == Claim(old(State()), id, staleBefore)
      ensures claimed == if Claimable(old(State()), id, staleBefore) then Some(State().rows[id]) else None
    {
      clock := clock + 1;
      if id in rows && ((rows[id].status != Pending && rows[id].status != Processing)
          || rows[id].updatedAt < staleBefore) {
        rows := rows[id := rows[id].(status := Processing, commitSha := None, error := None, updatedAt := clock)];
        return Some(rows[id]);
      }
      return None;
    }

    method TouchProcessing(id: nat)
      modifies this
      ensures State() == Touch(old(State()), id)
    {
      clock := clock + 1;
      if id in rows && rows[id].status == Processing {
        rows := rows[id := rows[id].(updatedAt := clock)];
      }
    }

    method MarkSourceReady(id: nat)
      modifies this
      ensures State() == MarkReady(old(State()), id)
    {
      clock := clock + 1;
      if id in rows {
        rows := rows[id := rows[id].(status := Ready, updatedAt := clock)];
      }
    }

    method MarkSourceFailed(id: nat, error: string)
      modifies this
      ensures State() == MarkFailed(old(State()), id, error)
    {
      clock := clock + 1;
      if id in rows {
        rows := rows[id := rows[id].(status := Failed, error := Some(error), updatedAt := clock)];
      }
    }

    method RecordSkippedDocuments(id: nat, skipped: nat)
      modifies this
      ensures State() == RecordSkipped(old(State()), id, skipped)
    {
      clock := clock + 1;
      if id in rows {
        rows := rows[id := rows[id].(skipped := Some(skipped), updatedAt := clock)];
      }
    }

    method InsertDocumentWithChunks(id: nat, document: Document) returns (ok: bool)
      modifies this
      ensures State() == Insert(old(State()), id, document)
      ensures ok == Insertable(old(State()), id, document)
    {
      clock := clock + 1;
      if id !in rows
         || (exists i | 0 <= i < |rows[id].documents| :: rows[id].documents[i].path == document.path)
         || (exists i, j | 0 <= i < j < |document.chunks| :: document.chunks[i].ordinal == document.chunks[j].ordinal) {
        return false;
      }
      rows := rows[id := rows[id].(documents := rows[id].documents + [document])];
      rows := rows[id := rows[id].(documentCount := rows[id].documentCount + 1,
                                   chunkCount := rows[id].chunkCount + |document.chunks|,
                                   updatedAt := clock)];
      return true;
    }
  }

  // ---------------------------------------------------------- invariants

  function ChunkTotal(documents: seq<Document>): nat {
    if documents == [] then 0
    else ChunkTotal(documents[..|documents| - 1]) + |documents[|documents| - 1].chunks|
  }

  /** The counters are the actual numbers of rows. */
  predicate Counted(row: Source) {
    row.documentCount == |row.documents| && row.chunkCount == ChunkTotal(row.documents)
  }

  predicate Valid(db: Db) {
    && (forall id | id in db.rows :: id < db.nextId && db.rows[id].updatedAt <= db.now && Counted(db.rows[id]))
    && (forall i, j | i in db.rows && j in db.rows :: db.rows[i].uri == db.rows[j].uri ==> i == j)
  }

  lemma UpdateValid(db: Db, id: nat, row: Source)
    requires Valid(db) && (id in db.rows ==> Counted(row) && row.uri == db.rows[id].uri)
    ensures Valid(Update(db, id, row))
  {
  }

  /** Counters, stamps and the uniqueness of ids and URIs survive every single write. */
  lemma ApplyValid(db: Db, w: Write)
    requires Valid(db)
    ensures Valid(Apply(db, w))
  {
    hide Valid;
    match w {
      case CreateW(uri) => CreateValid(db, uri);
      case DeleteW(id) => DeleteValid(db, id);
      case InsertW(id, document) => InsertValid(db, id, document);
      case _ => PlainUpdateValid(db, w);
    }
  }

  lemma CreateValid(db: Db, uri: string)
    requires Valid(db)
    ensures Valid(Create(db, uri))
  {
  }

  lemma DeleteValid(db: Db, id: nat)
    requires Valid(db)
    ensures Valid(Delete(db, id))
  {
  }

  lemma InsertValid(db: Db, id: nat, document: Document)
    requires Valid(db)
    ensures Valid(Insert(db, id, document))
  {
    if Insertable(db, id, document) {
      var row := db.rows[id];
      assert (row.documents + [document])[..|row.documents|] == row.documents;
      UpdateValid(db, id, row.(documentCount := row.documentCount + 1,
                               chunkCount := row.chunkCount + |document.chunks|,
                               documents := row.documents + [document]));
    }
  }

  lemma TickValid(db: Db)
    requires Valid(db)
    ensures Valid(db.(now := db.now + 1))
  {
  }

  lemma RowIsCounted(db: Db, id: nat)
    requires Valid(db) && id in db.rows
    ensures Counted(db.rows[id])
  {
  }

  lemma PlainUpdateValid(db: Db, w: Write)
    requires Valid(db) && !w.CreateW? && !w.DeleteW? && !w.InsertW?
    ensures Valid(Apply(db, w))
  {
    hide Valid, Update;
    TickValid(db);
    if !w.TickW? {
      if w.id in db.rows {
        RowIsCounted(db, w.id);
      }
      var row := RowOr(db, w.id);
      match w {
        case DeleteContentW(id) => UpdateValid(db, id, row.(documentCount := 0, chunkCount := 0, documents := []));
        case MarkProcessingW(id, sha) => UpdateValid(db, id,
            row.(status := Processing, commitSha := sha, error := None));
        case ClaimW(id, _) => UpdateValid(db, id, row.(status := Processing, commitSha := None, error := None));
        case TouchW(id) => UpdateValid(db, id, row);
        case MarkReadyW(id) => UpdateValid(db, id, row.(status := Ready));
        case MarkFailedW(id, error) => UpdateValid(db, id, row.(status := Failed, error := Some(error)));
        case RecordSkippedW(id, skipped) => UpdateValid(db, id, row.(skipped := Some(skipped)));
      }
    }
  }

  /** In every state of every run, whatever the interleaving and with no hypothesis on leases,
      document_count and chunk_count are the numbers of documents and chunks stored. */
  lemma {:induction false} CountersAlwaysExact(db: Db, ws: seq<Write>)
    requires Valid(db)
    ensures Valid(Run(db, ws))
    ensures forall id | id in Run(db, ws).rows :: Counted(Run(db, ws).rows[id])
  {
    if ws != [] {
      CountersAlwaysExact(db, ws[..|ws| - 1]);
      ApplyValid(Run(db, ws[..|ws| - 1]), ws[|ws| - 1]);
    }
  }

  /** A row not found as it was has been written since, and carries a later stamp. */
  predicate OldOrNewer(db: Db, later: Db) {
    && db.now <= later.now
    && forall id | id in later.rows ::
         (id in db.rows && later.rows[id] == db.rows[id]) || db.now < later.rows[id].updatedAt
  }

  lemma {:induction false} RunOldOrNewer(db: Db, ws: seq<Write>)
    ensures OldOrNewer(db, Run(db, ws))
  {
    if ws != [] {
      RunOldOrNewer(db, ws[..|ws| - 1]);
      ApplyOldOrNewer(db, Run(db, ws[..|ws| - 1]), ws[|ws| - 1]);
    }
  }

  lemma UpdateOldOrNewer(db: Db, mid: Db, id: nat, row: Source)
    requires OldOrNewer(db, mid)
    ensures OldOrNewer(db, Update(mid, id, row))
  {
  }

  lemma ApplyOldOrNewer(db: Db, mid: Db, w: Write)
    requires OldOrNewer(db, mid)
    ensures OldOrNewer(db, Apply(mid, w))
  {
    if w.CreateW? || w.DeleteW? || w.TickW? {
      return;
    }
    hide Update, OldOrNewer;
    TickOldOrNewer(db, mid);
    var row, id := RowOr(mid, w.id), w.id;
    match w {
      case DeleteContentW(_) => UpdateOldOrNewer(db, mid, id,
          row.(documentCount := 0, chunkCount := 0, documents := []));
      case MarkProcessingW(_, sha) => UpdateOldOrNewer(db, mid, id,
          row.(status := Processing, commitSha := sha, error := None));
      case ClaimW(_, _) => UpdateOldOrNewer(db, mid, id, row.(status := Processing, commitSha := None, error := None));
      case TouchW(_) => UpdateOldOrNewer(db, mid, id, row);
      case MarkReadyW(_) => UpdateOldOrNewer(db, mid, id, row.(status := Ready));
      case MarkFailedW(_, error) => UpdateOldOrNewer(db, mid, id, row.(status := Failed, error := Some(error)));
      case RecordSkippedW(_, skipped) => UpdateOldOrNewer(db, mid, id, row.(skipped := Some(skipped)));
      case InsertW(_, d) =>
        UpdateOldOrNewer(db, mid, id, row.(documentCount := row.documentCount + 1,
                                           chunkCount := row.chunkCount + |d.chunks|,
                                           documents := row.documents + [d]));
    }
  }

  lemma TickOldOrNewer(db: Db, mid: Db)
    requires OldOrNewer(db, mid)
    ensures OldOrNewer(db, mid.(now := mid.now + 1))
  {
  }

  // ------------------------------------------- what each write is there for

  /** The write finds the row it is meant for and, where it is conditional, in the state it asks for. */
  predicate WritesTo(db: Db, w: Write, id: nat) {
    match w
    case CreateW(uri) => !UriTaken(db, uri) && id == db.nextId
    case DeleteW(_) => false
    case TickW => false
    case ClaimW(i, staleBefore) =>
      i == id && id in db.rows
      && (db.rows[id].status == Ready || db.rows[id].status == Failed || db.rows[id].updatedAt < staleBefore)
    case TouchW(i) => i == id && id in db.rows && db.rows[id].status == Processing
    case InsertW(i, document) => i == id && Insertable(db, id, document)
    case _ => w.id == id && id in db.rows
  }

  /** Exactly the row a write is meant for carries the time of the write; no other is touched. */
  lemma WriteStamps(db: Db, w: Write, id: nat)
    ensures Apply(db, w).now == db.now + 1
    ensures WritesTo(db, w, id) ==> id in Apply(db, w).rows && Apply(db, w).rows[id].updatedAt == db.now + 1
    ensures !WritesTo(db, w, id) ==>
              (id in Apply(db, w).rows <==> id in db.rows && w != DeleteW(id))
              && (id in Apply(db, w).rows ==> Apply(db, w).rows[id] == db.rows[id])
  {
  }

  /** Column by column: which write changes it, and to what. */
  lemma ColumnsWritten(db: Db, w: Write, id: nat)
    requires id in db.rows && WritesTo(db, w, id) && !w.CreateW?
    ensures id in Apply(db, w).rows
    ensures var was, row := db.rows[id], Apply(db, w).rows[id];
            && row.uri == was.uri
            && row.status == (if w.MarkReadyW? then Ready else if w.MarkFailedW? then Failed
                              else if w.MarkProcessingW? || w.ClaimW? then Processing else was.status)
            && row.error == (if w.MarkFailedW? then Some(w.error)
                             else if w.MarkProcessingW? || w.ClaimW? then None else was.error)
            && row.commitSha == (if w.MarkProcessingW? then w.commitSha else if w.ClaimW? then None else was.commitSha)
            && row.skipped == (if w.RecordSkippedW? then Some(w.skipped) else was.skipped)
            && row.documents == (if w.InsertW? then was.documents + [w.document]
                                 else if w.DeleteContentW? then [] else was.documents)
  {
  }

  /** A heartbeat keeps a running source from every claim whose threshold was read before the next write, and
      is a stamp and nothing else; elsewhere it is nothing at all. */
  lemma HeartbeatRenews(db: Db, id: nat)
    requires Valid(db)
    ensures var db' := Touch(db, id);
            if id in db.rows && db.rows[id].status == Processing then
              && id in db'.rows && db'.rows[id].updatedAt == db'.now > db.rows[id].updatedAt
              && db'.rows[id] == db.rows[id].(updatedAt := db'.now)
              && (forall staleBefore: int | staleBefore <= db'.now :: !Claimable(db', id, staleBefore))
              && (forall i | i in db.rows && i != id :: i in db'.rows && db'.rows[i] == db.rows[i])
              && db'.rows.Keys == db.rows.Keys
            else db'.rows == db.rows
  {
  }

  /** After a claim no claim whose threshold was read before it succeeds; once the source is marked ready or failed
      any claim does. */
  lemma ClaimsExclude(db: Db, id: nat, one: int, other: int, error: string)
    requires Claimable(db, id, one) && other <= db.now + 1
    ensures var db' := Claim(db, id, one);
            && !Claimable(db', id, other)
            && Claimable(MarkReady(db', id), id, other) && Claimable(MarkFailed(db', id, error), id, other)
  {
  }

  /** A URI belongs to one source until it is deleted. */
  lemma UrisAreOwned(db: Db, uri: string)
    requires Valid(db) && !UriTaken(db, uri)
    ensures var db' := Create(db, uri);
            && UriTaken(db', uri) && db'.rows[db.nextId].status == Pending && db'.rows[db.nextId].documents == []
            && Create(db', uri).rows == db'.rows && !UriTaken(Delete(db', db.nextId), uri)
  {
    var db' := Create(db, uri);
    assert db.nextId in db'.rows && db'.rows[db.nextId].uri == uri;
  }

  /** What the two unique constraints hold: a source's documents have different paths, a document's chunks different
      ordinals. */
  predicate Distinct(documents: seq<Document>) {
    && (forall i, j | 0 <= i < j < |documents| :: documents[i].path != documents[j].path)
    && (forall d | d in documents :: DistinctOrdinals(d))
  }

  predicate DistinctOrdinals(d: Document) {
    forall i, j | 0 <= i < j < |d.chunks| :: d.chunks[i].ordinal != d.chunks[j].ordinal
  }

  predicate AllDistinct(db: Db) {
    forall id | id in db.rows :: Distinct(db.rows[id].documents)
  }

  lemma OneMoreDistinct(documents: seq<Document>, d: Document)
    requires Distinct(documents)
    ensures Distinct(documents + [d]) <==>
            DistinctOrdinals(d) && forall i | 0 <= i < |documents| :: documents[i].path != d.path
  {
    hide DistinctOrdinals;
    var more := documents + [d];
    assert more[|documents|] == d && d in more;
    assert forall i | 0 <= i < |documents| :: more[i] == documents[i];
    if Distinct(more) {
      assert forall i | 0 <= i < |documents| :: more[i].path != more[|documents|].path;
    }
  }

  /** An insertion goes through exactly if the source is there and its documents would still be told apart; otherwise
      no row is changed. */
  lemma InsertedIff(db: Db, id: nat, d: Document)
    requires AllDistinct(db)
    ensures if id in db.rows && Distinct(db.rows[id].documents + [d]) then
              Insert(db, id, d).rows.Keys == db.rows.Keys
              && Insert(db, id, d).rows[id].documents == db.rows[id].documents + [d]
            else Insert(db, id, d).rows == db.rows
  {
    hide Distinct, DistinctOrdinals;
    if id in db.rows {
      OneMoreDistinct(db.rows[id].documents, d);
      assert Insertable(db, id, d) <==> Distinct(db.rows[id].documents + [d]) by { hide *; InsertableIs(db, id, d); }
    }
  }

  lemma InsertableIs(db: Db, id: nat, d: Document)
    requires id in db.rows
    ensures Insertable(db, id, d) <==>
            && DistinctOrdinals(d)
            && forall i | 0 <= i < |db.rows[id].documents| :: db.rows[id].documents[i].path != d.path
  {
  }

  /** They are told apart in every state of every run. */
  lemma {:induction false} DistinctAlways(db: Db, ws: seq<Write>)
    requires AllDistinct(db)
    ensures AllDistinct(Run(db, ws))
  {
    if ws != [] {
      DistinctAlways(db, ws[..|ws| - 1]);
      StaysDistinct(Run(db, ws[..|ws| - 1]), ws[|ws| - 1]);
    }
  }

  lemma StaysDistinct(db: Db, w: Write)
    requires AllDistinct(db)
    ensures AllDistinct(Apply(db, w))
  {
    hide Apply, Distinct, WritesTo;
    forall id | id in Apply(db, w).rows
      ensures Distinct(Apply(db, w).rows[id].documents)
    {
      WriteStamps(db, w, id);
      if WritesTo(db, w, id) { WrittenDistinct(db, w, id); }
    }
  }

  lemma WrittenDistinct(db: Db, w: Write, id: nat)
    requires AllDistinct(db) && WritesTo(db, w, id)
    ensures id in Apply(db, w).rows && Distinct(Apply(db, w).rows[id].documents)
  {
    hide Distinct;
    NothingIsDistinct();
    if w.CreateW? {
      return;
    }
    ColumnsWritten(db, w, id);
    if w.InsertW? {
      OneMoreDistinct(db.rows[id].documents, w.document);
      InsertableIs(db, id, w.document);
    }
    hide Apply;
  }

  lemma NothingIsDistinct()
    ensures Distinct([])
  {
  }
}

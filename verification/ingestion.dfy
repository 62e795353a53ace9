/** `IngestionService` as a protocol: any number of runs, each at a program point, interleaved with
    heartbeats, crashes and deletes. Every step is at most one statement on the database. */
module Ingestion {
  import opened Text
  import opened Repository

  /** What one loaded file comes to: a document to insert, or nothing (unreadable, or no chunk in it). */
  type Plan = seq<Option<Document>>

  function Chosen(plan: Plan): seq<Document> {
    if plan == [] then []
    else
      var last := plan[|plan| - 1];
      Chosen(plan[..|plan| - 1]) + if last.Some? then [last.value] else []
  }

  function SkippedIn(plan: Plan): nat {
    if plan == [] then 0 else SkippedIn(plan[..|plan| - 1]) + if plan[|plan| - 1].None? then 1 else 0
  }

  // ------------------------------------------------------------ the runs

  datatype Pc =
    | Looking                               // findSourceByUri
    | Creating                              // no row: createSource
    | Refinding                             // unique violation: findSourceByUri again
    | Reusing(id: nat)                      // databaseNow
    | Claiming(id: nat, staleBefore: int)   // claimForProcessing
    | Clearing(id: nat)                     // claimed: deleteSourceContent
    | Fetching(id: nat)                     // fetchSource, markProcessing
    | Working(id: nat, k: nat)              // k files done
    | Finishing(id: nat)                    // recordSkipped done: markReady
    | Failing(id: nat)                      // caught: markFailed
    | Over

  datatype IngestRun = IngestRun(uri: string, plan: Plan, commitSha: Option<string>, pc: Pc)

  /** The run may still write to its source. */
  predicate Live(r: IngestRun) {
    r.pc.Clearing? || r.pc.Fetching? || r.pc.Working? || r.pc.Finishing? || r.pc.Failing?
  }

  predicate LiveOn(r: IngestRun, id: nat) {
    Live(r) && r.pc.id == id
  }

  /** readyBy remembers, for each row, the run that last marked it ready. */
  datatype World = World(db: Db, runs: map<nat, IngestRun>, readyBy: map<nat, IngestRun>)

  /** What becomes of the call at a run's program point: it is done and says so, it fails, or it is done and
      its caller sees an error all the same. */
  datatype Reply = Replied | Refused | Lost

  datatype Event =
    | Begin(rid: nat, uri: string, plan: Plan, commitSha: Option<string>)
    | Proceed(rid: nat, reply: Reply)
    | Crash(rid: nat)
    | Heartbeat(id: nat)
    | Remove(id: nat)
    | Tick

  ghost function IdOf(db: Db, uri: string): (id: nat)
    requires UriTaken(db, uri)
    ensures id in db.rows && db.rows[id].uri == uri
  {
    var id :| id in db.rows && db.rows[id].uri == uri;
    id
  }

  function At(w: World, rid: nat, pc: Pc): World
    requires rid in w.runs
  {
    w.(runs := w.runs[rid := w.runs[rid].(pc := pc)])
  }

  /** The statement at a run's program point, done. */
  function Commit(w: World, rid: nat): World
    requires rid in w.runs
  {
    var r, db := w.runs[rid], w.db;
    match r.pc
    case Creating => w.(db := Create(db, r.uri))
    case Claiming(id, staleBefore) => w.(db := Claim(db, id, staleBefore))
    case Clearing(id) => w.(db := DeleteContent(db, id))
    case Fetching(id) => w.(db := MarkProcessing(db, id, r.commitSha))
    case Working(id, k) =>
      if k >= |r.plan| then w.(db := RecordSkipped(db, id, SkippedIn(r.plan)))
      else if r.plan[k].Some? then w.(db := Insert(db, id, r.plan[k].value))
      else w
    case Finishing(id) => w.(db := MarkReady(db, id), readyBy := w.readyBy[id := r])
    case Failing(id) => w.(db := MarkFailed(db, id, "ingestion failed"))
    case _ => w
  }

  /** Where the answer leads. */
  ghost function Passed(w: World, rid: nat, lease: nat): Pc
    requires rid in w.runs
  {
    var r, db := w.runs[rid], w.db;
    match r.pc
    case Looking => if UriTaken(db, r.uri) then Reusing(IdOf(db, r.uri)) else Creating
    case Creating => if UriTaken(db, r.uri) then Refinding else Fetching(db.nextId)
    case Refinding => if UriTaken(db, r.uri) then Reusing(IdOf(db, r.uri)) else Over
    case Reusing(id) => Claiming(id, db.now - lease)
    case Claiming(id, staleBefore) => if Claimable(db, id, staleBefore) then Clearing(id) else Over
    case Clearing(id) => Fetching(id)
    case Fetching(id) => Working(id, 0)
    case Working(id, k) =>
      if k >= |r.plan| then Finishing(id)
      else if r.plan[k].None? || Insertable(db, id, r.plan[k].value) then Working(id, k + 1)
      else Failing(id)
    case _ => Over
  }

  /** Where an error leads: out of the claim, or to the catch block of the pipeline. */
  function Thrown(pc: Pc): Pc {
    if pc.Fetching? || pc.Working? || pc.Finishing? then Failing(pc.id) else Over
  }

  /** One step of a run. A file that comes to nothing is passed over without a call. */
  ghost function Advance(w: World, rid: nat, reply: Reply, lease: nat): World
    requires rid in w.runs
  {
    var r := w.runs[rid];
    if r.pc.Working? && r.pc.k < |r.plan| && r.plan[r.pc.k].None? then At(w, rid, Working(r.pc.id, r.pc.k + 1))
    else
      match reply
      case Replied => At(Commit(w, rid), rid, Passed(w, rid, lease))
      case Refused => At(w, rid, Thrown(r.pc))
      case Lost => At(Commit(w, rid), rid, Thrown(r.pc))
  }

  ghost function Next(w: World, e: Event, lease: nat): World {
    match e
    case Begin(rid, uri, plan, sha) =>
      if rid in w.runs then w else w.(runs := w.runs[rid := IngestRun(uri, plan, sha, Looking)])
    case Proceed(rid, reply) => if rid in w.runs then Advance(w, rid, reply, lease) else w
    case Crash(rid) => if rid in w.runs then At(w, rid, Over) else w
    case Heartbeat(id) => w.(db := Touch(w.db, id))
    case Remove(id) => w.(db := Delete(w.db, id))
    case Tick => w.(db := w.db.(now := w.db.now + 1))
  }

  ghost function After(w: World, events: seq<Event>, lease: nat): World {
    if events == [] then w else Next(After(w, events[..|events| - 1], lease), events[|events| - 1], lease)
  }

  // ------------------------------------------------------- the hypothesis

  /** Every live run has stamped its row within the lease. */
  predicate LeaseKept(w: World, lease: nat) {
    forall rid | rid in w.runs && Live(w.runs[rid]) && w.runs[rid].pc.id in w.db.rows ::
      w.db.now <= w.db.rows[w.runs[rid].pc.id].updatedAt + lease
  }

  ghost predicate LeaseKeptThroughout(w: World, events: seq<Event>, lease: nat) {
    forall i | 0 <= i <= |events| :: LeaseKept(After(w, events[..i], lease), lease)
  }

  /** A run whose last call, marking its source ready, was done but reported as failed is still live: it is
      about to mark the source failed. This step claims the ready source from under it. */
  predicate StrayClaim(w: World, e: Event) {
    && e.Proceed? && e.reply.Replied? && e.rid in w.runs && w.runs[e.rid].pc.Claiming?
    && var id := w.runs[e.rid].pc.id;
       id in w.db.rows && w.db.rows[id].status == Ready && !Alone(w, e.rid, id)
  }

  ghost predicate NoStrayClaim(w: World, events: seq<Event>, lease: nat) {
    forall i | 0 <= i < |events| :: !StrayClaim(After(w, events[..i], lease), events[i])
  }

  /** No other run is live where this one is. */
  predicate Alone(w: World, rid: nat, id: nat) {
    forall o | o in w.runs && o != rid :: !LiveOn(w.runs[o], id)
  }

  // --------------------------------------------------------- the invariant

  /** At most one live run per source. */
  predicate Exclusive(runs: map<nat, IngestRun>) {
    forall a, b | a in runs && b in runs && Live(runs[a]) && Live(runs[b]) && runs[a].pc.id == runs[b].pc.id :: a == b
  }

  /** The row stores the documents of this run that were not skipped, all of them and in order. */
  predicate HoldsWhole(row: Source, r: IngestRun) {
    && row.documents == Chosen(r.plan)
    && row.skipped == Some(SkippedIn(r.plan))
    && row.commitSha == r.commitSha
  }

  /** What a run at this point relies on. */
  predicate Consistent(db: Db, r: IngestRun, lease: nat) {
    && (Live(r) ==> r.pc.id < db.nextId)
    && (r.pc.Claiming? ==> r.pc.staleBefore <= db.now - lease)
    && (r.pc.Working? ==> r.pc.k <= |r.plan|)
    && (Live(r) && r.pc.id in db.rows ==>
          var row := db.rows[r.pc.id];
          && (row.status == Pending || row.status == Processing || (row.status == Ready && r.pc.Failing?))
          && (r.pc.Fetching? ==> row.documents == [])
          && (r.pc.Working? ==> row.documents == Chosen(r.plan[..r.pc.k]) && row.commitSha == r.commitSha)
          && (r.pc.Finishing? ==> HoldsWhole(row, r)))
  }

  /** A ready row holds the whole of one run and nothing else. */
  predicate WholeGeneration(w: World, id: nat)
    requires id in w.db.rows
  {
    w.db.rows[id].status == Ready ==>
      id in w.readyBy && HoldsWhole(w.db.rows[id], w.readyBy[id])
  }

  predicate Inv(w: World, lease: nat) {
    && Exclusive(w.runs)
    && (forall rid | rid in w.runs :: Consistent(w.db, w.runs[rid], lease))
    && (forall id | id in w.db.rows :: id < w.db.nextId && WholeGeneration(w, id))
  }

  /** A write that no live run but `rid` can notice: every other row is kept as it is or loses nothing a
      live run relies on. */
  predicate Undisturbed(db: Db, db': Db, own: nat) {
    && db.now <= db'.now && db.nextId <= db'.nextId
    && forall id | id in db'.rows && id != own :: id in db.rows && db'.rows[id] == db.rows[id]
  }

  lemma OthersConsistent(w: World, db': Db, rid: nat, own: nat, lease: nat)
    requires Inv(w, lease) && rid in w.runs
    requires Undisturbed(w.db, db', own)
    requires forall o | o in w.runs && o != rid :: !LiveOn(w.runs[o], own)
    ensures forall o | o in w.runs && o != rid :: Consistent(db', w.runs[o], lease)
  {
  }

  /** Putting the pieces together after a step of run rid that wrote to row `own` at most. */
  lemma StepKeepsInv(w: World, w': World, rid: nat, own: nat, lease: nat)
    requires Inv(w, lease) && rid in w.runs
    requires rid in w'.runs && w'.runs == w.runs[rid := w'.runs[rid]]
    requires Undisturbed(w.db, w'.db, own)
    requires forall id | id != own && id in w.readyBy :: id in w'.readyBy && w'.readyBy[id] == w.readyBy[id]
    requires forall o | o in w.runs && o != rid :: !LiveOn(w.runs[o], own)
    requires Live(w'.runs[rid]) ==> w'.runs[rid].pc.id == own
    requires Consistent(w'.db, w'.runs[rid], lease)
    requires own in w'.db.rows ==> own < w'.db.nextId && WholeGeneration(w', own)
    ensures Inv(w', lease)
  {
    OthersConsistent(w, w'.db, rid, own, lease);
    forall id | id in w'.db.rows
      ensures id < w'.db.nextId && WholeGeneration(w', id)
    {
      if id != own {
        assert WholeGeneration(w, id);
      }
    }
  }

  /** A step that changes no row and leaves the run not live, or live where it was. */
  lemma QuietStepKeepsInv(w: World, rid: nat, pc: Pc, lease: nat)
    requires Inv(w, lease) && rid in w.runs
    requires Live(w.runs[rid].(pc := pc)) ==> LiveOn(w.runs[rid], pc.id)
    requires Consistent(w.db, w.runs[rid].(pc := pc), lease)
    ensures Inv(At(w, rid, pc), lease)
  {
    forall id | id in w.db.rows
      ensures id < w.db.nextId && WholeGeneration(At(w, rid, pc), id)
    {
      assert WholeGeneration(w, id);
    }
  }

  lemma ChosenSnoc(plan: Plan, k: nat)
    requires k < |plan|
    ensures Chosen(plan[..k + 1]) == Chosen(plan[..k]) + if plan[k].Some? then [plan[k].value] else []
  {
    assert plan[..k + 1][..k] == plan[..k];
  }

  /** Which files come to a document. */
  function Fruitful(plan: Plan): (r: seq<bool>)
    ensures |r| == |plan|
  {
    seq(|plan|, i requires 0 <= i < |plan| => plan[i].Some?)
  }

  lemma OneMoreChosen(plan: Plan, ks: seq<nat>)
    requires plan != [] && Places(Fruitful(plan[..|plan| - 1]), ks)
    ensures var n := |plan| - 1; Places(Fruitful(plan), if plan[n].Some? then ks + [n] else ks)
  {
    hide Places;
    var n := |plan| - 1;
    assert Fruitful(plan) == Fruitful(plan[..n]) + [plan[n].Some?];
    OneMorePlace(Fruitful(plan[..n]), plan[n].Some?, ks);
  }

  lemma NoneChosen()
    ensures Places(Fruitful([]), []) && Chosen([]) == [] && SkippedIn([]) == 0
  {
  }

  lemma ChosenParts(plan: Plan)
    requires plan != []
    ensures var n := |plan| - 1;
            && Chosen(plan) == Chosen(plan[..n]) + (if plan[n].Some? then [plan[n].value] else [])
            && SkippedIn(plan) == SkippedIn(plan[..n]) + if plan[n].None? then 1 else 0
  {
  }

  /** The documents chosen from a plan are those of its files that come to one, in order; the others are counted. */
  lemma {:induction false} ChosenAre(plan: Plan) returns (ks: seq<nat>)
    ensures |ks| == |Chosen(plan)| == |plan| - SkippedIn(plan) && Places(Fruitful(plan), ks)
    ensures forall i | 0 <= i < |ks| :: ks[i] < |plan| && plan[ks[i]] == Some(Chosen(plan)[i])
  {
    hide Chosen, SkippedIn, Places, Fruitful;
    if plan == [] {
      NoneChosen();
      return [];
    }
    var n := |plan| - 1;
    var before := ChosenAre(plan[..n]);
    ChosenParts(plan);
    OneMoreChosen(plan, before);
    ks := if plan[n].Some? then before + [n] else before;
    forall i | 0 <= i < |ks|
      ensures ks[i] < |plan| && plan[ks[i]] == Some(Chosen(plan)[i])
    {
      if i < |before| { assert before[i] < n && plan[..n][before[i]] == plan[before[i]]; }
    }
  }

  lemma LiveAlone(w: World, rid: nat, lease: nat)
    requires Inv(w, lease) && rid in w.runs && Live(w.runs[rid])
    ensures Alone(w, rid, w.runs[rid].pc.id) && Consistent(w.db, w.runs[rid], lease)
    ensures var id := w.runs[rid].pc.id; id in w.db.rows ==> WholeGeneration(w, id)
  {
  }

  lemma LookupKeepsInv(w: World, rid: nat, reply: Reply, lease: nat)
    requires Inv(w, lease) && rid in w.runs
    requires var pc := w.runs[rid].pc; pc.Looking? || pc.Refinding? || pc.Reusing? || pc.Over?
    ensures Inv(Advance(w, rid, reply, lease), lease)
  {
    hide Inv;
    var w' := Advance(w, rid, reply, lease);
    assert w' == At(w, rid, w'.runs[rid].pc);
    QuietStepKeepsInv(w, rid, w'.runs[rid].pc, lease);
  }

  lemma CreateKeepsInv(w: World, rid: nat, reply: Reply, lease: nat)
    requires Inv(w, lease) && rid in w.runs && w.runs[rid].pc.Creating?
    ensures Inv(Advance(w, rid, reply, lease), lease)
  {
    var w' := Advance(w, rid, reply, lease);
    if reply.Refused? {
      QuietStepKeepsInv(w, rid, Over, lease);
    } else {
      assert Alone(w, rid, w.db.nextId);
      StepKeepsInv(w, w', rid, w.db.nextId, lease);
    }
  }

  /** A claim succeeds only where no run is live, or only a stray one: a live run's stamp is younger than the
      lease, and the threshold was read no later than now. */
  lemma ClaimKeepsInv(w: World, rid: nat, reply: Reply, lease: nat)
    requires Inv(w, lease) && LeaseKept(w, lease) && rid in w.runs && w.runs[rid].pc.Claiming?
    requires !StrayClaim(w, Proceed(rid, reply))
    ensures Inv(Advance(w, rid, reply, lease), lease)
  {
    var Claiming(id, staleBefore) := w.runs[rid].pc;
    var w' := Advance(w, rid, reply, lease);
    if reply.Refused? {
      QuietStepKeepsInv(w, rid, Over, lease);
    } else if !Claimable(w.db, id, staleBefore) {
      assert Alone(w, rid, w.db.nextId);
      StepKeepsInv(w, w', rid, w.db.nextId, lease);
    } else {
      forall o | o in w.runs && o != rid && LiveOn(w.runs[o], id)
        ensures w.db.rows[id].status == Ready
      {
        assert Consistent(w.db, w.runs[o], lease) && Consistent(w.db, w.runs[rid], lease);
      }
      if Alone(w, rid, id) {
        StepKeepsInv(w, w', rid, id, lease);
      } else {
        LostClaimKeepsInv(w, rid, lease);
      }
    }
  }

  /** A claim nobody hears of takes nothing from a stray run: the source is processing again. */
  lemma LostClaimKeepsInv(w: World, rid: nat, lease: nat)
    requires Inv(w, lease) && rid in w.runs && w.runs[rid].pc.Claiming?
    requires var id := w.runs[rid].pc.id; id in w.db.rows && w.db.rows[id].status == Ready
    ensures Inv(Advance(w, rid, Lost, lease), lease)
  {
    var Claiming(id, staleBefore) := w.runs[rid].pc;
    var w' := Advance(w, rid, Lost, lease);
    forall o | o in w'.runs
      ensures Consistent(w'.db, w'.runs[o], lease)
    {
      assert Consistent(w.db, w.runs[o], lease);
    }
    forall i | i in w'.db.rows
      ensures i < w'.db.nextId && WholeGeneration(w', i)
    {
      assert WholeGeneration(w, i);
    }
  }

  /** A run that is alone on its row may rewrite it. */
  lemma StartKeepsInv(w: World, rid: nat, reply: Reply, lease: nat)
    requires Inv(w, lease) && rid in w.runs && (w.runs[rid].pc.Clearing? || w.runs[rid].pc.Fetching?)
    ensures Inv(Advance(w, rid, reply, lease), lease)
  {
    hide Inv;
    var id := w.runs[rid].pc.id;
    LiveAlone(w, rid, lease);
    assert w.runs[rid].plan[..0] == [];
    StepKeepsInv(w, Advance(w, rid, reply, lease), rid, id, lease);
  }

  lemma EndKeepsInv(w: World, rid: nat, reply: Reply, lease: nat)
    requires Inv(w, lease) && rid in w.runs && (w.runs[rid].pc.Finishing? || w.runs[rid].pc.Failing?)
    ensures Inv(Advance(w, rid, reply, lease), lease)
  {
    hide Inv;
    var id := w.runs[rid].pc.id;
    LiveAlone(w, rid, lease);
    StepKeepsInv(w, Advance(w, rid, reply, lease), rid, id, lease);
  }

  lemma WorkKeepsInv(w: World, rid: nat, reply: Reply, lease: nat)
    requires Inv(w, lease) && rid in w.runs && w.runs[rid].pc.Working?
    ensures Inv(Advance(w, rid, reply, lease), lease)
  {
    hide Inv;
    var r := w.runs[rid];
    var Working(id, k) := r.pc;
    LiveAlone(w, rid, lease);
    if k < |r.plan| {
      ChosenSnoc(r.plan, k);
    } else {
      assert r.plan[..k] == r.plan;
    }
    StepKeepsInv(w, Advance(w, rid, reply, lease), rid, id, lease);
  }

  lemma AdvanceKeepsInv(w: World, rid: nat, reply: Reply, lease: nat)
    requires Inv(w, lease) && LeaseKept(w, lease) && rid in w.runs && !StrayClaim(w, Proceed(rid, reply))
    ensures Inv(Advance(w, rid, reply, lease), lease)
  {
    hide Inv, LeaseKept, Advance, StrayClaim;
    match w.runs[rid].pc {
      case Creating => CreateKeepsInv(w, rid, reply, lease);
      case Claiming(_, _) => ClaimKeepsInv(w, rid, reply, lease);
      case Working(_, _) => WorkKeepsInv(w, rid, reply, lease);
      case Clearing(_) => StartKeepsInv(w, rid, reply, lease);
      case Fetching(_) => StartKeepsInv(w, rid, reply, lease);
      case Finishing(_) => EndKeepsInv(w, rid, reply, lease);
      case Failing(_) => EndKeepsInv(w, rid, reply, lease);
      case _ => LookupKeepsInv(w, rid, reply, lease);
    }
  }

  /** Heartbeats move a stamp, deletes remove a row, the clock ticks: no run is any worse off. */
  lemma OutsideKeepsInv(w: World, db': Db, lease: nat)
    requires Inv(w, lease)
    requires w.db.now <= db'.now && w.db.nextId == db'.nextId
    requires forall id | id in db'.rows ::
               id in w.db.rows && db'.rows[id] == w.db.rows[id].(updatedAt := db'.rows[id].updatedAt)
    ensures Inv(w.(db := db'), lease)
  {
    forall rid | rid in w.runs
      ensures Consistent(db', w.runs[rid], lease)
    {
      assert Consistent(w.db, w.runs[rid], lease);
    }
    forall id | id in db'.rows
      ensures id < db'.nextId && WholeGeneration(w.(db := db'), id)
    {
      assert WholeGeneration(w, id);
    }
  }

  lemma BeginKeepsInv(w: World, rid: nat, r: IngestRun, lease: nat)
    requires Inv(w, lease) && rid !in w.runs && r.pc == Looking
    ensures Inv(w.(runs := w.runs[rid := r]), lease)
  {
    forall id | id in w.db.rows
      ensures WholeGeneration(w.(runs := w.runs[rid := r]), id)
    {
      assert WholeGeneration(w, id);
    }
  }

  lemma NextKeepsInv(w: World, e: Event, lease: nat)
    requires Inv(w, lease) && LeaseKept(w, lease) && !StrayClaim(w, e)
    ensures Inv(Next(w, e, lease), lease)
  {
    hide Inv, LeaseKept, Advance, StrayClaim;
    match e {
      case Begin(rid, uri, plan, sha) =>
        if rid !in w.runs { BeginKeepsInv(w, rid, IngestRun(uri, plan, sha, Looking), lease); }
      case Proceed(rid, reply) => if rid in w.runs { AdvanceKeepsInv(w, rid, reply, lease); }
      case Crash(rid) => if rid in w.runs { QuietStepKeepsInv(w, rid, Over, lease); }
      case Heartbeat(id) => OutsideKeepsInv(w, Touch(w.db, id), lease);
      case Remove(id) => OutsideKeepsInv(w, Delete(w.db, id), lease);
      case Tick => OutsideKeepsInv(w, w.db.(now := w.db.now + 1), lease);
    }
  }

  lemma {:induction false} InvAlways(w: World, events: seq<Event>, lease: nat)
    requires Inv(w, lease) && LeaseKeptThroughout(w, events, lease) && NoStrayClaim(w, events, lease)
    ensures Inv(After(w, events, lease), lease)
  {
    hide Inv, LeaseKept, Next, StrayClaim;
    if events != [] {
      var n := |events| - 1;
      assert forall i | 0 <= i <= n :: events[..n][..i] == events[..i];
      InvAlways(w, events[..n], lease);
      assert LeaseKept(After(w, events[..n], lease), lease);
      assert !StrayClaim(After(w, events[..n], lease), events[n]);
      NextKeepsInv(After(w, events[..n], lease), events[n], lease);
    }
  }

  const EMPTY := World(Db(map[], 0, 0), map[], map[])

  /** Mutual exclusion: as long as live runs renew their stamps within the lease and no claim catches a stray
      run, no interleaving of creates, unique violations, claims with an old threshold, lost replies,
      heartbeats, crashes and deletes ever has two live runs on one source. */
  lemma AtMostOneLiveRun(events: seq<Event>, lease: nat, id: nat, a: nat, b: nat)
    requires LeaseKeptThroughout(EMPTY, events, lease) && NoStrayClaim(EMPTY, events, lease)
    requires var w := After(EMPTY, events, lease);
             a in w.runs && b in w.runs && LiveOn(w.runs[a], id) && LiveOn(w.runs[b], id)
    ensures a == b
  {
    InvAlways(EMPTY, events, lease);
  }

  /** Ready means one whole generation: exactly the documents of the run that marked the row ready. */
  lemma ReadyIsWhole(events: seq<Event>, lease: nat, id: nat)
    requires LeaseKeptThroughout(EMPTY, events, lease) && NoStrayClaim(EMPTY, events, lease)
    requires var w := After(EMPTY, events, lease); id in w.db.rows && w.db.rows[id].status == Ready
    ensures var w := After(EMPTY, events, lease); id in w.readyBy && HoldsWhole(w.db.rows[id], w.readyBy[id])
  {
    InvAlways(EMPTY, events, lease);
    assert WholeGeneration(After(EMPTY, events, lease), id);
  }

  /** In this state no source has two live runs and every ready one is whole. */
  predicate Safe(w: World) {
    Exclusive(w.runs) && forall id | id in w.db.rows :: WholeGeneration(w, id)
  }

  lemma StrayClaimBreaks(w: World, e: Event, lease: nat)
    requires StrayClaim(w, e)
    ensures !Exclusive(Next(w, e, lease).runs)
  {
    var id := w.runs[e.rid].pc.id;
    var o :| o in w.runs && o != e.rid && LiveOn(w.runs[o], id);
    var w' := Next(w, e, lease);
    assert LiveOn(w'.runs[e.rid], id) && LiveOn(w'.runs[o], id);
  }

  /** With the lease kept, a run of the protocol is safe throughout if and only if no claim catches a stray
      run: a lost reply does harm exactly when its source is claimed before the run that lost it has marked it
      failed. */
  lemma SafeThroughoutIff(events: seq<Event>, lease: nat)
    requires LeaseKeptThroughout(EMPTY, events, lease)
    ensures (forall i | 0 <= i <= |events| :: Safe(After(EMPTY, events[..i], lease)))
       <==> NoStrayClaim(EMPTY, events, lease)
  {
    hide Next, StrayClaim, Exclusive, WholeGeneration, LeaseKept;
    if NoStrayClaim(EMPTY, events, lease) {
      forall i | 0 <= i <= |events|
        ensures Safe(After(EMPTY, events[..i], lease))
      {
        assert forall j | 0 <= j <= i :: events[..i][..j] == events[..j];
        EmptyInv(lease);
        InvAlways(EMPTY, events[..i], lease);
        InvIsSafe(After(EMPTY, events[..i], lease), lease);
      }
    } else {
      var i :| 0 <= i < |events| && StrayClaim(After(EMPTY, events[..i], lease), events[i]);
      StrayClaimBreaks(After(EMPTY, events[..i], lease), events[i], lease);
      assert events[..i + 1][..i] == events[..i];
      assert !Safe(After(EMPTY, events[..i + 1], lease));
    }
  }

  lemma EmptyInv(lease: nat)
    ensures Inv(EMPTY, lease)
  {
  }

  lemma InvIsSafe(w: World, lease: nat)
    requires Inv(w, lease)
    ensures Safe(w)
  {
  }

  /** The step at which exclusion can be lost, and exactly when: a claim takes a source over from a live run if
      and only if that run's stamp is older than the claimer's threshold or its call that marked the source
      ready was reported as failed. */
  lemma TakeoverIff(w: World, rid: nat, other: nat, lease: nat)
    requires Inv(w, lease) && rid in w.runs && other in w.runs && rid != other
    requires w.runs[rid].pc.Claiming? && LiveOn(w.runs[other], w.runs[rid].pc.id)
    requires w.runs[rid].pc.id in w.db.rows
    ensures !Exclusive(Advance(w, rid, Replied, lease).runs)
       <==> var row := w.db.rows[w.runs[rid].pc.id];
            row.updatedAt < w.runs[rid].pc.staleBefore || row.status == Ready
  {
    var Claiming(id, staleBefore) := w.runs[rid].pc;
    var w' := Advance(w, rid, Replied, lease);
    assert Consistent(w.db, w.runs[other], lease);
    if Claimable(w.db, id, staleBefore) {
      assert LiveOn(w'.runs[rid], id) && LiveOn(w'.runs[other], id);
    } else {
      assert w'.runs[rid].pc == Over;
    }
  }

  // ------------------------------------------------ runs are write sequences

  /** The statement at a run's program point, if there is one. */
  function WriteAt(r: IngestRun): seq<Write> {
    match r.pc
    case Creating => [CreateW(r.uri)]
    case Claiming(id, staleBefore) => [ClaimW(id, staleBefore)]
    case Clearing(id) => [DeleteContentW(id)]
    case Fetching(id) => [MarkProcessingW(id, r.commitSha)]
    case Working(id, k) =>
      if k >= |r.plan| then [RecordSkippedW(id, SkippedIn(r.plan))]
      else if r.plan[k].Some? then [InsertW(id, r.plan[k].value)]
      else []
    case Finishing(id) => [MarkReadyW(id)]
    case Failing(id) => [MarkFailedW(id, "ingestion failed")]
    case _ => []
  }

  /** The write an event comes to, if any. */
  function WriteOf(w: World, e: Event): seq<Write> {
    match e
    case Heartbeat(id) => [TouchW(id)]
    case Remove(id) => [DeleteW(id)]
    case Tick => [TickW]
    case Proceed(rid, reply) => if rid !in w.runs || reply.Refused? then [] else WriteAt(w.runs[rid])
    case _ => []
  }

  /** Whatever happens in the protocol happens to the database as at most one of the repository's writes. */
  lemma EventIsWrite(w: World, e: Event, lease: nat)
    ensures var ws := WriteOf(w, e);
            |ws| <= 1 && Next(w, e, lease).db == if ws == [] then w.db else Apply(w.db, ws[0])
  {
    hide Passed;
  }

  ghost function WritesOf(w: World, events: seq<Event>, lease: nat): seq<Write> {
    if events == [] then []
    else
      var before := events[..|events| - 1];
      WritesOf(w, before, lease) + WriteOf(After(w, before, lease), events[|events| - 1])
  }

  lemma NothingWritten(w: World, lease: nat)
    ensures After(w, [], lease) == w && WritesOf(w, [], lease) == [] && Run(w.db, []) == w.db
  {
  }

  /** The database of a protocol run is that of its writes. */
  lemma {:induction false} ProtocolIsRun(w: World, events: seq<Event>, lease: nat)
    ensures After(w, events, lease).db == Run(w.db, WritesOf(w, events, lease))
  {
    NothingWritten(w, lease);
    hide Run;
    if events != [] {
      var n := |events| - 1;
      ProtocolIsRun(w, events[..n], lease);
      EventIsWrite(After(w, events[..n], lease), events[n], lease);
      var ws, last := WritesOf(w, events[..n], lease), WriteOf(After(w, events[..n], lease), events[n]);
      hide Next, Apply, WriteOf;
      if last == [] {
        assert ws + last == ws;
      } else {
        RunSnoc(w.db, ws, last[0]);
        assert ws + last == ws + [last[0]];
      }
    }
  }

  /** The counters are exact in every state the protocol can reach, lease kept or not. */
  lemma CountersExact(events: seq<Event>, lease: nat, id: nat)
    requires id in After(EMPTY, events, lease).db.rows
    ensures Counted(After(EMPTY, events, lease).db.rows[id])
  {
    ProtocolIsRun(EMPTY, events, lease);
    CountersAlwaysExact(EMPTY.db, WritesOf(EMPTY, events, lease));
  }
}

/** The lease: what a run has to do to keep its source, and what becomes of a source whose run no longer does it. */
module Lease {
  import opened Text
  import opened Repository
  import opened Ingestion

  /** Event j of these writes to row id. */
  ghost predicate WrittenAt(events: seq<Event>, j: nat, id: nat, lease: nat)
    requires j < |events|
  {
    var w := After(EMPTY, events[..j], lease);
    WriteOf(w, events[j]) != [] && WritesTo(w.db, WriteOf(w, events[j])[0], id)
  }

  /** Since the row was last written, by a call of a run or by a heartbeat, no more than the lease has passed. */
  ghost predicate WrittenWithinLease(events: seq<Event>, id: nat, lease: nat) {
    exists j: nat :: j < |events| && WrittenAt(events, j, id, lease)
      && After(EMPTY, events, lease).db.now <= After(EMPTY, events[..j + 1], lease).db.now + lease
  }

  ghost predicate Fed(events: seq<Event>, lease: nat) {
    var w := After(EMPTY, events, lease);
    forall rid | rid in w.runs && Live(w.runs[rid]) && w.runs[rid].pc.id in w.db.rows ::
      WrittenWithinLease(events, w.runs[rid].pc.id, lease)
  }

  lemma NoRowsYet(lease: nat)
    ensures After(EMPTY, [], lease) == EMPTY
  {
  }

  lemma EventStamps(w: World, e: Event, id: nat, lease: nat)
    ensures var written, w' := WriteOf(w, e) != [] && WritesTo(w.db, WriteOf(w, e)[0], id), Next(w, e, lease);
            && w.db.now <= w'.db.now
            && (written ==> id in w'.db.rows && w'.db.rows[id].updatedAt == w'.db.now)
            && (!written && id in w'.db.rows ==> id in w.db.rows && w'.db.rows[id] == w.db.rows[id])
  {
    hide Next, WriteOf, Apply, WritesTo;
    EventIsWrite(w, e, lease);
    if WriteOf(w, e) != [] {
      WriteStamps(w.db, WriteOf(w, e)[0], id);
    }
  }

  lemma LastStep(events: seq<Event>, lease: nat)
    requires events != []
    ensures var n := |events| - 1;
            && After(EMPTY, events, lease) == Next(After(EMPTY, events[..n], lease), events[n], lease)
            && events[..n + 1] == events
  {
    hide Next;
  }

  lemma PrefixWrites(events: seq<Event>, n: nat, j: nat, id: nat, lease: nat)
    requires j < n <= |events|
    ensures WrittenAt(events[..n], j, id, lease) == WrittenAt(events, j, id, lease)
    ensures events[..n][..j] == events[..j] && events[..n][..j + 1] == events[..j + 1]
  {
    hide After, WriteOf, WritesTo;
    assert events[..n][..j] == events[..j] && events[..n][..j + 1] == events[..j + 1];
  }

  /** The stamp of a row is the time of the last event that wrote to it. */
  lemma {:induction false} StampIsLastWrite(events: seq<Event>, id: nat, lease: nat) returns (j: nat)
    requires id in After(EMPTY, events, lease).db.rows
    ensures j < |events| && WrittenAt(events, j, id, lease)
    ensures After(EMPTY, events, lease).db.rows[id].updatedAt == After(EMPTY, events[..j + 1], lease).db.now
    ensures forall k: nat | k < |events| && WrittenAt(events, k, id, lease) :: k <= j
  {
    hide After, Next, WriteOf, WritesTo;
    NoRowsYet(lease);
    assert events != [];
    var n := |events| - 1;
    LastStep(events, lease);
    EventStamps(After(EMPTY, events[..n], lease), events[n], id, lease);
    if WrittenAt(events, n, id, lease) {
      return n;
    }
    j := StampIsLastWrite(events[..n], id, lease);
    PrefixWrites(events, n, j, id, lease);
    forall k: nat | k < |events| && WrittenAt(events, k, id, lease)
      ensures k <= j
    {
      if k < n {
        PrefixWrites(events, n, k, id, lease);
      }
    }
  }

  lemma {:induction false} TimePasses(events: seq<Event>, i: nat, lease: nat)
    requires i <= |events|
    ensures After(EMPTY, events[..i], lease).db.now <= After(EMPTY, events, lease).db.now
  {
    hide After, Next, WriteOf, WritesTo;
    if i < |events| {
      var n := |events| - 1;
      LastStep(events, lease);
      EventStamps(After(EMPTY, events[..n], lease), events[n], 0, lease);
      TimePasses(events[..n], i, lease);
      assert events[..n][..i] == events[..i];
    } else {
      assert events[..i] == events;
    }
  }

  /** A live run keeps its lease if and only if some call or heartbeat has written to its row within it. */
  lemma WrittenIff(events: seq<Event>, id: nat, lease: nat)
    requires id in After(EMPTY, events, lease).db.rows
    ensures var db := After(EMPTY, events, lease).db;
            db.now <= db.rows[id].updatedAt + lease <==> WrittenWithinLease(events, id, lease)
  {
    hide After, WrittenAt;
    var j := StampIsLastWrite(events, id, lease);
    if WrittenWithinLease(events, id, lease) {
      var i: nat :| i < |events| && WrittenAt(events, i, id, lease)
                    && After(EMPTY, events, lease).db.now <= After(EMPTY, events[..i + 1], lease).db.now + lease;
      TimePasses(events[..j + 1], i + 1, lease);
      assert events[..j + 1][..i + 1] == events[..i + 1];
    }
  }

  /** What the lease theorems ask for, in terms of what runs and heartbeats do: in every state, every live run's
      row was written within the lease. */
  lemma LeaseKeptIff(events: seq<Event>, lease: nat)
    ensures LeaseKeptThroughout(EMPTY, events, lease) <==> forall i | 0 <= i <= |events| :: Fed(events[..i], lease)
  {
    hide After, WrittenWithinLease;
    forall i, rid | 0 <= i <= |events| && rid in After(EMPTY, events[..i], lease).runs
        && Live(After(EMPTY, events[..i], lease).runs[rid])
        && After(EMPTY, events[..i], lease).runs[rid].pc.id in After(EMPTY, events[..i], lease).db.rows
      ensures var w := After(EMPTY, events[..i], lease);
              var id := w.runs[rid].pc.id;
              w.db.now <= w.db.rows[id].updatedAt + lease <==> WrittenWithinLease(events[..i], id, lease)
    {
      WrittenIff(events[..i], After(EMPTY, events[..i], lease).runs[rid].pc.id, lease);
    }
    forall i | 0 <= i <= |events|
      ensures LeaseKept(After(EMPTY, events[..i], lease), lease) <==> Fed(events[..i], lease)
    {
    }
  }

  /** A run that finds its source takes it over, threshold and claim one after the other, exactly if the source is
      not running or has not been written for longer than the lease: a crashed run's source is not lost. */
  lemma ReclaimedIff(w: World, rid: nat, lease: nat)
    requires rid in w.runs && w.runs[rid].pc.Reusing?
    ensures var w' := Advance(Advance(w, rid, Replied, lease), rid, Replied, lease);
            var id := w.runs[rid].pc.id;
            && rid in w'.runs && (w'.runs[rid].pc == Clearing(id) || w'.runs[rid].pc == Over)
            && (w'.runs[rid].pc == Clearing(id) <==>
                  id in w.db.rows && (w.db.rows[id].status == Ready || w.db.rows[id].status == Failed
                                      || w.db.rows[id].updatedAt + lease < w.db.now))
            && (w'.runs[rid].pc == Clearing(id) ==>
                  id in w'.db.rows && w'.db.rows[id].status == Processing && w'.db.rows[id].updatedAt == w'.db.now)
  {
  }

  /** An error in the pipeline, whether or not the call was carried out, leads to the catch block, and that leaves the
      source failed with its error, open to any later claim; an error before leaves the source to whoever has it. */
  lemma FailureIsRecorded(w: World, rid: nat, reply: Reply, lease: nat)
    requires rid in w.runs && !reply.Replied?
    requires var r := w.runs[rid];
             !(r.pc.Working? && r.pc.k < |r.plan| && r.plan[r.pc.k].None?)
    ensures var pc := w.runs[rid].pc;
            var caught := Advance(w, rid, reply, lease);
            if pc.Fetching? || pc.Working? || pc.Finishing? then
              var w' := Advance(caught, rid, Replied, lease);
              && caught.runs[rid].pc == Failing(pc.id) && w'.runs[rid].pc == Over
              && (pc.id in caught.db.rows ==>
                    && pc.id in w'.db.rows && w'.db.rows[pc.id].status == Failed
                    && w'.db.rows[pc.id].error == Some("ingestion failed")
                    && forall staleBefore: int :: Claimable(w'.db, pc.id, staleBefore))
            else caught.runs[rid].pc == Over
  {
  }

  /** A run left to itself, every call answered. */
  ghost function Alone(w: World, rid: nat, n: nat, lease: nat): (w': World)
    requires rid in w.runs
    ensures rid in w'.runs
  {
    if n == 0 then w else Advance(Alone(w, rid, n - 1, lease), rid, Replied, lease)
  }

  /** What an insertion asks of the documents of one plan: paths are different, and so are the ordinals in each. */
  predicate Storable(plan: Plan) {
    && (forall i, j | 0 <= i < j < |Chosen(plan)| :: Chosen(plan)[i].path != Chosen(plan)[j].path)
    && (forall d | d in Chosen(plan) :: DistinctOrdinals(d))
  }

  lemma {:induction false} ChosenGrows(plan: Plan, k: nat)
    requires k <= |plan|
    ensures Chosen(plan[..k]) <= Chosen(plan)
    decreases |plan| - k
  {
    if k < |plan| {
      ChosenGrows(plan, k + 1);
      ChosenSnoc(plan, k);
    } else {
      assert plan[..k] == plan;
    }
  }

  /** The run is at this point, and its row holds the documents of the first k files. */
  predicate StandsAt(w: World, rid: nat, r: IngestRun, pc: Pc, id: nat, k: nat) {
    && k <= |r.plan| && rid in w.runs && w.runs[rid] == r.(pc := pc) && id in w.db.rows
    && w.db.rows[id].documents == Chosen(r.plan[..k]) && w.db.rows[id].commitSha == r.commitSha
  }

  lemma FirstMark(w: World, rid: nat, id: nat, lease: nat)
    requires rid in w.runs && w.runs[rid].pc == Fetching(id) && id in w.db.rows && w.db.rows[id].documents == []
    ensures StandsAt(Advance(w, rid, Replied, lease), rid, w.runs[rid], Working(id, 0), id, 0)
  {
    assert w.runs[rid].plan[..0] == [];
  }

  lemma NextFile(w: World, rid: nat, r: IngestRun, id: nat, k: nat, lease: nat)
    requires k < |r.plan| && StandsAt(w, rid, r, Working(id, k), id, k) && Storable(r.plan)
    ensures StandsAt(Advance(w, rid, Replied, lease), rid, r, Working(id, k + 1), id, k + 1)
  {
    hide Storable, Chosen;
    ChosenSnoc(r.plan, k);
    if r.plan[k].Some? {
      CanInsert(w.db, id, r.plan, k);
      hide Insertable;
    }
  }

  /** Where an undisturbed run stands after its first mark and k files. */
  lemma {:induction false} WorksAlone(w: World, rid: nat, id: nat, k: nat, lease: nat)
    requires rid in w.runs && w.runs[rid].pc == Fetching(id) && id in w.db.rows && w.db.rows[id].documents == []
    requires Storable(w.runs[rid].plan) && k <= |w.runs[rid].plan|
    ensures StandsAt(Alone(w, rid, k + 1, lease), rid, w.runs[rid], Working(id, k), id, k)
  {
    hide Alone, Advance, StandsAt, Storable;
    OneMoreStep(w, rid, k, lease);
    if k == 0 {
      FirstMark(w, rid, id, lease);
    } else {
      WorksAlone(w, rid, id, k - 1, lease);
      NextFile(Alone(w, rid, k, lease), rid, w.runs[rid], id, k - 1, lease);
    }
  }

  lemma LastCalls(w: World, rid: nat, r: IngestRun, id: nat, lease: nat)
    requires StandsAt(w, rid, r, Working(id, |r.plan|), id, |r.plan|)
    ensures var w' := Advance(Advance(w, rid, Replied, lease), rid, Replied, lease);
            && rid in w'.runs && w'.runs[rid].pc == Over && id in w'.db.rows && w'.db.rows[id].status == Ready
            && HoldsWhole(w'.db.rows[id], r)
  {
    hide Chosen, SkippedIn;
    assert r.plan[..|r.plan|] == r.plan;
  }

  lemma OneMoreStep(w: World, rid: nat, n: nat, lease: nat)
    requires rid in w.runs
    ensures Alone(w, rid, 0, lease) == w
    ensures Alone(w, rid, n + 1, lease) == Advance(Alone(w, rid, n, lease), rid, Replied, lease)
  {
    hide Advance;
  }

  lemma CanInsert(db: Db, id: nat, plan: Plan, k: nat)
    requires Storable(plan) && k < |plan| && plan[k].Some? && id in db.rows
    requires db.rows[id].documents == Chosen(plan[..k])
    ensures Insertable(db, id, plan[k].value)
  {
    ChosenGrows(plan, k);
    ChosenGrows(plan, k + 1);
    ChosenSnoc(plan, k);
    var n, all := |Chosen(plan[..k])|, Chosen(plan);
    assert all[n] == plan[k].value && plan[k].value in all;
    forall i | 0 <= i < n
      ensures Chosen(plan[..k])[i].path != plan[k].value.path
    {
      assert all[i] == Chosen(plan[..k])[i];
    }
  }

  /** A run that has its source, is left to itself and has all its calls answered ends: the source is ready and holds
      the whole of its plan. */
  lemma LeftAloneItFinishes(w: World, rid: nat, id: nat, lease: nat)
    requires rid in w.runs && w.runs[rid].pc == Fetching(id) && id in w.db.rows && w.db.rows[id].documents == []
    requires Storable(w.runs[rid].plan)
    ensures var w', r := Alone(w, rid, |w.runs[rid].plan| + 3, lease), w.runs[rid];
            && w'.runs[rid].pc == Over && id in w'.db.rows && w'.db.rows[id].status == Ready
            && HoldsWhole(w'.db.rows[id], r)
  {
    hide Alone, Storable, Advance, StandsAt, HoldsWhole;
    var r := w.runs[rid];
    var n := |r.plan|;
    WorksAlone(w, rid, id, n, lease);
    LastCalls(Alone(w, rid, n + 1, lease), rid, r, id, lease);
    OneMoreStep(w, rid, n + 1, lease);
    OneMoreStep(w, rid, n + 2, lease);
  }

  /** A run that looks for a source nobody has creates it and goes on with it; one that finds it goes on to claim it. */
  lemma FoundOrCreated(w: World, rid: nat, lease: nat)
    requires rid in w.runs && w.runs[rid].pc == Looking && Repository.Valid(w.db)
    ensures var uri, found := w.runs[rid].uri, Advance(w, rid, Replied, lease);
            if UriTaken(w.db, uri) then
              found.runs[rid].pc.Reusing? && found.runs[rid].pc.id in w.db.rows
              && w.db.rows[found.runs[rid].pc.id].uri == uri
            else
              var made := Advance(found, rid, Replied, lease);
              && made.runs[rid].pc == Fetching(w.db.nextId) && w.db.nextId in made.db.rows
              && made.db.rows[w.db.nextId].uri == uri && made.db.rows[w.db.nextId].documents == []
  {
  }
}

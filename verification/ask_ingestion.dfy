/** Answers while the ingestion protocol itself is what writes: what a hit rests on. */
module AskIngestion {
  import opened Repository
  import opened CorpusVersion
  import Ingestion
  import opened AskCache

  /** Every state of the database between two writes is one the protocol was in. */
  lemma {:induction false} StateOfProtocol(w: Ingestion.World, events: seq<Ingestion.Event>, lease: nat, i: nat)
    returns (n: nat)
    requires i <= |Ingestion.WritesOf(w, events, lease)|
    ensures n <= |events|
    ensures Ingestion.After(w, events[..n], lease).db == Run(w.db, Ingestion.WritesOf(w, events, lease)[..i])
  {
    var ws := Ingestion.WritesOf(w, events, lease);
    if i == |ws| {
      n := |events|;
      assert events[..n] == events && ws[..i] == ws;
      Ingestion.ProtocolIsRun(w, events, lease);
    } else {
      var m := |events| - 1;
      var before := Ingestion.WritesOf(w, events[..m], lease);
      Ingestion.EventIsWrite(Ingestion.After(w, events[..m], lease), events[m], lease);
      n := StateOfProtocol(w, events[..m], lease, i);
      assert events[..m][..n] == events[..n] && ws[..i] == before[..i];
    }
  }

  lemma OrderlyBefore(events: seq<Ingestion.Event>, lease: nat, n: nat)
    requires Ingestion.LeaseKeptThroughout(Ingestion.EMPTY, events, lease) && n <= |events|
    requires Ingestion.NoStrayClaim(Ingestion.EMPTY, events, lease)
    ensures Ingestion.LeaseKeptThroughout(Ingestion.EMPTY, events[..n], lease)
    ensures Ingestion.NoStrayClaim(Ingestion.EMPTY, events[..n], lease)
  {
    hide Ingestion.After, Ingestion.LeaseKept, Ingestion.StrayClaim;
    assert forall i | 0 <= i <= n :: events[..n][..i] == events[..i];
  }

  /** A state that a served answer has to do with: where one of its two queries ran, or where it was served. */
  ghost predicate BehindHit(r: Request, at: nat) {
    r.pc.Served? && at in {r.pc.entry.origin.vectorAt, r.pc.entry.origin.textAt, r.pc.readAt, r.pc.servedAt}
  }

  /** With the lease kept and no stray claim, every source behind a served answer is one whole generation, both
      where its queries saw it and where it is served: that state of the database is one the protocol went
      through, and each ready source then held exactly what the run that had marked it ready chose to store. */
  lemma HitRestsOnWholeSources(env: Env, asked: seq<Event>, rid: nat, ingested: seq<Ingestion.Event>, lease: nat,
                               at: nat)
    returns (n: nat)
    requires Ingestion.LeaseKeptThroughout(Ingestion.EMPTY, ingested, lease)
    requires Ingestion.NoStrayClaim(Ingestion.EMPTY, ingested, lease)
    requires After(env, Ingestion.EMPTY.db, asked).writes == Ingestion.WritesOf(Ingestion.EMPTY, ingested, lease)
    requires IsHit(env, Ingestion.EMPTY.db, asked, rid)
    requires BehindHit(After(env, Ingestion.EMPTY.db, asked).requests[rid], at)
    ensures n <= |ingested| && at <= |After(env, Ingestion.EMPTY.db, asked).writes|
    ensures var w := After(env, Ingestion.EMPTY.db, asked);
            var state := Ingestion.After(Ingestion.EMPTY, ingested[..n], lease);
            && state.db == At(w, at)
            && forall id | id in Corpus(At(w, at)) ::
                 id in state.readyBy && Ingestion.HoldsWhole(Corpus(At(w, at))[id], state.readyBy[id])
  {
    var w := After(env, Ingestion.EMPTY.db, asked);
    HitIsFiled(env, Ingestion.EMPTY.db, asked, rid);
    hide After, Ingestion.After, Ingestion.WritesOf, Run, Key, VersionAt;
    n := StateOfProtocol(Ingestion.EMPTY, ingested, lease, at);
    OrderlyBefore(ingested, lease, n);
    forall id | id in Corpus(At(w, at))
      ensures var state := Ingestion.After(Ingestion.EMPTY, ingested[..n], lease);
              id in state.readyBy && Ingestion.HoldsWhole(Corpus(At(w, at))[id], state.readyBy[id])
    {
      Ingestion.ReadyIsWhole(ingested[..n], lease, id);
    }
  }
}

/** `AskService` and `AskRepository` in their own form. What other clients write between two awaits, what the
    network does and what a model answers are parameters; a ghost run of the protocol is kept alongside. */
module AskService {
  import opened Text
  import opened Repository
  import opened CorpusVersion
  import opened CacheKeys
  import opened AskCache
  import IngestionService

  datatype Cost = Cost(
    provider: string, model: string, promptTokens: nat, completionTokens: nat, cachedTokens: nat,
    usdCost: Option<real>, costSource: string, modelReason: string)

  /** One transaction: a query, its answer, the citations and, with a cost, a ledger row. */
  datatype RecordInput = RecordInput(
    question: string, answer: Option<string>, grounded: bool, model: Option<string>, provider: Option<string>,
    finishReason: Option<string>, citations: seq<string>, cost: Option<Cost>)

  datatype Recorded = Stored | ForeignKeyViolation | Unavailable

  function StoredAnswer(text: string): Option<string> {
    if |text| > 0 then Some(text) else None
  }

  function CachedCost(cached: CachedAnswer): Option<Cost> {
    if cached.provider.None? || cached.model.None? then None
    else Some(Cost(cached.provider.value, cached.model.value, 0, 0, 0, Some(0.0), "cached", "cached"))
  }

  function InputOf(question: string, cached: CachedAnswer, cost: Option<Cost>): RecordInput {
    RecordInput(question, if cached.answer.None? then None else StoredAnswer(cached.answer.value), cached.grounded,
                cached.model, cached.provider, cached.finishReason, cached.citations, cost)
  }

  /** What the world does around one request: which calls go through, which of the two queries started together
      runs first, and what is written meanwhile. */
  datatype Weather = Weather(
    versionUp: bool, getUp: bool, setUp: bool, recordUp: bool, retryUp: bool,
    embedding: Option<seq<real>>, searchUp: bool, textFirst: bool, completion: Option<(Completion, Cost)>,
    beforeFirst: seq<Write>, beforeSecond: seq<Write>, beforeRecord: seq<Write>)

  /** The database the vector query runs on, and the one the text query runs on. */
  function VectorDb(db: Db, weather: Weather): Db {
    var first := Run(db, weather.beforeFirst);
    if weather.textFirst then Run(first, weather.beforeSecond) else first
  }

  function TextDb(db: Db, weather: Weather): Db {
    var first := Run(db, weather.beforeFirst);
    if weather.textFirst then first else Run(first, weather.beforeSecond)
  }

  function Persisted(input: RecordInput, resolves: bool, weather: Weather): seq<RecordInput> {
    if !weather.recordUp then []
    else if resolves then [input]
    else if weather.retryUp then [input.(citations := [])]
    else []
  }

  function Spent(rows: seq<RecordInput>): real {
    if rows == [] then 0.0
    else
      var last := rows[|rows| - 1];
      Spent(rows[..|rows| - 1])
      + if last.cost.Some? && last.cost.value.usdCost.Some? then last.cost.value.usdCost.value else 0.0
  }

  /** However often an answer is served again, what the ledger says was spent stays what it was; and whatever
      is stored of it has no citation that does not resolve. */
  lemma HitsAreFree(rows: seq<RecordInput>, question: string, hit: CachedAnswer, resolves: bool, weather: Weather)
    ensures var more := Persisted(InputOf(question, hit, CachedCost(hit)), resolves, weather);
            && Spent(rows + more) == Spent(rows)
            && |more| <= 1 && (more == [] <==> !weather.recordUp || (!resolves && !weather.retryUp))
            && (more != [] && !resolves ==> more[0].citations == [])
  {
    var more := Persisted(InputOf(question, hit, CachedCost(hit)), resolves, weather);
    if more == [] {
      assert rows + more == rows;
    } else {
      assert (rows + more)[..|rows|] == rows;
    }
  }

  /** What is kept of one outcome, at first and at every hit: a refusal is ungrounded, names no model and gets no
      ledger row; an answer is grounded, keeps provider, model and reason each in its own column, and its text
      unless there is none. */
  lemma WhatIsRecorded(question: string, outcome: Option<seq<string>>, c: Completion)
    ensures var cached := CachedOf(outcome, c);
            var hit := InputOf(question, cached, CachedCost(cached));
            && hit.question == question && hit.citations == cached.citations
            && hit.grounded == cached.grounded == outcome.Some?
            && (outcome.None? ==> && hit.answer.None? && hit.provider.None? && hit.model.None? && hit.cost.None?
                                  && hit.finishReason.None? && hit.citations == [] && cached.answer.None?)
            && (outcome.Some? ==> && hit.provider == Some(c.provider) && hit.model == Some(c.model)
                                  && hit.finishReason == c.finishReason && hit.citations == outcome.value
                                  && cached.answer == Some(c.text)
                                  && hit.answer == (if c.text == "" then None else Some(c.text))
                                  && hit.cost.Some? && hit.cost.value.provider == c.provider
                                  && hit.cost.value.model == c.model && hit.cost.value.usdCost == Some(0.0)
                                  && hit.cost.value.promptTokens == hit.cost.value.completionTokens == 0)
    ensures forall cost :: InputOf(question, CachedOf(outcome, c), cost)
                        == InputOf(question, CachedOf(outcome, c), CachedCost(CachedOf(outcome, c))).(cost := cost)
  {
  }

  const UNASKED: Completion := Completion("", "", "", None)

  /** What a miss comes to, from this state on. */
  function Answer(env: Env, config: AnsweringConfig, question: string, db: Db, weather: Weather)
    : Result<(CachedAnswer, Option<Cost>), string>
  {
    if weather.embedding.None? then Err("embedding failed")
    else if !weather.searchUp then Err("search failed")
    else
      var outcome :=
        Outcome(env, config, VectorDb(db, weather), TextDb(db, weather), weather.embedding.value, question);
      if outcome.None? then Ok((CachedOf(None, UNASKED), None))
      else if weather.completion.None? then Err("every provider failed")
      else Ok((CachedOf(outcome, weather.completion.value.0), Some(weather.completion.value.1)))
  }

  /** A miss, by what its query finds nearest: nothing near enough refuses, whatever the model would have said and at
      no cost; otherwise the answer is the model's, with what it cost, or there is none if every provider failed. */
  lemma MissComesTo(env: Env, config: AnsweringConfig, question: string, db: Db, weather: Weather)
    requires weather.embedding.Some? && weather.searchUp && config.groundingMaxDistance.Finite?
    ensures var near := env.byVector(Corpus(VectorDb(db, weather)), weather.embedding.value);
            var citations := env.fuse(near, env.byText(Corpus(TextDb(db, weather)), question));
            var answer, bound := Answer(env, config, question, db, weather), config.groundingMaxDistance.units;
            && (near == [] || (near[0].distance.Finite? && near[0].distance.units > bound) ==>
                  && answer.Ok? && answer.value.1.None?
                  && answer.value.0 == CachedAnswer(None, false, [], None, None, None))
            && (near != [] && near[0].distance.Finite? && near[0].distance.units <= bound ==>
                  match weather.completion
                  case None => answer == Err("every provider failed")
                  case Some((c, cost)) =>
                    answer == Ok((CachedAnswer(Some(c.text), true, citations, Some(c.provider), Some(c.model),
                                               c.finishReason), Some(cost))))
  {
    hide VectorDb, TextDb;
  }

  class Service {
    const env: Env
    const config: AnsweringConfig
    const chunkIds: map<nat, Source> -> set<string>
    const repository: IngestionRepository
    var cache: map<string, CachedAnswer>
    var recorded: seq<RecordInput>

    ghost const start: Db
    ghost var events: seq<Event>

    constructor (env: Env, config: AnsweringConfig, chunkIds: map<nat, Source> -> set<string>,
                 repository: IngestionRepository)
      ensures this.env == env && this.config == config && this.chunkIds == chunkIds && this.repository == repository
      ensures Valid() && cache == map[] && recorded == [] && start == repository.State() && events == []
    {
      this.env, this.config, this.chunkIds, this.repository := env, config, chunkIds, repository;
      cache, recorded := map[], [];
      start, events := repository.State(), [];
    }

    ghost function Ghostly(): World
      reads this
    {
      After(env, start, events)
    }

    /** The database and the cache are those of a run of the protocol. */
    ghost predicate Valid()
      reads this, repository
    {
      var w := Ghostly();
      && w.start == start
      && repository.State() == Run(start, w.writes)
      && cache.Keys == w.cache.Keys
      && forall key | key in cache :: cache[key] == w.cache[key].cached
    }

    ghost predicate Stands(rid: nat, question: string, pc: Pc)
      reads this
    {
      rid in Ghostly().requests && Ghostly().requests[rid] == Request(question, config, pc)
    }

    ghost method Emit(e: Event)
      modifies this`events
      ensures Ghostly() == Next(env, old(Ghostly()), e)
    {
      events := events + [e];
      assert events[..|events| - 1] == old(events);
    }

    /** A write by another client reaches the database and the protocol alike; no request notices. */
    method Elsewhere(write: Write)
      requires Valid()
      modifies this`events, repository
      ensures Valid() && repository.State() == Apply(old(repository.State()), write)
      ensures Ghostly() == old(Ghostly()).(writes := old(Ghostly()).writes + [write])
    {
      OneMoreWrite(env, Ghostly(), write);
      RunSnoc(start, Ghostly().writes, write);
      hide After, Next, Run, Apply;
      var service := new IngestionService.Service(repository, 0);
      service.Perform(write);
      Emit(Wrote(write));
    }

    /** All of them, in order. */
    method Meanwhile(writes: seq<Write>)
      requires Valid()
      modifies this`events, repository
      ensures Valid() && repository.State() == Run(old(repository.State()), writes)
      ensures Ghostly() == old(Ghostly()).(writes := old(Ghostly()).writes + writes)
      decreases |writes|
    {
      hide After, Next, Run, Apply, Valid;
      if writes == [] {
        RunNothing(repository.State());
        return;
      }
      var n := |writes| - 1;
      ghost var w, db := Ghostly(), repository.State();
      Meanwhile(writes[..n]);
      Elsewhere(writes[n]);
      assert writes == writes[..n] + [writes[n]];
      assert w.writes + writes == (w.writes + writes[..n]) + [writes[n]];
      RunSnoc(db, writes[..n], writes[n]);
    }

    /** The version is read once, before anything else; the caller threads it to whatever it writes later. */
    method CachedLookup(question: string, up: bool, ghost rid: nat)
      returns (version: string, cached: Option<CachedAnswer>)
      requires Valid() && Stands(rid, question, Asked)
      modifies this`events
      ensures Valid() && Ghostly().writes == old(Ghostly()).writes && Ghostly().cache == old(Ghostly()).cache
      ensures version == Render(Current(repository.State()), env.iso)
      ensures var key := Key(env, version, question, config);
              cached == if up && key in cache then Some(cache[key]) else None
      ensures cached.Some? ==> Stands(rid, question,
                Served(version, |Ghostly().writes|, |Ghostly().writes|,
                    Ghostly().cache[Key(env, version, question, config)]))
      ensures cached.Some? ==> IsHit(env, start, events, rid)
      ensures cached.None? ==> Stands(rid, question, Retrieving(version, |Ghostly().writes|, None, None))
    {
      var v := Aggregate(repository.rows);
      version := Render(v, env.iso);
      ghost var w := Ghostly();
      assert w.writes[..|w.writes|] == w.writes;
      assert version == VersionAt(env, w, |w.writes|);
      Looks(env, w, rid, question, config, up);
      hide After, Next, Key, Run, Render, Current, VersionAt;
      var key := Key(env, version, question, config);
      cached := if up && key in cache then Some(cache[key]) else None;
      Emit(ReadVersion(rid));
      Emit(Lookup(rid, up));
    }

    /** Two queries, started together, each on the ready rows as they are when it runs. */
    method RetrieveGrounded(question: string, weather: Weather, ghost rid: nat, ghost version: string,
        ghost readAt: nat)
      returns (chunks: Option<seq<string>>)
      requires Valid() && Stands(rid, question, Retrieving(version, readAt, None, None)) && weather.embedding.Some?
      modifies this`events, repository
      ensures Valid() && Ghostly().cache == old(Ghostly()).cache
      ensures repository.State() == Run(Run(old(repository.State()), weather.beforeFirst), weather.beforeSecond)
      ensures chunks == Outcome(env, config, VectorDb(old(repository.State()), weather),
                                TextDb(old(repository.State()), weather), weather.embedding.value, question)
      ensures var near := env.byVector(Corpus(VectorDb(old(repository.State()), weather)), weather.embedding.value);
              && (chunks.Some? ==> near != [] && !near[0].distance.NaN?)
              && (near != [] && near[0].distance.Finite? && config.groundingMaxDistance.Finite? ==>
                    (chunks.Some? <==> near[0].distance.units <= config.groundingMaxDistance.units))
      ensures exists a: nat, b: nat :: a <= |Ghostly().writes| && b <= |Ghostly().writes|
                && Stands(rid, question, Retrieving(version, readAt, Some((a, weather.embedding.value)), Some(b)))
                && chunks == Outcome(env, config, At(Ghostly(), a), At(Ghostly(), b), weather.embedding.value, question)
    {
      hide After, Next, Run;
      Meanwhile(weather.beforeFirst);
      Searches(env, Ghostly(), rid, question, config, version, readAt, weather.embedding.value, weather.beforeSecond);
      var near, byText;
      if weather.textFirst {
        byText := env.byText(Corpus(Db(repository.rows, 0, 0)), question);
        Emit(SearchText(rid));
        Meanwhile(weather.beforeSecond);
        near := env.byVector(Corpus(Db(repository.rows, 0, 0)), weather.embedding.value);
        Emit(SearchVector(rid, weather.embedding.value));
      } else {
        near := env.byVector(Corpus(Db(repository.rows, 0, 0)), weather.embedding.value);
        Emit(SearchVector(rid, weather.embedding.value));
        Meanwhile(weather.beforeSecond);
        byText := env.byText(Corpus(Db(repository.rows, 0, 0)), question);
        Emit(SearchText(rid));
      }
      chunks := if Grounded(near, config) then Some(env.fuse(near, byText)) else None;
    }

    /** A citation of a chunk that is gone rolls the whole transaction back. */
    method Record(input: RecordInput, up: bool) returns (r: Recorded)
      modifies this`recorded
      ensures r == if !up then Unavailable
                   else if Resolve(input.citations, repository.rows) then Stored else ForeignKeyViolation
      ensures recorded == old(recorded) + if r == Stored then [input] else []
    {
      if !up {
        return Unavailable;
      }
      if exists i | 0 <= i < |input.citations| :: input.citations[i] !in chunkIds(repository.rows) {
        return ForeignKeyViolation;
      }
      recorded := recorded + [input];
      return Stored;
    }

    predicate Resolve(citations: seq<string>, rows: map<nat, Source>) {
      forall i | 0 <= i < |citations| :: citations[i] in chunkIds(rows)
    }

    /** Stored once, and without its citations only when they no longer resolve; failures stay inside. */
    method Persist(input: RecordInput, weather: Weather)
      modifies this`recorded
      ensures recorded == old(recorded) + Persisted(input, Resolve(input.citations, repository.rows), weather)
    {
      var first := Record(input, weather.recordUp);
      if first == ForeignKeyViolation && |input.citations| > 0 {
        var _ := Record(input.(citations := []), weather.retryUp);
      }
    }

    /** The cache is written under the version the caller read first; nothing is read again here. */
    method WriteCache(question: string, version: string, cached: CachedAnswer, up: bool, ghost rid: nat,
        ghost entry: Entry)
      requires Valid() && Stands(rid, question, Answered(version, entry)) && entry.cached == cached
      modifies this`events, this`cache
      ensures Valid() && Stands(rid, question, Done)
      ensures cache == if up then old(cache)[Key(env, version, question, config) := cached] else old(cache)
    {
      Stores(env, Ghostly(), rid, question, config, version, entry, up);
      hide After, Next, Key;
      if up {
        cache := cache[Key(env, version, question, config) := cached];
      }
      Emit(Store(rid, up));
    }

    /** The rest of a request that missed. The answer is filed under the version it was handed. */
    method AnswerMiss(question: string, version: string, weather: Weather, ghost rid: nat, ghost readAt: nat)
      returns (r: Result<CachedAnswer, string>)
      requires Valid() && Stands(rid, question, Retrieving(version, readAt, None, None))
      modifies this`events, this`cache, this`recorded, repository
      ensures Valid()
      ensures var key := Key(env, version, question, config);
              match Answer(env, config, question, old(repository.State()), weather)
              case Err(e) => r == Err(e) && cache == old(cache) && recorded == old(recorded)
              case Ok((cached, cost)) =>
                && r == Ok(cached) && cache == (if weather.setUp then old(cache)[key := cached] else old(cache))
                && recorded == old(recorded)
                     + Persisted(InputOf(question, cached, cost), Resolve(cached.citations, repository.rows), weather)
    {
      hide After, Next, Key, Run, Outcome, Persisted, VectorDb, TextDb;
      if weather.embedding.None? {
        Fails(env, Ghostly(), rid);
        Emit(Fail(rid));
        return Err("embedding failed");
      }
      if !weather.searchUp {
        Fails(env, Ghostly(), rid);
        Emit(Fail(rid));
        return Err("search failed");
      }
      var outcome := RetrieveGrounded(question, weather, rid, version, readAt);
      if outcome.Some? && weather.completion.None? {
        Fails(env, Ghostly(), rid);
        Emit(Fail(rid));
        return Err("every provider failed");
      }
      var completion, cost := UNASKED, None;
      if outcome.Some? {
        completion, cost := weather.completion.value.0, Some(weather.completion.value.1);
      }
      var cached := CachedOf(outcome, completion);
      ghost var entry := Completes(env, Ghostly(), rid, question, config, version, readAt, outcome, completion);
      Emit(Complete(rid, completion));
      Meanwhile(weather.beforeRecord);
      Persist(InputOf(question, cached, cost), weather);
      WriteCache(question, version, cached, weather.setUp, rid, entry);
      return Ok(cached);
    }

    /** One request. Without a version it fails and leaves no trace. A hit is recorded at no cost and writes nothing
        else; a miss answers from what its queries found, and files the answer under the version of the state it
        started from, whatever was written since. */
    method Ask(question: string, weather: Weather, ghost rid: nat) returns (r: Result<CachedAnswer, string>)
      requires Valid() && rid !in Ghostly().requests
      modifies this`events, this`cache, this`recorded, repository
      ensures Valid()
      ensures var key := Key(env, Render(Current(old(repository.State())), env.iso), question, config);
              if !weather.versionUp then
                && r == Err("version query failed") && cache == old(cache) && recorded == old(recorded)
                && repository.State() == old(repository.State())
              else if weather.getUp && key in old(cache) then
                var hit := old(cache)[key];
                && r == Ok(hit) && cache == old(cache) && repository.State() == old(repository.State())
                && recorded == old(recorded)
                     + Persisted(InputOf(question, hit, CachedCost(hit)), Resolve(hit.citations, repository.rows),
                         weather)
              else
                match Answer(env, config, question, old(repository.State()), weather)
                case Err(e) => r == Err(e) && cache == old(cache) && recorded == old(recorded)
                case Ok((cached, cost)) =>
                  && r == Ok(cached) && cache == (if weather.setUp then old(cache)[key := cached] else old(cache))
                  && recorded == old(recorded)
                       + Persisted(InputOf(question, cached, cost), Resolve(cached.citations, repository.rows), weather)
    {
      Asks(env, Ghostly(), rid, question, config);
      hide After, Next, Key, Run, Answer, InputOf, Persisted, Render, Current;
      Emit(AskCache.Ask(rid, question, config));
      if !weather.versionUp {
        Fails(env, Ghostly(), rid);
        Emit(Fail(rid));
        return Err("version query failed");
      }
      var version, hit := CachedLookup(question, weather.getUp, rid);
      if hit.Some? {
        Persist(InputOf(question, hit.value, CachedCost(hit.value)), weather);
        return Ok(hit.value);
      }
      r := AnswerMiss(question, version, weather, rid, |Ghostly().writes|);
    }
  }

  /** The two queries, in either order, with other clients' writes in between. */
  lemma Searches(env: Env, w: World, rid: nat, question: string, config: AnsweringConfig, version: string,
                 readAt: nat, embedding: seq<real>, writes: seq<Write>)
    requires rid in w.requests && w.requests[rid] == Request(question, config, Retrieving(version, readAt, None, None))
    ensures Searched(env, w, rid, SearchVector(rid, embedding), writes, SearchText(rid),
              Request(question, config, Retrieving(version, readAt, Some((|w.writes|, embedding)),
                  Some(|w.writes + writes|))))
    ensures Searched(env, w, rid, SearchText(rid), writes, SearchVector(rid, embedding),
              Request(question, config, Retrieving(version, readAt, Some((|w.writes + writes|, embedding)),
                  Some(|w.writes|))))
  {
    hide LookedUp, Completed, VersionAt;
    assert (w.writes + writes)[..|w.writes|] == w.writes;
    assert (w.writes + writes)[..|w.writes + writes|] == w.writes + writes;
  }

  /** One query, some writes, the other query: nothing changes but the database and where the request stands. */
  ghost predicate Searched(env: Env, w: World, rid: nat, one: Event, writes: seq<Write>, other: Event, r: Request) {
    var first := Next(env, w, one);
    var w' := Next(env, first.(writes := first.writes + writes), other);
    && first.start == w.start && first.writes == w.writes && first.cache == w.cache
    && w'.start == w.start && w'.writes == w.writes + writes && w'.cache == w.cache
    && rid in w'.requests && w'.requests[rid] == r
    && At(w', |w.writes|) == Run(w.start, w.writes) && At(w', |w'.writes|) == Run(w.start, w'.writes)
  }

  lemma RunNothing(db: Db)
    ensures Run(db, []) == db
  {
  }

  lemma OneMoreWrite(env: Env, w: World, write: Write)
    ensures Next(env, w, Wrote(write)) == w.(writes := w.writes + [write])
  {
  }

  lemma Asks(env: Env, w: World, rid: nat, question: string, config: AnsweringConfig)
    requires rid !in w.requests
    ensures Next(env, w, AskCache.Ask(rid, question, config))
         == w.(requests := w.requests[rid := Request(question, config, Asked)])
  {
  }

  lemma Fails(env: Env, w: World, rid: nat)
    requires rid in w.requests
    ensures var w' := Next(env, w, Fail(rid));
            w'.start == w.start && w'.writes == w.writes && w'.cache == w.cache
  {
    hide Key, LookedUp, Completed, VersionAt;
  }

  lemma Completes(env: Env, w: World, rid: nat, question: string, config: AnsweringConfig, version: string,
                  readAt: nat, outcome: Option<seq<string>>, completion: Completion) returns (entry: Entry)
    requires exists a: nat, b: nat, embedding: seq<real> :: a <= |w.writes| && b <= |w.writes|
               && rid in w.requests
               && w.requests[rid] == Request(question, config,
                   Retrieving(version, readAt, Some((a, embedding)), Some(b)))
               && outcome == Outcome(env, config, At(w, a), At(w, b), embedding, question)
    ensures entry.cached == CachedOf(outcome, completion)
    ensures var w' := Next(env, w, Complete(rid, completion));
            && w'.start == w.start && w'.writes == w.writes && w'.cache == w.cache
            && rid in w'.requests && w'.requests[rid] == Request(question, config, Answered(version, entry))
  {
    hide Key, LookedUp, VersionAt, Outcome, Run;
    entry := Completed(env, w, w.requests[rid], completion).entry;
  }

  lemma Stores(env: Env, w: World, rid: nat, question: string, config: AnsweringConfig, version: string,
               entry: Entry, up: bool)
    requires rid in w.requests && w.requests[rid] == Request(question, config, Answered(version, entry))
    ensures var w' := Next(env, w, Store(rid, up));
            && w'.start == w.start && w'.writes == w.writes
            && rid in w'.requests && w'.requests[rid] == Request(question, config, Done)
            && w'.cache == if up then w.cache[Key(env, version, question, config) := entry] else w.cache
  {
    hide Key, LookedUp, Completed, VersionAt;
  }

  /** The two steps of a lookup, taken one after the other. */
  lemma Looks(env: Env, w: World, rid: nat, question: string, config: AnsweringConfig, up: bool)
    requires rid in w.requests && w.requests[rid] == Request(question, config, Asked)
    ensures var version, n := VersionAt(env, w, |w.writes|), |w.writes|;
            var key := Key(env, version, question, config);
            var w' := Next(env, Next(env, w, ReadVersion(rid)), Lookup(rid, up));
            && w'.start == w.start && w'.writes == w.writes && w'.cache == w.cache && rid in w'.requests
            && w'.requests[rid] == Request(question, config,
                 if up && key in w.cache then Served(version, n, n, w.cache[key])
                     else Retrieving(version, n, None, None))
  {
    hide Key, VersionAt, Completed;
  }
}

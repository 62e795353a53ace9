/** Asking questions while ingestion runs: the version read, the cache lookup, the two retrieval queries, the
    completion and the cache write are separate steps, interleaved with any writes to the sources. */
module AskCache {
  import opened Text
  import opened Repository
  import opened CorpusVersion
  import opened CacheKeys

  /** A chunk and its cosine distance to the question. */
  datatype Near = Near(chunkId: string, distance: Number)

  /** What is computed elsewhere. Both queries see the ready rows and nothing else; `fuse` is fusion, the cut
      to the best and the conversion to citations. */
  datatype Env = Env(
    sha: Hash, iso: nat -> string, show: Number -> string,
    byVector: (map<nat, Source>, seq<real>) -> seq<Near>,
    byText: (map<nat, Source>, string) -> seq<string>,
    fuse: (seq<Near>, seq<string>) -> seq<string>)

  ghost predicate Sane(env: Env) {
    IsHash(env.sha) && RendersDistinctly(env.iso) && ShowsDistinctly(env.show)
  }

  predicate Grounded(near: seq<Near>, config: AnsweringConfig) {
    near != [] && AtMost(near[0].distance, config.groundingMaxDistance)
  }

  /** What the two queries come to when run against two states of the database: None is a refusal. */
  function Outcome(env: Env, config: AnsweringConfig, vectorDb: Db, textDb: Db, embedding: seq<real>,
                   question: string): Option<seq<string>> {
    var near := env.byVector(Corpus(vectorDb), embedding);
    if Grounded(near, config) then Some(env.fuse(near, env.byText(Corpus(textDb), question))) else None
  }

  /** Answered exactly if the nearest chunk is no further away than the bound, on the numbers themselves; nothing
      found, or a distance or a bound that is no number, always refuses, and so does a bound of minus infinity. */
  lemma AnsweredIffNear(env: Env, config: AnsweringConfig, vectorDb: Db, textDb: Db, embedding: seq<real>,
                        question: string)
    ensures var near, bound := env.byVector(Corpus(vectorDb), embedding), config.groundingMaxDistance;
            var answered := Outcome(env, config, vectorDb, textDb, embedding, question).Some?;
            && (answered ==> near != [] && !near[0].distance.NaN? && !bound.NaN?)
            && (near != [] && near[0].distance.Finite? && bound.Finite? ==>
                  (answered <==> near[0].distance.units <= bound.units))
            && (near != [] && near[0].distance.Finite? && bound.Infinite? ==> (answered <==> bound.positive))
            && (near != [] && near[0].distance.Infinite? && !bound.NaN? ==>
                  (answered <==> !near[0].distance.positive || bound == Infinite(true)))
  {
  }

  /** Raising the bound never turns an answer into a refusal, nor changes the answer's citations. */
  lemma HigherBoundKeepsAnswers(env: Env, config: AnsweringConfig, higher: int, vectorDb: Db, textDb: Db,
                                embedding: seq<real>, question: string)
    requires config.groundingMaxDistance.Finite? && config.groundingMaxDistance.units <= higher
    requires Outcome(env, config, vectorDb, textDb, embedding, question).Some?
    ensures Outcome(env, config.(groundingMaxDistance := Finite(higher)), vectorDb, textDb, embedding, question)
         == Outcome(env, config, vectorDb, textDb, embedding, question)
  {
  }

  datatype Completion = Completion(text: string, provider: string, model: string, finishReason: Option<string>)

  datatype CachedAnswer = CachedAnswer(answer: Option<string>, grounded: bool, citations: seq<string>,
                                       provider: Option<string>, model: Option<string>, finishReason: Option<string>)

  /** A refusal names no model; an answer keeps the provider's text as it is, even when empty. */
  function CachedOf(outcome: Option<seq<string>>, c: Completion): CachedAnswer {
    match outcome
    case None => CachedAnswer(None, false, [], None, None, None)
    case Some(citations) => CachedAnswer(Some(c.text), true, citations, Some(c.provider), Some(c.model), c.finishReason)
  }

  /** Where an answer came from. Not stored anywhere: states are numbered by the writes before them. */
  datatype Origin = Origin(question: string, config: AnsweringConfig, readAt: nat, vectorAt: nat, textAt: nat,
                           embedding: seq<real>, completion: Completion)

  datatype Entry = Entry(cached: CachedAnswer, origin: Origin)

  datatype Pc =
    | Asked
    | Versioned(version: string, readAt: nat)
    | Retrieving(version: string, readAt: nat, vector: Option<(nat, seq<real>)>, text: Option<nat>)
    | Answered(version: string, entry: Entry)
    | Served(version: string, readAt: nat, servedAt: nat, entry: Entry)
    | Done

  /** A request runs under the configuration of the process that serves it. */
  datatype Request = Request(question: string, config: AnsweringConfig, pc: Pc)

  datatype World = World(start: Db, writes: seq<Write>, requests: map<nat, Request>, cache: map<string, Entry>)

  datatype Event =
    | Wrote(write: Write)
    | Ask(rid: nat, question: string, config: AnsweringConfig)
    | ReadVersion(rid: nat)
    | Lookup(rid: nat, up: bool)
    | SearchVector(rid: nat, embedding: seq<real>)
    | SearchText(rid: nat)
    | Complete(rid: nat, completion: Completion)
    | Store(rid: nat, up: bool)
    | Fail(rid: nat)
    | Evict(key: string)

  function At(w: World, i: nat): Db
    requires i <= |w.writes|
  {
    Run(w.start, w.writes[..i])
  }

  ghost function VersionAt(env: Env, w: World, i: nat): string
    requires i <= |w.writes|
  {
    Render(Current(At(w, i)), env.iso)
  }

  function Key(env: Env, version: string, question: string, config: AnsweringConfig): string {
    AnswerKey(env.sha, version, question, AnsweringConfigFingerprint(env.sha, env.show, config))
  }

  /** Where a request stands after an event; one that does not fit its program point changes nothing. */
  ghost function NextPc(env: Env, w: World, r: Request, e: Event): Pc {
    var now := |w.writes|;
    match e
    case ReadVersion(_) => if r.pc.Asked? then Versioned(VersionAt(env, w, now), now) else r.pc
    case Lookup(_, up) => if r.pc.Versioned? then LookedUp(env, w, r, up) else r.pc
    case SearchVector(_, embedding) =>
      if r.pc.Retrieving? && r.pc.vector.None? then r.pc.(vector := Some((now, embedding))) else r.pc
    case SearchText(_) =>
      if r.pc.Retrieving? && r.pc.text.None? then r.pc.(text := Some(now)) else r.pc
    case Complete(_, completion) =>
      if r.pc.Retrieving? && r.pc.vector.Some? && r.pc.text.Some? then Completed(env, w, r, completion) else r.pc
    case Store(_, _) => if r.pc.Answered? then Done else r.pc
    case Fail(_) => Done
    case _ => r.pc
  }

  ghost function LookedUp(env: Env, w: World, r: Request, up: bool): Pc
    requires r.pc.Versioned?
  {
    var key := Key(env, r.pc.version, r.question, r.config);
    if up && key in w.cache then Served(r.pc.version, r.pc.readAt, |w.writes|, w.cache[key])
    else Retrieving(r.pc.version, r.pc.readAt, None, None)
  }

  function Completed(env: Env, w: World, r: Request, completion: Completion): Pc
    requires r.pc.Retrieving? && r.pc.vector.Some? && r.pc.text.Some?
  {
    var (vectorAt, embedding) := r.pc.vector.value;
    var origin := Origin(r.question, r.config, r.pc.readAt, vectorAt, r.pc.text.value, embedding, completion);
    Answered(r.pc.version, Entry(CachedOf(OutcomeOf(env, w, origin), completion), origin))
  }

  function OutcomeOf(env: Env, w: World, o: Origin): Option<seq<string>> {
    if o.vectorAt <= |w.writes| && o.textAt <= |w.writes| then
      Outcome(env, o.config, At(w, o.vectorAt), At(w, o.textAt), o.embedding, o.question)
    else None
  }

  /** Only an answered request writes the cache, and under the version it read first. */
  function NextCache(env: Env, w: World, r: Request, e: Event): map<string, Entry> {
    if e.Store? && e.up && r.pc.Answered? then w.cache[Key(env, r.pc.version, r.question, r.config) := r.pc.entry]
    else w.cache
  }

  ghost function Next(env: Env, w: World, e: Event): World {
    if e.Wrote? then w.(writes := w.writes + [e.write])
    else if e.Evict? then w.(cache := w.cache - {e.key})
    else if e.Ask? then
      if e.rid in w.requests then w else w.(requests := w.requests[e.rid := Request(e.question, e.config, Asked)])
    else if e.rid !in w.requests then w
    else
      var r := w.requests[e.rid];
      w.(requests := w.requests[e.rid := r.(pc := NextPc(env, w, r, e))], cache := NextCache(env, w, r, e))
  }

  ghost function After(env: Env, start: Db, events: seq<Event>): World {
    if events == [] then World(start, [], map[], map[])
    else Next(env, After(env, start, events[..|events| - 1]), events[|events| - 1])
  }

  // --------------------------------------------------------- the invariant

  /** The answer is what its two queries came to, and neither ran before the version was read. */
  ghost predicate Sound(env: Env, w: World, e: Entry) {
    var o := e.origin;
    && o.readAt <= o.vectorAt <= |w.writes| && o.readAt <= o.textAt <= |w.writes|
    && e.cached == CachedOf(OutcomeOf(env, w, o), o.completion)
  }

  ghost predicate Filed(env: Env, w: World, key: string, e: Entry) {
    Sound(env, w, e) && key == Key(env, VersionAt(env, w, e.origin.readAt), e.origin.question, e.origin.config)
  }

  ghost predicate RequestOk(env: Env, w: World, r: Request) {
    var n := |w.writes|;
    match r.pc
    case Versioned(version, readAt) => readAt <= n && version == VersionAt(env, w, readAt)
    case Retrieving(version, readAt, vector, text) =>
      && readAt <= n && version == VersionAt(env, w, readAt)
      && (vector.Some? ==> readAt <= vector.value.0 <= n)
      && (text.Some? ==> readAt <= text.value <= n)
    case Answered(version, entry) =>
      && Sound(env, w, entry) && version == VersionAt(env, w, entry.origin.readAt)
      && entry.origin.question == r.question && entry.origin.config == r.config
    case Served(version, readAt, servedAt, entry) =>
      && readAt <= servedAt <= n && version == VersionAt(env, w, readAt)
      && Filed(env, w, Key(env, version, r.question, r.config), entry)
    case _ => true
  }

  ghost predicate Inv(env: Env, w: World) {
    && (forall key | key in w.cache :: Filed(env, w, key, w.cache[key]))
    && (forall rid | rid in w.requests :: RequestOk(env, w, w.requests[rid]))
  }

  /** Later writes do not change the states already numbered. */
  lemma MoreWrites(env: Env, w: World, write: Write)
    ensures var w' := w.(writes := w.writes + [write]);
            forall i: nat | i <= |w.writes| :: At(w', i) == At(w, i) && VersionAt(env, w', i) == VersionAt(env, w, i)
  {
    forall i: nat | i <= |w.writes|
      ensures (w.writes + [write])[..i] == w.writes[..i]
    {
    }
  }

  lemma WriteKeepsInv(env: Env, w: World, write: Write)
    requires Inv(env, w)
    ensures Inv(env, w.(writes := w.writes + [write]))
  {
    hide At, VersionAt, Outcome, Key;
    MoreWrites(env, w, write);
    var w' := w.(writes := w.writes + [write]);
    forall e: Entry | Sound(env, w, e)
      ensures Sound(env, w', e)
    {
    }
    forall key: string, e: Entry | Filed(env, w, key, e)
      ensures Filed(env, w', key, e)
    {
    }
  }

  lemma PcKeepsInv(env: Env, w: World, r: Request, e: Event)
    requires Inv(env, w) && RequestOk(env, w, r)
    ensures RequestOk(env, w, r.(pc := NextPc(env, w, r, e)))
  {
    hide VersionAt, OutcomeOf, Key;
  }

  lemma CacheKeepsInv(env: Env, w: World, r: Request, e: Event, key: string)
    requires Inv(env, w) && RequestOk(env, w, r) && key in NextCache(env, w, r, e)
    ensures Filed(env, w, key, NextCache(env, w, r, e)[key])
  {
    hide VersionAt, OutcomeOf, Key;
  }

  /** Nothing is said about requests and cache but through the writes. */
  lemma SameWrites(env: Env, w: World, w': World)
    requires w'.start == w.start && w'.writes == w.writes
    ensures forall e: Entry, key: string :: Filed(env, w, key, e) == Filed(env, w', key, e)
    ensures forall r: Request :: RequestOk(env, w, r) == RequestOk(env, w', r)
  {
    hide Outcome, Key, Run, Current, Render;
    assert forall i: nat | i <= |w.writes| :: At(w', i) == At(w, i) && VersionAt(env, w', i) == VersionAt(env, w, i);
    hide At, VersionAt;
    assert forall o: Origin :: OutcomeOf(env, w, o) == OutcomeOf(env, w', o);
  }

  lemma AskedOk(env: Env, w: World, question: string, config: AnsweringConfig)
    ensures RequestOk(env, w, Request(question, config, Asked))
  {
  }

  lemma NextKeepsInv(env: Env, w: World, e: Event)
    requires Inv(env, w)
    ensures Inv(env, Next(env, w, e))
  {
    hide Filed, RequestOk, NextPc, NextCache;
    if e.Wrote? {
      WriteKeepsInv(env, w, e.write);
    } else {
      var w' := Next(env, w, e);
      SameWrites(env, w, w');
      if e.Ask? {
        AskedOk(env, w, e.question, e.config);
      } else if !e.Evict? && e.rid in w.requests {
        var r := w.requests[e.rid];
        PcKeepsInv(env, w, r, e);
        forall key | key in w'.cache
          ensures Filed(env, w, key, w'.cache[key])
        {
          CacheKeepsInv(env, w, r, e, key);
        }
      }
    }
  }

  lemma {:induction false} InvAlways(env: Env, start: Db, events: seq<Event>)
    ensures Inv(env, After(env, start, events)) && After(env, start, events).start == start
  {
    hide Inv;
    if events == [] {
      EmptyInv(env, start);
    } else {
      InvAlways(env, start, events[..|events| - 1]);
      NextKeepsInv(env, After(env, start, events[..|events| - 1]), events[|events| - 1]);
      hide NextPc, NextCache;
    }
  }

  lemma EmptyInv(env: Env, start: Db)
    ensures Inv(env, World(start, [], map[], map[]))
  {
  }

  // ------------------------------------------------------------- the hits

  /** Over one run of the database, two states render the same version exactly when they have the same corpus. */
  lemma VersionsAgree(env: Env, w: World, i: nat, j: nat)
    requires Sane(env) && Repository.Valid(w.start) && i <= |w.writes| && j <= |w.writes|
    ensures VersionAt(env, w, i) == VersionAt(env, w, j) <==> Corpus(At(w, i)) == Corpus(At(w, j))
  {
    var lo, hi := if i <= j then i else j, if i <= j then j else i;
    assert w.writes[..hi] == w.writes[..lo] + w.writes[lo..hi];
    RunConcat(w.start, w.writes[..lo], w.writes[lo..hi]);
    CountersAlwaysExact(w.start, w.writes[..lo]);
    VersionIdentifiesCorpus(At(w, lo), w.writes[lo..hi]);
    RenderInjective(Current(At(w, lo)), Current(At(w, hi)), env.iso);
    hide Run, Render, Current, Corpus, Repository.Valid, RendersDistinctly;
  }

  /** The hit of request rid, in any run of any requests and writes. */
  ghost predicate IsHit(env: Env, start: Db, events: seq<Event>, rid: nat) {
    var w := After(env, start, events);
    rid in w.requests && w.requests[rid].pc.Served?
  }

  lemma HitIsFiled(env: Env, start: Db, events: seq<Event>, rid: nat)
    requires IsHit(env, start, events, rid)
    ensures var w := After(env, start, events);
            var r := w.requests[rid];
            && r.pc.readAt <= r.pc.servedAt <= |w.writes| && r.pc.version == VersionAt(env, w, r.pc.readAt)
            && Filed(env, w, Key(env, r.pc.version, r.question, r.config), r.pc.entry)
            && w.start == start
  {
    InvAlways(env, start, events);
    hide After, Filed;
    assert RequestOk(env, After(env, start, events), After(env, start, events).requests[rid]);
  }

  lemma FingerprintsHaveNoColon(env: Env, c: AnsweringConfig)
    requires Sane(env)
    ensures ':' !in AnsweringConfigFingerprint(env.sha, env.show, c)
  {
  }

  /** Whatever is interleaved with whatever: an answer served from the cache was given to the same words and,
      where no other configuration shares the fingerprint, under the same configuration, by a request that read
      the version on exactly the corpus this request read its version on, before it retrieved anything. So
      nothing older than that corpus is ever served; and that corpus is still the one there is when the entry
      is looked up, if and only if the version still holds then. */
  lemma HitNeverOlder(env: Env, start: Db, events: seq<Event>, rid: nat)
    requires Sane(env) && Repository.Valid(start) && IsHit(env, start, events, rid)
    ensures var w := After(env, start, events);
            var r := w.requests[rid];
            var o := r.pc.entry.origin;
            && r.pc.readAt <= r.pc.servedAt <= |w.writes|
            && o.readAt <= o.vectorAt <= |w.writes| && o.readAt <= o.textAt <= |w.writes|
            && Words(o.question) == Words(r.question)
            && (Unambiguous(env.show, r.config) ==> o.config == r.config)
            && Corpus(At(w, o.readAt)) == Corpus(At(w, r.pc.readAt))
            && (Corpus(At(w, o.readAt)) == Corpus(At(w, r.pc.servedAt))
                <==> VersionAt(env, w, r.pc.servedAt) == r.pc.version)
  {
    HitIsFiled(env, start, events, rid);
    hide After;
    var w := After(env, start, events);
    var r := w.requests[rid];
    var o := r.pc.entry.origin;
    FingerprintsHaveNoColon(env, r.config);
    FingerprintsHaveNoColon(env, o.config);
    AnswerKeyIff(env.sha,
      r.pc.version, r.question, AnsweringConfigFingerprint(env.sha, env.show, r.config),
      VersionAt(env, w, o.readAt), o.question, AnsweringConfigFingerprint(env.sha, env.show, o.config));
    hide AnswerKey, IsHash, RendersDistinctly, Unambiguous;
    SameQuestionIff(r.question, o.question);
    FingerprintIff(env.sha, env.show, r.config);
    VersionsAgree(env, w, r.pc.readAt, o.readAt);
    VersionsAgree(env, w, r.pc.servedAt, r.pc.readAt);
  }

  /** The answer served rests on exactly the corpus this request read its version on, if and only if the version
      was still the one it is filed under when each of its two queries ran. */
  lemma HitIsCurrentIff(env: Env, start: Db, events: seq<Event>, rid: nat)
    requires Sane(env) && Repository.Valid(start) && IsHit(env, start, events, rid)
    ensures var w := After(env, start, events);
            var r := w.requests[rid];
            var o := r.pc.entry.origin;
            && r.pc.readAt <= |w.writes| && o.vectorAt <= |w.writes| && o.textAt <= |w.writes|
            && (Corpus(At(w, o.vectorAt)) == Corpus(At(w, r.pc.readAt)) == Corpus(At(w, o.textAt))
                <==> VersionAt(env, w, o.vectorAt) == r.pc.version == VersionAt(env, w, o.textAt))
  {
    HitIsFiled(env, start, events, rid);
    hide After;
    var w := After(env, start, events);
    var r := w.requests[rid];
    VersionsAgree(env, w, r.pc.readAt, r.pc.entry.origin.vectorAt);
    VersionsAgree(env, w, r.pc.readAt, r.pc.entry.origin.textAt);
  }

  /** And then the hit is what retrieval comes to on the corpus this request read its version on: refused or
      grounded alike, with the same citations. */
  lemma HitIsFresh(env: Env, start: Db, events: seq<Event>, rid: nat)
    requires Sane(env) && Repository.Valid(start) && IsHit(env, start, events, rid)
    requires var w := After(env, start, events);
             var o := w.requests[rid].pc.entry.origin;
             var version := w.requests[rid].pc.version;
             && o.vectorAt <= |w.writes| && o.textAt <= |w.writes|
             && VersionAt(env, w, o.vectorAt) == version == VersionAt(env, w, o.textAt)
    ensures var w := After(env, start, events);
            var r := w.requests[rid];
            var o := r.pc.entry.origin;
            && r.pc.readAt <= |w.writes|
            && r.pc.entry.cached == CachedOf(
                 Outcome(env, o.config, At(w, r.pc.readAt), At(w, r.pc.readAt), o.embedding, o.question), o.completion)
  {
    HitIsCurrentIff(env, start, events, rid);
    HitIsFiled(env, start, events, rid);
    hide After, VersionAt, At, Run, Current, Render, Key;
  }
}

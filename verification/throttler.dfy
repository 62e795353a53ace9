/** `RedisThrottlerStorage`: a fixed window counted by one atomic script. Time is in milliseconds. */
module Throttler {
  import opened Text

  /** A Redis key: its counter and, if it has one, the instant it expires. */
  datatype Counter = Counter(hits: nat, deadline: Option<nat>)

  type Counters = map<string, Counter>

  /** inclusive says whether Redis still shows a key at the very instant of its deadline. */
  datatype Settings = Settings(ttl: nat, limit: nat, inclusive: bool)

  predicate Visible(counters: Counters, key: string, now: nat, inclusive: bool) {
    key in counters
    && match counters[key].deadline
       case None => true
       case Some(d) => now < d || (inclusive && now == d)
  }

  function HitsSeen(counters: Counters, key: string, now: nat, inclusive: bool): nat {
    if Visible(counters, key, now, inclusive) then counters[key].hits else 0
  }

  /** INCR, then PTTL, then PEXPIRE if there is no expiry. */
  function Counted(counters: Counters, key: string, now: nat, ttl: nat, inclusive: bool): Counter {
    var kept := Visible(counters, key, now, inclusive) && counters[key].deadline.Some?;
    Counter(HitsSeen(counters, key, now, inclusive) + 1, if kept then counters[key].deadline else Some(now + ttl))
  }

  datatype Record = Record(totalHits: nat, timeToExpire: nat, isBlocked: bool, timeToBlockExpire: nat)

  const OPEN: Record := Record(0, 0, false, 0)

  class Storage {
    var counters: Counters
    const inclusive: bool

    constructor (inclusive: bool)
      ensures counters == map[] && this.inclusive == inclusive
    {
      counters := map[];
      this.inclusive := inclusive;
    }

    /** The Lua script. */
    method ThrottleIncrement(key: string, ttl: nat, now: nat) returns (totalHits: nat, pttl: nat)
      modifies this
      ensures counters == old(counters)[key := Counted(old(counters), key, now, ttl, inclusive)]
      ensures totalHits == counters[key].hits && counters[key].deadline == Some(now + pttl)
    {
      if !Visible(counters, key, now, inclusive) {
        counters := counters[key := Counter(0, None)];
      }
      counters := counters[key := counters[key].(hits := counters[key].hits + 1)];
      totalHits := counters[key].hits;
      var remaining: int := if counters[key].deadline.None? then -1 else counters[key].deadline.value - now;
      if remaining < 0 {
        counters := counters[key := counters[key].(deadline := Some(now + ttl))];
        remaining := ttl;
      }
      pttl := remaining;
    }

    /** Never an error: when no answer comes back the request goes through, whether or not the script ran.
        The wait is in whole seconds, the fewest that cover the time left, and never zero for a client that is
        blocked. */
    method Increment(key: string, ttl: nat, limit: nat, now: nat, ran: bool, answered: bool) returns (r: Record)
      requires ttl > 0
      modifies this
      ensures counters == if ran || answered then old(counters)[key := Counted(old(counters), key, now, ttl, inclusive)]
                          else old(counters)
      ensures !answered ==> r.totalHits == 0 && r.timeToExpire == 0 && !r.isBlocked && r.timeToBlockExpire == 0
      ensures answered ==> && r.totalHits == HitsSeen(old(counters), key, now, inclusive) + 1
                           && r.isBlocked == (r.totalHits > limit)
                           && r.timeToBlockExpire == (if r.isBlocked then r.timeToExpire else 0)
                           && r.timeToExpire > 0
                           && now + 1000 * r.timeToExpire >= counters[key].deadline.value
      ensures answered ==>
                var deadline := counters[key].deadline.value;
                var left := if deadline > now then deadline - now else ttl;
                1000 * (r.timeToExpire - 1) < left <= 1000 * r.timeToExpire
    {
      if !answered {
        if ran {
          var _, _ := ThrottleIncrement(key, ttl, now);
        }
        return OPEN;
      }
      var totalHits, pttl := ThrottleIncrement(key, ttl, now);
      var timeToExpireMs := if pttl > 0 then pttl else ttl;
      var isBlocked := totalHits > limit;
      var timeToExpire := (timeToExpireMs + 999) / 1000;
      return Record(totalHits, timeToExpire, isBlocked, if isBlocked then timeToExpire else 0);
    }
  }

  /** A live expiry is never moved, so a busy client cannot be locked out for longer than one window; a counter
      that lost its expiry gets one back at its next hit. */
  lemma ExpiryRules(counters: Counters, key: string, now: nat, s: Settings)
    requires key in counters
    ensures var c := Counted(counters, key, now, s.ttl, s.inclusive);
            && (Visible(counters, key, now, s.inclusive) && counters[key].deadline.Some? ==>
                  c.deadline == counters[key].deadline)
            && (counters[key].deadline.None? ==> c == Counter(counters[key].hits + 1, Some(now + s.ttl)))
            && (counters[key].deadline.Some? && counters[key].deadline.value < now
                ==> c == Counter(1, Some(now + s.ttl)))
  {
  }

  // ------------------------------------------------------------- the runs

  /** A request, whose answer may be lost, or a key that loses its expiry but not its count. */
  datatype Event = Hit(key: string, at: nat, answered: bool) | LoseTtl(key: string, at: nat)

  function Step(counters: Counters, e: Event, s: Settings): Counters {
    match e
    case Hit(key, at, _) => counters[key := Counted(counters, key, at, s.ttl, s.inclusive)]
    case LoseTtl(key, at) =>
      if Visible(counters, key, at, s.inclusive) then counters[key := counters[key].(deadline := None)] else counters
  }

  /** A request that was answered and let through. */
  predicate Admitted(counters: Counters, e: Event, s: Settings) {
    e.Hit? && e.answered && HitsSeen(counters, e.key, e.at, s.inclusive) + 1 <= s.limit
  }

  /** How many requests for the key are let through from a up to, but not including, b. */
  function Tally(counters: Counters, es: seq<Event>, key: string, a: nat, b: nat, s: Settings): nat
    decreases |es|
  {
    if es == [] then 0
    else
      (if es[0].key == key && a <= es[0].at < b && Admitted(counters, es[0], s) then 1 else 0)
      + Tally(Step(counters, es[0], s), es[1..], key, a, b, s)
  }

  predicate InOrder(es: seq<Event>) {
    forall i, j | 0 <= i < j < |es| :: es[i].at <= es[j].at
  }

  predicate CountsSomething(counters: Counters) {
    forall key | key in counters :: counters[key].hits >= 1
  }

  function Left(limit: nat, hits: nat): nat {
    if hits < limit then limit - hits else 0
  }

  /** What can still be let through before b: a counter that cannot expire before b has only its rest; any
      other can be followed by one whole window. */
  function Potential(counters: Counters, key: string, b: nat, s: Settings): nat {
    if key !in counters then s.limit
    else
      var c := counters[key];
      Left(s.limit, c.hits) + if c.deadline.Some? && c.deadline.value < b then s.limit else 0
  }

  lemma StepSpendsPotential(counters: Counters, e: Event, key: string, a: nat, s: Settings)
    requires a <= e.at < a + s.ttl
    ensures Potential(Step(counters, e, s), key, a + s.ttl, s)
            + (if e.key == key && Admitted(counters, e, s) then 1 else 0) <= Potential(counters, key, a + s.ttl, s)
  {
  }

  lemma {:induction false} AfterTheInterval(counters: Counters, es: seq<Event>, key: string, a: nat, b: nat,
      s: Settings)
    requires InOrder(es) && (es != [] ==> es[0].at >= b)
    ensures Tally(counters, es, key, a, b, s) == 0
    decreases |es|
  {
    if es != [] {
      AfterTheInterval(Step(counters, es[0], s), es[1..], key, a, b, s);
    }
  }

  lemma {:induction false} WithinPotential(counters: Counters, es: seq<Event>, key: string, a: nat, s: Settings)
    requires InOrder(es) && (es != [] ==> es[0].at >= a)
    ensures Tally(counters, es, key, a, a + s.ttl, s) <= Potential(counters, key, a + s.ttl, s)
    decreases |es|
  {
    if es != [] {
      if es[0].at >= a + s.ttl {
        AfterTheInterval(counters, es, key, a, a + s.ttl, s);
      } else {
        StepSpendsPotential(counters, es[0], key, a, s);
        WithinPotential(Step(counters, es[0], s), es[1..], key, a, s);
      }
    }
  }

  /** Whatever happens on this and other keys, no interval as long as the window lets through more than twice
      the limit; less one, because the hit that opened an older window lies before the interval. */
  lemma {:induction false} FixedWindowBound(counters: Counters, es: seq<Event>, key: string, a: nat, s: Settings)
    requires InOrder(es) && CountsSomething(counters)
    ensures Tally(counters, es, key, a, a + s.ttl, s) <= if s.limit == 0 then 0 else 2 * s.limit - 1
    decreases |es|
  {
    if es == [] || es[0].at >= a {
      WithinPotential(counters, es, key, a, s);
    } else {
      FixedWindowBound(Step(counters, es[0], s), es[1..], key, a, s);
    }
  }

  // -------------------------------------------------------- the bound is met

  function Hits(n: nat, key: string, at: nat): seq<Event> {
    seq(n, i => Hit(key, at, true))
  }

  /** n hits on one counter that does not expire meanwhile. */
  lemma {:induction false} Burst(counters: Counters, n: nat, rest: seq<Event>, key: string, at: nat, a: nat, b: nat,
      s: Settings)
    requires Visible(counters, key, at, s.inclusive) && counters[key].deadline.Some?
    requires a <= at < b && counters[key].hits + n <= s.limit
    ensures Tally(counters, Hits(n, key, at) + rest, key, a, b, s)
         == n + Tally(counters[key := counters[key].(hits := counters[key].hits + n)], rest, key, a, b, s)
  {
    var es := Hits(n, key, at) + rest;
    if n == 0 {
      assert es == rest && counters[key := counters[key].(hits := counters[key].hits + n)] == counters;
    } else {
      var next := Step(counters, es[0], s);
      assert es[1..] == Hits(n - 1, key, at) + rest;
      Burst(next, n - 1, rest, key, at, a, b, s);
      assert next[key := next[key].(hits := next[key].hits + (n - 1))]
          == counters[key := counters[key].(hits := counters[key].hits + n)];
    }
  }

  /** A window opened at one instant and filled at another. */
  lemma OneWindow(counters: Counters, n: nat, rest: seq<Event>, key: string, opening: nat, at: nat, a: nat, b: nat,
      s: Settings)
    requires !Visible(counters, key, opening, s.inclusive) && n + 1 <= s.limit
    requires a <= at < b && opening <= at < opening + s.ttl
    ensures Tally(counters, [Hit(key, opening, true)] + (Hits(n, key, at) + rest), key, a, b, s)
         == (if a <= opening < b then 1 else 0) + n
            + Tally(counters[key := Counter(n + 1, Some(opening + s.ttl))], rest, key, a, b, s)
  {
    var es := [Hit(key, opening, true)] + (Hits(n, key, at) + rest);
    assert es[1..] == Hits(n, key, at) + rest;
    var c := Step(counters, es[0], s);
    Burst(c, n, rest, key, at, a, b, s);
    assert c[key := c[key].(hits := c[key].hits + n)] == counters[key := Counter(n + 1, Some(opening + s.ttl))];
    hide Hits;
  }

  /** One window's opening hit, the rest of it just before it ends, and all of the next one. */
  function TwoBursts(key: string, s: Settings): seq<Event>
    requires s.limit >= 1 && s.ttl >= 1
  {
    [Hit(key, 0, true)] + (Hits(s.limit - 1, key, s.ttl - 1)
      + ([Hit(key, s.ttl + 1, true)] + (Hits(s.limit - 1, key, s.ttl + 1) + [])))
  }

  lemma BurstsInOrder(key: string, s: Settings)
    requires s.limit >= 1 && s.ttl >= 1
    ensures InOrder(TwoBursts(key, s))
  {
  }

  /** No smaller bound holds. */
  lemma BoundIsMet(key: string, s: Settings)
    requires s.limit >= 1 && s.ttl >= 3
    ensures InOrder(TwoBursts(key, s))
    ensures Tally(map[], TwoBursts(key, s), key, s.ttl - 1, (s.ttl - 1) + s.ttl, s) == 2 * s.limit - 1
  {
    BurstsInOrder(key, s);
    var a, n := s.ttl - 1, s.limit - 1;
    var second := [Hit(key, s.ttl + 1, true)] + (Hits(n, key, s.ttl + 1) + []);
    OneWindow(map[], n, second, key, 0, a, a, a + s.ttl, s);
    var full: Counters := map[][key := Counter(n + 1, Some(s.ttl))];
    OneWindow(full, n, [], key, s.ttl + 1, s.ttl + 1, a, a + s.ttl, s);
    hide Step, Hits;
  }

  // ------------------------------------------------------------ one window

  function After(counters: Counters, es: seq<Event>, s: Settings): Counters {
    if es == [] then counters else Step(After(counters, es[..|es| - 1], s), es[|es| - 1], s)
  }

  function HitsOn(es: seq<Event>, key: string): nat {
    if es == [] then 0
    else
      var e := es[|es| - 1];
      HitsOn(es[..|es| - 1], key) + if e.Hit? && e.key == key then 1 else 0
  }

  /** A window opens with the hit that finds no live counter; until it is as old as the ttl every hit on the
      key is numbered in order of arrival, whatever happens on other keys, so exactly the first `limit` of
      them are let through. */
  lemma {:induction false} WindowNumbersHits(counters: Counters, es: seq<Event>, key: string, k: nat, s: Settings)
    requires 1 <= k <= |es| && es[0].Hit? && es[0].key == key && !Visible(counters, key, es[0].at, s.inclusive)
    requires forall i | 0 <= i < |es| :: es[0].at <= es[i].at < es[0].at + s.ttl
    ensures var now := After(counters, es[..k], s);
            && key in now && now[key].hits == HitsOn(es[..k], key)
            && (now[key].deadline.Some? ==> now[key].deadline.value >= es[0].at + s.ttl)
    ensures k < |es| && es[k].Hit? && es[k].key == key ==>
              (Admitted(After(counters, es[..k], s), es[k], s) <==> es[k].answered && HitsOn(es[..k], key) < s.limit)
  {
    assert es[..k][..k - 1] == es[..k - 1] && es[..k][k - 1] == es[k - 1];
    if k == 1 {
      assert es[..1][..0] == [];
    } else {
      WindowNumbersHits(counters, es, key, k - 1, s);
    }
  }

  lemma {:induction false} WindowKeepsDeadline(counters: Counters, es: seq<Event>, key: string, k: nat, s: Settings)
    requires 1 <= k <= |es| && es[0].Hit? && es[0].key == key && !Visible(counters, key, es[0].at, s.inclusive)
    requires forall i | 0 <= i < |es| ::
               es[0].at <= es[i].at < es[0].at + s.ttl && (es[i].LoseTtl? ==> es[i].key != key)
    ensures var now := After(counters, es[..k], s); key in now && now[key].deadline == Some(es[0].at + s.ttl)
  {
    assert es[..k][..k - 1] == es[..k - 1] && es[..k][k - 1] == es[k - 1];
    if k == 1 {
      assert es[..1][..0] == [];
    } else {
      WindowKeepsDeadline(counters, es, key, k - 1, s);
    }
  }

  /** Whatever hits follow the one that opened a window, and whenever the next one after them comes: the script
      answers it with no time left, so that the fallback to a full window is taken, exactly if it comes at the
      instant the window ends and Redis still shows a key at that instant. */
  lemma NoTimeLeftIff(counters: Counters, es: seq<Event>, key: string, at: nat, s: Settings)
    requires s.ttl > 0
    requires es != [] && es[0].Hit? && es[0].key == key && !Visible(counters, key, es[0].at, s.inclusive)
    requires forall i | 0 <= i < |es| ::
               es[0].at <= es[i].at < es[0].at + s.ttl && (es[i].LoseTtl? ==> es[i].key != key)
    ensures Counted(After(counters, es, s), key, at, s.ttl, s.inclusive).deadline == Some(at)
            <==> s.inclusive && at == es[0].at + s.ttl
  {
    WindowKeepsDeadline(counters, es, key, |es|, s);
    assert es[..|es|] == es;
  }
}

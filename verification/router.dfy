/** `LlmRouter`: the first link of the chain that answers, peeked at once and always closed. */
module Router {
  import opened Text

  /** One provider as the router meets it: opening may throw; the stream gives its deltas and then ends, or
      throws. An error is the text it is described by. */
  datatype Link = Link(name: string, openError: Option<string>, deltas: seq<string>, failure: Option<string>)

  /** The first pull throws. */
  predicate LosesPeek(l: Link) {
    l.openError.None? && l.deltas == [] && l.failure.Some?
  }

  /** What one call on the generator gives its caller. */
  datatype Step = Value(text: string) | End | Thrown(error: string)

  datatype Phase = Fresh | Streaming(link: nat, pos: nat) | Over

  /** openings and closings list links in the order of the calls; given is everything yielded so far. */
  datatype Gen = Gen(links: seq<Link>, phase: Phase, chosen: Option<nat>, reason: string,
                     openings: seq<nat>, closings: seq<nat>, given: seq<string>)

  function ReasonFor(failures: seq<string>): string {
    if failures == [] then "primary" else "fallback: " + failures[|failures| - 1]
  }

  function Exhausted(failures: seq<string>): string {
    "every provider failed: " + Join(failures, " | ")
  }

  function FailureOf(l: Link): string {
    l.name + ": " + if l.failure.Some? then l.failure.value else []
  }

  // ------------------------------------------------------ one call at a time

  /** The loop over the links from i on, up to the first delta. */
  function Peek(g: Gen, i: nat, failures: seq<string>): (Gen, Step)
    decreases |g.links| - i
  {
    if i >= |g.links| then (g.(phase := Over, reason := Exhausted(failures)), Thrown(Exhausted(failures)))
    else
      var l := g.links[i];
      if l.openError.Some? then (g.(phase := Over), Thrown(l.openError.value))
      else
        var open := g.(openings := g.openings + [i]);
        if LosesPeek(l) then Peek(open.(closings := g.closings + [i]), i + 1, failures + [FailureOf(l)])
        else
          var won := open.(chosen := Some(i), reason := ReasonFor(failures));
          if l.deltas == [] then (won.(phase := Over, closings := g.closings + [i]), End)
          else (won.(phase := Streaming(i, 1), given := g.given + [l.deltas[0]]), Value(l.deltas[0]))
  }

  function Next(g: Gen): (Gen, Step) {
    match g.phase
    case Fresh => Peek(g, 0, [])
    case Over => (g, End)
    case Streaming(i, pos) =>
      if i >= |g.links| then (g, End)
      else
        var l := g.links[i];
        if pos < |l.deltas| then
          (g.(phase := Streaming(i, pos + 1), given := g.given + [l.deltas[pos]]), Value(l.deltas[pos]))
        else
          (g.(phase := Over, closings := g.closings + [i]), if l.failure.Some? then Thrown(l.failure.value) else End)
  }

  /** The caller stops: a generator that never started has opened nothing. */
  function Return(g: Gen): Gen {
    if g.phase.Streaming? then g.(phase := Over, closings := g.closings + [g.phase.link]) else g.(phase := Over)
  }

  datatype Call = NextCall | ReturnCall

  function After(links: seq<Link>, calls: seq<Call>): Gen {
    if calls == [] then Gen(links, Fresh, None, "not started", [], [], [])
    else
      var g := After(links, calls[..|calls| - 1]);
      if calls[|calls| - 1].NextCall? then Next(g).0 else Return(g)
  }

  // ----------------------------------------------------------- the class

  class Stream {
    const links: seq<Link>
    var phase: Phase
    var chosen: Option<nat>
    var reason: string
    var openings: seq<nat>
    var closings: seq<nat>
    var given: seq<string>

    ghost function State(): Gen
      reads this
    {
      Gen(links, phase, chosen, reason, openings, closings, given)
    }

    constructor (links: seq<Link>)
      ensures State() == After(links, [])
    {
      this.links := links;
      phase, chosen, reason, openings, closings, given := Fresh, None, "not started", [], [], [];
    }

    method CallNext() returns (r: Step)
      requires Inv(State())
      modifies this
      ensures (State(), r) == Next(old(State()))
    {
      match phase {
        case Fresh => r := Start();
        case Over => return End;
        case Streaming(i, pos) =>
          if pos < |links[i].deltas| {
            phase, given := Streaming(i, pos + 1), given + [links[i].deltas[pos]];
            return Value(links[i].deltas[pos]);
          }
          phase, closings := Over, closings + [i];
          return if links[i].failure.Some? then Thrown(links[i].failure.value) else End;
      }
    }

    method Start() returns (r: Step)
      modifies this
      ensures (State(), r) == Peek(old(State()), 0, [])
    {
      var failures: seq<string> := [];
      for i := 0 to |links|
        invariant Peek(State(), i, failures) == Peek(old(State()), 0, [])
      {
        if links[i].openError.Some? {
          phase := Over;
          return Thrown(links[i].openError.value);
        }
        openings := openings + [i];
        if links[i].deltas == [] && links[i].failure.Some? {
          failures := failures + [FailureOf(links[i])];
          closings := closings + [i];
          continue;
        }
        chosen, reason := Some(i), ReasonFor(failures);
        if links[i].deltas == [] {
          phase, closings := Over, closings + [i];
          return End;
        }
        phase, given := Streaming(i, 1), given + [links[i].deltas[0]];
        return Value(links[i].deltas[0]);
      }
      phase, reason := Over, Exhausted(failures);
      return Thrown(reason);
    }

    method CallReturn()
      modifies this
      ensures State() == Return(old(State()))
    {
      if phase.Streaming? {
        closings := closings + [phase.link];
      }
      phase := Over;
    }
  }

  // --------------------------------------------------------- the invariant

  function Upto(n: nat): seq<nat> {
    seq(n, i => i)
  }

  /** Every link before this one lost the peek. */
  predicate Reached(links: seq<Link>, c: nat) {
    c <= |links| && forall i | 0 <= i < c :: LosesPeek(links[i])
  }

  /** c is the first link in chain order whose first pull does not throw. */
  predicate FirstToAnswer(links: seq<Link>, c: nat) {
    Reached(links, c) && c < |links| && links[c].openError.None? && !LosesPeek(links[c])
  }

  function FailuresBefore(links: seq<Link>, c: nat): seq<string>
    requires c <= |links|
  {
    seq(c, i requires 0 <= i < c => FailureOf(links[i]))
  }

  predicate Inv(g: Gen) {
    && (g.phase.Fresh? ==> g == After(g.links, []))
    && (g.chosen.Some? ==>
          var c := g.chosen.value;
          && FirstToAnswer(g.links, c)
          && g.given <= g.links[c].deltas
          && g.openings == Upto(c + 1)
          && g.reason == ReasonFor(FailuresBefore(g.links, c)))
    && (g.chosen.None? ==> g.given == [] && !g.phase.Streaming? && g.openings == Upto(|g.openings|)
                           && Reached(g.links, |g.openings|)
                           && (g.reason == "not started" || g.reason == Exhausted(FailuresBefore(g.links, |g.links|))))
    && (g.phase.Streaming? ==>
          && g.chosen == Some(g.phase.link) && g.closings == Upto(g.phase.link)
          && |g.given| == g.phase.pos > 0)
    && (!g.phase.Streaming? ==> g.closings == g.openings)
  }

  lemma {:induction false} PeekKeepsInv(g: Gen, i: nat, failures: seq<string>)
    requires i <= |g.links| && Reached(g.links, i) && failures == FailuresBefore(g.links, i)
    requires g.phase.Fresh? && g.chosen.None? && g.given == [] && g.openings == g.closings == Upto(i)
    requires g.reason == "not started"
    ensures Inv(Peek(g, i, failures).0) && Peek(g, i, failures).0.links == g.links
    decreases |g.links| - i
  {
    if i < |g.links| && g.links[i].openError.None? {
      assert Upto(i + 1) == Upto(i) + [i];
      if LosesPeek(g.links[i]) {
        assert FailuresBefore(g.links, i + 1) == failures + [FailureOf(g.links[i])];
        PeekKeepsInv(g.(openings := g.openings + [i], closings := g.closings + [i]), i + 1, failures
            + [FailureOf(g.links[i])]);
      }
    }
  }

  lemma NextKeepsInv(g: Gen)
    requires Inv(g)
    ensures Inv(Next(g).0) && Next(g).0.links == g.links
  {
    if g.phase.Fresh? {
      PeekKeepsInv(g, 0, []);
    } else if g.phase.Streaming? {
      assert Upto(g.phase.link + 1) == Upto(g.phase.link) + [g.phase.link];
    }
    hide Peek;
  }

  lemma ReturnKeepsInv(g: Gen)
    requires Inv(g)
    ensures Inv(Return(g))
  {
    if g.phase.Streaming? {
      assert Upto(g.phase.link + 1) == Upto(g.phase.link) + [g.phase.link];
    }
  }

  lemma {:induction false} InvAlways(links: seq<Link>, calls: seq<Call>)
    ensures Inv(After(links, calls)) && After(links, calls).links == links
  {
    if calls == [] {
      return;
    }
    InvAlways(links, calls[..|calls| - 1]);
    NextKeepsInv(After(links, calls[..|calls| - 1]));
    ReturnKeepsInv(After(links, calls[..|calls| - 1]));
    hide Inv, Next;
  }

  // ------------------------------------------------------------- the runs

  /** What the caller received, call by call. */
  function Yielded(links: seq<Link>, calls: seq<Call>): seq<string> {
    if calls == [] then []
    else
      var before := calls[..|calls| - 1];
      var step := Next(After(links, before)).1;
      Yielded(links, before) + if calls[|calls| - 1].NextCall? && step.Value? then [step.text] else []
  }

  lemma {:induction false} PeekGives(g: Gen, i: nat, failures: seq<string>)
    ensures var (g', step) := Peek(g, i, failures);
            g'.given == g.given + if step.Value? then [step.text] else []
    decreases |g.links| - i
  {
    if i < |g.links| && g.links[i].openError.None? && LosesPeek(g.links[i]) {
      PeekGives(g.(openings := g.openings + [i], closings := g.closings + [i]), i + 1, failures
          + [FailureOf(g.links[i])]);
    }
  }

  lemma {:induction false} YieldedIsGiven(links: seq<Link>, calls: seq<Call>)
    ensures Yielded(links, calls) == After(links, calls).given
  {
    if calls == [] {
      return;
    }
    YieldedIsGiven(links, calls[..|calls| - 1]);
    var g := After(links, calls[..|calls| - 1]);
    PeekGives(g, 0, []);
    hide Peek;
  }

  lemma NotPrimary(failures: seq<string>)
    ensures ReasonFor(failures) == "primary" <==> failures == []
    ensures Exhausted(failures) != "primary"
  {
    assert Exhausted(failures)[0] == 'e';
    assert failures != [] ==> ReasonFor(failures)[0] == 'f';
  }

  lemma LastFailureIsNamed(links: seq<Link>, c: nat)
    requires 0 < c <= |links| && LosesPeek(links[c - 1])
    ensures ReasonFor(FailuresBefore(links, c)) == "fallback: " + links[c - 1].name + ": " + links[c - 1].failure.value
  {
    assert FailuresBefore(links, c)[c - 1] == FailureOf(links[c - 1]);
  }

  /** In every run of next and return calls: what the caller received is a prefix of one link's output, that of
      the first link in chain order whose first pull does not throw; links are opened in chain order, each at
      most once; once the generator is over every opened link has been closed exactly once; and the reason is
      "primary" exactly when the first link was chosen. */
  lemma NeverSplicesAlwaysCloses(links: seq<Link>, calls: seq<Call>)
    ensures var g := After(links, calls);
            && (g.chosen.Some? ==> FirstToAnswer(links, g.chosen.value)
                                   && Yielded(links, calls) <= links[g.chosen.value].deltas)
            && (g.chosen.None? ==> Yielded(links, calls) == [])
            && g.openings == Upto(|g.openings|) && |g.openings| <= |links|
            && (g.phase.Over? ==> g.closings == g.openings)
            && (g.phase.Streaming? ==> g.openings == g.closings + [g.phase.link])
            && (g.reason == "primary" <==> g.chosen == Some(0))
            && (g.chosen.Some? && g.chosen.value > 0 ==>
                  var lost := links[g.chosen.value - 1];
                  lost.failure.Some? && g.reason == "fallback: " + lost.name + ": " + lost.failure.value)
  {
    InvAlways(links, calls);
    YieldedIsGiven(links, calls);
    var g := After(links, calls);
    hide After, Yielded;
    if g.chosen.Some? {
      NotPrimary(FailuresBefore(links, g.chosen.value));
      assert |FailuresBefore(links, g.chosen.value)| == g.chosen.value;
      if g.chosen.value > 0 { LastFailureIsNamed(links, g.chosen.value); }
    } else {
      NotPrimary(FailuresBefore(links, |links|));
    }
  }

  /** Where the loop over the links ends when link c is the first not to lose the peek. */
  lemma {:induction false} PeekFinds(g: Gen, i: nat, failures: seq<string>, c: nat)
    requires i <= c <= |g.links| && Reached(g.links, c) && (c < |g.links| ==> !LosesPeek(g.links[c]))
    requires failures == FailuresBefore(g.links, i) && g.openings == g.closings == Upto(i)
    ensures var skipped := g.(openings := Upto(c), closings := Upto(c));
            Peek(g, i, failures) == Peek(skipped, c, FailuresBefore(g.links, c))
    decreases c - i
  {
    if i < c {
      assert LosesPeek(g.links[i]);
      assert Upto(i + 1) == Upto(i) + [i];
      assert FailuresBefore(g.links, i + 1) == failures + [FailureOf(g.links[i])];
      PeekFinds(g.(openings := g.openings + [i], closings := g.closings + [i]), i + 1, failures
          + [FailureOf(g.links[i])], c);
    }
  }

  function Nexts(n: nat): seq<Call> {
    seq(n, i => NextCall)
  }

  lemma NextsStep(links: seq<Link>, k: nat)
    ensures var (g, step) := Next(After(links, Nexts(k)));
            && After(links, Nexts(k + 1)) == g
            && Yielded(links, Nexts(k + 1)) == Yielded(links, Nexts(k)) + if step.Value? then [step.text] else []
  {
    assert Nexts(k + 1)[..k] == Nexts(k);
    hide Next;
  }

  lemma FirstPull(links: seq<Link>, c: nat)
    requires FirstToAnswer(links, c)
    ensures var (g, step) := Next(After(links, Nexts(0)));
            && g.chosen == Some(c) && g.links == links
            && (links[c].deltas != [] ==> step == Value(links[c].deltas[0]) && g.phase == Streaming(c, 1))
            && (links[c].deltas == [] ==> step == End && g.phase.Over?)
  {
    assert Nexts(0) == [] && FailuresBefore(links, 0) == [] && Upto(0) == [];
    PeekFinds(After(links, []), 0, [], c);
  }

  /** A caller that keeps pulling gets the whole answer of the first link that answers, the peeked delta once,
      and then that link's own ending: a failure after the first delta is passed on, never retried. */
  lemma {:induction false} WholeAnswer(links: seq<Link>, c: nat, k: nat)
    requires FirstToAnswer(links, c) && k <= |links[c].deltas|
    ensures Yielded(links, Nexts(k)) == links[c].deltas[..k]
    ensures k > 0 ==> After(links, Nexts(k)).phase == Streaming(c, k)
    ensures k == |links[c].deltas| ==>
              var (g, step) := Next(After(links, Nexts(k)));
              && step == (if links[c].failure.Some? then Thrown(links[c].failure.value) else End)
              && g.phase.Over? && g.chosen == Some(c)
  {
    hide Yielded, After, Peek, Next, Inv, Reached, LosesPeek, Nexts;
    if k == 0 {
      FirstPull(links, c);
      NothingYet(links);
      PulledAt(links, c, 0);
    } else {
      WholeAnswer(links, c, k - 1);
      NextsStep(links, k - 1);
      PulledAt(links, c, k - 1);
      PulledAt(links, c, k);
      TakeOneMore(links[c].deltas, k - 1);
    }
  }

  lemma TakeOneMore<T>(s: seq<T>, k: nat)
    requires k < |s|
    ensures s[..k + 1] == s[..k] + [s[k]]
  {
  }

  /** What the next pull gives, before the first one and while streaming. */
  lemma PulledAt(links: seq<Link>, c: nat, k: nat)
    requires FirstToAnswer(links, c) && k <= |links[c].deltas|
    requires k > 0 ==> After(links, Nexts(k)).phase == Streaming(c, k)
    ensures var (g, step) := Next(After(links, Nexts(k)));
            && (k < |links[c].deltas| ==> step == Value(links[c].deltas[k]) && g.phase == Streaming(c, k + 1))
            && (k == |links[c].deltas| ==>
                  && step == (if links[c].failure.Some? then Thrown(links[c].failure.value) else End)
                  && g.phase.Over? && g.chosen == Some(c))
  {
    hide After, Peek;
    if k == 0 { FirstPull(links, c); }
    InvAlways(links, Nexts(k));
  }

  lemma NothingYet(links: seq<Link>)
    ensures Yielded(links, Nexts(0)) == []
  {
  }

  /** When every link loses the peek the caller gets one error naming them all, and every link was closed. */
  lemma EveryProviderFailed(links: seq<Link>)
    requires Reached(links, |links|)
    ensures var (g, step) := Next(After(links, []));
            && step == Thrown("every provider failed: " + Join(FailuresBefore(links, |links|), " | "))
            && g.chosen.None? && g.closings == g.openings == Upto(|links|)
    ensures forall i | 0 <= i < |links| ::
              && links[i].failure.Some?
              && FailuresBefore(links, |links|)[i] == links[i].name + ": " + links[i].failure.value
  {
    assert FailuresBefore(links, 0) == [] && Upto(0) == [];
    PeekFinds(After(links, []), 0, [], |links|);
    assert forall i | 0 <= i < |links| :: LosesPeek(links[i]);
  }

  /** When opening a link throws, that very error reaches the caller: no later link is opened, and every one opened
      before was closed. */
  lemma OpeningThrows(links: seq<Link>, c: nat)
    requires Reached(links, c) && c < |links| && links[c].openError.Some?
    ensures var (g, step) := Next(After(links, []));
            && step == Thrown(links[c].openError.value) && g.phase.Over?
            && g.chosen.None? && g.closings == g.openings == Upto(c) && g.given == []
  {
    assert FailuresBefore(links, 0) == [] && Upto(0) == [];
    PeekFinds(After(links, []), 0, [], c);
  }

  /** Once it is over, by its end, an error or a return, nothing more is opened, closed or given, whatever is called. */
  lemma {:induction false} OverStaysOver(links: seq<Link>, calls: seq<Call>, more: seq<Call>)
    requires After(links, calls).phase.Over?
    ensures After(links, calls + more) == After(links, calls) && Yielded(links, calls + more) == Yielded(links, calls)
  {
    if more == [] {
      assert calls + more == calls;
    } else {
      var n := |more| - 1;
      assert (calls + more)[..|calls + more| - 1] == calls + more[..n];
      OverStaysOver(links, calls, more[..n]);
    }
  }

  /** A return ends it, and gives nothing. */
  lemma ReturnEnds(links: seq<Link>, calls: seq<Call>)
    ensures After(links, calls + [ReturnCall]).phase.Over?
    ensures Yielded(links, calls + [ReturnCall]) == Yielded(links, calls)
  {
    assert (calls + [ReturnCall])[..|calls|] == calls;
  }

  // ------------------------------------------------- the non-streaming way

  /** What each link's completion call comes to. */
  datatype Completing = Completing(name: string, result: Result<string, string>)

  function ErrorOf(c: Completing): string {
    c.name + ": " + if c.result.Err? then c.result.error else []
  }

  function ErrorsOf(cs: seq<Completing>): seq<string> {
    seq(|cs|, i requires 0 <= i < |cs| => ErrorOf(cs[i]))
  }

  /** The answer of the first link that gives one, and why it was that one; or all the errors. */
  method Complete(links: seq<Completing>) returns (r: Result<(string, string), string>)
    ensures r.Ok? <==> exists i :: 0 <= i < |links| && links[i].result.Ok?
    ensures r.Ok? ==> exists i: nat :: i < |links| && links[i].result == Ok(r.value.0)
                        && (forall j | 0 <= j < i :: links[j].result.Err?)
                        && (i == 0 ==> r.value.1 == "primary")
                        && (i > 0 ==> r.value.1 == "fallback: " + links[i - 1].name + ": " + links[i - 1].result.error)
    ensures r.Err? ==> r.error == "every provider failed: " + Join(ErrorsOf(links), " | ")
    ensures r.Err? ==> forall i | 0 <= i < |links| :: ErrorsOf(links)[i] == links[i].name + ": " + links[i].result.error
  {
    var failures: seq<string> := [];
    for i := 0 to |links|
      invariant failures == ErrorsOf(links[..i])
      invariant forall j | 0 <= j < i :: links[j].result.Err?
    {
      if links[i].result.Ok? {
        assert i > 0 ==> failures[i - 1] == ErrorOf(links[i - 1]);
        return Ok((links[i].result.value, ReasonFor(failures)));
      }
      failures := failures + [ErrorOf(links[i])];
    }
    assert links[..|links|] == links;
    return Err(Exhausted(failures));
  }
}

/** `cache.keys.ts`: what makes two answers share a cache entry. sha256 is a parameter. */
module CacheKeys {
  import opened Text
  import opened LlmChain

  type Hash = string -> string

  /** What is asked of sha256 in hex: no collision among the inputs that occur, and no colon. */
  ghost predicate IsHash(sha: Hash) {
    && (forall a: string, b: string :: sha(a) == sha(b) ==> a == b)
    && (forall a: string :: ':' !in sha(a))
  }

  // ------------------------------------------------------------ questions

  /** `replace(/\s+/g, ' ')`. */
  function Collapse(s: string): string
    decreases |s|
  {
    TrimStartShrinks(s);
    if s == [] then []
    else if IsWhite(s[0]) then " " + Collapse(TrimStart(s))
    else [s[0]] + Collapse(s[1..])
  }

  function NormaliseQuestion(question: string): string {
    Collapse(Trim(question))
  }

  /** The characters up to the first white one. */
  function FirstWord(s: string): (w: string)
    ensures w <= s && (forall i | 0 <= i < |w| :: !IsWhite(w[i]))
    ensures |w| < |s| ==> IsWhite(s[|w|])
  {
    if s == [] || IsWhite(s[0]) then [] else [s[0]] + FirstWord(s[1..])
  }

  /** What a reader sees: the maximal runs of characters that are not white. */
  function Words(s: string): seq<string>
    decreases |s|
  {
    TrimStartShrinks(s);
    var t := TrimStart(s);
    if t == [] then [] else [FirstWord(t)] + Words(t[|FirstWord(t)|..])
  }

  predicate IsWord(w: string) {
    w != [] && forall i | 0 <= i < |w| :: !IsWhite(w[i])
  }

  lemma {:induction false} WordsAreWords(s: string)
    ensures forall i | 0 <= i < |Words(s)| :: IsWord(Words(s)[i])
    decreases |s|
  {
    TrimStartShrinks(s);
    var t := TrimStart(s);
    if t != [] {
      WordsAreWords(t[|FirstWord(t)|..]);
    }
  }

  lemma {:induction false} CollapseWord(w: string, rest: string)
    requires forall i | 0 <= i < |w| :: !IsWhite(w[i])
    ensures Collapse(w + rest) == w + Collapse(rest)
  {
    if w == [] {
      assert w + rest == rest;
    } else {
      assert (w + rest)[1..] == w[1..] + rest;
      CollapseWord(w[1..], rest);
    }
  }

  predicate EndsOnWord(s: string) {
    s != [] ==> !IsWhite(s[|s| - 1])
  }

  lemma {:induction false} TrimStartSuffix(s: string)
    ensures EndsOnWord(s) && s != [] ==> TrimStart(s) != [] && EndsOnWord(TrimStart(s))
  {
    var k := TrimStartShape(s);
  }

  /** On a text that neither starts nor ends with white space. */
  lemma {:induction false} CollapseIsWords(s: string)
    requires EndsOnWord(s) && (s != [] ==> !IsWhite(s[0]))
    ensures Collapse(s) == Join(Words(s), " ")
    decreases |s|
  {
    hide Collapse, Words, EndsOnWord, Join;
    WordsParts(s);
    if s == [] {
      NothingToCollapse();
    } else {
      var w := FirstWord(s);
      var rest := s[|w|..];
      assert s == w + rest;
      CollapseWord(w, rest);
      if rest == [] {
        NothingToCollapse();
        JoinOne(w);
        assert [w] + [] == [w] && w + [] == w;
      } else {
        assert rest[0] == s[|w|];
        TrimStartShrinks(rest);
        EndStays(s, |w|);
        TrimStartSuffix(rest);
        var next := TrimStart(rest);
        CollapseIsWords(next);
        CollapseWhite(rest);
        WordsSkipWhite(rest);
        WordsParts(next);
        JoinMore(w, Words(rest));
      }
    }
  }

  lemma NothingToCollapse()
    ensures Collapse([]) == [] && Words([]) == [] && Join([], " ") == []
  {
  }

  lemma JoinOne(w: string)
    ensures Join([w], " ") == w
  {
  }

  lemma JoinMore(w: string, ws: seq<string>)
    requires ws != []
    ensures Join([w] + ws, " ") == w + " " + Join(ws, " ")
  {
    assert ([w] + ws)[1..] == ws;
  }

  lemma CollapseWhite(s: string)
    requires s != [] && IsWhite(s[0])
    ensures Collapse(s) == " " + Collapse(TrimStart(s))
  {
  }

  lemma WordsParts(s: string)
    requires s != [] ==> !IsWhite(s[0])
    ensures s != [] ==> Words(s) == [FirstWord(s)] + Words(s[|FirstWord(s)|..])
  {
  }

  lemma EndStays(s: string, k: nat)
    requires EndsOnWord(s) && k <= |s|
    ensures EndsOnWord(s[k..])
  {
  }

  lemma {:induction false} TrimStartTwice(s: string)
    ensures TrimStart(TrimStart(s)) == TrimStart(s)
  {
    TrimStartShrinks(s);
  }

  lemma WordsSkipWhite(s: string)
    ensures Words(TrimStart(s)) == Words(s)
  {
    TrimStartTwice(s);
  }

  lemma {:induction false} TrimStartSnoc(s: string, c: char)
    requires IsWhite(c)
    ensures TrimStart(s + [c]) == if TrimStart(s) == [] then [] else TrimStart(s) + [c]
  {
    if s == [] {
      assert s + [c] == [c] && [c][1..] == [];
    } else if IsWhite(s[0]) {
      assert (s + [c])[1..] == s[1..] + [c];
      TrimStartSnoc(s[1..], c);
    }
  }

  lemma {:induction false} FirstWordSnoc(s: string, c: char)
    requires IsWhite(c)
    ensures FirstWord(s + [c]) == FirstWord(s)
  {
    if s == [] {
      assert s + [c] == [c];
    } else if !IsWhite(s[0]) {
      assert (s + [c])[1..] == s[1..] + [c];
      FirstWordSnoc(s[1..], c);
    }
  }

  lemma {:induction false} WordsSnoc(s: string, c: char)
    requires IsWhite(c)
    ensures Words(s + [c]) == Words(s)
    decreases |s|
  {
    TrimStartShrinks(s);
    TrimStartSnoc(s, c);
    var t := TrimStart(s);
    if t != [] {
      FirstWordSnoc(t, c);
      var w := FirstWord(t);
      assert (t + [c])[|w|..] == t[|w|..] + [c];
      WordsSnoc(t[|w|..], c);
    }
  }

  lemma {:induction false} WordsTrimEnd(s: string)
    ensures Words(TrimEnd(s)) == Words(s)
  {
    if s != [] && IsWhite(s[|s| - 1]) {
      WordsTrimEnd(s[..|s| - 1]);
      WordsSnoc(s[..|s| - 1], s[|s| - 1]);
      assert s[..|s| - 1] + [s[|s| - 1]] == s;
    }
  }

  /** Normalising keeps the words and puts one space between them. */
  lemma NormalisedWords(question: string)
    ensures NormaliseQuestion(question) == Join(Words(question), " ")
  {
    var lo, hi := TrimShape(question);
    CollapseIsWords(Trim(question));
    WordsTrimEnd(TrimStart(question));
    WordsSkipWhite(question);
  }

  lemma {:induction false} JoinOfWords(a: seq<string>, b: seq<string>)
    requires forall i | 0 <= i < |a| :: IsWord(a[i])
    requires forall i | 0 <= i < |b| :: IsWord(b[i])
    ensures Join(a, " ") == Join(b, " ") <==> a == b
  {
    if Join(a, " ") == Join(b, " ") {
      if a != [] { SplitJoin(a, ' '); JoinNotEmpty(a); }
      if b != [] { SplitJoin(b, ' '); JoinNotEmpty(b); }
    }
  }

  lemma {:induction false} JoinNotEmpty(a: seq<string>)
    requires a != [] && IsWord(a[0])
    ensures Join(a, " ") != []
  {
  }

  /** Two questions are the same to the cache exactly when they read the same: same words, same order, same
      case, however spaced. */
  lemma SameQuestionIff(a: string, b: string)
    ensures NormaliseQuestion(a) == NormaliseQuestion(b) <==> Words(a) == Words(b)
  {
    NormalisedWords(a);
    NormalisedWords(b);
    WordsAreWords(a);
    WordsAreWords(b);
    JoinOfWords(Words(a), Words(b));
  }

  // ----------------------------------------------------------------- keys

  function QuestionHash(sha: Hash, question: string): string {
    sha(NormaliseQuestion(question))
  }

  function AnswerKey(sha: Hash, version: string, question: string, fingerprint: string): string {
    "ans:" + version + ":" + fingerprint + ":" + QuestionHash(sha, question)
  }

  lemma LastColon(a: string, s: string, b: string, t: string)
    requires a + ":" + s == b + ":" + t && ':' !in s && ':' !in t
    ensures a == b && s == t
  {
    var x, y := a + ":" + s, b + ":" + t;
    assert x[|a|] == ':' && y[|b|] == ':';
    assert forall i | |a| < i < |x| :: x[i] == s[i - |a| - 1] != ':';
    assert forall i | |b| < i < |y| :: y[i] == t[i - |b| - 1] != ':';
    assert |a| == |b|;
    assert a == x[..|a|] && b == y[..|b|];
    assert s == x[|a| + 1..] && t == y[|b| + 1..];
  }

  /** The version is carried in the clear and may hold colons of its own; the key still says all three. */
  lemma AnswerKeyIff(sha: Hash, v: string, q: string, f: string, v': string, q': string, f': string)
    requires IsHash(sha) && ':' !in f && ':' !in f'
    ensures AnswerKey(sha, v, q, f) == AnswerKey(sha, v', q', f')
       <==> v == v' && f == f' && NormaliseQuestion(q) == NormaliseQuestion(q')
  {
    if AnswerKey(sha, v, q, f) == AnswerKey(sha, v', q', f') {
      LastColon("ans:" + v + ":" + f, QuestionHash(sha, q), "ans:" + v' + ":" + f', QuestionHash(sha, q'));
      LastColon("ans:" + v, f, "ans:" + v', f');
      assert v == ("ans:" + v)[4..] && v' == ("ans:" + v')[4..];
    }
  }

  // ---------------------------------------------------- the configuration

  /** A JavaScript number; every finite one is a whole multiple of 2^-1074. */
  datatype Number = NaN | Infinite(positive: bool) | Finite(units: int)

  /** `a <= b`: false as soon as either is NaN. */
  predicate AtMost(a: Number, b: Number) {
    !a.NaN? && !b.NaN? && (a == b || a == Infinite(false) || b == Infinite(true)
                           || (a.Finite? && b.Finite? && a.units <= b.units))
  }

  datatype AnsweringConfig =
    AnsweringConfig(llmChain: string, groundingMaxDistance: Number, embeddingModel: string)

  /** What is asked of a number's rendering. */
  ghost predicate ShowsDistinctly(show: Number -> string) {
    && (forall a: Number, b: Number :: show(a) == show(b) ==> a == b)
    && (forall a: Number :: ':' !in show(a))
  }

  function ConfigText(c: AnsweringConfig, show: Number -> string): string {
    c.llmChain + ":" + show(c.groundingMaxDistance) + ":" + c.embeddingModel
  }

  function AnsweringConfigFingerprint(sha: Hash, show: Number -> string, c: AnsweringConfig): string {
    sha(ConfigText(c, show))
  }

  // ---------------------------------- which configurations share a fingerprint

  /** Some number is rendered as this text. */
  ghost predicate IsNumber(show: Number -> string, text: string) {
    exists n: Number :: show(n) == text
  }

  /** No segment of the chain after its first colon, and none of the embedding model before its last, is a
      rendered number. */
  ghost predicate Unambiguous(show: Number -> string, c: AnsweringConfig) {
    var chain, model := Split(c.llmChain, ':'), Split(c.embeddingModel, ':');
    && (forall i | 0 < i < |chain| :: !IsNumber(show, chain[i]))
    && (forall i | 0 <= i < |model| - 1 :: !IsNumber(show, model[i]))
  }

  /** The segments of the text that is hashed. */
  function Segments(c: AnsweringConfig, show: Number -> string): seq<string> {
    Split(c.llmChain, ':') + [show(c.groundingMaxDistance)] + Split(c.embeddingModel, ':')
  }

  lemma SegmentsOfText(c: AnsweringConfig, show: Number -> string)
    requires ShowsDistinctly(show)
    ensures Split(ConfigText(c, show), ':') == Segments(c, show)
  {
    var number := show(c.groundingMaxDistance);
    SplitOfOne(number, ':');
    SplitAt(number, ':', c.embeddingModel);
    SplitAt(c.llmChain, ':', number + ":" + c.embeddingModel);
    assert ConfigText(c, show) == c.llmChain + ":" + (number + ":" + c.embeddingModel);
  }

  /** Two configurations with the same text differ only in where the number is found. */
  lemma SameTextSamePlace(c: AnsweringConfig, d: AnsweringConfig, show: Number -> string)
    requires ShowsDistinctly(show) && Segments(c, show) == Segments(d, show)
    requires |Split(c.llmChain, ':')| == |Split(d.llmChain, ':')|
    ensures c == d
  {
    var n, s, t := |Split(c.llmChain, ':')|, Segments(c, show), Segments(d, show);
    assert s[..n] == Split(c.llmChain, ':') && t[..n] == Split(d.llmChain, ':');
    assert s[n] == show(c.groundingMaxDistance) && t[n] == show(d.groundingMaxDistance);
    assert s[n + 1..] == Split(c.embeddingModel, ':') && t[n + 1..] == Split(d.embeddingModel, ':');
    JoinSplit(c.llmChain, ':');
    JoinSplit(d.llmChain, ':');
    JoinSplit(c.embeddingModel, ':');
    JoinSplit(d.embeddingModel, ':');
  }

  /** A number elsewhere makes another configuration with the same text. */
  lemma OtherReading(c: AnsweringConfig, show: Number -> string, i: nat, n: Number) returns (d: AnsweringConfig)
    requires ShowsDistinctly(show)
    requires 0 < i < |Segments(c, show)| - 1 && Segments(c, show)[i] == show(n)
    ensures ConfigText(d, show) == ConfigText(c, show) && |Split(d.llmChain, ':')| == i
  {
    var s := Segments(c, show);
    SegmentsOfText(c, show);
    SegmentsHaveNoColon(c, show);
    d := AnsweringConfig(Join(s[..i], ":"), n, Join(s[i + 1..], ":"));
    hide ConfigText, Join, Split, ShowsDistinctly;
    SplitJoin(s[..i], ':');
    SplitJoin(s[i + 1..], ':');
    SegmentsOfText(d, show);
    Reassembled(s, i);
    hide Segments;
    JoinSplit(ConfigText(c, show), ':');
    JoinSplit(ConfigText(d, show), ':');
  }

  lemma SegmentsHaveNoColon(c: AnsweringConfig, show: Number -> string)
    requires ShowsDistinctly(show)
    ensures forall k | 0 <= k < |Segments(c, show)| :: ':' !in Segments(c, show)[k]
  {
  }

  lemma Reassembled<T>(s: seq<T>, i: nat)
    requires i < |s|
    ensures s[..i] + [s[i]] + s[i + 1..] == s
  {
  }

  /** The number is found in one place only, exactly if nothing else could be taken for it. */
  lemma UnambiguousIff(c: AnsweringConfig, show: Number -> string)
    ensures Unambiguous(show, c) <==>
            forall i | 0 < i < |Segments(c, show)| - 1 && i != |Split(c.llmChain, ':')| ::
              !IsNumber(show, Segments(c, show)[i])
  {
    var chain, model, s := Split(c.llmChain, ':'), Split(c.embeddingModel, ':'), Segments(c, show);
    assert forall i | 0 <= i < |chain| :: s[i] == chain[i];
    assert forall i | 0 <= i < |model| :: s[|chain| + 1 + i] == model[i];
    hide IsNumber, Segments, Split;
  }

  lemma OnlyOneReading(c: AnsweringConfig, d: AnsweringConfig, show: Number -> string)
    requires ShowsDistinctly(show) && Unambiguous(show, c) && ConfigText(c, show) == ConfigText(d, show)
    ensures c == d
  {
    SegmentsOfText(c, show);
    SegmentsOfText(d, show);
    UnambiguousIff(c, show);
    var i := |Split(d.llmChain, ':')|;
    assert Segments(d, show)[i] == show(d.groundingMaxDistance);
    assert IsNumber(show, Segments(c, show)[i]);
    hide Unambiguous, ConfigText;
    SameTextSamePlace(c, d, show);
  }

  /** A configuration shares its fingerprint with no other if and only if no segment of its chain after the
      first colon, and no segment of its embedding model before the last, is a rendered number. */
  lemma FingerprintIff(sha: Hash, show: Number -> string, c: AnsweringConfig)
    requires IsHash(sha) && ShowsDistinctly(show)
    ensures Unambiguous(show, c) <==>
            forall d: AnsweringConfig ::
              AnsweringConfigFingerprint(sha, show, c) == AnsweringConfigFingerprint(sha, show, d) ==> c == d
  {
    if Unambiguous(show, c) {
      forall d: AnsweringConfig | AnsweringConfigFingerprint(sha, show, c) == AnsweringConfigFingerprint(sha, show, d)
        ensures c == d
      {
        OnlyOneReading(c, d, show);
      }
    } else {
      UnambiguousIff(c, show);
      var s := Segments(c, show);
      var i :| 0 < i < |s| - 1 && i != |Split(c.llmChain, ':')| && IsNumber(show, s[i]);
      var n: Number :| show(n) == s[i];
      var d := OtherReading(c, show, i, n);
      assert AnsweringConfigFingerprint(sha, show, c) == AnsweringConfigFingerprint(sha, show, d);
    }
  }

  lemma TextsCollide(show: Number -> string, chain: string, a: Number, b: Number, model: string)
    ensures var c := AnsweringConfig(chain + ":" + show(a), b, model);
            var d := AnsweringConfig(chain, a, show(b) + ":" + model);
            c != d && ConfigText(c, show) == ConfigText(d, show)
  {
    assert |chain + ":" + show(a)| > |chain|;
  }

  /** Two configurations that share a fingerprint and may differ in all three parts. Both chains are accepted
      at boot: a model may be called "gpt:0.5". */
  lemma AcceptedChainsCollide(sha: Hash, show: Number -> string, half: Number, distance: Number, model: string)
    requires show(half) == "0.5"
    ensures var c := AnsweringConfig("openai:gpt:0.5", distance, model);
            var d := AnsweringConfig("openai:gpt", half, show(distance) + ":" + model);
            && Parse(c.llmChain) == Ok([ChainLink("openai", "gpt:0.5")])
            && Parse(d.llmChain) == Ok([ChainLink("openai", "gpt")])
            && c != d && AnsweringConfigFingerprint(sha, show, c) == AnsweringConfigFingerprint(sha, show, d)
  {
    hide Parse, ConfigText;
    OneLinkParses("gpt:0.5");
    OneLinkParses("gpt");
    TextsCollide(show, "openai:gpt", half, distance, model);
    assert "openai:gpt" + ":" + "0.5" == "openai:gpt:0.5";
    assert "openai:" + "gpt:0.5" == "openai:gpt:0.5" && "openai:" + "gpt" == "openai:gpt";
  }

  lemma OneLinkParses(model: string)
    requires model != "" && !IsWhite(model[0]) && !IsWhite(model[|model| - 1]) && ',' !in model
    ensures Parse("openai:" + model) == Ok([ChainLink("openai", model)])
  {
    var link := ChainLink("openai", model);
    TrimUnique([], model, []);
    assert [] + model + [] == model;
    assert "openai" + ":" + model == "openai:" + model;
    assert Shown([link])[0] == Pair(link);
    hide Parse, Trim;
    RoundTrip([link]);
  }
}

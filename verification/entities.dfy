/** `decodeEntities`: seven replacements one after another, and what they come to on a text. */
module Entities {
  import opened Text
  import opened Placeholders
  import opened Patterns
  import opened HtmlCell

  /** The entities in the order they are replaced, each with its character. */
  function Entity(k: nat): (string, char)
    requires k < 7
  {
    if k == 0 then ("&#123;", '{')
    else if k == 1 then ("&#125;", '}')
    else if k == 2 then ("&#124;", '|')
    else if k == 3 then ("&lt;", '<')
    else if k == 4 then ("&gt;", '>')
    else if k == 5 then ("&amp;", '&')
    else ("&quot;", '"')
  }

  /** One replacement. */
  function Pass(s: string, e: (string, char)): string {
    Rewrite(s, Put(Exactly(e.0), [e.1]))
  }

  /** The first k of them. */
  function Passes(s: string, k: nat): string
    requires k <= 7
  {
    if k == 0 then s else Pass(Passes(s, k - 1), Entity(k - 1))
  }

  lemma DecodeIsPasses(s: string)
    ensures DecodeEntities(s) == Passes(s, 7)
  {
    hide Rewrite, Put, Exactly;
    PassesNext(s, 0);
    PassesNext(s, 1);
    PassesNext(s, 2);
    PassesNext(s, 3);
    PassesNext(s, 4);
    PassesNext(s, 5);
    PassesNext(s, 6);
  }

  lemma PassesNext(s: string, k: nat)
    requires k < 7
    ensures Passes(s, 0) == s && Passes(s, k + 1) == Pass(Passes(s, k), Entity(k))
  {
    hide Pass;
  }

  /** An ampersand, and then a tail without one. */
  predicate IsEntity(e: (string, char)) {
    |e.0| > 1 && e.0[0] == '&' && '&' !in e.0[1..]
  }

  lemma TheyAreEntities(k: nat)
    requires k < 7
    ensures IsEntity(Entity(k))
  {
  }

  lemma PassStarts(e: (string, char))
    requires IsEntity(e)
    ensures RewritesFrom(Put(Exactly(e.0), [e.1]), '&')
  {
  }

  lemma PassSkips(a: string, b: string, e: (string, char))
    requires IsEntity(e) && '&' !in a
    ensures Pass(a + b, e) == a + Pass(b, e)
  {
    hide Rewrite, RewritesFrom;
    PassStarts(e);
    RewriteSkips(a, b, Put(Exactly(e.0), [e.1]), '&');
  }

  lemma PassDecodes(b: string, e: (string, char))
    requires IsEntity(e)
    ensures Pass(e.0 + b, e) == [e.1] + Pass(b, e)
  {
    hide Rewrite;
    PutAtFront(e.0, b, Exactly(e.0), [e.1]);
  }

  lemma PassLeaves(b: string, e: (string, char))
    requires IsEntity(e) && !(e.0 <= "&" + b)
    ensures Pass("&" + b, e) == "&" + Pass(b, e)
  {
    hide Rewrite;
    assert "&"[0..] + b == "&" + b;
    RewritePasses("&", b, Put(Exactly(e.0), [e.1]));
  }

  lemma PassNothing(e: (string, char))
    ensures Pass([], e) == []
  {
  }

  /** A start that holds neither an ampersand nor the character put in stands after the pass exactly if it did
      before. */
  lemma {:induction false} TailKept(t: string, b: string, e: (string, char))
    requires IsEntity(e) && '&' !in t && e.1 !in t
    ensures t <= Pass(b, e) <==> t <= b
    decreases |t|
  {
    hide Pass;
    if t == [] {
      return;
    }
    if b == [] {
      PassNothing(e);
    } else if b[0] != '&' {
      assert b == [b[0]] + b[1..];
      PassSkips([b[0]], b[1..], e);
      TailKept(t[1..], b[1..], e);
      ConsPrefix(t, b[0], b[1..]);
      ConsPrefix(t, b[0], Pass(b[1..], e));
    } else if e.0 <= b {
      assert b == e.0 + b[|e.0|..];
      PassDecodes(b[|e.0|..], e);
      ConsPrefix(t, '&', b[1..]);
      ConsPrefix(t, e.1, Pass(b[|e.0|..], e));
    } else {
      assert b == "&" + b[1..];
      PassLeaves(b[1..], e);
      ConsPrefix(t, '&', b[1..]);
      ConsPrefix(t, '&', Pass(b[1..], e));
    }
  }

  lemma ConsPrefix(t: string, c: char, rest: string)
    requires t != []
    ensures t <= [c] + rest <==> t[0] == c && t[1..] <= rest
  {
    if t[0] == c && t[1..] <= rest {
      assert forall i | 0 < i < |t| :: t[i] == t[1..][i - 1] == rest[i - 1];
    }
    if t <= [c] + rest {
      assert ([c] + rest)[1..] == rest;
    }
  }

  predicate NoneAtFront(s: string) {
    forall k | 0 <= k < 7 :: !(Entity(k).0 <= s)
  }

  lemma {:induction false} TailKeptByAll(t: string, b: string, k: nat)
    requires k <= 7 && '&' !in t && forall j | 0 <= j < 7 :: Entity(j).1 !in t
    ensures t <= Passes(b, k) <==> t <= b
  {
    hide Pass;
    if k > 0 {
      TailKeptByAll(t, b, k - 1);
      TheyAreEntities(k - 1);
      TailKept(t, Passes(b, k - 1), Entity(k - 1));
    }
  }

  lemma TailOf(j: nat)
    requires j < 7
    ensures var t := Entity(j).0[1..]; '&' !in t && forall i | 0 <= i < 7 :: Entity(i).1 !in t
  {
  }

  lemma AmpAndTail(j: nat, x: string)
    requires j < 7
    ensures Entity(j).0 <= "&" + x <==> Entity(j).0[1..] <= x
  {
    TheyAreEntities(j);
    ConsPrefix(Entity(j).0, '&', x);
  }

  lemma {:induction false} StrayPasses(b: string, k: nat)
    requires k <= 7 && NoneAtFront("&" + b)
    ensures Passes("&" + b, k) == "&" + Passes(b, k)
  {
    hide Pass, Entity;
    if k > 0 {
      StrayPasses(b, k - 1);
      TheyAreEntities(k - 1);
      TailOf(k - 1);
      TailKeptByAll(Entity(k - 1).0[1..], b, k - 1);
      AmpAndTail(k - 1, b);
      AmpAndTail(k - 1, Passes(b, k - 1));
      PassLeaves(Passes(b, k - 1), Entity(k - 1));
    }
  }

  lemma {:induction false} SkipPasses(a: string, b: string, k: nat)
    requires k <= 7 && '&' !in a
    ensures Passes(a + b, k) == a + Passes(b, k)
  {
    hide Pass, Entity;
    if k > 0 {
      SkipPasses(a, b, k - 1);
      TheyAreEntities(k - 1);
      PassSkips(a, Passes(b, k - 1), Entity(k - 1));
    }
  }

  lemma Differ(j: nat, k: nat, x: string)
    requires j < 7 && k < 7 && j != k
    ensures !(Entity(j).0 <= Entity(k).0 + x)
  {
    var p, q := Entity(j).0, Entity(k).0;
    assert (q + x)[1] == q[1] && (|q| > 4 ==> (q + x)[4] == q[4]);
    if p <= q + x { SamePlaces(p, q + x); }
  }

  lemma SamePlaces(p: string, s: string)
    requires p <= s
    ensures (|p| > 1 ==> p[1] == s[1]) && (|p| > 4 ==> p[4] == s[4])
  {
  }

  lemma OtherPass(j: nat, k: nat, x: string)
    requires j < 7 && k < 7 && j != k
    ensures Pass(Entity(k).0 + x, Entity(j)) == Entity(k).0 + Pass(x, Entity(j))
  {
    hide Pass, Entity;
    var q := Entity(k).0;
    TheyAreEntities(k);
    TheyAreEntities(j);
    var t := q[1..];
    assert q + x == "&" + (t + x) && q + Pass(x, Entity(j)) == "&" + (t + Pass(x, Entity(j)));
    Differ(j, k, x);
    PassLeaves(t + x, Entity(j));
    PassSkips(t, x, Entity(j));
  }

  lemma {:induction false} BeforeItsPass(e: nat, b: string, k: nat)
    requires k <= e < 7
    ensures Passes(Entity(e).0 + b, k) == Entity(e).0 + Passes(b, k)
  {
    hide Pass, Entity;
    if k > 0 {
      BeforeItsPass(e, b, k - 1);
      OtherPass(k - 1, e, Passes(b, k - 1));
    }
  }

  lemma {:induction false} AfterItsPass(e: nat, b: string, k: nat)
    requires e < k <= 7 && (Entity(e).1 != '&' || k == e + 1)
    ensures Passes(Entity(e).0 + b, k) == [Entity(e).1] + Passes(b, k)
  {
    hide Pass, Entity;
    if k == e + 1 {
      BeforeItsPass(e, b, e);
      TheyAreEntities(e);
      PassDecodes(Passes(b, e), Entity(e));
    } else {
      AfterItsPass(e, b, k - 1);
      TheyAreEntities(k - 1);
      PassSkips([Entity(e).1], Passes(b, k - 1), Entity(k - 1));
    }
  }

  // --------------------------------------------------------------- what it does

  lemma Plain(a: string, b: string)
    requires '&' !in a
    ensures DecodeEntities(a + b) == a + DecodeEntities(b)
  {
    hide DecodeEntities, Passes;
    DecodeIsPasses(a + b);
    DecodeIsPasses(b);
    SkipPasses(a, b, 7);
  }

  lemma OneEntity(e: nat, b: string)
    requires e < 7 && e != 5
    ensures DecodeEntities(Entity(e).0 + b) == [Entity(e).1] + DecodeEntities(b)
  {
    hide DecodeEntities, Passes;
    DecodeIsPasses(Entity(e).0 + b);
    DecodeIsPasses(b);
    AfterItsPass(e, b, 7);
  }

  /** The ampersand is put in before the last replacement runs, so that one may take it for its own. */
  lemma Ampersand(b: string)
    ensures DecodeEntities("&amp;" + b) ==
            if "quot;" <= b then "\"" + DecodeEntities(b[5..]) else "&" + DecodeEntities(b)
  {
    hide DecodeEntities, Passes, Pass;
    DecodeIsPasses("&amp;" + b);
    DecodeIsPasses(b);
    AfterItsPass(5, b, 6);
    PassesNext("&amp;" + b, 6);
    PassesNext(b, 6);
    TheyAreEntities(6);
    assert Entity(5).0 == "&amp;" && [Entity(5).1] == "&" && Entity(6).0 == "&quot;" && Entity(6).0[1..] == "quot;";
    var x := Passes(b, 6);
    TailOf(6);
    TailKeptByAll("quot;", b, 6);
    AmpAndTail(6, x);
    if "quot;" <= b {
      assert b == "quot;" + b[5..];
      SkipPasses("quot;", b[5..], 6);
      assert "&" + ("quot;" + Passes(b[5..], 6)) == "&quot;" + Passes(b[5..], 6);
      PassDecodes(Passes(b[5..], 6), Entity(6));
      PassesNext(b[5..], 6);
      DecodeIsPasses(b[5..]);
    } else {
      PassLeaves(x, Entity(6));
    }
  }

  /** What becomes of a text, from its front: any text without an ampersand stays, an entity becomes its character,
      and an ampersand that starts none stays. */
  lemma EntitiesDecode(a: string, b: string)
    ensures '&' !in a ==> DecodeEntities(a + b) == a + DecodeEntities(b)
    ensures DecodeEntities("&#123;" + b) == "{" + DecodeEntities(b)
    ensures DecodeEntities("&#125;" + b) == "}" + DecodeEntities(b)
    ensures DecodeEntities("&#124;" + b) == "|" + DecodeEntities(b)
    ensures DecodeEntities("&lt;" + b) == "<" + DecodeEntities(b)
    ensures DecodeEntities("&gt;" + b) == ">" + DecodeEntities(b)
    ensures DecodeEntities("&quot;" + b) == "\"" + DecodeEntities(b)
    ensures !("quot;" <= b) ==> DecodeEntities("&amp;" + b) == "&" + DecodeEntities(b)
    ensures NoneAtFront("&" + b) ==> DecodeEntities("&" + b) == "&" + DecodeEntities(b)
    ensures DecodeEntities("") == ""
  {
    hide DecodeEntities, Passes;
    if '&' !in a { Plain(a, b); }
    OneEntity(0, b);
    OneEntity(1, b);
    OneEntity(2, b);
    OneEntity(3, b);
    OneEntity(4, b);
    OneEntity(6, b);
    Ampersand(b);
    if NoneAtFront("&" + b) {
      StrayPasses(b, 7);
      DecodeIsPasses("&" + b);
      DecodeIsPasses(b);
    }
    NothingDecoded();
  }

  lemma NothingDecoded()
    ensures DecodeEntities("") == ""
  {
    hide Pass;
    DecodeIsPasses("");
    forall e
      ensures Pass("", e) == ""
    {
      PassNothing(e);
    }
    PassesNext("", 0);
    PassesNext("", 1);
    PassesNext("", 2);
    PassesNext("", 3);
    PassesNext("", 4);
    PassesNext("", 5);
    PassesNext("", 6);
  }

  // ------------------------------------------------------------- once or twice

  function EntityAt(s: string): (r: Option<nat>)
    ensures r.Some? ==> r.value < 7 && Entity(r.value).0 <= s
    ensures r.None? ==> NoneAtFront(s)
  {
    if exists k :: 0 <= k < 7 && Entity(k).0 <= s then
      if Entity(0).0 <= s then Some(0) else if Entity(1).0 <= s then Some(1)
      else if Entity(2).0 <= s then Some(2) else if Entity(3).0 <= s then Some(3)
      else if Entity(4).0 <= s then Some(4) else if Entity(5).0 <= s then Some(5) else Some(6)
    else None
  }

  /** Every entity of the text decoded, once. */
  function DecodedOnce(s: string): string
    decreases |s|
  {
    if s == [] then []
    else
      match EntityAt(s)
      case None => [s[0]] + DecodedOnce(s[1..])
      case Some(k) => [Entity(k).1] + DecodedOnce(s[|Entity(k).0|..])
  }

  predicate StandsAt(s: string, i: nat) {
    i <= |s| && "&amp;quot;" <= s[i..]
  }

  predicate OccursSomewhere(s: string) {
    exists i: nat :: i <= |s| && StandsAt(s, i)
  }

  lemma StandsBehind(a: string, s: string, i: nat)
    requires '&' !in a
    ensures StandsAt(a + s, i) <==> i >= |a| && StandsAt(s, i - |a|)
  {
    var t := a + s;
    if i < |a| {
      assert t[i..][0] == a[i] && "&amp;quot;"[0] == '&';
    } else if i <= |t| {
      assert t[i..] == s[i - |a|..];
    }
  }

  lemma OccursBehind(a: string, s: string)
    requires '&' !in a
    ensures OccursSomewhere(a + s) <==> OccursSomewhere(s)
  {
    hide StandsAt;
    if OccursSomewhere(a + s) {
      var i: nat :| i <= |a + s| && StandsAt(a + s, i);
      StandsBehind(a, s, i);
    }
    if OccursSomewhere(s) {
      var i: nat :| i <= |s| && StandsAt(s, i);
      StandsBehind(a, s, i + |a|);
    }
  }

  lemma OccursAtFront(s: string)
    requires s != []
    ensures OccursSomewhere(s) <==> "&amp;quot;" <= s || OccursSomewhere(s[1..])
  {
    assert s[0..] == s;
    assert StandsAt(s, 0) <==> "&amp;quot;" <= s;
    forall i: nat
      ensures i > 0 ==> (StandsAt(s, i) <==> StandsAt(s[1..], i - 1))
    {
      assert 0 < i <= |s| ==> s[i..] == s[1..][i - 1..];
    }
    hide StandsAt;
    if OccursSomewhere(s[1..]) {
      var i: nat :| i <= |s[1..]| && StandsAt(s[1..], i);
      assert StandsAt(s, i + 1);
    }
  }

  /** Behind the entity at the front. */
  lemma OccursPast(k: nat, b: string)
    requires k < 7
    ensures OccursSomewhere(Entity(k).0 + b) <==> OccursSomewhere(b) || (k == 5 && "quot;" <= b)
  {
    hide Entity, OccursSomewhere;
    TheyAreEntities(k);
    var p := Entity(k).0;
    var t := p[1..];
    assert p + b == "&" + (t + b) && (p + b)[1..] == t + b;
    OccursAtFront(p + b);
    OccursBehind(t, b);
    FrontOccurs(k, b);
  }

  lemma FrontOccurs(k: nat, b: string)
    requires k < 7
    ensures "&amp;quot;" <= Entity(k).0 + b <==> k == 5 && "quot;" <= b
  {
    var s := Entity(k).0 + b;
    if k == 5 {
      assert "&amp;quot;"[5..] == "quot;" && s[5..] == b && s[..5] == "&amp;" == "&amp;quot;"[..5];
      assert "&amp;quot;" <= s ==> forall i | 0 <= i < 5 :: b[i] == s[i + 5] == "&amp;quot;"[i + 5];
      assert "quot;" <= b ==> forall i | 0 <= i < 5 :: b[i] == "quot;"[i] == s[i + 5];
    } else {
      if "&amp;quot;" <= s { SamePlaces("&amp;quot;", s); }
    }
  }

  lemma OnceParts(s: string)
    requires s != []
    ensures NoneAtFront(s) ==> DecodedOnce(s) == [s[0]] + DecodedOnce(s[1..])
    ensures forall k | 0 <= k < 7 && Entity(k).0 <= s ::
              DecodedOnce(s) == [Entity(k).1] + DecodedOnce(s[|Entity(k).0|..])
  {
    hide Entity;
    forall k | 0 <= k < 7 && Entity(k).0 <= s
      ensures EntityAt(s) == Some(k)
    {
      var o := EntityAt(s).value;
      if o != k {
        assert s == Entity(k).0 + s[|Entity(k).0|..];
        Differ(o, k, s[|Entity(k).0|..]);
      }
    }
  }

  lemma {:induction false} OnceSkips(a: string, b: string)
    requires '&' !in a
    ensures DecodedOnce(a + b) == a + DecodedOnce(b)
  {
    hide DecodedOnce, Entity;
    if a == [] {
      assert a + b == b && a + DecodedOnce(b) == DecodedOnce(b);
    } else {
      var s := a + b;
      assert s[1..] == a[1..] + b;
      forall k | 0 <= k < 7
        ensures !(Entity(k).0 <= s)
      {
        TheyAreEntities(k);
      }
      OnceParts(s);
      OnceSkips(a[1..], b);
      assert [a[0]] + a[1..] == a;
    }
  }

  /** Decoding is shorter by what is decoded twice. */
  lemma {:induction false} OnceOrShorter(s: string)
    ensures if OccursSomewhere(s) then |DecodeEntities(s)| < |DecodedOnce(s)| else DecodeEntities(s) == DecodedOnce(s)
    decreases |s|
  {
    hide DecodeEntities, DecodedOnce, OccursSomewhere, Entity;
    if s == [] {
      EmptyDecodes();
      return;
    }
    OnceParts(s);
    if NoneAtFront(s) {
      OnceOrShorter(s[1..]);
      assert s == [s[0]] + s[1..];
      EntitiesDecode([s[0]], s[1..]);
      if s[0] != '&' { OccursBehind([s[0]], s[1..]); } else { StrayOccurs(s); }
    } else {
      var k: nat :| k < 7 && Entity(k).0 <= s;
      TheyAreEntities(k);
      var b := s[|Entity(k).0|..];
      assert s == Entity(k).0 + b;
      OccursPast(k, b);
      OnceOrShorter(b);
      if k != 5 {
        OneEntity(k, b);
      } else {
        AmpersandAgain(b);
      }
    }
  }

  lemma EmptyDecodes()
    ensures DecodeEntities([]) == [] == DecodedOnce([]) && !OccursSomewhere([])
  {
    NothingDecoded();
  }

  lemma StrayOccurs(s: string)
    requires s != [] && NoneAtFront(s)
    ensures OccursSomewhere(s) <==> OccursSomewhere(s[1..])
  {
    OccursAtFront(s);
    if "&amp;quot;" <= s { StartsWithAmp(s); }
  }

  lemma StartsWithAmp(s: string)
    requires "&amp;quot;" <= s
    ensures Entity(5).0 <= s
  {
    assert s[..5] == "&amp;quot;"[..5];
  }

  lemma AmpersandAgain(b: string)
    requires if OccursSomewhere(b) then |DecodeEntities(b)| < |DecodedOnce(b)| else DecodeEntities(b) == DecodedOnce(b)
    ensures "quot;" <= b ==> |DecodeEntities(Entity(5).0 + b)| < 1 + |DecodedOnce(b)|
    ensures !("quot;" <= b) ==> DecodeEntities(Entity(5).0 + b) == [Entity(5).1] + DecodeEntities(b)
  {
    hide DecodeEntities, DecodedOnce, OccursSomewhere;
    Ampersand(b);
    if "quot;" <= b {
      assert b == "quot;" + b[5..];
      Plain("quot;", b[5..]);
      OnceSkips("quot;", b[5..]);
    }
  }

  /** Every entity of a text is decoded, and once, exactly if no `&amp;` stands before `quot;`. */
  lemma DecodedOnceIff(s: string)
    ensures DecodeEntities(s) == DecodedOnce(s) <==> !OccursSomewhere(s)
  {
    hide DecodeEntities, DecodedOnce, OccursSomewhere;
    OnceOrShorter(s);
  }
}

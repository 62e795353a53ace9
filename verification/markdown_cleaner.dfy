/** `stripDecorativeMarkup`: fences and inline code are lifted out, figures and components deleted, the rest put
    back. */
module MarkdownCleaner {
  import opened Text
  import opened Placeholders
  import opened Patterns

  const MARK: char := '\U{e001}'

  function Sanitized(text: string): string {
    Without(text, MARK)
  }

  // ------------------------------------------------------------ the patterns

  const TICKS: string := "```"

  /** `FENCED_BLOCK` at the front. */
  function FenceLen(s: string): nat {
    if !(TICKS <= s) then 0 else match Find(s[3..], Exactly(TICKS)) case None => 0 case Some(k) => k + 6
  }

  /** How far the next backtick of the line is. */
  function ToTick(s: string): (r: Option<nat>)
    ensures r.Some? ==> r.value < |s| && s[r.value] == '`'
  {
    if s == [] || s[0] == '\n' then None
    else if s[0] == '`' then Some(0)
    else match ToTick(s[1..]) case None => None case Some(k) => Some(k + 1)
  }

  /** `INLINE_CODE` at the front. */
  function InlineLen(s: string): nat {
    if s == [] || s[0] != '`' then 0 else match ToTick(s[1..]) case None => 0 case Some(k) => k + 2
  }

  const FIGURE_OPEN: string := "<figure>"
  const FIGURE_CLOSE: string := "</figure>"

  /** `FIGURE_BLOCK` at the front. */
  function FigureLen(s: string): nat {
    if !(FIGURE_OPEN <= s) then 0
    else match Find(s[8..], Exactly(FIGURE_CLOSE)) case None => 0 case Some(k) => k + 17
  }

  /** `[a-z-]+`, as far as it goes. */
  function NameRun(s: string): (n: nat)
    ensures n <= |s|
  {
    if s != [] && ('a' <= s[0] <= 'z' || s[0] == '-') then 1 + NameRun(s[1..]) else 0
  }

  const COMPONENT_OPEN: string := "<app-"
  const COMPONENT_CLOSE: string := "</app-"

  /** What ends a component: its closing tag, or the end of a tag that closes itself. */
  function ComponentEnd(s: string): nat {
    if "/>" <= s then 2
    else if !(COMPONENT_CLOSE <= s) then 0
    else
      var n := NameRun(s[6..]);
      if n > 0 && n + 6 < |s| && s[n + 6] == '>' then n + 7 else 0
  }

  /** `ANGULAR_COMPONENT` at the front. */
  function ComponentLen(s: string): nat {
    if !(COMPONENT_OPEN <= s) then 0
    else
      var from := 5 + NameRun(s[5..]);
      if from == 5 then 0
      else
        match Find(s[from..], ComponentEnd)
        case None => 0
        case Some(k) => from + k + ComponentEnd(s[from + k..])
  }

  // ------------------------------------------------------------ the method

  function Lookup(extracted: seq<string>): nat -> string {
    (n: nat) => if n < |extracted| then extracted[n] else []
  }

  /** What is left of the text for the deletions to work on. */
  function WithoutCode(text: string): string {
    var s := Sanitized(text);
    Lift(MARK, Lift(MARK, s, FenceLen, 0), InlineLen, |Lifted(s, FenceLen)|)
  }

  function Extracted(text: string): seq<string> {
    var s := Sanitized(text);
    Lifted(s, FenceLen) + Lifted(Lift(MARK, s, FenceLen, 0), InlineLen)
  }

  /** The figures go first, then the components. */
  function Undecorated(s: string): string {
    Rewrite(Rewrite(s, Put(FigureLen, "")), Put(ComponentLen, ""))
  }

  function Restored(text: string, s: string): string {
    Restore(MARK, s, Lookup(Extracted(text)))
  }

  function Stripped(text: string): string {
    Restored(text, Undecorated(WithoutCode(text)))
  }

  method StripDecorativeMarkup(text: string) returns (r: string)
    ensures r == Stripped(text)
  {
    var sanitized := Sanitized(text);
    var extracted: seq<string> := [];
    var withoutFences, withoutInlineCode;
    withoutFences, extracted := LiftAll(MARK, sanitized, FenceLen, extracted);
    assert extracted == Lifted(sanitized, FenceLen);
    withoutInlineCode, extracted := LiftAll(MARK, withoutFences, InlineLen, extracted);
    hide Lift, Lifted, Rewrite, Restore, Lookup;
    var stripped := Rewrite(Rewrite(withoutInlineCode, Put(FigureLen, "")), Put(ComponentLen, ""));
    r := Restore(MARK, stripped, Lookup(extracted));
  }

  // ------------------------------------------- inline code between the tokens

  function TickItem(items: seq<Item>): (r: Option<nat>)
    ensures r.Some? ==> r.value < |items|
  {
    if items == [] || items[0] == Char('\n') then None
    else if items[0] == Char('`') then Some(0)
    else match TickItem(items[1..]) case None => None case Some(k) => Some(k + 1)
  }

  function SpanLen(items: seq<Item>): (n: nat)
    ensures n <= |items|
  {
    if items == [] || items[0] != Char('`') then 0
    else match TickItem(items[1..]) case None => 0 case Some(k) => k + 2
  }

  /** The inline spans, each with the characters and tokens in it. */
  function Spans(items: seq<Item>): seq<seq<Item>>
    decreases |items|
  {
    if items == [] then []
    else
      var n := SpanLen(items);
      if n > 0 then [items[..n]] + Spans(items[n..]) else Spans(items[1..])
  }

  function InlineItems(items: seq<Item>, next: nat): seq<Item>
    decreases |items|
  {
    if items == [] then []
    else
      var n := SpanLen(items);
      if n > 0 then [Token(next)] + InlineItems(items[n..], next + 1)
      else [items[0]] + InlineItems(items[1..], next)
  }

  function FlatAll(spans: seq<seq<Item>>): (r: seq<string>)
    ensures |r| == |spans|
  {
    seq(|spans|, i requires 0 <= i < |spans| => Flat(MARK, spans[i]))
  }

  predicate Plain(s: string) {
    forall i | 0 <= i < |s| :: s[i] != '`' && s[i] != '\n'
  }

  lemma {:induction false} ToTickSkips(pre: string, rest: string)
    requires Plain(pre)
    ensures ToTick(pre + rest) == match ToTick(rest) case None => None case Some(k) => Some(|pre| + k)
  {
    if pre == [] {
      assert pre + rest == rest;
    } else {
      assert (pre + rest)[1..] == pre[1..] + rest;
      ToTickSkips(pre[1..], rest);
    }
  }

  lemma TokenIsPlain(n: nat)
    ensures Plain(Shown(MARK, Token(n)))
  {
  }

  /** The pattern finds on the flat text what it would find on the items. */
  lemma {:induction false} ToTickIs(items: seq<Item>)
    ensures ToTick(Flat(MARK, items)) ==
            match TickItem(items) case None => None case Some(k) => Some(|Flat(MARK, items[..k])|)
  {
    hide Shown, Flat, ToTick;
    FlatParts(MARK, items);
    if items == [] {
      ToTickNothing();
      return;
    }
    var rest := Flat(MARK, items[1..]);
    ToTickIs(items[1..]);
    if items[0].Token? {
      TokenIsPlain(items[0].index);
      ToTickSkips(Shown(MARK, items[0]), rest);
    } else {
      CharIsItself(items[0].c);
      ToTickCons(items[0].c, rest);
    }
    TickSlice(items);
    FlatParts(MARK, []);
    assert items[..0] == [];
  }

  lemma ToTickNothing()
    ensures ToTick([]) == None
  {
  }

  lemma ToTickCons(c: char, rest: string)
    ensures ToTick([c] + rest) ==
            if c == '\n' then None else if c == '`' then Some(0)
            else match ToTick(rest) case None => None case Some(k) => Some(k + 1)
  {
    assert ([c] + rest)[1..] == rest;
  }

  lemma TickSlice(items: seq<Item>)
    requires items != []
    ensures TickItem(items).Some? && TickItem(items).value > 0 ==>
              var k := TickItem(items).value;
              Flat(MARK, items[..k]) == Shown(MARK, items[0]) + Flat(MARK, items[1..][..k - 1])
  {
    hide Shown;
    if TickItem(items).Some? && TickItem(items).value > 0 {
      var k := TickItem(items).value;
      FlatParts(MARK, items[..k]);
      assert items[..k][1..] == items[1..][..k - 1];
    }
  }

  lemma CharIsItself(c: char)
    ensures Shown(MARK, Char(c)) == [c]
  {
  }

  lemma InlineLenIs(items: seq<Item>)
    requires items != [] && items[0].Char?
    ensures InlineLen(Flat(MARK, items)) == if SpanLen(items) == 0 then 0 else |Flat(MARK, items[..SpanLen(items)])|
  {
    hide Shown;
    FlatParts(MARK, items);
    CharIsItself(items[0].c);
    var rest := items[1..];
    assert Flat(MARK, items)[1..] == Flat(MARK, rest);
    ToTickIs(rest);
    if SpanLen(items) > 0 {
      var k := TickItem(rest).value;
      TickItemIsTick(rest);
      assert items[..k + 2][1..] == rest[..k] + [rest[k]];
      FlatParts(MARK, items[..k + 2]);
      FlatConcat(MARK, rest[..k], [rest[k]]);
      FlatParts(MARK, [rest[k]]);
      CharIsItself('`');
      assert [rest[k]][1..] == [];
      FlatParts(MARK, []);
    }
  }

  lemma {:induction false} TickItemIsTick(items: seq<Item>)
    ensures TickItem(items).Some? ==> items[TickItem(items).value] == Char('`')
  {
    if items != [] { TickItemIsTick(items[1..]); }
  }

  lemma NoSpanAt(s: string)
    requires s != [] && s[0] != '`'
    ensures InlineLen(s) == 0
  {
  }

  lemma {:induction false} LiftSkips(pre: string, rest: string, next: nat)
    requires Plain(pre)
    ensures Lift(MARK, pre + rest, InlineLen, next) == pre + Lift(MARK, rest, InlineLen, next)
    ensures Lifted(pre + rest, InlineLen) == Lifted(rest, InlineLen)
  {
    hide Lift, Lifted, InlineLen;
    if pre == [] {
      assert pre + rest == rest;
      assert pre + Lift(MARK, rest, InlineLen, next) == Lift(MARK, rest, InlineLen, next);
    } else {
      NoSpanAt(pre + rest);
      LiftStep(MARK, pre + rest, InlineLen, next);
      assert (pre + rest)[1..] == pre[1..] + rest;
      LiftSkips(pre[1..], rest, next);
      assert [pre[0]] + pre[1..] == pre;
      Assoc([pre[0]], pre[1..], Lift(MARK, rest, InlineLen, next));
    }
  }

  /** Lifting inline code from the flat text is lifting spans of items. */
  lemma {:induction false} LiftInline(items: seq<Item>, next: nat)
    ensures Lift(MARK, Flat(MARK, items), InlineLen, next) == Flat(MARK, InlineItems(items, next))
    ensures Lifted(Flat(MARK, items), InlineLen) == FlatAll(Spans(items))
    decreases |items|
  {
    hide Lift, Lifted, Flat, Shown, InlineLen, SpanLen;
    FlatParts(MARK, items);
    FlatParts(MARK, InlineItems(items, next));
    LiftNothing(MARK, InlineLen);
    if items == [] {
      return;
    }
    var n := SpanLen(items);
    if n > 0 {
      LiftInlineSpan(items, n, next);
      LiftInline(items[n..], next + 1);
      assert InlineItems(items, next)[1..] == InlineItems(items[n..], next + 1);
      assert FlatAll(Spans(items)) == [Flat(MARK, items[..n])] + FlatAll(Spans(items[n..]));
    } else {
      var rest := Flat(MARK, items[1..]);
      LiftInline(items[1..], next);
      assert InlineItems(items, next)[1..] == InlineItems(items[1..], next);
      LiftOneItem(items, next);
    }
  }

  lemma LiftOneItem(items: seq<Item>, next: nat)
    requires items != [] && SpanLen(items) == 0
    ensures var rest := Flat(MARK, items[1..]);
            && Lift(MARK, Flat(MARK, items), InlineLen, next)
                == Shown(MARK, items[0]) + Lift(MARK, rest, InlineLen, next)
            && Lifted(Flat(MARK, items), InlineLen) == Lifted(rest, InlineLen)
  {
    hide Lift, Lifted, Flat, Shown, SpanLen, InlineLen;
    FlatParts(MARK, items);
    if items[0].Token? {
      TokenIsPlain(items[0].index);
      LiftSkips(Shown(MARK, items[0]), Flat(MARK, items[1..]), next);
    } else {
      CharIsItself(items[0].c);
      InlineLenIs(items);
      LiftStep(MARK, Flat(MARK, items), InlineLen, next);
      assert Flat(MARK, items)[1..] == Flat(MARK, items[1..]);
    }
  }

  lemma LiftInlineSpan(items: seq<Item>, n: nat, next: nat)
    requires n == SpanLen(items) > 0
    ensures var rest := Flat(MARK, items[n..]);
            && Lift(MARK, Flat(MARK, items), InlineLen, next)
                == Shown(MARK, Token(next)) + Lift(MARK, rest, InlineLen, next + 1)
            && Lifted(Flat(MARK, items), InlineLen) == [Flat(MARK, items[..n])] + Lifted(rest, InlineLen)
  {
    hide Lift, Lifted, Flat, Shown, SpanLen, InlineLen;
    SpanStarts(items);
    InlineLenIs(items);
    FlatConcat(MARK, items[..n], items[n..]);
    assert items[..n] + items[n..] == items;
    var span, rest := Flat(MARK, items[..n]), Flat(MARK, items[n..]);
    FlatParts(MARK, items[..n]);
    CharIsItself('`');
    LiftFront(span, rest, next);
  }

  lemma SpanStarts(items: seq<Item>)
    requires SpanLen(items) > 0
    ensures items != [] && items[0] == Char('`')
  {
  }

  lemma LiftFront(span: string, rest: string, next: nat)
    requires span != [] && InlineLen(span + rest) == |span|
    ensures Lift(MARK, span + rest, InlineLen, next) == Shown(MARK, Token(next)) + Lift(MARK, rest, InlineLen, next + 1)
    ensures Lifted(span + rest, InlineLen) == [span] + Lifted(rest, InlineLen)
  {
    hide Lift, Lifted, Shown, InlineLen;
    LiftStep(MARK, span + rest, InlineLen, next);
    assert (span + rest)[..|span|] == span && (span + rest)[|span|..] == rest;
  }

  // ------------------------------------------------------------ round trips

  predicate HoldsToken(items: seq<Item>) {
    exists i :: 0 <= i < |items| && items[i].Token?
  }

  /** The text once its fences are tokens. */
  function FenceItems(text: string): seq<Item> {
    LiftItems(Sanitized(text), FenceLen, 0)
  }

  function FenceCount(text: string): nat {
    |Lifted(Sanitized(text), FenceLen)|
  }

  /** Some inline span reaches around a fence. */
  predicate EnclosesFence(text: string) {
    SomeHoldsToken(Spans(FenceItems(text)))
  }

  predicate SomeHoldsToken(spans: seq<seq<Item>>) {
    exists i :: 0 <= i < |spans| && HoldsToken(spans[i])
  }

  lemma {:induction false} SpellConcat(a: seq<Item>, b: seq<Item>, body: nat -> string)
    ensures Spell(a + b, body) == Spell(a, body) + Spell(b, body)
  {
    if a == [] {
      assert a + b == b;
    } else {
      assert (a + b)[1..] == a[1..] + b;
      SpellConcat(a[1..], b, body);
    }
  }

  lemma {:induction false} SpellChars(items: seq<Item>, body: nat -> string)
    requires !HoldsToken(items)
    ensures Spell(items, body) == Flat(MARK, items)
  {
    if items != [] {
      assert items[0].Char?;
      assert !HoldsToken(items[1..]) by {
        assert forall i | 0 <= i < |items| - 1 :: items[1..][i] == items[i + 1];
      }
      SpellChars(items[1..], body);
    }
  }

  lemma {:induction false} TokenShowsMark(items: seq<Item>)
    requires HoldsToken(items)
    ensures MARK in Flat(MARK, items)
  {
    if items[0].Token? {
      assert Flat(MARK, items)[0] == MARK;
    } else {
      assert HoldsToken(items[1..]) by {
        var i :| 0 <= i < |items| && items[i].Token?;
        assert items[1..][i - 1].Token?;
      }
      TokenShowsMark(items[1..]);
    }
  }

  lemma SomeParts(first: seq<Item>, rest: seq<seq<Item>>)
    ensures SomeHoldsToken([first] + rest) <==> HoldsToken(first) || SomeHoldsToken(rest)
  {
    var all := [first] + rest;
    assert all[0] == first && forall i | 0 <= i < |rest| :: all[i + 1] == rest[i];
    hide HoldsToken;
  }

  /** With every inline body put back, what is spelled is what was spelled before, unless a span holds a token. */
  lemma {:induction false} SpellInline(items: seq<Item>, next: nat, body: nat -> string)
    requires Gives(body, next, FlatAll(Spans(items)))
    ensures !SomeHoldsToken(Spans(items)) ==> Spell(InlineItems(items, next), body) == Spell(items, body)
    ensures SomeHoldsToken(Spans(items)) ==> MARK in Spell(InlineItems(items, next), body)
    decreases |items|
  {
    InlineParts(items, next);
    hide HoldsToken, SomeHoldsToken, SpanLen, Spans, InlineItems, Flat, Spell, FlatAll, Gives;
    if items == [] {
      NoneHoldsToken();
      return;
    }
    var n, lifted := SpanLen(items), InlineItems(items, next);
    SpellParts(items, body);
    SpellParts(lifted, body);
    if n > 0 {
      var span, rest := items[..n], items[n..];
      FlatAllParts(span, Spans(rest));
      GivesTail(body, next, FlatAll(Spans(items)));
      SpellInline(rest, next + 1, body);
      SomeParts(span, Spans(rest));
      if HoldsToken(span) {
        TokenShowsMark(span);
      } else {
        SpellChars(span, body);
        assert items == span + rest;
        SpellConcat(span, rest, body);
      }
    } else {
      SpellInline(items[1..], next, body);
    }
  }

  lemma InlineParts(items: seq<Item>, next: nat)
    ensures items == [] ==> Spans(items) == [] && InlineItems(items, next) == []
    ensures items != [] ==>
              var n, lifted := SpanLen(items), InlineItems(items, next);
              && lifted != []
              && (n > 0 ==> && Spans(items) == [items[..n]] + Spans(items[n..])
                            && lifted[0] == Token(next) && lifted[1..] == InlineItems(items[n..], next + 1))
              && (n == 0 ==> && Spans(items) == Spans(items[1..])
                             && lifted[0] == items[0] && lifted[1..] == InlineItems(items[1..], next))
  {
    hide SpanLen;
  }

  lemma SpellParts(items: seq<Item>, body: nat -> string)
    ensures items == [] ==> Spell(items, body) == []
    ensures items != [] ==>
              Spell(items, body) == (if items[0].Token? then body(items[0].index) else [items[0].c])
                  + Spell(items[1..], body)
  {
  }

  lemma FlatAllParts(span: seq<Item>, rest: seq<seq<Item>>)
    ensures var all := FlatAll([span] + rest);
            all != [] && all[0] == Flat(MARK, span) && all[1..] == FlatAll(rest)
  {
  }

  lemma NoneHoldsToken()
    ensures !SomeHoldsToken([])
  {
  }

  /** The extracted list answers for both kinds of span. */
  lemma LookupGives(text: string)
    ensures var body, fences := Lookup(Extracted(text)), FenceItems(text);
            && Gives(body, 0, Lifted(Sanitized(text), FenceLen))
            && Gives(body, FenceCount(text), FlatAll(Spans(fences)))
            && Clean(MARK, fences) && Spell(fences, body) == Sanitized(text)
            && WithoutCode(text) == Flat(MARK, InlineItems(fences, FenceCount(text)))
  {
    var s, fences, body := Sanitized(text), FenceItems(text), Lookup(Extracted(text));
    var a := Lifted(s, FenceLen);
    LookupParts(a, FlatAll(Spans(fences)));
    LiftIsClean(MARK, s, FenceLen, 0, Lookup(a));
    LiftInline(fences, |a|);
    hide Lift, Lifted, LiftItems, FlatAll, Spans, Lookup, Flat;
    assert Extracted(text) == a + FlatAll(Spans(fences));
    LiftIsClean(MARK, s, FenceLen, 0, body);
  }

  lemma LookupParts(a: seq<string>, b: seq<string>)
    ensures Gives(Lookup(a + b), 0, a) && Gives(Lookup(a + b), |a|, b) && Gives(Lookup(a), 0, a)
  {
  }

  /** Putting back undoes lifting, exactly if no inline span reaches around a fence. */
  lemma RoundTripIff(text: string)
    ensures Restored(text, WithoutCode(text)) == Sanitized(text) <==> !EnclosesFence(text)
  {
    LookupGives(text);
    var fences, n, body := FenceItems(text), FenceCount(text), Lookup(Extracted(text));
    InlineIsClean(fences, n);
    RestoreFlat(MARK, InlineItems(fences, n), body);
    SpellInline(fences, n, body);
    hide Restore, Spell, Flat, InlineItems, Spans, Lookup, SomeHoldsToken;
  }

  const ENCLOSED: string := "` ```x``` `"

  /** Such a text is there: the inline span that starts at its first backtick reaches around the fence, and putting
      back what was lifted does not give the text back. */
  lemma SpanAroundFence()
    ensures EnclosesFence(ENCLOSED) && Restored(ENCLOSED, WithoutCode(ENCLOSED)) != Sanitized(ENCLOSED)
  {
    hide Restored, WithoutCode, SomeHoldsToken, HoldsToken, Spans;
    EnclosedItems();
    var items := FenceItems(ENCLOSED);
    EnclosingSpan(items);
    RoundTripIff(ENCLOSED);
  }

  lemma EnclosingSpan(items: seq<Item>)
    requires items == [Char('`'), Char(' '), Token(0), Char(' '), Char('`')]
    ensures SomeHoldsToken(Spans(items))
  {
    var last, three := [Char('`')], [Token(0), Char(' '), Char('`')];
    var two, four := [Char(' '), Char('`')], [Char(' '), Token(0), Char(' '), Char('`')];
    assert two[1..] == last && three[1..] == two && four[1..] == three && items[1..] == four;
    assert TickItem(last) == Some(0) && TickItem(two) == Some(1) && TickItem(three) == Some(2)
        && TickItem(four) == Some(3);
    assert SpanLen(items) == 5 && Spans(items)[0] == items[..5] == items;
    assert HoldsToken(Spans(items)[0]) by { assert items[2].Token?; }
  }

  lemma EnclosedItems()
    ensures FenceItems(ENCLOSED) == [Char('`'), Char(' '), Token(0), Char(' '), Char('`')]
  {
    hide LiftItems, FenceLen, Without;
    NothingLifted();
    NoFenceAt('`', [], 1);
    NoFenceAt(' ', ['`'], 1);
    FenceAt([' ', '`']);
    var block := ['`', '`', '`', 'x', '`', '`', '`', ' ', '`'];
    NoFenceAt(' ', block, 0);
    NoFenceAt('`', [' '] + block, 0);
    assert ['`'] + [] == ['`'] && [' '] + ['`'] == [' ', '`'];
    assert ['`', '`', '`', 'x', '`', '`', '`'] + [' ', '`'] == block;
    assert Sanitized(ENCLOSED) == ['`'] + ([' '] + block);
  }

  lemma NothingLifted()
    ensures LiftItems([], FenceLen, 1) == []
  {
  }

  lemma NoFenceAt(c: char, rest: string, next: nat)
    requires c != '`' || rest == [] || rest[0] != '`'
    ensures LiftItems([c] + rest, FenceLen, next) == [Char(c)] + LiftItems(rest, FenceLen, next)
  {
    assert TICKS[0] == TICKS[1] == '`' && ([c] + rest)[1..] == rest;
  }

  lemma FenceAt(rest: string)
    ensures LiftItems(['`', '`', '`', 'x', '`', '`', '`'] + rest, FenceLen, 0)
        == [Token(0)] + LiftItems(rest, FenceLen, 1)
  {
    var s := ['`', '`', '`', 'x', '`', '`', '`'] + rest;
    var t := s[3..];
    assert t[0] == 'x' && t[1..][..3] == TICKS && s[..3] == TICKS;
    assert Find(t[1..], Exactly(TICKS)) == Some(0) && Find(t, Exactly(TICKS)) == Some(1);
    assert FenceLen(s) == 7 && s[7..] == rest;
  }

  lemma {:induction false} InlineIsClean(items: seq<Item>, next: nat)
    requires Clean(MARK, items)
    ensures Clean(MARK, InlineItems(items, next))
    decreases |items|
  {
    if items != [] {
      var n := SpanLen(items);
      if n > 0 {
        InlineIsClean(items[n..], next + 1);
      } else {
        InlineIsClean(items[1..], next);
      }
    }
  }

  lemma FiguresAreBracketed()
    ensures BracketedMatches(FigureLen)
  {
    forall s: string | 0 < FigureLen(s) <= |s|
      ensures s[0] == '<' && s[FigureLen(s) - 1] == '>'
    {
      var k := Find(s[8..], Exactly(FIGURE_CLOSE)).value;
      assert s[0] == FIGURE_OPEN[0];
      assert s[8..][k..][8] == FIGURE_CLOSE[8];
    }
  }

  lemma ComponentsAreBracketed()
    ensures BracketedMatches(ComponentLen)
  {
    hide ComponentLen;
    forall s: string | 0 < ComponentLen(s) <= |s|
      ensures s[0] == '<' && s[ComponentLen(s) - 1] == '>'
    {
      ComponentShape(s);
    }
  }

  lemma ComponentShape(s: string)
    requires ComponentLen(s) > 0
    ensures ComponentLen(s) <= |s| && s[0] == '<' && s[ComponentLen(s) - 1] == '>'
  {
    hide Find, NameRun, ComponentEnd;
    OpensComponent(s);
    var from := 5 + NameRun(s[5..]);
    var k := Find(s[from..], ComponentEnd).value;
    assert s[from..][k..] == s[from + k..];
    ComponentEndsInBracket(s[from + k..]);
  }

  lemma OpensComponent(s: string)
    requires COMPONENT_OPEN <= s
    ensures |s| >= 5 && s[0] == '<'
  {
    assert s[0] == COMPONENT_OPEN[0];
  }

  lemma ComponentEndsInBracket(s: string)
    requires ComponentEnd(s) > 0
    ensures ComponentEnd(s) <= |s| && s[ComponentEnd(s) - 1] == '>'
  {
    assert "/>" <= s ==> s[1] == "/>"[1];
  }

  /** Deleting the figures and the components is a row of deletions between angle brackets. */
  lemma UndecoratedIsCuts(s: string) returns (cuts: seq<Range>)
    ensures AllBracketed(s, cuts) && AfterCuts(s, cuts) == Undecorated(s)
  {
    hide Rewrite, BracketedMatches, Put, AllBracketed, AfterCuts, FigureLen, ComponentLen;
    FiguresAreBracketed();
    ComponentsAreBracketed();
    var once := Rewrite(s, Put(FigureLen, ""));
    var first := RemovalOf(s, FigureLen);
    var second := RemovalOf(once, ComponentLen);
    CutsConcat(s, first, second);
    cuts := first + second;
  }

  lemma RemovalOf(s: string, len: Matcher) returns (cuts: seq<Range>)
    requires BracketedMatches(len)
    ensures AllBracketed(s, cuts) && AfterCuts(s, cuts) == Rewrite(s, Put(len, ""))
  {
    hide Rewrite, BracketedMatches, Put, AllBracketed, AfterCuts;
    cuts := RemovalIsCuts([], s, len);
    assert [] + s == s && [] + Rewrite(s, Put(len, "")) == Rewrite(s, Put(len, ""));
  }

  /** Once the figures and components are deleted, what is put back is the lifted text with some of its items left
      out, those that show what the deletions left: every surviving token as its own span, in order. If no inline
      span reaches around a fence, what comes out shows no placeholder. */
  lemma DeletionsKeepCode(text: string) returns (left: seq<Item>, ks: seq<nat>)
    ensures Clean(MARK, left) && Picks(left, InlineItems(FenceItems(text), FenceCount(text)), ks)
    ensures Flat(MARK, left) == Undecorated(WithoutCode(text))
    ensures Stripped(text) == Spell(left, Lookup(Extracted(text)))
    ensures !EnclosesFence(text) ==> MARK !in Stripped(text)
  {
    LookupGives(text);
    var fences, n, body := FenceItems(text), FenceCount(text), Lookup(Extracted(text));
    InlineIsClean(fences, n);
    hide Restore, Spell, Flat, InlineItems, Spans, Lookup, SomeHoldsToken, AllBracketed, AfterCuts, Undecorated;
    var cuts := UndecoratedIsCuts(WithoutCode(text));
    left, ks := DeletionsKeepTheRest(MARK, InlineItems(fences, n), cuts, body);
    if !EnclosesFence(text) {
      BodiesWithoutMark(text);
      SpellWithoutMark(left, body);
    }
  }

  lemma {:induction false} SpellWithoutMark(items: seq<Item>, body: nat -> string)
    requires Clean(MARK, items) && forall n :: MARK !in body(n)
    ensures MARK !in Spell(items, body)
  {
    if items != [] { SpellWithoutMark(items[1..], body); }
  }

  lemma {:induction false} LiftedWithoutMark(s: string, len: Matcher)
    requires MARK !in s
    ensures forall i | 0 <= i < |Lifted(s, len)| :: MARK !in Lifted(s, len)[i]
    decreases |s|
  {
    if s != [] {
      if 0 < len(s) <= |s| {
        LiftedWithoutMark(s[len(s)..], len);
      } else {
        LiftedWithoutMark(s[1..], len);
      }
    }
  }

  lemma {:induction false} CharsWithoutMark(items: seq<Item>)
    requires Clean(MARK, items) && !HoldsToken(items)
    ensures MARK !in Flat(MARK, items)
  {
    if items != [] {
      assert items[0].Char?;
      assert !HoldsToken(items[1..]) by {
        assert forall i | 0 <= i < |items| - 1 :: items[1..][i] == items[i + 1];
      }
      CharsWithoutMark(items[1..]);
    }
  }

  lemma {:induction false} SpansAreClean(items: seq<Item>)
    requires Clean(MARK, items)
    ensures forall i | 0 <= i < |Spans(items)| :: Clean(MARK, Spans(items)[i])
    decreases |items|
  {
    if items != [] {
      var n := SpanLen(items);
      if n > 0 {
        SpansAreClean(items[n..]);
      } else {
        SpansAreClean(items[1..]);
      }
    }
  }

  lemma BodiesWithoutMark(text: string)
    requires !EnclosesFence(text)
    ensures forall n :: MARK !in Lookup(Extracted(text))(n)
  {
    LookupGives(text);
    var s, fences := Sanitized(text), FenceItems(text);
    LiftedWithoutMark(s, FenceLen);
    SpansAreClean(fences);
    LiftInline(fences, FenceCount(text));
    LiftIsClean(MARK, s, FenceLen, 0, Lookup(Lifted(s, FenceLen))) by {
      LookupParts(Lifted(s, FenceLen), []);
    }
    forall i | 0 <= i < |Spans(fences)|
      ensures MARK !in FlatAll(Spans(fences))[i]
    {
      CharsWithoutMark(Spans(fences)[i]);
    }
  }
}

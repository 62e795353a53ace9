/** Index-bearing placeholders, as `html-table.ts` and `markdown-cleaner.ts` both use them: a span is lifted out
    of a text, a token with its index stands in, and after the text was edited each token is looked up again. */
module Placeholders {
  import opened Text

  /** A text in which some places are tokens. */
  datatype Item = Char(c: char) | Token(index: nat)

  function Shown(mark: char, item: Item): (s: string)
    ensures s != []
  {
    match item
    case Char(c) => [c]
    case Token(n) => [mark] + Decimal(n) + [mark]
  }

  function Flat(mark: char, items: seq<Item>): string {
    if items == [] then [] else Shown(mark, items[0]) + Flat(mark, items[1..])
  }

  /** `replaceAll(mark, '')`. */
  function Without(s: string, mark: char): (r: string)
    ensures mark !in r
    ensures mark !in s ==> r == s
  {
    if s == [] then [] else if s[0] == mark then Without(s[1..], mark) else [s[0]] + Without(s[1..], mark)
  }

  lemma {:induction false} WithoutConcat(a: string, b: string, mark: char)
    ensures Without(a + b, mark) == Without(a, mark) + Without(b, mark)
  {
    if a == [] {
      assert a + b == b;
    } else {
      assert (a + b)[1..] == a[1..] + b;
      WithoutConcat(a[1..], b, mark);
    }
  }

  /** The source text has been rid of the mark, so only tokens show it. */
  predicate Clean(mark: char, items: seq<Item>) {
    !IsDigit(mark) && forall i | 0 <= i < |items| && items[i].Char? :: items[i].c != mark
  }

  // -------------------------------------------------------------- restoring

  function DigitRun(s: string): (n: nat)
    ensures n <= |s| && (forall i | 0 <= i < n :: IsDigit(s[i])) && (n < |s| ==> !IsDigit(s[n]))
  {
    if s == [] || !IsDigit(s[0]) then 0 else 1 + DigitRun(s[1..])
  }

  /** Where a token stands at the front of s, how many digits it has. */
  function TokenAt(mark: char, s: string): (n: nat)
    ensures n > 0 ==> n + 1 < |s| && s[0] == mark && s[n + 1] == mark && forall i | 1 <= i <= n :: IsDigit(s[i])
  {
    if s == [] || s[0] != mark then 0
    else
      var n := DigitRun(s[1..]);
      if n + 1 < |s| && s[n + 1] == mark then n else 0
  }

  /** `replace(/MARK(\d+)MARK/g, lookup)`: one pass from the left, what is put in is not looked at again. */
  function Restore(mark: char, s: string, body: nat -> string): string
    decreases |s|
  {
    if s == [] then []
    else
      var n := TokenAt(mark, s);
      if n > 0 then body(DecimalValue(s[1..n + 1])) + Restore(mark, s[n + 2..], body)
      else [s[0]] + Restore(mark, s[1..], body)
  }

  function Spell(items: seq<Item>, body: nat -> string): string {
    if items == [] then []
    else (if items[0].Token? then body(items[0].index) else [items[0].c]) + Spell(items[1..], body)
  }

  lemma {:induction false} DigitRunOf(digits: string, rest: string)
    requires (forall i | 0 <= i < |digits| :: IsDigit(digits[i])) && (rest != [] ==> !IsDigit(rest[0]))
    ensures DigitRun(digits + rest) == |digits|
  {
    if digits != [] {
      assert (digits + rest)[1..] == digits[1..] + rest;
      DigitRunOf(digits[1..], rest);
    } else {
      assert digits + rest == rest;
    }
  }

  lemma TokenAtFront(mark: char, n: nat, rest: string)
    requires !IsDigit(mark)
    ensures var s := [mark] + Decimal(n) + [mark] + rest;
            && TokenAt(mark, s) == |Decimal(n)| > 0
            && s[1..|Decimal(n)| + 1] == Decimal(n) && s[|Decimal(n)| + 2..] == rest
  {
    var s := [mark] + Decimal(n) + [mark] + rest;
    assert s[1..] == Decimal(n) + ([mark] + rest);
    DigitRunOf(Decimal(n), [mark] + rest);
  }

  lemma {:induction false} RestoreSkips(mark: char, pre: string, rest: string, body: nat -> string)
    requires mark !in pre
    ensures Restore(mark, pre + rest, body) == pre + Restore(mark, rest, body)
  {
    if pre == [] {
      assert pre + rest == rest && pre + Restore(mark, rest, body) == Restore(mark, rest, body);
    } else {
      assert (pre + rest)[1..] == pre[1..] + rest && TokenAt(mark, pre + rest) == 0;
      RestoreSkips(mark, pre[1..], rest, body);
      assert [pre[0]] + pre[1..] == pre;
    }
  }

  lemma RestoreToken(mark: char, n: nat, rest: string, body: nat -> string)
    requires !IsDigit(mark)
    ensures Restore(mark, Shown(mark, Token(n)) + rest, body) == body(n) + Restore(mark, rest, body)
  {
    TokenAtFront(mark, n, rest);
    DecimalRoundTrip(n);
  }

  lemma RestoreNothing(mark: char, s: string, body: nat -> string)
    requires mark !in s
    ensures Restore(mark, s, body) == s
  {
    RestoreSkips(mark, s, [], body);
    assert s + [] == s && Restore(mark, [], body) == [];
    hide Restore;
  }

  /** Every token of a clean text is found and replaced by its own body; nothing else is touched. */
  lemma {:induction false} RestoreFlat(mark: char, items: seq<Item>, body: nat -> string)
    requires Clean(mark, items)
    ensures Restore(mark, Flat(mark, items), body) == Spell(items, body)
  {
    if items != [] {
      var rest := Flat(mark, items[1..]);
      RestoreFlat(mark, items[1..], body);
      match items[0] {
        case Char(c) =>
          assert ([c] + rest)[1..] == rest;
        case Token(n) =>
          TokenAtFront(mark, n, rest);
          DecimalRoundTrip(n);
          hide Decimal, DecimalValue, TokenAt;
      }
    }
  }

  /** A text shows at most one list of clean items. */
  lemma {:induction false} FlatInjective(mark: char, a: seq<Item>, b: seq<Item>)
    requires Clean(mark, a) && Clean(mark, b) && Flat(mark, a) == Flat(mark, b)
    ensures a == b
  {
    hide Flat, Shown;
    FlatParts(mark, a);
    FlatParts(mark, b);
    if a != [] && b != [] {
      SameFirst(mark, a, b);
      SameRest(Shown(mark, a[0]), Flat(mark, a[1..]), Flat(mark, b[1..]));
      FlatInjective(mark, a[1..], b[1..]);
      assert a == [a[0]] + a[1..] && b == [b[0]] + b[1..];
    }
  }

  lemma SameRest<T>(first: seq<T>, x: seq<T>, y: seq<T>)
    requires first + x == first + y
    ensures x == y
  {
    assert x == (first + x)[|first|..];
  }

  lemma SameFirst(mark: char, a: seq<Item>, b: seq<Item>)
    requires a != [] && b != [] && Clean(mark, a) && Clean(mark, b) && Flat(mark, a) == Flat(mark, b)
    ensures a[0] == b[0]
  {
    var s := Flat(mark, a);
    assert s[0] == Shown(mark, a[0])[0] == Shown(mark, b[0])[0];
    if a[0].Token? && b[0].Token? {
      TokenAtFront(mark, a[0].index, Flat(mark, a[1..]));
      TokenAtFront(mark, b[0].index, Flat(mark, b[1..]));
      DecimalRoundTrip(a[0].index);
      DecimalRoundTrip(b[0].index);
      hide Decimal, DecimalValue, TokenAt, Flat;
    }
  }

  lemma {:induction false} FlatConcat(mark: char, a: seq<Item>, b: seq<Item>)
    ensures Flat(mark, a + b) == Flat(mark, a) + Flat(mark, b)
  {
    if a == [] {
      assert a + b == b;
    } else {
      assert (a + b)[1..] == a[1..] + b;
      FlatConcat(mark, a[1..], b);
    }
  }

  // ---------------------------------------------------------------- lifting

  /** How long the match at the front of a text is; 0 for none. */
  type Matcher = string -> nat

  /** `replace(pattern, match => token)`: every match, from the left, becomes the token of the next index. */
  function Lift(mark: char, s: string, len: Matcher, next: nat): string
    decreases |s|
  {
    if s == [] then []
    else if 0 < len(s) <= |s| then Shown(mark, Token(next)) + Lift(mark, s[len(s)..], len, next + 1)
    else [s[0]] + Lift(mark, s[1..], len, next)
  }

  /** The matches, in order: what the callback pushes. */
  function Lifted(s: string, len: Matcher): seq<string>
    decreases |s|
  {
    if s == [] then []
    else if 0 < len(s) <= |s| then [s[..len(s)]] + Lifted(s[len(s)..], len)
    else Lifted(s[1..], len)
  }

  method LiftAll(mark: char, s: string, len: Matcher, extracted0: seq<string>)
    returns (text: string, extracted: seq<string>)
    ensures text == Lift(mark, s, len, |extracted0|)
    ensures extracted == extracted0 + Lifted(s, len)
  {
    text, extracted := [], extracted0;
    var rest := s;
    LiftNothing(mark, len);
    hide Lift, Lifted, Shown;
    while rest != []
      invariant text + Lift(mark, rest, len, |extracted|) == Lift(mark, s, len, |extracted0|)
      invariant extracted + Lifted(rest, len) == extracted0 + Lifted(s, len)
      decreases |rest|
    {
      LiftStep(mark, rest, len, |extracted|);
      var n := len(rest);
      if 0 < n <= |rest| {
        Assoc(text, Shown(mark, Token(|extracted|)), Lift(mark, rest[n..], len, |extracted| + 1));
        Assoc(extracted, [rest[..n]], Lifted(rest[n..], len));
        text, extracted, rest := text + Shown(mark, Token(|extracted|)), extracted + [rest[..n]], rest[n..];
      } else {
        Assoc(text, [rest[0]], Lift(mark, rest[1..], len, |extracted|));
        text, rest := text + [rest[0]], rest[1..];
      }
    }
  }

  lemma Assoc<T>(a: seq<T>, b: seq<T>, c: seq<T>)
    ensures (a + b) + c == a + (b + c)
  {
  }

  lemma LiftNothing(mark: char, len: Matcher)
    ensures (forall next :: Lift(mark, [], len, next) == []) && Lifted([], len) == []
  {
  }

  lemma LiftStep(mark: char, s: string, len: Matcher, next: nat)
    requires s != []
    ensures var n := len(s);
            if 0 < n <= |s| then
              && Lift(mark, s, len, next) == Shown(mark, Token(next)) + Lift(mark, s[n..], len, next + 1)
              && Lifted(s, len) == [s[..n]] + Lifted(s[n..], len)
            else
              && Lift(mark, s, len, next) == [s[0]] + Lift(mark, s[1..], len, next)
              && Lifted(s, len) == Lifted(s[1..], len)
  {
  }

  function LiftItems(s: string, len: Matcher, next: nat): seq<Item>
    decreases |s|
  {
    if s == [] then []
    else if 0 < len(s) <= |s| then [Token(next)] + LiftItems(s[len(s)..], len, next + 1)
    else [Char(s[0])] + LiftItems(s[1..], len, next)
  }

  /** From index `next` on, body looks up this list. */
  ghost predicate Gives(body: nat -> string, next: nat, list: seq<string>) {
    forall i {:trigger list[i]} | 0 <= i < |list| :: body(next + i) == list[i]
  }

  lemma GivesTail(body: nat -> string, next: nat, list: seq<string>)
    requires list != [] && Gives(body, next, list)
    ensures body(next) == list[0] && Gives(body, next + 1, list[1..])
  {
    assert body(next + 0) == list[0];
    forall i | 0 <= i < |list[1..]|
      ensures body(next + 1 + i) == list[1..][i]
    {
      assert list[1..][i] == list[i + 1];
    }
  }

  /** Lifting from a text without the mark gives clean items, and putting every match back gives the text. */
  lemma {:induction false} LiftIsClean(mark: char, s: string, len: Matcher, next: nat, body: nat -> string)
    requires mark !in s && !IsDigit(mark)
    requires Gives(body, next, Lifted(s, len))
    ensures Clean(mark, LiftItems(s, len, next)) && Flat(mark, LiftItems(s, len, next)) == Lift(mark, s, len, next)
    ensures Spell(LiftItems(s, len, next), body) == s
    decreases |s|
  {
    if s == [] {
      return;
    }
    var items := LiftItems(s, len, next);
    if 0 < len(s) <= |s| {
      var rest := s[len(s)..];
      assert s == s[..len(s)] + rest;
      assert Lifted(s, len)[1..] == Lifted(rest, len);
      GivesTail(body, next, Lifted(s, len));
      LiftIsClean(mark, rest, len, next + 1, body);
      assert items[1..] == LiftItems(rest, len, next + 1);
    } else {
      LiftIsClean(mark, s[1..], len, next, body);
      assert items[1..] == LiftItems(s[1..], len, next);
    }
  }

  // ---------------------------------------------------------------- editing

  predicate TokenChar(mark: char, c: char) {
    c == mark || IsDigit(c)
  }

  /** A cut next to a character no token contains, such as an angle bracket or a quote. */
  predicate SafeAt(mark: char, s: string, p: nat)
    requires p <= |s|
  {
    p == 0 || p == |s| || !TokenChar(mark, s[p - 1]) || !TokenChar(mark, s[p])
  }

  /** A safe cut never falls inside a token. */
  lemma {:induction false} SafeCut(mark: char, items: seq<Item>, p: nat) returns (a: nat)
    requires p <= |Flat(mark, items)| && SafeAt(mark, Flat(mark, items), p)
    ensures a <= |items| && Flat(mark, items[..a]) == Flat(mark, items)[..p]
    ensures Flat(mark, items[a..]) == Flat(mark, items)[p..]
  {
    hide Flat, Decimal;
    FlatParts(mark, items);
    if p == 0 {
      a := 0;
      FlatParts(mark, items[..0]);
      assert items[0..] == items;
      return;
    }
    var s, first, rest := Flat(mark, items), Shown(mark, items[0]), Flat(mark, items[1..]);
    ShownIsTokenChars(mark, items[0]);
    assert p >= |first| by {
      assert forall k | 0 <= k < |first| :: s[k] == first[k];
    }
    var q := p - |first|;
    assert 0 < q < |rest| ==> rest[q - 1] == s[p - 1] && rest[q] == s[p];
    a := SafeCut(mark, items[1..], q);
    assert items[1..][..a] == items[..a + 1][1..] && items[1..][a..] == items[a + 1..];
    assert s[..p] == first + rest[..q] && s[p..] == rest[q..];
    a := a + 1;
    FlatParts(mark, items[..a]);
  }

  lemma FlatParts(mark: char, items: seq<Item>)
    ensures items == [] ==> Flat(mark, items) == []
    ensures items != [] ==> Flat(mark, items) == Shown(mark, items[0]) + Flat(mark, items[1..])
  {
  }

  lemma ShownIsTokenChars(mark: char, item: Item)
    ensures var s := Shown(mark, item);
            |s| == 1 || forall i | 0 <= i < |s| :: TokenChar(mark, s[i])
  {
  }

  /** One replacement: what it keeps of the text, and what it puts in. */
  datatype Piece = Kept(from: nat, to: nat) | Literal(text: string)

  type Edit = seq<Piece>

  predicate ValidPiece(mark: char, s: string, piece: Piece) {
    match piece
    case Kept(from, to) => from <= to <= |s| && SafeAt(mark, s, from) && SafeAt(mark, s, to)
    case Literal(text) => mark !in text
  }

  predicate ValidEdit(mark: char, s: string, edit: Edit) {
    forall i | 0 <= i < |edit| :: ValidPiece(mark, s, edit[i])
  }

  function Written(s: string, piece: Piece): string {
    match piece
    case Kept(from, to) => if from <= to <= |s| then s[from..to] else []
    case Literal(text) => text
  }

  function Apply(s: string, edit: Edit): string {
    if edit == [] then [] else Written(s, edit[0]) + Apply(s, edit[1..])
  }

  function AfterEdits(s: string, edits: seq<Edit>): string
    decreases |edits|
  {
    if edits == [] then s else AfterEdits(Apply(s, edits[0]), edits[1..])
  }

  /** Every edit cuts at safe places of the text it is applied to. */
  predicate ValidEdits(mark: char, s: string, edits: seq<Edit>)
    decreases |edits|
  {
    edits == [] || (ValidEdit(mark, s, edits[0]) && ValidEdits(mark, Apply(s, edits[0]), edits[1..]))
  }

  /** No token is made up. */
  predicate TokensFrom(items: seq<Item>, source: seq<Item>) {
    forall i | 0 <= i < |items| && items[i].Token? :: items[i] in source
  }

  function Chars(s: string): (items: seq<Item>)
    ensures |items| == |s| && forall i | 0 <= i < |s| :: items[i] == Char(s[i])
  {
    seq(|s|, i requires 0 <= i < |s| => Char(s[i]))
  }

  lemma {:induction false} FlatChars(mark: char, s: string)
    ensures Flat(mark, Chars(s)) == s
  {
    if s != [] {
      assert Chars(s)[1..] == Chars(s[1..]);
      FlatChars(mark, s[1..]);
    }
  }

  /** Between two safe cuts stands a stretch of items. */
  lemma {:induction false} SafeSlice(mark: char, items: seq<Item>, from: nat, to: nat) returns (a: nat, b: nat)
    requires Clean(mark, items) && ValidPiece(mark, Flat(mark, items), Kept(from, to))
    ensures a <= b <= |items| && Clean(mark, items[a..b]) && TokensFrom(items[a..b], items)
    ensures Flat(mark, items[a..b]) == Flat(mark, items)[from..to]
  {
    hide Flat, Shown;
    var s := Flat(mark, items);
    b := SafeCut(mark, items, to);
    var head := items[..b];
    assert Flat(mark, head) == s[..to];
    assert SafeAt(mark, s[..to], from);
    a := SafeCut(mark, head, from);
    assert head[a..] == items[a..b];
    assert s[..to][from..] == s[from..to];
    assert forall i | 0 <= i < b - a :: items[a..b][i] == items[a + i];
  }

  lemma PieceItems(mark: char, items: seq<Item>, piece: Piece) returns (out: seq<Item>)
    requires Clean(mark, items) && ValidPiece(mark, Flat(mark, items), piece)
    ensures Clean(mark, out) && TokensFrom(out, items)
    ensures Flat(mark, out) == Written(Flat(mark, items), piece)
    ensures Subsequence(TokensOf(out), TokensOf(items)) && (piece.Literal? ==> TokensOf(out) == [])
  {
    match piece {
      case Kept(from, to) =>
        var a, b := SafeSlice(mark, items, from, to);
        out := items[a..b];
        TokensOfSlice(items, a, b);
      case Literal(text) =>
        out := Chars(text);
        FlatChars(mark, text);
        NoTokens(out);
        SubsequenceSlice(TokensOf(items), 0, 0);
    }
  }

  /** How many stretches of the match a replacement keeps. */
  function KeptCount(edit: Edit): nat {
    if edit == [] then 0 else (if edit[0].Kept? then 1 else 0) + KeptCount(edit[1..])
  }

  lemma {:induction false} EditKeepsTokens(mark: char, items: seq<Item>, edit: Edit) returns (edited: seq<Item>)
    requires Clean(mark, items) && ValidEdit(mark, Flat(mark, items), edit)
    ensures Clean(mark, edited) && TokensFrom(edited, items)
    ensures Flat(mark, edited) == Apply(Flat(mark, items), edit)
    ensures KeptCount(edit) == 0 ==> TokensOf(edited) == []
    ensures KeptCount(edit) <= 1 ==> Subsequence(TokensOf(edited), TokensOf(items))
  {
    hide Flat, ValidPiece, TokensOf, Subsequence;
    if edit == [] {
      edited := [];
      NoEdit(mark, items);
      return;
    }
    var s := Flat(mark, items);
    assert ValidPiece(mark, s, edit[0]);
    var rest := EditKeepsTokens(mark, items, edit[1..]);
    var first := PieceItems(mark, items, edit[0]);
    FlatConcat(mark, first, rest);
    TokensConcat(first, rest);
    Empties(TokensOf(first), TokensOf(rest));
    edited := first + rest;
  }

  lemma NoEdit(mark: char, items: seq<Item>)
    ensures Flat(mark, []) == [] && TokensOf([]) == [] && Subsequence([], TokensOf(items))
  {
    SubsequenceSlice(TokensOf(items), 0, 0);
  }

  lemma Empties<T>(a: seq<T>, b: seq<T>)
    ensures (a == [] ==> a + b == b) && (b == [] ==> a + b == a)
  {
  }

  /** After any number of edits at safe places each surviving token is replaced by the body of the span that
      created it: what comes out is a text of characters and of tokens lifted before, spelled out. */
  lemma {:induction false} PlaceholderIdentity(mark: char, items: seq<Item>, edits: seq<Edit>, body: nat -> string)
    returns (edited: seq<Item>)
    requires Clean(mark, items) && ValidEdits(mark, Flat(mark, items), edits)
    ensures TokensFrom(edited, items) && Clean(mark, edited)
    ensures Flat(mark, edited) == AfterEdits(Flat(mark, items), edits)
    ensures Restore(mark, AfterEdits(Flat(mark, items), edits), body) == Spell(edited, body)
    decreases |edits|
  {
    if edits == [] {
      edited := items;
    } else {
      var once := EditKeepsTokens(mark, items, edits[0]);
      edited := PlaceholderIdentity(mark, once, edits[1..], body);
    }
    RestoreFlat(mark, edited, body);
    hide Restore, Spell, Flat;
  }

  // --------------------------------------------------------------- deleting

  /** Removing from an opening to a closing angle bracket. */
  function Delete(s: string, i: nat, j: nat): string
    requires i <= j <= |s|
  {
    s[..i] + s[j..]
  }

  predicate Bracketed(s: string, i: nat, j: nat) {
    i < j <= |s| && s[i] == '<' && s[j - 1] == '>'
  }

  datatype Range = Range(from: nat, to: nat)

  predicate AllBracketed(s: string, cuts: seq<Range>) {
    cuts == []
    || (Bracketed(s, cuts[0].from, cuts[0].to) && AllBracketed(Delete(s, cuts[0].from, cuts[0].to), cuts[1..]))
  }

  function AfterCuts(s: string, cuts: seq<Range>): string
    requires AllBracketed(s, cuts)
  {
    if cuts == [] then s else AfterCuts(Delete(s, cuts[0].from, cuts[0].to), cuts[1..])
  }

  /** a is b with some items left out: ks are the places that stayed. */
  ghost predicate Picks<T>(a: seq<T>, b: seq<T>, ks: seq<nat>) {
    && |ks| == |a| && (forall i, j | 0 <= i < j < |ks| :: ks[i] < ks[j])
    && forall i | 0 <= i < |ks| :: ks[i] < |b| && a[i] == b[ks[i]]
  }

  lemma DeleteItems(mark: char, items: seq<Item>, i: nat, j: nat) returns (left: seq<Item>, ks: seq<nat>)
    requires Clean(mark, items) && mark != '<' && mark != '>' && Bracketed(Flat(mark, items), i, j)
    ensures Clean(mark, left) && Picks(left, items, ks) && Flat(mark, left) == Delete(Flat(mark, items), i, j)
  {
    hide Flat, Shown;
    var s := Flat(mark, items);
    var b := SafeCut(mark, items, j);
    var head := items[..b];
    assert SafeAt(mark, s[..j], i);
    var a := SafeCut(mark, head, i);
    left := items[..a] + items[b..];
    assert head[..a] == items[..a] && s[..j][..i] == s[..i];
    FlatConcat(mark, items[..a], items[b..]);
    ks := Gap(items, a, b);
  }

  lemma Gap(items: seq<Item>, a: nat, b: nat) returns (ks: seq<nat>)
    requires a <= b <= |items|
    ensures Picks(items[..a] + items[b..], items, ks)
  {
    var left := items[..a] + items[b..];
    ks := seq(|left|, k requires 0 <= k < |left| => if k < a then k else b + k - a);
  }

  lemma PicksCompose<T>(a: seq<T>, b: seq<T>, c: seq<T>, ab: seq<nat>, bc: seq<nat>) returns (ac: seq<nat>)
    requires Picks(a, b, ab) && Picks(b, c, bc)
    ensures Picks(a, c, ac)
  {
    ac := seq(|ab|, i requires 0 <= i < |ab| => bc[ab[i]]);
  }

  /** After any deletions whose edges are angle brackets, what is restored is the lifted text with some of its
      items left out: the rest stands in its old order, every token as its own body, none swapped. */
  lemma {:induction false} DeletionsKeepTheRest(mark: char, items: seq<Item>, cuts: seq<Range>, body: nat -> string)
    returns (left: seq<Item>, ks: seq<nat>)
    requires Clean(mark, items) && mark != '<' && mark != '>' && AllBracketed(Flat(mark, items), cuts)
    ensures Picks(left, items, ks) && Clean(mark, left)
    ensures Flat(mark, left) == AfterCuts(Flat(mark, items), cuts)
    ensures Restore(mark, AfterCuts(Flat(mark, items), cuts), body) == Spell(left, body)
    decreases |cuts|
  {
    if cuts == [] {
      left, ks := items, seq(|items|, i => i);
      RestoreFlat(mark, items, body);
    } else {
      var once, first := DeleteItems(mark, items, cuts[0].from, cuts[0].to);
      var second: seq<nat>;
      left, second := DeletionsKeepTheRest(mark, once, cuts[1..], body);
      ks := PicksCompose(left, once, items, second, first);
    }
  }

  // --------------------------------------------------------- order of tokens

  /** The indices of the tokens, in the order they stand. */
  function TokensOf(items: seq<Item>): seq<nat> {
    if items == [] then [] else TokenOf(items[0]) + TokensOf(items[1..])
  }

  function TokenOf(item: Item): seq<nat> {
    if item.Token? then [item.index] else []
  }

  ghost predicate Subsequence<T>(a: seq<T>, b: seq<T>) {
    exists ks: seq<nat> :: Picks(a, b, ks)
  }

  lemma {:induction false} TokensConcat(a: seq<Item>, b: seq<Item>)
    ensures TokensOf(a + b) == TokensOf(a) + TokensOf(b)
  {
    if a == [] {
      assert a + b == b;
    } else {
      assert (a + b)[1..] == a[1..] + b;
      TokensConcat(a[1..], b);
      hide TokenOf;
      Assoc(TokenOf(a[0]), TokensOf(a[1..]), TokensOf(b));
    }
  }

  lemma {:induction false} NoTokens(items: seq<Item>)
    requires forall i | 0 <= i < |items| :: items[i].Char?
    ensures TokensOf(items) == []
  {
    if items != [] { NoTokens(items[1..]); }
  }

  lemma SubsequenceSlice<T>(b: seq<T>, i: nat, j: nat)
    requires i <= j <= |b|
    ensures Subsequence(b[i..j], b)
  {
    assert Picks(b[i..j], b, seq(j - i, k requires 0 <= k < j - i => i + k));
  }

  lemma TokensOfSlice(items: seq<Item>, i: nat, j: nat)
    requires i <= j <= |items|
    ensures TokensOf(items) == TokensOf(items[..i]) + TokensOf(items[i..j]) + TokensOf(items[j..])
    ensures Subsequence(TokensOf(items[i..j]), TokensOf(items))
  {
    hide TokensOf, Subsequence;
    ThreeParts(items, i, j);
    TokensOfThree(items[..i], items[i..j], items[j..]);
    MiddleIsSubsequence(TokensOf(items[..i]), TokensOf(items[i..j]), TokensOf(items[j..]));
  }

  lemma ThreeParts<T>(s: seq<T>, i: nat, j: nat)
    requires i <= j <= |s|
    ensures s == s[..i] + s[i..j] + s[j..]
  {
  }

  lemma TokensOfThree(a: seq<Item>, b: seq<Item>, c: seq<Item>)
    ensures TokensOf(a + b + c) == TokensOf(a) + TokensOf(b) + TokensOf(c)
  {
    TokensConcat(a + b, c);
    TokensConcat(a, b);
  }

  lemma MiddleIsSubsequence<T>(a: seq<T>, b: seq<T>, c: seq<T>)
    ensures Subsequence(b, a + b + c)
  {
    var all := a + b + c;
    hide Subsequence;
    assert all[|a|..|a| + |b|] == b;
    SubsequenceSlice(all, |a|, |a| + |b|);
  }

  lemma SubsequenceTrans<T>(a: seq<T>, b: seq<T>, c: seq<T>)
    requires Subsequence(a, b) && Subsequence(b, c)
    ensures Subsequence(a, c)
  {
    var ab: seq<nat> :| Picks(a, b, ab);
    var bc: seq<nat> :| Picks(b, c, bc);
    var ac := PicksCompose(a, b, c, ab, bc);
  }

  lemma SubsequenceConcat<T>(a: seq<T>, b: seq<T>, c: seq<T>, d: seq<T>)
    requires Subsequence(a, b) && Subsequence(c, d)
    ensures Subsequence(a + c, b + d)
  {
    var ab: seq<nat> :| Picks(a, b, ab);
    var cd: seq<nat> :| Picks(c, d, cd);
    var ks := seq(|a| + |c|, k requires 0 <= k < |a| + |c| => if k < |a| then ab[k] else |b| + cd[k - |a|]);
    assert Picks(a + c, b + d, ks);
  }
}

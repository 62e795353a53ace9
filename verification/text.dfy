/** JavaScript string operations the repository relies on: whitespace, `trim`, `split`, `join`
    and the decimal rendering of a number. Strings are sequences of code points. */
module Text {

  datatype Option<+T> = None | Some(value: T)

  datatype Result<+T, +E> = Ok(value: T) | Err(error: E)

  /** What `\s` matches and `trim` removes. */
  predicate IsWhite(c: char) {
    || '\t' <= c <= '\r' || c == ' ' || c == '\U{a0}' || c == '\U{1680}'
    || '\U{2000}' <= c <= '\U{200a}' || c == '\U{2028}' || c == '\U{2029}'
    || c == '\U{202f}' || c == '\U{205f}' || c == '\U{3000}' || c == '\U{feff}'
  }

  predicate Blank(s: string) {
    forall i | 0 <= i < |s| :: IsWhite(s[i])
  }

  function TrimStart(s: string): string {
    if s != [] && IsWhite(s[0]) then TrimStart(s[1..]) else s
  }

  lemma {:induction false} TrimStartShrinks(s: string)
    ensures |TrimStart(s)| <= |s|
    ensures s != [] && IsWhite(s[0]) ==> |TrimStart(s)| < |s|
    ensures TrimStart(s) != [] ==> !IsWhite(TrimStart(s)[0])
  {
    if s != [] && IsWhite(s[0]) { TrimStartShrinks(s[1..]); }
  }

  function TrimEnd(s: string): string {
    if s != [] && IsWhite(s[|s| - 1]) then TrimEnd(s[..|s| - 1]) else s
  }

  function Trim(s: string): string {
    TrimEnd(TrimStart(s))
  }

  /** `split` on a single character: never empty, and the pieces do not contain it. */
  function Split(s: string, sep: char): (r: seq<string>)
    ensures |r| >= 1
    ensures forall i | 0 <= i < |r| :: sep !in r[i]
  {
    if s == [] then [[]]
    else
      var rest := Split(s[1..], sep);
      if s[0] == sep then [[]] + rest else [[s[0]] + rest[0]] + rest[1..]
  }

  function Join(parts: seq<string>, sep: string): string {
    if |parts| == 0 then []
    else if |parts| == 1 then parts[0]
    else parts[0] + sep + Join(parts[1..], sep)
  }

  function Flatten<T>(parts: seq<seq<T>>): seq<T> {
    if parts == [] then [] else parts[0] + Flatten(parts[1..])
  }

  lemma {:induction false} FlattenConcat<T>(a: seq<seq<T>>, b: seq<seq<T>>)
    ensures Flatten(a + b) == Flatten(a) + Flatten(b)
  {
    if a == [] {
      assert a + b == b;
    } else {
      assert (a + b)[1..] == a[1..] + b;
      FlattenConcat(a[1..], b);
    }
  }

  lemma FlattenSnoc<T>(a: seq<seq<T>>, x: seq<T>)
    ensures Flatten(a + [x]) == Flatten(a) + x
  {
    FlattenConcat(a, [x]);
    assert Flatten([x]) == x + Flatten([]);
  }

  lemma {:induction false} TrimStartShape(s: string) returns (k: nat)
    ensures k <= |s| && TrimStart(s) == s[k..]
    ensures forall i | 0 <= i < k :: IsWhite(s[i])
    ensures k < |s| ==> !IsWhite(s[k])
  {
    if s != [] && IsWhite(s[0]) {
      k := TrimStartShape(s[1..]);
      assert s[1..][k..] == s[k + 1..];
      k := k + 1;
      assert forall i | 1 <= i < k :: s[i] == s[1..][i - 1];
    } else {
      k := 0;
    }
  }

  lemma {:induction false} TrimEndShape(s: string) returns (k: nat)
    ensures k <= |s| && TrimEnd(s) == s[..k]
    ensures forall i | k <= i < |s| :: IsWhite(s[i])
    ensures k > 0 ==> !IsWhite(s[k - 1])
  {
    if s != [] && IsWhite(s[|s| - 1]) {
      var t := s[..|s| - 1];
      k := TrimEndShape(t);
      assert t[..k] == s[..k];
      assert forall i | k <= i < |t| :: s[i] == t[i];
    } else {
      k := |s|;
    }
  }

  /** A trimmed string is the middle of the original, between two blank margins. */
  lemma TrimShape(s: string) returns (lo: nat, hi: nat)
    ensures lo <= hi <= |s| && Trim(s) == s[lo..hi]
    ensures forall i | 0 <= i < lo || hi <= i < |s| :: IsWhite(s[i])
    ensures lo < hi ==> !IsWhite(s[lo]) && !IsWhite(s[hi - 1])
    ensures (lo == hi) == Blank(s)
  {
    lo := TrimStartShape(s);
    var t := s[lo..];
    var k := TrimEndShape(t);
    hi := lo + k;
    assert forall i | hi <= i < |s| :: s[i] == t[i - lo];
    if k > 0 {
      assert t[k - 1] == s[hi - 1] && t[0] == s[lo];
    }
    assert t[..k] == s[lo..hi];
  }

  lemma {:induction false} TrimStartPast(w: string, s: string)
    requires Blank(w)
    ensures TrimStart(w + s) == TrimStart(s)
  {
    if w == [] {
      assert w + s == s;
    } else {
      assert IsWhite(w[0]) && (w + s)[1..] == w[1..] + s;
      TrimStartPast(w[1..], s);
    }
  }

  lemma TrimEmptyIffBlank(s: string)
    ensures Trim(s) == [] <==> Blank(s)
  {
    var lo, hi := TrimShape(s);
  }

  /** Trimming is determined by the unique non-white middle. */
  lemma {:induction false} TrimUnique(pre: string, mid: string, post: string)
    requires Blank(pre) && Blank(post)
    requires mid == [] || (!IsWhite(mid[0]) && !IsWhite(mid[|mid| - 1]))
    ensures Trim(pre + mid + post) == mid
  {
    var s := pre + mid + post;
    var lo, hi := TrimShape(s);
    if mid == [] {
      assert Blank(s);
    } else {
      var a, b := |pre|, |pre| + |mid|;
      assert s[a] == mid[0] && s[b - 1] == mid[|mid| - 1];
      assert forall i | 0 <= i < a :: s[i] == pre[i];
      assert forall i | b <= i < |s| :: s[i] == post[i - b];
      assert s[a..b] == mid;
    }
  }

  /** The lines of a text that carry something: each trimmed, blank ones dropped, in order. */
  function NonBlank(lines: seq<string>): seq<string> {
    if lines == [] then []
    else (if Blank(lines[0]) then [] else [Trim(lines[0])]) + NonBlank(lines[1..])
  }

  function Essence(s: string): seq<string> {
    NonBlank(Split(s, '\n'))
  }

  lemma {:induction false} NonBlankConcat(a: seq<string>, b: seq<string>)
    ensures NonBlank(a + b) == NonBlank(a) + NonBlank(b)
  {
    if a == [] {
      assert a + b == b;
    } else {
      assert (a + b)[1..] == a[1..] + b;
      NonBlankConcat(a[1..], b);
    }
  }

  lemma {:induction false} NonBlankOfBlank(a: seq<string>)
    requires forall i | 0 <= i < |a| :: Blank(a[i])
    ensures NonBlank(a) == []
  {
    if a != [] { NonBlankOfBlank(a[1..]); }
  }

  lemma SplitCons(c: char, s: string, sep: char)
    ensures Split([], sep) == [[]]
    ensures var rest := Split(s, sep);
            Split([c] + s, sep) == if c == sep then [[]] + rest else [[c] + rest[0]] + rest[1..]
  {
    assert ([c] + s)[1..] == s;
  }

  lemma {:induction false} SplitAt(a: string, sep: char, b: string)
    ensures Split(a + [sep] + b, sep) == Split(a, sep) + Split(b, sep)
  {
    hide Split;
    if a == [] {
      assert a + [sep] + b == [sep] + b;
      SplitCons(sep, b, sep);
    } else {
      var t := a[1..];
      SplitAt(t, sep, b);
      assert a + [sep] + b == [a[0]] + (t + [sep] + b) && a == [a[0]] + t;
      SplitCons(a[0], t + [sep] + b, sep);
      SplitCons(a[0], t, sep);
    }
  }

  lemma {:induction false} SplitOfOne(a: string, sep: char)
    requires sep !in a
    ensures Split(a, sep) == [a]
  {
    if a != [] {
      assert sep !in a[1..];
      SplitOfOne(a[1..], sep);
      assert [a[0]] + a[1..] == a;
    }
  }

  lemma {:induction false} SplitJoin(lines: seq<string>, sep: char)
    requires lines != [] && forall i | 0 <= i < |lines| :: sep !in lines[i]
    ensures Split(Join(lines, [sep]), sep) == lines
  {
    SplitOfOne(lines[0], sep);
    if |lines| > 1 {
      SplitJoin(lines[1..], sep);
      SplitAt(lines[0], sep, Join(lines[1..], [sep]));
      assert lines == [lines[0]] + lines[1..];
    } else {
      assert lines == [lines[0]];
    }
  }

  lemma {:induction false} JoinSplit(s: string, sep: char)
    ensures Join(Split(s, sep), [sep]) == s
  {
    if s != [] {
      JoinSplit(s[1..], sep);
      var rest := Split(s[1..], sep);
      if s[0] == sep {
        assert ([[]] + rest)[1..] == rest;
        assert [] + [sep] + Join(rest, [sep]) == s;
      } else {
        var all := [[s[0]] + rest[0]] + rest[1..];
        assert all[1..] == rest[1..];
        assert s == [s[0]] + Join(rest, [sep]);
      }
    }
  }

  lemma JoinEssence(lines: seq<string>)
    requires forall i | 0 <= i < |lines| :: '\n' !in lines[i]
    ensures Essence(Join(lines, "\n")) == NonBlank(lines)
  {
    if lines == [] {
      assert Split([], '\n') == [[]];
    } else {
      SplitJoin(lines, '\n');
    }
  }

  lemma EssenceConcat(a: string, b: string)
    ensures Essence(a + "\n" + b) == Essence(a) + Essence(b)
  {
    SplitAt(a, '\n', b);
    NonBlankConcat(Split(a, '\n'), Split(b, '\n'));
  }

  lemma TrimDropsFirst(c: char, s: string)
    requires IsWhite(c)
    ensures Trim([c] + s) == Trim(s) && (Blank([c] + s) <==> Blank(s))
  {
    assert ([c] + s)[1..] == s;
    TrimEmptyIffBlank(s);
    TrimEmptyIffBlank([c] + s);
  }

  lemma TrimDropsLast(s: string, c: char)
    requires IsWhite(c)
    ensures Trim(s + [c]) == Trim(s) && (Blank(s + [c]) <==> Blank(s))
  {
    var lo, hi := TrimShape(s);
    assert s + [c] == s[..lo] + s[lo..hi] + (s[hi..] + [c]);
    TrimUnique(s[..lo], s[lo..hi], s[hi..] + [c]);
    TrimEmptyIffBlank(s);
    TrimEmptyIffBlank(s + [c]);
  }

  lemma EssenceDropsFirst(c: char, s: string)
    requires IsWhite(c)
    ensures Essence([c] + s) == Essence(s)
  {
    assert ([c] + s)[1..] == s;
    var rest := Split(s, '\n');
    if c == '\n' {
      assert ([[]] + rest)[1..] == rest;
    } else {
      TrimDropsFirst(c, rest[0]);
      var all := [[c] + rest[0]] + rest[1..];
      assert all[1..] == rest[1..];
    }
  }

  lemma {:induction false} SplitSnoc(s: string, c: char, sep: char)
    requires c != sep
    ensures var r := Split(s, sep);
            Split(s + [c], sep) == r[..|r| - 1] + [r[|r| - 1] + [c]]
  {
    hide Split;
    if s == [] {
      assert s + [c] == [c] + [] && [c] + [] == [c];
      SplitCons(c, [], sep);
    } else {
      var t := s[1..];
      SplitSnoc(t, c, sep);
      assert s + [c] == [s[0]] + (t + [c]) && s == [s[0]] + t;
      SplitCons(s[0], t + [c], sep);
      SplitCons(s[0], t, sep);
      var q := Split(t, sep);
      assert [s[0]] + (q[0] + [c]) == [s[0]] + q[0] + [c];
    }
  }

  lemma EssenceDropsLast(s: string, c: char)
    requires IsWhite(c)
    ensures Essence(s + [c]) == Essence(s)
  {
    if c == '\n' {
      EssenceConcat(s, []);
      assert s + "\n" + [] == s + [c];
      assert Split([], '\n') == [[]];
    } else {
      SplitSnoc(s, c, '\n');
      var r := Split(s, '\n');
      var init, last := r[..|r| - 1], r[|r| - 1];
      TrimDropsLast(last, c);
      assert r == init + [last];
      NonBlankConcat(init, [last]);
      NonBlankConcat(init, [last + [c]]);
    }
  }

  lemma {:induction false} EssenceTrimStart(s: string)
    ensures Essence(TrimStart(s)) == Essence(s)
  {
    hide Essence;
    if s != [] && IsWhite(s[0]) {
      EssenceTrimStart(s[1..]);
      EssenceDropsFirst(s[0], s[1..]);
      assert [s[0]] + s[1..] == s;
    }
  }

  lemma {:induction false} EssenceTrimEnd(s: string)
    ensures Essence(TrimEnd(s)) == Essence(s)
  {
    hide Essence;
    if s != [] && IsWhite(s[|s| - 1]) {
      EssenceTrimEnd(s[..|s| - 1]);
      EssenceDropsLast(s[..|s| - 1], s[|s| - 1]);
      assert s[..|s| - 1] + [s[|s| - 1]] == s;
    }
  }

  /** Trimming a whole text loses no non-blank line and changes none once lines are trimmed. */
  lemma EssenceOfTrim(s: string)
    ensures Essence(Trim(s)) == Essence(s)
  {
    EssenceTrimStart(s);
    EssenceTrimEnd(TrimStart(s));
  }

  lemma {:induction false} JoinBlank(lines: seq<string>)
    requires Blank(Join(lines, ""))
    ensures forall i | 0 <= i < |lines| :: Blank(lines[i])
  {
    if |lines| > 1 {
      var all := Join(lines, "");
      var tail := Join(lines[1..], "");
      assert all == lines[0] + tail;
      assert forall i | 0 <= i < |lines[0]| :: lines[0][i] == all[i];
      assert forall i | 0 <= i < |tail| :: tail[i] == all[|lines[0]| + i];
      JoinBlank(lines[1..]);
      assert forall i | 1 <= i < |lines| :: lines[i] == lines[1..][i - 1];
    } else if |lines| == 1 {
      assert Join(lines, "") == lines[0];
    }
  }

  /** Where a piece of a join lies: the join is what precedes it, the piece, what follows. */
  lemma {:induction false} JoinConcat(a: seq<string>, b: seq<string>, sep: string)
    requires a != [] && b != []
    ensures Join(a + b, sep) == Join(a, sep) + sep + Join(b, sep)
  {
    if |a| == 1 {
      assert (a + b)[1..] == b;
    } else {
      assert (a + b)[1..] == a[1..] + b;
      JoinConcat(a[1..], b, sep);
    }
  }

  // ------------------------------------------------------------- selections

  /** The places of these, in order. */
  predicate Places(selected: seq<bool>, ks: seq<nat>) {
    && (forall i, j | 0 <= i < j < |ks| :: ks[i] < ks[j])
    && (forall i | 0 <= i < |ks| :: ks[i] < |selected| && selected[ks[i]])
    && (forall k: nat | k < |selected| && selected[k] :: k in ks)
  }

  lemma OneMorePlace(selected: seq<bool>, last: bool, ks: seq<nat>)
    requires Places(selected, ks)
    ensures Places(selected + [last], if last then ks + [|selected|] else ks)
  {
    var more, n := selected + [last], |selected|;
    assert forall k | 0 <= k < n :: more[k] == selected[k];
    if last {
      assert (ks + [n])[|ks|] == n;
      assert forall k | k in ks :: k in ks + [n];
    }
  }

  predicate OccursAt(needle: string, hay: string, i: nat) {
    i + |needle| <= |hay| && forall k | 0 <= k < |needle| :: hay[i + k] == needle[k]
  }

  /** `needle` occurs in `hay` as consecutive characters. */
  ghost predicate Within(needle: string, hay: string) {
    exists i: nat :: OccursAt(needle, hay, i)
  }

  lemma WithinIntro(pre: string, needle: string, post: string)
    ensures Within(needle, pre + needle + post)
  {
    assert OccursAt(needle, pre + needle + post, |pre|);
  }

  lemma WithinTransitive(a: string, b: string, c: string)
    requires Within(a, b) && Within(b, c)
    ensures Within(a, c)
  {
    var i: nat :| OccursAt(a, b, i);
    var j: nat :| OccursAt(b, c, j);
    assert forall k | 0 <= k < |a| :: c[j + (i + k)] == b[i + k] == a[k];
    assert OccursAt(a, c, j + i);
  }

  /** Trimming the container cannot cut a needle that starts and ends on non-white characters. */
  lemma WithinSurvivesTrim(needle: string, hay: string)
    requires Within(needle, hay) && needle != []
    requires !IsWhite(needle[0]) && !IsWhite(needle[|needle| - 1])
    ensures Within(needle, Trim(hay))
  {
    var i: nat :| OccursAt(needle, hay, i);
    var lo, hi := TrimShape(hay);
    var last := i + |needle| - 1;
    assert hay[i + 0] == needle[0] && hay[last] == needle[|needle| - 1];
    assert forall k | 0 <= k < |needle| :: hay[lo..hi][i - lo + k] == hay[i + k] == needle[k];
    assert OccursAt(needle, Trim(hay), i - lo);
  }

  // ------------------------------------------------------------- numbers

  predicate IsDigit(c: char) {
    '0' <= c <= '9'
  }

  function DigitChar(d: nat): (c: char)
    requires d < 10
    ensures IsDigit(c) && c as int - '0' as int == d
  {
    (d + '0' as int) as char
  }

  /** A number as JavaScript renders it in a template. */
  function Decimal(n: nat): (r: string)
    ensures r != [] && forall i | 0 <= i < |r| :: IsDigit(r[i])
  {
    if n < 10 then [DigitChar(n)] else Decimal(n / 10) + [DigitChar(n % 10)]
  }

  function DecimalValue(s: string): nat
    requires forall i | 0 <= i < |s| :: IsDigit(s[i])
  {
    if s == [] then 0
    else
      assert IsDigit(s[|s| - 1]);
      10 * DecimalValue(s[..|s| - 1]) + (s[|s| - 1] as int - '0' as int)
  }

  lemma {:induction false} DecimalRoundTrip(n: nat)
    ensures DecimalValue(Decimal(n)) == n
  {
    if n < 10 {
      assert Decimal(n)[..0] == [];
    } else {
      DecimalRoundTrip(n / 10);
      assert Decimal(n)[..|Decimal(n)| - 1] == Decimal(n / 10);
    }
  }

  /** No zero leads, but in the text of zero. */
  lemma {:induction false} NoLeadingZero(n: nat)
    ensures n > 0 ==> Decimal(n)[0] != '0'
    ensures n == 0 ==> Decimal(n) == "0"
  {
    if n >= 10 { NoLeadingZero(n / 10); }
  }
}

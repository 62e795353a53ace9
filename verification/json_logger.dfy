/** `safeStringify`, its replacer and the walk `JSON.stringify` drives it with, over any finite object graph. */
module JsonLogger {
  import opened Text

  type Ref = nat

  /** Undefined also stands for what JSON has no text for, such as a function; Hostile for a getter or a `toJSON`
      that throws. */
  datatype Value =
    | Primitive(text: string) | BigInt(value: int) | Undefined | Reference(ref: Ref) | Hostile(error: string)

  datatype Field = Field(name: string, value: Value)

  /** Objects by identity, each with its fields (or elements) in order. */
  type Heap = map<Ref, seq<Field>>

  /** What is written out; Circular is the text '[circular]'; a member that is Missing is left out of an object and
      is null in an array. */
  datatype Tree = Leaf(text: string) | Circular | Missing | Object(fields: seq<Member>)

  datatype Member = Member(name: string, tree: Tree)

  /** Every reference leads somewhere. */
  predicate Closed(heap: Heap) {
    forall r, i | r in heap && 0 <= i < |heap[r]| && heap[r][i].value.Reference? :: heap[r][i].value.ref in heap
  }

  predicate KnownIn(heap: Heap, v: Value) {
    v.Reference? ==> v.ref in heap
  }

  function IntText(n: int): string {
    if n < 0 then "-" + Decimal(-n) else Decimal(n)
  }

  function Elements(path: seq<Ref>): set<Ref> {
    set r | r in path
  }

  // ------------------------------------------------- the walk, by its path

  /** What should be written at a value reached along this path of enclosing objects. */
  function Walk(heap: Heap, v: Value, path: seq<Ref>): Tree
    requires Closed(heap) && KnownIn(heap, v)
    decreases heap.Keys - Elements(path), 1, 0
  {
    match v
    case Primitive(text) => Leaf(text)
    case BigInt(n) => Leaf(IntText(n))
    case Hostile(_) => Leaf([])
    case Undefined => Missing
    case Reference(r) =>
      if r in path then Circular
      else
        assert r in heap.Keys - Elements(path) && r !in heap.Keys - Elements(path + [r]);
        Object(WalkFields(heap, r, |heap[r]|, path + [r]))
  }

  /** The first n fields of object r, which ends the path. */
  function WalkFields(heap: Heap, r: Ref, n: nat, path: seq<Ref>): (members: seq<Member>)
    requires Closed(heap) && r in heap && n <= |heap[r]|
    ensures |members| == n
    decreases heap.Keys - Elements(path), 2, n
  {
    if n == 0 then []
    else
      WalkFields(heap, r, n - 1, path) + [Member(heap[r][n - 1].name, Walk(heap, heap[r][n - 1].value, path))]
  }

  /** What the walk throws: the first error it meets, in the order it meets them. */
  function FirstError(heap: Heap, v: Value, path: seq<Ref>): Option<string>
    requires Closed(heap) && KnownIn(heap, v)
    decreases heap.Keys - Elements(path), 1, 0
  {
    match v
    case Hostile(e) => Some(e)
    case Reference(r) =>
      if r in path then None
      else
        assert r in heap.Keys - Elements(path) && r !in heap.Keys - Elements(path + [r]);
        FieldsError(heap, r, |heap[r]|, path + [r])
    case _ => None
  }

  function FieldsError(heap: Heap, r: Ref, n: nat, path: seq<Ref>): Option<string>
    requires Closed(heap) && r in heap && n <= |heap[r]|
    decreases heap.Keys - Elements(path), 2, n
  {
    if n == 0 then None
    else
      var before := FieldsError(heap, r, n - 1, path);
      if before.Some? then before else FirstError(heap, heap[r][n - 1].value, path)
  }

  lemma {:induction false} ErrorStays(heap: Heap, r: Ref, k: nat, n: nat, path: seq<Ref>)
    requires Closed(heap) && r in heap && k <= n <= |heap[r]| && FieldsError(heap, r, k, path).Some?
    ensures FieldsError(heap, r, n, path) == FieldsError(heap, r, k, path)
    decreases n - k
  {
    if k < n { ErrorStays(heap, r, k, n - 1, path); }
  }

  // --------------------------------------------------------- the replacer

  predicate NoRepeat(path: seq<Ref>) {
    forall i, j | 0 <= i < j < |path| :: path[i] != path[j]
  }

  datatype Replaced = Text(text: string) | Nothing | Cut | Enter(ref: Ref)

  /** One mutable stack for the whole walk. */
  class Replacer {
    var ancestors: seq<Ref>

    constructor ()
      ensures ancestors == []
    {
      ancestors := [];
    }

    /** `holder` is the object the value was found in, None for the wrapper around the root. */
    method Replace(holder: Option<Ref>, value: Value, ghost path: seq<Ref>) returns (r: Replaced)
      requires NoRepeat(ancestors) && path <= ancestors && !value.Hostile?
      requires holder == if path == [] then None else Some(path[|path| - 1])
      modifies this
      ensures NoRepeat(ancestors) && path <= ancestors
      ensures match value
              case Primitive(text) => r == Text(text)
              case BigInt(n) => r == Text(IntText(n))
              case Undefined => r == Nothing
              case Reference(ref) =>
                if ref in path then r == Cut else r == Enter(ref) && path + [ref] <= ancestors
    {
      match value {
        case Primitive(text) => return Text(text);
        case BigInt(n) => return Text(IntText(n));
        case Undefined => return Nothing;
        case Reference(ref) =>
          while |ancestors| > 0 && holder != Some(ancestors[|ancestors| - 1])
            invariant path <= ancestors && NoRepeat(ancestors)
            decreases |ancestors|
          {
            ancestors := ancestors[..|ancestors| - 1];
          }
          assert ancestors == path;
          if ref in ancestors {
            return Cut;
          }
          ancestors := ancestors + [ref];
          return Enter(ref);
      }
    }
  }

  /** `JSON.stringify(value, circularSafeReplacer())`, below the object `holder`. */
  method Serialize(heap: Heap, replacer: Replacer, holder: Option<Ref>, value: Value, ghost path: seq<Ref>)
    returns (r: Result<Tree, string>)
    requires Closed(heap) && KnownIn(heap, value)
    requires NoRepeat(replacer.ancestors) && path <= replacer.ancestors
    requires holder == if path == [] then None else Some(path[|path| - 1])
    modifies replacer
    ensures NoRepeat(replacer.ancestors) && path <= replacer.ancestors
    ensures r == match FirstError(heap, value, path)
                 case Some(e) => Err(e)
                 case None => Ok(Walk(heap, value, path))
    decreases heap.Keys - Elements(path), 1, 0
  {
    if value.Hostile? {
      return Err(value.error);
    }
    var replaced := replacer.Replace(holder, value, path);
    match replaced {
      case Text(text) => return Ok(Leaf(text));
      case Nothing => return Ok(Missing);
      case Cut => return Ok(Circular);
      case Enter(ref) =>
        assert ref in heap.Keys - Elements(path) && ref !in heap.Keys - Elements(path + [ref]);
        var members := SerializeFields(heap, replacer, ref, path + [ref]);
        if members.Err? {
          return Err(members.error);
        }
        return Ok(Object(members.value));
    }
  }

  method SerializeFields(heap: Heap, replacer: Replacer, ref: Ref, ghost path: seq<Ref>)
    returns (r: Result<seq<Member>, string>)
    requires Closed(heap) && ref in heap && path != [] && path[|path| - 1] == ref
    requires NoRepeat(replacer.ancestors) && path <= replacer.ancestors
    modifies replacer
    ensures NoRepeat(replacer.ancestors) && path <= replacer.ancestors
    ensures r == match FieldsError(heap, ref, |heap[ref]|, path)
                 case Some(e) => Err(e)
                 case None => Ok(WalkFields(heap, ref, |heap[ref]|, path))
    decreases heap.Keys - Elements(path), 2, 0
  {
    var members: seq<Member> := [];
    for i := 0 to |heap[ref]|
      invariant NoRepeat(replacer.ancestors) && path <= replacer.ancestors
      invariant FieldsError(heap, ref, i, path).None? && members == WalkFields(heap, ref, i, path)
    {
      var tree := Serialize(heap, replacer, Some(ref), heap[ref][i].value, path);
      if tree.Err? {
        ErrorStays(heap, ref, i + 1, |heap[ref]|, path);
        return Err(tree.error);
      }
      members := members + [Member(heap[ref][i].name, tree.value)];
    }
    return Ok(members);
  }

  /** What one log call writes: its record, or the line that says why it could not. */
  datatype Line = Written(tree: Tree) | Fallback(ts: string, context: string, requestId: Option<string>, msg: string)

  datatype LogRecord = LogRecord(ref: Ref, level: string, context: string, requestId: Option<string>)

  /** A whole record: the stack starts empty, and what is left on it afterwards is never looked at. Whatever the
      record holds there is a line. */
  method SafeStringify(heap: Heap, record: LogRecord, now: string) returns (line: Line)
    requires Closed(heap) && record.ref in heap
    ensures line == match FirstError(heap, Reference(record.ref), [])
                    case Some(e) =>
                      Fallback(now, record.context, record.requestId,
                               "failed to serialise log record (level " + record.level + "): " + e)
                    case None => Written(Walk(heap, Reference(record.ref), []))
  {
    var replacer := new Replacer();
    var r := Serialize(heap, replacer, None, Reference(record.ref), []);
    if r.Err? {
      return Fallback(now, record.context, record.requestId,
                      "failed to serialise log record (level " + record.level + "): " + r.error);
    }
    return Written(r.value);
  }

  // ------------------------------------------------------- what is written

  predicate HasCircular(t: Tree)
    decreases t
  {
    match t
    case Leaf(_) => false
    case Circular => true
    case Missing => false
    case Object(ms) => exists i | 0 <= i < |ms| :: HasCircular(ms[i].tree)
  }

  /** The tree writes the value out in full: every reference, shared or not, with all its fields in order. */
  predicate Spells(heap: Heap, t: Tree, v: Value)
    decreases t
  {
    match t
    case Leaf(text) => v == Primitive(text) || (v.BigInt? && text == IntText(v.value))
    case Circular => false
    case Missing => v.Undefined?
    case Object(ms) =>
      && v.Reference? && v.ref in heap && |ms| == |heap[v.ref]|
      && forall i | 0 <= i < |ms| :: ms[i].name == heap[v.ref][i].name && Spells(heap, ms[i].tree, heap[v.ref][i].value)
  }

  predicate PointsTo(heap: Heap, a: Ref, b: Ref) {
    a in heap && exists i :: 0 <= i < |heap[a]| && heap[a][i].value == Reference(b)
  }

  predicate IsPath(heap: Heap, p: seq<Ref>) {
    p != [] && forall i | 0 < i < |p| :: PointsTo(heap, p[i - 1], p[i])
  }

  /** From this object a path leads back onto itself. */
  ghost predicate ReachesCycle(heap: Heap, r: Ref) {
    exists p :: IsPath(heap, p) && p[0] == r && !NoRepeat(p)
  }

  lemma {:induction false} FieldAt(heap: Heap, r: Ref, n: nat, path: seq<Ref>, i: nat)
    requires Closed(heap) && r in heap && i < n <= |heap[r]|
    ensures WalkFields(heap, r, n, path)[i] == Member(heap[r][i].name, Walk(heap, heap[r][i].value, path))
    decreases n
  {
    if i < n - 1 {
      FieldAt(heap, r, n - 1, path, i);
    }
  }

  lemma ErrorAt(heap: Heap, r: Ref, n: nat, path: seq<Ref>, i: nat)
    requires Closed(heap) && r in heap && i < n <= |heap[r]|
    ensures FieldsError(heap, r, n, path).None? ==> FirstError(heap, heap[r][i].value, path).None?
  {
    if FieldsError(heap, r, i + 1, path).Some? {
      ErrorStays(heap, r, i + 1, n, path);
    }
  }

  /** Without the marker nothing is missing. */
  lemma {:induction false} WithoutMarkerInFull(heap: Heap, v: Value, path: seq<Ref>)
    requires Closed(heap) && KnownIn(heap, v) && !HasCircular(Walk(heap, v, path)) && FirstError(heap, v, path).None?
    ensures Spells(heap, Walk(heap, v, path), v)
    decreases heap.Keys - Elements(path)
  {
    if v.Reference? {
      var r, n := v.ref, |heap[v.ref]|;
      var inside := path + [r];
      assert r in heap.Keys - Elements(path) && r !in heap.Keys - Elements(inside);
      var ms := WalkFields(heap, r, n, inside);
      forall i | 0 <= i < n
        ensures ms[i].name == heap[r][i].name && Spells(heap, ms[i].tree, heap[r][i].value)
      {
        FieldAt(heap, r, n, inside, i);
        ErrorAt(heap, r, n, inside, i);
        assert !HasCircular(ms[i].tree);
        WithoutMarkerInFull(heap, heap[r][i].value, inside);
      }
    }
  }

  lemma PathSnoc(heap: Heap, p: seq<Ref>, b: Ref)
    requires p != [] && IsPath(heap, p) && PointsTo(heap, p[|p| - 1], b)
    ensures IsPath(heap, p + [b])
  {
    hide PointsTo;
  }

  /** A marker was written because of a path that comes back onto itself. */
  lemma {:induction false} MarkerShowsCycle(heap: Heap, r: Ref, path: seq<Ref>) returns (p: seq<Ref>)
    requires Closed(heap) && r in heap && IsPath(heap, path + [r])
    requires HasCircular(Walk(heap, Reference(r), path))
    ensures IsPath(heap, p) && path + [r] <= p && !NoRepeat(p)
    decreases heap.Keys - Elements(path)
  {
    var inside := path + [r];
    if r in path {
      var i :| 0 <= i < |path| && path[i] == r;
      assert inside[i] == inside[|path|];
      return inside;
    }
    assert r in heap.Keys - Elements(path) && r !in heap.Keys - Elements(inside);
    var n := |heap[r]|;
    var ms := WalkFields(heap, r, n, inside);
    var i :| 0 <= i < n && HasCircular(ms[i].tree);
    FieldAt(heap, r, n, inside, i);
    var b := heap[r][i].value.ref;
    PathSnoc(heap, inside, b);
    p := MarkerShowsCycle(heap, b, inside);
  }

  /** Wherever the rest of a path runs into its beginning, the marker is written. */
  lemma {:induction false} CycleShowsMarker(heap: Heap, path: seq<Ref>, rest: seq<Ref>)
    requires Closed(heap) && NoRepeat(path) && rest != [] && rest[0] in heap
    requires IsPath(heap, path + rest) && !NoRepeat(path + rest)
    ensures HasCircular(Walk(heap, Reference(rest[0]), path))
    decreases |rest|
  {
    var r := rest[0];
    if r !in path {
      var inside, more := path + [r], rest[1..];
      assert path + rest == inside + more;
      assert inside + [] == inside;
      assert PointsTo(heap, (path + rest)[|path|], (path + rest)[|path| + 1]);
      var i :| 0 <= i < |heap[r]| && heap[r][i].value == Reference(more[0]);
      CycleShowsMarker(heap, inside, more);
      FieldAt(heap, r, |heap[r]|, inside, i);
      assert HasCircular(WalkFields(heap, r, |heap[r]|, inside)[i].tree);
    }
  }

  lemma NotEmpty(heap: Heap, p: seq<Ref>)
    requires IsPath(heap, p)
    ensures p != [] && NoRepeat([])
  {
  }

  /** The marker appears exactly when a cycle can be reached; otherwise, if nothing throws, every reference is
      written out in full, an object shared by two branches twice. */
  lemma MarkerIffCycle(heap: Heap, r: Ref)
    requires Closed(heap) && r in heap
    ensures HasCircular(Walk(heap, Reference(r), [])) <==> ReachesCycle(heap, r)
    ensures !ReachesCycle(heap, r) && FirstError(heap, Reference(r), []).None? ==>
              Spells(heap, Walk(heap, Reference(r), []), Reference(r))
  {
    assert IsPath(heap, [r]);
    hide IsPath, HasCircular, Walk, Spells, NoRepeat, Closed;
    if HasCircular(Walk(heap, Reference(r), [])) {
      assert [] + [r] == [r];
      var p := MarkerShowsCycle(heap, r, []);
      assert p[0] == r;
    } else if FirstError(heap, Reference(r), []).None? {
      WithoutMarkerInFull(heap, Reference(r), []);
    }
    if ReachesCycle(heap, r) {
      var p :| IsPath(heap, p) && p[0] == r && !NoRepeat(p);
      NotEmpty(heap, p);
      assert [] + p == p;
      CycleShowsMarker(heap, [], p);
    }
  }

  // ------------------------------------------------------- the fallback line

  predicate HoldsHostile(heap: Heap, a: Ref) {
    a in heap && exists i :: 0 <= i < |heap[a]| && heap[a][i].value.Hostile?
  }

  /** From this object a path leads to one with a field that throws. */
  ghost predicate ReachesHostile(heap: Heap, r: Ref) {
    exists p :: IsPath(heap, p) && p[0] == r && HoldsHostile(heap, p[|p| - 1])
  }

  lemma {:induction false} ErrorHasField(heap: Heap, r: Ref, n: nat, path: seq<Ref>) returns (i: nat)
    requires Closed(heap) && r in heap && n <= |heap[r]| && FieldsError(heap, r, n, path).Some?
    ensures i < n && FirstError(heap, heap[r][i].value, path).Some?
    decreases n
  {
    if FieldsError(heap, r, n - 1, path).Some? {
      i := ErrorHasField(heap, r, n - 1, path);
    } else {
      i := n - 1;
    }
  }

  lemma {:induction false} ErrorShowsHostile(heap: Heap, r: Ref, path: seq<Ref>) returns (p: seq<Ref>)
    requires Closed(heap) && r in heap && FirstError(heap, Reference(r), path).Some?
    ensures IsPath(heap, p) && p[0] == r && HoldsHostile(heap, p[|p| - 1])
    decreases heap.Keys - Elements(path)
  {
    var inside := path + [r];
    assert r in heap.Keys - Elements(path) && r !in heap.Keys - Elements(inside);
    var i := ErrorHasField(heap, r, |heap[r]|, inside);
    var v := heap[r][i].value;
    if v.Hostile? {
      p := [r];
    } else {
      var rest := ErrorShowsHostile(heap, v.ref, inside);
      assert PointsTo(heap, r, v.ref);
      p := [r] + rest;
      PathCons(heap, r, rest);
    }
  }

  lemma PathCons(heap: Heap, r: Ref, rest: seq<Ref>)
    requires IsPath(heap, rest) && PointsTo(heap, r, rest[0])
    ensures IsPath(heap, [r] + rest)
  {
    hide PointsTo;
    var p := [r] + rest;
    forall i | 0 < i < |p|
      ensures PointsTo(heap, p[i - 1], p[i])
    {
      assert i > 1 ==> PointsTo(heap, rest[i - 2], rest[i - 1]);
    }
  }

  /** A loop in a path can be left out. */
  lemma {:induction false} Straightened(heap: Heap, p: seq<Ref>) returns (q: seq<Ref>)
    requires IsPath(heap, p)
    ensures IsPath(heap, q) && NoRepeat(q) && q[0] == p[0] && q[|q| - 1] == p[|p| - 1]
    decreases |p|
  {
    hide PointsTo;
    if NoRepeat(p) {
      return p;
    }
    var i, j :| 0 <= i < j < |p| && p[i] == p[j];
    var shorter := p[..i] + p[j..];
    forall k | 0 < k < |shorter|
      ensures PointsTo(heap, shorter[k - 1], shorter[k])
    {
      assert k < i ==> PointsTo(heap, p[k - 1], p[k]);
      assert k == i ==> PointsTo(heap, p[i - 1], p[i]);
      assert k > i ==> PointsTo(heap, p[j + (k - i) - 1], p[j + (k - i)]);
    }
    q := Straightened(heap, shorter);
  }

  lemma {:induction false} HostileShowsError(heap: Heap, path: seq<Ref>, rest: seq<Ref>)
    requires Closed(heap) && rest != [] && rest[0] in heap && NoRepeat(path + rest)
    requires IsPath(heap, rest) && HoldsHostile(heap, rest[|rest| - 1])
    ensures FirstError(heap, Reference(rest[0]), path).Some?
    decreases |rest|
  {
    var r := rest[0];
    var inside := path + [r];
    assert r !in path by {
      assert (path + rest)[|path|] == r && forall i | 0 <= i < |path| :: (path + rest)[i] == path[i];
    }
    if |rest| == 1 {
      var i :| 0 <= i < |heap[r]| && heap[r][i].value.Hostile?;
      ErrorAt(heap, r, |heap[r]|, inside, i);
    } else {
      var more := rest[1..];
      assert path + rest == inside + more;
      assert PointsTo(heap, rest[0], rest[1]);
      var i :| 0 <= i < |heap[r]| && heap[r][i].value == Reference(more[0]);
      assert forall k | 0 < k < |more| :: more[k - 1] == rest[k] && more[k] == rest[k + 1];
      HostileShowsError(heap, inside, more);
      ErrorAt(heap, r, |heap[r]|, inside, i);
    }
  }

  /** The fallback line is written exactly when something that throws can be reached, in a cycle or not; every
      other record is written as it is. */
  lemma FallbackIff(heap: Heap, r: Ref)
    requires Closed(heap) && r in heap
    ensures FirstError(heap, Reference(r), []).Some? <==> ReachesHostile(heap, r)
  {
    hide FirstError, PointsTo, HoldsHostile, Closed;
    if FirstError(heap, Reference(r), []).Some? {
      var p := ErrorShowsHostile(heap, r, []);
    }
    if ReachesHostile(heap, r) {
      var p :| IsPath(heap, p) && p[0] == r && HoldsHostile(heap, p[|p| - 1]);
      NotEmpty(heap, p);
      var q := Straightened(heap, p);
      NotEmpty(heap, q);
      assert [] + q == q;
      HostileShowsError(heap, [], q);
    }
  }

  // ------------------------------------------------- cycles and order

  /** The tree writes the value out, cut exactly at the references to objects it is inside of. */
  predicate SpellsCut(heap: Heap, t: Tree, v: Value, path: seq<Ref>)
    decreases t
  {
    match t
    case Leaf(text) => v == Primitive(text) || (v.BigInt? && text == IntText(v.value))
    case Circular => v.Reference? && v.ref in path
    case Missing => v.Undefined?
    case Object(ms) =>
      && v.Reference? && v.ref !in path && v.ref in heap && |ms| == |heap[v.ref]|
      && forall i | 0 <= i < |ms| ::
           ms[i].name == heap[v.ref][i].name && SpellsCut(heap, ms[i].tree, heap[v.ref][i].value, path + [v.ref])
  }

  /** What is written in the presence of cycles: everything, cut at the first object met again on its own path. */
  lemma {:induction false} WalkSpells(heap: Heap, v: Value, path: seq<Ref>)
    requires Closed(heap) && KnownIn(heap, v) && FirstError(heap, v, path).None?
    ensures SpellsCut(heap, Walk(heap, v, path), v, path)
    decreases heap.Keys - Elements(path)
  {
    if v.Reference? && v.ref !in path {
      var r := v.ref;
      assert r in heap.Keys - Elements(path) && r !in heap.Keys - Elements(path + [r]);
      forall i | 0 <= i < |heap[r]|
        ensures var m := Walk(heap, v, path).fields[i];
                m.name == heap[r][i].name && SpellsCut(heap, m.tree, heap[r][i].value, path + [r])
      {
        FieldAt(heap, r, |heap[r]|, path + [r], i);
        ErrorAt(heap, r, |heap[r]|, path + [r], i);
        WalkSpells(heap, heap[r][i].value, path + [r]);
      }
    }
  }

  /** The error reported is that of the first field that has one, and within it of the first again. */
  lemma {:induction false} FirstErrorIsFirst(heap: Heap, r: Ref, n: nat, path: seq<Ref>, e: string)
    requires Closed(heap) && r in heap && n <= |heap[r]|
    ensures FieldsError(heap, r, n, path) == Some(e) <==>
            exists i | 0 <= i < n ::
              FirstError(heap, heap[r][i].value, path) == Some(e)
              && forall k | 0 <= k < i :: FirstError(heap, heap[r][k].value, path).None?
    ensures FieldsError(heap, r, n, path).None? <==>
            forall k | 0 <= k < n :: FirstError(heap, heap[r][k].value, path).None?
    decreases n
  {
    hide FirstError;
    if n > 0 {
      FirstErrorIsFirst(heap, r, n - 1, path, e);
      if FieldsError(heap, r, n - 1, path).Some? {
        FirstErrorIsFirst(heap, r, n - 1, path, FieldsError(heap, r, n - 1, path).value);
      }
    }
  }

  /** A big integer is written so that it can be read back. */
  lemma IntTextReads(n: int)
    ensures n >= 0 ==> DecimalValue(Decimal(n)) == n && IntText(n) == Decimal(n)
    ensures n < 0 ==> DecimalValue(Decimal(-n)) == -n && IntText(n) == "-" + Decimal(-n)
  {
    DecimalRoundTrip(if n < 0 then -n else n);
  }
}

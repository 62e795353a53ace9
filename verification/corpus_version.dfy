/** `CorpusVersion.current()`: how many sources are ready and when the newest of them was written. */
module CorpusVersion {
  import opened Text
  import opened Repository

  /** What retrieval can see: the ready rows, each with its documents and chunks. */
  function Corpus(db: Db): map<nat, Source> {
    map id | id in db.rows && db.rows[id].status == Ready :: db.rows[id]
  }

  ghost function Newest(rows: map<nat, Source>): (r: Option<nat>)
    ensures r.None? <==> rows == map[]
    ensures r.Some? ==> exists id :: id in rows && rows[id].updatedAt == r.value
    ensures r.Some? ==> forall id | id in rows :: rows[id].updatedAt <= r.value
    decreases |rows|
  {
    if rows == map[] then None
    else
      var id :| id in rows;
      var rest := rows - {id};
      assert rows.Keys == rest.Keys + {id};
      match Newest(rest)
      case None => Some(rows[id].updatedAt)
      case Some(m) =>
        assert forall i | i in rows && i != id :: i in rest && rest[i] == rows[i];
        Some(if m < rows[id].updatedAt then rows[id].updatedAt else m)
  }

  datatype Version = Version(count: nat, latest: Option<nat>)

  ghost function Current(db: Db): Version {
    Version(|Corpus(db)|, Newest(Corpus(db)))
  }

  lemma NewestIs(rows: map<nat, Source>, id: nat)
    requires id in rows && forall i | i in rows :: rows[i].updatedAt <= rows[id].updatedAt
    ensures Newest(rows) == Some(rows[id].updatedAt)
  {
    var top :| top in rows && rows[top].updatedAt == Newest(rows).value;
  }

  lemma NewestOfOneMore(rows: map<nat, Source>, id: nat, row: Source)
    requires id !in rows
    ensures Newest(rows[id := row]) ==
            if Newest(rows).None? || Newest(rows).value < row.updatedAt then Some(row.updatedAt) else Newest(rows)
    ensures |rows[id := row]| == |rows| + 1
  {
    var more := rows[id := row];
    assert more.Keys == rows.Keys + {id};
    if Newest(rows).None? || Newest(rows).value < row.updatedAt {
      NewestIs(more, id);
    } else {
      var top :| top in rows && rows[top].updatedAt == Newest(rows).value;
      NewestIs(more, top);
    }
  }

  /** The aggregate, row by row. */
  method Aggregate(rows: map<nat, Source>) returns (v: Version)
    ensures v == Current(Db(rows, 0, 0))
  {
    ghost var seen: map<nat, Source> := map[];
    var left, count, latest := rows.Keys, 0, None;
    assert Newest(map[]) == None;
    hide Newest;
    while left != {}
      invariant left <= rows.Keys && count == |seen| && latest == Newest(seen)
      invariant forall id | id in rows && id !in left && rows[id].status == Ready :: id in seen
      invariant forall id | id in seen :: id in rows && id !in left && rows[id].status == Ready && seen[id] == rows[id]
    {
      var id :| id in left;
      left := left - {id};
      if rows[id].status == Ready {
        NewestOfOneMore(seen, id, rows[id]);
        seen := seen[id := rows[id]];
        count := count + 1;
        if latest.None? || latest.value < rows[id].updatedAt {
          latest := Some(rows[id].updatedAt);
        }
      }
    }
    assert seen == Corpus(Db(rows, 0, 0));
    return Version(count, latest);
  }

  lemma SubsetOfSameSize(a: set<nat>, b: set<nat>)
    requires a <= b && |a| == |b|
    ensures a == b
  {
    if x :| x in b && x !in a {
      var rest := b - {x};
      assert a <= rest;
      SubsetSize(a, rest);
    }
  }

  lemma {:induction false} SubsetSize(a: set<nat>, b: set<nat>)
    requires a <= b
    ensures |a| <= |b|
    decreases a
  {
    if x :| x in a {
      SubsetSize(a - {x}, b - {x});
    }
  }

  /** The version identifies the corpus: two states of one run have equal versions exactly when the same
      sources are ready with the same rows, documents and chunks. */
  lemma VersionIdentifiesCorpus(db: Db, ws: seq<Write>)
    requires Valid(db)
    ensures Current(db) == Current(Run(db, ws)) <==> Corpus(db) == Corpus(Run(db, ws))
  {
    var later := Run(db, ws);
    RunOldOrNewer(db, ws);
    if Current(db) == Current(later) {
      var a, b := Corpus(db), Corpus(later);
      forall id | id in b
        ensures id in a && a[id] == b[id]
      {
        var m := Newest(a).value;
        var top :| top in a && a[top].updatedAt == m;
        assert b[id].updatedAt <= m <= db.now;
      }
      assert b.Keys <= a.Keys && |b.Keys| == |b| == |a| == |a.Keys|;
      SubsetOfSameSize(b.Keys, a.Keys);
      assert a == b;
    }
  }

  // -------------------------------------------------------- the rendering

  /** What is asked of `toISOString` on the stamps that occur. */
  ghost predicate RendersDistinctly(iso: nat -> string) {
    && (forall a: nat, b: nat :: iso(a) == iso(b) ==> a == b)
    && (forall a: nat :: iso(a) != "none")
  }

  function Render(v: Version, iso: nat -> string): string {
    Decimal(v.count) + "-" + if v.latest.Some? then iso(v.latest.value) else "none"
  }

  lemma FirstDash(a: string, s: string, b: string, t: string)
    requires a + "-" + s == b + "-" + t && '-' !in a && '-' !in b
    ensures a == b && s == t
  {
    var whole, other := a + "-" + s, b + "-" + t;
    assert whole[|a|] == '-' && other[|b|] == '-';
    assert forall i | 0 <= i < |a| :: whole[i] == a[i] != '-';
    assert forall i | 0 <= i < |b| :: other[i] == b[i] != '-';
    assert |a| == |b|;
    assert a == whole[..|a|] && b == other[..|b|];
    assert s == whole[|a| + 1..] && t == other[|b| + 1..];
  }

  /** The string keeps everything the version says. */
  lemma RenderInjective(v: Version, w: Version, iso: nat -> string)
    requires RendersDistinctly(iso)
    ensures Render(v, iso) == Render(w, iso) <==> v == w
  {
    if Render(v, iso) == Render(w, iso) {
      var s := if v.latest.Some? then iso(v.latest.value) else "none";
      var t := if w.latest.Some? then iso(w.latest.value) else "none";
      FirstDash(Decimal(v.count), s, Decimal(w.count), t);
      DecimalRoundTrip(v.count);
      DecimalRoundTrip(w.count);
    }
  }

  /** A heartbeat renews a row nobody can retrieve from: corpus and version stay as they are. */
  lemma HeartbeatKeepsCorpus(db: Db, id: nat)
    ensures Corpus(Touch(db, id)) == Corpus(db) && Current(Touch(db, id)) == Current(db)
  {
    assert Corpus(Touch(db, id)) == Corpus(db);
  }
}

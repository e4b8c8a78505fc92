/**
 * The task table the service relies on, as a sequence of rows in insertion
 * order: lookup by id, the paged and filtered queries, and the effect of
 * committing an updated or deleted row.
 */
module TaskStore {
  import opened Wrappers
  import opened TasksSchemas
  import opened TasksModels

  /** Task ids are a primary key. */
  predicate UniqueIds(rows: seq<TaskRecord>)
  {
    forall i, j :: 0 <= i < j < |rows| ==> rows[i].id != rows[j].id
  }

  /** The position of the row with id `id`. */
  function IndexOf(rows: seq<TaskRecord>, id: int): (r: Option<nat>)
    ensures r.Some? ==> r.value < |rows| && rows[r.value].id == id
    ensures r.None? <==> forall k :: 0 <= k < |rows| ==> rows[k].id != id
  {
    if rows == [] then None
    else if rows[0].id == id then Some(0)
    else match IndexOf(rows[1..], id)
      case None => None
      case Some(k) => Some(k + 1)
  }

  /** `get_task(id)` of the repository: the row with that id, or nothing. */
  function Lookup(rows: seq<TaskRecord>, id: int): (r: Option<TaskRecord>)
    ensures r.Some? ==> r.value in rows && r.value.id == id
    ensures r.None? <==> forall t :: t in rows ==> t.id != id
  {
    match IndexOf(rows, id)
    case None => None
    case Some(i) => Some(rows[i])
  }

  /** With unique ids, the row found is the only row with that id. */
  lemma LookupUnique(rows: seq<TaskRecord>, t: TaskRecord)
    requires UniqueIds(rows) && t in rows
    ensures Lookup(rows, t.id) == Some(t)
  {
    var k :| 0 <= k < |rows| && rows[k] == t;
    assert rows[IndexOf(rows, t.id).value] == rows[k];
  }

  /** The table after the row with id `id` was changed to `t` and committed. */
  function Replace(rows: seq<TaskRecord>, id: int, t: TaskRecord): seq<TaskRecord>
  {
    seq(|rows|, k requires 0 <= k < |rows| => if rows[k].id == id then t else rows[k])
  }

  /** The table after the row with id `id` was deleted and committed. */
  function Delete(rows: seq<TaskRecord>, id: int): seq<TaskRecord>
  {
    match IndexOf(rows, id)
    case None => rows
    case Some(i) => rows[..i] + rows[i + 1..]
  }

  /** Committing an update changes exactly the one row with that id, keeping the ids unique. */
  lemma ReplaceChangesOnlyThatRow(rows: seq<TaskRecord>, t: TaskRecord, u: TaskRecord)
    requires UniqueIds(rows) && Lookup(rows, t.id).Some?
    ensures |Replace(rows, t.id, t)| == |rows| && UniqueIds(Replace(rows, t.id, t))
    ensures Lookup(Replace(rows, t.id, t), t.id) == Some(t)
    ensures u.id != t.id ==> (u in Replace(rows, t.id, t) <==> u in rows)
  {
    var r := Replace(rows, t.id, t);
    assert t in r by {
      var i := IndexOf(rows, t.id).value;
      assert r[i] == t;
    }
    LookupUnique(r, t);
    if u.id != t.id {
      if u in rows {
        var k :| 0 <= k < |rows| && rows[k] == u;
        assert r[k] == u;
      }
    }
  }

  /** Committing a delete removes exactly the row with that id and no other. */
  lemma DeleteRemovesOnlyThatRow(rows: seq<TaskRecord>, id: int, u: TaskRecord)
    requires UniqueIds(rows)
    ensures UniqueIds(Delete(rows, id))
    ensures |Delete(rows, id)| == if Lookup(rows, id).Some? then |rows| - 1 else |rows|
    ensures Lookup(Delete(rows, id), id) == None
    ensures u in Delete(rows, id) <==> u in rows && u.id != id
  {
    match IndexOf(rows, id)
    case None =>
    case Some(i) =>
      var d := rows[..i] + rows[i + 1..];
      assert forall k :: 0 <= k < |d| ==> d[k] == rows[if k < i then k else k + 1];
      forall p, q | 0 <= p < q < |d| ensures d[p].id != d[q].id {
        assert d[p] == rows[if p < i then p else p + 1];
        assert d[q] == rows[if q < i then q else q + 1];
      }
      forall k | 0 <= k < |d| ensures d[k].id != id {
        var j := if k < i then k else k + 1;
        assert d[k] == rows[j] && j != i;
      }
      if u in rows && u.id != id {
        var j :| 0 <= j < |rows| && rows[j] == u;
        assert j != i;
        assert d[if j < i then j else j - 1] == u;
      }
  }

  /** A paged query: SQL `OFFSET` and `LIMIT`, and the optional owner and status filters. */
  datatype PageQuery = PageQuery(offset: int, limit: int, userId: Option<int>, status: Option<string>)

  /** Whether a row passes the query's filters; the status column is compared with the given string. */
  predicate Matches(t: TaskRecord, q: PageQuery)
  {
    && (q.userId.Some? ==> t.userId == q.userId.value)
    && (q.status.Some? ==> t.status.Some? && t.status.value.Value() == q.status.value)
  }

  /** The rows that pass the filters, in table order. */
  function Matching(rows: seq<TaskRecord>, q: PageQuery): (r: seq<TaskRecord>)
    ensures |r| <= |rows|
    ensures forall t :: t in r <==> t in rows && Matches(t, q)
    ensures forall t :: multiset(r)[t] == if Matches(t, q) then multiset(rows)[t] else 0
    ensures q.userId.None? && q.status.None? ==> r == rows
  {
    if rows == [] then []
    else
      assert rows == [rows[0]] + rows[1..];
      if Matches(rows[0], q) then [rows[0]] + Matching(rows[1..], q)
      else Matching(rows[1..], q)
  }

  /** Filtering keeps the table's order: the filter of two stretches of rows is the two filters one after the other. */
  lemma {:induction false} MatchingConcat(a: seq<TaskRecord>, b: seq<TaskRecord>, q: PageQuery)
    ensures Matching(a + b, q) == Matching(a, q) + Matching(b, q)
  {
    if a == [] {
      assert a + b == b;
    } else {
      assert (a + b)[0] == a[0];
      assert (a + b)[1..] == a[1..] + b;
      MatchingConcat(a[1..], b, q);
    }
  }

  /** A single row is kept exactly when it passes the filters. */
  lemma MatchingOne(t: TaskRecord, q: PageQuery)
    ensures Matching([t], q) == if Matches(t, q) then [t] else []
  {
    assert [t][1..] == [];
  }

  /** Which rows pass depends only on the filters, not on the page asked for. */
  lemma {:induction false} MatchingIgnoresPaging(rows: seq<TaskRecord>, q: PageQuery, p: PageQuery)
    requires q.userId == p.userId && q.status == p.status
    ensures Matching(rows, q) == Matching(rows, p)
  {
    if rows != [] {
      MatchingIgnoresPaging(rows[1..], q, p);
    }
  }

  function Min(a: int, b: int): int { if a <= b then a else b }

  /** `OFFSET offset LIMIT limit` applied to `s`. */
  function Window(s: seq<TaskRecord>, offset: nat, limit: nat): (r: seq<TaskRecord>)
    ensures |r| == if offset <= |s| then Min(limit, |s| - offset) else 0
    ensures forall k :: 0 <= k < |r| ==> r[k] == s[offset + k]
  {
    if offset >= |s| then [] else s[offset..Min(offset + limit, |s|)]
  }

  /**
   * The database's answer to a paged query: the filtered rows from `offset` on,
   * at most `limit` of them. PostgreSQL rejects a negative offset or limit.
   */
  function Select(rows: seq<TaskRecord>, q: PageQuery): (r: Option<seq<TaskRecord>>)
    ensures r.Some? <==> q.offset >= 0 && q.limit >= 0
    ensures r.Some? ==> var m := Matching(rows, q);
                        && |r.value| == (if q.offset <= |m| then Min(q.limit, |m| - q.offset) else 0)
                        && forall k :: 0 <= k < |r.value| ==> r.value[k] == m[q.offset + k]
  {
    if q.offset < 0 || q.limit < 0 then None
    else Some(Window(Matching(rows, q), q.offset, q.limit))
  }

  /** Every row a query returns is in the table and passes the filters, and there are at most `limit` of them. */
  lemma SelectSound(rows: seq<TaskRecord>, q: PageQuery)
    ensures Select(rows, q).Some? <==> q.offset >= 0 && q.limit >= 0
    ensures Select(rows, q).Some? ==> |Select(rows, q).value| <= q.limit
    ensures Select(rows, q).Some? ==> forall t :: t in Select(rows, q).value ==> t in rows && Matches(t, q)
  {
    if q.offset >= 0 && q.limit >= 0 {
      var m := Matching(rows, q);
      var w := Window(m, q.offset, q.limit);
      forall t | t in w ensures t in m {
        var k :| 0 <= k < |w| && w[k] == t;
        assert m[q.offset + k] == t;
      }
    }
  }

  /** Pages 1 to n of `s`, with `size` rows per page, one after the other. */
  function Pages(s: seq<TaskRecord>, size: nat, n: nat): seq<TaskRecord>
  {
    if n == 0 then [] else Pages(s, size, n - 1) + Window(s, (n - 1) * size, size)
  }

  /** Consecutive pages tile the listing: none skips or repeats a row. */
  lemma {:induction false} PagesTile(s: seq<TaskRecord>, size: nat, n: nat)
    ensures Pages(s, size, n) == s[..Min(n * size, |s|)]
  {
    if n > 0 {
      PagesTile(s, size, n - 1);
      var lo := Min((n - 1) * size, |s|);
      var hi := Min(n * size, |s|);
      assert n * size == (n - 1) * size + size;
      var w := Window(s, (n - 1) * size, size);
      assert |w| == hi - lo;
      assert s[..hi] == s[..lo] + s[lo..hi];
      assert w == s[lo..hi] by {
        forall k | 0 <= k < |w| ensures w[k] == s[lo..hi][k] {}
      }
    }
  }

  /** Twelve tasks with ids 1 to 12: page 2 with five per page is offset 5, and holds tasks 6 to 10. */
  lemma SecondPageOfTwelve(rows: seq<TaskRecord>)
    requires |rows| == 12 && forall k :: 0 <= k < 12 ==> rows[k].id == k + 1
    ensures var r := Select(rows, PageQuery((2 - 1) * 5, 5, None, None));
            r.Some? && |r.value| == 5 && forall k :: 0 <= k < 5 ==> r.value[k].id == 6 + k
  {
  }
}

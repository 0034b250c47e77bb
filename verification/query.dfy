/** The order in which a query without an `order` option lists rows: ascending id. */
module IdOrder {

  /** `m` is the least element of `s`. */
  predicate IsLeast(m: int, s: set<int>)
  {
    m in s && forall k :: k in s ==> m <= k
  }

  /** Every non-empty finite set of ids has a least element. */
  lemma {:induction false} LeastExists(s: set<int>)
    requires s != {}
    ensures exists m :: IsLeast(m, s)
    decreases s
  {
    if forall e :: e !in s {
      assert false;
    }
    var x :| x in s;
    if s == {x} {
      assert IsLeast(x, s);
    } else {
      var rest := s - {x};
      LeastExists(rest);
      var y :| IsLeast(y, rest);
      var m := if y < x then y else x;
      forall k | k in s ensures m <= k {
        if k != x { assert k in rest; }
      }
      assert IsLeast(m, s);
    }
  }

  /** The least element of a non-empty finite set of ids. */
  function Least(s: set<int>): (m: int)
    requires s != {}
    ensures m in s && forall k :: k in s ==> m <= k
  {
    LeastExists(s);
    var m :| IsLeast(m, s);
    m
  }

  /** A set of ids listed in ascending order: the row order of a query with no `order`. */
  function Ascending(s: set<int>): (r: seq<int>)
    ensures |r| == |s|
    ensures forall k :: k in r <==> k in s
    ensures forall i, j :: 0 <= i < j < |r| ==> r[i] < r[j]
    decreases s
  {
    if s == {} then []
    else
      var m := Least(s);
      var rest := Ascending(s - {m});
      assert forall i :: 0 <= i < |rest| ==> m < rest[i] by {
        forall i | 0 <= i < |rest| ensures m < rest[i] {
          assert rest[i] in rest;
        }
      }
      [m] + rest
  }
}

/** What the listing queries do with a table: `where` filters, `count`,
    ordering by `createdDate` descending, and `limit`/`offset` paging. */
module Query {
  import opened Rows
  import opened IdOrder

  /** `limit: req.body.limit || 1000000`: a missing limit, and a limit of 0, become this. */
  const DefaultLimit: nat := 1000000

  /** The `where` clauses the post controller uses. */
  datatype Filter =
    | Everything                                  // no `where`
    | ColumnIs(column: string, value: Value)      // `where: {column: value}`
    | ContentHas(keyword: string)                 // `where: {content: {[Op.like]: '%' + keyword + '%'}}`

  /** `kw` occurs in `s` at position `i`. */
  ghost predicate OccursAt(s: string, kw: string, i: int)
  {
    0 <= i && i + |kw| <= |s| && s[i..i + |kw|] == kw
  }

  /** `kw` occurs somewhere in `s`. */
  ghost predicate Occurs(s: string, kw: string)
  {
    exists i :: OccursAt(s, kw, i)
  }

  /** Substring containment, standing for `LIKE '%kw%'`: `kw` is a prefix of some suffix of `s`. */
  predicate Contains(s: string, kw: string)
    decreases |s|
  {
    (|kw| <= |s| && s[..|kw|] == kw) || (|s| > 0 && Contains(s[1..], kw))
  }

  /** The recursive search finds exactly the positions at which the keyword occurs. */
  lemma {:induction false} ContainsIffOccurs(s: string, kw: string)
    ensures Contains(s, kw) <==> Occurs(s, kw)
    decreases |s|
  {
    if |kw| <= |s| && s[..|kw|] == kw {
      assert OccursAt(s, kw, 0);
    } else if |s| == 0 {
      assert forall i :: !OccursAt(s, kw, i);
    } else {
      ContainsIffOccurs(s[1..], kw);
      assert !OccursAt(s, kw, 0);
      if Contains(s[1..], kw) {
        var i :| OccursAt(s[1..], kw, i);
        assert s[1..][i..i + |kw|] == s[i + 1..i + 1 + |kw|];
        assert OccursAt(s, kw, i + 1);
      }
      if Occurs(s, kw) {
        var i :| OccursAt(s, kw, i);
        assert s[1..][i - 1..i - 1 + |kw|] == s[i..i + |kw|];
        assert OccursAt(s[1..], kw, i - 1);
      }
    }
  }

  /** The empty keyword (`LIKE '%%'`) is contained in every text. */
  lemma EmptyKeywordEverywhere(s: string)
    ensures Contains(s, "")
  {
    assert s[..0] == "";
  }

  /** Whether a row satisfies a `where` clause. A column that is absent or holds a
      non-text value never matches `LIKE` (SQL `NULL LIKE ...` is not true). */
  predicate Matches(row: Row, f: Filter)
  {
    match f
    case Everything => true
    case ColumnIs(c, v) => c in row && row[c] == v
    case ContentHas(kw) => "content" in row && row["content"].Text? && Contains(row["content"].s, kw)
  }

  /** The keys of a table that satisfy a filter, as a set. */
  function Where(t: map<int, Row>, f: Filter): (s: set<int>)
    ensures forall k :: k in s <==> k in t && Matches(t[k], f)
  {
    set k | k in t && Matches(t[k], f)
  }

  /** `Model.count({where})`: the number of rows satisfying the filter. */
  function CountWhere(t: map<int, Row>, f: Filter): (n: nat)
    ensures n <= |t|
  {
    assert Where(t, f) <= t.Keys;
    SubsetCard(Where(t, f), t.Keys);
    |Where(t, f)|
  }

  /** `Model.count()` with no `where` counts every row. */
  lemma CountEverything(t: map<int, Row>)
    ensures CountWhere(t, Everything) == |t|
  {
    assert Where(t, Everything) == t.Keys;
    assert |t.Keys| == |t|;
  }

  lemma SubsetCard(a: set<int>, b: set<int>)
    requires a <= b
    ensures |a| <= |b|
  {
    assert b == a + (b - a);
  }

  /** `Model.findAll({where})` with no `order`: the matching ids, ascending. */
  function Select(t: map<int, Row>, f: Filter): (r: seq<int>)
    ensures forall k :: k in r <==> k in t && Matches(t[k], f)
    ensures forall i, j :: 0 <= i < j < |r| ==> r[i] < r[j]
    ensures |r| == CountWhere(t, f)
  {
    Ascending(Where(t, f))
  }

  /** `Model.destroy({where})`: the table without the rows satisfying the filter. */
  function Without(t: map<int, Row>, f: Filter): (r: map<int, Row>)
    ensures forall k :: k in r <==> k in t && !Matches(t[k], f)
    ensures forall k :: k in r ==> r[k] == t[k]
  {
    map k | k in t && !Matches(t[k], f) :: t[k]
  }

  /** The rows stored under a list of ids, in that order. */
  function RowsAt(t: map<int, Row>, ids: seq<int>): (r: seq<Row>)
    requires forall i :: 0 <= i < |ids| ==> ids[i] in t
    ensures |r| == |ids|
    ensures forall i :: 0 <= i < |ids| ==> r[i] == t[ids[i]]
  {
    seq(|ids|, i requires 0 <= i < |ids| => t[ids[i]])
  }

  // ---------------------------------------------------------------------------
  // order: [['createdDate', 'DESC']]

  /** The creation time of a row; a row without an integer `createdDate` counts as oldest. */
  function Stamp(row: Row): int
  {
    if "createdDate" in row && row["createdDate"].Int? then row["createdDate"].i else -1
  }

  ghost predicate InTable(t: map<int, Row>, ids: seq<int>)
  {
    forall i :: 0 <= i < |ids| ==> ids[i] in t
  }

  /** Ids ordered newest first. */
  ghost predicate NewestFirst(t: map<int, Row>, ids: seq<int>)
    requires InTable(t, ids)
  {
    forall i, j :: 0 <= i < j < |ids| ==> Stamp(t[ids[i]]) >= Stamp(t[ids[j]])
  }

  /** Putting an id no older than the head in front keeps a newest-first list newest first. */
  lemma ConsNewest(t: map<int, Row>, h: int, ids: seq<int>)
    requires h in t && InTable(t, ids) && NewestFirst(t, ids)
    requires ids != [] ==> Stamp(t[h]) >= Stamp(t[ids[0]])
    ensures InTable(t, [h] + ids) && NewestFirst(t, [h] + ids)
  {
    var r := [h] + ids;
    forall i, j | 0 <= i < j < |r| ensures Stamp(t[r[i]]) >= Stamp(t[r[j]]) {
      if i == 0 && j > 1 {
        assert Stamp(t[ids[0]]) >= Stamp(t[ids[j - 1]]);
      }
    }
  }

  function InsertByDate(t: map<int, Row>, x: int, ids: seq<int>): (r: seq<int>)
    requires x in t && InTable(t, ids) && NewestFirst(t, ids)
    ensures multiset(r) == multiset(ids) + multiset{x}
    ensures InTable(t, r) && NewestFirst(t, r)
    ensures |r| == |ids| + 1
    ensures r[0] == x || (ids != [] && r[0] == ids[0])
  {
    if ids == [] || Stamp(t[x]) >= Stamp(t[ids[0]]) then
      ConsNewest(t, x, ids);
      [x] + ids
    else
      assert ids == [ids[0]] + ids[1..];
      var rest := InsertByDate(t, x, ids[1..]);
      assert ids[1..] != [] ==> Stamp(t[ids[0]]) >= Stamp(t[ids[1..][0]]);
      ConsNewest(t, ids[0], rest);
      [ids[0]] + rest
  }

  /** The ids re-ordered by `createdDate`, newest first (ties keep no promised order). */
  function SortNewest(t: map<int, Row>, ids: seq<int>): (r: seq<int>)
    requires InTable(t, ids)
    ensures multiset(r) == multiset(ids)
    ensures InTable(t, r) && NewestFirst(t, r)
    ensures |r| == |ids|
  {
    if ids == [] then []
    else
      assert ids == [ids[0]] + ids[1..];
      InsertByDate(t, ids[0], SortNewest(t, ids[1..]))
  }

  // ---------------------------------------------------------------------------
  // limit: req.body.limit || 1000000, offset: req.body.offset || 0

  /** The limit after `|| 1000000`: JavaScript treats 0 like a missing value. */
  function EffectiveLimit(limit: Option<nat>): (n: nat)
    ensures n > 0
    ensures limit.Some? && limit.value != 0 ==> n == limit.value
    ensures limit.None? || limit == Some(0) ==> n == DefaultLimit
  {
    match limit
    case Some(l) => if l != 0 then l else DefaultLimit
    case None => DefaultLimit
  }

  /** The offset after `|| 0`. */
  function EffectiveOffset(offset: Option<nat>): (n: nat)
    ensures offset.Some? ==> n == offset.value
    ensures offset.None? ==> n == 0
  {
    match offset
    case Some(o) => o
    case None => 0
  }

  /** One page of a result list: skip `offset` rows, keep at most `limit`. */
  function Page<T>(s: seq<T>, limit: Option<nat>, offset: Option<nat>): (r: seq<T>)
    ensures |r| <= EffectiveLimit(limit)
    ensures EffectiveOffset(offset) <= |s| ==>
              |r| == if |s| - EffectiveOffset(offset) <= EffectiveLimit(limit)
                     then |s| - EffectiveOffset(offset) else EffectiveLimit(limit)
    ensures EffectiveOffset(offset) >= |s| ==> r == []
    ensures forall i :: 0 <= i < |r| ==> EffectiveOffset(offset) + i < |s| && r[i] == s[EffectiveOffset(offset) + i]
  {
    var start := if EffectiveOffset(offset) <= |s| then EffectiveOffset(offset) else |s|;
    var stop := if start + EffectiveLimit(limit) <= |s| then start + EffectiveLimit(limit) else |s|;
    s[start..stop]
  }

  /** With the defaults (no limit, no offset) a list no longer than the sentinel is returned whole. */
  lemma DefaultPageIsWhole<T>(s: seq<T>)
    requires |s| <= DefaultLimit
    ensures Page(s, None, None) == s
  {
    var r := Page(s, None, None);
    assert |r| == |s|;
    forall i | 0 <= i < |s| ensures r[i] == s[i] { }
  }
}

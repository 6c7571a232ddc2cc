/** Pagination and ordering shared by every list filter (backend/lib/base_models.py, `BaseFilter`). */
module BaseModels {
  import opened Wrappers

  /** `order_by` when the caller gives none. */
  const DefaultOrderBy: string := "-id"
  /** The window `check_limit_offset_default` substitutes when limit or offset is missing. */
  const DefaultLimit: int := 20
  const DefaultOffset: int := 0

  datatype ValidationError = LimitBelowOne | NegativeOffset

  /** Field validator for `limit`: a given value below 1 is rejected, None passes. */
  function CheckLimit(limit: Option<int>): (r: Result<Option<int>, ValidationError>)
    ensures r.Failure? <==> limit.Some? && limit.value < 1
    ensures r.Success? ==> r.value == limit
  {
    if limit.Some? && limit.value < 1 then Failure(LimitBelowOne) else Success(limit)
  }

  /** Field validator for `offset`: a given value below 0 is rejected, None passes. */
  function CheckOffset(offset: Option<int>): (r: Result<Option<int>, ValidationError>)
    ensures r.Failure? <==> offset.Some? && offset.value < 0
    ensures r.Success? ==> r.value == offset
  {
    if offset.Some? && offset.value < 0 then Failure(NegativeOffset) else Success(offset)
  }

  /** A validated window: neither bound is None any more. */
  datatype Page = Page(limit: int, offset: int)

  /** The effect of constructing a filter: both field validators (limit first), then the
      after-validator that resets a half-given window to (20, 0). */
  function ValidatePage(limit: Option<int>, offset: Option<int>): (r: Result<Page, ValidationError>)
    ensures r.Failure? <==> (limit.Some? && limit.value < 1) || (offset.Some? && offset.value < 0)
    ensures limit.Some? && limit.value < 1 ==> r == Failure(LimitBelowOne)
    ensures r.Success? ==> r.value.limit >= 1 && r.value.offset >= 0
    ensures r.Success? && limit.Some? && offset.Some? ==> r.value == Page(limit.value, offset.value)
    ensures r.Success? && (limit.None? || offset.None?) ==> r.value == Page(DefaultLimit, DefaultOffset)
  {
    match CheckLimit(limit)
    case Failure(e) => Failure(e)
    case Success(l) =>
      match CheckOffset(offset)
      case Failure(e) => Failure(e)
      case Success(o) =>
        if l.None? || o.None? then Success(Page(DefaultLimit, DefaultOffset))
        else Success(Page(l.value, o.value))
  }

  /** A validated window validates again to itself. */
  lemma ValidatePageStable(limit: Option<int>, offset: Option<int>)
    requires ValidatePage(limit, offset).Success?
    ensures var p := ValidatePage(limit, offset).value;
            ValidatePage(Some(p.limit), Some(p.offset)) == Success(p)
  {
  }

  /** The rows a query returns for a window: the slice [offset, offset + limit), clipped to the rows. */
  function Window<T>(rows: seq<T>, p: Page): (r: seq<T>)
    requires p.limit >= 1 && p.offset >= 0
    ensures |r| <= p.limit
    ensures p.offset <= |rows| ==> |r| == if |rows| - p.offset < p.limit then |rows| - p.offset else p.limit
    ensures forall i | 0 <= i < |r| :: p.offset + i < |rows| && r[i] == rows[p.offset + i]
  {
    if p.offset >= |rows| then []
    else if p.offset + p.limit >= |rows| then rows[p.offset..]
    else rows[p.offset..p.offset + p.limit]
  }

  /** Every element of a window comes from the rows, and a window starting at 0 that is not
      full holds all of them. */
  lemma WindowFacts<T>(rows: seq<T>, p: Page)
    requires p.limit >= 1 && p.offset >= 0
    ensures forall x | x in Window(rows, p) :: x in rows
    ensures p.offset == 0 && |rows| <= p.limit ==> Window(rows, p) == rows
    ensures p.offset == 0 && |Window(rows, p)| < p.limit ==> Window(rows, p) == rows
  {
    var r := Window(rows, p);
    forall x | x in r ensures x in rows {
      var i :| 0 <= i < |r| && r[i] == x;
      assert r[i] == rows[p.offset + i];
    }
  }

  /** Rows of a table kept in ascending id order, as `order_by("-id")` returns them. */
  function Reverse<T>(s: seq<T>): (r: seq<T>)
    ensures |r| == |s|
    ensures forall i | 0 <= i < |s| :: r[i] == s[|s| - 1 - i]
  {
    if s == [] then [] else Reverse(s[1..]) + [s[0]]
  }

  /** Rows in ascending order of an integer key. */
  predicate SortedBy<T>(rows: seq<T>, key: T -> int) {
    forall i, j | 0 <= i < j < |rows| :: key(rows[i]) <= key(rows[j])
  }

  /** Inserts a row before the first row of larger-or-equal key. */
  function InsertBy<T>(x: T, sorted: seq<T>, key: T -> int): (r: seq<T>)
    ensures multiset(r) == multiset(sorted) + multiset{x}
  {
    if sorted == [] then [x]
    else if key(x) <= key(sorted[0]) then [x] + sorted
    else
      assert sorted == [sorted[0]] + sorted[1..];
      [sorted[0]] + InsertBy(x, sorted[1..], key)
  }

  lemma {:induction false} InsertBySorted<T>(x: T, sorted: seq<T>, key: T -> int)
    requires SortedBy(sorted, key)
    ensures SortedBy(InsertBy(x, sorted, key), key)
  {
    if sorted != [] && key(x) > key(sorted[0]) {
      var rest := InsertBy(x, sorted[1..], key);
      InsertBySorted(x, sorted[1..], key);
      forall k | 0 <= k < |rest| ensures key(sorted[0]) <= key(rest[k]) {
        assert rest[k] in multiset(rest);
        if rest[k] != x {
          assert rest[k] in multiset(sorted[1..]);
          var j :| 0 <= j < |sorted[1..]| && sorted[1..][j] == rest[k];
          assert sorted[j + 1] == rest[k];
        }
      }
      var r := [sorted[0]] + rest;
      forall i, j | 0 <= i < j < |r| ensures key(r[i]) <= key(r[j]) {
        if i > 0 {
          assert r[i] == rest[i - 1] && r[j] == rest[j - 1];
        } else {
          assert r[j] == rest[j - 1];
        }
      }
    }
  }

  /** `order_by(<key>)` as an insertion sort: ascending key, rows of equal key kept in their
      original order. */
  function SortBy<T>(rows: seq<T>, key: T -> int): (r: seq<T>)
    ensures multiset(r) == multiset(rows)
  {
    if rows == [] then []
    else
      assert rows == [rows[0]] + rows[1..];
      InsertBy(rows[0], SortBy(rows[1..], key), key)
  }

  lemma {:induction false} SortBySorted<T>(rows: seq<T>, key: T -> int)
    ensures SortedBy(SortBy(rows, key), key)
  {
    if rows != [] {
      SortBySorted(rows[1..], key);
      InsertBySorted(rows[0], SortBy(rows[1..], key), key);
    }
  }

  /** The rows that satisfy `keep`, in their original order. */
  function Where<T>(rows: seq<T>, keep: T -> bool): (r: seq<T>)
    ensures forall x | x in r :: x in rows && keep(x)
    ensures forall x | x in rows && keep(x) :: x in r
    ensures |r| <= |rows|
  {
    if rows == [] then []
    else
      var rest := Where(rows[1..], keep);
      if keep(rows[0]) then
        assert forall k | 0 <= k < |rest| :: rest[k] in rows[1..];
        [rows[0]] + rest
      else rest
  }

  /** A filter every row passes keeps the whole table. */
  lemma {:induction false} WhereAll<T>(rows: seq<T>, keep: T -> bool)
    requires forall x | x in rows :: keep(x)
    ensures Where(rows, keep) == rows
  {
    if rows != [] {
      WhereAll(rows[1..], keep);
      assert rows == [rows[0]] + rows[1..];
    }
  }

  /** Strictly ascending, and strictly descending, in a key (the id of an auto-increment table). */
  predicate Ascending<T>(rows: seq<T>, key: T -> int) {
    forall i, j | 0 <= i < j < |rows| :: key(rows[i]) < key(rows[j])
  }

  predicate Descending<T>(rows: seq<T>, key: T -> int) {
    forall i, j | 0 <= i < j < |rows| :: key(rows[i]) > key(rows[j])
  }

  lemma {:induction false} WhereAscending<T>(rows: seq<T>, keep: T -> bool, key: T -> int)
    ensures Ascending(rows, key) ==> Ascending(Where(rows, keep), key)
  {
    if rows != [] && Ascending(rows, key) {
      WhereAscending(rows[1..], keep, key);
      var rest := Where(rows[1..], keep);
      assert forall k | 0 <= k < |rest| :: rest[k] in rows[1..];
    }
  }

  /** A window of rows sorted, or strictly descending, in a key is so too. */
  lemma WindowOrdered<T>(rows: seq<T>, p: Page, key: T -> int)
    requires p.limit >= 1 && p.offset >= 0
    ensures SortedBy(rows, key) ==> SortedBy(Window(rows, p), key)
    ensures Descending(rows, key) ==> Descending(Window(rows, p), key)
  {
    var r := Window(rows, p);
    forall i, j | 0 <= i < j < |r|
      ensures key(r[i]) == key(rows[p.offset + i]) && key(r[j]) == key(rows[p.offset + j])
    {
      assert r[i] == rows[p.offset + i] && r[j] == rows[p.offset + j];
    }
  }

  /** Deleting row `i` keeps the other rows, and a table ascending in a key stays so. */
  lemma RemoveAt<T>(rows: seq<T>, i: nat, key: T -> int)
    requires i < |rows|
    ensures forall x | x in rows[..i] + rows[i + 1..] :: x in rows
    ensures Ascending(rows, key) ==> Ascending(rows[..i] + rows[i + 1..], key)
  {
    var r := rows[..i] + rows[i + 1..];
    assert forall k | 0 <= k < |r| :: r[k] == if k < i then rows[k] else rows[k + 1];
  }

  /** Overwriting row `i` with a row of the same key keeps a table ascending in that key. */
  lemma ReplaceAt<T>(rows: seq<T>, i: nat, x: T, key: T -> int)
    requires i < |rows| && key(x) == key(rows[i])
    ensures forall y | y in rows[i := x] :: y == x || y in rows
    ensures Ascending(rows, key) ==> Ascending(rows[i := x], key)
  {
    var r := rows[i := x];
    assert forall k | 0 <= k < |r| :: key(r[k]) == key(rows[k]);
  }

  /** The largest key among some rows. */
  function MaxKey<T>(rows: seq<T>, key: T -> int): (m: int)
    requires rows != []
    ensures forall x | x in rows :: key(x) <= m
    ensures exists x | x in rows :: key(x) == m
  {
    if |rows| == 1 then key(rows[0])
    else
      var rest := MaxKey(rows[1..], key);
      assert forall x | x in rows[1..] :: x in rows;
      if key(rows[0]) >= rest then key(rows[0]) else rest
  }

  /** `max(key(x) for x in rows) + 1`, or 0 when there are no rows. */
  function NextKey<T>(rows: seq<T>, key: T -> int): (r: int)
    ensures rows == [] ==> r == 0
    ensures forall x | x in rows :: key(x) < r
    ensures rows != [] ==> exists x | x in rows :: key(x) == r - 1
  {
    if rows == [] then 0 else MaxKey(rows, key) + 1
  }

  /** The position of the row whose key is `id`, if any: the lookup of a row by primary key. */
  function FindBy<T>(rows: seq<T>, id: int, key: T -> int): (r: Option<nat>)
    ensures r.Some? ==> r.value < |rows| && key(rows[r.value]) == id
    ensures r.None? <==> forall i | 0 <= i < |rows| :: key(rows[i]) != id
  {
    if rows == [] then None
    else if key(rows[0]) == id then Some(0)
    else
      match FindBy(rows[1..], id, key)
      case None => None
      case Some(i) => Some(i + 1)
  }

  /** On a table in ascending key order, looking up the key of a row finds that row. */
  lemma FindByAscending<T>(rows: seq<T>, i: int, key: T -> int)
    requires Ascending(rows, key) && 0 <= i < |rows|
    ensures FindBy(rows, key(rows[i]), key) == Some(i)
  {
    var j := FindBy(rows, key(rows[i]), key).value;
    assert key(rows[j]) == key(rows[i]);
  }

  /** A position at which `x` occurs in `s`. */
  lemma IndexOf<T>(s: seq<T>, x: T) returns (k: nat)
    requires x in s
    ensures k < |s| && s[k] == x
  {
    k :| 0 <= k < |s| && s[k] == x;
  }

  /** A row holding the largest key, one below the next key. */
  lemma NextKeyWitness<T>(rows: seq<T>, key: T -> int) returns (x: T)
    requires rows != []
    ensures x in rows && key(x) == NextKey(rows, key) - 1
  {
    var n := NextKey(rows, key);
    x :| x in rows && key(x) == n - 1;
  }

  /** The next key depends only on which rows there are. */
  lemma NextKeySameElements<T>(a: seq<T>, b: seq<T>, key: T -> int)
    requires forall x | x in a :: x in b
    requires forall x | x in b :: x in a
    ensures NextKey(a, key) == NextKey(b, key)
  {
    if a != [] && b != [] {
      var ma := MaxKey(a, key);
      var mb := MaxKey(b, key);
      var xa :| xa in a && key(xa) == ma;
      var xb :| xb in b && key(xb) == mb;
      assert key(xa) <= mb && key(xb) <= ma;
    }
  }

  /** The order a query returns rows in, for a table kept in ascending id order: "-id" is the
      reversed table, "order" the table sorted by `order`; any other key keeps table order. */
  function Arrange<T>(rows: seq<T>, orderBy: string, id: T -> int, order: T -> int): (r: seq<T>)
    ensures |r| == |rows|
    ensures forall x | x in r :: x in rows
    ensures forall x | x in rows :: x in r
    ensures orderBy == "order" ==> SortedBy(r, order)
    ensures orderBy == "-id" && Ascending(rows, id) ==> Descending(r, id)
  {
    if orderBy == "-id" then
      var r := Reverse(rows);
      assert forall x | x in rows :: x in r by {
        forall x | x in rows ensures x in r {
          var i :| 0 <= i < |rows| && rows[i] == x;
          assert r[|rows| - 1 - i] == x;
        }
      }
      r
    else if orderBy == "order" then
      var r := SortBy(rows, order);
      SortBySorted(rows, order);
      assert forall x | x in r :: x in rows by {
        forall x | x in r ensures x in rows { assert x in multiset(r); }
      }
      assert forall x | x in rows :: x in r by {
        forall x | x in rows ensures x in r { assert x in multiset(rows); }
      }
      assert |r| == |multiset(r)|;
      r
    else rows
  }

  /** A whole list query: the rows that pass the filters, arranged, then cut to the window. */
  function Query<T>(rows: seq<T>, keep: T -> bool, orderBy: string, p: Page, id: T -> int, order: T -> int): (r: seq<T>)
    requires p.limit >= 1 && p.offset >= 0
    ensures |r| <= p.limit
    ensures p.offset == 0 ==> |r| == if |Where(rows, keep)| < p.limit then |Where(rows, keep)| else p.limit
    ensures forall x | x in r :: x in rows && keep(x)
    ensures p.offset == 0 && |Where(rows, keep)| <= p.limit ==> forall x | x in rows && keep(x) :: x in r
    ensures orderBy == "order" ==> SortedBy(r, order)
    ensures orderBy == "-id" && Ascending(rows, id) ==> Descending(r, id)
  {
    var arranged := Arrange(Where(rows, keep), orderBy, id, order);
    WindowFacts(arranged, p);
    var r := Window(arranged, p);
    WindowOrdered(arranged, p, order);
    WindowOrdered(arranged, p, id);
    WhereAscending(rows, keep, id);
    r
  }

  /** A filter object whose fields the after-validator overwrites in place. */
  class Filter {
    var orderBy: string
    var limit: Option<int>
    var offset: Option<int>

    constructor (limit: Option<int>, offset: Option<int>)
      ensures this.orderBy == DefaultOrderBy && this.limit == limit && this.offset == offset
    {
      this.orderBy := DefaultOrderBy;
      this.limit := limit;
      this.offset := offset;
    }

    /** Runs the field validators and then `check_limit_offset_default`; on success the window
        is the one `ValidatePage` computes and neither bound is None. */
    method Validate() returns (r: Result<(), ValidationError>)
      modifies this
      ensures orderBy == old(orderBy)
      ensures var v := ValidatePage(old(limit), old(offset));
              && (r.Failure? <==> v.Failure?)
              && (v.Failure? ==> r.error == v.error && limit == old(limit) && offset == old(offset))
              && (v.Success? ==> limit == Some(v.value.limit) && offset == Some(v.value.offset))
    {
      if limit.Some? && limit.value < 1 {
        return Failure(LimitBelowOne);
      }
      if offset.Some? && offset.value < 0 {
        return Failure(NegativeOffset);
      }
      if limit.None? || offset.None? {
        limit := Some(DefaultLimit);
        offset := Some(DefaultOffset);
      }
      r := Success(());
    }
  }

  /** The pagination and ordering fields `as_dict` leaves out. */
  predicate Pagination(name: string) {
    name == "limit" || name == "offset" || name == "order_by"
  }

  /** `as_dict`: the (name, value) pairs of a filter whose value is not None, without the
      pagination and ordering fields. */
  function AsDict<V>(fields: seq<(string, Option<V>)>): (r: map<string, V>)
    ensures forall k | k in r :: !Pagination(k)
    ensures forall i | 0 <= i < |fields| && fields[i].1.Some? && !Pagination(fields[i].0) :: fields[i].0 in r
    ensures forall k | k in r :: exists i | 0 <= i < |fields| :: fields[i].0 == k && fields[i].1 == Some(r[k])
  {
    if fields == [] then map[]
    else
      var rest := AsDict(fields[1..]);
      assert forall j | j in rest :: exists i | 0 <= i < |fields| :: fields[i].0 == j && fields[i].1 == Some(rest[j]) by {
        forall j | j in rest
          ensures exists i | 0 <= i < |fields| :: fields[i].0 == j && fields[i].1 == Some(rest[j])
        {
          var i :| 0 <= i < |fields[1..]| && fields[1..][i].0 == j && fields[1..][i].1 == Some(rest[j]);
          assert fields[i + 1] == fields[1..][i];
        }
      }
      if fields[0].1.Some? && !Pagination(fields[0].0) then rest[fields[0].0 := fields[0].1.value] else rest
  }
}

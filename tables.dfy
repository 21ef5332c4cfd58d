/**
 * A database table with an auto-incremented integer primary key, as the
 * Sequelize models declare them (`autoIncrement: true, primaryKey: true`).
 * Rows are kept in insertion order; since every request is handled as one
 * atomic step, insertion order is also `createdAt` order and id order.
 */
module Tables {
  import opened Optionals

  datatype Row<T> = Row(id: int, data: T)

  /** Ids strictly increase along the rows: they are distinct, and later rows are newer. */
  ghost predicate Increasing<T>(rows: seq<Row<T>>)
  {
    forall i, j :: 0 <= i < j < |rows| ==> rows[i].id < rows[j].id
  }

  /** `findByPk`: the row with the given id, if any. */
  function Find<T(!new)>(rows: seq<Row<T>>, id: int): (r: Option<T>)
    ensures r.Some? ==> Row(id, r.value) in rows
    ensures r.None? <==> forall x :: x in rows ==> x.id != id
  {
    if rows == [] then None
    else if rows[0].id == id then Some(rows[0].data)
    else Find(rows[1..], id)
  }

  /** The rows that satisfy `keep`, in table order (a `WHERE` clause). */
  function Where<T(!new)>(rows: seq<Row<T>>, keep: Row<T> -> bool): (r: seq<Row<T>>)
    ensures |r| <= |rows|
    ensures forall x :: x in r <==> x in rows && keep(x)
  {
    if rows == [] then []
    else (if keep(rows[0]) then [rows[0]] else []) + Where(rows[1..], keep)
  }

  /** The rows with the data of row `id` replaced by `v` (`instance.update`). */
  function Replace<T>(rows: seq<Row<T>>, id: int, v: T): (r: seq<Row<T>>)
    ensures |r| == |rows|
    ensures forall i :: 0 <= i < |rows| ==> r[i].id == rows[i].id
    ensures forall i :: 0 <= i < |rows| ==> r[i].data == if rows[i].id == id then v else rows[i].data
  {
    seq(|rows|, i requires 0 <= i < |rows| => if rows[i].id == id then Row(rows[i].id, v) else rows[i])
  }

  /** `Model.count({ where })`. */
  function Count<T(!new)>(rows: seq<Row<T>>, keep: Row<T> -> bool): (n: nat)
    ensures n > 0 <==> exists x :: x in rows && keep(x)
  {
    var r := Where(rows, keep);
    assert r != [] ==> r[0] in r;
    |r|
  }

  /** Rows newest first (`order: [["createdAt", "DESC"]]`). */
  function NewestFirst<T>(rows: seq<Row<T>>): (r: seq<Row<T>>)
    ensures |r| == |rows|
    ensures forall i :: 0 <= i < |rows| ==> r[i] == rows[|rows| - 1 - i]
  {
    if rows == [] then [] else NewestFirst(rows[1..]) + [rows[0]]
  }

  /** Reversing keeps exactly the rows, and turns increasing ids into
      strictly decreasing ones. */
  lemma NewestFirstFacts<T>(rows: seq<Row<T>>)
    requires Increasing(rows)
    ensures forall x :: x in NewestFirst(rows) <==> x in rows
    ensures forall i, j :: 0 <= i < j < |rows| ==> NewestFirst(rows)[i].id > NewestFirst(rows)[j].id
  {
    var r := NewestFirst(rows);
    forall x
      ensures x in r <==> x in rows
    {
      if x in r {
        var i :| 0 <= i < |r| && r[i] == x;
        assert rows[|rows| - 1 - i] == x;
      }
      if x in rows {
        var i :| 0 <= i < |rows| && rows[i] == x;
        assert r[|rows| - 1 - i] == x;
      }
    }
  }

  datatype Table<T(!new)> = Table(rows: seq<Row<T>>, nextId: nat)
  {
    /** Ids are positive, below the auto-increment counter, and increasing. */
    ghost predicate Valid()
    {
      && 1 <= nextId
      && (forall x :: x in rows ==> 1 <= x.id < nextId)
      && Increasing(rows)
    }

    function Get(id: int): Option<T>
    {
      Find(rows, id)
    }

    /** `Model.create`: a new row under the next id. */
    function Insert(v: T): Table<T>
    {
      Table(rows + [Row(nextId, v)], nextId + 1)
    }

    /** `instance.update` of row `id`. */
    function Put(id: int, v: T): Table<T>
    {
      Table(Replace(rows, id, v), nextId)
    }

    /** `instance.destroy` of row `id`. */
    function Remove(id: int): Table<T>
    {
      Table(Where(rows, (x: Row<T>) => x.id != id), nextId)
    }

    /** A cascading `destroy`: deletes every row not satisfying `keep`. */
    function Retain(keep: Row<T> -> bool): Table<T>
    {
      Table(Where(rows, keep), nextId)
    }
  }

  /** The empty table of a fresh database: ids start at 1. */
  function Empty<T(!new)>(): (t: Table<T>)
    ensures t.Valid() && t.rows == []
  {
    Table([], 1)
  }

  /** Under distinct ids, `findByPk` returns exactly the data stored under the id. */
  lemma {:induction false} GetIff<T(!new)>(t: Table<T>, id: int, v: T)
    requires t.Valid()
    ensures t.Get(id) == Some(v) <==> Row(id, v) in t.rows
  {
    if Row(id, v) in t.rows {
      var i :| 0 <= i < |t.rows| && t.rows[i] == Row(id, v);
      var w := t.Get(id).value;
      var j :| 0 <= j < |t.rows| && t.rows[j] == Row(id, w);
      assert !(i < j) && !(j < i);
    }
  }

  /** A filter keeps the ids increasing. */
  lemma {:induction false} WhereIncreasing<T(!new)>(rows: seq<Row<T>>, keep: Row<T> -> bool)
    requires Increasing(rows)
    ensures Increasing(Where(rows, keep))
  {
    if rows != [] {
      WhereIncreasing(rows[1..], keep);
      var rest := Where(rows[1..], keep);
      forall x | x in rest
        ensures rows[0].id < x.id
      {
        var j :| 0 <= j < |rows[1..]| && rows[1..][j] == x;
        assert rows[j + 1] == x;
      }
    }
  }

  /** Appending a row extends the filter by that row when it is kept. */
  lemma {:induction false} WhereAppend<T(!new)>(rows: seq<Row<T>>, x: Row<T>, keep: Row<T> -> bool)
    ensures Where(rows + [x], keep) == Where(rows, keep) + if keep(x) then [x] else []
  {
    if rows != [] {
      WhereAppend(rows[1..], x, keep);
      assert (rows + [x])[1..] == rows[1..] + [x];
    } else {
      assert [x][1..] == [];
    }
  }

  /** Filtering first with a weaker condition changes nothing. */
  lemma {:induction false} WhereWhere<T(!new)>(rows: seq<Row<T>>, weak: Row<T> -> bool, strong: Row<T> -> bool)
    requires forall x :: x in rows && strong(x) ==> weak(x)
    ensures Where(Where(rows, weak), strong) == Where(rows, strong)
  {
    if rows != [] {
      var head, tail := rows[0], rows[1..];
      assert rows == [head] + tail;
      assert forall x :: x in tail ==> x in rows;
      WhereWhere(tail, weak, strong);
      var inner := Where(rows, weak);
      assert strong(head) ==> weak(head);
      if weak(head) {
        assert inner == [head] + Where(tail, weak);
        WhereCons(head, Where(tail, weak), strong);
      } else {
        assert inner == Where(tail, weak);
      }
    }
  }

  /** How a filter treats the first row. */
  lemma WhereCons<T(!new)>(head: Row<T>, tail: seq<Row<T>>, keep: Row<T> -> bool)
    ensures Where([head] + tail, keep) == (if keep(head) then [head] else []) + Where(tail, keep)
  {
    assert ([head] + tail)[0] == head && ([head] + tail)[1..] == tail;
  }

  /** A filter that keeps nothing of the rows is empty. */
  lemma WhereNone<T(!new)>(rows: seq<Row<T>>, keep: Row<T> -> bool)
    requires forall x :: x in rows ==> !keep(x)
    ensures Where(rows, keep) == []
  {
  }

  /** Inserting keeps the table valid, stores the row, and leaves the other ids alone. */
  lemma InsertFacts<T(!new)>(t: Table<T>, v: T)
    requires t.Valid()
    ensures t.Insert(v).Valid()
    ensures t.Insert(v).Get(t.nextId) == Some(v)
    ensures forall k :: k != t.nextId ==> t.Insert(v).Get(k) == t.Get(k)
    ensures t.Get(t.nextId).None?
  {
    var u := t.Insert(v);
    assert Row(t.nextId, v) in u.rows;
    GetIff(u, t.nextId, v);
    forall k | k != t.nextId
      ensures u.Get(k) == t.Get(k)
    {
      if t.Get(k).Some? {
        GetIff(t, k, t.Get(k).value);
        GetIff(u, k, t.Get(k).value);
      }
    }
  }

  /** Replacing row `id` keeps the table valid; every id still present maps as before, except `id`. */
  lemma PutFacts<T(!new)>(t: Table<T>, id: int, v: T)
    requires t.Valid()
    requires t.Get(id).Some?
    ensures t.Put(id, v).Valid()
    ensures t.Put(id, v).Get(id) == Some(v)
    ensures forall k :: k != id ==> t.Put(id, v).Get(k) == t.Get(k)
    ensures forall x :: x in t.Put(id, v).rows <==> (x in t.rows && x.id != id) || x == Row(id, v)
  {
    var u := t.Put(id, v);
    PutRows(t, id, v);
    GetIff(u, id, v);
    forall k | k != id
      ensures u.Get(k) == t.Get(k)
    {
      if t.Get(k).Some? {
        GetIff(t, k, t.Get(k).value);
        GetIff(u, k, t.Get(k).value);
      }
    }
  }

  /** The rows after replacing row `id`: the others, and the new row `id`. */
  lemma PutRows<T(!new)>(t: Table<T>, id: int, v: T)
    requires t.Valid()
    requires t.Get(id).Some?
    ensures forall x :: x in t.Put(id, v).rows <==> (x in t.rows && x.id != id) || x == Row(id, v)
  {
    var u := t.Put(id, v);
    forall x | x in u.rows
      ensures (x in t.rows && x.id != id) || x == Row(id, v)
    {
      var i :| 0 <= i < |u.rows| && u.rows[i] == x;
    }
    forall x | (x in t.rows && x.id != id) || x == Row(id, v)
      ensures x in u.rows
    {
      if x == Row(id, v) {
        var w := t.Get(id).value;
        var i :| 0 <= i < |t.rows| && t.rows[i] == Row(id, w);
        assert u.rows[i] == x;
      } else {
        var i :| 0 <= i < |t.rows| && t.rows[i] == x;
        assert u.rows[i] == x;
      }
    }
  }

  /** Deleting rows keeps the table valid, keeps exactly the retained rows,
      and keeps a retained row under its id. */
  lemma RetainFacts<T(!new)>(t: Table<T>, keep: Row<T> -> bool)
    requires t.Valid()
    ensures t.Retain(keep).Valid()
    ensures forall x :: x in t.Retain(keep).rows <==> x in t.rows && keep(x)
    ensures forall k :: t.Retain(keep).Get(k) ==
                          (if t.Get(k).Some? && keep(Row(k, t.Get(k).value)) then t.Get(k) else None)
  {
    var u := t.Retain(keep);
    WhereIncreasing(t.rows, keep);
    forall k
      ensures u.Get(k) == if t.Get(k).Some? && keep(Row(k, t.Get(k).value)) then t.Get(k) else None
    {
      if t.Get(k).Some? {
        GetIff(t, k, t.Get(k).value);
        GetIff(u, k, t.Get(k).value);
      }
    }
  }

  /** Deleting row `id` keeps the table valid and every other id. */
  lemma RemoveFacts<T(!new)>(t: Table<T>, id: int)
    requires t.Valid()
    ensures t.Remove(id).Valid()
    ensures t.Remove(id).Get(id).None?
    ensures forall k :: k != id ==> t.Remove(id).Get(k) == t.Get(k)
  {
    var u := t.Remove(id);
    WhereIncreasing(t.rows, (x: Row<T>) => x.id != id);
    forall k | k != id
      ensures u.Get(k) == t.Get(k)
    {
      if t.Get(k).Some? {
        GetIff(t, k, t.Get(k).value);
        GetIff(u, k, t.Get(k).value);
      }
    }
  }
}

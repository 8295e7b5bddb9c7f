/** A database table as the site's routes see it: rows carry an id and a
    `created_at` timestamp, inserts append, and list queries order by
    `created_at`, newest first. */
module Store {

  /** One stored row: the database assigns `id` and `created_at`. */
  datatype Record<T> = Record(id: nat, createdAt: int, data: T)

  /** `order("created_at", { ascending: false })`: no row is older than a row after it. */
  ghost predicate NewestFirstOrder<T>(s: seq<Record<T>>)
  {
    forall i, j :: 0 <= i < j < |s| ==> s[i].createdAt >= s[j].createdAt
  }

  function InsertByAge<T>(x: Record<T>, s: seq<Record<T>>): (r: seq<Record<T>>)
    requires NewestFirstOrder(s)
    ensures NewestFirstOrder(r)
    ensures multiset(r) == multiset(s) + multiset{x}
    ensures |r| == |s| + 1 && (r[0] == x || (s != [] && r[0] == s[0]))
  {
    if s == [] || x.createdAt >= s[0].createdAt then [x] + s
    else
      var rest := InsertByAge(x, s[1..]);
      assert s[0].createdAt >= rest[0].createdAt;
      assert s == [s[0]] + s[1..];
      [s[0]] + rest
  }

  /** The rows of a table as a list query returns them. */
  function NewestFirst<T>(s: seq<Record<T>>): (r: seq<Record<T>>)
    ensures NewestFirstOrder(r)
    ensures multiset(r) == multiset(s)
  {
    if s == [] then []
    else
      assert s == [s[0]] + s[1..];
      InsertByAge(s[0], NewestFirst(s[1..]))
  }

  /** A batch inserted in one statement: consecutive ids from `firstId`, one timestamp. */
  function Stamped<T>(batch: seq<T>, firstId: nat, now: int): (r: seq<Record<T>>)
    ensures |r| == |batch|
    ensures forall k :: 0 <= k < |batch| ==> r[k] == Record(firstId + k, now, batch[k])
  {
    seq(|batch|, k requires 0 <= k < |batch| => Record(firstId + k, now, batch[k]))
  }

  /** Ids are assigned in increasing order and stay below the next id to hand out. */
  ghost predicate IdsBelow<T>(rows: seq<Record<T>>, nextId: nat)
  {
    (forall i :: 0 <= i < |rows| ==> rows[i].id < nextId)
    && (forall i, j :: 0 <= i < j < |rows| ==> rows[i].id < rows[j].id)
  }

  /** A table: its rows in insertion order and the id the next insert receives. */
  class Table<T> {
    var rows: seq<Record<T>>
    var nextId: nat

    ghost predicate Valid()
      reads this
    {
      IdsBelow(rows, nextId)
    }

    constructor ()
      ensures Valid() && rows == [] && nextId == 0
    {
      rows := [];
      nextId := 0;
    }

    /** `insert([data]).select().single()`: append one row stamped `now`. */
    method Insert(data: T, now: int) returns (rec: Record<T>)
      requires Valid()
      modifies this
      ensures Valid()
      ensures rec == Record(old(nextId), now, data)
      ensures rows == old(rows) + [rec] && nextId == old(nextId) + 1
    {
      rec := Record(nextId, now, data);
      rows := rows + [rec];
      nextId := nextId + 1;
    }

    /** `insert(batch)`: append every row of the batch, all stamped `now`. */
    method InsertAll(batch: seq<T>, now: int)
      requires Valid()
      modifies this
      ensures Valid()
      ensures nextId == old(nextId) + |batch|
      ensures rows == old(rows) + Stamped(batch, old(nextId), now)
    {
      var i := 0;
      while i < |batch|
        invariant 0 <= i <= |batch|
        invariant Valid()
        invariant nextId == old(nextId) + i
        invariant rows == old(rows) + Stamped(batch[..i], old(nextId), now)
      {
        var _ := Insert(batch[i], now);
        assert Stamped(batch[..i + 1], old(nextId), now)
            == Stamped(batch[..i], old(nextId), now) + [Record(old(nextId) + i, now, batch[i])];
        i := i + 1;
      }
      assert batch[..i] == batch;
    }
  }
}

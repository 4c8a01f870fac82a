/**
 * The generic repository: one in-memory table per entity, keyed by an integer
 * primary key that the table assigns, with `get_first`, `list`, `create`,
 * `update` and `delete`.
 */
module BaseRepository {
  import opened Wrappers

  /** Why a write to a table fails. */
  datatype DbError =
    | RowMissing   // `update` or `delete` found no row with that id and went on with `None`
    | ValueTooLong // the new row does not fit its columns, so the commit is refused

  /**
   * The row after `for key, value in kwargs.items(): setattr(obj, key, value)`:
   * the keyword arguments are applied in order, so a later one wins.
   */
  function Assign<T, F>(setField: (T, F) -> T, row: T, kwargs: seq<F>): T
    decreases |kwargs|
  {
    if kwargs == [] then row
    else setField(Assign(setField, row, kwargs[..|kwargs| - 1]), kwargs[|kwargs| - 1])
  }

  /**
   * A table of rows of type `T` updated through keyword arguments of type `F`.
   * `fits` is the table's column constraints and `setField` its `setattr`;
   * `nextId` is the primary-key sequence, so ids are never reused.
   */
  class Table<T, F> {
    var rows: map<int, T>
    var nextId: int
    const fits: T -> bool
    const setField: (T, F) -> T

    ghost predicate Valid()
      reads this
    {
      && 1 <= nextId
      && forall k :: k in rows ==> 1 <= k < nextId && fits(rows[k])
    }

    constructor (fits: T -> bool, setField: (T, F) -> T)
      ensures Valid()
      ensures rows == map[] && nextId == 1
      ensures this.fits == fits && this.setField == setField
    {
      this.fits := fits;
      this.setField := setField;
      rows := map[];
      nextId := 1;
    }

    /**
     * `select(model).filter_by(...).first()`. There is no `ORDER BY`, so any
     * matching row may come back; none comes back only when no row matches.
     * `key` is the primary key of the row returned.
     */
    method GetFirst(filter: T -> bool) returns (r: Option<T>, ghost key: int)
      ensures r.None? <==> forall k :: k in rows ==> !filter(rows[k])
      ensures r.Some? ==> key in rows && rows[key] == r.value && filter(r.value)
    {
      key := 0;
      if k :| k in rows && filter(rows[k]) {
        r, key := Some(rows[k]), k;
      } else {
        r := None;
      }
    }

    /**
     * `select(model)...all()`: every row exactly once, in no promised order.
     * `keys` gives the primary key of each listed row.
     */
    method List() returns (all: seq<T>, ghost keys: seq<int>)
      requires Valid()
      ensures |keys| == |all|
      ensures forall i :: 0 <= i < |all| ==> keys[i] in rows && all[i] == rows[keys[i]]
      ensures forall k :: k in rows ==> k in keys
      ensures forall k :: k in rows ==> rows[k] in all
      ensures forall i, j :: 0 <= i < j < |keys| ==> keys[i] != keys[j]
    {
      all, keys := [], [];
      for id := 1 to nextId
        invariant |keys| == |all|
        invariant forall i :: 0 <= i < |all| ==> keys[i] in rows && all[i] == rows[keys[i]]
        invariant forall i :: 0 <= i < |keys| ==> keys[i] < id
        invariant forall k :: k in rows && k < id ==> k in keys
        invariant forall k :: k in rows && k < id ==> rows[k] in all
        invariant forall i, j :: 0 <= i < j < |keys| ==> keys[i] != keys[j]
      {
        if id in rows {
          all, keys := all + [rows[id]], keys + [id];
        }
      }
    }

    /**
     * `session.add(model(**kwargs))` and commit: `make` builds the row from the
     * keyword arguments once the sequence gives it an id. A row that does not
     * fit its columns is refused and nothing changes.
     */
    method Create(make: int -> T) returns (r: Result<T, DbError>)
      requires Valid()
      modifies this
      ensures Valid()
      ensures fits(make(old(nextId))) ==>
                r == Ok(make(old(nextId))) && rows == old(rows)[old(nextId) := r.value] && nextId == old(nextId) + 1
      ensures !fits(make(old(nextId))) ==> r == Err(ValueTooLong) && rows == old(rows) && nextId == old(nextId)
    {
      var row := make(nextId);
      if fits(row) {
        rows := rows[nextId := row];
        nextId := nextId + 1;
        r := Ok(row);
      } else {
        r := Err(ValueTooLong);
      }
    }

    /**
     * `update(id_, **kwargs)`: sets the named fields of the row with that id, one
     * keyword argument at a time, then commits. A missing id fails, and so does a
     * row that no longer fits its columns; either way nothing changes.
     */
    method Update(id: int, kwargs: seq<F>) returns (r: Result<T, DbError>)
      requires Valid()
      modifies this
      ensures Valid() && nextId == old(nextId)
      ensures id !in old(rows) ==> r == Err(RowMissing) && rows == old(rows)
      ensures id in old(rows) ==>
                var row := Assign(setField, old(rows)[id], kwargs);
                if fits(row) then r == Ok(row) && rows == old(rows)[id := row]
                else r == Err(ValueTooLong) && rows == old(rows)
    {
      if id !in rows {
        return Err(RowMissing);
      }
      var obj := rows[id];
      for i := 0 to |kwargs|
        invariant obj == Assign(setField, rows[id], kwargs[..i])
      {
        assert kwargs[..i + 1][..i] == kwargs[..i];
        obj := setField(obj, kwargs[i]);
      }
      assert kwargs[..|kwargs|] == kwargs;
      if fits(obj) {
        rows := rows[id := obj];
        r := Ok(obj);
      } else {
        r := Err(ValueTooLong);
      }
    }

    /** `delete(id_)`: removes the row with that id; a missing id fails. */
    method Delete(id: int) returns (r: Result<(), DbError>)
      requires Valid()
      modifies this
      ensures Valid() && nextId == old(nextId)
      ensures r == (if id in old(rows) then Ok(()) else Err(RowMissing))
      ensures rows == old(rows) - {id}
    {
      if id in rows {
        rows := rows - {id};
        r := Ok(());
      } else {
        r := Err(RowMissing);
      }
    }

    /** Removes every row `orphaned` selects: the delete cascade from a parent row. */
    method RemoveWhere(orphaned: T -> bool)
      requires Valid()
      modifies this
      ensures Valid() && nextId == old(nextId)
      ensures forall k :: k in rows <==> k in old(rows) && !orphaned(old(rows)[k])
      ensures forall k :: k in rows ==> rows[k] == old(rows)[k]
    {
      rows := map k | k in rows && !orphaned(rows[k]) :: rows[k];
    }
  }
}

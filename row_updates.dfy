/**
 * What the repository's `update(id_, **kwargs)` does to one row of each table:
 * a column named by a keyword argument takes the value of the last argument
 * naming it, and every other column, the primary key included, is unchanged.
 */
module RowUpdates {
  import opened Wrappers
  import opened LibraryModels
  import opened BaseRepository

  // ---------------------------------------------------------------- Book

  lemma {:induction false} UpdateBookKeepsId(b: Book, kwargs: seq<BookField>)
    ensures Assign(SetBookField, b, kwargs).id == b.id
    decreases |kwargs|
  {
    if kwargs != [] {
      UpdateBookKeepsId(b, kwargs[..|kwargs| - 1]);
    }
  }

  lemma {:induction false} UpdateBookKeepsUnnamed(b: Book, kwargs: seq<BookField>, c: BookColumn)
    requires forall i :: 0 <= i < |kwargs| ==> kwargs[i].Column() != c
    ensures SameBookColumn(b, Assign(SetBookField, b, kwargs), c)
    decreases |kwargs|
  {
    if kwargs != [] {
      var init := kwargs[..|kwargs| - 1];
      UpdateBookKeepsUnnamed(b, init, c);
      var before := Assign(SetBookField, b, init);
      assert SameBookColumn(before, SetBookField(before, kwargs[|kwargs| - 1]), c);
    }
  }

  lemma {:induction false} UpdateBookTakesLast(b: Book, kwargs: seq<BookField>, i: nat)
    requires i < |kwargs|
    requires forall j :: i < j < |kwargs| ==> kwargs[j].Column() != kwargs[i].Column()
    ensures BookHas(Assign(SetBookField, b, kwargs), kwargs[i])
    decreases |kwargs|
  {
    var init := kwargs[..|kwargs| - 1];
    if i < |kwargs| - 1 {
      assert init[i] == kwargs[i];
      UpdateBookTakesLast(b, init, i);
      var before := Assign(SetBookField, b, init);
      assert SameBookColumn(before, SetBookField(before, kwargs[|kwargs| - 1]), kwargs[i].Column());
    }
  }

  /** The two keyword arguments the lending rules pass: `is_borrowed=..., user_id=...`. */
  lemma UpdateBookLending(b: Book, borrowed: bool, holder: Option<string>)
    ensures Assign(SetBookField, b, [SetIsBorrowed(borrowed), SetUserId(holder)])
            == b.(isBorrowed := borrowed, userId := holder)
  {
    var kwargs := [SetIsBorrowed(borrowed), SetUserId(holder)];
    var b' := Assign(SetBookField, b, kwargs);
    UpdateBookKeepsId(b, kwargs);
    UpdateBookKeepsUnnamed(b, kwargs, TitleColumn);
    UpdateBookKeepsUnnamed(b, kwargs, AuthorColumn);
    UpdateBookTakesLast(b, kwargs, 0);
    UpdateBookTakesLast(b, kwargs, 1);
  }

  // --------------------------------------------------------- Reservation

  lemma {:induction false} UpdateReservationKeepsKeys(r: Reservation, kwargs: seq<ReservationField>)
    ensures var r' := Assign(SetReservationField, r, kwargs);
            r'.id == r.id && r'.bookId == r.bookId && r'.createAt == r.createAt
    decreases |kwargs|
  {
    if kwargs != [] {
      UpdateReservationKeepsKeys(r, kwargs[..|kwargs| - 1]);
    }
  }

  lemma {:induction false} UpdateReservationKeepsUnnamed(r: Reservation, kwargs: seq<ReservationField>, c: ReservationColumn)
    requires forall i :: 0 <= i < |kwargs| ==> kwargs[i].Column() != c
    ensures SameReservationColumn(r, Assign(SetReservationField, r, kwargs), c)
    decreases |kwargs|
  {
    if kwargs != [] {
      var init := kwargs[..|kwargs| - 1];
      UpdateReservationKeepsUnnamed(r, init, c);
      var before := Assign(SetReservationField, r, init);
      assert SameReservationColumn(before, SetReservationField(before, kwargs[|kwargs| - 1]), c);
    }
  }

  lemma {:induction false} UpdateReservationTakesLast(r: Reservation, kwargs: seq<ReservationField>, i: nat)
    requires i < |kwargs|
    requires forall j :: i < j < |kwargs| ==> kwargs[j].Column() != kwargs[i].Column()
    ensures ReservationHas(Assign(SetReservationField, r, kwargs), kwargs[i])
    decreases |kwargs|
  {
    var init := kwargs[..|kwargs| - 1];
    if i < |kwargs| - 1 {
      assert init[i] == kwargs[i];
      UpdateReservationTakesLast(r, init, i);
      var before := Assign(SetReservationField, r, init);
      assert SameReservationColumn(before, SetReservationField(before, kwargs[|kwargs| - 1]), kwargs[i].Column());
    }
  }

  /** The one keyword argument the lending rules pass to a reservation: `status=...`. */
  lemma UpdateReservationStatus(r: Reservation, s: Status)
    ensures Assign(SetReservationField, r, [SetStatus(s)]) == r.(status := s)
  {
    var kwargs := [SetStatus(s)];
    UpdateReservationKeepsKeys(r, kwargs);
    UpdateReservationKeepsUnnamed(r, kwargs, RequesterColumn);
    UpdateReservationTakesLast(r, kwargs, 0);
  }
}

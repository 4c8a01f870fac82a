/**
 * The lending rules of the book service: `create`, `delete`, `borrow_book`,
 * `list_books` and `return_book`.
 *
 * The module first states each handler as a function on `Store`, the two
 * tables as values, together with the invariants the handlers keep. The class
 * `Library` then runs the handlers step by step against two repository tables
 * and is proved to produce exactly what those functions say.
 */
module Router {
  import opened Wrappers
  import opened LibraryModels
  import opened BaseRepository
  import opened RowUpdates

  /** Both tables, with the next id each primary-key sequence hands out. */
  datatype Store = Store(
    books: map<int, Book>,
    reservations: map<int, Reservation>,
    nextBookId: int,
    nextReservationId: int)

  /**
   * The distinct failures of the handlers: "Book not found", "You already
   * borrowed", "Book is already reserved", "Book is not reserved", "You are not
   * the borrower", and a write the database refuses.
   */
  datatype LendError =
    | NotFound
    | AlreadyBorrowed
    | AlreadyReserved
    | NotBorrowed
    | NotBorrower
    | StorageFailure(cause: DbError)

  /** What a successful borrow hands back: the lent book, or the queued reservation. */
  datatype BorrowOutcome = Borrowed(book: Book) | Queued(reservation: Reservation)

  /** What a successful return hands back: the book and the user it passed to, if any. */
  datatype Returned = Returned(book: Book, nextUserId: Option<string>)

  /** The store before any book is created. */
  function Empty(): Store
  {
    Store(map[], map[], 1, 1)
  }

  // ------------------------------------------------------------ invariants

  /** Every book sits under its own id, fits its columns and is borrowed exactly when it has a holder. */
  ghost predicate BooksWellFormed(s: Store)
  {
    && 1 <= s.nextBookId
    && forall k :: k in s.books ==>
         s.books[k].id == k && k < s.nextBookId && BookFits(s.books[k]) && HolderConsistent(s.books[k])
  }

  /** Every reservation sits under its own id, fits its columns and refers to an existing book. */
  ghost predicate ReservationsWellFormed(s: Store)
  {
    && 1 <= s.nextReservationId
    && forall k :: k in s.reservations ==>
         && s.reservations[k].id == k
         && k < s.nextReservationId
         && ReservationFits(s.reservations[k])
         && s.reservations[k].bookId in s.books
  }

  predicate IsPendingFor(r: Reservation, bookId: int)
  {
    r.bookId == bookId && r.status == Pending
  }

  /** At most one pending reservation per (book, user). */
  ghost predicate OnePendingPerUser(s: Store)
  {
    forall j, k ::
      j in s.reservations && k in s.reservations
      && s.reservations[k].status == Pending
      && IsPendingFor(s.reservations[j], s.reservations[k].bookId)
      && s.reservations[j].userId == s.reservations[k].userId
      ==> j == k
  }

  /**
   * A pending reservation waits behind a holder: its book is borrowed, and by
   * someone other than the user who queued.
   */
  ghost predicate QueuedBehindHolder(s: Store)
  {
    forall k :: k in s.reservations && s.reservations[k].status == Pending ==>
      var b := s.reservations[k].bookId;
      b in s.books && s.books[b].isBorrowed && s.books[b].userId != Some(s.reservations[k].userId)
  }

  ghost predicate Inv(s: Store)
  {
    BooksWellFormed(s) && ReservationsWellFormed(s) && OnePendingPerUser(s) && QueuedBehindHolder(s)
  }

  /** `user` has a pending reservation for the book. */
  predicate HasPending(s: Store, bookId: int, user: string)
  {
    exists k :: k in s.reservations && IsPendingFor(s.reservations[k], bookId) && s.reservations[k].userId == user
  }

  /**
   * The reservation `get_first(book_id=..., status="pending")` may return:
   * any pending reservation of the book, and none only when there is none.
   */
  ghost predicate Promotable(s: Store, bookId: int, pick: Option<int>)
  {
    match pick
    case None => forall k :: k in s.reservations ==> !IsPendingFor(s.reservations[k], bookId)
    case Some(k) => k in s.reservations && IsPendingFor(s.reservations[k], bookId)
  }

  // -------------------------------------------------------------- handlers

  /** `create`: a new book under a fresh id, available and without a holder. */
  function Create(s: Store, title: string, author: string): (out: (Store, Result<Book, LendError>))
    ensures out.1.Ok? <==> |title| <= TitleWidth && |author| <= AuthorWidth
    ensures out.1.Err? ==> out.1.error == StorageFailure(ValueTooLong) && out.0 == s
    ensures out.1.Ok? ==>
              var b := out.1.value;
              && b.title == title && b.author == author && !b.isBorrowed && b.userId == None
              && out.0.books == s.books[b.id := b]
              && out.0.reservations == s.reservations
    ensures Inv(s) && out.1.Ok? ==> out.1.value.id !in s.books
    ensures Inv(s) ==> Inv(out.0)
  {
    var b := NewBook(s.nextBookId, title, author);
    if !BookFits(b) then (s, Err(StorageFailure(ValueTooLong)))
    else (s.(books := s.books[b.id := b], nextBookId := s.nextBookId + 1), Ok(b))
  }

  /**
   * `delete`: removes the book and, through the cascade, every reservation of
   * it. A missing id is an error and changes nothing.
   */
  function Delete(s: Store, bookId: int): (out: (Store, Result<(), LendError>))
    ensures out.1.Ok? <==> bookId in s.books
    ensures out.1.Err? ==> out.1.error == StorageFailure(RowMissing) && out.0 == s
    ensures out.0.books == s.books - {bookId}
    ensures out.1.Ok? ==>
              forall k :: k in out.0.reservations <==> k in s.reservations && s.reservations[k].bookId != bookId
    ensures forall k :: k in out.0.reservations ==> out.0.reservations[k] == s.reservations[k]
    ensures Inv(s) ==> Inv(out.0)
  {
    if bookId !in s.books then (s, Err(StorageFailure(RowMissing)))
    else
      var kept := map k | k in s.reservations && s.reservations[k].bookId != bookId :: s.reservations[k];
      (s.(books := s.books - {bookId}, reservations := kept), Ok(()))
  }

  /**
   * `borrow_book`: the checks run in a fixed order (missing book, caller already
   * holds it, caller already queued); then an available book is lent to the
   * caller, and a borrowed one gets a new pending reservation for the caller.
   */
  function Borrow(s: Store, bookId: int, user: string, now: nat): (out: (Store, Result<BorrowOutcome, LendError>))
    ensures out.1.Err? ==> out.0 == s
    ensures out.1 == Err(NotFound) <==> bookId !in s.books
    ensures out.1 == Err(AlreadyBorrowed) <==> bookId in s.books && s.books[bookId].userId == Some(user)
    ensures out.1 == Err(AlreadyReserved) <==>
              bookId in s.books && s.books[bookId].userId != Some(user) && HasPending(s, bookId, user)
    ensures out.1.Ok? && out.1.value.Borrowed? ==>
              && bookId in s.books && !s.books[bookId].isBorrowed
              && out.1.value.book == s.books[bookId].(isBorrowed := true, userId := Some(user))
              && out.0 == s.(books := s.books[bookId := out.1.value.book])
    ensures out.1.Ok? && out.1.value.Queued? ==>
              var r := out.1.value.reservation;
              && bookId in s.books && s.books[bookId].isBorrowed
              && r.bookId == bookId && r.userId == user && r.status == Pending && r.createAt == now
              && out.0.books == s.books
              && out.0.reservations == s.reservations[r.id := r]
    ensures Inv(s) && out.1.Ok? && out.1.value.Queued? ==> out.1.value.reservation.id !in s.reservations
    ensures Inv(s) ==>
              (out.1 == Err(StorageFailure(ValueTooLong)) <==>
                 && bookId in s.books && s.books[bookId].userId != Some(user)
                 && !HasPending(s, bookId, user) && |user| > UserIdWidth)
    ensures Inv(s) ==>
              (out.1.Ok? <==>
                 && bookId in s.books && s.books[bookId].userId != Some(user)
                 && !HasPending(s, bookId, user) && |user| <= UserIdWidth)
    ensures out.1.Ok? ==> bookId in s.books && (out.1.value.Borrowed? <==> !s.books[bookId].isBorrowed)
    ensures Inv(s) ==> Inv(out.0)
  {
    if bookId !in s.books then (s, Err(NotFound))
    else
      var book := s.books[bookId];
      if book.userId == Some(user) then (s, Err(AlreadyBorrowed))
      else if HasPending(s, bookId, user) then (s, Err(AlreadyReserved))
      else if book.isBorrowed then
        var r := NewReservation(s.nextReservationId, bookId, user, now);
        if !ReservationFits(r) then (s, Err(StorageFailure(ValueTooLong)))
        else
          var s' := s.(reservations := s.reservations[r.id := r], nextReservationId := s.nextReservationId + 1);
          (s', Ok(Queued(r)))
      else
        var b := book.(isBorrowed := true, userId := Some(user));
        if !BookFits(b) then (s, Err(StorageFailure(ValueTooLong)))
        else (s.(books := s.books[bookId := b]), Ok(Borrowed(b)))
  }

  /**
   * `return_book`: only the holder of a borrowed book may return it. The book
   * is cleared, then the pending reservation `pick` of it, if any, is marked
   * fulfilled and its user becomes the new holder and is reported back.
   */
  function Return(s: Store, bookId: int, user: string, pick: Option<int>): (out: (Store, Result<Returned, LendError>))
    requires pick.Some? ==> pick.value in s.reservations
    ensures out.1.Err? ==> out.0 == s
    ensures out.1 == Err(NotFound) <==> bookId !in s.books
    ensures out.1 == Err(NotBorrowed) <==> bookId in s.books && !s.books[bookId].isBorrowed
    ensures out.1 == Err(NotBorrower) <==>
              bookId in s.books && s.books[bookId].isBorrowed && s.books[bookId].userId != Some(user)
    ensures out.1.Ok? <==> bookId in s.books && s.books[bookId].isBorrowed && s.books[bookId].userId == Some(user)
    ensures out.1.Ok? && pick.None? ==>
              && out.1.value.nextUserId == None
              && out.1.value.book == s.books[bookId].(isBorrowed := false, userId := None)
              && out.0 == s.(books := s.books[bookId := out.1.value.book])
    ensures out.1.Ok? && pick.Some? ==>
              var r := s.reservations[pick.value];
              && out.1.value.nextUserId == Some(r.userId)
              && out.1.value.book == s.books[bookId].(isBorrowed := true, userId := Some(r.userId))
              && out.0.books == s.books[bookId := out.1.value.book]
              && out.0.reservations == s.reservations[pick.value := r.(status := Fulfilled)]
              && out.0.nextBookId == s.nextBookId && out.0.nextReservationId == s.nextReservationId
    ensures Inv(s) && Promotable(s, bookId, pick) ==> Inv(out.0)
  {
    if bookId !in s.books then (s, Err(NotFound))
    else
      var book := s.books[bookId];
      if !book.isBorrowed then (s, Err(NotBorrowed))
      else if book.userId != Some(user) then (s, Err(NotBorrower))
      else
        match pick
        case None =>
          var b := book.(isBorrowed := false, userId := None);
          (s.(books := s.books[bookId := b]), Ok(Returned(b, None)))
        case Some(k) =>
          var r := s.reservations[k];
          var b := book.(isBorrowed := true, userId := Some(r.userId));
          var s' := s.(books := s.books[bookId := b], reservations := s.reservations[k := r.(status := Fulfilled)]);
          (s', Ok(Returned(b, Some(r.userId))))
  }

  // ------------------------------------------------------------ the service

  /**
   * The handlers run against the two repository tables. Each handler reads rows
   * and then writes through `update` and `create`, one step at a time, and ends
   * in the state, with the result, that the function of the same name gives.
   */
  class Library {
    const books: Table<Book, BookField>
    const reservations: Table<Reservation, ReservationField>

    /** The two tables as a value. */
    ghost function State(): Store
      reads books, reservations
    {
      Store(books.rows, reservations.rows, books.nextId, reservations.nextId)
    }

    /** Each table carries its entity's column constraints and `setattr`, and is well formed. */
    ghost predicate TablesValid()
      reads books, reservations
    {
      && books.fits == BookFits && books.setField == SetBookField
      && reservations.fits == ReservationFits && reservations.setField == SetReservationField
      && books.Valid() && reservations.Valid()
    }

    ghost predicate Valid()
      reads books, reservations
    {
      TablesValid() && Inv(State())
    }

    constructor ()
      ensures Valid() && State() == Empty()
    {
      books := new Table(BookFits, SetBookField);
      reservations := new Table(ReservationFits, SetReservationField);
    }

    /** `get_first(id=book_id)`: under the invariant, the row stored under that id. */
    method FindBook(bookId: int) returns (book: Option<Book>)
      requires Valid()
      ensures book == (if bookId in books.rows then Some(books.rows[bookId]) else None)
    {
      ghost var key;
      book, key := books.GetFirst((b: Book) => b.id == bookId);
    }

    method CreateBook(title: string, author: string) returns (r: Result<Book, LendError>)
      requires Valid()
      modifies books
      ensures Valid()
      ensures (State(), r) == Create(old(State()), title, author)
    {
      var created := books.Create(id => NewBook(id, title, author));
      if created.Err? {
        return Err(StorageFailure(created.error));
      }
      r := Ok(created.value);
    }

    method DeleteBook(bookId: int) returns (r: Result<(), LendError>)
      requires Valid()
      modifies books, reservations
      ensures Valid()
      ensures (State(), r) == Delete(old(State()), bookId)
    {
      var deleted := books.Delete(bookId);
      if deleted.Err? {
        return Err(StorageFailure(deleted.error));
      }
      reservations.RemoveWhere((res: Reservation) => res.bookId == bookId);
      r := Ok(());
      ghost var kept := Delete(old(State()), bookId).0.reservations;
      assert forall k :: k in reservations.rows <==> k in kept;
      assert forall k :: k in kept ==> reservations.rows[k] == kept[k];
      assert reservations.rows == kept;
    }

    method BorrowBook(bookId: int, user: string, now: nat) returns (r: Result<BorrowOutcome, LendError>)
      requires Valid()
      modifies books, reservations
      ensures Valid()
      ensures (State(), r) == Borrow(old(State()), bookId, user, now)
    {
      ghost var s := State();
      var book := FindBook(bookId);
      if book.None? {
        return Err(NotFound);
      }
      if book.value.userId == Some(user) {
        return Err(AlreadyBorrowed);
      }
      ghost var key;
      var active;
      active, key := reservations.GetFirst((res: Reservation) => res.bookId == bookId && res.userId == user && res.status == Pending);
      if active.Some? {
        assert IsPendingFor(s.reservations[key], bookId) && s.reservations[key].userId == user;
        return Err(AlreadyReserved);
      }
      assert !HasPending(s, bookId, user);
      ghost var out := Borrow(s, bookId, user, now);
      assert Inv(out.0);
      if book.value.isBorrowed {
        var created := reservations.Create(id => NewReservation(id, bookId, user, now));
        if created.Err? {
          return Err(StorageFailure(created.error));
        }
        r := Ok(Queued(created.value));
      } else {
        UpdateBookLending(book.value, true, Some(user));
        var updated := books.Update(bookId, [SetIsBorrowed(true), SetUserId(Some(user))]);
        if updated.Err? {
          return Err(StorageFailure(updated.error));
        }
        r := Ok(Borrowed(updated.value));
      }
      assert State() == out.0;
    }

    /** `list_books`: every stored book, each exactly once. */
    method ListBooks() returns (all: seq<Book>)
      requires Valid()
      ensures forall k :: k in books.rows ==> books.rows[k] in all
      ensures forall b :: b in all ==> b.id in books.rows && books.rows[b.id] == b
      ensures forall i, j :: 0 <= i < j < |all| ==> all[i].id != all[j].id
    {
      ghost var keys;
      all, keys := books.List();
      forall k | k in books.rows
        ensures books.rows[k] in all
      {
        var i :| 0 <= i < |keys| && keys[i] == k;
        assert all[i] == books.rows[k];
      }
    }

    /**
     * `pick` is the reservation the lookup of a pending reservation returned;
     * the source leaves open which one, so the contract holds for any of them.
     */
    method ReturnBook(bookId: int, user: string) returns (r: Result<Returned, LendError>, ghost pick: Option<int>)
      requires Valid()
      modifies books, reservations
      ensures Valid()
      ensures pick.Some? ==> pick.value in old(reservations.rows)
      ensures r.Ok? ==> Promotable(old(State()), bookId, pick)
      ensures (State(), r) == Return(old(State()), bookId, user, pick)
    {
      pick := None;
      var book := FindBook(bookId);
      if book.None? {
        return Err(NotFound), pick;
      }
      if !book.value.isBorrowed {
        return Err(NotBorrowed), pick;
      }
      if book.value.userId != Some(user) {
        return Err(NotBorrower), pick;
      }
      var nextUserId;
      nextUserId, pick := PassOn(bookId);
      var updated := FindBook(bookId);
      r := Ok(Returned(updated.value, nextUserId));
    }

    /**
     * The writes of a return once its checks pass: clear the holder, look up a
     * pending reservation of the book, and if there is one pass the book on.
     */
    method PassOn(bookId: int) returns (nextUserId: Option<string>, ghost pick: Option<int>)
      requires Valid() && bookId in books.rows && books.rows[bookId].isBorrowed
      modifies books, reservations
      ensures Valid()
      ensures Promotable(old(State()), bookId, pick)
      ensures pick.Some? ==> nextUserId == Some(old(reservations.rows)[pick.value].userId)
      ensures pick.None? ==> nextUserId == None
      ensures State() == Return(old(State()), bookId, old(books.rows)[bookId].userId.value, pick).0
    {
      ghost var s := State();
      ghost var book := books.rows[bookId];
      UpdateBookLending(book, false, None);
      var cleared := books.Update(bookId, [SetIsBorrowed(false), SetUserId(None)]);
      assert books.rows == s.books[bookId := book.(isBorrowed := false, userId := None)];
      ghost var key;
      var first;
      first, key := reservations.GetFirst((res: Reservation) => res.bookId == bookId && res.status == Pending);
      pick, nextUserId := None, None;
      if first.Some? {
        assert key == first.value.id;
        assert ReservationFits(s.reservations[key]);
        pick, nextUserId := Some(first.value.id), Some(first.value.userId);
        Promote(bookId, first.value);
        assert books.rows == s.books[bookId := book.(isBorrowed := true, userId := nextUserId)];
      }
      ghost var out := Return(s, bookId, book.userId.value, pick);
      assert Inv(out.0);
      assert State() == out.0;
    }

    /**
     * The promotion step of a return: mark the reservation fulfilled, then make
     * its user the holder of the book.
     */
    method Promote(bookId: int, first: Reservation)
      requires TablesValid() && bookId in books.rows && BookFits(books.rows[bookId])
      requires first.id in reservations.rows && reservations.rows[first.id] == first && |first.userId| <= UserIdWidth
      modifies books, reservations
      ensures TablesValid()
      ensures reservations.rows == old(reservations.rows)[first.id := first.(status := Fulfilled)]
      ensures books.rows == old(books.rows)[bookId := old(books.rows)[bookId].(isBorrowed := true, userId := Some(first.userId))]
      ensures books.nextId == old(books.nextId) && reservations.nextId == old(reservations.nextId)
    {
      UpdateReservationStatus(first, Fulfilled);
      var fulfilled := reservations.Update(first.id, [SetStatus(Fulfilled)]);
      UpdateBookLending(books.rows[bookId], true, Some(first.userId));
      var promoted := books.Update(bookId, [SetIsBorrowed(true), SetUserId(Some(first.userId))]);
    }
  }
}

/**
 * Properties of the lending rules that relate several handler calls, and the
 * walkthrough of creating, lending, queueing and returning one book.
 */
module RouterProperties {
  import opened Wrappers
  import opened LibraryModels
  import opened Router

  /** The empty store satisfies the lending invariant. */
  lemma EmptyKeepsInv()
    ensures Inv(Empty())
  {
  }

  /**
   * A return cannot be repeated: after the holder returns a book, the same call
   * fails, with `NotBorrowed` when nobody was queued and `NotBorrower` when the
   * book passed to a queued user, so the queue is never promoted twice.
   */
  lemma ReturnTwiceFails(s: Store, bookId: int, user: string, pick: Option<int>, again: Option<int>)
    requires Inv(s) && Promotable(s, bookId, pick)
    requires Return(s, bookId, user, pick).1.Ok?
    requires again.Some? ==> again.value in Return(s, bookId, user, pick).0.reservations
    ensures var s' := Return(s, bookId, user, pick).0;
            Return(s', bookId, user, again).1 == (if pick.Some? then Err(NotBorrower) else Err(NotBorrowed))
  {
    if pick.Some? {
      var r := s.reservations[pick.value];
      assert s.books[bookId].userId != Some(r.userId);
    }
  }

  /**
   * A borrow cannot be repeated: after a successful borrow the same call fails,
   * with `AlreadyBorrowed` if the book was lent to the caller and
   * `AlreadyReserved` if the caller was queued; a user never holds two pending
   * reservations for one book.
   */
  lemma BorrowTwiceFails(s: Store, bookId: int, user: string, now: nat, later: nat)
    requires Inv(s) && Borrow(s, bookId, user, now).1.Ok?
    ensures var (s', r) := Borrow(s, bookId, user, now);
            Borrow(s', bookId, user, later).1 == (if r.value.Borrowed? then Err(AlreadyBorrowed) else Err(AlreadyReserved))
  {
    var (s', r) := Borrow(s, bookId, user, now);
    if r.value.Queued? {
      var q := r.value.reservation;
      assert q.id in s'.reservations && IsPendingFor(s'.reservations[q.id], bookId) && s'.reservations[q.id].userId == user;
    }
  }

  /**
   * Only a queued user can become the holder on a return; the book stays lent
   * exactly when someone was queued for it, and the promoted user is left with
   * no pending reservation for it.
   */
  lemma ReturnPromotesQueuedUser(s: Store, bookId: int, user: string, pick: Option<int>)
    requires Inv(s) && Promotable(s, bookId, pick)
    requires Return(s, bookId, user, pick).1.Ok?
    ensures var (s', r) := Return(s, bookId, user, pick);
            && (r.value.nextUserId.Some? <==> exists k :: k in s.reservations && IsPendingFor(s.reservations[k], bookId))
            && s'.books[bookId].isBorrowed == r.value.nextUserId.Some?
            && s'.books[bookId].userId == r.value.nextUserId
            && (r.value.nextUserId.Some? ==>
                  HasPending(s, bookId, r.value.nextUserId.value) && !HasPending(s', bookId, r.value.nextUserId.value))
  {
    var (s', r) := Return(s, bookId, user, pick);
    if pick.Some? {
      var k := pick.value;
      var u := s.reservations[k].userId;
      assert HasPending(s, bookId, u);
    }
  }

  /**
   * Promotion does not follow arrival order: in a store where `u2` queued
   * before `u3`, the lookup may return `u3`'s reservation, and then `u3` gets
   * the book while `u2` keeps waiting.
   */
  lemma PromotionIgnoresArrivalOrder()
    ensures var s := Store(
              map[1 := Book(1, "Dune", "Herbert", true, Some("u1"))],
              map[1 := Reservation(1, 1, "u2", 10, Pending), 2 := Reservation(2, 1, "u3", 20, Pending)],
              2, 3);
            && Inv(s)
            && Promotable(s, 1, Some(2))
            && s.reservations[1].createAt < s.reservations[2].createAt
            && Return(s, 1, "u1", Some(2)).1 == Ok(Returned(Book(1, "Dune", "Herbert", true, Some("u3")), Some("u3")))
            && Return(s, 1, "u1", Some(2)).0.reservations[1].status == Pending
  {
  }

  /**
   * The walkthrough of one book: "u1" borrows it, "u2" queues, "u1" returns it
   * to "u2", "u2" returns it with nobody queued; a second borrow by the holder
   * and a return of an unknown book fail.
   */
  lemma LendingWalkthrough(pick: Option<int>)
    requires var s3 := Borrow(Borrow(Create(Empty(), "Dune", "Herbert").0, 1, "u1", 0).0, 1, "u2", 1).0;
             Promotable(s3, 1, pick)
    ensures var (s1, created) := Create(Empty(), "Dune", "Herbert");
            var (s2, lent) := Borrow(s1, 1, "u1", 0);
            var (s3, queued) := Borrow(s2, 1, "u2", 1);
            && created == Ok(Book(1, "Dune", "Herbert", false, None))
            && lent == Ok(Borrowed(Book(1, "Dune", "Herbert", true, Some("u1"))))
            && Borrow(s2, 1, "u1", 1).1 == Err(AlreadyBorrowed)
            && queued == Ok(Queued(Reservation(1, 1, "u2", 1, Pending)))
            && pick == Some(1)
            && var (s4, passed) := Return(s3, 1, "u1", pick);
               && passed == Ok(Returned(Book(1, "Dune", "Herbert", true, Some("u2")), Some("u2")))
               && s4.reservations[1].status == Fulfilled
               && Promotable(s4, 1, None)
               && Return(s4, 1, "u2", None).1 == Ok(Returned(Book(1, "Dune", "Herbert", false, None), None))
               && Return(s4, 7, "u1", None).1 == Err(NotFound)
  {
    var s3 := Borrow(Borrow(Create(Empty(), "Dune", "Herbert").0, 1, "u1", 0).0, 1, "u2", 1).0;
    assert s3.reservations == map[1 := Reservation(1, 1, "u2", 1, Pending)];
  }
}

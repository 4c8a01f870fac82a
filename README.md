# Book lending service: a verified model

This project models the core of a small book-lending web service in Dafny. Users borrow a book; if
someone else already holds it, they are queued with a `pending` reservation. When the holder returns
the book, one pending reservation is marked `fulfilled`, its user becomes the new holder, and that
user's id is reported back so that they can be notified.

The model follows the source's three core files:

- `library_models.dfy` (module `LibraryModels`) covers `library_api/models/library_models.py`. It has
  the `Book` and `Reservation` rows and their column defaults. It has the widths of the string
  columns (`String(30)`, `String(20)`) and the status values `pending`, `canceled` and `fulfilled`.
  It also states what one keyword argument of `update` (a `setattr`) does to a row.
- `base_repository.dfy` (module `BaseRepository`) covers `library_api/database/base_repository.py`.
  It is one generic class `Table<T, F>`: a map from primary key to row, plus the primary-key
  sequence. It offers `GetFirst`, `List`, `Create`, `Update` (a loop over the keyword arguments)
  and `Delete`, and `RemoveWhere` for the delete cascade. The book table and the reservation table
  are two instances of it.
- `row_updates.dfy` (module `RowUpdates`) proves what `update(id_, **kwargs)` does to a row of each
  table. A named column takes the value of the last keyword naming it. Every other column, and the
  primary key, stays as it was.
- `router.dfy` (module `Router`) covers `library_api/api/router.py`. Each handler is first stated
  as a function on `Store`, which holds both tables as values: `Create`, `Delete`, `Borrow` and
  `Return`. The lending invariant `Inv` sits beside them. The class `Library` then runs each
  handler step by step against the two tables. Each method's `ensures` says it ends in the state,
  with the result, that the function of the same name gives.
- `router_properties.dfy` (module `RouterProperties`) holds properties that relate several calls,
  and a walkthrough of one book from creation to its last return.

The lending invariant `Inv`, kept by every handler, says:

- a book is borrowed exactly when it has a holder;
- every row sits under its own id, below the next id of its sequence, and fits its columns;
- every reservation refers to an existing book, so no reservation outlives its book;
- there is at most one pending reservation per (book, user);
- a pending reservation waits behind a holder: its book is borrowed, by someone other than the
  user who queued.

The borrow response comes in two shapes in the source. The model uses a tagged result instead:
`Borrowed(book)` or `Queued(reservation)`. The source's HTTP exceptions become the error kinds
`NotFound`, `AlreadyBorrowed`, `AlreadyReserved`, `NotBorrowed` and `NotBorrower`. A write that
the database refuses becomes `StorageFailure`.

Promotion order follows the lookup at `library_api/api/router.py:90`. It asks for a pending
reservation with `get_first(book_id=..., status="pending")`, which runs `filter_by(...).first()`
with no `ORDER BY`. Nothing promotes by `create_at` order, so any pending reservation of the book
may be promoted. `Table.GetFirst` picks one
nondeterministically, and `Library.ReturnBook` reports the pick as a ghost out-parameter.
`Return` is stated for every pick that `Promotable` allows. `PromotionIgnoresArrivalOrder` shows a
store in which a later reservation is promoted ahead of an earlier one.

## Model

| member | source | states |
|---|---|---|
| LibraryModels.NewBook | library_api/models/library_models.py:11-15 | a new book carries the given title and author, is not borrowed and has no holder; it fits its columns exactly when title and author are at most 30 characters (no trailing-space truncation, see Left out) |
| LibraryModels.StatusName | library_api/models/library_models.py:28 | each status is stored as a non-empty text that fits the 20-character status column |
| LibraryModels.NewReservation | library_api/models/library_models.py:24-28 | a new reservation refers to the given book and user, is `pending` by default, and fits its columns exactly when the user id is at most 30 characters |
| LibraryModels.SetBookField | library_api/database/base_repository.py:58-59 | one `setattr` on a book gives the named column its new value and leaves the id and every other column unchanged |
| LibraryModels.SetReservationField | library_api/database/base_repository.py:58-59 | one `setattr` on a reservation gives the named column its new value and leaves id, book id, creation time and every other column unchanged |
| BaseRepository.Table.GetFirst | library_api/database/base_repository.py:39-41 | returns none exactly when no row matches the filter; otherwise it returns a stored row that matches, with no promise about which one |
| BaseRepository.Table.List | library_api/database/base_repository.py:43-45 | lists every stored row, each exactly once (distinct keys, every key listed, every stored row appears in the result) |
| BaseRepository.Table.Create | library_api/database/base_repository.py:47-52 | inserts one row under a fresh id from the sequence and returns it, leaving other rows untouched; a row that does not fit its columns is refused and nothing changes |
| BaseRepository.Table.Update | library_api/database/base_repository.py:54-63 | a missing id fails and changes nothing; otherwise the row becomes the old row with the keyword arguments applied in order, unless it no longer fits its columns, in which case nothing changes; other rows are untouched |
| BaseRepository.Table.Delete | library_api/database/base_repository.py:65-68 | removes the row with that id; a missing id fails |
| BaseRepository.Table.RemoveWhere | library_api/models/library_models.py:16-19 | removes exactly the rows the cascade selects and keeps all others unchanged |
| RowUpdates.UpdateBookKeepsId | library_api/database/base_repository.py:54-63 | `update` on a book never changes its id |
| RowUpdates.UpdateBookKeepsUnnamed | library_api/database/base_repository.py:54-63 | a book column that no keyword argument names keeps its value |
| RowUpdates.UpdateBookTakesLast | library_api/database/base_repository.py:54-63 | a book column named by a keyword argument ends with that argument's value when no later argument names it |
| RowUpdates.UpdateBookLending | library_api/api/router.py:62 | `update(is_borrowed=x, user_id=u)` changes exactly those two fields of the book |
| RowUpdates.UpdateReservationKeepsKeys | library_api/database/base_repository.py:54-63 | `update` on a reservation never changes its id, book id or creation time |
| RowUpdates.UpdateReservationKeepsUnnamed | library_api/database/base_repository.py:54-63 | a reservation column that no keyword argument names keeps its value |
| RowUpdates.UpdateReservationTakesLast | library_api/database/base_repository.py:54-63 | a reservation column named by a keyword argument ends with that argument's value when no later argument names it |
| RowUpdates.UpdateReservationStatus | library_api/api/router.py:96 | `update(status=...)` changes only the status of the reservation |
| Router.Create | library_api/api/router.py:15-25 | creation succeeds exactly when title and author fit; the new book is available, has no holder and gets an id no book had; reservations are unchanged; a refused insert changes nothing; the invariant is kept |
| Router.Delete | library_api/api/router.py:28-35 | a missing id fails and changes nothing; otherwise the book and exactly its reservations are removed and all other rows kept; the invariant is kept |
| Router.Borrow | library_api/api/router.py:38-63 | fails in a fixed order: missing book (NotFound), caller already holds it (AlreadyBorrowed), caller already has a pending reservation (AlreadyReserved); no failure changes state; under the invariant it succeeds exactly when none of these holds and the user id fits its column, lending an available book and queueing for a borrowed one; an available book is lent to the caller with no reservation created; a borrowed book is left unchanged and gets exactly one new pending reservation, under a fresh id, for the caller; a too-long user id is refused; the invariant is kept |
| Router.Return | library_api/api/router.py:74-99 | fails with NotFound, NotBorrowed or NotBorrower, in that order, without changing state; it succeeds exactly for the holder; with no pending reservation the book becomes available and no next user is reported; otherwise exactly the picked reservation becomes fulfilled, its user becomes the holder and is reported; the invariant is kept for every pick the lookup may return |
| Router.Library.FindBook | library_api/api/router.py:47 | `get_first(id=...)` returns the book stored under that id, or none when there is none |
| Router.Library.CreateBook | library_api/api/router.py:15-25 | the table writes end in exactly the state and result that `Create` gives, and keep the invariant |
| Router.Library.DeleteBook | library_api/api/router.py:28-35 | the delete and its cascade end in exactly the state and result that `Delete` gives, and keep the invariant |
| Router.Library.BorrowBook | library_api/api/router.py:38-63 | the lookups and writes end in exactly the state and result that `Borrow` gives, and keep the invariant |
| Router.Library.ListBooks | library_api/api/router.py:66-71 | lists every stored book, each exactly once |
| Router.Library.ReturnBook | library_api/api/router.py:74-99 | the lookups and writes end in exactly the state and result that `Return` gives for the reservation the lookup returned, which is a pending reservation of the book, or none when there is none |
| Router.Library.PassOn | library_api/api/router.py:89-97 | clearing the holder and then promoting the picked pending reservation ends in the state `Return` gives, and keeps the invariant |
| Router.Library.Promote | library_api/api/router.py:94-97 | the reservation becomes fulfilled and its user becomes the holder of the book; nothing else changes |
| RouterProperties.EmptyKeepsInv | library_api/models/library_models.py:14-15 | the empty store satisfies the lending invariant |
| RouterProperties.ReturnTwiceFails | library_api/api/router.py:83-97 | repeating a successful return fails (NotBorrowed if nobody was queued, NotBorrower if the book passed on), so the queue is never promoted twice |
| RouterProperties.BorrowTwiceFails | library_api/api/router.py:51-60 | repeating a successful borrow fails with AlreadyBorrowed or AlreadyReserved, so nobody queues twice for one book |
| RouterProperties.ReturnPromotesQueuedUser | library_api/api/router.py:89-99 | after a return the book stays lent exactly when someone was queued; the new holder is the reported user, who had a pending reservation and has none left |
| RouterProperties.PromotionIgnoresArrivalOrder | library_api/api/router.py:90 | a store that satisfies the invariant, where the lookup may promote a later reservation while an earlier one keeps waiting |
| RouterProperties.LendingWalkthrough | library_api/api/router.py:38-99 | create "Dune", lend it to u1, queue u2, u1's return passes it to u2 and fulfils u2's reservation, u2's return leaves it available; u1 borrowing again while holding it, and returning an unknown book, both fail |

## Left out

- HTTP routing, the Pydantic response schemas and the status codes are left out. The handlers
  return whole rows and named error kinds. For example, `ResponseBookSchema` hides `id` and
  `user_id`, and the model does not.
- The chat-bot front end is left out: command parsing, the HTTP client, and notifying the promoted
  user. The model only reports the promoted user id that the bot would use.
- Engine and session setup, settings and application startup are left out.
- Transactions, commits and concurrency are left out. Each handler is one sequential step. The
  source commits after every `update`, so a concurrent reader could see the book available between
  the clear and the promotion in `return_book`. Per-book locking is not modelled.
- Router.Library.DeleteBook: the repository's `delete` calls `session.delete` but never commits. The
  session is closed at the end of the request, so the deletion appears never to be persisted. The
  model removes the book and, through the cascade, its reservations, which is the evident intent.
- Router.Library.ReturnBook: no promotion order is promised. The lookup at
  `library_api/api/router.py:90` has no `ORDER BY`, so nothing promotes by `create_at` order; the
  model lets any pending reservation of the book be promoted.
- `create_at` comes from the server clock. It is the parameter `now` of `BorrowBook`, and no
  ordering is claimed for it.
- A failed insert may still consume a value of the primary-key sequence, leaving a gap in the ids.
  The model does not advance the sequence when an insert is refused.
- No operation sets the `canceled` status. It can be represented, but no cancel operation is
  invented.
- `update` keyword arguments that name `id`, `book_id`, `create_at` or a non-column attribute are
  not modelled. `BookField` and `ReservationField` cover only the other columns.
- A refused write inside `return_book` (a holder or status that does not fit its column) is left
  out. Under the invariant it cannot happen, and the model proves that every write of a return
  succeeds.
- String widths are counted in characters. The database's own encoding and collation are not
  modelled.
- LibraryModels.BookFits: PostgreSQL (`library_api/database/db.py:6`) stores a value longer than its
  `varchar(n)` column when every extra character is a space, cutting it to `n` characters. The model
  refuses every value longer than the column, so `Router.Create` and `Router.Borrow` report
  `ValueTooLong` for a title, author or user id padded with trailing spaces that the database would
  store truncated, and the fit condition of `LibraryModels.NewBook` is stricter than the database's. A holder stored truncated, who then could never
  pass the holder check of `return_book`, is therefore not modelled either.
- LibraryModels.ReservationFits: the same trailing-space truncation of `user_id` is not modelled.
- Router.Borrow: ids are unbounded integers. The `id` columns are 32-bit `Integer`s, and the
  database driver raises an error (an HTTP 500) for a `book_id` outside the 32-bit range, where the
  model answers `NotFound`. The same holds for `Router.Return` and `Router.Delete` on ids outside
  the 32-bit range. The model's id sequences are unbounded as well, where the database's would
  overflow after 2147483647.

/**
 * The two persisted entities of the lending service, `Book` and `Reservation`,
 * with their column defaults, column widths and the values a keyword argument
 * of the repository's `update` may assign to them.
 */
module LibraryModels {
  import opened Wrappers

  /** Widths of the string columns: `String(30)` and `String(20)`. */
  const TitleWidth: nat := 30
  const AuthorWidth: nat := 30
  const UserIdWidth: nat := 30
  const StatusWidth: nat := 20

  // ---------------------------------------------------------------- Book

  /** A row of `book_table`; `userId` is the nullable holder column. */
  datatype Book = Book(id: int, title: string, author: string, isBorrowed: bool, userId: Option<string>)

  /** The lending invariant of one book: it is borrowed exactly when it has a holder. */
  predicate HolderConsistent(b: Book)
  {
    b.isBorrowed <==> b.userId.Some?
  }

  /** The database accepts the row: every string fits its column. */
  predicate BookFits(b: Book)
  {
    && |b.title| <= TitleWidth
    && |b.author| <= AuthorWidth
    && (b.userId.Some? ==> |b.userId.value| <= UserIdWidth)
  }

  /** `Book(title=..., author=...)` with the column defaults filled in, given the id the database assigns. */
  function NewBook(id: int, title: string, author: string): (b: Book)
    ensures b.id == id && b.title == title && b.author == author
    ensures !b.isBorrowed && HolderConsistent(b)
    ensures BookFits(b) <==> |title| <= TitleWidth && |author| <= AuthorWidth
  {
    Book(id, title, author, false, None)
  }

  /** The non-key columns of a book that `update` may name. */
  datatype BookColumn = TitleColumn | AuthorColumn | IsBorrowedColumn | UserIdColumn

  /** One keyword argument of `update` on a book: a column and its new value. */
  datatype BookField =
    | SetTitle(title: string)
    | SetAuthor(author: string)
    | SetIsBorrowed(isBorrowed: bool)
    | SetUserId(userId: Option<string>)
  {
    function Column(): BookColumn
    {
      match this
      case SetTitle(_) => TitleColumn
      case SetAuthor(_) => AuthorColumn
      case SetIsBorrowed(_) => IsBorrowedColumn
      case SetUserId(_) => UserIdColumn
    }
  }

  /** `b` holds the value that `f` assigns, in the column `f` names. */
  predicate BookHas(b: Book, f: BookField)
  {
    match f
    case SetTitle(t) => b.title == t
    case SetAuthor(a) => b.author == a
    case SetIsBorrowed(x) => b.isBorrowed == x
    case SetUserId(u) => b.userId == u
  }

  /** `b` and `b'` agree on column `c`. */
  predicate SameBookColumn(b: Book, b': Book, c: BookColumn)
  {
    match c
    case TitleColumn => b.title == b'.title
    case AuthorColumn => b.author == b'.author
    case IsBorrowedColumn => b.isBorrowed == b'.isBorrowed
    case UserIdColumn => b.userId == b'.userId
  }

  /** `setattr(book, key, value)` for one keyword argument. */
  function SetBookField(b: Book, f: BookField): (b': Book)
    ensures b'.id == b.id
    ensures BookHas(b', f)
    ensures forall c :: c != f.Column() ==> SameBookColumn(b, b', c)
  {
    match f
    case SetTitle(t) => b.(title := t)
    case SetAuthor(a) => b.(author := a)
    case SetIsBorrowed(x) => b.(isBorrowed := x)
    case SetUserId(u) => b.(userId := u)
  }

  // --------------------------------------------------------- Reservation

  /** The three values the `status` column takes; a new reservation is `Pending`. */
  datatype Status = Pending | Canceled | Fulfilled

  /** The text stored in the `status` column. */
  function StatusName(s: Status): (name: string)
    ensures 0 < |name| <= StatusWidth
  {
    match s
    case Pending => "pending"
    case Canceled => "canceled"
    case Fulfilled => "fulfilled"
  }

  /**
   * A row of `reservations_table`. `bookId` is the non-null foreign key to the
   * book; `createAt` is the server-side creation time.
   */
  datatype Reservation = Reservation(id: int, bookId: int, userId: string, createAt: nat, status: Status)

  /** The database accepts the row: every string fits its column. */
  predicate ReservationFits(r: Reservation)
  {
    |r.userId| <= UserIdWidth && |StatusName(r.status)| <= StatusWidth
  }

  /** `Reservation(book_id=..., user_id=..., status="pending")` with the id and time the database assigns. */
  function NewReservation(id: int, bookId: int, userId: string, createAt: nat): (r: Reservation)
    ensures r.id == id && r.bookId == bookId && r.userId == userId && r.createAt == createAt
    ensures r.status == Pending
    ensures ReservationFits(r) <==> |userId| <= UserIdWidth
  {
    Reservation(id, bookId, userId, createAt, Pending)
  }

  /** The non-key columns of a reservation that `update` may name. */
  datatype ReservationColumn = RequesterColumn | StatusColumn

  /** One keyword argument of `update` on a reservation. */
  datatype ReservationField = SetRequester(userId: string) | SetStatus(status: Status)
  {
    function Column(): ReservationColumn
    {
      match this
      case SetRequester(_) => RequesterColumn
      case SetStatus(_) => StatusColumn
    }
  }

  predicate ReservationHas(r: Reservation, f: ReservationField)
  {
    match f
    case SetRequester(u) => r.userId == u
    case SetStatus(s) => r.status == s
  }

  predicate SameReservationColumn(r: Reservation, r': Reservation, c: ReservationColumn)
  {
    match c
    case RequesterColumn => r.userId == r'.userId
    case StatusColumn => r.status == r'.status
  }

  /** `setattr(reservation, key, value)` for one keyword argument. */
  function SetReservationField(r: Reservation, f: ReservationField): (r': Reservation)
    ensures r'.id == r.id && r'.bookId == r.bookId && r'.createAt == r.createAt
    ensures ReservationHas(r', f)
    ensures forall c :: c != f.Column() ==> SameReservationColumn(r, r', c)
  {
    match f
    case SetRequester(u) => r.(userId := u)
    case SetStatus(s) => r.(status := s)
  }
}

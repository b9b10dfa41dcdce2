/**
 * The in-memory store of the book-exchange service: the users table, the book
 * catalogue and the trade proposals, and the operations on them.
 *
 * Each operation is first given as a function from the three tables (`Db`) to
 * the new tables and the operation's result; the `Store` class then holds the
 * tables in mutable fields and performs the same operation step by step, and
 * each of its methods is proved to leave the tables the function describes.
 * Unique ids (`uuid` in the service) and the current date are parameters.
 */
module AppData {
  import opened Optional
  import opened Collections
  import opened AppTypes

  datatype Db = Db(users: seq<UserProfile>, books: seq<BookEntry>, trades: seq<BookTrade>)

  const NewUserBalance: int := 500
  const DefaultAvatar: string := "/default-avatar.png"

  /** The only user of an empty store. */
  function DefaultAdmin(): UserProfile {
    UserProfile("usr-admin", "Админ", Some("adminpassword"), 9999, "2023-01-01", Admin, DefaultAvatar,
                "Главный администратор системы BookSwap.")
  }

  function InitialDb(): Db {
    Db([DefaultAdmin()], [], [])
  }

  // ---------------------------------------------------------------------------
  // The store's invariants
  // ---------------------------------------------------------------------------

  predicate UniqueUserIds(users: seq<UserProfile>) {
    forall i, j :: 0 <= i < j < |users| ==> users[i].id != users[j].id
  }

  predicate UniqueBookIds(books: seq<BookEntry>) {
    forall i, j :: 0 <= i < j < |books| ==> books[i].id != books[j].id
  }

  predicate UniqueTradeIds(trades: seq<BookTrade>) {
    forall i, j :: 0 <= i < j < |trades| ==> trades[i].id != trades[j].id
  }

  predicate HasUser(users: seq<UserProfile>, id: string) {
    exists j :: 0 <= j < |users| && users[j].id == id
  }

  predicate HasBook(books: seq<BookEntry>, id: string) {
    exists j :: 0 <= j < |books| && books[j].id == id
  }

  predicate HasTrade(trades: seq<BookTrade>, id: string) {
    exists j :: 0 <= j < |trades| && trades[j].id == id
  }

  /**
   * Ids are unique in each table, and the two books of every trade are in the
   * catalogue (the original holds the book objects themselves).
   */
  predicate Valid(db: Db) {
    && UniqueUserIds(db.users)
    && UniqueBookIds(db.books)
    && UniqueTradeIds(db.trades)
    && forall k :: 0 <= k < |db.trades| ==>
         HasBook(db.books, db.trades[k].initiatorBookId) && HasBook(db.books, db.trades[k].recipientBookId)
  }

  /** Every book's owner and both parties of every trade are registered users. */
  predicate Linked(db: Db) {
    && (forall k :: 0 <= k < |db.books| ==> HasUser(db.users, db.books[k].currentOwner))
    && (forall k :: 0 <= k < |db.trades| ==>
          HasUser(db.users, db.trades[k].initiatorId) && HasUser(db.users, db.trades[k].recipientId))
  }

  /** The sum of all balances. */
  function TotalBalance(users: seq<UserProfile>): int {
    if |users| == 0 then 0 else users[0].balance + TotalBalance(users[1..])
  }

  // ---------------------------------------------------------------------------
  // Lookups
  // ---------------------------------------------------------------------------

  /** `registeredUsers.findIndex(u => u.id === id)`. */
  function UserIndex(users: seq<UserProfile>, id: string): (r: Option<nat>)
    ensures r.Some? ==> r.value < |users| && users[r.value].id == id
    ensures r.Some? ==> forall j :: 0 <= j < r.value ==> users[j].id != id
    ensures r.None? <==> !HasUser(users, id)
  {
    FindIndex(users, (u: UserProfile) => u.id == id)
  }

  /** The position `findUserById` reads: none for the empty id, else the first user with that id. */
  function UserSlot(users: seq<UserProfile>, id: string): (r: Option<nat>)
    ensures r.None? <==> id == "" || !HasUser(users, id)
    ensures r.Some? ==> r == UserIndex(users, id)
  {
    if id == "" then None else UserIndex(users, id)
  }

  /** `findUserById`. */
  function UserById(users: seq<UserProfile>, id: string): (r: Option<UserProfile>)
    ensures r.None? <==> id == "" || !HasUser(users, id)
    ensures r.Some? ==> r.value.id == id && r.value in users
  {
    match UserSlot(users, id)
    case None => None
    case Some(k) => Some(users[k])
  }

  /** `authenticateUser`: the first user with exactly this name and this password. */
  function Authenticate(users: seq<UserProfile>, username: string, password: string): (r: Option<UserProfile>)
    ensures r.None? <==> forall j :: 0 <= j < |users| ==> !(users[j].name == username && users[j].password == Some(password))
    ensures r.Some? ==> r.value in users && r.value.name == username && r.value.password == Some(password)
    ensures r.Some? ==> exists k :: 0 <= k < |users| && users[k] == r.value &&
                          forall j :: 0 <= j < k ==> !(users[j].name == username && users[j].password == Some(password))
  {
    Find(users, (u: UserProfile) => u.name == username && u.password == Some(password))
  }

  /**
   * `findUserByUsername`: the first user whose name equals `username` after
   * both are passed through `fold` (the service lower-cases them).
   */
  function UserByName(users: seq<UserProfile>, username: string, fold: string -> string): (r: Option<UserProfile>)
    ensures r.None? <==> forall j :: 0 <= j < |users| ==> fold(users[j].name) != fold(username)
    ensures r.Some? ==> r.value in users && fold(r.value.name) == fold(username)
    ensures r.Some? ==> exists k :: 0 <= k < |users| && users[k] == r.value &&
                          forall j :: 0 <= j < k ==> fold(users[j].name) != fold(username)
  {
    Find(users, (u: UserProfile) => fold(u.name) == fold(username))
  }

  /** `availableBooks.findIndex(b => b.id === id)`. */
  function BookIndex(books: seq<BookEntry>, id: string): (r: Option<nat>)
    ensures r.Some? ==> r.value < |books| && books[r.value].id == id
    ensures r.Some? ==> forall j :: 0 <= j < r.value ==> books[j].id != id
    ensures r.None? <==> !HasBook(books, id)
  {
    FindIndex(books, (b: BookEntry) => b.id == id)
  }

  /** The position `retrieveBookById` reads: none for the empty id, else the first book with that id. */
  function BookSlot(books: seq<BookEntry>, id: string): (r: Option<nat>)
    ensures r.None? <==> id == "" || !HasBook(books, id)
    ensures r.Some? ==> r == BookIndex(books, id)
  {
    if id == "" then None else BookIndex(books, id)
  }

  /** `retrieveBookById`. */
  function BookById(books: seq<BookEntry>, id: string): (r: Option<BookEntry>)
    ensures r.None? <==> id == "" || !HasBook(books, id)
    ensures r.Some? ==> r.value.id == id && r.value in books
  {
    match BookSlot(books, id)
    case None => None
    case Some(k) => Some(books[k])
  }

  function TradeIndex(trades: seq<BookTrade>, id: string): (r: Option<nat>)
    ensures r.Some? ==> r.value < |trades| && trades[r.value].id == id
    ensures r.None? <==> !HasTrade(trades, id)
  {
    FindIndex(trades, (t: BookTrade) => t.id == id)
  }

  predicate IsIncoming(t: BookTrade, userId: string) {
    t.recipientId == userId && t.status == Pending
  }

  predicate IsOutgoing(t: BookTrade, userId: string) {
    t.initiatorId == userId && t.status == Pending
  }

  /** `getUserTradeProposals`: the pending trades addressed to the user and those the user started. */
  function TradeProposals(trades: seq<BookTrade>, userId: string): (r: (seq<BookTrade>, seq<BookTrade>))
    ensures forall j :: 0 <= j < |r.0| ==> r.0[j] in trades && IsIncoming(r.0[j], userId)
    ensures forall j :: 0 <= j < |trades| && IsIncoming(trades[j], userId) ==> trades[j] in r.0
    ensures forall j :: 0 <= j < |r.1| ==> r.1[j] in trades && IsOutgoing(r.1[j], userId)
    ensures forall j :: 0 <= j < |trades| && IsOutgoing(trades[j], userId) ==> trades[j] in r.1
  {
    (Filter(trades, (t: BookTrade) => IsIncoming(t, userId)), Filter(trades, (t: BookTrade) => IsOutgoing(t, userId)))
  }

  // ---------------------------------------------------------------------------
  // Users
  // ---------------------------------------------------------------------------

  function NewUser(username: string, password: string, uid: string, date: string): UserProfile {
    UserProfile("usr-" + uid, username, Some(password), NewUserBalance, date, User, DefaultAvatar, "")
  }

  /**
   * `registerNewUser`: appends a user with id `usr-{uid}`, the given name and
   * password, balance 500, role user, the default avatar and an empty bio.
   * Nothing is checked; the name check is the registration form's.
   */
  function RegisterUser(db: Db, username: string, password: string, uid: string, date: string): (r: (Db, UserProfile))
    ensures r.0.users == db.users + [r.1] && r.0.books == db.books && r.0.trades == db.trades
    ensures r.1.id == "usr-" + uid && r.1.name == username && r.1.password == Some(password)
    ensures r.1.balance == 500 && r.1.role == User && r.1.registrationDate == date
    ensures r.1.avatarUrl == DefaultAvatar && r.1.bio == ""
  {
    var user := NewUser(username, password, uid, date);
    (db.(users := db.users + [user]), user)
  }

  /**
   * `topUpUserBalance`: a non-positive amount is refused first, then an
   * unknown user; otherwise that user's balance grows by `amount`.
   */
  function TopUp(db: Db, userId: string, amount: int): (r: (Db, Result<UserProfile>))
    ensures r.1 == Err(NonPositiveAmount) <==> amount <= 0
    ensures r.1 == Err(UserNotFound) <==> amount > 0 && UserById(db.users, userId).None?
    ensures r.1.Err? ==> r.0 == db
    ensures r.1.Ok? ==> r.0.books == db.books && r.0.trades == db.trades
    ensures r.1.Ok? ==> r.1.value == UserById(db.users, userId).value.(balance := UserById(db.users, userId).value.balance + amount)
  {
    if amount <= 0 then (db, Err(NonPositiveAmount))
    else match UserSlot(db.users, userId)
      case None => (db, Err(UserNotFound))
      case Some(k) =>
        var user := db.users[k].(balance := db.users[k].balance + amount);
        (db.(users := db.users[k := user]), Ok(user))
  }

  /** A `Partial<UserProfile>`: each field that is present replaces the user's. */
  datatype ProfileUpdate = ProfileUpdate(
    id: Option<string>,
    name: Option<string>,
    password: Option<string>,
    balance: Option<int>,
    registrationDate: Option<string>,
    role: Option<Role>,
    avatarUrl: Option<string>,
    bio: Option<string>)

  /** Every field present in `updates` has its value in `after`; every absent field keeps the value of `before`. */
  predicate Applied(before: UserProfile, updates: ProfileUpdate, after: UserProfile) {
    && after.id == (if updates.id.Some? then updates.id.value else before.id)
    && after.name == (if updates.name.Some? then updates.name.value else before.name)
    && after.password == (if updates.password.Some? then updates.password else before.password)
    && after.balance == (if updates.balance.Some? then updates.balance.value else before.balance)
    && after.registrationDate == (if updates.registrationDate.Some? then updates.registrationDate.value else before.registrationDate)
    && after.role == (if updates.role.Some? then updates.role.value else before.role)
    && after.avatarUrl == (if updates.avatarUrl.Some? then updates.avatarUrl.value else before.avatarUrl)
    && after.bio == (if updates.bio.Some? then updates.bio.value else before.bio)
  }

  function Override<T>(old_: T, o: Option<T>): T {
    match o
    case None => old_
    case Some(x) => x
  }

  function ApplyUpdate(u: UserProfile, updates: ProfileUpdate): UserProfile {
    UserProfile(
      Override(u.id, updates.id), Override(u.name, updates.name),
      if updates.password.Some? then updates.password else u.password,
      Override(u.balance, updates.balance), Override(u.registrationDate, updates.registrationDate),
      Override(u.role, updates.role), Override(u.avatarUrl, updates.avatarUrl), Override(u.bio, updates.bio))
  }

  /**
   * `updateUserProfile`: the first user with the id (the empty id included) is
   * replaced by a copy with the given fields changed. Nothing restricts which
   * fields those are.
   */
  function EditProfile(db: Db, userId: string, updates: ProfileUpdate): (r: (Db, Result<UserProfile>))
    ensures r.1.Err? <==> !HasUser(db.users, userId)
    ensures r.1.Err? ==> r.1.error == UserNotFound && r.0 == db
    ensures r.1.Ok? ==> r.0.books == db.books && r.0.trades == db.trades && |r.0.users| == |db.users|
    ensures r.1.Ok? ==> var k := UserIndex(db.users, userId).value;
      && r.0.users[k] == r.1.value
      && (forall j :: 0 <= j < |db.users| && j != k ==> r.0.users[j] == db.users[j])
      && Applied(db.users[k], updates, r.1.value)
      && (updates.id.None? ==> r.1.value.id == userId)
  {
    match UserIndex(db.users, userId)
    case None => (db, Err(UserNotFound))
    case Some(k) =>
      var user := ApplyUpdate(db.users[k], updates);
      (db.(users := db.users[k := user]), Ok(user))
  }

  /** The owner of every book held by `from` becomes `to`. */
  function Reassign(books: seq<BookEntry>, from: string, to: string): (r: seq<BookEntry>)
    ensures |r| == |books|
    ensures forall k :: 0 <= k < |books| ==>
      r[k] == if books[k].currentOwner == from then books[k].(currentOwner := to) else books[k]
  {
    seq(|books|, k requires 0 <= k < |books| =>
      if books[k].currentOwner == from then books[k].(currentOwner := to) else books[k])
  }

  predicate IsAdmin(u: UserProfile) {
    u.role == Admin
  }

  predicate TradeKeepsUser(t: BookTrade, userId: string) {
    t.initiatorId != userId && t.recipientId != userId
  }

  function RemoveAt<T>(s: seq<T>, k: nat): (r: seq<T>)
    requires k < |s|
    ensures |r| == |s| - 1
    ensures forall j :: 0 <= j < |r| ==> r[j] == if j < k then s[j] else s[j + 1]
  {
    s[..k] + s[k + 1..]
  }

  /**
   * `deleteUser`, in the order of its checks: the actor must be a registered
   * admin, must not be the target, and the target must exist. The target's
   * books go to the first admin, the target is removed, and so is every trade
   * in which the target is initiator or recipient.
   */
  function RemoveUser(db: Db, targetId: string, adminId: string): (r: (Db, Result<()>))
    ensures r.1 == Err(NotAnAdmin) <==> UserById(db.users, adminId).None? || !IsAdmin(UserById(db.users, adminId).value)
    ensures r.1 == Err(CannotDeleteSelf) <==> !(r.1 == Err(NotAnAdmin)) && targetId == adminId
    ensures r.1 == Err(UserNotFound) <==> !(r.1 == Err(NotAnAdmin)) && targetId != adminId && !HasUser(db.users, targetId)
    ensures r.1.Err? ==> r.0 == db
    ensures r.1.Ok? ==> |r.0.users| == |db.users| - 1 && |r.0.books| == |db.books|
    ensures r.1.Ok? ==> forall k :: 0 <= k < |r.0.trades| ==> TradeKeepsUser(r.0.trades[k], targetId)
    ensures r.1.Ok? ==> forall k :: 0 <= k < |r.0.trades| ==> r.0.trades[k] in db.trades
    ensures r.1.Ok? ==> forall k :: 0 <= k < |db.trades| && TradeKeepsUser(db.trades[k], targetId) ==> db.trades[k] in r.0.trades
  {
    match UserSlot(db.users, adminId)
    case None => (db, Err(NotAnAdmin))
    case Some(a) =>
      if !IsAdmin(db.users[a]) then (db, Err(NotAnAdmin))
      else if targetId == adminId then (db, Err(CannotDeleteSelf))
      else match UserIndex(db.users, targetId)
        case None => (db, Err(UserNotFound))
        case Some(t) =>
          match FindIndex(db.users, IsAdmin)
          case None => (db, Err(NoAdminForBooks))
          case Some(d) =>
            var books := Reassign(db.books, targetId, db.users[d].id);
            var trades := Filter(db.trades, (tr: BookTrade) => TradeKeepsUser(tr, targetId));
            (Db(RemoveAt(db.users, t), books, trades), Ok(()))
  }

  // ---------------------------------------------------------------------------
  // Books
  // ---------------------------------------------------------------------------

  function NewBook(details: BookDetails, ownerId: string, uid: string): BookEntry {
    BookEntry("book-" + uid, details.title, details.author, details.description, details.coverImageUrl,
              ownerId, details.isForSale, details.isForTrade, details.priceValue, [], [], details.publicationYear)
  }

  /**
   * `addNewBook`: puts a book with id `book-{uid}`, the given owner, no reviews
   * and no quotes at the front of the catalogue.
   */
  function AddBook(db: Db, details: BookDetails, ownerId: string, uid: string): (r: (Db, BookEntry))
    ensures r.0.books == [r.1] + db.books && r.0.users == db.users && r.0.trades == db.trades
    ensures r.1.id == "book-" + uid && r.1.currentOwner == ownerId && r.1.reviews == [] && r.1.quotes == []
    ensures r.1.priceValue == details.priceValue && r.1.isForSale == details.isForSale
    ensures r.1.title == details.title && r.1.author == details.author && r.1.description == details.description
    ensures r.1.coverImageUrl == details.coverImageUrl && r.1.isForTrade == details.isForTrade
    ensures r.1.publicationYear == details.publicationYear
  {
    var book := NewBook(details, ownerId, uid);
    (db.(books := [book] + db.books), book)
  }

  /** The owner-or-admin rule of `updateBook` and `deleteBook`. */
  predicate MayChange(users: seq<UserProfile>, book: BookEntry, userId: string) {
    UserById(users, userId).Some? && (book.currentOwner == userId || IsAdmin(UserById(users, userId).value))
  }

  /** The edited book: the details replace the old ones, and there is no price unless it is for sale. */
  function WithDetails(book: BookEntry, details: BookDetails): BookEntry {
    book.(title := details.title, author := details.author, description := details.description,
          coverImageUrl := details.coverImageUrl, isForSale := details.isForSale,
          isForTrade := details.isForTrade,
          priceValue := if details.isForSale then details.priceValue else None,
          publicationYear := details.publicationYear)
  }

  /**
   * `updateBook`: an unknown book is refused, then an actor who is neither a
   * registered admin nor the owner. Otherwise the book's entry is replaced by
   * the edited copy.
   */
  function EditBook(db: Db, bookId: string, details: BookDetails, userId: string): (r: (Db, Result<BookEntry>))
    ensures r.1 == Err(BookNotFound) <==> !HasBook(db.books, bookId)
    ensures r.1 == Err(NotPermitted) <==> HasBook(db.books, bookId) && !MayChange(db.users, db.books[BookIndex(db.books, bookId).value], userId)
    ensures r.1.Err? ==> r.0 == db
    ensures r.1.Ok? ==> r.0.users == db.users && r.0.trades == db.trades && |r.0.books| == |db.books|
    ensures r.1.Ok? ==> var old_ := db.books[BookIndex(db.books, bookId).value];
      && r.1.value.id == old_.id && r.1.value.currentOwner == old_.currentOwner
      && r.1.value.reviews == old_.reviews && r.1.value.quotes == old_.quotes
      && (!details.isForSale ==> r.1.value.priceValue == None)
      && (details.isForSale ==> r.1.value.priceValue == details.priceValue)
    ensures r.1.Ok? ==> var i := BookIndex(db.books, bookId).value;
      && r.0.books == db.books[i := r.1.value]
      && r.1.value.title == details.title && r.1.value.author == details.author
      && r.1.value.description == details.description && r.1.value.coverImageUrl == details.coverImageUrl
      && r.1.value.isForSale == details.isForSale && r.1.value.isForTrade == details.isForTrade
      && r.1.value.publicationYear == details.publicationYear
  {
    match BookIndex(db.books, bookId)
    case None => (db, Err(BookNotFound))
    case Some(i) =>
      if !MayChange(db.users, db.books[i], userId) then (db, Err(NotPermitted))
      else
        var book := WithDetails(db.books[i], details);
        (db.(books := db.books[i := book]), Ok(book))
  }

  predicate TradeKeepsBook(t: BookTrade, bookId: string) {
    t.initiatorBookId != bookId && t.recipientBookId != bookId
  }

  /**
   * `deleteBook`: the same two checks as `updateBook`; then the book's entry is
   * removed, and so is every trade that offers or asks for it.
   */
  function RemoveBook(db: Db, bookId: string, userId: string): (r: (Db, Result<()>))
    ensures r.1 == Err(BookNotFound) <==> !HasBook(db.books, bookId)
    ensures r.1 == Err(NotPermitted) <==> HasBook(db.books, bookId) && !MayChange(db.users, db.books[BookIndex(db.books, bookId).value], userId)
    ensures r.1.Err? ==> r.0 == db
    ensures r.1.Ok? ==> r.0.users == db.users && |r.0.books| == |db.books| - 1
    ensures r.1.Ok? ==> forall k :: 0 <= k < |r.0.trades| ==> TradeKeepsBook(r.0.trades[k], bookId)
    ensures r.1.Ok? ==> forall k :: 0 <= k < |db.trades| && TradeKeepsBook(db.trades[k], bookId) ==> db.trades[k] in r.0.trades
  {
    match BookIndex(db.books, bookId)
    case None => (db, Err(BookNotFound))
    case Some(i) =>
      if !MayChange(db.users, db.books[i], userId) then (db, Err(NotPermitted))
      else
        var trades := Filter(db.trades, (t: BookTrade) => TradeKeepsBook(t, bookId));
        (db.(books := RemoveAt(db.books, i), trades := trades), Ok(()))
  }

  /**
   * `addReviewToBook`: the review `rev-{uid}` is returned in any case, and is
   * appended to the book's reviews when the book exists.
   */
  function AddReview(db: Db, bookId: string, text: string, reviewerId: string, uid: string): (r: (Db, BookReview))
    ensures r.1 == BookReview("rev-" + uid, text, reviewerId)
    ensures r.0.users == db.users && r.0.trades == db.trades && |r.0.books| == |db.books|
    ensures BookById(db.books, bookId).None? ==> r.0 == db
    ensures BookById(db.books, bookId).Some? ==> var k := BookIndex(db.books, bookId).value;
      && r.0.books[k] == db.books[k].(reviews := db.books[k].reviews + [r.1])
      && forall j :: 0 <= j < |db.books| && j != k ==> r.0.books[j] == db.books[j]
  {
    var review := BookReview("rev-" + uid, text, reviewerId);
    match BookSlot(db.books, bookId)
    case None => (db, review)
    case Some(k) => (db.(books := db.books[k := db.books[k].(reviews := db.books[k].reviews + [review])]), review)
  }

  /** `addQuoteToBook`: as `addReviewToBook`, for quotes `qte-{uid}`. */
  function AddQuote(db: Db, bookId: string, text: string, quoterId: string, uid: string): (r: (Db, BookQuote))
    ensures r.1 == BookQuote("qte-" + uid, text, quoterId)
    ensures r.0.users == db.users && r.0.trades == db.trades && |r.0.books| == |db.books|
    ensures BookById(db.books, bookId).None? ==> r.0 == db
    ensures BookById(db.books, bookId).Some? ==> var k := BookIndex(db.books, bookId).value;
      && r.0.books[k] == db.books[k].(quotes := db.books[k].quotes + [r.1])
      && forall j :: 0 <= j < |db.books| && j != k ==> r.0.books[j] == db.books[j]
  {
    var quote := BookQuote("qte-" + uid, text, quoterId);
    match BookSlot(db.books, bookId)
    case None => (db, quote)
    case Some(k) => (db.(books := db.books[k := db.books[k].(quotes := db.books[k].quotes + [quote])]), quote)
  }

  /** A price that `!book.priceValue` does not reject: present and not zero. */
  predicate HasPrice(book: BookEntry) {
    book.priceValue.Some? && book.priceValue.value != 0
  }

  /**
   * `purchaseBook`, in the order of its checks: the book and the buyer must
   * exist and the book must have a price; its owner must be a registered
   * user; the buyer's balance must cover the price. Then the price moves from
   * the buyer to the owner (one after the other, so buying one's own book
   * changes no balance), and the book goes to the buyer, neither for sale nor
   * for trade.
   */
  function Purchase(db: Db, bookId: string, buyerId: string): (r: (Db, Result<(BookEntry, UserProfile)>))
    ensures r.1.Err? ==> r.0 == db
    ensures r.1.Ok? ==> r.0.trades == db.trades && |r.0.users| == |db.users| && |r.0.books| == |db.books|
  {
    match BookSlot(db.books, bookId)
    case None => (db, Err(MissingPurchaseData))
    case Some(k) =>
      match UserSlot(db.users, buyerId)
      case None => (db, Err(MissingPurchaseData))
      case Some(b) =>
        var book := db.books[k];
        if !HasPrice(book) then (db, Err(MissingPurchaseData))
        else match UserSlot(db.users, book.currentOwner)
          case None => (db, Err(SellerNotFound))
          case Some(s) =>
            var price := book.priceValue.value;
            if db.users[b].balance < price then (db, Err(InsufficientFunds))
            else
              var users := Transfer(db.users, b, s, price);
              var sold := book.(currentOwner := db.users[b].id, isForSale := false, isForTrade := false);
              (db.(users := users, books := db.books[k := sold]), Ok((sold, users[b])))
  }

  /** The tables after a deletion by a registered admin of another user who is found. */
  lemma RemoveUserSucceeds(db: Db, targetId: string, adminId: string, t: nat, d: nat)
    requires UserSlot(db.users, adminId).Some? && IsAdmin(db.users[UserSlot(db.users, adminId).value])
    requires targetId != adminId && UserIndex(db.users, targetId) == Some(t) && FindIndex(db.users, IsAdmin) == Some(d)
    ensures RemoveUser(db, targetId, adminId)
         == (Db(db.users[..t] + db.users[t + 1..], Reassign(db.books, targetId, db.users[d].id),
                Filter(db.trades, (tr: BookTrade) => TradeKeepsUser(tr, targetId))), Ok(()))
  {
  }

  /** The tables after a purchase whose book, buyer and seller are found and whose buyer can pay. */
  lemma PurchaseSucceeds(db: Db, bookId: string, buyerId: string, k: nat, b: nat, s: nat)
    requires BookSlot(db.books, bookId) == Some(k) && UserSlot(db.users, buyerId) == Some(b)
    requires HasPrice(db.books[k]) && UserSlot(db.users, db.books[k].currentOwner) == Some(s)
    requires db.users[b].balance >= db.books[k].priceValue.value
    ensures var users := Transfer(db.users, b, s, db.books[k].priceValue.value);
      var sold := db.books[k].(currentOwner := db.users[b].id, isForSale := false, isForTrade := false);
      Purchase(db, bookId, buyerId) == (Db(users, db.books[k := sold], db.trades), Ok((sold, users[b])))
  {
  }

  /** `Transfer` is the debit of the buyer followed by the credit of the seller. */
  lemma TransferSteps(users: seq<UserProfile>, b: nat, s: nat, price: int)
    requires b < |users| && s < |users|
    ensures var users1 := users[b := users[b].(balance := users[b].balance - price)];
      Transfer(users, b, s, price) == users1[s := users1[s].(balance := users1[s].balance + price)]
  {
  }

  /**
   * The price leaves the account at `b` and then reaches the account at `s`;
   * no id changes and no other account is touched.
   */
  function Transfer(users: seq<UserProfile>, b: nat, s: nat, price: int): (r: seq<UserProfile>)
    requires b < |users| && s < |users|
    ensures |r| == |users|
    ensures forall m :: 0 <= m < |users| ==> r[m].id == users[m].id
    ensures forall m :: 0 <= m < |users| && m != b && m != s ==> r[m] == users[m]
    ensures b != s ==> r[b].balance == users[b].balance - price && r[s].balance == users[s].balance + price
    ensures b == s ==> r[b] == users[b]
  {
    Adjust(Adjust(users, b, -price), s, price)
  }

  /** The account at `k` gains `delta`. */
  function Adjust(users: seq<UserProfile>, k: nat, delta: int): (r: seq<UserProfile>)
    requires k < |users|
    ensures |r| == |users|
  {
    users[k := users[k].(balance := users[k].balance + delta)]
  }

  // ---------------------------------------------------------------------------
  // Trades
  // ---------------------------------------------------------------------------

  /**
   * A pending trade that makes a new proposal a duplicate: the same initiator
   * offering the same book for the same book, or the recipient already
   * offering the wanted book for the offered one.
   */
  predicate IsDuplicate(t: BookTrade, initiatorId: string, initiatorBookId: string, recipientId: string, recipientBookId: string) {
    t.status == Pending
    && ((t.initiatorId == initiatorId && t.initiatorBookId == initiatorBookId && t.recipientBookId == recipientBookId)
        || (t.initiatorId == recipientId && t.initiatorBookId == recipientBookId && t.recipientBookId == initiatorBookId))
  }

  /**
   * `createNewTradeProposal`: the initiator and both books must exist, and no
   * pending duplicate may exist. The new pending trade `trade-{uid}` goes to
   * the current owner of the wanted book. Who owns the offered book, and
   * whether the two parties differ, is not checked.
   */
  function ProposeTrade(db: Db, initiatorId: string, initiatorBookId: string, recipientBookId: string, uid: string): (r: (Db, Result<()>))
    ensures r.1 == Err(MissingTradeData) <==>
      UserById(db.users, initiatorId).None? || BookById(db.books, initiatorBookId).None? || BookById(db.books, recipientBookId).None?
    ensures r.1 == Err(DuplicateTrade) <==>
      && !(r.1 == Err(MissingTradeData))
      && exists k :: 0 <= k < |db.trades| &&
           IsDuplicate(db.trades[k], initiatorId, initiatorBookId, BookById(db.books, recipientBookId).value.currentOwner, recipientBookId)
    ensures r.1.Err? ==> r.0 == db
    ensures r.1.Ok? ==>
      && r.0.users == db.users && r.0.books == db.books
      && r.0.trades == db.trades + [BookTrade("trade-" + uid, initiatorId, initiatorBookId,
                                              BookById(db.books, recipientBookId).value.currentOwner, recipientBookId, Pending)]
  {
    if UserSlot(db.users, initiatorId).None? || BookSlot(db.books, initiatorBookId).None? || BookSlot(db.books, recipientBookId).None? then
      (db, Err(MissingTradeData))
    else
      var recipientId := db.books[BookSlot(db.books, recipientBookId).value].currentOwner;
      if Find(db.trades, (t: BookTrade) => IsDuplicate(t, initiatorId, initiatorBookId, recipientId, recipientBookId)).Some? then
        (db, Err(DuplicateTrade))
      else
        var trade := BookTrade("trade-" + uid, initiatorId, initiatorBookId, recipientId, recipientBookId, Pending);
        (db.(trades := db.trades + [trade]), Ok(()))
  }

  /** A book after a completed swap: the new owner, neither for sale nor for trade. */
  function Swapped(book: BookEntry, owner: string): BookEntry {
    book.(currentOwner := owner, isForSale := false, isForTrade := false)
  }

  /**
   * The two books of an accepted trade exchange owners, one assignment after
   * the other as in the service (so a trade of a book for itself keeps its
   * owner). The books are found by id; a book missing from the catalogue
   * leaves the catalogue unchanged.
   */
  function SwapOwners(books: seq<BookEntry>, initiatorBookId: string, recipientBookId: string): (r: seq<BookEntry>)
    ensures |r| == |books|
    ensures forall k :: 0 <= k < |books| ==> r[k].id == books[k].id
  {
    match (BookIndex(books, initiatorBookId), BookIndex(books, recipientBookId))
    case (Some(i), Some(j)) =>
      var tempOwner := books[i].currentOwner;
      var books1 := books[i := Swapped(books[i], books[j].currentOwner)];
      books1[j := Swapped(books1[j], tempOwner)]
    case _ => books
  }

  /**
   * `respondToTradeProposal`: an unknown trade is refused. Accepting swaps the
   * owners of the two books; every answer sets the trade's status. The current
   * status is not checked, so a settled trade can be answered again.
   */
  function RespondToTrade(db: Db, tradeId: string, response: TradeResponse): (r: (Db, Result<()>))
    ensures r.1.Err? <==> !HasTrade(db.trades, tradeId)
    ensures r.1.Err? ==> r.1.error == TradeNotFound && r.0 == db
    ensures r.1.Ok? ==> var k := TradeIndex(db.trades, tradeId).value;
      && r.0.users == db.users
      && r.0.trades == db.trades[k := db.trades[k].(status := ResponseStatus(response))]
      && (response != Accept ==> r.0.books == db.books)
      && (response == Accept ==> r.0.books == SwapOwners(db.books, db.trades[k].initiatorBookId, db.trades[k].recipientBookId))
  {
    match TradeIndex(db.trades, tradeId)
    case None => (db, Err(TradeNotFound))
    case Some(k) =>
      var trade := db.trades[k];
      var books := if response == Accept then SwapOwners(db.books, trade.initiatorBookId, trade.recipientBookId) else db.books;
      (db.(books := books, trades := db.trades[k := trade.(status := ResponseStatus(response))]), Ok(()))
  }

  // ---------------------------------------------------------------------------
  // The store
  // ---------------------------------------------------------------------------

  /** The three module-level tables of the service and the operations that change them in place. */
  class Store {
    var registeredUsers: seq<UserProfile>
    var availableBooks: seq<BookEntry>
    var activeTrades: seq<BookTrade>

    function Tables(): Db
      reads this
    {
      Db(registeredUsers, availableBooks, activeTrades)
    }

    /** The tables of a first start: the default admin, no books, no trades. */
    constructor()
      ensures Tables() == InitialDb()
    {
      registeredUsers := [DefaultAdmin()];
      availableBooks := [];
      activeTrades := [];
    }

    function AuthenticateUser(username: string, password: string): (r: Option<UserProfile>)
      reads this
      ensures r == Authenticate(registeredUsers, username, password)
    {
      Authenticate(registeredUsers, username, password)
    }

    function FindUserByUsername(username: string, fold: string -> string): (r: Option<UserProfile>)
      reads this
      ensures r == UserByName(registeredUsers, username, fold)
    {
      UserByName(registeredUsers, username, fold)
    }

    function FindUserById(userId: string): (r: Option<UserProfile>)
      reads this
      ensures r == UserById(registeredUsers, userId)
    {
      UserById(registeredUsers, userId)
    }

    function RetrieveBookById(bookId: string): (r: Option<BookEntry>)
      reads this
      ensures r == BookById(availableBooks, bookId)
    {
      BookById(availableBooks, bookId)
    }

    function GetUserTradeProposals(userId: string): (r: (seq<BookTrade>, seq<BookTrade>))
      reads this
      ensures r == TradeProposals(activeTrades, userId)
    {
      TradeProposals(activeTrades, userId)
    }

    method RegisterNewUser(username: string, password: string, uid: string, date: string) returns (user: UserProfile)
      modifies this
      ensures (Tables(), user) == RegisterUser(old(Tables()), username, password, uid, date)
    {
      user := NewUser(username, password, uid, date);
      registeredUsers := registeredUsers + [user];
    }

    method TopUpUserBalance(userId: string, amount: int) returns (r: Result<UserProfile>)
      modifies this
      ensures (Tables(), r) == TopUp(old(Tables()), userId, amount)
    {
      if amount <= 0 {
        return Err(NonPositiveAmount);
      }
      var k := UserSlot(registeredUsers, userId);
      if k.None? {
        return Err(UserNotFound);
      }
      var user := registeredUsers[k.value];
      user := user.(balance := user.balance + amount);
      registeredUsers := registeredUsers[k.value := user];
      r := Ok(user);
    }

    method UpdateUserProfile(userId: string, updates: ProfileUpdate) returns (r: Result<UserProfile>)
      modifies this
      ensures (Tables(), r) == EditProfile(old(Tables()), userId, updates)
    {
      var userIndex := UserIndex(registeredUsers, userId);
      if userIndex.None? {
        return Err(UserNotFound);
      }
      var user := ApplyUpdate(registeredUsers[userIndex.value], updates);
      registeredUsers := registeredUsers[userIndex.value := user];
      r := Ok(user);
    }

    /** Reassigns the target's books one by one, then removes the target and the target's trades. */
    method DeleteUser(userIdToDelete: string, adminId: string) returns (r: Result<()>)
      modifies this
      ensures (Tables(), r) == RemoveUser(old(Tables()), userIdToDelete, adminId)
    {
      ghost var db := Tables();
      var adminSlot := UserSlot(registeredUsers, adminId);
      if adminSlot.None? || !IsAdmin(registeredUsers[adminSlot.value]) {
        return Err(NotAnAdmin);
      }
      if userIdToDelete == adminId {
        return Err(CannotDeleteSelf);
      }
      var userIndex := UserIndex(registeredUsers, userIdToDelete);
      if userIndex.None? {
        return Err(UserNotFound);
      }
      var defaultOwner := FindIndex(registeredUsers, IsAdmin);
      if defaultOwner.None? {
        return Err(NoAdminForBooks);
      }
      var ownerId := registeredUsers[defaultOwner.value].id;
      RemoveUserSucceeds(db, userIdToDelete, adminId, userIndex.value, defaultOwner.value);
      ReassignBooks(userIdToDelete, ownerId);
      Evict(userIndex.value, userIdToDelete);
      r := Ok(());
    }

    /** The splice of `deleteUser` and the filter that drops the trades naming the user. */
    method Evict(t: nat, userId: string)
      requires t < |registeredUsers|
      modifies this
      ensures registeredUsers == old(registeredUsers)[..t] + old(registeredUsers)[t + 1..]
      ensures activeTrades == Filter(old(activeTrades), (tr: BookTrade) => TradeKeepsUser(tr, userId))
      ensures availableBooks == old(availableBooks)
    {
      registeredUsers := registeredUsers[..t] + registeredUsers[t + 1..];
      activeTrades := Filter(activeTrades, (tr: BookTrade) => TradeKeepsUser(tr, userId));
    }

    /** The loop of `deleteUser` that hands every book of `from` to `to`. */
    method ReassignBooks(from: string, to: string)
      modifies this
      ensures availableBooks == Reassign(old(availableBooks), from, to)
      ensures registeredUsers == old(registeredUsers) && activeTrades == old(activeTrades)
    {
      var books := availableBooks;
      var k := 0;
      while k < |books|
        invariant 0 <= k <= |books| && |books| == |availableBooks|
        invariant forall j :: 0 <= j < k ==> books[j] == Reassign(availableBooks, from, to)[j]
        invariant forall j :: k <= j < |books| ==> books[j] == availableBooks[j]
      {
        if books[k].currentOwner == from {
          books := books[k := books[k].(currentOwner := to)];
        }
        k := k + 1;
      }
      assert books == Reassign(availableBooks, from, to);
      availableBooks := books;
    }

    method AddNewBook(details: BookDetails, ownerId: string, uid: string) returns (book: BookEntry)
      modifies this
      ensures (Tables(), book) == AddBook(old(Tables()), details, ownerId, uid)
    {
      book := NewBook(details, ownerId, uid);
      availableBooks := [book] + availableBooks;
    }

    method UpdateBook(bookId: string, details: BookDetails, userId: string) returns (r: Result<BookEntry>)
      modifies this
      ensures (Tables(), r) == EditBook(old(Tables()), bookId, details, userId)
    {
      var bookIndex := BookIndex(availableBooks, bookId);
      if bookIndex.None? {
        return Err(BookNotFound);
      }
      var existingBook := availableBooks[bookIndex.value];
      if !MayChange(registeredUsers, existingBook, userId) {
        return Err(NotPermitted);
      }
      var updatedBook := WithDetails(existingBook, details);
      availableBooks := availableBooks[bookIndex.value := updatedBook];
      r := Ok(updatedBook);
    }

    method DeleteBook(bookId: string, userId: string) returns (r: Result<()>)
      modifies this
      ensures (Tables(), r) == RemoveBook(old(Tables()), bookId, userId)
    {
      var bookIndex := BookIndex(availableBooks, bookId);
      if bookIndex.None? {
        return Err(BookNotFound);
      }
      if !MayChange(registeredUsers, availableBooks[bookIndex.value], userId) {
        return Err(NotPermitted);
      }
      availableBooks := availableBooks[..bookIndex.value] + availableBooks[bookIndex.value + 1..];
      activeTrades := Filter(activeTrades, (t: BookTrade) => TradeKeepsBook(t, bookId));
      r := Ok(());
    }

    method AddReviewToBook(bookId: string, text: string, reviewerId: string, uid: string) returns (review: BookReview)
      modifies this
      ensures (Tables(), review) == AddReview(old(Tables()), bookId, text, reviewerId, uid)
    {
      review := BookReview("rev-" + uid, text, reviewerId);
      var k := BookSlot(availableBooks, bookId);
      if k.Some? {
        var book := availableBooks[k.value];
        availableBooks := availableBooks[k.value := book.(reviews := book.reviews + [review])];
      }
    }

    method AddQuoteToBook(bookId: string, text: string, quoterId: string, uid: string) returns (quote: BookQuote)
      modifies this
      ensures (Tables(), quote) == AddQuote(old(Tables()), bookId, text, quoterId, uid)
    {
      quote := BookQuote("qte-" + uid, text, quoterId);
      var k := BookSlot(availableBooks, bookId);
      if k.Some? {
        var book := availableBooks[k.value];
        availableBooks := availableBooks[k.value := book.(quotes := book.quotes + [quote])];
      }
    }

    method PurchaseBook(bookId: string, buyerId: string) returns (r: Result<(BookEntry, UserProfile)>)
      modifies this
      ensures (Tables(), r) == Purchase(old(Tables()), bookId, buyerId)
    {
      ghost var db := Tables();
      var bookSlot := BookSlot(availableBooks, bookId);
      var buyerSlot := UserSlot(registeredUsers, buyerId);
      if bookSlot.None? || buyerSlot.None? || !HasPrice(availableBooks[bookSlot.value]) {
        return Err(MissingPurchaseData);
      }
      var k, b := bookSlot.value, buyerSlot.value;
      var sellerSlot := UserSlot(registeredUsers, availableBooks[k].currentOwner);
      if sellerSlot.None? {
        return Err(SellerNotFound);
      }
      var s := sellerSlot.value;
      var price := availableBooks[k].priceValue.value;
      if registeredUsers[b].balance < price {
        return Err(InsufficientFunds);
      }
      PurchaseSucceeds(db, bookId, buyerId, k, b, s);
      var book, buyer := Settle(k, b, s, price);
      r := Ok((book, buyer));
    }

    /** The buyer pays, the seller is paid, and the book changes hands. */
    method Settle(k: nat, b: nat, s: nat, price: int) returns (book: BookEntry, buyerAfter: UserProfile)
      requires k < |availableBooks| && b < |registeredUsers| && s < |registeredUsers|
      modifies this
      ensures registeredUsers == Transfer(old(registeredUsers), b, s, price) && buyerAfter == registeredUsers[b]
      ensures book == old(availableBooks[k]).(currentOwner := old(registeredUsers[b]).id, isForSale := false, isForTrade := false)
      ensures availableBooks == old(availableBooks)[k := book] && activeTrades == old(activeTrades)
    {
      var buyer := registeredUsers[b];
      var users := registeredUsers[b := buyer.(balance := buyer.balance - price)];
      var seller := users[s];
      users := users[s := seller.(balance := seller.balance + price)];
      book := availableBooks[k].(currentOwner := buyer.id, isForSale := false, isForTrade := false);
      TransferSteps(registeredUsers, b, s, price);
      registeredUsers := users;
      availableBooks := availableBooks[k := book];
      buyerAfter := users[b];
    }

    method CreateNewTradeProposal(initiatorId: string, initiatorBookId: string, recipientBookId: string, uid: string)
      returns (r: Result<()>)
      modifies this
      ensures (Tables(), r) == ProposeTrade(old(Tables()), initiatorId, initiatorBookId, recipientBookId, uid)
    {
      var initiator := UserSlot(registeredUsers, initiatorId);
      var initiatorBook := BookSlot(availableBooks, initiatorBookId);
      var recipientBook := BookSlot(availableBooks, recipientBookId);
      if initiator.None? || initiatorBook.None? || recipientBook.None? {
        return Err(MissingTradeData);
      }
      var recipientId := availableBooks[recipientBook.value].currentOwner;
      var existingTrade := Find(activeTrades, (t: BookTrade) => IsDuplicate(t, initiatorId, initiatorBookId, recipientId, recipientBookId));
      if existingTrade.Some? {
        return Err(DuplicateTrade);
      }
      activeTrades := activeTrades + [BookTrade("trade-" + uid, initiatorId, initiatorBookId, recipientId, recipientBookId, Pending)];
      r := Ok(());
    }

    method RespondToTradeProposal(tradeId: string, response: TradeResponse) returns (r: Result<()>)
      modifies this
      ensures (Tables(), r) == RespondToTrade(old(Tables()), tradeId, response)
    {
      var k := TradeIndex(activeTrades, tradeId);
      if k.None? {
        return Err(TradeNotFound);
      }
      var trade := activeTrades[k.value];
      if response == Accept {
        ExchangeOwners(trade.initiatorBookId, trade.recipientBookId);
      }
      activeTrades := activeTrades[k.value := trade.(status := ResponseStatus(response))];
      r := Ok(());
    }

    /** The exchange of owners of an accepted trade, one assignment after the other. */
    method ExchangeOwners(initiatorBookId: string, recipientBookId: string)
      modifies this
      ensures availableBooks == SwapOwners(old(availableBooks), initiatorBookId, recipientBookId)
      ensures registeredUsers == old(registeredUsers) && activeTrades == old(activeTrades)
    {
      var i := BookIndex(availableBooks, initiatorBookId);
      var j := BookIndex(availableBooks, recipientBookId);
      if i.Some? && j.Some? {
        var tempOwner := availableBooks[i.value].currentOwner;
        availableBooks := availableBooks[i.value := Swapped(availableBooks[i.value], availableBooks[j.value].currentOwner)];
        availableBooks := availableBooks[j.value := Swapped(availableBooks[j.value], tempOwner)];
      }
    }
  }
}

/**
 * The records of the book-exchange store: users, books with their reviews and
 * quotes, and trade proposals. Where the original records hold a reference to
 * a user or a book, these hold that user's or book's id.
 */
module AppTypes {
  import opened Optional

  datatype Role = User | Admin

  /** A registered user. Balances are whole amounts of money. */
  datatype UserProfile = UserProfile(
    id: string,
    name: string,
    password: Option<string>,
    balance: int,
    registrationDate: string,
    role: Role,
    avatarUrl: string,
    bio: string)

  datatype BookReview = BookReview(id: string, text: string, reviewerId: string)

  datatype BookQuote = BookQuote(id: string, text: string, quoterId: string)

  /** The fields of a book that its owner fills in: everything except id, owner, reviews and quotes. */
  datatype BookDetails = BookDetails(
    title: string,
    author: string,
    description: string,
    coverImageUrl: string,
    isForSale: bool,
    isForTrade: bool,
    priceValue: Option<int>,
    publicationYear: int)

  datatype BookEntry = BookEntry(
    id: string,
    title: string,
    author: string,
    description: string,
    coverImageUrl: string,
    currentOwner: string,
    isForSale: bool,
    isForTrade: bool,
    priceValue: Option<int>,
    reviews: seq<BookReview>,
    quotes: seq<BookQuote>,
    publicationYear: int)

  datatype TradeStatus = Pending | Accepted | Rejected | Cancelled

  /** The answers `respondToTradeProposal` accepts. */
  datatype TradeResponse = Accept | Reject | Cancel

  function ResponseStatus(response: TradeResponse): TradeStatus {
    match response
    case Accept => Accepted
    case Reject => Rejected
    case Cancel => Cancelled
  }

  /** A proposal to swap `initiatorBookId` (offered) for `recipientBookId` (wanted). */
  datatype BookTrade = BookTrade(
    id: string,
    initiatorId: string,
    initiatorBookId: string,
    recipientId: string,
    recipientBookId: string,
    status: TradeStatus)

  /** One constructor per failure message of the store's operations. */
  datatype Failure =
    | NonPositiveAmount
    | UserNotFound
    | NotAnAdmin
    | CannotDeleteSelf
    | NoAdminForBooks
    | BookNotFound
    | NotPermitted
    | MissingPurchaseData
    | SellerNotFound
    | InsufficientFunds
    | MissingTradeData
    | DuplicateTrade
    | TradeNotFound

  /** The `{ success, message, ... }` objects the operations return. */
  datatype Result<T> = Ok(value: T) | Err(error: Failure)
}

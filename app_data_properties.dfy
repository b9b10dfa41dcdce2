/**
 * What the store's operations promise: the error conditions, where money goes,
 * who owns a book afterwards, which trades survive a deletion, and the
 * invariants (`Valid`, `Linked`) that the operations keep.
 */
module AppDataProperties {
  import opened Optional
  import opened Collections
  import opened AppTypes
  import opened AppData

  // ---------------------------------------------------------------------------
  // Sums of balances
  // ---------------------------------------------------------------------------

  lemma {:induction false} TotalUpdate(users: seq<UserProfile>, k: nat, u: UserProfile)
    requires k < |users|
    ensures TotalBalance(users[k := u]) == TotalBalance(users) - users[k].balance + u.balance
    decreases |users|
  {
    if k > 0 {
      assert users[k := u][1..] == users[1..][k - 1 := u];
      TotalUpdate(users[1..], k - 1, u);
    } else {
      assert users[k := u][1..] == users[1..];
    }
  }

  lemma {:induction false} TotalConcat(a: seq<UserProfile>, b: seq<UserProfile>)
    ensures TotalBalance(a + b) == TotalBalance(a) + TotalBalance(b)
    decreases |a|
  {
    if |a| == 0 {
      assert a + b == b;
    } else {
      assert (a + b)[1..] == a[1..] + b;
      TotalConcat(a[1..], b);
    }
  }

  lemma TotalRemove(users: seq<UserProfile>, k: nat)
    requires k < |users|
    ensures TotalBalance(RemoveAt(users, k)) == TotalBalance(users) - users[k].balance
  {
    assert users == users[..k] + users[k..];
    assert users[k..] == [users[k]] + users[k + 1..];
    TotalConcat(users[..k], users[k..]);
    TotalConcat([users[k]], users[k + 1..]);
    assert RemoveAt(users, k) == users[..k] + users[k + 1..];
    TotalConcat(users[..k], users[k + 1..]);
  }

  // ---------------------------------------------------------------------------
  // Balance top-up and purchase
  // ---------------------------------------------------------------------------

  /** A top-up adds exactly the amount to the total, and the user now shows the raised balance. */
  lemma TopUpAddsAmount(db: Db, userId: string, amount: int)
    ensures var r := TopUp(db, userId, amount);
      r.1.Ok? ==>
        && TotalBalance(r.0.users) == TotalBalance(db.users) + amount
        && UserById(r.0.users, userId) == Some(r.1.value)
        && r.1.value.balance == UserById(db.users, userId).value.balance + amount
  {
    var r := TopUp(db, userId, amount);
    if r.1.Ok? {
      var k := UserSlot(db.users, userId).value;
      TotalUpdate(db.users, k, r.1.value);
      FindIndexAgree(db.users, r.0.users, (u: UserProfile) => u.id == userId);
    }
  }

  /** A top-up changes no other user's balance. */
  lemma TopUpOnlyThatUser(db: Db, userId: string, amount: int, otherId: string)
    requires otherId != userId
    ensures UserById(TopUp(db, userId, amount).0.users, otherId) == UserById(db.users, otherId)
  {
    var r := TopUp(db, userId, amount);
    if r.1.Ok? {
      FindIndexAgree(db.users, r.0.users, (u: UserProfile) => u.id == otherId);
    }
  }

  /** The failures of `purchaseBook`, each exactly when its check is the first to fail. */
  lemma PurchaseFailures(db: Db, bookId: string, buyerId: string)
    ensures var r := Purchase(db, bookId, buyerId);
      && (r.1 == Err(MissingPurchaseData) <==>
            BookById(db.books, bookId).None? || UserById(db.users, buyerId).None? || !HasPrice(BookById(db.books, bookId).value))
      && (r.1 == Err(SellerNotFound) <==>
            !(r.1 == Err(MissingPurchaseData)) && UserById(db.users, BookById(db.books, bookId).value.currentOwner).None?)
      && (r.1 == Err(InsufficientFunds) <==>
            && !(r.1 == Err(MissingPurchaseData)) && !(r.1 == Err(SellerNotFound))
            && UserById(db.users, buyerId).value.balance < BookById(db.books, bookId).value.priceValue.value)
      && (r.1.Err? <==> r.1 in {Err(MissingPurchaseData), Err(SellerNotFound), Err(InsufficientFunds)})
  {
  }

  /** The tables after a successful purchase, by the positions of the book, the buyer and the seller. */
  lemma PurchaseOk(db: Db, bookId: string, buyerId: string)
    requires Purchase(db, bookId, buyerId).1.Ok?
    ensures BookSlot(db.books, bookId).Some? && UserSlot(db.users, buyerId).Some?
    ensures var k := BookSlot(db.books, bookId).value;
      UserSlot(db.users, db.books[k].currentOwner).Some? && db.books[k].priceValue.Some?
    ensures var k := BookSlot(db.books, bookId).value;
      var b := UserSlot(db.users, buyerId).value;
      var s := UserSlot(db.users, db.books[k].currentOwner).value;
      var price := db.books[k].priceValue.value;
      var sold := db.books[k].(currentOwner := db.users[b].id, isForSale := false, isForTrade := false);
      Purchase(db, bookId, buyerId) == (Db(Transfer(db.users, b, s, price), db.books[k := sold], db.trades),
                                        Ok((sold, Transfer(db.users, b, s, price)[b])))
  {
  }

  /** A transfer moves money between two accounts and creates or destroys none. */
  lemma TransferTotal(users: seq<UserProfile>, b: nat, s: nat, price: int)
    requires b < |users| && s < |users|
    ensures TotalBalance(Transfer(users, b, s, price)) == TotalBalance(users)
  {
    var users1 := Adjust(users, b, -price);
    TotalUpdate(users, b, users1[b]);
    TotalUpdate(users1, s, Adjust(users1, s, price)[s]);
  }

  /** A purchase moves money between users and creates or destroys none. */
  lemma PurchaseConservesTotal(db: Db, bookId: string, buyerId: string)
    ensures TotalBalance(Purchase(db, bookId, buyerId).0.users) == TotalBalance(db.users)
  {
    if Purchase(db, bookId, buyerId).1.Ok? {
      PurchaseOk(db, bookId, buyerId);
      var k := BookSlot(db.books, bookId).value;
      TransferTotal(db.users, UserSlot(db.users, buyerId).value, UserSlot(db.users, db.books[k].currentOwner).value,
                    db.books[k].priceValue.value);
    }
  }

  /**
   * After a purchase the catalogue shows the book owned by the buyer and
   * neither for sale nor for trade; the buyer has paid the price and the
   * seller has received it (a buyer who owned the book pays nothing).
   */
  lemma PurchaseTransfers(db: Db, bookId: string, buyerId: string)
    requires Valid(db)
    ensures var r := Purchase(db, bookId, buyerId);
      r.1.Ok? ==>
        var book := BookById(db.books, bookId).value;
        var price := book.priceValue.value;
        var sellerId := book.currentOwner;
        && BookById(r.0.books, bookId) == Some(book.(currentOwner := buyerId, isForSale := false, isForTrade := false))
        && UserById(db.users, sellerId).Some? && UserById(r.0.users, sellerId).Some?
        && UserById(db.users, buyerId).Some? && UserById(r.0.users, buyerId).Some?
        && (sellerId != buyerId ==>
              && UserById(r.0.users, buyerId).value.balance == UserById(db.users, buyerId).value.balance - price
              && UserById(r.0.users, sellerId).value.balance == UserById(db.users, sellerId).value.balance + price)
        && (sellerId == buyerId ==>
              UserById(r.0.users, buyerId).value.balance == UserById(db.users, buyerId).value.balance)
  {
    var r := Purchase(db, bookId, buyerId);
    if r.1.Ok? {
      var k := BookSlot(db.books, bookId).value;
      var b := UserSlot(db.users, buyerId).value;
      var sellerId := db.books[k].currentOwner;
      var s := UserSlot(db.users, sellerId).value;
      FindIndexAgree(db.books, r.0.books, (x: BookEntry) => x.id == bookId);
      FindIndexAgree(db.users, r.0.users, (u: UserProfile) => u.id == buyerId);
      FindIndexAgree(db.users, r.0.users, (u: UserProfile) => u.id == sellerId);
      if sellerId != buyerId {
        assert b != s;
      }
    }
  }

  // ---------------------------------------------------------------------------
  // Trade proposals and answers
  // ---------------------------------------------------------------------------

  /** Making the same proposal again while the first is pending is refused as a duplicate. */
  lemma ProposeTwiceIsDuplicate(db: Db, initiatorId: string, initiatorBookId: string, recipientBookId: string, uid: string, uid2: string)
    requires ProposeTrade(db, initiatorId, initiatorBookId, recipientBookId, uid).1.Ok?
    ensures var db1 := ProposeTrade(db, initiatorId, initiatorBookId, recipientBookId, uid).0;
      ProposeTrade(db1, initiatorId, initiatorBookId, recipientBookId, uid2).1 == Err(DuplicateTrade)
  {
    var db1 := ProposeTrade(db, initiatorId, initiatorBookId, recipientBookId, uid).0;
    var recipientId := BookById(db.books, recipientBookId).value.currentOwner;
    assert IsDuplicate(db1.trades[|db.trades|], initiatorId, initiatorBookId, recipientId, recipientBookId);
  }

  /**
   * While a proposal is pending, the recipient cannot propose the mirrored
   * swap (the wanted book for the offered one) to an initiator who owns the
   * offered book.
   */
  lemma MirroredProposalIsDuplicate(db: Db, initiatorId: string, initiatorBookId: string, recipientBookId: string, uid: string, uid2: string)
    requires ProposeTrade(db, initiatorId, initiatorBookId, recipientBookId, uid).1.Ok?
    requires BookById(db.books, initiatorBookId).value.currentOwner == initiatorId
    requires UserById(db.users, BookById(db.books, recipientBookId).value.currentOwner).Some?
    ensures var db1 := ProposeTrade(db, initiatorId, initiatorBookId, recipientBookId, uid).0;
      var recipientId := BookById(db.books, recipientBookId).value.currentOwner;
      ProposeTrade(db1, recipientId, recipientBookId, initiatorBookId, uid2).1 == Err(DuplicateTrade)
  {
    var db1 := ProposeTrade(db, initiatorId, initiatorBookId, recipientBookId, uid).0;
    var recipientId := BookById(db.books, recipientBookId).value.currentOwner;
    assert IsDuplicate(db1.trades[|db.trades|], recipientId, recipientBookId, initiatorId, initiatorBookId);
  }

  /** The exchange of owners at the two positions where the books are found. */
  lemma SwapOwnersAt(books: seq<BookEntry>, initiatorBookId: string, recipientBookId: string, i: nat, j: nat)
    requires BookIndex(books, initiatorBookId) == Some(i) && BookIndex(books, recipientBookId) == Some(j)
    ensures var after := SwapOwners(books, initiatorBookId, recipientBookId);
      && (i != j ==>
            && after[i] == Swapped(books[i], books[j].currentOwner)
            && after[j] == Swapped(books[j], books[i].currentOwner))
      && (i == j ==> after[i] == Swapped(books[i], books[i].currentOwner))
      && (forall k :: 0 <= k < |books| && k != i && k != j ==> after[k] == books[k])
  {
  }

  /**
   * Accepting a trade whose two books are in the catalogue gives the offered
   * book the wanted book's owner and the wanted book the offered book's owner,
   * takes both off sale and off trade, and touches no other book.
   */
  lemma AcceptSwapsOwners(db: Db, tradeId: string)
    requires Valid(db) && HasTrade(db.trades, tradeId)
    ensures var t := db.trades[TradeIndex(db.trades, tradeId).value];
      && BookIndex(db.books, t.initiatorBookId).Some? && BookIndex(db.books, t.recipientBookId).Some?
      && var i := BookIndex(db.books, t.initiatorBookId).value;
         var j := BookIndex(db.books, t.recipientBookId).value;
         var after := RespondToTrade(db, tradeId, Accept).0.books;
         && |after| == |db.books|
         && (i != j ==>
               && after[i] == Swapped(db.books[i], db.books[j].currentOwner)
               && after[j] == Swapped(db.books[j], db.books[i].currentOwner))
         && (i == j ==> after[i] == Swapped(db.books[i], db.books[i].currentOwner))
         && (forall k :: 0 <= k < |db.books| && k != i && k != j ==> after[k] == db.books[k])
  {
    var t := db.trades[TradeIndex(db.trades, tradeId).value];
    assert HasBook(db.books, t.initiatorBookId) && HasBook(db.books, t.recipientBookId);
    SwapOwnersAt(db.books, t.initiatorBookId, t.recipientBookId,
                 BookIndex(db.books, t.initiatorBookId).value, BookIndex(db.books, t.recipientBookId).value);
  }

  /** An answer changes no id, so the same trade and the same books are found afterwards. */
  lemma RespondKeepsPositions(db: Db, tradeId: string, response: TradeResponse, bookId: string)
    ensures var db1 := RespondToTrade(db, tradeId, response).0;
      && TradeIndex(db1.trades, tradeId) == TradeIndex(db.trades, tradeId)
      && BookIndex(db1.books, bookId) == BookIndex(db.books, bookId)
      && |db1.trades| == |db.trades|
      && forall k :: 0 <= k < |db.trades| ==>
           db1.trades[k].initiatorBookId == db.trades[k].initiatorBookId
           && db1.trades[k].recipientBookId == db.trades[k].recipientBookId
  {
    var db1 := RespondToTrade(db, tradeId, response).0;
    FindIndexAgree(db.trades, db1.trades, (x: BookTrade) => x.id == tradeId);
    FindIndexAgree(db.books, db1.books, (b: BookEntry) => b.id == bookId);
  }

  /** A catalogue change that keeps every id in place finds every book at the same position. */
  lemma SameBookPositions(a: seq<BookEntry>, b: seq<BookEntry>, id: string)
    requires |a| == |b| && forall k :: 0 <= k < |a| ==> a[k].id == b[k].id
    ensures BookIndex(a, id) == BookIndex(b, id)
  {
    FindIndexAgree(a, b, (x: BookEntry) => x.id == id);
  }

  /** Exchanging the owners of the same two books twice gives every book its first owner back. */
  lemma SwapTwice(books: seq<BookEntry>, initiatorBookId: string, recipientBookId: string)
    ensures var twice := SwapOwners(SwapOwners(books, initiatorBookId, recipientBookId), initiatorBookId, recipientBookId);
      |twice| == |books| && forall k :: 0 <= k < |books| ==> twice[k].currentOwner == books[k].currentOwner
  {
    var once := SwapOwners(books, initiatorBookId, recipientBookId);
    SameBookPositions(books, once, initiatorBookId);
    SameBookPositions(books, once, recipientBookId);
    var bi, bj := BookIndex(books, initiatorBookId), BookIndex(books, recipientBookId);
    if bi.Some? && bj.Some? {
      SwapOwnersAt(books, initiatorBookId, recipientBookId, bi.value, bj.value);
      SwapOwnersAt(once, initiatorBookId, recipientBookId, bi.value, bj.value);
    }
  }

  /** Since the status is not checked, accepting the same trade twice gives every book its first owner back. */
  lemma AcceptTwiceRestoresOwners(db: Db, tradeId: string)
    ensures var twice := RespondToTrade(RespondToTrade(db, tradeId, Accept).0, tradeId, Accept).0;
      |twice.books| == |db.books| && forall k :: 0 <= k < |db.books| ==> twice.books[k].currentOwner == db.books[k].currentOwner
  {
    if HasTrade(db.trades, tradeId) {
      var db1 := RespondToTrade(db, tradeId, Accept).0;
      var t := db.trades[TradeIndex(db.trades, tradeId).value];
      RespondKeepsPositions(db, tradeId, Accept, t.initiatorBookId);
      assert db1.books == SwapOwners(db.books, t.initiatorBookId, t.recipientBookId);
      assert RespondToTrade(db1, tradeId, Accept).0.books == SwapOwners(db1.books, t.initiatorBookId, t.recipientBookId);
      SwapTwice(db.books, t.initiatorBookId, t.recipientBookId);
    }
  }

  // ---------------------------------------------------------------------------
  // Deletions
  // ---------------------------------------------------------------------------

  /**
   * A deleted book is gone from the catalogue, every other book stays, and no
   * remaining trade offers or asks for it.
   */
  lemma RemoveBookEffects(db: Db, bookId: string, userId: string)
    requires Valid(db)
    ensures var r := RemoveBook(db, bookId, userId);
      r.1.Ok? ==>
        && !HasBook(r.0.books, bookId)
        && (forall k :: 0 <= k < |db.books| && db.books[k].id != bookId ==> db.books[k] in r.0.books)
        && (forall k :: 0 <= k < |r.0.trades| ==> r.0.trades[k] in db.trades && TradeKeepsBook(r.0.trades[k], bookId))
  {
    var r := RemoveBook(db, bookId, userId);
    if r.1.Ok? {
      var i := BookIndex(db.books, bookId).value;
      forall k | 0 <= k < |db.books| && db.books[k].id != bookId ensures db.books[k] in r.0.books {
        if k < i {
          assert r.0.books[k] == db.books[k];
        } else {
          assert k > i;
          assert r.0.books[k - 1] == db.books[k];
        }
      }
    }
  }

  /** The admin check always leaves an admin to take over the books, so that failure cannot occur. */
  lemma RemoveUserAlwaysFindsAdmin(db: Db, targetId: string, adminId: string)
    ensures RemoveUser(db, targetId, adminId).1 != Err(NoAdminForBooks)
  {
    match UserSlot(db.users, adminId)
    case None =>
    case Some(a) =>
      if IsAdmin(db.users[a]) {
        assert IsAdmin(db.users[a]);
        assert FindIndex(db.users, IsAdmin).Some?;
      }
  }

  /** The first admin of the table, who inherits the books of a deleted user. */
  function FirstAdminId(users: seq<UserProfile>): Option<string> {
    match FindIndex(users, IsAdmin)
    case None => None
    case Some(d) => Some(users[d].id)
  }

  lemma RemoveAtUnique(users: seq<UserProfile>, t: nat)
    requires UniqueUserIds(users) && t < |users|
    ensures UniqueUserIds(RemoveAt(users, t))
  {
    var r := RemoveAt(users, t);
    forall i, j | 0 <= i < j < |r| ensures r[i].id != r[j].id {
      var i', j' := if i < t then i else i + 1, if j < t then j else j + 1;
      assert r[i] == users[i'] && r[j] == users[j'] && i' < j';
    }
  }

  lemma RemoveAtDropsId(users: seq<UserProfile>, t: nat)
    requires UniqueUserIds(users) && t < |users|
    ensures !HasUser(RemoveAt(users, t), users[t].id)
  {
    var r := RemoveAt(users, t);
    forall j | 0 <= j < |r| ensures r[j].id != users[t].id {
      if j < t {
        assert r[j] == users[j];
      } else {
        assert r[j] == users[j + 1];
      }
    }
  }

  lemma RemoveAtKeepsOthers(users: seq<UserProfile>, t: nat)
    requires t < |users|
    ensures forall k :: 0 <= k < |users| && k != t ==> users[k] in RemoveAt(users, t)
    ensures forall id :: HasUser(users, id) && id != users[t].id ==> HasUser(RemoveAt(users, t), id)
  {
    var r := RemoveAt(users, t);
    forall k | 0 <= k < |users| && k != t ensures users[k] in r {
      if k < t {
        assert r[k] == users[k];
      } else {
        assert r[k - 1] == users[k];
      }
    }
    forall id | HasUser(users, id) && id != users[t].id ensures HasUser(r, id) {
      var k :| 0 <= k < |users| && users[k].id == id;
      assert users[k] in r;
    }
  }

  /** Removing one user from a table without repeated ids removes exactly that id. */
  lemma RemoveAtUser(users: seq<UserProfile>, t: nat)
    requires UniqueUserIds(users) && t < |users|
    ensures UniqueUserIds(RemoveAt(users, t))
    ensures !HasUser(RemoveAt(users, t), users[t].id)
    ensures forall k :: 0 <= k < |users| && k != t ==> users[k] in RemoveAt(users, t)
    ensures forall id :: HasUser(users, id) && id != users[t].id ==> HasUser(RemoveAt(users, t), id)
  {
    RemoveAtUnique(users, t);
    RemoveAtDropsId(users, t);
    RemoveAtKeepsOthers(users, t);
  }

  /**
   * A deleted user is gone from the table, every other user stays, and the
   * total of balances drops by the deleted user's balance.
   */
  lemma RemoveUserDropsUser(db: Db, targetId: string, adminId: string)
    requires UniqueUserIds(db.users)
    ensures var r := RemoveUser(db, targetId, adminId);
      r.1.Ok? ==>
        && HasUser(db.users, targetId) && !HasUser(r.0.users, targetId)
        && (forall k :: 0 <= k < |db.users| && db.users[k].id != targetId ==> db.users[k] in r.0.users)
        && TotalBalance(r.0.users) == TotalBalance(db.users) - db.users[UserIndex(db.users, targetId).value].balance
  {
    var r := RemoveUser(db, targetId, adminId);
    if r.1.Ok? {
      var t := UserIndex(db.users, targetId).value;
      RemoveUserAlwaysFindsAdmin(db, targetId, adminId);
      assert r.0.users == RemoveAt(db.users, t);
      TotalRemove(db.users, t);
      RemoveAtUser(db.users, t);
    }
  }

  /** Every book the deleted user owned now belongs to the first admin; no other book changes. */
  lemma RemoveUserReassignsBooks(db: Db, targetId: string, adminId: string)
    ensures var r := RemoveUser(db, targetId, adminId);
      r.1.Ok? ==>
        && FirstAdminId(db.users).Some?
        && |r.0.books| == |db.books|
        && (forall k :: 0 <= k < |db.books| && db.books[k].currentOwner == targetId ==>
              r.0.books[k] == db.books[k].(currentOwner := FirstAdminId(db.users).value))
        && (forall k :: 0 <= k < |db.books| && db.books[k].currentOwner != targetId ==> r.0.books[k] == db.books[k])
  {
    RemoveUserAlwaysFindsAdmin(db, targetId, adminId);
  }

  // ---------------------------------------------------------------------------
  // The invariants are kept
  // ---------------------------------------------------------------------------

  /** A first start satisfies both invariants. */
  lemma InitialInvariants()
    ensures Valid(InitialDb()) && Linked(InitialDb())
  {
  }

  lemma SameUserIds(a: seq<UserProfile>, b: seq<UserProfile>)
    requires |a| == |b| && forall k :: 0 <= k < |a| ==> a[k].id == b[k].id
    ensures UniqueUserIds(a) <==> UniqueUserIds(b)
    ensures forall id :: HasUser(a, id) <==> HasUser(b, id)
  {
    forall id ensures HasUser(a, id) <==> HasUser(b, id) {
      if HasUser(a, id) {
        var k :| 0 <= k < |a| && a[k].id == id;
        assert b[k].id == id;
      }
      if HasUser(b, id) {
        var k :| 0 <= k < |b| && b[k].id == id;
        assert a[k].id == id;
      }
    }
  }

  lemma SameBookIds(a: seq<BookEntry>, b: seq<BookEntry>)
    requires |a| == |b| && forall k :: 0 <= k < |a| ==> a[k].id == b[k].id
    ensures UniqueBookIds(a) <==> UniqueBookIds(b)
    ensures forall id :: HasBook(a, id) <==> HasBook(b, id)
  {
    forall id ensures HasBook(a, id) <==> HasBook(b, id) {
      if HasBook(a, id) {
        var k :| 0 <= k < |a| && a[k].id == id;
        assert b[k].id == id;
      }
      if HasBook(b, id) {
        var k :| 0 <= k < |b| && b[k].id == id;
        assert a[k].id == id;
      }
    }
  }

  /** Removing one book keeps the other ids and adds no repetition. */
  lemma RemoveAtBook(books: seq<BookEntry>, i: nat)
    requires UniqueBookIds(books) && i < |books|
    ensures UniqueBookIds(RemoveAt(books, i))
    ensures forall id :: HasBook(books, id) && id != books[i].id ==> HasBook(RemoveAt(books, i), id)
  {
    var r := RemoveAt(books, i);
    forall a, b | 0 <= a < b < |r| ensures r[a].id != r[b].id {
      var a', b' := if a < i then a else a + 1, if b < i then b else b + 1;
      assert r[a] == books[a'] && r[b] == books[b'] && a' < b';
    }
    forall id | HasBook(books, id) && id != books[i].id ensures HasBook(r, id) {
      var k :| 0 <= k < |books| && books[k].id == id;
      if k < i {
        assert r[k].id == id;
      } else {
        assert r[k - 1].id == id;
      }
    }
  }

  lemma FilterTrades(trades: seq<BookTrade>, p: BookTrade -> bool)
    requires UniqueTradeIds(trades)
    ensures UniqueTradeIds(Filter(trades, p))
  {
    assert DistinctBy(trades, (t: BookTrade) => t.id);
    FilterDistinctBy(trades, p, (t: BookTrade) => t.id);
    var r := Filter(trades, p);
    assert DistinctBy(r, (t: BookTrade) => t.id);
  }

  /** Registration keeps both invariants when the new id is not taken. */
  lemma RegisterKeepsInvariants(db: Db, username: string, password: string, uid: string, date: string)
    requires Valid(db) && !HasUser(db.users, "usr-" + uid)
    ensures Valid(RegisterUser(db, username, password, uid, date).0)
    ensures Linked(db) ==> Linked(RegisterUser(db, username, password, uid, date).0)
  {
    var r := RegisterUser(db, username, password, uid, date).0;
    assert forall id :: HasUser(db.users, id) ==> HasUser(r.users, id) by {
      forall id | HasUser(db.users, id) ensures HasUser(r.users, id) {
        var k :| 0 <= k < |db.users| && db.users[k].id == id;
        assert r.users[k].id == id;
      }
    }
  }

  /** A top-up changes no id, so it keeps both invariants. */
  lemma TopUpKeepsInvariants(db: Db, userId: string, amount: int)
    ensures Valid(db) ==> Valid(TopUp(db, userId, amount).0)
    ensures Linked(db) ==> Linked(TopUp(db, userId, amount).0)
  {
    SameUserIds(db.users, TopUp(db, userId, amount).0.users);
  }

  /** A profile edit that leaves the id alone keeps both invariants. */
  lemma EditProfileKeepsInvariants(db: Db, userId: string, updates: ProfileUpdate)
    requires updates.id.None?
    ensures Valid(db) ==> Valid(EditProfile(db, userId, updates).0)
    ensures Linked(db) ==> Linked(EditProfile(db, userId, updates).0)
  {
    SameUserIds(db.users, EditProfile(db, userId, updates).0.users);
  }

  /**
   * After a profile edit that keeps the id, looking the user up again finds
   * the edited profile: the given fields are replaced and the others kept.
   */
  lemma EditProfileApplies(db: Db, userId: string, updates: ProfileUpdate)
    requires updates.id.None? && UserById(db.users, userId).Some?
    ensures var r := EditProfile(db, userId, updates);
      && r.1.Ok?
      && UserById(r.0.users, userId) == Some(r.1.value)
      && Applied(UserById(db.users, userId).value, updates, r.1.value)
  {
    var r := EditProfile(db, userId, updates);
    FindIndexAgree(db.users, r.0.users, (u: UserProfile) => u.id == userId);
  }

  /**
   * After a book edit, the book is found again at its old position, and the
   * entry there is the edited one with the old owner.
   */
  lemma EditBookApplies(db: Db, bookId: string, details: BookDetails, userId: string)
    requires EditBook(db, bookId, details, userId).1.Ok?
    ensures var r := EditBook(db, bookId, details, userId);
      && BookIndex(r.0.books, bookId) == BookIndex(db.books, bookId)
      && r.0.books[BookIndex(db.books, bookId).value] == r.1.value
      && r.1.value.currentOwner == db.books[BookIndex(db.books, bookId).value].currentOwner
  {
    SameBookPositions(db.books, EditBook(db, bookId, details, userId).0.books, bookId);
  }

  /** Deleting a user keeps `Valid`. */
  lemma RemoveUserKeepsValid(db: Db, targetId: string, adminId: string)
    requires Valid(db)
    ensures Valid(RemoveUser(db, targetId, adminId).0)
  {
    var r := RemoveUser(db, targetId, adminId);
    if r.1.Ok? {
      RemoveUserAlwaysFindsAdmin(db, targetId, adminId);
      var t := UserIndex(db.users, targetId).value;
      RemoveAtUser(db.users, t);
      SameBookIds(db.books, r.0.books);
      FilterTrades(db.trades, (tr: BookTrade) => TradeKeepsUser(tr, targetId));
    }
  }

  /** Owners that stay registered, and `from`'s books handed to a registered `to`, leave every owner registered. */
  lemma ReassignKeepsOwners(books: seq<BookEntry>, users: seq<UserProfile>, users1: seq<UserProfile>, from: string, to: string)
    requires forall k :: 0 <= k < |books| ==> HasUser(users, books[k].currentOwner)
    requires forall id :: HasUser(users, id) && id != from ==> HasUser(users1, id)
    requires HasUser(users1, to)
    ensures forall k :: 0 <= k < |books| ==> HasUser(users1, Reassign(books, from, to)[k].currentOwner)
  {
    var r := Reassign(books, from, to);
    forall k | 0 <= k < |books| ensures HasUser(users1, r[k].currentOwner) {
      if books[k].currentOwner != from {
        assert r[k] == books[k];
      }
    }
  }

  /** Dropping the trades that name `from` leaves only parties that stay registered. */
  lemma FilterKeepsParties(trades: seq<BookTrade>, users: seq<UserProfile>, users1: seq<UserProfile>, from: string)
    requires forall k :: 0 <= k < |trades| ==> HasUser(users, trades[k].initiatorId) && HasUser(users, trades[k].recipientId)
    requires forall id :: HasUser(users, id) && id != from ==> HasUser(users1, id)
    ensures var r := Filter(trades, (tr: BookTrade) => TradeKeepsUser(tr, from));
      forall k :: 0 <= k < |r| ==> HasUser(users1, r[k].initiatorId) && HasUser(users1, r[k].recipientId)
  {
    var r := Filter(trades, (tr: BookTrade) => TradeKeepsUser(tr, from));
    forall k | 0 <= k < |r| ensures HasUser(users1, r[k].initiatorId) && HasUser(users1, r[k].recipientId) {
      assert r[k] in trades && TradeKeepsUser(r[k], from);
      var m :| 0 <= m < |trades| && trades[m] == r[k];
    }
  }

  /**
   * Deleting a user who is not an admin keeps `Linked`: the books go to an
   * admin who stays, and the trades that named the user are gone.
   */
  lemma RemoveUserKeepsLinked(db: Db, targetId: string, adminId: string)
    requires Linked(db)
    requires forall k :: 0 <= k < |db.users| && db.users[k].id == targetId ==> !IsAdmin(db.users[k])
    ensures Linked(RemoveUser(db, targetId, adminId).0)
  {
    var r := RemoveUser(db, targetId, adminId);
    if r.1.Ok? {
      RemoveUserAlwaysFindsAdmin(db, targetId, adminId);
      var t := UserIndex(db.users, targetId).value;
      var d := FindIndex(db.users, IsAdmin).value;
      RemoveUserSucceeds(db, targetId, adminId, t, d);
      var users1 := RemoveAt(db.users, t);
      assert r.0.users == users1;
      RemoveAtKeepsOthers(db.users, t);
      assert db.users[d].id != targetId;
      assert HasUser(db.users, db.users[d].id);
      ReassignKeepsOwners(db.books, db.users, users1, targetId, db.users[d].id);
      FilterKeepsParties(db.trades, db.users, users1, targetId);
    }
  }

  /** A new book keeps `Valid` when its id is not taken, and `Linked` when its owner is registered. */
  lemma AddBookKeepsInvariants(db: Db, details: BookDetails, ownerId: string, uid: string)
    requires Valid(db) && !HasBook(db.books, "book-" + uid)
    ensures Valid(AddBook(db, details, ownerId, uid).0)
    ensures Linked(db) && HasUser(db.users, ownerId) ==> Linked(AddBook(db, details, ownerId, uid).0)
  {
    var r := AddBook(db, details, ownerId, uid).0;
    forall id | HasBook(db.books, id) ensures HasBook(r.books, id) {
      var k :| 0 <= k < |db.books| && db.books[k].id == id;
      assert r.books[k + 1].id == id;
    }
    forall i, j | 0 <= i < j < |r.books| ensures r.books[i].id != r.books[j].id {
      if i == 0 {
        assert r.books[j] == db.books[j - 1];
      } else {
        assert r.books[i] == db.books[i - 1] && r.books[j] == db.books[j - 1];
      }
    }
  }

  /** Editing a book changes no id or owner, so it keeps both invariants. */
  lemma EditBookKeepsInvariants(db: Db, bookId: string, details: BookDetails, userId: string)
    ensures Valid(db) ==> Valid(EditBook(db, bookId, details, userId).0)
    ensures Linked(db) ==> Linked(EditBook(db, bookId, details, userId).0)
  {
    SameBookIds(db.books, EditBook(db, bookId, details, userId).0.books);
  }

  /** Deleting a book keeps both invariants: the trades that named it are gone. */
  lemma RemoveBookKeepsInvariants(db: Db, bookId: string, userId: string)
    requires Valid(db)
    ensures Valid(RemoveBook(db, bookId, userId).0)
    ensures Linked(db) ==> Linked(RemoveBook(db, bookId, userId).0)
  {
    var r := RemoveBook(db, bookId, userId);
    if r.1.Ok? {
      var i := BookIndex(db.books, bookId).value;
      RemoveAtBook(db.books, i);
      FilterTrades(db.trades, (t: BookTrade) => TradeKeepsBook(t, bookId));
      forall k | 0 <= k < |r.0.trades|
        ensures HasBook(r.0.books, r.0.trades[k].initiatorBookId) && HasBook(r.0.books, r.0.trades[k].recipientBookId)
      {
        var tr := r.0.trades[k];
        assert tr in db.trades;
      }
      forall k | 0 <= k < |r.0.books| ensures r.0.books[k] in db.books {
        if k < i {
          assert r.0.books[k] == db.books[k];
        } else {
          assert r.0.books[k] == db.books[k + 1];
        }
      }
    }
  }

  /** A change of the catalogue that keeps every id and owner in place keeps both invariants. */
  lemma SameIdsAndOwners(db: Db, books: seq<BookEntry>)
    requires |books| == |db.books|
    requires forall k :: 0 <= k < |books| ==> books[k].id == db.books[k].id && books[k].currentOwner == db.books[k].currentOwner
    ensures Valid(db) ==> Valid(db.(books := books))
    ensures Linked(db) ==> Linked(db.(books := books))
  {
    SameBookIds(db.books, books);
  }

  /** Reviews and quotes change no id or owner, so they keep both invariants. */
  lemma AnnotationsKeepInvariants(db: Db, bookId: string, text: string, authorId: string, uid: string)
    ensures Valid(db) ==> Valid(AddReview(db, bookId, text, authorId, uid).0) && Valid(AddQuote(db, bookId, text, authorId, uid).0)
    ensures Linked(db) ==> Linked(AddReview(db, bookId, text, authorId, uid).0) && Linked(AddQuote(db, bookId, text, authorId, uid).0)
  {
    var reviewed := AddReview(db, bookId, text, authorId, uid).0;
    var quoted := AddQuote(db, bookId, text, authorId, uid).0;
    assert reviewed == db.(books := reviewed.books);
    assert quoted == db.(books := quoted.books);
    SameIdsAndOwners(db, reviewed.books);
    SameIdsAndOwners(db, quoted.books);
  }

  /** A purchase changes no id, so it keeps `Valid`. */
  lemma PurchaseKeepsValid(db: Db, bookId: string, buyerId: string)
    requires Valid(db)
    ensures Valid(Purchase(db, bookId, buyerId).0)
  {
    var r := Purchase(db, bookId, buyerId);
    if r.1.Ok? {
      PurchaseOk(db, bookId, buyerId);
      var k := BookSlot(db.books, bookId).value;
      assert forall m :: 0 <= m < |db.books| ==> r.0.books[m].id == db.books[m].id;
      SameUserIds(db.users, r.0.users);
      SameBookIds(db.books, r.0.books);
    }
  }

  /** A purchase hands the book to a registered buyer, so it keeps `Linked`. */
  lemma PurchaseKeepsLinked(db: Db, bookId: string, buyerId: string)
    requires Linked(db)
    ensures Linked(Purchase(db, bookId, buyerId).0)
  {
    var r := Purchase(db, bookId, buyerId);
    if r.1.Ok? {
      PurchaseOk(db, bookId, buyerId);
      var k, b := BookSlot(db.books, bookId).value, UserSlot(db.users, buyerId).value;
      SameUserIds(db.users, r.0.users);
      assert r.0.books[k].currentOwner == db.users[b].id;
      assert HasUser(db.users, db.users[b].id);
      forall m | 0 <= m < |r.0.books| ensures HasUser(r.0.users, r.0.books[m].currentOwner) {
        if m != k {
          assert r.0.books[m] == db.books[m];
        }
      }
    }
  }

  /** A trade with a fresh id whose books are in the catalogue keeps `Valid`; one whose parties are registered keeps `Linked`. */
  lemma AppendTrade(db: Db, trade: BookTrade)
    requires HasBook(db.books, trade.initiatorBookId) && HasBook(db.books, trade.recipientBookId)
    ensures Valid(db) && !HasTrade(db.trades, trade.id) ==> Valid(db.(trades := db.trades + [trade]))
    ensures Linked(db) && HasUser(db.users, trade.initiatorId) && HasUser(db.users, trade.recipientId) ==>
      Linked(db.(trades := db.trades + [trade]))
  {
    var trades := db.trades + [trade];
    assert forall k :: 0 <= k < |db.trades| ==> trades[k] == db.trades[k];
    assert trades[|db.trades|] == trade;
  }

  /** A proposal keeps `Valid` when its id is not taken, and `Linked` always. */
  lemma ProposeKeepsInvariants(db: Db, initiatorId: string, initiatorBookId: string, recipientBookId: string, uid: string)
    requires Valid(db) && !HasTrade(db.trades, "trade-" + uid)
    ensures Valid(ProposeTrade(db, initiatorId, initiatorBookId, recipientBookId, uid).0)
    ensures Linked(db) ==> Linked(ProposeTrade(db, initiatorId, initiatorBookId, recipientBookId, uid).0)
  {
    var r := ProposeTrade(db, initiatorId, initiatorBookId, recipientBookId, uid);
    if r.1.Ok? {
      var k := BookSlot(db.books, recipientBookId).value;
      var trade := BookTrade("trade-" + uid, initiatorId, initiatorBookId, db.books[k].currentOwner, recipientBookId, Pending);
      assert r.0 == db.(trades := db.trades + [trade]);
      assert Linked(db) ==> HasUser(db.users, db.books[k].currentOwner);
      AppendTrade(db, trade);
    }
  }

  /** A new status for one trade, with a catalogue that keeps every id in place, keeps `Valid`. */
  lemma StatusUpdateKeepsValid(db: Db, books: seq<BookEntry>, k: nat, status: TradeStatus)
    requires Valid(db) && k < |db.trades|
    requires |books| == |db.books| && forall m :: 0 <= m < |books| ==> books[m].id == db.books[m].id
    ensures Valid(Db(db.users, books, db.trades[k := db.trades[k].(status := status)]))
  {
    SameBookIds(db.books, books);
    var trades := db.trades[k := db.trades[k].(status := status)];
    assert forall m :: 0 <= m < |trades| ==>
      && trades[m].id == db.trades[m].id
      && trades[m].initiatorBookId == db.trades[m].initiatorBookId
      && trades[m].recipientBookId == db.trades[m].recipientBookId;
  }

  /** An answer changes no id, so it keeps `Valid`. */
  lemma RespondKeepsValid(db: Db, tradeId: string, response: TradeResponse)
    requires Valid(db)
    ensures Valid(RespondToTrade(db, tradeId, response).0)
  {
    var r := RespondToTrade(db, tradeId, response);
    if r.1.Ok? {
      var k := TradeIndex(db.trades, tradeId).value;
      assert r.0 == Db(db.users, r.0.books, db.trades[k := db.trades[k].(status := ResponseStatus(response))]);
      StatusUpdateKeepsValid(db, r.0.books, k, ResponseStatus(response));
    }
  }

  /** Every owner in `after` already owned a book in `before`. */
  predicate OwnersFrom(after: seq<BookEntry>, before: seq<BookEntry>) {
    forall k :: 0 <= k < |after| ==> exists m :: 0 <= m < |before| && after[k].currentOwner == before[m].currentOwner
  }

  lemma SwapOwnersFrom(books: seq<BookEntry>, initiatorBookId: string, recipientBookId: string)
    ensures OwnersFrom(SwapOwners(books, initiatorBookId, recipientBookId), books)
  {
    var r := SwapOwners(books, initiatorBookId, recipientBookId);
    var bi, bj := BookIndex(books, initiatorBookId), BookIndex(books, recipientBookId);
    if bi.Some? && bj.Some? {
      var i, j := bi.value, bj.value;
      forall k | 0 <= k < |r| ensures exists m :: 0 <= m < |books| && r[k].currentOwner == books[m].currentOwner {
        if k == j {
          assert r[k].currentOwner == books[i].currentOwner;
        } else if k == i {
          assert r[k].currentOwner == books[j].currentOwner;
        } else {
          assert r[k].currentOwner == books[k].currentOwner;
        }
      }
    } else {
      forall k | 0 <= k < |r| ensures exists m :: 0 <= m < |books| && r[k].currentOwner == books[m].currentOwner {
        assert r[k] == books[k];
      }
    }
  }

  /** A change that keeps the users, takes every owner from the old books and keeps the parties of every trade keeps `Linked`. */
  lemma LinkedAfter(db: Db, db1: Db)
    requires Linked(db) && db1.users == db.users && OwnersFrom(db1.books, db.books)
    requires |db1.trades| == |db.trades|
    requires forall m :: 0 <= m < |db.trades| ==>
      db1.trades[m].initiatorId == db.trades[m].initiatorId && db1.trades[m].recipientId == db.trades[m].recipientId
    ensures Linked(db1)
  {
    forall m | 0 <= m < |db1.books| ensures HasUser(db.users, db1.books[m].currentOwner) {
      var m' :| 0 <= m' < |db.books| && db1.books[m].currentOwner == db.books[m'].currentOwner;
    }
  }

  /** An answer only exchanges owners and keeps the parties, so it keeps `Linked`. */
  lemma RespondKeepsLinked(db: Db, tradeId: string, response: TradeResponse)
    requires Linked(db)
    ensures Linked(RespondToTrade(db, tradeId, response).0)
  {
    var r := RespondToTrade(db, tradeId, response);
    if r.1.Ok? {
      var k := TradeIndex(db.trades, tradeId).value;
      var t := db.trades[k];
      var trades := db.trades[k := t.(status := ResponseStatus(response))];
      assert r.0.trades == trades;
      assert forall m :: 0 <= m < |db.trades| ==>
        trades[m].initiatorId == db.trades[m].initiatorId && trades[m].recipientId == db.trades[m].recipientId;
      if response == Accept {
        SwapOwnersFrom(db.books, t.initiatorBookId, t.recipientBookId);
        LinkedAfter(db, Db(db.users, SwapOwners(db.books, t.initiatorBookId, t.recipientBookId), trades));
      } else {
        assert r.0 == Db(db.users, db.books, trades);
      }
    }
  }
}

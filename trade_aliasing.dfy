/**
 * The book catalogue as the service keeps it in memory: the table holds book
 * objects, and a trade proposal holds the two book objects themselves, not
 * their ids. `updateBook` puts a new object into the table, so a trade made
 * before the edit still holds the old one, and accepting that trade changes
 * the owner of an object the catalogue no longer shows.
 *
 * `AcceptAsWritten` is the service's exchange on the objects the trade holds;
 * `StaleTradeReference` is a run where the catalogue ends with both books
 * owned by the same user. `AcceptResolved` finds the two books by id in the
 * table first; `ResolvedAcceptMatchesIds` proves it is the exchange the
 * id-based `AppData.RespondToTrade` performs, which is the one the rest of
 * the model uses.
 */
module TradeAliasing {
  import opened Optional
  import opened AppTypes
  import opened AppData
  import opened AppDataProperties

  /** Where a book object lives. */
  type Address = nat

  /** The book objects, the table of `availableBooks` as addresses, and the next free address. */
  datatype Heap = Heap(objects: map<Address, BookEntry>, table: seq<Address>, next: Address)

  /** A trade as stored: the objects of the offered and the wanted book. */
  datatype TradeRefs = TradeRefs(initiatorBook: Address, recipientBook: Address)

  predicate TableAllocated(h: Heap) {
    forall i :: 0 <= i < |h.table| ==> h.table[i] in h.objects
  }

  /** Every table entry is an object, no object appears twice, and `next` is free. */
  predicate WellFormed(h: Heap) {
    && TableAllocated(h)
    && (forall a :: a in h.objects ==> a < h.next)
    && (forall i, j :: 0 <= i < j < |h.table| ==> h.table[i] != h.table[j])
  }

  /** The catalogue as the pages show it. */
  function View(h: Heap): seq<BookEntry>
    requires TableAllocated(h)
  {
    seq(|h.table|, i requires 0 <= i < |h.table| => h.objects[h.table[i]])
  }

  /**
   * `updateBook` on the book at position `i`, as written: a new object with
   * the edited fields takes the old object's place in the table (the owner
   * check is left aside, it plays no part here).
   */
  function UpdateBookAsWritten(h: Heap, i: nat, details: BookDetails): (r: Heap)
    requires WellFormed(h) && i < |h.table|
    ensures WellFormed(r)
    ensures View(r) == View(h)[i := WithDetails(View(h)[i], details)]
    ensures h.table[i] in r.objects && r.objects[h.table[i]] == h.objects[h.table[i]]
    ensures r.table[i] != h.table[i]
  {
    var edited := WithDetails(h.objects[h.table[i]], details);
    var r := Heap(h.objects[h.next := edited], h.table[i := h.next], h.next + 1);
    assert forall k :: 0 <= k < |h.table| ==> h.table[k] < h.next;
    r
  }

  /**
   * Accepting a trade, as written: the two objects the trade holds exchange
   * owners, one assignment after the other, and lose their sale and trade
   * flags. No other object and not the table changes.
   */
  function AcceptAsWritten(h: Heap, t: TradeRefs): (r: Heap)
    requires t.initiatorBook in h.objects && t.recipientBook in h.objects
    ensures r.table == h.table && r.next == h.next && r.objects.Keys == h.objects.Keys
    ensures forall x :: x in h.objects && x != t.initiatorBook && x != t.recipientBook ==> r.objects[x] == h.objects[x]
    ensures t.initiatorBook != t.recipientBook ==>
      && r.objects[t.initiatorBook] == Swapped(h.objects[t.initiatorBook], h.objects[t.recipientBook].currentOwner)
      && r.objects[t.recipientBook] == Swapped(h.objects[t.recipientBook], h.objects[t.initiatorBook].currentOwner)
    ensures t.initiatorBook == t.recipientBook ==>
      r.objects[t.initiatorBook] == Swapped(h.objects[t.initiatorBook], h.objects[t.initiatorBook].currentOwner)
  {
    var a, b := t.initiatorBook, t.recipientBook;
    var tempOwner := h.objects[a].currentOwner;
    var objects1 := h.objects[a := Swapped(h.objects[a], h.objects[b].currentOwner)];
    h.(objects := objects1[b := Swapped(objects1[b], tempOwner)])
  }

  function ExampleBook(id: string, title: string, owner: string): BookEntry {
    BookEntry(id, title, "", "", "", owner, false, true, None, [], [], 2000)
  }

  /** User `usr-a` owns `book-1`, user `usr-b` owns `book-2`. */
  function ExampleHeap(): Heap {
    Heap(map[0 := ExampleBook("book-1", "One", "usr-a"), 1 := ExampleBook("book-2", "Two", "usr-b")], [0, 1], 2)
  }

  function ExampleEdit(): BookDetails {
    BookDetails("Two, revised", "", "", "", false, true, None, 2001)
  }

  /**
   * `usr-a` offers `book-1` for `book-2`; `usr-b` then edits `book-2` and
   * accepts. The catalogue shows both books owned by `usr-b`, while the
   * exchange by id gives `book-2` to `usr-a`.
   */
  lemma StaleTradeReference()
    ensures var h0 := ExampleHeap();
      var trade := TradeRefs(h0.table[0], h0.table[1]);
      var h1 := UpdateBookAsWritten(h0, 1, ExampleEdit());
      var h2 := AcceptAsWritten(h1, trade);
      && View(h2)[0].id == "book-1" && View(h2)[0].currentOwner == "usr-b"
      && View(h2)[1].id == "book-2" && View(h2)[1].currentOwner == "usr-b"
      && SwapOwners(View(h1), "book-1", "book-2")[1].currentOwner == "usr-a"
  {
    var h0 := ExampleHeap();
    var trade := TradeRefs(h0.table[0], h0.table[1]);
    var h1 := UpdateBookAsWritten(h0, 1, ExampleEdit());
    var h2 := AcceptAsWritten(h1, trade);
    assert h1.table == [0, 2];
    assert View(h1)[0].id == "book-1" && View(h1)[1].id == "book-2";
    assert View(h2)[1] == h1.objects[2];
    var books := View(h1);
    assert BookIndex(books, "book-1") == Some(0);
    assert BookIndex(books, "book-2") == Some(1);
    SwapOwnersAt(books, "book-1", "book-2", 0, 1);
  }

  /**
   * Accepting with the two books looked up by id in the current table, as the
   * load-time repair pass does when it relinks every trade.
   */
  function AcceptResolved(h: Heap, initiatorBookId: string, recipientBookId: string): (r: Heap)
    requires TableAllocated(h)
    ensures r.table == h.table && r.next == h.next && r.objects.Keys == h.objects.Keys
    ensures BookIndex(View(h), initiatorBookId).None? || BookIndex(View(h), recipientBookId).None? ==> r == h
  {
    var books := View(h);
    match (BookIndex(books, initiatorBookId), BookIndex(books, recipientBookId))
    case (Some(i), Some(j)) => AcceptAsWritten(h, TradeRefs(h.table[i], h.table[j]))
    case _ => h
  }

  /** The catalogue after the exchange on the objects at table positions `i` and `j`. */
  lemma AcceptView(h: Heap, i: nat, j: nat)
    requires WellFormed(h) && i < |h.table| && j < |h.table|
    ensures var r := AcceptAsWritten(h, TradeRefs(h.table[i], h.table[j]));
      && TableAllocated(r) && |View(r)| == |View(h)|
      && (i != j ==>
            && View(r)[i] == Swapped(View(h)[i], View(h)[j].currentOwner)
            && View(r)[j] == Swapped(View(h)[j], View(h)[i].currentOwner))
      && (i == j ==> View(r)[i] == Swapped(View(h)[i], View(h)[i].currentOwner))
      && (forall k :: 0 <= k < |h.table| && k != i && k != j ==> View(r)[k] == View(h)[k])
  {
    var r := AcceptAsWritten(h, TradeRefs(h.table[i], h.table[j]));
    assert i != j ==> h.table[i] != h.table[j];
    forall k | 0 <= k < |h.table| && k != i && k != j ensures View(r)[k] == View(h)[k] {
      assert h.table[k] != h.table[i] && h.table[k] != h.table[j];
    }
  }

  /** Two catalogues that agree at `i` and `j` and elsewhere both keep `books` are the same. */
  lemma SameExchange(v: seq<BookEntry>, w: seq<BookEntry>, books: seq<BookEntry>, i: nat, j: nat)
    requires |v| == |books| && |w| == |books| && i < |books| && j < |books|
    requires v[i] == w[i] && v[j] == w[j]
    requires forall k :: 0 <= k < |books| && k != i && k != j ==> v[k] == books[k] && w[k] == books[k]
    ensures v == w
  {
    assert forall k :: 0 <= k < |v| ==> v[k] == w[k];
  }

  /** Resolved by id, the exchange on objects is the id-based exchange of the model. */
  lemma ResolvedAcceptMatchesIds(h: Heap, initiatorBookId: string, recipientBookId: string)
    requires WellFormed(h)
    ensures TableAllocated(AcceptResolved(h, initiatorBookId, recipientBookId))
    ensures View(AcceptResolved(h, initiatorBookId, recipientBookId)) == SwapOwners(View(h), initiatorBookId, recipientBookId)
  {
    var books := View(h);
    var bi, bj := BookIndex(books, initiatorBookId), BookIndex(books, recipientBookId);
    if bi.Some? && bj.Some? {
      var i, j := bi.value, bj.value;
      var r := AcceptAsWritten(h, TradeRefs(h.table[i], h.table[j]));
      assert r == AcceptResolved(h, initiatorBookId, recipientBookId);
      AcceptView(h, i, j);
      SwapOwnersAt(books, initiatorBookId, recipientBookId, i, j);
      SameExchange(View(r), SwapOwners(books, initiatorBookId, recipientBookId), books, i, j);
    } else {
      assert AcceptResolved(h, initiatorBookId, recipientBookId) == h;
      assert SwapOwners(books, initiatorBookId, recipientBookId) == books;
    }
  }
}

# Tournament brackets and the book-exchange store, in Dafny

The repository is a web application with two parts. One part runs
esports tournaments: organisers create tournaments, teams register,
and starting a tournament generates a double-elimination bracket whose
match results are then recorded. The other part is a book-exchange
store. Users hold a balance, list books, buy books from each other,
and propose and answer book-for-book trades. Administrators can delete
users and edit or delete any book.

This project models three source files and proves what they promise.

- **The bracket generator** (`BracketGenerator`, with the proofs in
  `BracketProperties`) has one operation.
  - `GenerateDoubleEliminationBracket` keeps the source's loops: the
    winners loop, the losers loop, and the in-place seeding of the
    round-1 matches.
  - It is proved equal to the specification function `Bracket`.
  - The lemmas about `Bracket` cover round counts and sizes, the
    output order, distinct ids, the two finals, and seating: every
    participant sits in exactly one round-1 slot, in input order.
- **The tournament provider** (`TournamentContext`) has a pure update
  function per operation (`Created`, `WithResult`, `WithTeam`,
  `Started`, `Lookup`).
  - Each function states what changes and that nothing else does.
  - The class `TournamentProvider` holds the tournament list and
    replaces it wholesale, as the React provider does.
  - `StartTournament` keeps the source's per-tournament loop, which
    calls the bracket generator.
- **The book-exchange store** (`AppTypes`, `AppData`, with the proofs
  in `AppDataProperties`) keeps the three tables `registeredUsers`,
  `availableBooks` and `activeTrades` as fields of the class `Store`.
  - Each operation is a method. Its result and the new tables are
    proved equal to those of a specification function on the tables
    (`Db`).
  - The lemmas state the error cases and that the money total is
    conserved.
  - More lemmas cover where a purchase moves money and, for trades,
    duplicates and owner swaps.
  - Two more groups: the cascade effects of deletions, and that every
    operation keeps two invariants.
    - `Valid`: ids are unique, and every trade's books exist.
    - `Linked`: every owner and every trade party is a registered
      user.
  - A user or a book is referred to by its id where the source holds
    an object reference.
- **The stale-trade discrepancy** is modelled in `TradeAliasing`: the
  book table and the trades as a heap of objects, as the source keeps
  them (see Findings).

The remaining modules are small helpers:
- `Optional`
- `Collections`: `findIndex`, `find` and `filter` with their
  contracts.
- `Decimal`: decimal rendering of round and match numbers in ids,
  proved injective.
- `Interfaces`: the tournament records.

Where the code departs from a standard double-elimination bracket or
from what its comments suggest, the model follows the code:
- Round 1 is paired sequentially from participant order: participant
  `2i` against `2i+1`. It is not standard seeding.
- Matches are not linked to the matches they feed. An odd participant
  count leaves a `null` slot, and there is no bye advancement.
- With two participants the losers section still has one round of one
  match. That match comes from the loop bound 2^-1.
- Recording a result needs no particular status. It allows equal
  scores, with the win going to team 2, and it overwrites an earlier
  result.
- Registering a team does not check `maxTeams`.

## Model

| member | source | states |
|---|---|---|
| BracketGenerator.CeilLog2 | src/utils/bracketGenerator.ts:14 | the number of winners rounds is the least `w` with `n <= 2^w` |
| BracketGenerator.GenerateDoubleEliminationBracket | src/utils/bracketGenerator.ts:4-105 | the matches the loops push and seed are exactly `Bracket(participants)` |
| BracketGenerator.BuildWinnersSection | src/utils/bracketGenerator.ts:14-32 | the winners loop yields one blank winners match per (round, index) key, round `r` holding `ceil(n/2^r)` matches |
| BracketGenerator.BuildLosersSection | src/utils/bracketGenerator.ts:35-61 | the losers loop yields one blank losers match per key of the losers round sizes |
| BracketGenerator.SeedFirstRound | src/utils/bracketGenerator.ts:89-102 | the in-place seeding of the round-1 matches gives the specification's seeded winners section |
| BracketGenerator.WinnersRoundOnePrefix | src/utils/bracketGenerator.ts:89 | the matches with round 1 are exactly the first `ceil(n/2)` winners matches |
| BracketProperties.WinnersHalving | src/utils/bracketGenerator.ts:19 | each winners round has `ceil(previous/2)` matches |
| BracketProperties.WinnersShape | src/utils/bracketGenerator.ts:14-19 | there are `ceil(log2 n)` winners rounds; the first has `ceil(n/2)` matches, the last exactly 1, all others at least 2, each halving the previous |
| BracketProperties.LosersShape | src/utils/bracketGenerator.ts:35-47 | there are `2w-1` losers rounds; the first has `2^(w-2)` (1 when `w = 1`), every size is a power of two, sizes never grow, the last round has 1 match |
| BracketProperties.TwoParticipantsShape | src/utils/bracketGenerator.ts:42 | two participants give one winners round and one losers round, each of one match |
| BracketProperties.LosersGrowth | src/utils/bracketGenerator.ts:41-47 | going from `w-1` to `w` winners rounds puts three rounds of `2^(w-2)` in front of the smaller losers section |
| BracketProperties.LosersTotal | src/utils/bracketGenerator.ts:35-61 | the losers section holds `2^(w-2) + 2^w - 2` matches for `w >= 2`, and 1 for `w = 1` |
| BracketProperties.WinnersRoundCounts | src/utils/bracketGenerator.ts:18-32 | the bracket holds `ceil(n/2^r)` winners matches of round `r` for `1 <= r <= w`, and none with any other round |
| BracketProperties.LosersRoundCounts | src/utils/bracketGenerator.ts:38-61 | the bracket holds the loop's size of losers matches for each round `1..2w-1`, and none with any other round |
| BracketProperties.FinalRoundCounts | src/utils/bracketGenerator.ts:64-85 | the bracket holds one final match of round 1, one of round 2, and no other final match |
| BracketProperties.BracketLayout | src/utils/bracketGenerator.ts:18-104 | the output is the winners matches, then the losers matches, each with id `w-{r}-{i}` / `l-{r}-{i}` in lexicographic (round, index) order, then `final-1` (round 1) and `final-2` (round 2), both blank |
| BracketProperties.BracketOrder | src/utils/bracketGenerator.ts:104 | sections appear winners, losers, final, and rounds never decrease within a section |
| BracketProperties.MatchIdInjective | src/utils/bracketGenerator.ts:22 | two ids `{x}-{r}-{i}` are equal only for the same prefix, round and index |
| BracketProperties.BracketIdsDistinct | src/utils/bracketGenerator.ts:21-85 | no two matches of the bracket share an id |
| BracketProperties.BracketRecords | src/utils/bracketGenerator.ts:89-102 | round-1 match `i` has `participants[2i]` and `participants[2i+1]` (or `null` past the end); every other match has empty slots; no match has scores or a winner |
| BracketProperties.BracketSeating | src/utils/bracketGenerator.ts:89-102 | the occupied slots of the bracket, in order, are exactly the participants' ids, so each participant is placed exactly once |
| BracketProperties.BracketNeedsTwo | src/utils/bracketGenerator.ts:9-11 | the bracket is empty exactly when there are fewer than two participants |
| BracketProperties.FourParticipants | src/utils/bracketGenerator.ts:4-105 | four teams give 8 matches: A v B and C v D in round 1, then `w-1-0`, three losers rounds `l-0-0`..`l-2-0`, and the finals |
| BracketProperties.FiveParticipants | src/utils/bracketGenerator.ts:95-101 | with five teams the third round-1 match holds the fifth team and an empty slot |
| TournamentContext.Created | src/context/TournamentContext.tsx:31-43 | one tournament is appended with the draft's fields, the given id, status `upcoming` and no teams or matches; the existing list is kept |
| TournamentContext.Lookup | src/context/TournamentContext.tsx:73-75 | the result is the first tournament with the id, and none exactly when no tournament has it |
| TournamentContext.ScoreMatch | src/context/TournamentContext.tsx:49-52 | both scores are set; the winner is team 1 when its score is greater and team 2 otherwise, ties included; nothing else changes |
| TournamentContext.WithResult | src/context/TournamentContext.tsx:45-60 | only the matches with the id, inside the tournaments with the id, are scored; every other tournament and match is unchanged |
| TournamentContext.WithTeam | src/context/TournamentContext.tsx:62-71 | the target tournaments get exactly one new team appended, order kept; other fields and tournaments are unchanged |
| TournamentContext.Started | src/context/TournamentContext.tsx:77-86 | an `upcoming` tournament with the id becomes `ongoing` with the generated bracket; every other tournament is unchanged |
| TournamentContext.LookupAfterCreate | src/context/TournamentContext.tsx:31-43 | with a fresh id the new tournament is found under that id, and lookups of other ids are unchanged |
| TournamentContext.CreateWithTakenId | src/context/TournamentContext.tsx:31-43 | when the id is already taken, looking it up still finds the earlier tournament |
| TournamentContext.ScoreMatchTwice | src/context/TournamentContext.tsx:49-52 | scoring a match again replaces the first result entirely |
| TournamentContext.RescoreOverwrites | src/context/TournamentContext.tsx:45-60 | recording a second result for the same match equals recording only the second |
| TournamentContext.ResultsCommute | src/context/TournamentContext.tsx:45-60 | results for two different matches can be recorded in either order |
| TournamentContext.ResultForUnknownMatch | src/context/TournamentContext.tsx:46-57 | a result for a match id the tournament lacks changes nothing |
| TournamentContext.LookupAfterResult | src/context/TournamentContext.tsx:45-60 | after a result the tournament is found again with only that match scored |
| TournamentContext.LookupAfterRegister | src/context/TournamentContext.tsx:62-71 | after a registration the tournament is found again with the team appended |
| TournamentContext.RegisterIgnoresCapacity | src/context/TournamentContext.tsx:62-71 | a full tournament still accepts a team, exceeding `maxTeams` |
| TournamentContext.LateRegistrationNotSeated | src/context/TournamentContext.tsx:62-86 | a team registered after the start gets no match, and starting again changes nothing |
| TournamentContext.StartIdempotent | src/context/TournamentContext.tsx:77-86 | starting a tournament a second time is a no-op |
| TournamentContext.StartSeatsParticipants | src/context/TournamentContext.tsx:77-86 | a started tournament keeps its teams, and its bracket seats every team exactly once (empty with fewer than two teams) |
| TournamentContext.OperationsKeepLifecycle | src/context/TournamentContext.tsx:31-86 | no operation moves a status except `upcoming` to `ongoing`, and none completes a tournament |
| TournamentContext.TournamentProvider.CreateTournament | src/context/TournamentContext.tsx:31-43 | returns the new tournament and the list becomes `Created` of the old list |
| TournamentContext.TournamentProvider.UpdateMatchResult | src/context/TournamentContext.tsx:45-60 | the list becomes `WithResult` of the old list |
| TournamentContext.TournamentProvider.RegisterTeam | src/context/TournamentContext.tsx:62-71 | the list becomes `WithTeam` of the old list |
| TournamentContext.TournamentProvider.GetTournament | src/context/TournamentContext.tsx:73-75 | the result is the first tournament of the list with the id, and none exactly when no tournament has it |
| TournamentContext.TournamentProvider.StartTournament | src/context/TournamentContext.tsx:77-86 | the loop that generates brackets leaves the list equal to `Started` of the old list |
| AppData.Authenticate | src/data/appData.ts:169-171 | the first user with that name and password is returned, and none exactly when no user has both |
| AppData.UserByName | src/data/appData.ts:179-181 | the first user whose folded name equals the folded query is returned, and none exactly when there is no such user |
| AppData.UserById | src/data/appData.ts:189-192 | a user with the id is returned, and none exactly when the id is empty or unknown |
| AppData.BookById | src/data/appData.ts:319-322 | a book with the id is returned, and none exactly when the id is empty or unknown |
| AppData.TradeProposals | src/data/appData.ts:509-513 | incoming holds exactly the pending trades addressed to the user, outgoing exactly the pending trades the user started |
| AppData.Store.AuthenticateUser | src/data/appData.ts:169-171 | reads the user table through `Authenticate` |
| AppData.Store.FindUserByUsername | src/data/appData.ts:179-181 | reads the user table through `UserByName` |
| AppData.Store.FindUserById | src/data/appData.ts:189-192 | reads the user table through `UserById` |
| AppData.Store.RetrieveBookById | src/data/appData.ts:319-322 | reads the catalogue through `BookById` |
| AppData.Store.GetUserTradeProposals | src/data/appData.ts:509-513 | reads the trade table through `TradeProposals` |
| AppData.RegisterUser | src/data/appData.ts:201-215 | one user `usr-{uid}` with the name, the password, balance 500, role `user`, the date, the default avatar and an empty bio is appended; nothing else changes |
| AppData.TopUp | src/data/appData.ts:224-235 | a non-positive amount and an unknown user each fail with no change; otherwise the user's balance grows by the amount |
| AppData.EditProfile | src/data/appData.ts:244-254 | an unknown user fails with no change; otherwise only the first user with the id changes: every field given in the update takes its value, every absent field keeps the old one |
| AppData.RemoveUser | src/data/appData.ts:264-308 | fails, in order, for a missing or non-admin actor, self-deletion, an unknown target; otherwise one user is removed, and the trades kept are exactly the old trades that do not name the target |
| AppData.AddBook | src/data/appData.ts:331-343 | the new book `book-{uid}` goes at the front, owned by the owner, with no reviews or quotes and every other field from the details; nothing else changes |
| AppData.EditBook | src/data/appData.ts:353-385 | an unknown book or an actor who is neither owner nor admin fails with no change; otherwise only that book's entry is replaced, by one with the details' fields, the old id, owner, reviews and quotes, and no price unless for sale |
| AppData.RemoveBook | src/data/appData.ts:395-424 | the same two failures; otherwise one book is removed, and exactly the trades not naming it remain |
| AppData.AddReview | src/data/appData.ts:435-443 | the review is appended to that book only; an unknown book changes nothing |
| AppData.AddQuote | src/data/appData.ts:453-461 | the quote is appended to that book only; an unknown book changes nothing |
| AppData.Purchase | src/data/appData.ts:470-499 | a failure changes nothing; a success keeps the trades and the table sizes |
| AppData.Transfer | src/data/appData.ts:488-489 | the price leaves the buyer's account and reaches the seller's; no id and no other account changes; a purchase from oneself changes no balance |
| AppData.ProposeTrade | src/data/appData.ts:523-558 | missing data fails, then a pending duplicate or mirrored trade fails, both with no change; otherwise exactly one pending trade to the wanted book's owner is appended |
| AppData.SwapOwners | src/data/appData.ts:573-584 | the swap keeps the catalogue's length and every book's id |
| AppData.RespondToTrade | src/data/appData.ts:567-599 | an unknown trade fails with no change; otherwise only that trade's status is set, users are untouched, and only `accepted` touches books |
| AppData.Reassign | src/data/appData.ts:287-291 | exactly the books owned by the target get the new owner |
| AppData.RemoveAt | src/data/appData.ts:294 | the element at the position is taken out and the others keep their order |
| AppData.Store.constructor | src/data/appData.ts:53-73 | the tables start with the default admin, no books and no trades |
| AppData.Store.RegisterNewUser | src/data/appData.ts:201-215 | the tables and the result become those of `RegisterUser` |
| AppData.Store.TopUpUserBalance | src/data/appData.ts:224-235 | the tables and the result become those of `TopUp` |
| AppData.Store.UpdateUserProfile | src/data/appData.ts:244-254 | the in-place replacement of the user gives `EditProfile`: the given fields applied, the others kept |
| AppData.Store.DeleteUser | src/data/appData.ts:264-308 | the checks, the owner-reassigning loop, the removal and the trade filter give `RemoveUser` |
| AppData.Store.ReassignBooks | src/data/appData.ts:287-291 | the in-place loop over the catalogue leaves it equal to `Reassign` of the old catalogue; users and trades are untouched |
| AppData.Store.Evict | src/data/appData.ts:294-302 | the splice leaves the users without the one at the position, and the trade table becomes the filter of the old one; the catalogue is untouched |
| AppData.Store.AddNewBook | src/data/appData.ts:331-343 | the new book at the front gives `AddBook`: id, owner, empty reviews and quotes, the details' fields |
| AppData.Store.UpdateBook | src/data/appData.ts:353-385 | the in-place replacement of the entry gives `EditBook`: the edited book at its position, all else unchanged |
| AppData.Store.DeleteBook | src/data/appData.ts:395-424 | the tables and the result become those of `RemoveBook` |
| AppData.Store.AddReviewToBook | src/data/appData.ts:435-443 | the tables and the result become those of `AddReview` |
| AppData.Store.AddQuoteToBook | src/data/appData.ts:453-461 | the tables and the result become those of `AddQuote` |
| AppData.Store.PurchaseBook | src/data/appData.ts:470-499 | the in-place balance and owner updates give `Purchase` |
| AppData.Store.Settle | src/data/appData.ts:488-492 | the in-place debit, credit and owner change give `Transfer` of the old users and the sold book at its position; trades are untouched |
| AppData.Store.CreateNewTradeProposal | src/data/appData.ts:523-558 | the tables and the result become those of `ProposeTrade` |
| AppData.Store.RespondToTradeProposal | src/data/appData.ts:567-599 | the tables and the result become those of `RespondToTrade` |
| AppData.Store.ExchangeOwners | src/data/appData.ts:573-584 | the in-place exchange of the two books' owners gives `SwapOwners` of the old catalogue; users and trades are untouched |
| AppDataProperties.TopUpAddsAmount | src/data/appData.ts:224-235 | after a top-up the user is found with the old balance plus the amount, and the total grows by the amount |
| AppDataProperties.TopUpOnlyThatUser | src/data/appData.ts:230-232 | every other user is found unchanged |
| AppDataProperties.PurchaseFailures | src/data/appData.ts:470-486 | a purchase fails for missing data exactly when the book or buyer is unknown or the price is absent or 0, then for an unknown seller, then for a balance below the price, and for nothing else |
| AppDataProperties.TransferTotal | src/data/appData.ts:488-489 | moving the price between two accounts keeps the sum of all balances |
| AppDataProperties.PurchaseConservesTotal | src/data/appData.ts:488-490 | the sum of all balances is the same after any purchase |
| AppDataProperties.PurchaseTransfers | src/data/appData.ts:488-493 | the buyer pays the price and the seller receives it (no change when they are the same user); the book goes to the buyer, neither for sale nor for trade |
| AppDataProperties.ProposeTwiceIsDuplicate | src/data/appData.ts:533-541 | repeating a successful proposal is refused as a duplicate |
| AppDataProperties.MirroredProposalIsDuplicate | src/data/appData.ts:533-541 | the mirrored proposal from the recipient is refused as a duplicate |
| AppDataProperties.SwapOwnersAt | src/data/appData.ts:573-584 | the two books exchange owners and lose both flags; a book traded for itself keeps its owner; no other book changes |
| AppDataProperties.AcceptSwapsOwners | src/data/appData.ts:573-587 | accepting a trade of a valid store swaps the owners of its two books and touches no other book |
| AppDataProperties.RespondKeepsPositions | src/data/appData.ts:567-599 | an answer keeps the position of every trade and book id, and the books of every trade |
| AppDataProperties.SwapTwice | src/data/appData.ts:573-584 | exchanging the owners of the same two books twice gives every book its first owner back |
| AppDataProperties.AcceptTwiceRestoresOwners | src/data/appData.ts:573-587 | since the status is not checked, accepting the same trade twice gives every book its first owner back |
| AppDataProperties.RemoveBookEffects | src/data/appData.ts:395-424 | after a deletion the book is gone, every other book stays, and every remaining trade is an old one not naming it |
| AppDataProperties.RemoveUserAlwaysFindsAdmin | src/data/appData.ts:282-285 | the "no admin for the books" failure never happens, because the actor is an admin |
| AppDataProperties.RemoveUserDropsUser | src/data/appData.ts:274-294 | after a deletion the target is gone, every other user stays, and the total drops by the target's balance |
| AppDataProperties.RemoveUserReassignsBooks | src/data/appData.ts:282-291 | the target's books go to the first admin, and every other book is unchanged |
| AppDataProperties.InitialInvariants | src/data/appData.ts:53-73 | the initial tables satisfy `Valid` and `Linked` |
| AppDataProperties.RegisterKeepsInvariants | src/data/appData.ts:201-215 | registration with a fresh id keeps `Valid`, and `Linked` |
| AppDataProperties.TopUpKeepsInvariants | src/data/appData.ts:224-235 | a top-up keeps `Valid` and `Linked` |
| AppDataProperties.EditProfileKeepsInvariants | src/data/appData.ts:244-254 | a profile edit that leaves the id alone keeps `Valid` and `Linked` |
| AppDataProperties.EditProfileApplies | src/data/appData.ts:244-254 | after an edit that keeps the id, the user is found again with the given fields applied and the others kept |
| AppDataProperties.RemoveUserKeepsValid | src/data/appData.ts:264-308 | deleting a user keeps `Valid` |
| AppDataProperties.RemoveUserKeepsLinked | src/data/appData.ts:264-308 | deleting a non-admin user keeps `Linked` |
| AppDataProperties.ReassignKeepsOwners | src/data/appData.ts:287-291 | when every owner but the target stays registered and the books of the target go to a registered user, every owner is registered |
| AppDataProperties.FilterKeepsParties | src/data/appData.ts:299-302 | the trades kept by the filter name only parties other than the target, so they stay registered |
| AppDataProperties.AddBookKeepsInvariants | src/data/appData.ts:331-343 | a book with a fresh id keeps `Valid`, and with a registered owner `Linked` |
| AppDataProperties.EditBookKeepsInvariants | src/data/appData.ts:353-385 | editing a book keeps `Valid` and `Linked` |
| AppDataProperties.EditBookApplies | src/data/appData.ts:353-385 | after an edit the book is found at its old position, holding the edited entry with the old owner |
| AppDataProperties.RemoveBookKeepsInvariants | src/data/appData.ts:395-424 | deleting a book keeps `Valid` and `Linked`, since trades naming it go with it |
| AppDataProperties.AnnotationsKeepInvariants | src/data/appData.ts:435-461 | reviews and quotes keep `Valid` and `Linked` |
| AppDataProperties.PurchaseKeepsValid | src/data/appData.ts:470-499 | a purchase keeps `Valid` |
| AppDataProperties.PurchaseKeepsLinked | src/data/appData.ts:488-493 | a purchase keeps `Linked`: the new owner is the registered buyer |
| AppDataProperties.ProposeKeepsInvariants | src/data/appData.ts:523-558 | a proposal with a fresh id keeps `Valid`, and `Linked` |
| AppDataProperties.AppendTrade | src/data/appData.ts:545-555 | appending a trade with a fresh id and catalogue books keeps `Valid`; with registered parties it keeps `Linked` |
| AppDataProperties.RespondKeepsValid | src/data/appData.ts:567-599 | an answer keeps `Valid` |
| AppDataProperties.StatusUpdateKeepsValid | src/data/appData.ts:587-594 | a new status for one trade, with a catalogue that keeps every id in place, keeps `Valid` |
| AppDataProperties.RespondKeepsLinked | src/data/appData.ts:567-599 | an answer keeps `Linked`: every new owner owned a book before |
| AppDataProperties.SwapOwnersFrom | src/data/appData.ts:576-578 | every owner after a swap owned some book before it |
| TradeAliasing.UpdateBookAsWritten | src/data/appData.ts:374-381 | an edit puts a fresh object with the new fields in the table and leaves the old object as it was |
| TradeAliasing.AcceptAsWritten | src/data/appData.ts:573-584 | accepting changes exactly the two objects the trade holds |
| TradeAliasing.AcceptView | src/data/appData.ts:573-584 | accepting on the objects at two table positions exchanges the owners shown there, takes both flags off, and shows every other book unchanged |
| TradeAliasing.StaleTradeReference | src/data/appData.ts:374-381 | after an edit of the wanted book, accepting leaves both books with the recipient, where the id-based exchange gives the wanted book to the initiator |
| TradeAliasing.AcceptResolved | src/data/appData.ts:139-153 | accepting after the trade's books are relinked by id keeps the table and the objects' addresses, and changes nothing when a book is missing; `ResolvedAcceptMatchesIds` gives its effect |
| TradeAliasing.ResolvedAcceptMatchesIds | src/data/appData.ts:139-153 | once the trade's books are looked up by id in the current table, the exchange is the id-based `SwapOwners` |

## Left out

- Persistence: `loadData`/`saveData`, JSON and `localStorage` in store and provider. The tables and the tournament list are in-memory state; the provider starts from an empty list and the store from the default data.
- The load-time relinking of object references in the store: with tables that refer by id there is nothing to relink; it appears only as the lookup by id in `TradeAliasing.AcceptResolved`.
- Id and date generation (`uuid`, `Date.now()`, `new Date()`): ids and dates are parameters.
- Floating point in the bracket generator: `Math.log2`, `Math.pow` and `Math.ceil` are replaced by integer `CeilLog2`, `Pow2` and `CeilDiv`. The negative power for two participants is modelled by its effect, one losers match.
- Numbers in the store are integers: balances, prices and amounts are `int`.
- Case-insensitive name matching is the folding function `fold`, a parameter of `UserByName`.
- A partial profile update is a record of options: `None` stands for an absent key. A key present with the value `undefined` does not occur.
- React pages, components, hooks and both authentication contexts: the checks the pages make before calling the operations are not part of this model.
- The `console` messages of the load pass and the human-readable result messages: results carry one `Failure` constructor per message.
- RemoveUserKeepsLinked: requires that the target is not an admin. If the target is the first admin, the books are given to the user being deleted. The admin page offers deletion only for non-admin users.
- RegisterKeepsInvariants: requires a fresh `usr-` id. Likewise AddBookKeepsInvariants (a fresh `book-` id) and ProposeKeepsInvariants (a fresh `trade-` id), since generated ids are taken to be unique.
- EditProfileKeepsInvariants: requires the update not to change the id, which the source allows.
- EditProfileApplies: requires the update not to change the id, since the user is looked up again under the old id.
- AppData.SwapOwners: a book missing from the catalogue leaves the catalogue unchanged. In a `Valid` store this cannot happen.

## Findings

| source | as written | input that shows it | evidently intended | confidence | as-written member | corrected member |
|---|---|---|---|---|---|---|
| src/data/appData.ts:374-381 | `updateBook` replaces the book object in the table, but a pending trade still holds the old object, so accepting it changes the owner of an object the catalogue no longer shows | `usr-a` offers `book-1` for `usr-b`'s `book-2`; `usr-b` edits `book-2` and accepts: the catalogue shows both books owned by `usr-b` (until a reload relinks the trade by id) | accepting exchanges the owners of the catalogue's books with the trade's ids | not executed; follows from the object model | TradeAliasing.StaleTradeReference | TradeAliasing.ResolvedAcceptMatchesIds |

The rest of the model swaps the owners by id: `AppData.RespondToTrade`, whose effect
`AppDataProperties.AcceptSwapsOwners` states.

# kfc-userapi: the state that must not go wrong, in Dafny

kfc-userapi owns no database. What it guarantees rests on the order of a few Redis
commands, on a two-phase hold of loyalty points kept by another service, and on an
in-memory hub. This project models those parts and proves what they promise, over every
run and every interleaving where the code allows one.

Two kinds of files go together. A *machine* file holds a state, one step per Redis command,
pipeline, backend call or clock reading, and theorems about every run of any number of callers.
A *code* file holds the Go functions as classes and methods, statement by statement, with
contracts that tie the outcome to the machine. In `MenuService`, `OrderService`,
`PairingService` and `Refresh` a method lets the other callers do anything between two of its
commands (`Interfere`); in `CustomerService` only time passes, since calls for one phone run one
at a time; `Revocation` and `Hub` take one instant, or the lock, per operation. How the calls to
Redis, CRM, kfc-order and kfc-loyalty fare, with an answer, without one, or without effect, is a
parameter of these methods, so that their contracts say in full what follows from it.

| files | subject |
|---|---|
| `MenuCache`, `MenuFreshness`, `MenuService` | the menu cache and its stale-write guard; Get/Set/Invalidate/Broadcast |
| `Checkout`, `CheckoutSafety`, `CheckoutReleases`, `CheckoutRuns` | checkout with a points hold: orders and discounts, releases and paid discounts, the runs that go wrong |
| `OrderService`, `PriceCart` | `place` as written; pricing a cart |
| `PairingStore`, `Pairing`, `PairingRaces`, `PairingService`, `SingleUse` | pairing codes and the per-restaurant index: Redis pipelines, the index, races, the code, single use |
| `Throttle`, `LoginCodes`, `CustomerService` | fixed-window throttles and SMS sign-in codes |
| `Refresh`, `Revocation` | rotating refresh tokens; device tokens and their revocation |
| `Hub`, `Retry` | the SSE hub; the Kafka retry loop and its effect on freshness |
| `Options`, `Replies`, `Units`, `Ids` | an optional value; how a call ends; durations; fresh identifiers |

## What was found

- The comment at `menu_cache_repo.go:100-101` says a racing fetch either sees the mark or is
  deleted. That holds when the mark check and the write are one step (`NothingStaleStays`).
  As written they are two commands, and the marks carry a clock value read before they are
  written: a stale menu can outlive a finished invalidation in exactly three ways
  (`StaleOnlyIf`), and each one happens (`LostRaceHappens`, `MovedBackHappens`,
  `SlowHappens`); the first two are exact where only one of the pairs is split
  (`StaleIffLostRace`, `StaleIffMovedBack`). Staleness is bounded by the one-hour cap in every
  case (`StalenessBounded`).
- The release of a definitely failed checkout meets an order's hold if and only if another call
  that was given the same hold makes an order, before the release (`ReleaseHitsIff`) or after it
  (`ReleasedHoldIff`). Both happen when a retry with the same client key overlaps
  (`OverlapHappens`, `LateOrderHappens`). With a generated key, or if clients retry only after the
  previous attempt has returned, neither does, and then the hold behind a discount is lost if and
  only if it was let expire (`DiscountsArePaid`, `ExpiryHappens`).
- Every attempt prices the cart anew, but a retry is given the hold of the first attempt. After a
  price drop the discount it asks for can exceed the program's share of the new subtotal
  (`PriceDropHappens`), and even the new subtotal, which line 109 of kfc-order's contract forbids
  (`PriceDropSends`). It is within the share if and only if the points still pass the limit at the
  new subtotal, and within the subtotal if and only if they are worth no more
  (`RequestedDiscount`, `DiscountMatchesHold`, `CapCarriesOver`).
- `RedeemPoints` is narrowed to int32 for the hold and not for the discount; the two agree if
  and only if it fits (`DiscountMatchesHold`, `NarrowingHappens`).
- The pairing index lists every live code throughout a run, but for those that a DeleteCode which
  has not returned yet has taken out of the set, if and only if every step fits when it is taken
  (`IndexCompleteIff`): no live code outlasts the expiry that `SetCode` gives the whole set; none
  outside the batch is left when a replacement's pipeline runs; and no DeleteCode gives up between
  its SREM and its DEL while its code is live and nothing else makes up for it. When no DeleteCode is
  between the two, there is no exception (`QuietIndexComplete`).
- The last of these happens when the SREM succeeds and the DEL fails (`pairing_repo.go:123-127`): the
  code stays live and out of the set for good, the next replacement does not find it, and it goes on
  pairing devices next to the new batch (`FailedDeleteStrands`).
- A pairing code is single-use as long as Pair calls for its serial run one at a time (`SingleUse`).
  Any number of calls that look it up before the first of them deletes it can all get tokens
  (`TokensPerCode`, `OverlapsGetTokens`).
- `ReplaceRestaurantCodes` is described as atomic (`pairing_repo.go:35`) but is three commands. It
  leaves exactly its batch if and only if no other code slipped past its DEL (`ReplacesExactlyIff`,
  `SurvivesIff`, `SurvivalHappens`), and a DeleteCode or Pair that began before it may delete a new
  code (`LostIff`, `LossHappens`). If the batch's expiry passes between the check and the second
  clock reading in `CacheCodes`, the codes never expire and have no set (`PairingStore.Batch`).
- A sign-in code lives exactly as long as it was saved for, a miss giving back the time its write
  takes (`CodesLiveExactly`). It survives five wrong compares and is accepted once, and a phone sees
  fifty wrong compares an hour, but for those whose write to Redis failed (`CodeIsSpent`,
  `GuessesAreFew`):
  `VerifyCode` ignores that failure (`customer_service.go:181, 185, 190`), and while Redis takes no
  writes there is no bound (`UncountedGuesses`).
- A revoked device that is paired again stays locked out for a whole token lifetime
  (`RepairedDeviceIsLockedOut`).
- The repository's README speaks of a 24-hour menu TTL and of a single flight of CRM calls; the
  code has a one-hour cap and no single flight. The model follows the code.

## Assumptions

- One non-decreasing clock, shared by Redis and all replicas. A key is absent from the instant
  it expires. Durations are exact: the client library's rounding to whole seconds or
  milliseconds is not modelled.
- SCAN returns every key that is present from before its first call to its last (Redis's own promise).
- A SET whose ttl is not positive is sent without an expiry, and an EXPIRE whose ttl is not positive
  deletes the key, as the Redis client and server do. (A ttl of exactly -1 ns, which the client
  takes to mean "keep", is not modelled.)
- A Redis command takes effect before its call returns, or not at all. The pipelines at
  `pairing_repo.go:71`, `84` and `153` are taken as one step each, although `Pipeline()` sends no
  transaction; `CodesComeWithMeta` and the results on the index rest on that.
- kfc-order and kfc-loyalty are their contracts in `proto/order/v1/order.proto:104-109` and
  `proto/loyalty/v1/loyalty.proto:10-13, 142-150`. What kfc-order does with a discount above the
  subtotal, which its line 109 rules out, is left open: it may store the order or fail. The
  program's point value and percentage do not change during a run. A code outside the four of
  `isAmbiguous` means that this call created no order; a call that has returned takes no effect
  later; while an order exists for a client's key, a create with that key does not fail definitely;
  `ReservePoints` never hands back a released hold; a client's key always comes with the same
  member, restaurant and points, and is never a generated one. They are spelled out in
  `Checkout.Enabled` and `OrderService.KeyFits`.
- Each serial belongs to one restaurant (`Pairing.Proper`). Calls for one phone run one at a time.
  Tokens, order keys and codes are fresh, hashes do not collide, and
  signatures cannot be forged.

## Model

| member | source | states |
|---|---|---|
| MenuFreshness.StaleOnlyIf | internal/repository/menu_cache_repo.go:69-130 | in every interleaving, with no assumption on clocks or durations, a menu fetched no later than a finished invalidation's mark is still cached only if its MGET preceded the mark and its SET followed the clearing of the key, or an older clock reading replaced the mark in between, or the fetch outlived the two-hour mark |
| MenuFreshness.StaleIffLostRace | internal/repository/menu_cache_repo.go:69-91 | with clock reading and mark as one step and fetches shorter than a mark's life, a cached menu is stale if and only if it won the race between MGET and SET |
| MenuFreshness.StaleIffMovedBack | internal/repository/menu_cache_repo.go:71-103 | with MGET and SET as one step and fetches shorter than a mark's life, a cached menu is stale if and only if an older clock reading had replaced the mark before its MGET |
| MenuFreshness.NothingStaleStays | internal/repository/menu_cache_repo.go:100-109 | with both pairs as one step, nothing fetched or read from CRM at or before a finished invalidation's mark is cached |
| MenuFreshness.ServedAfterInvalidation | internal/repository/menu_cache_repo.go:95-130 | one finished invalidation is enough: in every later state, whatever other invalidations fail half-way, a cached menu of a covered restaurant was read after its mark |
| MenuFreshness.GlobalInvalidationComplete | internal/repository/menu_cache_repo.go:111-129 | when the SCAN loop has ended, every menu cached before it is gone, every remaining one was written after the mark, and no mark was deleted |
| MenuFreshness.WrittenAfterClear | internal/repository/menu_cache_repo.go:107-129 | what is cached once an invalidation has finished has been present only since after its DEL, or its scan, was through with the key |
| MenuFreshness.StalenessBounded | internal/repository/menu_cache_repo.go:64-67 | in every run a cached menu was read less than an hour plus its read-to-write delay ago, and is gone by valid_until plus the delay from computing the TTL to the SET; it goes at the first of the two, neither earlier nor later |
| MenuFreshness.RefusedOnlyIfMarked | internal/repository/menu_cache_repo.go:69-86 | in every run the guard refuses a menu only if an invalidation of its restaurant, or of all, has marked a clock value no earlier than its fetch, less than two hours ago |
| MenuFreshness.InvalidatesOnlyItsOwn | internal/repository/menu_cache_repo.go:95-109 | invalidating one restaurant touches no other's mark or menu; its mark carries the call's clock value for two hours |
| MenuFreshness.LostRaceHappens | internal/repository/menu_cache_repo.go:71-89 | for every restaurant there is a run in which MGET before the mark and SET after the DEL leave a stale menu |
| MenuFreshness.MovedBackHappens | internal/repository/menu_cache_repo.go:102-103 | for every restaurant there is a run in which a late write of an early clock value moves the mark back and lets a stale menu in, even with guard and write as one step |
| MenuFreshness.SlowHappens | internal/repository/menu_cache_repo.go:103 | for every restaurant there is a run in which a fetch outlives the mark, even with both pairs as one step |
| MenuCache.InvStep | internal/repository/menu_cache_repo.go:57-130 | every command of every caller keeps the invariant: marks are the latest writes in clock order, a passed guard certifies what it saw, entries carry the right expiry, and a finished invalidation has cleared all it had to |
| MenuService.Set | internal/repository/menu_cache_repo.go:57-93 | whatever Redis answers: the menu is stored exactly when it has time left, every live mark is before its fetch when they are read, and its SET takes effect, with the lesser of its TTL and one hour; an error exactly when a command that was sent failed |
| MenuService.GetEffectiveMenu | internal/service/menu_service.go:48-107 | whatever the others do and Redis and CRM answer: a hit is the asked restaurant's cached menu and changes nothing; else CRM is asked for that restaurant after the call began, and its menu, or its refusal, is the answer; and if what is served predates a finished invalidation, the entry is one of the three exceptions |
| MenuService.Invalidate | internal/repository/menu_cache_repo.go:95-130 | it fails exactly if a Redis command fails; it is recorded for its target with the clock read first, and on success has finished; `total` is 1 for one restaurant, and else at least the number of distinct keys removed |
| MenuService.ClearAll | internal/repository/menu_cache_repo.go:111-129 | the SCAN and DEL loop, of any length and with keys repeated at will, finishes the invalidation exactly if its commands work, and counts at least the keys removed |
| MenuService.Broadcast | internal/consumer/menu_consumer.go:46-57 | the hub gets exactly one announcement per decoded message, none for a garbled one; it goes out after the invalidation of its restaurant was tried, and if that worked it had finished for every covered restaurant |
| MenuService.BroadcastThenRefetch | internal/consumer/menu_consumer.go:20-25 | a refetch that starts after the announcement returns the restaurant's menu if CRM has one, read no earlier than the moment the message was handled, unless it hits one of the three exceptions |
| Retry.HandleInvalidate | internal/consumer/menu_consumer.go:37-43 | the durable handler under the retry loop: it ends as handle does, each attempt an invalidation of the message's restaurant; one success after any number of partial failures leaves the same guarantee as a single success |
| Retry.Handle | pkg/kafka/consumer.go:159-178 | for every handler and cancellation: it stops at the first success, the last attempt or a cancellation, and at nothing else; its result is the last call's |
| Retry.ShapeMeans | pkg/kafka/consumer.go:161-175 | a handling that ends with its k-th call failed in all earlier ones and waited 500 * (2^(k-1) - 1) ms before it |
| Retry.WaitsDouble | pkg/kafka/consumer.go:161-175 | the first wait is 500 ms, and each is twice the one before |
| Retry.Consume | pkg/kafka/consumer.go:97-139 | every message up to the stop is handled once and in order, with the result that handle gives; the committed position is that of the last commit that got through |
| CheckoutSafety.PointsConserved | proto/loyalty/v1/loyalty.proto:10-13 | in every run of the modelled kfc-loyalty, whatever it is sent, what a member has available plus what holds keep is what was granted, and neither is negative |
| CheckoutSafety.OneOrderPerHold | internal/service/order_service.go:290-304 | in every run an order carries a hold exactly when points were redeemed, no two orders share a hold or a key, a hold is committed only for the order under its key, which carries it unless the hold it does carry was released, and CommitHold is never sent for one hold with two orders |
| CheckoutSafety.RequestedDiscount | internal/service/order_service.go:280-304 | in every run, of every CreateOrder request with a hold: the discount equals the hold's points times the point value if and only if RedeemPoints fits in int32; it is then within the share of the subtotal the hold was granted on, and within the share of the request's own subtotal if and only if the points pass the limit there, as they do when the price has not fallen; and it is at most that subtotal if and only if the points are worth no more |
| CheckoutSafety.DiscountMatchesHold | internal/service/order_service.go:280-304 | the same of the discount of every order that kfc-order stores, against its own subtotal |
| CheckoutSafety.CapCarriesOver | internal/service/order_service.go:290-297 | a hold granted on one subtotal is fit for a retry at another, whatever its points, if and only if no fewer points may be redeemed there |
| CheckoutReleases.ReleaseHitsIff | internal/service/order_service.go:230-238 | in every run, when a definitely failed call still has its release to send, an order carries its hold if and only if another call with the same hold has made an order |
| CheckoutReleases.ReleasedHoldIff | internal/service/order_service.go:230-238 | in every run, an order, older or younger, carries a hold that a call released if and only if another call with the same hold has made an order; never with a generated key |
| CheckoutReleases.ReleaseHitsOnlyYoungerOrder | internal/service/order_service.go:230-238 | in every run, an order whose hold a failed call is about to release was created after the failure, by another call with the same client-given key |
| CheckoutReleases.GeneratedKeyIsSafe | internal/service/order_service.go:276-278 | in every run, a failed call with a generated key never releases a hold that an order carries; nothing is assumed of retries |
| CheckoutReleases.WaitingRetriesAreSafe | internal/service/order_service.go:223-250 | in every run in which clients retry only after the previous checkout with the key has returned, no release goes to a hold that an order carries |
| CheckoutReleases.DiscountsArePaid | internal/service/order_service.go:223-250 | in every run in which retries wait, and with a generated key in every run, the hold behind a discount is held, committed for that order, or was let expire; the last if and only if an Expire step took it |
| CheckoutReleases.PaidWithoutExpiry | internal/service/order_service.go:176-182 | likewise, if no hold expires, every discount's hold is held or committed for its order |
| CheckoutReleases.FailedCheckoutRestoresPoints | internal/service/order_service.go:232-236 | a definite failure whose release arrives leaves the hold released and all its points available again |
| CheckoutRuns.OverlapHappens | internal/service/order_service.go:232-236 | a run with an overlapping retry in which a failed call is about to release the hold of a discounted order |
| CheckoutRuns.LateOrderHappens | internal/service/order_service.go:232-236 | a run with an overlapping retry in which the discounted order is created after the release, and the member has all points back |
| CheckoutRuns.PriceDropHappens | internal/service/order_service.go:200-208 | a run without overlap in which a retry after a price drop gets an order with a discount of 500 on a subtotal of 600, of which the program's share is 300 |
| CheckoutRuns.PriceDropSends | proto/order/v1/order.proto:108-111 | a run without overlap in which a retry after a price drop sends a CreateOrder request with a discount of 500 on a subtotal of 400 |
| CheckoutRuns.ExpiryHappens | internal/service/order_service.go:240-250 | a run in which an order's hold expires, and its retry commits a second hold for it |
| CheckoutRuns.NarrowingHappens | internal/service/order_service.go:294-304 | a run in which 2^32 + 5 points are held as 5 and discounted as 2^32 + 5, on a subtotal that covers the discount |
| Checkout.InvStep | internal/service/order_service.go:183-306 | every step of userapi, kfc-order and kfc-loyalty keeps the invariant: holds, orders, calls and requests under one key agree, points are conserved, and an order under a failed call's key is younger than the failure |
| Checkout.DefiniteMeansNone | internal/service/order_service.go:308-315 | at a definite failure no order exists under the call's key |
| OrderService.Place | internal/service/order_service.go:183-260 | with every other checkout running in between and any answer of the two services: a refused request reaches neither and gets its own error; one that passes ends in CreateOrder, unless it asks for points and gets no hold, for which a call failed or kfc-loyalty could grant none; the request carries the priced lines, trimmed note, key, hold, narrowed points and discount, and the call's record is this member's checkout at this price, with the member's own hold; success exactly if the request arrived and was not refused; a release is sent exactly on a definite failure with a hold, a commit for the returned order on success |
| OrderService.ReservePoints | internal/service/order_service.go:264-306 | a hold comes with key, points and discount set on the request and the call's record under that key; without one, the request's loyalty fields are untouched, and each refusal has its reason |
| OrderService.Submit | internal/service/order_service.go:230-250 | release, commit or leave the hold, as the answer says; the checkout stays what it was; with a generated key no order carries the hold when the release goes out |
| OrderService.CreateOrderCall | internal/service/order_service.go:230-231 | success exactly if the request arrived and was not refused; else kfc-order's code, where the assumptions allow it, and the phase that goes with it |
| OrderService.TrimMeans | internal/service/order_service.go:215 | trimming the note takes off all white space at both ends and nothing else |
| OrderService.CheckMeans | internal/service/order_service.go:190-211 | a request goes on exactly when its type, items, note, menu and every line are in order, and then each line is priced; otherwise the first fault in that order is reported |
| PriceCart.PriceCart | internal/service/order_service.go:320-362 | the loops compute the line-by-line specification over the last item with each id |
| PriceCart.IndexById | internal/service/order_service.go:321-326 | the map built by the two loops answers every lookup as "the last menu item with that id" |
| PriceCart.ItemsInOrder | internal/service/order_service.go:321-326 | the items are those of the categories, one after the other |
| PriceCart.PickVariation | internal/service/order_service.go:366-388 | in terms of the item: without variations none for an empty id and a refusal for any other; else the first with the id, and for an empty id the first default or, without any, the first; refused exactly if no variation has the id |
| PriceCart.LastWithIdIsLast | internal/service/order_service.go:321-326 | the specification's item is at a position after which no item has the id |
| PriceCart.PricesEveryLine | internal/service/order_service.go:329-361 | pricing succeeds exactly when every line does, keeping order and length; a refused cart gets its first refused line's answer |
| PriceCart.PricesConcatenation | internal/service/order_service.go:328-361 | pricing two carts joined is joining their pricings |
| PriceCart.LineIsFaithful | internal/service/order_service.go:341-357 | a priced line is the last available item with the id, with its code and name, the quantity asked for, between 1 and 50, and the id, name and rounded price of the variation asked for, or the item's own price |
| PriceCart.LineIsRefused | internal/service/order_service.go:330-352 | a line is refused for the first of: no such item, not available, quantity, no such variation; each with its message |
| PriceCart.SubtotalWithinHalfKopeckPerUnit | internal/service/order_service.go:280-283 | the subtotal differs from the exact price in kopecks by at most half a kopeck per unit |
| PriceCart.KopecksNearest | internal/service/order_service.go:390-392 | kopecks rounds to a nearest integer, halves away from zero |
| Pairing.StepKeepsIndex | internal/repository/pairing_repo.go:60-177 | every command of any overlapping calls, and every failure between two of them, keeps the index complete, but for pipelines that do not fit and DeleteCodes that give up when they may not, which lose it; codes are exempt from a DeleteCode's SREM until it deletes them or gives up |
| Pairing.IndexCompleteIff | internal/repository/pairing_repo.go:60-177 | in every run with any overlapping and any failures, every live code that no DeleteCode is between its SREM and its end with is in its restaurant's set and outlived by it throughout, if and only if every pipeline fits and every DeleteCode that gives up may |
| Pairing.QuietIndexComplete | internal/repository/pairing_repo.go:60-177 | if all steps fit, then whenever no DeleteCode is between its SREM and its end every live code is in its set, without exception |
| Pairing.SetKeepsIndex | internal/repository/pairing_repo.go:71-75 | SetCode's pipeline keeps the index complete if and only if no other live code of the restaurant outlasts the new one, codes that a DeleteCode in flight has taken out of the set apart |
| Pairing.WriteKeepsIndex | internal/repository/pairing_repo.go:152-173 | a batch pipeline keeps it if and only if its ttl is positive and no live code of the restaurant is outside the batch, codes that a DeleteCode in flight has taken out of the set apart |
| Pairing.GiveUpKeepsIndex | internal/repository/pairing_repo.go:123-127 | a DeleteCode that fails before its DEL keeps it if and only if it had not run its SREM, or the serial has no live code, or a code of it has been set again and is indexed, or another DeleteCode in flight has taken it out of the set |
| Pairing.OrderlyRunsComplete | internal/repository/pairing_repo.go:60-177 | if replacements are not overlapped within their restaurant while they last, expiries do not decrease and no DeleteCode strands its code, the index is complete throughout and a replacement leaves exactly its batch, codes that a DeleteCode in flight has taken out of the set apart; replacements may fail anywhere |
| Pairing.BatchTouchesOnlyItsOwn | internal/repository/pairing_repo.go:153-171 | a batch pipeline stores each serial's last entry and leaves every other restaurant's keys untouched |
| PairingRaces.SurvivesIff | internal/repository/pairing_repo.go:130-177 | in every run, a code outside the batch stored before the pipeline is live after it if and only if it was stored after the DEL, or before it with the serial missing from SMEMBERS, it has not expired, and nothing else deleted or replaced it since |
| PairingRaces.LostIff | internal/repository/pairing_repo.go:112-177 | in every run, a code of a batch is lost if and only if it has expired, was stored again, or the DEL of a DeleteCode of it, or of another replacement that had listed it, ran after the pipeline |
| PairingRaces.ReplacesExactlyIff | internal/repository/pairing_repo.go:35-42 | in every run, a replacement leaves exactly its batch as the restaurant's live codes if and only if no other code slipped past its DEL |
| PairingRaces.MissingFromMembers | internal/repository/pairing_repo.go:137-140 | a live serial that SMEMBERS does not list is not indexed |
| PairingRaces.SurvivalHappens | internal/repository/pairing_repo.go:142-173 | for any code and batch, a SetCode between the DEL and the pipeline leaves a listed serial live and out of the index |
| PairingRaces.FailedDeleteStrands | internal/repository/pairing_repo.go:123-127 | for any code and batch, a run in which every step fits but the failure of a DeleteCode after its SREM: its code is not listed by the replacement, survives it, and stays live and out of the index |
| PairingRaces.LossHappens | internal/repository/pairing_repo.go:112-128 | for any batch of one, the DEL of a DeleteCode that began before it deletes its code |
| PairingStore.LastEntryWins | internal/repository/pairing_repo.go:154-161 | the entry a batch stores for a serial is the one after which no entry has that serial |
| PairingStore.SetPipelineDoes | internal/repository/pairing_repo.go:71-75 | SetCode's four commands come to a code, its metadata and its restaurant's set with one expiry |
| PairingStore.BatchPipelineDoes | internal/repository/pairing_repo.go:152-173 | the commands of the batch pipeline, run in order, replace the set and write each serial's last entry, for every ttl |
| PairingStore.DelDoes | internal/repository/pairing_repo.go:142-150 | one DEL of the collected keys removes exactly the listed serials' codes and metadata |
| PairingService.PairingRepo.SetCode | internal/repository/pairing_repo.go:60-81 | an expired code is refused and changes nothing; any other, if the pipeline gets through, is stored with its metadata and its place in the set for what was left of its time at the check, whatever came between, and nothing else is touched |
| PairingService.PairingRepo.DeleteCode | internal/repository/pairing_repo.go:112-128 | with anything running between GET, SREM and DEL and any of them failing: if the DEL takes effect the code and its metadata are gone, and else the call gives up; the SREM is sent exactly if the GET found metadata, and takes the serial out of its restaurant's set |
| PairingService.PairingRepo.ReplaceRestaurantCodes | internal/repository/pairing_repo.go:130-177 | with anything running between SMEMBERS, DEL and the pipeline, any of them failing, and for any ttl: if the pipeline takes effect the restaurant's live codes are the batch and what slipped past the DEL, and every serial has its last entry's code and metadata, and the set, with one expiry reckoned from then; else the call gives up, with the old codes deleted if their DEL took effect |
| PairingService.CodesComeWithMeta | internal/repository/pairing_repo.go:83-110 | GetCode never finds a live code without live metadata, which name the owning restaurant |
| PairingService.CacheCodes | internal/service/pairing_service.go:63-106 | an empty list, a past expiry or an unfilled entry is refused without a change; if Redis answers, the restaurant's live codes are those of the request and what slipped past, each serial with its last entry, until what was left of their time at the second clock reading has passed since the pipeline, or without end if nothing was left |
| PairingService.CacheCode | internal/service/pairing_service.go:108-136 | an unfilled entry or a past expiry is refused without a change; else the code is stored for what is left of its time at the second clock reading, if anything is and the pipeline gets through |
| PairingService.Pair | internal/service/device_auth_service.go:78-157 | with anything running in between and any command failing, the answer in full: a token exactly for the code that was live at the lookup, with the device, type and restaurant of its metadata, and only after this call's DEL; a wrong code changes nothing; a right one is gone if the DEL took effect; the machine's log counts the lookup of every call that found the code, and its end with the token it issued or did not |
| SingleUse.TokensPerCode | internal/service/device_auth_service.go:93-138 | in every run of any pairing calls, tokens, failed issues and calls about to issue exceed the times a code was stored for the serial by at most the lookups that overlapped another |
| SingleUse.SingleUse | internal/service/device_auth_service.go:115-138 | if Pair calls for the serial run one at a time, whatever other calls do, tokens plus failed issues never exceed codes stored |
| SingleUse.OverlapsGetTokens | internal/service/device_auth_service.go:93-121 | for every n there is a run in which n overlapping calls get n tokens for one code |
| Throttle.AtMostTwiceLessOne | internal/repository/customer_auth_repo.go:86-96 | for every sequence of calls and limit of at least 1, any half-open interval of a window's length admits at most 2 * limit - 1 |
| Throttle.AtMostLimitPerWindow | internal/repository/customer_auth_repo.go:86-96 | each window admits at most `limit` calls |
| Throttle.BoundsAreTight | internal/repository/customer_auth_repo.go:86-96 | four calls with limit 2 that reach both bounds |
| LoginCodes.SendsAreRare | internal/service/customer_service.go:123-150 | in every run, however long calls take and whichever fail, requests of one phone are admitted at least 60 s apart and at most 9 in any hour, and each code is saved after an admission of its own |
| LoginCodes.CodesLiveExactly | internal/service/customer_service.go:147-190 | in every run of requests with one lifetime, a code is found until that long after it was saved, put off by what its counted misses took to write back, neither shorter nor longer; every compare read its code before that |
| LoginCodes.CodeIsSpent | internal/service/customer_service.go:170-190 | in every run, but for the compares whose write failed, each saved code survives at most 5 wrong compares, is accepted at most once, and then after fewer than 5 |
| LoginCodes.GuessesAreFew | internal/service/customer_service.go:139-190 | in every run, however long calls take and whichever fail, the wrong compares for a phone in any hour are at most 50 more than those whose write failed |
| LoginCodes.UncountedGuesses | internal/service/customer_service.go:178-189 | for every n there is a run in which one code takes n wrong compares in an hour whose writes all fail |
| CustomerService.AuthStore.Allow | internal/repository/customer_auth_repo.go:86-96 | INCR, EXPIRE NX and TTL come to one more use of the window, admitted within the limit, and the window's remaining time; a failed transaction answers nothing, and is done or not |
| CustomerService.AuthStore.RequestCode | internal/service/customer_service.go:115-162 | with time passing between commands and any of them failing: the first check that fails gives the answer, each throttle that is reached counts one use, no other phone's keys change, and after a success the new code is in place, with no attempts, for its whole lifetime from its SET |
| CustomerService.AuthStore.VerifyCode | internal/service/customer_service.go:164-190 | likewise, the answer in full: a failed lookup changes nothing; the secret of the code that was live when it was read signs in and deletes it; a wrong one costs an attempt and keeps the time left, the fifth deletes it; a write that fails leaves the code as it was |
| Refresh.ExchangedOnce | internal/repository/customer_auth_repo.go:102-111 | in every interleaving of sign-ins, refreshes and logouts each token is exchanged at most once |
| Refresh.OneDescendant | internal/service/customer_service.go:209-252 | in every interleaving, the live tokens descending from a sign-in plus its calls in flight are at most one, and belong to the member who signed in |
| Refresh.LogoutEnds | internal/service/customer_service.go:227-232 | logging out with a sign-in's live token ends it for good: no token or call of it ever exists again |
| Refresh.RefreshToken | internal/service/customer_service.go:209-225 | the answer in full; once the GETDEL has taken effect the presented token is dead, until then nothing has changed; a returned one is new, live, and of the same sign-in and member; the call is over |
| Refresh.NewSession | internal/service/customer_service.go:234-252 | a new token of the call's sign-in exactly if its SET took effect, handed over if that was heard; the call is over either way |
| Refresh.LogoutToken | internal/service/customer_service.go:227-232 | if the DEL takes effect the token is gone, every other is untouched, and a live one's sign-in has ended; else nothing changes; an error exactly if no answer came |
| Revocation.AcceptsIff | internal/transport/http/middleware/device_auth.go:24-57 | in every run an issued token is accepted if and only if it is before its truncated expiry and neither it nor its device was revoked less than a lifetime ago |
| Revocation.RevocationIsForGood | internal/service/device_auth_service.go:163-184 | no token issued for a device by the time it is revoked is accepted at any later time, whatever revocations follow |
| Revocation.RepairedDeviceIsLockedOut | internal/repository/revocation_repo.go:37-43 | a token issued after a revocation is refused until a lifetime after it |
| Revocation.LifeOfToken | pkg/jwt/device.go:45-67 | a token names the device it was issued for, verifies from the moment it is issued, for its lifetime less at most a second, and is reported expired from its lifetime's end |
| Revocation.OthersAreRefused | pkg/jwt/device.go:77-97 | a string that is not signed with the key, or is of another issuer, is never accepted |
| Revocation.DeviceAuth | internal/transport/http/middleware/device_auth.go:17-59 | the decision in full: unavailable exactly if a lookup that is still needed does not answer, allowed exactly when the header holds an accepted token and both lookups answer |
| Revocation.Revoke | internal/service/device_auth_service.go:163-185 | a missing id changes nothing; else the device's key is set for one token lifetime from now exactly if the SET takes effect, and nothing else changes; an error exactly if no answer came |
| Revocation.RevokeOneToken | internal/service/device_auth_service.go:187-207 | the same for one token |
| Sse.StreamIsAccepted | internal/sse/hub.go:139-146 | a client has received, in order and once each, the matching events that did not find 8 pending, the rest of which are in its buffer of at most 8 |
| Sse.NothingLostUnlessFull | internal/sse/hub.go:43-47 | a client that never has 8 pending loses nothing |
| Sse.Hub.StreamOfSubscriber | internal/sse/hub.go:97-137 | for every subscriber of a valid hub, what it was offered is exactly the matching publishes since it subscribed |
| Sse.Hub.Subscribe | internal/sse/hub.go:43-68 | a new open channel with an empty buffer, registered in the one place its key names |
| Sse.Hub.Unsubscribe | internal/sse/hub.go:71-85 | the channel is in no set, closed once, and no inner set is left empty |
| Sse.Hub.Publish | internal/sse/hub.go:97-137 | the subscribers of everything and of the event's restaurant, or all if it names none, are offered the event once and have it in their buffer unless 8 are pending; no other is touched, and no closed channel is sent to |

## Left out

- HTTP and gRPC plumbing, routing, cookies, SSE framing, logging, metrics, configuration and wiring: no property beyond one branch each.
- The `delivered` count of `Publish`: it is only logged.
- Cryptography, JSON and protobuf encoding: codes and tokens stand for their hashes, claims for the signed token, and a menu for its bytes.
- Phone and code normalisation, member-code parsing, masking and views; the kiosk session, the member name and the restaurant check in front of `place`.
- OrderService.Place: the view of the order that is sent back to the client is not modelled, only which order it is.
- PriceCart.SubtotalWithinHalfKopeckPerUnit: prices are exact reals and sums unbounded integers, because binary rounding and int64 overflow are not the point.
- Earning, refunds and the expiry of points in kfc-loyalty: what a member was granted does not change during a run.
- CustomerService.AuthStore.VerifyCode: ends before the member is looked up and the session made, which is `Refresh.NewSession`.
- LoginCodes.GuessesAreFew: overlapping calls for one phone could each compare before either counts; calls are taken one at a time.
- The kiosk lookup throttle and the kiosk session token: the same throttle again.
- Retry.Handle: the doubling wait is unbounded, where a 64-bit duration would overflow after more than thirty failures.
- MenuFreshness.GlobalInvalidationComplete: marks and menus are separate maps, as their key prefixes keep them apart; that SCAN's pattern matches no mark is in that separation.
- Kafka's fetch errors and redelivery after a restart; handlers are idempotent by `MenuFreshness.ServedAfterInvalidation`.

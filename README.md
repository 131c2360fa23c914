# FoodDelivery core services in Dafny

This project models the business core of a modular food-delivery backend written in C#:
- the inventory service that reserves and releases product stock behind a reservation cache;
- the product aggregate's stock rules (create, debit, replenish, the events they raise);
- the order service (lookup, status updates, cancellation, creation, paged history);
- the price calculator (discounts, delivery fees, currency rounding);
- the coupon service with its per-code usage counters;
- the customer wallet service (balances, deposits, withdrawals, transfers, refunds);
- the session manager with its 30-minute idle timeout;
- the input validator and the secure logger's masking helpers;
- the product search and customer report services, which build SQL text from user input;
- the scheduled-task helpers;
- the paged products-view query and its validator;
- the JSON converter that writes `long` values as strings.

Services whose static dictionaries are updated in place are classes whose fields are those
dictionaries: `InventoryService`, `OrderService`, `CouponService`, `CustomerWalletService`,
`SessionManager` and the `Product` aggregate. Their methods state the whole new state against
`old(...)`. The pure helpers are functions, and the properties relating several calls are lemmas.

C# semantics are written out where they matter:
- `int` arithmetic wraps modulo 2^32 (`Numerics.Wrap32`);
- integer division truncates toward zero (`Numerics.TruncDiv`);
- the `(int)` cast of a `decimal` truncates and throws on overflow (`Numerics.DecimalToInt32`);
- `DateTime` is a tick count between 0 and `DateTime.MaxValue.Ticks` (`Clock`);
- a .NET regular expression's `$` also matches before one final newline.

Readings of the clock and generated timestamps are parameters (`now`). A `decimal` is a `real`.

Where the code and the design documents of the system disagree, the model follows the code:
- The design describes an order state machine with terminal states. `UpdateOrderStatusAsync` and
  `CancelOrderAsync` assign any status from any status, so a delivered order can be cancelled
  (`Orders.DeliveredOrderCanBeCancelled`).
- The design treats the reservation cache as derived data that never decides anything.
  `GetTotalReservedStockAsync` answers from the cache when it has an entry, and computes
  `MaxStockThreshold - AvailableStock` from the row otherwise.
- The design reserves through the product's `DebitStock`, which refuses non-positive quantities.
  `ReserveStockAsync` subtracts from the row directly after comparing with the available stock,
  so a negative reservation raises the stock.
- The design floors the cache entry at 0 on release. `ReleaseStockAsync` subtracts without a
  floor, and creates a negative entry for a product that has none.

The `Product` and `Stock` domain classes are not part of this model's source. Their rules follow
the design's data model (`0 <= Available <= MaxStockThreshold` and
`0 <= RestockThreshold <= MaxStockThreshold`, positive quantities) and the domain unit tests in
`tests/modules/Catalogs/Catalogs.UnitTests/Domain/ProductTests.cs`.

## Model

| member | source | states |
|---|---|---|
| Inventory.CacheAfterUpdate | src/Modules/Catalogs/FoodDelivery.Modules.Catalogs/Products/Services/InventoryService.cs:206-217 | an existing entry grows by the delta, an absent one is created holding the delta (negative for a release), and no other entry changes |
| Inventory.StockRoundTrip | src/Modules/Catalogs/FoodDelivery.Modules.Catalogs/Products/Services/InventoryService.cs:84-126 | debiting and then crediting the same quantity restores the row exactly, 32-bit wrap-around included |
| Inventory.CacheRoundTrip | src/Modules/Catalogs/FoodDelivery.Modules.Catalogs/Products/Services/InventoryService.cs:206-217 | a cache update by q then by -q restores the entry, or leaves 0 where there was none |
| Inventory.InventoryService.GetAvailableStock | src/Modules/Catalogs/FoodDelivery.Modules.Catalogs/Products/Services/InventoryService.cs:145-154 | the row's stock, or 0 for an unknown product |
| Inventory.InventoryService.CheckStockAvailability | src/Modules/Catalogs/FoodDelivery.Modules.Catalogs/Products/Services/InventoryService.cs:192-201 | true iff the available stock (0 when unknown) covers the request; an unknown product passes only a request of 0 or less |
| Inventory.InventoryService.GetTotalReservedStock | src/Modules/Catalogs/FoodDelivery.Modules.Catalogs/Products/Services/InventoryService.cs:159-187 | the cached count when present; otherwise MaxStockThreshold - AvailableStock for a known product (the model wraps where the database would raise an overflow error), 0 for an unknown one |
| Inventory.InventoryService.UpdateReservationCache | src/Modules/Catalogs/FoodDelivery.Modules.Catalogs/Products/Services/InventoryService.cs:206-217 | the new cache is CacheAfterUpdate of the old one |
| Inventory.InventoryService.ReserveStock | src/Modules/Catalogs/FoodDelivery.Modules.Catalogs/Products/Services/InventoryService.cs:58-106 | succeeds iff the product exists and its stock covers the quantity (no sign check); success debits the row and bumps the cache, failure changes neither; a non-negative reservation leaves stock >= 0 |
| Inventory.InventoryService.ReleaseStock | src/Modules/Catalogs/FoodDelivery.Modules.Catalogs/Products/Services/InventoryService.cs:111-140 | succeeds iff the product exists; credits the stock with no ceiling check and lowers the cache entry, creating it negative when absent; failure changes nothing |
| Inventory.ReserveThenRelease | src/Modules/Catalogs/FoodDelivery.Modules.Catalogs/Products/Services/InventoryService.cs:84-129 | a successful reservation followed by the release of the same quantity restores the rows and restores the cache entry, or sets it to 0 if absent |
| Inventory.ReservedCountFallback | src/Modules/Catalogs/FoodDelivery.Modules.Catalogs/Products/Services/InventoryService.cs:164-186 | before any reservation a 10/100 row reports 90 reserved; after reserving 5 the cache reports 5 |
| Catalog.CreateStock | tests/modules/Catalogs/Catalogs.UnitTests/Domain/ProductTests.cs:104 | Stock.Create(available, restockThreshold, maxStockThreshold) keeps the three numbers in that order, and accepts exactly the valid stocks |
| Catalog.Debit | tests/modules/Catalogs/Catalogs.UnitTests/Domain/ProductTests.cs:56-83 | a positive debit up to the available stock succeeds and lowers it by exactly that much (10-5=5, 10-10=0); more than available fails with InsufficientStock; validity is kept |
| Catalog.Replenish | tests/modules/Catalogs/Catalogs.UnitTests/Domain/ProductTests.cs:85-96 | a positive replenishment succeeds iff it stays within the maximum (15+10 > 20 fails with MaxStockThresholdReached); validity is kept |
| Catalog.DebitThenReplenish | tests/modules/Catalogs/Catalogs.UnitTests/Domain/ProductTests.cs:56-96 | replenishing what was just debited succeeds and gives back the original stock |
| Catalog.ReplenishThenDebit | tests/modules/Catalogs/Catalogs.UnitTests/Domain/ProductTests.cs:56-96 | debiting what was just replenished succeeds and gives back the original stock |
| Catalog.Product.Init | tests/modules/Catalogs/Catalogs.UnitTests/Domain/ProductTests.cs:17-40 | the product holds the given id and stock, and ProductCreated is its only uncommitted event |
| Catalog.Product.DebitStock | tests/modules/Catalogs/Catalogs.UnitTests/Domain/ProductTests.cs:56-83 | succeeds iff Debit does; success replaces the stock and appends exactly one ProductStockDebited; failure reports the error and changes nothing |
| Catalog.Product.ReplenishStock | tests/modules/Catalogs/Catalogs.UnitTests/Domain/ProductTests.cs:85-96 | succeeds iff Replenish does; success replaces the stock and appends exactly one replenished event; failure reports the error and changes nothing |
| Catalog.Product.ClearEvents | tests/modules/Catalogs/Catalogs.UnitTests/Domain/ProductTests.cs:39 | the uncommitted-event list is emptied |
| Catalog.CreateProduct | tests/modules/Catalogs/Catalogs.UnitTests/Domain/ProductTests.cs:42-54 | a missing id fails with the domain error "id can not be null"; otherwise a fresh valid product with that id |
| Orders.StatusCode | src/Modules/Orders/FoodDelivery.Modules.Orders/Orders/Services/OrderService.cs:12-20 | each status has its enum value in 0..5, Pending 0 and Cancelled 5 |
| Orders.StatusOfCode | src/Modules/Orders/FoodDelivery.Modules.Orders/Orders/Services/OrderService.cs:12-20 | exactly the values 0..5 name a status, and each names the one whose code it is |
| Orders.StatusCodeRoundTrip | src/Modules/Orders/FoodDelivery.Modules.Orders/Orders/Services/OrderService.cs:12-20 | decoding the stored status value gives back the status |
| Orders.NewerFirstIsOrdering | src/Modules/Orders/FoodDelivery.Modules.Orders/Orders/Services/OrderService.cs:189 | OrderByDescending on Created is a total, transitive order |
| Orders.HistorySkip | src/Modules/Orders/FoodDelivery.Modules.Orders/Orders/Services/OrderService.cs:177-184 | the skip is (page-1)*pageSize when that fits in an int, and 0 for any page <= 0 |
| Orders.HistoryPageProperties | src/Modules/Orders/FoodDelivery.Modules.Orders/Orders/Services/OrderService.cs:170-193 | every history page is newest-first, holds at most pageSize orders and only stored orders |
| Orders.HistoryPage | src/Modules/Orders/FoodDelivery.Modules.Orders/Orders/Services/OrderService.cs:170-193 | the definition: the newest-first history, skipped by HistorySkip and cut to pageSize; HistoryPageProperties and ConsecutiveHistoryPages state its properties |
| Orders.NonPositivePageIsFirst | src/Modules/Orders/FoodDelivery.Modules.Orders/Orders/Services/OrderService.cs:180-184 | every page <= 0 returns the same orders as page 1 |
| Orders.ConsecutiveHistoryPages | src/Modules/Orders/FoodDelivery.Modules.Orders/Orders/Services/OrderService.cs:177-191 | pages p and p+1 together are the double-size page at p's offset, for the model's fixed order among orders created at the same instant |
| Orders.FindOrder | src/Modules/Orders/FoodDelivery.Modules.Orders/Orders/Services/OrderService.cs:116-117 | finds an order iff one has that id, and what it finds has that id |
| Orders.OrderService.GetOrderById | src/Modules/Orders/FoodDelivery.Modules.Orders/Orders/Services/OrderService.cs:60-67 | an order with the id when one exists, null otherwise |
| Orders.OrderService.UpdateOrderStatus | src/Modules/Orders/FoodDelivery.Modules.Orders/Orders/Services/OrderService.cs:111-138 | false with no change for a missing order; otherwise the order with that id gets exactly the new status from any status, and nothing else changes |
| Orders.OrderService.CancelOrder | src/Modules/Orders/FoodDelivery.Modules.Orders/Orders/Services/OrderService.cs:76-101 | false for a missing order; otherwise its status becomes Cancelled whatever it was (Delivered or Cancelled included) and nothing else changes |
| Orders.OrderService.CreateOrder | src/Modules/Orders/FoodDelivery.Modules.Orders/Orders/Services/OrderService.cs:143-165 | appends exactly one Pending order and returns it; the active-operations counter ends where it started |
| Orders.OrderService.GetOrderHistory | src/Modules/Orders/FoodDelivery.Modules.Orders/Orders/Services/OrderService.cs:170-193 | the history page, newest first, at most pageSize long, drawn from the stored orders, whatever the customer id |
| Orders.DeliveredOrderCanBeCancelled | src/Modules/Orders/FoodDelivery.Modules.Orders/Orders/Services/OrderService.cs:98-133 | a Delivered order is Cancelled after CancelOrder: no transition guard |
| Pricing.ApplyDiscount | src/Modules/Orders/FoodDelivery.Modules.Orders/Orders/Services/PriceCalculator.cs:69-80 | the total less discountPercent percent of it: 0% keeps it, 100% gives 0, 0..100% stays within [0, total], above 100% a positive total goes negative |
| Pricing.DiscountsCompose | src/Modules/Orders/FoodDelivery.Modules.Orders/Orders/Services/PriceCalculator.cs:72-73 | two discounts in a row equal one discount of a + b - ab/100 percent |
| Pricing.DiscountAntitone | src/Modules/Orders/FoodDelivery.Modules.Orders/Orders/Services/PriceCalculator.cs:72-73 | a larger discount never leaves a larger non-negative total |
| Pricing.ExtraKilometres | src/Modules/Orders/FoodDelivery.Modules.Orders/Orders/Services/PriceCalculator.cs:100 | the (int) cast of distance - 5 truncates to whole kilometres, or overflows |
| Pricing.CalculateDeliveryFee | src/Modules/Orders/FoodDelivery.Modules.Orders/Orders/Services/PriceCalculator.cs:89-104 | baseRate up to 5 km; beyond, an overflow error exactly when the cast does not fit, else baseRate + 2000 per whole extra km while that fits |
| Pricing.TruncMonotone | src/Modules/Orders/FoodDelivery.Modules.Orders/Orders/Services/PriceCalculator.cs:100 | the (int) truncation keeps order |
| Pricing.DeliveryFeeMonotone | src/Modules/Orders/FoodDelivery.Modules.Orders/Orders/Services/PriceCalculator.cs:95-103 | below the wrap point a longer distance never costs less |
| Pricing.DeliveryFeeWrapsNegative | src/Modules/Orders/FoodDelivery.Modules.Orders/Orders/Services/PriceCalculator.cs:101 | at 1073747 km with base 0 the fee is -2147483296: the int product wraps |
| Pricing.DeliveryFeeExact | src/Modules/Orders/FoodDelivery.Modules.Orders/Orders/Services/PriceCalculator.cs:91-93 | the fee as documented: baseRate, plus 2000 per whole km beyond 5 |
| Pricing.DeliveryFeeExactMonotone | src/Modules/Orders/FoodDelivery.Modules.Orders/Orders/Services/PriceCalculator.cs:91-93 | the corrected fee never decreases with distance nor falls below the base rate |
| Pricing.DeliveryFeeAgrees | src/Modules/Orders/FoodDelivery.Modules.Orders/Orders/Services/PriceCalculator.cs:95-103 | below the wrap point the source equals the corrected fee |
| Pricing.RoundToNearestCurrency | src/Modules/Orders/FoodDelivery.Modules.Orders/Orders/Services/PriceCalculator.cs:145-154 | an overflow error exactly when amount/100 truncated leaves the int range; otherwise an int |
| Pricing.RoundDownBelowLimit | src/Modules/Orders/FoodDelivery.Modules.Orders/Orders/Services/PriceCalculator.cs:149 | for 0 <= amount < 2147483700 the result is a multiple of 100 with result <= amount < result + 100 |
| Pricing.RoundWrapsAtLimit | src/Modules/Orders/FoodDelivery.Modules.Orders/Orders/Services/PriceCalculator.cs:149 | 2147483700 rounds to -2147483596 |
| Pricing.RoundDownToHundred | src/Modules/Orders/FoodDelivery.Modules.Orders/Orders/Services/PriceCalculator.cs:147-149 | a multiple of 100, truncated toward zero: within 100 below a non-negative amount and within 100 above a negative one |
| Pricing.RoundAgrees | src/Modules/Orders/FoodDelivery.Modules.Orders/Orders/Services/PriceCalculator.cs:149 | within the int range the source equals the corrected rounding |
| Coupons.FindCoupon | src/Modules/Orders/FoodDelivery.Modules.Orders/Orders/Services/CouponService.cs:65-66 | none iff no code matches ignoring case; otherwise a listed coupon whose code matches |
| Coupons.ApplyOutcome | src/Modules/Orders/FoodDelivery.Modules.Orders/Orders/Services/CouponService.cs:60-111 | NotFound, Inactive or UsageLimitReached in that order of checks; otherwise the total less the coupon's percentage |
| Coupons.UsageAfter | src/Modules/Orders/FoodDelivery.Modules.Orders/Orders/Services/CouponService.cs:81-93 | unknown or inactive codes change no counter; otherwise the exact spelling's counter is seeded with 0 and grows by 1 below the limit; no other counter changes |
| Coupons.ApplyKeepsLimits | src/Modules/Orders/FoodDelivery.Modules.Orders/Orders/Services/CouponService.cs:86-93 | after any application every counter is still between 0 and its coupon's MaxUsage |
| Coupons.IsApplicable | src/Modules/Orders/FoodDelivery.Modules.Orders/Orders/Services/CouponService.cs:164-182 | validation is true exactly when an application would succeed, for every total |
| Coupons.StackingKeepsLimits | src/Modules/Orders/FoodDelivery.Modules.Orders/Orders/Services/CouponService.cs:139-151 | stacking any list of codes keeps every counter within its limit |
| Coupons.StackingBounded | src/Modules/Orders/FoodDelivery.Modules.Orders/Orders/Services/CouponService.cs:137-158 | with coupons of at most 100% off, stacking keeps a non-negative total between 0 and the original |
| Coupons.ExtremeCouponGoesNegative | src/Modules/Orders/FoodDelivery.Modules.Orders/Orders/Services/CouponService.cs:96-97 | EXTREME150 turns a positive total t into -t/2 |
| Coupons.SpellingsCountedApart | src/Modules/Orders/FoodDelivery.Modules.Orders/Orders/Services/CouponService.cs:65-93 | "save10" finds SAVE10 but counts on its own counter; SAVE10's counter is untouched |
| Coupons.CouponService.constructor | src/Modules/Orders/FoodDelivery.Modules.Orders/Orders/Services/CouponService.cs:34-45 | the six sample coupons and no counters |
| Coupons.CouponService.ApplyCoupon | src/Modules/Orders/FoodDelivery.Modules.Orders/Orders/Services/CouponService.cs:60-111 | returns ApplyOutcome and leaves the counters as UsageAfter says; counters stay within limits |
| Coupons.CouponService.ApplyMultipleCoupons | src/Modules/Orders/FoodDelivery.Modules.Orders/Orders/Services/CouponService.cs:122-159 | the codes in order against the running total, failures skipped; an empty list returns the total |
| Coupons.CouponService.ValidateCoupon | src/Modules/Orders/FoodDelivery.Modules.Orders/Orders/Services/CouponService.cs:164-182 | true exactly when applying the code now would succeed; reads the counters only |
| Coupons.StackingExample | src/Modules/Orders/FoodDelivery.Modules.Orders/Orders/Services/CouponService.cs:137-151 | on fresh counters SAVE10 twice takes 19% off any total, and MEGA100 after those two leaves 0 |
| Coupons.FindFirstMatch | src/Modules/Orders/FoodDelivery.Modules.Orders/Orders/Services/CouponService.cs:65-66 | the lookup returns the first listed coupon whose code matches ignoring case |
| Coupons.MegaClears | src/Modules/Orders/FoodDelivery.Modules.Orders/Orders/Services/CouponService.cs:96-97 | MEGA100, used fewer than five times under that spelling, turns any total into 0 |
| Coupons.MegaAfter | src/Modules/Orders/FoodDelivery.Modules.Orders/Orders/Services/CouponService.cs:137-151 | MEGA100 stacked after codes that left it below its limit ends the stack at 0 |
| Coupons.TotalAfterOneMore | src/Modules/Orders/FoodDelivery.Modules.Orders/Orders/Services/CouponService.cs:137-151 | stacking one more code applies it to the running total with the counters left by the codes before it |
| Wallet.TotalUpdate | src/Modules/Customers/FoodDelivery.Modules.Customers/Customers/Services/CustomerWalletService.cs:167-171 | changing one balance changes the sum of balances by the same amount |
| Wallet.CalculateRefund | src/Modules/Customers/FoodDelivery.Modules.Customers/Customers/Services/CustomerWalletService.cs:191-216 | 0 when totalDays <= 0; otherwise the amount times the int quotient (totalDays - daysUsed)/totalDays |
| Wallet.RefundAllOrNothing | src/Modules/Customers/FoodDelivery.Modules.Customers/Customers/Services/CustomerWalletService.cs:204-208 | within the period the refund is the full amount on day 0 and nothing on any later day |
| Wallet.RefundTruncatesToZero | src/Modules/Customers/FoodDelivery.Modules.Customers/Customers/Services/CustomerWalletService.cs:205 | 300000 with 10 of 30 days used refunds 0 rather than 200000 |
| Wallet.ProratedRefund | src/Modules/Customers/FoodDelivery.Modules.Customers/Customers/Services/CustomerWalletService.cs:203-208 | the unused fraction of the amount, exactly; 0 when totalDays <= 0 |
| Wallet.ProratedRefundBounds | src/Modules/Customers/FoodDelivery.Modules.Customers/Customers/Services/CustomerWalletService.cs:203-208 | the corrected refund lies between 0 and the amount, falls as days are used, is everything on day 0 and nothing at the end |
| Wallet.RefundAgreesAtEnds | src/Modules/Customers/FoodDelivery.Modules.Customers/Customers/Services/CustomerWalletService.cs:204-208 | the source equals the corrected refund on day 0 and on the last day |
| Wallet.CustomerWalletService.constructor | src/Modules/Customers/FoodDelivery.Modules.Customers/Customers/Services/CustomerWalletService.cs:35-40 | the three seeded balances 1000000, 500000 and 2500000 |
| Wallet.CustomerWalletService.GetBalance | src/Modules/Customers/FoodDelivery.Modules.Customers/Customers/Services/CustomerWalletService.cs:50-61 | the balance, or 0 without a wallet |
| Wallet.CustomerWalletService.Deposit | src/Modules/Customers/FoodDelivery.Modules.Customers/Customers/Services/CustomerWalletService.cs:66-86 | false with no change without a wallet; otherwise the balance rises by the amount, whatever its sign, and so does the sum |
| Wallet.CustomerWalletService.Withdraw | src/Modules/Customers/FoodDelivery.Modules.Customers/Customers/Services/CustomerWalletService.cs:96-126 | false with no change without a wallet or with too small a balance; otherwise the balance drops by the amount and stays >= 0 |
| Wallet.CustomerWalletService.Transfer | src/Modules/Customers/FoodDelivery.Modules.Customers/Customers/Services/CustomerWalletService.cs:137-180 | false with no change if a wallet is missing or the source is short; otherwise debit and credit by the amount; the sum of balances is preserved, and from = to changes nothing |
| Sessions.ExpiryBoundary | src/Modules/Identity/FoodDelivery.Modules.Identity/Identity/Services/SessionManager.cs:131-133 | 30 minutes of idling exactly is still valid; one tick more is expired |
| Sessions.IsExpired | src/Modules/Identity/FoodDelivery.Modules.Identity/Identity/Services/SessionManager.cs:131-133 | the definition: more than 30 minutes of ticks since the last access; ExpiryBoundary pins the boundary |
| Sessions.SessionId | src/Modules/Identity/FoodDelivery.Modules.Identity/Identity/Services/SessionManager.cs:60-61 | ids start with "sess_" |
| Sessions.SessionIdInjective | src/Modules/Identity/FoodDelivery.Modules.Identity/Identity/Services/SessionManager.cs:60-61 | distinct users or distinct creation ticks give distinct ids |
| Sessions.SessionManager.CreateSession | src/Modules/Identity/FoodDelivery.Modules.Identity/Identity/Services/SessionManager.cs:54-80 | returns sess_{userId}_{ticks} and records the session and its last access in both tables |
| Sessions.SessionManager.ValidateSession | src/Modules/Identity/FoodDelivery.Modules.Identity/Identity/Services/SessionManager.cs:113-149 | true iff the id is non-empty, known and idle for at most 30 minutes; an expired session is removed from both tables; otherwise nothing changes |
| Sessions.SessionManager.GetSession | src/Modules/Identity/FoodDelivery.Modules.Identity/Identity/Services/SessionManager.cs:85-104 | null for an invalid session; otherwise the session with its last access set to now, in both tables |
| Sessions.SessionManager.Logout | src/Modules/Identity/FoodDelivery.Modules.Identity/Identity/Services/SessionManager.cs:156-177 | removes only that id from both tables; an empty id is a no-op |
| Sessions.SessionManager.ExtendSession | src/Modules/Identity/FoodDelivery.Modules.Identity/Identity/Services/SessionManager.cs:182-195 | a known id's last access becomes now, expired or not; an unknown id changes nothing |
| Sessions.SessionLifecycle | src/Modules/Identity/FoodDelivery.Modules.Identity/Identity/Services/SessionManager.cs:113-149 | a new session is live after 30 minutes and gone one tick later |
| Validation.EmailShapeCheckCorrect | src/BuildingBlocks/BuildingBlocks.Core/Validation/InputValidator.cs:12-14 | the scanning check decides exactly the e-mail shape of the pattern (local part, '@', domain with a '.' inside) |
| Validation.IsValidEmail | src/BuildingBlocks/BuildingBlocks.Core/Validation/InputValidator.cs:12-38 | true iff the input has the e-mail shape, or has it followed by one final newline |
| Validation.EmailWithNewlineAccepted | src/BuildingBlocks/BuildingBlocks.Core/Validation/InputValidator.cs:13-37 | "a@b.c\n" is accepted as written and refused by the corrected check |
| Validation.IsValidEmailStrict | src/BuildingBlocks/BuildingBlocks.Core/Validation/InputValidator.cs:12-38 | true iff the whole input has the e-mail shape; such input is neither blank nor holds white space |
| Validation.NormalizeSeparators | src/BuildingBlocks/BuildingBlocks.Core/Validation/InputValidator.cs:73 | every '/' becomes '\' and nothing else changes |
| Validation.IsValidFilePath | src/BuildingBlocks/BuildingBlocks.Core/Validation/InputValidator.cs:67-81 | true iff the path is not blank, has no "..", and its normalised form starts with the base path ignoring case |
| Validation.NormalizeKeepsDots | src/BuildingBlocks/BuildingBlocks.Core/Validation/InputValidator.cs:73-76 | normalising separators neither creates nor removes a ".." |
| Validation.IsSafeSqlInput | src/BuildingBlocks/BuildingBlocks.Core/Validation/InputValidator.cs:89-104 | the empty input is safe; otherwise unsafe iff its invariant upper case contains one of the eight patterns |
| Validation.ContainsAny | src/BuildingBlocks/BuildingBlocks.Core/Validation/InputValidator.cs:97-101 | true iff some pattern occurs |
| Validation.LowerCaseDropDetected | src/BuildingBlocks/BuildingBlocks.Core/Validation/InputValidator.cs:94 | "x; drop table users" is refused |
| Validation.SanitizeSqlInput | src/BuildingBlocks/BuildingBlocks.Core/Validation/InputValidator.cs:112-126 | empty stays empty; the output has exactly twice the input's quotes and is obtained from the quote-doubled input by deletions |
| Validation.SanitizerLeavesComment | src/BuildingBlocks/BuildingBlocks.Core/Validation/InputValidator.cs:121-123 | "-/*-" sanitises to "--" as written, and to "" when stripped to a fixpoint |
| Validation.StripComments | src/BuildingBlocks/BuildingBlocks.Core/Validation/InputValidator.cs:120-123 | no "--", "/*" or "*/" is left; only '-', '/' and '*' are deleted |
| Validation.SanitizeSqlInputCorrected | src/BuildingBlocks/BuildingBlocks.Core/Validation/InputValidator.cs:117-123 | quotes doubled and no comment marker left at all |
| Validation.IsAlphanumeric | src/BuildingBlocks/BuildingBlocks.Core/Validation/InputValidator.cs:131-137 | false for empty input; true iff every character is an ASCII letter or digit, or all but one final newline are |
| Validation.AlphanumericWithNewlineAccepted | src/BuildingBlocks/BuildingBlocks.Core/Validation/InputValidator.cs:136 | "abc\n" is accepted as written and refused by the corrected check |
| Validation.IsAlphanumericStrict | src/BuildingBlocks/BuildingBlocks.Core/Validation/InputValidator.cs:131-137 | true iff the input is non-empty and made only of ASCII letters and digits |
| Validation.IsValidPassword | src/BuildingBlocks/BuildingBlocks.Core/Validation/InputValidator.cs:144-158 | true iff at least eight characters long with at least one digit |
| Masking.MaskCreditCard | src/BuildingBlocks/BuildingBlocks.Core/Logging/SecureLogger.cs:101-112 | under 4 characters unchanged; otherwise the same length, the same last four characters, '*' everywhere else |
| Masking.MaskCreditCardIdempotent | src/BuildingBlocks/BuildingBlocks.Core/Logging/SecureLogger.cs:101-112 | masking a masked number changes nothing |
| Masking.MaskCreditCardHidesPrefix | src/BuildingBlocks/BuildingBlocks.Core/Logging/SecureLogger.cs:108-111 | two numbers of equal length and equal last four mask alike: nothing else leaks |
| Masking.EmailName | src/BuildingBlocks/BuildingBlocks.Core/Logging/SecureLogger.cs:126-127 | the text before the first '@' |
| Masking.EmailDomain | src/BuildingBlocks/BuildingBlocks.Core/Logging/SecureLogger.cs:126-128 | the text between the first '@' and the next one or the end |
| Masking.MaskName | src/BuildingBlocks/BuildingBlocks.Core/Logging/SecureLogger.cs:130-133 | first character, "***", last character for names longer than 2; else "***" |
| Masking.MaskEmail | src/BuildingBlocks/BuildingBlocks.Core/Logging/SecureLogger.cs:119-136 | without '@' unchanged; otherwise masked name, '@', domain, and the result holds exactly one '@' |
| Masking.MaskEmailRevealsLittle | src/BuildingBlocks/BuildingBlocks.Core/Logging/SecureLogger.cs:130-133 | the masked name is 3 or 5 long and shows at most the name's first and last characters |
| Masking.MaskSensitiveData | src/BuildingBlocks/BuildingBlocks.Core/Logging/SecureLogger.cs:141-155 | length kept; up to 4 characters all '*'; otherwise all but the last four are '*' |
| Masking.SensitiveMatchesCard | src/BuildingBlocks/BuildingBlocks.Core/Logging/SecureLogger.cs:141-155 | beyond 4 characters the two masks agree; at exactly 4 the card mask shows all and the other hides all |
| SearchText.SanitizeIsClean | src/Modules/Catalogs/FoodDelivery.Modules.Catalogs/Products/Services/ProductSearchService.cs:119-129 | the sanitised term holds no quote, no ';' and no "--"; CustomerReportService.cs:150-160 repeats the same Replace chain for customer search terms |
| SearchText.SanitizeIsSubsequence | src/Modules/Catalogs/FoodDelivery.Modules.Catalogs/Products/Services/ProductSearchService.cs:125-128 | the sanitiser only deletes characters |
| SearchText.SanitizeIdempotent | src/Modules/Catalogs/FoodDelivery.Modules.Catalogs/Products/Services/ProductSearchService.cs:125-128 | sanitising twice is sanitising once |
| SearchText.WhitelistedColumnIsLetters | src/Modules/Catalogs/FoodDelivery.Modules.Catalogs/Products/Services/ProductSearchService.cs:98-104 | a column accepted by a letters-only whitelist is letters only |
| SearchText.WhitelistIgnoresCase | src/Modules/Customers/FoodDelivery.Modules.Customers/Customers/Services/CustomerReportService.cs:36-39 | a column passes iff its upper-cased form passes |
| SearchText.Sanitize | src/Modules/Catalogs/FoodDelivery.Modules.Catalogs/Products/Services/ProductSearchService.cs:119-129 | the definition: empty stays empty, otherwise quotes, then semicolons, then "--" pairs are removed; SanitizeIsClean, SanitizeIsSubsequence and SanitizeIdempotent state what it guarantees |
| ProductSearch.SearchProducts | src/Modules/Catalogs/FoodDelivery.Modules.Catalogs/Products/Services/ProductSearchService.cs:39-61 | no query iff the keyword is blank; otherwise the sanitised keyword matched against Name and Description |
| ProductSearch.QuotesOnlyKeywordMatchesAll | src/Modules/Catalogs/FoodDelivery.Modules.Catalogs/Products/Services/ProductSearchService.cs:43-54 | a keyword of quotes only is not blank yet sanitises to the empty pattern |
| ProductSearch.AdvancedSearch | src/Modules/Catalogs/FoodDelivery.Modules.Catalogs/Products/Services/ProductSearchService.cs:92-114 | a query iff the column is one of Name, Description, CategoryId, BrandId ignoring case; column and value go in unchanged |
| ProductSearch.AdvancedSearchExamples | src/Modules/Catalogs/FoodDelivery.Modules.Catalogs/Products/Services/ProductSearchService.cs:98-104 | "brandid" is accepted; "Price" and a column with spaces are refused |
| CustomerReports.GetCustomersWithFilter | src/Modules/Customers/FoodDelivery.Modules.Customers/Customers/Services/CustomerReportService.cs:57-83 | a query iff the column is one of Email, FirstName, LastName, Nationality, Status ignoring case; column and value go in unchanged |
| CustomerReports.SearchCustomers | src/Modules/Customers/FoodDelivery.Modules.Customers/Customers/Services/CustomerReportService.cs:91-114 | no query iff the term is blank; otherwise the sanitised term matched against Email, FirstName and LastName |
| CustomerReports.FilterValueNotSanitized | src/Modules/Customers/FoodDelivery.Modules.Customers/Customers/Services/CustomerReportService.cs:77 | an accepted filter carries the value's quotes into the query untouched |
| CustomerReports.GetCustomerStatistics | src/Modules/Customers/FoodDelivery.Modules.Customers/Customers/Services/CustomerReportService.cs:119-145 | the fixed sample 1000/850/45/250000 for every region, and it is consistent |
| Scheduling.ShouldRunNowCases | src/BuildingBlocks/BuildingBlocks.Core/BackgroundServices/ScheduledTaskService.cs:46-60 | false when disabled, true when enabled without a next run, otherwise due iff now >= NextRun |
| Scheduling.ShouldRunNowStaysTrue | src/BuildingBlocks/BuildingBlocks.Core/BackgroundServices/ScheduledTaskService.cs:58-59 | once due, a task stays due as time goes on |
| Scheduling.ShouldRunNow | src/BuildingBlocks/BuildingBlocks.Core/BackgroundServices/ScheduledTaskService.cs:46-60 | the definition: enabled, and either no next run is set or now has reached it; its three cases are proved in ShouldRunNowCases |
| Scheduling.DailyTaskMinuteOfDay | src/BuildingBlocks/BuildingBlocks.Core/BackgroundServices/ScheduledTaskService.cs:69-81 | fires iff the minute of the day is the target hour*60+minute; a target outside 00:00..23:59 never fires |
| Scheduling.DailyTaskFiresInOneMinute | src/BuildingBlocks/BuildingBlocks.Core/BackgroundServices/ScheduledTaskService.cs:73-74 | on one day the check fires within a single minute: no tolerance |
| Scheduling.ShouldRunDailyTask | src/BuildingBlocks/BuildingBlocks.Core/BackgroundServices/ScheduledTaskService.cs:69-81 | the definition: the hour and the minute of now equal the targets, with no tolerance; DailyTaskMinuteOfDay restates it on the minute of the day |
| Scheduling.MaintenanceWindowMinutes | src/BuildingBlocks/BuildingBlocks.Core/BackgroundServices/ScheduledTaskService.cs:87-93 | in the window iff the minute of the day is in 120..239 |
| Scheduling.IsInMaintenanceWindow | src/BuildingBlocks/BuildingBlocks.Core/BackgroundServices/ScheduledTaskService.cs:87-93 | the definition: the hour of now is at least 2 and below 4; MaintenanceWindowMinutes gives it as minutes 120..239 |
| Scheduling.PromotionWithMidnightBounds | src/BuildingBlocks/BuildingBlocks.Core/BackgroundServices/ScheduledTaskService.cs:102-114 | with midnight bounds, active iff start <= now < end |
| Scheduling.PromotionEndExclusive | src/BuildingBlocks/BuildingBlocks.Core/BackgroundServices/ScheduledTaskService.cs:107 | a promotion ending today is not active |
| Scheduling.PromotionStartAfterMidnight | src/BuildingBlocks/BuildingBlocks.Core/BackgroundServices/ScheduledTaskService.cs:104-107 | a start later than midnight takes effect only the next day |
| Scheduling.IsPromotionActive | src/BuildingBlocks/BuildingBlocks.Core/BackgroundServices/ScheduledTaskService.cs:102-114 | the definition: today's midnight is at or after the start and before the end; the three Promotion lemmas give its consequences |
| Scheduling.GetNextRunTime | src/BuildingBlocks/BuildingBlocks.Core/BackgroundServices/ScheduledTaskService.cs:119-129 | LastRun + Interval, or the out-of-range error when that leaves the DateTime range |
| Scheduling.NextRunDueAfterInterval | src/BuildingBlocks/BuildingBlocks.Core/BackgroundServices/ScheduledTaskService.cs:46-60 | a task whose next run comes from GetNextRunTime is due exactly one interval after its last run |
| ProductsView.DefaultQuery | src/Modules/Catalogs/FoodDelivery.Modules.Catalogs/Products/Features/GettingProductsView/GetProductsView.cs:13-14 | Page 1 and PageSize 20, which the validator accepts |
| ProductsView.Validate | src/Modules/Catalogs/FoodDelivery.Modules.Catalogs/Products/Features/GettingProductsView/GetProductsView.cs:17-29 | no error iff Page >= 1 and PageSize >= 1; at most one message, since validation stops at the first failing rule: the Page message iff Page < 1, the PageSize message iff Page is valid and PageSize < 1 |
| ProductsView.ByNameIsOrdering | src/Modules/Catalogs/FoodDelivery.Modules.Catalogs/Products/Features/GettingProductsView/GetProductsView.cs:52 | ordering by ProductName is total and transitive |
| ProductsView.LexAntisymmetric | src/Modules/Catalogs/FoodDelivery.Modules.Catalogs/Products/Features/GettingProductsView/GetProductsView.cs:52 | two names each ordered before the other are equal |
| ProductsView.PageOffset | src/Modules/Catalogs/FoodDelivery.Modules.Catalogs/Products/Features/GettingProductsView/GetProductsView.cs:53 | (Page - 1) * PageSize whenever that fits in an int |
| ProductsView.ToDto | src/Modules/Catalogs/FoodDelivery.Modules.Catalogs/Products/Features/GettingProductsView/GetProductsView.cs:57-61 | each DTO copies id, product, category and supplier names from its row |
| ProductsView.MapToDtos | src/Modules/Catalogs/FoodDelivery.Modules.Catalogs/Products/Features/GettingProductsView/GetProductsView.cs:57-61 | one DTO per row, in the same order |
| ProductsView.HandleProperties | src/Modules/Catalogs/FoodDelivery.Modules.Catalogs/Products/Features/GettingProductsView/GetProductsView.cs:51-61 | the response is in name order and at most PageSize long; its rows are drawn from the view, and each DTO copies the page row at its position |
| ProductsView.PageRows | src/Modules/Catalogs/FoodDelivery.Modules.Catalogs/Products/Features/GettingProductsView/GetProductsView.cs:51-55 | the definition: the view in name order, skipped by PageOffset and cut to PageSize; ValidPageIsSlice gives it as a slice |
| ProductsView.Handle | src/Modules/Catalogs/FoodDelivery.Modules.Catalogs/Products/Features/GettingProductsView/GetProductsView.cs:51-61 | the definition: the page's rows mapped to DTOs; HandleProperties states order, length and provenance |
| ProductsView.ValidPageIsSlice | src/Modules/Catalogs/FoodDelivery.Modules.Catalogs/Products/Features/GettingProductsView/GetProductsView.cs:51-55 | for a valid query the page is the slice of the sorted view starting at (Page - 1) * PageSize |
| ProductsView.FirstPagesCoverPrefix | src/Modules/Catalogs/FoodDelivery.Modules.Catalogs/Products/Features/GettingProductsView/GetProductsView.cs:53-54 | pages 1 and 2 together are the first 2*PageSize rows of the sorted view, for the model's fixed order among rows with the same name |
| LongConverter.WriteJson | src/BuildingBlocks/BuildingBlocks.Core/Serialization/LongToStringConverter.cs:7-10 | a string token holding the decimal text, '-' first iff negative |
| LongConverter.ConvertToInt64 | src/BuildingBlocks/BuildingBlocks.Core/Serialization/LongToStringConverter.cs:20 | null gives 0 and booleans 1 or 0; an integer gives itself when it fits in a long and the invalid-cast error of the reader's BigInteger when it does not; a string gives what `long.Parse` gives: its value, a format error, or an overflow error for well-formed digits beyond 64 bits |
| LongConverter.ReadJson | src/BuildingBlocks/BuildingBlocks.Core/Serialization/LongToStringConverter.cs:12-21 | a string `long.TryParse` accepts gives its value; any other string gives the format or overflow error `long.Parse` throws for it; other tokens go through Convert.ToInt64 |
| LongConverter.ReadWriteRoundTrip | src/BuildingBlocks/BuildingBlocks.Core/Serialization/LongToStringConverter.cs:7-21 | every long survives WriteJson followed by ReadJson |
| LongConverter.ReadOversizedDigits | src/BuildingBlocks/BuildingBlocks.Core/Serialization/LongToStringConverter.cs:14-20 | a string of digits too large for a long is read as an overflow error |
| DecimalText.ParseToString | src/BuildingBlocks/BuildingBlocks.Core/Serialization/LongToStringConverter.cs:9-16 | long.TryParse of long.ToString gives the value back |
| DecimalText.ParseInt64 | src/BuildingBlocks/BuildingBlocks.Core/Serialization/LongToStringConverter.cs:20 | the definition of `long.Parse`: a value, a format error, or an overflow for a well-formed string beyond 64 bits; ParseToString and DigitsParse state its results |
| DecimalText.TryParseInt64 | src/BuildingBlocks/BuildingBlocks.Core/Serialization/LongToStringConverter.cs:16 | `long.TryParse` gives a value exactly when `long.Parse` would, and the same value |
| DecimalText.DigitsParse | src/BuildingBlocks/BuildingBlocks.Core/Serialization/LongToStringConverter.cs:20 | a bare string of digits parses to its value when that fits in a long, and overflows otherwise |
| Clock.Date | src/BuildingBlocks/BuildingBlocks.Core/BackgroundServices/ScheduledTaskService.cs:104 | `DateTime.Today`: the midnight that starts the day holding the instant |
| Clock.Hour | src/BuildingBlocks/BuildingBlocks.Core/BackgroundServices/ScheduledTaskService.cs:74-92 | `DateTime.Hour` lies in 0..23 |
| Clock.Minute | src/BuildingBlocks/BuildingBlocks.Core/BackgroundServices/ScheduledTaskService.cs:74 | `DateTime.Minute` lies in 0..59 |
| Clock.MinuteOfDay | src/BuildingBlocks/BuildingBlocks.Core/BackgroundServices/ScheduledTaskService.cs:74-92 | hour*60 + minute, in 0..1439 |
| Numerics.Wrap32 | src/Modules/Catalogs/FoodDelivery.Modules.Catalogs/Products/Services/InventoryService.cs:84-126 | unchecked `int` arithmetic: the Int32 congruent to the exact value modulo 2^32, equal to it when it fits |
| Numerics.TruncDiv | src/Modules/Customers/FoodDelivery.Modules.Customers/Customers/Services/CustomerWalletService.cs:205 | C# integer division: the remainder is smaller than the divisor and has the dividend's sign |
| Numerics.TruncReal | src/Modules/Orders/FoodDelivery.Modules.Orders/Orders/Services/PriceCalculator.cs:100 | the `(int)` cast of a decimal drops the fraction toward zero |
| Numerics.DecimalToInt32 | src/Modules/Orders/FoodDelivery.Modules.Orders/Orders/Services/PriceCalculator.cs:149 | the cast succeeds exactly when the truncated value is an Int32, and then yields it |
| Inventory.AddStock | src/Modules/Catalogs/FoodDelivery.Modules.Catalogs/Products/Services/InventoryService.cs:84-126 | `AvailableStock += delta` keeps the threshold and wraps the stock modulo 2^32 |
| Inventory.InventoryService.constructor | src/Modules/Catalogs/FoodDelivery.Modules.Catalogs/Products/Services/InventoryService.cs:39 | the given product rows and an empty reservation cache |
| Orders.OrderService.constructor | src/Modules/Orders/FoodDelivery.Modules.Orders/Orders/Services/OrderService.cs:47 | no orders, ids from 1, no active operations |
| Sessions.SessionManager.constructor | src/Modules/Identity/FoodDelivery.Modules.Identity/Identity/Services/SessionManager.cs:38-39 | both session tables empty and keyed alike |
| Text.Upper | src/Modules/Orders/FoodDelivery.Modules.Orders/Orders/Services/CouponService.cs:66 | ordinal case-insensitive comparison upper-cases ASCII letters, keeps every other character, and keeps the length |
| Text.UpperInvariant | src/BuildingBlocks/BuildingBlocks.Core/Validation/InputValidator.cs:94 | `ToUpperInvariant` maps each character on its own: ASCII letters and long s to their ASCII capitals, dotless i kept as it is |
| Text.IsBlank | src/Modules/Catalogs/FoodDelivery.Modules.Catalogs/Products/Services/ProductSearchService.cs:43 | the definition of `string.IsNullOrWhiteSpace`: every character is .NET white space, the empty string included |
| Text.ReplaceAll | src/Modules/Catalogs/FoodDelivery.Modules.Catalogs/Products/Services/ProductSearchService.cs:126-128 | the definition of ordinal `string.Replace`: matches found left to right, each search resuming after the last match |
| Text.RemoveAllIsSubsequence | src/Modules/Catalogs/FoodDelivery.Modules.Catalogs/Products/Services/ProductSearchService.cs:126-128 | replacing a pattern by the empty string only deletes characters |
| Text.RemoveCharLeavesNone | src/Modules/Catalogs/FoodDelivery.Modules.Catalogs/Products/Services/ProductSearchService.cs:126-127 | removing a one-character pattern leaves no such character |
| Text.RemoveDoubleDashLeavesNone | src/Modules/Catalogs/FoodDelivery.Modules.Catalogs/Products/Services/ProductSearchService.cs:128 | removing "--" leaves no "--" |
| Text.RemoveShortensWhenContained | src/Modules/Catalogs/FoodDelivery.Modules.Catalogs/Products/Services/ProductSearchService.cs:126-128 | a removal of a pattern that occurs makes the string shorter |
| Text.ReplaceAbsent | src/BuildingBlocks/BuildingBlocks.Core/Validation/InputValidator.cs:121-123 | replacing a pattern that does not occur changes nothing |
| Validation.HasDigit | src/BuildingBlocks/BuildingBlocks.Core/Validation/InputValidator.cs:154 | true iff some character is a digit |
| DecimalText.Int64ToString | src/BuildingBlocks/BuildingBlocks.Core/Serialization/LongToStringConverter.cs:9 | `long.ToString()`: digits only, led by '-' exactly for a negative value |
| Coupons.StackingScenario | src/Modules/Orders/FoodDelivery.Modules.Orders/Orders/Services/CouponService.cs:122-159 | SAVE10, SAVE10, MEGA100 on fresh counters take 100000 to 0 through the service |
| ProductsView.LexTotal | src/Modules/Catalogs/FoodDelivery.Modules.Catalogs/Products/Features/GettingProductsView/GetProductsView.cs:52 | any two product names are ordered one way or the other |
| ProductsView.LexTransitive | src/Modules/Catalogs/FoodDelivery.Modules.Catalogs/Products/Features/GettingProductsView/GetProductsView.cs:52 | the ordinal name order is transitive |
| DecimalText.DigitsValueOfNatDigits | src/BuildingBlocks/BuildingBlocks.Core/Serialization/LongToStringConverter.cs:9-16 | the decimal digits written for n read back as n |

## Left out

- Concurrency: the lock around the reservation cache and the `Task.Delay` pauses are left out. Every operation is modelled as atomic, and the active-operations counter only as its net effect.
- Entity Framework, the database and the SQL text built by the search and report services are left out. A query is modelled as a `SearchText.Query` value saying which columns and which pattern or value it would use.
- Logging is left out everywhere, the scheduler's logger calls included.
- The double-based `CalculateTotal` and `ConvertCurrency`, `SanitizeForHtml`, `IsValidUrl`, `SearchByPriceRangeAsync`, the cryptographic helpers and the web front end are not part of the core modelled here.
- `decimal` precision and range are not modelled: a `decimal` is an exact `real`. Only the `(int)` casts, which do overflow, are checked against the Int32 range.
- Nulls are not modelled: a null string is the empty string, a null `Product` lookup is `None`.
- Every `DateTime.Now`, `DateTime.UtcNow` or `DateTime.Today` inside one call is one reading `now`, passed by the caller.
- Text.Upper: ordinal case-insensitive comparison folds every Unicode letter; the model folds only the ASCII letters.
- Text.UpperInvariant: exact for ASCII letters, long s (to 'S') and dotless i (kept); every other character is kept as it is, although .NET upper-cases it (é to É). No such character has an ASCII upper case, so the choice cannot change whether an ASCII pattern occurs.
- ProductsView.LexLe: the database's collation for `OrderBy(ProductName)` is modelled as ordinal character order.
- Validation.IsValidPassword: `char.IsDigit` accepts every Unicode decimal digit; the model counts only '0'..'9'.
- Orders.OrderService.CreateOrder: order ids come from the service's own counter; `Order.Create` and the database identity column are not part of this model.
- Orders.OrderService.GetOrderHistory: a negative skip sent to a real database is not modelled; LINQ's `Skip` treats it as 0.
- Sessions.SessionManager.GetSession: returns the session record as a value, not a reference shared with the table.
- Wallet.CustomerWalletService.constructor: the wallets' id, currency and last-update fields are left out; only balances are modelled.
- Coupons.CouponService.constructor: the coupons' expiry dates are left out, because no operation reads them.
- Inventory.InventoryService.GetTotalReservedStock: the source's loop over the matching rows is a function over the at most one row with that id.
- Inventory.InventoryService.GetTotalReservedStock: the fallback's subtraction `MaxStockThreshold - AvailableStock` runs in the database, where an int overflow raises an error; the model wraps it instead, and the database's overflow error is not modelled.
- Orders.HistoryPage: the sort, skip and take run in the database as ORDER BY … OFFSET/FETCH, where orders with the same `Created` come in an unspecified order that may differ from one query to the next. The model breaks such ties by insertion order (a stable sort), so Orders.ConsecutiveHistoryPages holds for that fixed order only; in the program an order can repeat or go missing when ties straddle a page boundary.
- ProductsView.PageRows: the same holds for products with the same name; the model breaks the tie by the view's order, so ProductsView.FirstPagesCoverPrefix holds for that fixed order only.
- LongConverter.ReadJson: float and date tokens are left out; strings, integers, booleans and null are modelled.
- Strings are sequences of Unicode scalar values. C# lengths, indices and `Substring` count UTF-16 code units, so text outside the Basic Multilingual Plane behaves differently: password lengths, the last four characters kept by the maskers, and the first character kept by the name and e-mail maskers.
- ProductsView.PageOffset: a valid query such as Page 65537 with PageSize 32768 wraps to a negative skip (-2147483648); what a real database does with it is not modelled, and ProductsView.Handle treats it as LINQ's `Skip` does, as 0.
- Orders.StatusOfCode: C# enums are open, so a status such as `(OrderStatus)99` is a legal value; the model's `OrderStatus` holds only the six declared values, and such a code decodes to `None`.
- ProductsView.Validate: assumes FluentValidation 9.1 or later, where `CascadeMode.Stop` set on the validator stops at the first failing rule; the package version is not part of this model.
- DecimalText.ParseInt64: `long.Parse`, `long.TryParse` and `long.ToString` follow the current culture; the model assumes a culture whose negative and positive signs are "-" and "+".
- The `ProductView` entity's source is not part of this model: its four fields are those the handler copies into the DTO.

## Findings

| source | as written | input that shows it | evidently intended | confidence | as-written member | corrected member |
|---|---|---|---|---|---|---|
| src/Modules/Customers/FoodDelivery.Modules.Customers/Customers/Services/CustomerWalletService.cs:204-208 | the unused fraction is an `int` division, which is 0 for any day after the first | 300000 with 10 of 30 days used refunds 0 | a refund proportional to the unused days (200000) | not executed | Wallet.CalculateRefund, Wallet.RefundTruncatesToZero | Wallet.ProratedRefund, Wallet.ProratedRefundBounds |
| src/Modules/Orders/FoodDelivery.Modules.Orders/Orders/Services/PriceCalculator.cs:149 | the rounded amount is multiplied by 100 in unchecked `int` arithmetic | 2147483700 rounds to -2147483596 | the amount rounded down to a multiple of 100 | not executed | Pricing.RoundToNearestCurrency, Pricing.RoundWrapsAtLimit | Pricing.RoundDownToHundred, Pricing.RoundAgrees |
| src/Modules/Orders/FoodDelivery.Modules.Orders/Orders/Services/PriceCalculator.cs:100-103 | extra kilometres times 2000 is computed in unchecked `int` arithmetic | 1073747 km with base rate 0 costs -2147483296 | a fee that grows with the distance | not executed | Pricing.CalculateDeliveryFee, Pricing.DeliveryFeeWrapsNegative | Pricing.DeliveryFeeExact, Pricing.DeliveryFeeExactMonotone |
| src/BuildingBlocks/BuildingBlocks.Core/Validation/InputValidator.cs:121-123 | each comment marker is removed once, in turn, so removals can join into a new marker | "-/*-" sanitises to "--" | no comment marker left in the output | not executed | Validation.SanitizeSqlInput, Validation.SanitizerLeavesComment | Validation.SanitizeSqlInputCorrected |
| src/BuildingBlocks/BuildingBlocks.Core/Validation/InputValidator.cs:12-14 | the pattern ends in `$`, which also matches before a final newline | "a@b.c\n" is a valid e-mail | the whole input must be the address | not executed | Validation.IsValidEmail, Validation.EmailWithNewlineAccepted | Validation.IsValidEmailStrict |
| src/BuildingBlocks/BuildingBlocks.Core/Validation/InputValidator.cs:16-18 | the pattern ends in `$`, which also matches before a final newline | "abc\n" is alphanumeric | letters and digits only | not executed | Validation.IsAlphanumeric, Validation.AlphanumericWithNewlineAccepted | Validation.IsAlphanumericStrict |

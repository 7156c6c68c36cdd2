# MuseMarket backend core, modelled in Dafny

MuseMarket is a small art marketplace: sellers list artworks, buyers place
orders, and an administrator reads a dashboard. This project models the
backend logic of that system that can be stated without its framework:

- the three Mongoose schemas (User, Artwork, Order): their enums, defaults,
  required paths and the two unique indexes of the user collection
  (`user_model.dfy`, `artwork_model.dfy`, `order_model.dfy`);
- `getDashboardStats`, the admin report: role counts, paid sales and revenue,
  the top buyer, paid sales per calendar month since a cutoff, artwork counts
  per label and the five best-selling artworks (`admin_controller.dfy`), over
  a model of the MongoDB pipeline stages it uses — `$group`, `$sort`,
  `$limit` (`aggregation.dfy`);
- `signup` (its fixed chain of validators followed by an insert) and `login`
  (`auth_controller.dfy`), over a user collection class whose `Save` appends
  a document unless a unique key clashes;
- the seller-scoped artwork handlers over an artwork collection class that
  holds a map from id to artwork (`artwork_controller.dfy`);
- the three role guards (`role_middleware.dfy`) and the bearer-token
  middleware (`auth_middleware.dfy`);
- the idempotent admin bootstrap `createAdminUser` (`admin_bootstrap.dfy`);
- the JavaScript string operations these rely on: `split`, `String(n)`,
  `padStart`, `parseInt` (`text.dfy`), and shared vocabulary (`common.dfy`).

Foreign code appears symbolically. A bcrypt digest is a datatype that
remembers the 72 key bytes bcrypt reads from a password: its UTF-8 encoding
and a zero byte, repeated and cut at 72 bytes. So `compare(p, hash(q))` holds
exactly when `p` and `q` give the same key bytes. For passwords shorter than
72 bytes without a NUL character that means `p == q`. Longer passwords that
agree on their first 72 bytes are accepted in place of each other.
A signed JWT is a datatype holding its claims. `jwt.verify` and
`User.findById` inside the authentication middleware are function-valued
parameters. The database is an in-memory snapshot or collection. The clock
is a parameter: handlers receive `now`, and the dashboard receives `now`
and derives the cutoff six calendar months earlier.

Where the schemas and the handlers interact in ways their comments do not
say, the model follows the code:

- The Artwork schema's default status `'available'` is not one of the enum
  values `Available` / `Sold`. Mongoose validates defaulted paths, so
  creating an artwork without a status always fails with a validation error
  (500).
- The User schema declares no `age` path, so the buyer's age that `signup`
  passes to the constructor is dropped by strict mode and never stored.
- The age check runs only for an explicit role `"buyer"`. A signup without
  a role skips it, yet is stored with the default role `buyer`. A role
  outside the enum passes all checks and then fails at `save()` (500).
- `findOneAndUpdate` runs no schema validators, so an update may store a
  status outside the enum, or hand the artwork to another seller.
- A verified token whose user no longer exists still passes the
  authentication middleware, with a null `req.user`, which every role
  guard then refuses.
- The artwork label groups a missing or null label and an empty label
  separately, and both display as `Uncategorized`.

## Model

| member | source | states |
|---|---|---|
| `UserModel.CastRole` | backend/models/User.js:11 | an absent role becomes `buyer`; a given role is accepted exactly when it is one of `buyer`, `seller`, `admin`, and is then that role |
| `UserModel.CastRoleName` | backend/models/User.js:11 | each role has its own enum name, and casting that name yields the role back |
| `UserModel.Utf8` | backend/controllers/authController.js:48 | the UTF-8 bytes of a password are at least as many as its characters, and hold a zero byte exactly when it holds a NUL character |
| `UserModel.Utf8Injective` | backend/controllers/authController.js:48 | distinct passwords have distinct UTF-8 encodings |
| `UserModel.BcryptKey` | backend/controllers/authController.js:48 | the key bytes are 72 long: the first 72 bytes of a long encoding, or a short encoding followed by a zero byte |
| `UserModel.CompareHash` | backend/controllers/authController.js:79 | a digest accepts the password it was made from, and exactly the passwords with the same key bytes; for two long passwords, exactly those agreeing on the first 72 bytes |
| `UserModel.CompareShortPassword` | backend/controllers/authController.js:79 | for NUL-free passwords under 72 bytes, a digest accepts only the password it was made from |
| `UserModel.LongPasswordsCollide` | backend/controllers/authController.js:79 | two different passwords that share a 72-byte prefix are accepted in place of each other |
| `UserModel.Redact` | backend/middleware/authMiddleware.js:11 | the password-less view keeps the user's id, username and role |
| `UserModel.FindByUsername` | backend/controllers/authController.js:38 | finds a user with that username; finds none exactly when no user has it |
| `UserModel.FindByEmail` | backend/controllers/authController.js:43 | finds a user with that email; finds none exactly when no user has it |
| `UserModel.FindById` | backend/middleware/authMiddleware.js:11 | finds a user exactly when the id belongs to a stored user, and then that user; the lookup `LoginTokenAuthenticates` assumes of the middleware |
| `UserModel.Saved` | backend/models/User.js:5-6 | `save()` appends the document under the next id exactly when neither its username nor its email is taken |
| `UserModel.SavedValid` | backend/models/User.js:5-6 | saving keeps ids in place and usernames and emails unique |
| `UserModel.UsernameNamesOne` | backend/models/User.js:5 | in a valid table a username names at most one user |
| `UserModel.UserCollection.Save` | backend/controllers/authController.js:62 | the collection grows by exactly the saved document, or is unchanged on a duplicate key, and stays valid |
| `ArtworkModel.CreateDocument` | backend/models/Artwork.js:3-14 | a document is created exactly when title, price, image URL and seller are present and the status (after the default) is in the enum; it carries both timestamps |
| `ArtworkModel.ArtworkInputValid` | backend/models/Artwork.js:3-10 | a valid artwork input carries an explicit status, and it is in the enum, because the default is not |
| `ArtworkModel.DefaultStatusNotAllowed` | backend/models/Artwork.js:8 | the declared default `available` is not an allowed status |
| `ArtworkModel.CreateDocumentStatus` | backend/models/Artwork.js:8 | a document without a status is rejected; every created document has an allowed status |
| `ArtworkModel.CreateDocumentRequired` | backend/models/Artwork.js:4-10 | description and label are optional; a missing title, price, image URL or seller always fails |
| `OrderModel.CastStatus` | backend/models/Order.js:23-27 | an absent payment status becomes `Pending`; a given one is accepted exactly when it is `Pending`, `Paid` or `Failed` |
| `OrderModel.OrderInputValid` | backend/models/Order.js:4-27 | a valid order input has a payment status that is absent or one of `Pending`, `Paid`, `Failed` |
| `OrderModel.CreateOrder` | backend/models/Order.js:4-32 | an order document is created exactly when every required path is present and the status is in the enum |
| `OrderModel.CreateOrderDefaults` | backend/models/Order.js:5-31 | the status defaults to `Pending`, the creation time to now, the transaction id is optional, and any missing required path fails |
| `Aggregation.Keys` | backend/controllers/adminController.js:23 | the grouping key of each document, position by position |
| `Aggregation.Distinct` | backend/controllers/adminController.js:23 | each key that occurs, exactly once |
| `Aggregation.CountWhere` | backend/controllers/adminController.js:23 | the `$sum: 1` of a key is positive exactly when some document has that key, and at most the number of documents |
| `Aggregation.CountWhereExact` | backend/controllers/adminController.js:23 | the `$sum: 1` of a key is exactly the number of documents having that key |
| `Aggregation.Group` | backend/controllers/adminController.js:23 | each `$group` bucket counts exactly the documents with its key, at least one |
| `Aggregation.GroupShape` | backend/controllers/adminController.js:23 | `$group` yields one bucket per distinct key and none for an absent key, each counting that key's documents (at least one) |
| `Aggregation.GroupCountsTotal` | backend/controllers/adminController.js:71 | the bucket counts of a `$group` add up to the number of documents |
| `Aggregation.GroupSumsTotal` | backend/controllers/adminController.js:56 | the per-key `$sum` of a field, added over all buckets, is that field's sum over all documents |
| `Aggregation.SortBy` | backend/controllers/adminController.js:24 | `$sort` returns a permutation of its input |
| `Aggregation.SortBySorted` | backend/controllers/adminController.js:24 | `$sort` on a total preorder returns an ordered sequence |
| `Aggregation.SortBySum` | backend/controllers/adminController.js:72 | `$sort` keeps every field sum |
| `Aggregation.SortByMembers` | backend/controllers/adminController.js:72 | `$sort` keeps the length and exactly the same documents |
| `Aggregation.SortByNoDuplicatesBy` | backend/controllers/adminController.js:59 | `$sort` keeps distinct keys distinct |
| `Aggregation.SortedGroupKeys` | backend/controllers/adminController.js:59 | after `$group` and `$sort`, the buckets' keys are exactly the keys the documents have |
| `Aggregation.SortedGroupDistinct` | backend/controllers/adminController.js:59 | after `$group` and `$sort`, no key has two buckets |
| `Aggregation.LookupFirst` | backend/controllers/adminController.js:26-34 | `$lookup` on `_id` then `$unwind` finds a document with that id, and drops the entry exactly when there is none |
| `Aggregation.Limit` | backend/controllers/adminController.js:85 | `$limit: n` keeps a prefix of exactly `min(n, length)` documents, all of them when there are no more than `n` |
| `AdminController.CountRole` | backend/controllers/adminController.js:8-9 | the count of users with exactly the given role is zero exactly when no user has it |
| `AdminController.CountRoleExact` | backend/controllers/adminController.js:8-9 | the count is exactly the number of users holding the role |
| `AdminController.RoleCountsPartition` | backend/controllers/adminController.js:8-9 | sellers, buyers and admins partition the users, so admins are in neither reported count |
| `AdminController.PaidOrders` | backend/controllers/adminController.js:15 | `$match` keeps exactly the orders whose status is `Paid` |
| `AdminController.PaidOrdersExact` | backend/controllers/adminController.js:15 | `$match` keeps every copy of each paid order and no other order |
| `AdminController.TotalRevenue` | backend/controllers/adminController.js:14-18 | revenue is the sum of the paid amounts, and 0 when no order is paid |
| `AdminController.TotalRevenueIsPaidSum` | backend/controllers/adminController.js:14-18 | revenue is the sum of the paid amounts, and 0 (not absent) when no order is paid |
| `AdminController.TopBuyerSpec` | backend/controllers/adminController.js:21-41 | no paid order gives a null top buyer; a top buyer is a stored user whose paid-order count is the largest of any buyer, with `totalSpent` that buyer's paid-amount sum |
| `AdminController.TopBuyerPresent` | backend/controllers/adminController.js:21-41 | with a paid order and every paid buyer stored, the top buyer is not null |
| `AdminController.TopBuyerOf` | backend/controllers/adminController.js:21-41 | a top buyer carries the name of a stored user; without a paid order there is none |
| `AdminController.WindowOrders` | backend/controllers/adminController.js:48 | keeps exactly the orders created at or after the cutoff |
| `AdminController.WindowOrdersExact` | backend/controllers/adminController.js:48 | keeps every copy of each order created at or after the cutoff and no other order |
| `AdminController.MonthKeyFormat` | backend/controllers/adminController.js:64 | the month key is the year's numeral, `-`, and the month as exactly two digits (a leading `0` below 10) that read back as the month |
| `AdminController.MonthKeyInjective` | backend/controllers/adminController.js:64 | distinct calendar months have distinct keys |
| `AdminController.MonthKeyExample` | backend/controllers/adminController.js:64 | March 2024 is keyed `2024-03` |
| `AdminController.MonthBucketsAscending` | backend/controllers/adminController.js:47-60 | the month buckets are strictly ascending by (year, month) |
| `AdminController.MonthBucketsSpec` | backend/controllers/adminController.js:47-60 | one bucket per month holding a paid order since the cutoff, each counting those orders; counts add up to the window's size and so to at most `totalSales` |
| `AdminController.MonthBucketsFromWindow` | backend/controllers/adminController.js:47-60 | every month bucket holds a paid order of that month since the cutoff |
| `AdminController.SalesByMonth` | backend/controllers/adminController.js:47-67 | one entry per month bucket, each with at least one sale and keyed by the month of a paid order since the cutoff |
| `AdminController.SalesByMonthSpec` | backend/controllers/adminController.js:62-67 | each formatted entry carries its bucket's `YYYY-MM` key and count, and as revenue the sum of that month's paid amounts since the cutoff; the revenues add up to the paid amounts since the cutoff |
| `AdminController.SalesByMonthWindow` | backend/controllers/adminController.js:48 | every paid order since the cutoff has its month listed |
| `AdminController.SixMonthsBefore` | backend/controllers/adminController.js:44-45 | the cutoff is six calendar months before now, at the same offset within the month |
| `AdminController.DisplayCategory` | backend/controllers/adminController.js:76 | a null or empty label displays as `Uncategorized`; any other label as itself |
| `AdminController.ArtworksByCategory` | backend/controllers/adminController.js:70-78 | as many entries as there are distinct stored label values |
| `AdminController.ArtworksByCategoryListed` | backend/controllers/adminController.js:70-78 | each entry is a stored label value, as displayed, with the number of artworks carrying it |
| `AdminController.ArtworksByCategoryComplete` | backend/controllers/adminController.js:70-78 | every stored label value has its entry, with the number of artworks carrying it |
| `AdminController.ArtworksByCategorySpec` | backend/controllers/adminController.js:70-78 | exactly one entry per stored label value, showing it and its number of artworks; counts non-increasing, each at least 1, adding up to the number of artworks |
| `AdminController.TwoUncategorizedBuckets` | backend/controllers/adminController.js:71-76 | a missing label and an empty label give two separate `Uncategorized` entries |
| `AdminController.JoinArtworks` | backend/controllers/adminController.js:86-94 | `$unwind` keeps only ranked entries whose artwork exists, never more than were ranked |
| `AdminController.JoinArtworksLength` | backend/controllers/adminController.js:94 | the joined list is as long as the ranking exactly when every ranked artwork exists |
| `AdminController.SalesRankingPrefix` | backend/controllers/adminController.js:81-85 | the ranking is the first five buckets of the sorted grouping, or all of them when fewer than five artworks sold, sorted by count |
| `AdminController.TopSelling` | backend/controllers/adminController.js:81-95 | at most five best sellers, each a stored artwork |
| `AdminController.TopSellingArtworks` | backend/controllers/adminController.js:97-100 | one entry per best seller, in rank order, with that artwork's title and sales; at most five, each titled as a stored artwork |
| `AdminController.TopSellingSorted` | backend/controllers/adminController.js:81-100 | at most five best sellers, with non-increasing sales |
| `AdminController.TopSellingEntries` | backend/controllers/adminController.js:81-100 | each best seller is a stored artwork whose sales are its number of paid orders, at least one |
| `AdminController.RankedBeforeUnranked` | backend/controllers/adminController.js:83-85 | a ranked bucket counts at least as many paid orders as any artwork sorted out of the ranking |
| `AdminController.TopSellingBeatsUnranked` | backend/controllers/adminController.js:83-85 | no artwork left out of the ranking sold more paid orders than a listed best seller |
| `AdminController.TopSellingDropsAfterLimit` | backend/controllers/adminController.js:85-94 | missing artworks are dropped after the limit, so the list is shorter than the ranking exactly when a ranked artwork is gone |
| `AdminController.DashboardStats` | backend/controllers/adminController.js:103-113 | the report counts at most all users as sellers plus buyers and at most all orders as sales, and lists at most five best sellers |
| `AdminController.GetDashboardStats` | backend/controllers/adminController.js:103-118 | a snapshot that cannot be read gives 500 `Failed to fetch dashboard statistics`; any readable snapshot, however empty, gives a 200 carrying the report for the cutoff six months before now |
| `AdminController.EmptySnapshotReport` | backend/controllers/adminController.js:103-113 | empty collections give zero counts, zero revenue, a null top buyer and empty lists |
| `AdminController.UnpaidOrderIgnored` | backend/controllers/adminController.js:11-95 | adding a pending or failed order changes nothing in the report |
| `AdminController.TotalsSpec` | backend/controllers/adminController.js:8-18 | `totalSales` is the number of paid orders, at most all orders; `totalRevenue` their amount sum; sellers plus buyers are the non-admin users |
| `Text.Split` | backend/middleware/authMiddleware.js:6 | `split` yields at least one piece and no piece holds the separator |
| `Text.JoinSplit` | backend/middleware/authMiddleware.js:6 | joining the pieces of `split` gives the original text back |
| `Text.SplitWithoutSeparator` | backend/middleware/authMiddleware.js:6 | a text without a space is a single piece |
| `Text.SplitAtFirst` | backend/middleware/authMiddleware.js:6 | the first piece runs up to the first separator |
| `Text.SplitWithSeparator` | backend/middleware/authMiddleware.js:6 | a text holding a separator has a second piece |
| `Text.Decimal` | backend/controllers/adminController.js:64 | `String(n)` is a non-empty digit string without a leading zero |
| `Text.DecimalRoundTrip` | backend/controllers/adminController.js:64 | reading a rendered numeral back gives the number |
| `Text.DecimalInjective` | backend/controllers/adminController.js:64 | distinct numbers render differently |
| `Text.PadStart` | backend/controllers/adminController.js:64 | `padStart` reaches the width, keeps the text as a suffix and fills the rest with the fill character |
| `Text.PadTwoDigits` | backend/controllers/adminController.js:64 | a number below 100 padded to width 2 is two digits that read back as it |
| `Text.TrimStart` | backend/controllers/authController.js:21 | `parseInt` skips a prefix of white space and stops at the first other character |
| `Text.DigitPrefix` | backend/controllers/authController.js:21 | `parseInt` reads the longest run of digits at the start |
| `Text.ParseInt` | backend/controllers/authController.js:21 | a text without any digit parses to NaN |
| `Text.ParseIntDecimal` | backend/controllers/authController.js:21 | `parseInt` of a numeral followed by a non-digit reads the numeral's value |
| `AuthController.CheckSignup` | backend/controllers/authController.js:20-46 | the validation chain lets a signup through exactly when the age (for an explicit buyer), phone, username pattern and both uniqueness checks pass; a failure is a 400 |
| `AuthController.SignupCheckOrder` | backend/controllers/authController.js:20-46 | the checks run age, phone, username pattern, username taken, email taken; the first failure decides the message; a taken username has the malformed-username message |
| `AuthController.NewUser` | backend/controllers/authController.js:48-60 | the document stores the hashed password and the cast role, an art style only for a seller, and fails exactly for a role outside the enum |
| `AuthController.SignupResult` | backend/controllers/authController.js:18-66 | a failed signup leaves the table alone; a successful one keeps it and appends one user with the username and the hashed password |
| `AuthController.SignupEffect` | backend/controllers/authController.js:48-63 | signup answers 201 exactly when all checks pass and the role is valid, and then appends exactly one user; any failure leaves the table unchanged |
| `AuthController.SignupKeepsTableValid` | backend/controllers/authController.js:38-62 | signup keeps ids and unique usernames and emails |
| `AuthController.AbsentRoleSkipsAgeCheck` | backend/controllers/authController.js:20 | without a role the age check is skipped, and the user is stored as a buyer |
| `AuthController.Signup` | backend/controllers/authController.js:5-67 | the handler's reply and the table after it are those of the validation chain and the insert |
| `AuthController.AgeAcceptedDecimal` | backend/controllers/authController.js:21-22 | an age text starting with a numeral is accepted exactly when the numeral is in 18..50 |
| `AuthController.AgeTrailingText` | backend/controllers/authController.js:21 | `"25x"` is accepted as 25 |
| `AuthController.AgeBounds` | backend/controllers/authController.js:22 | 18 and 50 are accepted, 17 and 51 are not |
| `AuthController.UndefinedIsNaN` | backend/controllers/authController.js:21 | `parseInt` of an absent age (the text `undefined`) is NaN |
| `AuthController.AgeAccepted` | backend/controllers/authController.js:20-24 | an accepted age is present, so a buyer without an age is refused |
| `AuthController.AgeHexadecimal` | backend/controllers/authController.js:21 | `parseInt` reads `"0x19"` as 25, which is accepted |
| `AuthController.PhoneValid` | backend/controllers/authController.js:27-28 | a phone number passes exactly when it is `98` followed by eight digits |
| `AuthController.UsernameValid` | backend/controllers/authController.js:32-33 | a username that passes is non-empty and holds no digit and no white space |
| `AuthController.PhoneValidSpec` | backend/controllers/authController.js:27-28 | a phone number is valid exactly when it is `98` followed by eight digits |
| `AuthController.Login` | backend/controllers/authController.js:71-101 | every refusal is 400 `Invalid credentials`; a session's token claims its user's id and role |
| `AuthController.LoginSpec` | backend/controllers/authController.js:75-96 | login succeeds exactly when the named user exists and the password matches, and returns that user's id, username, full name and role |
| `AuthController.SignupThenLogin` | backend/controllers/authController.js:48-96 | a user who signed up can log in with the same username and password |
| `RoleMiddleware.RequireRole` | backend/middleware/roleMiddleware.js:2-26 | a guard passes exactly when a user is attached and has the guard's role; otherwise it answers 403 with its message |
| `RoleMiddleware.IsAdmin` | backend/middleware/roleMiddleware.js:2-8 | passes exactly a present user with role `admin`; otherwise 403 with the admin message |
| `RoleMiddleware.IsSeller` | backend/middleware/roleMiddleware.js:11-17 | passes exactly a present user with role `seller`; otherwise 403 with the seller message |
| `RoleMiddleware.IsBuyer` | backend/middleware/roleMiddleware.js:20-26 | passes exactly a present user with role `buyer`; otherwise 403 with the buyer message |
| `RoleMiddleware.GuardsPartition` | backend/middleware/roleMiddleware.js:2-26 | a request without a user is refused by all three guards; one with a user passes exactly one of them |
| `AuthMiddleware.BearerToken` | backend/middleware/authMiddleware.js:6-7 | a token is the non-empty second space-separated piece, and exists only when the header holds a space |
| `AuthMiddleware.BearerTokenOf` | backend/middleware/authMiddleware.js:6 | the token of `Bearer <token>` is `<token>`, whatever follows after another space |
| `AuthMiddleware.NoBearerToken` | backend/middleware/authMiddleware.js:6-7 | a header without a space, one ending in its only space, or one with two spaces in a row after the scheme, carries no token |
| `AuthMiddleware.AuthDecision` | backend/middleware/authMiddleware.js:5-16 | the request passes exactly when a token exists, verifies and its user lookup does not throw; every refusal is 401, with the no-token or the invalid-token message |
| `AuthMiddleware.Attached` | backend/middleware/authMiddleware.js:11 | `req.user` is the user found, or null when none is |
| `AuthMiddleware.Request.Authenticate` | backend/middleware/authMiddleware.js:5-16 | either answers 401 and leaves `req.user` alone, or attaches the looked-up user and passes on |
| `AuthMiddleware.MissingUserPassesThenDenied` | backend/middleware/authMiddleware.js:11-12 | a verified token of a vanished user passes with a null user, which every role guard refuses |
| `AuthMiddleware.GuardsUseStoredRole` | backend/middleware/authMiddleware.js:11 | the role guards read the stored user's role, not the role the token claims |
| `AuthMiddleware.LoginTokenAuthenticates` | backend/middleware/authMiddleware.js:9-12 | a login's token presented as `Bearer <token>` attaches that user, who then passes the guard of their role |
| `AdminBootstrap.EnvOr` | backend/utils/createAdminUser.js:6-7 | an unset or empty variable gives the fallback (`admin`, `admin123`); otherwise its value |
| `AdminBootstrap.AdminRecord` | backend/utils/createAdminUser.js:20-28 | the admin document has role `admin`, full name `Administrator`, email `admin@artstore.com`, phone `0000000000` and the hashed password |
| `AdminBootstrap.FindAdmin` | backend/utils/createAdminUser.js:10 | finds a user with the username and role `admin` exactly when one exists |
| `AdminBootstrap.Bootstrap` | backend/utils/createAdminUser.js:4-37 | only a created admin changes the table, by appending one admin under the configured username; any run that goes past the check found no such admin |
| `AdminBootstrap.CreateAdminUser` | backend/utils/createAdminUser.js:3-37 | the run's log and the table after it are those of the check-then-insert |
| `AdminBootstrap.BootstrapEffect` | backend/utils/createAdminUser.js:10-36 | nothing is created exactly when that admin exists; otherwise one admin is appended, or on a unique-key clash nothing changes and the error is only logged |
| `AdminBootstrap.BootstrapIdempotent` | backend/utils/createAdminUser.js:10-30 | a second run changes nothing and creates no admin |
| `AdminBootstrap.BootstrapKeepsValid` | backend/utils/createAdminUser.js:20-30 | a run keeps ids and unique usernames and emails |
| `AdminBootstrap.BootstrapLeavesAdmin` | backend/utils/createAdminUser.js:10-30 | after a run that did not fail, an admin with the configured username is stored |
| `AdminBootstrap.BootstrapSingleAdmin` | backend/utils/createAdminUser.js:10-30 | on a valid table, at most one user has the admin username, and after a run that did not fail that user is an admin |
| `ArtworkController.CreateReply` | backend/controllers/artworkController.js:3-24 | no file gives 400 `Image file is required`; success (201) exactly when a file, a requester and a valid body are present, and the artwork holds `/uploads/<filename>` and the requester as seller |
| `ArtworkController.CreateWithoutStatusFails` | backend/controllers/artworkController.js:9-19 | a body without a status never creates an artwork |
| `ArtworkController.AfterDelete` | backend/controllers/artworkController.js:37-41 | only an artwork matching both id and seller is removed; otherwise the table is unchanged; no other artwork is touched |
| `ArtworkController.Patched` | backend/controllers/artworkController.js:50-54 | the update body's fields replace the stored ones, the others are kept, `updatedAt` is stamped |
| `ArtworkController.AfterUpdate` | backend/controllers/artworkController.js:50-55 | only an artwork matching both id and seller is updated; otherwise the table is unchanged; every other artwork is untouched |
| `ArtworkController.OfSeller` | backend/controllers/artworkController.js:28 | keeps exactly the artworks of the given seller, in the same order |
| `ArtworkController.Listing` | backend/controllers/artworkController.js:63 | lists every stored artwork and nothing else, once each, in id order |
| `ArtworkController.ArtworkCollection.CreateArtwork` | backend/controllers/artworkController.js:3-24 | a created artwork is stored under a fresh id; a failure stores nothing |
| `ArtworkController.ArtworkCollection.GetMyArtworks` | backend/controllers/artworkController.js:26-33 | returns exactly the requester's artworks, once each, in id order |
| `ArtworkController.ArtworkCollection.GetAllArtworksPublic` | backend/controllers/artworkController.js:61-68 | returns every artwork, whatever its status or seller, once each, in id order |
| `ArtworkController.ArtworkCollection.DeleteArtwork` | backend/controllers/artworkController.js:35-46 | removes only the artwork matching id and requester; otherwise 404 and nothing changes |
| `ArtworkController.ArtworkCollection.UpdateArtwork` | backend/controllers/artworkController.js:48-60 | updates only the artwork matching id and requester and returns it; otherwise 404 and nothing changes |
| `ArtworkController.CreateThenDelete` | backend/controllers/artworkController.js:35-46 | deleting an artwork right after creating it restores the table |
| `ArtworkController.DeleteIdempotent` | backend/controllers/artworkController.js:37-41 | a second identical delete removes nothing more |
| `ArtworkController.UpdateIdempotent` | backend/controllers/artworkController.js:50-54 | repeating an update with the same body at the same instant changes nothing more (a later repeat only re-stamps `updatedAt`); after a body that moves the artwork to another seller, the repeat finds nothing to update |
| `ArtworkController.UpdateRestamps` | backend/controllers/artworkController.js:50-54 | repeating an owned update later, with a body that keeps the seller, changes only `updatedAt`, to the later time (`timestamps: true`) |
| `ArtworkController.UpdateBypassesSchema` | backend/controllers/artworkController.js:50-54 | an update can store a status outside the enum and can move the artwork to another seller, out of its first seller's reach |

## Left out

- HTTP plumbing: routing, `res.status(...).json(...)` and the `error` field of
  500 responses. A reply is a status with a message or payload. A thrown error's
  message (from the runtime or Mongoose) is represented by the error's class name.
- The 500 branches of `login` and `getAllArtworksPublic`, and the 500 branch of
  `deleteArtwork`/`updateArtwork` for an id that is not a valid ObjectId. Ids are
  natural numbers, and the database is an in-memory table that cannot fail.
- `getProfile` in the auth controller: it is not among the modelled handlers.
- bcrypt and JWT: the cryptography, the salt, the cost factor, the secret and the
  one-day expiry. A digest remembers the key bytes bcrypt reads, a token its
  claims, and `jwt.verify` is a parameter. The bcryptjs library is not part of
  this model: the key-byte rule (UTF-8, a zero byte, cyclic up to 72 bytes) is
  that of bcrypt's key schedule. Strings are sequences of Unicode scalar values,
  so a JavaScript string holding a lone surrogate has no counterpart here.
- Floating point: amounts and prices are whole numbers, not JavaScript Numbers.
- Dates: an instant is a (year, month, offset within the month) triple in UTC.
  `setMonth` overflow of the day of the month is not modelled. The cutoff is
  computed with the server's local-time `getMonth`/`setMonth`, whereas the
  model computes it in UTC, so on a server outside UTC the real cutoff is
  shifted by the local offset.
- AdminController.GetDashboardStats: requires a time at least six months after
  year 0, because calendar years are natural numbers here.
- MongoDB's order of `$group` output and of ties after `$sort`: the model fixes one
  order (an insertion sort over the grouped keys). No lemma depends on it.
- Request-body typing: the text fields of the signup and login bodies and of the
  artwork create and update bodies are present strings, and `price` is a number or
  absent. Other JSON values are not modelled: an object `username` would act as a
  query operator in `findOne`, a missing login `password` makes `bcrypt.compare`
  throw (500), and a non-numeric `price` is a cast error (500).
- `parseInt`: only part of the Unicode space separators are skipped, and numerals
  beyond 2^53 are exact rather than rounded.
- Concurrency: the check-then-insert of `signup` and `createAdminUser` runs
  atomically here. Two concurrent signups racing on a username are not modelled;
  the unique index makes the second fail with 500 in either case.
- The Order schema is modelled as a record and a validity predicate. The order
  and payment controllers that create orders are not part of this model.
- Console logging of `createAdminUser` is a log value, not output.

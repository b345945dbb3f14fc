# Meet-app backend controllers in Dafny

A model of the record logic in the four Express controllers of the Meet-app backend:

- vendors: login, one-time shop ("shaller") creation, partial shop update, deletion;
- admins: login, vendor creation with the embedded vendor list, the admin review overlay on a shop;
- users: the OTP send/verify state machine, the live location, personal information;
- the catalogue: categories, embedded sub-categories and items.

Each handler is a pure function from a database and a request to a `Reply`: a status
(`Ok` with a response body, or `Fail` with one of the error kinds) and the database after the
handler. The database holds one collection per Mongoose model. A collection is a sequence of
documents in natural order, so a lookup by a non-unique key returns the first match, as
`findOne` without a sort does.

The schema setters that change stored values are modelled where records are written or
queried:

- the vendor login e-mail is lower-cased and trimmed, and its password is trimmed;
- an admin's embedded vendor entry has its name trimmed and its e-mail lower-cased;
- the e-mail of an admin-login query is lower-cased.

Required schema paths are modelled where a handler can leave one empty. The save then throws,
and the handler answers 500 (`StoreRejected`). The same happens when the `2dsphere` index on
user locations refuses a point whose longitude is outside [-180, 180] or whose latitude is
outside [-90, 90].

A new shop carries the review history the schema builds for it: no review, rating or editing
admin yet, but an `editedAt` stamped with the creation time by its `Date.now` default.

Vendor creation has a bug in its duplicate check (see "## Findings"). The controller module
`Admins` models both the check as written and the corrected one. The request dispatcher in
`app.dfy`, and every invariant proved over it, uses the corrected one.

Files:

- `common.dfy`: `Option`, JavaScript truthiness, `a || b`.
- `text.dfy`: `trim`, ASCII `toLowerCase`, quote stripping, character removal, `split`/`join`.
- `store.dfy`: documents, first-match lookup, `findById`, save, insert, delete.
- `records.dfy`: the model datatypes and their required paths.
- `http.dfy`: error kinds, uploads, collaborators, response bodies.
- `vendors.dfy`, `admins.dfy`, `users.dfy`, `catalog.dfy`: one module per controller.
- `app.dfy`: all routes as one request type. It also states the database invariants and proves that every request preserves them.

Where the code and its design description differ, the model follows the code:

- Shop coordinates fall back to `[0, 0]` only when the field is absent or cleans to the empty string. `parseFloat` never throws, so the `catch` never fires. A malformed string such as `"abc"` becomes a single component.
- `isProfileComplete` is not a path of the vendor login schema, so strict mode drops it on save. The create response still reports it as `true`. Nothing stores it.
- Updating a vendor that has no shop installs an empty shop object. That object lacks the required name, address and vendor id, so the save throws: such an update always fails.
- `updateLocationById` behaves exactly like `saveLocation`. Both take the user id from the body.

## Model

| member | source | states |
|---|---|---|
| Text.Clean | controllers/vendorController.js:52-56 | the cleaned field is the trim of the field with at most one leading and one trailing quote removed |
| Text.StripQuotesUnwraps | controllers/vendorController.js:52 | one quote character at each end is removed, whatever lies between |
| Text.StripQuotesKeepsUnquoted | controllers/vendorController.js:52 | a field that neither starts nor ends with a quote is left as it is |
| Text.CleanUnwraps | controllers/vendorController.js:52-56 | cleaning a quoted field gives the trimmed contents of the quotes |
| Text.CleanOneLayer | controllers/vendorController.js:53 | only one quote per end goes: a value wrapped in two layers of quotes keeps the inner layer |
| Text.CleanKeepsInnerQuotes | controllers/vendorController.js:53 | quotes behind a leading and a trailing space survive, because quotes are stripped before trimming |
| Text.Trim | controllers/vendorController.js:11 | the result is the input without its leading and trailing whitespace, and such a result is unique |
| Text.TrimIdempotent | models/vendorModel.js:29 | trimming twice is trimming once, so the stored password is stable under re-saving |
| Text.NormalEmailIdempotent | models/vendorModel.js:28 | the login e-mail normalisation is idempotent, so a stored e-mail looks itself up |
| Text.TrimLowerCommute | controllers/vendorController.js:11 | lower-casing then trimming equals trimming then lower-casing |
| Text.WithoutMembers | controllers/vendorController.js:107 | removing a set of characters keeps exactly the other characters |
| Text.JoinSplit | controllers/vendorController.js:108 | joining the comma-split pieces with commas gives the string back |
| Text.SplitCount | controllers/vendorController.js:108 | `split` yields one more piece than there are separators |
| Text.SplitJoin | controllers/vendorController.js:108 | splitting a join of separator-free pieces gives the pieces back |
| Vendors.VendorLogin | controllers/vendorController.js:7-19 | a missing field gives 400; the e-mail is normalised before the lookup; an unknown e-mail and a wrong plain-text password give the same 401; the session echoes the stored record |
| Vendors.CleanField | controllers/vendorController.js:52-56 | only a present, non-empty field is cleaned |
| Vendors.ParseCoordinates | controllers/vendorController.js:107-108 | one number per comma-separated piece of the text with brackets and quotes removed, each piece trimmed before parsing |
| Vendors.CoordinateShape | controllers/vendorController.js:107-108 | the component count is the number of commas plus one; the pieces hold no comma, bracket or quote; joined back they give the cleaned text |
| Vendors.NoCommaOneComponent | controllers/vendorController.js:103-112 | a string without a comma is one component, never the `[0, 0]` default |
| Vendors.PairComponents | controllers/vendorController.js:107-108 | a bracketed pair `[a,b]` gives exactly the two parsed, trimmed numbers |
| Vendors.BracketedPair | controllers/vendorController.js:107-108 | `"[12.9,  77.6]"` gives the two parsed numbers `12.9` and `77.6` |
| Vendors.ShopCoordinates | controllers/vendorController.js:103-113 | `[0, 0]` exactly when the cleaned field is absent or empty, otherwise the parsed components |
| Vendors.NewShop | controllers/vendorController.js:116-129 | cleaned name and address; an absent description becomes `""`; absent rating and review become 0; rating and review are parsed after quote removal; the vendor id is the one given; there is no admin overlay, and the review history holds only the creation time its `editedAt` default stamps; the shop passes validation |
| Vendors.CreateVendorWithShaller | controllers/vendorController.js:52-133 | checks run in order: cleaned required fields, then vendor lookup, then the create-once rule, then the upload; any refusal writes nothing; success replaces only that vendor's shop and reports the profile as complete |
| Vendors.CreateOnce | controllers/vendorController.js:77-83 | after a successful creation, any further creation for that vendor is refused with a conflict and changes nothing |
| Vendors.ApplyShopUpdate | controllers/vendorController.js:221-244 | each truthy field overwrites, every other field keeps its value, and the admin overlay and vendor id are untouched |
| Vendors.UpdateVendorById | controllers/vendorController.js:204-248 | an unknown id gives 404; an upload error gives 500; a vendor without a shop cannot be saved; otherwise only that vendor changes |
| Vendors.UpdateIdempotent | controllers/vendorController.js:219-248 | repeating an update without a new image changes nothing more |
| Vendors.DeleteVendorById | controllers/vendorController.js:266-271 | an unknown id gives 404; otherwise only that vendor's login record is removed, and the admins' entries stay |
| Admins.AdminLogin | controllers/admin.js:10-24 | succeeds if and only if all fields are present, an admin has the lower-cased e-mail, the password matches, and the stored name equals the trimmed name; every refusal is 400 or 401; nothing is written |
| Admins.StoredEntry | models/admin.js:4-7 | the embedded entry keeps the trimmed name, the lower-cased e-mail, and the phone number and password as given |
| Admins.StoredLogin | models/vendorModel.js:28-30 | the login record has the normalised e-mail, the trimmed password, the admin id and no shop |
| Admins.RecordVendor | controllers/admin.js:59-66 | appends exactly one entry and then creates one login record; a trimmed-empty name rejects the first save; an e-mail or password that trims to nothing rejects the second save after the first has happened |
| Admins.CreateVendorAsWritten | controllers/admin.js:46-66 | the vendor creation as written: missing field, unknown admin, then an exact-match duplicate check against the stored (lower-cased) entries |
| Admins.CreateVendor | controllers/admin.js:46-66 | the same creation with the duplicate check on the lower-cased e-mail; a refusal writes nothing except the half-done creation; users and catalogue never change |
| Admins.AsWrittenListsTwice | controllers/admin.js:55-61 | when the e-mail differs from a listed one only in case, the as-written check accepts it and the admin then lists the lower-cased e-mail twice |
| Admins.CorrectionChangesOnlyCaseVariants | controllers/admin.js:55 | the corrected and the as-written creation give different replies if and only if the request is complete, the admin exists, and the e-mail as given and its lower-cased form disagree on being listed |
| Admins.CaseVariantSlipsThrough | controllers/admin.js:55 | when the e-mail differs from a listed one only in case, the as-written check lets it through and the corrected check refuses it |
| Admins.DuplicateSlipsThrough | controllers/admin.js:55 | with entry `a` listed, e-mail `A` passes the as-written check, and the admin then lists `a` twice |
| Admins.CreateVendorKeepsEmailsDistinct | controllers/admin.js:55-61 | with the corrected check, every admin's entry e-mails stay pairwise distinct |
| Admins.CreatedVendorCanLogIn | controllers/admin.js:64 | a created vendor can log in with its e-mail in any case and its password, given that the password has no outer whitespace and no earlier record has that e-mail |
| Admins.PaddedPasswordRefused | controllers/vendorController.js:17 | a vendor created with a password that has outer whitespace is refused when it logs in with that same password, because the stored copy is trimmed and the login compares the raw password |
| Admins.HalfWrittenVendor | controllers/admin.js:59-64 | a whitespace-only e-mail leaves a listed entry with no login record, and the request fails |
| Admins.Overlay | controllers/admin.js:99-107 | replaces the review history wholesale with the admin as editor and sets the last editor; every other shop field is unchanged |
| Admins.OverlayLatestWins | controllers/admin.js:99-107 | two overlays in a row leave only the second |
| Admins.AddOrEditVendorReview | controllers/admin.js:78-121 | checks run in order: fields, admin, vendor, shop; success overlays only that vendor's shop and reports the shop's own review and rating |
| Admins.ReviewKeepsVendorFields | controllers/admin.js:98-121 | a review never changes the shop's name, address, description, own review, own rating, image or location |
| Users.OtpExpiry | controllers/userController.js:20 | the stored expiry is now plus the configured minutes in milliseconds, truncated toward zero; there is no valid date when the minutes are not a number or the instant lies more than 8.64e15 ms from the epoch |
| Users.WholeMillisExpiry | controllers/userController.js:20 | a lifetime of a whole number of milliseconds moves the expiry by exactly that much |
| Users.HalfMinuteExpiry | controllers/userController.js:7-20 | a configured half minute gives an OTP that lasts 30 000 ms |
| Users.SendOtp | controllers/userController.js:14-21 | a missing number gives 400; configured minutes that give no valid date make the save fail with 500 and nothing is written; otherwise the first user with the number gets the fixed code and the expiry, or else a new user with the schema defaults (unverified, location `[0, 0]`, no personal information, no addresses) is appended with them; nobody else changes |
| Users.VerifyOtp | controllers/userController.js:34-51 | checks run in order: fields, token, user, code, then expiry (strictly later means expired); only success writes, and it only sets the verified flag |
| Users.SendThenVerify | controllers/userController.js:11-51 | sending and then presenting the code within its lifetime verifies the user that received it |
| Users.NegativeLifetimeExpired | controllers/userController.js:20-48 | with negative configured minutes the OTP is already expired when sent: the right code with a valid token is refused as expired and nothing changes |
| Users.WrongOtpBeforeExpiry | controllers/userController.js:47-48 | a wrong code is reported as wrong even after expiry, and nothing changes |
| Users.SaveLocation | controllers/userController.js:98-110 | a missing user id, latitude or longitude gives 400, but 0 is accepted; an unknown user gives 404; a point off the sphere is refused by the location index with a 500 and nothing is written; otherwise the location becomes `[longitude, latitude]` and nothing else changes |
| Users.DeleteLocationById | controllers/userController.js:150-154 | an unknown user gives 404; otherwise only that user's location is cleared |
| Users.SaveAfterDelete | controllers/userController.js:105-106 | saving a location after deleting it gives the same status as saving it directly, and the same user when the point is on the sphere; off the sphere the deletion stands |
| Users.MergeInfo | controllers/userController.js:181-195 | a truthy field replaces the stored one; an empty field keeps it; the image is the new upload or else the stored image |
| Users.MergeInfoIdempotent | controllers/userController.js:181-195 | re-sending the same fields without an image changes nothing further |
| Users.CreateOrUpdatePersonalInfo | controllers/userController.js:176-197 | a missing number gives 400; an unknown or unverified user is refused; otherwise only that user's personal information is replaced by the merge |
| Users.UpdatePersonalInfoById | controllers/userController.js:236-255 | the same write for the user found by id; an unknown or unverified user is refused |
| Users.PersonalInfoByMobileOrId | controllers/userController.js:173-260 | with unique ids, both personal-information handlers have the same effect on the same user |
| Users.DeletePersonalInfoById | controllers/userController.js:265-269 | an unknown user gives 404; otherwise only that user's personal information is cleared |
| Catalog.CreateCategory | controllers/categoryController.js:9-23 | a missing title or content gives 400; success appends one category with no sub-categories, and that category passes validation |
| Catalog.UpdateCategoryById | controllers/categoryController.js:58-75 | an unknown id gives 404; truthy fields overwrite; the image changes only with an upload; the sub-categories and other categories stay |
| Catalog.DeleteCategoryById | controllers/categoryController.js:86-89 | removes only that category; items referring to its sub-categories stay |
| Catalog.CreateSubCategory | controllers/categoryController.js:109-126 | checks run in order: title, then upload, then category; success appends exactly one sub-category pointing at its category |
| Catalog.GetSubCategoryById | controllers/categoryController.js:154-160 | 404 unless both the category and the sub-category exist; nothing is written |
| Catalog.CreatedSubCategoryReadable | controllers/categoryController.js:121-160 | a created sub-category can be read back under its new id |
| Catalog.UpdateSubCategoryById | controllers/categoryController.js:172-189 | 404 for an unknown category or sub-category; a truthy title and an upload overwrite; only that sub-category changes |
| Catalog.DeleteSubCategoryById | controllers/categoryController.js:201-208 | succeeds if and only if both ids resolve; success removes only that sub-category |
| Catalog.DeletedSubCategoryGone | controllers/categoryController.js:204-208 | after a deletion the sub-category reads as 404, and every other sub-category reads as before |
| Catalog.CreateItem | controllers/categoryController.js:225-247 | a missing name, weight or cost gives 400; success appends one item; the sub-category's existence is not checked |
| Catalog.ItemsOfComplete | controllers/categoryController.js:258 | the item list for a sub-category holds exactly the stored items that refer to it |
| Catalog.GetItemsBySubCategory | controllers/categoryController.js:257-259 | never fails, and every listed item refers to the sub-category |
| Catalog.CreatedItemListed | controllers/categoryController.js:239-258 | a created item is listed under its sub-category |
| Catalog.UpdateItemById | controllers/categoryController.js:283-301 | an unknown id gives 404; truthy fields overwrite; the image changes only with an upload; the sub-category link stays |
| Catalog.UpdateItemIdempotent | controllers/categoryController.js:296-299 | repeating an item update without an image changes nothing more |
| Catalog.DeleteItemById | controllers/categoryController.js:312-315 | an unknown id gives 404; otherwise only that item is removed |
| App.Handle | controllers/admin.js:59-64 | every refusal of every route leaves the database as it was, except a vendor creation rejected between its two saves; vendor creation is routed to the corrected duplicate check |
| App.HandleKeepsWellFormed | models/vendorModel.js:27-32 | every request keeps the invariants: unique ids, including the embedded sub-categories' ids within each category; records pass validation; a shop names its own vendor; every stored user location is a point the location index accepts; admin entry e-mails are distinct (with the corrected duplicate check; the check as written breaks this); user mobile numbers are unique |
| App.AppendEntryKeeps | models/admin.js:3-8 | appending an entry with an unlisted e-mail keeps the admin valid and its e-mails distinct |
| App.SendOtpKeeps | controllers/userController.js:16-21 | sending an OTP never creates a second user with the same mobile number |
| App.VerifiedStaysVerified | controllers/userController.js:50-51 | no request un-verifies or removes a verified user |
| App.ShopsStay | controllers/vendorController.js:77-83 | a named shop, once created, keeps a non-empty name through every request except deleting its vendor |

## Left out

- The read-only handlers other than the sub-category get and the item list: they only pass stored data through.
- `updateWorkingStatus`: the vendor routes refer to it, but the controller does not define it.
- Address handlers: the controllers have none. Addresses exist only as a field of the user record.
- Unique indexes: the database's unique indexes on user mobile numbers and admin entry e-mails are not modelled as rejections. The mobile-number uniqueness appears as an invariant that `sendOtp` maintains.
- Malformed ids and numbers: a path parameter that is not a valid ObjectId, and a number field that casts to NaN, both end in a 500 from the database driver. Ids are plain non-empty strings here.
- Non-string JSON values (for example a numeric `otp`): every body field is text or absent, except latitude and longitude, which are numbers or absent (a numeric string stands for its number). A JSON `null` latitude or longitude passes the presence check and makes the save fail with 500; that input is not modelled.
- Users.OtpExpiry: the configured minutes are a real number, so the rounding of the floating-point product `minutes * 60 * 1000` is not modelled.
- Tokens: signing the JWT in `sendOtp` and `verifyOtp` is left out. Token verification is a collaborator that yields the mobile number or fails.
- bcrypt, `parseFloat` and `parseInt`: these are uninterpreted collaborators.
- Cloudinary uploads: an upload is either a URL or an error.
- The clock: time is a parameter.
- Schema defaults re-applied when a document is loaded: for example, a deleted location reads back as the `[0, 0]` default. The model keeps the value as the handler left it.
- Subdocument removal: the behaviour of subdocument `remove()` in different Mongoose versions is taken to be removal from the list.
- Concurrency and partial failure of the database: handlers run one at a time, and every save either succeeds or is rejected by validation.
- Location `updatedAt`: `updateLocationById` assigns a location object that also carries an `updatedAt` date, but the location path declares only `type` and `coordinates` (models/userModel.js:27-30), so strict mode drops it and nothing of it is stored; the model stores only the coordinates.
- App.Handle: vendor creation is routed to the corrected duplicate check, so on an e-mail that differs from a listed one only in case the dispatcher answers 400 (`Conflict`) where the controller as written answers 201. `Admins.CreateVendorAsWritten` models the controller as written, and `Admins.CorrectionChangesOnlyCaseVariants` states exactly where the two differ.
- App.HandleKeepsWellFormed: the distinct-e-mail conjunct of the invariant holds only for the corrected check; `Admins.AsWrittenListsTwice` shows the check as written breaking it.
- Schema timestamps: the `createdAt` and `updatedAt` paths that `timestamps: true` adds to the admin entry and admin schemas (models/admin.js:8, 15), the sub-category and category schemas (models/categoryModel.js:8, 16) and the shop and vendor schemas (models/vendorModel.js:25, 32) are not part of the model; none of the four controllers reads them. The user, personal-information, address and item schemas have none.
- Text.Lower: only the ASCII letters are lower-cased. Unicode case mapping is not modelled, so e-mails with non-ASCII capitals compare differently than in JavaScript.

## Findings

| source | as written | input that shows it | evidently intended | confidence | as-written member | corrected member |
|---|---|---|---|---|---|---|
| controllers/admin.js:55 | the duplicate check compares the request e-mail as given with stored entry e-mails, which the schema has lower-cased | an admin listing `a` receives a creation with e-mail `A` | compare the lower-cased e-mail, so each admin lists every vendor e-mail once | not executed | Admins.CreateVendorAsWritten | Admins.CreateVendor |

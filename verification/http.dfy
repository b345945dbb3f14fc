/** What a handler sees besides the database (request collaborators) and what it answers. */
module Http {
  import opened Common
  import opened Store
  import opened Records

  /** Every error response the handlers send. */
  datatype Failure =
    | MissingField   // 400: a required request field is absent or empty
    | Unauthorized   // 401: login refused, with one message for every reason
    | NotFound       // 404: an id or key that resolves to no document
    | Conflict       // 400: the shop or the vendor e-mail already exists
    | NoShop         // 400: the vendor has no shop yet
    | NotVerified    // 400: the user is unknown or has not verified the OTP
    | WrongOtp       // 400
    | OtpExpired     // 400
    | BadToken       // 401: the token does not verify
    | UploadFailed   // 500: the image upload threw
    | StoreRejected  // 500: the save threw: a required path was empty or an index refused the document

  function StatusCode(f: Failure): (code: nat)
    ensures 400 <= code <= 500
    ensures code == 404 <==> f == NotFound
    ensures code == 401 <==> f == Unauthorized || f == BadToken
  {
    match f
    case Unauthorized | BadToken => 401
    case NotFound => 404
    case UploadFailed | StoreRejected => 500
    case _ => 400
  }

  /** The optional multipart image: none, stored at a URL, or an upload that threw. */
  datatype Upload = NoFile | Uploaded(url: string) | UploadError

  /** Collaborators the handlers call but whose behaviour lies outside the model. */
  datatype Env = Env(
    parseFloat: string -> Number,
    parseInt: string -> Number,
    passwordMatches: (string, string) -> bool,  // bcrypt.compare(plain, hash)
    tokenMobile: string -> Option<string>,      // jwt.verify(token).mobileNumber, None when it throws
    otpExpiryMinutes: Option<Number>)           // OTP_EXPIRY_MINUTES as a number, 1 unless configured;
                                                // None when it is not a finite number

  /** The `data` of a successful response. */
  datatype Body =
    | Done
    | VendorSession(vendorId: Id, email: string, adminId: Id, shop: Option<Shop>)
    | ShopCreated(vendorId: Id, email: string, adminId: Id, isProfileComplete: bool, createdShop: Shop)
    | VendorData(vendorId: Id, vendor: Vendor)
    | AdminSession(adminId: Id, adminName: string, email: string, vendors: seq<VendorEntry>)
    | VendorCreated(entry: VendorEntry)
    | ReviewView(
        vendorId: Id,
        shopName: string,
        vendorReview: Number,
        vendorRating: Number,
        adminReviewHistory: ReviewHistory,
        lastEditedByAdmin: Id)
    | OtpSent(otp: string)
    | OtpVerified(userId: Id)
    | LocationSaved(coordinates: seq<Number>)
    | PersonalInfoSaved(info: PersonalInfo)
    | CategoryData(categoryId: Id, category: Category)
    | SubCategoryCreated(subCategory: SubCategory)
    | SubCategoryData(subCategoryDoc: Doc<SubCategory>)
    | ItemData(itemId: Id, item: Item)
    | ItemList(items: seq<Doc<Item>>)

  datatype Status = Ok(body: Body) | Fail(failure: Failure)

  /** A handler's answer together with the database it leaves behind. */
  datatype Reply = Reply(status: Status, db: Db)

  /** A body field used as an id once it has passed the `!field` check. */
  function BodyId(f: Option<string>): (r: Option<Id>)
    ensures r.Some? <==> Truthy(f)
    ensures r.Some? ==> r.value == f.value
  {
    if Truthy(f) then Some(f.value) else None
  }
}

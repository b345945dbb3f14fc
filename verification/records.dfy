/** The documents of the four Mongoose models, and the paths each model marks `required`. */
module Records {
  import opened Common
  import opened Store

  /** The admin-written side channel on a shop (`reviewHistory`). Every shop has one: the
      schema's default stamps `editedAt` when the shop is built, and only an admin review fills
      in the other three fields. */
  datatype ReviewHistory = ReviewHistory(review: Option<Number>, rating: Option<Number>, editedBy: Option<Id>, editedAt: nat)

  /** A vendor's shop ("shaller"). Its `location` is always a GeoJSON `Point`, so only the
      coordinate list is kept. */
  datatype Shop = Shop(
    shopName: string,
    address: string,
    description: string,
    rating: Number,
    review: Number,
    image: string,
    coordinates: seq<Number>,
    vendorId: Id,
    lastEditedByAdmin: Option<Id>,
    reviewHistory: ReviewHistory)

  /** A vendor login record, owning at most one shop. */
  datatype Vendor = Vendor(email: string, password: string, adminId: Id, shop: Option<Shop>)

  /** An entry of an admin's embedded vendor list. */
  datatype VendorEntry = VendorEntry(name: string, email: string, phoneNumber: string, password: string)

  datatype Admin = Admin(adminName: string, email: string, password: string, vendors: seq<VendorEntry>)

  datatype PersonalInfo = PersonalInfo(fullName: Option<string>, email: Option<string>, image: string)

  datatype Address = Address(
    street: string,
    city: string,
    state: string,
    country: string,
    postalCode: string,
    addressType: string,
    lat: Option<Number>,
    lng: Option<Number>,
    fullAddress: Option<string>)

  /** An end user; `location` holds `[longitude, latitude]` and `otpExpiresAt` is a time value
      in milliseconds since the epoch. */
  datatype User = User(
    mobileNumber: string,
    otp: Option<string>,
    otpExpiresAt: Option<int>,
    isVerified: bool,
    location: Option<seq<Number>>,
    personalInfo: Option<PersonalInfo>,
    addresses: seq<Address>)

  datatype SubCategory = SubCategory(title: string, image: string, category: Id)

  /** A category embeds its sub-categories, each with its own id. */
  datatype Category = Category(title: string, content: string, image: string, subCategories: seq<Doc<SubCategory>>)

  /** An item refers to a sub-category by id only. */
  datatype Item = Item(subCategoryId: Id, name: string, weight: string, cost: string, image: string)

  /** The whole database: one collection per model. */
  datatype Db = Db(
    admins: seq<Doc<Admin>>,
    vendors: seq<Doc<Vendor>>,
    users: seq<Doc<User>>,
    categories: seq<Doc<Category>>,
    items: seq<Doc<Item>>)

  /** A user as `new User({ mobileNumber })` builds it from the schema defaults. */
  function NewUser(mobileNumber: string): (u: User)
    ensures u.mobileNumber == mobileNumber && !u.isVerified
    ensures u.location == Some([0.0, 0.0])
    ensures u.otp.None? && u.personalInfo.None? && u.addresses == []
  {
    User(mobileNumber, None, None, false, Some([0.0, 0.0]), None, [])
  }

  // ---------------------------------------------------------------------------
  // Required paths: a save whose document leaves one of these empty is rejected.
  // (A `required` string path rejects the empty string as well as a missing value.)
  // ---------------------------------------------------------------------------

  predicate ShopSavable(s: Shop)
  {
    s.shopName != "" && s.address != ""
  }

  predicate VendorSavable(v: Vendor)
  {
    v.email != "" && v.password != "" && (v.shop.Some? ==> ShopSavable(v.shop.value))
  }

  predicate EntrySavable(e: VendorEntry)
  {
    e.name != "" && e.email != "" && e.phoneNumber != "" && e.password != ""
  }

  predicate AdminSavable(a: Admin)
  {
    && a.adminName != "" && a.email != "" && a.password != ""
    && forall j | 0 <= j < |a.vendors| :: EntrySavable(a.vendors[j])
  }

  predicate UserSavable(u: User)
  {
    u.mobileNumber != "" && LocationIndexable(u.location)
  }

  predicate CategorySavable(c: Category)
  {
    && c.title != "" && c.content != ""
    && forall j | 0 <= j < |c.subCategories| :: c.subCategories[j].val.title != ""
  }

  predicate ItemSavable(i: Item)
  {
    i.name != "" && i.weight != "" && i.cost != ""
  }

  // ---------------------------------------------------------------------------
  // The `2dsphere` index on user locations: a save whose location is a point off the sphere
  // is rejected. A user without a location is not indexed.
  // ---------------------------------------------------------------------------

  /** A GeoJSON point the index accepts: longitude within [-180, 180], latitude within [-90, 90]. */
  predicate OnSphere(longitude: Number, latitude: Number)
  {
    -180.0 <= longitude <= 180.0 && -90.0 <= latitude <= 90.0
  }

  predicate LocationIndexable(location: Option<seq<Number>>)
  {
    location.None? || (|location.value| == 2 && OnSphere(location.value[0], location.value[1]))
  }
}

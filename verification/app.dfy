/** All routes as one request type, the invariants a stored database satisfies, and the
    properties every request keeps. Vendor creation is routed to the corrected duplicate check
    (`Admins.CreateVendor`), not to the check as written in the admin controller; the two
    differ only on an e-mail whose case differs from a listed one
    (`Admins.CorrectionChangesOnlyCaseVariants`), and the distinct-e-mail invariant below holds
    for the corrected check only (`Admins.AsWrittenListsTwice`). */
module App {
  import opened Common
  import opened Text
  import opened Store
  import opened Records
  import opened Http
  import Vendors
  import Admins
  import Users
  import Catalog

  /** The routes of the vendor controller. */
  datatype VendorRoute =
    | VendorLogin(email: Option<string>, password: Option<string>)
    | CreateShop(form: Vendors.ShopForm, file: Upload)
    | UpdateVendor(id: Id, update: Vendors.ShopUpdate, file: Upload)
    | DeleteVendor(id: Id)

  /** The routes of the admin controller. */
  datatype AdminRoute =
    | AdminLogin(adminName: Option<string>, email: Option<string>, password: Option<string>)
    | CreateVendor(newVendor: Admins.NewVendor)
    | ReviewVendor(review: Admins.ReviewRequest)

  /** The routes of the user controller; `updateLocationById` has its own route but the same
      handler behaviour as `saveLocation`. */
  datatype UserRoute =
    | SendOtp(mobile: Option<string>)
    | VerifyOtp(otp: Option<string>, token: Option<string>)
    | SaveLocation(userId: Option<string>, latitude: Option<Number>, longitude: Option<Number>)
    | UpdateLocation(userId: Option<string>, latitude: Option<Number>, longitude: Option<Number>)
    | DeleteLocation(id: Id)
    | SavePersonalInfo(mobile: Option<string>, fullName: Option<string>, infoEmail: Option<string>, file: Upload)
    | UpdatePersonalInfo(id: Id, fullName: Option<string>, infoEmail: Option<string>, file: Upload)
    | DeletePersonalInfo(id: Id)

  /** The routes of the category controller. */
  datatype CategoryRoute =
    | CreateCategory(title: Option<string>, content: Option<string>, file: Upload)
    | UpdateCategory(id: Id, title: Option<string>, content: Option<string>, file: Upload)
    | DeleteCategory(id: Id)
    | CreateSubCategory(categoryId: Id, title: Option<string>, file: Upload)
    | GetSubCategory(categoryId: Id, subId: Id)
    | UpdateSubCategory(categoryId: Id, subId: Id, title: Option<string>, file: Upload)
    | DeleteSubCategory(categoryId: Id, subId: Id)
    | CreateItem(subCategoryId: Id, itemForm: Catalog.ItemForm, file: Upload)
    | ListItems(subCategoryId: Id)
    | UpdateItem(id: Id, itemForm: Catalog.ItemForm, file: Upload)
    | DeleteItem(id: Id)

  /** A request to any of the four controllers. Path parameters are never empty. */
  datatype Request =
    | ToVendors(vendorRoute: VendorRoute)
    | ToAdmins(adminRoute: AdminRoute)
    | ToUsers(userRoute: UserRoute)
    | ToCatalog(categoryRoute: CategoryRoute)

  /** A newly generated id is used nowhere yet. */
  predicate Fresh(db: Db, id: Id)
  {
    && id !in Ids(db.admins) && id !in Ids(db.vendors) && id !in Ids(db.users)
    && id !in Ids(db.categories) && id !in Ids(db.items)
    && Catalog.FreshSubId(db, id)
  }

  /** Every refusal of the vendor controller leaves the database as it was, and only the
      vendors change. */
  function HandleVendor(env: Env, db: Db, req: VendorRoute, now: nat): (r: Reply)
    ensures r.status.Fail? ==> r.db == db
    ensures r.db == db.(vendors := r.db.vendors)
  {
    match req
    case VendorLogin(email, password) => Vendors.VendorLogin(db, email, password)
    case CreateShop(form, file) => Vendors.CreateVendorWithShaller(env, db, form, file, now)
    case UpdateVendor(id, update, file) => Vendors.UpdateVendorById(env, db, id, update, file)
    case DeleteVendor(id) => Vendors.DeleteVendorById(db, id)
  }

  /** Every refusal of the admin controller leaves the database as it was, except that a
      vendor creation the store rejects half-way keeps the admin's new entry. Users and the
      catalog never change. Vendor creation uses the corrected duplicate check. */
  function HandleAdmin(env: Env, db: Db, req: AdminRoute, now: nat, freshId: Id): (r: Reply)
    requires freshId !in Ids(db.vendors)
    ensures r.status.Fail? ==>
      r.db == db || (req.CreateVendor? && r.status.failure == StoreRejected && r.db == db.(admins := r.db.admins))
    ensures r.db.users == db.users && r.db.categories == db.categories && r.db.items == db.items
  {
    match req
    case AdminLogin(name, email, password) => Admins.AdminLogin(env, db, name, email, password)
    case CreateVendor(nv) => Admins.CreateVendor(db, nv, freshId)
    case ReviewVendor(rq) => Admins.AddOrEditVendorReview(env, db, rq, now)
  }

  /** Every refusal of the user controller leaves the database as it was, and only the users
      change. */
  function HandleUser(env: Env, db: Db, req: UserRoute, now: nat, freshId: Id): (r: Reply)
    requires freshId !in Ids(db.users)
    ensures r.status.Fail? ==> r.db == db
    ensures r.db == db.(users := r.db.users)
  {
    match req
    case SendOtp(mobile) => Users.SendOtp(env, db, mobile, now, freshId)
    case VerifyOtp(otp, token) => Users.VerifyOtp(env, db, otp, token, now)
    case SaveLocation(userId, lat, lng) => Users.SaveLocation(db, userId, lat, lng)
    case UpdateLocation(userId, lat, lng) => Users.SaveLocation(db, userId, lat, lng)
    case DeleteLocation(id) => Users.DeleteLocationById(db, id)
    case SavePersonalInfo(mobile, fullName, email, file) =>
      Users.CreateOrUpdatePersonalInfo(db, mobile, fullName, email, file)
    case UpdatePersonalInfo(id, fullName, email, file) => Users.UpdatePersonalInfoById(db, id, fullName, email, file)
    case DeletePersonalInfo(id) => Users.DeletePersonalInfoById(db, id)
  }

  /** Every refusal of the category controller leaves the database as it was, and only
      categories and items change. */
  function HandleCategory(db: Db, req: CategoryRoute, freshId: Id): (r: Reply)
    requires freshId !in Ids(db.categories) && freshId !in Ids(db.items) && Catalog.FreshSubId(db, freshId)
    ensures r.status.Fail? ==> r.db == db
    ensures r.db.admins == db.admins && r.db.vendors == db.vendors && r.db.users == db.users
  {
    match req
    case CreateCategory(title, content, file) => Catalog.CreateCategory(db, title, content, file, freshId)
    case UpdateCategory(id, title, content, file) => Catalog.UpdateCategoryById(db, id, title, content, file)
    case DeleteCategory(id) => Catalog.DeleteCategoryById(db, id)
    case CreateSubCategory(cid, title, file) => Catalog.CreateSubCategory(db, cid, title, file, freshId)
    case GetSubCategory(cid, sid) => Catalog.GetSubCategoryById(db, cid, sid)
    case UpdateSubCategory(cid, sid, title, file) => Catalog.UpdateSubCategoryById(db, cid, sid, title, file)
    case DeleteSubCategory(cid, sid) => Catalog.DeleteSubCategoryById(db, cid, sid)
    case CreateItem(sid, form, file) => Catalog.CreateItem(db, sid, form, file, freshId)
    case ListItems(sid) => Catalog.GetItemsBySubCategory(db, sid)
    case UpdateItem(id, form, file) => Catalog.UpdateItemById(db, id, form, file)
    case DeleteItem(id) => Catalog.DeleteItemById(db, id)
  }

  /** Route a request to its controller. `now` is the clock and `freshId` the id a create
      would generate. */
  function Handle(env: Env, db: Db, req: Request, now: nat, freshId: Id): (r: Reply)
    requires Fresh(db, freshId)
    ensures r.status.Fail? ==>
      || r.db == db
      || (req.ToAdmins? && req.adminRoute.CreateVendor? && r.status.failure == StoreRejected
          && r.db == db.(admins := r.db.admins))
  {
    match req
    case ToVendors(v) => HandleVendor(env, db, v, now)
    case ToAdmins(a) => HandleAdmin(env, db, a, now, freshId)
    case ToUsers(u) => HandleUser(env, db, u, now, freshId)
    case ToCatalog(c) => HandleCategory(db, c, freshId)
  }

  // ---------------------------------------------------------------------------
  // The stored invariants
  // ---------------------------------------------------------------------------

  /** A vendor's record passes validation and its shop, if any, names the vendor itself. */
  predicate VendorDocOk(d: Doc<Vendor>)
  {
    VendorSavable(d.val) && (d.val.shop.Some? ==> d.val.shop.value.vendorId == d.id)
  }

  /** An admin passes validation and lists each vendor e-mail once (kept by the corrected
      duplicate check only). */
  predicate AdminDocOk(d: Doc<Admin>)
  {
    AdminSavable(d.val) && Admins.DistinctEmails(d.val)
  }

  predicate UserDocOk(d: Doc<User>)
  {
    UserSavable(d.val)
  }

  /** A category passes validation and its embedded sub-categories keep distinct ids. */
  predicate CategoryDocOk(d: Doc<Category>)
  {
    CategorySavable(d.val) && UniqueIds(d.val.subCategories)
  }

  predicate ItemDocOk(d: Doc<Item>)
  {
    ItemSavable(d.val)
  }

  /** No two users share a mobile number. */
  predicate UniqueMobiles(users: seq<Doc<User>>)
  {
    forall i, j | 0 <= i < j < |users| :: users[i].val.mobileNumber != users[j].val.mobileNumber
  }

  predicate VendorsOk(c: seq<Doc<Vendor>>) { UniqueIds(c) && All(c, VendorDocOk) }
  predicate AdminsOk(c: seq<Doc<Admin>>) { UniqueIds(c) && All(c, AdminDocOk) }
  predicate UsersOk(c: seq<Doc<User>>) { UniqueIds(c) && All(c, UserDocOk) && UniqueMobiles(c) }
  predicate CategoriesOk(c: seq<Doc<Category>>) { UniqueIds(c) && All(c, CategoryDocOk) }
  predicate ItemsOk(c: seq<Doc<Item>>) { UniqueIds(c) && All(c, ItemDocOk) }

  /** The database as the handlers keep it. */
  predicate WellFormed(db: Db)
  {
    && AdminsOk(db.admins) && VendorsOk(db.vendors) && UsersOk(db.users)
    && CategoriesOk(db.categories) && ItemsOk(db.items)
  }

  /** The empty database is well formed. */
  lemma EmptyWellFormed()
    ensures WellFormed(Db([], [], [], [], []))
  {
  }

  // ---------------------------------------------------------------------------
  // Every request keeps the invariants
  // ---------------------------------------------------------------------------

  /** The main preservation theorem: whatever the request, the database stays well formed. */
  lemma HandleKeepsWellFormed(env: Env, db: Db, req: Request, now: nat, freshId: Id)
    requires WellFormed(db) && Fresh(db, freshId)
    ensures WellFormed(Handle(env, db, req, now, freshId).db)
  {
    match req
    case ToVendors(v) => VendorRouteKeeps(env, db, v, now);
    case ToAdmins(a) => AdminRouteKeeps(env, db, a, now, freshId);
    case ToUsers(u) => UserRouteKeeps(env, db, u, now, freshId);
    case ToCatalog(c) => CategoryRouteKeeps(db, c, freshId);
  }

  lemma VendorRouteKeeps(env: Env, db: Db, req: VendorRoute, now: nat)
    requires WellFormed(db)
    ensures WellFormed(HandleVendor(env, db, req, now).db)
  {
    match req
    case VendorLogin(_, _) =>
    case CreateShop(form, file) => CreateShopKeeps(env, db, form, file, now);
    case UpdateVendor(id, update, file) => UpdateVendorKeeps(env, db, id, update, file);
    case DeleteVendor(id) => DeleteVendorKeeps(db, id);
  }

  lemma AdminRouteKeeps(env: Env, db: Db, req: AdminRoute, now: nat, freshId: Id)
    requires WellFormed(db) && freshId !in Ids(db.vendors)
    ensures WellFormed(HandleAdmin(env, db, req, now, freshId).db)
  {
    match req
    case AdminLogin(_, _, _) =>
    case CreateVendor(nv) => CreateVendorKeeps(db, nv, freshId);
    case ReviewVendor(rq) => ReviewKeeps(env, db, rq, now);
  }

  lemma UserRouteKeeps(env: Env, db: Db, req: UserRoute, now: nat, freshId: Id)
    requires WellFormed(db) && freshId !in Ids(db.users)
    ensures WellFormed(HandleUser(env, db, req, now, freshId).db)
  {
    match req
    case SendOtp(mobile) => SendOtpKeeps(env, db, mobile, now, freshId);
    case VerifyOtp(otp, token) => VerifyOtpKeeps(env, db, otp, token, now);
    case SaveLocation(userId, lat, lng) => SaveLocationKeeps(db, userId, lat, lng);
    case UpdateLocation(userId, lat, lng) => SaveLocationKeeps(db, userId, lat, lng);
    case DeleteLocation(id) => DeleteLocationKeeps(db, id);
    case SavePersonalInfo(mobile, fullName, email, file) => PersonalInfoKeeps(db, mobile, fullName, email, file);
    case UpdatePersonalInfo(id, fullName, email, file) => UpdatePersonalInfoKeeps(db, id, fullName, email, file);
    case DeletePersonalInfo(id) => DeletePersonalInfoKeeps(db, id);
  }

  lemma CategoryRouteKeeps(db: Db, req: CategoryRoute, freshId: Id)
    requires WellFormed(db) && freshId !in Ids(db.categories) && freshId !in Ids(db.items)
    requires Catalog.FreshSubId(db, freshId)
    ensures WellFormed(HandleCategory(db, req, freshId).db)
  {
    match req
    case CreateCategory(title, content, file) => CreateCategoryKeeps(db, title, content, file, freshId);
    case UpdateCategory(id, title, content, file) => UpdateCategoryKeeps(db, id, title, content, file);
    case DeleteCategory(id) => DeleteCategoryKeeps(db, id);
    case CreateSubCategory(cid, title, file) => CreateSubCategoryKeeps(db, cid, title, file, freshId);
    case GetSubCategory(_, _) =>
    case UpdateSubCategory(cid, sid, title, file) => UpdateSubCategoryKeeps(db, cid, sid, title, file);
    case DeleteSubCategory(cid, sid) => DeleteSubCategoryKeeps(db, cid, sid);
    case CreateItem(sid, form, file) => CreateItemKeeps(db, sid, form, file, freshId);
    case ListItems(_) =>
    case UpdateItem(id, form, file) => UpdateItemKeeps(db, id, form, file);
    case DeleteItem(id) => DeleteItemKeeps(db, id);
  }

  lemma DeleteVendorKeeps(db: Db, id: Id)
    requires WellFormed(db)
    ensures WellFormed(Vendors.DeleteVendorById(db, id).db)
  {
    DeleteKeeps(db.vendors, id, VendorDocOk);
  }

  lemma DeleteLocationKeeps(db: Db, id: Id)
    requires WellFormed(db)
    ensures WellFormed(Users.DeleteLocationById(db, id).db)
  {
    var r := Users.DeleteLocationById(db, id);
    if r.status.Ok? {
      var u := Get(db.users, id).value;
      assert r.db.users == Put(db.users, id, u.(location := None));
      UserPutKeeps(db.users, id, u.(location := None));
    }
  }

  lemma DeletePersonalInfoKeeps(db: Db, id: Id)
    requires WellFormed(db)
    ensures WellFormed(Users.DeletePersonalInfoById(db, id).db)
  {
    var r := Users.DeletePersonalInfoById(db, id);
    if r.status.Ok? {
      var u := Get(db.users, id).value;
      assert r.db.users == Put(db.users, id, u.(personalInfo := None));
      UserPutKeeps(db.users, id, u.(personalInfo := None));
    }
  }

  lemma CreateCategoryKeeps(db: Db, title: Option<string>, content: Option<string>, file: Upload, freshId: Id)
    requires WellFormed(db) && freshId !in Ids(db.categories)
    ensures WellFormed(Catalog.CreateCategory(db, title, content, file, freshId).db)
  {
    var r := Catalog.CreateCategory(db, title, content, file, freshId);
    if r.status.Ok? {
      AddKeeps(db.categories, freshId, r.status.body.category, CategoryDocOk);
    }
  }

  lemma DeleteCategoryKeeps(db: Db, id: Id)
    requires WellFormed(db)
    ensures WellFormed(Catalog.DeleteCategoryById(db, id).db)
  {
    DeleteKeeps(db.categories, id, CategoryDocOk);
  }

  lemma CreateItemKeeps(db: Db, sid: Id, form: Catalog.ItemForm, file: Upload, freshId: Id)
    requires WellFormed(db) && freshId !in Ids(db.items)
    ensures WellFormed(Catalog.CreateItem(db, sid, form, file, freshId).db)
  {
    var r := Catalog.CreateItem(db, sid, form, file, freshId);
    if r.status.Ok? {
      AddKeeps(db.items, freshId, r.status.body.item, ItemDocOk);
    }
  }

  lemma DeleteItemKeeps(db: Db, id: Id)
    requires WellFormed(db)
    ensures WellFormed(Catalog.DeleteItemById(db, id).db)
  {
    DeleteKeeps(db.items, id, ItemDocOk);
  }

  lemma CreateShopKeeps(env: Env, db: Db, form: Vendors.ShopForm, file: Upload, now: nat)
    requires WellFormed(db)
    ensures WellFormed(Vendors.CreateVendorWithShaller(env, db, form, file, now).db)
  {
    var r := Vendors.CreateVendorWithShaller(env, db, form, file, now);
    if r.status.Ok? {
      var id := Vendors.FormVendorId(form);
      var v := Get(db.vendors, id).value;
      var v' := v.(shop := Some(r.status.body.createdShop));
      GetAll(db.vendors, id, VendorDocOk);
      assert r.db.vendors == Put(db.vendors, id, v');
      PutKeeps(db.vendors, id, v', VendorDocOk);
    }
  }

  lemma UpdateVendorKeeps(env: Env, db: Db, id: Id, u: Vendors.ShopUpdate, file: Upload)
    requires WellFormed(db)
    ensures WellFormed(Vendors.UpdateVendorById(env, db, id, u, file).db)
  {
    var r := Vendors.UpdateVendorById(env, db, id, u, file);
    if r.status.Ok? {
      var v := Get(db.vendors, id).value;
      var v' := v.(shop := Some(Vendors.ApplyShopUpdate(env, v.shop.value, u, file)));
      GetAll(db.vendors, id, VendorDocOk);
      assert r.db.vendors == Put(db.vendors, id, v');
      PutKeeps(db.vendors, id, v', VendorDocOk);
    }
  }

  lemma ReviewKeeps(env: Env, db: Db, rq: Admins.ReviewRequest, now: nat)
    requires WellFormed(db)
    ensures WellFormed(Admins.AddOrEditVendorReview(env, db, rq, now).db)
  {
    var r := Admins.AddOrEditVendorReview(env, db, rq, now);
    if r.status.Ok? {
      var id := rq.vendorId.value;
      var v := Get(db.vendors, id).value;
      var s' := Admins.Overlay(env, v.shop.value, rq.adminId.value, rq.review.value, rq.rating.value, now);
      GetAll(db.vendors, id, VendorDocOk);
      assert r.db.vendors == Put(db.vendors, id, v.(shop := Some(s')));
      PutKeeps(db.vendors, id, v.(shop := Some(s')), VendorDocOk);
    }
  }

  /** Appending an entry under an e-mail the admin does not list keeps the admin valid. */
  lemma AppendEntryKeeps(id: Id, a: Admin, e: VendorEntry)
    requires AdminDocOk(Doc(id, a)) && EntrySavable(e) && !Admins.Listed(a, e.email)
    ensures AdminDocOk(Doc(id, a.(vendors := a.vendors + [e])))
  {
    Admins.AppendUnlistedKeepsDistinct(a, e);
  }

  lemma CreateVendorKeeps(db: Db, nv: Admins.NewVendor, freshId: Id)
    requires WellFormed(db) && freshId !in Ids(db.vendors)
    ensures WellFormed(Admins.CreateVendor(db, nv, freshId).db)
  {
    var r := Admins.CreateVendor(db, nv, freshId);
    if !Admins.NewVendorComplete(nv) || Get(db.admins, nv.adminId.value).None? {
      assert r.db == db;
    } else {
      var a := Get(db.admins, nv.adminId.value).value;
      if Admins.Listed(a, Lower(nv.email.value)) {
        assert r.db == db;
      } else {
        assert r == Admins.RecordVendor(db, nv, a, freshId);
        RecordVendorKeeps(db, nv, a, freshId);
      }
    }
  }

  /** The writes behind a passed duplicate check keep the admins and vendors valid. */
  lemma RecordVendorKeeps(db: Db, nv: Admins.NewVendor, a: Admin, freshId: Id)
    requires WellFormed(db) && freshId !in Ids(db.vendors)
    requires Admins.NewVendorComplete(nv) && Get(db.admins, nv.adminId.value) == Some(a)
    requires !Admins.Listed(a, Lower(nv.email.value))
    ensures WellFormed(Admins.RecordVendor(db, nv, a, freshId).db)
  {
    RecordVendorKeepsAdmins(db, nv, a, freshId);
    RecordVendorKeepsVendors(db, nv, a, freshId);
  }

  lemma RecordVendorKeepsAdmins(db: Db, nv: Admins.NewVendor, a: Admin, freshId: Id)
    requires AdminsOk(db.admins)
    requires Admins.NewVendorComplete(nv) && Get(db.admins, nv.adminId.value) == Some(a)
    requires !Admins.Listed(a, Lower(nv.email.value))
    ensures AdminsOk(Admins.RecordVendor(db, nv, a, freshId).db.admins)
  {
    var r := Admins.RecordVendor(db, nv, a, freshId);
    var aid := nv.adminId.value;
    var e := Admins.StoredEntry(nv);
    if e.name != "" {
      var a' := a.(vendors := a.vendors + [e]);
      assert |e.email| == |nv.email.value|;
      GetAll(db.admins, aid, AdminDocOk);
      AppendEntryKeeps(aid, a, e);
      assert r.db.admins == Put(db.admins, aid, a');
      PutKeeps(db.admins, aid, a', AdminDocOk);
    }
  }

  lemma RecordVendorKeepsVendors(db: Db, nv: Admins.NewVendor, a: Admin, freshId: Id)
    requires VendorsOk(db.vendors) && freshId !in Ids(db.vendors)
    requires Admins.NewVendorComplete(nv) && Get(db.admins, nv.adminId.value) == Some(a)
    ensures VendorsOk(Admins.RecordVendor(db, nv, a, freshId).db.vendors)
  {
    var r := Admins.RecordVendor(db, nv, a, freshId);
    var login := Admins.StoredLogin(nv, nv.adminId.value);
    if Admins.StoredEntry(nv).name == "" || login.email == "" || login.password == "" {
      assert r.db.vendors == db.vendors;
    } else {
      assert r.db.vendors == Add(db.vendors, freshId, login);
      assert VendorDocOk(Doc(freshId, login));
      AddKeeps(db.vendors, freshId, login, VendorDocOk);
    }
  }

  /** A user write that keeps the mobile number, and keeps the location or writes one the
      location index accepts, keeps the users valid. */
  lemma UserPutKeeps(users: seq<Doc<User>>, id: Id, u: User)
    requires UsersOk(users) && Get(users, id).Some? && u.mobileNumber == Get(users, id).value.mobileNumber
    requires u.location == Get(users, id).value.location || LocationIndexable(u.location)
    ensures UsersOk(Put(users, id, u))
  {
    var i := IndexOf(users, id).value;
    UserReplaceKeeps(users, i, Doc(id, u));
  }

  lemma UserReplaceKeeps(users: seq<Doc<User>>, i: nat, d: Doc<User>)
    requires UsersOk(users) && i < |users| && d.id == users[i].id
    requires d.val.mobileNumber == users[i].val.mobileNumber
    requires d.val.location == users[i].val.location || LocationIndexable(d.val.location)
    ensures UsersOk(users[i := d])
  {
    ReplaceAt(users, i, d);
    var r := users[i := d];
    assert forall j | 0 <= j < |r| :: r[j].val.mobileNumber == users[j].val.mobileNumber;
  }

  /** Registering a user under a new id and a new mobile number keeps the users valid. */
  lemma AppendUserKeeps(users: seq<Doc<User>>, d: Doc<User>)
    requires UsersOk(users) && d.id !in Ids(users) && UserDocOk(d)
    requires forall j | 0 <= j < |users| :: users[j].val.mobileNumber != d.val.mobileNumber
    ensures UsersOk(users + [d])
  {
    var r := users + [d];
    assert forall j | 0 <= j < |users| :: r[j] == users[j];
    assert r[|users|] == d;
  }

  lemma SendOtpKeeps(env: Env, db: Db, mobile: Option<string>, now: nat, freshId: Id)
    requires WellFormed(db) && freshId !in Ids(db.users)
    ensures WellFormed(Users.SendOtp(env, db, mobile, now, freshId).db)
  {
    var r := Users.SendOtp(env, db, mobile, now, freshId);
    if Truthy(mobile) && Users.OtpExpiry(env.otpExpiryMinutes, now).Some? {
      var m := mobile.value;
      match Users.UserByMobile(db.users, m)
      case Some(j) =>
        var d := r.db.users[j];
        assert d.id == db.users[j].id && d.val.mobileNumber == m;
        UserReplaceKeeps(db.users, j, d);
      case None =>
        var d := r.db.users[|db.users|];
        assert r.db.users == db.users + [d];
        assert d.id == freshId;
        assert d.val.mobileNumber == m;
        AppendUserKeeps(db.users, d);
    }
  }

  lemma VerifyOtpKeeps(env: Env, db: Db, otp: Option<string>, token: Option<string>, now: nat)
    requires WellFormed(db)
    ensures WellFormed(Users.VerifyOtp(env, db, otp, token, now).db)
  {
    var r := Users.VerifyOtp(env, db, otp, token, now);
    if r.status.Ok? {
      var i := Users.UserByMobile(db.users, env.tokenMobile(token.value).value).value;
      var u := db.users[i];
      UserReplaceKeeps(db.users, i, Doc(u.id, u.val.(isVerified := true)));
    }
  }

  lemma SaveLocationKeeps(db: Db, userId: Option<string>, lat: Option<Number>, lng: Option<Number>)
    requires WellFormed(db)
    ensures WellFormed(Users.SaveLocation(db, userId, lat, lng).db)
  {
    var r := Users.SaveLocation(db, userId, lat, lng);
    if r.status.Ok? {
      var u := Get(db.users, userId.value).value;
      UserPutKeeps(db.users, userId.value, u.(location := Some([lng.value, lat.value])));
    }
  }

  lemma PersonalInfoKeeps(db: Db, mobile: Option<string>, fullName: Option<string>, email: Option<string>, file: Upload)
    requires WellFormed(db)
    ensures WellFormed(Users.CreateOrUpdatePersonalInfo(db, mobile, fullName, email, file).db)
  {
    var r := Users.CreateOrUpdatePersonalInfo(db, mobile, fullName, email, file);
    if r.status.Ok? {
      var i := Users.UserByMobile(db.users, mobile.value).value;
      var u := db.users[i].val;
      var info := Users.MergeInfo(u.personalInfo, fullName, email, file);
      UserReplaceKeeps(db.users, i, Doc(db.users[i].id, u.(personalInfo := Some(info))));
    }
  }

  lemma UpdatePersonalInfoKeeps(db: Db, id: Id, fullName: Option<string>, email: Option<string>, file: Upload)
    requires WellFormed(db)
    ensures WellFormed(Users.UpdatePersonalInfoById(db, id, fullName, email, file).db)
  {
    var r := Users.UpdatePersonalInfoById(db, id, fullName, email, file);
    if r.status.Ok? {
      var i := IndexOf(db.users, id).value;
      var u := db.users[i].val;
      var info := Users.MergeInfo(u.personalInfo, fullName, email, file);
      assert r.db.users == db.users[i := Doc(id, u.(personalInfo := Some(info)))];
      UserReplaceKeeps(db.users, i, Doc(id, u.(personalInfo := Some(info))));
    }
  }

  lemma UpdateCategoryKeeps(db: Db, id: Id, title: Option<string>, content: Option<string>, file: Upload)
    requires WellFormed(db)
    ensures WellFormed(Catalog.UpdateCategoryById(db, id, title, content, file).db)
  {
    var r := Catalog.UpdateCategoryById(db, id, title, content, file);
    if r.status.Ok? {
      GetAll(db.categories, id, CategoryDocOk);
      var c' := r.status.body.category;
      assert r.db.categories == Put(db.categories, id, c');
      PutKeeps(db.categories, id, c', CategoryDocOk);
    }
  }

  /** Adding a titled sub-category under a new id keeps the category savable. */
  lemma SubAddKeeps(c: Category, id: Id, sub: SubCategory)
    requires CategorySavable(c) && UniqueIds(c.subCategories) && id !in Ids(c.subCategories) && sub.title != ""
    ensures CategorySavable(c.(subCategories := Add(c.subCategories, id, sub)))
    ensures UniqueIds(Add(c.subCategories, id, sub))
  {
  }

  lemma CreateSubCategoryKeeps(db: Db, cid: Id, title: Option<string>, file: Upload, freshId: Id)
    requires WellFormed(db) && Catalog.FreshSubId(db, freshId)
    ensures WellFormed(Catalog.CreateSubCategory(db, cid, title, file, freshId).db)
  {
    var r := Catalog.CreateSubCategory(db, cid, title, file, freshId);
    if !Truthy(title) || file.UploadError? || Get(db.categories, cid).None? {
      assert r.db == db;
    } else {
      var c := Get(db.categories, cid).value;
      var j :| 0 <= j < |db.categories| && db.categories[j] == Doc(cid, c);
      GetAll(db.categories, cid, CategoryDocOk);
      var sub := SubCategory(title.value, Catalog.ImageAfter(file, ""), cid);
      var c' := c.(subCategories := Add(c.subCategories, freshId, sub));
      SubAddKeeps(c, freshId, sub);
      assert r.db == db.(categories := Put(db.categories, cid, c'));
      PutKeeps(db.categories, cid, c', CategoryDocOk);
    }
  }

  lemma UpdateSubCategoryKeeps(db: Db, cid: Id, sid: Id, title: Option<string>, file: Upload)
    requires WellFormed(db)
    ensures WellFormed(Catalog.UpdateSubCategoryById(db, cid, sid, title, file).db)
  {
    var r := Catalog.UpdateSubCategoryById(db, cid, sid, title, file);
    if r.status.Ok? {
      var c := Get(db.categories, cid).value;
      GetAll(db.categories, cid, CategoryDocOk);
      var s := Get(c.subCategories, sid).value;
      var k :| 0 <= k < |c.subCategories| && c.subCategories[k] == Doc(sid, s);
      var s' := r.status.body.subCategoryDoc.val;
      var c' := c.(subCategories := Put(c.subCategories, sid, s'));
      assert CategorySavable(c') && UniqueIds(c'.subCategories);
      assert r.db.categories == Put(db.categories, cid, c');
      PutKeeps(db.categories, cid, c', CategoryDocOk);
    }
  }

  lemma DeleteSubCategoryKeeps(db: Db, cid: Id, sid: Id)
    requires WellFormed(db)
    ensures WellFormed(Catalog.DeleteSubCategoryById(db, cid, sid).db)
  {
    var r := Catalog.DeleteSubCategoryById(db, cid, sid);
    if r.status.Ok? {
      var c := Get(db.categories, cid).value;
      GetAll(db.categories, cid, CategoryDocOk);
      var c' := c.(subCategories := Delete(c.subCategories, sid));
      assert CategorySavable(c') && UniqueIds(c'.subCategories);
      assert r.db.categories == Put(db.categories, cid, c');
      PutKeeps(db.categories, cid, c', CategoryDocOk);
    }
  }

  lemma UpdateItemKeeps(db: Db, id: Id, form: Catalog.ItemForm, file: Upload)
    requires WellFormed(db)
    ensures WellFormed(Catalog.UpdateItemById(db, id, form, file).db)
  {
    var r := Catalog.UpdateItemById(db, id, form, file);
    if r.status.Ok? {
      GetAll(db.items, id, ItemDocOk);
      var it' := r.status.body.item;
      assert r.db.items == Put(db.items, id, it');
      PutKeeps(db.items, id, it', ItemDocOk);
    }
  }

  // ---------------------------------------------------------------------------
  // What no request takes away
  // ---------------------------------------------------------------------------

  /** Every user verified before is still there and still verified after. */
  ghost predicate KeepsVerified(before: seq<Doc<User>>, after: seq<Doc<User>>)
  {
    forall k :: Get(before, k).Some? && Get(before, k).value.isVerified ==>
      Get(after, k).Some? && Get(after, k).value.isVerified
  }

  /** Once verified, a user stays verified: no handler clears the flag or removes a user. */
  lemma VerifiedStaysVerified(env: Env, db: Db, req: Request, now: nat, freshId: Id)
    requires Fresh(db, freshId)
    ensures KeepsVerified(db.users, Handle(env, db, req, now, freshId).db.users)
  {
    if req.ToUsers? {
      UserRouteKeepsVerified(env, db, req.userRoute, now, freshId);
    }
  }

  /** Rewriting the user at position `i` without touching the flag keeps every verified
      user verified. */
  lemma ReplaceKeepsVerified(users: seq<Doc<User>>, i: nat, d: Doc<User>)
    requires i < |users| && d.id == users[i].id && (users[i].val.isVerified ==> d.val.isVerified)
    ensures KeepsVerified(users, users[i := d])
  {
    ReplaceAt(users, i, d);
  }

  lemma UserRouteKeepsVerified(env: Env, db: Db, req: UserRoute, now: nat, freshId: Id)
    requires freshId !in Ids(db.users)
    ensures KeepsVerified(db.users, HandleUser(env, db, req, now, freshId).db.users)
  {
    if req.SendOtp? || req.VerifyOtp? || req.SavePersonalInfo? {
      WritersKeepVerified(env, db, req, now, freshId);
    } else {
      OneUserRoutesKeepVerified(env, db, req, now, freshId);
    }
  }

  /** The routes that write a user found by mobile number or token. */
  lemma WritersKeepVerified(env: Env, db: Db, req: UserRoute, now: nat, freshId: Id)
    requires freshId !in Ids(db.users)
    requires req.SendOtp? || req.VerifyOtp? || req.SavePersonalInfo?
    ensures KeepsVerified(db.users, HandleUser(env, db, req, now, freshId).db.users)
  {
    if req.SendOtp? {
      SendOtpKeepsVerified(env, db, req.mobile, now, freshId);
    } else if req.VerifyOtp? {
      VerifyOtpKeepsVerified(env, db, req.otp, req.token, now);
    } else {
      PersonalInfoKeepsVerified(db, req.mobile, req.fullName, req.infoEmail, req.file);
    }
  }

  /** The routes that write the user a given id names. */
  lemma OneUserRoutesKeepVerified(env: Env, db: Db, req: UserRoute, now: nat, freshId: Id)
    requires freshId !in Ids(db.users)
    requires !(req.SendOtp? || req.VerifyOtp? || req.SavePersonalInfo?)
    ensures KeepsVerified(db.users, HandleUser(env, db, req, now, freshId).db.users)
  {
    var r := HandleUser(env, db, req, now, freshId);
    if req.SaveLocation? || req.UpdateLocation? {
      SaveLocationKeepsVerified(db, req.userId, req.latitude, req.longitude);
    } else if req.DeleteLocation? {
      OneUserKeepsVerified(db.users, r.db.users, req.id);
    } else if req.UpdatePersonalInfo? {
      OneUserKeepsVerified(db.users, r.db.users, req.id);
    } else {
      OneUserKeepsVerified(db.users, r.db.users, req.id);
    }
  }

  /** A write confined to the user `id` that keeps that user and its flag keeps every
      verified user verified. */
  lemma OneUserKeepsVerified(before: seq<Doc<User>>, after: seq<Doc<User>>, id: Id)
    requires forall k :: k != id ==> Get(after, k) == Get(before, k)
    requires Get(before, id).Some? ==> Get(after, id).Some?
    requires Get(before, id).Some? && Get(before, id).value.isVerified ==> Get(after, id).value.isVerified
    ensures KeepsVerified(before, after)
  {
  }

  lemma SaveLocationKeepsVerified(db: Db, userId: Option<string>, lat: Option<Number>, lng: Option<Number>)
    ensures KeepsVerified(db.users, Users.SaveLocation(db, userId, lat, lng).db.users)
  {
    var r := Users.SaveLocation(db, userId, lat, lng);
    if r.status.Ok? {
      OneUserKeepsVerified(db.users, r.db.users, userId.value);
    }
  }

  lemma SendOtpKeepsVerified(env: Env, db: Db, mobile: Option<string>, now: nat, freshId: Id)
    requires freshId !in Ids(db.users)
    ensures KeepsVerified(db.users, Users.SendOtp(env, db, mobile, now, freshId).db.users)
  {
    var r := Users.SendOtp(env, db, mobile, now, freshId);
    if Truthy(mobile) && Users.OtpExpiry(env.otpExpiryMinutes, now).Some? {
      match Users.UserByMobile(db.users, mobile.value)
      case Some(j) => ReplaceKeepsVerified(db.users, j, r.db.users[j]);
      case None =>
    }
  }

  lemma VerifyOtpKeepsVerified(env: Env, db: Db, otp: Option<string>, token: Option<string>, now: nat)
    ensures KeepsVerified(db.users, Users.VerifyOtp(env, db, otp, token, now).db.users)
  {
    var r := Users.VerifyOtp(env, db, otp, token, now);
    if r.status.Ok? {
      var i := Users.UserByMobile(db.users, env.tokenMobile(token.value).value).value;
      var u := db.users[i];
      ReplaceKeepsVerified(db.users, i, Doc(u.id, u.val.(isVerified := true)));
    }
  }

  lemma PersonalInfoKeepsVerified(db: Db, mobile: Option<string>, fullName: Option<string>, email: Option<string>,
                                  file: Upload)
    ensures KeepsVerified(db.users, Users.CreateOrUpdatePersonalInfo(db, mobile, fullName, email, file).db.users)
  {
    var r := Users.CreateOrUpdatePersonalInfo(db, mobile, fullName, email, file);
    if r.status.Ok? {
      var i := Users.UserByMobile(db.users, mobile.value).value;
      var u := db.users[i].val;
      var info := Users.MergeInfo(u.personalInfo, fullName, email, file);
      ReplaceKeepsVerified(db.users, i, Doc(db.users[i].id, u.(personalInfo := Some(info))));
    }
  }

  /** Every vendor other than `except` that had a named shop still has one. */
  ghost predicate KeepsShops(before: seq<Doc<Vendor>>, after: seq<Doc<Vendor>>, except: Option<Id>)
  {
    forall k :: Some(k) != except && Get(before, k).Some? && Vendors.HasNamedShop(Get(before, k).value) ==>
      Get(after, k).Some? && Vendors.HasNamedShop(Get(after, k).value)
  }

  /** The vendor a request deletes, if it is a vendor deletion. */
  function Deleted(req: Request): (r: Option<Id>)
    ensures r.Some? <==> req.ToVendors? && req.vendorRoute.DeleteVendor?
  {
    if req.ToVendors? && req.vendorRoute.DeleteVendor? then Some(req.vendorRoute.id) else None
  }

  /** A shop, once created, is never lost or left without a name, except by deleting its
      vendor: an update overwrites the name only with a non-empty one, and a review leaves
      it alone. */
  lemma ShopsStay(env: Env, db: Db, req: Request, now: nat, freshId: Id)
    requires Fresh(db, freshId)
    ensures KeepsShops(db.vendors, Handle(env, db, req, now, freshId).db.vendors, Deleted(req))
  {
    match req
    case ToVendors(v) => VendorRouteKeepsShops(env, db, v, now);
    case ToAdmins(a) => AdminRouteKeepsShops(env, db, a, now, freshId);
    case ToUsers(_) =>
    case ToCatalog(_) =>
  }

  lemma VendorRouteKeepsShops(env: Env, db: Db, req: VendorRoute, now: nat)
    ensures KeepsShops(db.vendors, HandleVendor(env, db, req, now).db.vendors, if req.DeleteVendor? then Some(req.id) else None)
  {
    match req
    case VendorLogin(_, _) =>
    case CreateShop(form, file) => CreateShopKeepsShops(env, db, form, file, now);
    case UpdateVendor(id, u, file) => UpdateVendorKeepsShops(env, db, id, u, file);
    case DeleteVendor(_) =>
  }

  lemma CreateShopKeepsShops(env: Env, db: Db, form: Vendors.ShopForm, file: Upload, now: nat)
    ensures KeepsShops(db.vendors, Vendors.CreateVendorWithShaller(env, db, form, file, now).db.vendors, None)
  {
    var r := Vendors.CreateVendorWithShaller(env, db, form, file, now);
    if r.status.Ok? {
      var id := Vendors.FormVendorId(form);
      forall k | Get(db.vendors, k).Some? && Vendors.HasNamedShop(Get(db.vendors, k).value)
        ensures Get(r.db.vendors, k).Some? && Vendors.HasNamedShop(Get(r.db.vendors, k).value)
      {
        assert k != id;
      }
    }
  }

  lemma UpdateVendorKeepsShops(env: Env, db: Db, id: Id, u: Vendors.ShopUpdate, file: Upload)
    ensures KeepsShops(db.vendors, Vendors.UpdateVendorById(env, db, id, u, file).db.vendors, None)
  {
    var r := Vendors.UpdateVendorById(env, db, id, u, file);
    forall k | Get(db.vendors, k).Some? && Vendors.HasNamedShop(Get(db.vendors, k).value)
      ensures Get(r.db.vendors, k).Some? && Vendors.HasNamedShop(Get(r.db.vendors, k).value)
    {
      if k == id && r.status.Ok? {
        var v := Get(db.vendors, id).value;
        var s' := Vendors.ApplyShopUpdate(env, v.shop.value, u, file);
        assert s'.shopName != "";
      }
    }
  }

  lemma AdminRouteKeepsShops(env: Env, db: Db, req: AdminRoute, now: nat, freshId: Id)
    requires freshId !in Ids(db.vendors)
    ensures KeepsShops(db.vendors, HandleAdmin(env, db, req, now, freshId).db.vendors, None)
  {
    match req
    case AdminLogin(_, _, _) =>
    case CreateVendor(nv) =>
    case ReviewVendor(rq) =>
      var r := Admins.AddOrEditVendorReview(env, db, rq, now);
      if r.status.Ok? {
        var v := Get(db.vendors, rq.vendorId.value).value;
        var s' := Admins.Overlay(env, v.shop.value, rq.adminId.value, rq.review.value, rq.rating.value, now);
        assert s'.shopName == v.shop.value.shopName;
      }
  }
}

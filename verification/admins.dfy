/** The admin controller: admin login, vendor creation by an admin, and the admin review
    overlay on a vendor's shop. */
module Admins {
  import opened Common
  import opened Text
  import opened Store
  import opened Records
  import opened Http
  import Vendors

  // ---------------------------------------------------------------------------
  // Login
  // ---------------------------------------------------------------------------

  /** Position of the first admin stored under that e-mail. */
  function AdminByEmail(admins: seq<Doc<Admin>>, email: string): (r: Option<nat>)
    ensures r.Some? ==> r.value < |admins| && admins[r.value].val.email == email
    ensures r.Some? ==> forall j | 0 <= j < r.value :: admins[j].val.email != email
    ensures r.None? ==> forall j | 0 <= j < |admins| :: admins[j].val.email != email
  {
    First(admins, (d: Doc<Admin>) => d.val.email == email)
  }

  /** `adminLogin`. All three fields are required. The admin is looked up by e-mail (the
      schema's lower-case setter also applies to the query value), the password is checked
      with bcrypt, and the stored name must equal the trimmed name given. Every refusal is the
      same 401. Nothing is written. */
  function AdminLogin(env: Env, db: Db, adminName: Option<string>, email: Option<string>, password: Option<string>)
    : (r: Reply)
    ensures r.db == db
    ensures !Truthy(adminName) || !Truthy(email) || !Truthy(password) <==> r.status == Fail(MissingField)
    ensures r.status.Ok? <==>
      && Truthy(adminName) && Truthy(email) && Truthy(password)
      && var i := AdminByEmail(db.admins, Lower(email.value));
      && i.Some?
      && env.passwordMatches(password.value, db.admins[i.value].val.password)
      && db.admins[i.value].val.adminName == Trim(adminName.value)
    ensures r.status.Ok? ==>
      && var a := db.admins[AdminByEmail(db.admins, Lower(email.value)).value];
      && r.status.body == AdminSession(a.id, a.val.adminName, a.val.email, a.val.vendors)
    ensures r.status.Fail? ==> r.status.failure in {MissingField, Unauthorized}
  {
    if !Truthy(adminName) || !Truthy(email) || !Truthy(password) then Reply(Fail(MissingField), db)
    else
      match AdminByEmail(db.admins, Lower(email.value))
      case None => Reply(Fail(Unauthorized), db)
      case Some(i) =>
        var a := db.admins[i];
        if !env.passwordMatches(password.value, a.val.password) then Reply(Fail(Unauthorized), db)
        else if a.val.adminName != Trim(adminName.value) then Reply(Fail(Unauthorized), db)
        else Reply(Ok(AdminSession(a.id, a.val.adminName, a.val.email, a.val.vendors)), db)
  }

  // ---------------------------------------------------------------------------
  // Vendor creation
  // ---------------------------------------------------------------------------

  /** The body of `createVendor`. */
  datatype NewVendor = NewVendor(
    adminId: Option<string>,
    name: Option<string>,
    email: Option<string>,
    phoneNumber: Option<string>,
    password: Option<string>)

  predicate NewVendorComplete(req: NewVendor)
  {
    Truthy(req.adminId) && Truthy(req.name) && Truthy(req.email) && Truthy(req.phoneNumber) && Truthy(req.password)
  }

  /** The embedded entry as the admin schema stores it: name trimmed, e-mail lower-cased. */
  function StoredEntry(req: NewVendor): (e: VendorEntry)
    requires NewVendorComplete(req)
    ensures e.email == Lower(req.email.value) && IsTrimOf(e.name, req.name.value)
    ensures e.phoneNumber == req.phoneNumber.value && e.password == req.password.value
  {
    VendorEntry(Trim(req.name.value), Lower(req.email.value), req.phoneNumber.value, req.password.value)
  }

  /** The login record as the vendor schema stores it: e-mail lower-cased then trimmed,
      password trimmed, no shop. */
  function StoredLogin(req: NewVendor, adminId: Id): (v: Vendor)
    requires NewVendorComplete(req)
    ensures v.email == NormalEmail(req.email.value) && IsTrimOf(v.password, req.password.value)
    ensures v.adminId == adminId && v.shop.None?
  {
    Vendor(NormalEmail(req.email.value), Trim(req.password.value), adminId, None)
  }

  /** Does the admin already list a vendor under `email`? */
  predicate Listed(a: Admin, email: string)
  {
    exists j | 0 <= j < |a.vendors| :: a.vendors[j].email == email
  }

  /** The writes of `createVendor` once the duplicate check has passed: the entry is pushed
      and the admin saved (rejected when the trimmed name is empty), then the login record is
      created (rejected when its trimmed e-mail or password is empty, after the admin save has
      already happened). The response echoes the request values. */
  function RecordVendor(db: Db, req: NewVendor, admin: Admin, freshId: Id): (r: Reply)
    requires NewVendorComplete(req) && Get(db.admins, req.adminId.value) == Some(admin)
    ensures var entry := StoredEntry(req);
            var admins' := Put(db.admins, req.adminId.value, admin.(vendors := admin.vendors + [entry]));
            var login := StoredLogin(req, req.adminId.value);
            if entry.name == "" then r == Reply(Fail(StoreRejected), db)
            else if login.email == "" || login.password == "" then
              r == Reply(Fail(StoreRejected), db.(admins := admins'))
            else
              && r.status == Ok(VendorCreated(VendorEntry(req.name.value, req.email.value,
                                                          req.phoneNumber.value, req.password.value)))
              && r.db == db.(admins := admins', vendors := Add(db.vendors, freshId, login))
  {
    var entry := StoredEntry(req);
    var login := StoredLogin(req, req.adminId.value);
    if entry.name == "" then Reply(Fail(StoreRejected), db)
    else
      var db1 := db.(admins := Put(db.admins, req.adminId.value, admin.(vendors := admin.vendors + [entry])));
      if login.email == "" || login.password == "" then Reply(Fail(StoreRejected), db1)
      else
        Reply(Ok(VendorCreated(VendorEntry(req.name.value, req.email.value, req.phoneNumber.value, req.password.value))),
              db1.(vendors := Add(db.vendors, freshId, login)))
  }

  /** `createVendor` exactly as written: the duplicate check compares the request e-mail as
      given with the stored entries, whose e-mails the schema has lower-cased. */
  function CreateVendorAsWritten(db: Db, req: NewVendor, freshId: Id): (r: Reply)
    requires freshId !in Ids(db.vendors)
    ensures !NewVendorComplete(req) <==> r.status == Fail(MissingField)
    ensures NewVendorComplete(req) ==>
      match Get(db.admins, req.adminId.value)
      case None => r == Reply(Fail(NotFound), db)
      case Some(a) =>
        if Listed(a, req.email.value) then r == Reply(Fail(Conflict), db)
        else r == RecordVendor(db, req, a, freshId)
    ensures r.status.Fail? && r.status.failure != StoreRejected ==> r.db == db
  {
    if !NewVendorComplete(req) then Reply(Fail(MissingField), db)
    else
      match Get(db.admins, req.adminId.value)
      case None => Reply(Fail(NotFound), db)
      case Some(a) =>
        if Listed(a, req.email.value) then Reply(Fail(Conflict), db)
        else RecordVendor(db, req, a, freshId)
  }

  /** `createVendor` with the duplicate check made against the lower-cased e-mail, the form in
      which the entry is stored. */
  function CreateVendor(db: Db, req: NewVendor, freshId: Id): (r: Reply)
    requires freshId !in Ids(db.vendors)
    ensures !NewVendorComplete(req) <==> r.status == Fail(MissingField)
    ensures NewVendorComplete(req) ==>
      match Get(db.admins, req.adminId.value)
      case None => r == Reply(Fail(NotFound), db)
      case Some(a) =>
        if Listed(a, Lower(req.email.value)) then r == Reply(Fail(Conflict), db)
        else r == RecordVendor(db, req, a, freshId)
    ensures r.status.Fail? && r.status.failure != StoreRejected ==> r.db == db
    ensures r.db.users == db.users && r.db.categories == db.categories && r.db.items == db.items
    ensures forall k :: k != freshId ==> Get(r.db.vendors, k) == Get(db.vendors, k)
  {
    if !NewVendorComplete(req) then Reply(Fail(MissingField), db)
    else
      match Get(db.admins, req.adminId.value)
      case None => Reply(Fail(NotFound), db)
      case Some(a) =>
        if Listed(a, Lower(req.email.value)) then Reply(Fail(Conflict), db)
        else RecordVendor(db, req, a, freshId)
  }

  /** No two entries of an admin's vendor list share an e-mail. */
  predicate DistinctEmails(a: Admin)
  {
    forall i, j | 0 <= i < j < |a.vendors| :: a.vendors[i].email != a.vendors[j].email
  }

  /** Appending an entry whose e-mail is not yet listed keeps the e-mails distinct. */
  lemma AppendUnlistedKeepsDistinct(a: Admin, e: VendorEntry)
    requires DistinctEmails(a) && !Listed(a, e.email)
    ensures DistinctEmails(a.(vendors := a.vendors + [e]))
  {
    var vs := a.vendors + [e];
    forall i, j | 0 <= i < j < |vs| ensures vs[i].email != vs[j].email {
      if j == |a.vendors| {
        assert vs[i] == a.vendors[i];
      }
    }
  }

  /** The corrected check keeps every admin's vendor e-mails distinct. */
  lemma CreateVendorKeepsEmailsDistinct(db: Db, req: NewVendor, freshId: Id, adminId: Id)
    requires freshId !in Ids(db.vendors)
    requires forall k | Get(db.admins, k).Some? :: DistinctEmails(Get(db.admins, k).value)
    requires Get(CreateVendor(db, req, freshId).db.admins, adminId).Some?
    ensures DistinctEmails(Get(CreateVendor(db, req, freshId).db.admins, adminId).value)
  {
    var r := CreateVendor(db, req, freshId);
    if !NewVendorComplete(req) || Get(db.admins, req.adminId.value).None? {
      assert r.db == db;
    } else {
      var owner := req.adminId.value;
      var a := Get(db.admins, owner).value;
      if Listed(a, Lower(req.email.value)) {
        assert r.db == db;
      } else {
        var a' := a.(vendors := a.vendors + [StoredEntry(req)]);
        assert r == RecordVendor(db, req, a, freshId);
        assert r.db.admins == db.admins || r.db.admins == Put(db.admins, owner, a');
        if r.db.admins != db.admins && adminId == owner {
          AppendUnlistedKeepsDistinct(a, StoredEntry(req));
        }
      }
    }
  }

  /** Once the entry's trimmed name is non-empty the admin is saved with the entry appended,
      and with a non-empty login e-mail and password the whole creation succeeds. */
  lemma RecordedAdmin(db: Db, req: NewVendor, a: Admin, freshId: Id)
    requires NewVendorComplete(req) && Get(db.admins, req.adminId.value) == Some(a)
    requires Trim(req.name.value) != ""
    ensures Get(RecordVendor(db, req, a, freshId).db.admins, req.adminId.value)
              == Some(a.(vendors := a.vendors + [StoredEntry(req)]))
    ensures NormalEmail(req.email.value) != "" && Trim(req.password.value) != "" ==>
              RecordVendor(db, req, a, freshId).status.Ok?
  {
    var a' := a.(vendors := a.vendors + [StoredEntry(req)]);
    assert RecordVendor(db, req, a, freshId).db.admins == Put(db.admins, req.adminId.value, a');
  }

  /** The two checks decide differently exactly when the e-mail as given and its lower-cased
      form disagree on being listed; on every other request the corrected creation is the
      creation as written. */
  lemma CorrectionChangesOnlyCaseVariants(db: Db, req: NewVendor, freshId: Id)
    requires freshId !in Ids(db.vendors)
    ensures CreateVendor(db, req, freshId) != CreateVendorAsWritten(db, req, freshId) <==>
      && NewVendorComplete(req)
      && Get(db.admins, req.adminId.value).Some?
      && Listed(Get(db.admins, req.adminId.value).value, req.email.value)
           != Listed(Get(db.admins, req.adminId.value).value, Lower(req.email.value))
  {
    if NewVendorComplete(req) && Get(db.admins, req.adminId.value).Some? {
      var a := Get(db.admins, req.adminId.value).value;
      var rv := RecordVendor(db, req, a, freshId);
      assert rv.status != Fail(Conflict);
    }
  }

  /** Appending an entry under an e-mail already listed repeats that e-mail. */
  lemma AppendListedBreaksDistinct(a: Admin, e: VendorEntry)
    requires Listed(a, e.email)
    ensures !DistinctEmails(a.(vendors := a.vendors + [e]))
  {
    var j :| 0 <= j < |a.vendors| && a.vendors[j].email == e.email;
    var vs := a.vendors + [e];
    assert vs[j].email == vs[|a.vendors|].email;
  }

  /** The as-written check accepts an e-mail that differs from a listed one only in case,
      and the admin then lists the lower-cased e-mail twice. */
  lemma AsWrittenListsTwice(db: Db, req: NewVendor, freshId: Id)
    requires freshId !in Ids(db.vendors) && NewVendorComplete(req)
    requires Get(db.admins, req.adminId.value).Some?
    requires Listed(Get(db.admins, req.adminId.value).value, Lower(req.email.value))
    requires !Listed(Get(db.admins, req.adminId.value).value, req.email.value)
    requires Trim(req.name.value) != "" && NormalEmail(req.email.value) != "" && Trim(req.password.value) != ""
    ensures CreateVendorAsWritten(db, req, freshId).status.Ok?
    ensures !DistinctEmails(Get(CreateVendorAsWritten(db, req, freshId).db.admins, req.adminId.value).value)
  {
    var a := Get(db.admins, req.adminId.value).value;
    assert CreateVendorAsWritten(db, req, freshId) == RecordVendor(db, req, a, freshId);
    RecordedAdmin(db, req, a, freshId);
    AppendListedBreaksDistinct(a, StoredEntry(req));
  }

  /** On the same input the corrected check refuses the e-mail and writes nothing. */
  lemma CaseVariantSlipsThrough(db: Db, req: NewVendor, freshId: Id)
    requires freshId !in Ids(db.vendors) && NewVendorComplete(req)
    requires Get(db.admins, req.adminId.value).Some?
    requires Listed(Get(db.admins, req.adminId.value).value, Lower(req.email.value))
    requires !Listed(Get(db.admins, req.adminId.value).value, req.email.value)
    requires Trim(req.name.value) != "" && NormalEmail(req.email.value) != "" && Trim(req.password.value) != ""
    ensures CreateVendorAsWritten(db, req, freshId).status.Ok?
    ensures !DistinctEmails(Get(CreateVendorAsWritten(db, req, freshId).db.admins, req.adminId.value).value)
    ensures CreateVendor(db, req, freshId) == Reply(Fail(Conflict), db)
  {
    AsWrittenListsTwice(db, req, freshId);
  }

  /** A concrete instance: an admin listing `"a"` accepts `"A"`. */
  lemma DuplicateSlipsThrough()
    ensures var db := Db([Doc("admin", SampleAdmin())], [], [], [], []);
            var req := NewVendor(Some("admin"), Some("n"), Some("A"), Some("1"), Some("p"));
            && CreateVendorAsWritten(db, req, "v").status.Ok?
            && Get(CreateVendorAsWritten(db, req, "v").db.admins, "admin").Some?
            && !DistinctEmails(Get(CreateVendorAsWritten(db, req, "v").db.admins, "admin").value)
            && CreateVendor(db, req, "v") == Reply(Fail(Conflict), db)
  {
    SampleFacts();
    var db := Db([Doc("admin", SampleAdmin())], [], [], [], []);
    var req := NewVendor(Some("admin"), Some("n"), Some("A"), Some("1"), Some("p"));
    CaseVariantSlipsThrough(db, req, "v");
  }

  /** An admin listing one vendor under `"a"`. */
  function SampleAdmin(): (a: Admin)
    ensures |a.vendors| == 1 && a.vendors[0].email == "a"
  {
    Admin("root", "r", "h", [VendorEntry("n", "a", "1", "p")])
  }

  lemma SampleFacts()
    ensures Get([Doc("admin", SampleAdmin())], "admin") == Some(SampleAdmin())
    ensures Listed(SampleAdmin(), Lower("A")) && !Listed(SampleAdmin(), "A")
    ensures Trim("n") != "" && NormalEmail("A") != "" && Trim("p") != ""
  {
    SampleListed();
    TrimNonEmpty("n", 0);
    TrimNonEmpty("a", 0);
    TrimNonEmpty("p", 0);
  }

  lemma SampleListed()
    ensures Lower("A") == "a"
    ensures Listed(SampleAdmin(), "a") && !Listed(SampleAdmin(), "A")
  {
    assert LowerChar('A') == 'a';
    assert SampleAdmin().vendors[0].email == "a";
  }

  /** A vendor created by an admin can log in straight away with the e-mail in any case and
      the password as given, provided the password has no outer whitespace (the stored copy is
      trimmed) and no earlier login record uses the same e-mail. */
  lemma CreatedVendorCanLogIn(db: Db, req: NewVendor, freshId: Id, email: string)
    requires freshId !in Ids(db.vendors)
    requires CreateVendor(db, req, freshId).status.Ok?
    requires Trim(req.password.value) == req.password.value
    requires email != "" && NormalEmail(email) == NormalEmail(req.email.value)
    requires forall j | 0 <= j < |db.vendors| :: db.vendors[j].val.email != NormalEmail(req.email.value)
    ensures var db1 := CreateVendor(db, req, freshId).db;
            Vendors.VendorLogin(db1, Some(email), req.password).status
              == Ok(VendorSession(freshId, NormalEmail(req.email.value), req.adminId.value, None))
  {
    var db1 := CreatedDb(db, req, freshId);
    var login := StoredLogin(req, req.adminId.value);
    assert login.email == NormalEmail(email) && login.password == req.password.value;
    FoundAfterAdd(db.vendors, freshId, login);
    LoginFinds(db1, |db.vendors|, email, req.password.value);
    assert db1.vendors[|db.vendors|] == Doc(freshId, login);
  }

  /** The other side of the trimmed copy: a vendor created with a password that has outer
      whitespace is refused when it logs in with that same password, because the login
      compares the raw password with the trimmed one stored. */
  lemma PaddedPasswordRefused(db: Db, req: NewVendor, freshId: Id, email: string)
    requires freshId !in Ids(db.vendors)
    requires CreateVendor(db, req, freshId).status.Ok?
    requires Trim(req.password.value) != req.password.value
    requires email != "" && NormalEmail(email) == NormalEmail(req.email.value)
    requires forall j | 0 <= j < |db.vendors| :: db.vendors[j].val.email != NormalEmail(req.email.value)
    ensures var db1 := CreateVendor(db, req, freshId).db;
            Vendors.VendorLogin(db1, Some(email), req.password).status == Fail(Unauthorized)
  {
    var db1 := CreatedDb(db, req, freshId);
    var login := StoredLogin(req, req.adminId.value);
    assert login.email == NormalEmail(email) && login.password != req.password.value;
    FoundAfterAdd(db.vendors, freshId, login);
    assert db1.vendors[|db.vendors|] == Doc(freshId, login);
    LoginRefuses(db1, |db.vendors|, email, req.password.value);
  }

  /** Login is refused when the record the e-mail lookup finds holds another password. */
  lemma LoginRefuses(db: Db, i: nat, email: string, password: string)
    requires email != "" && password != ""
    requires Vendors.VendorByEmail(db.vendors, NormalEmail(email)) == Some(i)
    requires db.vendors[i].val.password != password
    ensures Vendors.VendorLogin(db, Some(email), Some(password)).status == Fail(Unauthorized)
  {
  }

  /** Login succeeds with the session of the record the e-mail lookup finds when its
      password is the one given. */
  lemma LoginFinds(db: Db, i: nat, email: string, password: string)
    requires email != "" && password != ""
    requires Vendors.VendorByEmail(db.vendors, NormalEmail(email)) == Some(i)
    requires db.vendors[i].val.password == password
    ensures Vendors.VendorLogin(db, Some(email), Some(password)).status
              == Ok(VendorSession(db.vendors[i].id, db.vendors[i].val.email,
                                  db.vendors[i].val.adminId, db.vendors[i].val.shop))
  {
  }

  /** What a successful creation leaves in the vendor collection. */
  lemma CreatedDb(db: Db, req: NewVendor, freshId: Id) returns (db1: Db)
    requires freshId !in Ids(db.vendors)
    requires CreateVendor(db, req, freshId).status.Ok?
    ensures NewVendorComplete(req)
    ensures db1 == CreateVendor(db, req, freshId).db
    ensures db1.vendors == Add(db.vendors, freshId, StoredLogin(req, req.adminId.value))
  {
    var r := CreateVendor(db, req, freshId);
    db1 := r.db;
    assert NewVendorComplete(req);
    var a := Get(db.admins, req.adminId.value).value;
    assert !Listed(a, Lower(req.email.value));
    assert r == RecordVendor(db, req, a, freshId);
  }

  /** A record added under an e-mail no earlier record uses is the one found by that e-mail. */
  lemma FoundAfterAdd(vendors: seq<Doc<Vendor>>, id: Id, v: Vendor)
    requires forall j | 0 <= j < |vendors| :: vendors[j].val.email != v.email
    ensures Vendors.VendorByEmail(Add(vendors, id, v), v.email) == Some(|vendors|)
  {
    var c := Add(vendors, id, v);
    assert c[|vendors|].val.email == v.email;
    assert forall j | 0 <= j < |vendors| :: c[j] == vendors[j];
  }

  /** The two saves are not atomic: when the e-mail is only whitespace, the admin's entry
      is saved but the login record, whose e-mail the schema trims to nothing, is rejected.
      The admin then lists a vendor that can never log in. */
  lemma HalfWrittenVendor(db: Db, req: NewVendor, freshId: Id)
    requires freshId !in Ids(db.vendors) && NewVendorComplete(req)
    requires Get(db.admins, req.adminId.value).Some?
    requires !Listed(Get(db.admins, req.adminId.value).value, Lower(req.email.value))
    requires Trim(req.name.value) != "" && NormalEmail(req.email.value) == ""
    ensures var r := CreateVendor(db, req, freshId);
            && r.status == Fail(StoreRejected)
            && r.db.vendors == db.vendors
            && Listed(Get(r.db.admins, req.adminId.value).value, Lower(req.email.value))
  {
    var a := Get(db.admins, req.adminId.value).value;
    var e := StoredEntry(req);
    var a' := a.(vendors := a.vendors + [e]);
    assert CreateVendor(db, req, freshId) == RecordVendor(db, req, a, freshId);
    assert a'.vendors[|a.vendors|].email == Lower(req.email.value);
  }

  // ---------------------------------------------------------------------------
  // Admin review overlay
  // ---------------------------------------------------------------------------

  /** The overlay `addOrEditVendorReview` writes: the review history and the editing admin;
      every field the vendor set stays as it is. */
  function Overlay(env: Env, s: Shop, adminId: Id, review: string, rating: string, now: nat): (r: Shop)
    ensures r.reviewHistory == ReviewHistory(Some(env.parseInt(review)), Some(env.parseFloat(rating)), Some(adminId), now)
    ensures r.lastEditedByAdmin == Some(adminId)
    ensures r.(reviewHistory := s.reviewHistory, lastEditedByAdmin := s.lastEditedByAdmin) == s
  {
    s.(reviewHistory := ReviewHistory(Some(env.parseInt(review)), Some(env.parseFloat(rating)), Some(adminId), now),
       lastEditedByAdmin := Some(adminId))
  }

  /** Only the latest overlay is kept. */
  lemma OverlayLatestWins(env: Env, s: Shop, a1: Id, rv1: string, rt1: string, t1: nat,
                          a2: Id, rv2: string, rt2: string, t2: nat)
    ensures Overlay(env, Overlay(env, s, a1, rv1, rt1, t1), a2, rv2, rt2, t2) == Overlay(env, s, a2, rv2, rt2, t2)
  {
  }

  /** The body of `addOrEditVendorReview`; `review` and `rating` only need to be defined. */
  datatype ReviewRequest = ReviewRequest(
    adminId: Option<string>,
    vendorId: Option<string>,
    review: Option<string>,
    rating: Option<string>)

  predicate ReviewRequestComplete(req: ReviewRequest)
  {
    Truthy(req.adminId) && Truthy(req.vendorId) && req.review.Some? && req.rating.Some?
  }

  /** `addOrEditVendorReview`: checks the fields, the admin, the vendor and that the vendor has
      a shop, in that order; then overlays the admin review and answers with the vendor's own
      review and rating next to it. */
  function AddOrEditVendorReview(env: Env, db: Db, req: ReviewRequest, now: nat): (r: Reply)
    ensures r.status.Fail? ==> r.db == db
    ensures !ReviewRequestComplete(req) <==> r.status == Fail(MissingField)
    ensures ReviewRequestComplete(req) && Get(db.admins, req.adminId.value).None? ==> r.status == Fail(NotFound)
    ensures ReviewRequestComplete(req) && Get(db.admins, req.adminId.value).Some? ==>
      match Get(db.vendors, req.vendorId.value)
      case None => r.status == Fail(NotFound)
      case Some(v) =>
        if v.shop.None? then r.status == Fail(NoShop)
        else
          && var s := v.shop.value;
          && var s' := Overlay(env, s, req.adminId.value, req.review.value, req.rating.value, now);
          && Get(r.db.vendors, req.vendorId.value) == Some(v.(shop := Some(s')))
          && r.status == Ok(ReviewView(req.vendorId.value, s.shopName, s.review, s.rating,
                                       s'.reviewHistory, req.adminId.value))
    ensures forall k :: Some(k) != req.vendorId ==> Get(r.db.vendors, k) == Get(db.vendors, k)
    ensures r.db == db.(vendors := r.db.vendors)
  {
    if !ReviewRequestComplete(req) then Reply(Fail(MissingField), db)
    else if Get(db.admins, req.adminId.value).None? then Reply(Fail(NotFound), db)
    else
      var vendorId := req.vendorId.value;
      match Get(db.vendors, vendorId)
      case None => Reply(Fail(NotFound), db)
      case Some(v) =>
        if v.shop.None? then Reply(Fail(NoShop), db)
        else
          var s := v.shop.value;
          var s' := Overlay(env, s, req.adminId.value, req.review.value, req.rating.value, now);
          Reply(Ok(ReviewView(vendorId, s.shopName, s.review, s.rating, s'.reviewHistory, req.adminId.value)),
                db.(vendors := Put(db.vendors, vendorId, v.(shop := Some(s')))))
  }

  /** An admin review never changes what the vendor wrote: name, address, description,
      own review and rating, image and location survive it. */
  lemma ReviewKeepsVendorFields(env: Env, db: Db, req: ReviewRequest, now: nat)
    requires AddOrEditVendorReview(env, db, req, now).status.Ok?
    ensures var before := Get(db.vendors, req.vendorId.value).value.shop.value;
            var after := Get(AddOrEditVendorReview(env, db, req, now).db.vendors, req.vendorId.value).value.shop.value;
            && after.shopName == before.shopName && after.address == before.address
            && after.description == before.description && after.review == before.review
            && after.rating == before.rating && after.image == before.image
            && after.coordinates == before.coordinates && after.vendorId == before.vendorId
  {
  }
}

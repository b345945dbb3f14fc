/** The vendor controller: vendor login, one-time shop creation, partial shop update and
    vendor deletion. */
module Vendors {
  import opened Common
  import opened Text
  import opened Store
  import opened Records
  import opened Http

  // ---------------------------------------------------------------------------
  // Login
  // ---------------------------------------------------------------------------

  /** Position of the first vendor stored under that (normalised) e-mail. */
  function VendorByEmail(vendors: seq<Doc<Vendor>>, email: string): (r: Option<nat>)
    ensures r.Some? ==> r.value < |vendors| && vendors[r.value].val.email == email
    ensures r.Some? ==> forall j | 0 <= j < r.value :: vendors[j].val.email != email
    ensures r.None? ==> forall j | 0 <= j < |vendors| :: vendors[j].val.email != email
  {
    First(vendors, (d: Doc<Vendor>) => d.val.email == email)
  }

  /** `vendorLogin`: the e-mail is lower-cased and trimmed before the lookup; the stored
      password is compared as plain text; an unknown e-mail and a wrong password give the
      same answer. Nothing is written. */
  function VendorLogin(db: Db, email: Option<string>, password: Option<string>): (r: Reply)
    ensures r.db == db
    ensures !Truthy(email) || !Truthy(password) <==> r.status == Fail(MissingField)
    ensures Truthy(email) && Truthy(password) ==>
      match VendorByEmail(db.vendors, NormalEmail(email.value))
      case None => r.status == Fail(Unauthorized)
      case Some(i) =>
        if db.vendors[i].val.password == password.value
        then r.status == Ok(VendorSession(db.vendors[i].id, db.vendors[i].val.email,
                                          db.vendors[i].val.adminId, db.vendors[i].val.shop))
        else r.status == Fail(Unauthorized)
  {
    if !Truthy(email) || !Truthy(password) then Reply(Fail(MissingField), db)
    else
      match VendorByEmail(db.vendors, NormalEmail(email.value))
      case None => Reply(Fail(Unauthorized), db)
      case Some(i) =>
        var d := db.vendors[i];
        if d.val.password != password.value then Reply(Fail(Unauthorized), db)
        else Reply(Ok(VendorSession(d.id, d.val.email, d.val.adminId, d.val.shop)), db)
  }

  // ---------------------------------------------------------------------------
  // Field cleaning and coordinates
  // ---------------------------------------------------------------------------

  /** `if (f) f = f.replace(/^["']|["']$/g, '').trim()`: only a truthy field is cleaned. */
  function CleanField(f: Option<string>): (r: Option<string>)
    ensures !Truthy(f) ==> r == f
    ensures Truthy(f) ==> r == Some(Clean(f.value))
  {
    if Truthy(f) then Some(Clean(f.value)) else f
  }

  /** Characters `/["']/g` removes. */
  const Quotes: set<char> := {'"', '\''}

  /** Characters `/[\[\]"']/g` removes from a coordinate string. */
  const CoordinateJunk: set<char> := {'[', ']', '"', '\''}

  /** The comma-separated pieces of a coordinate string once brackets and quotes are gone. */
  function CoordinatePieces(s: string): (pieces: seq<string>)
    ensures |pieces| >= 1
  {
    Split(Without(s, CoordinateJunk), ',')
  }

  /** `s.replace(/[\[\]"']/g, '').split(',').map(c => parseFloat(c.trim()))`. */
  function ParseCoordinates(parseFloat: string -> Number, s: string): (r: seq<Number>)
    ensures |r| == |CoordinatePieces(s)|
    ensures forall i | 0 <= i < |r| :: r[i] == parseFloat(Trim(CoordinatePieces(s)[i]))
  {
    var pieces := CoordinatePieces(s);
    seq(|pieces|, i requires 0 <= i < |pieces| => parseFloat(Trim(pieces[i])))
  }

  /** One component per comma of the cleaned text, plus one; the pieces contain no comma,
      bracket or quote, and joined back with commas they give the cleaned text. */
  lemma CoordinateShape(parseFloat: string -> Number, s: string)
    ensures |ParseCoordinates(parseFloat, s)| == multiset(Without(s, CoordinateJunk))[','] + 1
    ensures Join(CoordinatePieces(s), ',') == Without(s, CoordinateJunk)
    ensures forall i, c | 0 <= i < |CoordinatePieces(s)| && c in CoordinatePieces(s)[i] ::
              c != ',' && c !in CoordinateJunk
  {
    var w := Without(s, CoordinateJunk);
    SplitCount(w, ',');
    JoinSplit(w, ',');
    WithoutMembers(s, CoordinateJunk);
    forall i, c | 0 <= i < |CoordinatePieces(s)| && c in CoordinatePieces(s)[i]
      ensures c != ',' && c !in CoordinateJunk
    {
      JoinSplit(w, ',');
      PieceInJoin(CoordinatePieces(s), ',', i, c);
    }
  }

  /** A character of a piece is a character of the join. */
  lemma {:induction false} PieceInJoin(pieces: seq<string>, sep: char, i: nat, c: char)
    requires i < |pieces| && c in pieces[i]
    ensures c in Join(pieces, sep)
  {
    if i > 0 {
      PieceInJoin(pieces[1..], sep, i - 1, c);
    }
  }

  /** `parseFloat` never throws, so a non-empty string without a comma becomes exactly one
      component, whatever it contains: "abc" gives `[parseFloat("abc")]`, never `[0, 0]`. */
  lemma NoCommaOneComponent(parseFloat: string -> Number, s: string)
    requires ',' !in s
    ensures ParseCoordinates(parseFloat, s) == [parseFloat(Trim(Without(s, CoordinateJunk)))]
    ensures ParseCoordinates(parseFloat, s) != [0.0, 0.0]
  {
    WithoutMembers(s, CoordinateJunk);
    SplitNoSep(Without(s, CoordinateJunk), ',');
  }

  /** A bracketed pair `[a,b]` is read as its two trimmed numbers. */
  lemma PairComponents(parseFloat: string -> Number, a: string, b: string)
    requires forall c | c in a :: c != ',' && c !in CoordinateJunk
    requires forall c | c in b :: c != ',' && c !in CoordinateJunk
    ensures ParseCoordinates(parseFloat, ['['] + a + [','] + b + [']']) == [parseFloat(Trim(a)), parseFloat(Trim(b))]
  {
    PairCleaned(a, b);
    SplitAfterPiece(a, ',', b);
    SplitNoSep(b, ',');
  }

  lemma PairCleaned(a: string, b: string)
    requires forall c | c in a :: c !in CoordinateJunk
    requires forall c | c in b :: c !in CoordinateJunk
    ensures Without(['['] + a + [','] + b + [']'], CoordinateJunk) == a + [','] + b
  {
    assert ['['] + a + [','] + b + [']'] == ['['] + (a + ([','] + (b + [']'])));
    WithoutCons('[', a + ([','] + (b + [']'])), CoordinateJunk);
    WithoutKeepsPrefix(a, [','] + (b + [']']), CoordinateJunk);
    WithoutCons(',', b + [']'], CoordinateJunk);
    WithoutKeepsPrefix(b, [']'], CoordinateJunk);
    WithoutCons(']', [], CoordinateJunk);
    assert b + [] == b;
  }

  /** The documented example: `"[12.9,  77.6]"` gives `[12.9, 77.6]`. */
  lemma BracketedPair(parseFloat: string -> Number)
    ensures ParseCoordinates(parseFloat, "[12.9,  77.6]") == [parseFloat("12.9"), parseFloat("77.6")]
  {
    assert Trim("12.9") == "12.9" by { TrimOfTrimmed("12.9"); }
    assert Trim("  77.6") == "77.6" by { PaddedTrim(); }
    PairExample(parseFloat);
  }

  lemma PairExample(parseFloat: string -> Number)
    ensures ParseCoordinates(parseFloat, "[12.9,  77.6]") == [parseFloat(Trim("12.9")), parseFloat(Trim("  77.6"))]
  {
    assert "[12.9,  77.6]" == ['['] + "12.9" + [','] + "  77.6" + [']'];
    PairComponents(parseFloat, "12.9", "  77.6");
  }

  lemma PaddedTrim()
    ensures Trim("  77.6") == "77.6"
  {
    assert "  77.6"[2..6] == "77.6";
    assert TrimBounds("  77.6", 2, 6);
    TrimOfUnique(Trim("  77.6"), "77.6", "  77.6");
  }

  /** The location stored at shop creation: `[0, 0]` only when the cleaned coordinate field is
      absent or empty; otherwise the parsed components. */
  function ShopCoordinates(parseFloat: string -> Number, coordinates: Option<string>): (r: seq<Number>)
    ensures !Truthy(coordinates) ==> r == [0.0, 0.0]
    ensures Truthy(coordinates) ==> r == ParseCoordinates(parseFloat, coordinates.value)
  {
    if Truthy(coordinates) then ParseCoordinates(parseFloat, coordinates.value) else [0.0, 0.0]
  }

  // ---------------------------------------------------------------------------
  // Shop creation
  // ---------------------------------------------------------------------------

  /** The multipart fields of `createVendorWithShaller`, all text. */
  datatype ShopForm = ShopForm(
    vendorId: Option<string>,
    shopName: Option<string>,
    address: Option<string>,
    description: Option<string>,
    rating: Option<string>,
    review: Option<string>,
    coordinates: Option<string>)

  /** The three required fields are non-empty after cleaning. */
  predicate FormComplete(form: ShopForm)
  {
    Truthy(CleanField(form.vendorId)) && Truthy(CleanField(form.shopName)) && Truthy(CleanField(form.address))
  }

  /** The vendor id a complete form names. */
  function FormVendorId(form: ShopForm): Id
    requires FormComplete(form)
  {
    CleanField(form.vendorId).value
  }

  /** A shop counts as existing once it has a non-empty name. */
  predicate HasNamedShop(v: Vendor)
  {
    v.shop.Some? && v.shop.value.shopName != ""
  }

  /** The shop built from a complete form: cleaned name and address, description `""` and
      rating and review `0` when absent, the given image, the vendor id the form names, and no
      admin overlay: the review history holds only the creation time its `editedAt` default
      stamps. */
  function NewShop(env: Env, form: ShopForm, image: string, now: nat): (s: Shop)
    requires FormComplete(form)
    ensures s.shopName == Clean(form.shopName.value) && s.address == Clean(form.address.value)
    ensures s.vendorId == FormVendorId(form) && s.image == image
    ensures !Truthy(CleanField(form.description)) ==> s.description == ""
    ensures Truthy(form.description) ==> s.description == Clean(form.description.value)
    ensures !Truthy(form.rating) ==> s.rating == 0.0
    ensures Truthy(form.rating) ==> s.rating == env.parseFloat(Without(form.rating.value, Quotes))
    ensures !Truthy(form.review) ==> s.review == 0.0
    ensures Truthy(form.review) ==> s.review == env.parseInt(Without(form.review.value, Quotes))
    ensures s.coordinates == ShopCoordinates(env.parseFloat, CleanField(form.coordinates))
    ensures s.lastEditedByAdmin.None? && s.reviewHistory == ReviewHistory(None, None, None, now)
    ensures ShopSavable(s)
  {
    var description := CleanField(form.description);
    Shop(
      shopName := CleanField(form.shopName).value,
      address := CleanField(form.address).value,
      description := if Truthy(description) then description.value else "",
      rating := if Truthy(form.rating) then env.parseFloat(Without(form.rating.value, Quotes)) else 0.0,
      review := if Truthy(form.review) then env.parseInt(Without(form.review.value, Quotes)) else 0.0,
      image := image,
      coordinates := ShopCoordinates(env.parseFloat, CleanField(form.coordinates)),
      vendorId := FormVendorId(form),
      lastEditedByAdmin := None,
      reviewHistory := ReviewHistory(None, None, None, now))
  }

  /** `createVendorWithShaller`. Order of checks: cleaned required fields, vendor lookup, the
      create-once rule, the image upload. A failure writes nothing; success replaces only that
      vendor's shop and reports the profile as complete. */
  function CreateVendorWithShaller(env: Env, db: Db, form: ShopForm, file: Upload, now: nat): (r: Reply)
    ensures r.status.Fail? ==> r.db == db
    ensures !FormComplete(form) <==> r.status == Fail(MissingField)
    ensures FormComplete(form) && Get(db.vendors, FormVendorId(form)).None? ==> r.status == Fail(NotFound)
    ensures FormComplete(form) && Get(db.vendors, FormVendorId(form)).Some? ==>
      if HasNamedShop(Get(db.vendors, FormVendorId(form)).value) then r.status == Fail(Conflict)
      else if file.UploadError? then r.status == Fail(UploadFailed)
      else r.status.Ok?
    ensures r.status.Ok? ==>
      && FormComplete(form)
      && var id := FormVendorId(form);
      && var prior := Get(db.vendors, id);
      && var shop := NewShop(env, form, if file.Uploaded? then file.url else "", now);
      && prior.Some? && !HasNamedShop(prior.value)
      && Get(r.db.vendors, id) == Some(prior.value.(shop := Some(shop)))
      && (forall k :: k != id ==> Get(r.db.vendors, k) == Get(db.vendors, k))
      && r.db == db.(vendors := r.db.vendors)
      && r.status.body == ShopCreated(id, prior.value.email, prior.value.adminId, true, shop)
  {
    if !FormComplete(form) then Reply(Fail(MissingField), db)
    else
      var id := FormVendorId(form);
      match Get(db.vendors, id)
      case None => Reply(Fail(NotFound), db)
      case Some(v) =>
        if HasNamedShop(v) then Reply(Fail(Conflict), db)
        else if file.UploadError? then Reply(Fail(UploadFailed), db)
        else
          var shop := NewShop(env, form, if file.Uploaded? then file.url else "", now);
          var vendors := Put(db.vendors, id, v.(shop := Some(shop)));
          Reply(Ok(ShopCreated(id, v.email, v.adminId, true, shop)), db.(vendors := vendors))
  }

  /** Create-once: after a successful creation, any second creation for the same vendor id is
      refused with `Conflict` and changes nothing, whatever its other fields. */
  lemma CreateOnce(env: Env, db: Db, form: ShopForm, file: Upload, now: nat, again: ShopForm, file2: Upload, later: nat)
    requires CreateVendorWithShaller(env, db, form, file, now).status.Ok?
    requires FormComplete(again) && FormVendorId(again) == FormVendorId(form)
    ensures var db1 := CreateVendorWithShaller(env, db, form, file, now).db;
            CreateVendorWithShaller(env, db1, again, file2, later) == Reply(Fail(Conflict), db1)
  {
  }

  // ---------------------------------------------------------------------------
  // Shop update
  // ---------------------------------------------------------------------------

  /** The body fields of `updateVendorById`; they are not cleaned. */
  datatype ShopUpdate = ShopUpdate(
    shopName: Option<string>,
    address: Option<string>,
    description: Option<string>,
    rating: Option<string>,
    review: Option<string>,
    coordinates: Option<string>)

  /** Only truthy fields overwrite; everything else, the admin overlay included, is kept. */
  function ApplyShopUpdate(env: Env, s: Shop, u: ShopUpdate, file: Upload): (r: Shop)
    ensures r.shopName == (if Truthy(u.shopName) then u.shopName.value else s.shopName)
    ensures r.address == (if Truthy(u.address) then u.address.value else s.address)
    ensures r.description == (if Truthy(u.description) then u.description.value else s.description)
    ensures r.rating == (if Truthy(u.rating) then env.parseFloat(u.rating.value) else s.rating)
    ensures r.review == (if Truthy(u.review) then env.parseInt(u.review.value) else s.review)
    ensures r.coordinates ==
      (if Truthy(u.coordinates) then ParseCoordinates(env.parseFloat, u.coordinates.value) else s.coordinates)
    ensures r.image == (if file.Uploaded? then file.url else s.image)
    ensures r.vendorId == s.vendorId
    ensures r.lastEditedByAdmin == s.lastEditedByAdmin && r.reviewHistory == s.reviewHistory
    ensures ShopSavable(s) ==> ShopSavable(r)
  {
    s.(
      shopName := if Truthy(u.shopName) then u.shopName.value else s.shopName,
      address := if Truthy(u.address) then u.address.value else s.address,
      description := if Truthy(u.description) then u.description.value else s.description,
      rating := if Truthy(u.rating) then env.parseFloat(u.rating.value) else s.rating,
      review := if Truthy(u.review) then env.parseInt(u.review.value) else s.review,
      coordinates :=
        if Truthy(u.coordinates) then ParseCoordinates(env.parseFloat, u.coordinates.value) else s.coordinates,
      image := if file.Uploaded? then file.url else s.image)
  }

  /** `updateVendorById`. Unknown id: `NotFound`. There is no create-once check, so a vendor
      with a shop is always updated (unless the upload throws). A vendor without a shop gets
      the empty object `{}` as its shop, which lacks the required name, address and vendor id,
      so the save throws and nothing is stored. */
  function UpdateVendorById(env: Env, db: Db, id: Id, u: ShopUpdate, file: Upload): (r: Reply)
    ensures r.status.Fail? ==> r.db == db
    ensures Get(db.vendors, id).None? ==> r.status == Fail(NotFound)
    ensures Get(db.vendors, id).Some? && Get(db.vendors, id).value.shop.None? ==>
      r.status == Fail(if file.UploadError? then UploadFailed else StoreRejected)
    ensures Get(db.vendors, id).Some? && Get(db.vendors, id).value.shop.Some? ==>
      && var v := Get(db.vendors, id).value;
      && var v' := v.(shop := Some(ApplyShopUpdate(env, v.shop.value, u, file)));
      && (file.UploadError? ==> r.status == Fail(UploadFailed))
      && (!file.UploadError? ==> r.status == Ok(VendorData(id, v')) && Get(r.db.vendors, id) == Some(v'))
    ensures forall k :: k != id ==> Get(r.db.vendors, k) == Get(db.vendors, k)
    ensures r.db == db.(vendors := r.db.vendors)
  {
    match Get(db.vendors, id)
    case None => Reply(Fail(NotFound), db)
    case Some(v) =>
      if file.UploadError? then Reply(Fail(UploadFailed), db)
      else if v.shop.None? then Reply(Fail(StoreRejected), db)
      else
        var v' := v.(shop := Some(ApplyShopUpdate(env, v.shop.value, u, file)));
        Reply(Ok(VendorData(id, v')), db.(vendors := Put(db.vendors, id, v')))
  }

  /** Repeating an update without a new image changes nothing more. */
  lemma UpdateIdempotent(env: Env, db: Db, id: Id, u: ShopUpdate)
    requires UpdateVendorById(env, db, id, u, NoFile).status.Ok?
    ensures var db1 := UpdateVendorById(env, db, id, u, NoFile).db;
            UpdateVendorById(env, db1, id, u, NoFile).db == db1
  {
    var db1 := UpdateVendorById(env, db, id, u, NoFile).db;
    var v1 := Get(db1.vendors, id).value;
    assert ApplyShopUpdate(env, v1.shop.value, u, NoFile) == v1.shop.value;
    assert Put(db1.vendors, id, v1) == db1.vendors by {
      var i := IndexOf(db1.vendors, id).value;
      assert db1.vendors[i] == Doc(id, v1);
      assert db1.vendors[i := Doc(id, v1)] == db1.vendors;
    }
  }

  // ---------------------------------------------------------------------------
  // Deletion
  // ---------------------------------------------------------------------------

  /** `deleteVendorById`: removes the vendor login record only; the admin's embedded entry
      for that vendor is left in place. */
  function DeleteVendorById(db: Db, id: Id): (r: Reply)
    ensures Get(db.vendors, id).None? <==> r.status == Fail(NotFound)
    ensures r.status.Fail? ==> r.db == db
    ensures r.status.Ok? ==> r.db == db.(vendors := Delete(db.vendors, id))
    ensures r.db.admins == db.admins
    ensures UniqueIds(db.vendors) ==> Get(r.db.vendors, id).None?
    ensures forall k :: k != id ==> Get(r.db.vendors, k) == Get(db.vendors, k)
  {
    if Get(db.vendors, id).None? then Reply(Fail(NotFound), db)
    else Reply(Ok(Done), db.(vendors := Delete(db.vendors, id)))
  }
}

/** The user controller: OTP login, live location and personal information. */
module Users {
  import opened Common
  import opened Store
  import opened Records
  import opened Http

  /** The fixed code every OTP request issues. */
  const OtpCode: string := "1234"

  /** The largest distance from the epoch, in milliseconds, that a `Date` can hold. */
  const MaxTimeMillis: nat := 8_640_000_000_000_000

  /** The time value `new Date(now + minutes * 60 * 1000)` holds: the instant truncated toward
      zero, or no valid date when the minutes are not a number or the instant lies beyond the
      range of a `Date`. */
  function OtpExpiry(minutes: Option<Number>, now: nat): (r: Option<int>)
    ensures r.Some? <==>
      && minutes.Some?
      && -(MaxTimeMillis as real) <= now as real + minutes.value * 60000.0 <= MaxTimeMillis as real
    ensures r.Some? ==>
      var t := now as real + minutes.value * 60000.0;
      && (t >= 0.0 ==> r.value as real <= t < r.value as real + 1.0)
      && (t < 0.0 ==> r.value as real - 1.0 < t <= r.value as real)
  {
    if minutes.None? then None
    else
      var t := now as real + minutes.value * 60000.0;
      if t < -(MaxTimeMillis as real) || t > MaxTimeMillis as real then None
      else if t >= 0.0 then Some(t.Floor)
      else Some(-((-t).Floor))
  }

  /** A lifetime that is a whole number of milliseconds, as any whole or half minute is,
      moves the expiry by exactly that much. */
  lemma WholeMillisExpiry(minutes: Number, now: nat, millis: int)
    requires minutes * 60000.0 == millis as real
    requires -(MaxTimeMillis as int) <= now + millis <= MaxTimeMillis
    ensures OtpExpiry(Some(minutes), now) == Some(now + millis)
  {
    var t := now as real + minutes * 60000.0;
    assert t == (now + millis) as real;
    assert -t == (-(now + millis)) as real;
  }

  /** Half a minute, from the configured text "0.5", lasts 30 seconds. */
  lemma HalfMinuteExpiry(now: nat)
    requires now <= MaxTimeMillis - 30000
    ensures OtpExpiry(Some(0.5), now) == Some(now + 30000)
  {
    WholeMillisExpiry(0.5, now, 30000);
  }

  /** Position of the first user registered under that mobile number. */
  function UserByMobile(users: seq<Doc<User>>, mobile: string): (r: Option<nat>)
    ensures r.Some? ==> r.value < |users| && users[r.value].val.mobileNumber == mobile
    ensures r.Some? ==> forall j | 0 <= j < r.value :: users[j].val.mobileNumber != mobile
    ensures r.None? ==> forall j | 0 <= j < |users| :: users[j].val.mobileNumber != mobile
  {
    First(users, (d: Doc<User>) => d.val.mobileNumber == mobile)
  }

  // ---------------------------------------------------------------------------
  // OTP
  // ---------------------------------------------------------------------------

  /** Saving a user under the same number leaves every lookup by number where it was. */
  lemma MobileLookupAfterSet(users: seq<Doc<User>>, j: nat, d: Doc<User>, m: string)
    requires j < |users| && d.val.mobileNumber == users[j].val.mobileNumber
    ensures UserByMobile(users[j := d], m) == UserByMobile(users, m)
  {
    FirstDeterminedByMatches(users, (x: Doc<User>) => x.val.mobileNumber == m,
                             users[j := d], (x: Doc<User>) => x.val.mobileNumber == m);
  }

  /** A user appended under a number no earlier user has is the one found by it. */
  lemma MobileFoundAtEnd(users: seq<Doc<User>>, d: Doc<User>, m: string)
    requires forall j | 0 <= j < |users| :: users[j].val.mobileNumber != m
    requires d.val.mobileNumber == m
    ensures UserByMobile(users + [d], m) == Some(|users|)
  {
    var r := users + [d];
    assert r[|users|] == d;
    assert forall j | 0 <= j < |users| :: r[j] == users[j];
  }

  /** `sendOtp`: the user registered under the number (a new one, with the schema defaults,
      when there is none) gets the fixed OTP and an expiry `otpExpiryMinutes` after `now`.
      When the configured minutes give no valid date the save throws, the reply is 500 and
      nothing is written. The signed token is not modelled. */
  function SendOtp(env: Env, db: Db, mobile: Option<string>, now: nat, freshId: Id): (r: Reply)
    requires freshId !in Ids(db.users)
    ensures !Truthy(mobile) <==> r == Reply(Fail(MissingField), db)
    ensures Truthy(mobile) && OtpExpiry(env.otpExpiryMinutes, now).None? ==>
      r == Reply(Fail(StoreRejected), db)
    ensures Truthy(mobile) && OtpExpiry(env.otpExpiryMinutes, now).Some? ==>
      && r.status == Ok(OtpSent(OtpCode))
      && r.db == db.(users := r.db.users)
      && var i := UserByMobile(r.db.users, mobile.value);
      && i.Some?
      && r.db.users[i.value].val.otp == Some(OtpCode)
      && r.db.users[i.value].val.otpExpiresAt == OtpExpiry(env.otpExpiryMinutes, now)
      && match UserByMobile(db.users, mobile.value)
         case Some(j) =>
           && |r.db.users| == |db.users|
           && r.db.users == db.users[j := r.db.users[j]]
           && i.value == j
           && r.db.users[j] == Doc(db.users[j].id, db.users[j].val.(otp := Some(OtpCode),
                otpExpiresAt := OtpExpiry(env.otpExpiryMinutes, now)))
         case None =>
           && |r.db.users| == |db.users| + 1 && r.db.users[..|db.users|] == db.users
           && i.value == |db.users|
           && r.db.users[i.value] == Doc(freshId, NewUser(mobile.value).(otp := Some(OtpCode),
                otpExpiresAt := OtpExpiry(env.otpExpiryMinutes, now)))
  {
    if !Truthy(mobile) then Reply(Fail(MissingField), db)
    else
      var m := mobile.value;
      var expiry := OtpExpiry(env.otpExpiryMinutes, now);
      if expiry.None? then Reply(Fail(StoreRejected), db)
      else
      match UserByMobile(db.users, m)
      case Some(j) =>
        var u := db.users[j];
        var users := db.users[j := Doc(u.id, u.val.(otp := Some(OtpCode), otpExpiresAt := expiry))];
        MobileLookupAfterSet(db.users, j, users[j], m);
        Reply(Ok(OtpSent(OtpCode)), db.(users := users))
      case None =>
        var u := NewUser(m).(otp := Some(OtpCode), otpExpiresAt := expiry);
        var users := Add(db.users, freshId, u);
        MobileFoundAtEnd(db.users, Doc(freshId, u), m);
        Reply(Ok(OtpSent(OtpCode)), db.(users := users))
  }

  /** `verifyOtp`. Checks, in order: both fields given, the token verifies, a user holds the
      number it carries, the code matches, and the code has not expired (a user without an
      expiry never expires). Only success writes, and it only sets `isVerified`. */
  function VerifyOtp(env: Env, db: Db, otp: Option<string>, token: Option<string>, now: nat): (r: Reply)
    ensures r.status.Fail? ==> r.db == db
    ensures !Truthy(otp) || !Truthy(token) <==> r.status == Fail(MissingField)
    ensures Truthy(otp) && Truthy(token) && env.tokenMobile(token.value).None? ==> r.status == Fail(BadToken)
    ensures Truthy(otp) && Truthy(token) && env.tokenMobile(token.value).Some? ==>
      match UserByMobile(db.users, env.tokenMobile(token.value).value)
      case None => r.status == Fail(NotFound)
      case Some(i) =>
        var u := db.users[i];
        if u.val.otp != otp then r.status == Fail(WrongOtp)
        else if u.val.otpExpiresAt.Some? && now > u.val.otpExpiresAt.value then r.status == Fail(OtpExpired)
        else r.status == Ok(OtpVerified(u.id)) && r.db == db.(users := db.users[i := Doc(u.id, u.val.(isVerified := true))])
  {
    if !Truthy(otp) || !Truthy(token) then Reply(Fail(MissingField), db)
    else
      match env.tokenMobile(token.value)
      case None => Reply(Fail(BadToken), db)
      case Some(m) =>
        match UserByMobile(db.users, m)
        case None => Reply(Fail(NotFound), db)
        case Some(i) =>
          var u := db.users[i];
          if u.val.otp != otp then Reply(Fail(WrongOtp), db)
          else if u.val.otpExpiresAt.Some? && now > u.val.otpExpiresAt.value then Reply(Fail(OtpExpired), db)
          else Reply(Ok(OtpVerified(u.id)), db.(users := db.users[i := Doc(u.id, u.val.(isVerified := true))]))
  }

  /** Sending an OTP and then presenting it, with a token for the same number, within the
      lifetime verifies the user that received it. */
  lemma SendThenVerify(env: Env, db: Db, mobile: string, sentAt: nat, freshId: Id, token: string, now: nat)
    requires freshId !in Ids(db.users) && mobile != ""
    requires env.tokenMobile(token) == Some(mobile) && token != ""
    requires OtpExpiry(env.otpExpiryMinutes, sentAt).Some?
    requires sentAt <= now <= OtpExpiry(env.otpExpiryMinutes, sentAt).value
    ensures var db1 := SendOtp(env, db, Some(mobile), sentAt, freshId).db;
            var i := UserByMobile(db1.users, mobile).value;
            && VerifyOtp(env, db1, Some(OtpCode), Some(token), now).status == Ok(OtpVerified(db1.users[i].id))
            && UserByMobile(VerifyOtp(env, db1, Some(OtpCode), Some(token), now).db.users, mobile) == Some(i)
            && VerifyOtp(env, db1, Some(OtpCode), Some(token), now).db.users[i].val.isVerified
  {
    var db1 := SendOtp(env, db, Some(mobile), sentAt, freshId).db;
    var i := UserByMobile(db1.users, mobile).value;
    var u := db1.users[i];
    var users := db1.users[i := Doc(u.id, u.val.(isVerified := true))];
    FirstDeterminedByMatches(db1.users, (d: Doc<User>) => d.val.mobileNumber == mobile,
                             users, (d: Doc<User>) => d.val.mobileNumber == mobile);
  }

  /** A negative configured lifetime issues an OTP that has already expired: the right code,
      presented with a token for the same number at the sending time or later, is refused. */
  lemma NegativeLifetimeExpired(env: Env, db: Db, mobile: string, sentAt: nat, freshId: Id, token: string, now: nat)
    requires freshId !in Ids(db.users) && mobile != ""
    requires env.tokenMobile(token) == Some(mobile) && token != ""
    requires env.otpExpiryMinutes.Some? && env.otpExpiryMinutes.value < 0.0
    requires OtpExpiry(env.otpExpiryMinutes, sentAt).Some?
    requires 0 < sentAt <= now
    ensures VerifyOtp(env, SendOtp(env, db, Some(mobile), sentAt, freshId).db, Some(OtpCode), Some(token), now)
            == Reply(Fail(OtpExpired), SendOtp(env, db, Some(mobile), sentAt, freshId).db)
  {
    var expiry := OtpExpiry(env.otpExpiryMinutes, sentAt).value;
    assert expiry < sentAt;
  }

  /** A wrong code is reported as wrong even after expiry: the code is checked first. */
  lemma WrongOtpBeforeExpiry(env: Env, db: Db, otp: string, token: string, now: nat)
    requires otp != "" && token != "" && env.tokenMobile(token).Some?
    requires UserByMobile(db.users, env.tokenMobile(token).value).Some?
    requires db.users[UserByMobile(db.users, env.tokenMobile(token).value).value].val.otp != Some(otp)
    ensures VerifyOtp(env, db, Some(otp), Some(token), now) == Reply(Fail(WrongOtp), db)
  {
  }

  // ---------------------------------------------------------------------------
  // Location
  // ---------------------------------------------------------------------------

  /** `saveLocation`, and equally `updateLocationById`: both read the user id from the body and
      store `[longitude, latitude]`; latitude and longitude only need to be defined. The save is
      rejected by the location index when the point is off the sphere. */
  function SaveLocation(db: Db, userId: Option<string>, latitude: Option<Number>, longitude: Option<Number>)
    : (r: Reply)
    ensures r.status.Fail? ==> r.db == db
    ensures !Truthy(userId) || latitude.None? || longitude.None? <==> r.status == Fail(MissingField)
    ensures Truthy(userId) && latitude.Some? && longitude.Some? ==>
      match Get(db.users, userId.value)
      case None => r.status == Fail(NotFound)
      case Some(u) =>
        if !OnSphere(longitude.value, latitude.value) then r == Reply(Fail(StoreRejected), db)
        else
          && r.status == Ok(LocationSaved([longitude.value, latitude.value]))
          && Get(r.db.users, userId.value) == Some(u.(location := Some([longitude.value, latitude.value])))
    ensures forall k :: Some(k) != userId ==> Get(r.db.users, k) == Get(db.users, k)
    ensures r.db == db.(users := r.db.users)
  {
    if !Truthy(userId) || latitude.None? || longitude.None? then Reply(Fail(MissingField), db)
    else
      match Get(db.users, userId.value)
      case None => Reply(Fail(NotFound), db)
      case Some(u) =>
        if !OnSphere(longitude.value, latitude.value) then Reply(Fail(StoreRejected), db)
        else
          var coordinates := [longitude.value, latitude.value];
          Reply(Ok(LocationSaved(coordinates)), db.(users := Put(db.users, userId.value, u.(location := Some(coordinates)))))
  }

  /** `deleteLocationById`: the location is removed; nothing else about the user changes. */
  function DeleteLocationById(db: Db, id: Id): (r: Reply)
    ensures Get(db.users, id).None? <==> r == Reply(Fail(NotFound), db)
    ensures Get(db.users, id).Some? ==>
      && r.status == Ok(Done)
      && Get(r.db.users, id) == Some(Get(db.users, id).value.(location := None))
    ensures forall k :: k != id ==> Get(r.db.users, k) == Get(db.users, k)
    ensures r.db == db.(users := r.db.users)
  {
    match Get(db.users, id)
    case None => Reply(Fail(NotFound), db)
    case Some(u) => Reply(Ok(Done), db.(users := Put(db.users, id, u.(location := None))))
  }

  /** Saving a location after deleting it gives the same user as saving it directly. A point
      off the sphere is refused either way, and then the deletion stands. */
  lemma SaveAfterDelete(db: Db, id: Id, latitude: Number, longitude: Number)
    requires Get(db.users, id).Some?
    ensures var db1 := DeleteLocationById(db, id).db;
            var after := SaveLocation(db1, Some(id), Some(latitude), Some(longitude));
            var direct := SaveLocation(db, Some(id), Some(latitude), Some(longitude));
            && after.status == direct.status
            && (OnSphere(longitude, latitude) ==> Get(after.db.users, id) == Get(direct.db.users, id))
            && (!OnSphere(longitude, latitude) ==> Get(after.db.users, id).value.location.None?)
  {
  }

  // ---------------------------------------------------------------------------
  // Personal information
  // ---------------------------------------------------------------------------

  /** The personal information written by both the create and the update handler: a truthy
      field replaces the stored one, an absent or empty field keeps it, and the image is the
      new upload or else the stored image (or `""`). */
  function MergeInfo(stored: Option<PersonalInfo>, fullName: Option<string>, email: Option<string>, file: Upload)
    : (r: PersonalInfo)
    requires !file.UploadError?
    ensures r.fullName == (if Truthy(fullName) then fullName else if stored.Some? then stored.value.fullName else None)
    ensures r.email == (if Truthy(email) then email else if stored.Some? then stored.value.email else None)
    ensures file.Uploaded? ==> r.image == file.url
    ensures file.NoFile? && stored.Some? ==> r.image == stored.value.image
    ensures file.NoFile? && stored.None? ==> r.image == ""
  {
    var image := if file.Uploaded? then file.url else if stored.Some? then stored.value.image else "";
    PersonalInfo(Or(fullName, if stored.Some? then stored.value.fullName else None),
                 Or(email, if stored.Some? then stored.value.email else None),
                 image)
  }

  /** Re-sending the same fields without a new image changes nothing further. */
  lemma MergeInfoIdempotent(stored: Option<PersonalInfo>, fullName: Option<string>, email: Option<string>, file: Upload)
    requires !file.UploadError?
    ensures var once := MergeInfo(stored, fullName, email, file);
            MergeInfo(Some(once), fullName, email, NoFile) == once
  {
  }

  /** The shared tail of both personal-information handlers, once the user at position `i`
      is known. */
  function SavePersonalInfo(db: Db, i: nat, fullName: Option<string>, email: Option<string>, file: Upload)
    : (r: Reply)
    requires i < |db.users|
    ensures var u := db.users[i].val;
      && (!u.isVerified ==> r == Reply(Fail(NotVerified), db))
      && (u.isVerified && file.UploadError? ==> r == Reply(Fail(UploadFailed), db))
      && (u.isVerified && !file.UploadError? ==>
            && var info := MergeInfo(u.personalInfo, fullName, email, file);
            && r.status == Ok(PersonalInfoSaved(info))
            && r.db == db.(users := db.users[i := Doc(db.users[i].id, u.(personalInfo := Some(info)))]))
  {
    var u := db.users[i].val;
    if !u.isVerified then Reply(Fail(NotVerified), db)
    else if file.UploadError? then Reply(Fail(UploadFailed), db)
    else
      var info := MergeInfo(u.personalInfo, fullName, email, file);
      Reply(Ok(PersonalInfoSaved(info)), db.(users := db.users[i := Doc(db.users[i].id, u.(personalInfo := Some(info)))]))
  }

  /** `createOrUpdatePersonalInfo`: the user is found by mobile number; an unknown user and
      an unverified one get the same refusal. */
  function CreateOrUpdatePersonalInfo(db: Db, mobile: Option<string>, fullName: Option<string>,
                                      email: Option<string>, file: Upload): (r: Reply)
    ensures r.status.Fail? ==> r.db == db
    ensures !Truthy(mobile) <==> r.status == Fail(MissingField)
    ensures Truthy(mobile) ==>
      match UserByMobile(db.users, mobile.value)
      case None => r.status == Fail(NotVerified)
      case Some(i) => r == SavePersonalInfo(db, i, fullName, email, file)
    ensures r.status.Ok? ==> db.users[UserByMobile(db.users, mobile.value).value].val.isVerified
    ensures |r.db.users| == |db.users|
  {
    if !Truthy(mobile) then Reply(Fail(MissingField), db)
    else
      match UserByMobile(db.users, mobile.value)
      case None => Reply(Fail(NotVerified), db)
      case Some(i) => SavePersonalInfo(db, i, fullName, email, file)
  }

  /** `updatePersonalInfoById`: the same write, with the user found by id; an unknown id is
      refused like an unverified user. */
  function UpdatePersonalInfoById(db: Db, id: Id, fullName: Option<string>, email: Option<string>, file: Upload)
    : (r: Reply)
    ensures r.status.Fail? ==> r.db == db
    ensures Get(db.users, id).None? ==> r.status == Fail(NotVerified)
    ensures Get(db.users, id).Some? && !Get(db.users, id).value.isVerified ==> r.status == Fail(NotVerified)
    ensures r.status.Ok? ==>
      && var u := Get(db.users, id).value;
      && u.isVerified && !file.UploadError?
      && var info := MergeInfo(u.personalInfo, fullName, email, file);
      && r.status == Ok(PersonalInfoSaved(info))
      && Get(r.db.users, id) == Some(u.(personalInfo := Some(info)))
      && r.db == db.(users := r.db.users)
    ensures forall k :: k != id ==> Get(r.db.users, k) == Get(db.users, k)
  {
    match IndexOf(db.users, id)
    case None => Reply(Fail(NotVerified), db)
    case Some(i) =>
      assert Put(db.users, id, db.users[i].val) == db.users;
      var r := SavePersonalInfo(db, i, fullName, email, file);
      assert r.status.Ok? ==> r.db.users == Put(db.users, id, r.db.users[i].val);
      r
  }

  /** With unique ids, both handlers write the same thing for the same user. */
  lemma PersonalInfoByMobileOrId(db: Db, mobile: string, fullName: Option<string>, email: Option<string>, file: Upload)
    requires UniqueIds(db.users) && mobile != ""
    requires UserByMobile(db.users, mobile).Some?
    ensures var id := db.users[UserByMobile(db.users, mobile).value].id;
            CreateOrUpdatePersonalInfo(db, Some(mobile), fullName, email, file)
              == UpdatePersonalInfoById(db, id, fullName, email, file)
  {
    var i := UserByMobile(db.users, mobile).value;
    assert IndexOf(db.users, db.users[i].id) == Some(i);
  }

  /** `deletePersonalInfoById`: removes the personal information only. */
  function DeletePersonalInfoById(db: Db, id: Id): (r: Reply)
    ensures Get(db.users, id).None? <==> r == Reply(Fail(NotFound), db)
    ensures Get(db.users, id).Some? ==>
      && r.status == Ok(Done)
      && Get(r.db.users, id) == Some(Get(db.users, id).value.(personalInfo := None))
    ensures forall k :: k != id ==> Get(r.db.users, k) == Get(db.users, k)
    ensures r.db == db.(users := r.db.users)
  {
    match Get(db.users, id)
    case None => Reply(Fail(NotFound), db)
    case Some(u) => Reply(Ok(Done), db.(users := Put(db.users, id, u.(personalInfo := None))))
  }
}

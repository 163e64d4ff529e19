/** The account and one-time-code handlers of the Express server
    (src/Connection/Server.js). The two Mongo collections are sequences in
    natural order (so `findOne` is the first match), bcrypt is an injective
    function whose outputs start with "$2", email delivery is a success flag,
    the random draw of `generateOTP` is a parameter, and the clock is an
    integer number of milliseconds passed in as `now`. */
module Auth {
  import opened Common
  import opened Text

  /** `10 * 60 * 1000`: lifetime of every one-time code. */
  const CodeTtlMs: int := 600000
  /** The `expiresIn: '24h'` of every signed token. */
  const TokenTtlMs: int := 86400000

  /** Placeholder payloads stored by the login-code and reset-code flows. */
  const LoginPlaceholder: string := "login-otp"
  const ResetPlaceholder: string := "reset"

  datatype User = User(username: string, email: string, password: string, isVerified: bool)

  /** An OTP document. `password` holds a bcrypt hash (registration) or a placeholder. */
  datatype OtpRecord = OtpRecord(email: string, otp: string, username: string, password: string, expiresAt: int)

  /** A signed token: the identity it names and when it stops being accepted. */
  datatype Token = Token(subject: string, expiresAt: int)

  /** The `user` and `token` parts of a successful login or registration. */
  datatype Session = Session(username: string, email: string, token: Token)

  /** An HTTP answer: a success body, or `{ error }` with its status. */
  datatype Reply =
    | Ok(status: nat, message: string, session: Option<Session>)
    | Fail(status: nat, error: string)

  /** bcrypt output starts with "$2"; the pre-save hook leaves such strings alone. */
  predicate IsHashed(p: string)
  {
    |p| >= 2 && p[0] == '$' && p[1] == '2'
  }

  /** What the model needs of bcrypt: deterministic, injective, "$2"-prefixed. */
  ghost predicate HashModel(hash: string -> string)
  {
    && (forall p :: IsHashed(hash(p)))
    && (forall p, q :: hash(p) == hash(q) ==> p == q)
  }

  /** The user schema's pre-save hook: hash the password unless it already looks hashed. */
  function PreSave(hash: string -> string, password: string): (stored: string)
    ensures HashModel(hash) ==> IsHashed(stored)
    ensures IsHashed(password) ==> stored == password
  {
    if IsHashed(password) then password else hash(password)
  }

  /** `bcrypt.compare(candidate, stored)`. */
  predicate PasswordMatches(hash: string -> string, candidate: string, stored: string)
  {
    hash(candidate) == stored
  }

  /** Six decimal digits denoting a number in [100000, 999999]. */
  predicate IsOtpCode(c: string)
  {
    |c| == 6 && AllDigits(c) && 100000 <= DecimalValue(c) <= 999999
  }

  /** `Math.floor(100000 + Math.random() * 900000).toString()`, with the
      floored random part given as `draw`. */
  function GenerateOtp(draw: nat): (code: string)
    requires draw < 900000
    ensures IsOtpCode(code) && DecimalValue(code) == 100000 + draw
  {
    assert Pow10(5) == 100000 && Pow10(6) == 1000000;
    DecimalRoundTrip(100000 + draw);
    DecimalLength(100000 + draw, 6);
    NatToDecimal(100000 + draw)
  }

  /** What a successful sign-in returns: the user's name and email and a
      token valid for `expiresIn: '24h'` from `now`. */
  function SessionFor(user: User, now: int): (r: Session)
    ensures r.username == user.username && r.email == user.email
    ensures r.token.subject == user.email && r.token.expiresAt == now + 24 * 60 * 60 * 1000
  {
    Session(user.username, user.email, Token(user.email, now + TokenTtlMs))
  }

  /** The answer of a code-issuing handler once the code is stored. */
  function DeliveryReply(delivered: bool, message: string): Reply
  {
    if delivered then Ok(200, message, None) else Fail(500, "Failed to send OTP email")
  }

  // ---------------------------------------------------------------- users

  /** `User.findOne({ email })`. */
  function FindUserByEmail(users: seq<User>, email: string): (r: Option<nat>)
    ensures r.Some? ==> r.value < |users| && users[r.value].email == email
    ensures r.None? ==> forall i :: 0 <= i < |users| ==> users[i].email != email
  {
    FirstIndex(users, (u: User) => u.email == email)
  }

  /** `User.findOne({ $or: [{ email }, { username }] })`. */
  function FindIdentity(users: seq<User>, email: string, username: string): (r: Option<nat>)
    ensures r.Some? ==> r.value < |users|
    ensures r.Some? ==> users[r.value].email == email || users[r.value].username == username
    ensures r.None? ==> forall i :: 0 <= i < |users| ==> users[i].email != email && users[i].username != username
  {
    FirstIndex(users, (u: User) => u.email == email || u.username == username)
  }

  /** The conflict answer: it names the email when the email collides, else the username. */
  function ClashReply(existing: User, email: string): (r: Reply)
    ensures r.Fail? && r.status == 400
    ensures r.error == "User with this email already exists" <==> existing.email == email
  {
    if existing.email == email then Fail(400, "User with this email already exists")
    else Fail(400, "Username is already taken")
  }

  /** The unique indexes on `email` and `username`. */
  ghost predicate UniqueIdentities(users: seq<User>)
  {
    forall i, j :: 0 <= i < j < |users| ==> users[i].email != users[j].email && users[i].username != users[j].username
  }

  /** `POST /api/users/login`: a function of the user store, which it does not change. */
  function Login(users: seq<User>, hash: string -> string, email: string, password: string, now: int): (r: Reply)
    ensures r.Ok? ==> exists i :: 0 <= i < |users| && users[i].email == email && users[i].isVerified
    ensures r.Ok? ==> r.session.Some? && r.session.value.email == email && r.session.value.token == Token(email, now + TokenTtlMs)
    ensures r.Fail? ==> r.status == 400
  {
    if email == "" || password == "" then Fail(400, "Email and password are required")
    else match FindUserByEmail(users, email)
      case None => Fail(400, "Invalid email or password")
      case Some(i) =>
        if !users[i].isVerified then Fail(400, "Please verify your email first")
        else if !PasswordMatches(hash, password, users[i].password) then Fail(400, "Invalid email or password")
        else Ok(200, "Login successful", Some(SessionFor(users[i], now)))
  }

  // ---------------------------------------------------------------- codes

  /** `OTP.findOne({ email, otp })`. */
  function FindCode(otps: seq<OtpRecord>, email: string, code: string): (r: Option<nat>)
    ensures r.Some? ==> r.value < |otps| && otps[r.value].email == email && otps[r.value].otp == code
    ensures r.None? ==> forall i :: 0 <= i < |otps| ==> !(otps[i].email == email && otps[i].otp == code)
  {
    FirstIndex(otps, (o: OtpRecord) => o.email == email && o.otp == code)
  }

  /** `OTP.findOne({ email })`. */
  function FindOtpByEmail(otps: seq<OtpRecord>, email: string): (r: Option<nat>)
    ensures r.Some? ==> r.value < |otps| && otps[r.value].email == email
    ensures r.None? ==> forall i :: 0 <= i < |otps| ==> otps[i].email != email
  {
    FirstIndex(otps, (o: OtpRecord) => o.email == email)
  }

  /** `OTP.deleteMany({ email })`. */
  function DeleteByEmail(otps: seq<OtpRecord>, email: string): (r: seq<OtpRecord>)
    ensures forall i :: 0 <= i < |r| ==> r[i] in otps && r[i].email != email
    ensures forall i :: 0 <= i < |otps| && otps[i].email != email ==> otps[i] in r
    ensures AtMostOnePerEmail(otps) ==> AtMostOnePerEmail(r)
  {
    var keep := (o: OtpRecord) => o.email != email;
    FilterKeepsDistinct(otps, keep, EmailOf);
    Filter(otps, keep)
  }

  /** The store after a code is issued: earlier codes for the email deleted, then the new one saved. */
  function Issued(otps: seq<OtpRecord>, record: OtpRecord): seq<OtpRecord>
  {
    DeleteByEmail(otps, record.email) + [record]
  }

  function EmailOf(o: OtpRecord): string
  {
    o.email
  }

  /** The invariant the delete-then-insert discipline maintains. */
  ghost predicate AtMostOnePerEmail(otps: seq<OtpRecord>)
  {
    DistinctBy(otps, EmailOf)
  }

  ghost predicate CodesWellFormed(otps: seq<OtpRecord>)
  {
    forall i :: 0 <= i < |otps| ==> IsOtpCode(otps[i].otp)
  }

  /** Issuing a code leaves exactly one record for the email, the new one,
      and keeps every other email's records. */
  lemma IssueLeavesSingleRecord(otps: seq<OtpRecord>, record: OtpRecord)
    requires AtMostOnePerEmail(otps)
    ensures AtMostOnePerEmail(Issued(otps, record))
    ensures FindOtpByEmail(Issued(otps, record), record.email) == Some(|Issued(otps, record)| - 1)
    ensures forall i :: 0 <= i < |Issued(otps, record)| && Issued(otps, record)[i].email == record.email ==>
      Issued(otps, record)[i] == record
    ensures forall i :: 0 <= i < |otps| && otps[i].email != record.email ==> otps[i] in Issued(otps, record)
  {
    var kept := DeleteByEmail(otps, record.email);
    var r := Issued(otps, record);
    assert forall i :: 0 <= i < |kept| ==> r[i] == kept[i];
    assert r[|r| - 1].email == record.email;
  }

  /** After its record is deleted, no code of that email matches any more: codes are single-use. */
  lemma ConsumedCodeIsGone(otps: seq<OtpRecord>, i: nat)
    requires AtMostOnePerEmail(otps) && i < |otps|
    ensures FindOtpByEmail(RemoveAt(otps, i), otps[i].email).None?
    ensures forall code :: FindCode(RemoveAt(otps, i), otps[i].email, code).None?
  {
    var r := RemoveAt(otps, i);
    forall j | 0 <= j < |r| ensures r[j].email != otps[i].email {
      if j < i {
        assert r[j] == otps[j];
      } else {
        assert r[j] == otps[j + 1];
      }
    }
  }

  lemma RemoveKeepsInvariant(otps: seq<OtpRecord>, i: nat)
    requires AtMostOnePerEmail(otps) && CodesWellFormed(otps) && i < |otps|
    ensures AtMostOnePerEmail(RemoveAt(otps, i)) && CodesWellFormed(RemoveAt(otps, i))
  {
    var r := RemoveAt(otps, i);
    forall a, b | 0 <= a < b < |r| ensures r[a].email != r[b].email {
      var a' := if a < i then a else a + 1;
      var b' := if b < i then b else b + 1;
      assert r[a] == otps[a'] && r[b] == otps[b'];
    }
  }

  /** Rewriting a code in place (resend) keeps the email, username and stored
      password of the record, and keeps the invariant. */
  lemma ReissueKeepsPayload(otps: seq<OtpRecord>, i: nat, code: string, expiresAt: int)
    requires AtMostOnePerEmail(otps) && i < |otps|
    ensures var r := otps[i := otps[i].(otp := code, expiresAt := expiresAt)];
      && AtMostOnePerEmail(r)
      && r[i].email == otps[i].email && r[i].username == otps[i].username && r[i].password == otps[i].password
      && r[i].otp == code && r[i].expiresAt == expiresAt
      && forall j :: 0 <= j < |otps| && j != i ==> r[j] == otps[j]
  {
  }

  // ---------------------------------------------------------------- login properties

  /** An unknown email and a wrong password get the identical answer. */
  lemma LoginFailureIsUniform(users: seq<User>, hash: string -> string, unknown: string, email: string, wrong: string, anyPassword: string, now: int)
    requires UniqueIdentities(users)
    requires unknown != "" && anyPassword != "" && email != "" && wrong != ""
    requires forall i :: 0 <= i < |users| ==> users[i].email != unknown
    requires exists i :: 0 <= i < |users| && users[i].email == email && users[i].isVerified && hash(wrong) != users[i].password
    ensures Login(users, hash, unknown, anyPassword, now) == Login(users, hash, email, wrong, now)
    ensures Login(users, hash, unknown, anyPassword, now) == Fail(400, "Invalid email or password")
  {
    var i :| 0 <= i < |users| && users[i].email == email && users[i].isVerified && hash(wrong) != users[i].password;
    var k := FindUserByEmail(users, email).value;
    assert k == i;
  }

  /** With unique emails, login succeeds exactly for the holder of the email,
      when verified, with a password that hashes to the stored one. */
  lemma LoginSucceedsIff(users: seq<User>, hash: string -> string, email: string, password: string, now: int)
    requires UniqueIdentities(users)
    ensures Login(users, hash, email, password, now).Ok? <==>
      email != "" && password != "" &&
      exists i :: 0 <= i < |users| && users[i].email == email && users[i].isVerified && hash(password) == users[i].password
  {
    if email != "" && password != "" && exists i :: 0 <= i < |users| && users[i].email == email && users[i].isVerified && hash(password) == users[i].password {
      var i :| 0 <= i < |users| && users[i].email == email && users[i].isVerified && hash(password) == users[i].password;
      var k := FindUserByEmail(users, email).value;
      assert k == i;
    }
  }

  /** A direct registration followed by a login with the same credentials
      succeeds, and a login with any other password is refused. */
  lemma RegisterThenLogin(users: seq<User>, hash: string -> string, username: string, email: string, password: string, other: string, now: int)
    requires HashModel(hash)
    requires email != "" && password != "" && other != password
    requires !IsHashed(password)
    requires FindIdentity(users, email, username).None?
    ensures var users' := users + [User(username, email, PreSave(hash, password), true)];
      && Login(users', hash, email, password, now) == Ok(200, "Login successful", Some(SessionFor(users'[|users|], now)))
      && (other != "" ==> Login(users', hash, email, other, now) == Fail(400, "Invalid email or password"))
  {
    var users' := users + [User(username, email, PreSave(hash, password), true)];
    assert FindUserByEmail(users', email) == Some(|users|) by {
      assert forall j :: 0 <= j < |users| ==> users'[j] == users[j];
      assert users'[|users|].email == email;
    }
    assert hash(other) != hash(password);
  }

  // ---------------------------------------------------------------- the server

  class AuthServer {
    /** The `User` collection. */
    var users: seq<User>
    /** The `OTP` collection. */
    var otps: seq<OtpRecord>
    /** bcrypt, fixed for the life of the server. */
    const hash: string -> string

    ghost predicate Valid()
      reads this
    {
      && HashModel(hash)
      && UniqueIdentities(users)
      && (forall i :: 0 <= i < |users| ==> IsHashed(users[i].password))
      && AtMostOnePerEmail(otps)
      && CodesWellFormed(otps)
    }

    constructor (hash: string -> string)
      requires HashModel(hash)
      ensures Valid() && this.hash == hash && users == [] && otps == []
    {
      this.hash := hash;
      users := [];
      otps := [];
    }

    /** `generateOTP`, `OTP.deleteMany({ email })`, `new OTP({...}).save()`. */
    method IssueCode(email: string, username: string, payload: string, draw: nat, now: int) returns (code: string)
      requires Valid() && draw < 900000
      modifies this`otps
      ensures Valid()
      ensures code == GenerateOtp(draw)
      ensures otps == Issued(old(otps), OtpRecord(email, code, username, payload, now + CodeTtlMs))
    {
      code := GenerateOtp(draw);
      var record := OtpRecord(email, code, username, payload, now + CodeTtlMs);
      IssueLeavesSingleRecord(otps, record);
      ghost var before := otps;
      otps := DeleteByEmail(otps, email);
      otps := otps + [record];
      assert CodesWellFormed(otps) by {
        forall i | 0 <= i < |otps| ensures IsOtpCode(otps[i].otp) {
          if i < |otps| - 1 {
            var k :| 0 <= k < |before| && before[k] == otps[i];
          }
        }
      }
    }

    /** `OTP.deleteOne({ _id })` for the record at index `i`. */
    method DeleteOtp(i: nat)
      requires Valid() && i < |otps|
      modifies this`otps
      ensures Valid()
      ensures otps == RemoveAt(old(otps), i)
    {
      RemoveKeepsInvariant(otps, i);
      otps := RemoveAt(otps, i);
    }

    /** `POST /api/users/register`: with action "request_otp" it issues a
        registration code carrying the hashed password; otherwise it creates
        a verified user at once. */
    method Register(username: string, email: string, password: string, action: string, draw: nat, delivered: bool, now: int)
      returns (reply: Reply)
      requires Valid() && draw < 900000
      modifies this
      ensures Valid()
      ensures username == "" || email == "" || password == "" ==>
        reply == Fail(400, "All fields are required") && users == old(users) && otps == old(otps)
      ensures username != "" && email != "" && password != "" && FindIdentity(old(users), email, username).Some? ==>
        reply == ClashReply(old(users)[FindIdentity(old(users), email, username).value], email)
        && users == old(users) && otps == old(otps)
      ensures username != "" && email != "" && password != "" && FindIdentity(old(users), email, username).None? && action == "request_otp" ==>
        && users == old(users)
        && otps == Issued(old(otps), OtpRecord(email, GenerateOtp(draw), username, hash(password), now + CodeTtlMs))
        && reply == DeliveryReply(delivered, "OTP sent to your email")
      ensures username != "" && email != "" && password != "" && FindIdentity(old(users), email, username).None? && action != "request_otp" ==>
        var user := User(username, email, PreSave(hash, password), true);
        && otps == old(otps)
        && users == old(users) + [user]
        && reply == Ok(201, "User created successfully", Some(SessionFor(user, now)))
    {
      if username == "" || email == "" || password == "" {
        return Fail(400, "All fields are required");
      }
      var existing := FindIdentity(users, email, username);
      if existing.Some? {
        return ClashReply(users[existing.value], email);
      }
      if action == "request_otp" {
        var code := IssueCode(email, username, hash(password), draw, now);
        reply := DeliveryReply(delivered, "OTP sent to your email");
      } else {
        var user := User(username, email, PreSave(hash, password), true);
        users := users + [user];
        reply := Ok(201, "User created successfully", Some(SessionFor(user, now)));
      }
    }

    /** `POST /api/users/verify-otp`: consumes a code and creates the account it carries. */
    method VerifyOtp(email: string, otp: Option<string>, now: int) returns (reply: Reply)
      requires Valid()
      modifies this
      ensures Valid()
      ensures email == "" || otp.None? ==>
        reply == Fail(400, "Email and OTP are required") && users == old(users) && otps == old(otps)
      ensures email != "" && otp.Some? && FindCode(old(otps), email, Trim(otp.value)).None? ==>
        reply == Fail(400, "Invalid OTP") && users == old(users) && otps == old(otps)
      ensures email != "" && otp.Some? && FindCode(old(otps), email, Trim(otp.value)).Some? ==>
        var i := FindCode(old(otps), email, Trim(otp.value)).value;
        var record := old(otps)[i];
        var clash := FindIdentity(old(users), email, record.username);
        && otps == RemoveAt(old(otps), i)
        && (record.expiresAt < now ==> reply == Fail(400, "OTP has expired") && users == old(users))
        && (record.expiresAt >= now && clash.Some? ==>
              reply == ClashReply(old(users)[clash.value], email) && users == old(users))
        && (record.expiresAt >= now && clash.None? ==>
              var user := User(record.username, email, PreSave(hash, record.password), true);
              users == old(users) + [user] && reply == Ok(201, "User registered successfully", Some(SessionFor(user, now))))
      ensures email != "" && otp.Some? ==> FindCode(otps, email, Trim(otp.value)).None?
    {
      if email == "" || otp.None? {
        return Fail(400, "Email and OTP are required");
      }
      var code := Trim(otp.value);
      var hit := FindCode(otps, email, code);
      if hit.None? {
        return Fail(400, "Invalid OTP");
      }
      var i := hit.value;
      var record := otps[i];
      ConsumedCodeIsGone(otps, i);
      if record.expiresAt < now {
        DeleteOtp(i);
        return Fail(400, "OTP has expired");
      }
      var clash := FindIdentity(users, email, record.username);
      if clash.Some? {
        DeleteOtp(i);
        return ClashReply(users[clash.value], email);
      }
      var user := User(record.username, email, PreSave(hash, record.password), true);
      users := users + [user];
      DeleteOtp(i);
      reply := Ok(201, "User registered successfully", Some(SessionFor(user, now)));
    }

    /** `POST /api/users/resend-otp`: rewrites the code and expiry of the
        email's pending record in place. */
    method ResendOtp(email: string, draw: nat, delivered: bool, now: int) returns (reply: Reply)
      requires Valid() && draw < 900000
      modifies this`otps
      ensures Valid()
      ensures email == "" ==> reply == Fail(400, "Email is required") && otps == old(otps)
      ensures email != "" && FindOtpByEmail(old(otps), email).None? ==>
        reply == Fail(400, "No registration request found for this email") && otps == old(otps)
      ensures email != "" && FindOtpByEmail(old(otps), email).Some? ==>
        var i := FindOtpByEmail(old(otps), email).value;
        && otps == old(otps)[i := old(otps)[i].(otp := GenerateOtp(draw), expiresAt := now + CodeTtlMs)]
        && reply == DeliveryReply(delivered, "New OTP sent to your email")
    {
      if email == "" {
        return Fail(400, "Email is required");
      }
      var found := FindOtpByEmail(otps, email);
      if found.None? {
        return Fail(400, "No registration request found for this email");
      }
      var i := found.value;
      var code := GenerateOtp(draw);
      ReissueKeepsPayload(otps, i, code, now + CodeTtlMs);
      otps := otps[i := otps[i].(otp := code, expiresAt := now + CodeTtlMs)];
      reply := DeliveryReply(delivered, "New OTP sent to your email");
    }

    /** `POST /api/users/login-otp`: issues a login code to an existing user. */
    method LoginOtp(email: string, draw: nat, delivered: bool, now: int) returns (reply: Reply)
      requires Valid() && draw < 900000
      modifies this`otps
      ensures Valid()
      ensures email == "" ==> reply == Fail(400, "Email is required") && otps == old(otps)
      ensures email != "" && FindUserByEmail(users, email).None? ==>
        reply == Fail(404, "User not found") && otps == old(otps)
      ensures email != "" && FindUserByEmail(users, email).Some? ==>
        var user := users[FindUserByEmail(users, email).value];
        && otps == Issued(old(otps), OtpRecord(email, GenerateOtp(draw), user.username, LoginPlaceholder, now + CodeTtlMs))
        && reply == DeliveryReply(delivered, "OTP sent to your email")
    {
      if email == "" {
        return Fail(400, "Email is required");
      }
      var found := FindUserByEmail(users, email);
      if found.None? {
        return Fail(404, "User not found");
      }
      var code := IssueCode(email, users[found.value].username, LoginPlaceholder, draw, now);
      reply := DeliveryReply(delivered, "OTP sent to your email");
    }

    /** `POST /api/users/verify-login-otp`: consumes a code and signs the user in. */
    method VerifyLoginOtp(email: string, otp: Option<string>, now: int) returns (reply: Reply)
      requires Valid()
      modifies this`otps
      ensures Valid()
      ensures email == "" || otp.None? ==> reply == Fail(400, "Email and OTP are required") && otps == old(otps)
      ensures email != "" && otp.Some? && FindCode(old(otps), email, Trim(otp.value)).None? ==>
        reply == Fail(400, "Invalid OTP") && otps == old(otps)
      ensures email != "" && otp.Some? && FindCode(old(otps), email, Trim(otp.value)).Some? ==>
        var i := FindCode(old(otps), email, Trim(otp.value)).value;
        var found := FindUserByEmail(users, email);
        && otps == RemoveAt(old(otps), i)
        && (old(otps)[i].expiresAt < now ==> reply == Fail(400, "OTP has expired or invalid"))
        && (old(otps)[i].expiresAt >= now && found.None? ==> reply == Fail(404, "User not found"))
        && (old(otps)[i].expiresAt >= now && found.Some? ==>
              reply == Ok(200, "Login successful", Some(SessionFor(users[found.value], now))))
      ensures email != "" && otp.Some? ==> FindCode(otps, email, Trim(otp.value)).None?
    {
      if email == "" || otp.None? {
        return Fail(400, "Email and OTP are required");
      }
      var code := Trim(otp.value);
      var hit := FindCode(otps, email, code);
      if hit.None? {
        return Fail(400, "Invalid OTP");
      }
      var i := hit.value;
      ConsumedCodeIsGone(otps, i);
      if otps[i].expiresAt < now {
        DeleteOtp(i);
        return Fail(400, "OTP has expired or invalid");
      }
      var found := FindUserByEmail(users, email);
      if found.None? {
        DeleteOtp(i);
        return Fail(404, "User not found");
      }
      DeleteOtp(i);
      reply := Ok(200, "Login successful", Some(SessionFor(users[found.value], now)));
    }

    /** `POST /api/users/forgot-password`: issues a reset code to an existing user. */
    method ForgotPassword(email: string, draw: nat, delivered: bool, now: int) returns (reply: Reply)
      requires Valid() && draw < 900000
      modifies this`otps
      ensures Valid()
      ensures email == "" ==> reply == Fail(400, "Email is required") && otps == old(otps)
      ensures email != "" && FindUserByEmail(users, email).None? ==>
        reply == Fail(404, "User with this email does not exist") && otps == old(otps)
      ensures email != "" && FindUserByEmail(users, email).Some? ==>
        && otps == Issued(old(otps), OtpRecord(email, GenerateOtp(draw), ResetPlaceholder, ResetPlaceholder, now + CodeTtlMs))
        && reply == DeliveryReply(delivered, "Password reset OTP sent to your email")
    {
      if email == "" {
        return Fail(400, "Email is required");
      }
      var found := FindUserByEmail(users, email);
      if found.None? {
        return Fail(404, "User with this email does not exist");
      }
      var code := IssueCode(email, ResetPlaceholder, ResetPlaceholder, draw, now);
      reply := DeliveryReply(delivered, "Password reset OTP sent to your email");
    }

    /** `POST /api/users/reset-password`: consumes any live code of the email,
        whichever flow issued it, and replaces that user's password. */
    method ResetPassword(email: string, otp: Option<string>, newPassword: string, now: int) returns (reply: Reply)
      requires Valid()
      modifies this
      ensures Valid()
      ensures email == "" || otp.None? || newPassword == "" ==>
        reply == Fail(400, "Email, OTP and new password are required") && users == old(users) && otps == old(otps)
      ensures email != "" && otp.Some? && newPassword != "" && FindCode(old(otps), email, Trim(otp.value)).None? ==>
        reply == Fail(400, "Invalid OTP") && users == old(users) && otps == old(otps)
      ensures email != "" && otp.Some? && newPassword != "" && FindCode(old(otps), email, Trim(otp.value)).Some? ==>
        var i := FindCode(old(otps), email, Trim(otp.value)).value;
        var found := FindUserByEmail(old(users), email);
        && otps == RemoveAt(old(otps), i)
        && (old(otps)[i].expiresAt < now ==> reply == Fail(400, "OTP has expired") && users == old(users))
        && (old(otps)[i].expiresAt >= now && found.None? ==> reply == Fail(404, "User not found") && users == old(users))
        && (old(otps)[i].expiresAt >= now && found.Some? ==>
              && users == old(users)[found.value := old(users)[found.value].(password := PreSave(hash, newPassword))]
              && reply == Ok(200, "Password reset successfully", None))
      ensures email != "" && otp.Some? && newPassword != "" ==> FindCode(otps, email, Trim(otp.value)).None?
    {
      if email == "" || otp.None? || newPassword == "" {
        return Fail(400, "Email, OTP and new password are required");
      }
      var code := Trim(otp.value);
      var hit := FindCode(otps, email, code);
      if hit.None? {
        return Fail(400, "Invalid OTP");
      }
      var i := hit.value;
      ConsumedCodeIsGone(otps, i);
      if otps[i].expiresAt < now {
        DeleteOtp(i);
        return Fail(400, "OTP has expired");
      }
      var found := FindUserByEmail(users, email);
      if found.None? {
        DeleteOtp(i);
        return Fail(404, "User not found");
      }
      var j := found.value;
      users := users[j := users[j].(password := PreSave(hash, newPassword))];
      DeleteOtp(i);
      reply := Ok(200, "Password reset successfully", None);
    }
  }
}

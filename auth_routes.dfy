/** The account routes (server/routes/auth.js): registration with an emailed one-time
    code, code verification and re-issue, login, the profile update, and adding a
    role. The User schema (server/models/User.js) is not part of this model: a new
    account's `roles` are given to the registration handler, and it is active. */
module AuthRoutes {
  import opened Common
  import opened BloodGroups
  import opened Donors

  datatype Role = DonorRole | RecipientRole | AdminRole

  function RoleName(r: Role): string {
    match r
    case DonorRole => "donor"
    case RecipientRole => "recipient"
    case AdminRole => "admin"
  }

  /** The `isIn(['donor', 'recipient'])` validator: admin cannot be asked for. */
  function ParseRole(s: string): (r: Option<Role>)
    ensures r.Some? <==> s == "donor" || s == "recipient"
    ensures r.Some? ==> RoleName(r.value) == s && r.value != AdminRole
  {
    if s == "donor" then Some(DonorRole)
    else if s == "recipient" then Some(RecipientRole)
    else None
  }

  predicate NoDuplicateRoles(roles: seq<Role>) {
    forall i, j :: 0 <= i < j < |roles| ==> roles[i] != roles[j]
  }

  // ---------------------------------------------------------------------------
  // The one-time code

  const OtpLifetime: int := 10 * MsPerMinute

  datatype Otp = Otp(code: string, expiresAt: Instant)

  /** `Math.floor(100000 + Math.random() * 900000)` for a draw `r` of `Math.random()`,
      in exact arithmetic. */
  function OtpValue(r: real): (v: int)
    requires 0.0 <= r < 1.0
    ensures 100000 <= v <= 999999
  {
    var x := 100000.0 + r * 900000.0;
    assert 100000.0 <= x < 1000000.0;
    x.Floor
  }

  function DigitChar(d: int): char
    requires 0 <= d < 10
  {
    "0123456789"[d]
  }

  /** `toString()` on a non-negative integer: its decimal digits, most significant
      first, without leading zeros. */
  function DecimalString(n: nat): (s: string)
    ensures |s| >= 1
    ensures forall i :: 0 <= i < |s| ==> '0' <= s[i] <= '9'
  {
    if n < 10 then [DigitChar(n)] else DecimalString(n / 10) + [DigitChar(n % 10)]
  }

  /** The reference reading of a digit string. */
  function ParseDecimal(s: string): nat
    requires forall i :: 0 <= i < |s| ==> '0' <= s[i] <= '9'
  {
    if s == [] then 0 else 10 * ParseDecimal(s[..|s| - 1]) + (s[|s| - 1] - '0') as int
  }

  /** Reading back the digits gives the number. */
  lemma {:induction false} DecimalRoundTrip(n: nat)
    ensures ParseDecimal(DecimalString(n)) == n
  {
    var s := DecimalString(n);
    if n < 10 {
      DigitValue(n);
    } else {
      DecimalRoundTrip(n / 10);
      DigitValue(n % 10);
      assert s[..|s| - 1] == DecimalString(n / 10);
      assert s[|s| - 1] == DigitChar(n % 10);
      assert n == 10 * (n / 10) + n % 10;
    }
  }

  lemma DigitValue(d: int)
    requires 0 <= d < 10
    ensures (DigitChar(d) - '0') as int == d
  {
  }

  function Pow10(k: nat): nat {
    if k == 0 then 1 else 10 * Pow10(k - 1)
  }

  /** A number with k digits prints as k characters. */
  lemma {:induction false} DecimalLength(n: nat, k: nat)
    requires k >= 1 && Pow10(k - 1) <= n < Pow10(k)
    ensures |DecimalString(n)| == k
  {
    if k > 1 {
      assert Pow10(k - 1) == 10 * Pow10(k - 2);
      DecimalLength(n / 10, k - 1);
    }
  }

  /** The code issued for a draw `r` at `now`, and its expiry ten minutes later. */
  function IssueOtp(r: real, now: Instant): (otp: Otp)
    requires 0.0 <= r < 1.0
    ensures |otp.code| == 6 && otp.code[0] != '0'
    ensures forall i :: 0 <= i < 6 ==> '0' <= otp.code[i] <= '9'
    ensures 100000 <= ParseDecimal(otp.code) <= 999999
    ensures otp.expiresAt == now + OtpLifetime
  {
    var v := OtpValue(r);
    assert Pow10(5) == 100000 && Pow10(6) == 1000000;
    DecimalLength(v, 6);
    DecimalRoundTrip(v);
    LeadingDigit(v);
    Otp(DecimalString(v), now + OtpLifetime)
  }

  /** A positive number does not print with a leading zero. */
  lemma {:induction false} LeadingDigit(n: nat)
    requires n >= 1
    ensures DecimalString(n)[0] != '0'
  {
    if n >= 10 {
      LeadingDigit(n / 10);
      assert DecimalString(n)[0] == DecimalString(n / 10)[0];
    }
  }

  // ---------------------------------------------------------------------------
  // The account document

  /** The fields the profile update may change. */
  datatype Profile = Profile(name: string, phone: string, department: string, year: Option<string>)

  datatype User = User(
    id: UserId,
    email: string,
    role: Role,
    profile: Profile,
    roles: seq<Role>,
    isEmailVerified: bool,
    otp: Option<Otp>,
    isActive: bool,
    lastLogin: Option<Instant>)

  class UserDoc {
    const id: UserId
    const email: string
    const role: Role
    var profile: Profile
    var roles: seq<Role>
    var isEmailVerified: bool
    var otp: Option<Otp>
    var isActive: bool
    var lastLogin: Option<Instant>

    /** No role is held twice. */
    ghost predicate Valid()
      reads this
    {
      NoDuplicateRoles(roles)
    }

    function Value(): (u: User)
      reads this
      ensures u.id == id && u.roles == roles && u.isEmailVerified == isEmailVerified && u.otp == otp
      ensures u.isActive == isActive && u.profile == profile
    {
      User(id, email, role, profile, roles, isEmailVerified, otp, isActive, lastLogin)
    }

    constructor (id: UserId, email: string, role: Role, profile: Profile, roles: seq<Role>, otp: Otp)
      requires NoDuplicateRoles(roles)
      ensures Valid()
      ensures Value() == User(id, email, role, profile, roles, false, Some(otp), true, None)
    {
      this.id, this.email, this.role, this.profile, this.roles := id, email, role, profile, roles;
      isEmailVerified, this.otp, isActive, lastLogin := false, Some(otp), true, None;
    }
  }

  // ---------------------------------------------------------------------------
  // POST /api/auth/register

  /** The registration body. The `isEmail` and `isMobilePhone` validators are given as
      their verdicts, and `email` as `normalizeEmail` leaves it. */
  datatype RegisterBody = RegisterBody(
    name: string,
    email: string,
    emailValid: bool,
    password: string,
    phone: string,
    phoneValid: bool,
    department: string,
    year: Option<string>,
    role: string)

  const UserExists := "User already exists with this email"

  /** The six validators, in declaration order, each with its message. */
  function RegisterErrors(b: RegisterBody): (errs: seq<string>)
    ensures errs == [] <==>
      |Trim(b.name)| >= 2 && b.emailValid && |b.password| >= 6 && b.phoneValid
      && Trim(b.department) != "" && ParseRole(b.role).Some?
  {
    Check(|Trim(b.name)| < 2, "Name must be at least 2 characters")
    + Check(!b.emailValid, "Please provide a valid email")
    + Check(|b.password| < 6, "Password must be at least 6 characters")
    + Check(!b.phoneValid, "Please provide a valid phone number")
    + Check(Trim(b.department) == "", "Department is required")
    + Check(ParseRole(b.role).None?, "Role must be either donor or recipient")
  }

  /** The handler. `existing` is whether an account already has the address, `roles`
      the new account's roles as the schema sets them, and `r` the `Math.random()` draw.
      A new account is unverified and holds a fresh code. */
  method Register(id: UserId, b: RegisterBody, existing: bool, roles: seq<Role>, r: real, now: Instant)
      returns (reply: Reply, user: UserDoc?)
    requires 0.0 <= r < 1.0
    requires NoDuplicateRoles(roles)
    ensures user != null ==> user.Valid()
    ensures RegisterErrors(b) != [] ==> reply == Invalid(RegisterErrors(b)) && user == null
    ensures RegisterErrors(b) == [] && existing ==> reply == Error(400, UserExists) && user == null
    ensures RegisterErrors(b) == [] && !existing ==>
      && reply == Ok && user != null && fresh(user)
      && user.Value() == User(id, b.email, ParseRole(b.role).value,
                              Profile(Trim(b.name), b.phone, Trim(b.department), b.year),
                              roles, false, Some(IssueOtp(r, now)), true, None)
  {
    var errs := RegisterErrors(b);
    if errs != [] {
      return Invalid(errs), null;
    }
    if existing {
      return Error(400, UserExists), null;
    }
    user := new UserDoc(id, b.email, ParseRole(b.role).value, Profile(Trim(b.name), b.phone, Trim(b.department), b.year),
                        roles, IssueOtp(r, now));
    reply := Ok;
  }

  // ---------------------------------------------------------------------------
  // POST /api/auth/verify-otp

  const InvalidEmail := "Invalid email"
  const AlreadyVerified := "Email already verified"
  const NoOtpRequest := "Invalid OTP request"
  const WrongOtp := "Invalid OTP"
  const OtpExpired := "OTP expired"

  /** The handler's checks in their order. Its validators are declared but their
      result is never read, so a malformed address or code is simply looked up. A
      code is accepted up to and including the instant it expires. */
  function VerifyCheck(user: Option<User>, code: string, now: Instant): (reply: Reply)
    ensures reply.Ok? <==>
      && user.Some? && !user.value.isEmailVerified
      && user.value.otp.Some? && user.value.otp.value.code != ""
      && user.value.otp.value.code == code && now <= user.value.otp.value.expiresAt
    ensures !reply.Ok? ==> reply.Error? && reply.status == 400
  {
    if user.None? then Error(400, InvalidEmail)
    else if user.value.isEmailVerified then Error(400, AlreadyVerified)
    else if user.value.otp.None? || user.value.otp.value.code == "" then Error(400, NoOtpRequest)
    else if user.value.otp.value.code != code then Error(400, WrongOtp)
    else if user.value.otp.value.expiresAt < now then Error(400, OtpExpired)
    else Ok
  }

  /** The handler. Success marks the address verified and clears the code; a refusal
      changes nothing. */
  method VerifyOtp(user: UserDoc?, code: string, now: Instant) returns (reply: Reply)
    modifies user
    ensures reply == VerifyCheck(if user == null then None else Some(old(user.Value())), code, now)
    ensures !reply.Ok? ==> user != null ==> unchanged(user)
    ensures reply.Ok? ==> user != null && user.Value() == old(user.Value()).(isEmailVerified := true, otp := None)
  {
    reply := VerifyCheck(if user == null then None else Some(user.Value()), code, now);
    if !reply.Ok? {
      return;
    }
    user.isEmailVerified, user.otp := true, None;
  }

  /** A verified account cannot be verified again. */
  lemma VerifyTwiceRefused(u: User, code: string, code': string, now: Instant, now': Instant)
    requires VerifyCheck(Some(u), code, now) == Ok
    ensures VerifyCheck(Some(u.(isEmailVerified := true, otp := None)), code', now') == Error(400, AlreadyVerified)
  {
  }

  /** The code just issued to an unverified account is accepted for exactly ten
      minutes, and refused as expired afterwards. */
  lemma {:induction false} IssuedCodeAccepted(u: User, r: real, issued: Instant, now: Instant)
    requires 0.0 <= r < 1.0
    requires !u.isEmailVerified
    ensures var otp := IssueOtp(r, issued);
      VerifyCheck(Some(u.(otp := Some(otp))), otp.code, now) == Ok <==> now <= issued + OtpLifetime
    ensures var otp := IssueOtp(r, issued);
      now > issued + OtpLifetime ==> VerifyCheck(Some(u.(otp := Some(otp))), otp.code, now) == Error(400, OtpExpired)
  {
    var otp := IssueOtp(r, issued);
    assert otp.code != "" by { assert |otp.code| == 6; }
  }

  // ---------------------------------------------------------------------------
  // POST /api/auth/resend-otp

  const UserNotFound := "User not found"

  function ResendCheck(user: Option<User>): (reply: Reply)
    ensures reply.Ok? <==> user.Some? && !user.value.isEmailVerified
  {
    if user.None? then Error(400, UserNotFound)
    else if user.value.isEmailVerified then Error(400, AlreadyVerified)
    else Ok
  }

  /** The handler: an unverified account's code is replaced by a fresh one. */
  method ResendOtp(user: UserDoc?, r: real, now: Instant) returns (reply: Reply)
    requires 0.0 <= r < 1.0
    modifies user
    ensures reply == ResendCheck(if user == null then None else Some(old(user.Value())))
    ensures !reply.Ok? ==> user != null ==> unchanged(user)
    ensures reply.Ok? ==> user != null && user.Value() == old(user.Value()).(otp := Some(IssueOtp(r, now)))
  {
    reply := ResendCheck(if user == null then None else Some(user.Value()));
    if !reply.Ok? {
      return;
    }
    user.otp := Some(IssueOtp(r, now));
  }

  /** After a resend the old code no longer works unless the new draw repeats it, and
      the new one does. */
  lemma {:induction false} ResendReplacesCode(u: User, old_: Otp, r: real, now: Instant)
    requires 0.0 <= r < 1.0
    requires u.otp == Some(old_) && ResendCheck(Some(u)) == Ok
    ensures var n := u.(otp := Some(IssueOtp(r, now)));
      && VerifyCheck(Some(n), IssueOtp(r, now).code, now) == Ok
      && (old_.code != IssueOtp(r, now).code ==> VerifyCheck(Some(n), old_.code, now) == Error(400, WrongOtp))
  {
    var otp := IssueOtp(r, now);
    assert otp.code != "" by { assert |otp.code| == 6; }
  }

  // ---------------------------------------------------------------------------
  // POST /api/auth/login

  const InvalidCredentials := "Invalid credentials"
  const Deactivated := "Account is deactivated"
  const NotVerified := "Email not verified. Please verify your email to login."

  function LoginErrors(emailValid: bool, password: string): (errs: seq<string>)
    ensures errs == [] <==> emailValid && password != ""
  {
    Check(!emailValid, "Please provide a valid email") + Check(password == "", "Password is required")
  }

  /** The handler's checks in their order; `passwordMatches` is `comparePassword`'s
      verdict, asked only once the others pass. */
  function LoginCheck(emailValid: bool, password: string, user: Option<User>, passwordMatches: bool): (reply: Reply)
    ensures reply.Ok? <==>
      LoginErrors(emailValid, password) == [] && user.Some? && user.value.isActive && user.value.isEmailVerified && passwordMatches
  {
    var errs := LoginErrors(emailValid, password);
    if errs != [] then Invalid(errs)
    else if user.None? then Error(400, InvalidCredentials)
    else if !user.value.isActive then Error(400, Deactivated)
    else if !user.value.isEmailVerified then Error(400, NotVerified)
    else if !passwordMatches then Error(400, InvalidCredentials)
    else Ok
  }

  /** A deactivated account is reported as such before its verification and its
      password are looked at; an unverified one before its password. An unknown
      address and a wrong password give the same reply. */
  lemma LoginOrder(u: User, matches: bool)
    ensures !u.isActive ==> LoginCheck(true, "pw", Some(u), matches) == Error(400, Deactivated)
    ensures u.isActive && !u.isEmailVerified ==> LoginCheck(true, "pw", Some(u), matches) == Error(400, NotVerified)
    ensures u.isActive && u.isEmailVerified ==> LoginCheck(true, "pw", Some(u), false) == LoginCheck(true, "pw", None, matches)
  {
  }

  /** The handler: success records the login time and nothing else. */
  method Login(user: UserDoc?, emailValid: bool, password: string, passwordMatches: bool, now: Instant) returns (reply: Reply)
    modifies user
    ensures reply == LoginCheck(emailValid, password, if user == null then None else Some(old(user.Value())), passwordMatches)
    ensures !reply.Ok? ==> user != null ==> unchanged(user)
    ensures reply.Ok? ==> user != null && user.Value() == old(user.Value()).(lastLogin := Some(now))
  {
    reply := LoginCheck(emailValid, password, if user == null then None else Some(user.Value()), passwordMatches);
    if !reply.Ok? {
      return;
    }
    user.lastLogin := Some(now);
  }

  // ---------------------------------------------------------------------------
  // PUT /api/auth/profile

  /** The body's fields, each absent (None) or given; `phoneValid` is the
      `isMobilePhone` verdict. */
  datatype ProfileUpdate = ProfileUpdate(name: Option<string>, phone: Option<string>, phoneValid: bool,
                                         department: Option<string>, year: Option<string>)

  function ProfileErrors(u: ProfileUpdate): (errs: seq<string>)
    ensures errs == [] <==>
      (u.name.Some? ==> |Trim(u.name.value)| >= 2) && (u.phone.Some? ==> u.phoneValid) && !Blank(u.department)
  {
    Check(u.name.Some? && |Trim(u.name.value)| < 2, "Name must be at least 2 characters")
    + Check(u.phone.Some? && !u.phoneValid, "Please provide a valid phone number")
    + Check(Blank(u.department), "Department cannot be empty")
  }

  /** A sanitized value that the handler's `if (value)` lets into `updateData`. */
  predicate Truthy(s: Option<string>) {
    s.Some? && s.value != ""
  }

  /** The profile after `findByIdAndUpdate(updateData)`: only the values present and
      non-empty after trimming are written; a blank year is dropped, not stored. */
  function ApplyProfile(p: Profile, u: ProfileUpdate): (n: Profile)
    ensures Truthy(TrimmedOption(u.name)) ==> n.name == Trim(u.name.value)
    ensures !Truthy(TrimmedOption(u.name)) ==> n.name == p.name
    ensures Truthy(u.phone) ==> n.phone == u.phone.value
    ensures !Truthy(u.phone) ==> n.phone == p.phone
    ensures Truthy(TrimmedOption(u.department)) ==> n.department == Trim(u.department.value)
    ensures !Truthy(TrimmedOption(u.department)) ==> n.department == p.department
    ensures Truthy(TrimmedOption(u.year)) ==> n.year == TrimmedOption(u.year)
    ensures !Truthy(TrimmedOption(u.year)) ==> n.year == p.year
  {
    var name := TrimmedOption(u.name);
    var department := TrimmedOption(u.department);
    var year := TrimmedOption(u.year);
    Profile(if Truthy(name) then name.value else p.name,
            if Truthy(u.phone) then u.phone.value else p.phone,
            if Truthy(department) then department.value else p.department,
            if Truthy(year) then year else p.year)
  }

  /** Sending the same update twice stores what sending it once does. */
  lemma ProfileUpdateIdempotent(p: Profile, u: ProfileUpdate)
    ensures ApplyProfile(ApplyProfile(p, u), u) == ApplyProfile(p, u)
  {
  }

  /** The handler. `user` is the signed-in account as `findByIdAndUpdate` finds it; with
      none, reading the result throws and the reply is 500. */
  method UpdateProfile(user: UserDoc?, u: ProfileUpdate) returns (reply: Reply)
    modifies user
    ensures ProfileErrors(u) != [] ==> reply == Invalid(ProfileErrors(u)) && (user != null ==> unchanged(user))
    ensures ProfileErrors(u) == [] && user == null ==> reply == ServerErrorReply
    ensures ProfileErrors(u) == [] && user != null ==>
      reply == Ok && user.Value() == old(user.Value()).(profile := ApplyProfile(old(user.profile), u))
  {
    var errs := ProfileErrors(u);
    if errs != [] {
      return Invalid(errs);
    }
    if user == null {
      return ServerErrorReply;
    }
    user.profile := ApplyProfile(user.profile, u);
    reply := Ok;
  }

  // ---------------------------------------------------------------------------
  // POST /api/auth/add-role

  const RoleAlreadyHeld := "User already has this role"

  function AddRoleCheck(role: string, user: Option<User>): (reply: Reply)
    ensures reply.Ok? <==> ParseRole(role).Some? && user.Some? && ParseRole(role).value !in user.value.roles
    ensures ParseRole(role).Some? && user.Some? && ParseRole(role).value in user.value.roles ==>
      reply == Error(400, RoleAlreadyHeld)
  {
    if ParseRole(role).None? then Invalid(["Role must be either donor or recipient"])
    else if user.None? then Error(404, UserNotFound)
    else if ParseRole(role).value in user.value.roles then Error(400, RoleAlreadyHeld)
    else Ok
  }

  /** Appending a role not yet held keeps the roles free of duplicates, and the role is
      then held exactly once. */
  lemma {:induction false} AddRoleKeepsNoDuplicates(roles: seq<Role>, r: Role)
    requires NoDuplicateRoles(roles) && r !in roles
    ensures NoDuplicateRoles(roles + [r])
    ensures r in roles + [r]
  {
    var s := roles + [r];
    forall i, j | 0 <= i < j < |s| ensures s[i] != s[j] {
      if j == |roles| {
        assert s[i] == roles[i];
      } else {
        assert s[i] == roles[i] && s[j] == roles[j];
      }
    }
  }

  /** The donor profile the handler builds for a user who has none: group 'Unknown',
      born today, weight and height 0, and placeholder address fields. */
  function Placeholder(id: DonorId, user: UserId, today: CalendarDate): (d: Donor)
    ensures d.id == id && d.user == user && d.dateOfBirth == today && d.bloodGroup == Unknown
  {
    Donor(id, user, Unknown, today, 0.0, 0.0, NoMedicalHistory, None, true, false,
          Location("Update your address", "Chennai", "TN", "000000"), 0, [])
  }

  /** The placeholder as the code builds it breaks the schema's minimum weight, so its
      `save()` throws. */
  lemma PlaceholderRefusedBySchema(id: DonorId, user: UserId, today: CalendarDate)
    ensures !SchemaValid(Placeholder(id, user, today))
  {
  }

  /** The handler as written. `hasProfile` is whether the user already has a donor
      profile. The role is appended and saved first; adding 'donor' without a profile
      then builds the placeholder, whose save is refused: the reply is 500 although the
      role stays added, and no profile exists. */
  method AddRole(user: UserDoc?, role: string, hasProfile: bool, donorId: DonorId, today: CalendarDate)
      returns (reply: Reply, created: Option<Donor>)
    requires user != null ==> user.Valid()
    modifies user
    ensures user != null ==> user.Valid()
    ensures var check := AddRoleCheck(role, if user == null then None else Some(old(user.Value())));
      && (!check.Ok? ==> reply == check && created == None && (user != null ==> unchanged(user)))
      && (check.Ok? ==>
            && user != null
            && user.Value() == old(user.Value()).(roles := old(user.roles) + [ParseRole(role).value])
            && created == None
            && (reply == Ok <==> ParseRole(role).value != DonorRole || hasProfile)
            && (reply != Ok ==> reply == ServerErrorReply))
  {
    reply := AddRoleCheck(role, if user == null then None else Some(user.Value()));
    created := None;
    if !reply.Ok? {
      return;
    }
    var r := ParseRole(role).value;
    AddRoleKeepsNoDuplicates(user.roles, r);
    user.roles := user.roles + [r];
    if r == DonorRole && !hasProfile {
      var d := Placeholder(donorId, user.id, today);
      if SchemaValid(d) {
        created := Some(d);
      } else {
        reply := ServerErrorReply;
      }
    }
  }

  /** The placeholder the handler evidently means: one the schema accepts (weight at the
      minimum of 45) and that `isEligible` still rejects, because it is born today. */
  function CorrectedPlaceholder(id: DonorId, user: UserId, today: CalendarDate): (d: Donor)
    ensures d.id == id && d.user == user && d.dateOfBirth == today && d.bloodGroup == Unknown
  {
    Placeholder(id, user, today).(weight := MinimumWeight)
  }

  lemma {:induction false} CorrectedPlaceholderStoredButIneligible(id: DonorId, user: UserId, clock: Clock)
    ensures SchemaValid(CorrectedPlaceholder(id, user, clock.today))
    ensures !IsEligible(CorrectedPlaceholder(id, user, clock.today), clock)
  {
    BornTodayIsIneligible(CorrectedPlaceholder(id, user, clock.today), clock);
  }

  /** The handler with the corrected placeholder: adding 'donor' without a profile
      succeeds and creates an ineligible profile. */
  method AddRoleCorrected(user: UserDoc?, role: string, hasProfile: bool, donorId: DonorId, today: CalendarDate)
      returns (reply: Reply, created: Option<Donor>)
    requires user != null ==> user.Valid()
    modifies user
    ensures user != null ==> user.Valid()
    ensures reply == AddRoleCheck(role, if user == null then None else Some(old(user.Value())))
    ensures !reply.Ok? ==> created == None && (user != null ==> unchanged(user))
    ensures reply.Ok? ==>
      && user != null
      && user.Value() == old(user.Value()).(roles := old(user.roles) + [ParseRole(role).value])
      && (created.Some? <==> ParseRole(role).value == DonorRole && !hasProfile)
      && (created.Some? ==> created.value == CorrectedPlaceholder(donorId, user.id, today) && SchemaValid(created.value))
  {
    reply := AddRoleCheck(role, if user == null then None else Some(user.Value()));
    created := None;
    if !reply.Ok? {
      return;
    }
    var r := ParseRole(role).value;
    AddRoleKeepsNoDuplicates(user.roles, r);
    user.roles := user.roles + [r];
    if r == DonorRole && !hasProfile {
      created := Some(CorrectedPlaceholder(donorId, user.id, today));
    }
  }
}

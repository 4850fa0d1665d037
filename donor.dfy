/** The donor document (server/models/Donor.js): its stored fields, the schema's
    weight minimum, and the two derived properties `age` and `isEligible`. */
module Donors {
  import opened Common
  import opened BloodGroups

  type DonorId = nat
  type UserId = nat

  /** A local calendar date, as `getFullYear`, `getMonth` and `getDate` read it.
      Months are 1-based here; the source's are 0-based, which changes no difference. */
  datatype CalendarDate = CalendarDate(year: int, month: int, day: int)

  /** The current time, both as an instant and as the local calendar date it falls on. */
  datatype Clock = Clock(now: Instant, today: CalendarDate)

  datatype MedicalHistory = MedicalHistory(
    hasDiabetes: bool,
    hasHypertension: bool,
    hasHeartDisease: bool,
    hasHepatitis: bool,
    hasHIV: bool,
    otherConditions: string)

  const NoMedicalHistory := MedicalHistory(false, false, false, false, false, "")

  datatype Badge = FirstDonation | RegularDonor | EmergencyHero | Lifesaver

  datatype Location = Location(address: string, city: string, state: string, pincode: string)

  datatype Donor = Donor(
    id: DonorId,
    user: UserId,
    bloodGroup: BloodGroup,
    dateOfBirth: CalendarDate,
    weight: real,
    height: real,
    medicalHistory: MedicalHistory,
    lastDonationDate: Option<Instant>,
    isAvailable: bool,
    isVerified: bool,
    location: Location,
    totalDonations: int,
    badges: seq<Badge>)

  const MinimumWeight: real := 45.0
  const MinimumAge: int := 18
  const MaximumAge: int := 65
  const MinimumGapDays: int := 90

  /** The routes' replies when the signed-in user has no donor profile, and when the
      profile fails `isEligible`. */
  const DonorNotFound := "Donor profile not found"
  const NotEligible := "You are not currently eligible to donate blood"

  /** The schema's `min: 45` on `weight`: a document that violates it is refused by save(). */
  predicate SchemaValid(d: Donor) {
    d.weight >= MinimumWeight
  }

  // ---------------------------------------------------------------------------
  // age

  /** The `age` virtual: the difference of the years, less one while this year's
      birthday (month, day) is still ahead. */
  function Age(birth: CalendarDate, today: CalendarDate): int {
    var age := today.year - birth.year;
    var monthDiff := today.month - birth.month;
    if monthDiff < 0 || (monthDiff == 0 && today.day < birth.day) then age - 1 else age
  }

  /** Lexicographic order on (year, month, day). */
  predicate NotAfter(y1: int, m1: int, d1: int, t: CalendarDate) {
    y1 < t.year || (y1 == t.year && (m1 < t.month || (m1 == t.month && d1 <= t.day)))
  }

  /** Reference definition: the n-th birthday has happened by `today`. */
  predicate BirthdayReached(birth: CalendarDate, today: CalendarDate, n: int) {
    NotAfter(birth.year + n, birth.month, birth.day, today)
  }

  /** `age` counts completed years: the n-th birthday is reached exactly when n <= age. */
  lemma AgeIsCompletedYears(birth: CalendarDate, today: CalendarDate, n: int)
    ensures BirthdayReached(birth, today, n) <==> n <= Age(birth, today)
  {
  }

  lemma {:induction false} AgeOnBirthday(birth: CalendarDate, n: int)
    ensures Age(birth, CalendarDate(birth.year + n, birth.month, birth.day)) == n
  {
    var today := CalendarDate(birth.year + n, birth.month, birth.day);
    AgeIsCompletedYears(birth, today, n);
    AgeIsCompletedYears(birth, today, n + 1);
  }

  lemma AgeOnDayOfBirth(birth: CalendarDate)
    ensures Age(birth, birth) == 0
  {
    AgeOnBirthday(birth, 0);
  }

  lemma {:induction false} AgeMonotone(birth: CalendarDate, t1: CalendarDate, t2: CalendarDate)
    requires NotAfter(t1.year, t1.month, t1.day, t2)
    ensures Age(birth, t1) <= Age(birth, t2)
  {
    var n := Age(birth, t1);
    AgeIsCompletedYears(birth, t1, n);
    AgeIsCompletedYears(birth, t2, n);
  }

  // ---------------------------------------------------------------------------
  // isEligible

  /** `Math.floor((today - lastDonation) / (1000 * 60 * 60 * 24))`; Dafny's division by a
      positive divisor already rounds toward negative infinity. */
  function DaysSince(last: Instant, now: Instant): int {
    (now - last) / MsPerDay
  }

  predicate AnyCondition(m: MedicalHistory) {
    m.hasDiabetes || m.hasHypertension || m.hasHeartDisease || m.hasHepatitis || m.hasHIV
  }

  /** The `isEligible` virtual, with the same early returns in the same order. */
  predicate IsEligible(d: Donor, clock: Clock) {
    var age := Age(d.dateOfBirth, clock.today);
    if age < MinimumAge || age > MaximumAge then false
    else if d.weight < MinimumWeight then false
    else if d.lastDonationDate.Some? && DaysSince(d.lastDonationDate.value, clock.now) < MinimumGapDays then false
    else if AnyCondition(d.medicalHistory) then false
    else true
  }

  predicate AgeRule(d: Donor, clock: Clock) {
    MinimumAge <= Age(d.dateOfBirth, clock.today) <= MaximumAge
  }

  predicate WeightRule(d: Donor) {
    d.weight >= MinimumWeight
  }

  /** Stated on milliseconds, without the floor. */
  predicate GapRule(d: Donor, clock: Clock) {
    d.lastDonationDate.Some? ==> clock.now - d.lastDonationDate.value >= MinimumGapDays * MsPerDay
  }

  predicate HealthRule(d: Donor) {
    !d.medicalHistory.hasDiabetes && !d.medicalHistory.hasHypertension && !d.medicalHistory.hasHeartDisease
    && !d.medicalHistory.hasHepatitis && !d.medicalHistory.hasHIV
  }

  /** Whole days since the last donation fall short of 90 exactly when fewer than
      90 * 24 hours of milliseconds have passed. */
  lemma {:induction false} FloorOfDays(last: Instant, now: Instant)
    ensures DaysSince(last, now) < MinimumGapDays <==> now - last < MinimumGapDays * MsPerDay
  {
    var x := now - last;
    var q := x / MsPerDay;
    assert x == q * MsPerDay + x % MsPerDay && 0 <= x % MsPerDay < MsPerDay;
    if q < MinimumGapDays {
      assert q <= MinimumGapDays - 1;
      assert q * MsPerDay <= (MinimumGapDays - 1) * MsPerDay;
    } else {
      assert q * MsPerDay >= MinimumGapDays * MsPerDay;
    }
  }

  /** `isEligible` holds exactly when all four rules hold. */
  lemma {:induction false} EligibleIffAllRules(d: Donor, clock: Clock)
    ensures IsEligible(d, clock) <==> AgeRule(d, clock) && WeightRule(d) && GapRule(d, clock) && HealthRule(d)
  {
    if d.lastDonationDate.Some? {
      FloorOfDays(d.lastDonationDate.value, clock.now);
    }
  }

  /** The bounds are inclusive: ages 18 and 65, weight 45 and a gap of exactly
      90 days all pass. */
  lemma BoundariesPass(d: Donor, clock: Clock)
    requires Age(d.dateOfBirth, clock.today) == MinimumAge || Age(d.dateOfBirth, clock.today) == MaximumAge
    requires d.weight == MinimumWeight
    requires d.lastDonationDate == Some(clock.now - MinimumGapDays * MsPerDay)
    requires !AnyCondition(d.medicalHistory)
    ensures IsEligible(d, clock)
  {
  }

  /** One millisecond short of 90 days is still too soon. */
  lemma JustUnderNinetyDaysFails(d: Donor, clock: Clock)
    requires d.lastDonationDate == Some(clock.now - MinimumGapDays * MsPerDay + 1)
    ensures !IsEligible(d, clock)
  {
  }

  /** The blood group (including `Unknown`) and `otherConditions` play no part. */
  lemma EligibilityIgnoresGroupAndOtherConditions(d: Donor, clock: Clock, g: BloodGroup, other: string)
    ensures IsEligible(d.(bloodGroup := g), clock) == IsEligible(d, clock)
    ensures IsEligible(d.(medicalHistory := d.medicalHistory.(otherConditions := other)), clock) == IsEligible(d, clock)
  {
  }

  /** Availability and verification are separate flags, not part of eligibility. */
  lemma EligibilityIgnoresFlags(d: Donor, clock: Clock, available: bool, verified: bool)
    ensures IsEligible(d.(isAvailable := available, isVerified := verified), clock) == IsEligible(d, clock)
  {
  }

  /** A donor born today is ineligible, whatever else holds. */
  lemma {:induction false} BornTodayIsIneligible(d: Donor, clock: Clock)
    requires d.dateOfBirth == clock.today
    ensures !IsEligible(d, clock)
  {
    AgeOnDayOfBirth(clock.today);
  }

  // ---------------------------------------------------------------------------
  // The stored document, for the handlers that update it in place

  class DonorDoc {
    const id: DonorId
    const user: UserId
    var bloodGroup: BloodGroup
    var dateOfBirth: CalendarDate
    var weight: real
    var height: real
    var medicalHistory: MedicalHistory
    var lastDonationDate: Option<Instant>
    var isAvailable: bool
    var isVerified: bool
    var location: Location
    var totalDonations: int
    var badges: seq<Badge>

    /** The document's current field values. */
    function Value(): (d: Donor)
      reads this
      ensures d.id == id && d.totalDonations == totalDonations && d.badges == badges
      ensures d.lastDonationDate == lastDonationDate
    {
      Donor(id, user, bloodGroup, dateOfBirth, weight, height, medicalHistory, lastDonationDate,
            isAvailable, isVerified, location, totalDonations, badges)
    }

    constructor (d: Donor)
      ensures Value() == d
    {
      id, user, bloodGroup, dateOfBirth := d.id, d.user, d.bloodGroup, d.dateOfBirth;
      weight, height, medicalHistory := d.weight, d.height, d.medicalHistory;
      lastDonationDate, isAvailable, isVerified := d.lastDonationDate, d.isAvailable, d.isVerified;
      location, totalDonations, badges := d.location, d.totalDonations, d.badges;
    }
  }
}

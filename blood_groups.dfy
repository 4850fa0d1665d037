/** Blood groups and the donor-to-recipient red-cell compatibility table that
    GET /api/donors/requests uses to choose which requests a donor sees. */
module BloodGroups {
  import opened Common

  /** The donor schema's enum; `Unknown` is only ever a donor's group (the
      placeholder profile), never a request's. */
  datatype BloodGroup = APos | ANeg | BPos | BNeg | ABPos | ABNeg | OPos | ONeg | Unknown

  /** The eight groups a blood request may name. */
  type RequestGroup = g: BloodGroup | g != Unknown witness OPos

  const AllRequestGroups: seq<BloodGroup> := [ONeg, OPos, ANeg, APos, BNeg, BPos, ABNeg, ABPos]

  function Name(g: BloodGroup): string {
    match g
    case APos => "A+"
    case ANeg => "A-"
    case BPos => "B+"
    case BNeg => "B-"
    case ABPos => "AB+"
    case ABNeg => "AB-"
    case OPos => "O+"
    case ONeg => "O-"
    case Unknown => "Unknown"
  }

  /** Reads a group as the request and profile validators accept it
      (`isIn(['A+', 'A-', 'B+', 'B-', 'AB+', 'AB-', 'O+', 'O-'])`): `Unknown` is refused. */
  function ParseRequestGroup(s: string): (r: Option<RequestGroup>)
    ensures r.Some? ==> Name(r.value) == s
  {
    if s == "A+" then Some(APos)
    else if s == "A-" then Some(ANeg)
    else if s == "B+" then Some(BPos)
    else if s == "B-" then Some(BNeg)
    else if s == "AB+" then Some(ABPos)
    else if s == "AB-" then Some(ABNeg)
    else if s == "O+" then Some(OPos)
    else if s == "O-" then Some(ONeg)
    else None
  }

  lemma ParseName(g: RequestGroup)
    ensures ParseRequestGroup(Name(g)) == Some(g)
  {
  }

  lemma UnknownIsNotARequestGroup()
    ensures ParseRequestGroup("Unknown") == None
  {
  }

  // ---------------------------------------------------------------------------
  // The table (donor -> recipients), with its fallback for groups it lacks

  /** `compatibility[donor.bloodGroup] || [donor.bloodGroup]`. */
  function CompatibleGroups(donor: BloodGroup): seq<BloodGroup> {
    match donor
    case ONeg => [ONeg, OPos, ANeg, APos, BNeg, BPos, ABNeg, ABPos]
    case OPos => [OPos, APos, BPos, ABPos]
    case ANeg => [ANeg, APos, ABNeg, ABPos]
    case APos => [APos, ABPos]
    case BNeg => [BNeg, BPos, ABNeg, ABPos]
    case BPos => [BPos, ABPos]
    case ABNeg => [ABNeg, ABPos]
    case ABPos => [ABPos]
    case Unknown => [Unknown]
  }

  predicate CanDonateTo(donor: BloodGroup, recipient: BloodGroup) {
    recipient in CompatibleGroups(donor)
  }

  // ---------------------------------------------------------------------------
  // Reference definition: ABO/Rh red-cell compatibility by antigens. A donor may
  // give to a recipient whose cells carry every antigen the donor's cells carry.

  predicate HasA(g: BloodGroup) { g == APos || g == ANeg || g == ABPos || g == ABNeg }
  predicate HasB(g: BloodGroup) { g == BPos || g == BNeg || g == ABPos || g == ABNeg }
  predicate HasRhD(g: BloodGroup) { g == APos || g == BPos || g == ABPos || g == OPos }

  predicate AntigensCovered(donor: BloodGroup, recipient: BloodGroup) {
    && (HasA(donor) ==> HasA(recipient))
    && (HasB(donor) ==> HasB(recipient))
    && (HasRhD(donor) ==> HasRhD(recipient))
  }

  /** For the eight real groups the hard-coded table is exactly the antigen rule. */
  lemma TableIsAntigenRule(donor: RequestGroup, recipient: RequestGroup)
    ensures CanDonateTo(donor, recipient) <==> AntigensCovered(donor, recipient)
  {
    match donor
    case ONeg =>
    case OPos =>
    case ANeg =>
    case APos =>
    case BNeg =>
    case BPos =>
    case ABNeg =>
    case ABPos =>
  }

  /** A donor group the table lacks can serve only its own group. */
  lemma FallbackIsOwnGroup()
    ensures CompatibleGroups(Unknown) == [Unknown]
    ensures forall r :: CanDonateTo(Unknown, r) <==> r == Unknown
  {
  }

  /** O- serves all eight groups; AB+ serves only AB+. */
  lemma UniversalDonorAndRecipient()
    ensures forall r: RequestGroup :: CanDonateTo(ONeg, r)
    ensures forall r :: CanDonateTo(ABPos, r) <==> r == ABPos
    ensures forall d: RequestGroup :: CanDonateTo(d, ABPos)
  {
  }

  lemma {:induction false} Reflexive(g: BloodGroup)
    ensures CanDonateTo(g, g)
  {
    match g
    case Unknown =>
    case _ => TableIsAntigenRule(g, g);
  }

  lemma {:induction false} Transitive(a: BloodGroup, b: BloodGroup, c: BloodGroup)
    requires CanDonateTo(a, b) && CanDonateTo(b, c)
    ensures CanDonateTo(a, c)
  {
    if a == Unknown {
      assert b == Unknown;
    } else {
      assert b != Unknown && c != Unknown;
      TableIsAntigenRule(a, b);
      TableIsAntigenRule(b, c);
      TableIsAntigenRule(a, c);
    }
  }

  /** The Rh-negative variant of a group. */
  function RhNegative(g: RequestGroup): RequestGroup {
    match g
    case APos => ANeg
    case BPos => BNeg
    case ABPos => ABNeg
    case OPos => ONeg
    case _ => g
  }

  /** An Rh- donor serves everyone the Rh+ donor of the same ABO group serves. */
  lemma {:induction false} RhNegativeServesMore(g: RequestGroup, r: RequestGroup)
    requires CanDonateTo(g, r)
    ensures CanDonateTo(RhNegative(g), r)
  {
    TableIsAntigenRule(g, r);
    TableIsAntigenRule(RhNegative(g), r);
  }

  /** Only a donor's own group is never missing from the table's answer, and requests'
      groups never include `Unknown`, so an `Unknown` donor is compatible with no request. */
  lemma UnknownServesNoRequest(r: RequestGroup)
    ensures !CanDonateTo(Unknown, r)
  {
  }
}

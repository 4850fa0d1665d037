/** The blood-request document (server/models/BloodRequest.js): its defaults, the
    `urgencyScore` and `isExpired` virtuals, the pre-save expiry hook, and the
    lists of donor responses and completed donations that the routes append to. */
module BloodRequests {
  import opened Common
  import opened BloodGroups
  import opened Donors

  type RequestId = nat

  datatype Urgency = Low | Medium | High | Critical

  function UrgencyName(u: Urgency): string {
    match u
    case Low => "low"
    case Medium => "medium"
    case High => "high"
    case Critical => "critical"
  }

  datatype RequestStatus = Pending | Matched | InProgress | Completed | Cancelled | Expired

  datatype MatchStatus = MatchPending | Accepted | Declined | MatchCompleted

  /** An entry of `matchedDonors`: a donor's response to the request. */
  datatype Match = Match(donor: DonorId, status: MatchStatus, matchedAt: Instant, responseAt: Option<Instant>)

  /** An entry of `completedDonors`. */
  datatype Completion = Completion(donor: DonorId, unitsDonated: int, donatedAt: Instant)

  datatype Contact = Contact(name: string, phone: string, relationship: string)

  const MinUnits: int := 1
  const MaxUnits: int := 10

  /** `expiresAt` defaults to seven days after creation. */
  const ExpiryPeriod: int := 7 * MsPerDay

  /** The routes' reply when no request has the given id. */
  const RequestNotFound := "Blood request not found"

  // ---------------------------------------------------------------------------
  // urgencyScore and isExpired

  function Rank(u: Urgency): int {
    match u
    case Low => 1
    case Medium => 2
    case High => 3
    case Critical => 4
  }

  /** `urgencyScores[this.urgency] || 2`: the table lookup on the stored string with 2
      for anything it lacks. */
  function UrgencyScore(urgency: string): (score: int)
    ensures 1 <= score <= 4
    ensures urgency != "low" && urgency != "high" && urgency != "critical" ==> score == 2
  {
    if urgency == "low" then 1
    else if urgency == "medium" then 2
    else if urgency == "high" then 3
    else if urgency == "critical" then 4
    else 2
  }

  /** The score of each enum value is its rank, so the score orders urgencies. */
  lemma ScoreIsRank(u: Urgency, v: Urgency)
    ensures UrgencyScore(UrgencyName(u)) == Rank(u)
    ensures Rank(u) < Rank(v) ==> UrgencyScore(UrgencyName(u)) < UrgencyScore(UrgencyName(v))
  {
  }

  predicate IsExpired(expiresAt: Instant, now: Instant) {
    now > expiresAt
  }

  /** The pre-save hook's effect on `status`. */
  function PreSaveStatus(status: RequestStatus, expiresAt: Instant, now: Instant): RequestStatus {
    if IsExpired(expiresAt, now) && status == Pending then Expired else status
  }

  /** Only a pending, expired request changes, and it becomes expired; every other
      status stays whatever the dates. */
  lemma PreSaveOnlyExpiresPending(status: RequestStatus, expiresAt: Instant, now: Instant)
    ensures PreSaveStatus(status, expiresAt, now) != status <==> status == Pending && now > expiresAt
    ensures PreSaveStatus(status, expiresAt, now) != status ==> PreSaveStatus(status, expiresAt, now) == Expired
  {
  }

  lemma PreSaveIdempotent(status: RequestStatus, expiresAt: Instant, now: Instant)
    ensures PreSaveStatus(PreSaveStatus(status, expiresAt, now), expiresAt, now) == PreSaveStatus(status, expiresAt, now)
  {
  }

  /** A request saved at its creation instant (the `expiresAt` default) is not expired. */
  lemma FreshRequestNotExpired(now: Instant)
    ensures PreSaveStatus(Pending, now + ExpiryPeriod, now) == Pending
  {
  }

  // ---------------------------------------------------------------------------
  // The matched-donor and completed-donor lists

  /** `matchedDonors.find(m => m.donor == donor)`: the first entry for that donor. */
  function FindResponse(matches: seq<Match>, donor: DonorId): (r: Option<nat>)
    ensures r.None? <==> forall i :: 0 <= i < |matches| ==> matches[i].donor != donor
    ensures r.Some? ==> r.value < |matches| && matches[r.value].donor == donor
    ensures r.Some? ==> forall i :: 0 <= i < r.value ==> matches[i].donor != donor
  {
    if matches == [] then None
    else if matches[0].donor == donor then Some(0)
    else match FindResponse(matches[1..], donor)
      case None => None
      case Some(i) => Some(i + 1)
  }

  /** `matchedDonors.find(m => m.donor == donor && m.status === 'accepted')`. */
  function FindAccepted(matches: seq<Match>, donor: DonorId): (r: Option<nat>)
    ensures r.None? <==> forall i :: 0 <= i < |matches| ==> !(matches[i].donor == donor && matches[i].status == Accepted)
    ensures r.Some? ==> r.value < |matches| && matches[r.value].donor == donor && matches[r.value].status == Accepted
  {
    if matches == [] then None
    else if matches[0].donor == donor && matches[0].status == Accepted then Some(0)
    else match FindAccepted(matches[1..], donor)
      case None => None
      case Some(i) => Some(i + 1)
  }

  /** How many entries of `matches` belong to `donor`. */
  function ResponsesBy(matches: seq<Match>, donor: DonorId): nat {
    if matches == [] then 0
    else (if matches[0].donor == donor then 1 else 0) + ResponsesBy(matches[1..], donor)
  }

  predicate NoDuplicateDonors(matches: seq<Match>) {
    forall i, j :: 0 <= i < j < |matches| ==> matches[i].donor != matches[j].donor
  }

  lemma {:induction false} ResponsesByAppend(matches: seq<Match>, m: Match, donor: DonorId)
    ensures ResponsesBy(matches + [m], donor) == ResponsesBy(matches, donor) + (if m.donor == donor then 1 else 0)
  {
    if matches != [] {
      assert (matches + [m])[1..] == matches[1..] + [m];
      ResponsesByAppend(matches[1..], m, donor);
    }
  }

  lemma {:induction false} NoResponseCountsZero(matches: seq<Match>, donor: DonorId)
    requires forall i :: 0 <= i < |matches| ==> matches[i].donor != donor
    ensures ResponsesBy(matches, donor) == 0
  {
    if matches != [] {
      NoResponseCountsZero(matches[1..], donor);
    }
  }

  /** Appending the response of a donor who has none keeps the list free of
      duplicates, and the donor then appears exactly once. */
  lemma {:induction false} AppendNewResponse(matches: seq<Match>, m: Match)
    requires NoDuplicateDonors(matches)
    requires FindResponse(matches, m.donor).None?
    ensures NoDuplicateDonors(matches + [m])
    ensures ResponsesBy(matches + [m], m.donor) == 1
  {
    ResponsesByAppend(matches, m, m.donor);
    NoResponseCountsZero(matches, m.donor);
  }

  function SumUnits(cs: seq<Completion>): int {
    if cs == [] then 0 else SumUnits(cs[..|cs| - 1]) + cs[|cs| - 1].unitsDonated
  }

  lemma SumUnitsAppend(cs: seq<Completion>, c: Completion)
    ensures SumUnits(cs + [c]) == SumUnits(cs) + c.unitsDonated
  {
    assert (cs + [c])[..|cs|] == cs;
  }

  /** Every completed donor has an accepted response in `matches`. */
  predicate CompletionsAccepted(completions: seq<Completion>, matches: seq<Match>) {
    forall i :: 0 <= i < |completions| ==> FindAccepted(matches, completions[i].donor).Some?
  }

  lemma {:induction false} FindAcceptedAppend(matches: seq<Match>, m: Match, donor: DonorId)
    requires FindAccepted(matches, donor).Some?
    ensures FindAccepted(matches + [m], donor).Some?
  {
    var i := FindAccepted(matches, donor).value;
    assert (matches + [m])[i] == matches[i];
  }

  /** A new response leaves every completed donor's acceptance in place. */
  lemma {:induction false} CompletionsAcceptedAppend(cs: seq<Completion>, ms: seq<Match>, m: Match)
    requires CompletionsAccepted(cs, ms)
    ensures CompletionsAccepted(cs, ms + [m])
  {
    forall i | 0 <= i < |cs| ensures FindAccepted(ms + [m], cs[i].donor).Some? {
      FindAcceptedAppend(ms, m, cs[i].donor);
    }
  }

  /** A completion by a donor whose response was accepted keeps the property. */
  lemma {:induction false} CompletionsAcceptedPush(cs: seq<Completion>, ms: seq<Match>, c: Completion)
    requires CompletionsAccepted(cs, ms)
    requires FindAccepted(ms, c.donor).Some?
    ensures CompletionsAccepted(cs + [c], ms)
  {
    forall i | 0 <= i < |cs| + 1 ensures FindAccepted(ms, (cs + [c])[i].donor).Some? {
      if i < |cs| {
        assert (cs + [c])[i] == cs[i];
      }
    }
  }

  // ---------------------------------------------------------------------------
  // The document

  /** The fields the requester fills in and may later edit (the update route's
      `allowedUpdates` list). */
  datatype RequestDetails = RequestDetails(
    patientName: string,
    unitsRequired: int,
    urgency: Urgency,
    hospitalName: string,
    hospitalAddress: string,
    city: string,
    state: string,
    pincode: string,
    contactPerson: Contact,
    requiredDate: Instant,
    description: Option<string>)

  /** A stored request, as a value. */
  datatype BloodRequest = BloodRequest(
    id: RequestId,
    requester: UserId,
    bloodGroup: RequestGroup,
    details: RequestDetails,
    status: RequestStatus,
    matchedDonors: seq<Match>,
    completedDonors: seq<Completion>,
    totalUnitsReceived: int,
    isVerified: bool,
    expiresAt: Instant)

  /** A request as `new BloodRequest({...})` creates it: the schema's defaults for
      everything the creator does not give. */
  function NewRequest(id: RequestId, requester: UserId, bloodGroup: RequestGroup, details: RequestDetails, now: Instant): (r: BloodRequest)
    ensures r.id == id && r.requester == requester && r.bloodGroup == bloodGroup && r.details == details
    ensures r.status == Pending && r.matchedDonors == [] && r.completedDonors == []
    ensures r.totalUnitsReceived == 0 && !r.isVerified
    ensures r.expiresAt == now + ExpiryPeriod && !IsExpired(r.expiresAt, now)
  {
    BloodRequest(id, requester, bloodGroup, details, Pending, [], [], 0, false, now + ExpiryPeriod)
  }

  class BloodRequestDoc {
    const id: RequestId
    const requester: UserId
    const createdBy: UserId
    var bloodGroup: RequestGroup
    var details: RequestDetails
    var status: RequestStatus
    var matchedDonors: seq<Match>
    var completedDonors: seq<Completion>
    var totalUnitsReceived: int
    var isVerified: bool
    var expiresAt: Instant
    var updatedBy: Option<UserId>

    /** What the routes keep true of every stored request: at most one response per
        donor, units received equal to the completed units, completions only by donors
        who accepted, and the schema's bounds on `unitsRequired`. */
    ghost predicate Valid()
      reads this
    {
      && NoDuplicateDonors(matchedDonors)
      && totalUnitsReceived == SumUnits(completedDonors)
      && CompletionsAccepted(completedDonors, matchedDonors)
      && MinUnits <= details.unitsRequired <= MaxUnits
    }

    /** The document's current field values. */
    function Value(): (r: BloodRequest)
      reads this
      ensures r.id == id && r.status == status && r.matchedDonors == matchedDonors && r.details == details
      ensures r.bloodGroup == bloodGroup && r.expiresAt == expiresAt && r.isVerified == isVerified
    {
      BloodRequest(id, requester, bloodGroup, details, status, matchedDonors, completedDonors,
                   totalUnitsReceived, isVerified, expiresAt)
    }

    /** `new BloodRequest({...})`. */
    constructor (id: RequestId, requester: UserId, bloodGroup: RequestGroup, details: RequestDetails, now: Instant)
      requires MinUnits <= details.unitsRequired <= MaxUnits
      ensures Valid()
      ensures Value() == NewRequest(id, requester, bloodGroup, details, now)
      ensures this.createdBy == requester && updatedBy == None
    {
      this.id, this.requester, this.createdBy := id, requester, requester;
      this.bloodGroup, this.details := bloodGroup, details;
      status, matchedDonors, completedDonors := Pending, [], [];
      totalUnitsReceived, isVerified, updatedBy := 0, false, None;
      expiresAt := now + ExpiryPeriod;
    }

    /** The pre-save hook, run by every `save()`. */
    method PreSave(now: Instant)
      modifies this`status
      ensures status == PreSaveStatus(old(status), expiresAt, now)
      ensures old(Valid()) ==> Valid()
      ensures Value() == old(Value()).(status := status)
    {
      if IsExpired(expiresAt, now) && status == Pending {
        status := Expired;
      }
    }
  }
}

/** The recipient routes (server/routes/recipients.js): creating a request and
    alerting matching donors, updating it, cancelling it, and recording a completed
    donation. */
module RecipientRoutes {
  import opened Common
  import opened BloodGroups
  import opened Donors
  import opened BloodRequests

  function ParseUrgency(s: string): (u: Option<Urgency>)
    ensures u.Some? ==> UrgencyName(u.value) == s
  {
    if s == "low" then Some(Low)
    else if s == "medium" then Some(Medium)
    else if s == "high" then Some(High)
    else if s == "critical" then Some(Critical)
    else None
  }

  lemma ParseUrgencyName(u: Urgency)
    ensures ParseUrgency(UrgencyName(u)) == Some(u)
  {
  }

  // ---------------------------------------------------------------------------
  // POST /api/recipients/request

  /** The request body. The format validators express-validator runs for the
      pincode (`isPostalCode('IN')`), the phone (`isMobilePhone`) and the date
      (`isISO8601`) are given as their verdicts. */
  datatype CreateBody = CreateBody(
    patientName: string,
    bloodGroup: string,
    unitsRequired: int,
    urgency: string,
    hospitalName: string,
    hospitalAddress: string,
    city: string,
    state: string,
    pincode: string,
    pincodeValid: bool,
    contactPerson: Contact,
    phoneValid: bool,
    requiredDate: Instant,
    dateValid: bool,
    description: Option<string>)

  /** The messages of the failing validators, in the order the validators are declared. */
  function CreateErrors(b: CreateBody): (errs: seq<string>)
    ensures |errs| <= 13
  {
    Check(|Trim(b.patientName)| < 2, "Patient name must be at least 2 characters")
    + Check(ParseRequestGroup(b.bloodGroup).None?, "Invalid blood group")
    + Check(!(1 <= b.unitsRequired <= 10), "Units required must be between 1 and 10")
    + Check(ParseUrgency(b.urgency).None?, "Invalid urgency level")
    + Check(Trim(b.hospitalName) == "", "Hospital name is required")
    + Check(Trim(b.hospitalAddress) == "", "Hospital address is required")
    + Check(Trim(b.city) == "", "City is required")
    + Check(Trim(b.state) == "", "State is required")
    + Check(!b.pincodeValid, "Invalid pincode")
    + Check(Trim(b.contactPerson.name) == "", "Contact person name is required")
    + Check(!b.phoneValid, "Invalid contact person phone")
    + Check(Trim(b.contactPerson.relationship) == "", "Contact person relationship is required")
    + Check(!b.dateValid, "Invalid required date")
  }

  /** The body passes validation exactly when every field meets its rule. */
  lemma CreateErrorsEmptyIff(b: CreateBody)
    ensures CreateErrors(b) == [] <==>
      && |Trim(b.patientName)| >= 2
      && ParseRequestGroup(b.bloodGroup).Some?
      && MinUnits <= b.unitsRequired <= MaxUnits
      && ParseUrgency(b.urgency).Some?
      && Trim(b.hospitalName) != "" && Trim(b.hospitalAddress) != ""
      && Trim(b.city) != "" && Trim(b.state) != ""
      && b.pincodeValid
      && Trim(b.contactPerson.name) != "" && b.phoneValid && Trim(b.contactPerson.relationship) != ""
      && b.dateValid
  {
  }

  /** The contact person after the sanitizers: name and relationship trimmed. */
  function SanitizedContact(c: Contact): (r: Contact)
    ensures r.phone == c.phone && r.name == Trim(c.name) && r.relationship == Trim(c.relationship)
  {
    Contact(Trim(c.name), c.phone, Trim(c.relationship))
  }

  /** The priority of the alert: 'urgent' for a critical request, 'high' for any other. */
  function AlertPriority(u: Urgency): (p: string)
    ensures p == "urgent" <==> u == Critical
    ensures p != "urgent" ==> p == "high"
  {
    if u == Critical then "urgent" else "high"
  }

  /** The `Donor.find` query together with the loop's `isEligible` test. */
  predicate Alerted(d: Donor, group: RequestGroup, city: string, clock: Clock) {
    d.bloodGroup == group && d.isAvailable && d.isVerified
    && ContainsIgnoringCase(d.location.city, city) && IsEligible(d, clock)
  }

  /** The donors alerted for a new request, in stored order. */
  function FanOut(donors: seq<Donor>, group: RequestGroup, city: string, clock: Clock): (alerted: seq<Donor>)
    ensures |alerted| <= |donors|
    ensures forall d :: d in alerted <==> d in donors && Alerted(d, group, city, clock)
  {
    if donors == [] then []
    else
      var rest := FanOut(donors[1..], group, city, clock);
      assert forall d :: d in donors <==> d == donors[0] || d in donors[1..];
      if Alerted(donors[0], group, city, clock) then [donors[0]] + rest else rest
  }

  /** The alert one donor receives. */
  function AlertNotice(d: Donor, u: Urgency): Notice {
    Notice(ToUser(d.user), "blood_request", "Blood Request Alert", AlertPriority(u))
  }

  function AlertNotices(ds: seq<Donor>, u: Urgency): (ns: seq<Notice>)
    ensures |ns| == |ds|
    ensures forall i :: 0 <= i < |ds| ==> ns[i] == AlertNotice(ds[i], u)
    ensures forall n :: n in ns <==> exists d :: d in ds && n == AlertNotice(d, u)
  {
    if ds == [] then []
    else
      assert forall d :: d in ds <==> d == ds[0] || d in ds[1..];
      [AlertNotice(ds[0], u)] + AlertNotices(ds[1..], u)
  }

  /** The alert goes to donors of exactly the request's group: an O- donor, who can
      give to an A+ patient, is not alerted for an A+ request. */
  lemma {:induction false} ExactGroupOnly(donors: seq<Donor>, d: Donor, city: string, clock: Clock)
    requires d in donors && d.bloodGroup == ONeg
    ensures CanDonateTo(ONeg, APos)
    ensures d !in FanOut(donors, APos, city, clock)
  {
  }

  /** Only eligible, available, verified donors are alerted, and ineligible ones never. */
  lemma {:induction false} AlertedDonorsQualify(donors: seq<Donor>, group: RequestGroup, city: string, clock: Clock, d: Donor)
    requires d in FanOut(donors, group, city, clock)
    ensures d.bloodGroup == group && d.isAvailable && d.isVerified && IsEligible(d, clock)
    ensures AgeRule(d, clock) && WeightRule(d) && GapRule(d, clock) && HealthRule(d)
  {
    EligibleIffAllRules(d, clock);
  }

  /** The details a valid body gives the new request: the sanitized fields and the
      parsed urgency. */
  function CreateDetails(b: CreateBody): (d: RequestDetails)
    requires CreateErrors(b) == []
    ensures ParseUrgency(b.urgency) == Some(d.urgency)
    ensures MinUnits <= d.unitsRequired <= MaxUnits && d.unitsRequired == b.unitsRequired
    ensures d.patientName == Trim(b.patientName) && |d.patientName| >= 2
    ensures d.city == Trim(b.city) && d.city != ""
    ensures d.contactPerson == SanitizedContact(b.contactPerson)
    ensures d.hospitalName == Trim(b.hospitalName) && d.hospitalName != ""
    ensures d.hospitalAddress == Trim(b.hospitalAddress) && d.hospitalAddress != ""
    ensures d.state == Trim(b.state) && d.state != ""
    ensures d.pincode == Trim(b.pincode)
    ensures d.requiredDate == b.requiredDate && d.description == TrimmedOption(b.description)
  {
    CreateErrorsEmptyIff(b);
    RequestDetails(Trim(b.patientName), b.unitsRequired, ParseUrgency(b.urgency).value, Trim(b.hospitalName),
                   Trim(b.hospitalAddress), Trim(b.city), Trim(b.state), Trim(b.pincode),
                   SanitizedContact(b.contactPerson), b.requiredDate, TrimmedOption(b.description))
  }

  /** The group a valid body names. */
  function CreateGroup(b: CreateBody): (g: RequestGroup)
    requires CreateErrors(b) == []
    ensures ParseRequestGroup(b.bloodGroup) == Some(g) && Name(g) == b.bloodGroup
  {
    CreateErrorsEmptyIff(b);
    ParseRequestGroup(b.bloodGroup).value
  }

  /** The notifications for a new request built from a valid body. */
  function CreateAlerts(b: CreateBody, donors: seq<Donor>, clock: Clock): (ns: seq<Notice>)
    requires CreateErrors(b) == []
    ensures |ns| <= |donors|
    ensures forall n :: n in ns <==>
      exists d :: d in donors && Alerted(d, CreateGroup(b), Trim(b.city), clock) && n == AlertNotice(d, CreateDetails(b).urgency)
  {
    AlertNotices(FanOut(donors, CreateGroup(b), CreateDetails(b).city, clock), CreateDetails(b).urgency)
  }

  /** The handler. `id` is the id the new document receives and `donors` the stored
      donor profiles. On success the new request is stored as `NewRequest` builds it
      (the save's expiry hook leaves a fresh request pending), and each alerted donor
      gets one notification. */
  method CreateRequest(b: CreateBody, id: RequestId, requester: UserId, donors: seq<Donor>, clock: Clock)
      returns (reply: Reply, request: BloodRequestDoc?, notices: seq<Notice>)
    ensures reply.Ok? <==> CreateErrors(b) == []
    ensures !reply.Ok? ==> reply == Invalid(CreateErrors(b)) && request == null && notices == []
    ensures reply.Ok? ==>
      && request != null && fresh(request) && request.Valid()
      && request.Value() == NewRequest(id, requester, CreateGroup(b), CreateDetails(b), clock.now)
      && notices == CreateAlerts(b, donors, clock)
  {
    var errs := CreateErrors(b);
    if errs != [] {
      return Invalid(errs), null, [];
    }
    request := new BloodRequestDoc(id, requester, CreateGroup(b), CreateDetails(b), clock.now);
    FreshRequestNotExpired(clock.now);
    request.PreSave(clock.now);
    notices := CreateAlerts(b, donors, clock);
    reply := Ok;
  }

  // ---------------------------------------------------------------------------
  // PUT /api/recipients/requests/:id

  /** The body's fields in the handler's `allowedUpdates` list; None is an absent field.
      The format validators' verdicts are given as for creation. */
  datatype RequestUpdate = RequestUpdate(
    patientName: Option<string>,
    unitsRequired: Option<int>,
    urgency: Option<string>,
    hospitalName: Option<string>,
    hospitalAddress: Option<string>,
    city: Option<string>,
    state: Option<string>,
    pincode: Option<string>,
    pincodeValid: bool,
    contactPerson: Option<Contact>,
    phoneValid: bool,
    requiredDate: Option<Instant>,
    dateValid: bool,
    description: Option<string>)

  /** The optional validators (each skipped when its field is absent); they carry no
      message of their own, so each failure reads 'Invalid value'. */
  function UpdateErrors(u: RequestUpdate): (errs: seq<string>)
    ensures errs == [] <==>
      && (u.patientName.Some? ==> |Trim(u.patientName.value)| >= 2)
      && (u.unitsRequired.Some? ==> MinUnits <= u.unitsRequired.value <= MaxUnits)
      && (u.urgency.Some? ==> ParseUrgency(u.urgency.value).Some?)
      && !Blank(u.hospitalName) && !Blank(u.hospitalAddress) && !Blank(u.city) && !Blank(u.state)
      && (u.pincode.Some? ==> u.pincodeValid)
      && (u.contactPerson.Some? ==> Trim(u.contactPerson.value.name) != "" && u.phoneValid
                                    && Trim(u.contactPerson.value.relationship) != "")
      && (u.requiredDate.Some? ==> u.dateValid)
  {
    var invalid := "Invalid value";
    Check(u.patientName.Some? && |Trim(u.patientName.value)| < 2, invalid)
    + Check(u.unitsRequired.Some? && !(1 <= u.unitsRequired.value <= 10), invalid)
    + Check(u.urgency.Some? && ParseUrgency(u.urgency.value).None?, invalid)
    + Check(Blank(u.hospitalName), invalid)
    + Check(Blank(u.hospitalAddress), invalid)
    + Check(Blank(u.city), invalid)
    + Check(Blank(u.state), invalid)
    + Check(u.pincode.Some? && !u.pincodeValid, invalid)
    + Check(u.contactPerson.Some? && Trim(u.contactPerson.value.name) == "", invalid)
    + Check(u.contactPerson.Some? && !u.phoneValid, invalid)
    + Check(u.contactPerson.Some? && Trim(u.contactPerson.value.relationship) == "", invalid)
    + Check(u.requiredDate.Some? && !u.dateValid, invalid)
  }

  /** Validation, then the owner's request (`found` is its status), then the status guard. */
  function UpdateCheck(u: RequestUpdate, found: Option<RequestStatus>): (reply: Reply)
    ensures reply.Ok? <==> UpdateErrors(u) == [] && found.Some? && found.value !in {Completed, Cancelled}
    ensures UpdateErrors(u) == [] && found.Some? && found.value in {Completed, Cancelled}
            ==> reply == Error(400, "Cannot update completed or cancelled request")
  {
    if UpdateErrors(u) != [] then Invalid(UpdateErrors(u))
    else if found.None? then Error(404, RequestNotFound)
    else if found.value == Completed || found.value == Cancelled then Error(400, "Cannot update completed or cancelled request")
    else Ok
  }

  /** The details after the handler's `allowedUpdates` loop: each present field is
      overwritten by its sanitized value, every absent one is kept. */
  function ApplyUpdate(d: RequestDetails, u: RequestUpdate): (n: RequestDetails)
    ensures u.unitsRequired.None? ==> n.unitsRequired == d.unitsRequired
    ensures u.unitsRequired.Some? ==> n.unitsRequired == u.unitsRequired.value
    ensures u.city.None? ==> n.city == d.city
    ensures u.city.Some? ==> n.city == Trim(u.city.value)
    ensures u.contactPerson.None? ==> n.contactPerson == d.contactPerson
    ensures u.contactPerson.Some? ==> n.contactPerson == SanitizedContact(u.contactPerson.value)
    ensures u.patientName.None? ==> n.patientName == d.patientName
    ensures u.patientName.Some? ==> n.patientName == Trim(u.patientName.value)
    ensures u.urgency.None? ==> n.urgency == d.urgency
    ensures u.urgency.Some? ==> n.urgency == (if ParseUrgency(u.urgency.value).Some? then ParseUrgency(u.urgency.value).value else d.urgency)
    ensures u.hospitalName.None? ==> n.hospitalName == d.hospitalName
    ensures u.hospitalName.Some? ==> n.hospitalName == Trim(u.hospitalName.value)
    ensures u.hospitalAddress.None? ==> n.hospitalAddress == d.hospitalAddress
    ensures u.hospitalAddress.Some? ==> n.hospitalAddress == Trim(u.hospitalAddress.value)
    ensures u.state.None? ==> n.state == d.state
    ensures u.state.Some? ==> n.state == Trim(u.state.value)
    ensures u.pincode.None? ==> n.pincode == d.pincode
    ensures u.pincode.Some? ==> n.pincode == Trim(u.pincode.value)
    ensures u.requiredDate.None? ==> n.requiredDate == d.requiredDate
    ensures u.requiredDate.Some? ==> n.requiredDate == u.requiredDate.value
    ensures u.description.None? ==> n.description == d.description
    ensures u.description.Some? ==> n.description == Some(Trim(u.description.value))
  {
    RequestDetails(
      OverlayTrimmed(d.patientName, u.patientName),
      Overlay(d.unitsRequired, u.unitsRequired),
      Overlay(d.urgency, if u.urgency.Some? then ParseUrgency(u.urgency.value) else None),
      OverlayTrimmed(d.hospitalName, u.hospitalName),
      OverlayTrimmed(d.hospitalAddress, u.hospitalAddress),
      OverlayTrimmed(d.city, u.city),
      OverlayTrimmed(d.state, u.state),
      OverlayTrimmed(d.pincode, u.pincode),
      Overlay(d.contactPerson, if u.contactPerson.Some? then Some(SanitizedContact(u.contactPerson.value)) else None),
      Overlay(d.requiredDate, u.requiredDate),
      Overlay(d.description, if u.description.Some? then Some(TrimmedOption(u.description)) else None))
  }

  /** A valid update keeps the units within the schema's bounds. */
  lemma UpdateKeepsUnitsInRange(d: RequestDetails, u: RequestUpdate)
    requires MinUnits <= d.unitsRequired <= MaxUnits
    requires UpdateErrors(u) == []
    ensures MinUnits <= ApplyUpdate(d, u).unitsRequired <= MaxUnits
  {
  }

  /** An update with no fields leaves the details as they were. */
  lemma EmptyUpdateIsIdentity(d: RequestDetails)
    ensures ApplyUpdate(d, RequestUpdate(None, None, None, None, None, None, None, None, true, None, true, None, true, None)) == d
  {
  }

  /** Applying the same update twice is applying it once. */
  lemma UpdateIdempotent(d: RequestDetails, u: RequestUpdate)
    ensures ApplyUpdate(ApplyUpdate(d, u), u) == ApplyUpdate(d, u)
  {
  }

  /** The handler. `request` is what `findOne({ _id, requester })` returns, so it is
      null as well for someone else's request. Only the details change (and `updatedBy`,
      and the status through the save's expiry hook); the group, the responses, the
      completions, the units received and the expiry are never touched. */
  method UpdateRequest(request: BloodRequestDoc?, user: UserId, u: RequestUpdate, now: Instant) returns (reply: Reply)
    requires request != null ==> request.Valid()
    modifies request
    ensures request != null ==> request.Valid()
    ensures reply == UpdateCheck(u, if request == null then None else Some(old(request.status)))
    ensures !reply.Ok? ==> request != null ==> unchanged(request)
    ensures reply.Ok? ==>
      && request != null
      && request.Value() == old(request.Value()).(details := ApplyUpdate(old(request.details), u),
                                                  status := PreSaveStatus(old(request.status), request.expiresAt, now))
      && request.updatedBy == Some(user)
  {
    reply := UpdateCheck(u, if request == null then None else Some(request.status));
    if !reply.Ok? {
      return;
    }
    SaveUpdate(request, user, u, now);
  }

  /** The request's part of an accepted update: the details are rewritten, the updater
      recorded and the request saved through its pre-save hook. */
  method SaveUpdate(request: BloodRequestDoc, user: UserId, u: RequestUpdate, now: Instant)
    requires request.Valid() && UpdateErrors(u) == []
    modifies request
    ensures request.Valid()
    ensures request.Value() == old(request.Value()).(details := ApplyUpdate(old(request.details), u),
                                                     status := PreSaveStatus(old(request.status), request.expiresAt, now))
    ensures request.updatedBy == Some(user)
  {
    UpdateKeepsUnitsInRange(request.details, u);
    request.details := ApplyUpdate(request.details, u);
    request.updatedBy := Some(user);
    request.PreSave(now);
  }

  /** Updating an expired-but-pending request saves it as expired. */
  lemma UpdateExpiresStalePending(u: RequestUpdate, expiresAt: Instant, now: Instant)
    requires UpdateErrors(u) == [] && now > expiresAt
    ensures UpdateCheck(u, Some(Pending)) == Ok
    ensures PreSaveStatus(Pending, expiresAt, now) == Expired
  {
  }

  // ---------------------------------------------------------------------------
  // DELETE /api/recipients/requests/:id

  function CancelCheck(found: Option<RequestStatus>): (reply: Reply)
    ensures reply.Ok? <==> found.Some? && found.value != Completed
    ensures found.None? ==> reply == Error(404, RequestNotFound)
    ensures found == Some(Completed) ==> reply == Error(400, "Cannot cancel completed request")
  {
    if found.None? then Error(404, RequestNotFound)
    else if found.value == Completed then Error(400, "Cannot cancel completed request")
    else Ok
  }

  /** Only a completed request is refused: cancelled, expired, in-progress and matched
      ones are all (re)cancelled. */
  lemma CancelRefusesOnlyCompleted(s: RequestStatus)
    ensures CancelCheck(Some(s)) == Ok <==> s != Completed
    ensures PreSaveStatus(Cancelled, 0, 0) == Cancelled
  {
  }

  /** The notice for one accepted response, addressed to `match.donor.user`. The
      request is loaded without `populate`, so `match.donor` is a bare id and the
      recipient is `undefined`. */
  function CancelNotice(donor: DonorId): Notice {
    Notice(Undefined, "request_status_update", "Request Cancelled", "medium")
  }

  /** One `createNotification` call per accepted response, in stored order; declined
      and pending responses get none. */
  function CancelNotices(ms: seq<Match>): (ns: seq<Notice>)
    ensures |ns| == AcceptedCount(ms)
    ensures forall n :: n in ns ==> n == Notice(Undefined, "request_status_update", "Request Cancelled", "medium")
  {
    if ms == [] then []
    else
      var rest := CancelNotices(ms[1..]);
      if ms[0].status == Accepted then [CancelNotice(ms[0].donor)] + rest else rest
  }

  /** The number of accepted responses. */
  function AcceptedCount(ms: seq<Match>): nat {
    if ms == [] then 0 else (if ms[0].status == Accepted then 1 else 0) + AcceptedCount(ms[1..])
  }

  /** As written, no cancellation notice reaches a donor, whoever accepted: each call
      is made, once per accepted response, with no recipient. */
  lemma {:induction false} CancelNoticesReachNoDonor(ms: seq<Match>, m: Match)
    requires m in ms && m.status == Accepted
    ensures |CancelNotices(ms)| >= 1
    ensures forall n :: n in CancelNotices(ms) ==> n.recipient == Undefined
    ensures CorrectedCancelNotice(m.donor) !in CancelNotices(ms)
  {
    AcceptedCountPositive(ms, m);
  }

  lemma {:induction false} AcceptedCountPositive(ms: seq<Match>, m: Match)
    requires m in ms && m.status == Accepted
    ensures AcceptedCount(ms) >= 1
  {
    if ms[0] != m {
      AcceptedCountPositive(ms[1..], m);
    }
  }

  /** The notice as intended, with `matchedDonors.donor` populated (or each donor looked
      up): addressed to the user of the donor who accepted. */
  function CorrectedCancelNotice(donor: DonorId): Notice {
    Notice(ToUserOfDonor(donor), "request_status_update", "Request Cancelled", "medium")
  }

  /** The intended notices: exactly the donors who accepted are notified, one notice
      per accepted response. */
  function CorrectedCancelNotices(ms: seq<Match>): (ns: seq<Notice>)
    ensures |ns| == AcceptedCount(ms)
    ensures forall n :: n in ns <==> exists m :: m in ms && m.status == Accepted && n == CorrectedCancelNotice(m.donor)
  {
    if ms == [] then []
    else
      var rest := CorrectedCancelNotices(ms[1..]);
      assert forall m :: m in ms <==> m == ms[0] || m in ms[1..];
      if ms[0].status == Accepted then [CorrectedCancelNotice(ms[0].donor)] + rest else rest
  }

  /** The notices as written and as intended are the same calls in the same order;
      only the recipient differs. */
  lemma {:induction false} CancelNoticesDifferOnlyInRecipient(ms: seq<Match>)
    ensures |CancelNotices(ms)| == |CorrectedCancelNotices(ms)|
    ensures forall i :: 0 <= i < |CancelNotices(ms)| ==>
      CancelNotices(ms)[i] == CorrectedCancelNotices(ms)[i].(recipient := Undefined)
  {
    if ms != [] {
      CancelNoticesDifferOnlyInRecipient(ms[1..]);
    }
  }

  /** The handler. A refusal changes nothing. Success sets the status to cancelled,
      saves through the pre-save hook (which keeps it) and changes nothing else; then
      one notification call is made per accepted response, as `CancelNotices` records. */
  method CancelRequest(request: BloodRequestDoc?, now: Instant) returns (reply: Reply, notices: seq<Notice>)
    requires request != null ==> request.Valid()
    modifies request
    ensures request != null ==> request.Valid()
    ensures reply == CancelCheck(if request == null then None else Some(old(request.status)))
    ensures !reply.Ok? ==> notices == [] && (request != null ==> unchanged(request))
    ensures reply.Ok? ==>
      && request != null
      && request.Value() == old(request.Value()).(status := Cancelled)
      && request.updatedBy == old(request.updatedBy)
      && notices == CancelNotices(request.matchedDonors)
  {
    reply := CancelCheck(if request == null then None else Some(request.status));
    notices := [];
    if !reply.Ok? {
      return;
    }
    request.status := Cancelled;
    request.PreSave(now);
    notices := CancelNotices(request.matchedDonors);
  }

  // ---------------------------------------------------------------------------
  // POST /api/recipients/complete-donation

  const NotAccepted := "Donor was not matched or did not accept"

  /** Validation of `unitsDonated`, the owner's request (`found` is its responses), and
      an accepted response from the donor. */
  function CompleteCheck(unitsDonated: int, found: Option<seq<Match>>, donor: DonorId): (reply: Reply)
    ensures reply.Ok? <==> unitsDonated >= 1 && found.Some? && FindAccepted(found.value, donor).Some?
    ensures unitsDonated >= 1 && found.Some? && FindAccepted(found.value, donor).None? ==> reply == Error(400, NotAccepted)
  {
    if unitsDonated < 1 then Invalid(["Units donated must be at least 1"])
    else if found.None? then Error(404, RequestNotFound)
    else if FindAccepted(found.value, donor).None? then Error(400, NotAccepted)
    else Ok
  }

  /** The status the handler sets: completed once enough units arrived, else in progress. */
  function CompletionStatus(totalUnitsReceived: int, unitsRequired: int): (s: RequestStatus)
    ensures s == Completed <==> totalUnitsReceived >= unitsRequired
    ensures s != Completed ==> s == InProgress
  {
    if totalUnitsReceived >= unitsRequired then Completed else InProgress
  }

  /** The request after a recorded donation: one more completion, the units added,
      and the status set from the new total. The responses, details and expiry stay. */
  function RecordDonation(r: BloodRequest, donor: DonorId, unitsDonated: int, now: Instant): (n: BloodRequest)
    ensures n.completedDonors == r.completedDonors + [Completion(donor, unitsDonated, now)]
    ensures n.totalUnitsReceived == r.totalUnitsReceived + unitsDonated
    ensures n.status == Completed <==> n.totalUnitsReceived >= r.details.unitsRequired
    ensures n.status != Completed ==> n.status == InProgress
    ensures n == r.(completedDonors := n.completedDonors, totalUnitsReceived := n.totalUnitsReceived, status := n.status)
    ensures PreSaveStatus(n.status, n.expiresAt, now) == n.status
  {
    var total := r.totalUnitsReceived + unitsDonated;
    r.(completedDonors := r.completedDonors + [Completion(donor, unitsDonated, now)],
       totalUnitsReceived := total,
       status := CompletionStatus(total, r.details.unitsRequired))
  }

  /** Recording a donation from a donor with an accepted response keeps the request's
      invariant: units received still sum the completions, and every completed donor
      had accepted. */
  lemma {:induction false} RecordDonationKeepsInvariant(r: BloodRequest, donor: DonorId, unitsDonated: int, now: Instant)
    requires r.totalUnitsReceived == SumUnits(r.completedDonors)
    requires CompletionsAccepted(r.completedDonors, r.matchedDonors)
    requires FindAccepted(r.matchedDonors, donor).Some?
    ensures var n := RecordDonation(r, donor, unitsDonated, now);
      n.totalUnitsReceived == SumUnits(n.completedDonors) && CompletionsAccepted(n.completedDonors, n.matchedDonors)
  {
    SumUnitsAppend(r.completedDonors, Completion(donor, unitsDonated, now));
    CompletionsAcceptedPush(r.completedDonors, r.matchedDonors, Completion(donor, unitsDonated, now));
  }

  /** The handler. `request` is what `findOne({ _id, requester })` returns and `donor`
      what `Donor.findById(donorId)` returns.
      - A refusal changes nothing.
      - A donor document that fails its schema on save (weight under 45) makes the
        handler fail with 500 before the request is saved: nothing changes.
      - A missing donor document still lets the request be saved, and then the
        notification's `donor.user` throws: 500 after the change.
      - Otherwise the donation is recorded, the donor's counter and last donation
        date are updated, and the donor is thanked. */
  method CompleteDonation(request: BloodRequestDoc?, donorId: DonorId, unitsDonated: int, donor: DonorDoc?, now: Instant)
      returns (reply: Reply, notices: seq<Notice>)
    requires request != null ==> request.Valid()
    requires donor != null ==> donor.id == donorId
    modifies request, donor
    ensures request != null ==> request.Valid()
    ensures var check := CompleteCheck(unitsDonated, if request == null then None else Some(old(request.matchedDonors)), donorId);
      && (!check.Ok? ==> reply == check && notices == [] && (request != null ==> unchanged(request)) && (donor != null ==> unchanged(donor)))
      && (check.Ok? && donor != null && !SchemaValid(old(donor.Value())) ==>
            reply == ServerErrorReply && notices == [] && unchanged(request) && unchanged(donor))
      && (check.Ok? && (donor == null || SchemaValid(old(donor.Value()))) ==>
            && request != null
            && request.Value() == RecordDonation(old(request.Value()), donorId, unitsDonated, now)
            && (donor == null ==> reply == ServerErrorReply && notices == [])
            && (donor != null ==>
                  && reply == Ok
                  && donor.Value() == old(donor.Value()).(totalDonations := old(donor.totalDonations) + 1, lastDonationDate := Some(now))
                  && notices == [Notice(ToUser(donor.user), "donation_completed", "Thank You!", "medium")]))
  {
    reply := CompleteCheck(unitsDonated, if request == null then None else Some(request.matchedDonors), donorId);
    notices := [];
    if !reply.Ok? {
      return;
    }
    if donor != null {
      if !SchemaValid(donor.Value()) {
        return ServerErrorReply, [];
      }
      donor.totalDonations, donor.lastDonationDate := donor.totalDonations + 1, Some(now);
    }
    SaveDonation(request, donorId, unitsDonated, now);
    if donor == null {
      return ServerErrorReply, [];
    }
    notices := [Notice(ToUser(donor.user), "donation_completed", "Thank You!", "medium")];
  }

  /** The request's part of a completion: the donation is recorded and the request
      saved through its pre-save hook. */
  method SaveDonation(request: BloodRequestDoc, donorId: DonorId, unitsDonated: int, now: Instant)
    requires request.Valid()
    requires FindAccepted(request.matchedDonors, donorId).Some?
    modifies request
    ensures request.Valid()
    ensures request.Value() == RecordDonation(old(request.Value()), donorId, unitsDonated, now)
  {
    var n := RecordDonation(request.Value(), donorId, unitsDonated, now);
    RecordDonationKeepsInvariant(request.Value(), donorId, unitsDonated, now);
    request.completedDonors, request.totalUnitsReceived, request.status := n.completedDonors, n.totalUnitsReceived, n.status;
    assert request.Value() == n;
    request.PreSave(now);
  }

  /** Nothing stops the same accepted donor from being recorded twice: a completion
      leaves the responses as they are, so the check passes again and the units are
      counted twice. */
  lemma DuplicateCompletionCounted(r: BloodRequest, donor: DonorId, units: int, t1: Instant, t2: Instant)
    requires CompleteCheck(units, Some(r.matchedDonors), donor) == Ok
    ensures var r1 := RecordDonation(r, donor, units, t1);
      && CompleteCheck(units, Some(r1.matchedDonors), donor) == Ok
      && RecordDonation(r1, donor, units, t2).totalUnitsReceived == r.totalUnitsReceived + 2 * units
      && RecordDonation(r1, donor, units, t2).completedDonors
         == r.completedDonors + [Completion(donor, units, t1), Completion(donor, units, t2)]
  {
  }

  /** Nor is the request's status consulted: a cancelled request with an accepted
      response passes the check, and recording the donation reopens it as completed or
      in progress, which the save keeps. */
  lemma CancelledRequestCanComplete(r: BloodRequest, donor: DonorId, units: int, now: Instant)
    requires r.status == Cancelled && FindAccepted(r.matchedDonors, donor).Some? && units >= 1
    ensures CompleteCheck(units, Some(r.matchedDonors), donor) == Ok
    ensures var n := RecordDonation(r, donor, units, now);
      n.status in {Completed, InProgress} && PreSaveStatus(n.status, n.expiresAt, now) == n.status
  {
  }
}

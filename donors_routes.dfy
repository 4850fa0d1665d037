/** The donor routes (server/routes/donors.js): which blood requests a donor is
    shown (GET /requests) and a donor's response to a request (POST /respond-request). */
module DonorRoutes {
  import opened Common
  import opened BloodGroups
  import opened Donors
  import opened BloodRequests

  // ---------------------------------------------------------------------------
  // GET /api/donors/requests: the query filter

  /** The query's conditions on one request. `urgencyQuery` and `cityQuery` are the
      query-string values, the empty string standing for an absent (falsy) one. */
  predicate VisibleToDonor(donorGroup: BloodGroup, r: BloodRequest, now: Instant, urgencyQuery: string, cityQuery: string) {
    && CanDonateTo(donorGroup, r.bloodGroup)
    && (r.status == Pending || r.status == Matched)
    && r.expiresAt > now
    && r.isVerified
    && (urgencyQuery != "" ==> UrgencyName(r.details.urgency) == urgencyQuery)
    && (cityQuery != "" ==> ContainsIgnoringCase(r.details.city, cityQuery))
  }

  /** The requests the query selects, in stored order (sorting and paging are left out). */
  function RequestsForDonor(donorGroup: BloodGroup, rs: seq<BloodRequest>, now: Instant, urgencyQuery: string, cityQuery: string): (shown: seq<BloodRequest>)
    ensures |shown| <= |rs|
    ensures forall r :: r in shown <==> r in rs && VisibleToDonor(donorGroup, r, now, urgencyQuery, cityQuery)
  {
    if rs == [] then []
    else
      var rest := RequestsForDonor(donorGroup, rs[1..], now, urgencyQuery, cityQuery);
      assert forall r :: r in rs <==> r == rs[0] || r in rs[1..];
      if VisibleToDonor(donorGroup, rs[0], now, urgencyQuery, cityQuery) then [rs[0]] + rest else rest
  }

  /** Without query filters a request is shown exactly when its group is compatible,
      it is pending or matched, its expiry lies strictly ahead and it is verified.
      A shown request is never expired; the converse fails only at the instant
      `expiresAt` itself, when the request is not yet expired but no longer shown. */
  lemma {:induction false} ShownIffActiveCompatible(donorGroup: BloodGroup, rs: seq<BloodRequest>, r: BloodRequest, now: Instant)
    ensures r in RequestsForDonor(donorGroup, rs, now, "", "")
      <==> r in rs && CanDonateTo(donorGroup, r.bloodGroup) && r.status in {Pending, Matched}
           && r.expiresAt > now && r.isVerified
    ensures r in RequestsForDonor(donorGroup, rs, now, "", "") ==> !IsExpired(r.expiresAt, now)
    ensures r.expiresAt == now ==> !IsExpired(r.expiresAt, now) && r !in RequestsForDonor(donorGroup, rs, now, "", "")
  {
    assert VisibleToDonor(donorGroup, r, now, "", "")
      <==> CanDonateTo(donorGroup, r.bloodGroup) && r.status in {Pending, Matched} && r.expiresAt > now && r.isVerified;
  }

  /** A donor whose group the table lacks (the `Unknown` placeholder) sees no request. */
  lemma {:induction false} UnknownDonorSeesNothing(rs: seq<BloodRequest>, now: Instant, urgencyQuery: string, cityQuery: string)
    ensures RequestsForDonor(Unknown, rs, now, urgencyQuery, cityQuery) == []
  {
    var shown := RequestsForDonor(Unknown, rs, now, urgencyQuery, cityQuery);
    if shown != [] {
      assert shown[0] in shown;
      UnknownServesNoRequest(shown[0].bloodGroup);
    }
  }

  /** An O- donor sees every active verified request, whatever its group. */
  lemma {:induction false} UniversalDonorSeesAllActive(rs: seq<BloodRequest>, r: BloodRequest, now: Instant)
    requires r in rs && r.status in {Pending, Matched} && r.expiresAt > now && r.isVerified
    ensures r in RequestsForDonor(ONeg, rs, now, "", "")
  {
    UniversalDonorAndRecipient();
  }

  // ---------------------------------------------------------------------------
  // POST /api/donors/respond-request

  const InvalidAction := "Action must be accept or decline"
  const NotAvailable := "You are not currently available for donation"
  const AlreadyResponded := "You have already responded to this request"

  /** The handler's checks in their order: the `action` validator, the donor profile,
      the request, eligibility, availability, an earlier response. */
  function RespondCheck(action: string, donor: Option<Donor>, request: Option<BloodRequest>, clock: Clock): (reply: Reply)
    ensures reply.Ok? <==>
      && (action == "accept" || action == "decline")
      && donor.Some? && request.Some?
      && IsEligible(donor.value, clock) && donor.value.isAvailable
      && FindResponse(request.value.matchedDonors, donor.value.id).None?
    ensures !reply.Ok? ==> reply.Invalid? || reply.status == 400 || reply.status == 404
  {
    if action != "accept" && action != "decline" then Invalid([InvalidAction])
    else if donor.None? then Error(404, DonorNotFound)
    else if request.None? then Error(404, RequestNotFound)
    else if !IsEligible(donor.value, clock) then Error(400, NotEligible)
    else if !donor.value.isAvailable then Error(400, NotAvailable)
    else if FindResponse(request.value.matchedDonors, donor.value.id).Some? then Error(400, AlreadyResponded)
    else Ok
  }

  /** A donor who already responded is refused, whether they then accept or decline. */
  lemma RespondingTwiceRefused(action: string, d: Donor, r: BloodRequest, clock: Clock)
    requires action == "accept" || action == "decline"
    requires IsEligible(d, clock) && d.isAvailable
    requires exists i :: 0 <= i < |r.matchedDonors| && r.matchedDonors[i].donor == d.id
    ensures RespondCheck(action, Some(d), Some(r), clock) == Error(400, AlreadyResponded)
  {
  }

  /** Ineligibility is reported before unavailability and before an earlier response. */
  lemma IneligibleReportedFirst(action: string, d: Donor, r: BloodRequest, clock: Clock)
    requires action == "accept" || action == "decline"
    requires !IsEligible(d, clock)
    ensures RespondCheck(action, Some(d), Some(r), clock) == Error(400, NotEligible)
  {
  }

  /** The entry the handler appends. */
  function Response(donor: DonorId, accept: bool, now: Instant): (m: Match)
    ensures m.donor == donor && m.matchedAt == now && m.responseAt == Some(now)
    ensures m.status == Accepted <==> accept
    ensures !accept ==> m.status == Declined
  {
    Match(donor, if accept then Accepted else Declined, now, Some(now))
  }

  /** The status after the response and before the save: pending becomes matched on an
      accept; otherwise the status is kept. */
  function RespondedStatus(status: RequestStatus, accept: bool): (s: RequestStatus)
    ensures s != status <==> accept && status == Pending
    ensures s != status ==> s == Matched
  {
    if accept && status == Pending then Matched else status
  }

  /** The handler never looks at the request's status: a donor may accept a cancelled,
      completed or expired request, and the response is recorded while the status
      stays as it was. */
  lemma {:induction false} AcceptOnClosedRequest(d: Donor, r: BloodRequest, clock: Clock)
    requires IsEligible(d, clock) && d.isAvailable
    requires r.matchedDonors == []
    requires r.status in {Cancelled, Completed, Expired}
    ensures RespondCheck("accept", Some(d), Some(r), clock) == Ok
    ensures PreSaveStatus(RespondedStatus(r.status, true), r.expiresAt, clock.now) == r.status
  {
    assert FindResponse(r.matchedDonors, d.id).None?;
  }

  /** The notification the requester receives on an accept. */
  function AcceptNotices(requester: UserId, accept: bool): (ns: seq<Notice>)
    ensures accept ==> ns == [Notice(ToUser(requester), "donor_match", "Donor Found!", "high")]
    ensures !accept ==> ns == []
  {
    if accept then [Notice(ToUser(requester), "donor_match", "Donor Found!", "high")] else []
  }

  /** The handler. `donor` is the donor profile of the signed-in user and `request` the
      document `findById` returns (null for none). A refusal changes nothing; success
      appends one response, moves pending to matched on an accept and saves. */
  method Respond(donor: DonorDoc?, request: BloodRequestDoc?, action: string, clock: Clock)
      returns (reply: Reply, notices: seq<Notice>)
    requires request != null ==> request.Valid()
    modifies request
    ensures request != null ==> request.Valid()
    ensures reply == RespondCheck(action, if donor == null then None else Some(donor.Value()),
                                  if request == null then None else Some(old(request.Value())), clock)
    ensures !reply.Ok? ==> notices == [] && (request != null ==> unchanged(request))
    ensures reply.Ok? ==>
      && request != null && donor != null
      && request.Value() == old(request.Value()).(
           matchedDonors := old(request.matchedDonors) + [Response(donor.id, action == "accept", clock.now)],
           status := PreSaveStatus(RespondedStatus(old(request.status), action == "accept"), old(request.expiresAt), clock.now))
      && request.updatedBy == old(request.updatedBy)
      && notices == AcceptNotices(request.requester, action == "accept")
  {
    var dv := if donor == null then None else Some(donor.Value());
    var rv := if request == null then None else Some(request.Value());
    reply := RespondCheck(action, dv, rv, clock);
    notices := [];
    if !reply.Ok? {
      return;
    }
    var accept := action == "accept";
    var m := Response(donor.id, accept, clock.now);
    AppendNewResponse(request.matchedDonors, m);
    CompletionsAcceptedAppend(request.completedDonors, request.matchedDonors, m);
    request.matchedDonors := request.matchedDonors + [m];
    if accept && request.status == Pending {
      request.status := Matched;
    }
    notices := AcceptNotices(request.requester, accept);
    request.PreSave(clock.now);
  }

  /** After a successful response the donor appears exactly once among the responses. */
  lemma {:induction false} RespondedOnce(r: BloodRequest, d: Donor, action: string, clock: Clock)
    requires NoDuplicateDonors(r.matchedDonors)
    requires RespondCheck(action, Some(d), Some(r), clock) == Ok
    ensures NoDuplicateDonors(r.matchedDonors + [Response(d.id, action == "accept", clock.now)])
    ensures ResponsesBy(r.matchedDonors + [Response(d.id, action == "accept", clock.now)], d.id) == 1
  {
    AppendNewResponse(r.matchedDonors, Response(d.id, action == "accept", clock.now));
  }
}

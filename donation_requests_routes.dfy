/** The donation-claim routes (server/routes/donationRequests.js): a donor files a
    claim, and an admin approves it (crediting the donor and perhaps awarding a
    badge) or rejects it with a reason. */
module DonationRequestRoutes {
  import opened Common
  import opened Donors
  import opened DonationRequests

  const DateRequired := "Valid donation date is required"
  const ClaimNotFound := "Request not found"
  const AlreadyProcessed := "Request is already processed"
  const ReasonRequired := "Rejection reason is required"

  // ---------------------------------------------------------------------------
  // POST /api/donation-requests

  /** The handler. `dateValid` is the `isISO8601` verdict on `donationDate`; `donor` is
      the signed-in user's profile (null for none). An absent location or note takes
      the schema's default, the empty string. */
  method CreateClaim(id: ClaimId, user: UserId, donor: DonorDoc?, donationDate: Instant, dateValid: bool,
                     location: Option<string>, notes: Option<string>, campId: Option<CampId>)
      returns (reply: Reply, claim: ClaimDoc?)
    ensures !dateValid ==> reply == Invalid([DateRequired]) && claim == null
    ensures dateValid && donor == null ==> reply == Error(404, DonorNotFound) && claim == null
    ensures dateValid && donor != null ==>
      && reply == Ok && claim != null && fresh(claim)
      && claim.Value() == Claim(id, donor.id, user, donationDate, ClaimPending, campId,
                                Overlay("", TrimmedOption(location)), Overlay("", TrimmedOption(notes)), "", None, None)
  {
    claim := null;
    if !dateValid {
      return Invalid([DateRequired]), null;
    }
    if donor == null {
      return Error(404, DonorNotFound), null;
    }
    claim := new ClaimDoc(id, donor.id, user, donationDate, campId,
                          Overlay("", TrimmedOption(location)), Overlay("", TrimmedOption(notes)));
    reply := Ok;
  }

  // ---------------------------------------------------------------------------
  // Badges

  predicate NoDuplicateBadges(badges: seq<Badge>) {
    forall i, j :: 0 <= i < j < |badges| ==> badges[i] != badges[j]
  }

  /** The `else if` chain run after the counter has moved to `total`: the first branch
      whose condition holds pushes its badge, and the rest are skipped. */
  function NextBadges(total: int, badges: seq<Badge>): (r: seq<Badge>)
    ensures r == badges || exists b :: b !in badges && r == badges + [b]
    ensures |r| <= |badges| + 1 && r[..|badges|] == badges
    ensures total < 1 ==> r == badges
    ensures EmergencyHero !in badges ==> EmergencyHero !in r
  {
    if total == 1 && FirstDonation !in badges then badges + [FirstDonation]
    else if total >= 5 && RegularDonor !in badges then badges + [RegularDonor]
    else if total >= 10 && Lifesaver !in badges then badges + [Lifesaver]
    else badges
  }

  /** An approval never duplicates a badge. */
  lemma {:induction false} NextBadgesKeepsNoDuplicates(total: int, badges: seq<Badge>)
    requires NoDuplicateBadges(badges)
    ensures NoDuplicateBadges(NextBadges(total, badges))
  {
    var r := NextBadges(total, badges);
    if r != badges {
      var b := r[|badges|];
      assert r == badges + [b];
      assert b !in badges;
      forall i, j | 0 <= i < j < |r| ensures r[i] != r[j] {
        if j == |badges| {
          assert r[i] == badges[i];
        } else {
          assert r[i] == badges[i] && r[j] == badges[j];
        }
      }
    }
  }

  /** Which badge the chain awards: the first donation at a total of 1; otherwise the
      regular-donor badge from 5 on; the lifesaver badge only from 10 on and only once
      the regular-donor badge is held. */
  lemma {:induction false} BadgeAwarded(total: int, badges: seq<Badge>)
    ensures total == 1 && FirstDonation !in badges ==> NextBadges(total, badges) == badges + [FirstDonation]
    ensures total >= 5 && RegularDonor !in badges ==> NextBadges(total, badges) == badges + [RegularDonor]
    ensures NextBadges(total, badges) == badges + [Lifesaver] <==>
      total >= 10 && RegularDonor in badges && Lifesaver !in badges
    ensures 1 < total < 5 ==> NextBadges(total, badges) == badges
  {
    if NextBadges(total, badges) == badges + [Lifesaver] {
      assert (badges + [Lifesaver])[|badges|] == Lifesaver;
    }
  }

  /** A donor reaching ten approvals without the regular-donor badge is given that
      badge, not the lifesaver one. */
  lemma TenthApprovalWithoutRegularBadge()
    ensures NextBadges(10, [FirstDonation]) == [FirstDonation, RegularDonor]
  {
  }

  // ---------------------------------------------------------------------------
  // PUT /api/donation-requests/:id/verify

  /** The lookup and the one-shot status check, shared by approval and rejection. */
  function ProcessCheck(claim: Option<Claim>): (reply: Reply)
    ensures reply.Ok? <==> claim.Some? && claim.value.status == ClaimPending
    ensures claim.None? ==> reply == Error(404, ClaimNotFound)
    ensures claim.Some? && claim.value.status != ClaimPending ==> reply == Error(400, AlreadyProcessed)
  {
    if claim.None? then Error(404, ClaimNotFound)
    else if claim.value.status != ClaimPending then Error(400, AlreadyProcessed)
    else Ok
  }

  /** The claim as approval leaves it. */
  function ApprovedClaim(c: Claim, admin: UserId, now: Instant): (n: Claim)
    ensures n.status == Approved && n.verifiedBy == Some(admin) && n.verifiedAt == Some(now)
    ensures n == c.(status := n.status, verifiedBy := n.verifiedBy, verifiedAt := n.verifiedAt)
  {
    c.(status := Approved, verifiedBy := Some(admin), verifiedAt := Some(now))
  }

  /** The donor as approval credits them: the claimed date becomes the last donation,
      the counter goes up by one and the badge chain runs on the new count. */
  function Credited(d: Donor, donationDate: Instant): (n: Donor)
    ensures n.lastDonationDate == Some(donationDate)
    ensures n.totalDonations == d.totalDonations + 1
    ensures n.badges == NextBadges(n.totalDonations, d.badges)
    ensures n == d.(lastDonationDate := n.lastDonationDate, totalDonations := n.totalDonations, badges := n.badges)
  {
    var total := d.totalDonations + 1;
    d.(lastDonationDate := Some(donationDate), totalDonations := total, badges := NextBadges(total, d.badges))
  }

  /** The handler. `claim` is what `findById` returns and `donor` what
      `Donor.findById(claim.donor)` returns (null for none).
      - A refusal changes nothing.
      - Otherwise the claim is approved and saved; then a donor document, if any, is
        credited and saved. A donor document that fails its schema (weight under 45)
        is refused by that save: the reply is 500, the claim stays approved and the
        donor as stored is unchanged. */
  method VerifyClaim(claim: ClaimDoc?, donor: DonorDoc?, admin: UserId, now: Instant) returns (reply: Reply)
    requires claim != null && donor != null ==> donor.id == claim.donor
    modifies claim, donor
    ensures var check := ProcessCheck(if claim == null then None else Some(old(claim.Value())));
      && (!check.Ok? ==> reply == check && (claim != null ==> unchanged(claim)) && (donor != null ==> unchanged(donor)))
      && (check.Ok? ==>
            && claim != null
            && claim.Value() == ApprovedClaim(old(claim.Value()), admin, now)
            && (donor == null ==> reply == Ok)
            && (donor != null && SchemaValid(old(donor.Value())) ==>
                  reply == Ok && donor.Value() == Credited(old(donor.Value()), claim.donationDate))
            && (donor != null && !SchemaValid(old(donor.Value())) ==>
                  reply == ServerErrorReply && unchanged(donor)))
  {
    reply := ProcessCheck(if claim == null then None else Some(claim.Value()));
    if !reply.Ok? {
      return;
    }
    claim.status, claim.verifiedBy, claim.verifiedAt := Approved, Some(admin), Some(now);
    if donor != null {
      if !SchemaValid(donor.Value()) {
        return ServerErrorReply;
      }
      var n := Credited(donor.Value(), claim.donationDate);
      donor.lastDonationDate, donor.totalDonations, donor.badges := n.lastDonationDate, n.totalDonations, n.badges;
    }
  }

  /** Approving twice is refused the second time, so one claim credits its donor once. */
  lemma {:induction false} ApprovalIsOneShot(c: Claim, admin: UserId, admin': UserId, now: Instant, now': Instant)
    requires ProcessCheck(Some(c)) == Ok
    ensures ProcessCheck(Some(ApprovedClaim(c, admin, now))) == Error(400, AlreadyProcessed)
    ensures ProcessCheck(Some(RejectedClaim(ApprovedClaim(c, admin, now), "late", admin', now'))) == Error(400, AlreadyProcessed)
  {
  }

  // ---------------------------------------------------------------------------
  // PUT /api/donation-requests/:id/reject

  /** The validator on `rejectionReason` (run before the lookup), then the lookup and
      the status check. */
  function RejectCheck(reason: Option<string>, claim: Option<Claim>): (reply: Reply)
    ensures reply.Ok? <==> reason.Some? && Trim(reason.value) != "" && ProcessCheck(claim).Ok?
    ensures (reason.None? || Trim(reason.value) == "") ==> reply == Invalid([ReasonRequired])
  {
    if reason.None? || Trim(reason.value) == "" then Invalid([ReasonRequired])
    else ProcessCheck(claim)
  }

  /** The claim as rejection leaves it; the reason is stored as the sanitizer trimmed it. */
  function RejectedClaim(c: Claim, reason: string, admin: UserId, now: Instant): (n: Claim)
    ensures n.status == Rejected && n.rejectionReason == Trim(reason)
    ensures n.verifiedBy == Some(admin) && n.verifiedAt == Some(now)
    ensures n == c.(status := n.status, rejectionReason := n.rejectionReason, verifiedBy := n.verifiedBy, verifiedAt := n.verifiedAt)
  {
    c.(status := Rejected, rejectionReason := Trim(reason), verifiedBy := Some(admin), verifiedAt := Some(now))
  }

  /** A missing reason is reported even for a claim that does not exist. */
  lemma ReasonCheckedBeforeLookup(claim: Option<Claim>)
    ensures RejectCheck(Some("  "), claim) == Invalid([ReasonRequired])
    ensures RejectCheck(None, claim) == Invalid([ReasonRequired])
  {
    assert TrimStart("  ") == "";
  }

  /** The handler. It is given no donor document: the frame shows the donor is never
      touched. A refusal changes nothing. */
  method RejectClaim(claim: ClaimDoc?, reason: Option<string>, admin: UserId, now: Instant) returns (reply: Reply)
    modifies claim
    ensures reply == RejectCheck(reason, if claim == null then None else Some(old(claim.Value())))
    ensures !reply.Ok? ==> claim != null ==> unchanged(claim)
    ensures reply.Ok? ==> claim != null && reason.Some? && claim.Value() == RejectedClaim(old(claim.Value()), reason.value, admin, now)
  {
    reply := RejectCheck(reason, if claim == null then None else Some(claim.Value()));
    if !reply.Ok? {
      return;
    }
    claim.status, claim.rejectionReason := Rejected, Trim(reason.value);
    claim.verifiedBy, claim.verifiedAt := Some(admin), Some(now);
  }

  /** A rejected claim can be neither approved nor rejected again. */
  lemma {:induction false} RejectionIsTerminal(c: Claim, reason: string, admin: UserId, now: Instant, other: string)
    requires Trim(other) != ""
    ensures ProcessCheck(Some(RejectedClaim(c, reason, admin, now))) == Error(400, AlreadyProcessed)
    ensures RejectCheck(Some(other), Some(RejectedClaim(c, reason, admin, now))) == Error(400, AlreadyProcessed)
  {
  }
}

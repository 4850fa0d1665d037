/** The donation-claim document (server/models/DonationRequest.js): a donor's claim
    that they donated, which an admin approves or rejects once. */
module DonationRequests {
  import opened Common
  import opened Donors

  type ClaimId = nat
  type CampId = nat

  datatype ClaimStatus = ClaimPending | Approved | Rejected

  /** A claim's stored fields, as a value. */
  datatype Claim = Claim(
    id: ClaimId,
    donor: DonorId,
    user: UserId,
    donationDate: Instant,
    status: ClaimStatus,
    camp: Option<CampId>,
    location: string,
    notes: string,
    rejectionReason: string,
    verifiedBy: Option<UserId>,
    verifiedAt: Option<Instant>)

  class ClaimDoc {
    const id: ClaimId
    const donor: DonorId
    const user: UserId
    const donationDate: Instant
    const camp: Option<CampId>
    const location: string
    const notes: string
    var status: ClaimStatus
    var rejectionReason: string
    var verifiedBy: Option<UserId>
    var verifiedAt: Option<Instant>

    /** The document's current field values. */
    function Value(): (c: Claim)
      reads this
      ensures c.id == id && c.donor == donor && c.donationDate == donationDate && c.status == status
    {
      Claim(id, donor, user, donationDate, status, camp, location, notes, rejectionReason, verifiedBy, verifiedAt)
    }

    /** `new DonationRequest({...})`: the schema's defaults make it pending, with no
        rejection reason and no verification. */
    constructor (id: ClaimId, donor: DonorId, user: UserId, donationDate: Instant, camp: Option<CampId>,
                 location: string, notes: string)
      ensures Value() == Claim(id, donor, user, donationDate, ClaimPending, camp, location, notes, "", None, None)
    {
      this.id, this.donor, this.user, this.donationDate := id, donor, user, donationDate;
      this.camp, this.location, this.notes := camp, location, notes;
      status, rejectionReason, verifiedBy, verifiedAt := ClaimPending, "", None, None;
    }
  }
}

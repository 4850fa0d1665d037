/** The donation-camp document (server/models/DonationCamp.js): status and
    registration enums, the `availableSlots`, `isRegistrationOpen` and `isOngoing`
    virtuals, and the pre-save hook that rolls the status forward by date. */
module Camps {
  import opened Common
  import opened BloodGroups
  import opened Donors

  type CampId = nat

  datatype CampStatus = Scheduled | Ongoing | Paused | CampCompleted | CampCancelled

  function CampStatusName(s: CampStatus): string {
    match s
    case Scheduled => "scheduled"
    case Ongoing => "ongoing"
    case Paused => "paused"
    case CampCompleted => "completed"
    case CampCancelled => "cancelled"
  }

  datatype RegistrationStatus = Registered | CheckedIn | Donated | RegistrationCancelled

  /** An entry of `registeredDonors`. */
  datatype Registration = Registration(donor: DonorId, registeredAt: Instant, status: RegistrationStatus, slotTime: Option<string>)

  /** A registration as the schema's defaults complete it: `status` 'registered'. */
  function NewRegistration(donor: DonorId, now: Instant, slotTime: Option<string>): (r: Registration)
    ensures r.donor == donor && r.status == Registered && r.registeredAt == now && r.slotTime == slotTime
  {
    Registration(donor, now, Registered, slotTime)
  }

  datatype CampLocation = CampLocation(name: string, address: string, city: string, state: string, pincode: string)
  datatype Requirements = Requirements(minAge: int, maxAge: int, minWeight: int, requiredDocuments: seq<string>)
  datatype CampContact = CampContact(coordinatorName: string, phone: string, email: string)

  const DefaultMaxDonors: int := 100
  const DefaultRequirements := Requirements(18, 65, 45, [])

  // ---------------------------------------------------------------------------
  // Virtuals

  /** `Math.max(0, this.maxDonors - this.registeredDonors.length)`. */
  function AvailableSlots(maxDonors: int, registered: nat): (slots: int)
    ensures slots >= 0
    ensures slots > 0 <==> registered < maxDonors
    ensures registered <= maxDonors ==> slots + registered == maxDonors
  {
    if maxDonors - registered > 0 then maxDonors - registered else 0
  }

  predicate AcceptsRegistrations(status: CampStatus) {
    status == Scheduled || status == Ongoing
  }

  predicate IsRegistrationOpen(now: Instant, endDate: Instant, status: CampStatus, maxDonors: int, registered: nat) {
    now < endDate && AcceptsRegistrations(status) && AvailableSlots(maxDonors, registered) > 0
  }

  /** Open exactly when the camp has not ended, is scheduled or ongoing, and has room;
      a paused, completed or cancelled camp is never open. */
  lemma RegistrationOpenIff(now: Instant, endDate: Instant, status: CampStatus, maxDonors: int, registered: nat)
    ensures IsRegistrationOpen(now, endDate, status, maxDonors, registered)
      <==> now < endDate && (status == Scheduled || status == Ongoing) && registered < maxDonors
    ensures status in {Paused, CampCompleted, CampCancelled} ==> !IsRegistrationOpen(now, endDate, status, maxDonors, registered)
  {
  }

  predicate IsOngoing(now: Instant, startDate: Instant, endDate: Instant, status: CampStatus) {
    now >= startDate && now <= endDate && status == Ongoing
  }

  /** The pre-save hook's effect on `status`. */
  function PreSaveStatus(status: CampStatus, startDate: Instant, endDate: Instant, now: Instant): CampStatus {
    if now >= startDate && now <= endDate && status == Scheduled then Ongoing
    else if now > endDate && status == Ongoing then CampCompleted
    else status
  }

  /** Scheduled becomes ongoing inside the window, ongoing becomes completed past it,
      and nothing else moves: not paused, cancelled or completed camps, nor a
      scheduled camp whose end has already passed. */
  lemma PreSaveTransitions(status: CampStatus, startDate: Instant, endDate: Instant, now: Instant)
    ensures var s := PreSaveStatus(status, startDate, endDate, now);
      && (s != status ==>
            (status == Scheduled && s == Ongoing && startDate <= now <= endDate)
            || (status == Ongoing && s == CampCompleted && now > endDate))
      && (status in {Paused, CampCancelled, CampCompleted} ==> s == status)
      && (status == Scheduled && now > endDate ==> s == Scheduled)
  {
  }

  lemma PreSaveIdempotent(status: CampStatus, startDate: Instant, endDate: Instant, now: Instant)
    ensures var s := PreSaveStatus(status, startDate, endDate, now);
      PreSaveStatus(s, startDate, endDate, now) == s
  {
  }

  /** After the hook has run, an in-window camp that was scheduled or ongoing is ongoing. */
  lemma PreSaveMakesOngoing(status: CampStatus, startDate: Instant, endDate: Instant, now: Instant)
    requires status == Scheduled || status == Ongoing
    requires startDate <= now <= endDate
    ensures IsOngoing(now, startDate, endDate, PreSaveStatus(status, startDate, endDate, now))
  {
  }

  // ---------------------------------------------------------------------------
  // The registration list

  /** `registeredDonors.findIndex(reg => reg.donor == donor)`, with None for -1. */
  function FindRegistration(regs: seq<Registration>, donor: DonorId): (r: Option<nat>)
    ensures r.None? <==> forall i :: 0 <= i < |regs| ==> regs[i].donor != donor
    ensures r.Some? ==> r.value < |regs| && regs[r.value].donor == donor
    ensures r.Some? ==> forall i :: 0 <= i < r.value ==> regs[i].donor != donor
  {
    if regs == [] then None
    else if regs[0].donor == donor then Some(0)
    else match FindRegistration(regs[1..], donor)
      case None => None
      case Some(i) => Some(i + 1)
  }

  /** `splice(i, 1)`. */
  function RemoveAt(regs: seq<Registration>, i: nat): (r: seq<Registration>)
    requires i < |regs|
    ensures |r| == |regs| - 1
    ensures forall k :: 0 <= k < i ==> r[k] == regs[k]
    ensures forall k :: i <= k < |r| ==> r[k] == regs[k + 1]
  {
    regs[..i] + regs[i + 1..]
  }

  predicate NoDuplicateRegistrations(regs: seq<Registration>) {
    forall i, j :: 0 <= i < j < |regs| ==> regs[i].donor != regs[j].donor
  }

  /** Registering a donor not yet on the list and then unregistering them gives back
      the original list. */
  lemma {:induction false} RegisterThenUnregister(regs: seq<Registration>, reg: Registration)
    requires FindRegistration(regs, reg.donor).None?
    ensures FindRegistration(regs + [reg], reg.donor) == Some(|regs|)
    ensures RemoveAt(regs + [reg], |regs|) == regs
  {
    var s := regs + [reg];
    assert s[|regs|].donor == reg.donor;
    assert forall i :: 0 <= i < |regs| ==> s[i] == regs[i];
    assert s[..|regs|] == regs;
  }

  lemma {:induction false} AppendKeepsNoDuplicates(regs: seq<Registration>, reg: Registration)
    requires NoDuplicateRegistrations(regs)
    requires FindRegistration(regs, reg.donor).None?
    ensures NoDuplicateRegistrations(regs + [reg])
    ensures FindRegistration(regs + [reg], reg.donor).Some?
  {
    assert (regs + [reg])[|regs|].donor == reg.donor;
  }

  /** Removing the donor's (only) entry leaves no entry for that donor and keeps the
      list free of duplicates. */
  lemma {:induction false} RemoveKeepsNoDuplicates(regs: seq<Registration>, i: nat)
    requires NoDuplicateRegistrations(regs)
    requires i < |regs|
    ensures NoDuplicateRegistrations(RemoveAt(regs, i))
    ensures FindRegistration(RemoveAt(regs, i), regs[i].donor).None?
  {
    var r := RemoveAt(regs, i);
    forall a, b | 0 <= a < b < |r| ensures r[a].donor != r[b].donor {
      var a' := if a < i then a else a + 1;
      var b' := if b < i then b else b + 1;
      assert r[a] == regs[a'] && r[b] == regs[b'] && a' < b';
    }
    forall k | 0 <= k < |r| ensures r[k].donor != regs[i].donor {
      var k' := if k < i then k else k + 1;
      assert r[k] == regs[k'] && k' != i;
    }
  }

  // ---------------------------------------------------------------------------
  // The document

  /** The fields the organizer sets at creation and may change through the admin
      update: everything but the registrations, the status and the counters. */
  datatype CampDetails = CampDetails(
    title: string,
    description: string,
    location: CampLocation,
    startDate: Instant,
    endDate: Instant,
    startTime: string,
    endTime: string,
    maxDonors: int,
    requirements: Requirements,
    contactInfo: CampContact,
    specialInstructions: string,
    isPublic: bool,
    targetBloodGroups: seq<RequestGroup>)

  /** A camp document's stored fields, as a value. */
  datatype Camp = Camp(
    id: CampId,
    organizer: UserId,
    createdBy: UserId,
    details: CampDetails,
    registeredDonors: seq<Registration>,
    status: CampStatus,
    totalDonations: int,
    totalUnits: int,
    updatedBy: Option<UserId>)

  class CampDoc {
    const id: CampId
    const organizer: UserId
    const createdBy: UserId
    var details: CampDetails
    var registeredDonors: seq<Registration>
    var status: CampStatus
    var totalDonations: int
    var totalUnits: int
    var updatedBy: Option<UserId>

    /** Each donor holds at most one registration. */
    ghost predicate Valid()
      reads this
    {
      NoDuplicateRegistrations(registeredDonors)
    }

    /** The document's current field values. */
    function Value(): (c: Camp)
      reads this
      ensures c.id == id && c.organizer == organizer && c.details == details
      ensures c.status == status && c.registeredDonors == registeredDonors
    {
      Camp(id, organizer, createdBy, details, registeredDonors, status, totalDonations, totalUnits, updatedBy)
    }

    function Slots(): int
      reads this
    {
      AvailableSlots(details.maxDonors, |registeredDonors|)
    }

    predicate RegistrationOpen(now: Instant)
      reads this
    {
      IsRegistrationOpen(now, details.endDate, status, details.maxDonors, |registeredDonors|)
    }

    /** `new DonationCamp({...})` with the given details: no registrations,
        'scheduled', zero counters, created by the organizer. */
    constructor (id: CampId, organizer: UserId, details: CampDetails)
      ensures Valid()
      ensures Value() == Camp(id, organizer, organizer, details, [], Scheduled, 0, 0, None)
    {
      this.id, this.organizer, this.createdBy, this.details := id, organizer, organizer, details;
      registeredDonors, status := [], Scheduled;
      totalDonations, totalUnits, updatedBy := 0, 0, None;
    }

    /** The pre-save hook, run by every `save()`. */
    method PreSave(now: Instant)
      modifies this`status
      ensures status == PreSaveStatus(old(status), details.startDate, details.endDate, now)
      ensures old(Valid()) ==> Valid()
      ensures Value() == old(Value()).(status := status)
    {
      if now >= details.startDate && now <= details.endDate && status == Scheduled {
        status := Ongoing;
      } else if now > details.endDate && status == Ongoing {
        status := CampCompleted;
      }
    }
  }
}

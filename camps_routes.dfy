/** The camp routes (server/routes/camps.js): the lazy status rollover of the list and
    detail endpoints, the admin PATCH, and a donor's registration and unregistration. */
module CampRoutes {
  import opened Common
  import opened BloodGroups
  import opened Donors
  import opened Camps

  const CampNotFound := "Donation camp not found"
  const RegistrationClosed := "Registration is not open for this camp"
  const AlreadyRegistered := "Already registered for this camp"
  const NotRegistered := "Not registered for this camp"

  // ---------------------------------------------------------------------------
  // GET /api/camps: the two `updateMany` passes

  /** The first pass's filter as written. Its object literal repeats the key `status`,
      so only the later `$ne: 'cancelled'` survives. */
  predicate CompletePassSelects(status: CampStatus, endDate: Instant, today: Instant) {
    endDate < today && status != CampCancelled
  }

  /** The filter the two `$ne` conditions evidently aim at. */
  predicate IntendedCompletePassSelects(status: CampStatus, endDate: Instant, today: Instant) {
    endDate < today && status != CampCompleted && status != CampCancelled
  }

  function CompletePass(status: CampStatus, endDate: Instant, today: Instant): CampStatus {
    if CompletePassSelects(status, endDate, today) then CampCompleted else status
  }

  function OngoingPass(status: CampStatus, startDate: Instant, endDate: Instant, today: Instant): CampStatus {
    if startDate <= today && endDate >= today && status == Scheduled then Ongoing else status
  }

  /** A camp's status after both passes. */
  function ListStatus(status: CampStatus, startDate: Instant, endDate: Instant, today: Instant): CampStatus {
    OngoingPass(CompletePass(status, endDate, today), startDate, endDate, today)
  }

  /** The lost key makes the first pass also select camps that are already completed,
      but rewriting 'completed' to 'completed' changes nothing: its effect is that of
      the intended filter. */
  lemma DuplicateKeyHarmless(status: CampStatus, endDate: Instant, today: Instant)
    ensures CompletePassSelects(status, endDate, today)
      <==> IntendedCompletePassSelects(status, endDate, today) || (endDate < today && status == CampCompleted)
    ensures CompletePass(status, endDate, today)
      == (if IntendedCompletePassSelects(status, endDate, today) then CampCompleted else status)
  {
  }

  /** The list passes in place over the stored camps, first one pass over all of them,
      then the other; `updateMany` runs no save hook, so only `status` moves. */
  method ListRollover(camps: seq<CampDoc>, today: Instant)
    requires forall i, j :: 0 <= i < j < |camps| ==> camps[i] != camps[j]
    modifies camps`status
    ensures forall i :: 0 <= i < |camps| ==>
      camps[i].status == ListStatus(old(camps[i].status), camps[i].details.startDate, camps[i].details.endDate, today)
  {
    for k := 0 to |camps|
      invariant forall i :: 0 <= i < k ==>
        camps[i].status == CompletePass(old(camps[i].status), camps[i].details.endDate, today)
      invariant forall i :: k <= i < |camps| ==> camps[i].status == old(camps[i].status)
    {
      if CompletePassSelects(camps[k].status, camps[k].details.endDate, today) {
        camps[k].status := CampCompleted;
      }
    }
    for k := 0 to |camps|
      invariant forall i :: 0 <= i < k ==>
        camps[i].status == ListStatus(old(camps[i].status), camps[i].details.startDate, camps[i].details.endDate, today)
      invariant forall i :: k <= i < |camps| ==>
        camps[i].status == CompletePass(old(camps[i].status), camps[i].details.endDate, today)
    {
      if camps[k].details.startDate <= today && camps[k].details.endDate >= today && camps[k].status == Scheduled {
        camps[k].status := Ongoing;
      }
    }
  }

  // ---------------------------------------------------------------------------
  // GET /api/camps/:id: the single-camp rollover

  /** Any camp neither cancelled nor completed whose end has passed becomes completed
      (paused and scheduled ones too); otherwise a scheduled camp inside its window
      becomes ongoing. */
  function ByIdStatus(status: CampStatus, startDate: Instant, endDate: Instant, today: Instant): (s: CampStatus)
    ensures status in {CampCancelled, CampCompleted} ==> s == status
    ensures status !in {CampCancelled, CampCompleted} && endDate < today ==> s == CampCompleted
    ensures endDate >= today ==> (s == if status == Scheduled && startDate <= today then Ongoing else status)
  {
    if status != CampCancelled && status != CampCompleted then
      if endDate < today then CampCompleted
      else if startDate <= today && endDate >= today && status == Scheduled then Ongoing
      else status
    else status
  }

  /** The list endpoint and the detail endpoint agree on every camp. */
  lemma ListAgreesWithById(status: CampStatus, startDate: Instant, endDate: Instant, today: Instant)
    ensures ListStatus(status, startDate, endDate, today) == ByIdStatus(status, startDate, endDate, today)
  {
  }

  /** A second read changes nothing more, and the save hook the detail endpoint's
      `save()` runs leaves its result alone. */
  lemma ByIdIdempotent(status: CampStatus, startDate: Instant, endDate: Instant, today: Instant)
    ensures var s := ByIdStatus(status, startDate, endDate, today);
      ByIdStatus(s, startDate, endDate, today) == s && PreSaveStatus(s, startDate, endDate, today) == s
  {
  }

  /** Unlike the save hook, the read completes a paused camp once its end has passed. */
  lemma ReadCompletesPausedCamp(startDate: Instant, endDate: Instant, today: Instant)
    requires endDate < today
    ensures ByIdStatus(Paused, startDate, endDate, today) == CampCompleted
    ensures PreSaveStatus(Paused, startDate, endDate, today) == Paused
  {
  }

  /** The detail handler's rollover on the document `findById` returns (null for none),
      and its reply. The document is saved only when its status changes. */
  method ReadCamp(camp: CampDoc?, today: Instant) returns (reply: Reply)
    modifies camp
    ensures camp == null ==> reply == Error(404, CampNotFound)
    ensures camp != null ==>
      && reply == Ok
      && camp.status == ByIdStatus(old(camp.status), camp.details.startDate, camp.details.endDate, today)
      && camp.Value() == old(camp.Value()).(status := camp.status)
  {
    if camp == null {
      return Error(404, CampNotFound);
    }
    if camp.status != CampCancelled && camp.status != CampCompleted {
      if camp.details.endDate < today {
        camp.status := CampCompleted;
        camp.PreSave(today);
      } else if camp.details.startDate <= today && camp.details.endDate >= today && camp.status == Scheduled {
        camp.status := Ongoing;
        camp.PreSave(today);
      }
    }
    reply := Ok;
  }

  // ---------------------------------------------------------------------------
  // PATCH /api/camps/:id

  /** The body's fields on the allowed list, each absent (None) or given. A given
      `location` or `contactInfo` carries all of its sub-fields. The format validators
      (`isPostalCode('IN')`, `isISO8601`, `isMobilePhone`, `isEmail`) are given as
      their verdicts. */
  datatype CampPatch = CampPatch(
    title: Option<string>,
    description: Option<string>,
    location: Option<CampLocation>,
    pincodeValid: bool,
    startDate: Option<Instant>,
    startDateValid: bool,
    endDate: Option<Instant>,
    endDateValid: bool,
    startTime: Option<string>,
    endTime: Option<string>,
    maxDonors: Option<int>,
    requirements: Option<Requirements>,
    contactInfo: Option<CampContact>,
    phoneValid: bool,
    emailValid: bool,
    specialInstructions: Option<string>,
    targetBloodGroups: Option<seq<RequestGroup>>,
    isPublic: Option<bool>,
    status: Option<CampStatus>)

  const InvalidValue := "Invalid value"

  /** The validators on `title`, `description`, `startTime` and `endTime`. */
  function TextErrors(p: CampPatch): (errs: seq<string>)
    ensures errs == [] <==> !Blank(p.title) && !Blank(p.description) && !Blank(p.startTime) && !Blank(p.endTime)
  {
    Check(Blank(p.title), InvalidValue) + Check(Blank(p.description), InvalidValue)
    + Check(Blank(p.startTime), InvalidValue) + Check(Blank(p.endTime), InvalidValue)
  }

  /** The validators on the `location` sub-fields. */
  function LocationErrors(p: CampPatch): (errs: seq<string>)
    ensures errs == [] <==>
      p.location.Some? ==>
        && Trim(p.location.value.name) != "" && Trim(p.location.value.address) != ""
        && Trim(p.location.value.city) != "" && Trim(p.location.value.state) != ""
        && p.pincodeValid
  {
    var loc := p.location.Some?;
    Check(loc && Trim(p.location.value.name) == "", InvalidValue)
    + Check(loc && Trim(p.location.value.address) == "", InvalidValue)
    + Check(loc && Trim(p.location.value.city) == "", InvalidValue)
    + Check(loc && Trim(p.location.value.state) == "", InvalidValue)
    + Check(loc && !p.pincodeValid, InvalidValue)
  }

  /** The validators on the dates, `maxDonors` and the `contactInfo` sub-fields. */
  function OtherErrors(p: CampPatch): (errs: seq<string>)
    ensures errs == [] <==>
      && (p.startDate.Some? ==> p.startDateValid)
      && (p.endDate.Some? ==> p.endDateValid)
      && (p.maxDonors.Some? ==> p.maxDonors.value >= 1)
      && (p.contactInfo.Some? ==> Trim(p.contactInfo.value.coordinatorName) != "" && p.phoneValid && p.emailValid)
  {
    var contact := p.contactInfo.Some?;
    Check(p.startDate.Some? && !p.startDateValid, InvalidValue)
    + Check(p.endDate.Some? && !p.endDateValid, InvalidValue)
    + Check(p.maxDonors.Some? && p.maxDonors.value < 1, InvalidValue)
    + Check(contact && Trim(p.contactInfo.value.coordinatorName) == "", InvalidValue)
    + Check(contact && !p.phoneValid, InvalidValue)
    + Check(contact && !p.emailValid, InvalidValue)
  }

  /** The fifteen optional validators; none has its own message, so every error reads
      "Invalid value" and grouping the checks changes nothing in the list. */
  function PatchErrors(p: CampPatch): (errs: seq<string>)
    ensures errs == [] <==> TextErrors(p) == [] && LocationErrors(p) == [] && OtherErrors(p) == []
  {
    TextErrors(p) + LocationErrors(p) + OtherErrors(p)
  }

  /** The location as the `trim()` sanitizers leave it: all but the pincode trimmed. */
  function TrimLocation(l: CampLocation): CampLocation {
    CampLocation(Trim(l.name), Trim(l.address), Trim(l.city), Trim(l.state), l.pincode)
  }

  function TrimContact(c: CampContact): CampContact {
    c.(coordinatorName := Trim(c.coordinatorName))
  }

  function OptionMap<T, U>(o: Option<T>, f: T -> U): (r: Option<U>)
    ensures o.None? <==> r.None?
    ensures o.Some? ==> r.value == f(o.value)
  {
    if o.Some? then Some(f(o.value)) else None
  }

  /** The details after the `allowedUpdates` loop: each allowed field present in the
      (sanitized) body replaces the stored one, every absent one is kept. */
  function ApplyPatch(d: CampDetails, p: CampPatch): (n: CampDetails)
    ensures p.title.Some? ==> n.title == Trim(p.title.value)
    ensures p.title.None? ==> n.title == d.title
    ensures p.location.Some? ==> n.location == TrimLocation(p.location.value)
    ensures p.location.None? ==> n.location == d.location
    ensures p.startDate.Some? ==> n.startDate == p.startDate.value
    ensures p.startDate.None? ==> n.startDate == d.startDate
    ensures p.endDate.Some? ==> n.endDate == p.endDate.value
    ensures p.endDate.None? ==> n.endDate == d.endDate
    ensures p.maxDonors.Some? ==> n.maxDonors == p.maxDonors.value
    ensures p.maxDonors.None? ==> n.maxDonors == d.maxDonors
    ensures p.isPublic.Some? ==> n.isPublic == p.isPublic.value
    ensures p.isPublic.None? ==> n.isPublic == d.isPublic
    ensures p.description.Some? ==> n.description == Trim(p.description.value)
    ensures p.description.None? ==> n.description == d.description
    ensures p.startTime.Some? ==> n.startTime == Trim(p.startTime.value)
    ensures p.startTime.None? ==> n.startTime == d.startTime
    ensures p.endTime.Some? ==> n.endTime == Trim(p.endTime.value)
    ensures p.endTime.None? ==> n.endTime == d.endTime
    ensures p.requirements.Some? ==> n.requirements == p.requirements.value
    ensures p.requirements.None? ==> n.requirements == d.requirements
    ensures p.contactInfo.Some? ==> n.contactInfo == TrimContact(p.contactInfo.value)
    ensures p.contactInfo.None? ==> n.contactInfo == d.contactInfo
    ensures p.specialInstructions.Some? ==> n.specialInstructions == p.specialInstructions.value
    ensures p.specialInstructions.None? ==> n.specialInstructions == d.specialInstructions
    ensures p.targetBloodGroups.Some? ==> n.targetBloodGroups == p.targetBloodGroups.value
    ensures p.targetBloodGroups.None? ==> n.targetBloodGroups == d.targetBloodGroups
  {
    CampDetails(
      OverlayTrimmed(d.title, p.title),
      OverlayTrimmed(d.description, p.description),
      Overlay(d.location, OptionMap(p.location, TrimLocation)),
      Overlay(d.startDate, p.startDate),
      Overlay(d.endDate, p.endDate),
      OverlayTrimmed(d.startTime, p.startTime),
      OverlayTrimmed(d.endTime, p.endTime),
      Overlay(d.maxDonors, p.maxDonors),
      Overlay(d.requirements, p.requirements),
      Overlay(d.contactInfo, OptionMap(p.contactInfo, TrimContact)),
      Overlay(d.specialInstructions, p.specialInstructions),
      Overlay(d.isPublic, p.isPublic),
      Overlay(d.targetBloodGroups, p.targetBloodGroups))
  }

  predicate EmptyPatch(p: CampPatch) {
    && p.title.None? && p.description.None? && p.location.None? && p.startDate.None?
    && p.endDate.None? && p.startTime.None? && p.endTime.None? && p.maxDonors.None?
    && p.requirements.None? && p.contactInfo.None? && p.specialInstructions.None?
    && p.targetBloodGroups.None? && p.isPublic.None? && p.status.None?
  }

  /** A body with no allowed field leaves the stored fields as they are. */
  lemma EmptyPatchIsIdentity(d: CampDetails, p: CampPatch)
    requires EmptyPatch(p)
    ensures ApplyPatch(d, p) == d
  {
  }

  /** Sending the same body twice stores what sending it once does. */
  lemma PatchIdempotent(d: CampDetails, p: CampPatch)
    ensures ApplyPatch(ApplyPatch(d, p), p) == ApplyPatch(d, p)
  {
  }

  /** The camp the handler saves, before the hook runs: new details, the given status if
      any, the editor; the registrations and the counters are never touched. */
  function Patched(c: Camp, user: UserId, p: CampPatch): (n: Camp)
    ensures n.id == c.id && n.organizer == c.organizer && n.createdBy == c.createdBy
    ensures n.registeredDonors == c.registeredDonors
    ensures n.totalDonations == c.totalDonations && n.totalUnits == c.totalUnits
    ensures n.status == Overlay(c.status, p.status) && n.updatedBy == Some(user)
  {
    c.(details := ApplyPatch(c.details, p), status := Overlay(c.status, p.status), updatedBy := Some(user))
  }

  /** The handler: validation, then the lookup (null for none), then the loop, the
      editor and the save (with its hook). Any status of the enum may be set; the
      hook may then still roll it forward. */
  method PatchCamp(camp: CampDoc?, user: UserId, p: CampPatch, now: Instant) returns (reply: Reply)
    requires camp != null ==> camp.Valid()
    modifies camp
    ensures camp != null ==> camp.Valid()
    ensures PatchErrors(p) != [] ==> reply == Invalid(PatchErrors(p)) && (camp != null ==> unchanged(camp))
    ensures PatchErrors(p) == [] && camp == null ==> reply == Error(404, CampNotFound)
    ensures PatchErrors(p) == [] && camp != null ==>
      var n := Patched(old(camp.Value()), user, p);
      && reply == Ok
      && camp.Value() == n.(status := PreSaveStatus(n.status, n.details.startDate, n.details.endDate, now))
  {
    var errs := PatchErrors(p);
    if errs != [] {
      return Invalid(errs);
    }
    if camp == null {
      return Error(404, CampNotFound);
    }
    camp.details := ApplyPatch(camp.details, p);
    camp.status := Overlay(camp.status, p.status);
    camp.updatedBy := Some(user);
    camp.PreSave(now);
    reply := Ok;
  }

  /** Pausing a camp through PATCH sticks, whatever the dates; setting it back to
      scheduled inside its window makes it ongoing on the same save. */
  lemma PatchedStatusAfterSave(c: Camp, user: UserId, p: CampPatch, now: Instant)
    requires p.startDate.None? && p.endDate.None?
    ensures p.status == Some(Paused) ==>
      var n := Patched(c, user, p); PreSaveStatus(n.status, n.details.startDate, n.details.endDate, now) == Paused
    ensures p.status == Some(Scheduled) && c.details.startDate <= now <= c.details.endDate ==>
      var n := Patched(c, user, p); PreSaveStatus(n.status, n.details.startDate, n.details.endDate, now) == Ongoing
  {
  }

  // ---------------------------------------------------------------------------
  // POST /api/camps/:id/register

  /** `slotTime || null` after the `trim()` sanitizer: a missing or blank slot is null. */
  function SlotValue(slotTime: Option<string>): (s: Option<string>)
    ensures s.None? <==> slotTime.None? || Trim(slotTime.value) == ""
    ensures s.Some? ==> s.value == Trim(slotTime.value)
  {
    if slotTime.Some? && Trim(slotTime.value) != "" then Some(Trim(slotTime.value)) else None
  }

  /** The handler's checks in their order: the camp, `isRegistrationOpen`, the donor
      profile, an earlier registration, eligibility. */
  function RegisterCheck(camp: Option<Camp>, donor: Option<Donor>, clock: Clock): (reply: Reply)
    ensures reply.Ok? <==>
      && camp.Some? && donor.Some?
      && IsRegistrationOpen(clock.now, camp.value.details.endDate, camp.value.status, camp.value.details.maxDonors, |camp.value.registeredDonors|)
      && FindRegistration(camp.value.registeredDonors, donor.value.id).None?
      && IsEligible(donor.value, clock)
    ensures !reply.Ok? ==> reply.Error? && (reply.status == 400 || reply.status == 404)
  {
    if camp.None? then Error(404, CampNotFound)
    else if !IsRegistrationOpen(clock.now, camp.value.details.endDate, camp.value.status, camp.value.details.maxDonors, |camp.value.registeredDonors|)
    then Error(400, RegistrationClosed)
    else if donor.None? then Error(400, DonorNotFound)
    else if FindRegistration(camp.value.registeredDonors, donor.value.id).Some? then Error(400, AlreadyRegistered)
    else if !IsEligible(donor.value, clock) then Error(400, NotEligible)
    else Ok
  }

  /** A closed camp is reported before a missing profile, an earlier registration or
      ineligibility. */
  lemma ClosedReportedFirst(c: Camp, donor: Option<Donor>, clock: Clock)
    requires !IsRegistrationOpen(clock.now, c.details.endDate, c.status, c.details.maxDonors, |c.registeredDonors|)
    ensures RegisterCheck(Some(c), donor, clock) == Error(400, RegistrationClosed)
  {
  }

  /** The list after a registration. */
  function WithRegistration(regs: seq<Registration>, donor: DonorId, now: Instant, slotTime: Option<string>): (r: seq<Registration>)
    ensures |r| == |regs| + 1 && r[..|regs|] == regs
    ensures r[|regs|] == NewRegistration(donor, now, SlotValue(slotTime))
  {
    regs + [NewRegistration(donor, now, SlotValue(slotTime))]
  }

  /** An accepted registration never takes the list past `maxDonors`, and leaves the
      donor on it exactly once. */
  lemma {:induction false} RegistrationKeepsCapacityAndUniqueness(c: Camp, d: Donor, clock: Clock, slotTime: Option<string>)
    requires NoDuplicateRegistrations(c.registeredDonors)
    requires RegisterCheck(Some(c), Some(d), clock) == Ok
    ensures |WithRegistration(c.registeredDonors, d.id, clock.now, slotTime)| <= c.details.maxDonors
    ensures NoDuplicateRegistrations(WithRegistration(c.registeredDonors, d.id, clock.now, slotTime))
    ensures FindRegistration(WithRegistration(c.registeredDonors, d.id, clock.now, slotTime), d.id) == Some(|c.registeredDonors|)
  {
    var reg := NewRegistration(d.id, clock.now, SlotValue(slotTime));
    AppendKeepsNoDuplicates(c.registeredDonors, reg);
    RegisterThenUnregister(c.registeredDonors, reg);
  }

  /** The handler. `camp` is what `findById` returns and `donor` the signed-in user's
      profile (null for none). A refusal changes nothing; success appends one
      registration, saves (with the hook) and notifies the organizer. */
  method Register(camp: CampDoc?, donor: DonorDoc?, slotTime: Option<string>, clock: Clock)
      returns (reply: Reply, notices: seq<Notice>)
    requires camp != null ==> camp.Valid()
    modifies camp
    ensures camp != null ==> camp.Valid()
    ensures reply == RegisterCheck(if camp == null then None else Some(old(camp.Value())),
                                   if donor == null then None else Some(donor.Value()), clock)
    ensures !reply.Ok? ==> notices == [] && (camp != null ==> unchanged(camp))
    ensures reply.Ok? ==>
      && camp != null && donor != null
      && |camp.registeredDonors| <= camp.details.maxDonors
      && camp.Value() == old(camp.Value()).(
           registeredDonors := WithRegistration(old(camp.registeredDonors), donor.id, clock.now, slotTime),
           status := PreSaveStatus(old(camp.status), camp.details.startDate, camp.details.endDate, clock.now))
      && notices == [Notice(ToUser(camp.organizer), "donation_reminder", "New Camp Registration", "medium")]
  {
    var cv := if camp == null then None else Some(camp.Value());
    var dv := if donor == null then None else Some(donor.Value());
    reply := RegisterCheck(cv, dv, clock);
    notices := [];
    if !reply.Ok? {
      return;
    }
    RegistrationKeepsCapacityAndUniqueness(camp.Value(), donor.Value(), clock, slotTime);
    camp.registeredDonors := WithRegistration(camp.registeredDonors, donor.id, clock.now, slotTime);
    camp.PreSave(clock.now);
    notices := [Notice(ToUser(camp.organizer), "donation_reminder", "New Camp Registration", "medium")];
  }

  // ---------------------------------------------------------------------------
  // DELETE /api/camps/:id/register

  /** The handler's checks in their order: the camp, the donor profile, a registration. */
  function UnregisterCheck(camp: Option<Camp>, donor: Option<Donor>): (reply: Reply)
    ensures reply.Ok? <==> camp.Some? && donor.Some? && FindRegistration(camp.value.registeredDonors, donor.value.id).Some?
    ensures camp.Some? && donor.Some? && !reply.Ok? ==> reply == Error(400, NotRegistered)
  {
    if camp.None? then Error(404, CampNotFound)
    else if donor.None? then Error(400, DonorNotFound)
    else if FindRegistration(camp.value.registeredDonors, donor.value.id).None? then Error(400, NotRegistered)
    else Ok
  }

  /** The list after `splice(findIndex(...), 1)`: the donor's first entry removed, the
      rest kept in order; a list without the donor stays as it is. */
  function WithoutRegistration(regs: seq<Registration>, donor: DonorId): (r: seq<Registration>)
    ensures FindRegistration(regs, donor).None? ==> r == regs
    ensures FindRegistration(regs, donor).Some? ==> |r| == |regs| - 1
  {
    match FindRegistration(regs, donor)
    case None => regs
    case Some(i) => RemoveAt(regs, i)
  }

  /** Unregistering removes exactly the donor's entry, keeps every other entry in its
      order, and leaves no entry for the donor. */
  lemma {:induction false} UnregisterRemovesOnlyTheDonor(regs: seq<Registration>, donor: DonorId)
    requires NoDuplicateRegistrations(regs)
    requires FindRegistration(regs, donor).Some?
    ensures var r := WithoutRegistration(regs, donor);
      && NoDuplicateRegistrations(r)
      && FindRegistration(r, donor).None?
      && forall reg :: reg in regs && reg.donor != donor ==> reg in r
  {
    var i := FindRegistration(regs, donor).value;
    RemoveKeepsNoDuplicates(regs, i);
    var r := RemoveAt(regs, i);
    forall reg | reg in regs && reg.donor != donor ensures reg in r {
      var k :| 0 <= k < |regs| && regs[k] == reg;
      assert k != i;
      if k < i {
        assert r[k] == reg;
      } else {
        assert r[k - 1] == reg;
      }
    }
  }

  /** Registering and then unregistering the same donor gives back the original list. */
  lemma {:induction false} RegisterThenUnregisterRestores(regs: seq<Registration>, donor: DonorId, now: Instant, slotTime: Option<string>)
    requires FindRegistration(regs, donor).None?
    ensures WithoutRegistration(WithRegistration(regs, donor, now, slotTime), donor) == regs
  {
    RegisterThenUnregister(regs, NewRegistration(donor, now, SlotValue(slotTime)));
  }

  /** The handler. A refusal changes nothing; success removes the donor's entry and
      saves (with the hook). */
  method Unregister(camp: CampDoc?, donor: DonorDoc?, now: Instant) returns (reply: Reply)
    requires camp != null ==> camp.Valid()
    modifies camp
    ensures camp != null ==> camp.Valid()
    ensures reply == UnregisterCheck(if camp == null then None else Some(old(camp.Value())),
                                     if donor == null then None else Some(donor.Value()))
    ensures !reply.Ok? ==> camp != null ==> unchanged(camp)
    ensures reply.Ok? ==>
      && camp != null && donor != null
      && FindRegistration(camp.registeredDonors, donor.id).None?
      && camp.Value() == old(camp.Value()).(
           registeredDonors := WithoutRegistration(old(camp.registeredDonors), donor.id),
           status := PreSaveStatus(old(camp.status), camp.details.startDate, camp.details.endDate, now))
  {
    var cv := if camp == null then None else Some(camp.Value());
    var dv := if donor == null then None else Some(donor.Value());
    reply := UnregisterCheck(cv, dv);
    if !reply.Ok? {
      return;
    }
    var i := FindRegistration(camp.registeredDonors, donor.id).value;
    UnregisterRemovesOnlyTheDonor(camp.registeredDonors, donor.id);
    camp.registeredDonors := RemoveAt(camp.registeredDonors, i);
    camp.PreSave(now);
  }
}

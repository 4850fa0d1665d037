/** The registration panel of the camp page (client/src/pages/public/CampDetails.jsx):
    whether the signed-in user is registered, the registration button's state, and
    the free places shown. The camp is the JSON the server sends. */
module CampDetailsPage {
  import opened Common
  import opened Donors
  import opened Camps

  /** `reg.donor` as it arrives: a donor whose `user` is populated, a donor whose
      `user` is still an id, or a donor not populated at all. */
  datatype RegisteredDonor = DonorWithUser(user: UserId) | DonorWithUserId(user: UserId) | BareDonor

  datatype CampView = CampView(status: CampStatus, endDate: Instant, maxDonors: int, registeredDonors: seq<RegisteredDonor>)

  predicate MatchesUser(reg: RegisteredDonor, user: UserId) {
    (reg.DonorWithUser? && reg.user == user) || (reg.DonorWithUserId? && reg.user == user)
  }

  /** `isUserRegistered`. */
  function IsUserRegistered(camp: Option<CampView>, user: Option<UserId>): (b: bool)
    ensures camp.None? || user.None? ==> !b
    ensures camp.Some? && user.Some? ==>
      (b <==> exists i :: 0 <= i < |camp.value.registeredDonors| && MatchesUser(camp.value.registeredDonors[i], user.value))
  {
    camp.Some? && user.Some? && exists i :: 0 <= i < |camp.value.registeredDonors| && MatchesUser(camp.value.registeredDonors[i], user.value)
  }

  /** Both forms of the donor's user reference are recognised; an unpopulated donor
      never is. */
  lemma {:induction false} RegisteredByEitherReference(camp: CampView, user: UserId, i: nat)
    requires i < |camp.registeredDonors|
    ensures camp.registeredDonors[i] == DonorWithUser(user) ==> IsUserRegistered(Some(camp), Some(user))
    ensures camp.registeredDonors[i] == DonorWithUserId(user) ==> IsUserRegistered(Some(camp), Some(user))
    ensures (forall j :: 0 <= j < |camp.registeredDonors| ==> camp.registeredDonors[j] == BareDonor) ==>
      !IsUserRegistered(Some(camp), Some(user))
  {
    if camp.registeredDonors[i] == DonorWithUser(user) || camp.registeredDonors[i] == DonorWithUserId(user) {
      assert MatchesUser(camp.registeredDonors[i], user);
    }
  }

  datatype RegistrationState = RegistrationState(canRegister: bool, message: string, isRegistered: bool)

  /** `getRegistrationStatus`, with `now` for `new Date()`. */
  function GetRegistrationStatus(camp: Option<CampView>, user: Option<UserId>, now: Instant): (r: RegistrationState)
    ensures camp.None? ==> r == RegistrationState(false, "Loading...", false)
    ensures camp.Some? && IsUserRegistered(camp, user) ==> r == RegistrationState(false, "Already Registered", true)
    ensures r.isRegistered <==> camp.Some? && IsUserRegistered(camp, user)
    ensures camp.Some? && !IsUserRegistered(camp, user) && (camp.value.status == CampCompleted || camp.value.status == CampCancelled) ==>
      r == RegistrationState(false, "Camp is " + CampStatusName(camp.value.status), false)
  {
    if camp.None? then RegistrationState(false, "Loading...", false)
    else if IsUserRegistered(camp, user) then RegistrationState(false, "Already Registered", true)
    else
      var c := camp.value;
      if c.status == CampCompleted || c.status == CampCancelled then RegistrationState(false, "Camp is " + CampStatusName(c.status), false)
      else if now >= c.endDate then RegistrationState(false, "Camp has ended", false)
      else if c.maxDonors - |c.registeredDonors| <= 0 then RegistrationState(false, "Camp is Full", false)
      else RegistrationState(true, "Register Now", false)
  }

  /** A loaded camp the user has not joined that is neither completed nor cancelled. */
  predicate PastStatusCheck(camp: Option<CampView>, user: Option<UserId>) {
    camp.Some? && !IsUserRegistered(camp, user) && camp.value.status != CampCompleted && camp.value.status != CampCancelled
  }

  /** The button is enabled exactly in the last branch: a loaded camp the user is not
      registered for, neither completed nor cancelled, not yet ended and with room.
      The ended and full messages come in that order after the status check. */
  lemma CanRegisterIff(camp: Option<CampView>, user: Option<UserId>, now: Instant)
    ensures var r := GetRegistrationStatus(camp, user, now);
      (r.canRegister <==>
        && camp.Some? && !IsUserRegistered(camp, user)
        && camp.value.status != CampCompleted && camp.value.status != CampCancelled
        && now < camp.value.endDate && |camp.value.registeredDonors| < camp.value.maxDonors)
      && (r.canRegister ==> r.message == "Register Now")
      && (PastStatusCheck(camp, user) && now >= camp.value.endDate ==> r.message == "Camp has ended")
      && (PastStatusCheck(camp, user) && now < camp.value.endDate && camp.value.maxDonors <= |camp.value.registeredDonors| ==>
            r.message == "Camp is Full")
  {
  }

  /** Against the server's `isRegistrationOpen`: the page enables the button for every
      open camp the user has not joined, and in one more case, a paused camp that has
      not ended and has room, which the server refuses ("Registration is not open"). */
  lemma {:induction false} PageAgainstServer(camp: CampView, user: Option<UserId>, now: Instant)
    ensures GetRegistrationStatus(Some(camp), user, now).canRegister <==>
      !IsUserRegistered(Some(camp), user) &&
      (IsRegistrationOpen(now, camp.endDate, camp.status, camp.maxDonors, |camp.registeredDonors|)
       || (camp.status == Paused && now < camp.endDate && |camp.registeredDonors| < camp.maxDonors))
  {
    CanRegisterIff(Some(camp), user, now);
    RegistrationOpenIff(now, camp.endDate, camp.status, camp.maxDonors, |camp.registeredDonors|);
  }

  /** A paused camp a day from its end with free places: the page offers registration
      and the server refuses it. */
  lemma PausedCampOffered(now: Instant)
    ensures GetRegistrationStatus(Some(CampView(Paused, now + MsPerDay, 10, [])), None, now).canRegister
    ensures !IsRegistrationOpen(now, now + MsPerDay, Paused, 10, 0)
  {
  }

  /** The panel as it evidently should be, refusing a paused camp the way it refuses
      a completed or cancelled one ("Camp is paused"). */
  function CorrectedRegistrationStatus(camp: Option<CampView>, user: Option<UserId>, now: Instant): (r: RegistrationState)
    ensures camp.Some? && camp.value.status == Paused && !IsUserRegistered(camp, user) ==>
      r == RegistrationState(false, "Camp is paused", false)
    ensures camp.None? || camp.value.status != Paused ==> r == GetRegistrationStatus(camp, user, now)
  {
    if camp.Some? && camp.value.status == Paused && !IsUserRegistered(camp, user)
    then RegistrationState(false, "Camp is " + CampStatusName(Paused), false)
    else GetRegistrationStatus(camp, user, now)
  }

  /** The corrected panel enables the button exactly when the server would accept the
      registration's status and capacity checks. */
  lemma {:induction false} CorrectedAgreesWithServer(camp: CampView, user: Option<UserId>, now: Instant)
    ensures CorrectedRegistrationStatus(Some(camp), user, now).canRegister <==>
      !IsUserRegistered(Some(camp), user) &&
      IsRegistrationOpen(now, camp.endDate, camp.status, camp.maxDonors, |camp.registeredDonors|)
  {
    PageAgainstServer(camp, user, now);
  }

  /** The free places shown, `Math.max(0, maxDonors - registeredCount)`: the server's
      `availableSlots`. */
  function DisplayedSlots(camp: CampView): (n: int)
    ensures n == AvailableSlots(camp.maxDonors, |camp.registeredDonors|)
    ensures n >= 0
  {
    if camp.maxDonors - |camp.registeredDonors| > 0 then camp.maxDonors - |camp.registeredDonors| else 0
  }
}

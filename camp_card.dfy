/** The camp card of the camp list (client/src/pages/public/CampCard.jsx): the fill
    percentage, whether the camp shows as full, whether the register button is shown,
    and the status badge. */
module CampCardView {
  import opened Common
  import opened Camps

  /** `Math.round(registered / maxDonors * 100)` capped at 100, and 0 without a
      positive capacity; the rounding is to the nearest integer with halves rounded
      up, computed exactly. */
  function Percentage(registered: nat, maxDonors: int): (p: int)
    ensures 0 <= p <= 100
    ensures maxDonors <= 0 ==> p == 0
    ensures maxDonors > 0 && p < 100 ==> 2 * p * maxDonors <= 200 * registered + maxDonors < 2 * (p + 1) * maxDonors
    ensures maxDonors > 0 && p == 100 ==> 200 * registered + maxDonors >= 200 * maxDonors
  {
    if maxDonors > 0 then
      var rounded := (200 * registered + maxDonors) / (2 * maxDonors);
      if rounded < 100 then rounded else 100
    else 0
  }

  predicate IsFull(registered: nat, maxDonors: int) {
    Percentage(registered, maxDonors) >= 100
  }

  /** The card shows a camp as full once it is at least 99.5% booked; a camp without
      a positive capacity never shows as full. 995 of 1000 places is full, 994 is not. */
  lemma FullIff(registered: nat, maxDonors: int)
    ensures maxDonors > 0 ==> (IsFull(registered, maxDonors) <==> 200 * registered >= 199 * maxDonors)
    ensures maxDonors <= 0 ==> !IsFull(registered, maxDonors)
    ensures IsFull(995, 1000) && !IsFull(994, 1000)
  {
    if maxDonors > 0 {
      var p := Percentage(registered, maxDonors);
      if p < 100 {
        ScaleMonotone(p + 1, 100, 2 * maxDonors);
      }
    }
    assert Percentage(995, 1000) == 100;
    assert Percentage(994, 1000) == 99;
  }

  lemma ScaleMonotone(a: int, b: int, c: int)
    requires a <= b && c > 0
    ensures a * c <= b * c
  {
  }

  /** `canRegister`: a scheduled camp the server reports open, a signed-in user with
      the donor role, and a card not shown as full. `isRegistrationOpen` is the field
      as it arrives with the camp, and `roles` is absent for a signed-out user. */
  predicate CanRegister(status: CampStatus, isRegistrationOpen: bool, isAuthenticated: bool,
                        roles: Option<seq<string>>, registered: nat, maxDonors: int) {
    status == Scheduled && isRegistrationOpen && isAuthenticated
      && roles.Some? && "donor" in roles.value && !IsFull(registered, maxDonors)
  }

  /** The register button needs a scheduled camp (an ongoing camp, open on the server,
      gets none), the donor role, and fewer than 99.5% of places taken; so with the
      server's own `isRegistrationOpen` it is shown only where the server would accept. */
  lemma {:induction false} CanRegisterNeeds(status: CampStatus, now: int, endDate: int, isAuthenticated: bool,
                                            roles: Option<seq<string>>, registered: nat, maxDonors: int)
    ensures CanRegister(status, IsRegistrationOpen(now, endDate, status, maxDonors, registered), isAuthenticated, roles, registered, maxDonors)
      ==> status == Scheduled && roles.Some? && "donor" in roles.value && 200 * registered < 199 * maxDonors
          && IsRegistrationOpen(now, endDate, status, maxDonors, registered)
    ensures !CanRegister(Ongoing, true, isAuthenticated, roles, registered, maxDonors)
  {
    FullIff(registered, maxDonors);
  }

  /** A camp with 5 of 1000 places free is open on the server, yet the card hides the
      register button because it rounds to 100%. */
  lemma NearlyFullCampHidden(now: int)
    ensures IsRegistrationOpen(now, now + 1, Scheduled, 1000, 995)
    ensures !CanRegister(Scheduled, true, true, Some(["donor"]), 995, 1000)
  {
  }

  /** `camp.isRegistrationOpen` as the card receives it. The field is a virtual of the
      camp schema, whose only option is `timestamps: true`, and the routes send camps
      through `res.json`, so the field is absent and `undefined` is falsy. */
  const ArrivedRegistrationOpen: bool := false

  /** As written, the card never offers registration: with the field as it arrives,
      `canRegister` is false for every camp and user, while a camp the server reports
      open would have shown the button to a donor. */
  lemma {:induction false} CardNeverOffersRegistration(status: CampStatus, isAuthenticated: bool,
                                                       roles: Option<seq<string>>, registered: nat, maxDonors: int, now: int)
    ensures !CanRegister(status, ArrivedRegistrationOpen, isAuthenticated, roles, registered, maxDonors)
    ensures IsRegistrationOpen(now, now + 1, Scheduled, 10, 0)
    ensures CanRegister(Scheduled, IsRegistrationOpen(now, now + 1, Scheduled, 10, 0), true, Some(["donor"]), 0, 10)
  {
    FullIff(0, 10);
  }

  datatype StatusConfig = StatusConfig(className: string, caption: string, icon: string)

  const ScheduledConfig := StatusConfig("badge-scheduled", "Scheduled", "\U{1F4C5}")

  /** `getStatusConfig`: the four listed statuses have their own badge, anything else
      gets the scheduled one. */
  function GetStatusConfig(status: string): (c: StatusConfig)
    ensures status != "ongoing" && status != "completed" && status != "cancelled" ==> c == ScheduledConfig
    ensures status == "ongoing" ==> c.caption == "Ongoing"
    ensures status == "completed" ==> c.caption == "Completed"
    ensures status == "cancelled" ==> c.caption == "Cancelled"
  {
    if status == "ongoing" then StatusConfig("badge-ongoing", "Ongoing", "\U{1F534}")
    else if status == "completed" then StatusConfig("badge-completed", "Completed", "\U{2705}")
    else if status == "cancelled" then StatusConfig("badge-cancelled", "Cancelled", "\U{274C}")
    else ScheduledConfig
  }

  /** Every camp status gets a badge captioned after it, except a paused camp, which is
      badged as scheduled. */
  lemma StatusBadges()
    ensures GetStatusConfig(CampStatusName(Paused)) == ScheduledConfig
    ensures GetStatusConfig(CampStatusName(Scheduled)).caption == "Scheduled"
    ensures GetStatusConfig(CampStatusName(Ongoing)).caption == "Ongoing"
    ensures GetStatusConfig(CampStatusName(CampCompleted)).caption == "Completed"
    ensures GetStatusConfig(CampStatusName(CampCancelled)).caption == "Cancelled"
  {
  }
}

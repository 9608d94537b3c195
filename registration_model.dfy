/** The registration schema: required event and user references, the registration time
    (defaulting to the creation time and never changed), a status and a payment status from
    fixed sets with defaults, and a unique (event, user) index. */
module RegistrationModel {
  import opened Wrappers
  import opened Ids
  import opened Schema

  datatype Status = Pending | Confirmed | Cancelled | Waitlisted
  datatype PaymentStatus = Unpaid | PaymentPending | Paid | Refunded

  function StatusName(s: Status): string {
    match s
    case Pending => "pending"
    case Confirmed => "confirmed"
    case Cancelled => "cancelled"
    case Waitlisted => "waitlisted"
  }

  /** The status enum: exactly the four names are accepted. */
  function ParseStatus(s: string): (r: Option<Status>)
    ensures r.Some? <==> s in {"pending", "confirmed", "cancelled", "waitlisted"}
    ensures r.Some? ==> StatusName(r.value) == s
  {
    if s == "pending" then Some(Pending)
    else if s == "confirmed" then Some(Confirmed)
    else if s == "cancelled" then Some(Cancelled)
    else if s == "waitlisted" then Some(Waitlisted)
    else None
  }

  function PaymentName(p: PaymentStatus): string {
    match p
    case Unpaid => "unpaid"
    case PaymentPending => "pending"
    case Paid => "paid"
    case Refunded => "refunded"
  }

  /** The payment-status enum: exactly the four names are accepted. */
  function ParsePayment(s: string): (r: Option<PaymentStatus>)
    ensures r.Some? <==> s in {"unpaid", "pending", "paid", "refunded"}
    ensures r.Some? ==> PaymentName(r.value) == s
  {
    if s == "unpaid" then Some(Unpaid)
    else if s == "pending" then Some(PaymentPending)
    else if s == "paid" then Some(Paid)
    else if s == "refunded" then Some(Refunded)
    else None
  }

  lemma EnumNamesParse(s: Status, p: PaymentStatus)
    ensures ParseStatus(StatusName(s)) == Some(s)
    ensures ParsePayment(PaymentName(p)) == Some(p)
  {
  }

  datatype Registration = Registration(
    id: Id,
    event: Id,
    user: Id,
    registeredAt: int,
    status: Status,
    paymentStatus: PaymentStatus)

  /** What `Registration.create` is given: any field may be missing. */
  datatype RegistrationInput = RegistrationInput(
    event: Option<Id>,
    user: Option<Id>,
    registeredAt: Option<int>,
    status: Option<string>,
    paymentStatus: Option<string>)

  /** The schema failures of an input, in schema order. */
  function RegistrationErrors(input: RegistrationInput): (errs: seq<string>)
    ensures errs == [] <==>
      && input.event.Some? && input.user.Some?
      && (input.status.None? || ParseStatus(input.status.value).Some?)
      && (input.paymentStatus.None? || ParsePayment(input.paymentStatus.value).Some?)
  {
    (if input.event.None? then [RequiredError("event")] else [])
    + (if input.user.None? then [RequiredError("user")] else [])
    + (if input.status.Some? && ParseStatus(input.status.value).None?
       then ["status: `" + input.status.value + "` is not a valid enum value for path `status`."] else [])
    + (if input.paymentStatus.Some? && ParsePayment(input.paymentStatus.value).None?
       then ["paymentStatus: `" + input.paymentStatus.value + "` is not a valid enum value for path `paymentStatus`."] else [])
  }

  /** `Registration.create(input)` at time `now`: both references are required, the enums
      are checked, and the defaults are `now`, "confirmed" and "unpaid". */
  function CreateRegistration(id: Id, input: RegistrationInput, now: int): (r: Result<Registration>)
    ensures r.Success? <==> RegistrationErrors(input) == []
    ensures r.Success? ==>
      && r.value.id == id
      && r.value.event == input.event.value && r.value.user == input.user.value
      && r.value.registeredAt == input.registeredAt.GetOr(now)
      && (input.status.None? ==> r.value.status == Confirmed)
      && (input.status.Some? ==> StatusName(r.value.status) == input.status.value)
      && (input.paymentStatus.None? ==> r.value.paymentStatus == Unpaid)
      && (input.paymentStatus.Some? ==> PaymentName(r.value.paymentStatus) == input.paymentStatus.value)
  {
    var errs := RegistrationErrors(input);
    if errs != [] then Failure(ValidationMessage("Registration", errs))
    else
      var status := if input.status.Some? then ParseStatus(input.status.value).value else Confirmed;
      var payment := if input.paymentStatus.Some? then ParsePayment(input.paymentStatus.value).value else Unpaid;
      Success(Registration(id, input.event.value, input.user.value, input.registeredAt.GetOr(now), status, payment))
  }

  /** Some registration links `event` and `user`. */
  predicate HasPair(regs: seq<Registration>, event: Id, user: Id) {
    exists k | 0 <= k < |regs| :: regs[k].event == event && regs[k].user == user
  }

  /** The unique (event, user) index: no two registrations share the pair. */
  predicate UniquePairs(regs: seq<Registration>) {
    forall i, j | 0 <= i < j < |regs| :: (regs[i].event, regs[i].user) != (regs[j].event, regs[j].user)
  }

  /** Appending a registration for a pair not yet present keeps the index unique. */
  lemma AppendKeepsUnique(regs: seq<Registration>, r: Registration)
    requires UniquePairs(regs)
    requires !HasPair(regs, r.event, r.user)
    ensures UniquePairs(regs + [r])
  {
    forall i, j | 0 <= i < j < |regs| + 1
      ensures ((regs + [r])[i].event, (regs + [r])[i].user) != ((regs + [r])[j].event, (regs + [r])[j].user)
    {
      if j == |regs| {
        assert !(regs[i].event == r.event && regs[i].user == r.user);
      }
    }
  }
}

/** The reservation life cycle: the checks `register` makes before it creates
    a hold, the records it creates, the expiry sweep, the receipt upload step
    and the status report polled by clients. */
module Lifecycle {
  import opened Records
  import opened Capacity
  import opened Files

  // ---------------------------------------------------------------------
  // Registration

  /** The fields of a registration form, as the handler reads them: the BASL
      id, NIC, ticket type and additional-person fields stripped of
      surrounding blanks, the name, email and phone as sent. Slot 1 and
      slot 2 are the optional additional-person fields. */
  datatype RegistrationForm = RegistrationForm(
    name: string,
    email: string,
    phone: string,
    baslId: string,
    nic: string,
    ticketType: string,
    first: Person,
    second: Person)

  /** Why a registration is turned away, in the order the checks run. */
  datatype RegError =
    | InvalidTicketType
    | IncompleteDetails
    | BaslTaken(baslId: string)
    | NicTaken(nic: string)
    | EmailTaken
    | InsufficientCapacity(available: nat)

  function BaslIds(ls: seq<Lawyer>): set<string> { set l | l in ls :: l.baslId }

  function Nics(ls: seq<Lawyer>): set<string> { set l | l in ls :: l.nic }

  function Emails(ls: seq<Lawyer>): set<string> { set l | l in ls :: l.email }

  /** The additional persons a registration form carries for its ticket type. */
  function AdditionalPersons(f: RegistrationForm): seq<Person>
  {
    SuppliedPersons(f.ticketType, f.first, f.second)
  }

  /** The first element of `xs` that is in `taken`: the loops that query the
      registrant table once per id and stop at the first hit. */
  function FirstTaken(xs: seq<string>, taken: set<string>): (r: Option<string>)
    ensures r.None? <==> forall i :: 0 <= i < |xs| ==> xs[i] !in taken
    ensures r.Some? ==> r.value in taken
    ensures r.Some? ==> exists k :: 0 <= k < |xs| && xs[k] == r.value && forall j :: 0 <= j < k ==> xs[j] !in taken
  {
    if |xs| == 0 then None
    else if xs[0] in taken then Some(xs[0])
    else
      var r := FirstTaken(xs[1..], taken);
      assert r.Some? ==> exists k :: 0 <= k < |xs| && xs[k] == r.value && forall j :: 0 <= j < k ==> xs[j] !in taken by {
        if r.Some? {
          var t := xs[1..];
          var k :| 0 <= k < |t| && t[k] == r.value && forall j :: 0 <= j < k ==> t[j] !in taken;
          assert xs[k + 1] == r.value;
          assert forall j :: 0 <= j < k + 1 ==> xs[j] !in taken by {
            forall j | 0 <= j < k + 1 ensures xs[j] !in taken {
              if j > 0 { assert xs[j] == t[j - 1]; }
            }
          }
        }
      }
      r
  }

  /** BASL ids checked by the loop: the primary's, then each additional person's. */
  function BaslIdsToCheck(f: RegistrationForm): seq<string>
  {
    [f.baslId] + seq(|AdditionalPersons(f)|, i requires 0 <= i < |AdditionalPersons(f)| => AdditionalPersons(f)[i].baslId)
  }

  /** NICs checked by the loop: the primary's, then each additional person's. */
  function NicsToCheck(f: RegistrationForm): seq<string>
  {
    [f.nic] + seq(|AdditionalPersons(f)|, i requires 0 <= i < |AdditionalPersons(f)| => AdditionalPersons(f)[i].nic)
  }

  /** The first check of `register` that fails, or None when the form is
      accepted. Ids are compared with the registrant rows only. */
  function RegistrationError(ls: seq<Lawyer>, bs: seq<Booking>, f: RegistrationForm, now: int): (r: Option<RegError>)
    ensures r.None? ==> ValidTier(f.ticketType) && AccommodationUsage(f.ticketType) <= Available(bs, now)
  {
    if !ValidTier(f.ticketType) then Some(InvalidTicketType)
    else if !AllComplete(AdditionalPersons(f)) then Some(IncompleteDetails)
    else if f.baslId in BaslIds(ls) then Some(BaslTaken(f.baslId))
    else if f.nic in Nics(ls) then Some(NicTaken(f.nic))
    else if FirstTaken(BaslIdsToCheck(f), BaslIds(ls)).Some? then
      Some(BaslTaken(FirstTaken(BaslIdsToCheck(f), BaslIds(ls)).value))
    else if FirstTaken(NicsToCheck(f), Nics(ls)).Some? then
      Some(NicTaken(FirstTaken(NicsToCheck(f), Nics(ls)).value))
    else if f.email in Emails(ls) then Some(EmailTaken)
    else if AccommodationUsage(f.ticketType) > Available(bs, now) then
      Some(InsufficientCapacity(Available(bs, now)))
    else None
  }

  /** A registration is accepted exactly when the tier is valid, every required
      additional person is complete, no primary or additional BASL id or NIC
      and not the primary email is already registered, and the tier's cost
      fits the available units. */
  lemma RegistrationAcceptedIff(ls: seq<Lawyer>, bs: seq<Booking>, f: RegistrationForm, now: int)
    ensures RegistrationError(ls, bs, f, now).None? <==>
      && ValidTier(f.ticketType)
      && (forall p :: p in AdditionalPersons(f) ==> Complete(p))
      && f.baslId !in BaslIds(ls) && f.nic !in Nics(ls) && f.email !in Emails(ls)
      && (forall p :: p in AdditionalPersons(f) ==> p.baslId !in BaslIds(ls) && p.nic !in Nics(ls))
      && AccommodationUsage(f.ticketType) <= Available(bs, now)
  {
    var extra := AdditionalPersons(f);
    assert AllComplete(extra) <==> forall p :: p in extra ==> Complete(p);
    BaslChecksCover(f, BaslIds(ls));
    NicChecksCover(f, Nics(ls));
  }

  /** The BASL id loop finds nothing exactly when neither the primary's nor
      any additional person's BASL id is taken. */
  lemma BaslChecksCover(f: RegistrationForm, taken: set<string>)
    ensures FirstTaken(BaslIdsToCheck(f), taken).None? <==>
      f.baslId !in taken && forall p :: p in AdditionalPersons(f) ==> p.baslId !in taken
  {
    var extra, ids := AdditionalPersons(f), BaslIdsToCheck(f);
    assert ids[0] == f.baslId;
    forall i | 0 <= i < |extra| ensures ids[i + 1] == extra[i].baslId { }
    assert forall p :: p in extra ==> exists i :: 0 <= i < |extra| && extra[i] == p;
  }

  /** The NIC loop finds nothing exactly when neither the primary's nor any
      additional person's NIC is taken. */
  lemma NicChecksCover(f: RegistrationForm, taken: set<string>)
    ensures FirstTaken(NicsToCheck(f), taken).None? <==>
      f.nic !in taken && forall p :: p in AdditionalPersons(f) ==> p.nic !in taken
  {
    var extra, ids := AdditionalPersons(f), NicsToCheck(f);
    assert ids[0] == f.nic;
    forall i | 0 <= i < |extra| ensures ids[i + 1] == extra[i].nic { }
    assert forall p :: p in extra ==> exists i :: 0 <= i < |extra| && extra[i] == p;
  }

  /** The tier and completeness checks come first; every other reason given
      names an id, email or shortfall that is really there. */
  lemma RegistrationRejections(ls: seq<Lawyer>, bs: seq<Booking>, f: RegistrationForm, now: int)
    ensures !ValidTier(f.ticketType) ==> RegistrationError(ls, bs, f, now) == Some(InvalidTicketType)
    ensures f.ticketType == "Double" && !Complete(f.first) ==>
      RegistrationError(ls, bs, f, now) == Some(IncompleteDetails)
    ensures f.ticketType == "Triple" && !(Complete(f.first) && Complete(f.second)) ==>
      RegistrationError(ls, bs, f, now) == Some(IncompleteDetails)
    ensures var e := RegistrationError(ls, bs, f, now);
      && (e.Some? && e.value.BaslTaken? ==> e.value.baslId in BaslIds(ls) && e.value.baslId in BaslIdsToCheck(f))
      && (e.Some? && e.value.NicTaken? ==> e.value.nic in Nics(ls) && e.value.nic in NicsToCheck(f))
      && (e == Some(EmailTaken) ==> f.email in Emails(ls))
      && (e.Some? && e.value.InsufficientCapacity? ==>
            e.value.available == Available(bs, now) < AccommodationUsage(f.ticketType))
  {
    if f.ticketType == "Triple" && !(Complete(f.first) && Complete(f.second)) {
      var ps := AdditionalPersons(f);
      assert !Complete(ps[0]) || !Complete(ps[1]);
    }
  }

  /** The registrant row a successful registration adds. */
  function NewLawyer(id: nat, f: RegistrationForm, now: int): Lawyer
  {
    Lawyer(id, f.name, f.email, f.phone, f.baslId, f.nic, now)
  }

  /** The booking row a successful registration adds: a hold of five minutes. */
  function NewBooking(id: nat, lawyerId: nat, f: RegistrationForm, now: int): Booking
  {
    Booking(id, lawyerId, f.ticketType, AdditionalPersons(f), Pending, now, now + HoldSeconds, None)
  }

  /** An accepted registration creates a pending hold that lapses five minutes
      later, carries one complete additional person per unit beyond the first,
      and has no receipt. */
  lemma NewBookingShape(ls: seq<Lawyer>, bs: seq<Booking>, f: RegistrationForm, now: int, id: nat, lawyerId: nat)
    requires RegistrationError(ls, bs, f, now).None?
    ensures var b := NewBooking(id, lawyerId, f, now);
      && b.status == Pending && b.expiresAt == now + HoldSeconds && b.receipt.None?
      && |b.additional| == AccommodationUsage(b.ticketType) - 1
      && AllComplete(b.additional)
      && Holds(b, now)
  {
    SlotsMatchUsage(f.ticketType);
  }

  /** In the absence of concurrent requests a registration never over-books:
      the new hold takes exactly its cost from the available units and the
      held units stay within the total. */
  lemma AcceptedRegistrationFits(ls: seq<Lawyer>, bs: seq<Booking>, f: RegistrationForm, now: int, id: nat, lawyerId: nat)
    requires RegistrationError(ls, bs, f, now).None?
    ensures HeldUnits(bs + [NewBooking(id, lawyerId, f, now)], now) <= TotalAccommodations
    ensures Available(bs + [NewBooking(id, lawyerId, f, now)], now) == Available(bs, now) - AccommodationUsage(f.ticketType)
  {
    NewHoldConsumes(bs, NewBooking(id, lawyerId, f, now), now);
  }

  /** Only the primary registrant becomes a row: the additional persons' ids
      stay unregistered, so a later registration may name them again. */
  lemma RegistrationRecordsOnlyPrimary(ls: seq<Lawyer>, id: nat, f: RegistrationForm, now: int)
    ensures BaslIds(ls + [NewLawyer(id, f, now)]) == BaslIds(ls) + {f.baslId}
    ensures Nics(ls + [NewLawyer(id, f, now)]) == Nics(ls) + {f.nic}
    ensures Emails(ls + [NewLawyer(id, f, now)]) == Emails(ls) + {f.email}
  {
    var ls' := ls + [NewLawyer(id, f, now)];
    assert forall l :: l in ls' <==> l in ls || l == NewLawyer(id, f, now);
  }

  /** On empty tables every registration with a valid tier and complete
      additional persons is accepted. */
  lemma EmptyTablesAccept(f: RegistrationForm, now: int)
    requires ValidTier(f.ticketType) && AllComplete(AdditionalPersons(f))
    ensures RegistrationError([], [], f, now).None?
  {
    RegistrationAcceptedIff([], [], f, now);
    assert HeldUnits([], now) == 0;
  }

  /** Ids repeated inside one request are not compared with each other: on an
      empty table a Double booking whose second person reuses the primary's
      BASL id and NIC is accepted. */
  lemma RepeatedIdInOneRequestAccepted(f: RegistrationForm, now: int)
    requires f.ticketType == "Double" && Complete(f.first)
    requires f.first.baslId == f.baslId && f.first.nic == f.nic
    ensures RegistrationError([], [], f, now).None?
  {
    RegistrationAcceptedIff([], [], f, now);
    assert HeldUnits([], now) == 0;
  }

  // ---------------------------------------------------------------------
  // Expiry sweep

  /** A hold whose expiry has been reached and that is still pending. */
  predicate Stale(b: Booking, now: int)
  {
    b.status == Pending && b.expiresAt <= now
  }

  /** The table after one pass of `cancel_expired_bookings` at `now`. */
  function Swept(bs: seq<Booking>, now: int): (r: seq<Booking>)
    ensures |r| == |bs|
  {
    seq(|bs|, i requires 0 <= i < |bs| => if Stale(bs[i], now) then bs[i].(status := Cancelled) else bs[i])
  }

  /** The sweep changes a booking exactly when it is a stale hold, and then
      only its status, to cancelled. */
  lemma SweepChangesOnlyStale(bs: seq<Booking>, now: int, i: nat)
    requires i < |bs|
    ensures Swept(bs, now)[i] != bs[i] <==> Stale(bs[i], now)
    ensures Swept(bs, now)[i] == bs[i].(status := Swept(bs, now)[i].status)
    ensures Stale(bs[i], now) ==> Swept(bs, now)[i].status == Cancelled
  {
  }

  /** No stale hold survives a sweep. */
  lemma SweepLeavesNoStale(bs: seq<Booking>, now: int)
    ensures forall i :: 0 <= i < |bs| ==> !Stale(Swept(bs, now)[i], now)
  {
  }

  /** A second sweep at the same time changes nothing. */
  lemma SweepIdempotent(bs: seq<Booking>, now: int)
    ensures Swept(Swept(bs, now), now) == Swept(bs, now)
  {
  }

  /** The sweep cancels only bookings that no longer hold, so the available
      units at `now` are the same before and after it. */
  lemma {:induction false} SweepKeepsHeldUnits(bs: seq<Booking>, now: int)
    ensures HeldUnits(Swept(bs, now), now) == HeldUnits(bs, now)
    ensures Available(Swept(bs, now), now) == Available(bs, now)
  {
    if |bs| > 0 {
      assert Swept(bs, now)[1..] == Swept(bs[1..], now);
      SweepKeepsHeldUnits(bs[1..], now);
    }
  }

  // ---------------------------------------------------------------------
  // Receipt upload

  /** What a request to the upload page carries: a plain visit, or a submitted
      form with or without a file part (the file's client-side name). */
  datatype UploadRequest = ShowForm | Submit(file: Option<string>)

  /** Results the upload step takes from outside: the time stamp text, the
      sanitised file name, whether storing the file succeeded and whether the
      confirmation email went out. */
  datatype UploadEnv = UploadEnv(stamp: string, safeName: string, saved: bool, emailSent: bool)

  datatype UploadOutcome =
    | NotFound
    | Expired
    | FormShown(timeRemaining: nat)
    | NoFileSelected
    | InvalidFileType(timeRemaining: nat)
    | SaveFailed
    | ReceiptAccepted(emailSent: bool)

  /** Seconds left on a hold, clamped at zero. */
  function TimeRemaining(b: Booking, now: int): (secs: nat)
    ensures secs == 0 <==> b.expiresAt <= now
    ensures secs > 0 ==> secs == b.expiresAt - now
  {
    if b.expiresAt - now < 0 then 0 else b.expiresAt - now
  }

  /** `upload_receipt` on one booking: the new row and the outcome. */
  function UploadStep(b: Booking, now: int, req: UploadRequest, env: UploadEnv): (r: (Booking, UploadOutcome))
    ensures r.1 != NotFound
    ensures r.0.status != b.status ==> r.1 == Expired || r.1.ReceiptAccepted?
  {
    if b.expiresAt <= now && b.status == Pending then (b.(status := Cancelled), Expired)
    else
      match req
      case ShowForm => (b, FormShown(TimeRemaining(b, now)))
      case Submit(None) => (b, NoFileSelected)
      case Submit(Some(name)) =>
        if name == "" then (b, NoFileSelected)
        else if !AllowedFile(name) then (b, InvalidFileType(TimeRemaining(b, now)))
        else if !env.saved then (b, SaveFailed)
        else (b.(status := Confirmed, receipt := Some(ReceiptPath(b.id, env.stamp, env.safeName))),
              ReceiptAccepted(env.emailSent))
  }

  /** The upload step touches no field but the status and the receipt. */
  lemma UploadTouchesOnlyStatusAndReceipt(b: Booking, now: int, req: UploadRequest, env: UploadEnv)
    ensures var b' := UploadStep(b, now, req, env).0;
      b' == b.(status := b'.status, receipt := b'.receipt)
  {
  }

  /** A stale hold is cancelled by any visit to the upload page and is never
      confirmed by it, even before the sweep has run. */
  lemma ExpiredHoldNeverConfirmed(b: Booking, now: int, req: UploadRequest, env: UploadEnv)
    requires Stale(b, now)
    ensures UploadStep(b, now, req, env) == (b.(status := Cancelled), Expired)
  {
  }

  /** A booking is confirmed by an upload exactly when it is not a stale hold
      and a non-empty, allowed file name was submitted and stored; the receipt
      then lies in the booking's own folder. Any other outcome except expiry
      leaves the row as it was. */
  lemma UploadConfirmsIff(b: Booking, now: int, req: UploadRequest, env: UploadEnv)
    ensures var (b', out) := UploadStep(b, now, req, env);
      && (out.ReceiptAccepted? <==>
           !Stale(b, now) && req.Submit? && req.file.Some? && req.file.value != ""
           && AllowedFile(req.file.value) && env.saved)
      && (out.ReceiptAccepted? ==>
            && b'.status == Confirmed && b'.receipt.Some?
            && b'.receipt.value[..|ReceiptFolder(b.id)|] == ReceiptFolder(b.id))
      && (!out.ReceiptAccepted? && !out.Expired? ==> b' == b)
  {
  }

  /** A cancelled booking is not final: the expiry guard covers pending holds
      only, so a valid upload confirms a cancelled booking, whatever its expiry. */
  lemma UploadRevivesCancelled(b: Booking, now: int, name: string, env: UploadEnv)
    requires b.status == Cancelled && name != "" && AllowedFile(name) && env.saved
    ensures UploadStep(b, now, Submit(Some(name)), env).0.status == Confirmed
  {
  }

  // ---------------------------------------------------------------------
  // Status query

  datatype StatusReport = StatusReport(status: string, timeRemaining: nat, expired: bool)

  function Report(b: Booking, now: int): StatusReport
  {
    StatusReport(StatusName(b.status), TimeRemaining(b, now), b.expiresAt <= now)
  }

  /** `check_status`: the report for the booking with `id`, or None (not found). */
  function CheckStatus(bs: seq<Booking>, id: nat, now: int): (r: Option<StatusReport>)
    ensures r.None? <==> forall i :: 0 <= i < |bs| ==> bs[i].id != id
    ensures r.Some? ==> exists i :: 0 <= i < |bs| && bs[i].id == id && r.value == Report(bs[i], now)
    ensures r.Some? ==> (r.value.expired <==> r.value.timeRemaining == 0)
    ensures r.Some? ==> ParseStatus(r.value.status).Some?
  {
    match FindBooking(bs, id)
    case None => None
    case Some(k) => Some(Report(bs[k], now))
  }
}

/** The request handlers of app.py that change the two tables, as methods of
    one registry object. The clock is the parameter `now`. */
module App {
  import opened Records
  import opened Capacity
  import opened Lifecycle
  import opened Admin
  import opened Seqs

  class Registry {
    var lawyers: seq<Lawyer>
    var bookings: seq<Booking>
    /** The primary keys the database hands to the next new rows. */
    var nextLawyerId: nat
    var nextBookingId: nat

    ghost predicate Valid()
      reads this
    {
      && TablesConsistent(lawyers, bookings)
      && (forall l :: l in lawyers ==> l.id < nextLawyerId)
      && (forall b :: b in bookings ==> b.id < nextBookingId)
    }

    constructor ()
      ensures Valid()
      ensures lawyers == [] && bookings == []
      ensures nextLawyerId == 1 && nextBookingId == 1
    {
      lawyers, bookings := [], [];
      nextLawyerId, nextBookingId := 1, 1;
    }

    /** `register`: run the checks in order; on success add the registrant
        and a pending hold of five minutes. */
    method Register(f: RegistrationForm, now: int) returns (r: Result<nat, RegError>)
      requires Valid()
      modifies this
      ensures Valid()
      ensures RegistrationError(old(lawyers), old(bookings), f, now).Some? ==>
        && r == Err(RegistrationError(old(lawyers), old(bookings), f, now).value)
        && lawyers == old(lawyers) && bookings == old(bookings)
        && nextLawyerId == old(nextLawyerId) && nextBookingId == old(nextBookingId)
      ensures RegistrationError(old(lawyers), old(bookings), f, now).None? ==>
        && r == Ok(old(nextBookingId))
        && lawyers == old(lawyers) + [NewLawyer(old(nextLawyerId), f, now)]
        && bookings == old(bookings) + [NewBooking(old(nextBookingId), old(nextLawyerId), f, now)]
    {
      var err := RegistrationError(lawyers, bookings, f, now);
      if err.Some? {
        r := Err(err.value);
        return;
      }
      var lawyer := NewLawyer(nextLawyerId, f, now);
      var booking := NewBooking(nextBookingId, lawyer.id, f, now);
      AcceptedKeepsConsistency(lawyers, bookings, f, now, nextLawyerId, nextBookingId);
      lawyers := lawyers + [lawyer];
      nextLawyerId := nextLawyerId + 1;
      bookings := bookings + [booking];
      nextBookingId := nextBookingId + 1;
      r := Ok(booking.id);
    }

    /** `upload_receipt` for booking `id`. */
    method UploadReceipt(id: nat, now: int, req: UploadRequest, env: UploadEnv) returns (out: UploadOutcome)
      requires Valid()
      modifies this
      ensures Valid()
      ensures lawyers == old(lawyers)
      ensures nextLawyerId == old(nextLawyerId) && nextBookingId == old(nextBookingId)
      ensures FindBooking(old(bookings), id).None? ==> out == NotFound && bookings == old(bookings)
      ensures FindBooking(old(bookings), id).Some? ==>
        var k := FindBooking(old(bookings), id).value;
        && bookings == old(bookings)[k := UploadStep(old(bookings)[k], now, req, env).0]
        && out == UploadStep(old(bookings)[k], now, req, env).1
    {
      var found := FindBooking(bookings, id);
      if found.None? {
        out := NotFound;
        return;
      }
      var k := found.value;
      var b := bookings[k];
      if b.expiresAt <= now && b.status == Pending {
        ReplaceRowKeepsConsistency(lawyers, bookings, k, b.(status := Cancelled));
        bookings := bookings[k := b.(status := Cancelled)];
        out := Expired;
        return;
      }
      match req
      case ShowForm =>
        out := FormShown(TimeRemaining(b, now));
      case Submit(file) =>
        if file.None? || file.value == "" {
          out := NoFileSelected;
        } else if !Files.AllowedFile(file.value) {
          out := InvalidFileType(TimeRemaining(b, now));
        } else if !env.saved {
          out := SaveFailed;
        } else {
          var b' := b.(receipt := Some(Files.ReceiptPath(id, env.stamp, env.safeName)), status := Confirmed);
          ReplaceRowKeepsConsistency(lawyers, bookings, k, b');
          bookings := bookings[k := b'];
          out := ReceiptAccepted(env.emailSent);
        }
    }

    /** `cancel_expired_bookings`: one pass over the table that cancels every
        pending booking whose expiry has been reached. */
    method CancelExpiredBookings(now: int)
      requires Valid()
      modifies this
      ensures Valid()
      ensures bookings == Swept(old(bookings), now)
      ensures lawyers == old(lawyers)
      ensures nextLawyerId == old(nextLawyerId) && nextBookingId == old(nextBookingId)
    {
      var i := 0;
      while i < |bookings|
        invariant 0 <= i <= |bookings| == |old(bookings)|
        invariant forall j :: 0 <= j < i ==> bookings[j] == Swept(old(bookings), now)[j]
        invariant forall j :: i <= j < |bookings| ==> bookings[j] == old(bookings)[j]
        invariant lawyers == old(lawyers)
        invariant nextLawyerId == old(nextLawyerId) && nextBookingId == old(nextBookingId)
      {
        if bookings[i].status == Pending && bookings[i].expiresAt <= now {
          bookings := bookings[i := bookings[i].(status := Cancelled)];
        }
        i := i + 1;
      }
      RowUpdateKeepsConsistency(lawyers, old(bookings), bookings);
    }

    /** `admin_edit_booking` for booking `id`. */
    method AdminEditBooking(id: nat, f: EditForm) returns (found: bool)
      requires Valid()
      modifies this
      ensures Valid()
      ensures lawyers == old(lawyers)
      ensures nextLawyerId == old(nextLawyerId) && nextBookingId == old(nextBookingId)
      ensures found == FindBooking(old(bookings), id).Some?
      ensures !found ==> bookings == old(bookings)
      ensures found ==>
        var k := FindBooking(old(bookings), id).value;
        bookings == old(bookings)[k := EditedBooking(old(bookings)[k], f)]
    {
      var k := FindBooking(bookings, id);
      found := k.Some?;
      if found {
        var edited := EditedBooking(bookings[k.value], f);
        ReplaceRowKeepsConsistency(lawyers, bookings, k.value, edited);
        bookings := bookings[k.value := edited];
      }
    }

    /** `admin_delete_booking` for booking `id`: delete the row, then the
        owner's row when no booking of theirs is left. */
    method AdminDeleteBooking(id: nat) returns (found: bool)
      requires Valid()
      modifies this
      ensures Valid()
      ensures nextLawyerId == old(nextLawyerId) && nextBookingId == old(nextBookingId)
      ensures found == FindBooking(old(bookings), id).Some?
      ensures !found ==> bookings == old(bookings) && lawyers == old(lawyers)
      ensures found ==>
        var owner := old(bookings)[FindBooking(old(bookings), id).value].lawyerId;
        (lawyers, bookings) == AfterDelete(old(lawyers), old(bookings), id, owner)
    {
      var k := FindBooking(bookings, id);
      found := k.Some?;
      if found {
        var owner := bookings[k.value].lawyerId;
        DeleteKeepsConsistency(lawyers, bookings, id, owner);
        bookings := RemoveBooking(bookings, id);
        if !HasBooking(bookings, owner) {
          lawyers := RemoveLawyer(lawyers, owner);
        }
      }
    }
  }

  /** Adding the rows of an accepted registration under fresh keys keeps the
      tables consistent. */
  lemma AcceptedKeepsConsistency(ls: seq<Lawyer>, bs: seq<Booking>, f: RegistrationForm, now: int, lid: nat, bid: nat)
    requires TablesConsistent(ls, bs) && RegistrationError(ls, bs, f, now).None?
    requires forall l :: l in ls ==> l.id < lid
    requires forall b :: b in bs ==> b.id < bid
    ensures TablesConsistent(ls + [NewLawyer(lid, f, now)], bs + [NewBooking(bid, lid, f, now)])
  {
    RegistrationAcceptedIff(ls, bs, f, now);
    var lawyer := NewLawyer(lid, f, now);
    forall l | l in ls ensures DistinctLawyers(l, lawyer) {
      assert l.baslId in BaslIds(ls) && l.nic in Nics(ls) && l.email in Emails(ls);
    }
    AppendPairwise(ls, lawyer, DistinctLawyers);
    AppendPairwise(bs, NewBooking(bid, lid, f, now), DistinctBookings);
    assert HasLawyer(ls + [lawyer], lid) by { assert lawyer in ls + [lawyer]; }
  }

  /** A client of the registry: a Single hold is confirmed by a receipt
      uploaded within its window. */
  method SingleHoldConfirmed()
  {
    var reg := new Registry();
    var nobody := Person("", "", "", "");
    var ann := RegistrationForm("Ann", "ann@example.org", "0771", "B-1", "N-1", "Single", nobody, nobody);
    EmptyTablesAccept(ann, 0);
    var r := reg.Register(ann, 0);
    assert r.Ok?;
    var held := reg.bookings[0];
    assert held.status == Pending && held.expiresAt == 300;
    assert FindBooking(reg.bookings, r.value) == Some(0);
    var req, env := Submit(Some("pay.JPG")), UploadEnv("0", "pay.JPG", true, true);
    Files.ExtensionCaseIgnored();
    UploadConfirmsIff(held, 60, req, env);
    var out := reg.UploadReceipt(r.value, 60, req, env);
    assert out == ReceiptAccepted(true);
    assert reg.bookings[0].status == Confirmed;
  }

  /** A client of the registry: a second registration with a BASL id already
      on file is turned away and changes nothing. */
  method DuplicateBaslRejected()
  {
    var reg := new Registry();
    var nobody := Person("", "", "", "");
    var ann := RegistrationForm("Ann", "ann@example.org", "0771", "B-1", "N-1", "Single", nobody, nobody);
    EmptyTablesAccept(ann, 0);
    var r := reg.Register(ann, 0);
    assert r.Ok?;
    var bob := RegistrationForm("Bob", "bob@example.org", "0772", "B-1", "N-2", "Single", nobody, nobody);
    assert "B-1" in BaslIds(reg.lawyers);
    var lawyers, bookings := reg.lawyers, reg.bookings;
    r := reg.Register(bob, 70);
    assert r == Err(BaslTaken("B-1"));
    assert reg.lawyers == lawyers && reg.bookings == bookings;
  }

  /** A client of the registry: a Triple hold that is never paid lapses, the
      sweep cancels it and its three units are free again. */
  method TripleHoldLapses()
  {
    var reg := new Registry();
    var p1 := Person("Cy", "B-3", "N-3", "0773");
    var p2 := Person("Di", "B-4", "N-4", "0774");
    var eve := RegistrationForm("Eve", "eve@example.org", "0775", "B-5", "N-5", "Triple", p1, p2);
    EmptyTablesAccept(eve, 100);
    var r := reg.Register(eve, 100);
    assert r.Ok?;
    var held := reg.bookings;
    assert held == [] + [held[0]];
    HoldLapses([], held[0], 100, 400);
    reg.CancelExpiredBookings(400);
    SweepKeepsHeldUnits(held, 400);
    assert reg.bookings[0].status == Cancelled;
    assert HeldUnits(held, 100) == 3;
    assert HeldUnits(reg.bookings, 400) == 0;
  }
}

/** The admin surface: the statistics of the admin panel, the booking edit,
    the delete with its cascade to the registrant, and the consistency of the
    two tables that these operations keep. */
module Admin {
  import opened Records
  import opened Capacity
  import opened Seqs

  // ---------------------------------------------------------------------
  // Statistics

  /** Number of bookings with the given status. */
  function CountStatus(bs: seq<Booking>, st: Status): (n: nat)
    ensures n <= |bs|
  {
    if |bs| == 0 then 0
    else (if bs[0].status == st then 1 else 0) + CountStatus(bs[1..], st)
  }

  /** The count is the length of the list of bookings with that status, as
      the panel's comprehensions compute it. */
  lemma {:induction false} CountStatusIsFilterLength(bs: seq<Booking>, st: Status)
    ensures CountStatus(bs, st) == |Filter(bs, (b: Booking) => b.status == st)|
  {
    if |bs| > 0 {
      CountStatusIsFilterLength(bs[1..], st);
    }
  }

  /** Every booking has exactly one of the three statuses. */
  lemma {:induction false} StatusPartition(bs: seq<Booking>)
    ensures CountStatus(bs, Confirmed) + CountStatus(bs, Pending) + CountStatus(bs, Cancelled) == |bs|
  {
    if |bs| > 0 {
      StatusPartition(bs[1..]);
    }
  }

  /** Confirmed bookings are among the holding ones. */
  lemma {:induction false} ConfirmedWithinHeld(bs: seq<Booking>, now: int)
    ensures ConfirmedUnits(bs) <= HeldUnits(bs, now)
  {
    if |bs| > 0 {
      ConfirmedWithinHeld(bs[1..], now);
    }
  }

  datatype Stats = Stats(
    total: nat,
    confirmed: nat,
    pending: nat,
    cancelled: nat,
    accommodationsUsed: nat,
    available: nat,
    totalAccommodations: nat)

  /** The figures of the admin panel. */
  function Statistics(bs: seq<Booking>, now: int): (s: Stats)
    ensures s.total == |bs|
    ensures s.confirmed == CountStatus(bs, Confirmed)
    ensures s.pending == CountStatus(bs, Pending)
    ensures s.cancelled == CountStatus(bs, Cancelled)
    ensures s.confirmed + s.pending + s.cancelled == s.total
    ensures s.accommodationsUsed == ConfirmedUnits(bs)
    ensures (s.available, s.totalAccommodations) == AvailableAccommodations(bs, now)
    ensures s.accommodationsUsed <= HeldUnits(bs, now)
    ensures s.available <= s.totalAccommodations == TotalAccommodations
    ensures s.available > 0 ==> s.accommodationsUsed + s.available <= s.totalAccommodations
  {
    StatusPartition(bs);
    ConfirmedWithinHeld(bs, now);
    var (available, total) := AvailableAccommodations(bs, now);
    Stats(|bs|, CountStatus(bs, Confirmed), CountStatus(bs, Pending), CountStatus(bs, Cancelled),
          ConfirmedUnits(bs), available, total)
  }

  // ---------------------------------------------------------------------
  // Edit

  /** The fields of the admin edit form. The status and ticket type are
      compared as sent, without stripping; the additional-person fields are
      stripped. A missing field reads as "". */
  datatype EditForm = EditForm(status: string, ticketType: string, first: Person, second: Person)

  /** The additional persons an edit stores: the slots the form's ticket type
      reads when all their details are present, and none otherwise. */
  function EditedPersons(f: EditForm): (ps: seq<Person>)
    ensures AllComplete(ps) && |ps| <= AdditionalSlots(f.ticketType)
  {
    var ps := SuppliedPersons(f.ticketType, f.first, f.second);
    if AllComplete(ps) then ps else []
  }

  /** `admin_edit_booking` on one row. The status and the ticket type are
      replaced only by valid values; the additional persons are always
      replaced. */
  function EditedBooking(b: Booking, f: EditForm): (r: Booking)
    ensures r == b.(status := r.status, ticketType := r.ticketType, additional := r.additional)
    ensures r.status != b.status ==> ParseStatus(f.status) == Some(r.status)
    ensures ParseStatus(f.status).Some? ==> StatusName(r.status) == f.status
    ensures r.ticketType != b.ticketType ==> ValidTier(f.ticketType) && r.ticketType == f.ticketType
    ensures ValidTier(f.ticketType) ==> r.ticketType == f.ticketType
    ensures ValidTier(b.ticketType) ==> ValidTier(r.ticketType)
    ensures |r.additional| <= AdditionalSlots(r.ticketType)
    ensures AllComplete(r.additional)
    ensures AllComplete(SuppliedPersons(f.ticketType, f.first, f.second)) ==>
      r.additional == SuppliedPersons(f.ticketType, f.first, f.second)
    ensures !AllComplete(SuppliedPersons(f.ticketType, f.first, f.second)) ==> r.additional == []
  {
    var status := match ParseStatus(f.status) case Some(s) => s case None => b.status;
    var tier := if ValidTier(f.ticketType) then f.ticketType else b.ticketType;
    b.(status := status, ticketType := tier, additional := EditedPersons(f))
  }

  /** Unlike registration, an edit may leave a booking with fewer additional
      persons than its tier needs: an incomplete second person on a Double
      booking is dropped and the booking stays Double. */
  lemma EditCanBreakCardinality(b: Booking, f: EditForm)
    requires b.ticketType == "Double" && |b.additional| == 1
    requires f.ticketType == "Double" && f.first.phone == ""
    ensures EditedBooking(b, f).ticketType == "Double"
    ensures |EditedBooking(b, f).additional| == 0 < AdditionalSlots("Double")
  {
    assert !AllComplete(SuppliedPersons(f.ticketType, f.first, f.second)) by {
      assert !Complete(SuppliedPersons(f.ticketType, f.first, f.second)[0]);
    }
  }

  // ---------------------------------------------------------------------
  // Delete

  function RemoveBooking(bs: seq<Booking>, id: nat): seq<Booking>
  {
    Filter(bs, (b: Booking) => b.id != id)
  }

  function RemoveLawyer(ls: seq<Lawyer>, id: nat): seq<Lawyer>
  {
    Filter(ls, (l: Lawyer) => l.id != id)
  }

  /** Some booking belongs to the registrant. */
  predicate HasBooking(bs: seq<Booking>, lawyerId: nat)
  {
    exists b :: b in bs && b.lawyerId == lawyerId
  }

  /** The tables after deleting booking `id`, owned by `owner`: the booking
      goes, and so does its registrant when no other booking is theirs. */
  function AfterDelete(ls: seq<Lawyer>, bs: seq<Booking>, id: nat, owner: nat): (r: (seq<Lawyer>, seq<Booking>))
    ensures |r.0| <= |ls| && |r.1| <= |bs|
  {
    var bs' := RemoveBooking(bs, id);
    (if HasBooking(bs', owner) then ls else RemoveLawyer(ls, owner), bs')
  }

  /** Delete removes exactly the booking with the id, and removes its owner
      exactly when no other booking references them. */
  lemma DeleteCascade(ls: seq<Lawyer>, bs: seq<Booking>, id: nat, owner: nat)
    ensures var (ls', bs') := AfterDelete(ls, bs, id, owner);
      && (forall b :: b in bs' <==> b in bs && b.id != id)
      && ((exists l :: l in ls' && l.id == owner) <==>
            (exists l :: l in ls && l.id == owner) && exists b :: b in bs && b.id != id && b.lawyerId == owner)
      && (forall l :: l in ls && l.id != owner ==> l in ls')
      && (forall l :: l in ls' ==> l in ls)
  {
    var (ls', bs') := AfterDelete(ls, bs, id, owner);
    if exists b :: b in bs && b.id != id && b.lawyerId == owner {
      var b :| b in bs && b.id != id && b.lawyerId == owner;
      assert b in bs';
    }
  }

  // ---------------------------------------------------------------------
  // Consistency of the two tables

  /** The unique columns of the registrant table: id, email, BASL id and NIC. */
  predicate DistinctLawyers(a: Lawyer, b: Lawyer)
  {
    a.id != b.id && a.email != b.email && a.baslId != b.baslId && a.nic != b.nic
  }

  predicate DistinctBookings(a: Booking, b: Booking)
  {
    a.id != b.id
  }

  predicate HasLawyer(ls: seq<Lawyer>, id: nat)
  {
    exists l :: l in ls && l.id == id
  }

  /** Unique keys in both tables, every booking owned by an existing
      registrant, and every stored ticket type one of the three tiers. */
  ghost predicate TablesConsistent(ls: seq<Lawyer>, bs: seq<Booking>)
  {
    && Pairwise(ls, DistinctLawyers)
    && Pairwise(bs, DistinctBookings)
    && (forall b :: b in bs ==> HasLawyer(ls, b.lawyerId))
    && (forall b :: b in bs ==> ValidTier(b.ticketType))
  }

  /** Rewriting rows in place keeps the tables consistent as long as keys,
      owners and the validity of the ticket type are kept. */
  lemma RowUpdateKeepsConsistency(ls: seq<Lawyer>, bs: seq<Booking>, bs': seq<Booking>)
    requires TablesConsistent(ls, bs)
    requires |bs'| == |bs|
    requires forall i :: 0 <= i < |bs| ==> bs'[i].id == bs[i].id && bs'[i].lawyerId == bs[i].lawyerId
    requires forall i :: 0 <= i < |bs| ==> ValidTier(bs'[i].ticketType) || !ValidTier(bs[i].ticketType)
    ensures TablesConsistent(ls, bs')
    ensures forall b' :: b' in bs' ==> exists b :: b in bs && b.id == b'.id
  {
    forall b' | b' in bs'
      ensures HasLawyer(ls, b'.lawyerId) && ValidTier(b'.ticketType)
      ensures exists b :: b in bs && b.id == b'.id
    {
      var i :| 0 <= i < |bs'| && bs'[i] == b';
      assert bs[i] in bs;
    }
  }

  /** Replacing one row with a row of the same key and owner keeps the
      tables consistent. */
  lemma ReplaceRowKeepsConsistency(ls: seq<Lawyer>, bs: seq<Booking>, k: nat, b': Booking)
    requires TablesConsistent(ls, bs)
    requires k < |bs| && b'.id == bs[k].id && b'.lawyerId == bs[k].lawyerId
    requires ValidTier(bs[k].ticketType) ==> ValidTier(b'.ticketType)
    ensures TablesConsistent(ls, bs[k := b'])
    ensures forall x :: x in bs[k := b'] ==> exists b :: b in bs && b.id == x.id
  {
    RowUpdateKeepsConsistency(ls, bs, bs[k := b']);
  }

  /** The cascade never leaves a booking without its registrant. */
  lemma DeleteKeepsConsistency(ls: seq<Lawyer>, bs: seq<Booking>, id: nat, owner: nat)
    requires TablesConsistent(ls, bs)
    ensures TablesConsistent(AfterDelete(ls, bs, id, owner).0, AfterDelete(ls, bs, id, owner).1)
  {
    var (ls', bs') := AfterDelete(ls, bs, id, owner);
    FilterPairwise(bs, (b: Booking) => b.id != id, DistinctBookings);
    if !HasBooking(bs', owner) {
      FilterPairwise(ls, (l: Lawyer) => l.id != owner, DistinctLawyers);
      forall b | b in bs' ensures HasLawyer(ls', b.lawyerId) {
        var l :| l in ls && l.id == b.lawyerId;
        assert l in ls';
      }
    }
  }
}

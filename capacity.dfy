/** Accommodation capacity: 100 units minus the units of confirmed bookings
    and of pending bookings whose hold has not lapsed, floored at zero. */
module Capacity {
  import opened Records
  import opened Seqs

  /** Units of the confirmed bookings (the first query of the calculation). */
  function ConfirmedUnits(bs: seq<Booking>): nat
  {
    if |bs| == 0 then 0
    else
      var own := if bs[0].status == Confirmed then AccommodationUsage(bs[0].ticketType) else 0;
      own + ConfirmedUnits(bs[1..])
  }

  /** Units of the pending bookings with `expiresAt > now` (the second query). */
  function LivePendingUnits(bs: seq<Booking>, now: int): nat
  {
    if |bs| == 0 then 0
    else
      var own := if bs[0].status == Pending && bs[0].expiresAt > now then AccommodationUsage(bs[0].ticketType) else 0;
      own + LivePendingUnits(bs[1..], now)
  }

  /** Units of every booking in a list, whatever its status: the `sum` over a
      query result. */
  function UnitsOf(bs: seq<Booking>): nat
  {
    if |bs| == 0 then 0 else AccommodationUsage(bs[0].ticketType) + UnitsOf(bs[1..])
  }

  /** The first query filters the confirmed bookings and sums their units. */
  lemma {:induction false} ConfirmedQuery(bs: seq<Booking>)
    ensures ConfirmedUnits(bs) == UnitsOf(Filter(bs, (b: Booking) => b.status == Confirmed))
  {
    if |bs| > 0 {
      ConfirmedQuery(bs[1..]);
      if bs[0].status == Confirmed {
        var rest := Filter(bs[1..], (b: Booking) => b.status == Confirmed);
        assert ([bs[0]] + rest)[1..] == rest;
      }
    }
  }

  /** The second query filters the pending bookings with `expiresAt > now`
      and sums their units. */
  lemma {:induction false} LivePendingQuery(bs: seq<Booking>, now: int)
    ensures LivePendingUnits(bs, now) == UnitsOf(Filter(bs, (b: Booking) => b.status == Pending && b.expiresAt > now))
  {
    if |bs| > 0 {
      LivePendingQuery(bs[1..], now);
      if bs[0].status == Pending && bs[0].expiresAt > now {
        var rest := Filter(bs[1..], (b: Booking) => b.status == Pending && b.expiresAt > now);
        assert ([bs[0]] + rest)[1..] == rest;
      }
    }
  }

  /** A booking occupies accommodation at `now` when it is confirmed or is a
      hold that has not yet lapsed. */
  predicate Holds(b: Booking, now: int)
  {
    b.status == Confirmed || (b.status == Pending && b.expiresAt > now)
  }

  /** Reference definition: the units of every booking that holds at `now`. */
  function HeldUnits(bs: seq<Booking>, now: int): nat
  {
    if |bs| == 0 then 0
    else
      var own := if Holds(bs[0], now) then AccommodationUsage(bs[0].ticketType) else 0;
      own + HeldUnits(bs[1..], now)
  }

  /** The two queries together count each holding booking exactly once. */
  lemma {:induction false} HeldSplit(bs: seq<Booking>, now: int)
    ensures ConfirmedUnits(bs) + LivePendingUnits(bs, now) == HeldUnits(bs, now)
  {
    if |bs| > 0 {
      HeldSplit(bs[1..], now);
    }
  }

  /** `get_available_accommodations`: the available units and the fixed total. */
  function AvailableAccommodations(bs: seq<Booking>, now: int): (r: (nat, nat))
    ensures r.1 == TotalAccommodations
    ensures r.0 <= r.1
    ensures r.0 == 0 <==> HeldUnits(bs, now) >= TotalAccommodations
    ensures r.0 > 0 ==> r.0 + HeldUnits(bs, now) == TotalAccommodations
  {
    HeldSplit(bs, now);
    var used := ConfirmedUnits(bs) + LivePendingUnits(bs, now);
    var available := TotalAccommodations as int - used;
    (if available < 0 then 0 else available, TotalAccommodations)
  }

  function Available(bs: seq<Booking>, now: int): nat
  {
    AvailableAccommodations(bs, now).0
  }

  /** Held units of two tables side by side add up. */
  lemma {:induction false} HeldAppend(a: seq<Booking>, b: seq<Booking>, now: int)
    ensures HeldUnits(a + b, now) == HeldUnits(a, now) + HeldUnits(b, now)
  {
    if |a| == 0 {
      assert a + b == b;
    } else {
      assert (a + b)[1..] == a[1..] + b;
      HeldAppend(a[1..], b, now);
    }
  }

  /** Cancelled bookings and lapsed holds contribute nothing, wherever they
      stand in the table. */
  lemma NonHoldingIgnored(before: seq<Booking>, b: Booking, after: seq<Booking>, now: int)
    requires !Holds(b, now)
    ensures Available(before + [b] + after, now) == Available(before + after, now)
  {
    HeldAppend(before + [b], after, now);
    HeldAppend(before, [b], now);
    HeldAppend(before, after, now);
    assert HeldUnits([b], now) == 0 by { assert [b][1..] == []; }
  }

  /** A new hold whose cost fits consumes exactly its cost, and the held units
      stay within the total. */
  lemma NewHoldConsumes(bs: seq<Booking>, b: Booking, now: int)
    requires b.status == Pending && b.expiresAt > now && ValidTier(b.ticketType)
    requires AccommodationUsage(b.ticketType) <= Available(bs, now)
    ensures HeldUnits(bs + [b], now) <= TotalAccommodations
    ensures Available(bs + [b], now) == Available(bs, now) - AccommodationUsage(b.ticketType)
  {
    HeldAppend(bs, [b], now);
    assert HeldUnits([b], now) == AccommodationUsage(b.ticketType) by { assert [b][1..] == []; }
  }

  /** A hold counts while its expiry is ahead and stops counting once it is
      reached, so waiting past the expiry releases exactly its cost. */
  lemma HoldLapses(bs: seq<Booking>, b: Booking, now: int, later: int)
    requires b.status == Pending && now < b.expiresAt <= later
    ensures HeldUnits(bs + [b], now) == HeldUnits(bs, now) + AccommodationUsage(b.ticketType)
    ensures HeldUnits(bs + [b], later) == HeldUnits(bs, later)
  {
    HeldAppend(bs, [b], now);
    HeldAppend(bs, [b], later);
    assert [b][1..] == [];
  }
}

/** The two tables of app.py (Lawyer, Booking), the ticket tiers and their
    accommodation cost, and the decimal rendering of record ids. */
module Records {

  datatype Option<T> = None | Some(value: T)

  datatype Result<T, E> = Ok(value: T) | Err(error: E)

  /** Total shared accommodation units of the conference. */
  const TotalAccommodations: nat := 100

  /** Length of a reservation hold, in seconds (five minutes). */
  const HoldSeconds: nat := 300

  /** The `status` column of a booking. */
  datatype Status = Pending | Confirmed | Cancelled

  /** The text stored in the `status` column and reported to clients. */
  function StatusName(s: Status): string
  {
    match s
    case Pending => "pending"
    case Confirmed => "confirmed"
    case Cancelled => "cancelled"
  }

  /** Recognises a status name sent by the admin edit form. */
  function ParseStatus(name: string): (r: Option<Status>)
    ensures r.Some? ==> StatusName(r.value) == name
    ensures r.None? ==> forall s: Status :: StatusName(s) != name
  {
    if name == "pending" then Some(Pending)
    else if name == "confirmed" then Some(Confirmed)
    else if name == "cancelled" then Some(Cancelled)
    else None
  }

  /** The ticket types the registration and edit forms accept. */
  predicate ValidTier(t: string)
  {
    t in ["Single", "Double", "Triple"]
  }

  /** Accommodation units a ticket type consumes; any other text costs nothing. */
  function AccommodationUsage(t: string): (units: nat)
    ensures units <= 3
    ensures ValidTier(t) <==> units > 0
  {
    if t == "Single" then 1
    else if t == "Double" then 2
    else if t == "Triple" then 3
    else 0
  }

  /** Number of additional-person slots the forms read for a ticket type. */
  function AdditionalSlots(t: string): nat
  {
    if t == "Double" then 1
    else if t == "Triple" then 2
    else 0
  }

  /** Every valid tier brings exactly one person per unit it costs. */
  lemma SlotsMatchUsage(t: string)
    requires ValidTier(t)
    ensures AdditionalSlots(t) == AccommodationUsage(t) - 1
  {
  }

  /** One additional person's details as entered on a form. */
  datatype Person = Person(name: string, baslId: string, nic: string, phone: string)

  /** All four details are present. */
  predicate Complete(p: Person)
  {
    p.name != "" && p.baslId != "" && p.nic != "" && p.phone != ""
  }

  /** Every person in the list has all four details. */
  predicate AllComplete(ps: seq<Person>)
  {
    forall i :: 0 <= i < |ps| ==> Complete(ps[i])
  }

  /** The additional persons a form supplies for a ticket type: slot 1 for
      Double, slots 1 and 2 for Triple, none otherwise. */
  function SuppliedPersons(t: string, first: Person, second: Person): (ps: seq<Person>)
    ensures |ps| == AdditionalSlots(t)
    ensures |ps| >= 1 ==> ps[0] == first
    ensures |ps| == 2 ==> ps[1] == second
  {
    if t == "Double" then [first]
    else if t == "Triple" then [first, second]
    else []
  }

  /** A registrant row; `id` is the table's primary key. */
  datatype Lawyer = Lawyer(
    id: nat,
    name: string,
    email: string,
    phone: string,
    baslId: string,
    nic: string,
    createdAt: int)

  /** A booking row. Times are seconds; the additional persons are kept as a
      typed list rather than a JSON text column. */
  datatype Booking = Booking(
    id: nat,
    lawyerId: nat,
    ticketType: string,
    additional: seq<Person>,
    status: Status,
    createdAt: int,
    expiresAt: int,
    receipt: Option<string>)

  function DigitChar(d: nat): (c: char)
    requires d < 10
    ensures '0' <= c <= '9' && c as int - '0' as int == d
  {
    ('0' as int + d) as char
  }

  predicate AllDigits(s: string)
  {
    forall i :: 0 <= i < |s| ==> '0' <= s[i] <= '9'
  }

  /** Decimal text of a number, as Python's f-string renders an int. */
  function Decimal(n: nat): (s: string)
    ensures |s| >= 1 && AllDigits(s)
  {
    if n < 10 then [DigitChar(n)] else Decimal(n / 10) + [DigitChar(n % 10)]
  }

  /** The value of a string of decimal digits. */
  function ParseDecimal(s: string): nat
    requires AllDigits(s)
  {
    if |s| == 0 then 0
    else ParseDecimal(s[..|s| - 1]) * 10 + (s[|s| - 1] as int - '0' as int)
  }

  /** Reading back the decimal text gives the number again. */
  lemma {:induction false} DecimalRoundTrip(n: nat)
    ensures ParseDecimal(Decimal(n)) == n
  {
    var s := Decimal(n);
    if n < 10 {
      assert s[..|s| - 1] == [];
    } else {
      assert s[..|s| - 1] == Decimal(n / 10);
      DecimalRoundTrip(n / 10);
    }
  }

  /** Different ids have different decimal texts. */
  lemma DecimalInjective(a: nat, b: nat)
    requires Decimal(a) == Decimal(b)
    ensures a == b
  {
    DecimalRoundTrip(a);
    DecimalRoundTrip(b);
  }

  /** The row of the booking with primary key `id`, if there is one. */
  function FindBooking(bs: seq<Booking>, id: nat): (k: Option<nat>)
    ensures k.Some? ==> k.value < |bs| && bs[k.value].id == id
    ensures k.None? ==> forall i :: 0 <= i < |bs| ==> bs[i].id != id
  {
    if |bs| == 0 then None
    else if bs[|bs| - 1].id == id then Some(|bs| - 1)
    else FindBooking(bs[..|bs| - 1], id)
  }
}

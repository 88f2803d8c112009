# Accommodation capacity and reservation holds of the conference booking app

This project models, in Dafny, the core of `app.py` of the Junior National Law
Conference booking application. Attendees (lawyers) register for a Single,
Double or Triple ticket. The ticket takes 1, 2 or 3 units of a shared pool of
100 accommodation units. Registration creates a `pending` booking that holds
its units for five minutes. Uploading a payment receipt within that window
confirms the booking. A sweep cancels holds whose expiry has been reached. An
administrator can see statistics, edit a booking and delete one; a delete
also removes the registrant when no other booking is theirs.

The model has seven modules, one per component:

- `Records` (records.dfy): the `Lawyer` and `Booking` rows, the status and
  ticket-type columns, the tier cost table, the additional-person slots, the
  lookup of a booking by primary key, and decimal rendering of ids.
- `Files` (files.dfy): `allowed_file` and the per-booking receipt path.
- `Capacity` (capacity.dfy): `get_available_accommodations`, together with a
  one-pass reference sum that its two queries are proved to match.
- `Lifecycle` (lifecycle.dfy): the checks of `register` and the rows it
  creates, the expiry sweep, the effect of `upload_receipt` on one booking,
  and `check_status`.
- `Admin` (admin.dfy): the admin statistics, the edit of one booking, the
  delete cascade, and the consistency of the two tables.
- `App` (app.dfy): class `Registry`. Its fields are the two tables and the
  next primary keys. Its methods are the handlers that change the tables:
  `Register`, `UploadReceipt`, `CancelExpiredBookings` (a loop that updates
  rows in place), `AdminEditBooking` and `AdminDeleteBooking`. Each keeps
  `Valid()`: unique keys, unique email/BASL id/NIC among registrants, every
  booking owned by an existing registrant, every stored ticket type valid.
  Three client methods run the end-to-end flows through these contracts.
- `Seqs` (seqs.dfy): an order-preserving filter and its lemmas.

Time is an integer number of seconds passed as `now`. The additional persons
are a typed list instead of a JSON text column.

Some behaviour of `app.py` worth noting:

- `cancelled` is not a final status. The expiry guard of the upload handler
  applies to pending bookings only (app.py:352). So a valid upload confirms a
  cancelled booking (app.py:386), without re-checking capacity. The admin edit
  can also set any status.
- The admin edit always replaces the additional persons (app.py:509-551).
  When the form's ticket type is not Double or Triple, or the details are
  incomplete, the list becomes empty, so a Double or Triple booking can end
  up with fewer additional persons than its tier needs
  (`Admin.EditCanBreakCardinality`).
- Registration always creates a new registrant row. An existing registrant
  is never reused, because their BASL id, NIC or email would be rejected
  as a duplicate.
- Additional persons' BASL ids and NICs are compared only with registrant
  rows, and they are never stored as registrants (only in the booking's
  `additional_basl_ids` column). Ids repeated within one request are not
  compared with each other (`Lifecycle.RepeatedIdInOneRequestAccepted`).

## Model

| member | source | states |
|---|---|---|
| `Records.AccommodationUsage` | app.py:120-127 | the cost is at most 3, and is positive exactly for the three ticket types the forms accept (app.py:229); any other text costs 0 |
| `Records.SlotsMatchUsage` | app.py:233-279 | a valid tier reads exactly one additional person per unit beyond the first (Double 1, Triple 2, Single 0) |
| `Records.SuppliedPersons` | app.py:233-279 | the form supplies as many additional persons as the tier has slots: slot 1 for Double, slots 1 and 2 for Triple |
| `Records.ParseStatus` | app.py:500-502 | a status name is accepted only when it names one of the three statuses; otherwise no status has that name |
| `Records.FindBooking` | app.py:349 | a lookup by primary key finds a row with that id, or reports that no row has it (the 404 case) |
| `Records.DecimalRoundTrip` | app.py:384 | reading back the decimal text of a booking id gives the id again, so the folder name identifies the booking |
| `Files.AllowedFile` | app.py:117-118 | `allowed_file`; an accepted name contains '.'; its full characterisation is `Files.AllowedFileIff` |
| `Files.ExtensionCaseIgnored` | app.py:118 | the extension is compared lower-cased: `pay.JPG` is accepted, `pay.jpg.exe` (last part `exe`) is not |
| `Files.LastDot` | app.py:118 | the position found holds '.', and no '.' follows it; none is found only when the name has no '.' |
| `Files.AllowedFileIff` | app.py:117-118 | `allowed_file` holds iff the name contains '.' and the text after the last '.', lower-cased, is png, jpg, jpeg or pdf |
| `Files.ReceiptPath` | app.py:371-385 | the recorded receipt path starts with the booking's own folder `booking_<id>/` |
| `Files.ReceiptPathsSeparated` | app.py:371-385 | a receipt path of one booking never lies in the folder of another booking |
| `Capacity.ConfirmedUnits` | app.py:134-136 | the units of the confirmed bookings; specified by `Capacity.ConfirmedQuery` and `Capacity.HeldSplit` |
| `Capacity.ConfirmedQuery` | app.py:134-136 | the recursive count equals the sum of the costs over the bookings the `status == 'confirmed'` query returns |
| `Capacity.LivePendingUnits` | app.py:138-142 | the units of the unexpired pending bookings; specified by `Capacity.LivePendingQuery` and `Capacity.HeldSplit` |
| `Capacity.LivePendingQuery` | app.py:138-142 | the recursive count equals the sum of the costs over the bookings the `pending` and `expires_at > now` query returns |
| `Capacity.HeldSplit` | app.py:133-144 | the confirmed query plus the unexpired-pending query count every holding booking exactly once |
| `Capacity.AvailableAccommodations` | app.py:129-147 | total is 100; available lies in [0, 100]; it is 0 iff the held units reach 100, and otherwise available + held units = 100 |
| `Capacity.NonHoldingIgnored` | app.py:133-142 | cancelled bookings and pending bookings with `expires_at <= now` do not change the available units, wherever they stand in the table |
| `Capacity.NewHoldConsumes` | app.py:315-338 | a new unexpired hold whose cost fits takes exactly its cost from the available units, and the held units stay within 100 |
| `Capacity.HoldLapses` | app.py:137-141 | a pending hold counts while `expires_at > now` and stops counting once its expiry is reached, which releases exactly its cost |
| `Lifecycle.FirstTaken` | app.py:297-307 | the id reported is registered and is the first registered id in checking order; nothing is reported iff no id is registered |
| `Lifecycle.BaslChecksCover` | app.py:294-301 | the BASL id loop finds nothing iff neither the primary's nor any additional person's BASL id is registered |
| `Lifecycle.NicChecksCover` | app.py:295-307 | the NIC loop finds nothing iff neither the primary's nor any additional person's NIC is registered |
| `Lifecycle.RegistrationError` | app.py:228-321 | the first failing check of `register`; an accepted form has a valid tier whose cost fits the available units; fully specified by `Lifecycle.RegistrationAcceptedIff` and `Lifecycle.RegistrationRejections` |
| `Lifecycle.RegistrationAcceptedIff` | app.py:228-321 | a registration is accepted iff the tier is valid, every required additional person is complete, no primary or additional BASL id or NIC and not the primary email is registered, and cost ≤ available |
| `Lifecycle.RegistrationRejections` | app.py:228-321 | an invalid tier, or a Double/Triple booking with incomplete details, is rejected with that reason; every duplicate or capacity reason names an id, email or shortfall that really exists |
| `Lifecycle.NewLawyer` | app.py:323-326 | the registrant row an accepted registration adds, with the primary's details; specified by `Lifecycle.RegistrationRecordsOnlyPrimary` |
| `Lifecycle.NewBooking` | app.py:328-338 | the booking row an accepted registration adds; specified by `Lifecycle.NewBookingShape` and `Lifecycle.AcceptedRegistrationFits` |
| `Lifecycle.NewBookingShape` | app.py:323-338 | an accepted registration creates a pending booking expiring at now + 300 s, with no receipt, holding at now, and carrying cost − 1 complete additional persons |
| `Lifecycle.AcceptedRegistrationFits` | app.py:315-338 | without concurrent requests an accepted registration takes exactly its cost from the available units and never over-books |
| `Lifecycle.RegistrationRecordsOnlyPrimary` | app.py:323-326 | after registration the registered BASL ids, NICs and emails grow by the primary's only; additional persons stay unregistered |
| `Lifecycle.RepeatedIdInOneRequestAccepted` | app.py:293-307 | a Double registration whose second person repeats the primary's BASL id and NIC is accepted on empty tables |
| `Lifecycle.EmptyTablesAccept` | app.py:228-321 | on empty tables, a valid tier with complete additional persons is always accepted |
| `Lifecycle.Swept` | app.py:168-177 | the table after one sweep, of the same length; specified by `Lifecycle.SweepChangesOnlyStale`, `Lifecycle.SweepLeavesNoStale`, `Lifecycle.SweepIdempotent` and `Lifecycle.SweepKeepsHeldUnits` |
| `Lifecycle.SweepChangesOnlyStale` | app.py:168-177 | the sweep changes a booking iff it is pending with `expires_at <= now`, and then changes only its status, to cancelled |
| `Lifecycle.SweepLeavesNoStale` | app.py:168-177 | no pending booking with `expires_at <= now` survives a sweep |
| `Lifecycle.SweepIdempotent` | app.py:168-177 | a second sweep at the same time changes nothing |
| `Lifecycle.SweepKeepsHeldUnits` | app.py:168-177 | the sweep leaves the held and available units at `now` unchanged |
| `Lifecycle.TimeRemaining` | app.py:403-406 | the time remaining is never negative; it is 0 iff `expires_at <= now`, and otherwise it is `expires_at − now` |
| `Lifecycle.UploadStep` | app.py:351-406 | `upload_receipt` on one found booking; the status changes only on expiry or an accepted receipt; specified by `Lifecycle.UploadConfirmsIff`, `Lifecycle.ExpiredHoldNeverConfirmed` and `Lifecycle.UploadTouchesOnlyStatusAndReceipt` |
| `Lifecycle.UploadTouchesOnlyStatusAndReceipt` | app.py:347-401 | an upload request changes no column of the booking other than the status and the receipt path |
| `Lifecycle.ExpiredHoldNeverConfirmed` | app.py:351-356 | a pending booking with `expires_at <= now` is cancelled by any request to the upload page and is never confirmed by that request, even before the sweep runs |
| `Lifecycle.UploadConfirmsIff` | app.py:358-401 | the booking is confirmed iff it is not a stale hold and a non-empty allowed file name was submitted and stored; the receipt then lies in the booking's folder; every other outcome except expiry leaves the row unchanged |
| `Lifecycle.UploadRevivesCancelled` | app.py:351-387 | a cancelled booking that receives a valid upload becomes confirmed, whatever its expiry |
| `Lifecycle.CheckStatus` | app.py:417-428 | no report iff no booking has the id; otherwise it reports that booking, `expired` holds iff the time remaining is 0, and the status text is a valid status name |
| `Admin.CountStatus` | app.py:466-469 | the number of bookings with one status, never more than the bookings; specified by `Admin.CountStatusIsFilterLength` and `Admin.StatusPartition` |
| `Admin.CountStatusIsFilterLength` | app.py:466-469 | the count equals the length of the list of bookings with that status, as the panel's comprehensions build it |
| `Admin.StatusPartition` | app.py:466-469 | the confirmed, pending and cancelled counts sum to the number of bookings |
| `Admin.ConfirmedWithinHeld` | app.py:472 | the units used by confirmed bookings never exceed the units held |
| `Admin.Statistics` | app.py:460-483 | total is the number of bookings; confirmed, pending and cancelled are the counts of bookings with that status and sum to the total; used units are the summed cost of the confirmed bookings and never exceed the held units; available and total are those of `get_available_accommodations` |
| `Admin.EditedBooking` | app.py:492-553 | only status, ticket type and additional persons change; status and tier change only to a valid value given on the form; a valid tier stays valid; the additional persons become the persons the form supplies for its tier when all are complete, and none otherwise, so they are complete and never exceed the tier's slots |
| `Admin.EditedPersons` | app.py:509-551 | the additional persons an edit stores: complete, and at most the form tier's slots; specified in full by `Admin.EditedBooking` |
| `Admin.EditCanBreakCardinality` | app.py:509-551 | editing a Double booking with an incomplete second person leaves it Double with no additional person |
| `Admin.AfterDelete` | app.py:579-586 | the two tables after the delete, neither longer than before; specified by `Admin.DeleteCascade` and `Admin.DeleteKeepsConsistency` |
| `Admin.DeleteCascade` | app.py:563-586 | the booking with the id is removed and every other kept; the owner remains iff they had another booking; no other registrant is touched |
| `Admin.DeleteKeepsConsistency` | app.py:579-586 | after the cascade every remaining booking still has its registrant, and keys and identities stay unique |
| `App.Registry.Register` | app.py:218-340 | a rejection returns the first failing check and leaves both tables as they were; an acceptance appends exactly one registrant and one pending booking, and returns its id |
| `App.Registry.UploadReceipt` | app.py:347-410 | an unknown id changes nothing (not found); otherwise only that row changes, as the single-booking upload step says |
| `App.Registry.CancelExpiredBookings` | app.py:168-177 | one in-place pass leaves the table equal to the swept table and touches nothing else |
| `App.Registry.AdminEditBooking` | app.py:492-555 | an unknown id changes nothing; otherwise only that row is replaced by its edited version |
| `App.Registry.AdminDeleteBooking` | app.py:563-588 | an unknown id changes nothing; otherwise the tables become the cascade result for that booking's owner |

## Left out

- Flask routing, redirects, flash messages and templates (app.py:105-115, 206-216, 343-345, 408-415). Each handler instead returns an outcome value.
- Admin login, logout and the session check (app.py:52-59, 430-456). Authentication belongs to the framework. The admin booking view (app.py:485-490) only renders a row.
- Email sending (app.py:149-166) is a foreign call. Its success is an input (`UploadEnv.emailSent`). It only changes the message, and a failure never undoes the confirmation.
- File system work: creating the folder, saving, deleting and serving receipt files (app.py:371-381, 570-577, 590-603). Whether the save succeeded is an input (`UploadEnv.saved`). The sanitised name from `secure_filename` and the `strftime` time stamp are opaque inputs.
- The upload size limit of 16 MiB is enforced by the framework before the handler runs (app.py:29).
- The background thread, its 10-second sleep loop, the "started once" flags and the error logging (app.py:84-102, 179-204) concern concurrency and process lifecycle. The model has one deterministic sweep, `CancelExpiredBookings`.
- The configuration of the database, mail and secrets (app.py:13-47). Primary keys are the next value of a counter per table; this is one valid choice of fresh keys.
- Column length limits (app.py:62-79) are not modelled; strings are unbounded.
- The delete cascade reads `lawyer.bookings` after the booking was marked deleted (app.py:580-583). The model takes the remaining bookings, as the lazy load sees them after the session's automatic flush.
- The race between the capacity check and the insert under concurrent requests. The model is sequential.
- Wall-clock time. `datetime.utcnow()` is read several times per request, but the model uses one integer `now`. Sub-second truncation by `int(...)` does not arise with integer seconds.
- JSON encoding of additional persons (app.py:333, 551, 557-559). An empty list stands for the stored `None`.
- Whitespace stripping. The form fields reach the model as the handlers read them: `register` strips the BASL id, NIC, ticket type and additional-person fields (app.py:224-226, 236-260) but not the name, email or phone (app.py:221-223); the edit form's status and ticket type are compared unstripped (app.py:500, 505). The model compares exactly the values it is given and does not strip anything itself. A missing form field behaves like an empty one.
- A registration form without name, email or phone (`request.form.get` returning `None`) would fail at the database's not-null constraint. The model takes these fields as present.
- The admin list order (newest first, app.py:463) only affects display. The statistics do not depend on it.
- `Files.LowerChar` folds ASCII letters only. Python's `str.lower` also folds other letters. None of those folds into an ASCII letter of png, jpg, jpeg or pdf (the only two that fold into ASCII become "k" and "i̇"), so the accepted names are the same.

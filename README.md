# Spa booking core, modelled in Dafny

A Django application books spa services for hotel guests. A booking gives a
guest one service variant (a service with a duration), one specialist and one
cabinet (a treatment room of some cabinet type), from a start time to an end
time. The end is always the start plus the variant's duration plus a global
buffer. This project models the core of that system and proves properties
about it:

- **Slot search** (`Slots`): the free 15-minute grid slots of a day for a
  service variant, grouped by start and specialist, with their free cabinets.
- **Conflict check** (`Conflicts`): the four conflict flags for a proposed
  booking. The specialist or the cabinet can be busy, the specialist can be
  off duty, or the cabinet can be inactive. The check is also run for every
  occurrence of a series, and the flags are rendered as text.
- **Choosing a slot** (`SlotSelection`): how the create view parses the chosen
  slot string, re-checks it against the offered slots and inserts the booking.
- **Series** (`SeriesOps`): recurring bookings. This covers renumbering
  members by start time, and detaching, dissolving or rebuilding a series
  when one member is edited.
- **Deleting** (`Deletion`): deleting a booking or a whole series, and the
  guards of the duplicate view.
- **Restoring** (`Restore`): restoring archived bookings and series, with a
  one-way "restored" flag.
- **Models and forms** (`Models`, `Forms`): the derived end time, schedule
  templates, the specialist schedule and registration forms, and the booking
  edit form.
- **Guests** (`Guests`): the normal form of a guest name, duplicate groups,
  and merging duplicate guests.
- **Audit log** (`Logs`): the diff of changed fields and the client address.
- **Web pages** (`Presentation`, `Calendar`, `Reports`, `Autocomplete`): cabinet
  colours and service-variant groups, the calendar page's state (width modes,
  saved view, copy and paste of bookings, excluded dates), the merge of guest
  rows on the reports page, and the guest-name autocomplete widget.

Times are whole minutes. Day `d` starts at minute `d * 1440`, and its weekday
is `d % 7`, with day 0 a Monday. Database tables are sequences of rows in
table order, held by one `Models.Store` object that the operations modify.
A store is valid (`Models.Store.Valid`) when booking keys are distinct and
below the allocation counter, every stored end is derived from its start,
every booking's series exists, series keys and the series ids kept in the
archive are below the series counter, and no specialist has two schedules
for one weekday. The operations that write bookings or series keep a valid
store valid.
Primary keys are positive integers. The recurrence expander
(`generate_datetimes`), the similarity score of guest names, the local-time
rendering and the clock are parameters of the operations that use them.

## Model

| member | source | states |
|---|---|---|
| Models.FindVariant | booking/views.py:815 | the variant found has the key asked for and is a row of the table; none is found only when no row has that key |
| Models.FindService | booking/views.py:820 | the service found has the key and is a row of the table; none only when no row has it |
| Models.FindSpecialist | booking/views.py:816 | the specialist found has the key and is a row of the table; none only when no row has it |
| Models.FindCabinet | booking/views.py:817 | the cabinet found has the key and is a row of the table; none only when no row has it |
| Models.IndexOfBooking | booking/views.py:1350-1356 | the index found holds the booking with that key; none only when no row has the key |
| Models.Saved | booking/models.py:307-312 | the stored row ends at start + duration + buffer, and every other field is kept |
| Models.SavedIgnoresEnd | booking/models.py:280-284 | the stored end does not depend on the end the caller supplied |
| Models.SavedIdempotent | booking/models.py:307-312 | saving twice stores the same row as saving once |
| Models.Store.constructor | booking/models.py:249-312 | a valid store with empty tables and both id counters at 1 |
| Models.WithSavedFacts | booking/models.py:307-312 | after a save, the saved row is the only one with its key, the other rows are kept in place, and the table stays valid |
| Models.SaveBooking | booking/models.py:307-312 | `save()` writes the row with its derived end under its key (the table becomes `WithSaved` of the old one), and a valid store stays valid when the key was allocated and the row's series exists |
| Models.CreateBooking | booking/models.py:307-312 | `objects.create` allocates a fresh key, derives the end and appends the row; the old rows are kept; a valid store stays valid when the row's series exists |
| Models.CreatePreservesValid | booking/models.py:307-312 | appending a created row with a fresh key keeps the table valid |
| Models.WithSavedLinked | booking/models.py:307-312 | a save keeps every row linked to an existing series when the saved row's series exists |
| Models.SaveKeepsTables | booking/models.py:307-312 | saving a row whose key was allocated and whose series exists keeps the tables valid |
| Models.CreateKeepsTables | booking/models.py:307-312 | creating a row under the next key keeps the tables valid, with the counter advanced |
| Models.IndexOfSchedule | booking/models.py:165-168 | the index found holds the schedule of that specialist and weekday; none only when there is no such row |
| Models.UpsertScheduleFacts | booking/models.py:210-217 | one `update_or_create` leaves exactly one schedule for that specialist and weekday, with the template hours, and keeps the others |
| Models.ApplyTemplateFacts | booking/models.py:204-218 | after `apply_to_specialist`, every template day is the specialist's schedule for that weekday, exactly once; other specialists and weekdays are untouched; no other row appears; (specialist, weekday) stays unique |
| Models.ApplyToSpecialist | booking/models.py:204-218 | the loop performs one upsert per template day in order, leaves the table equal to the template applied, returns the number of template days, and keeps a valid store valid |
| Conflicts.FirstSchedule | booking/utils.py:180-183 | `.first()` of the filter: a row of the table with that specialist and weekday, and none only when no row matches |
| Conflicts.AnyBlockingMeaning | booking/utils.py:203-221 | the row scan finds a blocking row exactly when the table has a confirmed, overlapping, not-excluded row of that specialist or cabinet |
| Conflicts.CheckBookingConflicts | booking/utils.py:136-227 | a report is returned only when some flag is set |
| Conflicts.CheckBookingConflictsMeaning | booking/utils.py:156-227 | each flag holds exactly when its condition holds: a busy specialist, a busy cabinet, a start or end outside the weekday's schedule, an inactive cabinet; no report exactly when none holds |
| Conflicts.CheckBookingConflictsAsWritten | booking/utils.py:176-196 | the check as written compares the end's time of day with the schedule's end |
| Conflicts.AsWrittenAgreesWithinDay | booking/utils.py:193-195 | the as-written and corrected working-hours tests agree whenever the span ends on the day it starts |
| Conflicts.MidnightSpanMissed | booking/utils.py:193-195 | a span from 23:00 to 00:15 on a 09:00-23:59 schedule is reported as off duty by the corrected check but not by the code as written |
| Conflicts.Selected | booking/views.py:99-107 | picks only given labels, never more than there are |
| Conflicts.LabelSetsDistinct | booking/views.py:101-107 | the four labels of each message are non-empty and pairwise different |
| Conflicts.SelectedMembership | booking/views.py:99-107 | a label appears in the message parts exactly when its flag is set |
| Conflicts.SelectedEmpty | booking/views.py:99-107 | no parts are selected exactly when no flag is set |
| Conflicts.FormatConflictMessage | booking/views.py:98-108 | the message is empty exactly when no flag is set, and each label is present exactly when its flag is set |
| Conflicts.FormatConflictMessageParts | booking/views.py:108 | splitting the message at its commas gives back exactly the selected labels, in order |
| Conflicts.ExcludeFor | booking/views.py:83-85 | the i-th occurrence excludes the i-th id when there is one, and nothing otherwise |
| Conflicts.IssuesSound | booking/views.py:81-95 | every issue has a position among the occurrences, the start at that position and that occurrence's own report; positions increase |
| Conflicts.IssuesComplete | booking/views.py:81-95 | an occurrence is listed exactly when its check reports a conflict |
| Conflicts.DetectOccurrenceConflicts | booking/views.py:77-95 | the loop returns exactly the issues of all occurrences, in input order |
| Conflicts.ConflictCheck | booking/views.py:86-92 | the per-occurrence check is `check_booking_conflicts` with the variant, specialist and cabinet fixed |
| Slots.ValidCabinets | booking/utils.py:38-41 | exactly the active cabinets whose type is among the required types |
| Slots.DaySchedules | booking/utils.py:37-48 | the schedules on the weekday of specialists who can perform the service |
| Slots.DayBookings | booking/utils.py:51-57 | the confirmed bookings that start on the day |
| Slots.FreeCabinets | booking/utils.py:88-94 | the valid cabinets that no overlapping booking of the day uses, in table order |
| Slots.DedupFacts | booking/utils.py:104-112 | de-duplication keeps one cabinet per id, only cabinets of the input, every id of the input, and the first cabinet first |
| Slots.MergeCabinets | booking/utils.py:101-112 | the merge loop with a set of seen ids returns the de-duplicated concatenation |
| Slots.IndexOfKey | booking/utils.py:98-101 | the index found holds the slot with that (start, specialist) key; none when no slot has it |
| Slots.AddPointFacts | booking/utils.py:96-121 | adding a free grid point keeps every slot sound and the keys distinct, keeps every earlier coverage, and covers the new point |
| Slots.MergedSlotFacts | booking/utils.py:101-112 | the slot with the merged cabinet list is still sound and lists every cabinet of both lists |
| Slots.ReplaceSlotFacts | booking/utils.py:112 | replacing a slot by a sound one with the same key and at least its cabinets keeps the table sound and every coverage |
| Slots.GridStep | booking/utils.py:124-125 | two points of one 15-minute grid that are less than a step apart coincide |
| Slots.WalkSchedule | booking/utils.py:66-125 | the walk through one schedule keeps every slot valid and every key distinct, loses no earlier slot, and covers every offered point of the schedule with its specialist and all its free cabinets |
| Slots.SortedTableFacts | booking/utils.py:128-131 | sorting the slots by start keeps every slot, its soundness, distinct keys and every coverage, and orders them by start |
| Slots.FindAvailableSlots | booking/utils.py:10-133 | every slot lies on a schedule's grid and ends by its end, its specialist has no overlapping confirmed booking, and its cabinets are valid, free and distinct; every free grid point with a free cabinet is offered, with all its free cabinets; slots are ordered by start |
| Slots.GuardAgreesWithinDay | booking/utils.py:76 | the as-written loop guard and the corrected guard agree while the span ends on its own day |
| Slots.MultipleOf15InDay | booking/utils.py:60-76 | a grid point's time of day is at most 23:45 |
| Slots.UnboundedSlotLoop | booking/utils.py:74-125 | with a 09:00-23:45 schedule and a 75-minute span (60 minutes of service, 15 of buffer) the as-written guard holds at every grid step, so the loop never stops, while the corrected guard stops |
| SlotSelection.IndexOfSlot | booking/views.py:797-801 | the first offered slot with that specialist and start; none only when there is no such slot |
| SlotSelection.FallbackCabinet | booking/views.py:806-812 | an old-format selection takes the slot's first free cabinet, else the slot's own cabinet |
| SlotSelection.ValidateChoice | booking/views.py:814-852 | an accepted choice has a variant, an existing specialist and cabinet, and an offered slot of that specialist and time holding the cabinet; a slot-unavailable refusal means no slot of that specialist and time is offered |
| SlotSelection.DecideCreate | booking/views.py:769-852 | no selected slot is refused exactly when the slot field is empty; an accepted choice was parsed from at least two '|' parts (time, specialist, optional cabinet) and names an existing variant |
| SlotSelection.DecideWithCabinet | booking/views.py:785-852 | with three parts the posted cabinet is checked as chosen |
| SlotSelection.DecideWithFallback | booking/views.py:787-812 | with two parts the cabinet comes from the offered slot, and an unoffered slot fails |
| SlotSelection.CreateBookingView | booking/views.py:764-881 | on acceptance, exactly one confirmed booking for the chosen slot, created by the user, is appended; on refusal nothing changes; a valid store stays valid |
| SlotSelection.InsertChosen | booking/views.py:857-870 | the accepted choice is appended under the next key with a derived end, and a valid store stays valid |
| SlotSelection.SlotStringRoundTrip | booking/views.py:774-786 | the rendered "start\|specialist\|cabinet" string parses back to the same start, specialist and cabinet |
| SlotSelection.FallbackChoiceAccepted | booking/views.py:787-852 | an old-format selection of an offered slot takes its first free cabinet, which passes the cabinet check |
| SlotSelection.OfferedChoiceNotTaken | booking/views.py:826-852 | a choice matching an offered slot and one of its free cabinets is never refused as unavailable or as taken |
| SeriesOps.Keep | booking/views.py:153-157 | a filter keeps exactly the rows that satisfy it, and never more rows |
| SeriesOps.KeepValid | booking/views.py:155 | deleting filtered rows keeps the booking table valid |
| SeriesOps.Members | booking/views.py:120 | the rows of the series, in table order |
| SeriesOps.RankOfMember | booking/views.py:120 | a member's rank in start order locates exactly that row |
| SeriesOps.RenumberedFacts | booking/views.py:120-127 | after renumbering, rows outside the series are unchanged; members change only their sequence, which runs 1..N, differs between members and follows start order |
| SeriesOps.NthMember | booking/views.py:124 | the member that is n-th in start order, and its rank |
| SeriesOps.RenumberSeries | booking/views.py:124-127 | each member gets its 1-based position in start order; the result is the renumbered table |
| SeriesOps.BuildSeriesFromPayload | booking/views.py:56-74 | the series takes the payload's rule; exactly one of count and end date survives, chosen by the end type; the author is kept unless one is given |
| SeriesOps.OrUser | booking/views.py:113 | `x or user`: the existing author, else the user |
| SeriesOps.DropOrRenumber | booking/views.py:120-127 | the series is deleted when it has no bookings left, and its bookings are renumbered otherwise |
| SeriesOps.DetachOneFacts | booking/views.py:114-127 | after a booking leaves the series the table is valid, the booking is stored, and rows outside the series are kept |
| SeriesOps.RenumberedRows | booking/views.py:124-127 | renumbering keeps rows outside the series and every field of a member but its sequence, which lies in 1..N, and adds no row |
| SeriesOps.RenumberedOrder | booking/views.py:120-127 | renumbered members have distinct sequences that follow start order |
| SeriesOps.DetachOneRenumbers | booking/views.py:114-127 | after a booking leaves the series, every other member keeps all its fields but its sequence, which runs 1..N, differs between members and follows start order |
| SeriesOps.SingleUpdateFacts | booking/views.py:111-137 | an edit through the single-booking path keeps the table valid and stores the edited booking |
| SeriesOps.HandleSingleBookingUpdate | booking/views.py:111-137 | with recurrence off on a member, the booking leaves the series and the rest are renumbered (or the series goes); otherwise series and sequence are kept, or reset for a standalone booking; the returned message says which; the store stays valid |
| SeriesOps.FutureIdsFacts | booking/views.py:174-175 | the excluded ids are exactly the ids of the members at or after the pivot, each once, in start order |
| SeriesOps.SeriesConflictWarning | booking/views.py:192-203 | there is a warning exactly when some occurrence conflicts |
| SeriesOps.WarningEntriesFacts | booking/views.py:193-203 | the warning shows the first three conflicting occurrences in order, each with its date and flags, and ends with the trailer exactly when there were more |
| SeriesOps.NewMembersFacts | booking/views.py:222-234 | every created occurrence belongs to the series, carries its position from 2 on and its start, copies the guest name, room, variant, specialist, cabinet and status (the guest link is not set), is authored by the user, and has a derived end |
| SeriesOps.RebuildBaseExisting | booking/views.py:209-219 | rebuilding an existing series: earlier members become standalone with sequence 1, later ones other than the edited booking are deleted, and the edited booking is stored first in the series |
| SeriesOps.RebuildBaseFresh | booking/views.py:214-219 | creating a new series around the edited booking changes no other row, and afterwards only that booking belongs to the series |
| SeriesOps.AppendValid | booking/views.py:222-234 | appending rows with fresh consecutive keys and derived ends keeps the table valid |
| SeriesOps.AppendOccurrences | booking/views.py:222-234 | appending the further occurrences gives one member per occurrence |
| SeriesOps.RebuiltRowsFacts | booking/views.py:205-234 | after a rebuild the table is valid and the series holds exactly one booking per occurrence; the booking with sequence k starts at occurrence k, and no two members share a sequence |
| SeriesOps.DeleteThenDetach | booking/views.py:153-212 | deleting the later members and then detaching the earlier ones leaves the same rows as the opposite order, as the two branches of the source do |
| SeriesOps.DissolveFacts | booking/views.py:151-163 | switching recurrence off on a series leaves no row in the series; the edited booking and the earlier members are standalone with sequence 1; the later members are gone; other rows are kept |
| SeriesOps.CreateOccurrences | booking/views.py:222-234 | the creation loop appends one booking per further occurrence, with sequence numbers from 2 |
| SeriesOps.DissolveSeries | booking/views.py:151-163 | later members are deleted, earlier ones detached, the series deleted, and the booking saved standalone; a valid store stays valid when the booking's key was allocated |
| SeriesOps.DropSeries | booking/views.py:151-158 | later members other than the edited booking are deleted, earlier ones detached, and the series deleted with the rows still attached to it |
| SeriesOps.RebuildSeries | booking/views.py:205-234 | the writes of a rebuild leave exactly the rows that `RebuiltRowsFacts` describes, and the series record and counters; a valid store stays valid when the booking's key was allocated and its series exists |
| SeriesOps.HandleSeriesBookingUpdate | booking/views.py:140-242 | no payload makes the booking standalone (dissolving its series); an empty occurrence list is an error with nothing written; otherwise the series is rebuilt from the occurrences and the message counts them and carries any conflict warning; the store stays valid |
| SeriesOps.UpdateWithRule | booking/views.py:165-242 | the payload branch: an error without occurrences, else the rebuild and its message; the store stays valid |
| SeriesOps.SaveAlone | booking/views.py:144-149 | a booking outside any series, without a rule, is saved with sequence 1, and the store stays valid |
| SeriesOps.WriteSeries | booking/views.py:205-220 | the existing series, or a new one under the next series key, takes the built rule |
| SeriesOps.WriteMembers | booking/views.py:209-234 | the booking rows after the rebuild are `RebuiltRows`, with the counter advanced by the further occurrences |
| SeriesOps.RenumberItem | booking/views.py:125-127 | one turn of the renumbering loop is `RenumberOne` |
| SeriesOps.SingleUpdateKeepsTables | booking/views.py:111-137 | the single-booking path keeps the tables valid, the emptied series deleted with its last member |
| SeriesOps.DissolveKeepsTables | booking/views.py:151-163 | dissolving a series keeps the tables valid without that series |
| SeriesOps.RebuiltKeepsTables | booking/views.py:205-234 | a rebuild keeps the tables valid: the series written and every member linked to it |
| Deletion.SeriesDeletedMessage | booking/views.py:1610 | the message carries the number of deleted rows, in decimal, between its fixed prefix and suffix |
| Deletion.KeepSplits | booking/views.py:1608-1624 | a filter and its complement split the table |
| Deletion.WithoutBookingCount | booking/views.py:1624 | with distinct keys, exactly one row carries the key of a stored booking |
| Deletion.DeleteSeriesFacts | booking/views.py:1595-1611 | series scope: no row of the series is left, every other row stays, and exactly as many rows go as the series had |
| Deletion.DeleteMemberFacts | booking/views.py:1613-1635 | single scope on a member: the booking is gone, there is one row fewer, the table stays valid, and rows outside the series stay as they were |
| Deletion.DeleteMemberRenumbers | booking/views.py:1627-1635 | single scope on a member: the other members keep every field but their sequence, which runs 1..N, differs between members and follows start order |
| Deletion.DeleteBooking | booking/views.py:1578-1640 | a missing booking is a 404 with nothing changed; series scope on a member deletes the series and all its rows; otherwise the booking goes and the rest of its series is renumbered or the series deleted; the store stays valid |
| Deletion.DeleteSeriesKeepsTables | booking/views.py:1608-1609 | deleting a series with its rows keeps the tables valid |
| Deletion.DeleteOneKeepsTables | booking/views.py:1624 | deleting one booking outside a series keeps the tables valid |
| Deletion.DeleteMemberKeepsTables | booking/views.py:1624-1630 | deleting a member keeps the tables valid, the series deleted when it was the last |
| Deletion.CheckDuplicate | booking/views.py:1343-1362 | a missing parameter is a 400, a missing booking a 404 and a series member a 400; otherwise the booking is returned |
| Presentation.CabinetColors | booking/views.py:520-550 | every cabinet id gets a colour, every colour is a palette entry with white text |
| Presentation.CabinetColorsAt | booking/views.py:545-548 | with distinct ids, the i-th cabinet's colour is palette entry i mod 15 |
| Presentation.PaletteDistinct | booking/views.py:526-542 | the 15 palette backgrounds are pairwise different |
| Presentation.NearbyCabinetsDiffer | booking/views.py:545-548 | cabinets fewer than 15 positions apart get different background colours |
| Presentation.FindCabinetType | booking/views.py:1979-1982 | the type found has the key and is a row of the table |
| Presentation.KeysOf | booking/views.py:1979-1995 | the group keys of a variant: one per required cabinet type, or the unassigned key |
| Presentation.NamesOfType | booking/views.py:1970-1974 | the names of one type's cabinets, sorted case-insensitively |
| Presentation.UniqueById | booking/views.py:1999-2006 | the kept variants come from the input and none has an id seen before |
| Presentation.UniqueByIdDistinct | booking/views.py:1999-2006 | no id repeats after de-duplication |
| Presentation.UniqueByIdCovers | booking/views.py:1999-2006 | an id of the input keeps a variant |
| Presentation.CollectFacts | booking/views.py:1976-1996 | after the grouping loop the groups are sound, and every variant is in the group of each of its keys |
| Presentation.DeduplicatedFacts | booking/views.py:1998-2006 | de-duplication keeps keys and labels and leaves no repeated variant |
| Presentation.DeduplicatedCovers | booking/views.py:1998-2006 | with distinct variant ids, de-duplication keeps every variant |
| Presentation.BuildGroupsContents | booking/views.py:1968-2013 | the groups have distinct keys; each is non-empty, free of repeats and labelled after its key; a variant is in exactly the groups of its cabinet types, or in the unassigned group |
| Presentation.UnassignedFirst | booking/views.py:2008-2011 | in the sorted groups only a cabinet-type group can precede another group, and two type groups are ordered by lower-cased label |
| Presentation.BuildGroupsOrder | booking/views.py:2008-2013 | the unassigned group, if any, comes last, and the cabinet-type groups come in case-insensitive label order |
| Restore.CheckRestoreConflicts | booking/restore_utils.py:15-110 | the variant, specialist and cabinet must exist and a start be recorded, checked in that order; then the booking's own conflicts come before the occurrence conflicts of an archived rule |
| Restore.SeriesConflictsSound | booking/restore_utils.py:97-108 | every reported series conflict is a genuine conflict of an occurrence of the archived rule, at its position, in order |
| Restore.NoConflictMeaning | booking/restore_utils.py:58-110 | a clear check means no overlapping confirmed booking of the specialist or in the cabinet, a span within the hours, an active cabinet, and no conflicting occurrence |
| Restore.IndexOfArchive | booking/restore_utils.py:130 | the index found holds the archive row with that key; none only when no row has it |
| Restore.ArchiveLookup | booking/restore_utils.py:130 | with distinct keys, looking up a row's own key finds that row |
| Restore.MarkedRestored | booking/restore_utils.py:249-253 | the archive row is marked restored, with its time and user, and is otherwise kept |
| Restore.SeriesAfterRestore | booking/restore_utils.py:183-223 | only the restored series changes; it takes the archived rule's start, frequency, interval, count and weekdays; a missing one gets no end date, no excluded dates and the restoring user as author; an existing one keeps its author, takes the archived end date, and its excluded dates unless the archived ones are empty |
| Restore.SeriesSharedByMembers | booking/restore_utils.py:185-199 | restoring several members of one series touches one series record |
| Restore.CreatorOf | booking/restore_utils.py:226-244 | the archived author when that user still exists, else the restoring user |
| Restore.RestoredBooking | booking/restore_utils.py:163-181 | the row given to `create` carries the archived fields, with the archived end or the derived one |
| Restore.RestoredEndIgnored | booking/restore_utils.py:170-181 | the stored row ends at start + duration + buffer whatever end the archive holds, because `save` derives it |
| Restore.JoinedSeries | booking/restore_utils.py:184-199 | the restored row joins the archived series id only when both the rule and the id were archived |
| Restore.ApplyRestore | booking/restore_utils.py:158-257 | the writes of a restore that passed the checks: success exactly when a booking is created, appended with the next id; the archive keeps its keys; only the record's series may be added; the booking joins that series |
| Restore.PlanRestore | booking/restore_utils.py:118-263 | success exactly when a booking is created; a success appends that booking with the next id, a failure leaves bookings and the id counter unchanged |
| Restore.PlanRestoreFrame | booking/restore_utils.py:118-257 | a restore keeps the archive's keys and series ids and touches at most the series of the restored row |
| Restore.PlanRestoreRefusals | booking/restore_utils.py:130-156 | the refusals leave every table as it was |
| Restore.PlanRestoreSuccess | booking/restore_utils.py:158-257 | a successful restore passed every check, marks exactly its record restored, and creates a booking at the archived start with a derived end |
| Restore.PlanRestoreValid | booking/restore_utils.py:118-263 | a restore keeps the tables valid: distinct booking keys below the counter, derived ends, every series link to an existing series, and series keys and archived series ids below the series counter |
| Restore.PlanRestoreRowsValid | booking/restore_utils.py:235-247 | after a restore the booking rows are valid and linked to existing series |
| Restore.PlanRestoreKeysValid | booking/restore_utils.py:183-223 | a restore keeps series keys and archived series ids below the series counter |
| Restore.PlanKeepsMarks | booking/restore_utils.py:249-253 | no restore unmarks a record |
| Restore.PlanMarks | booking/restore_utils.py:249-253 | a successful restore marks its record |
| Restore.RestoreTwiceFails | booking/restore_utils.py:132-133 | once a restore succeeded, restoring the same record again fails with "already restored" and writes nothing |
| Restore.RestoreBooking | booking/restore_utils.py:118-263 | the store ends in the state that `PlanRestore` describes, the method returns its outcome, and a valid store stays valid |
| Restore.ApplyRestoreTo | booking/restore_utils.py:158-257 | the store ends in the state that `ApplyRestore` describes |
| Restore.RestoreSteps | booking/restore_utils.py:118-263 | the lookups, checks and writes leave the store in the state `PlanRestore` describes |
| Restore.Pending | booking/restore_utils.py:285-288 | the unrestored archive rows of the series, in table order |
| Restore.SeriesTargets | booking/restore_utils.py:285-288 | every unrestored archived member of the series and nothing else, ordered by archived sequence number |
| Restore.AllRestoredMessage | booking/restore_utils.py:306 | the summary carries the number of restored members |
| Restore.PartialMessage | booking/restore_utils.py:303-304 | the summary starts with both counts and continues with at most the first three error lines joined by "; " |
| Restore.RestoreAllCounts | booking/restore_utils.py:293-301 | every target yields a booking or an error line; the restored bookings are appended and take consecutive keys from the counter |
| Restore.RestoreAllFrame | booking/restore_utils.py:293-301 | the loop keeps the archive's keys and touches and joins no series but the one it restores |
| Restore.RestoreAllKeeps | booking/restore_utils.py:296-301 | later members keep earlier members' restored marks and error lines |
| Restore.RestoreAllAccounts | booking/restore_utils.py:296-301 | after the loop each target's record is marked restored, or an error line reports its original id |
| Restore.RestoreAllValid | booking/restore_utils.py:293-301 | the loop keeps the tables valid |
| Restore.SeriesMessageFits | booking/restore_utils.py:303-306 | the call succeeds exactly when no member failed; the message then carries the count, and otherwise starts with both counts |
| Restore.RestoreEach | booking/restore_utils.py:293-301 | the loop's outcome and tables are those of `RestoreAll` |
| Restore.RestoreTargets | booking/restore_utils.py:293-306 | the outcome is that of `RestoreAll`; success exactly when there is no error line, with the summary that fits the counts; a valid store stays valid |
| Restore.RestoreMembers | booking/restore_utils.py:293-301 | the outcome and the tables are those of `RestoreAll`, the fold of `restore_booking` over the targets in order; so every target counts once, restored bookings are appended and belong to the series or to none, only that series may be added, the archive keeps its keys, and a valid store stays valid |
| Restore.RestoreSeries | booking/restore_utils.py:267-312 | a missing record, a record outside a series, or a series with nothing left to restore fails with its message and nothing written; otherwise the unrestored members, in sequence order, go through `RestoreAll`, the summary fits the counts, restored bookings are appended and belong to that series or none, only that series may be added, and a valid store stays valid |
| Forms.CleanSchedule | booking/forms.py:76-87 | with both times given, a start not before the end is refused on `end_time`; otherwise the data passes |
| Forms.CleanScheduleWindow | booking/forms.py:81-85 | an accepted schedule with both times is a non-empty window |
| Forms.CleanUsername | booking/forms.py:135-140 | a name already in use is refused, and any other passes |
| Forms.CleanPassword2 | booking/forms.py:142-147 | two given passwords that differ are refused |
| Forms.PasswordsMustMatch | booking/forms.py:145-147 | two given passwords pass only when they are equal |
| Forms.FormConflictMessage | booking/forms.py:244-257 | the error is non-empty when any flag is set, and holds each flag's sentence exactly when that flag is set |
| Forms.CleanEdit | booking/forms.py:198-259 | with a field missing the checks are skipped; otherwise a specialist who cannot perform the service, a cabinet of a wrong type and any conflict (excluding the booking itself) are refused, in that order |
| Forms.CleanEditAccepted | booking/forms.py:219-259 | an accepted edit has a qualified specialist, a cabinet of a required type that is active, a span within the hours, and no other overlapping confirmed booking of the specialist or in the cabinet |
| Forms.EditedBooking | booking/forms.py:261-285 | the instance takes the chosen variant, specialist, cabinet and start, and its end is start + duration + buffer |
| Forms.EditedBookingStored | booking/forms.py:281-288 | the end the form computes is the one `Booking.save` derives, so saving stores the instance unchanged |
| Forms.SaveEdit | booking/forms.py:261-289 | the instance is rebuilt and, with `commit`, stored by `Booking.save`; a valid store stays valid when the key was allocated and the series exists |
| Guests.Capitalize | booking/guest_utils.py:39 | first character upper-cased and the rest lower-cased, same length |
| Guests.CapitalizeAll | booking/guest_utils.py:36-40 | every word capitalized, in order |
| Guests.NormalizeGuestNameShape | booking/guest_utils.py:11-42 | the normal form is single-spaced and holds the input's words, in order, each capitalized; it is empty exactly when the input has no words |
| Guests.NormalizeGuestNameWordCount | booking/guest_utils.py:29-33 | the normal form has as many words as the input |
| Guests.NormalizeAsJoin | booking/guest_utils.py:29-42 | trimming and collapsing whitespace before splitting does not change the words |
| Guests.NormalizeGuestNameIdempotent | booking/guest_utils.py:11-42 | normalizing a normal form changes nothing |
| Guests.NormalizeUpperCaseExample | booking/guest_utils.py:21 | "ИВАН ИВАНОВ" becomes "Иван Иванов" |
| Guests.NormalizeDoubleSpaceExample | booking/guest_utils.py:22 | "иван  иванов" becomes "Иван Иванов" |
| Guests.NormalizePaddedExample | booking/guest_utils.py:23 | "  Петрова Мария  " becomes "Петрова Мария" |
| Guests.IndexOfMax | booking/guest_utils.py:201 | an index of the largest booking count, with every earlier member strictly smaller: the first maximum |
| Guests.WithoutGuest | booking/guest_utils.py:204 | the members whose key differs, in order |
| Guests.RemoveOne | booking/guest_utils.py:200-206 | removing the primary from a group of distinct keys removes one member and takes its count out of the sum |
| Guests.GroupOf | booking/guest_utils.py:198-213 | a well-formed group whose members are exactly the leader and the similar guests: the primary has the largest count, duplicates are distinct and never the primary, and the total sums every count |
| Guests.SimilarTo | booking/guest_utils.py:188-196 | the scan takes, in order, every guest similar to the leader that is neither the leader nor already grouped |
| Guests.CollectSimilar | booking/guest_utils.py:185-196 | the inner loop returns exactly those guests and marks them as grouped |
| Guests.AddGroup | booking/guest_utils.py:198-215 | adding the group of an ungrouped leader keeps the loop's promises |
| Guests.FindDuplicateGroups | booking/guest_utils.py:154-217 | the groups are `DuplicateGroupsOf` the input, the turn-by-turn scan; every group is well formed and built from the input, and no guest is in two groups |
| Guests.Turn | booking/guest_utils.py:180-215 | one outer turn only adds groups and grouped keys |
| Guests.ScanGrouped | booking/guest_utils.py:180-215 | after every turn the groups are well formed, built from the input, disjoint, and the grouped keys are exactly their members |
| Guests.ScanGrows | booking/guest_utils.py:180-215 | a guest grouped at some turn stays grouped |
| Guests.GroupsLed | booking/guest_utils.py:188-204 | every group is led by one of the guests that had a turn: every other member is similar to it |
| Guests.TurnGroupsPair | booking/guest_utils.py:180-196 | at a guest's turn, a guest similar to it ends grouped unless one of the two already was |
| Guests.SimilarPairGrouped | booking/guest_utils.py:180-217 | of two distinct guests where the first is similar to the second, at least one ends in a group |
| Guests.MergedName | booking/guest_utils.py:240-241 | the stripped replacement when it is not blank, else the primary's own name |
| Guests.MergeGuests | booking/guest_utils.py:221-264 | no duplicates changes nothing and returns 0; otherwise the count of bookings linked to a duplicate is returned, bookings of the duplicates move to the primary under the merged name, and the duplicates are deleted after the primary's rename |
| Guests.ReassignOnlyGuestFields | booking/guest_utils.py:245-258 | the bulk updates touch only the guest link and the name of a row |
| Guests.ReassignKeepsValid | booking/guest_utils.py:245-258 | the bulk updates keep keys, the allocation counter and the derived ends |
| Guests.MergeMovesAllBookings | booking/guest_utils.py:245-250 | afterwards no booking points to a duplicate, and the primary gained exactly the moved bookings |
| Guests.MergedGuests | booking/guest_utils.py:240-262 | the duplicates are gone and every other guest row remains, the primary under its merged name |
| Logs.FieldNamesDistinct | booking/log_utils.py:61-69 | two fields have the same logged name only when they are the same field |
| Logs.EveryFieldTracked | booking/log_utils.py:61-69 | every attribute of the enumeration is compared |
| Logs.GetBookingChanges | booking/log_utils.py:56-91 | the old and new sides record the same fields |
| Logs.GetBookingChangesMeaning | booking/log_utils.py:71-89 | a field is logged exactly when its normalized values differ, with the old value on the old side and the new on the new side |
| Logs.NoChangesForEqual | booking/log_utils.py:56-91 | comparing an instance with itself logs nothing |
| Logs.ChangesSwap | booking/log_utils.py:56-91 | swapping the two instances swaps the two sides of the diff |
| Logs.StatusCode | booking/models.py:251-256 | the stored code is one of the four status choices |
| Logs.StatusCodeInjective | booking/models.py:251-256 | different statuses have different codes |
| Logs.BookingEditChanges | booking/log_utils.py:56-91 | for two versions of a booking the diff holds exactly the fields that changed |
| Logs.GetClientIp | booking/log_utils.py:11-18 | a non-empty forwarded header gives its text before the first comma, untrimmed; otherwise REMOTE_ADDR, or none |
| Logs.ClientIpSingle | booking/log_utils.py:13-15 | a forwarded header without a comma is taken whole |
| Logs.ClientIpFirstItem | booking/log_utils.py:13-15 | of "client,proxy,…" the client part is taken, spaces included |
| Calendar.SlashesToDots | static/js/calendar.js:559 | every slash becomes a dot and every other character is kept |
| Calendar.DottedParts | static/js/calendar.js:565 | the day, month and year of `D.M.YYYY`, with one or two digits for day and month and four for the year |
| Calendar.ConvertItem | static/js/calendar.js:557-571 | a converted item is always an ISO date |
| Calendar.ConvertIso | static/js/calendar.js:560-564 | an ISO date is kept verbatim |
| Calendar.ConvertIdempotent | static/js/calendar.js:557-571 | converting a converted date changes nothing |
| Calendar.DottedNotIso | static/js/calendar.js:560-565 | `D.M.YYYY` is never mistaken for an ISO date |
| Calendar.ConvertDotted | static/js/calendar.js:565-571 | `D.M.YYYY` and `D/M/YYYY` become `YYYY-MM-DD`, with day and month zero-padded |
| Calendar.ConvertExample | static/js/calendar.js:565-571 | "5.3.2024" becomes "2024-03-05" |
| Calendar.NonBlankItems | static/js/calendar.js:555 | no kept item is empty, and there are no more items than parts |
| Calendar.NonBlankItemsAppend | static/js/calendar.js:555 | the kept items of concatenated lists are the concatenated kept items |
| Calendar.NonBlankItemsMembers | static/js/calendar.js:555 | an item is kept exactly when it is a part trimmed of JavaScript white space and not empty |
| Calendar.IsoDates | static/js/calendar.js:556-572 | every collected value is an ISO date |
| Calendar.IsoDatesAppend | static/js/calendar.js:557-572 | the dates of concatenated lists are the concatenated dates, so input order is kept |
| Calendar.IsoDatesMembers | static/js/calendar.js:557-572 | a date is collected exactly when some item converts to it |
| Calendar.JsonStringArray | static/js/calendar.js:573 | the JSON text starts with "[" and ends with "]" |
| Calendar.SyncQuickExcludedDates | static/js/calendar.js:548-574 | a blank text gives ""; otherwise "" exactly when no item is a date, and the JSON list of the dates otherwise |
| Calendar.FormatDateForInput | static/js/calendar.js:972-980 | the text is `YYYY-MM-DDTHH:MM`: the year, then the separators at their fixed places |
| Calendar.FormatDateForInputFields | static/js/calendar.js:972-980 | the text is the year's digits, then the month counted from 1, the day, the hours and the minutes, each padded to two digits at its fixed place |
| Text.PadStart2Value | static/js/calendar.js:973 | `padStart(2, '0')` of a number below 100 is two decimal digits that read back as the number |
| Text.ParseNatToString | static/js/calendar.js:974-979 | the decimal text of a number reads back as the number, so the year field of the text gives the year back |
| Text.Utf16Length | static/js/guest_autocomplete.js:101 | JavaScript `length`: one unit per character of the Basic Multilingual Plane and two otherwise, so it equals the character count on BMP text |
| Calendar.NextWidth | static/js/calendar.js:451-457 | the next mode is always an allowed mode; standard → wide → fullscreen → standard |
| Calendar.WidthCycle | static/js/calendar.js:451-457 | three toggles bring an allowed mode back, and one or two do not |
| Calendar.Adopted | static/js/calendar.js:491-493 | a saved value is adopted only when it is non-empty and allowed; otherwise the current value stays |
| Calendar.CopyOf | static/js/calendar.js:285-292 | the buffer holds the booking's id and the hour and minute of its start, each in range |
| Calendar.ShortcutBuffer | static/js/calendar.js:245-316 | only Escape and a copy change the buffer, and a series booking is never copied |
| Calendar.PasteNeedsBufferAndSlot | static/js/calendar.js:302-315 | a paste is requested only with both a buffer and a selected slot, and it pastes the buffered booking at that slot |
| Calendar.EscapeClears | static/js/calendar.js:262-265 | Escape with a full buffer empties it, with or without a modifier |
| Calendar.ClickTarget | static/js/calendar.js:148-157 | in the month view, the day at the copied time when a copy is pending, else at 09:00; in the time views, the clicked time |
| Calendar.CalendarState.constructor | static/js/calendar.js:446-497 | the page starts in standard width and the day view, with no stored width, date, buffer, hover or selected slot |
| Calendar.CalendarState.ToggleWidth | static/js/calendar.js:447-465 | the mode advances by `NextWidth`, and the new mode is saved |
| Calendar.CalendarState.RestoreWidthMode | static/js/calendar.js:488-497 | the saved mode is adopted when allowed |
| Calendar.CalendarState.RestoreViewState | static/js/calendar.js:1196-1212 | an allowed saved view is adopted, and a parsed saved date is adopted |
| Calendar.CalendarState.MouseEnter | static/js/calendar.js:208-220 | with shortcuts on, a booking event under the pointer becomes the hovered one |
| Calendar.CalendarState.MouseLeave | static/js/calendar.js:222-232 | leaving the hovered event clears the hover |
| Calendar.CalendarState.HandleCopyPasteShortcut | static/js/calendar.js:245-316 | the outcome and the new buffer are those of `ShortcutStep` |
| Calendar.CalendarState.DateClick | static/js/calendar.js:146-169 | the clicked slot is remembered; with a pending copy it is pasted there, otherwise the quick booking form opens for it |
| Calendar.ToggledWidthRestores | static/js/calendar.js:447-497 | a toggled width survives a reload |
| Reports.FormatDurationRoundTrip | static/js/reports.js:15-22 | parsing the duration text gives back the number of minutes |
| Reports.FormatDurationParts | static/js/reports.js:15-22 | the text has the minutes part exactly when the duration is not a whole number of hours, and the hours part exactly from one hour on |
| Reports.GatheredMembers | static/js/reports.js:60-67 | a booking is gathered exactly when it belongs to one of the checked guests |
| Reports.RoomsInMembers | static/js/reports.js:64 | the rooms listed are exactly the non-empty room numbers of the bookings |
| Reports.ServiceListMembers | static/js/reports.js:65 | the services listed are those of the bookings |
| Reports.DedupMeaning | static/js/reports.js:65-87 | every text is kept once and only once |
| Reports.NonEmpty | static/js/reports.js:87 | `filter(Boolean)` keeps exactly the non-empty strings |
| Reports.NonEmptyDistinct | static/js/reports.js:87 | filtering keeps a list without repeats free of repeats |
| Reports.DistinctRooms | static/js/reports.js:87 | the rooms are the distinct non-empty room numbers |
| Reports.SortedServices | static/js/reports.js:88 | the keys in code-unit order, the same set of keys, without repeats |
| Reports.AppendRows | static/js/reports.js:61-66 | one guest's bookings are appended, and the room and service lists stay those of all bookings so far |
| Reports.Collect | static/js/reports.js:60-67 | every booking of every checked guest in turn, the non-empty rooms in order, and the services in first-seen order |
| Reports.FirstStep | static/js/reports.js:82 | the comparison keeps the smallest date |
| Reports.LastStep | static/js/reports.js:83 | the comparison keeps the largest date |
| Reports.Summarize | static/js/reports.js:78-85 | the total duration, and the smallest and largest non-empty dates (none when there is none) |
| Reports.SumSorted | static/js/reports.js:68-80 | sorting the bookings does not change the total |
| Reports.DatesSorted | static/js/reports.js:68-85 | the dates of a reordering are the same dates |
| Reports.MergeGuests | static/js/reports.js:52-89 | nothing happens with fewer than two checked guests; otherwise the row joins the names with " + " and holds all their bookings sorted by date and time (a permutation), their count, the total duration, the first and last dates, the distinct rooms, and the sorted distinct services |
| Autocomplete.OrDefault | static/js/guest_autocomplete.js:25-27 | an absent or zero option takes the default |
| Autocomplete.NextDown | static/js/guest_autocomplete.js:263 | ArrowDown gives the next item in range, wrapping from the last to the first |
| Autocomplete.NextUp | static/js/guest_autocomplete.js:270 | ArrowUp gives the previous item in range, and the last from the first or from no selection |
| Autocomplete.ArrowsInverse | static/js/guest_autocomplete.js:263-270 | Up undoes Down and Down undoes Up on a selected item |
| Autocomplete.KeyDown | static/js/guest_autocomplete.js:254-289 | keys are ignored while the dropdown is hidden, missing or empty; a highlight is in range; only Enter on a selected item chooses it |
| Autocomplete.EnterChoosesHighlighted | static/js/guest_autocomplete.js:275-282 | Enter picks the highlighted item, and nothing without one |
| Autocomplete.Widget.constructor | static/js/guest_autocomplete.js:24-30 | the options take their defaults, and nothing is shown or selected |
| Autocomplete.Widget.HideDropdown | static/js/guest_autocomplete.js:226-232 | the dropdown is hidden and the selection cleared |
| Autocomplete.Widget.ShowSuggestions | static/js/guest_autocomplete.js:140-198 | an empty list hides the dropdown; otherwise the dropdown is created and filled with nothing selected |
| Autocomplete.Widget.Reveal | static/js/guest_autocomplete.js:188-194 | the filled dropdown is shown |
| Autocomplete.Widget.FetchSuggestions | static/js/guest_autocomplete.js:100-137 | a query shorter than the minimum in UTF-16 units hides the dropdown and sends nothing; otherwise the query is sent |
| Autocomplete.Widget.ReceiveSuggestions | static/js/guest_autocomplete.js:100-137 | a failed request or an empty list hides the dropdown; a non-empty list is shown |
| Autocomplete.Widget.HandleInput | static/js/guest_autocomplete.js:235-251 | the trimmed text (JavaScript white space removed) is sent exactly when its UTF-16 length reaches the minimum, and the dropdown is hidden otherwise |
| Autocomplete.Widget.HandleFocus | static/js/guest_autocomplete.js:292-300 | on focus or click the trimmed text is sent exactly when its UTF-16 length reaches the minimum; the dropdown is otherwise untouched |
| Autocomplete.Widget.SelectGuest | static/js/guest_autocomplete.js:214-223 | the input takes the guest's name and key, and the dropdown closes |
| Autocomplete.Widget.HighlightItem | static/js/guest_autocomplete.js:201-211 | the pointed item becomes the selection |
| Autocomplete.Widget.HandleKeyDown | static/js/guest_autocomplete.js:254-289 | the effect is `KeyDown` of the old state, and the new state is the one that effect asks for |
| Autocomplete.Widget.HandleClickOutside | static/js/guest_autocomplete.js:303-307 | a click outside both the input and the dropdown closes an existing dropdown, and any other click changes nothing |

## Left out

- `generate_datetimes` (the recurrence expander of `BookingSeries`) is not part of this model. It is a function parameter of the operations that expand a rule.
- The `BookingSeries`, `DeletedBooking` and `Guest` model classes are not part of this model. Their rows carry the fields that the modelled code reads and writes.
- The pre-delete signal that archives a deleted booking is not part of this model, so deleting writes no archive row.
- Time zones, daylight saving time, `strftime` and `isoformat` are left out. Local time is absolute minutes, and the rendering of a date is a function parameter.
- The clock (`timezone.now()`, `Date.now()`) is a parameter.
- Money (prices, totals, average check) is floating point and is left out.
- `calculate_similarity` and `find_similar_guests` use floating-point similarity scores and are left out. Duplicate grouping takes the threshold test as a predicate parameter, and the similarity scores in a group are not kept.
- `log_booking_action` writes log rows and is left out. The diff it stores (`get_booking_changes`) and the client address are modelled.
- Database transactions, locking and concurrent requests are left out. Each operation runs alone.
- Exceptions other than the modelled error paths are left out (the broad `except` branches of the views and of `restore_utils`). Parse failures of the ISO date-time texts are `None` results of the parsing parameter.
- The DOM, `fetch`, `localStorage` failures, modals and CSS classes are left out. Method parameters carry what the code reads from them. The autocomplete request and its answer are split into `FetchSuggestions` and `ReceiveSuggestions`.
- Timers are left out. The autocomplete debounce delay (option `delay`) is not modelled; `HandleInput` is the timer's callback, and `Reveal` is the show timer. The `limit` option is stored but only travels in the request URL.
- Case mapping covers ASCII and the basic Cyrillic letters only.
- Reports.SortedServices: requires distinct keys, since object keys are distinct by construction.
- Reports.MergeGuests: sorts by code-unit order, where the source uses `localeCompare`; locale collation is not modelled.
- Reports.FormatDurationRoundTrip: proved for non-negative durations only; for a negative total the text is written out but has no parser partner.
- Autocomplete.NextDown: the repeated-press cycle (n presses return to the start) is not proved; the single-step range and the inverse with `NextUp` are.
- Dictionary iteration order of Python and JavaScript objects is modelled as insertion order, where the code relies on it.
- The rest of the views (pages, feeds, reports queries, CSV download, resource lists, schedule management pages) only read and render data. They are left out.

## Findings

| source | as written | input that shows it | evidently intended | confidence | as-written member | corrected member |
|---|---|---|---|---|---|---|
| booking/utils.py:76 | the slot loop compares the slot end's time of day with the schedule's end | a schedule whose end is at least 23:45 + r, where r = (start + duration + buffer) mod 15: every slot end's time of day, wrapped past midnight, stays at most 23:45 + r, so the guard never fails and the loop never stops; for example 09:00-23:45 with 60 minutes of service and 15 of buffer (r = 0). With a 65-minute span (r = 5) on the same schedule the end 23:50 fails the guard and the loop stops | stop once the slot ends after the schedule's end on that day | not executed | Slots.UnboundedSlotLoop | Slots.FindAvailableSlots |
| booking/utils.py:193-194 | the conflict check compares the end's time of day with the schedule's end | a 23:00 start with a 60-minute service and a 15-minute buffer on a 09:00-23:59 schedule ends at 00:15 the next day and is not flagged | flag a span that ends after the schedule's end on its start day | not executed | Conflicts.MidnightSpanMissed | Conflicts.CheckBookingConflicts |

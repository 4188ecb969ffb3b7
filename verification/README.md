# Dental practice booking engine

A model of the booking engine of a small dental-practice desktop program.
The program has two sides. A patient sees outstanding treatment needs
("Probleme"), their cost, and the appointment booking pages. A dentist edits
their name, the insurance classes they accept and their weekly opening hours.

The model covers these parts:

- **Slots**: the free appointment starts offered for one dentist, date and
  treatment (`show_time_slots`). Starts step through each opening window in
  30-minute increments. Each candidate is checked by a probe against the
  start keys already booked that day.
- **Booking**: committing a chosen slot into the nested appointment store
  (dentist → ISO date → start → booking). The patient's outstanding units of
  that treatment are then consumed (`select_time`). This module also holds
  the choices of the units box.
- **Costs**: the flat cost overview (`berechne_kosten_und_zeit`) and the
  material-aware quote on the booking page (`update_kosten`). These are two
  different formulas and are kept apart.
- **Queries**: the dentists that accept a patient's insurance class, and the
  patient's own appointments, flattened and sorted.
- **Settings**: the record updates. Dentists can rename, change accepted
  classes and change weekly hours. Patients can add a problem (the merging
  settings-page version and the appending older version), change the
  password and change the insurance class.

Times of day are minutes since midnight. The stored "HH:MM" texts and their
parsing are modelled in `Clock`. It proves that formatting and parsing are
inverse and that text order equals time order, so a day's booking keys can
be modelled as numbers. Reimbursement ratios are exact reals. Every
"warning and return" of the program is an `Err` of a `Result`. An uncaught
exception (a missing catalogue or table key, a malformed stored window) is
also an `Err`.

Parameters stand in for everything outside the core:

- file contents: patients, dentists, appointments, materials table;
- the session's record (`patient_data`, found at login by name, `None` for a
  dentist login). The settings operations take it as an index into the list
  they edit, absent when the session has none. The booking page and its
  quote only run for a logged-in patient, so they take the record itself as
  a value `me`. The cost overview takes it as an optional value;
- the weekday key of the chosen date;
- the values of the editor widgets.

## Model

| member | source | states |
|---|---|---|
| Text.Strip | components/settings_manager.py:361 | the stripped text is empty exactly when the input is all whitespace, and otherwise starts and ends with a non-space |
| Text.StripPadded | components/settings_manager.py:493 | whitespace around a text with non-space ends is removed and nothing else is |
| Text.StripIdempotent | components/settings_manager.py:493 | stripping an already stripped text changes nothing |
| Text.ParseShow | PyQt5-GUI-main/script.py:448 | `int()` reads every natural number back from its decimal text |
| Text.ParseNegShow | PyQt5-GUI-main/script.py:448 | `int()` reads a minus sign followed by decimal text as the negative number |
| Clock.FormatHHMM | PyQt5-GUI-main/script.py:971 | `strftime("%H:%M")` of a time of day: five characters with a colon in the middle; Clock.ParseFormat is its inverse |
| Clock.ParseHHMM | PyQt5-GUI-main/script.py:967-968 | `strptime(text, "%H:%M")` read as minutes: any accepted text is a time of day; Clock.FormatParse shows only canonical texts are accepted |
| Clock.ParseWindow | PyQt5-GUI-main/script.py:966-968 | a window text "von-bis" split at the dash, both halves parsed: both ends are times of day; Clock.ParseFormatWindow and Clock.FormatParseWindow make it the inverse of the stored text |
| Clock.ParseFormat | PyQt5-GUI-main/script.py:967-971 | parsing the "HH:MM" text of a time of day gives that time back |
| Clock.FormatParse | PyQt5-GUI-main/script.py:971-977 | every text that parses is the canonical text of its value, so time keys are one-to-one with minutes |
| Clock.FormatOrder | PyQt5-GUI-main/script.py:511 | comparing two "HH:MM" texts as strings agrees with comparing the times |
| Clock.ParseFormatWindow | components/settings_manager.py:414 | a window written as "von-bis" parses back to the same window |
| Clock.FormatParseWindow | PyQt5-GUI-main/script.py:966-968 | a parsable window text is the canonical text of its window |
| Clock.ParseWindows | PyQt5-GUI-main/script.py:965-968 | a day's windows parse when each one does, in order; one malformed window fails the whole list |
| Clock.HourLabel | components/settings_manager.py:289 | the editor's label of hour h parses to h·60 minutes |
| Clock.HourLabelOrder | components/settings_manager.py:406 | for editor hours, `von >= bis` on the labels holds exactly when the hours compare that way |
| Records.FirstOfKind | PyQt5-GUI-main/script.py:1016-1017 | the index found is the first entry of the kind; without one, no entry has the kind |
| Records.FindPatient | PyQt5-GUI-main/script.py:1027-1030 | the index found is the first patient with the name; without one, no patient has it |
| Records.SessionPatient | components/main_window.py:29-34 | a session has a record exactly when it is a patient login whose name occurs in the file, and then it is the first record with that name |
| Slots.WindowStarts | PyQt5-GUI-main/script.py:970-985 | one window yields the starts von, von+30, … in increasing order, as many as fit a treatment of the given length |
| Slots.WindowStartsCount | PyQt5-GUI-main/script.py:970-985 | a window yields each of its on-grid starts exactly once |
| Slots.WindowStartsExactly | PyQt5-GUI-main/script.py:970-985 | a window yields exactly the starts on its 30-minute grid whose treatment ends within it; a window shorter than the treatment yields none |
| Slots.DayCandidates | PyQt5-GUI-main/script.py:965-985 | the candidates of a day are exactly the on-grid starts of some window |
| Slots.DayCandidatesAppend | PyQt5-GUI-main/script.py:965 | candidates follow window order: the candidates of two window lists are concatenated |
| Slots.DayCandidatesCount | PyQt5-GUI-main/script.py:965-985 | a start occurs among the candidates once per window whose grid holds it |
| Slots.ProbeFree | PyQt5-GUI-main/script.py:974-980 | the inner probe loop, stepping 30 minutes from the start and failing at the first booked key; Slots.ProbeFreeIff states what it decides |
| Slots.ProbeFreeIff | PyQt5-GUI-main/script.py:974-980 | the probe passes `t` exactly when no booked key equals t + 30·j for a j with 30·j below the duration |
| Slots.OffGridBookingsIgnored | PyQt5-GUI-main/script.py:974-980 | a booking that starts before `t`, or off its 30-minute grid, never changes the probe's answer |
| Slots.OfferedStarts | PyQt5-GUI-main/script.py:965-983 | a start is offered exactly when it is on some window's grid and passes the probe |
| Slots.OfferedStartsAppend | PyQt5-GUI-main/script.py:965-983 | the offers follow window order: those of a split window list are the first part's followed by the rest's |
| Slots.OfferedStartsCount | PyQt5-GUI-main/script.py:965-983 | a start that passes the probe is offered once per window whose grid holds it; one that fails it not at all |
| Slots.ShowTimeSlots | PyQt5-GUI-main/script.py:943-988 | a weekday without hours offers nothing; otherwise an unknown kind or a malformed window is an error, and the offered starts are exactly the on-grid starts that pass the probe |
| Slots.ShowTimeSlotsWindowOrder | PyQt5-GUI-main/script.py:965-983 | when the day's texts parse to windows a then b, the listing is the offers of a followed by those of b |
| Slots.ShowTimeSlotsRepeats | PyQt5-GUI-main/script.py:965-983 | the listing holds a start once per stored window whose grid holds it when the probe passes, and not at all otherwise |
| Slots.BookedStartsNotOffered | PyQt5-GUI-main/script.py:974-982 | no booked start lies on an offered start's grid inside its treatment |
| Slots.EmptyDayOffersAll | PyQt5-GUI-main/script.py:974-983 | on a day without bookings every candidate is offered, in order |
| Slots.NineToNoonShort | PyQt5-GUI-main/script.py:970-985 | "09:00-12:00" offers a 30-minute treatment the six starts 09:00 to 11:30 |
| Slots.NineToNoonLong | PyQt5-GUI-main/script.py:970-985 | the same window offers a 45-minute treatment the five starts 09:00 to 11:00 |
| Slots.OverlappingWindowsRepeatStarts | PyQt5-GUI-main/script.py:965-983 | two identical windows offer every start twice; nothing is deduplicated |
| Slots.ProbeAdmitsOverlap | PyQt5-GUI-main/script.py:974-980 | next to a 120-minute booking at 09:00 the probe offers 09:30, and booking it makes two bookings overlap |
| Slots.SafeOfferedStarts | PyQt5-GUI-main/script.py:965-983 | the corrected filter offers exactly the on-grid starts whose whole span is free of every booking |
| Slots.SafeBookingKeepsNoOverlap | PyQt5-GUI-main/script.py:1006-1010 | booking a start the corrected filter offers keeps a day free of overlaps |
| Slots.SafeShowTimeSlots | PyQt5-GUI-main/script.py:943-988 | the corrected listing has the same error cases and offers exactly the on-grid starts with an overlap-free span |
| Booking.Commit | PyQt5-GUI-main/script.py:997-1010 | the booking is stored at its key, missing levels are created, an existing entry there is overwritten, and every other entry is unchanged |
| Booking.CommitDay | PyQt5-GUI-main/script.py:1006 | the day the listing reads after a commit is the old day with the one booking set |
| Booking.UnitChoices | PyQt5-GUI-main/script.py:699-700 | the units box holds 1 to anzahl in order, and nothing when anzahl is not positive |
| Booking.ConsumeUnits | PyQt5-GUI-main/script.py:1016-1022 | the `for … break` loop over the session's problems as a recursion on the list; Booking.ConsumeUnitsFirst states its effect |
| Booking.ConsumeUnitsFirst | PyQt5-GUI-main/script.py:1016-1022 | only the first entry of the kind changes: it loses n units if it has more, and is removed otherwise; with no such entry the list is unchanged |
| Booking.ConsumeKeepsPositive | PyQt5-GUI-main/script.py:1018-1021 | if every entry needs at least one unit before a booking, this still holds after it |
| Booking.ConsumeUnitsAccounting | PyQt5-GUI-main/script.py:1016-1022 | a booking of n units takes min(n, anzahl) units of its kind and none of any other kind |
| Booking.ConsumeByKindNotIndex | PyQt5-GUI-main/script.py:1017 | with two crown entries, booking removes units from the first one even when the second one was picked |
| Booking.AppendedDuplicateShadowed | PyQt5-GUI-main/script.py:1016-1022 | an entry appended behind an earlier one of the same kind is never consumed |
| Booking.SelectTime | PyQt5-GUI-main/script.py:990-1033 | the booking carries the patient, kind and catalogue duration; nothing else in the store changes; the reduced problem list is stored on the session and on the first patient record with that name; an unknown kind writes nothing |
| Booking.BookedSlotDisappears | PyQt5-GUI-main/script.py:976-980 | after a booking at `t`, listing that dentist and date again never offers `t` |
| Booking.ChosenUnitsConsumed | PyQt5-GUI-main/script.py:1016-1022 | units chosen from the units box of the first entry of a kind are taken in full |
| Booking.SafeSelectKeepsNoOverlap | PyQt5-GUI-main/script.py:990-1010 | booking a start offered by the corrected listing keeps that dentist's day free of overlapping bookings |
| Costs.BerechneKostenUndZeit | PyQt5-GUI-main/script.py:155-191 | no patient gives no report; the analysis is the reference analysis; the totals are its sums; the insurance share is the total times the class's flat ratio; the two shares add up to the total |
| Costs.ScanProblems | PyQt5-GUI-main/script.py:164-181 | the loop's lines are exactly the recursive analysis of the list, and its running totals are the sums of their costs and times |
| Costs.Analyse | PyQt5-GUI-main/script.py:164-177 | the analysis loop as a recursion on the problem list; Costs.AnalyseLength and Costs.AnalyseLine tie it to the catalogue-kind problems |
| Costs.AnalyseLength | PyQt5-GUI-main/script.py:164-177 | the analysis has one line per problem of a catalogue kind |
| Costs.AnalysePriced | PyQt5-GUI-main/script.py:165-177 | every analysis line is priced and timed at anzahl times its catalogue entry |
| Costs.AnalyseLine | PyQt5-GUI-main/script.py:164-177 | line i of the analysis is the i-th problem of a catalogue kind, priced and timed from its catalogue entry |
| Costs.UnknownKindSkipped | PyQt5-GUI-main/script.py:165-166 | a problem of a kind missing from the catalogue adds nothing to the analysis |
| Costs.SettingsSpellingUnknown | components/settings_manager.py:122 | the settings page's "Karies groß" is not a catalogue kind, while "Karies Groß" is |
| Costs.SmallCavityExample | PyQt5-GUI-main/script.py:155-191 | two small cavities cost 100 in 60 minutes; under statutory insurance 70 is reimbursed and 30 is the patient's share |
| Costs.UnknownClassDefault | PyQt5-GUI-main/script.py:161 | an insurance class outside the table is reimbursed at 0.7 |
| Costs.UpdateKosten | PyQt5-GUI-main/script.py:702-726 | an empty box shows nothing; the quote exists exactly when every lookup succeeds; total = price · factor · units, the insurance share is the total times the material's ratio for the class, and the shares add up |
| Costs.FormulasAgreeWhenNeutral | PyQt5-GUI-main/script.py:715-726 | with factor 1 and the flat ratio, the quote for a single problem's units equals the overview's figures |
| Costs.FormulasDiverge | PyQt5-GUI-main/script.py:721-726 | with a material ratio of 0.5, the quote shows 25 of insurance for one small cavity where the overview shows 35 |
| Queries.DentistsFor | PyQt5-GUI-main/script.py:767-775 | an empty result is an error exactly when no dentist accepts the class; otherwise exactly the accepting dentists are listed, each as often as in the file |
| Queries.DentistsForKeepsOrder | PyQt5-GUI-main/script.py:768-771 | the filter keeps file order |
| Queries.AllClassesDentistAlwaysOffered | PyQt5-GUI-main/script.py:768-771 | a dentist accepting every class is offered to every patient |
| Queries.Matching | PyQt5-GUI-main/script.py:497-508 | the three nested loops over dentists, dates and times as one set comprehension; Queries.MatchingIff states what it collects |
| Queries.MatchingIff | PyQt5-GUI-main/script.py:497-508 | an appointment is collected exactly when the store holds a booking for the patient at its key |
| Queries.Insert | PyQt5-GUI-main/script.py:511 | inserting into a list sorted by (date, time) keeps it sorted and adds exactly the one entry |
| Queries.MeineTermine | PyQt5-GUI-main/script.py:496-511 | the list holds exactly the patient's bookings, each once, sorted by date and time |
| Queries.CommittedBookingListed | PyQt5-GUI-main/script.py:497-508 | a booking just committed for a patient is on that patient's list |
| Queries.OthersNotListed | PyQt5-GUI-main/script.py:501 | another patient's booking never appears on the list |
| Settings.UpdateZahnarztName | components/settings_manager.py:357-378 | no dentist record is an error; a blank entry is refused; a name held by another record is refused; otherwise only the name changes, to the stripped entry |
| Settings.RenameKeepsNamesUnique | components/settings_manager.py:366-376 | renaming never makes two dentists share a name |
| Settings.RenameForgetsBookings | components/settings_manager.py:376 | bookings under the old name are not moved: after renaming to a new name, an on-grid start is offered again |
| Settings.CheckedKassen | components/settings_manager.py:384 | the ticked classes, exactly, in checkbox order |
| Settings.UpdateZahnarztKassen | components/settings_manager.py:380-391 | ticking no class is refused; otherwise the accepted classes become the ticked ones in fixed order, and nothing else changes |
| Settings.KassenControlVisibility | components/settings_manager.py:389 | after the update, a patient of a class is offered this dentist exactly when that class was ticked |
| Settings.SlotText | components/settings_manager.py:414 | the stored text of a slot parses back to its window in minutes |
| Settings.SlotTexts | components/settings_manager.py:403-414 | a day's slots are accepted exactly when every window has von < bis, and the stored texts parse to those windows |
| Settings.SlotTextsNamesFirst | components/settings_manager.py:403-413 | a refused day names its first backwards window |
| Settings.CollectOkIff | components/settings_manager.py:400-414 | the hours are collected exactly when every ticked day's windows are all non-empty |
| Settings.CollectErrNamesWindow | components/settings_manager.py:406-413 | a refusal names a backwards window of a ticked day |
| Settings.CollectKeys | components/settings_manager.py:400-402 | the collected map has a key for exactly the ticked days |
| Settings.CollectWindows | components/settings_manager.py:402-414 | each ticked day stores the texts of its own windows |
| Settings.UpdateZahnarztZeiten | components/settings_manager.py:393-423 | all or nothing: the hours are replaced exactly when some day is ticked and every ticked window is non-empty; otherwise a backwards window or "no day" is reported; the stored days are exactly the ticked ones with their windows |
| Settings.SavedHoursFeedListing | components/settings_manager.py:421 | saved hours are always readable by the slot listing: a ticked day offers exactly its free grid starts, an unticked day offers nothing |
| Settings.CheckedDayWithoutSlots | components/settings_manager.py:401-415 | a ticked day without windows is accepted and stored as an empty list |
| Settings.BackwardsWindowRefused | components/settings_manager.py:406-413 | one backwards window on a ticked day refuses the whole update, even when another day is fine |
| Settings.ParseCount | components/settings_manager.py:518-524 | an accepted count is positive; every refusal is the count error |
| Settings.CountRoundTrip | components/settings_manager.py:519 | a positive number with blanks around it is accepted as that number |
| Settings.CountRejectsZero | components/settings_manager.py:520-521 | zero is refused, with or without blanks |
| Settings.CountRejectsNegative | components/settings_manager.py:520-521 | a negative number is refused, with or without blanks |
| Settings.CountRejectsBlank | components/settings_manager.py:519-523 | a blank field is refused |
| Settings.CountRejectsNonNumbers | components/settings_manager.py:519-523 | a text with any character other than digits and a leading sign is refused |
| Settings.MergeProblem | components/settings_manager.py:531-539 | with an entry of the kind present the list keeps its length; without one the new entry with material "normal" is appended at the end |
| Settings.MergeAccounting | components/settings_manager.py:531-539 | adding n units of a kind adds exactly n units of it and none of any other kind |
| Settings.MergeKeepsPositive | components/settings_manager.py:533-539 | merging a positive count keeps every entry positive |
| Settings.AddProblemMerge | components/settings_manager.py:513-542 | no patient record is an error; a bad count is refused; otherwise the patient's units of the kind grow by the count, other kinds and other records are unchanged, and positivity is kept |
| Settings.MergeTwice | components/settings_manager.py:531-539 | merging a new kind twice leaves a single entry with both counts and material "normal" |
| Settings.AddTwiceMerges | components/settings_manager.py:513-542 | adding a new kind twice on the settings page leaves one new entry carrying both counts |
| Settings.AddProblemAppend | PyQt5-GUI-main/script.py:442-464 | the older page refuses the same counts, and otherwise appends one entry without a material and changes nothing else |
| Settings.AddTwiceAppends | PyQt5-GUI-main/script.py:442-464 | adding a kind twice on the older page leaves two entries of that kind |
| Settings.UpdatePasswort | components/settings_manager.py:489-501 | no patient record is an error; a blank entry is refused; otherwise only the password changes, to a non-blank text with non-space ends |
| Settings.DentistSessionNoPasswordChange | components/main_window.py:29-34 | a dentist session has no patient record, so a password update does nothing |
| Settings.PasswordPadded | components/settings_manager.py:493 | blanks typed around a password are dropped and nothing else is |
| Settings.PasswordIdempotent | components/settings_manager.py:493-498 | setting the stored password again changes nothing |
| Settings.UpdateKrankenkasse | components/settings_manager.py:503-511 | with a patient record, only the insurance class changes; without one, nothing happens |

## Left out

- File reads and writes (`lade_daten`, `speichere_daten`, the JSON blocks): the stores are values passed in and returned. Reloading the patient list before the write in `select_time` is a separate parameter.
- Qt widgets, message boxes, navigation and styles: each "warning and return" is an error result. The choice made in a combo box is a parameter.
- The locale weekday abbreviation of the chosen date (`toString("ddd")`) and today's date: the weekday key is a parameter. Whether it matches the "Mo"/"Di"/… keys written by the settings page is not modelled.
- `update_calendar` date colouring, `add_zeitslot` and `remove_zeitslot`: these only build and remove widgets. The editor's content is the `DayEditor` list passed in.
- The editor's `setCurrentText` for a stored window that is not a whole hour between 08:00 and 18:00: the model takes the editor's hours as given.
- Floating point and the `.2f` display of the cost figures: ratios, factors and shares are exact reals.
- `strptime` leniency (one-digit fields such as "9:00"): only the two-digit "HH:MM" form that the program writes is parsed. Any other stored text is a malformed window.
- `int()` on non-ASCII digits and on underscores, and the whitespace `str.strip()` also removes beyond space, tab, newline, carriage return, vertical tab and form feed (the separators 0x1C-0x1F, non-ASCII spaces): counts are ASCII digits with an optional sign, and only those six characters count as blanks.
- Dictionary iteration order: the stored hours are a map, so "Mo–Fr order" of the saved days is not stated. The appointment list's order among entries with equal date and time is not stated.
- Settings.CollectZeiten: carries no contract of its own. Its properties are the lemmas CollectOkIff, CollectErrNamesWindow, CollectKeys and CollectWindows. Which day's error is reported when several ticked days have backwards windows is stated only through SlotTextsNamesFirst (first window within a day), not across days.
- Queries.MeineTermine: does not state that entries with equal date and time keep the order in which the store was walked.
- Login, registration, the dashboard dispatcher and the small helper modules: outside the booking engine.
- The behaviour of a 45-minute treatment: the model follows the code. The step is always 30 minutes, so "09:00-12:00" gives 09:00 to 11:00 and never 11:15.

## Findings

| source | as written | input that shows it | evidently intended | confidence | as-written member | corrected member |
|---|---|---|---|---|---|---|
| PyQt5-GUI-main/script.py:974-980 | the probe checks only the keys t, t+30, … below t + duration, so a booking that started earlier and is still running is never seen | a 120-minute "Wurzelbehandlung" booked at 09:00 on a 09:00-12:00 day; a 30-minute treatment is offered 09:30 | a start is offered only when no booking of the day overlaps its span | not executed | Slots.ProbeAdmitsOverlap | Slots.SafeShowTimeSlots |

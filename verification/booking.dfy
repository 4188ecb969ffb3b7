/** Committing a chosen slot: the booking is written into the nested
    appointment store and the patient's outstanding units of that treatment
    are consumed. */
module Booking {
  import opened Common
  import opened Records
  import opened Clock
  import opened Slots

  /** `termine[dentist][date][t]` when all three levels exist. */
  function Lookup(store: Store, dentist: string, date: string, t: nat): Option<Booking> {
    if dentist in store && date in store[dentist] && t in store[dentist][date]
    then Some(store[dentist][date][t]) else None
  }

  /** Write `b` at (dentist, date, t), creating the dentist and date levels
      when missing. An existing booking at that key is overwritten: there is
      no collision check here. */
  function Commit(store: Store, dentist: string, date: string, t: nat, b: Booking): (r: Store)
    ensures forall d, dt, u ::
      Lookup(r, d, dt, u) == (if d == dentist && dt == date && u == t then Some(b) else Lookup(store, d, dt, u))
    ensures r.Keys == store.Keys + {dentist}
    ensures r[dentist].Keys == (if dentist in store then store[dentist].Keys else {}) + {date}
    ensures forall d :: d in store && d != dentist ==> r[d] == store[d]
  {
    var days: map<string, Day> := if dentist in store then store[dentist] else map[];
    var day: Day := if date in days then days[date] else map[];
    store[dentist := days[date := day[t := b]]]
  }

  /** Seen as the day the slot listing reads, a commit adds (or replaces)
      exactly the one booking. */
  lemma CommitDay(store: Store, dentist: string, date: string, t: nat, b: Booking)
    ensures DayOf(Commit(store, dentist, date, t, b), dentist, date) == DayOf(store, dentist, date)[t := b]
  {
  }

  /** The choices of the units box: `range(1, anzahl + 1)`. */
  function UnitChoices(anzahl: int): (r: seq<int>)
    ensures |r| == if anzahl > 0 then anzahl else 0
    ensures forall i :: 0 <= i < |r| ==> r[i] == i + 1
    ensures forall n :: n in r <==> 1 <= n <= anzahl
    decreases if anzahl > 0 then anzahl else 0
  {
    if anzahl <= 0 then [] else UnitChoices(anzahl - 1) + [anzahl]
  }

  /** The patient update after a booking: the first problem of kind `art`
      loses `n` units, or disappears when it has no more than `n`. */
  function ConsumeUnits(ps: seq<Problem>, art: string, n: int): seq<Problem> {
    if ps == [] then []
    else if ps[0].art == art then
      if ps[0].anzahl > n then [ps[0].(anzahl := ps[0].anzahl - n)] + ps[1..] else ps[1..]
    else [ps[0]] + ConsumeUnits(ps[1..], art, n)
  }

  /** The loop stops at the first entry of kind `art`: it loses `n` units
      when it has more, and is removed otherwise; without such an entry
      the list is unchanged. */
  lemma {:induction false} ConsumeUnitsFirst(ps: seq<Problem>, art: string, n: int)
    ensures FirstOfKind(ps, art).None? ==> ConsumeUnits(ps, art, n) == ps
    ensures FirstOfKind(ps, art).Some? ==>
      var i := FirstOfKind(ps, art).value;
      if ps[i].anzahl > n then ConsumeUnits(ps, art, n) == ps[i := ps[i].(anzahl := ps[i].anzahl - n)]
      else ConsumeUnits(ps, art, n) == ps[..i] + ps[i + 1..]
  {
    match FirstOfKind(ps, art)
    case None => ConsumeAbsent(ps, art, n);
    case Some(i) =>
      if ps[i].anzahl > n { ConsumeDecrements(ps, art, n, i); } else { ConsumeRemoves(ps, art, n, i); }
  }

  lemma {:induction false} ConsumeAbsent(ps: seq<Problem>, art: string, n: int)
    requires FirstOfKind(ps, art).None?
    ensures ConsumeUnits(ps, art, n) == ps
  {
    if ps != [] {
      assert FirstOfKind(ps[1..], art).None?;
      ConsumeAbsent(ps[1..], art, n);
      assert [ps[0]] + ps[1..] == ps;
    }
  }

  lemma {:induction false} ConsumeDecrements(ps: seq<Problem>, art: string, n: int, i: nat)
    requires FirstOfKind(ps, art) == Some(i) && ps[i].anzahl > n
    ensures ConsumeUnits(ps, art, n) == ps[i := ps[i].(anzahl := ps[i].anzahl - n)]
  {
    if i == 0 {
      assert [ps[0].(anzahl := ps[0].anzahl - n)] + ps[1..] == ps[0 := ps[0].(anzahl := ps[0].anzahl - n)];
    } else {
      assert FirstOfKind(ps[1..], art) == Some(i - 1);
      ConsumeDecrements(ps[1..], art, n, i - 1);
      ConsumeSkipsDecrement(ps, i - 1, n);
    }
  }

  lemma {:induction false} ConsumeRemoves(ps: seq<Problem>, art: string, n: int, i: nat)
    requires FirstOfKind(ps, art) == Some(i) && ps[i].anzahl <= n
    ensures ConsumeUnits(ps, art, n) == ps[..i] + ps[i + 1..]
  {
    if i == 0 {
      assert ps[..0] + ps[1..] == ps[1..];
    } else {
      assert FirstOfKind(ps[1..], art) == Some(i - 1);
      ConsumeRemoves(ps[1..], art, n, i - 1);
      ConsumeSkipsRemoval(ps, i - 1);
    }
  }

  lemma ConsumeSkipsDecrement(ps: seq<Problem>, j: nat, n: int)
    requires j + 1 < |ps|
    ensures [ps[0]] + ps[1..][j := ps[j + 1].(anzahl := ps[j + 1].anzahl - n)]
      == ps[j + 1 := ps[j + 1].(anzahl := ps[j + 1].anzahl - n)]
  {
  }

  lemma ConsumeSkipsRemoval(ps: seq<Problem>, j: nat)
    requires j + 1 < |ps|
    ensures [ps[0]] + (ps[1..][..j] + ps[1..][j + 1..]) == ps[..j + 1] + ps[j + 2..]
  {
    assert ps[1..][..j] == ps[1..j + 1] && ps[1..][j + 1..] == ps[j + 2..];
    assert [ps[0]] + ps[1..j + 1] == ps[..j + 1];
  }

  /** Every problem left after a booking still needs at least one unit. */
  lemma ConsumeKeepsPositive(ps: seq<Problem>, art: string, n: int)
    requires PositiveUnits(ps)
    ensures PositiveUnits(ConsumeUnits(ps, art, n))
  {
    var r := ConsumeUnits(ps, art, n);
    ConsumeUnitsFirst(ps, art, n);
    if FirstOfKind(ps, art).Some? {
      var i := FirstOfKind(ps, art).value;
      if ps[i].anzahl <= n {
        forall k | 0 <= k < |r| ensures r[k].anzahl >= 1 {
          if k < i { assert r[k] == ps[k]; } else { assert r[k] == ps[k + 1]; }
        }
      }
    }
  }

  lemma {:induction false} UnitsOfAppend(a: seq<Problem>, b: seq<Problem>, art: string)
    ensures UnitsOf(a + b, art) == UnitsOf(a, art) + UnitsOf(b, art)
  {
    if a == [] {
      assert a + b == b;
    } else {
      assert (a + b)[1..] == a[1..] + b;
      UnitsOfAppend(a[1..], b, art);
    }
  }

  /** A booking of `n >= 0` units takes `min(n, anzahl)` units of its kind
      (`anzahl` being the first entry's count) and none of any other kind. */
  lemma {:induction false} ConsumeUnitsAccounting(ps: seq<Problem>, art: string, n: int, other: string)
    requires n >= 0
    requires FirstOfKind(ps, art).Some?
    ensures var a := ps[FirstOfKind(ps, art).value].anzahl;
      UnitsOf(ConsumeUnits(ps, art, n), other) ==
        UnitsOf(ps, other) - (if other != art then 0 else if n < a then n else a)
  {
    assert ps == [ps[0]] + ps[1..];
    UnitsOfAppend([ps[0]], ps[1..], art);
    UnitsOfAppend([ps[0]], ps[1..], other);
    if ps[0].art == art {
      var p := ps[0].(anzahl := ps[0].anzahl - n);
      UnitsOfAppend([p], ps[1..], art);
      UnitsOfAppend([p], ps[1..], other);
    } else {
      ConsumeUnitsAccounting(ps[1..], art, n, other);
      var rest := ConsumeUnits(ps[1..], art, n);
      UnitsOfAppend([ps[0]], rest, art);
      UnitsOfAppend([ps[0]], rest, other);
    }
  }

  /** The match is by kind, not by the problem picked in the list: with two
      crown entries, picking the second (3 teeth) and booking 3 removes the
      first (1 tooth) and leaves the picked one untouched. */
  lemma ConsumeByKindNotIndex()
    ensures ConsumeUnits([Problem("Krone", 1, None), Problem("Krone", 3, None)], "Krone", 3)
      == [Problem("Krone", 3, None)]
  {
  }

  /** Only the first entry of a kind is ever consumed: an entry of the
      same kind appended behind it stays as it was. */
  lemma {:induction false} AppendedDuplicateShadowed(ps: seq<Problem>, x: Problem, n: int)
    requires FirstOfKind(ps, x.art).Some?
    ensures ConsumeUnits(ps + [x], x.art, n) == ConsumeUnits(ps, x.art, n) + [x]
  {
    var q := ps + [x];
    assert q[0] == ps[0] && q[1..] == ps[1..] + [x];
    if ps[0].art != x.art {
      assert FirstOfKind(ps[1..], x.art).Some?;
      AppendedDuplicateShadowed(ps[1..], x, n);
    }
  }

  /** What `select_time` writes. */
  datatype Committed = Committed(store: Store, patients: seq<Patient>, me: Patient)

  /** `select_time`: book slot `t` for the session patient `me` with the
      selected problem and unit count, then store the reduced problem list
      on the first patient record with that name. `patients` is the patient
      list as re-read before the write. Only a kind missing from the
      catalogue stops it (a KeyError before anything is written). */
  function SelectTime(store: Store, patients: seq<Patient>, me: Patient, selected: Problem, n: int,
                      dentist: string, date: string, t: nat): (r: Result<Committed>)
    ensures r.Err? <==> selected.art !in Behandlungen
    ensures r.Ok? ==>
      Lookup(r.value.store, dentist, date, t) == Some(Booking(me.name, selected.art, Behandlungen[selected.art].zeit))
    ensures r.Ok? ==> forall d, dt, u :: !(d == dentist && dt == date && u == t) ==>
      Lookup(r.value.store, d, dt, u) == Lookup(store, d, dt, u)
    ensures r.Ok? ==> r.value.me == me.(probleme := ConsumeUnits(me.probleme, selected.art, n))
    ensures r.Ok? && FindPatient(patients, me.name).None? ==> r.value.patients == patients
    ensures r.Ok? && FindPatient(patients, me.name).Some? ==>
      var i := FindPatient(patients, me.name).value;
      r.value.patients == patients[i := patients[i].(probleme := r.value.me.probleme)]
  {
    match Duration(selected.art)
    case None => Err(UnknownKind)
    case Some(dauer) =>
      var store' := Commit(store, dentist, date, t, Booking(me.name, selected.art, dauer));
      var probleme := ConsumeUnits(me.probleme, selected.art, n);
      var patients' := match FindPatient(patients, me.name)
        case None => patients
        case Some(i) => patients[i := patients[i].(probleme := probleme)];
      Ok(Committed(store', patients', me.(probleme := probleme)))
  }

  /** After a booking at `t`, listing the same dentist and date again never
      offers `t`, whatever treatment (of positive duration) is asked for. */
  lemma BookedSlotDisappears(store: Store, patients: seq<Patient>, me: Patient, selected: Problem, n: int,
                             dentist: string, date: string, t: nat,
                             zeiten: map<string, seq<string>>, weekday: string, art: string)
    requires SelectTime(store, patients, me, selected, n, dentist, date, t).Ok?
    requires art in Behandlungen && Behandlungen[art].zeit > 0
    ensures var after := SelectTime(store, patients, me, selected, n, dentist, date, t).value.store;
      var slots := ShowTimeSlots(zeiten, weekday, DayOf(after, dentist, date), art);
      slots.Ok? ==> t !in slots.value
  {
    var after := SelectTime(store, patients, me, selected, n, dentist, date, t).value.store;
    assert Lookup(after, dentist, date, t).Some?;
    var day := DayOf(after, dentist, date);
    assert t in day.Keys;
    assert Probe(t, 0) == t;
  }

  /** Booking units chosen from the units box of the first entry of their
      kind takes exactly that many units of the kind. */
  lemma ChosenUnitsConsumed(ps: seq<Problem>, i: nat, n: int)
    requires i < |ps| && FirstOfKind(ps, ps[i].art) == Some(i)
    requires n in UnitChoices(ps[i].anzahl)
    ensures UnitsOf(ConsumeUnits(ps, ps[i].art, n), ps[i].art) == UnitsOf(ps, ps[i].art) - n
  {
    ConsumeUnitsAccounting(ps, ps[i].art, n, ps[i].art);
  }

  /** Booking a start the corrected listing offers never makes two
      bookings of that dentist's day overlap. */
  lemma SafeSelectKeepsNoOverlap(store: Store, patients: seq<Patient>, me: Patient, selected: Problem, n: int,
                                 dentist: string, date: string, t: nat,
                                 zeiten: map<string, seq<string>>, weekday: string)
    requires NoOverlap(DayOf(store, dentist, date))
    requires SafeShowTimeSlots(zeiten, weekday, DayOf(store, dentist, date), selected.art).Ok?
    requires t in SafeShowTimeSlots(zeiten, weekday, DayOf(store, dentist, date), selected.art).value
    ensures SelectTime(store, patients, me, selected, n, dentist, date, t).Ok?
    ensures NoOverlap(DayOf(SelectTime(store, patients, me, selected, n, dentist, date, t).value.store, dentist, date))
  {
    var day := DayOf(store, dentist, date);
    var ws := ParseWindows(zeiten[weekday]).value;
    var bk := Booking(me.name, selected.art, Behandlungen[selected.art].zeit);
    var after := SelectTime(store, patients, me, selected, n, dentist, date, t).value.store;
    assert after == Commit(store, dentist, date, t, bk);
    CommitDay(store, dentist, date, t, bk);
    SafeBookingKeepsNoOverlap(ws, day, t, bk);
  }
}

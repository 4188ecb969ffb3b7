/** Slot enumeration for one dentist on one date: candidate starts stepped
    through each opening window, then the probe against the start keys
    already booked that day. */
module Slots {
  import opened Common
  import opened Clock
  import opened Records

  /** Candidate starts and collision probes both advance by 30 minutes. */
  const Step: nat := 30

  /** Number of starts `von, von+30, ...` whose treatment ends by `bis`. */
  function StartCount(von: nat, bis: nat, dur: nat): nat {
    if von + dur <= bis then (bis - von - dur) / Step + 1 else 0
  }

  /** The outer `while current_time <= end_time - dauer` loop of one window. */
  function WindowStarts(von: nat, bis: nat, dur: nat): (r: seq<nat>)
    ensures |r| == StartCount(von, bis, dur)
    ensures forall i :: 0 <= i < |r| ==> r[i] == von + Step * i
    decreases if von <= bis then bis - von + 1 else 0
  {
    if von + dur <= bis then
      var rest := WindowStarts(von + Step, bis, dur);
      assert |rest| == (bis - von - dur) / Step by {
        var x := bis - von - dur;
        if x >= Step {
          assert (x - Step) / Step + 1 == x / Step;
        }
      }
      [von] + rest
    else []
  }

  /** `t` lies on the 30-minute grid of window `w` and a treatment of `dur`
      minutes starting there ends within it. */
  predicate OnGrid(w: Window, t: nat, dur: nat) {
    w.von <= t && (t - w.von) % Step == 0 && t + dur <= w.bis
  }

  /** A window offers exactly its on-grid starts; in particular a window
      shorter than the treatment offers nothing. */
  lemma WindowStartsExactly(w: Window, dur: nat, t: nat)
    ensures t in WindowStarts(w.von, w.bis, dur) <==> OnGrid(w, t, dur)
  {
    var r := WindowStarts(w.von, w.bis, dur);
    if t in r {
      var i :| 0 <= i < |r| && r[i] == t;
      assert (t - w.von) % Step == (Step * i) % Step == 0;
      assert i <= (w.bis - w.von - dur) / Step;
      assert Step * i <= w.bis - w.von - dur;
    }
    if OnGrid(w, t, dur) {
      var i := (t - w.von) / Step;
      assert t == w.von + Step * i;
      assert Step * i <= w.bis - w.von - dur;
      assert i <= (w.bis - w.von - dur) / Step;
      assert r[i] == t;
    }
  }

  /** `t` is an on-grid start of some window of the day. */
  predicate InSomeWindow(ws: seq<Window>, t: nat, dur: nat) {
    exists k :: 0 <= k < |ws| && OnGrid(ws[k], t, dur)
  }

  lemma InSomeWindowCons(ws: seq<Window>, t: nat, dur: nat)
    requires ws != []
    ensures InSomeWindow(ws, t, dur) <==> OnGrid(ws[0], t, dur) || InSomeWindow(ws[1..], t, dur)
  {
    if InSomeWindow(ws, t, dur) && !OnGrid(ws[0], t, dur) {
      var k :| 0 <= k < |ws| && OnGrid(ws[k], t, dur);
      assert ws[1..][k - 1] == ws[k];
    }
    if InSomeWindow(ws[1..], t, dur) {
      var k :| 0 <= k < |ws| - 1 && OnGrid(ws[1..][k], t, dur);
      assert ws[k + 1] == ws[1..][k];
    }
  }

  /** All windows of the day in list order, starts not deduplicated. */
  function DayCandidates(ws: seq<Window>, dur: nat): (r: seq<nat>)
    ensures forall t :: t in r <==> InSomeWindow(ws, t, dur)
  {
    if ws == [] then []
    else
      var head := WindowStarts(ws[0].von, ws[0].bis, dur);
      var rest := DayCandidates(ws[1..], dur);
      assert forall t :: t in head + rest <==> InSomeWindow(ws, t, dur) by {
        forall t ensures t in head + rest <==> InSomeWindow(ws, t, dur) {
          WindowStartsExactly(ws[0], dur, t);
          InSomeWindowCons(ws, t, dur);
        }
      }
      head + rest
  }

  /** Candidates follow window order: the starts of a list of windows are
      the starts of its first part followed by those of the rest. */
  lemma {:induction false} DayCandidatesAppend(a: seq<Window>, b: seq<Window>, dur: nat)
    ensures DayCandidates(a + b, dur) == DayCandidates(a, dur) + DayCandidates(b, dur)
  {
    if a == [] {
      assert a + b == b;
    } else {
      assert (a + b)[0] == a[0];
      assert (a + b)[1..] == a[1..] + b;
      DayCandidatesAppend(a[1..], b, dur);
    }
  }

  /** Moving one step along the grid keeps the offset from it. */
  lemma ModStep(x: nat)
    requires x >= Step
    ensures (x - Step) % Step == x % Step
  {
  }

  /** Each window contributes a start at most once: `t` occurs in a
      window's starts exactly once when it is on that window's grid. */
  lemma {:induction false} WindowStartsCount(von: nat, bis: nat, dur: nat, t: nat)
    ensures multiset(WindowStarts(von, bis, dur))[t] ==
      if von <= t && (t - von) % Step == 0 && t + dur <= bis then 1 else 0
    decreases if von <= bis then bis - von + 1 else 0
  {
    if von + dur <= bis {
      var rest := WindowStarts(von + Step, bis, dur);
      WindowStartsCount(von + Step, bis, dur, t);
      var head: seq<nat> := [von];
      assert WindowStarts(von, bis, dur) == head + rest;
      if t < von + Step {
        assert t !in rest;
        if von < t {
          assert 0 < t - von < Step;
        }
      } else {
        ModStep(t - von);
      }
    } else {
      assert WindowStarts(von, bis, dur) == [];
    }
  }

  /** How many windows of the day have `t` on their grid. */
  function GridCount(ws: seq<Window>, t: nat, dur: nat): nat {
    if ws == [] then 0
    else (if OnGrid(ws[0], t, dur) then 1 else 0) + GridCount(ws[1..], t, dur)
  }

  /** A candidate is repeated once per window that offers it: overlapping
      windows list the same start several times. */
  lemma {:induction false} DayCandidatesCount(ws: seq<Window>, dur: nat, t: nat)
    ensures multiset(DayCandidates(ws, dur))[t] == GridCount(ws, t, dur)
  {
    if ws != [] {
      DayCandidatesCount(ws[1..], dur, t);
      WindowStartsCount(ws[0].von, ws[0].bis, dur, t);
      assert DayCandidates(ws, dur) == WindowStarts(ws[0].von, ws[0].bis, dur) + DayCandidates(ws[1..], dur);
    }
  }

  // ---------------------------------------------------------------------
  // The collision probe.

  /** The inner `while test_time < current_time + dauer` loop: probes
      `p, p+30, ...` below `end`, and fails at the first booked one. */
  function ProbeFree(p: nat, end: nat, booked: set<nat>): bool
    decreases if p <= end then end - p + 1 else 0
  {
    if p >= end then true else p !in booked && ProbeFree(p + Step, end, booked)
  }

  /** The `j`-th probe point after `t`. */
  function Probe(t: nat, j: nat): nat {
    t + Step * j
  }

  /** No probe point of a treatment of `dur` minutes starting at `t` is a
      booked start. */
  ghost predicate GridFree(t: nat, dur: nat, booked: set<nat>) {
    forall j: nat :: Step * j < dur ==> Probe(t, j) !in booked
  }

  lemma {:induction false} ProbeFreeFrom(p: nat, end: nat, booked: set<nat>)
    ensures ProbeFree(p, end, booked) <==> forall j: nat :: p + Step * j < end ==> Probe(p, j) !in booked
    decreases if p <= end then end - p + 1 else 0
  {
    if p < end {
      ProbeFreeFrom(p + Step, end, booked);
      forall j: nat | p + Step + Step * j < end
        ensures Probe(p + Step, j) == Probe(p, j + 1)
      {
      }
      assert Probe(p, 0) == p;
      if !ProbeFree(p, end, booked) && p !in booked {
        var j: nat :| p + Step + Step * j < end && Probe(p + Step, j) in booked;
        assert Probe(p, j + 1) in booked;
      }
      if ProbeFree(p, end, booked) {
        forall j: nat | p + Step * j < end ensures Probe(p, j) !in booked {
          if j > 0 {
            assert Probe(p, j) == Probe(p + Step, j - 1);
            assert p + Step + Step * (j - 1) < end;
          }
        }
      }
    }
  }

  /** The probe loop offers `t` exactly when no booked start equals
      `t + 30*j` for a `j` with `30*j < dur`. */
  lemma ProbeFreeIff(t: nat, dur: nat, booked: set<nat>)
    ensures ProbeFree(t, t + dur, booked) <==> GridFree(t, dur, booked)
  {
    ProbeFreeFrom(t, t + dur, booked);
  }

  /** Bookings that start before `t`, or between its probe points, are never
      looked at, however long they run. */
  lemma OffGridBookingsIgnored(t: nat, dur: nat, booked: set<nat>, b: nat)
    requires b < t || (b - t) % Step != 0
    ensures ProbeFree(t, t + dur, booked + {b}) == ProbeFree(t, t + dur, booked)
  {
    ProbeFreeIff(t, dur, booked);
    ProbeFreeIff(t, dur, booked + {b});
  }

  // ---------------------------------------------------------------------
  // The whole slot list.

  /** Treatment duration from the catalogue, `BEHANDLUNGEN[art]["zeit"]`. */
  function Duration(art: string): (r: Option<nat>)
    ensures r.Some? <==> art in Behandlungen
  {
    if art in Behandlungen then Some(Behandlungen[art].zeit) else None
  }

  /** The starts of windows `ws` that pass the probe against `booked`, in
      window order. */
  function OfferedStarts(ws: seq<Window>, dur: nat, booked: set<nat>): (r: seq<nat>)
    ensures forall t :: t in r <==> InSomeWindow(ws, t, dur) && GridFree(t, dur, booked)
  {
    var cands := DayCandidates(ws, dur);
    var offered := Filter(cands, (t: nat) => ProbeFree(t, t + dur, booked));
    assert forall t: nat :: t in offered <==> InSomeWindow(ws, t, dur) && GridFree(t, dur, booked) by {
      forall t: nat ensures t in offered <==> InSomeWindow(ws, t, dur) && GridFree(t, dur, booked) {
        assert t in offered <==> t in cands && ProbeFree(t, t + dur, booked);
        ProbeFreeIff(t, dur, booked);
      }
    }
    offered
  }

  /** The offered list follows window order: the offers of a list of
      windows are those of its first part followed by those of the rest. */
  lemma OfferedStartsAppend(a: seq<Window>, b: seq<Window>, dur: nat, booked: set<nat>)
    ensures OfferedStarts(a + b, dur, booked) == OfferedStarts(a, dur, booked) + OfferedStarts(b, dur, booked)
  {
    DayCandidatesAppend(a, b, dur);
    FilterAppend(DayCandidates(a, dur), DayCandidates(b, dur), (t: nat) => ProbeFree(t, t + dur, booked));
  }

  /** A start that passes the probe is offered once per window whose grid
      holds it, and a start that fails it not at all. */
  lemma OfferedStartsCount(ws: seq<Window>, dur: nat, booked: set<nat>, t: nat)
    ensures multiset(OfferedStarts(ws, dur, booked))[t] ==
      if GridFree(t, dur, booked) then GridCount(ws, t, dur) else 0
  {
    DayCandidatesCount(ws, dur, t);
    ProbeFreeIff(t, dur, booked);
  }

  /** `show_time_slots`: the starts offered for treatment `art` on a date
      whose weekday key is `weekday`, given that day's bookings.
      A weekday without hours offers nothing, before anything is looked up;
      an unknown kind and a malformed stored window are uncaught errors. */
  function ShowTimeSlots(zeiten: map<string, seq<string>>, weekday: string, day: Day, art: string)
    : (r: Result<seq<nat>>)
    ensures weekday !in zeiten ==> r == Ok([])
    ensures weekday in zeiten ==>
      (r == Err(UnknownKind) <==> art !in Behandlungen)
    ensures weekday in zeiten && art in Behandlungen ==>
      (r == Err(MalformedWindow) <==> ParseWindows(zeiten[weekday]).None?)
    ensures weekday in zeiten && r.Ok? ==>
      var ws := ParseWindows(zeiten[weekday]).value;
      var dur := Behandlungen[art].zeit;
      forall t :: t in r.value <==> InSomeWindow(ws, t, dur) && GridFree(t, dur, day.Keys)
  {
    if weekday !in zeiten then Ok([])
    else match Duration(art)
      case None => Err(UnknownKind)
      case Some(dur) =>
        match ParseWindows(zeiten[weekday])
        case None => Err(MalformedWindow)
        case Some(ws) => Ok(OfferedStarts(ws, dur, day.Keys))
  }

  /** The listing keeps the order of the stored windows: when the day's
      texts parse to the windows `a` followed by `b`, the offers of `a`
      come first. */
  lemma ShowTimeSlotsWindowOrder(zeiten: map<string, seq<string>>, weekday: string, day: Day, art: string,
                                 a: seq<Window>, b: seq<Window>)
    requires weekday in zeiten && art in Behandlungen
    requires ParseWindows(zeiten[weekday]) == Some(a + b)
    ensures ShowTimeSlots(zeiten, weekday, day, art) ==
      Ok(OfferedStarts(a, Behandlungen[art].zeit, day.Keys) + OfferedStarts(b, Behandlungen[art].zeit, day.Keys))
  {
    OfferedStartsAppend(a, b, Behandlungen[art].zeit, day.Keys);
  }

  /** Each start is listed once per stored window whose grid holds it,
      provided the probe passes: nothing is deduplicated. */
  lemma ShowTimeSlotsRepeats(zeiten: map<string, seq<string>>, weekday: string, day: Day, art: string, t: nat)
    requires ShowTimeSlots(zeiten, weekday, day, art).Ok? && weekday in zeiten
    ensures art in Behandlungen && ParseWindows(zeiten[weekday]).Some?
    ensures var ws := ParseWindows(zeiten[weekday]).value;
      var dur := Behandlungen[art].zeit;
      multiset(ShowTimeSlots(zeiten, weekday, day, art).value)[t] ==
        if GridFree(t, dur, day.Keys) then GridCount(ws, t, dur) else 0
  {
    OfferedStartsCount(ParseWindows(zeiten[weekday]).value, Behandlungen[art].zeit, day.Keys, t);
  }

  /** An offered start is never itself a booked start, and no booked start
      lies on its grid inside the treatment: a booking just made at `b`
      removes `b` and every on-grid earlier start whose span reaches `b`. */
  lemma BookedStartsNotOffered(zeiten: map<string, seq<string>>, weekday: string, day: Day, art: string, t: nat, b: nat)
    requires ShowTimeSlots(zeiten, weekday, day, art).Ok?
    requires t in ShowTimeSlots(zeiten, weekday, day, art).value
    requires b in day && t <= b && (b - t) % Step == 0
    ensures art in Behandlungen && b >= t + Behandlungen[art].zeit
  {
    var dur := Behandlungen[art].zeit;
    var j: nat := (b - t) / Step;
    assert Probe(t, j) == b;
    assert Step * j >= dur;
  }

  // ---------------------------------------------------------------------
  // Worked examples.

  /** On a day without bookings every candidate is offered. */
  lemma EmptyDayOffersAll(ws: seq<Window>, dur: nat)
    ensures OfferedStarts(ws, dur, {}) == DayCandidates(ws, dur)
  {
    var cands := DayCandidates(ws, dur);
    forall t | t in cands ensures ProbeFree(t, t + dur, {}) {
      ProbeFreeIff(t, dur, {});
    }
    FilterKeepsAll(cands, (t: nat) => ProbeFree(t, t + dur, {}));
  }

  lemma NineToNoonParses()
    ensures ParseWindows(["09:00-12:00"]) == Some([Window(540, 720)])
  {
    var s := "09:00-12:00";
    assert s[..5] == "09:00" && s[6..] == "12:00";
    assert ParseHHMM("09:00") == Some(540);
    assert ParseHHMM("12:00") == Some(720);
    assert ParseWindow(s) == Some(Window(540, 720));
    var ss: seq<string> := [s];
    assert ss[0] == s && ParseWindows(ss[1..]) == Some([]);
    assert [Window(540, 720)] + [] == [Window(540, 720)];
  }

  lemma NineToNoonCandidates()
    ensures DayCandidates([Window(540, 720)], 30) == [540, 570, 600, 630, 660, 690]
    ensures DayCandidates([Window(540, 720)], 45) == [540, 570, 600, 630, 660]
  {
    var ws := [Window(540, 720)];
    var a := WindowStarts(540, 720, 30);
    assert |a| == 6;
    assert a == [540, 570, 600, 630, 660, 690];
    var b := WindowStarts(540, 720, 45);
    assert |b| == 5;
    assert b == [540, 570, 600, 630, 660];
    assert |ws[1..]| == 0;
    assert DayCandidates(ws, 30) == a + [];
    assert DayCandidates(ws, 45) == b + [];
  }

  lemma CatalogDurations()
    ensures Duration("Karies klein") == Some(30)
    ensures Duration("Karies Groß") == Some(45)
  {
  }

  /** One window 09:00-12:00: a 30-minute treatment gets six starts
      09:00 .. 11:30. */
  lemma NineToNoonShort()
    ensures ShowTimeSlots(map["Mo" := ["09:00-12:00"]], "Mo", map[], "Karies klein")
      == Ok([540, 570, 600, 630, 660, 690])
  {
    NineToNoonParses();
    NineToNoonCandidates();
    CatalogDurations();
    var day: Day := map[];
    assert day.Keys == {};
    EmptyDayOffersAll([Window(540, 720)], 30);
  }

  /** The same window gives a 45-minute treatment five starts,
      09:00 .. 11:00: the step stays 30 minutes whatever the duration. */
  lemma NineToNoonLong()
    ensures ShowTimeSlots(map["Mo" := ["09:00-12:00"]], "Mo", map[], "Karies Groß")
      == Ok([540, 570, 600, 630, 660])
  {
    NineToNoonParses();
    NineToNoonCandidates();
    CatalogDurations();
    var day: Day := map[];
    assert day.Keys == {};
    EmptyDayOffersAll([Window(540, 720)], 45);
  }

  /** Overlapping windows each contribute their starts: nothing is
      deduplicated. */
  lemma OverlappingWindowsRepeatStarts()
    ensures OfferedStarts([Window(540, 600), Window(540, 600)], 30, {}) == [540, 570, 540, 570]
  {
    var w := Window(540, 600);
    var a := WindowStarts(540, 600, 30);
    assert a == [540, 570];
    assert [w, w][1..] == [w];
    assert |[w][1..]| == 0;
    assert DayCandidates([w], 30) == a + [];
    assert DayCandidates([w, w], 30) == a + a;
    EmptyDayOffersAll([w, w], 30);
  }

  // ---------------------------------------------------------------------
  // The probe compared with real interval overlap.

  /** Treatments [t, t+dur) and [b, b+bdur) share a minute. */
  predicate Overlaps(t: nat, dur: nat, b: nat, bdur: nat) {
    t < b + bdur && b < t + dur
  }

  /** No two bookings of a day overlap in time. */
  ghost predicate NoOverlap(day: Day) {
    forall a, b :: a in day && b in day && a != b ==> !Overlaps(a, day[a].dauer, b, day[b].dauer)
  }

  /** As written, the probe offers 09:30 next to a two-hour root canal
      booked at 09:00: committing it makes two bookings of the day overlap. */
  lemma ProbeAdmitsOverlap()
    ensures var day := map[540 := Booking("A", "Wurzelbehandlung", 120)];
      && NoOverlap(day)
      && 570 in OfferedStarts([Window(540, 720)], 30, day.Keys)
      && !NoOverlap(day[570 := Booking("B", "Karies klein", 30)])
  {
    var day := map[540 := Booking("A", "Wurzelbehandlung", 120)];
    assert day.Keys == {540};
    assert OnGrid(Window(540, 720), 570, 30);
    ProbeFreeIff(570, 30, {540});
    assert ProbeFree(570, 600, {540});
    var day2 := day[570 := Booking("B", "Karies klein", 30)];
    assert Overlaps(540, day2[540].dauer, 570, day2[570].dauer);
  }

  /** No booking of the day overlaps [t, t+dur). */
  predicate IntervalFree(t: nat, dur: nat, day: Day) {
    forall b :: b in day ==> !Overlaps(t, dur, b, day[b].dauer)
  }

  /** Corrected slot filter: a candidate is offered only when its whole span
      is free of every booking, including ones that started earlier. */
  function SafeOfferedStarts(ws: seq<Window>, dur: nat, day: Day): (r: seq<nat>)
    ensures forall t :: t in r <==> InSomeWindow(ws, t, dur) && IntervalFree(t, dur, day)
  {
    Filter(DayCandidates(ws, dur), (t: nat) => IntervalFree(t, dur, day))
  }

  /** Booking any start the corrected filter offers keeps the day free of
      overlapping bookings. */
  lemma SafeBookingKeepsNoOverlap(ws: seq<Window>, day: Day, t: nat, bk: Booking)
    requires NoOverlap(day)
    requires t in SafeOfferedStarts(ws, bk.dauer, day)
    ensures NoOverlap(day[t := bk])
  {
    var day2 := day[t := bk];
    forall a, b | a in day2 && b in day2 && a != b
      ensures !Overlaps(a, day2[a].dauer, b, day2[b].dauer)
    {
      if a == t {
        assert !Overlaps(t, bk.dauer, b, day[b].dauer);
      } else if b == t {
        assert !Overlaps(t, bk.dauer, a, day[a].dauer);
      }
    }
  }

  /** `show_time_slots` with the corrected filter: the same errors, and a
      start is offered only when no booking of the day overlaps its span. */
  function SafeShowTimeSlots(zeiten: map<string, seq<string>>, weekday: string, day: Day, art: string)
    : (r: Result<seq<nat>>)
    ensures weekday !in zeiten ==> r == Ok([])
    ensures weekday in zeiten ==>
      (r == Err(UnknownKind) <==> art !in Behandlungen)
    ensures weekday in zeiten && art in Behandlungen ==>
      (r == Err(MalformedWindow) <==> ParseWindows(zeiten[weekday]).None?)
    ensures weekday in zeiten && r.Ok? ==>
      var ws := ParseWindows(zeiten[weekday]).value;
      var dur := Behandlungen[art].zeit;
      forall t :: t in r.value <==> InSomeWindow(ws, t, dur) && IntervalFree(t, dur, day)
  {
    if weekday !in zeiten then Ok([])
    else match Duration(art)
      case None => Err(UnknownKind)
      case Some(dur) =>
        match ParseWindows(zeiten[weekday])
        case None => Err(MalformedWindow)
        case Some(ws) => Ok(SafeOfferedStarts(ws, dur, day))
  }
}

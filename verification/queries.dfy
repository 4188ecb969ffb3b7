/** Read-only views of the patient page: the dentists that accept the
    patient's insurance class, and the patient's own appointments. */
module Queries {
  import opened Common
  import opened Text
  import opened Records
  import opened Booking

  // ---------------------------------------------------------------------
  // Dentists accepting an insurance class.

  predicate Accepts(d: Dentist, kasse: string) {
    kasse in d.behandelt
  }

  /** The booking page's dentist list for a patient of class `kasse`: every
      dentist whose accepted classes contain it, in file order. An empty
      list aborts the page with a warning. */
  function DentistsFor(dentists: seq<Dentist>, kasse: string): (r: Result<seq<Dentist>>)
    ensures r.Err? <==> forall i :: 0 <= i < |dentists| ==> !Accepts(dentists[i], kasse)
    ensures r.Err? ==> r.error == NoDentistAvailable
    ensures r.Ok? ==> forall d :: d in r.value <==> d in dentists && Accepts(d, kasse)
    ensures r.Ok? ==> forall d :: Accepts(d, kasse) ==> multiset(r.value)[d] == multiset(dentists)[d]
  {
    var offered := Filter(dentists, (d: Dentist) => Accepts(d, kasse));
    if offered == [] then
      assert forall i :: 0 <= i < |dentists| ==> dentists[i] !in offered;
      Err(NoDentistAvailable)
    else
      Ok(offered)
  }

  /** File order is kept: the offered dentists of a list split in two are
      those of the first part followed by those of the second. */
  lemma DentistsForKeepsOrder(a: seq<Dentist>, b: seq<Dentist>, kasse: string)
    requires DentistsFor(a, kasse).Ok? && DentistsFor(b, kasse).Ok?
    ensures DentistsFor(a + b, kasse) == Ok(DentistsFor(a, kasse).value + DentistsFor(b, kasse).value)
  {
    FilterAppend(a, b, (d: Dentist) => Accepts(d, kasse));
  }

  /** A dentist that accepts every class is offered to every patient. */
  lemma AllClassesDentistAlwaysOffered(dentists: seq<Dentist>, d: Dentist, kasse: string)
    requires d in dentists && kasse in Kassen
    requires forall k :: k in Kassen ==> k in d.behandelt
    ensures DentistsFor(dentists, kasse).Ok? && d in DentistsFor(dentists, kasse).value
  {
  }

  // ---------------------------------------------------------------------
  // The patient's own appointments.

  /** One row of the "my appointments" list. */
  datatype Appt = Appt(arzt: string, datum: string, zeit: nat, behandlung: string, dauer: nat)

  /** Every booking in the store whose patient is `name`, flattened. */
  function Matching(store: Store, name: string): set<Appt> {
    set d, dt, u | d in store && dt in store[d] && u in store[d][dt] && store[d][dt][u].patient == name
      :: Appt(d, dt, u, store[d][dt][u].behandlung, store[d][dt][u].dauer)
  }

  /** An appointment is listed exactly when the store holds a booking for
      `name` at its dentist, date and time with its treatment and length. */
  lemma MatchingIff(store: Store, name: string, a: Appt)
    ensures a in Matching(store, name) <==>
      Lookup(store, a.arzt, a.datum, a.zeit) == Some(Records.Booking(name, a.behandlung, a.dauer))
  {
    if Lookup(store, a.arzt, a.datum, a.zeit) == Some(Records.Booking(name, a.behandlung, a.dauer)) {
      var b := store[a.arzt][a.datum][a.zeit];
      assert a == Appt(a.arzt, a.datum, a.zeit, b.behandlung, b.dauer);
    }
  }

  /** The sort key `(datum, zeit)`: dates compare as strings; the times are
      compared as minutes, which is the same as comparing their zero-padded
      "HH:MM" keys (`Clock.FormatOrder`). */
  predicate KeyLe(a: Appt, b: Appt) {
    LexLess(a.datum, b.datum) || (a.datum == b.datum && a.zeit <= b.zeit)
  }

  predicate Sorted(s: seq<Appt>) {
    forall i, j :: 0 <= i < j < |s| ==> KeyLe(s[i], s[j])
  }

  lemma KeyLeTotal(a: Appt, b: Appt)
    ensures KeyLe(a, b) || KeyLe(b, a)
  {
    LexLessTotal(a.datum, b.datum);
  }

  lemma KeyLeTransitive(a: Appt, b: Appt, c: Appt)
    requires KeyLe(a, b) && KeyLe(b, c)
    ensures KeyLe(a, c)
  {
    if LexLess(a.datum, b.datum) && LexLess(b.datum, c.datum) {
      LexLessTransitive(a.datum, b.datum, c.datum);
    }
  }

  /** A head not above any entry keeps a sorted list sorted. */
  lemma PrependSorted(x: Appt, s: seq<Appt>)
    requires Sorted(s)
    requires forall j :: 0 <= j < |s| ==> KeyLe(x, s[j])
    ensures Sorted([x] + s)
  {
    var r := [x] + s;
    forall i, j | 0 <= i < j < |r| ensures KeyLe(r[i], r[j]) {
      assert r[j] == s[j - 1];
      if i > 0 {
        assert r[i] == s[i - 1];
      }
    }
  }

  /** Insert `x` into a sorted list, after every entry not above it. */
  function Insert(x: Appt, s: seq<Appt>): (r: seq<Appt>)
    requires Sorted(s)
    ensures Sorted(r)
    ensures multiset(r) == multiset(s) + multiset{x}
  {
    if s == [] then [x]
    else if !KeyLe(s[0], x) then
      KeyLeTotal(s[0], x);
      assert forall j :: 0 < j < |s| ==> KeyLe(s[0], s[j]);
      assert forall j :: 0 < j < |s| ==> KeyLe(x, s[j]) by {
        forall j | 0 < j < |s| ensures KeyLe(x, s[j]) {
          KeyLeTransitive(x, s[0], s[j]);
        }
      }
      PrependSorted(x, s);
      [x] + s
    else
      assert s == [s[0]] + s[1..];
      var rest := Insert(x, s[1..]);
      forall j | 0 <= j < |rest| ensures KeyLe(s[0], rest[j]) {
        assert rest[j] in multiset(rest);
        if rest[j] != x {
          assert rest[j] in multiset(s[1..]);
          var k :| 0 <= k < |s[1..]| && s[1..][k] == rest[j];
          assert s[k + 1] == rest[j];
        }
      }
      PrependSorted(s[0], rest);
      [s[0]] + rest
  }

  /** The "my appointments" page: every booking of `name` across all
      dentists and dates, each exactly once, ordered by date and time. */
  method MeineTermine(store: Store, name: string) returns (r: seq<Appt>)
    ensures forall a :: a in r <==>
      Lookup(store, a.arzt, a.datum, a.zeit) == Some(Records.Booking(name, a.behandlung, a.dauer))
    ensures forall a :: multiset(r)[a] <= 1
    ensures Sorted(r)
  {
    var all := Matching(store, name);
    var rest := all;
    r := [];
    while rest != {}
      invariant rest <= all
      invariant forall a :: multiset(r)[a] == if a in all && a !in rest then 1 else 0
      invariant Sorted(r)
      decreases |rest|
    {
      var a :| a in rest;
      r := Insert(a, r);
      rest := rest - {a};
    }
    forall a ensures a in r <==>
      Lookup(store, a.arzt, a.datum, a.zeit) == Some(Records.Booking(name, a.behandlung, a.dauer))
    {
      MatchingIff(store, name, a);
      assert a in r <==> multiset(r)[a] > 0;
    }
  }

  /** A booking just made for a patient is on that patient's list. */
  lemma CommittedBookingListed(store: Store, dentist: string, date: string, t: nat, b: Records.Booking)
    ensures Appt(dentist, date, t, b.behandlung, b.dauer) in Matching(Commit(store, dentist, date, t, b), b.patient)
  {
    MatchingIff(Commit(store, dentist, date, t, b), b.patient, Appt(dentist, date, t, b.behandlung, b.dauer));
  }

  /** Bookings of other patients never show on someone's list. */
  lemma OthersNotListed(store: Store, name: string, a: Appt, other: Records.Booking)
    requires Lookup(store, a.arzt, a.datum, a.zeit) == Some(other) && other.patient != name
    ensures a !in Matching(store, name)
  {
    MatchingIff(store, name, a);
  }
}

/** The two cost calculators. The overview (`berechne_kosten_und_zeit`)
    prices every outstanding problem from the flat catalogue and the flat
    reimbursement table; the booking page (`update_kosten`) prices one
    selected problem with a material factor and a per-material ratio. They
    are different formulas and are kept apart. */
module Costs {
  import opened Common
  import opened Records
  import opened Booking

  // ---------------------------------------------------------------------
  // Flat overview.

  datatype LineItem = LineItem(art: string, anzahl: int, kosten: int, zeit: int, einheit: string)

  datatype CostReport = CostReport(
    analyse: seq<LineItem>,
    gesamtKosten: int,
    eigenanteil: real,
    versicherungAnteil: real,
    gesamtZeit: int)

  /** `ERSTATTUNG.get(kasse, 0.7)`. */
  function FlatRatio(kasse: string): real {
    if kasse in Erstattung then Erstattung[kasse] else DefaultErstattung
  }

  predicate Known(p: Problem) {
    p.art in Behandlungen
  }

  function ItemOf(p: Problem): LineItem
    requires Known(p)
  {
    var b := Behandlungen[p.art];
    LineItem(p.art, p.anzahl, b.preis * p.anzahl, b.zeit * p.anzahl, b.einheit)
  }

  /** Reference definition of the analysis: one line per problem of a
      catalogue kind, in list order; problems of other kinds are dropped. */
  function Analyse(ps: seq<Problem>): seq<LineItem> {
    if ps == [] then []
    else (if Known(ps[0]) then [ItemOf(ps[0])] else []) + Analyse(ps[1..])
  }

  function SumKosten(items: seq<LineItem>): int {
    if items == [] then 0 else SumKosten(items[..|items| - 1]) + items[|items| - 1].kosten
  }

  function SumZeit(items: seq<LineItem>): int {
    if items == [] then 0 else SumZeit(items[..|items| - 1]) + items[|items| - 1].zeit
  }

  lemma {:induction false} AnalyseSnoc(ps: seq<Problem>, p: Problem)
    ensures Analyse(ps + [p]) == Analyse(ps) + (if Known(p) then [ItemOf(p)] else [])
  {
    if ps == [] {
      assert [p][1..] == [];
      assert ps + [p] == [p];
    } else {
      assert (ps + [p])[1..] == ps[1..] + [p];
      AnalyseSnoc(ps[1..], p);
    }
  }

  /** A line priced and timed at `anzahl` times its catalogue entry. */
  predicate Priced(it: LineItem) {
    && it.art in Behandlungen
    && it.kosten == Behandlungen[it.art].preis * it.anzahl
    && it.zeit == Behandlungen[it.art].zeit * it.anzahl
  }

  /** The analysis has one line per catalogue-kind problem ... */
  lemma {:induction false} AnalyseLength(ps: seq<Problem>)
    ensures |Analyse(ps)| == |Filter(ps, Known)|
  {
    if ps != [] {
      AnalyseLength(ps[1..]);
      assert ps == [ps[0]] + ps[1..];
      FilterAppend([ps[0]], ps[1..], Known);
      assert [ps[0]][1..] == [];
    }
  }

  /** ... and every line is priced from the catalogue. */
  lemma {:induction false} AnalysePriced(ps: seq<Problem>)
    ensures forall i :: 0 <= i < |Analyse(ps)| ==> Priced(Analyse(ps)[i])
  {
    if ps != [] {
      AnalysePriced(ps[1..]);
      var head: seq<LineItem> := if Known(ps[0]) then [ItemOf(ps[0])] else [];
      var tail := Analyse(ps[1..]);
      assert Analyse(ps) == head + tail;
      forall i | 0 <= i < |head + tail| ensures Priced((head + tail)[i]) {
        if i >= |head| {
          assert (head + tail)[i] == tail[i - |head|];
        }
      }
    }
  }

  /** Line `i` of the analysis is the `i`-th problem of a catalogue kind,
      priced: the analysis is the filter of the known problems followed by
      pricing each of them. */
  lemma {:induction false} AnalyseLine(ps: seq<Problem>, i: nat)
    requires i < |Analyse(ps)|
    ensures i < |Filter(ps, Known)| && Known(Filter(ps, Known)[i])
    ensures Analyse(ps)[i] == ItemOf(Filter(ps, Known)[i])
  {
    var items := Analyse(ps[1..]);
    var kept := Filter(ps[1..], Known);
    if Known(ps[0]) {
      assert Analyse(ps) == [ItemOf(ps[0])] + items;
      assert Filter(ps, Known) == [ps[0]] + kept;
      if i > 0 {
        AnalyseLine(ps[1..], i - 1);
      }
    } else {
      assert Analyse(ps) == items;
      assert Filter(ps, Known) == kept;
      AnalyseLine(ps[1..], i);
    }
  }

  /** `berechne_kosten_und_zeit`: no patient gives no report; otherwise the
      totals are the sums over the catalogue-kind lines, and the insurance
      and own shares split the total by the flat ratio of the patient's
      class (0.7 for a class the table does not know). */
  method BerechneKostenUndZeit(patient: Option<Patient>) returns (r: Option<CostReport>)
    ensures r.None? <==> patient.None?
    ensures r.Some? ==> r.value.analyse == Analyse(patient.value.probleme)
    ensures r.Some? ==> r.value.gesamtKosten == SumKosten(r.value.analyse)
    ensures r.Some? ==> r.value.gesamtZeit == SumZeit(r.value.analyse)
    ensures r.Some? ==>
      r.value.versicherungAnteil == (r.value.gesamtKosten as real) * FlatRatio(patient.value.krankenkasse)
    ensures r.Some? ==> r.value.eigenanteil + r.value.versicherungAnteil == r.value.gesamtKosten as real
  {
    if patient.None? {
      return None;
    }
    var erstattung := FlatRatio(patient.value.krankenkasse);
    var analyse, kosten, zeit := ScanProblems(patient.value.probleme);
    var eigenanteil := (kosten as real) * (1.0 - erstattung);
    var versicherung := (kosten as real) * erstattung;
    ShareSplit(kosten as real, erstattung);
    return Some(CostReport(analyse, kosten, eigenanteil, versicherung, zeit));
  }

  /** The loop over the problems: the analysis lines with their running
      cost and time totals. */
  method ScanProblems(ps: seq<Problem>) returns (analyse: seq<LineItem>, kosten: int, zeit: int)
    ensures analyse == Analyse(ps)
    ensures kosten == SumKosten(analyse) && zeit == SumZeit(analyse)
  {
    analyse := [];
    kosten := 0;
    zeit := 0;
    var i := 0;
    while i < |ps|
      invariant 0 <= i <= |ps|
      invariant analyse == Analyse(ps[..i])
      invariant kosten == SumKosten(analyse)
      invariant zeit == SumZeit(analyse)
    {
      var p := ps[i];
      AnalyseStep(ps, i);
      if p.art in Behandlungen {
        var item := ItemOf(p);
        SumsSnoc(analyse, item);
        analyse := analyse + [item];
        kosten := kosten + item.kosten;
        zeit := zeit + item.zeit;
      }
      i := i + 1;
    }
    assert ps[..i] == ps;
  }

  /** One more problem extends the analysis by its line, if it has one. */
  lemma AnalyseStep(ps: seq<Problem>, i: nat)
    requires i < |ps|
    ensures Analyse(ps[..i + 1]) == Analyse(ps[..i]) + (if Known(ps[i]) then [ItemOf(ps[i])] else [])
  {
    assert ps[..i + 1] == ps[..i] + [ps[i]];
    AnalyseSnoc(ps[..i], ps[i]);
  }

  /** One more line adds its cost and time to the sums. */
  lemma SumsSnoc(items: seq<LineItem>, it: LineItem)
    ensures SumKosten(items + [it]) == SumKosten(items) + it.kosten
    ensures SumZeit(items + [it]) == SumZeit(items) + it.zeit
  {
    assert (items + [it])[..|items|] == items;
  }

  /** The two shares of a total add up to it. */
  lemma ShareSplit(k: real, e: real)
    ensures k * (1.0 - e) + k * e == k
  {
  }

  /** A problem of a kind the catalogue lacks adds nothing to the overview.
      The settings page offers "Karies groß" while the catalogue spells it
      "Karies Groß", so such a problem is silently left out. */
  lemma UnknownKindSkipped(ps: seq<Problem>, p: Problem)
    requires p.art !in Behandlungen
    ensures Analyse(ps + [p]) == Analyse(ps)
  {
    AnalyseSnoc(ps, p);
  }

  lemma SettingsSpellingUnknown()
    ensures "Karies groß" !in Behandlungen
    ensures "Karies Groß" in Behandlungen
  {
    assert "Karies groß" != "Karies Groß" by {
      assert "Karies groß"[7] != "Karies Groß"[7];
    }
  }

  /** Two teeth with a small cavity under statutory insurance: 100 euros in
      all, 70 paid by the insurance, 30 by the patient, 60 minutes. */
  lemma SmallCavityExample()
    ensures var items := Analyse([Problem("Karies klein", 2, None)]);
      && SumKosten(items) == 100
      && SumZeit(items) == 60
    ensures 100.0 * FlatRatio("gesetzlich") == 70.0
    ensures 100.0 * (1.0 - FlatRatio("gesetzlich")) == 30.0
  {
    var p := Problem("Karies klein", 2, None);
    var ps := [p];
    assert ps[1..] == [];
    assert Known(p) by {
      assert Behandlungen.Keys == {"Karies klein", "Karies Groß", "Teilkrone", "Krone", "Wurzelbehandlung"};
    }
    var items := Analyse(ps);
    assert items == [ItemOf(p)] + Analyse([]);
    assert items == [ItemOf(p)];
    assert items[..0] == [];
  }

  /** An insurance class outside the table is reimbursed at 70%. */
  lemma UnknownClassDefault(kasse: string)
    requires kasse !in Kassen
    ensures FlatRatio(kasse) == 0.7
  {
    assert Erstattung.Keys == {"gesetzlich", "privat", "freiwillig gesetzlich"};
  }

  // ---------------------------------------------------------------------
  // Material-aware quote on the booking page.

  /** One row of the materials table: price factor and reimbursement ratio
      per insurance class. The table is read-only input. */
  datatype Material = Material(faktor: real, erstattung: map<string, real>)

  datatype Quote = Quote(gesamtkosten: real, versicherung: real, eigenanteil: real)

  /** `update_kosten` for the problem at `problemIndex` and the units box
      entry at `anzahlIndex` (whose text is `anzahlIndex + 1`). Either index
      being -1 (an empty combo box) shows nothing; every table lookup has no
      default and fails on a missing key. */
  function UpdateKosten(me: Patient, problemIndex: int, anzahlIndex: int, material: string,
                        materialien: map<string, Material>): (r: Result<Quote>)
    ensures r == Err(NoSelection) <==> problemIndex < 0 || anzahlIndex < 0
    ensures r.Ok? <==>
      && 0 <= problemIndex < |me.probleme|
      && 0 <= anzahlIndex < me.probleme[problemIndex].anzahl
      && me.probleme[problemIndex].art in Behandlungen
      && material in materialien
      && me.krankenkasse in materialien[material].erstattung
    ensures r.Ok? ==>
      var p := me.probleme[problemIndex];
      var m := materialien[material];
      && r.value.gesamtkosten == (Behandlungen[p.art].preis as real) * m.faktor * ((anzahlIndex + 1) as real)
      && r.value.versicherung == r.value.gesamtkosten * m.erstattung[me.krankenkasse]
      && r.value.eigenanteil + r.value.versicherung == r.value.gesamtkosten
  {
    if problemIndex < 0 || anzahlIndex < 0 then Err(NoSelection)
    else if problemIndex >= |me.probleme| then Err(BadIndex)
    else
      var p := me.probleme[problemIndex];
      var choices := UnitChoices(p.anzahl);
      if anzahlIndex >= |choices| then Err(BadIndex)
      else
        var anzahl := choices[anzahlIndex];
        if p.art !in Behandlungen then Err(UnknownKind)
        else if material !in materialien then Err(UnknownMaterial)
        else if me.krankenkasse !in materialien[material].erstattung then Err(UnknownInsurance)
        else
          var grundkosten := Behandlungen[p.art].preis as real;
          var faktor := materialien[material].faktor;
          var erstattung := materialien[material].erstattung[me.krankenkasse];
          var gesamt := grundkosten * faktor * (anzahl as real);
          Ok(Quote(gesamt, gesamt * erstattung, gesamt * (1.0 - erstattung)))
  }

  /** The two formulas meet only in a special case: for a patient with a
      single problem, quoting all its units with a material whose factor is 1
      and whose ratio equals the flat ratio gives the overview's figures. */
  lemma FormulasAgreeWhenNeutral(me: Patient, material: string, materialien: map<string, Material>)
    requires |me.probleme| == 1 && Known(me.probleme[0]) && me.probleme[0].anzahl >= 1
    requires material in materialien && materialien[material].faktor == 1.0
    requires me.krankenkasse in materialien[material].erstattung
    requires materialien[material].erstattung[me.krankenkasse] == FlatRatio(me.krankenkasse)
    ensures var q := UpdateKosten(me, 0, me.probleme[0].anzahl - 1, material, materialien);
      var items := Analyse(me.probleme);
      && q.Ok?
      && q.value.gesamtkosten == SumKosten(items) as real
      && q.value.versicherung == (SumKosten(items) as real) * FlatRatio(me.krankenkasse)
  {
    var p := me.probleme[0];
    AnalyseSnoc([], p);
    assert [] + [p] == me.probleme;
    assert Filter([], Known) == [];
    var items := Analyse(me.probleme);
    assert items == [ItemOf(p)];
    assert SumKosten(items) == Behandlungen[p.art].preis * p.anzahl;
    assert (Behandlungen[p.art].preis * p.anzahl) as real == (Behandlungen[p.art].preis as real) * (p.anzahl as real);
  }

  /** With a material ratio other than the flat one the two views disagree:
      statutory cover of 50% for "normal" quotes 25 euros of insurance for
      one small cavity where the overview shows 35. */
  lemma FormulasDiverge()
    ensures var me := Patient("P", "", false, "gesetzlich", [Problem("Karies klein", 1, None)]);
      var table := map["normal" := Material(1.0, map["gesetzlich" := 0.5])];
      && UpdateKosten(me, 0, 0, "normal", table) == Ok(Quote(50.0, 25.0, 25.0))
      && 50.0 * FlatRatio("gesetzlich") == 35.0
  {
    var me := Patient("P", "", false, "gesetzlich", [Problem("Karies klein", 1, None)]);
    assert UnitChoices(1) == [1];
  }
}

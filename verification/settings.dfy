/** The settings page: a dentist edits name, accepted insurance classes and
    weekly hours; a patient adds problems and changes the password. Every
    operation works on the session's own record (an index into the loaded
    list, absent when the session has none) and either writes the whole
    change or nothing. */
module Settings {
  import opened Common
  import opened Text
  import opened Clock
  import opened Records
  import opened Slots
  import opened Booking
  import opened Queries

  // ---------------------------------------------------------------------
  // Dentist name.

  predicate UniqueNames(ds: seq<Dentist>) {
    forall i, j :: 0 <= i < j < |ds| ==> ds[i].name != ds[j].name
  }

  /** Another record carries `name`. The program compares whole records, so
      a record equal in every field to the session's own does not count. */
  predicate NameTakenBy(ds: seq<Dentist>, i: nat, name: string)
    requires i < |ds|
  {
    exists j :: 0 <= j < |ds| && ds[j].name == name && ds[j] != ds[i]
  }

  /** `update_zahnarzt_name`: the stripped entry must be non-blank and not
      the name of another dentist; only the name field changes. */
  function UpdateZahnarztName(ds: seq<Dentist>, me: Option<nat>, raw: string): (r: Result<seq<Dentist>>)
    requires me.Some? ==> me.value < |ds|
    ensures me.None? ==> r == Err(NoRecord)
    ensures me.Some? ==> (r == Err(EmptyName) <==> AllSpace(raw))
    ensures me.Some? && !AllSpace(raw) ==> (r == Err(NameTaken) <==> NameTakenBy(ds, me.value, Strip(raw)))
    ensures r.Ok? ==> me.Some? && |r.value| == |ds|
    ensures r.Ok? ==> forall k :: 0 <= k < |ds| && k != me.value ==> r.value[k] == ds[k]
    ensures r.Ok? ==>
      var old_, new_ := ds[me.value], r.value[me.value];
      && new_.name == Strip(raw) && new_.name != []
      && new_.passwort == old_.passwort && new_.passwortGeaendert == old_.passwortGeaendert
      && new_.behandelt == old_.behandelt && new_.zeiten == old_.zeiten
  {
    match me
    case None => Err(NoRecord)
    case Some(i) =>
      var name := Strip(raw);
      if name == [] then Err(EmptyName)
      else if NameTakenBy(ds, i, name) then Err(NameTaken)
      else Ok(ds[i := ds[i].(name := name)])
  }

  /** Renaming never makes two dentists share a name. */
  lemma RenameKeepsNamesUnique(ds: seq<Dentist>, me: Option<nat>, raw: string)
    requires me.Some? ==> me.value < |ds|
    requires UniqueNames(ds)
    requires UpdateZahnarztName(ds, me, raw).Ok?
    ensures UniqueNames(UpdateZahnarztName(ds, me, raw).value)
  {
    var r := UpdateZahnarztName(ds, me, raw).value;
    var i := me.value;
    forall a, b | 0 <= a < b < |r| ensures r[a].name != r[b].name {
      if a == i || b == i {
        var k := if a == i then b else a;
        assert r[k] == ds[k];
        assert !NameTakenBy(ds, i, Strip(raw));
      }
    }
  }

  /** Bookings are keyed by the dentist's name and are not moved: after a
      rename to a name the store does not know, a start booked under the old
      name is offered again (for any catalogue kind, on any weekday whose
      hours put it on the grid). */
  lemma RenameForgetsBookings(store: Store, ds: seq<Dentist>, me: Option<nat>, raw: string,
                              date: string, weekday: string, art: string, t: nat)
    requires me.Some? ==> me.value < |ds|
    requires UpdateZahnarztName(ds, me, raw).Ok? && Strip(raw) !in store
    requires art in Behandlungen && weekday in ds[me.value].zeiten
    requires ParseWindows(ds[me.value].zeiten[weekday]).Some?
    requires InSomeWindow(ParseWindows(ds[me.value].zeiten[weekday]).value, t, Behandlungen[art].zeit)
    ensures var d := UpdateZahnarztName(ds, me, raw).value[me.value];
      var s := ShowTimeSlots(d.zeiten, weekday, DayOf(store, d.name, date), art);
      s.Ok? && t in s.value
  {
    var d := UpdateZahnarztName(ds, me, raw).value[me.value];
    assert DayOf(store, d.name, date) == map[];
    assert GridFree(t, Behandlungen[art].zeit, {});
  }

  // ---------------------------------------------------------------------
  // Accepted insurance classes.

  /** Position of a class in the fixed list of classes. */
  function Rank(k: string): nat {
    if k == Kassen[0] then 0 else if k == Kassen[1] then 1 else 2
  }

  /** The ticked classes, in the fixed order of the checkboxes. */
  function CheckedKassen(checked: set<string>): (r: seq<string>)
    ensures forall k :: k in r <==> k in Kassen && k in checked
    ensures forall a, b :: 0 <= a < b < |r| ==> Rank(r[a]) < Rank(r[b])
  {
    (if Kassen[0] in checked then [Kassen[0]] else [])
      + (if Kassen[1] in checked then [Kassen[1]] else [])
      + (if Kassen[2] in checked then [Kassen[2]] else [])
  }

  /** `update_zahnarzt_kassen`: the accepted classes become the ticked ones
      in checkbox order; ticking none is refused. */
  function UpdateZahnarztKassen(ds: seq<Dentist>, me: Option<nat>, checked: set<string>): (r: Result<seq<Dentist>>)
    requires me.Some? ==> me.value < |ds|
    ensures me.None? ==> r == Err(NoRecord)
    ensures me.Some? ==> (r == Err(EmptySelection) <==> forall k :: k in Kassen ==> k !in checked)
    ensures r.Ok? ==> me.Some? && |r.value| == |ds|
    ensures r.Ok? ==> forall k :: 0 <= k < |ds| && k != me.value ==> r.value[k] == ds[k]
    ensures r.Ok? ==>
      var old_, new_ := ds[me.value], r.value[me.value];
      && (forall k :: k in new_.behandelt <==> k in Kassen && k in checked)
      && (forall a, b :: 0 <= a < b < |new_.behandelt| ==> Rank(new_.behandelt[a]) < Rank(new_.behandelt[b]))
      && new_ == old_.(behandelt := new_.behandelt)
  {
    match me
    case None => Err(NoRecord)
    case Some(i) =>
      var behandelt := CheckedKassen(checked);
      if behandelt == [] then
        assert forall k :: k in Kassen ==> k !in checked by {
          forall k | k in Kassen ensures k !in checked {
            assert k !in behandelt;
          }
        }
        Err(EmptySelection)
      else Ok(ds[i := ds[i].(behandelt := behandelt)])
  }

  /** After the update a patient of class `kasse` is offered this dentist
      exactly when `kasse` was ticked. */
  lemma KassenControlVisibility(ds: seq<Dentist>, me: Option<nat>, checked: set<string>, kasse: string)
    requires me.Some? ==> me.value < |ds|
    requires UpdateZahnarztKassen(ds, me, checked).Ok? && kasse in Kassen
    ensures var after := UpdateZahnarztKassen(ds, me, checked).value;
      var offered := DentistsFor(after, kasse);
      (offered.Ok? && after[me.value] in offered.value) <==> kasse in checked
  {
    var after := UpdateZahnarztKassen(ds, me, checked).value;
    assert after[me.value] in after;
  }

  // ---------------------------------------------------------------------
  // Weekly hours.

  /** One "von"/"bis" pair of combo boxes, as whole hours. */
  datatype HourSlot = HourSlot(von: nat, bis: nat)

  /** The editor of one weekday: its key, its checkbox and its slots. */
  datatype DayEditor = DayEditor(tag: string, checked: bool, slots: seq<HourSlot>)

  /** Every combo box holds one of the editor's hour choices. */
  predicate EditorSlots(slots: seq<HourSlot>) {
    forall k :: 0 <= k < |slots| ==> EditorHour(slots[k].von) && EditorHour(slots[k].bis)
  }

  /** The shape the settings page builds: one editor per weekday key, keys
      pairwise distinct, every slot holding editor hours. */
  predicate WellFormedEditor(editor: seq<DayEditor>) {
    && (forall i, j :: 0 <= i < j < |editor| ==> editor[i].tag != editor[j].tag)
    && (forall i :: 0 <= i < |editor| ==> EditorSlots(editor[i].slots))
  }

  predicate ValidSlots(slots: seq<HourSlot>) {
    forall k :: 0 <= k < |slots| ==> slots[k].von < slots[k].bis
  }

  /** Every window of every ticked day is non-empty. */
  predicate CheckedValid(editor: seq<DayEditor>) {
    forall i :: 0 <= i < |editor| && editor[i].checked ==> ValidSlots(editor[i].slots)
  }

  predicate AnyChecked(editor: seq<DayEditor>) {
    exists i :: 0 <= i < |editor| && editor[i].checked
  }

  /** The windows a slot list stands for, in minutes. */
  function HourWindows(slots: seq<HourSlot>): (r: seq<Window>)
    ensures |r| == |slots|
    ensures forall k :: 0 <= k < |r| ==> r[k] == Window(slots[k].von * 60, slots[k].bis * 60)
  {
    if slots == [] then [] else [Window(slots[0].von * 60, slots[0].bis * 60)] + HourWindows(slots[1..])
  }

  /** The stored text of one slot, `f"{von}-{bis}"` of the two labels. */
  function SlotText(s: HourSlot): (r: string)
    requires EditorHour(s.von) && EditorHour(s.bis)
    ensures ParseWindow(r) == Some(Window(s.von * 60, s.bis * 60))
  {
    var w := Window(s.von * 60, s.bis * 60);
    ParseFormatWindow(w);
    HourLabel(s.von) + "-" + HourLabel(s.bis)
  }

  lemma ValidSlotsCons(slots: seq<HourSlot>)
    requires slots != []
    ensures ValidSlots(slots) <==> slots[0].von < slots[0].bis && ValidSlots(slots[1..])
  {
    if slots[0].von < slots[0].bis && ValidSlots(slots[1..]) {
      forall k | 0 <= k < |slots| ensures slots[k].von < slots[k].bis {
        if k > 0 { assert slots[k] == slots[1..][k - 1]; }
      }
    }
    if ValidSlots(slots) {
      forall k | 0 <= k < |slots[1..]| ensures slots[1..][k].von < slots[1..][k].bis {
        assert slots[1..][k] == slots[k + 1];
      }
    }
  }

  lemma TailEditorSlots(slots: seq<HourSlot>)
    requires slots != [] && EditorSlots(slots)
    ensures EditorSlots(slots[1..])
  {
    forall k | 0 <= k < |slots[1..]| ensures EditorHour(slots[1..][k].von) && EditorHour(slots[1..][k].bis) {
      assert slots[1..][k] == slots[k + 1];
    }
  }

  /** The slots of one ticked day, checked in order: the first window whose
      "von" label is not below its "bis" label aborts the whole update. */
  function SlotTexts(tag: string, slots: seq<HourSlot>): (r: Result<seq<string>>)
    requires EditorSlots(slots)
    ensures r.Ok? <==> ValidSlots(slots)
    ensures r.Ok? ==> ParseWindows(r.value) == Some(HourWindows(slots))
  {
    if slots == [] then Ok([])
    else
      var s := slots[0];
      HourLabelOrder(s.von, s.bis);
      ValidSlotsCons(slots);
      TailEditorSlots(slots);
      if !LexLess(HourLabel(s.von), HourLabel(s.bis)) then
        Err(InvalidWindow(tag, s.von, s.bis))
      else
        match SlotTexts(tag, slots[1..])
        case Err(e) => Err(e)
        case Ok(rest) =>
          var texts := [SlotText(s)] + rest;
          assert texts[1..] == rest;
          Ok(texts)
  }

  /** A refused day names its first backwards window. */
  lemma {:induction false} SlotTextsNamesFirst(tag: string, slots: seq<HourSlot>)
    requires EditorSlots(slots) && SlotTexts(tag, slots).Err?
    ensures exists k :: (0 <= k < |slots| && slots[k].von >= slots[k].bis
      && SlotTexts(tag, slots).error == InvalidWindow(tag, slots[k].von, slots[k].bis)
      && ValidSlots(slots[..k]))
  {
    var s := slots[0];
    HourLabelOrder(s.von, s.bis);
    if s.von >= s.bis {
      assert slots[..0] == [];
      assert ValidSlots(slots[..0]);
    } else {
      TailEditorSlots(slots);
      SlotTextsSkipsValid(tag, slots);
      SlotTextsNamesFirst(tag, slots[1..]);
      var k :| 0 <= k < |slots[1..]| && slots[1..][k].von >= slots[1..][k].bis
        && SlotTexts(tag, slots[1..]).error == InvalidWindow(tag, slots[1..][k].von, slots[1..][k].bis)
        && ValidSlots(slots[1..][..k]);
      ValidPrefixCons(slots, k);
    }
  }

  /** A valid first window passes the error of the rest through. */
  lemma SlotTextsSkipsValid(tag: string, slots: seq<HourSlot>)
    requires EditorSlots(slots) && slots != [] && slots[0].von < slots[0].bis
    requires EditorSlots(slots[1..]) && SlotTexts(tag, slots).Err?
    ensures SlotTexts(tag, slots[1..]).Err?
      && SlotTexts(tag, slots).error == SlotTexts(tag, slots[1..]).error
  {
    HourLabelOrder(slots[0].von, slots[0].bis);
  }

  lemma ValidPrefixCons(slots: seq<HourSlot>, k: nat)
    requires k + 1 < |slots| && slots[0].von < slots[0].bis && ValidSlots(slots[1..][..k])
    ensures slots[k + 1] == slots[1..][k] && ValidSlots(slots[..k + 1])
  {
    var pre := slots[..k + 1];
    assert pre == [slots[0]] + slots[1..][..k];
    ValidSlotsCons(pre);
  }

  lemma TailWellFormed(editor: seq<DayEditor>)
    requires editor != [] && WellFormedEditor(editor)
    ensures WellFormedEditor(editor[1..])
  {
    forall i | 0 <= i < |editor[1..]| ensures EditorSlots(editor[1..][i].slots) {
      assert editor[1..][i] == editor[i + 1];
    }
  }

  /** The hours of all ticked days, keyed by weekday; unticked days are left
      out, and the first invalid window (in editor order) aborts. */
  function CollectZeiten(editor: seq<DayEditor>): Result<map<string, seq<string>>>
    requires WellFormedEditor(editor)
  {
    if editor == [] then Ok(map[])
    else
      var e := editor[0];
      TailWellFormed(editor);
      var head: Result<seq<string>> := if e.checked then SlotTexts(e.tag, e.slots) else Ok([]);
      if head.Err? then Err(head.error)
      else
        match CollectZeiten(editor[1..])
        case Err(err) => Err(err)
        case Ok(rest) => Ok(if e.checked then rest[e.tag := head.value] else rest)
  }

  lemma CheckedValidCons(editor: seq<DayEditor>)
    requires editor != []
    ensures CheckedValid(editor) <==>
      (editor[0].checked ==> ValidSlots(editor[0].slots)) && CheckedValid(editor[1..])
  {
    if (editor[0].checked ==> ValidSlots(editor[0].slots)) && CheckedValid(editor[1..]) {
      forall i | 0 <= i < |editor| && editor[i].checked ensures ValidSlots(editor[i].slots) {
        if i > 0 { assert editor[i] == editor[1..][i - 1]; }
      }
    }
    if CheckedValid(editor) {
      forall i | 0 <= i < |editor[1..]| && editor[1..][i].checked ensures ValidSlots(editor[1..][i].slots) {
        assert editor[1..][i] == editor[i + 1];
      }
    }
  }

  /** The hours are collected exactly when every ticked day's windows are
      all non-empty. */
  lemma {:induction false} CollectOkIff(editor: seq<DayEditor>)
    requires WellFormedEditor(editor)
    ensures CollectZeiten(editor).Ok? <==> CheckedValid(editor)
  {
    if editor != [] {
      TailWellFormed(editor);
      CollectOkIff(editor[1..]);
      CheckedValidCons(editor);
    }
  }

  /** A refusal names a backwards window of a ticked day. */
  lemma {:induction false} CollectErrNamesWindow(editor: seq<DayEditor>)
    requires WellFormedEditor(editor) && CollectZeiten(editor).Err?
    ensures exists i, k :: (0 <= i < |editor| && editor[i].checked && 0 <= k < |editor[i].slots|
      && CollectZeiten(editor).error == InvalidWindow(editor[i].tag, editor[i].slots[k].von, editor[i].slots[k].bis)
      && editor[i].slots[k].von >= editor[i].slots[k].bis)
  {
    var e := editor[0];
    TailWellFormed(editor);
    var head: Result<seq<string>> := if e.checked then SlotTexts(e.tag, e.slots) else Ok([]);
    if head.Err? {
      SlotTextsNamesFirst(e.tag, e.slots);
      var k :| 0 <= k < |e.slots| && e.slots[k].von >= e.slots[k].bis
        && head.error == InvalidWindow(e.tag, e.slots[k].von, e.slots[k].bis);
      assert editor[0].slots[k] == e.slots[k];
    } else {
      CollectErrNamesWindow(editor[1..]);
      var i, k :| 0 <= i < |editor[1..]| && editor[1..][i].checked && 0 <= k < |editor[1..][i].slots|
        && CollectZeiten(editor[1..]).error == InvalidWindow(editor[1..][i].tag, editor[1..][i].slots[k].von, editor[1..][i].slots[k].bis)
        && editor[1..][i].slots[k].von >= editor[1..][i].slots[k].bis;
      assert editor[i + 1] == editor[1..][i];
    }
  }

  /** The collected map has a key for exactly the ticked days. */
  lemma {:induction false} CollectKeys(editor: seq<DayEditor>, tag: string)
    requires WellFormedEditor(editor) && CollectZeiten(editor).Ok?
    ensures tag in CollectZeiten(editor).value <==>
      exists i :: 0 <= i < |editor| && editor[i].checked && editor[i].tag == tag
  {
    if editor != [] {
      TailWellFormed(editor);
      CollectKeys(editor[1..], tag);
      if exists i :: 0 <= i < |editor[1..]| && editor[1..][i].checked && editor[1..][i].tag == tag {
        var i :| 0 <= i < |editor[1..]| && editor[1..][i].checked && editor[1..][i].tag == tag;
        assert editor[i + 1] == editor[1..][i];
      }
      if exists i :: 0 <= i < |editor| && editor[i].checked && editor[i].tag == tag {
        var i :| 0 <= i < |editor| && editor[i].checked && editor[i].tag == tag;
        if i > 0 { assert editor[1..][i - 1] == editor[i]; }
      }
    }
  }

  /** Each ticked day stores the texts of its own windows. */
  lemma {:induction false} CollectWindows(editor: seq<DayEditor>, i: nat)
    requires WellFormedEditor(editor) && CollectZeiten(editor).Ok?
    requires i < |editor| && editor[i].checked
    ensures editor[i].tag in CollectZeiten(editor).value
    ensures ParseWindows(CollectZeiten(editor).value[editor[i].tag]) == Some(HourWindows(editor[i].slots))
  {
    TailWellFormed(editor);
    var rest := CollectZeiten(editor[1..]).value;
    if i == 0 {
      assert SlotTexts(editor[0].tag, editor[0].slots).Ok?;
    } else {
      assert editor[1..][i - 1] == editor[i];
      CollectWindows(editor[1..], i - 1);
      assert editor[i].tag != editor[0].tag;
    }
  }

  /** `update_zahnarzt_zeiten`: all or nothing. The hours are replaced only
      when every window of every ticked day is non-empty and at least one
      day is ticked (a ticked day without windows counts). */
  function UpdateZahnarztZeiten(ds: seq<Dentist>, me: Option<nat>, editor: seq<DayEditor>): (r: Result<seq<Dentist>>)
    requires me.Some? ==> me.value < |ds|
    requires WellFormedEditor(editor)
    ensures me.None? ==> r == Err(NoRecord)
    ensures r.Ok? <==> me.Some? && CheckedValid(editor) && AnyChecked(editor)
    ensures me.Some? && CheckedValid(editor) && !AnyChecked(editor) ==> r == Err(NoDayChecked)
    ensures me.Some? && !CheckedValid(editor) ==> r.Err? && r.error.InvalidWindow?
    ensures r.Ok? ==> |r.value| == |ds|
    ensures r.Ok? ==> forall k :: 0 <= k < |ds| && k != me.value ==> r.value[k] == ds[k]
    ensures r.Ok? ==>
      var old_, new_ := ds[me.value], r.value[me.value];
      && new_ == old_.(zeiten := new_.zeiten)
      && (forall tag :: tag in new_.zeiten <==> exists i :: 0 <= i < |editor| && editor[i].checked && editor[i].tag == tag)
      && (forall i :: 0 <= i < |editor| && editor[i].checked ==>
            ParseWindows(new_.zeiten[editor[i].tag]) == Some(HourWindows(editor[i].slots)))
  {
    match me
    case None => Err(NoRecord)
    case Some(i) =>
      CollectOkIff(editor);
      match CollectZeiten(editor)
      case Err(e) =>
        CollectErrNamesWindow(editor);
        Err(e)
      case Ok(zeiten) =>
        assert forall tag :: tag in zeiten <==>
          exists j :: 0 <= j < |editor| && editor[j].checked && editor[j].tag == tag by {
          forall tag ensures tag in zeiten <==>
            exists j :: 0 <= j < |editor| && editor[j].checked && editor[j].tag == tag {
            CollectKeys(editor, tag);
          }
        }
        assert forall j :: 0 <= j < |editor| && editor[j].checked ==>
          ParseWindows(zeiten[editor[j].tag]) == Some(HourWindows(editor[j].slots)) by {
          forall j | 0 <= j < |editor| && editor[j].checked
            ensures ParseWindows(zeiten[editor[j].tag]) == Some(HourWindows(editor[j].slots))
          {
            CollectWindows(editor, j);
          }
        }
        if zeiten.Keys == {} then
          assert !AnyChecked(editor) by {
            forall j | 0 <= j < |editor| ensures !editor[j].checked {
              assert editor[j].tag !in zeiten;
            }
          }
          Err(NoDayChecked)
        else
          Ok(ds[i := ds[i].(zeiten := zeiten)])
  }

  /** Hours saved by the editor are always readable by the slot listing: on
      a ticked day the listing never fails on a malformed window and offers
      exactly the free grid starts of the chosen hours; on an unticked day
      it offers nothing. */
  lemma SavedHoursFeedListing(ds: seq<Dentist>, me: Option<nat>, editor: seq<DayEditor>,
                              weekday: string, day: Day, art: string)
    requires me.Some? ==> me.value < |ds|
    requires WellFormedEditor(editor)
    requires UpdateZahnarztZeiten(ds, me, editor).Ok? && art in Behandlungen
    ensures var z := UpdateZahnarztZeiten(ds, me, editor).value[me.value].zeiten;
      var s := ShowTimeSlots(z, weekday, day, art);
      && s.Ok?
      && (forall i :: 0 <= i < |editor| && editor[i].tag == weekday && editor[i].checked ==>
            forall t :: t in s.value <==>
              InSomeWindow(HourWindows(editor[i].slots), t, Behandlungen[art].zeit)
              && GridFree(t, Behandlungen[art].zeit, day.Keys))
      && ((forall i :: 0 <= i < |editor| && editor[i].tag == weekday ==> !editor[i].checked) ==> s.value == [])
  {
    var z := UpdateZahnarztZeiten(ds, me, editor).value[me.value].zeiten;
    if weekday in z {
      var i :| 0 <= i < |editor| && editor[i].checked && editor[i].tag == weekday;
      assert ParseWindows(z[weekday]) == Some(HourWindows(editor[i].slots));
    }
  }

  /** Ticking Monday with no windows is accepted and stores an empty list:
      the dentist is open on Monday for nothing. */
  lemma CheckedDayWithoutSlots(d: Dentist)
    ensures var editor := [DayEditor("Mo", true, []), DayEditor("Di", false, [HourSlot(12, 9)])];
      UpdateZahnarztZeiten([d], Some(0), editor) == Ok([d.(zeiten := map["Mo" := []])])
  {
    var editor := [DayEditor("Mo", true, []), DayEditor("Di", false, [HourSlot(12, 9)])];
    assert WellFormedEditor(editor);
    assert editor[1..][1..] == [];
    assert CollectZeiten(editor[1..][1..]) == Ok(map[]);
    assert CollectZeiten(editor[1..]) == Ok(map[]);
    assert SlotTexts("Mo", []) == Ok([]);
    var z: map<string, seq<string>> := map["Mo" := []];
    assert CollectZeiten(editor) == Ok(z);
    assert "Mo" in z.Keys;
    assert [d][0 := d.(zeiten := z)] == [d.(zeiten := z)];
  }

  /** A backwards window on a ticked day is refused even when another day
      is fine, and nothing is written. */
  lemma BackwardsWindowRefused(d: Dentist)
    ensures var editor := [DayEditor("Mo", true, [HourSlot(9, 12)]), DayEditor("Di", true, [HourSlot(12, 9)])];
      UpdateZahnarztZeiten([d], Some(0), editor) == Err(InvalidWindow("Di", 12, 9))
  {
    var editor := [DayEditor("Mo", true, [HourSlot(9, 12)]), DayEditor("Di", true, [HourSlot(12, 9)])];
    assert WellFormedEditor(editor);
    var tail := editor[1..];
    assert tail == [DayEditor("Di", true, [HourSlot(12, 9)])];
    BackwardsDay("Di", 12, 9);
    assert CollectZeiten(tail) == Err(InvalidWindow("Di", 12, 9));
    ForwardDay("Mo", 9, 12);
    assert CollectZeiten(editor) == Err(InvalidWindow("Di", 12, 9));
  }

  lemma BackwardsDay(tag: string, von: nat, bis: nat)
    requires EditorHour(von) && EditorHour(bis) && von >= bis
    ensures SlotTexts(tag, [HourSlot(von, bis)]) == Err(InvalidWindow(tag, von, bis))
  {
    HourLabelOrder(von, bis);
  }

  lemma ForwardDay(tag: string, von: nat, bis: nat)
    requires EditorHour(von) && EditorHour(bis) && von < bis
    ensures SlotTexts(tag, [HourSlot(von, bis)]).Ok?
  {
    assert ValidSlots([HourSlot(von, bis)]);
  }

  // ---------------------------------------------------------------------
  // Patient problems.

  /** `int(text.strip())` that must also be positive. */
  function ParseCount(raw: string): (r: Result<int>)
    ensures r.Ok? ==> r.value >= 1
    ensures r.Err? ==> r.error == InvalidCount
  {
    match ParseInt(Strip(raw))
    case None => Err(InvalidCount)
    case Some(n) => if n <= 0 then Err(InvalidCount) else Ok(n)
  }

  /** Blanks around a positive count are accepted. */
  lemma CountRoundTrip(before: string, n: nat, after: string)
    requires AllSpace(before) && AllSpace(after) && n >= 1
    ensures ParseCount(before + ShowNat(n) + after) == Ok(n)
  {
    var x := ShowNat(n);
    assert !IsSpace(x[0]) && !IsSpace(x[|x| - 1]) by {
      assert IsDigit(x[0]) && IsDigit(x[|x| - 1]);
    }
    StripPadded(before, x, after);
    ParseShow(n);
  }

  /** Zero is a number but is refused, blanks around it or not. */
  lemma CountRejectsZero(before: string, after: string)
    requires AllSpace(before) && AllSpace(after)
    ensures ParseCount(before + ShowNat(0) + after) == Err(InvalidCount)
  {
    var x := ShowNat(0);
    assert !IsSpace(x[0]) && !IsSpace(x[|x| - 1]) by {
      assert IsDigit(x[0]) && IsDigit(x[|x| - 1]);
    }
    StripPadded(before, x, after);
    ParseShow(0);
  }

  /** A negative count is a number but is refused, blanks around it or not. */
  lemma CountRejectsNegative(before: string, n: nat, after: string)
    requires AllSpace(before) && AllSpace(after)
    ensures ParseCount(before + "-" + ShowNat(n) + after) == Err(InvalidCount)
  {
    var x := "-" + ShowNat(n);
    assert !IsSpace(x[0]) && !IsSpace(x[|x| - 1]) by {
      assert IsDigit(x[|x| - 1]);
    }
    assert before + "-" + ShowNat(n) + after == before + x + after;
    StripPadded(before, x, after);
    ParseNegShow(n);
  }

  /** A blank field is not a number. */
  lemma CountRejectsBlank(raw: string)
    requires AllSpace(raw)
    ensures ParseCount(raw) == Err(InvalidCount)
  {
  }

  /** A character other than a digit, outside a leading sign, makes the
      stripped text no number: a word such as "zwei" is refused. */
  predicate HasStrayChar(t: string) {
    exists k :: 0 <= k < |t| && !IsDigit(t[k]) && !(k == 0 && (t[0] == '-' || t[0] == '+'))
  }

  lemma CountRejectsNonNumbers(raw: string)
    requires HasStrayChar(Strip(raw))
    ensures ParseCount(raw) == Err(InvalidCount)
  {
    var t := Strip(raw);
    var k :| 0 <= k < |t| && !IsDigit(t[k]) && !(k == 0 && (t[0] == '-' || t[0] == '+'));
    if t[0] == '-' || t[0] == '+' {
      assert t[1..][k - 1] == t[k];
      assert !AllDigits(t[1..]);
    } else {
      assert !AllDigits(t);
    }
    assert ParseInt(t).None?;
  }

  /** Adding `n` units of `art` to a problem list: merged into the first
      entry of that kind when there is one (its material is kept), appended
      with material "normal" otherwise. */
  function MergeProblem(ps: seq<Problem>, art: string, n: int): (r: seq<Problem>)
    ensures FirstOfKind(ps, art).Some? ==> |r| == |ps|
    ensures FirstOfKind(ps, art).None? ==> r == ps + [Problem(art, n, Some("normal"))]
  {
    match FirstOfKind(ps, art)
    case Some(i) => ps[i := ps[i].(anzahl := ps[i].anzahl + n)]
    case None => ps + [Problem(art, n, Some("normal"))]
  }

  /** Merging adds exactly `n` units of its kind and none of any other. */
  lemma {:induction false} MergeAccounting(ps: seq<Problem>, art: string, n: int, other: string)
    ensures UnitsOf(MergeProblem(ps, art, n), other) == UnitsOf(ps, other) + (if other == art then n else 0)
  {
    match FirstOfKind(ps, art)
    case None =>
      UnitsOfAppend(ps, [Problem(art, n, Some("normal"))], other);
      assert [Problem(art, n, Some("normal"))][1..] == [];
    case Some(i) =>
      var r := MergeProblem(ps, art, n);
      assert ps == ps[..i] + [ps[i]] + ps[i + 1..];
      assert r == ps[..i] + [r[i]] + ps[i + 1..];
      UnitsOfAppend(ps[..i] + [ps[i]], ps[i + 1..], other);
      UnitsOfAppend(ps[..i], [ps[i]], other);
      UnitsOfAppend(ps[..i] + [r[i]], ps[i + 1..], other);
      UnitsOfAppend(ps[..i], [r[i]], other);
      assert [ps[i]][1..] == [] && [r[i]][1..] == [];
  }

  /** Merging a positive count keeps every entry positive. */
  lemma MergeKeepsPositive(ps: seq<Problem>, art: string, n: int)
    requires PositiveUnits(ps) && n >= 1
    ensures PositiveUnits(MergeProblem(ps, art, n))
  {
  }

  /** `add_problem` on the settings page. */
  function AddProblemMerge(patients: seq<Patient>, me: Option<nat>, art: string, raw: string): (r: Result<seq<Patient>>)
    requires me.Some? ==> me.value < |patients|
    ensures me.None? ==> r == Err(NoRecord)
    ensures me.Some? ==> (r.Ok? <==> ParseCount(raw).Ok?)
    ensures r.Err? && me.Some? ==> r.error == InvalidCount
    ensures r.Ok? ==> |r.value| == |patients|
    ensures r.Ok? ==> forall k :: 0 <= k < |patients| && k != me.value ==> r.value[k] == patients[k]
    ensures r.Ok? ==>
      var old_, new_ := patients[me.value], r.value[me.value];
      && new_ == old_.(probleme := new_.probleme)
      && UnitsOf(new_.probleme, art) == UnitsOf(old_.probleme, art) + ParseCount(raw).value
      && (forall other :: other != art ==> UnitsOf(new_.probleme, other) == UnitsOf(old_.probleme, other))
      && (PositiveUnits(old_.probleme) ==> PositiveUnits(new_.probleme))
    ensures r.Ok? ==> r.value[me.value].probleme == MergeProblem(patients[me.value].probleme, art, ParseCount(raw).value)
  {
    match me
    case None => Err(NoRecord)
    case Some(i) =>
      match ParseCount(raw)
      case Err(e) => Err(e)
      case Ok(n) =>
        var probleme := MergeProblem(patients[i].probleme, art, n);
        MergeAccounting(patients[i].probleme, art, n, art);
        assert forall other :: other != art ==> UnitsOf(probleme, other) == UnitsOf(patients[i].probleme, other) by {
          forall other | other != art
            ensures UnitsOf(probleme, other) == UnitsOf(patients[i].probleme, other)
          {
            MergeAccounting(patients[i].probleme, art, n, other);
          }
        }
        assert PositiveUnits(patients[i].probleme) ==> PositiveUnits(probleme) by {
          if PositiveUnits(patients[i].probleme) { MergeKeepsPositive(patients[i].probleme, art, n); }
        }
        Ok(patients[i := patients[i].(probleme := probleme)])
  }

  /** `add_problem` on the older patient page: always a new entry, without
      a material. */
  function AddProblemAppend(patients: seq<Patient>, me: Option<nat>, art: string, raw: string): (r: Result<seq<Patient>>)
    requires me.Some? ==> me.value < |patients|
    ensures me.None? ==> r == Err(NoRecord)
    ensures me.Some? ==> (r.Ok? <==> ParseCount(raw).Ok?)
    ensures r.Ok? ==> |r.value| == |patients|
    ensures r.Ok? ==> forall k :: 0 <= k < |patients| && k != me.value ==> r.value[k] == patients[k]
    ensures r.Ok? ==>
      var old_, new_ := patients[me.value], r.value[me.value];
      && new_ == old_.(probleme := new_.probleme)
      && new_.probleme == old_.probleme + [Problem(art, ParseCount(raw).value, None)]
  {
    match me
    case None => Err(NoRecord)
    case Some(i) =>
      match ParseCount(raw)
      case Err(e) => Err(e)
      case Ok(n) => Ok(patients[i := patients[i].(probleme := patients[i].probleme + [Problem(art, n, None)])])
  }

  /** Merging a kind twice into a list without that kind leaves a single
      new entry carrying both counts. */
  lemma MergeTwice(ps: seq<Problem>, art: string, n1: int, n2: int)
    requires FirstOfKind(ps, art).None?
    ensures MergeProblem(MergeProblem(ps, art, n1), art, n2) == ps + [Problem(art, n1 + n2, Some("normal"))]
  {
    var m1 := ps + [Problem(art, n1, Some("normal"))];
    assert m1[|ps|].art == art;
    assert forall k :: 0 <= k < |ps| ==> m1[k] == ps[k];
    assert FirstOfKind(m1, art) == Some(|ps|);
  }

  /** Adding a kind twice on the settings page, to a list without that
      kind, leaves a single new entry carrying both counts. */
  lemma AddTwiceMerges(patients: seq<Patient>, i: nat, art: string, raw1: string, n1: int, raw2: string, n2: int)
    requires i < |patients| && FirstOfKind(patients[i].probleme, art).None?
    requires ParseCount(raw1) == Ok(n1) && ParseCount(raw2) == Ok(n2)
    ensures var once := AddProblemMerge(patients, Some(i), art, raw1);
      && once.Ok?
      && var twice := AddProblemMerge(once.value, Some(i), art, raw2);
      && twice.Ok?
      && twice.value[i].probleme == patients[i].probleme + [Problem(art, n1 + n2, Some("normal"))]
  {
    MergeTwice(patients[i].probleme, art, n1, n2);
  }

  /** The same on the older patient page leaves two entries of that kind. */
  lemma AddTwiceAppends(patients: seq<Patient>, i: nat, art: string, raw1: string, n1: int, raw2: string, n2: int)
    requires i < |patients|
    requires ParseCount(raw1) == Ok(n1) && ParseCount(raw2) == Ok(n2)
    ensures var once := AddProblemAppend(patients, Some(i), art, raw1);
      && once.Ok?
      && var twice := AddProblemAppend(once.value, Some(i), art, raw2);
      && twice.Ok?
      && twice.value[i].probleme == patients[i].probleme + [Problem(art, n1, None), Problem(art, n2, None)]
  {
    var ps := patients[i].probleme;
    assert ps + [Problem(art, n1, None)] + [Problem(art, n2, None)] == ps + [Problem(art, n1, None), Problem(art, n2, None)];
  }

  // ---------------------------------------------------------------------
  // Patient password and insurance class.

  /** `update_passwort`: the stripped entry must be non-blank; the "changed"
      flag is not touched. A dentist session has no patient record, so
      nothing happens. */
  function UpdatePasswort(patients: seq<Patient>, me: Option<nat>, raw: string): (r: Result<seq<Patient>>)
    requires me.Some? ==> me.value < |patients|
    ensures me.None? ==> r == Err(NoRecord)
    ensures me.Some? ==> (r == Err(EmptyPassword) <==> AllSpace(raw))
    ensures r.Ok? ==> me.Some? && |r.value| == |patients|
    ensures r.Ok? ==> forall k :: 0 <= k < |patients| && k != me.value ==> r.value[k] == patients[k]
    ensures r.Ok? ==>
      var old_, new_ := patients[me.value], r.value[me.value];
      && new_ == old_.(passwort := new_.passwort)
      && new_.passwort != [] && !IsSpace(new_.passwort[0]) && !IsSpace(new_.passwort[|new_.passwort| - 1])
  {
    match me
    case None => Err(NoRecord)
    case Some(i) =>
      var pw := Strip(raw);
      if pw == [] then Err(EmptyPassword) else Ok(patients[i := patients[i].(passwort := pw)])
  }

  /** A dentist's session never changes a patient's password. */
  lemma DentistSessionNoPasswordChange(patients: seq<Patient>, login: string, raw: string)
    ensures UpdatePasswort(patients, SessionPatient(DentistRole, login, patients), raw) == Err(NoRecord)
  {
  }

  /** Blanks typed around a password are dropped and nothing else is. */
  lemma PasswordPadded(patients: seq<Patient>, i: nat, before: string, pw: string, after: string)
    requires i < |patients| && AllSpace(before) && AllSpace(after)
    requires pw != [] && !IsSpace(pw[0]) && !IsSpace(pw[|pw| - 1])
    ensures var r := UpdatePasswort(patients, Some(i), before + pw + after);
      r.Ok? && r.value[i].passwort == pw
  {
    var raw := before + pw + after;
    StripPadded(before, pw, after);
    assert UpdatePasswort(patients, Some(i), raw) == Ok(patients[i := patients[i].(passwort := pw)]);
  }

  /** Setting the same password again changes nothing: the stored text is
      already stripped. */
  lemma PasswordIdempotent(patients: seq<Patient>, i: nat, raw: string)
    requires i < |patients| && !AllSpace(raw)
    ensures var once := UpdatePasswort(patients, Some(i), raw);
      once.Ok? && UpdatePasswort(once.value, Some(i), once.value[i].passwort) == once
  {
    StripIdempotent(raw);
    StoredPasswordStable(patients, i, raw);
  }

  lemma StoredPasswordStable(patients: seq<Patient>, i: nat, raw: string)
    requires i < |patients| && !AllSpace(raw)
    ensures var once := patients[i := patients[i].(passwort := Strip(raw))];
      once[i := once[i].(passwort := Strip(once[i].passwort))] == once
  {
    StripIdempotent(raw);
  }

  /** `update_krankenkasse`: the class chosen in the combo box (one of the
      fixed classes) replaces the patient's; nothing else changes. */
  function UpdateKrankenkasse(patients: seq<Patient>, me: Option<nat>, kasse: string): (r: Result<seq<Patient>>)
    requires me.Some? ==> me.value < |patients|
    ensures r.Ok? <==> me.Some?
    ensures r.Ok? ==> |r.value| == |patients|
    ensures r.Ok? ==> forall k :: 0 <= k < |patients| && k != me.value ==> r.value[k] == patients[k]
    ensures r.Ok? ==> r.value[me.value] == patients[me.value].(krankenkasse := kasse)
  {
    match me
    case None => Err(NoRecord)
    case Some(i) => Ok(patients[i := patients[i].(krankenkasse := kasse)])
  }
}

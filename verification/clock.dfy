/** Times of day. The program keeps them as "HH:MM" strings (booking keys,
    the "HH:MM-HH:MM" opening windows, the "HH:00" choices of the hours
    editor); the model keeps them as minutes since midnight. This module
    proves the two representations interchangeable: formatting is a
    bijection onto the well-formed strings and preserves order. */
module Clock {
  import opened Common
  import opened Text

  /** Minutes in a day; every formatted time lies below it. */
  const MinutesPerDay: nat := 1440

  /** A recurring opening window, both ends in minutes since midnight. */
  datatype Window = Window(von: nat, bis: nat)

  /** Zero-padded two-digit field, as `%02d` writes it. */
  function Two(n: nat): (s: string)
    requires n < 100
    ensures |s| == 2 && IsDigit(s[0]) && IsDigit(s[1])
    ensures 10 * DigitValue(s[0]) + DigitValue(s[1]) == n
  {
    [DigitChar(n / 10), DigitChar(n % 10)]
  }

  /** `strftime("%H:%M")` of a time of day. */
  function FormatHHMM(t: nat): (s: string)
    requires t < MinutesPerDay
    ensures |s| == 5 && s[2] == ':'
  {
    Two(t / 60) + [':'] + Two(t % 60)
  }

  /** `strptime(s, "%H:%M")` for the two-digit form the program writes. */
  function ParseHHMM(s: string): (r: Option<nat>)
    ensures r.Some? ==> r.value < MinutesPerDay
  {
    if |s| == 5 && IsDigit(s[0]) && IsDigit(s[1]) && s[2] == ':' && IsDigit(s[3]) && IsDigit(s[4]) then
      var h := 10 * DigitValue(s[0]) + DigitValue(s[1]);
      var m := 10 * DigitValue(s[3]) + DigitValue(s[4]);
      if h < 24 && m < 60 then Some(h * 60 + m) else None
    else None
  }

  lemma DivModSplit(t: nat, k: nat)
    requires k > 0
    ensures t == k * (t / k) + t % k && t % k < k
  {
  }

  /** Every time of day is read back from its own text. */
  lemma ParseFormat(t: nat)
    requires t < MinutesPerDay
    ensures ParseHHMM(FormatHHMM(t)) == Some(t)
  {
    var s := FormatHHMM(t);
    assert s[0..2] == Two(t / 60);
    assert s[3..5] == Two(t % 60);
    assert 10 * DigitValue(s[0]) + DigitValue(s[1]) == t / 60;
    assert 10 * DigitValue(s[3]) + DigitValue(s[4]) == t % 60;
    DivModSplit(t, 60);
  }

  lemma DigitCharOfValue(c: char)
    requires IsDigit(c)
    ensures DigitChar(DigitValue(c)) == c
  {
  }

  /** Every text that parses is the canonical text of its value, so two
      different key strings never stand for the same time. */
  lemma FormatParse(s: string)
    requires ParseHHMM(s).Some?
    ensures FormatHHMM(ParseHHMM(s).value) == s
  {
    var h := 10 * DigitValue(s[0]) + DigitValue(s[1]);
    var m := 10 * DigitValue(s[3]) + DigitValue(s[4]);
    var t := h * 60 + m;
    assert t / 60 == h && t % 60 == m;
    assert h / 10 == DigitValue(s[0]) && h % 10 == DigitValue(s[1]);
    assert m / 10 == DigitValue(s[3]) && m % 10 == DigitValue(s[4]);
    DigitCharOfValue(s[0]);
    DigitCharOfValue(s[1]);
    DigitCharOfValue(s[3]);
    DigitCharOfValue(s[4]);
    assert FormatHHMM(t) == s;
  }

  // ---------------------------------------------------------------------
  // Order.

  lemma MulMonotone(k: nat, a: nat, b: nat)
    requires a <= b
    ensures k * a <= k * b
  {
  }

  lemma DivModOrder(x: nat, y: nat, k: nat)
    requires k > 0
    ensures x < y <==> x / k < y / k || (x / k == y / k && x % k < y % k)
  {
    var qx, rx, qy, ry := x / k, x % k, y / k, y % k;
    DivModSplit(x, k);
    DivModSplit(y, k);
    if qx < qy {
      MulMonotone(k, qx + 1, qy);
      assert k * (qx + 1) == k * qx + k;
    } else if qy < qx {
      MulMonotone(k, qy + 1, qx);
      assert k * (qy + 1) == k * qy + k;
    }
  }

  lemma LexLessFive(a: string, b: string)
    requires |a| == 5 && |b| == 5
    ensures LexLess(a, b) <==>
      a[0] < b[0] || (a[0] == b[0] &&
      (a[1] < b[1] || (a[1] == b[1] &&
      (a[2] < b[2] || (a[2] == b[2] &&
      (a[3] < b[3] || (a[3] == b[3] && a[4] < b[4])))))))
  {
    var a1, b1 := a[1..], b[1..];
    var a2, b2 := a1[1..], b1[1..];
    var a3, b3 := a2[1..], b2[1..];
    var a4, b4 := a3[1..], b3[1..];
    assert a4[1..] == [] && b4[1..] == [];
    assert LexLess(a4, b4) <==> a[4] < b[4];
    assert LexLess(a3, b3) <==> a[3] < b[3] || (a[3] == b[3] && LexLess(a4, b4));
    assert LexLess(a2, b2) <==> a[2] < b[2] || (a[2] == b[2] && LexLess(a3, b3));
    assert LexLess(a1, b1) <==> a[1] < b[1] || (a[1] == b[1] && LexLess(a2, b2));
  }

  lemma DigitCharOrder(x: nat, y: nat)
    requires x < 10 && y < 10
    ensures DigitChar(x) < DigitChar(y) <==> x < y
    ensures DigitChar(x) == DigitChar(y) <==> x == y
  {
  }

  /** Comparing the texts of two times (as the "my appointments" sort and
      the hours editor do) is comparing the times. */
  lemma FormatOrder(t1: nat, t2: nat)
    requires t1 < MinutesPerDay && t2 < MinutesPerDay
    ensures LexLess(FormatHHMM(t1), FormatHHMM(t2)) <==> t1 < t2
  {
    var a, b := FormatHHMM(t1), FormatHHMM(t2);
    LexLessFive(a, b);
    var h1, h2, m1, m2 := t1 / 60, t2 / 60, t1 % 60, t2 % 60;
    assert a[0] == DigitChar(h1 / 10) && a[1] == DigitChar(h1 % 10);
    assert b[0] == DigitChar(h2 / 10) && b[1] == DigitChar(h2 % 10);
    assert a[3] == DigitChar(m1 / 10) && a[4] == DigitChar(m1 % 10);
    assert b[3] == DigitChar(m2 / 10) && b[4] == DigitChar(m2 % 10);
    DigitCharOrder(h1 / 10, h2 / 10);
    DigitCharOrder(h1 % 10, h2 % 10);
    DigitCharOrder(m1 / 10, m2 / 10);
    DigitCharOrder(m1 % 10, m2 % 10);
    DivModOrder(t1, t2, 60);
    DivModOrder(h1, h2, 10);
    DivModOrder(m1, m2, 10);
  }

  // ---------------------------------------------------------------------
  // Opening windows "HH:MM-HH:MM".

  function FormatWindow(w: Window): (s: string)
    requires w.von < MinutesPerDay && w.bis < MinutesPerDay
    ensures |s| == 11 && s[5] == '-'
  {
    FormatHHMM(w.von) + "-" + FormatHHMM(w.bis)
  }

  /** `start, end = s.split("-")` followed by two `strptime` calls. */
  function ParseWindow(s: string): (r: Option<Window>)
    ensures r.Some? ==> r.value.von < MinutesPerDay && r.value.bis < MinutesPerDay
  {
    if |s| == 11 && s[5] == '-' then
      match (ParseHHMM(s[..5]), ParseHHMM(s[6..]))
      case (Some(a), Some(b)) => Some(Window(a, b))
      case _ => None
    else None
  }

  lemma ParseFormatWindow(w: Window)
    requires w.von < MinutesPerDay && w.bis < MinutesPerDay
    ensures ParseWindow(FormatWindow(w)) == Some(w)
  {
    var s := FormatWindow(w);
    assert s[..5] == FormatHHMM(w.von);
    assert s[6..] == FormatHHMM(w.bis);
    ParseFormat(w.von);
    ParseFormat(w.bis);
  }

  lemma FormatParseWindow(s: string)
    requires ParseWindow(s).Some?
    ensures FormatWindow(ParseWindow(s).value) == s
  {
    FormatParse(s[..5]);
    FormatParse(s[6..]);
    assert s == s[..5] + "-" + s[6..];
  }

  /** Parse every stored window of one day; a single malformed one makes
      the whole day fail, as the uncaught ValueError does. */
  function ParseWindows(ws: seq<string>): (r: Option<seq<Window>>)
    ensures r.Some? ==> |r.value| == |ws|
    ensures r.Some? ==> forall i :: 0 <= i < |ws| ==> ParseWindow(ws[i]) == Some(r.value[i])
    ensures r.None? ==> exists i :: 0 <= i < |ws| && ParseWindow(ws[i]).None?
  {
    if ws == [] then Some([])
    else
      match (ParseWindow(ws[0]), ParseWindows(ws[1..]))
      case (Some(w), Some(rest)) => Some([w] + rest)
      case (None, _) => None
      case (_, None) => None
  }

  // ---------------------------------------------------------------------
  // The hours editor offers whole hours 08:00 .. 18:00.

  const FirstHour: nat := 8
  const LastHour: nat := 18

  predicate EditorHour(h: nat) {
    FirstHour <= h <= LastHour
  }

  /** The text `f"{h:02d}:00"` of a choice in the editor. */
  function HourLabel(h: nat): (s: string)
    requires EditorHour(h)
    ensures ParseHHMM(s) == Some(h * 60)
  {
    ParseFormat(h * 60);
    FormatHHMM(h * 60)
  }

  /** The editor rejects a window when `von >= bis` as strings; on its
      zero-padded labels that is exactly `von >= bis` as hours. */
  lemma HourLabelOrder(von: nat, bis: nat)
    requires EditorHour(von) && EditorHour(bis)
    ensures !LexLess(HourLabel(von), HourLabel(bis)) <==> von >= bis
  {
    FormatOrder(von * 60, bis * 60);
  }
}

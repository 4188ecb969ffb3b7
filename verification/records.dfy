/** The entities of the practice: the treatment catalogue and reimbursement
    table, patients with their outstanding problems, dentists with their
    weekly hours, and the appointment store. */
module Records {
  import opened Common

  /** One catalogue entry: price in euros, duration in minutes, unit label. */
  datatype Treatment = Treatment(preis: nat, zeit: nat, einheit: string)

  /** The treatment catalogue. Kinds are plain strings: a kind that is not a
      key here (such as the settings page's "Karies groß") is unknown. */
  const Behandlungen: map<string, Treatment> := map[
    "Karies klein" := Treatment(50, 30, "Minuten"),
    "Karies Groß" := Treatment(120, 45, "Minuten"),
    "Teilkrone" := Treatment(400, 60, "Minuten"),
    "Krone" := Treatment(600, 90, "Minuten"),
    "Wurzelbehandlung" := Treatment(300, 120, "Minuten")
  ]

  /** Reimbursement ratio per insurance class for the flat cost overview. */
  const Erstattung: map<string, real> := map[
    "gesetzlich" := 0.7,
    "privat" := 0.85,
    "freiwillig gesetzlich" := 0.75
  ]

  /** Ratio used for an insurance class the table does not know. */
  const DefaultErstattung: real := 0.7

  /** The insurance classes in the order the settings page lists them. */
  const Kassen: seq<string> := ["gesetzlich", "privat", "freiwillig gesetzlich"]

  /** An outstanding treatment need: `anzahl` teeth still need `art`.
      Problems added on the settings page also carry a material. */
  datatype Problem = Problem(art: string, anzahl: int, material: Option<string>)

  datatype Patient = Patient(
    name: string,
    passwort: string,
    passwortGeaendert: bool,
    krankenkasse: string,
    probleme: seq<Problem>)

  /** `zeiten` maps a weekday key to its opening windows as stored, each a
      text "HH:MM-HH:MM". */
  datatype Dentist = Dentist(
    name: string,
    passwort: string,
    passwortGeaendert: bool,
    behandelt: seq<string>,
    zeiten: map<string, seq<string>>)

  datatype Booking = Booking(patient: string, behandlung: string, dauer: nat)

  /** The bookings of one dentist on one date, keyed by start minute. */
  type Day = map<nat, Booking>

  /** Dentist name -> ISO date -> start minute -> booking. */
  type Store = map<string, map<string, Day>>

  datatype Role = PatientRole | DentistRole

  /** Every outstanding problem still needs at least one unit. */
  predicate PositiveUnits(ps: seq<Problem>) {
    forall i :: 0 <= i < |ps| ==> ps[i].anzahl >= 1
  }

  /** Units of kind `art` still outstanding, over all entries of that kind. */
  function UnitsOf(ps: seq<Problem>, art: string): int {
    if ps == [] then 0
    else (if ps[0].art == art then ps[0].anzahl else 0) + UnitsOf(ps[1..], art)
  }

  /** Index of the first problem of kind `art`, as a `for ... break` loop
      finds it. */
  function FirstOfKind(ps: seq<Problem>, art: string): (r: Option<nat>)
    ensures r.Some? ==> r.value < |ps| && ps[r.value].art == art
    ensures r.Some? ==> forall k :: 0 <= k < r.value ==> ps[k].art != art
    ensures r.None? ==> forall k :: 0 <= k < |ps| ==> ps[k].art != art
  {
    if ps == [] then None
    else if ps[0].art == art then Some(0)
    else match FirstOfKind(ps[1..], art)
      case None => None
      case Some(i) => Some(i + 1)
  }

  /** Index of the first patient called `name`. */
  function FindPatient(ps: seq<Patient>, name: string): (r: Option<nat>)
    ensures r.Some? ==> r.value < |ps| && ps[r.value].name == name
    ensures r.Some? ==> forall k :: 0 <= k < r.value ==> ps[k].name != name
    ensures r.None? ==> forall k :: 0 <= k < |ps| ==> ps[k].name != name
  {
    if ps == [] then None
    else if ps[0].name == name then Some(0)
    else match FindPatient(ps[1..], name)
      case None => None
      case Some(i) => Some(i + 1)
  }

  /** The patient record a session works on: only a patient login has one. */
  function SessionPatient(role: Role, login: string, ps: seq<Patient>): (r: Option<nat>)
    ensures r.Some? <==> role == PatientRole && exists k :: 0 <= k < |ps| && ps[k].name == login
    ensures r.Some? ==> r.value < |ps| && ps[r.value].name == login
    ensures r.Some? ==> forall k :: 0 <= k < r.value ==> ps[k].name != login
  {
    if role == PatientRole then FindPatient(ps, login) else None
  }

  /** The bookings of `dentist` on `date`; missing levels read as empty, as
      `termine.get(name, {}).get(date, {})` does. */
  function DayOf(store: Store, dentist: string, date: string): Day
  {
    if dentist in store && date in store[dentist] then store[dentist][date] else map[]
  }
}

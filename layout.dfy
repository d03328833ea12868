/** The records of one Zusi module ("Strecke") that the route check reads, with the
    attribute defaults of the reader already applied (a missing number is 0, a
    missing speed is 0.0, a `Datei` child without `Dateiname` names ""), and the
    outcome types shared by the analysis. */
module Layout {

  datatype Option<T> = None | Some(value: T)

  /** A record end: an element is entered in its "Norm" or in its "Gegen" direction. */
  datatype Richtung = Norm | Gegen

  /** Why the analysis of a module aborts: the lookups the script does not guard. */
  datatype Crash =
    | UnknownRef(refNr: int)                            // KeyError on the reference-point table
    | MissingSignal(elementNr: int, richtung: Richtung) // the referenced element end carries no signal
    | RowOutOfRange(zeile: int)                         // IndexError on the main-aspect rows
    | ColumnOutOfRange(spalte: int)                     // IndexError on the distant-aspect columns

  datatype Result<T> = Ok(value: T) | Err(crash: Crash)

  /** `KoppelSignal`: a reference to the signal coupled to this one; `datei` is the
      optional module it lives in. */
  datatype KoppelSignal = KoppelSignal(datei: Option<string>, referenzNr: int)

  /** `Signal`: the speeds of its `HsigBegriff` rows and `VsigBegriff` columns, and
      its optional coupled signal. */
  datatype Signal = Signal(hsigGeschw: seq<real>, vsigGeschw: seq<real>, koppel: Option<KoppelSignal>)

  /** `StrElement`: a track element and the signals at its two ends. */
  datatype StrElement = StrElement(nr: int, normSignal: Option<Signal>, gegenSignal: Option<Signal>)

  /** `ReferenzElemente`: a reference point naming an element and, through `StrNorm`, a direction. */
  datatype ReferenzElement = ReferenzElement(referenzNr: int, strElement: int, strNorm: int)

  /** `FahrstrSignal`: a main-signal placement of a route. */
  datatype FahrstrSignal = FahrstrSignal(datei: Option<string>, refNr: int, ersatzsignal: int, zeile: int)

  /** `FahrstrVSignal`: a distant-signal placement of a route. */
  datatype FahrstrVSignal = FahrstrVSignal(datei: Option<string>, refNr: int, spalte: int)

  /** `Fahrstrasse`: a route, with its placements in document order. */
  datatype Fahrstrasse = Fahrstrasse(signals: seq<FahrstrSignal>, vsignals: seq<FahrstrVSignal>)

  /** `Strecke`: the module's own file name (from `Strecke/Datei`) and its records in document order. */
  datatype Strecke = Strecke(
    dateiname: string,
    elements: seq<StrElement>,
    referenzen: seq<ReferenzElement>,
    fahrstrassen: seq<Fahrstrasse>)

  /** A resolved reference point: the element record it names and the direction. */
  datatype RefPoint = RefPoint(element: StrElement, richtung: Richtung)

  /** The signal under `Info<richtung>Richtung` of an element, if any. */
  function SignalAt(e: StrElement, r: Richtung): Option<Signal>
  {
    if r == Norm then e.normSignal else e.gegenSignal
  }

  /** Python list indexing: a negative index counts from the end; outside
      -|s| .. |s| - 1 the lookup fails. */
  function PyIndex<T>(s: seq<T>, i: int): (r: Option<T>)
    ensures r.Some? <==> -|s| <= i < |s|
    ensures 0 <= i < |s| ==> r == Some(s[i])
    ensures -|s| <= i < 0 ==> r == Some(s[|s| + i])
    ensures r.Some? ==> r.value in s
  {
    if 0 <= i < |s| then Some(s[i])
    else if -|s| <= i < 0 then Some(s[|s| + i])
    else None
  }
}

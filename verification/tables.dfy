/**
  The compiler's static tables: the twelve swara symbols with their semitone
  offsets from Sa, the ornament (gamaka) codes, the raga scales used for
  membership tests, and the Western note names used for the tonic.
*/
module Tables {

  import opened Results

  /** The swara symbols, in ascending pitch order. */
  const Bases: string := "SrRgGmMPdDnN"

  /** A character that starts a swara symbol. */
  predicate IsBase(c: char) {
    c == 'S' || c == 'r' || c == 'R' || c == 'g' || c == 'G' || c == 'm'
    || c == 'M' || c == 'P' || c == 'd' || c == 'D' || c == 'n' || c == 'N'
  }

  /** Semitone offset of a swara above Sa, as listed in the swara table. */
  function SwaraOffset(c: char): int
    requires IsBase(c)
  {
    match c
    case 'S' => 0
    case 'r' => 1
    case 'R' => 2
    case 'g' => 3
    case 'G' => 4
    case 'm' => 5
    case 'M' => 6
    case 'P' => 7
    case 'd' => 8
    case 'D' => 9
    case 'n' => 10
    case _ => 11
  }

  /** The twelve symbols are the twelve chromatic steps of one octave, in order. */
  lemma SwaraTableIsChromatic()
    ensures |Bases| == 12
    ensures forall k :: 0 <= k < 12 ==> IsBase(Bases[k]) && SwaraOffset(Bases[k]) == k
    ensures forall c :: IsBase(c) ==> 0 <= SwaraOffset(c) < 12 && Bases[SwaraOffset(c)] == c
  {
  }

  /** The ornament code list and the gamaka table agree. */
  lemma GamakaTableComplete()
    ensures forall c :: IsGamaka(c) <==> c in GamakaCodes
  {
  }

  /** The ornament codes that may follow a base symbol. */
  const GamakaCodes: string := "~/^<>-"

  predicate IsGamaka(c: char) {
    c == '~' || c == '/' || c == '^' || c == '<' || c == '>' || c == '-'
  }

  /** Allowed swaras of each raga in the raga table; `None` for a key the table lacks. */
  function RagaScale(key: string): Option<string>
  {
    if key == "mayamalavagowla" then Some("SrGmPdN")
    else if key == "shankarabharanam" then Some("SRGmPDN")
    else if key == "kharaharapriya" then Some("SRgmPDn")
    else if key == "todi" then Some("SrgmPdn")
    else if key == "bhairavi" then Some("SRgmPdn")
    else if key == "kalyani" then Some("SRGMPDN")
    else if key == "kapi" then Some("SRgmPDnN")
    else if key == "desh" then Some("SRGmPDnN")
    else None
  }

  /** Whether a swara belongs to the scale of the raga named `key`; an unknown key allows nothing. */
  predicate InScale(key: string, base: char) {
    match RagaScale(key)
    case None => false
    case Some(scale) => base in scale
  }

  /** Seven or eight swara symbols starting at Sa. */
  predicate WellFormedScale(scale: string) {
    && (|scale| == 7 || |scale| == 8)
    && scale[0] == 'S'
    && (forall k :: 0 <= k < |scale| ==> IsBase(scale[k]))
  }

  /** Every raga in the table has a well-formed scale. */
  lemma RagaScalesWellFormed(key: string)
    requires RagaScale(key).Some?
    ensures WellFormedScale(RagaScale(key).value)
  {
    var scale := RagaScale(key).value;
    assert scale in {"SrGmPdN", "SRGmPDN", "SRgmPDn", "SrgmPdn", "SRgmPdn", "SRGMPDN", "SRgmPDnN", "SRGmPDnN"};
  }

  /** The Western note names, indexed by pitch class. */
  const WestNotes: seq<string> := ["C", "C#", "D", "D#", "E", "F", "F#", "G", "G#", "A", "A#", "B"]

  /** `WEST_NOTES.indexOf(name)`. */
  function WestIndex(name: string): Option<nat>
  {
    if name == "C" then Some(0) else if name == "C#" then Some(1)
    else if name == "D" then Some(2) else if name == "D#" then Some(3)
    else if name == "E" then Some(4) else if name == "F" then Some(5)
    else if name == "F#" then Some(6) else if name == "G" then Some(7)
    else if name == "G#" then Some(8) else if name == "A" then Some(9)
    else if name == "A#" then Some(10) else if name == "B" then Some(11)
    else None
  }

  /** A name `WestIndex` finds sits at that position of the note list. */
  lemma WestIndexFound(name: string)
    ensures WestIndex(name).Some? ==> WestIndex(name).value < 12 && WestNotes[WestIndex(name).value] == name
    ensures WestIndex(name).None? ==> name !in WestNotes
  {
  }

  /** Every name of the note list is found at its own position. */
  lemma WestIndexOfPosition(k: nat)
    requires k < 12
    ensures WestIndex(WestNotes[k]) == Some(k)
  {
  }

  /** `WestIndex` is exactly the position of a name in the note list. */
  lemma WestIndexIsPosition(name: string)
    ensures WestIndex(name).Some? <==> name in WestNotes
    ensures WestIndex(name).Some? ==> WestIndex(name).value < 12 && WestNotes[WestIndex(name).value] == name
  {
    WestIndexFound(name);
  }
}

/**
  Pitch resolution: the Western note helpers (`clamp`, `safeNumber`,
  `midiFromNoteName`, `noteNameFromMidi`) and `toMidiEvents`, which turns
  parsed notes into MIDI events relative to the tonic Sa.
*/
module Pitch {

  import opened Results
  import opened Text
  import opened Tables
  import opened Notes

  // ---------------------------------------------------------------------------
  // Numbers

  /** A JavaScript number after `Number(v)`: finite, or NaN/±Infinity. */
  datatype Num = Finite(value: real) | NonFinite

  /** `clamp(v, min, max)`: a non-finite input gives `min`; otherwise the value limited to the range. */
  function Clamp(v: Num, lo: real, hi: real): (r: real)
    ensures v.NonFinite? ==> r == lo
    ensures lo <= hi ==> lo <= r <= hi
    ensures v.Finite? && lo <= v.value <= hi ==> r == v.value
  {
    match v
    case NonFinite => lo
    case Finite(x) => if x < lo then lo else if x > hi then hi else x
  }

  /** Clamping is idempotent and keeps the order of finite inputs. */
  lemma ClampLaws(x: real, y: real, lo: real, hi: real)
    requires lo <= hi
    ensures Clamp(Finite(Clamp(Finite(x), lo, hi)), lo, hi) == Clamp(Finite(x), lo, hi)
    ensures x <= y ==> Clamp(Finite(x), lo, hi) <= Clamp(Finite(y), lo, hi)
    ensures x < lo ==> Clamp(Finite(x), lo, hi) == lo
    ensures hi < x ==> Clamp(Finite(x), lo, hi) == hi
  {
  }

  /** `safeNumber(v, fallback)`: the number itself when finite, else the fallback. */
  function SafeNumber(v: Num, fallback: real): (r: real)
    ensures v.Finite? ==> r == v.value
    ensures v.NonFinite? ==> r == fallback
  {
    if v.Finite? then v.value else fallback
  }

  // ---------------------------------------------------------------------------
  // Note names

  /** ASCII upper case of one character. */
  function UpperChar(c: char): (u: char)
  {
    if 'a' <= c <= 'z' then (c as int - 32) as char else c
  }

  /** `String(name).toUpperCase()` on the ASCII letters. */
  function UpperCase(s: string): (r: string)
    ensures |r| == |s|
  {
    seq(|s|, k requires 0 <= k < |s| => UpperChar(s[k]))
  }

  /** The octave `safeNumber(octave, 4)` picks: the given octave, or 4 when it is missing or not a number. */
  function OctaveOr4(octave: Option<int>): int {
    if octave.Some? then octave.value else 4
  }

  /**
    `midiFromNoteName(name, octave)`: the MIDI number `(octave + 1) * 12 + index`
    of a note name, matched without regard to case; 60 (C4) for any name that
    is not one of the twelve.
  */
  function MidiFromNoteName(name: string, octave: Option<int>): (m: int)
    ensures UpperCase(name) !in WestNotes ==> m == 60
    ensures UpperCase(name) in WestNotes ==> WestNotes[m % 12] == UpperCase(name) && m / 12 == OctaveOr4(octave) + 1
    ensures UpperCase(name) in WestNotes && octave.None? ==> m / 12 == 5
  {
    var u := UpperCase(name);
    WestIndexFound(u);
    match WestIndex(u)
    case None => 60
    case Some(i) =>
      OctavePlace(i, OctaveOr4(octave));
      (OctaveOr4(octave) + 1) * 12 + i
  }

  /** Pitch class `i` in octave `o` splits back into `i` and `o + 1` under Euclidean division by twelve. */
  lemma OctavePlace(i: nat, o: int)
    requires i < 12
    ensures ((o + 1) * 12 + i) % 12 == i && ((o + 1) * 12 + i) / 12 == o + 1
  {
  }

  /** Letter case of the name never matters. */
  lemma MidiFromNoteNameIgnoresCase(name: string, octave: Option<int>)
    ensures MidiFromNoteName(UpperCase(name), octave) == MidiFromNoteName(name, octave)
  {
    assert UpperCase(UpperCase(name)) == UpperCase(name);
  }

  /** `noteNameFromMidi(m)`: the pitch-class name followed by `floor(m / 12) - 1`, for every integer including negatives. */
  function NoteNameFromMidi(m: int): (s: string)
    ensures MidiOfNoteName(s) == Some(m)
  {
    ReadName(m % 12, m / 12 - 1);
    DivMod12(m);
    WestNotes[m % 12] + IntString(m / 12 - 1)
  }

  /** Splits a name such as `C#4` or `D-1` into its pitch-class part and octave. */
  function SplitNoteName(s: string): (r: Option<(string, int)>)
  {
    if |s| < 2 then None
    else
      var n := if s[1] == '#' then 2 else 1;
      if |s| <= n then None
      else match ParseIntString(s[n..])
        case None => None
        case Some(o) => Some((s[..n], o))
  }

  /** Reads a full note name such as `A4` back to its MIDI number. */
  function MidiOfNoteName(s: string): (r: Option<int>)
  {
    match SplitNoteName(s)
    case None => None
    case Some(p) => if p.0 in WestNotes then Some(MidiFromNoteName(p.0, Some(p.1))) else None
  }

  /** The twelve names are already upper case and are found at their own positions. */
  lemma NameAt(k: nat)
    requires k < 12
    ensures UpperCase(WestNotes[k]) == WestNotes[k]
    ensures WestNotes[k] in WestNotes
    ensures WestIndex(WestNotes[k]) == Some(k)
  {
    WestIndexOfPosition(k);
  }

  lemma SplitOfName(k: nat, o: int)
    requires k < 12
    ensures SplitNoteName(WestNotes[k] + IntString(o)) == Some((WestNotes[k], o))
  {
    var w := WestNotes[k];
    var d := IntString(o);
    var s := w + d;
    IntStringRoundTrip(o);
    assert d[0] == '-' || IsDigit(d[0]) by {
      if o >= 0 {
        assert AllDigits(NatString(o));
      }
    }
    assert 1 <= |w| <= 2;
    assert |w| == 2 ==> w[1] == '#';
    assert s[..|w|] == w;
    assert s[|w|..] == d;
  }

  /** The MIDI number of the `k`-th name in octave `o`. */
  lemma MidiOfName(k: nat, o: int)
    requires k < 12
    ensures MidiFromNoteName(WestNotes[k], Some(o)) == (o + 1) * 12 + k
  {
    NameAt(k);
  }

  /** The name of pitch class `k` in octave `o` reads back as that MIDI number. */
  lemma ReadName(k: nat, o: int)
    requires k < 12
    ensures MidiOfNoteName(WestNotes[k] + IntString(o)) == Some((o + 1) * 12 + k)
  {
    var w := WestNotes[k];
    assert w in WestNotes by {
      NameAt(k);
    }
    SplitOfName(k, o);
    MidiOfSplit(w + IntString(o), w, o);
    MidiOfName(k, o);
  }

  /** A name that splits into a known pitch class and an octave reads as that note in that octave. */
  lemma MidiOfSplit(s: string, name: string, o: int)
    requires SplitNoteName(s) == Some((name, o)) && name in WestNotes
    ensures MidiOfNoteName(s) == Some(MidiFromNoteName(name, Some(o)))
  {
  }

  lemma DivMod12(m: int)
    ensures m == (m / 12) * 12 + m % 12 && 0 <= m % 12 < 12
  {
  }

  /** Naming the MIDI number of a note name and octave gives that name and octave back. */
  lemma MidiNameRoundTrip(k: nat, o: int)
    requires k < 12
    ensures NoteNameFromMidi(MidiFromNoteName(WestNotes[k], Some(o))) == WestNotes[k] + IntString(o)
  {
    MidiOfName(k, o);
    var m := (o + 1) * 12 + k;
    assert m % 12 == k && m / 12 == o + 1;
  }

  // ---------------------------------------------------------------------------
  // MIDI events

  /** One playable event: the note's token, its MIDI number, beats and ornament. */
  datatype MidiEvent = MidiEvent(token: string, midi: int, beats: real, gamaka: Option<char>)

  /** The MIDI number of a swara above the tonic `saMidi`: offset plus twelve per octave shift. */
  function SwaraMidi(n: Note, saMidi: int): int
    requires n.Swara?
  {
    saMidi + n.offset + n.octaveShift * 12
  }

  /**
    The first MIDI number whose `freqFromMidi` is not a finite double:
    `440 * 2^((m - 69) / 12)` stays below 2^1024 up to MIDI 12251 (about
    2^1023.95) and overflows to Infinity from 12252 on (about 2^1024.03).
    Very low numbers underflow to 0, which is still finite.
  */
  const FirstInfiniteMidi: int := 12252

  /** A swara `toMidiEvents` and `schedulePlay` keep: its frequency is a finite number. */
  predicate Sounds(n: Note, saMidi: int) {
    n.Swara? && SwaraMidi(n, saMidi) < FirstInfiniteMidi
  }

  /** `item.beats || 1`: a zero beat count reads as one beat. */
  function EventBeats(b: real): (r: real)
    ensures r != 0.0
    ensures b != 0.0 ==> r == b
    ensures b == 0.0 ==> r == 1.0
  {
    if b == 0.0 then 1.0 else b
  }

  function EventOf(n: Note, saMidi: int): MidiEvent
    requires n.Swara?
  {
    MidiEvent(n.token, SwaraMidi(n, saMidi), EventBeats(n.beats), n.gamaka)
  }

  /** Number of swaras among the notes whose frequency is finite. */
  function SoundingCount(notes: seq<Note>, saMidi: int): (c: nat)
    ensures c <= |notes|
  {
    if notes == [] then 0 else (if Sounds(notes[0], saMidi) then 1 else 0) + SoundingCount(notes[1..], saMidi)
  }

  /** `toMidiEvents`: one event per sounding swara, in order; rests, errors and overflowing swaras give none. */
  function ToMidiEvents(notes: seq<Note>, saMidi: int): (es: seq<MidiEvent>)
    ensures |es| == SoundingCount(notes, saMidi)
  {
    if notes == [] then []
    else (if Sounds(notes[0], saMidi) then [EventOf(notes[0], saMidi)] else []) + ToMidiEvents(notes[1..], saMidi)
  }

  /** Conversion works note by note: it distributes over concatenation. */
  lemma {:induction false} ToMidiEventsAppend(a: seq<Note>, b: seq<Note>, saMidi: int)
    ensures ToMidiEvents(a + b, saMidi) == ToMidiEvents(a, saMidi) + ToMidiEvents(b, saMidi)
    ensures SoundingCount(a + b, saMidi) == SoundingCount(a, saMidi) + SoundingCount(b, saMidi)
    decreases |a|
  {
    if a != [] {
      assert (a + b)[1..] == a[1..] + b;
      ToMidiEventsAppend(a[1..], b, saMidi);
    } else {
      assert a + b == b;
    }
  }

  /** The sounding swara at position `i` gives the event numbered by the sounding swaras before it. */
  lemma ToMidiEventsAt(notes: seq<Note>, i: nat, saMidi: int)
    requires i < |notes| && Sounds(notes[i], saMidi)
    ensures SoundingCount(notes[..i], saMidi) < |ToMidiEvents(notes, saMidi)|
    ensures ToMidiEvents(notes, saMidi)[SoundingCount(notes[..i], saMidi)] == EventOf(notes[i], saMidi)
  {
    var pre := notes[..i];
    var post := notes[i + 1..];
    assert notes == pre + ([notes[i]] + post);
    ToMidiEventsAppend(pre, [notes[i]] + post, saMidi);
    assert ToMidiEvents([notes[i]] + post, saMidi)[0] == EventOf(notes[i], saMidi);
  }

  /** Every event comes from some sounding swara of the input. */
  lemma {:induction false} EventsFromSwaras(notes: seq<Note>, saMidi: int, j: nat)
    requires j < |ToMidiEvents(notes, saMidi)|
    ensures exists i :: 0 <= i < |notes| && Sounds(notes[i], saMidi) && ToMidiEvents(notes, saMidi)[j] == EventOf(notes[i], saMidi)
    decreases |notes|
  {
    var head := if Sounds(notes[0], saMidi) then [EventOf(notes[0], saMidi)] else [];
    if j < |head| {
      assert Sounds(notes[0], saMidi) && ToMidiEvents(notes, saMidi)[j] == EventOf(notes[0], saMidi);
    } else {
      EventsFromSwaras(notes[1..], saMidi, j - |head|);
      var i :| 0 <= i < |notes[1..]| && Sounds(notes[1..][i], saMidi) && ToMidiEvents(notes[1..], saMidi)[j - |head|] == EventOf(notes[1..][i], saMidi);
      assert notes[i + 1] == notes[1..][i];
    }
  }

  /** Raising a swara by one octave raises its event by twelve semitones. */
  lemma EventPitch(n: Note, saMidi: int)
    requires n.Swara?
    ensures EventOf(n.(octaveShift := n.octaveShift + 1), saMidi).midi == EventOf(n, saMidi).midi + 12
  {
  }
}

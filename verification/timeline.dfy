/**
  The time arithmetic of `schedulePlay`: the tempo, the length of each item
  and the cursor that walks through the parsed notes, starting one voice per
  playable swara. The oscillators, gain envelopes and ornament ramps are not
  modelled; a voice records what is started and when.
*/
module Timeline {

  import opened Results
  import opened Notes
  import opened Pitch
  import Parser

  /** The shortest time any item occupies, in seconds. */
  const MinDuration: real := 0.03

  /** `clamp(safeNumber(bpm, 96), 30, 240)`: the tempo actually used. */
  function Tempo(bpm: Num): (r: real)
    ensures 30.0 <= r <= 240.0
    ensures bpm.NonFinite? ==> r == 96.0
    ensures bpm.Finite? && 30.0 <= bpm.value <= 240.0 ==> r == bpm.value
    ensures bpm.Finite? && bpm.value < 30.0 ==> r == 30.0
    ensures bpm.Finite? && bpm.value > 240.0 ==> r == 240.0
  {
    Clamp(Finite(SafeNumber(bpm, 96.0)), 30.0, 240.0)
  }

  /** `60 / bpm`: seconds per beat. */
  function BeatSeconds(bpm: Num): (s: real)
  {
    60.0 / Tempo(bpm)
  }

  /** Whatever tempo is asked for, a beat lasts between a quarter second and two seconds. */
  lemma BeatSecondsBounds(bpm: Num)
    ensures 0.25 <= BeatSeconds(bpm) <= 2.0
  {
    assert BeatSeconds(bpm) * Tempo(bpm) == 60.0;
  }

  /** The beats the scheduler reads from an item: an error has none and counts as one beat. */
  function ItemBeats(n: Note): real {
    if n.Error? then 1.0 else n.beats
  }

  /** `Math.max(minDur, beats * beatSec)`. */
  function Duration(n: Note, beatSec: real): (d: real)
    ensures d >= MinDuration && d >= ItemBeats(n) * beatSec
    ensures d == MinDuration || d == ItemBeats(n) * beatSec
  {
    var x := ItemBeats(n) * beatSec;
    if x < MinDuration then MinDuration else x
  }

  /** A started oscillator: the swara it plays, its MIDI number and ornament, and when it starts and ends. */
  datatype Voice = Voice(token: string, midi: int, gamaka: Option<char>, start: real, end: real)

  /** Voices follow each other: each ends no later than every later one starts. */
  predicate Sequential(vs: seq<Voice>) {
    forall i, j :: 0 <= i < j < |vs| ==> vs[i].end <= vs[j].start
  }

  /**
    The loop of `schedulePlay` from cursor `t`: every item moves the cursor on
    by its duration; a swara with a finite frequency also starts a voice
    lasting exactly that long, while rests, errors and overflowing swaras
    only leave silence. Returns the voices and the
    final cursor.
  */
  function Schedule(notes: seq<Note>, saMidi: int, beatSec: real, t: real): (r: (seq<Voice>, real))
    ensures r.1 >= t + MinDuration * |notes| as real
    decreases |notes|
  {
    if notes == [] then ([], t)
    else
      var n := notes[0];
      var d := Duration(n, beatSec);
      var rest := Schedule(notes[1..], saMidi, beatSec, t + d);
      if Sounds(n, saMidi) then ([Voice(n.token, SwaraMidi(n, saMidi), n.gamaka, t, t + d)] + rest.0, rest.1)
      else rest
  }

  /**
    Voices start no earlier than the cursor, last at least the minimum
    duration, end by the final cursor, and never overlap.
  */
  lemma {:induction false} ScheduleBounds(notes: seq<Note>, saMidi: int, beatSec: real, t: real)
    ensures var r := Schedule(notes, saMidi, beatSec, t);
      && (forall k :: 0 <= k < |r.0| ==> t <= r.0[k].start && r.0[k].start + MinDuration <= r.0[k].end <= r.1)
      && Sequential(r.0)
    decreases |notes|
  {
    if notes != [] {
      var n := notes[0];
      var d := Duration(n, beatSec);
      var rest := Schedule(notes[1..], saMidi, beatSec, t + d);
      ScheduleBounds(notes[1..], saMidi, beatSec, t + d);
      var r := Schedule(notes, saMidi, beatSec, t);
      assert r.1 == rest.1;
      if Sounds(n, saMidi) {
        var v := Voice(n.token, SwaraMidi(n, saMidi), n.gamaka, t, t + d);
        assert r.0 == [v] + rest.0;
        assert t + d <= rest.1 by {
          assert rest.1 >= t + d + MinDuration * |notes[1..]| as real;
        }
        forall k | 0 <= k < |r.0|
          ensures t <= r.0[k].start && r.0[k].start + MinDuration <= r.0[k].end <= r.1
        {
          if k > 0 {
            assert r.0[k] == rest.0[k - 1];
          }
        }
        SequentialCons(v, rest.0);
      } else {
        assert r.0 == rest.0;
      }
    }
  }

  /** A voice that ends before every later voice starts can lead a sequential list. */
  lemma SequentialCons(v: Voice, vs: seq<Voice>)
    requires Sequential(vs)
    requires forall k :: 0 <= k < |vs| ==> v.end <= vs[k].start
    ensures Sequential([v] + vs)
  {
    forall i, j | 0 <= i < j < |[v] + vs|
      ensures ([v] + vs)[i].end <= ([v] + vs)[j].start
    {
      assert ([v] + vs)[j] == vs[j - 1];
      if i > 0 {
        assert ([v] + vs)[i] == vs[i - 1];
      }
    }
  }

  /** Total time the notes occupy. */
  function TotalDuration(notes: seq<Note>, beatSec: real): (d: real)
    ensures d >= MinDuration * |notes| as real
  {
    if notes == [] then 0.0 else Duration(notes[0], beatSec) + TotalDuration(notes[1..], beatSec)
  }

  /** The cursor ends exactly the total duration after it started: every item, played or not, takes its time. */
  lemma {:induction false} ScheduleCursor(notes: seq<Note>, saMidi: int, beatSec: real, t: real)
    ensures Schedule(notes, saMidi, beatSec, t).1 == t + TotalDuration(notes, beatSec)
    decreases |notes|
  {
    if notes != [] {
      ScheduleCursor(notes[1..], saMidi, beatSec, t + Duration(notes[0], beatSec));
    }
  }

  /**
    The voice of the sounding item `i` is the one numbered by the sounding
    items before it, and it starts once all earlier items, played or not,
    have taken their time; it lasts that item's own duration.
  */
  lemma {:induction false} ScheduleStart(notes: seq<Note>, saMidi: int, beatSec: real, t: real, i: nat)
    requires i < |notes| && Sounds(notes[i], saMidi)
    ensures SoundingCount(notes[..i], saMidi) < |Schedule(notes, saMidi, beatSec, t).0|
    ensures var v := Schedule(notes, saMidi, beatSec, t).0[SoundingCount(notes[..i], saMidi)];
      && v.start == t + TotalDuration(notes[..i], beatSec)
      && v.end == v.start + Duration(notes[i], beatSec)
      && v.token == notes[i].token && v.midi == SwaraMidi(notes[i], saMidi) && v.gamaka == notes[i].gamaka
    decreases i
  {
    if i == 0 {
      ScheduleFirst(notes, saMidi, beatSec, t);
      assert notes[..0] == [];
    } else {
      var d := Duration(notes[0], beatSec);
      var tail := notes[1..];
      ScheduleStart(tail, saMidi, beatSec, t + d, i - 1);
      assert tail[i - 1] == notes[i];
      PrefixStep(notes, i, saMidi, beatSec);
      ScheduleShift(notes, saMidi, beatSec, t, SoundingCount(tail[..i - 1], saMidi));
    }
  }

  /** A sounding first item is the first voice, starting at the cursor. */
  lemma ScheduleFirst(notes: seq<Note>, saMidi: int, beatSec: real, t: real)
    requires notes != [] && Sounds(notes[0], saMidi)
    ensures |Schedule(notes, saMidi, beatSec, t).0| > 0
    ensures Schedule(notes, saMidi, beatSec, t).0[0] ==
      Voice(notes[0].token, SwaraMidi(notes[0], saMidi), notes[0].gamaka, t, t + Duration(notes[0], beatSec))
  {
  }

  /** Voice `c` of the rest is voice `c` of the whole, moved past the first item's voice if it has one. */
  lemma ScheduleShift(notes: seq<Note>, saMidi: int, beatSec: real, t: real, c: nat)
    requires notes != []
    requires c < |Schedule(notes[1..], saMidi, beatSec, t + Duration(notes[0], beatSec)).0|
    ensures var h := if Sounds(notes[0], saMidi) then 1 else 0;
      && h + c < |Schedule(notes, saMidi, beatSec, t).0|
      && Schedule(notes, saMidi, beatSec, t).0[h + c] == Schedule(notes[1..], saMidi, beatSec, t + Duration(notes[0], beatSec)).0[c]
  {
  }

  /** The first `i` items are the first one and `i - 1` of the rest. */
  lemma PrefixStep(notes: seq<Note>, i: nat, saMidi: int, beatSec: real)
    requires 0 < i <= |notes|
    ensures SoundingCount(notes[..i], saMidi) ==
      (if Sounds(notes[0], saMidi) then 1 else 0) + SoundingCount(notes[1..][..i - 1], saMidi)
    ensures TotalDuration(notes[..i], beatSec) == Duration(notes[0], beatSec) + TotalDuration(notes[1..][..i - 1], beatSec)
  {
    assert notes[..i][1..] == notes[1..][..i - 1];
    assert notes[..i][0] == notes[0];
  }

  /** A voice plays the event `toMidiEvents` gives for the same swara, for that event's beats. */
  predicate Plays(v: Voice, e: MidiEvent, beatSec: real) {
    && v.token == e.token
    && v.midi == e.midi
    && v.gamaka == e.gamaka
    && v.end - v.start == (if e.beats * beatSec < MinDuration then MinDuration else e.beats * beatSec)
  }

  predicate NonZeroBeats(notes: seq<Note>) {
    forall k :: 0 <= k < |notes| ==> notes[k].Swara? ==> notes[k].beats != 0.0
  }

  /** Voices and events pair up one to one, each voice playing its event. */
  predicate PlaysAll(vs: seq<Voice>, es: seq<MidiEvent>, beatSec: real) {
    |vs| == |es| && forall k :: 0 <= k < |vs| ==> Plays(vs[k], es[k], beatSec)
  }

  /** Playback starts one voice per MIDI event, in the same order, each playing its event. */
  lemma {:induction false} ScheduleMatchesEvents(notes: seq<Note>, saMidi: int, beatSec: real, t: real)
    requires NonZeroBeats(notes)
    ensures PlaysAll(Schedule(notes, saMidi, beatSec, t).0, ToMidiEvents(notes, saMidi), beatSec)
    decreases |notes|
  {
    if notes != [] {
      var n := notes[0];
      var d := Duration(n, beatSec);
      var vs := Schedule(notes[1..], saMidi, beatSec, t + d).0;
      var es := ToMidiEvents(notes[1..], saMidi);
      NonZeroTail(notes);
      ScheduleMatchesEvents(notes[1..], saMidi, beatSec, t + d);
      ScheduleStep(notes, saMidi, beatSec, t);
      if Sounds(n, saMidi) {
        FirstVoicePlays(n, saMidi, beatSec, t);
        PlaysCons(Voice(n.token, SwaraMidi(n, saMidi), n.gamaka, t, t + d), EventOf(n, saMidi), vs, es, beatSec);
      }
    }
  }

  /** One step of the schedule and of the conversion: the first note's voice and event, if any, lead the rest. */
  lemma ScheduleStep(notes: seq<Note>, saMidi: int, beatSec: real, t: real)
    requires notes != []
    ensures var n := notes[0];
      var d := Duration(n, beatSec);
      var vs := Schedule(notes[1..], saMidi, beatSec, t + d).0;
      var es := ToMidiEvents(notes[1..], saMidi);
      && (Sounds(n, saMidi) ==> Schedule(notes, saMidi, beatSec, t).0 == [Voice(n.token, SwaraMidi(n, saMidi), n.gamaka, t, t + d)] + vs)
      && (Sounds(n, saMidi) ==> ToMidiEvents(notes, saMidi) == [EventOf(n, saMidi)] + es)
      && (!Sounds(n, saMidi) ==> Schedule(notes, saMidi, beatSec, t).0 == vs && ToMidiEvents(notes, saMidi) == es)
  {
    assert [] + ToMidiEvents(notes[1..], saMidi) == ToMidiEvents(notes[1..], saMidi);
  }

  lemma NonZeroTail(notes: seq<Note>)
    requires notes != [] && NonZeroBeats(notes)
    ensures NonZeroBeats(notes[1..])
    ensures notes[0].Swara? ==> notes[0].beats != 0.0
  {
    forall k | 0 <= k < |notes[1..]|
      ensures notes[1..][k].Swara? ==> notes[1..][k].beats != 0.0
    {
      assert notes[1..][k] == notes[k + 1];
    }
  }

  lemma FirstVoicePlays(n: Note, saMidi: int, beatSec: real, t: real)
    requires n.Swara? && n.beats != 0.0
    ensures Plays(Voice(n.token, SwaraMidi(n, saMidi), n.gamaka, t, t + Duration(n, beatSec)), EventOf(n, saMidi), beatSec)
  {
  }

  lemma PlaysCons(v: Voice, e: MidiEvent, vs: seq<Voice>, es: seq<MidiEvent>, beatSec: real)
    requires Plays(v, e, beatSec) && PlaysAll(vs, es, beatSec)
    ensures PlaysAll([v] + vs, [e] + es, beatSec)
  {
    forall k | 0 <= k < |[v] + vs|
      ensures Plays(([v] + vs)[k], ([e] + es)[k], beatSec)
    {
      if k > 0 {
        assert ([v] + vs)[k] == vs[k - 1] && ([e] + es)[k] == es[k - 1];
      }
    }
  }

  /** Compiled notes never have zero beats, so their playback matches their events exactly. */
  lemma CompiledPlaysEvents(text: string, key: string, saMidi: int, bpm: Num, t: real)
    requires Parser.Compile(text, key).Parsed?
    ensures var notes := Parser.Compile(text, key).notes;
      var beatSec := BeatSeconds(bpm);
      PlaysAll(Schedule(notes, saMidi, beatSec, t).0, ToMidiEvents(notes, saMidi), beatSec)
  {
    var notes := Parser.Compile(text, key).notes;
    assert NonZeroBeats(notes) by {
      forall k | 0 <= k < |notes|
        ensures notes[k].Swara? ==> notes[k].beats != 0.0
      {
        assert Parser.GoodNote(notes[k], key);
      }
    }
    ScheduleMatchesEvents(notes, saMidi, BeatSeconds(bpm), t);
  }
}

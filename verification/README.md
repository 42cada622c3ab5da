# swara-player notation compiler in Dafny

swara-player turns Carnatic swara notation such as `S R G | (SRG)2x2 _ N'`
into played notes. This project models its notation compiler and proves
properties of that model. The compiler has these parts:

- the fixed tables: the swara-to-semitone map, the ornament (gamaka) codes,
  the raga scales and the twelve Western note names;
- the tokenizer `tokenizeForParse`;
- the parser `parseSequence`. It covers phrase bars, rests, standalone `xN`
  repetition, attached `xN` repetition, parenthesised groups whose beats are
  shared among their members, and bare runs whose symbols each get the full
  beat count;
- the raga annotation `annotateRagaFields`;
- the MIDI helpers `midiFromNoteName`, `noteNameFromMidi`, `clamp` and
  `safeNumber`;
- `toMidiEvents`;
- the time arithmetic of `schedulePlay`: tempo, beat length, item
  durations, and the cursor that starts one voice per swara.

Modules, in dependency order:

- `Results`: `Option` and `Result`.
- `Text`: character classes, trimming, the `M#` to `M` rewrite, decimals,
  whitespace splitting, and parenthesis balance.
- `Tables`: the swara, gamaka, raga and Western note tables.
- `Tokenizer`: the character scanner.
- `Notes`: the note datatype, the run parser and the single-symbol parser,
  and raga annotation.
- `Parser`: how each token is dispatched, the fold over the token list with
  its phrase start, and `Compile`.
- `Pitch`: numbers, note names and MIDI events.
- `Timeline`: the playback schedule.
- `Examples`: the documented behaviours, on concrete inputs.

## Where the tokenizer stalls

`parseSequence` turns every bad token into an error note instead of
failing. But on a `)` that no group consumed, the tokenizer's run loop
(script.js:146-152) does not advance: it pushes an empty token on every
pass, until the array limit (2^32 - 1 elements) throws a `RangeError` or
memory runs out. Such a `)` is
one where some prefix of the text holds more `)` than `(`, for example
`S)`. The model follows the code:

- `Tokenize` returns `Diverges` on such text, and
  `Tokenizer.TokenizeDivergesIff` proves that it does so exactly on such
  text.
- `Compile` returns `Hangs` on such text, and on no other text.

A stray `)` is the only way the tokenizer stalls. It is not the
only way compiling can fail. A repetition count can be so large that
`replicate` (script.js:286-294) would build a longer array than JavaScript
allows, so the code throws. The model still gives `Parsed` for such text
(see "Left out").

For an unclosed `(`, the code swallows the rest of the text into one group
and terminates. `Examples.UnclosedOpenParses` shows this case.

## Model

| member | source | states |
|---|---|---|
| Tables.SwaraTableIsChromatic | script.js:92-105 | the twelve base swaras map one to one onto semitones 0..11 above Sa |
| Tables.GamakaTableComplete | script.js:3-10 | a character is an ornament code exactly when it is one of the six keys of the gamaka table |
| Tables.RagaScalesWellFormed | script.js:14-47 | every defined raga scale has seven or eight symbols, all base swaras, starting with Sa |
| Tables.WestIndexIsPosition | script.js:70 | looking up a name among the Western notes succeeds exactly for the twelve names and returns the name's position |
| Text.NormalizeM | script.js:164 | the `M#` rewrite never lengthens the text, keeps a non-empty text non-empty and keeps its first character |
| Text.NormalizeMDeletesOnlySharps | script.js:164 | the `M#` rewrite only deletes `#` characters |
| Text.MSharpRewritten | script.js:164 | every `M#` becomes `M`, and the text on either side of it is rewritten independently |
| Text.NormalizeMIdentity | script.js:164 | text without an `M#` pair is left unchanged by the rewrite |
| Text.IntStringRoundTrip | script.js:88 | the decimal spelling of an integer octave reads back as the same integer |
| Tokenizer.ScanStep | script.js:113-153 | one scanner step advances past every character except a `)`, where it pushes an empty token and stays put; a rest token is `_` followed by all the digits after it, up to the first non-digit or the end of the text |
| Tokenizer.Tokenize | script.js:108-155 | every token of a finished scan is a bar, `_` plus digits, a group with at most two duration digits and an optional `x` plus up to three digits, or a non-empty run free of whitespace, parentheses and bars |
| Tokenizer.GroupStepBalance | script.js:117-137 | a group scan never passes a point where more `)` than `(` have been read, and it ends balanced unless it ran to the end of the text |
| Tokenizer.StepBalance | script.js:113-153 | the same balance property holds for every scanner step taken from a character other than `)` |
| Tokenizer.ScanDivergesIffStray | script.js:113-153 | the scan from a position stops advancing exactly when some stretch of text from that position holds more `)` than `(` |
| Tokenizer.TrimKeepsStray | script.js:110 | trimming surrounding whitespace neither creates nor removes a stray `)` |
| Tokenizer.TokenizeDivergesIff | script.js:108-155 | tokenizing stalls, pushing empty tokens until the array limit throws or memory runs out, exactly when some prefix of the text holds more `)` than `(` |
| Notes.Annotate | script.js:198-204 | annotation keeps swaras swaras and other notes unchanged; on a swara it sets membership to whether its base is in the raga's scale and changes no other field |
| Notes.AnnotateSpec | script.js:198-204 | an annotated swara is in raga exactly when its base is in the scale and out of raga exactly when it is not; rests and errors are neither; annotating twice is annotating once |
| Notes.ScanSymbolReadsEncoding | script.js:254-275 | the text one run symbol consumes is exactly that symbol's spelling: base, ornament, up marks, down marks, accidental |
| Notes.DecodeEncodeRun | script.js:248-283 | spelling any list of well-formed symbols and reading it back as a run gives the same list |
| Notes.EncodeDecodeRun | script.js:248-283 | a run text that parses is exactly the concatenated spelling of the symbols it parses to |
| Notes.DecodeRunRejects | script.js:252-255 | a run fails as a whole, with "Unknown run content", as soon as a position does not start with a base swara |
| Notes.RunOfSymbols | script.js:248-283 | the run parser turns the spelling of well-formed symbols into their notes: one beat each, canonical token, table offset plus accidental, and octave shift equal to ups minus downs |
| Notes.ParseRunString | script.js:248-283 | a run fails only with "Unknown run content"; a parsed run is non-empty exactly when its text is, and every note in it is an annotated swara with a valid base, ornament and accidental |
| Notes.ParseSingle | script.js:209-246 | the single-symbol parser accepts exactly the texts that start with a base swara, fails otherwise with "Unknown token", and gives an annotated swara with a valid base, ornament and accidental |
| Notes.SingleOfOneSymbol | script.js:209-246 | the single-symbol parser reads one symbol's spelling as the same note the run parser gives |
| Parser.RepeatLength | script.js:286-294 | n copies of a chunk hold n times its length |
| Parser.RepeatCopy | script.js:286-294 | every block of the repetition is an exact copy of the chunk |
| Parser.RepeatMul | script.js:286-294 | repeating a repetition multiplies the counts |
| Parser.Replicate | script.js:286-294 | the chunk followed by what `replicate` appends is the chunk repeated `times` times, or once when `times` is at most one |
| Parser.AttachedRepIsShortest | script.js:339-344 | the attached repetition suffix is `x` plus one to three digits at the end of the token, taking the fewest digits possible |
| Parser.ParenMatchIsGreedy | script.js:346-349 | a group token matches with the last possible `)`, its inner text and its optional one- or two-digit duration; otherwise nothing matches |
| Text.Words | script.js:354-355 | the pieces of a group's inner text are non-empty and whitespace-free, and together they hold exactly the text's non-whitespace characters, in order |
| Text.WordsJoin | script.js:354-355 | splitting words joined by single spaces gives back exactly those words |
| Parser.CollectSpec | script.js:357-368 | gathering results fails exactly when some result failed, and otherwise lists every result's value, in order |
| Parser.ParseWordsSpec | script.js:354-368 | whitespace-separated group members give no notes exactly when some member fails the single-symbol parser; otherwise one note per member, each the member's single-symbol note |
| Parser.GroupItems | script.js:346-378 | with whitespace inside, the group succeeds exactly when every word passes the lenient single-symbol parser, giving one note per word, that word's note; one failing word gives "Unknown token inside group"; without whitespace the contents are one strict run and fail with "Unknown run content"; every note is an annotated swara |
| Parser.GroupWordsToken | script.js:337-392 | a group token of two or more words that all start with a base swara gives the words' single-symbol notes sharing the group beats, repeated by the attached count; if any word does not, the whole token is one "Unknown token inside group" error |
| Parser.StripRepGroup | script.js:337-343 | the only repetition split off a group token is the `x` and digits written after its `)` and duration |
| Parser.RestToken | script.js:311-319 | a `_` token becomes one rest whose beats come from its digits |
| Parser.SeparateRepToken | script.js:322-335 | `x` or `X` followed by digits repeats the current phrase that many times, or once when the count is zero |
| Parser.DigitsOnlyToken | script.js:398-407 | a token of only one or two digits becomes an "Empty token" error |
| Parser.BareRunToken | script.js:398-431 | a bare run with duration digits and an attached repetition gives the run's notes, each with the full duration, repeated the given number of times |
| Parser.GroupRunToken | script.js:345-396 | a group with duration digits and an attached repetition gives its notes sharing the group beats, repeated the given number of times |
| Parser.SpreadGroupBeats | script.js:380-386 | every note of a group times the number of members equals the group beats |
| Parser.EmptyGroup | script.js:346-386 | `()` produces no notes |
| Parser.ClassifyGood | script.js:302-431 | every note a token produces is a rest of non-negative beats, an error carrying one of the three parser reasons, or a swara annotated for the raga with a valid base, ornament and accidental and positive beats |
| Parser.RepeatPhraseEffect | script.js:322-335 | a standalone repetition rewrites the output from the phrase start as that many copies and leaves the earlier output alone |
| Parser.RepeatPhraseCompounds | script.js:322-335 | two standalone repetitions in a row multiply |
| Parser.PhraseMarkScopesRepeat | script.js:308 | after a bar, a repetition copies only what came after the bar |
| Parser.Classify | script.js:302-431 | a token is skipped exactly when it is empty; every other token has an effect |
| Parser.Run | script.js:302-431 | the fold keeps the phrase start within the output, keeps the output it started with as a prefix of the result, and keeps every note well formed when all notes started so |
| Parser.RunAppend | script.js:302-431 | processing two token lists in turn is processing their concatenation |
| Parser.Compile | script.js:158-441 | the model's compile result is `Hangs` exactly when the text has a stray `)`; otherwise every note satisfies the same per-note guarantee as a single token's notes |
| Parser.CompiledRagaMembership | script.js:198-204 | every compiled note is in raga exactly when it is a swara whose base is in the scale, and out of raga exactly when it is a swara whose base is not |
| Parser.UnknownRagaAllOut | script.js:169-177 | under a raga name the table does not define, every compiled swara is out of raga |
| Pitch.Clamp | script.js:71 | a non-finite value clamps to the minimum; the result lies within the bounds; a finite value already within them is kept |
| Pitch.ClampLaws | script.js:71 | clamping is idempotent and monotone, and saturates at each bound |
| Pitch.MidiFromNoteName | script.js:75-80 | an unknown name gives 60; a known name gives the number whose remainder mod 12 is the name's position and whose quotient is the octave plus one; a missing octave means octave 4 |
| Pitch.MidiFromNoteNameIgnoresCase | script.js:76 | names are looked up in upper case |
| Pitch.NoteNameFromMidi | script.js:85-89 | reading back the name given to any MIDI number yields that number again |
| Pitch.MidiNameRoundTrip | script.js:75-89 | naming the MIDI number of a note name and octave gives back that name and octave |
| Pitch.ToMidiEvents | script.js:444-458 | there is exactly one event per sounding swara: a swara whose MIDI number is below 12252, the first number whose frequency overflows to Infinity |
| Pitch.ToMidiEventsAppend | script.js:444-458 | conversion distributes over concatenation |
| Pitch.ToMidiEventsAt | script.js:444-458 | the event of a sounding swara is at the position given by the number of sounding swaras before it |
| Pitch.EventsFromSwaras | script.js:444-458 | every event comes from some sounding swara of the input |
| Pitch.EventPitch | script.js:452 | raising a note by one octave raises its MIDI number by 12 |
| Timeline.Tempo | script.js:479 | the tempo used is a finite bpm between 30 and 240 unchanged, 30 below that range, 240 above it, and 96 when the input is not a finite number |
| Timeline.BeatSecondsBounds | script.js:479-480 | a beat lasts between a quarter second and two seconds |
| Timeline.Duration | script.js:492-493 | an item lasts the larger of 0.03 s and its beats times the beat length; an error counts as one beat |
| Timeline.Schedule | script.js:489-502 | the cursor moves at least 0.03 s per item, rests and errors included |
| Timeline.ScheduleBounds | script.js:489-502 | voices start no earlier than the cursor, last at least 0.03 s, end by the final cursor and never overlap |
| Timeline.ScheduleStart | script.js:489-502 | the voice of sounding item i is the one numbered by the sounding items before it; it starts once every earlier item, played or not, has taken its duration, lasts item i's own duration, and carries that item's token, MIDI number and ornament |
| Timeline.ScheduleCursor | script.js:489-502 | the final cursor is the start plus the sum of all item durations, including rests and errors |
| Timeline.ScheduleMatchesEvents | script.js:489-569 | when no swara has zero beats, the voices pair one to one, in order, with the MIDI events, each with the event's token, number, ornament and length |
| Timeline.CompiledPlaysEvents | script.js:444-569 | for any compiled text, playback starts exactly the voices of its MIDI events |
| Examples.TokenizeSix | script.js:108-155 | the text S, X, Y, Z, a bar and R, separated by single spaces, tokenizes into those six one-character tokens |
| Examples.CompileSix | script.js:302-458 | the same text compiles to S, three "Unknown run content" errors and R, and converts to exactly two events, MIDI 60 and 62, one beat each |
| Examples.UnknownLettersKeepTheirPlace | script.js:398-414 | each unknown letter becomes its own error in place and processing continues |
| Examples.AttachedRepeatNine | script.js:337-344 | `SRGx3` gives nine swaras of one beat each |
| Examples.GroupRepeatSix | script.js:345-396 | `(SRG)x2` gives six swaras of one third of a beat each |
| Examples.WordsGroup | script.js:346-388 | `(S2 R#x G)` is read word by word: Sa of two beats, sharp Ri and Ga, spread over one beat; the `x` inside is no repetition |
| Examples.WordsGroupThirds | script.js:346-388 | `(S2 R#x G)` gives Sa, sharp Ri and Ga, a third of a beat each: the group overrides the `2` of `S2` |
| Examples.WordsGroupUnknown | script.js:354-367 | `(S R X)` is one "Unknown token inside group" error carrying the whole token |
| Examples.RunGroupRejectsDigit | script.js:369-374 | `(SRG3)`, without whitespace, is one strict run, and the digit makes it an "Unknown run content" error |
| Examples.GroupDuration | script.js:345-388 | `(SRG)3` gives three swaras of one beat each |
| Examples.BareDuration | script.js:398-421 | `SRG3` gives three swaras of three beats each |
| Examples.OneBeatRests | script.js:311-316 | `_` and `_123` are rests of one beat |
| Examples.CountedRests | script.js:311-316 | `_0` is a rest of zero beats and `_4` one of four beats |
| Examples.OctaveMarks | script.js:266-280 | `S''` is Sa two octaves up and `S'.` is Sa at net octave zero |
| Examples.DownThenUp | script.js:252-275 | `S.'` is an "Unknown run content" error: up marks must come before down marks |
| Examples.SharpMa | script.js:164 | `M#` is the plain swara M |
| Examples.StandaloneCompounds | script.js:322-335 | `SRG x2 x3` gives eighteen one-beat swaras |
| Examples.BarScopesRepeat | script.js:308-335 | the tokens S, bar, R, x3 give S followed by three R |
| Examples.MayamalavagowlaMembership | script.js:14-18 | under Mayamalavagowla, N is in raga and M is out of raga |
| Examples.StrayCloseHangs | script.js:113-153 | compiling `S)` stalls in the tokenizer (`Hangs`) |
| Examples.UnclosedOpenParses | script.js:117-137 | compiling `(S` finishes |
| Examples.NoteNames | script.js:75-80 | `H` gives the fallback 60 with or without an octave, `a` in octave 4 gives 69, and `C` with no octave gives 60 |
| Examples.MidiNames | script.js:85-89 | 60 is `C4`, 69 is `A4` and 0 is `C-1` |
| Examples.OverflowingSwaraIsSilent | script.js:444-458 | Sa 1016 octaves above MIDI 60 is MIDI 12252 and gives no event, while one octave lower it gives one |
| Examples.TempoExamples | script.js:479-480 | 120 bpm gives half-second beats, 1000 bpm is clamped to 240, and a non-number falls back to 96 |

## Left out

- Audio: the audio context, oscillators, gain envelopes, `osc.stop(end + 0.02)`, `stopAll` and the gamaka frequency ramps (script.js:461-568) are not modelled. A voice records only its token, MIDI number, ornament, start and end.
- `freqFromMidi` is not computed: frequencies are floating point. Its one effect on which notes play is modelled: the frequency is Infinity from MIDI 12252 on, so `toMidiEvents` and `schedulePlay` drop such swaras (`Pitch.Sounds`). The checks on `off` and `midi` drop nothing, because swara offsets are always integers.
- Floating point: beats, times and tempo are exact reals, so rounding in `60 / bpm` and `groupBeats / n` is not modelled.
- `Number(...)` coercion is not modelled. A number is either `Finite(value)` or `NonFinite` (`Num`), and strings are never converted.
- The envelope parameters (`attack`, `rel`, `gainLevel`) and `baseTime` are not modelled. They do not affect where voices start and end: the schedule takes the starting cursor as a parameter.
- Pitch.MidiFromNoteName: takes the octave as an optional integer. Non-integer and string octaves accepted by `safeNumber` are not modelled.
- Pitch.UpperCase: upper-cases ASCII letters only. The Western note names are ASCII.
- `parseInt` is modelled as exact decimal value. Precision loss for counts of sixteen or more digits in a standalone `xN` is not modelled.
- Parser.Compile: returns `Parsed` for every text without a stray `)`, but the program throws on some such text. When a repetition would make the output longer than 2^32 - 1 notes, `push` in `replicate` (script.js:290-292) throws a `RangeError`, unless memory runs out first. This includes a standalone count of about 1.8 × 10^308 or more, which `parseInt` reads as Infinity: then the loop pushes copies until it throws. Leading zeros do not count towards that size. The model repeats the phrase the exact number of times instead.
- Strings are sequences of characters, not UTF-16 code units.
- `lastGroupStart` and `lastGroupCount` have no state in the model. They are read only inside the token that sets them (script.js:390-393, 426-429). There they equal that token's own start and note count, so no value carries from one token to the next.
- The final annotation loop (script.js:433-438) is left out. Every note already carries an `inRaga` field there, so it does nothing.
- `cloneNote` is left out. Copies of notes are equal values in the model, so object identity does not arise.
- The "Unsupported swara" errors (script.js:241, 279) are left out. They cannot occur, because the base pattern only matches keys of the swara table.
- The stalled scan is modelled as the `Diverges` and `Hangs` outcomes. The model does not count the empty tokens pushed, nor say whether the array limit or memory gives out first.
- The user interface and DOM wiring are left out: `getSelectedRagaKey`, `showParsed`, `copyWestern`, `sanitizeInputsFromUI`, `play`, `stop`, `clearAll`, `setupExamples`, `runTests` and `initNotes` (script.js:49-66, 573-755). The raga key and the tonic MIDI number are parameters.
- Timeline.ScheduleMatchesEvents: is stated for notes with non-zero beats. A swara with zero beats cannot come out of the compiler; if one did, playback would give it 0.03 s while its event would claim one beat.

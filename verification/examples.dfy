/**
  Worked inputs of the notation, each derived from the general lemmas:
  what the compiler makes of a few characteristic tokens, token lists and
  texts, and what the pitch helpers make of a few names and numbers.
*/
module Examples {

  import opened Results
  import opened Text
  import opened Tables
  import opened Notes
  import opened Tokenizer
  import opened Parser
  import opened Pitch
  import opened Timeline

  /** A plain swara symbol: no ornament, octave mark or accidental. */
  function Plain(c: char): Symbol {
    Symbol(c, None, 0, 0, 0)
  }

  const Sa: Symbol := Plain('S')
  const Ri: Symbol := Plain('R')
  const Ga: Symbol := Plain('G')

  // ---------------------------------------------------------------------------
  // Spellings, kept apart from the parsing facts they feed

  lemma SRGText()
    ensures EncodeRun([Sa, Ri, Ga]) == "SRG"
    ensures !ContainsMSharp("SRG")
    ensures forall k :: 0 <= k < 3 ==> WellFormedSymbol([Sa, Ri, Ga][k])
  {
    assert EncodeRun([Sa, Ri, Ga]) == EncodeSymbol(Sa) + EncodeRun([Ri, Ga]);
    assert EncodeRun([Ri, Ga]) == EncodeSymbol(Ri) + EncodeRun([Ga]);
    assert !ContainsMSharp("SRG") by {
      forall k ensures !MSharpAt("SRG", k) {}
    }
  }

  lemma PlainText(c: char)
    requires IsBase(c)
    ensures EncodeRun([Plain(c)]) == [c]
    ensures !ContainsMSharp([c])
    ensures WellFormedSymbol(Plain(c))
  {
    assert EncodeRun([Plain(c)]) == EncodeSymbol(Plain(c)) + EncodeRun([]);
  }

  lemma CountOf(d: char)
    requires IsDigit(d) && d != '0'
    ensures RepCount([d]) == DigitValue(d) && DecimalValue([d]) == DigitValue(d) && DigitValue(d) >= 1
  {
    ShortDecimal([d]);
  }

  // ---------------------------------------------------------------------------
  // Single tokens

  /** The notes of `SRG`: three swaras. */
  lemma SRGNotes(key: string)
    ensures var items := SymbolNotes([Sa, Ri, Ga], key);
      |items| == 3 && forall k :: 0 <= k < 3 ==> items[k].Swara?
  {
    SRGText();
  }

  /** A group token over `SRG`, spelled out. */
  lemma GroupSRG(tok: string, ds: string, rs: string, beats: nat, rep: nat, key: string)
    requires AllDigits(ds) && |ds| <= 2 && AllDigits(rs) && |rs| <= 3
    requires tok == "(" + "SRG" + ")" + ds + RepText(rs)
    requires beats == GroupBeats(if ds == [] then None else Some(DecimalValue(ds))) && rep == RepCount(rs)
    ensures Classify(tok, key) == Emit(SpreadGroup(SymbolNotes([Sa, Ri, Ga], key), beats, rep))
  {
    SRGText();
    GroupRunToken([Sa, Ri, Ga], ds, rs, key);
  }

  /** A bare token over `SRG`, spelled out. */
  lemma BareSRG(tok: string, ds: string, rs: string, beats: real, rep: nat, key: string)
    requires AllDigits(ds) && |ds| <= 2 && AllDigits(rs) && |rs| <= 3
    requires tok == "SRG" + ds + RepText(rs)
    requires beats == (if ds == [] then 1 else OrOne(DecimalValue(ds))) as real && rep == RepCount(rs)
    ensures Classify(tok, key) == Emit(Repeat(AllWithBeats(SymbolNotes([Sa, Ri, Ga], key), beats), rep))
  {
    SRGText();
    BareRunToken([Sa, Ri, Ga], ds, rs, key);
  }

  /** The shape of a spread group of swaras: `rep` copies of its items, each a `beats/|items|` share. */
  lemma SpreadShape(items: seq<Note>, beats: nat, rep: nat)
    requires items != [] && forall k :: 0 <= k < |items| ==> items[k].Swara?
    ensures var r := SpreadGroup(items, beats, rep);
      |r| == rep * |items| && forall k :: 0 <= k < |r| ==> r[k].Swara? && r[k].beats == beats as real / |items| as real
  {
    BareShape(items, beats as real / |items| as real, rep);
  }

  /** The shape of a bare run's notes: `rep` copies, each note lasting the full `beats`. */
  lemma BareShape(items: seq<Note>, beats: real, rep: nat)
    requires forall k :: 0 <= k < |items| ==> items[k].Swara?
    ensures var r := Repeat(AllWithBeats(items, beats), rep);
      |r| == rep * |items| && forall k :: 0 <= k < |r| ==> r[k].Swara? && r[k].beats == beats
  {
    var once := AllWithBeats(items, beats);
    assert forall k :: 0 <= k < |once| ==> once[k].Swara? && once[k].beats == beats;
    RepeatLength(once, rep);
  }

  /** `SRGx3`: the run, attached-repeated, gives nine notes of one beat each. */
  lemma AttachedRepeatNine(key: string)
    ensures Classify("SRGx3", key).Emit?
    ensures var ns := Classify("SRGx3", key).notes;
      |ns| == 9 && forall k :: 0 <= k < 9 ==> ns[k].Swara? && ns[k].beats == 1.0
  {
    AttachedThree(key);
    NineOnes(key);
  }

  lemma NineOnes(key: string)
    ensures var ns := Repeat(AllWithBeats(SymbolNotes([Sa, Ri, Ga], key), 1.0), 3);
      |ns| == 9 && forall k :: 0 <= k < 9 ==> ns[k].Swara? && ns[k].beats == 1.0
  {
    SRGNotes(key);
    BareShape(SymbolNotes([Sa, Ri, Ga], key), 1.0, 3);
  }

  lemma AttachedThree(key: string)
    ensures Classify("SRGx3", key) == Emit(Repeat(AllWithBeats(SymbolNotes([Sa, Ri, Ga], key), 1.0), 3))
  {
    CountOf('3');
    BareSRG("SRGx3", [], "3", 1.0, 3, key);
  }

  lemma GroupTwice(key: string)
    ensures Classify("(SRG)x2", key) == Emit(SpreadGroup(SymbolNotes([Sa, Ri, Ga], key), 1, 2))
  {
    CountOf('2');
    GroupSRG("(SRG)x2", [], "2", 1, 2, key);
  }

  lemma GroupOfThree(key: string)
    ensures Classify("(SRG)3", key) == Emit(SpreadGroup(SymbolNotes([Sa, Ri, Ga], key), 3, 1))
  {
    CountOf('3');
    GroupSRG("(SRG)3", "3", [], 3, 1, key);
  }

  /** `(SRG)x2`: the group's one beat is shared three ways, then the group plays twice: six notes of a third of a beat. */
  lemma GroupRepeatSix(key: string)
    ensures Classify("(SRG)x2", key).Emit?
    ensures var ns := Classify("(SRG)x2", key).notes;
      |ns| == 6 && forall k :: 0 <= k < 6 ==> ns[k].Swara? && ns[k].beats == 1.0 / 3.0
  {
    GroupTwice(key);
    SixThirds(key);
  }

  lemma SixThirds(key: string)
    ensures var ns := SpreadGroup(SymbolNotes([Sa, Ri, Ga], key), 1, 2);
      |ns| == 6 && forall k :: 0 <= k < 6 ==> ns[k].Swara? && ns[k].beats == 1.0 / 3.0
  {
    SRGNotes(key);
    SpreadShape(SymbolNotes([Sa, Ri, Ga], key), 1, 2);
  }

  /** `(SRG)3`: three beats spread over three notes, one beat each. */
  lemma GroupDuration(key: string)
    ensures Classify("(SRG)3", key).Emit?
    ensures var ns := Classify("(SRG)3", key).notes;
      |ns| == 3 && forall k :: 0 <= k < 3 ==> ns[k].Swara? && ns[k].beats == 1.0
  {
    GroupOfThree(key);
    ThreeBeatsSpread(key);
  }

  lemma ThreeBeatsSpread(key: string)
    ensures var ns := SpreadGroup(SymbolNotes([Sa, Ri, Ga], key), 3, 1);
      |ns| == 3 && forall k :: 0 <= k < 3 ==> ns[k].Swara? && ns[k].beats == 1.0
  {
    SRGNotes(key);
    SpreadShape(SymbolNotes([Sa, Ri, Ga], key), 3, 1);
  }

  /** `SRG3`: a bare run's duration is not shared: each of the three notes lasts three beats. */
  lemma BareDuration(key: string)
    ensures Classify("SRG3", key).Emit?
    ensures var ns := Classify("SRG3", key).notes;
      |ns| == 3 && forall k :: 0 <= k < 3 ==> ns[k].Swara? && ns[k].beats == 3.0
  {
    BareOfThree(key);
    ThreeBeatsEach(key);
  }

  lemma BareOfThree(key: string)
    ensures Classify("SRG3", key) == Emit(Repeat(AllWithBeats(SymbolNotes([Sa, Ri, Ga], key), 3.0), 1))
  {
    CountOf('3');
    BareSRG("SRG3", "3", [], 3.0, 1, key);
  }

  lemma ThreeBeatsEach(key: string)
    ensures var ns := Repeat(AllWithBeats(SymbolNotes([Sa, Ri, Ga], key), 3.0), 1);
      |ns| == 3 && forall k :: 0 <= k < 3 ==> ns[k].Swara? && ns[k].beats == 3.0
  {
    SRGNotes(key);
    BareShape(SymbolNotes([Sa, Ri, Ga], key), 3.0, 1);
  }

  // ---------------------------------------------------------------------------
  // Whitespace groups: each member read on its own by the lenient parser

  const RiSharp: Symbol := Symbol('R', None, 0, 0, 1)

  lemma WordsText()
    ensures JoinSpaced(["S2", "R#x", "G"]) == "S2 R#x G"
    ensures "(" + "S2 R#x G" + ")" + [] + RepText([]) == "(S2 R#x G)"
    ensures !ContainsMSharp("S2 R#x G")
    ensures forall k :: 0 <= k < 3 ==> IsWord(["S2", "R#x", "G"][k])
  {
    assert JoinSpaced(["S2", "R#x", "G"]) == "S2" + " " + JoinSpaced(["R#x", "G"]);
    assert JoinSpaced(["R#x", "G"]) == "R#x" + " " + JoinSpaced(["G"]);
    assert !ContainsMSharp("S2 R#x G") by {
      forall k ensures !MSharpAt("S2 R#x G", k) {}
    }
    assert !HasSpace("S2") && !HasSpace("R#x") && !HasSpace("G");
  }

  /** `S2` alone: Sa for two beats. */
  lemma SingleSaTwo(key: string)
    ensures ParseSingle("S2", key) == Success(SymbolNote(Sa, key, 2.0))
  {
    SingleWithDigit('S', '2', key);
    assert ['S', '2'] == "S2";
  }

  /** A base and one digit: the plain swara for that many beats. */
  lemma SingleWithDigit(c: char, d: char, key: string)
    requires IsBase(c) && IsDigit(d)
    ensures ParseSingle([c, d], key) == Success(SymbolNote(Plain(c), key, DigitValue(d) as real))
  {
    var s := [c, d];
    assert !ContainsMSharp(s) by {
      forall k ensures !MSharpAt(s, k) {}
    }
    NormalizeMIdentity(s);
    ScanHeadExact(s, None, 0, 0);
    assert s[1..] == [d];
    assert '#' !in [d] && 'b' !in [d];
    assert TrailingDigitCount([d]) == 1;
    assert [d][0..] == [d];
    ShortDecimal([d]);
  }

  /** `R#x` alone: the `#` after the head sharpens Ri, and the `x` is ignored. */
  lemma SingleRiSharp(key: string)
    ensures ParseSingle("R#x", key) == Success(SymbolNote(RiSharp, key, 1.0))
  {
    SingleSharpThen('R', 'x', key);
    assert ['R', '#', 'x'] == "R#x";
  }

  /** A base other than `M`, a `#` and one more character that is no digit: the sharpened swara for one beat. */
  lemma SingleSharpThen(c: char, x: char, key: string)
    requires IsBase(c) && c != 'M' && !IsDigit(x)
    ensures ParseSingle([c, '#', x], key) == Success(SymbolNote(Symbol(c, None, 0, 0, 1), key, 1.0))
  {
    var s := [c, '#', x];
    assert !ContainsMSharp(s) by {
      forall k ensures !MSharpAt(s, k) {}
    }
    NormalizeMIdentity(s);
    ScanHeadExact(s, None, 0, 0);
    assert s[1..] == ['#', x];
    assert '#' in s[1..];
    assert TrailingDigitCount(['#', x]) == 0;
  }

  lemma SingleGa(key: string)
    ensures ParseSingle("G", key) == Success(SymbolNote(Ga, key, 1.0))
  {
    assert EncodeSymbol(Ga) == "G";
    assert !ContainsMSharp("G");
    SingleOfOneSymbol(Ga, key);
  }

  /** `(S2 R#x G)`: its three words are read one by one, and the `x` inside the group is no repetition. */
  lemma WordsGroup(key: string)
    ensures Classify("(S2 R#x G)", key) ==
      Emit(SpreadGroup([SymbolNote(Sa, key, 2.0), SymbolNote(RiSharp, key, 1.0), SymbolNote(Ga, key, 1.0)], 1, 1))
  {
    WordsText();
    SingleSaTwo(key);
    SingleRiSharp(key);
    SingleGa(key);
    GroupOfThreeWords(["S2", "R#x", "G"], "(S2 R#x G)", key,
      SymbolNote(Sa, key, 2.0), SymbolNote(RiSharp, key, 1.0), SymbolNote(Ga, key, 1.0));
  }

  /** A group of three words that each parse, with no duration and no repetition: their notes, spread over one beat. */
  lemma GroupOfThreeWords(ws: seq<string>, tok: string, key: string, a: Note, b: Note, c: Note)
    requires |ws| == 3 && forall k :: 0 <= k < 3 ==> IsWord(ws[k])
    requires !ContainsMSharp(JoinSpaced(ws))
    requires tok == "(" + JoinSpaced(ws) + ")" + [] + RepText([])
    requires ParseSingle(ws[0], key) == Success(a) && ParseSingle(ws[1], key) == Success(b) && ParseSingle(ws[2], key) == Success(c)
    ensures Classify(tok, key) == Emit(SpreadGroup([a, b, c], 1, 1))
  {
    GroupWordsToken(ws, [], [], key);
    ParseWordsOfThree(ws, key, a, b, c);
    assert forall k :: 0 <= k < |ws| ==> ws[k] != [] && IsBase(ws[k][0]) by {
      forall k | 0 <= k < |ws|
        ensures ws[k] != [] && IsBase(ws[k][0])
      {
        assert k == 0 || k == 1 || k == 2;
      }
    }
    assert GroupBeats(None) == 1 && RepCount([]) == 1;
  }

  lemma ParseWordsOfThree(ws: seq<string>, key: string, a: Note, b: Note, c: Note)
    requires |ws| == 3
    requires ParseSingle(ws[0], key) == Success(a) && ParseSingle(ws[1], key) == Success(b) && ParseSingle(ws[2], key) == Success(c)
    ensures ParseWords(ws, key) == Some([a, b, c])
  {
    forall k | 0 <= k < |ws|
      ensures ParseSingle(ws[k], key) == Success([a, b, c][k])
    {
      assert k == 0 || k == 1 || k == 2;
    }
    ParseWordsAll(ws, key, [a, b, c]);
  }

  /** `(S2 R#x G)` is Sa, sharp Ri and Ga, each a third of a beat: the `2` of `S2` is overridden. */
  lemma WordsGroupThirds(key: string)
    ensures Classify("(S2 R#x G)", key).Emit?
    ensures var ns := Classify("(S2 R#x G)", key).notes;
      && |ns| == 3 && (forall k :: 0 <= k < 3 ==> ns[k].Swara? && ns[k].beats == 1.0 / 3.0)
      && ns[0].base == 'S' && ns[1].base == 'R' && ns[2].base == 'G'
      && ns[0].offset == 0 && ns[1].offset == 3 && ns[2].offset == 4
  {
    WordsGroup(key);
    ThreeShared(SymbolNote(Sa, key, 2.0), SymbolNote(RiSharp, key, 1.0), SymbolNote(Ga, key, 1.0));
  }

  /** Three swaras spread over one beat, played once: a third of a beat each, nothing else changed. */
  lemma ThreeShared(a: Note, b: Note, c: Note)
    requires a.Swara? && b.Swara? && c.Swara?
    ensures var ns := SpreadGroup([a, b, c], 1, 1);
      && |ns| == 3 && (forall k :: 0 <= k < 3 ==> ns[k].Swara? && ns[k].beats == 1.0 / 3.0)
      && ns[0] == a.(beats := 1.0 / 3.0) && ns[1] == b.(beats := 1.0 / 3.0) && ns[2] == c.(beats := 1.0 / 3.0)
  {
    var spread := AllWithBeats([a, b, c], 1.0 / 3.0);
    assert Repeat(spread, 1) == spread + Repeat(spread, 0);
  }

  lemma SRXText()
    ensures JoinSpaced(["S", "R", "X"]) == "S R X"
    ensures "(" + "S R X" + ")" + [] + RepText([]) == "(S R X)"
    ensures !ContainsMSharp("S R X")
    ensures forall k :: 0 <= k < 3 ==> IsWord(["S", "R", "X"][k])
  {
    assert JoinSpaced(["S", "R", "X"]) == "S" + " " + JoinSpaced(["R", "X"]);
    assert JoinSpaced(["R", "X"]) == "R" + " " + JoinSpaced(["X"]);
    assert !ContainsMSharp("S R X") by {
      forall k ensures !MSharpAt("S R X", k) {}
    }
    assert !HasSpace("S") && !HasSpace("R") && !HasSpace("X");
  }

  /** One member that is no swara spoils the whole group: `(S R X)` is one error carrying the token. */
  lemma WordsGroupUnknown(key: string)
    ensures Classify("(S R X)", key) == Emit([Error("(S R X)", UnknownInGroup)])
  {
    SRXText();
    GroupWordFails(["S", "R", "X"], 2, key);
  }

  lemma GroupWordFails(ws: seq<string>, k: nat, key: string)
    requires |ws| >= 2 && forall j :: 0 <= j < |ws| ==> IsWord(ws[j])
    requires !ContainsMSharp(JoinSpaced(ws))
    requires k < |ws| && ws[k] != [] && !IsBase(ws[k][0])
    ensures var tok := "(" + JoinSpaced(ws) + ")" + [] + RepText([]);
      Classify(tok, key) == Emit([Error(tok, UnknownInGroup)])
  {
    GroupWordsToken(ws, [], [], key);
  }

  lemma SRG3Text()
    ensures "(" + "SRG3" + ")" + [] + RepText([]) == "(SRG3)"
    ensures EncodeRun([Sa, Ri, Ga]) + ['3'] + [] == "SRG3"
    ensures !ContainsMSharp("(SRG3)") && !ContainsMSharp("SRG3")
    ensures !HasSpace("SRG3") && NoLineBreaks("SRG3")
    ensures forall k :: 0 <= k < 3 ==> WellFormedSymbol([Sa, Ri, Ga][k])
  {
    SRGText();
    assert !ContainsMSharp("(SRG3)") by {
      forall k ensures !MSharpAt("(SRG3)", k) {}
    }
    assert !ContainsMSharp("SRG3") by {
      forall k ensures !MSharpAt("SRG3", k) {}
    }
  }

  /** Without whitespace the group is one strict run, where a digit has no place: `(SRG3)` is an error, unlike `(SRG)3`. */
  lemma RunGroupRejectsDigit(key: string)
    ensures Classify("(SRG3)", key) == Emit([Error("(SRG3)", UnknownRunContent)])
  {
    SRG3Text();
    NormalizeMIdentity("SRG3");
    DecodeRunRejects([Sa, Ri, Ga], '3', []);
    RunGroupRejects("(SRG3)", "SRG3", key);
  }

  lemma RunGroupRejects(tok: string, inner: string, key: string)
    requires tok == "(" + inner + ")" + [] + RepText([])
    requires !ContainsMSharp(tok) && !HasSpace(inner) && NoLineBreaks(inner)
    requires ParseRunString(inner, key) == Failure(UnknownRunContent)
    ensures Classify(tok, key) == Emit([Error(tok, UnknownRunContent)])
  {
    ClassifyUnchanged(tok, key);
    ClassifyTextToBody(tok, tok, key);
    ClassifyBodyGroup(tok, inner, [], [], key);
    TrimNoSpace(inner);
  }

  /** Rest tokens without a count, or with more than two digits, rest one beat. */
  lemma OneBeatRests(key: string)
    ensures Classify("_", key) == Emit([Rest(1.0)])
    ensures Classify("_123", key) == Emit([Rest(1.0)])
  {
    assert !ContainsMSharp("");
    assert !ContainsMSharp("123") by {
      forall k ensures !MSharpAt("123", k) {}
    }
    RestToken([], key);
    RestToken("123", key);
    assert "_" + [] == "_";
  }

  /** `_0` rests zero beats and `_4` four. */
  lemma CountedRests(key: string)
    ensures Classify("_0", key) == Emit([Rest(0.0)])
    ensures Classify("_4", key) == Emit([Rest(4.0)])
  {
    assert !ContainsMSharp("0") && !ContainsMSharp("4");
    RestToken("0", key);
    RestToken("4", key);
    ShortDecimal("0");
    ShortDecimal("4");
  }

  /** A lone base letter is one plain swara of one beat. */
  lemma PlainSwara(c: char, key: string)
    requires IsBase(c)
    ensures Classify([c], key) == Emit([SymbolNote(Plain(c), key, 1.0)])
  {
    PlainText(c);
    NormalizeMIdentity([c]);
    PlainSwaraRaw([c], c, key);
  }

  /** A lone letter that is no swara is an unknown run: one error carrying the token. */
  lemma UnknownLetter(c: char, key: string)
    requires !IsBase(c) && Fresh(c) && !IsDigit(c)
    requires c != '|' && c != '_' && c != '('
    ensures Classify([c], key) == Emit([Error([c], UnknownRunContent)])
  {
    var t := [c];
    NormalizeMIdentity(t);
    assert StripRep(t) == (t, 1);
    assert ParenMatch(t) == None;
    assert BareMain(t) == t;
    DecodeRunRejects([], c, []);
    assert EncodeRun([]) + [c] + [] == t;
  }

  lemma OneSymbolToken(sym: Symbol, tok: string, key: string)
    requires WellFormedSymbol(sym) && sym.accidental == 0 && sym.gamaka.None?
    requires tok == [sym.base] + Marks('\'', sym.ups) + Marks('.', sym.downs)
    ensures Classify(tok, key) == Emit([SymbolNote(sym, key, 1.0)])
  {
    assert EncodeRun([sym]) == tok by {
      assert EncodeRun([sym]) == EncodeSymbol(sym) + EncodeRun([]);
    }
    assert !ContainsMSharp(tok) by {
      forall k ensures !MSharpAt(tok, k) {
        if 0 <= k < |tok| - 1 {
          assert tok[k + 1] != '#';
        }
      }
    }
    BareRunToken([sym], [], [], key);
    assert tok + [] + RepText([]) == tok;
    var n := SymbolNote(sym, key, 1.0);
    assert SymbolNotes([sym], key) == [n];
    assert AllWithBeats([n], 1.0) == [n];
    assert Repeat([n], 1) == [n] + Repeat([n], 0);
  }

  /** `S''` is Sa two octaves up; `S'.` cancels out to the middle octave. */
  lemma OctaveMarks(key: string)
    ensures Classify("S''", key) == Emit([SymbolNote(Symbol('S', None, 2, 0, 0), key, 1.0)])
    ensures Classify("S'.", key) == Emit([SymbolNote(Symbol('S', None, 1, 1, 0), key, 1.0)])
    ensures SymbolNote(Symbol('S', None, 2, 0, 0), key, 1.0).octaveShift == 2
    ensures SymbolNote(Symbol('S', None, 1, 1, 0), key, 1.0).octaveShift == 0
  {
    OneSymbolToken(Symbol('S', None, 2, 0, 0), "S''", key);
    OneSymbolToken(Symbol('S', None, 1, 1, 0), "S'.", key);
  }

  /** `M#` is the plain Ma: the rewrite turns it into `M` before the run is read. */
  lemma SharpMa(key: string)
    ensures Classify("M#", key) == Emit([SymbolNote(Plain('M'), key, 1.0)])
  {
    assert NormalizeM("M#") == "M" + NormalizeM([]);
    assert "M" + [] == ['M'];
    PlainSwaraRaw("M#", 'M', key);
  }

  /** A token whose rewritten text is one swara letter: that swara for one beat. */
  lemma PlainSwaraRaw(raw: string, c: char, key: string)
    requires IsBase(c) && raw != [] && NormalizeM(raw) == [c]
    ensures Classify(raw, key) == Emit([SymbolNote(Plain(c), key, 1.0)])
  {
    OneLetterBare(raw, c, key);
    PlainBareNotes(raw, c, key);
  }

  lemma OneLetterBare(raw: string, c: char, key: string)
    requires IsBase(c) && raw != [] && NormalizeM(raw) == [c]
    ensures Classify(raw, key) == Emit(BareNotes(raw, [c], 1, key))
  {
    ClassifyTextToBody(raw, [c], key);
    OneLetterBody(raw, c, key);
  }

  lemma OneLetterBody(raw: string, c: char, key: string)
    requires IsBase(c)
    ensures ClassifyBody(raw, [c], key) == Emit(BareNotes(raw, [c], 1, key))
  {
    assert [c] + RepText([]) == [c];
    assert NoRepLetters([c]) by {
      assert forall k :: 0 <= k < 1 ==> [c][k] == c;
    }
    ClassifyBodyBare(raw, [c], [], key);
  }

  lemma PlainBareNotes(raw: string, c: char, key: string)
    requires IsBase(c)
    ensures BareNotes(raw, [c], 1, key) == [SymbolNote(Plain(c), key, 1.0)]
  {
    PlainText(c);
    assert [c] + [] == [c];
    BareNotesOf(raw, [Plain(c)], [], 1, key);
    var n := SymbolNote(Plain(c), key, 1.0);
    assert SymbolNotes([Plain(c)], key) == [n];
    assert AllWithBeats([n], 1.0) == [n];
    assert Repeat([n], 1) == [n] + Repeat([n], 0);
  }

  /** Sa with one down mark is read first; the up mark left over begins no symbol. */
  lemma DownThenUpRun(key: string)
    ensures ParseRunString("S.'", key) == Failure(UnknownRunContent)
  {
    assert ['S', '.', '\''] == "S.'";
    DownThenUpOf('S', key);
  }

  lemma DownThenUpOf(c: char, key: string)
    requires IsBase(c)
    ensures ParseRunString([c, '.', '\''], key) == Failure(UnknownRunContent)
  {
    var t := [c, '.', '\''];
    assert !ContainsMSharp(t) by {
      forall k ensures !MSharpAt(t, k) {
        if 0 <= k < |t| - 1 {
          assert t[k + 1] != '#';
        }
      }
    }
    NormalizeMIdentity(t);
    ScanHeadExact(t, None, 0, 1);
    ScanSymbolFromHead(t, 0);
    assert ScanSymbol(t).1 == 2;
    assert t[2..] == "'";
    assert DecodeRun("'") == Failure(UnknownRunContent);
  }

  /** The run failure becomes the token's only note. */
  lemma DownThenUpBody(key: string)
    ensures ClassifyBody("S.'", "S.'", key) == Emit([Error("S.'", UnknownRunContent)])
  {
    var t := "S.'";
    DownThenUpRun(key);
    assert BareMain(t) == t;
    assert BareNotes(t, t, 1, key) == [Error(t, UnknownRunContent)];
    assert StripRep(t) == (t, 1);
    assert ParenMatch(t) == None;
  }

  /** An up mark after a down mark is not part of the symbol: `S.'` is an unknown run. */
  lemma DownThenUp(key: string)
    ensures Classify("S.'", key) == Emit([Error("S.'", UnknownRunContent)])
  {
    var t := "S.'";
    assert NormalizeM(t) == t by {
      assert !ContainsMSharp(t) by {
        forall k ensures !MSharpAt(t, k) {
          if 0 <= k < |t| - 1 {
            assert t[k + 1] != '#';
          }
        }
      }
      NormalizeMIdentity(t);
    }
    DownThenUpBody(key);
    ClassifyTextToBody(t, t, key);
  }

  // ---------------------------------------------------------------------------
  // Token lists

  lemma BarToken(key: string)
    ensures Classify("|", key) == PhraseMark
  {
    NormalizeMIdentity("|");
  }

  lemma RepToken(d: char, key: string)
    requires IsDigit(d) && d != '0'
    ensures Classify(['x', d], key) == RepeatPhrase(DigitValue(d))
  {
    SeparateRepToken('x', [d], key);
    CountOf(d);
    assert ['x'] + [d] == ['x', d];
  }

  /** The fold applies the first token's effect and carries on with the rest. */
  lemma RunHead(ts: seq<string>, key: string, st: ParseState, e: Effect)
    requires Valid(st) && |ts| > 0 && Classify(ts[0], key) == e
    ensures Run(ts, key, st) == Run(ts[1..], key, Apply(st, e))
  {
  }

  /** `S X Y` from any state: one swara, then two errors. */
  lemma SwaraTwoUnknownFrom(ts: seq<string>, key: string, st: ParseState)
    requires Valid(st) && |ts| >= 3 && ts[0] == "S" && ts[1] == "X" && ts[2] == "Y"
    ensures Run(ts, key, st) == Run(ts[3..], key,
      ParseState(st.out + [SymbolNote(Sa, key, 1.0), Error("X", UnknownRunContent), Error("Y", UnknownRunContent)], st.phraseStart))
  {
    PlainSwara('S', key);
    UnknownLetter('X', key);
    UnknownLetter('Y', key);
    ThreeSingleEmits(ts, key, st, SymbolNote(Sa, key, 1.0), Error("X", UnknownRunContent), Error("Y", UnknownRunContent));
  }

  /** Three tokens that each emit one item, from any state: the items in order, the phrase untouched. */
  lemma ThreeSingleEmits(ts: seq<string>, key: string, st: ParseState, a: Note, b: Note, c: Note)
    requires Valid(st) && |ts| >= 3
    requires Classify(ts[0], key) == Emit([a]) && Classify(ts[1], key) == Emit([b]) && Classify(ts[2], key) == Emit([c])
    ensures Run(ts, key, st) == Run(ts[3..], key, ParseState(st.out + [a, b, c], st.phraseStart))
  {
    forall k | 0 <= k < 3
      ensures Classify(ts[k], key) == Emit([[a, b, c][k]])
    {
      assert k == 0 || k == 1 || k == 2;
    }
    SingleEmits(ts, key, st, [a, b, c]);
  }

  /** `Z | R` from any state: an error, a new phrase, and a swara. */
  lemma UnknownBarSwaraFrom(ts: seq<string>, key: string, st: ParseState)
    requires Valid(st) && |ts| == 3 && ts[0] == "Z" && ts[1] == "|" && ts[2] == "R"
    ensures Run(ts, key, st) ==
      ParseState(st.out + [Error("Z", UnknownRunContent), SymbolNote(Ri, key, 1.0)], |st.out| + 1)
  {
    var z := Error("Z", UnknownRunContent);
    var r := SymbolNote(Ri, key, 1.0);
    var o := st.out;
    UnknownLetter('Z', key);
    BarToken(key);
    PlainSwara('R', key);
    var st1 := ParseState(o + [z], st.phraseStart);
    var st2 := ParseState(o + [z], |o| + 1);
    RunHead(ts, key, st, Emit([z]));
    RunHead(ts[1..], key, st1, PhraseMark);
    RunHead(ts[2..], key, st2, Emit([r]));
    assert st2.out + [r] == o + [z, r];
    assert ts[1..][1..] == ts[2..] && ts[2..][1..] == [];
  }

  /** The six tokens `S X Y Z | R` from any state: the unknown letters become errors in place and the bar adds nothing. */
  lemma UnknownLettersFrom(ts: seq<string>, key: string, st: ParseState)
    requires Valid(st)
    requires |ts| == 6 && ts[0] == "S" && ts[1] == "X" && ts[2] == "Y" && ts[3] == "Z" && ts[4] == "|" && ts[5] == "R"
    ensures Run(ts, key, st) ==
      ParseState(st.out + [SymbolNote(Sa, key, 1.0), Error("X", UnknownRunContent), Error("Y", UnknownRunContent),
                           Error("Z", UnknownRunContent), SymbolNote(Ri, key, 1.0)], |st.out| + 4)
  {
    var s, x, y := SymbolNote(Sa, key, 1.0), Error("X", UnknownRunContent), Error("Y", UnknownRunContent);
    var z, r := Error("Z", UnknownRunContent), SymbolNote(Ri, key, 1.0);
    var mid := ParseState(st.out + [s, x, y], st.phraseStart);
    var rest := ts[3..];
    SwaraTwoUnknownFrom(ts, key, st);
    assert |rest| == 3 && rest[0] == "Z" && rest[1] == "|" && rest[2] == "R";
    UnknownBarSwaraFrom(rest, key, mid);
    ThreeThenTwo(st.out, s, x, y, z, r);
  }

  lemma ThreeThenTwo<T>(o: seq<T>, a: T, b: T, c: T, d: T, e: T)
    ensures (o + [a, b, c]) + [d, e] == o + [a, b, c, d, e]
    ensures |o + [a, b, c]| + 1 == |o| + 4
  {
    assert [a, b, c] + [d, e] == [a, b, c, d, e];
    AppendAssoc(o, [a, b, c], [d, e]);
  }

  /** `S X Y Z | R`: the unknown letters become errors in place and the bar adds nothing. */
  lemma UnknownLettersKeepTheirPlace(key: string)
    ensures ParseTokens(["S", "X", "Y", "Z", "|", "R"], key) ==
      [SymbolNote(Sa, key, 1.0), Error("X", UnknownRunContent), Error("Y", UnknownRunContent),
       Error("Z", UnknownRunContent), SymbolNote(Ri, key, 1.0)]
  {
    UnknownLettersFrom(["S", "X", "Y", "Z", "|", "R"], key, ParseState([], 0));
  }

  /** A plain swara of one beat sounds its own letter at its offset above the tonic. */
  lemma PlainEvent(c: char, key: string, saMidi: int)
    requires IsBase(c)
    ensures SymbolNote(Plain(c), key, 1.0).Swara?
    ensures EventOf(SymbolNote(Plain(c), key, 1.0), saMidi) == MidiEvent([c], saMidi + SwaraOffset(c), 1.0, None)
    ensures Sounds(SymbolNote(Plain(c), key, 1.0), saMidi) <==> saMidi + SwaraOffset(c) < FirstInfiniteMidi
  {
    PlainText(c);
  }

  /** Errors between two sounding swaras give no events. */
  lemma SwaraErrorsSwara(s: Note, x: Note, y: Note, z: Note, r: Note, saMidi: int)
    requires Sounds(s, saMidi) && Sounds(r, saMidi) && x.Error? && y.Error? && z.Error?
    ensures ToMidiEvents([s, x, y, z, r], saMidi) == [EventOf(s, saMidi), EventOf(r, saMidi)]
  {
    assert [r][1..] == [];
    assert ToMidiEvents([r], saMidi) == [EventOf(r, saMidi)];
    assert [z, r][1..] == [r];
    assert ToMidiEvents([z, r], saMidi) == [EventOf(r, saMidi)];
    assert [y, z, r][1..] == [z, r];
    assert ToMidiEvents([y, z, r], saMidi) == [EventOf(r, saMidi)];
    assert [x, y, z, r][1..] == [y, z, r];
    assert ToMidiEvents([x, y, z, r], saMidi) == [EventOf(r, saMidi)];
    assert [s, x, y, z, r][1..] == [x, y, z, r];
  }

  /** Of `S X Y Z | R` only the two swaras sound: Sa on the tonic and Ri two semitones above. */
  lemma TwoEventsOfSixTokens(key: string)
    ensures ToMidiEvents(ParseTokens(["S", "X", "Y", "Z", "|", "R"], key), 60) ==
      [MidiEvent("S", 60, 1.0, None), MidiEvent("R", 62, 1.0, None)]
  {
    UnknownLettersKeepTheirPlace(key);
    PlainEvent('S', key, 60);
    PlainEvent('R', key, 60);
    SwaraErrorsSwara(SymbolNote(Sa, key, 1.0), Error("X", UnknownRunContent), Error("Y", UnknownRunContent),
                     Error("Z", UnknownRunContent), SymbolNote(Ri, key, 1.0), 60);
  }

  /**
    Sa 1016 octaves above middle C lies at MIDI 12252, whose frequency is
    Infinity: it gives no event, while one octave lower still sounds.
  */
  lemma OverflowingSwaraIsSilent(key: string)
    ensures ToMidiEvents([SymbolNote(Symbol('S', None, 1016, 0, 0), key, 1.0)], 60) == []
    ensures |ToMidiEvents([SymbolNote(Symbol('S', None, 1015, 0, 0), key, 1.0)], 60)| == 1
  {
    var hi := SymbolNote(Symbol('S', None, 1016, 0, 0), key, 1.0);
    var lo := SymbolNote(Symbol('S', None, 1015, 0, 0), key, 1.0);
    assert SwaraMidi(hi, 60) == 12252;
    assert SwaraMidi(lo, 60) == 12240;
    assert [hi][1..] == [] && [lo][1..] == [];
  }

  // ---------------------------------------------------------------------------
  // Standalone repetition and its scope

  /** A phrase token followed by two standalone repetitions, from any state whose phrase starts at its end: the counts multiply. */
  lemma CompoundingFrom(ts: seq<string>, ns: seq<Note>, a: nat, b: nat, n: nat, key: string, st: ParseState)
    requires n == OrOne(a) * OrOne(b)
    requires Valid(st) && st.phraseStart == |st.out|
    requires |ts| == 3
    requires Classify(ts[0], key) == Emit(ns)
    requires Classify(ts[1], key) == RepeatPhrase(a)
    requires Classify(ts[2], key) == RepeatPhrase(b)
    ensures Run(ts, key, st).out == st.out + Repeat(ns, n)
  {
    var st1 := Apply(st, Emit(ns));
    RunHead(ts, key, st, Emit(ns));
    RunHead(ts[1..], key, st1, RepeatPhrase(a));
    var st2 := Apply(st1, RepeatPhrase(a));
    RunHead(ts[2..], key, st2, RepeatPhrase(b));
    assert ts[1..][1..] == ts[2..] && ts[2..][1..] == [];
    RepeatPhraseCompounds(st1, a, b);
    assert st1.out[..st1.phraseStart] == st.out && st1.out[st1.phraseStart..] == ns;
  }

  lemma PlainSRG(key: string)
    ensures Classify("SRG", key) == Emit(Repeat(AllWithBeats(SymbolNotes([Sa, Ri, Ga], key), 1.0), 1))
  {
    assert RepCount([]) == 1;
    BareSRG("SRG", [], [], 1.0, 1, key);
  }

  lemma CompoundingTokens(key: string)
    ensures Classify("SRG", key) == Emit(Repeat(AllWithBeats(SymbolNotes([Sa, Ri, Ga], key), 1.0), 1))
    ensures Classify("x2", key) == RepeatPhrase(2) && Classify("x3", key) == RepeatPhrase(3)
  {
    PlainSRG(key);
    RepToken('2', key);
    RepToken('3', key);
    CountOf('2');
    CountOf('3');
  }

  /** `SRG x2 x3`: standalone repetitions compound, giving eighteen notes of one beat. */
  lemma StandaloneCompounds(key: string)
    ensures var ns := ParseTokens(["SRG", "x2", "x3"], key);
      |ns| == 18 && forall k :: 0 <= k < 18 ==> ns[k].Swara? && ns[k].beats == 1.0
  {
    CompoundingTokens(key);
    CompoundingFrom(["SRG", "x2", "x3"], Repeat(AllWithBeats(SymbolNotes([Sa, Ri, Ga], key), 1.0), 1), 2, 3, 6, key, ParseState([], 0));
    EighteenOnes(key);
  }

  lemma EighteenOnes(key: string)
    ensures var ns := [] + Repeat(Repeat(AllWithBeats(SymbolNotes([Sa, Ri, Ga], key), 1.0), 1), 6);
      |ns| == 18 && forall k :: 0 <= k < 18 ==> ns[k].Swara? && ns[k].beats == 1.0
  {
    var once := Repeat(AllWithBeats(SymbolNotes([Sa, Ri, Ga], key), 1.0), 1);
    SRGNotes(key);
    BareShape(SymbolNotes([Sa, Ri, Ga], key), 1.0, 1);
    var n := 6;
    RepeatLength(once, n);
    assert [] + Repeat(once, n) == Repeat(once, n);
  }

  /** `S | R x3` from any state: the bar starts a new phrase, so only `R` is repeated. */
  lemma BarScopeFrom(ts: seq<string>, key: string, st: ParseState)
    requires Valid(st)
    requires |ts| == 4 && ts[0] == "S" && ts[1] == "|" && ts[2] == "R" && ts[3] == "x3"
    ensures Run(ts, key, st).out == st.out + [SymbolNote(Sa, key, 1.0)] + Repeat([SymbolNote(Ri, key, 1.0)], 3)
  {
    var s := SymbolNote(Sa, key, 1.0);
    var r := SymbolNote(Ri, key, 1.0);
    PlainSwara('S', key);
    BarToken(key);
    PlainSwara('R', key);
    RepToken('3', key);
    CountOf('3');
    var st1 := Apply(st, Emit([s]));
    RunHead(ts, key, st, Emit([s]));
    RunHead(ts[1..], key, st1, PhraseMark);
    var st2 := Apply(st1, PhraseMark);
    RunHead(ts[2..], key, st2, Emit([r]));
    var st3 := Apply(st2, Emit([r]));
    RunHead(ts[3..], key, st3, RepeatPhrase(3));
    assert ts[1..][1..] == ts[2..] && ts[2..][1..] == ts[3..] && ts[3..][1..] == [];
    PhraseMarkScopesRepeat(st1, [r], 3);
  }

  /** `S | R x3`: Sa once, then Ri three times. */
  lemma BarScopesRepeat(key: string)
    ensures var ns := ParseTokens(["S", "|", "R", "x3"], key);
      |ns| == 4 && ns[0] == SymbolNote(Sa, key, 1.0) && forall k :: 1 <= k < 4 ==> ns[k] == SymbolNote(Ri, key, 1.0)
  {
    BarScopeFrom(["S", "|", "R", "x3"], key, ParseState([], 0));
    ThreeOf(SymbolNote(Ri, key, 1.0));
  }

  lemma ThreeOf(n: Note)
    ensures Repeat([n], 3) == [n, n, n]
  {
    assert Repeat([n], 0) == [];
  }

  // ---------------------------------------------------------------------------
  // Raga membership

  /** A plain swara is marked in the raga exactly when its letter is in the raga's scale. */
  lemma PlainMembership(c: char, key: string)
    requires IsBase(c)
    ensures SymbolNote(Plain(c), key, 1.0).Swara?
    ensures InRaga(SymbolNote(Plain(c), key, 1.0)) <==> InScale(key, c)
    ensures OutOfRaga(SymbolNote(Plain(c), key, 1.0)) <==> !InScale(key, c)
  {
  }

  lemma MayamalavagowlaScale()
    ensures InScale("mayamalavagowla", 'N') && !InScale("mayamalavagowla", 'M')
  {
    assert "SrGmPdN"[6] == 'N';
  }

  /** In Mayamalavagowla (`SrGmPdN`) the swara N belongs to the raga and M does not. */
  lemma MayamalavagowlaMembership()
    ensures InRaga(SymbolNote(Plain('N'), "mayamalavagowla", 1.0))
    ensures OutOfRaga(SymbolNote(Plain('M'), "mayamalavagowla", 1.0))
  {
    MayamalavagowlaScale();
    PlainMembership('N', "mayamalavagowla");
    PlainMembership('M', "mayamalavagowla");
  }

  // ---------------------------------------------------------------------------
  // Whole texts

  /** `S)`: a closing parenthesis before any opening one stalls the tokenizer. */
  lemma StrayCloseHangs(key: string)
    ensures Compile("S)", key).Hangs?
  {
    assert Balance("S)"[..2]) < 0 by {
      assert "S)"[..2] == "S)";
      assert Balance("S)") == ParenDelta('S') + Balance(")");
    }
  }

  /** `(S`: an opening parenthesis never closed does not stall it. */
  lemma UnclosedOpenParses(key: string)
    ensures Compile("(S", key).Parsed?
  {
    OpenSaBalanced();
  }

  lemma OpenSaBalanced()
    ensures !HasStrayClose("(S")
  {
    forall k | 0 <= k <= 2
      ensures Balance("(S"[..k]) >= 0
    {
      if k == 1 {
        assert "(S"[..1] == "(";
      } else if k == 2 {
        assert "(S"[..2] == "(S";
        assert Balance("(S") == ParenDelta('(') + Balance("S");
      }
    }
  }

  /** Text with no newline and no whitespace at either end is scanned as it stands. */
  lemma PreparedAsIs(s: string)
    requires s != [] && !IsSpace(s[0]) && !IsSpace(s[|s| - 1])
    requires forall k :: 0 <= k < |s| ==> s[k] != '\n'
    ensures Prepare(s) == s
  {
    assert NewlinesToSpaces(s) == s;
    assert TrimBounds(s) == (0, |s|);
    assert s[0..|s|] == s;
  }

  /** The scan with one token put in front. */
  function Push(tok: string, sc: Scan): Scan {
    match sc
    case Diverges => Diverges
    case Tokens(ts) => Tokens([tok] + ts)
  }

  /** Whitespace separates tokens and is itself dropped. */
  lemma ScanSpace(s: string, i: nat)
    requires i < |s| && IsSpace(s[i])
    ensures ScanFrom(s, i) == ScanFrom(s, i + 1)
  {
    assert ScanStep(s, i) == ([], i + 1);
  }

  /** A single run character or bar standing alone (followed by whitespace or the end) is one token. */
  lemma ScanSingle(s: string, i: nat)
    requires i < |s| && SingleToken(s[i])
    requires i + 1 == |s| || IsSpace(s[i + 1])
    ensures ScanFrom(s, i) == Push([s[i]], ScanFrom(s, i + 1))
  {
    assert s[i..i + 1] == [s[i]];
    if s[i] != '|' {
      assert RunEnd(s, i) == i + 1;
    }
    assert ScanStep(s, i) == ([[s[i]]], i + 1);
  }

  /** A character that stands alone as a token: a bar, or a run character other than the rest mark. */
  predicate SingleToken(c: char) {
    (IsRunChar(c) || c == '|') && c != '_'
  }

  /** Single-character tokens separated by single blanks, from position `i` on. */
  predicate SpacedFrom(s: string, i: nat) {
    && i < |s| && (|s| - i) % 2 == 1
    && forall k :: i <= k < |s| ==> if (k - i) % 2 == 0 then SingleToken(s[k]) else IsSpace(s[k])
  }

  /** The characters at `i`, `i + 2`, ..., each as a token of its own. */
  function Letters(s: string, i: nat): seq<string>
    decreases |s| - i
  {
    if i >= |s| then [] else [[s[i]]] + Letters(s, i + 2)
  }

  /** Blank-separated single characters scan to one token each. */
  lemma {:induction false} ScanSpaced(s: string, i: nat)
    requires SpacedFrom(s, i)
    ensures ScanFrom(s, i) == Tokens(Letters(s, i))
    decreases |s| - i
  {
    ScanSingle(s, i);
    if i + 1 == |s| {
      assert ScanFrom(s, i + 1) == Tokens([]);
      assert Letters(s, i + 2) == [];
    } else {
      ScanSpace(s, i + 1);
      assert SpacedFrom(s, i + 2) by {
        forall k | i + 2 <= k < |s|
          ensures if (k - (i + 2)) % 2 == 0 then SingleToken(s[k]) else IsSpace(s[k])
        {
          assert (k - i) % 2 == (k - (i + 2)) % 2;
        }
      }
      ScanSpaced(s, i + 2);
    }
  }

  lemma SixSpaced()
    ensures SpacedFrom("S X Y Z | R", 0)
  {
    var s := "S X Y Z | R";
    forall k | 0 <= k < |s|
      ensures if (k - 0) % 2 == 0 then SingleToken(s[k]) else IsSpace(s[k])
    {
    }
  }

  lemma SixLetters()
    ensures Letters("S X Y Z | R", 0) == ["S", "X", "Y", "Z", "|", "R"]
  {
    var s := "S X Y Z | R";
    assert Letters(s, 12) == [];
    assert Letters(s, 10) == ["R"];
    assert Letters(s, 8) == ["|", "R"];
    assert Letters(s, 6) == ["Z", "|", "R"];
    assert Letters(s, 4) == ["Y", "Z", "|", "R"];
    assert Letters(s, 2) == ["X", "Y", "Z", "|", "R"];
  }

  /** `tokenizeForParse("S X Y Z | R")` gives six tokens. */
  lemma TokenizeSix()
    ensures Tokenize("S X Y Z | R") == Tokens(["S", "X", "Y", "Z", "|", "R"])
  {
    PreparedAsIs("S X Y Z | R");
    SixSpaced();
    ScanSpaced("S X Y Z | R", 0);
    SixLetters();
  }

  /** `S X Y Z | R` compiles to five notes, the unknown letters as errors, and sounds two MIDI events. */
  lemma CompileSix(key: string)
    ensures Compile("S X Y Z | R", key) == Parsed([SymbolNote(Sa, key, 1.0), Error("X", UnknownRunContent),
      Error("Y", UnknownRunContent), Error("Z", UnknownRunContent), SymbolNote(Ri, key, 1.0)])
    ensures ToMidiEvents(Compile("S X Y Z | R", key).notes, 60) == [MidiEvent("S", 60, 1.0, None), MidiEvent("R", 62, 1.0, None)]
  {
    TokenizeSix();
    UnknownLettersKeepTheirPlace(key);
    TwoEventsOfSixTokens(key);
  }

  // ---------------------------------------------------------------------------
  // Western names and tempo

  /** `midiFromNoteName`: an unknown name falls back to 60 with or without an octave; `a` in octave 4 is 69, and `C` with no octave is 60. */
  lemma NoteNames()
    ensures MidiFromNoteName("H", None) == 60
    ensures MidiFromNoteName("H", Some(4)) == 60
    ensures MidiFromNoteName("a", Some(4)) == 69
    ensures MidiFromNoteName("C", None) == 60
  {
    assert UpperCase("a") == "A";
    assert UpperCase("H") == "H";
    assert UpperCase("C") == "C";
    NameAt(0);
    NameAt(9);
  }

  /** `noteNameFromMidi`: 60 is C4, 69 is A4 and 0 is C-1. */
  lemma MidiNames()
    ensures NoteNameFromMidi(60) == "C4"
    ensures NoteNameFromMidi(69) == "A4"
    ensures NoteNameFromMidi(0) == "C-1"
  {
    assert 60 % 12 == 0 && 60 / 12 - 1 == 4;
    assert 69 % 12 == 9 && 69 / 12 - 1 == 4;
    assert 0 % 12 == 0 && 0 / 12 - 1 == -1;
  }

  /** At 120 beats per minute a beat lasts half a second; a tempo of 1000 is held to 240. */
  lemma TempoExamples()
    ensures BeatSeconds(Finite(120.0)) == 0.5
    ensures BeatSeconds(Finite(1000.0)) == 0.25
    ensures BeatSeconds(NonFinite) == 0.625
  {
  }
}

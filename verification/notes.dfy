/**
  Parsed notes and the two symbol parsers of the compiler: the strict run
  parser (`parseRunString`), which splits a token such as `SR'g~.#` into
  consecutive swara symbols, and the lenient single-symbol parser
  (`parseSingleTokenStr`) used for whitespace-separated group members.
  Also the raga annotation (`annotateRagaFields`).
*/
module Notes {

  import opened Results
  import opened Text
  import opened Tables

  /**
    A parsed note. A swara carries its canonical token (base, ornament and
    octave marks), its semitone offset above Sa including the accidental, its
    net octave shift, its beat count and whether the selected raga allows its
    base. `outOfRaga` is the negation of `inRaga` on swaras and false on the
    other two kinds.
  */
  datatype Note =
    | Rest(beats: real)
    | Swara(token: string, base: char, gamaka: Option<char>, offset: int, octaveShift: int, beats: real, inRaga: bool)
    | Error(token: string, reason: string)

  predicate InRaga(n: Note) {
    n.Swara? && n.inRaga
  }

  predicate OutOfRaga(n: Note) {
    n.Swara? && !n.inRaga
  }

  const UnknownToken: string := "Unknown token"
  const UnknownRunContent: string := "Unknown run content"
  const UnknownInGroup: string := "Unknown token inside group"
  const EmptyToken: string := "Empty token"

  /** `annotateRagaFields`: tags a swara with membership in the raga named `key`; other notes pass through. */
  function Annotate(n: Note, key: string): (r: Note)
    ensures r.Swara? <==> n.Swara?
    ensures n.Swara? ==> r.inRaga == InScale(key, n.base) && r.(inRaga := n.inRaga) == n
    ensures !n.Swara? ==> r == n
  {
    if n.Swara? then n.(inRaga := InScale(key, n.base)) else n
  }

  /** The two membership flags of an annotated note are opposite, and annotating twice changes nothing more. */
  lemma AnnotateSpec(n: Note, key: string)
    ensures n.Swara? ==> (InRaga(Annotate(n, key)) <==> InScale(key, n.base))
    ensures n.Swara? ==> (OutOfRaga(Annotate(n, key)) <==> !InScale(key, n.base))
    ensures !n.Swara? ==> Annotate(n, key) == n && !InRaga(n) && !OutOfRaga(n)
    ensures Annotate(Annotate(n, key), key) == Annotate(n, key)
  {
  }

  // ---------------------------------------------------------------------------
  // Symbols

  /** One swara symbol of a run: base, optional ornament, octave marks and accidental (+1, 0 or -1). */
  datatype Symbol = Symbol(base: char, gamaka: Option<char>, ups: nat, downs: nat, accidental: int)

  predicate WellFormedSymbol(sym: Symbol) {
    && IsBase(sym.base)
    && (sym.gamaka.Some? ==> IsGamaka(sym.gamaka.value))
    && -1 <= sym.accidental <= 1
  }

  function Marks(c: char, n: nat): (r: string)
    ensures |r| == n && forall k :: 0 <= k < n ==> r[k] == c
  {
    seq(n, _ => c)
  }

  function GamakaText(g: Option<char>): string {
    if g.Some? then [g.value] else []
  }

  function AccidentalText(a: int): string {
    if a == 1 then "#" else if a == -1 then "b" else ""
  }

  /** Canonical display token of a symbol: base, ornament and octave marks, without the accidental. */
  function CanonicalToken(base: char, gamaka: Option<char>, ups: nat, downs: nat): string {
    [base] + GamakaText(gamaka) + Marks('\'', ups) + Marks('.', downs)
  }

  /** The text of one symbol inside a run. */
  function EncodeSymbol(sym: Symbol): string {
    CanonicalToken(sym.base, sym.gamaka, sym.ups, sym.downs) + AccidentalText(sym.accidental)
  }

  /** The text of a whole run. */
  function EncodeRun(syms: seq<Symbol>): string
    decreases |syms|
  {
    if syms == [] then [] else EncodeSymbol(syms[0]) + EncodeRun(syms[1..])
  }

  /** Where each part of a symbol's text sits. */
  lemma EncodeSymbolLayout(sym: Symbol)
    ensures var e := EncodeSymbol(sym);
      var p := 1 + |GamakaText(sym.gamaka)|;
      var q := p + sym.ups + sym.downs;
      && |e| == q + |AccidentalText(sym.accidental)|
      && e[0] == sym.base
      && (sym.gamaka.Some? ==> e[1] == sym.gamaka.value)
      && (forall k :: p <= k < p + sym.ups ==> e[k] == '\'')
      && (forall k :: p + sym.ups <= k < q ==> e[k] == '.')
      && (q < |e| ==> e[q] == AccidentalText(sym.accidental)[0])
  {
    var g := GamakaText(sym.gamaka);
    var u := Marks('\'', sym.ups);
    var d := Marks('.', sym.downs);
    var a := AccidentalText(sym.accidental);
    var e := [sym.base] + g + u + d + a;
    assert EncodeSymbol(sym) == e;
    var p := 1 + |g|;
    assert forall k :: p <= k < p + sym.ups ==> e[k] == u[k - p];
    assert forall k :: p + sym.ups <= k < p + sym.ups + sym.downs ==> e[k] == d[k - p - sym.ups];
  }

  /** Number of consecutive `c` characters starting at `from`. */
  function CountRun(s: string, from: nat, c: char): (n: nat)
    requires from <= |s|
    ensures from + n <= |s|
    ensures forall k :: from <= k < from + n ==> s[k] == c
    ensures from + n == |s| || s[from + n] != c
    decreases |s| - from
  {
    if from == |s| || s[from] != c then 0 else 1 + CountRun(s, from + 1, c)
  }

  lemma {:induction false} CountRunExact(s: string, from: nat, c: char, n: nat)
    requires from + n <= |s|
    requires forall k :: from <= k < from + n ==> s[k] == c
    requires from + n == |s| || s[from + n] != c
    ensures CountRun(s, from, c) == n
    decreases n
  {
    if n > 0 {
      CountRunExact(s, from + 1, c, n - 1);
    }
  }

  /** The leading part both symbol parsers share. */
  datatype Head = Head(base: char, gamaka: Option<char>, ups: nat, downs: nat, len: nat)

  /** Base, then at most one ornament code, then all `'` marks, then all `.` marks. */
  function ScanHead(s: string): (h: Head)
    requires |s| > 0 && IsBase(s[0])
    ensures 1 <= h.len <= |s| && h.base == s[0]
    ensures h.gamaka.Some? ==> IsGamaka(h.gamaka.value)
  {
    var g := if |s| > 1 && IsGamaka(s[1]) then Some(s[1]) else None;
    var p := if g.Some? then 2 else 1;
    var ups := CountRun(s, p, '\'');
    var downs := CountRun(s, p + ups, '.');
    Head(s[0], g, ups, downs, p + ups + downs)
  }

  /** One symbol of a run: the head, then at most one `#` or `b`; also how many characters it used. */
  function ScanSymbol(s: string): (r: (Symbol, nat))
    requires |s| > 0 && IsBase(s[0])
    ensures 1 <= r.1 <= |s| && WellFormedSymbol(r.0)
  {
    var h := ScanHead(s);
    var acc := if h.len < |s| && s[h.len] == '#' then 1 else if h.len < |s| && s[h.len] == 'b' then -1 else 0;
    (Symbol(h.base, h.gamaka, h.ups, h.downs, acc), if acc != 0 then h.len + 1 else h.len)
  }

  /** The scanner reads exactly the text of the symbol it returns. */
  lemma ScanSymbolReadsEncoding(s: string)
    requires |s| > 0 && IsBase(s[0])
    ensures var (sym, n) := ScanSymbol(s); s[..n] == EncodeSymbol(sym)
  {
    var (sym, n) := ScanSymbol(s);
    var e := EncodeSymbol(sym);
    EncodeSymbolLayout(sym);
    var p := 1 + |GamakaText(sym.gamaka)|;
    assert |e| == n;
    forall k | 0 <= k < n
      ensures s[k] == e[k]
    {
    }
  }

  /** The head scanner reads back any base, ornament and mark counts laid out as the grammar says. */
  lemma ScanHeadExact(s: string, g: Option<char>, ups: nat, downs: nat)
    requires |s| > 0 && IsBase(s[0])
    requires g.Some? ==> |s| > 1 && s[1] == g.value && IsGamaka(g.value)
    requires g.None? ==> |s| == 1 || !IsGamaka(s[1])
    requires var p := if g.Some? then 2 else 1;
      && p + ups + downs <= |s|
      && (forall k :: p <= k < p + ups ==> s[k] == '\'')
      && (p + ups == |s| || s[p + ups] != '\'')
      && (forall k :: p + ups <= k < p + ups + downs ==> s[k] == '.')
      && (p + ups + downs == |s| || s[p + ups + downs] != '.')
    ensures ScanHead(s) == Head(s[0], g, ups, downs, (if g.Some? then 2 else 1) + ups + downs)
  {
    var p := if g.Some? then 2 else 1;
    CountRunExact(s, p, '\'', ups);
    CountRunExact(s, p + ups, '.', downs);
  }

  /** A character that no symbol would take as its continuation; every base is one. */
  predicate Fresh(c: char) {
    !IsGamaka(c) && c != '\'' && c != '.' && c != '#' && c != 'b'
  }

  /** A text that can follow a complete symbol without being read as part of it. */
  predicate StartsFresh(rest: string) {
    rest == [] || Fresh(rest[0])
  }

  /** `s` begins with the text of `sym`, and what follows is fresh. */
  predicate BeginsWith(s: string, sym: Symbol) {
    var e := EncodeSymbol(sym);
    && |e| <= |s|
    && (forall k :: 0 <= k < |e| ==> s[k] == e[k])
    && (|e| < |s| ==> Fresh(s[|e|]))
  }

  lemma MarksIn(s: string, sym: Symbol)
    requires WellFormedSymbol(sym) && BeginsWith(s, sym)
    ensures var p := 1 + |GamakaText(sym.gamaka)|;
      && (forall k :: p <= k < p + sym.ups ==> s[k] == '\'')
      && (p + sym.ups == |s| || s[p + sym.ups] != '\'')
      && (forall k :: p + sym.ups <= k < p + sym.ups + sym.downs ==> s[k] == '.')
      && (p + sym.ups + sym.downs == |s| || s[p + sym.ups + sym.downs] != '.')
  {
    EncodeSymbolLayout(sym);
  }

  lemma HeadIn(s: string, sym: Symbol)
    requires WellFormedSymbol(sym) && BeginsWith(s, sym)
    ensures |s| > 0 && s[0] == sym.base
    ensures sym.gamaka.Some? ==> |s| > 1 && s[1] == sym.gamaka.value
    ensures sym.gamaka.None? ==> |s| == 1 || !IsGamaka(s[1])
  {
    EncodeSymbolLayout(sym);
  }

  lemma AccidentalIn(s: string, sym: Symbol)
    requires WellFormedSymbol(sym) && BeginsWith(s, sym)
    ensures var q := 1 + |GamakaText(sym.gamaka)| + sym.ups + sym.downs;
      && q <= |s|
      && (sym.accidental == 1 <==> q < |s| && s[q] == '#')
      && (sym.accidental == -1 <==> q < |s| && s[q] == 'b')
      && |EncodeSymbol(sym)| == (if sym.accidental == 0 then q else q + 1)
  {
    EncodeSymbolLayout(sym);
  }

  /** A well-formed symbol's text followed by a fresh start scans back to that symbol. */
  lemma ScanSymbolOfText(s: string, sym: Symbol)
    requires WellFormedSymbol(sym) && BeginsWith(s, sym)
    ensures |s| > 0 && IsBase(s[0])
    ensures ScanSymbol(s) == (sym, |EncodeSymbol(sym)|)
  {
    var q := 1 + |GamakaText(sym.gamaka)| + sym.ups + sym.downs;
    ScanHeadOfText(s, sym);
    var n := if sym.accidental == 0 then q else q + 1;
    assert n == |EncodeSymbol(sym)| && ScanSymbol(s) == (sym, n) by {
      AccidentalIn(s, sym);
      ScanSymbolFromHead(s, sym.accidental);
    }
  }

  lemma ScanHeadOfText(s: string, sym: Symbol)
    requires WellFormedSymbol(sym) && BeginsWith(s, sym)
    ensures |s| > 0 && IsBase(s[0])
    ensures ScanHead(s) == Head(sym.base, sym.gamaka, sym.ups, sym.downs, 1 + |GamakaText(sym.gamaka)| + sym.ups + sym.downs)
  {
    HeadIn(s, sym);
    MarksIn(s, sym);
    ScanHeadExact(s, sym.gamaka, sym.ups, sym.downs);
  }

  lemma ScanSymbolFromHead(s: string, acc: int)
    requires |s| > 0 && IsBase(s[0])
    requires var n := ScanHead(s).len;
      && (acc == 1 <==> n < |s| && s[n] == '#')
      && (acc == -1 <==> n < |s| && s[n] == 'b')
      && -1 <= acc <= 1
    ensures var h := ScanHead(s);
      ScanSymbol(s) == (Symbol(h.base, h.gamaka, h.ups, h.downs, acc), if acc == 0 then h.len else h.len + 1)
  {
  }

  lemma ScanSymbolOfEncoding(sym: Symbol, rest: string)
    requires WellFormedSymbol(sym) && StartsFresh(rest)
    ensures ScanSymbol(EncodeSymbol(sym) + rest) == (sym, |EncodeSymbol(sym)|)
  {
    var s := EncodeSymbol(sym) + rest;
    assert BeginsWith(s, sym);
    ScanSymbolOfText(s, sym);
  }

  // ---------------------------------------------------------------------------
  // Runs

  /** Splits a run into symbols; fails as a whole at the first position that does not start with a base. */
  function DecodeRun(s: string): (r: Result<seq<Symbol>>)
    ensures r.Failure? ==> r.error == UnknownRunContent
    decreases |s|
  {
    if s == [] then Success([])
    else if !IsBase(s[0]) then Failure(UnknownRunContent)
    else
      var (sym, n) := ScanSymbol(s);
      match DecodeRun(s[n..])
      case Failure(e) => Failure(e)
      case Success(rest) => Success([sym] + rest)
  }

  /** A non-empty run's text starts with its first base, so it is a fresh start. */
  lemma EncodeRunStart(syms: seq<Symbol>)
    requires forall k :: 0 <= k < |syms| ==> WellFormedSymbol(syms[k])
    ensures syms != [] ==> |EncodeRun(syms)| > 0 && EncodeRun(syms)[0] == syms[0].base
    ensures syms == [] ==> EncodeRun(syms) == []
    ensures StartsFresh(EncodeRun(syms))
  {
    if syms != [] {
      var e := EncodeSymbol(syms[0]);
      assert e == [syms[0].base] + (e[1..]);
      assert EncodeRun(syms) == e + EncodeRun(syms[1..]);
    }
  }

  /** Decoding inverts encoding on well-formed symbol lists. */
  lemma {:induction false} DecodeEncodeRun(syms: seq<Symbol>)
    requires forall k :: 0 <= k < |syms| ==> WellFormedSymbol(syms[k])
    ensures DecodeRun(EncodeRun(syms)) == Success(syms)
    decreases |syms|
  {
    if syms != [] {
      var rest := EncodeRun(syms[1..]);
      var e := EncodeSymbol(syms[0]);
      var s := EncodeRun(syms);
      assert s == e + rest;
      EncodeRunStart(syms[1..]);
      assert BeginsWith(s, syms[0]);
      ScanSymbolOfText(s, syms[0]);
      assert s[|e|..] == rest;
      DecodeEncodeRun(syms[1..]);
      assert [syms[0]] + syms[1..] == syms;
    }
  }

  /** Every accepted run is exactly the text of the symbols it decodes to. */
  lemma {:induction false} EncodeDecodeRun(s: string)
    requires DecodeRun(s).Success?
    ensures EncodeRun(DecodeRun(s).value) == s
    decreases |s|
  {
    if s != [] {
      var sym := ScanSymbol(s).0;
      var n := ScanSymbol(s).1;
      var rest := DecodeRun(s[n..]).value;
      assert DecodeRun(s).value == [sym] + rest;
      ScanSymbolReadsEncoding(s);
      EncodeDecodeRun(s[n..]);
      EncodeCons(s, n, sym, rest);
    }
  }

  lemma EncodeCons(s: string, n: nat, sym: Symbol, rest: seq<Symbol>)
    requires n <= |s| && s[..n] == EncodeSymbol(sym) && EncodeRun(rest) == s[n..]
    ensures EncodeRun([sym] + rest) == s
  {
    assert ([sym] + rest)[1..] == rest;
    assert s == s[..n] + s[n..];
  }

  /** The characters a run's text is made of. */
  predicate SymbolChar(c: char) {
    IsBase(c) || IsGamaka(c) || c == '\'' || c == '.' || c == '#' || c == 'b'
  }

  lemma EncodeSymbolChars(sym: Symbol)
    requires WellFormedSymbol(sym)
    ensures forall k :: 0 <= k < |EncodeSymbol(sym)| ==> SymbolChar(EncodeSymbol(sym)[k])
  {
    EncodeSymbolLayout(sym);
  }

  lemma {:induction false} EncodeRunChars(syms: seq<Symbol>)
    requires forall k :: 0 <= k < |syms| ==> WellFormedSymbol(syms[k])
    ensures forall k :: 0 <= k < |EncodeRun(syms)| ==> SymbolChar(EncodeRun(syms)[k])
    decreases |syms|
  {
    if syms != [] {
      EncodeSymbolChars(syms[0]);
      EncodeRunChars(syms[1..]);
    }
  }

  /** The note for a symbol: offset from the swara table plus the accidental, octave shift ups minus downs. */
  function SymbolNote(sym: Symbol, key: string, beats: real): Note
    requires IsBase(sym.base)
  {
    Annotate(Swara(CanonicalToken(sym.base, sym.gamaka, sym.ups, sym.downs), sym.base, sym.gamaka,
                   SwaraOffset(sym.base) + sym.accidental, sym.ups - sym.downs, beats, false), key)
  }

  function SymbolNotes(syms: seq<Symbol>, key: string): (ns: seq<Note>)
    requires forall k :: 0 <= k < |syms| ==> WellFormedSymbol(syms[k])
    ensures |ns| == |syms|
  {
    seq(|syms|, k requires 0 <= k < |syms| => assert WellFormedSymbol(syms[k]); SymbolNote(syms[k], key, 1.0))
  }

  lemma DecodeRunWellFormed(s: string)
    requires DecodeRun(s).Success?
    ensures forall k :: 0 <= k < |DecodeRun(s).value| ==> WellFormedSymbol(DecodeRun(s).value[k])
    decreases |s|
  {
    if s != [] {
      var (sym, n) := ScanSymbol(s);
      DecodeRunWellFormed(s[n..]);
    }
  }

  /** `parseRunString`: the `M#` rewrite, then the symbols of the run as notes of one beat each. */
  function ParseRunString(runStr: string, key: string): (r: Result<seq<Note>>)
    ensures r.Failure? ==> r.error == UnknownRunContent
    ensures r.Success? ==> (|r.value| > 0 <==> |runStr| > 0)
    ensures r.Success? ==> forall k :: 0 <= k < |r.value| ==> ParsedSwara(r.value[k], key)
  {
    var s := NormalizeM(runStr);
    match DecodeRun(s)
    case Failure(e) => Failure(e)
    case Success(syms) =>
      DecodeRunWellFormed(s);
      Success(SymbolNotes(syms, key))
  }

  /** What the symbol parsers guarantee about every note they produce, whatever its beats. */
  predicate ParsedSwara(n: Note, key: string) {
    && n.Swara?
    && IsBase(n.base)
    && (n.gamaka.Some? ==> IsGamaka(n.gamaka.value))
    && -1 <= n.offset - SwaraOffset(n.base) <= 1
    && n.inRaga == InScale(key, n.base)
  }

  // ---------------------------------------------------------------------------
  // Single symbols inside whitespace-separated groups

  /** Value of the last one or two digits of `t`, when it ends in a digit. */
  function TrailingDigitCount(t: string): (d: nat)
    ensures d <= 2 && d <= |t|
    ensures forall k :: |t| - d <= k < |t| ==> IsDigit(t[k])
    ensures d < 2 && d < |t| ==> !IsDigit(t[|t| - d - 1])
  {
    if |t| >= 1 && IsDigit(t[|t| - 1]) then
      (if |t| >= 2 && IsDigit(t[|t| - 2]) then 2 else 1)
    else 0
  }

  /** `parseSingleTokenStr`: a leading head; any `#` after it sharpens, else any `b` flattens; trailing digits give the beats. */
  function ParseSingle(tok: string, key: string): (r: Result<Note>)
    ensures r.Failure? ==> r.error == UnknownToken
    ensures r.Success? <==> tok != [] && IsBase(tok[0])
    ensures r.Success? ==> ParsedSwara(r.value, key)
  {
    var s := NormalizeM(tok);
    if s == [] || !IsBase(s[0]) then Failure(UnknownToken)
    else
      var h := ScanHead(s);
      var trailing := s[h.len..];
      Success(SymbolNote(Symbol(h.base, h.gamaka, h.ups, h.downs, TrailingAccidental(trailing)), key, TrailingBeats(trailing) as real))
  }

  /** Any `#` after the head sharpens; otherwise any `b` flattens. */
  function TrailingAccidental(trailing: string): int {
    if '#' in trailing then 1 else if 'b' in trailing then -1 else 0
  }

  /** The digits at the very end give the beats; without any the symbol lasts one beat. */
  function TrailingBeats(trailing: string): nat {
    var d := TrailingDigitCount(trailing);
    if d == 0 then 1 else DecimalValue(trailing[|trailing| - d..])
  }

  /** The run parser reads the text of any well-formed symbol list back as those symbols' notes. */
  lemma RunOfSymbols(syms: seq<Symbol>, key: string)
    requires forall k :: 0 <= k < |syms| ==> WellFormedSymbol(syms[k])
    requires !ContainsMSharp(EncodeRun(syms))
    ensures ParseRunString(EncodeRun(syms), key) == Success(SymbolNotes(syms, key))
  {
    NormalizeMIdentity(EncodeRun(syms));
    DecodeEncodeRun(syms);
  }

  /** A character that is neither a base nor a continuation ends a run in failure, whatever came before. */
  lemma {:induction false} DecodeRunRejects(syms: seq<Symbol>, c: char, rest: string)
    requires forall k :: 0 <= k < |syms| ==> WellFormedSymbol(syms[k])
    requires Fresh(c) && !IsBase(c)
    ensures DecodeRun(EncodeRun(syms) + [c] + rest) == Failure(UnknownRunContent)
    decreases |syms|
  {
    if syms != [] {
      var tail := EncodeRun(syms[1..]) + [c] + rest;
      var e := EncodeSymbol(syms[0]);
      var s := EncodeRun(syms) + [c] + rest;
      assert s == e + tail;
      EncodeRunStart(syms[1..]);
      assert Fresh(tail[0]);
      assert BeginsWith(s, syms[0]);
      ScanSymbolOfText(s, syms[0]);
      assert s[|e|..] == tail;
      DecodeRunRejects(syms[1..], c, rest);
    }
  }

  /** On the text of one symbol the lenient parser gives the note the run parser gives for it. */
  lemma SingleOfOneSymbol(sym: Symbol, key: string)
    requires WellFormedSymbol(sym) && !ContainsMSharp(EncodeSymbol(sym))
    ensures ParseSingle(EncodeSymbol(sym), key) == Success(SymbolNote(sym, key, 1.0))
  {
    var e := EncodeSymbol(sym);
    NormalizeMIdentity(e);
    assert BeginsWith(e, sym);
    ScanHeadOfText(e, sym);
    var q := 1 + |GamakaText(sym.gamaka)| + sym.ups + sym.downs;
    assert e[q..] == AccidentalText(sym.accidental) by {
      assert |CanonicalToken(sym.base, sym.gamaka, sym.ups, sym.downs)| == q;
    }
    SingleOfHead(e, ScanHead(e), sym.accidental, key);
  }

  /** A text that is a head followed by an accidental's text parses, on its own, as that symbol for one beat. */
  lemma SingleOfHead(s: string, h: Head, a: int, key: string)
    requires NormalizeM(s) == s && |s| > 0 && IsBase(s[0]) && ScanHead(s) == h
    requires -1 <= a <= 1 && h.len <= |s| && s[h.len..] == AccidentalText(a)
    ensures ParseSingle(s, key) == Success(SymbolNote(Symbol(h.base, h.gamaka, h.ups, h.downs, a), key, 1.0))
  {
    AccidentalTrailing(a);
  }

  /** An accidental's own text, read after a head, gives back that accidental and no beats. */
  lemma AccidentalTrailing(a: int)
    requires -1 <= a <= 1
    ensures TrailingAccidental(AccidentalText(a)) == a && TrailingBeats(AccidentalText(a)) == 1
  {
    var t := AccidentalText(a);
    if a == 1 {
      assert t[0] == '#';
    } else if a == -1 {
      assert t == "b" && t[0] == 'b' && '#' !in t;
    } else {
      assert t == [] && '#' !in t && 'b' !in t;
    }
  }
}

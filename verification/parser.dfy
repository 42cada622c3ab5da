/**
  The token-level grammar of the compiler (`parseSequence`): a fold over the
  tokenizer's output that carries the notes produced so far and the index
  where the current phrase (the text after the last `|`) begins.
*/
module Parser {

  import opened Results
  import opened Text
  import opened Tables
  import opened Notes
  import opened Tokenizer

  // ---------------------------------------------------------------------------
  // Repetition

  /** `n` consecutive copies of `xs`. */
  function Repeat<T>(xs: seq<T>, n: nat): (r: seq<T>)
    ensures forall k :: 0 <= k < |r| ==> r[k] in xs
    decreases n
  {
    if n == 0 then [] else xs + Repeat(xs, n - 1)
  }

  lemma {:induction false} RepeatLength<T>(xs: seq<T>, n: nat)
    ensures |Repeat(xs, n)| == n * |xs|
    decreases n
  {
    if n > 0 {
      RepeatLength(xs, n - 1);
      assert |xs| + (n - 1) * |xs| == n * |xs|;
    }
  }

  /** Copy `j` of a repetition is exactly the chunk: the copies are whole and in order. */
  lemma {:induction false} RepeatCopy<T>(xs: seq<T>, n: nat, j: nat)
    requires j < n
    ensures (j + 1) * |xs| <= |Repeat(xs, n)|
    ensures Repeat(xs, n)[j * |xs| .. (j + 1) * |xs|] == xs
    decreases n
  {
    RepeatLength(xs, n);
    var r := Repeat(xs, n - 1);
    var m := |xs|;
    assert Repeat(xs, n) == xs + r;
    MulStep(j, n, m);
    if j == 0 {
      assert (xs + r)[0..m] == xs;
    } else {
      RepeatCopy(xs, n - 1, j - 1);
      SliceAfter(xs, r, m + (j - 1) * m, m + j * m);
    }
  }

  /** A slice lying wholly in the second part of a concatenation is a slice of that part. */
  lemma SliceAfter<T>(a: seq<T>, b: seq<T>, i: nat, k: nat)
    requires |a| <= i <= k <= |a| + |b|
    ensures (a + b)[i..k] == b[i - |a|..k - |a|]
  {
  }

  lemma MulStep(j: nat, n: nat, m: nat)
    requires j < n
    ensures (j + 1) * m <= n * m
    ensures j > 0 ==> j * m == m + (j - 1) * m
    ensures (j + 1) * m == m + j * m
  {
  }

  lemma {:induction false} RepeatAdd<T>(xs: seq<T>, a: nat, b: nat)
    ensures Repeat(xs, a + b) == Repeat(xs, a) + Repeat(xs, b)
    decreases a
  {
    if a > 0 {
      var rb := Repeat(xs, b);
      var ra := Repeat(xs, a - 1);
      RepeatAdd(xs, a - 1, b);
      assert Repeat(xs, a + b) == xs + Repeat(xs, (a - 1) + b);
      assert xs + (ra + rb) == (xs + ra) + rb;
    } else {
      assert [] + Repeat(xs, b) == Repeat(xs, b);
    }
  }

  /** Repeating a repetition multiplies the counts: successive standalone `xN` tokens compound. */
  lemma {:induction false} RepeatMul<T>(xs: seq<T>, a: nat, b: nat)
    ensures Repeat(Repeat(xs, a), b) == Repeat(xs, a * b)
    decreases b
  {
    if b > 0 {
      RepeatMul(xs, a, b - 1);
      RepeatAdd(xs, a, a * (b - 1));
      assert a + a * (b - 1) == a * b;
    }
  }

  /** `replicate`: the `times - 1` extra copies of `chunk` appended after it; nothing when `times <= 1`. */
  function Replicate<T>(chunk: seq<T>, times: nat): (r: seq<T>)
    ensures chunk + r == Repeat(chunk, OrOne(times))
  {
    if times <= 1 then
      assert chunk + [] == chunk + Repeat(chunk, 0);
      []
    else Repeat(chunk, times - 1)
  }

  /** `parseInt(digits) || 1`: a zero count means one. */
  function OrOne(n: nat): (r: nat)
    ensures r >= 1 && (n >= 1 ==> r == n)
  {
    if n == 0 then 1 else n
  }

  // ---------------------------------------------------------------------------
  // Token shapes the grammar recognises

  predicate NoLineTerminatorBefore(t: string, n: nat)
    requires n <= |t|
  {
    forall k :: 0 <= k < n ==> !IsLineTerminator(t[k])
  }

  /** Does `t` end in an `x` followed by exactly `d` digits, with no line break before the `x`? */
  predicate RepSuffixAt(t: string, d: nat) {
    && d + 1 <= |t|
    && IsX(t[|t| - d - 1])
    && (forall k :: |t| - d <= k < |t| ==> IsDigit(t[k]))
    && NoLineTerminatorBefore(t, |t| - d - 1)
  }

  /** Digit count of the attached repetition `^(.*)x([0-9]{1,3})$`: the greedy prefix leaves the shortest suffix. */
  function AttachedRepDigits(t: string): (d: nat)
  {
    if RepSuffixAt(t, 1) then 1 else if RepSuffixAt(t, 2) then 2 else if RepSuffixAt(t, 3) then 3 else 0
  }

  /** The suffix split off is the shortest `x` and 1 to 3 digits that fits; none is split when none fits. */
  lemma AttachedRepIsShortest(t: string)
    ensures var d := AttachedRepDigits(t);
      && d <= 3
      && (d > 0 ==> RepSuffixAt(t, d) && forall e :: 1 <= e < d ==> !RepSuffixAt(t, e))
      && (d == 0 ==> forall e :: 1 <= e <= 3 ==> !RepSuffixAt(t, e))
  {
  }

  /** The token without its attached `xN`, and the repetition count (1 when there is none). */
  function StripRep(t: string): (r: (string, nat))
    ensures r.1 >= 1
  {
    var d := AttachedRepDigits(t);
    if d == 0 then (t, 1) else (t[..|t| - d - 1], OrOne(DecimalValue(t[|t| - d..])))
  }

  /** A parenthesised group: its inner text and its optional duration digits' value. */
  datatype Paren = Paren(inner: string, dur: Option<nat>)

  /** `t` is `(`, `n` inner characters, `)` and then nothing but 0 to 2 digits. */
  predicate ParenShape(t: string, n: nat) {
    && n + 2 <= |t|
    && t[0] == '('
    && t[n + 1] == ')'
    && |t| <= n + 4
    && (forall k :: n + 2 <= k < |t| ==> IsDigit(t[k]))
  }

  /** `^\(([\s\S]*)\)([0-9]{1,2})?$`: the greedy inner part takes as much as the closing paren allows. */
  function ParenMatch(t: string): (r: Option<Paren>)
  {
    var n := |t|;
    if n >= 2 && t[0] == '(' && t[n - 1] == ')' then
      Some(Paren(t[1..n - 1], None))
    else if n >= 3 && t[0] == '(' && t[n - 2] == ')' && IsDigit(t[n - 1]) then
      Some(Paren(t[1..n - 2], Some(DecimalValue(t[n - 1..]))))
    else if n >= 4 && t[0] == '(' && t[n - 3] == ')' && IsDigit(t[n - 2]) && IsDigit(t[n - 1]) then
      Some(Paren(t[1..n - 3], Some(DecimalValue(t[n - 2..]))))
    else None
  }

  /** The match is the regular expression's: a group shape, with the longest inner text; none when no shape fits. */
  lemma ParenMatchIsGreedy(t: string)
    ensures var r := ParenMatch(t);
      && (r.Some? ==> var n := |r.value.inner|;
        && ParenShape(t, n)
        && r.value.inner == t[1..n + 1]
        && (r.value.dur.None? <==> |t| == n + 2)
        && (r.value.dur.Some? ==> r.value.dur.value == DecimalValue(t[n + 2..]))
        && forall m :: n < m ==> !ParenShape(t, m))
      && (r.None? ==> forall m :: !ParenShape(t, m))
  {
  }

  /** `x` followed by one or more digits: a standalone phrase repetition. */
  predicate IsSeparateRep(t: string) {
    |t| >= 2 && IsX(t[0]) && AllDigits(t[1..])
  }

  /** Beats of a rest token `_`, `_D` or `_DD`; any other text after `_` gives 1. */
  function RestBeats(t: string): (b: nat)
    requires |t| >= 1 && t[0] == '_'
    ensures 2 <= |t| <= 3 && AllDigits(t[1..]) ==> b == DecimalValue(t[1..])
    ensures !(2 <= |t| <= 3 && AllDigits(t[1..])) ==> b == 1
    ensures b <= 99
  {
    if 2 <= |t| <= 3 && AllDigits(t[1..]) then
      ShortDecimal(t[1..]);
      DecimalValue(t[1..])
    else 1
  }

  // ---------------------------------------------------------------------------
  // Notes of one token

  /** Overwrites the beats of a produced swara. */
  function WithBeats(n: Note, b: real): Note {
    if n.Swara? then n.(beats := b) else n
  }

  function AllWithBeats(ns: seq<Note>, b: real): (r: seq<Note>)
    ensures |r| == |ns|
  {
    seq(|ns|, k requires 0 <= k < |ns| => WithBeats(ns[k], b))
  }

  /** The values of a list of results, or none as soon as one of them failed. */
  function Collect<T>(rs: seq<Result<T>>): Option<seq<T>>
    decreases |rs|
  {
    if rs == [] then Some([])
    else match rs[0]
      case Failure(_) => None
      case Success(v) =>
        match Collect(rs[1..])
        case None => None
        case Some(rest) => Some([v] + rest)
  }

  /** There is no value list exactly when some result failed; otherwise it lists every result's value, in order. */
  lemma {:induction false} CollectSpec<T>(rs: seq<Result<T>>)
    ensures var r := Collect(rs);
      && (r.None? <==> exists k :: 0 <= k < |rs| && rs[k].Failure?)
      && (r.Some? ==> |r.value| == |rs| && forall k :: 0 <= k < |rs| ==> rs[k] == Success(r.value[k]))
    decreases |rs|
  {
    if rs != [] {
      var r := Collect(rs);
      var t := Collect(rs[1..]);
      CollectSpec(rs[1..]);
      match rs[0]
      case Failure(_) =>
        assert r.None?;
      case Success(v) =>
        if t.None? {
          var k :| 0 <= k < |rs[1..]| && rs[1..][k].Failure?;
          assert rs[1..][k] == rs[k + 1];
        } else {
          assert r == Some([v] + t.value);
          forall k | 0 <= k < |rs|
            ensures rs[k] == Success(r.value[k])
          {
            if k > 0 {
              assert rs[k] == rs[1..][k - 1];
            }
          }
        }
    }
  }

  /** Each word through the lenient single-symbol parser; no result when any word fails. */
  function ParseWords(ws: seq<string>, key: string): Option<seq<Note>> {
    Collect(seq(|ws|, k requires 0 <= k < |ws| => ParseSingle(ws[k], key)))
  }

  /** There is no result exactly when some word fails; otherwise the notes are the words' notes, in order. */
  lemma ParseWordsSpec(ws: seq<string>, key: string)
    ensures var r := ParseWords(ws, key);
      && (r.None? <==> exists k :: 0 <= k < |ws| && ParseSingle(ws[k], key).Failure?)
      && (r.Some? ==> |r.value| == |ws| && forall k :: 0 <= k < |ws| ==> ParseSingle(ws[k], key) == Success(r.value[k]))
  {
    var rs := seq(|ws|, k requires 0 <= k < |ws| => ParseSingle(ws[k], key));
    CollectSpec(rs);
    assert forall k :: 0 <= k < |ws| ==> rs[k] == ParseSingle(ws[k], key);
  }

  /** Words that each parse give exactly their notes, in order. */
  lemma ParseWordsAll(ws: seq<string>, key: string, ns: seq<Note>)
    requires |ns| == |ws|
    requires forall k :: 0 <= k < |ws| ==> ParseSingle(ws[k], key) == Success(ns[k])
    ensures ParseWords(ws, key) == Some(ns)
  {
    ParseWordsSpec(ws, key);
    var r := ParseWords(ws, key);
    assert r.value == ns;
  }

  /** Group duration: the digits after `)` when present and non-zero, else 1. */
  function GroupBeats(dur: Option<nat>): (b: nat)
    ensures b >= 1
  {
    if dur.Some? && dur.value > 0 then dur.value else 1
  }

  /** A group's k notes share its duration equally, then the whole group is repeated. */
  function SpreadGroup(items: seq<Note>, beats: nat, rep: nat): seq<Note> {
    if items == [] then []
    else Repeat(AllWithBeats(items, beats as real / |items| as real), rep)
  }

  /** The members of a group's trimmed inner text: words through the lenient parser, or one run. */
  function GroupItems(inner: string, key: string): (r: Result<seq<Note>>)
    ensures r.Success? ==> forall k :: 0 <= k < |r.value| ==> ParsedSwara(r.value[k], key)
    ensures r.Failure? ==> r.error == (if HasSpace(inner) then UnknownInGroup else UnknownRunContent)
    ensures HasSpace(inner) ==>
      (r.Success? <==> forall k :: 0 <= k < |Words(inner)| ==> ParseSingle(Words(inner)[k], key).Success?)
    ensures HasSpace(inner) && r.Success? ==>
      |r.value| == |Words(inner)| &&
      forall k :: 0 <= k < |r.value| ==> ParseSingle(Words(inner)[k], key) == Success(r.value[k])
    ensures !HasSpace(inner) ==> r == ParseRunString(inner, key)
  {
    if HasSpace(inner) then
      var ws := Words(inner);
      ParseWordsSpec(ws, key);
      match ParseWords(ws, key)
      case None => Failure(UnknownInGroup)
      case Some(items) =>
        ParseSinglesParsed(ws, items, key);
        Success(items)
    else
      match ParseRunString(inner, key)
      case Failure(e) => Failure(e)
      case Success(items) => Success(items)
  }

  lemma ParseSinglesParsed(ws: seq<string>, items: seq<Note>, key: string)
    requires |items| == |ws|
    requires forall k :: 0 <= k < |ws| ==> ParseSingle(ws[k], key) == Success(items[k])
    ensures forall k :: 0 <= k < |items| ==> ParsedSwara(items[k], key)
  {
    forall k | 0 <= k < |items|
      ensures ParsedSwara(items[k], key)
    {
      assert ParseSingle(ws[k], key) == Success(items[k]);
    }
  }

  /** Notes of a parenthesised group token. */
  function GroupNotes(rawTok: string, p: Paren, rep: nat, key: string): seq<Note> {
    match GroupItems(Trim(p.inner), key)
    case Failure(e) => [Error(rawTok, e)]
    case Success(items) => SpreadGroup(items, GroupBeats(p.dur), rep)
  }

  /** Duration of a bare run: its trailing one or two digits when non-zero, else 1. */
  function BareBeats(body: string): (b: nat)
    ensures b >= 1
  {
    var d := TrailingDigitCount(body);
    if d == 0 then 1 else OrOne(DecimalValue(body[|body| - d..]))
  }

  /** A bare run without its trailing duration digits. */
  function BareMain(body: string): (m: string)
    ensures m <= body
  {
    body[..|body| - TrailingDigitCount(body)]
  }

  /** Notes of a bare run token: every note gets the full duration. */
  function BareNotes(rawTok: string, body: string, rep: nat, key: string): seq<Note> {
    var main := BareMain(body);
    if main == [] then [Error(rawTok, EmptyToken)]
    else
      match ParseRunString(main, key)
      case Failure(e) => [Error(rawTok, e)]
      case Success(items) => Repeat(AllWithBeats(items, BareBeats(body) as real), rep)
  }

  /** What one token does to the parse state. */
  datatype Effect =
    | Skip
    | PhraseMark
    | RepeatPhrase(times: nat)
    | Emit(notes: seq<Note>)

  /** The dispatch of one raw token, in the order the grammar tries its forms. */
  function Classify(rawTok: string, key: string): (r: Effect)
    ensures r.Skip? <==> rawTok == []
  {
    if rawTok == [] then Skip else ClassifyText(rawTok, NormalizeM(rawTok), key)
  }

  /** Dispatch on the token `t` after the `M#` rewrite; errors still carry the raw token. */
  function ClassifyText(rawTok: string, t: string, key: string): Effect {
    if |t| == 1 && t[0] == '|' then PhraseMark
    else if |t| > 0 && t[0] == '_' then Emit([Rest(RestBeats(t) as real)])
    else if IsSeparateRep(t) then RepeatPhrase(OrOne(DecimalValue(t[1..])))
    else ClassifyBody(rawTok, t, key)
  }

  /** A group or bare run: any attached repetition is split off first. */
  function ClassifyBody(rawTok: string, t: string, key: string): Effect {
    ClassifyStripped(rawTok, StripRep(t).0, StripRep(t).1, key)
  }

  function ClassifyStripped(rawTok: string, body: string, rep: nat, key: string): Effect {
    match ParenMatch(body)
    case Some(p) => Emit(GroupNotes(rawTok, p, rep, key))
    case None => Emit(BareNotes(rawTok, body, rep, key))
  }

  // ---------------------------------------------------------------------------
  // The fold

  datatype ParseState = ParseState(out: seq<Note>, phraseStart: nat)

  predicate Valid(st: ParseState) {
    st.phraseStart <= |st.out|
  }

  function Apply(st: ParseState, e: Effect): (r: ParseState)
    requires Valid(st)
    ensures Valid(r) && st.out <= r.out
  {
    match e
    case Skip => st
    case PhraseMark => st.(phraseStart := |st.out|)
    case RepeatPhrase(n) => st.(out := st.out + Replicate(st.out[st.phraseStart..], n))
    case Emit(ns) => st.(out := st.out + ns)
  }

  /** The invariant every produced note satisfies. */
  predicate GoodNote(n: Note, key: string) {
    match n
    case Rest(b) => 0.0 <= b
    case Swara(_, base, g, offset, _, beats, inRaga) =>
      && IsBase(base)
      && (g.Some? ==> IsGamaka(g.value))
      && -1 <= offset - SwaraOffset(base) <= 1
      && beats > 0.0
      && inRaga == InScale(key, base)
    case Error(_, reason) =>
      reason == UnknownRunContent || reason == UnknownInGroup || reason == EmptyToken
  }

  predicate AllGood(ns: seq<Note>, key: string) {
    forall k :: 0 <= k < |ns| ==> GoodNote(ns[k], key)
  }

  function Run(tokens: seq<string>, key: string, st: ParseState): (r: ParseState)
    requires Valid(st)
    ensures Valid(r) && st.out <= r.out
    ensures AllGood(st.out, key) ==> AllGood(r.out, key)
    decreases |tokens|
  {
    if tokens == [] then st
    else
      ClassifyGood(tokens[0], key);
      Run(tokens[1..], key, Apply(st, Classify(tokens[0], key)))
  }

  function ParseTokens(tokens: seq<string>, key: string): seq<Note> {
    Run(tokens, key, ParseState([], 0)).out
  }

  /** The compiler's result: the notes, or `Hangs` when the tokenizer would stop advancing. */
  datatype Compiled = Parsed(notes: seq<Note>) | Hangs

  /** `parseSequence(text, key)`. */
  function Compile(text: string, key: string): (r: Compiled)
    ensures r.Hangs? <==> HasStrayClose(text)
    ensures r.Parsed? ==> AllGood(r.notes, key)
  {
    TokenizeDivergesIff(text);
    if text == [] then Parsed([])
    else match Tokenize(text)
      case Diverges => Hangs
      case Tokens(ts) => Parsed(ParseTokens(ts, key))
  }

  // ---------------------------------------------------------------------------
  // Invariant of the produced notes

  lemma WithBeatsGood(ns: seq<Note>, b: real, key: string)
    requires b > 0.0
    requires forall k :: 0 <= k < |ns| ==> ParsedSwara(ns[k], key)
    ensures AllGood(AllWithBeats(ns, b), key)
  {
  }

  lemma RepeatGood(xs: seq<Note>, n: nat, key: string)
    requires AllGood(xs, key)
    ensures AllGood(Repeat(xs, n), key)
  {
    var r := Repeat(xs, n);
    forall k | 0 <= k < |r|
      ensures GoodNote(r[k], key)
    {
      var j :| 0 <= j < |xs| && xs[j] == r[k];
    }
  }

  lemma SpreadGroupGood(items: seq<Note>, beats: nat, rep: nat, key: string)
    requires beats >= 1
    requires forall k :: 0 <= k < |items| ==> ParsedSwara(items[k], key)
    ensures AllGood(SpreadGroup(items, beats, rep), key)
  {
    if items != [] {
      WithBeatsGood(items, beats as real / |items| as real, key);
      RepeatGood(AllWithBeats(items, beats as real / |items| as real), rep, key);
    }
  }

  lemma GroupNotesGood(rawTok: string, p: Paren, rep: nat, key: string)
    ensures AllGood(GroupNotes(rawTok, p, rep, key), key)
  {
    var r := GroupItems(Trim(p.inner), key);
    if r.Success? {
      SpreadGroupGood(r.value, GroupBeats(p.dur), rep, key);
    }
  }

  lemma BareNotesGood(rawTok: string, body: string, rep: nat, key: string)
    ensures AllGood(BareNotes(rawTok, body, rep, key), key)
  {
    var main := BareMain(body);
    if main != [] && ParseRunString(main, key).Success? {
      var items := ParseRunString(main, key).value;
      WithBeatsGood(items, BareBeats(body) as real, key);
      RepeatGood(AllWithBeats(items, BareBeats(body) as real), rep, key);
    }
  }

  lemma ClassifyGood(rawTok: string, key: string)
    ensures Classify(rawTok, key).Emit? ==> AllGood(Classify(rawTok, key).notes, key)
  {
    if rawTok != [] {
      var t := NormalizeM(rawTok);
      if !(|t| == 1 && t[0] == '|') && !(|t| > 0 && t[0] == '_') && !IsSeparateRep(t) {
        var body := StripRep(t).0;
        var rep := StripRep(t).1;
        match ParenMatch(body)
        case Some(p) => GroupNotesGood(rawTok, p, rep, key);
        case None => BareNotesGood(rawTok, body, rep, key);
      }
    }
  }

  // ---------------------------------------------------------------------------
  // Single tokens

  /** The optional attached repetition of a token: nothing, or `x` and its digits. */
  function RepText(rs: string): string {
    if rs == [] then [] else "x" + rs
  }

  /** The repetition count an attached suffix asks for; 1 without one. */
  function RepCount(rs: string): nat
    requires AllDigits(rs)
  {
    if rs == [] then 1 else OrOne(DecimalValue(rs))
  }

  /** No line break: a regular expression's `.` matches every character. */
  predicate NoLineBreaks(s: string) {
    forall k :: 0 <= k < |s| ==> !IsLineTerminator(s[k])
  }

  /** Neither a repetition letter nor a line break. */
  predicate NoRepLetters(s: string) {
    forall k :: 0 <= k < |s| ==> !IsX(s[k]) && !IsLineTerminator(s[k])
  }

  /** An attached `x` and one to three digits is split off a body that holds no `x` of its own. */
  lemma StripRepSuffix(body: string, rs: string)
    requires AllDigits(rs) && |rs| <= 3
    requires NoRepLetters(body)
    ensures StripRep(body + RepText(rs)) == (body, RepCount(rs))
  {
    if rs == [] {
      assert body + RepText(rs) == body;
      StripRepNone(body);
    } else {
      assert body + RepText(rs) == body + "x" + rs;
      assert NoLineBreaks(body);
      StripRepSome(body, rs);
    }
  }

  lemma StripRepNone(t: string)
    requires NoRepLetters(t)
    ensures StripRep(t) == (t, 1)
  {
    assert |t| >= 2 ==> !IsX(t[|t| - 2]);
    assert |t| >= 3 ==> !IsX(t[|t| - 3]);
    assert |t| >= 4 ==> !IsX(t[|t| - 4]);
  }

  lemma StripRepSome(body: string, rs: string)
    requires AllDigits(rs) && 1 <= |rs| <= 3
    requires NoLineBreaks(body)
    ensures StripRep(body + "x" + rs) == (body, OrOne(DecimalValue(rs)))
  {
    if |rs| == 1 {
      StripRepOf(body, rs, 1);
    } else if |rs| == 2 {
      StripRepOf(body, rs, 2);
    } else {
      StripRepOf(body, rs, 3);
    }
  }

  lemma StripRepOf(body: string, rs: string, len: nat)
    requires AllDigits(rs) && 1 <= |rs| == len <= 3
    requires NoLineBreaks(body)
    ensures StripRep(body + "x" + rs) == (body, OrOne(DecimalValue(rs)))
  {
    var t := body + "x" + rs;
    var n := |t|;
    assert t[n - len - 1] == 'x';
    assert forall k :: n - len <= k < n ==> t[k] == rs[k - (n - len)];
    assert forall k :: 0 <= k < n - len - 1 ==> t[k] == body[k];
    if len >= 2 {
      assert IsDigit(t[n - 2]);
    }
    if len >= 3 {
      assert IsDigit(t[n - 3]);
    }
    assert RepSuffixAt(t, len);
    assert t[..n - len - 1] == body;
    assert t[n - len..] == rs;
  }

  /** Each `_` rest token gives one rest: its 1 or 2 digits as beats (so `_0` rests 0 beats), else 1. */
  lemma RestToken(tail: string, key: string)
    requires !ContainsMSharp(tail)
    ensures Classify("_" + tail, key) ==
      Emit([Rest(if 1 <= |tail| <= 2 && AllDigits(tail) then DecimalValue(tail) as real else 1.0)])
  {
    var t := "_" + tail;
    NoMSharpPrepend('_', tail);
    ClassifyUnchanged(t, key);
    assert t[0] == '_' && t[1..] == tail && |t| == |tail| + 1;
    assert ClassifyText(t, t, key) == Emit([Rest(RestBeats(t) as real)]);
  }

  /** A rest is neither in nor out of the raga. */
  lemma RestOutsideRaga(b: real)
    ensures !InRaga(Rest(b)) && !OutOfRaga(Rest(b))
  {
  }

  /** A text that the `M#` rewrite leaves alone is classified as itself. */
  lemma ClassifyUnchanged(tok: string, key: string)
    requires tok != [] && !ContainsMSharp(tok)
    ensures Classify(tok, key) == ClassifyText(tok, tok, key)
  {
    NormalizeMIdentity(tok);
  }

  /** `x` and digits on its own repeats the current phrase; a zero count means one. */
  lemma SeparateRepToken(c: char, ds: string, key: string)
    requires IsX(c) && |ds| >= 1 && AllDigits(ds)
    ensures Classify([c] + ds, key) == RepeatPhrase(OrOne(DecimalValue(ds)))
  {
    var t := [c] + ds;
    NoMSharpPrepend(c, ds);
    ClassifyUnchanged(t, key);
    assert t[1..] == ds;
    assert IsSeparateRep(t);
  }

  /** A token of one or two digits only is an "Empty token" error carrying the token. */
  lemma DigitsOnlyToken(ds: string, key: string)
    requires 1 <= |ds| <= 2 && AllDigits(ds)
    ensures Classify(ds, key) == Emit([Error(ds, EmptyToken)])
  {
    NormalizeMIdentity(ds);
    StripRepSuffix(ds, []);
    assert ds + RepText([]) == ds;
    assert TrailingDigitCount(ds) == |ds|;
  }

  /** A token that starts like a run or a group goes past the rest and repetition forms. */
  lemma ClassifyTextToBody(rawTok: string, t: string, key: string)
    requires |t| > 0 && t[0] != '|' && t[0] != '_' && !IsX(t[0])
    ensures ClassifyText(rawTok, t, key) == ClassifyBody(rawTok, t, key)
  {
  }

  lemma ClassifyBodyBare(rawTok: string, body: string, rs: string, key: string)
    requires NoRepLetters(body) && |body| > 0 && body[0] != '('
    requires AllDigits(rs) && |rs| <= 3
    ensures ClassifyBody(rawTok, body + RepText(rs), key) == Emit(BareNotes(rawTok, body, RepCount(rs), key))
  {
    StripRepSuffix(body, rs);
  }

  /** A group body and its attached repetition: the inner text may hold `x`s, as the suffix must follow the `)`. */
  lemma ClassifyBodyGroup(rawTok: string, inner: string, ds: string, rs: string, key: string)
    requires NoLineBreaks(inner)
    requires AllDigits(ds) && |ds| <= 2 && AllDigits(rs) && |rs| <= 3
    ensures ClassifyBody(rawTok, "(" + inner + ")" + ds + RepText(rs), key) ==
      Emit(GroupNotes(rawTok, Paren(inner, if ds == [] then None else Some(DecimalValue(ds))), RepCount(rs), key))
  {
    var body := "(" + inner + ")" + ds;
    var p := Paren(inner, if ds == [] then None else Some(DecimalValue(ds)));
    StripRepGroup(inner, ds, rs);
    GroupBody(inner, ds);
    assert ClassifyStripped(rawTok, body, RepCount(rs), key) == Emit(GroupNotes(rawTok, p, RepCount(rs), key));
  }

  /** The only repetition split off a group token is the one written after its `)` and duration. */
  lemma StripRepGroup(inner: string, ds: string, rs: string)
    requires NoLineBreaks(inner)
    requires AllDigits(ds) && |ds| <= 2 && AllDigits(rs) && |rs| <= 3
    ensures StripRep("(" + inner + ")" + ds + RepText(rs)) == ("(" + inner + ")" + ds, RepCount(rs))
  {
    var body := "(" + inner + ")" + ds;
    if rs == [] {
      assert body + RepText(rs) == body;
      StripRepGroupNone(inner, ds);
    } else {
      GroupLineBreaks(inner, ds);
      assert body + RepText(rs) == body + "x" + rs;
      StripRepSome(body, rs);
    }
  }

  /** A group token ending at its `)` or duration digits has no attached repetition, whatever its inner text. */
  lemma StripRepGroupNone(inner: string, ds: string)
    requires AllDigits(ds) && |ds| <= 2
    ensures StripRep("(" + inner + ")" + ds) == ("(" + inner + ")" + ds, 1)
  {
    var t := "(" + inner + ")" + ds;
    var c := |t| - |ds| - 1;
    assert t[c] == ')';
    assert forall k :: c < k < |t| ==> t[k] == ds[k - c - 1];
    assert !RepSuffixAt(t, 1) && !RepSuffixAt(t, 2) && !RepSuffixAt(t, 3);
  }

  lemma GroupLineBreaks(inner: string, ds: string)
    requires NoLineBreaks(inner) && AllDigits(ds)
    ensures NoLineBreaks("(" + inner + ")" + ds)
  {
    var body := "(" + inner + ")" + ds;
    forall k | 0 <= k < |body|
      ensures !IsLineTerminator(body[k])
    {
      if 1 <= k <= |inner| {
        assert body[k] == inner[k - 1];
      } else if k > |inner| + 1 {
        assert body[k] == ds[k - |inner| - 2];
      }
    }
  }

  /**
    A bare run with optional duration digits `ds` and attached repetition `rs`:
    the run's notes, each lasting the whole duration, repeated.
  */
  lemma BareRunToken(syms: seq<Symbol>, ds: string, rs: string, key: string)
    requires syms != [] && forall k :: 0 <= k < |syms| ==> WellFormedSymbol(syms[k])
    requires !ContainsMSharp(EncodeRun(syms))
    requires AllDigits(ds) && |ds| <= 2 && AllDigits(rs) && |rs| <= 3
    ensures Classify(EncodeRun(syms) + ds + RepText(rs), key) ==
      Emit(Repeat(AllWithBeats(SymbolNotes(syms, key), (if ds == [] then 1 else OrOne(DecimalValue(ds))) as real), RepCount(rs)))
  {
    var e := EncodeRun(syms);
    var body := e + ds;
    var tok := body + RepText(rs);
    RunTokenFacts(syms, ds, rs);
    ClassifyUnchanged(tok, key);
    ClassifyTextToBody(tok, tok, key);
    ClassifyBodyBare(tok, body, rs, key);
    BareNotesOf(tok, syms, ds, RepCount(rs), key);
  }

  lemma RunTokenFacts(syms: seq<Symbol>, ds: string, rs: string)
    requires syms != [] && forall k :: 0 <= k < |syms| ==> WellFormedSymbol(syms[k])
    requires !ContainsMSharp(EncodeRun(syms))
    requires AllDigits(ds) && AllDigits(rs)
    ensures var e := EncodeRun(syms);
      && |e| > 0 && !IsDigit(e[|e| - 1]) && IsBase(e[0])
      && NoRepLetters(e + ds)
      && var tok := e + ds + RepText(rs);
      && |tok| > 0 && tok[0] == e[0]
      && !ContainsMSharp(tok)
  {
    var e := EncodeRun(syms);
    EncodeRunChars(syms);
    EncodeRunStart(syms);
    assert SymbolChar(e[|e| - 1]);
    RunLetters(e, ds);
    SuffixNoSharp(e, ds, rs);
  }

  lemma RunLetters(e: string, ds: string)
    requires forall k :: 0 <= k < |e| ==> SymbolChar(e[k])
    requires AllDigits(ds)
    ensures NoRepLetters(e + ds)
  {
    var body := e + ds;
    forall k | 0 <= k < |body|
      ensures !IsX(body[k]) && !IsLineTerminator(body[k])
    {
      if k < |e| {
        assert body[k] == e[k] && SymbolChar(e[k]);
      } else {
        assert body[k] == ds[k - |e|];
      }
    }
  }

  /** Digits and a repetition suffix add no `M#` to a text. */
  lemma SuffixNoSharp(e: string, ds: string, rs: string)
    requires !ContainsMSharp(e) && AllDigits(ds) && AllDigits(rs)
    ensures !ContainsMSharp(e + ds + RepText(rs))
  {
    var suffix := ds + RepText(rs);
    assert forall k :: 0 <= k < |suffix| ==> suffix[k] != '#' by {
      forall k | 0 <= k < |suffix|
        ensures suffix[k] != '#'
      {
        if k >= |ds| && rs != [] {
          assert suffix[k] == ("x" + rs)[k - |ds|];
        }
      }
    }
    NoMSharpAppend(e, suffix);
    assert e + ds + RepText(rs) == e + suffix;
  }

  lemma BareNotesOf(rawTok: string, syms: seq<Symbol>, ds: string, rep: nat, key: string)
    requires syms != [] && forall k :: 0 <= k < |syms| ==> WellFormedSymbol(syms[k])
    requires !ContainsMSharp(EncodeRun(syms))
    requires AllDigits(ds) && |ds| <= 2
    ensures BareNotes(rawTok, EncodeRun(syms) + ds, rep, key) ==
      Repeat(AllWithBeats(SymbolNotes(syms, key), (if ds == [] then 1 else OrOne(DecimalValue(ds))) as real), rep)
  {
    var e := EncodeRun(syms);
    EncodeRunChars(syms);
    EncodeRunStart(syms);
    BareBody(e, ds);
    RunOfSymbols(syms, key);
  }

  /** The duration digits of a bare body are split off a run that does not end in a digit. */
  lemma BareBody(e: string, ds: string)
    requires |e| > 0 && !IsDigit(e[|e| - 1])
    requires AllDigits(ds) && |ds| <= 2
    ensures BareMain(e + ds) == e
    ensures BareBeats(e + ds) == if ds == [] then 1 else OrOne(DecimalValue(ds))
  {
    var body := e + ds;
    assert body[|body| - |ds| - 1] == e[|e| - 1];
    assert TrailingDigitCount(body) == |ds|;
    assert body[..|body| - |ds|] == e;
    assert body[|body| - |ds|..] == ds;
  }

  /** A group body `(`inner`)` plus 0 to 2 duration digits is recognised with exactly that inner text. */
  lemma GroupBody(inner: string, ds: string)
    requires AllDigits(ds) && |ds| <= 2
    ensures ParenMatch("(" + inner + ")" + ds) ==
      Some(Paren(inner, if ds == [] then None else Some(DecimalValue(ds))))
  {
    if ds == [] {
      GroupBodyOf(inner, ds, 0);
    } else if |ds| == 1 {
      GroupBodyOf(inner, ds, 1);
    } else {
      GroupBodyOf(inner, ds, 2);
    }
  }

  lemma GroupBodyOf(inner: string, ds: string, len: nat)
    requires AllDigits(ds) && |ds| == len <= 2
    ensures ParenMatch("(" + inner + ")" + ds) ==
      Some(Paren(inner, if ds == [] then None else Some(DecimalValue(ds))))
  {
    var t := "(" + inner + ")" + ds;
    var n := |t|;
    assert t[0] == '(';
    if len == 0 {
      assert t[n - 1] == ')';
      assert t[1..n - 1] == inner;
    } else if len == 1 {
      assert t[n - 2] == ')' && IsDigit(t[n - 1]) && t[n - 1] != ')';
      assert t[1..n - 2] == inner;
      assert t[n - 1..] == ds;
    } else {
      assert t[n - 3] == ')' && IsDigit(t[n - 2]) && IsDigit(t[n - 1]) && t[n - 1] != ')' && t[n - 2] != ')';
      assert t[1..n - 3] == inner;
      assert t[n - 2..] == ds;
    }
  }

  /**
    A group of a run with optional duration digits `ds` and attached repetition `rs`:
    the run's notes share the duration equally, then the group is repeated.
  */
  lemma GroupRunToken(syms: seq<Symbol>, ds: string, rs: string, key: string)
    requires forall k :: 0 <= k < |syms| ==> WellFormedSymbol(syms[k])
    requires !ContainsMSharp(EncodeRun(syms))
    requires AllDigits(ds) && |ds| <= 2 && AllDigits(rs) && |rs| <= 3
    ensures Classify("(" + EncodeRun(syms) + ")" + ds + RepText(rs), key) ==
      Emit(SpreadGroup(SymbolNotes(syms, key), GroupBeats(if ds == [] then None else Some(DecimalValue(ds))), RepCount(rs)))
  {
    var e := EncodeRun(syms);
    var tok := "(" + e + ")" + ds + RepText(rs);
    var p := Paren(e, if ds == [] then None else Some(DecimalValue(ds)));
    EncodeRunChars(syms);
    GroupTokenFacts(e, ds, rs);
    ClassifyUnchanged(tok, key);
    ClassifyTextToBody(tok, tok, key);
    ClassifyBodyGroup(tok, e, ds, rs, key);
    RunNoSpace(e);
    RunOfSymbols(syms, key);
    GroupNotesOfRun(tok, p, RepCount(rs), key, SymbolNotes(syms, key));
  }

  /**
    A whitespace group of two or more words, with optional duration digits `ds`
    and attached repetition `rs`: when every word starts with a swara letter,
    each word's single-symbol note, the words sharing the duration equally, the
    whole repeated; when any word does not, one "Unknown token inside group"
    error for the whole token.
  */
  lemma GroupWordsToken(ws: seq<string>, ds: string, rs: string, key: string)
    requires |ws| >= 2 && forall k :: 0 <= k < |ws| ==> IsWord(ws[k])
    requires !ContainsMSharp(JoinSpaced(ws))
    requires AllDigits(ds) && |ds| <= 2 && AllDigits(rs) && |rs| <= 3
    ensures var tok := "(" + JoinSpaced(ws) + ")" + ds + RepText(rs);
      var beats := GroupBeats(if ds == [] then None else Some(DecimalValue(ds)));
      && ((forall k :: 0 <= k < |ws| ==> ws[k] != [] && IsBase(ws[k][0])) ==>
            ParseWords(ws, key).Some? && Classify(tok, key) == Emit(SpreadGroup(ParseWords(ws, key).value, beats, RepCount(rs))))
      && (!(forall k :: 0 <= k < |ws| ==> ws[k] != [] && IsBase(ws[k][0])) ==>
            Classify(tok, key) == Emit([Error(tok, UnknownInGroup)]))
  {
    var t := JoinSpaced(ws);
    var tok := "(" + t + ")" + ds + RepText(rs);
    var p := Paren(t, if ds == [] then None else Some(DecimalValue(ds)));
    AllWordsOfEach(ws);
    JoinSpacedShape(ws);
    assert NoLineBreaks(t);
    NoMSharpPrepend('(', t);
    NoMSharpAppend("(" + t, ")");
    SuffixNoSharp("(" + t + ")", ds, rs);
    ClassifyUnchanged(tok, key);
    ClassifyTextToBody(tok, tok, key);
    ClassifyBodyGroup(tok, t, ds, rs, key);
    TrimKeeps(t);
    WordsJoin(ws);
    GroupWordsItems(t, ws, key);
  }

  /** The items of a whitespace group are its words' single-symbol notes, when all of them parse. */
  lemma GroupWordsItems(t: string, ws: seq<string>, key: string)
    requires HasSpace(t) && Words(t) == ws && forall k :: 0 <= k < |ws| ==> IsWord(ws[k])
    ensures (forall k :: 0 <= k < |ws| ==> ws[k] != [] && IsBase(ws[k][0])) ==>
      ParseWords(ws, key).Some? && GroupItems(t, key) == Success(ParseWords(ws, key).value)
    ensures !(forall k :: 0 <= k < |ws| ==> ws[k] != [] && IsBase(ws[k][0])) ==> GroupItems(t, key) == Failure(UnknownInGroup)
  {
    var r := GroupItems(t, key);
    var pw := ParseWords(ws, key);
    ParseWordsSpec(ws, key);
    if r.Success? {
      assert pw.Some?;
      assert r.value == pw.value;
    }
  }

  lemma GroupTokenFacts(e: string, ds: string, rs: string)
    requires forall k :: 0 <= k < |e| ==> SymbolChar(e[k])
    requires !ContainsMSharp(e) && AllDigits(ds) && AllDigits(rs)
    ensures NoRepLetters(e)
    ensures var tok := "(" + e + ")" + ds + RepText(rs); |tok| > 0 && tok[0] == '(' && !ContainsMSharp(tok)
  {
    RunLetters(e, []);
    assert e + [] == e;
    NoMSharpPrepend('(', e);
    NoMSharpAppend("(" + e, ")");
    SuffixNoSharp("(" + e + ")", ds, rs);
  }

  lemma GroupNotesOfRun(rawTok: string, p: Paren, rep: nat, key: string, items: seq<Note>)
    requires !HasSpace(p.inner)
    requires ParseRunString(p.inner, key) == Success(items)
    ensures GroupNotes(rawTok, p, rep, key) == SpreadGroup(items, GroupBeats(p.dur), rep)
  {
    TrimNoSpace(p.inner);
    GroupNotesFrom(rawTok, p, rep, key, items);
  }

  lemma GroupNotesFrom(rawTok: string, p: Paren, rep: nat, key: string, items: seq<Note>)
    requires GroupItems(Trim(p.inner), key) == Success(items)
    ensures GroupNotes(rawTok, p, rep, key) == SpreadGroup(items, GroupBeats(p.dur), rep)
  {
  }

  lemma RunNoSpace(e: string)
    requires forall k :: 0 <= k < |e| ==> SymbolChar(e[k])
    ensures !HasSpace(e)
  {
    forall k | 0 <= k < |e|
      ensures !IsSpace(e[k])
    {
      assert SymbolChar(e[k]);
    }
  }

  /** `()` gives no notes at all. */
  lemma EmptyGroup(key: string)
    ensures Classify("()", key) == Emit([])
  {
    GroupRunToken([], [], [], key);
    assert "(" + EncodeRun([]) + ")" + [] + RepText([]) == "()";
  }

  /** Each of a group's notes lasts `B/k`: k of them fill the group's `B` beats. Their own digits do not count. */
  lemma SpreadGroupBeats(items: seq<Note>, beats: nat, rep: nat)
    requires forall k :: 0 <= k < |items| ==> items[k].Swara?
    ensures var r := SpreadGroup(items, beats, rep);
      forall k :: 0 <= k < |r| ==> r[k].Swara? && r[k].beats * (|items| as real) == beats as real
  {
    if items != [] {
      var b := beats as real / |items| as real;
      var ws := AllWithBeats(items, b);
      assert forall k :: 0 <= k < |ws| ==> ws[k].Swara? && ws[k].beats == b;
      assert b * (|items| as real) == beats as real;
    }
  }

  // ---------------------------------------------------------------------------
  // Phrases and the fold

  /** A standalone `xN` replaces the current phrase by `N` copies of it (one when `N <= 1`); earlier notes stay. */
  lemma RepeatPhraseEffect(st: ParseState, n: nat)
    requires Valid(st)
    ensures Apply(st, RepeatPhrase(n)) ==
      ParseState(st.out[..st.phraseStart] + Repeat(st.out[st.phraseStart..], OrOne(n)), st.phraseStart)
  {
    var chunk := st.out[st.phraseStart..];
    assert st.out == st.out[..st.phraseStart] + chunk;
    var extra := Replicate(chunk, n);
    assert st.out + extra == st.out[..st.phraseStart] + (chunk + extra);
  }

  /** Successive standalone repetitions compound: `xA xB` gives `A*B` copies of the phrase, since neither moves its start. */
  lemma RepeatPhraseCompounds(st: ParseState, a: nat, b: nat)
    requires Valid(st)
    ensures var once := Apply(st, RepeatPhrase(a));
      Valid(once) &&
      Apply(once, RepeatPhrase(b)).out ==
        st.out[..st.phraseStart] + Repeat(st.out[st.phraseStart..], OrOne(a) * OrOne(b))
  {
    var ps := st.phraseStart;
    var head := st.out[..ps];
    var chunk := st.out[ps..];
    var once := Apply(st, RepeatPhrase(a));
    RepeatPhraseEffect(st, a);
    RepeatPhraseEffect(once, b);
    assert once.out[..ps] == head;
    assert once.out[ps..] == Repeat(chunk, OrOne(a));
    RepeatMul(chunk, OrOne(a), OrOne(b));
  }

  /** `|` starts a new phrase: a later `xN` repeats only what came after it. */
  lemma PhraseMarkScopesRepeat(st: ParseState, ns: seq<Note>, n: nat)
    requires Valid(st)
    ensures var marked := Apply(Apply(st, PhraseMark), Emit(ns));
      Valid(marked) && Apply(marked, RepeatPhrase(n)).out == st.out + Repeat(ns, OrOne(n))
  {
    var marked := Apply(Apply(st, PhraseMark), Emit(ns));
    RepeatPhraseEffect(marked, n);
    assert marked.out[..|st.out|] == st.out;
    assert marked.out[|st.out|..] == ns;
  }

  /** The fold over a concatenation of token lists is the fold over the second from the first's result. */
  lemma {:induction false} RunAppend(ts1: seq<string>, ts2: seq<string>, key: string, st: ParseState)
    requires Valid(st)
    ensures Run(ts1 + ts2, key, st) == Run(ts2, key, Run(ts1, key, st))
    decreases |ts1|
  {
    if ts1 == [] {
      assert ts1 + ts2 == ts2;
    } else {
      assert (ts1 + ts2)[0] == ts1[0];
      assert (ts1 + ts2)[1..] == ts1[1..] + ts2;
      RunAppend(ts1[1..], ts2, key, Apply(st, Classify(ts1[0], key)));
    }
  }

  /** Tokens that each emit one item, from any state: the items in order, the phrase untouched. */
  lemma {:induction false} SingleEmits(ts: seq<string>, key: string, st: ParseState, ns: seq<Note>)
    requires Valid(st) && |ns| <= |ts|
    requires forall k :: 0 <= k < |ns| ==> Classify(ts[k], key) == Emit([ns[k]])
    ensures Run(ts, key, st) == Run(ts[|ns|..], key, ParseState(st.out + ns, st.phraseStart))
    decreases |ns|
  {
    if ns == [] {
      assert st.out + ns == st.out && ts[0..] == ts;
    } else {
      var next := ParseState(st.out + [ns[0]], st.phraseStart);
      assert Run(ts, key, st) == Run(ts[1..], key, next);
      assert forall k :: 0 <= k < |ns[1..]| ==> ts[1..][k] == ts[k + 1] && ns[1..][k] == ns[k + 1];
      SingleEmits(ts[1..], key, next, ns[1..]);
      assert ts[1..][|ns[1..]|..] == ts[|ns|..];
      AppendAssoc(st.out, [ns[0]], ns[1..]);
      assert [ns[0]] + ns[1..] == ns;
    }
  }

  /** One token applies its effect. */
  lemma RunOne(t: string, key: string, st: ParseState)
    requires Valid(st)
    ensures Run([t], key, st) == Apply(st, Classify(t, key))
  {
    assert [t][1..] == [];
  }

  // ---------------------------------------------------------------------------
  // Raga annotation of whole compilations

  /** In every compilation, a swara is in the raga exactly when its base is in the raga's scale; rests and errors are neither. */
  lemma CompiledRagaMembership(text: string, key: string)
    ensures Compile(text, key).Parsed? ==> var ns := Compile(text, key).notes;
      forall k :: 0 <= k < |ns| ==>
        && (InRaga(ns[k]) <==> ns[k].Swara? && InScale(key, ns[k].base))
        && (OutOfRaga(ns[k]) <==> ns[k].Swara? && !InScale(key, ns[k].base))
  {
  }

  /** Under a key that names no raga, every swara is out of the raga. */
  lemma UnknownRagaAllOut(text: string, key: string)
    requires RagaScale(key).None?
    ensures Compile(text, key).Parsed? ==> var ns := Compile(text, key).notes;
      forall k :: 0 <= k < |ns| ==> !InRaga(ns[k]) && (ns[k].Swara? ==> OutOfRaga(ns[k]))
  {
  }
}

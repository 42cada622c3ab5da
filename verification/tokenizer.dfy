/**
  The tokenizer of the notation compiler (`tokenizeForParse`): a character
  scanner that splits notation text into phrase bars, rest tokens,
  parenthesised group tokens with their duration and repetition suffixes,
  and bare runs.

  The source scanner never advances past a `)` that no group scan consumed:
  it pushes an empty token and tries the same position again, until the
  array limit throws or memory runs out. The model makes that visible as the
  `Diverges` outcome and proves exactly when it happens.
*/
module Tokenizer {

  import opened Text

  /** What the scanner produces: its tokens, or `Diverges` when the source loop stops advancing. */
  datatype Scan = Tokens(tokens: seq<string>) | Diverges

  /** A character a bare run token may contain. */
  predicate IsRunChar(c: char) {
    !IsSpace(c) && c != '(' && c != ')' && c != '|'
  }

  /** Index of the `)` closing a group whose depth is `depth` at `j`, or `|s|` when it never closes. */
  function CloseIndex(s: string, j: nat, depth: nat): (r: nat)
    requires j <= |s| && depth >= 1
    ensures j <= r <= |s|
    ensures r < |s| ==> s[r] == ')'
    decreases |s| - j
  {
    if j == |s| then j
    else if s[j] == '(' then CloseIndex(s, j + 1, depth + 1)
    else if s[j] == ')' then (if depth == 1 then j else CloseIndex(s, j + 1, depth - 1))
    else CloseIndex(s, j + 1, depth)
  }

  /** Number of consecutive digits starting at `from`, taking at most `max` of them. */
  function DigitRun(s: string, from: nat, max: nat): (n: nat)
    requires from <= |s|
    ensures n <= max && from + n <= |s|
    ensures forall k :: from <= k < from + n ==> IsDigit(s[k])
    ensures n < max && from + n < |s| ==> !IsDigit(s[from + n])
    decreases max
  {
    if max == 0 || from == |s| || !IsDigit(s[from]) then 0 else 1 + DigitRun(s, from + 1, max - 1)
  }

  /** First index at or after `from` holding whitespace, a parenthesis or a bar, or `|s|`. */
  function RunEnd(s: string, from: nat): (j: nat)
    requires from <= |s|
    ensures from <= j <= |s|
    ensures forall k :: from <= k < j ==> IsRunChar(s[k])
    ensures j < |s| ==> !IsRunChar(s[j])
    decreases |s| - from
  {
    if from == |s| || !IsRunChar(s[from]) then from else RunEnd(s, from + 1)
  }

  /** End of the (at most two) duration digits starting at `from`. */
  function DurEnd(s: string, from: nat): (e: nat)
    requires from <= |s|
    ensures from <= e <= from + 2 && e <= |s|
    ensures forall k :: from <= k < e ==> IsDigit(s[k])
  {
    from + DigitRun(s, from, 2)
  }

  /** Number of repetition digits after an `x` or `X` at `e`; 0 when no repetition suffix starts there. */
  function RepDigits(s: string, e: nat): (n: nat)
    requires e <= |s|
    ensures n <= 3
    ensures n > 0 ==> e + 1 + n <= |s| && IsX(s[e]) && forall k :: e + 1 <= k < e + 1 + n ==> IsDigit(s[k])
  {
    if e < |s| && IsX(s[e]) then DigitRun(s, e + 1, 3) else 0
  }

  /** Where scanning resumes after the duration and repetition suffix that start at `from`. */
  function SuffixEnd(s: string, from: nat): (r: nat)
    requires from <= |s|
    ensures from <= r <= |s|
    ensures forall k :: from <= k < r ==> s[k] != '(' && s[k] != ')'
  {
    var e := DurEnd(s, from);
    var n := RepDigits(s, e);
    if n > 0 then e + 1 + n else e
  }

  /** The duration and repetition suffix starting at `from` as it appears in the token (`x` lower-cased). */
  function SuffixText(s: string, from: nat): string
    requires from <= |s|
  {
    var e := DurEnd(s, from);
    var n := RepDigits(s, e);
    s[from..e] + (if n > 0 then "x" + s[e + 1..e + 1 + n] else "")
  }

  /** Where the group opened at `i` ends: just after its `)`, or the end of the text when it never closes. */
  function AfterClose(s: string, i: nat): (k: nat)
    requires i < |s|
    ensures i < k <= |s|
  {
    var c := CloseIndex(s, i + 1, 1);
    if c < |s| then c + 1 else c
  }

  /** Scans the group opened at `i`: the token (closing parenthesis supplied) and the index after it. */
  function GroupStep(s: string, i: nat): (r: (string, nat))
    requires i < |s| && s[i] == '('
    ensures i < r.1 <= |s|
  {
    var c := CloseIndex(s, i + 1, 1);
    var k := AfterClose(s, i);
    ("(" + s[i + 1..c] + ")" + SuffixText(s, k), SuffixEnd(s, k))
  }

  /** One iteration of the scanner loop at `i`: the tokens it pushes and where it resumes. */
  function ScanStep(s: string, i: nat): (r: (seq<string>, nat))
    requires i < |s|
    ensures i <= r.1 <= |s|
    ensures r.1 == i <==> s[i] == ')'
    ensures s[i] == ')' ==> r.0 == [""]
    ensures s[i] == '_' ==> && r.0 == [s[i..r.1]]
                            && (forall k :: i < k < r.1 ==> IsDigit(s[k]))
                            && (r.1 == |s| || !IsDigit(s[r.1]))
  {
    if IsSpace(s[i]) then ([], i + 1)
    else if s[i] == '|' then (["|"], i + 1)
    else if s[i] == '(' then
      var (tok, next) := GroupStep(s, i);
      ([tok], next)
    else if s[i] == '_' then
      var n := DigitRun(s, i + 1, |s| - (i + 1));
      assert "_" + s[i + 1..i + 1 + n] == s[i..i + 1 + n];
      (["_" + s[i + 1..i + 1 + n]], i + 1 + n)
    else
      var j := RunEnd(s, i);
      ([s[i..j]], j)
  }

  /** The scanner loop from `i` to the end of `s`. */
  function ScanFrom(s: string, i: nat): Scan
    requires i <= |s|
    decreases |s| - i
  {
    if i == |s| then Tokens([])
    else
      var (emitted, next) := ScanStep(s, i);
      if next == i then Diverges
      else
        match ScanFrom(s, next)
        case Diverges => Diverges
        case Tokens(rest) => Tokens(emitted + rest)
  }

  /** Newlines become spaces and the text is trimmed before scanning. */
  function Prepare(text: string): string {
    Trim(NewlinesToSpaces(text))
  }

  /**
    `tokenizeForParse`. Whenever it finishes, every token is a bar, an
    underscore followed by digits, a group token, or a non-empty run free of
    whitespace, parentheses and bars. In particular no token is empty.
  */
  function Tokenize(text: string): (r: Scan)
    ensures r.Tokens? ==> forall t :: t in r.tokens ==> WellShaped(t) && t != []
  {
    if text == [] then Tokens([])
    else
      ScanShapes(Prepare(text), 0);
      ScanFrom(Prepare(text), 0)
  }

  // ---------------------------------------------------------------------------
  // Token shapes

  predicate IsRestToken(t: string) {
    |t| >= 1 && t[0] == '_' && forall k :: 1 <= k < |t| ==> IsDigit(t[k])
  }

  predicate IsRunToken(t: string) {
    |t| >= 1 && forall k :: 0 <= k < |t| ==> IsRunChar(t[k])
  }

  /** After a group's `)` at `c`: up to two duration digits, then nothing or `x` and one to three digits. */
  predicate GroupSuffix(t: string, c: nat)
    requires c < |t|
  {
    var e := c + 1 + DigitRun(t, c + 1, 2);
    e == |t| || (t[e] == 'x' && 2 <= |t| - e <= 4 && forall k :: e < k < |t| ==> IsDigit(t[k]))
  }

  predicate IsGroupToken(t: string) {
    |t| >= 2 && t[0] == '(' && exists c :: 1 <= c < |t| && t[c] == ')' && GroupSuffix(t, c)
  }

  /** The four token forms the scanner emits. */
  predicate WellShaped(t: string) {
    t == "|" || IsRestToken(t) || IsGroupToken(t) || IsRunToken(t)
  }

  lemma RestStepShape(s: string, i: nat)
    requires i < |s| && s[i] == '_'
    ensures forall t :: t in ScanStep(s, i).0 ==> IsRestToken(t)
  {
    var n := DigitRun(s, i + 1, |s| - (i + 1));
    var t := "_" + s[i + 1..i + 1 + n];
    assert forall k :: 1 <= k < |t| ==> t[k] == s[i + k];
  }

  lemma RunStepShape(s: string, i: nat)
    requires i < |s| && IsRunChar(s[i]) && s[i] != '_'
    ensures forall t :: t in ScanStep(s, i).0 ==> IsRunToken(t)
  {
    var j := RunEnd(s, i);
    assert forall k :: 0 <= k < j - i ==> s[i..j][k] == s[i + k];
  }

  /** `DigitRun` is determined by where the digits stop. */
  lemma {:induction false} DigitRunExact(t: string, from: nat, n: nat, max: nat)
    requires from + n <= |t| && n <= max
    requires forall k :: from <= k < from + n ==> IsDigit(t[k])
    requires n < max && from + n < |t| ==> !IsDigit(t[from + n])
    ensures DigitRun(t, from, max) == n
    decreases n
  {
    if n > 0 {
      DigitRunExact(t, from + 1, n - 1, max - 1);
    }
  }

  predicate IsRepSuffix(rep: string) {
    rep == [] || (rep[0] == 'x' && 2 <= |rep| <= 4 && forall k :: 1 <= k < |rep| ==> IsDigit(rep[k]))
  }

  lemma GroupShapeOf(inner: string, dur: string, rep: string)
    requires |dur| <= 2 && AllDigits(dur) && IsRepSuffix(rep)
    ensures IsGroupToken("(" + inner + ")" + dur + rep)
  {
    var t := "(" + inner + ")" + dur + rep;
    var c := |inner| + 1;
    assert t[c] == ')';
    assert forall k :: c + 1 <= k < c + 1 + |dur| ==> t[k] == dur[k - c - 1];
    assert c + 1 + |dur| < |t| ==> t[c + 1 + |dur|] == rep[0];
    DigitRunExact(t, c + 1, |dur|, 2);
    assert forall k :: c + 1 + |dur| < k < |t| ==> t[k] == rep[k - c - 1 - |dur|];
    assert GroupSuffix(t, c);
  }

  /** The suffix after a group is some duration digits followed by a repetition suffix, possibly empty. */
  lemma SuffixTextShape(s: string, from: nat) returns (dur: string, rep: string)
    requires from <= |s|
    ensures SuffixText(s, from) == dur + rep && |dur| <= 2 && AllDigits(dur) && IsRepSuffix(rep)
  {
    var e := DurEnd(s, from);
    dur := s[from..e];
    assert AllDigits(dur) by {
      assert forall q :: 0 <= q < |dur| ==> dur[q] == s[from + q];
    }
    rep := RepShape(s, e);
  }

  lemma RepShape(s: string, e: nat) returns (rep: string)
    requires e <= |s|
    ensures var n := RepDigits(s, e);
      rep == (if n > 0 then "x" + s[e + 1..e + 1 + n] else "") && IsRepSuffix(rep)
  {
    var n := RepDigits(s, e);
    if n > 0 {
      rep := "x" + s[e + 1..e + 1 + n];
      assert forall q :: 1 <= q < |rep| ==> rep[q] == s[e + q];
    } else {
      rep := "";
    }
  }

  lemma GroupStepShape(s: string, i: nat)
    requires i < |s| && s[i] == '('
    ensures IsGroupToken(GroupStep(s, i).0)
  {
    var c := CloseIndex(s, i + 1, 1);
    var k := AfterClose(s, i);
    var dur, rep := SuffixTextShape(s, k);
    var head := "(" + s[i + 1..c] + ")";
    assert GroupStep(s, i).0 == head + (dur + rep);
    AppendAssoc(head, dur, rep);
    GroupShapeOf(s[i + 1..c], dur, rep);
  }

  lemma StepShape(s: string, i: nat)
    requires i < |s| && s[i] != ')'
    ensures forall t :: t in ScanStep(s, i).0 ==> WellShaped(t)
  {
    if IsSpace(s[i]) || s[i] == '|' {
    } else if s[i] == '(' {
      GroupStepShape(s, i);
    } else if s[i] == '_' {
      RestStepShape(s, i);
    } else {
      RunStepShape(s, i);
    }
  }

  /** Every token of a finished scan has one of the four forms. */
  lemma {:induction false} ScanShapes(s: string, i: nat)
    requires i <= |s|
    ensures ScanFrom(s, i).Tokens? ==> forall t :: t in ScanFrom(s, i).tokens ==> WellShaped(t)
    decreases |s| - i
  {
    if i < |s| && s[i] != ')' {
      var next := ScanStep(s, i).1;
      StepShape(s, i);
      ScanShapes(s, next);
    }
  }

  // ---------------------------------------------------------------------------
  // When the scanner diverges

  lemma BalanceCons(s: string, j: nat, k: nat)
    requires j < k <= |s|
    ensures Balance(s[j..k]) == ParenDelta(s[j]) + Balance(s[j + 1..k])
  {
    assert s[j..k][0] == s[j];
    assert s[j..k][1..] == s[j + 1..k];
  }

  lemma {:induction false} BalanceParenFree(s: string, i: nat, j: nat)
    requires i <= j <= |s|
    requires forall k :: i <= k < j ==> s[k] != '(' && s[k] != ')'
    ensures Balance(s[i..j]) == 0
    decreases j - i
  {
    if i < j {
      BalanceCons(s, i, j);
      BalanceParenFree(s, i + 1, j);
    }
  }

  /** Inside a group scan the running depth never drops to zero before the closing `)`. */
  lemma {:induction false} CloseIndexBalance(s: string, j: nat, depth: nat)
    requires j <= |s| && depth >= 1
    ensures var r := CloseIndex(s, j, depth);
      && (forall k :: j <= k <= r ==> Balance(s[j..k]) + depth >= 1)
      && (r < |s| ==> Balance(s[j..r]) + depth == 1)
    decreases |s| - j
  {
    var r := CloseIndex(s, j, depth);
    if j < |s| && r != j {
      var d' := depth + ParenDelta(s[j]);
      assert r == CloseIndex(s, j + 1, d');
      CloseIndexBalance(s, j + 1, d');
      forall k | j + 1 <= k <= r
        ensures Balance(s[j..k]) + depth >= 1
      {
        BalanceCons(s, j, k);
      }
      if r < |s| {
        BalanceCons(s, j, r);
      }
    }
  }

  /** A group step: the balance stays positive inside the group and returns to zero after it. */
  lemma GroupStepBalance(s: string, i: nat)
    requires i < |s| && s[i] == '('
    ensures var next := GroupStep(s, i).1;
      && (forall k :: i <= k <= next ==> Balance(s[i..k]) >= 0)
      && (next < |s| ==> Balance(s[i..next]) == 0)
  {
    var c := CloseIndex(s, i + 1, 1);
    var next := GroupStep(s, i).1;
    GroupStepNext(s, i);
    InsideGroupBalance(s, i, c);
    if c < |s| {
      ClosedGroupBalance(s, i, c);
      GroupTail(s, i, c, next);
    }
  }

  /** A group step resumes after the suffix that follows its `)`, or at the end when the group never closes. */
  lemma GroupStepNext(s: string, i: nat)
    requires i < |s| && s[i] == '('
    ensures var c := CloseIndex(s, i + 1, 1);
      && (c < |s| ==> GroupStep(s, i).1 == SuffixEnd(s, c + 1))
      && (c == |s| ==> GroupStep(s, i).1 == |s|)
  {
  }

  /** Up to its closing parenthesis a group has opened more than it has closed. */
  lemma InsideGroupBalance(s: string, i: nat, c: nat)
    requires i < |s| && s[i] == '(' && c == CloseIndex(s, i + 1, 1)
    ensures Balance(s[i..i]) == 0
    ensures forall k :: i < k <= c ==> Balance(s[i..k]) >= 1
  {
    assert s[i..i] == [];
    CloseIndexBalance(s, i + 1, 1);
    forall k | i < k <= c
      ensures Balance(s[i..k]) >= 1
    {
      BalanceCons(s, i, k);
    }
  }

  /** A closed group, parentheses included, is balanced. */
  lemma ClosedGroupBalance(s: string, i: nat, c: nat)
    requires i < |s| && s[i] == '(' && c == CloseIndex(s, i + 1, 1) && c < |s|
    ensures Balance(s[i..c + 1]) == 0
  {
    CloseIndexBalance(s, i + 1, 1);
    BalanceCons(s, i, c + 1);
    BalanceSnoc(s, i + 1, c);
  }

  lemma GroupTail(s: string, i: nat, c: nat, next: nat)
    requires i <= c < |s| && Balance(s[i..c + 1]) == 0 && c + 1 <= next <= |s|
    requires forall k :: c + 1 <= k < next ==> s[k] != '(' && s[k] != ')'
    ensures forall k :: c + 1 <= k <= next ==> Balance(s[i..k]) == 0
  {
    forall k | c + 1 <= k <= next
      ensures Balance(s[i..k]) == 0
    {
      BalanceSplit(s, i, c + 1, k);
      BalanceParenFree(s, c + 1, k);
    }
  }

  /** A step that does not stall never lets the balance go negative and, unless it ends the text, restores it to zero. */
  lemma StepBalance(s: string, i: nat)
    requires i < |s| && s[i] != ')'
    ensures var next := ScanStep(s, i).1;
      && (forall k :: i <= k <= next ==> Balance(s[i..k]) >= 0)
      && (next < |s| ==> Balance(s[i..next]) == 0)
  {
    var next := ScanStep(s, i).1;
    if s[i] == '(' {
      GroupStepBalance(s, i);
    } else {
      assert forall k :: i <= k < next ==> s[k] != '(' && s[k] != ')';
      forall k | i <= k <= next
        ensures Balance(s[i..k]) == 0
      {
        BalanceParenFree(s, i, k);
      }
    }
  }

  /** The scanner from `i` diverges exactly when some stretch of the text from `i` has more `)` than `(`. */
  lemma {:induction false} ScanDivergesIffStray(s: string, i: nat)
    requires i <= |s|
    ensures ScanFrom(s, i).Diverges? <==> StrayFrom(s, i)
    decreases |s| - i
  {
    if i == |s| {
      assert forall k :: i <= k <= |s| ==> s[i..k] == [];
    } else if s[i] == ')' {
      BalanceCons(s, i, i + 1);
      assert s[i + 1..i + 1] == [];
      assert Balance(s[i..i + 1]) < 0;
    } else {
      var next := ScanStep(s, i).1;
      StepBalance(s, i);
      ScanDivergesIffStray(s, next);
      if StrayFrom(s, next) {
        var k :| next <= k <= |s| && Balance(s[next..k]) < 0;
        BalanceSplit(s, i, next, k);
      }
      if StrayFrom(s, i) {
        var k :| i <= k <= |s| && Balance(s[i..k]) < 0;
        assert next < k;
        BalanceSplit(s, i, next, k);
      }
    }
  }

  lemma StrayAtZero(s: string)
    ensures StrayFrom(s, 0) <==> HasStrayClose(s)
  {
    assert forall k :: 0 <= k <= |s| ==> s[0..k] == s[..k];
  }

  lemma NewlinesKeepStray(text: string)
    ensures HasStrayClose(NewlinesToSpaces(text)) <==> HasStrayClose(text)
  {
    var u := NewlinesToSpaces(text);
    forall k | 0 <= k <= |text|
      ensures Balance(u[..k]) == Balance(text[..k])
    {
      BalanceSameParens(u[..k], text[..k]);
    }
  }

  lemma TrimKeepsStray(u: string)
    ensures HasStrayClose(Trim(u)) <==> HasStrayClose(u)
  {
    var (a, b) := TrimBounds(u);
    var r := Trim(u);
    if HasStrayClose(r) {
      var k' :| 0 <= k' <= |r| && Balance(r[..k']) < 0;
      TrimmedPrefixBalance(u, k');
      assert Balance(u[..a + k']) < 0;
    }
    if HasStrayClose(u) {
      var k :| 0 <= k <= |u| && Balance(u[..k]) < 0;
      UntrimmedPrefixBalance(u, k);
    }
  }

  /** A prefix of the trimmed text balances like the prefix of the original that ends at the same character. */
  lemma TrimmedPrefixBalance(u: string, k': nat)
    requires k' <= |Trim(u)|
    ensures TrimBounds(u).0 + k' <= |u|
    ensures Balance(Trim(u)[..k']) == Balance(u[..TrimBounds(u).0 + k'])
  {
    var (a, b) := TrimBounds(u);
    var r := Trim(u);
    assert r == u[a..b];
    assert r[..k'] == u[a..a + k'];
    assert u[0..a + k'] == u[..a + k'];
    assert u[0..a] == u[..a];
    BalanceParenFree(u, 0, a);
    BalanceSplit(u, 0, a, a + k');
  }

  /** A prefix of the original text balances like the part of it that survives trimming. */
  lemma UntrimmedPrefixBalance(u: string, k: nat)
    requires k <= |u|
    ensures var (a, b) := TrimBounds(u);
      var k' := if k <= a then 0 else if k <= b then k - a else b - a;
      k' <= |Trim(u)| && Balance(u[..k]) == Balance(Trim(u)[..k'])
  {
    var (a, b) := TrimBounds(u);
    var r := Trim(u);
    assert r == u[a..b];
    var k' := if k <= a then 0 else if k <= b then k - a else b - a;
    assert r[..k'] == u[a..a + k'];
    assert u[0..k] == u[..k];
    if k <= a {
      BalanceParenFree(u, 0, k);
      assert r[..k'] == [];
    } else {
      assert u[0..a] == u[..a];
      BalanceParenFree(u, 0, a);
      BalanceSplit(u, 0, a, k);
      if k > b {
        BalanceSplit(u, a, b, k);
        BalanceParenFree(u, b, k);
      }
    }
  }

  /**
    The scanner stops advancing exactly when some prefix of the text closes
    more parentheses than it opens (`"S)"`, `"(S))"`); on every other text it
    finishes.
  */
  lemma TokenizeDivergesIff(text: string)
    ensures Tokenize(text).Diverges? <==> HasStrayClose(text)
  {
    if text == [] {
      assert forall k :: 0 <= k <= |text| ==> text[..k] == [];
    } else {
      var s := Prepare(text);
      ScanDivergesIffStray(s, 0);
      StrayAtZero(s);
      TrimKeepsStray(NewlinesToSpaces(text));
      NewlinesKeepStray(text);
    }
  }
}

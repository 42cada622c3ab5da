/**
  Character classes and string helpers the notation compiler relies on:
  the JavaScript whitespace class, `trim`, decimal digit strings,
  the historical `M#` rewrite and the parenthesis balance of a text.
*/
module Text {

  import opened Results

  /** JavaScript's `\s` class; it is also the set of characters `trim` removes. */
  predicate IsSpace(c: char) {
    var n := c as int;
    n == 0x09 || n == 0x0A || n == 0x0B || n == 0x0C || n == 0x0D || n == 0x20
    || n == 0xA0 || n == 0x1680 || (0x2000 <= n <= 0x200A) || n == 0x2028 || n == 0x2029
    || n == 0x202F || n == 0x205F || n == 0x3000 || n == 0xFEFF
  }

  /** The characters a regex `.` does not match. */
  predicate IsLineTerminator(c: char) {
    c == '\n' || c == '\r' || c as int == 0x2028 || c as int == 0x2029
  }

  predicate IsDigit(c: char) {
    '0' <= c <= '9'
  }

  /** The letter of a repetition suffix, matched case-insensitively. */
  predicate IsX(c: char) {
    c == 'x' || c == 'X'
  }

  predicate AllDigits(s: string) {
    forall k :: 0 <= k < |s| ==> IsDigit(s[k])
  }

  predicate AllSpace(s: string) {
    forall k :: 0 <= k < |s| ==> IsSpace(s[k])
  }

  predicate HasSpace(s: string) {
    exists k :: 0 <= k < |s| && IsSpace(s[k])
  }

  function DigitValue(c: char): (d: nat)
    requires IsDigit(c)
    ensures d < 10
  {
    (c as int) - ('0' as int)
  }

  function DigitChar(d: nat): (c: char)
    requires d < 10
    ensures IsDigit(c) && DigitValue(c) == d
  {
    (('0' as int) + d) as char
  }

  /** `parseInt(s, 10)` of a non-empty string of ASCII digits (0 for the empty string). */
  function DecimalValue(s: string): nat
    requires AllDigits(s)
    decreases |s|
  {
    if s == [] then 0 else 10 * DecimalValue(s[..|s| - 1]) + DigitValue(s[|s| - 1])
  }

  /** The shortest decimal spelling of a natural number, as `String(n)` prints it. */
  function NatString(n: nat): (s: string)
    ensures |s| > 0 && AllDigits(s)
    decreases n
  {
    if n < 10 then [DigitChar(n)] else NatString(n / 10) + [DigitChar(n % 10)]
  }

  /** `String(i)` for an integer. */
  function IntString(i: int): (s: string)
    ensures |s| > 0
  {
    if i < 0 then "-" + NatString(-i) else NatString(i)
  }

  /** The inverse of `IntString` on its image. */
  function ParseIntString(s: string): Option<int>
    requires |s| > 0
  {
    if s[0] == '-' then
      (if |s| > 1 && AllDigits(s[1..]) then Some(0 - DecimalValue(s[1..])) else None)
    else if AllDigits(s) then Some(DecimalValue(s))
    else None
  }

  /** Values of one- and two-digit strings, the only ones durations use. */
  lemma ShortDecimal(s: string)
    requires AllDigits(s) && |s| <= 2
    ensures |s| == 1 ==> DecimalValue(s) == DigitValue(s[0])
    ensures |s| == 2 ==> DecimalValue(s) == 10 * DigitValue(s[0]) + DigitValue(s[1])
    ensures DecimalValue(s) <= 99
  {
    if |s| == 2 {
      assert s[..1][..0] == [];
    } else if |s| == 1 {
      assert s[..0] == [];
    }
  }

  lemma {:induction false} NatStringRoundTrip(n: nat)
    ensures DecimalValue(NatString(n)) == n
    decreases n
  {
    if n >= 10 {
      NatStringRoundTrip(n / 10);
      var s := NatString(n / 10) + [DigitChar(n % 10)];
      assert s[..|s| - 1] == NatString(n / 10);
    }
  }

  lemma IntStringRoundTrip(i: int)
    ensures ParseIntString(IntString(i)) == Some(i)
  {
    if i < 0 {
      NatStringRoundTrip(-i);
      assert IntString(i)[1..] == NatString(-i);
    } else {
      NatStringRoundTrip(i);
    }
  }

  /** Index of the first non-whitespace character at or after `i`, or `|s|`. */
  function SkipSpaces(s: string, i: nat): (a: nat)
    requires i <= |s|
    ensures i <= a <= |s|
    ensures forall k :: i <= k < a ==> IsSpace(s[k])
    ensures a == |s| || !IsSpace(s[a])
    decreases |s| - i
  {
    if i == |s| || !IsSpace(s[i]) then i else SkipSpaces(s, i + 1)
  }

  /** End of `s[lo..hi]` once its trailing whitespace is dropped. */
  function DropTrailingSpaces(s: string, lo: nat, hi: nat): (b: nat)
    requires lo <= hi <= |s|
    ensures lo <= b <= hi
    ensures forall k :: b <= k < hi ==> IsSpace(s[k])
    ensures b == lo || !IsSpace(s[b - 1])
    decreases hi
  {
    if hi == lo || !IsSpace(s[hi - 1]) then hi else DropTrailingSpaces(s, lo, hi - 1)
  }

  /** Where `String.prototype.trim` cuts `s`: the kept text is `s[a..b]`. */
  function TrimBounds(s: string): (ab: (nat, nat))
    ensures ab.0 <= ab.1 <= |s|
  {
    var a := SkipSpaces(s, 0);
    (a, DropTrailingSpaces(s, a, |s|))
  }

  /** `String.prototype.trim`: the text between the leading and the trailing whitespace. */
  function Trim(s: string): (r: string)
    ensures r == [] || (!IsSpace(r[0]) && !IsSpace(r[|r| - 1]))
    ensures var (a, b) := TrimBounds(s);
      (forall k :: 0 <= k < a ==> IsSpace(s[k])) && (forall k :: b <= k < |s| ==> IsSpace(s[k]))
  {
    var (a, b) := TrimBounds(s);
    s[a..b]
  }

  /** Trimming leaves a text without whitespace unchanged. */
  lemma TrimNoSpace(s: string)
    requires !HasSpace(s)
    ensures Trim(s) == s
  {
    assert s == [] || !IsSpace(s[0]);
    assert s == [] || !IsSpace(s[|s| - 1]);
    assert TrimBounds(s) == (0, |s|);
    assert s[0..|s|] == s;
  }

  /** Trimming leaves a text that starts and ends with a non-whitespace character unchanged. */
  lemma TrimKeeps(s: string)
    requires |s| > 0 && !IsSpace(s[0]) && !IsSpace(s[|s| - 1])
    ensures Trim(s) == s
  {
    assert TrimBounds(s) == (0, |s|);
    assert s[0..|s|] == s;
  }

  /** `text.replace(/\n/g, ' ')`. */
  function NewlinesToSpaces(s: string): (r: string)
    ensures |r| == |s|
    ensures forall k :: 0 <= k < |s| ==> r[k] == (if s[k] == '\n' then ' ' else s[k])
  {
    seq(|s|, k requires 0 <= k < |s| => if s[k] == '\n' then ' ' else s[k])
  }

  /** `s.replace(/M#/g, 'M')`: each `M#`, scanned left to right without overlap, loses its `#`. */
  function NormalizeM(s: string): (r: string)
    ensures |r| <= |s|
    ensures |s| > 0 ==> |r| > 0 && r[0] == s[0]
    decreases |s|
  {
    if |s| >= 2 && s[0] == 'M' && s[1] == '#' then "M" + NormalizeM(s[2..])
    else if s == [] then []
    else [s[0]] + NormalizeM(s[1..])
  }

  /** An `M#` pair starts at index `k` of `s`. */
  predicate MSharpAt(s: string, k: int) {
    0 <= k < |s| - 1 && s[k] == 'M' && s[k + 1] == '#'
  }

  predicate ContainsMSharp(s: string) {
    exists k :: 0 <= k < |s| && MSharpAt(s, k)
  }

  lemma NoMSharpAppend(a: string, b: string)
    requires !ContainsMSharp(a)
    requires forall k :: 0 <= k < |b| ==> b[k] != '#'
    ensures !ContainsMSharp(a + b)
  {
    var s := a + b;
    forall k
      ensures !MSharpAt(s, k)
    {
      if 0 <= k && k + 1 < |a| {
        assert !MSharpAt(a, k);
        assert s[k] == a[k] && s[k + 1] == a[k + 1];
      } else if 0 <= k < |s| - 1 {
        assert s[k + 1] == b[k + 1 - |a|];
      }
    }
  }

  lemma NoMSharpPrepend(c: char, a: string)
    requires c != 'M' && !ContainsMSharp(a)
    ensures !ContainsMSharp([c] + a)
  {
    var s := [c] + a;
    forall k
      ensures !MSharpAt(s, k)
    {
      if 0 < k < |s| - 1 {
        assert !MSharpAt(a, k - 1);
        assert s[k] == a[k - 1] && s[k + 1] == a[k];
      }
    }
  }

  /** `s` with every `#` removed: the part of a text `NormalizeM` never touches. */
  function WithoutSharps(s: string): (r: string)
    ensures forall k :: 0 <= k < |r| ==> r[k] != '#'
    decreases |s|
  {
    if s == [] then [] else (if s[0] == '#' then [] else [s[0]]) + WithoutSharps(s[1..])
  }

  /** The rewrite only ever deletes `#` characters. */
  lemma {:induction false} NormalizeMDeletesOnlySharps(s: string)
    ensures WithoutSharps(NormalizeM(s)) == WithoutSharps(s)
    decreases |s|
  {
    if |s| >= 2 && s[0] == 'M' && s[1] == '#' {
      NormalizeMDeletesOnlySharps(s[2..]);
      assert WithoutSharps(s) == ['M'] + WithoutSharps(s[1..]);
      assert s[1..][1..] == s[2..];
      assert WithoutSharps(s[1..]) == WithoutSharps(s[2..]);
      assert WithoutSharps("M" + NormalizeM(s[2..])) == ['M'] + WithoutSharps(NormalizeM(s[2..]));
    } else if s != [] {
      NormalizeMDeletesOnlySharps(s[1..]);
      assert ([s[0]] + NormalizeM(s[1..]))[1..] == NormalizeM(s[1..]);
    }
  }

  /** Each `M#` becomes `M`, and the text on either side of it is rewritten on its own. */
  lemma {:induction false} MSharpRewritten(a: string, b: string)
    ensures NormalizeM(a + "M#" + b) == NormalizeM(a) + "M" + NormalizeM(b)
    decreases |a|
  {
    if a == [] {
      assert a + "M#" + b == "M#" + b;
      assert ("M#" + b)[2..] == b;
    } else if |a| >= 2 && a[0] == 'M' && a[1] == '#' {
      var s := a + "M#" + b;
      assert s[2..] == a[2..] + "M#" + b;
      MSharpRewritten(a[2..], b);
      ConcatShift("M", NormalizeM(a[2..]), NormalizeM(b));
    } else {
      var s := a + "M#" + b;
      assert s[0] == a[0] && s[1..] == a[1..] + "M#" + b;
      assert !(s[0] == 'M' && s[1] == '#') by {
        if |a| >= 2 { assert s[1] == a[1]; } else { assert s[1] == 'M'; }
      }
      MSharpRewritten(a[1..], b);
      ConcatShift([a[0]], NormalizeM(a[1..]), NormalizeM(b));
    }
  }

  /** Prepending to the left part of a split text. */
  lemma ConcatShift(h: string, x: string, y: string)
    ensures h + (x + "M" + y) == (h + x) + "M" + y
  {
  }

  /** A text without any `M#` is left unchanged by the rewrite. */
  lemma {:induction false} NormalizeMIdentity(s: string)
    requires !ContainsMSharp(s)
    ensures NormalizeM(s) == s
    decreases |s|
  {
    if s != [] {
      assert !MSharpAt(s, 0);
      forall k
        ensures !MSharpAt(s[1..], k)
      {
        if 0 <= k < |s[1..]| - 1 {
          assert !MSharpAt(s, k + 1);
          assert s[1..][k] == s[k + 1] && s[1..][k + 1] == s[k + 2];
        }
      }
      NormalizeMIdentity(s[1..]);
    }
  }

  /** Index of the first whitespace character at or after `from`, or `|s|`. */
  function WordEnd(s: string, from: nat): (j: nat)
    requires from <= |s|
    ensures from <= j <= |s|
    ensures forall k :: from <= k < j ==> !IsSpace(s[k])
    ensures j < |s| ==> IsSpace(s[j])
    decreases |s| - from
  {
    if from == |s| || IsSpace(s[from]) then from else WordEnd(s, from + 1)
  }

  /** A non-empty piece of text without whitespace. */
  predicate IsWord(w: string) {
    |w| > 0 && !HasSpace(w)
  }

  /** Every piece of the list is a word. */
  predicate AllWords(ws: seq<string>)
    decreases |ws|
  {
    ws == [] || (IsWord(ws[0]) && AllWords(ws[1..]))
  }

  lemma {:induction false} AllWordsOfEach(ws: seq<string>)
    requires forall k :: 0 <= k < |ws| ==> IsWord(ws[k])
    ensures AllWords(ws)
    decreases |ws|
  {
    if ws != [] {
      assert forall k :: 0 <= k < |ws| - 1 ==> ws[1..][k] == ws[k + 1];
      AllWordsOfEach(ws[1..]);
    }
  }

  /** The characters of `s[i..]` that are not whitespace, in order. */
  function NonSpacesFrom(s: string, i: nat): string
    requires i <= |s|
    decreases |s| - i
  {
    if i == |s| then [] else (if IsSpace(s[i]) then [] else [s[i]]) + NonSpacesFrom(s, i + 1)
  }

  /** The pieces of a list written one after another. */
  function Concat(ws: seq<string>): string
  {
    if ws == [] then [] else ws[0] + Concat(ws[1..])
  }

  /** A stretch of whitespace contributes nothing. */
  lemma {:induction false} NonSpacesSkip(s: string, i: nat, a: nat)
    requires i <= a <= |s|
    requires forall k :: i <= k < a ==> IsSpace(s[k])
    ensures NonSpacesFrom(s, i) == NonSpacesFrom(s, a)
    decreases a - i
  {
    if i < a {
      NonSpacesSkip(s, i + 1, a);
    }
  }

  /** A stretch without whitespace contributes itself. */
  lemma {:induction false} NonSpacesWord(s: string, a: nat, j: nat)
    requires a <= j <= |s|
    requires forall k :: a <= k < j ==> !IsSpace(s[k])
    ensures NonSpacesFrom(s, a) == s[a..j] + NonSpacesFrom(s, j)
    decreases j - a
  {
    if a < j {
      NonSpacesWord(s, a + 1, j);
      assert s[a..j] == [s[a]] + s[a + 1..j];
      AppendAssoc([s[a]], s[a + 1..j], NonSpacesFrom(s, j));
    }
  }

  lemma AppendAssoc<T>(x: seq<T>, y: seq<T>, z: seq<T>)
    ensures (x + y) + z == x + (y + z)
  {
  }

  lemma ConcatCons(w: string, ws: seq<string>)
    ensures Concat([w] + ws) == w + Concat(ws)
  {
    assert ([w] + ws)[1..] == ws;
  }

  /**
    The maximal whitespace-free pieces of `s[i..]`, in order: together they
    hold exactly the text's non-whitespace characters.
  */
  function WordsFrom(s: string, i: nat): seq<string>
    requires i <= |s|
    decreases |s| - i
  {
    var a := SkipSpaces(s, i);
    if a == |s| then [] else [s[a..WordEnd(s, a)]] + WordsFrom(s, WordEnd(s, a))
  }

  lemma {:induction false} WordsFromContent(s: string, i: nat)
    requires i <= |s|
    ensures AllWords(WordsFrom(s, i))
    ensures Concat(WordsFrom(s, i)) == NonSpacesFrom(s, i)
    decreases |s| - i
  {
    var a := SkipSpaces(s, i);
    NonSpacesSkip(s, i, a);
    if a < |s| {
      var j := WordEnd(s, a);
      NonSpacesWord(s, a, j);
      WordsFromContent(s, j);
      ConcatCons(s[a..j], WordsFrom(s, j));
      assert WordsFrom(s, i) == [s[a..j]] + WordsFrom(s, j);
      assert WordsFrom(s, i)[1..] == WordsFrom(s, j);
    }
  }

  /** The maximal whitespace-free pieces of `s`; on a trimmed text this is `s.split(/\s+/)`. */
  function Words(s: string): (ws: seq<string>)
    ensures AllWords(ws)
    ensures Concat(ws) == NonSpacesFrom(s, 0)
  {
    WordsFromContent(s, 0);
    WordsFrom(s, 0)
  }

  /** Words joined by single spaces: the text a whitespace group is written as. */
  function JoinSpaced(ws: seq<string>): string
    requires |ws| >= 1
  {
    if |ws| == 1 then ws[0] else ws[0] + " " + JoinSpaced(ws[1..])
  }


  /**
    A space-joined list of words starts and ends with a word character, has no
    whitespace but its single spaces, and has one as soon as there are two words.
  */
  lemma {:induction false} JoinSpacedShape(ws: seq<string>)
    requires |ws| >= 1 && AllWords(ws)
    ensures var t := JoinSpaced(ws);
      && |t| > 0 && !IsSpace(t[0]) && !IsSpace(t[|t| - 1])
      && (forall k :: 0 <= k < |t| ==> t[k] == ' ' || !IsSpace(t[k]))
      && (|ws| >= 2 ==> HasSpace(t))
    decreases |ws|
  {
    var w := ws[0];
    assert IsWord(w);
    if |ws| > 1 {
      var r := JoinSpaced(ws[1..]);
      var t := w + " " + r;
      JoinSpacedShape(ws[1..]);
      assert JoinSpaced(ws) == t;
      assert t[|w|] == ' ';
      assert t[|t| - 1] == r[|r| - 1];
      forall k | 0 <= k < |t|
        ensures t[k] == ' ' || !IsSpace(t[k])
      {
        if k < |w| {
          assert t[k] == w[k];
        } else if k > |w| {
          assert t[k] == r[k - |w| - 1];
        }
      }
    }
  }

  /** `s[i..]` is exactly the words of `ws` separated by single spaces. */
  predicate JoinedAt(s: string, i: nat, ws: seq<string>)
    decreases |ws|
  {
    |ws| >= 1 && i + |ws[0]| <= |s| && s[i..i + |ws[0]|] == ws[0] &&
    if |ws| == 1 then i + |ws[0]| == |s|
    else i + |ws[0]| < |s| && s[i + |ws[0]|] == ' ' && JoinedAt(s, i + |ws[0]| + 1, ws[1..])
  }

  /** Splitting a space-joined list of words gives the words back. */
  lemma WordsJoin(ws: seq<string>)
    requires |ws| >= 1 && AllWords(ws)
    ensures Words(JoinSpaced(ws)) == ws
  {
    JoinSpacedJoined(ws);
    WordsFromJoined(JoinSpaced(ws), 0, ws);
  }

  lemma {:induction false} WordsFromJoined(s: string, i: nat, ws: seq<string>)
    requires i <= |s| && AllWords(ws) && JoinedAt(s, i, ws)
    ensures WordsFrom(s, i) == ws
    decreases |ws|
  {
    if |ws| == 1 {
      JoinedLast(s, i, ws);
    } else {
      var e := i + |ws[0]| + 1;
      JoinedNext(s, i, ws);
      WordsFromJoined(s, e, ws[1..]);
      HeadTail(WordsFrom(s, i), WordsFrom(s, e), ws);
    }
  }

  /** The last word of a joined text is its only remaining piece. */
  lemma JoinedLast(s: string, i: nat, ws: seq<string>)
    requires i <= |s| && AllWords(ws) && JoinedAt(s, i, ws) && |ws| == 1
    ensures WordsFrom(s, i) == ws
  {
    JoinedHead(s, i, ws);
    WordsFromNone(s, i + |ws[0]|);
    assert ws == [ws[0]];
  }

  /** After the first word and its space, the rest of a joined text is joined from the rest of the list. */
  lemma JoinedNext(s: string, i: nat, ws: seq<string>)
    requires i <= |s| && AllWords(ws) && JoinedAt(s, i, ws) && |ws| > 1
    ensures i + |ws[0]| + 1 <= |s|
    ensures AllWords(ws[1..]) && JoinedAt(s, i + |ws[0]| + 1, ws[1..])
    ensures WordsFrom(s, i) == [ws[0]] + WordsFrom(s, i + |ws[0]| + 1)
  {
    JoinedHead(s, i, ws);
    WordsFromSpace(s, i + |ws[0]|);
  }

  lemma HeadTail<T>(x: seq<T>, y: seq<T>, ws: seq<T>)
    requires |ws| >= 1 && x == [ws[0]] + y && y == ws[1..]
    ensures x == ws
  {
  }

  lemma JoinedHead(s: string, i: nat, ws: seq<string>)
    requires i <= |s| && AllWords(ws) && JoinedAt(s, i, ws)
    ensures i + |ws[0]| <= |s|
    ensures WordsFrom(s, i) == [ws[0]] + WordsFrom(s, i + |ws[0]|)
    ensures |ws| == 1 ==> i + |ws[0]| == |s|
    ensures |ws| > 1 ==> i + |ws[0]| < |s| && IsSpace(s[i + |ws[0]|]) && JoinedAt(s, i + |ws[0]| + 1, ws[1..])
    ensures |ws| > 1 ==> AllWords(ws[1..])
  {
    var w := ws[0];
    WordAt(s, i, w);
    WordsFromAt(s, i, i, i + |w|, w);
  }

  lemma {:induction false} JoinSpacedJoined(ws: seq<string>)
    requires |ws| >= 1
    ensures JoinedAt(JoinSpaced(ws), 0, ws)
    decreases |ws|
  {
    var w := ws[0];
    if |ws| == 1 {
      assert JoinSpaced(ws)[0..|w|] == w;
    } else {
      var p := w + " ";
      var t := JoinSpaced(ws[1..]);
      assert JoinSpaced(ws) == p + t;
      JoinSpacedJoined(ws[1..]);
      JoinedShift(p, t, 0, ws[1..]);
      assert (p + t)[0..|w|] == w;
      assert (p + t)[|w|] == ' ';
    }
  }

  lemma {:induction false} JoinedShift(p: string, t: string, k: nat, ws: seq<string>)
    requires k <= |t| && JoinedAt(t, k, ws)
    ensures JoinedAt(p + t, |p| + k, ws)
    decreases |ws|
  {
    var e := k + |ws[0]|;
    SliceShift(p, t, k, e);
    if |ws| > 1 {
      assert (p + t)[|p| + e] == t[e];
      JoinedShift(p, t, e + 1, ws[1..]);
    }
  }

  lemma SliceShift(p: string, t: string, a: nat, j: nat)
    requires a <= j <= |t|
    ensures (p + t)[|p| + a..|p| + j] == t[a..j]
  {
  }

  /** With the next word of `s[i..]` at `s[a..j]`, the pieces are that word and those after `j`. */
  lemma WordsFromAt(s: string, i: nat, a: nat, j: nat, w: string)
    requires i <= |s| && SkipSpaces(s, i) == a && a < |s| && WordEnd(s, a) == j && s[a..j] == w
    ensures WordsFrom(s, i) == [w] + WordsFrom(s, j)
  {
  }

  lemma WordsFromNone(s: string, i: nat)
    requires i <= |s| && SkipSpaces(s, i) == |s|
    ensures WordsFrom(s, i) == []
  {
  }

  /** A word written at `i`, followed by whitespace or the end, is the piece found there. */
  lemma WordAt(s: string, i: nat, w: string)
    requires IsWord(w) && i + |w| <= |s| && s[i..i + |w|] == w
    requires i + |w| == |s| || IsSpace(s[i + |w|])
    ensures SkipSpaces(s, i) == i && WordEnd(s, i) == i + |w| && s[i..WordEnd(s, i)] == w
  {
    assert s[i] == w[0];
    forall k | i <= k < i + |w|
      ensures !IsSpace(s[k])
    {
      assert s[k] == w[k - i];
    }
    WordEndAt(s, i, i + |w|);
  }

  lemma WordsFromStep(s: string, i: nat)
    requires i < |s| && !IsSpace(s[i])
    ensures WordsFrom(s, i) == [s[i..WordEnd(s, i)]] + WordsFrom(s, WordEnd(s, i))
  {
    assert SkipSpaces(s, i) == i;
  }

  lemma WordEndAt(s: string, a: nat, j: nat)
    requires a <= j <= |s|
    requires forall k :: a <= k < j ==> !IsSpace(s[k])
    requires j == |s| || IsSpace(s[j])
    ensures WordEnd(s, a) == j
    decreases j - a
  {
    if a < j {
      WordEndAt(s, a + 1, j);
    }
  }

  /** A whitespace character before the next word changes nothing. */
  lemma WordsFromSpace(s: string, j: nat)
    requires j < |s| && IsSpace(s[j])
    ensures WordsFrom(s, j) == WordsFrom(s, j + 1)
  {
    assert SkipSpaces(s, j) == SkipSpaces(s, j + 1);
  }

  /** +1 for an opening parenthesis, -1 for a closing one, 0 otherwise. */
  function ParenDelta(c: char): int {
    if c == '(' then 1 else if c == ')' then -1 else 0
  }

  /** Number of `(` minus number of `)` in `s`. */
  function Balance(s: string): int
    decreases |s|
  {
    if s == [] then 0 else ParenDelta(s[0]) + Balance(s[1..])
  }

  lemma {:induction false} BalanceAppend(a: string, b: string)
    ensures Balance(a + b) == Balance(a) + Balance(b)
    decreases |a|
  {
    if a == [] {
      assert a + b == b;
    } else {
      assert (a + b)[0] == a[0];
      assert (a + b)[1..] == a[1..] + b;
      BalanceAppend(a[1..], b);
    }
  }

  /** Balance of `s[i..k]` split at `m`. */
  lemma BalanceSplit(s: string, i: nat, m: nat, k: nat)
    requires i <= m <= k <= |s|
    ensures Balance(s[i..k]) == Balance(s[i..m]) + Balance(s[m..k])
  {
    assert s[i..k] == s[i..m] + s[m..k];
    BalanceAppend(s[i..m], s[m..k]);
  }

  /** Extending a slice by one character adds that character's delta. */
  lemma BalanceSnoc(s: string, i: nat, k: nat)
    requires i <= k < |s|
    ensures Balance(s[i..k + 1]) == Balance(s[i..k]) + ParenDelta(s[k])
  {
    BalanceSplit(s, i, k, k + 1);
    assert s[k..k + 1] == [s[k]];
  }

  predicate NoParens(s: string) {
    forall k :: 0 <= k < |s| ==> s[k] != '(' && s[k] != ')'
  }

  lemma {:induction false} BalanceNoParens(s: string)
    requires NoParens(s)
    ensures Balance(s) == 0
    decreases |s|
  {
    if s != [] {
      BalanceNoParens(s[1..]);
    }
  }

  /** Two texts with parentheses at the same positions have the same balance. */
  lemma {:induction false} BalanceSameParens(a: string, b: string)
    requires |a| == |b|
    requires forall k :: 0 <= k < |a| ==> ParenDelta(a[k]) == ParenDelta(b[k])
    ensures Balance(a) == Balance(b)
    decreases |a|
  {
    if a != [] {
      BalanceSameParens(a[1..], b[1..]);
    }
  }

  /** Some prefix of `s` closes more parentheses than it opens. */
  predicate HasStrayClose(s: string) {
    exists k :: 0 <= k <= |s| && Balance(s[..k]) < 0
  }

  /** Some stretch of `s` starting at `i` closes more parentheses than it opens. */
  predicate StrayFrom(s: string, i: nat)
    requires i <= |s|
  {
    exists k :: i <= k <= |s| && Balance(s[i..k]) < 0
  }
}

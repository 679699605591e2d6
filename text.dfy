/**
 * The few pieces of Python's str behaviour the pipeline relies on, over ASCII:
 * str.isspace, str.lower/upper/capitalize, str.strip, str.split() with no
 * separator, sep.join(parts), the `in` substring test and str(n) for n >= 0.
 */
module Text {

  /** str.isspace on one character: \t \n \v \f \r, \x1c-\x1f and the space. */
  predicate IsSpace(c: char) {
    9 <= c as int <= 13 || 28 <= c as int <= 32
  }

  predicate IsDigit(c: char) {
    '0' <= c <= '9'
  }

  predicate AllSpace(s: string) {
    forall i :: 0 <= i < |s| ==> IsSpace(s[i])
  }

  /** A token of str.split(): non-empty, without whitespace. */
  predicate IsWord(w: string) {
    |w| > 0 && forall i :: 0 <= i < |w| ==> !IsSpace(w[i])
  }

  predicate AllDigits(s: string) {
    forall i :: 0 <= i < |s| ==> IsDigit(s[i])
  }

  // ---------------------------------------------------------------- case

  function LowerChar(c: char): char {
    if 'A' <= c <= 'Z' then (c as int + 32) as char else c
  }

  function UpperChar(c: char): char {
    if 'a' <= c <= 'z' then (c as int - 32) as char else c
  }

  function Lower(s: string): string {
    seq(|s|, i requires 0 <= i < |s| => LowerChar(s[i]))
  }

  function Upper(s: string): string {
    seq(|s|, i requires 0 <= i < |s| => UpperChar(s[i]))
  }

  /** str.capitalize: the first character upper-cased, the rest lower-cased. */
  function Capitalize(s: string): string {
    if s == [] then [] else [UpperChar(s[0])] + Lower(s[1..])
  }

  /** capitalize does not depend on the case the text was written in. */
  lemma CapitalizeIgnoresCase(s: string)
    ensures Capitalize(Upper(s)) == Capitalize(s)
    ensures Capitalize(Lower(s)) == Capitalize(s)
  {
    if s != [] {
      assert Upper(s)[1..] == Upper(s[1..]) && Lower(s)[1..] == Lower(s[1..]);
      assert Lower(Upper(s[1..])) == Lower(s[1..]);
      assert Lower(Lower(s[1..])) == Lower(s[1..]);
    }
  }

  // ---------------------------------------------------------------- runs

  /** The end of the run of whitespace starting at i. */
  function SpaceRun(s: string, i: nat): (j: nat)
    requires i <= |s|
    ensures i <= j <= |s|
    ensures j < |s| ==> !IsSpace(s[j])
    decreases |s| - i
  {
    if i < |s| && IsSpace(s[i]) then SpaceRun(s, i + 1) else i
  }

  /** The end of the run of non-whitespace starting at i. */
  function WordRun(s: string, i: nat): (k: nat)
    requires i <= |s|
    ensures i <= k <= |s|
    ensures i < |s| && !IsSpace(s[i]) ==> i < k
    decreases |s| - i
  {
    if i < |s| && !IsSpace(s[i]) then WordRun(s, i + 1) else i
  }

  /** The tokens str.split() finds in s from position i on. */
  function SplitFrom(s: string, i: nat): seq<string>
    requires i <= |s|
    decreases |s| - i
  {
    var j := SpaceRun(s, i);
    if j == |s| then []
    else
      var k := WordRun(s, j);
      [s[j..k]] + SplitFrom(s, k)
  }

  /** The start of the run of whitespace that ends at j, going no further left than lo. */
  function TrailStart(s: string, lo: nat, j: nat): (r: nat)
    requires lo <= j <= |s|
    ensures lo <= r <= j
    decreases j
  {
    if lo < j && IsSpace(s[j - 1]) then TrailStart(s, lo, j - 1) else j
  }

  lemma {:induction false} SpaceRunIsSpace(s: string, i: nat)
    requires i <= |s|
    ensures AllSpace(s[i..SpaceRun(s, i)])
    decreases |s| - i
  {
    if i < |s| && IsSpace(s[i]) {
      SpaceRunIsSpace(s, i + 1);
    }
  }

  lemma {:induction false} TrailStartIsSpace(s: string, lo: nat, j: nat)
    requires lo <= j <= |s|
    ensures AllSpace(s[TrailStart(s, lo, j)..j])
    ensures lo < TrailStart(s, lo, j) ==> !IsSpace(s[TrailStart(s, lo, j) - 1])
    decreases j
  {
    if lo < j && IsSpace(s[j - 1]) {
      TrailStartIsSpace(s, lo, j - 1);
      var r := TrailStart(s, lo, j);
      assert s[r..j] == s[r..j - 1] + [s[j - 1]];
    }
  }

  /** str.strip() with no argument. */
  function Strip(s: string): string {
    var i := SpaceRun(s, 0);
    s[i..TrailStart(s, i, |s|)]
  }

  lemma StripEmptyIffAllSpace(s: string)
    ensures Strip(s) == [] <==> AllSpace(s)
  {
    var i := SpaceRun(s, 0);
    var j := TrailStart(s, i, |s|);
    SpaceRunIsSpace(s, 0);
    TrailStartIsSpace(s, i, |s|);
    if i == j {
      assert s == s[0..i] + s[j..|s|];
    }
    assert i < |s| ==> !IsSpace(s[i]);
  }

  // ---------------------------------------------------------------- substring

  predicate OccursAt(s: string, sub: string, i: nat) {
    i + |sub| <= |s| && s[i..i + |sub|] == sub
  }

  /** Python's `sub in s`. */
  predicate Contains(s: string, sub: string) {
    exists i: nat | i <= |s| :: OccursAt(s, sub, i)
  }

  // ---------------------------------------------------------------- join

  /** sep.join(parts). */
  function Join(parts: seq<string>, sep: string): string
    decreases |parts|
  {
    if |parts| == 0 then ""
    else if |parts| == 1 then parts[0]
    else parts[0] + sep + Join(parts[1..], sep)
  }

  lemma JoinStartsWithFirst(parts: seq<string>, sep: string)
    requires |parts| > 0
    ensures |Join(parts, sep)| >= |parts[0]|
    ensures Join(parts, sep)[..|parts[0]|] == parts[0]
  {
  }

  // ---------------------------------------------------------------- split

  /** str.split() with no separator: the maximal runs of non-whitespace characters. */
  function SplitWords(s: string): seq<string> {
    SplitFrom(s, 0)
  }

  lemma {:induction false} WordRunIsWord(s: string, i: nat)
    requires i <= |s|
    ensures forall p :: i <= p < WordRun(s, i) ==> !IsSpace(s[p])
    ensures WordRun(s, i) < |s| ==> IsSpace(s[WordRun(s, i)])
    decreases |s| - i
  {
    if i < |s| && !IsSpace(s[i]) {
      WordRunIsWord(s, i + 1);
    }
  }

  lemma {:induction false} SplitFromAreWords(s: string, i: nat)
    requires i <= |s|
    ensures forall n :: 0 <= n < |SplitFrom(s, i)| ==> IsWord(SplitFrom(s, i)[n])
    decreases |s| - i
  {
    var j := SpaceRun(s, i);
    if j < |s| {
      var k := WordRun(s, j);
      WordRunIsWord(s, j);
      assert IsWord(s[j..k]);
      SplitFromAreWords(s, k);
    }
  }

  lemma SplitWordsAreWords(s: string)
    ensures forall n :: 0 <= n < |SplitWords(s)| ==> IsWord(SplitWords(s)[n])
  {
    SplitFromAreWords(s, 0);
  }

  lemma {:induction false} SpaceRunShift(p: string, s: string, i: nat)
    requires i <= |s|
    ensures SpaceRun(p + s, |p| + i) == |p| + SpaceRun(s, i)
    decreases |s| - i
  {
    if i < |s| && IsSpace(s[i]) {
      SpaceRunShift(p, s, i + 1);
    }
  }

  lemma {:induction false} WordRunShift(p: string, s: string, i: nat)
    requires i <= |s|
    ensures WordRun(p + s, |p| + i) == |p| + WordRun(s, i)
    decreases |s| - i
  {
    if i < |s| && !IsSpace(s[i]) {
      WordRunShift(p, s, i + 1);
    }
  }

  lemma SliceShift(p: string, s: string, j: nat, k: nat)
    requires j <= k <= |s|
    ensures (p + s)[|p| + j..|p| + k] == s[j..k]
  {
    forall t | 0 <= t < k - j
      ensures (p + s)[|p| + j..|p| + k][t] == s[j..k][t]
    {
      assert (p + s)[|p| + j + t] == s[j + t];
    }
  }

  /** What precedes position |p| does not affect the tokens found after it. */
  lemma {:induction false} SplitFromShift(p: string, s: string, i: nat)
    requires i <= |s|
    ensures SplitFrom(p + s, |p| + i) == SplitFrom(s, i)
    decreases |s| - i
  {
    SpaceRunShift(p, s, i);
    var j := SpaceRun(s, i);
    if j < |s| {
      WordRunShift(p, s, j);
      var k := WordRun(s, j);
      SliceShift(p, s, j, k);
      SplitFromShift(p, s, k);
    }
  }

  lemma {:induction false} WordRunOverWord(s: string, i: nat, e: nat)
    requires i <= e <= |s|
    requires forall p :: i <= p < e ==> !IsSpace(s[p])
    requires e < |s| ==> IsSpace(s[e])
    ensures WordRun(s, i) == e
    decreases e - i
  {
    if i < e {
      WordRunOverWord(s, i + 1, e);
    }
  }

  lemma SplitOneWord(w: string)
    requires IsWord(w)
    ensures SplitWords(w) == [w]
  {
    WordRunOverWord(w, 0, |w|);
    assert SpaceRun(w, 0) == 0;
    assert w[0..|w|] == w;
    assert SplitFrom(w, |w|) == [];
  }

  lemma SplitWordThenSpace(w: string, j: string)
    requires IsWord(w) && j != [] && !IsSpace(j[0])
    ensures SplitWords(w + " " + j) == [w] + SplitWords(j)
  {
    var s := w + " " + j;
    assert s[0] == w[0];
    WordRunOverWord(s, 0, |w|);
    assert s[0..|w|] == w;
    assert SpaceRun(s, 0) == 0;
    assert s[|w|] == ' ';
    assert SpaceRun(s, |w|) == SpaceRun(s, |w| + 1);
    assert SplitFrom(s, 0) == [w] + SplitFrom(s, |w|);
    assert SplitFrom(s, |w|) == SplitFrom(s, |w| + 1);
    assert s == (w + " ") + j;
    SplitFromShift(w + " ", j, 0);
  }

  /** A space-join of words is non-empty and does not start with whitespace. */
  lemma JoinOfWordsStartsWithWord(ws: seq<string>)
    requires |ws| > 0 && forall i :: 0 <= i < |ws| ==> IsWord(ws[i])
    ensures Join(ws, " ") != [] && !IsSpace(Join(ws, " ")[0])
  {
    JoinStartsWithFirst(ws, " ");
    assert Join(ws, " ")[0] == ws[0][0];
  }

  /** Joining words with single spaces and splitting again gives the words back. */
  lemma {:induction false} SplitJoin(ws: seq<string>)
    requires forall i :: 0 <= i < |ws| ==> IsWord(ws[i])
    ensures SplitWords(Join(ws, " ")) == ws
    decreases |ws|
  {
    if |ws| == 1 {
      SplitOneWord(ws[0]);
    } else if |ws| > 1 {
      var rest := ws[1..];
      JoinOfWordsStartsWithWord(rest);
      SplitWordThenSpace(ws[0], Join(rest, " "));
      SplitJoin(rest);
    }
  }

  // ---------------------------------------------------------------- numbers

  function DigitChar(d: nat): char
    requires d < 10
  {
    ('0' as int + d) as char
  }

  /** str(n) for a natural number: its decimal digits, without leading zeros. */
  function NatToString(n: nat): (s: string)
    ensures |s| > 0 && AllDigits(s)
    decreases n
  {
    if n < 10 then [DigitChar(n)] else NatToString(n / 10) + [DigitChar(n % 10)]
  }
}

/**
 * Syllabus ingestion (rag/ingest.py): word-window chunking, unit-label
 * detection and the chunk records handed to the vector store.
 */
module Ingest {
  import opened Wrappers
  import opened Text
  import Settings

  /** One element of chunk_text's result: {"text", "start_word", "end_word"}. */
  datatype Window = Window(text: string, startWord: nat, endWord: nat)

  /**
   * A chunk record as the vector store keeps it. Keys that a record may lack
   * ("unit", "bloom_level") are options; a missing "text" reads as "".
   */
  datatype Chunk = Chunk(text: string, chunkId: int, unit: Option<string>, page: int, bloomLevel: Option<string>)

  function Min(a: int, b: int): int {
    if a <= b then a else b
  }

  // ======================================================== chunk_text

  /** `chunk_size or CHUNK_SIZE`: 0 stands for both None and 0. */
  function EffectiveChunkSize(chunkSize: nat): (size: nat)
    ensures size > 0
    ensures chunkSize != 0 ==> size == chunkSize
    ensures chunkSize == 0 ==> size == Settings.CHUNK_SIZE
  {
    if chunkSize == 0 then Settings.CHUNK_SIZE else chunkSize
  }

  /** `overlap or CHUNK_OVERLAP`: an overlap of 0 becomes 50. */
  function EffectiveOverlap(overlap: int): int {
    if overlap == 0 then Settings.CHUNK_OVERLAP else overlap
  }

  /** The loop never stops unless each step moves `start` forward. */
  predicate ValidChunking(chunkSize: nat, overlap: int) {
    EffectiveOverlap(overlap) < EffectiveChunkSize(chunkSize)
  }

  function Step(chunkSize: nat, overlap: int): (step: nat)
    requires ValidChunking(chunkSize, overlap)
  {
    EffectiveChunkSize(chunkSize) - EffectiveOverlap(overlap)
  }

  /** The windows chunk_text emits once `start` has reached the given word position. */
  function WindowsFrom(words: seq<string>, size: nat, step: nat, start: nat): seq<Window>
    requires step > 0
    decreases |words| - start
  {
    if start >= |words| then []
    else
      var end := Min(start + size, |words|);
      [Window(Join(words[start..end], " "), start, end)] + WindowsFrom(words, size, step, start + step)
  }

  /** What chunk_text(text, chunk_size, overlap) returns. */
  function Windows(text: string, chunkSize: nat, overlap: int): seq<Window>
    requires ValidChunking(chunkSize, overlap)
  {
    WindowsFrom(SplitWords(text), EffectiveChunkSize(chunkSize), Step(chunkSize, overlap), 0)
  }

  /** The text of a window over words is never blank, so chunk_text's strip() test always passes. */
  lemma WindowTextNotBlank(words: seq<string>, start: nat, end: nat)
    requires start < end <= |words|
    requires forall i :: 0 <= i < |words| ==> IsWord(words[i])
    ensures Strip(Join(words[start..end], " ")) != ""
  {
    var part := words[start..end];
    JoinOfWordsStartsWithWord(part);
    StripEmptyIffAllSpace(Join(part, " "));
  }

  /**
   * One turn of chunk_text's loop: the window at `start` is the next one
   * emitted, and its text passes the strip() test.
   */
  lemma ChunkLoopStep(words: seq<string>, size: nat, step: nat, start: nat, chunks: seq<Window>)
    requires step > 0 && size > 0 && start < |words|
    requires forall i :: 0 <= i < |words| ==> IsWord(words[i])
    requires WindowsFrom(words, size, step, 0) == chunks + WindowsFrom(words, size, step, start)
    ensures var last := Min(start + size, |words|);
      && WindowsFrom(words, size, step, 0)
         == (chunks + [Window(Join(words[start..last], " "), start, last)]) + WindowsFrom(words, size, step, start + step)
      && Strip(Join(words[start..last], " ")) != ""
  {
    WindowTextNotBlank(words, start, Min(start + size, |words|));
  }

  /**
   * One turn of chunk_text's loop: the window of words [start, start+size)
   * is joined and, when its strip() is not empty, appended.
   */
  method EmitWindow(words: seq<string>, size: nat, step: nat, start: nat, chunks: seq<Window>)
    returns (next: seq<Window>)
    requires step > 0 && size > 0 && start < |words|
    requires forall i :: 0 <= i < |words| ==> IsWord(words[i])
    requires WindowsFrom(words, size, step, 0) == chunks + WindowsFrom(words, size, step, start)
    ensures WindowsFrom(words, size, step, 0) == next + WindowsFrom(words, size, step, start + step)
  {
    var end := start + size;
    var last := Min(end, |words|);
    var chunk := Join(words[start..last], " ");
    ChunkLoopStep(words, size, step, start, chunks);
    next := chunks;
    if Strip(chunk) != "" {
      next := chunks + [Window(chunk, start, last)];
    }
  }

  method ChunkText(text: string, chunkSize: nat, overlap: int) returns (chunks: seq<Window>)
    requires ValidChunking(chunkSize, overlap)
    ensures chunks == Windows(text, chunkSize, overlap)
  {
    var size := EffectiveChunkSize(chunkSize);
    var ov := EffectiveOverlap(overlap);
    var step: nat := size - ov;
    var words := SplitWords(text);
    SplitWordsAreWords(text);
    chunks := [];
    var start: nat := 0;
    while start < |words|
      invariant WindowsFrom(words, size, step, 0) == chunks + WindowsFrom(words, size, step, start)
      decreases |words| - start
    {
      chunks := EmitWindow(words, size, step, start, chunks);
      start := start + step;
      if start >= |words| {
        assert WindowsFrom(words, size, step, start) == [];
        assert chunks + [] == chunks;
        break;
      }
    }
    assert Windows(text, chunkSize, overlap) == WindowsFrom(words, size, step, 0);
  }

  // -------------------------------------------------- window properties

  lemma {:induction false} WindowShape(words: seq<string>, size: nat, step: nat, start: nat, i: nat)
    requires step > 0 && i < |WindowsFrom(words, size, step, start)|
    ensures var w := WindowsFrom(words, size, step, start)[i];
      && w.startWord == start + i * step < |words|
      && w.endWord == Min(w.startWord + size, |words|)
      && w.text == Join(words[w.startWord..w.endWord], " ")
    decreases i
  {
    var ws := WindowsFrom(words, size, step, start);
    assert start < |words|;
    var end := Min(start + size, |words|);
    assert ws == [Window(Join(words[start..end], " "), start, end)] + WindowsFrom(words, size, step, start + step);
    if i > 0 {
      assert ws[i] == WindowsFrom(words, size, step, start + step)[i - 1];
      WindowShape(words, size, step, start + step, i - 1);
      MulSucc(i - 1, step);
    }
  }

  /** Chunk i covers words [i*step, min(i*step + chunk_size, W)). */
  lemma ChunkBounds(text: string, chunkSize: nat, overlap: int, i: nat)
    requires ValidChunking(chunkSize, overlap) && i < |Windows(text, chunkSize, overlap)|
    ensures var w := Windows(text, chunkSize, overlap)[i];
      && w.startWord == i * Step(chunkSize, overlap) < |SplitWords(text)|
      && w.endWord == Min(w.startWord + EffectiveChunkSize(chunkSize), |SplitWords(text)|)
      && w.text == Join(SplitWords(text)[w.startWord..w.endWord], " ")
  {
    var words := SplitWords(text);
    var size := EffectiveChunkSize(chunkSize);
    var step := Step(chunkSize, overlap);
    assert Windows(text, chunkSize, overlap) == WindowsFrom(words, size, step, 0);
    WindowShape(words, size, step, 0, i);
  }

  /** Each chunk is non-empty text that splits back into its own words, at most chunk_size of them. */
  lemma ChunkWords(text: string, chunkSize: nat, overlap: int, i: nat)
    requires ValidChunking(chunkSize, overlap) && i < |Windows(text, chunkSize, overlap)|
    ensures var w := Windows(text, chunkSize, overlap)[i];
      && w.startWord < w.endWord <= |SplitWords(text)|
      && SplitWords(w.text) == SplitWords(text)[w.startWord..w.endWord]
      && 0 < |SplitWords(w.text)| <= EffectiveChunkSize(chunkSize)
      && Strip(w.text) != ""
  {
    var words := SplitWords(text);
    ChunkBounds(text, chunkSize, overlap, i);
    var w := Windows(text, chunkSize, overlap)[i];
    SplitWordsAreWords(text);
    SplitJoin(words[w.startWord..w.endWord]);
    WindowTextNotBlank(words, w.startWord, w.endWord);
  }

  lemma CountStep(words: seq<string>, size: nat, step: nat, start: nat)
    requires step > 0
    ensures |WindowsFrom(words, size, step, start)|
         == if start >= |words| then 0 else 1 + |WindowsFrom(words, size, step, start + step)|
  {
  }

  lemma MulSucc(m: int, step: int)
    ensures (m + 1) * step == m * step + step
  {
  }

  lemma {:induction false} CountFrom(words: seq<string>, size: nat, step: nat, start: nat)
    requires step > 0
    ensures var n := |WindowsFrom(words, size, step, start)|;
      if start >= |words| then n == 0 else n > 0 && (n - 1) * step < |words| - start <= n * step
    decreases |words| - start
  {
    CountStep(words, size, step, start);
    if start < |words| {
      CountFrom(words, size, step, start + step);
      var m := |WindowsFrom(words, size, step, start + step)|;
      MulSucc(m, step);
      MulSucc(m - 1, step);
    }
  }

  /**
   * W words give ceil(W / (chunk_size - overlap)) chunks, written without
   * division: the count n is the least one with n * step >= W. No words, no chunks.
   */
  lemma ChunkCount(text: string, chunkSize: nat, overlap: int)
    requires ValidChunking(chunkSize, overlap)
    ensures var n, step, w := |Windows(text, chunkSize, overlap)|, Step(chunkSize, overlap), |SplitWords(text)|;
      && (w == 0 ==> n == 0)
      && (w > 0 ==> (n - 1) * step < w <= n * step)
  {
    var words := SplitWords(text);
    var size := EffectiveChunkSize(chunkSize);
    var step := Step(chunkSize, overlap);
    CountFrom(words, size, step, 0);
    assert Windows(text, chunkSize, overlap) == WindowsFrom(words, size, step, 0);
  }

  /** With a non-negative overlap the last chunk reaches the last word. */
  lemma LastChunkReachesEnd(text: string, chunkSize: nat, overlap: int)
    requires ValidChunking(chunkSize, overlap) && EffectiveOverlap(overlap) >= 0
    requires SplitWords(text) != []
    ensures var ws := Windows(text, chunkSize, overlap);
      |ws| > 0 && ws[|ws| - 1].endWord == |SplitWords(text)|
  {
    var step := Step(chunkSize, overlap);
    ChunkCount(text, chunkSize, overlap);
    var n := |Windows(text, chunkSize, overlap)|;
    assert n > 0;
    ChunkBounds(text, chunkSize, overlap, n - 1);
    assert (n - 1) * step + step == n * step;
  }

  /** chunk_text(text, 200, 0) means overlap 50, so windows start every 150 words. */
  lemma ZeroOverlapMeansDefault(text: string)
    ensures ValidChunking(200, 0) && Step(200, 0) == 150
    ensures |SplitWords(text)| == 301 ==> |Windows(text, 200, 0)| == 3
  {
    ChunkCount(text, 200, 0);
  }

  /**
   * Windows restart every step words until `start` passes the last word, so a
   * short tail already covered by the previous window is still emitted:
   * 170 words in windows of 200 with overlap 40 give two chunks, not one.
   */
  lemma TailWindowRepeatsWords(text: string)
    requires |SplitWords(text)| == 170
    ensures var ws := Windows(text, 200, 40);
      |ws| == 2 && ws[1].startWord == 160 && ws[1].endWord == 170 && ws[0].endWord == 170
  {
    ChunkCount(text, 200, 40);
    ChunkBounds(text, 200, 40, 0);
    ChunkBounds(text, 200, 40, 1);
  }

  /** 900 words in windows of 200 with overlap 40 give six chunks. */
  lemma NineHundredWordsSixChunks(text: string)
    requires |SplitWords(text)| == 900
    ensures |Windows(text, 200, 40)| == 6
  {
    ChunkCount(text, 200, 40);
  }

  // ======================================================== detect_unit

  /** A character of the class [\s-]. */
  predicate IsSep(c: char) {
    IsSpace(c) || c == '-'
  }

  /** The end of the run of [\s-] characters starting at j. */
  function SepEnd(s: string, j: nat): (k: nat)
    requires j <= |s|
    ensures j <= k <= |s|
    ensures forall p :: j <= p < k ==> IsSep(s[p])
    ensures k < |s| ==> !IsSep(s[k])
    decreases |s| - j
  {
    if j < |s| && IsSep(s[j]) then SepEnd(s, j + 1) else j
  }

  /** The end of the run of digits starting at k. */
  function DigitEnd(s: string, k: nat): (e: nat)
    requires k <= |s|
    ensures k <= e <= |s|
    ensures forall p :: k <= p < e ==> IsDigit(s[p])
    ensures e < |s| ==> !IsDigit(s[e])
    decreases |s| - k
  {
    if k < |s| && IsDigit(s[k]) then DigitEnd(s, k + 1) else k
  }

  /**
   * The group matched by `kw[\s-]*(\d+)` at position i under re.IGNORECASE.
   * The separator class and the digits are disjoint, so the greedy run of
   * separators is the only candidate and the digit run is maximal.
   */
  function MatchAt(s: string, kw: string, i: nat): Option<string> {
    if i + |kw| <= |s| && Lower(s[i..i + |kw|]) == Lower(kw) then
      var k := SepEnd(s, i + |kw|);
      var e := DigitEnd(s, k);
      if k < e then Some(s[k..e]) else None
    else None
  }

  /** The first match of re.finditer from position i on. */
  function FindFrom(s: string, kw: string, i: nat): Option<string>
    decreases |s| + 1 - i
  {
    if i > |s| then None
    else if MatchAt(s, kw, i).Some? then MatchAt(s, kw, i)
    else FindFrom(s, kw, i + 1)
  }

  /** The default pattern list, tried in order. */
  const UNIT_PATTERNS: seq<string> := ["unit", "UNIT", "chapter", "CHAPTER"]

  function FirstPatternMatch(s: string, patterns: seq<string>): Option<string>
    decreases |patterns|
  {
    if patterns == [] then None
    else if FindFrom(s, patterns[0], 0).Some? then FindFrom(s, patterns[0], 0)
    else FirstPatternMatch(s, patterns[1..])
  }

  /** detect_unit(text) with the default patterns. */
  function DetectUnit(text: string): string {
    match FirstPatternMatch(Lower(text), UNIT_PATTERNS)
    case Some(d) => "Unit-" + d
    case None => "Unknown"
  }

  // -------------------------------------------------- regex reference

  /**
   * The pattern `kw[\s-]*(\d+)` matches s at i, ignoring case, with the group
   * d starting at k: keyword, separators up to k, then a maximal digit run.
   */
  ghost predicate PatternMatch(s: string, kw: string, i: nat, k: nat, d: string) {
    && i + |kw| <= k && k + |d| <= |s|
    && Lower(s[i..i + |kw|]) == Lower(kw)
    && (forall p :: i + |kw| <= p < k ==> IsSep(s[p]))
    && s[k..k + |d|] == d && |d| > 0 && AllDigits(d)
    && (k + |d| == |s| || !IsDigit(s[k + |d|]))
  }

  lemma {:induction false} SepEndAt(s: string, j: nat, k: nat)
    requires j <= k <= |s|
    requires forall p :: j <= p < k ==> IsSep(s[p])
    requires k < |s| ==> !IsSep(s[k])
    ensures SepEnd(s, j) == k
    decreases k - j
  {
    if j < k {
      SepEndAt(s, j + 1, k);
    }
  }

  lemma {:induction false} DigitEndAt(s: string, k: nat, e: nat)
    requires k <= e <= |s|
    requires forall p :: k <= p < e ==> IsDigit(s[p])
    requires e < |s| ==> !IsDigit(s[e])
    ensures DigitEnd(s, k) == e
    decreases e - k
  {
    if k < e {
      DigitEndAt(s, k + 1, e);
    }
  }

  lemma MatchIsPattern(s: string, kw: string, i: nat, d: string)
    requires MatchAt(s, kw, i) == Some(d)
    ensures PatternMatch(s, kw, i, SepEnd(s, i + |kw|), d)
  {
    var k := SepEnd(s, i + |kw|);
    var e := DigitEnd(s, k);
    assert d == s[k..e];
  }

  lemma PatternIsMatch(s: string, kw: string, i: nat, k: nat, d: string)
    requires PatternMatch(s, kw, i, k, d)
    ensures MatchAt(s, kw, i) == Some(d)
  {
    assert s[k] == d[0];
    SepEndAt(s, i + |kw|, k);
    forall p | k <= p < k + |d| ensures IsDigit(s[p]) {
      assert s[p] == d[p - k];
    }
    DigitEndAt(s, k, k + |d|);
  }

  /** MatchAt agrees with the regular expression, in both directions. */
  lemma MatchAtIffPattern(s: string, kw: string, i: nat, d: string)
    ensures MatchAt(s, kw, i) == Some(d) <==> exists k: nat :: PatternMatch(s, kw, i, k, d)
  {
    if MatchAt(s, kw, i) == Some(d) {
      MatchIsPattern(s, kw, i, d);
    }
    if k: nat :| PatternMatch(s, kw, i, k, d) {
      PatternIsMatch(s, kw, i, k, d);
    }
  }

  /** The leftmost match position of kw, with its group. */
  ghost predicate LeftmostMatch(s: string, kw: string, p: nat, d: string) {
    MatchAt(s, kw, p) == Some(d) && forall q: nat :: q < p ==> MatchAt(s, kw, q).None?
  }

  ghost predicate NoMatch(s: string, kw: string) {
    forall p: nat :: MatchAt(s, kw, p).None?
  }

  /** Without a hit from i on, no position from i on matches. */
  lemma {:induction false} FindFromNone(s: string, kw: string, i: nat)
    requires FindFrom(s, kw, i).None?
    ensures forall p: nat :: i <= p ==> MatchAt(s, kw, p).None?
    decreases |s| + 1 - i
  {
    if i <= |s| {
      assert MatchAt(s, kw, i).None?;
      assert FindFrom(s, kw, i) == FindFrom(s, kw, i + 1);
      FindFromNone(s, kw, i + 1);
    }
  }

  /** A hit from i on sits at the first matching position p. */
  lemma {:induction false} FindFromFirst(s: string, kw: string, i: nat) returns (p: nat)
    requires FindFrom(s, kw, i).Some?
    ensures i <= p <= |s| && MatchAt(s, kw, p) == FindFrom(s, kw, i)
    ensures forall q: nat :: i <= q < p ==> MatchAt(s, kw, q).None?
    decreases |s| + 1 - i
  {
    if MatchAt(s, kw, i).Some? {
      p := i;
    } else {
      assert FindFrom(s, kw, i) == FindFrom(s, kw, i + 1);
      p := FindFromFirst(s, kw, i + 1);
      forall q: nat | i <= q < p ensures MatchAt(s, kw, q).None? {
        if q == i {
          assert MatchAt(s, kw, i).None?;
        }
      }
    }
  }

  /** re.finditer(pattern).__next__ from the start finds the leftmost match. */
  lemma FindIsLeftmost(s: string, kw: string)
    ensures forall p: nat, d :: LeftmostMatch(s, kw, p, d) ==> FindFrom(s, kw, 0) == Some(d)
    ensures NoMatch(s, kw) <==> FindFrom(s, kw, 0).None?
  {
    if FindFrom(s, kw, 0).Some? {
      var first := FindFromFirst(s, kw, 0);
      forall p: nat, d | LeftmostMatch(s, kw, p, d) ensures FindFrom(s, kw, 0) == Some(d) {
        assert first == p;
      }
    } else {
      FindFromNone(s, kw, 0);
    }
  }

  /** Under re.IGNORECASE two keywords equal up to case find the same matches. */
  lemma {:induction false} FindFromIgnoresCase(s: string, kw1: string, kw2: string, i: nat)
    requires Lower(kw1) == Lower(kw2)
    ensures FindFrom(s, kw1, i) == FindFrom(s, kw2, i)
    decreases |s| + 1 - i
  {
    assert |kw1| == |Lower(kw1)| == |kw2|;
    assert MatchAt(s, kw1, i) == MatchAt(s, kw2, i);
    if i <= |s| {
      FindFromIgnoresCase(s, kw1, kw2, i + 1);
    }
  }

  lemma LowerKeywords()
    ensures Lower("UNIT") == "unit" && Lower("CHAPTER") == "chapter"
    ensures Lower("unit") == "unit" && Lower("chapter") == "chapter"
  {
  }

  /** The four default patterns come down to "unit" first, then "chapter". */
  lemma FirstPatterns(s: string)
    ensures FirstPatternMatch(s, UNIT_PATTERNS)
         == if FindFrom(s, "unit", 0).Some? then FindFrom(s, "unit", 0)
            else FindFrom(s, "chapter", 0)
  {
    LowerKeywords();
    FindFromIgnoresCase(s, "UNIT", "unit", 0);
    FindFromIgnoresCase(s, "CHAPTER", "chapter", 0);
    var ps := UNIT_PATTERNS;
    assert ps[0] == "unit" && ps[1..][0] == "UNIT" && ps[1..][1..][0] == "chapter";
    assert ps[1..][1..][1..][0] == "CHAPTER" && ps[1..][1..][1..][1..] == [];
  }

  /** A "unit" heading anywhere wins, even over an earlier "chapter" heading. */
  lemma DetectUnitPrefersUnit(text: string, p: nat, d: string)
    requires LeftmostMatch(Lower(text), "unit", p, d)
    ensures DetectUnit(text) == "Unit-" + d
  {
    FirstPatterns(Lower(text));
    FindIsLeftmost(Lower(text), "unit");
  }

  /** Without any "unit" heading, the leftmost "chapter" heading gives the label. */
  lemma DetectUnitFallsBackToChapter(text: string, p: nat, d: string)
    requires NoMatch(Lower(text), "unit") && LeftmostMatch(Lower(text), "chapter", p, d)
    ensures DetectUnit(text) == "Unit-" + d
  {
    FirstPatterns(Lower(text));
    FindIsLeftmost(Lower(text), "unit");
    FindIsLeftmost(Lower(text), "chapter");
  }

  /** The label is "Unknown" exactly when neither heading occurs; otherwise it carries a digit run. */
  lemma DetectUnitUnknownIff(text: string)
    ensures DetectUnit(text) == "Unknown" <==> NoMatch(Lower(text), "unit") && NoMatch(Lower(text), "chapter")
  {
    var s := Lower(text);
    FirstPatterns(s);
    FindIsLeftmost(s, "unit");
    FindIsLeftmost(s, "chapter");
    var m := FirstPatternMatch(s, UNIT_PATTERNS);
    if m.Some? {
      assert ("Unit-" + m.value)[2] == 'i';
    }
  }

  /** A match's group is a non-empty run of digits. */
  lemma MatchIsDigits(s: string, kw: string, i: nat)
    ensures MatchAt(s, kw, i).Some? ==> |MatchAt(s, kw, i).value| > 0 && AllDigits(MatchAt(s, kw, i).value)
  {
    if MatchAt(s, kw, i).Some? {
      var k := SepEnd(s, i + |kw|);
      var e := DigitEnd(s, k);
      assert MatchAt(s, kw, i).value == s[k..e];
      assert forall p :: 0 <= p < e - k ==> s[k..e][p] == s[k + p];
    }
  }

  /** A label other than "Unknown" is "Unit-" followed by the digits found. */
  lemma DetectUnitDigits(text: string)
    ensures DetectUnit(text) != "Unknown" ==>
      exists d :: DetectUnit(text) == "Unit-" + d && |d| > 0 && AllDigits(d)
  {
    var s := Lower(text);
    FirstPatterns(s);
    var kw := if FindFrom(s, "unit", 0).Some? then "unit" else "chapter";
    if FindFrom(s, kw, 0).Some? {
      var p := FindFromFirst(s, kw, 0);
      MatchIsDigits(s, kw, p);
    }
  }

  // ======================================================== ingest_syllabus

  datatype IngestError = UnsupportedFileType | FileNotFound

  /**
   * What the loaders return for each existing file: load_pdf's list of page
   * texts and load_txt's file content. A path absent here does not exist.
   */
  datatype Documents = Documents(pdfPages: map<string, seq<string>>, texts: map<string, string>)

  predicate EndsWith(s: string, suffix: string) {
    |suffix| <= |s| && s[|s| - |suffix|..] == suffix
  }

  /** The file type: the given one, else "pdf"/"txt" by case-insensitive suffix. */
  function FileType(filePath: string, fileType: Option<string>): (r: Result<string, IngestError>)
    ensures fileType.Some? ==> r == Success(fileType.value)
    ensures fileType.None? ==>
      (r == Success("pdf") <==> EndsWith(Lower(filePath), ".pdf"))
      && (r == Success("txt") <==> !EndsWith(Lower(filePath), ".pdf") && EndsWith(Lower(filePath), ".txt"))
      && (r == Failure(UnsupportedFileType) <==> !EndsWith(Lower(filePath), ".pdf") && !EndsWith(Lower(filePath), ".txt"))
  {
    if fileType.Some? then Success(fileType.value)
    else if EndsWith(Lower(filePath), ".pdf") then Success("pdf")
    else if EndsWith(Lower(filePath), ".txt") then Success("txt")
    else Failure(UnsupportedFileType)
  }

  /** The full text: pages joined by blank lines for "pdf", the file content for any other type. */
  function FullText(docs: Documents, filePath: string, fileType: Option<string>): Result<string, IngestError> {
    match FileType(filePath, fileType)
    case Failure(e) => Failure(e)
    case Success(t) =>
      if t == "pdf" then
        if filePath in docs.pdfPages then Success(Join(docs.pdfPages[filePath], "\n\n")) else Failure(FileNotFound)
      else
        if filePath in docs.texts then Success(docs.texts[filePath]) else Failure(FileNotFound)
  }

  /** The record built for the i-th window. */
  function ChunkRecord(w: Window, i: nat): Chunk {
    Chunk(w.text, i, Some(DetectUnit(w.text)), 1, Some("Apply"))
  }

  method IngestSyllabus(docs: Documents, filePath: string, fileType: Option<string>)
    returns (r: Result<seq<Chunk>, IngestError>)
    ensures FullText(docs, filePath, fileType).Failure? ==> r == Failure(FullText(docs, filePath, fileType).error)
    ensures FullText(docs, filePath, fileType).Success? ==>
      var ws := Windows(FullText(docs, filePath, fileType).value, 0, 0);
      && r.Success? && |r.value| == |ws|
      && forall i :: 0 <= i < |ws| ==>
           r.value[i] == Chunk(ws[i].text, i, Some(DetectUnit(ws[i].text)), 1, Some("Apply"))
  {
    var full := FullText(docs, filePath, fileType);
    if full.Failure? {
      return Failure(full.error);
    }
    var pageChunks := ChunkText(full.value, 0, 0);
    var allChunks: seq<Chunk> := [];
    var i := 0;
    while i < |pageChunks|
      invariant 0 <= i <= |pageChunks|
      invariant |allChunks| == i
      invariant forall j :: 0 <= j < i ==> allChunks[j] == ChunkRecord(pageChunks[j], j)
    {
      var unit := DetectUnit(pageChunks[i].text);
      allChunks := allChunks + [Chunk(pageChunks[i].text, i, Some(unit), 1, Some("Apply"))];
      i := i + 1;
    }
    r := Success(allChunks);
  }
}

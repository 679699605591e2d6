/**
 * The rule-based half of the compliance agent (agents/compliance_agent.py):
 * the Bloom verb check, the duplicate-question check, the deterministic
 * branches of the syllabus check and the reading of the model's YES/NO
 * reply, the aggregation of checks into a verdict, and batch validation.
 * The agent's collaborators are parameters: the retriever as whether it is
 * ready and what its retrieve returns, the chat model as a function from the
 * context and content it is shown to its reply, None when the call raises.
 */
module Compliance {
  import opened Wrappers
  import opened Text
  import opened Helpers
  import opened VectorStore
  import opened Retriever
  import Settings

  datatype Status = PASS | FAIL | UNKNOWN

  /** One check's record: its name, its status and its issue (None for a falsy issue). */
  datatype Check = Check(name: string, status: Status, issue: Option<string>)

  /**
   * A content dict: its "type" (None when absent), the questions and the
   * per-week topic lists of its "content", and str(content) for the other types.
   */
  datatype Content = Content(kind: Option<string>, questions: seq<Question>, weekTopics: seq<seq<string>>, dataText: string)

  /** What validate returns: the overall status, every check, the issues of the failed ones, the type. */
  datatype Validation = Validation(status: Status, validations: seq<Check>, issues: seq<string>, contentType: string)

  /** The chat model: (syllabus context, content text) to a reply; None when the call raises. */
  type Llm = (string, string) -> Option<string>

  /**
   * The agent's retriever and chat model: is_ready(), retrieve(query, top_k)
   * with no filters (an error for a store whose index does not match the
   * embedder), and the model.
   */
  datatype Agent = Agent(ready: bool, retrieve: (string, nat) -> Result<seq<SearchHit>, StoreError>, llm: Llm)

  const TOO_SHORT: string := "Content text too short for validation"

  // ---------------------------------------------------------------- content text

  function ContentType(c: Content): string {
    c.kind.GetOr("unknown")
  }

  predicate IsQuestionsType(kind: string) {
    kind == "assignments" || kind == "questions"
  }

  /** `q.get("question", "")`. */
  function QuestionText(q: Question): string {
    q.text.GetOr("")
  }

  function QuestionTexts(qs: seq<Question>): seq<string> {
    seq(|qs|, i requires 0 <= i < |qs| => QuestionText(qs[i]))
  }

  function WeekLines(weeks: seq<seq<string>>): seq<string> {
    seq(|weeks|, i requires 0 <= i < |weeks| => Join(weeks[i], ", "))
  }

  /** The text validated: the first 5 questions, the topics of the first 5 weeks, or str(content). */
  function ContentText(c: Content): string {
    var kind := ContentType(c);
    if IsQuestionsType(kind) then Join(QuestionTexts(Take(c.questions, 5)), "\n")
    else if kind == "teaching_plan" then Join(WeekLines(Take(c.weekTopics, 5)), "\n")
    else c.dataText
  }

  // ---------------------------------------------------------------- Bloom verbs

  /** `any(verb.lower() in text for verb in verbs)`, for an already lower-cased text. */
  function AnyVerbIn(verbs: seq<string>, lowered: string): (b: bool)
    ensures b <==> exists v :: v in verbs && Contains(lowered, Lower(v))
    decreases |verbs|
  {
    if verbs == [] then false
    else Contains(lowered, Lower(verbs[0])) || AnyVerbIn(verbs[1..], lowered)
  }

  /**
   * _check_bloom_compliance: UNKNOWN for a level without verbs; PASS exactly
   * when some allowed verb occurs in the text, case aside; FAIL otherwise.
   */
  function CheckBloomCompliance(contentText: string, expectedBloom: string): (c: Check)
    ensures c.name == "bloom_compliance"
    ensures c.status == UNKNOWN <==> Settings.AllowedVerbs(expectedBloom) == []
    ensures c.status == PASS <==>
      exists v :: v in Settings.AllowedVerbs(expectedBloom) && Contains(Lower(contentText), Lower(v))
    ensures c.issue == None <==> c.status == PASS
  {
    var verbs := Settings.AllowedVerbs(expectedBloom);
    if verbs == [] then
      Check("bloom_compliance", UNKNOWN, Some("Unknown Bloom level: " + expectedBloom))
    else if !AnyVerbIn(verbs, Lower(contentText)) then
      Check("bloom_compliance", FAIL, Some("Content does not use appropriate verbs for " + expectedBloom
                                           + " level. Expected verbs: " + Join(Take(verbs, 5), ", ")))
    else
      Check("bloom_compliance", PASS, None)
  }

  /** The verbs are looked up by exact level name: "apply" is not a level, and "use" occurs in "because". */
  lemma BloomCheckExamples()
    ensures CheckBloomCompliance("Explain why", "apply").status == UNKNOWN
    ensures CheckBloomCompliance("because", "Apply").status == PASS
  {
    assert Lower("because") == "because";
    assert Lower("use") == "use";
    assert OccursAt("because", "use", 4);
  }

  /** Exactly the six Bloom levels have verbs. */
  lemma VerbsExactlyForLevels(level: string)
    ensures Settings.AllowedVerbs(level) != [] <==> level in Settings.BLOOM_LEVELS
  {
  }

  // ---------------------------------------------------------------- duplicates

  function SetOf(s: seq<string>): set<string> {
    set x | x in s
  }

  predicate HasDuplicate(s: seq<string>) {
    exists i, j :: 0 <= i < j < |s| && s[i] == s[j]
  }

  lemma SetOfSnoc(init: seq<string>, x: string)
    ensures SetOf(init + [x]) == SetOf(init) + {x}
  {
    var s := init + [x];
    forall y | y in SetOf(s) ensures y in SetOf(init) + {x} {
      var k :| 0 <= k < |s| && s[k] == y;
      if k < |init| {
        assert init[k] == y;
      }
    }
    forall y | y in SetOf(init) ensures y in SetOf(s) {
      var k :| 0 <= k < |init| && init[k] == y;
      assert s[k] == y;
    }
    assert s[|init|] == x;
  }

  lemma DuplicateSnoc(init: seq<string>, x: string)
    ensures HasDuplicate(init + [x]) <==> HasDuplicate(init) || x in init
  {
    var s := init + [x];
    if HasDuplicate(s) {
      var i, j :| 0 <= i < j < |s| && s[i] == s[j];
      if j < |init| {
        assert init[i] == init[j];
      } else {
        assert init[i] == x;
      }
    }
    if HasDuplicate(init) {
      var i, j :| 0 <= i < j < |init| && init[i] == init[j];
      assert s[i] == s[j];
    }
    if x in init {
      var m :| 0 <= m < |init| && init[m] == x;
      assert s[m] == s[|init|];
    }
  }

  /** A list and its set have the same size exactly when no element repeats. */
  lemma {:induction false} SetSizeIffNoDuplicate(s: seq<string>)
    ensures |SetOf(s)| <= |s|
    ensures |SetOf(s)| == |s| <==> !HasDuplicate(s)
    decreases |s|
  {
    if s != [] {
      var init := s[..|s| - 1];
      var x := s[|s| - 1];
      SetSizeIffNoDuplicate(init);
      assert s == init + [x];
      SetOfSnoc(init, x);
      DuplicateSnoc(init, x);
      if x in init {
        assert x in SetOf(init);
        assert SetOf(s) == SetOf(init);
      } else {
        assert x !in SetOf(init);
        assert |SetOf(s)| == |SetOf(init)| + 1;
      }
    }
  }

  /** _check_exam_pattern_compliance: PASS or FAIL. */
  function CheckExamPatternCompliance(qs: seq<Question>): (c: Check)
    ensures c.name == "exam_pattern" && c.status != UNKNOWN
    ensures c.issue == None <==> c.status == PASS
  {
    if qs == [] then Check("exam_pattern", PASS, None)
    else
      var texts := QuestionTexts(qs);
      if |texts| != |SetOf(texts)| then Check("exam_pattern", FAIL, Some("Duplicate questions detected"))
      else Check("exam_pattern", PASS, None)
  }

  /** The pattern check fails exactly when two questions have the same text. */
  lemma ExamPatternFailsIffDuplicate(qs: seq<Question>)
    ensures CheckExamPatternCompliance(qs).status == FAIL <==> HasDuplicate(QuestionTexts(qs))
  {
    SetSizeIffNoDuplicate(QuestionTexts(qs));
  }

  // ---------------------------------------------------------------- the model's reply

  /** The part of s after the last separator found scanning left to right from i; start is where the current piece began. */
  function LastPieceFrom(s: string, sep: string, i: nat, start: nat): string
    requires sep != [] && start <= i <= |s|
    decreases |s| - i
  {
    if OccursAt(s, sep, i) then LastPieceFrom(s, sep, i + |sep|, i + |sep|)
    else if i < |s| then LastPieceFrom(s, sep, i + 1, start)
    else s[start..]
  }

  /** `s.split(sep)[-1]`. */
  function LastPiece(s: string, sep: string): string
    requires sep != []
  {
    LastPieceFrom(s, sep, 0, 0)
  }

  lemma {:induction false} LastPieceFromSuffix(s: string, sep: string, i: nat, start: nat)
    requires sep != [] && start <= i <= |s|
    ensures var r := LastPieceFrom(s, sep, i, start);
      |r| <= |s| - start && r == s[|s| - |r|..]
    decreases |s| - i
  {
    if OccursAt(s, sep, i) {
      assert LastPieceFrom(s, sep, i, start) == LastPieceFrom(s, sep, i + |sep|, i + |sep|);
      LastPieceFromSuffix(s, sep, i + |sep|, i + |sep|);
    } else if i < |s| {
      assert LastPieceFrom(s, sep, i, start) == LastPieceFrom(s, sep, i + 1, start);
      LastPieceFromSuffix(s, sep, i + 1, start);
    } else {
      assert LastPieceFrom(s, sep, i, start) == s[start..];
    }
  }

  lemma {:induction false} LastPieceFromNoSep(s: string, sep: string, i: nat, start: nat)
    requires sep != [] && start <= i <= |s|
    requires forall p :: start <= p < i ==> !OccursAt(s, sep, p)
    ensures !Contains(LastPieceFrom(s, sep, i, start), sep)
    decreases |s| - i
  {
    if OccursAt(s, sep, i) {
      assert LastPieceFrom(s, sep, i, start) == LastPieceFrom(s, sep, i + |sep|, i + |sep|);
      LastPieceFromNoSep(s, sep, i + |sep|, i + |sep|);
    } else if i < |s| {
      assert LastPieceFrom(s, sep, i, start) == LastPieceFrom(s, sep, i + 1, start);
      LastPieceFromNoSep(s, sep, i + 1, start);
    } else {
      var r := s[start..];
      assert LastPieceFrom(s, sep, i, start) == r;
      if Contains(r, sep) {
        var q: nat :| q <= |r| && OccursAt(r, sep, q);
        forall k | 0 <= k < |sep| ensures s[start + q + k] == sep[k] {
          assert r[q..q + |sep|][k] == sep[k];
          assert r[q + k] == s[start + q + k];
        }
        assert s[start + q..start + q + |sep|] == sep;
        assert OccursAt(s, sep, start + q);
      }
    }
  }

  lemma {:induction false} LastPieceFromWhole(s: string, sep: string, i: nat, start: nat)
    requires sep != [] && start <= i <= |s|
    requires forall p :: i <= p <= |s| ==> !OccursAt(s, sep, p)
    ensures LastPieceFrom(s, sep, i, start) == s[start..]
    decreases |s| - i
  {
    if i < |s| {
      assert !OccursAt(s, sep, i);
      LastPieceFromWhole(s, sep, i + 1, start);
    }
  }

  /**
   * The scan behind split(sep)[-1] returns a suffix free of the separator,
   * and the rest of the text from `start` when no separator follows.
   */
  lemma LastPieceFromProperties(s: string, sep: string, i: nat, start: nat)
    requires sep != [] && start <= i <= |s|
    requires forall p :: start <= p < i ==> !OccursAt(s, sep, p)
    ensures var r := LastPieceFrom(s, sep, i, start);
      && |r| <= |s| - start && r == s[|s| - |r|..]
      && !Contains(r, sep)
    ensures (forall p :: i <= p <= |s| ==> !OccursAt(s, sep, p)) ==> LastPieceFrom(s, sep, i, start) == s[start..]
  {
    LastPieceFromSuffix(s, sep, i, start);
    LastPieceFromNoSep(s, sep, i, start);
    if forall p :: i <= p <= |s| ==> !OccursAt(s, sep, p) {
      LastPieceFromWhole(s, sep, i, start);
    }
  }

  /** The last piece is a suffix without the separator; with no separator at all, it is the whole string. */
  lemma LastPieceProperties(s: string, sep: string)
    requires sep != []
    ensures var r := LastPiece(s, sep);
      && |r| <= |s| && r == s[|s| - |r|..]
      && !Contains(r, sep)
      && (!Contains(s, sep) ==> r == s)
  {
    LastPieceFromProperties(s, sep, 0, 0);
  }

  /** `response.strip().upper()`. */
  function Answer(response: string): string {
    Upper(Strip(response))
  }

  /** The lenient reading: a YES or COMPLIANT anywhere, or a short answer without NO. */
  predicate Compliant(answer: string) {
    Contains(answer, "YES") || Contains(answer, "COMPLIANT") || (!Contains(answer, "NO") && |answer| < 20)
  }

  /** The issue quoted from a non-compliant reply that says NO: what follows its last "NO", stripped, cut to 200. */
  function ReplyIssue(response: string): string {
    var answer := Answer(response);
    if !Compliant(answer) && Contains(answer, "NO") then Take(Strip(LastPiece(response, "NO")), 200) else ""
  }

  /** The syllabus check's record for a reply. */
  function ReplyCheck(response: string): (c: Check)
    ensures c.name == "syllabus_compliance" && c.status != UNKNOWN
    ensures c.status == PASS ==> c.issue == None
  {
    var issue := ReplyIssue(response);
    Check("syllabus_compliance", if Compliant(Answer(response)) then PASS else FAIL,
          if issue != "" then Some(issue) else None)
  }

  lemma ContainsInSlice(s: string, a: nat, b: nat, sub: string)
    requires a <= b <= |s| && Contains(s[a..b], sub)
    ensures Contains(s, sub)
  {
    var q: nat :| q <= b - a && OccursAt(s[a..b], sub, q);
    assert q + |sub| <= b - a;
    forall k | 0 <= k < |sub| ensures s[a + q + k] == sub[k] {
      assert s[a..b][q..q + |sub|][k] == sub[k];
    }
    assert s[a + q..a + q + |sub|] == sub;
    assert OccursAt(s, sub, a + q);
  }

  lemma SliceOccurs(s: string, a: nat, b: nat)
    requires a <= b <= |s|
    ensures Contains(s, s[a..b])
  {
    assert OccursAt(s, s[a..b], a);
  }

  /** Stripping and cutting to 200 characters leaves a slice of at most 200 characters. */
  lemma TakeStripIsSlice(piece: string) returns (a: nat, e: nat)
    ensures a <= e <= |piece| && e - a <= 200
    ensures Take(Strip(piece), 200) == piece[a..e]
  {
    a := SpaceRun(piece, 0);
    var b := TrailStart(piece, a, |piece|);
    e := if 200 <= b - a then a + 200 else b;
  }

  /** A slice of a suffix of s occurs in s. */
  lemma SuffixSliceOccurs(s: string, piece: string, a: nat, e: nat)
    requires |piece| <= |s| && piece == s[|s| - |piece|..]
    requires a <= e <= |piece|
    ensures Contains(s, piece[a..e])
  {
    var off := |s| - |piece|;
    assert s == s[..off] + piece;
    SliceShift(s[..off], piece, a, e);
    SliceOccurs(s, off + a, off + e);
  }

  /** What follows the reply's last "NO", stripped and cut to 200: short, NO-free and taken from the reply. */
  lemma QuotedPieceShape(response: string)
    ensures var z := Take(Strip(LastPiece(response, "NO")), 200);
      |z| <= 200 && !Contains(z, "NO") && Contains(response, z)
  {
    var piece := LastPiece(response, "NO");
    LastPieceProperties(response, "NO");
    var a, e := TakeStripIsSlice(piece);
    if Contains(piece[a..e], "NO") {
      ContainsInSlice(piece, a, e, "NO");
    }
    SuffixSliceOccurs(response, piece, a, e);
  }

  /**
   * An issue is reported only with FAIL; it comes verbatim from the reply,
   * holds at most 200 characters and contains no "NO" (it is taken after the last one).
   */
  lemma ReplyIssueShape(response: string)
    ensures var c := ReplyCheck(response);
      c.issue.Some? ==>
        && c.status == FAIL
        && |c.issue.value| <= 200
        && !Contains(c.issue.value, "NO")
        && Contains(response, c.issue.value)
  {
    QuotedPieceShape(response);
  }

  /**
   * When the reply has no upper-case "NO" but its upper-cased answer does (a
   * lower-case "no"), split finds nothing and the whole stripped reply is the issue.
   */
  lemma LowerCaseNoQuotesWholeReply(response: string)
    requires !Contains(response, "NO") && !Compliant(Answer(response)) && Contains(Answer(response), "NO")
    ensures ReplyIssue(response) == Take(Strip(response), 200)
  {
    LastPieceProperties(response, "NO");
  }

  lemma PlainAnswer(s: string)
    requires s != [] && !IsSpace(s[0]) && !IsSpace(s[|s| - 1])
    requires forall i :: 0 <= i < |s| ==> UpperChar(s[i]) == s[i]
    ensures Answer(s) == s
  {
    assert SpaceRun(s, 0) == 0;
    assert TrailStart(s, 0, |s|) == |s|;
    assert s[0..|s|] == s;
  }

  /** "NOT COMPLIANT" reads as compliant; a bare "NO" fails with no issue; "YES" passes. */
  lemma ReplyExamples()
    ensures ReplyCheck("NOT COMPLIANT").status == PASS
    ensures ReplyCheck("NO") == Check("syllabus_compliance", FAIL, None)
    ensures ReplyCheck("YES") == Check("syllabus_compliance", PASS, None)
  {
    PlainAnswer("NOT COMPLIANT");
    assert OccursAt("NOT COMPLIANT", "COMPLIANT", 4);
    PlainAnswer("NO");
    assert OccursAt("NO", "NO", 0);
    assert !Contains("NO", "YES") && !Contains("NO", "COMPLIANT");
    LastPieceProperties("NO", "NO");
    assert LastPiece("NO", "NO") == "";
    assert Strip("") == "";
    PlainAnswer("YES");
    assert OccursAt("YES", "YES", 0);
  }

  // ---------------------------------------------------------------- syllabus check

  /**
   * The context the syllabus check falls back to when none is given: the
   * texts the retriever finds for the first 100 characters of the content
   * (top 5), separated by blank lines; empty when the retriever is not ready.
   */
  function FallbackContext(agent: Agent, contentText: string): Result<string, StoreError> {
    if !agent.ready then Success("")
    else
      var found := agent.retrieve(Take(contentText, 100), 5);
      if found.Failure? then Failure(found.error) else Success(Join(HitTexts(found.value), "\n\n"))
  }

  /**
   * Two retrieved chunks with empty text still give the truthy context
   * "\n\n", so the check goes on to ask the model.
   */
  lemma BlankChunksGiveTruthyContext(agent: Agent, contentText: string, h: SearchHit)
    requires agent.ready && h.chunk.text == ""
    requires agent.retrieve(Take(contentText, 100), 5) == Success([h, h])
    ensures FallbackContext(agent, contentText) == Success("\n\n")
  {
    var found := agent.retrieve(Take(contentText, 100), 5);
    assert found.Success? && found.value == [h, h];
    assert FallbackContext(agent, contentText) == Success(Join(HitTexts([h, h]), "\n\n"));
    var texts := HitTexts([h, h]);
    assert texts == ["", ""];
    assert texts[1..] == [""];
    assert Join(texts, "\n\n") == "" + "\n\n" + "";
    assert "" + "\n\n" + "" == "\n\n";
  }

  /** _check_syllabus_compliance. A failing retrieval is not caught and ends the check. */
  function SyllabusCheck(agent: Agent, contentText: string, syllabusContext: string): Result<Check, StoreError> {
    if contentText == "" || |Strip(contentText)| < 10 then
      Success(Check("syllabus_compliance", UNKNOWN, Some(TOO_SHORT)))
    else
      var context := if syllabusContext == "" then FallbackContext(agent, contentText) else Success(syllabusContext);
      if context.Failure? then Failure(context.error)
      else if context.value == "" then Success(Check("syllabus_compliance", PASS, None))
      else
        var reply := agent.llm(Take(context.value, 2000), Take(contentText, 1000));
        if reply.None? then Success(Check("syllabus_compliance", PASS, None))
        else Success(ReplyCheck(reply.value))
  }

  /**
   * The deterministic outcomes: UNKNOWN for text that strips to fewer than
   * 10 characters; PASS when there is no context to compare with or the model
   * call raises; otherwise the reading of the reply.
   */
  lemma SyllabusCheckOutcomes(agent: Agent, contentText: string, syllabusContext: string)
    ensures var r := SyllabusCheck(agent, contentText, syllabusContext);
      && (|Strip(contentText)| < 10 ==> r == Success(Check("syllabus_compliance", UNKNOWN, Some(TOO_SHORT))))
      && (|Strip(contentText)| >= 10 && syllabusContext == "" && !agent.ready ==>
            r == Success(Check("syllabus_compliance", PASS, None)))
      && (|Strip(contentText)| >= 10 && syllabusContext != "" ==>
            r == (if agent.llm(Take(syllabusContext, 2000), Take(contentText, 1000)).None?
                  then Success(Check("syllabus_compliance", PASS, None))
                  else Success(ReplyCheck(agent.llm(Take(syllabusContext, 2000), Take(contentText, 1000)).value))))
      && (|Strip(contentText)| >= 10 && syllabusContext == "" && agent.ready ==>
            var fb := FallbackContext(agent, contentText);
            && (fb.Failure? ==> r == Failure(fb.error))
            && (fb == Success("") ==> r == Success(Check("syllabus_compliance", PASS, None)))
            && (fb.Success? && fb.value != "" ==>
                  r == (if agent.llm(Take(fb.value, 2000), Take(contentText, 1000)).None?
                        then Success(Check("syllabus_compliance", PASS, None))
                        else Success(ReplyCheck(agent.llm(Take(fb.value, 2000), Take(contentText, 1000)).value)))))
      && (r.Success? && r.value.status == UNKNOWN ==> |Strip(contentText)| < 10)
  {
    if contentText == "" {
      assert Strip(contentText) == "";
    }
  }

  // ---------------------------------------------------------------- Bloom tally

  /** `q.get("bloom_level", "Apply")`. */
  function QuestionLevel(q: Question): string {
    q.bloomLevel.GetOr("Apply")
  }

  predicate BloomPasses(q: Question) {
    CheckBloomCompliance(QuestionText(q), QuestionLevel(q)).status == PASS
  }

  /** How many of the questions pass their own Bloom check. */
  function PassCount(qs: seq<Question>): (n: nat)
    ensures n <= |qs|
    decreases |qs|
  {
    if qs == [] then 0 else PassCount(qs[..|qs| - 1]) + (if BloomPasses(qs[|qs| - 1]) then 1 else 0)
  }

  /** How many elements satisfy p. */
  function CountWhere<T>(s: seq<T>, p: T -> bool): nat
    decreases |s|
  {
    if s == [] then 0 else CountWhere(s[..|s| - 1], p) + (if p(s[|s| - 1]) then 1 else 0)
  }

  lemma {:induction false} CountWhereIff<T>(s: seq<T>, p: T -> bool)
    ensures CountWhere(s, p) <= |s|
    ensures CountWhere(s, p) == 0 <==> forall x :: x in s ==> !p(x)
    ensures CountWhere(s, p) == |s| <==> forall x :: x in s ==> p(x)
    decreases |s|
  {
    if s != [] {
      var init := s[..|s| - 1];
      CountWhereIff(init, p);
      assert s == init + [s[|s| - 1]];
    }
  }

  lemma {:induction false} PassCountIsCountWhere(qs: seq<Question>)
    ensures PassCount(qs) == CountWhere(qs, BloomPasses)
    decreases |qs|
  {
    if qs != [] {
      PassCountIsCountWhere(qs[..|qs| - 1]);
    }
  }

  /** None of the questions pass exactly when the count is 0, and all of them exactly when it is their number. */
  lemma PassCountIff(qs: seq<Question>)
    ensures PassCount(qs) == 0 <==> forall q :: q in qs ==> !BloomPasses(q)
    ensures PassCount(qs) == |qs| <==> forall q :: q in qs ==> BloomPasses(q)
  {
    PassCountIsCountWhere(qs);
    CountWhereIff(qs, BloomPasses);
  }

  /** The tally over the first three questions: PASS when at least half of them pass. */
  function BloomTally(qs: seq<Question>): Check {
    var checked := Take(qs, 3);
    if 2 * PassCount(checked) >= |checked| then Check("bloom_compliance", PASS, None)
    else Check("bloom_compliance", FAIL, Some("Some questions do not match their Bloom levels"))
  }

  /**
   * Only the first three questions are looked at; with three or more, the
   * tally passes exactly when at least two of the first three pass.
   */
  lemma BloomTallyRule(qs: seq<Question>)
    ensures |qs| >= 3 ==> BloomTally(qs) == BloomTally(qs[..3])
    ensures |qs| >= 3 ==> (BloomTally(qs).status == PASS <==> PassCount(qs[..3]) >= 2)
    ensures 0 < |qs| < 3 ==> (BloomTally(qs).status == PASS <==> 2 * PassCount(qs) >= |qs|)
  {
    if |qs| >= 3 {
      assert qs[..3][..3] == qs[..3];
    }
  }

  // ---------------------------------------------------------------- aggregation

  function CountStatus(vs: seq<Check>, st: Status): (n: nat)
    ensures n <= |vs|
    decreases |vs|
  {
    if vs == [] then 0 else CountStatus(vs[..|vs| - 1], st) + (if vs[|vs| - 1].status == st then 1 else 0)
  }

  predicate HasIssue(v: Check) {
    v.status == FAIL && v.issue.Some? && v.issue.value != ""
  }

  /** `[v["issue"] for v in failed_checks if v.get("issue")]`. */
  function Issues(vs: seq<Check>): seq<string>
    decreases |vs|
  {
    if vs == [] then [] else Issues(vs[..|vs| - 1]) + (if HasIssue(vs[|vs| - 1]) then [vs[|vs| - 1].issue.value] else [])
  }

  /** The verdict: PASS with no failures, or with some pass and at most one failure. */
  function Aggregate(vs: seq<Check>, contentType: string): Validation {
    var passed := CountStatus(vs, PASS);
    var failed := CountStatus(vs, FAIL);
    Validation(if failed == 0 || (passed > 0 && failed <= 1) then PASS else FAIL, vs, Issues(vs), contentType)
  }

  lemma {:induction false} CountStatusZeroIff(vs: seq<Check>, st: Status)
    ensures CountStatus(vs, st) == 0 <==> forall v :: v in vs ==> v.status != st
    decreases |vs|
  {
    if vs != [] {
      CountStatusZeroIff(vs[..|vs| - 1], st);
      assert vs == vs[..|vs| - 1] + [vs[|vs| - 1]];
    }
  }

  lemma {:induction false} CountStatusAllIff(vs: seq<Check>, st: Status)
    ensures CountStatus(vs, st) == |vs| <==> forall v :: v in vs ==> v.status == st
    decreases |vs|
  {
    if vs != [] {
      CountStatusAllIff(vs[..|vs| - 1], st);
      assert vs == vs[..|vs| - 1] + [vs[|vs| - 1]];
    }
  }

  /** The overall status, stated on the checks themselves; UNKNOWN checks count on neither side. */
  lemma AggregateRule(vs: seq<Check>, contentType: string)
    ensures Aggregate(vs, contentType).status == PASS <==>
      (forall v :: v in vs ==> v.status != FAIL)
      || ((exists v :: v in vs && v.status == PASS) && CountStatus(vs, FAIL) <= 1)
    ensures Aggregate(vs, contentType).status != UNKNOWN
  {
    CountStatusZeroIff(vs, FAIL);
    CountStatusZeroIff(vs, PASS);
  }

  /** Adding an UNKNOWN check changes neither the verdict nor the issues. */
  lemma UnknownIsNeutral(vs: seq<Check>, name: string, issue: Option<string>, contentType: string)
    ensures var u := Check(name, UNKNOWN, issue);
      && Aggregate(vs + [u], contentType).status == Aggregate(vs, contentType).status
      && Aggregate(vs + [u], contentType).issues == Aggregate(vs, contentType).issues
  {
    var u := Check(name, UNKNOWN, issue);
    assert (vs + [u])[..|vs|] == vs;
  }

  /** The issues are the non-empty issues of the failed checks, one each, in order. */
  lemma {:induction false} IssuesOfFailures(vs: seq<Check>)
    ensures |Issues(vs)| <= CountStatus(vs, FAIL)
    ensures forall x :: x in Issues(vs) ==> x != "" && exists v :: v in vs && v.status == FAIL && v.issue == Some(x)
    ensures forall v :: v in vs && HasIssue(v) ==> v.issue.value in Issues(vs)
    decreases |vs|
  {
    if vs != [] {
      var init := vs[..|vs| - 1];
      var last := vs[|vs| - 1];
      IssuesOfFailures(init);
      assert vs == init + [last];
      forall x | x in Issues(vs)
        ensures x != "" && exists v :: v in vs && v.status == FAIL && v.issue == Some(x)
      {
        if x !in Issues(init) {
          assert x == last.issue.value && last in vs;
        }
      }
    }
  }

  lemma IssuesAppend(vs: seq<Check>, v: Check)
    ensures Issues(vs + [v]) == Issues(vs) + (if HasIssue(v) then [v.issue.value] else [])
  {
    assert (vs + [v])[..|vs|] == vs;
  }

  // ---------------------------------------------------------------- validate

  /** The checks validate runs, in order, or the retriever's error. */
  function Validations(agent: Agent, c: Content, syllabusContext: string): Result<seq<Check>, StoreError> {
    var sc := SyllabusCheck(agent, ContentText(c), syllabusContext);
    if sc.Failure? then Failure(sc.error)
    else
      var isQuestions := IsQuestionsType(ContentType(c));
      Success([sc.value]
              + (if isQuestions && |c.questions| > 0 then [BloomTally(c.questions)] else [])
              + (if isQuestions then [CheckExamPatternCompliance(c.questions)] else []))
  }

  function ValidationOf(agent: Agent, c: Content, syllabusContext: string): Result<Validation, StoreError> {
    var vs := Validations(agent, c, syllabusContext);
    if vs.Failure? then Failure(vs.error) else Success(Aggregate(vs.value, ContentType(c)))
  }

  lemma PassCountStep(qs: seq<Question>, i: nat)
    requires i < |qs|
    ensures PassCount(qs[..i + 1]) == PassCount(qs[..i]) + (if BloomPasses(qs[i]) then 1 else 0)
  {
    assert qs[..i + 1][..i] == qs[..i];
  }

  /** The tally loop of validate: how many of the first three questions pass their Bloom check. */
  method BloomChecksPassed(qs: seq<Question>) returns (passed: nat)
    ensures passed == PassCount(Take(qs, 3)) && passed <= 3
  {
    var checked := Take(qs, 3);
    passed := 0;
    var i := 0;
    while i < |checked|
      invariant 0 <= i <= |checked|
      invariant passed == PassCount(checked[..i])
    {
      var bloomCheck := CheckBloomCompliance(QuestionText(checked[i]), QuestionLevel(checked[i]));
      PassCountStep(checked, i);
      if bloomCheck.status == PASS {
        passed := passed + 1;
      }
      i := i + 1;
    }
    assert checked[..|checked|] == checked;
  }

  /**
   * validate: the syllabus check, then for question sets the Bloom tally over
   * the first three questions (when there are any) and the duplicate check,
   * aggregated into a verdict.
   */
  method Validate(agent: Agent, c: Content, syllabusContext: string) returns (r: Result<Validation, StoreError>)
    ensures r == ValidationOf(agent, c, syllabusContext)
  {
    var contentType := ContentType(c);
    var contentText := ContentText(c);
    var validations: seq<Check> := [];
    var syllabusCheck := SyllabusCheck(agent, contentText, syllabusContext);
    if syllabusCheck.Failure? {
      return Failure(syllabusCheck.error);
    }
    validations := validations + [syllabusCheck.value];
    if IsQuestionsType(contentType) {
      var checked := Take(c.questions, 3);
      var passed := BloomChecksPassed(c.questions);
      if |c.questions| > 0 {
        if 2 * passed >= |checked| {
          validations := validations + [Check("bloom_compliance", PASS, None)];
        } else {
          validations := validations + [Check("bloom_compliance", FAIL, Some("Some questions do not match their Bloom levels"))];
        }
        assert validations == [syllabusCheck.value] + [BloomTally(c.questions)];
      }
      validations := validations + [CheckExamPatternCompliance(c.questions)];
    }
    assert validations == [syllabusCheck.value]
      + (if IsQuestionsType(contentType) && |c.questions| > 0 then [BloomTally(c.questions)] else [])
      + (if IsQuestionsType(contentType) then [CheckExamPatternCompliance(c.questions)] else []);
    r := Success(Aggregate(validations, contentType));
  }

  /**
   * Content other than question sets is judged on the syllabus check alone:
   * it passes unless that check fails.
   */
  lemma OtherContentRule(agent: Agent, c: Content, syllabusContext: string)
    requires !IsQuestionsType(ContentType(c))
    requires ValidationOf(agent, c, syllabusContext).Success?
    ensures var v := ValidationOf(agent, c, syllabusContext).value;
      && |v.validations| == 1
      && (v.status == PASS <==> v.validations[0].status != FAIL)
  {
    var vs := Validations(agent, c, syllabusContext).value;
    assert vs[..0] == [];
  }

  /** A question set gets the syllabus check, the tally when it has questions, and the duplicate check. */
  lemma QuestionContentChecks(agent: Agent, c: Content, syllabusContext: string)
    requires IsQuestionsType(ContentType(c))
    requires ValidationOf(agent, c, syllabusContext).Success?
    ensures var vs := ValidationOf(agent, c, syllabusContext).value.validations;
      && |vs| == (if |c.questions| > 0 then 3 else 2)
      && vs[0].name == "syllabus_compliance"
      && vs[|vs| - 1] == CheckExamPatternCompliance(c.questions)
      && (|c.questions| > 0 ==> vs[1] == BloomTally(c.questions))
      && (c.questions == [] ==> vs[1].status == PASS)
  {
  }

  // ---------------------------------------------------------------- batch

  /** A content dict, with the "compliance" entry validate_batch attaches. */
  datatype Item = Item(content: Content, compliance: Option<Validation>)

  predicate Passed(item: Item) {
    item.compliance.Some? && item.compliance.value.status == PASS
  }

  function Passing(items: seq<Item>): seq<Item>
    decreases |items|
  {
    if items == [] then [] else Passing(items[..|items| - 1]) + (if Passed(items[|items| - 1]) then [items[|items| - 1]] else [])
  }

  /** The item with the validation `validate` gives it attached, or the error it reports. */
  function AnnotateWith(validate: Content -> Result<Validation, StoreError>, item: Item): Result<Item, StoreError> {
    var v := validate(item.content);
    if v.Failure? then Failure(v.error) else Success(Item(item.content, Some(v.value)))
  }

  /** The agent's validate(content, syllabus_context), as a function of the content. */
  function Validator(agent: Agent, syllabusContext: string): Content -> Result<Validation, StoreError> {
    c => ValidationOf(agent, c, syllabusContext)
  }

  /** The item with its validation attached, or the retriever's error. */
  function Annotate(agent: Agent, item: Item, syllabusContext: string): Result<Item, StoreError> {
    AnnotateWith(Validator(agent, syllabusContext), item)
  }

  /**
   * The loop of validate_batch for a given validation: each content gets its
   * validation attached in place, and the passing ones are collected in input
   * order. An error ends the loop with the earlier items annotated and the
   * rest untouched.
   */
  method AnnotateBatch(validate: Content -> Result<Validation, StoreError>, items: array<Item>)
    returns (r: Result<seq<Item>, StoreError>)
    modifies items
    ensures r.Success? ==>
      && (forall i :: 0 <= i < items.Length ==> AnnotateWith(validate, old(items[i])) == Success(items[i]))
      && r.value == Passing(items[..])
    ensures r.Failure? ==>
      exists j :: (&& 0 <= j < items.Length
                   && (forall i :: 0 <= i < j ==> AnnotateWith(validate, old(items[i])) == Success(items[i]))
                   && AnnotateWith(validate, old(items[j])) == Failure(r.error)
                   && items[j..] == old(items[j..]))
  {
    var validated: seq<Item> := [];
    var n := 0;
    while n < items.Length
      invariant 0 <= n <= items.Length
      invariant forall i :: 0 <= i < n ==> AnnotateWith(validate, old(items[i])) == Success(items[i])
      invariant items[n..] == old(items[n..])
      invariant validated == Passing(items[..n])
    {
      assert items[n] == old(items[n]) by {
        assert items[n..][0] == items[n];
        assert old(items[n..])[0] == old(items[n]);
      }
      var validation := validate(items[n].content);
      if validation.Failure? {
        return Failure(validation.error);
      }
      var item := Item(items[n].content, Some(validation.value));
      items[n] := item;
      if validation.value.status == PASS {
        validated := validated + [item];
      }
      assert items[..n + 1][..n] == items[..n];
      n := n + 1;
    }
    assert items[..items.Length] == items[..];
    r := Success(validated);
  }

  /**
   * validate_batch: the loop above with the agent's own validation, so each
   * item is annotated with what Validate returns for it.
   */
  method ValidateBatch(agent: Agent, items: array<Item>, syllabusContext: string) returns (r: Result<seq<Item>, StoreError>)
    modifies items
    ensures r.Success? ==>
      && (forall i :: 0 <= i < items.Length ==> Annotate(agent, old(items[i]), syllabusContext) == Success(items[i]))
      && r.value == Passing(items[..])
    ensures r.Failure? ==>
      exists j :: (&& 0 <= j < items.Length
                   && (forall i :: 0 <= i < j ==> Annotate(agent, old(items[i]), syllabusContext) == Success(items[i]))
                   && Annotate(agent, old(items[j]), syllabusContext) == Failure(r.error)
                   && items[j..] == old(items[j..]))
  {
    r := AnnotateBatch(Validator(agent, syllabusContext), items);
  }

  /** The returned items are exactly the passing ones, in their original order. */
  lemma {:induction false} PassingProperties(items: seq<Item>)
    ensures IsSubsequence(Passing(items), items)
    ensures forall it :: it in Passing(items) ==> Passed(it)
    ensures forall it :: it in items && Passed(it) ==> it in Passing(items)
    decreases |items|
  {
    if items != [] {
      var init := items[..|items| - 1];
      var last := items[|items| - 1];
      PassingProperties(init);
      assert items == init + [last];
      SubsequenceAppend(Passing(init), init, last, Passed(last));
    }
  }

  lemma {:induction false} SubsequenceAppend<T>(sub: seq<T>, s: seq<T>, x: T, keep: bool)
    requires IsSubsequence(sub, s)
    ensures IsSubsequence(sub + (if keep then [x] else []), s + [x])
    decreases |s|
  {
    var t := sub + (if keep then [x] else []);
    if sub == [] {
      if keep {
        SubsequenceOfSingle(s, x);
        assert t == [x];
      }
    } else {
      assert s != [];
      assert (s + [x])[1..] == s[1..] + [x];
      assert t[0] == sub[0] && t[1..] == sub[1..] + (if keep then [x] else []);
      if sub[0] == s[0] && IsSubsequence(sub[1..], s[1..]) {
        SubsequenceAppend(sub[1..], s[1..], x, keep);
      } else {
        SubsequenceAppend(sub, s[1..], x, keep);
      }
    }
  }

  lemma {:induction false} SubsequenceOfSingle<T>(s: seq<T>, x: T)
    ensures IsSubsequence([x], s + [x])
    decreases |s|
  {
    if s != [] {
      assert (s + [x])[1..] == s[1..] + [x];
      SubsequenceOfSingle(s[1..], x);
    } else {
      var single: seq<T> := [x];
      assert single[1..] == [];
    }
  }
}

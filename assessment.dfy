/**
 * The deterministic parts of the assessment generator
 * (agents/assessment_agent.py): the default Bloom distribution per exam type,
 * the requirement lines and question total built from a distribution, the
 * unit instruction, and the retrieval query built from a syllabus. What the
 * chat model then writes is not modelled; a request stops at what it is shown.
 */
module Assessment {
  import opened Wrappers
  import opened Text
  import opened Helpers
  import opened VectorStore
  import opened Retriever
  import Settings

  /** A Bloom distribution, in its dict's key order: level name and question count. */
  type Distribution = seq<(string, int)>

  /** _get_default_bloom_distribution. */
  function DefaultBloomDistribution(examType: string): Distribution {
    if examType == "quiz" then [("Remember", 3), ("Understand", 2), ("Apply", 1)]
    else if examType == "assignment" then [("Apply", 2), ("Analyze", 2), ("Evaluate", 1)]
    else if examType == "end" then
      [("Remember", 2), ("Understand", 2), ("Apply", 3), ("Analyze", 2), ("Evaluate", 1), ("Create", 0)]
    else
      [("Remember", 2), ("Understand", 3), ("Apply", 3), ("Analyze", 2), ("Evaluate", 0), ("Create", 0)]
  }

  /** The sum of the positive counts. */
  function PositiveTotal(d: Distribution): (n: nat)
    decreases |d|
  {
    if d == [] then 0 else PositiveTotal(d[..|d| - 1]) + Positive(d[|d| - 1])
  }

  /** The number of levels with a positive count. */
  function PositiveLevels(d: Distribution): (n: nat)
    ensures n <= |d|
    decreases |d|
  {
    if d == [] then 0 else PositiveLevels(d[..|d| - 1]) + (if d[|d| - 1].1 > 0 then 1 else 0)
  }

  /** No level is positive exactly when the count is 0, and every level exactly when it is their number. */
  lemma {:induction false} PositiveLevelsIff(d: Distribution)
    ensures PositiveLevels(d) == 0 <==> forall x :: x in d ==> x.1 <= 0
    ensures PositiveLevels(d) == |d| <==> forall x :: x in d ==> x.1 > 0
    decreases |d|
  {
    if d != [] {
      var init, last := d[..|d| - 1], d[|d| - 1];
      PositiveLevelsIff(init);
      assert d == init + [last];
      assert PositiveLevels(d) == PositiveLevels(init) + (if last.1 > 0 then 1 else 0);
      assert forall x :: x in d <==> x in init || x == last;
      assert PositiveLevels(init) <= |init| == |d| - 1;
    }
  }

  function Positive(x: (string, int)): nat {
    if x.1 > 0 then x.1 else 0
  }

  lemma DistributionSnoc(d: Distribution, x: (string, int))
    ensures PositiveTotal(d + [x]) == PositiveTotal(d) + Positive(x)
    ensures PositiveLevels(d + [x]) == PositiveLevels(d) + (if x.1 > 0 then 1 else 0)
  {
    assert (d + [x])[..|d|] == d;
  }

  lemma SumsOfThree(x: (string, int), y: (string, int), z: (string, int))
    ensures PositiveTotal([x, y, z]) == Positive(x) + Positive(y) + Positive(z)
    ensures PositiveLevels([x, y, z]) == (if x.1 > 0 then 1 else 0) + (if y.1 > 0 then 1 else 0) + (if z.1 > 0 then 1 else 0)
  {
    DistributionSnoc([], x);
    assert [] + [x] == [x];
    DistributionSnoc([x], y);
    assert [x] + [y] == [x, y];
    DistributionSnoc([x, y], z);
    assert [x, y] + [z] == [x, y, z];
  }

  lemma SumsOfSix(x: (string, int), y: (string, int), z: (string, int), u: (string, int), v: (string, int), w: (string, int))
    ensures PositiveTotal([x, y, z, u, v, w]) == Positive(x) + Positive(y) + Positive(z) + Positive(u) + Positive(v) + Positive(w)
    ensures PositiveLevels([x, y, z, u, v, w]) ==
      (if x.1 > 0 then 1 else 0) + (if y.1 > 0 then 1 else 0) + (if z.1 > 0 then 1 else 0)
      + (if u.1 > 0 then 1 else 0) + (if v.1 > 0 then 1 else 0) + (if w.1 > 0 then 1 else 0)
  {
    SumsOfThree(x, y, z);
    DistributionSnoc([x, y, z], u);
    assert [x, y, z] + [u] == [x, y, z, u];
    DistributionSnoc([x, y, z, u], v);
    assert [x, y, z, u] + [v] == [x, y, z, u, v];
    DistributionSnoc([x, y, z, u, v], w);
    assert [x, y, z, u, v] + [w] == [x, y, z, u, v, w];
  }

  /**
   * Every default table names only Bloom levels, each once, with no
   * negative count; quiz asks for 6
   * questions, assignment for 5, end and mid exams for 10.
   */
  lemma DefaultDistributions(examType: string)
    ensures var d := DefaultBloomDistribution(examType);
      && (forall i :: 0 <= i < |d| ==> d[i].0 in Settings.BLOOM_LEVELS && d[i].1 >= 0)
      && (forall i, j :: 0 <= i < j < |d| ==> d[i].0 != d[j].0)
      && PositiveTotal(d) == (if examType == "quiz" then 6 else if examType == "assignment" then 5 else 10)
      && PositiveLevels(d) == (if examType == "quiz" || examType == "assignment" then 3 else if examType == "end" then 5 else 4)
  {
    if examType == "quiz" {
      SumsOfThree(("Remember", 3), ("Understand", 2), ("Apply", 1));
    } else if examType == "assignment" {
      SumsOfThree(("Apply", 2), ("Analyze", 2), ("Evaluate", 1));
    } else if examType == "end" {
      SumsOfSix(("Remember", 2), ("Understand", 2), ("Apply", 3), ("Analyze", 2), ("Evaluate", 1), ("Create", 0));
    } else {
      SumsOfSix(("Remember", 2), ("Understand", 3), ("Apply", 3), ("Analyze", 2), ("Evaluate", 0), ("Create", 0));
    }
  }

  /** Any exam type other than quiz, assignment and end uses the mid table. */
  lemma UnknownExamTypeIsMid(examType: string)
    requires examType != "quiz" && examType != "assignment" && examType != "end"
    ensures DefaultBloomDistribution(examType) == DefaultBloomDistribution("mid")
  {
  }

  // ---------------------------------------------------------------- requirements

  /** The line for one level: its count and up to three of its verbs. */
  function RequirementLine(level: string, count: nat): string {
    "- " + level + ": " + NatToString(count) + " questions (use verbs: "
    + Join(Take(Settings.AllowedVerbs(level), 3), ", ") + ")"
  }

  /** One line per level with a positive count, in the distribution's order. */
  function RequirementLines(d: Distribution): (ls: seq<string>)
    decreases |d|
  {
    if d == [] then []
    else RequirementLines(d[..|d| - 1]) + (if d[|d| - 1].1 > 0 then [RequirementLine(d[|d| - 1].0, d[|d| - 1].1)] else [])
  }

  /** The requirement loop of _generate_with_llm: the requirement text and the question total. */
  method BloomRequirements(d: Distribution) returns (requirements: string, total: nat)
    ensures total == PositiveTotal(d)
    ensures requirements == Join(RequirementLines(d), "\n")
  {
    var bloomReq: seq<string> := [];
    total := 0;
    var i := 0;
    while i < |d|
      invariant 0 <= i <= |d|
      invariant total == PositiveTotal(d[..i])
      invariant bloomReq == RequirementLines(d[..i])
    {
      var (level, count) := d[i];
      if count > 0 {
        bloomReq := bloomReq + [RequirementLine(level, count)];
        total := total + count;
      }
      assert d[..i + 1][..i] == d[..i];
      i := i + 1;
    }
    assert d[..|d|] == d;
    requirements := Join(bloomReq, "\n");
  }

  /**
   * One line per positive level, and each such level adds at least one
   * question: the total is zero exactly when no level is positive.
   */
  lemma {:induction false} RequirementCounts(d: Distribution)
    ensures |RequirementLines(d)| == PositiveLevels(d)
    ensures PositiveLevels(d) <= PositiveTotal(d)
    ensures PositiveTotal(d) == 0 <==> forall i :: 0 <= i < |d| ==> d[i].1 <= 0
    decreases |d|
  {
    if d != [] {
      var init := d[..|d| - 1];
      RequirementCounts(init);
      assert forall i :: 0 <= i < |init| ==> init[i] == d[i];
    }
  }

  /** Adding a level with a positive count adds its count to the total and its line at the end. */
  lemma RequirementAppend(d: Distribution, level: string, count: int)
    requires count > 0
    ensures PositiveTotal(d + [(level, count)]) == PositiveTotal(d) + count
    ensures RequirementLines(d + [(level, count)]) == RequirementLines(d) + [RequirementLine(level, count)]
  {
    assert (d + [(level, count)])[..|d|] == d;
  }

  /** _generate_with_llm's unit instruction. */
  function UnitInstruction(units: seq<string>): (s: string)
    ensures s == "Cover all units from syllabus" <==> units == []
  {
    if units != [] then
      assert ("Focus on units: " + Join(units, ", "))[0] == 'F';
      "Focus on units: " + Join(units, ", ")
    else "Cover all units from syllabus"
  }

  // ---------------------------------------------------------------- query

  /** The query parts of one unit: its name, then at most three of its topics. */
  function UnitParts(u: SyllabusUnit): seq<string> {
    [u.name.GetOr("")] + Take(u.topics, 3)
  }

  /** The parts the loop of _get_relevant_context collects from the syllabus units. */
  function UnitQueryParts(us: seq<SyllabusUnit>): seq<string>
    decreases |us|
  {
    if us == [] then [] else UnitQueryParts(us[..|us| - 1]) + UnitParts(us[|us| - 1])
  }

  /** The parts: the given units, or those collected from the syllabus. */
  function QueryParts(s: Syllabus, units: seq<string>): seq<string> {
    if units != [] then units else UnitQueryParts(s.units)
  }

  /** The query: the first ten parts, separated by single spaces. */
  function Query(s: Syllabus, units: seq<string>): string {
    Join(Take(QueryParts(s, units), 10), " ")
  }

  /** The same parts, gathered front to back. */
  function PartsFromFront(us: seq<SyllabusUnit>): seq<string>
    decreases |us|
  {
    if us == [] then [] else UnitParts(us[0]) + PartsFromFront(us[1..])
  }

  function PartCount(us: seq<SyllabusUnit>): nat
    decreases |us|
  {
    if us == [] then 0 else 1 + (if |us[0].topics| < 3 then |us[0].topics| else 3) + PartCount(us[1..])
  }

  lemma {:induction false} PartsFromFrontAppend(us: seq<SyllabusUnit>, u: SyllabusUnit)
    ensures PartsFromFront(us + [u]) == PartsFromFront(us) + UnitParts(u)
    decreases |us|
  {
    if us == [] {
      assert PartsFromFront([u]) == UnitParts(u) + PartsFromFront([]);
    } else {
      assert (us + [u])[0] == us[0] && (us + [u])[1..] == us[1..] + [u];
      PartsFromFrontAppend(us[1..], u);
    }
  }

  /**
   * The units' parts are each unit's name followed by up to three of its
   * topics, unit after unit; there are PartCount of them.
   */
  lemma {:induction false} UnitQueryPartsInOrder(us: seq<SyllabusUnit>)
    ensures UnitQueryParts(us) == PartsFromFront(us)
    ensures |UnitQueryParts(us)| == PartCount(us)
    decreases |us|
  {
    if us != [] {
      var init := us[..|us| - 1];
      var last := us[|us| - 1];
      UnitQueryPartsInOrder(init);
      PartsFromFrontAppend(init, last);
      assert us == init + [last];
      PartCountAppend(init, last);
    }
  }

  lemma {:induction false} PartCountAppend(us: seq<SyllabusUnit>, u: SyllabusUnit)
    ensures PartCount(us + [u]) == PartCount(us) + 1 + (if |u.topics| < 3 then |u.topics| else 3)
    decreases |us|
  {
    if us != [] {
      assert (us + [u])[0] == us[0] && (us + [u])[1..] == us[1..] + [u];
      PartCountAppend(us[1..], u);
    }
  }

  /**
   * The query has at most ten parts; given units are used as they are, and a
   * syllabus with at most ten parts contributes all of them.
   */
  lemma QueryShape(s: Syllabus, units: seq<string>)
    ensures |Take(QueryParts(s, units), 10)| <= 10
    ensures units != [] ==> Query(s, units) == Join(Take(units, 10), " ")
    ensures units == [] && PartCount(s.units) <= 10 ==> Query(s, units) == Join(PartsFromFront(s.units), " ")
  {
    UnitQueryPartsInOrder(s.units);
    var parts := UnitQueryParts(s.units);
    assert |parts| == 10 ==> parts[..10] == parts;
  }

  /** The query-building loop of _get_relevant_context. */
  method BuildQuery(s: Syllabus, units: seq<string>) returns (query: string)
    ensures query == Query(s, units)
  {
    var queryParts: seq<string> := [];
    if units != [] {
      queryParts := queryParts + units;
      assert queryParts == units;
    } else {
      var i := 0;
      while i < |s.units|
        invariant 0 <= i <= |s.units|
        invariant queryParts == UnitQueryParts(s.units[..i])
      {
        var u := s.units[i];
        queryParts := queryParts + [u.name.GetOr("")];
        queryParts := queryParts + Take(u.topics, 3);
        assert s.units[..i + 1][..i] == s.units[..i];
        i := i + 1;
      }
      assert s.units[..|s.units|] == s.units;
    }
    assert queryParts == QueryParts(s, units);
    query := Join(Take(queryParts, 10), " ");
  }

  /**
   * _get_relevant_context: "" when the retriever is not ready; otherwise the
   * texts retrieved (top 8) for the query, separated by blank lines. The
   * retriever's error is not caught.
   */
  method GetRelevantContext(retriever: RagRetriever, s: Syllabus, units: seq<string>) returns (r: Result<string, StoreError>)
    requires retriever.Valid()
    ensures retriever.store == null ==> r == Success("")
    ensures retriever.store != null ==>
      var found := retriever.RetrieveResult(Query(s, units), 8, "", "");
      r == if found.Failure? then Failure(found.error) else Success(Join(HitTexts(found.value), "\n\n"))
  {
    var ready := retriever.IsReady();
    if !ready {
      return Success("");
    }
    var query := BuildQuery(s, units);
    var chunks := retriever.Retrieve(query, 8, "", "");
    if chunks.Failure? {
      return Failure(chunks.error);
    }
    r := Success(Join(HitTexts(chunks.value), "\n\n"));
  }

  // ---------------------------------------------------------------- generate_questions

  /** The distribution used: the given one, even when empty; the exam type's default only when none is given. */
  function ChosenDistribution(examType: string, given: Option<Distribution>): (d: Distribution)
    ensures given.Some? ==> d == given.value
    ensures given.None? ==> d == DefaultBloomDistribution(examType)
  {
    match given
    case Some(dist) => dist
    case None => DefaultBloomDistribution(examType)
  }

  /** What generate_questions puts before the chat model: the context (cut to 3000), the totals and the instructions. */
  datatype QuestionRequest = QuestionRequest(context: string, examType: string, distribution: Distribution,
                                             totalQuestions: nat, requirements: string, unitFilter: string)

  /**
   * generate_questions up to the model call: the context from the retriever,
   * the distribution (defaulted only when none is given), its requirement
   * lines and total, and the unit instruction.
   */
  method GenerateQuestions(retriever: RagRetriever, s: Syllabus, examType: string, units: seq<string>,
                           given: Option<Distribution>) returns (r: Result<QuestionRequest, StoreError>)
    requires retriever.Valid()
    ensures r.Success? ==>
      && r.value.distribution == ChosenDistribution(examType, given)
      && r.value.totalQuestions == PositiveTotal(r.value.distribution)
      && r.value.requirements == Join(RequirementLines(r.value.distribution), "\n")
      && r.value.unitFilter == UnitInstruction(units)
      && r.value.examType == examType
      && (retriever.store == null ==> r.value.context == "")
    ensures retriever.store == null ==> r.Success?
    ensures retriever.store != null ==>
      var found := retriever.RetrieveResult(Query(s, units), 8, "", "");
      && (r.Failure? <==> found.Failure?)
      && (r.Failure? ==> r.error == found.error)
      && (r.Success? ==> r.value.context == Take(Join(HitTexts(found.value), "\n\n"), 3000))
  {
    var context := GetRelevantContext(retriever, s, units);
    if context.Failure? {
      return Failure(context.error);
    }
    var distribution := if given.None? then DefaultBloomDistribution(examType) else given.value;
    var requirements, total := BloomRequirements(distribution);
    r := Success(QuestionRequest(Take(context.value, 3000), examType, distribution, total, requirements, UnitInstruction(units)));
  }

  /** An empty distribution that is given is kept: it asks for no questions at all. */
  lemma EmptyGivenDistributionIsKept(examType: string)
    ensures ChosenDistribution(examType, Some([])) == []
    ensures PositiveTotal(ChosenDistribution(examType, Some([]))) == 0
    ensures PositiveTotal(ChosenDistribution(examType, None)) > 0
  {
    DefaultDistributions(examType);
  }
}

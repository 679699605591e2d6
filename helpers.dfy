/**
 * The small utilities of utils/helpers.py the agents rely on: counting
 * questions per Bloom level and laying a parsed syllabus out as text.
 */
module Helpers {
  import opened Wrappers
  import opened Text
  import Settings

  /** A generated question: its text and its Bloom level, each possibly absent. */
  datatype Question = Question(text: Option<string>, bloomLevel: Option<string>)

  /** One unit of a parsed syllabus; absent number or name are None. */
  datatype SyllabusUnit = SyllabusUnit(number: Option<string>, name: Option<string>, topics: seq<string>)

  /**
   * A parsed syllabus. The course code, credits and total hours are held as
   * the text they print as, "" standing for an absent or falsy value.
   */
  datatype Syllabus = Syllabus(subject: Option<string>, courseCode: string, credits: string,
                               totalHours: string, units: seq<SyllabusUnit>)

  // ---------------------------------------------------------------- Bloom distribution

  /** `q.get("bloom_level", "").capitalize()`. */
  function LevelKey(q: Question): string {
    Capitalize(q.bloomLevel.GetOr(""))
  }

  /** The number of questions whose capitalised level is `level`. */
  function CountLevel(qs: seq<Question>, level: string): nat
    decreases |qs|
  {
    if qs == [] then 0
    else CountLevel(qs[..|qs| - 1], level) + (if LevelKey(qs[|qs| - 1]) == level then 1 else 0)
  }

  /** The six level names as a set: the keys of every distribution. */
  function LevelSet(): set<string> {
    set l | l in Settings.BLOOM_LEVELS
  }

  /**
   * calculate_bloom_distribution: every one of the six levels is a key, and
   * each count is the number of questions at that level, case aside.
   */
  method CalculateBloomDistribution(qs: seq<Question>) returns (dist: map<string, nat>)
    ensures dist.Keys == LevelSet()
    ensures forall l :: l in dist ==> dist[l] == CountLevel(qs, l)
  {
    dist := map l | l in Settings.BLOOM_LEVELS :: 0;
    var i := 0;
    while i < |qs|
      invariant 0 <= i <= |qs|
      invariant dist.Keys == LevelSet()
      invariant forall l :: l in dist ==> dist[l] == CountLevel(qs[..i], l)
    {
      dist := CountQuestion(qs, i, dist);
      i := i + 1;
    }
    assert qs[..|qs|] == qs;
  }

  /** One turn of the loop: the level of question i, if it is one of the keys, goes up by one. */
  method CountQuestion(qs: seq<Question>, i: nat, dist: map<string, nat>) returns (next: map<string, nat>)
    requires i < |qs|
    requires forall l :: l in dist ==> dist[l] == CountLevel(qs[..i], l)
    ensures next.Keys == dist.Keys
    ensures forall l :: l in next ==> next[l] == CountLevel(qs[..i + 1], l)
  {
    next := dist;
    var level := LevelKey(qs[i]);
    if level in dist {
      next := dist[level := dist[level] + 1];
    }
    forall l | l in next ensures next[l] == CountLevel(qs[..i + 1], l) {
      CountStep(qs, i, l);
    }
  }

  lemma CountStep(qs: seq<Question>, i: nat, level: string)
    requires i < |qs|
    ensures CountLevel(qs[..i + 1], level) == CountLevel(qs[..i], level) + (if LevelKey(qs[i]) == level then 1 else 0)
  {
    assert qs[..i + 1][..i] == qs[..i];
  }

  /** One more question adds one to the count of its own level and to no other. */
  lemma CountAppend(qs: seq<Question>, q: Question, level: string)
    ensures CountLevel(qs + [q], level) == CountLevel(qs, level) + (if LevelKey(q) == level then 1 else 0)
  {
    assert (qs + [q])[..|qs|] == qs;
  }

  /** An empty list of questions counts zero at every level. */
  lemma NoQuestionsNoCounts(level: string)
    ensures CountLevel([], level) == 0
  {
  }

  /**
   * Appending a question raises at most one of the six counts, by exactly 1:
   * the count of its level when that is one of the six, and none otherwise.
   */
  lemma AppendRaisesAtMostOne(qs: seq<Question>, q: Question)
    ensures forall l :: l in Settings.BLOOM_LEVELS ==> CountLevel(qs + [q], l) >= CountLevel(qs, l)
    ensures forall l :: l in Settings.BLOOM_LEVELS && l != LevelKey(q) ==> CountLevel(qs + [q], l) == CountLevel(qs, l)
    ensures LevelKey(q) in Settings.BLOOM_LEVELS ==> CountLevel(qs + [q], LevelKey(q)) == CountLevel(qs, LevelKey(q)) + 1
  {
    forall l {
      CountAppend(qs, q, l);
    }
  }

  /** The same level written in any case lands in the same count: "APPLY" and "apply" are Apply. */
  lemma LevelKeyIgnoresCase(text: Option<string>, level: string)
    ensures LevelKey(Question(text, Some(Upper(level)))) == LevelKey(Question(text, Some(level)))
    ensures LevelKey(Question(text, Some(Lower(level)))) == LevelKey(Question(text, Some(level)))
    ensures LevelKey(Question(text, Some("APPLY"))) == LevelKey(Question(text, Some("apply"))) == "Apply"
  {
    CapitalizeIgnoresCase(level);
    assert Lower("PPLY") == "pply";
  }

  /** The sum of the counts over a list of distinct levels. */
  function SumCounts(qs: seq<Question>, levels: seq<string>): nat
    decreases |levels|
  {
    if levels == [] then 0 else CountLevel(qs, levels[0]) + SumCounts(qs, levels[1..])
  }

  predicate Distinct(s: seq<string>) {
    forall i, j :: 0 <= i < j < |s| ==> s[i] != s[j]
  }

  lemma {:induction false} SumCountsAppend(qs: seq<Question>, q: Question, levels: seq<string>)
    requires Distinct(levels)
    ensures SumCounts(qs + [q], levels) == SumCounts(qs, levels) + (if LevelKey(q) in levels then 1 else 0)
    decreases |levels|
  {
    if levels != [] {
      CountAppend(qs, q, levels[0]);
      var rest := levels[1..];
      assert Distinct(rest) by {
        forall i, j | 0 <= i < j < |rest| ensures rest[i] != rest[j] {
          assert rest[i] == levels[i + 1] && rest[j] == levels[j + 1];
        }
      }
      SumCountsAppend(qs, q, rest);
      assert levels == [levels[0]] + rest;
      assert LevelKey(q) in levels <==> LevelKey(q) == levels[0] || LevelKey(q) in rest;
      if LevelKey(q) == levels[0] {
        assert LevelKey(q) !in rest by {
          forall j | 0 <= j < |rest| ensures rest[j] != levels[0] {
            assert rest[j] == levels[j + 1];
          }
        }
      }
    }
  }

  /** Questions at no recognised level, or at none, are not counted: the counts sum to at most the questions. */
  lemma {:induction false} CountsSumAtMostQuestions(qs: seq<Question>)
    ensures SumCounts(qs, Settings.BLOOM_LEVELS) <= |qs|
    decreases |qs|
  {
    if qs == [] {
      ZeroSum(Settings.BLOOM_LEVELS);
    } else {
      var init := qs[..|qs| - 1];
      CountsSumAtMostQuestions(init);
      assert qs == init + [qs[|qs| - 1]];
      SumCountsAppend(init, qs[|qs| - 1], Settings.BLOOM_LEVELS);
    }
  }

  lemma {:induction false} ZeroSum(levels: seq<string>)
    ensures SumCounts([], levels) == 0
    decreases |levels|
  {
    if levels != [] {
      ZeroSum(levels[1..]);
    }
  }

  // ---------------------------------------------------------------- display

  /** The lines before the units: the subject, the truthy optional fields, the Units header. */
  function HeaderLines(s: Syllabus): seq<string> {
    ["Subject: " + s.subject.GetOr("Unknown")]
    + (if s.courseCode != "" then ["Course Code: " + s.courseCode] else [])
    + (if s.credits != "" then ["Credits: " + s.credits] else [])
    + (if s.totalHours != "" then ["Total Hours: " + s.totalHours] else [])
    + ["\nUnits:"]
  }

  function UnitHeading(u: SyllabusUnit): string {
    "\nUnit " + u.number.GetOr("?") + ": " + u.name.GetOr("Unknown")
  }

  function TopicLine(topic: string): string {
    "  - " + topic
  }

  /** One line per topic, in order. */
  function TopicLines(ts: seq<string>): (ls: seq<string>)
    ensures |ls| == |ts|
    decreases |ts|
  {
    if ts == [] then [] else TopicLines(ts[..|ts| - 1]) + [TopicLine(ts[|ts| - 1])]
  }

  /** A unit's heading, then one line per topic. */
  function UnitLines(u: SyllabusUnit): seq<string> {
    [UnitHeading(u)] + TopicLines(u.topics)
  }

  function AllUnitLines(us: seq<SyllabusUnit>): seq<string>
    decreases |us|
  {
    if us == [] then [] else AllUnitLines(us[..|us| - 1]) + UnitLines(us[|us| - 1])
  }

  function DisplayLines(s: Syllabus): seq<string> {
    HeaderLines(s) + AllUnitLines(s.units)
  }

  lemma AllUnitLinesStep(us: seq<SyllabusUnit>, i: nat)
    requires i < |us|
    ensures AllUnitLines(us[..i + 1]) == AllUnitLines(us[..i]) + UnitLines(us[i])
  {
    assert us[..i + 1][..i] == us[..i];
  }

  /** format_syllabus_for_display: the lines, joined by newlines. */
  method FormatSyllabusForDisplay(s: Syllabus) returns (text: string)
    ensures text == Join(DisplayLines(s), "\n")
  {
    var lines := HeaderOf(s);
    var i := 0;
    while i < |s.units|
      invariant 0 <= i <= |s.units|
      invariant lines == HeaderLines(s) + AllUnitLines(s.units[..i])
    {
      lines := AppendUnitLines(lines, s.units[i]);
      AllUnitLinesStep(s.units, i);
      i := i + 1;
    }
    assert s.units[..|s.units|] == s.units;
    text := Join(lines, "\n");
  }

  /** The subject line, the optional course code, credits and hours lines, then the units heading. */
  method HeaderOf(s: Syllabus) returns (lines: seq<string>)
    ensures lines == HeaderLines(s)
  {
    lines := [];
    lines := lines + ["Subject: " + s.subject.GetOr("Unknown")];
    if s.courseCode != "" {
      lines := lines + ["Course Code: " + s.courseCode];
    }
    if s.credits != "" {
      lines := lines + ["Credits: " + s.credits];
    }
    if s.totalHours != "" {
      lines := lines + ["Total Hours: " + s.totalHours];
    }
    lines := lines + ["\nUnits:"];
  }

  /** The heading line of a unit, then its topic lines, appended to lines. */
  method AppendUnitLines(lines: seq<string>, u: SyllabusUnit) returns (r: seq<string>)
    ensures r == lines + UnitLines(u)
  {
    r := lines + [UnitHeading(u)];
    var j := 0;
    while j < |u.topics|
      invariant 0 <= j <= |u.topics|
      invariant r == lines + [UnitHeading(u)] + TopicLines(u.topics[..j])
    {
      r := r + [TopicLine(u.topics[j])];
      assert u.topics[..j + 1][..j] == u.topics[..j];
      j := j + 1;
    }
    assert u.topics[..|u.topics|] == u.topics;
  }

  function TopicCount(us: seq<SyllabusUnit>): nat
    decreases |us|
  {
    if us == [] then 0 else TopicCount(us[..|us| - 1]) + |us[|us| - 1].topics|
  }

  lemma {:induction false} TopicLinesCover(ts: seq<string>)
    ensures forall t :: t in ts ==> TopicLine(t) in TopicLines(ts)
    decreases |ts|
  {
    if ts != [] {
      var init := ts[..|ts| - 1];
      TopicLinesCover(init);
      assert ts == init + [ts[|ts| - 1]];
    }
  }

  lemma {:induction false} AllUnitLinesShape(us: seq<SyllabusUnit>)
    ensures |AllUnitLines(us)| == |us| + TopicCount(us)
    ensures forall u, t :: u in us && t in u.topics ==> TopicLine(t) in AllUnitLines(us)
    ensures forall u :: u in us ==> UnitHeading(u) in AllUnitLines(us)
    decreases |us|
  {
    if us != [] {
      var init := us[..|us| - 1];
      var last := us[|us| - 1];
      AllUnitLinesShape(init);
      TopicLinesCover(last.topics);
      var ls := UnitLines(last);
      assert AllUnitLines(us) == AllUnitLines(init) + ls;
      assert us == init + [last];
      forall u, t | u in us && t in u.topics ensures TopicLine(t) in AllUnitLines(us) {
        if u != last {
          assert u in init;
        } else {
          assert TopicLine(t) in ls;
        }
      }
      forall u | u in us ensures UnitHeading(u) in AllUnitLines(us) {
        if u != last {
          assert u in init;
        } else {
          assert ls[0] == UnitHeading(u);
        }
      }
    }
  }

  /** "Course Code: ", "Credits: " and "Total Hours: " all differ at their first two characters. */
  lemma HeaderLinesDiffer(a: string, b: string)
    ensures "Subject: " + a != "Course Code: " + b && "Credits: " + a != "Course Code: " + b
    ensures "Total Hours: " + a != "Course Code: " + b && "\nUnits:" != "Course Code: " + b
    ensures "Subject: " + a != "Credits: " + b && "Total Hours: " + a != "Credits: " + b && "\nUnits:" != "Credits: " + b
    ensures "Subject: " + a != "Total Hours: " + b && "\nUnits:" != "Total Hours: " + b
  {
    assert ("Subject: " + a)[0] == 'S' && ("Course Code: " + b)[0] == 'C';
    assert ("Credits: " + a)[1] == 'r' && ("Course Code: " + b)[1] == 'o';
    assert ("Total Hours: " + a)[0] == 'T' && "\nUnits:"[0] == '\n';
    assert ("Credits: " + b)[0] == 'C' && ("Credits: " + b)[1] == 'r' && ("Total Hours: " + b)[0] == 'T';
    assert ("Subject: " + a)[0] == 'S' && ("Total Hours: " + a)[0] == 'T';
  }

  lemma CourseCodeLine(s: Syllabus)
    ensures "Course Code: " + s.courseCode in HeaderLines(s) <==> s.courseCode != ""
  {
    HeaderLinesDiffer(s.subject.GetOr("Unknown"), s.courseCode);
    HeaderLinesDiffer(s.credits, s.courseCode);
    HeaderLinesDiffer(s.totalHours, s.courseCode);
  }

  lemma CreditsLine(s: Syllabus)
    ensures "Credits: " + s.credits in HeaderLines(s) <==> s.credits != ""
  {
    HeaderLinesDiffer(s.subject.GetOr("Unknown"), s.credits);
    HeaderLinesDiffer(s.totalHours, s.credits);
    HeaderLinesDiffer(s.credits, s.courseCode);
  }

  lemma TotalHoursLine(s: Syllabus)
    ensures "Total Hours: " + s.totalHours in HeaderLines(s) <==> s.totalHours != ""
  {
    HeaderLinesDiffer(s.subject.GetOr("Unknown"), s.totalHours);
    HeaderLinesDiffer(s.totalHours, s.courseCode);
    HeaderLinesDiffer(s.totalHours, s.credits);
  }

  /** The header opens with the subject line and ends with the Units line; each optional line is there exactly when its field is truthy. */
  lemma HeaderShape(s: Syllabus)
    ensures var hs := HeaderLines(s);
      && hs[0] == "Subject: " + s.subject.GetOr("Unknown")
      && hs[|hs| - 1] == "\nUnits:"
      && ("Course Code: " + s.courseCode in hs <==> s.courseCode != "")
      && ("Credits: " + s.credits in hs <==> s.credits != "")
      && ("Total Hours: " + s.totalHours in hs <==> s.totalHours != "")
  {
    CourseCodeLine(s);
    CreditsLine(s);
    TotalHoursLine(s);
  }

  /**
   * The display opens with the subject line and ends its header with the
   * Units line; a course code, credits or hours line is present exactly when
   * that field is truthy; every unit and every topic has its line.
   */
  lemma DisplayShape(s: Syllabus)
    ensures var ls := DisplayLines(s);
      && ls[0] == "Subject: " + s.subject.GetOr("Unknown")
      && ls[|HeaderLines(s)| - 1] == "\nUnits:"
      && |ls| == |HeaderLines(s)| + |s.units| + TopicCount(s.units)
      && ("Course Code: " + s.courseCode in HeaderLines(s) <==> s.courseCode != "")
      && ("Credits: " + s.credits in HeaderLines(s) <==> s.credits != "")
      && ("Total Hours: " + s.totalHours in HeaderLines(s) <==> s.totalHours != "")
      && (forall u, t :: u in s.units && t in u.topics ==> TopicLine(t) in ls)
      && (forall u :: u in s.units ==> UnitHeading(u) in ls)
  {
    var hs := HeaderLines(s);
    var body := AllUnitLines(s.units);
    HeaderShape(s);
    AllUnitLinesShape(s.units);
    var ls := DisplayLines(s);
    assert ls == hs + body;
    assert ls[0] == hs[0] && ls[|hs| - 1] == hs[|hs| - 1];
    forall x | x in body ensures x in ls {
      var k :| 0 <= k < |body| && body[k] == x;
      assert ls[|hs| + k] == x;
    }
  }

  /** The displayed text starts with the subject line. */
  lemma DisplayStartsWithSubject(s: Syllabus)
    ensures "Subject: " + s.subject.GetOr("Unknown") <= Join(DisplayLines(s), "\n")
  {
    JoinStartsWithFirst(DisplayLines(s), "\n");
  }
}

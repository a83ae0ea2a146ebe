/**
 * The study planner tab: rendering a number of hours as "h hrs m mins", checking the
 * subjects the user typed against the allow-list, and splitting the daily study budget
 * across subjects in proportion to their difficulty weight for every day up to the exam.
 *
 * The current date is an input: the planner receives the number of whole days between
 * today and the exam date. Durations are exact rationals rather than binary floats.
 */
module StudyPlanner {

  import opened Common
  import opened Strings

  // ---------------------------------------------------------------------------
  // format_time

  /** int(x): truncation toward zero. */
  function Trunc(x: real): (h: int)
    ensures x >= 0.0 ==> 0 <= h && h as real <= x < h as real + 1.0
    ensures x < 0.0 ==> h <= 0 && h as real - 1.0 < x <= h as real
  {
    if x >= 0.0 then x.Floor else -((-x).Floor)
  }

  /** Python's round(y) with no digits: nearest integer, ties to the even one. */
  function RoundHalfEven(y: real): (r: int)
    ensures -0.5 <= y - r as real <= 0.5
    ensures (y - r as real == 0.5 || r as real - y == 0.5) ==> r % 2 == 0
  {
    var f := y.Floor;
    var d := y - f as real;
    if d < 0.5 then f
    else if d > 0.5 then f + 1
    else if f % 2 == 0 then f else f + 1
  }

  /** The two properties of RoundHalfEven pin down a single integer. */
  lemma RoundHalfEvenUnique(y: real, k: int)
    requires -0.5 <= y - k as real <= 0.5
    requires (y - k as real == 0.5 || k as real - y == 0.5) ==> k % 2 == 0
    ensures k == RoundHalfEven(y)
  {
  }

  /** The hours part of format_time. */
  function WholeHours(x: real): int {
    Trunc(x)
  }

  /** The minutes part of format_time: the rounded leftover fraction of an hour, never carried. */
  function Minutes(x: real): int {
    RoundHalfEven((x - Trunc(x) as real) * 60.0)
  }

  /** The three shapes of format_time's output for given hours and minutes. */
  function Render(h: int, m: int): string {
    if h > 0 && m > 0 then IntToString(h) + " hrs " + IntToString(m) + " mins"
    else if h > 0 then IntToString(h) + " hrs"
    else IntToString(m) + " mins"
  }

  /** format_time: "h hrs m mins", "h hrs" or "m mins". */
  function FormatTime(x: real): string {
    Render(WholeHours(x), Minutes(x))
  }

  /** For a non-negative duration the minutes lie in 0..60 and are the nearest whole minute. */
  lemma MinutesInRange(x: real)
    requires x >= 0.0
    ensures WholeHours(x) == x.Floor
    ensures 0 <= Minutes(x) <= 60
    ensures -0.5 <= (x - x.Floor as real) * 60.0 - Minutes(x) as real <= 0.5
  {
  }

  datatype HoursMinutes = HoursMinutes(hours: int, minutes: int)

  /** Reads back a rendered duration: the inverse of format_time on non-negative inputs. */
  function ParseDuration(s: string): Option<HoursMinutes> {
    var p := SplitOn(s, ' ');
    if |p| == 4 && p[1] == "hrs" && p[3] == "mins" && ParseNat(p[0]).Some? && ParseNat(p[2]).Some? then
      Some(HoursMinutes(ParseNat(p[0]).value, ParseNat(p[2]).value))
    else if |p| == 2 && p[1] == "hrs" && ParseNat(p[0]).Some? then
      Some(HoursMinutes(ParseNat(p[0]).value, 0))
    else if |p| == 2 && p[1] == "mins" && ParseNat(p[0]).Some? then
      Some(HoursMinutes(0, ParseNat(p[0]).value))
    else None
  }

  /** The space-separated tokens format_time emits, by case. */
  function DurationTokens(h: nat, m: nat): (ts: seq<string>)
    ensures |ts| >= 1 && forall k :: 0 <= k < |ts| ==> ' ' !in ts[k]
  {
    assert ' ' !in NatToString(h) && ' ' !in NatToString(m) by {
      NoSpaceHasNoBlank(NatToString(h));
      NoSpaceHasNoBlank(NatToString(m));
    }
    if h > 0 && m > 0 then [NatToString(h), "hrs", NatToString(m), "mins"]
    else if h > 0 then [NatToString(h), "hrs"]
    else [NatToString(m), "mins"]
  }

  lemma NoSpaceHasNoBlank(s: string)
    requires NoSpace(s)
    ensures ' ' !in s
  {
    forall i | 0 <= i < |s| ensures s[i] != ' ' {
      assert !IsSpace(s[i]);
    }
  }

  lemma JoinFour(a: string, b: string)
    ensures Join(" ", [a, "hrs", b, "mins"]) == a + " hrs " + b + " mins"
  {
    JoinCons(" ", b, ["mins"]);
    JoinCons(" ", "hrs", [b, "mins"]);
    JoinCons(" ", a, ["hrs", b, "mins"]);
    assert " " + ("hrs" + " " + (b + " " + "mins")) == " hrs " + b + " mins";
  }

  lemma JoinTwo(a: string, unit: string)
    ensures Join(" ", [a, unit]) == a + " " + unit
  {
    JoinCons(" ", a, [unit]);
  }

  lemma RenderTokens(h: nat, m: nat)
    ensures SplitOn(Render(h, m), ' ') == DurationTokens(h, m)
  {
    var ts := DurationTokens(h, m);
    var hs, ms := NatToString(h), NatToString(m);
    if h > 0 && m > 0 {
      JoinFour(hs, ms);
    } else if h > 0 {
      JoinTwo(hs, "hrs");
    } else {
      JoinTwo(ms, "mins");
    }
    assert Render(h, m) == Join(" ", ts);
    SplitOnJoin(ts, ' ');
  }

  /** format_time on a non-negative duration is exactly its tokens joined by single spaces. */
  lemma FormatTimeTokens(x: real)
    requires x >= 0.0
    ensures SplitOn(FormatTime(x), ' ') == DurationTokens(WholeHours(x), Minutes(x))
  {
    MinutesInRange(x);
    RenderTokens(WholeHours(x), Minutes(x));
  }

  /** Round trip: the rendered text determines both the hours and the rounded minutes. */
  lemma FormatTimeRoundTrip(x: real)
    requires x >= 0.0
    ensures ParseDuration(FormatTime(x)) == Some(HoursMinutes(WholeHours(x), Minutes(x)))
  {
    var h, m := WholeHours(x), Minutes(x);
    MinutesInRange(x);
    FormatTimeTokens(x);
    ParseNatToString(h);
    ParseNatToString(m);
  }

  /** No carry: 1 h 59.5 min rounds its minutes to the even 60 and stays in the first hour. */
  lemma FormatTimeNoCarry()
    ensures FormatTime(1.0 + 119.0 / 120.0) == "1 hrs 60 mins"
  {
    var x := 1.0 + 119.0 / 120.0;
    assert Trunc(x) == 1;
    assert (x - 1.0) * 60.0 == 59.5;
    assert Minutes(x) == 60;
    assert NatToString(60) == NatToString(6) + [DigitChar(0)];
  }

  /** A zero duration is rendered as "0 mins". */
  lemma FormatTimeZero()
    ensures FormatTime(0.0) == "0 mins"
  {
  }

  /** A whole number of hours is rendered without a minutes part. */
  lemma FormatTimeWholeHours(n: nat)
    requires n > 0
    ensures FormatTime(n as real) == NatToString(n) + " hrs"
  {
    assert Trunc(n as real) == n;
    assert Minutes(n as real) == 0;
  }

  // ---------------------------------------------------------------------------
  // The subject allow-list and the subject entry loop

  const ValidSubjects: seq<string> := [
    "maths", "mathematics", "physics", "chemistry", "biology",
    "english", "hindi", "sociology", "history", "geography",
    "computer", "science", "accountancy", "economics", "business studies",
    "python", "computer science", "c", "c++", "operating system", "dbms"
  ]

  datatype SubjectRequest = SubjectRequest(name: string, difficulty: Difficulty)

  /** What one subject row of the form contributes. */
  datatype EntryVerdict = Blank | Rejected(name: string) | Accepted(request: SubjectRequest)

  /** One form row: the typed name is stripped and lower-cased, then checked against the list. */
  function CheckEntry(rawName: string, d: Difficulty): EntryVerdict {
    var name := Lower(Strip(rawName));
    if name == [] then Blank
    else if name !in ValidSubjects then Rejected(name)
    else Accepted(SubjectRequest(Capitalize(name), d))
  }

  /**
   * A row is blank exactly when its name is all whitespace. Otherwise the stripped,
   * lower-cased name decides: it is accepted exactly when it is on the list, as its
   * capitalised form with the row's difficulty, and reported as it is when it is not.
   */
  lemma CheckEntryVerdict(rawName: string, d: Difficulty)
    ensures CheckEntry(rawName, d).Blank? <==> Strip(rawName) == []
    ensures CheckEntry(rawName, d).Accepted? <==> Lower(Strip(rawName)) in ValidSubjects
    ensures CheckEntry(rawName, d).Rejected? ==>
      var n := CheckEntry(rawName, d).name; n == Lower(Strip(rawName)) && n != [] && n !in ValidSubjects && IsLower(n)
    ensures CheckEntry(rawName, d).Accepted? ==>
      && CheckEntry(rawName, d).request == SubjectRequest(Capitalize(Lower(Strip(rawName))), d)
      && Lower(CheckEntry(rawName, d).request.name) in ValidSubjects
  {
    var name := Lower(Strip(rawName));
    assert "" !in ValidSubjects;
    if name != [] && name in ValidSubjects {
      LowerCapitalize(name);
    }
  }

  function CheckRow(row: (string, Difficulty)): EntryVerdict {
    CheckEntry(row.0, row.1)
  }

  /** The verdict of each form row, in form order. */
  function Verdicts(entries: seq<(string, Difficulty)>): seq<EntryVerdict> {
    MapSeq(CheckRow, entries)
  }

  /** The accepted requests among the verdicts, in order. */
  function AcceptedOf(vs: seq<EntryVerdict>): seq<SubjectRequest> {
    if vs == [] then []
    else AcceptedOf(vs[..|vs| - 1]) + (if vs[|vs| - 1].Accepted? then [vs[|vs| - 1].request] else [])
  }

  /** The names reported as invalid among the verdicts, in order. */
  function RejectedOf(vs: seq<EntryVerdict>): seq<string> {
    if vs == [] then []
    else RejectedOf(vs[..|vs| - 1]) + (if vs[|vs| - 1].Rejected? then [vs[|vs| - 1].name] else [])
  }

  function AcceptedRequests(entries: seq<(string, Difficulty)>): seq<SubjectRequest> {
    AcceptedOf(Verdicts(entries))
  }

  function RejectedNames(entries: seq<(string, Difficulty)>): seq<string> {
    RejectedOf(Verdicts(entries))
  }

  /** The entry loop of the planner form: collects accepted subjects and reports invalid names. */
  method CollectSubjects(entries: seq<(string, Difficulty)>) returns (subjects: seq<SubjectRequest>, errors: seq<string>)
    ensures subjects == AcceptedRequests(entries)
    ensures errors == RejectedNames(entries)
  {
    subjects, errors := [], [];
    ghost var vs := Verdicts(entries);
    for i := 0 to |entries|
      invariant subjects == AcceptedOf(vs[..i])
      invariant errors == RejectedOf(vs[..i])
    {
      var v := CheckEntry(entries[i].0, entries[i].1);
      MapSeqAt(CheckRow, entries, i);
      CollectStep(vs, i);
      if v.Rejected? {
        errors := errors + [v.name];
      } else if v.Accepted? {
        subjects := subjects + [v.request];
      }
    }
    assert vs[..|entries|] == vs;
  }

  /** One more verdict adds its request or its name, or nothing for a blank row. */
  lemma CollectStep(vs: seq<EntryVerdict>, i: nat)
    requires i < |vs|
    ensures AcceptedOf(vs[..i + 1]) == AcceptedOf(vs[..i]) + (if vs[i].Accepted? then [vs[i].request] else [])
    ensures RejectedOf(vs[..i + 1]) == RejectedOf(vs[..i]) + (if vs[i].Rejected? then [vs[i].name] else [])
  {
    assert vs[..i + 1][..i] == vs[..i];
  }

  /** Every accepted subject is on the allow-list once lower-cased again, with its own difficulty. */
  lemma {:induction false} AcceptedAreListed(vs: seq<EntryVerdict>)
    requires forall k :: 0 <= k < |vs| ==> vs[k].Accepted? ==> Lower(vs[k].request.name) in ValidSubjects
    ensures forall k :: 0 <= k < |AcceptedOf(vs)| ==> Lower(AcceptedOf(vs)[k].name) in ValidSubjects
  {
    if vs != [] {
      AcceptedAreListed(vs[..|vs| - 1]);
    }
  }

  lemma {:induction false} RejectedAreUnlisted(vs: seq<EntryVerdict>)
    requires forall k :: 0 <= k < |vs| ==> vs[k].Rejected? ==> vs[k].name !in ValidSubjects
    ensures forall k :: 0 <= k < |RejectedOf(vs)| ==> RejectedOf(vs)[k] !in ValidSubjects
  {
    if vs != [] {
      RejectedAreUnlisted(vs[..|vs| - 1]);
    }
  }

  /** What the form collects is checked: accepted names are listed, reported names are not. */
  lemma CollectedAreChecked(entries: seq<(string, Difficulty)>)
    ensures forall k :: 0 <= k < |AcceptedRequests(entries)| ==> Lower(AcceptedRequests(entries)[k].name) in ValidSubjects
    ensures forall k :: 0 <= k < |RejectedNames(entries)| ==> RejectedNames(entries)[k] !in ValidSubjects
  {
    var vs := Verdicts(entries);
    forall k | 0 <= k < |vs|
      ensures vs[k].Accepted? ==> Lower(vs[k].request.name) in ValidSubjects
      ensures vs[k].Rejected? ==> vs[k].name !in ValidSubjects
    {
      MapSeqAt(CheckRow, entries, k);
      CheckEntryVerdict(entries[k].0, entries[k].1);
    }
    AcceptedAreListed(vs);
    RejectedAreUnlisted(vs);
  }

  /** The verdicts of a row's position end up among the collected subjects or reports. */
  lemma {:induction false} VerdictCollected(vs: seq<EntryVerdict>, k: nat)
    requires k < |vs|
    ensures vs[k].Accepted? ==> vs[k].request in AcceptedOf(vs)
    ensures vs[k].Rejected? ==> vs[k].name in RejectedOf(vs)
  {
    if k < |vs| - 1 {
      assert vs[..|vs| - 1][k] == vs[k];
      VerdictCollected(vs[..|vs| - 1], k);
    }
  }

  /**
   * Nothing listed is lost: a row whose stripped, lower-cased name is on the list is
   * collected in capitalised form with its difficulty, and a non-blank row whose name is
   * not on the list is reported under that name.
   */
  lemma ListedAreCollected(entries: seq<(string, Difficulty)>, k: nat)
    requires k < |entries|
    ensures var n := Lower(Strip(entries[k].0));
      n in ValidSubjects ==> SubjectRequest(Capitalize(n), entries[k].1) in AcceptedRequests(entries)
    ensures var n := Lower(Strip(entries[k].0));
      n != [] && n !in ValidSubjects ==> n in RejectedNames(entries)
  {
    var vs := Verdicts(entries);
    MapSeqAt(CheckRow, entries, k);
    CheckEntryVerdict(entries[k].0, entries[k].1);
    VerdictCollected(vs, k);
  }

  lemma {:induction false} AcceptedOfAppend(v1: seq<EntryVerdict>, v2: seq<EntryVerdict>)
    ensures AcceptedOf(v1 + v2) == AcceptedOf(v1) + AcceptedOf(v2)
    ensures RejectedOf(v1 + v2) == RejectedOf(v1) + RejectedOf(v2)
    decreases |v2|
  {
    if v2 == [] {
      assert v1 + v2 == v1;
    } else {
      var v := v1 + v2;
      var v2' := v2[..|v2| - 1];
      assert v[..|v| - 1] == v1 + v2';
      assert v[|v| - 1] == v2[|v2| - 1];
      AcceptedOfAppend(v1, v2');
    }
  }

  /** Validation is per row: a blank or invalid row does not change what the other rows contribute. */
  lemma CollectAppend(e1: seq<(string, Difficulty)>, e2: seq<(string, Difficulty)>)
    ensures AcceptedRequests(e1 + e2) == AcceptedRequests(e1) + AcceptedRequests(e2)
    ensures RejectedNames(e1 + e2) == RejectedNames(e1) + RejectedNames(e2)
  {
    MapSeqAppend(CheckRow, e1, e2);
    AcceptedOfAppend(Verdicts(e1), Verdicts(e2));
  }

  // ---------------------------------------------------------------------------
  // generate_study_plan

  /** One row of the plan: the day offset from today (1 is tomorrow) and subject -> rendered time. */
  datatype DayRow = DayRow(offset: nat, allocations: map<string, string>)

  /** Either the single past-date error, or the rows of the plan. */
  datatype PlanResult = PastDate | Plan(rows: seq<DayRow>)

  /** Sum of difficulty weights over the requested subjects (a repeated name counts each time). */
  function TotalWeight(subjects: seq<SubjectRequest>): (t: nat)
    ensures |subjects| <= t <= 3 * |subjects|
  {
    if subjects == [] then 0
    else TotalWeight(subjects[..|subjects| - 1]) + Weight(subjects[|subjects| - 1].difficulty)
  }

  /** The exact time given to a subject of weight w: daily_hours * w / total_weight. */
  function Share(dailyHours: int, w: nat, total: nat): (x: real)
    requires total > 0
    ensures x * total as real == (dailyHours * w) as real
    ensures dailyHours >= 0 ==> 0.0 <= x
    ensures dailyHours >= 0 && w <= total ==> x <= dailyHours as real
  {
    (dailyHours * w) as real / total as real
  }

  /** The row the inner loop builds after the given prefix of subjects: later names overwrite earlier ones. */
  function AllocationRow(prefix: seq<SubjectRequest>, dailyHours: int, total: nat): map<string, string>
    requires prefix != [] ==> total > 0
  {
    if prefix == [] then map[]
    else
      var s := prefix[|prefix| - 1];
      AllocationRow(prefix[..|prefix| - 1], dailyHours, total)[s.name := FormatTime(Share(dailyHours, Weight(s.difficulty), total))]
  }

  /** The allocations of every day of the plan. */
  function DayAllocations(subjects: seq<SubjectRequest>, dailyHours: int): map<string, string> {
    AllocationRow(subjects, dailyHours, TotalWeight(subjects))
  }

  /** generate_study_plan with today's distance to the exam given as daysLeft. */
  method GenerateStudyPlan(subjects: seq<SubjectRequest>, daysLeft: int, dailyHours: int) returns (r: PlanResult)
    ensures r.PastDate? <==> daysLeft <= 0
    ensures r.Plan? ==> |r.rows| == daysLeft
    ensures r.Plan? ==> forall k :: 0 <= k < |r.rows| ==> r.rows[k] == DayRow(k + 1, DayAllocations(subjects, dailyHours))
  {
    if daysLeft <= 0 {
      return PastDate;
    }
    var total := TotalWeight(subjects);
    var plan: seq<DayRow> := [];
    for day := 1 to daysLeft + 1
      invariant |plan| == day - 1
      invariant forall k :: 0 <= k < |plan| ==> plan[k] == DayRow(k + 1, DayAllocations(subjects, dailyHours))
    {
      var row: map<string, string> := map[];
      for j := 0 to |subjects|
        invariant row == AllocationRow(subjects[..j], dailyHours, total)
      {
        var s := subjects[j];
        assert subjects[..j + 1][..j] == subjects[..j];
        var share := Share(dailyHours, Weight(s.difficulty), total);
        row := row[s.name := FormatTime(share)];
      }
      assert subjects[..|subjects|] == subjects;
      plan := plan + [DayRow(day, row)];
    }
    return Plan(plan);
  }

  /** The row has exactly one key per distinct subject name. */
  lemma {:induction false} AllocationRowKeys(prefix: seq<SubjectRequest>, dailyHours: int, total: nat)
    requires prefix != [] ==> total > 0
    ensures AllocationRow(prefix, dailyHours, total).Keys == set i | 0 <= i < |prefix| :: prefix[i].name
  {
    if prefix != [] {
      var p := prefix[..|prefix| - 1];
      AllocationRowKeys(p, dailyHours, total);
      var s1 := set i | 0 <= i < |prefix| :: prefix[i].name;
      var s0 := set i | 0 <= i < |p| :: p[i].name;
      assert s1 == s0 + {prefix[|prefix| - 1].name} by {
        forall n | n in s1 ensures n in s0 + {prefix[|prefix| - 1].name} {
          var i :| 0 <= i < |prefix| && prefix[i].name == n;
          if i < |p| { assert p[i] == prefix[i]; }
        }
        forall n | n in s0 ensures n in s1 {
          var i :| 0 <= i < |p| && p[i].name == n;
          assert prefix[i] == p[i];
        }
      }
    }
  }

  /** The last occurrence of a name in the list. */
  predicate IsLastOccurrence(subjects: seq<SubjectRequest>, i: nat)
    requires i < |subjects|
  {
    forall k :: i < k < |subjects| ==> subjects[k].name != subjects[i].name
  }

  /** Each name carries the exact share of its last occurrence, rendered by format_time. */
  lemma {:induction false} AllocationRowValue(prefix: seq<SubjectRequest>, dailyHours: int, total: nat, i: nat)
    requires total > 0
    requires i < |prefix| && IsLastOccurrence(prefix, i)
    ensures prefix[i].name in AllocationRow(prefix, dailyHours, total)
    ensures AllocationRow(prefix, dailyHours, total)[prefix[i].name]
         == FormatTime(Share(dailyHours, Weight(prefix[i].difficulty), total))
  {
    var n := |prefix| - 1;
    if i < n {
      var p := prefix[..n];
      assert p[i] == prefix[i];
      assert IsLastOccurrence(p, i) by {
        forall k | i < k < |p| ensures p[k].name != p[i].name {
          assert p[k] == prefix[k];
        }
      }
      AllocationRowValue(p, dailyHours, total, i);
      assert prefix[n].name != prefix[i].name;
    }
  }

  /** Sum of the exact shares over the list of subjects (before rendering). */
  function ShareTotal(prefix: seq<SubjectRequest>, dailyHours: int, total: nat): real
    requires total > 0
  {
    if prefix == [] then 0.0
    else ShareTotal(prefix[..|prefix| - 1], dailyHours, total) + Share(dailyHours, Weight(prefix[|prefix| - 1].difficulty), total)
  }

  lemma DivAdd(a: real, b: real, t: real)
    requires t != 0.0
    ensures a / t + b / t == (a + b) / t
  {
  }

  lemma ShareStep(h: int, tw: nat, w: nat, t: nat)
    requires t > 0
    ensures (h * tw) as real / t as real + (h * w) as real / t as real == (h * (tw + w)) as real / t as real
  {
    assert h * (tw + w) == h * tw + h * w;
    DivAdd((h * tw) as real, (h * w) as real, t as real);
  }

  lemma {:induction false} ShareTotalIsProportional(prefix: seq<SubjectRequest>, dailyHours: int, total: nat)
    requires total > 0
    ensures ShareTotal(prefix, dailyHours, total) == (dailyHours * TotalWeight(prefix)) as real / total as real
  {
    if prefix != [] {
      var p := prefix[..|prefix| - 1];
      var w := Weight(prefix[|prefix| - 1].difficulty);
      ShareTotalIsProportional(p, dailyHours, total);
      assert TotalWeight(prefix) == TotalWeight(p) + w;
      ShareStep(dailyHours, TotalWeight(p), w, total);
    }
  }

  lemma MulDivCancel(h: int, t: nat)
    requires t > 0
    ensures (h * t) as real / t as real == h as real
  {
    assert (h * t) as real == h as real * t as real;
  }

  /** The exact shares of a day add up to the daily budget. */
  lemma SharesSumToDailyHours(subjects: seq<SubjectRequest>, dailyHours: int)
    requires subjects != []
    ensures ShareTotal(subjects, dailyHours, TotalWeight(subjects)) == dailyHours as real
  {
    ShareTotalIsProportional(subjects, dailyHours, TotalWeight(subjects));
    MulDivCancel(dailyHours, TotalWeight(subjects));
  }

  /** Shares follow the weights: share_i * w_j == share_j * w_i. */
  lemma SharesProportionalToWeights(dailyHours: int, wi: nat, wj: nat, total: nat)
    requires total > 0
    ensures Share(dailyHours, wi, total) * wj as real == Share(dailyHours, wj, total) * wi as real
  {
    var h, t := dailyHours as real, total as real;
    calc {
      Share(dailyHours, wi, total) * wj as real;
      (h * wi as real / t) * wj as real;
      (h * wj as real / t) * wi as real;
      Share(dailyHours, wj, total) * wi as real;
    }
  }

  /** A single subject receives the whole daily budget. */
  lemma SingleSubjectGetsAll(s: SubjectRequest, dailyHours: int)
    ensures DayAllocations([s], dailyHours) == map[s.name := FormatTime(dailyHours as real)]
  {
    var w := Weight(s.difficulty);
    assert [s][..0] == [];
    assert TotalWeight([s]) == w;
    MulDivCancel(dailyHours, w);
    var x := Share(dailyHours, w, w);
    assert x == dailyHours as real;
    assert AllocationRow([s], dailyHours, w) == map[][s.name := FormatTime(x)];
  }

  /** Thirty minutes are rendered as the digits 3 and 0. */
  lemma ThirtyDigits()
    ensures IntToString(30) == "30"
  {
    assert NatToString(30) == NatToString(3) + [DigitChar(0)];
  }

  /** Maths (weight 3 of 4) at 6 hours a day: 4.5 hours. */
  lemma MathsShare()
    ensures FormatTime(Share(6, 3, 4)) == "4 hrs 30 mins"
  {
    var x := Share(6, 3, 4);
    assert x == 4.5;
    assert Trunc(x) == 4 && Minutes(x) == 30;
    ThirtyDigits();
    assert Render(4, 30) == "4" + " hrs " + "30" + " mins";
  }

  /** English (weight 1 of 4) at 6 hours a day: 1.5 hours. */
  lemma EnglishShare()
    ensures FormatTime(Share(6, 1, 4)) == "1 hrs 30 mins"
  {
    var x := Share(6, 1, 4);
    assert x == 1.5;
    assert Trunc(x) == 1 && Minutes(x) == 30;
    ThirtyDigits();
    assert Render(1, 30) == "1" + " hrs " + "30" + " mins";
  }

  /** The two-subject example: Maths (Hard) and English (Easy) at 6 hours a day. */
  lemma TwoSubjectExample()
    ensures DayAllocations([SubjectRequest("Maths", Hard), SubjectRequest("English", Easy)], 6)
         == map["Maths" := "4 hrs 30 mins", "English" := "1 hrs 30 mins"]
  {
    var ss := [SubjectRequest("Maths", Hard), SubjectRequest("English", Easy)];
    assert ss[..1] == [ss[0]];
    assert ss[..1][..0] == [];
    assert TotalWeight(ss) == 4 by {
      assert TotalWeight(ss[..1]) == 3;
    }
    MathsShare();
    EnglishShare();
    assert AllocationRow(ss[..1], 6, 4) == map["Maths" := "4 hrs 30 mins"];
  }
}

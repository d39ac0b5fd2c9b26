/** The gestational dating and vaccine-window engine of lib/utils/pregnancy.ts.

    Instants are integer milliseconds since the epoch, the value `Date.getTime()`
    returns, and the current instant `now` is a parameter instead of a read of the
    clock. A calendar date for month arithmetic is a (year, month, day) triple. */
module Pregnancy {
  import opened Text

  /** `1000 * 60 * 60 * 24`, the divisor that turns milliseconds into days. */
  const MsPerDay: int := 86_400_000

  // ===========================================================================
  // Gestational dating
  // ===========================================================================

  /** daysUntilDueDate: `Math.ceil((due - now) / MsPerDay)`, written as the negated
      floor of the negated difference. It is 0 from the due instant until a whole day
      after it, and negative from then on. */
  function DaysUntilDueDate(due: int, now: int): (days: int)
    ensures MsPerDay * (days - 1) < due - now <= MsPerDay * days
  {
    -((now - due) / MsPerDay)
  }

  /** The week before clamping: 40 minus the whole weeks (rounded down) still to go,
      where the days to go are rounded up as daysUntilDueDate rounds them. */
  function UnclampedWeek(due: int, now: int): int {
    40 - DaysUntilDueDate(due, now) / 7
  }

  /** calculateCurrentWeek: `Math.max(1, Math.min(42, week))`. */
  function CurrentWeek(due: int, now: int): (week: int)
    ensures 1 <= week <= 42
  {
    var w := UnclampedWeek(due, now);
    var capped := if w < 42 then w else 42;
    if capped > 1 then capped else 1
  }

  /** calculateCurrentWeek agrees with daysUntilDueDate at the same instant: the week
      is 40 minus the floored weeks of that many days, clamped to [1, 42]. */
  lemma WeekFromDaysUntilDue(due: int, now: int)
    ensures var w := 40 - DaysUntilDueDate(due, now) / 7;
              CurrentWeek(due, now) == if w < 1 then 1 else if w > 42 then 42 else w
  {
  }

  /** On the due date itself the pregnancy is in week 40. */
  lemma WeekAtDueDate(t: int)
    ensures DaysUntilDueDate(t, t) == 0
    ensures CurrentWeek(t, t) == 40
  {
  }

  /** Moving the due date seven days later lowers the unclamped week by exactly one. */
  lemma {:induction false} WeekStepsDown(due: int, now: int)
    ensures DaysUntilDueDate(due + 7 * MsPerDay, now) == DaysUntilDueDate(due, now) + 7
    ensures UnclampedWeek(due + 7 * MsPerDay, now) == UnclampedWeek(due, now) - 1
  {
    var d := DaysUntilDueDate(due, now);
    var e := DaysUntilDueDate(due + 7 * MsPerDay, now);
    assert MsPerDay * (d + 7 - 1) < due + 7 * MsPerDay - now <= MsPerDay * (d + 7);
    CeilUnique(due + 7 * MsPerDay - now, e, d + 7);
    assert (d + 7) / 7 == d / 7 + 1;
  }

  /** The quotient characterised by DaysUntilDueDate's bounds is unique. */
  lemma CeilUnique(x: int, a: int, b: int)
    requires MsPerDay * (a - 1) < x <= MsPerDay * a
    requires MsPerDay * (b - 1) < x <= MsPerDay * b
    ensures a == b
  {
  }

  /** The week shown for a given number of days to go: week `w` is shown exactly when
      the days to go lie in [7 * (40 - w), 7 * (41 - w)), where week 1 absorbs every
      longer wait and week 42 every later overdue day. */
  lemma WeekBands(due: int, now: int, w: int)
    requires 1 <= w <= 42
    ensures CurrentWeek(due, now) == w <==>
              var days := DaysUntilDueDate(due, now);
              (w == 1 || days < 7 * (41 - w)) && (w == 42 || 7 * (40 - w) <= days)
  {
  }

  /** A later due date never shows a later week. */
  lemma WeekMonotoneInDueDate(due1: int, due2: int, now: int)
    requires due1 <= due2
    ensures DaysUntilDueDate(due1, now) <= DaysUntilDueDate(due2, now)
    ensures CurrentWeek(due2, now) <= CurrentWeek(due1, now)
  {
    var d1, d2 := DaysUntilDueDate(due1, now), DaysUntilDueDate(due2, now);
    assert d1 <= d2;
    assert d1 / 7 <= d2 / 7;
  }

  /** As time passes the shown week never goes back. */
  lemma WeekMonotoneInTime(due: int, now1: int, now2: int)
    requires now1 <= now2
    ensures CurrentWeek(due, now1) <= CurrentWeek(due, now2)
  {
    var d1, d2 := DaysUntilDueDate(due, now1), DaysUntilDueDate(due, now2);
    assert d2 <= d1;
    assert d2 / 7 <= d1 / 7;
  }

  // ===========================================================================
  // Trimester
  // ===========================================================================

  type Trimester = t: int | 1 <= t <= 3 witness 1

  /** calculateTrimester: weeks up to 13 are the first trimester, 14 to 27 the second,
      28 on the third; total over all integers. */
  function TrimesterOf(week: int): (t: Trimester)
    ensures t == 1 <==> week <= 13
    ensures t == 2 <==> 14 <= week <= 27
    ensures t == 3 <==> 28 <= week
  {
    if week <= 13 then 1
    else if week <= 27 then 2
    else 3
  }

  /** The trimester never decreases as the week grows. */
  lemma TrimesterMonotone(a: int, b: int)
    requires a <= b
    ensures TrimesterOf(a) <= TrimesterOf(b)
  {
  }

  // ===========================================================================
  // Postpartum
  // ===========================================================================

  /** isPostpartum: the whole days elapsed since the due date (rounded down) are in
      [0, 45]; equivalently, `now` lies in the 46 days that start at the due date. */
  function IsPostpartum(due: int, now: int): (b: bool)
    ensures b <==> 0 <= now - due < 46 * MsPerDay
  {
    var daysSinceDue := (now - due) / MsPerDay;
    daysSinceDue >= 0 && daysSinceDue <= 45
  }

  /** The same window read through daysUntilDueDate: between 45 days overdue and the due date. */
  lemma PostpartumByDaysUntilDue(due: int, now: int)
    ensures IsPostpartum(due, now) <==> -45 <= DaysUntilDueDate(due, now) <= 0
  {
  }

  /** The edges of the window: it opens at the due date and closes 46 days later;
      one millisecond before the due date (elapsed day -1) is outside. */
  lemma PostpartumEdges(due: int)
    ensures !IsPostpartum(due, due - 1)
    ensures IsPostpartum(due, due)
    ensures IsPostpartum(due, due + 46 * MsPerDay - 1)
    ensures !IsPostpartum(due, due + 46 * MsPerDay)
  {
  }

  // ===========================================================================
  // Recommended window (isInIdealWindow)
  // ===========================================================================

  /** The regular expression `(\d+)-(\d+)` matches at `i`. A match always takes whole
      digit runs: a shorter first group would leave a digit where the hyphen must be,
      and the second group is greedy with nothing after it. */
  predicate RangeAt(s: string, i: nat) {
    i < |s| && IsDigit(s[i]) &&
    var j := RunEnd(s, i);
    j + 1 < |s| && s[j] == '-' && IsDigit(s[j + 1])
  }

  /** The first group of a `(\d+)-(\d+)` match at `i`. */
  function RangeLow(s: string, i: nat): nat
    requires RangeAt(s, i)
  {
    NumberAt(s, i)
  }

  /** The second group of a `(\d+)-(\d+)` match at `i`. */
  function RangeHigh(s: string, i: nat): nat
    requires RangeAt(s, i)
  {
    NumberAt(s, RunEnd(s, i) + 1)
  }

  /** The regular expression `partir de (\d+)` matches at `i`. */
  predicate FromAt(s: string, i: nat) {
    OccursAt(s, "partir de ", i) && i + 10 < |s| && IsDigit(s[i + 10])
  }

  /** The group of a `partir de (\d+)` match at `i`. */
  function FromWeek(s: string, i: nat): nat
    requires FromAt(s, i)
  {
    NumberAt(s, i + 10)
  }

  predicate LeftmostRangeAt(s: string, i: nat) {
    RangeAt(s, i) && forall j: nat :: j < i ==> !RangeAt(s, j)
  }

  predicate LeftmostFromAt(s: string, i: nat) {
    FromAt(s, i) && forall j: nat :: j < i ==> !FromAt(s, j)
  }

  /** `s.match(/(\d+)-(\d+)/)`: the position of the first match, if any. */
  function FindRange(s: string): (r: Option<nat>)
    ensures r.Some? ==> LeftmostRangeAt(s, r.value)
    ensures r.None? ==> forall i: nat :: !RangeAt(s, i)
  {
    var matches := (i: nat) => RangeAt(s, i);
    assert forall i: nat :: matches(i) == RangeAt(s, i);
    FirstWhere(matches, 0, |s|)
  }

  /** `s.match(/partir de (\d+)/)`: the position of the first match, if any. */
  function FindFrom(s: string): (r: Option<nat>)
    ensures r.Some? ==> LeftmostFromAt(s, r.value)
    ensures r.None? ==> forall i: nat :: !FromAt(s, i)
  {
    var matches := (i: nat) => FromAt(s, i);
    assert forall i: nat :: matches(i) == FromAt(s, i);
    FirstWhere(matches, 0, |s|)
  }

  /** An optional string read as JavaScript does in `!recommendedWeeks`: absent and
      empty are the same falsy value. */
  function OrEmpty(o: Option<string>): string {
    match o
    case None => ""
    case Some(s) => s
  }

  /** Neither of the two keywords decides a non-empty window text. */
  predicate PastKeywords(s: string) {
    s != "" && !Includes(s, "Qualquer") && !Includes(s, "NÃO")
  }

  /** isInIdealWindow: the six cases in the order the source checks them. */
  function IsInIdealWindow(currentWeek: int, recommendedWeeks: Option<string>): (r: bool)
    // 1. absent or empty text
    ensures OrEmpty(recommendedWeeks) == "" ==> !r
    // 2. "Qualquer" wins, even over "NÃO"
    ensures var s := OrEmpty(recommendedWeeks);
              s != "" && (exists i: nat :: OccursAt(s, "Qualquer", i)) ==> r
    // 3. otherwise "NÃO" refuses
    ensures var s := OrEmpty(recommendedWeeks);
              s != "" && !Includes(s, "Qualquer") && (exists i: nat :: OccursAt(s, "NÃO", i)) ==> !r
    // 4. otherwise the first `A-B` decides, before any `partir de N`
    ensures var s := OrEmpty(recommendedWeeks);
              PastKeywords(s) ==>
                forall i: nat :: LeftmostRangeAt(s, i) ==>
                  (r <==> RangeLow(s, i) <= currentWeek <= RangeHigh(s, i))
    // 5. otherwise the first `partir de N` decides
    ensures var s := OrEmpty(recommendedWeeks);
              PastKeywords(s) && (forall i: nat :: !RangeAt(s, i)) ==>
                forall i: nat :: LeftmostFromAt(s, i) ==> (r <==> currentWeek >= FromWeek(s, i))
    // 6. otherwise false
    ensures var s := OrEmpty(recommendedWeeks);
              PastKeywords(s) && (forall i: nat :: !RangeAt(s, i)) && (forall i: nat :: !FromAt(s, i)) ==> !r
  {
    var s := OrEmpty(recommendedWeeks);
    if s == "" then false
    else if Includes(s, "Qualquer") then true
    else if Includes(s, "NÃO") then false
    else match FindRange(s)
      case Some(i) => currentWeek >= RangeLow(s, i) && currentWeek <= RangeHigh(s, i)
      case None =>
        match FindFrom(s)
        case Some(i) => currentWeek >= FromWeek(s, i)
        case None => false
  }

  /** A range text: weeks 28 to 36 inclusive. */
  lemma RangeWindowExample()
    ensures IsInIdealWindow(30, Some("28-36 semanas"))
    ensures !IsInIdealWindow(27, Some("28-36 semanas"))
  {
    var s := "28-36 semanas";
    forall k | 0 <= k < |s| ensures s[k] != 'Q' && s[k] != 'N' {}
    ExcludesFirstChar(s, "Qualquer");
    ExcludesFirstChar(s, "NÃO");
    assert RunEnd(s, 2) == 2;
    assert RunEnd(s, 0) == 2;
    assert RunEnd(s, 5) == 5;
    assert RunEnd(s, 3) == 5;
    assert s[0..2] == "28" && s[3..5] == "36";
    assert "28"[..1] == "2" && "36"[..1] == "3";
    assert DigitsValue("2") == 2 && DigitsValue("28") == 28;
    assert DigitsValue("3") == 3 && DigitsValue("36") == 36;
    assert LeftmostRangeAt(s, 0);
    assert RangeLow(s, 0) == 28 && RangeHigh(s, 0) == 36;
  }

  /** A "starting from" text: week 18 on. */
  lemma FromWindowExample()
    ensures IsInIdealWindow(20, Some("A partir de 18ª semana"))
    ensures !IsInIdealWindow(10, Some("A partir de 18ª semana"))
  {
    var s := "A partir de 18ª semana";
    FromTextKeywords(s);
    FromTextHasNoRange(s);
    FromTextStart(s);
  }

  lemma FromTextKeywords(s: string)
    requires s == "A partir de 18ª semana"
    ensures PastKeywords(s)
  {
    forall k | 0 <= k < |s| ensures s[k] != 'Q' && s[k] != 'N' {}
    ExcludesFirstChar(s, "Qualquer");
    ExcludesFirstChar(s, "NÃO");
  }

  lemma FromTextHasNoRange(s: string)
    requires s == "A partir de 18ª semana"
    ensures forall i: nat :: !RangeAt(s, i)
  {
    forall k | 0 <= k < |s| ensures IsDigit(s[k]) <==> k == 12 || k == 13 {}
    assert RunEnd(s, 14) == 14;
    assert RunEnd(s, 13) == 14;
    assert RunEnd(s, 12) == 14;
    forall i: nat ensures !RangeAt(s, i) {
      if i < |s| && IsDigit(s[i]) {
        assert i == 12 || i == 13;
      }
    }
  }

  lemma FromTextStart(s: string)
    requires s == "A partir de 18ª semana"
    ensures LeftmostFromAt(s, 2) && FromWeek(s, 2) == 18
  {
    assert s[2..12] == "partir de ";
    assert s[0] == 'A';
    assert s[1] == ' ';
    assert !OccursAt(s, "partir de ", 0) by {
      assert s[0..10][0] == s[0];
    }
    assert !OccursAt(s, "partir de ", 1) by {
      assert s[1..11][0] == s[1];
    }
    assert RunEnd(s, 14) == 14;
    assert RunEnd(s, 13) == 14;
    assert RunEnd(s, 12) == 14;
    assert s[12..14] == "18" && "18"[..1] == "1";
    assert DigitsValue("1") == 1 && DigitsValue("18") == 18;
  }

  /** "Qualquer" accepts any week; an absent text accepts none. */
  lemma KeywordWindowExample()
    ensures IsInIdealWindow(5, Some("Qualquer momento"))
    ensures !IsInIdealWindow(20, None)
  {
    var s := "Qualquer momento";
    assert s[0..8] == "Qualquer";
    assert OccursAt(s, "Qualquer", 0);
  }

  // ===========================================================================
  // Next dose (calculateNextDoseDate)
  // ===========================================================================

  /** A calendar date; `month` is 0-based, as `Date.getMonth()` returns it. */
  datatype CalDate = CalDate(year: int, month: int, day: int)

  /** `next.setMonth(next.getMonth() + n)`: the month count carries into the year
      (floored, so a negative count borrows from it); the day of the month is kept. */
  function AddMonths(d: CalDate, n: int): (r: CalDate)
    ensures 0 <= r.month < 12 && r.day == d.day
    ensures 12 * r.year + r.month == 12 * d.year + d.month + n
  {
    var m := d.month + n;
    CalDate(d.year + m / 12, m % 12, d.day)
  }

  /** Two dates with months in range are equal when their month counts and days agree. */
  lemma SameMonthCount(a: CalDate, b: CalDate)
    requires 0 <= a.month < 12 && 0 <= b.month < 12 && a.day == b.day
    requires 12 * a.year + a.month == 12 * b.year + b.month
    ensures a == b
  {
  }

  /** Adding no months to a well-formed date leaves it unchanged. */
  lemma AddNoMonths(d: CalDate)
    requires 0 <= d.month < 12
    ensures AddMonths(d, 0) == d
  {
    SameMonthCount(AddMonths(d, 0), d);
  }


  /** The regular expression `(\d+)-(\d+) meses` matches at `i`. */
  predicate MonthRangeAt(s: string, i: nat) {
    RangeAt(s, i) && OccursAt(s, " meses", RunEnd(s, RunEnd(s, i) + 1))
  }

  /** The regular expression `(\d+) meses` matches at `i`. */
  predicate MonthsAt(s: string, i: nat) {
    i < |s| && IsDigit(s[i]) && OccursAt(s, " meses", RunEnd(s, i))
  }

  predicate LeftmostMonthRangeAt(s: string, i: nat) {
    MonthRangeAt(s, i) && forall j: nat :: j < i ==> !MonthRangeAt(s, j)
  }

  predicate LeftmostMonthsAt(s: string, i: nat) {
    MonthsAt(s, i) && forall j: nat :: j < i ==> !MonthsAt(s, j)
  }

  function FindMonthRange(s: string): (r: Option<nat>)
    ensures r.Some? ==> LeftmostMonthRangeAt(s, r.value)
    ensures r.None? ==> forall i: nat :: !MonthRangeAt(s, i)
  {
    var matches := (i: nat) => MonthRangeAt(s, i);
    assert forall i: nat :: matches(i) == MonthRangeAt(s, i);
    FirstWhere(matches, 0, |s|)
  }

  function FindMonths(s: string): (r: Option<nat>)
    ensures r.Some? ==> LeftmostMonthsAt(s, r.value)
    ensures r.None? ==> forall i: nat :: !MonthsAt(s, i)
  {
    var matches := (i: nat) => MonthsAt(s, i);
    assert forall i: nat :: matches(i) == MonthsAt(s, i);
    FirstWhere(matches, 0, |s|)
  }

  /** Every `A-B meses` match contains an `N meses` match, at its second group. */
  lemma MonthRangeHasMonths(s: string, i: nat)
    requires MonthRangeAt(s, i)
    ensures MonthsAt(s, RunEnd(s, i) + 1)
  {
  }

  /** calculateNextDoseDate: the first `A-B meses` adds A months; failing that the first
      `N meses` adds N; with neither there is no next dose. */
  function NextDoseDate(lastDose: CalDate, interval: string): (next: Option<CalDate>)
    ensures next.None? <==> forall i: nat :: !MonthsAt(interval, i)
    ensures forall i: nat :: LeftmostMonthRangeAt(interval, i) ==>
              next == Some(AddMonths(lastDose, NumberAt(interval, i)))
    ensures (forall i: nat :: !MonthRangeAt(interval, i)) ==>
              forall i: nat :: LeftmostMonthsAt(interval, i) ==>
                next == Some(AddMonths(lastDose, NumberAt(interval, i)))
  {
    match FindMonthRange(interval)
    case Some(i) =>
      MonthRangeHasMonths(interval, i);
      Some(AddMonths(lastDose, NumberAt(interval, i)))
    case None =>
      match FindMonths(interval)
      case Some(i) => Some(AddMonths(lastDose, NumberAt(interval, i)))
      case None => None
  }

  /** `6-12 meses` adds the first bound, 6 months. */
  lemma NextDoseRangeExample(d: CalDate)
    ensures NextDoseDate(d, "6-12 meses") == Some(AddMonths(d, 6))
  {
    var s := "6-12 meses";
    assert RunEnd(s, 1) == 1;
    assert RunEnd(s, 0) == 1;
    assert RunEnd(s, 4) == 4;
    assert RunEnd(s, 2) == 4;
    assert s[4..10] == " meses";
    assert LeftmostMonthRangeAt(s, 0);
    assert s[0..1] == "6";
    assert NumberAt(s, 0) == 6;
  }

  /** `0-1-6 meses` has no `A-B meses` match at its start, since `0-1` is followed by
      `-6`; its leftmost match is `1-6 meses`, so one month is added, not zero. */
  lemma NextDoseThreeDoseExample(d: CalDate)
    ensures NextDoseDate(d, "0-1-6 meses") == Some(AddMonths(d, 1))
    ensures NextDoseDate(d, "0-1-6 meses") != Some(AddMonths(d, 0))
  {
    var s := "0-1-6 meses";
    assert RunEnd(s, 1) == 1;
    assert RunEnd(s, 0) == 1;
    assert RunEnd(s, 3) == 3;
    assert RunEnd(s, 2) == 3;
    assert RunEnd(s, 5) == 5;
    assert RunEnd(s, 4) == 5;
    assert !MonthRangeAt(s, 0);
    assert !IsDigit(s[1]);
    assert s[5..11] == " meses";
    assert LeftmostMonthRangeAt(s, 2);
    assert s[2..3] == "1";
    assert NumberAt(s, 2) == 1;
  }

  /** A text with no number before " meses" yields no next dose. */
  lemma NextDoseUnknownExample(d: CalDate)
    ensures NextDoseDate(d, "unknown") == None
  {
    var s := "unknown";
    forall k | 0 <= k < |s| ensures !IsDigit(s[k]) {}
  }

  // ===========================================================================
  // Messages and labels
  // ===========================================================================

  /** The alert kinds that have a template of their own. */
  const AlertKinds: set<string> := {"ideal_window", "next_dose", "overdue", "postpartum", "annual"}

  /** generateAlertMessage: one template per kind in AlertKinds and a reminder for any
      other kind; each opens with the symbol of its kind and runs past the name. */
  function AlertMessage(vaccineName: string, alertType: string, currentWeek: int): (msg: string)
    ensures |msg| > |vaccineName| && msg[0] == AlertMark(alertType)
  {
    if alertType == "ideal_window" then
      var head := "\U{1F3AF} Você está na janela ideal para a vacina ";
      var tail := vaccineName + "! (Semana " + IntToString(currentWeek) + ")";
      assert (head + tail)[0] == head[0];
      head + tail
    else if alertType == "next_dose" then
      "\U{1F489} Chegou a hora da próxima dose de " + vaccineName
    else if alertType == "overdue" then
      "\U{26A0}\U{FE0F} A vacina " + vaccineName + " está atrasada. Agende com seu médico!"
    else if alertType == "postpartum" then
      "\U{1F476} Vacina " + vaccineName + " disponível no puerpério (até 45 dias pós-parto)"
    else if alertType == "annual" then
      "\U{1F5D3}\U{FE0F} Chegou a época de vacinação anual: " + vaccineName
    else
      "Lembrete: " + vaccineName
  }

  /** Every alert names its vaccine. */
  lemma AlertNamesVaccine(vaccineName: string, alertType: string, currentWeek: int)
    ensures Includes(AlertMessage(vaccineName, alertType, currentWeek), vaccineName)
  {
    var m := AlertMessage(vaccineName, alertType, currentWeek);
    var prefix :=
      if alertType == "ideal_window" then "\U{1F3AF} Você está na janela ideal para a vacina "
      else if alertType == "next_dose" then "\U{1F489} Chegou a hora da próxima dose de "
      else if alertType == "overdue" then "\U{26A0}\U{FE0F} A vacina "
      else if alertType == "postpartum" then "\U{1F476} Vacina "
      else if alertType == "annual" then "\U{1F5D3}\U{FE0F} Chegou a época de vacinação anual: "
      else "Lembrete: ";
    assert m[|prefix|..|prefix| + |vaccineName|] == vaccineName;
    IncludesAt(m, vaccineName, |prefix|);
  }

  /** Only the ideal-window alert shows the week, as its week label. */
  lemma AlertWeekOnlyInIdealWindow(vaccineName: string, alertType: string, week1: int, week2: int)
    ensures alertType == "ideal_window" ==>
              Includes(AlertMessage(vaccineName, alertType, week1), WeekLabel(week1))
    ensures alertType != "ideal_window" ==>
              AlertMessage(vaccineName, alertType, week1) == AlertMessage(vaccineName, alertType, week2)
  {
    if alertType == "ideal_window" {
      var m := AlertMessage(vaccineName, alertType, week1);
      var k := |"\U{1F3AF} Você está na janela ideal para a vacina " + vaccineName + "! ("|;
      assert m[k..k + |WeekLabel(week1)|] == WeekLabel(week1);
      IncludesAt(m, WeekLabel(week1), k);
    }
  }

  /** The symbol an alert opens with, which tells its kind apart. */
  function AlertMark(alertType: string): char {
    if alertType == "ideal_window" then '\U{1F3AF}'
    else if alertType == "next_dose" then '\U{1F489}'
    else if alertType == "overdue" then '\U{26A0}'
    else if alertType == "postpartum" then '\U{1F476}'
    else if alertType == "annual" then '\U{1F5D3}'
    else 'L'
  }

  /** Alerts of different kinds never read the same, whatever the vaccine and weeks;
      every kind without a template of its own gets one and the same reminder. */
  lemma AlertKindsDistinct(vaccineName: string, type1: string, type2: string, week1: int, week2: int)
    ensures type1 in AlertKinds && type1 != type2 ==>
              AlertMessage(vaccineName, type1, week1) != AlertMessage(vaccineName, type2, week2)
    ensures type1 !in AlertKinds && type2 !in AlertKinds ==>
              AlertMessage(vaccineName, type1, week1) == AlertMessage(vaccineName, type2, week2)
  {
  }

  /** getTrimesterLabel: a lookup table whose entries are the ordinal and "Trimestre". */
  function TrimesterLabel(t: Trimester): (caption: string)
    ensures caption == NatToString(t) + "º Trimestre"
  {
    ["1º Trimestre", "2º Trimestre", "3º Trimestre"][t - 1]
  }

  /** getWeekLabel: `Semana ` and then the week as a decimal number, which opens with a
      digit exactly when the week is not negative. */
  function WeekLabel(week: int): (caption: string)
    ensures |caption| > 7 && caption[..7] == "Semana "
    ensures week >= 0 <==> IsDigit(caption[7])
  {
    "Semana " + IntToString(week)
  }

  /** Different weeks get different labels, and the number in a label reads back as the week. */
  lemma WeekLabelFaithful(a: int, b: int)
    ensures WeekLabel(a)[..7] == "Semana "
    ensures a >= 0 ==> AllDigits(WeekLabel(a)[7..]) && DigitsValue(WeekLabel(a)[7..]) == a
    ensures WeekLabel(a) == WeekLabel(b) ==> a == b
  {
    assert WeekLabel(a)[7..] == IntToString(a);
    assert WeekLabel(b)[7..] == IntToString(b);
    if a >= 0 {
      ParseNatToString(a);
    }
    if WeekLabel(a) == WeekLabel(b) {
      IntToStringInjective(a, b);
    }
  }

  // ===========================================================================
  // formatDateBR
  // ===========================================================================

  /** The argument of formatDateBR: `undefined`; a string, with the time value
      `new Date(text)` parses it to (None when the date is invalid); or a Date
      object with its time value (None when it is NaN). */
  datatype DateArg = Undefined | DateText(text: string, parsed: Option<int>) | DateObject(time: Option<int>)

  /** The time value formatDateBR formats, if any: None for a falsy argument or an
      invalid date. */
  function TimeToFormat(date: DateArg): Option<int> {
    match date
    case Undefined => None
    case DateText(text, parsed) => if text == "" then None else parsed
    case DateObject(time) => time
  }

  /** formatDateBR: a missing or invalid date shows as "-"; any other date is handed to
      the locale formatter, a parameter here. */
  function FormatDateBR(date: DateArg, formatPtBR: int -> string): (shown: string)
    ensures date.Undefined? ==> shown == "-"
    ensures date.DateText? && (date.text == "" || date.parsed.None?) ==> shown == "-"
    ensures date.DateObject? && date.time.None? ==> shown == "-"
    ensures TimeToFormat(date).Some? ==> shown == formatPtBR(TimeToFormat(date).value)
  {
    match date
    case Undefined => "-"
    case DateText(text, parsed) =>
      if text == "" then "-"
      else (match parsed case None => "-" case Some(t) => formatPtBR(t))
    case DateObject(time) =>
      match time case None => "-" case Some(t) => formatPtBR(t)
  }
}

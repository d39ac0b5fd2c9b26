/** The two rules the calendar page (app/calendario/page.tsx) applies to the catalogue:
    the status badge of each vaccine and the split of the catalogue by trimester. */
module Calendario {
  import opened Text
  import opened Types
  import Pregnancy

  // ===========================================================================
  // Status badge (getVaccineStatus)
  // ===========================================================================

  datatype Status = Completed | Contraindicated | Ideal | Pending

  /** The object getVaccineStatus returns; `caption` is its `label` field. */
  datatype StatusBadge = StatusBadge(status: Status, caption: string, color: string)

  /** The four badges the page can show; no two share a status. */
  const Badges: set<StatusBadge> := {
    StatusBadge(Completed, "Completa", "accent"),
    StatusBadge(Contraindicated, "Contraindicada", "red"),
    StatusBadge(Ideal, "Janela Ideal", "primary"),
    StatusBadge(Pending, "Pendente", "gray")
  }

  /** Some record of the user's is a dose of vaccine `id`. */
  predicate Recorded(records: seq<VaccineRecord>, id: string) {
    exists k :: 0 <= k < |records| && records[k].vaccineId == id
  }

  /** `records.some(r => r.vaccine_id === id)`. */
  function HasRecord(records: seq<VaccineRecord>, id: string): (b: bool)
    ensures b <==> Recorded(records, id)
  {
    if records == [] then false
    else if records[0].vaccineId == id then true
    else
      assert forall k :: 1 <= k < |records| ==> records[k] == records[1..][k - 1];
      HasRecord(records[1..], id)
  }

  /** getVaccineStatus, with the current week the page takes from its dashboard data:
      completed before contraindicated, before the ideal window, before pending. */
  function VaccineStatus(vaccine: Vaccine, records: seq<VaccineRecord>, currentWeek: int): (badge: StatusBadge)
    ensures badge in Badges
    ensures badge.status == Completed <==> Recorded(records, vaccine.id)
    ensures badge.status == Contraindicated <==>
              !Recorded(records, vaccine.id) && vaccine.contraindicated
    ensures badge.status == Ideal <==>
              && !Recorded(records, vaccine.id)
              && !vaccine.contraindicated
              && Pregnancy.IsInIdealWindow(currentWeek, vaccine.recommendedWeeks)
    ensures badge.status == Pending <==>
              && !Recorded(records, vaccine.id)
              && !vaccine.contraindicated
              && !Pregnancy.IsInIdealWindow(currentWeek, vaccine.recommendedWeeks)
  {
    if HasRecord(records, vaccine.id) then
      StatusBadge(Completed, "Completa", "accent")
    else if vaccine.contraindicated then
      StatusBadge(Contraindicated, "Contraindicada", "red")
    else if Pregnancy.IsInIdealWindow(currentWeek, vaccine.recommendedWeeks) then
      StatusBadge(Ideal, "Janela Ideal", "primary")
    else
      StatusBadge(Pending, "Pendente", "gray")
  }

  /** A status always comes with the same label and colour, whichever vaccine,
      records and week produced it. */
  lemma BadgeFollowsStatus(
    v1: Vaccine, records1: seq<VaccineRecord>, week1: int,
    v2: Vaccine, records2: seq<VaccineRecord>, week2: int)
    requires VaccineStatus(v1, records1, week1).status == VaccineStatus(v2, records2, week2).status
    ensures VaccineStatus(v1, records1, week1) == VaccineStatus(v2, records2, week2)
  {
  }

  // ===========================================================================
  // Grouping by trimester (vaccinesByTrimester)
  // ===========================================================================

  /** The four keys of vaccinesByTrimester: 1, 2, 3 and `any`. */
  datatype GroupKey = First | Second | Third | Any

  /** The test each `filter` applies: strict equality with 1, 2, 3 or null. */
  predicate InGroup(key: GroupKey, v: Vaccine) {
    match key
    case First => v.trimester == Number(1)
    case Second => v.trimester == Number(2)
    case Third => v.trimester == Number(3)
    case Any => v.trimester == Null
  }

  /** A vaccine that lands in some group. */
  predicate Grouped(v: Vaccine) {
    v.trimester == Null || v.trimester == Number(1) || v.trimester == Number(2) || v.trimester == Number(3)
  }

  /** One entry of vaccinesByTrimester: the catalogue filtered by the key's test. */
  function Group(vaccines: seq<Vaccine>, key: GroupKey): (g: seq<Vaccine>)
    ensures forall v :: v in g <==> v in vaccines && InGroup(key, v)
    ensures forall v :: multiset(g)[v] == if InGroup(key, v) then multiset(vaccines)[v] else 0
    ensures IsSubsequence(g, vaccines)
  {
    var test := (v: Vaccine) => InGroup(key, v);
    assert forall v :: test(v) == InGroup(key, v);
    Filter(vaccines, test)
  }

  datatype TrimesterGroups = TrimesterGroups(
    first: seq<Vaccine>, second: seq<Vaccine>, third: seq<Vaccine>, any: seq<Vaccine>)

  /** vaccinesByTrimester: the groups for trimester 1, 2 and 3 and for `any`, each
      holding every catalogue entry with that exact trimester value, copies included. */
  function GroupByTrimester(vaccines: seq<Vaccine>): (g: TrimesterGroups)
    ensures forall v :: multiset(g.first)[v] == if v.trimester == Number(1) then multiset(vaccines)[v] else 0
    ensures forall v :: multiset(g.second)[v] == if v.trimester == Number(2) then multiset(vaccines)[v] else 0
    ensures forall v :: multiset(g.third)[v] == if v.trimester == Number(3) then multiset(vaccines)[v] else 0
    ensures forall v :: multiset(g.any)[v] == if v.trimester == Null then multiset(vaccines)[v] else 0
  {
    TrimesterGroups(
      Group(vaccines, First), Group(vaccines, Second), Group(vaccines, Third), Group(vaccines, Any))
  }

  /** Each group keeps catalogue order, no vaccine is in two groups, a vaccine with
      trimester 1, 2, 3 or null is in its group, and one whose trimester is missing
      or any other number is in none. */
  lemma GroupsPartitionGroupedVaccines(vaccines: seq<Vaccine>, v: Vaccine)
    ensures var g := GroupByTrimester(vaccines);
              && IsSubsequence(g.first, vaccines) && IsSubsequence(g.second, vaccines)
              && IsSubsequence(g.third, vaccines) && IsSubsequence(g.any, vaccines)
    ensures var g := GroupByTrimester(vaccines);
              var count := (if v in g.first then 1 else 0) + (if v in g.second then 1 else 0)
                         + (if v in g.third then 1 else 0) + (if v in g.any then 1 else 0);
              count == if v in vaccines && Grouped(v) then 1 else 0
    ensures var g := GroupByTrimester(vaccines);
              && (v in vaccines && v.trimester == Number(1) ==> v in g.first)
              && (v in vaccines && v.trimester == Number(2) ==> v in g.second)
              && (v in vaccines && v.trimester == Number(3) ==> v in g.third)
              && (v in vaccines && v.trimester == Null ==> v in g.any)
  {
  }

  /** Filtering a non-empty catalogue: the first vaccine counts once if it passes. */
  lemma GroupUnfold(vaccines: seq<Vaccine>, key: GroupKey)
    requires vaccines != []
    ensures |Group(vaccines, key)| == (if InGroup(key, vaccines[0]) then 1 else 0) + |Group(vaccines[1..], key)|
  {
  }

  /** The groups together hold as many entries as the catalogue has grouped vaccines. */
  lemma {:induction false} GroupSizes(vaccines: seq<Vaccine>)
    ensures var g := GroupByTrimester(vaccines);
              |g.first| + |g.second| + |g.third| + |g.any| == |Filter(vaccines, Grouped)|
  {
    if vaccines != [] {
      GroupSizes(vaccines[1..]);
      GroupUnfold(vaccines, First);
      GroupUnfold(vaccines, Second);
      GroupUnfold(vaccines, Third);
      GroupUnfold(vaccines, Any);
    }
  }

  /** So the groups hold the whole catalogue exactly when every vaccine has a trimester
      of 1, 2, 3 or null. */
  lemma GroupsCoverCatalogue(vaccines: seq<Vaccine>)
    ensures var g := GroupByTrimester(vaccines);
              |g.first| + |g.second| + |g.third| + |g.any| == |vaccines| <==>
                forall v :: v in vaccines ==> Grouped(v)
  {
    GroupSizes(vaccines);
    FilterAllOrShorter(vaccines, Grouped);
  }
}

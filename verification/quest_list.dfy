/**
  The quest list screen's selection: the chosen region tab picks the candidate quests
  (all regions for "전체"), and quests already completed are filtered out.
 */
module QuestList {
  import opened Wrappers
  import opened OrderedMap
  import opened QuestModel
  import opened QuestRepository
  import opened Sequences

  const AllTab: string := "전체"

  const RegionTabs: seq<string> := [AllTab, "서구", "유성구", "중구", "동구", "대덕구"]

  /** The tab selected when the screen opens. */
  function InitialSelection(): (t: string)
    ensures t == RegionTabs[0] && t == AllTab
  {
    AllTab
  }

  /** The quests the selected tab offers before filtering. */
  function Candidates(regions: RegionMap, selected: string): seq<QuestItem> {
    if selected == AllTab then AllQuests(regions) else Get(regions, selected).GetOr([])
  }

  /** `completedQuests.none { it.id == quest.id }` fails: some completed quest has this id. */
  predicate IsCompleted(q: QuestItem, completed: seq<QuestItem>) {
    exists i :: 0 <= i < |completed| && completed[i].id == q.id
  }

  /** The candidates whose id no completed quest carries, in candidate order. */
  function Visible(candidates: seq<QuestItem>, completed: seq<QuestItem>): (r: seq<QuestItem>)
    ensures forall q :: q in r ==> q in candidates && !IsCompleted(q, completed)
    ensures forall q :: q in candidates && !IsCompleted(q, completed) ==> q in r
    ensures SubsequenceOf(r, candidates)
    ensures forall q :: multiset(r)[q] == if IsCompleted(q, completed) then 0 else multiset(candidates)[q]
    decreases |candidates|
  {
    if |candidates| == 0 then []
    else
      var rest := Visible(candidates[1..], completed);
      assert forall q :: q in candidates ==> q == candidates[0] || q in candidates[1..];
      assert candidates == [candidates[0]] + candidates[1..];
      if IsCompleted(candidates[0], completed) then rest else [candidates[0]] + rest
  }

  function DisplayedQuests(regions: RegionMap, selected: string, completed: seq<QuestItem>): seq<QuestItem> {
    Visible(Candidates(regions, selected), completed)
  }

  /** With "전체" a quest is shown exactly when some region lists it and it is not completed. */
  lemma AllTabShowsEveryRegion(regions: RegionMap, completed: seq<QuestItem>, q: QuestItem)
    ensures q in DisplayedQuests(regions, AllTab, completed)
            <==> (exists i :: 0 <= i < |regions| && q in regions[i].value) && !IsCompleted(q, completed)
  {
    AllQuestsMembers(regions, q);
  }

  /** Any other tab shows that region's uncompleted quests in order, and nothing when the region is absent. */
  lemma RegionTabShowsThatRegion(regions: RegionMap, selected: string, completed: seq<QuestItem>)
    requires selected != AllTab
    ensures !HasKey(regions, selected) ==> DisplayedQuests(regions, selected, completed) == []
    ensures HasKey(regions, selected) ==>
              DisplayedQuests(regions, selected, completed) == Visible(Get(regions, selected).value, completed)
  {
  }

  /** The district tabs are exactly the districts the repository fills in. */
  lemma TabsAreRepositoryRegions()
    ensures forall t :: t in RegionTabs && t != AllTab ==> t in Regions
    ensures forall r :: r in Regions ==> r in RegionTabs
    ensures AllTab !in Regions
  {
  }

  /**
    After a successful load, a district tab shows that district's fetched quests that are
    not completed — every such quest and only those.
   */
  lemma DistrictTabAfterLoad(userId: string, api: (string, string) -> ApiResult, tab: string,
                             completed: seq<QuestItem>, q: QuestItem)
    requires tab in RegionTabs && tab != AllTab
    ensures q in DisplayedQuests(AllQuestsFor(userId, api), tab, completed)
            <==> q in QuestsOrEmpty(api(tab, userId)) && !IsCompleted(q, completed)
  {
    TabsAreRepositoryRegions();
    var m := AllQuestsFor(userId, api);
    assert Get(m, tab) == Some(QuestsOrEmpty(api(tab, userId)));
  }
}

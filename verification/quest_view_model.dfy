/**
  The quest view-model: the region map loaded once at construction, the list of
  completed quests, and the loading flag. The coroutine of `loadAllQuests` is split into
  its two observable halves, `BeginLoad` and `FinishLoad`.
 */
module QuestViewModel {
  import opened Wrappers
  import opened OrderedMap
  import opened QuestModel
  import opened QuestRepository

  datatype QuestVm = QuestVm(quests: RegionMap, completedQuests: seq<QuestItem>, loading: bool)

  function Init(): QuestVm {
    QuestVm([], [], false)
  }

  /** The user id read from preferences: a stored value, none, or a read that threw. */
  datatype UserIdRead = Stored(id: Option<string>) | ReadThrew

  const DefaultUserId: string := "default-user"

  function UserIdOrDefault(id: Option<string>): (u: string)
    ensures id.Some? ==> u == id.value
    ensures id.None? ==> u == DefaultUserId
  {
    id.GetOr(DefaultUserId)
  }

  /** Start of the load: the loading flag goes up and nothing else changes. */
  function BeginLoad(s: QuestVm): (r: QuestVm)
    ensures r.loading && r.(loading := s.loading) == s
  {
    s.(loading := true)
  }

  /** End of the load (the try/catch/finally): the repository's map, or an empty map when the try threw. */
  function FinishLoad(s: QuestVm, read: UserIdRead, api: (string, string) -> ApiResult): (r: QuestVm)
    ensures !r.loading && r.completedQuests == s.completedQuests
    ensures read.ReadThrew? ==> r.quests == []
    ensures read.Stored? ==> r.quests == AllQuestsFor(UserIdOrDefault(read.id), api)
  {
    match read
    case ReadThrew => s.(quests := [], loading := false)
    case Stored(id) => s.(quests := AllQuestsFor(UserIdOrDefault(id), api), loading := false)
  }

  function LoadAllQuests(s: QuestVm, read: UserIdRead, api: (string, string) -> ApiResult): QuestVm {
    FinishLoad(BeginLoad(s), read, api)
  }

  /** The view-model as constructed: its `init` block runs the load. */
  function Construct(read: UserIdRead, api: (string, string) -> ApiResult): QuestVm {
    LoadAllQuests(Init(), read, api)
  }

  /**
    After the load the flag is down and the map either lists exactly the five districts
    (the preference read succeeded) or is empty (it threw); nothing is completed yet.
   */
  lemma ConstructOutcome(read: UserIdRead, api: (string, string) -> ApiResult)
    ensures !Construct(read, api).loading && Construct(read, api).completedQuests == []
    ensures read.Stored? <==> Keys(Construct(read, api).quests) == Regions
    ensures read.ReadThrew? <==> Construct(read, api).quests == []
  {
    if read.ReadThrew? {
      assert Keys(Construct(read, api).quests) == [];
    } else {
      assert |Construct(read, api).quests| == |Regions|;
    }
  }

  /** `completeQuest`: append the quest at the end of the completed list. */
  function CompleteQuest(s: QuestVm, q: QuestItem): (r: QuestVm)
    ensures |r.completedQuests| == |s.completedQuests| + 1
    ensures r.completedQuests[..|s.completedQuests|] == s.completedQuests
    ensures r.completedQuests[|s.completedQuests|] == q
    ensures multiset(r.completedQuests) == multiset(s.completedQuests) + multiset{q}
    ensures r.quests == s.quests && r.loading == s.loading
  {
    s.(completedQuests := s.completedQuests + [q])
  }

  /** Completing a quest twice lists it twice: the list keeps duplicates. */
  lemma CompleteTwiceListsTwice(s: QuestVm, q: QuestItem)
    ensures multiset(CompleteQuest(CompleteQuest(s, q), q).completedQuests)[q]
            == multiset(s.completedQuests)[q] + 2
  {
  }
}

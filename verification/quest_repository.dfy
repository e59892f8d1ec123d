/**
  The quest repository: one server call per district of Daejeon, gathered into a
  region-keyed map, a failed call counting as an empty list. The HTTP client is a
  parameter: `api(region, userId)` is what `getQuestsByRegion` returns or throws.
 */
module QuestRepository {
  import opened Wrappers
  import opened OrderedMap
  import opened QuestModel

  /** The districts queried, in query order. */
  const Regions: seq<string> := ["중구", "서구", "유성구", "대덕구", "동구"]

  datatype ApiResult = Fetched(quests: seq<QuestItem>) | Threw

  /** What a region maps to after its call: the response's quests, or nothing when the call threw. */
  function QuestsOrEmpty(r: ApiResult): seq<QuestItem> {
    match r
    case Fetched(qs) => qs
    case Threw => []
  }

  /** The map `getAllQuests` returns: every region, in order, with its call's outcome. */
  function AllQuestsFor(userId: string, api: (string, string) -> ApiResult): (m: RegionMap)
    ensures Keys(m) == Regions && Valid(m)
    ensures forall k :: k in Regions ==> Get(m, k) == Some(QuestsOrEmpty(api(k, userId)))
  {
    var m := seq(|Regions|, i requires 0 <= i < |Regions| => Entry(Regions[i], QuestsOrEmpty(api(Regions[i], userId))));
    assert Keys(m) == Regions;
    m
  }

  /**
    `getAllQuests`: query each region once, in order, writing each outcome into the map.
    It returns the calls it made as well as the map; it never fails.
   */
  method GetAllQuests(userId: string, api: (string, string) -> ApiResult)
    returns (result: RegionMap, calls: seq<(string, string)>)
    ensures result == AllQuestsFor(userId, api)
    ensures |calls| == |Regions| && forall i :: 0 <= i < |Regions| ==> calls[i] == (Regions[i], userId)
  {
    result := [];
    calls := [];
    for k := 0 to |Regions|
      invariant |result| == k && Valid(result)
      invariant forall i :: 0 <= i < k ==> result[i] == Entry(Regions[i], QuestsOrEmpty(api(Regions[i], userId)))
      invariant |calls| == k && forall i :: 0 <= i < k ==> calls[i] == (Regions[i], userId)
    {
      var region := Regions[k];
      var response := api(region, userId);
      calls := calls + [(region, userId)];
      assert !HasKey(result, region) by {
        forall i | 0 <= i < k ensures result[i].key != region { assert Regions[i] != Regions[k]; }
      }
      result := Put(result, region, QuestsOrEmpty(response));
    }
  }

  /** A region whose call throws maps to an empty list and leaves every other region's entry alone. */
  lemma FailureIsolated(userId: string, api: (string, string) -> ApiResult, api': (string, string) -> ApiResult, k: string)
    requires k in Regions && api'(k, userId) == Threw
    requires forall j :: j in Regions && j != k ==> api'(j, userId) == api(j, userId)
    ensures Get(AllQuestsFor(userId, api'), k) == Some([])
    ensures forall j :: j in Regions && j != k ==> Get(AllQuestsFor(userId, api'), j) == Get(AllQuestsFor(userId, api), j)
  {
  }
}

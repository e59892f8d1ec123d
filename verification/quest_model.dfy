/** The quest catalog's data: quest items and the region-keyed map the screens share. */
module QuestModel {
  import opened OrderedMap

  datatype Coordinates = Coordinates(lat: real, lng: real)

  datatype QuestItem = QuestItem(id: string, title: string, location: string, description: string,
                                 coordinates: Coordinates)

  /** Region name to that region's quests, in the order the regions were inserted. */
  type RegionMap = OMap<string, seq<QuestItem>>

  /** `regions.values.flatten()`: every region's quests, region after region. */
  function AllQuests(regions: RegionMap): seq<QuestItem> {
    Flatten(Values(regions))
  }

  /** A quest is listed by the map exactly when some region's list holds it. */
  lemma AllQuestsMembers(regions: RegionMap, q: QuestItem)
    ensures q in AllQuests(regions) <==> exists i :: 0 <= i < |regions| && q in regions[i].value
  {
    var vs := Values(regions);
    if q in AllQuests(regions) {
      var i :| 0 <= i < |vs| && q in vs[i];
      assert q in regions[i].value;
    }
  }
}

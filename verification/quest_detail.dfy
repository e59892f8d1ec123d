/**
  The quest detail screen: which quest it shows, the arrival-check button, and the
  effect that evaluates the distance once a location fix arrives. Permission requests,
  location requests, quest completion and navigation are recorded as effects; the
  location provider and the geodesic distance are inputs.
 */
module QuestDetail {
  import opened Wrappers
  import opened Decimal
  import opened QuestModel
  import QuestViewModel
  import QuestList

  /** The arrival radius, in metres. */
  const ArrivalRadius: real := 1000.0

  const PermissionMessage: string := "📍 위치 권한을 허용해주세요."
  const CheckingMessage: string := "📍 현재 위치 확인 중…"
  const CompletedMessage: string := "🎉 퀘스트 완료!"

  function NotArrivedMessage(metres: int): string {
    "❌ 아직 장소에 도착하지 않았어요.\n(거리: " + IntToString(metres) + "m)"
  }

  /** Kotlin's `toInt()` on a distance: truncation toward zero. */
  function TruncateToInt(x: real): (n: int)
    ensures x >= 0.0 ==> n as real <= x < n as real + 1.0
    ensures x < 0.0 ==> n as real - 1.0 < x <= n as real
  {
    if x >= 0.0 then x.Floor else -((-x).Floor)
  }

  /** The quest with id `questId`, searching all regions in order; none for a null id. */
  function FirstWithId(qs: seq<QuestItem>, questId: Option<string>): (r: Option<QuestItem>)
    ensures r.None? <==> questId.None? || forall i :: 0 <= i < |qs| ==> qs[i].id != questId.value
    ensures r.Some? ==> exists i :: 0 <= i < |qs| && qs[i] == r.value && r.value.id == questId.value
                          && forall j :: 0 <= j < i ==> qs[j].id != questId.value
  {
    if questId.None? || |qs| == 0 then None
    else if qs[0].id == questId.value then Some(qs[0])
    else
      var rest := FirstWithId(qs[1..], questId);
      assert forall i :: 1 <= i < |qs| ==> qs[i] == qs[1..][i - 1];
      rest
  }

  /**
    `regionsMap.values.flatten().find { it.id == questId }`: the first quest with the id,
    walking the regions in map order; none for a null id or an id no region lists.
   */
  function FindQuest(regions: RegionMap, questId: Option<string>): (r: Option<QuestItem>)
    ensures r.None? <==> questId.None? || forall q :: q in AllQuests(regions) ==> q.id != questId.value
    ensures r.Some? ==> r.value.id == questId.value
                        && exists i :: 0 <= i < |regions| && r.value in regions[i].value
  {
    var qs := AllQuests(regions);
    var r := FirstWithId(qs, questId);
    assert r.Some? ==> r.value in qs;
    if r.Some? then AllQuestsMembers(regions, r.value); r else r
  }

  datatype Effect = RequestPermission | RequestLocation | CompleteQuest(quest: QuestItem) | NavigateToCompleted

  datatype Detail = Detail(lat: Option<real>, lng: Option<real>, message: Option<string>,
                           checkingLocation: bool, completed: bool, effects: seq<Effect>)

  function Init(): Detail {
    Detail(None, None, None, false, false, [])
  }

  /** The arrival button. */
  function OnArrivalClick(s: Detail, hasPermission: bool): (r: Detail)
    ensures s.checkingLocation || s.completed ==> r == s
    ensures !s.checkingLocation && !s.completed && !hasPermission ==>
              r == s.(message := Some(PermissionMessage), effects := s.effects + [RequestPermission])
    ensures !s.checkingLocation && !s.completed && hasPermission ==>
              && r.checkingLocation && r.message == Some(CheckingMessage)
              && r.effects == s.effects + [RequestLocation]
              && r.lat == s.lat && r.lng == s.lng && r.completed == s.completed
  {
    if s.checkingLocation || s.completed then s
    else if !hasPermission then s.(message := Some(PermissionMessage), effects := s.effects + [RequestPermission])
    else s.(checkingLocation := true, message := Some(CheckingMessage), effects := s.effects + [RequestLocation])
  }

  /** Whether the distance effect does anything. */
  predicate Evaluates(s: Detail, quest: Option<QuestItem>) {
    quest.Some? && s.lat.Some? && s.lng.Some? && s.checkingLocation
  }

  /** The body of the distance effect, given the distance from the fix to the quest. */
  function Evaluate(s: Detail, quest: Option<QuestItem>, distance: real): (r: Detail)
    ensures !Evaluates(s, quest) ==> r == s
    ensures Evaluates(s, quest) ==> !r.checkingLocation && r.lat == s.lat && r.lng == s.lng
    ensures Evaluates(s, quest) && distance <= ArrivalRadius ==>
              && r.completed && r.message == Some(CompletedMessage)
              && r.effects == s.effects + [CompleteQuest(quest.value), NavigateToCompleted]
    ensures Evaluates(s, quest) && distance > ArrivalRadius ==>
              && r.completed == s.completed && r.effects == s.effects
              && r.message == Some(NotArrivedMessage(TruncateToInt(distance)))
  {
    if Evaluates(s, quest) then
      if distance <= ArrivalRadius then
        s.(completed := true, message := Some(CompletedMessage), checkingLocation := false,
           effects := s.effects + [CompleteQuest(quest.value), NavigateToCompleted])
      else
        s.(message := Some(NotArrivedMessage(TruncateToInt(distance))), checkingLocation := false)
    else s
  }

  /**
    A location fix arriving, as written: the fix is stored, and the distance effect, keyed
    on `(lat, lng)`, runs only if the stored coordinates changed.
   */
  function DeliverLocation(s: Detail, quest: Option<QuestItem>, lat: real, lng: real, distance: real): Detail {
    if s.lat == Some(lat) && s.lng == Some(lng) then s
    else Evaluate(s.(lat := Some(lat), lng := Some(lng)), quest, distance)
  }

  /** A location fix arriving, evaluated on every delivery whether or not the coordinates changed. */
  function DeliverLocationEveryFix(s: Detail, quest: Option<QuestItem>, lat: real, lng: real, distance: real): (r: Detail)
    ensures quest.Some? ==> !r.checkingLocation
    ensures r.lat == Some(lat) && r.lng == Some(lng)
  {
    Evaluate(s.(lat := Some(lat), lng := Some(lng)), quest, distance)
  }

  /**
    As written, a second check that receives the same fix as the first (the provider
    returns its cached last location) is never evaluated: the check stays in progress
    and the button ignores every further click.
   */
  lemma SameFixLeavesCheckStuck(quest: QuestItem, lat: real, lng: real, distance: real)
    requires distance > ArrivalRadius
    ensures var s1 := DeliverLocation(OnArrivalClick(Init(), true), Some(quest), lat, lng, distance);
            var s2 := DeliverLocation(OnArrivalClick(s1, true), Some(quest), lat, lng, distance);
            && !s1.checkingLocation
            && s2.checkingLocation
            && (forall p :: OnArrivalClick(s2, p) == s2)
            && DeliverLocation(s2, Some(quest), lat, lng, distance) == s2
  {
  }

  /** With evaluation on every fix, the check always ends, so a second check can start. */
  lemma EveryFixEndsTheCheck(quest: QuestItem, lat: real, lng: real, distance: real)
    requires distance > ArrivalRadius
    ensures var s1 := DeliverLocationEveryFix(OnArrivalClick(Init(), true), Some(quest), lat, lng, distance);
            var s2 := DeliverLocationEveryFix(OnArrivalClick(s1, true), Some(quest), lat, lng, distance);
            && !s2.checkingLocation && !s2.completed
            && OnArrivalClick(s2, true).checkingLocation
  {
  }

  /** Once completed, no click starts another check, and no delivery undoes the completion. */
  lemma CompletedIsFinal(s: Detail, quest: Option<QuestItem>, lat: real, lng: real, distance: real, p: bool)
    requires s.completed
    ensures OnArrivalClick(s, p) == s
    ensures DeliverLocation(s, quest, lat, lng, distance).completed
    ensures DeliverLocationEveryFix(s, quest, lat, lng, distance).completed
  {
  }

  /** The view-model side of an effect: a completion appends to the completed list. */
  function ApplyEffects(vm: QuestViewModel.QuestVm, es: seq<Effect>): QuestViewModel.QuestVm
    decreases |es|
  {
    if |es| == 0 then vm
    else
      var vm' := if es[0].CompleteQuest? then QuestViewModel.CompleteQuest(vm, es[0].quest) else vm;
      ApplyEffects(vm', es[1..])
  }

  /**
    A successful arrival check records the quest as completed in the view-model, and the
    quest list then no longer shows it under any tab.
   */
  lemma ArrivalHidesQuest(s: Detail, vm: QuestViewModel.QuestVm, q: QuestItem, distance: real, tab: string)
    requires Evaluates(s, Some(q)) && distance <= ArrivalRadius
    ensures var added := Evaluate(s, Some(q), distance).effects[|s.effects|..];
            var vm' := ApplyEffects(vm, added);
            && vm'.completedQuests == vm.completedQuests + [q]
            && q !in QuestList.DisplayedQuests(vm'.quests, tab, vm'.completedQuests)
  {
    var added := Evaluate(s, Some(q), distance).effects[|s.effects|..];
    assert added == [CompleteQuest(q), NavigateToCompleted];
    var vm1 := QuestViewModel.CompleteQuest(vm, q);
    assert ApplyEffects(vm, added) == ApplyEffects(vm1, [NavigateToCompleted]);
    assert [NavigateToCompleted][1..] == [];
    assert ApplyEffects(vm, added) == vm1;
    assert vm1.completedQuests[|vm.completedQuests|] == q;
    assert QuestList.IsCompleted(q, vm1.completedQuests);
  }
}

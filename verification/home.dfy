/**
  The home screen: its view-model (screen state, quest counter, unlocked room objects,
  raffle popup) and the screen's dispatch of user actions to it.
 */
module Home {

  datatype HomeState = Locked | FirstEnter | Room

  datatype Home = Home(screen: HomeState, unlockedObjects: seq<string>, questCount: int, showRafflePopup: bool)

  /** The number of quests that completes a round and unlocks the raffle. */
  const QuestTotal: int := 3

  /** The room objects unlocked by the first, second and third quest of a round. */
  const Rewards: seq<string> := ["튀김소보로", "한빛탑", "대전오월드"]

  function Init(): Home {
    Home(Locked, [], 0, false)
  }

  /** The mascot was collected in AR: show the new-friend popup, from any state. */
  function OnMascotCollected(h: Home): (r: Home)
    ensures r.screen == FirstEnter
    ensures r.(screen := h.screen) == h
  {
    h.(screen := FirstEnter)
  }

  /** The new-friend popup was closed: go to the room, from any state. */
  function FinishFirstEnter(h: Home): (r: Home)
    ensures r.screen == Room
    ensures r.(screen := h.screen) == h
  {
    h.(screen := Room)
  }

  /** The object a quest completed at count `c` unlocks; "" past the third. */
  function RewardFor(c: int): string {
    if c == 0 then Rewards[0] else if c == 1 then Rewards[1] else if c == 2 then Rewards[2] else ""
  }

  /** One more quest done: below three, count it and unlock that step's object unless already present. */
  function DebugProgressQuest(h: Home): (r: Home)
    ensures h.questCount >= QuestTotal ==> r == h
    ensures h.questCount < QuestTotal ==> r.questCount == h.questCount + 1
    ensures 0 <= h.questCount < QuestTotal ==> RewardFor(h.questCount) in r.unlockedObjects
    ensures h.questCount < QuestTotal && RewardFor(h.questCount) in h.unlockedObjects ==> r.unlockedObjects == h.unlockedObjects
    ensures h.unlockedObjects <= r.unlockedObjects && |r.unlockedObjects| <= |h.unlockedObjects| + 1
    ensures r.screen == h.screen && r.showRafflePopup == h.showRafflePopup
  {
    if h.questCount < QuestTotal then
      var obj := RewardFor(h.questCount);
      var objects := if obj != "" && obj !in h.unlockedObjects then h.unlockedObjects + [obj] else h.unlockedObjects;
      h.(questCount := h.questCount + 1, unlockedObjects := objects)
    else h
  }

  /** Show the raffle popup, but only once the round is complete. */
  function OpenRafflePopup(h: Home): (r: Home)
    ensures r.showRafflePopup <==> h.showRafflePopup || h.questCount >= QuestTotal
    ensures r.(showRafflePopup := h.showRafflePopup) == h
  {
    if h.questCount >= QuestTotal then h.(showRafflePopup := true) else h
  }

  /** Close the raffle popup and start a new round; the room keeps its objects. */
  function CloseRafflePopup(h: Home): (r: Home)
    ensures !r.showRafflePopup && r.questCount == 0
    ensures r.screen == h.screen && r.unlockedObjects == h.unlockedObjects
  {
    h.(showRafflePopup := false, questCount := 0)
  }

  /* ---------- the screen ---------- */

  /** What the screen body shows for each state. */
  datatype View = LockedView | NewFriendPopupView | MascotRoomView

  function Render(s: HomeState): (v: View)
    ensures v.LockedView? <==> s.Locked?
    ensures v.NewFriendPopupView? <==> s.FirstEnter?
    ensures v.MascotRoomView? <==> s.Room?
  {
    match s
    case Locked => LockedView
    case FirstEnter => NewFriendPopupView
    case Room => MascotRoomView
  }

  /** `isComplete` of the progress card. */
  predicate IsComplete(current: int, total: int) {
    current >= total
  }

  /**
    User actions the home screen can deliver. `HeaderClick` and `QuestTest` exist only
    in the room, `NewFriendDismiss` only on the new-friend popup, `RaffleDismiss` only
    while the raffle popup is shown; elsewhere they cannot happen and change nothing.
   */
  datatype Action = HeaderClick | QuestTest | NewFriendDismiss | RaffleDismiss

  /** The progress card's click: count a quest until three, then ask for the raffle. */
  function OnHeaderClick(h: Home): (r: Home)
    ensures h.questCount < QuestTotal ==> r == DebugProgressQuest(h)
    ensures h.questCount >= QuestTotal ==> r == OpenRafflePopup(h)
  {
    if h.questCount < QuestTotal then DebugProgressQuest(h) else OpenRafflePopup(h)
  }

  function Dispatch(h: Home, a: Action): Home {
    match a
    case HeaderClick => if h.screen == Room then OnHeaderClick(h) else h
    case QuestTest => if h.screen == Room then DebugProgressQuest(h) else h
    case NewFriendDismiss => if h.screen == FirstEnter then FinishFirstEnter(h) else h
    case RaffleDismiss => if h.showRafflePopup then CloseRafflePopup(h) else h
  }

  /* ---------- invariants ---------- */

  /**
    What every reachable home state satisfies: the counter is within 0..3, the unlocked
    objects are the first few rewards in order (so never duplicated, never more than
    three), the counter never runs ahead of them, and the raffle is only shown at three.
   */
  predicate Inv(h: Home) {
    && 0 <= h.questCount <= |h.unlockedObjects| <= |Rewards|
    && h.unlockedObjects == Rewards[..|h.unlockedObjects|]
    && (h.showRafflePopup ==> h.questCount == QuestTotal)
  }

  predicate NoDuplicates(s: seq<string>) {
    forall i, j :: 0 <= i < j < |s| ==> s[i] != s[j]
  }

  lemma InitInv()
    ensures Inv(Init())
  {
  }

  lemma ProgressKeepsInv(h: Home)
    requires Inv(h)
    ensures Inv(DebugProgressQuest(h))
  {
    var n := |h.unlockedObjects|;
    if h.questCount < QuestTotal {
      var c := h.questCount;
      if c < n {
        assert RewardFor(c) == h.unlockedObjects[c];
      } else {
        assert RewardFor(c) == Rewards[n];
        assert Rewards[..n] + [Rewards[n]] == Rewards[..n + 1];
        assert Rewards[n] !in Rewards[..n];
      }
    }
  }

  lemma DispatchKeepsInv(h: Home, a: Action)
    requires Inv(h)
    ensures Inv(Dispatch(h, a))
  {
    match a
    case HeaderClick => if h.screen == Room && h.questCount < QuestTotal { ProgressKeepsInv(h); }
    case QuestTest => if h.screen == Room { ProgressKeepsInv(h); }
    case _ =>
  }

  /** The screen state and the effect of the AR collection, from any reachable state. */
  lemma CollectedKeepsInv(h: Home)
    requires Inv(h)
    ensures Inv(OnMascotCollected(h))
  {
  }

  /** Reachable states never list an object twice and never hold more than three. */
  lemma InvBoundsObjects(h: Home)
    requires Inv(h)
    ensures NoDuplicates(h.unlockedObjects) && |h.unlockedObjects| <= 3
    ensures forall o :: o in h.unlockedObjects ==> o in Rewards
  {
    var n := |h.unlockedObjects|;
    forall i, j | 0 <= i < j < n
      ensures h.unlockedObjects[i] != h.unlockedObjects[j]
    {
      assert h.unlockedObjects[i] == Rewards[i] && h.unlockedObjects[j] == Rewards[j];
    }
  }

  function DispatchAll(h: Home, as_: seq<Action>): Home
    decreases |as_|
  {
    if |as_| == 0 then h else DispatchAll(Dispatch(h, as_[0]), as_[1..])
  }

  lemma {:induction false} DispatchAllKeepsInv(h: Home, as_: seq<Action>)
    requires Inv(h)
    ensures Inv(DispatchAll(h, as_))
    decreases |as_|
  {
    if |as_| > 0 {
      DispatchKeepsInv(h, as_[0]);
      DispatchAllKeepsInv(Dispatch(h, as_[0]), as_[1..]);
    }
  }

  /** However the user taps, the counter stays in 0..3 and the room objects stay distinct. */
  lemma CounterAndObjectsBounded(h: Home, as_: seq<Action>)
    requires Inv(h)
    ensures 0 <= DispatchAll(h, as_).questCount <= 3
    ensures NoDuplicates(DispatchAll(h, as_).unlockedObjects)
    ensures |DispatchAll(h, as_).unlockedObjects| <= 3
  {
    DispatchAllKeepsInv(h, as_);
    InvBoundsObjects(DispatchAll(h, as_));
  }

  /**
    The progress card's completion mark decides the click: in the room, a click shows the
    raffle exactly when the card reads complete, and otherwise counts one more quest.
   */
  lemma HeaderClickFollowsIsComplete(h: Home)
    requires h.screen == Room
    ensures var r := Dispatch(h, HeaderClick);
            && (r.showRafflePopup <==> h.showRafflePopup || IsComplete(h.questCount, QuestTotal))
            && (IsComplete(h.questCount, QuestTotal) ==> r.questCount == h.questCount
                                                         && r.unlockedObjects == h.unlockedObjects)
            && (!IsComplete(h.questCount, QuestTotal) ==> r.questCount == h.questCount + 1)
  {
    if IsComplete(h.questCount, QuestTotal) {
      assert Dispatch(h, HeaderClick) == OpenRafflePopup(h);
    } else {
      assert Dispatch(h, HeaderClick) == DebugProgressQuest(h);
    }
  }

  /**
    In the room from count 0, three header clicks unlock the three rewards in order and
    reach 3, and the fourth opens the raffle without counting further.
   */
  lemma HeaderClicksReachRaffle(h: Home)
    requires h.screen == Room && h.questCount == 0 && h.unlockedObjects == [] && !h.showRafflePopup
    ensures var h3 := OnHeaderClick(OnHeaderClick(OnHeaderClick(h)));
            h3.questCount == 3 && h3.unlockedObjects == Rewards && !h3.showRafflePopup
    ensures var h4 := OnHeaderClick(OnHeaderClick(OnHeaderClick(OnHeaderClick(h))));
            h4.questCount == 3 && h4.showRafflePopup
  {
    var h1 := OnHeaderClick(h);
    assert h1.unlockedObjects == [Rewards[0]];
    var h2 := OnHeaderClick(h1);
    assert Rewards[1] !in h1.unlockedObjects;
    assert h2.unlockedObjects == [Rewards[0], Rewards[1]];
    var h3 := OnHeaderClick(h2);
    assert Rewards[2] !in h2.unlockedObjects;
    assert h3.unlockedObjects == Rewards;
  }

  /**
    After the raffle is closed a second round unlocks nothing new: the room keeps its
    three objects and the counter climbs again from 0.
   */
  lemma SecondRoundUnlocksNothing(h: Home)
    requires Inv(h) && h.showRafflePopup
    ensures var r := DebugProgressQuest(CloseRafflePopup(h));
            r.unlockedObjects == h.unlockedObjects && r.questCount == 1
  {
    assert |h.unlockedObjects| == 3;
    assert h.unlockedObjects == Rewards;
    assert Rewards[0] in h.unlockedObjects;
  }

  /** Popups close through their own handlers: new friend to the room, raffle to a new round. */
  lemma DismissHandlers(h: Home)
    ensures h.screen == FirstEnter ==> Dispatch(h, NewFriendDismiss).screen == Room
    ensures h.showRafflePopup ==> Dispatch(h, RaffleDismiss).questCount == 0
                                  && !Dispatch(h, RaffleDismiss).showRafflePopup
    ensures !h.showRafflePopup ==> Dispatch(h, RaffleDismiss) == h
  {
  }
}

# MascoTrip core, modelled in Dafny

MascoTrip is an Android app about Daejeon. The camera looks for the word "대전"; when it
finds it, a mascot is placed in AR. Collecting the mascot unlocks a room, and regional
quests are completed by walking to them. This project models the decision logic of
that app as pure state machines and proves properties of them:

- **ArPlacement** (`ar_placement.dfy`) covers the per-frame recognition loop of the AR
  screen:
  - the throttle gate and the single-flight flag;
  - the "대전" match;
  - the choice between a plane hit and a fallback pose 0.5 m along the camera axis;
  - the asynchronous model load and the image release on completion;
  - the tap that collects the mascot.

  Frames, recognition results, model loads and taps are a trace of `Event`s, and `Run`
  folds a trace over the state. Two policies exist. `AsWritten` is the code as it
  stands. `LatchOnMatch` claims the placement as soon as the word is seen.
- **Home** (`home.dfy`) covers the home view-model and the screen's dispatch of clicks:
  - the Locked / FirstEnter / Room screens;
  - the quest counter with its three rewards;
  - the raffle popup.
- **QuestModel**, **QuestRepository**, **QuestViewModel** cover the quest data:
  - the insertion-ordered region map, modelled by **OrderedMap** (`ordered_map.dfy`);
  - the per-region fetch with per-region failure isolation (a method with a loop);
  - the view-model's load, which falls back to `"default-user"` and to an empty map on
    failure;
  - the completed-quest list.
- **QuestList** (`quest_list.dfy`) covers the quest screen's region tabs and its
  filtering of displayed quests.
- **QuestDetail** (`quest_detail.dfy`) covers the arrival check on a quest's page:
  - the click guard and the permission request;
  - the location-keyed distance evaluation, with its 1000 m radius and its messages;
  - the effects it issues to the view-model.
- **Encyclopedia** (`encyclopedia.dfy`) covers:
  - `associateBy { zoneId }`;
  - the choice between the picture and the silhouette;
  - the grouping of zones by region into cards.
- **Tutorial** (`tutorial.dfy`) covers the creation of the user id and the outcome
  of quest generation.
- **Wrappers**, **Sequences** and **Decimal** are helpers. Decimal renders Kotlin's `Long` in a string
  template and proves that the rendering round-trips.

All paths below are relative to `client/app/app/src/main/java/com/mascot/app/`.
In the table they are written out in full.

Where the comments in the code and the code disagree, the model follows the code:

- The throttle is strict. `currentTime - lastProcessTime > 500` rejects a frame exactly
  500 ms after the last attempt (`ArPlacement.ThrottleIsStrict`).
- The floating pose is `camera − 0.5·zAxis`. ARCore's camera looks down −Z, so this is
  in front of the camera. For a camera at the origin whose z axis is +Z (so it looks
  along −Z) it is (0, 0, −0.5) (`ArPlacement.FallbackAtOrigin`).
- The floating anchor is meant to go in front of the camera that saw "대전", but
  `ui/ar/ARContent.kt:136` reads `frame.camera.pose` inside the asynchronous success
  listener. ARCore's camera object is shared by the whole session, so this is the pose
  current when the listener runs, after the recognition latency. The model takes the
  `camera` of a `RecognitionDone` event as that later pose.
- `lastProcessTime` starts at 0. The first frame therefore passes the gate whenever
  the clock reads more than 500.
- Placement is not atomic. `isModelPlaced` is set only after the model has loaded (see
  Findings).
- `QuestScreen.kt` repeats its doc comment and function header at lines 36-56. The
  model takes the body that follows as the function.
- `QuestDetailScreen.kt:190` writes `return@Button` inside a `Surface` handler. The
  model takes it as a return from that handler, as line 176 does.

## Model

| member | source | states |
|---|---|---|
| ArPlacement.FirstQualifying | client/app/app/src/main/java/com/mascot/app/ui/ar/ARContent.kt:125-127 | no hit is returned iff no hit is a plane hit inside its polygon; a returned hit is one of the hits and qualifies, and no earlier hit qualifies |
| ArPlacement.FallbackPose | client/app/app/src/main/java/com/mascot/app/ui/ar/ARContent.kt:136-145 | the floating anchor has the identity rotation and sits at the camera minus 0.5 times the camera's z axis |
| ArPlacement.FallbackDistance | client/app/app/src/main/java/com/mascot/app/ui/ar/ARContent.kt:134-145 | with a unit z axis the floating anchor is exactly 0.5 m from the camera, displaced by exactly −0.5 times the z axis |
| ArPlacement.FallbackAtOrigin | client/app/app/src/main/java/com/mascot/app/ui/ar/ARContent.kt:140-144 | a camera at the origin with z axis (0,0,1) gets its mascot at (0,0,-0.5) |
| ArPlacement.ResolvePlacement | client/app/app/src/main/java/com/mascot/app/ui/ar/ARContent.kt:124-146 | the mascot is on a surface iff some hit qualifies, and then at a qualifying hit's pose; otherwise it floats at the fallback pose |
| ArPlacement.OutOfPolygonFallsBack | client/app/app/src/main/java/com/mascot/app/ui/ar/ARContent.kt:125-127 | a plane hit outside its polygon does not count, and neither does a non-plane hit, so such hits give the floating placement |
| ArPlacement.OnTick | client/app/app/src/main/java/com/mascot/app/ui/ar/ARContent.kt:102-111 | a frame that fails the gate or yields no image changes nothing; otherwise the image is held, the processing flag is set and the attempt time recorded before recognition starts |
| ArPlacement.ThrottleIsStrict | client/app/app/src/main/java/com/mascot/app/ui/ar/ARContent.kt:102-105 | a frame exactly 500 ms after the last attempt is rejected and one 501 ms after is accepted |
| ArPlacement.ThrottledTicksChangeNothing | client/app/app/src/main/java/com/mascot/app/ui/ar/ARContent.kt:104 | any number of frames within 500 ms of the last attempt leave the whole state unchanged |
| ArPlacement.OnSuccess | client/app/app/src/main/java/com/mascot/app/ui/ar/ARContent.kt:116-147 | text without "대전" changes nothing; text with it appends one anchor at the resolved placement, sets the matching status message and queues one model load, and leaves every other field unchanged |
| ArPlacement.NoMarkerNoAnchor | client/app/app/src/main/java/com/mascot/app/ui/ar/ARContent.kt:118 | a recognition result without "대전" creates no anchor and does not mark the mascot placed |
| ArPlacement.OnComplete | client/app/app/src/main/java/com/mascot/app/ui/ar/ARContent.kt:185-189 | completion closes exactly one held image and clears the processing flag, touching nothing else |
| ArPlacement.CompletionReleasesImage | client/app/app/src/main/java/com/mascot/app/ui/ar/ARContent.kt:185-189 | from any reachable in-flight state, success or failure of recognition leaves no image held and processing cleared |
| ArPlacement.StepKeepsInv | client/app/app/src/main/java/com/mascot/app/ui/ar/ARContent.kt:102-189 | every event preserves the invariant: at most one image is held, it is held exactly while processing, and attempts are more than 500 ms apart and end at the last attempt time, and every collection reported by a tap is of mascot 1001 |
| ArPlacement.RunKeepsInv | client/app/app/src/main/java/com/mascot/app/ui/ar/ARContent.kt:90-191 | the invariant holds after any trace of events from a state that satisfies it |
| ArPlacement.ThrottleAndSingleFlight | client/app/app/src/main/java/com/mascot/app/ui/ar/ARContent.kt:102-116 | from the initial state, any trace leaves at most one recognition in flight and consecutive attempts more than 500 ms apart |
| ArPlacement.PlacedIsSticky | client/app/app/src/main/java/com/mascot/app/ui/ar/ARContent.kt:102 | once the mascot is placed it stays placed and no further recognition is attempted |
| ArPlacement.TenTicksTwoAttempts | client/app/app/src/main/java/com/mascot/app/ui/ar/ARContent.kt:102-110 | ten frames 100 ms apart with a failed recognition in between start exactly two recognitions, at t and t+600 |
| ArPlacement.DoublePlacementReachable | client/app/app/src/main/java/com/mascot/app/ui/ar/ARContent.kt:150-189 | as written, a second recognition that starts before the first model load finishes still creates an anchor, so two recognitions of "대전" end with two anchors and two mascots |
| ArPlacement.SinglePlacementWhenLatched | client/app/app/src/main/java/com/mascot/app/ui/ar/ARContent.kt:150-182 | when the placement is claimed at the match, every trace creates at most one anchor and one mascot |
| ArPlacement.TapHasNoOnceGuard | client/app/app/src/main/java/com/mascot/app/ui/ar/ARContent.kt:168-179 | each tap on a mascot records collection of id 1001 and calls the finish callback again, with no guard |
| ArPlacement.PlacedOnlyByModelLoad | client/app/app/src/main/java/com/mascot/app/ui/ar/ARContent.kt:150-183 | as written, `isModelPlaced` is set only at the end of the model-loading coroutine; a frame, a recognition result or a tap never sets it |
| ArPlacement.LoadAndTapFrames | client/app/app/src/main/java/com/mascot/app/ui/ar/ARContent.kt:150-183 | a finished model load adds exactly one node and sets `isModelPlaced`; a tap on a placed node records id 1001 once and calls the finish callback once; nothing else changes in either case |
| ArPlacement.StatusTextAfterMatch | client/app/app/src/main/java/com/mascot/app/ui/ar/ARContent.kt:129-136 | after a "대전" match the status line reads "평면 인식 성공! (바닥/벽에 배치)" for a surface anchor and "공중 배치 (카메라 앞 50cm)" for a floating one |
| ArPlacement.RunKeepsHint | client/app/app/src/main/java/com/mascot/app/ui/ar/ARContent.kt:54-136 | the hint is on screen exactly while no anchor exists, and every event keeps that so |
| ArPlacement.HintUntilFirstAnchor | client/app/app/src/main/java/com/mascot/app/ui/ar/ARContent.kt:54 | from the screen's start, the hint "카메라로 '대전' 글자를 찾아보세요" is shown exactly while no anchor has been created, along any trace |
| Home.OnMascotCollected | client/app/app/src/main/java/com/mascot/app/ui/home/HomeViewModel.kt:46-48 | from any state the screen becomes FirstEnter and nothing else changes |
| Home.FinishFirstEnter | client/app/app/src/main/java/com/mascot/app/ui/home/HomeViewModel.kt:54-57 | from any state the screen becomes Room and nothing else changes |
| Home.DebugProgressQuest | client/app/app/src/main/java/com/mascot/app/ui/home/HomeViewModel.kt:65-82 | at three it changes nothing; below three the count rises by one, that step's reward is among the objects afterwards, at most one object is appended, and a reward already unlocked is not appended again |
| Home.OpenRafflePopup | client/app/app/src/main/java/com/mascot/app/ui/home/HomeViewModel.kt:88-92 | the popup is shown afterwards iff it was shown already or the count is at least three; nothing else changes |
| Home.CloseRafflePopup | client/app/app/src/main/java/com/mascot/app/ui/home/HomeViewModel.kt:98-101 | the popup is hidden and the count is reset to 0; the screen and the room objects are kept |
| Home.Render | client/app/app/src/main/java/com/mascot/app/ui/home/HomeScreen.kt:51-103 | each screen state shows exactly its own view: locked, new-friend popup or room |
| Home.OnHeaderClick | client/app/app/src/main/java/com/mascot/app/ui/home/HomeScreen.kt:93-99 | below three a click progresses the quest; at three it asks for the raffle popup |
| Home.HeaderClickFollowsIsComplete | client/app/app/src/main/java/com/mascot/app/ui/home/HomeScreen.kt:93-129 | in the room, a header click shows the raffle exactly when the progress card reads complete (count at least three), leaving count and objects alone; otherwise it counts one more quest |
| Home.InitInv | client/app/app/src/main/java/com/mascot/app/ui/home/HomeViewModel.kt:27-39 | the initial state satisfies the home invariant |
| Home.ProgressKeepsInv | client/app/app/src/main/java/com/mascot/app/ui/home/HomeViewModel.kt:65-82 | progressing keeps the counter within the unlocked objects, and the objects remain the first rewards in order |
| Home.DispatchKeepsInv | client/app/app/src/main/java/com/mascot/app/ui/home/HomeScreen.kt:51-111 | every user action the screen dispatches preserves the home invariant |
| Home.InvBoundsObjects | client/app/app/src/main/java/com/mascot/app/ui/home/HomeViewModel.kt:78-80 | in a state satisfying the invariant the room objects are distinct rewards, at most three |
| Home.CounterAndObjectsBounded | client/app/app/src/main/java/com/mascot/app/ui/home/HomeViewModel.kt:65-101 | after any sequence of clicks the count stays within 0..3 and the objects stay distinct and at most three |
| Home.HeaderClicksReachRaffle | client/app/app/src/main/java/com/mascot/app/ui/home/HomeScreen.kt:93-99 | from an empty room, three clicks unlock the three rewards in order; the fourth shows the raffle without counting further |
| Home.SecondRoundUnlocksNothing | client/app/app/src/main/java/com/mascot/app/ui/home/HomeViewModel.kt:71-80 | after the raffle is closed, the next quest counts 1 but unlocks no new object |
| Home.DismissHandlers | client/app/app/src/main/java/com/mascot/app/ui/home/HomeScreen.kt:68-110 | dismissing the new-friend popup enters the room; dismissing a shown raffle resets the round; a raffle dismissal with no raffle changes nothing |
| OrderedMap.Put | client/app/app/src/main/java/com/mascot/app/data/repository/QuestRepository.kt:36 | assigning a key replaces its value in place or appends a new entry at the end; keys stay distinct and other entries are untouched |
| OrderedMap.KeysPut | client/app/app/src/main/java/com/mascot/app/data/repository/QuestRepository.kt:36 | assigning an existing key keeps the key order; assigning a new key appends it at the end |
| OrderedMap.GetPut | client/app/app/src/main/java/com/mascot/app/data/repository/QuestRepository.kt:40 | reading a key just assigned gives the assigned value; other keys read as before |
| QuestRepository.AllQuestsFor | client/app/app/src/main/java/com/mascot/app/data/repository/QuestRepository.kt:30-43 | the result has exactly the five regions as keys in order, each mapped to its fetched quests or to an empty list if the fetch threw |
| QuestRepository.GetAllQuests | client/app/app/src/main/java/com/mascot/app/data/repository/QuestRepository.kt:29-44 | the loop builds exactly that map and calls the server once per region, in order, with the given user id |
| QuestRepository.FailureIsolated | client/app/app/src/main/java/com/mascot/app/data/repository/QuestRepository.kt:37-41 | a failing region reads as empty while every other region keeps its fetched quests |
| QuestModel.AllQuestsMembers | client/app/app/src/main/java/com/mascot/app/ui/quest/QuestScreen.kt:72 | a quest is in the flattened values iff it is in the list of some region |
| QuestViewModel.UserIdOrDefault | client/app/app/src/main/java/com/mascot/app/ui/quest/QuestViewModel.kt:55 | a stored id is used as is; a missing one becomes "default-user" |
| QuestViewModel.BeginLoad | client/app/app/src/main/java/com/mascot/app/ui/quest/QuestViewModel.kt:51-52 | loading is raised and nothing else changes |
| QuestViewModel.FinishLoad | client/app/app/src/main/java/com/mascot/app/ui/quest/QuestViewModel.kt:53-62 | loading is cleared either way; a failed id read leaves an empty map, otherwise the map is the repository's map for that user |
| QuestViewModel.ConstructOutcome | client/app/app/src/main/java/com/mascot/app/ui/quest/QuestViewModel.kt:41-63 | after construction nothing is completed and nothing is loading; the map has the five regions iff the id read succeeded, and is empty iff it threw |
| QuestViewModel.CompleteQuest | client/app/app/src/main/java/com/mascot/app/ui/quest/QuestViewModel.kt:71-73 | the quest is appended at the end, the earlier list is its prefix, and the multiset grows by exactly that quest |
| QuestViewModel.CompleteTwiceListsTwice | client/app/app/src/main/java/com/mascot/app/ui/quest/QuestViewModel.kt:72 | completing the same quest twice lists it twice, because nothing deduplicates |
| QuestList.InitialSelection | client/app/app/src/main/java/com/mascot/app/ui/quest/QuestScreen.kt:63-64 | the screen opens on the first tab, "전체" |
| QuestList.Visible | client/app/app/src/main/java/com/mascot/app/ui/quest/QuestScreen.kt:78-80 | a quest is shown iff it is a candidate and no completed quest has its id; the shown quests keep their order, and each one is shown as often as it is a candidate |
| QuestList.AllTabShowsEveryRegion | client/app/app/src/main/java/com/mascot/app/ui/quest/QuestScreen.kt:70-80 | on "전체" every quest of every region whose id is not completed is shown |
| QuestList.RegionTabShowsThatRegion | client/app/app/src/main/java/com/mascot/app/ui/quest/QuestScreen.kt:73-80 | on a region tab exactly that region's uncompleted quests are shown; an absent region shows nothing |
| QuestList.TabsAreRepositoryRegions | client/app/app/src/main/java/com/mascot/app/ui/quest/QuestScreen.kt:63 | the district tabs are exactly the five regions the repository fetches, and "전체" is not a region |
| QuestList.DistrictTabAfterLoad | client/app/app/src/main/java/com/mascot/app/ui/quest/QuestScreen.kt:67-81 | after a load, a quest the server returned for a district appears on that district's tab until it is completed |
| QuestDetail.FirstWithId | client/app/app/src/main/java/com/mascot/app/ui/quest/QuestDetailScreen.kt:45-46 | no quest is found iff the id is null or no quest has it; a found quest has the id and is the first such quest |
| QuestDetail.TruncateToInt | client/app/app/src/main/java/com/mascot/app/ui/quest/QuestDetailScreen.kt:84 | the distance shown is the distance truncated toward zero |
| QuestDetail.FindQuest | client/app/app/src/main/java/com/mascot/app/ui/quest/QuestDetailScreen.kt:45-46 | no quest is found iff the id is null or no region lists a quest with it; a found quest carries the id and is listed under some region |
| QuestDetail.OnArrivalClick | client/app/app/src/main/java/com/mascot/app/ui/quest/QuestDetailScreen.kt:175-199 | while checking or completed a click does nothing; without permission it requests it and shows the permission message; with permission it starts checking and requests a fix |
| QuestDetail.Evaluate | client/app/app/src/main/java/com/mascot/app/ui/quest/QuestDetailScreen.kt:59-88 | with a quest, a fix and a check in progress, the check ends; within 1000 m the quest is completed and navigation issued, otherwise the not-arrived message gives the truncated distance; else nothing changes |
| QuestDetail.DeliverLocationEveryFix | client/app/app/src/main/java/com/mascot/app/ui/quest/QuestDetailScreen.kt:196-199 | with the evaluation run on every delivered fix, a delivery for a found quest always ends the check, and the fix is stored |
| QuestDetail.SameFixLeavesCheckStuck | client/app/app/src/main/java/com/mascot/app/ui/quest/QuestDetailScreen.kt:59-65 | as written, a second check that receives the same cached fix is never evaluated, and the button stays disabled |
| QuestDetail.EveryFixEndsTheCheck | client/app/app/src/main/java/com/mascot/app/ui/quest/QuestDetailScreen.kt:87 | with every fix evaluated, a second check at the same place ends, and a further click can start a third |
| QuestDetail.CompletedIsFinal | client/app/app/src/main/java/com/mascot/app/ui/quest/QuestDetailScreen.kt:176 | once completed, clicks change nothing and later fixes never undo the completion |
| QuestDetail.ArrivalHidesQuest | client/app/app/src/main/java/com/mascot/app/ui/quest/QuestDetailScreen.kt:73-76 | an arrival within 1000 m adds the quest to the completed list of the view-model that receives the effects, and a quest list drawn from that view-model then shows it under no tab |
| Encyclopedia.MascotsByZoneKeys | client/app/app/src/main/java/com/mascot/app/ui/encyclopedia/EncyclopediaViewModel.kt:40-42 | the keys of the association are exactly the zone ids of the mascots |
| Encyclopedia.MascotsByZoneValues | client/app/app/src/main/java/com/mascot/app/ui/encyclopedia/EncyclopediaViewModel.kt:41 | each key maps to one of the mascots, and that mascot carries the key as its zone id |
| Encyclopedia.LastMascotWins | client/app/app/src/main/java/com/mascot/app/ui/encyclopedia/EncyclopediaViewModel.kt:41 | a mascot that is the last one with its zone id is the value for that zone |
| Encyclopedia.LaterMascotWins | client/app/app/src/main/java/com/mascot/app/ui/encyclopedia/EncyclopediaViewModel.kt:41 | of two mascots sharing a zone, the later one is kept |
| Encyclopedia.SilhouetteName | client/app/app/src/main/java/com/mascot/app/ui/encyclopedia/EncyclopediaScreen.kt:146 | the silhouette resource name is the image name followed by "_silhouette" |
| Encyclopedia.FinalImageId | client/app/app/src/main/java/com/mascot/app/ui/encyclopedia/EncyclopediaScreen.kt:136-155 | a collected mascot shows its picture's id and an uncollected one its silhouette's id; 0 means the resource is missing |
| Encyclopedia.PictureMatchesCollection | client/app/app/src/main/java/com/mascot/app/ui/encyclopedia/EncyclopediaScreen.kt:152-175 | an image is drawn iff the resource for the mascot's collection state exists, and it is never the other state's resource |
| Encyclopedia.GroupByRegionSpec | client/app/app/src/main/java/com/mascot/app/ui/encyclopedia/EncyclopediaScreen.kt:76 | each group holds exactly the zones of its region in their order, and every zone's region has a group |
| Encyclopedia.GroupKeysFollowFirstAppearance | client/app/app/src/main/java/com/mascot/app/ui/encyclopedia/EncyclopediaScreen.kt:76 | the region headers appear once each, in the order in which their regions first occur among the zones |
| Encyclopedia.GroupsComeFromZones | client/app/app/src/main/java/com/mascot/app/ui/encyclopedia/EncyclopediaScreen.kt:76 | every group's region is the region of some zone, so no empty group exists |
| Encyclopedia.Cards | client/app/app/src/main/java/com/mascot/app/ui/encyclopedia/EncyclopediaScreen.kt:89-95 | a card is drawn for a zone iff a mascot is associated with it, and it shows that mascot |
| Encyclopedia.CardsKeepZoneOrder | client/app/app/src/main/java/com/mascot/app/ui/encyclopedia/EncyclopediaScreen.kt:89-95 | the cards are drawn in the order of the region's zones |
| Encyclopedia.CardsCountZones | client/app/app/src/main/java/com/mascot/app/ui/encyclopedia/EncyclopediaScreen.kt:89-95 | a zone with a mascot gets one card per listing of it, and a zone without a mascot gets none |
| Encyclopedia.ZoneCardUnderItsRegion | client/app/app/src/main/java/com/mascot/app/ui/encyclopedia/EncyclopediaScreen.kt:76-95 | a zone with a mascot gets its card under its own region's header, showing the last mascot of that zone |
| Tutorial.LoadUserId | client/app/app/src/main/java/com/mascot/app/ui/tutorial/TutorialViewModel.kt:49-61 | a stored id is used and nothing is saved; without one, a new id is saved and the same id is exposed |
| Tutorial.CreatedIdEncodesClock | client/app/app/src/main/java/com/mascot/app/ui/tutorial/TutorialViewModel.kt:56 | a created id is "user_" followed by the clock reading in decimal, which parses back to the reading |
| Tutorial.GenerateQuests | client/app/app/src/main/java/com/mascot/app/ui/tutorial/TutorialViewModel.kt:69-82 | it succeeds iff the call returns; generating is raised with the error cleared during the call and lowered afterwards; a failure stores the prefixed message and a success none |
| Tutorial.FailureMessageCarriesCause | client/app/app/src/main/java/com/mascot/app/ui/tutorial/TutorialViewModel.kt:77 | the failure message starts with the fixed Korean prefix and ends with the exception's message, or "null" when it has none |

## Left out

- ArPlacement.OnSuccess: does not model a failing anchor creation. `createAnchor`
  (`ui/ar/ARContent.kt:132` and `138-145`) can throw, for instance when tracking is lost
  during recognition, the session is paused or too many anchors exist. The success
  listener does not catch it, so the exception ends the app after the status message has
  already changed. The model lets every "대전" match create its anchor.
- Text recognition (ML Kit), the ARCore hit test, `isPoseInPolygon` and SceneView's
  model loader are platform code. Their outcomes are event fields: recognised text,
  hits with plane and polygon flags, and the model-load completion.
- The `lookAt` rotation, the extra 180° yaw and the 0.3 scale of the mascot node are
  left out, as are lighting and rendering. Only which anchors and nodes exist is modelled.
- ARCore `Float` arithmetic is modelled with exact reals.
- QuestDetail.TruncateToInt: does not model `Float.toInt`'s saturation at the `Int`
  range or NaN → 0, because a distance on Earth is far inside that range.
- The ARViewModel that receives `onMascotCollected(1001)` is not part of this model. The
  collected ids are recorded in the AR state as they are passed.
- Coroutines and `StateFlow` are replaced by sequential transitions. A recognition
  completion or a model load is an event, and an event with nothing in flight for it
  is ignored, since the platform never delivers one.
- The `delay(1000)` before navigating to the completed-quests screen is left out.
  Navigation is an effect.
- `LocationHelper` and `DistanceUtil` are not part of this model. The fix and its
  distance are inputs. A missing last location, which never invokes the callback, is
  simply the absence of a delivery.
- Permission dialogs, Toasts and navigation are recorded as effects or left out.
- QuestDetail.ArrivalHidesQuest: assumes that the detail screen and the quest list read
  one shared `QuestViewModel`. Each screen defaults to its own `hiltViewModel()`, and the
  navigation graph that would decide whether one instance is shared is not part of this
  model.
- Encyclopedia.FinalImageId: recomputes the picture and silhouette ids on every call. The
  screen caches them with an unkeyed `remember`, so a card slot that is reused for another
  mascot would keep the first mascot's ids; that reuse is not modelled.
- Dependency injection, DataStore persistence, Retrofit and the theme/layout files are
  left out.
- Tutorial.LoadUserId: does not model a failing DataStore read or save. The code does
  not catch such a failure, so it escapes the coroutine launched in `viewModelScope`
  (TutorialViewModel.kt:50) and crashes the app.
- The progress bar fraction and the Dp card-width arithmetic are presentation only.
- The mascot detail dialog and the `selectedMascot` state are presentation only.

## Findings

| source | as written | input that shows it | evidently intended | confidence | as-written member | corrected member |
|---|---|---|---|---|---|---|
| client/app/app/src/main/java/com/mascot/app/ui/ar/ARContent.kt:150-189 | `isModelPlaced` is set only inside the launched coroutine, after the model has loaded. `isProcessing` is cleared as soon as recognition completes. | Frame at t, and "대전" is recognised. A frame at t+600 starts a second recognition before the first model load finishes. Then the first model loads, the second recognition also finds "대전", and the second model loads. The result is two anchors and two mascots. | One mascot per session: the placement is claimed when "대전" is matched | medium, not executed | ArPlacement.DoublePlacementReachable | ArPlacement.SinglePlacementWhenLatched |
| client/app/app/src/main/java/com/mascot/app/ui/quest/QuestDetailScreen.kt:59-88 | The distance check is a `LaunchedEffect` keyed on the stored latitude and longitude, and `LocationHelper` answers with the cached last location. | Check once while away. The fix (x, y) is evaluated and the check ends. Click again: the same cached fix (x, y) is delivered, so the keys do not change and the effect does not relaunch. `checkingLocation` stays true and the button stays disabled. | Every delivered fix ends the check in progress | medium, not executed | QuestDetail.SameFixLeavesCheckStuck | QuestDetail.DeliverLocationEveryFix |

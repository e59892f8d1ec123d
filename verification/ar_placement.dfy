/**
  The AR placement loop of the AR screen: a per-frame gate that throttles on-device text
  recognition, the completion listeners that act on a recognised "대전", the choice
  between a surface anchor and a floating anchor, and the tap handler of the placed
  mascot.

  The screen keeps its state in four independently mutated variables (`isModelPlaced`,
  `isProcessing`, `lastProcessTime`, and the camera image it holds open). Here they are
  one immutable record, and each platform callback is an event:
  - `Tick`: one `onSessionUpdated` call (clock reading, tracking state, whether
    `acquireCameraImage` produced an image);
  - `RecognitionDone` / `RecognitionFailed`: the recogniser's success listener followed
    by its complete listener, or the complete listener alone;
  - `ModelLoaded`: the end of the coroutine that loads the glTF model and adds the node;
  - `Tap`: a confirmed single tap on a placed model node.
  Text recognition, hit testing and `isPoseInPolygon` are foreign code; their results are
  event parameters.
 */
module ArPlacement {
  import opened Wrappers

  /* ---------- geometry (reals stand in for the source's floats) ---------- */

  datatype Vec3 = Vec3(x: real, y: real, z: real)

  datatype Quat = Quat(x: real, y: real, z: real, w: real)

  datatype Pose = Pose(translation: Vec3, rotation: Quat)

  /**
    The camera pose read when the success listener runs, not the pose of the frame that
    triggered recognition: its position and its local z axis.
   */
  datatype CameraPose = CameraPose(translation: Vec3, zAxis: Vec3)

  /** One hit-test result: whether its trackable is a plane, whether the hit lies inside that plane's polygon. */
  datatype Hit = Hit(isPlane: bool, inPolygon: bool, pose: Pose)

  const Identity: Quat := Quat(0.0, 0.0, 0.0, 1.0)

  /** Distance in metres from the camera at which a floating mascot is placed. */
  const FloatingDistance: real := 0.5

  function Sub(a: Vec3, b: Vec3): Vec3 {
    Vec3(a.x - b.x, a.y - b.y, a.z - b.z)
  }

  function Scale(k: real, a: Vec3): Vec3 {
    Vec3(k * a.x, k * a.y, k * a.z)
  }

  function Dot(a: Vec3, b: Vec3): real {
    a.x * b.x + a.y * b.y + a.z * b.z
  }

  /* ---------- recognition and placement ---------- */

  /** The text the recogniser must report before anything is placed. */
  const Marker: string := "대전"

  /** Kotlin's case-sensitive `String.contains`. */
  predicate Contains(text: string, pattern: string) {
    exists i :: 0 <= i <= |text| - |pattern| && OccursAt(text, pattern, i)
  }

  predicate OccursAt(text: string, pattern: string, i: int) {
    0 <= i && i + |pattern| <= |text| && text[i..i + |pattern|] == pattern
  }

  /** A hit that may carry the mascot: a plane hit whose pose lies inside the plane's polygon. */
  predicate Qualifies(h: Hit) {
    h.isPlane && h.inPolygon
  }

  /** `hits.firstOrNull { it.trackable is Plane && isPoseInPolygon(it.hitPose) }`. */
  function FirstQualifying(hits: seq<Hit>): (r: Option<Hit>)
    ensures r.None? <==> forall i :: 0 <= i < |hits| ==> !Qualifies(hits[i])
    ensures r.Some? ==> exists i :: 0 <= i < |hits| && hits[i] == r.value && Qualifies(hits[i])
                          && forall j :: 0 <= j < i ==> !Qualifies(hits[j])
  {
    if |hits| == 0 then None
    else if Qualifies(hits[0]) then Some(hits[0])
    else
      var rest := FirstQualifying(hits[1..]);
      assert forall i :: 1 <= i < |hits| ==> hits[i] == hits[1..][i - 1];
      rest
  }

  /** Half a metre along the camera's negative z axis (its viewing direction), unrotated. */
  function FallbackPose(camera: CameraPose): (p: Pose)
    ensures p.rotation == Identity
    ensures Sub(camera.translation, p.translation) == Scale(FloatingDistance, camera.zAxis)
  {
    Pose(Sub(camera.translation, Scale(FloatingDistance, camera.zAxis)), Identity)
  }

  datatype Placement = OnSurface(pose: Pose) | Floating(pose: Pose)

  /** Where the anchor goes once the marker is recognised: the first qualifying hit, else the fallback pose. */
  function ResolvePlacement(hits: seq<Hit>, camera: CameraPose): (p: Placement)
    ensures p.OnSurface? <==> exists i :: 0 <= i < |hits| && Qualifies(hits[i])
    ensures p.OnSurface? ==> exists i :: 0 <= i < |hits| && hits[i].pose == p.pose && Qualifies(hits[i])
                               && forall j :: 0 <= j < i ==> !Qualifies(hits[j])
    ensures p.Floating? ==> p.pose == FallbackPose(camera)
  {
    match FirstQualifying(hits)
    case Some(h) => OnSurface(h.pose)
    case None => Floating(FallbackPose(camera))
  }

  /* ---------- the placement state ---------- */

  /** The status line shown at the bottom of the screen. */
  datatype Status = Searching | SurfacePlaced | FloatingPlaced

  function StatusText(s: Status): string {
    match s
    case Searching => "카메라로 '대전' 글자를 찾아보세요"
    case SurfacePlaced => "평면 인식 성공! (바닥/벽에 배치)"
    case FloatingPlaced => "공중 배치 (카메라 앞 50cm)"
  }

  /** The identifier the tap handler reports as collected. */
  const CollectedMascotId: int := 1001

  /** Strict minimum gap, in milliseconds, between two recognition starts. */
  const ThrottleMillis: int := 500

  datatype ArState = ArState(
    placed: bool,           // isModelPlaced
    processing: bool,       // isProcessing
    lastProcessTime: int,   // lastProcessTime, in clock milliseconds
    openImages: nat,        // camera images acquired and not yet closed
    attempts: seq<int>,     // clock reading of every recognition start, oldest first
    anchors: seq<Pose>,     // every anchor created, oldest first
    pendingLoads: nat,      // model-loading coroutines launched and not yet finished
    nodes: nat,             // anchor nodes added to the scene (each with a tap handler)
    status: Status,         // debugMessage
    collectedIds: seq<int>, // arguments of every onMascotCollected call
    finishedCalls: nat      // onCollectionFinished calls
  )

  function Init(): ArState {
    ArState(false, false, 0, 0, [], [], 0, 0, Searching, [], 0)
  }

  datatype Event =
    | Tick(now: int, tracking: bool, imageAvailable: bool)
    | RecognitionDone(text: string, hits: seq<Hit>, camera: CameraPose)
    | RecognitionFailed
    | ModelLoaded
    | Tap

  /**
    When the placed flag is set. `AsWritten` is the screen's behaviour: only at the end of
    the model-loading coroutine. `LatchOnMatch` sets it in the success listener, as soon
    as an anchor is created.
   */
  datatype Policy = AsWritten | LatchOnMatch

  /** The condition of `onSessionUpdated` under which a camera image is requested. */
  predicate GatePasses(s: ArState, now: int, tracking: bool) {
    !s.placed && !s.processing && tracking && now - s.lastProcessTime > ThrottleMillis
  }

  /** One frame: on a passed gate and an acquired image, flags are set before submission. */
  function OnTick(s: ArState, now: int, tracking: bool, imageAvailable: bool): (r: ArState)
    ensures !GatePasses(s, now, tracking) || !imageAvailable ==> r == s
    ensures GatePasses(s, now, tracking) && imageAvailable ==>
              && r.processing && r.lastProcessTime == now
              && r.openImages == s.openImages + 1 && r.attempts == s.attempts + [now]
              && r.(processing := s.processing, lastProcessTime := s.lastProcessTime,
                    openImages := s.openImages, attempts := s.attempts) == s
  {
    if GatePasses(s, now, tracking) && imageAvailable then
      s.(processing := true, lastProcessTime := now, openImages := s.openImages + 1,
         attempts := s.attempts + [now])
    else s
  }

  /** The success listener: on the marker, create an anchor and launch the model load. */
  function OnSuccess(policy: Policy, s: ArState, text: string, hits: seq<Hit>, camera: CameraPose): (r: ArState)
    ensures !Contains(text, Marker) ==> r == s
    ensures Contains(text, Marker) ==>
              && r.anchors == s.anchors + [ResolvePlacement(hits, camera).pose]
              && r.pendingLoads == s.pendingLoads + 1
              && r.status == (if ResolvePlacement(hits, camera).OnSurface? then SurfacePlaced else FloatingPlaced)
              && r.placed == (s.placed || policy == LatchOnMatch)
    ensures r.(anchors := s.anchors, pendingLoads := s.pendingLoads, status := s.status, placed := s.placed) == s
  {
    if Contains(text, Marker) then
      var p := ResolvePlacement(hits, camera);
      s.(anchors := s.anchors + [p.pose],
         pendingLoads := s.pendingLoads + 1,
         status := if p.OnSurface? then SurfacePlaced else FloatingPlaced,
         placed := s.placed || policy == LatchOnMatch)
    else s
  }

  /** The complete listener, run after every recognition, successful or not: close the image, clear the flag. */
  function OnComplete(s: ArState): (r: ArState)
    requires s.openImages > 0
    ensures r.openImages == s.openImages - 1 && !r.processing
    ensures r.(openImages := s.openImages, processing := s.processing) == s
  {
    s.(openImages := s.openImages - 1, processing := false)
  }

  function Step(policy: Policy, s: ArState, e: Event): ArState {
    match e
    case Tick(now, tracking, imageAvailable) => OnTick(s, now, tracking, imageAvailable)
    case RecognitionDone(text, hits, camera) =>
      // the recogniser only reports on an image it was given
      if s.openImages == 0 then s else OnComplete(OnSuccess(policy, s, text, hits, camera))
    case RecognitionFailed =>
      if s.openImages == 0 then s else OnComplete(s)
    case ModelLoaded =>
      if s.pendingLoads == 0 then s
      else s.(pendingLoads := s.pendingLoads - 1, nodes := s.nodes + 1, placed := true)
    case Tap =>
      // no once-guard: every tap on a placed node reports a collection and finishes
      if s.nodes == 0 then s
      else s.(collectedIds := s.collectedIds + [CollectedMascotId], finishedCalls := s.finishedCalls + 1)
  }

  /** The state after a trace of events, applied oldest first. */
  function Run(policy: Policy, s: ArState, es: seq<Event>): ArState
    decreases |es|
  {
    if |es| == 0 then s else Run(policy, Step(policy, s, es[0]), es[1..])
  }

  /* ---------- invariants over traces ---------- */

  /** Every two consecutive recognition starts are more than the throttle interval apart. */
  predicate Spaced(attempts: seq<int>) {
    forall i :: 0 < i < |attempts| ==> attempts[i] - attempts[i - 1] > ThrottleMillis
  }

  predicate Inv(s: ArState) {
    // at most one recognition in flight, and it is the one holding the open image
    && s.openImages <= 1
    && (s.processing <==> s.openImages == 1)
    // the throttle clock is the start of the latest attempt (0 before the first)
    && Spaced(s.attempts)
    && (if |s.attempts| == 0 then s.lastProcessTime == 0 else s.lastProcessTime == s.attempts[|s.attempts| - 1])
    // every anchor is either still loading its model or carries a node
    && |s.anchors| == s.pendingLoads + s.nodes
    // each tap reports the mascot once and finishes once
    && |s.collectedIds| == s.finishedCalls
    && (forall i :: 0 <= i < |s.collectedIds| ==> s.collectedIds[i] == CollectedMascotId)
    && (|s.collectedIds| > 0 ==> s.nodes > 0)
  }

  lemma StepKeepsInv(policy: Policy, s: ArState, e: Event)
    requires Inv(s)
    ensures Inv(Step(policy, s, e))
  {
    match e
    case Tick(now, tracking, imageAvailable) =>
      var r := Step(policy, s, e);
      if GatePasses(s, now, tracking) && imageAvailable {
        assert r.attempts[|r.attempts| - 1] == now;
        assert forall i :: 0 < i < |s.attempts| ==> r.attempts[i] == s.attempts[i];
      }
    case _ =>
  }

  lemma {:induction false} RunKeepsInv(policy: Policy, s: ArState, es: seq<Event>)
    requires Inv(s)
    ensures Inv(Run(policy, s, es))
    decreases |es|
  {
    if |es| > 0 {
      StepKeepsInv(policy, s, es[0]);
      RunKeepsInv(policy, Step(policy, s, es[0]), es[1..]);
    }
  }

  predicate SingleFlightThrottled(s: ArState) {
    s.openImages <= 1 && (!s.processing ==> s.openImages == 0) && Spaced(s.attempts)
  }

  /**
    On every trace from the initial state: at most one recognition is in flight, the open
    image count is back to zero whenever nothing is in flight, and consecutive
    recognition starts are more than 500 ms apart.
   */
  lemma ThrottleAndSingleFlight(policy: Policy, es: seq<Event>)
    ensures SingleFlightThrottled(Run(policy, Init(), es))
  {
    ReachableInv(policy, es);
  }

  lemma ReachableInv(policy: Policy, es: seq<Event>)
    ensures Inv(Run(policy, Init(), es))
  {
    InitInv();
    RunKeepsInv(policy, Init(), es);
  }

  lemma InitInv()
    ensures Inv(Init())
  {
  }

  /** A tick exactly 500 ms after the last start is rejected; one at 501 ms starts recognition. */
  lemma ThrottleIsStrict(s: ArState)
    requires !s.placed && !s.processing
    ensures OnTick(s, s.lastProcessTime + 500, true, true) == s
    ensures OnTick(s, s.lastProcessTime + 501, true, true).attempts == s.attempts + [s.lastProcessTime + 501]
  {
  }

  /** Once placed, the flag never clears and no tick starts another recognition. */
  lemma {:induction false} PlacedIsSticky(policy: Policy, s: ArState, es: seq<Event>)
    requires s.placed
    ensures Run(policy, s, es).placed
    ensures Run(policy, s, es).attempts == s.attempts
    decreases |es|
  {
    if |es| > 0 {
      PlacedIsSticky(policy, Step(policy, s, es[0]), es[1..]);
    }
  }

  /** Every completion, successful or failed, closes the open image and clears the in-flight flag. */
  lemma CompletionReleasesImage(policy: Policy, s: ArState, e: Event)
    requires Inv(s) && s.processing
    requires e.RecognitionDone? || e.RecognitionFailed?
    ensures Step(policy, s, e).openImages == 0
    ensures !Step(policy, s, e).processing
    ensures Step(policy, s, e).attempts == s.attempts
  {
  }

  /** Recognised text without the marker creates no anchor and leaves the placed flag alone. */
  lemma NoMarkerNoAnchor(policy: Policy, s: ArState, text: string, hits: seq<Hit>, camera: CameraPose)
    requires !Contains(text, Marker)
    ensures Step(policy, s, RecognitionDone(text, hits, camera)).anchors == s.anchors
    ensures Step(policy, s, RecognitionDone(text, hits, camera)).placed == s.placed
  {
  }

  /* ---------- scenarios ---------- */

  /** The fallback for a camera at the origin whose z axis is +Z lies at (0, 0, -0.5). */
  lemma FallbackAtOrigin()
    ensures FallbackPose(CameraPose(Vec3(0.0, 0.0, 0.0), Vec3(0.0, 0.0, 1.0)))
            == Pose(Vec3(0.0, 0.0, -0.5), Identity)
  {
  }

  /** With a unit z axis the floating mascot is exactly 0.5 m from the camera, against its z axis. */
  lemma FallbackDistance(camera: CameraPose)
    requires Dot(camera.zAxis, camera.zAxis) == 1.0
    ensures Sub(FallbackPose(camera).translation, camera.translation) == Scale(-FloatingDistance, camera.zAxis)
    ensures var d := Sub(FallbackPose(camera).translation, camera.translation);
            Dot(d, d) == FloatingDistance * FloatingDistance
  {
    var z := camera.zAxis;
    var d := Sub(FallbackPose(camera).translation, camera.translation);
    assert d == Scale(-0.5, z);
    assert Dot(d, d) == 0.25 * Dot(z, z);
  }

  /** An out-of-polygon plane hit followed by a non-plane hit leads to the floating placement. */
  lemma OutOfPolygonFallsBack(outside: Pose, other: Pose, camera: CameraPose)
    ensures ResolvePlacement([Hit(true, false, outside), Hit(false, true, other)], camera)
            == Floating(FallbackPose(camera))
  {
    var hits := [Hit(true, false, outside), Hit(false, true, other)];
    assert !Qualifies(hits[0]) && !Qualifies(hits[1]);
  }

  /** Ticks within the throttle window of the last start change nothing. */
  lemma {:induction false} ThrottledTicksChangeNothing(policy: Policy, s: ArState, ticks: seq<Event>)
    requires forall i :: 0 <= i < |ticks| ==> ticks[i].Tick? && ticks[i].now - s.lastProcessTime <= ThrottleMillis
    ensures Run(policy, s, ticks) == s
    decreases |ticks|
  {
    if |ticks| > 0 {
      ThrottledTicksChangeNothing(policy, s, ticks[1..]);
    }
  }

  lemma {:induction false} RunAppend(policy: Policy, s: ArState, a: seq<Event>, b: seq<Event>)
    ensures Run(policy, s, a + b) == Run(policy, Run(policy, s, a), b)
    decreases |a|
  {
    if |a| > 0 {
      assert (a + b)[0] == a[0];
      assert (a + b)[1..] == a[1..] + b;
      RunAppend(policy, Step(policy, s, a[0]), a[1..], b);
    } else {
      assert a + b == b;
    }
  }

  /**
    Ten tracking ticks 100 ms apart, each recognition failing before the next tick:
    recognition starts at t and at t + 600, and the tick at t + 500 is throttled.
   */
  lemma TenTicksTwoAttempts(t: int)
    requires t > ThrottleMillis
    ensures Run(AsWritten, Init(),
              [Tick(t, true, true), RecognitionFailed]
              + [Tick(t + 100, true, true), Tick(t + 200, true, true), Tick(t + 300, true, true),
                 Tick(t + 400, true, true), Tick(t + 500, true, true)]
              + [Tick(t + 600, true, true), RecognitionFailed]
              + [Tick(t + 700, true, true), Tick(t + 800, true, true), Tick(t + 900, true, true)]
            ).attempts == [t, t + 600]
  {
    var a := [Tick(t, true, true), RecognitionFailed];
    var b := [Tick(t + 100, true, true), Tick(t + 200, true, true), Tick(t + 300, true, true),
              Tick(t + 400, true, true), Tick(t + 500, true, true)];
    var c := [Tick(t + 600, true, true), RecognitionFailed];
    var d := [Tick(t + 700, true, true), Tick(t + 800, true, true), Tick(t + 900, true, true)];
    var sa := Run(AsWritten, Init(), a);
    assert sa == Init().(lastProcessTime := t, attempts := [t]) by {
      var s1 := Step(AsWritten, Init(), a[0]);
      assert s1 == Init().(processing := true, lastProcessTime := t, openImages := 1, attempts := [t]);
      assert a[1..] == [RecognitionFailed];
      assert Run(AsWritten, s1, a[1..]) == Run(AsWritten, Step(AsWritten, s1, RecognitionFailed), []);
    }
    ThrottledTicksChangeNothing(AsWritten, sa, b);
    var sc := Run(AsWritten, sa, c);
    assert sc == Init().(lastProcessTime := t + 600, attempts := [t, t + 600]) by {
      var s1 := Step(AsWritten, sa, c[0]);
      assert s1 == sa.(processing := true, lastProcessTime := t + 600, openImages := 1, attempts := [t, t + 600]);
      assert c[1..] == [RecognitionFailed];
      assert Run(AsWritten, s1, c[1..]) == Run(AsWritten, Step(AsWritten, s1, RecognitionFailed), []);
    }
    ThrottledTicksChangeNothing(AsWritten, sc, d);
    RunAppend(AsWritten, Init(), a, b);
    RunAppend(AsWritten, Init(), a + b, c);
    RunAppend(AsWritten, Init(), a + b + c, d);
  }

  lemma RunCons(policy: Policy, s: ArState, es: seq<Event>)
    requires |es| > 0
    ensures Run(policy, s, es) == Run(policy, Step(policy, s, es[0]), es[1..])
  {
  }

  lemma MarkerFound()
    ensures Contains(Marker, Marker)
  {
    assert OccursAt(Marker, Marker, 0);
  }

  /* ---------- the placement race ---------- */

  /**
    As written, two anchors and two mascot nodes are reachable: the second recognition
    starts after the first one's completion cleared `isProcessing` but before its model
    load set `isModelPlaced`.
   */
  lemma DoublePlacementReachable(t: int, camera: CameraPose)
    requires t > ThrottleMillis
    ensures var s := Run(AsWritten, Init(),
              [Tick(t, true, true), RecognitionDone(Marker, [], camera),
               Tick(t + 600, true, true), ModelLoaded, RecognitionDone(Marker, [], camera),
               ModelLoaded]);
            |s.anchors| == 2 && s.nodes == 2 && s.placed
  {
    var es := [Tick(t, true, true), RecognitionDone(Marker, [], camera),
               Tick(t + 600, true, true), ModelLoaded, RecognitionDone(Marker, [], camera),
               ModelLoaded];
    MarkerFound();
    var fp := FallbackPose(camera);
    var s1 := Step(AsWritten, Init(), es[0]);
    RunCons(AsWritten, Init(), es);
    var s2 := Step(AsWritten, s1, es[1]);
    assert s2.anchors == [fp] && s2.pendingLoads == 1 && !s2.processing && !s2.placed && s2.lastProcessTime == t;
    RunCons(AsWritten, s1, es[1..]);
    var s3 := Step(AsWritten, s2, es[2]);
    assert s3.processing && s3.openImages == 1;
    RunCons(AsWritten, s2, es[2..]);
    var s4 := Step(AsWritten, s3, es[3]);
    assert s4.anchors == [fp] && s4.nodes == 1 && s4.placed && s4.openImages == 1;
    RunCons(AsWritten, s3, es[3..]);
    var s5 := Step(AsWritten, s4, es[4]);
    assert s5.anchors == [fp, fp] && s5.pendingLoads == 1 && s5.nodes == 1;
    RunCons(AsWritten, s4, es[4..]);
    var s6 := Step(AsWritten, s5, es[5]);
    RunCons(AsWritten, s5, es[5..]);
    assert es[6..] == [];
    assert s6.anchors == [fp, fp] && s6.nodes == 2 && s6.placed;
  }

  /** The invariant of the latched machine: the first anchor sets the flag, which then blocks every start. */
  predicate LatchInv(s: ArState) {
    && Inv(s)
    && |s.anchors| <= 1
    && (|s.anchors| == 1 ==> s.placed)
    && (s.placed ==> !s.processing)
  }

  lemma LatchStepKeepsInv(s: ArState, e: Event)
    requires LatchInv(s)
    ensures LatchInv(Step(LatchOnMatch, s, e))
  {
    StepKeepsInv(LatchOnMatch, s, e);
  }

  lemma {:induction false} LatchRunKeepsInv(s: ArState, es: seq<Event>)
    requires LatchInv(s)
    ensures LatchInv(Run(LatchOnMatch, s, es))
    decreases |es|
  {
    if |es| > 0 {
      LatchStepKeepsInv(s, es[0]);
      LatchRunKeepsInv(Step(LatchOnMatch, s, es[0]), es[1..]);
    }
  }

  /**
    With the flag latched in the success listener, every trace creates at most one anchor
    and adds at most one mascot node.
   */
  lemma SinglePlacementWhenLatched(es: seq<Event>)
    ensures |Run(LatchOnMatch, Init(), es).anchors| <= 1
    ensures Run(LatchOnMatch, Init(), es).nodes <= 1
  {
    ReachableLatchInv(es);
  }

  lemma ReachableLatchInv(es: seq<Event>)
    ensures LatchInv(Run(LatchOnMatch, Init(), es))
  {
    LatchInitInv();
    LatchRunKeepsInv(Init(), es);
  }

  lemma LatchInitInv()
    ensures LatchInv(Init())
  {
    InitInv();
  }

  /** The tap handler has no once-guard: two taps report the mascot twice and finish twice. */
  lemma TapHasNoOnceGuard(policy: Policy, s: ArState)
    requires s.nodes > 0
    ensures Run(policy, s, [Tap, Tap]).collectedIds == s.collectedIds + [CollectedMascotId, CollectedMascotId]
    ensures Run(policy, s, [Tap, Tap]).finishedCalls == s.finishedCalls + 2
  {
    RunCons(policy, s, [Tap, Tap]);
    var s1 := Step(policy, s, Tap);
    RunCons(policy, s1, [Tap]);
  }

  /** As written, only the end of a model load sets the placed flag; no other event does. */
  lemma PlacedOnlyByModelLoad(s: ArState, e: Event)
    requires !s.placed && !e.ModelLoaded?
    ensures !Step(AsWritten, s, e).placed
  {
  }

  /**
    The frame of the two scene events: a finished model load adds one node and sets the
    placed flag and nothing else; a tap on a placed node records one collection and one
    finish call and nothing else.
   */
  lemma LoadAndTapFrames(policy: Policy, s: ArState)
    ensures s.pendingLoads > 0 ==>
              Step(policy, s, ModelLoaded) == s.(pendingLoads := s.pendingLoads - 1, nodes := s.nodes + 1, placed := true)
    ensures s.nodes > 0 ==>
              && Step(policy, s, Tap).collectedIds == s.collectedIds + [CollectedMascotId]
              && Step(policy, s, Tap).finishedCalls == s.finishedCalls + 1
              && Step(policy, s, Tap).(collectedIds := s.collectedIds, finishedCalls := s.finishedCalls) == s
  {
  }

  /** The searching hint is on screen exactly while no anchor has been created. */
  predicate HintMatchesAnchors(s: ArState) {
    StatusText(s.status) == "카메라로 '대전' 글자를 찾아보세요" <==> |s.anchors| == 0
  }

  /**
    The status line after a marker match names where the anchor went: on a surface or
    floating in front of the camera.
   */
  lemma StatusTextAfterMatch(policy: Policy, s: ArState, text: string, hits: seq<Hit>, camera: CameraPose)
    requires Contains(text, Marker)
    ensures StatusText(OnSuccess(policy, s, text, hits, camera).status) ==
              if ResolvePlacement(hits, camera).OnSurface? then "평면 인식 성공! (바닥/벽에 배치)"
              else "공중 배치 (카메라 앞 50cm)"
  {
  }

  /** Along any trace the searching hint stays exactly until the first anchor exists. */
  lemma {:induction false} RunKeepsHint(policy: Policy, s: ArState, es: seq<Event>)
    requires HintMatchesAnchors(s)
    ensures HintMatchesAnchors(Run(policy, s, es))
    decreases |es|
  {
    if |es| > 0 {
      var s1 := Step(policy, s, es[0]);
      assert HintMatchesAnchors(s1);
      RunKeepsHint(policy, s1, es[1..]);
    }
  }

  /** From the screen's initial state, the hint is shown exactly until the first marker match. */
  lemma HintUntilFirstAnchor(policy: Policy, es: seq<Event>)
    ensures (StatusText(Run(policy, Init(), es).status) == "카메라로 '대전' 글자를 찾아보세요")
              <==> |Run(policy, Init(), es).anchors| == 0
  {
    RunKeepsHint(policy, Init(), es);
  }
}

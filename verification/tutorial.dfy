/**
  The tutorial view-model: the user id (loaded from preferences, or created from the
  clock and saved) and the quest-generation request with its try/catch/finally. The
  preference store, the clock and the HTTP call are parameters.
 */
module Tutorial {
  import opened Wrappers
  import opened Decimal

  datatype TutorialVm = TutorialVm(userId: Option<string>, isGenerating: bool, errorMessage: Option<string>)

  function Init(): TutorialVm {
    TutorialVm(None, false, None)
  }

  const UserIdPrefix: string := "user_"

  /** The state after `loadUserId`, and the id it wrote to preferences, if any. */
  datatype LoadOutcome = LoadOutcome(vm: TutorialVm, saved: Option<string>)

  /**
    `loadUserId`: expose the stored id unchanged; when none is stored, build
    "user_<clock millis>", save it, and expose it.
   */
  function LoadUserId(s: TutorialVm, stored: Option<string>, nowMillis: int): (r: LoadOutcome)
    ensures stored.Some? ==> r.vm.userId == stored && r.saved.None?
    ensures stored.None? ==> r.saved.Some? && r.vm.userId == r.saved
    ensures r.vm.isGenerating == s.isGenerating && r.vm.errorMessage == s.errorMessage
  {
    match stored
    case Some(id) => LoadOutcome(s.(userId := Some(id)), None)
    case None =>
      var id := UserIdPrefix + IntToString(nowMillis);
      LoadOutcome(s.(userId := Some(id)), Some(id))
  }

  /** A created id is "user_" followed by the clock reading, which it gives back exactly. */
  lemma CreatedIdEncodesClock(s: TutorialVm, nowMillis: int)
    ensures var id := LoadUserId(s, None, nowMillis).saved.value;
            |id| > |UserIdPrefix| && id[..|UserIdPrefix|] == UserIdPrefix
            && ParseInt(id[|UserIdPrefix|..]) == Some(nowMillis)
  {
    var id := LoadUserId(s, None, nowMillis).saved.value;
    assert id[|UserIdPrefix|..] == IntToString(nowMillis);
    IntRoundTrip(nowMillis);
  }

  /** What `generateQuestAll` did: returned, or threw an exception with a possibly null message. */
  datatype ApiCall = Returned | Threw(message: Option<string>)

  const FailurePrefix: string := "퀘스트 생성에 실패했습니다: "

  /** Kotlin's template rendering of a nullable message. */
  function Rendered(message: Option<string>): string {
    message.GetOr("null")
  }

  /** The result of `generateQuests` and the state while the call is in flight and after it returns. */
  datatype Generation = Generation(success: bool, during: TutorialVm, after: TutorialVm)

  function GenerateQuests(s: TutorialVm, call: ApiCall): (g: Generation)
    ensures g.success <==> call.Returned?
    ensures g.during.isGenerating && g.during.errorMessage.None?
    ensures !g.after.isGenerating
    ensures g.success ==> g.after.errorMessage.None?
    ensures !g.success ==> g.after.errorMessage == Some(FailurePrefix + Rendered(call.message))
    ensures g.during.userId == s.userId && g.after.userId == s.userId
  {
    var during := s.(isGenerating := true, errorMessage := None);
    match call
    case Returned => Generation(true, during, during.(isGenerating := false))
    case Threw(message) =>
      Generation(false, during, during.(errorMessage := Some(FailurePrefix + Rendered(message)), isGenerating := false))
  }

  /** The error message after a failure gives back the exception's message (or "null") after its prefix. */
  lemma FailureMessageCarriesCause(s: TutorialVm, message: Option<string>)
    ensures var e := GenerateQuests(s, Threw(message)).after.errorMessage.value;
            e[..|FailurePrefix|] == FailurePrefix && e[|FailurePrefix|..] == Rendered(message)
  {
  }
}

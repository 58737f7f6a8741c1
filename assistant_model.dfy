// The assistant's state machine on values. A `Session` holds the page's
// module-level flags (`isListening`, `isSpeaking`, `hasWished`), whether the
// chat popup is shown and the icon's border colour, whether speech capture is
// running, the queue of utterances handed to the speech engine (each with the
// code that awaits its end), and a log of what was said and where the page
// went. Each handler runs up to its next `await`; the end of an utterance is
// an event of its own that resumes whatever awaited it.
module AssistantModel {
  import opened Text
  import opened Commands

  datatype Border = Green | Red

  /** The code that resumes when an utterance finishes. */
  datatype Continuation =
    | AfterGreeting               // rest of `startListening` after `await wishMe()`
    | AfterReply                  // rest of `takeCommand` after `await speak(...)`
    | AfterAlreadyHere            // `.then` of "You are already on this page."
    | AfterOpening(page: string)  // `.then` of the "Opening ... page." announcement

  /**
   * Observable effects, in the order they happen. `Said(text)` is recorded
   * when `speak(text)` is called, that is when the utterance is queued, not
   * when it is heard; `Navigated(page)` when the page is left for `page`.
   */
  datatype Effect = Said(text: string) | Navigated(page: string)

  datatype Session = Session(
    listening: bool,
    speaking: bool,
    wished: bool,
    popup: bool,
    border: Border,
    capture: bool,
    utterances: seq<Continuation>,
    log: seq<Effect>,
    href: string,
    unloaded: bool)

  /** The state when the script has loaded on the page at `href`. */
  function Init(href: string): Session {
    Session(false, false, false, false, Red, false, [], [], href, false)
  }

  /** `toggleChat`: flip the popup and colour the border to match. */
  function ToggleChat(s: Session): (r: Session)
    ensures r.popup == !s.popup
    ensures r.border == (if r.popup then Green else Red)
    ensures r == s.(popup := r.popup, border := r.border)
  {
    var shown := !s.popup;
    s.(popup := shown, border := if shown then Green else Red)
  }

  /**
   * `speak(text)` up to its `await`: capture is stopped if the assistant is
   * listening, `isSpeaking` is raised and the utterance is queued.
   */
  function Speak(s: Session, text: string, k: Continuation): (r: Session)
    ensures r.speaking && r.utterances == s.utterances + [k]
    ensures r.log == s.log + [Said(text)]
    ensures r.capture == (s.capture && !s.listening)
    ensures r == s.(speaking := true, capture := r.capture, utterances := r.utterances, log := r.log)
  {
    s.(capture := if s.listening then false else s.capture,
       speaking := true,
       utterances := s.utterances + [k],
       log := s.log + [Said(text)])
  }

  /** `stopListening`: clear `isListening` and stop capture. */
  function StopListening(s: Session): (r: Session)
    ensures !r.listening && !r.capture
    ensures r.log == s.log && r.utterances == s.utterances && r.speaking == s.speaking
    ensures r.wished == s.wished && r.popup == s.popup && r.border == s.border
    ensures r.href == s.href && r.unloaded == s.unloaded
  {
    s.(listening := false, capture := false)
  }

  /**
   * `startListening` as the source has it: when not yet listening it sets
   * the flag, opens the popup, greets on the first activation (suspending
   * until the greeting ends), and otherwise starts capture at once, even
   * when an utterance is still playing.
   */
  function StartListeningAsWritten(s: Session, hour: int): (r: Session)
    ensures s.listening ==> r == s
    ensures !s.listening ==> r.listening && r.popup == !s.popup && r.wished == s.wished
    ensures !s.listening && !s.wished ==> r.log == s.log + [Said(WishText(hour))] && r.speaking && !r.capture
    ensures !s.listening && s.wished ==> r.log == s.log && r.capture && r.speaking == s.speaking
  {
    if s.listening then s
    else
      var s1 := ToggleChat(s.(listening := true));
      if !s1.wished then Speak(s1, WishText(hour), AfterGreeting)
      else s1.(capture := true)
  }

  /**
   * `startListening` with capture started only when nothing is being said:
   * a no-op when already listening; otherwise listening, popup open, and
   * either the greeting queued (first activation only) or capture started
   * unless an utterance is still playing.
   */
  function StartListening(s: Session, hour: int): (r: Session)
    ensures s.listening ==> r == s
    ensures !s.listening ==> r.listening && r.popup == !s.popup && r.border == (if r.popup then Green else Red)
    ensures !s.listening && !s.wished ==> r.log == s.log + [Said(WishText(hour))] && r.speaking
    ensures !s.listening && s.wished ==> r.log == s.log && r.capture == (s.capture || !s.speaking)
    ensures r.capture ==> !r.speaking || s.capture
    ensures r.wished == s.wished
  {
    if s.listening then s
    else
      var s1 := ToggleChat(s.(listening := true));
      if !s1.wished then Speak(s1, WishText(hour), AfterGreeting)
      else if s1.speaking then s1
      else s1.(capture := true)
  }

  /** `recognition.onend`: capture has ended; restart it when listening and silent. */
  function OnEnd(s: Session): (r: Session)
    ensures r.capture <==> s.listening && !s.speaking
    ensures r.log == s.log && r.utterances == s.utterances && r.speaking == s.speaking
    ensures r.listening == s.listening && r.wished == s.wished && r.popup == s.popup
    ensures r.border == s.border && r.href == s.href && r.unloaded == s.unloaded
  {
    s.(capture := s.listening && !s.speaking)
  }

  /**
   * `pageSwitcher(page)` up to the point where it returns (it is not
   * awaited): it announces either that the page is already open or that
   * `page` is being opened, and leaves navigation to the announcement's end.
   */
  function PageSwitcher(s: Session, page: string): (r: Session)
    ensures var here := LastSegment(s.href) == page;
      && r.log == s.log + [Said(if here then AlreadyHereReply else OpeningText(page))]
      && r.utterances == s.utterances + [if here then AfterAlreadyHere else AfterOpening(page)]
    ensures r.speaking && !r.unloaded == !s.unloaded
    ensures r.listening == s.listening && r.popup == s.popup && r.wished == s.wished
  {
    if LastSegment(s.href) == page then Speak(s, AlreadyHereReply, AfterAlreadyHere)
    else Speak(s, OpeningText(page), AfterOpening(page))
  }

  /**
   * `recognition.onresult` followed by `takeCommand`, up to the first
   * `await` that suspends: a reply is queued and awaited; a page switch is
   * started, then listening stops and the popup is toggled at once.
   */
  function OnResult(s: Session, transcript: string): (r: Session)
    ensures r.speaking && r.wished == s.wished && r.unloaded == s.unloaded
    ensures |r.log| == |s.log| + 1 && r.log[..|s.log|] == s.log
    ensures r.log[|s.log|].Said? && !IsGreeting(r.log[|s.log|].text)
    ensures Interpret(Normalize(transcript)).NavigateTo? ==> !r.listening && !r.capture && r.popup == !s.popup
    ensures !Interpret(Normalize(transcript)).NavigateTo? ==> r.listening == s.listening && r.popup == s.popup
  {
    Perform(s, Dispatch(Interpret(Normalize(transcript))))
  }

  /** The effect of one command's action, up to the point where `takeCommand` suspends. */
  function Perform(s: Session, a: Action): (r: Session)
    ensures r.speaking && r.wished == s.wished && r.unloaded == s.unloaded && r.href == s.href
    ensures |r.log| == |s.log| + 1 && r.log[..|s.log|] == s.log && r.log[|s.log|].Said?
    ensures a.SwitchPage? ==> !IsGreeting(r.log[|s.log|].text)
    ensures |r.utterances| == |s.utterances| + 1 && r.utterances[..|s.utterances|] == s.utterances
    ensures r.utterances[|s.utterances|] != AfterGreeting
    ensures a.Reply? ==> r.log[|s.log|] == Said(a.text) && r.listening == s.listening && r.popup == s.popup
    ensures a.SwitchPage? ==> !r.listening && !r.capture && r.popup == !s.popup
    ensures a.Reply? ==> r.utterances[|s.utterances|] == AfterReply
    ensures a.SwitchPage? ==> var here := LastSegment(s.href) == a.page;
      && r.log[|s.log|] == Said(if here then AlreadyHereReply else OpeningText(a.page))
      && r.utterances[|s.utterances|] == (if here then AfterAlreadyHere else AfterOpening(a.page))
  {
    match a
    case Reply(text) => Speak(s, text, AfterReply)
    case SwitchPage(page) => ToggleChat(StopListening(PageSwitcher(s, page)))
  }

  /**
   * The first queued utterance has finished: `isSpeaking` drops and the code
   * awaiting it resumes. After the greeting `isSpeaking` is false, so
   * starting capture there is the same with or without a silence check.
   */
  function UtteranceEnd(s: Session): (r: Session)
    requires s.utterances != []
    ensures !r.speaking && r.utterances == s.utterances[1..]
    ensures r.wished == (s.wished || s.utterances[0] == AfterGreeting)
    ensures r.unloaded == (s.unloaded || s.utterances[0].AfterOpening?)
    ensures r.log == s.log + (if s.utterances[0].AfterOpening? then [Navigated(s.utterances[0].page)] else [])
    ensures s.utterances[0] == AfterGreeting ==> r.capture
    ensures s.utterances[0] == AfterReply ==> !r.listening && !r.capture && r.popup == !s.popup
    ensures s.utterances[0] == AfterAlreadyHere ==> r.listening == s.listening && (r.capture <==> s.capture || s.listening)
  {
    var s1 := s.(utterances := s.utterances[1..], speaking := false);
    match s.utterances[0]
    case AfterGreeting => s1.(wished := true, capture := true)
    case AfterReply => ToggleChat(StopListening(s1))
    case AfterAlreadyHere => if s1.listening && !s1.speaking then s1.(capture := true) else s1
    case AfterOpening(page) => s1.(log := s1.log + [Navigated(page)], unloaded := true)
  }

  /** Events the page receives. */
  datatype Event =
    | Click(hour: int)           // a click on the icon; `hour` is the clock's hour
    | CaptureEnded               // the recognition engine ended
    | Heard(transcript: string)  // the recognition engine delivered a transcript
    | SpeechEnded                // the utterance at the head of the queue finished

  /**
   * One event. A transcript only arrives while capture runs and an
   * utterance can only end when one is queued; other events cannot occur
   * and leave the state as it is.
   */
  function Step(s: Session, e: Event): Session {
    match e
    case Click(hour) => StartListening(s, hour)
    case CaptureEnded => OnEnd(s)
    case Heard(t) => if s.capture then OnResult(s, t) else s
    case SpeechEnded => if s.utterances != [] then UtteranceEnd(s) else s
  }

  /** A sequence of events on one page; nothing arrives after it has navigated away. */
  function Run(s: Session, events: seq<Event>): Session
    decreases |events|
  {
    if events == [] || s.unloaded then s else Run(Step(s, events[0]), events[1..])
  }

  /** How many greetings the log records. */
  function Greetings(log: seq<Effect>): nat {
    if log == [] then 0
    else Greetings(log[..|log| - 1]) + (if log[|log| - 1].Said? && IsGreeting(log[|log| - 1].text) then 1 else 0)
  }

  /** In the log, every navigation directly follows the queueing of the announcement of its page. */
  ghost predicate NavigationAnnounced(log: seq<Effect>) {
    forall i :: 0 <= i < |log| && log[i].Navigated? ==>
      0 < i && log[i - 1] == Said(OpeningText(log[i].page))
  }

  /** Capture runs only while the assistant listens and says nothing. */
  predicate CaptureSafe(s: Session) {
    s.capture ==> s.listening && !s.speaking
  }

  /** The invariant that every reachable session satisfies. */
  ghost predicate Inv(s: Session) {
    && CaptureSafe(s)
    && s.border == (if s.popup then Green else Red)
    && s.popup == s.listening
    && |s.utterances| <= 1
    && (s.speaking <==> s.utterances != [])
    && (!s.wished ==> !s.capture && s.utterances == (if s.listening then [AfterGreeting] else []))
    && (s.wished ==> s.utterances != [AfterGreeting])
    && (s.utterances == [AfterReply] ==> s.listening)
    && (s.utterances != [] && s.utterances[0].AfterOpening? ==>
          s.log != [] && s.log[|s.log| - 1] == Said(OpeningText(s.utterances[0].page)))
    && NavigationAnnounced(s.log)
    && Greetings(s.log) == (if s.wished || s.listening then 1 else 0)
  }

  lemma GreetingsAppend(log: seq<Effect>, e: Effect)
    ensures Greetings(log + [e]) == Greetings(log) + (if e.Said? && IsGreeting(e.text) then 1 else 0)
  {
    assert (log + [e])[..|log|] == log;
  }

  lemma AnnouncedAfterSaid(log: seq<Effect>, text: string)
    requires NavigationAnnounced(log)
    ensures NavigationAnnounced(log + [Said(text)])
  {
    var log' := log + [Said(text)];
    forall i | 0 <= i < |log'| && log'[i].Navigated?
      ensures 0 < i && log'[i - 1] == Said(OpeningText(log'[i].page))
    {
      assert log'[i] == log[i];
    }
  }

  lemma AnnouncedAfterNavigation(log: seq<Effect>, page: string)
    requires NavigationAnnounced(log)
    requires log != [] && log[|log| - 1] == Said(OpeningText(page))
    ensures NavigationAnnounced(log + [Navigated(page)])
  {
    var log' := log + [Navigated(page)];
    forall i | 0 <= i < |log'| && log'[i].Navigated?
      ensures 0 < i && log'[i - 1] == Said(OpeningText(log'[i].page))
    {
      if i < |log| { assert log'[i] == log[i]; }
    }
  }

  /** Speaking a text other than a greeting keeps the greeting count and the navigation rule. */
  lemma SpeakKeepsLog(s: Session, text: string, k: Continuation)
    requires NavigationAnnounced(s.log) && !IsGreeting(text)
    ensures NavigationAnnounced(Speak(s, text, k).log)
    ensures Greetings(Speak(s, text, k).log) == Greetings(s.log)
  {
    AnnouncedAfterSaid(s.log, text);
    GreetingsAppend(s.log, Said(text));
  }

  lemma InitInv(href: string)
    ensures Inv(Init(href))
  {
  }

  lemma ClickPreservesInv(s: Session, hour: int)
    requires Inv(s)
    ensures Inv(StartListening(s, hour))
  {
    if !s.listening && !s.wished {
      AnnouncedAfterSaid(s.log, WishText(hour));
      GreetingsAppend(s.log, Said(WishText(hour)));
    }
  }

  lemma OnEndPreservesInv(s: Session)
    requires Inv(s)
    ensures Inv(OnEnd(s))
  {
  }

  lemma OnResultPreservesInv(s: Session, transcript: string)
    requires Inv(s) && s.capture
    ensures Inv(OnResult(s, transcript))
  {
    PerformPreservesInv(s, Dispatch(Interpret(Normalize(transcript))));
  }

  lemma PerformPreservesInv(s: Session, a: Action)
    requires Inv(s) && s.capture
    requires a.Reply? ==> !IsGreeting(a.text)
    ensures Inv(Perform(s, a))
  {
    match a
    case Reply(text) =>
      SpeakKeepsLog(s, text, AfterReply);
      assert Perform(s, a).utterances == [AfterReply];
    case SwitchPage(page) =>
      if LastSegment(s.href) == page {
        SpeakKeepsLog(s, AlreadyHereReply, AfterAlreadyHere);
        assert Perform(s, a).utterances == [AfterAlreadyHere];
      } else {
        SpeakKeepsLog(s, OpeningText(page), AfterOpening(page));
        assert Perform(s, a).utterances == [AfterOpening(page)];
      }
  }

  lemma UtteranceEndPreservesInv(s: Session)
    requires Inv(s) && s.utterances != []
    ensures Inv(UtteranceEnd(s))
  {
    match s.utterances[0]
    case AfterGreeting =>
    case AfterReply =>
    case AfterAlreadyHere =>
    case AfterOpening(page) =>
      AnnouncedAfterNavigation(s.log, page);
      GreetingsAppend(s.log, Navigated(page));
  }

  lemma StepPreservesInv(s: Session, e: Event)
    requires Inv(s)
    ensures Inv(Step(s, e))
  {
    match e
    case Click(hour) => ClickPreservesInv(s, hour);
    case CaptureEnded => OnEndPreservesInv(s);
    case Heard(t) => if s.capture { OnResultPreservesInv(s, t); }
    case SpeechEnded => if s.utterances != [] { UtteranceEndPreservesInv(s); }
  }

  lemma {:induction false} RunPreservesInv(s: Session, events: seq<Event>)
    requires Inv(s)
    ensures Inv(Run(s, events))
    decreases |events|
  {
    if events != [] && !s.unloaded {
      StepPreservesInv(s, events[0]);
      RunPreservesInv(Step(s, events[0]), events[1..]);
    }
  }

  /**
   * Whatever happens on the page, capture never runs while something is
   * being said, and only runs while the assistant is listening.
   */
  lemma CaptureNeverWhileSpeaking(href: string, events: seq<Event>)
    ensures CaptureSafe(Run(Init(href), events))
  {
    InitInv(href);
    RunPreservesInv(Init(href), events);
  }

  /** However many times the icon is clicked, the greeting is said at most once. */
  lemma GreetingAtMostOnce(href: string, events: seq<Event>)
    ensures Greetings(Run(Init(href), events).log) <= 1
  {
    InitInv(href);
    RunPreservesInv(Init(href), events);
  }

  /** The icon has been clicked at least once on this page. */
  predicate Activated(s: Session) {
    s.wished || s.listening
  }

  lemma StepKeepsActivated(s: Session, e: Event)
    requires Inv(s) && Activated(s)
    ensures Activated(Step(s, e))
  {
    if e.SpeechEnded? && s.utterances != [] && s.utterances[0] == AfterReply {
      assert s.wished;
    }
  }

  lemma {:induction false} RunKeepsActivated(s: Session, events: seq<Event>)
    requires Inv(s) && Activated(s)
    ensures Activated(Run(s, events))
    decreases |events|
  {
    if events != [] && !s.unloaded {
      StepPreservesInv(s, events[0]);
      StepKeepsActivated(s, events[0]);
      RunKeepsActivated(Step(s, events[0]), events[1..]);
    }
  }

  /**
   * From the first click on, exactly one greeting has been said, however
   * many clicks, transcripts and utterance ends follow.
   */
  lemma GreetingExactlyOnce(href: string, hour: int, events: seq<Event>)
    ensures Greetings(Run(StartListening(Init(href), hour), events).log) == 1
  {
    InitInv(href);
    ClickPreservesInv(Init(href), hour);
    RunPreservesInv(StartListening(Init(href), hour), events);
    RunKeepsActivated(StartListening(Init(href), hour), events);
  }

  /** The page is only left right after its "Opening ... page." announcement. */
  lemma NavigationOnlyAfterAnnouncement(href: string, events: seq<Event>)
    ensures NavigationAnnounced(Run(Init(href), events).log)
  {
    InitInv(href);
    RunPreservesInv(Init(href), events);
  }

  /** Not listening, capture stopped, popup closed with a red border. */
  predicate Closed(s: Session) {
    !s.listening && !s.capture && !s.popup && s.border == Red
  }

  /** A reply is queued while the popup stays open; when it has been said, the session is closed. */
  lemma ReplyEndsListening(s: Session, text: string)
    requires s.listening && s.popup && s.utterances == []
    ensures var s1 := Perform(s, Reply(text));
      s1.utterances == [AfterReply] && Closed(UtteranceEnd(s1))
  {
    var s1 := Perform(s, Reply(text));
    assert s1 == Speak(s, text, AfterReply);
  }

  /**
   * A page switch closes the session at once; the end of its announcement
   * does not reopen it.
   */
  lemma SwitchEndsListening(s: Session, page: string)
    requires s.popup && s.utterances == []
    ensures var s1 := Perform(s, SwitchPage(page));
      |s1.utterances| == 1 && Closed(s1) && Closed(UtteranceEnd(s1))
  {
    var s1 := Perform(s, SwitchPage(page));
    if LastSegment(s.href) == page {
      assert s1 == ToggleChat(StopListening(Speak(s, AlreadyHereReply, AfterAlreadyHere)));
      assert s1.utterances == [AfterAlreadyHere];
    } else {
      assert s1 == ToggleChat(StopListening(Speak(s, OpeningText(page), AfterOpening(page))));
      assert s1.utterances == [AfterOpening(page)];
    }
  }

  /**
   * Every transcript ends the listening session, whichever command it
   * holds: a page switch closes it at once, before its announcement ends;
   * a reply closes it when the reply has been said. Either way the end of
   * that utterance does not restart capture.
   */
  lemma TranscriptEndsListening(s: Session, transcript: string)
    requires Inv(s) && s.capture
    ensures var s1 := OnResult(s, transcript);
      && |s1.utterances| == 1
      && (Interpret(Normalize(transcript)).NavigateTo? ==> Closed(s1))
      && Closed(UtteranceEnd(s1))
  {
    var a := Dispatch(Interpret(Normalize(transcript)));
    assert s.listening && s.popup && s.utterances == [];
    match a
    case Reply(text) => ReplyEndsListening(s, text);
    case SwitchPage(page) => SwitchEndsListening(s, page);
  }

  /**
   * `pageSwitcher` for the page that is already open says so and, when that
   * is said, neither navigates nor restarts capture (listening has stopped).
   */
  lemma AlreadyHereStays(s: Session, page: string)
    requires Inv(s) && s.capture && LastSegment(s.href) == page
    ensures var s1 := Perform(s, SwitchPage(page));
      && s1.log == s.log + [Said(AlreadyHereReply)]
      && var s2 := UtteranceEnd(s1);
      && s2.log == s1.log && s2.unloaded == s.unloaded && !s2.capture
  {
    assert s.utterances == [];
    var s1 := Perform(s, SwitchPage(page));
    assert s1 == ToggleChat(StopListening(Speak(s, AlreadyHereReply, AfterAlreadyHere)));
    assert s1.utterances == [AfterAlreadyHere] && !s1.listening;
  }

  /**
   * `pageSwitcher` for another page announces it and navigates only once the
   * announcement has been said, to exactly that page.
   */
  lemma OpeningNavigatesAfterAnnouncement(s: Session, page: string)
    requires Inv(s) && s.capture && LastSegment(s.href) != page
    ensures var s1 := Perform(s, SwitchPage(page));
      && s1.log == s.log + [Said(OpeningText(page))]
      && s1.unloaded == s.unloaded
      && var s2 := UtteranceEnd(s1);
      && s2.log == s1.log + [Navigated(page)] && s2.unloaded
  {
    assert s.utterances == [];
    var s1 := Perform(s, SwitchPage(page));
    assert s1 == ToggleChat(StopListening(Speak(s, OpeningText(page), AfterOpening(page))));
    assert s1.utterances == [AfterOpening(page)];
  }

  /**
   * The as-written `startListening`, reached by a click while a page
   * switch's announcement is still playing, starts capture while the
   * assistant speaks; the corrected one does not.
   */
  lemma AsWrittenCapturesWhileSpeaking(s: Session, transcript: string, hour: int)
    requires Inv(s) && s.capture && s.wished
    requires Interpret(Normalize(transcript)).NavigateTo?
    ensures var s1 := OnResult(s, transcript);
      && s1.speaking
      && var bad := StartListeningAsWritten(s1, hour);
      && bad.capture && bad.speaking && !CaptureSafe(bad)
      && CaptureSafe(StartListening(s1, hour))
  {
    var a := Dispatch(Interpret(Normalize(transcript)));
    assert a.SwitchPage?;
    var s1 := Perform(s, a);
    assert s1 == ToggleChat(StopListening(PageSwitcher(s, a.page)));
    assert s1.speaking && s1.wished && !s1.listening;
  }

  /**
   * A concrete run on any page: click in the morning, let the greeting
   * finish, say "go to contact page", and click again while the page
   * switch's announcement is being said.
   */
  lemma AsWrittenCounterexample(href: string, transcript: string)
    requires transcript == "go to contact page"
    ensures var s0 := Init(href);
      var s1 := UtteranceEnd(StartListeningAsWritten(s0, 9));
      var s2 := OnResult(s1, transcript);
      var bad := StartListeningAsWritten(s2, 9);
      bad.capture && bad.speaking
  {
    FirstGreetingThenCapture(href, 9);
    var s1 := UtteranceEnd(StartListeningAsWritten(Init(href), 9));
    NormalizeFixed(transcript);
    SelectsContact(transcript);
    AsWrittenCapturesWhileSpeaking(s1, transcript, 9);
  }

  /** The first click greets; when the greeting ends, capture runs and the session is consistent. */
  lemma FirstGreetingThenCapture(href: string, hour: int)
    ensures var s1 := StartListeningAsWritten(Init(href), hour);
      s1.utterances != [] && var s2 := UtteranceEnd(s1);
      Inv(s2) && s2.capture && s2.wished
  {
    var s0 := Init(href);
    InitInv(href);
    ClickPreservesInv(s0, hour);
    assert StartListeningAsWritten(s0, hour) == StartListening(s0, hour);
    UtteranceEndPreservesInv(StartListening(s0, hour));
  }

  /** One event for the page as written: a click runs the as-written `startListening`. */
  function StepAsWritten(s: Session, e: Event): Session {
    match e
    case Click(hour) => StartListeningAsWritten(s, hour)
    case _ => Step(s, e)
  }

  /** A sequence of events for the page as written. */
  function RunAsWritten(s: Session, events: seq<Event>): Session
    decreases |events|
  {
    if events == [] || s.unloaded then s else RunAsWritten(StepAsWritten(s, events[0]), events[1..])
  }

  /**
   * What the page as written keeps: before the greeting has ended nothing
   * but the greeting can be queued and capture is off, and the greeting
   * count is one from the first click on.
   */
  ghost predicate AsWrittenInv(s: Session) {
    && (!s.wished ==> !s.capture && s.utterances == (if s.listening then [AfterGreeting] else []))
    && (!s.wished && s.listening ==> s.speaking)
    && (s.wished ==> AfterGreeting !in s.utterances)
    && Greetings(s.log) == (if Activated(s) then 1 else 0)
  }

  lemma AsWrittenPerformKeepsGreetings(s: Session, a: Action)
    requires AsWrittenInv(s) && s.capture
    requires a.Reply? ==> !IsGreeting(a.text)
    ensures AsWrittenInv(Perform(s, a)) && Activated(Perform(s, a))
  {
    var r := Perform(s, a);
    var e := r.log[|s.log|];
    assert r.log == s.log + [e];
    GreetingsAppend(s.log, e);
    assert r.utterances == s.utterances + [r.utterances[|s.utterances|]];
  }

  lemma AsWrittenStepKeepsInv(s: Session, e: Event)
    requires AsWrittenInv(s)
    ensures AsWrittenInv(StepAsWritten(s, e))
    ensures Activated(s) ==> Activated(StepAsWritten(s, e))
  {
    match e
    case Click(hour) =>
      if !s.listening && !s.wished {
        GreetingsAppend(s.log, Said(WishText(hour)));
      }
    case CaptureEnded =>
    case Heard(t) =>
      if s.capture {
        AsWrittenPerformKeepsGreetings(s, Dispatch(Interpret(Normalize(t))));
      }
    case SpeechEnded =>
      if s.utterances != [] {
        var k := s.utterances[0];
        assert s.utterances == [k] + s.utterances[1..];
        if k.AfterOpening? {
          GreetingsAppend(s.log, Navigated(k.page));
        }
        if k == AfterReply {
          assert s.wished;
        }
      }
  }

  lemma {:induction false} RunAsWrittenKeepsInv(s: Session, events: seq<Event>)
    requires AsWrittenInv(s)
    ensures AsWrittenInv(RunAsWritten(s, events))
    ensures Activated(s) ==> Activated(RunAsWritten(s, events))
    decreases |events|
  {
    if events != [] && !s.unloaded {
      AsWrittenStepKeepsInv(s, events[0]);
      RunAsWrittenKeepsInv(StepAsWritten(s, events[0]), events[1..]);
    }
  }

  /** The greeting guard holds as written too: at most one greeting per page load. */
  lemma GreetingAtMostOnceAsWritten(href: string, events: seq<Event>)
    ensures Greetings(RunAsWritten(Init(href), events).log) <= 1
  {
    RunAsWrittenKeepsInv(Init(href), events);
  }

  /** As written, too, exactly one greeting is said from the first click on. */
  lemma GreetingExactlyOnceAsWritten(href: string, hour: int, events: seq<Event>)
    ensures Greetings(RunAsWritten(StartListeningAsWritten(Init(href), hour), events).log) == 1
  {
    var s := StartListeningAsWritten(Init(href), hour);
    AsWrittenStepKeepsInv(Init(href), Click(hour));
    RunAsWrittenKeepsInv(s, events);
  }

  /** A page switch to another page queues only its announcement and stops listening. */
  lemma SwitchQueuesAnnouncement(s: Session, transcript: string, page: string)
    requires s.utterances == [] && !s.unloaded
    requires Interpret(Normalize(transcript)) == NavigateTo(page) && LastSegment(s.href) != page
    ensures var s0 := OnResult(s, transcript);
      s0.utterances == [AfterOpening(page)] && !s0.listening && s0.wished == s.wished && !s0.unloaded
  {
    var a := Dispatch(Interpret(Normalize(transcript)));
    assert a == SwitchPage(page);
    assert OnResult(s, transcript) == Perform(s, a);
  }

  /** A page switch to another page, then a click as written: capture runs during the announcement. */
  lemma AsWrittenSwitchThenClick(s: Session, transcript: string, page: string, hour: int)
    requires s.wished && s.utterances == [] && !s.unloaded
    requires Interpret(Normalize(transcript)) == NavigateTo(page) && LastSegment(s.href) != page
    ensures var s1 := StartListeningAsWritten(OnResult(s, transcript), hour);
      s1.capture && s1.utterances == [AfterOpening(page)] && !s1.unloaded
  {
    SwitchQueuesAnnouncement(s, transcript, page);
  }

  /**
   * "hello" heard while an announcement plays: its reply is queued behind
   * the announcement, and the page navigates when the announcement ends, so
   * the reply is cut off; in the log, the reply's queueing sits between the
   * announcement and the navigation.
   */
  lemma HelloBehindAnnouncement(s1: Session, hello: string, page: string)
    requires s1.capture && s1.utterances == [AfterOpening(page)] && !s1.unloaded
    requires Interpret(Normalize(hello)) == Greeting
    ensures var s2 := UtteranceEnd(OnResult(s1, hello));
      && s2.unloaded
      && |s2.log| >= 2
      && s2.log[|s2.log| - 2..] == [Said(HelloReply), Navigated(page)]
      && !NavigationAnnounced(s2.log)
  {
    var r := OnResult(s1, hello);
    assert r == Perform(s1, Reply(HelloReply));
    assert r.utterances == [AfterOpening(page), AfterReply];
    assert r.log == s1.log + [Said(HelloReply)];
    var s2 := UtteranceEnd(r);
    assert s2.log == s1.log + [Said(HelloReply), Navigated(page)];
    ReplyThenNavigationUnannounced(s2.log, page);
  }

  /** A log whose navigation comes right after a reply, not an announcement, breaks the rule. */
  lemma ReplyThenNavigationUnannounced(log: seq<Effect>, page: string)
    requires |log| >= 2 && log[|log| - 2..] == [Said(HelloReply), Navigated(page)]
    ensures !NavigationAnnounced(log)
  {
    var n := |log|;
    assert log[n - 1] == Navigated(page) && log[n - 2] == Said(HelloReply);
    assert HelloReply[0] == 'H';
    assert OpeningText(page)[0] == 'O';
  }

  /**
   * As written, the capture started by a click during a page switch's
   * announcement can hear "hello"; its reply is queued behind the
   * announcement. The page still navigates when the announcement ends, which
   * cuts the reply off, but the log no longer has the navigation directly
   * after the queueing of its announcement.
   */
  lemma AsWrittenReplyBeforeNavigation(s: Session, transcript: string, page: string, hello: string, hour: int)
    requires s.capture && s.wished && s.utterances == [] && !s.unloaded
    requires Interpret(Normalize(transcript)) == NavigateTo(page) && LastSegment(s.href) != page
    requires Interpret(Normalize(hello)) == Greeting
    ensures var s1 := StartListeningAsWritten(OnResult(s, transcript), hour);
      && s1.capture
      && var s2 := UtteranceEnd(OnResult(s1, hello));
      && s2.unloaded
      && !NavigationAnnounced(s2.log)
  {
    AsWrittenSwitchThenClick(s, transcript, page, hour);
    var s1 := StartListeningAsWritten(OnResult(s, transcript), hour);
    HelloBehindAnnouncement(s1, hello, page);
  }
}

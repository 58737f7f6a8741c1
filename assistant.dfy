// The assistant's handlers as an object whose fields are the module-level
// flags, the popup and border, the capture bit, the speech queue and the
// effect log. The click handler is the corrected one: it starts capture only
// when nothing is being said (the handler as written is
// `AssistantModel.StartListeningAsWritten`). Every handler is proved to do exactly
// what the matching step of `AssistantModel` does, and the handlers that
// the page's events call keep `Valid()`.
module AssistantController {
  import opened Text
  import opened Commands
  import M = AssistantModel

  class Assistant {
    var isListening: bool
    var isSpeaking: bool
    var hasWished: bool
    var popupShown: bool
    var border: M.Border
    var captureActive: bool
    var utterances: seq<M.Continuation>
    var log: seq<M.Effect>
    const href: string
    var unloaded: bool

    /** The fields read as a session value. */
    function State(): M.Session
      reads this
    {
      M.Session(isListening, isSpeaking, hasWished, popupShown, border,
                captureActive, utterances, log, href, unloaded)
    }

    ghost predicate Valid()
      reads this
    {
      M.Inv(State())
    }

    /** The script has loaded on the page at `location`. */
    constructor (location: string)
      ensures State() == M.Init(location) && Valid()
    {
      isListening, isSpeaking, hasWished := false, false, false;
      popupShown, border, captureActive := false, M.Red, false;
      utterances, log := [], [];
      href, unloaded := location, false;
      M.InitInv(location);
    }

    method ToggleChat()
      modifies this
      ensures State() == M.ToggleChat(old(State()))
    {
      popupShown := !popupShown;
      if popupShown {
        border := M.Green;
      } else {
        border := M.Red;
      }
    }

    method Speak(text: string, k: M.Continuation)
      modifies this
      ensures State() == M.Speak(old(State()), text, k)
    {
      if isListening {
        captureActive := false;
      }
      isSpeaking := true;
      utterances := utterances + [k];
      log := log + [M.Said(text)];
    }

    method StopListening()
      modifies this
      ensures State() == M.StopListening(old(State()))
    {
      isListening := false;
      captureActive := false;
    }

    /**
     * A click on the icon, at hour `hour` of the day, with the corrected
     * start of capture: it is started only when nothing is being said.
     */
    method StartListening(hour: int)
      requires Valid()
      modifies this
      ensures Valid()
      ensures State() == M.StartListening(old(State()), hour)
    {
      M.ClickPreservesInv(State(), hour);
      if !isListening {
        isListening := true;
        ToggleChat();
        if !hasWished {
          Speak(WishText(hour), M.AfterGreeting);
        } else if !isSpeaking {
          captureActive := true;
        }
      }
    }

    /** `recognition.onend`. */
    method OnEnd()
      requires Valid()
      modifies this
      ensures Valid()
      ensures State() == M.OnEnd(old(State()))
    {
      M.OnEndPreservesInv(State());
      captureActive := false;
      if isListening && !isSpeaking {
        captureActive := true;
      }
    }

    method PageSwitcher(page: string)
      modifies this
      ensures State() == M.PageSwitcher(old(State()), page)
    {
      var current := LastSegment(href);
      if current == page {
        Speak(AlreadyHereReply, M.AfterAlreadyHere);
      } else {
        Speak(OpeningText(page), M.AfterOpening(page));
      }
    }

    /** `recognition.onresult`; the engine only delivers a transcript while capturing. */
    method OnResult(transcript: string)
      requires Valid() && captureActive
      modifies this
      ensures Valid()
      ensures State() == M.OnResult(old(State()), transcript)
    {
      M.OnResultPreservesInv(State(), transcript);
      var action := Dispatch(Interpret(Normalize(transcript)));
      Perform(action);
    }

    /** `takeCommand`'s action for the recognised command, up to its first suspension. */
    method Perform(action: Action)
      modifies this
      ensures State() == M.Perform(old(State()), action)
    {
      match action
      case Reply(text) =>
        Speak(text, M.AfterReply);
      case SwitchPage(page) =>
        PageSwitcher(page);
        StopListening();
        ToggleChat();
    }

    /** The utterance at the head of the speech queue has been said. */
    method UtteranceEnd()
      requires Valid() && utterances != []
      modifies this
      ensures Valid()
      ensures State() == M.UtteranceEnd(old(State()))
    {
      M.UtteranceEndPreservesInv(State());
      var k := utterances[0];
      utterances := utterances[1..];
      isSpeaking := false;
      match k
      case AfterGreeting =>
        hasWished := true;
        captureActive := true;
      case AfterReply =>
        StopListening();
        ToggleChat();
      case AfterAlreadyHere =>
        if isListening && !isSpeaking {
          captureActive := true;
        }
      case AfterOpening(page) =>
        log := log + [M.Navigated(page)];
        unloaded := true;
    }
  }
}

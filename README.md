# Voice assistant widget: a Dafny model

This project models `js/virtual-assistant.js`, the script behind a web page's
voice assistant icon. It has three parts.

- **Command interpreter** (`text.dfy`, `commands.dfy`).
  - A transcript is trimmed and lower-cased.
  - It is then tested against an ordered chain of phrases with `includes`.
    The first phrase that occurs wins, and a fallback reply covers the rest.
  - `wishMe` picks a greeting from the hour of the day.
  - `pageSwitcher` compares the last `/`-segment of the current URL with the
    target page. It announces "Opening <name> page.", where the name is the
    target's text before `.html`.
- **Assistant state machine** (`assistant_model.dfy`, `assistant.dfy`).
  - The state is `isListening`, `isSpeaking` and `hasWished`, plus three more
    things: whether the chat popup is shown (and the border colour), whether
    speech capture runs, and the queue of utterances given to the speech
    engine.
  - Each queued utterance carries the code that awaits its end: the rest of
    `startListening`, the rest of `takeCommand`, or a `pageSwitcher`
    continuation.
  - A log records each `speak` call at the moment its utterance is queued,
    and each navigation.
  - Every handler runs up to its next `await`. An utterance's end is an event
    of its own.
  - `AssistantModel` gives each handler as a function on a `Session` value.
    The class `AssistantController.Assistant` holds the same state in fields.
    Its methods are proved to change the fields as those functions say. The
    four event handlers `StartListening`, `OnEnd`, `OnResult` and
    `UtteranceEnd` are also proved to keep the invariant; the other methods
    are steps inside a handler, and the invariant need not hold between them.
- **Drag gesture recognizer** (`drag.dfy`).
  - A mouse-down sets a 300 ms timer. When the timer fires, the pointer's
    offset inside the icon is fixed and dragging starts.
  - Each move while dragging places the icon at pointer minus offset.
  - A mouse-up clears the timer whose id is in `longPressTimeout` and ends
    the drag.
  - Timers are explicit: a FIFO of pending presses with ids. The "timer
    fired" event takes the oldest one.

The main results are these:

- Capture never runs while the assistant speaks. It also runs only while
  the assistant listens (`CaptureNeverWhileSpeaking`).
- The greeting is said at most once per page load (`GreetingAtMostOnce`). From
  the first click on, it has been said exactly once (`GreetingExactlyOnce`).
- In the log, every navigation directly follows the queueing of the
  "Opening ... page." announcement for that page, so no other utterance is
  queued between them (`NavigationOnlyAfterAnnouncement`).
- Every transcript ends the listening session (`TranscriptEndsListening`).
- The phrase chain is exactly first-match over the command table
  (`InterpretIsFirstMatch`). Each phrase of the table, said on its own,
  selects its own row (`PhraseSelectsOwnRow`).

The first three are proved for every sequence of events from page load on.
They follow from one invariant that every event keeps (`Inv`,
`RunPreservesInv`).

These run theorems, and the class, use the corrected click handler described
under "## Findings": capture starts only when nothing is being said. The
click handler as written (`StartListeningAsWritten`, run by `RunAsWritten`)
still says the greeting at most once, and exactly once from the first click
on (`GreetingAtMostOnceAsWritten`, `GreetingExactlyOnceAsWritten`). It breaks
the other two, and with them the invariant. On any page other than
`contact.html`, one run shows both breaks: click, greeting ends, "go to
contact page", click again during the announcement, "hello", end of the
announcement. (On `contact.html` the switch only says it is already there,
nothing navigates, and the log order holds.) In that run capture runs while the announcement is said
(`AsWrittenCounterexample`). Then the hello reply is queued behind the
announcement. The page still navigates from the announcement's own
continuation as soon as the announcement ends, so the reply is cut off and
the rest of `takeCommand` never runs. Only the log-order property breaks: the
reply's queueing sits between the announcement and its navigation
(`AsWrittenReplyBeforeNavigation`). The same line can also leave the popup
shown with a green border while nothing listens. On `index.html`: click,
greeting ends, "go to home page", click again during "You are already on this
page." (line 111 starts capture at once), "hello", end of the already-here
utterance, "what is your name", end, end. Each reply's continuation runs
`toggleChat` (line 155), and the second one reopens the popup after listening
has stopped. So `TranscriptEndsListening`, which assumes the invariant, holds
for the corrected handler only.

The two flags `isListening` and `isSpeaking` can both be true. For example,
both are true while the first greeting plays (lines 105 and 108). So the
invariant is stated on capture versus speaking, not on those two flags.

`pageSwitcher` is not awaited at lines 132-140. For a page switch, these
happen in one step: the announcement is queued, listening stops and the
popup closes. So the restart check at line 200 sees `isListening == false`,
unless the icon is clicked again while "You are already on this page." plays;
then the click sets `isListening` and line 200 restarts capture.

Two behaviours of the code worth noting:

- The blog command opens `Blog.html`, so the announcement is "Opening Blog
  page.".
- `wishMe` gives the evening greeting for every hour outside 0-15, including
  out-of-range values.

## Model

| member | source | states |
|---|---|---|
| Text.Lower | js/virtual-assistant.js:125 | lower-casing keeps the length and folds each character on its own; the result has no upper-case letter |
| Text.TrimStart | js/virtual-assistant.js:70 | the result is a suffix of the input; only whitespace was dropped; it does not start with whitespace |
| Text.TrimEnd | js/virtual-assistant.js:70 | the result is a prefix of the input; only whitespace was dropped; it does not end with whitespace |
| Text.Trim | js/virtual-assistant.js:70 | the result is one slice of the input with only whitespace outside it, and it neither starts nor ends with whitespace; `Text.TrimUnique` shows these fix it as the input with exactly its leading and trailing whitespace removed |
| Text.TrimUnique | js/virtual-assistant.js:70 | any slice of the input with only whitespace outside it and none at its own ends is the trimmed transcript |
| Text.LowerTrimCommute | js/virtual-assistant.js:70 | trimming (line 70) and lower-casing (line 125) commute |
| Text.Contains | js/virtual-assistant.js:129 | `includes` holds exactly when the phrase occurs at some index |
| Text.LastSegment | js/virtual-assistant.js:196 | `split('/').pop()` is the longest suffix with no `/`: the whole URL, or the part after its last `/` |
| Text.BeforeHtml | js/virtual-assistant.js:203 | `split('.html')[0]` is the prefix before the first `.html`, or the whole name when `.html` does not occur |
| Commands.WishText | js/virtual-assistant.js:57-63 | the greeting is morning exactly for hours 0-11, afternoon exactly for 12-15, and evening for every other value |
| Commands.InterpretIsFirstMatch | js/virtual-assistant.js:129-151 | the `if`/`else if` chain gives the intent of the first table row with a phrase in the message, or the fallback when no row matches |
| Commands.Normalize | js/virtual-assistant.js:125 | the result is the lower-cased form of one slice of the transcript with only whitespace outside it (trimmed at line 70, lower-cased at line 125); it has no upper-case letter and neither starts nor ends with whitespace |
| Commands.NormalizeUnique | js/virtual-assistant.js:125 | any lower-cased slice of the transcript with only whitespace outside it and none at its own ends is the normalised transcript, so `Commands.Normalize`'s contract determines it |
| Commands.NormalizeIdempotent | js/virtual-assistant.js:70 | normalising a normalised transcript changes nothing |
| Commands.Interpret | js/virtual-assistant.js:129-130 | the greeting is chosen exactly when "hello" occurs, whatever else the message contains |
| Commands.FirstMatchNone | js/virtual-assistant.js:149-151 | in the reference first-match reading, the fallback comes out exactly when no row has a phrase in the message |
| Commands.FirstMatchIs | js/virtual-assistant.js:129-148 | in the reference first-match reading, row `j`'s intent comes out exactly when row `j` matches and no earlier row does |
| Commands.PhraseSelectsOwnRow | js/virtual-assistant.js:129-148 | every phrase of the table, said on its own, is interpreted as its own row's intent: no earlier test in the chain catches it |
| Commands.UnrecognizedIffNoPhrase | js/virtual-assistant.js:149-151 | the fallback is chosen exactly when no table row has a phrase in the message |
| Commands.FarewellIff | js/virtual-assistant.js:147-148 | the farewell is chosen exactly when "stop" or "goodbye" occurs and none of the nine phrases of rows 0-8 does |
| Commands.Dispatch | js/virtual-assistant.js:129-151 | navigation intents and only they switch page, to their own page; every other intent is a reply that is neither a greeting nor the already-here text; the fallback intent says the fallback reply |
| Commands.OpeningText | js/virtual-assistant.js:203-204 | the announcement is neither a greeting nor the already-here text |
| Commands.NormalizeIgnoresCase | js/virtual-assistant.js:125 | transcripts that agree once lower-cased are interpreted alike |
| Commands.ContactScenario | js/virtual-assistant.js:133-134 | "Go To Contact Page" switches to `contact.html`, announced as "Opening contact page." |
| Commands.StopScenario | js/virtual-assistant.js:147-148 | "STOP" gives the farewell reply |
| AssistantModel.ToggleChat | js/virtual-assistant.js:85-95 | the popup flips; afterwards the border is green exactly when the popup is shown; nothing else changes |
| AssistantModel.Speak | js/virtual-assistant.js:29-48 | capture is stopped if listening; `isSpeaking` is set; the utterance and its continuation are queued and the text is logged |
| AssistantModel.StopListening | js/virtual-assistant.js:117-121 | listening and capture are off; nothing else changes |
| AssistantModel.StartListeningAsWritten | js/virtual-assistant.js:103-114 | a no-op when already listening; otherwise listening with the popup toggled. On the first activation the greeting is logged and capture waits; later, capture starts at once, whether or not an utterance plays |
| AssistantModel.StartListening | js/virtual-assistant.js:103-114 | a no-op when already listening; otherwise listening with the popup toggled. The greeting is logged exactly when `hasWished` is false. Capture is never started while an utterance plays (see Findings) |
| AssistantModel.OnEnd | js/virtual-assistant.js:77-82 | after capture ends, it runs again exactly when listening and not speaking |
| AssistantModel.PageSwitcher | js/virtual-assistant.js:195-208 | the current page gets the already-here reply; any other page gets its "Opening" announcement with navigation left to the announcement's end |
| AssistantModel.OnResult | js/virtual-assistant.js:69-74 | a transcript logs exactly one utterance, never a greeting, and sets `isSpeaking`; a navigation command stops listening and capture and toggles the popup at once, any other command leaves both for later |
| AssistantModel.Perform | js/virtual-assistant.js:124-156 | a reply logs its own text, queues the rest of `takeCommand` (`AfterReply`) and keeps listening and the popup; a page switch logs the already-here reply with its line-200 continuation for the open page, or the "Opening" announcement with the navigation continuation for another page, then stops listening and capture and toggles the popup |
| AssistantModel.UtteranceEnd | js/virtual-assistant.js:41-45 | `isSpeaking` drops and the head of the queue is removed; after the greeting `hasWished` is set and capture starts; after a reply listening stops and the popup toggles; after "already here" capture restarts only if listening; after an announcement the page navigates to that page and nothing else is logged |
| AssistantModel.TranscriptEndsListening | js/virtual-assistant.js:153-155 | after any transcript and the end of the utterance it causes, listening and capture are off and the popup is closed with a red border; a page switch closes it at once |
| AssistantModel.ReplyEndsListening | js/virtual-assistant.js:153-155 | a reply keeps the popup open until it has been said; then listening and capture are off and the popup is closed with a red border |
| AssistantModel.SwitchEndsListening | js/virtual-assistant.js:132-140 | a page switch closes the session before its announcement ends, and that announcement's end does not reopen it |
| AssistantModel.AlreadyHereStays | js/virtual-assistant.js:198-201 | for the open page: the already-here reply is said; when it ends, nothing is logged and capture stays off, because listening has stopped |
| AssistantModel.OpeningNavigatesAfterAnnouncement | js/virtual-assistant.js:202-206 | for another page: the announcement is logged; navigation to exactly that page follows only when the announcement ends |
| AssistantModel.CaptureNeverWhileSpeaking | js/virtual-assistant.js:37-44 | in every run from page load, capture runs only while listening and not speaking |
| AssistantModel.GreetingAtMostOnce | js/virtual-assistant.js:107-110 | in every run from page load, at most one greeting is logged |
| AssistantModel.NavigationOnlyAfterAnnouncement | js/virtual-assistant.js:204-206 | in every run from page load, each navigation entry in the log directly follows the queueing of that page's announcement |
| AssistantModel.GreetingExactlyOnce | js/virtual-assistant.js:107-110 | from the first click on, in every run, exactly one greeting has been logged |
| AssistantModel.RunPreservesInv | js/virtual-assistant.js:98-100 | every sequence of clicks, capture ends, transcripts and utterance ends keeps the invariant |
| AssistantModel.AsWrittenCapturesWhileSpeaking | js/virtual-assistant.js:111 | a click during a page switch's announcement: the as-written `startListening` starts capture while speaking; the corrected one does not |
| AssistantModel.AsWrittenCounterexample | js/virtual-assistant.js:111 | the run click, greeting ends, "go to contact page", click reaches capture while speaking in the as-written code |
| AssistantModel.RunAsWrittenKeepsInv | js/virtual-assistant.js:103-114 | with the as-written click handler every run keeps a weaker invariant, which still ties the greeting count to `hasWished` or `isListening` |
| AssistantModel.GreetingAtMostOnceAsWritten | js/virtual-assistant.js:107-110 | with the as-written click handler, at most one greeting is logged in every run |
| AssistantModel.GreetingExactlyOnceAsWritten | js/virtual-assistant.js:107-110 | with the as-written click handler, exactly one greeting is logged from the first click on |
| AssistantModel.SwitchQueuesAnnouncement | js/virtual-assistant.js:132-140 | a navigation to another page queues only its announcement, and listening stops before the announcement ends |
| AssistantModel.HelloBehindAnnouncement | js/virtual-assistant.js:129-130 | "hello" heard during an announcement queues its reply behind it; when the announcement ends the page navigates, cutting the reply off, and the log ends with the reply's queueing and then the navigation, so the log-order property fails |
| AssistantModel.AsWrittenReplyBeforeNavigation | js/virtual-assistant.js:111 | as written, a click during a page switch's announcement starts capture; a "hello" heard then has its reply queued between the announcement and the navigation in the log |
| AssistantController.Assistant.constructor | js/virtual-assistant.js:16-19 | all flags false, popup hidden, nothing queued or logged; the invariant holds |
| AssistantController.Assistant.ToggleChat | js/virtual-assistant.js:85-95 | the fields change as `AssistantModel.ToggleChat` says |
| AssistantController.Assistant.Speak | js/virtual-assistant.js:29-48 | the fields change as `AssistantModel.Speak` says |
| AssistantController.Assistant.StopListening | js/virtual-assistant.js:117-121 | the fields change as `AssistantModel.StopListening` says |
| AssistantController.Assistant.StartListening | js/virtual-assistant.js:103-114 | the click handler keeps the invariant and changes the fields as `AssistantModel.StartListening` says |
| AssistantController.Assistant.OnEnd | js/virtual-assistant.js:77-82 | keeps the invariant and changes the fields as `AssistantModel.OnEnd` says |
| AssistantController.Assistant.PageSwitcher | js/virtual-assistant.js:195-208 | the fields change as `AssistantModel.PageSwitcher` says |
| AssistantController.Assistant.OnResult | js/virtual-assistant.js:69-74 | keeps the invariant and changes the fields as `AssistantModel.OnResult` says |
| AssistantController.Assistant.Perform | js/virtual-assistant.js:124-156 | the fields change as `AssistantModel.Perform` says: a reply is queued, or a page switch is started and listening stops with the popup toggled |
| AssistantController.Assistant.UtteranceEnd | js/virtual-assistant.js:41-45 | keeps the invariant; `isSpeaking` drops and the awaiting code resumes, as `AssistantModel.UtteranceEnd` says |
| Drag.MouseDown | js/virtual-assistant.js:159-170 | a new timer with a fresh id is queued with the press point and becomes `longPressTimeout`; the icon, the drag flag and the offset are unchanged |
| Drag.TimerFires | js/virtual-assistant.js:161-169 | the oldest timer fires: dragging starts with the offset set so that icon corner plus offset is the press point; the icon and the timer ids do not change |
| Drag.MouseMove | js/virtual-assistant.js:173-183 | while dragging, the icon goes to the pointer minus the offset and nothing else changes; otherwise nothing changes |
| Drag.Without | js/virtual-assistant.js:187 | `clearTimeout` removes exactly the timers with that id, every copy of them and nothing else (stated on multiplicities); the others keep their order, and the oldest stays first when it is not the one cleared |
| Drag.MouseUp | js/virtual-assistant.js:186-193 | dragging stops; the pending timers are those before the release minus the one with id `longPressTimeout`, in their order and with every other timer's multiplicity kept; the icon, the offset and the timer ids do not change |
| Drag.MovesDoNotAccumulate | js/virtual-assistant.js:173-183 | two moves in a row leave the icon where the second alone would put it |
| Drag.GrabbedPointFollowsPointer | js/virtual-assistant.js:176-177 | after the timer fires, moving the pointer by (dx, dy) from the press point moves the icon by (dx, dy) from where it stood |
| Drag.ReleaseEndsGesture | js/virtual-assistant.js:186-193 | with at most one pending timer, the latest one, a release leaves the recognizer idle |
| Drag.ShortPressIsNotADrag | js/virtual-assistant.js:159-193 | a press released before the timer fires starts no drag, leaves the icon in place and ends idle |
| Drag.PressHoldMoveRelease | js/virtual-assistant.js:159-193 | press, timer fires, move, release: the icon ends at pointer minus grab offset, the recognizer is idle, and later moves change nothing |
| Drag.SecondPressLeavesStaleTimer | js/virtual-assistant.js:161 | two presses before one release leave the first timer pending, and it can still start a drag |
| Drag.DragRecognizer.constructor | js/virtual-assistant.js:12-14 | not dragging, no timer pending, icon at the given position |
| Drag.DragRecognizer.OnMouseDown | js/virtual-assistant.js:159-170 | keeps well-formedness and changes the fields as `Drag.MouseDown` says |
| Drag.DragRecognizer.OnTimer | js/virtual-assistant.js:161-169 | keeps well-formedness and changes the fields as `Drag.TimerFires` says |
| Drag.DragRecognizer.OnMouseMove | js/virtual-assistant.js:173-183 | the fields change as `Drag.MouseMove` says |
| Drag.DragRecognizer.OnMouseUp | js/virtual-assistant.js:186-193 | keeps well-formedness and changes the fields as `Drag.MouseUp` says |

## Findings

| source | as written | input that shows it | evidently intended | confidence | as-written member | corrected member |
|---|---|---|---|---|---|---|
| js/virtual-assistant.js:111 | `startListening` calls `recognition.start()` without checking `isSpeaking` | click (greeting plays and ends), say "go to contact page", click again while "Opening contact page." (or "You are already on this page.") plays: capture runs while speaking. This is reachable because `pageSwitcher` is not awaited and `stopListening` has already cleared `isListening` | capture is never started while an utterance plays, as `speak`, `onend` and line 200 ensure elsewhere | medium, not executed | AssistantModel.AsWrittenCounterexample | AssistantModel.StartListening |

`AssistantModel.StartListeningAsWritten` is the as-written handler.
`AssistantModel.AsWrittenCapturesWhileSpeaking` shows the discrepancy from
every reachable state in which capture runs after the greeting and the
transcript asks for a page. `AssistantModel.AsWrittenCounterexample` shows it on the
concrete run above. The corrected `AssistantModel.StartListening` starts
capture only when nothing is being said. The class and the invariant proof
use the corrected handler. `AssistantModel.AsWrittenReplyBeforeNavigation`
shows a second effect of the same line: a "hello" heard during the
announcement has its reply queued behind the announcement. The page still
navigates when the announcement ends, so the reply is cut off. If an utterance is still playing, capture is not
started. For "already on this page", the continuation at line 200 starts it
once the utterance ends. For "Opening ...", the page navigates anyway.

## Left out

- The unsupported-browser `alert` (lines 4-6) and every `console.log` are not modelled.
- Class lists, the `blurred` class, cursor strings and CSS pixel strings are not modelled. Only the popup-shown bit and the border colour are kept.
- The initial border colour comes from the page's stylesheet, which is not part of this model. It is taken to be red.
- The speech recognition and synthesis engines are not modelled. This includes utterance rate, pitch, volume and language.
  - Capture is one bit: `start` sets it, `stop` clears it, and an end event clears it before the handler runs.
  - A transcript arrives only while the bit is set. A final result that a real engine may deliver after `stop()` is not modelled.
  - The error `start()` raises in a browser when capture already runs is not modelled.
- `Date` and `setTimeout` are not modelled. The hour is an input of the click event. The 300 ms timer is an explicit "timer fired" event.
- `requestAnimationFrame(onMouseMove)` at line 167 passes a timestamp, not a mouse event. Its coordinates would be `NaN`, which the browser ignores. It is treated as a no-op.
- Adding and removing the `mousemove` listener (lines 168 and 191) is not tracked separately. `onMouseMove` checks `isDragging` itself, and the listener is attached exactly while `isDragging` holds.
- Pixel coordinates are integers, not floating point. `getBoundingClientRect()` and `style.left/top` are taken to use the same coordinates.
- `toLowerCase` and `trim` are modelled on ASCII only. Only A-Z are folded, and only space, tab, line feed, carriage return, vertical tab and form feed are trimmed.
- Leaving the page is recorded as a `Navigated` effect and an `unloaded` flag. After it, a run delivers no further events. The next page's fresh script state is not modelled.
- AssistantModel.CaptureNeverWhileSpeaking, AssistantModel.NavigationOnlyAfterAnnouncement, AssistantModel.TranscriptEndsListening and AssistantModel.RunPreservesInv are proved for the corrected click handler only. As written, capture can run during an announcement, a reply can be queued between an announcement and its navigation (the navigation itself still happens when the announcement ends), and the popup can be left shown and green while nothing listens (see Findings).
- Two utterances queued at once can only happen after the as-written click above. The queue is modelled, and the invariant shows that with the corrected handler at most one utterance is queued.
- The `click` listener (lines 98-100) is not suppressed after a drag. The source does not suppress it, and the model adds nothing.
- Drag.ReleaseEndsGesture: a release returns the recognizer to idle only when at most one timer is pending. `clearTimeout` clears only the latest timer, and `Drag.SecondPressLeavesStaleTimer` shows the case it misses.

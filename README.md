# Portfolio page script, modelled in Dafny

This project models the sequential logic inside the portfolio site's page
script, js/main.js. Each piece has its own module:

- **ParticleMotion, ParticleLinks, ParticleField**: the background particle
  field.
  - `setupCanvas` fills a pool with 60 particles.
  - `Particle.update` moves a particle and bounces it off the canvas edges.
  - `connectParticles` draws a line, with opacity `1 - d/150`, between every
    pair of particles closer than 150.
  - `animate`, `pauseCanvasAnimation` and `resumeCanvasAnimation` drive the
    frame loop.
  - The canvas branch starts the field only on a wide, non-touch screen.
- **FrameLoop**: the pause/resume flag and the chain of
  requestAnimationFrame callbacks, as a pure state machine. It counts the
  pending frame callbacks and all frames ever requested.
- **Typing**: the typing effect's type/erase callbacks over the four
  headline words, and the timer each callback sets.
- **Navigation**:
  - the navbar's hide-on-scroll rule and `lastScroll`;
  - the choice of the active section;
  - the highlighting of the nav links that point at that section.
- **ContactForm**: the contact form's required-field check, the red borders,
  the status line and whether submission is stopped.
- **Scroller**: the keyword scrollers, whose tracks are doubled with hidden
  clones.
- **Modal**:
  - the `modalData` key lookup;
  - the placeholder-image key derived from a title;
  - the overlay and scroll lock;
  - pausing the canvas while a modal is open.
- **JsText**: the JavaScript whitespace set shared by `String.prototype.trim`
  and the `\s` class, plus `trim`, `replace(/\s+/g, '+')` and
  `String.prototype.includes`.

State the script changes in place becomes a class:

- `Particle`, `Field`, `Typewriter`, `NavBar`, `Form`, `Scroller` and
  `ModalController`.
- Each method is proved against a pure function of the old state.
- The properties are proved about those functions.

The following are inputs to the model:

- the browser and its timers;
- the `Math.random` draws;
- `Math.hypot`;
- the DOM queries: sections and their offsets, link hrefs, field values and
  the scroller items.

Positions, velocities and distances are mathematical reals. Canvas sizes
are natural numbers.

## Model

| member | source | states |
|---|---|---|
| JsText.IsWhitespace | js/main.js:404 | the JavaScript whitespace set, WhiteSpace and LineTerminator code points, which both `\s` and `trim` use |
| JsText.Trim | js/main.js:495 | the trimmed value is empty exactly when every character is JavaScript whitespace, and otherwise starts and ends with a non-whitespace character |
| JsText.ReplaceWhitespaceRuns | js/main.js:404 | `replace(/\s+/g, '+')`, replacing each maximal whitespace run by one '+'; its meaning is stated by ReplaceLeavesNoWhitespace, ReplaceKeepsPlainText, ReplaceIdempotent and RunBecomesOnePlus |
| JsText.ReplaceLeavesNoWhitespace | js/main.js:404 | `replace(/\s+/g, '+')` leaves no whitespace character |
| JsText.ReplaceKeepsPlainText | js/main.js:404 | a string without whitespace is left unchanged by the replacement |
| JsText.ReplaceIdempotent | js/main.js:404 | replacing twice gives what replacing once gives |
| JsText.RunBecomesOnePlus | js/main.js:404 | a maximal whitespace run between two parts becomes exactly one '+', and each part is replaced on its own |
| JsText.Includes | js/main.js:147 | `includes` is true exactly when the pattern occurs at some index of the string |
| FrameLoop.AnimateStep | js/main.js:99-105 | one animate call on the schedule; AnimateSpec states that a clear flag changes nothing and a set flag requests one frame |
| FrameLoop.PauseStep | js/main.js:107 | pauseCanvasAnimation; PauseSpec states that the flag is cleared, the counts are kept and pausing twice is pausing once |
| FrameLoop.ResumeStep | js/main.js:108-113 | resumeCanvasAnimation as written; ResumeSpec states its no-op and its single animate call, and PauseResumeDoublesChain the second chain it starts |
| FrameLoop.ResumeOnceStep | js/main.js:108-113 | the corrected resume; ResumeOnceAgrees ties it to the written one, and IntendedKeepsSingleChain states the single chain it keeps |
| FrameLoop.FrameStep | js/main.js:104 | the host firing one pending frame callback, which runs animate; IntendedStepKeepsSingleChain states that it keeps a single chain |
| FrameLoop.Run | js/main.js:99-113 | the schedule after a sequence of pause, resume and frame events; RequestsMonotone, TogglesStackChains and IntendedKeepsSingleChain state its behaviour |
| FrameLoop.AnimateSpec | js/main.js:99-105 | animate with the flag clear changes nothing and requests no frame; with the flag set it requests exactly one frame |
| FrameLoop.PauseSpec | js/main.js:107 | pause always clears the flag, leaves the frame counts alone, and pausing twice is pausing once |
| FrameLoop.ResumeSpec | js/main.js:108-113 | resume while running is a no-op; resume while paused sets the flag and runs animate once, requesting one frame |
| FrameLoop.RequestsMonotone | js/main.js:99-113 | no sequence of events lowers the number of frames requested |
| FrameLoop.PauseResumeDoublesChain | js/main.js:104-113 | with the resume as written, pause then resume before the pending frame fires leaves two frame callbacks pending (two animate chains) |
| FrameLoop.TogglesStackChains | js/main.js:104-113 | k such pause/resume pairs leave k + 1 chains running |
| FrameLoop.IntendedStepKeepsSingleChain | js/main.js:104-113 | with the corrected resume, every pause, resume or frame event keeps at most one chain, and exactly one while running |
| FrameLoop.IntendedKeepsSingleChain | js/main.js:104-113 | the corrected resume keeps a single chain through any sequence of events |
| FrameLoop.ResumeOnceAgrees | js/main.js:108-113 | the corrected resume does what the written one does when no frame is pending, is a no-op while running, and always sets the flag |
| ParticleMotion.Scale | js/main.js:61-62 | `Math.random() * size` lies in [0, size), or is 0 when the size is 0 |
| ParticleMotion.Spawn | js/main.js:60-66 | a new particle lies on the canvas, has each velocity component in [-0.25, 0.25) and radius 2 |
| ParticleMotion.Reflect | js/main.js:68-71 | one axis of update; ReflectKeepsBand states that the coordinate stays within one step of its range |
| ParticleMotion.Advance | js/main.js:67-72 | Particle.update on the particle's state; AdvanceSpec states it in full and AdvanceKeepsSettled the invariant it keeps |
| ParticleMotion.AdvanceSpec | js/main.js:67-72 | update moves by the old velocity and negates a component exactly when the new coordinate is below 0 or beyond the size; speed and radius are kept |
| ParticleMotion.OvershootExample | js/main.js:68-70 | the position is not clamped: a particle can end up beyond the right edge, with its velocity reversed |
| ParticleMotion.SettledIsContained | js/main.js:67-72 | a settled particle is off the canvas by at most one step |
| ParticleMotion.SpawnSettled | js/main.js:60-66 | every new particle is settled |
| ParticleMotion.ReflectKeepsBand | js/main.js:68-71 | one axis of update keeps a coordinate within one step of its range |
| ParticleMotion.AdvanceKeepsSettled | js/main.js:67-72 | update keeps a particle settled |
| ParticleMotion.SettledForever | js/main.js:67-72 | any number of updates keeps a particle settled, with the same speed per axis and the same radius |
| ParticleMotion.AdvanceAll | js/main.js:102 | the pool after one frame holds each particle's update, index by index |
| ParticleMotion.AdvanceAllKeepsSettled | js/main.js:102 | one frame keeps a settled pool settled |
| ParticleLinks.Opacity | js/main.js:88 | below distance 150 the opacity lies in (0, 1], and it is 1 exactly at distance 0 |
| ParticleLinks.OpacityExamples | js/main.js:87-88 | the opacity is 1 at distance 0, 0.5 at 75 and 0 at 150 |
| ParticleLinks.RowPairsSpec | js/main.js:85 | the inner loop of row i visits (i, i+1), ..., (i, j-1) in order |
| ParticleLinks.PairsBeforeRange | js/main.js:84-85 | every pair visited before row i has a first index below i and a second index above the first and below the pool size |
| ParticleLinks.PairsBeforeHoldsAll | js/main.js:84-85 | every pair a < b < n with a below i has been visited before row i |
| ParticleLinks.PairsBeforeIncreasing | js/main.js:84-85 | the pairs are visited in strictly increasing order |
| ParticleLinks.PairsBeforeCount | js/main.js:84-85 | the first i rows visit i(2n - i - 1)/2 pairs |
| ParticleLinks.PairsSpec | js/main.js:84-85 | the nested loops visit exactly the pairs a < b < n, each once, n(n-1)/2 of them |
| ParticleLinks.PoolPairCount | js/main.js:84-85 | a pool of 60 particles has 1770 pairs examined per frame |
| ParticleLinks.RowSoFarSelects | js/main.js:85-95 | the lines of one row are the lines of the row's pairs, in order |
| ParticleLinks.RowsSoFarSelects | js/main.js:84-96 | the lines of the first i rows are the lines of their pairs, in order |
| ParticleLinks.LinksVisitPairs | js/main.js:84-96 | connectParticles draws, in order, the line of each pair a < b < n |
| ParticleLinks.SelectMembers | js/main.js:86-88 | a line is drawn for a list of pairs exactly when its pair is listed and closer than 150, with opacity 1 - d/150 |
| ParticleLinks.SelectIncreasing | js/main.js:84-96 | lines come out in the order of their pairs |
| ParticleLinks.Distance | js/main.js:86 | `Math.hypot` of the two particles' coordinate differences, with hypot a given function |
| ParticleLinks.LinkFor | js/main.js:86-94 | the body of the inner loop for one pair: one line with opacity 1 - d/150 when the distance is below 150, none otherwise; SelectMembers and LinksSpec state what it contributes |
| ParticleLinks.Links | js/main.js:82-97 | the lines connectParticles draws for a pool, row by row; LinksVisitPairs and LinksSpec state which lines and in what order |
| ParticleLinks.LinksSpec | js/main.js:84-96 | every drawn line joins a pair i < j closer than 150 with opacity 1 - d/150; every such pair is drawn; no pair at or beyond 150 is; lines come in pair order |
| ParticleLinks.LinksOpacityRange | js/main.js:86-88 | every drawn line's opacity lies in (0, 1] |
| ParticleField.Particle.constructor | js/main.js:60-66 | a new particle holds the state spawned from its four random draws |
| ParticleField.Particle.Update | js/main.js:67-72 | the fields move by the velocity and the velocity flips when out of range, which is one Advance step of the particle's state |
| ParticleField.Field.constructor | js/main.js:48-49 | the field starts with an empty pool and the flag set |
| ParticleField.Field.SetupCanvas | js/main.js:51-57 | the canvas takes the viewport size; the pool becomes exactly 60 fresh particles spawned from the draws, distinct and all settled |
| ParticleField.Field.RowLines | js/main.js:85-95 | the inner loop produces row i's lines |
| ParticleField.Field.ConnectParticles | js/main.js:82-97 | the lines drawn are exactly the links of the current pool |
| ParticleField.Field.UpdateAll | js/main.js:102 | every particle is updated once, which is one AdvanceAll step of the pool |
| ParticleField.Field.Redraw | js/main.js:101-103 | the canvas is cleared, the pool advances one step and its links are drawn |
| ParticleField.Field.Animate | js/main.js:99-105 | with the flag clear nothing changes; otherwise one frame is drawn and one frame requested, following AnimateStep |
| ParticleField.Field.FireFrame | js/main.js:104 | a pending frame callback runs animate, following FrameStep |
| ParticleField.Field.Pause | js/main.js:107 | the flag is cleared, following PauseStep |
| ParticleField.Field.Resume | js/main.js:108-113 | as written: while paused, set the flag and animate at once, following ResumeStep |
| ParticleField.Field.ResumeOnce | js/main.js:108-113 | corrected: set the flag, and animate only when no frame is pending, following ResumeOnceStep |
| ParticleField.Boot | js/main.js:43-116 | no animation without a canvas, on a touch device or below 768 pixels; otherwise 60 settled particles, one frame drawn and the loop started |
| Typing.TypeStep | js/main.js:177-184 | type adds one character and re-arms itself after 100 ms until the word is complete, then arms erase after 2000 ms; indices stay in range |
| Typing.EraseStep | js/main.js:185-193 | erase drops one character and shows that prefix of the word, re-arming after 50 ms; at zero it moves to word (i + 1) mod the word count and arms type after 600 ms |
| Typing.Fire | js/main.js:177-193 | either callback keeps the indices in range |
| Typing.Run | js/main.js:177-194 | any number of timer firings keeps the indices in range |
| Typing.StepsKeepShowing | js/main.js:176-193 | each callback keeps the span showing the first charIndex characters of the current word |
| Typing.RunKeepsShowing | js/main.js:176-194 | the span shows a prefix of the current word after any number of callbacks |
| Typing.TypeRun | js/main.js:178-180 | typing from c characters reaches the whole word after length - c callbacks |
| Typing.EraseRun | js/main.js:186-188 | erasing from c characters reaches the empty text after c callbacks |
| Typing.TypeAndHold | js/main.js:177-184 | from an empty span a word is typed out and then held for 2000 ms |
| Typing.EraseAndAdvance | js/main.js:185-193 | a held word is erased and the next word, modulo the word count, is armed after 600 ms |
| Typing.WordCycle | js/main.js:177-193 | one full type-and-erase cycle takes 2 * length + 2 callbacks and ends on the next word, empty |
| Typing.NextWord | js/main.js:190 | the index wraps from the last of the four words to the first |
| Typing.Cycles | js/main.js:175-194 | after k cycles the effect shows word (i + k) mod 4, empty, with type armed |
| Typing.AllWordsCycle | js/main.js:175-194 | after all four words the effect is back at the first word with an empty span |
| Typing.Typewriter.constructor | js/main.js:176 | both indices start at 0 and the span is empty |
| Typing.Typewriter.TypeNext | js/main.js:177-184 | the type callback changes the state and sets the timer as TypeStep says |
| Typing.Typewriter.EraseNext | js/main.js:185-193 | the erase callback changes the state and sets the timer as EraseStep says |
| Navigation.Threshold | js/main.js:139 | the offset `section.offsetTop - navbar.offsetHeight - 50` from which a section counts as reached |
| Navigation.Reached | js/main.js:139 | the test `pageYOffset >= threshold`; ChosenNone and ChosenLast state how it decides the active section |
| Navigation.Chosen | js/main.js:137-142 | the active section for an offset; ChosenNone, ChosenLast and ChosenMovesDown state which one it is |
| Navigation.ChosenNone | js/main.js:137-142 | with no section reached, home is active |
| Navigation.ChosenLast | js/main.js:137-142 | otherwise the last reached section, in document order, is active |
| Navigation.ChosenMovesDown | js/main.js:138-141 | scrolling further down never activates a section earlier than one already reached |
| Navigation.ActiveSection | js/main.js:137-142 | the forEach overwrite loop computes the chosen section |
| Navigation.Marks | js/main.js:146-147 | a link is marked exactly when it has an href containing '#' followed by the section id |
| Navigation.MarksByContainment | js/main.js:147 | marking is by containment: #home-extra is marked for home, #top is not, a missing href never is |
| Navigation.Scrolled | js/main.js:131-133 | lastScroll is never negative |
| Navigation.ScrolledSpec | js/main.js:131-133 | at or below 100 px the hidden flag is kept; above it the bar hides exactly when scrolling down; lastScroll is the offset clamped at 0 |
| Navigation.DirectionDecides | js/main.js:132-133 | after two scroll events above 100 px, the direction of the second decides |
| Navigation.NavBar.constructor | js/main.js:129 | lastScroll starts at 0 |
| Navigation.NavBar.Highlight | js/main.js:144-150 | afterwards exactly the links that mark the section carry active; hrefs are unchanged |
| Navigation.NavBar.OnScroll | js/main.js:130-150 | the hide rule is applied; the contact page stops there; elsewhere exactly the links to the chosen section are active |
| ContactForm.Blank | js/main.js:495 | `!field.value.trim()`: the trimmed value is empty; Trim states that this holds exactly for whitespace-only values, and BlankExamples shows both cases |
| ContactForm.CheckFields | js/main.js:485-499 | isValid is false exactly when some required field trims to empty; exactly those fields get the red border and all others are reset |
| ContactForm.BlankExamples | js/main.js:495 | whitespace-only values are blank; a value with a visible character is not |
| ContactForm.Form.Submit | js/main.js:482-516 | submission is stopped exactly when some field is blank; borders as in CheckFields; the status shows the error message and class and a 4000 ms clear-status timer is set, or 'Sending message...' with no timer |
| ContactForm.Form.ClearStatus | js/main.js:506-509 | the delayed callback clears the status text and class |
| Scroller.HiddenCopy | js/main.js:280-281 | a clone keeps the content and attributes and adds aria-hidden="true" |
| Scroller.HiddenCopies | js/main.js:279-283 | the clones come in the order of the originals |
| Scroller.HiddenCopyIdempotent | js/main.js:281 | hiding a clone again changes nothing |
| Scroller.DuplicatedContents | js/main.js:277-283 | the track's content goes from s to s followed by s |
| Scroller.OnlyOriginalsVisible | js/main.js:279-283 | when no original was hidden, exactly the first half of the doubled track is visible to assistive technology |
| Scroller.Scroller.Duplicate | js/main.js:274-283 | data-animated is set, and the loop over the snapshot appends one hidden clone of each original: s becomes s followed by its clones |
| Scroller.DuplicateAll | js/main.js:273-284 | every scroller of the page is duplicated once |
| Modal.PlaceholderKey | js/main.js:404 | the key is never empty and has no whitespace; an empty title gives 'Project' |
| Modal.PlaceholderKeyIdempotent | js/main.js:404 | deriving a key from a key changes nothing |
| Modal.WordsJoinedByPlus | js/main.js:404 | two words separated by any run of whitespace give the words joined by one '+' |
| Modal.ThreeWordsJoinedByPlus | js/main.js:404 | three words separated by whitespace runs give the words joined by '+' signs |
| Modal.CarAccessKey | js/main.js:372-375 | the car-access entry's title "Car Access Hub" gives the placeholder key "Car+Access+Hub" |
| Modal.ModalController.constructor | js/main.js:398-401 | the modal starts closed, with scrolling unlocked and no content |
| Modal.ModalController.Trigger | js/main.js:451-456 | the modal opens with scrolling locked and the canvas paused exactly when the key is in modalData, showing a project entry with its placeholder key and a detail entry without one; other keys change nothing; the particles, the lines and the canvas size are kept |
| Modal.ModalController.Close | js/main.js:445-449 | corrected: the modal closes, scrolling is unlocked and the canvas resumes without a second chain; a frame is drawn only when the loop was idle, otherwise the particles and lines are kept; the canvas size is kept and the particles stay settled |
| Modal.ModalController.CloseAsWritten | js/main.js:445-449 | as written: the modal closes, scrolling is unlocked and the canvas resumes with the written resume, drawing a frame whenever the flag was clear; the canvas size is kept and the particles stay settled |
| Modal.ModalController.OverlayClick | js/main.js:458-460 | corrected: only a click on the overlay itself or in the close button closes the modal, as Close does; any other click changes nothing, neither the modal nor the canvas |
| Modal.ModalController.OverlayClickAsWritten | js/main.js:458-460 | as written: only a click on the overlay itself or in the close button closes the modal, as CloseAsWritten does, drawing a frame whenever the flag was clear; any other click changes nothing |
| Modal.OpenCloseKeepsSingleChain | js/main.js:441-448 | with the corrected resume, opening and then closing a modal, with any number of frames in between, keeps a single animation chain |
| Modal.OpenCloseAsWrittenDoubles | js/main.js:441-448 | with the resume as written, opening and closing a modal while the animation runs, before its frame fires, leaves two frame callbacks pending |

## Left out

- The GSAP cursor, skill bars and magnetic button: they are calls into a tweening library with floating-point geometry.
- The canvas drawing calls and the colour choice by body class. A frame's drawing is recorded as its list of lines.
- `Math.random`: each particle's four draws are inputs in [0, 1).
- `Math.hypot`: a given non-negative function of the coordinate differences.
- Floating point: numbers are exact reals, so there is no rounding in update or in the opacity.
- Timers, requestAnimationFrame and the 250 ms resize debounce. Each callback firing is one discrete step.
- The resize handler itself is `SetupCanvas`. When it runs is not modelled.
- The stat counters and the IntersectionObserver reveal: DOM observation with floating-point counting.
- The hamburger menu and the go-to-top button: class toggles without logic.
- The modal HTML templates and the `modalData` fields other than the type and the title: presentation only.
- Prototype keys of `modalData` such as "constructor": `modalData[key]` is truthy for them in JavaScript. The lookup here is by own key only.
- The Formspree submission: network I/O.
- A submission while the 4000 ms clear-status timer is pending. The timer is a separate `ClearStatus` step, in whatever order it fires.
- The typed span's text before the first callback, which comes from the page markup. It is taken as empty.
- JsText.Trim: states only what the form check uses, namely when the result is empty and that it has no whitespace at its ends. It does not state which substring it is.
- Modal.ModalController.Close: resumes the canvas with the corrected resume, per the finding below. The close as written is `Modal.ModalController.CloseAsWritten`.
- Modal.ModalController.OverlayClick: closes through the corrected Close. The handler as written is `Modal.ModalController.OverlayClickAsWritten`.
- Missing page elements. The model assumes that `canvas.getContext('2d')` returns a context (js/main.js:47), that every `.scroller` holds a `.scroller-inner` (js/main.js:276-277) and that `#form-status` exists (js/main.js:484). None of these is checked in the source, which throws a TypeError when one is missing:
  - Without a 2D context, the first animate call (js/main.js:101, reached from js/main.js:116) throws before it requests a frame. The rest of the DOMContentLoaded handler is skipped, so the navigation, typing, scrollers, modals and form are never set up. `ParticleField.Boot` instead ensures a started loop and one drawn frame.
  - Without an inner track, that scroller keeps data-animated but is not duplicated. No later scroller is duplicated, and the rest of the handler is skipped. `Scroller.DuplicateAll` instead duplicates every scroller.
  - Without the status element, the submit handler throws at js/main.js:489, before `preventDefault`, so even an invalid form is submitted. `ContactForm.Form.Submit` instead stops exactly the submissions with a blank field.
- Modal.OpenCloseKeepsSingleChain: holds for the corrected resume only. For closeModal as written it fails, as `Modal.OpenCloseAsWrittenDoubles` shows.

## Findings

| source | as written | input that shows it | evidently intended | confidence | as-written member | corrected member |
|---|---|---|---|---|---|---|
| js/main.js:108-113 | resume calls animate whenever the flag was clear, even if a frame requested before the pause is still pending | open a modal (pause) and close it (resume) before the next frame fires: two frame callbacks become pending, and each later pause/resume pair inside one frame adds another animate chain (k pairs, k + 1 chains) | resuming carries on the one existing chain and never starts a second one | medium, not executed | FrameLoop.PauseResumeDoublesChain | FrameLoop.IntendedKeepsSingleChain |

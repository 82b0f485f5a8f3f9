# Chat preview animation of the HeyLuni landing page

The landing page (`src/App.tsx`) is mostly static markup. Its one piece of
sequencing logic is `ChatPreview`: a fixed script of chat messages, each with
a side (`left` for the assistant, `right` for the user), a text and an
optional `green` highlight, is played back as an animation. Every message is
preceded by a typing indicator for its side. A timer advances the current step
index after 900 ms on a typing step and 1400 ms on any other step. After the
last step it waits a further 1600 ms and restarts at index 0. At every index
the component draws the messages revealed so far and, if the current step is
a typing step, the indicator for that side. A much smaller piece is the
use-case carousel, which renders its list of cards twice in a row so that a
CSS scroll by half the track loops seamlessly.

The Dafny model has two modules.

- `ChatPreview` (`chat_preview.dfy`):
  - Data: `Msg`, the two-variant `Step` (`Typing(side)` or `Message(side, text, green)`, flattened like the TypeScript union) and the timing constants.
  - Functional specification: `Steps`, `Next`, `Delay`, `Wait`, `Revealed` and `ShowTyping`.
  - Imperative versions: the two array-building routines (`BuildSteps`, `CollectRevealed`), proved equal to the functions.
  - Component state: a small `Player` class holding `steps` (fixed at mount) and the mutable `stepIndex`.
  - Lemmas: the properties of the animation.
- `UseCasesSlider` (`use_cases_slider.dfy`): the carousel's duplicated list.

Two facts about the code shape the model:

- The `variant` prop only picks a wrapper CSS class. The component has no mode switch, so the model has none.
- An empty script still arms one timer. `steps[0]` is `undefined`, so the step counts as non-typing and `run` waits 1400 ms. That timer then arms the 1600 ms reset, which calls `setStepIndex(0)` with the index already at 0. In the model this shows as `Next(0, 0) == 0` and `Wait([], 0) == 3000`.

## Model

| member | source | states |
|---|---|---|
| `ChatPreview.Steps` | src/App.tsx:55-63 | the step list has exactly two steps per message, so an empty script gives no steps |
| `ChatPreview.StepsAt` | src/App.tsx:57-60 | step `2k` is the typing step of message `k`'s side, and step `2k+1` is the message step carrying message `k`'s side, text and green flag |
| `ChatPreview.BuildSteps` | src/App.tsx:55-63 | the `forEach` loop that pushes a typing step and then a message step builds exactly `Steps(messages)` |
| `ChatPreview.Delay` | src/App.tsx:70-72 | the current step's delay is 900 ms or 1400 ms, and it is 900 ms exactly when the typing indicator is shown (a missing step counts as non-typing); `DelayOfScript` gives its value at every index of a script |
| `ChatPreview.Wait` | src/App.tsx:72-80 | the time until the index changes is the step's delay, plus the 1600 ms pause exactly when the firing resets the index to 0; `PassDuration` sums it over a pass |
| `ChatPreview.Next` | src/App.tsx:75-80 | the timer moves the index to `i + 1` exactly when `i + 1 < steps.length`, and otherwise resets it to 0; the result is always below `max(1, steps.length)` |
| `ChatPreview.IndexAfterCycles` | src/App.tsx:75-80 | starting from the initial index 0, `k` firings give index `k mod steps.length`, so the index always names a step; with no steps it stays at 0 |
| `ChatPreview.IndexAlwaysMoves` | src/App.tsx:75-80 | with a non-empty script every firing changes the index, so the animation never settles; with an empty script the index stays at 0 |
| `ChatPreview.DelayOfScript` | src/App.tsx:70-72 | inside a script a typing step waits 900 ms and a message step 1400 ms; the 900 ms delay occurs exactly when the typing indicator is shown |
| `ChatPreview.PassDuration` | src/App.tsx:69-82 | the first `k` messages take `k * (900 + 1400)` ms, and a full pass adds the 1600 ms pause before the restart |
| `ChatPreview.LoopRestarts` | src/App.tsx:75-81 | at the last step every message is shown; the next firing comes after 1400 + 1600 ms and returns to index 0, where nothing is revealed and the first message's side is typing |
| `ChatPreview.Revealed` | src/App.tsx:93-97 | the messages of the message steps among the first `min(i + 1, steps.length)` steps; from the last step on this is the whole transcript. `RevealedIsPrefix` gives the closed form and `RevealedMonotone` the growth |
| `ChatPreview.ShowTyping` | src/App.tsx:98 | the indicator is shown exactly when the current step exists and is a typing step, and then its side is that step's side; `TypingAtEvenSteps` and `TypingAnnouncesNextMessage` place it in a script |
| `ChatPreview.CollectRevealed` | src/App.tsx:93-97 | the loop bounded by `i <= stepIndex && i < steps.length`, pushing every message step, builds exactly `Revealed(steps, stepIndex)` |
| `ChatPreview.MessagesInSnoc` | src/App.tsx:94-96 | one more loop iteration adds the message of that step, or nothing for a typing step |
| `ChatPreview.RevealedAdvance` | src/App.tsx:93-97 | moving the index forward by one inside the steps adds exactly what the new step carries to the revealed list |
| `ChatPreview.MessagesInStepsPrefix` | src/App.tsx:93-97 | the message steps among the first `j` steps of a script carry exactly the first `j / 2` messages |
| `ChatPreview.RevealedIsPrefix` | src/App.tsx:93-97 | at index `i` inside the script the revealed list is the first `(i + 1) / 2` messages (a count of `i/2` plus one if `i` is odd): empty at 0 and the whole script at the last index |
| `ChatPreview.MessagesInMonotone` | src/App.tsx:94-96 | extending the list of steps only appends to the messages collected from it |
| `ChatPreview.RevealedMonotone` | src/App.tsx:93-97 | for `i <= j` the list revealed at `i` is a prefix of the list revealed at `j`, for any step list |
| `ChatPreview.TypingAtEvenSteps` | src/App.tsx:98 | inside a script the typing indicator is shown exactly at even indices, for the side of message `i / 2` |
| `ChatPreview.TypingAnnouncesNextMessage` | src/App.tsx:93-98 | while message `h`'s indicator is shown at index `2h`, only the `h` messages before it are revealed; index `2h + 1` shows no indicator and appends exactly message `h` |
| `ChatPreview.OutOfRangeShowsAll` | src/App.tsx:93-98 | at an index past the steps no indicator is shown, every message is revealed, and the delay is the 1400 ms non-typing delay |
| `ChatPreview.TwoMessageScript` | src/App.tsx:55-98 | for a two-message script (one per side) the steps, the indicator and the revealed list at each of the four indices, and the reset after the last index |
| `ChatPreview.Player.constructor` | src/App.tsx:55-65 | at mount the steps are `Steps(messages)` and the index is 0 |
| `ChatPreview.Player.Tick` | src/App.tsx:69-82 | one timer firing sets the index to `Next(old index, steps.length)`, leaves it naming a step (or 0 with none) whatever it was before, and reports the time waited: the step's delay plus 1600 ms on a restart |
| `ChatPreview.Player.Render` | src/App.tsx:93-98 | the drawn outputs are `Revealed(steps, stepIndex)` and `ShowTyping(steps, stepIndex)` |
| `UseCasesSlider.Loop` | src/App.tsx:19 | the track is twice as long as the card list, and each of its two halves is the card list |
| `UseCasesSlider.LoopIsPeriodic` | src/App.tsx:19 | shifting the track by one copy's width maps it onto itself: card `j` reappears at position `j + items.length` |

## Left out

- Timer plumbing: `setTimeout`, `clearTimeout`, the `cancelled` flag and the React effect lifecycle (src/App.tsx:67-90) belong to the browser and framework runtime. Only the transition a firing performs is modelled (`Next`, `Wait`, `Player.Tick`). Teardown cancellation and the one-pending-timer discipline are not modelled.
- React's bail-out on `setStepIndex(0)` when the index is already 0 is not modelled. This is why an empty script stops after one cycle rather than re-arming.
- React hooks (`useState`, `useMemo`), all JSX rendering, CSS classes and the `variant` prop (src/App.tsx:100-118) are not modelled.
- The concrete script texts, the card icons, titles and descriptions, and the static page in `App` (src/App.tsx:121-379) are not modelled. This includes the outbound link and the footer's clock read. Texts are opaque strings.
- `Msg.green` is a `bool`. The source's optional `green?` is either `true` or absent, and an absent flag renders like `false`.
- `stepIndex` is a `nat`. The source only ever sets it to 0 or to a successor, so JavaScript number precision never matters.

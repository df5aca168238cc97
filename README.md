# Hand-gesture recognizer: gesture catalog and two-hand cancel matcher

This project models the two pieces of logic that the webcam hand-gesture
demo defines itself, leaving out the hand detector, the gesture estimator
and the browser around them.

- **Gesture catalog** (module `Gestures`, `gestures.dfy`). Four gesture
  descriptions (rock, paper, scissors, cancel). Each holds, per finger, a
  list of weighted curl constraints and a list of weighted direction
  constraints. A `GestureDescription` object is built by calls that each
  append one constraint to one finger's list. `BuildRock`, `BuildPaper`,
  `BuildScissors` and `BuildCancel` make these calls in the order the
  catalog makes them, loops included. Each is proved to yield exactly the
  table `CurlRules`/`DirectionRules`. That table is the reference: the
  lemmas `RockIsClosedFist`, `PaperIsOpenHand` and `ScissorsLeavesThumbFree`
  read single entries back from it, and the facts they state hold for the
  built descriptions through the builders' `Describes` postconditions.
- **Recognizer** (module `Recognition`, `index.dfy`). Class `Recognizer`
  holds three things: the matcher's set of pending hand sides (`hands`) and
  the left and right display slots. Each frame (`EstimateHands`) it:
  - empties both slots;
  - skips hands without estimated gestures;
  - picks each remaining hand's best-scoring gesture;
  - writes a non-cancel glyph to that hand's slot;
  - sends a cancel observation to the matcher (`CheckGestureCombination`).

  The matcher adds a side when one of its fingers points a direction
  required for that side. Once both sides are pending, it writes the cancel
  glyph to both slots and empties the set. The class methods are proved
  against the pure functions `Observe`, `RouteHand` and `Frame` on the value
  `Display(hands, left, right)`. Lemmas about those functions state how the
  matcher behaves over sequences of observations and frames.

Hand sides are the datatype `Side = Left | Right`. The source uses the
lower-cased strings `'left'`/`'right'`, and nothing else reaches the
matcher. Gesture names, pose-data labels and glyphs stay strings. Scores are
`real`s, and only their comparison is used.

The matcher is not a silent no-op for a gesture name missing from the
two-hand table. The lookup at src/index.js:77-78 would throw on a missing
key as soon as the pose data is non-empty. So `AddToHandsIfCorrect`,
`CheckGestureCombination` and `Observe` require the name to be a key of
`TwoHandsGestures()`. The per-frame routing discharges this requirement:
only the name `"cancel"` maps to the cancel glyph (`CancelGlyphOnlyForCancel`).

## Model

| member | source | states |
|---|---|---|
| `Gestures.GestureDescription.constructor` | src/gestures.js:3-6 | a new description has the given name and no constraint on any finger |
| `Gestures.GestureDescription.AddCurl` | src/gestures.js:13-14 | appends one weighted curl constraint to the end of that finger's list; every other finger's list is unchanged |
| `Gestures.GestureDescription.AddDirection` | src/gestures.js:54-58 | appends one weighted direction constraint to the end of that finger's list; every other finger's list is unchanged |
| `Gestures.AddCurledFinger` | src/gestures.js:18-19 | the finger gains FullCurl 1.0 then HalfCurl 0.9; no other finger changes |
| `Gestures.CurlOtherFingers` | src/gestures.js:16-20 | after the loop over index, middle, ring and pinky, each has exactly rock's curled pair; the thumb is untouched |
| `Gestures.BuildRock` | src/gestures.js:12-20 | the built description is named "rock" and holds exactly rock's constraints on every finger |
| `Gestures.BuildPaper` | src/gestures.js:26-29 | the loop over all five fingers yields exactly paper's constraints |
| `Gestures.BuildScissors` | src/gestures.js:35-45 | the built description holds exactly scissors' constraints; the thumb has none |
| `Gestures.AddCancelFinger` | src/gestures.js:52-58 | one finger gains NoCurl 1.0 and the four direction constraints in order; no other finger changes |
| `Gestures.BuildCancel` | src/gestures.js:51-59 | the loop over all five fingers yields exactly cancel's curl and direction constraints |
| `Gestures.RockIsClosedFist` | src/gestures.js:12-20 | the thumb has HalfCurl 1.0 then NoCurl 0.5; every other finger has FullCurl 1.0 then HalfCurl 0.9; no direction constraints |
| `Gestures.PaperIsOpenHand` | src/gestures.js:26-29 | each finger has exactly one constraint, NoCurl 1.0, and no direction constraint |
| `Gestures.ScissorsLeavesThumbFree` | src/gestures.js:35-45 | index and middle have NoCurl 1.0; ring and pinky have FullCurl 1.0 and HalfCurl 0.9; the thumb has no constraint at all |
| `Gestures.CancelIsSidewaysOpenHand` | src/gestures.js:51-59 | cancel's curls equal paper's; each finger's directions are exactly {DiagonalUpRight, DiagonalUpLeft, HorizontalRight, HorizontalLeft}, all at weight 1.0 |
| `Gestures.OnlyCancelConstrainsDirections` | src/gestures.js:9-59 | a gesture constrains some finger's direction if and only if it is cancel |
| `Gestures.WeightsInUnitInterval` | src/gestures.js:9-59 | every weight in the catalog lies in (0, 1] |
| `Recognition.Glyph` | src/index.js:123 | a name in the glyph table is shown as its glyph |
| `Recognition.CancelGlyphOnlyForCancel` | src/index.js:24-31 | a name's glyph is the cancel glyph if and only if the name is "cancel" |
| `Recognition.CatalogNamesHaveGlyphs` | src/index.js:24-31 | every catalog gesture name (rock, paper, scissors, cancel) is a key of the glyph table |
| `Recognition.AppendToEach` | src/index.js:52-53 | the result has one entry per base string, in order, each being that string with the suffix appended |
| `Recognition.RequiredDirectionsExact` | src/index.js:47-55 | the table's only key is "cancel"; left requires ["Horizontal Right", "Diagonal Up Right"] and right requires ["Horizontal Left", "Diagonal Up Left"] |
| `Recognition.SomeDirectionIn` | src/index.js:73-79 | the ordered scan is true if and only if some pose entry's direction label is in the allowed list |
| `Recognition.Added` | src/index.js:72-82 | the side is added if and only if it qualifies; otherwise the set is unchanged, in particular for empty pose data |
| `Recognition.AddedIdempotent` | src/index.js:81 | adding the same observation twice gives the same set as adding it once |
| `Recognition.AtMostTwoSides` | src/index.js:57 | the pending set has at most two elements, and exactly two only when it is {left, right} |
| `Recognition.ObserveKeepsAtMostOnePending` | src/index.js:59-69 | with at most one side pending, an observation fires if and only if it qualifies and the other side is the pending one; afterwards at most one side is pending |
| `Recognition.UnqualifiedObservationIsNoOp` | src/index.js:72-82 | while at most one side is pending, an observation with no required direction changes neither the set nor the slots |
| `Recognition.LeftThenRightFiresOnce` | src/index.js:59-69 | a qualifying left then a qualifying right take the set {} → {left} → {}; the first writes nothing, the second writes the cancel glyph to both slots |
| `Recognition.LoneLeftArms` | src/index.js:65-66 | a lone qualifying left leaves {left} and writes no slot |
| `Recognition.RepeatedLeftStaysArmed` | src/index.js:81 | observing the left hand twice leaves exactly {left} and writes no slot |
| `Recognition.CancelScenario` | src/index.js:47-82 | with one finger pointing "Horizontal Right" on the left and "Horizontal Left" on the right, the matcher arms, then fires and shows the cancel glyph in both slots |
| `Recognition.ReduceBest` | src/index.js:122 | the reduction that keeps the accumulator only on a strictly greater score returns the last index of maximal score |
| `Recognition.BestIndex` | src/index.js:122 | the chosen gesture's score is at least every other score, and every later gesture scores strictly less (ties go to the later gesture) |
| `Recognition.WithSlot` | src/index.js:129 | only the given side's slot receives the text; the other slot and the pending set are unchanged |
| `Recognition.NonCancelWritesOwnSlotOnly` | src/index.js:128-131 | a hand whose best glyph is not the cancel glyph writes that glyph to its own slot only and leaves the pending set alone |
| `Recognition.CancelReachesMatcher` | src/index.js:128-133 | a hand showing the cancel glyph reaches the matcher, with the gesture name "cancel" |
| `Recognition.FrameWithoutGesturesClearsSlots` | src/index.js:106 | a frame whose hands have no gestures leaves both slots empty and the pending set as it was |
| `Recognition.PendingPersistsWithoutCancel` | src/index.js:103-135 | the pending set survives frames: a frame with no cancel hand leaves it unchanged (the per-frame list of detected hands is a different value) |
| `Recognition.ArmedAcrossFrames` | src/index.js:57-69 | starting with nothing pending, a frame with a qualifying left cancel hand leaves {left} pending, and the next frame with a qualifying right cancel hand fires, showing the cancel glyph in both slots and emptying the set |
| `Recognition.ArmedSidePersists` | src/index.js:57-69 | a pending side stays the only pending side through any sequence of hands in which no cancel hand of the other side qualifies; the set is emptied only by firing |
| `Recognition.ArmedSidePersistsAcrossFrame` | src/index.js:103-135 | the same for a whole frame: clearing the slots never resets the pending set, so an armed side survives every frame that does not complete the gesture |
| `Recognition.RouteAllKeepsAtMostOnePending` | src/index.js:110-135 | routing a frame's hands keeps at most one side pending |
| `Recognition.Recognizer.constructor` | src/index.js:57 | the recognizer starts with no pending side and empty slots |
| `Recognition.Recognizer.AddToHandsIfCorrect` | src/index.js:72-82 | the new pending set is `Added` of the old one: the side is added exactly when some finger points a required direction |
| `Recognition.Recognizer.CheckGestureCombination` | src/index.js:59-69 | the new state is `Observe` of the old: when both sides are pending, both slots show the gesture's glyph and the set is emptied; otherwise no slot is written and the set keeps the added side |
| `Recognition.Recognizer.SetIcon` | src/index.js:129 | writes the text to the given side's slot only |
| `Recognition.Recognizer.EstimateHands` | src/index.js:103-135 | the new state is `Frame` of the old: slots emptied, then each hand routed in order; at most one side stays pending |

## Left out

- Camera setup, video playback and page start-up wiring (src/index.js:144-190) are browser I/O.
- The hand detector and its per-frame `estimateHands` call, and the gesture estimator's scoring, are outside libraries. Their results are the arbitrary input `detected` of `EstimateHands`: sides, scored gesture names and pose data.
- The Victory and ThumbsUp descriptions come from the estimator library and are not part of this model. Only their names and glyphs appear, through the glyph table.
- How `addCurl`/`addDirection` store constraints inside the estimator library is not part of this model. They are modelled as appends to a per-finger list, with no validation of the weight.
- Canvas drawing, the keypoint colour lookup and clearing the canvas (src/index.js:105, 112-116, 167-172) are rendering.
- The debug table updates (`updateDebugInfo`, src/index.js:175-181) are UI and change no modelled state.
- The `setTimeout` frame loop (src/index.js:137) is scheduling. One frame is one call of `EstimateHands`.
- Scores are exact reals. Floating-point rounding and NaN are not modelled, and neither is the 3D keypoint mapping (src/index.js:118).
- Recognition.Glyph: a name outside the glyph table is shown as the text "undefined" in the model; the contract only states the lookup for names in the table, since the estimator only reports names the table holds, and the one fact the fallback needs (it is not the cancel glyph) is `CancelGlyphOnlyForCancel`. Keys inherited by a JavaScript object from its prototype are not modelled.
- A display slot is a string. The difference between `innerHTML` and `innerText` is not modelled.

/**
 * The recognizer of the demo: per frame it clears the two display slots,
 * picks each detected hand's best-scoring gesture, shows single-hand
 * gestures in that hand's slot, and hands "cancel" observations to the
 * two-hand matcher. The matcher keeps a set of the hand sides that have
 * made their half of the two-handed cancel gesture; once both sides are
 * present it writes the cancel glyph to both slots and empties the set.
 *
 * Hand detection, gesture scoring, drawing and frame scheduling are outside
 * the model: one frame is one call of Recognizer.EstimateHands, whose input
 * is what the external detector and estimator produced for that frame.
 */
module Recognition {
  import Gestures

  /** The side of a detected hand (the detector's handedness, lower-cased). */
  datatype Side = Left | Right

  /** One entry of the estimator's pose data: finger name, curl label, direction label. */
  datatype PoseEntry = PoseEntry(finger: string, curl: string, direction: string)

  /** One gesture the estimator matched, with its score. */
  datatype ScoredGesture = ScoredGesture(name: string, score: real)

  /** What the external detector and estimator report for one hand in one frame. */
  datatype HandObservation = HandObservation(
    handedness: Side,
    gestures: seq<ScoredGesture>,
    poseData: seq<PoseEntry>)

  /**
   * The recognizer's observable state: the matcher's set of pending sides
   * and the text of the left and right display slots.
   */
  datatype Display = Display(hands: set<Side>, left: string, right: string)

  // ---------------------------------------------------------------------------
  // Glyph table
  // ---------------------------------------------------------------------------

  const CancelGlyph: string := "\U{1F44E}"

  /** The glyph shown for each gesture name. */
  const GesturesStrings: map<string, string> := map[
    "thumbs_up" := "\U{1F44D}",
    "victory" := "\U{270C}\U{1F3FB}",
    "rock" := "\U{270A}\U{1F3FB}",
    "paper" := "\U{1F590}",
    "scissors" := "\U{270C}\U{1F3FB}",
    "cancel" := CancelGlyph
  ]

  /**
   * The text a slot receives for a gesture name: its glyph, or, for a name
   * the table lacks, the text the missing value turns into when written.
   */
  function Glyph(name: string): (r: string)
    ensures name in GesturesStrings ==> r == GesturesStrings[name]
  {
    if name in GesturesStrings then GesturesStrings[name] else "undefined"
  }

  /** Only the name "cancel" is shown as the cancel glyph. */
  lemma CancelGlyphOnlyForCancel(name: string)
    ensures Glyph(name) == CancelGlyph <==> name == "cancel"
  {
  }

  /** Every gesture the catalog defines has a glyph. */
  lemma CatalogNamesHaveGlyphs(g: Gestures.GestureName)
    ensures Gestures.NameOf(g) in GesturesStrings
  {
  }

  // ---------------------------------------------------------------------------
  // Two-hand gesture table
  // ---------------------------------------------------------------------------

  const DirectionsBaseString: seq<string> := ["Horizontal ", "Diagonal Up "]

  /** Appends suffix to every string of base, keeping the order. */
  function AppendToEach(base: seq<string>, suffix: string): (r: seq<string>)
    ensures |r| == |base|
    ensures forall i :: 0 <= i < |base| ==> r[i] == base[i] + suffix
  {
    if base == [] then [] else [base[0] + suffix] + AppendToEach(base[1..], suffix)
  }

  /** The two-handed gestures: for each, the direction labels each side must show. */
  function TwoHandsGestures(): map<string, map<Side, seq<string>>>
  {
    map["cancel" := map[
      Left := AppendToEach(DirectionsBaseString, "Right"),
      Right := AppendToEach(DirectionsBaseString, "Left")]]
  }

  /** The direction labels that count as side's half of the two-handed gesture. */
  function RequiredDirections(gesture: string, side: Side): seq<string>
    requires gesture in TwoHandsGestures()
  {
    var sides := TwoHandsGestures()[gesture];
    assert side in sides by { assert side == Left || side == Right; }
    sides[side]
  }

  /** The table is exact: the left hand points right, the right hand points left. */
  lemma RequiredDirectionsExact()
    ensures TwoHandsGestures().Keys == {"cancel"}
    ensures RequiredDirections("cancel", Left) == ["Horizontal Right", "Diagonal Up Right"]
    ensures RequiredDirections("cancel", Right) == ["Horizontal Left", "Diagonal Up Left"]
  {
    var left := RequiredDirections("cancel", Left);
    var right := RequiredDirections("cancel", Right);
    assert left[0] == "Horizontal " + "Right" == "Horizontal Right";
    assert left[1] == "Diagonal Up " + "Right" == "Diagonal Up Right";
    assert right[0] == "Horizontal " + "Left" == "Horizontal Left";
    assert right[1] == "Diagonal Up " + "Left" == "Diagonal Up Left";
  }

  // ---------------------------------------------------------------------------
  // Matcher specification
  // ---------------------------------------------------------------------------

  /** Whether some entry of poseData, scanned in order, has its direction label in allowed. */
  function SomeDirectionIn(poseData: seq<PoseEntry>, allowed: seq<string>): (b: bool)
    ensures b <==> exists i :: 0 <= i < |poseData| && poseData[i].direction in allowed
  {
    if poseData == [] then false
    else poseData[0].direction in allowed || SomeDirectionIn(poseData[1..], allowed)
  }

  /** Whether poseData shows side's half of the two-handed gesture. */
  predicate Qualifies(side: Side, poseData: seq<PoseEntry>, gesture: string)
    requires gesture in TwoHandsGestures()
  {
    SomeDirectionIn(poseData, RequiredDirections(gesture, side))
  }

  /** The pending set after side's observation: side added exactly when it qualifies. */
  function Added(hands: set<Side>, side: Side, poseData: seq<PoseEntry>, gesture: string): (r: set<Side>)
    requires gesture in TwoHandsGestures()
    ensures r == hands + {side} || r == hands
    ensures side in r <==> side in hands || Qualifies(side, poseData, gesture)
    ensures poseData == [] ==> r == hands
  {
    if Qualifies(side, poseData, gesture) then hands + {side} else hands
  }

  /** Adding a side twice with the same pose data adds it once. */
  lemma AddedIdempotent(hands: set<Side>, side: Side, poseData: seq<PoseEntry>, gesture: string)
    requires gesture in TwoHandsGestures()
    ensures Added(Added(hands, side, poseData, gesture), side, poseData, gesture) == Added(hands, side, poseData, gesture)
  {
  }

  /** A set of sides holds at most two; it holds two exactly when it holds both. */
  lemma AtMostTwoSides(hands: set<Side>)
    ensures |hands| <= 2
    ensures |hands| == 2 <==> hands == {Left, Right}
  {
    assert forall s :: s in hands ==> s == Left || s == Right by {
      forall s | s in hands ensures s == Left || s == Right {
        match s
        case Left =>
        case Right =>
      }
    }
    if Left in hands && Right in hands {
      assert hands == {Left, Right};
    } else if Left in hands {
      assert hands == {Left};
    } else if Right in hands {
      assert hands == {Right};
    } else {
      assert hands == {};
    }
  }

  /** Whether an observation completes the two-handed gesture. */
  predicate Fires(hands: set<Side>, side: Side, poseData: seq<PoseEntry>, gesture: string)
    requires gesture in TwoHandsGestures()
  {
    |Added(hands, side, poseData, gesture)| == 2
  }

  /**
   * One matcher observation: add side if it qualifies; once both sides are
   * pending, show the gesture's glyph in both slots and clear the set.
   */
  function Observe(d: Display, side: Side, poseData: seq<PoseEntry>, gesture: string): Display
    requires gesture in TwoHandsGestures()
  {
    if Fires(d.hands, side, poseData, gesture) then
      Display({}, GesturesStrings[gesture], GesturesStrings[gesture])
    else
      d.(hands := Added(d.hands, side, poseData, gesture))
  }

  /** The other hand. */
  function Other(side: Side): Side
  {
    match side
    case Left => Right
    case Right => Left
  }

  /**
   * While at most one side is pending, an observation fires exactly when the
   * observed side qualifies and the other side is the pending one, and at
   * most one side stays pending afterwards.
   */
  lemma ObserveKeepsAtMostOnePending(d: Display, side: Side, poseData: seq<PoseEntry>, gesture: string)
    requires gesture in TwoHandsGestures()
    requires |d.hands| <= 1
    ensures Fires(d.hands, side, poseData, gesture) <==> Qualifies(side, poseData, gesture) && d.hands == {Other(side)}
    ensures |Observe(d, side, poseData, gesture).hands| <= 1
  {
    var added := Added(d.hands, side, poseData, gesture);
    AtMostTwoSides(added);
    AtMostTwoSides(d.hands);
    if Qualifies(side, poseData, gesture) && d.hands == {Other(side)} {
      assert added == {Left, Right};
    }
    if added == {Left, Right} {
      assert Other(side) in d.hands;
      assert d.hands == {Other(side)};
    }
  }

  /** An observation that does not qualify changes nothing while at most one side is pending. */
  lemma UnqualifiedObservationIsNoOp(d: Display, side: Side, poseData: seq<PoseEntry>, gesture: string)
    requires gesture in TwoHandsGestures()
    requires |d.hands| <= 1
    requires !Qualifies(side, poseData, gesture)
    ensures Observe(d, side, poseData, gesture) == d
  {
  }

  /**
   * A qualifying left observation followed by a qualifying right one takes
   * the pending set from {} to {left} to {}, writing both slots once, on the
   * second observation only.
   */
  lemma LeftThenRightFiresOnce(d: Display, leftPose: seq<PoseEntry>, rightPose: seq<PoseEntry>)
    requires d.hands == {}
    requires Qualifies(Left, leftPose, "cancel") && Qualifies(Right, rightPose, "cancel")
    ensures !Fires(d.hands, Left, leftPose, "cancel")
    ensures Observe(d, Left, leftPose, "cancel") == d.(hands := {Left})
    ensures Fires({Left}, Right, rightPose, "cancel")
    ensures Observe(d.(hands := {Left}), Right, rightPose, "cancel") == Display({}, CancelGlyph, CancelGlyph)
  {
  }

  /** A lone qualifying left observation arms the matcher and writes nothing. */
  lemma LoneLeftArms(d: Display, leftPose: seq<PoseEntry>)
    requires d.hands == {}
    requires Qualifies(Left, leftPose, "cancel")
    ensures Observe(d, Left, leftPose, "cancel") == d.(hands := {Left})
  {
  }

  /** Observing the left hand again leaves exactly {left} pending and writes nothing. */
  lemma RepeatedLeftStaysArmed(d: Display, first: seq<PoseEntry>, second: seq<PoseEntry>)
    requires d.hands == {}
    requires Qualifies(Left, first, "cancel")
    ensures Observe(Observe(d, Left, first, "cancel"), Left, second, "cancel") == d.(hands := {Left})
  {
  }

  /** The scenario with concrete pose data: one finger pointing horizontally toward the other hand. */
  lemma CancelScenario()
    ensures var leftPose := [PoseEntry("Index", "No Curl", "Horizontal Right")];
            var rightPose := [PoseEntry("Index", "No Curl", "Horizontal Left")];
            var d0 := Display({}, "", "");
            var d1 := Observe(d0, Left, leftPose, "cancel");
            && d1 == Display({Left}, "", "")
            && Observe(d1, Right, rightPose, "cancel") == Display({}, CancelGlyph, CancelGlyph)
  {
    var leftPose := [PoseEntry("Index", "No Curl", "Horizontal Right")];
    var rightPose := [PoseEntry("Index", "No Curl", "Horizontal Left")];
    RequiredDirectionsExact();
    assert leftPose[0].direction in RequiredDirections("cancel", Left);
    assert rightPose[0].direction in RequiredDirections("cancel", Right);
    LeftThenRightFiresOnce(Display({}, "", ""), leftPose, rightPose);
  }

  // ---------------------------------------------------------------------------
  // Per-frame routing specification
  // ---------------------------------------------------------------------------

  /**
   * The best-scoring gesture as a left-to-right reduction that keeps the
   * accumulated one only when its score is strictly greater: acc is the best
   * of gs[..i].
   */
  function ReduceBest(gs: seq<ScoredGesture>, acc: nat, i: nat): (k: nat)
    requires acc < i <= |gs|
    requires forall j :: 0 <= j < acc ==> gs[j].score <= gs[acc].score
    requires forall j :: acc < j < i ==> gs[j].score < gs[acc].score
    ensures k < |gs|
    ensures forall j :: 0 <= j < k ==> gs[j].score <= gs[k].score
    ensures forall j :: k < j < |gs| ==> gs[j].score < gs[k].score
    decreases |gs| - i
  {
    if i == |gs| then acc
    else if gs[acc].score > gs[i].score then ReduceBest(gs, acc, i + 1)
    else ReduceBest(gs, i, i + 1)
  }

  /**
   * The index of the gesture the reduction picks: its score is maximal, and
   * it is the last gesture with that score (ties go to the later one).
   */
  function BestIndex(gs: seq<ScoredGesture>): (k: nat)
    requires |gs| > 0
    ensures k < |gs|
    ensures forall j :: 0 <= j < |gs| ==> gs[j].score <= gs[k].score
    ensures forall j :: k < j < |gs| ==> gs[j].score < gs[k].score
  {
    ReduceBest(gs, 0, 1)
  }

  /** side's slot set to text, the rest of d unchanged. */
  function WithSlot(d: Display, side: Side, text: string): (r: Display)
    ensures r.hands == d.hands
    ensures (if side == Left then r.left else r.right) == text
    ensures (if side == Left then r.right else r.left) == (if side == Left then d.right else d.left)
  {
    match side
    case Left => d.(left := text)
    case Right => d.(right := text)
  }

  /** Whether the best gesture of hand is shown as the cancel glyph. */
  predicate ShowsCancel(hand: HandObservation)
  {
    |hand.gestures| > 0 && Glyph(hand.gestures[BestIndex(hand.gestures)].name) == CancelGlyph
  }

  /**
   * One detected hand: skipped without gestures; otherwise its best
   * gesture's glyph goes to its own slot, or, when that glyph is the cancel
   * glyph, the observation goes to the matcher.
   */
  function RouteHand(d: Display, hand: HandObservation): Display
  {
    if |hand.gestures| == 0 then d
    else
      var detected := hand.gestures[BestIndex(hand.gestures)];
      var glyph := Glyph(detected.name);
      if glyph != CancelGlyph then WithSlot(d, hand.handedness, glyph)
      else
        CancelGlyphOnlyForCancel(detected.name);
        Observe(d, hand.handedness, hand.poseData, detected.name)
  }

  /** The hands of one frame, routed in order. */
  function RouteAll(d: Display, hands: seq<HandObservation>): Display
  {
    if hands == [] then d
    else RouteHand(RouteAll(d, hands[..|hands| - 1]), hands[|hands| - 1])
  }

  /** One frame: both slots emptied, then every detected hand routed in order. */
  function Frame(d: Display, detected: seq<HandObservation>): Display
  {
    RouteAll(d.(left := "", right := ""), detected)
  }

  /**
   * A hand whose best glyph is not the cancel glyph writes only its own slot
   * and leaves the matcher alone.
   */
  lemma NonCancelWritesOwnSlotOnly(d: Display, hand: HandObservation)
    requires |hand.gestures| > 0 && !ShowsCancel(hand)
    ensures var r := RouteHand(d, hand);
            var glyph := Glyph(hand.gestures[BestIndex(hand.gestures)].name);
            && r.hands == d.hands
            && (hand.handedness == Left ==> r.left == glyph && r.right == d.right)
            && (hand.handedness == Right ==> r.right == glyph && r.left == d.left)
  {
  }

  /** Only a hand showing the cancel glyph reaches the matcher, and then with the name "cancel". */
  lemma CancelReachesMatcher(d: Display, hand: HandObservation)
    requires ShowsCancel(hand)
    ensures hand.gestures[BestIndex(hand.gestures)].name == "cancel"
    ensures RouteHand(d, hand) == Observe(d, hand.handedness, hand.poseData, "cancel")
  {
  }

  /** A frame in which no hand has a gesture only empties the slots. */
  lemma {:induction false} FrameWithoutGesturesClearsSlots(d: Display, detected: seq<HandObservation>)
    requires forall i :: 0 <= i < |detected| ==> detected[i].gestures == []
    ensures Frame(d, detected) == Display(d.hands, "", "")
  {
    if detected != [] {
      FrameWithoutGesturesClearsSlots(d, detected[..|detected| - 1]);
    }
  }

  /**
   * The pending set lives across frames: a frame in which no hand shows the
   * cancel glyph leaves it as it was.
   */
  lemma {:induction false} PendingPersistsWithoutCancel(d: Display, detected: seq<HandObservation>)
    requires forall i :: 0 <= i < |detected| ==> !ShowsCancel(detected[i])
    ensures Frame(d, detected).hands == d.hands
  {
    if detected != [] {
      PendingPersistsWithoutCancel(d, detected[..|detected| - 1]);
    }
  }

  /**
   * An armed side never expires: a left cancel hand in one frame and a right
   * cancel hand in a later frame fire the matcher, and the later frame ends
   * with the cancel glyph in both slots.
   */
  lemma ArmedAcrossFrames(d: Display, l: HandObservation, r: HandObservation)
    requires d.hands == {}
    requires l.handedness == Left && r.handedness == Right
    requires ShowsCancel(l) && ShowsCancel(r)
    requires Qualifies(Left, l.poseData, "cancel") && Qualifies(Right, r.poseData, "cancel")
    ensures Frame(d, [l]).hands == {Left}
    ensures Frame(Frame(d, [l]), [r]) == Display({}, CancelGlyph, CancelGlyph)
  {
    var c0 := d.(left := "", right := "");
    assert [l][..0] == [];
    assert RouteAll(c0, [l]) == RouteHand(RouteAll(c0, [l][..0]), l);
    CancelReachesMatcher(c0, l);
    LoneLeftArms(c0, l.poseData);
    var d1 := Frame(d, [l]);
    assert d1 == c0.(hands := {Left});
    var c1 := d1.(left := "", right := "");
    assert [r][..0] == [];
    assert RouteAll(c1, [r]) == RouteHand(RouteAll(c1, [r][..0]), r);
    CancelReachesMatcher(c1, r);
    LeftThenRightFiresOnce(c0, l.poseData, r.poseData);
  }

  /**
   * A pending side stays pending through any hands that do not complete the
   * gesture: every cancel hand of the other side fails to qualify.
   */
  lemma {:induction false} ArmedSidePersists(d: Display, detected: seq<HandObservation>, s: Side)
    requires d.hands == {s}
    requires forall i :: 0 <= i < |detected| && detected[i].handedness == Other(s) && ShowsCancel(detected[i])
               ==> !Qualifies(Other(s), detected[i].poseData, "cancel")
    ensures RouteAll(d, detected).hands == {s}
  {
    if detected != [] {
      var before := RouteAll(d, detected[..|detected| - 1]);
      ArmedSidePersists(d, detected[..|detected| - 1], s);
      var hand := detected[|detected| - 1];
      if ShowsCancel(hand) {
        CancelReachesMatcher(before, hand);
      }
    }
  }

  /** The same across a whole frame: only a qualifying other-side cancel hand disarms. */
  lemma ArmedSidePersistsAcrossFrame(d: Display, detected: seq<HandObservation>, s: Side)
    requires d.hands == {s}
    requires forall i :: 0 <= i < |detected| && detected[i].handedness == Other(s) && ShowsCancel(detected[i])
               ==> !Qualifies(Other(s), detected[i].poseData, "cancel")
    ensures Frame(d, detected).hands == {s}
  {
    ArmedSidePersists(d.(left := "", right := ""), detected, s);
  }

  /** Routing a frame keeps at most one side pending. */
  lemma {:induction false} RouteAllKeepsAtMostOnePending(d: Display, hands: seq<HandObservation>)
    requires |d.hands| <= 1
    ensures |RouteAll(d, hands).hands| <= 1
  {
    if hands != [] {
      var before := RouteAll(d, hands[..|hands| - 1]);
      RouteAllKeepsAtMostOnePending(d, hands[..|hands| - 1]);
      var hand := hands[|hands| - 1];
      if ShowsCancel(hand) {
        CancelReachesMatcher(before, hand);
        ObserveKeepsAtMostOnePending(before, hand.handedness, hand.poseData, "cancel");
      }
    }
  }

  // ---------------------------------------------------------------------------
  // The recognizer's mutable state
  // ---------------------------------------------------------------------------

  /**
   * The state the recognizer keeps between frames: the matcher's pending set
   * and the two display slots.
   */
  class Recognizer {
    var hands: set<Side>
    var leftIcon: string
    var rightIcon: string

    /** Between observations at most one side is pending. */
    ghost predicate Valid()
      reads this
    {
      |hands| <= 1
    }

    function State(): Display
      reads this
    {
      Display(hands, leftIcon, rightIcon)
    }

    constructor ()
      ensures Valid() && State() == Display({}, "", "")
    {
      hands := {};
      leftIcon, rightIcon := "", "";
    }

    /** Adds chosenHand to the pending set when some finger points a required direction. */
    method AddToHandsIfCorrect(chosenHand: Side, poseData: seq<PoseEntry>, gestureString: string)
      requires gestureString in TwoHandsGestures()
      modifies this`hands
      ensures hands == Added(old(hands), chosenHand, poseData, gestureString)
    {
      var isATwoHandsGesture := SomeDirectionIn(poseData, RequiredDirections(gestureString, chosenHand));
      if !isATwoHandsGesture {
        return;
      }
      hands := hands + {chosenHand};
    }

    /** One matcher observation; fires and clears once both sides are pending. */
    method CheckGestureCombination(chosenHand: Side, poseData: seq<PoseEntry>, gestureString: string)
      requires gestureString in TwoHandsGestures()
      requires Valid()
      modifies this
      ensures Valid()
      ensures State() == Observe(old(State()), chosenHand, poseData, gestureString)
    {
      ObserveKeepsAtMostOnePending(State(), chosenHand, poseData, gestureString);
      AddToHandsIfCorrect(chosenHand, poseData, gestureString);
      if |hands| != 2 {
        return;
      }
      leftIcon := GesturesStrings[gestureString];
      rightIcon := leftIcon;
      hands := {};
    }

    /** Writes text to side's slot. */
    method SetIcon(side: Side, text: string)
      modifies this`leftIcon, this`rightIcon
      ensures State() == WithSlot(old(State()), side, text)
    {
      match side
      case Left => leftIcon := text;
      case Right => rightIcon := text;
    }

    /** One frame over the hands the detector and estimator reported. */
    method EstimateHands(detected: seq<HandObservation>)
      requires Valid()
      modifies this
      ensures Valid()
      ensures State() == Frame(old(State()), detected)
    {
      rightIcon, leftIcon := "", "";
      for i := 0 to |detected|
        invariant Valid()
        invariant State() == RouteAll(old(State()).(left := "", right := ""), detected[..i])
      {
        assert detected[..i + 1][..i] == detected[..i];
        var hand := detected[i];
        if |hand.gestures| > 0 {
          var detectedGesture := hand.gestures[BestIndex(hand.gestures)];
          var gestureName := Glyph(detectedGesture.name);
          var chosenHand := hand.handedness;
          if gestureName != CancelGlyph {
            SetIcon(chosenHand, gestureName);
            continue;
          }
          CancelGlyphOnlyForCancel(detectedGesture.name);
          CheckGestureCombination(chosenHand, hand.poseData, detectedGesture.name);
        }
      }
      assert detected[..|detected|] == detected;
    }
  }
}

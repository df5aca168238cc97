/**
 * The gesture catalog of the demo: four gesture descriptions (rock, paper,
 * scissors, cancel), each a set of weighted per-finger curl and direction
 * constraints that the external gesture estimator scores hand poses against.
 *
 * A description is built by repeated calls that append one weighted
 * constraint to the list kept for a finger. The builders below make these
 * calls in the order the catalog makes them, loops included, and are proved
 * to produce exactly the table given by CurlRules and DirectionRules, which
 * is the reference the lemmas at the end of this module read.
 */
module Gestures {

  datatype Finger = Thumb | Index | Middle | Ring | Pinky

  datatype FingerCurl = NoCurl | HalfCurl | FullCurl

  datatype FingerDirection =
    | VerticalUp | VerticalDown
    | HorizontalLeft | HorizontalRight
    | DiagonalUpRight | DiagonalUpLeft
    | DiagonalDownRight | DiagonalDownLeft

  /** One weighted curl constraint of a finger: the curl and its weight. */
  datatype CurlRule = CurlRule(curl: FingerCurl, weight: real)

  /** One weighted direction constraint of a finger. */
  datatype DirectionRule = DirectionRule(direction: FingerDirection, weight: real)

  /** The gestures this repository defines itself. */
  datatype GestureName = Rock | Paper | Scissors | Cancel

  /** All five fingers, in the estimator library's order. */
  const AllFingers: seq<Finger> := [Thumb, Index, Middle, Ring, Pinky]

  /** The name each description is created with. */
  function NameOf(g: GestureName): string
  {
    match g
    case Rock => "rock"
    case Paper => "paper"
    case Scissors => "scissors"
    case Cancel => "cancel"
  }

  /**
   * A gesture description: a name and, per finger, the list of weighted
   * constraints appended so far. A finger that never received a constraint
   * has no entry, which reads as the empty list.
   */
  class GestureDescription {
    const name: string
    var curls: map<Finger, seq<CurlRule>>
    var directions: map<Finger, seq<DirectionRule>>

    constructor (name: string)
      ensures this.name == name
      ensures curls == map[] && directions == map[]
    {
      this.name := name;
      curls := map[];
      directions := map[];
    }

    /** The curl constraints of finger f, in the order they were added. */
    function CurlsOf(f: Finger): seq<CurlRule>
      reads this`curls
    {
      if f in curls then curls[f] else []
    }

    /** The direction constraints of finger f, in the order they were added. */
    function DirectionsOf(f: Finger): seq<DirectionRule>
      reads this`directions
    {
      if f in directions then directions[f] else []
    }

    /** Appends one weighted curl constraint to finger's list. */
    method AddCurl(finger: Finger, curl: FingerCurl, weight: real)
      modifies this`curls
      ensures CurlsOf(finger) == old(CurlsOf(finger)) + [CurlRule(curl, weight)]
      ensures forall f :: f != finger ==> CurlsOf(f) == old(CurlsOf(f))
    {
      curls := curls[finger := CurlsOf(finger) + [CurlRule(curl, weight)]];
    }

    /** Appends one weighted direction constraint to finger's list. */
    method AddDirection(finger: Finger, direction: FingerDirection, weight: real)
      modifies this`directions
      ensures DirectionsOf(finger) == old(DirectionsOf(finger)) + [DirectionRule(direction, weight)]
      ensures forall f :: f != finger ==> DirectionsOf(f) == old(DirectionsOf(f))
    {
      directions := directions[finger := DirectionsOf(finger) + [DirectionRule(direction, weight)]];
    }
  }

  /** The position of a finger in AllFingers (the library numbers fingers this way). */
  function Position(f: Finger): (k: nat)
    ensures k < |AllFingers| && AllFingers[k] == f
  {
    match f
    case Thumb => 0
    case Index => 1
    case Middle => 2
    case Ring => 3
    case Pinky => 4
  }

  /** The k-th finger of AllFingers sits at position k. */
  lemma PositionOfListed(k: nat)
    requires k < |AllFingers|
    ensures Position(AllFingers[k]) == k
  {
  }

  /** The fingers after the thumb, in order, sit at positions 1 to 4. */
  lemma PositionOfOthers(others: seq<Finger>, k: nat)
    requires others == [Index, Middle, Ring, Pinky] && k < |others|
    ensures Position(others[k]) == k + 1
  {
  }

  /** The curl constraints the catalog gives finger f in gesture g. */
  function CurlRules(g: GestureName, f: Finger): seq<CurlRule>
  {
    match g
    case Rock =>
      if f == Thumb then [CurlRule(HalfCurl, 1.0), CurlRule(NoCurl, 0.5)]
      else [CurlRule(FullCurl, 1.0), CurlRule(HalfCurl, 0.9)]
    case Paper => [CurlRule(NoCurl, 1.0)]
    case Scissors =>
      if f == Index || f == Middle then [CurlRule(NoCurl, 1.0)]
      else if f == Ring || f == Pinky then [CurlRule(FullCurl, 1.0), CurlRule(HalfCurl, 0.9)]
      else []
    case Cancel => [CurlRule(NoCurl, 1.0)]
  }

  /** The direction constraints the catalog gives finger f in gesture g. */
  function DirectionRules(g: GestureName, f: Finger): seq<DirectionRule>
  {
    match g
    case Cancel =>
      [ DirectionRule(DiagonalUpRight, 1.0), DirectionRule(DiagonalUpLeft, 1.0),
        DirectionRule(HorizontalRight, 1.0), DirectionRule(HorizontalLeft, 1.0) ]
    case _ => []
  }

  /** True when finger f of the description d has exactly the catalog's constraints for g. */
  ghost predicate DescribesFinger(d: GestureDescription, g: GestureName, f: Finger)
    reads d
  {
    d.CurlsOf(f) == CurlRules(g, f) && d.DirectionsOf(f) == DirectionRules(g, f)
  }

  /** True when the description d holds exactly the catalog's constraints for g, finger by finger. */
  ghost predicate Describes(d: GestureDescription, g: GestureName)
    reads d
  {
    && d.name == NameOf(g)
    && DescribesFinger(d, g, Thumb) && DescribesFinger(d, g, Index) && DescribesFinger(d, g, Middle)
    && DescribesFinger(d, g, Ring) && DescribesFinger(d, g, Pinky)
  }

  /** The body of the rock loop: a curled finger, half-curled at slightly lower weight. */
  method AddCurledFinger(d: GestureDescription, finger: Finger)
    modifies d`curls
    ensures d.CurlsOf(finger) == old(d.CurlsOf(finger)) + [CurlRule(FullCurl, 1.0), CurlRule(HalfCurl, 0.9)]
    ensures forall f :: f != finger ==> d.CurlsOf(f) == old(d.CurlsOf(f))
  {
    d.AddCurl(finger, FullCurl, 1.0);
    d.AddCurl(finger, HalfCurl, 0.9);
  }

  /** Rock: the thumb half-curled, or less strongly straight; the other fingers curled. */
  method BuildRock() returns (d: GestureDescription)
    ensures fresh(d) && Describes(d, Rock)
  {
    d := new GestureDescription("rock");
    d.AddCurl(Thumb, HalfCurl, 1.0);
    d.AddCurl(Thumb, NoCurl, 0.5);
    CurlOtherFingers(d);
  }

  /** The rock loop: every finger but the thumb curled. */
  method CurlOtherFingers(d: GestureDescription)
    requires forall f :: f != Thumb ==> d.CurlsOf(f) == []
    modifies d`curls
    ensures d.CurlsOf(Thumb) == old(d.CurlsOf(Thumb))
    ensures forall f :: f != Thumb ==> d.CurlsOf(f) == CurlRules(Rock, f)
  {
    var others := [Index, Middle, Ring, Pinky];
    for i := 0 to |others|
      invariant d.CurlsOf(Thumb) == old(d.CurlsOf(Thumb))
      invariant forall f :: 0 < Position(f) <= i ==> d.CurlsOf(f) == CurlRules(Rock, f)
      invariant forall f :: i < Position(f) ==> d.CurlsOf(f) == []
    {
      PositionOfOthers(others, i);
      AddCurledFinger(d, others[i]);
    }
  }

  /** Paper: no finger curled. */
  method BuildPaper() returns (d: GestureDescription)
    ensures fresh(d) && Describes(d, Paper)
  {
    d := new GestureDescription("paper");
    for i := 0 to |AllFingers|
      invariant forall f :: Position(f) < i ==> DescribesFinger(d, Paper, f)
      invariant forall f :: i <= Position(f) ==> d.CurlsOf(f) == [] && d.DirectionsOf(f) == []
    {
      PositionOfListed(i);
      d.AddCurl(AllFingers[i], NoCurl, 1.0);
    }
  }

  /** Scissors: index and middle straight, ring and pinky curled. */
  method BuildScissors() returns (d: GestureDescription)
    ensures fresh(d) && Describes(d, Scissors)
  {
    d := new GestureDescription("scissors");
    d.AddCurl(Index, NoCurl, 1.0);
    d.AddCurl(Middle, NoCurl, 1.0);
    AddCurledFinger(d, Ring);
    AddCurledFinger(d, Pinky);
  }

  /** The body of the cancel loop: the constraints of one finger. */
  method AddCancelFinger(d: GestureDescription, finger: Finger)
    modifies d`curls, d`directions
    ensures d.CurlsOf(finger) == old(d.CurlsOf(finger)) + CurlRules(Cancel, finger)
    ensures d.DirectionsOf(finger) == old(d.DirectionsOf(finger)) + DirectionRules(Cancel, finger)
    ensures forall f :: f != finger ==> d.CurlsOf(f) == old(d.CurlsOf(f)) && d.DirectionsOf(f) == old(d.DirectionsOf(f))
  {
    d.AddCurl(finger, NoCurl, 1.0);

    d.AddDirection(finger, DiagonalUpRight, 1.0);
    d.AddDirection(finger, DiagonalUpLeft, 1.0);

    d.AddDirection(finger, HorizontalRight, 1.0);
    d.AddDirection(finger, HorizontalLeft, 1.0);
  }

  /** Cancel: every finger straight and pointing sideways or diagonally up. */
  method BuildCancel() returns (d: GestureDescription)
    ensures fresh(d) && Describes(d, Cancel)
  {
    d := new GestureDescription("cancel");
    for i := 0 to |AllFingers|
      invariant forall f :: Position(f) < i ==> DescribesFinger(d, Cancel, f)
      invariant forall f :: i <= Position(f) ==> d.CurlsOf(f) == [] && d.DirectionsOf(f) == []
    {
      PositionOfListed(i);
      AddCancelFinger(d, AllFingers[i]);
    }
  }

  /** Rock: a half-curled (or, less strongly, straight) thumb and four curled fingers; no direction constraint. */
  lemma RockIsClosedFist()
    ensures CurlRules(Rock, Thumb) == [CurlRule(HalfCurl, 1.0), CurlRule(NoCurl, 0.5)]
    ensures forall f :: f != Thumb ==> CurlRules(Rock, f) == [CurlRule(FullCurl, 1.0), CurlRule(HalfCurl, 0.9)]
    ensures forall f :: DirectionRules(Rock, f) == []
  {
  }

  /** Paper: every finger has exactly one constraint, straight at full weight; no direction constraint. */
  lemma PaperIsOpenHand()
    ensures forall f :: CurlRules(Paper, f) == [CurlRule(NoCurl, 1.0)] && DirectionRules(Paper, f) == []
  {
  }

  /** Scissors: index and middle straight, ring and pinky curled, the thumb free. */
  lemma ScissorsLeavesThumbFree()
    ensures CurlRules(Scissors, Thumb) == [] && DirectionRules(Scissors, Thumb) == []
    ensures forall f :: f == Index || f == Middle ==> CurlRules(Scissors, f) == [CurlRule(NoCurl, 1.0)]
    ensures forall f :: f == Ring || f == Pinky ==> CurlRules(Scissors, f) == [CurlRule(FullCurl, 1.0), CurlRule(HalfCurl, 0.9)]
    ensures forall f :: DirectionRules(Scissors, f) == []
  {
  }

  /**
   * Cancel: an open hand, like paper, whose every finger also points
   * sideways or diagonally up, each of the four directions at full weight.
   */
  lemma CancelIsSidewaysOpenHand(f: Finger)
    ensures CurlRules(Cancel, f) == CurlRules(Paper, f)
    ensures forall r :: r in DirectionRules(Cancel, f) ==> r.weight == 1.0
    ensures (set r | r in DirectionRules(Cancel, f) :: r.direction)
         == {DiagonalUpRight, DiagonalUpLeft, HorizontalRight, HorizontalLeft}
  {
  }

  /** Cancel is the only gesture of the catalog that constrains a direction. */
  lemma OnlyCancelConstrainsDirections(g: GestureName)
    ensures (exists f :: DirectionRules(g, f) != []) <==> g == Cancel
  {
    if g == Cancel {
      assert DirectionRules(g, Thumb) != [];
    }
  }

  /** Every weight of the catalog lies in (0, 1]. */
  lemma WeightsInUnitInterval(g: GestureName, f: Finger)
    ensures forall r :: r in CurlRules(g, f) ==> 0.0 < r.weight <= 1.0
    ensures forall r :: r in DirectionRules(g, f) ==> 0.0 < r.weight <= 1.0
  {
  }
}

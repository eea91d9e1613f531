/**
 * Landmark points and the rules for placing and removing them: at most one
 * point per image and category, at most four points per sequence, a
 * single-step undo, the contact-zoom condition and the category toggle.
 */
module Annotations {
  import opened Common

  /** `currentCategory`: `'index'` or `'thumb'`. */
  datatype Category = Index | Thumb

  /**
   * `{x, y, imgName, category, occluded}`. The coordinates are in the original
   * image's pixel space and are taken as given; `occluded` is `None` on a point
   * that was imported without that field.
   */
  datatype Point = Point(x: real, y: real, imgName: string, category: Category, occluded: Option<bool>)

  /** Why a click places no point. */
  datatype Rejection =
    | DuplicateCategory  // this image already has a point of this category
    | SequenceFull       // the sequence already has four points
    | NoSequence         // no sequence is loaded, so the click handler throws

  /** The category toggle flips between the two categories. */
  function Toggle(c: Category): (r: Category)
    ensures r != c
  {
    if c == Index then Thumb else Index
  }

  lemma {:induction false} ToggleInvolution(c: Category)
    ensures Toggle(Toggle(c)) == c
  {
  }

  /** Some point of `pts` is on image `img` with category `cat`. */
  ghost predicate HasSlot(pts: seq<Point>, img: string, cat: Category)
  {
    exists i :: 0 <= i < |pts| && pts[i].imgName == img && pts[i].category == cat
  }

  /** `pts.filter(p => p.imgName === img && p.category === cat).length`. */
  function CountSlot(pts: seq<Point>, img: string, cat: Category): (n: nat)
    ensures n <= |pts|
    ensures n >= 1 <==> HasSlot(pts, img, cat)
  {
    if pts == [] then 0
    else
      assert forall i :: 0 < i < |pts| ==> pts[i] == pts[1..][i - 1];
      (if pts[0].imgName == img && pts[0].category == cat then 1 else 0) + CountSlot(pts[1..], img, cat)
  }

  /** `pts.some(p => p.imgName === img && p.category === cat)`. */
  function SomeMatches(pts: seq<Point>, img: string, cat: Category): (found: bool)
    ensures found <==> HasSlot(pts, img, cat)
  {
    if pts == [] then false
    else
      assert forall i :: 0 < i < |pts| ==> pts[i] == pts[1..][i - 1];
      (pts[0].imgName == img && pts[0].category == cat) || SomeMatches(pts[1..], img, cat)
  }

  /**
   * The two checks a click passes before a point is placed on image `img`
   * with category `cat`, in the order the source makes them.
   */
  function Check(pts: seq<Point>, img: string, cat: Category): (verdict: Option<Rejection>)
    ensures verdict == None <==> !HasSlot(pts, img, cat) && |pts| < 4
    ensures verdict == Some(DuplicateCategory) <==> HasSlot(pts, img, cat)
    ensures verdict == Some(SequenceFull) <==> !HasSlot(pts, img, cat) && |pts| >= 4
  {
    if CountSlot(pts, img, cat) >= 1 then Some(DuplicateCategory)
    else if |pts| >= 4 then Some(SequenceFull)
    else None
  }

  /** `points.pop()` guarded by `points.length > 0`. */
  function Undo(pts: seq<Point>): (r: seq<Point>)
    ensures |pts| == 0 ==> r == []
    ensures |pts| > 0 ==> |r| == |pts| - 1 && r + [pts[|pts| - 1]] == pts
  {
    if |pts| > 0 then pts[..|pts| - 1] else pts
  }

  /** No two points share image and category. */
  ghost predicate NoDuplicateSlots(pts: seq<Point>)
  {
    forall i, j :: 0 <= i < j < |pts| ==>
      !(pts[i].imgName == pts[j].imgName && pts[i].category == pts[j].category)
  }

  /** The cardinality invariant: one point per image and category, four points at most. */
  ghost predicate WellFormed(pts: seq<Point>)
  {
    |pts| <= 4 && NoDuplicateSlots(pts)
  }

  /** One user action on the point list of the current sequence. */
  datatype Op = Place(point: Point) | UndoLast

  /** What a placement attempt or an undo does to the point list. */
  function Step(pts: seq<Point>, op: Op): (r: seq<Point>)
    ensures op.Place? ==>
      (r == pts + [op.point] <==> !HasSlot(pts, op.point.imgName, op.point.category) && |pts| < 4)
    ensures op.Place? && r != pts + [op.point] ==> r == pts
    ensures op.UndoLast? ==> r == Undo(pts)
  {
    match op
    case Place(p) => if Check(pts, p.imgName, p.category) == None then pts + [p] else pts
    case UndoLast => Undo(pts)
  }

  /** A series of actions, first to last. */
  function Run(pts: seq<Point>, ops: seq<Op>): (r: seq<Point>)
    ensures |r| <= |pts| + |ops|
    decreases |ops|
  {
    if ops == [] then pts else Run(Step(pts, ops[0]), ops[1..])
  }

  lemma {:induction false} StepPreserves(pts: seq<Point>, op: Op)
    requires WellFormed(pts)
    ensures WellFormed(Step(pts, op))
  {
    match op
    case Place(p) =>
      if Check(pts, p.imgName, p.category) == None {
        var r := pts + [p];
        forall i, j | 0 <= i < j < |r|
          ensures !(r[i].imgName == r[j].imgName && r[i].category == r[j].category)
        {
          if j == |pts| {
            assert r[i] == pts[i];
          }
        }
      }
    case UndoLast =>
  }

  /** Any series of placements and undos keeps the cardinality invariant. */
  lemma {:induction false} RunPreserves(pts: seq<Point>, ops: seq<Op>)
    requires WellFormed(pts)
    ensures WellFormed(Run(pts, ops))
    decreases |ops|
  {
    if ops != [] {
      StepPreserves(pts, ops[0]);
      RunPreserves(Step(pts, ops[0]), ops[1..]);
    }
  }

  /** Undo right after a successful placement gives back the list as it was. */
  lemma {:induction false} UndoAfterPlace(pts: seq<Point>, p: Point)
    requires Check(pts, p.imgName, p.category) == None
    ensures Step(pts, Place(p)) == pts + [p]
    ensures Step(Step(pts, Place(p)), UndoLast) == pts
  {
    assert (pts + [p])[..|pts|] == pts;
  }

  /** The (image, category) slots the points of `pts` occupy. */
  ghost function Slots(pts: seq<Point>): set<(string, Category)>
  {
    if pts == [] then {}
    else
      var last := pts[|pts| - 1];
      Slots(pts[..|pts| - 1]) + {(last.imgName, last.category)}
  }

  lemma {:induction false} SlotsOf(pts: seq<Point>)
    ensures forall img, cat :: (img, cat) in Slots(pts) <==> HasSlot(pts, img, cat)
    ensures NoDuplicateSlots(pts) ==> |Slots(pts)| == |pts|
  {
    if pts != [] {
      var init, last := pts[..|pts| - 1], pts[|pts| - 1];
      SlotsOf(init);
      assert forall i :: 0 <= i < |init| ==> init[i] == pts[i];
      if NoDuplicateSlots(pts) {
        assert NoDuplicateSlots(init);
        assert (last.imgName, last.category) !in Slots(init);
      }
    }
  }

  lemma {:induction false} SubsetCard<T>(a: set<T>, b: set<T>)
    requires a <= b
    ensures |a| <= |b|
  {
    if a != {} {
      var x :| x in a;
      SubsetCard(a - {x}, b - {x});
    }
  }

  lemma {:induction false} SlotsWithin(pts: seq<Point>, a: string, b: string)
    requires forall i :: 0 <= i < |pts| ==> pts[i].imgName == a || pts[i].imgName == b
    ensures Slots(pts) <= {(a, Index), (a, Thumb), (b, Index), (b, Thumb)}
  {
    SlotsOf(pts);
    forall s | s in Slots(pts) ensures s in {(a, Index), (a, Thumb), (b, Index), (b, Thumb)} {
      assert HasSlot(pts, s.0, s.1);
    }
  }

  /**
   * Points that all lie on the two images of a pair and never share image and
   * category number four at most: two images times two categories.
   */
  lemma {:induction false} AtMostFourOnAPair(pts: seq<Point>, a: string, b: string)
    requires NoDuplicateSlots(pts)
    requires forall i :: 0 <= i < |pts| ==> pts[i].imgName == a || pts[i].imgName == b
    ensures |pts| <= 4
  {
    var all := {(a, Index), (a, Thumb), (b, Index), (b, Thumb)};
    SlotsOf(pts);
    SlotsWithin(pts, a, b);
    SubsetCard(Slots(pts), all);
  }

  /**
   * With four such points every slot of the pair is taken, so the next click
   * on either image is turned away as a duplicate before the four-point check
   * is reached.
   */
  lemma {:induction false} FullPairRejectsAsDuplicate(pts: seq<Point>, a: string, b: string, img: string, cat: Category)
    requires NoDuplicateSlots(pts) && |pts| == 4
    requires forall i :: 0 <= i < |pts| ==> pts[i].imgName == a || pts[i].imgName == b
    requires img == a || img == b
    ensures Check(pts, img, cat) == Some(DuplicateCategory)
  {
    var all := {(a, Index), (a, Thumb), (b, Index), (b, Thumb)};
    SlotsOf(pts);
    SlotsWithin(pts, a, b);
    if (img, cat) !in Slots(pts) {
      SubsetCard(Slots(pts), all - {(img, cat)});
      assert false;
    }
  }

  /** The four placements of `FourPlacementsSucceed`, one step at a time. */
  lemma {:induction false} FourSteps(a: string, b: string, p1: Point, p2: Point, p3: Point, p4: Point)
    requires a != b
    requires p1.imgName == a && p1.category == Index && p2.imgName == a && p2.category == Thumb
    requires p3.imgName == b && p3.category == Index && p4.imgName == b && p4.category == Thumb
    ensures Step([], Place(p1)) == [p1]
    ensures Step([p1], Place(p2)) == [p1, p2]
    ensures Step([p1, p2], Place(p3)) == [p1, p2, p3]
    ensures Step([p1, p2, p3], Place(p4)) == [p1, p2, p3, p4]
  {
    var l0: seq<Point> := [];
    assert l0 + [p1] == [p1] && [p1] + [p2] == [p1, p2];
    assert [p1, p2] + [p3] == [p1, p2, p3] && [p1, p2, p3] + [p4] == [p1, p2, p3, p4];
    assert !HasSlot([p1], a, Thumb);
    assert !HasSlot([p1, p2], b, Index);
    assert !HasSlot([p1, p2, p3], b, Thumb);
  }

  /** The four points of `FourPlacementsSucceed` lie on the pair and take four different slots. */
  lemma {:induction false} FourSlots(a: string, b: string, p1: Point, p2: Point, p3: Point, p4: Point)
    requires a != b
    requires p1.imgName == a && p1.category == Index && p2.imgName == a && p2.category == Thumb
    requires p3.imgName == b && p3.category == Index && p4.imgName == b && p4.category == Thumb
    ensures NoDuplicateSlots([p1, p2, p3, p4])
    ensures forall i :: 0 <= i < 4 ==> [p1, p2, p3, p4][i].imgName == a || [p1, p2, p3, p4][i].imgName == b
  {
    var l := [p1, p2, p3, p4];
    assert l[0] == p1 && l[1] == p2 && l[2] == p3 && l[3] == p4;
    forall i, j | 0 <= i < j < |l| ensures !(l[i].imgName == l[j].imgName && l[i].category == l[j].category) {
    }
  }

  /**
   * An index and a thumb point on each image of a pair, placed on an empty
   * list, all pass the checks; the four points then turn away any further
   * click on the pair as a duplicate.
   */
  lemma {:induction false} FourPlacementsSucceed(a: string, b: string, p1: Point, p2: Point, p3: Point, p4: Point,
                                                 img: string, cat: Category)
    requires a != b
    requires p1.imgName == a && p1.category == Index && p2.imgName == a && p2.category == Thumb
    requires p3.imgName == b && p3.category == Index && p4.imgName == b && p4.category == Thumb
    requires img == a || img == b
    ensures Run([], [Place(p1), Place(p2), Place(p3), Place(p4)]) == [p1, p2, p3, p4]
    ensures Check([p1, p2, p3, p4], img, cat) == Some(DuplicateCategory)
  {
    var o4: seq<Op> := [Place(p4)];
    var o3, o2, o1 := [Place(p3)] + o4, [Place(p2)] + [Place(p3)] + o4, [Place(p1)] + [Place(p2)] + [Place(p3)] + o4;
    assert o1 == [Place(p1), Place(p2), Place(p3), Place(p4)];
    assert o1[1..] == o2 && o2[1..] == o3 && o3[1..] == o4 && o4[1..] == [];
    var l0: seq<Point> := [];
    FourSteps(a, b, p1, p2, p3, p4);
    assert Run([p1, p2, p3, p4], []) == [p1, p2, p3, p4];
    assert Run([p1, p2, p3], o4) == [p1, p2, p3, p4];
    assert Run([p1, p2], o3) == [p1, p2, p3, p4];
    assert Run([p1], o2) == [p1, p2, p3, p4];
    assert Run(l0, o1) == [p1, p2, p3, p4];
    FourSlots(a, b, p1, p2, p3, p4);
    FullPairRejectsAsDuplicate([p1, p2, p3, p4], a, b, img, cat);
  }

  /** `checkZoomInCondition`: the contact image has both an index and a thumb point. */
  function ContactZoomEnabled(pts: seq<Point>, contact: string): (enabled: bool)
    ensures enabled <==> HasSlot(pts, contact, Index) && HasSlot(pts, contact, Thumb)
  {
    SomeMatches(pts, contact, Index) && SomeMatches(pts, contact, Thumb)
  }

  /**
   * Placing an index and then a thumb point on the contact image enables the
   * contact zoom; undoing the second disables it again.
   */
  lemma {:induction false} ZoomScenario(pts: seq<Point>, contact: string, first: Point, second: Point)
    requires |pts| <= 2 && !HasSlot(pts, contact, Index) && !HasSlot(pts, contact, Thumb)
    requires first.imgName == contact && first.category == Index
    requires second.imgName == contact && second.category == Thumb
    ensures Step(Step(pts, Place(first)), Place(second)) == pts + [first, second]
    ensures ContactZoomEnabled(pts + [first, second], contact)
    ensures !ContactZoomEnabled(Undo(pts + [first, second]), contact)
  {
    var one := pts + [first];
    assert !HasSlot(one, contact, Thumb) by {
      assert forall i :: 0 <= i < |pts| ==> one[i] == pts[i];
    }
    assert (pts + [first, second])[|pts|] == first;
    assert Undo(pts + [first, second]) == one;
  }
}

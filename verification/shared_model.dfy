/**
 * Value objects of the content repository that the events carry. Their PHP
 * classes are not part of this model; here they are plain immutable data with
 * structural equality.
 */
module SharedModel {

  import opened Wrappers

  datatype ContentStreamId = ContentStreamId(value: string)

  datatype NodeAggregateId = NodeAggregateId(value: string)

  datatype WorkspaceName = WorkspaceName(value: string)

  /** The user who issued the command (legacy events only). */
  datatype UserId = UserId(value: string)

  /** A coordinate in the dimension space: dimension name to dimension value. */
  datatype DimensionSpacePoint = DimensionSpacePoint(coordinates: map<string, string>)

  /** A dimension space point in its role as the origin of one node of an aggregate. */
  datatype OriginDimensionSpacePoint = OriginDimensionSpacePoint(coordinates: map<string, string>) {

    function ToDimensionSpacePoint(): DimensionSpacePoint {
      DimensionSpacePoint(coordinates)
    }
  }

  /** A set of points in its deterministic iteration order. */
  datatype DimensionSpacePointSet = DimensionSpacePointSet(points: seq<DimensionSpacePoint>)

  datatype OriginDimensionSpacePointSet = OriginDimensionSpacePointSet(origins: seq<OriginDimensionSpacePoint>) {

    function ToDimensionSpacePointSet(): DimensionSpacePointSet {
      DimensionSpacePointSet(seq(|origins|, i requires 0 <= i < |origins| => origins[i].ToDimensionSpacePoint()))
    }
  }

  /** The sibling a new variant is to be placed before at one point; None appends at the end. */
  datatype InterdimensionalSibling = InterdimensionalSibling(
    dimensionSpacePoint: DimensionSpacePoint,
    nodeAggregateId: Option<NodeAggregateId>)

  datatype InterdimensionalSiblings = InterdimensionalSiblings(items: seq<InterdimensionalSibling>)

  /** The points the siblings are given for, in order. */
  function CoveredPoints(siblings: seq<InterdimensionalSibling>): seq<DimensionSpacePoint>
  {
    if |siblings| == 0 then []
    else [siblings[0].dimensionSpacePoint] + CoveredPoints(siblings[1..])
  }

  /** Every entry leaves the position open: the variant is appended at the end. */
  predicate WithoutSucceedingSiblings(siblings: seq<InterdimensionalSibling>) {
    forall k :: 0 <= k < |siblings| ==> siblings[k].nodeAggregateId.None?
  }

  /** One entry per point, in order, each naming no succeeding sibling. */
  function SiblingsWithoutSuccessor(points: seq<DimensionSpacePoint>): (r: seq<InterdimensionalSibling>)
    ensures |r| == |points|
    ensures forall k :: 0 <= k < |points| ==> r[k] == InterdimensionalSibling(points[k], None)
    decreases |points|
  {
    if |points| == 0 then []
    else [InterdimensionalSibling(points[0], None)] + SiblingsWithoutSuccessor(points[1..])
  }

  /**
   * The legacy-compatible constructor: one entry per point of the set, in the
   * set's order, none of them naming a succeeding sibling.
   */
  function FromDimensionSpacePointSetWithoutSucceedingSiblings(pointSet: DimensionSpacePointSet): (r: InterdimensionalSiblings)
    ensures |r.items| == |pointSet.points|
    ensures WithoutSucceedingSiblings(r.items)
    ensures forall k :: 0 <= k < |r.items| ==> r.items[k].dimensionSpacePoint == pointSet.points[k]
  {
    InterdimensionalSiblings(SiblingsWithoutSuccessor(pointSet.points))
  }

  /** Reading the points back from the derived siblings gives the original set. */
  lemma DerivedSiblingsCoverThePointSet(pointSet: DimensionSpacePointSet)
    ensures CoveredPoints(FromDimensionSpacePointSetWithoutSucceedingSiblings(pointSet).items) == pointSet.points
  {
    var items := FromDimensionSpacePointSetWithoutSucceedingSiblings(pointSet).items;
    CoveredPointsLength(items);
    forall k | 0 <= k < |pointSet.points|
      ensures CoveredPoints(items)[k] == pointSet.points[k]
    {
      CoveredPointsAt(items, k);
    }
  }

  lemma {:induction false} CoveredPointsAt(siblings: seq<InterdimensionalSibling>, k: nat)
    requires k < |siblings|
    ensures |CoveredPoints(siblings)| == |siblings|
    ensures CoveredPoints(siblings)[k] == siblings[k].dimensionSpacePoint
    decreases k
  {
    CoveredPointsLength(siblings);
    if k > 0 {
      CoveredPointsAt(siblings[1..], k - 1);
    }
  }

  lemma {:induction false} CoveredPointsLength(siblings: seq<InterdimensionalSibling>)
    ensures |CoveredPoints(siblings)| == |siblings|
    decreases |siblings|
  {
    if |siblings| > 0 {
      CoveredPointsLength(siblings[1..]);
    }
  }
}

/**
 * The current `NodeGeneralizationVariantWasCreated` event: an immutable record
 * with a copy-to-another-content-stream operation and a decoder that still
 * reads events stored before `variantSucceedingSiblings` existed.
 */
module GeneralizationEvent {

  import opened Wrappers
  import opened SharedModel

  datatype NodeGeneralizationVariantWasCreated = NodeGeneralizationVariantWasCreated(
    contentStreamId: ContentStreamId,
    nodeAggregateId: NodeAggregateId,
    sourceOrigin: OriginDimensionSpacePoint,
    generalizationOrigin: OriginDimensionSpacePoint,
    variantSucceedingSiblings: InterdimensionalSiblings)

  /** The same event re-addressed to `target`; everything but the content stream is kept. */
  function CreateCopyForContentStream(e: NodeGeneralizationVariantWasCreated, target: ContentStreamId): (r: NodeGeneralizationVariantWasCreated)
    ensures r.contentStreamId == target
    ensures r.nodeAggregateId == e.nodeAggregateId
    ensures r.sourceOrigin == e.sourceOrigin
    ensures r.generalizationOrigin == e.generalizationOrigin
    ensures r.variantSucceedingSiblings == e.variantSucceedingSiblings
  {
    NodeGeneralizationVariantWasCreated(
      target, e.nodeAggregateId, e.sourceOrigin, e.generalizationOrigin, e.variantSucceedingSiblings)
  }

  /** Copying twice is copying once to the last target. */
  lemma CopyTwiceIsCopyToLast(e: NodeGeneralizationVariantWasCreated, a: ContentStreamId, b: ContentStreamId)
    ensures CreateCopyForContentStream(CreateCopyForContentStream(e, a), b) == CreateCopyForContentStream(e, b)
  {
  }

  /** Copying to the event's own content stream changes nothing. */
  lemma CopyToOwnStreamIsIdentity(e: NodeGeneralizationVariantWasCreated)
    ensures CreateCopyForContentStream(e, e.contentStreamId) == e
  {
  }

  /** `getContentStreamId` and `getNodeAggregateId` hand back the constructor arguments. */
  lemma GettersReturnConstructorArguments(
    cs: ContentStreamId, id: NodeAggregateId, source: OriginDimensionSpacePoint,
    generalization: OriginDimensionSpacePoint, siblings: InterdimensionalSiblings)
    ensures NodeGeneralizationVariantWasCreated(cs, id, source, generalization, siblings).contentStreamId == cs
    ensures NodeGeneralizationVariantWasCreated(cs, id, source, generalization, siblings).nodeAggregateId == id
  {
  }

  // ---------------------------------------------------------------------------
  // The stored array form

  /**
   * One value of the stored array, already read by the component's own
   * `fromString`/`fromArray`; `Null` and `Unreadable` stand for a stored value
   * the component cannot read.
   */
  datatype StoredField =
    | ContentStreamIdField(contentStreamId: ContentStreamId)
    | NodeAggregateIdField(nodeAggregateId: NodeAggregateId)
    | OriginField(origin: OriginDimensionSpacePoint)
    | SiblingsField(siblings: InterdimensionalSiblings)
    | PointSetField(pointSet: DimensionSpacePointSet)
    | Null
    | Unreadable

  type StoredArray = map<string, StoredField>

  datatype DecodeError = MissingKey(key: string) | MalformedField(key: string)

  const ContentStreamIdKey := "contentStreamId"
  const NodeAggregateIdKey := "nodeAggregateId"
  const SourceOriginKey := "sourceOrigin"
  const GeneralizationOriginKey := "generalizationOrigin"
  const SiblingsKey := "variantSucceedingSiblings"
  /** The key under which events stored before the siblings field kept the covered points. */
  const CoverageKey := "generalizationCoverage"

  function ReadContentStreamId(values: StoredArray, key: string): Result<ContentStreamId, DecodeError> {
    if key !in values then Err(MissingKey(key))
    else match values[key]
      case ContentStreamIdField(v) => Ok(v)
      case _ => Err(MalformedField(key))
  }

  function ReadNodeAggregateId(values: StoredArray, key: string): Result<NodeAggregateId, DecodeError> {
    if key !in values then Err(MissingKey(key))
    else match values[key]
      case NodeAggregateIdField(v) => Ok(v)
      case _ => Err(MalformedField(key))
  }

  function ReadOrigin(values: StoredArray, key: string): Result<OriginDimensionSpacePoint, DecodeError> {
    if key !in values then Err(MissingKey(key))
    else match values[key]
      case OriginField(v) => Ok(v)
      case _ => Err(MalformedField(key))
  }

  /**
   * The siblings: read explicitly when the key exists (even if its value is
   * unreadable), otherwise derived from the legacy coverage points.
   */
  function ReadSiblings(values: StoredArray): Result<InterdimensionalSiblings, DecodeError> {
    if SiblingsKey in values then
      match values[SiblingsKey]
      case SiblingsField(v) => Ok(v)
      case _ => Err(MalformedField(SiblingsKey))
    else if CoverageKey !in values then Err(MissingKey(CoverageKey))
    else match values[CoverageKey]
      case PointSetField(points) => Ok(FromDimensionSpacePointSetWithoutSucceedingSiblings(points))
      case _ => Err(MalformedField(CoverageKey))
  }

  /** `fromArray`: the constructor arguments are read in declaration order; the first failure wins. */
  function FromArray(values: StoredArray): (r: Result<NodeGeneralizationVariantWasCreated, DecodeError>)
    ensures r.Ok? ==> ContentStreamIdKey in values && values[ContentStreamIdKey] == ContentStreamIdField(r.value.contentStreamId)
    ensures r.Ok? ==> NodeAggregateIdKey in values && values[NodeAggregateIdKey] == NodeAggregateIdField(r.value.nodeAggregateId)
    ensures r.Ok? ==> SourceOriginKey in values && values[SourceOriginKey] == OriginField(r.value.sourceOrigin)
    ensures r.Ok? ==> GeneralizationOriginKey in values && values[GeneralizationOriginKey] == OriginField(r.value.generalizationOrigin)
    ensures r.Ok? && SiblingsKey in values ==> values[SiblingsKey] == SiblingsField(r.value.variantSucceedingSiblings)
    ensures r.Ok? && SiblingsKey !in values ==>
      && CoverageKey in values && values[CoverageKey].PointSetField?
      && r.value.variantSucceedingSiblings == FromDimensionSpacePointSetWithoutSucceedingSiblings(values[CoverageKey].pointSet)
    ensures SiblingsKey !in values && CoverageKey !in values ==> r.Err?
  {
    var contentStreamId :- ReadContentStreamId(values, ContentStreamIdKey);
    var nodeAggregateId :- ReadNodeAggregateId(values, NodeAggregateIdKey);
    var sourceOrigin :- ReadOrigin(values, SourceOriginKey);
    var generalizationOrigin :- ReadOrigin(values, GeneralizationOriginKey);
    var siblings :- ReadSiblings(values);
    Ok(NodeGeneralizationVariantWasCreated(contentStreamId, nodeAggregateId, sourceOrigin, generalizationOrigin, siblings))
  }

  /**
   * `jsonSerialize`: all five public fields under their property names; the
   * legacy coverage is not written, and the decoder reads the event back.
   */
  function JsonSerialize(e: NodeGeneralizationVariantWasCreated): (r: StoredArray)
    ensures r.Keys == {ContentStreamIdKey, NodeAggregateIdKey, SourceOriginKey, GeneralizationOriginKey, SiblingsKey}
    ensures CoverageKey !in r
    ensures FromArray(r) == Ok(e)
  {
    map[
      ContentStreamIdKey := ContentStreamIdField(e.contentStreamId),
      NodeAggregateIdKey := NodeAggregateIdField(e.nodeAggregateId),
      SourceOriginKey := OriginField(e.sourceOrigin),
      GeneralizationOriginKey := OriginField(e.generalizationOrigin),
      SiblingsKey := SiblingsField(e.variantSucceedingSiblings)]
  }

  /** What is serialized is read back unchanged, through the explicit-siblings branch. */
  lemma RoundTrip(e: NodeGeneralizationVariantWasCreated)
    ensures SiblingsKey in JsonSerialize(e)
    ensures FromArray(JsonSerialize(e)) == Ok(e)
  {
  }

  /** Conversely, a decoded event serializes back to the five fields it was read from. */
  lemma DecodedEventSerializesToItsSource(values: StoredArray)
    requires FromArray(values).Ok?
    requires SiblingsKey in values
    ensures forall k :: k in JsonSerialize(FromArray(values).value) ==> k in values && JsonSerialize(FromArray(values).value)[k] == values[k]
  {
  }

  /** With explicit siblings the coverage key is never looked at, whatever it holds. */
  lemma ExplicitSiblingsIgnoreCoverage(values: StoredArray, coverage: StoredField)
    requires SiblingsKey in values
    ensures FromArray(values[CoverageKey := coverage]) == FromArray(values)
    ensures FromArray(values - {CoverageKey}) == FromArray(values)
  {
    assert (values[CoverageKey := coverage])[SiblingsKey] == values[SiblingsKey];
    assert (values - {CoverageKey})[SiblingsKey] == values[SiblingsKey];
  }

  /**
   * Without explicit siblings, a readable coverage yields one entry per covered
   * point, each appending at the end.
   */
  lemma LegacyCoverageYieldsSiblingsWithoutSuccessor(values: StoredArray)
    requires FromArray(values).Ok?
    requires SiblingsKey !in values
    ensures CoveredPoints(FromArray(values).value.variantSucceedingSiblings.items) == values[CoverageKey].pointSet.points
    ensures WithoutSucceedingSiblings(FromArray(values).value.variantSucceedingSiblings.items)
  {
    DerivedSiblingsCoverThePointSet(values[CoverageKey].pointSet);
  }

  /** Copying commutes with serialization: only the content stream entry changes. */
  lemma CopySerializesWithOnlyTheStreamChanged(e: NodeGeneralizationVariantWasCreated, target: ContentStreamId)
    ensures JsonSerialize(CreateCopyForContentStream(e, target))
      == JsonSerialize(e)[ContentStreamIdKey := ContentStreamIdField(target)]
  {
  }
}

/**
 * The legacy `NodeGeneralizationVariantWasCreated` event of the earlier
 * event-sourced content repository: it records the generalization coverage as
 * a point set and the initiating user, and has no sibling information.
 */
module LegacyGeneralizationEvent {

  import opened Wrappers
  import opened SharedModel
  import GeneralizationEvent

  datatype NodeGeneralizationVariantWasCreated = NodeGeneralizationVariantWasCreated(
    contentStreamIdentifier: ContentStreamId,
    nodeAggregateIdentifier: NodeAggregateId,
    sourceOrigin: OriginDimensionSpacePoint,
    generalizationOrigin: OriginDimensionSpacePoint,
    generalizationCoverage: DimensionSpacePointSet,
    initiatingUserIdentifier: UserId)

  function GetContentStreamIdentifier(e: NodeGeneralizationVariantWasCreated): ContentStreamId {
    e.contentStreamIdentifier
  }

  function GetNodeAggregateIdentifier(e: NodeGeneralizationVariantWasCreated): NodeAggregateId {
    e.nodeAggregateIdentifier
  }

  function GetSourceOrigin(e: NodeGeneralizationVariantWasCreated): OriginDimensionSpacePoint {
    e.sourceOrigin
  }

  function GetGeneralizationOrigin(e: NodeGeneralizationVariantWasCreated): OriginDimensionSpacePoint {
    e.generalizationOrigin
  }

  function GetGeneralizationCoverage(e: NodeGeneralizationVariantWasCreated): DimensionSpacePointSet {
    e.generalizationCoverage
  }

  function GetInitiatingUserIdentifier(e: NodeGeneralizationVariantWasCreated): UserId {
    e.initiatingUserIdentifier
  }

  /** Each getter hands back the corresponding constructor argument. */
  lemma GettersReturnConstructorArguments(
    cs: ContentStreamId, id: NodeAggregateId, source: OriginDimensionSpacePoint,
    generalization: OriginDimensionSpacePoint, coverage: DimensionSpacePointSet, user: UserId)
    ensures var e := NodeGeneralizationVariantWasCreated(cs, id, source, generalization, coverage, user);
      && GetContentStreamIdentifier(e) == cs
      && GetNodeAggregateIdentifier(e) == id
      && GetSourceOrigin(e) == source
      && GetGeneralizationOrigin(e) == generalization
      && GetGeneralizationCoverage(e) == coverage
      && GetInitiatingUserIdentifier(e) == user
  {
  }

  /** The same event re-addressed to `target`; everything but the content stream is kept. */
  function CreateCopyForContentStream(e: NodeGeneralizationVariantWasCreated, target: ContentStreamId): (r: NodeGeneralizationVariantWasCreated)
    ensures GetContentStreamIdentifier(r) == target
    ensures GetNodeAggregateIdentifier(r) == GetNodeAggregateIdentifier(e)
    ensures GetSourceOrigin(r) == GetSourceOrigin(e)
    ensures GetGeneralizationOrigin(r) == GetGeneralizationOrigin(e)
    ensures GetGeneralizationCoverage(r) == GetGeneralizationCoverage(e)
    ensures GetInitiatingUserIdentifier(r) == GetInitiatingUserIdentifier(e)
  {
    NodeGeneralizationVariantWasCreated(
      target, e.nodeAggregateIdentifier, e.sourceOrigin, e.generalizationOrigin,
      e.generalizationCoverage, e.initiatingUserIdentifier)
  }

  lemma CopyTwiceIsCopyToLast(e: NodeGeneralizationVariantWasCreated, a: ContentStreamId, b: ContentStreamId)
    ensures CreateCopyForContentStream(CreateCopyForContentStream(e, a), b) == CreateCopyForContentStream(e, b)
  {
  }

  lemma CopyToOwnStreamIsIdentity(e: NodeGeneralizationVariantWasCreated)
    ensures CreateCopyForContentStream(e, e.contentStreamIdentifier) == e
  {
  }

  // ---------------------------------------------------------------------------
  // Reading a legacy-shaped event with the current decoder

  /**
   * The array shape of events stored before `variantSucceedingSiblings`
   * existed, under the current key names: the four identifying fields and the
   * coverage, no siblings.
   */
  function CoverageOnlyArray(e: NodeGeneralizationVariantWasCreated): GeneralizationEvent.StoredArray {
    map[
      GeneralizationEvent.ContentStreamIdKey := GeneralizationEvent.ContentStreamIdField(e.contentStreamIdentifier),
      GeneralizationEvent.NodeAggregateIdKey := GeneralizationEvent.NodeAggregateIdField(e.nodeAggregateIdentifier),
      GeneralizationEvent.SourceOriginKey := GeneralizationEvent.OriginField(e.sourceOrigin),
      GeneralizationEvent.GeneralizationOriginKey := GeneralizationEvent.OriginField(e.generalizationOrigin),
      GeneralizationEvent.CoverageKey := GeneralizationEvent.PointSetField(e.generalizationCoverage)]
  }

  /** The current event an old coverage-only record upgrades to. */
  function Upgrade(e: NodeGeneralizationVariantWasCreated): GeneralizationEvent.NodeGeneralizationVariantWasCreated {
    GeneralizationEvent.NodeGeneralizationVariantWasCreated(
      e.contentStreamIdentifier, e.nodeAggregateIdentifier, e.sourceOrigin, e.generalizationOrigin,
      FromDimensionSpacePointSetWithoutSucceedingSiblings(e.generalizationCoverage))
  }

  /**
   * The current decoder reads a coverage-only record stored under the current
   * key names as the upgraded event:
   * the identifying fields are kept and the siblings cover exactly the old
   * coverage, each appending at the end.
   */
  lemma CurrentDecoderUpgradesCoverageOnlyRecords(e: NodeGeneralizationVariantWasCreated)
    ensures GeneralizationEvent.FromArray(CoverageOnlyArray(e)) == Ok(Upgrade(e))
    ensures CoveredPoints(Upgrade(e).variantSucceedingSiblings.items) == e.generalizationCoverage.points
    ensures WithoutSucceedingSiblings(Upgrade(e).variantSucceedingSiblings.items)
  {
    DerivedSiblingsCoverThePointSet(e.generalizationCoverage);
  }

  /** The legacy class's own names for its two identifier fields. */
  const LegacyContentStreamIdKey: string := "contentStreamIdentifier"
  const LegacyNodeAggregateIdKey: string := "nodeAggregateIdentifier"

  /** A coverage-only record keyed by the legacy class's own field names. */
  function LegacyNamedArray(e: NodeGeneralizationVariantWasCreated): GeneralizationEvent.StoredArray {
    map[
      LegacyContentStreamIdKey := GeneralizationEvent.ContentStreamIdField(e.contentStreamIdentifier),
      LegacyNodeAggregateIdKey := GeneralizationEvent.NodeAggregateIdField(e.nodeAggregateIdentifier),
      GeneralizationEvent.SourceOriginKey := GeneralizationEvent.OriginField(e.sourceOrigin),
      GeneralizationEvent.GeneralizationOriginKey := GeneralizationEvent.OriginField(e.generalizationOrigin),
      GeneralizationEvent.CoverageKey := GeneralizationEvent.PointSetField(e.generalizationCoverage)]
  }

  /** The current decoder does not read the legacy field names: such a record lacks `contentStreamId`. */
  lemma LegacyFieldNamesAreNotRead(e: NodeGeneralizationVariantWasCreated)
    ensures GeneralizationEvent.FromArray(LegacyNamedArray(e)) == Err(GeneralizationEvent.MissingKey(GeneralizationEvent.ContentStreamIdKey))
  {
  }

  /** Upgrading commutes with copying to another content stream. */
  lemma UpgradeCommutesWithCopy(e: NodeGeneralizationVariantWasCreated, target: ContentStreamId)
    ensures Upgrade(CreateCopyForContentStream(e, target))
      == GeneralizationEvent.CreateCopyForContentStream(Upgrade(e), target)
  {
  }
}

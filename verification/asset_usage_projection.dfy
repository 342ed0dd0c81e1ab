/**
 * The asset-usage projection: which events it handles, which repository
 * operation each handled event triggers, how `reset` rewinds it, and how asset
 * ids are extracted from serialized property values. The repository itself is
 * abstract: the model records the operations called on it, in order.
 */
module AssetUsageProjection {

  import opened Wrappers
  import opened Text
  import opened SharedModel
  import opened PropertyValues
  import AssetIdScanner
  import GeneralizationEvent

  // ---------------------------------------------------------------------------
  // Asset-id extraction

  /**
   * `InvalidType` is `TypeHandling::parseType` rejecting a type name (the
   * `InvalidTypeException` the handlers catch); `UnsupportedValue` is a value
   * PHP cannot cast to string, iterate or index. This assumes the framework
   * turns PHP warnings into exceptions, which the handlers do not catch.
   */
  datatype ExtractionError = InvalidType | UnsupportedValue

  /** The asset ids found for each property name. */
  type AssetIdsByProperty = map<string, seq<Value>>

  /** PHP's `(string) $value` on a decoded JSON value. */
  function CastToString(v: Value): (r: Result<string, ExtractionError>)
    ensures r.Err? <==> v.Arr? || v.Object?
    ensures v.Str? ==> r == Ok(v.s)
    ensures v.Int? ==> r.Ok? && CanonicalDecimal(r.value) && ParseDecimal(r.value) == Some(v.i)
  {
    match v
    case Str(s) => Ok(s)
    case Int(i) => DecimalRoundTrip(i); Ok(IntToDecimal(i))
    case Float(rendered) => Ok(rendered)
    case Bool(b) => Ok(if b then "1" else "")
    case Null => Ok("")
    case Arr(_) => Err(UnsupportedValue)
    case Object(_) => Err(UnsupportedValue)
  }

  function AsStringValues(ids: seq<string>): (r: seq<Value>)
    ensures |r| == |ids|
    ensures forall k :: 0 <= k < |ids| ==> r[k] == Str(ids[k])
  {
    seq(|ids|, k requires 0 <= k < |ids| => Str(ids[k]))
  }

  const IdentifierKey: ArrayKey := StringKey("__identifier")

  /** `isset($value['__identifier']) ? [$value['__identifier']] : []`. */
  function ResourceIdentifier(v: Value): Result<seq<Value>, ExtractionError> {
    match v
    case Arr(entries) =>
      (match Lookup(entries, IdentifierKey)
       case Some(id) => if id.Null? then Ok([]) else Ok([id])
       case None => Ok([]))
    case Object(_) => Err(UnsupportedValue)
    case _ => Ok([])
  }

  /** A collection's elements are walked only for stringable or resource-based element classes. */
  predicate WalkedElementType(elementType: PropertyType) {
    elementType.StringableClass? || elementType.ResourceBasedClass?
  }

  /** `extractAssetIdentifiers($type, $value)`. */
  function ExtractAssetIdentifiers(t: PropertyType, v: Value): Extraction
    decreases t, 0
  {
    match t
    case StringType =>
      var text :- CastToString(v);
      Ok(AsStringValues(AssetIdScanner.ExtractIds(text)))
    case StringableClass =>
      var text :- CastToString(v);
      Ok(AsStringValues(AssetIdScanner.ExtractIds(text)))
    case ResourceBasedClass => ResourceIdentifier(v)
    case UnparsableType => Err(InvalidType)
    case PlainType => Ok([])
    case CollectionType(elementType) =>
      if !WalkedElementType(elementType) then Ok([])
      else if !v.Arr? then Err(UnsupportedValue)
      else MergeAll(ElementResults(elementType, v.entries))
  }

  /** What one extraction yields: the ids found, or the error raised. */
  type Extraction = Result<seq<Value>, ExtractionError>

  /** The loop over a collection's elements: each element's extraction, in order. */
  function ElementResults(elementType: PropertyType, entries: seq<ArrayEntry>): (r: seq<Extraction>)
    ensures |r| == |entries|
    decreases elementType, 1
  {
    seq(|entries|, k requires 0 <= k < |entries| => ExtractAssetIdentifiers(elementType, entries[k].value))
  }

  /** `array_merge` of two extraction results, the first error winning. */
  function Merge(first: Extraction, rest: Extraction): Extraction {
    if first.Err? then first
    else if rest.Err? then rest
    else Ok(first.value + rest.value)
  }

  /** `array_merge(...$results)`: the ids of all results in order, or the first error. */
  function MergeAll(results: seq<Extraction>): Extraction
    decreases |results|
  {
    if |results| == 0 then Ok([]) else Merge(results[0], MergeAll(results[1..]))
  }

  /** The loop over the properties: each property's extraction, in order. */
  function PropertyResults(properties: SerializedPropertyValues): (r: seq<Extraction>)
    ensures |r| == |properties|
  {
    seq(|properties|, k requires 0 <= k < |properties| =>
      ExtractAssetIdentifiers(properties[k].serialized.propertyType, properties[k].serialized.value))
  }

  /**
   * The map the loop builds from given per-property results: each name to
   * its ids, a later property of the same name overriding; the first error
   * stops it.
   */
  function CollectByName(properties: SerializedPropertyValues, results: seq<Extraction>): Result<AssetIdsByProperty, ExtractionError>
    requires |results| == |properties|
    decreases |properties|
  {
    if |properties| == 0 then Ok(map[])
    else
      var ids :- results[0];
      var rest :- CollectByName(properties[1..], results[1..]);
      Ok(map[properties[0].name := ids] + rest)
  }

  /** `getAssetIdsByProperty`. */
  function GetAssetIdsByProperty(properties: SerializedPropertyValues): Result<AssetIdsByProperty, ExtractionError> {
    CollectByName(properties, PropertyResults(properties))
  }

  lemma {:induction false} CollectSucceedsIffEveryResultDoes(properties: SerializedPropertyValues, results: seq<Extraction>)
    requires |results| == |properties|
    ensures CollectByName(properties, results).Ok? <==> forall k :: 0 <= k < |results| ==> results[k].Ok?
    decreases |properties|
  {
    if |properties| > 0 {
      CollectSucceedsIffEveryResultDoes(properties[1..], results[1..]);
      assert forall k :: 1 <= k < |results| ==> results[k] == results[1..][k - 1];
    }
  }

  lemma {:induction false} CollectFailsWithFirstError(properties: SerializedPropertyValues, results: seq<Extraction>) returns (k: nat)
    requires |results| == |properties|
    requires CollectByName(properties, results).Err?
    ensures k < |results| && results[k] == Err(CollectByName(properties, results).error)
    ensures forall j :: 0 <= j < k ==> results[j].Ok?
    decreases |properties|
  {
    if results[0].Err? {
      k := 0;
    } else {
      var i := CollectFailsWithFirstError(properties[1..], results[1..]);
      k := i + 1;
      assert forall j :: 1 <= j <= k ==> results[j] == results[1..][j - 1];
    }
  }

  lemma {:induction false} CollectHasAnEntryPerName(properties: SerializedPropertyValues, results: seq<Extraction>)
    requires |results| == |properties|
    requires CollectByName(properties, results).Ok?
    ensures CollectByName(properties, results).value.Keys == PropertyNames(properties)
    decreases |properties|
  {
    if |properties| > 0 {
      CollectHasAnEntryPerName(properties[1..], results[1..]);
    }
  }

  lemma {:induction false} CollectLastPropertyWins(properties: SerializedPropertyValues, results: seq<Extraction>, k: int)
    requires |results| == |properties|
    requires CollectByName(properties, results).Ok?
    requires 0 <= k < |properties| && NotOverridden(properties, k)
    ensures results[k].Ok?
    ensures var m := CollectByName(properties, results).value;
      properties[k].name in m && m[properties[k].name] == results[k].value
    decreases |properties|
  {
    var tail := properties[1..];
    if k == 0 {
      CollectHasAnEntryPerName(tail, results[1..]);
      PropertyNamesAreTheNamesCarried(tail, properties[0].name);
      assert forall j :: 0 <= j < |tail| ==> tail[j] == properties[j + 1];
    } else {
      assert properties[k] == tail[k - 1];
      assert NotOverridden(tail, k - 1) by {
        forall j | k - 1 < j < |tail|
          ensures tail[j].name != tail[k - 1].name
        {
          assert tail[j] == properties[j + 1];
        }
      }
      CollectLastPropertyWins(tail, results[1..], k - 1);
      assert results[k] == results[1..][k - 1];
    }
  }

  /**
   * The extraction succeeds exactly when every property's extraction does;
   * otherwise it fails with the error of the first failing property.
   */
  lemma GetAssetIdsFailsOnFirstFailingProperty(properties: SerializedPropertyValues)
    ensures GetAssetIdsByProperty(properties).Ok? <==> forall k :: 0 <= k < |properties| ==> PropertyResults(properties)[k].Ok?
    ensures GetAssetIdsByProperty(properties).Err? ==> exists k :: (
      && 0 <= k < |properties|
      && PropertyResults(properties)[k] == Err(GetAssetIdsByProperty(properties).error)
      && forall j :: 0 <= j < k ==> PropertyResults(properties)[j].Ok?)
  {
    CollectSucceedsIffEveryResultDoes(properties, PropertyResults(properties));
    if GetAssetIdsByProperty(properties).Err? {
      var k := CollectFailsWithFirstError(properties, PropertyResults(properties));
    }
  }

  /** A successful extraction holds exactly one entry per property name. */
  lemma GetAssetIdsHasAnEntryPerName(properties: SerializedPropertyValues)
    requires GetAssetIdsByProperty(properties).Ok?
    ensures GetAssetIdsByProperty(properties).value.Keys == PropertyNames(properties)
  {
    CollectHasAnEntryPerName(properties, PropertyResults(properties));
  }

  /** Each property name maps to the ids of the last property carrying that name. */
  lemma GetAssetIdsLastPropertyWins(properties: SerializedPropertyValues, k: int)
    requires GetAssetIdsByProperty(properties).Ok?
    requires 0 <= k < |properties| && NotOverridden(properties, k)
    ensures ExtractAssetIdentifiers(properties[k].serialized.propertyType, properties[k].serialized.value).Ok?
    ensures var m := GetAssetIdsByProperty(properties).value;
      && properties[k].name in m
      && m[properties[k].name] == ExtractAssetIdentifiers(properties[k].serialized.propertyType, properties[k].serialized.value).value
  {
    CollectLastPropertyWins(properties, PropertyResults(properties), k);
  }

  /**
   * With unique names, as the name-keyed array of serialized property values
   * has, every property's ids are its own entry in the map.
   */
  lemma GetAssetIdsOfUniquelyNamedProperties(properties: SerializedPropertyValues)
    requires GetAssetIdsByProperty(properties).Ok? && UniqueNames(properties)
    ensures forall k :: 0 <= k < |properties| ==>
      && PropertyResults(properties)[k].Ok?
      && properties[k].name in GetAssetIdsByProperty(properties).value
      && GetAssetIdsByProperty(properties).value[properties[k].name] == PropertyResults(properties)[k].value
  {
    forall k | 0 <= k < |properties|
      ensures PropertyResults(properties)[k].Ok?
      ensures properties[k].name in GetAssetIdsByProperty(properties).value
      ensures GetAssetIdsByProperty(properties).value[properties[k].name] == PropertyResults(properties)[k].value
    {
      assert NotOverridden(properties, k);
      CollectLastPropertyWins(properties, PropertyResults(properties), k);
    }
  }

  /** No later property carries the same name as property `k`. */
  predicate NotOverridden(properties: SerializedPropertyValues, k: int)
    requires 0 <= k < |properties|
  {
    forall j :: k < j < |properties| ==> properties[j].name != properties[k].name
  }

  // ---------------------------------------------------------------------------
  // Properties of the extraction

  /**
   * A string-typed value yields, in order, the id captured after each
   * case-insensitive `asset://`; every id is made of `[A-Za-z0-9_-]` and there
   * are at most as many ids as occurrences of the scheme.
   */
  lemma StringValuesYieldScannedIds(t: PropertyType, s: string)
    requires t.StringType? || t.StringableClass?
    ensures ExtractAssetIdentifiers(t, Str(s)).Ok?
    ensures var ids := ExtractAssetIdentifiers(t, Str(s)).value;
      && |ids| == |AssetIdScanner.ExtractIds(s)|
      && |ids| <= AssetIdScanner.SchemeCount(s, 0)
      && forall k :: 0 <= k < |ids| ==>
           ids[k] == Str(AssetIdScanner.ExtractIds(s)[k]) && AssetIdScanner.IsId(ids[k].s)
  {
    AssetIdScanner.ExtractIdsBounds(s);
  }

  /** A resource-based value yields its `__identifier` when set (present and not null), else nothing. */
  lemma ResourceValuesYieldTheirIdentifier(entries: seq<ArrayEntry>)
    ensures var r := ExtractAssetIdentifiers(ResourceBasedClass, Arr(entries));
      && r.Ok?
      && ((Lookup(entries, IdentifierKey).Some? && !Lookup(entries, IdentifierKey).value.Null?) ==>
            r.value == [Lookup(entries, IdentifierKey).value])
      && ((Lookup(entries, IdentifierKey).None? || Lookup(entries, IdentifierKey).value.Null?) ==>
            r.value == [])
  {
  }

  /** Types that are neither strings, resources nor collections of those yield nothing; unparsable types fail. */
  lemma OtherTypesYieldNothing(t: PropertyType, v: Value)
    requires t.PlainType? || (t.CollectionType? && !WalkedElementType(t.elementType))
    ensures ExtractAssetIdentifiers(t, v) == Ok([])
    ensures ExtractAssetIdentifiers(UnparsableType, v) == Err(InvalidType)
  {
  }

  lemma MergeIsAssociative(x: Extraction, y: Extraction, z: Extraction)
    ensures Merge(x, Merge(y, z)) == Merge(Merge(x, y), z)
  {
    if x.Ok? && y.Ok? && z.Ok? {
      assert x.value + (y.value + z.value) == (x.value + y.value) + z.value;
    }
  }

  /** Merging distributes over concatenation: the ids of `a + b` are those of `a` followed by those of `b`. */
  lemma {:induction false} MergeAllAppend(a: seq<Extraction>, b: seq<Extraction>)
    ensures MergeAll(a + b) == Merge(MergeAll(a), MergeAll(b))
    decreases |a|
  {
    if |a| == 0 {
      assert a + b == b;
      if MergeAll(b).Ok? {
        assert [] + MergeAll(b).value == MergeAll(b).value;
      }
    } else {
      assert (a + b)[0] == a[0];
      assert (a + b)[1..] == a[1..] + b;
      MergeAllAppend(a[1..], b);
      MergeIsAssociative(a[0], MergeAll(a[1..]), MergeAll(b));
    }
  }

  /** Merging succeeds exactly when every result is a success. */
  lemma {:induction false} MergeAllSucceedsIffEveryResultDoes(results: seq<Extraction>)
    ensures MergeAll(results).Ok? <==> forall k :: 0 <= k < |results| ==> results[k].Ok?
    decreases |results|
  {
    if |results| > 0 {
      MergeAllSucceedsIffEveryResultDoes(results[1..]);
      assert forall k :: 1 <= k < |results| ==> results[k] == results[1..][k - 1];
    }
  }

  /** A failed merge carries the error of the first failing result. */
  lemma {:induction false} MergeAllFailsWithFirstError(results: seq<Extraction>) returns (k: nat)
    requires MergeAll(results).Err?
    ensures k < |results| && results[k] == MergeAll(results)
    ensures forall j :: 0 <= j < k ==> results[j].Ok?
    decreases |results|
  {
    if results[0].Err? {
      k := 0;
    } else {
      var i := MergeAllFailsWithFirstError(results[1..]);
      k := i + 1;
      assert forall j :: 1 <= j <= k ==> results[j] == results[1..][j - 1];
    }
  }

  /** A collection of stringable or resource-based elements that is not an array cannot be walked. */
  lemma CollectionsMustBeArrays(elementType: PropertyType, v: Value)
    requires WalkedElementType(elementType) && !v.Arr?
    ensures ExtractAssetIdentifiers(CollectionType(elementType), v) == Err(UnsupportedValue)
  {
  }

  /** The walk over a collection succeeds exactly when every element's extraction does. */
  lemma {:induction false} CollectionsSucceedIffEveryElementDoes(elementType: PropertyType, entries: seq<ArrayEntry>)
    requires WalkedElementType(elementType)
    ensures ExtractAssetIdentifiers(CollectionType(elementType), Arr(entries)).Ok?
      <==> forall k :: 0 <= k < |entries| ==> ElementResults(elementType, entries)[k].Ok?
  {
    MergeAllSucceedsIffEveryResultDoes(ElementResults(elementType, entries));
  }

  /** A failed walk carries the error of the first failing element. */
  lemma {:induction false} CollectionsFailWithFirstElementError(elementType: PropertyType, entries: seq<ArrayEntry>) returns (k: nat)
    requires WalkedElementType(elementType)
    requires ExtractAssetIdentifiers(CollectionType(elementType), Arr(entries)).Err?
    ensures k < |entries|
    ensures ExtractAssetIdentifiers(elementType, entries[k].value) == ExtractAssetIdentifiers(CollectionType(elementType), Arr(entries))
    ensures forall j :: 0 <= j < k ==> ElementResults(elementType, entries)[j].Ok?
  {
    k := MergeAllFailsWithFirstError(ElementResults(elementType, entries));
  }

  lemma ElementResultsAppend(elementType: PropertyType, a: seq<ArrayEntry>, b: seq<ArrayEntry>)
    ensures ElementResults(elementType, a + b) == ElementResults(elementType, a) + ElementResults(elementType, b)
  {
    var whole := ElementResults(elementType, a + b);
    var parts := ElementResults(elementType, a) + ElementResults(elementType, b);
    forall k | 0 <= k < |whole|
      ensures whole[k] == parts[k]
    {
      if k < |a| {
        assert (a + b)[k] == a[k];
      } else {
        assert (a + b)[k] == b[k - |a|];
      }
    }
  }

  lemma MergeAllSingleton(r: Extraction)
    ensures MergeAll([r]) == r
  {
    assert [r][1..] == [];
    if r.Ok? {
      assert r.value + [] == r.value;
    }
  }

  /** Walking a collection distributes over concatenation of its elements. */
  lemma CollectionAppend(elementType: PropertyType, a: seq<ArrayEntry>, b: seq<ArrayEntry>)
    requires WalkedElementType(elementType)
    ensures ExtractAssetIdentifiers(CollectionType(elementType), Arr(a + b))
      == Merge(ExtractAssetIdentifiers(CollectionType(elementType), Arr(a)), ExtractAssetIdentifiers(CollectionType(elementType), Arr(b)))
  {
    ElementResultsAppend(elementType, a, b);
    MergeAllAppend(ElementResults(elementType, a), ElementResults(elementType, b));
  }

  /** A collection of one element yields that element's ids. */
  lemma SingleElementCollection(elementType: PropertyType, entry: ArrayEntry)
    requires WalkedElementType(elementType)
    ensures ExtractAssetIdentifiers(CollectionType(elementType), Arr([entry]))
      == ExtractAssetIdentifiers(elementType, entry.value)
  {
    var r := ExtractAssetIdentifiers(elementType, entry.value);
    assert ElementResults(elementType, [entry]) == [r];
    MergeAllSingleton(r);
  }

  // ---------------------------------------------------------------------------
  // Events

  const NodeAggregateWithNodeWasCreatedClass := "Neos\\ContentRepository\\Core\\Feature\\NodeCreation\\Event\\NodeAggregateWithNodeWasCreated"
  const NodePropertiesWereSetClass := "Neos\\ContentRepository\\Core\\Feature\\NodeModification\\Event\\NodePropertiesWereSet"
  const NodeAggregateWasRemovedClass := "Neos\\ContentRepository\\Core\\Feature\\NodeRemoval\\Event\\NodeAggregateWasRemoved"
  const NodePeerVariantWasCreatedClass := "Neos\\ContentRepository\\Core\\Feature\\NodeVariation\\Event\\NodePeerVariantWasCreated"
  const ContentStreamWasForkedClass := "Neos\\ContentRepository\\Core\\Feature\\ContentStreamForking\\Event\\ContentStreamWasForked"
  const WorkspaceWasDiscardedClass := "Neos\\ContentRepository\\Core\\Feature\\WorkspacePublication\\Event\\WorkspaceWasDiscarded"
  const WorkspaceWasPartiallyDiscardedClass := "Neos\\ContentRepository\\Core\\Feature\\WorkspacePublication\\Event\\WorkspaceWasPartiallyDiscarded"
  const WorkspaceWasPartiallyPublishedClass := "Neos\\ContentRepository\\Core\\Feature\\WorkspacePublication\\Event\\WorkspaceWasPartiallyPublished"
  const WorkspaceWasPublishedClass := "Neos\\ContentRepository\\Core\\Feature\\WorkspacePublication\\Event\\WorkspaceWasPublished"
  const WorkspaceWasRebasedClass := "Neos\\ContentRepository\\Core\\Feature\\WorkspaceRebase\\Event\\WorkspaceWasRebased"
  const ContentStreamWasRemovedClass := "Neos\\ContentRepository\\Core\\Feature\\ContentStreamRemoval\\Event\\ContentStreamWasRemoved"
  const NodeGeneralizationVariantWasCreatedClass := "Neos\\ContentRepository\\Core\\Feature\\NodeVariation\\Event\\NodeGeneralizationVariantWasCreated"

  /** The class names `canHandle` accepts. */
  const HandledEventClassNames: seq<string> := [
    NodeAggregateWithNodeWasCreatedClass,
    NodePropertiesWereSetClass,
    NodeAggregateWasRemovedClass,
    NodePeerVariantWasCreatedClass,
    ContentStreamWasForkedClass,
    WorkspaceWasDiscardedClass,
    WorkspaceWasPartiallyDiscardedClass,
    WorkspaceWasPartiallyPublishedClass,
    WorkspaceWasPublishedClass,
    WorkspaceWasRebasedClass,
    ContentStreamWasRemovedClass]

  /** The class name of any other event kind of the content repository. */
  type UnlistedClassName = name: string
    | name !in HandledEventClassNames && name != NodeGeneralizationVariantWasCreatedClass
    witness ""

  /** An event after denormalization, with the fields the projection reads. */
  datatype DomainEvent =
    | NodeAggregateWithNodeWasCreated(
        contentStreamId: ContentStreamId, nodeAggregateId: NodeAggregateId,
        originDimensionSpacePoint: OriginDimensionSpacePoint, initialPropertyValues: SerializedPropertyValues)
    | NodePropertiesWereSet(
        contentStreamId: ContentStreamId, nodeAggregateId: NodeAggregateId,
        originDimensionSpacePoint: OriginDimensionSpacePoint, propertyValues: SerializedPropertyValues)
    | NodeAggregateWasRemoved(
        contentStreamId: ContentStreamId, nodeAggregateId: NodeAggregateId,
        affectedOccupiedDimensionSpacePoints: OriginDimensionSpacePointSet)
    | NodePeerVariantWasCreated(
        contentStreamId: ContentStreamId, nodeAggregateId: NodeAggregateId,
        sourceOrigin: OriginDimensionSpacePoint, peerOrigin: OriginDimensionSpacePoint)
    | ContentStreamWasForked(newContentStreamId: ContentStreamId, sourceContentStreamId: ContentStreamId)
    | WorkspaceWasDiscarded(
        workspaceName: WorkspaceName, newContentStreamId: ContentStreamId, previousContentStreamId: ContentStreamId)
    | WorkspaceWasPartiallyDiscarded(
        workspaceName: WorkspaceName, newContentStreamId: ContentStreamId, previousContentStreamId: ContentStreamId)
    | WorkspaceWasPartiallyPublished(
        sourceWorkspaceName: WorkspaceName, targetWorkspaceName: WorkspaceName,
        newSourceContentStreamId: ContentStreamId, previousSourceContentStreamId: ContentStreamId)
    | WorkspaceWasPublished(
        sourceWorkspaceName: WorkspaceName, targetWorkspaceName: WorkspaceName,
        newSourceContentStreamId: ContentStreamId, previousSourceContentStreamId: ContentStreamId)
    | WorkspaceWasRebased(
        workspaceName: WorkspaceName, newContentStreamId: ContentStreamId, previousContentStreamId: ContentStreamId)
    | ContentStreamWasRemoved(contentStreamId: ContentStreamId)
    | NodeGeneralizationVariantWasCreated(generalization: GeneralizationEvent.NodeGeneralizationVariantWasCreated)
    | OtherEvent(className: UnlistedClassName)

  function EventClassName(e: DomainEvent): string {
    match e
    case NodeAggregateWithNodeWasCreated(_, _, _, _) => NodeAggregateWithNodeWasCreatedClass
    case NodePropertiesWereSet(_, _, _, _) => NodePropertiesWereSetClass
    case NodeAggregateWasRemoved(_, _, _) => NodeAggregateWasRemovedClass
    case NodePeerVariantWasCreated(_, _, _, _) => NodePeerVariantWasCreatedClass
    case ContentStreamWasForked(_, _) => ContentStreamWasForkedClass
    case WorkspaceWasDiscarded(_, _, _) => WorkspaceWasDiscardedClass
    case WorkspaceWasPartiallyDiscarded(_, _, _) => WorkspaceWasPartiallyDiscardedClass
    case WorkspaceWasPartiallyPublished(_, _, _, _) => WorkspaceWasPartiallyPublishedClass
    case WorkspaceWasPublished(_, _, _, _) => WorkspaceWasPublishedClass
    case WorkspaceWasRebased(_, _, _) => WorkspaceWasRebasedClass
    case ContentStreamWasRemoved(_) => ContentStreamWasRemovedClass
    case NodeGeneralizationVariantWasCreated(_) => NodeGeneralizationVariantWasCreatedClass
    case OtherEvent(name) => name
  }

  /** `canHandle`: the event's class is one of the listed ones. */
  predicate CanHandle(e: DomainEvent): (r: bool)
    ensures r <==> IsHandledKind(e)
  {
    EventClassName(e) in HandledEventClassNames
  }

  /** The eleven event kinds the projection reacts to. */
  predicate IsHandledKind(e: DomainEvent) {
    || e.NodeAggregateWithNodeWasCreated?
    || e.NodePropertiesWereSet?
    || e.NodeAggregateWasRemoved?
    || e.NodePeerVariantWasCreated?
    || e.ContentStreamWasForked?
    || e.WorkspaceWasDiscarded?
    || e.WorkspaceWasPartiallyDiscarded?
    || e.WorkspaceWasPartiallyPublished?
    || e.WorkspaceWasPublished?
    || e.WorkspaceWasRebased?
    || e.ContentStreamWasRemoved?
  }

  // ---------------------------------------------------------------------------
  // The repository as a log of calls, and the handlers

  datatype NodeAddress = NodeAddress(
    contentStreamId: ContentStreamId,
    dimensionSpacePoint: DimensionSpacePoint,
    nodeAggregateId: NodeAggregateId,
    workspaceName: WorkspaceName)

  const LiveWorkspace := WorkspaceName("live")

  /** One call on the asset-usage repository. */
  datatype RepositoryOperation =
    | AddUsagesForNode(address: NodeAddress, assetIds: AssetIdsByProperty)
    | RemoveNode(nodeAggregateId: NodeAggregateId, dimensionSpacePoints: DimensionSpacePointSet)
    | CopyDimensions(sourceOrigin: OriginDimensionSpacePoint, targetOrigin: OriginDimensionSpacePoint)
    | CopyContentStream(sourceContentStreamId: ContentStreamId, targetContentStreamId: ContentStreamId)
    | RemoveContentStream(contentStreamId: ContentStreamId)
    | ResetRepository

  /** The code of the `RuntimeException` that wraps a failed extraction. */
  const ExtractionFailedCode := 1646321894

  /**
   * `AssetExtractionFailed` is the `RuntimeException` (with the event's node
   * aggregate id in its message); `UnsupportedPropertyValue` is an uncaught
   * error from a value PHP cannot handle.
   */
  datatype ProjectionError =
    | AssetExtractionFailed(code: int, nodeAggregateId: NodeAggregateId)
    | UnsupportedPropertyValue

  /**
   * The common body of the creation and property-set handlers: extract the
   * ids, then record them under the node's address in the live workspace.
   */
  function RecordUsages(
    contentStreamId: ContentStreamId, nodeAggregateId: NodeAggregateId,
    origin: OriginDimensionSpacePoint, properties: SerializedPropertyValues): (r: Result<RepositoryOperation, ProjectionError>)
    ensures r.Ok? <==> GetAssetIdsByProperty(properties).Ok?
    ensures r.Ok? ==> (
      && r.value.AddUsagesForNode?
      && r.value.address == NodeAddress(contentStreamId, origin.ToDimensionSpacePoint(), nodeAggregateId, WorkspaceName("live"))
      && r.value.assetIds.Keys == PropertyNames(properties))
    ensures r.Err? ==> (r.error == AssetExtractionFailed(1646321894, nodeAggregateId)
      <==> GetAssetIdsByProperty(properties) == Err(InvalidType))
    ensures r.Err? ==> (r.error == UnsupportedPropertyValue <==> GetAssetIdsByProperty(properties) == Err(UnsupportedValue))
  {
    match GetAssetIdsByProperty(properties)
    case Err(InvalidType) => Err(AssetExtractionFailed(ExtractionFailedCode, nodeAggregateId))
    case Err(UnsupportedValue) => Err(UnsupportedPropertyValue)
    case Ok(assetIds) =>
      GetAssetIdsHasAnEntryPerName(properties);
      Ok(AddUsagesForNode(NodeAddress(contentStreamId, origin.ToDimensionSpacePoint(), nodeAggregateId, LiveWorkspace), assetIds))
  }

  /** The single repository call of a handler, or its error. */
  function Single(r: Result<RepositoryOperation, ProjectionError>): Result<seq<RepositoryOperation>, ProjectionError> {
    match r
    case Ok(op) => Ok([op])
    case Err(e) => Err(e)
  }

  /** `apply`: events `canHandle` rejects are ignored; each handled kind calls exactly one handler. */
  function Apply(e: DomainEvent): (r: Result<seq<RepositoryOperation>, ProjectionError>)
    ensures !IsHandledKind(e) ==> r == Ok([])
    ensures IsHandledKind(e) && r.Ok? ==> |r.value| == 1
    ensures r.Ok? ==> NoReset(r.value)
    ensures r.Err? ==> e.NodeAggregateWithNodeWasCreated? || e.NodePropertiesWereSet?
  {
    if !CanHandle(e) then Ok([])
    else match e
      case NodeAggregateWithNodeWasCreated(cs, id, origin, properties) => Single(RecordUsages(cs, id, origin, properties))
      case NodePropertiesWereSet(cs, id, origin, properties) => Single(RecordUsages(cs, id, origin, properties))
      case NodeAggregateWasRemoved(_, id, affected) => Ok([RemoveNode(id, affected.ToDimensionSpacePointSet())])
      case NodePeerVariantWasCreated(_, _, source, peer) => Ok([CopyDimensions(source, peer)])
      case ContentStreamWasForked(newId, sourceId) => Ok([CopyContentStream(sourceId, newId)])
      case WorkspaceWasDiscarded(_, _, previous) => Ok([RemoveContentStream(previous)])
      case WorkspaceWasPartiallyDiscarded(_, _, previous) => Ok([RemoveContentStream(previous)])
      case WorkspaceWasPartiallyPublished(_, _, _, previousSource) => Ok([RemoveContentStream(previousSource)])
      case WorkspaceWasPublished(_, _, _, previousSource) => Ok([RemoveContentStream(previousSource)])
      case WorkspaceWasRebased(_, _, previous) => Ok([RemoveContentStream(previous)])
      case ContentStreamWasRemoved(id) => Ok([RemoveContentStream(id)])
      case NodeGeneralizationVariantWasCreated(_) => assert false; Ok([])
      case OtherEvent(_) => assert false; Ok([])
  }

  /**
   * Stream routing: discard, partial discard and rebase remove the previous
   * content stream, (partial) publication removes the previous source stream,
   * removal removes the named stream, and a fork copies source to new.
   */
  lemma ContentStreamRouting(e: DomainEvent)
    ensures e.WorkspaceWasDiscarded? || e.WorkspaceWasPartiallyDiscarded? || e.WorkspaceWasRebased? ==>
      Apply(e) == Ok([RemoveContentStream(e.previousContentStreamId)])
    ensures e.WorkspaceWasPublished? || e.WorkspaceWasPartiallyPublished? ==>
      Apply(e) == Ok([RemoveContentStream(e.previousSourceContentStreamId)])
    ensures e.ContentStreamWasRemoved? ==> Apply(e) == Ok([RemoveContentStream(e.contentStreamId)])
    ensures e.ContentStreamWasForked? ==> Apply(e) == Ok([CopyContentStream(e.sourceContentStreamId, e.newContentStreamId)])
  {
  }

  /** Node removal and peer variants are passed on to the repository unchanged. */
  lemma NodeRouting(e: DomainEvent)
    ensures e.NodeAggregateWasRemoved? ==>
      Apply(e) == Ok([RemoveNode(e.nodeAggregateId, e.affectedOccupiedDimensionSpacePoints.ToDimensionSpacePointSet())])
    ensures e.NodePeerVariantWasCreated? ==> Apply(e) == Ok([CopyDimensions(e.sourceOrigin, e.peerOrigin)])
  {
  }

  /**
   * Creation and property-set events record the usages of all their
   * properties under (stream, origin point, aggregate, live); a failed
   * extraction records nothing.
   */
  lemma UsageRecording(e: DomainEvent)
    requires e.NodeAggregateWithNodeWasCreated? || e.NodePropertiesWereSet?
    ensures var properties := if e.NodeAggregateWithNodeWasCreated? then e.initialPropertyValues else e.propertyValues;
      && (Apply(e).Ok? <==> GetAssetIdsByProperty(properties).Ok?)
      && (Apply(e).Ok? ==> Apply(e).value == [AddUsagesForNode(
            NodeAddress(e.contentStreamId, e.originDimensionSpacePoint.ToDimensionSpacePoint(), e.nodeAggregateId, LiveWorkspace),
            GetAssetIdsByProperty(properties).value)])
      && (GetAssetIdsByProperty(properties) == Err(InvalidType) ==>
            Apply(e) == Err(AssetExtractionFailed(ExtractionFailedCode, e.nodeAggregateId)))
  {
  }

  // ---------------------------------------------------------------------------
  // Projection state: the repository log and the checkpoint

  /** A position in the event log; the first event is numbered 1. */
  type SequenceNumber = n: nat | n >= 1 witness 1

  /** The checkpoint; `NoneApplied` is `SequenceNumber::none()`. */
  datatype Checkpoint = NoneApplied | AppliedUpTo(sequenceNumber: SequenceNumber)

  datatype ProjectionState = ProjectionState(repositoryLog: seq<RepositoryOperation>, checkpoint: Checkpoint)

  /** `reset`: reset the repository, then store `SequenceNumber::none()` as checkpoint. */
  function Reset(state: ProjectionState): (r: ProjectionState)
    ensures r.checkpoint == NoneApplied
    ensures CurrentOperations(r.repositoryLog) == []
    ensures |r.repositoryLog| > |state.repositoryLog| && r.repositoryLog[..|state.repositoryLog|] == state.repositoryLog
  {
    ProjectionState(state.repositoryLog + [ResetRepository], NoneApplied)
  }

  /** The outcome of one `apply` call: the repository calls it made, or the error it raised. */
  type Outcome = Result<seq<RepositoryOperation>, ProjectionError>

  /** `apply` on the projection state: the handler's calls reach the repository; the checkpoint is not touched. */
  function ApplyToState(state: ProjectionState, e: DomainEvent): (r: Result<ProjectionState, ProjectionError>)
    ensures !IsHandledKind(e) ==> r == Ok(state)
    ensures r.Ok? <==> Apply(e).Ok?
    ensures r.Err? ==> r.error == Apply(e).error
    ensures r.Ok? ==> (
      && r.value.checkpoint == state.checkpoint
      && CurrentOperations(r.value.repositoryLog) == CurrentOperations(state.repositoryLog) + Apply(e).value)
  {
    var operations :- Apply(e);
    CurrentOperationsAppend(state.repositoryLog, operations);
    assert !IsHandledKind(e) ==> state.repositoryLog + operations == state.repositoryLog;
    Ok(state.(repositoryLog := state.repositoryLog + operations))
  }

  /** The calls since the last repository reset: what the repository's content is built from. */
  function CurrentOperations(log: seq<RepositoryOperation>): seq<RepositoryOperation>
    decreases |log|
  {
    if |log| == 0 then []
    else if log[|log| - 1].ResetRepository? then []
    else CurrentOperations(log[..|log| - 1]) + [log[|log| - 1]]
  }

  predicate NoReset(operations: seq<RepositoryOperation>) {
    forall k :: 0 <= k < |operations| ==> !operations[k].ResetRepository?
  }

  lemma {:induction false} CurrentOperationsAppend(log: seq<RepositoryOperation>, operations: seq<RepositoryOperation>)
    requires NoReset(operations)
    ensures CurrentOperations(log + operations) == CurrentOperations(log) + operations
    decreases |operations|
  {
    if |operations| == 0 {
      assert log + operations == log;
    } else {
      var init := operations[..|operations| - 1];
      CurrentOperationsAppend(log, init);
      assert (log + operations)[..|log + operations| - 1] == log + init;
      assert init + [operations[|operations| - 1]] == operations;
    }
  }

  // ---------------------------------------------------------------------------
  // Catch-up: apply each event of the stream after the checkpoint, storing its
  // sequence number once it is applied (a batch size of one)

  /** An event of the stream with its position in the log. */
  datatype EventEnvelope = EventEnvelope(sequenceNumber: SequenceNumber, event: DomainEvent)

  /** One envelope's `apply` outcome, computed up front. */
  datatype Step = Step(sequenceNumber: SequenceNumber, outcome: Outcome)

  /** Where a catch-up run left the projection, and the error that stopped it, if any. */
  datatype CatchUpResult = CatchUpResult(state: ProjectionState, failure: Option<ProjectionError>)

  /** The checkpoint as a log position; none is position 0, before every event. */
  function Position(checkpoint: Checkpoint): nat {
    if checkpoint.NoneApplied? then 0 else checkpoint.sequenceNumber
  }

  /** The envelopes' sequence numbers increase strictly, as positions in a log do. */
  predicate InLogOrder(envelopes: seq<EventEnvelope>) {
    forall j, k :: 0 <= j < k < |envelopes| ==> envelopes[j].sequenceNumber < envelopes[k].sequenceNumber
  }

  predicate StepsInLogOrder(steps: seq<Step>) {
    forall j, k :: 0 <= j < k < |steps| ==> steps[j].sequenceNumber < steps[k].sequenceNumber
  }

  /** The outcome of applying each envelope's event. */
  function Steps(envelopes: seq<EventEnvelope>): (r: seq<Step>)
    ensures |r| == |envelopes|
    ensures forall k :: 0 <= k < |envelopes| ==>
      r[k].sequenceNumber == envelopes[k].sequenceNumber && r[k].outcome == Apply(envelopes[k].event)
  {
    seq(|envelopes|, k requires 0 <= k < |envelopes| => Step(envelopes[k].sequenceNumber, Apply(envelopes[k].event)))
  }

  /** Commit one applied event: its calls reach the repository and its sequence number becomes the checkpoint. */
  function Commit(state: ProjectionState, step: Step): (r: Result<ProjectionState, ProjectionError>)
    ensures r.Ok? <==> step.outcome.Ok?
    ensures r.Err? ==> r.error == step.outcome.error
    ensures r.Ok? ==> (
      && r.value.checkpoint == AppliedUpTo(step.sequenceNumber)
      && |r.value.repositoryLog| == |state.repositoryLog| + |step.outcome.value|
      && r.value.repositoryLog[..|state.repositoryLog|] == state.repositoryLog
      && r.value.repositoryLog[|state.repositoryLog|..] == step.outcome.value)
  {
    var operations :- step.outcome;
    Ok(ProjectionState(state.repositoryLog + operations, AppliedUpTo(step.sequenceNumber)))
  }

  /**
   * The catch-up loop over precomputed steps: a step at or before the checkpoint
   * is skipped; the first error stops the run, keeping what was committed before it.
   */
  function RunSteps(state: ProjectionState, steps: seq<Step>): CatchUpResult
    decreases |steps|
  {
    if |steps| == 0 then CatchUpResult(state, None)
    else if steps[0].sequenceNumber <= Position(state.checkpoint) then RunSteps(state, steps[1..])
    else match Commit(state, steps[0])
      case Err(e) => CatchUpResult(state, Some(e))
      case Ok(next) => RunSteps(next, steps[1..])
  }

  /** `catchUp`: run the stream's envelopes through `apply`, advancing the checkpoint after each one. */
  function CatchUp(state: ProjectionState, envelopes: seq<EventEnvelope>): CatchUpResult {
    RunSteps(state, Steps(envelopes))
  }

  /** The calls of all successful steps, in order. */
  function Calls(steps: seq<Step>): seq<RepositoryOperation>
    decreases |steps|
  {
    if |steps| == 0 then []
    else (if steps[0].outcome.Ok? then steps[0].outcome.value else []) + Calls(steps[1..])
  }

  predicate HoldNoReset(steps: seq<Step>) {
    forall k :: 0 <= k < |steps| && steps[k].outcome.Ok? ==> NoReset(steps[k].outcome.value)
  }

  /**
   * A run that completes leaves the checkpoint at the highest of the old
   * checkpoint and the steps' sequence numbers.
   */
  lemma {:induction false} CompletedRunReachesHighestNumber(state: ProjectionState, steps: seq<Step>)
    requires RunSteps(state, steps).failure.None?
    ensures var c := RunSteps(state, steps).state.checkpoint;
      && Position(state.checkpoint) <= Position(c)
      && (forall k :: 0 <= k < |steps| ==> steps[k].sequenceNumber <= Position(c))
      && (c == state.checkpoint || exists k :: 0 <= k < |steps| && c == AppliedUpTo(steps[k].sequenceNumber))
    decreases |steps|
  {
    if |steps| > 0 {
      var next := if steps[0].sequenceNumber <= Position(state.checkpoint) then state else Commit(state, steps[0]).value;
      CompletedRunReachesHighestNumber(next, steps[1..]);
      var c := RunSteps(state, steps).state.checkpoint;
      assert RunSteps(state, steps) == RunSteps(next, steps[1..]);
      forall k | 0 <= k < |steps|
        ensures steps[k].sequenceNumber <= Position(c)
      {
        if k > 0 {
          assert steps[k] == steps[1..][k - 1];
        }
      }
      if c != state.checkpoint {
        if c == next.checkpoint {
          assert c == AppliedUpTo(steps[0].sequenceNumber);
        } else {
          var k :| 0 <= k < |steps[1..]| && c == AppliedUpTo(steps[1..][k].sequenceNumber);
          assert c == AppliedUpTo(steps[k + 1].sequenceNumber);
        }
      }
    }
  }

  /**
   * A run that fails stops at the first failing step after the checkpoint: it
   * reports that step's error, keeps exactly what the steps before it committed,
   * and leaves the checkpoint before the failing step.
   */
  lemma {:induction false} FailedRunStopsAtFailingStep(state: ProjectionState, steps: seq<Step>) returns (f: nat)
    requires RunSteps(state, steps).failure.Some?
    ensures f < |steps| && steps[f].outcome.Err?
    ensures RunSteps(state, steps).failure == Some(steps[f].outcome.error)
    ensures RunSteps(state, steps[..f]) == CatchUpResult(RunSteps(state, steps).state, None)
    ensures Position(RunSteps(state, steps).state.checkpoint) < steps[f].sequenceNumber
    decreases |steps|
  {
    var skip := steps[0].sequenceNumber <= Position(state.checkpoint);
    if !skip && Commit(state, steps[0]).Err? {
      f := 0;
    } else {
      var next := if skip then state else Commit(state, steps[0]).value;
      assert RunSteps(state, steps) == RunSteps(next, steps[1..]);
      var g := FailedRunStopsAtFailingStep(next, steps[1..]);
      f := g + 1;
      assert steps[..f][1..] == steps[1..][..g];
    }
  }

  /** Steps at or before the checkpoint are skipped without any effect. */
  lemma {:induction false} SkipsAppliedSteps(state: ProjectionState, applied: seq<Step>, rest: seq<Step>)
    requires forall k :: 0 <= k < |applied| ==> applied[k].sequenceNumber <= Position(state.checkpoint)
    ensures RunSteps(state, applied + rest) == RunSteps(state, rest)
    decreases |applied|
  {
    if |applied| == 0 {
      assert applied + rest == rest;
    } else {
      assert (applied + rest)[0] == applied[0];
      assert (applied + rest)[1..] == applied[1..] + rest;
      SkipsAppliedSteps(state, applied[1..], rest);
    }
  }

  /** Running the catch-up again after it completed applies nothing and changes nothing. */
  lemma CompletedRunIsResumable(state: ProjectionState, steps: seq<Step>)
    requires RunSteps(state, steps).failure.None?
    ensures var done := RunSteps(state, steps).state;
      RunSteps(done, steps) == CatchUpResult(done, None)
  {
    CompletedRunReachesHighestNumber(state, steps);
    SkipsAppliedSteps(RunSteps(state, steps).state, steps, []);
    assert steps + [] == steps;
  }

  /** Running the catch-up again after a failure resumes at the failing step. */
  lemma RetryResumesAtFailingStep(state: ProjectionState, steps: seq<Step>) returns (f: nat)
    requires RunSteps(state, steps).failure.Some?
    ensures f < |steps| && steps[f].outcome.Err? && RunSteps(state, steps).failure == Some(steps[f].outcome.error)
    ensures var stopped := RunSteps(state, steps).state;
      RunSteps(stopped, steps) == RunSteps(stopped, steps[f..])
  {
    f := FailedRunStopsAtFailingStep(state, steps);
    CompletedRunReachesHighestNumber(state, steps[..f]);
    var stopped := RunSteps(state, steps).state;
    assert forall k :: 0 <= k < |steps[..f]| ==> steps[..f][k].sequenceNumber <= Position(stopped.checkpoint);
    SkipsAppliedSteps(stopped, steps[..f], steps[f..]);
    assert steps[..f] + steps[f..] == steps;
  }

  /**
   * Steps in log order, all after the checkpoint: a completed run appends every
   * step's calls and leaves the checkpoint at the last step.
   */
  lemma {:induction false} PendingRunAppliesEveryStep(state: ProjectionState, steps: seq<Step>)
    requires StepsInLogOrder(steps)
    requires |steps| > 0 ==> Position(state.checkpoint) < steps[0].sequenceNumber
    requires RunSteps(state, steps).failure.None?
    ensures RunSteps(state, steps).state.repositoryLog == state.repositoryLog + Calls(steps)
    ensures RunSteps(state, steps).state.checkpoint
      == if |steps| == 0 then state.checkpoint else AppliedUpTo(steps[|steps| - 1].sequenceNumber)
    decreases |steps|
  {
    if |steps| == 0 {
      assert state.repositoryLog + [] == state.repositoryLog;
    } else {
      var operations := steps[0].outcome.value;
      var next := Commit(state, steps[0]).value;
      assert next.repositoryLog == state.repositoryLog + operations;
      assert StepsInLogOrder(steps[1..]) by {
        forall j, k | 0 <= j < k < |steps[1..]|
          ensures steps[1..][j].sequenceNumber < steps[1..][k].sequenceNumber
        {
          assert steps[1..][j] == steps[j + 1] && steps[1..][k] == steps[k + 1];
        }
      }
      if |steps| > 1 {
        assert steps[1..][0] == steps[1];
      }
      PendingRunAppliesEveryStep(next, steps[1..]);
      assert state.repositoryLog + operations + Calls(steps[1..])
        == state.repositoryLog + (operations + Calls(steps[1..]));
    }
  }

  lemma {:induction false} CallsHoldNoReset(steps: seq<Step>)
    requires HoldNoReset(steps)
    ensures NoReset(Calls(steps))
    decreases |steps|
  {
    if |steps| > 0 {
      assert HoldNoReset(steps[1..]) by {
        forall k | 0 <= k < |steps[1..]| && steps[1..][k].outcome.Ok? ensures NoReset(steps[1..][k].outcome.value) {
          assert steps[1..][k] == steps[k + 1];
        }
      }
      CallsHoldNoReset(steps[1..]);
    }
  }

  /**
   * After `reset`, a completed catch-up over a log leaves the repository holding
   * exactly the calls of its events, in order, with nothing from before the
   * reset, and the checkpoint at the last event.
   */
  lemma ReplayAfterReset(state: ProjectionState, envelopes: seq<EventEnvelope>)
    requires InLogOrder(envelopes)
    requires CatchUp(Reset(state), envelopes).failure.None?
    ensures CurrentOperations(CatchUp(Reset(state), envelopes).state.repositoryLog) == Calls(Steps(envelopes))
    ensures CatchUp(Reset(state), envelopes).state.checkpoint
      == if |envelopes| == 0 then NoneApplied else AppliedUpTo(envelopes[|envelopes| - 1].sequenceNumber)
  {
    var steps := Steps(envelopes);
    assert StepsInLogOrder(steps);
    PendingRunAppliesEveryStep(Reset(state), steps);
    assert HoldNoReset(steps);
    CallsHoldNoReset(steps);
    CurrentOperationsAppend(Reset(state).repositoryLog, Calls(steps));
  }
}

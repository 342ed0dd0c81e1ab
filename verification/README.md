# Node-generalization events, asset-usage projection and search-term matcher

This project models three pure pieces of the event-sourced Neos content repository and proves properties about them in Dafny.

- **`NodeGeneralizationVariantWasCreated`, current and legacy.** The event records that a node aggregate got a generalization variant. Both versions are immutable value records, and either can be copied to another content stream. The current version decodes from a stored array (`fromArray`). That array holds either the explicit `variantSucceedingSiblings` or, in records written before that field existed, the `generalizationCoverage` point set. The current version encodes with `jsonSerialize`.
- **The asset-usage projection.** Its pieces:
  - `canHandle` accepts eleven event kinds.
  - `apply` routes each of them to exactly one repository call.
  - `reset` clears the repository and sets the checkpoint back to "none".
  - The creation and property-set handlers extract asset ids from serialized property values:
    - a case-insensitive scan for `asset://<id>` in string values;
    - the `__identifier` of resource values;
    - a walk over collections of those.

  The repository is modelled as the log of calls made on it.
- **`SearchTermMatcher`.** It matches a search term against a node's serialized property values. It recurses into arrays, stops at the first match, and fails on values it has no rule for.

Modules, one per file:

| module | file | contents |
|---|---|---|
| `Wrappers` | `wrappers.dfy` | `Option` and `Result` |
| `Text` | `text.dfy` | ASCII lower-casing, substring search, decimal rendering of integers |
| `SharedModel` | `shared_model.dfy` | ids, dimension space points, interdimensional siblings |
| `PropertyValues` | `property_values.dfy` | decoded PHP values as a tree of ordered arrays, serialized property values, property types |
| `GeneralizationEvent` | `generalization_event.dfy` | the current event record, its decoder and encoder |
| `LegacyGeneralizationEvent` | `legacy_generalization_event.dfy` | the legacy event record, and how the current decoder upgrades it |
| `SearchTermMatcher` | `search_term_matcher.dfy` | the matcher and a leaf-scan reference definition |
| `AssetIdScanner` | `asset_id_scanner.dfy` | the `asset://` scanner and its characterisation as the unique left-to-right scan |
| `AssetUsageProjection` | `asset_usage_projection.dfy` | extraction, dispatch, reset and catch-up |

How the PHP behaviour is rendered:

- PHP arrays are ordered lists of key/value entries, so that "first match" and "first error" are exact.
- A cast of an array to string, or a `foreach` over a non-array, is an uncaught error (`UnsupportedValue` / `UnsupportedPropertyValue`), under the warning assumption listed under "## Left out". It is distinct from the `RuntimeException` with code 1646321894. That exception wraps only the `InvalidTypeException` of `TypeHandling::parseType`.
- Where the events' component value objects are not shown, they are plain datatypes.

## Model

| member | source | states |
|---|---|---|
| GeneralizationEvent.CreateCopyForContentStream | Neos.ContentRepository.Core/Classes/Feature/NodeVariation/Event/NodeGeneralizationVariantWasCreated.php:55-64 | the copy carries the target content stream; aggregate id, both origins and the succeeding siblings are unchanged |
| GeneralizationEvent.CopyTwiceIsCopyToLast | Neos.ContentRepository.Core/Classes/Feature/NodeVariation/Event/NodeGeneralizationVariantWasCreated.php:55-64 | copying to `a` and then to `b` equals copying to `b` |
| GeneralizationEvent.CopyToOwnStreamIsIdentity | Neos.ContentRepository.Core/Classes/Feature/NodeVariation/Event/NodeGeneralizationVariantWasCreated.php:55-64 | copying to the event's own stream gives the same event |
| GeneralizationEvent.GettersReturnConstructorArguments | Neos.ContentRepository.Core/Classes/Feature/NodeVariation/Event/NodeGeneralizationVariantWasCreated.php:36-53 | `getContentStreamId` and `getNodeAggregateId` return the constructor arguments |
| GeneralizationEvent.FromArray | Neos.ContentRepository.Core/Classes/Feature/NodeVariation/Event/NodeGeneralizationVariantWasCreated.php:67-80 | on success, every field came from its key. Siblings come from `variantSucceedingSiblings` when that key is present. Otherwise they are the coverage points, each with no succeeding sibling. With neither key, decoding fails |
| GeneralizationEvent.JsonSerialize | Neos.ContentRepository.Core/Classes/Feature/NodeVariation/Event/NodeGeneralizationVariantWasCreated.php:82-85 | the encoding has exactly the five public fields' keys and no coverage key, and the decoder reads it back as the same event |
| GeneralizationEvent.RoundTrip | Neos.ContentRepository.Core/Classes/Feature/NodeVariation/Event/NodeGeneralizationVariantWasCreated.php:67-85 | the serialized form has the siblings key, and decoding it gives back the event |
| GeneralizationEvent.DecodedEventSerializesToItsSource | Neos.ContentRepository.Core/Classes/Feature/NodeVariation/Event/NodeGeneralizationVariantWasCreated.php:67-85 | an array with explicit siblings that decodes serializes back to the same five entries |
| GeneralizationEvent.ExplicitSiblingsIgnoreCoverage | Neos.ContentRepository.Core/Classes/Feature/NodeVariation/Event/NodeGeneralizationVariantWasCreated.php:74-75 | with explicit siblings, adding, replacing or removing `generalizationCoverage` does not change the decoded result |
| GeneralizationEvent.LegacyCoverageYieldsSiblingsWithoutSuccessor | Neos.ContentRepository.Core/Classes/Feature/NodeVariation/Event/NodeGeneralizationVariantWasCreated.php:76-78 | without explicit siblings, the decoded siblings cover exactly the stored coverage points in order, none with a successor |
| GeneralizationEvent.CopySerializesWithOnlyTheStreamChanged | Neos.ContentRepository.Core/Classes/Feature/NodeVariation/Event/NodeGeneralizationVariantWasCreated.php:55-85 | serializing a copy equals serializing the original with only the content-stream entry replaced |
| SharedModel.FromDimensionSpacePointSetWithoutSucceedingSiblings | Neos.ContentRepository.Core/Classes/Feature/NodeVariation/Event/NodeGeneralizationVariantWasCreated.php:76-78 | one sibling entry per point, in order, none with a succeeding sibling |
| SharedModel.DerivedSiblingsCoverThePointSet | Neos.ContentRepository.Core/Classes/Feature/NodeVariation/Event/NodeGeneralizationVariantWasCreated.php:76-78 | the points of the derived siblings are the original point set |
| LegacyGeneralizationEvent.GettersReturnConstructorArguments | Neos.EventSourcedContentRepository/Classes/Domain/Context/NodeAggregate/Event/NodeGeneralizationVariantWasCreated.php:45-89 | each of the six getters returns its constructor argument |
| LegacyGeneralizationEvent.CreateCopyForContentStream | Neos.EventSourcedContentRepository/Classes/Domain/Context/NodeAggregate/Event/NodeGeneralizationVariantWasCreated.php:91-102 | seen through the getters, the copy has the target stream; aggregate id, origins, coverage and initiating user are unchanged |
| LegacyGeneralizationEvent.CopyTwiceIsCopyToLast | Neos.EventSourcedContentRepository/Classes/Domain/Context/NodeAggregate/Event/NodeGeneralizationVariantWasCreated.php:91-102 | copying to `a` and then to `b` equals copying to `b` |
| LegacyGeneralizationEvent.CopyToOwnStreamIsIdentity | Neos.EventSourcedContentRepository/Classes/Domain/Context/NodeAggregate/Event/NodeGeneralizationVariantWasCreated.php:91-102 | copying to the event's own stream gives an equal event |
| LegacyGeneralizationEvent.CurrentDecoderUpgradesCoverageOnlyRecords | Neos.ContentRepository.Core/Classes/Feature/NodeVariation/Event/NodeGeneralizationVariantWasCreated.php:74-78 | a coverage-only record stored under the current key names decodes as the upgraded event. Its siblings cover the legacy coverage, without successors |
| LegacyGeneralizationEvent.LegacyFieldNamesAreNotRead | Neos.EventSourcedContentRepository/Classes/Domain/Context/NodeAggregate/Event/NodeGeneralizationVariantWasCreated.php:33-35 | a coverage-only record keyed by the legacy class's own names `contentStreamIdentifier` and `nodeAggregateIdentifier` does not decode: `contentStreamId` is missing |
| LegacyGeneralizationEvent.UpgradeCommutesWithCopy | Neos.EventSourcedContentRepository/Classes/Domain/Context/NodeAggregate/Event/NodeGeneralizationVariantWasCreated.php:91-102 | upgrading a legacy copy equals copying the upgraded event |
| SearchTermMatcher.MatchesNode | Neos.ContentRepository.Core/Classes/Projection/ContentGraph/Filter/SearchTerm/SearchTermMatcher.php:18-31 | matching a node fails only if some leaf of its property values is unsupported. With every leaf supported it is true iff some leaf matches by its own rule |
| SearchTermMatcher.MatchesSerializedPropertyValues | Neos.ContentRepository.Core/Classes/Projection/ContentGraph/Filter/SearchTerm/SearchTermMatcher.php:23-31 | the property loop; its contract is stated by PropertiesFirstDecisive, PropertiesMatchIffSomeValueMatches, FirstNonFalseProperty, PropertiesShortCircuit and PropertiesScanLeaves |
| SearchTermMatcher.MatchesValue | Neos.ContentRepository.Core/Classes/Projection/ContentGraph/Filter/SearchTerm/SearchTermMatcher.php:33-53 | the recursive value check; its contract is stated by the per-leaf rules below, EntriesFirstDecisive, ArrayMatchesIffSomeElementMatches, MatchesValueScansLeaves and MatchesValueReference |
| SearchTermMatcher.StringMatchesIffTermOccursIgnoringCase | Neos.ContentRepository.Core/Classes/Projection/ContentGraph/Filter/SearchTerm/SearchTermMatcher.php:45 | a string matches iff the lower-cased term occurs in the lower-cased string |
| SearchTermMatcher.IntMatchesIffTermOccursInDecimal | Neos.ContentRepository.Core/Classes/Projection/ContentGraph/Filter/SearchTerm/SearchTermMatcher.php:47-48 | an integer matches iff the term occurs, case-sensitively, in its decimal rendering |
| SearchTermMatcher.BooleanMatchesOnlyItsName | Neos.ContentRepository.Core/Classes/Projection/ContentGraph/Filter/SearchTerm/SearchTermMatcher.php:49-50 | `true` matches exactly the term "true", `false` exactly "false" |
| SearchTermMatcher.UnsupportedLeafFails | Neos.ContentRepository.Core/Classes/Projection/ContentGraph/Filter/SearchTerm/SearchTermMatcher.php:51 | null and objects raise the unsupported-type error |
| SearchTermMatcher.EntriesFirstDecisive | Neos.ContentRepository.Core/Classes/Projection/ContentGraph/Filter/SearchTerm/SearchTermMatcher.php:35-42 | the remaining elements give false iff each gives false. Otherwise the result is that of the first element not giving false |
| SearchTermMatcher.ArrayMatchesIffSomeElementMatches | Neos.ContentRepository.Core/Classes/Projection/ContentGraph/Filter/SearchTerm/SearchTermMatcher.php:35-42 | an array gives false iff every element gives false, and true only if some element gives true. The first element not giving false decides, and the empty array gives false |
| SearchTermMatcher.FirstNonFalseEntry | Neos.ContentRepository.Core/Classes/Projection/ContentGraph/Filter/SearchTerm/SearchTermMatcher.php:36-40 | a non-false array result is the result of some element, and every element before it gives false |
| SearchTermMatcher.ArrayShortCircuits | Neos.ContentRepository.Core/Classes/Projection/ContentGraph/Filter/SearchTerm/SearchTermMatcher.php:36-40 | once a prefix matches, appended elements, unsupported ones included, change nothing |
| SearchTermMatcher.PropertiesFirstDecisive | Neos.ContentRepository.Core/Classes/Projection/ContentGraph/Filter/SearchTerm/SearchTermMatcher.php:23-31 | properties give false iff each value gives false. Otherwise the result is that of the first value not giving false |
| SearchTermMatcher.PropertiesMatchIffSomeValueMatches | Neos.ContentRepository.Core/Classes/Projection/ContentGraph/Filter/SearchTerm/SearchTermMatcher.php:23-31 | no properties give false. A successful check is true iff some property value matches |
| SearchTermMatcher.FirstNonFalseProperty | Neos.ContentRepository.Core/Classes/Projection/ContentGraph/Filter/SearchTerm/SearchTermMatcher.php:25-29 | a non-false result is the result of some property, and every property before it gives false |
| SearchTermMatcher.PropertiesShortCircuit | Neos.ContentRepository.Core/Classes/Projection/ContentGraph/Filter/SearchTerm/SearchTermMatcher.php:25-29 | once a prefix of the properties matches, appended properties change nothing |
| SearchTermMatcher.MatchesValueScansLeaves | Neos.ContentRepository.Core/Classes/Projection/ContentGraph/Filter/SearchTerm/SearchTermMatcher.php:33-53 | the recursive matcher equals a flat left-to-right scan of the value's non-array leaves |
| SearchTermMatcher.EntriesScanLeaves | Neos.ContentRepository.Core/Classes/Projection/ContentGraph/Filter/SearchTerm/SearchTermMatcher.php:35-42 | the element loop from any position equals the leaf scan of those elements |
| SearchTermMatcher.PropertiesScanLeaves | Neos.ContentRepository.Core/Classes/Projection/ContentGraph/Filter/SearchTerm/SearchTermMatcher.php:23-31 | matching the properties equals the leaf scan of all their values |
| SearchTermMatcher.ScanLeavesReference | Neos.ContentRepository.Core/Classes/Projection/ContentGraph/Filter/SearchTerm/SearchTermMatcher.php:44-52 | a scan fails only if some leaf is unsupported. Over supported leaves it is true iff some leaf matches by its own rule |
| SearchTermMatcher.MatchesValueReference | Neos.ContentRepository.Core/Classes/Projection/ContentGraph/Filter/SearchTerm/SearchTermMatcher.php:33-53 | a value fails only if some leaf is unsupported. With supported leaves it matches iff some leaf does |
| Text.InfixIffOccurs | Neos.ContentRepository.Core/Classes/Projection/ContentGraph/Filter/SearchTerm/SearchTermMatcher.php:45 | the recursive substring test holds iff the needle occurs at some position |
| Text.IntToDecimal | Neos.ContentRepository.Core/Classes/Projection/ContentGraph/Filter/SearchTerm/SearchTermMatcher.php:47-48 | `(string)` of an integer is non-empty digits, with a leading minus exactly for negatives, and canonical: no leading zero except in `0` itself |
| Text.CanonicalDigitsAreUnique | Neos.ContentRepository.Core/Classes/Projection/ContentGraph/Filter/SearchTerm/SearchTermMatcher.php:47-48 | two digit strings without leading zeros that denote the same number are equal |
| Text.IntToDecimalIsTheCanonicalRendering | Neos.ContentRepository.Core/Classes/Projection/ContentGraph/Filter/SearchTerm/SearchTermMatcher.php:47-48 | every canonical string that parses to `i` is the rendering of `i`, so the rendering is fully determined |
| Text.DecimalRoundTrip | Neos.ContentRepository.Core/Classes/Projection/ContentGraph/Filter/SearchTerm/SearchTermMatcher.php:47-48 | parsing the rendering gives back the integer |
| AssetIdScanner.SchemeAtIsCaseInsensitiveOccurrence | Neos.ESCR.AssetUsage/Classes/Projector/AssetUsageProjection.php:197 | the scheme test at a position holds iff `asset://` occurs there in the lower-cased text |
| AssetIdScanner.RunEnd | Neos.ESCR.AssetUsage/Classes/Projector/AssetUsageProjection.php:197 | the capture ends where the maximal `[A-Za-z0-9_-]` run after the scheme ends |
| AssetIdScanner.FindScheme | Neos.ESCR.AssetUsage/Classes/Projector/AssetUsageProjection.php:197 | the next scheme occurrence at or after a position. When there is none, there is no occurrence there |
| AssetIdScanner.Matches | Neos.ESCR.AssetUsage/Classes/Projector/AssetUsageProjection.php:197 | the `preg_match_all` loop; its contract is stated by MatchesAreOccurrencesOfTheScheme, MatchesDoNotOverlap, MatchesSkipNothing and ScanIsUnique |
| AssetIdScanner.MatchesAreOccurrencesOfTheScheme | Neos.ESCR.AssetUsage/Classes/Projector/AssetUsageProjection.php:197 | every match starts at a scheme occurrence at or after the search start and captures a maximal run |
| AssetIdScanner.MatchesDoNotOverlap | Neos.ESCR.AssetUsage/Classes/Projector/AssetUsageProjection.php:197 | each match ends before the next one starts: the search resumes after the previous capture |
| AssetIdScanner.MatchesSkipNothing | Neos.ESCR.AssetUsage/Classes/Projector/AssetUsageProjection.php:197 | no scheme occurrence lies before the first match or in a gap between or after matches |
| AssetIdScanner.MatchesIsScan | Neos.ESCR.AssetUsage/Classes/Projector/AssetUsageProjection.php:197 | the matches are occurrences, in order, non-overlapping, and no occurrence outside them is skipped |
| AssetIdScanner.ScanIsUnique | Neos.ESCR.AssetUsage/Classes/Projector/AssetUsageProjection.php:197 | any sequence of matches with those properties is the scanner's result |
| AssetIdScanner.MatchCountBound | Neos.ESCR.AssetUsage/Classes/Projector/AssetUsageProjection.php:197 | there are at most as many matches as scheme occurrences |
| AssetIdScanner.ExtractIds | Neos.ESCR.AssetUsage/Classes/Projector/AssetUsageProjection.php:195-198 | every extracted id consists of `[A-Za-z0-9_-]` only |
| AssetIdScanner.ExtractIdsBounds | Neos.ESCR.AssetUsage/Classes/Projector/AssetUsageProjection.php:195-198 | the ids are well-formed and at most as many as the scheme occurrences |
| AssetIdScanner.ExtractIdsAreTheCapturedRuns | Neos.ESCR.AssetUsage/Classes/Projector/AssetUsageProjection.php:195-198 | the scanner's matches form a valid scan of the whole text, and for every valid scan the ids are exactly the runs it captures, in order of appearance |
| AssetIdScanner.NoSchemeNoIds | Neos.ESCR.AssetUsage/Classes/Projector/AssetUsageProjection.php:197-198 | text without `asset://` (in any case) yields no ids |
| AssetUsageProjection.CastToString | Neos.ESCR.AssetUsage/Classes/Projector/AssetUsageProjection.php:197 | with warnings turned into exceptions, the `(string)` cast fails exactly on arrays and objects, keeps strings, and renders an integer canonically so that it parses back |
| AssetUsageProjection.ExtractAssetIdentifiers | Neos.ESCR.AssetUsage/Classes/Projector/AssetUsageProjection.php:193-222 | the per-type extraction; its contract is stated by StringValuesYieldScannedIds, ResourceValuesYieldTheirIdentifier, OtherTypesYieldNothing and the Collections lemmas |
| AssetUsageProjection.StringValuesYieldScannedIds | Neos.ESCR.AssetUsage/Classes/Projector/AssetUsageProjection.php:195-198 | a string or stringable value yields the scanned ids in order. Each is a well-formed id, and there are at most as many as scheme occurrences |
| AssetUsageProjection.ResourceValuesYieldTheirIdentifier | Neos.ESCR.AssetUsage/Classes/Projector/AssetUsageProjection.php:200-203 | a resource value yields `[__identifier]` when it is set and not null, else nothing |
| AssetUsageProjection.OtherTypesYieldNothing | Neos.ESCR.AssetUsage/Classes/Projector/AssetUsageProjection.php:205-214 | types without an element type, and collections of other element types, yield nothing. An unparsable type raises the type error |
| AssetUsageProjection.MergeAllAppend | Neos.ESCR.AssetUsage/Classes/Projector/AssetUsageProjection.php:221 | merging `a + b` is merging the merge of `a` with the merge of `b` |
| AssetUsageProjection.MergeAllSucceedsIffEveryResultDoes | Neos.ESCR.AssetUsage/Classes/Projector/AssetUsageProjection.php:215-221 | merging succeeds iff every element result does |
| AssetUsageProjection.MergeAllFailsWithFirstError | Neos.ESCR.AssetUsage/Classes/Projector/AssetUsageProjection.php:215-221 | a failed merge carries the first failing result's error |
| AssetUsageProjection.CollectionsMustBeArrays | Neos.ESCR.AssetUsage/Classes/Projector/AssetUsageProjection.php:217-219 | with warnings turned into exceptions, a non-array value of a walked collection type cannot be iterated and fails |
| AssetUsageProjection.CollectionsSucceedIffEveryElementDoes | Neos.ESCR.AssetUsage/Classes/Projector/AssetUsageProjection.php:215-221 | a collection walk succeeds iff every element's extraction does |
| AssetUsageProjection.CollectionsFailWithFirstElementError | Neos.ESCR.AssetUsage/Classes/Projector/AssetUsageProjection.php:215-221 | a failed walk carries the error of its first failing element |
| AssetUsageProjection.CollectionAppend | Neos.ESCR.AssetUsage/Classes/Projector/AssetUsageProjection.php:215-221 | the ids of a collection `a + b` are those of `a` followed by those of `b` |
| AssetUsageProjection.SingleElementCollection | Neos.ESCR.AssetUsage/Classes/Projector/AssetUsageProjection.php:215-221 | a one-element collection yields that element's ids |
| AssetUsageProjection.GetAssetIdsByProperty | Neos.ESCR.AssetUsage/Classes/Projector/AssetUsageProjection.php:173-185 | the per-property map; its contract is stated by GetAssetIdsFailsOnFirstFailingProperty, GetAssetIdsHasAnEntryPerName, GetAssetIdsLastPropertyWins and GetAssetIdsOfUniquelyNamedProperties |
| AssetUsageProjection.GetAssetIdsFailsOnFirstFailingProperty | Neos.ESCR.AssetUsage/Classes/Projector/AssetUsageProjection.php:173-185 | extraction succeeds iff it succeeds for every property. Otherwise it fails with the error of the first failing property |
| AssetUsageProjection.GetAssetIdsHasAnEntryPerName | Neos.ESCR.AssetUsage/Classes/Projector/AssetUsageProjection.php:176-184 | the resulting map has exactly the property names as keys |
| AssetUsageProjection.GetAssetIdsLastPropertyWins | Neos.ESCR.AssetUsage/Classes/Projector/AssetUsageProjection.php:178-183 | a property not overridden by a later one of the same name maps to its own extracted ids |
| AssetUsageProjection.GetAssetIdsOfUniquelyNamedProperties | Neos.ESCR.AssetUsage/Classes/Projector/AssetUsageProjection.php:176-184 | with unique property names, every property's extracted ids are its own entry in the map |
| AssetUsageProjection.CanHandle | Neos.ESCR.AssetUsage/Classes/Projector/AssetUsageProjection.php:230-246 | class-name membership in the list holds exactly for the eleven handled event kinds |
| AssetUsageProjection.RecordUsages | Neos.ESCR.AssetUsage/Classes/Projector/AssetUsageProjection.php:67-113 | success iff extraction succeeds. Usages go under (stream, origin as point, aggregate, `live`), with one entry per property name. A type error becomes code 1646321894 naming the aggregate, and a value error stays uncaught |
| AssetUsageProjection.Apply | Neos.ESCR.AssetUsage/Classes/Projector/AssetUsageProjection.php:254-274 | unhandled kinds make no repository call. A handled kind makes exactly one call, never a reset. Only creation and property-set events can fail |
| AssetUsageProjection.ContentStreamRouting | Neos.ESCR.AssetUsage/Classes/Projector/AssetUsageProjection.php:129-165 | discard, partial discard and rebase remove the previous stream. Publication and partial publication remove the previous source stream. Stream removal removes that stream. A fork copies source to new |
| AssetUsageProjection.NodeRouting | Neos.ESCR.AssetUsage/Classes/Projector/AssetUsageProjection.php:115-127 | node removal removes the aggregate in the affected points, and a peer variant copies source origin to peer origin |
| AssetUsageProjection.UsageRecording | Neos.ESCR.AssetUsage/Classes/Projector/AssetUsageProjection.php:67-113 | creation and property-set events record exactly one `addUsagesForNode` with the extracted map. A type error yields the 1646321894 error |
| AssetUsageProjection.Reset | Neos.ESCR.AssetUsage/Classes/Projector/AssetUsageProjection.php:60-65 | the checkpoint becomes "none" and no repository content survives; earlier calls stay in the log |
| AssetUsageProjection.ApplyToState | Neos.ESCR.AssetUsage/Classes/Projector/AssetUsageProjection.php:254-274 | `apply` fails exactly when the handler does, with its error. An unhandled event leaves the state unchanged, and a handled one extends the repository content by its calls without touching the checkpoint |
| AssetUsageProjection.Commit | Neos.ESCR.AssetUsage/Classes/Projector/AssetUsageProjection.php:248-252 | committing an applied event appends its calls after the existing log and stores its sequence number as the checkpoint. A failed one is the handler's error |
| AssetUsageProjection.CurrentOperationsAppend | Neos.ESCR.AssetUsage/Classes/Projector/AssetUsageProjection.php:60-62 | appending calls without a reset extends the repository content by those calls |
| AssetUsageProjection.CatchUp | Neos.ESCR.AssetUsage/Classes/Projector/AssetUsageProjection.php:248-252 | `catchUp` over a stream of sequence-numbered events; its contract is stated by the catch-up lemmas below |
| AssetUsageProjection.CompletedRunReachesHighestNumber | Neos.ESCR.AssetUsage/Classes/Projector/AssetUsageProjection.php:248-252 | after a completed catch-up, the checkpoint is the highest of the old checkpoint and the events' sequence numbers |
| AssetUsageProjection.FailedRunStopsAtFailingStep | Neos.ESCR.AssetUsage/Classes/Projector/AssetUsageProjection.php:248-252 | a failed catch-up reports the first failing event's error, keeps exactly what the events before it committed, and leaves the checkpoint before the failing event |
| AssetUsageProjection.SkipsAppliedSteps | Neos.ESCR.AssetUsage/Classes/Projector/AssetUsageProjection.php:248-252 | events at or before the checkpoint are skipped without effect |
| AssetUsageProjection.CompletedRunIsResumable | Neos.ESCR.AssetUsage/Classes/Projector/AssetUsageProjection.php:248-252 | running catch-up again after it completed applies nothing and changes nothing |
| AssetUsageProjection.RetryResumesAtFailingStep | Neos.ESCR.AssetUsage/Classes/Projector/AssetUsageProjection.php:248-252 | running catch-up again after a failure resumes at the failing event |
| AssetUsageProjection.PendingRunAppliesEveryStep | Neos.ESCR.AssetUsage/Classes/Projector/AssetUsageProjection.php:248-252 | over events in log order after the checkpoint, a completed run appends every event's calls in order and stores the last sequence number |
| AssetUsageProjection.ReplayAfterReset | Neos.ESCR.AssetUsage/Classes/Projector/AssetUsageProjection.php:60-65 | after `reset`, a completed catch-up over a log leaves exactly its events' calls as repository content and the checkpoint at the last event, or none for an empty log |

## Left out

- Checkpoint storage and the catch-up library. `CatchUp::create/run` and `DoctrineCheckpointStorage` are not part of this model. Their locking and SQL are left out, and the checkpoint is a single value. `CatchUp::create` is assumed to use a batch size of one. It skips events numbered at or before the checkpoint, applies each other event and stores its sequence number, and stops at the first error, keeping the calls of the earlier events. Sequence numbers start at 1, and the checkpoint "none" is position 0.
- CastToString, CollectionsMustBeArrays, RecordUsages: PHP warnings are assumed to be turned into exceptions, that is, Flow's `Neos.Flow.error.errorHandler.exceptionalErrors` setting includes `E_WARNING`. Whether it does depends on the Flow context, and the Production context may not include it. Without that setting, casting an array gives the string "Array", which yields no ids, and a `foreach` over a non-array yields nothing. The model does not cover that behaviour: there, such a value fails the extraction and, uncaught, the catch-up.
- `setUp` and `getState`: database setup and a finder factory.
- What the repository does with the calls (`addUsagesForNode`, `removeNode`, `copyDimensions`, `copyContentStream`, `removeContentStream`). Those calls are not part of this model. They are recorded as a log, and "repository content" means the calls since the last reset.
- `EventNormalizer::getEventClassName/denormalize`. These are foreign, so events arrive already denormalized as a datatype. Each kind has its fully qualified class name, and any other event carries some other class name.
- PHP reflection (`is_subclass_of`, `TypeHandling::parseType`) becomes a `PropertyType` datatype. Its cases: `string`, stringable class, resource-based class, collection with an element type, plain type, unparsable type.
- Float formatting. A float leaf carries its PHP string rendering as data, and the number-to-text conversion is not modelled.
- Multibyte case folding in `mb_stripos`. Lower-casing is ASCII-only.
- The regex engine. The scanner is written out by hand for `/asset:\/\/([\w-]*)/i`. `\w` is taken as ASCII letters, digits and `_`, with no locale or Unicode classes.
- Integer width. PHP integers are 64-bit, the model's are unbounded. Decimal rendering does not depend on the width.
- Objects inside JSON-decoded property values. They are modelled as opaque values: a cast to string, iteration and `__identifier` lookup on them all fail as `UnsupportedValue`. PHP would iterate public properties or call `__toString`. The matcher's `$value instanceof \ArrayObject` branch (SearchTermMatcher.php:35) is not reached either: PHP iterates an `ArrayObject` like an array, while the model's `Object` leaf fails as unsupported.
- Component codecs. `ContentStreamId::fromString`, `OriginDimensionSpacePoint::fromArray`, `InterdimensionalSiblings::fromArray` and `DimensionSpacePointSet::fromArray` are not part of this model. The stored array holds already-decoded components, and a wrong-typed entry is a decode error.
- `get_object_vars`. The JSON encoding is the map of the five public fields.
- `CreateContentStream` is a command DTO with no behaviour.
- Legacy id classes (`ContentStreamIdentifier`, `NodeAggregateIdentifier`, `UserIdentifier`) use the same id datatypes as the current classes.
- OtherTypesYieldNothing covers only types that parse. The collection element test follows the code: a collection's elements are walked only when the element type is a stringable or resource-based class. So `array<string>` yields no ids even though its elements are strings, because `is_subclass_of('string', Stringable::class)` is false.

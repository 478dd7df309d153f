/** Step 2 of the build as a specification: the flattened lists and the
    buckets an entity derives from its raw lists and the arenas. */
module Projection {
  import opened Wrappers
  import opened Seqs
  import opened Metadata

  /** Every embedded lists its children after itself, so the embedded forest
      is finite and acyclic. */
  predicate EmbeddedsWellFormed(embs: seq<EmbeddedMetadata>) {
    forall i, k :: 0 <= i < |embs| && 0 <= k < |embs[i].embeddeds| ==> i < embs[i].embeddeds[k] < |embs|
  }

  predicate IdsAbove(embs: seq<EmbeddedMetadata>, ids: seq<EmbId>, above: int) {
    forall k :: 0 <= k < |ids| ==> above < ids[k] < |embs|
  }

  /** `xxxFromTree`: what an embedded holds itself, then, in order, what each
      of its sub-embeddeds holds from its tree. */
  function TreeItems<T>(embs: seq<EmbeddedMetadata>, id: EmbId, sel: EmbeddedMetadata -> seq<T>): seq<T>
    requires EmbeddedsWellFormed(embs) && id < |embs|
    decreases |embs| - id, 1, 0
  {
    sel(embs[id]) + ForestItems(embs, embs[id].embeddeds, id, sel)
  }

  /** The concatenation of the trees of the given embeddeds. */
  function ForestItems<T>(embs: seq<EmbeddedMetadata>, ids: seq<EmbId>, above: int, sel: EmbeddedMetadata -> seq<T>): seq<T>
    requires EmbeddedsWellFormed(embs) && -1 <= above && IdsAbove(embs, ids, above)
    decreases |embs| - above, 0, |ids|
  {
    if ids == [] then []
    else TreeItems(embs, ids[0], sel) + ForestItems(embs, ids[1..], above, sel)
  }

  /** `embeddeds.reduce((acc, e) => acc.concat(e.xxxFromTree), own)`. */
  function Flattened<T>(own: seq<T>, embs: seq<EmbeddedMetadata>, tops: seq<EmbId>, sel: EmbeddedMetadata -> seq<T>): (r: seq<T>)
    requires EmbeddedsWellFormed(embs) && IdsAbove(embs, tops, -1)
    ensures |r| >= |own| && r[..|own|] == own
  {
    own + ForestItems(embs, tops, -1, sel)
  }

  function EmbeddedColumns(e: EmbeddedMetadata): seq<ColId> { e.columns }
  function EmbeddedRelations(e: EmbeddedMetadata): seq<RelId> { e.relations }
  function EmbeddedListeners(e: EmbeddedMetadata): seq<EntityListenerMetadata> { e.listeners }
  function EmbeddedIndices(e: EmbeddedMetadata): seq<IndexMetadata> { e.indices }
  function EmbeddedUniques(e: EmbeddedMetadata): seq<UniqueMetadata> { e.uniques }

  // ---------------------------------------------------------------------
  // Buckets
  // ---------------------------------------------------------------------

  datatype RelationBucket =
    | EagerBucket | LazyBucket
    | OneToOneBucket | OneToManyBucket | ManyToOneBucket | ManyToManyBucket
    | OwnerOneToOneBucket | OwnerManyToManyBucket
    | TreeParentBucket | TreeChildrenBucket

  predicate InRelationBucket(r: RelationMetadata, b: RelationBucket) {
    match b
    case EagerBucket => r.args.eager
    case LazyBucket => r.args.isLazy
    case OneToOneBucket => r.args.relationType == OneToOne
    case OneToManyBucket => r.args.relationType == OneToMany
    case ManyToOneBucket => r.args.relationType == ManyToOne
    case ManyToManyBucket => r.args.relationType == ManyToMany
    case OwnerOneToOneBucket => r.args.relationType == OneToOne && IsOwning(r)
    case OwnerManyToManyBucket => r.args.relationType == ManyToMany && IsOwning(r)
    case TreeParentBucket => r.args.isTreeParent
    case TreeChildrenBucket => r.args.isTreeChildren
  }

  function RelationTest(rels: seq<RelationMetadata>, b: RelationBucket): RelId -> bool {
    (i: RelId) => i < |rels| && InRelationBucket(rels[i], b)
  }

  function RelationsIn(rels: seq<RelationMetadata>, ids: seq<RelId>, b: RelationBucket): seq<RelId> {
    Filter(ids, RelationTest(rels, b))
  }

  datatype ColumnBucket =
    | PrimaryBucket | NonVirtualBucket | AncestorBucket | DescendantBucket | GeneratedBucket
    | CreateDateBucket | UpdateDateBucket | VersionBucket | DiscriminatorBucket | TreeLevelBucket
    | NestedSetLeftBucket | NestedSetRightBucket | MaterializedPathBucket | ObjectIdBucket

  predicate InColumnBucket(c: ColumnMetadata, b: ColumnBucket) {
    match b
    case PrimaryBucket => c.isPrimary
    case NonVirtualBucket => !c.isVirtual
    case AncestorBucket => c.closureType == Some(Ancestor)
    case DescendantBucket => c.closureType == Some(Descendant)
    case GeneratedBucket => c.isGenerated || c.isObjectId
    case CreateDateBucket => c.isCreateDate
    case UpdateDateBucket => c.isUpdateDate
    case VersionBucket => c.isVersion
    case DiscriminatorBucket => c.isDiscriminator
    case TreeLevelBucket => c.isTreeLevel
    case NestedSetLeftBucket => c.isNestedSetLeft
    case NestedSetRightBucket => c.isNestedSetRight
    case MaterializedPathBucket => c.isMaterializedPath
    case ObjectIdBucket => c.isObjectId
  }

  function ColumnTest(cols: seq<ColumnMetadata>, b: ColumnBucket): ColId -> bool {
    (i: ColId) => i < |cols| && InColumnBucket(cols[i], b)
  }

  function ColumnsIn(cols: seq<ColumnMetadata>, ids: seq<ColId>, b: ColumnBucket): seq<ColId> {
    Filter(ids, ColumnTest(cols, b))
  }

  function ListenerTest(t: ListenerType): EntityListenerMetadata -> bool {
    (l: EntityListenerMetadata) => l.listenerType == t
  }

  function ListenersOf(ls: seq<EntityListenerMetadata>, t: ListenerType): seq<EntityListenerMetadata> {
    Filter(ls, ListenerTest(t))
  }

  /** A column generated by the "uuid" strategy. */
  function UuidTest(cols: seq<ColumnMetadata>): ColId -> bool {
    (i: ColId) => i < |cols| && cols[i].isGenerated && cols[i].generationStrategy == Some("uuid")
  }

  /** `hasUUIDGeneratedColumns`: whether some column is generated by the
      "uuid" strategy. */
  function HasUuidGeneratedColumns(cols: seq<ColumnMetadata>, ids: seq<ColId>): (r: bool)
    ensures r <==> exists k :: 0 <= k < |ids| && ids[k] < |cols|
                              && cols[ids[k]].isGenerated && cols[ids[k]].generationStrategy == Some("uuid")
  {
    var found := Filter(ids, UuidTest(cols));
    assert |found| > 0 ==> found[0] in ids;
    assert (exists k :: 0 <= k < |ids| && UuidTest(cols)(ids[k])) ==> |found| > 0 by {
      if exists k :: 0 <= k < |ids| && UuidTest(cols)(ids[k]) {
        var k :| 0 <= k < |ids| && UuidTest(cols)(ids[k]);
        FilterKeeps(ids, UuidTest(cols), k);
      }
    }
    |found| > 0
  }

  /** `hasUUIDGeneratedColumns` as line 544 computes it: a column counts
      when it is generated by any strategy, or carries the "uuid" strategy. */
  function HasUuidGeneratedColumnsAsWritten(cols: seq<ColumnMetadata>, ids: seq<ColId>): (r: bool)
    ensures r <==> exists k :: 0 <= k < |ids| && ids[k] < |cols|
                              && (cols[ids[k]].isGenerated || cols[ids[k]].generationStrategy == Some("uuid"))
  {
    var test := (i: ColId) => i < |cols| && (cols[i].isGenerated || cols[i].generationStrategy == Some("uuid"));
    var found := Filter(ids, test);
    assert |found| > 0 ==> found[0] in ids;
    assert (exists k :: 0 <= k < |ids| && test(ids[k])) ==> |found| > 0 by {
      if exists k :: 0 <= k < |ids| && test(ids[k]) {
        var k :| 0 <= k < |ids| && test(ids[k]);
        FilterKeeps(ids, test, k);
      }
    }
    |found| > 0
  }

  /** An entity whose only generated column uses the "increment" strategy
      reports a uuid-generated column as line 544 is written, and none
      under the corrected test. */
  lemma UuidFlagCounterexample(c: ColumnMetadata)
    requires c.isGenerated && c.generationStrategy == Some("increment")
    ensures HasUuidGeneratedColumnsAsWritten([c], [0])
    ensures !HasUuidGeneratedColumns([c], [0])
  {
  }

  // ---------------------------------------------------------------------
  // The whole projection
  // ---------------------------------------------------------------------

  /** What `computeEntityMetadataStep2` derives from an entity's own lists
      and the top-level embeddeds `tops`: the flattened lists first, then
      the buckets over them. */
  function Projected(ownRelations: seq<RelId>, ownColumns: seq<ColId>, ownListeners: seq<EntityListenerMetadata>,
                     ownIndices: seq<IndexMetadata>, ownUniques: seq<UniqueMetadata>, tops: seq<EmbId>,
                     cols: seq<ColumnMetadata>, rels: seq<RelationMetadata>, embs: seq<EmbeddedMetadata>): Derived
    requires EmbeddedsWellFormed(embs) && IdsAbove(embs, tops, -1)
  {
    var relations := Flattened(ownRelations, embs, tops, EmbeddedRelations);
    var columns := Flattened(ownColumns, embs, tops, EmbeddedColumns);
    var listeners := Flattened(ownListeners, embs, tops, EmbeddedListeners);
    var primaryColumns := ColumnsIn(cols, columns, PrimaryBucket);
    Derived(
      relations := relations,
      eagerRelations := RelationsIn(rels, relations, EagerBucket),
      lazyRelations := RelationsIn(rels, relations, LazyBucket),
      oneToOneRelations := RelationsIn(rels, relations, OneToOneBucket),
      oneToManyRelations := RelationsIn(rels, relations, OneToManyBucket),
      manyToOneRelations := RelationsIn(rels, relations, ManyToOneBucket),
      manyToManyRelations := RelationsIn(rels, relations, ManyToManyBucket),
      ownerOneToOneRelations := RelationsIn(rels, relations, OwnerOneToOneBucket),
      ownerManyToManyRelations := RelationsIn(rels, relations, OwnerManyToManyBucket),
      treeParentRelation := Find(relations, RelationTest(rels, TreeParentBucket)),
      treeChildrenRelation := Find(relations, RelationTest(rels, TreeChildrenBucket)),
      columns := columns,
      listeners := listeners,
      afterLoadListeners := ListenersOf(listeners, AfterLoad),
      afterInsertListeners := ListenersOf(listeners, AfterInsert),
      afterUpdateListeners := ListenersOf(listeners, AfterUpdate),
      afterRemoveListeners := ListenersOf(listeners, AfterRemove),
      beforeInsertListeners := ListenersOf(listeners, BeforeInsert),
      beforeUpdateListeners := ListenersOf(listeners, BeforeUpdate),
      beforeRemoveListeners := ListenersOf(listeners, BeforeRemove),
      indices := Flattened(ownIndices, embs, tops, EmbeddedIndices),
      uniques := Flattened(ownUniques, embs, tops, EmbeddedUniques),
      primaryColumns := primaryColumns,
      nonVirtualColumns := ColumnsIn(cols, columns, NonVirtualBucket),
      ancestorColumns := ColumnsIn(cols, columns, AncestorBucket),
      descendantColumns := ColumnsIn(cols, columns, DescendantBucket),
      hasMultiplePrimaryKeys := |primaryColumns| > 1,
      generatedColumns := ColumnsIn(cols, columns, GeneratedBucket),
      hasUUIDGeneratedColumns := HasUuidGeneratedColumnsAsWritten(cols, columns),
      createDateColumn := Find(columns, ColumnTest(cols, CreateDateBucket)),
      updateDateColumn := Find(columns, ColumnTest(cols, UpdateDateBucket)),
      versionColumn := Find(columns, ColumnTest(cols, VersionBucket)),
      discriminatorColumn := Find(columns, ColumnTest(cols, DiscriminatorBucket)),
      treeLevelColumn := Find(columns, ColumnTest(cols, TreeLevelBucket)),
      nestedSetLeftColumn := Find(columns, ColumnTest(cols, NestedSetLeftBucket)),
      nestedSetRightColumn := Find(columns, ColumnTest(cols, NestedSetRightBucket)),
      materializedPathColumn := Find(columns, ColumnTest(cols, MaterializedPathBucket)),
      objectIdColumn := Find(columns, ColumnTest(cols, ObjectIdBucket)))
  }

  /** What `computeEntityMetadataStep2` establishes on `e`. */
  predicate ProjectionHolds(e: EntityMetadata, cols: seq<ColumnMetadata>, rels: seq<RelationMetadata>, embs: seq<EmbeddedMetadata>)
    reads e
  {
    && EmbeddedsWellFormed(embs) && IdsAbove(embs, e.embeddeds, -1)
    && e.derived == Projected(e.ownRelations, e.ownColumns, e.ownListeners, e.ownIndices, e.ownUniques, e.embeddeds, cols, rels, embs)
  }
}

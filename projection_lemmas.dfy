/** Properties of the step-2 projection: the buckets partition what they
    should, they keep a duplicate-free list duplicate-free, and whatever an
    embedded reachable from the entity holds shows up in the flattened list. */
module ProjectionLemmas {
  import opened Wrappers
  import opened Seqs
  import opened Metadata
  import opened Projection

  /** `hasMultiplePrimaryKeys` holds exactly when two different positions of
      the flattened columns are primary. */
  lemma MultiplePrimaryKeys(cols: seq<ColumnMetadata>, ids: seq<ColId>)
    ensures |ColumnsIn(cols, ids, PrimaryBucket)| > 1 <==>
            exists i, j :: 0 <= i < j < |ids| && ids[i] < |cols| && ids[j] < |cols|
                           && cols[ids[i]].isPrimary && cols[ids[j]].isPrimary
  {
    FilterLongerThanOne(ids, ColumnTest(cols, PrimaryBucket));
  }

  /** Every relation of the entity lands in exactly one of the four
      cardinality buckets. */
  lemma {:induction false} CardinalityBucketsPartition(rels: seq<RelationMetadata>, ids: seq<RelId>)
    requires forall k :: 0 <= k < |ids| ==> ids[k] < |rels|
    ensures |RelationsIn(rels, ids, OneToOneBucket)| + |RelationsIn(rels, ids, OneToManyBucket)|
            + |RelationsIn(rels, ids, ManyToOneBucket)| + |RelationsIn(rels, ids, ManyToManyBucket)| == |ids|
  {
    if ids != [] {
      CardinalityBucketsPartition(rels, ids[1..]);
    }
  }

  /** Every listener lands in exactly one lifecycle-phase bucket. */
  lemma {:induction false} ListenerBucketsPartition(ls: seq<EntityListenerMetadata>)
    ensures |ListenersOf(ls, AfterLoad)| + |ListenersOf(ls, AfterInsert)| + |ListenersOf(ls, AfterUpdate)|
            + |ListenersOf(ls, AfterRemove)| + |ListenersOf(ls, BeforeInsert)| + |ListenersOf(ls, BeforeUpdate)|
            + |ListenersOf(ls, BeforeRemove)| == |ls|
  {
    if ls != [] {
      ListenerBucketsPartition(ls[1..]);
    }
  }

  /** Buckets of a duplicate-free column list are duplicate-free, and taking
      a bucket of a bucket changes nothing. */
  lemma ColumnBucketsStable(cols: seq<ColumnMetadata>, ids: seq<ColId>, b: ColumnBucket)
    requires NoDuplicates(ids)
    ensures NoDuplicates(ColumnsIn(cols, ids, b))
    ensures ColumnsIn(cols, ColumnsIn(cols, ids, b), b) == ColumnsIn(cols, ids, b)
  {
    FilterNoDuplicates(ids, ColumnTest(cols, b));
    FilterIdempotent(ids, ColumnTest(cols, b));
  }

  // ---------------------------------------------------------------------
  // Reachability in the embedded forest
  // ---------------------------------------------------------------------

  /** The embeddeds of a tree, in the order the flattening visits them. */
  function TreeIds(embs: seq<EmbeddedMetadata>, id: EmbId): seq<EmbId>
    requires EmbeddedsWellFormed(embs) && id < |embs|
    decreases |embs| - id, 1, 0
  {
    [id] + ForestIds(embs, embs[id].embeddeds, id)
  }

  function ForestIds(embs: seq<EmbeddedMetadata>, ids: seq<EmbId>, above: int): seq<EmbId>
    requires EmbeddedsWellFormed(embs) && -1 <= above && IdsAbove(embs, ids, above)
    decreases |embs| - above, 0, |ids|
  {
    if ids == [] then [] else TreeIds(embs, ids[0]) + ForestIds(embs, ids[1..], above)
  }

  lemma {:induction false} TreeItemsContain<T>(embs: seq<EmbeddedMetadata>, id: EmbId, sel: EmbeddedMetadata -> seq<T>, k: EmbId, x: T)
    requires EmbeddedsWellFormed(embs) && id < |embs|
    requires k in TreeIds(embs, id) && k < |embs| && x in sel(embs[k])
    ensures x in TreeItems(embs, id, sel)
    decreases |embs| - id, 1, 0
  {
    if k != id {
      ForestItemsContain(embs, embs[id].embeddeds, id, sel, k, x);
    }
  }

  lemma {:induction false} ForestItemsContain<T>(embs: seq<EmbeddedMetadata>, ids: seq<EmbId>, above: int, sel: EmbeddedMetadata -> seq<T>, k: EmbId, x: T)
    requires EmbeddedsWellFormed(embs) && -1 <= above && IdsAbove(embs, ids, above)
    requires k in ForestIds(embs, ids, above) && k < |embs| && x in sel(embs[k])
    ensures x in ForestItems(embs, ids, above, sel)
    decreases |embs| - above, 0, |ids|
  {
    if k in TreeIds(embs, ids[0]) {
      TreeItemsContain(embs, ids[0], sel, k, x);
    } else {
      ForestItemsContain(embs, ids[1..], above, sel, k, x);
    }
  }

  /** An index placed in any embedded reachable from the entity's
      embeddeds is in the entity's flattened `indices`. */
  lemma EmbeddedIndexIsFlattened(own: seq<IndexMetadata>, embs: seq<EmbeddedMetadata>, tops: seq<EmbId>, k: EmbId, x: IndexMetadata)
    requires EmbeddedsWellFormed(embs) && IdsAbove(embs, tops, -1)
    requires k in ForestIds(embs, tops, -1) && k < |embs| && x in embs[k].indices
    ensures x in Flattened(own, embs, tops, EmbeddedIndices)
  {
    ForestItemsContain(embs, tops, -1, EmbeddedIndices, k, x);
  }

  /** An entity's own index survives every projection of the entity. */
  lemma InheritanceIndexKept(ownRelations: seq<RelId>, ownColumns: seq<ColId>, ownListeners: seq<EntityListenerMetadata>,
                             ownIndices: seq<IndexMetadata>, ownUniques: seq<UniqueMetadata>, tops: seq<EmbId>,
                             cols: seq<ColumnMetadata>, rels: seq<RelationMetadata>, embs: seq<EmbeddedMetadata>,
                             x: IndexMetadata)
    requires EmbeddedsWellFormed(embs) && IdsAbove(embs, tops, -1) && x in ownIndices
    ensures x in Projected(ownRelations, ownColumns, ownListeners, ownIndices, ownUniques, tops, cols, rels, embs).indices
  {
    var r := Projected(ownRelations, ownColumns, ownListeners, ownIndices, ownUniques, tops, cols, rels, embs).indices;
    var i :| 0 <= i < |ownIndices| && ownIndices[i] == x;
    assert r[..|ownIndices|][i] == x;
  }

  /** Whatever a flattened tree holds comes from one of the tree's
      embeddeds. */
  lemma {:induction false} TreeItemsSource<T>(embs: seq<EmbeddedMetadata>, id: EmbId, sel: EmbeddedMetadata -> seq<T>, x: T)
    requires EmbeddedsWellFormed(embs) && id < |embs|
    requires x in TreeItems(embs, id, sel)
    ensures exists k :: k in TreeIds(embs, id) && k < |embs| && x in sel(embs[k])
    decreases |embs| - id, 1, 0
  {
    if x !in sel(embs[id]) {
      ForestItemsSource(embs, embs[id].embeddeds, id, sel, x);
      var k :| k in ForestIds(embs, embs[id].embeddeds, id) && k < |embs| && x in sel(embs[k]);
      assert k in TreeIds(embs, id);
    }
  }

  lemma {:induction false} ForestItemsSource<T>(embs: seq<EmbeddedMetadata>, ids: seq<EmbId>, above: int, sel: EmbeddedMetadata -> seq<T>, x: T)
    requires EmbeddedsWellFormed(embs) && -1 <= above && IdsAbove(embs, ids, above)
    requires x in ForestItems(embs, ids, above, sel)
    ensures exists k :: k in ForestIds(embs, ids, above) && k < |embs| && x in sel(embs[k])
    decreases |embs| - above, 0, |ids|
  {
    if x in TreeItems(embs, ids[0], sel) {
      TreeItemsSource(embs, ids[0], sel, x);
      var k :| k in TreeIds(embs, ids[0]) && k < |embs| && x in sel(embs[k]);
      assert k in ForestIds(embs, ids, above);
    } else {
      ForestItemsSource(embs, ids[1..], above, sel, x);
      var k :| k in ForestIds(embs, ids[1..], above) && k < |embs| && x in sel(embs[k]);
      assert k in ForestIds(embs, ids, above);
    }
  }

  /** An index that is neither an own index of the entity nor an index of an
      embedded reachable from it is not among its indices after a
      projection: an index pushed onto the derived `indices` alone does not
      survive the next projection of the entity. */
  lemma InheritanceIndexLost(ownRelations: seq<RelId>, ownColumns: seq<ColId>, ownListeners: seq<EntityListenerMetadata>,
                             ownIndices: seq<IndexMetadata>, ownUniques: seq<UniqueMetadata>, tops: seq<EmbId>,
                             cols: seq<ColumnMetadata>, rels: seq<RelationMetadata>, embs: seq<EmbeddedMetadata>,
                             x: IndexMetadata)
    requires EmbeddedsWellFormed(embs) && IdsAbove(embs, tops, -1) && x !in ownIndices
    requires forall k :: k in ForestIds(embs, tops, -1) && k < |embs| ==> x !in embs[k].indices
    ensures x !in Projected(ownRelations, ownColumns, ownListeners, ownIndices, ownUniques, tops, cols, rels, embs).indices
  {
    var f := ForestItems(embs, tops, -1, EmbeddedIndices);
    assert Projected(ownRelations, ownColumns, ownListeners, ownIndices, ownUniques, tops, cols, rels, embs).indices
           == ownIndices + f;
    if x in f {
      ForestItemsSource(embs, tops, -1, EmbeddedIndices, x);
    }
  }

  predicate AllBelow(s: seq<nat>, n: nat) {
    forall j :: 0 <= j < |s| ==> s[j] < n
  }

  /** A property every embedded's own items have holds of a flattened tree. */
  lemma {:induction false} TreeItemsAll<T>(embs: seq<EmbeddedMetadata>, id: EmbId, sel: EmbeddedMetadata -> seq<T>, P: T -> bool)
    requires EmbeddedsWellFormed(embs) && id < |embs|
    requires forall k, j :: 0 <= k < |embs| && 0 <= j < |sel(embs[k])| ==> P(sel(embs[k])[j])
    ensures forall j :: 0 <= j < |TreeItems(embs, id, sel)| ==> P(TreeItems(embs, id, sel)[j])
    decreases |embs| - id, 1, 0
  {
    ForestItemsAll(embs, embs[id].embeddeds, id, sel, P);
  }

  lemma {:induction false} ForestItemsAll<T>(embs: seq<EmbeddedMetadata>, ids: seq<EmbId>, above: int, sel: EmbeddedMetadata -> seq<T>, P: T -> bool)
    requires EmbeddedsWellFormed(embs) && -1 <= above && IdsAbove(embs, ids, above)
    requires forall k, j :: 0 <= k < |embs| && 0 <= j < |sel(embs[k])| ==> P(sel(embs[k])[j])
    ensures forall j :: 0 <= j < |ForestItems(embs, ids, above, sel)| ==> P(ForestItems(embs, ids, above, sel)[j])
    decreases |embs| - above, 0, |ids|
  {
    if ids != [] {
      TreeItemsAll(embs, ids[0], sel, P);
      ForestItemsAll(embs, ids[1..], above, sel, P);
    }
  }

  /** The flattened relations of an entity are all allocated relations when
      its own relations and every embedded's relations are. */
  lemma FlattenedRelationsAllocated(own: seq<RelId>, embs: seq<EmbeddedMetadata>, tops: seq<EmbId>, n: nat)
    requires EmbeddedsWellFormed(embs) && IdsAbove(embs, tops, -1)
    requires AllBelow(own, n)
    requires forall k :: 0 <= k < |embs| ==> AllBelow(embs[k].relations, n)
    ensures AllBelow(Flattened(own, embs, tops, EmbeddedRelations), n)
  {
    var P := (x: RelId) => x < n;
    forall k, j | 0 <= k < |embs| && 0 <= j < |EmbeddedRelations(embs[k])|
      ensures P(EmbeddedRelations(embs[k])[j])
    {
      assert AllBelow(embs[k].relations, n);
    }
    ForestItemsAll(embs, tops, -1, EmbeddedRelations, P);
    var f := ForestItems(embs, tops, -1, EmbeddedRelations);
    assert Flattened(own, embs, tops, EmbeddedRelations) == own + f;
    forall j | 0 <= j < |own + f| ensures (own + f)[j] < n {
      if j >= |own| { assert (own + f)[j] == f[j - |own|]; assert P(f[j - |own|]); }
    }
  }
}

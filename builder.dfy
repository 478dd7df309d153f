/** The build pipeline of `EntityMetadataBuilder`: the arenas that stand for
    the objects the builder allocates, and the phases as methods. */
module Builder {
  import opened Wrappers
  import opened Seqs
  import opened Metadata
  import opened Projection
  import opened ProjectionLemmas
  import opened Rules

  datatype BuildError =
    | EntityNotFound(entityName: string, propertyPath: string)
      // a single-table child with no single-table parent (the source
      // dereferences an undefined `parentEntityMetadata`)
    | UndefinedParent(child: Target)
      // a child declaration the parent's list has no object for (the source
      // stores `undefined` and fails when it builds it)
    | UndefinedInherited(child: Target, propertyName: string)

  function NotFoundMessage(entityName: string, propertyPath: string): string {
    "Entity metadata for " + entityName + "#" + propertyPath
      + " was not found. Check if you specified a correct entity object and if it's connected in the connection options."
  }

  /** The ids of `n` records appended to an arena of size `base`. */
  function Allocated(base: nat, n: nat): (r: seq<nat>)
    ensures |r| == n && forall k :: 0 <= k < n ==> r[k] == base + k
  {
    seq(n, k requires 0 <= k < n => base + k)
  }

  function ColumnNameOf(recs: seq<ColumnMetadata>): nat -> Option<string> {
    (i: nat) => if i < |recs| then Some(recs[i].propertyName) else None
  }

  function RelationNameOf(recs: seq<RelationMetadata>): nat -> Option<string> {
    (i: nat) => if i < |recs| then Some(recs[i].args.propertyName) else None
  }

  function PropertyNameOf(recs: seq<PropertyMetadata>): nat -> Option<string> {
    (i: nat) => if i < |recs| then Some(recs[i].propertyName) else None
  }

  function ColumnArgsName(a: ColumnArgs): string { a.propertyName }
  function RelationArgsName(a: RelationArgs): string { a.propertyName }
  function PropertyArgsName(a: PropertyArgs): string { a.propertyName }

  /** Whether some single-table child entity is declared by `t`. */
  predicate DeclaredOnChild(all: seq<EntityMetadata>, t: Target) {
    exists i :: 0 <= i < |all| && all[i].tableType == EntityChild && all[i].target == t
  }

  /** A column a non-child entity declares: nullable when its declaring
      class is a single-table child, as declared otherwise. */
  function DeclaredColumn(all: seq<EntityMetadata>, e: EntityMetadata, a: ColumnArgs): (c: ColumnMetadata)
    ensures c == NewColumn(e, None, a, NoMark).(isNullable := c.isNullable)
    ensures c.isNullable <==> a.options.nullable || DeclaredOnChild(all, a.target)
  {
    var c := NewColumn(e, None, a, NoMark);
    if DeclaredOnChild(all, a.target) then c.(isNullable := true) else c
  }

  function DeclaredColumnOf(all: seq<EntityMetadata>, e: EntityMetadata): ColumnArgs -> ColumnMetadata {
    (a: ColumnArgs) => DeclaredColumn(all, e, a)
  }

  /** The discriminator column created when the entity declares none of
      that name: a virtual column of the entity's own class. */
  function DiscriminatorColumn(e: EntityMetadata, opts: ColumnOptions): (c: ColumnMetadata)
    ensures c.isDiscriminator && c.isVirtual && !c.isGenerated
    ensures c.propertyName == DiscriminatorName(opts) && c.target == e.target && c.embedded.None?
  {
    NewColumn(e, None, ColumnArgs(e.target, DiscriminatorName(opts), VirtualMode, opts, None), NoMark).(isDiscriminator := true)
  }

  function JunctionColumnOf(j: EntityMetadata): ColumnArgs -> ColumnMetadata {
    (a: ColumnArgs) => NewColumn(j, None, a, NoMark)
  }

  function TreeColumnOf(e: EntityMetadata): TreeColumn -> ColumnMetadata {
    (tc: TreeColumn) => NewColumn(e, None, tc.args, tc.mark)
  }

  function OwnRelationOf(e: EntityMetadata): RelationArgs -> RelationMetadata {
    (a: RelationArgs) => NewRelation(e, None, "", a)
  }

  function PropertyOf(e: EntityMetadata): PropertyArgs -> PropertyMetadata {
    (a: PropertyArgs) => PropertyMetadata(e, a.propertyName)
  }

  /** The direct columns of the given embeddeds, in order. */
  function TopEmbeddedColumns(embs: seq<EmbeddedMetadata>, tops: seq<EmbId>): seq<ColId>
    requires forall k :: 0 <= k < |tops| ==> tops[k] < |embs|
  {
    if tops == [] then [] else embs[tops[0]].columns + TopEmbeddedColumns(embs, tops[1..])
  }

  lemma {:induction false} TopColumnsBelow(embs: seq<EmbeddedMetadata>, tops: seq<EmbId>, n: nat)
    requires forall k :: 0 <= k < |tops| ==> tops[k] < |embs| && AllBelow(embs[tops[k]].columns, n)
    ensures AllBelow(TopEmbeddedColumns(embs, tops), n)
  {
    if tops != [] {
      TopColumnsBelow(embs, tops[1..], n);
    }
  }

  /** The column records with the given columns made nullable, one after
      the other. */
  function MarkedNullable(cols: seq<ColumnMetadata>, targets: seq<ColId>): (r: seq<ColumnMetadata>)
    requires AllBelow(targets, |cols|)
    ensures |r| == |cols|
  {
    if targets == [] then cols
    else
      var m := MarkedNullable(cols, targets[..|targets| - 1]);
      var c := targets[|targets| - 1];
      m[c := m[c].(isNullable := true)]
  }

  /** Marking makes every target nullable, changes no other flag of a
      target, and leaves every other column as it was. */
  lemma {:induction false} MarkedNullableSpec(cols: seq<ColumnMetadata>, targets: seq<ColId>)
    requires AllBelow(targets, |cols|)
    ensures forall k :: 0 <= k < |targets| ==> MarkedNullable(cols, targets)[targets[k]].isNullable
    ensures forall c :: 0 <= c < |cols| ==>
              MarkedNullable(cols, targets)[c] == cols[c].(isNullable := MarkedNullable(cols, targets)[c].isNullable)
    ensures forall c :: 0 <= c < |cols| && c !in targets ==> MarkedNullable(cols, targets)[c] == cols[c]
  {
    if targets != [] {
      var init := targets[..|targets| - 1];
      var last := targets[|targets| - 1];
      MarkedNullableSpec(cols, init);
      var m := MarkedNullable(cols, init);
      var r := MarkedNullable(cols, targets);
      assert r == m[last := m[last].(isNullable := true)];
      forall k | 0 <= k < |targets| ensures r[targets[k]].isNullable {
        if k < |init| {
          assert init[k] == targets[k];
        }
      }
      forall c | 0 <= c < |cols| && c !in targets ensures r[c] == cols[c] {
        assert c !in init;
      }
    }
  }

  /** Under single-table inheritance, the given columns are nullable. */
  ghost predicate NullableKept(targets: seq<ColId>, sti: bool, cols: seq<ColumnMetadata>) {
    sti ==> forall k :: 0 <= k < |targets| ==> targets[k] < |cols| && cols[targets[k]].isNullable
  }

  /** The embedded record `id` itself, sub-embeddeds aside, was built from
      the declaration `d`, with fresh column, relation, relation-id and
      relation-count records. */
  ghost predicate EmbeddedHeadFrom(embs: seq<EmbeddedMetadata>, cols: seq<ColumnMetadata>, rels: seq<RelationMetadata>,
                                   rids: seq<PropertyMetadata>, rcounts: seq<PropertyMetadata>,
                                   e: EntityMetadata, id: EmbId, d: EmbeddedDecl, parent: Option<EmbId>, path: string)
  {
    && id < |embs|
    && var m := embs[id];
    && m.entityMetadata == e && m.parent == parent && m.propertyName == d.propertyName && m.propertyPath == path
    && |m.columns| == |d.columns|
    && (forall j :: 0 <= j < |d.columns| ==>
          m.columns[j] < |cols| && cols[m.columns[j]] == NewColumn(e, Some(id), d.columns[j], NoMark))
    && |m.relations| == |d.relations|
    && (forall j :: 0 <= j < |d.relations| ==>
          m.relations[j] < |rels| && rels[m.relations[j]] == NewRelation(e, Some(id), path + ".", d.relations[j]))
    && m.listeners == Map(d.listeners, NewListener)
    && m.indices == Map(d.indices, NewIndex)
    && m.uniques == Map(d.uniques, NewUnique)
    && |m.relationIds| == |d.relationIds|
    && (forall j :: 0 <= j < |d.relationIds| ==>
          m.relationIds[j] < |rids| && rids[m.relationIds[j]] == PropertyMetadata(e, d.relationIds[j].propertyName))
    && |m.relationCounts| == |d.relationCounts|
    && (forall j :: 0 <= j < |d.relationCounts| ==>
          m.relationCounts[j] < |rcounts| && rcounts[m.relationCounts[j]] == PropertyMetadata(e, d.relationCounts[j].propertyName))
  }

  /** The embedded record `id` and its whole sub-tree were built from the
      declaration `d`. */
  ghost predicate EmbeddedBuiltFrom(embs: seq<EmbeddedMetadata>, cols: seq<ColumnMetadata>, rels: seq<RelationMetadata>,
                                    rids: seq<PropertyMetadata>, rcounts: seq<PropertyMetadata>,
                                    e: EntityMetadata, id: EmbId, d: EmbeddedDecl, parent: Option<EmbId>, path: string)
    decreases d
  {
    && EmbeddedHeadFrom(embs, cols, rels, rids, rcounts, e, id, d, parent, path)
    && var m := embs[id];
    && |m.embeddeds| == |d.embeddeds|
    && (forall j :: 0 <= j < |d.embeddeds| ==>
          EmbeddedBuiltFrom(embs, cols, rels, rids, rcounts, e, m.embeddeds[j], d.embeddeds[j], Some(id),
                            path + "." + d.embeddeds[j].propertyName))
  }

  /** Appending to the arenas keeps an embedded record as built. */
  lemma HeadFromExtends(embs: seq<EmbeddedMetadata>, cols: seq<ColumnMetadata>, rels: seq<RelationMetadata>,
                        rids: seq<PropertyMetadata>, rcounts: seq<PropertyMetadata>,
                        embs': seq<EmbeddedMetadata>, cols': seq<ColumnMetadata>, rels': seq<RelationMetadata>,
                        rids': seq<PropertyMetadata>, rcounts': seq<PropertyMetadata>,
                        e: EntityMetadata, id: EmbId, d: EmbeddedDecl, parent: Option<EmbId>, path: string)
    requires EmbeddedHeadFrom(embs, cols, rels, rids, rcounts, e, id, d, parent, path)
    requires embs <= embs' && cols <= cols' && rels <= rels' && rids <= rids' && rcounts <= rcounts'
    ensures EmbeddedHeadFrom(embs', cols', rels', rids', rcounts', e, id, d, parent, path)
  {
    assert embs'[id] == embs[id];
    var m := embs[id];
    forall j | 0 <= j < |d.columns| ensures cols'[m.columns[j]] == cols[m.columns[j]] { }
    forall j | 0 <= j < |d.relations| ensures rels'[m.relations[j]] == rels[m.relations[j]] { }
    forall j | 0 <= j < |d.relationIds| ensures rids'[m.relationIds[j]] == rids[m.relationIds[j]] { }
    forall j | 0 <= j < |d.relationCounts| ensures rcounts'[m.relationCounts[j]] == rcounts[m.relationCounts[j]] { }
  }

  /** Appending to the arenas keeps what was built. */
  lemma {:induction false} BuiltFromExtends(embs: seq<EmbeddedMetadata>, cols: seq<ColumnMetadata>, rels: seq<RelationMetadata>,
                                            rids: seq<PropertyMetadata>, rcounts: seq<PropertyMetadata>,
                                            embs': seq<EmbeddedMetadata>, cols': seq<ColumnMetadata>, rels': seq<RelationMetadata>,
                                            rids': seq<PropertyMetadata>, rcounts': seq<PropertyMetadata>,
                                            e: EntityMetadata, id: EmbId, d: EmbeddedDecl, parent: Option<EmbId>, path: string)
    requires EmbeddedBuiltFrom(embs, cols, rels, rids, rcounts, e, id, d, parent, path)
    requires embs <= embs' && cols <= cols' && rels <= rels' && rids <= rids' && rcounts <= rcounts'
    ensures EmbeddedBuiltFrom(embs', cols', rels', rids', rcounts', e, id, d, parent, path)
    decreases d
  {
    HeadFromExtends(embs, cols, rels, rids, rcounts, embs', cols', rels', rids', rcounts', e, id, d, parent, path);
    assert embs'[id] == embs[id];
    var m := embs[id];
    forall j | 0 <= j < |d.embeddeds|
      ensures EmbeddedBuiltFrom(embs', cols', rels', rids', rcounts', e, m.embeddeds[j], d.embeddeds[j], Some(id),
                                path + "." + d.embeddeds[j].propertyName)
    {
      BuiltFromExtends(embs, cols, rels, rids, rcounts, embs', cols', rels', rids', rcounts',
                       e, m.embeddeds[j], d.embeddeds[j], Some(id),
                       path + "." + d.embeddeds[j].propertyName);
    }
  }

  /** Rewriting an embedded record that comes before a sub-tree keeps the
      sub-tree as built. */
  lemma {:induction false} BuiltFromUpdateBefore(embs: seq<EmbeddedMetadata>, cols: seq<ColumnMetadata>, rels: seq<RelationMetadata>,
                                                 rids: seq<PropertyMetadata>, rcounts: seq<PropertyMetadata>,
                                                 x: EmbId, r: EmbeddedMetadata,
                                                 e: EntityMetadata, id: EmbId, d: EmbeddedDecl, parent: Option<EmbId>, path: string)
    requires EmbeddedsWellFormed(embs) && x < id
    requires EmbeddedBuiltFrom(embs, cols, rels, rids, rcounts, e, id, d, parent, path)
    ensures EmbeddedBuiltFrom(embs[x := r], cols, rels, rids, rcounts, e, id, d, parent, path)
    decreases d
  {
    var m := embs[id];
    forall j | 0 <= j < |d.embeddeds|
      ensures EmbeddedBuiltFrom(embs[x := r], cols, rels, rids, rcounts, e, m.embeddeds[j], d.embeddeds[j], Some(id),
                                path + "." + d.embeddeds[j].propertyName)
    {
      BuiltFromUpdateBefore(embs, cols, rels, rids, rcounts, x, r, e, m.embeddeds[j], d.embeddeds[j], Some(id),
                            path + "." + d.embeddeds[j].propertyName);
    }
  }

  /** The entity's embeddeds, own relations and flattened relations exist
      in arenas of the given sizes. */
  ghost predicate EntitySized(e: EntityMetadata, embCount: nat, relCount: nat)
    reads e`embeddeds, e`ownRelations, e`derived
  {
    AllBelow(e.embeddeds, embCount) && AllBelow(e.ownRelations, relCount) && AllBelow(e.derived.relations, relCount)
  }

  /** The parent line 52 gives entity `e` of `all`: for a single-table
      child, the first "STI" entity whose inheritance tree holds its class,
      if any; for any other entity, none. */
  function ParentFor(all: seq<EntityMetadata>, e: EntityMetadata): EntityMetadata? {
    if e.tableType != EntityChild then null
    else match StiParentIndex(all, e.target) case Some(p) => all[p] case None => null
  }

  /** Lines 45-48: the tables of the given classes, or every declared
      table, keeping only those that become entities. */
  function SelectedTables(store: Store, entityClasses: Option<seq<Target>>): seq<TableArgs> {
    RealTables(match entityClasses case Some(cs) => store.filterTables(cs) case None => store.tables)
  }

  /** A lazy relation handed over to the relation loader together with the
      entity whose class prototype receives the lazy accessor. */
  datatype Handover = Handover(entity: EntityMetadata, relation: RelId)

  function HandoverTo(e: EntityMetadata): RelId -> Handover {
    (r: RelId) => Handover(e, r)
  }

  /** The handovers of lines 201-205 for one entity: each of its lazy
      relations, in order, when its target is a class. */
  ghost function EntityHandovers(e: EntityMetadata, rels: seq<RelationMetadata>): seq<Handover>
    reads e
  {
    if e.target.ClassTarget? then Map(RelationsIn(rels, e.derived.relations, LazyBucket), HandoverTo(e)) else []
  }

  /** The handovers of lines 198-206 for entities `es`, in order. */
  ghost function LazyHandoversOf(es: seq<EntityMetadata>, rels: seq<RelationMetadata>): seq<Handover>
    reads es
  {
    if es == [] then [] else LazyHandoversOf(es[..|es| - 1], rels) + EntityHandovers(es[|es| - 1], rels)
  }

  /** One entity hands over exactly its lazy relations, and only when its
      target is a class. */
  lemma EntityHandoversMeaning(e: EntityMetadata, rels: seq<RelationMetadata>, h: Handover)
    ensures h in EntityHandovers(e, rels) <==>
              h.entity == e && e.target.ClassTarget? && h.relation in e.derived.relations
              && h.relation < |rels| && rels[h.relation].args.isLazy
  {
    FilterMembers(e.derived.relations, RelationTest(rels, LazyBucket), h.relation);
    MapMembers(RelationsIn(rels, e.derived.relations, LazyBucket), HandoverTo(e), h);
  }

  /** A handover is exactly a lazy relation of a class-targeted entity. */
  lemma {:induction false} LazyHandoversMeaning(es: seq<EntityMetadata>, rels: seq<RelationMetadata>, h: Handover)
    ensures h in LazyHandoversOf(es, rels) <==>
              h.entity in es && h.entity.target.ClassTarget? && h.relation in h.entity.derived.relations
              && h.relation < |rels| && rels[h.relation].args.isLazy
  {
    if es != [] {
      var init, last := es[..|es| - 1], es[|es| - 1];
      assert es == init + [last];
      assert LazyHandoversOf(es, rels) == LazyHandoversOf(init, rels) + EntityHandovers(last, rels);
      assert h.entity in es <==> h.entity in init || h.entity == last;
      LazyHandoversMeaning(init, rels, h);
      EntityHandoversMeaning(last, rels, h);
    }
  }

  /** Relation `id` resolved against the first entity its type points at,
      with the inverse-side path `side` gives for it; none when no entity
      is. */
  function Resolution(all: seq<EntityMetadata>, side: RelationArgs -> string, rels0: seq<RelationMetadata>, id: RelId)
    : Option<RelationMetadata>
    requires id < |rels0|
    reads all
  {
    var r := rels0[id];
    match Find(all, InverseTest(r.args.relatedType))
    case None => None
    case Some(m) => Some(Resolved(r, m, side(r.args), rels0))
  }

  /** Relation `id` of `rels` is relation `id` of `rels0`, resolved. */
  ghost predicate ResolvedIn(all: seq<EntityMetadata>, side: RelationArgs -> string,
                             rels0: seq<RelationMetadata>, rels: seq<RelationMetadata>, id: RelId)
    reads all
  {
    id < |rels0| && id < |rels| && Resolution(all, side, rels0, id) == Some(rels[id])
  }

  /** One step of the inverse pass: recording relation `rs[i]`'s resolution
      `x` keeps every earlier relation of `rs` resolved and every record the
      same but for its inverse side. */
  lemma ResolveStep(all: seq<EntityMetadata>, side: RelationArgs -> string, rels0: seq<RelationMetadata>,
                    recs: seq<RelationMetadata>, rs: seq<RelId>, i: nat, x: RelationMetadata)
    requires i < |rs| && rs[i] < |recs| == |rels0|
    requires forall y :: 0 <= y < |recs| ==> SameButInverse(rels0[y], recs[y])
    requires forall y :: 0 <= y < |recs| && y !in rs ==> recs[y] == rels0[y]
    requires forall k :: 0 <= k < i ==> ResolvedIn(all, side, rels0, recs, rs[k])
    requires Resolution(all, side, rels0, rs[i]) == Some(x)
    ensures forall y :: 0 <= y < |recs| ==> SameButInverse(rels0[y], recs[rs[i] := x][y])
    ensures forall y :: 0 <= y < |recs| && y !in rs ==> recs[rs[i] := x][y] == rels0[y]
    ensures forall k :: 0 <= k < i + 1 ==> ResolvedIn(all, side, rels0, recs[rs[i] := x], rs[k])
  {
  }

  /** No entity is the one relation `id`'s type points at. */
  ghost predicate Unresolvable(all: seq<EntityMetadata>, side: RelationArgs -> string, rels0: seq<RelationMetadata>, id: RelId)
    reads all
  {
    id < |rels0| && Resolution(all, side, rels0, id).None?
  }

  class EntityMetadataBuilder {
    const store: Store
    const collaborators: Collaborators

    // The arenas: every column, relation, embedded, relation-id and
    // relation-count object the build allocates, by id.
    var columnRecords: seq<ColumnMetadata>
    var relationRecords: seq<RelationMetadata>
    var embeddedRecords: seq<EmbeddedMetadata>
    var relationIdRecords: seq<PropertyMetadata>
    var relationCountRecords: seq<PropertyMetadata>

    constructor (store: Store, collaborators: Collaborators)
      ensures this.store == store && this.collaborators == collaborators
      ensures columnRecords == [] && relationRecords == [] && embeddedRecords == []
      ensures relationIdRecords == [] && relationCountRecords == []
    {
      this.store := store;
      this.collaborators := collaborators;
      columnRecords, relationRecords, embeddedRecords := [], [], [];
      relationIdRecords, relationCountRecords := [], [];
    }

    /** The arenas are consistent: the embedded forest is well formed and
        every embedded's relations, and every relation's embedded, exist. */
    ghost predicate RecordsValid()
      reads this`embeddedRecords, this`relationRecords
    {
      && EmbeddedsWellFormed(embeddedRecords)
      && (forall k :: 0 <= k < |embeddedRecords| ==> AllBelow(embeddedRecords[k].relations, |relationRecords|))
      && (forall k :: 0 <= k < |relationRecords| ==>
            relationRecords[k].embedded.Some? ==> relationRecords[k].embedded.value < |embeddedRecords|)
    }

    /** Every relation record belongs to one of the given entities. */
    ghost predicate OwnedBy(ents: seq<EntityMetadata>)
      reads this`relationRecords
    {
      forall k :: 0 <= k < |relationRecords| ==> relationRecords[k].entityMetadata in ents
    }

    /** The arena invariant over the entities built so far. */
    ghost predicate Valid(ents: seq<EntityMetadata>)
      reads this`embeddedRecords, this`relationRecords
    {
      RecordsValid() && OwnedBy(ents)
    }

    /** Every entity's ids are allocated in the arenas. */
    ghost predicate AllSized(es: seq<EntityMetadata>)
      reads this`embeddedRecords, this`relationRecords, es`embeddeds, es`ownRelations, es`derived
    {
      forall k :: 0 <= k < |es| ==> EntitySized(es[k], |embeddedRecords|, |relationRecords|)
    }

    // -----------------------------------------------------------------
    // createEntityMetadata, computeParentEntityMetadata
    // -----------------------------------------------------------------

    /** A bare entity for a table declaration, with its inheritance tree
        (single-table children's classes included for a single-table root or
        child), its inheritance pattern and its tree type. */
    method CreateEntityMetadata(t: TableArgs) returns (e: EntityMetadata)
      ensures fresh(e)
      ensures e.target == t.target && e.tableType == t.tableType && e.name == TargetName(t.target)
      ensures e.inheritanceTree == InheritanceTreeFor(store, t)
      ensures e.inheritancePattern == (match store.findInheritanceType(t.target)
                                       case Some(inh) => inh.pattern case None => None)
      ensures e.treeType == store.findTree(t.target)
      ensures e.parentEntityMetadata == null && e.ownColumns == [] && e.ownRelations == [] && e.embeddeds == []
      ensures e.derived == NoDerived
    {
      var inheritance := store.findInheritanceType(t.target);
      e := new EntityMetadata(t.target, TargetName(t.target), t.tableType, InheritanceTreeFor(store, t),
                              match inheritance case Some(inh) => inh.pattern case None => None,
                              store.findTree(t.target));
    }

    /** A single-table child's parent is the first "STI" entity whose
        inheritance tree holds the child's class; other entities are left
        without one. */
    method ComputeParentEntityMetadata(all: seq<EntityMetadata>, e: EntityMetadata)
      modifies e`parentEntityMetadata
      ensures e.tableType == EntityChild ==>
                e.parentEntityMetadata == (match StiParentIndex(all, e.target)
                                           case Some(k) => all[k] case None => null)
      ensures e.tableType != EntityChild ==> e.parentEntityMetadata == old(e.parentEntityMetadata)
    {
      if e.tableType == EntityChild {
        match StiParentIndex(all, e.target)
        case Some(k) => e.parentEntityMetadata := all[k];
        case None => e.parentEntityMetadata := null;
      }
    }

    /** Each entity's children are the entities whose class inherits from
        its class. */
    method ComputeChildEntityMetadatas(all: seq<EntityMetadata>)
      modifies all`childEntityMetadatas
      ensures forall i :: 0 <= i < |all| ==> all[i].childEntityMetadatas == ChildrenOf(all, all[i], store.isInherited)
    {
      var i := 0;
      while i < |all|
        invariant 0 <= i <= |all|
        invariant forall k :: 0 <= k < i ==> all[k].childEntityMetadatas == ChildrenOf(all, all[k], store.isInherited)
      {
        all[i].childEntityMetadatas := ChildrenOf(all, all[i], store.isInherited);
        i := i + 1;
      }
    }

    // -----------------------------------------------------------------
    // createEmbeddedsRecursively
    // -----------------------------------------------------------------

    /** Builds one embedded per declaration, each with its columns,
        relations, listeners, indices, uniques, relation ids and counts, and
        its sub-embeddeds, recursively. */
    method CreateEmbeddedsRecursively(e: EntityMetadata, decls: seq<EmbeddedDecl>, parent: Option<EmbId>, pathPrefix: string)
      returns (ids: seq<EmbId>)
      requires EmbeddedsWellFormed(embeddedRecords)
      modifies this`embeddedRecords, this`columnRecords, this`relationRecords, this`relationIdRecords, this`relationCountRecords
      ensures EmbeddedsWellFormed(embeddedRecords)
      ensures old(embeddedRecords) <= embeddedRecords && old(columnRecords) <= columnRecords
      ensures old(relationRecords) <= relationRecords
      ensures old(relationIdRecords) <= relationIdRecords && old(relationCountRecords) <= relationCountRecords
      ensures forall k :: |old(relationRecords)| <= k < |relationRecords| ==>
                relationRecords[k].entityMetadata == e && relationRecords[k].embedded.Some?
                && relationRecords[k].embedded.value < |embeddedRecords|
      ensures forall k :: |old(embeddedRecords)| <= k < |embeddedRecords| ==>
                AllBelow(embeddedRecords[k].relations, |relationRecords|)
      ensures |ids| == |decls| && IdsAbove(embeddedRecords, ids, |old(embeddedRecords)| - 1)
      ensures forall k :: 0 <= k < |decls| ==>
                EmbeddedBuiltFrom(embeddedRecords, columnRecords, relationRecords, relationIdRecords, relationCountRecords,
                                  e, ids[k], decls[k], parent, pathPrefix + decls[k].propertyName)
      decreases decls, 1
    {
      ids := [];
      var i := 0;
      while i < |decls|
        invariant 0 <= i <= |decls|
        invariant EmbeddedsWellFormed(embeddedRecords)
        invariant old(embeddedRecords) <= embeddedRecords && old(columnRecords) <= columnRecords
        invariant old(relationRecords) <= relationRecords
        invariant old(relationIdRecords) <= relationIdRecords && old(relationCountRecords) <= relationCountRecords
        invariant forall k :: |old(relationRecords)| <= k < |relationRecords| ==>
                    relationRecords[k].entityMetadata == e && relationRecords[k].embedded.Some?
                    && relationRecords[k].embedded.value < |embeddedRecords|
        invariant forall k :: |old(embeddedRecords)| <= k < |embeddedRecords| ==>
                    AllBelow(embeddedRecords[k].relations, |relationRecords|)
        invariant |ids| == i && IdsAbove(embeddedRecords, ids, |old(embeddedRecords)| - 1)
        invariant forall k :: 0 <= k < i ==>
                    EmbeddedBuiltFrom(embeddedRecords, columnRecords, relationRecords, relationIdRecords, relationCountRecords,
                                      e, ids[k], decls[k], parent, pathPrefix + decls[k].propertyName)
      {
        ghost var embs0, cols0, rels0 := embeddedRecords, columnRecords, relationRecords;
        ghost var rids0, rcounts0 := relationIdRecords, relationCountRecords;
        var id := CreateEmbedded(e, decls[i], parent, pathPrefix + decls[i].propertyName);
        forall k | 0 <= k < i
          ensures EmbeddedBuiltFrom(embeddedRecords, columnRecords, relationRecords, relationIdRecords, relationCountRecords,
                                    e, ids[k], decls[k], parent, pathPrefix + decls[k].propertyName)
        {
          BuiltFromExtends(embs0, cols0, rels0, rids0, rcounts0,
                           embeddedRecords, columnRecords, relationRecords, relationIdRecords, relationCountRecords,
                           e, ids[k], decls[k], parent, pathPrefix + decls[k].propertyName);
        }
        ids := ids + [id];
        i := i + 1;
      }
    }

    /** Fresh column records for an embedded's column declarations. */
    method AppendEmbeddedColumns(e: EntityMetadata, id: EmbId, decls: seq<ColumnArgs>) returns (ids: seq<ColId>)
      modifies this`columnRecords
      ensures old(columnRecords) <= columnRecords
      ensures |ids| == |decls| && forall j :: 0 <= j < |decls| ==>
                ids[j] < |columnRecords| && columnRecords[ids[j]] == NewColumn(e, Some(id), decls[j], NoMark)
    {
      ids := Allocated(|columnRecords|, |decls|);
      columnRecords := columnRecords + Map(decls, (a: ColumnArgs) => NewColumn(e, Some(id), a, NoMark));
    }

    /** Fresh relation records for an embedded's relation declarations,
        each belonging to the entity and to the embedded. */
    method AppendEmbeddedRelations(e: EntityMetadata, id: EmbId, prefix: string, decls: seq<RelationArgs>) returns (ids: seq<RelId>)
      modifies this`relationRecords
      ensures old(relationRecords) <= relationRecords
      ensures forall k :: |old(relationRecords)| <= k < |relationRecords| ==>
                relationRecords[k].entityMetadata == e && relationRecords[k].embedded == Some(id)
      ensures |ids| == |decls| && forall j :: 0 <= j < |decls| ==>
                ids[j] < |relationRecords| && relationRecords[ids[j]] == NewRelation(e, Some(id), prefix, decls[j])
    {
      ids := Allocated(|relationRecords|, |decls|);
      ghost var n := |relationRecords|;
      relationRecords := relationRecords + Map(decls, (a: RelationArgs) => NewRelation(e, Some(id), prefix, a));
      assert forall k :: n <= k < |relationRecords| ==> relationRecords[k] == NewRelation(e, Some(id), prefix, decls[k - n]);
    }

    /** Allocates one embedded declaration's columns, relations, relation
        ids and counts, and its embedded record, still without sub-embeddeds. */
    method PushEmbedded(e: EntityMetadata, d: EmbeddedDecl, parent: Option<EmbId>, path: string) returns (id: EmbId)
      requires EmbeddedsWellFormed(embeddedRecords)
      modifies this`embeddedRecords, this`columnRecords, this`relationRecords, this`relationIdRecords, this`relationCountRecords
      ensures EmbeddedsWellFormed(embeddedRecords)
      ensures id == |old(embeddedRecords)| && |embeddedRecords| == id + 1 && old(embeddedRecords) <= embeddedRecords
      ensures old(columnRecords) <= columnRecords && old(relationRecords) <= relationRecords
      ensures old(relationIdRecords) <= relationIdRecords && old(relationCountRecords) <= relationCountRecords
      ensures forall k :: |old(relationRecords)| <= k < |relationRecords| ==>
                relationRecords[k].entityMetadata == e && relationRecords[k].embedded == Some(id)
      ensures AllBelow(embeddedRecords[id].relations, |relationRecords|) && embeddedRecords[id].embeddeds == []
      ensures EmbeddedHeadFrom(embeddedRecords, columnRecords, relationRecords, relationIdRecords, relationCountRecords,
                               e, id, d, parent, path)
    {
      id := |embeddedRecords|;
      var colIds := AppendEmbeddedColumns(e, id, d.columns);
      var relIds := AppendEmbeddedRelations(e, id, path + ".", d.relations);
      var idIds := Allocated(|relationIdRecords|, |d.relationIds|);
      relationIdRecords := relationIdRecords + Map(d.relationIds, (a: PropertyArgs) => PropertyMetadata(e, a.propertyName));
      var countIds := Allocated(|relationCountRecords|, |d.relationCounts|);
      relationCountRecords := relationCountRecords + Map(d.relationCounts, (a: PropertyArgs) => PropertyMetadata(e, a.propertyName));
      var m := EmbeddedMetadata(e, parent, d.propertyName, path, colIds, relIds,
                                Map(d.listeners, NewListener), Map(d.indices, NewIndex), Map(d.uniques, NewUnique),
                                idIds, countIds, []);
      embeddedRecords := embeddedRecords + [m];
    }

    /** Builds the embedded of one declaration with its whole sub-tree. */
    method CreateEmbedded(e: EntityMetadata, d: EmbeddedDecl, parent: Option<EmbId>, path: string) returns (id: EmbId)
      requires EmbeddedsWellFormed(embeddedRecords)
      modifies this`embeddedRecords, this`columnRecords, this`relationRecords, this`relationIdRecords, this`relationCountRecords
      ensures EmbeddedsWellFormed(embeddedRecords)
      ensures old(embeddedRecords) <= embeddedRecords && old(columnRecords) <= columnRecords
      ensures old(relationRecords) <= relationRecords
      ensures old(relationIdRecords) <= relationIdRecords && old(relationCountRecords) <= relationCountRecords
      ensures forall k :: |old(relationRecords)| <= k < |relationRecords| ==>
                relationRecords[k].entityMetadata == e && relationRecords[k].embedded.Some?
                && relationRecords[k].embedded.value < |embeddedRecords|
      ensures forall k :: |old(embeddedRecords)| <= k < |embeddedRecords| ==>
                AllBelow(embeddedRecords[k].relations, |relationRecords|)
      ensures id == |old(embeddedRecords)| && id < |embeddedRecords|
      ensures EmbeddedBuiltFrom(embeddedRecords, columnRecords, relationRecords, relationIdRecords, relationCountRecords,
                                e, id, d, parent, path)
      decreases d, 0
    {
      id := PushEmbedded(e, d, parent, path);
      ghost var embs0, cols0, rels0 := embeddedRecords, columnRecords, relationRecords;
      ghost var rids0, rcounts0 := relationIdRecords, relationCountRecords;
      var children := CreateEmbeddedsRecursively(e, d.embeddeds, Some(id), path + ".");
      HeadFromExtends(embs0, cols0, rels0, rids0, rcounts0,
                      embeddedRecords, columnRecords, relationRecords, relationIdRecords, relationCountRecords,
                      e, id, d, parent, path);
      ghost var embs1 := embeddedRecords;
      embeddedRecords := embeddedRecords[id := embeddedRecords[id].(embeddeds := children)];
      forall j | 0 <= j < |d.embeddeds|
        ensures EmbeddedBuiltFrom(embeddedRecords, columnRecords, relationRecords, relationIdRecords, relationCountRecords,
                                  e, children[j], d.embeddeds[j], Some(id),
                                  path + "." + d.embeddeds[j].propertyName)
      {
        BuiltFromUpdateBefore(embs1, columnRecords, relationRecords, relationIdRecords, relationCountRecords,
                              id, embs1[id].(embeddeds := children),
                              e, children[j], d.embeddeds[j], Some(id), path + "." + d.embeddeds[j].propertyName);
      }
    }

    // -----------------------------------------------------------------
    // computeEntityMetadataStep1, block by block
    // -----------------------------------------------------------------

    /** A single-table entity's top-level embeddeds get nullable direct
        columns; every other column record is left as it was. */
    method MarkEmbeddedColumnsNullable(tops: seq<EmbId>)
      requires IdsAbove(embeddedRecords, tops, -1)
      requires AllBelow(TopEmbeddedColumns(embeddedRecords, tops), |columnRecords|)
      modifies this`columnRecords
      ensures columnRecords == MarkedNullable(old(columnRecords), TopEmbeddedColumns(embeddedRecords, tops))
    {
      var targets := TopEmbeddedColumns(embeddedRecords, tops);
      var i := 0;
      while i < |targets|
        invariant 0 <= i <= |targets|
        invariant columnRecords == MarkedNullable(old(columnRecords), targets[..i])
      {
        assert targets[..i + 1][..i] == targets[..i];
        var c := targets[i];
        columnRecords := columnRecords[c := columnRecords[c].(isNullable := true)];
        i := i + 1;
      }
      assert targets[..i] == targets;
    }

    /** The entity's own columns: a single-table child reuses its parent's
        column objects by property name (and fails on a name the parent does
        not have); any other entity gets fresh columns, nullable when declared
        on a single-table child class. */
    method BuildOwnColumns(all: seq<EntityMetadata>, e: EntityMetadata, decls: seq<ColumnArgs>) returns (o: Outcome<BuildError>)
      requires e.tableType == EntityChild ==> e.parentEntityMetadata != null
      modifies this`columnRecords, e`ownColumns
      ensures |old(columnRecords)| <= |columnRecords|
      ensures o.Pass? ==> |e.ownColumns| == |decls|
      ensures e.tableType == EntityChild ==>
                columnRecords == old(columnRecords)
                && match ReuseByName(old(e.parentEntityMetadata.ownColumns), ColumnNameOf(columnRecords), Map(decls, ColumnArgsName))
                   case Ok(ids) => o.Pass? && e.ownColumns == ids
                   case Err(n) => o == Fail(UndefinedInherited(e.target, n)) && e.ownColumns == old(e.ownColumns)
      ensures e.tableType != EntityChild ==>
                o.Pass? && columnRecords == old(columnRecords) + Map(decls, DeclaredColumnOf(all, e))
                && e.ownColumns == Allocated(|old(columnRecords)|, |decls|)
    {
      if e.tableType == EntityChild {
        var r := ReuseByName(e.parentEntityMetadata.ownColumns, ColumnNameOf(columnRecords), Map(decls, ColumnArgsName));
        match r
        case Ok(ids) => e.ownColumns := ids; o := Pass;
        case Err(n) => o := Fail(UndefinedInherited(e.target, n));
      } else {
        e.ownColumns := Allocated(|columnRecords|, |decls|);
        columnRecords := columnRecords + Map(decls, DeclaredColumnOf(all, e));
        o := Pass;
      }
    }

    /** The declared discriminator column: an own column with the
        discriminator's name is marked as the discriminator, otherwise a new
        virtual one is appended; either way the entity then owns a
        discriminator column of that name. */
    method AddDiscriminatorColumn(e: EntityMetadata, opts: ColumnOptions)
      modifies this`columnRecords, e`ownColumns
      ensures old(e.ownColumns) <= e.ownColumns && |old(columnRecords)| <= |columnRecords|
      ensures match Find(old(e.ownColumns), NameTest(ColumnNameOf(old(columnRecords)), DiscriminatorName(opts)))
              case Some(c) =>
                e.ownColumns == old(e.ownColumns)
                && columnRecords == old(columnRecords)[c := old(columnRecords)[c].(isDiscriminator := true)]
              case None =>
                e.ownColumns == old(e.ownColumns) + [|old(columnRecords)|]
                && columnRecords == old(columnRecords) + [DiscriminatorColumn(e, opts)]
      ensures exists k :: 0 <= k < |e.ownColumns| && e.ownColumns[k] < |columnRecords|
                          && columnRecords[e.ownColumns[k]].isDiscriminator
                          && columnRecords[e.ownColumns[k]].propertyName == DiscriminatorName(opts)
    {
      var name := DiscriminatorName(opts);
      match Find(e.ownColumns, NameTest(ColumnNameOf(columnRecords), name))
      case Some(c) =>
        columnRecords := columnRecords[c := columnRecords[c].(isDiscriminator := true)];
      case None =>
        e.ownColumns := e.ownColumns + [|columnRecords|];
        columnRecords := columnRecords + [DiscriminatorColumn(e, opts)];
        assert e.ownColumns[|e.ownColumns| - 1] == |columnRecords| - 1;
    }

    /** A single-table child also lists its parent's (first) discriminator
        column, the very same column object, unless it already does. */
    method AddParentDiscriminatorColumn(e: EntityMetadata)
      requires e.parentEntityMetadata != null
      modifies e`ownColumns
      ensures old(e.ownColumns) <= e.ownColumns
      ensures var found := Find(old(e.parentEntityMetadata.ownColumns), ColumnTest(columnRecords, DiscriminatorBucket));
              e.ownColumns == old(e.ownColumns)
                              + (if found.Some? && found.value !in old(e.ownColumns) then [found.value] else [])
      ensures var found := Find(old(e.parentEntityMetadata.ownColumns), ColumnTest(columnRecords, DiscriminatorBucket));
              found.Some? ==> found.value in e.ownColumns
    {
      var found := Find(e.parentEntityMetadata.ownColumns, ColumnTest(columnRecords, DiscriminatorBucket));
      if found.Some? && found.value !in e.ownColumns {
        e.ownColumns := e.ownColumns + [found.value];
      }
    }

    /** The tree strategy's bookkeeping columns, appended as own columns. */
    method AddTreeColumns(e: EntityMetadata)
      modifies this`columnRecords, e`ownColumns
      ensures old(e.ownColumns) <= e.ownColumns && |old(columnRecords)| <= |columnRecords|
      ensures columnRecords == old(columnRecords) + Map(TreeColumnsFor(e.treeType, e.target), TreeColumnOf(e))
      ensures e.ownColumns == old(e.ownColumns) + Allocated(|old(columnRecords)|, |TreeColumnsFor(e.treeType, e.target)|)
    {
      var tcs := TreeColumnsFor(e.treeType, e.target);
      e.ownColumns := e.ownColumns + Allocated(|columnRecords|, |tcs|);
      columnRecords := columnRecords + Map(tcs, TreeColumnOf(e));
    }

    /** The entity's own relations: reused from the parent by property name
        for a single-table child, fresh otherwise. */
    method BuildOwnRelations(all: seq<EntityMetadata>, e: EntityMetadata, decls: seq<RelationArgs>) returns (o: Outcome<BuildError>)
      requires e.tableType == EntityChild ==> e.parentEntityMetadata != null
      requires e in all && Valid(all)
      modifies this`relationRecords, e`ownRelations
      ensures Valid(all)
      ensures e.tableType == EntityChild ==>
                relationRecords == old(relationRecords)
                && match ReuseByName(old(e.parentEntityMetadata.ownRelations), RelationNameOf(relationRecords), Map(decls, RelationArgsName))
                   case Ok(ids) => o.Pass? && e.ownRelations == ids
                   case Err(n) => o == Fail(UndefinedInherited(e.target, n)) && e.ownRelations == old(e.ownRelations)
      ensures e.tableType != EntityChild ==>
                o.Pass? && relationRecords == old(relationRecords) + Map(decls, OwnRelationOf(e))
                && e.ownRelations == Allocated(|old(relationRecords)|, |decls|)
      ensures o.Pass? ==> AllBelow(e.ownRelations, |relationRecords|)
    {
      if e.tableType == EntityChild {
        var r := ReuseByName(e.parentEntityMetadata.ownRelations, RelationNameOf(relationRecords), Map(decls, RelationArgsName));
        ReuseByNameOk(e.parentEntityMetadata.ownRelations, RelationNameOf(relationRecords), Map(decls, RelationArgsName));
        match r
        case Ok(ids) =>
          forall k | 0 <= k < |ids| ensures ids[k] < |relationRecords| {
            assert RelationNameOf(relationRecords)(ids[k]).Some?;
          }
          e.ownRelations := ids;
          o := Pass;
        case Err(n) => o := Fail(UndefinedInherited(e.target, n));
      } else {
        e.ownRelations := Allocated(|relationRecords|, |decls|);
        relationRecords := relationRecords + Map(decls, OwnRelationOf(e));
        o := Pass;
      }
    }

    /** The entity's relation ids: reused from the parent by property name
        for a single-table child, fresh otherwise. */
    method BuildRelationIds(e: EntityMetadata, decls: seq<PropertyArgs>) returns (o: Outcome<BuildError>)
      requires e.tableType == EntityChild ==> e.parentEntityMetadata != null
      modifies this`relationIdRecords, e`relationIds
      ensures e.tableType == EntityChild ==>
                relationIdRecords == old(relationIdRecords)
                && match ReuseByName(old(e.parentEntityMetadata.relationIds), PropertyNameOf(relationIdRecords), Map(decls, PropertyArgsName))
                   case Ok(ids) => o.Pass? && e.relationIds == ids
                   case Err(n) => o == Fail(UndefinedInherited(e.target, n)) && e.relationIds == old(e.relationIds)
      ensures e.tableType != EntityChild ==>
                o.Pass? && relationIdRecords == old(relationIdRecords) + Map(decls, PropertyOf(e))
                && e.relationIds == Allocated(|old(relationIdRecords)|, |decls|)
    {
      if e.tableType == EntityChild {
        var r := ReuseByName(e.parentEntityMetadata.relationIds, PropertyNameOf(relationIdRecords), Map(decls, PropertyArgsName));
        match r
        case Ok(ids) => e.relationIds := ids; o := Pass;
        case Err(n) => o := Fail(UndefinedInherited(e.target, n));
      } else {
        e.relationIds := Allocated(|relationIdRecords|, |decls|);
        relationIdRecords := relationIdRecords + Map(decls, PropertyOf(e));
        o := Pass;
      }
    }

    /** The entity's relation counts: reused from the parent by property
        name for a single-table child, fresh otherwise. */
    method BuildRelationCounts(e: EntityMetadata, decls: seq<PropertyArgs>) returns (o: Outcome<BuildError>)
      requires e.tableType == EntityChild ==> e.parentEntityMetadata != null
      modifies this`relationCountRecords, e`relationCounts
      ensures e.tableType == EntityChild ==>
                relationCountRecords == old(relationCountRecords)
                && match ReuseByName(old(e.parentEntityMetadata.relationCounts), PropertyNameOf(relationCountRecords), Map(decls, PropertyArgsName))
                   case Ok(ids) => o.Pass? && e.relationCounts == ids
                   case Err(n) => o == Fail(UndefinedInherited(e.target, n)) && e.relationCounts == old(e.relationCounts)
      ensures e.tableType != EntityChild ==>
                o.Pass? && relationCountRecords == old(relationCountRecords) + Map(decls, PropertyOf(e))
                && e.relationCounts == Allocated(|old(relationCountRecords)|, |decls|)
    {
      if e.tableType == EntityChild {
        var r := ReuseByName(e.parentEntityMetadata.relationCounts, PropertyNameOf(relationCountRecords), Map(decls, PropertyArgsName));
        match r
        case Ok(ids) => e.relationCounts := ids; o := Pass;
        case Err(n) => o := Fail(UndefinedInherited(e.target, n));
      } else {
        e.relationCounts := Allocated(|relationCountRecords|, |decls|);
        relationCountRecords := relationCountRecords + Map(decls, PropertyOf(e));
        o := Pass;
      }
    }

    /** The entity's embeddeds, built recursively from the declarations of
        its inheritance tree; under single-table inheritance the direct
        columns of its top-level embeddeds become nullable. `built` is the
        column arena as it stood before that marking. */
    method BuildEmbeddeds(all: seq<EntityMetadata>, e: EntityMetadata) returns (ghost built: seq<ColumnMetadata>)
      requires e in all && Valid(all)
      modifies this`embeddedRecords, this`columnRecords, this`relationRecords, this`relationIdRecords, this`relationCountRecords
      modifies e`embeddeds
      ensures Valid(all)
      ensures old(columnRecords) <= built && |built| == |columnRecords| && |old(relationRecords)| <= |relationRecords|
      ensures |old(embeddedRecords)| <= |embeddedRecords|
      ensures |e.embeddeds| == |store.filterEmbeddeds(e.inheritanceTree)| && AllBelow(e.embeddeds, |embeddedRecords|)
      ensures forall k :: 0 <= k < |e.embeddeds| ==>
                && embeddedRecords[e.embeddeds[k]].parent.None?
                && embeddedRecords[e.embeddeds[k]].propertyPath == store.filterEmbeddeds(e.inheritanceTree)[k].propertyName
      ensures AllBelow(TopEmbeddedColumns(embeddedRecords, e.embeddeds), |columnRecords|)
      ensures NullableKept(TopEmbeddedColumns(embeddedRecords, e.embeddeds), e.inheritancePattern == Some("STI"), columnRecords)
      ensures forall k :: 0 <= k < |e.embeddeds| ==>
                EmbeddedBuiltFrom(embeddedRecords, built, relationRecords, relationIdRecords, relationCountRecords,
                                  e, e.embeddeds[k], store.filterEmbeddeds(e.inheritanceTree)[k], None,
                                  store.filterEmbeddeds(e.inheritanceTree)[k].propertyName)
      ensures columnRecords == if e.inheritancePattern == Some("STI")
                               then MarkedNullable(built, TopEmbeddedColumns(embeddedRecords, e.embeddeds)) else built
    {
      var decls := store.filterEmbeddeds(e.inheritanceTree);
      var tops := CreateEmbeddedsRecursively(e, decls, None, "");
      built := columnRecords;
      forall k | 0 <= k < |tops|
        ensures EmbeddedBuiltFrom(embeddedRecords, built, relationRecords, relationIdRecords, relationCountRecords,
                                  e, tops[k], decls[k], None, decls[k].propertyName)
        ensures AllBelow(embeddedRecords[tops[k]].columns, |built|)
        ensures embeddedRecords[tops[k]].parent.None? && embeddedRecords[tops[k]].propertyPath == decls[k].propertyName
      {
        assert "" + decls[k].propertyName == decls[k].propertyName;
      }
      e.embeddeds := tops;
      assert Valid(all);
      var targets := TopEmbeddedColumns(embeddedRecords, tops);
      TopColumnsBelow(embeddedRecords, tops, |columnRecords|);
      if e.inheritancePattern == Some("STI") {
        MarkEmbeddedColumnsNullable(tops);
        MarkedNullableSpec(built, targets);
      }
    }

    /** BuildEmbeddeds for step 1, which needs only that the new ids stay
        within the arenas. It exists to keep step 1's proof small. */
    method BuildEmbeddedsSized(all: seq<EntityMetadata>, e: EntityMetadata)
      requires e in all && Valid(all)
      modifies this`embeddedRecords, this`columnRecords, this`relationRecords, this`relationIdRecords, this`relationCountRecords
      modifies e`embeddeds
      ensures Valid(all)
      ensures |old(columnRecords)| <= |columnRecords| && |old(relationRecords)| <= |relationRecords|
      ensures |old(embeddedRecords)| <= |embeddedRecords| && AllBelow(e.embeddeds, |embeddedRecords|)
    {
      ghost var built := BuildEmbeddeds(all, e);
    }

    /** The column block of step 1: own columns, then the declared
        discriminator, then the parent's discriminator for a single-table
        child, then the tree columns. */
    method BuildColumns(all: seq<EntityMetadata>, e: EntityMetadata) returns (o: Outcome<BuildError>)
      requires e.tableType == EntityChild ==> e.parentEntityMetadata != null
      modifies this`columnRecords, e`ownColumns
      ensures |old(columnRecords)| <= |columnRecords|
      ensures o.Pass? ==> |e.ownColumns| >= |store.filterColumns(e.inheritanceTree)|
    {
      var inheritance := store.findInheritanceType(e.target);
      o := BuildOwnColumns(all, e, store.filterColumns(e.inheritanceTree));
      if o.Fail? { return; }
      ghost var declared := |e.ownColumns|;
      if inheritance.Some? && inheritance.value.column.Some? {
        AddDiscriminatorColumn(e, inheritance.value.column.value);
      }
      assert declared <= |e.ownColumns|;
      if e.tableType == EntityChild {
        AddParentDiscriminatorColumn(e);
      }
      assert declared <= |e.ownColumns|;
      AddTreeColumns(e);
    }

    /** The relation block of step 1: own relations, relation ids and
        relation counts. */
    method BuildRelations(all: seq<EntityMetadata>, e: EntityMetadata) returns (o: Outcome<BuildError>)
      requires e.tableType == EntityChild ==> e.parentEntityMetadata != null
      requires e in all && Valid(all)
      modifies this`relationRecords, this`relationIdRecords, this`relationCountRecords
      modifies e`ownRelations, e`relationIds, e`relationCounts
      ensures Valid(all) && |old(relationRecords)| <= |relationRecords|
      ensures o.Pass? ==> AllBelow(e.ownRelations, |relationRecords|)
      ensures e.tableType != EntityChild ==>
                o.Pass?
                && relationRecords == old(relationRecords) + Map(store.filterRelations(e.inheritanceTree), OwnRelationOf(e))
                && e.ownRelations == Allocated(|old(relationRecords)|, |store.filterRelations(e.inheritanceTree)|)
                && relationIdRecords == old(relationIdRecords) + Map(store.filterRelationIds(e.inheritanceTree), PropertyOf(e))
                && e.relationIds == Allocated(|old(relationIdRecords)|, |store.filterRelationIds(e.inheritanceTree)|)
                && relationCountRecords == old(relationCountRecords) + Map(store.filterRelationCounts(e.inheritanceTree), PropertyOf(e))
                && e.relationCounts == Allocated(|old(relationCountRecords)|, |store.filterRelationCounts(e.inheritanceTree)|)
      ensures e.tableType == EntityChild ==>
                relationRecords == old(relationRecords) && relationIdRecords == old(relationIdRecords)
                && relationCountRecords == old(relationCountRecords)
      ensures e.tableType == EntityChild && o.Pass? ==>
                ReuseByName(old(e.parentEntityMetadata.ownRelations), RelationNameOf(relationRecords),
                            Map(store.filterRelations(e.inheritanceTree), RelationArgsName)) == Ok(e.ownRelations)
                && ReuseByName(old(e.parentEntityMetadata.relationIds), PropertyNameOf(relationIdRecords),
                               Map(store.filterRelationIds(e.inheritanceTree), PropertyArgsName)) == Ok(e.relationIds)
                && ReuseByName(old(e.parentEntityMetadata.relationCounts), PropertyNameOf(relationCountRecords),
                               Map(store.filterRelationCounts(e.inheritanceTree), PropertyArgsName)) == Ok(e.relationCounts)
    {
      o := BuildOwnRelations(all, e, store.filterRelations(e.inheritanceTree));
      if o.Fail? { return; }
      o := BuildRelationIds(e, store.filterRelationIds(e.inheritanceTree));
      if o.Fail? { return; }
      o := BuildRelationCounts(e, store.filterRelationCounts(e.inheritanceTree));
    }

    /** The declarations step 1 copies without reuse: listeners, checks,
        exclusions (PostgreSQL only), and indices and uniques as the dialect
        wants them. */
    method BuildDeclarations(e: EntityMetadata)
      modifies e`ownListeners, e`checks, e`exclusions, e`ownIndices, e`ownUniques
      ensures e.ownListeners == Map(store.filterListeners(e.inheritanceTree), NewListener)
      ensures e.checks == Map(store.filterChecks(e.inheritanceTree), NewCheck)
      ensures e.exclusions == (if collaborators.dialect == Postgres
                               then Map(store.filterExclusions(e.inheritanceTree), NewExclusion)
                               else old(e.exclusions))
      ensures e.ownIndices == DeclaredConstraints(collaborators.dialect, store.filterIndices(e.inheritanceTree),
                                                  store.filterUniques(e.inheritanceTree)).indices
      ensures e.ownUniques == old(e.ownUniques) + DeclaredConstraints(collaborators.dialect,
                                                    store.filterIndices(e.inheritanceTree),
                                                    store.filterUniques(e.inheritanceTree)).uniques
    {
      var tree := e.inheritanceTree;
      e.ownListeners := Map(store.filterListeners(tree), NewListener);
      e.checks := Map(store.filterChecks(tree), NewCheck);
      if collaborators.dialect == Postgres {
        e.exclusions := Map(store.filterExclusions(tree), NewExclusion);
      }
      var constraints := DeclaredConstraints(collaborators.dialect, store.filterIndices(tree), store.filterUniques(tree));
      e.ownIndices := constraints.indices;
      e.ownUniques := e.ownUniques + constraints.uniques;
    }

    /** The entity's own lists, after its embeddeds: columns, relations and
        the declarations copied without reuse. */
    method BuildOwnLists(all: seq<EntityMetadata>, e: EntityMetadata) returns (o: Outcome<BuildError>)
      requires e.tableType == EntityChild ==> e.parentEntityMetadata != null
      requires e in all && Valid(all)
      modifies this`columnRecords, this`relationRecords, this`relationIdRecords, this`relationCountRecords
      modifies e`ownColumns, e`ownRelations, e`relationIds, e`relationCounts
      modifies e`ownListeners, e`checks, e`exclusions, e`ownIndices, e`ownUniques
      ensures Valid(all)
      ensures |old(columnRecords)| <= |columnRecords| && |old(relationRecords)| <= |relationRecords|
      ensures o.Pass? ==> AllBelow(e.ownRelations, |relationRecords|)
      ensures o.Pass? ==>
                e.ownListeners == Map(store.filterListeners(e.inheritanceTree), NewListener)
                && e.checks == Map(store.filterChecks(e.inheritanceTree), NewCheck)
                && e.exclusions == (if collaborators.dialect == Postgres
                                    then Map(store.filterExclusions(e.inheritanceTree), NewExclusion)
                                    else old(e.exclusions))
                && e.ownIndices == DeclaredConstraints(collaborators.dialect, store.filterIndices(e.inheritanceTree),
                                                       store.filterUniques(e.inheritanceTree)).indices
                && e.ownUniques == old(e.ownUniques) + DeclaredConstraints(collaborators.dialect,
                                                         store.filterIndices(e.inheritanceTree),
                                                         store.filterUniques(e.inheritanceTree)).uniques
      ensures e.tableType != EntityChild && o.Pass? ==>
                e.ownRelations == Allocated(|old(relationRecords)|, |store.filterRelations(e.inheritanceTree)|)
                && e.relationIds == Allocated(|old(relationIdRecords)|, |store.filterRelationIds(e.inheritanceTree)|)
                && e.relationCounts == Allocated(|old(relationCountRecords)|, |store.filterRelationCounts(e.inheritanceTree)|)
    {
      o := BuildColumns(all, e);
      if o.Fail? { return; }
      o := BuildRelations(all, e);
      if o.Fail? { return; }
      BuildDeclarations(e);
    }

    /** Step 1 of an entity: its discriminator value, embeddeds, own
        columns (with the discriminator and tree columns), relations,
        relation ids and counts, listeners, checks, exclusions (PostgreSQL
        only), and its indices and uniques split by dialect, each block as
        its method states. A single-table child reuses its parent's objects;
        one without a parent, or with a declaration its parent lacks,
        fails. */
    method ComputeEntityMetadataStep1(all: seq<EntityMetadata>, e: EntityMetadata) returns (o: Outcome<BuildError>)
      requires e in all && Valid(all) && AllBelow(e.derived.relations, |relationRecords|)
      modifies this`columnRecords, this`relationRecords, this`embeddedRecords, this`relationIdRecords, this`relationCountRecords
      modifies e`discriminatorValue, e`embeddeds, e`ownColumns, e`ownRelations, e`relationIds, e`relationCounts
      modifies e`ownListeners, e`checks, e`exclusions, e`ownIndices, e`ownUniques
      ensures Valid(all)
      ensures |old(columnRecords)| <= |columnRecords| && |old(relationRecords)| <= |relationRecords|
      ensures |old(embeddedRecords)| <= |embeddedRecords|
      ensures e.tableType == EntityChild && e.parentEntityMetadata == null ==> o == Fail(UndefinedParent(e.target))
      ensures e.discriminatorValue == DiscriminatorValueFor(store.findDiscriminatorValue(e.target), e.target)
      ensures o.Pass? ==> EntitySized(e, |embeddedRecords|, |relationRecords|)
    {
      e.discriminatorValue := DiscriminatorValueFor(store.findDiscriminatorValue(e.target), e.target);
      BuildEmbeddedsSized(all, e);
      assert AllBelow(e.embeddeds, |embeddedRecords|) && AllBelow(e.derived.relations, |relationRecords|);
      if e.tableType == EntityChild && e.parentEntityMetadata == null {
        return Fail(UndefinedParent(e.target));
      }
      o := BuildOwnLists(all, e);
      assert AllBelow(e.embeddeds, |embeddedRecords|) && AllBelow(e.derived.relations, |relationRecords|);
    }

    // -----------------------------------------------------------------
    // computeEntityMetadataStep2
    // -----------------------------------------------------------------

    /** Step 2: every derived list of the entity is recomputed from its raw
        lists and the arenas (the flattened lists, then their buckets); the
        raw lists and the arenas stay as they were. */
    method ComputeEntityMetadataStep2(e: EntityMetadata)
      requires RecordsValid() && EntitySized(e, |embeddedRecords|, |relationRecords|)
      modifies e`derived
      ensures ProjectionHolds(e, columnRecords, relationRecords, embeddedRecords)
      ensures e.derived.relations == Flattened(e.ownRelations, embeddedRecords, e.embeddeds, EmbeddedRelations)
      ensures EntitySized(e, |embeddedRecords|, |relationRecords|)
    {
      assert IdsAbove(embeddedRecords, e.embeddeds, -1);
      e.derived := Projected(e.ownRelations, e.ownColumns, e.ownListeners, e.ownIndices, e.ownUniques, e.embeddeds,
                             columnRecords, relationRecords, embeddedRecords);
      FlattenedRelationsAllocated(e.ownRelations, embeddedRecords, e.embeddeds, |relationRecords|);
    }

    /** Step 2 for `e`, for callers that need only that its ids stay
        within the arenas. It exists to keep those callers' proofs small:
        they would otherwise carry the whole projection they do not use. */
    method Reproject(e: EntityMetadata)
      requires RecordsValid() && EntitySized(e, |embeddedRecords|, |relationRecords|)
      modifies e`derived
      ensures EntitySized(e, |embeddedRecords|, |relationRecords|)
    {
      ComputeEntityMetadataStep2(e);
    }

    // -----------------------------------------------------------------
    // computeInverseProperties
    // -----------------------------------------------------------------

    /** Every relation of `e` is resolved in turn against the first entity
        its type points at; the first relation with no such entity fails
        the build with a message naming `entity#propertyPath`. Only the
        inverse sides of relation records change. */
    method ComputeInverseProperties(ghost ents: seq<EntityMetadata>, all: seq<EntityMetadata>, e: EntityMetadata)
      returns (o: Outcome<BuildError>)
      requires Valid(ents) && AllBelow(e.derived.relations, |relationRecords|)
      modifies this`relationRecords
      ensures Valid(ents) && |relationRecords| == |old(relationRecords)|
      ensures forall x :: 0 <= x < |relationRecords| ==> SameButInverse(old(relationRecords)[x], relationRecords[x])
      ensures forall x :: 0 <= x < |relationRecords| && x !in e.derived.relations ==> relationRecords[x] == old(relationRecords)[x]
      ensures e.derived.relations == [] ==> o.Pass? && relationRecords == old(relationRecords)
      ensures o.Pass? ==>
                forall k :: 0 <= k < |e.derived.relations| ==>
                  ResolvedIn(all, collaborators.inverseSidePath, old(relationRecords), relationRecords, e.derived.relations[k])
      ensures o.Fail? ==>
                exists k :: 0 <= k < |e.derived.relations| && Unresolvable(all, collaborators.inverseSidePath, old(relationRecords), e.derived.relations[k])
                  && o.error == EntityNotFound(e.name, old(relationRecords)[e.derived.relations[k]].propertyPath)
                  && forall j :: 0 <= j < k ==> !Unresolvable(all, collaborators.inverseSidePath, old(relationRecords), e.derived.relations[j])
    {
      var rels0 := relationRecords;
      var recs := relationRecords;
      var rs := e.derived.relations;
      var i := 0;
      while i < |rs|
        invariant 0 <= i <= |rs| && |recs| == |rels0|
        invariant forall x :: 0 <= x < |recs| ==> SameButInverse(rels0[x], recs[x])
        invariant forall x :: 0 <= x < |recs| && x !in rs ==> recs[x] == rels0[x]
        invariant forall k :: 0 <= k < i ==> ResolvedIn(all, collaborators.inverseSidePath, rels0, recs, rs[k])
      {
        var r := recs[rs[i]];
        assert r.args == rels0[rs[i]].args && r.propertyPath == rels0[rs[i]].propertyPath;
        var m := Find(all, InverseTest(r.args.relatedType));
        if m.None? {
          assert Unresolvable(all, collaborators.inverseSidePath, rels0, rs[i]);
          relationRecords := recs;
          return Fail(EntityNotFound(e.name, r.propertyPath));
        }
        var x := Resolved(r, m.value, collaborators.inverseSidePath(r.args), rels0);
        ResolveStep(all, collaborators.inverseSidePath, rels0, recs, rs, i, x);
        recs := recs[rs[i] := x];
        i := i + 1;
      }
      relationRecords := recs;
      return Pass;
    }

    // -----------------------------------------------------------------
    // Join columns of one-to-one and many-to-one relations
    // -----------------------------------------------------------------

    /** `relation.registerForeignKeys(foreignKey)`: the relation's foreign
        keys become exactly `fk`; nothing else changes. */
    method RegisterForeignKey(ghost ents: seq<EntityMetadata>, id: RelId, fk: ForeignKeyMetadata)
      requires Valid(ents) && id < |relationRecords|
      modifies this`relationRecords
      ensures Valid(ents)
      ensures relationRecords == old(relationRecords)[id := old(relationRecords)[id].(foreignKeys := [fk])]
    {
      relationRecords := relationRecords[id := relationRecords[id].(foreignKeys := [fk])];
    }

    /** Adds `c` to the holder of relation record `r`: its embedded when it
        has one, otherwise its entity's own lists. */
    method AddToHolder(ghost ents: seq<EntityMetadata>, r: RelationMetadata, c: Constraints)
      requires Valid(ents) && (r.embedded.Some? ==> r.embedded.value < |embeddedRecords|)
      modifies this`embeddedRecords, r.entityMetadata`ownIndices, r.entityMetadata`ownUniques
      ensures Valid(ents) && |embeddedRecords| == |old(embeddedRecords)|
      ensures r.embedded.Some? ==>
                var x := r.embedded.value;
                && embeddedRecords == old(embeddedRecords)[x := old(embeddedRecords)[x].(
                     indices := old(embeddedRecords)[x].indices + c.indices,
                     uniques := old(embeddedRecords)[x].uniques + c.uniques)]
                && unchanged(r.entityMetadata)
      ensures r.embedded.None? ==>
                && embeddedRecords == old(embeddedRecords)
                && r.entityMetadata.ownIndices == old(r.entityMetadata.ownIndices) + c.indices
                && r.entityMetadata.ownUniques == old(r.entityMetadata.ownUniques) + c.uniques
    {
      if r.embedded.Some? {
        var x := r.embedded.value;
        var m := embeddedRecords[x];
        embeddedRecords := embeddedRecords[x := m.(indices := m.indices + c.indices, uniques := m.uniques + c.uniques)];
        assert forall k :: 0 <= k < |embeddedRecords| ==>
                 embeddedRecords[k].embeddeds == old(embeddedRecords)[k].embeddeds
                 && embeddedRecords[k].relations == old(embeddedRecords)[k].relations;
      } else {
        r.entityMetadata.ownIndices := r.entityMetadata.ownIndices + c.indices;
        r.entityMetadata.ownUniques := r.entityMetadata.ownUniques + c.uniques;
      }
    }

    /** Lines 87-144 for relation `id` of the non-child entity `e`, without
        the projections: the join-column builder's foreign key, if any, is
        registered on the relation and appended to `e`'s foreign keys; its
        unique requirement and, on CockroachDB, an index over the foreign
        key's columns go to the relation's holder, and are returned. */
    method AttachJoinColumns(ghost ents: seq<EntityMetadata>, e: EntityMetadata, id: RelId) returns (c: Constraints)
      requires Valid(ents) && id < |relationRecords|
      modifies this`relationRecords, this`embeddedRecords, e`foreignKeys
      modifies relationRecords[id].entityMetadata`ownIndices, relationRecords[id].entityMetadata`ownUniques
      ensures Valid(ents) && |embeddedRecords| == |old(embeddedRecords)| && |relationRecords| == |old(relationRecords)|
      ensures var r := old(relationRecords)[id];
              var jc := collaborators.joinColumnBuilder(store.filterJoinColumns(r.args.target, r.args.propertyName), r);
              && c == JoinColumnConstraints(collaborators.dialect, jc, r.entityMetadata.target, collaborators.escape)
              && (jc.foreignKey.Some? ==>
                    relationRecords == old(relationRecords)[id := r.(foreignKeys := [jc.foreignKey.value])]
                    && e.foreignKeys == old(e.foreignKeys) + [jc.foreignKey.value])
              && (jc.foreignKey.None? ==> relationRecords == old(relationRecords) && e.foreignKeys == old(e.foreignKeys))
              && (r.embedded.Some? ==>
                    var x := r.embedded.value;
                    embeddedRecords == old(embeddedRecords)[x := old(embeddedRecords)[x].(
                      indices := old(embeddedRecords)[x].indices + c.indices,
                      uniques := old(embeddedRecords)[x].uniques + c.uniques)])
              && (r.embedded.None? ==>
                    embeddedRecords == old(embeddedRecords)
                    && r.entityMetadata.ownIndices == old(r.entityMetadata.ownIndices) + c.indices
                    && r.entityMetadata.ownUniques == old(r.entityMetadata.ownUniques) + c.uniques)
    {
      var r := relationRecords[id];
      var jc := collaborators.joinColumnBuilder(store.filterJoinColumns(r.args.target, r.args.propertyName), r);
      if jc.foreignKey.Some? {
        RegisterForeignKey(ents, id, jc.foreignKey.value);
        e.foreignKeys := e.foreignKeys + [jc.foreignKey.value];
      }
      c := JoinColumnConstraints(collaborators.dialect, jc, r.entityMetadata.target, collaborators.escape);
      AddToHolder(ents, r, c);
    }

    /** Lines 87-144 for relation `id` of the non-child entity `e`: what
        AttachJoinColumns does (only the relation's foreign keys change, and
        `e`'s grow at the end), and when a unique requirement or an index
        was added, `e` is projected again. */
    method BuildJoinColumns(ghost ents: seq<EntityMetadata>, e: EntityMetadata, id: RelId)
      requires Valid(ents) && id < |relationRecords| && EntitySized(e, |embeddedRecords|, |relationRecords|)
      modifies this`relationRecords, this`embeddedRecords, e`foreignKeys, e`derived
      modifies relationRecords[id].entityMetadata`ownIndices, relationRecords[id].entityMetadata`ownUniques
      ensures Valid(ents) && EntitySized(e, |embeddedRecords|, |relationRecords|)
      ensures |embeddedRecords| == |old(embeddedRecords)| && |relationRecords| == |old(relationRecords)|
      ensures forall x :: 0 <= x < |relationRecords| && x != id ==> relationRecords[x] == old(relationRecords)[x]
      ensures relationRecords[id] == old(relationRecords)[id].(foreignKeys := relationRecords[id].foreignKeys)
      ensures |old(e.foreignKeys)| <= |e.foreignKeys| && e.foreignKeys[..|old(e.foreignKeys)|] == old(e.foreignKeys)
    {
      var c := AttachJoinColumns(ents, e, id);
      if |c.indices| + |c.uniques| > 0 {
        Reproject(e);
      }
    }

    /** Lines 86-145: the join columns of every one-to-one and many-to-one
        relation of `e`, in order. Only those relations' foreign keys
        change, and `e`'s foreign keys grow at the end. */
    method BuildEntityJoinColumns(ghost ents: seq<EntityMetadata>, e: EntityMetadata)
      requires Valid(ents) && EntitySized(e, |embeddedRecords|, |relationRecords|)
      modifies this`relationRecords, this`embeddedRecords, e`foreignKeys, e`derived, ents`ownIndices, ents`ownUniques
      ensures Valid(ents) && EntitySized(e, |embeddedRecords|, |relationRecords|)
      ensures |relationRecords| == |old(relationRecords)| && |embeddedRecords| == |old(embeddedRecords)|
      ensures |old(e.foreignKeys)| <= |e.foreignKeys| && e.foreignKeys[..|old(e.foreignKeys)|] == old(e.foreignKeys)
      ensures forall x :: 0 <= x < |relationRecords| && relationRecords[x] != old(relationRecords)[x] ==>
                x in old(e.derived.relations) && SingleValuedTest(old(relationRecords))(x)
                && relationRecords[x] == old(relationRecords)[x].(foreignKeys := relationRecords[x].foreignKeys)
    {
      var rs := Filter(e.derived.relations, SingleValuedTest(relationRecords));
      ghost var rels0 := relationRecords;
      ghost var fks0 := e.foreignKeys;
      var i := 0;
      while i < |rs|
        invariant 0 <= i <= |rs| && Valid(ents) && EntitySized(e, |embeddedRecords|, |relationRecords|)
        invariant |relationRecords| == |rels0| && |embeddedRecords| == |old(embeddedRecords)|
        invariant |fks0| <= |e.foreignKeys| && e.foreignKeys[..|fks0|] == fks0
        invariant forall x :: 0 <= x < |relationRecords| && relationRecords[x] != rels0[x] ==>
                    x in rs && relationRecords[x] == rels0[x].(foreignKeys := relationRecords[x].foreignKeys)
      {
        BuildJoinColumns(ents, e, rs[i]);
        i := i + 1;
      }
    }

    // -----------------------------------------------------------------
    // Junction and closure-junction entities
    // -----------------------------------------------------------------

    /** The entity a junction builder describes: a fresh entity of the given
        kind with the described columns allocated in the column arena, and
        the described foreign keys and indices; it has no relations and no
        embeddeds. */
    method CreateJunctionEntity(spec: JunctionSpec, kind: TableType) returns (j: EntityMetadata)
      modifies this`columnRecords
      ensures fresh(j)
      ensures j.target == spec.target && j.name == TargetName(spec.target) && j.tableType == kind
      ensures j.inheritanceTree == [spec.target] && j.inheritancePattern.None? && j.treeType.None?
      ensures j.parentEntityMetadata == null && j.closureJunctionTable == null
      ensures columnRecords == old(columnRecords) + Map(spec.columns, JunctionColumnOf(j))
      ensures j.ownColumns == Allocated(|old(columnRecords)|, |spec.columns|)
      ensures j.foreignKeys == spec.foreignKeys && j.ownIndices == spec.indices
      ensures j.embeddeds == [] && j.ownRelations == [] && j.ownListeners == [] && j.ownUniques == []
      ensures j.derived == NoDerived
    {
      j := new EntityMetadata(spec.target, TargetName(spec.target), kind, [spec.target], None, None);
      j.ownColumns := Allocated(|columnRecords|, |spec.columns|);
      columnRecords := columnRecords + Map(spec.columns, JunctionColumnOf(j));
      j.foreignKeys := spec.foreignKeys;
      j.ownIndices := spec.indices;
    }

    /** The junction entity for relation `id` is created from `spec`; its
        foreign keys become the relation's, and it becomes the relation's
        junction entity. */
    method RegisterJunction(ghost ents: seq<EntityMetadata>, id: RelId, spec: JunctionSpec) returns (j: EntityMetadata)
      requires Valid(ents) && id < |relationRecords|
      modifies this`columnRecords, this`relationRecords
      ensures Valid(ents) && fresh(j) && j.tableType == Junction && j.target == spec.target
      ensures j.embeddeds == [] && j.ownRelations == [] && j.derived == NoDerived
      ensures columnRecords == old(columnRecords) + Map(spec.columns, JunctionColumnOf(j))
      ensures j.ownColumns == Allocated(|old(columnRecords)|, |spec.columns|) && j.foreignKeys == spec.foreignKeys
      ensures relationRecords == old(relationRecords)[id := old(relationRecords)[id].(
                foreignKeys := spec.foreignKeys, junctionEntityMetadata := Some(j))]
    {
      j := CreateJunctionEntity(spec, Junction);
      relationRecords := relationRecords[id := relationRecords[id].(foreignKeys := spec.foreignKeys, junctionEntityMetadata := Some(j))];
    }

    /** Lines 147-159 for relation `id`: when the relation declares a join
        table, the junction builder's entity is registered on it, then
        projected and resolved; without a join table nothing changes. */
    method BuildJunction(ghost ents: seq<EntityMetadata>, all: seq<EntityMetadata>, id: RelId)
      returns (junction: Option<EntityMetadata>)
      requires Valid(ents) && id < |relationRecords|
      modifies this`columnRecords, this`relationRecords
      ensures Valid(ents)
      ensures junction.Some? <==> DeclaresJoinTable(old(relationRecords)[id])
      ensures junction.None? ==> columnRecords == old(columnRecords) && relationRecords == old(relationRecords)
      ensures junction.Some? ==>
                var j := junction.value;
                && fresh(j) && j.tableType == Junction && EntitySized(j, |embeddedRecords|, |relationRecords|)
                && relationRecords == old(relationRecords)[id := old(relationRecords)[id].(foreignKeys := j.foreignKeys, junctionEntityMetadata := Some(j))]
    {
      var r := relationRecords[id];
      var jt := store.findJoinTable(r.args.target, r.args.propertyName);
      if jt.None? {
        return None;
      }
      var spec := collaborators.junctionBuilder(r, jt.value, |columnRecords|);
      var j := RegisterJunction(ents, id, spec);
      FinishSynthesized(ents, all, j);
      return Some(j);
    }

    /** A synthesized entity is projected and resolved; having no
        relations, its resolution passes and changes no relation. */
    method FinishSynthesized(ghost ents: seq<EntityMetadata>, all: seq<EntityMetadata>, j: EntityMetadata)
      requires Valid(ents) && j.embeddeds == [] && j.ownRelations == [] && j.derived == NoDerived
      modifies j`derived, this`relationRecords
      ensures Valid(ents) && relationRecords == old(relationRecords)
      ensures ProjectionHolds(j, columnRecords, relationRecords, embeddedRecords)
      ensures EntitySized(j, |embeddedRecords|, |relationRecords|)
      ensures j.foreignKeys == old(j.foreignKeys)
    {
      // With no relations of its own, the synthesized entity resolves to
      // nothing both before and after its projection, so resolving first
      // gives the same records.
      ResolveSynthesized(ents, all, j);
      ComputeEntityMetadataStep2(j);
    }

    /** Resolving an entity without relations passes and changes nothing. */
    method ResolveSynthesized(ghost ents: seq<EntityMetadata>, all: seq<EntityMetadata>, j: EntityMetadata)
      requires Valid(ents) && j.derived.relations == []
      modifies this`relationRecords
      ensures Valid(ents) && relationRecords == old(relationRecords)
    {
      var o := ComputeInverseProperties(ents, all, j);
    }

    /** Whether relation record `r` declares a join table. */
    predicate DeclaresJoinTable(r: RelationMetadata) {
      store.findJoinTable(r.args.target, r.args.propertyName).Some?
    }

    /** What the junction phase leaves of record `a` as `b`: when `a` was
        visited and declares a join table, `a` with a junction entity and
        new foreign keys; otherwise `a` itself. */
    predicate JunctionOutcome(a: RelationMetadata, b: RelationMetadata, visited: bool) {
      if visited && DeclaresJoinTable(a) then
        b == a.(foreignKeys := b.foreignKeys, junctionEntityMetadata := b.junctionEntityMetadata)
        && b.junctionEntityMetadata.Some?
      else
        b == a
    }

    /** Lines 146-160: a junction entity for every many-to-many relation of
        `e` that declares a join table, in relation order. Exactly those
        relations change: each gets a junction entity, and nothing else of
        theirs but their foreign keys changes. */
    method BuildEntityJunctions(ghost ents: seq<EntityMetadata>, all: seq<EntityMetadata>, e: EntityMetadata)
      returns (junctions: seq<EntityMetadata>)
      requires Valid(ents) && AllBelow(e.derived.relations, |relationRecords|)
      modifies this`columnRecords, this`relationRecords
      ensures Valid(ents) && |relationRecords| == |old(relationRecords)|
      ensures NoDuplicates(junctions)
      ensures forall k :: 0 <= k < |junctions| ==>
                fresh(junctions[k]) && junctions[k].tableType == Junction
                && EntitySized(junctions[k], |embeddedRecords|, |relationRecords|)
      ensures forall x :: 0 <= x < |relationRecords| ==>
                JunctionOutcome(old(relationRecords)[x], relationRecords[x],
                                x in e.derived.relations && ManyToManyTest(old(relationRecords))(x))
    {
      var ms := Filter(e.derived.relations, ManyToManyTest(relationRecords));
      forall x | 0 <= x < |relationRecords|
        ensures (x in ms) == (x in e.derived.relations && ManyToManyTest(relationRecords)(x))
      {
        if x in e.derived.relations && ManyToManyTest(relationRecords)(x) {
          var k :| 0 <= k < |e.derived.relations| && e.derived.relations[k] == x;
          FilterKeeps(e.derived.relations, ManyToManyTest(relationRecords), k);
        }
      }
      junctions := BuildJunctions(ents, all, ms);
    }

    /** The junction entities of relations `ms`, in order. */
    method BuildJunctions(ghost ents: seq<EntityMetadata>, all: seq<EntityMetadata>, ms: seq<RelId>)
      returns (junctions: seq<EntityMetadata>)
      requires Valid(ents) && AllBelow(ms, |relationRecords|)
      modifies this`columnRecords, this`relationRecords
      ensures Valid(ents) && |relationRecords| == |old(relationRecords)|
      ensures NoDuplicates(junctions)
      ensures forall k :: 0 <= k < |junctions| ==>
                fresh(junctions[k]) && junctions[k].tableType == Junction
                && EntitySized(junctions[k], |embeddedRecords|, |relationRecords|)
      ensures forall x :: 0 <= x < |relationRecords| ==> JunctionOutcome(old(relationRecords)[x], relationRecords[x], x in ms)
    {
      ghost var rels0 := relationRecords;
      junctions := [];
      var i := 0;
      while i < |ms|
        invariant 0 <= i <= |ms| && Valid(ents) && |relationRecords| == |rels0|
        invariant NoDuplicates(junctions)
        invariant forall k :: 0 <= k < |junctions| ==>
                    fresh(junctions[k]) && junctions[k].tableType == Junction
                    && EntitySized(junctions[k], |embeddedRecords|, |relationRecords|)
        invariant forall x :: 0 <= x < |relationRecords| ==> JunctionOutcome(rels0[x], relationRecords[x], x in ms[..i])
      {
        var j := BuildJunction(ents, all + junctions, ms[i]);
        if j.Some? {
          junctions := junctions + [j.value];
        }
        assert ms[..i + 1] == ms[..i] + [ms[i]];
        i := i + 1;
      }
      assert ms[..i] == ms;
    }

    // -----------------------------------------------------------------
    // The relation phase
    // -----------------------------------------------------------------

    /** Lines 84-160 for one non-child entity `e`: its join columns, then its
        junction entities. Relation records change only in their foreign
        keys and junction entities. */
    method BuildEntityRelations(all: seq<EntityMetadata>, e: EntityMetadata) returns (junctions: seq<EntityMetadata>)
      requires Valid(all) && e in all && AllSized(all)
      modifies this`columnRecords, this`relationRecords, this`embeddedRecords
      modifies e`foreignKeys, e`derived, all`ownIndices, all`ownUniques
      ensures Valid(all) && AllSized(all)
      ensures |relationRecords| == |old(relationRecords)| && |embeddedRecords| == |old(embeddedRecords)|
      ensures forall x :: 0 <= x < |relationRecords| ==>
                relationRecords[x] == old(relationRecords)[x].(foreignKeys := relationRecords[x].foreignKeys,
                                                              junctionEntityMetadata := relationRecords[x].junctionEntityMetadata)
      ensures NoDuplicates(junctions)
      ensures forall k :: 0 <= k < |junctions| ==>
                fresh(junctions[k]) && junctions[k].tableType == Junction
                && EntitySized(junctions[k], |embeddedRecords|, |relationRecords|)
    {
      BuildEntityJoinColumns(all, e);
      junctions := BuildEntityJunctions(all, all, e);
    }

    /** Lines 82-160: the relations of every non-child entity, in order;
        the junction entities come back in the order they were made. */
    method RelationPhase(all: seq<EntityMetadata>) returns (junctions: seq<EntityMetadata>)
      requires Valid(all) && AllSized(all)
      modifies this`columnRecords, this`relationRecords, this`embeddedRecords
      modifies all`foreignKeys, all`derived, all`ownIndices, all`ownUniques
      ensures Valid(all) && AllSized(all)
      ensures |relationRecords| == |old(relationRecords)| && |embeddedRecords| == |old(embeddedRecords)|
      ensures forall x :: 0 <= x < |relationRecords| ==>
                relationRecords[x] == old(relationRecords)[x].(foreignKeys := relationRecords[x].foreignKeys,
                                                              junctionEntityMetadata := relationRecords[x].junctionEntityMetadata)
      ensures NoDuplicates(junctions)
      ensures forall k :: 0 <= k < |junctions| ==>
                fresh(junctions[k]) && junctions[k].tableType == Junction
                && EntitySized(junctions[k], |embeddedRecords|, |relationRecords|)
    {
      ghost var rels0 := relationRecords;
      junctions := [];
      var i := 0;
      while i < |all|
        invariant 0 <= i <= |all| && Valid(all) && AllSized(all)
        invariant |relationRecords| == |rels0| && |embeddedRecords| == |old(embeddedRecords)|
        invariant forall x :: 0 <= x < |relationRecords| ==>
                    relationRecords[x] == rels0[x].(foreignKeys := relationRecords[x].foreignKeys,
                                                    junctionEntityMetadata := relationRecords[x].junctionEntityMetadata)
        invariant NoDuplicates(junctions)
        invariant forall k :: 0 <= k < |junctions| ==>
                    fresh(junctions[k]) && junctions[k].tableType == Junction
                    && EntitySized(junctions[k], |embeddedRecords|, |relationRecords|)
      {
        if all[i].tableType != EntityChild {
          var js := BuildEntityRelations(all, all[i]);
          junctions := junctions + js;
        }
        i := i + 1;
      }
    }

    // -----------------------------------------------------------------
    // Relations with join columns
    // -----------------------------------------------------------------

    /** Lines 162-166: every entity's relations with a join column, in
        order, and whether one of them is required (see
        DependentPropertiesMeaning for what these amount to). */
    method ComputeDependentProperties(all: seq<EntityMetadata>)
      modifies all`relationsWithJoinColumns, all`hasNonNullableRelations
      ensures forall k :: 0 <= k < |all| ==>
                all[k].relationsWithJoinColumns == Filter(all[k].derived.relations, JoinColumnTest(relationRecords))
                && all[k].hasNonNullableRelations == Any(all[k].relationsWithJoinColumns, RequiredTest(relationRecords))
    {
      var i := 0;
      while i < |all|
        invariant 0 <= i <= |all|
        invariant forall k :: 0 <= k < i ==>
                    all[k].relationsWithJoinColumns == Filter(all[k].derived.relations, JoinColumnTest(relationRecords))
                    && all[k].hasNonNullableRelations == Any(all[k].relationsWithJoinColumns, RequiredTest(relationRecords))
      {
        var e := all[i];
        e.relationsWithJoinColumns := Filter(e.derived.relations, JoinColumnTest(relationRecords));
        e.hasNonNullableRelations := Any(e.relationsWithJoinColumns, RequiredTest(relationRecords));
        i := i + 1;
      }
    }

    // -----------------------------------------------------------------
    // Closure junction entities
    // -----------------------------------------------------------------

    /** Lines 170-175 for a closure-table entity `e`: the closure-junction
        builder's entity over `e`'s primary columns becomes `e`'s closure
        junction table, and is projected and resolved. */
    method BuildClosureJunction(ghost ents: seq<EntityMetadata>, all: seq<EntityMetadata>, e: EntityMetadata)
      returns (j: EntityMetadata)
      requires Valid(ents)
      modifies this`columnRecords, this`relationRecords, e`closureJunctionTable
      ensures Valid(ents) && relationRecords == old(relationRecords)
      ensures fresh(j) && j.tableType == ClosureJunction && EntitySized(j, |embeddedRecords|, |relationRecords|)
      ensures e.closureJunctionTable == j
      ensures var spec := collaborators.closureJunctionBuilder(e.target, old(e.derived.primaryColumns), |old(columnRecords)|);
              j.target == spec.target && columnRecords == old(columnRecords) + Map(spec.columns, JunctionColumnOf(j))
    {
      var spec := collaborators.closureJunctionBuilder(e.target, e.derived.primaryColumns, |columnRecords|);
      j := CreateJunctionEntity(spec, ClosureJunction);
      e.closureJunctionTable := j;
      FinishSynthesized(ents, all, j);
    }

    /** Lines 168-176: a closure junction entity for every closure-table
        entity, in order; other entities keep theirs. */
    method ClosurePhase(all: seq<EntityMetadata>) returns (closures: seq<EntityMetadata>)
      requires Valid(all)
      modifies this`columnRecords, this`relationRecords, all`closureJunctionTable
      ensures Valid(all) && relationRecords == old(relationRecords)
      ensures NoDuplicates(closures)
      ensures forall k :: 0 <= k < |closures| ==>
                fresh(closures[k]) && closures[k].tableType == ClosureJunction
                && EntitySized(closures[k], |embeddedRecords|, |relationRecords|)
      ensures forall k :: 0 <= k < |all| ==>
                if all[k].treeType == Some(ClosureTable) then all[k].closureJunctionTable in closures
                else all[k].closureJunctionTable == old(all[k].closureJunctionTable)
    {
      closures := [];
      var i := 0;
      while i < |all|
        invariant 0 <= i <= |all| && Valid(all) && relationRecords == old(relationRecords)
        invariant NoDuplicates(closures)
        invariant forall k :: 0 <= k < |closures| ==>
                    fresh(closures[k]) && closures[k].tableType == ClosureJunction
                    && EntitySized(closures[k], |embeddedRecords|, |relationRecords|)
        invariant forall k :: 0 <= k < |all| && all[k].treeType == Some(ClosureTable) && all[k] in all[..i] ==>
                    all[k].closureJunctionTable in closures
        invariant forall k :: 0 <= k < |all| && all[k].treeType != Some(ClosureTable) ==>
                    all[k].closureJunctionTable == old(all[k].closureJunctionTable)
      {
        if all[i].treeType == Some(ClosureTable) {
          var j := BuildClosureJunction(all, all + closures, all[i]);
          closures := closures + [j];
        }
        assert all[..i + 1] == all[..i] + [all[i]];
        i := i + 1;
      }
      assert all[..i] == all;
    }

    // -----------------------------------------------------------------
    // createKeysForTableInheritance
    // -----------------------------------------------------------------

    /** Lines 581-590 as written: the discriminator index is pushed onto the
        entity's derived `indices`. For an entity without embeddeds, the
        `reduce` of line 536 returned the own indices array itself, so the
        push lands in the own indices too; for any other entity `indices` is
        a fresh array, which the next projection of the entity recomputes
        from its raw lists (see StiIndexSurvivesExactlyWithoutEmbeddeds). */
    method CreateKeysForTableInheritanceAsWritten(e: EntityMetadata)
      requires e.derived.discriminatorColumn.Some?
      modifies e`derived, e`ownIndices
      ensures e.derived == old(e.derived).(indices := old(e.derived.indices)
                                             + [InheritanceIndex(e.target, old(e.derived.discriminatorColumn.value))])
      ensures e.ownIndices == old(e.ownIndices)
                              + if e.embeddeds == [] then [InheritanceIndex(e.target, old(e.derived.discriminatorColumn.value))]
                                else []
    {
      var index := InheritanceIndex(e.target, e.derived.discriminatorColumn.value);
      e.derived := e.derived.(indices := e.derived.indices + [index]);
      if e.embeddeds == [] {
        e.ownIndices := e.ownIndices + [index];
      }
    }

    /** createKeysForTableInheritance, corrected: the discriminator index
        joins the entity's own indices and the entity is projected again, so
        the index is among its indices now and after every later
        projection (see InheritanceIndexKept). */
    method CreateKeysForTableInheritance(e: EntityMetadata)
      requires RecordsValid() && EntitySized(e, |embeddedRecords|, |relationRecords|)
      requires e.derived.discriminatorColumn.Some?
      modifies e`ownIndices, e`derived
      ensures e.ownIndices == old(e.ownIndices) + [InheritanceIndex(e.target, old(e.derived.discriminatorColumn.value))]
      ensures ProjectionHolds(e, columnRecords, relationRecords, embeddedRecords)
      ensures InheritanceIndex(e.target, old(e.derived.discriminatorColumn.value)) in e.derived.indices
      ensures EntitySized(e, |embeddedRecords|, |relationRecords|)
    {
      var index := InheritanceIndex(e.target, e.derived.discriminatorColumn.value);
      e.ownIndices := e.ownIndices + [index];
      ComputeEntityMetadataStep2(e);
      InheritanceIndexKept(e.ownRelations, e.ownColumns, e.ownListeners, e.ownIndices, e.ownUniques, e.embeddeds,
                           columnRecords, relationRecords, embeddedRecords, index);
    }

    /** The derived lists `d` of an entity with target `t` and inheritance
        pattern `pattern` once lines 177-180 have run as written: with
        pattern "STI" and a discriminator column, the discriminator index is
        appended to the indices. */
    function StiKeyed(pattern: Option<string>, t: Target, d: Derived): Derived {
      if pattern == Some("STI") && d.discriminatorColumn.Some? then
        d.(indices := d.indices + [InheritanceIndex(t, d.discriminatorColumn.value)])
      else d
    }

    /** The own indices `own` of an entity with target `t`, pattern
        `pattern`, derived lists `d` and top-level embeddeds `tops` once lines
        177-180 have run as written: they gain the discriminator index
        exactly when the entity is keyed and has no embeddeds, because its
        derived `indices` then are its own indices array. */
    function StiOwnIndices(pattern: Option<string>, t: Target, d: Derived, tops: seq<EmbId>,
                           own: seq<IndexMetadata>): seq<IndexMetadata>
    {
      if pattern == Some("STI") && d.discriminatorColumn.Some? && tops == [] then
        own + [InheritanceIndex(t, d.discriminatorColumn.value)]
      else own
    }

    /** Lines 177-180: the keys of every single-table inheritance entity that
        has a discriminator column, as written: each such entity's derived
        `indices` gain the discriminator index, and so do its own indices
        when it has no embeddeds. */
    method StiKeysPhase(all: seq<EntityMetadata>)
      requires AllSized(all) && NoDuplicates(all)
      modifies all`derived, all`ownIndices
      ensures AllSized(all)
      ensures forall k :: 0 <= k < |all| ==>
                all[k].derived == StiKeyed(all[k].inheritancePattern, all[k].target, old(all[k].derived))
      ensures forall k :: 0 <= k < |all| ==>
                all[k].ownIndices == StiOwnIndices(all[k].inheritancePattern, all[k].target, old(all[k].derived),
                                                   all[k].embeddeds, old(all[k].ownIndices))
    {
      var i := 0;
      while i < |all|
        invariant 0 <= i <= |all| && AllSized(all)
        invariant forall k :: 0 <= k < i ==>
                    && all[k].derived == StiKeyed(all[k].inheritancePattern, all[k].target, old(all[k].derived))
                    && all[k].ownIndices == StiOwnIndices(all[k].inheritancePattern, all[k].target, old(all[k].derived),
                                                          all[k].embeddeds, old(all[k].ownIndices))
        invariant forall k :: i <= k < |all| ==>
                    all[k].derived == old(all[k].derived) && all[k].ownIndices == old(all[k].ownIndices)
      {
        var e := all[i];
        if e.inheritancePattern == Some("STI") && e.derived.discriminatorColumn.Some? {
          CreateKeysForTableInheritanceAsWritten(e);
        }
        i := i + 1;
      }
    }

    // -----------------------------------------------------------------
    // Generated columns
    // -----------------------------------------------------------------

    /** What the generated-column pass leaves of column record `a` as `b`:
        `a` marked generated by its declared strategy when it was visited
        and has a "generated" declaration, `a` itself otherwise. */
    predicate GenerationOutcome(a: ColumnMetadata, b: ColumnMetadata, visited: bool) {
      match store.findGenerated(a.target, a.propertyName)
      case Some(strategy) => b == (if visited then WithGeneration(a, strategy) else a)
      case None => b == a
    }

    /** Lines 209-224 for column `c` of entity `e`: with a "generated"
        declaration the column is marked generated by its strategy and `e`
        is projected again; without one nothing changes. Column ids always
        lie in the arena; the pass skips any that would not. */
    method MarkGeneratedColumn(e: EntityMetadata, c: ColId)
      requires RecordsValid() && EntitySized(e, |embeddedRecords|, |relationRecords|)
      modifies this`columnRecords, e`derived
      ensures EntitySized(e, |embeddedRecords|, |relationRecords|)
      ensures c < |old(columnRecords)| ==>
                match store.findGenerated(old(columnRecords)[c].target, old(columnRecords)[c].propertyName)
                case Some(strategy) => columnRecords == old(columnRecords)[c := WithGeneration(old(columnRecords)[c], strategy)]
                                       && ProjectionHolds(e, columnRecords, relationRecords, embeddedRecords)
                case None => columnRecords == old(columnRecords) && e.derived == old(e.derived)
      ensures c >= |old(columnRecords)| ==> columnRecords == old(columnRecords) && e.derived == old(e.derived)
    {
      if c < |columnRecords| {
        var column := columnRecords[c];
        var generated := store.findGenerated(column.target, column.propertyName);
        if generated.Some? {
          columnRecords := columnRecords[c := WithGeneration(column, generated.value)];
          ComputeEntityMetadataStep2(e);
        }
      }
    }

    /** The line-224 projection forgets what was pushed onto the derived
        `indices` alone: after it, an index that is neither an own index of
        `e` nor an index of an embedded reachable from `e` is not among its
        indices. This is how the discriminator index of lines 581-590 is lost
        for a single-table entity with an embedded and a generated column. */
    lemma PushedIndexLost(e: EntityMetadata, cols: seq<ColumnMetadata>, rels: seq<RelationMetadata>,
                          embs: seq<EmbeddedMetadata>, x: IndexMetadata)
      requires ProjectionHolds(e, cols, rels, embs) && x !in e.ownIndices
      requires forall k :: k in ForestIds(embs, e.embeddeds, -1) && k < |embs| ==> x !in embs[k].indices
      ensures x !in e.derived.indices
    {
      InheritanceIndexLost(e.ownRelations, e.ownColumns, e.ownListeners, e.ownIndices, e.ownUniques, e.embeddeds,
                           cols, rels, embs, x);
    }

    /** Whether the discriminator index pushed as written at line 582
        survives the next projection of the entity (line 224): it does
        exactly when the entity has no embeddeds, so that the push reached
        its own indices. The index is taken to be new to the entity: not an
        own index before and not in any embedded reachable from it. */
    lemma StiIndexSurvivesExactlyWithoutEmbeddeds(pattern: Option<string>, t: Target, d: Derived,
                                                  ownRelations: seq<RelId>, ownColumns: seq<ColId>,
                                                  ownListeners: seq<EntityListenerMetadata>, own: seq<IndexMetadata>,
                                                  ownUniques: seq<UniqueMetadata>, tops: seq<EmbId>,
                                                  cols: seq<ColumnMetadata>, rels: seq<RelationMetadata>,
                                                  embs: seq<EmbeddedMetadata>)
      requires EmbeddedsWellFormed(embs) && IdsAbove(embs, tops, -1)
      requires pattern == Some("STI") && d.discriminatorColumn.Some?
      requires InheritanceIndex(t, d.discriminatorColumn.value) !in own
      requires forall k :: k in ForestIds(embs, tops, -1) && k < |embs| ==>
                 InheritanceIndex(t, d.discriminatorColumn.value) !in embs[k].indices
      ensures InheritanceIndex(t, d.discriminatorColumn.value)
                in Projected(ownRelations, ownColumns, ownListeners, StiOwnIndices(pattern, t, d, tops, own), ownUniques,
                             tops, cols, rels, embs).indices
              <==> tops == []
    {
      var x := InheritanceIndex(t, d.discriminatorColumn.value);
      var own' := StiOwnIndices(pattern, t, d, tops, own);
      if tops == [] {
        assert x in own';
        InheritanceIndexKept(ownRelations, ownColumns, ownListeners, own', ownUniques, tops, cols, rels, embs, x);
      } else {
        InheritanceIndexLost(ownRelations, ownColumns, ownListeners, own', ownUniques, tops, cols, rels, embs, x);
      }
    }

    /** One step of the generated-column loop: marking column `c` keeps
        every record as GenerationOutcome describes, with `c` now visited. */
    lemma MarkStepOutcome(cols0: seq<ColumnMetadata>, before: seq<ColumnMetadata>, after: seq<ColumnMetadata>,
                          visited: seq<ColId>, c: ColId)
      requires |before| == |cols0|
      requires forall x :: 0 <= x < |before| ==> GenerationOutcome(cols0[x], before[x], x in visited)
      requires c < |before| ==>
                 match store.findGenerated(before[c].target, before[c].propertyName)
                 case Some(strategy) => after == before[c := WithGeneration(before[c], strategy)]
                 case None => after == before
      requires c >= |before| ==> after == before
      ensures |after| == |cols0|
      ensures forall x :: 0 <= x < |after| ==> GenerationOutcome(cols0[x], after[x], x in visited + [c])
    {
      if c < |before| {
        match store.findGenerated(cols0[c].target, cols0[c].propertyName)
        case Some(strategy) => WithGenerationIdempotent(cols0[c], strategy);
        case None =>
      }
    }

    /** Lines 208-225 for entity `e`: every column of `e` (as listed when
        the pass starts; the re-projections do not change what is visited)
        with a "generated" declaration is marked generated by its strategy;
        each marking projects `e` again (MarkGeneratedColumn). */
    method MarkGeneratedColumns(e: EntityMetadata)
      requires RecordsValid() && EntitySized(e, |embeddedRecords|, |relationRecords|)
      modifies this`columnRecords, e`derived
      ensures EntitySized(e, |embeddedRecords|, |relationRecords|) && |columnRecords| == |old(columnRecords)|
      ensures forall x :: 0 <= x < |columnRecords| ==>
                GenerationOutcome(old(columnRecords)[x], columnRecords[x], x in old(e.derived.columns))
    {
      var cs := e.derived.columns;
      ghost var cols0 := columnRecords;
      var i := 0;
      while i < |cs|
        invariant 0 <= i <= |cs| && EntitySized(e, |embeddedRecords|, |relationRecords|) && |columnRecords| == |cols0|
        invariant forall x :: 0 <= x < |columnRecords| ==> GenerationOutcome(cols0[x], columnRecords[x], x in cs[..i])
      {
        var c := cs[i];
        ghost var before := columnRecords;
        assert cs[..i + 1] == cs[..i] + [c];
        MarkGeneratedColumn(e, c);
        MarkStepOutcome(cols0, before, columnRecords, cs[..i], c);
        i := i + 1;
      }
      assert cs[..i] == cs;
    }

    /** The column lists of the entities `all`, in order. */
    ghost function ColumnLists(all: seq<EntityMetadata>): (r: seq<seq<ColId>>)
      reads all
      ensures |r| == |all| && forall k :: 0 <= k < |all| ==> r[k] == all[k].derived.columns
    {
      seq(|all|, k requires 0 <= k < |all| reads all => all[k].derived.columns)
    }

    /** One step of the generated-column pass: after the columns of entity
        `i` are marked, the records listed by entities `0..i` are marked. */
    lemma PassStepOutcome(cols0: seq<ColumnMetadata>, before: seq<ColumnMetadata>, after: seq<ColumnMetadata>,
                          lists: seq<seq<ColId>>, i: nat)
      requires i < |lists| && |before| == |cols0| && |after| == |before|
      requires forall x :: 0 <= x < |before| ==>
                 GenerationOutcome(cols0[x], before[x], exists k :: 0 <= k < i && x in lists[k])
      requires forall x :: 0 <= x < |after| ==> GenerationOutcome(before[x], after[x], x in lists[i])
      ensures forall x :: 0 <= x < |after| ==>
                GenerationOutcome(cols0[x], after[x], exists k :: 0 <= k < i + 1 && x in lists[k])
    {
      forall x | 0 <= x < |after|
        ensures GenerationOutcome(cols0[x], after[x], exists k :: 0 <= k < i + 1 && x in lists[k])
      {
        var a := cols0[x];
        match store.findGenerated(a.target, a.propertyName)
        case Some(strategy) => WithGenerationIdempotent(a, strategy);
        case None =>
      }
    }

    /** Lines 207-227: the generated-column pass over every entity; a column
        record listed by some entity when the pass starts ends up marked
        generated by its declared strategy when it has one, and every other
        record is unchanged. */
    method GeneratedColumnsPhase(all: seq<EntityMetadata>)
      requires RecordsValid() && AllSized(all) && NoDuplicates(all)
      modifies this`columnRecords, all`derived
      ensures AllSized(all) && |columnRecords| == |old(columnRecords)|
      ensures forall x :: 0 <= x < |columnRecords| ==>
                GenerationOutcome(old(columnRecords)[x], columnRecords[x],
                                  exists k :: 0 <= k < |all| && x in old(all[k].derived.columns))
    {
      ghost var lists := ColumnLists(all);
      var i := 0;
      while i < |all|
        invariant 0 <= i <= |all| && AllSized(all) && |columnRecords| == |old(columnRecords)|
        invariant forall k :: i <= k < |all| ==> all[k].derived.columns == lists[k]
        invariant forall x :: 0 <= x < |columnRecords| ==>
                    GenerationOutcome(old(columnRecords)[x], columnRecords[x], exists k :: 0 <= k < i && x in lists[k])
      {
        ghost var before := columnRecords;
        MarkGeneratedColumns(all[i]);
        PassStepOutcome(old(columnRecords), before, columnRecords, lists, i);
        i := i + 1;
      }
    }

    // -----------------------------------------------------------------
    // Lazy relations
    // -----------------------------------------------------------------

    /** Lines 201-205 for entity `e`: its lazy relations, in order. */
    method EntityLazyHandovers(e: EntityMetadata) returns (hs: seq<Handover>)
      requires e.target.ClassTarget?
      ensures hs == EntityHandovers(e, relationRecords)
    {
      var rs := e.derived.relations;
      hs := [];
      var i := 0;
      while i < |rs|
        invariant 0 <= i <= |rs|
        invariant hs == Map(RelationsIn(relationRecords, rs[..i], LazyBucket), HandoverTo(e))
      {
        assert rs[..i + 1] == rs[..i] + [rs[i]];
        FilterConcat<RelId>(rs[..i], [rs[i]], RelationTest(relationRecords, LazyBucket));
        MapConcat(RelationsIn(relationRecords, rs[..i], LazyBucket), RelationsIn(relationRecords, [rs[i]], LazyBucket), HandoverTo(e));
        if rs[i] < |relationRecords| && relationRecords[rs[i]].args.isLazy {
          hs := hs + [Handover(e, rs[i])];
        }
        i := i + 1;
      }
      assert rs[..i] == rs;
    }

    /** Lines 198-206: which lazy relations the build hands to the relation
        loader, and for which entity's class. The prototype patching itself
        happens outside the metadata. */
    method LazyHandovers(all: seq<EntityMetadata>) returns (hs: seq<Handover>)
      ensures hs == LazyHandoversOf(all, relationRecords)
    {
      hs := [];
      var i := 0;
      while i < |all|
        invariant 0 <= i <= |all|
        invariant hs == LazyHandoversOf(all[..i], relationRecords)
      {
        ghost var prefix := all[..i + 1];
        assert prefix[..i] == all[..i] && prefix[i] == all[i];
        assert LazyHandoversOf(prefix, relationRecords) == hs + EntityHandovers(all[i], relationRecords);
        if all[i].target.ClassTarget? {
          var more := EntityLazyHandovers(all[i]);
          hs := hs + more;
        }
        i := i + 1;
      }
      assert all[..i] == all;
    }

    // -----------------------------------------------------------------
    // build
    // -----------------------------------------------------------------

    /** Line 50: one bare entity per real table, in order, each a new
        object. */
    method CreateEntities(tables: seq<TableArgs>) returns (all: seq<EntityMetadata>)
      ensures EntitiesFor(all, tables) && NoDuplicates(all)
      ensures forall k :: 0 <= k < |all| ==>
                fresh(all[k]) && all[k].parentEntityMetadata == null
                && all[k].embeddeds == [] && all[k].ownRelations == [] && all[k].derived == NoDerived
    {
      all := [];
      var i := 0;
      while i < |tables|
        invariant 0 <= i <= |tables| && |all| == i && NoDuplicates(all)
        invariant forall k :: 0 <= k < i ==>
                    fresh(all[k]) && all[k].target == tables[k].target && all[k].tableType == tables[k].tableType
                    && all[k].inheritanceTree == InheritanceTreeFor(store, tables[k])
                    && all[k].parentEntityMetadata == null
                    && all[k].embeddeds == [] && all[k].ownRelations == [] && all[k].derived == NoDerived
      {
        var e := CreateEntityMetadata(tables[i]);
        all := all + [e];
        i := i + 1;
      }
    }

    /** Line 52: every single-table child gets its parent. */
    method LinkParents(all: seq<EntityMetadata>)
      requires forall k :: 0 <= k < |all| ==> all[k].parentEntityMetadata == null
      modifies all`parentEntityMetadata
      ensures forall k :: 0 <= k < |all| ==> all[k].parentEntityMetadata == ParentFor(all, all[k])
    {
      var i := 0;
      while i < |all|
        invariant 0 <= i <= |all|
        invariant forall k :: 0 <= k < |all| ==>
                    all[k].parentEntityMetadata == (if all[k] in all[..i] then ParentFor(all, all[k]) else null)
      {
        ComputeParentEntityMetadata(all, all[i]);
        assert all[..i + 1] == all[..i] + [all[i]];
        i := i + 1;
      }
      assert all[..i] == all;
    }

    /** Step 1 has run for `e`: it has its discriminator value and, when it
        is a single-table child, a parent. */
    ghost predicate Step1Done(e: EntityMetadata)
      reads e`discriminatorValue, e`parentEntityMetadata
    {
      e.discriminatorValue == DiscriminatorValueFor(store.findDiscriminatorValue(e.target), e.target)
      && (e.tableType == EntityChild ==> e.parentEntityMetadata != null)
    }

    /** Step 1 for one entity of the list, as the passes of lines 70-76 see
        it: the arenas stay consistent and, on success, sized for every
        entity; the entity gets its discriminator value and, when it is a
        single-table child that passes, it has a parent. It exists to keep
        the passes' proofs small: they would otherwise carry every block's
        postcondition, which ComputeEntityMetadataStep1 and its blocks state. */
    method Step1Visit(all: seq<EntityMetadata>, e: EntityMetadata) returns (o: Outcome<BuildError>)
      requires e in all && Valid(all) && AllSized(all)
      modifies this`columnRecords, this`relationRecords, this`embeddedRecords, this`relationIdRecords, this`relationCountRecords
      modifies e`discriminatorValue, e`embeddeds, e`ownColumns, e`ownRelations, e`relationIds, e`relationCounts
      modifies e`ownListeners, e`checks, e`exclusions, e`ownIndices, e`ownUniques
      ensures Valid(all) && (o.Pass? ==> AllSized(all) && Step1Done(e))
    {
      o := ComputeEntityMetadataStep1(all, e);
    }

    /** Lines 70-76, one of its two passes: step 1 for every entity that is
        (`children`) or is not a single-table child, in order, stopping at
        the first failure. A pass that completes leaves every entity it
        visited with its discriminator value and, for a child, a parent. */
    method Step1Pass(all: seq<EntityMetadata>, children: bool) returns (o: Outcome<BuildError>)
      requires Valid(all) && AllSized(all)
      modifies this`columnRecords, this`relationRecords, this`embeddedRecords, this`relationIdRecords, this`relationCountRecords
      modifies all`discriminatorValue, all`embeddeds, all`ownColumns, all`ownRelations, all`relationIds, all`relationCounts
      modifies all`ownListeners, all`checks, all`exclusions, all`ownIndices, all`ownUniques
      ensures Valid(all) && (o.Pass? ==> AllSized(all))
      ensures o.Pass? ==> forall k :: 0 <= k < |all| && (all[k].tableType == EntityChild) == children ==> Step1Done(all[k])
      ensures forall k :: 0 <= k < |all| && (all[k].tableType == EntityChild) != children ==>
                all[k].discriminatorValue == old(all[k].discriminatorValue)
    {
      var i := 0;
      while i < |all|
        invariant 0 <= i <= |all| && Valid(all) && AllSized(all)
        invariant forall k :: 0 <= k < |all| ==>
                    if (all[k].tableType == EntityChild) == children then k < i ==> Step1Done(all[k])
                    else all[k].discriminatorValue == old(all[k].discriminatorValue)
      {
        if (all[i].tableType == EntityChild) == children {
          o := Step1Visit(all, all[i]);
          if o.Fail? {
            return;
          }
        }
        i := i + 1;
      }
      return Pass;
    }

    /** Line 78: every entity projected, in order. */
    method Step2Pass(all: seq<EntityMetadata>)
      requires RecordsValid() && AllSized(all)
      modifies all`derived
      ensures AllSized(all)
    {
      var i := 0;
      while i < |all|
        invariant 0 <= i <= |all| && AllSized(all)
      {
        Reproject(all[i]);
        i := i + 1;
      }
    }

    /** Line 80: the inverse sides of every entity's relations, stopping at
        the first relation no entity answers for. */
    method InversePass(all: seq<EntityMetadata>) returns (o: Outcome<BuildError>)
      requires Valid(all) && AllSized(all)
      modifies this`relationRecords
      ensures Valid(all) && |relationRecords| == |old(relationRecords)|
      ensures forall x :: 0 <= x < |relationRecords| ==> SameButInverse(old(relationRecords)[x], relationRecords[x])
    {
      var i := 0;
      while i < |all|
        invariant 0 <= i <= |all| && Valid(all) && |relationRecords| == |old(relationRecords)|
        invariant forall x :: 0 <= x < |relationRecords| ==> SameButInverse(old(relationRecords)[x], relationRecords[x])
      {
        o := ComputeInverseProperties(all, all, all[i]);
        if o.Fail? {
          return;
        }
        i := i + 1;
      }
      return Pass;
    }

    /** The entities stand for the tables, in order. */
    ghost predicate EntitiesFor(all: seq<EntityMetadata>, tables: seq<TableArgs>) {
      |all| == |tables|
      && forall k :: 0 <= k < |all| ==>
           all[k].target == tables[k].target && all[k].tableType == tables[k].tableType
           && all[k].inheritanceTree == InheritanceTreeFor(store, tables[k])
    }

    /** Lines 52-60 done: every single-table child's parent is the first
        "STI" entity whose inheritance tree holds its class (none when there
        is none), other entities have none, and every entity's children are
        the entities whose class inherits from its class. */
    ghost predicate Linked(all: seq<EntityMetadata>)
      reads all`parentEntityMetadata, all`childEntityMetadatas
    {
      forall k :: 0 <= k < |all| ==>
        all[k].parentEntityMetadata == ParentFor(all, all[k])
        && all[k].childEntityMetadatas == ChildrenOf(all, all[k], store.isInherited)
    }

    /** Lines 50-60: one new entity per table, in order, each single-table
        child linked to its parent and every entity to its children. */
    method LinkEntities(tables: seq<TableArgs>) returns (all: seq<EntityMetadata>)
      requires relationRecords == [] && RecordsValid()
      ensures Valid(all) && AllSized(all)
      ensures EntitiesFor(all, tables) && NoDuplicates(all) && forall k :: 0 <= k < |all| ==> fresh(all[k])
      ensures Linked(all)
    {
      all := CreateEntities(tables);
      assert AllSized(all);
      LinkParents(all);
      assert AllSized(all);
      ComputeChildEntityMetadatas(all);
    }

    /** Lines 70-76: step 1 for every entity that is not a single-table
        child, then for every child; the first failure stops the build. */
    method Step1Stage(all: seq<EntityMetadata>) returns (o: Outcome<BuildError>)
      requires Valid(all) && AllSized(all)
      modifies this`columnRecords, this`relationRecords, this`embeddedRecords, this`relationIdRecords, this`relationCountRecords
      modifies all`discriminatorValue, all`embeddeds, all`ownColumns, all`ownRelations, all`relationIds, all`relationCounts
      modifies all`ownListeners, all`checks, all`exclusions, all`ownIndices, all`ownUniques
      ensures o.Pass? ==> Valid(all) && AllSized(all) && forall k :: 0 <= k < |all| ==> Step1Done(all[k])
    {
      o := Step1Pass(all, false);
      if o.Pass? {
        o := Step1Pass(all, true);
      }
    }

    /** Lines 70-80: step 1, step 2 and the inverse sides, stopping at the
        first failure. */
    method ComputeEntities(all: seq<EntityMetadata>) returns (o: Outcome<BuildError>)
      requires Valid(all) && AllSized(all)
      modifies this`columnRecords, this`relationRecords, this`embeddedRecords, this`relationIdRecords, this`relationCountRecords
      modifies all`discriminatorValue, all`embeddeds, all`ownColumns, all`ownRelations, all`relationIds, all`relationCounts
      modifies all`ownListeners, all`checks, all`exclusions, all`ownIndices, all`ownUniques, all`derived
      ensures o.Pass? ==> Valid(all) && AllSized(all) && forall k :: 0 <= k < |all| ==> Step1Done(all[k])
    {
      o := Step1Stage(all);
      if o.Fail? {
        return;
      }
      Step2Pass(all);
      o := InversePass(all);
    }

    /** Lines 45-80: the entities of the selected tables, linked to their
        parents and children, through step 1, step 2 and the inverse sides
        of their relations; the first failure stops the build. */
    method BuildEntities(entityClasses: Option<seq<Target>>) returns (o: Outcome<BuildError>, all: seq<EntityMetadata>)
      requires relationRecords == [] && embeddedRecords == []
      modifies this`columnRecords, this`relationRecords, this`embeddedRecords, this`relationIdRecords, this`relationCountRecords
      ensures EntitiesFor(all, SelectedTables(store, entityClasses)) && NoDuplicates(all)
      ensures forall k :: 0 <= k < |all| ==> fresh(all[k])
      ensures Linked(all)
      ensures o.Pass? ==> Valid(all) && AllSized(all) && forall k :: 0 <= k < |all| ==> Step1Done(all[k])
    {
      all := LinkEntities(SelectedTables(store, entityClasses));
      o := ComputeEntities(all);
    }
    /** Lines 82-166 over the entities `all`: their relations, with the
        junction entities made for them added after them, then everyone's
        dependent properties. */
    method RelationStage(all: seq<EntityMetadata>) returns (es: seq<EntityMetadata>)
      requires Valid(all) && AllSized(all) && NoDuplicates(all)
      modifies this`columnRecords, this`relationRecords, this`embeddedRecords
      modifies all`foreignKeys, all`derived, all`ownIndices, all`ownUniques
      modifies all`relationsWithJoinColumns, all`hasNonNullableRelations
      ensures Valid(es) && AllSized(es) && NoDuplicates(es)
      ensures |all| <= |es| && es[..|all|] == all
      ensures forall k :: |all| <= k < |es| ==> fresh(es[k]) && es[k].tableType == Junction
    {
      var junctions := RelationPhase(all);
      es := all + junctions;
      assert es[..|all|] == all;
      assert forall x :: x in junctions ==> x !in all;
      NoDuplicatesConcat(all, junctions);
      assert AllSized(es) && Valid(es) by {
        assert forall k :: 0 <= k < |es| ==> if k < |all| then es[k] == all[k] else es[k] == junctions[k - |all|];
      }
      ComputeDependentProperties(es);
    }

    /** Lines 168-176 over the entities `es`: the closure junction entities,
        added after them. */
    method ClosureStage(es: seq<EntityMetadata>) returns (es2: seq<EntityMetadata>)
      requires Valid(es) && AllSized(es) && NoDuplicates(es)
      modifies this`columnRecords, this`relationRecords, es`closureJunctionTable
      ensures RecordsValid() && AllSized(es2) && NoDuplicates(es2)
      ensures |es| <= |es2| && es2[..|es|] == es
      ensures forall k :: |es| <= k < |es2| ==> fresh(es2[k]) && es2[k].tableType == ClosureJunction
      ensures forall k :: 0 <= k < |es| && es[k].treeType == Some(ClosureTable) ==> es[k].closureJunctionTable in es2[|es|..]
    {
      var closures := ClosurePhase(es);
      es2 := es + closures;
      assert es2[..|es|] == es && es2[|es|..] == closures;
    }

    /** Lines 82-176 over the entities `all`: their relations (junction
        entities added after them), the dependent properties and the closure
        junction entities (added after those). */
    method SynthesizeEntities(all: seq<EntityMetadata>, ghost tables: seq<TableArgs>) returns (es: seq<EntityMetadata>)
      requires Valid(all) && AllSized(all) && NoDuplicates(all) && EntitiesFor(all, tables)
      modifies this`columnRecords, this`relationRecords, this`embeddedRecords
      modifies all`foreignKeys, all`derived, all`ownIndices, all`ownUniques, all`closureJunctionTable
      modifies all`relationsWithJoinColumns, all`hasNonNullableRelations
      ensures RecordsValid() && AllSized(es) && NoDuplicates(es)
      ensures |all| <= |es| && es[..|all|] == all
      ensures forall k :: |all| <= k < |es| ==>
                fresh(es[k]) && (es[k].tableType == Junction || es[k].tableType == ClosureJunction)
      ensures forall k :: 0 <= k < |all| && all[k].treeType == Some(ClosureTable) ==> all[k].closureJunctionTable in es[|all|..]
      ensures BuiltFrom(es, tables)
    {
      var withJunctions := RelationStage(all);
      es := ClosureStage(withJunctions);
      BuiltFromStages(all, withJunctions, es, tables);
      forall k | |all| <= k < |es|
        ensures fresh(es[k]) && (es[k].tableType == Junction || es[k].tableType == ClosureJunction)
      {
        if k < |withJunctions| { assert es[k] == withJunctions[k]; }
      }
    }

    /** Every handover names an entity of `es` whose target is a class and
        one of the lazy relations. */
    ghost predicate HandedOver(handovers: seq<Handover>, es: seq<EntityMetadata>)
      reads this`relationRecords
    {
      forall h :: h in handovers ==>
        h.entity in es && h.entity.target.ClassTarget? && h.relation < |relationRecords| && relationRecords[h.relation].args.isLazy
    }

    /** Lines 177-227 over the entities `es`: the single-table inheritance
        keys, the lazy relation handovers and the generated columns. */
    method FinishEntities(es: seq<EntityMetadata>) returns (handovers: seq<Handover>)
      requires RecordsValid() && AllSized(es) && NoDuplicates(es)
      modifies this`columnRecords, es`derived, es`ownIndices
      ensures HandedOver(handovers, es)
    {
      StiKeysPhase(es);
      handovers := LazyHandovers(es);
      forall h | h in handovers
        ensures h.entity in es && h.entity.target.ClassTarget? && h.relation < |relationRecords| && relationRecords[h.relation].args.isLazy
      {
        LazyHandoversMeaning(es, relationRecords, h);
      }
      assert HandedOver(handovers, es);
      GeneratedColumnsPhase(es);
    }

    /** What a successful build returns for the tables `tables`: first one
        entity per table, in order (BuildEntities states what links them and
        what step 1 gave them; no later phase changes those fields); then
        the junction and closure junction entities made for them, with every
        closure-table entity's closure junction among them. */
    ghost predicate BuiltFrom(es: seq<EntityMetadata>, tables: seq<TableArgs>)
      reads es`closureJunctionTable
    {
      var n := |tables|;
      && n <= |es| && NoDuplicates(es) && EntitiesFor(es[..n], tables)
      && (forall k :: n <= k < |es| ==> es[k].tableType == Junction || es[k].tableType == ClosureJunction)
      && (forall k :: 0 <= k < n && es[k].treeType == Some(ClosureTable) ==> es[k].closureJunctionTable in es[n..])
    }

    /** The entities after the relation stage (`mid`) and the closure stage
        (`es`) are built from `tables` when each stage appends only its own
        kind of entity. */
    lemma BuiltFromStages(all: seq<EntityMetadata>, mid: seq<EntityMetadata>, es: seq<EntityMetadata>, tables: seq<TableArgs>)
      requires EntitiesFor(all, tables) && NoDuplicates(es)
      requires |all| <= |mid| <= |es| && mid[..|all|] == all && es[..|mid|] == mid
      requires forall k :: |all| <= k < |mid| ==> mid[k].tableType == Junction
      requires forall k :: |mid| <= k < |es| ==> es[k].tableType == ClosureJunction
      requires forall k :: 0 <= k < |mid| && mid[k].treeType == Some(ClosureTable) ==> mid[k].closureJunctionTable in es[|mid|..]
      ensures BuiltFrom(es, tables) && es[..|all|] == all
    {
      assert es[..|all|] == all;
      forall k | 0 <= k < |all| && es[k].treeType == Some(ClosureTable)
        ensures es[k].closureJunctionTable in es[|all|..]
      {
        assert es[k] == mid[k];
        var x := es[k].closureJunctionTable;
        var p :| |mid| <= p < |es| && es[p] == x;
        assert es[|all|..][p - |all|] == x;
      }
    }

    /** Lines 82-227 over the entities `all` built from `tables`. */
    method BuildTail(all: seq<EntityMetadata>, ghost tables: seq<TableArgs>) returns (es: seq<EntityMetadata>, handovers: seq<Handover>)
      requires Valid(all) && AllSized(all) && NoDuplicates(all) && EntitiesFor(all, tables)
      modifies this`columnRecords, this`relationRecords, this`embeddedRecords
      modifies all`foreignKeys, all`derived, all`ownIndices, all`ownUniques, all`closureJunctionTable
      modifies all`relationsWithJoinColumns, all`hasNonNullableRelations
      ensures BuiltFrom(es, tables) && es[..|all|] == all
      ensures forall k :: |all| <= k < |es| ==> fresh(es[k])
      ensures HandedOver(handovers, es)
    {
      es := SynthesizeEntities(all, tables);
      assert forall k :: |all| <= k < |es| ==> fresh(es[k]);
      handovers := FinishEntities(es);
    }

    /** Lines 43-229: the whole build, from the tables of the given classes
        (or of every declared table); a failure of step 1 or of an inverse
        side stops it. Besides the entities, which lazy relations are handed
        to the relation loader. */
    method Build(entityClasses: Option<seq<Target>>) returns (r: Result<seq<EntityMetadata>, BuildError>, handovers: seq<Handover>)
      requires relationRecords == [] && embeddedRecords == []
      modifies this`columnRecords, this`relationRecords, this`embeddedRecords, this`relationIdRecords, this`relationCountRecords
      ensures r.Ok? ==> BuiltFrom(r.value, SelectedTables(store, entityClasses)) && forall k :: 0 <= k < |r.value| ==> fresh(r.value[k])
      ensures r.Err? ==> handovers == []
      ensures r.Ok? ==> HandedOver(handovers, r.value)
    {
      var o, all := BuildEntities(entityClasses);
      if o.Fail? {
        return Err(o.error), [];
      }
      var es;
      es, handovers := BuildTail(all, SelectedTables(store, entityClasses));
      forall k | 0 <= k < |es|
        ensures fresh(es[k])
      {
        if k < |all| {
          assert es[k] == all[k];
        }
      }
      r := Ok(es);
    }
  }
}

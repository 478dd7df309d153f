/** The records the builder reads and produces: declarations as the
    declaration store hands them out, the metadata records built from them
    (held in arenas and referred to by position), and the entity class whose
    fields the build phases update. */
module Metadata {
  import opened Wrappers

  type ColId = nat
  type RelId = nat
  type EmbId = nat
  type PropId = nat

  /** A declaration's owner: a class (a JavaScript function) or a plain
      string name given by an entity schema. */
  datatype Target = ClassTarget(classId: nat, className: string) | NameTarget(name: string)

  /** `targetName`: the class name for a class, the string itself otherwise. */
  function TargetName(t: Target): string {
    match t
    case ClassTarget(_, n) => n
    case NameTarget(n) => n
  }

  datatype Dialect = Mysql | SqlServer | Postgres | Cockroach | Other

  datatype TableType = Regular | Closure | EntityChild | Abstract | Embeddable | View | Junction | ClosureJunction

  datatype TreeType = AdjacencyList | ClosureTable | NestedSet | MaterializedPath

  datatype ColumnMode = RegularMode | VirtualMode | CreateDateMode | UpdateDateMode | VersionMode | TreeLevelMode | ObjectIdMode

  /** The declared type: nothing, a named database type, or the JavaScript
      `Number` constructor that stands for "numeric". */
  datatype ColumnType = Unspecified | Named(typeName: string) | NumberType

  datatype DefaultValue = NoDefault | TextDefault(text: string) | IntDefault(n: int)

  datatype ClosureSide = Ancestor | Descendant

  /** The extra marks the builder passes when it synthesizes tree columns. */
  datatype TreeMark = NoMark | MaterializedPathMark | NestedSetLeftMark | NestedSetRightMark

  datatype RelationType = OneToOne | OneToMany | ManyToOne | ManyToMany

  datatype ListenerType = AfterLoad | AfterInsert | AfterUpdate | AfterRemove | BeforeInsert | BeforeUpdate | BeforeRemove

  // ---------------------------------------------------------------------
  // Declarations (what the declaration store returns)
  // ---------------------------------------------------------------------

  datatype TableArgs = TableArgs(target: Target, name: Option<string>, tableType: TableType)

  datatype ColumnOptions = ColumnOptions(
    name: Option<string>, columnType: ColumnType, nullable: bool, primary: bool, defaultValue: DefaultValue)

  datatype ColumnArgs = ColumnArgs(
    target: Target, propertyName: string, mode: ColumnMode, options: ColumnOptions, closureType: Option<ClosureSide>)

  /** `@TableInheritance`: the pattern ("STI" or another) and the
      discriminator column's options, when it declares one. */
  datatype InheritanceArgs = InheritanceArgs(pattern: Option<string>, column: Option<ColumnOptions>)

  datatype RelationArgs = RelationArgs(
    target: Target, propertyName: string, relationType: RelationType, relatedType: Target,
    isLazy: bool, eager: bool, nullable: bool, primary: bool,
    isTreeParent: bool, isTreeChildren: bool, inverseSide: Option<string>)

  datatype ListenerArgs = ListenerArgs(target: Target, propertyName: string, listenerType: ListenerType)

  datatype IndexArgs = IndexArgs(target: Target, name: Option<string>, columns: seq<string>, unique: bool, where: Option<string>)

  datatype UniqueArgs = UniqueArgs(target: Target, name: Option<string>, columns: seq<string>)

  datatype CheckArgs = CheckArgs(target: Target, name: Option<string>, expression: string)

  datatype ExclusionArgs = ExclusionArgs(target: Target, name: Option<string>, expression: string)

  /** A `@RelationId` or `@RelationCount` declaration. */
  datatype PropertyArgs = PropertyArgs(target: Target, propertyName: string)

  datatype JoinColumnArgs = JoinColumnArgs(target: Target, propertyName: string, name: Option<string>, referencedColumnName: Option<string>)

  datatype JoinTableArgs = JoinTableArgs(target: Target, propertyName: string, name: Option<string>)

  /** An `@Embedded` declaration together with the store's answers for the
      embedded type's own inheritance tree, nested embeddeds included. */
  datatype EmbeddedDecl = EmbeddedDecl(
    propertyName: string,
    columns: seq<ColumnArgs>, relations: seq<RelationArgs>, listeners: seq<ListenerArgs>,
    indices: seq<IndexArgs>, uniques: seq<UniqueArgs>,
    relationIds: seq<PropertyArgs>, relationCounts: seq<PropertyArgs>,
    embeddeds: seq<EmbeddedDecl>)

  /** The declaration store and the class-reflection helpers, as the answers
      to the queries the builder makes. */
  datatype Store = Store(
    tables: seq<TableArgs>,
    filterTables: seq<Target> -> seq<TableArgs>,
    inheritanceTreeOf: Target -> seq<Target>,
    isInherited: (Target, Target) -> bool,
    findInheritanceType: Target -> Option<InheritanceArgs>,
    findTree: Target -> Option<TreeType>,
    findDiscriminatorValue: Target -> Option<string>,
    filterSingleTableChildren: Target -> seq<Target>,
    filterColumns: seq<Target> -> seq<ColumnArgs>,
    filterRelations: seq<Target> -> seq<RelationArgs>,
    filterRelationIds: seq<Target> -> seq<PropertyArgs>,
    filterRelationCounts: seq<Target> -> seq<PropertyArgs>,
    filterListeners: seq<Target> -> seq<ListenerArgs>,
    filterChecks: seq<Target> -> seq<CheckArgs>,
    filterExclusions: seq<Target> -> seq<ExclusionArgs>,
    filterIndices: seq<Target> -> seq<IndexArgs>,
    filterUniques: seq<Target> -> seq<UniqueArgs>,
    filterEmbeddeds: seq<Target> -> seq<EmbeddedDecl>,
    filterJoinColumns: (Target, string) -> seq<JoinColumnArgs>,
    findJoinTable: (Target, string) -> Option<JoinTableArgs>,
    findGenerated: (Target, string) -> Option<string>)

  // ---------------------------------------------------------------------
  // Metadata records (held in the builder's arenas)
  // ---------------------------------------------------------------------

  datatype ColumnMetadata = ColumnMetadata(
    entityMetadata: EntityMetadata, embedded: Option<EmbId>,
    target: Target, propertyName: string, databaseName: string,
    columnType: ColumnType, defaultValue: DefaultValue,
    isPrimary: bool, isNullable: bool, isVirtual: bool, isDiscriminator: bool,
    isGenerated: bool, generationStrategy: Option<string>,
    isCreateDate: bool, isUpdateDate: bool, isVersion: bool, isTreeLevel: bool, isObjectId: bool,
    isNestedSetLeft: bool, isNestedSetRight: bool, isMaterializedPath: bool,
    closureType: Option<ClosureSide>)

  datatype ForeignKeyMetadata = ForeignKeyMetadata(
    columns: seq<ColId>, referencedColumns: seq<ColId>, referencedTarget: Target, name: Option<string>)

  datatype RelationMetadata = RelationMetadata(
    entityMetadata: EntityMetadata, embedded: Option<EmbId>, args: RelationArgs, propertyPath: string,
    foreignKeys: seq<ForeignKeyMetadata>, junctionEntityMetadata: Option<EntityMetadata>,
    inverseEntityMetadata: Option<EntityMetadata>, inverseSidePropertyPath: string,
    inverseRelation: Option<RelId>)

  datatype IndexColumns = PropertyNames(names: seq<string>) | Columns(ids: seq<ColId>)

  datatype IndexMetadata = IndexMetadata(
    target: Target, name: Option<string>, columns: IndexColumns, isUnique: bool, where: Option<string>)

  datatype UniqueMetadata = UniqueMetadata(target: Target, name: Option<string>, columns: IndexColumns)

  datatype CheckMetadata = CheckMetadata(target: Target, name: Option<string>, expression: string)

  datatype ExclusionMetadata = ExclusionMetadata(target: Target, name: Option<string>, expression: string)

  datatype EntityListenerMetadata = EntityListenerMetadata(target: Target, propertyName: string, listenerType: ListenerType)

  /** A relation-id or relation-count record. */
  datatype PropertyMetadata = PropertyMetadata(entityMetadata: EntityMetadata, propertyName: string)

  datatype EmbeddedMetadata = EmbeddedMetadata(
    entityMetadata: EntityMetadata, parent: Option<EmbId>, propertyName: string, propertyPath: string,
    columns: seq<ColId>, relations: seq<RelId>, listeners: seq<EntityListenerMetadata>,
    indices: seq<IndexMetadata>, uniques: seq<UniqueMetadata>,
    relationIds: seq<PropId>, relationCounts: seq<PropId>, embeddeds: seq<EmbId>)

  /** One join column of a uniqueness requirement: the column and its
      database name. */
  datatype JoinUniqueColumn = JoinUniqueColumn(id: ColId, databaseName: string)

  /** A uniqueness requirement the join-column builder reports: the join
      columns it created must be unique. */
  datatype JoinUnique = JoinUnique(target: Target, name: Option<string>, columns: seq<JoinUniqueColumn>)

  /** What the join-column builder returns for one relation. */
  datatype JoinColumnResult = JoinColumnResult(foreignKey: Option<ForeignKeyMetadata>, uniqueConstraint: Option<JoinUnique>)

  /** What the junction and closure-junction builders return: the new
      entity's target, its columns (to be allocated from the given first free
      column id on), its foreign keys and indices. */
  datatype JunctionSpec = JunctionSpec(
    target: Target, columns: seq<ColumnArgs>, foreignKeys: seq<ForeignKeyMetadata>, indices: seq<IndexMetadata>)

  /** The collaborators the builder delegates to, seen only through the shape
      of what they return. */
  datatype Collaborators = Collaborators(
    dialect: Dialect,
    escape: string -> string,
    joinColumnBuilder: (seq<JoinColumnArgs>, RelationMetadata) -> JoinColumnResult,
    junctionBuilder: (RelationMetadata, JoinTableArgs, ColId) -> JunctionSpec,
    closureJunctionBuilder: (Target, seq<ColId>, ColId) -> JunctionSpec,
    inverseSidePath: RelationArgs -> string)

  // ---------------------------------------------------------------------
  // Record constructors (the leaf `new XxxMetadata(args)` calls)
  // ---------------------------------------------------------------------

  /** `new ColumnMetadata({entityMetadata, embeddedMetadata, args, ...marks})`:
      the declared flags are copied, the mode decides the special flags. */
  function NewColumn(e: EntityMetadata, embedded: Option<EmbId>, args: ColumnArgs, mark: TreeMark): (c: ColumnMetadata)
    ensures c.entityMetadata == e && c.target == args.target && c.propertyName == args.propertyName
    ensures c.isNullable == args.options.nullable && c.isPrimary == args.options.primary
    ensures c.isVirtual <==> args.mode == VirtualMode
    ensures !c.isDiscriminator && !c.isGenerated
  {
    ColumnMetadata(
      e, embedded, args.target, args.propertyName,
      match args.options.name case Some(n) => n case None => args.propertyName,
      args.options.columnType, args.options.defaultValue,
      args.options.primary, args.options.nullable, args.mode == VirtualMode, false,
      false, None,
      args.mode == CreateDateMode, args.mode == UpdateDateMode, args.mode == VersionMode,
      args.mode == TreeLevelMode, args.mode == ObjectIdMode,
      mark == NestedSetLeftMark, mark == NestedSetRightMark, mark == MaterializedPathMark,
      args.closureType)
  }

  function NewRelation(e: EntityMetadata, embedded: Option<EmbId>, pathPrefix: string, args: RelationArgs): (r: RelationMetadata)
    ensures r.entityMetadata == e && r.args == args && r.inverseEntityMetadata.None?
  {
    RelationMetadata(e, embedded, args, pathPrefix + args.propertyName, [], None, None, "", None)
  }

  function NewIndex(args: IndexArgs): IndexMetadata {
    IndexMetadata(args.target, args.name, PropertyNames(args.columns), args.unique, args.where)
  }

  function NewUnique(args: UniqueArgs): UniqueMetadata {
    UniqueMetadata(args.target, args.name, PropertyNames(args.columns))
  }

  function NewListener(args: ListenerArgs): EntityListenerMetadata {
    EntityListenerMetadata(args.target, args.propertyName, args.listenerType)
  }

  function NewCheck(args: CheckArgs): CheckMetadata {
    CheckMetadata(args.target, args.name, args.expression)
  }

  function NewExclusion(args: ExclusionArgs): ExclusionMetadata {
    ExclusionMetadata(args.target, args.name, args.expression)
  }

  // ---------------------------------------------------------------------
  // Relation kinds (the RelationMetadata getters the builder filters on)
  // ---------------------------------------------------------------------

  /** The owning side carries the join columns: every many-to-one, and a
      one-to-one or many-to-many once a foreign key with columns is
      registered on it. */
  predicate IsOwning(r: RelationMetadata) {
    r.args.relationType == ManyToOne
    || ((r.args.relationType == ManyToMany || r.args.relationType == OneToOne)
        && |r.foreignKeys| > 0 && |r.foreignKeys[0].columns| > 0)
  }

  predicate IsWithJoinColumn(r: RelationMetadata) {
    r.args.relationType == ManyToOne || (r.args.relationType == OneToOne && IsOwning(r))
  }

  // ---------------------------------------------------------------------
  // The entity being built
  // ---------------------------------------------------------------------

  /** The lists and buckets `computeEntityMetadataStep2` derives from an
      entity's own lists and its embeddeds; the entity holds them as one
      value, replaced as a whole. */
  datatype Derived = Derived(
    relations: seq<RelId>,
    eagerRelations: seq<RelId>,
    lazyRelations: seq<RelId>,
    oneToOneRelations: seq<RelId>,
    oneToManyRelations: seq<RelId>,
    manyToOneRelations: seq<RelId>,
    manyToManyRelations: seq<RelId>,
    ownerOneToOneRelations: seq<RelId>,
    ownerManyToManyRelations: seq<RelId>,
    treeParentRelation: Option<RelId>,
    treeChildrenRelation: Option<RelId>,
    columns: seq<ColId>,
    listeners: seq<EntityListenerMetadata>,
    afterLoadListeners: seq<EntityListenerMetadata>,
    afterInsertListeners: seq<EntityListenerMetadata>,
    afterUpdateListeners: seq<EntityListenerMetadata>,
    afterRemoveListeners: seq<EntityListenerMetadata>,
    beforeInsertListeners: seq<EntityListenerMetadata>,
    beforeUpdateListeners: seq<EntityListenerMetadata>,
    beforeRemoveListeners: seq<EntityListenerMetadata>,
    indices: seq<IndexMetadata>,
    uniques: seq<UniqueMetadata>,
    primaryColumns: seq<ColId>,
    nonVirtualColumns: seq<ColId>,
    ancestorColumns: seq<ColId>,
    descendantColumns: seq<ColId>,
    hasMultiplePrimaryKeys: bool,
    generatedColumns: seq<ColId>,
    hasUUIDGeneratedColumns: bool,
    createDateColumn: Option<ColId>,
    updateDateColumn: Option<ColId>,
    versionColumn: Option<ColId>,
    discriminatorColumn: Option<ColId>,
    treeLevelColumn: Option<ColId>,
    nestedSetLeftColumn: Option<ColId>,
    nestedSetRightColumn: Option<ColId>,
    materializedPathColumn: Option<ColId>,
    objectIdColumn: Option<ColId>
  )

  const NoDerived := Derived([], [], [], [], [], [], [], [], [], None, None, [], [], [], [], [], [], [], [], [], [], [], [], [], [], [], false, [], false, None, None, None, None, None, None, None, None, None)

  class EntityMetadata {
    const target: Target
    const name: string
    const tableType: TableType
    /** The declaration sources: the class chain, plus every single-table
        child when single-table inheritance applies. */
    const inheritanceTree: seq<Target>
    const inheritancePattern: Option<string>
    const treeType: Option<TreeType>

    var parentEntityMetadata: EntityMetadata?
    var childEntityMetadatas: seq<EntityMetadata>
    var discriminatorValue: Option<string>
    var closureJunctionTable: EntityMetadata?

    // raw lists, filled by step 1 and by the relation phases
    var embeddeds: seq<EmbId>
    var ownColumns: seq<ColId>
    var ownRelations: seq<RelId>
    var relationIds: seq<PropId>
    var relationCounts: seq<PropId>
    var ownListeners: seq<EntityListenerMetadata>
    var checks: seq<CheckMetadata>
    var exclusions: seq<ExclusionMetadata>
    var ownIndices: seq<IndexMetadata>
    var ownUniques: seq<UniqueMetadata>
    var foreignKeys: seq<ForeignKeyMetadata>
    var relationsWithJoinColumns: seq<RelId>
    var hasNonNullableRelations: bool

    /** The lists and buckets recomputed by step 2, as one value. */
    var derived: Derived

    /** A bare node: identity and classification fixed, every list empty. */
    constructor (target: Target, name: string, tableType: TableType, inheritanceTree: seq<Target>,
                 inheritancePattern: Option<string>, treeType: Option<TreeType>)
      ensures this.target == target && this.name == name && this.tableType == tableType
      ensures this.inheritanceTree == inheritanceTree && this.inheritancePattern == inheritancePattern
      ensures this.treeType == treeType
      ensures parentEntityMetadata == null && closureJunctionTable == null && childEntityMetadatas == []
      ensures embeddeds == [] && ownColumns == [] && ownRelations == [] && relationIds == [] && relationCounts == []
      ensures ownListeners == [] && checks == [] && exclusions == [] && ownIndices == [] && ownUniques == []
      ensures foreignKeys == [] && derived == NoDerived
    {
      this.target := target;
      this.name := name;
      this.tableType := tableType;
      this.inheritanceTree := inheritanceTree;
      this.inheritancePattern := inheritancePattern;
      this.treeType := treeType;
      parentEntityMetadata := null;
      childEntityMetadatas := [];
      discriminatorValue := None;
      closureJunctionTable := null;
      embeddeds, ownColumns, ownRelations, relationIds, relationCounts := [], [], [], [], [];
      ownListeners, checks, exclusions, ownIndices, ownUniques := [], [], [], [], [];
      foreignKeys, relationsWithJoinColumns, hasNonNullableRelations := [], [], false;
      derived := NoDerived;
    }
  }
}

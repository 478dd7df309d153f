/** The per-entity rules of the build, as functions: which declarations
    become entities, where a single-table child finds its parent, the
    synthesized discriminator and tree columns, the dialect split between
    unique indices and unique constraints, and the generated-column types. */
module Rules {
  import opened Wrappers
  import opened Seqs
  import opened Metadata

  // ---------------------------------------------------------------------
  // Selection and inheritance
  // ---------------------------------------------------------------------

  /** Only regular, closure and single-table-child declarations get a table. */
  predicate IsRealTable(t: TableArgs) {
    t.tableType == Regular || t.tableType == Closure || t.tableType == EntityChild
  }

  function RealTables(tables: seq<TableArgs>): (r: seq<TableArgs>)
    ensures forall i :: 0 <= i < |r| ==> IsRealTable(r[i]) && r[i] in tables
  {
    Filter(tables, IsRealTable)
  }

  /** No real table is left out of the selection. */
  lemma RealTablesComplete(tables: seq<TableArgs>)
    ensures forall i :: 0 <= i < |tables| && IsRealTable(tables[i]) ==> tables[i] in RealTables(tables)
  {
    forall i | 0 <= i < |tables| && IsRealTable(tables[i]) ensures tables[i] in RealTables(tables) {
      FilterKeeps(tables, IsRealTable, i);
    }
  }

  /** The selection keeps declaration order: selecting from a concatenation
      concatenates the selections. */
  lemma RealTablesKeepOrder(a: seq<TableArgs>, b: seq<TableArgs>)
    ensures RealTables(a + b) == RealTables(a) + RealTables(b)
  {
    FilterConcat(a, b, IsRealTable);
  }

  predicate IsClassTarget(t: Target) { t.ClassTarget? }

  predicate IsSti(inheritance: Option<InheritanceArgs>) {
    inheritance.Some? && inheritance.value.pattern == Some("STI")
  }

  /** The declaration sources of a table: the class chain (a string target is
      its own chain), plus the class targets of every single-table child when
      the table is a single-table root or child. */
  function InheritanceTreeFor(store: Store, t: TableArgs): (r: seq<Target>)
    ensures IsClassTarget(t.target) ==>
              (|r| >= |store.inheritanceTreeOf(t.target)|
               && r[..|store.inheritanceTreeOf(t.target)|] == store.inheritanceTreeOf(t.target))
    ensures !IsClassTarget(t.target) ==> |r| > 0 && r[0] == t.target
    ensures !(IsSti(store.findInheritanceType(t.target)) || t.tableType == EntityChild) ==>
              r == (if IsClassTarget(t.target) then store.inheritanceTreeOf(t.target) else [t.target])
  {
    var chain := if IsClassTarget(t.target) then store.inheritanceTreeOf(t.target) else [t.target];
    if IsSti(store.findInheritanceType(t.target)) || t.tableType == EntityChild
    then chain + Filter(store.filterSingleTableChildren(t.target), IsClassTarget)
    else chain
  }

  /** For a single-table root or child, the declaration sources after the
      class chain are exactly the class targets among its single-table
      children, in order. */
  lemma InheritanceTreeSuffix(store: Store, t: TableArgs)
    requires IsSti(store.findInheritanceType(t.target)) || t.tableType == EntityChild
    ensures var n := if IsClassTarget(t.target) then |store.inheritanceTreeOf(t.target)| else 1;
            var r := InheritanceTreeFor(store, t);
            |r| >= n && r[n..] == Filter(store.filterSingleTableChildren(t.target), IsClassTarget)
  {
    var chain := if IsClassTarget(t.target) then store.inheritanceTreeOf(t.target) else [t.target];
    assert InheritanceTreeFor(store, t)[|chain|..] == Filter(store.filterSingleTableChildren(t.target), IsClassTarget);
  }

  /** A single-table root or child lists every class among its single-table
      children as a declaration source, so each of them finds it as parent. */
  lemma InheritanceTreeHoldsChildren(store: Store, t: TableArgs, child: Target)
    requires IsSti(store.findInheritanceType(t.target)) || t.tableType == EntityChild
    requires child in store.filterSingleTableChildren(t.target) && IsClassTarget(child)
    ensures child in InheritanceTreeFor(store, t)
  {
    var r := InheritanceTreeFor(store, t);
    var n := if IsClassTarget(t.target) then |store.inheritanceTreeOf(t.target)| else 1;
    InheritanceTreeSuffix(store, t);
    FilterMembers(store.filterSingleTableChildren(t.target), IsClassTarget, child);
    assert child in r[n..];
  }

  function StiParentTest(t: Target): EntityMetadata -> bool {
    (m: EntityMetadata) => t in m.inheritanceTree && m.inheritancePattern == Some("STI")
  }

  /** The position of the parent of a single-table child: the first entity
      with pattern "STI" whose inheritance tree holds the child's target. */
  function StiParentIndex(all: seq<EntityMetadata>, t: Target): (r: Option<nat>)
    ensures r.Some? ==> r.value < |all| && t in all[r.value].inheritanceTree
                        && all[r.value].inheritancePattern == Some("STI")
    ensures r.Some? ==> forall j :: 0 <= j < r.value ==>
              !(t in all[j].inheritanceTree && all[j].inheritancePattern == Some("STI"))
    ensures r.None? ==> forall j :: 0 <= j < |all| ==>
              !(t in all[j].inheritanceTree && all[j].inheritancePattern == Some("STI"))
  {
    FindIndex(all, StiParentTest(t))
  }

  /** The entities whose class inherits from `m`'s class. */
  function ChildrenOf(all: seq<EntityMetadata>, m: EntityMetadata, isInherited: (Target, Target) -> bool): (r: seq<EntityMetadata>)
    ensures forall i :: 0 <= i < |r| ==> r[i] in all && IsClassTarget(m.target) && IsClassTarget(r[i].target)
                                         && isInherited(r[i].target, m.target)
  {
    Filter(all, ChildTest(m, isInherited))
  }

  function ChildTest(m: EntityMetadata, isInherited: (Target, Target) -> bool): EntityMetadata -> bool {
    (c: EntityMetadata) => IsClassTarget(m.target) && IsClassTarget(c.target) && isInherited(c.target, m.target)
  }

  /** Every entity whose class inherits from `m`'s class is one of its children. */
  lemma ChildrenOfComplete(all: seq<EntityMetadata>, m: EntityMetadata, isInherited: (Target, Target) -> bool)
    ensures IsClassTarget(m.target) ==>
              forall i :: 0 <= i < |all| && IsClassTarget(all[i].target) && isInherited(all[i].target, m.target)
                ==> all[i] in ChildrenOf(all, m, isInherited)
  {
    forall i | 0 <= i < |all| && IsClassTarget(m.target) && IsClassTarget(all[i].target) && isInherited(all[i].target, m.target)
      ensures all[i] in ChildrenOf(all, m, isInherited)
    {
      FilterKeeps(all, ChildTest(m, isInherited), i);
    }
  }

  /** The discriminator value: the declared one, else the class name (a
      string target has no name, so none). */
  function DiscriminatorValueFor(declared: Option<string>, t: Target): (r: Option<string>)
    ensures declared.Some? ==> r == declared
    ensures declared.None? && t.ClassTarget? ==> r == Some(t.className)
    ensures declared.None? && t.NameTarget? ==> r.None?
  {
    if declared.Some? then declared
    else if t.ClassTarget? then Some(t.className)
    else None
  }

  // ---------------------------------------------------------------------
  // Synthesized columns
  // ---------------------------------------------------------------------

  /** The discriminator's property name: the declared column name when it is
      a non-empty string, "type" otherwise. */
  function DiscriminatorName(opts: ColumnOptions): (r: string)
    ensures r != ""
    ensures opts.name.None? ==> r == "type"
    ensures opts.name.Some? && opts.name.value != "" ==> r == opts.name.value
  {
    if opts.name.Some? && opts.name.value != "" then opts.name.value else "type"
  }

  datatype TreeColumn = TreeColumn(args: ColumnArgs, mark: TreeMark)

  /** The bookkeeping columns a tree strategy asks for. */
  function TreeColumnsFor(treeType: Option<TreeType>, t: Target): (r: seq<TreeColumn>)
    ensures treeType == Some(MaterializedPath) ==>
              |r| == 1 && r[0].mark == MaterializedPathMark && r[0].args.propertyName == "mpath"
              && r[0].args.options.columnType == Named("varchar") && r[0].args.options.nullable
              && r[0].args.options.defaultValue == TextDefault("")
    ensures treeType == Some(NestedSet) ==>
              |r| == 2 && r[0].mark == NestedSetLeftMark && r[0].args.propertyName == "nsleft"
              && r[1].mark == NestedSetRightMark && r[1].args.propertyName == "nsright"
              && r[0].args.options.columnType == r[1].args.options.columnType == Named("integer")
              && !r[0].args.options.nullable && !r[1].args.options.nullable
              && r[0].args.options.defaultValue == IntDefault(1) && r[1].args.options.defaultValue == IntDefault(2)
    ensures treeType != Some(MaterializedPath) && treeType != Some(NestedSet) ==> r == []
    ensures forall i :: 0 <= i < |r| ==> r[i].args.target == t && r[i].args.mode == VirtualMode
  {
    match treeType
    case Some(MaterializedPath) =>
      [TreeColumn(ColumnArgs(t, "mpath", VirtualMode,
                             ColumnOptions(Some("mpath"), Named("varchar"), true, false, TextDefault("")), None),
                  MaterializedPathMark)]
    case Some(NestedSet) =>
      [TreeColumn(ColumnArgs(t, "nsleft", VirtualMode,
                             ColumnOptions(Some("nsleft"), Named("integer"), false, false, IntDefault(1)), None),
                  NestedSetLeftMark),
       TreeColumn(ColumnArgs(t, "nsright", VirtualMode,
                             ColumnOptions(Some("nsright"), Named("integer"), false, false, IntDefault(2)), None),
                  NestedSetRightMark)]
    case _ => []
  }

  /** The type a generated column ends up with: "uuid" for the uuid
      strategy, "int" for rowid, otherwise the declared type or `Number`. */
  function GeneratedColumnType(strategy: string, current: ColumnType): (r: ColumnType)
    ensures strategy == "uuid" ==> r == Named("uuid")
    ensures strategy == "rowid" ==> r == Named("int")
    ensures strategy != "uuid" && strategy != "rowid" ==>
              r == (if current == Unspecified || current == Named("") then NumberType else current)
    ensures r != Unspecified && r != Named("")
  {
    if strategy == "uuid" then Named("uuid")
    else if strategy == "rowid" then Named("int")
    else if current == Unspecified || current == Named("") then NumberType
    else current
  }

  /** Lines 210-222: a column with a "generated" declaration is marked
      generated by the declared strategy and gets the strategy's type;
      nothing else of it changes. */
  function WithGeneration(c: ColumnMetadata, strategy: string): (r: ColumnMetadata)
    ensures r.isGenerated && r.generationStrategy == Some(strategy)
    ensures r.columnType == GeneratedColumnType(strategy, c.columnType)
    ensures r == c.(isGenerated := r.isGenerated, generationStrategy := r.generationStrategy, columnType := r.columnType)
  {
    c.(isGenerated := true, generationStrategy := Some(strategy), columnType := GeneratedColumnType(strategy, c.columnType))
  }

  /** Marking a column generated twice by the same strategy is marking it
      once: the type the first marking gave is kept. */
  lemma WithGenerationIdempotent(c: ColumnMetadata, strategy: string)
    ensures WithGeneration(WithGeneration(c, strategy), strategy) == WithGeneration(c, strategy)
  {
  }

  /** The index lines 582-589 create for a single-table inheritance root:
      non-unique, over the discriminator column alone. */
  function InheritanceIndex(t: Target, discriminator: ColId): IndexMetadata {
    IndexMetadata(t, None, Columns([discriminator]), false, None)
  }

  // ---------------------------------------------------------------------
  // Dialect rules
  // ---------------------------------------------------------------------

  function NotNullClause(escape: string -> string): string -> string {
    (n: string) => escape(n) + " IS NOT NULL"
  }

  /** `columns.map(c => escape(c.databaseName) + " IS NOT NULL").join(" AND ")`. */
  function NotNullWhere(names: seq<string>, escape: string -> string): string {
    Join(Map(names, NotNullClause(escape)), " AND ")
  }

  /** The where clause grows by one " AND "-joined conjunct per column. */
  lemma NotNullWhereSnoc(names: seq<string>, n: string, escape: string -> string)
    requires |names| > 0
    ensures NotNullWhere(names + [n], escape) == NotNullWhere(names, escape) + " AND " + escape(n) + " IS NOT NULL"
  {
    var f := NotNullClause(escape);
    assert Map(names + [n], f) == Map(names, f) + [f(n)];
    JoinSnoc(Map(names, f), " AND ", f(n));
  }

  lemma NotNullWhereSingle(n: string, escape: string -> string)
    ensures NotNullWhere([n], escape) == escape(n) + " IS NOT NULL"
  {
    assert Map([n], NotNullClause(escape)) == [escape(n) + " IS NOT NULL"];
  }

  /** Where a uniqueness requirement of a relation ends up. */
  datatype UniquePlacement = AsIndex(index: IndexMetadata) | AsConstraint(unique: UniqueMetadata)

  function JoinColumnIds(cs: seq<JoinUniqueColumn>): (r: seq<ColId>)
    ensures |r| == |cs| && forall k :: 0 <= k < |cs| ==> r[k] == cs[k].id
  {
    Map(cs, (c: JoinUniqueColumn) => c.id)
  }

  function JoinColumnNames(cs: seq<JoinUniqueColumn>): (r: seq<string>)
    ensures |r| == |cs| && forall k :: 0 <= k < |cs| ==> r[k] == cs[k].databaseName
  {
    Map(cs, (c: JoinUniqueColumn) => c.databaseName)
  }

  /** MySQL and SQL Server get a unique index (SQL Server's filtered by
      "IS NOT NULL" on every column); every other dialect a unique constraint. */
  function PlaceRelationUnique(dialect: Dialect, u: JoinUnique, escape: string -> string): (r: UniquePlacement)
    ensures r.AsIndex? <==> dialect == Mysql || dialect == SqlServer
    ensures r.AsIndex? ==> r.index.isUnique && r.index.columns == Columns(JoinColumnIds(u.columns))
                           && r.index.target == u.target && r.index.name == u.name
    ensures r.AsIndex? ==> (r.index.where.Some? <==> dialect == SqlServer)
    ensures dialect == SqlServer ==> r.index.where == Some(NotNullWhere(JoinColumnNames(u.columns), escape))
    ensures r.AsConstraint? ==> r.unique == UniqueMetadata(u.target, u.name, Columns(JoinColumnIds(u.columns)))
  {
    var ids := JoinColumnIds(u.columns);
    if dialect == Mysql || dialect == SqlServer then
      AsIndex(IndexMetadata(u.target, u.name, Columns(ids), true,
                            if dialect == SqlServer then Some(NotNullWhere(JoinColumnNames(u.columns), escape)) else None))
    else
      AsConstraint(UniqueMetadata(u.target, u.name, Columns(ids)))
  }

  /** On SQL Server the filter has one `escape(name) IS NOT NULL` conjunct
      per column of the unique index, the k-th naming the k-th column. */
  lemma RelationUniqueFilterMatchesColumns(u: JoinUnique, escape: string -> string)
    requires |u.columns| > 0
    ensures var r := PlaceRelationUnique(SqlServer, u, escape);
            var ids := r.index.columns.ids;
            var n := |u.columns|;
            && r.AsIndex? && r.index.columns.Columns? && |ids| == n
            && (forall k :: 0 <= k < n ==> ids[k] == u.columns[k].id)
            && r.index.where == Some(if n == 1 then escape(u.columns[0].databaseName) + " IS NOT NULL"
                                     else NotNullWhere(JoinColumnNames(u.columns[..n - 1]), escape) + " AND "
                                          + escape(u.columns[n - 1].databaseName) + " IS NOT NULL")
  {
    var n := |u.columns|;
    var names := JoinColumnNames(u.columns);
    if n == 1 {
      assert names == [u.columns[0].databaseName];
      NotNullWhereSingle(u.columns[0].databaseName, escape);
    } else {
      assert names == JoinColumnNames(u.columns[..n - 1]) + [u.columns[n - 1].databaseName];
      NotNullWhereSnoc(JoinColumnNames(u.columns[..n - 1]), u.columns[n - 1].databaseName, escape);
    }
  }

  /** The non-unique index CockroachDB gets over a foreign key's columns. */
  function ForeignKeyIndex(holder: Target, fk: ForeignKeyMetadata): IndexMetadata {
    IndexMetadata(holder, None, Columns(fk.columns), false, None)
  }

  /** Everything the join columns of one relation add to the relation's
      holder (its embedded, else its entity), in order: the placed unique
      requirement, then CockroachDB's foreign-key index. */
  function JoinColumnConstraints(dialect: Dialect, jc: JoinColumnResult, holder: Target, escape: string -> string): (c: Constraints)
    ensures |c.indices| == (if jc.uniqueConstraint.Some? && (dialect == Mysql || dialect == SqlServer) then 1 else 0)
                           + (if jc.foreignKey.Some? && dialect == Cockroach then 1 else 0)
    ensures |c.uniques| == (if jc.uniqueConstraint.Some? && dialect != Mysql && dialect != SqlServer then 1 else 0)
    ensures forall i :: 0 <= i < |c.indices| ==> (c.indices[i].isUnique <==> dialect != Cockroach)
    ensures jc.uniqueConstraint.Some? ==>
              var u := jc.uniqueConstraint.value;
              match PlaceRelationUnique(dialect, u, escape)
              case AsIndex(i) => c.indices[0] == i
              case AsConstraint(q) => c.uniques == [q]
    ensures jc.foreignKey.Some? && dialect == Cockroach ==>
              c.indices == [ForeignKeyIndex(holder, jc.foreignKey.value)]
  {
    var placed :=
      match jc.uniqueConstraint
      case None => Constraints([], [])
      case Some(u) =>
        match PlaceRelationUnique(dialect, u, escape)
        case AsIndex(i) => Constraints([i], [])
        case AsConstraint(q) => Constraints([], [q]);
    var fkIndex := if jc.foreignKey.Some? && dialect == Cockroach then [ForeignKeyIndex(holder, jc.foreignKey.value)] else [];
    Constraints(placed.indices + fkIndex, placed.uniques)
  }

  function IsUniqueIndexArgs(a: IndexArgs): bool { a.unique }
  function IsPlainIndexArgs(a: IndexArgs): bool { !a.unique }

  function UniqueFromIndexArgs(a: IndexArgs): UniqueMetadata {
    UniqueMetadata(a.target, a.name, PropertyNames(a.columns))
  }

  function UniqueIndexFromUniqueArgs(a: UniqueArgs): IndexMetadata {
    IndexMetadata(a.target, a.name, PropertyNames(a.columns), true, None)
  }

  /** The entity's declared indices and uniques under a dialect: CockroachDB
      keeps unique indices as unique constraints, MySQL keeps unique
      constraints as unique indices. */
  datatype Constraints = Constraints(indices: seq<IndexMetadata>, uniques: seq<UniqueMetadata>)

  function DeclaredConstraints(dialect: Dialect, idx: seq<IndexArgs>, uq: seq<UniqueArgs>): Constraints {
    var indices :=
      if dialect == Cockroach then Map(Filter(idx, IsPlainIndexArgs), NewIndex) else Map(idx, NewIndex);
    var fromIndices :=
      if dialect == Cockroach then Map(Filter(idx, IsUniqueIndexArgs), UniqueFromIndexArgs) else [];
    if dialect == Mysql then Constraints(indices + Map(uq, UniqueIndexFromUniqueArgs), fromIndices)
    else Constraints(indices, fromIndices + Map(uq, NewUnique))
  }

  /** The dialect split keeps the number of declarations, MySQL keeps no
      unique constraint, and CockroachDB keeps no unique index. */
  lemma DeclaredConstraintsAccounting(dialect: Dialect, idx: seq<IndexArgs>, uq: seq<UniqueArgs>)
    ensures var c := DeclaredConstraints(dialect, idx, uq);
            |c.indices| + |c.uniques| == |idx| + |uq|
    ensures dialect == Mysql ==> DeclaredConstraints(dialect, idx, uq).uniques == []
    ensures dialect == Cockroach ==>
              forall i :: 0 <= i < |DeclaredConstraints(dialect, idx, uq).indices| ==>
                !DeclaredConstraints(dialect, idx, uq).indices[i].isUnique
  {
    FilterSplit(idx, IsPlainIndexArgs, IsUniqueIndexArgs);
  }

  /** Where each declaration lands: a non-unique index (any index off
      CockroachDB) among the indices, a unique index on CockroachDB among the
      uniques, a unique among the indices on MySQL and among the uniques
      elsewhere; and the two lists hold nothing else. */
  lemma DeclaredConstraintsPlacement(dialect: Dialect, idx: seq<IndexArgs>, uq: seq<UniqueArgs>)
    ensures forall a :: a in idx && (dialect != Cockroach || !a.unique) ==>
              NewIndex(a) in DeclaredConstraints(dialect, idx, uq).indices
    ensures forall a :: a in idx && dialect == Cockroach && a.unique ==>
              UniqueFromIndexArgs(a) in DeclaredConstraints(dialect, idx, uq).uniques
    ensures forall q :: q in uq && dialect == Mysql ==>
              UniqueIndexFromUniqueArgs(q) in DeclaredConstraints(dialect, idx, uq).indices
    ensures forall q :: q in uq && dialect != Mysql ==>
              NewUnique(q) in DeclaredConstraints(dialect, idx, uq).uniques
    ensures forall x :: x in DeclaredConstraints(dialect, idx, uq).indices ==>
              (exists a :: a in idx && (dialect != Cockroach || !a.unique) && x == NewIndex(a))
              || (exists q :: q in uq && dialect == Mysql && x == UniqueIndexFromUniqueArgs(q))
    ensures forall x :: x in DeclaredConstraints(dialect, idx, uq).uniques ==>
              (exists a :: a in idx && dialect == Cockroach && a.unique && x == UniqueFromIndexArgs(a))
              || (exists q :: q in uq && dialect != Mysql && x == NewUnique(q))
  {
    var plain := if dialect == Cockroach then Filter(idx, IsPlainIndexArgs) else idx;
    var fromIndices := if dialect == Cockroach then Filter(idx, IsUniqueIndexArgs) else [];
    var c := DeclaredConstraints(dialect, idx, uq);
    assert Map(plain, NewIndex) == (if dialect == Cockroach then Map(Filter(idx, IsPlainIndexArgs), NewIndex) else Map(idx, NewIndex));
    forall a | a in idx
      ensures a in plain <==> dialect != Cockroach || !a.unique
      ensures a in fromIndices <==> dialect == Cockroach && a.unique
    {
      FilterMembers(idx, IsPlainIndexArgs, a);
      FilterMembers(idx, IsUniqueIndexArgs, a);
    }
    forall a | a in plain ensures a in idx {
      FilterMembers(idx, IsPlainIndexArgs, a);
    }
    forall a | a in fromIndices ensures a in idx {
      FilterMembers(idx, IsUniqueIndexArgs, a);
    }
    forall x | x in c.indices
      ensures (exists a :: a in idx && (dialect != Cockroach || !a.unique) && x == NewIndex(a))
              || (exists q :: q in uq && dialect == Mysql && x == UniqueIndexFromUniqueArgs(q))
    {
      if x in Map(plain, NewIndex) {
        MapMembers(plain, NewIndex, x);
      } else {
        MapMembers(uq, UniqueIndexFromUniqueArgs, x);
      }
    }
    forall x | x in c.uniques
      ensures (exists a :: a in idx && dialect == Cockroach && a.unique && x == UniqueFromIndexArgs(a))
              || (exists q :: q in uq && dialect != Mysql && x == NewUnique(q))
    {
      if x in Map(fromIndices, UniqueFromIndexArgs) {
        MapMembers(fromIndices, UniqueFromIndexArgs, x);
      } else {
        MapMembers(uq, NewUnique, x);
      }
    }
    forall a | a in idx && (dialect != Cockroach || !a.unique) ensures NewIndex(a) in c.indices {
      MapMembers(plain, NewIndex, NewIndex(a));
    }
    forall a | a in idx && dialect == Cockroach && a.unique ensures UniqueFromIndexArgs(a) in c.uniques {
      MapMembers(fromIndices, UniqueFromIndexArgs, UniqueFromIndexArgs(a));
    }
    forall q | q in uq && dialect == Mysql ensures UniqueIndexFromUniqueArgs(q) in c.indices {
      MapMembers(uq, UniqueIndexFromUniqueArgs, UniqueIndexFromUniqueArgs(q));
    }
    forall q | q in uq && dialect != Mysql ensures NewUnique(q) in c.uniques {
      MapMembers(uq, NewUnique, NewUnique(q));
    }
  }

  // ---------------------------------------------------------------------
  // Reuse by single-table children
  // ---------------------------------------------------------------------

  function NameTest(nameOf: nat -> Option<string>, name: string): nat -> bool {
    (i: nat) => nameOf(i) == Some(name)
  }

  /** `wanted.map(n => parentList.find(x => x.propertyName === n))`, failing
      with the first name the parent's list does not have. */
  function ReuseByName(parentIds: seq<nat>, nameOf: nat -> Option<string>, wanted: seq<string>): (r: Result<seq<nat>, string>)
    ensures r.Ok? ==> |r.value| == |wanted|
  {
    if wanted == [] then Ok([])
    else
      match Find(parentIds, NameTest(nameOf, wanted[0]))
      case None => Err(wanted[0])
      case Some(id) =>
        match ReuseByName(parentIds, nameOf, wanted[1..])
        case Err(n) => Err(n)
        case Ok(rest) => Ok([id] + rest)
  }

  /** After a successful reuse, the k-th reused object is the parent's
      first one named like the k-th wanted name. */
  lemma {:induction false} ReuseByNameOk(parentIds: seq<nat>, nameOf: nat -> Option<string>, wanted: seq<string>)
    ensures var r := ReuseByName(parentIds, nameOf, wanted);
            r.Ok? ==> forall k :: 0 <= k < |wanted| ==>
              r.value[k] in parentIds && nameOf(r.value[k]) == Some(wanted[k])
              && Find(parentIds, NameTest(nameOf, wanted[k])) == Some(r.value[k])
  {
    if wanted != [] {
      ReuseByNameOk(parentIds, nameOf, wanted[1..]);
      var r := ReuseByName(parentIds, nameOf, wanted);
      var f := Find(parentIds, NameTest(nameOf, wanted[0]));
      var rest := ReuseByName(parentIds, nameOf, wanted[1..]);
      if f.Some? && rest.Ok? {
        assert r.value == [f.value] + rest.value;
        forall k | 0 <= k < |wanted|
          ensures r.value[k] in parentIds && nameOf(r.value[k]) == Some(wanted[k])
                  && Find(parentIds, NameTest(nameOf, wanted[k])) == Some(r.value[k])
        {
          if k > 0 { assert wanted[k] == wanted[1..][k - 1] && r.value[k] == rest.value[k - 1]; }
        }
      }
    }
  }

  /** Reuse succeeds exactly when the parent's list has every wanted name;
      otherwise the error is a wanted name the parent's list lacks entirely. */
  lemma {:induction false} ReuseByNameErr(parentIds: seq<nat>, nameOf: nat -> Option<string>, wanted: seq<string>)
    ensures var r := ReuseByName(parentIds, nameOf, wanted);
            r.Err? ==> r.error in wanted && forall j :: 0 <= j < |parentIds| ==> nameOf(parentIds[j]) != Some(r.error)
    ensures ReuseByName(parentIds, nameOf, wanted).Ok? <==>
              forall k :: 0 <= k < |wanted| ==> Find(parentIds, NameTest(nameOf, wanted[k])).Some?
  {
    if wanted != [] {
      ReuseByNameErr(parentIds, nameOf, wanted[1..]);
      var f := Find(parentIds, NameTest(nameOf, wanted[0]));
      var rest := ReuseByName(parentIds, nameOf, wanted[1..]);
      if f.Some? && rest.Err? {
        var k :| 0 <= k < |wanted[1..]| && !Find(parentIds, NameTest(nameOf, wanted[1..][k])).Some?;
        assert wanted[1..][k] == wanted[k + 1];
        assert rest.error in wanted[1..];
      }
      if f.Some? && rest.Ok? {
        forall k | 0 <= k < |wanted| ensures Find(parentIds, NameTest(nameOf, wanted[k])).Some? {
          if k > 0 { assert wanted[k] == wanted[1..][k - 1]; }
        }
      }
    }
  }

  // ---------------------------------------------------------------------
  // Inverse sides
  // ---------------------------------------------------------------------

  /** Whether entity `m` is the one a relation to `t` points at: the same
      target, or, when `t` is a string, an entity of that name. */
  function InverseTest(t: Target): EntityMetadata -> bool {
    (m: EntityMetadata) => m.target == t || (t.NameTarget? && TargetName(m.target) == t.name)
  }

  function PathTest(rels: seq<RelationMetadata>, path: string): RelId -> bool {
    (i: RelId) => i < |rels| && rels[i].propertyPath == path
  }

  /** The relation `r` resolved against entity `m`: `m` becomes its inverse
      entity, `path` its inverse-side property path, and the first relation of
      `m` at that path its inverse relation. */
  function Resolved(r: RelationMetadata, m: EntityMetadata, path: string, rels: seq<RelationMetadata>): RelationMetadata
    reads m`derived
  {
    r.(inverseEntityMetadata := Some(m), inverseSidePropertyPath := path,
       inverseRelation := Find(m.derived.relations, PathTest(rels, path)))
  }

  /** Whether relation `id` is one-to-one or many-to-one, the relations
      that get join columns. */
  function SingleValuedTest(rels: seq<RelationMetadata>): RelId -> bool {
    (id: RelId) => id < |rels| && (rels[id].args.relationType == OneToOne || rels[id].args.relationType == ManyToOne)
  }

  /** Whether relation `id` is many-to-many, the relations that may get a
      junction entity. */
  function ManyToManyTest(rels: seq<RelationMetadata>): RelId -> bool {
    (id: RelId) => id < |rels| && rels[id].args.relationType == ManyToMany
  }

  /** A relation the database must fill: declared non-nullable, or
      primary. */
  predicate IsRequired(r: RelationMetadata) {
    !r.args.nullable || r.args.primary
  }

  function JoinColumnTest(rels: seq<RelationMetadata>): RelId -> bool {
    (id: RelId) => id < |rels| && IsWithJoinColumn(rels[id])
  }

  function RequiredTest(rels: seq<RelationMetadata>): RelId -> bool {
    (id: RelId) => id < |rels| && IsRequired(rels[id])
  }

  /** What lines 162-166 derive from an entity's relations `ids`: the
      relations with a join column are exactly those of `ids` that have
      one, and some of them is required exactly when a relation of `ids`
      has a join column and is required. */
  lemma DependentPropertiesMeaning(rels: seq<RelationMetadata>, ids: seq<RelId>)
    ensures forall x: RelId :: x in Filter(ids, JoinColumnTest(rels)) <==> x in ids && x < |rels| && IsWithJoinColumn(rels[x])
    ensures Any(Filter(ids, JoinColumnTest(rels)), RequiredTest(rels)) <==>
              exists x: RelId :: x in ids && x < |rels| && IsWithJoinColumn(rels[x]) && IsRequired(rels[x])
  {
    var w := Filter(ids, JoinColumnTest(rels));
    forall x: RelId ensures x in w <==> x in ids && x < |rels| && IsWithJoinColumn(rels[x]) {
      FilterMembers(ids, JoinColumnTest(rels), x);
    }
    if exists x: RelId :: x in ids && x < |rels| && IsWithJoinColumn(rels[x]) && IsRequired(rels[x]) {
      var x: RelId :| x in ids && x < |rels| && IsWithJoinColumn(rels[x]) && IsRequired(rels[x]);
      var i :| 0 <= i < |w| && w[i] == x;
      assert RequiredTest(rels)(w[i]);
    }
  }

  /** `b` is `a` with at most its inverse side changed. */
  predicate SameButInverse(a: RelationMetadata, b: RelationMetadata) {
    && a.entityMetadata == b.entityMetadata && a.embedded == b.embedded && a.args == b.args
    && a.propertyPath == b.propertyPath && a.foreignKeys == b.foreignKeys
    && a.junctionEntityMetadata == b.junctionEntityMetadata
  }

  /** The inverse entity is the first entity the relation's type points at. */
  lemma InverseEntityIsFirst(all: seq<EntityMetadata>, t: Target)
    ensures Find(all, InverseTest(t)).Some? <==> FindIndex(all, InverseTest(t)).Some?
    ensures FindIndex(all, InverseTest(t)).Some? ==>
              var k := FindIndex(all, InverseTest(t)).value;
              Find(all, InverseTest(t)) == Some(all[k]) && forall j :: 0 <= j < k ==> !InverseTest(t)(all[j])
  {
  }

  /** What resolution against `m` promises: `m` and `path` are recorded; the
      inverse relation, when there is one, is a relation of `m` at `path`
      with none of `m`'s relations before it at that path; there is none
      exactly when no relation of `m` is at `path`; nothing else of the
      relation changes; resolving again changes nothing. */
  lemma ResolvedMeaning(r: RelationMetadata, m: EntityMetadata, path: string, rels: seq<RelationMetadata>)
    ensures var x := Resolved(r, m, path, rels);
            && SameButInverse(r, x) && x.inverseEntityMetadata == Some(m) && x.inverseSidePropertyPath == path
            && (x.inverseRelation.Some? ==>
                  x.inverseRelation.value < |rels| && rels[x.inverseRelation.value].propertyPath == path
                  && x.inverseRelation == Some(m.derived.relations[FindIndex(m.derived.relations, PathTest(rels, path)).value]))
            && (x.inverseRelation.None? <==>
                  forall j :: 0 <= j < |m.derived.relations| ==> !PathTest(rels, path)(m.derived.relations[j]))
            && Resolved(x, m, path, rels) == x
  {
  }
}

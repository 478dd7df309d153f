# Entity metadata builder

This project models `EntityMetadataBuilder`. It turns the declarations an ORM collects from entity decorators or entity schemas into a graph of entity metadata. The declarations cover tables, columns, relations, embeddeds, relation ids and counts, listeners, indices, uniques, checks, exclusions, inheritance, trees, join columns, join tables and generated columns.

The build runs a fixed sequence of phases:

1. Select the real tables and create one entity per table.
2. Link every single-table child to its parent and every entity to its children.
3. Run step 1 (structural build) for non-children, then for children. A child reuses its parent's column, relation, relation-id and relation-count objects by property name.
4. Run step 2 (derived projection) for every entity.
5. Resolve the inverse side of every relation.
6. Build join columns, foreign keys and junction entities for the non-child entities.
7. Compute the join-column flags.
8. Build the closure junction entities.
9. Add the single-table inheritance index.
10. Hand the lazy relations to the relation loader.
11. Mark the generated columns.

The model is imperative, as the source is:

- `Builder.EntityMetadataBuilder` is a class. Its arenas are `seq` fields that hold every column, relation, embedded, relation-id and relation-count object the build allocates. A record's id is its position in its arena. The entity's lists hold ids, so two entities that share one column object hold the same id.
- `Metadata.EntityMetadata` is a class whose fields the phases assign.
- Step 2 recomputes about forty derived lists and flags. The entity holds them as one `Derived` value, which each projection replaces as a whole.
- `Projection.Projected` is the specification function for step 2. `Builder.EntityMetadataBuilder.ComputeEntityMetadataStep2` is proved against it.

The builder's inputs are passed in as data:

- The declaration store and class reflection are a `Store` value of query functions.
- The driver dialect, the driver's `escape`, the join-column, junction and closure-junction builders, and `buildInverseSidePropertyPath` are a `Collaborators` value.

The model follows the code as written, also where it looks mistaken. The two suspected defects listed under "## Findings" (lines 544 and 582) run as written in the build, and the corrected definitions are proved beside them. Points where the code's behaviour is easy to misread:

- **Generated column types.** Lines 214-222 set "uuid" and "int" even over an explicit type. Other strategies keep the declared type or default to `Number`; there is no separate "sequence→integer" rule.
- **"IS NOT NULL" filter.** Lines 105-108 add it only to the unique index that a relation's uniqueness requirement produces on SQL Server, whether or not the columns are nullable.
- **Single-table parent.** Lines 266-268 take the first matching "STI" entity, not a unique one.
- **Inheritance index.** Lines 178-180 apply to every entity whose pattern is "STI" and that has a discriminator column, not only to inheritance roots.
- **Failure modes.** A single-table child with no parent, or with a declaration its parent lacks, makes the code dereference or store `undefined`. The model reports these as build errors (`UndefinedParent`, `UndefinedInherited`).

## Model

All source paths are in `metadata-builder/EntityMetadataBuilder.js`.

| member | source | states |
|---|---|---|
| Rules.RealTables | metadata-builder/EntityMetadataBuilder.js:48 | Only regular, closure and single-table-child declarations become entities, each one taken from the declarations |
| Rules.RealTablesComplete | metadata-builder/EntityMetadataBuilder.js:48 | No regular, closure or single-table-child declaration is left out |
| Rules.RealTablesKeepOrder | metadata-builder/EntityMetadataBuilder.js:48 | The selection keeps declaration order: selecting from two lists one after the other is selecting from their concatenation |
| Rules.InheritanceTreeFor | metadata-builder/EntityMetadataBuilder.js:241-254 | The declaration sources start with the class chain (a string target is its own chain); single-table children are appended only for a single-table root or child |
| Rules.InheritanceTreeSuffix | metadata-builder/EntityMetadataBuilder.js:248-253 | For a single-table root or child, the sources after the class chain are exactly the class targets among its single-table children, in order |
| Rules.InheritanceTreeHoldsChildren | metadata-builder/EntityMetadataBuilder.js:248-253 | Every single-table child class of a single-table root or child is among its declaration sources |
| Rules.StiParentIndex | metadata-builder/EntityMetadataBuilder.js:266-268 | The parent is the first entity with pattern "STI" whose inheritance tree holds the child's target; it is absent exactly when no entity qualifies |
| Rules.ChildrenOf | metadata-builder/EntityMetadataBuilder.js:54-59 | Children are entities of the list, and both they and the parent have class targets |
| Rules.ChildrenOfComplete | metadata-builder/EntityMetadataBuilder.js:54-59 | Every class entity that inherits from a class entity is among its children |
| Rules.DiscriminatorValueFor | metadata-builder/EntityMetadataBuilder.js:275-276 | The declared discriminator value wins, otherwise the class name; a string target without a declared value has none |
| Rules.DiscriminatorName | metadata-builder/EntityMetadataBuilder.js:304 | The discriminator column is named as declared, and "type" when no name is declared; the name is never empty |
| Rules.TreeColumnsFor | metadata-builder/EntityMetadataBuilder.js:338-389 | Materialized path gives one nullable varchar "mpath" column with default ""; nested set gives non-nullable integer "nsleft"/"nsright" columns with defaults 1 and 2; any other tree gives none; all are virtual columns of the entity |
| Rules.GeneratedColumnType | metadata-builder/EntityMetadataBuilder.js:214-222 | The "uuid" strategy gives type uuid and "rowid" gives int; any other strategy keeps the declared type or falls back to `Number`; the result is never unset |
| Rules.WithGeneration | metadata-builder/EntityMetadataBuilder.js:211-222 | A generated column is flagged generated, records its strategy and gets the strategy's type; nothing else of it changes |
| Rules.WithGenerationIdempotent | metadata-builder/EntityMetadataBuilder.js:210-225 | Marking a column generated twice by the same strategy equals marking it once |
| Rules.NotNullWhereSnoc | metadata-builder/EntityMetadataBuilder.js:106-108 | Every further column adds one " AND "-joined `escape(name) IS NOT NULL` conjunct |
| Rules.NotNullWhereSingle | metadata-builder/EntityMetadataBuilder.js:106-108 | A single column's filter is `escape(name) IS NOT NULL` |
| Rules.PlaceRelationUnique | metadata-builder/EntityMetadataBuilder.js:93-126 | A relation's uniqueness requirement becomes a unique index exactly on MySQL and SQL Server, filtered exactly on SQL Server by the `IS NOT NULL` conjunction over the database names of the very join columns it indexes, and a unique constraint with the same target, name and columns on every other dialect |
| Rules.RelationUniqueFilterMatchesColumns | metadata-builder/EntityMetadataBuilder.js:95-108 | On SQL Server the index covers the join columns in order and its filter ends with the `IS NOT NULL` conjunct of the last of them, after the filter of the others |
| Rules.JoinColumnConstraints | metadata-builder/EntityMetadataBuilder.js:93-144 | Counts what one relation adds to its holder per dialect: the placed unique requirement first, then CockroachDB's non-unique index over the foreign key's columns; indices are unique exactly off CockroachDB |
| Rules.DeclaredConstraintsAccounting | metadata-builder/EntityMetadataBuilder.js:420-466 | The dialect split keeps the number of declarations; MySQL keeps no unique constraints; CockroachDB keeps no unique indices |
| Rules.DeclaredConstraintsPlacement | metadata-builder/EntityMetadataBuilder.js:420-466 | Per dialect, both ways: a declared index stays an index unless it is unique on CockroachDB, where it becomes a unique constraint; a declared unique becomes a unique index on MySQL and stays a unique constraint elsewhere; nothing else is produced |
| Rules.ReuseByName | metadata-builder/EntityMetadataBuilder.js:292-293 | A successful reuse gives one object per declaration |
| Rules.ReuseByNameOk | metadata-builder/EntityMetadataBuilder.js:292-293 | The k-th reused object is the parent's first object named like the k-th declaration |
| Rules.ReuseByNameErr | metadata-builder/EntityMetadataBuilder.js:292-293 | Reuse succeeds exactly when the parent has every declared name; a failure names a declared property the parent lacks |
| Rules.DependentPropertiesMeaning | metadata-builder/EntityMetadataBuilder.js:164-165 | `relationsWithJoinColumns` are exactly the entity's relations with a join column; `hasNonNullableRelations` holds exactly when one of them is non-nullable or primary |
| Rules.InverseEntityIsFirst | metadata-builder/EntityMetadataBuilder.js:569 | The inverse entity is the first entity whose target is the relation's type, or whose name is that string |
| Rules.ResolvedMeaning | metadata-builder/EntityMetadataBuilder.js:572-575 | Resolution records the inverse entity and path and picks the first relation of the inverse entity at that path (none exactly when there is none); nothing else changes; resolving twice is resolving once |
| Projection.Flattened | metadata-builder/EntityMetadataBuilder.js:516 | A flattened list starts with the entity's own items |
| Projection.HasUuidGeneratedColumns | metadata-builder/EntityMetadataBuilder.js:544 | Corrected: true exactly when some column of the entity is generated by the "uuid" strategy |
| Projection.HasUuidGeneratedColumnsAsWritten | metadata-builder/EntityMetadataBuilder.js:544 | As written: true exactly when some column is generated by any strategy or carries the "uuid" strategy |
| Projection.UuidFlagCounterexample | metadata-builder/EntityMetadataBuilder.js:544 | A single column generated by "increment" makes the as-written flag true and the corrected flag false |
| ProjectionLemmas.MultiplePrimaryKeys | metadata-builder/EntityMetadataBuilder.js:538-542 | `hasMultiplePrimaryKeys` holds exactly when two different positions of the columns are primary |
| ProjectionLemmas.CardinalityBucketsPartition | metadata-builder/EntityMetadataBuilder.js:519-522 | Each relation lands in exactly one of the four cardinality buckets |
| ProjectionLemmas.ListenerBucketsPartition | metadata-builder/EntityMetadataBuilder.js:529-535 | Each listener lands in exactly one of the seven lifecycle buckets |
| ProjectionLemmas.ColumnBucketsStable | metadata-builder/EntityMetadataBuilder.js:538-543 | A column bucket of a duplicate-free list is duplicate-free, and taking the bucket again changes nothing |
| ProjectionLemmas.EmbeddedIndexIsFlattened | metadata-builder/EntityMetadataBuilder.js:536 | An index placed in any embedded reachable from the entity appears in the entity's `indices` |
| ProjectionLemmas.InheritanceIndexKept | metadata-builder/EntityMetadataBuilder.js:582-589 | An index among the entity's own indices survives every projection |
| ProjectionLemmas.InheritanceIndexLost | metadata-builder/EntityMetadataBuilder.js:582-589 | An index that is neither among the entity's own indices nor in any embedded reachable from it is not in `indices` after a projection |
| Builder.DeclaredColumn | metadata-builder/EntityMetadataBuilder.js:294-299 | A new column is nullable exactly when declared nullable or declared by a single-table child's class; otherwise it is the column as declared |
| Builder.DiscriminatorColumn | metadata-builder/EntityMetadataBuilder.js:307-322 | The synthesized discriminator is a virtual, non-generated discriminator column of the entity with the discriminator's name |
| Builder.MarkedNullableSpec | metadata-builder/EntityMetadataBuilder.js:280-285 | Every top-level embedded column becomes nullable, no other flag of it changes, and every other column stays as it was |
| Builder.EntityHandoversMeaning | metadata-builder/EntityMetadataBuilder.js:201-205 | An entity hands over exactly its lazy relations, and only when its target is a class |
| Builder.LazyHandoversMeaning | metadata-builder/EntityMetadataBuilder.js:198-206 | A handover is exactly a lazy relation of an entity of the list with a class target |
| Builder.EntityMetadataBuilder.CreateEntityMetadata | metadata-builder/EntityMetadataBuilder.js:237-262 | A new entity with the table's target, name and type, its inheritance tree, pattern and tree type; it has no parent, no lists and no derived values |
| Builder.EntityMetadataBuilder.ComputeParentEntityMetadata | metadata-builder/EntityMetadataBuilder.js:263-270 | A single-table child's parent becomes the entity `StiParentIndex` picks, or none; other entities keep theirs |
| Builder.EntityMetadataBuilder.ComputeChildEntityMetadatas | metadata-builder/EntityMetadataBuilder.js:54-60 | Every entity's children become exactly `ChildrenOf` that entity |
| Builder.EntityMetadataBuilder.CreateEmbeddedsRecursively | metadata-builder/EntityMetadataBuilder.js:472-503 | One new embedded per declaration, in order, each with its whole sub-tree built from the declaration (`EmbeddedBuiltFrom`): the k-th column, relation, relation id and relation count of every embedded is the new record made from the k-th such declaration, relation ids and counts as property records of the entity; arenas only grow; new relations belong to the entity and to an embedded |
| Builder.EntityMetadataBuilder.CreateEmbedded | metadata-builder/EntityMetadataBuilder.js:474-501 | The embedded of one declaration with its whole sub-tree built from it (`EmbeddedBuiltFrom`): its own columns, relations, listeners, indices, uniques, relation ids and relation counts, and sub-embeddeds linked to it as parent with their paths extended by "." |
| Builder.EntityMetadataBuilder.PushEmbedded | metadata-builder/EntityMetadataBuilder.js:475-497 | One declaration's own records (`EmbeddedHeadFrom`): its k-th column, relation (path prefix "path."), relation id and relation count is the new record made from the k-th declaration, relation ids and counts as property records of the entity; listeners, indices and uniques are made from their declarations; no sub-embeddeds yet |
| Builder.EntityMetadataBuilder.AppendEmbeddedColumns | metadata-builder/EntityMetadataBuilder.js:477-479 | One new column record per declaration, belonging to the embedded |
| Builder.EntityMetadataBuilder.AppendEmbeddedRelations | metadata-builder/EntityMetadataBuilder.js:480-482 | One new relation record per declaration, belonging to the entity and the embedded |
| Builder.EntityMetadataBuilder.MarkEmbeddedColumnsNullable | metadata-builder/EntityMetadataBuilder.js:280-285 | The column arena becomes `MarkedNullable` over the top-level embeddeds' direct columns |
| Builder.EntityMetadataBuilder.BuildEmbeddeds | metadata-builder/EntityMetadataBuilder.js:278-287 | The k-th top-level embedded is built from the k-th embedded declaration of the inheritance tree (`EmbeddedBuiltFrom`, no parent, path its property name); the column arena is then exactly the one built, with, under "STI" only, the top-level embeddeds' direct columns marked nullable and nothing else changed (`MarkedNullable`) |
| Builder.EntityMetadataBuilder.BuildOwnColumns | metadata-builder/EntityMetadataBuilder.js:288-300 | A single-table child reuses its parent's columns by name and allocates nothing, failing on a missing name; any other entity gets one new `DeclaredColumn` per declaration |
| Builder.EntityMetadataBuilder.AddDiscriminatorColumn | metadata-builder/EntityMetadataBuilder.js:303-328 | An own column with the discriminator's name is flagged as discriminator, otherwise a new one is appended; either way the entity then owns a discriminator column of that name |
| Builder.EntityMetadataBuilder.AddParentDiscriminatorColumn | metadata-builder/EntityMetadataBuilder.js:331-336 | The parent's first discriminator column, the same object, is appended unless the child already lists it |
| Builder.EntityMetadataBuilder.AddTreeColumns | metadata-builder/EntityMetadataBuilder.js:338-389 | The tree strategy's columns are appended as new own columns |
| Builder.EntityMetadataBuilder.BuildColumns | metadata-builder/EntityMetadataBuilder.js:288-389 | On success the entity owns at least one column per declared column |
| Builder.EntityMetadataBuilder.BuildOwnRelations | metadata-builder/EntityMetadataBuilder.js:390-395 | Reuse by name for a single-table child, failing on a missing name; new relation records otherwise; all ids are allocated |
| Builder.EntityMetadataBuilder.BuildRelationIds | metadata-builder/EntityMetadataBuilder.js:396-401 | Reuse by name for a single-table child, failing on a missing name; new relation-id records otherwise |
| Builder.EntityMetadataBuilder.BuildRelationCounts | metadata-builder/EntityMetadataBuilder.js:402-407 | Reuse by name for a single-table child, failing on a missing name; new relation-count records otherwise |
| Builder.EntityMetadataBuilder.BuildRelations | metadata-builder/EntityMetadataBuilder.js:390-407 | A non-child always passes: its relations, relation ids and relation counts are new records, one per declaration, appended to the arenas in order. A single-table child allocates nothing, and on success each of the three lists is `ReuseByName` of its parent's list |
| Builder.EntityMetadataBuilder.BuildDeclarations | metadata-builder/EntityMetadataBuilder.js:408-466 | Listeners and checks as declared; exclusions only on PostgreSQL; indices and uniques split by `DeclaredConstraints` for the dialect, uniques appended |
| Builder.EntityMetadataBuilder.BuildOwnLists | metadata-builder/EntityMetadataBuilder.js:288-466 | Columns, relations and declarations in order. On success the listeners, checks, exclusions (PostgreSQL only), own indices and own uniques are the declarations as `BuildDeclarations` places them; a non-child's relations, relation ids and relation counts are new records, one per declaration |
| Builder.EntityMetadataBuilder.ComputeEntityMetadataStep1 | metadata-builder/EntityMetadataBuilder.js:271-467 | The discriminator value is set; a single-table child without a parent fails; on success the entity's ids are allocated |
| Builder.EntityMetadataBuilder.ComputeEntityMetadataStep2 | metadata-builder/EntityMetadataBuilder.js:507-562 | Every derived list and flag equals `Projected` of the entity's own lists, its embeddeds and the arenas, with `hasUUIDGeneratedColumns` as line 544 is written; the relations are the own relations followed by those of the embedded trees |
| Builder.EntityMetadataBuilder.ComputeInverseProperties | metadata-builder/EntityMetadataBuilder.js:566-577 | Only inverse sides change, and only of the entity's relations. On success each relation is resolved against the first entity its type points at. On failure the first unresolvable relation is reported as `entity#propertyPath` |
| Builder.EntityMetadataBuilder.RegisterForeignKey | metadata-builder/EntityMetadataBuilder.js:90 | The relation's foreign keys become the one foreign key; nothing else changes |
| Builder.EntityMetadataBuilder.AddToHolder | metadata-builder/EntityMetadataBuilder.js:110-124 | Indices and uniques go to the relation's embedded when it has one, otherwise to its entity's own lists |
| Builder.EntityMetadataBuilder.AttachJoinColumns | metadata-builder/EntityMetadataBuilder.js:87-144 | A foreign key from the join-column builder is registered on the relation and appended to the entity's foreign keys; `JoinColumnConstraints` go to the relation's holder |
| Builder.EntityMetadataBuilder.BuildJoinColumns | metadata-builder/EntityMetadataBuilder.js:87-144 | Only the relation's foreign keys change and the entity's foreign keys only grow at the end |
| Builder.EntityMetadataBuilder.BuildEntityJoinColumns | metadata-builder/EntityMetadataBuilder.js:86-145 | Only one-to-one and many-to-one relations of the entity change, and only in their foreign keys |
| Builder.EntityMetadataBuilder.CreateJunctionEntity | metadata-builder/EntityMetadataBuilder.js:152 | The junction builder's entity: new, with the described target, columns, foreign keys and indices, no relations and no embeddeds |
| Builder.EntityMetadataBuilder.RegisterJunction | metadata-builder/EntityMetadataBuilder.js:152-154 | The relation gets the junction's foreign keys and the junction entity |
| Builder.EntityMetadataBuilder.FinishSynthesized | metadata-builder/EntityMetadataBuilder.js:156-157 | A synthesized entity is projected; its resolution changes no relation |
| Builder.EntityMetadataBuilder.ResolveSynthesized | metadata-builder/EntityMetadataBuilder.js:157 | Resolving an entity without relations changes no relation |
| Builder.EntityMetadataBuilder.BuildJunction | metadata-builder/EntityMetadataBuilder.js:147-159 | A junction is made exactly when the relation declares a join table; without one nothing changes |
| Builder.EntityMetadataBuilder.BuildJunctions | metadata-builder/EntityMetadataBuilder.js:147-159 | The visited relations that declare a join table get a junction entity and new foreign keys; all other relations stay as they were; the junctions are distinct and new |
| Builder.EntityMetadataBuilder.BuildEntityJunctions | metadata-builder/EntityMetadataBuilder.js:146-159 | Exactly the entity's many-to-many relations with a join table change |
| Builder.EntityMetadataBuilder.BuildEntityRelations | metadata-builder/EntityMetadataBuilder.js:84-159 | Relation records change only in foreign keys and junction entity; the junctions are distinct and new |
| Builder.EntityMetadataBuilder.RelationPhase | metadata-builder/EntityMetadataBuilder.js:82-160 | As above, over every non-child entity |
| Builder.EntityMetadataBuilder.ComputeDependentProperties | metadata-builder/EntityMetadataBuilder.js:162-166 | Every entity's `relationsWithJoinColumns` and `hasNonNullableRelations`, whose meaning `DependentPropertiesMeaning` states |
| Builder.EntityMetadataBuilder.BuildClosureJunction | metadata-builder/EntityMetadataBuilder.js:170-175 | The closure builder's entity over the entity's primary columns becomes its `closureJunctionTable`; no relation changes |
| Builder.EntityMetadataBuilder.ClosurePhase | metadata-builder/EntityMetadataBuilder.js:168-176 | Every closure-table entity gets its closure junction among the new ones; other entities keep theirs |
| Builder.EntityMetadataBuilder.CreateKeysForTableInheritanceAsWritten | metadata-builder/EntityMetadataBuilder.js:581-590 | As written: the non-unique discriminator index is pushed onto the derived `indices`; when the entity has no embeddeds it is pushed onto the own indices too, because line 536 then made `indices` the own indices array itself |
| Builder.EntityMetadataBuilder.CreateKeysForTableInheritance | metadata-builder/EntityMetadataBuilder.js:581-590 | Corrected: the index joins the own indices and is in `indices` now and after every later projection |
| Builder.EntityMetadataBuilder.StiKeysPhase | metadata-builder/EntityMetadataBuilder.js:178-180 | As written: exactly the "STI" entities with a discriminator column get the discriminator index appended to their derived `indices`, and to their own indices exactly when they have no embeddeds (`StiOwnIndices`); every other derived value is unchanged, as are the other entities |
| Builder.EntityMetadataBuilder.PushedIndexLost | metadata-builder/EntityMetadataBuilder.js:224 | An index pushed by the as-written line 582 onto an entity that neither owns it nor reaches it through an embedded is gone after the re-projection of line 224; with the sharing of line 536, that is an entity with at least one embedded |
| Builder.EntityMetadataBuilder.StiIndexSurvivesExactlyWithoutEmbeddeds | metadata-builder/EntityMetadataBuilder.js:581-590 | A discriminator index new to the entity is among its indices after the next projection (line 224) if and only if the entity has no embeddeds |
| Builder.EntityMetadataBuilder.MarkGeneratedColumn | metadata-builder/EntityMetadataBuilder.js:210-225 | A column with a "generated" declaration becomes `WithGeneration` of its strategy and the entity is then projected again (`ProjectionHolds`); without one nothing changes, the entity's derived values included |
| Builder.EntityMetadataBuilder.MarkGeneratedColumns | metadata-builder/EntityMetadataBuilder.js:208-226 | Exactly the columns the entity lists when the pass starts that have a "generated" declaration are marked by their strategy; all other columns stay as they were |
| Builder.EntityMetadataBuilder.GeneratedColumnsPhase | metadata-builder/EntityMetadataBuilder.js:207-227 | A column listed by some entity when the phase starts and having a "generated" declaration is marked by its strategy; every other column stays as it was |
| Builder.EntityMetadataBuilder.EntityLazyHandovers | metadata-builder/EntityMetadataBuilder.js:201-205 | The entity's lazy relations, in order (see `EntityHandoversMeaning`) |
| Builder.EntityMetadataBuilder.LazyHandovers | metadata-builder/EntityMetadataBuilder.js:198-206 | The lazy relations of every class entity, in order (see `LazyHandoversMeaning`) |
| Builder.EntityMetadataBuilder.CreateEntities | metadata-builder/EntityMetadataBuilder.js:50 | One new, distinct entity per selected table, in order, with no parent and empty lists |
| Builder.EntityMetadataBuilder.LinkParents | metadata-builder/EntityMetadataBuilder.js:52 | Every entity's parent becomes `ParentFor` it |
| Builder.EntityMetadataBuilder.LinkEntities | metadata-builder/EntityMetadataBuilder.js:50-60 | The entities stand for the tables in order and are linked to parents and children (`Linked`) |
| Builder.EntityMetadataBuilder.Step1Visit | metadata-builder/EntityMetadataBuilder.js:72 | On success the entity has step 1's discriminator value and, as a child, a parent |
| Builder.EntityMetadataBuilder.Step1Pass | metadata-builder/EntityMetadataBuilder.js:70-76 | A completed pass leaves every visited entity with step 1 done; entities of the other kind keep their discriminator value |
| Builder.EntityMetadataBuilder.Step1Stage | metadata-builder/EntityMetadataBuilder.js:70-76 | Non-children first, then children; on success every entity has step 1 done |
| Builder.EntityMetadataBuilder.Step2Pass | metadata-builder/EntityMetadataBuilder.js:78 | Every entity's ids stay allocated in the arenas across its projection |
| Builder.EntityMetadataBuilder.InversePass | metadata-builder/EntityMetadataBuilder.js:80 | Only inverse sides of relations change |
| Builder.EntityMetadataBuilder.ComputeEntities | metadata-builder/EntityMetadataBuilder.js:70-80 | On success every entity has step 1 done and the arenas are consistent |
| Builder.EntityMetadataBuilder.BuildEntities | metadata-builder/EntityMetadataBuilder.js:45-80 | The entities stand for the selected tables, are new, distinct and linked; on success step 1 is done for all |
| Builder.EntityMetadataBuilder.RelationStage | metadata-builder/EntityMetadataBuilder.js:82-166 | The junctions come after the table entities, which keep their order |
| Builder.EntityMetadataBuilder.ClosureStage | metadata-builder/EntityMetadataBuilder.js:168-176 | The closure junctions come after the earlier entities, and every closure-table entity's closure junction is among them |
| Builder.EntityMetadataBuilder.SynthesizeEntities | metadata-builder/EntityMetadataBuilder.js:82-176 | The result is `BuiltFrom` the tables: table entities first, then only junction and closure-junction entities |
| Builder.EntityMetadataBuilder.FinishEntities | metadata-builder/EntityMetadataBuilder.js:177-227 | Every handover names a class entity of the result and a lazy relation |
| Builder.EntityMetadataBuilder.BuildTail | metadata-builder/EntityMetadataBuilder.js:82-227 | The result is `BuiltFrom` the tables and every handover is a lazy relation of one of its class entities |
| Builder.EntityMetadataBuilder.Build | metadata-builder/EntityMetadataBuilder.js:43-229 | Success returns new entities: one per selected table in order, then the junction and closure-junction entities made for them, and the lazy relations handed over. A failure returns no graph and hands nothing over |

## Left out

- Step 0 (`entityMetadata.build()`, lines 62-68) is not part of this model. It lives in `EntityMetadata`.
- The `build()` calls of indices, uniques, checks and exclusions (lines 182-196) are left out. They compute names through the naming strategy, which is not part of this model.
- The `build()` calls of columns, relations, embeddeds, foreign keys, relation ids and relation counts in step 2 are left out (lines 509-515, 554, 556-561). So are `propertiesMap` (line 555) and `column.build` (line 223). These live in classes that are not part of this model. Step 2 is modelled as the recomputation of the derived lists and flags.
- `RelationMetadata` is not part of this model. Its flags (eager, lazy, cardinality, owner, tree parent and children, join column, nullable) are read from the relation's declaration. `registerForeignKeys` is modelled as replacing the relation's foreign keys.
- The collaborators are parameters: the join-column, junction and closure-junction builders, the driver's `escape`, and `buildInverseSidePropertyPath`. Their internals are not modelled, nor are their own errors, such as clashing join-column names.
- The lazy-load accessor is installed on the class prototype by the relation loader. The model only records which relations are handed over, and for which entity.
- Embedded declarations are a finite tree of declarations, already resolved from the store for each embedded type. The class-inheritance lookup of line 476 is therefore done ahead of the build.
- `entityMetadata.allEmbeddeds` (line 500) is not a separate list. The embedded arena holds every embedded.
- Builder.EntityMetadataBuilder.Build: requires empty relation and embedded arenas, since a new builder starts that way. It states the entities, their order and the handovers only; the links, step 1, step 2, the inverse sides, join columns, junctions, the inheritance index and the generated columns are stated by the phase methods listed below and above.
- Builder.EntityMetadataBuilder.BuildTail: states the entity list and the handovers only. Each phase's effect is stated by `RelationStage`'s callees, `ClosurePhase`, `StiKeysPhase` and `GeneratedColumnsPhase`.
- Builder.EntityMetadataBuilder.BuildEntities: states the entities, their links and that step 1 is done. It does not restate each entity's step-1 lists, stated per entity by `ComputeEntityMetadataStep1`, nor step 2 and the inverse sides, stated by `ComputeEntityMetadataStep2` and `ComputeInverseProperties`.
- Builder.EntityMetadataBuilder.ComputeEntities: states that step 1 is done and the arenas are consistent. The per-entity results of steps 1 and 2 and of the inverse pass are stated by `ComputeEntityMetadataStep1`, `ComputeEntityMetadataStep2` and `ComputeInverseProperties`.
- Builder.EntityMetadataBuilder.Step1Visit: states the discriminator value and the parent only. The lists step 1 builds are stated by `ComputeEntityMetadataStep1` and its blocks; carrying them through the passes is left out to keep those proofs small.
- Builder.EntityMetadataBuilder.Step1Pass: states the discriminator values and parents only, as `Step1Visit` does.
- Builder.EntityMetadataBuilder.Step1Stage: states the discriminator values and parents only, as `Step1Visit` does.
- Builder.EntityMetadataBuilder.RelationStage: states the entity list only. Join columns, junctions and the dependent properties are stated by `RelationPhase`'s callees and `ComputeDependentProperties`.
- Builder.EntityMetadataBuilder.SynthesizeEntities: states the entity list only, as `RelationStage` and `ClosureStage` do.
- Builder.EntityMetadataBuilder.RelationPhase: states which relation fields may change and that the junctions are new. The exact foreign keys and junctions are stated per relation by `AttachJoinColumns`, `RegisterJunction` and `BuildJunctions`.
- Builder.EntityMetadataBuilder.BuildEntityRelations: states which relation fields may change, as `RelationPhase` does; `BuildEntityJoinColumns` and `BuildEntityJunctions` state their parts.
- Builder.EntityMetadataBuilder.BuildEntityJoinColumns: states which relations may change and in which field only. The new foreign key and constraints of each relation are stated by `AttachJoinColumns`.
- Builder.EntityMetadataBuilder.BuildOwnLists: states the column block by count only, as `BuildColumns` does, and a child's reused relations through `BuildRelations` only.
- Builder.EntityMetadataBuilder.MarkGeneratedColumns: does not state the entity's derived values after the pass. Each marking projects the entity again, which `MarkGeneratedColumn` states; carrying that through the loop is beyond the proof budget.
- Builder.EntityMetadataBuilder.GeneratedColumnsPhase: does not state the entities' derived values after the phase, for the same reason as `MarkGeneratedColumns`.
- Builder.EntityMetadataBuilder.BuildJoinColumns: states only which records may change. The exact new foreign key and constraints are stated by `AttachJoinColumns`.
- Builder.EntityMetadataBuilder.BuildJunction: states that the relation's foreign keys become the junction's. It does not restate the junction's columns, which `RegisterJunction` states.
- Builder.EntityMetadataBuilder.MarkGeneratedColumn: skips a column id outside the arena. Such an id cannot occur, because every listed column is allocated; the pass does not carry that invariant through.
- Builder.EntityMetadataBuilder.Step2Pass: states only that ids stay allocated. Per entity, the projection is stated by `ComputeEntityMetadataStep2`.
- Builder.EntityMetadataBuilder.FinishEntities: states only the handovers. The inheritance index and the generated columns are stated by `StiKeysPhase` and `GeneratedColumnsPhase`.
- Builder.EntityMetadataBuilder.InversePass: states only that inverse sides change. Per relation, the resolution is stated by `ComputeInverseProperties`.
- Builder.EntityMetadataBuilder.BuildColumns: states only the own-column count. Each block's exact effect is stated by its own method.
- Builder.EntityMetadataBuilder.ComputeEntityMetadataStep1: states the discriminator value and the errors. Each block's exact effect is stated by its own method.
- Builder.EntityMetadataBuilder.ClosurePhase: states that each closure-table entity's closure junction is one of the new entities, not which one, nor their count and order. Each junction's target and columns are stated by `BuildClosureJunction`. Tracking the writes to `closureJunctionTable` across the loop is beyond the proof budget.
- Builder.EntityMetadataBuilder.ClosureStage: states the closure junctions by membership only, as `ClosurePhase` does. Each junction is stated by `BuildClosureJunction`.
- The database names in a relation's uniqueness requirement are the ones the join-column builder reports beside each of its columns. The builder is a parameter, so the model does not tie a name to the column record's own `databaseName`, which the naming strategy computes.
- Arrays are values. Line 536 makes an entity without embeddeds share one array between `indices` and `ownIndices`. The model writes that sharing out at the one place it shows, the push of line 582. Every other push onto own indices is followed by a step 2 in the code, which recomputes `indices` anyway.
- A JavaScript `undefined` dereference is modelled as a build error: a single-table child without a parent, or a child declaration missing on the parent.

## Findings

| source | as written | input that shows it | evidently intended | confidence | as-written member | corrected member |
|---|---|---|---|---|---|---|
| metadata-builder/EntityMetadataBuilder.js:544 | `hasUUIDGeneratedColumns` counts a column that is generated by any strategy (`isGenerated \|\| strategy === "uuid"`) | an entity whose only generated column uses the "increment" strategy is flagged as having uuid-generated columns | true only for a column generated by the "uuid" strategy | medium; not executed | Projection.HasUuidGeneratedColumnsAsWritten, Projection.UuidFlagCounterexample, Builder.EntityMetadataBuilder.ComputeEntityMetadataStep2 | Projection.HasUuidGeneratedColumns |
| metadata-builder/EntityMetadataBuilder.js:582 | the single-table inheritance index is pushed onto the derived `indices`; for an entity with embeddeds that is a fresh array (line 536), which the next step 2 rebuilds from the own indices and embeddeds | an "STI" entity with one embedded, a discriminator column and a generated column: line 224 re-projects it and the index is gone (without an embedded the push reaches the own indices and the index stays) | the index is kept among the entity's indices for the rest of the build | medium; not executed | Builder.EntityMetadataBuilder.CreateKeysForTableInheritanceAsWritten, Builder.EntityMetadataBuilder.StiKeysPhase, Builder.EntityMetadataBuilder.PushedIndexLost, Builder.EntityMetadataBuilder.StiIndexSurvivesExactlyWithoutEmbeddeds, ProjectionLemmas.InheritanceIndexLost | Builder.EntityMetadataBuilder.CreateKeysForTableInheritance, ProjectionLemmas.InheritanceIndexKept |

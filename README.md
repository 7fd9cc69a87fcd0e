# shopFlax category hierarchy, in Dafny

A verified model of the category engine of the shopFlax server (Express,
Mongoose, MongoDB): categories form a forest through their `parentId` links,
and each record also *stores* denormalised tree fields (`level`, `path`,
`ancestors`) derived from its parent when it is written. The model covers:

- the slug normaliser and the tree-field derivation (`category.tree.ts`);
- the Mongoose model: its pre-validate, pre-save and post-findOneAndUpdate
  hooks, `getNextSortOrder`, and the unique index on `slug` (`category.model.ts`);
- the services create, update, move, reorder, get by id or slug, list, tree
  and delete, with the parent check and the sibling shift (`category.services.ts`);
- the list-query parsers (`categor.helper.ts`) and the request schemas
  (`category.validation.ts`);
- the human-readable user ids and their counter (`user/user.id.ts`);
- the phone-number helpers (`helpers/stripNonDigits.ts`);
- the SKU builder of the inventory module (`inventory/inventory.utils.ts`).

## Layout

| file | module | what it holds |
|---|---|---|
| wrappers.dfy | Wrappers | `Option`, `Result`, `Outcome` |
| ascii.dfy | Ascii | character classes, `toLowerCase`/`toUpperCase`/`trim` over ASCII and the JavaScript white-space set, decimal numerals |
| category_types.dfy | CategoryTypes | the `Category` record, the error kinds, the collection class `CategoryCollection` (`docs: map<Id, Category>`), fresh ids and natural order |
| category_tree.dfy | CategoryTree | `NormalizeSlug`, the path clean-up, `TreeFields` and the imperative `ComputeTreeFields` |
| category_model.dfy | CategoryModel | the hooks, `NextSortOrder`, the insert and the in-place update with its second write |
| category_service.dfy | CategoryService | the writing services as functions of the collection and as methods on `CategoryCollection` |
| category_hierarchy.dfy | CategoryHierarchy | the real parent chain, acyclicity, and when an accepted update keeps it |
| category_invariants.dfy | CategoryInvariants | which services keep the collection consistent and its slugs unique |
| category_staleness.dfy | CategoryStaleness | how a move of a record with children leaves stale fields and lets a cycle through |
| category_sibling_order.dfy | CategorySiblingOrder | distinct sortOrders among siblings |
| category_ordering.dfy | CategoryOrdering | the sort orders of the list and tree queries |
| category_reads.dfy | CategoryReads | get by id or slug, the paginated list, and the in-memory forest of `getCategoryTree` |
| category_helper.dfy | CategoryHelper | `parseBoolean`, `parseNumber`, `parseSort`, `buildListQuery` |
| category_validation.dfy | CategoryValidation | the zod schemas as predicates, and how they relate to the model |
| user_id.dfy | UserId | `getNextCustomId` over the `counters` collection (class `CounterCollection`) |
| phone.dfy | Phone | `stripNonDigits`, `keepLeadingPlusDigits`, `isValidBDPhone` |
| inventory_sku.dfy | InventorySku | `generateSKU` with the random text as an input |

## How the model is built

- The collection is a class whose one field is a map from ids to records.
  Each service is a method on it, and its `ensures` equates the new state
  and answer with a pure function of the old state (`Created`, `Updated`,
  `Moved`, `Reordered`, `Deleted`). The properties are lemmas about those
  functions.
- Ids are naturals. A new record gets an id larger than every id in use,
  because ObjectIds grow with time. MongoDB does not promise any order for a
  `find` without a sort. The model chooses ascending id order for it, as one
  permitted order (see the order of equal sort keys under "Left out").
- A MongoDB call is one atomic step on the map. A transaction is a snapshot
  of the map, restored when the transaction aborts. The soft delete runs
  `findByIdAndUpdate` outside any transaction. If its post hook fails on the
  unique index, the first write stays in place, and the model keeps that
  write.
- The post findOneAndUpdate hook re-derives the tree fields of the updated
  record only. The model keeps each record's stored `level`, `path` and
  `ancestors` apart from its real chain of `parentId` links.
  `CategoryHierarchy` proves that when the stored ancestors are the real
  chains, every accepted update leaves the links acyclic.
  `CategoryStaleness` proves what happens otherwise, with sample records. A
  move of a record that has children leaves the children stale. The parent
  check trusts the stored `ancestors`. So two moves the service accepts can
  close a cycle (`StaleAncestorsLetCycleClose`, `SampleCycle`). The model
  reproduces this and does not cascade the update.
- The interface comments of `category.interface.ts` (lines 48 and 78) say the
  next sortOrder is the maximum plus 10. The code adds 1
  (`category.model.ts:48`), and the model follows the code.
- An updated slug is trimmed and, when non-empty, normalised. Normalising can
  give the empty slug (`---`), and an update runs no validators, so such an
  update stores an empty slug. The model keeps this behaviour:
  `CategoryService.UpdatedRecord` states the stored slug in every case,
  including a given slug that trims to nothing and a stored empty slug,
  both of which stay empty.
- A move that gives no sortOrder keeps the record's old value under its new
  parent, so it can collide with a sibling (`MoveCanDuplicateOrder`).
- The validation schemas are commented out in the router
  (`category.router.ts`, lines 13 and 20). Here they are predicates that
  stand alone, and lemmas relate them to the model: a valid slug is a fixed
  point of the normaliser, and on an accepted query the parsers agree with
  the schema's transforms.

## Model

| member | source | states |
|---|---|---|
| CategoryTree.ReplaceRuns | src/app/modules/category/category.tree.ts:11 | the result is empty exactly when the input is, starts with the hyphen exactly when the input starts with a run, holds only the hyphen and characters of the input outside runs, and never has two hyphens in a row |
| CategoryTree.ReplaceRunsKeeps | src/app/modules/category/category.tree.ts:11 | every character outside the runs is kept, in its order: the result and the input have the same non-run characters |
| CategoryTree.ReplaceRunsSqueezes | src/app/modules/category/category.tree.ts:11 | the result equals the input with each run character turned into the hyphen and each hyphen that follows a hyphen dropped, so each maximal run leaves exactly one hyphen in its place |
| CategoryTree.ReplaceRunsFixed | src/app/modules/category/category.tree.ts:11 | a text whose non-word characters are single, non-adjacent hyphens is left unchanged |
| CategoryTree.DropLeadingHyphens | src/app/modules/category/category.tree.ts:12 | the result is a suffix of the input that does not start with a hyphen, and a text not starting with one is kept |
| CategoryTree.DropTrailingHyphens | src/app/modules/category/category.tree.ts:12 | the result is a prefix of the input that does not end with a hyphen, and a text not ending with one is kept |
| CategoryTree.NormalizeSlugIsNormal | src/app/modules/category/category.tree.ts:7-13 | for every input the slug holds only `[a-z0-9_-]`, has no hyphen at either end and no `--` |
| CategoryTree.NormalSlugFixed | src/app/modules/category/category.tree.ts:7-13 | every slug in that normal form is mapped to itself |
| CategoryTree.NormalizeSlugIdempotent | src/app/modules/category/category.tree.ts:7-13 | normalising twice gives the same slug as normalising once |
| CategoryTree.NormalizeSlugIgnoresCase | src/app/modules/category/category.tree.ts:8 | lower-casing the input first does not change the slug |
| CategoryTree.NormalizeSlugExample | src/app/modules/category/category.tree.ts:7-13 | `Electronics` becomes `electronics` |
| CategoryTree.NormalizeSlugKeepsExample | src/app/modules/category/category.tree.ts:7-13 | `electronics` is mapped to itself |
| CategoryTree.NormalizeSlugEmpty | src/app/modules/category/category.tree.ts:7-13 | the empty input gives the empty slug |
| CategoryTree.CollapseSlashes | src/app/modules/category/category.tree.ts:45 | the cleaned path has no `//`, and is empty only for an empty path |
| CategoryTree.CollapseSlashesFixed | src/app/modules/category/category.tree.ts:45 | a path without `//` is not changed by the clean-up |
| CategoryTree.ComputeTreeFields | src/app/modules/category/category.tree.ts:21-46 | the imperative computation (locals, push into `ancestors`, three writes) yields the record the derivation `TreeFields` defines |
| CategoryTree.TreeFieldsRoot | src/app/modules/category/category.tree.ts:25-45 | without a parent, or when the parent is not found, the record gets level 0, no ancestors and the cleaned `"/" + slug` |
| CategoryTree.TreeFieldsChild | src/app/modules/category/category.tree.ts:29-45 | with a found parent: one level below it, its ancestors plus its id, and its path, `/` and the slug, cleaned |
| CategoryTree.TreeFieldsPathNonEmpty | src/app/modules/category/category.tree.ts:27-45 | the derived path is never empty |
| CategoryTree.TreeFieldsWritesOnlyTreeFields | src/app/modules/category/category.tree.ts:42-45 | only `level`, `ancestors` and `path` change; the derived path never holds `//` |
| CategoryTree.TreeFieldsDependOnParentAndSlug | src/app/modules/category/category.tree.ts:29-38 | two records with the same parent link and slug get the same tree fields |
| CategoryTree.TreeFieldsIdempotent | src/app/modules/category/category.tree.ts:21-46 | deriving again from the same collection changes nothing |
| CategoryTree.TreeFieldsFollowParent | src/app/modules/category/category.tree.ts:29-45 | the tree fields depend on the collection only through the parent's stored tree fields |
| CategoryTree.TreeFieldsKeepDepth | src/app/modules/category/category.tree.ts:35-37 | a parent whose ancestor list is as long as its level passes that on to the child |
| CategoryTree.RootPathExact | src/app/modules/category/category.tree.ts:27-45 | with a normal slug a root's path is exactly `"/" + slug` |
| CategoryTree.ChildPathExact | src/app/modules/category/category.tree.ts:38-45 | with a normal slug and a clean parent path the child's path is exactly the parent's path, `/` and the slug |
| CategoryModel.MaxSiblingOrder | src/app/modules/category/category.model.ts:41-46 | the largest non-null sortOrder under the parent, attained by some sibling; none exactly when no sibling has one |
| CategoryModel.NextSortOrder | src/app/modules/category/category.model.ts:37-49 | greater than every sibling's non-null sortOrder, and either the largest of them plus one or 1 when there is none (the code's `+1`) |
| CategoryModel.PreValidate | src/app/modules/category/category.model.ts:55-67 | the hook's record is the tree derivation of the document with the settled slug (given slug normalised, else the name normalised) |
| CategoryModel.PreSave | src/app/modules/category/category.model.ts:70-81 | a new document with no sortOrder gets the next one among its siblings; any other document is unchanged, a given 0 included |
| CategoryModel.Insert | src/app/modules/category/category.model.ts:55-81 | the insert yields `Inserted`: on success exactly that record is written under its id, on failure nothing changes |
| CategoryModel.InsertedRecord | src/app/modules/category/category.model.ts:59-76 | a stored record has the settled slug, non-empty, normal and held by no other record, and a sortOrder, the given one when given |
| CategoryModel.InsertedKeepsId | src/app/modules/category/category.model.ts:55-67 | the stored record keeps the document's id and parent link |
| CategoryModel.InsertedTreeFields | src/app/modules/category/category.model.ts:59-62 | the stored tree fields are those derived from the parent in the collection, and everything else is the document's |
| CategoryModel.InsertedGoesLast | src/app/modules/category/category.model.ts:74-76 | a record inserted without a sortOrder sorts after every sibling |
| CategoryModel.InsertedOutcome | src/app/modules/category/category.model.ts:15-16 | an insert succeeds exactly when the name and settled slug are non-empty and the slug is free; an empty one fails as required, a taken one on the unique index |
| CategoryModel.ReconciledKeepsOtherFields | src/app/modules/category/category.model.ts:89-90 | the post hook rewrites only the slug (normalised when non-empty) and the three tree fields |
| CategoryModel.PostFindOneAndUpdate | src/app/modules/category/category.model.ts:83-113 | the hook yields the re-derived record and writes its four derived fields back, or fails on a taken slug and leaves the collection |
| CategoryModel.UpdateDerived | src/app/modules/category/category.model.ts:96-107 | the second write sets slug, level, path and ancestors of the record with that id, and nothing else |
| CategoryModel.FindOneAndUpdate | src/app/modules/category/category.model.ts:83-113 | the `$set` write followed by the post hook yields the new state and result `UpdatedInPlace` defines |
| CategoryModel.UpdatedInPlaceSlugsFree | src/app/modules/category/category.model.ts:16 | a successful in-place update passed the unique index on both writes |
| CategoryModel.WriteDerivedStores | src/app/modules/category/category.model.ts:96-107 | when the stored record differs from the hook's only in the derived fields, the second write stores the hook's record |
| CategoryModel.WriteDerivedReplaces | src/app/modules/category/category.model.ts:96-107 | writing the derived fields over the `$set` record stores the hook's record |
| CategoryModel.UpdatedInPlaceStores | src/app/modules/category/category.model.ts:83-113 | a successful update of a record stored under its own id stores and returns the hook's record |
| CategoryModel.UpdatedInPlaceShape | src/app/modules/category/category.model.ts:83-113 | no record appears or disappears and no other record changes; a missing id changes nothing; success stores the record re-derived from its new parent; a failure leaves at most the first write |
| CategoryModel.UpdatedInPlaceFails | src/app/modules/category/category.model.ts:96-107 | a failed in-place update has made at most its first write |
| CategoryService.EnsureParentOK | src/app/modules/category/category.services.ts:30-49 | the check answers as `ParentCheck`: no parent passes, then not found, own parent, own subtree by the stored ancestors |
| CategoryService.ParentCheckPasses | src/app/modules/category/category.services.ts:35-48 | the check passes exactly when there is no parent, or the parent exists, is not the record and does not list it among its ancestors |
| CategoryService.MakeRoomForSortOrder | src/app/modules/category/category.services.ts:52-67 | the collection afterwards is the shift of the one before |
| CategoryService.ShiftChangesOnlySortOrders | src/app/modules/category/category.services.ts:59-66 | exactly the siblings under the parent, other than the excluded id, with sortOrder at least the new one gain 1; every other record and field is unchanged |
| CategoryService.ShiftFreesSlot | src/app/modules/category/category.services.ts:62-66 | after the shift no sibling but the excluded one holds the requested sortOrder |
| CategoryService.ShiftKeepsSiblingOrder | src/app/modules/category/category.services.ts:62-66 | the shift keeps the relative order of the siblings and raises a sortOrder by at most one |
| CategoryService.MadeRoomKeepsRecords | src/app/modules/category/category.services.ts:80-83 | the optional shift keeps every key, id and every field but the sortOrder |
| CategoryService.Created | src/app/modules/category/category.services.ts:72-110 | a failed creation leaves the collection as it was (the transaction rolls back) |
| CategoryService.Committed | src/app/modules/category/category.services.ts:99-106 | commit writes the new record into the staged collection; abort restores the collection from before the transaction |
| CategoryService.CreateCategory | src/app/modules/category/category.services.ts:72-110 | the method's new state and answer are those of `Created` |
| CategoryService.CreatedAddsOne | src/app/modules/category/category.services.ts:85-99 | a successful creation adds exactly one record, under an id not in use before |
| CategoryService.CreatedSteps | src/app/modules/category/category.services.ts:76-99 | a successful creation passed the parent check, then inserted the new document after the shift |
| CategoryService.UpdateCategory | src/app/modules/category/category.services.ts:113-162 | the method's new state and answer are those of `Updated` |
| CategoryService.UpdatedIsAtomic | src/app/modules/category/category.services.ts:121-158 | a failed update leaves the collection as it was; a successful one keeps the keys and stores the returned record under its id |
| CategoryService.UpdatedRecord | src/app/modules/category/category.services.ts:125-150 | the record ends under the payload's parent if given (null meaning root), else its own; name (trimmed), icon, isActive and sortOrder are the given value or else the stored one; the slug is the given one trimmed, or else the stored one, normalised when non-empty and empty otherwise (the tree fields are `UpdatedTreeFields`) |
| CategoryService.UpdatedTreeFields | src/app/modules/category/category.model.ts:89-90 | the updated record's level, ancestors and path are the ones its parent link and slug give in the collection the hook reads: the shifted collection with the `$set` record written |
| CategoryService.SetThenHook | src/app/modules/category/category.services.ts:132-137 | the record the hook returns after `$set` has each given field as written and every other as it was, its slug normalised when non-empty and empty otherwise |
| CategoryService.UpdatedSteps | src/app/modules/category/category.services.ts:121-150 | a successful update passed the parent check and stores the hook's record after the shift, changing nothing else |
| CategoryService.UpdatedSlugFree | src/app/modules/category/category.services.ts:146-150 | the slug a successful update stores is held by no other record |
| CategoryService.MoveCategory | src/app/modules/category/category.services.ts:266-268 | a move is the update that sets only the parent |
| CategoryService.ReorderCategory | src/app/modules/category/category.services.ts:271-278 | a reorder fails NotFound on a missing id, else is the update that keeps the parent and sets the sortOrder |
| CategoryService.ReorderedKeepsParents | src/app/modules/category/category.services.ts:271-278 | a successful reorder keeps the record under its parent with the requested sortOrder, keeps the keys and moves no parent link |
| CategoryService.DeleteCategory | src/app/modules/category/category.services.ts:239-263 | the method's new state and answer are those of `Deleted` |
| CategoryService.RemoveCategory | src/app/modules/category/category.services.ts:280-282 | removeCategory is deleteCategory |
| CategoryService.SoftDeleteKeepsRecords | src/app/modules/category/category.services.ts:242-249 | a successful soft delete keeps every record, clears `isActive` of the one named, returns it, and leaves the others untouched |
| CategoryService.HardDeleteLeavesNoOrphan | src/app/modules/category/category.services.ts:252-262 | a hard delete removes only the named record and never one that is still some record's parent |
| CategoryHierarchy.UpAdd | src/app/modules/category/category.services.ts:41-47 | walking `a + b` parent links is walking `a` and then `b` more |
| CategoryHierarchy.EndedChainHasNoCycle | src/app/modules/category/category.services.ts:41-47 | a parent chain that ends never comes back to its start |
| CategoryHierarchy.ChainExactAcyclic | src/app/modules/category/category.services.ts:45 | when every record's stored ancestors are its real parent chain, the links have no cycle |
| CategoryHierarchy.CurrentChainAt | src/app/modules/category/category.tree.ts:35-37 | when every record's level and ancestors derive from its parent, each record's stored ancestors are its real chain and its level their count |
| CategoryHierarchy.ConsistentChainExact | src/app/modules/category/category.tree.ts:35-37 | in a consistent collection every stored ancestor list is the real chain |
| CategoryHierarchy.ConsistentAcyclic | src/app/modules/category/category.tree.ts:35-37 | a consistent collection has no cycle |
| CategoryHierarchy.RelinkKeepsAcyclic | src/app/modules/category/category.services.ts:41-47 | re-linking one record under a parent that passes the check keeps the links acyclic, provided the stored ancestors are the real chains |
| CategoryHierarchy.UpdatedRelinksOnly | src/app/modules/category/category.services.ts:125-150 | an accepted update changes only the updated record's parent link, to the target parent, which passed the check |
| CategoryHierarchy.AcceptedUpdateKeepsAcyclic | src/app/modules/category/category.services.ts:125-130 | with exact stored ancestors an accepted update leaves the parent links acyclic |
| CategoryHierarchy.AcceptedMoveKeepsAcyclic | src/app/modules/category/category.services.ts:266-268 | with exact stored ancestors an accepted move leaves the parent links acyclic |
| CategoryInvariants.MadeRoomKeepsSlugs | src/app/modules/category/category.services.ts:62-66 | the shift keeps slugs unique and normal |
| CategoryInvariants.MadeRoomKeepsDerivation | src/app/modules/category/category.services.ts:62-66 | the shift keeps every record's id, parent link, slug and tree fields |
| CategoryInvariants.CreatedKeepsConsistent | src/app/modules/category/category.services.ts:72-110 | a creation keeps the collection consistent: tree fields derived from the parent, no dangling link, keys matching ids |
| CategoryInvariants.CreatedKeepsSlugs | src/app/modules/category/category.services.ts:72-110 | a creation keeps the slugs unique and normal |
| CategoryInvariants.UpdatedReplaces | src/app/modules/category/category.services.ts:121-150 | an accepted update is the shift followed by the replacement of the one record by the hook's result |
| CategoryInvariants.UpdateResultDerived | src/app/modules/category/category.model.ts:89-90 | the hook's record keeps the id, target parent and normalised slug and derives its tree fields in the shifted collection |
| CategoryInvariants.UpdatedKeepsConsistent | src/app/modules/category/category.services.ts:113-162 | an accepted update keeps the collection consistent when the record has no children, or when its tree fields come out unchanged |
| CategoryInvariants.UpdatedKeepsSlugs | src/app/modules/category/category.services.ts:146-150 | an accepted update keeps the slugs unique and normal |
| CategoryInvariants.SameParentSameTree | src/app/modules/category/category.model.ts:89-90 | an update that keeps the parent and sets no slug gives the record back its own tree fields |
| CategoryInvariants.ReorderedKeepsConsistent | src/app/modules/category/category.services.ts:271-278 | a reorder keeps the collection consistent and its slugs unique and normal, whatever the record's children |
| CategoryInvariants.LeafMoveKeepsConsistent | src/app/modules/category/category.services.ts:266-268 | moving a record without children keeps the collection consistent and its slugs unique and normal |
| CategoryInvariants.DeactivationInPlace | src/app/modules/category/category.services.ts:243-247 | on a current record with a unique normal slug, `$set {isActive: false}` and the hook write exactly the deactivated record |
| CategoryInvariants.SoftDeleteDeactivates | src/app/modules/category/category.services.ts:242-249 | in a consistent collection a soft delete of an existing record clears `isActive` and changes nothing else |
| CategoryInvariants.SoftDeleteOutcome | src/app/modules/category/category.services.ts:242-249 | there a soft delete fails exactly when the id is absent, with NotFound and no change |
| CategoryInvariants.SoftDeleteKeepsConsistent | src/app/modules/category/category.services.ts:242-249 | a soft delete keeps the collection consistent and its slugs unique and normal |
| CategoryInvariants.HardDeleteKeepsConsistent | src/app/modules/category/category.services.ts:252-262 | a hard delete keeps the collection consistent and its slugs unique and normal |
| CategoryStaleness.UpdateSucceeds | src/app/modules/category/category.services.ts:121-150 | with unique normal slugs an update setting no slug is refused only by the not-found and parent checks |
| CategoryStaleness.MoveWithChildMakesStale | src/app/modules/category/category.model.ts:96-107 | an accepted update that changes the ancestors of a record with a child leaves that child's stored fields stale |
| CategoryStaleness.FirstMove | src/app/modules/category/category.services.ts:266-268 | moving a root that has a child under another root is accepted and leaves the child storing the old ancestors |
| CategoryStaleness.SecondMove | src/app/modules/category/category.services.ts:45 | when a record stores stale ancestors, moving the root above it under it passes the check and closes a cycle |
| CategoryStaleness.StaleAncestorsLetCycleClose | src/app/modules/category/category.services.ts:41-47 | two accepted moves turn a consistent acyclic collection into one with a cycle |
| CategoryStaleness.SampleIsTwoRootsOneChild | src/app/modules/category/category.services.ts:72-110 | a three-record sample (Electronics with child Phones, and Books) is consistent and has that shape |
| CategoryStaleness.SampleCycle | src/app/modules/category/category.services.ts:266-268 | on the sample, moving Electronics under Books and then Books under Phones are both accepted and leave a cycle |
| CategorySiblingOrder.ShiftKeepsDistinct | src/app/modules/category/category.services.ts:62-66 | the shift keeps distinct sibling sortOrders distinct |
| CategorySiblingOrder.ShiftFreesSlotFor | src/app/modules/category/category.services.ts:62-66 | after the shift no other sibling holds the requested sortOrder |
| CategorySiblingOrder.ShiftExample | src/app/modules/category/category.services.ts:62-66 | siblings at 5 and 6 move to 6 and 7 when room is made at 5 |
| CategorySiblingOrder.CreatedRecordPlaced | src/app/modules/category/category.services.ts:80-97 | the created record sits under the payload's parent, in the given slot or in a free one after its siblings |
| CategorySiblingOrder.CreatedKeepsSiblingOrders | src/app/modules/category/category.services.ts:80-97 | a creation keeps the sortOrders of siblings distinct |
| CategorySiblingOrder.UpdateResultOrder | src/app/modules/category/category.services.ts:140-143 | the updated record holds the given sortOrder, else its own |
| CategorySiblingOrder.UpdatedKeepsSiblingOrders | src/app/modules/category/category.services.ts:139-143 | an update that gives a sortOrder, or keeps the parent, keeps the sortOrders of siblings distinct |
| CategorySiblingOrder.MoveCanDuplicateOrder | src/app/modules/category/category.services.ts:266-268 | a move without a sortOrder into a parent where a child holds the same value is accepted and leaves two siblings sharing it |
| CategorySiblingOrder.SampleMoveDuplicatesOrder | src/app/modules/category/category.services.ts:266-268 | on the sample, moving Phones to the roots gives it the sortOrder Electronics holds |
| CategoryOrdering.LexLessIrreflexive | src/app/modules/category/category.services.ts:202 | no name sorts before itself |
| CategoryOrdering.LexLessTransitive | src/app/modules/category/category.services.ts:202 | the code-point order of names is transitive |
| CategoryOrdering.LexLessTotal | src/app/modules/category/category.services.ts:202 | any two different names are ordered one way or the other |
| CategoryOrdering.BeforeAsymmetric | src/app/modules/category/category.services.ts:202 | under every sort key no two records sort before each other |
| CategoryOrdering.InsertBy | src/app/modules/category/category.services.ts:202 | insertion adds exactly the one record to the multiset |
| CategoryOrdering.InsertBySorted | src/app/modules/category/category.services.ts:202 | inserting into a sorted sequence keeps it sorted |
| CategoryOrdering.SortBy | src/app/modules/category/category.services.ts:202 | the sort is a permutation of its input in which no record sorts strictly before an earlier one |
| CategoryOrdering.SortPair | src/app/modules/category/category.services.ts:202 | two records are swapped exactly when the second sorts strictly before the first |
| CategoryOrdering.SortByTwoExample | src/app/modules/category/category.services.ts:202 | Phones (2) and Books (1): Books first by sortOrder and by name, last by `-name` |
| CategoryReads.FoundById | src/app/modules/category/category.services.ts:165-169 | the record stored under the id, or NotFound exactly when there is none |
| CategoryReads.FirstWithSlug | src/app/modules/category/category.services.ts:173 | the first position holding the slug, or none exactly when no record holds it |
| CategoryReads.FoundBySlug | src/app/modules/category/category.services.ts:172-176 | a record of the collection holding the slug, or NotFound exactly when no record holds it |
| CategoryReads.FoundBySlugUnique | src/app/modules/category/category.services.ts:172-176 | with unique slugs every record is what its slug finds |
| CategoryReads.CreatedIsFound | src/app/modules/category/category.services.ts:85-100 | a created record is found by its id and by its slug |
| CategoryReads.HardDeletedIsGone | src/app/modules/category/category.services.ts:261-262 | a record a hard delete reports deleted is no longer found by id |
| CategoryReads.Matching | src/app/modules/category/category.services.ts:196-199 | the filtered records are exactly those of the input that pass the parent, `isActive` and search filter |
| CategoryReads.Window | src/app/modules/category/category.services.ts:202 | skip then limit: the records from `skip` on, at most the absolute limit of them, all for limit 0 |
| CategoryReads.ListOrder | src/app/modules/category/category.services.ts:196-202 | the matching records of the collection, exactly, sorted by the requested key |
| CategoryReads.PagedSlice | src/app/modules/category/category.services.ts:202-206 | for a page from 1 and a positive limit the items are records `[(page-1)*limit, page*limit)` and `total` counts all matches |
| CategoryReads.PagedFails | src/app/modules/category/category.services.ts:202 | the request fails exactly when `(page-1)*limit` is negative |
| CategoryReads.PagedWithin | src/app/modules/category/category.services.ts:202 | every item is one of the matching records, and a page of a sorted sequence is sorted |
| CategoryReads.ListedPage | src/app/modules/category/category.services.ts:187-206 | with a page from 1 and a positive limit the listing succeeds with that page of the selected records and their full count |
| CategoryReads.ListedDefaults | src/app/modules/category/category.services.ts:187-194 | without options: page 1, limit 20, the first 20 roots by sortOrder and the number of roots |
| CategoryReads.ListedItemsMatch | src/app/modules/category/category.services.ts:196-206 | every listed record is in the collection and passes the filter, and the page is in the requested order |
| CategoryReads.PagesAdjacent | src/app/modules/category/category.services.ts:202 | pages `p` and `p + 1` are adjacent slices of the selected records |
| CategoryReads.PageZero | src/app/modules/category/category.services.ts:202 | page 0 with a positive limit asks for a negative skip, which fails |
| CategoryReads.TreeDocs | src/app/modules/category/category.services.ts:211-214 | all records, or only the active ones, exactly, sorted by level and then sortOrder |
| CategoryReads.ActiveOnly | src/app/modules/category/category.services.ts:211-212 | keeps exactly the records the match admits |
| CategoryReads.IndexById | src/app/modules/category/category.services.ts:220-223 | the first pass's `byId` maps each id to a position holding it |
| CategoryReads.IndexByIdLast | src/app/modules/category/category.services.ts:220-223 | every loaded id is in `byId`, at its last position |
| CategoryReads.RootsUpTo | src/app/modules/category/category.services.ts:225-233 | the positions placed among the roots, ascending and exactly those |
| CategoryReads.ChildrenUpTo | src/app/modules/category/category.services.ts:225-233 | the positions placed under a document, ascending and exactly those |
| CategoryReads.BuildForest | src/app/modules/category/category.services.ts:217-235 | the two loops build, for every document, exactly the roots and children arrays the placement rule defines |
| CategoryReads.ForestStep | src/app/modules/category/category.services.ts:225-233 | one step of the second loop appends the document to the roots or to its parent's children, and nowhere else |
| CategoryReads.GetCategoryTree | src/app/modules/category/category.services.ts:210-236 | the loaded documents and, for each, whether it is a root or whose child it is, exactly by the placement rule |
| CategoryReads.PlacedExactlyOnce | src/app/modules/category/category.services.ts:225-233 | every loaded record is a root or in the children of exactly one document, and no array holds it twice |
| CategoryReads.OrphanIsRoot | src/app/modules/category/category.services.ts:229 | a record whose parent was not loaded becomes a root |
| CategoryReads.ChildUnderParent | src/app/modules/category/category.services.ts:227-228 | a record goes under the loaded document holding its parent's id |
| CategoryReads.ParentLoadedNotRoot | src/app/modules/category/category.services.ts:226-228 | a record whose parent was loaded is not a root |
| CategoryReads.FullTreeRoots | src/app/modules/category/category.services.ts:210-236 | loading a whole collection without dangling links, the roots are exactly the records without a parent |
| CategoryHelper.ParseBooleanRoundTrip | src/app/modules/category/categor.helper.ts:19-25 | `true` and `false` written in a query are read back |
| CategoryHelper.ParseBooleanIgnoresCase | src/app/modules/category/categor.helper.ts:21 | the letter case of the text does not matter |
| CategoryHelper.ParseBooleanExamples | src/app/modules/category/categor.helper.ts:19-25 | `TRUE`, `Yes` are true; `0`, `No` are false; `on`, undefined and null give nothing |
| CategoryHelper.NumberTextDigits | src/app/modules/category/categor.helper.ts:29 | decimal digits convert to their value |
| CategoryHelper.NumberTextNegative | src/app/modules/category/categor.helper.ts:29 | a minus sign and digits convert to the negated value |
| CategoryHelper.NumberTextNoDigit | src/app/modules/category/categor.helper.ts:29-30 | a text without a digit is not a finite number |
| CategoryHelper.ParseNumber | src/app/modules/category/categor.helper.ts:27-31 | never yields a non-finite number |
| CategoryHelper.ParseNumberRoundTrip | src/app/modules/category/categor.helper.ts:27-31 | every whole number up to 2^53 either side of 0, written in a query, is read back |
| CategoryHelper.ParseNumberWithoutDigits | src/app/modules/category/categor.helper.ts:27-31 | a text without digits gives nothing, except white space alone, which gives 0 |
| CategoryHelper.ParseSort | src/app/modules/category/categor.helper.ts:33-42 | yields only one of the four list orders |
| CategoryHelper.ParseSortInverse | src/app/modules/category/categor.helper.ts:33-42 | yields a given order exactly when the value is the string naming it |
| CategoryHelper.ParseSortExamples | src/app/modules/category/categor.helper.ts:33-42 | another letter case, or a value that is not a string, gives nothing |
| CategoryHelper.OrUndefined | src/app/modules/category/categor.helper.ts:48-49 | null becomes undefined and every other value is kept |
| CategoryHelper.BuildListQueryRoundTrip | src/app/modules/category/categor.helper.ts:45-55 | a listing request written as a query string is built back into the same options |
| CategoryHelper.BlankPageIsZero | src/app/modules/category/categor.helper.ts:27-31 | a page of white space is read as 0 |
| CategoryValidation.ValidSlugIsNormal | src/app/modules/category/category.validation.ts:10-13 | a slug passes exactly when it is non-empty, in the normaliser's normal form, and has no underscore |
| CategoryValidation.ValidSlugIsFixed | src/app/modules/category/category.validation.ts:13 | every valid slug is a fixed point of the normaliser |
| CategoryValidation.NormalSlugNotAlwaysValid | src/app/modules/category/category.validation.ts:13 | the converse fails: `a_b` is normalised but not valid |
| CategoryValidation.AlnumRunIsValidSlug | src/app/modules/category/category.validation.ts:13 | a non-empty run of `[a-z0-9]` is valid |
| CategoryValidation.HyphenJoinIsValidSlug | src/app/modules/category/category.validation.ts:13 | a run, a hyphen and a valid slug make a valid slug |
| CategoryValidation.AlnumSlugExample | src/app/modules/category/category.validation.ts:10-13 | `tv4k` is valid |
| CategoryValidation.InvalidSlugExamples | src/app/modules/category/category.validation.ts:10-13 | `-phones`, `Phones` and the empty text are not |
| CategoryValidation.DoubleHyphenInvalid | src/app/modules/category/category.validation.ts:13 | `tv--4k` is not |
| CategoryValidation.LowerObjectIdIsSlug | src/app/modules/category/category.validation.ts:62 | an ObjectId in lower case is also a valid slug, so the two arms of `idOrSlug` overlap |
| CategoryValidation.UpdateNeedsAKnownField | src/app/modules/category/category.validation.ts:49-51 | an update body without any known field is refused |
| CategoryValidation.CreateBodyIsUpdateBody | src/app/modules/category/category.validation.ts:21-51 | a valid creation body is a valid update body |
| CategoryValidation.UpdateBodyExamples | src/app/modules/category/category.validation.ts:37-51 | one valid field passes; an empty body, an unknown field alone, a negative or fractional sortOrder do not |
| CategoryValidation.CreatePayloadOf | src/app/modules/category/category.validation.ts:21-31 | a valid body gives a payload with a non-empty name, a valid slug if any, and a non-negative sortOrder if any |
| CategoryValidation.ValidSlugOnInsert | src/app/modules/category/category.model.ts:59-60 | the pre-validate hook keeps a valid slug |
| CategoryValidation.ValidSlugInserted | src/app/modules/category/category.model.ts:59-60 | the insert stores a valid slug as the document carries it |
| CategoryValidation.ValidSlugStoredAsGiven | src/app/modules/category/category.validation.ts:23 | a creation that gives a valid slug stores exactly that slug |
| CategoryValidation.DigitsParse | src/app/modules/category/category.validation.ts:77-86 | a digit string is read by `parseNumber` as its value |
| CategoryValidation.ValidQueryParsesAsSchema | src/app/modules/category/category.validation.ts:69-89 | on a query the schema accepts, buildListQuery reads `isActive`, `page`, `limit` and `sort` as the schema's transforms do |
| UserId.RolePrefix | src/app/modules/user/user.id.ts:7-17 | a one-letter prefix: `A` for admin, `E` for employee, the fallback `U` otherwise |
| UserId.PadStart | src/app/modules/user/user.id.ts:34 | the result is `width` long, or the text itself when longer, and ends with the text |
| UserId.CounterCollection.GetNextCustomId | src/app/modules/user/user.id.ts:13-35 | the counters and the id afterwards are those `NextCustomId` defines |
| UserId.NextCustomIdIncrements | src/app/modules/user/user.id.ts:21-28 | a call raises the role's counter by exactly one, starting at 1 on a fresh key with padding 5, and leaves other keys unchanged |
| UserId.NextCustomIdKeepsKeys | src/app/modules/user/user.id.ts:21-28 | each counter stays stored under its own key |
| UserId.CounterKeysDistinct | src/app/modules/user/user.id.ts:18 | different roles have different keys |
| UserId.FormatIdReadsBack | src/app/modules/user/user.id.ts:31-34 | an id is the prefix and at least `padding` digits that read back as the number |
| UserId.FormatIdInjective | src/app/modules/user/user.id.ts:34 | different numbers give different ids |
| UserId.RolesNeverShareIds | src/app/modules/user/user.id.ts:7-17 | ids of different roles differ in their prefix |
| UserId.NextCustomIdNumber | src/app/modules/user/user.id.ts:31-34 | the id carries the number the counter now holds |
| UserId.SuccessiveIdsIncrease | src/app/modules/user/user.id.ts:24-34 | two successive calls for one role give different ids, the second number one more |
| UserId.FirstAdminIds | src/app/modules/user/user.id.ts:13-35 | the first two admin ids of a fresh collection are `A00001` and `A00002` |
| UserId.WideNumberKeptWhole | src/app/modules/user/user.id.ts:34 | the 100000th admin id is `A100000` |
| Phone.Digits | src/app/helpers/stripNonDigits.ts:2 | the kept characters are all digits and no more than the input's |
| Phone.DigitsMembers | src/app/helpers/stripNonDigits.ts:2 | the digits kept are exactly the input's digits |
| Phone.DigitsAppend | src/app/helpers/stripNonDigits.ts:2 | stripping a concatenation strips each part |
| Phone.DigitsKeepsDigitString | src/app/helpers/stripNonDigits.ts:2 | a text is kept whole exactly when it is all digits |
| Phone.StripNonDigitsIdempotent | src/app/helpers/stripNonDigits.ts:2 | stripping twice is stripping once |
| Phone.StripNonDigitsKeepsDigits | src/app/helpers/stripNonDigits.ts:2 | a non-empty value keeps exactly its digits, in order |
| Phone.DigitsOfTrim | src/app/helpers/stripNonDigits.ts:6-8 | trimming keeps every digit |
| Phone.KeepLeadingPlusDigitsShape | src/app/helpers/stripNonDigits.ts:4-10 | the result is `+` and the digits exactly when the trimmed input starts with `+`, else the digits |
| Phone.PlusDigitsFixed | src/app/helpers/stripNonDigits.ts:4-10 | `+` and digits is kept as it is |
| Phone.DigitsFixed | src/app/helpers/stripNonDigits.ts:4-10 | a non-empty digit text is kept as it is |
| Phone.KeepLeadingPlusDigitsIdempotent | src/app/helpers/stripNonDigits.ts:4-10 | normalising twice is normalising once |
| Phone.E164IsCountryCodeAndLocal | src/app/helpers/stripNonDigits.ts:14-15 | the international form is exactly `+88` before the local form |
| Phone.ValidPhoneIsNormal | src/app/helpers/stripNonDigits.ts:12-17 | a valid number is already in the form keepLeadingPlusDigits gives |
| Phone.StripNonDigitsBreaksE164 | src/app/helpers/stripNonDigits.ts:2-16 | stripping drops the `+` of an international number and the result is in neither accepted format |
| Phone.IsValidBDPhoneExamples | src/app/helpers/stripNonDigits.ts:12-17 | `+8801711000000` and `01711000000` pass, without the `+` or one digit short they do not, an empty value passes |
| Phone.DigitsExample | src/app/helpers/stripNonDigits.ts:2 | `01-7 1` becomes `0171` |
| InventorySku.FirstToken | src/app/modules/inventory/inventory.utils.ts:7 | the longest prefix without white space |
| InventorySku.Substring | src/app/modules/inventory/inventory.utils.ts:14 | at most `to - from` characters |
| InventorySku.ProductPartIsFirstWord | src/app/modules/inventory/inventory.utils.ts:5-8 | the product part is one upper-case word: the upper-cased trimmed name up to its first white space |
| InventorySku.RandomPartShape | src/app/modules/inventory/inventory.utils.ts:12-15 | at most four characters, none lower-case; characters 2 to 5 upper-cased when there are enough |
| InventorySku.GenerateSkuIsUpperCase | src/app/modules/inventory/inventory.utils.ts:1-18 | the SKU has no lower-case letter |
| InventorySku.GenerateSkuParts | src/app/modules/inventory/inventory.utils.ts:17 | the SKU is the product part, a hyphen, the model part, a hyphen and the random part |
| InventorySku.GenerateSkuIgnoresCase | src/app/modules/inventory/inventory.utils.ts:5-10 | the letter case of the name and model code does not change the SKU |
| InventorySku.GenerateSkuIgnoresPadding | src/app/modules/inventory/inventory.utils.ts:5-10 | white space around the name and model code does not change the SKU |
| InventorySku.BlankNameSku | src/app/modules/inventory/inventory.utils.ts:5-8 | a blank name gives an SKU that starts with a hyphen |
| InventorySku.FirstTokenOfWord | src/app/modules/inventory/inventory.utils.ts:7 | the first token of a word followed by white space is that word |
| InventorySku.ProductPartOfName | src/app/modules/inventory/inventory.utils.ts:5-8 | a word, white space and more text give that word upper-cased |
| InventorySku.ProductPartExample | src/app/modules/inventory/inventory.utils.ts:5-8 | `Galaxy S24` gives `GALAXY` |
| InventorySku.ModelPartExample | src/app/modules/inventory/inventory.utils.ts:10 | `sm-s921` gives `SM-S921` |
| InventorySku.RandomPartExample | src/app/modules/inventory/inventory.utils.ts:12-15 | `0.k3f9q2` gives `K3F9` |

## Left out

- Transactions, sessions and concurrency: each operation is atomic on the map, and an aborted transaction restores the snapshot. `ensureParentOK` and `computeTreeFields` read outside the session (`category.services.ts:37`, `category.tree.ts:30-33`). Under concurrent writers that could matter, but the model has no concurrency.
- MongoDB and Mongoose machinery: `lean`, `select`, `toObject`, timestamps, index declarations other than the unique slug, and the `Promise.all` pairing of `find` and `countDocuments`.
- ObjectId casting: ids are naturals. `new Types.ObjectId(id)` throwing on a malformed id is not modelled. In `CategoryValidation.CreatePayloadOf` the hex-to-id conversion is a parameter `idOf`.
- The regular-expression search of `listCategories`: a parameter `nameMatches` stands for the case-insensitive match on the name.
- The order among records with equal sort keys: MongoDB leaves it open. The model's insertion sort is stable and so picks one order: tied records keep their input order. Every sorting lemma holds for any order that is sorted and a permutation, except `CategoryOrdering.SortPair`, whose tie case states that stable choice (`SortByTwoExample` calls it only on pairs that are strictly ordered under each key).
- `limit` on a cursor: a negative limit is read as its absolute value, and a fractional page or limit is not modelled (the parsers yield whole numbers only).
- A fractional `sortOrder`: `CategoryService.CreatePayload`, `CategoryService.UpdatePayload`, the stored `Category` record, the `MadeRoom` shift and `Reordered` hold `sortOrder` as an `int`. The source types it `number` (`category.services.ts:14`, `:23`, `:271`). Its only guard, `z.number().int()` (`category.validation.ts:27`, `:44`), is switched off in the router. So a fraction can reach `makeRoomForSortOrder` (`$gte` and `$inc` at `category.services.ts:63-64`), be stored, and feed `getNextSortOrder`. The model cannot express this, because it has no floating point.
- `Number()` is decided only for white space, signed whole decimal numbers up to 2^53, `Infinity` with or without a sign, and texts without a digit. Every other text, such as a fraction, an exponent, hexadecimal or a larger number, gives `Unmodelled`, because the model has no floating point.
- Case mapping and character classes are ASCII only (`toLowerCase`, `toUpperCase`, `\w`); the white-space set of `trim` and `\s` is JavaScript's full set.
- `getCategoryTree` returns nested objects that share identity with the loaded documents. The model names each document by its position and returns the roots and each document's children as lists of positions.
- `Math.random().toString(36)` in `generateSKU` is an input, the text it produced. The SKU is stated as its three parts; no lemma fixes one whole SKU literal.
- The counter schema's bounds (`padding` 1 to 12, `nextNumber` at least 0) are not enforced by `findOneAndUpdate` and are not modelled. `doc.padding ?? 5` is always the stored padding, which the upsert sets to 5.
- src/app/modules/user/user.services.ts, the controllers, routers and the HTTP layer (including the parsing of `?hard=`) are not part of this model.
- A blank `page` (`?page=%20`) parses as 0 and makes the skip negative; the model shows both steps (`CategoryHelper.BlankPageIsZero`, `CategoryReads.PageZero`) rather than a single end-to-end lemma.
- CategoryInvariants.UpdatedKeepsConsistent: requires the record to have no children or to keep its tree fields, because the source does not re-derive descendants; `CategoryStaleness.MoveWithChildMakesStale` shows the other case.
- CategoryHierarchy.AcceptedUpdateKeepsAcyclic, CategoryHierarchy.AcceptedMoveKeepsAcyclic and CategoryHierarchy.RelinkKeepsAcyclic: assume the stored ancestors are the real chains, which the source does not maintain after a move of a record with children (`CategoryStaleness.SecondMove`).
- CategoryService.Created: its own contract states only the rollback; what a successful creation stores is in `CreatedAddsOne`, `CreatedSteps` and `CategoryModel.InsertedRecord`.

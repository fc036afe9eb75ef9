# Classy Class-Based Views: class-hierarchy resolution, modelled in Dafny

Classy Class-Based Views (ccbv) catalogues the class-based views of a Python
web framework. It stores every class, its direct parents (ordered
`Inheritance` rows), its methods and its attributes. It then answers
hierarchy questions from that stored graph:

- the linearised ancestors of a class;
- all of its descendants;
- every method and attribute it can see;
- for the detail page, which same-named methods and attributes override
  which.

This project models that engine, and the helpers around it, as Dafny code
and proves what each part promises.

- **Graph** (`hierarchy.dfy`, module `Hierarchy`).
  - A `Snapshot` maps each class id to its name, module, ordered parent list
    and a rank.
  - `Valid` requires that every parent is stored and has a smaller rank. This
    is how acyclicity is stated, and the rank is the termination measure.
  - The specification functions are:
    - the depth-first expansion `Tree`;
    - `DedupLast`, which keeps the last occurrence of each element;
    - `AllAncestors`, the linearisation;
    - `IsAncestor`, `Children` and `Descendants`;
    - `Sees`: a class sees itself and its ancestors.
- **Class model** (`models.dfy`, module `Models`).
  - `get_all_ancestors`, `get_all_children`, `get_methods`, `get_attributes`,
    `basic_yuml_data` and `basic_yuml_url`, and `is_secondary`.
  - The project version's sortable number and `save`.
  - The module names `short_name`, `source_name` and `long_name`.
- **Detail view** (`views.dfy`, module `Views`).
  - The namesake ordering loop of `_namesake_methods`.
  - The grouping, stable sort and override marking of
    `_get_prepared_attributes`.
- **Template tags** (`cbv_tags.dfy`, `inspector_tags.dfy`).
  - The two other copies of `namesake_methods`, and `is_final`.
- **Import storage** (`storages.dfy`, module `Storages`).
  - Observations are bucketed by `(name, value)`.
  - `create_attributes` keeps, in each group, only observations whose class
    is not a descendant of another observed class.
  - `create_inheritance` numbers the known bases of each class by their
    declared position.
- **Importer helpers** (`importers.dfy`, module `Importers`).
  - `get_value`, `ok_to_add_attribute`, `ok_to_add_method` and `_full_path`.
  - The best import path, `get_code` (dedent in place), `get_filename`.
  - `LazyAttribute` and its `repr`.
- **Legacy inspector** (`inspector_models.dfy`).
  - Direct-parent `get_ancestors`, the two-level `get_all_children`, the
    recursive member unions and the text renderings.
- **Generator** (`ccbv_utils.dfy`, `ccbv_itertools.dfy`, `ccbv_library.dfy`).
  - `get_all_descendents`, `get_mro`, `map_module`, `html` and `index`.
  - `group_by` and `mapv`.
  - The `DefaultOrderedDict` class, with its table of keys in insertion
    order.
  - The dedup-on-append logic of `classify`.

`wrappers.dfy` holds `Option`, `Result` and the Python exceptions the code
raises. `text.dfy` holds the string helpers: strip, split and join,
zero-fill, and number rendering.

`get_all_ancestors` is not Python's C3 method resolution order. It walks the
stored parents depth first and keeps each class's last occurrence, so the
declared order of a class's parents is not always kept. With `D(A, B)` and
`B(A)` it gives `[B, A]` (`Hierarchy.DeclaredOrderNotKept`). Python itself
refuses `class D(A, B)` when `B(A)` ("cannot create a consistent method
resolution order"), so that graph arises only as stored inheritance rows, not
from a Python class definition.

## Model

| member | source | states |
|---|---|---|
| Hierarchy.DedupLast | cbv/models.py:229-234 | the cleaned list holds exactly the classes of the tree, each once |
| Hierarchy.DedupLastOrder | cbv/models.py:229-234 | the cleaned list follows the order of each class's last occurrence in the tree |
| Hierarchy.Expand | cbv/models.py:224-227 | the expansion from parent `i` on holds only stored classes of smaller rank |
| Hierarchy.Tree | cbv/models.py:224-227 | the depth-first tree holds only stored classes ranked below the class |
| Hierarchy.AllAncestors | cbv/models.py:218-238 | every linearised ancestor is a stored class of strictly smaller rank |
| Hierarchy.Parents | cbv/models.py:202-207 | `get_ancestors`: the stored direct parents, in `inheritance__order`; `Valid` asks each of them to be stored and ranked below the class |
| Hierarchy.Children | cbv/models.py:209-214 | `c` is a child of `k` exactly when `c` is stored and lists `k` among its parents |
| Hierarchy.AncestorRank | cbv/models.py:218-238 | any ancestor is stored and ranked below, so the recursions terminate |
| Hierarchy.AncestorTransitive | cbv/models.py:221-227 | an ancestor of an ancestor is an ancestor |
| Hierarchy.ExpandMembership | cbv/models.py:224-227 | a class is in the expansion from parent `i` on iff some later parent is it or has it among its linearised ancestors |
| Hierarchy.AncestorsAreClosure | cbv/models.py:221-227 | `a` is in `get_all_ancestors(k)` iff `a` is a transitive ancestor of `k` |
| Hierarchy.LinearisationIsDuplicateFree | cbv/models.py:229-234 | no class occurs twice in the linearisation, and the class itself is not in it |
| Hierarchy.AncestorDescendantDuality | cbv/models.py:218-246 | `y` is among the ancestors of `x` iff `x` is among the descendants of `y` |
| Hierarchy.DescendantsUnfold | cbv/models.py:240-246 | the descendants are the children plus the descendants of each child |
| Hierarchy.SeesThroughLinearisation | cbv/models.py:248-262 | a class sees `c` iff `c` is the class or is seen by one of its linearised ancestors |
| Hierarchy.LinearChain | tests/test_models.py:12-33 | `C(B(A))` linearises to `[B, A]` |
| Hierarchy.Diamond | tests/test_models.py:35-59 | `D(B, C)`, `B(A)`, `C(A)` linearises to `[B, C, A]` |
| Hierarchy.DeclaredOrderNotKept | cbv/models.py:224-234 | `D(A, B)` with `B(A)` linearises to `[B, A]`: the declared parent order is not kept |
| Models.GetAllAncestors | cbv/models.py:218-238 | the append / `+=` loop and the reversed insert-at-front loop compute the linearisation `AllAncestors` |
| Models.GetAllChildren | cbv/models.py:240-246 | the recursive union of children is exactly the set of descendants |
| Models.CollectMembers | cbv/models.py:248-262 | a member is collected iff it is in the pool and its owner is seen by the class |
| Models.GetMethods | cbv/models.py:248-254 | the methods of the class and of every ancestor, nothing else |
| Models.GetAttributes | cbv/models.py:256-262 | the attributes of the class and of every ancestor, nothing else |
| Models.SecondaryNames | cbv/models.py:179-186 | `Base…`, `…Base`, `…Mixin`, `…Error` and `ProcessFormView` are secondary; `View`, `FormView`, `UpdateView` are not |
| Models.IsSecondary | cbv/models.py:179-186 | `is_secondary`: a name shorter than four characters is never secondary; the prefix/suffix test itself is checked on examples by `SecondaryNames` |
| Models.EdgeLine | cbv/models.py:269-281 | each yUML edge line is a non-empty `[`-bracketed line |
| Models.YumlEdges | cbv/models.py:264-285 | every edge drawn joins two stored classes |
| Models.YumlFrom | cbv/models.py:270-283 | every edge drawn from parent `i` on joins two stored classes |
| Models.BasicYumlData | cbv/models.py:264-285 | the lines render, one by one, the edge to each direct parent followed by that parent's own edges |
| Models.YumlFromEdges | cbv/models.py:270-283 | an edge is drawn from parent `i` on iff it is the edge to a later parent or one of that parent's edges |
| Models.YumlEdgesSound | cbv/models.py:264-285 | every drawn edge is an inheritance edge into the class or one of its ancestors |
| Models.YumlEdgesComplete | cbv/models.py:264-285 | every inheritance edge into the class or one of its ancestors is drawn |
| Models.YumlEdgesAreAncestryEdges | cbv/models.py:264-285 | the drawn edges are exactly the inheritance edges at or above the class |
| Models.YumlEdgesEmpty | cbv/models.py:264-285 | nothing is drawn iff the class has no direct parent |
| Models.BasicYumlUrl | cbv/models.py:287-291 | `None` iff the class has no parent; otherwise the yUML URL around the `", "`-joined lines of the diagram |
| Models.PadParts | cbv/models.py:66-67 | each dotted part zero-filled to width two |
| Models.SortableVersionNumber | cbv/models.py:66-67 | the dots are gone from the sortable number; its pairs are the zero-filled parts (`SortableVersionPairs`) |
| Models.SortableExampleTwoParts | cbv/models.py:66-67 | `"1.10"` sorts as `"0110"` |
| Models.SortableExampleThreeParts | cbv/models.py:66-67 | `"4.2.1"` sorts as `"040201"` |
| Models.SortableVersionPairs | cbv/models.py:66-67 | for parts of at most two unsigned characters, the number is two characters per part, the i-th pair being the i-th part left-padded with `0` |
| Models.ProjectVersion.Save | cbv/models.py:55-58 | the sortable number is filled in from the version number only when it is empty, and kept otherwise |
| Models.ShortName | cbv/models.py:95-96 | the short name has no dot and is the whole name or its tail after a dot |
| Models.LookupDottedIsLongestPrefix | cbv/models.py:105-111 | the value found is the one of the longest dotted prefix that is a source key, and none is found iff no dotted prefix is a key |
| Models.SourceName | cbv/models.py:105-111 | the loop dropping the last segment yields the longest-prefix lookup, `None` when the name runs out |
| Models.LongName | cbv/models.py:98-103 | fails with `AttributeError` on `None.lower()` iff no dotted prefix is a source; otherwise the short name alone when it equals the source name up to case, else the source name, a space and the short name |
| Views.Position | cbv/views.py:170-176 | `order.index(c)`: a position holding `c` with no `c` before it |
| Views.OwnMethodFirst | cbv/views.py:144-146 | in a list ordered by `[k] + ancestors`, an entry of `k` can only be at index 0 |
| Views.FirstOfClass | cbv/views.py:152 | `next(m for m in namesakes if m.klass == klass)`: the first entry of the class, none iff the class has no entry |
| Views.FindFirstOfClass | cbv/views.py:152 | the search loop finds that first entry |
| Views.RemoveAt | cbv/views.py:153 | `pop` removes exactly that one entry |
| Views.ArrangeKeepsEntries | cbv/views.py:149-156 | moved and left-over entries together are the input namesakes |
| Views.ArrangeIsOrdered | cbv/views.py:149-156 | moved entries follow the class order, strictly |
| Views.ArrangeLeavesNothing | cbv/views.py:149-157 | nothing is left iff every class of the order has at most one entry and no other class has any |
| Views.ArrangeOutcome | cbv/views.py:149-157 | the three facts above together |
| Views.OrderNamesakes | cbv/views.py:142-158 | `AssertionError` when there is no namesake or one is left; otherwise a permutation of the namesakes in class order |
| Views.OnePerClassCounts | cbv/views.py:152-157 | no two entries of one class iff each class has at most one entry |
| Views.LinearisedOrder | cbv/views.py:144-149 | `[k] + get_all_ancestors(k)` has no duplicates and lists exactly the classes `k` sees |
| Views.CollectNamesakes | cbv/views.py:141 | the list comprehension holds exactly the visible methods with the name, once each |
| Views.NamesakeMethods | cbv/views.py:140-158 | succeeds iff some namesake exists and no class holds two, else `AssertionError`; the result lists every namesake once, in linearised class order, the class's own first |
| Views.NamesakeOutcome | cbv/views.py:140-158 | the arrangement's outcome, restated over the set of visible namesakes |
| Views.IndicesOfMembers | cbv/views.py:163-165 | a name's group holds exactly the positions of the attributes with that name, in order |
| Views.GroupByName | cbv/views.py:163-165 | the `defaultdict(list)` loop groups every attribute position under its name |
| Views.StableFirst | cbv/views.py:184 | the position chosen is one that no other group member sorts before (the head of the stable sort) |
| Views.MarkAllBut | cbv/views.py:187-188 | every group member but the head is flagged, earlier flags stay set, and nothing else changes |
| Views.GroupVerdict | cbv/views.py:181-188 | within a group, an attribute is flagged iff it is not the head |
| Views.MarkGroup | cbv/views.py:179-188 | after one group, the flags are the old flags plus the group's overridden members (a single-member group is skipped) |
| Views.MarkOverridden | cbv/views.py:179-188 | after all groups, exactly the overridden attributes are flagged |
| Views.GetPreparedAttributes | cbv/views.py:160-189 | the visible attributes, once each, with `overridden` set exactly on those a nearer same-named attribute sorts before |
| Views.Survivor | cbv/views.py:184 | a group member no other member sorts before exists |
| Views.OneSurvivorPerName | cbv/views.py:179-188 | each name keeps exactly one unflagged attribute |
| Views.SortKeyIsPosition | cbv/views.py:170-176 | the key `-1` for the class's own attribute, else the ancestor index, is the position in `[k] + ancestors` minus one |
| Views.NearestDefinitionWins | cbv/views.py:160-189 | with one attribute per name and class, an attribute is flagged iff a same-named attribute comes from a class earlier in `[k] + ancestors` |
| CbvTags.NamesakeMethods | cbv/templatetags/cbv_tags.py:8-27 | `AssertionError` iff there is no namesake or a class holds two; otherwise the result holds exactly the namesakes, each once, the class's own first and the rest in `get_all_ancestors` order |
| CbvTags.OwnDefinitionLeads | cbv/templatetags/cbv_tags.py:13-15 | the class's own namesake is the first entry |
| CbvTags.OncePerEntry | cbv/templatetags/cbv_tags.py:18-26 | each namesake appears with multiplicity one: the result is a permutation |
| CbvTags.IsFinalMarksLast | cbv/templatetags/cbv_tags.py:56-58 | in a list without repeats, `is_final(x, last)` holds exactly at the last position |
| CbvTags.IsFinalMarksRepeats | cbv/templatetags/cbv_tags.py:56-58 | an earlier entry equal to the last one is also reported final |
| CbvTags.IsFinal | cbv/templatetags/cbv_tags.py:56-58 | `obj == last`, Python equality; its meaning over a list is stated by `IsFinalMarksLast` and `IsFinalMarksRepeats` |
| InspectorTags.NamesakeMethodsAsWritten | inspector/cbv/templatetags/cbv_tags.py:6-25 | always fails: `AssertionError` iff there is no namesake, otherwise `AttributeError`, because the inspector's class has no `get_all_ancestors` |
| InspectorTags.NamesakeMethods | inspector/cbv/templatetags/cbv_tags.py:6-25 | with a linearisation supplied: succeeds iff a namesake exists and no class holds two; every namesake once, in linearised order |
| InspectorTags.RootNamesakeListed | inspector/cbv/templatetags/cbv_tags.py:8-9 | for C in `C(B(A))` with `get` only on A, the namesakes are exactly A's `get` |
| InspectorTags.RootNamesakeOutcome | inspector/cbv/templatetags/cbv_tags.py:6-25 | on that hierarchy the filter as written fails with the `AttributeError`, the intended one returns `[get]` |
| InspectorModels.GetAncestors | inspector/cbv/models.py:87-88 | exactly the direct parents, as a set |
| InspectorModels.DirectParentsOnly | inspector/cbv/models.py:87-88 | in `C(B(A))` the result for C is `{B}` although A is an ancestor |
| InspectorModels.GetAllChildren | inspector/cbv/models.py:93-97 | the children and the children's children, nothing deeper |
| InspectorModels.TwoLevelsAreDescendants | inspector/cbv/models.py:93-97 | all it finds are descendants |
| InspectorModels.GreatGrandchildMissed | inspector/cbv/models.py:93-97 | in a chain of four, the great-grandchild is a descendant it misses |
| InspectorModels.CollectMembers | inspector/cbv/models.py:99-109 | recursing through direct parents collects exactly the members whose owner the class sees |
| InspectorModels.GetMethods | inspector/cbv/models.py:99-103 | the own and inherited methods, the same set as the linearised union |
| InspectorModels.GetAttributes | inspector/cbv/models.py:105-109 | the own and inherited attributes, the same set as the linearised union |
| InspectorModels.ProjectVersionText | inspector/cbv/models.py:30-31 | the project name, a space and the version number; read back by `ProjectVersionTextSplits` |
| InspectorModels.ProjectVersionTextSplits | inspector/cbv/models.py:30-31 | a space-free project name is the first word of the rendering and the version is the rest |
| InspectorModels.InheritanceText | inspector/cbv/models.py:124-125 | the rendering starts with `parent <- child (` and ends with `)` |
| InspectorModels.InheritanceOrderReadsBack | inspector/cbv/models.py:124-125 | the digits between the prefix and `)` parse back to the order |
| InspectorModels.AttributeText | inspector/cbv/models.py:140-141 | the name, ` = ` and the value; read back by `AttributeTextSplits` |
| InspectorModels.AttributeTextSplits | inspector/cbv/models.py:140-141 | for a name without `=`, the text before the first `=` is the name followed by a space |
| Storages.Observed | cbv/importer/storages.py:40-43 | a bucket is never longer than the stream |
| Storages.ObservedMembers | cbv/importer/storages.py:40-43 | a bucket holds exactly the `(path, line)` of the stream's attributes with that `(name, value)` |
| Storages.KeysInOrderMembers | cbv/importer/storages.py:24-26 | the bucket keys, in first-seen order, are distinct and are exactly the keys with a non-empty bucket |
| Storages.BucketObservations | cbv/importer/storages.py:31-43 | the import loop yields those keys in that order and those buckets |
| Storages.FirstUnknown | cbv/importer/storages.py:97-98 | none iff every observed path is known; otherwise the first unknown path |
| Storages.FirstUnknownAt | cbv/importer/storages.py:97-98 | the path reported is the first unknown one |
| Storages.BelowMembers | cbv/importer/storages.py:96-100 | the `descendants` set is the union of the descendants of every observed class |
| Storages.DefiningRows | cbv/importer/storages.py:104-117 | at most one row per observation |
| Storages.DefiningRowsMembers | cbv/importer/storages.py:104-117 | a row is kept iff it is the row of an observation whose class is outside the `descendants` set |
| Storages.DefiningRowsConcat | cbv/importer/storages.py:104-108 | the filter keeps observation order: it distributes over concatenation |
| Storages.DefiningAttributes | cbv/importer/storages.py:93-117 | one group's loop yields a `KeyError` on an unknown path, otherwise that group's kept rows |
| Storages.AttributeRowsErrPersists | cbv/importer/storages.py:93-119 | once a group fails, the whole call fails with that error |
| Storages.CreateAttributes | cbv/importer/storages.py:87-119 | the loop over groups yields the first failing group's error, else every group's rows in key order |
| Storages.KeptExactly | cbv/importer/storages.py:95-108 | an observation is kept iff its class is a descendant of no observed class |
| Storages.KeptRowsAreDefining | cbv/importer/storages.py:104-117 | a kept row carries the group's name and value and an observation's class and line, and its class is below none observed |
| Storages.KeptClassesUnrelated | cbv/importer/storages.py:95-108 | no kept class is a descendant of another kept class |
| Storages.AttributeRowsOutcome | cbv/importer/storages.py:93-98 | the call succeeds iff every observed path of every group is known |
| Storages.AttributeRowsLast | cbv/importer/storages.py:93-117 | all groups succeed iff the earlier ones and the last one do, and the rows are theirs concatenated |
| Storages.AttributeRowsConcat | cbv/importer/storages.py:93-117 | groups resolve independently: the rows for two key lists are the rows of each |
| Storages.ChainBelow | cbv/importer/storages.py:96-100 | for `x = 1` seen on A, B and C of `C(B(A))`, B and C are below an observed class and A is not |
| Storages.ChainDefiningRows | cbv/importer/storages.py:104-117 | with B and C excluded, only A's row is kept |
| Storages.InheritedValueKeptOnce | cbv/importer/storages.py:93-117 | the inherited value is stored once, on A |
| Storages.KnownBaseEdges | cbv/importer/storages.py:128-137 | at most one edge per declared base |
| Storages.KnownBaseEdgesMembers | cbv/importer/storages.py:128-137 | an edge is emitted iff it joins a known base, at its declared index, to the class |
| Storages.KnownBaseEdgesOrdered | cbv/importer/storages.py:128-137 | orders strictly increase and stay below the number of bases |
| Storages.UnknownBaseLeavesGap | cbv/importer/storages.py:129-130 | an unknown middle base is skipped and leaves a gap in the numbering |
| Storages.InheritanceRowsErrPersists | cbv/importer/storages.py:126-136 | once a class fails, the whole call fails with that error |
| Storages.CreateInheritance | cbv/importer/storages.py:122-138 | the nested loops yield exactly the specified edges, or the `KeyError` |
| Storages.InheritanceRowsOutcome | cbv/importer/storages.py:126-136 | succeeds iff every class that has a known base is itself known |
| Storages.InheritanceRowsMembers | cbv/importer/storages.py:126-137 | an edge is emitted iff it is a known-base edge of a known class |
| Importers.Quote | cbv/importer/importers.py:229 | the text in single quotes |
| Importers.GetValue | cbv/importer/importers.py:228-229 | strings are quoted, everything else is rendered with `str()` |
| Importers.BannedNamesAreDunder | cbv/importer/importers.py:14-27 | every banned name starts and ends with `__` |
| Importers.OkToAddAttribute | cbv/importer/importers.py:232-238 | accepted iff the name is not banned and it is not an `object` member on a class |
| Importers.OrdinaryNamesPass | cbv/importer/importers.py:232-238 | a name not starting with `__` is refused only when it is an `object` member on a class |
| Importers.OkToAddMethod | cbv/importer/importers.py:241-256 | accepted only in the class's own file, on a class, with its start within the class's line range |
| Importers.MethodLinesAccepted | cbv/importer/importers.py:252-256 | any start from the class start up to start + length is accepted (that end is one past the class's last line), and the next line is refused |
| Importers.FullPath | cbv/importer/importers.py:181-182 | the module is the parent of the path and the class name its last segment |
| Importers.ShallowestIsShortest | cbv/importer/importers.py:171-178 | the prefix found is the shortest dotted prefix that exposes the class, none iff none does |
| Importers.BestImportPath | cbv/importer/importers.py:171-178 | the module path itself when no proper prefix exposes the class, otherwise the shortest one that does |
| Importers.Indentation | cbv/importer/importers.py:188 | the count of leading whitespace: dropping it gives the left-stripped line |
| Importers.DropFront | cbv/importer/importers.py:190 | `line[w:]`: the dropped front and the rest make up the line |
| Importers.FirstLineStripped | cbv/importer/importers.py:187-190 | the first line comes out left-stripped |
| Importers.DedentRoundTrip | cbv/importer/importers.py:187-193 | lines sharing an indent get it back by prefixing it |
| Importers.GetCode | cbv/importer/importers.py:185-198 | `IndexError` on no lines; otherwise the in-place loop yields the dedented lines joined, the arguments and the start line |
| Importers.Kwargs | cbv/importer/importers.py:148 | `arguments[1:-1]`: the text between the first and last characters |
| Importers.KwargsOfParenthesised | cbv/importer/importers.py:148 | the argument text of `(inner)` is `inner` |
| Importers.LongestContained | cbv/importer/importers.py:210 | the folder chosen is a `sys.path` entry contained in the filename |
| Importers.LongestContainedIsFirstLongest | cbv/importer/importers.py:210 | none iff no entry is contained; otherwise the first contained entry of maximal length |
| Importers.GetFilename | cbv/importer/importers.py:205-218 | `ValueError` from `max()` iff no entry is contained |
| Importers.GetFilenameUnderFolder | cbv/importer/importers.py:210-218 | the folder is cut off the front, and a trailing `.pyc` becomes `.py` |
| Importers.NewLazyAttribute | cbv/importer/importers.py:266-272 | known functions map to their lazy names; any other function raises `ImproperlyConfigured` with the quoted name |
| Importers.LazyNamesAppendSuffix | cbv/importer/importers.py:260-264 | every lazy name is the function name plus `_lazy` |
| Importers.Repr | cbv/importer/importers.py:274-289 | the corrected `repr`: `func(` then the quoted positional and keyword texts joined by `", "`, then `)` |
| Importers.ReprAsWritten | cbv/importer/importers.py:274-289 | `repr` as written succeeds iff every keyword name has exactly two characters and every positional argument is a string |
| Importers.UnpackKey | cbv/importer/importers.py:281 | unpacking a dictionary key into two names succeeds iff the key has exactly two characters |
| Importers.KeywordTextsAsWritten | cbv/importer/importers.py:281-286 | the keyword loop as written succeeds iff every keyword name has two characters |
| Importers.FirstNonString | cbv/importer/importers.py:276-280 | none iff every positional argument is a string; otherwise a non-string is there |
| Importers.AsWrittenAgreesOnStrings | cbv/importer/importers.py:274-289 | without keywords and with only string arguments, the code as written gives the corrected text |
| Importers.KeywordArgumentBreaksAsWritten | cbv/importer/importers.py:281 | a `kwargs` keyword makes the code as written raise `ValueError` |
| Importers.KeywordExampleTexts | cbv/importer/importers.py:276-286 | the argument texts of that example |
| Importers.KeywordArgumentShown | cbv/importer/importers.py:274-289 | the corrected `repr` shows the keyword |
| Importers.NonStringArgumentBreaksAsWritten | cbv/importer/importers.py:276-288 | a non-string positional argument makes the code as written fail in `join` with `TypeError`; the corrected `repr` renders it |
| CcbvUtils.GetMro | ccbv/utils.py:43-44 | the filter never lengthens the resolution order |
| CcbvUtils.GetMroMembers | ccbv/utils.py:10-17 | a class is kept iff it is in the resolution order and its name is not excluded |
| CcbvUtils.GetMroConcat | ccbv/utils.py:43-44 | the filter keeps order: it distributes over concatenation |
| CcbvUtils.ObjectDropped | ccbv/utils.py:10-17 | `object` is always dropped |
| CcbvUtils.Html | ccbv/utils.py:47-48 | the name followed by `.html` (see `HtmlRoundTrip`) |
| CcbvUtils.FirstOccurrences | ccbv/utils.py:21 | the dictionary's keys: each input class once |
| CcbvUtils.GetAllDescendents | ccbv/utils.py:20-29 | the nested append loops build the reshaped map |
| CcbvUtils.AppendedMembers | ccbv/utils.py:26-27 | appending a class under its parents adds exactly those parents as keys and the class to each of their lists |
| CcbvUtils.AppendedOnce | ccbv/utils.py:26-27 | with distinct parents, each parent's list gains the class once |
| CcbvUtils.ReshapeKeys | ccbv/utils.py:24-27 | the keys are exactly the classes that are some input class's filtered ancestor |
| CcbvUtils.ReshapeEntries | ccbv/utils.py:20-29 | `x` is listed under `p` iff `x` is an input class and `p` is among its filtered ancestors |
| CcbvUtils.ReshapeOrder | ccbv/utils.py:25-27 | each list holds the children once each, in the order the model iterates the classes (first occurrence in the input) |
| CcbvUtils.DescendentsInvertParents | ccbv/utils.py:20-29 | the result is the exact inverse of the child-to-parents map |
| CcbvUtils.MapModule | ccbv/utils.py:55-60 | the first source that prefixes the module, or the module unchanged |
| CcbvUtils.HtmlRoundTrip | ccbv/utils.py:47-48 | the name followed by `.html`, and the name is recovered by cutting the suffix |
| CcbvUtils.Index | ccbv/utils.py:51-52 | `os.path.join(path, "index.html")` for POSIX paths (see `IndexInDirectory`) |
| CcbvUtils.IndexInDirectory | ccbv/utils.py:51-52 | `index.html` under the path, joined POSIX-style |
| CcbvItertools.GroupBy | ccbv/itertools.py:32-49 | `ValueError` iff neither `key` nor `keyval` is given; otherwise the lookup table of the chosen grouping |
| CcbvItertools.MapV | ccbv/itertools.py:52-54 | the mapped dictionary has exactly the keys of the input |
| CcbvItertools.KeyvalTakesPrecedence | ccbv/itertools.py:32-38 | `keyval` wins over `key` |
| CcbvItertools.LutKeys | ccbv/itertools.py:40-46 | the keys are exactly the keys of the input values |
| CcbvItertools.LutGroupInOrder | ccbv/itertools.py:41-47 | each group lists its values in input order |
| CcbvItertools.GroupSizesSum | ccbv/itertools.py:40-47 | the group sizes sum to the input length |
| CcbvItertools.DocumentedExampleKeepsInputOrder | ccbv/itertools.py:13-18 | the documented example's `q` group is `['qux', 'quux']`, not the documented order |
| CcbvItertools.MapVComposes | ccbv/itertools.py:52-54 | mapping twice is mapping once with the composition |
| CcbvItertools.GroupLengths | ccbv/itertools.py:52-54 | mapping `len` over the table gives each key its value count |
| CcbvLibrary.FromItemsKeys | ccbv/library.py:12 | the dictionary built from items has exactly the items' keys |
| CcbvLibrary.FromItemsLastWins | ccbv/library.py:12 | a key's value is that of its last item |
| CcbvLibrary.DefaultOrderedDict.Create | ccbv/library.py:8-13 | `TypeError` iff the factory is present but not callable; otherwise the dictionary of the items, with that factory |
| CcbvLibrary.DefaultOrderedDict.Set | ccbv/library.py:24 | assignment: a new key goes last, an existing key keeps its place |
| CcbvLibrary.DefaultOrderedDict.GetItem | ccbv/library.py:15-25 | a present key: its value, nothing changes; a missing key: `KeyError` without a factory, else the factory's value stored last and returned |
| CcbvLibrary.DefaultOrderedDict.Copy | ccbv/library.py:34-38 | a new dictionary with the same factory and the same items in the same order |
| CcbvLibrary.AddMembers | ccbv/library.py:71-101 | the fetch-and-append loop over one class's members yields the specified offers |
| CcbvLibrary.Classify | ccbv/library.py:52-103 | `Exception` for a non-class with nothing changed (the resolution order is then not read); otherwise the name, the root-first ancestor names without the class, and every shown member of every class, root first, offered to the two dictionaries |
| CcbvLibrary.Reversed | ccbv/library.py:56 | `reversed`: the i-th from the end becomes the i-th |
| CcbvLibrary.AncestorNames | ccbv/library.py:61 | `mro[:-1]` names: every class but the last, in order |
| CcbvLibrary.AddAllConcat | ccbv/library.py:65-101 | offering two runs is offering their concatenation |
| CcbvLibrary.AddAllKeepsInvariant | ccbv/library.py:71-87 | the table stays ordered and no list holds two entries with one key |
| CcbvLibrary.AddAllKeysPresent | ccbv/library.py:71-76 | a key is listed under a name iff some offer under that name had it |
| CcbvLibrary.FirstOfferWins | ccbv/library.py:71-76 | an entry is listed iff it was offered and no earlier offer under that name had its key |
| CcbvLibrary.AttributeAttributedToFirstExposer | ccbv/library.py:65-76 | an attribute entry is recorded iff it is the first exposure of that object under that name, from the root down |
| CcbvLibrary.MethodAttributedToFirstExposer | ccbv/library.py:79-101 | a method entry is recorded iff it is the first exposure of that stripped code under that name, from the root down; the strip is Python 2's byte-string strip of ASCII whitespace |
| Text.AsciiStripKeepsSeparators | ccbv/library.py:84 | the byte-string strip keeps a trailing `\x1c` that Python 3's `str.strip()` removes |
| CcbvLibrary.ClassifyKeepsListsDistinct | ccbv/library.py:71-87 | no list holds two attributes with the same object or two methods with the same code |

## Left out

- Django ORM and database plumbing are replaced by a `Snapshot` value.
  - This covers `QuerySet` unions, `select_related`, `bulk_create`, the managers, `_wipe_clashing_data` and URL reversal.
  - Query results are sets or sequences, so the ORM's result order (for example `get_children`'s order by name) is not modelled.
- The `hasattr` caches on `Klass` are dropped. Those of the ancestor, descendant, method and attribute queries only memoise over one unchanged snapshot.
- Models.BasicYumlData: the model always honours `first`. The source caches the lines per instance without regard to `first` (cbv/models.py:265-267), so a call with `first=True` after one with `first=False` on the same `Klass` instance returns the cached lines without the green child colour; that staleness is not modelled.
- Methods and attributes are compared by value, not by database primary key: two stored rows with identical fields are one row in the model. With such duplicate rows `Views.NamesakeMethods` can succeed where the source's `assert not namesakes` (cbv/views.py:157) fails; the importer never stores such duplicates.
- Models.LongName: `Text.Lower` folds ASCII letters only, whereas `str.lower()` folds all of Unicode, so the case-insensitive comparison is modelled for ASCII names.
- Cyclic inheritance is excluded by `Valid`, because the recursions do not terminate on it.
- `import_project_version` is modelled only through its attribute-bucketing loop; the creation of modules, classes and methods is database I/O.
- The `InspectCodeImporter` traversal is not modelled, and `inspect`, `importlib` and `Promise` are not called.
  - Their results are parameters instead: source lines, start lines, `sys.path`, the modules exposing a class, the lazy function and its arguments.
  - `get_docstring` and `get_line_number` only wrap `inspect`.
- Models.BasicYumlData: the colour choice inside each line is not spelled out in the postcondition. Lines are tied to edges through `EdgeLine`.
- `nav` in the template tags, the view's `get_context_data`, redirects, the sitemap and the health check are HTTP and template plumbing.
- `get_klasses` and `render` in the generator import modules and write files.
- `group_by` with a string `key` (`itemgetter`) is not modelled; the key is a function here.
- `DefaultOrderedDict.__reduce__`, `__deepcopy__` and `__repr__` are not modelled.
  - They concern pickling, deep copy and debug text.
  - `Create` models the constructor with its items as a sequence of pairs.
- CcbvLibrary.Classify: the docstring (`pydoc.getdoc`), `parents` (`inspect.getclasstree`), argument formatting and the source file are not modelled; they are opaque introspection results carried as fields.
- CcbvLibrary.AddMembers: each list is written back with `Set`, so the in-place list aliasing of `attr.append` is not modelled. The resulting contents are the same.
- CcbvUtils.GetAllDescendents: the result is a plain map rather than a `defaultdict`, so reading a missing key is not modelled.
- CcbvUtils.GetAllDescendents: the model iterates the classes in their first-occurrence order in the input, so each list comes out in that order. The source is Python 2: its dictionary comprehension (ccbv/utils.py:21) iterates in hash order, which the source does not fix, and its caller sorts each list by name afterwards.
- Importers.ReprAsWritten: the `TypeError` message stops at "expected str instance"; Python goes on to name the type found (", int found"), which the model's opaque non-string values do not carry.
- Class identity is modelled as values: `PyClass` is an id and a name, and the resolution order is a function parameter.
- `is_final` (CbvTags.IsFinal) is Python `==` on any values; the model uses Dafny equality.

## Findings

| source | as written | input that shows it | evidently intended | confidence | as-written member | corrected member |
|---|---|---|---|---|---|---|
| inspector/cbv/models.py:93-97 | the loop iterates the first query result, so only children and grandchildren are added | chain `D(C(B(A)))`: D is a descendant of A but is missing from A's result | all descendants, as in cbv/models.py:240-246 | high; not executed | InspectorModels.GreatGrandchildMissed | Models.GetAllChildren |
| inspector/cbv/templatetags/cbv_tags.py:16 | calls `get_all_ancestors`, which the inspector's `Klass` (inspector/cbv/models.py) does not define | any class with at least one namesake, such as a `get` defined on the root of `C(B(A))` | the linearised ancestors, as in cbv/templatetags/cbv_tags.py:18 | high; not executed | InspectorTags.NamesakeMethodsAsWritten | InspectorTags.NamesakeMethods |
| cbv/importer/importers.py:281 | `for key, value in self.kwargs` iterates the keys of the keyword dictionary and unpacks each key | `reverse_lazy('detail', kwargs={'pk': 1})` raises `ValueError` | iterate `self.kwargs.items()` | high; not executed | Importers.KeywordArgumentBreaksAsWritten | Importers.Repr |
| cbv/importer/importers.py:279-280 | a non-string positional argument is appended unconverted, so `", ".join` fails | `gettext_lazy(5)` raises `TypeError` | append `str(arg)` | medium; not executed | Importers.NonStringArgumentBreaksAsWritten | Importers.Repr |

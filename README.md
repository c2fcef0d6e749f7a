# AbcAttribDB core in Dafny

AbcAttribDB walks a directory, opens every Alembic archive (`.abc`) it finds,
and walks each archive's object hierarchy. For every node whose geometry kind
it recognises, it records one object with the kind's label and the typed
geometry parameters found in the node's property namespace. It then writes
three linked tables: files (`id,chemin`), objects (`id,id_fichier,type`) and
attributes (`id,id_objet,nom,type,portee`).

This project models that logic from `main.cc` and proves properties of it.
The Alembic reader is replaced by plain datatypes:

- A leaf property header (`Attributes.PropertyHeader`) carries its name, the
  set of typed-parameter kinds whose `matches` test accepts it, and what
  reading it as a typed parameter yields: the rendered data type (an opaque
  string) and its geometry scope.
- A node (`Hierarchy.Node`) carries the set of geometry kinds whose `matches`
  test accepts its header, its property namespace (`None` when the node has
  none), its instance-root flag and its children.

Modules:

- `Dispatch`: `Option` and `FirstMatch`, the first-match search over an
  ordered list of candidates. The 13-way parameter test and the 7-way kind
  test are written as the program's `if`/`else if` chains, and lemmas prove
  each chain equal to this search over the program's order.
- `Scopes`: `string_depuis_portee` as `ScopeName`.
- `Attributes`:
  - the `Attribut` record (`Attribute`: `nom`, `type`, `portee` become
    `name`, `dataType`, `scope`);
  - the classifier `attribut_depuis_entete` as `Classify`;
  - the property walker `parse_attributs` as methods of the class
    `ObjectData` (the source's `DonneesObjet`), proved against the
    specification function `NamespaceAttributes`.
- `Hierarchy`:
  - the kind test and `traverse_hierarchie`/`ajoute_objet` as methods of the
    class `FileData` (the source's `DonneesFichier`), proved against
    `NodeObjects` and `NodeMarked`;
  - the extension filter of `est_fichier_alembic`;
  - `analyse_fichier_alembic` as `AnalyseFile`;
  - `main`'s loop over directory entries as `CollectFiles`.
- `Export`: the three `imprime_fichier_pour_*` loops as methods returning
  row tuples, proved against the table functions `ObjectRows` and
  `AttributeRowsOf`. Lemmas give dense identifiers and valid foreign keys.
- `Scenarios`: concrete runs from a node tree to rows.

The program labels point clouds (`IPoints`) `"INuPatch"`, the same label as
NURBS patches (main.cc:206-207). The model keeps that label as written:
`KindLabel(Points) == "INuPatch"`, and the last test of `NodeLabel` yields it.

Two consequences of the code that are easy to miss:

- A header accepted by several kinds gets the label of the earliest kind in
  priority order (`NodeLabelIsFirstMatch`).
- An attribute of unknown scope is kept, since `"kUnknownScope"` is not
  empty (`KeptIffMatched`).

## Model

| member | source | states |
|---|---|---|
| `Scopes.ScopeName` | main.cc:55-74 | the name is never empty, and reading it back with `ScopeFromName` gives the same scope, so the five known scopes and the unknown one get six distinct names, "kUnknownScope" only for the unknown scope |
| `Dispatch.FirstMatch` | main.cc:86-141 | the result is None exactly when no candidate in the order matches; otherwise it is a matching candidate and every earlier one fails |
| `Attributes.AllKindsTried` | main.cc:88-140 | every parameter kind is in the classifier's order, so the search misses only when no kind matches |
| `Attributes.Classify` | main.cc:76-141 | the result is the empty `Attribut{}` exactly when no parameter kind matches; otherwise it holds the property's name, its rendered data type and the name of its scope |
| `Attributes.ClassifyIsFirstMatch` | main.cc:86-141 | the thirteen tests, taken in the program's order, give the empty record exactly when the first-match search over that order finds nothing, and the header's name, type and scope name when it finds a kind |
| `Attributes.KeptIffMatched` | main.cc:157-161 | a leaf's result is kept exactly when some kind matches and its name and data type are non-empty: a match's scope name is never empty and a miss is never kept |
| `Attributes.KeptAttributes` | main.cc:157-161 | the reference filter: every kept record is complete and is the classifier result of some leaf; every complete classifier result is kept; nothing else is added |
| `Attributes.NamespaceIsKeptLeaves` | main.cc:143-164 | the walker collects exactly the complete classifier results of the namespace's leaves, counted recursively through compounds, in encounter order |
| `Attributes.PropertyIsKeptLeaves` | main.cc:152-161 | one property contributes the kept results of its own leaves: itself for a leaf, its whole subtree for a compound |
| `Attributes.NamespaceAttributesComplete` | main.cc:159-160 | every collected record has non-empty name, type and scope, so no classifier miss is ever appended |
| `Attributes.ObjectData.constructor` | main.cc:180-181 | a new object has the given kind and no attributes |
| `Attributes.ObjectData.ParseAttributes` | main.cc:143-164 | an absent namespace leaves the attributes unchanged; otherwise the earlier attributes stay a prefix and the namespace's collected attributes follow; the kind is unchanged |
| `Attributes.ObjectData.ParseNamespace` | main.cc:149-163 | the loop over a present namespace appends exactly `NamespaceAttributes` of it, recursing into compounds; the prior contents stay a prefix |
| `Hierarchy.AllKindsTested` | main.cc:188-208 | every geometry kind is in the priority order, so the test misses only when no kind matches |
| `Hierarchy.NodeLabelIsFirstMatch` | main.cc:188-208 | the seven tests, taken in the program's order with "INuPatch" for point clouds, give the label of the first kind in the order PolyMesh, SubD, Curves, Xform, FaceSet, NuPatch, Points that accepts the node, and no label when none does |
| `Hierarchy.NodeLabelEarliestKind` | main.cc:188-208 | a node is unrecognised exactly when no kind accepts it; a recognised node's label is that of an accepting kind before which no kind in the order accepts it |
| `Hierarchy.PreOrder` | main.cc:186-219 | the reference pre-order list of a subtree starts with the subtree's root |
| `Hierarchy.Recognised` | main.cc:188-208 | the reference filter keeps no more nodes than the list has, and every kept node is recognised |
| `Hierarchy.RecognisedMembers` | main.cc:188-208 | every kept node comes from the list, and every recognised node of the list is kept |
| `Hierarchy.RecordsAreRecognisedObjects` | main.cc:178-208 | one record per recognised node, in order: the i-th record is the object built from the i-th recognised node |
| `Hierarchy.NodeObjectsInPreOrder` | main.cc:186-219 | the walk's objects are the records of the subtree's nodes taken in depth-first pre-order |
| `Hierarchy.ChildrenObjectsInPreOrder` | main.cc:215-218 | the children's objects are the records of the children's subtrees in pre-order, child after child |
| `Hierarchy.ObjectsOfRecognisedNodes` | main.cc:186-219 | the walk adds as many objects as the subtree has recognised nodes, in pre-order, each labelled by its node's first matching kind and holding that node's attributes |
| `Hierarchy.NodeMarkedInPreOrder` | main.cc:209-218 | a subtree marks its file exactly when some node of it is an unrecognised instance root |
| `Hierarchy.ChildrenMarkedInPreOrder` | main.cc:215-218 | a list of children marks the file exactly when some node in their subtrees is an unrecognised instance root |
| `Hierarchy.FileData.constructor` | main.cc:232-233 | a new file record has the path, no instances and no objects |
| `Hierarchy.FileData.AddObject` | main.cc:178-184 | appends exactly one object, with the given kind and the node's collected attributes; path and flag unchanged |
| `Hierarchy.FileData.VisitNode` | main.cc:188-213 | a recognised node appends its one object; an unrecognised instance root sets the flag; the flag is never cleared |
| `Hierarchy.FileData.Traverse` | main.cc:186-219 | the objects gain exactly the subtree's pre-order objects; the flag ends true exactly when it was true or the subtree holds an unrecognised instance root; the path is unchanged |
| `Hierarchy.IsAlembicFile` | main.cc:33-46 | accepts exactly regular files whose extension is ".abc" or ".ABC", compared case-sensitively |
| `Hierarchy.AnalyseFile` | main.cc:221-239 | an archive that fails to open adds no record; an opened one adds exactly one record with the path, the walk's flag and the walk's objects |
| `Hierarchy.Analysed` | main.cc:303-309 | there are never more file records than entries |
| `Hierarchy.AnalysedRecordSource` | main.cc:303-309 | every file record is the record of some entry that passes the extension filter and whose archive opens |
| `Hierarchy.ContributorRecorded` | main.cc:303-309 | every entry that passes the filter and whose archive opens has its record among the file records |
| `Hierarchy.CollectFiles` | main.cc:301-309 | the driver loop produces `Analysed(entries)`, one record per accepted and opened entry, in entry order |
| `Hierarchy.AnalysedAppend` | main.cc:303-309 | analysing two runs of entries one after the other gives both runs' records one after the other |
| `Hierarchy.SkippedEntry` | main.cc:227-230 | an entry that is filtered out or fails to open leaves no record and no gap between its neighbours' records |
| `Export.FileTable` | main.cc:243-253 | one row per file; row i has identifier i and the i-th file's path |
| `Export.ObjectRows` | main.cc:255-269 | the objects table has exactly one row per object of all files |
| `Export.ObjectTable` | main.cc:255-269 | the nested loops produce exactly the objects table `ObjectRows` |
| `Export.ObjectRowsShape` | main.cc:255-269 | row j has identifier j, a file identifier below the number of files, and the kind of the j-th object across all files, so identifiers run contiguously from 0 and are not reset per file |
| `Export.ObjectRowOwner` | main.cc:262-268 | the k-th object of file f has the global identifier equal to the count of objects before f plus k, and its row carries f as owning file |
| `Export.AttributeRowsOf` | main.cc:271-290 | the attributes table has exactly one row per attribute of all objects |
| `Export.AttributeTable` | main.cc:271-290 | the three nested loops produce exactly the attributes table `AttributeRows` |
| `Export.AttributeRowsShape` | main.cc:271-290 | row i has identifier i, an object identifier below the number of objects, and holds one of that object's attributes |
| `Export.AttributeRowOwner` | main.cc:280-286 | the a-th attribute of the m-th object has identifier equal to the count of attributes before m plus a, and its row names object m, even when earlier objects had no attributes |
| `Export.ForeignKeysValid` | main.cc:255-290 | every object row names an existing file; every attribute row names an existing object row with that identifier and holds one of that object's attributes |
| `Scenarios.SingleMeshWithoutProperties` | main.cc:186-190 | one archive with a single polygon mesh and no properties gives the object row (0, 0, "IPolyMesh") and no attribute rows |
| `Scenarios.UnrecognisedInstanceRoot` | main.cc:209-218 | an unrecognised instance root marks its file, adds no object, and its recognised child is still recorded |
| `Scenarios.SingleVaryingFloat` | main.cc:88-89 | a float leaf "width" of varying scope yields exactly one attribute with scope name "kVaryingScope" |

## Left out

- The Alembic library. This covers `IFactory`, `getArchive`, the quiet error
  policy, the `matches` predicates and the construction of typed geometry
  parameters. Their results are fields of the header and node datatypes.
  The library's own behaviour is foreign code.
- Classify: each matching parameter kind is read the same way (name,
  rendered data type, scope). The per-kind differences inside the library's
  typed accessors are not modelled.
- `string_depuis_type` (main.cc:48-53): a data type is rendered by the
  library's stream operator. The rendering is an opaque string in the header.
- Filesystem work: the recursive directory iterator, `is_regular_file` and
  `path::extension()`. Directory entries are given as a sequence that holds
  the regular-file flag, the extension and what the reader returns for each
  path. Paths are opaque strings, since their printed form is library
  behaviour.
- Library-internal failures while reading an attribute. The model has no
  exceptions.
- Output streams: the CSV header lines, the field quoting of `GUILLEMET`
  (main.cc:241), the fixed `/tmp` file names, and all progress and error
  messages. `imprime_objets` is debug output and is never called. Rows are
  tuples, and no quoting round trip is claimed.
- `main`'s argument-count check and its exit codes (process I/O).
- The `int` counters of the export loops are 32-bit in the program. The
  model's identifiers are unbounded, so overflow past 2^31 - 1 rows is not
  modelled.
- `parse_attributs` handles an absent namespace and then loops over a
  present one. The model splits it into `ParseAttributes` and
  `ParseNamespace`. A compound child always opens a present namespace,
  since the model's compounds always hold their children.
- Running the whole pipeline twice gives identical output. That holds
  because every member is deterministic, and it is not stated as a lemma.

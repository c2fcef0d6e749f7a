/** The scene-graph walk: node kinds, object records, the per-file
    accumulator and the analysis of one archive. */
module Hierarchy {
  import opened Dispatch
  import opened Attributes

  /** The geometry kinds a node header can match. */
  datatype NodeKind = PolyMesh | SubD | Curves | Xform | FaceSet | NuPatch | Points

  /** The priority order in which a node's kind is tested. */
  const KindOrder: seq<NodeKind> := [PolyMesh, SubD, Curves, Xform, FaceSet, NuPatch, Points]

  /** The label recorded for each kind. Point clouds carry the NURBS-patch
      label, as the program writes them. */
  function KindLabel(k: NodeKind): string
  {
    match k
    case PolyMesh => "IPolyMesh"
    case SubD => "ISubD"
    case Curves => "ICurves"
    case Xform => "IXform"
    case FaceSet => "IFaceSet"
    case NuPatch => "INuPatch"
    case Points => "INuPatch"
  }

  /** A node of an archive's hierarchy: the kinds whose `matches` test accepts
      its header, its possibly absent property namespace, whether it is the
      root of an instance, and its children in declared order. */
  datatype Node = Node(
    matching: set<NodeKind>,
    properties: Option<seq<Property>>,
    isInstanceRoot: bool,
    children: seq<Node>)

  /** One recognised node: its kind label and its attributes. */
  datatype ObjectRecord = ObjectRecord(kind: string, attributes: seq<Attribute>)

  /** One opened archive: its path, whether it holds instances, and its
      objects in discovery order. */
  datatype FileRecord = FileRecord(path: string, hasInstances: bool, objects: seq<ObjectRecord>)

  function KindOrderIndex(k: NodeKind): (i: nat)
    ensures i < |KindOrder| && KindOrder[i] == k
  {
    match k
    case PolyMesh => 0 case SubD => 1 case Curves => 2 case Xform => 3
    case FaceSet => 4 case NuPatch => 5 case Points => 6
  }

  /** Every kind is in the priority order, so the test misses only when no
      kind matches at all. */
  lemma AllKindsTested(matching: set<NodeKind>)
    ensures FirstMatch(KindOrder, matching).None? <==> matching == {}
  {
    if matching != {} {
      var k :| k in matching;
      assert KindOrder[KindOrderIndex(k)] == k;
    }
  }

  /** The label of a node: the kinds are tested one after the other in
      priority order, and the first that accepts the header gives the label;
      None when no kind does. */
  function NodeLabel(n: Node): Option<string>
  {
    var m := n.matching;
    if PolyMesh in m then Some(KindLabel(PolyMesh))
    else if SubD in m then Some(KindLabel(SubD))
    else if Curves in m then Some(KindLabel(Curves))
    else if Xform in m then Some(KindLabel(Xform))
    else if FaceSet in m then Some(KindLabel(FaceSet))
    else if NuPatch in m then Some(KindLabel(NuPatch))
    else if Points in m then Some(KindLabel(Points))
    else None
  }

  /** The label the first-match search over the priority order gives. */
  function FirstLabel(matching: set<NodeKind>): Option<string>
  {
    match FirstMatch(KindOrder, matching)
    case None => None
    case Some(k) => Some(KindLabel(k))
  }

  /** The test chain is the first-match search over the priority order. */
  lemma NodeLabelIsFirstMatch(n: Node)
    ensures NodeLabel(n) == FirstLabel(n.matching)
  {
    var m := n.matching;
    var o1 := [SubD, Curves, Xform, FaceSet, NuPatch, Points];
    var o2 := [Curves, Xform, FaceSet, NuPatch, Points];
    var o3 := [Xform, FaceSet, NuPatch, Points];
    var o4 := [FaceSet, NuPatch, Points];
    var o5 := [NuPatch, Points];
    var o6 := [Points];
    assert KindOrder[1..] == o1 && o1[1..] == o2 && o2[1..] == o3;
    assert o3[1..] == o4 && o4[1..] == o5 && o5[1..] == o6 && o6[1..] == [];
    assert FirstMatch(KindOrder, m) == if PolyMesh in m then Some(PolyMesh) else FirstMatch(o1, m);
    assert FirstMatch(o1, m) == if SubD in m then Some(SubD) else FirstMatch(o2, m);
    assert FirstMatch(o2, m) == if Curves in m then Some(Curves) else FirstMatch(o3, m);
    assert FirstMatch(o3, m) == if Xform in m then Some(Xform) else FirstMatch(o4, m);
    assert FirstMatch(o4, m) == if FaceSet in m then Some(FaceSet) else FirstMatch(o5, m);
    assert FirstMatch(o5, m) == if NuPatch in m then Some(NuPatch) else FirstMatch(o6, m);
    assert FirstMatch(o6, m) == if Points in m then Some(Points) else FirstMatch([], m);
  }

  /** A node is recognised exactly when some kind accepts it, and then its
      label is that of the earliest accepting kind in priority order. */
  lemma NodeLabelEarliestKind(n: Node)
    ensures NodeLabel(n).None? <==> n.matching == {}
    ensures NodeLabel(n).Some? ==>
              exists i :: 0 <= i < |KindOrder| && KindOrder[i] in n.matching &&
                          NodeLabel(n).value == KindLabel(KindOrder[i]) &&
                          forall j :: 0 <= j < i ==> KindOrder[j] !in n.matching
  {
    NodeLabelIsFirstMatch(n);
    AllKindsTested(n.matching);
  }

  /** The record of a recognised node. */
  function ObjectOf(n: Node): ObjectRecord
    requires NodeLabel(n).Some?
  {
    ObjectRecord(NodeLabel(n).value, CollectedAttributes(n.properties))
  }

  /** The objects a node contributes by itself: one when recognised. */
  function OwnObjects(n: Node): seq<ObjectRecord>
  {
    if NodeLabel(n).Some? then [ObjectOf(n)] else []
  }

  /** An unrecognised node that is an instance root marks its file. */
  predicate OwnMarker(n: Node)
  {
    NodeLabel(n).None? && n.isInstanceRoot
  }

  /** The objects of a subtree, the node's own first, then its children's. */
  function NodeObjects(n: Node): seq<ObjectRecord>
    decreases n
  {
    OwnObjects(n) + ChildrenObjects(n.children)
  }

  function ChildrenObjects(ns: seq<Node>): seq<ObjectRecord>
    decreases ns
  {
    if ns == [] then [] else ChildrenObjects(ns[..|ns| - 1]) + NodeObjects(ns[|ns| - 1])
  }

  /** Whether a subtree holds an unrecognised instance root. */
  predicate NodeMarked(n: Node)
    decreases n
  {
    OwnMarker(n) || ChildrenMarked(n.children)
  }

  predicate ChildrenMarked(ns: seq<Node>)
    decreases ns
  {
    ns != [] && (ChildrenMarked(ns[..|ns| - 1]) || NodeMarked(ns[|ns| - 1]))
  }

  /** Reference view: the nodes of a subtree in depth-first pre-order. */
  function PreOrder(n: Node): (r: seq<Node>)
    decreases n
    ensures |r| > 0 && r[0] == n
  {
    [n] + PreOrderAll(n.children)
  }

  function PreOrderAll(ns: seq<Node>): seq<Node>
    decreases ns
  {
    if ns == [] then [] else PreOrder(ns[0]) + PreOrderAll(ns[1..])
  }

  /** Reference view: the recognised nodes of a list, in the list's order. */
  function Recognised(ns: seq<Node>): (r: seq<Node>)
    ensures |r| <= |ns|
    ensures forall i :: 0 <= i < |r| ==> NodeLabel(r[i]).Some?
  {
    if ns == [] then []
    else (if NodeLabel(ns[0]).Some? then [ns[0]] else []) + Recognised(ns[1..])
  }

  /** The filter keeps exactly the recognised nodes of the list. */
  lemma {:induction false} RecognisedMembers(ns: seq<Node>)
    ensures forall i :: 0 <= i < |Recognised(ns)| ==> Recognised(ns)[i] in ns
    ensures forall j :: 0 <= j < |ns| && NodeLabel(ns[j]).Some? ==> ns[j] in Recognised(ns)
  {
    if ns != [] {
      var rest := ns[1..];
      RecognisedMembers(rest);
      assert forall j :: 0 < j < |ns| ==> ns[j] == rest[j - 1];
      assert forall x :: x in rest ==> x in ns;
    }
  }

  /** The records of the recognised nodes of a list, in the list's order. */
  function RecordsOf(ns: seq<Node>): seq<ObjectRecord>
  {
    if ns == [] then [] else OwnObjects(ns[0]) + RecordsOf(ns[1..])
  }

  lemma {:induction false} PreOrderAllAppend(a: seq<Node>, b: seq<Node>)
    ensures PreOrderAll(a + b) == PreOrderAll(a) + PreOrderAll(b)
  {
    if a == [] {
      assert a + b == b;
    } else {
      assert (a + b)[0] == a[0];
      assert (a + b)[1..] == a[1..] + b;
      PreOrderAllAppend(a[1..], b);
    }
  }

  lemma {:induction false} RecordsOfAppend(a: seq<Node>, b: seq<Node>)
    ensures RecordsOf(a + b) == RecordsOf(a) + RecordsOf(b)
  {
    if a == [] {
      assert a + b == b;
    } else {
      assert (a + b)[0] == a[0];
      assert (a + b)[1..] == a[1..] + b;
      RecordsOfAppend(a[1..], b);
      calc {
        RecordsOf(a + b);
        OwnObjects(a[0]) + RecordsOf(a[1..] + b);
        OwnObjects(a[0]) + (RecordsOf(a[1..]) + RecordsOf(b));
        { AppendAssoc(OwnObjects(a[0]), RecordsOf(a[1..]), RecordsOf(b)); }
        RecordsOf(a) + RecordsOf(b);
      }
    }
  }

  /** One record per recognised node, in order: the i-th record is that of
      the i-th recognised node. */
  lemma {:induction false} RecordsAreRecognisedObjects(ns: seq<Node>)
    ensures |RecordsOf(ns)| == |Recognised(ns)|
    ensures forall i :: 0 <= i < |RecordsOf(ns)| ==> RecordsOf(ns)[i] == ObjectOf(Recognised(ns)[i])
  {
    if ns != [] {
      var rest := ns[1..];
      RecordsAreRecognisedObjects(rest);
      if NodeLabel(ns[0]).Some? {
        var records, nodes := RecordsOf(rest), Recognised(rest);
        assert RecordsOf(ns) == [ObjectOf(ns[0])] + records;
        assert Recognised(ns) == [ns[0]] + nodes;
        forall i | 0 < i < |RecordsOf(ns)|
          ensures RecordsOf(ns)[i] == ObjectOf(Recognised(ns)[i])
        {
          assert RecordsOf(ns)[i] == records[i - 1];
          assert Recognised(ns)[i] == nodes[i - 1];
        }
      } else {
        assert RecordsOf(ns) == RecordsOf(rest);
        assert Recognised(ns) == Recognised(rest);
      }
    }
  }

  /** The walk's objects are the records of the subtree's nodes taken in
      pre-order. */
  lemma {:induction false} NodeObjectsInPreOrder(n: Node)
    ensures NodeObjects(n) == RecordsOf(PreOrder(n))
    decreases n
  {
    calc {
      RecordsOf(PreOrder(n));
      RecordsOf([n] + PreOrderAll(n.children));
      { RecordsOfAppend([n], PreOrderAll(n.children)); }
      RecordsOf([n]) + RecordsOf(PreOrderAll(n.children));
      { assert [n][1..] == []; }
      OwnObjects(n) + RecordsOf(PreOrderAll(n.children));
      { ChildrenObjectsInPreOrder(n.children); }
      NodeObjects(n);
    }
  }

  lemma {:induction false} ChildrenObjectsInPreOrder(ns: seq<Node>)
    ensures ChildrenObjects(ns) == RecordsOf(PreOrderAll(ns))
    decreases ns
  {
    if ns != [] {
      var init, last := ns[..|ns| - 1], ns[|ns| - 1];
      assert ns == init + [last];
      assert [last][1..] == [];
      calc {
        RecordsOf(PreOrderAll(ns));
        { PreOrderAllAppend(init, [last]); }
        RecordsOf(PreOrderAll(init) + PreOrderAll([last]));
        { RecordsOfAppend(PreOrderAll(init), PreOrderAll([last])); }
        RecordsOf(PreOrderAll(init)) + RecordsOf(PreOrderAll([last]));
        { assert PreOrderAll([last]) == PreOrder(last) + PreOrderAll([]);
          assert PreOrder(last) + [] == PreOrder(last); }
        RecordsOf(PreOrderAll(init)) + RecordsOf(PreOrder(last));
        { ChildrenObjectsInPreOrder(init); NodeObjectsInPreOrder(last); }
        ChildrenObjects(ns);
      }
    }
  }

  /** The walk adds exactly one object per recognised node of the subtree,
      in pre-order, each labelled by its node's first matching kind. */
  lemma ObjectsOfRecognisedNodes(n: Node)
    ensures |NodeObjects(n)| == |Recognised(PreOrder(n))|
    ensures forall i :: 0 <= i < |NodeObjects(n)| ==>
              NodeObjects(n)[i] == ObjectOf(Recognised(PreOrder(n))[i])
  {
    NodeObjectsInPreOrder(n);
    RecordsAreRecognisedObjects(PreOrder(n));
  }

  /** Whether some node of a list is an unrecognised instance root. */
  predicate HasMarker(ns: seq<Node>)
  {
    exists i :: 0 <= i < |ns| && OwnMarker(ns[i])
  }

  /** A subtree is marked exactly when some node of it, in pre-order, is an
      unrecognised instance root. */
  lemma {:induction false} NodeMarkedInPreOrder(n: Node)
    ensures NodeMarked(n) <==> HasMarker(PreOrder(n))
    decreases n
  {
    ChildrenMarkedInPreOrder(n.children);
    var p := PreOrder(n);
    var q := PreOrderAll(n.children);
    assert p == [n] + q;
    assert p[0] == n;
    HasMarkerCons(p, n, q);
  }

  /** A marked node exists in `[n] + q` exactly when `n` is marked or one
      exists in `q`. */
  lemma HasMarkerCons(p: seq<Node>, n: Node, q: seq<Node>)
    requires p == [n] + q
    ensures HasMarker(p) <==> OwnMarker(n) || HasMarker(q)
  {
    if OwnMarker(n) {
      assert p[0] == n;
    }
    if exists i :: 0 <= i < |q| && OwnMarker(q[i]) {
      var i :| 0 <= i < |q| && OwnMarker(q[i]);
      assert p[i + 1] == q[i];
    }
    if exists i :: 0 <= i < |p| && OwnMarker(p[i]) {
      var i :| 0 <= i < |p| && OwnMarker(p[i]);
      if i > 0 { assert q[i - 1] == p[i]; }
    }
  }

  lemma {:induction false} ChildrenMarkedInPreOrder(ns: seq<Node>)
    ensures ChildrenMarked(ns) <==> HasMarker(PreOrderAll(ns))
    decreases ns
  {
    if ns != [] {
      var init, last := ns[..|ns| - 1], ns[|ns| - 1];
      assert ns == init + [last];
      assert [last][1..] == [];
      PreOrderAllAppend(init, [last]);
      assert PreOrderAll([last]) == PreOrder(last) + PreOrderAll([]);
      var a, b := PreOrderAll(init), PreOrder(last);
      assert PreOrderAll(ns) == a + b;
      ChildrenMarkedInPreOrder(init);
      NodeMarkedInPreOrder(last);
      HasMarkerAppend(a, b);
    }
  }

  lemma HasMarkerAppend(a: seq<Node>, b: seq<Node>)
    ensures HasMarker(a + b) <==> HasMarker(a) || HasMarker(b)
  {
    assert forall i :: 0 <= i < |a| ==> (a + b)[i] == a[i];
    assert forall i :: 0 <= i < |b| ==> (a + b)[|a| + i] == b[i];
    if HasMarker(a + b) {
      var i :| 0 <= i < |a + b| && OwnMarker((a + b)[i]);
      if i >= |a| { assert b[i - |a|] == (a + b)[i]; }
    }
  }

  /** Walking one more child extends the children's objects and marker. */
  lemma ChildrenSnoc(ns: seq<Node>, i: nat)
    requires i < |ns|
    ensures ChildrenObjects(ns[..i + 1]) == ChildrenObjects(ns[..i]) + NodeObjects(ns[i])
    ensures ChildrenMarked(ns[..i + 1]) == (ChildrenMarked(ns[..i]) || NodeMarked(ns[i]))
  {
    assert ns[..i + 1][..i] == ns[..i];
  }

  /** The per-file accumulator the hierarchy walk updates in place. */
  class FileData {
    var path: string
    var hasInstances: bool
    var objects: seq<ObjectRecord>

    constructor (path: string)
      ensures this.path == path && !hasInstances && objects == []
    {
      this.path := path;
      hasInstances := false;
      objects := [];
    }

    /** Builds the object of a recognised node, collects the attributes of
        its property namespace, and appends it. */
    method AddObject(top: Node, kind: string)
      modifies this
      ensures path == old(path) && hasInstances == old(hasInstances)
      ensures objects == old(objects) + [ObjectRecord(kind, CollectedAttributes(top.properties))]
    {
      var objet := new ObjectData(kind);
      objet.ParseAttributes(top.properties);
      assert [] + CollectedAttributes(top.properties) == CollectedAttributes(top.properties);
      assert objet.kind == kind && objet.attributes == CollectedAttributes(top.properties);
      objects := objects + [ObjectRecord(objet.kind, objet.attributes)];
    }

    /** The kind test of one node: records the node when its kind is
        recognised, and otherwise marks the file when the node is an instance
        root. The flag is only ever set, never cleared. */
    method VisitNode(top: Node)
      modifies this
      ensures path == old(path)
      ensures objects == old(objects) + OwnObjects(top)
      ensures hasInstances == (old(hasInstances) || OwnMarker(top))
    {
      if PolyMesh in top.matching {
        AddObject(top, "IPolyMesh");
      } else if SubD in top.matching {
        AddObject(top, "ISubD");
      } else if Curves in top.matching {
        AddObject(top, "ICurves");
      } else if Xform in top.matching {
        AddObject(top, "IXform");
      } else if FaceSet in top.matching {
        AddObject(top, "IFaceSet");
      } else if NuPatch in top.matching {
        AddObject(top, "INuPatch");
      } else if Points in top.matching {
        AddObject(top, "INuPatch");
      } else {
        if top.isInstanceRoot {
          hasInstances := true;
        }
      }
    }

    /** Pre-order walk: visits the node, then walks every child in order. */
    method Traverse(top: Node)
      modifies this
      decreases top
      ensures path == old(path)
      ensures objects == old(objects) + NodeObjects(top)
      ensures hasInstances == (old(hasInstances) || NodeMarked(top))
    {
      VisitNode(top);
      ghost var visited := objects;
      ghost var marked := hasInstances;
      var i := 0;
      while i < |top.children|
        invariant 0 <= i <= |top.children|
        invariant path == old(path)
        invariant objects == visited + ChildrenObjects(top.children[..i])
        invariant hasInstances == (marked || ChildrenMarked(top.children[..i]))
      {
        ChildrenSnoc(top.children, i);
        Traverse(top.children[i]);
        AppendAssoc(visited, ChildrenObjects(top.children[..i]), NodeObjects(top.children[i]));
        i := i + 1;
      }
      assert top.children[..i] == top.children;
      AppendAssoc(old(objects), OwnObjects(top), ChildrenObjects(top.children));
    }
  }

  lemma AppendAssoc<T>(a: seq<T>, b: seq<T>, c: seq<T>)
    ensures (a + b) + c == a + (b + c)
  {
  }

  /** The extension test of the directory filter: a regular file whose
      extension is ".abc" or ".ABC"; the comparison is case-sensitive, so no
      other spelling is accepted. */
  function IsAlembicFile(isRegularFile: bool, extension: string): (r: bool)
    ensures r ==> isRegularFile && |extension| == 4 && extension[0] == '.'
    ensures r <==> isRegularFile && extension in {".abc", ".ABC"}
  {
    if !isRegularFile then false
    else if extension != ".abc" && extension != ".ABC" then false
    else true
  }

  /** What opening one path yields: None when the archive reader returns an
      invalid handle, otherwise the archive's top node. */
  type Archive = Option<Node>

  /** The record an opened archive produces. */
  function FileRecordOf(path: string, top: Node): FileRecord
  {
    FileRecord(path, NodeMarked(top), NodeObjects(top))
  }

  /** Analyses one archive and appends its record to `files`; an archive
      that failed to open contributes nothing. */
  method AnalyseFile(path: string, archive: Archive, files: seq<FileRecord>)
    returns (result: seq<FileRecord>)
    ensures archive.None? ==> result == files
    ensures archive.Some? ==> result == files + [FileRecordOf(path, archive.value)]
  {
    if archive.None? {
      return files;
    }
    var donnees := new FileData(path);
    donnees.Traverse(archive.value);
    assert [] + NodeObjects(archive.value) == NodeObjects(archive.value);
    result := files + [FileRecord(donnees.path, donnees.hasInstances, donnees.objects)];
  }

  /** A directory entry as the walk meets it, with what the reader returns
      when asked to open it. */
  datatype DirectoryEntry =
    DirectoryEntry(path: string, isRegularFile: bool, extension: string, archive: Archive)

  /** Whether an entry produces a file record. */
  predicate Contributes(e: DirectoryEntry)
  {
    IsAlembicFile(e.isRegularFile, e.extension) && e.archive.Some?
  }

  /** The records produced by a sequence of entries, in entry order. */
  function Analysed(entries: seq<DirectoryEntry>): (r: seq<FileRecord>)
    ensures |r| <= |entries|
  {
    if entries == [] then []
    else
      var e := entries[|entries| - 1];
      Analysed(entries[..|entries| - 1])
        + (if Contributes(e) then [FileRecordOf(e.path, e.archive.value)] else [])
  }

  /** The record that entry i of a list produces when it contributes. */
  predicate RecordFrom(entries: seq<DirectoryEntry>, i: int, rec: FileRecord)
  {
    0 <= i < |entries| && Contributes(entries[i]) &&
    rec == FileRecordOf(entries[i].path, entries[i].archive.value)
  }

  /** Each record comes from a contributing entry. */
  lemma {:induction false} AnalysedRecordSource(entries: seq<DirectoryEntry>, k: nat)
    requires k < |Analysed(entries)|
    ensures exists i :: RecordFrom(entries, i, Analysed(entries)[k])
  {
    var init, e := entries[..|entries| - 1], entries[|entries| - 1];
    var prev := Analysed(init);
    assert Analysed(entries) ==
      prev + (if Contributes(e) then [FileRecordOf(e.path, e.archive.value)] else []);
    if k < |prev| {
      AnalysedRecordSource(init, k);
      var i :| RecordFrom(init, i, prev[k]);
      assert entries[i] == init[i];
      assert RecordFrom(entries, i, Analysed(entries)[k]);
    } else {
      assert RecordFrom(entries, |entries| - 1, Analysed(entries)[k]);
    }
  }

  /** Each contributing entry has its record. */
  lemma {:induction false} ContributorRecorded(entries: seq<DirectoryEntry>, i: nat)
    requires i < |entries| && Contributes(entries[i])
    ensures FileRecordOf(entries[i].path, entries[i].archive.value) in Analysed(entries)
  {
    var init, e := entries[..|entries| - 1], entries[|entries| - 1];
    assert Analysed(entries) ==
      Analysed(init) + (if Contributes(e) then [FileRecordOf(e.path, e.archive.value)] else []);
    if i < |init| {
      assert entries[i] == init[i];
      ContributorRecorded(init, i);
    }
  }

  /** The driver loop: every entry that passes the filter is analysed. */
  method CollectFiles(entries: seq<DirectoryEntry>) returns (files: seq<FileRecord>)
    ensures files == Analysed(entries)
  {
    files := [];
    var i := 0;
    while i < |entries|
      invariant 0 <= i <= |entries|
      invariant files == Analysed(entries[..i])
    {
      var entry := entries[i];
      assert entries[..i + 1][..i] == entries[..i];
      if IsAlembicFile(entry.isRegularFile, entry.extension) {
        files := AnalyseFile(entry.path, entry.archive, files);
      }
      i := i + 1;
    }
    assert entries[..i] == entries;
  }

  /** Analysis distributes over concatenation of entry sequences. */
  lemma {:induction false} AnalysedAppend(a: seq<DirectoryEntry>, b: seq<DirectoryEntry>)
    ensures Analysed(a + b) == Analysed(a) + Analysed(b)
    decreases |b|
  {
    if b == [] {
      assert a + b == a;
    } else {
      var init := b[..|b| - 1];
      assert (a + b)[..|a + b| - 1] == a + init;
      assert (a + b)[|a + b| - 1] == b[|b| - 1];
      AnalysedAppend(a, init);
    }
  }

  /** An entry that is filtered out or fails to open leaves no record and no
      gap: the records of the entries around it are simply adjacent. */
  lemma SkippedEntry(a: seq<DirectoryEntry>, e: DirectoryEntry, b: seq<DirectoryEntry>)
    requires !Contributes(e)
    ensures Analysed(a + [e] + b) == Analysed(a) + Analysed(b)
  {
    assert [e][..0] == [];
    assert Analysed([e]) == [];
    calc {
      Analysed(a + [e] + b);
      { AnalysedAppend(a + [e], b); }
      Analysed(a + [e]) + Analysed(b);
      { AnalysedAppend(a, [e]); }
      Analysed(a) + Analysed([e]) + Analysed(b);
      { assert Analysed(a) + [] == Analysed(a); }
      Analysed(a) + Analysed(b);
    }
  }
}

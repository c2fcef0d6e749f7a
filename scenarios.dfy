/** Concrete walks through the whole pipeline, from a node tree to the
    exported rows. */
module Scenarios {
  import opened Dispatch
  import opened Scopes
  import opened Attributes
  import opened Hierarchy
  import opened Export

  /** One archive whose only node is a polygon mesh without properties: one
      file, one object row owned by file 0, no attribute rows. */
  lemma SingleMeshWithoutProperties(path: string)
    ensures var files := [FileRecordOf(path, Node({PolyMesh}, None, false, []))];
            ObjectRows(files) == [ObjectRow(0, 0, "IPolyMesh")] && AttributeRows(files) == []
  {
    var top := Node({PolyMesh}, None, false, []);
    var files := [FileRecordOf(path, top)];
    assert NodeObjects(top) == [ObjectRecord("IPolyMesh", [])];
    assert files[..0] == [];
    assert AllObjects(files) == [ObjectRecord("IPolyMesh", [])];
    assert AllObjects(files)[..0] == [];
  }

  /** A root of unrecognised kind that is an instance root marks the file,
      contributes no object, and its recognised child is still recorded. */
  lemma UnrecognisedInstanceRoot()
    ensures var child := Node({Xform}, None, false, []);
            var top := Node({}, None, true, [child]);
            NodeMarked(top) && NodeObjects(top) == [ObjectRecord("IXform", [])]
  {
    var child := Node({Xform}, None, false, []);
    var top := Node({}, None, true, [child]);
    assert [child][..0] == [];
    assert ChildrenObjects([child]) == NodeObjects(child);
  }

  /** A node with one float leaf named "width" of varying scope yields
      exactly one attribute, with the scope name "kVaryingScope". */
  lemma SingleVaryingFloat(dataType: string)
    requires dataType != ""
    ensures var h := PropertyHeader("width", {FloatParam}, dataType, VaryingScope);
            NamespaceAttributes([Leaf(h)]) == [Attribute("width", dataType, "kVaryingScope")]
  {
    var h := PropertyHeader("width", {FloatParam}, dataType, VaryingScope);
    assert [Leaf(h)][..0] == [];
    assert Classify(h) == Attribute("width", dataType, "kVaryingScope");
  }
}

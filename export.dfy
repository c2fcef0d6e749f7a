/** The export: dense identifiers for files, objects and attributes, and the
    three linked tables built from the file records. Rows are kept as tuples;
    their text rendering is not modelled. */
module Export {
  import opened Attributes
  import opened Hierarchy

  /** A row of the files table: `id,chemin`. */
  datatype FileRow = FileRow(id: int, path: string)

  /** A row of the objects table: `id,id_fichier,type`. */
  datatype ObjectRow = ObjectRow(id: int, fileId: int, kind: string)

  /** A row of the attributes table: `id,id_objet,nom,type,portee`. */
  datatype AttributeRow = AttributeRow(id: int, objectId: int, name: string, dataType: string, scope: string)

  /** The files table: file identifiers run from 0 in collection order. */
  method FileTable(files: seq<FileRecord>) returns (rows: seq<FileRow>)
    ensures |rows| == |files|
    ensures forall i :: 0 <= i < |rows| ==> rows[i] == FileRow(i, files[i].path)
  {
    rows := [];
    var idFichier := 0;
    var i := 0;
    while i < |files|
      invariant 0 <= i <= |files|
      invariant idFichier == i == |rows|
      invariant forall j :: 0 <= j < i ==> rows[j] == FileRow(j, files[j].path)
    {
      rows := rows + [FileRow(idFichier, files[i].path)];
      idFichier := idFichier + 1;
      i := i + 1;
    }
  }

  /** Every object of every file, files in order, each file's objects in
      order: position in this list is an object's global identifier. */
  function AllObjects(files: seq<FileRecord>): seq<ObjectRecord>
  {
    if files == [] then []
    else AllObjects(files[..|files| - 1]) + files[|files| - 1].objects
  }

  /** The object rows of one file, whose identifier is `fileId`, numbered
      from `firstId`. */
  function ObjectBlock(f: FileRecord, fileId: int, firstId: int): (r: seq<ObjectRow>)
  {
    seq(|f.objects|, k requires 0 <= k < |f.objects| => ObjectRow(firstId + k, fileId, f.objects[k].kind))
  }

  /** The objects table: object identifiers continue from one file to the
      next and are never reset. */
  function ObjectRows(files: seq<FileRecord>): (r: seq<ObjectRow>)
    ensures |r| == |AllObjects(files)|
  {
    if files == [] then []
    else
      var init := files[..|files| - 1];
      ObjectRows(init) + ObjectBlock(files[|files| - 1], |init|, |AllObjects(init)|)
  }

  /** The attribute rows of one object, whose identifier is `objectId`,
      numbered from `firstId`. */
  function AttributeBlock(o: ObjectRecord, objectId: int, firstId: int): seq<AttributeRow>
  {
    seq(|o.attributes|, a requires 0 <= a < |o.attributes| =>
      AttributeRow(firstId + a, objectId, o.attributes[a].name, o.attributes[a].dataType, o.attributes[a].scope))
  }

  /** The attribute rows of a list of objects, the i-th object having
      identifier i; attribute identifiers continue from one object to the
      next. */
  function AttributeRowsOf(objs: seq<ObjectRecord>): (r: seq<AttributeRow>)
    ensures |r| == AttributeCount(objs)
  {
    if objs == [] then []
    else
      var init := objs[..|objs| - 1];
      AttributeRowsOf(init) + AttributeBlock(objs[|objs| - 1], |init|, |AttributeRowsOf(init)|)
  }

  /** The attributes table. */
  function AttributeRows(files: seq<FileRecord>): seq<AttributeRow>
  {
    AttributeRowsOf(AllObjects(files))
  }

  lemma AllObjectsSnoc(files: seq<FileRecord>, i: nat)
    requires i < |files|
    ensures AllObjects(files[..i + 1]) == AllObjects(files[..i]) + files[i].objects
  {
    assert files[..i + 1][..i] == files[..i];
  }

  lemma AttributeRowsSnoc(objs: seq<ObjectRecord>, o: ObjectRecord)
    ensures AttributeRowsOf(objs + [o]) ==
              AttributeRowsOf(objs) + AttributeBlock(o, |objs|, |AttributeRowsOf(objs)|)
  {
    assert (objs + [o])[..|objs|] == objs;
  }

  lemma PrefixSnoc<T>(done: seq<T>, s: seq<T>, k: nat)
    requires k < |s|
    ensures done + s[..k + 1] == (done + s[..k]) + [s[k]]
  {
    assert s[..k + 1] == s[..k] + [s[k]];
  }

  /** The objects table, built by the two nested loops with their running
      object and file counters. */
  method ObjectTable(files: seq<FileRecord>) returns (rows: seq<ObjectRow>)
    ensures rows == ObjectRows(files)
  {
    rows := [];
    var idFichier := 0;
    var idObjet := 0;
    var i := 0;
    while i < |files|
      invariant 0 <= i <= |files|
      invariant idFichier == i
      invariant idObjet == |AllObjects(files[..i])|
      invariant rows == ObjectRows(files[..i])
    {
      var fichier := files[i];
      ghost var before := rows;
      assert files[..i + 1][..i] == files[..i];
      var k := 0;
      while k < |fichier.objects|
        invariant 0 <= k <= |fichier.objects|
        invariant idObjet == |AllObjects(files[..i])| + k
        invariant rows == before + ObjectBlock(fichier, i, |AllObjects(files[..i])|)[..k]
      {
        assert ObjectBlock(fichier, i, |AllObjects(files[..i])|)[..k + 1]
          == ObjectBlock(fichier, i, |AllObjects(files[..i])|)[..k] + [ObjectRow(idObjet, idFichier, fichier.objects[k].kind)];
        rows := rows + [ObjectRow(idObjet, idFichier, fichier.objects[k].kind)];
        idObjet := idObjet + 1;
        k := k + 1;
      }
      idFichier := idFichier + 1;
      i := i + 1;
    }
    assert files[..i] == files;
  }

  /** The attributes table, built by the three nested loops with their
      running attribute, object and file counters. */
  method AttributeTable(files: seq<FileRecord>) returns (rows: seq<AttributeRow>)
    ensures rows == AttributeRows(files)
  {
    rows := [];
    var idFichier := 0;
    var idObjet := 0;
    var idAttribut := 0;
    ghost var seen: seq<ObjectRecord> := [];
    var i := 0;
    while i < |files|
      invariant 0 <= i <= |files|
      invariant idFichier == i
      invariant seen == AllObjects(files[..i])
      invariant idObjet == |seen|
      invariant idAttribut == |rows|
      invariant rows == AttributeRowsOf(seen)
    {
      var fichier := files[i];
      ghost var done := seen;
      AllObjectsSnoc(files, i);
      var k := 0;
      while k < |fichier.objects|
        invariant 0 <= k <= |fichier.objects|
        invariant seen == done + fichier.objects[..k]
        invariant idObjet == |seen|
        invariant idAttribut == |rows|
        invariant rows == AttributeRowsOf(seen)
      {
        var objet := fichier.objects[k];
        ghost var before := rows;
        ghost var block := AttributeBlock(objet, idObjet, |before|);
        var a := 0;
        while a < |objet.attributes|
          invariant 0 <= a <= |objet.attributes|
          invariant idAttribut == |before| + a
          invariant rows == before + block[..a]
        {
          var attribut := objet.attributes[a];
          PrefixSnoc(before, block, a);
          rows := rows + [AttributeRow(idAttribut, idObjet, attribut.name, attribut.dataType, attribut.scope)];
          idAttribut := idAttribut + 1;
          a := a + 1;
        }
        assert block[..a] == block;
        AttributeRowsSnoc(seen, objet);
        PrefixSnoc(done, fichier.objects, k);
        seen := seen + [objet];
        idObjet := idObjet + 1;
        k := k + 1;
      }
      assert fichier.objects[..k] == fichier.objects;
      idFichier := idFichier + 1;
      i := i + 1;
    }
    assert files[..i] == files;
  }

  /** The number of attributes carried by a list of objects. */
  function AttributeCount(objs: seq<ObjectRecord>): nat
  {
    if objs == [] then 0
    else AttributeCount(objs[..|objs| - 1]) + |objs[|objs| - 1].attributes|
  }

  /** Row j of the objects table has identifier j, the
      identifier of an existing file, and the kind of the j-th object. */
  lemma {:induction false} ObjectRowsShape(files: seq<FileRecord>)
    ensures forall j :: 0 <= j < |ObjectRows(files)| ==>
              ObjectRows(files)[j].id == j &&
              0 <= ObjectRows(files)[j].fileId < |files| &&
              ObjectRows(files)[j].kind == AllObjects(files)[j].kind
  {
    if files != [] {
      var init, last := files[..|files| - 1], files[|files| - 1];
      ObjectRowsShape(init);
      var rows, objs := ObjectRows(init), AllObjects(init);
      var block := ObjectBlock(last, |init|, |objs|);
      var all: seq<ObjectRow> := rows + block;
      var allObjs: seq<ObjectRecord> := objs + last.objects;
      assert ObjectRows(files) == all;
      assert AllObjects(files) == allObjs;
      forall j | 0 <= j < |all|
        ensures all[j].id == j
        ensures 0 <= all[j].fileId < |files|
        ensures all[j].kind == allObjs[j].kind
      {
        if j >= |rows| {
          assert all[j] == block[j - |rows|];
          assert allObjs[j] == last.objects[j - |rows|];
        } else {
          assert all[j] == rows[j];
          assert allObjs[j] == objs[j];
        }
      }
    }
  }

  /** The k-th object of file f has global identifier
      |AllObjects(files[..f])| + k, and its row carries f as owning file. */
  lemma {:induction false} ObjectRowOwner(files: seq<FileRecord>, f: nat, k: nat)
    requires f < |files| && k < |files[f].objects|
    ensures |AllObjects(files[..f])| + k < |AllObjects(files)|
    ensures AllObjects(files)[|AllObjects(files[..f])| + k] == files[f].objects[k]
    ensures ObjectRows(files)[|AllObjects(files[..f])| + k] ==
              ObjectRow(|AllObjects(files[..f])| + k, f, files[f].objects[k].kind)
  {
    var init, last := files[..|files| - 1], files[|files| - 1];
    ObjectRowsShape(init);
    var rows, objs := ObjectRows(init), AllObjects(init);
    var block := ObjectBlock(last, |init|, |objs|);
    assert ObjectRows(files) == rows + block;
    assert AllObjects(files) == objs + last.objects;
    var j := |AllObjects(files[..f])| + k;
    if f == |files| - 1 {
      assert files[..f] == init;
      assert (rows + block)[j] == block[k];
      assert (objs + last.objects)[j] == last.objects[k];
    } else {
      assert init[..f] == files[..f];
      ObjectRowOwner(init, f, k);
      assert (rows + block)[j] == rows[j];
      assert (objs + last.objects)[j] == objs[j];
    }
  }

  /** Row i of the attribute rows of a list of objects has identifier i, names an existing object, and holds one of that
      object's attributes. */
  lemma {:induction false} AttributeRowsShape(objs: seq<ObjectRecord>)
    ensures forall i :: 0 <= i < |AttributeRowsOf(objs)| ==>
              AttributeRowsOf(objs)[i].id == i &&
              0 <= AttributeRowsOf(objs)[i].objectId < |objs| &&
              HoldsAttribute(AttributeRowsOf(objs)[i], objs[AttributeRowsOf(objs)[i].objectId])
  {
    if objs != [] {
      var init, last := objs[..|objs| - 1], objs[|objs| - 1];
      AttributeRowsShape(init);
      var rows := AttributeRowsOf(init);
      var block := AttributeBlock(last, |init|, |rows|);
      var all: seq<AttributeRow> := rows + block;
      assert AttributeRowsOf(objs) == all;
      forall i | 0 <= i < |all|
        ensures all[i].id == i
        ensures 0 <= all[i].objectId < |objs|
        ensures HoldsAttribute(all[i], objs[all[i].objectId])
      {
        if i < |rows| {
          assert all[i] == rows[i];
          assert objs[rows[i].objectId] == init[rows[i].objectId];
        } else {
          var a := i - |rows|;
          assert all[i] == block[a];
          assert block[a].objectId == |init|;
          assert RowOf(block[a], last, a);
        }
      }
    }
  }

  /** Whether row r carries the a-th attribute of object o. */
  predicate RowOf(r: AttributeRow, o: ObjectRecord, a: nat)
  {
    a < |o.attributes| &&
    r.name == o.attributes[a].name &&
    r.dataType == o.attributes[a].dataType &&
    r.scope == o.attributes[a].scope
  }

  /** Whether row r carries one of the attributes of object o. */
  predicate HoldsAttribute(r: AttributeRow, o: ObjectRecord)
  {
    exists a: nat :: a < |o.attributes| && RowOf(r, o, a)
  }

  /** The a-th attribute of the m-th object has identifier
      |AttributeRowsOf(objs[..m])| + a, and its row names m as its object,
      whether or not earlier objects had attributes. */
  lemma {:induction false} AttributeRowOwner(objs: seq<ObjectRecord>, m: nat, a: nat)
    requires m < |objs| && a < |objs[m].attributes|
    ensures |AttributeRowsOf(objs[..m])| + a < |AttributeRowsOf(objs)|
    ensures AttributeRowsOf(objs)[|AttributeRowsOf(objs[..m])| + a] ==
              AttributeRow(|AttributeRowsOf(objs[..m])| + a, m,
                           objs[m].attributes[a].name, objs[m].attributes[a].dataType, objs[m].attributes[a].scope)
  {
    var init, last := objs[..|objs| - 1], objs[|objs| - 1];
    var rows := AttributeRowsOf(init);
    var block := AttributeBlock(last, |init|, |rows|);
    assert AttributeRowsOf(objs) == rows + block;
    var i := |AttributeRowsOf(objs[..m])| + a;
    if m == |objs| - 1 {
      assert objs[..m] == init;
      assert (rows + block)[i] == block[a];
    } else {
      assert init[..m] == objs[..m];
      AttributeRowOwner(init, m, a);
      assert (rows + block)[i] == rows[i];
    }
  }

  /** Foreign keys: every object row names an existing file, and every
      attribute row names an existing object row, which carries that
      identifier and holds the attribute. */
  lemma ForeignKeysValid(files: seq<FileRecord>)
    ensures forall j :: 0 <= j < |ObjectRows(files)| ==> 0 <= ObjectRows(files)[j].fileId < |files|
    ensures forall i :: 0 <= i < |AttributeRows(files)| ==>
              0 <= AttributeRows(files)[i].objectId < |ObjectRows(files)| &&
              ObjectRows(files)[AttributeRows(files)[i].objectId].id == AttributeRows(files)[i].objectId &&
              HoldsAttribute(AttributeRows(files)[i], AllObjects(files)[AttributeRows(files)[i].objectId])
  {
    ObjectRowsShape(files);
    AttributeRowsShape(AllObjects(files));
  }
}

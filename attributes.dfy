/** Attribute records, the attribute classifier and the property walker. */
module Attributes {
  import opened Dispatch
  import opened Scopes

  /** One typed property found on a node: its name, the rendering of its data
      type and the name of its geometry scope. */
  datatype Attribute = Attribute(name: string, dataType: string, scope: string)

  /** The value-initialised record the classifier returns on a miss. */
  const EmptyAttribute := Attribute("", "", "")

  /** The typed geometry parameters the classifier tries. */
  datatype ParamKind =
    | FloatParam | DoubleParam | V3dParam | Int32Param | StringParam
    | V2fParam | V3fParam | P3fParam | P3dParam | N3fParam | C3fParam
    | M44fParam | BoolParam

  /** The order in which the classifier tries the parameter kinds. */
  const ParamOrder: seq<ParamKind> :=
    [FloatParam, DoubleParam, V3dParam, Int32Param, StringParam, V2fParam,
     V3fParam, P3fParam, P3dParam, N3fParam, C3fParam, M44fParam, BoolParam]

  /** What the archive library tells about a leaf property: its name, the set
      of parameter kinds whose `matches` test accepts it, and what reading it
      as a typed parameter yields (the rendered data type and the scope). */
  datatype PropertyHeader =
    PropertyHeader(name: string, matching: set<ParamKind>, dataType: string, scope: GeometryScope)

  /** A property namespace is a tree: leaves, and compounds holding further
      properties in declared order. */
  datatype Property =
    | Leaf(header: PropertyHeader)
    | Compound(name: string, children: seq<Property>)

  /** The record built from a typed parameter that matched. */
  function FromParam(h: PropertyHeader): Attribute
  {
    Attribute(h.name, h.dataType, ScopeName(h.scope))
  }

  /** The classifier: tries the parameter kinds one after the other in
      order and reads the leaf as the first kind that matches; a leaf no
      kind matches yields the empty record. */
  function Classify(h: PropertyHeader): (a: Attribute)
    ensures a == EmptyAttribute <==> h.matching == {}
    ensures h.matching != {} ==> a == Attribute(h.name, h.dataType, ScopeName(h.scope))
  {
    var m := h.matching;
    if FloatParam in m then FromParam(h)
    else if DoubleParam in m then FromParam(h)
    else if V3dParam in m then FromParam(h)
    else if Int32Param in m then FromParam(h)
    else if StringParam in m then FromParam(h)
    else if V2fParam in m then FromParam(h)
    else if V3fParam in m then FromParam(h)
    else if P3fParam in m then FromParam(h)
    else if P3dParam in m then FromParam(h)
    else if N3fParam in m then FromParam(h)
    else if C3fParam in m then FromParam(h)
    else if M44fParam in m then FromParam(h)
    else if BoolParam in m then FromParam(h)
    else
      NoKindMatched(m);
      EmptyAttribute
  }

  /** A set that holds none of the thirteen kinds is empty. */
  lemma NoKindMatched(m: set<ParamKind>)
    requires FloatParam !in m && DoubleParam !in m && V3dParam !in m && Int32Param !in m
    requires StringParam !in m && V2fParam !in m && V3fParam !in m && P3fParam !in m
    requires P3dParam !in m && N3fParam !in m && C3fParam !in m && M44fParam !in m
    requires BoolParam !in m
    ensures m == {}
  {
    forall k: ParamKind ensures k !in m {
      match k {
        case FloatParam => case DoubleParam => case V3dParam =>
        case Int32Param => case StringParam => case V2fParam =>
        case V3fParam => case P3fParam => case P3dParam =>
        case N3fParam => case C3fParam => case M44fParam =>
        case BoolParam =>
      }
    }
  }

  /** The test chain is the first-match search over the classifier's order:
      it reads the leaf exactly when some kind in the order matches. */
  lemma ClassifyIsFirstMatch(h: PropertyHeader)
    ensures Classify(h) ==
              match FirstMatch(ParamOrder, h.matching)
              case None => EmptyAttribute
              case Some(_) => FromParam(h)
  {
    AllKindsTried(h.matching);
  }

  /** Every parameter kind is in the classifier's order, so the search misses
      only when no kind matches at all. */
  lemma AllKindsTried(matching: set<ParamKind>)
    ensures FirstMatch(ParamOrder, matching).None? <==> matching == {}
  {
    if matching != {} {
      var k :| k in matching;
      assert k == ParamOrder[ParamOrderIndex(k)];
    }
  }

  function ParamOrderIndex(k: ParamKind): (i: nat)
    ensures i < |ParamOrder| && ParamOrder[i] == k
  {
    match k
    case FloatParam => 0 case DoubleParam => 1 case V3dParam => 2
    case Int32Param => 3 case StringParam => 4 case V2fParam => 5
    case V3fParam => 6 case P3fParam => 7 case P3dParam => 8
    case N3fParam => 9 case C3fParam => 10 case M44fParam => 11
    case BoolParam => 12
  }

  /** The walker keeps a classifier result only when all three fields are set. */
  predicate Complete(a: Attribute)
  {
    a.name != "" && a.dataType != "" && a.scope != ""
  }

  /** A leaf is kept exactly when some kind matches it and its name and data
      type are non-empty: the scope name of a match is never empty, and the
      empty record of a miss is never kept. */
  lemma KeptIffMatched(h: PropertyHeader)
    ensures Complete(Classify(h)) <==> h.matching != {} && h.name != "" && h.dataType != ""
  {
  }

  /** The attributes collected from one property. */
  function PropertyAttributes(p: Property): seq<Attribute>
    decreases p
  {
    match p
    case Leaf(h) => if Complete(Classify(h)) then [Classify(h)] else []
    case Compound(_, children) => NamespaceAttributes(children)
  }

  /** The attributes collected from a namespace, visiting its properties in
      declared order. */
  function NamespaceAttributes(ps: seq<Property>): seq<Attribute>
    decreases ps
  {
    if ps == [] then []
    else NamespaceAttributes(ps[..|ps| - 1]) + PropertyAttributes(ps[|ps| - 1])
  }

  /** The attributes of a possibly absent namespace. */
  function CollectedAttributes(props: Option<seq<Property>>): seq<Attribute>
  {
    match props
    case None => []
    case Some(ps) => NamespaceAttributes(ps)
  }

  /** Reference view: the leaf headers of a namespace, in pre-order through the
      compounds. */
  function Leaves(ps: seq<Property>): seq<PropertyHeader>
    decreases ps
  {
    if ps == [] then []
    else
      (match ps[0]
       case Leaf(h) => [h]
       case Compound(_, children) => Leaves(children))
      + Leaves(ps[1..])
  }

  /** Reference view: the classifier results of a list of leaves that are
      complete, in the list's order. */
  function KeptAttributes(hs: seq<PropertyHeader>): (r: seq<Attribute>)
    ensures |r| <= |hs|
    ensures forall i :: 0 <= i < |r| ==> Complete(r[i])
    ensures forall i :: 0 <= i < |r| ==> exists j :: 0 <= j < |hs| && r[i] == Classify(hs[j])
    ensures forall j :: 0 <= j < |hs| && Complete(Classify(hs[j])) ==> Classify(hs[j]) in r
  {
    if hs == [] then []
    else (if Complete(Classify(hs[0])) then [Classify(hs[0])] else []) + KeptAttributes(hs[1..])
  }

  lemma {:induction false} LeavesAppend(a: seq<Property>, b: seq<Property>)
    ensures Leaves(a + b) == Leaves(a) + Leaves(b)
  {
    if a == [] {
      assert a + b == b;
    } else {
      assert (a + b)[0] == a[0];
      assert (a + b)[1..] == a[1..] + b;
      LeavesAppend(a[1..], b);
    }
  }

  lemma {:induction false} KeptAppend(a: seq<PropertyHeader>, b: seq<PropertyHeader>)
    ensures KeptAttributes(a + b) == KeptAttributes(a) + KeptAttributes(b)
  {
    if a == [] {
      assert a + b == b;
    } else {
      assert (a + b)[0] == a[0];
      assert (a + b)[1..] == a[1..] + b;
      KeptAppend(a[1..], b);
    }
  }

  /** The walker collects exactly the complete classifier results of the
      namespace's leaves, counted recursively through compounds, in the order
      the leaves are met. */
  lemma {:induction false} NamespaceIsKeptLeaves(ps: seq<Property>)
    ensures NamespaceAttributes(ps) == KeptAttributes(Leaves(ps))
    decreases ps
  {
    if ps != [] {
      var init, last := ps[..|ps| - 1], ps[|ps| - 1];
      assert ps == init + [last];
      calc {
        NamespaceAttributes(ps);
        NamespaceAttributes(init) + PropertyAttributes(last);
        { NamespaceIsKeptLeaves(init); PropertyIsKeptLeaves(last); }
        KeptAttributes(Leaves(init)) + KeptAttributes(Leaves([last]));
        { KeptAppend(Leaves(init), Leaves([last])); }
        KeptAttributes(Leaves(init) + Leaves([last]));
        { LeavesAppend(init, [last]); }
        KeptAttributes(Leaves(ps));
      }
    }
  }

  lemma {:induction false} PropertyIsKeptLeaves(p: Property)
    ensures PropertyAttributes(p) == KeptAttributes(Leaves([p]))
    decreases p
  {
    assert [p][1..] == [];
    match p
    case Leaf(h) =>
      assert Leaves([p]) == [h];
      assert KeptAttributes([h]) == (if Complete(Classify(h)) then [Classify(h)] else []) + KeptAttributes([]);
    case Compound(_, children) =>
      NamespaceIsKeptLeaves(children);
      assert Leaves([p]) == Leaves(children) + Leaves([]);
      assert Leaves(children) + [] == Leaves(children);
  }

  /** Only complete records are ever collected: a classifier miss never is. */
  lemma NamespaceAttributesComplete(ps: seq<Property>)
    ensures forall i :: 0 <= i < |NamespaceAttributes(ps)| ==> Complete(NamespaceAttributes(ps)[i])
  {
    NamespaceIsKeptLeaves(ps);
  }

  /** The record of one object under construction: its kind label and the
      attributes collected so far. */
  class ObjectData {
    var kind: string
    var attributes: seq<Attribute>

    constructor (kind: string)
      ensures this.kind == kind && attributes == []
    {
      this.kind := kind;
      attributes := [];
    }

    /** Walks a possibly absent property namespace, appending the complete
        classifier result of every leaf, in order, to `attributes`. */
    method ParseAttributes(props: Option<seq<Property>>)
      modifies this
      ensures kind == old(kind)
      ensures props.None? ==> attributes == old(attributes)
      ensures attributes == old(attributes) + CollectedAttributes(props)
    {
      if props.None? {
        return;
      }
      ParseNamespace(props.value);
    }

    /** The loop over a present namespace; compounds are walked recursively. */
    method ParseNamespace(ps: seq<Property>)
      modifies this
      decreases ps
      ensures kind == old(kind)
      ensures attributes == old(attributes) + NamespaceAttributes(ps)
    {
      var i := 0;
      while i < |ps|
        invariant 0 <= i <= |ps|
        invariant kind == old(kind)
        invariant attributes == old(attributes) + NamespaceAttributes(ps[..i])
      {
        var prop := ps[i];
        assert ps[..i + 1][..i] == ps[..i];
        match prop {
          case Compound(_, children) =>
            ParseNamespace(children);
          case Leaf(h) =>
            var attribute := Classify(h);
            if attribute.name != "" && attribute.dataType != "" && attribute.scope != "" {
              attributes := attributes + [attribute];
            }
        }
        i := i + 1;
      }
      assert ps[..i] == ps;
    }
  }
}

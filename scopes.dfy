/** Geometry scopes and their textual names. */
module Scopes {
  import opened Dispatch

  /** The scopes a geometry parameter can declare; `UnknownScope` is what the
      archive library reports when none of the five known scopes applies. */
  datatype GeometryScope =
    | ConstantScope
    | UniformScope
    | VaryingScope
    | VertexScope
    | FacevaryingScope
    | UnknownScope

  /** The name written to the attribute table for a scope: one fixed name
      per known scope, with "kUnknownScope" for everything else. The name is
      never empty and reads back as the scope it was written from, so no two
      scopes share a name. */
  function ScopeName(s: GeometryScope): (r: string)
    ensures r != ""
    ensures ScopeFromName(r) == Some(s)
  {
    match s
    case ConstantScope => "kConstantScope"
    case UniformScope => "kUniformScope"
    case VaryingScope => "kVaryingScope"
    case VertexScope => "kVertexScope"
    case FacevaryingScope => "kFacevaryingScope"
    case UnknownScope =>
      assert "kUnknownScope" != "kConstantScope";
      "kUnknownScope"
  }

  /** Reading a scope name back, as a consumer of the attribute table would. */
  function ScopeFromName(name: string): Option<GeometryScope>
  {
    if name == "kConstantScope" then Some(ConstantScope)
    else if name == "kUniformScope" then Some(UniformScope)
    else if name == "kVaryingScope" then Some(VaryingScope)
    else if name == "kVertexScope" then Some(VertexScope)
    else if name == "kFacevaryingScope" then Some(FacevaryingScope)
    else if name == "kUnknownScope" then Some(UnknownScope)
    else None
  }
}

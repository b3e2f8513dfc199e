/**
 * The syntax tree of one XDR file (the data description language of section 6
 * of RFC 4506), as the language server's parser produces it. Every node owns
 * its children, so the tree only nests downward: the recursive functions over
 * it in the modules that follow terminate on the datatype ordering.
 */
module Ast {
  import opened Wrappers

  /** A name as written in the file, with its byte span `[start, end)`. */
  datatype Identifier = Identifier(name: string, start: nat, end: nat)

  /** A constant token, or a use of a named constant. */
  datatype Value =
    | Id(ident: Identifier)
    | Const(text: string)

  /** A field or member description. */
  datatype Declaration =
    | Normal(spec: TypeSpecifier, id: Identifier)
    | FixedArr(spec: TypeSpecifier, id: Identifier, size: Value)
    | VarArr(spec: TypeSpecifier, id: Identifier, maxSize: Option<Value>)
    | FixedOpaque(id: Identifier, size: Value)
    | VarOpaque(id: Identifier, maxSize: Option<Value>)
    | String(id: Identifier, maxSize: Option<Value>)
    | Optional(spec: TypeSpecifier, id: Identifier)
    | Void

  datatype TypeSpecifier =
    | BuiltIn(builtin: string)
    | Enum(enumBody: EnumBody)
    | Struct(structBody: StructBody)
    | Union(unionBody: UnionBody)
    | Ident(typeName: Identifier)

  datatype EnumAssign = EnumAssign(id: Identifier, val: Value)

  datatype EnumBody = EnumBody(members: seq<EnumAssign>)

  datatype StructBody = StructBody(fields: seq<Declaration>)

  /** A discriminated union: one discriminant, the arms, and at most one default arm. */
  datatype UnionBody = UnionBody(discriminant: Declaration, cases: seq<CaseSpec>, default: Option<Declaration>)

  /** One union arm: its guard values and the declaration it selects. */
  datatype CaseSpec = CaseSpec(values: seq<Value>, decl: Declaration)

  /** A top-level item of a file. */
  datatype Definition =
    | Constant(name: Identifier, val: string)
    | TypeDef(decl: Declaration)
    | EnumDef(name: Identifier, enumBody: EnumBody)
    | StructDef(name: Identifier, structBody: StructBody)
    | UnionDef(name: Identifier, unionBody: UnionBody)

  /** One parsed file: its definitions in source order. */
  datatype Specification = Specification(defns: seq<Definition>)

  /** The name a declaration declares; only `void` declares none. */
  function DeclName(d: Declaration): (r: Option<Identifier>)
  {
    if d.Void? then None else Some(d.id)
  }

  /**
   * The element type of a declaration: plain, array and optional declarations
   * carry one; opaque, string and void declarations do not.
   */
  function DeclType(d: Declaration): (r: Option<TypeSpecifier>)
  {
    match d
    case Normal(spec, _) => Some(spec)
    case FixedArr(spec, _, _) => Some(spec)
    case VarArr(spec, _, _) => Some(spec)
    case Optional(spec, _) => Some(spec)
    case _ => None
  }

  /**
   * The size of a declaration: always present for the fixed-size forms,
   * optional for the variable-size forms, absent for the rest.
   */
  function DeclSize(d: Declaration): (r: Option<Value>)
  {
    match d
    case FixedArr(_, _, size) => Some(size)
    case FixedOpaque(_, size) => Some(size)
    case VarArr(_, _, size) => size
    case VarOpaque(_, size) => size
    case String(_, size) => size
    case _ => None
  }
}

/**
 * The occurrence visitor: one depth-first walk over a parsed file that lists
 * every identifier in source order, each flagged as a definition site or a
 * reference site.
 */
module Visitor {
  import opened Wrappers
  import opened Ast

  /** One identifier occurrence and whether it defines its name. */
  datatype Occurrence = Occurrence(ident: Identifier, isDefn: bool)

  function VisitSpec(spec: Specification): seq<Occurrence>
  {
    VisitDefns(spec.defns)
  }

  function VisitDefns(ds: seq<Definition>): seq<Occurrence>
  {
    if ds == [] then [] else VisitDefn(ds[0]) + VisitDefns(ds[1..])
  }

  function VisitDefn(d: Definition): seq<Occurrence>
  {
    match d
    case Constant(name, _) => [Occurrence(name, true)]
    case TypeDef(decl) => VisitDecl(decl, true)
    case EnumDef(name, body) => [Occurrence(name, true)] + VisitEnum(body)
    case StructDef(name, body) => [Occurrence(name, true)] + VisitStruct(body)
    case UnionDef(name, body) => [Occurrence(name, true)] + VisitUnion(body)
  }

  function VisitDecl(d: Declaration, inDefn: bool): seq<Occurrence>
    decreases d
  {
    match d
    case Normal(spec, id) => VisitType(spec) + [Occurrence(id, inDefn)]
    case Optional(spec, id) => VisitType(spec) + [Occurrence(id, inDefn)]
    case FixedArr(spec, id, size) => VisitType(spec) + [Occurrence(id, inDefn)] + VisitVal(size)
    case VarArr(spec, id, size) => VisitType(spec) + [Occurrence(id, inDefn)] + VisitOptVal(size)
    case FixedOpaque(id, size) => [Occurrence(id, inDefn)] + VisitVal(size)
    case VarOpaque(id, size) => [Occurrence(id, inDefn)] + VisitOptVal(size)
    case String(id, size) => [Occurrence(id, inDefn)] + VisitOptVal(size)
    case Void => []
  }

  function VisitEnum(body: EnumBody): seq<Occurrence>
  {
    VisitAssigns(body.members)
  }

  function VisitAssigns(ms: seq<EnumAssign>): seq<Occurrence>
  {
    if ms == [] then [] else [Occurrence(ms[0].id, true)] + VisitVal(ms[0].val) + VisitAssigns(ms[1..])
  }

  function VisitStruct(body: StructBody): seq<Occurrence>
    decreases body
  {
    VisitDecls(body.fields)
  }

  function VisitDecls(ds: seq<Declaration>): seq<Occurrence>
    decreases ds
  {
    if ds == [] then [] else VisitDecl(ds[0], false) + VisitDecls(ds[1..])
  }

  function VisitUnion(body: UnionBody): seq<Occurrence>
    decreases body
  {
    VisitDecl(body.discriminant, false) + VisitCases(body.cases)
    + (match body.default case Some(d) => VisitDecl(d, false) case None => [])
  }

  function VisitCases(cs: seq<CaseSpec>): seq<Occurrence>
    decreases cs
  {
    if cs == [] then [] else VisitValues(cs[0].values) + VisitDecl(cs[0].decl, false) + VisitCases(cs[1..])
  }

  function VisitValues(vs: seq<Value>): seq<Occurrence>
  {
    if vs == [] then [] else VisitVal(vs[0]) + VisitValues(vs[1..])
  }

  function VisitVal(v: Value): seq<Occurrence>
  {
    match v
    case Id(ident) => [Occurrence(ident, false)]
    case Const(_) => []
  }

  function VisitOptVal(v: Option<Value>): seq<Occurrence>
  {
    match v
    case Some(size) => VisitVal(size)
    case None => []
  }

  function VisitType(t: TypeSpecifier): seq<Occurrence>
    decreases t
  {
    match t
    case BuiltIn(_) => []
    case Enum(body) => VisitEnum(body)
    case Struct(body) => VisitStruct(body)
    case Union(body) => VisitUnion(body)
    case Ident(id) => [Occurrence(id, false)]
  }
}

module VisitorProperties {
  import opened Wrappers
  import opened Ast
  import opened Visitor

  /** The enum member names declared anywhere inside a node, collected as a set. */
  ghost function EnumIdsOfAssigns(ms: seq<EnumAssign>): set<Identifier>
  {
    set i | 0 <= i < |ms| :: ms[i].id
  }

  ghost function EnumIdsOfType(t: TypeSpecifier): set<Identifier>
    decreases t
  {
    match t
    case Enum(body) => EnumIdsOfAssigns(body.members)
    case Struct(body) => EnumIdsOfDecls(body.fields)
    case Union(body) => EnumIdsOfUnion(body)
    case _ => {}
  }

  ghost function EnumIdsOfDecl(d: Declaration): set<Identifier>
    decreases d
  {
    if d.Normal? || d.FixedArr? || d.VarArr? || d.Optional? then EnumIdsOfType(d.spec) else {}
  }

  ghost function EnumIdsOfDecls(ds: seq<Declaration>): set<Identifier>
    decreases ds
  {
    if ds == [] then {} else EnumIdsOfDecl(ds[0]) + EnumIdsOfDecls(ds[1..])
  }

  ghost function EnumIdsOfUnion(body: UnionBody): set<Identifier>
    decreases body
  {
    EnumIdsOfDecl(body.discriminant) + EnumIdsOfCases(body.cases)
    + (match body.default case Some(d) => EnumIdsOfDecl(d) case None => {})
  }

  ghost function EnumIdsOfCases(cs: seq<CaseSpec>): set<Identifier>
    decreases cs
  {
    if cs == [] then {} else EnumIdsOfDecl(cs[0].decl) + EnumIdsOfCases(cs[1..])
  }

  /**
   * The names a file introduces into the global namespace: constant names,
   * the names of top-level enums, structs and unions, the declared name of a
   * top-level typedef, and every enum member name at any depth.
   */
  ghost function DefinedIds(ds: seq<Definition>): set<Identifier>
  {
    if ds == [] then {} else DefinedIdsOf(ds[0]) + DefinedIds(ds[1..])
  }

  ghost function DefinedIdsOf(d: Definition): set<Identifier>
  {
    match d
    case Constant(name, _) => {name}
    case TypeDef(decl) => (if decl.Void? then {} else {decl.id}) + EnumIdsOfDecl(decl)
    case EnumDef(name, body) => {name} + EnumIdsOfAssigns(body.members)
    case StructDef(name, body) => {name} + EnumIdsOfDecls(body.fields)
    case UnionDef(name, body) => {name} + EnumIdsOfUnion(body)
  }

  /** The identifier a named value refers to, if it is one. */
  ghost function RefIdsOfVal(v: Value): set<Identifier>
  {
    if v.Id? then {v.ident} else {}
  }

  ghost function RefIdsOfOptVal(v: Option<Value>): set<Identifier>
  {
    if v.Some? then RefIdsOfVal(v.value) else {}
  }

  ghost function RefIdsOfValues(vs: seq<Value>): set<Identifier>
  {
    if vs == [] then {} else RefIdsOfVal(vs[0]) + RefIdsOfValues(vs[1..])
  }

  /** The name a declaration declares, as a set: empty for `void`. */
  ghost function NameIds(d: Declaration): set<Identifier>
  {
    if d.Void? then {} else {d.id}
  }

  /**
   * The identifiers that sit in reference positions inside a node: named
   * types, named sizes, enum values, union guard values, and the declared
   * names of struct fields and union arms, at any depth.
   */
  ghost function RefIdsOfAssigns(ms: seq<EnumAssign>): set<Identifier>
  {
    if ms == [] then {} else RefIdsOfVal(ms[0].val) + RefIdsOfAssigns(ms[1..])
  }

  ghost function RefIdsOfType(t: TypeSpecifier): set<Identifier>
    decreases t
  {
    match t
    case BuiltIn(_) => {}
    case Enum(body) => RefIdsOfAssigns(body.members)
    case Struct(body) => RefIdsOfDecls(body.fields)
    case Union(body) => RefIdsOfUnion(body)
    case Ident(id) => {id}
  }

  /** The references inside a declaration's type and size; its own name is not among them. */
  ghost function RefIdsInDecl(d: Declaration): set<Identifier>
    decreases d
  {
    (if d.Normal? || d.FixedArr? || d.VarArr? || d.Optional? then RefIdsOfType(d.spec) else {})
    + RefIdsOfOptVal(DeclSize(d))
  }

  ghost function RefIdsOfDecls(ds: seq<Declaration>): set<Identifier>
    decreases ds
  {
    if ds == [] then {} else RefIdsInDecl(ds[0]) + NameIds(ds[0]) + RefIdsOfDecls(ds[1..])
  }

  ghost function RefIdsOfUnion(body: UnionBody): set<Identifier>
    decreases body
  {
    RefIdsInDecl(body.discriminant) + NameIds(body.discriminant) + RefIdsOfCases(body.cases)
    + (match body.default case Some(d) => RefIdsInDecl(d) + NameIds(d) case None => {})
  }

  ghost function RefIdsOfCases(cs: seq<CaseSpec>): set<Identifier>
    decreases cs
  {
    if cs == [] then {}
    else RefIdsOfValues(cs[0].values) + RefIdsInDecl(cs[0].decl) + NameIds(cs[0].decl) + RefIdsOfCases(cs[1..])
  }

  /** The identifiers of a file that sit in reference positions. */
  ghost function ReferencedIds(ds: seq<Definition>): set<Identifier>
  {
    if ds == [] then {} else ReferencedIdsOf(ds[0]) + ReferencedIds(ds[1..])
  }

  ghost function ReferencedIdsOf(d: Definition): set<Identifier>
  {
    match d
    case Constant(_, _) => {}
    case TypeDef(decl) => RefIdsInDecl(decl)
    case EnumDef(_, body) => RefIdsOfAssigns(body.members)
    case StructDef(_, body) => RefIdsOfDecls(body.fields)
    case UnionDef(_, body) => RefIdsOfUnion(body)
  }

  /**
   * The number of identifier positions in a node: one per name slot
   * (constant, type, enum member, field or arm name, named type) and one per
   * named value, counted without regard to definition or reference.
   */
  ghost function IdCountOfVal(v: Value): nat
  {
    if v.Id? then 1 else 0
  }

  ghost function IdCountOfOptVal(v: Option<Value>): nat
  {
    if v.Some? then IdCountOfVal(v.value) else 0
  }

  ghost function IdCountOfAssigns(ms: seq<EnumAssign>): nat
  {
    if ms == [] then 0 else 1 + IdCountOfVal(ms[0].val) + IdCountOfAssigns(ms[1..])
  }

  ghost function IdCountOfType(t: TypeSpecifier): nat
    decreases t
  {
    match t
    case BuiltIn(_) => 0
    case Enum(body) => IdCountOfAssigns(body.members)
    case Struct(body) => IdCountOfDecls(body.fields)
    case Union(body) => IdCountOfUnion(body)
    case Ident(_) => 1
  }

  ghost function IdCountOfDecl(d: Declaration): nat
    decreases d
  {
    (if d.Normal? || d.FixedArr? || d.VarArr? || d.Optional? then IdCountOfType(d.spec) else 0)
    + |NameIds(d)| + IdCountOfOptVal(DeclSize(d))
  }

  ghost function IdCountOfDecls(ds: seq<Declaration>): nat
    decreases ds
  {
    if ds == [] then 0 else IdCountOfDecl(ds[0]) + IdCountOfDecls(ds[1..])
  }

  ghost function IdCountOfUnion(body: UnionBody): nat
    decreases body
  {
    IdCountOfDecl(body.discriminant) + IdCountOfCases(body.cases)
    + (match body.default case Some(d) => IdCountOfDecl(d) case None => 0)
  }

  ghost function IdCountOfCases(cs: seq<CaseSpec>): nat
    decreases cs
  {
    if cs == [] then 0 else |NamedIndices(cs[0].values)| + IdCountOfDecl(cs[0].decl) + IdCountOfCases(cs[1..])
  }

  ghost function IdCountOf(d: Definition): nat
  {
    match d
    case Constant(_, _) => 1
    case TypeDef(decl) => IdCountOfDecl(decl)
    case EnumDef(_, body) => 1 + IdCountOfAssigns(body.members)
    case StructDef(_, body) => 1 + IdCountOfDecls(body.fields)
    case UnionDef(_, body) => 1 + IdCountOfUnion(body)
  }

  /** The number of identifier positions in a file. */
  ghost function IdCount(ds: seq<Definition>): nat
  {
    if ds == [] then 0 else IdCountOf(ds[0]) + IdCount(ds[1..])
  }

  /** Values only ever yield references: one for a named value, none for a literal. */
  lemma {:induction false} ValuesAreReferences(vs: seq<Value>)
    ensures forall o :: o in VisitValues(vs) ==> !o.isDefn && Id(o.ident) in vs
    ensures forall i :: 0 <= i < |vs| && vs[i].Id? ==> Occurrence(vs[i].ident, false) in VisitValues(vs)
    ensures |VisitValues(vs)| == |NamedIndices(vs)|
  {
    if vs != [] {
      ValuesAreReferences(vs[1..]);
    }
    ValuesCount(vs);
  }

  /** The positions of a value list that hold a named value. */
  ghost function NamedIndices(vs: seq<Value>): set<nat>
  {
    set i: nat | i < |vs| && vs[i].Id?
  }

  /** Walking a value list with one more value at its end walks that value last. */
  lemma {:induction false} ValuesSnoc(vs: seq<Value>, v: Value)
    ensures VisitValues(vs + [v]) == VisitValues(vs) + VisitVal(v)
  {
    if vs == [] {
      assert [v][1..] == [];
    } else {
      ValuesSnoc(vs[1..], v);
      assert (vs + [v])[1..] == vs[1..] + [v];
    }
  }

  /** A value list yields exactly one occurrence per named value and none per literal. */
  lemma {:induction false} ValuesCount(vs: seq<Value>)
    ensures |VisitValues(vs)| == |NamedIndices(vs)|
    decreases |vs|
  {
    if vs != [] {
      var init, last := vs[..|vs| - 1], vs[|vs| - 1];
      assert vs == init + [last];
      ValuesSnoc(init, last);
      ValuesCount(init);
      assert NamedIndices(vs) == NamedIndices(init) + (if last.Id? then {|init|} else {});
    }
  }

  /** In an enum body every member name is a definition and every other occurrence a reference. */
  lemma {:induction false} EnumMembersAreDefinitions(ms: seq<EnumAssign>)
    ensures forall o :: o in VisitAssigns(ms) && o.isDefn ==> o.ident in EnumIdsOfAssigns(ms)
    ensures forall id :: id in EnumIdsOfAssigns(ms) ==> Occurrence(id, true) in VisitAssigns(ms)
  {
    if ms != [] {
      EnumMembersAreDefinitions(ms[1..]);
      assert forall id :: id in EnumIdsOfAssigns(ms) ==> id == ms[0].id || id in EnumIdsOfAssigns(ms[1..]) by {
        forall id | id in EnumIdsOfAssigns(ms) ensures id == ms[0].id || id in EnumIdsOfAssigns(ms[1..]) {
          var i :| 0 <= i < |ms| && ms[i].id == id;
          if i > 0 { assert ms[1..][i - 1].id == id; }
        }
      }
      assert forall id :: id in EnumIdsOfAssigns(ms[1..]) ==> id in EnumIdsOfAssigns(ms) by {
        forall id | id in EnumIdsOfAssigns(ms[1..]) ensures id in EnumIdsOfAssigns(ms) {
          var i :| 0 <= i < |ms[1..]| && ms[1..][i].id == id;
          assert ms[i + 1].id == id;
        }
      }
    }
  }

  /**
   * Inside a type specifier the only definitions are enum member names, and
   * every enum member name, however deeply nested, is yielded as a definition.
   */
  lemma {:induction false} TypeOccurrences(t: TypeSpecifier)
    ensures forall o :: o in VisitType(t) && o.isDefn ==> o.ident in EnumIdsOfType(t)
    ensures forall id :: id in EnumIdsOfType(t) ==> Occurrence(id, true) in VisitType(t)
    decreases t
  {
    match t
    case BuiltIn(_) =>
    case Enum(body) => EnumMembersAreDefinitions(body.members);
    case Struct(body) => DeclsOccurrences(body.fields);
    case Union(body) => UnionOccurrences(body);
    case Ident(_) =>
  }

  /**
   * A declaration yields its declared name with the flag it is given, and
   * otherwise only the enum member names nested in its type as definitions.
   */
  lemma {:induction false} DeclOccurrences(d: Declaration, inDefn: bool)
    ensures forall o :: o in VisitDecl(d, inDefn) && o.isDefn ==>
              o.ident in EnumIdsOfDecl(d) || (inDefn && DeclName(d) == Some(o.ident))
    ensures forall id :: id in EnumIdsOfDecl(d) ==> Occurrence(id, true) in VisitDecl(d, inDefn)
    ensures DeclName(d).Some? ==> Occurrence(DeclName(d).value, inDefn) in VisitDecl(d, inDefn)
    decreases d
  {
    if d.Normal? || d.FixedArr? || d.VarArr? || d.Optional? {
      TypeOccurrences(d.spec);
    }
    if d.FixedArr? || d.FixedOpaque? {
      ValuesAreReferences([d.size]);
    }
    if (d.VarArr? || d.VarOpaque? || d.String?) && d.maxSize.Some? {
      ValuesAreReferences([d.maxSize.value]);
    }
  }

  /** Every field name of a struct body is a reference; the only definitions are nested enum members. */
  lemma {:induction false} DeclsOccurrences(ds: seq<Declaration>)
    ensures forall o :: o in VisitDecls(ds) && o.isDefn ==> o.ident in EnumIdsOfDecls(ds)
    ensures forall id :: id in EnumIdsOfDecls(ds) ==> Occurrence(id, true) in VisitDecls(ds)
    ensures forall i :: 0 <= i < |ds| && !ds[i].Void? ==> Occurrence(ds[i].id, false) in VisitDecls(ds)
    decreases ds
  {
    if ds != [] {
      DeclOccurrences(ds[0], false);
      DeclsOccurrences(ds[1..]);
      assert forall i :: 1 <= i < |ds| ==> ds[i] == ds[1..][i - 1];
    }
  }

  /**
   * The discriminant, every case declaration and the default declaration of
   * a union body yield their names as references; the only definitions are
   * nested enum members.
   */
  lemma {:induction false} UnionOccurrences(body: UnionBody)
    ensures forall o :: o in VisitUnion(body) && o.isDefn ==> o.ident in EnumIdsOfUnion(body)
    ensures forall id :: id in EnumIdsOfUnion(body) ==> Occurrence(id, true) in VisitUnion(body)
    ensures !body.discriminant.Void? ==> Occurrence(body.discriminant.id, false) in VisitUnion(body)
    ensures forall i :: 0 <= i < |body.cases| && !body.cases[i].decl.Void? ==>
              Occurrence(body.cases[i].decl.id, false) in VisitUnion(body)
    ensures body.default.Some? && !body.default.value.Void? ==>
              Occurrence(body.default.value.id, false) in VisitUnion(body)
    decreases body
  {
    DeclOccurrences(body.discriminant, false);
    CasesOccurrences(body.cases);
    if body.default.Some? {
      DeclOccurrences(body.default.value, false);
    }
  }

  lemma {:induction false} CasesOccurrences(cs: seq<CaseSpec>)
    ensures forall o :: o in VisitCases(cs) && o.isDefn ==> o.ident in EnumIdsOfCases(cs)
    ensures forall id :: id in EnumIdsOfCases(cs) ==> Occurrence(id, true) in VisitCases(cs)
    ensures forall i :: 0 <= i < |cs| && !cs[i].decl.Void? ==> Occurrence(cs[i].decl.id, false) in VisitCases(cs)
    decreases cs
  {
    if cs != [] {
      ValuesAreReferences(cs[0].values);
      DeclOccurrences(cs[0].decl, false);
      CasesOccurrences(cs[1..]);
      assert forall i :: 1 <= i < |cs| ==> cs[i] == cs[1..][i - 1];
    }
  }

  /**
   * The classification of a whole file: an occurrence is flagged as a
   * definition only when its identifier is a constant name, a top-level type
   * name, a top-level typedef name or an enum member name, and each of those
   * is yielded flagged as a definition.
   */
  lemma {:induction false} SpecOccurrences(ds: seq<Definition>)
    ensures forall o :: o in VisitDefns(ds) && o.isDefn ==> o.ident in DefinedIds(ds)
    ensures forall id :: id in DefinedIds(ds) ==> Occurrence(id, true) in VisitDefns(ds)
  {
    if ds != [] {
      SpecOccurrences(ds[1..]);
      match ds[0]
      case Constant(_, _) =>
      case TypeDef(decl) => DeclOccurrences(decl, true);
      case EnumDef(_, body) => EnumMembersAreDefinitions(body.members);
      case StructDef(_, body) => DeclsOccurrences(body.fields);
      case UnionDef(_, body) => UnionOccurrences(body);
    }
  }

  /** The references a value list yields are exactly its named values. */
  lemma {:induction false} ValuesReferences(vs: seq<Value>)
    ensures forall o :: o in VisitValues(vs) && !o.isDefn ==> o.ident in RefIdsOfValues(vs)
    ensures forall id :: id in RefIdsOfValues(vs) ==> Occurrence(id, false) in VisitValues(vs)
  {
    if vs != [] {
      ValuesReferences(vs[1..]);
    }
  }

  /** The references an enum body yields are exactly its named values. */
  lemma {:induction false} AssignsReferences(ms: seq<EnumAssign>)
    ensures forall o :: o in VisitAssigns(ms) && !o.isDefn ==> o.ident in RefIdsOfAssigns(ms)
    ensures forall id :: id in RefIdsOfAssigns(ms) ==> Occurrence(id, false) in VisitAssigns(ms)
  {
    if ms != [] {
      AssignsReferences(ms[1..]);
    }
  }

  /** The references a type specifier yields are exactly the identifiers in its reference positions. */
  lemma {:induction false} TypeReferences(t: TypeSpecifier)
    ensures forall o :: o in VisitType(t) && !o.isDefn ==> o.ident in RefIdsOfType(t)
    ensures forall id :: id in RefIdsOfType(t) ==> Occurrence(id, false) in VisitType(t)
    decreases t
  {
    match t
    case BuiltIn(_) =>
    case Enum(body) => AssignsReferences(body.members);
    case Struct(body) => DeclsReferences(body.fields);
    case Union(body) => UnionReferences(body);
    case Ident(_) =>
  }

  /**
   * Inside a declaration, the references are those of its type and size,
   * plus its own name when it is not given the definition flag.
   */
  lemma {:induction false} DeclReferences(d: Declaration, inDefn: bool)
    ensures forall o :: o in VisitDecl(d, inDefn) && !o.isDefn ==>
              o.ident in RefIdsInDecl(d) || (!inDefn && o.ident in NameIds(d))
    ensures forall id :: id in RefIdsInDecl(d) ==> Occurrence(id, false) in VisitDecl(d, inDefn)
    decreases d
  {
    if d.Normal? || d.FixedArr? || d.VarArr? || d.Optional? {
      TypeReferences(d.spec);
    }
  }

  /** The references a struct body yields are its field names and the references nested in the fields. */
  lemma {:induction false} DeclsReferences(ds: seq<Declaration>)
    ensures forall o :: o in VisitDecls(ds) && !o.isDefn ==> o.ident in RefIdsOfDecls(ds)
    ensures forall id :: id in RefIdsOfDecls(ds) ==> Occurrence(id, false) in VisitDecls(ds)
    decreases ds
  {
    if ds != [] {
      DeclReferences(ds[0], false);
      DeclOccurrences(ds[0], false);
      DeclsReferences(ds[1..]);
    }
  }

  /** The references a union body yields are its discriminant, arm and default names, its guard values and what they nest. */
  lemma {:induction false} UnionReferences(body: UnionBody)
    ensures forall o :: o in VisitUnion(body) && !o.isDefn ==> o.ident in RefIdsOfUnion(body)
    ensures forall id :: id in RefIdsOfUnion(body) ==> Occurrence(id, false) in VisitUnion(body)
    decreases body
  {
    DeclReferences(body.discriminant, false);
    DeclOccurrences(body.discriminant, false);
    CasesReferences(body.cases);
    if body.default.Some? {
      DeclReferences(body.default.value, false);
      DeclOccurrences(body.default.value, false);
    }
  }

  lemma {:induction false} CasesReferences(cs: seq<CaseSpec>)
    ensures forall o :: o in VisitCases(cs) && !o.isDefn ==> o.ident in RefIdsOfCases(cs)
    ensures forall id :: id in RefIdsOfCases(cs) ==> Occurrence(id, false) in VisitCases(cs)
    decreases cs
  {
    if cs != [] {
      ValuesReferences(cs[0].values);
      DeclReferences(cs[0].decl, false);
      DeclOccurrences(cs[0].decl, false);
      CasesReferences(cs[1..]);
    }
  }

  /**
   * The other half of the classification of a whole file: an occurrence is
   * flagged as a reference only when its identifier sits in a reference
   * position, and every identifier in a reference position is yielded as a
   * reference.
   */
  lemma {:induction false} SpecReferences(ds: seq<Definition>)
    ensures forall o :: o in VisitDefns(ds) && !o.isDefn ==> o.ident in ReferencedIds(ds)
    ensures forall id :: id in ReferencedIds(ds) ==> Occurrence(id, false) in VisitDefns(ds)
  {
    if ds != [] {
      SpecReferences(ds[1..]);
      match ds[0]
      case Constant(_, _) =>
      case TypeDef(decl) => DeclReferences(decl, true);
      case EnumDef(_, body) => AssignsReferences(body.members);
      case StructDef(_, body) => DeclsReferences(body.fields);
      case UnionDef(_, body) => UnionReferences(body);
    }
  }

  /**
   * The walk reaches every identifier of the file and nothing else: the
   * identifiers it yields are exactly those in definition positions and
   * those in reference positions.
   */
  lemma SpecIdentifiers(ds: seq<Definition>)
    ensures (set o | o in VisitDefns(ds) :: o.ident) == DefinedIds(ds) + ReferencedIds(ds)
  {
    SpecOccurrences(ds);
    SpecReferences(ds);
    forall id | id in DefinedIds(ds) + ReferencedIds(ds)
      ensures id in (set o | o in VisitDefns(ds) :: o.ident)
    {
      if id in DefinedIds(ds) {
        assert Occurrence(id, true) in VisitDefns(ds);
      } else {
        assert Occurrence(id, false) in VisitDefns(ds);
      }
    }
  }

  /** An enum body yields one occurrence per member name and one per named value. */
  lemma {:induction false} AssignsCount(ms: seq<EnumAssign>)
    ensures |VisitAssigns(ms)| == IdCountOfAssigns(ms)
  {
    if ms != [] {
      AssignsCount(ms[1..]);
    }
  }

  /** A type specifier yields one occurrence per identifier position it holds. */
  lemma {:induction false} TypeCount(t: TypeSpecifier)
    ensures |VisitType(t)| == IdCountOfType(t)
    decreases t
  {
    match t
    case BuiltIn(_) =>
    case Enum(body) => AssignsCount(body.members);
    case Struct(body) => DeclsCount(body.fields);
    case Union(body) => UnionCount(body);
    case Ident(_) =>
  }

  /** A declaration yields one occurrence per identifier position it holds, whatever its flag. */
  lemma {:induction false} DeclCount(d: Declaration, inDefn: bool)
    ensures |VisitDecl(d, inDefn)| == IdCountOfDecl(d)
    decreases d
  {
    if d.Normal? || d.FixedArr? || d.VarArr? || d.Optional? {
      TypeCount(d.spec);
    }
  }

  lemma {:induction false} DeclsCount(ds: seq<Declaration>)
    ensures |VisitDecls(ds)| == IdCountOfDecls(ds)
    decreases ds
  {
    if ds != [] {
      DeclCount(ds[0], false);
      DeclsCount(ds[1..]);
    }
  }

  lemma {:induction false} UnionCount(body: UnionBody)
    ensures |VisitUnion(body)| == IdCountOfUnion(body)
    decreases body
  {
    DeclCount(body.discriminant, false);
    CasesCount(body.cases);
    if body.default.Some? {
      DeclCount(body.default.value, false);
    }
  }

  lemma {:induction false} CasesCount(cs: seq<CaseSpec>)
    ensures |VisitCases(cs)| == IdCountOfCases(cs)
    decreases cs
  {
    if cs != [] {
      ValuesCount(cs[0].values);
      DeclCount(cs[0].decl, false);
      CasesCount(cs[1..]);
    }
  }

  /**
   * The walk visits each identifier position of a file exactly once: it
   * yields as many occurrences as the file has identifier positions, so a
   * constant yields one, and no position is reported twice.
   */
  lemma {:induction false} SpecCount(ds: seq<Definition>)
    ensures |VisitDefns(ds)| == IdCount(ds)
  {
    if ds != [] {
      SpecCount(ds[1..]);
      match ds[0]
      case Constant(_, _) =>
      case TypeDef(decl) => DeclCount(decl, true);
      case EnumDef(_, body) => AssignsCount(body.members);
      case StructDef(_, body) => DeclsCount(body.fields);
      case UnionDef(_, body) => UnionCount(body);
    }
  }

  /** A file's occurrences are those of its definitions, in file order. */
  lemma {:induction false} DefnsConcat(a: seq<Definition>, b: seq<Definition>)
    ensures VisitDefns(a + b) == VisitDefns(a) + VisitDefns(b)
  {
    if a != [] {
      DefnsConcat(a[1..], b);
      assert (a + b)[1..] == a[1..] + b;
    } else {
      assert a + b == b;
    }
  }

  /**
   * The order inside one declaration: the occurrences of its type, then its
   * declared name, then the occurrence of its size, each part absent where
   * the declaration form has none (`void` yields nothing).
   */
  lemma DeclOrder(d: Declaration, inDefn: bool)
    ensures VisitDecl(d, inDefn) ==
      (match DeclType(d) case Some(t) => VisitType(t) case None => [])
      + (match DeclName(d) case Some(id) => [Occurrence(id, inDefn)] case None => [])
      + VisitOptVal(DeclSize(d))
    ensures d.Void? ==> VisitDecl(d, inDefn) == []
  {
  }
}

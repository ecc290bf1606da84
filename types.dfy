/**
  Statically resolved Java types, as the source-analysis library hands them to
  the synthesizer. A reference type carries its qualified identity, its display
  name, its direct ancestors in order and its own declared fields (not the
  inherited ones) in the order the library enumerates them.
 */
module JavaTypes {

  datatype Type =
    | Primitive(name: string)
    | Array(component: Type)
    | Reference(ref: RefType)
      /** Any other kind (type variable, `void`, wildcard, ...). */
    | Other(name: string)

  datatype RefType = RefType(id: string, name: string, ancestors: seq<RefType>, fields: seq<Field>)

  datatype Field = Field(name: string, ty: Type)

  const ObjectId: string := "java.lang.Object"
  const StringId: string := "java.lang.String"

  /** `describe()`: an array is described as its component followed by `[]`. */
  function Describe(t: Type): string
  {
    match t
    case Primitive(n) => n
    case Array(c) => Describe(c) + "[]"
    case Reference(r) => r.name
    case Other(n) => n
  }

  /** The fields a walk over `r` reads: the root object type declares none. */
  function DeclaredOf(r: RefType): seq<Field>
  {
    if r.id == ObjectId then [] else r.fields
  }

  /** The declared fields of each ancestor in turn, ancestors' own ancestors not included. */
  function AncestorFields(ancs: seq<RefType>): seq<Field>
  {
    if ancs == [] then []
    else AncestorFields(ancs[..|ancs| - 1]) + DeclaredOf(ancs[|ancs| - 1])
  }

  lemma AncestorFieldsSnoc(ancs: seq<RefType>, i: nat)
    requires i < |ancs|
    ensures AncestorFields(ancs[..i + 1]) == AncestorFields(ancs[..i]) + DeclaredOf(ancs[i])
  {
    assert ancs[..i + 1][..i] == ancs[..i];
  }

  /** Every field a POJO expansion of `r` visits, in visiting order. */
  function Visited(r: RefType): seq<Field>
  {
    AncestorFields(r.ancestors) + r.fields
  }

  /** A field is visited exactly when it is the type's own or a direct non-root ancestor's own. */
  lemma {:induction false} AncestorFieldsMembers(ancs: seq<RefType>, f: Field)
    ensures f in AncestorFields(ancs) <==>
            exists i :: 0 <= i < |ancs| && ancs[i].id != ObjectId && f in ancs[i].fields
  {
    if ancs != [] {
      var init := ancs[..|ancs| - 1];
      AncestorFieldsMembers(init, f);
      if f in AncestorFields(init) {
        var i :| 0 <= i < |init| && init[i].id != ObjectId && f in init[i].fields;
        assert ancs[i] == init[i];
      }
      if exists i :: 0 <= i < |ancs| && ancs[i].id != ObjectId && f in ancs[i].fields {
        var i :| 0 <= i < |ancs| && ancs[i].id != ObjectId && f in ancs[i].fields;
        if i < |init| {
          assert init[i] == ancs[i];
        }
      }
    }
  }

  lemma VisitedMembers(r: RefType, f: Field)
    ensures f in Visited(r) <==>
            f in r.fields ||
            exists i :: 0 <= i < |r.ancestors| && r.ancestors[i].id != ObjectId && f in r.ancestors[i].fields
  {
    AncestorFieldsMembers(r.ancestors, f);
  }

  // ---- A termination measure ----------------------------------------------
  // The expansion of a POJO recurses into the field types of its ancestors,
  // which are not structurally inside any one sequence of the type. `Height`
  // bounds every type reachable through components, ancestors and fields.

  function Max(a: nat, b: nat): nat { if a < b then b else a }

  function SeqMax(s: seq<nat>): (m: nat)
    ensures forall i :: 0 <= i < |s| ==> s[i] <= m
  {
    if s == [] then 0 else Max(SeqMax(s[..|s| - 1]), s[|s| - 1])
  }

  function Height(t: Type): nat
  {
    match t
    case Primitive(_) => 0
    case Other(_) => 0
    case Array(c) => 1 + Height(c)
    case Reference(r) => 1 + RefHeight(r)
  }

  function RefHeight(r: RefType): (h: nat)
    ensures forall i :: 0 <= i < |r.fields| ==> Height(r.fields[i].ty) <= h
    ensures forall i :: 0 <= i < |r.ancestors| ==> RefHeight(r.ancestors[i]) <= h
  {
    var ancs := seq(|r.ancestors|, i requires 0 <= i < |r.ancestors| => RefHeight(r.ancestors[i]));
    var own := seq(|r.fields|, i requires 0 <= i < |r.fields| => Height(r.fields[i].ty));
    assert forall i :: 0 <= i < |r.ancestors| ==> RefHeight(r.ancestors[i]) == ancs[i];
    assert forall i :: 0 <= i < |r.fields| ==> Height(r.fields[i].ty) == own[i];
    Max(SeqMax(ancs), SeqMax(own))
  }

  /** The largest height among the field types of `fs`. */
  function FieldsHeight(fs: seq<Field>): (h: nat)
    ensures forall i :: 0 <= i < |fs| ==> Height(fs[i].ty) <= h
  {
    if fs == [] then 0
    else
      var init := fs[..|fs| - 1];
      assert forall i :: 0 <= i < |init| ==> init[i] == fs[i];
      Max(FieldsHeight(init), Height(fs[|fs| - 1].ty))
  }

  lemma {:induction false} FieldsHeightBound(fs: seq<Field>, b: nat)
    requires forall i :: 0 <= i < |fs| ==> Height(fs[i].ty) <= b
    ensures FieldsHeight(fs) <= b
  {
    if fs != [] {
      FieldsHeightBound(fs[..|fs| - 1], b);
    }
  }

  lemma {:induction false} AncestorFieldsBelow(ancs: seq<RefType>, b: nat)
    requires forall i :: 0 <= i < |ancs| ==> RefHeight(ancs[i]) <= b
    ensures forall j :: 0 <= j < |AncestorFields(ancs)| ==> Height(AncestorFields(ancs)[j].ty) <= b
  {
    if ancs != [] {
      var init := ancs[..|ancs| - 1];
      AncestorFieldsBelow(init, b);
      var last := ancs[|ancs| - 1];
      assert RefHeight(last) <= b;
    }
  }

  /** Every field a POJO expansion visits has a type lower than the POJO's. */
  lemma VisitedBelow(r: RefType)
    ensures FieldsHeight(Visited(r)) < Height(Reference(r))
  {
    AncestorFieldsBelow(r.ancestors, RefHeight(r));
    FieldsHeightBound(Visited(r), RefHeight(r));
  }

  /** The fields read from one ancestor, or from the type itself, lie below the type. */
  lemma DeclaredBelow(r: RefType, x: RefType)
    requires x == r || x in r.ancestors
    ensures FieldsHeight(DeclaredOf(x)) < Height(Reference(r))
  {
    FieldsHeightBound(DeclaredOf(x), RefHeight(x));
  }
}

/** Worked examples: small class hierarchies and what the synthesizer makes of them. */
module Scenarios {
  import opened Json
  import opened JavaTypes
  import opened Synthesis

  const Int: Type := Primitive("int")
  const Str: Type := Reference(RefType(StringId, StringId, [], []))
  const Obj: RefType := RefType(ObjectId, ObjectId, [], [])

  /** `class Point { int x; int y; }` */
  const Point: RefType := RefType("demo.Point", "demo.Point", [Obj], [Field("x", Int), Field("y", Int)])

  /** `class Wrapper { Point p; String[] tags; }` */
  const Wrapper: RefType :=
    RefType("demo.Wrapper", "demo.Wrapper", [Obj], [Field("p", Reference(Point)), Field("tags", Array(Str))])

  const PointValue: Json := JObj([("x", JNum(0)), ("y", JNum(0))])

  /** A plain object whose visit reads exactly two fields. */
  lemma TwoFields(r: RefType, f: Field, g: Field)
    requires IsPojo(r) && Visited(r) == [f, g]
    ensures Synth(Reference(r)).value ==
            JObj(Put(Put([], f.name, Synth(f.ty).value), g.name, Synth(g.ty).value))
    ensures Synth(Reference(r)).cells ==
            [CellOf(f.name, Synth(f.ty))] + Synth(f.ty).cells + [CellOf(g.name, Synth(g.ty))] + Synth(g.ty).cells
  {
    PojoSynth(r);
    FieldPair(f, g);
  }

  /** Two fields in a row: two puts, and each field's row followed by its nested rows. */
  lemma FieldPair(f: Field, g: Field)
    ensures PutAll([], [f, g]) == Put(Put([], f.name, Synth(f.ty).value), g.name, Synth(g.ty).value)
    ensures FieldCells([f, g]) ==
            [CellOf(f.name, Synth(f.ty))] + Synth(f.ty).cells + [CellOf(g.name, Synth(g.ty))] + Synth(g.ty).cells
  {
    var fs := [f, g];
    assert fs[..1] == [f] && fs[..0] == [];
    PutAllStep([], fs, 0);
    PutAllStep([], fs, 1);
    FieldCellsSingle(f);
  }

  lemma PointExample()
    ensures Synth(Reference(Point)).value == PointValue
    ensures Synth(Reference(Point)).cells ==
            [Cell("x", "int", JStr("")), Cell("y", "int", JStr(""))]
  {
    assert AncestorFields([Obj]) == [] by {
      assert [Obj][..0] == [];
    }
    TwoFields(Point, Field("x", Int), Field("y", Int));
  }

  /** The row for `p` carries `p`'s example and is followed by `p`'s own rows; the row for
      the array field `tags` carries the array example, not empty text. */
  lemma WrapperExample()
    ensures Synth(Reference(Wrapper)).value ==
            JObj([("p", PointValue), ("tags", JArr([JStr("")]))])
    ensures Synth(Reference(Wrapper)).cells ==
            [Cell("p", "demo.Point", PointValue),
             Cell("x", "int", JStr("")), Cell("y", "int", JStr("")),
             Cell("tags", StringId + "[]", JArr([JStr("")]))]
  {
    PointExample();
    assert AncestorFields([Obj]) == [] by {
      assert [Obj][..0] == [];
    }
    TwoFields(Wrapper, Field("p", Reference(Point)), Field("tags", Array(Str)));
  }

  /** `class A { int a; }`, `class B extends A { int b; }`, `class C extends B { int c; }`:
      only C's direct ancestor B is walked, so A's field is not part of C's example. */
  const A: RefType := RefType("demo.A", "demo.A", [Obj], [Field("a", Int)])
  const B: RefType := RefType("demo.B", "demo.B", [A], [Field("b", Int)])
  const C: RefType := RefType("demo.C", "demo.C", [B], [Field("c", Int)])

  lemma GrandparentExample()
    ensures Synth(Reference(C)).value == JObj([("b", JNum(0)), ("c", JNum(0))])
    ensures Synth(Reference(C)).cells == [Cell("b", "int", JStr("")), Cell("c", "int", JStr(""))]
  {
    assert AncestorFields([B]) == [Field("b", Int)] by {
      assert [B][..0] == [];
    }
    TwoFields(C, Field("b", Int), Field("c", Int));
  }

  /** `class Base { int id; }`, `class Derived extends Base { String id; }`: the derived
      field's example overwrites the inherited one, yet both fields keep their own row. */
  const Base: RefType := RefType("demo.Base", "demo.Base", [Obj], [Field("id", Int)])
  const Derived: RefType := RefType("demo.Derived", "demo.Derived", [Base], [Field("id", Str)])

  lemma ShadowExample()
    ensures Synth(Reference(Derived)).value == JObj([("id", JStr(""))])
    ensures Synth(Reference(Derived)).cells == [Cell("id", "int", JStr("")), Cell("id", StringId, JStr(""))]
  {
    assert AncestorFields([Base]) == [Field("id", Int)] by {
      assert [Base][..0] == [];
    }
    TwoFields(Derived, Field("id", Int), Field("id", Str));
  }
}

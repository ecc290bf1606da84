/**
  `ASTResolvedType`: an object whose `parse` fills in its name, example value,
  primitive flag and documentation rows by recursing into component, ancestor
  and field types. Each method is proved to leave the object in the state the
  pure `Synthesis.Synth` describes.
 */
module Ast {
  import opened Json
  import opened JavaTypes
  import opened Synthesis
  import opened Seqs

  /** A mutable JSON object under construction (Jackson's `ObjectNode`). */
  class ObjectNode {
    var entries: Entries

    constructor ()
      ensures entries == []
    {
      entries := [];
    }

    method PutPojo(key: string, v: Json)
      modifies this
      ensures entries == Put(old(entries), key, v)
    {
      entries := Put(entries, key, v);
    }
  }

  /** A mutable JSON array under construction (Jackson's `ArrayNode`). */
  class ArrayNode {
    var items: seq<Json>

    constructor ()
      ensures items == []
    {
      items := [];
    }

    method AddPojo(v: Json)
      modifies this
      ensures items == old(items) + [v]
    {
      items := items + [v];
    }
  }

  class AstResolvedType {
    var name: string
    var value: Json
    var primitive: bool
    var cells: seq<Cell>

    function State(): Resolved
      reads this
    {
      Resolved(name, value, primitive, cells)
    }

    /** A newly created object: no value, not primitive, no rows. */
    predicate Blank()
      reads this
    {
      value == JNull && !primitive && cells == []
    }

    constructor ()
      ensures Blank()
    {
      name := "";
      value := JNull;
      primitive := false;
      cells := [];
    }

    /** `of(Type)`: resolution of the syntactic type is given as `resolved`;
        when it fails the result is null. */
    static method OfSyntax(resolved: Option<Type>) returns (r: AstResolvedType?)
      ensures resolved.None? ==> r == null
      ensures resolved.Some? ==> r != null && fresh(r) && r.State() == Synth(resolved.value)
    {
      if resolved.None? {
        return null;
      }
      r := Of(resolved.value);
    }

    /** `of(ResolvedType)`: a fresh object parsed from the type. */
    static method Of(t: Type) returns (r: AstResolvedType)
      ensures fresh(r)
      ensures r.State() == Synth(t)
      decreases Height(t), 4
    {
      r := new AstResolvedType();
      r.Parse(t);
    }

    method Parse(t: Type)
      requires Blank()
      modifies this
      ensures State() == Synth(t)
      decreases Height(t), 3
    {
      name := Describe(t);
      if t.Primitive? {
        primitive := true;
        value := JNum(0);
      } else if t.Array? {
        ParseArray(t);
      } else if t.Reference? {
        ParsePojo(t.ref);
      }
    }

    /** A one-element array holding the component's example; the component's rows are appended. */
    method ParseArray(t: Type)
      requires t.Array?
      modifies this
      ensures value == JArr([Synth(t.component).value])
      ensures cells == old(cells) + Synth(t.component).cells
      ensures name == old(name) && primitive == old(primitive)
      decreases Height(t), 2
    {
      var node := new ArrayNode();
      var component := Of(t.component);
      node.AddPojo(component.value);
      value := JArr(node.items);
      cells := cells + component.cells;
    }

    /** The root object type is left untouched, the string type becomes an empty-text
        primitive, any other reference type an object built from its fields. */
    method ParsePojo(r: RefType)
      modifies this
      ensures name == old(name)
      ensures r.id == ObjectId ==> value == old(value) && primitive == old(primitive) && cells == old(cells)
      ensures r.id == StringId ==> value == JStr("") && primitive && cells == old(cells)
      ensures IsPojo(r) ==>
                value == JObj(PutAll([], Visited(r))) && primitive == old(primitive) &&
                cells == old(cells) + FieldCells(Visited(r))
      decreases Height(Reference(r)), 2
    {
      if r.id == ObjectId {
        return;
      }
      if r.id == StringId {
        primitive := true;
        value := JStr("");
        return;
      }
      var node := new ObjectNode();
      ParseAncestors(r, node);
      DeclaredBelow(r, r);
      ParseFields(r, node);
      VisitedSplit(r);
      AppendAssoc(old(cells), FieldCells(AncestorFields(r.ancestors)), FieldCells(DeclaredOf(r)));
      value := JObj(node.entries);
    }

    /** Puts and appends the declared fields of each direct ancestor in turn. */
    method ParseAncestors(r: RefType, node: ObjectNode)
      modifies this, node
      ensures node.entries == PutAll(old(node.entries), AncestorFields(r.ancestors))
      ensures cells == old(cells) + FieldCells(AncestorFields(r.ancestors))
      ensures name == old(name) && value == old(value) && primitive == old(primitive)
      decreases Height(Reference(r)), 1
    {
      var ancestors := r.ancestors;
      var i := 0;
      while i < |ancestors|
        invariant 0 <= i <= |ancestors|
        invariant node.entries == PutAll(old(node.entries), AncestorFields(ancestors[..i]))
        invariant cells == old(cells) + FieldCells(AncestorFields(ancestors[..i]))
        invariant name == old(name) && value == old(value) && primitive == old(primitive)
      {
        DeclaredBelow(r, ancestors[i]);
        ParseFields(ancestors[i], node);
        AncestorStep(old(node.entries), ancestors, i);
        AppendAssoc(old(cells), FieldCells(AncestorFields(ancestors[..i])), FieldCells(DeclaredOf(ancestors[i])));
        i := i + 1;
      }
      TakeAll(ancestors);
    }

    /** Puts each declared field's example into `node` and appends, for each field in turn,
        its row and then its nested rows. */
    method ParseFields(x: RefType, node: ObjectNode)
      modifies this, node
      ensures node.entries == PutAll(old(node.entries), DeclaredOf(x))
      ensures cells == old(cells) + FieldCells(DeclaredOf(x))
      ensures name == old(name) && value == old(value) && primitive == old(primitive)
      decreases FieldsHeight(DeclaredOf(x)) + 1, 0
    {
      if x.id == ObjectId {
        return;
      }
      var fs := x.fields;
      ghost var e0, cells0 := node.entries, cells;
      ghost var n0, v0, p0 := name, value, primitive;
      var i := 0;
      while i < |fs|
        invariant 0 <= i <= |fs|
        invariant node.entries == PutAll(e0, fs[..i])
        invariant cells == cells0 + FieldCells(fs[..i])
        invariant name == n0 && value == v0 && primitive == p0
      {
        var next := fs[i];
        var keyType := Of(next.ty);
        node.PutPojo(next.name, keyType.value);
        cells := cells + [CellOf(next.name, keyType.State())];
        cells := cells + keyType.cells;
        FieldStep(e0, cells0, fs, i);
        i := i + 1;
      }
      TakeAll(fs);
    }
  }
}

/**
  The type-to-example synthesizer as a pure function: for a resolved type it
  gives the display name, the "primitive" flag, an example JSON value of the
  type's shape and the flat, ordered list of documentation rows. The class in
  `Ast` computes the same thing step by step and is proved equal to `Synth`.
 */
module Synthesis {
  import opened Json
  import opened JavaTypes
  import opened Seqs

  /** One row of the documentation table: field name, type name, default. */
  datatype Cell = Cell(name: string, typeName: string, default: Json)

  /** The state a synthesized type ends in: name, example value, primitive flag, rows. */
  datatype Resolved = Resolved(name: string, value: Json, primitive: bool, cells: seq<Cell>)

  /** The row written for a field named `key` whose type synthesized to `res`. */
  function CellOf(key: string, res: Resolved): Cell
  {
    Cell(key, res.name, if res.primitive then JStr("") else res.value)
  }

  function Names(fs: seq<Field>): set<string>
  {
    set i | 0 <= i < |fs| :: fs[i].name
  }

  function Synth(t: Type): (res: Resolved)
    ensures res.name == Describe(t)
    ensures res.primitive <==> res.value == JNum(0) || res.value == JStr("")
    ensures res.primitive ==> res.cells == []
    decreases Height(t), 1, 0
  {
    match t
    case Primitive(_) => Resolved(Describe(t), JNum(0), true, [])
    case Array(c) =>
      var rc := Synth(c);
      Resolved(Describe(t), JArr([rc.value]), false, rc.cells)
    case Reference(r) =>
      if r.id == ObjectId then Resolved(Describe(t), JNull, false, [])
      else if r.id == StringId then Resolved(Describe(t), JStr(""), true, [])
      else
        VisitedBelow(r);
        var fs := Visited(r);
        Resolved(Describe(t), JObj(PutAll([], fs)), false, FieldCells(fs))
    case Other(_) => Resolved(Describe(t), JNull, false, [])
  }

  /** The rows for a run of fields: each field's own row, then its nested rows. */
  function FieldCells(fs: seq<Field>): (cells: seq<Cell>)
    ensures |cells| >= |fs|
    decreases FieldsHeight(fs) + 1, 0, |fs|
  {
    if fs == [] then []
    else
      var f := fs[|fs| - 1];
      var res := Synth(f.ty);
      FieldCells(fs[..|fs| - 1]) + [CellOf(f.name, res)] + res.cells
  }

  /** The object entries after putting every field's example value in turn. */
  function PutAll(e: Entries, fs: seq<Field>): Entries
    decreases FieldsHeight(fs) + 1, 0, |fs|
  {
    if fs == [] then e
    else
      var f := fs[|fs| - 1];
      Put(PutAll(e, fs[..|fs| - 1]), f.name, Synth(f.ty).value)
  }

  /** Every example value is a well-formed JSON tree: no object in it repeats a key. */
  lemma {:induction false} SynthWellFormed(t: Type)
    ensures WellFormed(Synth(t).value)
    decreases Height(t), 1, 0
  {
    match t
    case Array(c) =>
      SynthWellFormed(c);
    case Reference(r) =>
      if IsPojo(r) {
        VisitedBelow(r);
        PutAllWellFormed([], Visited(r));
      }
    case _ =>
  }

  /** Putting well-formed values keeps every value well formed and every key unique. */
  lemma {:induction false} PutAllWellFormed(e: Entries, fs: seq<Field>)
    requires forall i :: 0 <= i < |e| ==> WellFormed(e[i].1)
    ensures forall i :: 0 <= i < |PutAll(e, fs)| ==> WellFormed(PutAll(e, fs)[i].1)
    ensures DistinctKeys(e) ==> DistinctKeys(PutAll(e, fs))
    decreases FieldsHeight(fs) + 1, 0, |fs|
  {
    if fs != [] {
      var f := fs[|fs| - 1];
      PutAllWellFormed(e, fs[..|fs| - 1]);
      SynthWellFormed(f.ty);
      PutEntries(PutAll(e, fs[..|fs| - 1]), f.name, Synth(f.ty).value);
      if DistinctKeys(e) {
        PutDistinct(PutAll(e, fs[..|fs| - 1]), f.name, Synth(f.ty).value);
      }
    }
  }

  // ---- The five branches of the dispatch ----------------------------------

  lemma PrimitiveCase(n: string)
    ensures var res := Synth(Primitive(n));
            res.name == n && res.primitive && res.value == JNum(0) && res.cells == []
  {
  }

  /** An array holds exactly one example element and forwards its component's rows unchanged. */
  lemma ArrayCase(c: Type)
    ensures var res := Synth(Array(c));
            res.name == Describe(c) + "[]" && !res.primitive &&
            res.value == JArr([Synth(c).value]) && res.cells == Synth(c).cells
  {
  }

  lemma ObjectCase(r: RefType)
    requires r.id == ObjectId
    ensures var res := Synth(Reference(r));
            res.name == r.name && !res.primitive && res.value == JNull && res.cells == []
  {
  }

  lemma StringCase(r: RefType)
    requires r.id == StringId
    ensures var res := Synth(Reference(r));
            res.name == r.name && res.primitive && res.value == JStr("") && res.cells == []
  {
  }

  /** A kind that is neither primitive, array nor reference only gets its name. */
  lemma OtherCase(n: string)
    ensures var res := Synth(Other(n));
            res.name == n && !res.primitive && res.value == JNull && res.cells == []
  {
  }

  // ---- Rows ----------------------------------------------------------------

  /** A row's default is empty text exactly when the field's type is a primitive leaf;
      otherwise it is the field's own example value. */
  lemma CellDefault(key: string, t: Type)
    ensures CellOf(key, Synth(t)).name == key
    ensures CellOf(key, Synth(t)).typeName == Describe(t)
    ensures CellOf(key, Synth(t)).default == JStr("") <==> Synth(t).primitive
    ensures !Synth(t).primitive ==> CellOf(key, Synth(t)).default == Synth(t).value
  {
  }

  lemma {:induction false} FieldCellsAppend(a: seq<Field>, b: seq<Field>)
    ensures FieldCells(a + b) == FieldCells(a) + FieldCells(b)
    decreases |b|
  {
    if b == [] {
      assert a + b == a;
    } else {
      var init, f := b[..|b| - 1], b[|b| - 1];
      FieldCellsAppend(a, init);
      DropLastAppend(a, b);
      AppendAssoc4(FieldCells(a), FieldCells(init), [CellOf(f.name, Synth(f.ty))], Synth(f.ty).cells);
    }
  }

  /** A single field contributes its own row followed by its nested rows. */
  lemma FieldCellsSingle(f: Field)
    ensures FieldCells([f]) == [CellOf(f.name, Synth(f.ty))] + Synth(f.ty).cells
  {
    assert [f][..0] == [];
  }

  /** Rows are a preorder: the i-th field's row comes right after the rows of the fields
      before it and is followed at once by the field's own nested rows. */
  lemma FieldCellsAt(fs: seq<Field>, i: nat)
    requires i < |fs|
    ensures FieldCells(fs) ==
            FieldCells(fs[..i]) + [CellOf(fs[i].name, Synth(fs[i].ty))] + Synth(fs[i].ty).cells +
            FieldCells(fs[i + 1..])
  {
    var p, m, q := fs[..i], [fs[i]], fs[i + 1..];
    Split(fs, i);
    FieldCellsAppend(p + m, q);
    FieldCellsAppend(p, m);
    FieldCellsSingle(fs[i]);
    AppendAssoc(FieldCells(p), [CellOf(fs[i].name, Synth(fs[i].ty))], Synth(fs[i].ty).cells);
  }

  /** One more field appends its row and its nested rows. */
  lemma FieldCellsStep(fs: seq<Field>, i: nat)
    requires i < |fs|
    ensures FieldCells(fs[..i + 1]) == FieldCells(fs[..i]) + [CellOf(fs[i].name, Synth(fs[i].ty))] + Synth(fs[i].ty).cells
  {
    assert fs[..i + 1][..i] == fs[..i];
  }

  /** One iteration of the field loop: the entries gain one put, the rows one field's rows. */
  lemma FieldStep(e: Entries, before: seq<Cell>, fs: seq<Field>, i: nat)
    requires i < |fs|
    ensures PutAll(e, fs[..i + 1]) == Put(PutAll(e, fs[..i]), fs[i].name, Synth(fs[i].ty).value)
    ensures before + FieldCells(fs[..i + 1]) ==
            before + FieldCells(fs[..i]) + [CellOf(fs[i].name, Synth(fs[i].ty))] + Synth(fs[i].ty).cells
  {
    PutAllStep(e, fs, i);
    FieldCellsStep(fs, i);
    AppendAssoc4(before, FieldCells(fs[..i]), [CellOf(fs[i].name, Synth(fs[i].ty))], Synth(fs[i].ty).cells);
  }

  // ---- Object entries ------------------------------------------------------

  /** One more field puts its example under its name. */
  lemma PutAllStep(e: Entries, fs: seq<Field>, i: nat)
    requires i < |fs|
    ensures PutAll(e, fs[..i + 1]) == Put(PutAll(e, fs[..i]), fs[i].name, Synth(fs[i].ty).value)
  {
    assert fs[..i + 1][..i] == fs[..i];
  }

  lemma {:induction false} PutAllAppend(e: Entries, a: seq<Field>, b: seq<Field>)
    ensures PutAll(e, a + b) == PutAll(PutAll(e, a), b)
    decreases |b|
  {
    if b == [] {
      assert a + b == a;
    } else {
      var init := b[..|b| - 1];
      PutAllAppend(e, a, init);
      DropLastAppend(a, b);
    }
  }

  /** The keys are those already there plus the name of every field put. */
  lemma NamesSnoc(fs: seq<Field>)
    requires fs != []
    ensures Names(fs) == Names(fs[..|fs| - 1]) + {fs[|fs| - 1].name}
  {
    var init := fs[..|fs| - 1];
    forall n | n in Names(fs) ensures n in Names(init) + {fs[|fs| - 1].name} {
      var j :| 0 <= j < |fs| && fs[j].name == n;
      if j < |init| { assert init[j] == fs[j]; }
    }
    forall n | n in Names(init) ensures n in Names(fs) {
      var j :| 0 <= j < |init| && init[j].name == n;
      assert fs[j] == init[j];
    }
  }

  lemma {:induction false} PutAllKeys(e: Entries, fs: seq<Field>)
    ensures Keys(PutAll(e, fs)) == Keys(e) + Names(fs)
  {
    if fs != [] {
      var init := fs[..|fs| - 1];
      PutAllKeys(e, init);
      PutLookup(PutAll(e, init), fs[|fs| - 1].name, Synth(fs[|fs| - 1].ty).value);
      NamesSnoc(fs);
    }
  }


  /** A key no field carries keeps the value it had. */
  lemma {:induction false} PutAllUntouched(e: Entries, fs: seq<Field>, k: string)
    requires forall j :: 0 <= j < |fs| ==> fs[j].name != k
    ensures Lookup(PutAll(e, fs), k) == Lookup(e, k)
  {
    if fs != [] {
      var init, f := fs[..|fs| - 1], fs[|fs| - 1];
      PutAllUntouched(e, init, k);
      PutLookup(PutAll(e, init), f.name, Synth(f.ty).value);
    }
  }

  /** On a repeated name the last field put wins. */
  lemma {:induction false} PutAllLastWins(e: Entries, fs: seq<Field>, i: nat)
    requires i < |fs|
    requires forall j :: i < j < |fs| ==> fs[j].name != fs[i].name
    ensures Lookup(PutAll(e, fs), fs[i].name) == Some(Synth(fs[i].ty).value)
  {
    var init, f := fs[..|fs| - 1], fs[|fs| - 1];
    PutLookup(PutAll(e, init), f.name, Synth(f.ty).value);
    if i < |fs| - 1 {
      PutAllLastWins(e, init, i);
      assert init[i] == fs[i];
    }
  }

  // ---- Plain objects -------------------------------------------------------

  /** The rows of each ancestor in order, the root object type contributing none. */
  function AncestorCells(ancs: seq<RefType>): seq<Cell>
  {
    if ancs == [] then []
    else AncestorCells(ancs[..|ancs| - 1]) + FieldCells(DeclaredOf(ancs[|ancs| - 1]))
  }

  lemma {:induction false} AncestorCellsSplit(ancs: seq<RefType>)
    ensures FieldCells(AncestorFields(ancs)) == AncestorCells(ancs)
  {
    if ancs != [] {
      var init := ancs[..|ancs| - 1];
      AncestorCellsSplit(init);
      FieldCellsAppend(AncestorFields(init), DeclaredOf(ancs[|ancs| - 1]));
    }
  }

  /** Walking one more ancestor puts and appends that ancestor's declared fields. */
  lemma AncestorStep(e: Entries, ancs: seq<RefType>, i: nat)
    requires i < |ancs|
    ensures PutAll(e, AncestorFields(ancs[..i + 1])) ==
            PutAll(PutAll(e, AncestorFields(ancs[..i])), DeclaredOf(ancs[i]))
    ensures FieldCells(AncestorFields(ancs[..i + 1])) ==
            FieldCells(AncestorFields(ancs[..i])) + FieldCells(DeclaredOf(ancs[i]))
  {
    AncestorFieldsSnoc(ancs, i);
    PutAllAppend(e, AncestorFields(ancs[..i]), DeclaredOf(ancs[i]));
    FieldCellsAppend(AncestorFields(ancs[..i]), DeclaredOf(ancs[i]));
  }

  /** After every ancestor, the type's own declared fields complete the visit. */
  lemma VisitedSplit(r: RefType)
    requires r.id != ObjectId
    ensures PutAll([], Visited(r)) ==
            PutAll(PutAll([], AncestorFields(r.ancestors)), DeclaredOf(r))
    ensures FieldCells(Visited(r)) ==
            FieldCells(AncestorFields(r.ancestors)) + FieldCells(DeclaredOf(r))
  {
    PutAllAppend([], AncestorFields(r.ancestors), r.fields);
    FieldCellsAppend(AncestorFields(r.ancestors), r.fields);
  }

  predicate IsPojo(r: RefType)
  {
    r.id != ObjectId && r.id != StringId
  }

  /** The plain-object case of `Synth`, stated once so that callers need not unfold it. */
  lemma PojoSynth(r: RefType)
    requires IsPojo(r)
    ensures Synth(Reference(r)) == Resolved(r.name, JObj(PutAll([], Visited(r))), false, FieldCells(Visited(r)))
  {
  }

  /** A plain object: its rows are the direct ancestors' rows in order, then its own;
      it has at least one row per visited field; it is not primitive. */
  lemma PojoCells(r: RefType)
    requires IsPojo(r)
    ensures var res := Synth(Reference(r));
            res.name == r.name && !res.primitive &&
            res.cells == AncestorCells(r.ancestors) + FieldCells(r.fields) &&
            |res.cells| >= |Visited(r)|
  {
    PojoSynth(r);
    FieldCellsAppend(AncestorFields(r.ancestors), r.fields);
    AncestorCellsSplit(r.ancestors);
  }

  /** A plain object's keys are exactly the names of the visited fields, each once. */
  lemma PojoKeys(r: RefType)
    requires IsPojo(r)
    ensures Synth(Reference(r)).value.JObj?
    ensures Keys(Synth(Reference(r)).value.entries) == Names(Visited(r))
    ensures DistinctKeys(Synth(Reference(r)).value.entries)
  {
    PojoSynth(r);
    PutAllKeys([], Visited(r));
    PutAllWellFormed([], Visited(r));
  }

  /** The value under a name is the example of the last visited field with that name. */
  lemma PojoLastWins(r: RefType, i: nat)
    requires IsPojo(r)
    requires i < |Visited(r)|
    requires forall j :: i < j < |Visited(r)| ==> Visited(r)[j].name != Visited(r)[i].name
    ensures Synth(Reference(r)).value.JObj?
    ensures Lookup(Synth(Reference(r)).value.entries, Visited(r)[i].name) ==
            Some(Synth(Visited(r)[i].ty).value)
  {
    PojoSynth(r);
    PutAllLastWins([], Visited(r), i);
  }
}

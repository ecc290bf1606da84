# Type-to-example synthesizer of restdoc, in Dafny

restdoc writes API documentation from captured HTTP traffic. For each payload it
takes the statically resolved Java type of the value and synthesizes four
things: a display name, a "primitive" flag, an example JSON value that has the
type's shape, and a flat, ordered list of documentation rows (`Cell`: field
name, type name, default). `ASTResolvedType` does this work. Its `parse`
dispatches on the kind of type:

| kind | example value | primitive | rows |
|---|---|---|---|
| primitive | `0` | true | none |
| array | one-element array holding the component's example | false | the component's rows, unchanged |
| `java.lang.Object` | null | false | none |
| `java.lang.String` | `""` | true | none |
| any other reference type | object built from the fields | false | for each field of each direct ancestor, then of the type itself: the field's row, then the field's own rows |
| anything else (type variable, `void`, ...) | null | false | none |

The project has six modules:

- `Json` (json.dfy) stands in for Jackson. It has a small JSON datatype.
  `Put` stores a value under a key: an existing key keeps its position and gets
  the new value, and a new key is appended. Lemmas show that the key then maps
  to the new value, that other keys keep their values, and that no key is ever
  duplicated.
- `JavaTypes` (types.dfy) stands in for the resolved types of the
  source-analysis library. A reference type has an identity, a display name,
  its direct ancestors and its own declared fields. `Visited` lists, in order,
  the fields a plain-object expansion reads. `Height` is a measure that proves
  the expansion terminates.
- `Synthesis` (synthesis.dfy) is the specification. `Synth` is a pure
  recursive function. `FieldCells` and `PutAll` give the rows and the object
  entries for a run of fields. The lemmas state the properties of the dispatch.
- `Ast` (ast_resolved_type.dfy) is the class `AstResolvedType`, with the
  mutable fields `name`, `value`, `primitive` and `cells`. Its methods `Of`,
  `Parse`, `ParseArray`, `ParsePojo`, `ParseAncestors` and `ParseFields` update those fields as
  the Java methods do, including the index loop over the ancestors and the loop
  over the declared fields. They write into a shared mutable `ObjectNode`. Each
  method is proved to leave the object in the state `Synth` describes.
- `Scenarios` (scenarios.dfy) holds worked examples.
- `Seqs` (seqs.dfy) holds five small facts about sequences: two about the associativity of
  concatenation (`AppendAssoc`, `AppendAssoc4`) and three about slicing (`TakeAll`, `Split`,
  `DropLastAppend`).

Four details of the code may surprise a reader; the model follows the code:

- A field whose type is an array gets the array example as its row default,
  not empty text. `parseArray` never sets `primitive` (ASTResolvedType.java:69-75
  and :123). `WrapperExample` shows that a `String[] tags` field gets the default `[""]`.
- A field of type `java.lang.Object` gets the example null and the default null.
- Only direct ancestors are walked, and only their own declared fields are read.
  A grandparent's fields do not appear (`GrandparentExample`).
- When a resolution failure happens deeper in the type graph, the Java exception
  travels up to the outermost `of(Type)`, and the whole result is null, not just
  the affected field's entry. This model covers only a failure of the outermost
  resolution (see "Left out").

## Model

| member | source | states |
|---|---|---|
| `Ast.AstResolvedType.constructor` | src/main/java/com/github/ayz6uem/restdoc/ast/ASTResolvedType.java:29-34 | A new object has no value, is not primitive and has no rows |
| `Ast.AstResolvedType.OfSyntax` | src/main/java/com/github/ayz6uem/restdoc/ast/ASTResolvedType.java:36-44 | Failed resolution gives null; otherwise a fresh object whose state is `Synth` of the resolved type |
| `Ast.AstResolvedType.Of` | src/main/java/com/github/ayz6uem/restdoc/ast/ASTResolvedType.java:46-50 | Returns a fresh object whose name, value, primitive flag and rows are exactly `Synth(t)` |
| `Ast.AstResolvedType.Parse` | src/main/java/com/github/ayz6uem/restdoc/ast/ASTResolvedType.java:52-63 | On a new object, parsing leaves the state equal to `Synth(t)`, for every kind of type |
| `Ast.AstResolvedType.ParseArray` | src/main/java/com/github/ayz6uem/restdoc/ast/ASTResolvedType.java:69-75 | The value is a one-element array holding the component's example; the component's rows are appended; name and primitive flag are unchanged |
| `Ast.AstResolvedType.ParsePojo` | src/main/java/com/github/ayz6uem/restdoc/ast/ASTResolvedType.java:82-102 | `Object` changes nothing; `String` sets primitive and `""`; otherwise the value is the object of all visited fields and the visited fields' rows are appended |
| `Ast.AstResolvedType.ParseAncestors` | src/main/java/com/github/ayz6uem/restdoc/ast/ASTResolvedType.java:94-99 | The loop over the direct ancestors: the shared node and the rows receive each ancestor's declared fields in ancestor order; name, value and primitive flag are unchanged |
| `Ast.AstResolvedType.ParseFields` | src/main/java/com/github/ayz6uem/restdoc/ast/ASTResolvedType.java:109-127 | Puts each declared field's example into the shared node and appends each field's row and then its nested rows; `Object` contributes nothing |
| `Ast.ObjectNode.PutPojo` | src/main/java/com/github/ayz6uem/restdoc/ast/ASTResolvedType.java:122 | The node's entries become `Put(old entries, key, value)` |
| `Ast.ArrayNode.AddPojo` | src/main/java/com/github/ayz6uem/restdoc/ast/ASTResolvedType.java:72 | The array gains the value as its last element |
| `Json.Put` | src/main/java/com/github/ayz6uem/restdoc/ast/ASTResolvedType.java:122 | Definition of `putPOJO` on the ordered entries: an existing key keeps its position and takes the new value, and a new key is appended at the end |
| `Synthesis.CellOf` | src/main/java/com/github/ayz6uem/restdoc/ast/ASTResolvedType.java:123 | Definition of the row built for a field: the field name, the type's name, and default `""` for a primitive type or the type's example otherwise |
| `Synthesis.PutAll` | src/main/java/com/github/ayz6uem/restdoc/ast/ASTResolvedType.java:115-122 | Definition of the run of `putPOJO` calls: each field's example is put under its name, in field order |
| `JavaTypes.DeclaredOf` | src/main/java/com/github/ayz6uem/restdoc/ast/ASTResolvedType.java:110-112 | Definition of the `java.lang.Object` guard: the root object type contributes no fields, and any other type contributes its own declared fields |
| `JavaTypes.AncestorFields` | src/main/java/com/github/ayz6uem/restdoc/ast/ASTResolvedType.java:95-99 | Definition of the ancestor walk: the declared fields of each direct ancestor in order, not including those ancestors' own ancestors |
| `JavaTypes.Visited` | src/main/java/com/github/ayz6uem/restdoc/ast/ASTResolvedType.java:95-100 | Definition of the whole visit: the ancestors' fields first, then the type's own declared fields |
| `Synthesis.AncestorCells` | src/main/java/com/github/ayz6uem/restdoc/ast/ASTResolvedType.java:95-99 | Definition of the ancestors' rows: each direct ancestor's field rows in ancestor order, none for `Object` |
| `JavaTypes.Describe` | src/main/java/com/github/ayz6uem/restdoc/ast/ASTResolvedType.java:53 | Definition of `describe()`: the name of a primitive, reference or other type, and the component's name followed by `[]` for an array |
| `Synthesis.Synth` | src/main/java/com/github/ayz6uem/restdoc/ast/ASTResolvedType.java:52-63 | The name is `describe()` for every kind; the result is primitive exactly when its example is the placeholder `0` or `""`; a primitive result has no rows |
| `Synthesis.FieldCells` | src/main/java/com/github/ayz6uem/restdoc/ast/ASTResolvedType.java:113-126 | Rows are never merged: a run of fields yields at least one row per field |
| `Synthesis.SynthWellFormed` | src/main/java/com/github/ayz6uem/restdoc/ast/ASTResolvedType.java:94-101 | Every example is a JSON tree in which no object repeats a key, however deeply types nest |
| `Synthesis.PutAllWellFormed` | src/main/java/com/github/ayz6uem/restdoc/ast/ASTResolvedType.java:113-126 | Putting the fields' examples keeps every value well formed and every key unique |
| `Synthesis.PrimitiveCase` | src/main/java/com/github/ayz6uem/restdoc/ast/ASTResolvedType.java:54-56 | A primitive type is primitive, has example `0` and no rows |
| `Synthesis.ArrayCase` | src/main/java/com/github/ayz6uem/restdoc/ast/ASTResolvedType.java:69-75 | An array is not primitive; its example holds exactly the component's example; its rows are the component's rows |
| `Synthesis.ObjectCase` | src/main/java/com/github/ayz6uem/restdoc/ast/ASTResolvedType.java:83-85 | `java.lang.Object` is terminal: example null, not primitive, no rows |
| `Synthesis.StringCase` | src/main/java/com/github/ayz6uem/restdoc/ast/ASTResolvedType.java:86-90 | `java.lang.String` is terminal and primitive, with example `""` and no rows |
| `Synthesis.OtherCase` | src/main/java/com/github/ayz6uem/restdoc/ast/ASTResolvedType.java:52-63 | A type that is neither primitive, array nor reference gets only its name |
| `Synthesis.CellDefault` | src/main/java/com/github/ayz6uem/restdoc/ast/ASTResolvedType.java:123 | A row carries the field name and the type's `describe()`; its default is `""` exactly when the field's type is primitive, otherwise the field's own example |
| `Synthesis.FieldCellsAppend` | src/main/java/com/github/ayz6uem/restdoc/ast/ASTResolvedType.java:113-126 | The rows of two runs of fields are the rows of the first run followed by the rows of the second |
| `Synthesis.FieldCellsSingle` | src/main/java/com/github/ayz6uem/restdoc/ast/ASTResolvedType.java:121-125 | One field gives its own row followed by its type's rows |
| `Synthesis.FieldCellsAt` | src/main/java/com/github/ayz6uem/restdoc/ast/ASTResolvedType.java:113-126 | Rows are a preorder: the i-th field's row comes right after the earlier fields' rows and is followed at once by its nested rows |
| `Synthesis.FieldCellsStep` | src/main/java/com/github/ayz6uem/restdoc/ast/ASTResolvedType.java:121-125 | One more loop iteration appends that field's row and nested rows |
| `Synthesis.PutAllStep` | src/main/java/com/github/ayz6uem/restdoc/ast/ASTResolvedType.java:121-122 | One more loop iteration puts that field's example under its name |
| `Synthesis.PutAllAppend` | src/main/java/com/github/ayz6uem/restdoc/ast/ASTResolvedType.java:96-100 | Putting two runs of fields into one shared node equals putting them one run after the other |
| `Synthesis.PutAllKeys` | src/main/java/com/github/ayz6uem/restdoc/ast/ASTResolvedType.java:115-122 | The keys after the puts are the earlier keys plus every field name |
| `Synthesis.PutAllUntouched` | src/main/java/com/github/ayz6uem/restdoc/ast/ASTResolvedType.java:122 | A key that no field carries keeps its earlier value |
| `Synthesis.PutAllLastWins` | src/main/java/com/github/ayz6uem/restdoc/ast/ASTResolvedType.java:122 | On a repeated name, the last field put decides the value |
| `Synthesis.AncestorCellsSplit` | src/main/java/com/github/ayz6uem/restdoc/ast/ASTResolvedType.java:95-99 | The ancestors' rows are each direct ancestor's rows, in ancestor order |
| `Synthesis.AncestorStep` | src/main/java/com/github/ayz6uem/restdoc/ast/ASTResolvedType.java:96-99 | One more ancestor iteration puts and appends that ancestor's declared fields (none for `Object`) |
| `Synthesis.VisitedSplit` | src/main/java/com/github/ayz6uem/restdoc/ast/ASTResolvedType.java:95-100 | The whole visit is all ancestors first, then the type's own declared fields, both for entries and for rows |
| `Synthesis.PojoCells` | src/main/java/com/github/ayz6uem/restdoc/ast/ASTResolvedType.java:95-100 | A plain object is not primitive; its rows are the direct ancestors' rows in order, then its own fields' rows; there are at least as many rows as visited fields |
| `Synthesis.PojoKeys` | src/main/java/com/github/ayz6uem/restdoc/ast/ASTResolvedType.java:94-101 | A plain object's example is an object whose keys are exactly the visited field names, each once |
| `Synthesis.PojoLastWins` | src/main/java/com/github/ayz6uem/restdoc/ast/ASTResolvedType.java:96-125 | Under each name, the example holds the value of the last (most derived) visited field with that name |
| `JavaTypes.AncestorFieldsMembers` | src/main/java/com/github/ayz6uem/restdoc/ast/ASTResolvedType.java:95-112 | A field is read from the ancestors exactly when some direct ancestor other than `Object` declares it |
| `JavaTypes.VisitedMembers` | src/main/java/com/github/ayz6uem/restdoc/ast/ASTResolvedType.java:95-112 | A field is visited exactly when the type or a direct non-`Object` ancestor declares it, so grandparent fields are not visited |
| `JavaTypes.AncestorFieldsSnoc` | src/main/java/com/github/ayz6uem/restdoc/ast/ASTResolvedType.java:96-98 | Walking one more ancestor adds that ancestor's own declared fields at the end |
| `Json.PutLookup` | src/main/java/com/github/ayz6uem/restdoc/ast/ASTResolvedType.java:122 | After `putPOJO`, the keys gain the key, the key maps to the new value, and every other key keeps its value |
| `Json.PutDistinct` | src/main/java/com/github/ayz6uem/restdoc/ast/ASTResolvedType.java:122 | `putPOJO` never creates a duplicate key |
| `Json.PutEntries` | src/main/java/com/github/ayz6uem/restdoc/ast/ASTResolvedType.java:122 | `putPOJO` adds no entry other than the one put |
| `Json.LookupFound` | src/main/java/com/github/ayz6uem/restdoc/ast/ASTResolvedType.java:122 | A key is found exactly when it is one of the object's keys |
| `Scenarios.TwoFields` | src/main/java/com/github/ayz6uem/restdoc/ast/ASTResolvedType.java:94-126 | A plain object that visits two fields: its example is the two puts in order, its rows are each field's row and nested rows in order |
| `Scenarios.PointExample` | src/main/java/com/github/ayz6uem/restdoc/ast/ASTResolvedType.java:94-126 | `Point { int x; int y; }` gives `{"x":0,"y":0}` and two rows with empty defaults |
| `Scenarios.WrapperExample` | src/main/java/com/github/ayz6uem/restdoc/ast/ASTResolvedType.java:69-126 | `Wrapper { Point p; String[] tags; }`: `p`'s row embeds `p`'s example and is followed by `p`'s rows; `tags`' default is `[""]` |
| `Scenarios.GrandparentExample` | src/main/java/com/github/ayz6uem/restdoc/ast/ASTResolvedType.java:95-100 | For C extends B extends A, A's field is in neither C's example nor C's rows |
| `Scenarios.ShadowExample` | src/main/java/com/github/ayz6uem/restdoc/ast/ASTResolvedType.java:96-125 | A derived field that reuses an inherited name overwrites the inherited value, and both fields keep their own row |

## Left out

- `src/main/java/com/github/ayz6uem/restdoc/handler/AsciidocHandler.java` is not part of this model. It drives an external AsciiDoc builder, pretty-prints through Jackson and writes a file. Its section numbering, fixed table header and skipping of empty tables are thin calls into builder APIs that are not visible here.
- Resolution by the source-analysis library is not modelled. The model covers `type.resolve()`, `describe()`, `getId()`, `getDirectAncestors()` and `getDeclaredFields()` as given data of the `Type` datatype. `Describe` assumes that an array is described as its component followed by `[]`, which is that library's convention.
- `Ast.AstResolvedType.OfSyntax`: only a failure of the outermost `type.resolve()` is modelled, as a `None` input. A failure raised later, while a field type or an ancestor is being resolved, also makes `of(Type)` return null in the source. The model leaves that case out because every `Type` here is fully resolved. The warning logged on failure is also left out.
- Self-referential and cyclic types are not modelled. Here `Type` is a well-founded datatype, so `Synth` and the methods terminate. The source recurses without bound on such types (`class N { N next; }`).
- Generic types and collection types have no special handling in the source (the TODO comments at ASTResolvedType.java:91-92 and :118-120). They go through the plain-object branch, as any other reference type does, and so they do here.
- The order of `getDeclaredFields()` is not modelled: the source gets the fields as a `Set` with no defined order. The model takes them as a given sequence, and every statement about order is relative to that sequence.
- Jackson's node classes are modelled by value. In Java, `setValue(objectNode)` stores a reference to the node. The model stores the node's entries as a `Json` value once the node is complete. Nothing changes the node after that, so the two agree, but the aliasing itself is not modelled.
- Position of keys: `Put` keeps a repeated key at its first position, as an insertion-ordered map does. No lemma states key order. The lemmas state only the key set, the uniqueness of keys and that the last value wins.
- `com/github/ayz6uem/restdoc/schema/Cell.java` is not part of this model. A row has the three values the source passes to its constructor (name, type name, default). The description column, which is never filled, is left out.
- The Java `name` field is null until `parse` sets it. The model starts it as the empty string, and `parse` always overwrites it.
- `Ast.AstResolvedType.ParseAncestors`: the loop over the ancestors is a separate method here, while the source writes it inline in `parsePojo`. The statements and their order are the same.
- Logging (`@Slf4j`) and the Lombok getters and setters are left out. In the model the getters are field reads and the setters are field assignments.

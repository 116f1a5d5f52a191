# Kani aggregate bridge, in Dafny

This project models the helpers in Kani's goto-program code generator that
connect Rust's compound pointer types to the flat struct encoding of the
goto-program IR that CBMC checks, and that emit sound placeholders for
constructs the generator cannot translate yet. They live in
`kani-compiler/src/codegen_cprover_gotoc/utils/utils.rs`:

- the **fat-pointer builders** `slice_fat_ptr` (`{data, len}`) and
  `dynamic_fat_ptr` (`{data, vtable}`);
- `extract_const_message`, which recovers a string literal from a
  `&str`-like aggregate;
- the **unsupported-construct emitter** `codegen_unimplemented`, its
  registry `unsupported_constructs`, and the message `unsupported_msg`;
- `is_ptr_aligned`, which builds `(ptr as size_t) % align == 0`;
- the **`Box` layout check** (`assert_is_rust_box_like` and the checks for
  `Unique`, `NonNull`, `PhantomData` and `Global`), and the **projection
  and construction** `deref_box` and `box_value` along the field path
  `RAW_PTR_FROM_BOX = ["0", "pointer", "pointer"]`.

Files:

- `goto_program.dfy` (module `GotoProgram`): the goto IR as datatypes
  (`Type`, `Component`, `Expr`, `ExprValue`, `Stmt`, `Location`), the
  symbol table as a map from struct tag to its ordered components, and the
  IR constructors the bridge calls (`StructExpr`,
  `StructExprWithNondetFields`, `MemberOf`, `NondetOf`, `CastTo`, ...),
  stated by their contracts. Every panic (`assert!`, `unwrap` of `None`,
  an index out of range) is the `Abort` case of `Result`: a fatal error
  that ends the compilation.
- `semantics.dfy` (module `Semantics`): a reference meaning used to state
  what the built expressions do: `EvalInt`/`EvalBool` for scalar
  expressions, `Reduce` for member accesses on struct literals, and `Run`
  for how the model checker walks a statement block (reported assertion
  failures, path feasibility, the value produced).
- `utils.dfy` (module `Utils`): the core. `GotocCtx` is a class holding the
  symbol table and the registry. `CodegenUnimplemented` updates the
  registry in place. `BoxValue` is written as loops: it resolves the field
  types along the path (`ResolveOuterTypes`) and then folds the structs
  back from the innermost level (`FoldIntoStructs`). The other operations
  are functions.

What is proved, in the system's terms:

- A slice or trait-object pointer has the struct type it was asked for.
  Its field map is exactly `{data ↦ d, len ↦ l}` (or
  `{data ↦ d, vtable ↦ v}`), whatever order the struct declares them in.
  It is built exactly when the struct declares those two fields and no
  others.
- The extractor returns a message exactly for an aggregate whose first
  value is `&StringConstant(s)[_]`. It recovers the message of a string
  slice exactly when the slice type declares `data` first.
- Each call of the emitter appends its location to that construct's entry
  and creates an empty entry first if needed. Entries are never
  deduplicated, and other constructs are left unchanged. A sequence of
  calls records its locations in call order.
- The placeholder has the requested type. It holds exactly three
  statements: a failing assertion carrying the message, `assume(false)`,
  and an unconstrained value. On every path the model checker reports
  exactly that assertion, and the path becomes infeasible before the
  value can be used.
- The alignment predicate evaluates to `addr % align == 0`, so it always
  holds for alignment 1.
- The `Box` check accepts every type with the exact expected layout. On a
  symbol table where no struct repeats a field name, it accepts nothing
  else. Following `RAW_PTR_FROM_BOX` from an accepted `Box` reaches a thin
  or fat raw pointer.
- `deref_box(box_value(v, T))` reduces to `v`. `box_value` sets only the
  walked field at each of the three levels and leaves every other field
  unconstrained. On a well-formed symbol table it succeeds for every
  accepted `T`.

Behaviour of the code worth knowing:

- The `Box` and `Unique` checks test each field by its own name
  (utils.rs:195-201, 216-222), so a struct declaring field `0` twice passes
  the `Box` check. `BoxCheckAcceptsRepeatedField` exhibits this. The
  exact-layout equivalence is proved only for symbol tables whose structs
  have distinct field names, which the compiler always produces; the
  source calls the check "best effort" (utils.rs:183).
- `extract_const_message` indexes `values[0]` without a guard
  (utils.rs:30), so an aggregate with no values is a fatal error, not "no
  message".
- `box_value` sets only the raw-pointer field at each level and leaves the
  others unconstrained (utils.rs:156-162). The round trip that holds is
  therefore projection after construction; construction after projection
  cannot give back those unconstrained fields.
- The field path `RAW_PTR_FROM_BOX` (utils.rs:112) is the constant
  `RawPtrFromBox`; both `deref_box` and `box_value` walk it.

## Model

| member | source | states |
|---|---|---|
| Utils.SliceFatPtr | kani-compiler/src/codegen_cprover_gotoc/utils/utils.rs:16-18 | built exactly when the struct declares just `data` and `len`; result has type `typ` and field map exactly `{data ↦ data, len ↦ len}` |
| Utils.DynamicFatPtr | kani-compiler/src/codegen_cprover_gotoc/utils/utils.rs:20-22 | built exactly when the struct declares just `data` and `vtable`; result has type `typ` and field map exactly `{data ↦ data, vtable ↦ vtable}` |
| Utils.SliceFatPtrOrderIndependent | kani-compiler/src/codegen_cprover_gotoc/utils/utils.rs:16-18 | the field map of a slice pointer is the same whatever order the struct declares its two fields in |
| Utils.ExtractConstMessage | kani-compiler/src/codegen_cprover_gotoc/utils/utils.rs:27-41 | `Some(s)` exactly when the first value is `&StringConstant(s)[_]`; fatal exactly on an aggregate with no values; `None` on every other shape |
| Utils.ExtractConstMessageOfStringSlice | kani-compiler/src/codegen_cprover_gotoc/utils/utils.rs:27-41 | a string slice built by `slice_fat_ptr` yields its message when `data` is declared first, and no message otherwise |
| Utils.ExtractConstMessageOfVariable | kani-compiler/src/codegen_cprover_gotoc/utils/utils.rs:30-35 | the address of a variable (not an index of a string constant) yields no message |
| Utils.UnsupportedMsg | kani-compiler/src/codegen_cprover_gotoc/utils/utils.rs:96-103 | the message is the item, then " is not currently supported by Kani", then (only with a URL) ". Please post your example at " and the URL |
| Utils.UnsupportedMsgNamesItem | kani-compiler/src/codegen_cprover_gotoc/utils/utils.rs:96-103 | the item is determined by the message; the message without a URL is a prefix of the one with it |
| Utils.Record | kani-compiler/src/codegen_cprover_gotoc/utils/utils.rs:60-64 | the construct's entry becomes its old locations (none if absent) plus the new one at the end; keys grow by the name only; other entries unchanged |
| Utils.RecordAllAppends | kani-compiler/src/codegen_cprover_gotoc/utils/utils.rs:60-64 | after several occurrences, the entry is the old one followed by all their locations in call order; other constructs unchanged |
| Utils.RecordKeepsDuplicates | kani-compiler/src/codegen_cprover_gotoc/utils/utils.rs:64 | a location already recorded is recorded once more; entries are never deduplicated |
| Utils.GotocCtx.CodegenUnimplemented | kani-compiler/src/codegen_cprover_gotoc/utils/utils.rs:51-79 | the registry becomes `Record(old registry, name, loc)`; the result is the three-statement placeholder of type `t` at `loc` whose assertion carries `unsupported_msg(name, Some(url))` |
| Utils.PlaceholderIsSound | kani-compiler/src/codegen_cprover_gotoc/utils/utils.rs:66-78 | running the placeholder reports exactly its one assertion, leaves the path infeasible and never produces the unconstrained value |
| Utils.IsPtrAligned | kani-compiler/src/codegen_cprover_gotoc/utils/utils.rs:83-94 | fatal exactly when the type is not a pointer; otherwise a boolean expression |
| Utils.IsPtrAlignedMeans | kani-compiler/src/codegen_cprover_gotoc/utils/utils.rs:81-94 | for an address below 2^64 and alignment at least 1, the expression evaluates to `addr % align == 0` |
| Utils.IsPtrAlignedToOne | kani-compiler/src/codegen_cprover_gotoc/utils/utils.rs:81-94 | with alignment 1 the expression is true for every address |
| Utils.IsPtrAlignedToEight | kani-compiler/src/codegen_cprover_gotoc/utils/utils.rs:81-94 | with alignment 8, true for an address ≡ 0 and false for one ≡ 4 (mod 8) |
| Utils.IsRustGlobalAllocLike | kani-compiler/src/codegen_cprover_gotoc/utils/utils.rs:166-172 | accepts exactly a struct type the symbol table knows and that has no fields |
| Utils.IsRustPhantomDataLike | kani-compiler/src/codegen_cprover_gotoc/utils/utils.rs:175-181 | accepts exactly a struct type the symbol table knows and that has no fields |
| Utils.IsNonNullLike | kani-compiler/src/codegen_cprover_gotoc/utils/utils.rs:233-240 | an accepted type is a known struct whose only field is `pointer`, and that field resolves to a thin or fat pointer |
| Utils.IsUniqueComponent | kani-compiler/src/codegen_cprover_gotoc/utils/utils.rs:216-222 | an accepted field is named `_marker` or `pointer`; a `_marker` field has an empty struct type |
| Utils.IsRustUniquePointerLike | kani-compiler/src/codegen_cprover_gotoc/utils/utils.rs:205-223 | an accepted type is a known struct with exactly two fields, each named `_marker` or `pointer` |
| Utils.IsBoxComponent | kani-compiler/src/codegen_cprover_gotoc/utils/utils.rs:195-201 | an accepted field is named `0` or `1`; a `1` field has an empty struct type |
| Utils.IsRustBoxLike | kani-compiler/src/codegen_cprover_gotoc/utils/utils.rs:184-202 | an accepted type is a known struct with exactly two fields, each named `0` or `1` |
| Utils.UniquePointerLikeExact | kani-compiler/src/codegen_cprover_gotoc/utils/utils.rs:204-240 | the `Unique` check accepts every struct with exactly `_marker` (empty struct) and `pointer` (a `NonNull` whose one field `pointer` is a thin or fat pointer); with distinct field names it accepts only those |
| Utils.BoxLikeExact | kani-compiler/src/codegen_cprover_gotoc/utils/utils.rs:165-202 | the `Box` check accepts every struct with exactly `0` (`Unique`-like) and `1` (empty struct); with distinct field names it accepts only those |
| Utils.BoxCheckAcceptsRepeatedField | kani-compiler/src/codegen_cprover_gotoc/utils/utils.rs:195-201 | a struct declaring field `0` twice passes the `Box` check without having the exact layout |
| Utils.BoxPathReachesPointer | kani-compiler/src/codegen_cprover_gotoc/utils/utils.rs:184-240 | from an accepted `Box`, the path `0.pointer.pointer` ends at a thin or fat pointer, and always resolves on a well-formed symbol table |
| Utils.ProjectPath | kani-compiler/src/codegen_cprover_gotoc/utils/utils.rs:135 | the member fold succeeds exactly when every field along the path resolves, and the result has the type at the end of the path |
| Utils.OuterTypes | kani-compiler/src/codegen_cprover_gotoc/utils/utils.rs:147-154 | pairs each path field `path[k]`, in order, with the struct type it belongs to, which is the type reached by following `path[..k]` from the given type; defined exactly when the path resolves |
| Utils.GotocCtx.DerefBox | kani-compiler/src/codegen_cprover_gotoc/utils/utils.rs:128-136 | fatal for a type the `Box` check rejects; a result is a thin or fat pointer; always defined for an accepted type on a well-formed symbol table |
| Utils.Wrap | kani-compiler/src/codegen_cprover_gotoc/utils/utils.rs:156-162 | with no levels the result is the value itself; otherwise the result has the outermost level's type and gives every field except the walked one an unconstrained value |
| Utils.BoxedValue | kani-compiler/src/codegen_cprover_gotoc/utils/utils.rs:143-163 | fatal for a type the `Box` check rejects and for one whose path does not resolve; a result has the requested type and leaves every field except `0` unconstrained |
| Utils.GotocCtx.BoxValue | kani-compiler/src/codegen_cprover_gotoc/utils/utils.rs:143-163 | equals `BoxedValue`: fatal for a rejected type, otherwise the structs rebuilt around the raw pointer along `RAW_PTR_FROM_BOX` |
| Utils.GotocCtx.ResolveOuterTypes | kani-compiler/src/codegen_cprover_gotoc/utils/utils.rs:146-154 | the loop that updates the inner type computes exactly `OuterTypes` of the path |
| Utils.GotocCtx.FoldIntoStructs | kani-compiler/src/codegen_cprover_gotoc/utils/utils.rs:156-162 | the reverse fold computes exactly `Wrap`: each level sets its walked field to the level below, the rest nondet |
| Utils.WrapDefined | kani-compiler/src/codegen_cprover_gotoc/utils/utils.rs:156-162 | when every field type along the path resolves, the fold succeeds and has the outer type |
| Utils.ProjectWrapped | kani-compiler/src/codegen_cprover_gotoc/utils/utils.rs:128-163 | projecting a path through a value built by the fold leads back to the inner value, through structs that set only the walked field |
| Utils.BoxRoundTrip | kani-compiler/src/codegen_cprover_gotoc/utils/utils.rs:128-163 | `deref_box(box_value(v, T))` is defined and reduces to `v`; the box has type `T` and sets only the walked field at each of the three levels |
| Utils.BoxValueDefined | kani-compiler/src/codegen_cprover_gotoc/utils/utils.rs:143-163 | on a well-formed symbol table, `box_value` succeeds for every type the `Box` check accepts |

## Left out

- `emit_error_and_exit` and `get_crate` (lines 105-118) call the rustc session and crate queries, which are foreign code.
- CastTo: `Expr::cast_to` is not part of this model, and its own checks on which casts are allowed are not modelled; the cast always succeeds, so `IsPtrAligned` accepts a fat-pointer (struct-typed) operand as well.
- The rustc type queries `is_pointer` and `pointee_type`, and the layout oracle `layout_of` (lines 85-88), are foreign. The front-end type is modelled as a small `RustTy`. The pointee's alignment is an input to `IsPtrAligned`.
- IsPtrAligned: its contract gives the result's type and its pointer guard. What the expression computes is stated by `IsPtrAlignedMeans` over the evaluator, not as the literal expression tree.
- The diagnostic text of each panic is not modelled; every panic is the same `Abort`.
- `tracing::debug!` logging and `Location::short_string` rendering are diagnostics only.
- Serialisation of the produced expressions into CBMC's format is not modelled. Neither is any concurrency around the shared registry.
- The internals of `codegen_assert_false` are not modelled: it is taken to build `assert(false)` with the property class and message.
- The consistency checks inside `Expr::struct_expr` and `struct_expr_with_nondet_fields` are modelled only as the field-name conditions under which they succeed. Value types are not checked against field types, and padding components are not modelled.
- Inline (untagged) struct types and unions are not modelled; every struct-like type is a tag into the symbol table.
- The fat-pointer test `is_rust_fat_ptr` lives in `codegen/typ.rs`, which is not part of this model. It is taken to mean two components: a pointer `data`, plus an integer `len` or a pointer `vtable`.
- `unsupported_msg` builds its string with `push_str` on a local; the model states the same string as a concatenation.
- The read of the registry at the end of compilation is not part of this file and is not modelled.
- `size_t` is taken to be 64 bits wide. The cast of a pointer to `size_t` is modelled as its address modulo 2^64.

/**
 * The aggregate bridge of the goto-program code generator: fat-pointer
 * builders, the constant-message extractor, the unsupported-construct
 * emitter and its registry, the pointer-alignment predicate, and the
 * projection to and construction from the raw pointer inside a `Box`,
 * guarded by a structural check of the `Box` layout.
 */
module Utils {
  import opened GotoProgram
  import opened Semantics

  // ---------------------------------------------------------------------
  // Fat pointers

  /** A slice pointer `{ data, len }` of struct type `typ`. */
  function SliceFatPtr(typ: Type, data: Expr, len: Expr, st: SymbolTable): (r: Result<Expr>)
    ensures r.Ok? <==> IsStructLike(typ) && typ.tag in st && NamesOf(st[typ.tag]) == {"data", "len"} && DistinctNames(st[typ.tag])
    ensures r.Ok? ==> r.value.typ == typ && r.value.value.Struct? && |r.value.value.values| == |st[typ.tag]|
    ensures r.Ok? ==> FieldMap(st[typ.tag], r.value.value.values) == map["data" := data, "len" := len]
  {
    StructExpr(typ, map["data" := data, "len" := len], st)
  }

  /** A trait-object pointer `{ data, vtable }` of struct type `typ`. */
  function DynamicFatPtr(typ: Type, data: Expr, vtable: Expr, st: SymbolTable): (r: Result<Expr>)
    ensures r.Ok? <==> IsStructLike(typ) && typ.tag in st && NamesOf(st[typ.tag]) == {"data", "vtable"} && DistinctNames(st[typ.tag])
    ensures r.Ok? ==> r.value.typ == typ && r.value.value.Struct? && |r.value.value.values| == |st[typ.tag]|
    ensures r.Ok? ==> FieldMap(st[typ.tag], r.value.value.values) == map["data" := data, "vtable" := vtable]
  {
    StructExpr(typ, map["data" := data, "vtable" := vtable], st)
  }

  /** The field map of a slice pointer does not depend on the order in which
      its struct declares `data` and `len`. */
  lemma SliceFatPtrOrderIndependent(typ: Type, data: Expr, len: Expr, st1: SymbolTable, st2: SymbolTable)
    requires SliceFatPtr(typ, data, len, st1).Ok? && SliceFatPtr(typ, data, len, st2).Ok?
    ensures FieldMap(st1[typ.tag], SliceFatPtr(typ, data, len, st1).value.value.values)
         == FieldMap(st2[typ.tag], SliceFatPtr(typ, data, len, st2).value.value.values)
  {
  }

  // ---------------------------------------------------------------------
  // Constant messages

  /** `arg` is an aggregate whose first value is `&s[_]` for the string
      constant `s`. */
  predicate IsConstMessagePointer(arg: Expr, s: string)
  {
    && arg.value.Struct?
    && |arg.value.values| > 0
    && arg.value.values[0].value.AddressOf?
    && arg.value.values[0].value.target.value.Index?
    && arg.value.values[0].value.target.value.arrayExpr.value == StringConstant(s)
  }

  /** The string constant an aggregate's first value points into, if it has
      that shape. Taking the first value of an aggregate with no values is a
      fatal error. */
  function ExtractConstMessage(arg: Expr): (r: Result<Option<string>>)
    ensures r.Abort? <==> arg.value.Struct? && |arg.value.values| == 0
    ensures forall s :: r == Ok(Some(s)) <==> IsConstMessagePointer(arg, s)
  {
    match arg.value
    case Struct(values) =>
      if |values| == 0 then Abort
      else
        (match values[0].value
         case AddressOf(address) =>
           (match address.value
            case Index(arr, _) =>
              (match arr.value
               case StringConstant(s) => Ok(Some(s))
               case _ => Ok(None))
            case _ => Ok(None))
         case _ => Ok(None))
    case _ => Ok(None)
  }

  /** A slice pointer to a string literal, as built for a message argument. */
  function StringSlice(typ: Type, s: string, st: SymbolTable): Result<Expr>
  {
    var data := Expr(AddressOf(Expr(Index(Expr(StringConstant(s), Array(Unsignedbv(8), |s|), NoLocation),
                                          ZeroOf(SizeT)), Unsignedbv(8), NoLocation)),
                     Pointer(Unsignedbv(8)), NoLocation);
    SliceFatPtr(typ, data, IntConstantOf(|s|, SizeT), st)
  }

  /** The extractor recovers the message of a string slice exactly when the
      slice type declares `data` before `len`. */
  lemma ExtractConstMessageOfStringSlice(typ: Type, s: string, st: SymbolTable)
    requires StringSlice(typ, s, st).Ok?
    ensures st[typ.tag][0].name == "data" ==> ExtractConstMessage(StringSlice(typ, s, st).value) == Ok(Some(s))
    ensures st[typ.tag][0].name != "data" ==> ExtractConstMessage(StringSlice(typ, s, st).value) == Ok(None)
  {
    var cs := st[typ.tag];
    var e := StringSlice(typ, s, st).value;
    assert "data" in NamesOf(cs);
    assert |cs| > 0;
    FieldMapAt(cs, e.value.values, 0);
    if cs[0].name != "data" {
      assert cs[0].name == "len";
      assert e.value.values[0] == IntConstantOf(|s|, SizeT);
    }
  }

  lemma FieldMapAt(cs: seq<Component>, values: seq<Expr>, j: nat)
    requires |cs| == |values| && DistinctNames(cs) && j < |cs|
    ensures cs[j].name in FieldMap(cs, values) && FieldMap(cs, values)[cs[j].name] == values[j]
  {
  }

  /** A pointer to a variable carries no constant message. */
  lemma ExtractConstMessageOfVariable(x: string, t: Type)
    ensures ExtractConstMessage(Expr(Struct([Expr(AddressOf(Expr(Symbol(x), t, NoLocation)), Pointer(t), NoLocation)]),
                                     StructTag("&str"), NoLocation)) == Ok(None)
  {
  }

  // ---------------------------------------------------------------------
  // Unsupported constructs

  const NotSupported: string := " is not currently supported by Kani"
  const PostExampleAt: string := ". Please post your example at "

  /** The message of the assertion that flags an unsupported construct. */
  function UnsupportedMsg(item: string, url: Option<string>): (s: string)
    ensures |s| >= |item| + |NotSupported|
    ensures s[..|item|] == item
    ensures s[|item|..|item| + |NotSupported|] == NotSupported
    ensures url.None? ==> |s| == |item| + |NotSupported|
    ensures url.Some? ==> s[|item| + |NotSupported|..] == PostExampleAt + url.value
  {
    var s := item + NotSupported;
    match url
    case None => s
    case Some(u) =>
      assert (s + PostExampleAt + u)[..|s|] == s;
      s + PostExampleAt + u
  }

  /** The message without a link is the start of the message with one, and
      the construct name can be read back from either. */
  lemma UnsupportedMsgNamesItem(a: string, b: string, url: Option<string>)
    ensures UnsupportedMsg(a, url) == UnsupportedMsg(b, url) ==> a == b
    ensures url.Some? ==> UnsupportedMsg(a, None) <= UnsupportedMsg(a, url)
  {
    if UnsupportedMsg(a, url) == UnsupportedMsg(b, url) {
      var ma, mb := UnsupportedMsg(a, url), UnsupportedMsg(b, url);
      assert |a| == |b| by {
        if url.Some? {
          assert |ma| == |a| + |NotSupported| + |PostExampleAt| + |url.value|;
          assert |mb| == |b| + |NotSupported| + |PostExampleAt| + |url.value|;
        }
      }
      assert a == ma[..|a|] == mb[..|b|] == b;
    }
    if url.Some? {
      var short, long := UnsupportedMsg(a, None), UnsupportedMsg(a, url);
      assert long == short + PostExampleAt + url.value;
    }
  }

  /** The locations recorded for a construct so far. */
  function Occurrences(reg: map<string, seq<Location>>, name: string): seq<Location>
  {
    if name in reg then reg[name] else []
  }

  /** The registry after one more occurrence of `name` at `loc`. */
  function Record(reg: map<string, seq<Location>>, name: string, loc: Location): (r: map<string, seq<Location>>)
    ensures r.Keys == reg.Keys + {name}
    ensures Occurrences(r, name) == Occurrences(reg, name) + [loc]
    ensures forall k :: k != name ==> Occurrences(r, k) == Occurrences(reg, k)
  {
    reg[name := Occurrences(reg, name) + [loc]]
  }

  /** The registry after the occurrences `locs` of `name`, in order. */
  function RecordAll(reg: map<string, seq<Location>>, name: string, locs: seq<Location>): map<string, seq<Location>>
    decreases |locs|
  {
    if locs == [] then reg else RecordAll(Record(reg, name, locs[0]), name, locs[1..])
  }

  /** Occurrences are kept in call order and never merged, and other
      constructs are untouched. */
  lemma {:induction false} RecordAllAppends(reg: map<string, seq<Location>>, name: string, locs: seq<Location>)
    ensures Occurrences(RecordAll(reg, name, locs), name) == Occurrences(reg, name) + locs
    ensures forall k :: k != name ==> Occurrences(RecordAll(reg, name, locs), k) == Occurrences(reg, k)
    ensures RecordAll(reg, name, locs).Keys == if locs == [] then reg.Keys else reg.Keys + {name}
    decreases |locs|
  {
    if locs != [] {
      var reg1 := Record(reg, name, locs[0]);
      RecordAllAppends(reg1, name, locs[1..]);
      assert [locs[0]] + locs[1..] == locs;
      assert Occurrences(reg, name) + [locs[0]] + locs[1..] == Occurrences(reg, name) + locs;
    }
  }

  /** Recording a location that is already recorded still adds it. */
  lemma RecordKeepsDuplicates(reg: map<string, seq<Location>>, name: string, loc: Location)
    requires loc in Occurrences(reg, name)
    ensures |Occurrences(Record(reg, name, loc), name)| == |Occurrences(reg, name)| + 1
    ensures multiset(Occurrences(Record(reg, name, loc), name))[loc] == multiset(Occurrences(reg, name))[loc] + 1
  {
  }

  /** The placeholder expression for an unsupported construct of type `t`:
      a failing assertion carrying `msg`, an `assume(false)`, and an
      unconstrained value of type `t`, in that order. */
  predicate IsUnsupportedPlaceholder(e: Expr, t: Type, msg: string, loc: Location)
  {
    && e.typ == t
    && e.loc == loc
    && e.value.StatementExpression?
    && |e.value.statements| == 3
    && e.value.statements[0] == Assert(BoolFalse(), UnsupportedConstruct, msg, loc)
    && e.value.statements[1] == Assume(BoolFalse(), loc)
    && e.value.statements[2] == Expression(NondetOf(t), loc)
  }

  /** On every path through a placeholder, the model checker reports exactly
      its one failing assertion, the path becomes infeasible, and the
      unconstrained value is never produced on a feasible path. */
  lemma PlaceholderIsSound(e: Expr, t: Type, msg: string, loc: Location, env: map<string, int>)
    requires IsUnsupportedPlaceholder(e, t, msg, loc)
    ensures Run(e.value.statements, Start, env) == Trace([msg], false, None)
  {
    var ss := e.value.statements;
    var t1 := Step(Start, ss[0], env);
    assert t1 == Trace([msg], true, None);
    var t2 := Step(t1, ss[1], env);
    assert t2 == Trace([msg], false, None);
    assert Step(t2, ss[2], env) == t2;
    assert ss[1..][0] == ss[1] && ss[1..][1..][0] == ss[2] && ss[1..][1..][1..] == [];
    assert Run(ss[1..][1..][1..], t2, env) == t2;
    assert Run(ss[1..][1..], t2, env) == t2;
    assert Run(ss[1..], t1, env) == t2;
  }

  // ---------------------------------------------------------------------
  // Pointer alignment

  /** The part of a front-end type the alignment builder inspects. */
  datatype RustTy = RustRawPtr(pointee: RustTy) | RustRef(pointee: RustTy) | RustOther(name: string)

  predicate IsRustPointer(ty: RustTy) { ty.RustRawPtr? || ty.RustRef? }

  /** `(ptr as size_t) % align == 0`, where `align` is the alignment the
      layout oracle reports for the pointee of `typ`. A `typ` that is not a
      pointer is a fatal error. */
  function IsPtrAligned(typ: RustTy, align: nat, ptr: Expr): (r: Result<Expr>)
    ensures r.Ok? <==> IsRustPointer(typ)
    ensures r.Ok? ==> r.value.typ == Bool
  {
    if !IsRustPointer(typ) then Abort
    else
      var alignment := IntConstantOf(align, SizeT);
      var castPtr := CastTo(ptr, SizeT);
      var zero := ZeroOf(SizeT);
      Ok(EqOf(RemOf(castPtr, alignment), zero))
  }

  /** The alignment predicate holds of an address exactly when the address
      is a multiple of the alignment. */
  lemma IsPtrAlignedMeans(typ: RustTy, align: nat, ptr: Expr, env: map<string, int>, addr: int)
    requires IsRustPointer(typ) && align >= 1
    requires EvalInt(ptr, env) == Some(addr) && 0 <= addr < SizeTModulus
    ensures EvalBool(IsPtrAligned(typ, align, ptr).value, env) == Some(addr % align == 0)
  {
    var castPtr := CastTo(ptr, SizeT);
    assert EvalInt(castPtr, env) == Some(addr);
    var rem := RemOf(castPtr, IntConstantOf(align, SizeT));
    assert EvalInt(rem, env) == Some(addr % align);
  }

  /** Every address satisfies an alignment of one. */
  lemma IsPtrAlignedToOne(typ: RustTy, ptr: Expr, env: map<string, int>, addr: int)
    requires IsRustPointer(typ)
    requires EvalInt(ptr, env) == Some(addr) && 0 <= addr < SizeTModulus
    ensures EvalBool(IsPtrAligned(typ, 1, ptr).value, env) == Some(true)
  {
    IsPtrAlignedMeans(typ, 1, ptr, env, addr);
  }

  /** With alignment eight, an address that is 0 mod 8 passes and one that is
      4 mod 8 fails. */
  lemma IsPtrAlignedToEight(typ: RustTy, ptr: Expr, env: map<string, int>, addr: int)
    requires IsRustPointer(typ)
    requires EvalInt(ptr, env) == Some(addr) && 0 <= addr < SizeTModulus
    ensures addr % 8 == 0 ==> EvalBool(IsPtrAligned(typ, 8, ptr).value, env) == Some(true)
    ensures addr % 8 == 4 ==> EvalBool(IsPtrAligned(typ, 8, ptr).value, env) == Some(false)
  {
    IsPtrAlignedMeans(typ, 8, ptr, env, addr);
  }

  // ---------------------------------------------------------------------
  // Box shape check

  /** A slice pointer `{ data: *_, len: integer }` or a trait-object pointer
      `{ data: *_, vtable: *_ }`. */
  predicate IsRustFatPtr(t: Type, st: SymbolTable)
  {
    && IsStructLike(t) && t.tag in st
    && |st[t.tag]| == 2
    && (exists j :: 0 <= j < 2 && st[t.tag][j].name == "data" && IsPointer(st[t.tag][j].typ))
    && (exists j :: 0 <= j < 2 && ((st[t.tag][j].name == "len" && IsInteger(st[t.tag][j].typ))
                                || (st[t.tag][j].name == "vtable" && IsPointer(st[t.tag][j].typ))))
  }

  /** `std::alloc::Global`: a struct with no fields. */
  predicate IsRustGlobalAllocLike(t: Type, st: SymbolTable): (b: bool)
    ensures b <==> LookupComponents(t, st) == Some([])
  {
    IsStructLike(t) && LookupComponents(t, st).Some? && |LookupComponents(t, st).value| == 0
  }

  /** `std::marker::PhantomData`: a struct with no fields. */
  predicate IsRustPhantomDataLike(t: Type, st: SymbolTable): (b: bool)
    ensures b <==> LookupComponents(t, st) == Some([])
  {
    IsStructLike(t) && LookupComponents(t, st).Some? && |LookupComponents(t, st).value| == 0
  }

  /** `std::ptr::NonNull { pointer: *T }`, where the pointer may be fat. */
  predicate IsNonNullLike(t: Type, st: SymbolTable): (b: bool)
    ensures b ==> IsStructLike(t) && t.tag in st && NamesOf(st[t.tag]) == {"pointer"}
    ensures b ==> (&& LookupFieldType(t, "pointer", st).Some?
                   && (IsPointer(LookupFieldType(t, "pointer", st).value) || IsRustFatPtr(LookupFieldType(t, "pointer", st).value, st)))
  {
    && IsStructLike(t) && LookupComponents(t, st).Some?
    && |st[t.tag]| == 1
    && st[t.tag][0].name == "pointer"
    && (IsPointer(st[t.tag][0].typ) || IsRustFatPtr(st[t.tag][0].typ, st))
  }

  /** One field of `std::ptr::Unique`, checked by its name; any other name
      is a fatal error. */
  predicate IsUniqueComponent(c: Component, st: SymbolTable): (b: bool)
    ensures b ==> c.name in {"_marker", "pointer"}
    ensures b && c.name == "_marker" ==> LookupComponents(c.typ, st) == Some([])
  {
    if c.name == "_marker" then IsRustPhantomDataLike(c.typ, st)
    else if c.name == "pointer" then IsNonNullLike(c.typ, st)
    else false
  }

  /** `std::ptr::Unique { _marker: PhantomData, pointer: NonNull }`, checked
      as two fields each of which passes the check for its name. */
  predicate IsRustUniquePointerLike(t: Type, st: SymbolTable): (b: bool)
    ensures b ==> IsStructLike(t) && t.tag in st && |st[t.tag]| == 2 && NamesOf(st[t.tag]) <= {"_marker", "pointer"}
  {
    && IsStructLike(t) && LookupComponents(t, st).Some?
    && |st[t.tag]| == 2
    && forall j :: 0 <= j < 2 ==> IsUniqueComponent(st[t.tag][j], st)
  }

  /** One field of `std::boxed::Box`, checked by its name. */
  predicate IsBoxComponent(c: Component, st: SymbolTable): (b: bool)
    ensures b ==> c.name in {"0", "1"}
    ensures b && c.name == "1" ==> LookupComponents(c.typ, st) == Some([])
  {
    if c.name == "0" then IsRustUniquePointerLike(c.typ, st)
    else if c.name == "1" then IsRustGlobalAllocLike(c.typ, st)
    else false
  }

  /** `std::boxed::Box { 0: Unique, 1: Global }`, checked as two fields each
      of which passes the check for its name. */
  predicate IsRustBoxLike(t: Type, st: SymbolTable): (b: bool)
    ensures b ==> IsStructLike(t) && t.tag in st && |st[t.tag]| == 2 && NamesOf(st[t.tag]) <= {"0", "1"}
  {
    && IsStructLike(t) && LookupComponents(t, st).Some?
    && |st[t.tag]| == 2
    && forall j :: 0 <= j < 2 ==> IsBoxComponent(st[t.tag][j], st)
  }

  /** The exact expected layout of `Unique`: the two field names, each once,
      and the shape of each field's type. */
  predicate UniqueShape(t: Type, st: SymbolTable)
  {
    && IsStructLike(t) && t.tag in st
    && |st[t.tag]| == 2 && NamesOf(st[t.tag]) == {"_marker", "pointer"}
    && LookupFieldType(t, "_marker", st).Some? && IsRustPhantomDataLike(LookupFieldType(t, "_marker", st).value, st)
    && LookupFieldType(t, "pointer", st).Some? && IsNonNullLike(LookupFieldType(t, "pointer", st).value, st)
  }

  /** The exact expected layout of `Box`. */
  predicate BoxShape(t: Type, st: SymbolTable)
  {
    && IsStructLike(t) && t.tag in st
    && |st[t.tag]| == 2 && NamesOf(st[t.tag]) == {"0", "1"}
    && LookupFieldType(t, "0", st).Some? && UniqueShape(LookupFieldType(t, "0", st).value, st)
    && LookupFieldType(t, "1", st).Some? && IsRustGlobalAllocLike(LookupFieldType(t, "1", st).value, st)
  }

  /** Two components whose names are two different elements of `{a, b}`
      carry exactly those names. */
  lemma TwoNames(cs: seq<Component>, a: string, b: string)
    requires |cs| == 2 && a != b
    ensures NamesOf(cs) == {a, b} <==> (cs[0].name in {a, b} && cs[1].name in {a, b} && cs[0].name != cs[1].name)
  {
    assert NamesOf(cs) == {cs[0].name, cs[1].name} by {
      forall n | n in NamesOf(cs) ensures n in {cs[0].name, cs[1].name} {
        var j :| 0 <= j < |cs| && cs[j].name == n;
      }
      assert cs[0].name in NamesOf(cs);
      assert cs[1].name in NamesOf(cs);
    }
  }

  /** The `Unique` check accepts every type of the exact layout, and on a
      symbol table without repeated field names it accepts nothing else. */
  lemma UniquePointerLikeExact(t: Type, st: SymbolTable)
    ensures UniqueShape(t, st) ==> IsRustUniquePointerLike(t, st)
    ensures WellFormedTable(st) && IsRustUniquePointerLike(t, st) ==> UniqueShape(t, st)
  {
    if IsStructLike(t) && t.tag in st && |st[t.tag]| == 2 {
      var cs := st[t.tag];
      TwoNames(cs, "_marker", "pointer");
      if UniqueShape(t, st) {
        forall j | 0 <= j < 2 ensures IsUniqueComponent(cs[j], st) {
          assert FieldIndex(cs, cs[j].name) == Some(j);
        }
      }
      if WellFormedTable(st) && IsRustUniquePointerLike(t, st) {
        assert IsUniqueComponent(cs[0], st) && IsUniqueComponent(cs[1], st);
        assert DistinctNames(cs);
        assert FieldIndex(cs, cs[0].name) == Some(0);
        assert FieldIndex(cs, cs[1].name) == Some(1);
      }
    }
  }

  /** The `Box` check accepts every type of the exact layout, and on a symbol
      table without repeated field names it accepts nothing else. */
  lemma BoxLikeExact(t: Type, st: SymbolTable)
    ensures BoxShape(t, st) ==> IsRustBoxLike(t, st)
    ensures WellFormedTable(st) && IsRustBoxLike(t, st) ==> BoxShape(t, st)
  {
    if IsStructLike(t) && t.tag in st && |st[t.tag]| == 2 {
      var cs := st[t.tag];
      TwoNames(cs, "0", "1");
      UniquePointerLikeExact(cs[0].typ, st);
      UniquePointerLikeExact(cs[1].typ, st);
      if BoxShape(t, st) {
        forall j | 0 <= j < 2 ensures IsBoxComponent(cs[j], st) {
          assert FieldIndex(cs, cs[j].name) == Some(j);
        }
      }
      if WellFormedTable(st) && IsRustBoxLike(t, st) {
        assert IsBoxComponent(cs[0], st) && IsBoxComponent(cs[1], st);
        assert DistinctNames(cs);
        assert FieldIndex(cs, cs[0].name) == Some(0);
        assert FieldIndex(cs, cs[1].name) == Some(1);
      }
    }
  }

  /** Because each field is checked by its own name only, a struct that
      declares field `0` twice passes the `Box` check although it does not
      have the exact layout. */
  lemma BoxCheckAcceptsRepeatedField()
    ensures var st := map["Box" := [Component("0", StructTag("Unique")), Component("0", StructTag("Unique"))],
                          "Unique" := [Component("_marker", StructTag("PhantomData")), Component("pointer", StructTag("NonNull"))],
                          "PhantomData" := [],
                          "NonNull" := [Component("pointer", Pointer(Bool))]];
            IsRustBoxLike(StructTag("Box"), st) && !BoxShape(StructTag("Box"), st)
  {
    var st := map["Box" := [Component("0", StructTag("Unique")), Component("0", StructTag("Unique"))],
                  "Unique" := [Component("_marker", StructTag("PhantomData")), Component("pointer", StructTag("NonNull"))],
                  "PhantomData" := [],
                  "NonNull" := [Component("pointer", Pointer(Bool))]];
    var u := StructTag("Unique");
    assert IsRustPhantomDataLike(StructTag("PhantomData"), st);
    assert IsNonNullLike(StructTag("NonNull"), st);
    assert IsUniqueComponent(st["Unique"][0], st) && IsUniqueComponent(st["Unique"][1], st);
    assert IsRustUniquePointerLike(u, st);
    assert IsBoxComponent(st["Box"][0], st) && IsBoxComponent(st["Box"][1], st);
    assert "1" !in NamesOf(st["Box"]);
  }

  // ---------------------------------------------------------------------
  // Box projection and construction

  /** The field path from a `Box` to its raw pointer: `b.0.pointer.pointer`. */
  const RawPtrFromBox: seq<string> := ["0", "pointer", "pointer"]

  /** The type reached by following `path` from `t`. */
  function FieldPathType(t: Type, path: seq<string>, st: SymbolTable): Option<Type>
    decreases |path|
  {
    if path == [] then Some(t)
    else match LookupFieldType(t, path[0], st)
      case None => None
      case Some(ft) => FieldPathType(ft, path[1..], st)
  }

  /** Member accesses along `path`, outermost field first. */
  function ProjectPath(e: Expr, path: seq<string>, st: SymbolTable): (r: Result<Expr>)
    ensures r.Ok? <==> FieldPathType(e.typ, path, st).Some?
    ensures r.Ok? ==> r.value.typ == FieldPathType(e.typ, path, st).value
    decreases |path|
  {
    if path == [] then Ok(e)
    else match MemberOf(e, path[0], st)
      case Abort => Abort
      case Ok(m) => ProjectPath(m, path[1..], st)
  }

  /** Each field of `path` paired with the type of the struct it is a field
      of, outermost first. */
  function OuterTypes(t: Type, path: seq<string>, st: SymbolTable): (r: Option<seq<(string, Type)>>)
    ensures r.Some? <==> FieldPathType(t, path, st).Some?
    ensures r.Some? ==> |r.value| == |path| && forall k :: 0 <= k < |path| ==> r.value[k].0 == path[k]
    ensures r.Some? && path != [] ==> r.value[0].1 == t
    ensures r.Some? ==> forall k :: 0 <= k < |path| ==> FieldPathType(t, path[..k], st) == Some(r.value[k].1)
    decreases |path|
  {
    if path == [] then Some([])
    else match LookupFieldType(t, path[0], st)
      case None => None
      case Some(ft) =>
        match OuterTypes(ft, path[1..], st)
        case None => None
        case Some(rest) =>
          assert forall k :: 1 <= k < |path| ==> path[..k][1..] == path[1..][..k-1];
          Some([(path[0], t)] + rest)
  }

  function Prepend(prefix: seq<(string, Type)>, o: Option<seq<(string, Type)>>): Option<seq<(string, Type)>>
  {
    match o
    case None => None
    case Some(rest) => Some(prefix + rest)
  }

  lemma PrependNothing(o: Option<seq<(string, Type)>>)
    ensures Prepend([], o) == o
  {
    if o.Some? { assert [] + o.value == o.value; }
  }

  lemma PrependTwice(a: seq<(string, Type)>, b: seq<(string, Type)>, o: Option<seq<(string, Type)>>)
    ensures Prepend(a, Prepend(b, o)) == Prepend(a + b, o)
  {
    if o.Some? { assert a + (b + o.value) == (a + b) + o.value; }
  }

  /** One step of the walk: the first field's struct type, then the rest. */
  lemma OuterTypesStep(t: Type, path: seq<string>, st: SymbolTable)
    requires path != []
    ensures LookupFieldType(t, path[0], st).None? ==> OuterTypes(t, path, st).None?
    ensures LookupFieldType(t, path[0], st).Some? ==>
      OuterTypes(t, path, st) == Prepend([(path[0], t)], OuterTypes(LookupFieldType(t, path[0], st).value, path[1..], st))
  {
  }

  /** Rebuilds the nested structs around `v`, innermost first: each level
      sets its walked field to the level below and leaves the others
      unconstrained. */
  function Wrap(v: Expr, members: seq<(string, Type)>, st: SymbolTable): (r: Result<Expr>)
    ensures members == [] ==> r == Ok(v)
    ensures r.Ok? && members != [] ==> r.value.typ == members[0].1 && SetsOnly(r.value, members[0].0, st)
    decreases |members|
  {
    if members == [] then Ok(v)
    else
      var inner :- Wrap(v, members[1..], st);
      StructExprWithNondetFields(members[0].1, map[members[0].0 := inner], st)
  }

  /** The `Box` of type `t` around the raw pointer `v`. */
  function BoxedValue(st: SymbolTable, v: Expr, t: Type): (r: Result<Expr>)
    ensures !IsRustBoxLike(t, st) ==> r.Abort?
    ensures IsRustBoxLike(t, st) && FieldPathType(t, RawPtrFromBox, st).None? ==> r.Abort?
    ensures r.Ok? ==> r.value.typ == t && SetsOnly(r.value, "0", st)
  {
    if !IsRustBoxLike(t, st) then Abort
    else match OuterTypes(t, RawPtrFromBox, st)
      case None => Abort
      case Some(members) => Wrap(v, members, st)
  }

  /** `b` is a struct literal that gives every field except `f` an
      unconstrained value. */
  predicate SetsOnly(b: Expr, f: string, st: SymbolTable)
  {
    && b.value.Struct? && b.typ.StructTag? && b.typ.tag in st
    && |b.value.values| == |st[b.typ.tag]|
    && forall j :: 0 <= j < |st[b.typ.tag]| && st[b.typ.tag][j].name != f ==>
         b.value.values[j] == NondetOf(st[b.typ.tag][j].typ)
  }

  /** At every level along `path`, `b` sets only the walked field, and the
      innermost walked field holds `v`. */
  predicate OnlyPathSet(b: Expr, path: seq<string>, v: Expr, st: SymbolTable)
    decreases |path|
  {
    if path == [] then b == v
    else SetsOnly(b, path[0], st) && Select(b, path[0], st).Some? && OnlyPathSet(Select(b, path[0], st).value, path[1..], v, st)
  }

  /** Wrapping succeeds along every path whose field types all resolve. */
  lemma {:induction false} WrapDefined(v: Expr, t: Type, path: seq<string>, members: seq<(string, Type)>, st: SymbolTable)
    requires OuterTypes(t, path, st) == Some(members)
    ensures Wrap(v, members, st).Ok?
    ensures path != [] ==> Wrap(v, members, st).value.typ == t
    decreases |path|
  {
    if path != [] {
      var ft := LookupFieldType(t, path[0], st).value;
      WrapDefined(v, ft, path[1..], members[1..], st);
    }
  }

  /** Following `path` through a wrapped value leads back to `v`, through
      struct literals that set only the walked field. */
  lemma {:induction false} ProjectWrapped(e: Expr, path: seq<string>, members: seq<(string, Type)>, v: Expr, st: SymbolTable)
    requires OuterTypes(e.typ, path, st) == Some(members)
    requires Wrap(v, members, st).Ok? && Reduce(e, st) == Wrap(v, members, st).value
    ensures ProjectPath(e, path, st).Ok?
    ensures Reduce(ProjectPath(e, path, st).value, st) == v
    ensures OnlyPathSet(Reduce(e, st), path, v, st)
    decreases |path|
  {
    if path != [] {
      var ft := LookupFieldType(e.typ, path[0], st).value;
      var m := MemberOf(e, path[0], st).value;
      var b := Wrap(v, members, st).value;
      var inner := Wrap(v, members[1..], st).value;
      var cs := st[e.typ.tag];
      var i := FieldIndex(cs, path[0]).value;
      assert b.value.values[i] == inner;
      assert Select(b, path[0], st) == Some(inner);
      assert Reduce(m, st) == inner;
      WrapDefined(v, ft, path[1..], members[1..], st);
      ProjectWrapped(m, path[1..], members[1..], v, st);
    }
  }

  /** A `Box` passing the check has its raw pointer at the end of the path
      whenever the path resolves, and on a symbol table without repeated
      field names the path always resolves. */
  lemma BoxPathReachesPointer(t: Type, st: SymbolTable)
    requires IsRustBoxLike(t, st)
    ensures FieldPathType(t, RawPtrFromBox, st).Some? ==>
      IsPointer(FieldPathType(t, RawPtrFromBox, st).value) || IsRustFatPtr(FieldPathType(t, RawPtrFromBox, st).value, st)
    ensures WellFormedTable(st) ==> FieldPathType(t, RawPtrFromBox, st).Some?
  {
    var cs := st[t.tag];
    if WellFormedTable(st) {
      BoxLikeExact(t, st);
    }
    match LookupFieldType(t, "0", st)
    case None =>
    case Some(u) =>
      var i := FieldIndex(cs, "0").value;
      assert IsBoxComponent(cs[i], st);
      var ucs := st[u.tag];
      if WellFormedTable(st) {
        UniquePointerLikeExact(u, st);
      }
      match LookupFieldType(u, "pointer", st)
      case None =>
      case Some(n) =>
        var k := FieldIndex(ucs, "pointer").value;
        assert IsUniqueComponent(ucs[k], st);
        assert FieldIndex(st[n.tag], "pointer") == Some(0);
        assert RawPtrFromBox[1..][1..][1..] == [];
  }

  class GotocCtx {
    /** The symbol table of the compilation unit. */
    var symbolTable: SymbolTable
    /** Each unsupported construct met so far, with every location it was
        met at, in order. */
    var unsupportedConstructs: map<string, seq<Location>>

    constructor (st: SymbolTable)
      ensures symbolTable == st && unsupportedConstructs == map[]
    {
      symbolTable := st;
      unsupportedConstructs := map[];
    }

    /** The raw pointer inside a `Box`: `b.0.pointer.pointer`. A type that
        fails the `Box` check is a fatal error. */
    function DerefBox(boxExpr: Expr): (r: Result<Expr>)
      reads this
      ensures !IsRustBoxLike(boxExpr.typ, symbolTable) ==> r.Abort?
      ensures r.Ok? ==> IsPointer(r.value.typ) || IsRustFatPtr(r.value.typ, symbolTable)
      ensures WellFormedTable(symbolTable) && IsRustBoxLike(boxExpr.typ, symbolTable) ==> r.Ok?
    {
      if !IsRustBoxLike(boxExpr.typ, symbolTable) then Abort
      else
        BoxPathReachesPointer(boxExpr.typ, symbolTable);
        ProjectPath(boxExpr, RawPtrFromBox, symbolTable)
    }

    /** The `Box` of type `boxedType` whose raw pointer is `boxedValue`:
        first the type of each struct along the path is resolved, then the
        structs are built from the innermost out. */
    method BoxValue(boxedValue: Expr, boxedType: Type) returns (r: Result<Expr>)
      ensures r == BoxedValue(symbolTable, boxedValue, boxedType)
    {
      if !IsRustBoxLike(boxedType, symbolTable) {
        return Abort;
      }
      var typeMembers := ResolveOuterTypes(boxedType, RawPtrFromBox);
      if typeMembers.None? {
        return Abort;
      }
      r := FoldIntoStructs(boxedValue, typeMembers.value);
    }

    /** Walks `path` from `t`, pairing each field with the type of the struct
        it belongs to; `None` when some field does not resolve. */
    method ResolveOuterTypes(t: Type, path: seq<string>) returns (r: Option<seq<(string, Type)>>)
      ensures r == OuterTypes(t, path, symbolTable)
    {
      var innerType := t;
      var typeMembers: seq<(string, Type)> := [];
      var i := 0;
      PrependNothing(OuterTypes(t, path, symbolTable));
      assert path[i..] == path;
      while i < |path|
        invariant 0 <= i <= |path|
        invariant OuterTypes(t, path, symbolTable) == Prepend(typeMembers, OuterTypes(innerType, path[i..], symbolTable))
      {
        var name := path[i];
        var outerType := innerType;
        var fieldType := LookupFieldType(outerType, name, symbolTable);
        if fieldType.None? {
          OuterTypesStep(outerType, path[i..], symbolTable);
          return None;
        }
        innerType := fieldType.value;
        OuterTypesStep(outerType, path[i..], symbolTable);
        assert path[i..][1..] == path[i + 1..];
        PrependTwice(typeMembers, [(name, outerType)], OuterTypes(innerType, path[i + 1..], symbolTable));
        typeMembers := typeMembers + [(name, outerType)];
        i := i + 1;
      }
      assert path[i..] == [] && typeMembers + [] == typeMembers;
      return Some(typeMembers);
    }

    /** Builds the nested structs around `v`, from the last member back to the
        first. */
    method FoldIntoStructs(v: Expr, members: seq<(string, Type)>) returns (r: Result<Expr>)
      ensures r == Wrap(v, members, symbolTable)
    {
      var value := v;
      var j := |members|;
      assert members[..j] == members;
      while j > 0
        invariant 0 <= j <= |members|
        invariant Wrap(v, members, symbolTable) == Wrap(value, members[..j], symbolTable)
        decreases j
      {
        j := j - 1;
        var (name, typ) := members[j];
        var s := StructExprWithNondetFields(typ, map[name := value], symbolTable);
        WrapSnoc(value, members[..j], (name, typ), symbolTable);
        assert members[..j + 1] == members[..j] + [(name, typ)];
        if s.Abort? {
          return Abort;
        }
        value := s.value;
      }
      assert members[..j] == [];
      return Ok(value);
    }

    /** Records the unsupported construct `operationName` at `loc` and returns
        its placeholder of type `t`. */
    method CodegenUnimplemented(operationName: string, t: Type, loc: Location, url: string) returns (e: Expr)
      modifies this`unsupportedConstructs
      ensures unsupportedConstructs == Record(old(unsupportedConstructs), operationName, loc)
      ensures IsUnsupportedPlaceholder(e, t, UnsupportedMsg(operationName, Some(url)), loc)
    {
      var key := operationName;
      if key !in unsupportedConstructs {
        unsupportedConstructs := unsupportedConstructs[key := []];
      }
      unsupportedConstructs := unsupportedConstructs[key := unsupportedConstructs[key] + [loc]];
      var body := [
        Assert(BoolFalse(), UnsupportedConstruct, UnsupportedMsg(operationName, Some(url)), loc),
        Assume(BoolFalse(), loc),
        Expression(NondetOf(t), loc)
      ];
      e := Expr(StatementExpression(body), t, loc);
    }
  }

  /** Wrapping with one more, innermost, level equals wrapping the struct
      built at that level. */
  lemma {:induction false} WrapSnoc(w: Expr, members: seq<(string, Type)>, last: (string, Type), st: SymbolTable)
    ensures Wrap(w, members + [last], st) ==
      match StructExprWithNondetFields(last.1, map[last.0 := w], st)
      case Abort => Abort
      case Ok(s) => Wrap(s, members, st)
    decreases |members|
  {
    if members == [] {
      assert [last][1..] == [];
    } else {
      assert (members + [last])[1..] == members[1..] + [last];
      WrapSnoc(w, members[1..], last, st);
    }
  }

  /** Projecting the raw pointer out of a constructed `Box` gives back the
      pointer it was built from, and the construction sets no field off the
      path. */
  lemma BoxRoundTrip(ctx: GotocCtx, v: Expr, t: Type)
    requires BoxedValue(ctx.symbolTable, v, t).Ok?
    ensures BoxedValue(ctx.symbolTable, v, t).value.typ == t
    ensures ctx.DerefBox(BoxedValue(ctx.symbolTable, v, t).value).Ok?
    ensures Reduce(ctx.DerefBox(BoxedValue(ctx.symbolTable, v, t).value).value, ctx.symbolTable) == v
    ensures OnlyPathSet(BoxedValue(ctx.symbolTable, v, t).value, RawPtrFromBox, v, ctx.symbolTable)
  {
    var st := ctx.symbolTable;
    var members := OuterTypes(t, RawPtrFromBox, st).value;
    WrapDefined(v, t, RawPtrFromBox, members, st);
    var b := BoxedValue(st, v, t).value;
    assert b.typ == t;
    assert Reduce(b, st) == b;
    ProjectWrapped(b, RawPtrFromBox, members, v, st);
  }

  /** On a symbol table without repeated field names, every type that passes
      the `Box` check can be constructed around any raw pointer. */
  lemma BoxValueDefined(st: SymbolTable, v: Expr, t: Type)
    requires WellFormedTable(st) && IsRustBoxLike(t, st)
    ensures BoxedValue(st, v, t).Ok?
  {
    BoxPathReachesPointer(t, st);
    WrapDefined(v, t, RawPtrFromBox, OuterTypes(t, RawPtrFromBox, st).value, st);
  }
}

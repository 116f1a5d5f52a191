/**
 * The slice of the goto-program intermediate representation that the
 * aggregate bridge builds and inspects: types, struct components, the
 * symbol table's component lookup, expressions and statements, and the
 * handful of expression constructors the bridge calls.
 *
 * Every fatal internal error of the code generator (a failed `assert!`,
 * an `unwrap` of `None`, an out-of-range index) is modelled as `Abort`:
 * it ends the whole compilation, so no caller ever continues past it.
 */
module GotoProgram {

  datatype Option<+T> = None | Some(value: T)

  /** The outcome of a code-generation step: a value, or a fatal error. */
  datatype Result<+T> = Ok(value: T) | Abort {
    predicate IsFailure() { Abort? }

    function PropagateFailure<U>(): Result<U>
      requires Abort?
    {
      Abort
    }

    function Extract(): T
      requires Ok?
    {
      value
    }
  }

  /** A position in the program being translated. */
  datatype Location = NoLocation | Loc(file: string, line: nat, column: nat)

  /** Goto-program types. Every struct-like type is a tag naming an entry of
      the symbol table. */
  datatype Type =
    | Bool
    | SizeT
    | Signedbv(width: nat)
    | Unsignedbv(width: nat)
    | Pointer(pointee: Type)
    | Array(elem: Type, size: nat)
    | StructTag(tag: string)
    | Empty

  /** One field of a struct type, in declaration order. */
  datatype Component = Component(name: string, typ: Type)

  /** Struct tag to the ordered components of that struct. */
  type SymbolTable = map<string, seq<Component>>

  predicate IsStructLike(t: Type) { t.StructTag? }

  predicate IsPointer(t: Type) { t.Pointer? }

  predicate IsInteger(t: Type) { t.SizeT? || t.Signedbv? || t.Unsignedbv? }

  /** The machine model's `size_t` is 64 bits wide. */
  const SizeTModulus: int := 0x1_0000_0000_0000_0000

  /** The components of a struct-like type, if the symbol table knows it. */
  function LookupComponents(t: Type, st: SymbolTable): (r: Option<seq<Component>>)
    ensures r.Some? <==> IsStructLike(t) && t.tag in st
    ensures r.Some? ==> r.value == st[t.tag]
  {
    if t.StructTag? && t.tag in st then Some(st[t.tag]) else None
  }

  /** The set of field names of a component list. */
  function NamesOf(cs: seq<Component>): set<string>
  {
    set j | 0 <= j < |cs| :: cs[j].name
  }

  predicate DistinctNames(cs: seq<Component>)
  {
    forall i, j :: 0 <= i < j < |cs| ==> cs[i].name != cs[j].name
  }

  /** A symbol table in which no struct declares the same field name twice,
      as every struct the compiler emits does. */
  predicate WellFormedTable(st: SymbolTable)
  {
    forall tag :: tag in st ==> DistinctNames(st[tag])
  }

  /** The position of the first component named `f`. */
  function FieldIndex(cs: seq<Component>, f: string): (r: Option<nat>)
    ensures r.Some? ==> r.value < |cs| && cs[r.value].name == f
    ensures r.Some? ==> forall j :: 0 <= j < r.value ==> cs[j].name != f
    ensures r.None? <==> f !in NamesOf(cs)
  {
    if cs == [] then None
    else if cs[0].name == f then Some(0)
    else match FieldIndex(cs[1..], f)
      case None =>
        assert NamesOf(cs) == {cs[0].name} + NamesOf(cs[1..]) by {
          forall n | n in NamesOf(cs) ensures n in {cs[0].name} + NamesOf(cs[1..]) {
            var j :| 0 <= j < |cs| && cs[j].name == n;
            if j > 0 { assert cs[1..][j - 1] == cs[j]; }
          }
        }
        None
      case Some(i) =>
        assert cs[1..][i] == cs[i + 1];
        Some(i + 1)
  }

  /** The type of field `f` of a struct-like type. */
  function LookupFieldType(t: Type, f: string, st: SymbolTable): (r: Option<Type>)
    ensures r.Some? <==> IsStructLike(t) && t.tag in st && f in NamesOf(st[t.tag])
  {
    match LookupComponents(t, st)
    case None => None
    case Some(cs) =>
      match FieldIndex(cs, f)
      case None => None
      case Some(i) => Some(cs[i].typ)
  }

  datatype BinaryOperator = Rem | Equal

  /** The class of a property the model checker reports on. */
  datatype PropertyClass = UnsupportedConstruct | DefaultAssertion

  datatype Expr = Expr(value: ExprValue, typ: Type, loc: Location)

  datatype ExprValue =
    | AddressOf(target: Expr)
    | Index(arrayExpr: Expr, index: Expr)
    | StringConstant(s: string)
    | Struct(values: seq<Expr>)
    | Member(lhs: Expr, field: string)
    | Nondet
    | IntConstant(i: int)
    | BoolConstant(b: bool)
    | Symbol(identifier: string)
    | Typecast(operand: Expr)
    | BinOp(op: BinaryOperator, left: Expr, right: Expr)
    | StatementExpression(statements: seq<Stmt>)

  datatype Stmt =
    | Assert(cond: Expr, property: PropertyClass, message: string, sloc: Location)
    | Assume(assumption: Expr, sloc: Location)
    | Expression(e: Expr, sloc: Location)

  function BoolFalse(): Expr { Expr(BoolConstant(false), Bool, NoLocation) }

  /** An unconstrained value of type `t`. */
  function NondetOf(t: Type): Expr { Expr(Nondet, t, NoLocation) }

  function IntConstantOf(i: int, t: Type): Expr { Expr(IntConstant(i), t, NoLocation) }

  function ZeroOf(t: Type): Expr { IntConstantOf(0, t) }

  /** A cast that is skipped when the operand already has the target type. */
  function CastTo(e: Expr, t: Type): (r: Expr)
    ensures r.typ == t
  {
    if e.typ == t then e else Expr(Typecast(e), t, NoLocation)
  }

  function RemOf(lhs: Expr, rhs: Expr): (r: Expr)
    ensures r.typ == lhs.typ
  {
    Expr(BinOp(Rem, lhs, rhs), lhs.typ, NoLocation)
  }

  function EqOf(lhs: Expr, rhs: Expr): (r: Expr)
    ensures r.typ == Bool
  {
    Expr(BinOp(Equal, lhs, rhs), Bool, NoLocation)
  }

  /** Access to field `f` of a struct-typed expression; a field the struct
      does not have is a fatal error. */
  function MemberOf(e: Expr, f: string, st: SymbolTable): (r: Result<Expr>)
    ensures r.Ok? <==> LookupFieldType(e.typ, f, st).Some?
    ensures r.Ok? ==> r.value.value == Member(e, f) && r.value.typ == LookupFieldType(e.typ, f, st).value
  {
    match LookupFieldType(e.typ, f, st)
    case None => Abort
    case Some(ft) => Ok(Expr(Member(e, f), ft, NoLocation))
  }

  /** A struct literal from a field-name map, whose values are laid out in
      the declaration order of the struct's components. The map must name
      every component exactly once. */
  function StructExpr(t: Type, fields: map<string, Expr>, st: SymbolTable): (r: Result<Expr>)
    ensures r.Ok? <==> IsStructLike(t) && t.tag in st && NamesOf(st[t.tag]) == fields.Keys && DistinctNames(st[t.tag])
    ensures r.Ok? ==> r.value.typ == t && r.value.loc == NoLocation && r.value.value.Struct?
    ensures r.Ok? ==> |r.value.value.values| == |st[t.tag]|
    ensures r.Ok? ==> forall j :: 0 <= j < |st[t.tag]| ==> r.value.value.values[j] == fields[st[t.tag][j].name]
  {
    match LookupComponents(t, st)
    case None => Abort
    case Some(cs) =>
      if NamesOf(cs) == fields.Keys && DistinctNames(cs) then
        Ok(Expr(Struct(seq(|cs|, j requires 0 <= j < |cs| => fields[cs[j].name])), t, NoLocation))
      else Abort
  }

  /** A struct literal that takes the fields the map names and leaves every
      other field unconstrained. */
  function StructExprWithNondetFields(t: Type, fields: map<string, Expr>, st: SymbolTable): (r: Result<Expr>)
    ensures r.Ok? <==> IsStructLike(t) && t.tag in st && fields.Keys <= NamesOf(st[t.tag])
    ensures r.Ok? ==> r.value.typ == t && r.value.loc == NoLocation && r.value.value.Struct?
    ensures r.Ok? ==> |r.value.value.values| == |st[t.tag]|
    ensures r.Ok? ==> forall j :: 0 <= j < |st[t.tag]| ==>
      r.value.value.values[j] == if st[t.tag][j].name in fields then fields[st[t.tag][j].name] else NondetOf(st[t.tag][j].typ)
  {
    match LookupComponents(t, st)
    case None => Abort
    case Some(cs) =>
      if fields.Keys <= NamesOf(cs) then
        Ok(Expr(Struct(seq(|cs|, j requires 0 <= j < |cs| =>
          if cs[j].name in fields then fields[cs[j].name] else NondetOf(cs[j].typ))), t, NoLocation))
      else Abort
  }

  /** The field-name map of a struct literal laid out over `cs`. */
  function FieldMap(cs: seq<Component>, values: seq<Expr>): (m: map<string, Expr>)
    requires |cs| == |values|
    ensures m.Keys == NamesOf(cs)
    ensures DistinctNames(cs) ==> forall j :: 0 <= j < |cs| ==> m[cs[j].name] == values[j]
    decreases |cs|
  {
    if cs == [] then map[]
    else
      var rest := FieldMap(cs[1..], values[1..]);
      assert NamesOf(cs) == {cs[0].name} + NamesOf(cs[1..]) by {
        forall n | n in NamesOf(cs) ensures n in {cs[0].name} + NamesOf(cs[1..]) {
          var j :| 0 <= j < |cs| && cs[j].name == n;
          if j > 0 { assert cs[1..][j - 1] == cs[j]; }
        }
        forall n | n in NamesOf(cs[1..]) ensures n in NamesOf(cs) {
          var j :| 0 <= j < |cs[1..]| && cs[1..][j].name == n;
          assert cs[j + 1].name == n;
        }
      }
      assert DistinctNames(cs) ==> forall j :: 0 <= j < |cs| - 1 ==> cs[1..][j] == cs[j + 1] && values[1..][j] == values[j + 1];
      rest[cs[0].name := values[0]]
  }
}

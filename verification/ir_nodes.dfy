/** Three node shapes of the engine's immutable internal representation: a
    cast expression, a `union` query operator and a call of a built-in window
    function. Each is built by a checking constructor and navigated through
    `ChildCount` and `GetChild`. */
module IrNodes {
  import opened Wrappers
  import opened Values

  /** Whether an expression evaluates to one value, to a column of values,
      or, for a query operator such as `union`, to a table. */
  datatype ResultKind = Scalar | Columnar | Tabular

  /** The language type a node produces. */
  datatype TypeSymbol = ScalarType(kind: Kind) | TableType(schema: Schema)

  /** Opaque binder artefacts a window call carries but never traverses. */
  datatype Signature = Signature(functionName: string)
  datatype OverloadInfo = OverloadInfo(overload: nat)
  datatype Parameter = Parameter(parameterName: string)

  /** `Leaf` and `ListNode` stand for the expression and list node classes
      these three shapes point to; only the three shapes are modelled in
      detail. */
  datatype Node =
    | Leaf(leafType: TypeSymbol, leafKind: ResultKind)
    | ListNode(items: seq<Node>)
    | Cast(castType: TypeSymbol, castKind: ResultKind, expression: Node)
    | Union(unionType: TypeSymbol, expressions: seq<Node>)
    | WindowCall(callType: TypeSymbol, callKind: ResultKind, signature: Signature,
                 overloadInfo: OverloadInfo, parameters: seq<Parameter>, arguments: seq<Node>)

  /** The exceptions the constructors and `GetChild` throw. */
  datatype IrError =
    | ArgumentNull(paramName: string)
    | NullReference
    | ArgumentOutOfRange(paramName: string)

  /** The result kind of an expression node; `None` for the list node,
      which is not an expression. A query operator is an expression whose
      result is a table. */
  function ResultKindOf(n: Node): Option<ResultKind> {
    match n
    case Leaf(_, k) => Some(k)
    case Cast(_, k, _) => Some(k)
    case Union(_, _) => Some(Tabular)
    case WindowCall(_, k, _, _, _, _) => Some(k)
    case ListNode(_) => None
  }

  function ResultTypeOf(n: Node): Option<TypeSymbol> {
    match n
    case Leaf(t, _) => Some(t)
    case Cast(t, _, _) => Some(t)
    case Union(t, _) => Some(t)
    case WindowCall(t, _, _, _, _, _) => Some(t)
    case ListNode(_) => None
  }

  /** Reference definition of a node's children, in order. A list node's
      children are its items; a window call exposes only its argument list,
      not its signature, overload or parameters. */
  function Children(n: Node): seq<Node> {
    match n
    case Leaf(_, _) => []
    case ListNode(items) => items
    case Cast(_, _, e) => [e]
    case Union(_, es) => [ListNode(es)]
    case WindowCall(_, _, _, _, _, args) => [ListNode(args)]
  }

  /** `ChildCount`. */
  function ChildCount(n: Node): (c: nat)
    ensures !n.ListNode? && !n.Leaf? ==> c == 1
  {
    match n
    case Leaf(_, _) => 0
    case ListNode(items) => |items|
    case _ => 1
  }

  /** `GetChild(index)`: the child at `index`, or out-of-range. */
  function GetChild(n: Node, index: int): (r: Result<Node, IrError>)
    ensures r.Ok? <==> 0 <= index < ChildCount(n)
    ensures r.Err? ==> r.error == ArgumentOutOfRange("index")
  {
    match n
    case Leaf(_, _) => Err(ArgumentOutOfRange("index"))
    case ListNode(items) =>
      if 0 <= index < |items| then Ok(items[index]) else Err(ArgumentOutOfRange("index"))
    case Cast(_, _, e) => if index == 0 then Ok(e) else Err(ArgumentOutOfRange("index"))
    case Union(_, es) => if index == 0 then Ok(ListNode(es)) else Err(ArgumentOutOfRange("index"))
    case WindowCall(_, _, _, _, _, args) =>
      if index == 0 then Ok(ListNode(args)) else Err(ArgumentOutOfRange("index"))
  }

  /** `ChildCount` and `GetChild` enumerate exactly the reference children. */
  lemma ChildIndexing(n: Node, index: int)
    ensures ChildCount(n) == |Children(n)|
    ensures 0 <= index < |Children(n)| ==> GetChild(n, index) == Ok(Children(n)[index])
    ensures !(0 <= index < |Children(n)|) ==> GetChild(n, index) == Err(ArgumentOutOfRange("index"))
  {
  }

  // ---------------------------------------------------------------------
  // Constructors. A C# reference that may be null is an `Option`.

  /** An expression node: one that has a result kind. Every node but the
      list node is one. */
  predicate IsExpression(n: Node) {
    ResultKindOf(n).Some?
  }

  /** The nodes the source types as expressions: the cast's operand and the
      union's inputs. */
  type ExpressionNode = n: Node | IsExpression(n) witness Leaf(ScalarType(KLong), Scalar)

  /** The cast constructor as written: the base-constructor argument reads
      the operand's result kind before the null check runs, so a null operand
      fails with a null dereference and the `ArgumentNullException` branch is
      never reached. */
  function NewCastAsWritten(expression: Option<ExpressionNode>, resultType: TypeSymbol): (r: Result<Node, IrError>)
    ensures expression.None? <==> r.Err?
    ensures r.Err? ==> r.error == NullReference
  {
    if expression.None? then Err(NullReference)
    else Ok(Cast(resultType, ResultKindOf(expression.value).value, expression.value))
  }

  /** The cast constructor with the evident intent: a null operand is
      reported as a null argument named `expression`. */
  function NewCast(expression: Option<ExpressionNode>, resultType: TypeSymbol): (r: Result<Node, IrError>)
    ensures expression.None? <==> r.Err?
    ensures r.Err? ==> r.error == ArgumentNull("expression")
    ensures r.Ok? ==> ResultTypeOf(r.value) == Some(resultType)
    ensures r.Ok? ==> ResultKindOf(r.value) == ResultKindOf(expression.value)
    ensures r.Ok? ==> Children(r.value) == [expression.value]
  {
    if expression.None? then Err(ArgumentNull("expression"))
    else Ok(Cast(resultType, ResultKindOf(expression.value).value, expression.value))
  }

  /** Both constructors agree on every non-null operand; they differ only
      in the exception a null operand raises. */
  lemma CastConstructorsAgree(expression: ExpressionNode, resultType: TypeSymbol)
    ensures NewCastAsWritten(Some(expression), resultType) == NewCast(Some(expression), resultType)
    ensures NewCastAsWritten(None, resultType) != NewCast(None, resultType)
  {
  }

  /** The null check of the cast constructor as written is unreachable: no
      operand makes it report a null argument. */
  lemma CastNullCheckUnreachable(expression: Option<ExpressionNode>, resultType: TypeSymbol)
    ensures NewCastAsWritten(expression, resultType) != Err(ArgumentNull("expression"))
  {
  }

  /** A cast inherits its operand's result kind and takes the target type it
      is given, whatever the operand's own type; it has the operand as its
      only child. */
  lemma CastShape(e: ExpressionNode, t: TypeSymbol)
    ensures var r := NewCast(Some(e), t);
            && r.Ok?
            && ResultKindOf(r.value) == ResultKindOf(e)
            && ResultTypeOf(r.value) == Some(t)
            && ChildCount(r.value) == 1
            && GetChild(r.value, 0) == Ok(e)
            && forall i :: i != 0 ==> GetChild(r.value, i).Err?
  {
  }

  /** The union-operator constructor. */
  function NewUnion(expressions: Option<seq<ExpressionNode>>, resultType: TypeSymbol): (r: Result<Node, IrError>)
    ensures expressions.None? <==> r.Err?
    ensures r.Err? ==> r.error == ArgumentNull("expressions")
    ensures r.Ok? ==> ResultTypeOf(r.value) == Some(resultType)
    ensures r.Ok? ==> ResultKindOf(r.value) == Some(Tabular)
    ensures r.Ok? ==> GetChild(r.value, 0) == Ok(ListNode(expressions.value))
    ensures r.Ok? ==> forall i :: i != 0 ==> GetChild(r.value, i) == Err(ArgumentOutOfRange("index"))
  {
    if expressions.None? then Err(ArgumentNull("expressions"))
    else Ok(Union(resultType, expressions.value))
  }

  /** The only child of a union is the whole list of its inputs, so the
      inputs are reached in argument order one level down. */
  lemma UnionInputsOneLevelDown(es: seq<ExpressionNode>, t: TypeSymbol, i: int)
    ensures var u := NewUnion(Some(es), t).value;
            && ChildCount(u) == 1
            && ChildCount(ListNode(es)) == |es|
            && (0 <= i < |es| ==> GetChild(ListNode(es), i) == Ok(es[i]))
  {
  }

  /** A union is an expression, so it can be cast: the cast is tabular and
      has the union as its only child. */
  lemma CastOfUnion(es: seq<ExpressionNode>, unionType: TypeSymbol, castType: TypeSymbol)
    ensures var u := NewUnion(Some(es), unionType);
            && u.Ok? && IsExpression(u.value)
            && var c := NewCast(Some(u.value), castType);
            && c.Ok?
            && ResultKindOf(c.value) == Some(Tabular)
            && GetChild(c.value, 0) == Ok(u.value)
            && GetChild(GetChild(c.value, 0).value, 0) == Ok(ListNode(es))
  {
  }

  /** The base class's rule for the result kind of a call from its argument
      list. It runs before any null check, so it sees a null list too and
      may itself fail on it. */
  type KindRule = Option<seq<Node>> -> Result<ResultKind, IrError>

  /** The window-call constructor: the result kind is computed from the
      argument list alone, then each reference argument is checked for null
      in declaration order. */
  function NewWindowCall(
    signature: Option<Signature>, overloadInfo: Option<OverloadInfo>,
    parameters: Option<seq<Parameter>>, arguments: Option<seq<Node>>,
    resultType: TypeSymbol, kindRule: KindRule): (r: Result<Node, IrError>)
    ensures kindRule(arguments).Err? ==> r == Err(kindRule(arguments).error)
    ensures kindRule(arguments).Ok? && signature.None? ==> r == Err(ArgumentNull("signature"))
    ensures kindRule(arguments).Ok? && signature.Some? && overloadInfo.None? ==> r == Err(ArgumentNull("overloadInfo"))
    ensures kindRule(arguments).Ok? && signature.Some? && overloadInfo.Some? && parameters.None? ==>
              r == Err(ArgumentNull("parameters"))
    ensures kindRule(arguments).Ok? && signature.Some? && overloadInfo.Some? && parameters.Some? && arguments.None? ==>
              r == Err(ArgumentNull("arguments"))
    ensures r.Ok? <==> kindRule(arguments).Ok? && signature.Some? && overloadInfo.Some? && parameters.Some? && arguments.Some?
    ensures r.Ok? ==> ResultKindOf(r.value) == Some(kindRule(arguments).value)
    ensures r.Ok? ==> ResultTypeOf(r.value) == Some(resultType)
    ensures r.Ok? ==> r.value.WindowCall? && r.value.signature == signature.value
    ensures r.Ok? ==> r.value.WindowCall? && r.value.overloadInfo == overloadInfo.value
    ensures r.Ok? ==> r.value.WindowCall? && r.value.parameters == parameters.value
    ensures r.Ok? ==> r.value.WindowCall? && r.value.arguments == arguments.value
  {
    var kind :- kindRule(arguments);
    if signature.None? then Err(ArgumentNull("signature"))
    else if overloadInfo.None? then Err(ArgumentNull("overloadInfo"))
    else if parameters.None? then Err(ArgumentNull("parameters"))
    else if arguments.None? then Err(ArgumentNull("arguments"))
    else Ok(WindowCall(resultType, kind, signature.value, overloadInfo.value, parameters.value, arguments.value))
  }

  /** Two window calls over the same arguments have the same result kind,
      whatever their signatures, overloads, parameters and result types. */
  lemma WindowKindFromArgumentsOnly(
    s1: Signature, o1: OverloadInfo, p1: seq<Parameter>, t1: TypeSymbol,
    s2: Signature, o2: OverloadInfo, p2: seq<Parameter>, t2: TypeSymbol,
    args: seq<Node>, kindRule: KindRule)
    requires kindRule(Some(args)).Ok?
    ensures var a := NewWindowCall(Some(s1), Some(o1), Some(p1), Some(args), t1, kindRule);
            var b := NewWindowCall(Some(s2), Some(o2), Some(p2), Some(args), t2, kindRule);
            a.Ok? && b.Ok? && ResultKindOf(a.value) == ResultKindOf(b.value)
  {
  }

  /** A window call's only child is its argument list: the signature,
      overload and parameters are never visited. */
  lemma WindowChildIsArgumentList(
    s: Signature, o: OverloadInfo, p: seq<Parameter>, args: seq<Node>, t: TypeSymbol,
    kindRule: KindRule, i: int)
    requires kindRule(Some(args)).Ok?
    ensures var w := NewWindowCall(Some(s), Some(o), Some(p), Some(args), t, kindRule).value;
            && ChildCount(w) == 1
            && Children(w) == [ListNode(args)]
            && (i == 0 <==> GetChild(w, i).Ok?)
            && (i == 0 ==> GetChild(w, i) == Ok(ListNode(args)))
  {
  }
}

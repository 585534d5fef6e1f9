/**
 * Binding of operator expressions: IS [NOT] NULL, [NOT] IN and NOT.  The
 * children are bound first; then the operator's result type is resolved
 * and casts are put on the children.  The type system's MaxLogicalType and
 * AddCastToType are not part of this model and come in as function values.
 */
module BindOperator {
  import opened Wrappers

  datatype LogicalType = Boolean | OtherType(id: nat)

  /** A bound expression: all the binder needs of it is its return type. */
  datatype Expression = Expression(returnType: LogicalType, id: nat)

  /** A parsed child, before binding. */
  datatype ParsedExpression = ParsedExpression(id: nat)

  datatype ExpressionType =
    | OperatorIsNull | OperatorIsNotNull
    | CompareIn | CompareNotIn
    | OperatorNot
    | OtherOperator(code: nat)

  datatype OperatorExpression = OperatorExpression(kind: ExpressionType, children: seq<ParsedExpression>)

  datatype BoundOperatorExpression = BoundOperatorExpression(kind: ExpressionType, returnType: LogicalType, children: seq<Expression>)

  /** The two type-system calls the binder makes. */
  datatype TypeSystem = TypeSystem(
    maxLogicalType: (LogicalType, LogicalType) -> LogicalType,
    addCastToType: (Expression, LogicalType) -> Expression)

  /** A cast yields an expression of the target type. */
  ghost predicate CastsToTarget(ts: TypeSystem)
  {
    forall e, t :: ts.addCastToType(e, t).returnType == t
  }

  /**
   * The number of children each operator is bound with: IN needs a first
   * child to start its fold from, NOT and the operators that fall through to
   * it exactly one.
   */
  predicate ArityOk(kind: ExpressionType, n: nat)
  {
    match kind
    case OperatorIsNull | OperatorIsNotNull => true
    case CompareIn | CompareNotIn => n >= 1
    case _ => n == 1
  }

  // ---------------------------------------------------------------------
  // Type resolution

  function ReturnTypes(children: seq<Expression>): (types: seq<LogicalType>)
    ensures |types| == |children| && forall i :: 0 <= i < |children| ==> types[i] == children[i].returnType
  {
    seq(|children|, i requires 0 <= i < |children| => children[i].returnType)
  }

  /** The left fold of MaxLogicalType over the types, starting from the first. */
  function MaxType(ts: TypeSystem, types: seq<LogicalType>): LogicalType
    requires |types| >= 1
  {
    if |types| == 1 then types[0] else ts.maxLogicalType(MaxType(ts, types[..|types| - 1]), types[|types| - 1])
  }

  /** Every child cast to `target`, in order. */
  function CastAll(ts: TypeSystem, children: seq<Expression>, target: LogicalType): (cast: seq<Expression>)
    ensures |cast| == |children| && forall i :: 0 <= i < |children| ==> cast[i] == ts.addCastToType(children[i], target)
  {
    seq(|children|, i requires 0 <= i < |children| => ts.addCastToType(children[i], target))
  }

  /**
   * The children after ResolveOperatorType: IS [NOT] NULL leaves them alone,
   * [NOT] IN casts them all to their maximum type, and every other operator
   * casts its single child to BOOLEAN.
   */
  function ResolvedChildren(ts: TypeSystem, kind: ExpressionType, children: seq<Expression>): seq<Expression>
    requires ArityOk(kind, |children|)
  {
    match kind
    case OperatorIsNull | OperatorIsNotNull => children
    case CompareIn | CompareNotIn => CastAll(ts, children, MaxType(ts, ReturnTypes(children)))
    case _ => [ts.addCastToType(children[0], Boolean)]
  }

  /** After resolution IN's children all have the same type, the maximum of the original ones. */
  lemma InChildrenShareType(ts: TypeSystem, kind: ExpressionType, children: seq<Expression>)
    requires CastsToTarget(ts) && (kind == CompareIn || kind == CompareNotIn) && |children| >= 1
    ensures var resolved := ResolvedChildren(ts, kind, children);
      |resolved| == |children| &&
      forall i :: 0 <= i < |resolved| ==> resolved[i].returnType == MaxType(ts, ReturnTypes(children))
  {
  }

  /** After resolution NOT's child is BOOLEAN; IS [NOT] NULL's children keep their types. */
  lemma ResolvedChildTypes(ts: TypeSystem, kind: ExpressionType, children: seq<Expression>)
    requires CastsToTarget(ts) && ArityOk(kind, |children|)
    ensures kind.OperatorIsNull? || kind.OperatorIsNotNull? ==>
      ReturnTypes(ResolvedChildren(ts, kind, children)) == ReturnTypes(children)
    ensures kind.OperatorNot? || kind.OtherOperator? ==>
      ReturnTypes(ResolvedChildren(ts, kind, children)) == [Boolean]
  {
    if kind.OperatorNot? || kind.OtherOperator? {
      assert ReturnTypes(ResolvedChildren(ts, kind, children))[0] == Boolean;
    }
  }

  /**
   * When MaxLogicalType is idempotent and all children share one type, the
   * fold yields that type.
   */
  lemma {:induction false} MaxTypeOfUniform(ts: TypeSystem, types: seq<LogicalType>, t: LogicalType)
    requires forall u :: ts.maxLogicalType(u, u) == u
    requires |types| >= 1 && forall i :: 0 <= i < |types| ==> types[i] == t
    ensures MaxType(ts, types) == t
  {
    if |types| > 1 {
      MaxTypeOfUniform(ts, types[..|types| - 1], t);
    }
  }

  /**
   * When MaxLogicalType yields an upper bound of its arguments in a
   * transitive order `le`, the fold is an upper bound of every child's type.
   */
  lemma {:induction false} MaxTypeIsUpperBound(ts: TypeSystem, le: (LogicalType, LogicalType) -> bool, types: seq<LogicalType>)
    requires forall a, b :: le(a, ts.maxLogicalType(a, b)) && le(b, ts.maxLogicalType(a, b))
    requires forall a, b, c :: le(a, b) && le(b, c) ==> le(a, c)
    requires forall a :: le(a, a)
    requires |types| >= 1
    ensures forall i :: 0 <= i < |types| ==> le(types[i], MaxType(ts, types))
  {
    if |types| > 1 {
      var prefix := types[..|types| - 1];
      MaxTypeIsUpperBound(ts, le, prefix);
      var m := MaxType(ts, types);
      assert le(MaxType(ts, prefix), m);
      forall i | 0 <= i < |types|
        ensures le(types[i], m)
      {
        if i < |prefix| {
          assert le(prefix[i], MaxType(ts, prefix));
        }
      }
    }
  }

  /** The fold of ResolveInType over the children's return types. */
  method MaxChildType(ts: TypeSystem, children: array<Expression>) returns (maxType: LogicalType)
    requires children.Length >= 1
    ensures maxType == MaxType(ts, ReturnTypes(children[..]))
  {
    maxType := children[0].returnType;
    var i := 1;
    while i < children.Length
      invariant 1 <= i <= children.Length
      invariant maxType == MaxType(ts, ReturnTypes(children[..i]))
    {
      assert ReturnTypes(children[..i + 1])[..i] == ReturnTypes(children[..i]);
      maxType := ts.maxLogicalType(maxType, children[i].returnType);
      i := i + 1;
    }
    assert children[..i] == children[..];
  }

  /** ResolveNotType: cast the one child to BOOLEAN; the result is BOOLEAN. */
  method ResolveNotType(ts: TypeSystem, children: array<Expression>) returns (resultType: LogicalType)
    requires children.Length == 1
    modifies children
    ensures resultType == Boolean
    ensures children[..] == [ts.addCastToType(old(children[0]), Boolean)]
  {
    children[0] := ts.addCastToType(children[0], Boolean);
    resultType := Boolean;
  }

  /** ResolveInType: cast every child to the maximum of their types; the result is BOOLEAN. */
  method ResolveInType(ts: TypeSystem, children: array<Expression>) returns (resultType: LogicalType)
    requires children.Length >= 1
    modifies children
    ensures resultType == Boolean
    ensures children[..] == CastAll(ts, old(children[..]), MaxType(ts, ReturnTypes(old(children[..]))))
  {
    var maxType := MaxChildType(ts, children);
    ghost var original := children[..];
    for i := 0 to children.Length
      invariant children[..i] == CastAll(ts, original, maxType)[..i]
      invariant children[i..] == original[i..]
    {
      children[i] := ts.addCastToType(children[i], maxType);
      assert children[i + 1..] == original[i + 1..];
    }
    resultType := Boolean;
  }

  /** ResolveOperatorType: every operator here resolves to BOOLEAN; the children are cast as ResolvedChildren says. */
  method ResolveOperatorType(ts: TypeSystem, kind: ExpressionType, children: array<Expression>) returns (resultType: LogicalType)
    requires ArityOk(kind, children.Length)
    modifies children
    ensures resultType == Boolean
    ensures children[..] == ResolvedChildren(ts, kind, old(children[..]))
  {
    match kind
    case OperatorIsNull | OperatorIsNotNull =>
      resultType := Boolean;
    case CompareIn | CompareNotIn =>
      resultType := ResolveInType(ts, children);
    case _ =>
      resultType := ResolveNotType(ts, children);
  }

  // ---------------------------------------------------------------------
  // Binding

  /** The children bound in order; the first child that fails decides the error. */
  function BindAll(bind: ParsedExpression -> Result<Expression, string>, children: seq<ParsedExpression>)
    : (r: Result<seq<Expression>, string>)
    ensures r.Success? ==> |r.value| == |children|
  {
    if children == [] then Success([])
    else
      var bound := BindAll(bind, children[..|children| - 1]);
      var last := bind(children[|children| - 1]);
      if bound.Failure? then bound
      else if last.Failure? then Failure(last.error)
      else Success(bound.value + [last.value])
  }

  /**
   * Binding succeeds exactly when every child binds, and then yields their
   * bound forms in order; otherwise the error is that of the first child
   * that fails.
   */
  lemma {:induction false} BindAllOutcome(bind: ParsedExpression -> Result<Expression, string>, children: seq<ParsedExpression>)
    ensures BindAll(bind, children).Success? <==> forall i :: 0 <= i < |children| ==> bind(children[i]).Success?
    ensures BindAll(bind, children).Success? ==>
      forall i :: 0 <= i < |children| ==> BindAll(bind, children).value[i] == bind(children[i]).value
    ensures BindAll(bind, children).Failure? ==>
      exists k :: 0 <= k < |children| && bind(children[k]).Failure? &&
        (forall j :: 0 <= j < k ==> bind(children[j]).Success?) &&
        BindAll(bind, children).error == bind(children[k]).error
  {
    if children != [] {
      var prefix := children[..|children| - 1];
      var n := |children| - 1;
      BindAllOutcome(bind, prefix);
      assert forall i :: 0 <= i < n ==> children[i] == prefix[i];
      if BindAll(bind, prefix).Failure? {
        var k :| 0 <= k < |prefix| && bind(prefix[k]).Failure? &&
          (forall j :: 0 <= j < k ==> bind(prefix[j]).Success?) &&
          BindAll(bind, prefix).error == bind(prefix[k]).error;
        assert bind(children[k]).Failure?;
      } else if bind(children[n]).Failure? {
        assert bind(children[n]).Failure? && forall j :: 0 <= j < n ==> bind(children[j]).Success?;
      }
    }
  }

  /** BindExpression's result: the first child error, or the bound operator with its resolved children. */
  function Bind(ts: TypeSystem, bind: ParsedExpression -> Result<Expression, string>, op: OperatorExpression)
    : Result<BoundOperatorExpression, string>
    requires ArityOk(op.kind, |op.children|)
  {
    match BindAll(bind, op.children)
    case Failure(e) => Failure(e)
    case Success(children) => Success(BoundOperatorExpression(op.kind, Boolean, ResolvedChildren(ts, op.kind, children)))
  }

  /**
   * A bound operator keeps the operator type and as many children as it was
   * given, and is BOOLEAN; it is produced exactly when every child binds.
   */
  lemma BindShape(ts: TypeSystem, bind: ParsedExpression -> Result<Expression, string>, op: OperatorExpression)
    requires ArityOk(op.kind, |op.children|)
    ensures Bind(ts, bind, op).Success? <==> forall i :: 0 <= i < |op.children| ==> bind(op.children[i]).Success?
    ensures Bind(ts, bind, op).Success? ==>
      var b := Bind(ts, bind, op).value;
      b.kind == op.kind && b.returnType == Boolean && |b.children| == |op.children|
  {
    BindAllOutcome(bind, op.children);
  }

  /** BindExpression: bind every child, stop with the error if one failed, else resolve the type and build the node. */
  method BindExpression(ts: TypeSystem, bind: ParsedExpression -> Result<Expression, string>, op: OperatorExpression)
    returns (r: Result<BoundOperatorExpression, string>)
    requires ArityOk(op.kind, |op.children|)
    ensures r == Bind(ts, bind, op)
  {
    var bound: seq<Expression> := [];
    var error: Option<string> := None;
    for i := 0 to |op.children|
      invariant error.None? ==> BindAll(bind, op.children[..i]) == Success(bound)
      invariant error.Some? ==> BindAll(bind, op.children[..i]) == Failure(error.value)
    {
      assert op.children[..i + 1][..i] == op.children[..i];
      var child := bind(op.children[i]);
      if error.None? {
        if child.Failure? {
          error := Some(child.error);
        } else {
          bound := bound + [child.value];
        }
      }
    }
    assert op.children[..|op.children|] == op.children;
    if error.Some? {
      return Failure(error.value);
    }
    var children := new Expression[|bound|](i requires 0 <= i < |bound| => bound[i]);
    assert children[..] == bound;
    var resultType := ResolveOperatorType(ts, op.kind, children);
    var resultChildren: seq<Expression> := [];
    for i := 0 to children.Length
      invariant resultChildren == children[..i]
    {
      resultChildren := resultChildren + [children[i]];
    }
    assert children[..children.Length] == children[..];
    r := Success(BoundOperatorExpression(op.kind, resultType, resultChildren));
  }
}

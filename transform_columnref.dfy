/**
 * The parser's transformation of a column reference node.  The parse tree
 * gives a list of field nodes; each is a string, a star (`*`) or some other
 * node kind.  The list decides whether the reference is a plain column, a
 * qualified column, a `table.*` or a bare `*`.
 */
module TransformColumnRef {
  import opened Wrappers

  /** The kind of one field node of a parser column reference. */
  datatype Field = StringField(str: string) | StarField | OtherField

  /** The parsed expressions a column reference can become. */
  datatype ParsedExpression =
    | ColumnRef(columnName: string, tableName: string, queryLocation: int)
    | TableStar(relationName: string)
    | Star

  datatype TransformError = NotImplemented(message: string)

  const NOT_IMPLEMENTED := NotImplemented("ColumnRef not implemented!")

  /**
   * The field lists the transformation accepts: a string head followed by at
   * most one string or star field, or a star head with anything after it.
   */
  predicate Accepted(fields: seq<Field>)
    requires |fields| >= 1
  {
    match fields[0]
    case StringField(_) =>
      |fields| == 1 || (|fields| == 2 && (fields[1].StringField? || fields[1].StarField?))
    case StarField => true
    case OtherField => false
  }

  /**
   * Transformer::TransformColumnRef.  The head field is inspected before any
   * length check, so the parser never hands over an empty list.
   */
  function Transform(fields: seq<Field>, location: int): (r: Result<ParsedExpression, TransformError>)
    requires |fields| >= 1
    ensures r.Success? <==> Accepted(fields)
    ensures r.Failure? ==> r.error == NOT_IMPLEMENTED
    ensures r.Success? && r.value.ColumnRef? ==> r.value.queryLocation == location
    ensures fields[0].StarField? ==> r == Success(Star)
  {
    match fields[0]
    case StringField(head) =>
      if |fields| == 1 then
        Success(ColumnRef(head, "", location))
      else if |fields| == 2 then
        match fields[1]
        case StringField(column) => Success(ColumnRef(column, head, location))
        case StarField => Success(TableStar(head))
        case OtherField => Failure(NOT_IMPLEMENTED)
      else
        Failure(NOT_IMPLEMENTED)
    case StarField => Success(Star)
    case OtherField => Failure(NOT_IMPLEMENTED)
  }

  /** The canonical field list that denotes a parsed expression. */
  function FieldsOf(e: ParsedExpression): (fields: seq<Field>)
    ensures |fields| >= 1
  {
    match e
    case ColumnRef(column, table, _) =>
      if table == "" then [StringField(column)] else [StringField(table), StringField(column)]
    case TableStar(table) => [StringField(table), StarField]
    case Star => [StarField]
  }

  /** Transforming the fields of an expression gives that expression back (at the node's location). */
  lemma {:induction false} TransformFieldsOf(e: ParsedExpression, location: int)
    ensures Transform(FieldsOf(e), location) ==
      Success(if e.ColumnRef? then e.(queryLocation := location) else e)
  {
    match e
    case ColumnRef(column, table, _) =>
      if table == "" {
        assert FieldsOf(e) == [StringField(column)];
      } else {
        assert FieldsOf(e) == [StringField(table), StringField(column)];
      }
    case TableStar(table) =>
      assert FieldsOf(e) == [StringField(table), StarField];
    case Star =>
  }

  /**
   * Every accepted field list denotes its result: apart from the tail after a
   * leading star, it is the result's canonical field list, or that list with
   * an explicit empty table name in front.
   */
  lemma {:induction false} TransformDenotes(fields: seq<Field>, location: int)
    requires |fields| >= 1
    requires Transform(fields, location).Success?
    ensures var e := Transform(fields, location).value;
      if e.Star? then fields[0] == StarField
      else fields == FieldsOf(e) || (e.ColumnRef? && e.tableName == "" && fields == [StringField("")] + FieldsOf(e))
  {
  }

  /** A single string field is an unqualified column. */
  lemma SingleStringIsColumn(name: string, location: int)
    ensures Transform([StringField(name)], location) == Success(ColumnRef(name, "", location))
  {
  }

  /** Two string fields are `table.column`. */
  lemma QualifiedColumn(table: string, column: string, location: int)
    ensures Transform([StringField(table), StringField(column)], location) ==
      Success(ColumnRef(column, table, location))
  {
  }
}

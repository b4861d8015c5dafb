/**
 Expressions and conditions of the grammar (language/parse.y): the lexemes that each
 form is written with and the text that its action emits.
 */
module Syntax {
  import DigitText
  import opened Names
  import Placeholder

  // ----- trees -----

  datatype Op = Sub | Add | Mul | Div | BitAnd

  /** field_name: one to four identifiers. */
  datatype FieldRef =
    | Column(column: string)
    | OfTable(table: string, column: string)
    | OfSchema(schema: string, table: string, column: string)
    | OfDatabase(database: string, schema: string, table: string, column: string)

  /** type_name: a name with up to two sizes. */
  datatype TypeName =
    | Plain(name: string)
    | Sized(name: string, size: string)
    | Scaled(name: string, size: string, scale: string)

  datatype Expr =
    | Paren(inner: Expr)
    | Binary(op: Op, left: Expr, right: Expr)
    | Integer(digits: string)
    | NegInteger(digits: string)
    | Decimal(digits: string)
    | NegDecimal(digits: string)
    | Literal(text: string)
    | NLiteral(text: string)
    | Null
    | Field(field: FieldRef)
    | Call0(function_: Name)
    | Call(function_: Name, args: Args)
    | LeftCall(args: Args)
    | Cast(inner: Expr, type_: TypeName)
    | Coalesce(first: Expr, second: Expr)
    | Variable(name: string)

  /** params: left-recursive, as in the grammar. */
  datatype Args = Only(expr: Expr) | More(before: Args, expr: Expr)

  datatype Comparison = Equal | Less | LessEqual | Greater | GreaterEqual | Different

  datatype Cond =
    | Compare(comparison: Comparison, left: Expr, right: Expr)
    | InList(expr: Expr, list: Args)
    | Like(expr: Expr, pattern: Expr)
    | IsNull(expr: Expr)
    | IsNotNull(expr: Expr)
    | And(first: Cond, second: Cond)
    | Or(first: Cond, second: Cond)
    | Not(cond: Cond)
    | Group(cond: Cond)

  // ----- lexemes: what the scanner hands to the grammar -----

  datatype Keyword = KwAnd | KwOr | KwNot | KwIn | KwLike | KwIs | KwNull | KwLeft | KwCast | KwAs | KwCoalesce

  datatype Lexeme =
    | LVar(name: string)
    | LName(name: string)
    | LInteger(digits: string)
    | LDecimal(digits: string)
    | LLiteral(text: string)
    | LNLiteral(text: string)
    | Sym(c: char)
    | Kw(keyword: Keyword)

  predicate Numeral(digits: string) {
    digits != "" && forall i :: 0 <= i < |digits| ==> '0' <= digits[i] <= '9' || digits[i] == '.'
  }

  /** What the scanner lets through: '#' at most in front of a name, and digits with a point in numbers. */
  predicate CleanLexeme(l: Lexeme) {
    match l
    case LName(name) => HashInFront(name)
    case LInteger(digits) => Numeral(digits)
    case LDecimal(digits) => Numeral(digits)
    case _ => true
  }

  predicate Clean(ls: seq<Lexeme>) {
    forall i :: 0 <= i < |ls| ==> CleanLexeme(ls[i])
  }

  lemma CleanJoin(a: seq<Lexeme>, b: seq<Lexeme>)
    ensures Clean(a + b) <==> Clean(a) && Clean(b)
  {
    assert forall i :: 0 <= i < |a| ==> (a + b)[i] == a[i];
    assert forall i :: 0 <= i < |b| ==> (a + b)[|a| + i] == b[i];
  }

  function OpChar(op: Op): char {
    match op
    case Sub => '-'
    case Add => '+'
    case Mul => '*'
    case Div => '/'
    case BitAnd => '&'
  }

  function ComparisonLexemes(c: Comparison): seq<Lexeme> {
    match c
    case Equal => [Sym('=')]
    case Less => [Sym('<')]
    case LessEqual => [Sym('<'), Sym('=')]
    case Greater => [Sym('>')]
    case GreaterEqual => [Sym('>'), Sym('=')]
    case Different => [Sym('<'), Sym('>')]
  }

  const DOT := Sym('.')

  function NameLexemes(n: Name): seq<Lexeme> {
    match n
    case One(relation) => [LName(relation)]
    case Two(schema, relation) => [LName(schema), DOT, LName(relation)]
    case DefaultSchema(database, relation) => [LName(database), DOT, DOT, LName(relation)]
    case Three(database, schema, relation) => [LName(database), DOT, LName(schema), DOT, LName(relation)]
  }

  function FieldLexemes(f: FieldRef): seq<Lexeme> {
    match f
    case Column(c) => [LName(c)]
    case OfTable(t, c) => [LName(t), DOT, LName(c)]
    case OfSchema(s, t, c) => [LName(s), DOT, LName(t), DOT, LName(c)]
    case OfDatabase(d, s, t, c) => [LName(d), DOT, LName(s), DOT, LName(t), DOT, LName(c)]
  }

  function TypeLexemes(t: TypeName): seq<Lexeme> {
    match t
    case Plain(n) => [LName(n)]
    case Sized(n, a) => [LName(n), Sym('('), LInteger(a), Sym(')')]
    case Scaled(n, a, b) => [LName(n), Sym('('), LInteger(a), Sym(','), LInteger(b), Sym(')')]
  }

  function Lexemes(e: Expr): seq<Lexeme> {
    match e
    case Paren(inner) => [Sym('(')] + Lexemes(inner) + [Sym(')')]
    case Binary(op, left, right) => Lexemes(left) + [Sym(OpChar(op))] + Lexemes(right)
    case Integer(d) => [LInteger(d)]
    case NegInteger(d) => [Sym('-'), LInteger(d)]
    case Decimal(d) => [LDecimal(d)]
    case NegDecimal(d) => [Sym('-'), LDecimal(d)]
    case Literal(t) => [LLiteral(t)]
    case NLiteral(t) => [LNLiteral(t)]
    case Null => [Kw(KwNull)]
    case Field(f) => FieldLexemes(f)
    case Call0(n) => NameLexemes(n) + [Sym('('), Sym(')')]
    case Call(n, args) => NameLexemes(n) + [Sym('(')] + ArgLexemes(args) + [Sym(')')]
    case LeftCall(args) => [Kw(KwLeft), Sym('(')] + ArgLexemes(args) + [Sym(')')]
    case Cast(inner, t) => [Kw(KwCast), Sym('(')] + Lexemes(inner) + [Kw(KwAs)] + TypeLexemes(t) + [Sym(')')]
    case Coalesce(a, b) => [Kw(KwCoalesce), Sym('(')] + Lexemes(a) + [Sym(',')] + Lexemes(b) + [Sym(')')]
    case Variable(v) => [LVar(v)]
  }

  function ArgLexemes(args: Args): seq<Lexeme> {
    match args
    case Only(e) => Lexemes(e)
    case More(before, e) => ArgLexemes(before) + [Sym(',')] + Lexemes(e)
  }

  function CondLexemes(c: Cond): seq<Lexeme> {
    match c
    case Compare(cmp, left, right) => Lexemes(left) + ComparisonLexemes(cmp) + Lexemes(right)
    case InList(e, list) => Lexemes(e) + [Kw(KwIn), Sym('(')] + ArgLexemes(list) + [Sym(')')]
    case Like(e, pattern) => Lexemes(e) + [Kw(KwLike)] + Lexemes(pattern)
    case IsNull(e) => Lexemes(e) + [Kw(KwIs), Kw(KwNull)]
    case IsNotNull(e) => Lexemes(e) + [Kw(KwIs), Kw(KwNot), Kw(KwNull)]
    case And(a, b) => CondLexemes(a) + [Kw(KwAnd)] + CondLexemes(b)
    case Or(a, b) => CondLexemes(a) + [Kw(KwOr)] + CondLexemes(b)
    case Not(inner) => [Kw(KwNot)] + CondLexemes(inner)
    case Group(inner) => [Sym('(')] + CondLexemes(inner) + [Sym(')')]
  }

  // ----- emission -----

  /** A piece of PostgreSQL text, or the parameter `$number`. */
  datatype Target = Text(text: string) | Param(number: nat)

  /** The emitted text and the statement's variable list after it. */
  datatype Out = Out(text: seq<Target>, vars: seq<string>)

  /** The position of the first occurrence, or the length of the list. */
  function IndexOf(vars: seq<string>, name: string): (i: nat)
    ensures i <= |vars|
    ensures i < |vars| ==> vars[i] == name
    ensures forall k :: 0 <= k < i ==> vars[k] != name
  {
    if vars == [] then 0
    else if vars[0] == name then 0
    else 1 + IndexOf(vars[1..], name)
  }

  /** vVAR: the variable's number in the list, to which it is added when it is new. */
  function Reduce(vars: seq<string>, name: string): Out {
    var i := IndexOf(vars, name);
    Out([Param(i + 1)], if i == |vars| then vars + [name] else vars)
  }

  function FieldText(f: FieldRef): string {
    match f
    case Column(c) => Alone(Lower(c))
    case OfTable(t, c) => Alone(Lower(t)) + "." + Alone(Lower(c))
    case OfSchema(s, t, c) => Qualified(Placeholder.PLACEHOLDER, Lower(s), Lower(t)) + "." + Alone(Lower(c))
    case OfDatabase(d, s, t, c) => Qualified(Lower(d), Lower(s), Lower(t)) + "." + Alone(Lower(c))
  }

  function TypeText(t: TypeName): string {
    match t
    case Plain(n) => "tsql_" + n
    case Sized(n, a) => "tsql_" + n + "(" + a + ")"
    case Scaled(n, a, b) => "tsql_" + n + "(" + a + ", " + b + ")"
  }

  function LiteralTexts(text: string, type_: string): seq<string> {
    ["'" + text + "'", "::" + type_ + "(" + DigitText.Digits(|text|) + ")"]
  }

  function Texts(words: seq<string>): seq<Target> {
    seq(|words|, i requires 0 <= i < |words| => Text(words[i]))
  }

  /** Text around and between what the parts emit. */
  function Then(a: Out, b: Out): Out {
    Out(a.text + b.text, b.vars)
  }

  function Put(words: seq<string>, after: Out): Out {
    Out(Texts(words) + after.text, after.vars)
  }

  function End(before: Out, words: seq<string>): Out {
    Out(before.text + Texts(words), before.vars)
  }

  function Emit(e: Expr, vars: seq<string>): Out {
    match e
    case Paren(inner) => End(Put(["("], Emit(inner, vars)), [")"])
    case Binary(op, left, right) =>
      var l := End(Emit(left, vars), [[OpChar(op)]]);
      Then(l, Emit(right, l.vars))
    case Integer(d) => Out(Texts([d, "::tsql_int"]), vars)
    case NegInteger(d) => Out(Texts(["-", d, "::tsql_int"]), vars)
    case Decimal(d) => Out(Texts([d, "::tsql_decimal"]), vars)
    case NegDecimal(d) => Out(Texts(["-", d, "::tsql_decimal"]), vars)
    case Literal(t) => Out(Texts(LiteralTexts(t, "tsql_varchar")), vars)
    case NLiteral(t) => Out(Texts(LiteralTexts(t, "tsql_nvarchar")), vars)
    case Null => Out(Texts(["NULL", "::tsql_varchar"]), vars)
    case Field(f) => Out(Texts([FieldText(f)]), vars)
    case Call0(n) => Out(Texts([TableName(LowerName(n)), "(", ")"]), vars)
    case Call(n, args) => End(Put([TableName(LowerName(n)), "("], EmitArgs(args, vars)), [")"])
    case LeftCall(args) => End(Put(["left", "("], EmitArgs(args, vars)), [")"])
    case Cast(inner, t) => End(Put(["CAST", "("], Emit(inner, vars)), ["AS", TypeText(t), ")"])
    case Coalesce(a, b) =>
      var first := End(Put(["tsql_coalesce", "("], Emit(a, vars)), [","]);
      End(Then(first, Emit(b, first.vars)), [")"])
    case Variable(v) => Reduce(vars, Lower(v))
  }

  function EmitArgs(args: Args, vars: seq<string>): Out {
    match args
    case Only(e) => Emit(e, vars)
    case More(before, e) =>
      var b := End(EmitArgs(before, vars), [","]);
      Then(b, Emit(e, b.vars))
  }

  function ComparisonText(c: Comparison): string {
    match c
    case Equal => "="
    case Less => "<"
    case LessEqual => "<="
    case Greater => ">"
    case GreaterEqual => ">="
    case Different => "<>"
  }

  function EmitCond(c: Cond, vars: seq<string>): Out {
    match c
    case Compare(cmp, left, right) =>
      var l := End(Emit(left, vars), [ComparisonText(cmp)]);
      Then(l, Emit(right, l.vars))
    case InList(e, list) =>
      var l := End(Emit(e, vars), ["IN", "("]);
      End(Then(l, EmitArgs(list, l.vars)), [")"])
    case Like(e, pattern) =>
      var l := End(Emit(e, vars), ["LIKE"]);
      Then(l, Emit(pattern, l.vars))
    case IsNull(e) => End(Emit(e, vars), ["IS", "NULL"])
    case IsNotNull(e) => End(Emit(e, vars), ["IS", "NOT", "NULL"])
    case And(a, b) =>
      var l := End(EmitCond(a, vars), ["AND"]);
      Then(l, EmitCond(b, l.vars))
    case Or(a, b) =>
      var l := End(EmitCond(a, vars), ["OR"]);
      Then(l, EmitCond(b, l.vars))
    case Not(inner) => Put(["NOT"], EmitCond(inner, vars))
    case Group(inner) => End(Put(["("], EmitCond(inner, vars)), [")"])
  }
}

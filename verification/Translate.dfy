/**
 Statements of the grammar (language/parse.y): the numbering of variables through the
 statement's list, and what a numbered text means when it is bound again.
 */
module Translate {
  import opened Names
  import opened Syntax
  import Emission
  import Placeholder
  import opened Options

  // ----- source statements -----

  datatype Query = Query(distinct: bool, columns: Args, from: Option<Name>, where_: Option<Cond>, top: Option<string>)

  datatype Union = Lone(query: Query) | UnionOf(before: Union, all: bool, query: Query)

  /** assign_columns: variables, each with the expression of its column. */
  datatype Assigns = Assign1(name: string, expr: Expr) | AssignMore(before: Assigns, name: string, expr: Expr)

  datatype Sql = Rows(union: Union) | Insert(table: Name, values: Args)

  datatype Stmt =
    | Set(name: string, expr: Expr)
    | Run(sql: Sql)
    | Assign(columns: Assigns, from: Option<Name>, where_: Option<Cond>)
    | Print(expr: Expr)
    | Fetch(cursor: string, into: seq<string>)
    | If(cond: Cond, then_: Stmt, else_: Option<Stmt>)
    | While(cond: Cond, body: Stmt)
    | Block(statements: Stmts)
    | Use(database: string)
    | Empty

  /** statements: left-recursive, as in the grammar. */
  datatype Stmts = First(stmt: Stmt) | Append(before: Stmts, stmt: Stmt)

  // ----- emission of queries: names are left in a database called ##DATABASE## -----

  function SelectWords(q: Query): seq<string> {
    if q.distinct then ["SELECT", "DISTINCT"] else ["SELECT"]
  }

  function FromWords(q: Query, current: string): seq<string> {
    match q.from
    case None => []
    case Some(table) => ["FROM", NameIn(LowerName(table), current)]
  }

  function TopWords(q: Query): seq<string> {
    match q.top
    case None => []
    case Some(n) => ["LIMIT", n]
  }

  function EmitQuery(q: Query, vars: seq<string>): Out {
    var columns := End(Put(SelectWords(q), EmitArgs(q.columns, vars)), FromWords(q, Placeholder.PLACEHOLDER));
    match q.where_
    case None => End(columns, TopWords(q))
    case Some(c) =>
      var front := End(columns, ["WHERE"]);
      End(Then(front, EmitCond(c, front.vars)), TopWords(q))
  }

  function UnionWords(all: bool): seq<string> {
    if all then ["UNION", "ALL"] else ["UNION"]
  }

  function EmitUnion(u: Union, vars: seq<string>): Out {
    match u
    case Lone(q) => EmitQuery(q, vars)
    case UnionOf(before, all, q) =>
      var b := End(EmitUnion(before, vars), UnionWords(all));
      Then(b, EmitQuery(q, b.vars))
  }

  function InsertWords(table: Name, current: string): seq<string> {
    ["INSERT", "INTO", NameIn(LowerName(table), current), "VALUES", "("]
  }

  function EmitSql(s: Sql, vars: seq<string>): Out {
    match s
    case Rows(u) => EmitUnion(u, vars)
    case Insert(table, values) =>
      End(Put(InsertWords(table, Placeholder.PLACEHOLDER), EmitArgs(values, vars)), [")", ";"])
  }

  function ColumnsOf(a: Assigns): Args {
    match a
    case Assign1(_, e) => Only(e)
    case AssignMore(before, _, e) => More(ColumnsOf(before), e)
  }

  function AssignNames(a: Assigns): seq<string> {
    match a
    case Assign1(name, _) => [Lower(name)]
    case AssignMore(before, name, _) => AssignNames(before) + [Lower(name)]
  }

  /** assign_select: the query of the columns, without their variables. */
  function AssignQuery(a: Assigns, from: Option<Name>, where_: Option<Cond>): Query {
    Query(false, ColumnsOf(a), from, where_, None)
  }

  // ----- compiled statements -----

  /** A statement object; `vars` is the list that its text is numbered by. */
  datatype Code =
    | SetCode(vars: seq<string>, text: seq<Target>, name: string)
    | SqlCode(vars: seq<string>, text: seq<Target>)
    | AssignCode(vars: seq<string>, text: seq<Target>, names: seq<string>)
    | PrintCode(vars: seq<string>, text: seq<Target>)
    | FetchCode(vars: seq<string>, cursor: string, into: seq<string>)
    | IfCode(vars: seq<string>, text: seq<Target>, then_: Code, else_: Option<Code>)
    | WhileCode(vars: seq<string>, text: seq<Target>, body: Code)
    | BlockCode(vars: seq<string>, statements: seq<Code>)
    | UseCode(vars: seq<string>, database: string)
    | EmptyCode(vars: seq<string>)

  function LowerAll(names: seq<string>): seq<string> {
    seq(|names|, i requires 0 <= i < |names| => Lower(names[i]))
  }

  /** Every statement's text is numbered from an empty list of its own. */
  function Compile(s: Stmt): Code {
    match s
    case Set(name, e) =>
      var o := Put(["SELECT"], Emit(e, []));
      SetCode(o.vars, o.text, Lower(name))
    case Run(sql) =>
      var o := EmitSql(sql, []);
      SqlCode(o.vars, o.text)
    case Assign(columns, from, where_) =>
      var o := EmitQuery(AssignQuery(columns, from, where_), []);
      AssignCode(o.vars, o.text, AssignNames(columns))
    case Print(e) =>
      var o := Emit(e, []);
      PrintCode(o.vars, o.text)
    case Fetch(cursor, into) => FetchCode([], cursor, LowerAll(into))
    case If(c, then_, else_) =>
      var o := EmitCond(c, []);
      IfCode(o.vars, o.text, Compile(then_), if else_.None? then None else Some(Compile(else_.value)))
    case While(c, body) =>
      var o := EmitCond(c, []);
      WhileCode(o.vars, o.text, Compile(body))
    case Block(body) => BlockCode([], CompileAll(body))
    case Use(database) => UseCode([], Lower(database))
    case Empty => EmptyCode([])
  }

  function CompileAll(b: Stmts): seq<Code> {
    match b
    case First(s) => [Compile(s)]
    case Append(before, s) => CompileAll(before) + [Compile(s)]
  }

  // ----- the grammar's actions -----

  /** The parser's state: args->stmt_vars. */
  class Parser {
    var stmtVars: seq<string>

    constructor ()
      ensures stmtVars == []
    {
      stmtVars := [];
    }

    /** vVAR: a search of the list, and an append when it fails. */
    method ReduceVar(name: string) returns (text: seq<Target>)
      modifies this
      ensures Out(text, stmtVars) == Reduce(old(stmtVars), Lower(name))
    {
      var s := Lower(name);
      var i := 0;
      while i < |stmtVars|
        invariant i <= |stmtVars| && stmtVars == old(stmtVars)
        invariant forall k :: 0 <= k < i ==> stmtVars[k] != s
      {
        if stmtVars[i] == s {
          break;
        }
        i := i + 1;
      }
      if i == |stmtVars| {
        stmtVars := stmtVars + [s];
      }
      text := [Param(i + 1)];
    }

    method ReduceExpr(e: Expr) returns (text: seq<Target>)
      modifies this
      ensures Out(text, stmtVars) == Emit(e, old(stmtVars))
      decreases e
    {
      match e
      case Paren(inner) =>
        text := ReduceExpr(inner);
        text := Texts(["("]) + text + Texts([")"]);
      case Binary(op, left, right) =>
        var l := ReduceExpr(left);
        text := ReduceExpr(right);
        text := l + Texts([[OpChar(op)]]) + text;
      case Call(n, args) =>
        text := ReduceArgs(args);
        text := Texts([TableName(LowerName(n)), "("]) + text + Texts([")"]);
      case LeftCall(args) =>
        text := ReduceArgs(args);
        text := Texts(["left", "("]) + text + Texts([")"]);
      case Cast(inner, t) =>
        text := ReduceExpr(inner);
        text := Texts(["CAST", "("]) + text + Texts(["AS", TypeText(t), ")"]);
      case Coalesce(a, b) =>
        var l := ReduceExpr(a);
        text := ReduceExpr(b);
        text := Texts(["tsql_coalesce", "("]) + l + Texts([","]) + text + Texts([")"]);
      case Variable(v) => text := ReduceVar(v);
      case Integer(d) => text := Texts([d, "::tsql_int"]);
      case NegInteger(d) => text := Texts(["-", d, "::tsql_int"]);
      case Decimal(d) => text := Texts([d, "::tsql_decimal"]);
      case NegDecimal(d) => text := Texts(["-", d, "::tsql_decimal"]);
      case Literal(t) => text := Texts(LiteralTexts(t, "tsql_varchar"));
      case NLiteral(t) => text := Texts(LiteralTexts(t, "tsql_nvarchar"));
      case Null => text := Texts(["NULL", "::tsql_varchar"]);
      case Field(f) => text := Texts([FieldText(f)]);
      case Call0(n) => text := Texts([TableName(LowerName(n)), "(", ")"]);
    }

    method ReduceArgs(args: Args) returns (text: seq<Target>)
      modifies this
      ensures Out(text, stmtVars) == EmitArgs(args, old(stmtVars))
      decreases args
    {
      match args
      case Only(e) => text := ReduceExpr(e);
      case More(before, e) =>
        var l := ReduceArgs(before);
        text := ReduceExpr(e);
        text := l + Texts([","]) + text;
    }

    method ReduceCond(c: Cond) returns (text: seq<Target>)
      modifies this
      ensures Out(text, stmtVars) == EmitCond(c, old(stmtVars))
      decreases c
    {
      match c
      case Compare(cmp, left, right) =>
        var l := ReduceExpr(left);
        text := ReduceExpr(right);
        text := l + Texts([ComparisonText(cmp)]) + text;
      case InList(e, list) =>
        var l := ReduceExpr(e);
        text := ReduceArgs(list);
        text := l + Texts(["IN", "("]) + text + Texts([")"]);
      case Like(e, pattern) =>
        var l := ReduceExpr(e);
        text := ReduceExpr(pattern);
        text := l + Texts(["LIKE"]) + text;
      case IsNull(e) =>
        text := ReduceExpr(e);
        text := text + Texts(["IS", "NULL"]);
      case IsNotNull(e) =>
        text := ReduceExpr(e);
        text := text + Texts(["IS", "NOT", "NULL"]);
      case And(a, b) =>
        var l := ReduceCond(a);
        text := ReduceCond(b);
        text := l + Texts(["AND"]) + text;
      case Or(a, b) =>
        var l := ReduceCond(a);
        text := ReduceCond(b);
        text := l + Texts(["OR"]) + text;
      case Not(inner) =>
        text := ReduceCond(inner);
        text := Texts(["NOT"]) + text;
      case Group(inner) =>
        text := ReduceCond(inner);
        text := Texts(["("]) + text + Texts([")"]);
    }

    method ReduceAssigns(a: Assigns) returns (text: seq<Target>, names: seq<string>)
      modifies this
      ensures Out(text, stmtVars) == EmitArgs(ColumnsOf(a), old(stmtVars))
      ensures names == AssignNames(a)
      decreases a
    {
      match a
      case Assign1(name, e) =>
        text := ReduceExpr(e);
        names := [Lower(name)];
      case AssignMore(before, name, e) =>
        var l;
        l, names := ReduceAssigns(before);
        text := ReduceExpr(e);
        text := l + Texts([","]) + text;
        names := names + [Lower(name)];
    }

    method ReduceAssignSelect(a: Assigns, from: Option<Name>, where_: Option<Cond>)
      returns (text: seq<Target>, names: seq<string>)
      modifies this
      ensures Out(text, stmtVars) == EmitQuery(AssignQuery(a, from, where_), old(stmtVars))
      ensures names == AssignNames(a)
    {
      var q := AssignQuery(a, from, where_);
      text, names := ReduceAssigns(a);
      text := Texts(["SELECT"]) + text + Texts(FromWords(q, Placeholder.PLACEHOLDER));
      match where_
      case None => text := text + Texts(TopWords(q));
      case Some(c) =>
        var condition := ReduceCond(c);
        text := text + Texts(["WHERE"]) + condition + Texts(TopWords(q));
    }

    method ReduceQuery(q: Query) returns (text: seq<Target>)
      modifies this
      ensures Out(text, stmtVars) == EmitQuery(q, old(stmtVars))
    {
      text := ReduceArgs(q.columns);
      text := Texts(SelectWords(q)) + text + Texts(FromWords(q, Placeholder.PLACEHOLDER));
      match q.where_
      case None => text := text + Texts(TopWords(q));
      case Some(c) =>
        var condition := ReduceCond(c);
        text := text + Texts(["WHERE"]) + condition + Texts(TopWords(q));
    }

    method ReduceUnion(u: Union) returns (text: seq<Target>)
      modifies this
      ensures Out(text, stmtVars) == EmitUnion(u, old(stmtVars))
      decreases u
    {
      match u
      case Lone(q) => text := ReduceQuery(q);
      case UnionOf(before, all, q) =>
        var l := ReduceUnion(before);
        text := ReduceQuery(q);
        text := l + Texts(UnionWords(all)) + text;
    }

    method ReduceSql(s: Sql) returns (text: seq<Target>)
      modifies this
      ensures Out(text, stmtVars) == EmitSql(s, old(stmtVars))
    {
      match s
      case Rows(u) => text := ReduceUnion(u);
      case Insert(table, values) =>
        text := ReduceArgs(values);
        text := Texts(InsertWords(table, Placeholder.PLACEHOLDER)) + text + Texts([")", ";"]);
    }

    /** statement: the list goes to the statement and is cleared. */
    method Statement(s: Stmt) returns (code: Code)
      requires stmtVars == []
      modifies this
      ensures code == Compile(s)
      ensures stmtVars == []
      decreases s, 1
    {
      code := Rule(s);
      code := code.(vars := stmtVars);
      stmtVars := [];
    }

    /** The rule of each kind; _if and _while put the condition's list aside for their statements. */
    method Rule(s: Stmt) returns (code: Code)
      requires stmtVars == []
      modifies this
      ensures code.(vars := stmtVars) == Compile(s)
      decreases s, 0
    {
      match s
      case Set(name, e) =>
        var text := ReduceExpr(e);
        code := SetCode([], Texts(["SELECT"]) + text, Lower(name));
      case Run(sql) =>
        var text := ReduceSql(sql);
        code := SqlCode([], text);
      case Assign(columns, from, where_) =>
        var text, names := ReduceAssignSelect(columns, from, where_);
        code := AssignCode([], text, names);
      case Print(e) =>
        var text := ReduceExpr(e);
        code := PrintCode([], text);
      case Fetch(cursor, into) => code := FetchCode([], cursor, LowerAll(into));
      case If(c, then_, else_) =>
        var text := ReduceCond(c);
        var saved := stmtVars;
        stmtVars := [];
        var yes := Statement(then_);
        var no: Option<Code> := None;
        if else_.Some? {
          var n := Statement(else_.value);
          no := Some(n);
        }
        stmtVars := saved;
        code := IfCode([], text, yes, no);
      case While(c, body) =>
        var text := ReduceCond(c);
        var saved := stmtVars;
        stmtVars := [];
        var b := Statement(body);
        stmtVars := saved;
        code := WhileCode([], text, b);
      case Block(body) =>
        var codes := Statements(body);
        code := BlockCode([], codes);
      case Use(database) => code := UseCode([], Lower(database));
      case Empty => code := EmptyCode([]);
    }

    method Statements(b: Stmts) returns (codes: seq<Code>)
      requires stmtVars == []
      modifies this
      ensures codes == CompileAll(b)
      ensures stmtVars == []
      decreases b
    {
      match b
      case First(s) =>
        var c := Statement(s);
        codes := [c];
      case Append(before, s) =>
        codes := Statements(before);
        var c := Statement(s);
        codes := codes + [c];
    }
  }

  // ----- numbering -----

  predicate Distinct(vars: seq<string>) {
    forall i, j :: 0 <= i < j < |vars| ==> vars[i] != vars[j]
  }

  /** Every parameter of the text has a variable. */
  predicate Numbered(text: seq<Target>, n: nat) {
    forall i :: 0 <= i < |text| && text[i].Param? ==> 1 <= text[i].number <= n
  }

  /** The list only grows at its end and stays free of duplicates; numbers given before keep their variable. */
  lemma {:induction false} PassGrows(ls: seq<Lexeme>, vars: seq<string>)
    ensures var o := Emission.Pass(ls, vars);
            && vars <= o.vars
            && (Distinct(vars) ==> Distinct(o.vars))
            && Numbered(o.text, |o.vars|)
    decreases |ls|
  {
    if ls != [] {
      match Emission.Next(ls, Placeholder.PLACEHOLDER)
      case Words(n, words) => PassGrows(ls[n..], vars);
      case Occurrence(n, name) => PassGrows(ls[n..], Reduce(vars, name).vars);
    }
  }
}

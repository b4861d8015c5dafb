/**
 The strings that the actions of whole statements print (language/parse.y,
 language/stmt_print.h): the tokens of each statement spell them.
 */
module Queries {
  import opened Bytes
  import Exec
  import Literals
  import opened Names
  import opened Options
  import Placeholder
  import Preserve
  import opened Spelling
  import opened Syntax
  import opened Translate

  // ----- the formats -----

  /** A clause that is not there leaves nothing, not even its blank. */
  function FormatFrom(from: Option<Name>): string {
    match from
    case None => ""
    case Some(n) => " FROM " + FormatTable(n)
  }

  function FormatWhere(where_: Option<Cond>, vars: seq<string>): string {
    match where_
    case None => ""
    case Some(c) => " WHERE " + FormatCond(c, vars)
  }

  function FormatTop(top: Option<string>): string {
    match top
    case None => ""
    case Some(n) => " LIMIT " + n
  }

  /** TOP n comes first in the source and last in the text. */
  function FormatQuery(q: Query, vars: seq<string>): string {
    (if q.distinct then "SELECT DISTINCT " else "SELECT ") + FormatArgs(q.columns, vars) + FormatFrom(q.from)
    + FormatWhere(q.where_, EmitArgs(q.columns, vars).vars) + FormatTop(q.top)
  }

  function FormatUnion(u: Union, vars: seq<string>): string {
    match u
    case Lone(q) => FormatQuery(q, vars)
    case UnionOf(before, all, q) =>
      FormatUnion(before, vars) + (if all then " UNION ALL " else " UNION ")
      + FormatQuery(q, EmitUnion(before, vars).vars)
  }

  function FormatSql(s: Sql, vars: seq<string>): string {
    match s
    case Rows(u) => FormatUnion(u, vars)
    case Insert(table, values) => "INSERT INTO " + FormatTable(table) + " VALUES (" + FormatArgs(values, vars) + ");"
  }

  /** assign_columns: the expressions with commas, and the variables in their order. */
  function FormatAssigns(a: Assigns, vars: seq<string>): string {
    match a
    case Assign1(_, e) => Format(e, vars)
    case AssignMore(before, _, e) => FormatAssigns(before, vars) + ", " + Format(e, AfterAssigns(before, vars))
  }

  /** The list behind the expressions. */
  function AfterAssigns(a: Assigns, vars: seq<string>): seq<string> {
    match a
    case Assign1(_, e) => Emit(e, vars).vars
    case AssignMore(before, _, e) => Emit(e, AfterAssigns(before, vars)).vars
  }

  function FormatStatement(s: Stmt): string
    requires Preserve.Simple(s)
  {
    match s
    case Set(_, e) => "SELECT " + Format(e, [])
    case Run(sql) => FormatSql(sql, [])
    case Assign(columns, from, where_) =>
      "SELECT " + FormatAssigns(columns, []) + FormatFrom(from) + FormatWhere(where_, AfterAssigns(columns, []))
    case Print(e) => "SELECT CAST(" + Format(e, []) + " AS tsql_varchar)"
  }

  // ----- clauses -----

  /** Two plain words behind a text. */
  lemma SpellClause(a: seq<Target>, v: string, w: string)
    requires Operand(a) && Opaque(v) && Opaque(w)
    ensures Operand(a + Texts([v, w])) && Spell(a + Texts([v, w])) == Spell(a) + (" " + v + " " + w)
  {
    hide Spell, IsOpener, Starts;
    var b := Texts([v, w]);
    TwoWords(v, w);
    SpellBehind(a, b, v);
    assert (a + b)[0] == a[0] && (a + b)[|a + b| - 1] == b[1];
    Assoc3(Spell(a), " ", v, " " + w);
    Assoc(" ", v, " " + w);
    Assoc(v, " ", w);
    Assoc(" " + v, " ", w);
  }

  lemma ClauseWords()
    ensures Opaque("FROM") && Opaque("LIMIT")
  {
    hide IsOpener;
    assert "FROM"[0] == 'F' && "LIMIT"[0] == 'L' && |"LIMIT"[1..]| == 4;
    NoOpener("FROM");
    NoOpener("LIMIT");
  }

  lemma TableOpaque(n: Name)
    ensures Opaque(FormatTable(n))
  {
    hide Lower;
    assert FormatTable(n)[0] == '"' by {
      assert "\"##DATABASE##."[0] == '"';
    }
    QuotedOpaque(FormatTable(n));
  }

  lemma SpellsFrom(a: seq<Target>, q: Query)
    requires Operand(a)
    ensures var text := a + Texts(FromWords(q, Placeholder.PLACEHOLDER));
            Operand(text) && Spell(text) == Spell(a) + FormatFrom(q.from)
  {
    hide Spell, Operand, Opaque, FormatTable, NameIn;
    match q.from
    case None => assert a + Texts([]) == a && Spell(a) + "" == Spell(a);
    case Some(n) =>
      TableFormat(n);
      TableOpaque(n);
      ClauseWords();
      SpellClause(a, "FROM", FormatTable(n));
      assert " " + "FROM" + " " == " FROM ";
  }

  lemma SpellsTop(a: seq<Target>, q: Query)
    requires Operand(a) && Clean(Literals.TopLexemes(q.top))
    ensures var text := a + Texts(TopWords(q));
            Operand(text) && Spell(text) == Spell(a) + FormatTop(q.top)
  {
    hide Spell, Operand, Opaque;
    match q.top
    case None => assert a + Texts([]) == a && Spell(a) + "" == Spell(a);
    case Some(n) =>
      assert CleanLexeme(Literals.TopLexemes(q.top)[0]);
      NumeralOpaque(n);
      ClauseWords();
      SpellClause(a, "LIMIT", n);
      assert " " + "LIMIT" + " " == " LIMIT ";
  }

  lemma SpellsWhere(a: seq<Target>, c: seq<Target>)
    requires Operand(a) && Operand(c)
    ensures Operand(a + Texts(["WHERE"]) + c) && Spell(a + Texts(["WHERE"]) + c) == Spell(a) + (" WHERE " + Spell(c))
  {
    hide Spell, Operand;
    assert Texts(["WHERE"]) == [Text("WHERE")];
    SpellInfix(a, "WHERE", c);
    assert " " + "WHERE" + " " == " WHERE ";
    Assoc(Spell(a), " WHERE ", Spell(c));
  }

  lemma SpellsSelect(q: Query, columns: seq<Target>)
    requires Operand(columns)
    ensures var text := Texts(SelectWords(q)) + columns;
            Operand(text) && Spell(text) == (if q.distinct then "SELECT DISTINCT " else "SELECT ") + Spell(columns)
  {
    hide Spell, Operand;
    if q.distinct {
      SpellFront("DISTINCT", columns);
      SpellFront("SELECT", Texts(["DISTINCT"]) + columns);
      assert Texts(["SELECT", "DISTINCT"]) + columns == Texts(["SELECT"]) + (Texts(["DISTINCT"]) + columns);
      assert "SELECT" + " " + ("DISTINCT" + " ") == "SELECT DISTINCT ";
      Assoc("SELECT" + " ", "DISTINCT" + " ", Spell(columns));
    } else {
      SpellFront("SELECT", columns);
      assert "SELECT" + " " == "SELECT ";
    }
  }

  // ----- whole queries -----

  lemma SpellsQuery(q: Query, vars: seq<string>)
    requires Clean(Literals.QueryLexemes(q))
    ensures Operand(EmitQuery(q, vars).text) && Spell(EmitQuery(q, vars).text) == FormatQuery(q, vars)
  {
    hide *;
    QueryClean(q);
    var columns := EmitArgs(q.columns, vars);
    SpellsArgs(q.columns, vars);
    SpellsSelect(q, columns.text);
    var head := Texts(SelectWords(q)) + columns.text;
    SpellsFrom(head, q);
    var front := head + Texts(FromWords(q, Placeholder.PLACEHOLDER));
    var words := if q.distinct then "SELECT DISTINCT " else "SELECT ";
    var text := words + FormatArgs(q.columns, vars) + FormatFrom(q.from);
    assert Spell(front) == text;
    match q.where_ {
      case None =>
        SpellsTop(front, q);
        assert text + "" == text;
        QueryText(q, vars);
      case Some(c) =>
        SpellsCond(c, columns.vars);
        var condition := EmitCond(c, columns.vars).text;
        SpellsWhere(front, condition);
        SpellsTop(front + Texts(["WHERE"]) + condition, q);
        QueryText(q, vars);
    }
  }

  /** What both are made of. */
  lemma QueryText(q: Query, vars: seq<string>)
    ensures var columns := EmitArgs(q.columns, vars);
            var front := Texts(SelectWords(q)) + columns.text + Texts(FromWords(q, Placeholder.PLACEHOLDER));
            var words := if q.distinct then "SELECT DISTINCT " else "SELECT ";
            var text := words + FormatArgs(q.columns, vars) + FormatFrom(q.from);
            && (q.where_.None? ==>
                  && EmitQuery(q, vars).text == front + Texts(TopWords(q))
                  && FormatQuery(q, vars) == text + "" + FormatTop(q.top))
            && (q.where_.Some? ==>
                  && EmitQuery(q, vars).text
                     == front + Texts(["WHERE"]) + EmitCond(q.where_.value, columns.vars).text + Texts(TopWords(q))
                  && FormatQuery(q, vars)
                     == text + (" WHERE " + FormatCond(q.where_.value, columns.vars)) + FormatTop(q.top))
  {
    hide EmitArgs, EmitCond, FormatArgs, FormatCond, SelectWords, FromWords, TopWords, FormatFrom, FormatTop;
  }

  lemma QueryClean(q: Query)
    requires Clean(Literals.QueryLexemes(q))
    ensures Clean(ArgLexemes(q.columns)) && Clean(Literals.TopLexemes(q.top))
    ensures q.where_.Some? ==> Clean(CondLexemes(q.where_.value))
  {
    hide Clean, Lexemes;
    var a, b, c, d := ArgLexemes(q.columns), Literals.FromLexemes(q.from), Literals.WhereLexemes(q.where_),
                      Literals.TopLexemes(q.top);
    CleanJoin(a + b + c, d);
    CleanJoin(a + b, c);
    CleanJoin(a, b);
  }

  lemma SpellsBoth(a: seq<Target>, all: bool, b: seq<Target>)
    requires Operand(a) && Operand(b)
    ensures var text := a + Texts(UnionWords(all)) + b;
            Operand(text) && Spell(text) == Spell(a) + (if all then " UNION ALL " else " UNION ") + Spell(b)
  {
    hide Spell, Operand;
    assert Texts(["UNION"]) == [Text("UNION")];
    if all {
      SpellFront("ALL", b);
      SpellInfix(a, "UNION", Texts(["ALL"]) + b);
      assert a + Texts(["UNION", "ALL"]) + b == a + [Text("UNION")] + (Texts(["ALL"]) + b);
      assert " " + "UNION" + " " + ("ALL" + " ") == " UNION ALL ";
      Assoc3(Spell(a), " " + "UNION" + " ", "ALL" + " ", Spell(b));
      Assoc(" " + "UNION" + " ", "ALL" + " ", Spell(b));
    } else {
      SpellInfix(a, "UNION", b);
      assert " " + "UNION" + " " == " UNION ";
    }
  }

  lemma {:induction false} SpellsUnion(u: Union, vars: seq<string>)
    requires Clean(Literals.UnionLexemes(u))
    ensures Operand(EmitUnion(u, vars).text) && Spell(EmitUnion(u, vars).text) == FormatUnion(u, vars)
    decreases u
  {
    hide Clean, Operand, Spell, EmitQuery, FormatQuery, Literals.QueryLexemes, UnionWords;
    match u
    case Lone(q) => SpellsQuery(q, vars);
    case UnionOf(before, all, q) =>
      CleanJoin(Literals.UnionLexemes(before), Literals.QueryLexemes(q));
      SpellsUnion(before, vars);
      var b := EmitUnion(before, vars);
      SpellsQuery(q, b.vars);
      SpellsBoth(b.text, all, EmitQuery(q, b.vars).text);
  }

  // ----- INSERT -----

  lemma InsertWordsClean()
    ensures Opaque("INSERT") && Opaque("INTO") && Opaque("VALUES")
  {
    hide IsOpener;
    assert "INSERT"[0] == 'I' && "INTO"[0] == 'I' && "VALUES"[0] == 'V';
    NoOpener("INSERT");
    NoOpener("INTO");
    NoOpener("VALUES");
  }

  lemma InsertFront(name: string)
    requires Opaque(name)
    ensures var front := Texts(["INSERT", "INTO", name, "VALUES"]);
            Operand(front) && Spell(front) == "INSERT INTO " + name + " VALUES"
  {
    hide Spell, Operand, Opaque;
    InsertWordsClean();
    TwoWords("INSERT", "INTO");
    SpellClause(Texts(["INSERT", "INTO"]), name, "VALUES");
    assert Texts(["INSERT", "INTO"]) + Texts([name, "VALUES"]) == Texts(["INSERT", "INTO", name, "VALUES"]);
    assert "INSERT" + " " + "INTO" + " " == "INSERT INTO " && " " + "VALUES" == " VALUES";
    Assoc3("INSERT" + " " + "INTO", " ", name, " " + "VALUES");
    Assoc(" " + name, " ", "VALUES");
    Assoc("INSERT" + " " + "INTO", " ", name);
    Assoc("INSERT" + " " + "INTO", " " + name, " " + "VALUES");
  }

  /** A parenthesis behind a plain word, and what stands in it. */
  lemma SpellsList(a: seq<Target>, list: seq<Target>)
    requires Operand(a) && Operand(list) && a[|a| - 1] == Text("VALUES")
    ensures Spell(a + [Text("(")] + list + [Text(")")] + [Text(";")]) == Spell(a) + " (" + Spell(list) + ");"
    ensures Operand(a + [Text("(")] + list + [Text(")")] + [Text(";")])
  {
    hide Spell, IsOpener, Spaced;
    var head := a + [Text("(")];
    var all := head + list + [Text(")")];
    ListGaps(a, all);
    SpellJoin(a, [Text("(")]);
    SpellOne(Text("("));
    SpellParen(head, list);
    SpellJoin(all, [Text(";")]);
    SpellOne(Text(";"));
    assert (all + [Text(";")])[0] == a[0];
    SemicolonOpensNothing();
    Assoc(Spell(a), " ", "(");
    assert " " + "(" == " (";
    Assoc(Spell(head) + Spell(list), ")", ";");
    assert Spell(all) + "" == Spell(all) && ")" + ";" == ");";
  }

  lemma SemicolonOpensNothing()
    ensures !IsOpener(Text(";"))
  {
  }

  lemma ListGaps(a: seq<Target>, all: seq<Target>)
    requires Operand(a) && a[|a| - 1] == Text("VALUES") && all != []
    ensures Gap(a, Text("(")) && Meets(a, [Text("(")]) && !Gap(all, Text(";")) && Meets(all, [Text(";")])
  {
    hide IsOpener;
    SignOpens();
    var s, t := a + [Text("(")], all + [Text(";")];
    assert s[|a|] == Text("(") && s[|a| - 1] == a[|a| - 1] && t[|all|] == Text(";");
    assert "VALUES"[0] == 'V';
  }

  lemma SpellsInsert(table: Name, values: Args, vars: seq<string>)
    requires Clean(ArgLexemes(values))
    ensures var sql := Insert(table, values);
            Operand(EmitSql(sql, vars).text) && Spell(EmitSql(sql, vars).text) == FormatSql(sql, vars)
  {
    hide *;
    var list := EmitArgs(values, vars).text;
    SpellsArgs(values, vars);
    TableFormat(table);
    TableOpaque(table);
    InsertFront(FormatTable(table));
    var front := Texts(["INSERT", "INTO", FormatTable(table), "VALUES"]);
    LastWord(FormatTable(table));
    SpellsList(front, list);
    InsertText(table, values, vars);
    InsertSpelled(FormatTable(table), FormatArgs(values, vars));
  }

  lemma LastWord(name: string)
    ensures var front := Texts(["INSERT", "INTO", name, "VALUES"]);
            |front| == 4 && front[|front| - 1] == Text("VALUES")
  {
  }

  lemma InsertText(table: Name, values: Args, vars: seq<string>)
    requires TableName(LowerName(table)) == FormatTable(table)
    ensures var front := Texts(["INSERT", "INTO", FormatTable(table), "VALUES"]);
            EmitSql(Insert(table, values), vars).text
            == front + [Text("(")] + EmitArgs(values, vars).text + [Text(")")] + [Text(";")]
    ensures FormatSql(Insert(table, values), vars)
         == "INSERT INTO " + FormatTable(table) + " VALUES (" + FormatArgs(values, vars) + ");"
  {
    hide EmitArgs, FormatArgs, FormatTable, NameIn;
    var name := FormatTable(table);
    assert Texts(["INSERT", "INTO", name, "VALUES", "("]) == Texts(["INSERT", "INTO", name, "VALUES"]) + [Text("(")];
    assert Texts([")", ";"]) == [Text(")")] + [Text(";")];
    Assoc(Texts(["INSERT", "INTO", name, "VALUES", "("]) + EmitArgs(values, vars).text, [Text(")")], [Text(";")]);
  }

  lemma InsertSpelled(name: string, list: string)
    ensures "INSERT INTO " + name + " VALUES" + " (" + list + ");" == "INSERT INTO " + name + " VALUES (" + list + ");"
  {
    Assoc("INSERT INTO " + name, " VALUES", " (");
    assert " VALUES" + " (" == " VALUES (";
  }

  lemma SpellsSql(s: Sql, vars: seq<string>)
    requires Clean(Literals.SqlLexemes(s))
    ensures Operand(EmitSql(s, vars).text) && Spell(EmitSql(s, vars).text) == FormatSql(s, vars)
  {
    hide Clean, Operand, Spell, EmitUnion, FormatUnion;
    match s
    case Rows(u) => SpellsUnion(u, vars);
    case Insert(table, values) =>
      CleanJoin(NameLexemes(table), ArgLexemes(values));
      SpellsInsert(table, values, vars);
  }

  // ----- statements -----

  lemma {:induction false} AssignsFormat(a: Assigns, vars: seq<string>)
    ensures FormatArgs(ColumnsOf(a), vars) == FormatAssigns(a, vars)
    ensures EmitArgs(ColumnsOf(a), vars).vars == AfterAssigns(a, vars)
    decreases a
  {
    hide Format, Emit;
    if a.AssignMore? {
      AssignsFormat(a.before, vars);
    }
  }

  /** The tree that the grammar grows from a list of assignments. */
  function Grown(ps: seq<(string, Expr)>): Assigns
    requires ps != []
  {
    var (name, e) := ps[|ps| - 1];
    if |ps| == 1 then Assign1(name, e) else AssignMore(Grown(ps[..|ps| - 1]), name, e)
  }

  /** The statement object keeps the variables in the order in which they were written, in lower case. */
  lemma {:induction false} AssignsInOrder(ps: seq<(string, Expr)>)
    requires ps != []
    ensures |AssignNames(Grown(ps))| == |ps|
    ensures forall i :: 0 <= i < |ps| ==> AssignNames(Grown(ps))[i] == Lower(ps[i].0)
  {
    hide Lower;
    if |ps| > 1 {
      var before := ps[..|ps| - 1];
      AssignsInOrder(before);
      forall i | 0 <= i < |ps|
        ensures AssignNames(Grown(ps))[i] == Lower(ps[i].0)
      {
        if i < |before| {
          assert before[i] == ps[i];
        }
      }
    }
  }

  lemma SpellsPrint(e: Expr)
    requires Clean(Lexemes(e))
    ensures Spell(Exec.PrintText(Emit(e, []).text)) == "SELECT CAST(" + Format(e, []) + " AS tsql_varchar)"
  {
    hide Spell, Operand, Clean, Lexemes, Format, Emit;
    var inner, t := Emit(e, []).text, Plain("varchar");
    SpellsExpr(e, []);
    SpellCast(inner, t);
    var cast_ := Texts(["CAST", "("]) + inner + Texts(["AS", TypeText(t), ")"]);
    SpellFront("SELECT", cast_);
    assert TypeText(t) == "tsql_varchar";
    assert Texts(["SELECT", "CAST", "("]) == Texts(["SELECT"]) + Texts(["CAST", "("]);
    Assoc3(Texts(["SELECT"]), Texts(["CAST", "("]), inner, Texts(["AS", TypeText(t), ")"]));
    Assoc(Texts(["CAST", "("]), inner, Texts(["AS", TypeText(t), ")"]));
    PrintFormat(Format(e, []));
  }

  lemma PrintFormat(inner: string)
    ensures "SELECT" + " " + ("CAST(" + inner + (" AS " + "tsql_varchar" + ")"))
         == "SELECT CAST(" + inner + " AS tsql_varchar)"
  {
    assert "SELECT" + " " + "CAST(" == "SELECT CAST(" && " AS " + "tsql_varchar" + ")" == " AS tsql_varchar)";
  }

  /** The text that the statement object sends, and what else it keeps. */
  function SentText(s: Stmt): seq<Target>
    requires Preserve.Simple(s)
  {
    match Compile(s)
    case SetCode(_, text, _) => text
    case SqlCode(_, text) => text
    case AssignCode(_, text, _) => text
    case PrintCode(_, text) => Exec.PrintText(text)
  }

  /** What each statement sends spells the string that its actions print. */
  lemma SpellsStatement(s: Stmt)
    requires Preserve.Simple(s) && Clean(Preserve.StmtLexemes(s))
    ensures Spell(SentText(s)) == FormatStatement(s)
  {
    hide Spell, Operand, Clean, Emit, Format, EmitSql, FormatSql, EmitQuery, FormatArgs, FormatFrom, FormatWhere,
         Exec.PrintText, Literals.QueryLexemes, Literals.SqlLexemes;
    match s
    case Set(_, e) =>
      SpellsExpr(e, []);
      SpellFront("SELECT", Emit(e, []).text);
      assert "SELECT" + " " == "SELECT ";
    case Run(sql) => SpellsSql(sql, []);
    case Assign(columns, from, where_) =>
      SpellsQuery(AssignQuery(columns, from, where_), []);
      AssignsFormat(columns, []);
      var text := "SELECT " + FormatAssigns(columns, []) + FormatFrom(from)
                  + FormatWhere(where_, AfterAssigns(columns, []));
      assert text + "" == text;
    case Print(e) => SpellsPrint(e);
  }
}

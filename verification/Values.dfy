/**
 What a statement's text means: the text with every variable replaced by its value.
 The numbered text, bound to the values of its list at run time, means the same.
 */
module Values {
  import Bytes
  import opened Names
  import opened Placeholder
  import opened Syntax
  import Emission
  import opened Translate
  import opened Options

  /** A tsql_var: SQL NULL, or a datum seen as a number and as text. */
  datatype Value = Absent | Datum(number: int, text: string)

  datatype Env = Env(sess: map<string, Value>, prog: map<string, Value>)

  /** Names in "@@" live in the session, the others in the program; operator[] makes missing ones null. */
  function Lookup(env: Env, name: string): Value {
    var home := if "@@" <= name then env.sess else env.prog;
    if name in home then home[name] else Absent
  }

  function ValuesOf(vars: seq<string>, env: Env): (r: seq<Value>)
    ensures |r| == |vars|
  {
    seq(|vars|, i requires 0 <= i < |vars| => Lookup(env, vars[i]))
  }

  /** A piece of a query as PostgreSQL evaluates it; Raw is a whole text that no action emitted, with its parameters. */
  datatype Piece = Given(text: string) | Val(value: Value) | Raw(text: string, values: seq<Value>)

  function BindOne(t: Target, values: seq<Value>): Piece {
    match t
    case Text(s) => Given(s)
    case Param(k) => if 1 <= k <= |values| then Val(values[k - 1]) else Given("")
  }

  /** SPI_execute_with_args: `$k` is the k-th value. */
  function Bind(text: seq<Target>, values: seq<Value>): (r: seq<Piece>)
    ensures |r| == |text|
  {
    seq(|text|, i requires 0 <= i < |text| => BindOne(text[i], values))
  }

  function Pieces(words: seq<string>): seq<Piece> {
    seq(|words|, i requires 0 <= i < |words| => Given(words[i]))
  }

  // ----- the meaning of the source -----

  /**
   The lexemes with each variable replaced by its value in the environment and each name
   looked up in the current database; no numbers, no lists, no placeholder.
   */
  function Meaning(ls: seq<Lexeme>, env: Env, current: string): seq<Piece>
    decreases |ls|
  {
    if ls == [] then []
    else
      match Emission.Next(ls, current)
      case Words(n, words) => Pieces(words) + Meaning(ls[n..], env, current)
      case Occurrence(n, name) => [Val(Lookup(env, name))] + Meaning(ls[n..], env, current)
  }

  function WhereMeaning(where_: Option<Cond>, env: Env, current: string): seq<Piece> {
    match where_
    case None => []
    case Some(c) => Pieces(["WHERE"]) + Meaning(CondLexemes(c), env, current)
  }

  function FromMeaning(from: Option<Name>, current: string): seq<Piece> {
    match from
    case None => []
    case Some(table) => [Given("FROM"), Given(NameIn(LowerName(table), current))]
  }

  /** TOP n of the source is a LIMIT of PostgreSQL, behind everything else. */
  function TopMeaning(top: Option<string>): seq<Piece> {
    match top
    case None => []
    case Some(n) => [Given("LIMIT"), Given(n)]
  }

  function QueryMeaning(q: Query, env: Env, current: string): seq<Piece> {
    (if q.distinct then [Given("SELECT"), Given("DISTINCT")] else [Given("SELECT")])
    + Meaning(ArgLexemes(q.columns), env, current) + FromMeaning(q.from, current)
    + WhereMeaning(q.where_, env, current) + TopMeaning(q.top)
  }

  function UnionMeaning(u: Union, env: Env, current: string): seq<Piece> {
    match u
    case Lone(q) => QueryMeaning(q, env, current)
    case UnionOf(before, all, q) =>
      UnionMeaning(before, env, current) + (if all then [Given("UNION"), Given("ALL")] else [Given("UNION")])
      + QueryMeaning(q, env, current)
  }

  function SqlMeaning(s: Sql, env: Env, current: string): seq<Piece> {
    match s
    case Rows(u) => UnionMeaning(u, env, current)
    case Insert(table, values) =>
      [Given("INSERT"), Given("INTO"), Given(NameIn(LowerName(table), current)), Given("VALUES"), Given("(")]
      + Meaning(ArgLexemes(values), env, current) + [Given(")"), Given(";")]
  }

  /** assign_columns in the source, without the variables: the expressions and the commas between them. */
  function AssignLexemes(a: Assigns): seq<Lexeme> {
    match a
    case Assign1(_, e) => Lexemes(e)
    case AssignMore(before, _, e) => AssignLexemes(before) + [Sym(',')] + Lexemes(e)
  }

  function AssignMeaning(a: Assigns, from: Option<Name>, where_: Option<Cond>, env: Env, current: string): seq<Piece> {
    [Given("SELECT")] + Meaning(AssignLexemes(a), env, current) + FromMeaning(from, current)
    + WhereMeaning(where_, env, current)
  }

  // The words that the actions emit are those of the meaning.

  lemma QueryInWords(q: Query, env: Env, current: string)
    ensures QueryMeaning(q, env, current)
         == Pieces(SelectWords(q)) + Meaning(ArgLexemes(q.columns), env, current) + Pieces(FromWords(q, current))
            + WhereMeaning(q.where_, env, current) + Pieces(TopWords(q))
  {
    hide Meaning, WhereMeaning, NameIn, LowerName;
    assert Pieces(FromWords(q, current)) == FromMeaning(q.from, current);
    assert Pieces(TopWords(q)) == TopMeaning(q.top);
    assert Pieces(SelectWords(q)) == if q.distinct then [Given("SELECT"), Given("DISTINCT")] else [Given("SELECT")];
  }

  lemma UnionInWords(before: Union, all: bool, q: Query, env: Env, current: string)
    ensures UnionMeaning(UnionOf(before, all, q), env, current)
         == UnionMeaning(before, env, current) + Pieces(UnionWords(all)) + QueryMeaning(q, env, current)
  {
    hide QueryMeaning;
    assert Pieces(UnionWords(all)) == if all then [Given("UNION"), Given("ALL")] else [Given("UNION")];
  }

  lemma InsertInWords(table: Name, values: Args, env: Env, current: string)
    ensures SqlMeaning(Insert(table, values), env, current)
         == Pieces(InsertWords(table, current)) + Meaning(ArgLexemes(values), env, current) + Pieces([")", ";"])
  {
    hide Meaning, NameIn, LowerName;
    assert Pieces(InsertWords(table, current))
        == [Given("INSERT"), Given("INTO"), Given(NameIn(LowerName(table), current)), Given("VALUES"), Given("(")];
    assert Pieces([")", ";"]) == [Given(")"), Given(";")];
  }

  lemma {:induction false} AssignColumns(a: Assigns)
    ensures ArgLexemes(ColumnsOf(a)) == AssignLexemes(a)
  {
    hide Lexemes;
    if a.AssignMore? {
      AssignColumns(a.before);
    }
  }

  lemma AssignInWords(a: Assigns, from: Option<Name>, where_: Option<Cond>, env: Env, current: string)
    ensures QueryMeaning(AssignQuery(a, from, where_), env, current) == AssignMeaning(a, from, where_, env, current)
  {
    hide Meaning, WhereMeaning, FromMeaning;
    AssignColumns(a);
    var m := AssignMeaning(a, from, where_, env, current);
    assert m + [] == m;
  }

  // ----- binding gives the meaning, in a database called ##DATABASE## -----

  /** Bound to the values of its list, or of any extension of that list, the text means `m`. */
  ghost predicate Means(o: Out, vars: seq<string>, env: Env, m: seq<Piece>) {
    && vars <= o.vars
    && forall all :: o.vars <= all ==> Bind(o.text, ValuesOf(all, env)) == m
  }

  lemma BindJoin(a: seq<Target>, b: seq<Target>, values: seq<Value>)
    ensures Bind(a + b, values) == Bind(a, values) + Bind(b, values)
  {
  }

  lemma BindWords(words: seq<string>, values: seq<Value>)
    ensures Bind(Texts(words), values) == Pieces(words)
  {
  }

  lemma MeansThen(a: Out, b: Out, vars: seq<string>, env: Env, m: seq<Piece>, n: seq<Piece>)
    requires Means(a, vars, env, m) && Means(b, a.vars, env, n)
    ensures Means(Then(a, b), vars, env, m + n)
  {
    forall all | b.vars <= all
      ensures Bind(a.text + b.text, ValuesOf(all, env)) == m + n
    {
      assert a.vars <= all;
      BindJoin(a.text, b.text, ValuesOf(all, env));
    }
  }

  lemma MeansPut(words: seq<string>, o: Out, vars: seq<string>, env: Env, m: seq<Piece>)
    requires Means(o, vars, env, m)
    ensures Means(Put(words, o), vars, env, Pieces(words) + m)
  {
    forall all | o.vars <= all
      ensures Bind(Texts(words) + o.text, ValuesOf(all, env)) == Pieces(words) + m
    {
      BindJoin(Texts(words), o.text, ValuesOf(all, env));
      BindWords(words, ValuesOf(all, env));
    }
  }

  lemma MeansEnd(o: Out, words: seq<string>, vars: seq<string>, env: Env, m: seq<Piece>)
    requires Means(o, vars, env, m)
    ensures Means(End(o, words), vars, env, m + Pieces(words))
  {
    forall all | o.vars <= all
      ensures Bind(o.text + Texts(words), ValuesOf(all, env)) == m + Pieces(words)
    {
      BindJoin(o.text, Texts(words), ValuesOf(all, env));
      BindWords(words, ValuesOf(all, env));
    }
  }

  lemma MeansVariable(vars: seq<string>, name: string, env: Env)
    ensures Means(Reduce(vars, name), vars, env, [Val(Lookup(env, name))])
  {
    var o := Reduce(vars, name);
    var i := IndexOf(vars, name);
    forall all | o.vars <= all
      ensures Bind(o.text, ValuesOf(all, env)) == [Val(Lookup(env, name))]
    {
      assert o.vars[i] == name && all[i] == name;
    }
  }

  /** The numbered text of any lexemes, started from any list, means what the source means. */
  lemma {:induction false} NumberingPreserves(ls: seq<Lexeme>, vars: seq<string>, env: Env)
    ensures Means(Emission.Pass(ls, vars), vars, env, Meaning(ls, env, PLACEHOLDER))
    decreases |ls|
  {
    if ls != [] {
      match Emission.Next(ls, PLACEHOLDER)
      case Words(n, words) =>
        NumberingPreserves(ls[n..], vars, env);
        MeansPut(words, Emission.Pass(ls[n..], vars), vars, env, Meaning(ls[n..], env, PLACEHOLDER));
      case Occurrence(n, name) =>
        var here := Reduce(vars, name);
        MeansVariable(vars, name, env);
        NumberingPreserves(ls[n..], here.vars, env);
        MeansThen(here, Emission.Pass(ls[n..], here.vars), vars, env, [Val(Lookup(env, name))],
                  Meaning(ls[n..], env, PLACEHOLDER));
    }
  }

  lemma ExprMeans(e: Expr, vars: seq<string>, env: Env)
    ensures Means(Emit(e, vars), vars, env, Meaning(Lexemes(e), env, PLACEHOLDER))
  {
    Emission.ExprIsPass(e, vars);
    NumberingPreserves(Lexemes(e), vars, env);
  }

  lemma CondMeans(c: Cond, vars: seq<string>, env: Env)
    ensures Means(EmitCond(c, vars), vars, env, Meaning(CondLexemes(c), env, PLACEHOLDER))
  {
    Emission.CondIsPass(c, vars);
    NumberingPreserves(CondLexemes(c), vars, env);
  }

  lemma QueryMeans(q: Query, vars: seq<string>, env: Env)
    ensures Means(EmitQuery(q, vars), vars, env, QueryMeaning(q, env, PLACEHOLDER))
  {
    hide Emission.Pass, Meaning, Means, QueryMeaning;
    QueryInWords(q, env, PLACEHOLDER);
    var o := EmitArgs(q.columns, vars);
    var m := Meaning(ArgLexemes(q.columns), env, PLACEHOLDER);
    Emission.ArgsIsPass(q.columns, vars);
    NumberingPreserves(ArgLexemes(q.columns), vars, env);
    MeansPut(SelectWords(q), o, vars, env, m);
    MeansEnd(Put(SelectWords(q), o), FromWords(q, PLACEHOLDER), vars, env, Pieces(SelectWords(q)) + m);
    var columns := End(Put(SelectWords(q), o), FromWords(q, PLACEHOLDER));
    var head := Pieces(SelectWords(q)) + m + Pieces(FromWords(q, PLACEHOLDER));
    if q.where_.None? {
      assert head + [] == head;
      MeansEnd(columns, TopWords(q), vars, env, head);
    } else {
      var c := q.where_.value;
      var front := End(columns, ["WHERE"]);
      var n := Meaning(CondLexemes(c), env, PLACEHOLDER);
      MeansEnd(columns, ["WHERE"], vars, env, head);
      CondMeans(c, front.vars, env);
      MeansThen(front, EmitCond(c, front.vars), vars, env, head + Pieces(["WHERE"]), n);
      Bytes.Assoc(head, Pieces(["WHERE"]), n);
      MeansEnd(Then(front, EmitCond(c, front.vars)), TopWords(q), vars, env, head + (Pieces(["WHERE"]) + n));
    }
  }

  lemma {:induction false} UnionMeans(u: Union, vars: seq<string>, env: Env)
    ensures Means(EmitUnion(u, vars), vars, env, UnionMeaning(u, env, PLACEHOLDER))
  {
    match u
    case Lone(q) => QueryMeans(q, vars, env);
    case UnionOf(before, all, q) =>
      UnionMeans(before, vars, env);
      UnionInWords(before, all, q, env, PLACEHOLDER);
      MeansEnd(EmitUnion(before, vars), UnionWords(all), vars, env, UnionMeaning(before, env, PLACEHOLDER));
      var b := End(EmitUnion(before, vars), UnionWords(all));
      QueryMeans(q, b.vars, env);
      MeansThen(b, EmitQuery(q, b.vars), vars, env,
                UnionMeaning(before, env, PLACEHOLDER) + Pieces(UnionWords(all)), QueryMeaning(q, env, PLACEHOLDER));
  }

  lemma SqlMeans(s: Sql, vars: seq<string>, env: Env)
    ensures Means(EmitSql(s, vars), vars, env, SqlMeaning(s, env, PLACEHOLDER))
  {
    match s
    case Rows(u) => UnionMeans(u, vars, env);
    case Insert(table, values) =>
      InsertInWords(table, values, env, PLACEHOLDER);
      Emission.ArgsIsPass(values, vars);
      NumberingPreserves(ArgLexemes(values), vars, env);
      MeansPut(InsertWords(table, PLACEHOLDER), EmitArgs(values, vars), vars, env,
               Meaning(ArgLexemes(values), env, PLACEHOLDER));
      MeansEnd(Put(InsertWords(table, PLACEHOLDER), EmitArgs(values, vars)), [")", ";"], vars, env,
               Pieces(InsertWords(table, PLACEHOLDER)) + Meaning(ArgLexemes(values), env, PLACEHOLDER));
  }

  // ----- the database name -----

  function ExpandTarget(t: Target, database: string): Target {
    match t
    case Text(s) => Text(Expand(s, database))
    case Param(_) => t
  }

  function ExpandText(text: seq<Target>, database: string): seq<Target> {
    seq(|text|, i requires 0 <= i < |text| => ExpandTarget(text[i], database))
  }

  function ExpandPiece(p: Piece, database: string): Piece {
    match p
    case Given(s) => Given(Expand(s, database))
    case _ => p
  }

  function ExpandPieces(m: seq<Piece>, database: string): seq<Piece> {
    seq(|m|, i requires 0 <= i < |m| => ExpandPiece(m[i], database))
  }

  /** The name is put in before the parameters are bound; their values are not searched for it. */
  lemma BindExpanded(text: seq<Target>, values: seq<Value>, database: string)
    ensures Bind(ExpandText(text, database), values) == ExpandPieces(Bind(text, values), database)
  {
    forall i | 0 <= i < |text|
      ensures BindOne(ExpandTarget(text[i], database), values) == ExpandPiece(BindOne(text[i], values), database)
    {
      assert Expand("", database) == "";
    }
  }
}

/**
 The translation preserves meaning: a compiled program, with its numbered texts and its
 lists, behaves as the source program, whose variables are read where they stand.
 */
module Preserve {
  import Bytes
  import opened Literals
  import opened Names
  import opened Placeholder
  import Spelling
  import opened Syntax
  import opened Translate
  import opened Values
  import opened Exec

  // ----- running the source -----

  function SetMeaning(e: Expr, env: Env, current: string): seq<Piece> {
    Pieces(["SELECT"]) + Meaning(Lexemes(e), env, current)
  }

  function ConditionMeaning(c: Cond, env: Env, current: string): seq<Piece> {
    Pieces(["SELECT"]) + Meaning(CondLexemes(c), env, current)
  }

  function PrintMeaning(e: Expr, env: Env, current: string): seq<Piece> {
    Pieces(["SELECT", "CAST", "("]) + Meaning(Lexemes(e), env, current) + Pieces(["AS", "tsql_varchar", ")"])
  }

  /** The statements that send the one query of their text. */
  predicate Simple(s: Stmt) {
    s.Set? || s.Run? || s.Assign? || s.Print?
  }

  /** What such a statement asks: its meaning in the environment and the database of the moment. */
  function Asks(s: Stmt, st: State): seq<Piece>
    requires Simple(s)
  {
    match s
    case Set(_, e) => SetMeaning(e, st.env, st.database)
    case Run(sql) => SqlMeaning(sql, st.env, st.database)
    case Assign(columns, from, where_) => AssignMeaning(columns, from, where_, st.env, st.database)
    case Print(e) => PrintMeaning(e, st.env, st.database)
  }

  /** The condition is asked as it stands in the source. */
  function SourceTest(c: Cond, db: Db, st: State): Test {
    AskBool(db, st, ConditionMeaning(c, st.env, st.database))
  }

  ghost function RunStmt(s: Stmt, fuel: nat, db: Db, st: State): Outcome
    decreases fuel, s, 1
  {
    match s
    case Set(name, _) => DoSet(db, st, Asks(s, st), Lower(name))
    case Run(_) => DoSql(db, st, Asks(s, st))
    case Assign(columns, _, _) => DoAssign(db, st, Asks(s, st), AssignNames(columns))
    case Print(_) => DoPrint(db, st, Asks(s, st))
    case Fetch(cursor, into) =>
      DoFetch(db, st, FetchQuery(cursor), seq(|into|, i requires 0 <= i < |into| => Lower(into[i])))
    case Use(database) => DoUse(db, st, CountQuery(Lower(database)), PathQuery(Lower(database)), Lower(database))
    case Empty => Succeed(st)
    case Block(statements) => RunStmts(statements, fuel, db, st)
    case If(c, then_, else_) =>
      var t := SourceTest(c, db, st);
      var s1 := t.state;
      match t.verdict {
        case Ends(exit) => Outcome(exit, s1)
        case Stale => Outcome(Undefined, s1)
        case Bad => Fail(s1, 1, "internal error 201403011950")
        case True => RunStmt(then_, fuel, db, s1)
        case False => if else_.Some? then RunStmt(else_.value, fuel, db, s1) else Succeed(s1)
      }
    case While(c, body) =>
      var t := SourceTest(c, db, st);
      var s1 := t.state;
      match t.verdict {
        case Ends(exit) => Outcome(exit, s1)
        case Stale => Outcome(Undefined, s1)
        case Bad => Fail(s1, 1, "internal error 201403011951")
        case True => RunRounds(s, fuel, db, s1)
        case False => Succeed(s1)
      }
  }

  ghost function RunRounds(s: Stmt, fuel: nat, db: Db, st: State): Outcome
    requires s.While?
    decreases fuel, s, 0
  {
    if fuel == 0 then Outcome(NoFuel, st)
    else
      var o := RunStmt(s.body, fuel, db, st);
      if !o.exit.Return? then o
      else if o.exit.failed then Fail(o.state, 1, "internal error 201403011952")
      else
        var t := SourceTest(s.cond, db, o.state);
        var s1 := t.state;
        match t.verdict {
          case Ends(exit) => Outcome(exit, s1)
          case Bad => Fail(s1, 1, "internal error 201403011953")
          case False => Succeed(s1)
          case _ => RunRounds(s, fuel - 1, db, s1)
        }
  }

  ghost function RunStmts(b: Stmts, fuel: nat, db: Db, st: State): Outcome
    decreases fuel, b, 0
  {
    match b
    case First(s) => RunStmt(s, fuel, db, st)
    case Append(before, s) =>
      var o := RunStmts(before, fuel, db, st);
      if o.exit == Return(false) then RunStmt(s, fuel, db, o.state) else o
  }

  // ----- programs whose texts come through -----

  /** The lexemes of the statement's own text. */
  function StmtLexemes(s: Stmt): seq<Lexeme> {
    match s
    case Set(_, e) => Lexemes(e)
    case Run(sql) => SqlLexemes(sql)
    case Assign(columns, from, where_) => QueryLexemes(AssignQuery(columns, from, where_))
    case Print(e) => Lexemes(e)
    case Fetch(cursor, _) => [LName(cursor)]
    case Use(database) => [LName(database)]
    case If(c, _, _) => CondLexemes(c)
    case While(c, _) => CondLexemes(c)
    case _ => []
  }

  /** Names and numbers are what the scanner lets through. */
  predicate Scannable(s: Stmt) {
    Clean(StmtLexemes(s)) &&
    match s
    case If(_, then_, else_) => Scannable(then_) && (else_.Some? ==> Scannable(else_.value))
    case While(_, body) => Scannable(body)
    case Block(statements) => AllScannable(statements)
    case _ => true
  }

  predicate AllScannable(b: Stmts) {
    match b
    case First(s) => Scannable(s)
    case Append(before, s) => AllScannable(before) && Scannable(s)
  }

  /** The string kept of the condition has no placeholder (two-part functions and three-part columns emit one). */
  ghost predicate PlainCondition(c: Cond) {
    Free(Spelling.Spell(EmitCond(c, []).text))
  }

  /** No condition and no literal holds the placeholder. */
  ghost predicate Plain(s: Stmt) {
    match s
    case If(c, then_, else_) =>
      PlainCondition(c) && Plain(then_) && (else_.Some? ==> Plain(else_.value))
    case While(c, body) => PlainCondition(c) && Plain(body)
    case Block(statements) => AllPlain(statements)
    case _ => LiteralsFree(StmtLexemes(s))
  }

  ghost predicate AllPlain(b: Stmts) {
    match b
    case First(s) => Plain(s)
    case Append(before, s) => AllPlain(before) && Plain(s)
  }

  // ----- single statements -----

  /** The query that the statement object sends. */
  function Sends(s: Stmt, st: State): seq<Piece>
    requires Simple(s)
  {
    match Compile(s)
    case SetCode(vars, text, _) => Prepared(text, vars, st)
    case SqlCode(vars, text) => Prepared(text, vars, st)
    case AssignCode(vars, text, _) => Prepared(text, vars, st)
    case PrintCode(vars, text) => Prepared(PrintText(text), vars, st)
  }

  /** A numbered text sends what it means in a database called ##DATABASE##, with the name put in. */
  lemma PreparedMeans(o: Out, st: State, m: seq<Piece>)
    requires Means(o, [], st.env, m)
    ensures Prepared(o.text, o.vars, st) == ExpandPieces(m, st.database)
  {
    BindExpanded(o.text, ValuesOf(o.vars, st.env), st.database);
  }

  lemma PrintMeans(e: Expr, st: State)
    ensures var o := Emit(e, []);
            Prepared(PrintText(o.text), o.vars, st) == ExpandPieces(PrintMeaning(e, st.env, PLACEHOLDER), st.database)
  {
    hide Meaning, Emit;
    var o := Emit(e, []);
    var front := Put(["SELECT", "CAST", "("], o);
    ExprMeans(e, [], st.env);
    MeansPut(["SELECT", "CAST", "("], o, [], st.env, Meaning(Lexemes(e), st.env, PLACEHOLDER));
    MeansEnd(front, ["AS", "tsql_varchar", ")"], [], st.env,
             Pieces(["SELECT", "CAST", "("]) + Meaning(Lexemes(e), st.env, PLACEHOLDER));
    PreparedMeans(End(front, ["AS", "tsql_varchar", ")"]), st, PrintMeaning(e, st.env, PLACEHOLDER));
  }

  lemma SetMeans(e: Expr, st: State)
    ensures var o := Put(["SELECT"], Emit(e, []));
            Prepared(o.text, o.vars, st) == ExpandPieces(SetMeaning(e, st.env, PLACEHOLDER), st.database)
  {
    hide Meaning, Emit;
    ExprMeans(e, [], st.env);
    MeansPut(["SELECT"], Emit(e, []), [], st.env, Meaning(Lexemes(e), st.env, PLACEHOLDER));
    PreparedMeans(Put(["SELECT"], Emit(e, [])), st, SetMeaning(e, st.env, PLACEHOLDER));
  }

  /** The query sent is the one that is meant exactly when every literal is left alone. */
  lemma SentExact(s: Stmt, st: State)
    requires Simple(s) && Clean(StmtLexemes(s))
    ensures Sends(s, st) == Asks(s, st) <==> LeftAlone(StmtLexemes(s), st.database)
  {
    hide Meaning, Emit, EmitSql, EmitQuery, Prepared, Clean, LeftAlone, SqlMeaning, QueryMeaning, AssignMeaning,
         AssignQuery, ExpandPieces;
    match s
    case Set(_, e) =>
      SetMeans(e, st);
      FrontExact(["SELECT"], Lexemes(e), st.env, st.database);
    case Run(sql) =>
      SqlMeans(sql, [], st.env);
      PreparedMeans(EmitSql(sql, []), st, SqlMeaning(sql, st.env, PLACEHOLDER));
      SqlExact(sql, st.env, st.database);
    case Assign(columns, from, where_) =>
      var q := AssignQuery(columns, from, where_);
      QueryMeans(q, [], st.env);
      AssignInWords(columns, from, where_, st.env, st.database);
      PreparedMeans(EmitQuery(q, []), st, QueryMeaning(q, st.env, PLACEHOLDER));
      QueryExact(q, st.env, st.database);
    case Print(e) =>
      PrintMeans(e, st);
      FramedExact(["SELECT", "CAST", "("], Lexemes(e), ["AS", "tsql_varchar", ")"], st.env, st.database);
  }

  /**
   Whatever PostgreSQL answers: the statement object does what the source asks exactly
   when its literals are left alone; for any database but one called ##DATABASE## that is
   when no literal holds the placeholder.
   */
  lemma StatementExact(s: Stmt, fuel: nat, db: Db, st: State)
    requires Simple(s) && Clean(StmtLexemes(s))
    ensures RunCode(Compile(s), fuel, db, st) == RunStmt(s, fuel, db, st) <==> LeftAlone(StmtLexemes(s), st.database)
    ensures st.database != PLACEHOLDER ==>
              (RunCode(Compile(s), fuel, db, st) == RunStmt(s, fuel, db, st) <==> LiteralsFree(StmtLexemes(s)))
  {
    hide Asks, Prepared, Clean, LeftAlone, LiteralsFree, Sends, StmtLexemes, RunCode, RunStmt, Compile;
    if st.database != PLACEHOLDER {
      LeftAloneExact(StmtLexemes(s), st.database);
    }
    SentExact(s, st);
    RunAsks(s, fuel, db, st);
    assert (st.asked + [Sends(s, st)])[|st.asked|] == Sends(s, st);
    assert (st.asked + [Asks(s, st)])[|st.asked|] == Asks(s, st);
  }

  /** Both runs ask once; asking the same they go on alike. */
  lemma RunAsks(s: Stmt, fuel: nat, db: Db, st: State)
    requires Simple(s)
    ensures RunCode(Compile(s), fuel, db, st).state.asked == st.asked + [Sends(s, st)]
    ensures RunStmt(s, fuel, db, st).state.asked == st.asked + [Asks(s, st)]
    ensures Sends(s, st) == Asks(s, st) ==> RunCode(Compile(s), fuel, db, st) == RunStmt(s, fuel, db, st)
  {
    hide Asks, Prepared, EmitSql, EmitQuery, Emit, PrintText;
  }

  lemma FetchMeans(cursor: string, st: State)
    requires HashInFront(cursor)
    ensures ExpandPieces(FetchQuery(cursor), st.database) == FetchQuery(cursor)
  {
    hide Expand;
    NameStays("FETCH NEXT FROM ", cursor, "\n", st.database);
  }

  lemma CountMeans(database: string, st: State)
    requires HashInFront(database)
    ensures ExpandPieces(CountQuery(database), st.database) == CountQuery(database)
  {
    hide Expand, HashInFront;
    var a, b := "SELECT COUNT(*) FROM pg_namespace", " WHERE nspname = '";
    assert '#' !in a + b;
    assert a + b == "SELECT COUNT(*) FROM pg_namespace WHERE nspname = '";
    NameStays(a + b, database, ".dbo'", st.database);
  }

  lemma PathMeans(database: string, st: State)
    requires HashInFront(database)
    ensures ExpandPieces(PathQuery(database), st.database) == PathQuery(database)
  {
    hide Expand, HashInFront;
    NameStays("SET SEARCH_PATH TO \"", database, ".dbo\", \"master.dbo\", public", st.database);
  }

  // ----- conditions -----

  lemma FreeParts(a: string, b: string)
    requires Free(a + b)
    ensures Free(a) && Free(b)
  {
    var s := a + b;
    Bytes.Cut(a, b);
    forall i | 0 <= i
      ensures !StartsHere(a, i)
    {
      if i + SIZE <= |a| {
        assert s[i..i + SIZE] == a[i..i + SIZE] && !StartsHere(s, i);
      }
    }
    forall i | 0 <= i
      ensures !StartsHere(b, i)
    {
      StartsInTail(s, |a|, i);
    }
  }

  /** No token of a string without a placeholder has one. */
  lemma {:induction false} SpelledFree(text: seq<Target>, i: nat)
    requires i <= |text| && Free(Spelling.SpellFrom(text, i))
    ensures forall k :: i <= k < |text| && text[k].Text? ==> Free(text[k].text)
    decreases |text| - i
  {
    hide Free, Spelling.Spaced;
    if i < |text| {
      var gap, rest := if i > 0 && Spelling.Spaced(text, i) then " " else "", Spelling.SpellFrom(text, i + 1);
      assert Spelling.SpellFrom(text, i) == gap + Spelling.TokenText(text[i]) + rest;
      FreeParts(gap + Spelling.TokenText(text[i]), rest);
      FreeParts(gap, Spelling.TokenText(text[i]));
      SpelledFree(text, i + 1);
    }
  }

  /** What exec_bool sends for a plain condition is its meaning in the current database. */
  lemma PlainMeans(c: Cond, st: State)
    requires PlainCondition(c) && Clean(CondLexemes(c))
    ensures var o := EmitCond(c, []);
            Prepared(Condition(o.text), o.vars, st) == ConditionMeaning(c, st.env, st.database)
  {
    hide Meaning, EmitCond, Free, Clean, Prepared, LiteralsFree, LeftAlone;
    var o, ls := EmitCond(c, []), CondLexemes(c);
    CondMeans(c, [], st.env);
    MeansPut(["SELECT"], o, [], st.env, Meaning(ls, st.env, PLACEHOLDER));
    PreparedMeans(Put(["SELECT"], o), st, ConditionMeaning(c, st.env, PLACEHOLDER));
    SpelledFree(o.text, 0);
    BoundFree(o.text, ValuesOf(o.vars, st.env));
    FreeMeaning(ls, st.env);
    FreeLeftAlone(ls, st.database);
    FrontExact(["SELECT"], ls, st.env, st.database);
  }

  lemma BoundFree(text: seq<Target>, values: seq<Value>)
    requires forall k :: 0 <= k < |text| && text[k].Text? ==> Free(text[k].text)
    ensures PiecesFree(Bind(text, values))
  {
    assert Free("");
  }

  /** In every state, under every PostgreSQL: exec_bool asks what is meant exactly when the condition is plain. */
  lemma ConditionExact(c: Cond, db: Db, st: State)
    requires Clean(CondLexemes(c))
    ensures var o := EmitCond(c, []);
            DoBool(db, st, o.text, o.vars) == SourceTest(c, db, st) <==> PlainCondition(c)
  {
    hide Meaning, EmitCond, DoBool, Spelling.Spell, Free, VerdictOf, Clean, Prepared;
    var o := EmitCond(c, []);
    DoBoolExact(db, st, o.text, o.vars);
    if PlainCondition(c) {
      PlainMeans(c, st);
    } else {
      Unheard(c, db, st);
    }
  }

  /** What is asked for a condition with a placeholder, if anything, is not what the source asks. */
  lemma Unheard(c: Cond, db: Db, st: State)
    requires !PlainCondition(c)
    ensures var o := EmitCond(c, []);
            DoBool(db, st, o.text, o.vars).state.asked != SourceTest(c, db, st).state.asked
  {
    hide Meaning, EmitCond, DoBool, Spelling.Spell, Free, Meant, VerdictOf;
    var o := EmitCond(c, []);
    DoBoolExact(db, st, o.text, o.vars);
    var meant := ConditionMeaning(c, st.env, st.database);
    assert meant[0].Given?;
    var t := DoBool(db, st, o.text, o.vars);
    if t.state != st {
      var sent :| sent != Meant(Spelling.Spell(o.text), st.database)
               && t == AskBool(db, st, [Raw(sent, ValuesOf(o.vars, st.env))]);
      assert [Raw(sent, ValuesOf(o.vars, st.env))][0] != meant[0];
      assert t.state.asked[|st.asked|] == [Raw(sent, ValuesOf(o.vars, st.env))];
    }
    assert SourceTest(c, db, st).state.asked[|st.asked|] == meant;
  }

  // ----- programs -----

  /**
   Numbering, saving, clearing and restoring the list through nested IF, WHILE and
   BEGIN change nothing, and no more does the placeholder: for every program that holds
   none itself, every behaviour of PostgreSQL and every bound on rounds, the compiled
   program's run is the source program's run.
   */
  lemma {:induction false} TranslationPreserves(s: Stmt, fuel: nat, db: Db, st: State)
    requires Scannable(s) && Plain(s)
    ensures RunCode(Compile(s), fuel, db, st) == RunStmt(s, fuel, db, st)
    decreases fuel, s, 1
  {
    hide DoSet, DoAssign, EmitQuery, Asks, DoSql, DoPrint, DoFetch, DoUse, ExpandPieces, LiteralsFree, LeftAlone;
    hide Prepared, EmitSql, Emit, RunLoop, RunRounds, RunAll, RunStmts, DoBool, SourceTest, PlainCondition;
    hide FetchQuery, CountQuery, PathQuery;
    match s
    case Fetch(cursor, _) =>
      assert CleanLexeme(StmtLexemes(s)[0]);
      FetchMeans(cursor, st);
    case Use(database) =>
      assert CleanLexeme(StmtLexemes(s)[0]);
      LowerHash(database);
      CountMeans(Lower(database), st);
      PathMeans(Lower(database), st);
    case Empty =>
    case Block(statements) => ListPreserves(statements, fuel, db, st);
    case If(c, then_, else_) =>
      ConditionExact(c, db, st);
      var s1 := SourceTest(c, db, st).state;
      TranslationPreserves(then_, fuel, db, s1);
      if else_.Some? {
        TranslationPreserves(else_.value, fuel, db, s1);
      }
    case While(c, body) =>
      ConditionExact(c, db, st);
      RoundsPreserve(s, fuel, db, SourceTest(c, db, st).state);
    case _ =>
      FreeLeftAlone(StmtLexemes(s), st.database);
      StatementExact(s, fuel, db, st);
  }

  lemma {:induction false} RoundsPreserve(s: Stmt, fuel: nat, db: Db, st: State)
    requires s.While? && Scannable(s) && Plain(s)
    ensures RunLoop(Compile(s), fuel, db, st) == RunRounds(s, fuel, db, st)
    decreases fuel, s, 0
  {
    hide RunCode, RunStmt, PlainCondition, DoBool, SourceTest;
    if fuel > 0 {
      TranslationPreserves(s.body, fuel, db, st);
      var o := RunStmt(s.body, fuel, db, st);
      if o.exit == Return(false) {
        ConditionExact(s.cond, db, o.state);
        RoundsPreserve(s, fuel - 1, db, SourceTest(s.cond, db, o.state).state);
      }
    }
  }

  lemma {:induction false} ListPreserves(b: Stmts, fuel: nat, db: Db, st: State)
    requires AllScannable(b) && AllPlain(b)
    ensures RunAll(CompileAll(b), fuel, db, st) == RunStmts(b, fuel, db, st)
    decreases fuel, b, 0
  {
    match b
    case First(s) =>
      TranslationPreserves(s, fuel, db, st);
      RunSingle(Compile(s), fuel, db, st);
    case Append(before, s) =>
      ListPreserves(before, fuel, db, st);
      RunJoin(CompileAll(before), [Compile(s)], fuel, db, st);
      var o := RunStmts(before, fuel, db, st);
      if o.exit == Return(false) {
        TranslationPreserves(s, fuel, db, o.state);
        RunSingle(Compile(s), fuel, db, o.state);
      }
  }

  lemma RunSingle(c: Code, fuel: nat, db: Db, st: State)
    ensures RunAll([c], fuel, db, st) == RunCode(c, fuel, db, st)
  {
    var o := RunCode(c, fuel, db, st);
    assert [c][1..] == [] && RunAll([], fuel, db, o.state) == Succeed(o.state);
  }

  // ----- why conditions must be plain -----

  /** A PostgreSQL that refuses everything. */
  function Refuse(asked: seq<seq<Piece>>): Response {
    Failure
  }

  /** Refused or not sent at all: the two runs have asked different queries. */
  lemma PlaceholderDiffers(s: Stmt, fuel: nat, st: State)
    requires (s.If? || s.While?) && !PlainCondition(s.cond)
    ensures RunCode(Compile(s), fuel, Refuse, st).state.asked != RunStmt(s, fuel, Refuse, st).state.asked
  {
    hide DoBool, SourceTest, PlainCondition, EmitCond;
    var o := EmitCond(s.cond, []);
    Unheard(s.cond, Refuse, st);
    Refused(s.cond, o.text, o.vars, st);
  }

  lemma Refused(c: Cond, text: seq<Target>, vars: seq<string>, st: State)
    ensures SourceTest(c, Refuse, st).verdict == Bad
    ensures var v := DoBool(Refuse, st, text, vars).verdict;
            v == Bad || v.Ends?
  {
    hide Spelling.Spell, Heard, BoolQuery, Meaning;
  }

  /** For an IF over plain branches the translation is right in every situation exactly when its condition is plain. */
  lemma IfExact(s: Stmt)
    requires s.If? && Scannable(s) && Plain(s.then_) && (s.else_.Some? ==> Plain(s.else_.value))
    ensures (forall fuel: nat, db: Db, st: State :: RunCode(Compile(s), fuel, db, st) == RunStmt(s, fuel, db, st))
       <==> PlainCondition(s.cond)
  {
    Exact(s);
  }

  lemma WhileExact(s: Stmt)
    requires s.While? && Scannable(s) && Plain(s.body)
    ensures (forall fuel: nat, db: Db, st: State :: RunCode(Compile(s), fuel, db, st) == RunStmt(s, fuel, db, st))
       <==> PlainCondition(s.cond)
  {
    Exact(s);
  }

  lemma Exact(s: Stmt)
    requires (s.If? || s.While?) && Scannable(s)
    requires PlainCondition(s.cond) ==> Plain(s)
    ensures (forall fuel: nat, db: Db, st: State :: RunCode(Compile(s), fuel, db, st) == RunStmt(s, fuel, db, st))
       <==> PlainCondition(s.cond)
  {
    hide RunCode, RunStmt, PlainCondition;
    if PlainCondition(s.cond) {
      forall fuel: nat, db: Db, st: State
        ensures RunCode(Compile(s), fuel, db, st) == RunStmt(s, fuel, db, st)
      {
        TranslationPreserves(s, fuel, db, st);
      }
    } else {
      PlaceholderDiffers(s, 0, State(Env(map[], map[]), "", [], []));
    }
  }
}

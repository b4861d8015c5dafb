/**
 Statement objects at run time (language/stmt_*.h, language/exec.cc): what each sends
 to PostgreSQL, assigns and answers.  PostgreSQL is a function of everything it has
 been asked; fuel bounds the rounds of WHILE.
 */
module Exec {
  import Placeholder
  import Spelling
  import Syntax
  import Translate
  import opened Values

  /** The response tokens that a program can append. */
  datatype Message =
    | ErrorMessage(number: nat, text: string)
    | InfoMessage(text: string)
    | DoneMessage(error: bool, counted: bool, count: nat)
    | ResultsMessage(rows: seq<seq<Value>>)
    | EnvDatabaseMessage(old_: string, new_: string)
    | EnvCollationMessage
    | LoginAckMessage(version: nat)

  datatype SpiCode = Utility | Finish | Selected | Inserted | Updated | Deleted | Other

  datatype Response =
    | Failure                                             // a negative result
    | Throw(message: string)                              // ereport: the statement never returns
    | Reply(code: SpiCode, rows: seq<seq<Value>>)

  type Db = seq<seq<Piece>> -> Response

  datatype State = State(env: Env, database: string, messages: seq<Message>, asked: seq<seq<Piece>>)

  datatype Exit =
    | Return(failed: bool)
    | Thrown(message: string)
    | Aborted        // a C++ exception that nothing catches
    | Undefined      // a null result is dereferenced, or a row read that is not there
    | NoFuel         // not at its end: the rounds are used up, or exec_bool finds an empty name again and again

  datatype Outcome = Outcome(exit: Exit, state: State)

  function IntValue(n: int): Value {
    Datum(n, "")
  }

  // ----- messages -----

  /** set_status_error(1) also sets the row count. */
  const ERROR_DONE := DoneMessage(true, false, 1)

  const PLAIN_DONE := DoneMessage(false, false, 0)

  /** set_rowcount() says that the count is valid. */
  function CountDone(rows: nat): Message {
    DoneMessage(false, true, rows)
  }

  function WithMessages(st: State, ms: seq<Message>): State {
    st.(messages := st.messages + ms)
  }

  /** tsql_executor::error */
  function ErrorMessages(number: nat, text: string): seq<Message> {
    [ErrorMessage(number, text), ERROR_DONE]
  }

  /** error(1, 1, 16, text), and the statement returns 1. */
  function Fail(st: State, number: nat, text: string): Outcome {
    Outcome(Return(true), WithMessages(st, ErrorMessages(number, text)))
  }

  function Succeed(st: State): Outcome {
    Outcome(Return(false), st)
  }

  // ----- queries -----

  function Ask(st: State, query: seq<Piece>): State {
    st.(asked := st.asked + [query])
  }

  /** The query that exec_int, exec_ext and exec_cmd send. */
  function Prepared(text: seq<Syntax.Target>, vars: seq<string>, st: State): seq<Piece> {
    Bind(ExpandText(text, st.database), ValuesOf(vars, st.env))
  }

  /** The tokens of a condition behind the SELECT of exec_bool. */
  function Condition(text: seq<Syntax.Target>): seq<Syntax.Target> {
    Syntax.Texts(["SELECT"]) + text
  }

  // ----- what the statements do with the answer -----

  function DoSet(db: Db, st: State, query: seq<Piece>, name: string): Outcome {
    var s := Ask(st, query);
    match db(s.asked)
    case Throw(m) => Outcome(Thrown(m), s)
    case Failure => Outcome(Undefined, s)
    case Reply(_, rows) =>
      if rows == [] || rows[0] == [] then Outcome(Undefined, s)
      else Succeed(s.(env := s.env.(prog := s.env.prog[name := rows[0][0]])))
  }

  /** Every variable gets the first column: the column's number is not used. */
  function AssignFirst(prog: map<string, Value>, names: seq<string>, v: Value): map<string, Value>
    decreases |names|
  {
    if names == [] then prog else AssignFirst(prog[names[0] := v], names[1..], v)
  }

  function DoAssign(db: Db, st: State, query: seq<Piece>, names: seq<string>): Outcome {
    var s := Ask(st, query);
    match db(s.asked)
    case Throw(m) => Outcome(Thrown(m), s)
    case Failure => Outcome(Undefined, s)
    case Reply(_, rows) =>
      if |rows| != 1 then Fail(s, 1, "201403091907")
      else if rows[0] == [] then Succeed(s)
      else if |rows[0]| > |names| then Outcome(Undefined, s)
      else Succeed(s.(env := s.env.(prog := AssignFirst(s.env.prog, names[..|rows[0]|], rows[0][0]))))
  }

  function DoSql(db: Db, st: State, query: seq<Piece>): Outcome {
    var s := Ask(st, query);
    match db(s.asked)
    case Throw(m) => Outcome(Thrown(m), s)
    case Failure => Fail(s, 1, "unknown error")
    case Reply(code, rows) =>
      if code.Selected? then Succeed(WithMessages(s, [ResultsMessage(rows), CountDone(|rows|)]))
      else if code.Other? then Fail(s, 1, "Internal error")
      else Succeed(WithMessages(s, [CountDone(0)]))
  }

  function DoPrint(db: Db, st: State, query: seq<Piece>): Outcome {
    var s := Ask(st, query);
    match db(s.asked)
    case Throw(m) => Outcome(Thrown(m), s)
    case Failure => Outcome(Undefined, s)
    case Reply(_, rows) =>
      if rows == [] || rows[0] == [] || rows[0][0].Absent? then Outcome(Undefined, s)
      else Succeed(WithMessages(s, [InfoMessage(rows[0][0].text), PLAIN_DONE]))
  }

  const FETCH_STATUS := "@@fetch_status"

  function FetchQuery(cursor: string): seq<Piece> {
    [Given("FETCH NEXT FROM " + cursor + "\n")]
  }

  /** The first columns go to the variables, as far as both reach. */
  function AssignRow(prog: map<string, Value>, into: seq<string>, row: seq<Value>): map<string, Value>
    decreases |into|
  {
    if into == [] || row == [] then prog
    else AssignRow(prog[into[0] := row[0]], into[1..], row[1..])
  }

  function DoFetch(db: Db, st: State, query: seq<Piece>, into: seq<string>): Outcome {
    var s := Ask(st, query);
    match db(s.asked)
    case Throw(m) => Outcome(Thrown(m), s)
    case Failure => Outcome(Undefined, s)
    case Reply(_, rows) =>
      if rows == [] then Succeed(s.(env := s.env.(sess := s.env.sess[FETCH_STATUS := IntValue(-1)])))
      else
        Succeed(s.(env := Env(s.env.sess[FETCH_STATUS := IntValue(0)], AssignRow(s.env.prog, into, rows[0]))))
  }

  const PID_QUERY: seq<Piece> := [Given("SELECT pg_backend_pid()::tsql_int")]

  /** tsql_executor::init */
  function DoInit(db: Db, st: State): Outcome {
    var sess := st.env.sess[FETCH_STATUS := IntValue(0)]["@@microsoftversion" := IntValue(0x090013CD)];
    var s := Ask(st.(env := st.env.(sess := sess)), PID_QUERY);
    match db(s.asked)
    case Throw(m) => Outcome(Thrown(m), s)
    case Failure => Outcome(Undefined, s)
    case Reply(_, rows) =>
      if rows == [] || rows[0] == [] then Outcome(Undefined, s)
      else Succeed(s.(env := s.env.(sess := sess["@@spid" := rows[0][0]])))
  }

  function CountQuery(database: string): seq<Piece> {
    [Given("SELECT COUNT(*) FROM pg_namespace WHERE nspname = '" + database + ".dbo'")]
  }

  function PathQuery(database: string): seq<Piece> {
    [Given("SET SEARCH_PATH TO \"" + database + ".dbo\", \"master.dbo\", public")]
  }

  function NoDatabase(database: string): string {
    "Could not locate entry in sysdatabases for database '" + database
    + "'. No entry found with that name. Make sure that the name is entered correctly."
  }

  function DoUse(db: Db, st: State, count: seq<Piece>, path: seq<Piece>, database: string): Outcome {
    var s := Ask(st, count);
    match db(s.asked)
    case Throw(m) => Outcome(Thrown(m), s)
    case Failure => Outcome(Undefined, s)
    case Reply(_, rows) =>
      if rows == [] || rows[0] == [] || rows[0][0].Absent? then Outcome(Undefined, s)
      else if rows[0][0].number == 0 then Fail(s, 911, NoDatabase(database))
      else SetPath(db, s, path, database)
  }

  function SetPath(db: Db, st: State, path: seq<Piece>, database: string): Outcome {
    var s := Ask(st, path);
    match db(s.asked)
    case Throw(m) => Outcome(Thrown(m), s)
    case Failure => Fail(s, 1, "internal error 201403011955")
    case Reply(_, _) =>
      Succeed(WithMessages(s, [EnvDatabaseMessage(s.database, database), EnvCollationMessage]).(database := database))
  }

  /** exec_bool: Stale when there is no row and *result stays as it was; Ends when it does not come back. */
  datatype Verdict = True | False | Stale | Bad | Ends(exit: Exit)

  datatype Test = Test(verdict: Verdict, state: State)

  function Truth(v: Value): Verdict {
    if v.Absent? || v.number == 0 then False else True
  }

  function VerdictOf(r: Response): (v: Verdict)
    ensures v.Ends? ==> v.exit.Thrown?
  {
    match r
    case Throw(m) => Ends(Thrown(m))
    case Failure => Bad
    case Reply(_, rows) =>
      if |rows| > 1 then Bad
      else if rows == [] then Stale
      else if rows[0] == [] then False
      else Truth(rows[0][0])
  }

  function AskBool(db: Db, st: State, query: seq<Piece>): Test {
    var s := Ask(st, query);
    Test(VerdictOf(db(s.asked)), s)
  }

  /**
   What PostgreSQL makes of the text that exec_bool sends: of the one that is meant,
   its tokens; of any other, that text.
   */
  function Heard(sent: string, text: seq<Syntax.Target>, vars: seq<string>, st: State): seq<Piece> {
    if sent == Placeholder.Meant(Spelling.Spell(text), st.database) then Prepared(Condition(text), vars, st)
    else [Raw(sent, ValuesOf(vars, st.env))]
  }

  /**
   exec_bool, with its loop over the wrong string: the text that comes out is sent, or
   the exception of std::string ends the process.  With an empty name the search does
   not move on: it throws at once or goes on for ever.
   */
  function DoBool(db: Db, st: State, text: seq<Syntax.Target>, vars: seq<string>): Test {
    var expr := Spelling.Spell(text);
    if st.database == "" then
      var found := Placeholder.Find(expr, 0);
      if found == -1 then AskBool(db, st, Heard(Placeholder.SELECT + expr, text, vars, st))
      else Test(Ends(if found > |Placeholder.SELECT| then Aborted else NoFuel), st)
    else
      match Placeholder.BoolQuery(expr, st.database)
      case None => Test(Ends(Aborted), st)
      case Some(sent) => AskBool(db, st, Heard(sent, text, vars, st))
  }

  /** A condition without a placeholder is asked as it is meant; one with a placeholder never is. */
  lemma DoBoolExact(db: Db, st: State, text: seq<Syntax.Target>, vars: seq<string>)
    ensures Placeholder.Free(Spelling.Spell(text)) ==>
              DoBool(db, st, text, vars) == AskBool(db, st, Prepared(Condition(text), vars, st))
    ensures !Placeholder.Free(Spelling.Spell(text)) ==>
              var t := DoBool(db, st, text, vars);
              || (t.state == st && (t.verdict == Ends(Aborted) || t.verdict == Ends(NoFuel)))
              || exists sent :: sent != Placeholder.Meant(Spelling.Spell(text), st.database)
                             && t == AskBool(db, st, [Raw(sent, ValuesOf(vars, st.env))])
  {
    hide Placeholder.BoolQuery, Placeholder.Meant, Spelling.Spell, Prepared;
    var expr := Spelling.Spell(text);
    if st.database != "" {
      Placeholder.BoolQueryExact(expr, st.database);
      var r := Placeholder.BoolQuery(expr, st.database);
      if !Placeholder.Free(expr) && r.Some? {
        assert r.value != Placeholder.Meant(expr, st.database);
        assert DoBool(db, st, text, vars) == AskBool(db, st, [Raw(r.value, ValuesOf(vars, st.env))]);
      }
    } else if Placeholder.Free(expr) {
      Placeholder.MeantFree(expr, "");
    }
  }

  // ----- whole statements -----

  ghost function RunCode(c: Translate.Code, fuel: nat, db: Db, st: State): Outcome
    decreases fuel, c, 1
  {
    match c
    case SetCode(vars, text, name) => DoSet(db, st, Prepared(text, vars, st), name)
    case SqlCode(vars, text) => DoSql(db, st, Prepared(text, vars, st))
    case AssignCode(vars, text, names) => DoAssign(db, st, Prepared(text, vars, st), names)
    case PrintCode(vars, text) => DoPrint(db, st, Prepared(PrintText(text), vars, st))
    case FetchCode(_, cursor, into) => DoFetch(db, st, ExpandPieces(FetchQuery(cursor), st.database), into)
    case UseCode(_, database) =>
      DoUse(db, st, ExpandPieces(CountQuery(database), st.database),
            ExpandPieces(PathQuery(database), st.database), database)
    case EmptyCode(_) => Succeed(st)
    case BlockCode(_, statements) => RunAll(statements, fuel, db, st)
    case IfCode(vars, text, then_, else_) =>
      var t := DoBool(db, st, text, vars);
      var s := t.state;
      match t.verdict {
        case Ends(exit) => Outcome(exit, s)
        case Stale => Outcome(Undefined, s)
        case Bad => Fail(s, 1, "internal error 201403011950")
        case True => RunCode(then_, fuel, db, s)
        case False => if else_.Some? then RunCode(else_.value, fuel, db, s) else Succeed(s)
      }
    case WhileCode(vars, text, body) =>
      var t := DoBool(db, st, text, vars);
      var s := t.state;
      match t.verdict {
        case Ends(exit) => Outcome(exit, s)
        case Stale => Outcome(Undefined, s)
        case Bad => Fail(s, 1, "internal error 201403011951")
        case True => RunLoop(c, fuel, db, s)
        case False => Succeed(s)
      }
  }

  /** The loop of tsql_stmt_while once `result` is true. */
  ghost function RunLoop(c: Translate.Code, fuel: nat, db: Db, st: State): Outcome
    requires c.WhileCode?
    decreases fuel, c, 0
  {
    if fuel == 0 then Outcome(NoFuel, st)
    else
      var o := RunCode(c.body, fuel, db, st);
      if !o.exit.Return? then o
      else if o.exit.failed then Fail(o.state, 1, "internal error 201403011952")
      else
        var t := DoBool(db, o.state, c.text, c.vars);
        var s := t.state;
        match t.verdict {
          case Ends(exit) => Outcome(exit, s)
          case Bad => Fail(s, 1, "internal error 201403011953")
          case False => Succeed(s)
          case _ => RunLoop(c, fuel - 1, db, s)
        }
  }

  ghost function RunAll(cs: seq<Translate.Code>, fuel: nat, db: Db, st: State): Outcome
    decreases fuel, cs, 0
  {
    if cs == [] then Succeed(st)
    else
      var o := RunCode(cs[0], fuel, db, st);
      if o.exit == Return(false) then RunAll(cs[1..], fuel, db, o.state) else o
  }

  function PrintText(text: seq<Syntax.Target>): seq<Syntax.Target> {
    Syntax.Texts(["SELECT", "CAST", "("]) + text + Syntax.Texts(["AS", "tsql_varchar", ")"])
  }

  // ----- error discipline -----

  ghost predicate HasError(ms: seq<Message>) {
    exists i :: 0 <= i < |ms| && ms[i].ErrorMessage?
  }

  predicate IsErrorDone(m: Message) {
    m.DoneMessage? && m.error && !m.counted
  }

  /** Every ERROR is followed by a DONE with the error bit, and no such DONE stands anywhere else. */
  ghost predicate ErrorsFlagged(ms: seq<Message>) {
    && (forall i :: 0 <= i < |ms| && ms[i].ErrorMessage? ==> i + 1 < |ms| && IsErrorDone(ms[i + 1]))
    && forall i :: 0 <= i < |ms| && ms[i].DoneMessage? && ms[i].error ==> i > 0 && ms[i - 1].ErrorMessage?
  }

  /**
   A run that returns has appended an ERROR exactly when it returns 1, each with its DONE;
   no run takes back a token or a query.
   */
  ghost predicate Disciplined(st: State, o: Outcome) {
    && st.messages <= o.state.messages
    && st.asked <= o.state.asked
    && var added := o.state.messages[|st.messages|..];
       ErrorsFlagged(added) && (o.exit.Return? ==> (o.exit.failed <==> HasError(added)))
  }

  lemma JoinedMessages(a: seq<Message>, b: seq<Message>)
    requires ErrorsFlagged(a) && ErrorsFlagged(b)
    ensures ErrorsFlagged(a + b) && (HasError(a + b) <==> HasError(a) || HasError(b))
  {
    var ms := a + b;
    forall i | 0 <= i < |ms| && ms[i].ErrorMessage?
      ensures i + 1 < |ms| && IsErrorDone(ms[i + 1])
    {
      if i < |a| {
        assert a[i].ErrorMessage?;
      } else {
        assert b[i - |a|].ErrorMessage?;
      }
    }
    forall i | 0 <= i < |ms| && ms[i].DoneMessage? && ms[i].error
      ensures i > 0 && ms[i - 1].ErrorMessage?
    {
      if i < |a| {
        assert a[i].DoneMessage?;
      } else {
        assert b[i - |a|].DoneMessage?;
      }
    }
    if HasError(a) {
      var i :| 0 <= i < |a| && a[i].ErrorMessage?;
      assert ms[i].ErrorMessage?;
    }
    if HasError(b) {
      var i :| 0 <= i < |b| && b[i].ErrorMessage?;
      assert ms[|a| + i].ErrorMessage?;
    }
  }

  /** First one run that returned 0, then another. */
  lemma DisciplinedThen(st: State, s: State, o: Outcome)
    requires Disciplined(st, Succeed(s)) && Disciplined(s, o)
    ensures Disciplined(st, o)
  {
    var a, b := s.messages[|st.messages|..], o.state.messages[|s.messages|..];
    JoinedMessages(a, b);
    assert o.state.messages[|st.messages|..] == a + b;
  }

  /** An error on top of a run, whatever it returned. */
  lemma DisciplinedFail(st: State, o: Outcome, number: nat, text: string)
    requires Disciplined(st, o)
    ensures Disciplined(st, Fail(o.state, number, text))
  {
    var a, b := o.state.messages[|st.messages|..], ErrorMessages(number, text);
    assert b[0].ErrorMessage?;
    JoinedMessages(a, b);
    assert Fail(o.state, number, text).state.messages[|st.messages|..] == a + b;
  }

  lemma DisciplinedAsk(st: State, query: seq<Piece>)
    ensures forall exit: Exit :: !exit.Return? || !exit.failed ==> Disciplined(st, Outcome(exit, Ask(st, query)))
  {
    assert Ask(st, query).messages[|st.messages|..] == [];
  }

  lemma DisciplinedAppend(st: State, ms: seq<Message>)
    requires forall i :: 0 <= i < |ms| ==> !ms[i].ErrorMessage? && !(ms[i].DoneMessage? && ms[i].error)
    ensures Disciplined(st, Succeed(WithMessages(st, ms)))
  {
    assert WithMessages(st, ms).messages[|st.messages|..] == ms;
  }

  lemma DisciplinedActions(db: Db, st: State, query: seq<Piece>, name: string, into: seq<string>)
    ensures Disciplined(st, DoSet(db, st, query, name))
    ensures Disciplined(st, DoPrint(db, st, query))
    ensures Disciplined(st, DoFetch(db, st, query, into))
  {
    var s := Ask(st, query);
    DisciplinedAsk(st, query);
    var r := db(s.asked);
    if r.Reply? && r.rows != [] && r.rows[0] != [] && r.rows[0][0].Datum? {
      var ms := [InfoMessage(r.rows[0][0].text), PLAIN_DONE];
      DisciplinedAppend(s, ms);
      DisciplinedThen(st, s, Succeed(WithMessages(s, ms)));
    }
  }

  lemma DisciplinedSql(db: Db, st: State, query: seq<Piece>)
    ensures Disciplined(st, DoSql(db, st, query))
  {
    var s := Ask(st, query);
    DisciplinedAsk(st, query);
    DisciplinedFail(st, Succeed(s), 1, "unknown error");
    DisciplinedFail(st, Succeed(s), 1, "Internal error");
    var r := db(s.asked);
    if r.Reply? {
      var ms := if r.code.Selected? then [ResultsMessage(r.rows), CountDone(|r.rows|)] else [CountDone(0)];
      DisciplinedAppend(s, ms);
      DisciplinedThen(st, s, Succeed(WithMessages(s, ms)));
    }
  }

  lemma DisciplinedAssign(db: Db, st: State, query: seq<Piece>, names: seq<string>)
    ensures Disciplined(st, DoAssign(db, st, query, names))
  {
    var s := Ask(st, query);
    DisciplinedAsk(st, query);
    DisciplinedFail(st, Succeed(s), 1, "201403091907");
  }

  lemma DisciplinedUse(db: Db, st: State, count: seq<Piece>, path: seq<Piece>, database: string)
    ensures Disciplined(st, DoUse(db, st, count, path, database))
  {
    hide NoDatabase, SetPath, HasError, ErrorsFlagged;
    var s := Ask(st, count);
    DisciplinedAsk(st, count);
    DisciplinedFail(st, Succeed(s), 911, NoDatabase(database));
    DisciplinedPath(db, s, path, database);
    DisciplinedThen(st, s, SetPath(db, s, path, database));
  }

  lemma DisciplinedPath(db: Db, st: State, path: seq<Piece>, database: string)
    ensures Disciplined(st, SetPath(db, st, path, database))
  {
    var s := Ask(st, path);
    DisciplinedAsk(st, path);
    DisciplinedFail(st, Succeed(s), 1, "internal error 201403011955");
    var ms := [EnvDatabaseMessage(s.database, database), EnvCollationMessage];
    DisciplinedAppend(s, ms);
    DisciplinedThen(st, s, Succeed(WithMessages(s, ms)));
  }

  /** The error discipline of every statement, under every behaviour of PostgreSQL. */
  lemma {:induction false} ErrorDiscipline(c: Translate.Code, fuel: nat, db: Db, st: State)
    ensures Disciplined(st, RunCode(c, fuel, db, st))
    decreases fuel, c, 1
  {
    hide Disciplined, DoSet, DoSql, DoAssign, DoPrint, DoFetch, DoUse, DoBool, RunLoop, RunAll, Prepared, PrintText;
    match c
    case SetCode(vars, text, name) => DisciplinedActions(db, st, Prepared(text, vars, st), name, []);
    case SqlCode(vars, text) => DisciplinedSql(db, st, Prepared(text, vars, st));
    case AssignCode(vars, text, names) => DisciplinedAssign(db, st, Prepared(text, vars, st), names);
    case PrintCode(vars, text) => DisciplinedActions(db, st, Prepared(PrintText(text), vars, st), "", []);
    case FetchCode(_, cursor, into) =>
      DisciplinedActions(db, st, ExpandPieces(FetchQuery(cursor), st.database), "", into);
    case UseCode(_, database) =>
      DisciplinedUse(db, st, ExpandPieces(CountQuery(database), st.database),
                     ExpandPieces(PathQuery(database), st.database), database);
    case EmptyCode(_) => DisciplinedNothing(st);
    case BlockCode(_, statements) => DisciplineOfAll(statements, fuel, db, st);
    case IfCode(vars, text, then_, else_) =>
      DisciplinedNothing(st);
      var s := DoBool(db, st, text, vars).state;
      DisciplinedTest(db, st, text, vars);
      DisciplinedFail(st, Succeed(s), 1, "internal error 201403011950");
      ErrorDiscipline(then_, fuel, db, s);
      DisciplinedThen(st, s, RunCode(then_, fuel, db, s));
      if else_.Some? {
        ErrorDiscipline(else_.value, fuel, db, s);
        DisciplinedThen(st, s, RunCode(else_.value, fuel, db, s));
      }
    case WhileCode(vars, text, body) =>
      DisciplinedNothing(st);
      var s := DoBool(db, st, text, vars).state;
      DisciplinedTest(db, st, text, vars);
      DisciplinedFail(st, Succeed(s), 1, "internal error 201403011951");
      DisciplineOfLoop(c, fuel, db, s);
      DisciplinedThen(st, s, RunLoop(c, fuel, db, s));
  }

  lemma DisciplinedNothing(st: State)
    ensures forall exit: Exit :: !exit.Return? || !exit.failed ==> Disciplined(st, Outcome(exit, st))
  {
  }

  lemma DisciplinedTest(db: Db, st: State, text: seq<Syntax.Target>, vars: seq<string>)
    ensures var t := DoBool(db, st, text, vars);
            && (t.verdict.Ends? ==> !t.verdict.exit.Return?)
            && forall exit: Exit :: !exit.Return? || !exit.failed ==> Disciplined(st, Outcome(exit, t.state))
  {
    hide Spelling.Spell, Placeholder.BoolQuery, Heard;
    DisciplinedNothing(st);
    var s := DoBool(db, st, text, vars).state;
    if s != st {
      DisciplinedAsk(st, s.asked[|st.asked|]);
    }
  }

  lemma {:induction false} DisciplineOfLoop(c: Translate.Code, fuel: nat, db: Db, st: State)
    requires c.WhileCode?
    ensures Disciplined(st, RunLoop(c, fuel, db, st))
    decreases fuel, c, 0
  {
    hide Disciplined, RunCode, DoBool;
    DisciplinedNothing(st);
    if fuel > 0 {
      var o := RunCode(c.body, fuel, db, st);
      ErrorDiscipline(c.body, fuel, db, st);
      DisciplinedFail(st, o, 1, "internal error 201403011952");
      if o.exit == Return(false) {
        var s := DoBool(db, o.state, c.text, c.vars).state;
        DisciplinedTest(db, o.state, c.text, c.vars);
        assert o == Succeed(o.state);
        forall exit: Exit | !exit.Return? || !exit.failed
          ensures Disciplined(st, Outcome(exit, s))
        {
          DisciplinedThen(st, o.state, Outcome(exit, s));
        }
        DisciplinedFail(st, Succeed(s), 1, "internal error 201403011953");
        DisciplineOfLoop(c, fuel - 1, db, s);
        DisciplinedThen(st, s, RunLoop(c, fuel - 1, db, s));
      }
    }
  }

  lemma {:induction false} DisciplineOfAll(cs: seq<Translate.Code>, fuel: nat, db: Db, st: State)
    ensures Disciplined(st, RunAll(cs, fuel, db, st))
    decreases fuel, cs, 0
  {
    if cs == [] {
      DisciplinedNothing(st);
    } else {
      var o := RunCode(cs[0], fuel, db, st);
      ErrorDiscipline(cs[0], fuel, db, st);
      if o.exit == Return(false) {
        DisciplineOfAll(cs[1..], fuel, db, o.state);
        assert o == Succeed(o.state);
        DisciplinedThen(st, o.state, RunAll(cs[1..], fuel, db, o.state));
      }
    }
  }

  /** No statement runs after one that did not return 0. */
  lemma {:induction false} RunJoin(a: seq<Translate.Code>, b: seq<Translate.Code>, fuel: nat, db: Db, st: State)
    ensures var o := RunAll(a, fuel, db, st);
            RunAll(a + b, fuel, db, st) == if o.exit == Return(false) then RunAll(b, fuel, db, o.state) else o
  {
    if a == [] {
      assert a + b == b;
    } else {
      assert (a + b)[0] == a[0] && (a + b)[1..] == a[1..] + b;
      var o := RunCode(a[0], fuel, db, st);
      if o.exit == Return(false) {
        RunJoin(a[1..], b, fuel, db, o.state);
      }
    }
  }

  // ----- fuel -----

  /** Fuel only decides whether the run comes to its end: with more of it the outcome is the same. */
  lemma {:induction false} MoreFuel(c: Translate.Code, fuel: nat, more: nat, db: Db, st: State)
    requires fuel <= more && RunCode(c, fuel, db, st).exit != NoFuel
    ensures RunCode(c, more, db, st) == RunCode(c, fuel, db, st)
    decreases fuel, c, 1
  {
    match c
    case BlockCode(_, statements) => MoreFuelForAll(statements, fuel, more, db, st);
    case IfCode(vars, text, then_, else_) =>
      var t := DoBool(db, st, text, vars);
      if t.verdict == True {
        MoreFuel(then_, fuel, more, db, t.state);
      } else if t.verdict == False && else_.Some? {
        MoreFuel(else_.value, fuel, more, db, t.state);
      }
    case WhileCode(vars, text, body) =>
      var t := DoBool(db, st, text, vars);
      if t.verdict == True {
        MoreFuelForLoop(c, fuel, more, db, t.state);
      }
    case _ =>
  }

  lemma {:induction false} MoreFuelForLoop(c: Translate.Code, fuel: nat, more: nat, db: Db, st: State)
    requires c.WhileCode?
    requires fuel <= more && RunLoop(c, fuel, db, st).exit != NoFuel
    ensures RunLoop(c, more, db, st) == RunLoop(c, fuel, db, st)
    decreases fuel, c, 0
  {
    hide RunCode, DoBool;
    var o := RunCode(c.body, fuel, db, st);
    MoreFuel(c.body, fuel, more, db, st);
    if o.exit == Return(false) {
      var t := DoBool(db, o.state, c.text, c.vars);
      if t.verdict == True || t.verdict == Stale {
        MoreFuelForLoop(c, fuel - 1, more - 1, db, t.state);
      }
    }
  }

  lemma {:induction false} MoreFuelForAll(cs: seq<Translate.Code>, fuel: nat, more: nat, db: Db, st: State)
    requires fuel <= more && RunAll(cs, fuel, db, st).exit != NoFuel
    ensures RunAll(cs, more, db, st) == RunAll(cs, fuel, db, st)
    decreases fuel, cs, 0
  {
    if cs != [] {
      var o := RunCode(cs[0], fuel, db, st);
      MoreFuel(cs[0], fuel, more, db, st);
      if o.exit == Return(false) {
        MoreFuelForAll(cs[1..], fuel, more, db, o.state);
      }
    }
  }

  // ----- assign_select -----

  lemma {:induction false} AssignFirstAt(prog: map<string, Value>, names: seq<string>, v: Value, name: string)
    ensures var r := AssignFirst(prog, names, v);
            if name in names then name in r && r[name] == v
            else (name in r <==> name in prog) && (name in prog ==> r[name] == prog[name])
    decreases |names|
  {
    if names != [] {
      AssignFirstAt(prog[names[0] := v], names[1..], v, name);
      assert name in names <==> name == names[0] || name in names[1..];
    }
  }

  /** Whether every variable has the value of its own column. */
  ghost predicate OwnColumns(prog: map<string, Value>, names: seq<string>, row: seq<Value>)
    requires |row| == |names|
  {
    forall i :: 0 <= i < |names| ==> names[i] in prog && prog[names[i]] == row[i]
  }

  lemma AssignFirstAll(prog: map<string, Value>, names: seq<string>, row: seq<Value>)
    requires row != [] && |row| == |names|
    ensures OwnColumns(AssignFirst(prog, names, row[0]), names, row)
       <==> forall i :: 0 <= i < |row| ==> row[i] == row[0]
  {
    forall i | 0 <= i < |names|
      ensures names[i] in AssignFirst(prog, names, row[0]) && AssignFirst(prog, names, row[0])[names[i]] == row[0]
    {
      AssignFirstAt(prog, names, row[0], names[i]);
    }
  }

  /** SELECT @a = .., @b = .. gives every variable its own column in every row exactly when there is one variable. */
  lemma AssignExact(prog: map<string, Value>, names: seq<string>)
    requires names != []
    ensures (forall row :: |row| == |names| ==> OwnColumns(AssignFirst(prog, names, row[0]), names, row))
       <==> |names| == 1
  {
    forall row | |row| == |names|
      ensures OwnColumns(AssignFirst(prog, names, row[0]), names, row)
         <==> forall i :: 0 <= i < |row| ==> row[i] == row[0]
    {
      AssignFirstAll(prog, names, row);
    }
    if |names| > 1 {
      var row := [Absent, IntValue(1)] + seq(|names| - 2, _ => Absent);
      assert row[1] != row[0];
      assert !OwnColumns(AssignFirst(prog, names, row[0]), names, row);
    }
  }
}

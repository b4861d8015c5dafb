/**
 tsql_executor and the exec() methods of the statement objects, as they update the
 session, the program's variables and the response in place.
 */
module Executor {
  import Placeholder
  import Spelling
  import Syntax
  import Translate
  import opened Values
  import opened Exec

  /** The prog_vars map that every statement of a program shares. */
  class Variables {
    var values: map<string, Value>

    constructor ()
      ensures values == map[]
    {
      values := map[];
    }
  }

  class Session {
    const db: Db
    var sessVars: map<string, Value>
    var database: string
    var messages: seq<Message>
    var asked: seq<seq<Piece>>

    constructor (db: Db)
      ensures this.db == db && sessVars == map[] && database == "" && messages == [] && asked == []
    {
      this.db := db;
      sessVars := map[];
      database := "";
      messages := [];
      asked := [];
    }

    ghost function Now(vars: Variables): State
      reads this, vars
    {
      State(Env(sessVars, vars.values), database, messages, asked)
    }

    /** The same with no program at work. */
    ghost function Bare(): State
      reads this
    {
      State(Env(sessVars, map[]), database, messages, asked)
    }

    /** Binding: one array slot for every entry of the statement's list. */
    method Params(names: seq<string>, vars: Variables) returns (values: seq<Value>)
      ensures values == ValuesOf(names, Env(sessVars, vars.values))
    {
      var params := new Value[|names|];
      var i := 0;
      while i < |names|
        invariant 0 <= i <= |names|
        invariant forall k :: 0 <= k < i ==> params[k] == Lookup(Env(sessVars, vars.values), names[k])
      {
        var name := names[i];
        if "@@" <= name {
          params[i] := if name in sessVars then sessVars[name] else Absent;
        } else {
          params[i] := if name in vars.values then vars.values[name] else Absent;
        }
        i := i + 1;
      }
      values := params[..];
    }

    method Expanded(text: seq<Syntax.Target>) returns (r: seq<Syntax.Target>)
      ensures r == ExpandText(text, database)
    {
      r := [];
      for i := 0 to |text|
        invariant |r| == i && forall k :: 0 <= k < i ==> r[k] == ExpandTarget(text[k], database)
      {
        match text[i]
        case Param(_) => r := r + [text[i]];
        case Text(s) =>
          var e := Placeholder.ReplaceAll(s, database);
          r := r + [Syntax.Text(e)];
      }
    }

    method Send(query: seq<Piece>) returns (r: Response)
      modifies this`asked
      ensures asked == old(asked) + [query] && r == db(asked)
    {
      asked := asked + [query];
      r := db(asked);
    }

    /** exec_int, exec_ext and exec_cmd up to the call of PostgreSQL. */
    method Execute(text: seq<Syntax.Target>, names: seq<string>, vars: Variables) returns (r: Response)
      modifies this`asked
      ensures asked == old(asked) + [Prepared(text, names, old(Now(vars)))] && r == db(asked)
    {
      var e := Expanded(text);
      var values := Params(names, vars);
      r := Send(Bind(e, values));
    }

    method Init(vars: Variables) returns (exit: Exit)
      modifies this
      ensures Outcome(exit, Now(vars)) == DoInit(db, old(Now(vars)))
    {
      sessVars := sessVars[FETCH_STATUS := IntValue(0)];
      sessVars := sessVars["@@microsoftversion" := IntValue(0x090013CD)];
      var r := Send(PID_QUERY);
      match r
      case Throw(m) => exit := Thrown(m);
      case Failure => exit := Undefined;
      case Reply(_, rows) =>
        if rows == [] || rows[0] == [] {
          return Undefined;
        }
        sessVars := sessVars["@@spid" := rows[0][0]];
        exit := Return(false);
    }

    method Error(number: nat, text: string)
      modifies this`messages
      ensures messages == old(messages) + ErrorMessages(number, text)
    {
      messages := messages + [ErrorMessage(number, text)];
      messages := messages + [ERROR_DONE];
      assert [ErrorMessage(number, text)] + [ERROR_DONE] == ErrorMessages(number, text);
    }

    method ExecSet(c: Translate.Code, vars: Variables) returns (exit: Exit)
      requires c.SetCode?
      modifies this, vars
      ensures Outcome(exit, Now(vars)) == DoSet(db, old(Now(vars)), Prepared(c.text, c.vars, old(Now(vars))), c.name)
    {
      var r := Execute(c.text, c.vars, vars);
      match r
      case Throw(m) => exit := Thrown(m);
      case Failure => exit := Undefined;
      case Reply(_, rows) =>
        if rows == [] || rows[0] == [] {
          return Undefined;
        }
        vars.values := vars.values[c.name := rows[0][0]];
        exit := Return(false);
    }

    method ExecAssign(c: Translate.Code, vars: Variables) returns (exit: Exit)
      requires c.AssignCode?
      modifies this, vars
      ensures Outcome(exit, Now(vars))
           == DoAssign(db, old(Now(vars)), Prepared(c.text, c.vars, old(Now(vars))), c.names)
    {
      var r := Execute(c.text, c.vars, vars);
      match r
      case Throw(m) => exit := Thrown(m);
      case Failure => exit := Undefined;
      case Reply(_, rows) =>
        if |rows| != 1 {
          Error(1, "201403091907");
          return Return(true);
        }
        var row := rows[0];
        if |row| > |c.names| {
          return Undefined;
        }
        ghost var before, names := vars.values, c.names[..|row|];
        var i := 0;
        while i < |row|
          invariant i <= |row|
          invariant row != [] ==> AssignFirst(vars.values, names[i..], row[0]) == AssignFirst(before, names, row[0])
          invariant row == [] ==> vars.values == before
          modifies vars
        {
          assert names[i..][0] == c.names[i] && names[i..][1..] == names[i + 1..];
          vars.values := vars.values[c.names[i] := row[0]];
          i := i + 1;
        }
        exit := Return(false);
    }

    method ExecSql(c: Translate.Code, vars: Variables) returns (exit: Exit)
      requires c.SqlCode?
      modifies this
      ensures Outcome(exit, Now(vars)) == DoSql(db, old(Now(vars)), Prepared(c.text, c.vars, old(Now(vars))))
    {
      var r := Execute(c.text, c.vars, vars);
      match r
      case Throw(m) => exit := Thrown(m);
      case Failure =>
        Error(1, "unknown error");
        exit := Return(true);
      case Reply(code, rows) =>
        if code.Selected? {
          messages := messages + [ResultsMessage(rows), CountDone(|rows|)];
          exit := Return(false);
        } else if code.Other? {
          Error(1, "Internal error");
          exit := Return(true);
        } else {
          messages := messages + [CountDone(0)];
          exit := Return(false);
        }
    }

    method ExecPrint(c: Translate.Code, vars: Variables) returns (exit: Exit)
      requires c.PrintCode?
      modifies this
      ensures Outcome(exit, Now(vars))
           == DoPrint(db, old(Now(vars)), Prepared(PrintText(c.text), c.vars, old(Now(vars))))
    {
      var r := Execute(PrintText(c.text), c.vars, vars);
      match r
      case Throw(m) => exit := Thrown(m);
      case Failure => exit := Undefined;
      case Reply(_, rows) =>
        if rows == [] || rows[0] == [] || rows[0][0].Absent? {
          return Undefined;
        }
        messages := messages + [InfoMessage(rows[0][0].text), PLAIN_DONE];
        exit := Return(false);
    }

    method ExecFetch(c: Translate.Code, vars: Variables) returns (exit: Exit)
      requires c.FetchCode?
      modifies this, vars
      ensures Outcome(exit, Now(vars))
           == DoFetch(db, old(Now(vars)), old(ExpandPieces(FetchQuery(c.cursor), database)), c.into)
    {
      var e := Placeholder.ReplaceAll("FETCH NEXT FROM " + c.cursor + "\n", database);
      assert [Given(e)] == ExpandPieces(FetchQuery(c.cursor), database);
      var r := Send([Given(e)]);
      match r
      case Throw(m) => exit := Thrown(m);
      case Failure => exit := Undefined;
      case Reply(_, rows) =>
        if rows == [] {
          sessVars := sessVars[FETCH_STATUS := IntValue(-1)];
          return Return(false);
        }
        sessVars := sessVars[FETCH_STATUS := IntValue(0)];
        var row := rows[0];
        var n := if |c.into| > |row| then |row| else |c.into|;
        ghost var before := vars.values;
        var i := 0;
        while i < n
          invariant i <= n
          invariant AssignRow(vars.values, c.into[i..], row[i..]) == AssignRow(before, c.into, row)
          modifies vars
        {
          assert c.into[i..][1..] == c.into[i + 1..] && row[i..][1..] == row[i + 1..];
          vars.values := vars.values[c.into[i] := row[i]];
          i := i + 1;
        }
        exit := Return(false);
    }

    method ExecUse(c: Translate.Code, vars: Variables) returns (exit: Exit)
      requires c.UseCode?
      modifies this
      ensures Outcome(exit, Now(vars))
           == DoUse(db, old(Now(vars)), old(ExpandPieces(CountQuery(c.database), database)),
                    old(ExpandPieces(PathQuery(c.database), database)), c.database)
    {
      hide NoDatabase, SetPath;
      var e := Placeholder.ReplaceAll("SELECT COUNT(*) FROM pg_namespace WHERE nspname = '" + c.database + ".dbo'",
                                      database);
      assert [Given(e)] == ExpandPieces(CountQuery(c.database), database);
      var r := Send([Given(e)]);
      match r
      case Throw(m) => exit := Thrown(m);
      case Failure => exit := Undefined;
      case Reply(_, rows) =>
        if rows == [] || rows[0] == [] || rows[0][0].Absent? {
          return Undefined;
        }
        if rows[0][0].number == 0 {
          Error(911, NoDatabase(c.database));
          return Return(true);
        }
        exit := ExecPath(c.database, vars);
    }

    method ExecPath(name: string, vars: Variables) returns (exit: Exit)
      modifies this
      ensures Outcome(exit, Now(vars))
           == SetPath(db, old(Now(vars)), old(ExpandPieces(PathQuery(name), database)), name)
    {
      var e := Placeholder.ReplaceAll("SET SEARCH_PATH TO \"" + name + ".dbo\", \"master.dbo\", public", database);
      assert [Given(e)] == ExpandPieces(PathQuery(name), database);
      var r := Send([Given(e)]);
      match r
      case Throw(m) => exit := Thrown(m);
      case Failure =>
        Error(1, "internal error 201403011955");
        exit := Return(true);
      case Reply(_, _) =>
        messages := messages + [EnvDatabaseMessage(database, name), EnvCollationMessage];
        database := name;
        exit := Return(false);
    }

    /** The loop of exec_bool and its query; with an empty name the search stays where it is. */
    method ExecBool(text: seq<Syntax.Target>, names: seq<string>, vars: Variables) returns (verdict: Verdict)
      modifies this`asked
      ensures Test(verdict, Now(vars)) == DoBool(db, old(Now(vars)), text, names)
    {
      hide Spelling.Spell, Placeholder.BoolQuery, Placeholder.Meant, Prepared, VerdictOf, ValuesOf;
      var expr := Spelling.Spell(text);
      var sent := Placeholder.SELECT + expr;
      if database == "" {
        var found := Placeholder.Find(expr, 0);
        if found != -1 {
          return Ends(if found > |Placeholder.SELECT| then Aborted else NoFuel);
        }
      } else {
        var query := Placeholder.ExecBoolQuery(expr, database);
        if query.None? {
          return Ends(Aborted);
        }
        sent := query.value;
      }
      verdict := SendBool(sent, text, names, vars);
    }

    method SendBool(sent: string, text: seq<Syntax.Target>, names: seq<string>, vars: Variables)
      returns (verdict: Verdict)
      modifies this`asked
      ensures Test(verdict, Now(vars)) == AskBool(db, old(Now(vars)), Heard(sent, text, names, old(Now(vars))))
    {
      hide Spelling.Spell, Placeholder.Meant, Prepared, VerdictOf, ValuesOf;
      var r: Response;
      if sent == Placeholder.Meant(Spelling.Spell(text), database) {
        r := Execute(Condition(text), names, vars);
      } else {
        var values := Params(names, vars);
        r := Send([Raw(sent, values)]);
      }
      verdict := VerdictOf(r);
    }

    /** The exec() of any statement object. */
    method Exec(c: Translate.Code, fuel: nat, vars: Variables) returns (exit: Exit)
      modifies this, vars
      ensures Outcome(exit, Now(vars)) == RunCode(c, fuel, db, old(Now(vars)))
      decreases fuel, c, 1
    {
      match c
      case SetCode(_, _, _) => exit := ExecSet(c, vars);
      case SqlCode(_, _) => exit := ExecSql(c, vars);
      case AssignCode(_, _, _) => exit := ExecAssign(c, vars);
      case PrintCode(_, _) => exit := ExecPrint(c, vars);
      case FetchCode(_, _, _) => exit := ExecFetch(c, vars);
      case UseCode(_, _) => exit := ExecUse(c, vars);
      case EmptyCode(_) => exit := Return(false);
      case BlockCode(_, _) => exit := ExecBlock(c, fuel, vars);
      case IfCode(_, _, _, _) => exit := ExecIf(c, fuel, vars);
      case WhileCode(_, _, _) => exit := ExecWhile(c, fuel, vars);
    }

    method ExecBlock(c: Translate.Code, fuel: nat, vars: Variables) returns (exit: Exit)
      requires c.BlockCode?
      modifies this, vars
      ensures Outcome(exit, Now(vars)) == RunAll(c.statements, fuel, db, old(Now(vars)))
      decreases fuel, c, 0
    {
      var i := 0;
      while i < |c.statements|
        invariant i <= |c.statements|
        invariant RunAll(c.statements[i..], fuel, db, Now(vars)) == RunAll(c.statements, fuel, db, old(Now(vars)))
      {
        assert c.statements[i..][0] == c.statements[i] && c.statements[i..][1..] == c.statements[i + 1..];
        var e := Exec(c.statements[i], fuel, vars);
        if e != Return(false) {
          return e;
        }
        i := i + 1;
      }
      exit := Return(false);
    }

    method ExecIf(c: Translate.Code, fuel: nat, vars: Variables) returns (exit: Exit)
      requires c.IfCode?
      modifies this, vars
      ensures Outcome(exit, Now(vars)) == RunCode(c, fuel, db, old(Now(vars)))
      decreases fuel, c, 0
    {
      hide DoBool, DoSet, DoSql, DoAssign, DoPrint, DoFetch, DoUse, RunAll, ErrorMessages, Prepared;
      var result := ExecBool(c.text, c.vars, vars);
      match result
      case Ends(e) => exit := e;
      case Stale => exit := Undefined;
      case Bad =>
        Error(1, "internal error 201403011950");
        exit := Return(true);
      case True => exit := Exec(c.then_, fuel, vars);
      case False =>
        if c.else_.Some? {
          exit := Exec(c.else_.value, fuel, vars);
        } else {
          exit := Return(false);
        }
    }

    method ExecWhile(c: Translate.Code, fuel: nat, vars: Variables) returns (exit: Exit)
      requires c.WhileCode?
      modifies this, vars
      ensures Outcome(exit, Now(vars)) == RunCode(c, fuel, db, old(Now(vars)))
      decreases fuel, c, 0
    {
      hide DoBool, DoSet, DoSql, DoAssign, DoPrint, DoFetch, DoUse, RunAll, ErrorMessages, Prepared;
      var result := ExecBool(c.text, c.vars, vars);
      match result {
        case Ends(end) => return end;
        case Stale => return Undefined;
        case Bad =>
          Error(1, "internal error 201403011951");
          return Return(true);
        case _ =>
      }
      var left: nat := fuel;
      while result != False
        invariant left <= fuel
        invariant result == False ==> Succeed(Now(vars)) == RunCode(c, fuel, db, old(Now(vars)))
        invariant result != False ==> RunLoop(c, left, db, Now(vars)) == RunCode(c, fuel, db, old(Now(vars)))
        decreases left, result != False
      {
        if left == 0 {
          return NoFuel;
        }
        var e := Exec(c.body, left, vars);
        if !e.Return? {
          return e;
        }
        if e.failed {
          Error(1, "internal error 201403011952");
          return Return(true);
        }
        var verdict := ExecBool(c.text, c.vars, vars);
        match verdict {
          case Ends(end) => return end;
          case Bad =>
            Error(1, "internal error 201403011953");
            return Return(true);
          case Stale =>          // *result keeps what it was: true
          case _ => result := verdict;
        }
        left := left - 1;
      }
      exit := Return(false);
    }
  }
}

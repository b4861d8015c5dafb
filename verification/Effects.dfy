/**
 What each statement object leaves behind: messages, variables, database and queries,
 said of the run by the answers of PostgreSQL alone.
 */
module Effects {
  import Bytes
  import opened Exec
  import opened Options
  import Placeholder
  import Spelling
  import Syntax
  import Translate
  import opened Values

  // ----- programs of SQL statements -----

  predicate AllSql(cs: seq<Translate.Code>) {
    forall i :: 0 <= i < |cs| ==> cs[i].SqlCode?
  }

  /** What the statements ask, in the state that they start from. */
  function Questions(cs: seq<Translate.Code>, st: State): (r: seq<seq<Piece>>)
    requires AllSql(cs)
    ensures |r| == |cs|
  {
    seq(|cs|, i requires 0 <= i < |cs| => Prepared(cs[i].text, cs[i].vars, st))
  }

  /** What PostgreSQL says to each question when they are asked one after the other. */
  function Replies(db: Db, asked: seq<seq<Piece>>, questions: seq<seq<Piece>>): (r: seq<Response>)
    ensures |r| == |questions|
    decreases |questions|
  {
    if questions == [] then [] else [db(asked + [questions[0]])] + Replies(db, asked + [questions[0]], questions[1..])
  }

  predicate Accepted(r: Response) {
    r.Reply? && !r.code.Other?
  }

  /** A selection is sent with its rows and a count of them; anything else counts no rows. */
  function Reported(replies: seq<Response>): seq<Message> {
    if replies == [] then []
    else
      (if replies[0].Reply? && replies[0].code == Selected
       then [ResultsMessage(replies[0].rows), DoneMessage(false, true, |replies[0].rows|)]
       else [DoneMessage(false, true, 0)])
      + Reported(replies[1..])
  }

  /** How the first statement that is not accepted ends the program. */
  ghost predicate EndsWith(r: Response, exit: Exit, last: seq<Message>) {
    match r
    case Throw(m) => exit == Thrown(m) && last == []
    case Failure => exit == Return(true) && last == [ErrorMessage(1, "unknown error"), DoneMessage(true, false, 1)]
    case Reply(_, _) => exit == Return(true) && last == [ErrorMessage(1, "Internal error"), DoneMessage(true, false, 1)]
  }

  /** One statement, whose answer is `r`. */
  lemma SqlOne(c: Translate.Code, fuel: nat, db: Db, st: State, r: Response)
    requires c.SqlCode? && r == db(st.asked + [Prepared(c.text, c.vars, st)])
    ensures var o := RunCode(c, fuel, db, st);
            var asked := st.asked + [Prepared(c.text, c.vars, st)];
            if Accepted(r)
            then o == Outcome(Return(false), State(st.env, st.database, st.messages + Reported([r]), asked))
            else
              && o.state.env == st.env && o.state.database == st.database && o.state.asked == asked
              && st.messages <= o.state.messages
              && EndsWith(r, o.exit, o.state.messages[|st.messages|..])
  {
    hide Prepared;
    assert Reported([r]) == if r.Reply? && r.code == Selected
                            then [ResultsMessage(r.rows), DoneMessage(false, true, |r.rows|)]
                            else [DoneMessage(false, true, 0)];
  }

  lemma ReportedCons(r: Response, rest: seq<Response>)
    ensures Reported([r] + rest) == Reported([r]) + Reported(rest)
  {
    assert ([r] + rest)[1..] == rest && [r][1..] == [];
  }

  lemma SameQuestions(cs: seq<Translate.Code>, st: State, s: State)
    requires cs != [] && AllSql(cs) && s.env == st.env && s.database == st.database
    ensures AllSql(cs[1..]) && Questions(cs, st) == [Questions(cs, st)[0]] + Questions(cs[1..], s)
  {
    hide Bind, ExpandText;
  }

  /** The program has done n statements, and one more that was not accepted unless these are all. */
  ghost predicate Ran(db: Db, st: State, questions: seq<seq<Piece>>, n: nat, o: Outcome)
    requires n <= |questions|
  {
    var replies := Replies(db, st.asked, questions);
    var before := st.messages + Reported(replies[..n]);
    && o.state.env == st.env && o.state.database == st.database
    && before <= o.state.messages
    && var last := o.state.messages[|before|..];
       if n == |questions|
       then o.exit == Return(false) && last == [] && o.state.asked == st.asked + questions
       else EndsWith(replies[n], o.exit, last) && o.state.asked == st.asked + questions[..n + 1]
  }

  ghost predicate AcceptsFirst(replies: seq<Response>, n: nat) {
    && n <= |replies| && (forall i :: 0 <= i < n ==> Accepted(replies[i]))
    && (n < |replies| ==> !Accepted(replies[n]))
  }

  lemma RanOneMore(db: Db, st: State, questions: seq<seq<Piece>>, n: nat, s: State, o: Outcome)
    requires 0 < n <= |questions|
    requires var r := db(st.asked + [questions[0]]);
             s == State(st.env, st.database, st.messages + Reported([r]), st.asked + [questions[0]])
    requires Ran(db, s, questions[1..], n - 1, o)
    ensures Ran(db, st, questions, n, o)
  {
    hide Reported, EndsWith;
    var r := db(st.asked + [questions[0]]);
    var replies, rest := Replies(db, st.asked, questions), Replies(db, s.asked, questions[1..]);
    assert replies == [r] + rest;
    assert replies[..n] == [r] + rest[..n - 1];
    ReportedCons(r, rest[..n - 1]);
    Bytes.Assoc(st.messages, Reported([r]), Reported(rest[..n - 1]));
    if n < |questions| {
      assert questions[..n + 1] == [questions[0]] + questions[1..][..n];
      Bytes.Assoc(st.asked, [questions[0]], questions[1..][..n]);
    } else {
      assert questions == [questions[0]] + questions[1..];
      Bytes.Assoc(st.asked, [questions[0]], questions[1..]);
    }
  }

  /**
   Any program of SQL statements, under any PostgreSQL that accepts the first n of them:
   the response holds, statement by statement, the rows of each selection and a DONE that
   counts them, and a DONE that counts none for the others; the first statement that is
   not accepted is the last one.
   */
  lemma {:induction false} SqlProgram(cs: seq<Translate.Code>, n: nat, fuel: nat, db: Db, st: State)
    requires AllSql(cs) && AcceptsFirst(Replies(db, st.asked, Questions(cs, st)), n)
    ensures Ran(db, st, Questions(cs, st), n, RunAll(cs, fuel, db, st))
    decreases |cs|
  {
    hide Prepared, RunCode, Reported, Ran;
    if cs == [] {
      NothingRan(db, st);
    } else {
      var questions := Questions(cs, st);
      var r := db(st.asked + [questions[0]]);
      SqlOne(cs[0], fuel, db, st, r);
      var o := RunCode(cs[0], fuel, db, st);
      var replies := Replies(db, st.asked, questions);
      assert replies[0] == r;
      if n > 0 {
        var s := o.state;
        SameQuestions(cs, st, s);
        var rest := Replies(db, s.asked, Questions(cs[1..], s));
        assert replies[1..] == rest;
        assert forall i :: 0 <= i < |rest| ==> rest[i] == replies[i + 1];
        SqlProgram(cs[1..], n - 1, fuel, db, s);
        RanOneMore(db, st, questions, n, s, RunAll(cs[1..], fuel, db, s));
      } else {
        NoneRan(db, st, questions, o);
      }
    }
  }

  lemma NothingRan(db: Db, st: State)
    ensures Ran(db, st, [], 0, Succeed(st))
  {
    assert st.messages + [] == st.messages && st.asked + [] == st.asked;
  }

  lemma NoneRan(db: Db, st: State, questions: seq<seq<Piece>>, o: Outcome)
    requires questions != [] && o.state.env == st.env && o.state.database == st.database
    requires o.state.asked == st.asked + [questions[0]] && st.messages <= o.state.messages
    requires EndsWith(db(o.state.asked), o.exit, o.state.messages[|st.messages|..])
    ensures Ran(db, st, questions, 0, o)
  {
    hide EndsWith;
    var replies := Replies(db, st.asked, questions);
    assert replies[..0] == [] && st.messages + [] == st.messages && questions[..1] == [questions[0]];
  }

  // ----- variables -----

  /** The first column of the first row, if there is one. */
  function FirstValue(r: Response): Option<Value> {
    if r.Reply? && r.rows != [] && r.rows[0] != [] then Some(r.rows[0][0]) else None
  }

  /** One question was asked, and neither the database nor the response has changed. */
  ghost predicate OnlyAsked(st: State, s: State, question: seq<Piece>) {
    s.database == st.database && s.messages == st.messages && s.asked == st.asked + [question]
  }

  /** A statement that is over: an exception of PostgreSQL, or a result that is not there. */
  ghost predicate Lost(r: Response, exit: Exit) {
    if r.Throw? then exit == Thrown(r.message) else exit == Undefined
  }

  /** SET: the variable has the first column of the first row, and every other one what it had. */
  lemma SetLeaves(c: Translate.Code, fuel: nat, db: Db, st: State)
    requires c.SetCode?
    ensures var question := Prepared(c.text, c.vars, st);
            var v := FirstValue(db(st.asked + [question]));
            var o := RunCode(c, fuel, db, st);
            && OnlyAsked(st, o.state, question)
            && (v.None? ==> Lost(db(st.asked + [question]), o.exit) && o.state.env == st.env)
            && (v.Some? ==>
                  && o.exit == Return(false)
                  && forall name :: Lookup(o.state.env, name)
                                 == if name == c.name && !("@@" <= name) then v.value else Lookup(st.env, name))
  {
    hide Prepared;
  }

  /** PRINT: an INFO with the text of the first value, and a plain DONE. */
  lemma PrintLeaves(c: Translate.Code, fuel: nat, db: Db, st: State)
    requires c.PrintCode?
    ensures var text := Syntax.Texts(["SELECT", "CAST", "("]) + c.text + Syntax.Texts(["AS", "tsql_varchar", ")"]);
            var question := Prepared(text, c.vars, st);
            var v := FirstValue(db(st.asked + [question]));
            var o := RunCode(c, fuel, db, st);
            if v.None? || v.value.Absent?
            then Lost(db(st.asked + [question]), o.exit) && o.state == Ask(st, question)
            else
              && o.exit == Return(false) && o.state.env == st.env && o.state.database == st.database
              && o.state.asked == st.asked + [question]
              && o.state.messages == st.messages + [InfoMessage(v.value.text), DoneMessage(false, false, 0)]
  {
    hide Prepared, Syntax.Texts;
  }

  /** The name has what it had before, or is not there as before. */
  predicate SameAt(before: map<string, Value>, after: map<string, Value>, name: string) {
    (name in after <==> name in before) && (name in before ==> after[name] == before[name])
  }

  /** The last of the names that a row reaches decides. */
  ghost predicate TakesRow(before: map<string, Value>, after: map<string, Value>, into: seq<string>, row: seq<Value>) {
    forall name ::
      if exists i :: 0 <= i < |into| && i < |row| && LastAt(into, |row|, i, name)
      then exists i :: 0 <= i < |into| && i < |row| && LastAt(into, |row|, i, name)
                       && name in after && after[name] == row[i]
      else SameAt(before, after, name)
  }

  ghost predicate LastAt(into: seq<string>, size: nat, i: nat, name: string) {
    i < |into| && into[i] == name && forall k :: i < k < |into| && k < size ==> into[k] != name
  }

  lemma {:induction false} RowTaken(prog: map<string, Value>, into: seq<string>, row: seq<Value>, name: string, i: nat)
    requires i < |into| && i < |row| && LastAt(into, |row|, i, name)
    ensures name in AssignRow(prog, into, row) && AssignRow(prog, into, row)[name] == row[i]
    decreases |into|
  {
    var next := prog[into[0] := row[0]];
    if i > 0 {
      assert forall k :: 0 <= k < |into| - 1 ==> into[1..][k] == into[k + 1];
      RowTaken(next, into[1..], row[1..], name, i - 1);
    } else {
      RowMissed(next, into[1..], row[1..], name);
    }
  }

  lemma {:induction false} RowMissed(prog: map<string, Value>, into: seq<string>, row: seq<Value>, name: string)
    requires forall k :: 0 <= k < |into| && k < |row| ==> into[k] != name
    ensures SameAt(prog, AssignRow(prog, into, row), name)
    decreases |into|
  {
    if into != [] && row != [] {
      assert forall k :: 0 <= k < |into| - 1 ==> into[1..][k] == into[k + 1];
      RowMissed(prog[into[0] := row[0]], into[1..], row[1..], name);
    }
  }

  /** FETCH: status -1 and nothing else without a row; with one, status 0 and its columns in the variables. */
  lemma FetchLeaves(c: Translate.Code, fuel: nat, db: Db, st: State)
    requires c.FetchCode?
    ensures var question := ExpandPieces([Given("FETCH NEXT FROM " + c.cursor + "\n")], st.database);
            var r := db(st.asked + [question]);
            var o := RunCode(c, fuel, db, st);
            && OnlyAsked(st, o.state, question)
            && (!r.Reply? ==> Lost(r, o.exit) && o.state.env == st.env)
            && (r.Reply? ==>
                  && o.exit == Return(false)
                  && Status(o.state.env) == Some(if r.rows == [] then -1 else 0)
                  && SameButStatus(st.env.sess, o.state.env.sess)
                  && (r.rows == [] ==> o.state.env.prog == st.env.prog)
                  && (r.rows != [] ==> TakesRow(st.env.prog, o.state.env.prog, c.into, r.rows[0])))
  {
    hide ExpandPieces;
    var question := ExpandPieces([Given("FETCH NEXT FROM " + c.cursor + "\n")], st.database);
    var r := db(st.asked + [question]);
    if r.Reply? && r.rows != [] {
      var row, after := r.rows[0], AssignRow(st.env.prog, c.into, r.rows[0]);
      forall name
        ensures if exists i :: 0 <= i < |c.into| && i < |row| && LastAt(c.into, |row|, i, name)
                then exists i :: 0 <= i < |c.into| && i < |row| && LastAt(c.into, |row|, i, name)
                                 && name in after && after[name] == row[i]
                else SameAt(st.env.prog, after, name)
      {
        if i :| 0 <= i < |c.into| && i < |row| && LastAt(c.into, |row|, i, name) {
          RowTaken(st.env.prog, c.into, row, name, i);
        } else {
          NoLast(c.into, |row|, name);
          RowMissed(st.env.prog, c.into, row, name);
        }
      }
    }
  }

  /** A name that occurs has a last occurrence. */
  lemma NoLast(into: seq<string>, size: nat, name: string)
    requires forall i :: 0 <= i < |into| && i < size ==> !LastAt(into, size, i, name)
    ensures forall k :: 0 <= k < |into| && k < size ==> into[k] != name
  {
    var i := if |into| < size then |into| else size;
    while i > 0
      invariant 0 <= i <= |into| && i <= size
      invariant forall k :: i <= k < |into| && k < size ==> into[k] != name
    {
      i := i - 1;
      assert !LastAt(into, size, i, name);
    }
  }

  function Status(env: Env): Option<int> {
    var v := Lookup(env, "@@fetch_status");
    if v.Datum? then Some(v.number) else None
  }

  ghost predicate SameButStatus(a: map<string, Value>, b: map<string, Value>) {
    forall name :: name != "@@fetch_status" ==> SameAt(a, b, name)
  }

  /** SELECT @a = .., @b = ..: without exactly one row an ERROR; otherwise as many names as there are columns change. */
  lemma AssignLeaves(c: Translate.Code, fuel: nat, db: Db, st: State)
    requires c.AssignCode?
    ensures var question := Prepared(c.text, c.vars, st);
            var r := db(st.asked + [question]);
            var o := RunCode(c, fuel, db, st);
            && o.state.database == st.database && o.state.asked == st.asked + [question]
            && (if r.Reply? && |r.rows| != 1
                then
                  && o.exit == Return(true) && o.state.env == st.env
                  && o.state.messages == st.messages + [ErrorMessage(1, "201403091907"), DoneMessage(true, false, 1)]
                else o.state.messages == st.messages)
            && (!r.Reply? || (|r.rows| == 1 && |r.rows[0]| > |c.names|) ==> Lost(r, o.exit) && o.state.env == st.env)
            && (r.Reply? && |r.rows| == 1 && |r.rows[0]| <= |c.names| ==>
                  && o.exit == Return(false) && o.state.env.sess == st.env.sess
                  && AllTake(st.env.prog, o.state.env.prog, c.names[..|r.rows[0]|], FirstValue(r)))
  {
    hide Prepared;
    var r := db(st.asked + [Prepared(c.text, c.vars, st)]);
    if r.Reply? && |r.rows| == 1 && r.rows[0] != [] && |r.rows[0]| <= |c.names| {
      var names := c.names[..|r.rows[0]|];
      forall name
        ensures var after := AssignFirst(st.env.prog, names, r.rows[0][0]);
                if name in names then name in after && after[name] == r.rows[0][0]
                else SameAt(st.env.prog, after, name)
      {
        AssignFirstAt(st.env.prog, names, r.rows[0][0], name);
      }
    }
  }

  /** Each of the names has the value, if there is one, and every other name what it had. */
  ghost predicate AllTake(before: map<string, Value>, after: map<string, Value>, names: seq<string>, v: Option<Value>) {
    forall name ::
      if name in names then v.Some? && name in after && after[name] == v.value
      else SameAt(before, after, name)
  }

  // ----- USE -----

  function DatabaseText(name: string): string {
    "SELECT COUNT(*) FROM pg_namespace WHERE nspname = '" + name + ".dbo'"
  }

  function PathText(name: string): string {
    "SET SEARCH_PATH TO \"" + name + ".dbo\", \"master.dbo\", public"
  }

  function MissingText(name: string): string {
    "Could not locate entry in sysdatabases for database '" + name
    + "'. No entry found with that name. Make sure that the name is entered correctly."
  }

  /** How the second question of USE ends it. */
  ghost predicate PathSet(st: State, o: Outcome, name: string, r: Response) {
    match r
    case Throw(m) => o.exit == Thrown(m) && o.state.database == st.database && o.state.messages == st.messages
    case Failure =>
      && o.exit == Return(true) && o.state.database == st.database
      && o.state.messages == st.messages + [ErrorMessage(1, "internal error 201403011955"), DoneMessage(true, false, 1)]
    case Reply(_, _) =>
      && o.exit == Return(false) && o.state.database == name
      && o.state.messages == st.messages + [EnvDatabaseMessage(st.database, name), EnvCollationMessage]
  }

  /** USE: the database is looked for, then the search path is set, and only then it changes, with two messages. */
  lemma UseLeaves(c: Translate.Code, fuel: nat, db: Db, st: State)
    requires c.UseCode?
    ensures var count := ExpandPieces([Given(DatabaseText(c.database))], st.database);
            var path := ExpandPieces([Given(PathText(c.database))], st.database);
            var v := FirstValue(db(st.asked + [count]));
            var o := RunCode(c, fuel, db, st);
            && o.state.env == st.env
            && (if v.None? || v.value.Absent?
                then Lost(db(st.asked + [count]), o.exit) && OnlyAsked(st, o.state, count)
                else if v.value.number == 0
                then
                  && o.exit == Return(true) && o.state.database == st.database && o.state.asked == st.asked + [count]
                  && o.state.messages
                     == st.messages + [ErrorMessage(911, MissingText(c.database)), DoneMessage(true, false, 1)]
                else
                  && o.state.asked == st.asked + [count] + [path]
                  && PathSet(st, o, c.database, db(st.asked + [count] + [path])))
  {
    hide *;
    UseTexts(c.database);
    UseRun(c, fuel, db, st);
    UseEnds(db, st, ExpandPieces(CountQuery(c.database), st.database), ExpandPieces(PathQuery(c.database), st.database),
            c.database);
  }

  lemma UseTexts(name: string)
    ensures CountQuery(name) == [Given(DatabaseText(name))] && PathQuery(name) == [Given(PathText(name))]
    ensures NoDatabase(name) == MissingText(name)
  {
  }

  lemma UseRun(c: Translate.Code, fuel: nat, db: Db, st: State)
    requires c.UseCode?
    ensures RunCode(c, fuel, db, st)
         == DoUse(db, st, ExpandPieces(CountQuery(c.database), st.database),
                  ExpandPieces(PathQuery(c.database), st.database), c.database)
  {
    hide DoUse, ExpandPieces, CountQuery, PathQuery;
  }

  lemma UseEnds(db: Db, st: State, count: seq<Piece>, path: seq<Piece>, name: string)
    ensures var v := FirstValue(db(st.asked + [count]));
            var o := DoUse(db, st, count, path, name);
            && o.state.env == st.env
            && (if v.None? || v.value.Absent?
                then Lost(db(st.asked + [count]), o.exit) && OnlyAsked(st, o.state, count)
                else if v.value.number == 0
                then
                  && o.exit == Return(true) && o.state.database == st.database && o.state.asked == st.asked + [count]
                  && o.state.messages
                     == st.messages + [ErrorMessage(911, NoDatabase(name)), DoneMessage(true, false, 1)]
                else
                  && o.state.asked == st.asked + [count] + [path]
                  && PathSet(st, o, name, db(st.asked + [count] + [path])))
  {
    hide NoDatabase;
  }

  // ----- the session -----

  /** tsql_executor::init: status 0, the version of SQL Server 2005, and the process number that was asked for. */
  lemma InitLeaves(db: Db, st: State)
    ensures var question := [Given("SELECT pg_backend_pid()::tsql_int")];
            var v := FirstValue(db(st.asked + [question]));
            var o := DoInit(db, st);
            && OnlyAsked(st, o.state, question)
            && o.state.env.prog == st.env.prog && Status(o.state.env) == Some(0)
            && Lookup(o.state.env, "@@microsoftversion") == Datum(0x090013CD, "")
            && (v.None? ==> Lost(db(st.asked + [question]), o.exit))
            && (v.Some? ==> o.exit == Return(false) && Lookup(o.state.env, "@@spid") == v.value)
            && forall name :: name !in {"@@fetch_status", "@@microsoftversion", "@@spid"} ==>
                 Lookup(o.state.env, name) == Lookup(st.env, name)
  {
  }

  // ----- conditions -----

  /** One row whose first value is not 0. */
  predicate Yes(r: Response) {
    r.Reply? && |r.rows| == 1 && r.rows[0] != [] && r.rows[0][0].Datum? && r.rows[0][0].number != 0
  }

  /** One row whose first value is 0 or NULL, or that has no columns. */
  predicate No(r: Response) {
    r.Reply? && |r.rows| == 1 && (r.rows[0] == [] || r.rows[0][0].Absent? || r.rows[0][0].number == 0)
  }

  predicate Empty(r: Response) {
    r.Reply? && r.rows == []
  }

  /** The question of a condition: its text behind a SELECT. */
  function Question(text: seq<Syntax.Target>, vars: seq<string>, st: State): seq<Piece> {
    [Given("SELECT")] + Prepared(text, vars, st)
  }

  function Asked(text: seq<Syntax.Target>, vars: seq<string>, st: State): State {
    State(st.env, st.database, st.messages, st.asked + [Question(text, vars, st)])
  }

  lemma ConditionAsked(text: seq<Syntax.Target>, vars: seq<string>, st: State)
    ensures Prepared(Condition(text), vars, st) == Question(text, vars, st)
  {
    var values := ValuesOf(vars, st.env);
    var front, all := Syntax.Texts(["SELECT"]), Condition(text);
    Placeholder.ExpandFree("SELECT", st.database);
    assert ExpandText(all, st.database) == ExpandText(front, st.database) + ExpandText(text, st.database);
    BindJoin(ExpandText(front, st.database), ExpandText(text, st.database), values);
    assert Bind(ExpandText(front, st.database), values) == [Given("SELECT")];
  }

  ghost function Raised(st: State, text: string): Outcome {
    Outcome(Return(true), st.(messages := st.messages + [ErrorMessage(1, text), DoneMessage(true, false, 1)]))
  }

  /** IF: one branch runs, in the state that the question leaves. */
  lemma IfTakes(c: Translate.Code, fuel: nat, db: Db, st: State)
    requires c.IfCode? && Placeholder.Free(Spelling.Spell(c.text))
    ensures var s := Asked(c.text, c.vars, st);
            var r := db(s.asked);
            RunCode(c, fuel, db, st)
            == if Yes(r) then RunCode(c.then_, fuel, db, s)
               else if No(r) then (if c.else_.Some? then RunCode(c.else_.value, fuel, db, s)
                                   else Outcome(Return(false), s))
               else if r.Throw? then Outcome(Thrown(r.message), s)
               else if Empty(r) then Outcome(Undefined, s)
               else Raised(s, "internal error 201403011950")
  {
    hide DoBool, Placeholder.Free, Spelling.Spell, Prepared;
    DoBoolExact(db, st, c.text, c.vars);
    ConditionAsked(c.text, c.vars, st);
  }

  /**
   WHILE: nothing more when the condition does not hold; otherwise the body, and then
   the same again, as long as the body returns 0.  An empty answer behind a round counts
   as the answer before it.
   */
  lemma WhileUnrolls(c: Translate.Code, fuel: nat, db: Db, st: State)
    requires c.WhileCode? && Placeholder.Free(Spelling.Spell(c.text)) && fuel > 0
    ensures var s := Asked(c.text, c.vars, st);
            var r := db(s.asked);
            var b := RunCode(c.body, fuel, db, s);
            var s2 := Asked(c.text, c.vars, b.state);
            var r2 := db(s2.asked);
            RunCode(c, fuel, db, st)
            == if No(r) then Outcome(Return(false), s)
               else if r.Throw? then Outcome(Thrown(r.message), s)
               else if Empty(r) then Outcome(Undefined, s)
               else if !Yes(r) then Raised(s, "internal error 201403011951")
               else if !b.exit.Return? then b
               else if b.exit.failed then Raised(b.state, "internal error 201403011952")
               else if Empty(r2) then RunLoop(c, fuel - 1, db, s2)
               else if Yes(r2) || No(r2) || r2.Throw? then RunCode(c, fuel - 1, db, b.state)
               else Raised(s2, "internal error 201403011953")
    ensures var s := Asked(c.text, c.vars, st);
            Yes(db(s.asked)) ==> RunCode(c, fuel, db, st) == RunLoop(c, fuel, db, s)
  {
    hide DoBool, Placeholder.Free, Spelling.Spell, Prepared;
    DoBoolExact(db, st, c.text, c.vars);
    ConditionAsked(c.text, c.vars, st);
    var b := RunCode(c.body, fuel, db, Asked(c.text, c.vars, st));
    DoBoolExact(db, b.state, c.text, c.vars);
    ConditionAsked(c.text, c.vars, b.state);
  }
}

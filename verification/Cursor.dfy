/**
 The cursor idiom: FETCH, then WHILE @@fetch_status = 0 over a body that ends in the
 same FETCH (language/stmt_while.h, language/stmt_fetch.h).
 */
module Cursor {
  import opened Names
  import opened Placeholder
  import Spelling
  import Syntax
  import opened Translate
  import opened Values
  import opened Exec

  // ----- the program -----

  const STATUS_IS_ZERO := Syntax.Compare(Syntax.Equal, Syntax.Variable(FETCH_STATUS), Syntax.Integer("0"))

  /** WHILE @@fetch_status = 0 BEGIN statements; FETCH NEXT FROM cursor INTO into END */
  function LoopCode(statements: seq<Code>, cursor: string, into: seq<string>): (c: Code)
    ensures c.WhileCode? && c.body == BlockCode([], statements + [FetchCode([], cursor, into)])
  {
    var o := Syntax.EmitCond(STATUS_IS_ZERO, []);
    WhileCode(o.vars, o.text, BlockCode([], statements + [FetchCode([], cursor, into)]))
  }

  function StatusQuery(v: Value): seq<Piece> {
    Pieces(["SELECT"]) + [Val(v)] + Pieces(["=", "0", "::tsql_int"])
  }

  function StatusOf(st: State): Value {
    Lookup(st.env, FETCH_STATUS)
  }

  lemma StatusCondition(statements: seq<Code>, cursor: string, into: seq<string>)
    ensures var c := LoopCode(statements, cursor, into);
            && c.vars == [FETCH_STATUS]
            && c.text == [Syntax.Param(1), Syntax.Text("="), Syntax.Text("0"), Syntax.Text("::tsql_int")]
  {
    forall i | 0 <= i < |FETCH_STATUS|
      ensures LowerChar(FETCH_STATUS[i]) == FETCH_STATUS[i]
    {
    }
    assert Lower(FETCH_STATUS) == FETCH_STATUS;
  }

  lemma {:induction false} SpelledWithout(text: seq<Syntax.Target>, i: nat)
    requires i <= |text| && forall k :: i <= k < |text| ==> '#' !in Spelling.TokenText(text[k])
    ensures '#' !in Spelling.SpellFrom(text, i)
    decreases |text| - i
  {
    hide Spelling.TokenText, Spelling.Spaced;
    if i < |text| {
      SpelledWithout(text, i + 1);
    }
  }

  lemma StatusSpelling()
    ensures Free(Spelling.Spell([Syntax.Param(1), Syntax.Text("="), Syntax.Text("0"), Syntax.Text("::tsql_int")]))
  {
    hide Spelling.SpellFrom;
    var text := [Syntax.Param(1), Syntax.Text("="), Syntax.Text("0"), Syntax.Text("::tsql_int")];
    assert Spelling.TokenText(Syntax.Param(1)) == "$1";
    SpelledWithout(text, 0);
    var s := Spelling.Spell(text);
    forall i | 0 <= i
      ensures !StartsHere(s, i)
    {
      if i < |s| {
        NotHere(s, i);
      }
    }
  }

  /** The condition of the loop asks for the status. */
  lemma ConditionSent(db: Db, st: State, statements: seq<Code>, cursor: string, into: seq<string>)
    ensures var c := LoopCode(statements, cursor, into);
            DoBool(db, st, c.text, c.vars) == AskBool(db, st, StatusQuery(StatusOf(st)))
  {
    hide Spelling.Spell, DoBool, LoopCode, Expand;
    var c := LoopCode(statements, cursor, into);
    StatusCondition(statements, cursor, into);
    StatusSpelling();
    DoBoolExact(db, st, c.text, c.vars);
    WordsFree(st.database);
    assert Prepared(Condition(c.text), c.vars, st) == StatusQuery(StatusOf(st));
  }

  lemma WordsFree(database: string)
    ensures forall word :: word in ["SELECT", "=", "0", "::tsql_int"] ==> Expand(word, database) == word
  {
    forall word | word in ["SELECT", "=", "0", "::tsql_int"]
      ensures Expand(word, database) == word
    {
      assert |word| < SIZE;
      ExpandFree(word, database);
    }
  }

  // ----- a cursor in PostgreSQL -----

  /** How often a query has been asked. */
  function Count(asked: seq<seq<Piece>>, query: seq<Piece>): nat {
    if asked == [] then 0
    else Count(asked[..|asked| - 1], query) + (if asked[|asked| - 1] == query then 1 else 0)
  }

  lemma CountAsk(asked: seq<seq<Piece>>, query: seq<Piece>, q: seq<Piece>)
    ensures Count(asked + [q], query) == Count(asked, query) + (if q == query then 1 else 0)
  {
    assert (asked + [q])[..|asked|] == asked;
  }

  function Answer(db: Db, asked: seq<seq<Piece>>, query: seq<Piece>): Response {
    db(asked + [query])
  }

  /** The k-th FETCH gives the k-th row, and none once the rows are used up. */
  ghost predicate Serves(db: Db, fetch: seq<Piece>, rows: seq<seq<Value>>) {
    forall asked :: Answer(db, asked, fetch)
                 == Reply(Selected, if Count(asked, fetch) < |rows| then [rows[Count(asked, fetch)]] else [])
  }

  /** The comparison with 0 is answered as PostgreSQL does. */
  ghost predicate Compares(db: Db) {
    forall asked, v :: Answer(db, asked, StatusQuery(v))
                    == Reply(Selected, [[if v.Absent? then Absent else IntValue(if v.number == 0 then 1 else 0)]])
  }

  // ----- the loop -----

  ghost predicate Assigned(prog: map<string, Value>, into: seq<string>, row: seq<Value>) {
    forall i :: 0 <= i < |into| && i < |row| ==> into[i] in prog && prog[into[i]] == row[i]
  }

  /** Row k is the one in the variables, and the last one fetched. */
  ghost predicate AtRow(st: State, rows: seq<seq<Value>>, k: nat, cursor: string, into: seq<string>) {
    && k < |rows|
    && StatusOf(st) == IntValue(0)
    && Count(st.asked, FetchQuery(cursor)) == k + 1
    && Assigned(st.env.prog, into, rows[k])
  }

  /** From every row the other statements of the body come to their end, and leave the cursor and its status alone. */
  ghost predicate Harmless(statements: seq<Code>, inner: nat, db: Db, rows: seq<seq<Value>>,
                            cursor: string, into: seq<string>) {
    forall st, k, fuel :: inner <= fuel && AtRow(st, rows, k, cursor, into) ==>
      var o := RunAll(statements, fuel, db, st);
      && o.exit == Return(false)
      && StatusOf(o.state) == StatusOf(st)
      && Count(o.state.asked, FetchQuery(cursor)) == Count(st.asked, FetchQuery(cursor))
  }

  /** The states in which the loop starts its body, as the loop itself runs. */
  ghost function Visits(c: Code, fuel: nat, db: Db, st: State): seq<State>
    requires c.WhileCode?
    decreases fuel
  {
    if fuel == 0 then []
    else
      var o := RunCode(c.body, fuel, db, st);
      if o.exit != Return(false) then [st]
      else
        var t := DoBool(db, o.state, c.text, c.vars);
        if t.verdict == True || t.verdict == Stale then [st] + Visits(c, fuel - 1, db, t.state) else [st]
  }

  /** The same from the loop's first test on. */
  ghost function AllVisits(c: Code, fuel: nat, db: Db, st: State): seq<State>
    requires c.WhileCode?
  {
    var t := DoBool(db, st, c.text, c.vars);
    if t.verdict == True then Visits(c, fuel, db, t.state) else []
  }

  /** Each row is visited once, in order, with its values in the variables. */
  ghost predicate InOrder(visits: seq<State>, rows: seq<seq<Value>>, k: nat, cursor: string, into: seq<string>) {
    && |rows| == k + |visits|
    && forall i :: 0 <= i < |visits| ==> AtRow(visits[i], rows, k + i, cursor, into)
  }

  lemma {:induction false} AssignRowAssigns(prog: map<string, Value>, into: seq<string>, row: seq<Value>)
    requires Distinct(into)
    ensures var r := AssignRow(prog, into, row);
            Assigned(r, into, row)
            && forall name :: name in prog && name !in into ==> name in r && r[name] == prog[name]
    decreases |into|
  {
    if into != [] && row != [] {
      var next := prog[into[0] := row[0]];
      var rest := into[1..];
      AssignRowAssigns(next, rest, row[1..]);
      var r := AssignRow(prog, into, row);
      assert into[0] !in rest;
      forall i | 0 <= i < |into| && i < |row|
        ensures into[i] in r && r[into[i]] == row[i]
      {
        if i > 0 {
          assert rest[i - 1] == into[i] && row[1..][i - 1] == row[i];
        }
      }
      forall name | name in prog && name !in into
        ensures name in r && r[name] == prog[name]
      {
        assert name !in rest;
      }
    }
  }

  lemma FetchFree(cursor: string, database: string)
    requires '#' !in cursor
    ensures ExpandPieces(FetchQuery(cursor), database) == FetchQuery(cursor)
  {
    var text := "FETCH NEXT FROM " + cursor + "\n";
    forall i | 0 <= i
      ensures !StartsHere(text, i)
    {
      if i + SIZE <= |text| {
        NotHere(text, i);
      }
    }
    ExpandFree(text, database);
  }

  /** One FETCH: the next row, or the end of the cursor. */
  lemma FetchStep(db: Db, st: State, cursor: string, into: seq<string>, rows: seq<seq<Value>>)
    requires '#' !in cursor && Distinct(into) && Serves(db, FetchQuery(cursor), rows)
    ensures var k := Count(st.asked, FetchQuery(cursor));
            var o := DoFetch(db, st, ExpandPieces(FetchQuery(cursor), st.database), into);
            && o.exit == Return(false)
            && Count(o.state.asked, FetchQuery(cursor)) == k + 1
            && if k < |rows| then AtRow(o.state, rows, k, cursor, into) else StatusOf(o.state) == IntValue(-1)
  {
    var fetch := FetchQuery(cursor);
    var k := Count(st.asked, fetch);
    FetchFree(cursor, st.database);
    CountAsk(st.asked, fetch, fetch);
    assert Answer(db, st.asked, fetch) == db(Ask(st, fetch).asked);
    assert "@@" <= FETCH_STATUS;
    if k < |rows| {
      AssignRowAssigns(st.env.prog, into, rows[k]);
    }
  }

  /** The verdict on the status decides as its value says, and asking for it moves no cursor. */
  lemma StatusStep(db: Db, st: State, cursor: string)
    requires Compares(db) && StatusOf(st).Datum?
    ensures var t := AskBool(db, st, StatusQuery(StatusOf(st)));
            && t.verdict == (if StatusOf(st).number == 0 then True else False)
            && Count(t.state.asked, FetchQuery(cursor)) == Count(st.asked, FetchQuery(cursor))
  {
    var query := StatusQuery(StatusOf(st));
    assert Answer(db, st.asked, query) == db(Ask(st, query).asked);
    assert |query| != |FetchQuery(cursor)|;
    CountAsk(st.asked, FetchQuery(cursor), query);
  }

  /** The body from row k: its own statements, then the FETCH. */
  lemma BodyStep(statements: seq<Code>, inner: nat, fuel: nat, db: Db, st: State, rows: seq<seq<Value>>, k: nat,
                 cursor: string, into: seq<string>)
    requires '#' !in cursor && Distinct(into) && Serves(db, FetchQuery(cursor), rows)
    requires Harmless(statements, inner, db, rows, cursor, into) && inner <= fuel
    requires AtRow(st, rows, k, cursor, into)
    ensures var o := RunCode(LoopCode(statements, cursor, into).body, fuel, db, st);
            && o.exit == Return(false)
            && Count(o.state.asked, FetchQuery(cursor)) == k + 2
            && if k + 1 < |rows| then AtRow(o.state, rows, k + 1, cursor, into) else StatusOf(o.state) == IntValue(-1)
  {
    hide AssignRow, Assigned, DoFetch, FetchQuery, Serves;
    var fetch := FetchCode([], cursor, into);
    RunJoin(statements, [fetch], fuel, db, st);
    var o := RunAll(statements, fuel, db, st);
    assert o.exit == Return(false) && Count(o.state.asked, FetchQuery(cursor)) == k + 1;
    FetchStep(db, o.state, cursor, into, rows);
    var p := DoFetch(db, o.state, ExpandPieces(FetchQuery(cursor), o.state.database), into);
    assert RunCode(fetch, fuel, db, o.state) == p;
    assert [fetch][1..] == [] && RunAll([], fuel, db, p.state) == Succeed(p.state);
  }

  /**
   The loop terminates within as many rounds as there are rows left, whatever the
   other statements do to the rest of the state, and starts its body once for every
   row, in order, with the variables holding that row.
   */
  lemma {:induction false} LoopVisitsRows(statements: seq<Code>, inner: nat, fuel: nat, db: Db, st: State,
                                          rows: seq<seq<Value>>, k: nat, cursor: string, into: seq<string>)
    requires '#' !in cursor && Distinct(into) && Serves(db, FetchQuery(cursor), rows) && Compares(db)
    requires Harmless(statements, inner, db, rows, cursor, into)
    requires AtRow(st, rows, k, cursor, into) && inner + (|rows| - k) <= fuel
    ensures var c := LoopCode(statements, cursor, into);
            var o := RunLoop(c, fuel, db, st);
            && o.exit == Return(false) && StatusOf(o.state) == IntValue(-1)
            && Count(o.state.asked, FetchQuery(cursor)) == |rows| + 1
            && InOrder(Visits(c, fuel, db, st), rows, k, cursor, into)
    decreases |rows| - k
  {
    hide RunCode, Harmless, Serves, Compares, StatusQuery, DoBool, LoopCode;
    var c := LoopCode(statements, cursor, into);
    BodyStep(statements, inner, fuel, db, st, rows, k, cursor, into);
    var o := RunCode(c.body, fuel, db, st);
    ConditionSent(db, o.state, statements, cursor, into);
    StatusStep(db, o.state, cursor);
    if k + 1 < |rows| {
      var s := Ask(o.state, StatusQuery(StatusOf(o.state)));
      LoopVisitsRows(statements, inner, fuel - 1, db, s, rows, k + 1, cursor, into);
      var visits := Visits(c, fuel - 1, db, s);
      assert Visits(c, fuel, db, st) == [st] + visits;
    }
  }

  /**
   The whole idiom over a cursor that nothing has been fetched from: it ends with 0, has
   asked for one row more than there are, leaves the status at -1, and has visited every
   row once, in order.
   */
  lemma CursorTerminates(statements: seq<Code>, inner: nat, fuel: nat, db: Db, st: State, rows: seq<seq<Value>>,
                         cursor: string, into: seq<string>)
    requires '#' !in cursor && Distinct(into) && Serves(db, FetchQuery(cursor), rows) && Compares(db)
    requires Harmless(statements, inner, db, rows, cursor, into)
    requires Count(st.asked, FetchQuery(cursor)) == 0 && inner + |rows| <= fuel
    ensures var fetch, c := FetchCode([], cursor, into), LoopCode(statements, cursor, into);
            var o := RunAll([fetch, c], fuel, db, st);
            && o.exit == Return(false) && StatusOf(o.state) == IntValue(-1)
            && Count(o.state.asked, FetchQuery(cursor)) == |rows| + 1
            && InOrder(AllVisits(c, fuel, db, RunCode(fetch, fuel, db, st).state), rows, 0, cursor, into)
  {
    hide Harmless, Serves, Compares, StatusQuery, RunLoop, FetchQuery, DoBool, LoopCode, Visits;
    var fetch, c := FetchCode([], cursor, into), LoopCode(statements, cursor, into);
    FetchStep(db, st, cursor, into, rows);
    var s := DoFetch(db, st, ExpandPieces(FetchQuery(cursor), st.database), into).state;
    ConditionSent(db, s, statements, cursor, into);
    StatusStep(db, s, cursor);
    var s1 := Ask(s, StatusQuery(StatusOf(s)));
    if rows != [] {
      LoopVisitsRows(statements, inner, fuel, db, s1, rows, 0, cursor, into);
    }
    RunPair(fetch, c, fuel, db, st);
  }

  lemma RunPair(a: Code, b: Code, fuel: nat, db: Db, st: State)
    ensures var o := RunCode(a, fuel, db, st);
            RunAll([a, b], fuel, db, st) == if o.exit == Return(false) then RunCode(b, fuel, db, o.state) else o
  {
    var o := RunCode(a, fuel, db, st);
    assert [a, b][1..] == [b] && [b][1..] == [];
    if o.exit == Return(false) {
      var p := RunCode(b, fuel, db, o.state);
      assert RunAll([], fuel, db, p.state) == Succeed(p.state);
    }
  }

  // ----- such cursors and such bodies exist -----

  /** A PostgreSQL with one cursor: it serves the rows, compares the status, and answers all else with no rows. */
  function OneCursor(fetch: seq<Piece>, rows: seq<seq<Value>>, asked: seq<seq<Piece>>): Response {
    if asked == [] then Reply(Selected, [])
    else
      var query, before := asked[|asked| - 1], asked[..|asked| - 1];
      if query == fetch then
        Reply(Selected, if Count(before, fetch) < |rows| then [rows[Count(before, fetch)]] else [])
      else if |query| == 5 && query[1].Val? && query == StatusQuery(query[1].value) then
        var v := query[1].value;
        Reply(Selected, [[if v.Absent? then Absent else IntValue(if v.number == 0 then 1 else 0)]])
      else Reply(Selected, [])
  }

  lemma OneCursorServes(cursor: string, rows: seq<seq<Value>>)
    ensures var db: Db := asked => OneCursor(FetchQuery(cursor), rows, asked);
            Serves(db, FetchQuery(cursor), rows) && Compares(db)
  {
    var fetch := FetchQuery(cursor);
    var db: Db := asked => OneCursor(fetch, rows, asked);
    forall asked
      ensures Answer(db, asked, fetch)
           == Reply(Selected, if Count(asked, fetch) < |rows| then [rows[Count(asked, fetch)]] else [])
    {
      assert (asked + [fetch])[..|asked|] == asked;
    }
    forall asked, v
      ensures Answer(db, asked, StatusQuery(v))
           == Reply(Selected, [[if v.Absent? then Absent else IntValue(if v.number == 0 then 1 else 0)]])
    {
      var query := StatusQuery(v);
      assert (asked + [query])[..|asked|] == asked;
      assert |query| == 5 && query[1] == Val(v) && |fetch| == 1;
    }
  }

  /** Everything that is not the FETCH is answered with success. */
  ghost predicate Obliging(db: Db, fetch: seq<Piece>) {
    forall asked, query :: query != fetch ==> Answer(db, asked, query).Reply? && !Answer(db, asked, query).code.Other?
  }

  lemma SqlStep(c: Code, fuel: nat, db: Db, st: State, cursor: string)
    requires Obliging(db, FetchQuery(cursor)) && c.SqlCode? && |c.text| != 1
    ensures var o := RunCode(c, fuel, db, st);
            && o.exit == Return(false)
            && o.state.env == st.env
            && Count(o.state.asked, FetchQuery(cursor)) == Count(st.asked, FetchQuery(cursor))
  {
    hide ValuesOf, Count, ExpandTarget;
    var query := Prepared(c.text, c.vars, st);
    assert |query| == |c.text| && |FetchQuery(cursor)| == 1;
    assert Answer(db, st.asked, query) == db(Ask(st, query).asked);
    CountAsk(st.asked, FetchQuery(cursor), query);
  }

  /** Any list of SQL statements can stand in the body: none of them is a FETCH, and none of them fails. */
  lemma {:induction false} SqlRunsThrough(statements: seq<Code>, fuel: nat, db: Db, st: State, cursor: string)
    requires Obliging(db, FetchQuery(cursor))
    requires forall c :: c in statements ==> c.SqlCode? && |c.text| != 1
    ensures var o := RunAll(statements, fuel, db, st);
            && o.exit == Return(false)
            && o.state.env == st.env
            && Count(o.state.asked, FetchQuery(cursor)) == Count(st.asked, FetchQuery(cursor))
  {
    hide RunCode, Count, Obliging, FetchQuery;
    if statements != [] {
      var o := RunCode(statements[0], fuel, db, st);
      SqlStep(statements[0], fuel, db, st, cursor);
      SqlRunsThrough(statements[1..], fuel, db, o.state, cursor);
    }
  }

  lemma SqlBodyHarmless(statements: seq<Code>, db: Db, rows: seq<seq<Value>>, cursor: string, into: seq<string>)
    requires Obliging(db, FetchQuery(cursor))
    requires forall c :: c in statements ==> c.SqlCode? && |c.text| != 1
    ensures Harmless(statements, 0, db, rows, cursor, into)
  {
    forall st, k, fuel: nat | AtRow(st, rows, k, cursor, into)
      ensures var o := RunAll(statements, fuel, db, st);
              && o.exit == Return(false)
              && StatusOf(o.state) == StatusOf(st)
              && Count(o.state.asked, FetchQuery(cursor)) == Count(st.asked, FetchQuery(cursor))
    {
      SqlRunsThrough(statements, fuel, db, st, cursor);
    }
  }
}

/**
 How a connection opens (tds/tdsmain.cc, language/misc.cc, language/exec.cc): what a login
 asks, what becomes of the session, and what the client is told.
 */
module Opening {
  import opened Connection
  import Effects
  import opened Exec
  import opened Names
  import opened Options
  import opened Values

  /** PRELOGIN names the instance; none, an empty name and the default one in any case are the default one. */
  lemma PreloginNames(db: Db, front: Front, fuel: nat, c: Conn, instance: Option<string>)
    requires c.phase.AwaitPrelogin?
    ensures var r := Step(db, front, fuel, c, PreloginIn(instance));
            && r == c.(phase := AwaitLogin, instance := r.instance, log := c.log + [PreloginReply])
            && (instance.None? || instance.value == "" ==> r.instance == "mssqlserver")
            && (instance.Some? && Lower(instance.value) == "mssqlserver" ==> r.instance == "mssqlserver")
            && (instance.Some? && instance.value != "" && Lower(instance.value) != "mssqlserver" ==>
                  r.instance == instance.value)
  {
  }

  /** A login that comes in its turn: LOGIN4 first of all, LOGIN7 behind PRELOGIN. */
  predicate InTurn(c: Conn, p: Incoming) {
    && c.alive && p.LoginIn?
    && ((c.phase.AwaitPrelogin? && !p.seven) || (c.phase.AwaitLogin? && p.seven))
  }

  function Home(p: Incoming): string
    requires p.LoginIn?
  {
    if |p.database| > 0 then p.database else "master"
  }

  /** The four questions of a login in the database. */
  function Asks(database: string): (r: seq<seq<Piece>>)
    ensures |r| == 4
  {
    [[Given("SET SEARCH_PATH TO \"" + database + ".dbo\", \"master.dbo\", public")],
     [Given("SELECT typname, oid, typlen, typbyval, typstorage FROM pg_type "
            + "WHERE typbasetype = 0 AND typname LIKE 'tsql_%'")],
     [Given("SELECT typname, oid, typbasetype FROM pg_type "
            + "WHERE typbasetype <> 0 AND typname LIKE 'tsql_%'")],
     [Given("SELECT pg_backend_pid()::tsql_int")]]
  }

  /** Every row has three columns that are not NULL. */
  predicate Readable(r: Response) {
    r.Reply? && forall i :: 0 <= i < |r.rows| ==>
                  |r.rows[i]| > 2 && !r.rows[i][0].Absent? && !r.rows[i][1].Absent? && !r.rows[i][2].Absent?
  }

  /** Whether the login goes on behind its i-th answer. */
  predicate GoesOn(i: nat, r: Response) {
    if i == 0 then !r.Throw?
    else if i < 3 then Readable(r)
    else Effects.FirstValue(r).Some?
  }

  function Answer(db: Db, asked: seq<seq<Piece>>, asks: seq<seq<Piece>>, i: nat): Response
    requires i < |asks|
  {
    db(asked + asks[..i + 1])
  }

  /** The login comes through its first n questions, and not further. */
  predicate GetsTo(db: Db, c: Conn, asks: seq<seq<Piece>>, n: nat)
    requires |asks| == 4
  {
    && n <= 4 && (forall i :: 0 <= i < n ==> GoesOn(i, Answer(db, c.exec.asked, asks, i)))
    && (n < 4 ==> !GoesOn(n, Answer(db, c.exec.asked, asks, n)))
  }

  lemma LoginText(database: string)
    ensures Asks(database) == [PathQuery(database), TYPES_QUERY, DOMAINS_QUERY, PID_QUERY]
  {
  }

  lemma CompleteRows(r: Response)
    ensures Complete(r) <==> Readable(r)
    ensures Complete(r) ==> r.Reply?
  {
    if Complete(r) {
      forall i | 0 <= i < |r.rows|
        ensures |r.rows[i]| > 2 && !r.rows[i][0].Absent? && !r.rows[i][1].Absent? && !r.rows[i][2].Absent?
      {
        assert r.rows[i] in r.rows;
      }
    }
  }

  lemma AnswerAt(db: Db, asked: seq<seq<Piece>>, asks: seq<seq<Piece>>, i: nat)
    requires i < |asks|
    ensures asked + asks[..i] + [asks[i]] == asked + asks[..i + 1]
  {
    assert asks[..i] + [asks[i]] == asks[..i + 1];
  }

  /** The state behind the questions, and whether all of them were answered. */
  lemma LoginAnswered(db: Db, c: Conn, st: State, asks: seq<seq<Piece>>, n: nat)
    requires asks == [PathQuery(st.database), TYPES_QUERY, DOMAINS_QUERY, PID_QUERY]
    requires st.asked == c.exec.asked && GetsTo(db, c, asks, n)
    ensures var o := LoginQueries(db, st);
            && (o.exit == Return(false) <==> n == 4)
            && o.state.database == st.database && o.state.messages == st.messages && o.state.env.prog == st.env.prog
            && o.state.asked == c.exec.asked + asks[..if n < 4 then n + 1 else 4]
            && (n == 4 ==>
                  var sess := o.state.env.sess;
                  sess == st.env.sess["@@fetch_status" := Datum(0, "")]["@@microsoftversion" := Datum(0x090013CD, "")]
                            ["@@spid" := Effects.FirstValue(Answer(db, c.exec.asked, asks, 3)).value])
  {
    hide PathQuery, Complete, Readable, LoginQueries, GetsTo;
    var a := c.exec.asked;
    assert a + asks[..0] == a;
    AnswerAt(db, a, asks, 0);
    AnswerAt(db, a, asks, 1);
    AnswerAt(db, a, asks, 2);
    AnswerAt(db, a, asks, 3);
    CompleteRows(Answer(db, a, asks, 1));
    CompleteRows(Answer(db, a, asks, 2));
    LoginGoesOn(db, c, asks, n);
    LoginSteps(db, st);
  }

  lemma LoginGoesOn(db: Db, c: Conn, asks: seq<seq<Piece>>, n: nat)
    requires |asks| == 4 && GetsTo(db, c, asks, n)
    ensures n <= 4
    ensures n > 0 <==> GoesOn(0, Answer(db, c.exec.asked, asks, 0))
    ensures n > 1 ==> GoesOn(1, Answer(db, c.exec.asked, asks, 1))
    ensures n == 1 ==> !GoesOn(1, Answer(db, c.exec.asked, asks, 1))
    ensures n > 2 ==> GoesOn(2, Answer(db, c.exec.asked, asks, 2))
    ensures n == 2 ==> !GoesOn(2, Answer(db, c.exec.asked, asks, 2))
    ensures n > 3 ==> GoesOn(3, Answer(db, c.exec.asked, asks, 3))
    ensures n == 3 ==> !GoesOn(3, Answer(db, c.exec.asked, asks, 3))
  {
    hide GoesOn, Answer;
  }

  /** One question after the other. */
  lemma LoginSteps(db: Db, st: State)
    ensures var s0 := st.(asked := st.asked + [PathQuery(st.database)]);
            var s1 := s0.(asked := s0.asked + [TYPES_QUERY]);
            var s2 := s1.(asked := s1.asked + [DOMAINS_QUERY]);
            LoginQueries(db, st)
            == if db(s0.asked).Throw? then Outcome(Thrown(db(s0.asked).message), s0)
               else if db(s1.asked).Throw? then Outcome(Thrown(db(s1.asked).message), s1)
               else if !Complete(db(s1.asked)) then Outcome(Undefined, s1)
               else if db(s2.asked).Throw? then Outcome(Thrown(db(s2.asked).message), s2)
               else if !Complete(db(s2.asked)) then Outcome(Undefined, s2)
               else DoInit(db, s2)
  {
    hide Complete, DoInit, PathQuery;
  }

  /**
   A login asks for the search path of its database, for the types, the domains and the
   process, up to the first answer that it cannot go on from; there the process ends and
   nothing is answered.  Otherwise the connection speaks the smaller of both versions, the
   session has its three variables, and the client is told version, database and collation.
   */
  lemma LoginOpens(db: Db, front: Front, fuel: nat, c: Conn, p: Incoming, n: nat)
    requires InTurn(c, p) && GetsTo(db, c, Asks(Home(p)), n)
    ensures var r := Step(db, front, fuel, c, p);
            var home, asks := Home(p), Asks(Home(p));
            var ms := [LoginAckMessage(r.version), EnvDatabaseMessage(home, home), EnvCollationMessage,
                       DoneMessage(false, false, 0)];
            var start := [Attach(r.instance, Lower(p.username)), StartTransaction, SpiConnect, PushSnapshot];
            && (r.alive <==> n == 4)
            && r.exec.asked == c.exec.asked + asks[..if n < 4 then n + 1 else 4]
            && r.exec.database == home && r.exec.env.prog == c.exec.env.prog
            && r.instance == (if p.seven then c.instance else "mssqlserver")
            && (n < 4 ==> r.log == c.log + start)
            && (n == 4 ==>
                  && r.phase == Connected && r.exec.messages == ms
                  && r.version <= p.version && r.version <= 0x730B0003
                  && (r.version == p.version || r.version == 0x730B0003)
                  && r.log == c.log + (start + [SpiFinish, PopSnapshot, CommitTransaction]
                                       + [LoginDone(p.version, r.version), Respond(r.version, ms)])
                  && Effects.Status(r.exec.env) == Some(0)
                  && Lookup(r.exec.env, "@@microsoftversion") == Datum(0x090013CD, "")
                  && Lookup(r.exec.env, "@@spid")
                     == Effects.FirstValue(Answer(db, c.exec.asked, asks, 3)).value)
  {
    hide LoginQueries, GetsTo, Asks, PathQuery, Lower, Answer, Effects.FirstValue, Step, Home;
    LoginText(Home(p));
    LoginAnswered(db, c, c.exec.(database := Home(p)), Asks(Home(p)), n);
    SpidAnswered(db, c, Asks(Home(p)), n);
    LoginStep(db, front, fuel, c, p);
  }

  /** What a login does with the outcome of its questions. */
  lemma LoginStep(db: Db, front: Front, fuel: nat, c: Conn, p: Incoming)
    requires InTurn(c, p)
    ensures var r := Step(db, front, fuel, c, p);
            var o := LoginQueries(db, c.exec.(database := Home(p)));
            var ms := [LoginAckMessage(r.version), EnvDatabaseMessage(Home(p), Home(p)), EnvCollationMessage,
                       DoneMessage(false, false, 0)];
            var start := [Attach(r.instance, Lower(p.username)), StartTransaction, SpiConnect, PushSnapshot];
            && (r.alive <==> o.exit == Return(false))
            && r.instance == (if p.seven then c.instance else "mssqlserver")
            && (!r.alive ==> r.exec == o.state && r.log == c.log + start)
            && (r.alive ==>
                  && r.phase == Connected && r.exec == o.state.(messages := ms)
                  && r.version <= p.version && r.version <= 0x730B0003
                  && (r.version == p.version || r.version == 0x730B0003)
                  && r.log == c.log + (start + [SpiFinish, PopSnapshot, CommitTransaction]
                                       + [LoginDone(p.version, r.version), Respond(r.version, ms)]))
  {
    hide LoginQueries, Lower;
  }

  lemma SpidAnswered(db: Db, c: Conn, asks: seq<seq<Piece>>, n: nat)
    requires |asks| == 4 && GetsTo(db, c, asks, n)
    ensures n == 4 ==> Effects.FirstValue(Answer(db, c.exec.asked, asks, 3)).Some?
  {
    if n == 4 {
      assert GoesOn(3, Answer(db, c.exec.asked, asks, 3));
    }
  }
}

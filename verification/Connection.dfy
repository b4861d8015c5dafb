/**
 tdsmain::run (tds/tdsmain.cc): the life of one connection, from PRELOGIN over the
 login to the requests, with the transaction brackets around each program.
 */
module Connection {
  import Bytes
  import opened Names
  import Translate
  import Values
  import opened Exec
  import Rpc
  import opened Options

  const TDSVERSION_SERVER: nat := 0x730B0003

  /** What readpacket() returns; Unknown is its NULL. */
  datatype Incoming =
    | PreloginIn(instance: Option<string>)
    | LoginIn(seven: bool, version: nat, username: string, database: string)
    | SqlIn(text: string)
    | RpcIn(message: seq<Bytes.byte>)
    | Unknown

  /** tsql_parse */
  datatype Parsed = SyntaxError(message: string) | Program(statements: seq<Translate.Code>)

  /** What happens to a request before it runs: UCS-2 to text, and text to statements. */
  datatype Front = Front(text: seq<Bytes.byte> -> string, program: string -> Parsed)

  datatype Phase = AwaitPrelogin | AwaitLogin | Connected | Failed

  datatype Event =
    | PreloginReply
    | Attach(instance: string, username: string)
    | StartTransaction | SpiConnect | PushSnapshot
    | BeginSub | ReleaseSub | RollbackSub | RestoreConnection
    | SpiFinish | PopSnapshot | CommitTransaction
    | LoginDone(client: nat, agreed: nat)
    | Decoded(version: nat)
    | ProgramRun
    | Respond(version: nat, messages: seq<Message>)

  const OPEN: seq<Event> := [StartTransaction, SpiConnect, PushSnapshot]
  const CLOSE: seq<Event> := [SpiFinish, PopSnapshot, CommitTransaction]

  /** Between two packets; not alive: the process has ended inside a request. */
  datatype Conn = Conn(alive: bool, phase: Phase, version: nat, instance: string, exec: State, log: seq<Event>)

  const DEFAULT_INSTANCE := "mssqlserver"

  function InstanceOf(instance: Option<string>): string {
    if instance.None? || instance.value == "" || Lower(instance.value) == DEFAULT_INSTANCE then DEFAULT_INSTANCE
    else instance.value
  }

  function DatabaseOf(database: string): string {
    if database == "" then "master" else database
  }

  function Min(a: nat, b: nat): nat {
    if a > b then b else a
  }

  function Logged(c: Conn, events: seq<Event>): Conn {
    c.(log := c.log + events)
  }

  function Die(c: Conn, events: seq<Event>): Conn {
    Logged(c, events).(alive := false)
  }

  /** A new response, and no program variables. */
  function Fresh(st: State, prog: map<string, Values.Value>): State {
    st.(messages := [], env := st.env.(prog := prog))
  }

  function Forget(st: State): State {
    st.(env := st.env.(prog := map[]))
  }

  function LoginMessages(version: nat, database: string): seq<Message> {
    [LoginAckMessage(version), EnvDatabaseMessage(database, database), EnvCollationMessage, PLAIN_DONE]
  }

  const TYPES_QUERY: seq<Values.Piece> :=
    [Values.Given("SELECT typname, oid, typlen, typbyval, typstorage FROM pg_type "
                  + "WHERE typbasetype = 0 AND typname LIKE 'tsql_%'")]
  const DOMAINS_QUERY: seq<Values.Piece> :=
    [Values.Given("SELECT typname, oid, typbasetype FROM pg_type "
                  + "WHERE typbasetype <> 0 AND typname LIKE 'tsql_%'")]

  /** The three columns that are read of every row are there. */
  predicate Complete(r: Response) {
    r.Reply? && forall row: seq<Values.Value> :: row in r.rows ==>
               |row| >= 3 && row[0].Datum? && row[1].Datum? && row[2].Datum?
  }

  /** One of the two queries of init_types(). */
  function AskTypes(db: Db, st: State, query: seq<Values.Piece>): Outcome {
    var s := Ask(st, query);
    match db(s.asked)
    case Throw(m) => Outcome(Thrown(m), s)
    case r => if Complete(r) then Succeed(s) else Outcome(Undefined, s)
  }

  /** init_types() */
  function InitTypes(db: Db, st: State): Outcome {
    var o := AskTypes(db, st, TYPES_QUERY);
    if o.exit == Return(false) then AskTypes(db, o.state, DOMAINS_QUERY) else o
  }

  /** The queries of a login: the search path, the types, and those of tsql_executor::init. */
  function LoginQueries(db: Db, st: State): Outcome {
    var s := Ask(st, PathQuery(st.database));
    match db(s.asked)
    case Throw(m) => Outcome(Thrown(m), s)
    case _ =>
      var o := InitTypes(db, s);
      if o.exit == Return(false) then DoInit(db, o.state) else o
  }

  ghost function StepLogin(db: Db, c: Conn, p: Incoming, instance: string): Conn
    requires p.LoginIn?
  {
    var database := DatabaseOf(p.database);
    var start := [Attach(instance, Lower(p.username))] + OPEN;
    var o := LoginQueries(db, c.exec.(database := database));
    if o.exit != Return(false) then Die(c.(instance := instance, exec := o.state), start)
    else
      var version := Min(p.version, TDSVERSION_SERVER);
      var ms := LoginMessages(version, database);
      Logged(c, start + CLOSE + [LoginDone(p.version, version), Respond(version, ms)])
        .(phase := Connected, version := version, instance := instance, exec := o.state.(messages := ms))
  }

  ghost function StepSql(db: Db, front: Front, fuel: nat, c: Conn, text: string): Conn {
    match front.program(text)
    case SyntaxError(message) =>
      Logged(c, [Respond(c.version, ErrorMessages(102, message))])
        .(exec := c.exec.(messages := ErrorMessages(102, message)))
    case Program(statements) =>
      var o := RunCode(Translate.BlockCode([], statements), fuel, db, Fresh(c.exec, map[]));
      var events := OPEN + [BeginSub, ProgramRun];
      var s := Forget(o.state);
      match o.exit
      case Return(_) =>
        Logged(c, events + [Respond(c.version, s.messages), ReleaseSub, RestoreConnection] + CLOSE).(exec := s)
      case Thrown(m) =>
        var ms := s.messages + ErrorMessages(102, m);
        Logged(c, events + [RollbackSub, RestoreConnection, Respond(c.version, ms)] + CLOSE)
          .(exec := s.(messages := ms))
      case _ => Die(c.(exec := s), events)
  }

  /** A tsql_var_nvarchar: its datum is a pointer, and so not 0. */
  function TextValue(s: string): Values.Value {
    Values.Datum(1, s)
  }

  /** prog_vars of sp_executesql: the parameters from the third to the n-th, under their names as they came. */
  function ParamVars(front: Front, call: Rpc.Call, n: nat): map<string, Values.Value>
    requires n <= |call.names| <= |call.values|
    decreases n
  {
    if n <= 2 then map[]
    else ParamVars(front, call, n - 1)[front.text(call.names[n - 1]) := TextValue(front.text(call.values[n - 1]))]
  }

  /** A syntax error leaves the program empty, and is not looked at here. */
  function StatementsOf(p: Parsed): seq<Translate.Code> {
    if p.Program? then p.statements else []
  }

  const SP_EXECUTESQL := 10

  /** The program of sp_executesql: its second value declares, its first one runs. */
  function CallText(front: Front, call: Rpc.Call): string
    requires |call.values| >= 2
  {
    "DECLARE " + front.text(call.values[1]) + "\n" + front.text(call.values[0])
  }

  /** Fewer values than names, or no statement at all: the vectors are read behind their ends. */
  predicate Callable(call: Rpc.Call) {
    |call.values| >= 2 && |call.names| <= |call.values|
  }

  /** The message is decoded under the version of the connection; other procedures are not answered. */
  ghost function StepRpc(db: Db, front: Front, fuel: nat, c: Conn, message: seq<Bytes.byte>): Conn {
    match Rpc.Decode(message, c.version)
    case None => Die(c, [])
    case Some(call) =>
      if call.procId != SP_EXECUTESQL then Logged(c, [Decoded(c.version)])
      else if !Callable(call) then Die(c, [Decoded(c.version)])
      else
        var vars := ParamVars(front, call, |call.names|);
        var statements := StatementsOf(front.program(CallText(front, call)));
        var o := RunCode(Translate.BlockCode([], statements), fuel, db, Fresh(c.exec, vars));
        var s := Forget(o.state);
        var events := [Decoded(c.version)] + OPEN + [ProgramRun];
        if o.exit.Return? then Logged(c, events + CLOSE + [Respond(c.version, s.messages)]).(exec := s)
        else Die(c.(exec := s), events)
  }

  ghost function Step(db: Db, front: Front, fuel: nat, c: Conn, p: Incoming): Conn {
    if c.phase.AwaitPrelogin? && p.PreloginIn? then
      Logged(c, [PreloginReply]).(phase := AwaitLogin, instance := InstanceOf(p.instance))
    else if c.phase.AwaitPrelogin? && p.LoginIn? && !p.seven then StepLogin(db, c, p, DEFAULT_INSTANCE)
    else if c.phase.AwaitLogin? && p.LoginIn? && p.seven then StepLogin(db, c, p, c.instance)
    else if c.phase.Connected? then
      match p
      case SqlIn(text) => StepSql(db, front, fuel, c, text)
      case RpcIn(message) => StepRpc(db, front, fuel, c, message)
      case _ => c
    else c.(phase := Failed)
  }

  /** The loop: it ends in FAIL, at a packet of no known type, and when the client is gone. */
  ghost function Serve(db: Db, front: Front, fuel: nat, c: Conn, incoming: seq<Incoming>): Conn
    decreases |incoming|
  {
    if incoming == [] || incoming[0].Unknown? || c.phase.Failed? || !c.alive then c
    else Serve(db, front, fuel, Step(db, front, fuel, c, incoming[0]), incoming[1..])
  }

  const BEGIN_STATE := State(Values.Env(map[], map[]), "", [], [])
  const BEGIN := Conn(true, AwaitPrelogin, 0, "", BEGIN_STATE, [])

  // ----- the brackets -----

  /** How far the transaction, the SPI connection and the snapshot are open. */
  datatype Bracket = Outside | Started | Joined | Open | InSub | SubDone | Finished | Popped | Broken

  function After(b: Bracket, e: Event): Bracket {
    match e
    case StartTransaction => if b == Outside then Started else Broken
    case SpiConnect => if b == Started then Joined else Broken
    case PushSnapshot => if b == Joined then Open else Broken
    case BeginSub => if b == Open then InSub else Broken
    case ReleaseSub | RollbackSub => if b == InSub then SubDone else Broken
    case RestoreConnection => if b == SubDone then Open else Broken
    case SpiFinish => if b == Open then Finished else Broken
    case PopSnapshot => if b == Finished then Popped else Broken
    case CommitTransaction => if b == Popped then Outside else Broken
    case ProgramRun => if b == Open || b == InSub then b else Broken
    case _ => b
  }

  function AfterAll(b: Bracket, log: seq<Event>): Bracket {
    if log == [] then b else After(AfterAll(b, log[..|log| - 1]), log[|log| - 1])
  }

  lemma {:induction false} AfterJoin(b: Bracket, log: seq<Event>, more: seq<Event>)
    ensures AfterAll(b, log + more) == AfterAll(AfterAll(b, log), more)
  {
    if more == [] {
      assert log + more == log;
    } else {
      var all, init := log + more, more[..|more| - 1];
      assert all[..|all| - 1] == log + init && all[|all| - 1] == more[|more| - 1];
      AfterJoin(b, log, init);
    }
  }

  /** At every loop head the brackets are closed; a program never runs outside them, not even one that dies. */
  ghost predicate Bracketed(c: Conn) {
    && AfterAll(Outside, c.log) != Broken
    && (c.alive ==> AfterAll(Outside, c.log) == Outside)
  }

  lemma AfterEvents(b: Bracket, a: Event, more: seq<Event>)
    ensures AfterAll(b, [a] + more) == AfterAll(After(b, a), more)
  {
    AfterJoin(b, [a], more);
    assert [a][..0] == [] && AfterAll(b, [a]) == After(b, a);
  }

  lemma AfterOne(b: Bracket, x: Event)
    ensures AfterAll(b, [x]) == After(b, x)
  {
    AfterEvents(b, x, []);
    assert [x] + [] == [x];
  }

  lemma AfterTwo(b: Bracket, x: Event, y: Event)
    ensures AfterAll(b, [x, y]) == After(After(b, x), y)
  {
    AfterEvents(b, x, [y]);
    AfterEvents(After(b, x), y, []);
    assert [x] + [y] == [x, y] && [y] + [] == [y];
  }

  lemma AfterThree(b: Bracket, x: Event, y: Event, z: Event)
    ensures AfterAll(b, [x, y, z]) == After(After(After(b, x), y), z)
  {
    AfterEvents(b, x, [y, z]);
    AfterTwo(After(b, x), y, z);
    assert [x] + [y, z] == [x, y, z];
  }

  lemma Brackets(v: nat, ms: seq<Message>)
    ensures AfterAll(Outside, OPEN) == Open && AfterAll(Open, CLOSE) == Outside
    ensures AfterAll(Open, [BeginSub, ProgramRun]) == InSub && AfterAll(Open, [ProgramRun]) == Open
    ensures AfterAll(InSub, [Respond(v, ms), ReleaseSub, RestoreConnection]) == Open
    ensures AfterAll(InSub, [RollbackSub, RestoreConnection, Respond(v, ms)]) == Open
    ensures AfterAll(Outside, [Respond(v, ms)]) == Outside && AfterAll(Outside, [PreloginReply]) == Outside
  {
    hide AfterAll;
    AfterThree(Outside, StartTransaction, SpiConnect, PushSnapshot);
    AfterThree(Open, SpiFinish, PopSnapshot, CommitTransaction);
    AfterTwo(Open, BeginSub, ProgramRun);
    AfterOne(Open, ProgramRun);
    AfterThree(InSub, Respond(v, ms), ReleaseSub, RestoreConnection);
    AfterThree(InSub, RollbackSub, RestoreConnection, Respond(v, ms));
    AfterOne(Outside, Respond(v, ms));
    AfterOne(Outside, PreloginReply);
  }

  lemma SqlBrackets(db: Db, front: Front, fuel: nat, c: Conn, text: string)
    requires c.alive && Bracketed(c)
    ensures Bracketed(StepSql(db, front, fuel, c, text))
  {
    hide RunCode, AfterAll;
    var r := StepSql(db, front, fuel, c, text);
    var events := OPEN + [BeginSub, ProgramRun];
    match front.program(text)
    case SyntaxError(message) =>
      Brackets(c.version, ErrorMessages(102, message));
      AfterJoin(Outside, c.log, [Respond(c.version, ErrorMessages(102, message))]);
    case Program(statements) =>
      var o := RunCode(Translate.BlockCode([], statements), fuel, db, Fresh(c.exec, map[]));
      Brackets(c.version, o.state.messages);
      AfterJoin(Outside, OPEN, [BeginSub, ProgramRun]);
      AfterJoin(Outside, c.log, events);
      match o.exit
      case Return(_) =>
        var tail := [Respond(c.version, o.state.messages), ReleaseSub, RestoreConnection];
        AfterJoin(Outside, events, tail);
        AfterJoin(Outside, events + tail, CLOSE);
        AfterJoin(Outside, c.log, events + tail + CLOSE);
      case Thrown(m) =>
        var ms := o.state.messages + ErrorMessages(102, m);
        var tail := [RollbackSub, RestoreConnection, Respond(c.version, ms)];
        Brackets(c.version, ms);
        AfterJoin(Outside, events, tail);
        AfterJoin(Outside, events + tail, CLOSE);
        AfterJoin(Outside, c.log, events + tail + CLOSE);
      case _ =>
  }

  lemma RpcBrackets(db: Db, front: Front, fuel: nat, c: Conn, message: seq<Bytes.byte>)
    requires c.alive && Bracketed(c)
    ensures Bracketed(StepRpc(db, front, fuel, c, message))
  {
    hide RunCode, AfterAll, Rpc.Decode, CallText, ParamVars;
    var r := StepRpc(db, front, fuel, c, message);
    var read := Decoded(c.version);
    var events := [read] + OPEN + [ProgramRun];
    Brackets(c.version, r.exec.messages);
    assert c.log + [] == c.log;
    AfterOne(Outside, read);
    AfterJoin(Outside, c.log, [read]);
    AfterEvents(Outside, read, OPEN);
    AfterJoin(Outside, [read] + OPEN, [ProgramRun]);
    AfterJoin(Outside, c.log, events);
    AfterJoin(Outside, events, CLOSE);
    AfterJoin(Outside, events + CLOSE, [Respond(c.version, r.exec.messages)]);
    AfterJoin(Outside, c.log, events + CLOSE + [Respond(c.version, r.exec.messages)]);
  }

  lemma LoginBrackets(db: Db, c: Conn, p: Incoming, instance: string)
    requires p.LoginIn? && c.alive && Bracketed(c)
    ensures Bracketed(StepLogin(db, c, p, instance))
  {
    hide AfterAll, LoginQueries;
    var version := Min(p.version, TDSVERSION_SERVER);
    var ms := LoginMessages(version, DatabaseOf(p.database));
    var attach := Attach(instance, Lower(p.username));
    var start := [attach] + OPEN;
    Brackets(version, ms);
    AfterEvents(Outside, attach, OPEN);
    AfterJoin(Outside, c.log, start);
    AfterJoin(Outside, start, CLOSE);
    AfterTwo(Outside, LoginDone(p.version, version), Respond(version, ms));
    AfterJoin(Outside, start + CLOSE, [LoginDone(p.version, version), Respond(version, ms)]);
    AfterJoin(Outside, c.log, start + CLOSE + [LoginDone(p.version, version), Respond(version, ms)]);
  }

  /** Transaction, SPI and snapshot brackets are balanced at every loop head, whatever the client sends. */
  lemma {:induction false} BracketsBalance(db: Db, front: Front, fuel: nat, c: Conn, incoming: seq<Incoming>)
    requires Bracketed(c)
    ensures Bracketed(Serve(db, front, fuel, c, incoming))
    decreases |incoming|
  {
    if !(incoming == [] || incoming[0].Unknown? || c.phase.Failed? || !c.alive) {
      var p := incoming[0];
      StepBrackets(db, front, fuel, c, p);
      BracketsBalance(db, front, fuel, Step(db, front, fuel, c, p), incoming[1..]);
    }
  }

  lemma StepBrackets(db: Db, front: Front, fuel: nat, c: Conn, p: Incoming)
    requires c.alive && Bracketed(c)
    ensures Bracketed(Step(db, front, fuel, c, p))
  {
    hide AfterAll, StepLogin, StepSql, StepRpc;
    if p.LoginIn? {
      LoginBrackets(db, c, p, DEFAULT_INSTANCE);
      LoginBrackets(db, c, p, c.instance);
    } else if p.SqlIn? {
      SqlBrackets(db, front, fuel, c, p.text);
    } else if p.RpcIn? {
      RpcBrackets(db, front, fuel, c, p.message);
    } else if p.PreloginIn? {
      Brackets(0, []);
      AfterJoin(Outside, c.log, [PreloginReply]);
    }
  }

  // ----- the order of the protocol -----

  predicate Quiet(e: Event) {
    !e.ProgramRun? && !e.LoginDone? && !e.Respond? && !e.Decoded?
  }

  ghost predicate AllQuiet(log: seq<Event>) {
    forall i :: 0 <= i < |log| ==> Quiet(log[i])
  }

  predicate Later(e: Event, version: nat) {
    !e.LoginDone? && (e.Respond? || e.Decoded? ==> e.version == version)
  }

  /** After the login at k: no second one, and every request decoded and answered under its version. */
  ghost predicate AgreedFrom(log: seq<Event>, k: nat, version: nat) {
    && k < |log| && log[k].LoginDone?
    && version == log[k].agreed == Min(log[k].client, TDSVERSION_SERVER)
    && AllQuiet(log[..k])
    && forall i :: k < i < |log| ==> Later(log[i], version)
  }

  /** Nothing runs and nothing is answered before the login; everything after it is answered under one version. */
  ghost predicate Orderly(c: Conn) {
    if c.phase.Connected? then exists k :: AgreedFrom(c.log, k, c.version)
    else AllQuiet(c.log)
  }

  lemma OrderlyMore(c: Conn, r: Conn, events: seq<Event>)
    requires c.phase.Connected? && Orderly(c)
    requires r.phase == c.phase && r.version == c.version && r.log == c.log + events
    requires forall i :: 0 <= i < |events| ==> Later(events[i], c.version)
    ensures Orderly(r)
  {
    var k: nat :| AgreedFrom(c.log, k, c.version);
    assert r.log[..k] == c.log[..k] && r.log[k] == c.log[k];
    forall i | k < i < |r.log|
      ensures Later(r.log[i], c.version)
    {
      if i < |c.log| {
        assert r.log[i] == c.log[i];
      } else {
        assert r.log[i] == events[i - |c.log|];
      }
    }
    assert AgreedFrom(r.log, k, r.version);
  }

  lemma LoginOrderly(db: Db, c: Conn, p: Incoming, instance: string)
    requires p.LoginIn? && !c.phase.Connected? && Orderly(c)
    ensures Orderly(StepLogin(db, c, p, instance))
  {
    hide LoginQueries;
    var r := StepLogin(db, c, p, instance);
    var start := [Attach(instance, Lower(p.username))] + OPEN;
    assert AllQuiet(start) && AllQuiet(CLOSE);
    if r.phase.Connected? {
      var head := c.log + (start + CLOSE);
      var ms := LoginMessages(r.version, DatabaseOf(p.database));
      assert r.log == head + [LoginDone(p.version, r.version), Respond(r.version, ms)];
      assert r.log[..|head|] == head && r.log[|head|] == LoginDone(p.version, r.version);
      assert AgreedFrom(r.log, |head|, r.version);
    }
  }

  /** What one more request may have done. */
  ghost predicate Extends(c: Conn, r: Conn) {
    r.phase.Connected? && r.version == c.version && c.log <= r.log && Orderly(r)
  }

  lemma SqlOrderly(db: Db, front: Front, fuel: nat, c: Conn, text: string)
    requires c.alive && c.phase.Connected? && Orderly(c)
    ensures Extends(c, StepSql(db, front, fuel, c, text))
  {
    hide RunCode, Orderly;
    var r := StepSql(db, front, fuel, c, text);
    var ms := r.exec.messages;
    var events := OPEN + [BeginSub, ProgramRun];
    if front.program(text).SyntaxError? {
      OrderlyMore(c, r, [Respond(c.version, ms)]);
    } else if !r.alive {
      OrderlyMore(c, r, events);
    } else {
      var exit := RunCode(Translate.BlockCode([], front.program(text).statements), fuel, db, Fresh(c.exec, map[])).exit;
      var tail := if exit.Return? then [Respond(c.version, ms), ReleaseSub, RestoreConnection]
                  else [RollbackSub, RestoreConnection, Respond(c.version, ms)];
      OrderlyMore(c, r, events + tail + CLOSE);
    }
  }

  lemma RpcOrderly(db: Db, front: Front, fuel: nat, c: Conn, message: seq<Bytes.byte>)
    requires c.alive && c.phase.Connected? && Orderly(c)
    ensures Extends(c, StepRpc(db, front, fuel, c, message))
  {
    hide RunCode, Orderly, CallText, ParamVars;
    var r := StepRpc(db, front, fuel, c, message);
    var decoded := Rpc.Decode(message, c.version);
    var events := [Decoded(c.version)] + OPEN + [ProgramRun];
    if decoded.None? {
      OrderlyMore(c, r, []);
    } else if decoded.value.procId != SP_EXECUTESQL || !Callable(decoded.value) {
      OrderlyMore(c, r, [Decoded(c.version)]);
    } else if r.alive {
      OrderlyMore(c, r, events + CLOSE + [Respond(c.version, r.exec.messages)]);
    } else {
      OrderlyMore(c, r, events);
    }
  }

  /** The protocol over whole runs: no program before CONNECTED, one version for everything after the login. */
  lemma {:induction false} ProtocolKept(db: Db, front: Front, fuel: nat, c: Conn, incoming: seq<Incoming>)
    requires Orderly(c)
    ensures Orderly(Serve(db, front, fuel, c, incoming))
    ensures c.phase.Connected? ==>
              var r := Serve(db, front, fuel, c, incoming);
              r.phase.Connected? && r.version == c.version && c.log <= r.log
    decreases |incoming|
  {
    if !(incoming == [] || incoming[0].Unknown? || c.phase.Failed? || !c.alive) {
      var p := incoming[0];
      StepOrderly(db, front, fuel, c, p);
      ProtocolKept(db, front, fuel, Step(db, front, fuel, c, p), incoming[1..]);
    }
  }

  lemma StepOrderly(db: Db, front: Front, fuel: nat, c: Conn, p: Incoming)
    requires c.alive && Orderly(c)
    ensures var r := Step(db, front, fuel, c, p);
            Orderly(r) && (c.phase.Connected? ==> r.phase.Connected? && r.version == c.version && c.log <= r.log)
  {
    hide StepSql, StepRpc, StepLogin;
    if c.phase.Connected? {
      if p.SqlIn? {
        SqlOrderly(db, front, fuel, c, p.text);
      } else if p.RpcIn? {
        RpcOrderly(db, front, fuel, c, p.message);
      }
    } else if p.LoginIn? {
      LoginOrderly(db, c, p, DEFAULT_INSTANCE);
      LoginOrderly(db, c, p, c.instance);
    }
  }

  /** Which packets are out of order, told from the packets alone. */
  predicate OutOfOrder(incoming: seq<Incoming>) {
    && incoming != [] && !incoming[0].Unknown?
    && if incoming[0].PreloginIn? then
         |incoming| > 1 && !incoming[1].Unknown? && !(incoming[1].LoginIn? && incoming[1].seven)
       else !(incoming[0].LoginIn? && !incoming[0].seven)
  }

  /**
   A connection ends in FAIL exactly when its first packets are out of order: neither
   PRELOGIN nor LOGIN4 first, or no LOGIN7 behind PRELOGIN.  What comes later never fails
   it, and after a failure nothing more is read.
   */
  lemma FailsExactly(db: Db, front: Front, fuel: nat, incoming: seq<Incoming>)
    ensures var r := Serve(db, front, fuel, BEGIN, incoming);
            && (r.phase.Failed? <==> OutOfOrder(incoming))
            && (r.phase.Failed? ==> r.log <= [PreloginReply] && r.exec.asked == [])
  {
    hide RunCode, StepLogin;
    if incoming != [] && !incoming[0].Unknown? {
      var first := Step(db, front, fuel, BEGIN, incoming[0]);
      var rest := incoming[1..];
      if incoming[0].PreloginIn? {
        assert BEGIN.log + [PreloginReply] == [PreloginReply];
        if rest != [] && !rest[0].Unknown? {
          var second := Step(db, front, fuel, first, rest[0]);
          assert Serve(db, front, fuel, BEGIN, incoming) == Serve(db, front, fuel, second, rest[1..]);
          if rest[0].LoginIn? && rest[0].seven {
            LoggedInNeverFails(db, front, fuel, first, rest[0], first.instance, rest[1..]);
          }
        }
      } else if incoming[0].LoginIn? && !incoming[0].seven {
        LoggedInNeverFails(db, front, fuel, BEGIN, incoming[0], DEFAULT_INSTANCE, rest);
      }
    }
  }

  /** After a login the connection is dead or connected, and stays so. */
  lemma LoggedInNeverFails(db: Db, front: Front, fuel: nat, c: Conn, p: Incoming, instance: string, rest: seq<Incoming>)
    requires p.LoginIn? && c.alive && !c.phase.Failed? && !c.phase.Connected? && AllQuiet(c.log)
    ensures !Serve(db, front, fuel, StepLogin(db, c, p, instance), rest).phase.Failed?
  {
    LoginOrderly(db, c, p, instance);
    ProtocolKept(db, front, fuel, StepLogin(db, c, p, instance), rest);
  }

  // ----- the parameters of sp_executesql -----

  lemma {:induction false} ParamVarsHold(front: Front, call: Rpc.Call, n: nat, i: nat)
    requires n <= |call.names| <= |call.values| && 2 <= i < n
    requires forall k :: 2 <= k < n && k != i ==> front.text(call.names[k]) != front.text(call.names[i])
    ensures var name := front.text(call.names[i]);
            var vars := ParamVars(front, call, n);
            name in vars && vars[name] == TextValue(front.text(call.values[i]))
    decreases n
  {
    if i < n - 1 {
      ParamVarsHold(front, call, n - 1, i);
    }
  }

  lemma {:induction false} ParamVarsMiss(front: Front, call: Rpc.Call, n: nat, name: string)
    requires n <= |call.names| <= |call.values|
    requires forall k :: 2 <= k < n ==> front.text(call.names[k]) != name
    ensures name !in ParamVars(front, call, n)
    decreases n
  {
    if n > 2 {
      ParamVarsMiss(front, call, n - 1, name);
    }
  }

  /**
   The translator writes every variable in lower case; a parameter keeps its name as it
   came.  So the statement sees the parameter exactly when it came in lower case.
   */
  lemma ParameterSeen(front: Front, call: Rpc.Call, i: nat, sess: map<string, Values.Value>)
    requires Callable(call) && 2 <= i < |call.names|
    requires var name := front.text(call.names[i]);
             && !("@@" <= Lower(name))
             && forall k :: 2 <= k < |call.names| && k != i ==> Lower(front.text(call.names[k])) != Lower(name)
    ensures var name := front.text(call.names[i]);
            var env := Values.Env(sess, ParamVars(front, call, |call.names|));
            Values.Lookup(env, Lower(name)) == TextValue(front.text(call.values[i])) <==> Lower(name) == name
  {
    var name := front.text(call.names[i]);
    if Lower(name) == name {
      ParamVarsHold(front, call, |call.names|, i);
    } else {
      forall k | 2 <= k < |call.names|
        ensures front.text(call.names[k]) != Lower(name)
      {
        if k != i && front.text(call.names[k]) == Lower(name) {
          LowerTwice(name);
          assert false;
        }
      }
      ParamVarsMiss(front, call, |call.names|, Lower(name));
    }
  }

  lemma LowerTwice(s: string)
    ensures Lower(Lower(s)) == Lower(s)
  {
  }

  // ----- one answer to every batch -----

  /** The run of a program in a new response, with these variables. */
  ghost function Underway(c: Conn, vars: map<string, Values.Value>): State {
    State(Values.Env(c.exec.env.sess, vars), c.exec.database, [], c.exec.asked)
  }

  /** The messages of a batch: those of its run, and an ERROR behind them when it threw or did not parse. */
  ghost predicate Answers(ms: seq<Message>, parsed: Parsed, o: Outcome) {
    match parsed
    case SyntaxError(text) => ms == [ErrorMessage(102, text), DoneMessage(true, false, 1)]
    case Program(_) =>
      if o.exit.Thrown?
      then ms == o.state.messages + [ErrorMessage(102, o.exit.message), DoneMessage(true, false, 1)]
      else ms == o.state.messages
  }

  /** What a batch runs and what is left of it: the session, the database, the queries, and no variable. */
  lemma BatchRuns(db: Db, front: Front, fuel: nat, c: Conn, text: string)
    requires c.alive && c.phase.Connected?
    ensures var r := Step(db, front, fuel, c, SqlIn(text));
            var parsed := front.program(text);
            var o := RunAll(StatementsOf(parsed), fuel, db, Underway(c, map[]));
            && r == StepSql(db, front, fuel, c, text)
            && Answers(r.exec.messages, parsed, o)
            && (parsed.Program? ==>
                  && (r.alive <==> o.exit.Return? || o.exit.Thrown?)
                  && r.exec.env == Values.Env(o.state.env.sess, map[])
                  && r.exec.database == o.state.database && r.exec.asked == o.state.asked)
            && (parsed.SyntaxError? ==>
                  r.alive && r.exec.env == c.exec.env && r.exec.database == c.exec.database
                  && r.exec.asked == c.exec.asked)
  {
    hide RunAll;
    assert Fresh(c.exec, map[]) == Underway(c, map[]);
  }

  /**
   A batch that does not end the process gets one response, and the response holds an
   ERROR exactly when the batch did not parse, threw, or returned 1.
   */
  lemma BatchAnswered(db: Db, front: Front, fuel: nat, c: Conn, text: string)
    requires c.alive && c.phase.Connected? && StepSql(db, front, fuel, c, text).alive
    ensures var r := StepSql(db, front, fuel, c, text);
            var good := front.program(text).Program?
                     && RunAll(front.program(text).statements, fuel, db, Underway(c, map[])).exit == Return(false);
            && c.log <= r.log
            && OnlyResponse(r.log[|c.log|..], c.version, r.exec.messages)
            && ErrorsFlagged(r.exec.messages)
            && (HasError(r.exec.messages) <==> !good)
  {
    var r := StepSql(db, front, fuel, c, text);
    match front.program(text)
    case SyntaxError(message) =>
      assert ErrorMessages(102, message)[0].ErrorMessage?;
      var events := [Respond(c.version, ErrorMessages(102, message))];
      assert r.log[|c.log|..] == events && events[0] == Respond(c.version, r.exec.messages);
    case Program(statements) =>
      var code, st := Translate.BlockCode([], statements), Underway(c, map[]);
      ErrorDiscipline(code, fuel, db, st);
      BatchMessages(RunCode(code, fuel, db, st), st);
      BatchLog(db, front, fuel, c, text);
  }

  /** Exactly one response among the events. */
  ghost predicate OnlyResponse(events: seq<Event>, version: nat, ms: seq<Message>) {
    exists k :: 0 <= k < |events| && events[k] == Respond(version, ms)
             && forall i :: 0 <= i < |events| && i != k ==> !events[i].Respond?
  }

  lemma BatchMessages(o: Outcome, st: State)
    requires Disciplined(st, o) && st.messages == []
    ensures ErrorsFlagged(o.state.messages) && (o.exit.Return? ==> (HasError(o.state.messages) <==> o.exit.failed))
    ensures forall m :: ErrorsFlagged(o.state.messages + ErrorMessages(102, m))
                     && HasError(o.state.messages + ErrorMessages(102, m))
  {
    assert o.state.messages[0..] == o.state.messages;
    forall m
      ensures ErrorsFlagged(o.state.messages + ErrorMessages(102, m))
           && HasError(o.state.messages + ErrorMessages(102, m))
    {
      assert ErrorMessages(102, m)[0].ErrorMessage?;
      JoinedMessages(o.state.messages, ErrorMessages(102, m));
    }
  }

  lemma BatchLog(db: Db, front: Front, fuel: nat, c: Conn, text: string)
    requires front.program(text).Program? && StepSql(db, front, fuel, c, text).alive && c.alive
    ensures var r := StepSql(db, front, fuel, c, text);
            c.log <= r.log && OnlyResponse(r.log[|c.log|..], c.version, r.exec.messages)
  {
    hide RunCode;
    var r := StepSql(db, front, fuel, c, text);
    var events := r.log[|c.log|..];
    var o := RunCode(Translate.BlockCode([], front.program(text).statements), fuel, db, Fresh(c.exec, map[]));
    assert events[if o.exit.Return? then 5 else 7] == Respond(c.version, r.exec.messages);
  }

  // ----- one answer to every call of sp_executesql -----

  /** The last parameter from the third on that has the name gives the variable its value; there are no others. */
  ghost predicate Carries(front: Front, ps: seq<Rpc.Sent>, vars: map<string, Values.Value>) {
    && (forall i :: 2 <= i < |ps| ==> front.text(ps[i].name) in vars)
    && forall name :: name in vars ==> exists i :: 2 <= i < |ps| && Gives(front, ps, i, name, vars[name])
  }

  ghost predicate Gives(front: Front, ps: seq<Rpc.Sent>, i: nat, name: string, v: Values.Value) {
    && i < |ps| && front.text(ps[i].name) == name && v == Values.Datum(1, front.text(ps[i].value))
    && forall k :: i < k < |ps| ==> front.text(ps[k].name) != name
  }

  /** Two maps that carry the same parameters are the same. */
  lemma CarriesOnce(front: Front, ps: seq<Rpc.Sent>, a: map<string, Values.Value>, b: map<string, Values.Value>)
    requires Carries(front, ps, a) && Carries(front, ps, b)
    ensures a == b
  {
    forall name
      ensures name in a <==> name in b
      ensures name in a && name in b ==> a[name] == b[name]
    {
      if name in a && name in b {
        var i :| 2 <= i < |ps| && Gives(front, ps, i, name, a[name]);
        var j :| 2 <= j < |ps| && Gives(front, ps, j, name, b[name]);
        assert i == j;
      }
    }
  }

  /** One parameter more. */
  lemma CarriesMore(front: Front, was: seq<Rpc.Sent>, p: Rpc.Sent, before: map<string, Values.Value>)
    requires |was| >= 2 && Carries(front, was, before)
    ensures Carries(front, was + [p], before[front.text(p.name) := Values.Datum(1, front.text(p.value))])
  {
    var now, last := was + [p], front.text(p.name);
    var vars := before[last := Values.Datum(1, front.text(p.value))];
    forall i | 2 <= i < |now|
      ensures front.text(now[i].name) in vars
    {
      if i < |was| {
        assert now[i] == was[i];
      }
    }
    forall name | name in vars
      ensures exists i :: 2 <= i < |now| && Gives(front, now, i, name, vars[name])
    {
      if name == last {
        assert Gives(front, now, |was|, name, vars[name]);
      } else {
        var i :| 2 <= i < |was| && Gives(front, was, i, name, before[name]);
        GivesStill(front, was, p, i, name, before[name]);
      }
    }
  }

  lemma GivesStill(front: Front, was: seq<Rpc.Sent>, p: Rpc.Sent, i: nat, name: string, v: Values.Value)
    requires Gives(front, was, i, name, v) && front.text(p.name) != name
    ensures Gives(front, was + [p], i, name, v)
  {
    var now := was + [p];
    assert forall k :: i <= k < |was| ==> now[k] == was[k];
  }

  lemma {:induction false} ParamVarsCarry(front: Front, ps: seq<Rpc.Sent>, call: Rpc.Call, n: nat)
    requires n <= |ps| == |call.names| == |call.values|
    requires forall i :: 0 <= i < |ps| ==> call.names[i] == ps[i].name && call.values[i] == ps[i].value
    ensures Carries(front, ps[..n], ParamVars(front, call, n))
    decreases n
  {
    if n > 2 {
      ParamVarsCarry(front, ps, call, n - 1);
      hide Carries;
      CarriesMore(front, ps[..n - 1], ps[n - 1], ParamVars(front, call, n - 1));
      assert ps[..n] == ps[..n - 1] + [ps[n - 1]];
    }
  }

  /** The bytes of a call of sp_executesql: procedure 10 with the statement, its declaration and the parameters. */
  function CallBytes(headers: seq<Bytes.byte>, flags: nat, ps: seq<Rpc.Sent>, version: nat): seq<Bytes.byte> {
    Rpc.EncodeCall(headers, 10, flags, ps, version)
  }

  predicate CanSend(headers: seq<Bytes.byte>, ps: seq<Rpc.Sent>) {
    |headers| + 4 < 0x1_0000_0000 && |ps| >= 2 && forall p :: p in ps ==> Rpc.Sendable(p)
  }

  /** What is run for the text of a call; nobody looks at a syntax error. */
  ghost predicate RunFor(parsed: Parsed, cs: seq<Translate.Code>) {
    parsed == Program(cs) || (parsed.SyntaxError? && cs == [])
  }

  /** From the bytes of a call to the run: which program, with which variables. */
  lemma CallRuns(db: Db, front: Front, fuel: nat, c: Conn, headers: seq<Bytes.byte>, flags: nat, ps: seq<Rpc.Sent>,
                 cs: seq<Translate.Code>, vars: map<string, Values.Value>)
    requires CanSend(headers, ps) && Carries(front, ps, vars)
    requires RunFor(front.program("DECLARE " + front.text(ps[1].value) + "\n" + front.text(ps[0].value)), cs)
    ensures var o := RunAll(cs, fuel, db, Underway(c, vars));
            var s := State(Values.Env(o.state.env.sess, map[]), o.state.database, o.state.messages, o.state.asked);
            var events := [Decoded(c.version)] + OPEN + [ProgramRun];
            StepRpc(db, front, fuel, c, CallBytes(headers, flags, ps, c.version))
            == if o.exit.Return? then Logged(c, events + CLOSE + [Respond(c.version, s.messages)]).(exec := s)
               else Die(c.(exec := s), events)
  {
    hide Rpc.EncodeCall, Rpc.Decode, ParamVars, Carries;
    Rpc.CallRoundTrip(headers, 10, flags, ps, c.version);
    Rpc.ReceivedAligned(ps);
    var call := Rpc.Call(10, [], Rpc.NamesOf(Rpc.ReceivedOf(ps)), Rpc.ValuesOf(Rpc.ReceivedOf(ps)));
    ParamVarsCarry(front, ps, call, |ps|);
    assert ps[..|ps|] == ps;
    CarriesOnce(front, ps, vars, ParamVars(front, call, |ps|));
    assert Fresh(c.exec, vars) == Underway(c, vars);
  }

  /**
   A call of sp_executesql, from its bytes: it runs the program of DECLARE, the second value,
   a new line and the first value, with the other parameters in its variables.  If that
   returns, the call gets one response, under the version of the connection, that is the
   one of the run and has an ERROR exactly when it returned 1; otherwise the process ends
   and nothing is answered.
   */
  lemma CallAnswered(db: Db, front: Front, fuel: nat, c: Conn, headers: seq<Bytes.byte>, flags: nat,
                     ps: seq<Rpc.Sent>, cs: seq<Translate.Code>, vars: map<string, Values.Value>)
    requires c.alive && c.phase.Connected? && CanSend(headers, ps) && Carries(front, ps, vars)
    requires RunFor(front.program("DECLARE " + front.text(ps[1].value) + "\n" + front.text(ps[0].value)), cs)
    ensures var r := Step(db, front, fuel, c, RpcIn(CallBytes(headers, flags, ps, c.version)));
            var o := RunAll(cs, fuel, db, Underway(c, vars));
            && c.log <= r.log && (r.alive <==> o.exit.Return?)
            && r.exec.messages == o.state.messages && r.exec.asked == o.state.asked
            && r.exec.database == o.state.database && r.exec.env == Values.Env(o.state.env.sess, map[])
            && (r.alive ==>
                  && OnlyResponse(r.log[|c.log|..], c.version, r.exec.messages)
                  && ErrorsFlagged(r.exec.messages)
                  && (HasError(r.exec.messages) <==> o.exit == Return(true)))
            && (!r.alive ==> forall i :: |c.log| <= i < |r.log| ==> !r.log[i].Respond?)
  {
    hide CallBytes, StepRpc, RunAll, Carries;
    CallRuns(db, front, fuel, c, headers, flags, ps, cs, vars);
    var st := Underway(c, vars);
    var o := RunAll(cs, fuel, db, st);
    DisciplineOfAll(cs, fuel, db, st);
    BatchMessages(o, st);
    CallLog(c, o.state.messages);
  }

  /** A call of any other procedure asks nothing and is not answered. */
  lemma OtherCalls(db: Db, front: Front, fuel: nat, c: Conn, headers: seq<Bytes.byte>, procId: nat, flags: nat,
                   ps: seq<Rpc.Sent>)
    requires c.alive && c.phase.Connected? && procId < 0x1_0000 && procId != 10
    requires |headers| + 4 < 0x1_0000_0000 && forall p :: p in ps ==> Rpc.Sendable(p)
    ensures var message := Rpc.EncodeCall(headers, procId, flags, ps, c.version);
            Step(db, front, fuel, c, RpcIn(message)) == c.(log := c.log + [Decoded(c.version)])
  {
    hide Rpc.EncodeCall, Rpc.Decode;
    Rpc.CallRoundTrip(headers, procId, flags, ps, c.version);
  }

  lemma CallLog(c: Conn, ms: seq<Message>)
    ensures var events := [Decoded(c.version)] + OPEN + [ProgramRun];
            var r := Logged(c, events + CLOSE + [Respond(c.version, ms)]);
            && OnlyResponse(r.log[|c.log|..], c.version, ms)
            && forall i :: |c.log| <= i < |Die(c, events).log| ==> !Die(c, events).log[i].Respond?
  {
    var events := [Decoded(c.version)] + OPEN + [ProgramRun] + CLOSE + [Respond(c.version, ms)];
    var r := Logged(c, events);
    assert r.log[|c.log|..] == events;
    assert events[8] == Respond(c.version, ms);
  }
}

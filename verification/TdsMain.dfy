/**
 tdsmain::run as it updates the connection and its executor in place.
 */
module TdsMain {
  import Bytes
  import Rpc
  import Names
  import opened Translate
  import Values
  import Exec
  import Executor
  import opened Connection

  class Main {
    var phase: Phase
    var log: seq<Event>

    constructor ()
      ensures phase == AwaitPrelogin && log == []
    {
      phase := AwaitPrelogin;
      log := [];
    }

    /** The connection as the specification sees it. */
    ghost function Seen(alive: bool, version: nat, instance: string, exec: Executor.Session): Conn
      reads this, exec
    {
      Conn(alive, phase, version, instance, exec.Bare(), log)
    }

    method Record(events: seq<Event>)
      modifies this`log
      ensures log == old(log) + events
    {
      log := log + events;
    }

    method AskForTypes(exec: Executor.Session, query: seq<Values.Piece>) returns (exit: Exec.Exit)
      modifies exec`asked
      ensures Exec.Outcome(exit, exec.Bare()) == AskTypes(exec.db, old(exec.Bare()), query)
    {
      var r := exec.Send(query);
      match r
      case Throw(m) => exit := Exec.Thrown(m);
      case _ => exit := if Complete(r) then Exec.Return(false) else Exec.Undefined;
    }

    /** What a login asks for. */
    method Queries(exec: Executor.Session) returns (exit: Exec.Exit)
      modifies exec
      ensures Exec.Outcome(exit, exec.Bare()) == LoginQueries(exec.db, old(exec.Bare()))
      ensures exec.database == old(exec.database)
    {
      hide AskTypes, Exec.PathQuery;
      var r := exec.Send(Exec.PathQuery(exec.database));
      if r.Throw? {
        return Exec.Thrown(r.message);
      }
      exit := AskForTypes(exec, TYPES_QUERY);
      if exit == Exec.Return(false) {
        exit := AskForTypes(exec, DOMAINS_QUERY);
      }
      if exit == Exec.Return(false) {
        var none := new Executor.Variables();
        exit := exec.Init(none);
      }
    }

    method Login(exec: Executor.Session, p: Incoming, instance: string, version: nat) returns (alive: bool, agreed: nat)
      requires p.LoginIn?
      modifies this, exec
      ensures Seen(alive, agreed, instance, exec)
           == StepLogin(exec.db, old(Seen(true, version, instance, exec)), p, instance)
    {
      hide LoginQueries;
      agreed := version;
      exec.database := DatabaseOf(p.database);
      Record([Attach(instance, Names.Lower(p.username))] + OPEN);
      var exit := Queries(exec);
      if exit != Exec.Return(false) {
        return false, agreed;
      }
      agreed := if p.version > TDSVERSION_SERVER then TDSVERSION_SERVER else p.version;
      exec.messages := LoginMessages(agreed, exec.database);
      var tail := [LoginDone(p.version, agreed), Respond(agreed, exec.messages)];
      Record(CLOSE + tail);
      Bytes.Assoc(old(log), [Attach(instance, Names.Lower(p.username))] + OPEN, CLOSE + tail);
      Bytes.Assoc([Attach(instance, Names.Lower(p.username))] + OPEN, CLOSE, tail);
      phase := Connected;
      alive := true;
    }

    method Batch(exec: Executor.Session, text: string, version: nat, instance: string, front: Front, fuel: nat)
      returns (alive: bool)
      modifies this, exec
      ensures Seen(alive, version, instance, exec)
           == StepSql(exec.db, front, fuel, old(Seen(true, version, instance, exec)), text)
    {
      match front.program(text)
      case SyntaxError(message) =>
        exec.messages := Exec.ErrorMessages(102, message);
        Record([Respond(version, exec.messages)]);
        alive := true;
      case Program(statements) =>
        var events := OPEN + [BeginSub, ProgramRun];
        exec.messages := [];
        Record(events);
        var vars := new Executor.Variables();
        assert exec.Now(vars) == Fresh(old(exec.Bare()), map[]);
        var exit := exec.Exec(BlockCode([], statements), fuel, vars);
        assert exec.Bare() == Forget(exec.Now(vars));
        match exit
        case Return(_) =>
          var tail := [Respond(version, exec.messages), ReleaseSub, RestoreConnection];
          Record(tail);
          Record(CLOSE);
          Bytes.Assoc3(old(log), events, tail, CLOSE);
          Bytes.Assoc(events, tail, CLOSE);
          alive := true;
        case Thrown(m) =>
          exec.messages := exec.messages + Exec.ErrorMessages(102, m);
          var tail := [RollbackSub, RestoreConnection, Respond(version, exec.messages)];
          Record(tail);
          Record(CLOSE);
          Bytes.Assoc3(old(log), events, tail, CLOSE);
          Bytes.Assoc(events, tail, CLOSE);
          alive := true;
        case _ => alive := false;
    }

    method Call(exec: Executor.Session, message: seq<Bytes.byte>, version: nat, instance: string, front: Front,
                fuel: nat)
      returns (alive: bool)
      modifies this, exec
      ensures Seen(alive, version, instance, exec)
           == StepRpc(exec.db, front, fuel, old(Seen(true, version, instance, exec)), message)
    {
      var decoded := Rpc.ReadPacket(message, version);
      if decoded.None? {
        assert log + [] == log;
        return false;
      }
      var call := decoded.value;
      Record([Decoded(version)]);
      if call.procId != SP_EXECUTESQL {
        return true;
      }
      if !Callable(call) {
        return false;
      }
      var parsed := front.program(CallText(front, call));
      var vars := Parameters(call, front);
      exec.messages := [];
      var events := [Decoded(version)] + OPEN + [ProgramRun];
      Record(OPEN);
      Record([ProgramRun]);
      Bytes.Assoc3(old(log), [Decoded(version)], OPEN, [ProgramRun]);
      Bytes.Assoc([Decoded(version)], OPEN, [ProgramRun]);
      assert exec.Now(vars) == Fresh(old(exec.Bare()), vars.values);
      var exit := exec.Exec(BlockCode([], StatementsOf(parsed)), fuel, vars);
      assert exec.Bare() == Forget(exec.Now(vars));
      if !exit.Return? {
        return false;
      }
      Record(CLOSE);
      Record([Respond(version, exec.messages)]);
      Bytes.Assoc3(old(log), events, CLOSE, [Respond(version, exec.messages)]);
      Bytes.Assoc(events, CLOSE, [Respond(version, exec.messages)]);
      alive := true;
    }

    /** The loop that turns the parameters from the third on into variables. */
    method Parameters(call: Rpc.Call, front: Front) returns (vars: Executor.Variables)
      requires Callable(call)
      ensures fresh(vars) && vars.values == ParamVars(front, call, |call.names|)
    {
      vars := new Executor.Variables();
      var i := 2;
      while i < |call.names|
        invariant 2 <= i && (i <= |call.names| || i == 2)
        invariant vars.values == ParamVars(front, call, if i <= |call.names| then i else |call.names|)
        modifies vars
      {
        vars.values := vars.values[front.text(call.names[i]) := TextValue(front.text(call.values[i]))];
        i := i + 1;
      }
    }

    /** One round of the loop. */
    method Handle(exec: Executor.Session, p: Incoming, version: nat, instance: string, front: Front, fuel: nat)
      returns (alive: bool, agreed: nat, home: string)
      requires phase != Failed
      modifies this, exec
      ensures Seen(alive, agreed, home, exec) == Step(exec.db, front, fuel, old(Seen(true, version, instance, exec)), p)
    {
      hide LoginQueries, StepSql, StepRpc, InstanceOf;
      alive, agreed, home := true, version, instance;
      if phase == AwaitPrelogin && p.PreloginIn? {
        home := InstanceOf(p.instance);
        Record([PreloginReply]);
        phase := AwaitLogin;
      } else if (phase == AwaitPrelogin && p.LoginIn? && !p.seven) || (phase == AwaitLogin && p.LoginIn? && p.seven) {
        if !p.seven {
          home := DEFAULT_INSTANCE;
        }
        alive, agreed := Login(exec, p, home, version);
      } else if phase == Connected {
        match p {
          case SqlIn(text) => alive := Batch(exec, text, version, instance, front, fuel);
          case RpcIn(message) => alive := Call(exec, message, version, instance, front, fuel);
          case _ =>
        }
      } else {
        phase := Failed;
      }
    }

    /** The loop over the packets, up to the first that ends it. */
    method Run(incoming: seq<Incoming>, db: Exec.Db, front: Front, fuel: nat)
      returns (alive: bool, version: nat, instance: string, exec: Executor.Session)
      requires phase == AwaitPrelogin && log == []
      modifies this
      ensures fresh(exec)
      ensures Seen(alive, version, instance, exec) == Serve(db, front, fuel, BEGIN, incoming)
    {
      hide Step;
      exec := new Executor.Session(db);
      alive, version, instance := true, 0, "";
      var i := 0;
      assert incoming[0..] == incoming;
      while i < |incoming| && alive && phase != Failed && !incoming[i].Unknown?
        invariant i <= |incoming| && fresh(exec) && exec.db == db
        invariant Serve(db, front, fuel, Seen(alive, version, instance, exec), incoming[i..])
               == Serve(db, front, fuel, BEGIN, incoming)
        decreases |incoming| - i
      {
        var p := incoming[i];
        assert incoming[i..][0] == p && incoming[i..][1..] == incoming[i + 1..];
        alive, version, instance := Handle(exec, p, version, instance, front, fuel);
        i := i + 1;
      }
    }
  }
}

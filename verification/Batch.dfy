/**
 A batch from its statements to its effects: the parser's actions and then the
 executor, both in place (language/parse.y, language/program.h).
 */
module Batch {
  import Translate
  import Exec
  import Executor
  import Preserve

  /** The statements are parsed over one shared list and run; without a placeholder the effect is that of the source. */
  method ParseAndRun(session: Executor.Session, vars: Executor.Variables, source: Translate.Stmts, fuel: nat)
    returns (exit: Exec.Exit)
    modifies session, vars
    ensures Exec.Outcome(exit, session.Now(vars))
         == Exec.RunAll(Translate.CompileAll(source), fuel, session.db, old(session.Now(vars)))
    ensures Preserve.AllScannable(source) && Preserve.AllPlain(source)
        ==> Exec.Outcome(exit, session.Now(vars)) == Preserve.RunStmts(source, fuel, session.db, old(session.Now(vars)))
  {
    var parser := new Translate.Parser();
    var statements := parser.Statements(source);
    ghost var before := session.Now(vars);
    exit := session.ExecBlock(Translate.BlockCode([], statements), fuel, vars);
    if Preserve.AllScannable(source) && Preserve.AllPlain(source) {
      Preserve.ListPreserves(source, fuel, session.db, before);
    }
  }
}

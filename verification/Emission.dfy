/**
 Emission depends on the lexemes only: the actions of the grammar, run over any parse
 tree, amount to one left-to-right pass over the tree's lexemes.
 */
module Emission {
  import opened Bytes
  import opened Names
  import Placeholder
  import opened Syntax

  // ----- one pass over the lexemes -----

  /** What the first lexemes stand for, and how many of them. */
  datatype Unit = Words(size: nat, words: seq<string>) | Occurrence(size: nat, name: string)

  predicate At(ls: seq<Lexeme>, i: nat, l: Lexeme) {
    i < |ls| && ls[i] == l
  }

  predicate NameAt(ls: seq<Lexeme>, i: nat) {
    i < |ls| && ls[i].LName?
  }

  /** The end of the dotted name of which an identifier stands at i. */
  function NameEnd(ls: seq<Lexeme>, i: nat): (end: nat)
    requires i < |ls|
    ensures i < end <= |ls|
    decreases |ls| - i
  {
    if At(ls, i + 1, DOT) && NameAt(ls, i + 2) then NameEnd(ls, i + 2)
    else if At(ls, i + 1, DOT) && At(ls, i + 2, DOT) && NameAt(ls, i + 3) then NameEnd(ls, i + 3)
    else i + 1
  }

  function Id(l: Lexeme): string {
    if l.LName? then Lower(l.name) else ""
  }

  /** A dotted name in front of a parenthesis is a function's. */
  function CallText(run: seq<Lexeme>, current: string): string {
    if |run| == 1 then NameIn(One(Id(run[0])), current)
    else if |run| == 3 then NameIn(Two(Id(run[0]), Id(run[2])), current)
    else if |run| == 4 then NameIn(DefaultSchema(Id(run[0]), Id(run[3])), current)
    else if |run| == 5 then NameIn(Three(Id(run[0]), Id(run[2]), Id(run[4])), current)
    else ""
  }

  /** Any other dotted name is a field's. */
  function ColumnText(run: seq<Lexeme>, current: string): string {
    if |run| == 1 then Alone(Id(run[0]))
    else if |run| == 3 then Alone(Id(run[0])) + "." + Alone(Id(run[2]))
    else if |run| == 5 then Qualified(current, Id(run[0]), Id(run[2])) + "." + Alone(Id(run[4]))
    else if |run| == 7 then Qualified(Id(run[0]), Id(run[2]), Id(run[4])) + "." + Alone(Id(run[6]))
    else ""
  }

  function NameUnit(ls: seq<Lexeme>, current: string): (u: Unit)
    requires ls != []
    ensures 1 <= u.size <= |ls|
  {
    var end := NameEnd(ls, 0);
    Words(end, [if At(ls, end, Sym('(')) then CallText(ls[..end], current) else ColumnText(ls[..end], current)])
  }

  /** Behind AS: a type name with its sizes. */
  function TypeUnit(ls: seq<Lexeme>): (u: Unit)
    requires ls != []
    ensures 1 <= u.size <= |ls|
  {
    if !NameAt(ls, 1) then Words(1, ["AS"])
    else if !At(ls, 2, Sym('(')) || |ls| < 4 || !ls[3].LInteger? then Words(2, ["AS", TypeText(Plain(ls[1].name))])
    else if At(ls, 4, Sym(')')) then Words(5, ["AS", TypeText(Sized(ls[1].name, ls[3].digits))])
    else if At(ls, 4, Sym(',')) && At(ls, 6, Sym(')')) && ls[5].LInteger?
    then Words(7, ["AS", TypeText(Scaled(ls[1].name, ls[3].digits, ls[5].digits))])
    else Words(1, ["AS"])
  }

  function SymUnit(ls: seq<Lexeme>, c: char): (u: Unit)
    requires ls != []
    ensures 1 <= u.size <= |ls|
  {
    if c == '<' && At(ls, 1, Sym('=')) then Words(2, ["<="])
    else if c == '<' && At(ls, 1, Sym('>')) then Words(2, ["<>"])
    else if c == '>' && At(ls, 1, Sym('=')) then Words(2, [">="])
    else Words(1, [[c]])
  }

  function KeywordUnit(ls: seq<Lexeme>, k: Keyword): (u: Unit)
    requires ls != []
    ensures 1 <= u.size <= |ls|
  {
    match k
    case KwAnd => Words(1, ["AND"])
    case KwOr => Words(1, ["OR"])
    case KwNot => Words(1, ["NOT"])
    case KwIn => Words(1, ["IN"])
    case KwLike => Words(1, ["LIKE"])
    case KwNull => Words(1, ["NULL", "::tsql_varchar"])
    case KwLeft => Words(1, ["left"])
    case KwCast => Words(1, ["CAST"])
    case KwCoalesce => Words(1, ["tsql_coalesce"])
    case KwAs => TypeUnit(ls)
    case KwIs =>
      if At(ls, 1, Kw(KwNull)) then Words(2, ["IS", "NULL"])
      else if At(ls, 1, Kw(KwNot)) && At(ls, 2, Kw(KwNull)) then Words(3, ["IS", "NOT", "NULL"])
      else Words(1, ["IS"])
  }

  function Next(ls: seq<Lexeme>, current: string): (u: Unit)
    requires ls != []
    ensures 1 <= u.size <= |ls|
  {
    match ls[0]
    case LVar(v) => Occurrence(1, Lower(v))
    case LName(_) => NameUnit(ls, current)
    case LInteger(d) => Words(1, [d, "::tsql_int"])
    case LDecimal(d) => Words(1, [d, "::tsql_decimal"])
    case LLiteral(t) => Words(1, LiteralTexts(t, "tsql_varchar"))
    case LNLiteral(t) => Words(1, LiteralTexts(t, "tsql_nvarchar"))
    case Sym(c) => SymUnit(ls, c)
    case Kw(k) => KeywordUnit(ls, k)
  }

  /** The pass: it knows nothing of the tree. */
  function Pass(ls: seq<Lexeme>, vars: seq<string>): Out
    decreases |ls|
  {
    if ls == [] then Out([], vars)
    else
      match Next(ls, Placeholder.PLACEHOLDER)
      case Words(n, words) => Put(words, Pass(ls[n..], vars))
      case Occurrence(n, name) =>
        var here := Reduce(vars, name);
        Then(here, Pass(ls[n..], here.vars))
  }

  // ----- steps of the pass -----

  /** The first lexeme takes no other into its unit. */
  predicate Single(l: Lexeme) {
    && !l.LVar? && !l.LName?
    && (l.Sym? ==> l.c != '<' && l.c != '>')
    && (l.Kw? ==> l.keyword != KwAs && l.keyword != KwIs)
  }

  function WordsOf(l: Lexeme): seq<string>
    requires Single(l)
  {
    Next([l], Placeholder.PLACEHOLDER).words
  }

  lemma PassUnit(front: seq<Lexeme>, rest: seq<Lexeme>, vars: seq<string>, words: seq<string>)
    requires front != [] && Next(front + rest, Placeholder.PLACEHOLDER) == Words(|front|, words)
    ensures Pass(front + rest, vars) == Put(words, Pass(rest, vars))
  {
    Cut(front, rest);
  }

  lemma PassSingle(l: Lexeme, rest: seq<Lexeme>, vars: seq<string>)
    requires Single(l)
    ensures Pass([l] + rest, vars) == Put(WordsOf(l), Pass(rest, vars))
  {
    assert ([l] + rest)[0] == l;
    PassUnit([l], rest, vars, WordsOf(l));
  }

  lemma PassPair(k: Lexeme, l: Lexeme, rest: seq<Lexeme>, vars: seq<string>)
    requires Single(k) && Single(l)
    ensures Pass([k, l] + rest, vars) == Put(WordsOf(k) + WordsOf(l), Pass(rest, vars))
  {
    hide Pass;
    assert [k, l] + rest == [k] + ([l] + rest);
    PassSingle(k, [l] + rest, vars);
    PassSingle(l, rest, vars);
    PutPut(WordsOf(k), WordsOf(l), Pass(rest, vars));
  }

  /** Nothing that a name could go on with. */
  predicate Closes(rest: seq<Lexeme>) {
    !At(rest, 0, DOT) && !At(rest, 0, Sym('('))
  }

  lemma PassField(f: FieldRef, rest: seq<Lexeme>, vars: seq<string>)
    requires Closes(rest)
    ensures Pass(FieldLexemes(f) + rest, vars) == Put([FieldText(f)], Pass(rest, vars))
  {
    var front := FieldLexemes(f);
    var ls := front + rest;
    Cut(front, rest);
    assert forall i :: 0 <= i < |front| ==> ls[i] == front[i];
    assert |rest| > 0 ==> ls[|front|] == rest[0];
    FieldEnd(f, ls);
    PassUnit(front, rest, vars, [FieldText(f)]);
  }

  lemma FieldEnd(f: FieldRef, ls: seq<Lexeme>)
    requires FieldLexemes(f) <= ls && !At(ls, |FieldLexemes(f)|, DOT)
    ensures NameEnd(ls, 0) == |FieldLexemes(f)|
  {
    var front := FieldLexemes(f);
    if !f.Column? {
      assert ls[1] == DOT && ls[2] == front[2];
      if !f.OfTable? {
        assert ls[3] == DOT && ls[4] == front[4];
        if !f.OfSchema? {
          assert ls[5] == DOT && ls[6] == front[6];
          assert NameEnd(ls, 6) == 7;
        }
        assert NameEnd(ls, 4) == |front|;
      }
      assert NameEnd(ls, 2) == |front|;
    }
  }

  lemma PassName(n: Name, rest: seq<Lexeme>, vars: seq<string>)
    requires At(rest, 0, Sym('('))
    ensures Pass(NameLexemes(n) + rest, vars) == Put([TableName(LowerName(n))], Pass(rest, vars))
  {
    var front := NameLexemes(n);
    var ls := front + rest;
    Cut(front, rest);
    assert forall i :: 0 <= i < |front| ==> ls[i] == front[i];
    assert ls[|front|] == rest[0];
    NameEnds(n, ls);
    PassUnit(front, rest, vars, [TableName(LowerName(n))]);
  }

  lemma NameEnds(n: Name, ls: seq<Lexeme>)
    requires NameLexemes(n) <= ls && !At(ls, |NameLexemes(n)|, DOT)
    ensures NameEnd(ls, 0) == |NameLexemes(n)|
  {
    var front := NameLexemes(n);
    if n.DefaultSchema? {
      assert ls[1] == DOT && ls[2] == DOT && ls[3] == front[3];
      assert NameEnd(ls, 3) == 4;
    } else if !n.One? {
      assert ls[1] == DOT && ls[2] == front[2];
      if n.Three? {
        assert ls[3] == DOT && ls[4] == front[4];
        assert NameEnd(ls, 4) == 5;
      }
      assert NameEnd(ls, 2) == |front|;
    }
  }

  lemma PassType(t: TypeName, rest: seq<Lexeme>, vars: seq<string>)
    requires At(rest, 0, Sym(')'))
    ensures Pass([Kw(KwAs)] + TypeLexemes(t) + rest, vars)
         == Put(["AS", TypeText(t)], Pass(rest, vars))
  {
    var front := [Kw(KwAs)] + TypeLexemes(t);
    var ls := front + rest;
    assert forall i :: 0 <= i < |front| ==> ls[i] == front[i];
    assert ls[|front|] == rest[0];
    PassUnit(front, rest, vars, ["AS", TypeText(t)]);
  }

  lemma PassComparison(c: Comparison, rest: seq<Lexeme>, vars: seq<string>)
    requires !At(rest, 0, Sym('=')) && !At(rest, 0, Sym('>'))
    ensures Pass(ComparisonLexemes(c) + rest, vars) == Put([ComparisonText(c)], Pass(rest, vars))
  {
    var front := ComparisonLexemes(c);
    var ls := front + rest;
    assert forall i :: 0 <= i < |front| ==> ls[i] == front[i];
    assert |rest| > 0 ==> ls[|front|] == rest[0];
    PassUnit(front, rest, vars, [ComparisonText(c)]);
  }

  lemma PassIs(front: seq<Lexeme>, rest: seq<Lexeme>, vars: seq<string>, words: seq<string>)
    requires (front == [Kw(KwIs), Kw(KwNull)] && words == ["IS", "NULL"])
          || (front == [Kw(KwIs), Kw(KwNot), Kw(KwNull)] && words == ["IS", "NOT", "NULL"])
    ensures Pass(front + rest, vars) == Put(words, Pass(rest, vars))
  {
    var ls := front + rest;
    assert forall i :: 0 <= i < |front| ==> ls[i] == front[i];
    PassUnit(front, rest, vars, words);
  }

  // ----- laws of Put, End and Then -----

  lemma PutPut(a: seq<string>, b: seq<string>, o: Out)
    ensures Put(a, Put(b, o)) == Put(a + b, o)
  {
    TextsJoin(a, b);
    Assoc(Texts(a), Texts(b), o.text);
  }

  lemma TextsJoin(a: seq<string>, b: seq<string>)
    ensures Texts(a + b) == Texts(a) + Texts(b)
  {
  }

  lemma PutThen(a: seq<string>, o: Out, r: Out)
    ensures Then(Put(a, o), r) == Put(a, Then(o, r))
  {
    Assoc(Texts(a), o.text, r.text);
  }

  lemma EndThen(o: Out, b: seq<string>, r: Out)
    ensures Then(End(o, b), r) == Then(o, Put(b, r))
  {
    Assoc(o.text, Texts(b), r.text);
  }

  lemma ThenThen(a: Out, b: Out, r: Out)
    ensures Then(Then(a, b), r) == Then(a, Then(b, r))
  {
    Assoc(a.text, b.text, r.text);
  }

  // ----- the pass agrees with the actions -----

  /** An expression starts with neither '=' nor '>'. */
  lemma {:induction false} StartsExpr(e: Expr, rest: seq<Lexeme>)
    ensures Lexemes(e) != []
    ensures !At(Lexemes(e) + rest, 0, Sym('=')) && !At(Lexemes(e) + rest, 0, Sym('>'))
  {
    if e.Binary? {
      StartsExpr(e.left, rest);
      assert Lexemes(e)[0] == Lexemes(e.left)[0];
    }
  }

  lemma PassVariable(v: string, rest: seq<Lexeme>, vars: seq<string>)
    ensures var o := Reduce(vars, Lower(v));
            Pass([LVar(v)] + rest, vars) == Then(o, Pass(rest, o.vars))
  {
    Cut([LVar(v)], rest);
    assert ([LVar(v)] + rest)[0] == LVar(v);
  }

  lemma PassOne(l: Lexeme, words: seq<string>, rest: seq<Lexeme>, vars: seq<string>)
    requires Single(l) && WordsOf(l) == words
    ensures Pass([l] + rest, vars) == Then(Out(Texts(words), vars), Pass(rest, vars))
  {
    hide Pass;
    PassSingle(l, rest, vars);
  }

  lemma PassNegative(l: Lexeme, digits: string, type_: string, rest: seq<Lexeme>, vars: seq<string>)
    requires Single(l) && WordsOf(l) == [digits, type_]
    ensures Pass([Sym('-'), l] + rest, vars) == Then(Out(Texts(["-", digits, type_]), vars), Pass(rest, vars))
  {
    hide Pass;
    PassPair(Sym('-'), l, rest, vars);
    assert ["-"] + [digits, type_] == ["-", digits, type_];
  }

  /** What `Pass` has to do on the lexemes of something that emits `o`. */
  ghost predicate PassesAs(ls: seq<Lexeme>, rest: seq<Lexeme>, vars: seq<string>, o: Out) {
    Pass(ls + rest, vars) == Then(o, Pass(rest, o.vars))
  }

  /** "( x )" behind a head, as in a call. */
  lemma PassCall(head: seq<Lexeme>, words: seq<string>, inner: seq<Lexeme>, tail: seq<Lexeme>, end: seq<string>,
                 rest: seq<Lexeme>, vars: seq<string>, o: Out)
    ensures && Pass(head + (inner + (tail + rest)), vars) == Put(words, Pass(inner + (tail + rest), vars))
            && PassesAs(inner, tail + rest, vars, o)
            && Pass(tail + rest, o.vars) == Put(end, Pass(rest, o.vars))
        ==> PassesAs(head + inner + tail, rest, vars, End(Put(words, o), end))
  {
    hide Pass;
    Assoc(head + inner, tail, rest);
    Assoc(head, inner, tail + rest);
    var last := Pass(rest, o.vars);
    PutThen(words, o, Put(end, last));
    EndThen(Put(words, o), end, last);
  }

  /** "a op b". */
  lemma PassInfix(a: seq<Lexeme>, op: seq<Lexeme>, words: seq<string>, b: seq<Lexeme>, rest: seq<Lexeme>,
                  vars: seq<string>, o: Out, p: Out)
    ensures && PassesAs(a, op + (b + rest), vars, o)
            && Pass(op + (b + rest), o.vars) == Put(words, Pass(b + rest, o.vars))
            && PassesAs(b, rest, o.vars, p)
        ==> PassesAs(a + op + b, rest, vars, Then(End(o, words), p))
  {
    hide Pass;
    Assoc(a + op, b, rest);
    Assoc(a, op, b + rest);
    var last := Pass(rest, p.vars);
    EndThen(o, words, Then(p, last));
    ThenThen(End(o, words), p, last);
  }

  predicate Leaf(e: Expr) {
    e.Integer? || e.NegInteger? || e.Decimal? || e.NegDecimal? || e.Literal? || e.NLiteral? || e.Null?
  }

  /** Names: of columns, of variables, and of calls without arguments. */
  lemma PassNamed(e: Expr, rest: seq<Lexeme>, vars: seq<string>)
    requires Closes(rest) && (e.Field? || e.Variable? || e.Call0?)
    ensures PassesAs(Lexemes(e), rest, vars, Emit(e, vars))
  {
    hide Pass;
    match e
    case Field(f) => PassField(f, rest, vars);
    case Variable(v) => PassVariable(v, rest, vars);
    case Call0(n) => PassCall0(n, rest, vars);
  }

  lemma PassLeaf(e: Expr, rest: seq<Lexeme>, vars: seq<string>)
    requires Leaf(e)
    ensures PassesAs(Lexemes(e), rest, vars, Emit(e, vars))
  {
    hide Pass;
    match e
    case Integer(d) => PassOne(LInteger(d), [d, "::tsql_int"], rest, vars);
    case NegInteger(d) => PassNegative(LInteger(d), d, "::tsql_int", rest, vars);
    case Decimal(d) => PassOne(LDecimal(d), [d, "::tsql_decimal"], rest, vars);
    case NegDecimal(d) => PassNegative(LDecimal(d), d, "::tsql_decimal", rest, vars);
    case Literal(t) => PassOne(LLiteral(t), LiteralTexts(t, "tsql_varchar"), rest, vars);
    case NLiteral(t) => PassOne(LNLiteral(t), LiteralTexts(t, "tsql_nvarchar"), rest, vars);
    case Null => PassOne(Kw(KwNull), ["NULL", "::tsql_varchar"], rest, vars);
  }

  /** The actions on an expression's tree amount to the pass over its lexemes. */
  lemma {:induction false} PassExpr(e: Expr, rest: seq<Lexeme>, vars: seq<string>)
    requires Closes(rest)
    ensures PassesAs(Lexemes(e), rest, vars, Emit(e, vars))
    decreases e
  {
    hide Pass, PassesAs;
    match e
    case Paren(inner) =>
      PassExpr(inner, [Sym(')')] + rest, vars);
      PassGroup(Lexemes(inner), rest, vars, Emit(inner, vars));
    case Binary(op, left, right) =>
      var o := Emit(left, vars);
      PassExpr(left, [Sym(OpChar(op))] + (Lexemes(right) + rest), vars);
      PassExpr(right, rest, o.vars);
      PassOp(Lexemes(left), Sym(OpChar(op)), Lexemes(right), rest,
                vars, o, Emit(right, o.vars));
    case Field(_) => PassNamed(e, rest, vars);
    case Variable(_) => PassNamed(e, rest, vars);
    case Call0(_) => PassNamed(e, rest, vars);
    case Call(n, args) =>
      PassArgs(args, [Sym(')')] + rest, vars);
      PassCallArgs(n, ArgLexemes(args), rest, vars, EmitArgs(args, vars));
    case LeftCall(args) =>
      PassArgs(args, [Sym(')')] + rest, vars);
      PassLeft(ArgLexemes(args), rest, vars, EmitArgs(args, vars));
    case Cast(inner, t) =>
      var tail := [Kw(KwAs)] + TypeLexemes(t) + [Sym(')')];
      assert tail[0] == Kw(KwAs);
      PassExpr(inner, tail + rest, vars);
      PassCast(Lexemes(inner), t, rest, vars, Emit(inner, vars));
      CastShape(inner, t);
    case Coalesce(a, b) =>
      var o := Emit(a, vars);
      var last := [Sym(')')] + rest;
      var middle := Lexemes(b) + last;
      PassExpr(a, [Sym(',')] + middle, vars);
      PassExpr(b, last, o.vars);
      PassTwo(Lexemes(a), Lexemes(b), rest, vars, o, Emit(b, o.vars), middle, last);
    case _ => PassLeaf(e, rest, vars);
  }

  lemma PassGroup(inner: seq<Lexeme>, rest: seq<Lexeme>, vars: seq<string>, o: Out)
    requires PassesAs(inner, [Sym(')')] + rest, vars, o)
    ensures PassesAs([Sym('(')] + inner + [Sym(')')], rest, vars, End(Put(["("], o), [")"]))
  {
    hide Pass;
    PassSingle(Sym('('), inner + ([Sym(')')] + rest), vars);
    PassSingle(Sym(')'), rest, o.vars);
    PassCall([Sym('(')], ["("], inner, [Sym(')')], [")"], rest, vars, o);
  }

  lemma PassOp(a: seq<Lexeme>, op: Lexeme, b: seq<Lexeme>, rest: seq<Lexeme>, vars: seq<string>, o: Out, p: Out)
    requires Single(op)
    requires PassesAs(a, [op] + (b + rest), vars, o) && PassesAs(b, rest, o.vars, p)
    ensures PassesAs(a + [op] + b, rest, vars, Then(End(o, WordsOf(op)), p))
  {
    hide Pass;
    PassSingle(op, b + rest, o.vars);
    PassInfix(a, [op], WordsOf(op), b, rest, vars, o, p);
  }

  lemma PassCallArgs(n: Name, inner: seq<Lexeme>, rest: seq<Lexeme>, vars: seq<string>, o: Out)
    requires PassesAs(inner, [Sym(')')] + rest, vars, o)
    ensures PassesAs(NameLexemes(n) + [Sym('(')] + inner + [Sym(')')], rest, vars,
                     End(Put([TableName(LowerName(n)), "("], o), [")"]))
  {
    hide Pass;
    PassNameParen(n, inner + ([Sym(')')] + rest), vars);
    PassSingle(Sym(')'), rest, o.vars);
    PassCall(NameLexemes(n) + [Sym('(')], [TableName(LowerName(n)), "("], inner, [Sym(')')], [")"], rest, vars, o);
  }

  lemma PassLeft(inner: seq<Lexeme>, rest: seq<Lexeme>, vars: seq<string>, o: Out)
    requires PassesAs(inner, [Sym(')')] + rest, vars, o)
    ensures PassesAs([Kw(KwLeft), Sym('(')] + inner + [Sym(')')], rest, vars, End(Put(["left", "("], o), [")"]))
  {
    hide Pass;
    PassHead(KwLeft, "left", inner + ([Sym(')')] + rest), vars);
    PassSingle(Sym(')'), rest, o.vars);
    PassCall([Kw(KwLeft), Sym('(')], ["left", "("], inner, [Sym(')')], [")"], rest, vars, o);
  }

  lemma PassCast(inner: seq<Lexeme>, t: TypeName, rest: seq<Lexeme>, vars: seq<string>, o: Out)
    requires PassesAs(inner, [Kw(KwAs)] + TypeLexemes(t) + [Sym(')')] + rest, vars, o)
    ensures PassesAs([Kw(KwCast), Sym('(')] + inner + ([Kw(KwAs)] + TypeLexemes(t) + [Sym(')')]), rest, vars,
                     End(Put(["CAST", "("], o), ["AS", TypeText(t), ")"]))
  {
    hide Pass;
    var tail := [Kw(KwAs)] + TypeLexemes(t) + [Sym(')')];
    PassHead(KwCast, "CAST", inner + (tail + rest), vars);
    PassTypeParen(t, rest, o.vars);
    PassCall([Kw(KwCast), Sym('(')], ["CAST", "("], inner, tail, ["AS", TypeText(t), ")"], rest, vars, o);
  }

  lemma CastShape(inner: Expr, t: TypeName)
    ensures Lexemes(Cast(inner, t))
         == [Kw(KwCast), Sym('(')] + Lexemes(inner) + ([Kw(KwAs)] + TypeLexemes(t) + [Sym(')')])
  {
    var head := [Kw(KwCast), Sym('(')] + Lexemes(inner);
    Assoc(head + [Kw(KwAs)], TypeLexemes(t), [Sym(')')]);
    Assoc(head, [Kw(KwAs)], TypeLexemes(t) + [Sym(')')]);
    Assoc([Kw(KwAs)], TypeLexemes(t), [Sym(')')]);
  }

  lemma PassHead(k: Keyword, word: string, rest: seq<Lexeme>, vars: seq<string>)
    requires Single(Kw(k)) && WordsOf(Kw(k)) == [word]
    ensures Pass([Kw(k), Sym('(')] + rest, vars) == Put([word, "("], Pass(rest, vars))
  {
    hide Pass;
    PassPair(Kw(k), Sym('('), rest, vars);
    assert [word] + WordsOf(Sym('(')) == [word, "("];
  }

  lemma PassAndSingle(front: seq<Lexeme>, words: seq<string>, l: Lexeme, rest: seq<Lexeme>, vars: seq<string>)
    requires Single(l)
    ensures Pass(front + ([l] + rest), vars) == Put(words, Pass([l] + rest, vars))
        ==> Pass(front + [l] + rest, vars) == Put(words + WordsOf(l), Pass(rest, vars))
  {
    hide Pass;
    Assoc(front, [l], rest);
    PassSingle(l, rest, vars);
    PutPut(words, WordsOf(l), Pass(rest, vars));
  }

  lemma PassParenAfter(front: seq<Lexeme>, text: string, rest: seq<Lexeme>, vars: seq<string>)
    ensures Pass(front + ([Sym('(')] + rest), vars) == Put([text], Pass([Sym('(')] + rest, vars))
        ==> Pass(front + [Sym('(')] + rest, vars) == Put([text, "("], Pass(rest, vars))
  {
    hide Pass;
    PassAndSingle(front, [text], Sym('('), rest, vars);
    assert [text] + WordsOf(Sym('(')) == [text, "("];
  }

  lemma PassNameParen(n: Name, rest: seq<Lexeme>, vars: seq<string>)
    ensures Pass(NameLexemes(n) + [Sym('(')] + rest, vars) == Put([TableName(LowerName(n)), "("], Pass(rest, vars))
  {
    hide Pass;
    PassName(n, [Sym('(')] + rest, vars);
    PassParenAfter(NameLexemes(n), TableName(LowerName(n)), rest, vars);
  }

  lemma PassCall0(n: Name, rest: seq<Lexeme>, vars: seq<string>)
    ensures PassesAs(Lexemes(Call0(n)), rest, vars, Emit(Call0(n), vars))
  {
    hide Pass;
    var parens := [Sym('('), Sym(')')];
    Assoc(NameLexemes(n), parens, rest);
    assert (parens + rest)[0] == Sym('(');
    PassName(n, parens + rest, vars);
    PassPair(Sym('('), Sym(')'), rest, vars);
    assert ["("] + [")"] == ["(", ")"];
    PutPut([TableName(LowerName(n))], ["(", ")"], Pass(rest, vars));
    assert [TableName(LowerName(n))] + ["(", ")"] == [TableName(LowerName(n)), "(", ")"];
  }

  lemma PassParenBehind(front: seq<Lexeme>, word: string, text: string, rest: seq<Lexeme>, vars: seq<string>)
    ensures Pass(front + ([Sym(')')] + rest), vars) == Put([word, text], Pass([Sym(')')] + rest, vars))
        ==> Pass(front + [Sym(')')] + rest, vars) == Put([word, text, ")"], Pass(rest, vars))
  {
    hide Pass;
    PassAndSingle(front, [word, text], Sym(')'), rest, vars);
    assert [word, text] + WordsOf(Sym(')')) == [word, text, ")"];
  }

  lemma PassTypeParen(t: TypeName, rest: seq<Lexeme>, vars: seq<string>)
    ensures Pass([Kw(KwAs)] + TypeLexemes(t) + [Sym(')')] + rest, vars)
         == Put(["AS", TypeText(t), ")"], Pass(rest, vars))
  {
    hide Pass;
    PassType(t, [Sym(')')] + rest, vars);
    PassParenBehind([Kw(KwAs)] + TypeLexemes(t), "AS", TypeText(t), rest, vars);
  }

  /** COALESCE: what follows the first operand is `middle`, and what follows the second is `last`. */
  lemma PassTwo(a: seq<Lexeme>, b: seq<Lexeme>, rest: seq<Lexeme>, vars: seq<string>, o: Out, p: Out,
                middle: seq<Lexeme>, last: seq<Lexeme>)
    ensures && last == [Sym(')')] + rest && middle == b + last
            && PassesAs(a, [Sym(',')] + middle, vars, o) && PassesAs(b, last, o.vars, p)
        ==> PassesAs([Kw(KwCoalesce), Sym('(')] + a + [Sym(',')] + b + [Sym(')')], rest, vars,
                     End(Then(End(Put(["tsql_coalesce", "("], o), [","]), p), [")"]))
  {
    hide Pass;
    if last == [Sym(')')] + rest && middle == b + last
       && PassesAs(a, [Sym(',')] + middle, vars, o) && PassesAs(b, last, o.vars, p) {
      PassHead(KwCoalesce, "tsql_coalesce", a + ([Sym(',')] + middle), vars);
      PassSingle(Sym(','), middle, o.vars);
      PassCall([Kw(KwCoalesce), Sym('(')], ["tsql_coalesce", "("], a, [Sym(',')], [","], middle, vars, o);
      PassSingle(Sym(')'), rest, p.vars);
      PassTail([Kw(KwCoalesce), Sym('(')] + a + [Sym(',')], b, rest, vars,
               End(Put(["tsql_coalesce", "("], o), [","]), p);
    }
  }

  /** Something, then "x )". */
  lemma PassTail(front: seq<Lexeme>, inner: seq<Lexeme>, rest: seq<Lexeme>, vars: seq<string>, o: Out, p: Out)
    requires PassesAs(front, inner + ([Sym(')')] + rest), vars, o)
    requires PassesAs(inner, [Sym(')')] + rest, o.vars, p)
    requires Pass([Sym(')')] + rest, p.vars) == Put([")"], Pass(rest, p.vars))
    ensures PassesAs(front + inner + [Sym(')')], rest, vars, End(Then(o, p), [")"]))
  {
    hide Pass;
    Assoc(front + inner, [Sym(')')], rest);
    Assoc(front, inner, [Sym(')')] + rest);
    var last := Pass(rest, p.vars);
    ThenThen(o, p, Put([")"], last));
    EndThen(Then(o, p), [")"], last);
  }

  lemma {:induction false} PassArgs(args: Args, rest: seq<Lexeme>, vars: seq<string>)
    requires Closes(rest)
    ensures PassesAs(ArgLexemes(args), rest, vars, EmitArgs(args, vars))
    decreases args
  {
    hide Pass;
    match args
    case Only(e) => PassExpr(e, rest, vars);
    case More(before, e) =>
      var o := EmitArgs(before, vars);
      PassArgs(before, [Sym(',')] + (Lexemes(e) + rest), vars);
      PassExpr(e, rest, o.vars);
      PassOp(ArgLexemes(before), Sym(','), Lexemes(e), rest, vars, o, Emit(e, o.vars));
  }

  /** The same for conditions. */
  lemma PassNot(inner: seq<Lexeme>, rest: seq<Lexeme>, vars: seq<string>, o: Out)
    requires PassesAs(inner, rest, vars, o)
    ensures PassesAs([Kw(KwNot)] + inner, rest, vars, Put(["NOT"], o))
  {
    hide Pass;
    Assoc([Kw(KwNot)], inner, rest);
    PassSingle(Kw(KwNot), inner + rest, vars);
    PutThen(["NOT"], o, Pass(rest, o.vars));
  }

  lemma {:induction false} PassCond(c: Cond, rest: seq<Lexeme>, vars: seq<string>)
    requires Closes(rest)
    ensures PassesAs(CondLexemes(c), rest, vars, EmitCond(c, vars))
  {
    hide Pass, PassesAs, Emit, EmitArgs, Lexemes, ArgLexemes;
    match c
    case Compare(cmp, left, right) =>
      var o := Emit(left, vars);
      var after := Lexemes(right) + rest;
      PassExpr(left, ComparisonLexemes(cmp) + after, vars);
      StartsExpr(right, rest);
      PassComparison(cmp, after, o.vars);
      PassExpr(right, rest, o.vars);
      PassInfix(Lexemes(left), ComparisonLexemes(cmp), [ComparisonText(cmp)], Lexemes(right), rest,
                vars, o, Emit(right, o.vars));
    case InList(e, list) => PassInList(e, list, rest, vars);
    case Like(e, pattern) =>
      var o := Emit(e, vars);
      PassExpr(e, [Kw(KwLike)] + (Lexemes(pattern) + rest), vars);
      PassExpr(pattern, rest, o.vars);
      PassOp(Lexemes(e), Kw(KwLike), Lexemes(pattern), rest, vars, o, Emit(pattern, o.vars));
    case IsNull(e) => PassPostfix(e, [Kw(KwIs), Kw(KwNull)], ["IS", "NULL"], rest, vars);
    case IsNotNull(e) => PassPostfix(e, [Kw(KwIs), Kw(KwNot), Kw(KwNull)], ["IS", "NOT", "NULL"], rest, vars);
    case And(a, b) =>
      var o := EmitCond(a, vars);
      PassCond(a, [Kw(KwAnd)] + (CondLexemes(b) + rest), vars);
      PassCond(b, rest, o.vars);
      PassOp(CondLexemes(a), Kw(KwAnd), CondLexemes(b), rest, vars, o, EmitCond(b, o.vars));
    case Or(a, b) =>
      var o := EmitCond(a, vars);
      PassCond(a, [Kw(KwOr)] + (CondLexemes(b) + rest), vars);
      PassCond(b, rest, o.vars);
      PassOp(CondLexemes(a), Kw(KwOr), CondLexemes(b), rest, vars, o, EmitCond(b, o.vars));
    case Not(inner) =>
      PassCond(inner, rest, vars);
      PassNot(CondLexemes(inner), rest, vars, EmitCond(inner, vars));
    case Group(inner) =>
      PassCond(inner, [Sym(')')] + rest, vars);
      PassGroup(CondLexemes(inner), rest, vars, EmitCond(inner, vars));
  }

  lemma PassPostfix(e: Expr, tail: seq<Lexeme>, words: seq<string>, rest: seq<Lexeme>, vars: seq<string>)
    requires (tail == [Kw(KwIs), Kw(KwNull)] && words == ["IS", "NULL"])
          || (tail == [Kw(KwIs), Kw(KwNot), Kw(KwNull)] && words == ["IS", "NOT", "NULL"])
    ensures PassesAs(Lexemes(e) + tail, rest, vars, End(Emit(e, vars), words))
  {
    hide Pass;
    var o := Emit(e, vars);
    Assoc(Lexemes(e), tail, rest);
    assert (tail + rest)[0] == Kw(KwIs);
    PassExpr(e, tail + rest, vars);
    PassIs(tail, rest, o.vars, words);
    EndThen(o, words, Pass(rest, o.vars));
  }

  lemma PassInList(e: Expr, list: Args, rest: seq<Lexeme>, vars: seq<string>)
    requires Closes(rest)
    ensures PassesAs(CondLexemes(InList(e, list)), rest, vars, EmitCond(InList(e, list), vars))
  {
    hide Pass;
    var o := Emit(e, vars);
    var p := EmitArgs(list, o.vars);
    var open, close := [Kw(KwIn), Sym('(')], [Sym(')')];
    var inner := ArgLexemes(list) + (close + rest);
    assert (open + inner)[0] == Kw(KwIn);
    PassExpr(e, open + inner, vars);
    PassHead(KwIn, "IN", inner, o.vars);
    Assoc(Lexemes(e), open, inner);
    EndThen(o, ["IN", "("], Pass(inner, o.vars));
    PassArgs(list, close + rest, o.vars);
    PassSingle(Sym(')'), rest, p.vars);
    PassTail(Lexemes(e) + open, ArgLexemes(list), rest, vars, End(o, ["IN", "("]), p);
  }

  /**
   The grammar's grouping cannot change what PostgreSQL sees: trees with the same
   lexemes emit the same text and the same numbers.
   */
  lemma EmissionIgnoresTrees(c: Cond, d: Cond, vars: seq<string>)
    requires CondLexemes(c) == CondLexemes(d)
    ensures EmitCond(c, vars) == EmitCond(d, vars)
  {
    CondIsPass(c, vars);
    CondIsPass(d, vars);
  }

  lemma CondIsPass(c: Cond, vars: seq<string>)
    ensures EmitCond(c, vars) == Pass(CondLexemes(c), vars)
  {
    PassCond(c, [], vars);
    var o := EmitCond(c, vars);
    assert CondLexemes(c) + [] == CondLexemes(c) && o.text + [] == o.text;
  }

  lemma ArgsIsPass(args: Args, vars: seq<string>)
    ensures EmitArgs(args, vars) == Pass(ArgLexemes(args), vars)
  {
    PassArgs(args, [], vars);
    var o := EmitArgs(args, vars);
    assert ArgLexemes(args) + [] == ArgLexemes(args) && o.text + [] == o.text;
  }

  lemma ExprIsPass(e: Expr, vars: seq<string>)
    ensures Emit(e, vars) == Pass(Lexemes(e), vars)
  {
    PassExpr(e, [], vars);
    var o := Emit(e, vars);
    assert Lexemes(e) + [] == Lexemes(e) && o.text + [] == o.text;
  }

  /** With AND and OR at one level the two groupings are different trees with the same lexemes. */
  lemma OneLevelOfAndOr(a: Cond, b: Cond, c: Cond, vars: seq<string>)
    ensures Or(And(a, b), c) != And(a, Or(b, c))
    ensures EmitCond(Or(And(a, b), c), vars) == EmitCond(And(a, Or(b, c)), vars)
  {
    var x, y, z := CondLexemes(a), CondLexemes(b), CondLexemes(c);
    Assoc4(x, [Kw(KwAnd)], y, [Kw(KwOr)], z);
    Assoc(x, [Kw(KwAnd)], y + [Kw(KwOr)] + z);
    Assoc(y, [Kw(KwOr)], z);
    EmissionIgnoresTrees(Or(And(a, b), c), And(a, Or(b, c)), vars);
  }
}

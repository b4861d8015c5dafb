/**
 The database name at run time (language/exec.cc): putting it in place of the placeholder
 gives the meaning in the current database, unless it finds one in a literal.
 */
module Literals {
  import Bytes
  import DigitText
  import opened Names
  import opened Options
  import opened Placeholder
  import opened Syntax
  import opened Emission
  import opened Translate
  import opened Values

  // ----- lexemes -----

  predicate IsLiteral(l: Lexeme) {
    l.LLiteral? || l.LNLiteral?
  }

  predicate LexemeAlone(l: Lexeme, current: string) {
    IsLiteral(l) ==> Expand(l.text, current) == l.text
  }

  /** Every literal comes through the replacement as it was written. */
  predicate LeftAlone(ls: seq<Lexeme>, current: string) {
    forall i :: 0 <= i < |ls| ==> LexemeAlone(ls[i], current)
  }

  /** No literal holds the placeholder. */
  ghost predicate LiteralsFree(ls: seq<Lexeme>) {
    forall i :: 0 <= i < |ls| && IsLiteral(ls[i]) ==> Free(ls[i].text)
  }

  /** For any name but the placeholder itself, a text comes through exactly when it is free of it. */
  lemma AloneExact(text: string, current: string)
    ensures Expand(text, current) == text <==> Free(text) || current == PLACEHOLDER
  {
    if Free(text) {
      ExpandFree(text, current);
    } else if current == PLACEHOLDER {
      ExpandSame(text);
    } else {
      var p := Find(text, 0);
      ExpandLength(text, current);
      MatchCounted(text, p);
      ExpandMatch(text, p, current);
      SizeChanges(Matches(text), |current|);
      var e := Expand(text, current);
      if |current| == SIZE {
        assert e[p..p + SIZE] == current && text[p..p + SIZE] == PLACEHOLDER;
      }
    }
  }

  lemma SizeChanges(matches: nat, n: nat)
    requires matches >= 1
    ensures matches * (n - SIZE) == 0 <==> n == SIZE
  {
  }

  lemma {:induction false} ExpandSame(text: string)
    ensures Expand(text, PLACEHOLDER) == text
  {
    if text == "" {
    } else if StartsHere(text, 0) {
      ExpandSame(text[SIZE..]);
      assert text == text[0..SIZE] + text[SIZE..];
    } else {
      ExpandSame(text[1..]);
    }
  }

  lemma LeftAloneExact(ls: seq<Lexeme>, current: string)
    requires current != PLACEHOLDER
    ensures LeftAlone(ls, current) <==> LiteralsFree(ls)
  {
    forall i | 0 <= i < |ls| && IsLiteral(ls[i])
      ensures LexemeAlone(ls[i], current) <==> Free(ls[i].text)
    {
      AloneExact(ls[i].text, current);
    }
    if LeftAlone(ls, current) {
      forall i | 0 <= i < |ls| && IsLiteral(ls[i])
        ensures Free(ls[i].text)
      {
        assert LexemeAlone(ls[i], current);
      }
    }
  }

  lemma FreeLeftAlone(ls: seq<Lexeme>, current: string)
    requires LiteralsFree(ls)
    ensures LeftAlone(ls, current)
  {
    forall i | 0 <= i < |ls|
      ensures LexemeAlone(ls[i], current)
    {
      if IsLiteral(ls[i]) {
        AloneExact(ls[i].text, current);
      }
    }
  }

  // ----- words -----

  /** The words of a query become these, one by one. */
  predicate Becomes(words: seq<string>, now: seq<string>, current: string) {
    |words| == |now| && forall i :: 0 <= i < |words| ==> Expand(words[i], current) == now[i]
  }

  lemma NoHash(word: string, current: string)
    requires '#' !in word
    ensures Free(word) && Expand(word, current) == word
  {
    NoHashPair(word);
    ExpandFree(word, current);
  }

  lemma WordsStay(words: seq<string>, current: string)
    requires forall i :: 0 <= i < |words| ==> '#' !in words[i]
    ensures Becomes(words, words, current)
  {
    forall i | 0 <= i < |words|
      ensures Expand(words[i], current) == words[i]
    {
      NoHash(words[i], current);
    }
  }

  lemma NumeralClean(digits: string)
    requires Numeral(digits)
    ensures '#' !in digits
  {
  }

  lemma {:induction false} DigitsClean(n: nat)
    ensures '#' !in DigitText.Digits(n)
  {
    if n >= 10 {
      DigitsClean(n / 10);
    }
  }

  /** A quote behind a text starts no placeholder and ends none. */
  lemma {:induction false} ExpandEnd(text: string, current: string)
    ensures Expand(text + "'", current) == Expand(text, current) + "'"
  {
    var s := text + "'";
    if text == "" {
      NoHash("'", current);
      assert s == "'";
    } else {
      assert s[1..] == text[1..] + "'" && s[0] == text[0];
      QuoteStarts(text);
      if StartsHere(text, 0) {
        ExpandEnd(text[SIZE..], current);
        assert s[SIZE..] == text[SIZE..] + "'";
      } else {
        ExpandEnd(text[1..], current);
      }
    }
  }

  lemma QuoteStarts(text: string)
    ensures StartsHere(text + "'", 0) <==> StartsHere(text, 0)
  {
    var s := text + "'";
    if |s| == SIZE {
      assert s[0..SIZE][SIZE - 1] == '\'' && PLACEHOLDER[SIZE - 1] == '#';
    } else if |s| > SIZE {
      assert s[0..SIZE] == text[0..SIZE];
    }
  }

  lemma ExpandQuoted(text: string, current: string)
    ensures Expand("'" + text + "'", current) == "'" + Expand(text, current) + "'"
    ensures Expand("'" + text + "'", current) == "'" + text + "'" <==> Expand(text, current) == text
  {
    hide Expand;
    var s := "'" + text + "'";
    assert s[0] == '\'' && s[1..] == text + "'" && s[..1] == "'";
    NotHere(s, 0);
    ExpandSkip(s, 1, current);
    ExpandEnd(text, current);
    Bytes.Assoc("'", Expand(text, current), "'");
    QuotedSame(Expand(text, current), text);
  }

  lemma QuotedSame(a: string, b: string)
    ensures "'" + a + "'" == "'" + b + "'" <==> a == b
  {
    Bytes.Middle("'", a, "'");
    Bytes.Middle("'", b, "'");
  }

  lemma FreeQuoted(text: string)
    requires Free("'" + text + "'")
    ensures Free(text)
  {
    AloneExact("'" + text + "'", "");
    ExpandQuoted(text, "");
    AloneExact(text, "");
  }

  // ----- names -----

  lemma IdHash(l: Lexeme)
    requires CleanLexeme(l)
    ensures HashInFront(Id(l))
  {
    if l.LName? {
      LowerHash(l.name);
    }
  }

  lemma IdsHash(run: seq<Lexeme>)
    requires Clean(run)
    ensures forall i :: 0 <= i < |run| ==> HashInFront(Id(run[i]))
  {
    forall i | 0 <= i < |run|
      ensures HashInFront(Id(run[i]))
    {
      IdHash(run[i]);
    }
  }

  lemma CallResolved(run: seq<Lexeme>, current: string)
    requires Clean(run)
    ensures Expand(CallText(run, PLACEHOLDER), current) == CallText(run, current)
  {
    hide Expand, HashInFront, NameIn, Id;
    IdsHash(run);
    if |run| == 1 {
      ExpandName(One(Id(run[0])), current);
    } else if |run| == 3 {
      ExpandName(Two(Id(run[0]), Id(run[2])), current);
    } else if |run| == 4 {
      ExpandName(DefaultSchema(Id(run[0]), Id(run[3])), current);
    } else if |run| == 5 {
      ExpandName(Three(Id(run[0]), Id(run[2]), Id(run[4])), current);
    } else {
      NoHash("", current);
    }
  }

  /** Something in quotes behind a settled text leaves it settled. */
  lemma SettledQuoted(a: string, name: string)
    requires Settled(a) && HashInFront(name)
    ensures Settled(a + ("." + Alone(name)))
  {
    assert Settled(a + ".\"");
    SettledJoin(a + ".\"", name, "\"");
    assert a + ("." + Alone(name)) == a + ".\"" + name + "\"";
  }

  lemma SettledStays(s: string, current: string)
    requires Settled(s)
    ensures Expand(s, current) == s
  {
    NoHashPair(s);
    ExpandFree(s, current);
  }

  lemma SettledQualified(d: string, s: string, o: string)
    requires HashInFront(d) && HashInFront(s) && HashInFront(o)
    ensures Settled(Qualified(d, s, o))
  {
    var a := "\"" + d + ".";
    SettledJoin("\"", d, ".");
    SettledJoin(a, s, "\".\"");
    SettledJoin(a + s + "\".\"", o, "\"");
    Bytes.Assoc("\"", d, ".");
    Bytes.Assoc("\"", d + ".", s);
  }

  lemma ColumnOfCurrent(s: string, t: string, c: string, current: string)
    requires HashInFront(s) && HashInFront(t) && HashInFront(c)
    ensures Expand(Qualified(PLACEHOLDER, s, t) + "." + Alone(c), current) == Qualified(current, s, t) + "." + Alone(c)
  {
    hide Expand, HashInFront, Qualified, Alone, AfterDatabase;
    var end := "." + Alone(c);
    var tail := AfterDatabase(s, t) + end;
    ExpandTail(s, t, current);
    SettledQuoted(AfterDatabase(s, t), c);
    SettledStays(tail, current);
    ExpandBehindPlaceholder(tail, current);
    QualifiedTail(PLACEHOLDER, s, t, end);
    QualifiedTail(current, s, t, end);
    Bytes.Assoc(Qualified(PLACEHOLDER, s, t), ".", Alone(c));
    Bytes.Assoc(Qualified(current, s, t), ".", Alone(c));
  }

  lemma QualifiedTail(d: string, s: string, t: string, end: string)
    ensures Qualified(d, s, t) + end == "\"" + (d + (AfterDatabase(s, t) + end))
  {
    hide Qualified, AfterDatabase;
    QualifiedParts(d, s, t);
    Bytes.Assoc("\"", d + AfterDatabase(s, t), end);
    Bytes.Assoc(d, AfterDatabase(s, t), end);
  }

  lemma ColumnResolved(run: seq<Lexeme>, current: string)
    requires Clean(run)
    ensures Expand(ColumnText(run, PLACEHOLDER), current) == ColumnText(run, current)
  {
    hide Expand, HashInFront, Id, Qualified, Settled, Alone;
    IdsHash(run);
    if |run| == 1 {
      ExpandAlone(Id(run[0]), current);
    } else if |run| == 3 {
      SettledAlone(Id(run[0]));
      SettledQuoted(Alone(Id(run[0])), Id(run[2]));
      Bytes.Assoc(Alone(Id(run[0])), ".", Alone(Id(run[2])));
      SettledStays(ColumnText(run, current), current);
    } else if |run| == 5 {
      ColumnOfCurrent(Id(run[0]), Id(run[2]), Id(run[4]), current);
    } else if |run| == 7 {
      var q := Qualified(Id(run[0]), Id(run[2]), Id(run[4]));
      SettledQualified(Id(run[0]), Id(run[2]), Id(run[4]));
      SettledQuoted(q, Id(run[6]));
      Bytes.Assoc(q, ".", Alone(Id(run[6])));
      SettledStays(ColumnText(run, current), current);
    } else {
      NoHash("", current);
    }
  }

  lemma SettledAlone(name: string)
    requires HashInFront(name)
    ensures Settled(Alone(name))
  {
    SettledJoin("\"", name, "\"");
  }

  // ----- the units of the pass -----

  /** A name goes on over names and dots. */
  lemma {:induction false} NameHasNoLiteral(ls: seq<Lexeme>, i: nat)
    requires i < |ls|
    ensures forall k :: i < k < NameEnd(ls, i) ==> !IsLiteral(ls[k])
    decreases |ls| - i
  {
    if At(ls, i + 1, DOT) && NameAt(ls, i + 2) {
      NameHasNoLiteral(ls, i + 2);
    } else if At(ls, i + 1, DOT) && At(ls, i + 2, DOT) && NameAt(ls, i + 3) {
      NameHasNoLiteral(ls, i + 3);
    }
  }

  /** Only the first lexeme of a unit can be a literal. */
  lemma UnitHasNoLiteral(ls: seq<Lexeme>, current: string)
    requires ls != []
    ensures forall k :: 1 <= k < Next(ls, current).size ==> !IsLiteral(ls[k])
  {
    NameHasNoLiteral(ls, 0);
  }

  lemma TypeStays(ls: seq<Lexeme>, current: string)
    requires ls != [] && Clean(ls)
    ensures Becomes(TypeUnit(ls).words, TypeUnit(ls).words, current)
  {
    hide Expand;
    var words := TypeUnit(ls).words;
    forall i | 0 <= i < |words|
      ensures Expand(words[i], current) == words[i]
    {
      if i == 0 {
        NoHash("AS", current);
      } else {
        assert CleanLexeme(ls[1]);
        TypeTextStays(ls, words[1], current);
      }
    }
  }

  lemma TypeTextStays(ls: seq<Lexeme>, word: string, current: string)
    requires ls != [] && Clean(ls) && |TypeUnit(ls).words| == 2 && word == TypeUnit(ls).words[1]
    ensures Expand(word, current) == word
  {
    hide Expand;
    assert CleanLexeme(ls[1]);
    if |ls| >= 4 && ls[3].LInteger? {
      assert CleanLexeme(ls[3]);
      NumeralClean(ls[3].digits);
    }
    if |ls| >= 6 && ls[5].LInteger? {
      assert CleanLexeme(ls[5]);
      NumeralClean(ls[5].digits);
    }
    var name := ls[1].name;
    assert forall i :: 0 <= i < |word| - 1 ==> word[i] != '#' || word[i + 1] != '#';
    NoHashPair(word);
    ExpandFree(word, current);
  }

  lemma LiteralResolved(text: string, type_: string, current: string)
    requires '#' !in type_
    ensures var words := LiteralTexts(text, type_);
            Becomes(words, words, current) <==> Expand(text, current) == text
  {
    hide Expand;
    ExpandQuoted(text, current);
    DigitsClean(|text|);
    NoHash("::" + type_ + "(" + DigitText.Digits(|text|) + ")", current);
    var words := LiteralTexts(text, type_);
    assert words[0] == "'" + text + "'";
  }

  /** A unit of the pass becomes what it means in the current database, unless it is a literal that is changed. */
  lemma UnitResolved(ls: seq<Lexeme>, current: string)
    requires ls != [] && Clean(ls)
    ensures var u, now := Next(ls, PLACEHOLDER), Next(ls, current);
            && u.size == now.size && (u.Occurrence? ==> now == u)
            && (u.Words? ==> now.Words? && |u.words| == |now.words|
                             && (Becomes(u.words, now.words, current) <==> LexemeAlone(ls[0], current)))
  {
    hide Expand, CallText, ColumnText, TypeUnit, LiteralTexts, NameEnd;
    assert CleanLexeme(ls[0]);
    match ls[0]
    case LVar(_) =>
    case LName(_) =>
      var run := ls[..NameEnd(ls, 0)];
      assert Clean(run);
      CallResolved(run, current);
      ColumnResolved(run, current);
    case LInteger(d) =>
      NumeralClean(d);
      WordsStay([d, "::tsql_int"], current);
    case LDecimal(d) =>
      NumeralClean(d);
      WordsStay([d, "::tsql_decimal"], current);
    case LLiteral(t) => LiteralResolved(t, "tsql_varchar", current);
    case LNLiteral(t) => LiteralResolved(t, "tsql_nvarchar", current);
    case Sym(c) => SymStays(ls, c, current);
    case Kw(k) =>
      TypeStays(ls, current);
      if k != KwAs {
        KeywordStays(ls, k, current);
      }
  }

  lemma SymStays(ls: seq<Lexeme>, c: char, current: string)
    requires ls != []
    ensures Becomes(SymUnit(ls, c).words, SymUnit(ls, c).words, current)
  {
    hide Expand;
    ExpandFree("<=", current);
    ExpandFree("<>", current);
    ExpandFree(">=", current);
    ExpandFree([c], current);
  }

  lemma KeywordStays(ls: seq<Lexeme>, k: Keyword, current: string)
    requires ls != [] && k != KwAs
    ensures Becomes(KeywordUnit(ls, k).words, KeywordUnit(ls, k).words, current)
  {
    hide Expand, TypeUnit;
    WordsStay(KeywordUnit(ls, k).words, current);
  }

  // ----- whole texts -----

  /** What is sent becomes what is meant. */
  predicate Turns(sent: seq<Piece>, meant: seq<Piece>, current: string) {
    ExpandPieces(sent, current) == meant
  }

  lemma TurnsJoin(a: seq<Piece>, b: seq<Piece>, a': seq<Piece>, b': seq<Piece>, current: string)
    requires |a| == |a'| && |b| == |b'|
    ensures Turns(a + b, a' + b', current) <==> Turns(a, a', current) && Turns(b, b', current)
  {
    hide ExpandPiece;
    var e := ExpandPieces(a + b, current);
    assert e == ExpandPieces(a, current) + ExpandPieces(b, current);
    Bytes.Cut(ExpandPieces(a, current), ExpandPieces(b, current));
    Bytes.Cut(a', b');
  }

  lemma TurnsWords(words: seq<string>, now: seq<string>, current: string)
    requires |words| == |now|
    ensures |Pieces(words)| == |Pieces(now)|
    ensures Turns(Pieces(words), Pieces(now), current) <==> Becomes(words, now, current)
  {
    hide Expand;
    var e := ExpandPieces(Pieces(words), current);
    assert forall i :: 0 <= i < |words| ==> e[i] == Given(Expand(words[i], current)) && Pieces(now)[i] == Given(now[i]);
    if Turns(Pieces(words), Pieces(now), current) {
      forall i | 0 <= i < |words|
        ensures Expand(words[i], current) == now[i]
      {
        assert e[i] == Pieces(now)[i];
      }
    }
  }

  lemma {:induction false} MeaningSize(ls: seq<Lexeme>, env: Env, current: string)
    requires Clean(ls)
    ensures |Meaning(ls, env, PLACEHOLDER)| == |Meaning(ls, env, current)|
    decreases |ls|
  {
    hide Next;
    if ls != [] {
      UnitResolved(ls, current);
      var n := Next(ls, PLACEHOLDER).size;
      MeaningSize(ls[n..], env, current);
    }
  }

  lemma AloneSplit(ls: seq<Lexeme>, n: nat, current: string)
    requires 1 <= n <= |ls| && forall k :: 1 <= k < n ==> !IsLiteral(ls[k])
    ensures LeftAlone(ls, current) <==> LexemeAlone(ls[0], current) && LeftAlone(ls[n..], current)
  {
    if LexemeAlone(ls[0], current) && LeftAlone(ls[n..], current) {
      forall i | 0 <= i < |ls|
        ensures LexemeAlone(ls[i], current)
      {
        if i >= n {
          assert ls[i] == ls[n..][i - n];
        }
      }
    }
    if LeftAlone(ls, current) {
      forall i | 0 <= i < |ls[n..]|
        ensures LexemeAlone(ls[n..][i], current)
      {
        assert ls[n..][i] == ls[n + i];
      }
    }
  }

  /**
   The emitted text, bound and with the database name put in, is the source's meaning in
   that database exactly when every literal is left alone.
   */
  lemma {:induction false} MeaningExact(ls: seq<Lexeme>, env: Env, current: string)
    requires Clean(ls)
    ensures |Meaning(ls, env, PLACEHOLDER)| == |Meaning(ls, env, current)|
    ensures Turns(Meaning(ls, env, PLACEHOLDER), Meaning(ls, env, current), current) <==> LeftAlone(ls, current)
    decreases |ls|
  {
    hide Next, LeftAlone, Turns, Pieces, Becomes, LexemeAlone, CleanLexeme;
    MeaningSize(ls, env, current);
    if ls == [] {
      NothingTurns(current);
    } else {
      UnitResolved(ls, current);
      UnitHasNoLiteral(ls, PLACEHOLDER);
      var u, now := Next(ls, PLACEHOLDER), Next(ls, current);
      var rest := ls[u.size..];
      MeaningExact(rest, env, current);
      AloneSplit(ls, u.size, current);
      var m, m' := Meaning(rest, env, PLACEHOLDER), Meaning(rest, env, current);
      if u.Words? {
        TurnsWords(u.words, now.words, current);
        TurnsJoin(Pieces(u.words), m, Pieces(now.words), m', current);
      } else {
        var v := [Val(Lookup(env, u.name))];
        ValueTurns(Lookup(env, u.name), current);
        TurnsJoin(v, m, v, m', current);
        OccurrenceAlone(ls, current);
      }
    }
  }

  lemma NothingTurns(current: string)
    ensures Turns([], [], current) && LeftAlone([], current)
  {
  }

  lemma ValueTurns(v: Value, current: string)
    ensures Turns([Val(v)], [Val(v)], current)
  {
  }

  lemma OccurrenceAlone(ls: seq<Lexeme>, current: string)
    requires ls != [] && Next(ls, PLACEHOLDER).Occurrence?
    ensures LexemeAlone(ls[0], current)
  {
  }

  // ----- queries -----

  function FromLexemes(from: Option<Name>): seq<Lexeme> {
    match from
    case None => []
    case Some(table) => NameLexemes(table)
  }

  function WhereLexemes(where_: Option<Cond>): seq<Lexeme> {
    match where_
    case None => []
    case Some(c) => CondLexemes(c)
  }

  function TopLexemes(top: Option<string>): seq<Lexeme> {
    match top
    case None => []
    case Some(n) => [LInteger(n)]
  }

  function QueryLexemes(q: Query): seq<Lexeme> {
    ArgLexemes(q.columns) + FromLexemes(q.from) + WhereLexemes(q.where_) + TopLexemes(q.top)
  }

  function UnionLexemes(u: Union): seq<Lexeme> {
    match u
    case Lone(q) => QueryLexemes(q)
    case UnionOf(before, _, q) => UnionLexemes(before) + QueryLexemes(q)
  }

  function SqlLexemes(s: Sql): seq<Lexeme> {
    match s
    case Rows(u) => UnionLexemes(u)
    case Insert(table, values) => NameLexemes(table) + ArgLexemes(values)
  }

  lemma AloneJoin(a: seq<Lexeme>, b: seq<Lexeme>, current: string)
    ensures LeftAlone(a + b, current) <==> LeftAlone(a, current) && LeftAlone(b, current)
  {
    hide LexemeAlone;
    assert forall i :: 0 <= i < |a| ==> (a + b)[i] == a[i];
    assert forall i :: 0 <= i < |b| ==> (a + b)[|a| + i] == b[i];
  }

  /** Words that stay as they are. */
  lemma WordsTurn(words: seq<string>, current: string)
    requires forall i :: 0 <= i < |words| ==> '#' !in words[i]
    ensures Turns(Pieces(words), Pieces(words), current)
  {
    WordsStay(words, current);
    TurnsWords(words, words, current);
  }

  lemma TableResolved(table: Name, current: string)
    requires Clean(NameLexemes(table))
    ensures Expand(NameIn(LowerName(table), PLACEHOLDER), current) == NameIn(LowerName(table), current)
    ensures LeftAlone(NameLexemes(table), current)
  {
    hide Expand, HashInFront, Lower;
    var ls := NameLexemes(table);
    forall i | 0 <= i < |ls| && ls[i].LName?
      ensures HashInFront(Lower(ls[i].name))
    {
      assert CleanLexeme(ls[i]);
      LowerHash(ls[i].name);
    }
    assert ls[0].LName? && ls[|ls| - 1].LName?;
    if table.Three? {
      assert ls[2].LName?;
    }
    ExpandName(LowerName(table), current);
  }

  lemma FromResolved(q: Query, current: string)
    requires Clean(FromLexemes(q.from))
    ensures |FromWords(q, PLACEHOLDER)| == |FromWords(q, current)| && LeftAlone(FromLexemes(q.from), current)
    ensures Turns(Pieces(FromWords(q, PLACEHOLDER)), Pieces(FromWords(q, current)), current)
  {
    hide Expand, Turns, NameIn;
    if q.from.Some? {
      TableResolved(q.from.value, current);
      NoHash("FROM", current);
    }
    TurnsWords(FromWords(q, PLACEHOLDER), FromWords(q, current), current);
  }

  lemma InsertResolved(table: Name, current: string)
    requires Clean(NameLexemes(table))
    ensures LeftAlone(NameLexemes(table), current)
    ensures Turns(Pieces(InsertWords(table, PLACEHOLDER)), Pieces(InsertWords(table, current)), current)
  {
    hide Expand, Turns, NameIn;
    TableResolved(table, current);
    WordsStay(["INSERT", "INTO", "", "VALUES", "("], current);
    assert forall i :: 0 <= i < 5 && i != 2 ==>
             InsertWords(table, PLACEHOLDER)[i] == ["INSERT", "INTO", "", "VALUES", "("][i];
    TurnsWords(InsertWords(table, PLACEHOLDER), InsertWords(table, current), current);
  }

  lemma WhereExact(where_: Option<Cond>, env: Env, current: string)
    requires Clean(WhereLexemes(where_))
    ensures |WhereMeaning(where_, env, PLACEHOLDER)| == |WhereMeaning(where_, env, current)|
    ensures Turns(WhereMeaning(where_, env, PLACEHOLDER), WhereMeaning(where_, env, current), current)
       <==> LeftAlone(WhereLexemes(where_), current)
  {
    hide Turns, LeftAlone, Meaning;
    if where_.None? {
      NothingTurns(current);
    } else {
      var ls := CondLexemes(where_.value);
      MeaningExact(ls, env, current);
      WordsTurn(["WHERE"], current);
      TurnsJoin(Pieces(["WHERE"]), Meaning(ls, env, PLACEHOLDER), Pieces(["WHERE"]), Meaning(ls, env, current),
                current);
    }
  }

  lemma TopStays(q: Query, current: string)
    requires Clean(TopLexemes(q.top))
    ensures Turns(Pieces(TopWords(q)), Pieces(TopWords(q)), current) && LeftAlone(TopLexemes(q.top), current)
  {
    hide Turns;
    if q.top.Some? {
      assert CleanLexeme(TopLexemes(q.top)[0]);
      NumeralClean(q.top.value);
    }
    WordsTurn(TopWords(q), current);
  }

  lemma QueryExact(q: Query, env: Env, current: string)
    requires Clean(QueryLexemes(q))
    ensures |QueryMeaning(q, env, PLACEHOLDER)| == |QueryMeaning(q, env, current)|
    ensures Turns(QueryMeaning(q, env, PLACEHOLDER), QueryMeaning(q, env, current), current)
       <==> LeftAlone(QueryLexemes(q), current)
  {
    hide Turns, LeftAlone, Clean, Meaning, WhereMeaning, Pieces, FromWords, TopWords, SelectWords;
    var a, b, c, d := ArgLexemes(q.columns), FromLexemes(q.from), WhereLexemes(q.where_), TopLexemes(q.top);
    CleanJoin(a + b + c, d);
    CleanJoin(a + b, c);
    CleanJoin(a, b);
    AloneJoin(a + b + c, d, current);
    AloneJoin(a + b, c, current);
    AloneJoin(a, b, current);
    SelectTurns(q, current);
    MeaningExact(a, env, current);
    FromResolved(q, current);
    WhereExact(q.where_, env, current);
    TopStays(q, current);
    QueryTurns(q, env, current);
  }

  lemma SelectTurns(q: Query, current: string)
    ensures Turns(Pieces(SelectWords(q)), Pieces(SelectWords(q)), current)
  {
    WordsTurn(SelectWords(q), current);
  }

  /** A query turns into its meaning part by part. */
  lemma QueryTurns(q: Query, env: Env, current: string)
    requires |Meaning(ArgLexemes(q.columns), env, PLACEHOLDER)| == |Meaning(ArgLexemes(q.columns), env, current)|
    requires |FromWords(q, PLACEHOLDER)| == |FromWords(q, current)|
    requires |WhereMeaning(q.where_, env, PLACEHOLDER)| == |WhereMeaning(q.where_, env, current)|
    ensures |QueryMeaning(q, env, PLACEHOLDER)| == |QueryMeaning(q, env, current)|
    ensures Turns(QueryMeaning(q, env, PLACEHOLDER), QueryMeaning(q, env, current), current)
       <==> && Turns(Pieces(SelectWords(q)), Pieces(SelectWords(q)), current)
            && Turns(Meaning(ArgLexemes(q.columns), env, PLACEHOLDER), Meaning(ArgLexemes(q.columns), env, current),
                     current)
            && Turns(Pieces(FromWords(q, PLACEHOLDER)), Pieces(FromWords(q, current)), current)
            && Turns(WhereMeaning(q.where_, env, PLACEHOLDER), WhereMeaning(q.where_, env, current), current)
            && Turns(Pieces(TopWords(q)), Pieces(TopWords(q)), current)
  {
    hide Turns, Meaning, WhereMeaning, FromWords, TopWords, SelectWords, QueryMeaning;
    QueryInWords(q, env, PLACEHOLDER);
    QueryInWords(q, env, current);
    var s, t := Pieces(SelectWords(q)), Pieces(TopWords(q));
    var m, m' := Meaning(ArgLexemes(q.columns), env, PLACEHOLDER), Meaning(ArgLexemes(q.columns), env, current);
    var f, f' := Pieces(FromWords(q, PLACEHOLDER)), Pieces(FromWords(q, current));
    var w, w' := WhereMeaning(q.where_, env, PLACEHOLDER), WhereMeaning(q.where_, env, current);
    TurnsJoin(s, m, s, m', current);
    TurnsJoin(s + m, f, s + m', f', current);
    TurnsJoin(s + m + f, w, s + m' + f', w', current);
    TurnsJoin(s + m + f + w, t, s + m' + f' + w', t, current);
  }

  lemma {:induction false} UnionExact(u: Union, env: Env, current: string)
    requires Clean(UnionLexemes(u))
    ensures |UnionMeaning(u, env, PLACEHOLDER)| == |UnionMeaning(u, env, current)|
    ensures Turns(UnionMeaning(u, env, PLACEHOLDER), UnionMeaning(u, env, current), current)
       <==> LeftAlone(UnionLexemes(u), current)
  {
    hide Turns, LeftAlone, Clean, QueryMeaning, Pieces, QueryLexemes;
    match u
    case Lone(q) => QueryExact(q, env, current);
    case UnionOf(before, all, q) =>
      CleanJoin(UnionLexemes(before), QueryLexemes(q));
      AloneJoin(UnionLexemes(before), QueryLexemes(q), current);
      UnionExact(before, env, current);
      QueryExact(q, env, current);
      WordsTurn(UnionWords(all), current);
      UnionInWords(before, all, q, env, PLACEHOLDER);
      UnionInWords(before, all, q, env, current);
      var m, m' := UnionMeaning(before, env, PLACEHOLDER), UnionMeaning(before, env, current);
      var w := Pieces(UnionWords(all));
      TurnsJoin(m, w, m', w, current);
      TurnsJoin(m + w, QueryMeaning(q, env, PLACEHOLDER), m' + w, QueryMeaning(q, env, current), current);
  }

  lemma SqlExact(s: Sql, env: Env, current: string)
    requires Clean(SqlLexemes(s))
    ensures Turns(SqlMeaning(s, env, PLACEHOLDER), SqlMeaning(s, env, current), current)
       <==> LeftAlone(SqlLexemes(s), current)
  {
    hide Turns, LeftAlone, Clean, Meaning, UnionMeaning, UnionLexemes;
    match s
    case Rows(u) => UnionExact(u, env, current);
    case Insert(table, values) =>
      CleanJoin(NameLexemes(table), ArgLexemes(values));
      AloneJoin(NameLexemes(table), ArgLexemes(values), current);
      InsertResolved(table, current);
      InsertInWords(table, values, env, PLACEHOLDER);
      InsertInWords(table, values, env, current);
      MeaningExact(ArgLexemes(values), env, current);
      WordsTurn([")", ";"], current);
      var h, h' := Pieces(InsertWords(table, PLACEHOLDER)), Pieces(InsertWords(table, current));
      var m, m' := Meaning(ArgLexemes(values), env, PLACEHOLDER), Meaning(ArgLexemes(values), env, current);
      TurnsJoin(h, m, h', m', current);
      TurnsJoin(h + m, Pieces([")", ";"]), h' + m', Pieces([")", ";"]), current);
  }

  /** A meaning behind words that stay. */
  lemma FrontExact(front: seq<string>, ls: seq<Lexeme>, env: Env, current: string)
    requires Clean(ls) && forall i :: 0 <= i < |front| ==> '#' !in front[i]
    ensures |Meaning(ls, env, PLACEHOLDER)| == |Meaning(ls, env, current)|
    ensures Turns(Pieces(front) + Meaning(ls, env, PLACEHOLDER), Pieces(front) + Meaning(ls, env, current), current)
       <==> LeftAlone(ls, current)
  {
    hide Turns, LeftAlone, Clean, Meaning;
    MeaningExact(ls, env, current);
    WordsTurn(front, current);
    TurnsJoin(Pieces(front), Meaning(ls, env, PLACEHOLDER), Pieces(front), Meaning(ls, env, current), current);
  }

  /** And in front of others. */
  lemma FramedExact(front: seq<string>, ls: seq<Lexeme>, end: seq<string>, env: Env, current: string)
    requires Clean(ls) && forall i :: 0 <= i < |front| ==> '#' !in front[i]
    requires forall i :: 0 <= i < |end| ==> '#' !in end[i]
    ensures Turns(Pieces(front) + Meaning(ls, env, PLACEHOLDER) + Pieces(end),
                  Pieces(front) + Meaning(ls, env, current) + Pieces(end), current)
       <==> LeftAlone(ls, current)
  {
    hide Turns, LeftAlone, Clean, Meaning;
    FrontExact(front, ls, env, current);
    WordsTurn(end, current);
    TurnsJoin(Pieces(front) + Meaning(ls, env, PLACEHOLDER), Pieces(end),
              Pieces(front) + Meaning(ls, env, current), Pieces(end), current);
  }

  // ----- texts without a placeholder -----

  /** One identifier between texts without '#'. */
  lemma NameStays(front: string, name: string, end: string, current: string)
    requires '#' !in front && HashInFront(name) && end != "" && '#' !in end
    ensures Expand(front + name + end, current) == front + name + end
  {
    SettledJoin(front, name, end);
    SettledStays(front + name + end, current);
  }

  ghost predicate PiecesFree(m: seq<Piece>) {
    forall i :: 0 <= i < |m| && m[i].Given? ==> Free(m[i].text)
  }

  lemma LiteralFirst(ls: seq<Lexeme>)
    requires ls != [] && IsLiteral(ls[0])
    ensures var u := Next(ls, PLACEHOLDER);
            u.Words? && u.words != [] && u.words[0] == "'" + ls[0].text + "'"
  {
  }

  lemma FreeTail(a: seq<Piece>, b: seq<Piece>)
    requires PiecesFree(a + b)
    ensures PiecesFree(a) && PiecesFree(b)
  {
    hide Free;
    assert forall i :: 0 <= i < |a| ==> (a + b)[i] == a[i];
    assert forall i :: 0 <= i < |b| ==> (a + b)[|a| + i] == b[i];
  }

  lemma FirstFree(ls: seq<Lexeme>)
    requires ls != [] && Next(ls, PLACEHOLDER).Words? && PiecesFree(Pieces(Next(ls, PLACEHOLDER).words))
    ensures IsLiteral(ls[0]) ==> Free(ls[0].text)
  {
    hide Free, Next;
    if IsLiteral(ls[0]) {
      LiteralFirst(ls);
      var pieces := Pieces(Next(ls, PLACEHOLDER).words);
      assert pieces[0] == Given("'" + ls[0].text + "'");
      FreeQuoted(ls[0].text);
    }
  }

  /** A text without a placeholder has no literal with one. */
  lemma {:induction false} FreeMeaning(ls: seq<Lexeme>, env: Env)
    requires PiecesFree(Meaning(ls, env, PLACEHOLDER))
    ensures LiteralsFree(ls)
    decreases |ls|
  {
    hide Free, Next, PiecesFree, Pieces, Lookup;
    if ls != [] {
      var u := Next(ls, PLACEHOLDER);
      var rest := ls[u.size..];
      UnitHasNoLiteral(ls, PLACEHOLDER);
      var front := if u.Words? then Pieces(u.words) else [Val(Lookup(env, u.name))];
      FreeTail(front, Meaning(rest, env, PLACEHOLDER));
      FreeMeaning(rest, env);
      if u.Words? {
        FirstFree(ls);
      } else {
        OccurrenceFirst(ls);
      }
      forall i | 0 <= i < |ls| && IsLiteral(ls[i])
        ensures Free(ls[i].text)
      {
        if i >= u.size {
          assert ls[i] == rest[i - u.size];
        }
      }
    }
  }

  lemma OccurrenceFirst(ls: seq<Lexeme>)
    requires ls != [] && Next(ls, PLACEHOLDER).Occurrence?
    ensures !IsLiteral(ls[0])
  {
  }
}

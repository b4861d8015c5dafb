/**
 The spelling of a numbered text: the string that the formats of the actions
 (language/parse.y) build up, and the same string from the tokens alone.
 */
module Spelling {
  import opened Bytes
  import DigitText
  import Emission
  import opened Names
  import opened Syntax

  function TokenText(t: Target): string {
    match t
    case Text(s) => s
    case Param(k) => "$" + DigitText.Digits(k)
  }

  /** Tokens that an operand follows. */
  const SIGNS: seq<string> := ["(", ",", "-", "+", "*", "/", "&", "=", "<", "<=", ">", ">=", "<>"]
  const WORDS: seq<string> :=
    ["IN", "LIKE", "AND", "OR", "NOT", "SELECT", "DISTINCT", "WHERE", "UNION", "ALL"]

  predicate IsOpener(t: Target) {
    t.Text? && (t.text in SIGNS || t.text in WORDS)
  }

  /** A word that starts as no opener does, or as some short ones do and is longer. */
  lemma NoOpener(word: string)
    requires word != "" && word[0] !in "(,-+*/&=<>ODSWU"
    requires word[0] == 'A' ==> |word| != 3
    requires word[0] == 'I' ==> word[1..] != "N"
    requires word[0] == 'L' ==> word[1..] != "IKE"
    requires word[0] == 'N' ==> word[1..] != "OT"
    ensures !IsOpener(Text(word))
  {
    assert "IN"[1..] == "N" && "LIKE"[1..] == "IKE" && "NOT"[1..] == "OT";
  }

  predicate IsSign(text: seq<Target>, i: nat)
    requires i < |text|
  {
    text[i] == Text("-") && (i == 0 || IsOpener(text[i - 1]))
  }

  predicate IsCallee(t: Target) {
    t.Text? && t.text != "" && (t.text[0] == '"' || t.text in ["left", "CAST", "tsql_coalesce"])
  }

  /** Whether the formats of the actions put a space in front of the i-th token. */
  predicate Spaced(text: seq<Target>, i: nat)
    requires 0 < i < |text|
  {
    && text[i - 1] != Text("(") && text[i] != Text(")") && text[i] != Text(",") && text[i] != Text(";")
    && !("::" <= TokenText(text[i]))
    && !(text[i] == Text("(") && IsCallee(text[i - 1]))
    && !IsSign(text, i - 1)
  }

  function SpellFrom(text: seq<Target>, i: nat): string
    requires i <= |text|
    decreases |text| - i
  {
    if i == |text| then ""
    else (if i > 0 && Spaced(text, i) then " " else "") + TokenText(text[i]) + SpellFrom(text, i + 1)
  }

  /** The string that a statement keeps of its condition. */
  function Spell(text: seq<Target>): string {
    SpellFrom(text, 0)
  }

  // ----- the formats -----

  function OpFormat(op: Op): string {
    match op
    case Sub => " - "
    case Add => " + "
    case Mul => " * "
    case Div => " / "
    case BitAnd => " & "
  }

  function ComparisonFormat(c: Comparison): string {
    match c
    case Equal => " = "
    case Less => " < "
    case LessEqual => " <= "
    case Greater => " > "
    case GreaterEqual => " >= "
    case Different => " <> "
  }

  /** table_name */
  function FormatTable(n: Name): string {
    match n
    case One(r) => "\"" + Lower(r) + "\""
    case Two(s, r) => "\"##DATABASE##." + Lower(s) + "\".\"" + Lower(r) + "\""
    case DefaultSchema(d, r) => "\"" + Lower(d) + ".dbo\".\"" + Lower(r) + "\""
    case Three(d, s, r) => "\"" + Lower(d) + "." + Lower(s) + "\".\"" + Lower(r) + "\""
  }

  /** field_name */
  function FormatField(f: FieldRef): string {
    match f
    case Column(c) => "\"" + Lower(c) + "\""
    case OfTable(t, c) => "\"" + Lower(t) + "\".\"" + Lower(c) + "\""
    case OfSchema(s, t, c) => "\"##DATABASE##." + Lower(s) + "\".\"" + Lower(t) + "\".\"" + Lower(c) + "\""
    case OfDatabase(d, s, t, c) =>
      "\"" + Lower(d) + "." + Lower(s) + "\".\"" + Lower(t) + "\".\"" + Lower(c) + "\""
  }

  function FormatType(t: TypeName): string {
    match t
    case Plain(n) => "tsql_" + n
    case Sized(n, a) => "tsql_" + n + "(" + a + ")"
    case Scaled(n, a, b) => "tsql_" + n + "(" + a + ", " + b + ")"
  }

  /** The string that the action of each form prints, given the list before it. */
  function Format(e: Expr, vars: seq<string>): string {
    match e
    case Paren(inner) => "(" + Format(inner, vars) + ")"
    case Binary(op, left, right) =>
      Format(left, vars) + OpFormat(op) + Format(right, Emit(left, vars).vars)
    case Integer(d) => d + "::tsql_int"
    case NegInteger(d) => "-" + d + "::tsql_int"
    case Decimal(d) => d + "::tsql_decimal"
    case NegDecimal(d) => "-" + d + "::tsql_decimal"
    case Literal(t) => "'" + t + "'" + "::tsql_varchar(" + DigitText.Digits(|t|) + ")"
    case NLiteral(t) => "'" + t + "'" + "::tsql_nvarchar(" + DigitText.Digits(|t|) + ")"
    case Null => "NULL::tsql_varchar"
    case Field(f) => FormatField(f)
    case Call0(n) => FormatTable(n) + "()"
    case Call(n, args) => FormatTable(n) + "(" + FormatArgs(args, vars) + ")"
    case LeftCall(args) => "left(" + FormatArgs(args, vars) + ")"
    case Cast(inner, t) => "CAST(" + Format(inner, vars) + (" AS " + FormatType(t) + ")")
    case Coalesce(a, b) => "tsql_coalesce(" + Format(a, vars) + ", " + Format(b, Emit(a, vars).vars) + ")"
    case Variable(v) => "$" + DigitText.Digits(IndexOf(vars, Lower(v)) + 1)
  }

  function FormatArgs(args: Args, vars: seq<string>): string {
    match args
    case Only(e) => Format(e, vars)
    case More(before, e) => FormatArgs(before, vars) + ", " + Format(e, EmitArgs(before, vars).vars)
  }

  function FormatCond(c: Cond, vars: seq<string>): string {
    match c
    case Compare(cmp, left, right) =>
      Format(left, vars) + ComparisonFormat(cmp) + Format(right, Emit(left, vars).vars)
    case InList(e, list) => Format(e, vars) + " IN (" + FormatArgs(list, Emit(e, vars).vars) + ")"
    case Like(e, pattern) => Format(e, vars) + " LIKE " + Format(pattern, Emit(e, vars).vars)
    case IsNull(e) => Format(e, vars) + " IS NULL"
    case IsNotNull(e) => Format(e, vars) + " IS NOT NULL"
    case And(a, b) => FormatCond(a, vars) + " AND " + FormatCond(b, EmitCond(a, vars).vars)
    case Or(a, b) => FormatCond(a, vars) + " OR " + FormatCond(b, EmitCond(a, vars).vars)
    case Not(inner) => "NOT " + FormatCond(inner, vars)
    case Group(inner) => "(" + FormatCond(inner, vars) + ")"
  }

  // ----- joining texts -----

  /** Whether a space goes between the end of one text and the start of another. */
  predicate Gap(a: seq<Target>, t: Target)
    requires a != []
  {
    Spaced(a + [t], |a|)
  }

  /** A sign at the front of more than itself stays one only behind an opener. */
  predicate Meets(a: seq<Target>, b: seq<Target>)
    requires a != [] && b != []
  {
    b[0] == Text("-") && |b| > 1 ==> IsOpener(a[|a| - 1])
  }

  lemma SpacedLeft(a: seq<Target>, b: seq<Target>, i: nat)
    requires 0 < i < |a|
    ensures Spaced(a + b, i) <==> Spaced(a, i)
  {
    var s := a + b;
    assert s[i] == a[i] && s[i - 1] == a[i - 1];
    if i > 1 {
      assert s[i - 2] == a[i - 2];
    }
  }

  lemma SpacedRight(a: seq<Target>, b: seq<Target>, j: nat)
    requires a != [] && 0 < j < |b| && Meets(a, b)
    ensures Spaced(a + b, |a| + j) <==> Spaced(b, j)
  {
    var s := a + b;
    assert s[|a| + j] == b[j] && s[|a| + j - 1] == b[j - 1];
    if j > 1 {
      assert s[|a| + j - 2] == b[j - 2];
    } else {
      assert s[|a| + j - 2] == a[|a| - 1];
    }
  }

  function Lead(text: seq<Target>, i: nat): string
    requires i < |text|
  {
    if i > 0 && Spaced(text, i) then " " else ""
  }

  lemma SpellStep(text: seq<Target>, i: nat)
    requires i < |text|
    ensures SpellFrom(text, i) == Lead(text, i) + TokenText(text[i]) + SpellFrom(text, i + 1)
  {
    hide Spaced, TokenText;
  }

  lemma SpellEnd(text: seq<Target>)
    ensures SpellFrom(text, |text|) == ""
  {
  }

  lemma {:induction false} SpellTail(a: seq<Target>, b: seq<Target>, j: nat)
    requires a != [] && 0 < j <= |b| && Meets(a, b)
    ensures SpellFrom(a + b, |a| + j) == SpellFrom(b, j)
    decreases |b| - j
  {
    hide Spaced, SpellFrom, Meets, TokenText;
    var s := a + b;
    if j == |b| {
      SpellEnd(s);
      SpellEnd(b);
    } else {
      SpacedRight(a, b, j);
      SpellTail(a, b, j + 1);
      SpellStep(s, |a| + j);
      SpellStep(b, j);
      assert s[|a| + j] == b[j];
    }
  }

  function GapText(a: seq<Target>, t: Target): string
    requires a != []
  {
    if Gap(a, t) then " " else ""
  }

  lemma SpellBorder(a: seq<Target>, b: seq<Target>)
    requires a != [] && b != [] && Meets(a, b)
    ensures SpellFrom(a + b, |a|) == GapText(a, b[0]) + Spell(b)
  {
    hide Spaced, SpellFrom, Meets, TokenText, Gap;
    var s := a + b;
    SpellTail(a, b, 1);
    GapSame(a, b);
    SpellStep(s, |a|);
    SpellStep(b, 0);
    assert s[|a|] == b[0];
    Assoc(GapText(a, b[0]), TokenText(b[0]), SpellFrom(b, 1));
    EmptyFront(TokenText(b[0]) + SpellFrom(b, 1));
    Assoc("", TokenText(b[0]), SpellFrom(b, 1));
  }

  lemma EmptyFront(s: string)
    ensures "" + s == s
  {
  }

  lemma GapSame(a: seq<Target>, b: seq<Target>)
    requires a != [] && b != []
    ensures Spaced(a + b, |a|) <==> Gap(a, b[0])
  {
    assert a + b == (a + [b[0]]) + b[1..];
    SpacedLeft(a + [b[0]], b[1..], |a|);
  }

  lemma {:induction false} SpellHead(a: seq<Target>, b: seq<Target>, i: nat)
    requires a != [] && b != [] && Meets(a, b) && i <= |a|
    ensures SpellFrom(a + b, i) == SpellFrom(a, i) + (GapText(a, b[0]) + Spell(b))
    decreases |a| - i
  {
    hide Spaced, GapText, Spell, SpellFrom, Meets, TokenText;
    var end := GapText(a, b[0]) + Spell(b);
    if i == |a| {
      SpellBorder(a, b);
      SpellEnd(a);
      EmptyFront(end);
    } else {
      if i > 0 {
        SpacedLeft(a, b, i);
      }
      SpellHead(a, b, i + 1);
      SpellStep(a + b, i);
      SpellStep(a, i);
      assert (a + b)[i] == a[i];
      Assoc(Lead(a, i) + TokenText(a[i]), SpellFrom(a, i + 1), end);
    }
  }

  /** The spelling of two texts in a row. */
  lemma SpellJoin(a: seq<Target>, b: seq<Target>)
    requires a != [] && b != [] && Meets(a, b)
    ensures Spell(a + b) == Spell(a) + GapText(a, b[0]) + Spell(b)
  {
    SpellHead(a, b, 0);
    Assoc(Spell(a), GapText(a, b[0]), Spell(b));
  }

  lemma SpellOne(t: Target)
    ensures Spell([t]) == TokenText(t)
  {
    assert SpellFrom([t], 1) == "";
    assert "" + TokenText(t) + "" == TokenText(t);
  }

  // ----- operands -----

  /** A first token that a space may stand in front of. */
  predicate Starts(t: Target) {
    t != Text(")") && t != Text(",") && t != Text(";") && !("::" <= TokenText(t))
  }

  /** What an expression or a condition emits: nothing is open at its end. */
  predicate Operand(text: seq<Target>) {
    && text != [] && Starts(text[0])
    && !IsOpener(text[|text| - 1])
  }

  /** A word between two texts. */
  predicate Infix(word: string) {
    word in ["-", "+", "*", "/", "&", "=", "<", "<=", ">", ">=", "<>", "LIKE", "AND", "OR", "WHERE", "UNION"]
  }

  lemma InfixWord(word: string)
    requires Infix(word)
    ensures IsOpener(Text(word)) && Starts(Text(word)) && word != "(" && !IsCallee(Text(word))
  {
    assert word[0] != ':';
  }

  lemma InfixBefore(a: seq<Target>, word: string)
    requires Operand(a) && Infix(word)
    ensures Gap(a, Text(word)) && Meets(a, [Text(word)])
  {
    hide Infix, IsOpener, IsCallee;
    InfixWord(word);
    SignOpens();
    var s := a + [Text(word)];
    assert s[|a|] == Text(word) && s[|a| - 1] == a[|a| - 1];
  }

  /** What would make a space go away behind a token is an opener. */
  lemma SignOpens()
    ensures IsOpener(Text("(")) && IsOpener(Text("-"))
  {
  }

  lemma InfixAfter(a: seq<Target>, word: string, b: seq<Target>)
    requires Operand(a) && Operand(b) && Infix(word)
    ensures Gap(a + [Text(word)], b[0]) && Meets(a + [Text(word)], b)
  {
    hide Infix, IsOpener, IsCallee;
    InfixWord(word);
    var t := a + [Text(word)] + [b[0]];
    assert t[|a| + 1] == b[0] && t[|a|] == Text(word) && t[|a| - 1] == a[|a| - 1];
  }

  /** a WORD b */
  lemma SpellInfix(a: seq<Target>, word: string, b: seq<Target>)
    requires Operand(a) && Operand(b) && Infix(word)
    ensures Operand(a + [Text(word)] + b)
    ensures Spell(a + [Text(word)] + b) == Spell(a) + (" " + word + " ") + Spell(b)
  {
    hide Spell, Gap, Meets, Operand, IsOpener, Infix;
    assert a != [] && b != [] by { OperandFull(a, b); }
    InfixBefore(a, word);
    InfixAfter(a, word, b);
    OperandEnds(a, [Text(word)], b);
    SpellJoin(a, [Text(word)]);
    SpellOne(Text(word));
    SpellJoin(a + [Text(word)], b);
    Assoc(Spell(a) + " ", word, " ");
    Assoc(Spell(a), " ", word + " ");
    Assoc(" ", word, " ");
  }

  lemma OperandFull(a: seq<Target>, b: seq<Target>)
    requires Operand(a) && Operand(b)
    ensures a != [] && b != []
  {
  }

  lemma OperandEnds(a: seq<Target>, mid: seq<Target>, b: seq<Target>)
    requires Operand(a) && Operand(b)
    ensures Operand(a + mid + b)
  {
    var s := a + mid + b;
    assert s[0] == a[0] && s[|s| - 1] == b[|b| - 1];
  }

  /** Something in parentheses, behind words that stand right in front of it. */
  lemma SpellParen(front: seq<Target>, inner: seq<Target>)
    requires front != [] && front[|front| - 1] == Text("(") && Operand(inner)
    ensures Spell(front + inner + [Text(")")]) == Spell(front) + Spell(inner) + ")"
  {
    hide Spell, Operand, Gap, Meets;
    ParenGaps(front, inner);
    SpellJoin(front, inner);
    SpellJoin(front + inner, [Text(")")]);
    SpellOne(Text(")"));
    assert Spell(front) + "" == Spell(front) && Spell(front + inner) + "" == Spell(front + inner);
  }

  lemma ParenGaps(front: seq<Target>, inner: seq<Target>)
    requires front != [] && front[|front| - 1] == Text("(") && Operand(inner)
    ensures inner != [] && !Gap(front, inner[0]) && !Gap(front + inner, Text(")"))
    ensures Meets(front, inner) && Meets(front + inner, [Text(")")])
  {
    hide IsOpener, IsCallee;
    SignOpens();
    var s := front + inner + [Text(")")];
    assert s[|front + inner|] == Text(")");
  }

  lemma ParenOperand(front: seq<Target>, inner: seq<Target>)
    requires front != [] && Starts(front[0])
    ensures Operand(front + inner + [Text(")")])
  {
    var s := front + inner + [Text(")")];
    assert s[0] == front[0] && s[|s| - 1] == Text(")");
  }

  // ----- single forms -----

  /** A token that is no part of the grammar's own spelling. */
  predicate Opaque(word: string) {
    word != "" && Starts(Text(word)) && !IsOpener(Text(word)) && word != "("
  }

  lemma SpellTyped(word: string, type_: string)
    requires Opaque(word) && "::" <= type_ && |type_| > 2
    ensures Operand(Texts([word, type_])) && Spell(Texts([word, type_])) == word + type_
  {
    hide Spell;
    var a, b := [Text(word)], [Text(type_)];
    assert Texts([word, type_]) == a + b;
    assert (a + b)[1] == b[0];
    TypeNoOpener(type_);
    SpellJoin(a, b);
    SpellOne(Text(word));
    SpellOne(Text(type_));
    assert word + "" == word;
  }

  lemma TypeNoOpener(type_: string)
    requires "::" <= type_
    ensures !IsOpener(Text(type_))
  {
    hide IsOpener;
    assert type_[0] == ':';
    NoOpener(type_);
  }

  lemma SpellSigned(digits: string, type_: string)
    requires Opaque(digits) && "::" <= type_ && |type_| > 2
    ensures Operand(Texts(["-", digits, type_])) && Spell(Texts(["-", digits, type_])) == "-" + digits + type_
  {
    hide Spell, Spaced;
    var a, b := [Text("-")], Texts([digits, type_]);
    assert Texts(["-", digits, type_]) == a + b;
    SpellTyped(digits, type_);
    SignGap(b);
    SpellJoin(a, b);
    SpellOne(Text("-"));
    assert (a + b)[0] == Text("-") && (a + b)[2] == b[1];
    assert "-" + "" == "-" && "-" + (digits + type_) == "-" + digits + type_;
    TypeNoOpener(type_);
  }

  lemma SignGap(b: seq<Target>)
    requires b != [] && b[0] != Text("-")
    ensures !Gap([Text("-")], b[0]) && Meets([Text("-")], b)
  {
    assert ([Text("-")] + [b[0]])[0] == Text("-");
  }

  lemma NumeralOpaque(digits: string)
    requires Numeral(digits)
    ensures Opaque(digits) && Text(digits) != Text("-")
  {
    hide IsOpener;
    assert '0' <= digits[0] <= '9' || digits[0] == '.';
    NoOpener(digits);
  }

  /** Quotes keep a token apart from the spelling. */
  lemma QuotedOpaque(word: string)
    requires word != "" && (word[0] == '"' || word[0] == '\'')
    ensures Opaque(word)
  {
    hide IsOpener;
    NoOpener(word);
  }

  lemma SpellSingle(word: string)
    requires Opaque(word)
    ensures Operand(Texts([word])) && Spell(Texts([word])) == word
  {
    assert Texts([word]) == [Text(word)];
    SpellOne(Text(word));
  }

  /** The head of a call. */
  lemma SpellHeadOf(name: string)
    requires name != "" && IsCallee(Text(name)) && Starts(Text(name)) && !IsOpener(Text(name))
    ensures Spell(Texts([name, "("])) == name + "("
  {
    hide Spell, IsOpener;
    var a, b := [Text(name)], [Text("(")];
    assert Texts([name, "("]) == a + b && (a + b)[1] == Text("(") && (a + b)[0] == Text(name);
    SpellJoin(a, b);
    SpellOne(Text(name));
    SpellOne(Text("("));
    assert name + "" == name;
  }

  /** name(inner) */
  lemma SpellCall(name: string, inner: seq<Target>)
    requires name != "" && IsCallee(Text(name)) && Starts(Text(name)) && !IsOpener(Text(name)) && Operand(inner)
    ensures Operand(Texts([name, "("]) + inner + Texts([")"]))
    ensures Spell(Texts([name, "("]) + inner + Texts([")"])) == name + "(" + Spell(inner) + ")"
  {
    hide Spell, Operand, IsOpener, IsCallee;
    var front := Texts([name, "("]);
    assert Texts([")"]) == [Text(")")] && front[1] == Text("(") && front[0] == Text(name);
    SpellHeadOf(name);
    SpellParen(front, inner);
    ParenOperand(front, inner);
  }

  lemma WordGap(a: seq<Target>, word: string)
    requires Operand(a) && Opaque(word)
    ensures Gap(a, Text(word))
  {
    hide IsOpener, IsCallee;
    SignOpens();
    var s := a + [Text(word)];
    assert s[|a|] == Text(word) && s[|a| - 1] == a[|a| - 1];
  }

  /** Words behind a text. */
  lemma SpellBehind(a: seq<Target>, b: seq<Target>, word: string)
    requires Operand(a) && b != [] && b[0] == Text(word) && Opaque(word)
    ensures Spell(a + b) == Spell(a) + " " + Spell(b)
  {
    hide Spell, Gap, IsOpener, IsCallee;
    WordGap(a, word);
    SignOpens();
    SpellJoin(a, b);
  }

  lemma TwoWords(v: string, w: string)
    requires Opaque(v) && Opaque(w)
    ensures Operand(Texts([v, w])) && Spell(Texts([v, w])) == v + " " + w
  {
    hide Spell, IsOpener, IsCallee, Starts;
    var a, b := [Text(v)], [Text(w)];
    assert Texts([v, w]) == a + b && (a + b)[1] == b[0] && (a + b)[0] == a[0];
    SpellBehind(a, b, w);
    SpellOne(Text(v));
    SpellOne(Text(w));
  }

  /** a, b */
  lemma SpellComma(a: seq<Target>, b: seq<Target>)
    requires Operand(a) && Operand(b)
    ensures Operand(a + Texts([","]) + b) && Spell(a + Texts([","]) + b) == Spell(a) + ", " + Spell(b)
  {
    hide Spell, Gap, Meets, Operand, IsOpener;
    assert Texts([","]) == [Text(",")];
    OperandFull(a, b);
    CommaGaps(a, b);
    OperandEnds(a, [Text(",")], b);
    SpellJoin(a, [Text(",")]);
    SpellOne(Text(","));
    SpellJoin(a + [Text(",")], b);
    Assoc(Spell(a), ",", " ");
    assert Spell(a) + "" == Spell(a) && "," + " " == ", ";
  }

  lemma CommaGaps(a: seq<Target>, b: seq<Target>)
    requires Operand(a) && Operand(b)
    ensures !Gap(a, Text(",")) && Gap(a + [Text(",")], b[0])
    ensures Meets(a, [Text(",")]) && Meets(a + [Text(",")], b)
  {
    hide IsOpener;
    assert IsOpener(Text(",")) by { CommaOpens(); }
    var s, t := a + [Text(",")], a + [Text(",")] + [b[0]];
    assert s[|a|] == Text(",");
    assert t[|a| + 1] == b[0] && t[|a|] == Text(",");
    assert !IsCallee(Text(","));
  }

  lemma CommaOpens()
    ensures IsOpener(Text(","))
  {
  }

  lemma TypeWord(t: TypeName)
    ensures Opaque("AS") && Opaque(TypeText(t))
  {
    var w := TypeText(t);
    assert w[0] == 't' && w[1] == 's' && w[4] == '_' && "AS"[0] == 'A';
    hide IsOpener;
    NoOpener(w);
    NoOpener("AS");
  }

  /** CAST(inner AS type) */
  lemma SpellCast(inner: seq<Target>, t: TypeName)
    requires Operand(inner)
    ensures var text := Texts(["CAST", "("]) + inner + Texts(["AS", TypeText(t), ")"]);
            Operand(text) && Spell(text) == "CAST(" + Spell(inner) + (" AS " + TypeText(t) + ")")
  {
    hide Spell, Operand, IsOpener, TypeText;
    var front, w := Texts(["CAST", "("]), TypeText(t);
    var mid := Texts(["AS", w]);
    TypeWord(t);
    TwoWords("AS", w);
    InnerWords(inner, mid);
    assert Texts(["AS", w, ")"]) == mid + [Text(")")];
    WordCallee();
    SpellHeadOf("CAST");
    assert front[0] == Text("CAST") && front[1] == Text("(");
    SpellParen(front, inner + mid);
    ParenOperand(front, inner + mid);
    Assoc(front, inner, mid);
    Assoc(front + inner, mid, [Text(")")]);
    CastText(Spell(inner), w);
  }

  lemma InnerWords(inner: seq<Target>, mid: seq<Target>)
    requires Operand(inner) && Operand(mid) && mid[0] == Text("AS")
    ensures Operand(inner + mid) && Spell(inner + mid) == Spell(inner) + " " + Spell(mid)
  {
    assert (inner + mid)[0] == inner[0] && (inner + mid)[|inner + mid| - 1] == mid[|mid| - 1];
    assert Opaque("AS");
    SpellBehind(inner, mid, "AS");
  }

  lemma CastText(inner: string, w: string)
    ensures "CAST" + "(" + (inner + " " + ("AS" + " " + w)) + ")" == "CAST(" + inner + (" AS " + w + ")")
  {
  }

  // ----- the spelling is what the formats print -----

  lemma {:induction false} SpellsExpr(e: Expr, vars: seq<string>)
    requires Clean(Lexemes(e))
    ensures Operand(Emit(e, vars).text) && Spell(Emit(e, vars).text) == Format(e, vars)
    decreases e
  {
    hide Spell, Operand, IsOpener, Clean, Opaque, IsCallee, Starts;
    hide FormatTable, TableName, TypeText, FormatType, OpFormat;
    match e
    case Paren(inner) =>
      CleanJoin([Sym('(')] + Lexemes(inner), [Sym(')')]);
      CleanJoin([Sym('(')], Lexemes(inner));
      SpellsExpr(inner, vars);
      SpellGroup(Emit(inner, vars).text);
    case Binary(op, left, right) =>
      CleanJoin(Lexemes(left) + [Sym(OpChar(op))], Lexemes(right));
      CleanJoin(Lexemes(left), [Sym(OpChar(op))]);
      SpellsExpr(left, vars);
      SpellsExpr(right, Emit(left, vars).vars);
      OpInfix(op);
      SpellInfix(Emit(left, vars).text, [OpChar(op)], Emit(right, Emit(left, vars).vars).text);
      assert Texts([[OpChar(op)]]) == [Text([OpChar(op)])];
    case Call(n, args) =>
      CleanJoin(NameLexemes(n) + [Sym('(')] + ArgLexemes(args), [Sym(')')]);
      CleanJoin(NameLexemes(n) + [Sym('(')], ArgLexemes(args));
      SpellsArgs(args, vars);
      SpellsCall(n, EmitArgs(args, vars).text);
    case LeftCall(args) =>
      CleanJoin([Kw(KwLeft), Sym('(')] + ArgLexemes(args), [Sym(')')]);
      CleanJoin([Kw(KwLeft), Sym('(')], ArgLexemes(args));
      SpellsArgs(args, vars);
      WordCallee();
      SpellCall("left", EmitArgs(args, vars).text);
    case Cast(inner, t) =>
      CleanJoin([Kw(KwCast), Sym('(')] + Lexemes(inner) + [Kw(KwAs)] + TypeLexemes(t), [Sym(')')]);
      CleanJoin([Kw(KwCast), Sym('(')] + Lexemes(inner) + [Kw(KwAs)], TypeLexemes(t));
      CleanJoin([Kw(KwCast), Sym('(')] + Lexemes(inner), [Kw(KwAs)]);
      CleanJoin([Kw(KwCast), Sym('(')], Lexemes(inner));
      SpellsExpr(inner, vars);
      TypeFormat(t);
      SpellCast(Emit(inner, vars).text, t);
    case Coalesce(a, b) =>
      CleanJoin([Kw(KwCoalesce), Sym('(')] + Lexemes(a) + [Sym(',')] + Lexemes(b), [Sym(')')]);
      CleanJoin([Kw(KwCoalesce), Sym('(')] + Lexemes(a) + [Sym(',')], Lexemes(b));
      CleanJoin([Kw(KwCoalesce), Sym('(')] + Lexemes(a), [Sym(',')]);
      CleanJoin([Kw(KwCoalesce), Sym('(')], Lexemes(a));
      SpellsExpr(a, vars);
      SpellsExpr(b, Emit(a, vars).vars);
      SpellCoalesce(Emit(a, vars).text, Emit(b, Emit(a, vars).vars).text);
    case Field(_) => SpellsNamed(e, vars);
    case Call0(_) => SpellsNamed(e, vars);
    case Variable(_) => SpellsNamed(e, vars);
    case _ => SpellsConstant(e, vars);
  }

  lemma SpellGroup(inner: seq<Target>)
    requires Operand(inner)
    ensures Operand(Texts(["("]) + inner + Texts([")"]))
    ensures Spell(Texts(["("]) + inner + Texts([")"])) == "(" + Spell(inner) + ")"
  {
    hide Spell, IsOpener;
    assert Texts(["("]) == [Text("(")] && Texts([")"]) == [Text(")")];
    SpellOne(Text("("));
    SpellParen([Text("(")], inner);
    ParenOperand([Text("(")], inner);
  }

  lemma TableFormat(n: Name)
    ensures TableName(LowerName(n)) == FormatTable(n)
  {
    hide Lower;
    match n
    case One(r) =>
    case Two(s, r) => QualifiedFormat("##DATABASE##", Lower(s), Lower(r), "\"##DATABASE##.");
    case DefaultSchema(d, r) =>
      QualifiedFormat(Lower(d), "dbo", Lower(r), "\"" + Lower(d) + ".");
      Assoc("\"" + Lower(d) + ".", "dbo", "\".\"");
      Assoc("\"" + Lower(d), ".", "dbo\".\"");
      assert "dbo" + "\".\"" == "dbo\".\"" && "." + "dbo\".\"" == ".dbo\".\"";
    case Three(d, s, r) => QualifiedFormat(Lower(d), Lower(s), Lower(r), "\"" + Lower(d) + ".");
  }

  lemma QualifiedFormat(d: string, s: string, r: string, front: string)
    requires front == "\"" + d + "."
    ensures Qualified(d, s, r) == front + s + "\".\"" + r + "\""
  {
    Assoc("\"", d + ".", s);
    Assoc("\"", d, ".");
  }

  lemma FieldFormat(f: FieldRef)
    ensures FieldText(f) == FormatField(f)
  {
    hide Lower;
    match f
    case Column(c) =>
    case OfTable(t, c) => QuotedFormat("\"" + Lower(t), Lower(c));
    case OfSchema(s, t, c) =>
      QualifiedFormat("##DATABASE##", Lower(s), Lower(t), "\"##DATABASE##.");
      QuotedFormat("\"##DATABASE##." + Lower(s) + "\".\"" + Lower(t), Lower(c));
    case OfDatabase(d, s, t, c) =>
      QualifiedFormat(Lower(d), Lower(s), Lower(t), "\"" + Lower(d) + ".");
      QuotedFormat("\"" + Lower(d) + "." + Lower(s) + "\".\"" + Lower(t), Lower(c));
  }

  lemma QuotedFormat(a: string, c: string)
    ensures a + "\"" + "." + Alone(c) == a + "\".\"" + c + "\""
  {
  }

  lemma TypeFormat(t: TypeName)
    ensures TypeText(t) == FormatType(t)
  {
  }

  lemma SpellsCall(n: Name, args: seq<Target>)
    requires Operand(args)
    ensures var text := Texts([TableName(LowerName(n)), "("]) + args + Texts([")"]);
            Operand(text) && Spell(text) == FormatTable(n) + "(" + Spell(args) + ")"
  {
    hide *;
    NameCallee(n);
    SpellCall(TableName(LowerName(n)), args);
    TableFormat(n);
  }

  lemma OpInfix(op: Op)
    ensures Infix([OpChar(op)]) && " " + [OpChar(op)] + " " == OpFormat(op)
  {
  }

  lemma NameCallee(n: Name)
    ensures var name := TableName(LowerName(n));
            name != "" && IsCallee(Text(name)) && Starts(Text(name)) && !IsOpener(Text(name))
  {
    var name := TableName(LowerName(n));
    assert name[0] == '"';
    QuotedOpaque(name);
  }

  predicate Callee(word: string) {
    IsCallee(Text(word)) && Starts(Text(word)) && !IsOpener(Text(word))
  }

  lemma WordCallee()
    ensures Callee("CAST") && Callee("left") && Callee("tsql_coalesce")
  {
    hide Callee;
    CastCallee();
    LeftCallee();
    CoalesceCallee();
  }

  lemma CastCallee()
    ensures Callee("CAST")
  {
    hide IsOpener;
    assert "CAST"[0] == 'C';
    NoOpener("CAST");
  }

  lemma LeftCallee()
    ensures Callee("left")
  {
    hide IsOpener;
    assert "left"[0] == 'l';
    NoOpener("left");
  }

  lemma CoalesceCallee()
    ensures Callee("tsql_coalesce")
  {
    hide IsOpener;
    assert "tsql_coalesce"[0] == 't';
    NoOpener("tsql_coalesce");
  }

  lemma SpellCoalesce(a: seq<Target>, b: seq<Target>)
    requires Operand(a) && Operand(b)
    ensures var text := Texts(["tsql_coalesce", "("]) + a + Texts([","]) + b + Texts([")"]);
            Operand(text) && Spell(text) == "tsql_coalesce(" + Spell(a) + ", " + Spell(b) + ")"
  {
    hide Spell, Operand, IsOpener, IsCallee, Starts;
    SpellComma(a, b);
    WordCallee();
    SpellCall("tsql_coalesce", a + Texts([","]) + b);
    Assoc(Texts(["tsql_coalesce", "("]), a + Texts([","]), b);
    Assoc(Texts(["tsql_coalesce", "("]), a, Texts([","]));
    assert "tsql_coalesce" + "(" == "tsql_coalesce(";
    Assoc("tsql_coalesce(", Spell(a) + ", ", Spell(b));
    Assoc("tsql_coalesce(", Spell(a), ", ");
  }

  /** Numbers, literals and NULL. */
  lemma SpellsConstant(e: Expr, vars: seq<string>)
    requires Clean(Lexemes(e)) && Emission.Leaf(e)
    ensures Operand(Emit(e, vars).text) && Spell(Emit(e, vars).text) == Format(e, vars)
  {
    hide Spell, Operand, IsOpener, Opaque, IsCallee, Starts, DigitText.Digits, LiteralTexts, CleanLexeme;
    match e
    case Integer(d) => SpellsNumber(Lexemes(e)[0], d, "::tsql_int");
    case NegInteger(d) => SpellsNegative(Lexemes(e)[1], d, "::tsql_int");
    case Decimal(d) => SpellsNumber(Lexemes(e)[0], d, "::tsql_decimal");
    case NegDecimal(d) => SpellsNegative(Lexemes(e)[1], d, "::tsql_decimal");
    case Literal(t) => SpellsText(e, vars, "tsql_varchar", "::tsql_varchar(");
    case NLiteral(t) => SpellsText(e, vars, "tsql_nvarchar", "::tsql_nvarchar(");
    case Null =>
      NullOpaque();
      SpellTyped("NULL", "::tsql_varchar");
  }

  lemma SpellsText(e: Expr, vars: seq<string>, type_: string, front: string)
    requires (e.Literal? && type_ == "tsql_varchar") || (e.NLiteral? && type_ == "tsql_nvarchar")
    requires front == "::" + type_ + "("
    ensures Operand(Emit(e, vars).text) && Spell(Emit(e, vars).text) == Format(e, vars)
  {
    hide Spell, Operand, LiteralTexts, DigitText.Digits;
    SpellsLiteral(e.text, type_);
    LiteralFormat(e.text, type_, front);
    assert "::" + "tsql_varchar" + "(" == "::tsql_varchar(" && "::" + "tsql_nvarchar" + "(" == "::tsql_nvarchar(";
  }

  lemma LiteralFormat(t: string, type_: string, front: string)
    requires front == "::" + type_ + "("
    ensures "'" + t + "'" + ("::" + type_ + "(" + DigitText.Digits(|t|) + ")")
         == "'" + t + "'" + front + DigitText.Digits(|t|) + ")"
  {
    hide DigitText.Digits;
    var q := "'" + t + "'";
    Assoc3(q, front, DigitText.Digits(|t|), ")");
    Assoc(front, DigitText.Digits(|t|), ")");
  }

  /** Columns, calls without parameters and variables. */
  lemma SpellsNamed(e: Expr, vars: seq<string>)
    requires e.Field? || e.Call0? || e.Variable?
    ensures Operand(Emit(e, vars).text) && Spell(Emit(e, vars).text) == Format(e, vars)
  {
    hide Spell, Operand, IsOpener, Opaque, IsCallee, Starts, DigitText.Digits, IndexOf, TableName, FieldText;
    hide FormatTable, FormatField;
    match e
    case Field(f) =>
      FieldFormat(f);
      FieldQuoted(f);
      QuotedOpaque(FieldText(f));
      SpellSingle(FieldText(f));
    case Call0(n) =>
      TableFormat(n);
      NameCallee(n);
      SpellNoArgs(TableName(LowerName(n)));
    case Variable(v) => SpellParam(IndexOf(vars, Lower(v)) + 1);
  }

  lemma SpellsNumber(l: Lexeme, digits: string, type_: string)
    requires CleanLexeme(l) && (l == LInteger(digits) || l == LDecimal(digits)) && "::" <= type_ && |type_| > 2
    ensures Operand(Texts([digits, type_])) && Spell(Texts([digits, type_])) == digits + type_
  {
    NumeralOpaque(digits);
    SpellTyped(digits, type_);
  }

  lemma SpellsNegative(l: Lexeme, digits: string, type_: string)
    requires CleanLexeme(l) && (l == LInteger(digits) || l == LDecimal(digits)) && "::" <= type_ && |type_| > 2
    ensures Operand(Texts(["-", digits, type_])) && Spell(Texts(["-", digits, type_])) == "-" + digits + type_
  {
    NumeralOpaque(digits);
    SpellSigned(digits, type_);
  }

  lemma SpellsLiteral(t: string, type_: string)
    ensures var words := LiteralTexts(t, type_);
            && Operand(Texts(words))
            && Spell(Texts(words)) == "'" + t + "'" + ("::" + type_ + "(" + DigitText.Digits(|t|) + ")")
  {
    hide *;
    var word, size := "'" + t + "'", "::" + type_ + "(" + DigitText.Digits(|t|) + ")";
    assert word[0] == '\'' by { QuoteFirst(t); }
    QuotedOpaque(word);
    TypePrefix(type_, DigitText.Digits(|t|));
    assert LiteralTexts(t, type_) == [word, size] by { LiteralWords(t, type_); }
    SpellTyped(word, size);
  }

  lemma LiteralWords(t: string, type_: string)
    ensures LiteralTexts(t, type_) == ["'" + t + "'", "::" + type_ + "(" + DigitText.Digits(|t|) + ")"]
  {
  }

  lemma QuoteFirst(t: string)
    ensures ("'" + t + "'")[0] == '\''
  {
  }

  lemma TypePrefix(type_: string, digits: string)
    ensures var s := "::" + type_ + "(" + digits + ")";
            "::" <= s && |s| > 2
  {
    Assoc3("::", type_, "(", digits + ")");
    Assoc("::" + type_ + "(", digits, ")");
    Cut("::", type_ + ("(" + (digits + ")")));
  }

  lemma NullOpaque()
    ensures Opaque("NULL")
  {
    assert "NULL"[0] == 'N' && "NULL"[1] == 'U';
  }

  lemma FieldQuoted(f: FieldRef)
    ensures FieldText(f) != "" && FieldText(f)[0] == '"'
  {
  }

  lemma SpellNoArgs(name: string)
    requires name != "" && IsCallee(Text(name)) && Starts(Text(name)) && !IsOpener(Text(name))
    ensures Operand(Texts([name, "(", ")"])) && Spell(Texts([name, "(", ")"])) == name + "()"
  {
    hide Spell, IsOpener, IsCallee, Starts;
    var front := Texts([name, "("]);
    var text := front + [Text(")")];
    assert Texts([name, "(", ")"]) == text && text[2] == Text(")") && text[0] == Text(name);
    SpellHeadOf(name);
    SignOpens();
    SpellJoin(front, [Text(")")]);
    SpellOne(Text(")"));
    assert !Gap(front, Text(")"));
    assert name + "(" + "" + ")" == name + "()";
    CloseOpensNothing();
  }

  lemma CloseOpensNothing()
    ensures !IsOpener(Text(")"))
  {
  }

  lemma SpellParam(k: nat)
    ensures Operand([Param(k)]) && Spell([Param(k)]) == "$" + DigitText.Digits(k)
  {
    SpellOne(Param(k));
    assert TokenText(Param(k))[0] == '$';
  }

  lemma {:induction false} SpellsArgs(args: Args, vars: seq<string>)
    requires Clean(ArgLexemes(args))
    ensures Operand(EmitArgs(args, vars).text) && Spell(EmitArgs(args, vars).text) == FormatArgs(args, vars)
    decreases args
  {
    hide Spell, Operand, Clean;
    match args
    case Only(e) => SpellsExpr(e, vars);
    case More(before, e) =>
      CleanJoin(ArgLexemes(before) + [Sym(',')], Lexemes(e));
      CleanJoin(ArgLexemes(before), [Sym(',')]);
      SpellsArgs(before, vars);
      SpellsExpr(e, EmitArgs(before, vars).vars);
      SpellComma(EmitArgs(before, vars).text, Emit(e, EmitArgs(before, vars).vars).text);
  }

  lemma ComparisonInfix(c: Comparison)
    ensures Infix(ComparisonText(c)) && Texts([ComparisonText(c)]) == [Text(ComparisonText(c))]
    ensures " " + ComparisonText(c) + " " == ComparisonFormat(c)
  {
  }

  /** e IN (list) */
  lemma SpellIn(e: seq<Target>, list: seq<Target>)
    requires Operand(e) && Operand(list)
    ensures var text := e + Texts(["IN", "("]) + list + Texts([")"]);
            Operand(text) && Spell(text) == Spell(e) + " IN (" + Spell(list) + ")"
  {
    hide Spell, Operand, IsOpener, IsCallee, Starts, Opaque;
    var head := Texts(["IN", "("]);
    InWords(e);
    assert Texts([")"]) == [Text(")")];
    SpellParen(e + head, list);
    ParenOperand(e + head, list);
    Assoc(Spell(e), " ", "IN (");
    assert " " + "IN (" == " IN (";
  }

  lemma InWords(e: seq<Target>)
    requires Operand(e)
    ensures var front := e + Texts(["IN", "("]);
            && front != [] && front[|front| - 1] == Text("(") && Starts(front[0])
            && Spell(front) == Spell(e) + " " + "IN ("
  {
    hide Spell, IsOpener, IsCallee;
    var a, b := [Text("IN")], [Text("(")];
    assert Texts(["IN", "("]) == a + b && (a + b)[0] == Text("IN");
    InGaps(e);
    SpellJoin(a, b);
    SpellOne(Text("IN"));
    SpellOne(Text("("));
    SpellJoin(e, a + b);
    assert "IN" + " " + "(" == "IN (";
    assert (e + (a + b))[0] == e[0];
  }

  /** IN is an opener, but no callee: a space goes in front of the parenthesis. */
  lemma InGaps(e: seq<Target>)
    requires Operand(e)
    ensures Gap([Text("IN")], Text("(")) && Gap(e, Text("IN"))
  {
    hide IsOpener;
    SignOpens();
    var s, t := [Text("IN")] + [Text("(")], e + [Text("IN")];
    assert s[0] == Text("IN") && s[1] == Text("(") && t[|e|] == Text("IN") && t[|e| - 1] == e[|e| - 1];
    assert "IN"[0] == 'I';
  }

  /** A word in front of an operand. */
  predicate Front(word: string) {
    word in ["NOT", "SELECT", "DISTINCT", "ALL"]
  }

  lemma FrontWord(word: string)
    requires Front(word)
    ensures IsOpener(Text(word)) && Starts(Text(word)) && word != "(" && word != "-" && !IsCallee(Text(word))
  {
    assert word[0] != ':' && word[0] != '"';
  }

  lemma SpellFront(word: string, inner: seq<Target>)
    requires Front(word) && Operand(inner)
    ensures Operand(Texts([word]) + inner) && Spell(Texts([word]) + inner) == word + " " + Spell(inner)
  {
    hide Spell, Front, IsOpener, IsCallee;
    FrontWord(word);
    SignOpens();
    var a := [Text(word)];
    assert Texts([word]) == a && (a + inner)[0] == a[0];
    assert (a + [inner[0]])[1] == inner[0] && (a + [inner[0]])[0] == a[0];
    assert (a + inner)[|a + inner| - 1] == inner[|inner| - 1];
    SpellJoin(a, inner);
    SpellOne(Text(word));
  }

  /** Behind NOT. */
  lemma SpellNot(inner: seq<Target>)
    requires Operand(inner)
    ensures Operand(Texts(["NOT"]) + inner) && Spell(Texts(["NOT"]) + inner) == "NOT " + Spell(inner)
  {
    hide Spell, Operand;
    SpellFront("NOT", inner);
    assert "NOT" + " " == "NOT ";
  }

  /** IS NULL and IS NOT NULL. */
  lemma SpellIsNull(e: seq<Target>)
    requires Operand(e)
    ensures Operand(e + Texts(["IS", "NULL"])) && Spell(e + Texts(["IS", "NULL"])) == Spell(e) + " IS NULL"
  {
    hide Spell, IsOpener, IsCallee;
    var tail := Texts(["IS", "NULL"]);
    NullWords();
    TwoWords("IS", "NULL");
    SpellBehind(e, tail, "IS");
    assert (e + tail)[0] == e[0] && (e + tail)[|e + tail| - 1] == tail[1];
    Assoc(Spell(e), " ", "IS NULL");
    assert "IS" + " " + "NULL" == "IS NULL" && " " + "IS NULL" == " IS NULL";
  }

  lemma NullWords()
    ensures Opaque("IS") && Opaque("NULL")
  {
    assert "IS"[0] == 'I' && "NULL"[0] == 'N' && "NULL"[1] == 'U';
  }

  lemma SpellIsNotNull(e: seq<Target>)
    requires Operand(e)
    ensures Operand(e + Texts(["IS", "NOT", "NULL"]))
    ensures Spell(e + Texts(["IS", "NOT", "NULL"])) == Spell(e) + " IS NOT NULL"
  {
    hide Spell, IsOpener, IsCallee, Starts, Opaque;
    var end, tail := [Text("NULL")], Texts(["IS", "NOT", "NULL"]);
    NullWords();
    NullOperand();
    SpellOne(Text("NULL"));
    SpellNot(end);
    var not := Texts(["NOT"]) + end;
    SpellIsNot(not);
    assert tail == [Text("IS")] + not;
    SpellBehind(e, tail, "IS");
    assert (e + tail)[0] == e[0] && (e + tail)[|e + tail| - 1] == tail[2] == Text("NULL");
    NotNullText(Spell(e));
  }

  lemma NotNullText(s: string)
    ensures s + " " + ("IS " + ("NOT " + "NULL")) == s + " IS NOT NULL"
  {
  }

  lemma NullOperand()
    ensures Operand([Text("NULL")])
  {
    NullOpaque();
  }

  lemma SpellIsNot(not: seq<Target>)
    requires not != [] && not[0] == Text("NOT")
    ensures Spell([Text("IS")] + not) == "IS " + Spell(not)
  {
    hide Spell;
    var a := [Text("IS")];
    assert (a + [not[0]])[1] == not[0] && (a + [not[0]])[0] == a[0];
    assert "IS"[0] == 'I' && "NOT"[0] == 'N';
    SpellJoin(a, not);
    SpellOne(Text("IS"));
    assert "IS" + " " == "IS ";
  }

  /** The string that exec_bool searches is the one that the actions' formats print. */
  lemma {:induction false} SpellsCond(c: Cond, vars: seq<string>)
    requires Clean(CondLexemes(c))
    ensures Operand(EmitCond(c, vars).text) && Spell(EmitCond(c, vars).text) == FormatCond(c, vars)
    decreases c
  {
    hide Spell, Operand, IsOpener, Clean, Opaque, IsCallee, Starts, Infix;
    hide Emit, EmitArgs, Lexemes, ArgLexemes, ComparisonText;
    match c
    case Compare(cmp, left, right) =>
      CleanJoin(Lexemes(left) + ComparisonLexemes(cmp), Lexemes(right));
      CleanJoin(Lexemes(left), ComparisonLexemes(cmp));
      SpellsExpr(left, vars);
      SpellsExpr(right, Emit(left, vars).vars);
      ComparisonInfix(cmp);
      SpellInfix(Emit(left, vars).text, ComparisonText(cmp), Emit(right, Emit(left, vars).vars).text);
    case InList(e, list) =>
      CleanJoin(Lexemes(e) + [Kw(KwIn), Sym('(')] + ArgLexemes(list), [Sym(')')]);
      CleanJoin(Lexemes(e) + [Kw(KwIn), Sym('(')], ArgLexemes(list));
      CleanJoin(Lexemes(e), [Kw(KwIn), Sym('(')]);
      SpellsExpr(e, vars);
      SpellsArgs(list, Emit(e, vars).vars);
      SpellIn(Emit(e, vars).text, EmitArgs(list, Emit(e, vars).vars).text);
    case Like(e, pattern) =>
      CleanJoin(Lexemes(e) + [Kw(KwLike)], Lexemes(pattern));
      CleanJoin(Lexemes(e), [Kw(KwLike)]);
      SpellsExpr(e, vars);
      SpellsExpr(pattern, Emit(e, vars).vars);
      SpellWord(Emit(e, vars).text, "LIKE", " LIKE ", Emit(pattern, Emit(e, vars).vars).text);
    case IsNull(e) =>
      CleanJoin(Lexemes(e), [Kw(KwIs), Kw(KwNull)]);
      SpellsExpr(e, vars);
      SpellIsNull(Emit(e, vars).text);
    case IsNotNull(e) =>
      CleanJoin(Lexemes(e), [Kw(KwIs), Kw(KwNot), Kw(KwNull)]);
      SpellsExpr(e, vars);
      SpellIsNotNull(Emit(e, vars).text);
    case And(a, b) =>
      CleanJoin(CondLexemes(a) + [Kw(KwAnd)], CondLexemes(b));
      CleanJoin(CondLexemes(a), [Kw(KwAnd)]);
      SpellsCond(a, vars);
      SpellsCond(b, EmitCond(a, vars).vars);
      SpellWord(EmitCond(a, vars).text, "AND", " AND ", EmitCond(b, EmitCond(a, vars).vars).text);
    case Or(a, b) =>
      CleanJoin(CondLexemes(a) + [Kw(KwOr)], CondLexemes(b));
      CleanJoin(CondLexemes(a), [Kw(KwOr)]);
      SpellsCond(a, vars);
      SpellsCond(b, EmitCond(a, vars).vars);
      SpellWord(EmitCond(a, vars).text, "OR", " OR ", EmitCond(b, EmitCond(a, vars).vars).text);
    case Not(inner) =>
      CleanJoin([Kw(KwNot)], CondLexemes(inner));
      SpellsCond(inner, vars);
      SpellNot(EmitCond(inner, vars).text);
    case Group(inner) =>
      CleanJoin([Sym('(')] + CondLexemes(inner), [Sym(')')]);
      CleanJoin([Sym('(')], CondLexemes(inner));
      SpellsCond(inner, vars);
      SpellGroup(EmitCond(inner, vars).text);
  }

  lemma SpellWord(a: seq<Target>, word: string, spaced: string, b: seq<Target>)
    requires Operand(a) && Operand(b) && (word == "LIKE" || word == "AND" || word == "OR") && spaced == " " + word + " "
    ensures Operand(a + Texts([word]) + b) && Spell(a + Texts([word]) + b) == Spell(a) + spaced + Spell(b)
  {
    hide Spell, Operand, IsOpener;
    assert Texts([word]) == [Text(word)];
    SpellInfix(a, word, b);
  }

  /** So conditions with the same lexemes print the same string, whatever their trees. */
  lemma FormatIgnoresTrees(a: Cond, b: Cond, vars: seq<string>)
    requires Clean(CondLexemes(a)) && CondLexemes(a) == CondLexemes(b)
    ensures FormatCond(a, vars) == FormatCond(b, vars)
  {
    hide FormatCond, EmitCond, Clean;
    Emission.EmissionIgnoresTrees(a, b, vars);
    SpellsCond(a, vars);
    SpellsCond(b, vars);
  }
}

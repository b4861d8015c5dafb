/**
 Object names: the splitter and printer of tsql_object_to_pg_object (types/misc.cc),
 and the names that the grammar emits (language/parse.y).
 */
module Names {
  import opened Bytes
  import opened Placeholder
  import opened Options

  // ----- the state machine of the splitter -----

  /** A part of the text, as offsets. */
  datatype Span = Span(start: nat, end: nat)

  datatype Split =
    | Parts(spans: seq<Span>)
    | Invalid        // elog(ERROR, "invalid object format")
    | Overrun        // a fourth part is written behind start[3] or end[3]

  datatype Mode = Between | Bare | Quoted | Closed

  /** One character; `i` is its position and `start` that of the part being read. */
  datatype Scanner = Scanner(mode: Mode, start: nat, spans: seq<Span>)

  datatype Move = Go(next: Scanner) | Stop(result: Split)

  function Advance(s: Scanner, c: char, i: nat): Move {
    match s.mode
    case Between =>
      if c == '.' then
        if |s.spans| == 3 then Stop(Invalid) else Go(Scanner(Between, 0, s.spans + [Span(i, i)]))
      else if |s.spans| == 3 then Stop(Overrun)
      else if c == '"' then Go(Scanner(Quoted, i + 1, s.spans))
      else Go(Scanner(Bare, i, s.spans))
    case Bare =>
      if c == '.' then Go(Scanner(Between, 0, s.spans + [Span(s.start, i)])) else Go(s)
    case Quoted =>
      if c == '"' then Go(Scanner(Closed, 0, s.spans + [Span(s.start, i)])) else Go(s)
    case Closed =>
      if c == '.' then Go(Scanner(Between, 0, s.spans)) else Stop(Invalid)
  }

  function Finish(s: Scanner, i: nat): Split {
    var spans := if s.mode.Bare? then s.spans + [Span(s.start, i)] else s.spans;
    if spans == [] then Invalid else Parts(spans)
  }

  /** The scan of what is left of the text, from position i. */
  function Scan(text: string, i: nat, s: Scanner): Split {
    if text == "" then Finish(s, i)
    else
      match Advance(s, text[0], i)
      case Stop(result) => result
      case Go(next) => Scan(text[1..], i + 1, next)
  }

  const START := Scanner(Between, 0, [])

  ghost predicate Stored(start: array<nat>, end: array<nat>, spans: seq<Span>)
    reads start, end
  {
    && start.Length == end.Length == 3 && |spans| <= 3
    && forall k :: 0 <= k < |spans| ==> spans[k] == Span(start[k], end[k])
  }

  /** The loop over the characters, with its two arrays of offsets. */
  method SplitName(text: string) returns (r: Split)
    ensures r == Scan(text, 0, START)
  {
    var start, end := new nat[3], new nat[3];
    var state, offsetCount, i := Between, 0, 0;
    ghost var s := START;
    assert text[0..] == text;
    while i < |text|
      invariant i <= |text|
      invariant s.mode == state && |s.spans| == offsetCount && Stored(start, end, s.spans)
      invariant (state.Bare? || state.Quoted?) ==> offsetCount < 3 && start[offsetCount] == s.start
      invariant Scan(text[i..], i, s) == Scan(text, 0, START)
      decreases |text| - i
    {
      var c := text[i];
      assert text[i..][0] == c && text[i..][1..] == text[i + 1..];
      ghost var step := Advance(s, c, i);
      match state {
      case Between =>
        if c == '.' {
          if offsetCount == 3 {
            return Invalid;
          }
          start[offsetCount], end[offsetCount] := i, i;
          offsetCount := offsetCount + 1;
        } else {
          if offsetCount == 3 {
            return Overrun;
          }
          start[offsetCount] := if c == '"' then i + 1 else i;
          state := if c == '"' then Quoted else Bare;
        }
      case Bare =>
        if c == '.' {
          end[offsetCount] := i;
          offsetCount := offsetCount + 1;
          state := Between;
        }
      case Quoted =>
        if c == '"' {
          end[offsetCount] := i;
          offsetCount := offsetCount + 1;
          state := Closed;
        }
      case Closed =>
        if c != '.' {
          return Invalid;
        }
        state := Between;
      }
      s := step.next;
      i := i + 1;
    }
    assert text[i..] == "";
    if state == Bare {
      end[offsetCount] := i;
      offsetCount := offsetCount + 1;
    }
    if offsetCount == 0 {
      return Invalid;
    }
    ghost var spans := if s.mode.Bare? then s.spans + [Span(s.start, i)] else s.spans;
    var out := Gather(start, end, offsetCount, spans);
    return Parts(out);
  }

  method Gather(start: array<nat>, end: array<nat>, n: nat, ghost spans: seq<Span>) returns (out: seq<Span>)
    requires n == |spans| && Stored(start, end, spans)
    ensures out == spans
  {
    out := [];
    for k := 0 to n
      invariant out == spans[..k]
    {
      out := out + [Span(start[k], end[k])];
    }
  }

  // ----- the printer -----

  function Lower(s: string): (r: string)
    ensures |r| == |s|
  {
    seq(|s|, i requires 0 <= i < |s| => LowerChar(s[i]))
  }

  function LowerChar(c: char): char {
    if 'A' <= c <= 'Z' then c - 'A' + 'a' else c
  }

  /** tolower, told by codes: 'A' to 'Z' are 65 to 90, and each small letter is 32 behind its capital. */
  lemma LowerExact(s: string, t: string)
    ensures Lower(s) == t
       <==> && |t| == |s|
            && forall i :: 0 <= i < |s| ==>
                 t[i] as int == if 65 <= s[i] as int <= 90 then s[i] as int + 32 else s[i] as int
  {
    forall i | 0 <= i < |s|
      ensures Lower(s)[i] as int == if 65 <= s[i] as int <= 90 then s[i] as int + 32 else s[i] as int
    {
      assert 'A' as int == 65 && 'Z' as int == 90 && 'a' as int == 97;
    }
  }

  function Text(text: string, s: Span): string
    requires s.start <= s.end <= |text|
  {
    text[s.start..s.end]
  }

  ghost predicate SpansIn(spans: seq<Span>, n: nat) {
    forall k :: 0 <= k < |spans| ==> spans[k].start <= spans[k].end <= n
  }

  /** "schema"."object" with both names in quotes. */
  function Qualified(database: string, schema: string, relation: string): string {
    "\"" + (database + "." + schema) + "\".\"" + relation + "\""
  }

  function Alone(relation: string): string {
    "\"" + relation + "\""
  }

  /** The printed name, before the final lower-casing: an empty middle part means the given schema. */
  function Print(text: string, spans: seq<Span>, database: string, schema: string): string
    requires 1 <= |spans| <= 3 && SpansIn(spans, |text|)
  {
    if |spans| == 1 then Alone(Text(text, spans[0]))
    else if |spans| == 2 then Qualified(database, Text(text, spans[0]), Text(text, spans[1]))
    else if spans[1].end == spans[1].start then Qualified(Text(text, spans[0]), schema, Text(text, spans[2]))
    else Qualified(Text(text, spans[0]), Text(text, spans[1]), Text(text, spans[2]))
  }

  lemma {:induction false} ScanSpans(text: string, i: nat, s: Scanner)
    requires |s.spans| <= 3 && SpansIn(s.spans, i)
    requires (s.mode.Bare? || s.mode.Quoted?) ==> s.start <= i && |s.spans| < 3
    ensures var r := Scan(text, i, s);
            r.Parts? ==> 1 <= |r.spans| <= 3 && SpansIn(r.spans, i + |text|)
  {
    if text != "" {
      match Advance(s, text[0], i)
      case Stop(_) =>
      case Go(next) => ScanSpans(text[1..], i + 1, next);
    }
  }

  /** What tsql_object_to_pg_object is for: split, print, lower-case; None for the error and overrun cases. */
  function Resolve(text: string, database: string, schema: string): Option<string> {
    match Scan(text, 0, START)
    case Parts(spans) =>
      ScanSpans(text, 0, START);
      Some(Lower(Print(text, spans, database, schema)))
    case _ => None
  }

  // ----- what the printer reads, allocates and sets -----

  /** A UTF-16 code unit. */
  function Unit(c: char): nat {
    c as int % 0x1_0000
  }

  /** VARSIZE applied to the characters themselves, as if their first two were the four-byte header; 32 bits wide. */
  function LengthRead(memory: string): nat
    requires |memory| >= 2
  {
    ((Unit(memory[0]) + 0x1_0000 * Unit(memory[1])) / 4 - 4) % 0x1_0000_0000 / 2
  }

  /** The characters copied as database and as schema. */
  datatype Copied = Copied(database: string, schema: string)

  /**
   What is copied from the memory behind the two pointers, each of which holds a name and
   whatever follows it.  The schema is read from its fifth character on.  None when the
   copy goes beyond the memory.
   */
  function CopiedFor(spans: seq<Span>, database: string, schema: string): Option<Copied> {
    if |spans| == 2 then
      if |database| >= 2 && LengthRead(database) <= |database|
      then Some(Copied(database[..LengthRead(database)], ""))
      else None
    else if |spans| == 3 && spans[1].end == spans[1].start then
      if |schema| >= 2 && 4 + LengthRead(schema) <= |schema|
      then Some(Copied("", schema[4..4 + LengthRead(schema)]))
      else None
    else Some(Copied("", ""))
  }

  /** palloc() refuses a gigabyte. */
  predicate Allocatable(size: int) {
    4 + 2 * size < 0x4000_0000
  }

  /** The number of characters given to SET_VARSIZE, by the characters copied as database and schema. */
  function SizeSet(text: string, spans: seq<Span>, database: string, schema: string): int
    requires 1 <= |spans| <= 3 && SpansIn(spans, |text|)
  {
    var a := spans[0].end - spans[0].start;
    if |spans| == 1 then 1 + a + 1
    else
      var b := spans[1].end - spans[1].start;
      if |spans| == 2 then 1 + |database| + 1 + a + 3 + b + 1
      else
        var c := spans[2].end - spans[2].start;
        if b == 0 then 1 + a + 1 + |schema| + 3 + c + 1 else 4 + a + 1 + b + 3 + c + 1
  }

  /** The size is that of the printed name, except that a full three-part name gets three characters too many. */
  lemma SizeExact(text: string, spans: seq<Span>, database: string, schema: string)
    requires 1 <= |spans| <= 3 && SpansIn(spans, |text|)
    ensures SizeSet(text, spans, database, schema)
         == |Print(text, spans, database, schema)| + (if |spans| == 3 && spans[1].end != spans[1].start then 3 else 0)
  {
  }

  /** append(): the characters go behind the `at` that are there already. */
  method Append(out: array<char>, at: nat, src: string) returns (next: nat)
    requires at + |src| <= out.Length
    modifies out
    ensures next == at + |src| && out[..next] == old(out[..at]) + src
  {
    var i := 0;
    while i < |src|
      invariant i <= |src|
      invariant out[..at + i] == old(out[..at]) + src[..i]
    {
      ghost var before := out[..at + i];
      out[at + i] := src[i];
      i := i + 1;
      assert out[..at + i] == before + [src[i - 1]];
      assert src[..i] == src[..i - 1] + [src[i - 1]];
    }
    next := at + |src|;
    assert src[..i] == src;
  }

  /** "schema"."object", appended piece by piece. */
  method AppendQualified(out: array<char>, database: string, schema: string, relation: string) returns (next: nat)
    requires |Qualified(database, schema, relation)| <= out.Length
    modifies out
    ensures next == |Qualified(database, schema, relation)| && out[..next] == Qualified(database, schema, relation)
  {
    next := AppendHead(out, database, schema);
    next := Append(out, next, "\".\"");
    next := Append(out, next, relation);
    next := Append(out, next, "\"");
  }

  method AppendHead(out: array<char>, database: string, schema: string) returns (next: nat)
    requires 2 + |database| + |schema| <= out.Length
    modifies out
    ensures next == 2 + |database| + |schema| && out[..next] == "\"" + (database + "." + schema)
  {
    next := Append(out, 0, "\"");
    next := Append(out, next, database);
    next := Append(out, next, ".");
    next := Append(out, next, schema);
    Assoc3("\"", database, ".", schema);
    Assoc(database, ".", schema);
  }

  /** tolower() on the low byte of a unit. */
  function LowerUnit(c: char): char {
    if 0x41 <= c as int % 0x100 <= 0x5A then (c as int + 0x20) as char else c
  }

  /** The high byte stays, and a capital in the low byte becomes its small letter. */
  lemma UnitLowered(c: char)
    ensures var u, l := c as int, LowerUnit(c) as int;
            && l / 0x100 == u / 0x100
            && l % 0x100 == if 65 <= u % 0x100 <= 90 then u % 0x100 + 32 else u % 0x100
  {
  }

  /** For characters of one byte that is tolower. */
  lemma UnitsOfBytes(s: string)
    requires forall i :: 0 <= i < |s| ==> (s[i] as int) < 0x100
    ensures LowerUnits(s) == Lower(s)
  {
  }

  function LowerUnits(s: string): (r: string)
    ensures |r| == |s|
  {
    seq(|s|, i requires 0 <= i < |s| => LowerUnit(s[i]))
  }

  /** The loop over the whole result, whatever it holds. */
  method LowerInPlace(out: array<char>)
    modifies out
    ensures out[..] == LowerUnits(old(out[..]))
  {
    var i := 0;
    while i < out.Length
      invariant i <= out.Length
      invariant forall k :: 0 <= k < i ==> out[k] == LowerUnit(old(out[k]))
      invariant forall k :: i <= k < out.Length ==> out[k] == old(out[k])
    {
      out[i] := LowerUnit(out[i]);
      i := i + 1;
    }
  }

  /**
   The printer: its result has the size that is set for it, and starts with the
   printed name in lower case.
   */
  method PrintName(text: string, spans: seq<Span>, database: string, schema: string) returns (out: array<char>)
    requires 1 <= |spans| <= 3 && SpansIn(spans, |text|)
    ensures fresh(out) && out.Length == SizeSet(text, spans, database, schema)
    ensures var name := LowerUnits(Print(text, spans, database, schema));
            |name| <= out.Length && out[..|name|] == name
  {
    hide SizeSet, LowerUnits, Print;
    SizeExact(text, spans, database, schema);
    var size := SizeSet(text, spans, database, schema);
    out := new char[size];
    var next := PrintParts(out, text, spans, database, schema);
    ghost var before := out[..];
    LowerInPlace(out);
    assert before[..next] == Print(text, spans, database, schema);
    LowerPrefix(before, next);
  }

  method PrintParts(out: array<char>, text: string, spans: seq<Span>, database: string, schema: string)
    returns (next: nat)
    requires 1 <= |spans| <= 3 && SpansIn(spans, |text|)
    requires |Print(text, spans, database, schema)| <= out.Length
    modifies out
    ensures next == |Print(text, spans, database, schema)| && out[..next] == Print(text, spans, database, schema)
  {
    hide Qualified;
    var first := Text(text, spans[0]);
    if |spans| == 1 {
      next := Append(out, 0, "\"");
      next := Append(out, next, first);
      next := Append(out, next, "\"");
    } else if |spans| == 2 {
      next := AppendQualified(out, database, first, Text(text, spans[1]));
    } else if spans[1].end == spans[1].start {
      next := AppendQualified(out, first, schema, Text(text, spans[2]));
    } else {
      next := AppendQualified(out, first, Text(text, spans[1]), Text(text, spans[2]));
    }
  }

  lemma LowerPrefix(s: string, n: nat)
    requires n <= |s|
    ensures LowerUnits(s)[..n] == LowerUnits(s[..n])
  {
  }

  /** The name that the function as written prints; None when it does not return. */
  function ResolveRead(text: string, database: string, schema: string): Option<string> {
    match Scan(text, 0, START)
    case Parts(spans) =>
      ScanSpans(text, 0, START);
      match CopiedFor(spans, database, schema) {
        case Some(c) =>
          if Allocatable(SizeSet(text, spans, c.database, c.schema))
          then Some(LowerUnits(Print(text, spans, c.database, c.schema)))
          else None
        case None => None
      }
    case _ => None
  }

  /** Three parts with something in the middle. */
  predicate FullThree(text: string) {
    var split := Scan(text, 0, START);
    split.Parts? && |split.spans| == 3 && split.spans[1].end != split.spans[1].start
  }

  /** A result of the function; a full three-part name ends in three characters that nobody wrote. */
  predicate Returned(text: string, database: string, schema: string, r: string) {
    var name := ResolveRead(text, database, schema);
    name.Some? && name.value <= r && |r| == |name.value| + (if FullThree(text) then 3 else 0)
  }

  /** The whole function, with the two lengths that it reads. */
  method ObjectName(text: string, database: string, schema: string) returns (r: Option<string>)
    ensures r.Some? <==> ResolveRead(text, database, schema).Some?
    ensures r.Some? ==> Returned(text, database, schema, r.value)
  {
    ScanSpans(text, 0, START);
    var split := SplitName(text);
    match split
    case Parts(spans) =>
      var copied := CopiedFor(spans, database, schema);
      if copied.None? {
        return None;
      }
      var c := copied.value;
      if !Allocatable(SizeSet(text, spans, c.database, c.schema)) {
        return None;
      }
      SizeExact(text, spans, c.database, c.schema);
      var out := PrintName(text, spans, c.database, c.schema);
      r := Some(out[..]);
    case _ => r := None;
  }

  /** A name of printable characters, and no longer than a quarter of a million of them (SQL Server allows 128). */
  predicate DatabaseName(name: string) {
    0 < |name| < 0x4_0000 && forall i :: 0 <= i < |name| ==> 0x20 <= name[i] as int < 0x1_0000
  }

  /** Behind the header of a varchar or nvarchar of n characters, of two bytes each, the length read is n. */
  lemma LengthMeant(memory: string, n: nat)
    requires |memory| >= 2 && n < 0x1000_0000
    requires Unit(memory[0]) + 0x1_0000 * Unit(memory[1]) == 4 * (4 + 2 * n)
    ensures LengthRead(memory) == n
  {
  }

  /** The length that is read is always more than that of the name, whatever the memory behind it holds. */
  lemma LengthReadIsWrong(name: string, memory: string)
    requires DatabaseName(name) && name <= memory && |memory| >= 2
    ensures LengthRead(memory) > |name|
  {
    var lo, hi := Unit(memory[0]), Unit(memory[1]);
    assert memory[0] == name[0] && lo == name[0] as int;
    if |name| >= 2 {
      assert memory[1] == name[1] && hi == name[1] as int;
    }
    HeaderRead(lo, hi);
  }

  lemma HeaderRead(lo: nat, hi: nat)
    requires 0x20 <= lo < 0x1_0000 && hi < 0x1_0000
    ensures ((lo + 0x1_0000 * hi) / 4 - 4) % 0x1_0000_0000 / 2 >= 2
    ensures hi >= 0x20 ==> ((lo + 0x1_0000 * hi) / 4 - 4) % 0x1_0000_0000 / 2 >= 0x4_0000
  {
    var header := lo + 0x1_0000 * hi;
    assert 4 <= header / 4 - 4 < 0x1_0000_0000;
    assert (header / 4 - 4) % 0x1_0000_0000 == header / 4 - 4;
  }

  // ----- the names of the grammar -----

  datatype Name =
    | One(relation: string)
    | Two(schema: string, relation: string)
    | DefaultSchema(database: string, relation: string)
    | Three(database: string, schema: string, relation: string)

  function LowerName(n: Name): Name {
    match n
    case One(relation) => One(Lower(relation))
    case Two(schema, relation) => Two(Lower(schema), Lower(relation))
    case DefaultSchema(database, relation) => DefaultSchema(Lower(database), Lower(relation))
    case Three(database, schema, relation) => Three(Lower(database), Lower(schema), Lower(relation))
  }

  /** The PostgreSQL name that it stands for when `current` is the current database. */
  function NameIn(n: Name, current: string): string {
    match n
    case One(relation) => Alone(relation)
    case Two(schema, relation) => Qualified(current, schema, relation)
    case DefaultSchema(database, relation) => Qualified(database, "dbo", relation)
    case Three(database, schema, relation) => Qualified(database, schema, relation)
  }

  /** table_name: the text that goes into the statement. */
  function TableName(n: Name): string {
    NameIn(n, PLACEHOLDER)
  }

  /** proc_name: a qualified system procedure loses its qualification. */
  function ProcName(n: Name): string {
    match n
    case One(_) => TableName(n)
    case _ => if "sp_" <= n.relation then Alone(n.relation) else TableName(n)
  }

  /** So procedures and tables are named alike exactly when the name is not a qualified system procedure. */
  lemma ProcNameExact(n: Name)
    ensures ProcName(n) == TableName(n) <==> n.One? || !("sp_" <= n.relation)
  {
    if !n.One? {
      assert |TableName(n)| > |Alone(n.relation)|;
    }
  }

  const BLANKS: string := " ;\t\r\n"

  datatype Form = AsIs | InQuotes | InBrackets

  /** A part of a name as written, with the white space around it. */
  datatype Part = Part(form: Form, text: string, before: string, after: string)

  function Core(p: Part): string {
    match p.form
    case AsIs => p.text
    case InQuotes => "\"" + p.text + "\""
    case InBrackets => "[" + p.text + "]"
  }

  function PartText(p: Part): string {
    p.before + Core(p) + p.after
  }

  predicate Blank(s: string) {
    forall i :: 0 <= i < |s| ==> s[i] in BLANKS
  }

  /** An identifier of the scanner: no dot, no quote, '#' at most in front, and blanks and brackets not in the open. */
  predicate Identifier(p: Part) {
    && p.text != "" && Blank(p.before) && Blank(p.after)
    && (forall i :: 0 <= i < |p.text| ==> p.text[i] != '.' && p.text[i] != '"')
    && (forall i :: 1 <= i < |p.text| ==> p.text[i] != '#')
    && (!p.form.InQuotes? ==> forall i :: 0 <= i < |p.text| ==> p.text[i] != '[' && p.text[i] != ']')
    && (p.form.AsIs? ==> forall i :: 0 <= i < |p.text| ==> p.text[i] !in BLANKS)
  }

  /** The keyword that the scanner hands over as the name "int". */
  predicate IsInteger(p: Part) {
    p.form.AsIs? && Lower(p.text) == "integer"
  }

  /** What the scanner makes of it: quotes and brackets are gone. */
  function Scanned(p: Part): string {
    if IsInteger(p) then "int" else p.text
  }

  /** INTEGER, in any case and alone, is the name "int" for the grammar, and itself for the splitter. */
  lemma IntegerScanned(text: string)
    requires Lower(text) == "integer"
    ensures Scanned(Part(AsIs, text, "", "")) == "int" && Scanned(Part(InQuotes, text, "", "")) == text
  {
  }

  /** A name as written; `gap` is the white space between two dots. */
  datatype Written =
    | W1(relation: Part)
    | W2(schema: Part, relation: Part)
    | WDefault(database: Part, gap: string, relation: Part)
    | W3(database: Part, schema: Part, relation: Part)

  function WrittenText(w: Written): string {
    match w
    case W1(o) => PartText(o)
    case W2(s, o) => PartText(s) + ("." + PartText(o))
    case WDefault(d, gap, o) => PartText(d) + ("." + (gap + ("." + PartText(o))))
    case W3(d, s, o) => PartText(d) + ("." + (PartText(s) + ("." + PartText(o))))
  }

  /** The grammar's identifiers, lower-cased by make_lower. */
  function NameOf(w: Written): Name {
    match w
    case W1(o) => One(Lower(Scanned(o)))
    case W2(s, o) => Two(Lower(Scanned(s)), Lower(Scanned(o)))
    case WDefault(d, _, o) => DefaultSchema(Lower(Scanned(d)), Lower(Scanned(o)))
    case W3(d, s, o) => Three(Lower(Scanned(d)), Lower(Scanned(s)), Lower(Scanned(o)))
  }

  function PartsOf(w: Written): seq<Part> {
    match w
    case W1(o) => [o]
    case W2(s, o) => [s, o]
    case WDefault(d, _, o) => [d, o]
    case W3(d, s, o) => [d, s, o]
  }

  ghost predicate ValidWritten(w: Written) {
    && (forall p :: p in PartsOf(w) ==> Identifier(p))
    && (w.WDefault? ==> Blank(w.gap))
  }

  // ----- scanning a written name -----

  /** Only a quote in front makes the splitter look for the closing one. */
  predicate Entered(p: Part) {
    p.form.InQuotes? && p.before == ""
  }

  /** Behind a closing quote it wants a dot or the end. */
  predicate Broken(p: Part) {
    Entered(p) && p.after != ""
  }

  /** What the splitter takes for the part. */
  function Kept(p: Part): string {
    if Entered(p) then p.text else PartText(p)
  }

  function SpanOf(p: Part, i: nat): Span {
    if Entered(p) then Span(i + 1, i + 1 + |p.text|) else Span(i, i + |PartText(p)|)
  }

  /** Characters inside a part leave the scanner as it is. */
  lemma {:induction false} ScanInside(inside: string, rest: string, i: nat, s: Scanner)
    requires s.mode.Bare? || s.mode.Quoted?
    requires forall k :: 0 <= k < |inside| ==> inside[k] != if s.mode.Bare? then '.' else '"'
    ensures Scan(inside + rest, i, s) == Scan(rest, i + |inside|, s)
  {
    if inside == "" {
      assert inside + rest == rest;
    } else {
      var text := inside + rest;
      assert text[0] == inside[0] && text[1..] == inside[1..] + rest;
      ScanInside(inside[1..], rest, i + 1, s);
    }
  }

  /** The scanner behind a part, in the mode that the part leaves it in. */
  function Behind(p: Part, i: nat, spans: seq<Span>): Scanner {
    if Entered(p) then Scanner(Closed, 0, spans + [SpanOf(p, i)]) else Scanner(Bare, i, spans)
  }

  /** There is no dot in a part, and one that is not entered starts with no quote. */
  lemma PartChars(p: Part)
    requires Identifier(p)
    ensures PartText(p) != "" && forall k :: 0 <= k < |PartText(p)| ==> PartText(p)[k] != '.'
    ensures !Entered(p) ==> PartText(p)[0] != '"'
  {
    assert forall c :: c in BLANKS ==> c != '.' && c != '"';
  }

  lemma ScanPart(p: Part, rest: string, i: nat, spans: seq<Span>)
    requires Identifier(p) && |spans| < 3 && !Broken(p)
    ensures Scan(PartText(p) + rest, i, Scanner(Between, 0, spans))
         == Scan(rest, i + |PartText(p)|, Behind(p, i, spans))
  {
    if Entered(p) {
      ScanQuoted(p, rest, i, spans);
      assert PartText(p) == "\"" + p.text + "\"";
    } else {
      hide PartText, Identifier;
      PartChars(p);
      ScanOpen(PartText(p), rest, i, spans);
    }
  }

  lemma ScanOpen(inside: string, rest: string, i: nat, spans: seq<Span>)
    requires inside != "" && inside[0] != '"' && |spans| < 3
    requires forall k :: 0 <= k < |inside| ==> inside[k] != '.'
    ensures Scan(inside + rest, i, Scanner(Between, 0, spans)) == Scan(rest, i + |inside|, Scanner(Bare, i, spans))
  {
    var text := inside + rest;
    assert text[0] == inside[0] && text[1..] == inside[1..] + rest;
    ScanInside(inside[1..], rest, i + 1, Scanner(Bare, i, spans));
  }

  lemma ScanQuoted(p: Part, rest: string, i: nat, spans: seq<Span>)
    requires Identifier(p) && |spans| < 3
    ensures Scan("\"" + p.text + "\"" + rest, i, Scanner(Between, 0, spans))
         == Scan(rest, i + |p.text| + 2, Scanner(Closed, 0, spans + [Span(i + 1, i + 1 + |p.text|)]))
  {
    var text, tail := "\"" + p.text + "\"" + rest, "\"" + rest;
    assert text[0] == '"' && text[1..] == p.text + tail;
    ScanInside(p.text, tail, i + 1, Scanner(Quoted, i + 1, spans));
    assert tail[0] == '"' && tail[1..] == rest;
  }

  /** White space behind a closing quote ends the scan. */
  lemma ScanBroken(p: Part, rest: string, i: nat, spans: seq<Span>)
    requires Identifier(p) && |spans| < 3 && Broken(p)
    ensures Scan(PartText(p) + rest, i, Scanner(Between, 0, spans)) == Invalid
  {
    var tail := p.after + rest;
    ScanQuoted(p, tail, i, spans);
    Assoc("\"" + p.text + "\"", p.after, rest);
    assert PartText(p) == "\"" + p.text + "\"" + p.after;
    assert tail[0] == p.after[0] && p.after[0] in BLANKS && '.' !in BLANKS;
  }

  lemma ScanPartDot(p: Part, rest: string, i: nat, spans: seq<Span>)
    requires Identifier(p) && |spans| < 3 && !Broken(p)
    ensures Scan(PartText(p) + ("." + rest), i, Scanner(Between, 0, spans))
         == Scan(rest, i + |PartText(p)| + 1, Scanner(Between, 0, spans + [SpanOf(p, i)]))
  {
    hide PartText, Identifier, Entered;
    var tail := "." + rest;
    ScanPart(p, tail, i, spans);
    assert tail[0] == '.' && tail[1..] == rest;
  }

  lemma ScanLast(p: Part, i: nat, spans: seq<Span>)
    requires Identifier(p) && |spans| < 3 && !Broken(p)
    ensures Scan(PartText(p), i, Scanner(Between, 0, spans)) == Parts(spans + [SpanOf(p, i)])
  {
    hide PartText, Identifier;
    ScanPart(p, "", i, spans);
    assert PartText(p) + "" == PartText(p);
  }

  /** Between two dots: nothing makes an empty part, white space a part of its own. */
  lemma ScanGapDot(gap: string, rest: string, i: nat, spans: seq<Span>)
    requires Blank(gap) && |spans| < 3
    ensures Scan(gap + ("." + rest), i, Scanner(Between, 0, spans))
         == Scan(rest, i + |gap| + 1, Scanner(Between, 0, spans + [Span(i, i + |gap|)]))
  {
    var tail := "." + rest;
    assert tail[0] == '.' && tail[1..] == rest;
    assert forall c :: c in BLANKS ==> c != '.' && c != '"';
    if gap == "" {
      assert gap + tail == tail;
    } else {
      ScanOpen(gap, tail, i, spans);
    }
  }

  /** A part's span cuts what is kept of it out of the whole. */
  lemma SpanCuts(before: string, p: Part, after: string)
    requires !Broken(p)
    ensures var text, s := before + PartText(p) + after, SpanOf(p, |before|);
            s.start <= s.end <= |text| && Text(text, s) == Kept(p)
  {
    Middle(before, PartText(p), after);
    var text := before + PartText(p) + after;
    if Entered(p) {
      assert PartText(p) == "\"" + p.text + "\"";
      SliceOfSlice(text, |before|, |PartText(p)|, 1, |p.text|);
      Middle("\"", p.text, "\"");
    }
  }

  // ----- the two resolvers agree -----

  lemma LowerJoin(a: string, b: string)
    ensures Lower(a + b) == Lower(a) + Lower(b)
  {
  }

  lemma LowerQualified(d: string, s: string, o: string)
    ensures Lower(Qualified(d, s, o)) == Qualified(Lower(d), Lower(s), Lower(o))
  {
    LowerJoin("\"" + (d + "." + s) + "\".\"" + o, "\"");
    LowerJoin("\"" + (d + "." + s) + "\".\"", o);
    LowerJoin("\"" + (d + "." + s), "\".\"");
    LowerJoin("\"", d + "." + s);
    LowerJoin(d + ".", s);
    LowerJoin(d, ".");
    assert Lower("\"") == "\"" && Lower(".") == "." && Lower("\".\"") == "\".\"";
  }

  lemma LowerAlone(o: string)
    ensures Lower(Alone(o)) == Alone(Lower(o))
  {
    LowerJoin("\"" + o, "\"");
    LowerJoin("\"", o);
    assert Lower("\"") == "\"";
  }

  /** Text without two '#' in a row holds no placeholder. */
  lemma NoHashPair(s: string)
    requires forall i :: 0 <= i < |s| - 1 ==> s[i] != '#' || s[i + 1] != '#'
    ensures Free(s)
  {
    forall i | 0 <= i
      ensures !StartsHere(s, i)
    {
      if i + SIZE <= |s| {
        var here := s[i..i + SIZE];
        assert here[0] == s[i] && here[1] == s[i + 1];
        assert PLACEHOLDER[0] == '#' && PLACEHOLDER[1] == '#';
      }
    }
  }

  predicate HashInFront(s: string) {
    forall i :: 1 <= i < |s| ==> s[i] != '#'
  }

  /** Text without two '#' in a row that does not end in one. */
  ghost predicate Settled(s: string) {
    (forall i :: 0 <= i < |s| - 1 ==> s[i] != '#' || s[i + 1] != '#') && (s != "" ==> s[|s| - 1] != '#')
  }

  lemma SettledJoin(a: string, part: string, mark: string)
    requires Settled(a) && HashInFront(part) && mark != "" && '#' !in mark
    ensures Settled(a + part + mark)
  {
    var s := a + part;
    assert forall i :: 0 <= i < |s| - 1 ==> s[i] != '#' || s[i + 1] != '#';
    assert forall i :: |s| <= i < |s + mark| ==> (s + mark)[i] == mark[i - |s|];
  }

  function AfterDatabase(s: string, o: string): string {
    "." + s + "\".\"" + o + "\""
  }

  lemma QualifiedParts(d: string, s: string, o: string)
    ensures Qualified(d, s, o) == "\"" + (d + AfterDatabase(s, o))
  {
    Assoc("\"", d + "." + s, "\".\"");
    Assoc("\"", d + "." + s + "\".\"", o);
    Assoc("\"", d + "." + s + "\".\"" + o, "\"");
    Assoc(d, ".", s);
    Assoc(d, "." + s, "\".\"");
    Assoc(d, "." + s + "\".\"", o);
    Assoc(d, "." + s + "\".\"" + o, "\"");
  }

  lemma ExpandTail(s: string, o: string, database: string)
    requires HashInFront(s) && HashInFront(o)
    ensures Settled(AfterDatabase(s, o)) && Expand(AfterDatabase(s, o), database) == AfterDatabase(s, o)
  {
    SettledJoin(".", s, "\".\"");
    SettledJoin("." + s + "\".\"", o, "\"");
    NoHashPair(AfterDatabase(s, o));
    ExpandFree(AfterDatabase(s, o), database);
  }

  lemma ExpandBehindPlaceholder(tail: string, database: string)
    ensures Expand("\"" + (PLACEHOLDER + tail), database) == "\"" + (database + Expand(tail, database))
  {
    var text, rest := "\"" + (PLACEHOLDER + tail), PLACEHOLDER + tail;
    Cut("\"", rest);
    Cut(PLACEHOLDER, tail);
    NotHere(text, 0);
    assert StartsHere(rest, 0);
  }

  lemma ExpandQualified(d: string, s: string, o: string, database: string)
    requires HashInFront(d) && HashInFront(s) && HashInFront(o)
    ensures Expand(Qualified(d, s, o), database) == Qualified(d, s, o)
  {
    var a := "\"" + d + ".";
    SettledJoin("\"", d, ".");
    SettledJoin(a, s, "\".\"");
    SettledJoin(a + s + "\".\"", o, "\"");
    assert Qualified(d, s, o) == a + s + "\".\"" + o + "\"" by {
      Assoc("\"", d, ".");
      Assoc("\"", d + ".", s);
    }
    NoHashPair(Qualified(d, s, o));
    ExpandFree(Qualified(d, s, o), database);
  }

  lemma ExpandCurrent(s: string, o: string, database: string)
    requires HashInFront(s) && HashInFront(o)
    ensures Expand(Qualified(PLACEHOLDER, s, o), database) == Qualified(database, s, o)
  {
    ExpandTail(s, o, database);
    ExpandBehindPlaceholder(AfterDatabase(s, o), database);
    QualifiedParts(PLACEHOLDER, s, o);
    QualifiedParts(database, s, o);
  }

  lemma ExpandAlone(o: string, database: string)
    requires HashInFront(o)
    ensures Expand(Alone(o), database) == Alone(o)
  {
    NoHashPair(Alone(o));
    ExpandFree(Alone(o), database);
  }

  predicate HashName(n: Name) {
    match n
    case One(o) => HashInFront(o)
    case Two(s, o) => HashInFront(s) && HashInFront(o)
    case DefaultSchema(d, o) => HashInFront(d) && HashInFront(o)
    case Three(d, s, o) => HashInFront(d) && HashInFront(s) && HashInFront(o)
  }

  /** Expanding what was emitted gives the name in the current database, and changes no other name. */
  lemma ExpandName(n: Name, current: string)
    requires HashName(n)
    ensures Expand(TableName(n), current) == NameIn(n, current)
  {
    hide Expand, Qualified;
    match n
    case One(o) => ExpandAlone(o, current);
    case Two(s, o) => ExpandCurrent(s, o, current);
    case DefaultSchema(d, o) =>
      assert HashInFront("dbo");
      ExpandQualified(d, "dbo", o, current);
    case Three(d, s, o) => ExpandQualified(d, s, o, current);
  }

  lemma LowerHash(s: string)
    ensures HashInFront(s) <==> HashInFront(Lower(s))
  {
    assert forall i :: 0 <= i < |s| ==> (Lower(s)[i] == '#' <==> s[i] == '#');
  }

  lemma NameOfHash(w: Written)
    requires ValidWritten(w)
    ensures HashName(NameOf(w))
  {
    forall p | p in PartsOf(w)
      ensures HashInFront(Lower(Scanned(p)))
    {
      LowerHash(Scanned(p));
    }
  }

  /** The name that the splitter reads; white space between two dots is a schema to it. */
  function KeptName(w: Written): Name {
    match w
    case W1(o) => One(Kept(o))
    case W2(s, o) => Two(Kept(s), Kept(o))
    case WDefault(d, gap, o) => if gap == "" then DefaultSchema(Kept(d), Kept(o)) else Three(Kept(d), gap, Kept(o))
    case W3(d, s, o) => Three(Kept(d), Kept(s), Kept(o))
  }

  ghost predicate AnyBroken(w: Written) {
    exists p :: p in PartsOf(w) && Broken(p)
  }

  lemma LowerNameIn(n: Name, current: string)
    requires Lower(current) == current
    ensures Lower(NameIn(n, current)) == NameIn(LowerName(n), current)
  {
    hide Qualified, Alone, Lower;
    match n
    case One(o) => LowerAlone(o);
    case Two(s, o) => LowerQualified(current, s, o);
    case DefaultSchema(d, o) =>
      LowerDbo();
      LowerQualified(d, "dbo", o);
    case Three(d, s, o) => LowerQualified(d, s, o);
  }

  lemma LowerDbo()
    ensures Lower("dbo") == "dbo"
  {
  }

  lemma ScanTwo(s: Part, o: Part, i: nat, spans: seq<Span>)
    requires Identifier(s) && Identifier(o) && !Broken(s) && !Broken(o) && |spans| < 2
    ensures Scan(PartText(s) + ("." + PartText(o)), i, Scanner(Between, 0, spans))
         == Parts(spans + [SpanOf(s, i)] + [SpanOf(o, i + |PartText(s)| + 1)])
  {
    hide PartText, SpanOf, Identifier, Broken, Scan;
    ScanPartDot(s, PartText(o), i, spans);
    ScanLast(o, i + |PartText(s)| + 1, spans + [SpanOf(s, i)]);
  }

  lemma ScanGapThen(gap: string, o: Part, i: nat, spans: seq<Span>)
    requires Identifier(o) && Blank(gap) && !Broken(o) && |spans| < 2
    ensures Scan(gap + ("." + PartText(o)), i, Scanner(Between, 0, spans))
         == Parts(spans + [Span(i, i + |gap|)] + [SpanOf(o, i + |gap| + 1)])
  {
    hide PartText, SpanOf, Identifier, Blank, Broken, Scan;
    ScanGapDot(gap, PartText(o), i, spans);
    ScanLast(o, i + |gap| + 1, spans + [Span(i, i + |gap|)]);
  }

  /** The first part and what follows it. */
  lemma FirstCuts(p: Part, after: string)
    requires !Broken(p)
    ensures var text, s := PartText(p) + after, SpanOf(p, 0);
            s.start <= s.end <= |text| && Text(text, s) == Kept(p)
  {
    SpanCuts("", p, after);
    assert "" + PartText(p) == PartText(p);
  }

  /** The last part and what precedes it. */
  lemma LastCuts(before: string, p: Part)
    requires !Broken(p)
    ensures var text, s := before + PartText(p), SpanOf(p, |before|);
            s.start <= s.end <= |text| && Text(text, s) == Kept(p)
  {
    SpanCuts(before, p, "");
    assert before + PartText(p) + "" == before + PartText(p);
  }

  lemma SpanFull(p: Part, i: nat)
    requires Identifier(p)
    ensures SpanOf(p, i).start < SpanOf(p, i).end
  {
  }

  /** The spans of a written name: as many as it has parts, and an empty one for the schema left out. */
  lemma ScanWritten(w: Written) returns (spans: seq<Span>)
    requires ValidWritten(w) && !AnyBroken(w)
    ensures Scan(WrittenText(w), 0, START) == Parts(spans)
    ensures 1 <= |spans| <= 3 && SpansIn(spans, |WrittenText(w)|)
    ensures |spans| == if w.W1? then 1 else if w.W2? then 2 else 3
    ensures |spans| == 3 ==> (spans[1].end == spans[1].start <==> w.WDefault? && w.gap == "")
    ensures forall current :: Print(WrittenText(w), spans, current, "dbo") == NameIn(KeptName(w), current)
  {
    hide Scan, PartText, SpanOf, Identifier, Broken, Text, Qualified, Alone, Entered;
    forall p | p in PartsOf(w)
      ensures !Broken(p) && Identifier(p)
    {
    }
    match w
    case W1(o) =>
      ScanLast(o, 0, []);
      spans := [] + [SpanOf(o, 0)];
      SpanCuts("", o, "");
      assert "" + PartText(o) + "" == PartText(o);
    case W2(s, o) =>
      ScanTwo(s, o, 0, []);
      spans := [] + [SpanOf(s, 0)] + [SpanOf(o, |PartText(s)| + 1)];
      FirstCuts(s, "." + PartText(o));
      Assoc(PartText(s), ".", PartText(o));
      LastCuts(PartText(s) + ".", o);
    case WDefault(d, gap, o) =>
      var i, tail := |PartText(d)| + 1, gap + ("." + PartText(o));
      ScanPartDot(d, tail, 0, []);
      ScanGapThen(gap, o, i, [] + [SpanOf(d, 0)]);
      spans := [] + [SpanOf(d, 0)] + [Span(i, i + |gap|)] + [SpanOf(o, i + |gap| + 1)];
      DefaultCuts(d, gap, o, i);
    case W3(d, s, o) =>
      var i, tail := |PartText(d)| + 1, PartText(s) + ("." + PartText(o));
      ScanPartDot(d, tail, 0, []);
      ScanTwo(s, o, i, [] + [SpanOf(d, 0)]);
      spans := [] + [SpanOf(d, 0)] + [SpanOf(s, i)] + [SpanOf(o, i + |PartText(s)| + 1)];
      ThreeCuts(d, s, o, i);
      SpanFull(s, i);
  }

  lemma Regroup5(a: string, b: string, c: string)
    ensures a + ("." + (b + ("." + c))) == a + "." + b + ("." + c) == a + "." + b + "." + c
  {
    Assoc(a + "." + b, ".", c);
    Assoc(a + ".", b, "." + c);
    Assoc(a, ".", b + ("." + c));
  }

  lemma DefaultCuts(d: Part, gap: string, o: Part, i: nat)
    requires !Broken(d) && !Broken(o) && i == |PartText(d)| + 1
    ensures var text := PartText(d) + ("." + (gap + ("." + PartText(o))));
            var s, t := SpanOf(d, 0), SpanOf(o, i + |gap| + 1);
            && s.start <= s.end <= |text| && t.start <= t.end <= |text| && i + |gap| <= |text|
            && Text(text, s) == Kept(d) && Text(text, t) == Kept(o) && Text(text, Span(i, i + |gap|)) == gap
  {
    hide PartText, SpanOf, Broken, Kept;
    Regroup5(PartText(d), gap, PartText(o));
    FirstCuts(d, "." + (gap + ("." + PartText(o))));
    Middle(PartText(d) + ".", gap, "." + PartText(o));
    LastCuts(PartText(d) + "." + gap + ".", o);
  }

  lemma ThreeCuts(d: Part, s: Part, o: Part, i: nat)
    requires !Broken(d) && !Broken(s) && !Broken(o) && i == |PartText(d)| + 1
    ensures var text := PartText(d) + ("." + (PartText(s) + ("." + PartText(o))));
            var x, y, z := SpanOf(d, 0), SpanOf(s, i), SpanOf(o, i + |PartText(s)| + 1);
            && x.start <= x.end <= |text| && y.start <= y.end <= |text| && z.start <= z.end <= |text|
            && Text(text, x) == Kept(d) && Text(text, y) == Kept(s) && Text(text, z) == Kept(o)
  {
    hide PartText, SpanOf, Broken, Kept;
    var a, b, c := PartText(d), PartText(s), PartText(o);
    Regroup5(a, b, c);
    FirstCuts(d, "." + (b + ("." + c)));
    SpanCuts(a + ".", s, "." + c);
    LastCuts(a + "." + b + ".", o);
  }

  /** The intended form of the run-time function gives the name that the splitter reads, in lower case. */
  lemma ResolvesTo(w: Written, database: string)
    requires ValidWritten(w) && !AnyBroken(w) && Lower(database) == database
    ensures Resolve(WrittenText(w), database, "dbo") == Some(NameIn(LowerName(KeptName(w)), database))
  {
    hide Scan, WrittenText, Print, NameIn, KeptName, ValidWritten, AnyBroken, LowerName, Lower;
    var spans := ScanWritten(w);
    LowerNameIn(KeptName(w), database);
  }

  /** White space behind a closing quote: neither form returns anything. */
  lemma BrokenScans(w: Written)
    requires ValidWritten(w) && AnyBroken(w)
    ensures Scan(WrittenText(w), 0, START) == Invalid
  {
    hide PartText, SpanOf, Identifier, Broken, Scan;
    match w
    case W1(o) =>
      ScanBroken(o, "", 0, []);
      assert PartText(o) + "" == PartText(o);
    case W2(s, o) => BrokenTwo(s, o, 0, []);
    case WDefault(d, gap, o) =>
      var tail := gap + ("." + PartText(o));
      if Broken(d) {
        ScanBroken(d, "." + tail, 0, []);
      } else {
        var i, spans := |PartText(d)| + 1, [] + [SpanOf(d, 0)];
        ScanPartDot(d, tail, 0, []);
        ScanGapDot(gap, PartText(o), i, spans);
        ScanBroken(o, "", i + |gap| + 1, spans + [Span(i, i + |gap|)]);
        assert PartText(o) + "" == PartText(o);
      }
    case W3(d, s, o) =>
      var tail := PartText(s) + ("." + PartText(o));
      if Broken(d) {
        ScanBroken(d, "." + tail, 0, []);
      } else {
        ScanPartDot(d, tail, 0, []);
        BrokenTwo(s, o, |PartText(d)| + 1, [] + [SpanOf(d, 0)]);
      }
  }

  lemma BrokenTwo(s: Part, o: Part, i: nat, spans: seq<Span>)
    requires Identifier(s) && Identifier(o) && (Broken(s) || Broken(o)) && |spans| < 2
    ensures Scan(PartText(s) + ("." + PartText(o)), i, Scanner(Between, 0, spans)) == Invalid
  {
    hide PartText, SpanOf, Identifier, Broken, Scan;
    if Broken(s) {
      ScanBroken(s, "." + PartText(o), i, spans);
    } else {
      ScanPartDot(s, PartText(o), i, spans);
      ScanBroken(o, "", i + |PartText(s)| + 1, spans + [SpanOf(s, i)]);
      assert PartText(o) + "" == PartText(o);
    }
  }

  // ----- which written names the two read alike -----

  /** Not in brackets, with no white space around it, and not the keyword. */
  predicate ReadAlike(p: Part) {
    !p.form.InBrackets? && p.before == "" && p.after == "" && !IsInteger(p)
  }

  ghost predicate AllReadAlike(w: Written) {
    (forall p :: p in PartsOf(w) ==> ReadAlike(p)) && (w.WDefault? ==> w.gap == "")
  }

  /** What the splitter takes for a part is longer than what the scanner makes of it, or the same. */
  lemma KeptExact(p: Part)
    requires Identifier(p) && !Broken(p)
    ensures |Kept(p)| >= |Scanned(p)| && (|Kept(p)| == |Scanned(p)| <==> ReadAlike(p))
    ensures ReadAlike(p) ==> Kept(p) == Scanned(p)
  {
    if ReadAlike(p) {
      assert PartText(p) == Core(p);
    }
    if IsInteger(p) {
      assert |p.text| == |Lower(p.text)| == 7;
    }
  }

  /** The size of the name; `gap` counts for the schema that is left out. */
  lemma NameSize(w: Written, current: string)
    requires ValidWritten(w) && !AnyBroken(w)
    ensures var kept, meant := NameIn(LowerName(KeptName(w)), current), NameIn(NameOf(w), current);
            && |kept| + (if w.WDefault? && w.gap != "" then 2 else 0) >= |meant|
            && (AllReadAlike(w) ==> kept == meant)
            && (|kept| == |meant| && !(w.WDefault? && w.gap != "") ==> AllReadAlike(w))
  {
    hide Kept, Scanned, Identifier, Broken, ReadAlike, Lower;
    forall p | p in PartsOf(w)
      ensures |Kept(p)| >= |Scanned(p)| && (|Kept(p)| == |Scanned(p)| <==> ReadAlike(p))
      ensures ReadAlike(p) ==> Kept(p) == Scanned(p)
    {
      KeptExact(p);
    }
  }

  lemma DotAt(x: string, y: string)
    requires '.' !in x
    ensures var s := x + ("." + y);
            s[|x|] == '.' && s[|x| + 1..] == y && forall i :: 0 <= i < |x| ==> s[i] != '.'
  {
  }

  lemma FirstDot(x: string, y: string, x': string, y': string)
    requires '.' !in x && '.' !in x' && x + ("." + y) == x' + ("." + y')
    ensures |x| == |x'| && y == y'
  {
    DotAt(x, y);
    DotAt(x', y');
  }

  /** White space between two dots is not the schema dbo, whatever the sizes. */
  lemma GapDiffers(d: string, gap: string, o: string, d': string, o': string)
    requires '.' !in d && '.' !in d' && gap != "" && Blank(gap)
    ensures Qualified(d, gap, o) != Qualified(d', "dbo", o')
  {
    hide Qualified;
    var y, y' := gap + ("\".\"" + o + "\""), "dbo" + ("\".\"" + o' + "\"");
    QualifiedDots(d, gap, o);
    QualifiedDots(d', "dbo", o');
    assert y[0] == gap[0] && gap[0] in BLANKS && y'[0] == 'd' && 'd' !in BLANKS;
    if Qualified(d, gap, o) == Qualified(d', "dbo", o') {
      FirstDot("\"" + d, y, "\"" + d', y');
    }
  }

  lemma QualifiedDots(d: string, s: string, o: string)
    ensures Qualified(d, s, o) == ("\"" + d) + ("." + (s + ("\".\"" + o + "\"")))
  {
    Assoc("\"", d, "." + s);
    Assoc(d, ".", s);
    Assoc("\"" + d, ".", s);
    Assoc3("\"" + d + "." + s, "\".\"", o, "\"");
    Assoc3("\".\"", o, "\"", "");
    Assoc("\"" + d + ".", s, "\".\"" + o + "\"");
    Assoc("\"" + d, ".", s + ("\".\"" + o + "\""));
  }

  lemma NoDots(p: Part)
    requires Identifier(p)
    ensures '.' !in Lower(Kept(p)) && '.' !in Lower(Scanned(p))
  {
    hide PartText;
    PartChars(p);
    assert forall c :: LowerChar(c) == '.' ==> c == '.';
  }

  lemma KeptMeant(w: Written, current: string)
    requires ValidWritten(w) && !AnyBroken(w)
    ensures NameIn(LowerName(KeptName(w)), current) == NameIn(NameOf(w), current) <==> AllReadAlike(w)
  {
    hide Kept, Scanned, Identifier, Broken, ReadAlike, Lower, Qualified, Blank;
    NameSize(w, current);
    if w.WDefault? && w.gap != "" {
      assert w.database in PartsOf(w);
      NoDots(w.database);
      LowerBlank(w.gap);
      GapDiffers(Lower(Kept(w.database)), Lower(w.gap), Lower(Kept(w.relation)),
                 Lower(Scanned(w.database)), Lower(Scanned(w.relation)));
    }
  }

  lemma LowerBlank(s: string)
    requires Blank(s)
    ensures Lower(s) == s
  {
  }

  /**
   The run-time function, as it is meant, and the translator name the same relation for
   exactly the names that have no part in brackets, no white space and no part INTEGER:
   there, splitting and printing equals emitting and expanding the placeholder.
   */
  lemma ResolversAgree(w: Written, database: string)
    requires ValidWritten(w) && Lower(database) == database
    ensures Resolve(WrittenText(w), database, "dbo") == Some(Expand(TableName(NameOf(w)), database))
       <==> AllReadAlike(w)
  {
    hide Scan, Expand, TableName, NameIn, WrittenText, ValidWritten, AllReadAlike, Lower;
    NameOfHash(w);
    ExpandName(NameOf(w), database);
    if AnyBroken(w) {
      BrokenScans(w);
      BrokenDiffers(w);
    } else {
      ResolvesTo(w, database);
      KeptMeant(w, database);
    }
  }

  lemma BrokenDiffers(w: Written)
    requires AnyBroken(w)
    ensures !AllReadAlike(w)
  {
  }

  // ----- as written they agree on one-part names only -----

  /** What is returned for a name of two or three parts is longer than it should be. */
  lemma LengthDiffers(w: Written, name: string, database: string, schema: string, r: string)
    requires ValidWritten(w) && !AnyBroken(w) && !w.W1?
    requires DatabaseName(name) && name <= database && "dbo" <= schema
    requires Returned(WrittenText(w), database, schema, r)
    ensures var n := |NameIn(LowerName(KeptName(w)), name)|;
            if w.WDefault? && w.gap != "" then |r| == n + 3 else |r| > n
  {
    hide Scan, WrittenText, LengthRead, Print, NameIn, KeptName, LowerName, Lower, ValidWritten, AnyBroken;
    var text := WrittenText(w);
    var spans := ScanWritten(w);
    ScanSpans(text, 0, START);
    LowerSize(KeptName(w), name);
    var c := CopiedFor(spans, database, schema).value;
    SizeExact(text, spans, name, "dbo");
    SizeExact(text, spans, c.database, c.schema);
    if w.W2? {
      LengthReadIsWrong(name, database);
    } else if w.WDefault? && w.gap == "" {
      LengthReadIsWrong("dbo", schema);
    }
  }

  lemma LowerSize(n: Name, current: string)
    ensures |NameIn(LowerName(n), current)| == |NameIn(n, current)|
  {
    hide Lower;
  }

  /** Whether the low byte of a character is a capital only in the capitals themselves. */
  predicate FoldsAlike(s: string) {
    forall i :: 0 <= i < |s| ==> LowerUnit(s[i]) == LowerChar(s[i])
  }

  lemma FoldAlone(o: string)
    ensures LowerUnits(Alone(o)) == Lower(Alone(o)) <==> FoldsAlike(o)
  {
    var s := Alone(o);
    assert s[0] == '"' && s[|s| - 1] == '"' && LowerUnit('"') == LowerChar('"');
    assert forall i :: 0 <= i < |o| ==> s[i + 1] == o[i];
    if LowerUnits(s) == Lower(s) {
      forall i | 0 <= i < |o|
        ensures LowerUnit(o[i]) == LowerChar(o[i])
      {
        assert LowerUnits(s)[i + 1] == Lower(s)[i + 1];
      }
    }
  }

  /** A name of one part comes back as the splitter reads it. */
  lemma OnePartRead(o: Part, database: string, schema: string, r: string)
    requires Identifier(o) && !Broken(o) && Returned(PartText(o), database, schema, r)
    ensures r == LowerUnits(Alone(Kept(o)))
  {
    hide Scan, PartText, Text, LowerUnits, SizeSet, Kept, SpanOf, Identifier, Broken;
    ScanLast(o, 0, []);
    SpanCuts("", o, "");
    assert "" + PartText(o) + "" == PartText(o) && [] + [SpanOf(o, 0)] == [SpanOf(o, 0)];
    assert ResolveRead(PartText(o), database, schema) == Some(LowerUnits(Alone(Kept(o))));
  }

  lemma OnePartExact(o: Part, database: string, schema: string, r: string)
    requires Identifier(o) && !Broken(o) && Returned(PartText(o), database, schema, r)
    ensures |r| == |Alone(Lower(Scanned(o)))| <==> ReadAlike(o)
    ensures r == Alone(Lower(Scanned(o))) <==> ReadAlike(o) && FoldsAlike(o.text)
  {
    hide PartText, Returned, Identifier, Broken, FoldsAlike, LowerUnits, Lower;
    OnePartRead(o, database, schema, r);
    KeptExact(o);
    FoldAlone(o.text);
    LowerAlone(o.text);
  }

  /**
   As written, the run-time function and the translator agree on exactly the names of
   one part that is neither in brackets nor among white space nor INTEGER, and no other
   result has even the right length: whatever it returns, whatever the memory behind the
   database and the schema holds.
   */
  lemma AgreeAsWritten(w: Written, name: string, database: string, schema: string, r: string)
    requires ValidWritten(w) && Lower(name) == name && DatabaseName(name)
    requires name <= database && "dbo" <= schema
    requires Returned(WrittenText(w), database, schema, r)
    ensures |r| == |Expand(TableName(NameOf(w)), name)| <==> w.W1? && ReadAlike(w.relation)
    ensures r == Expand(TableName(NameOf(w)), name)
       <==> w.W1? && ReadAlike(w.relation) && FoldsAlike(w.relation.text)
  {
    hide Expand, FoldsAlike, Lower, Identifier, TableName, ReadAlike, Scanned, Kept, Broken, Scan, LengthRead;
    NameOfHash(w);
    ExpandName(NameOf(w), name);
    if AnyBroken(w) {
      BrokenScans(w);
      assert false;
    }
    if w.W1? {
      assert w.relation in PartsOf(w);
      OnePartExact(w.relation, database, schema, r);
    } else {
      LengthDiffers(w, name, database, schema, r);
      NameSize(w, name);
    }
  }
}

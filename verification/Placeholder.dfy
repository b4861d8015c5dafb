/**
 The expansion of ##DATABASE## in language/exec.cc: the in-place loop of exec_int,
 exec_ext and exec_cmd, and the one of exec_bool.
 */
module Placeholder {
  import Bytes
  import opened Options

  const PLACEHOLDER: string := "##DATABASE##"
  const SIZE: nat := 12

  predicate StartsHere(s: string, i: nat) {
    i + SIZE <= |s| && s[i..i + SIZE] == PLACEHOLDER
  }

  /** string::find: the first occurrence at `pos` or later, or -1. */
  function Find(s: string, pos: nat): (r: int)
    ensures r == -1 || pos <= r < |s|
    ensures r >= 0 ==> StartsHere(s, r)
    ensures forall i :: pos <= i && (r == -1 || i < r) ==> !StartsHere(s, i)
    decreases |s| - pos
  {
    if pos + SIZE > |s| then -1
    else if StartsHere(s, pos) then pos
    else Find(s, pos + 1)
  }

  /** One left-to-right pass over the original text. */
  function Expand(s: string, database: string): string {
    if s == "" then ""
    else if StartsHere(s, 0) then database + Expand(s[SIZE..], database)
    else [s[0]] + Expand(s[1..], database)
  }

  /** The matches of that pass. */
  function Matches(s: string): nat {
    if s == "" then 0
    else if StartsHere(s, 0) then 1 + Matches(s[SIZE..])
    else Matches(s[1..])
  }

  ghost predicate Free(s: string) {
    forall i :: 0 <= i ==> !StartsHere(s, i)
  }

  lemma StartsInTail(s: string, k: nat, i: nat)
    requires k <= |s|
    ensures StartsHere(s[k..], i) <==> StartsHere(s, k + i)
  {
    if k + i + SIZE <= |s| {
      assert s[k..][i..i + SIZE] == s[k + i..k + i + SIZE];
    }
  }

  /** What precedes the first match is copied. */
  lemma {:induction false} ExpandSkip(s: string, k: nat, database: string)
    requires k <= |s| && forall i :: 0 <= i < k ==> !StartsHere(s, i)
    ensures Expand(s, database) == s[..k] + Expand(s[k..], database)
  {
    if k == 0 {
      assert s[..0] + Expand(s[0..], database) == Expand(s, database);
    } else {
      forall i | 0 <= i < k - 1
        ensures !StartsHere(s[1..], i)
      {
        StartsInTail(s, 1, i);
      }
      ExpandSkip(s[1..], k - 1, database);
      assert !StartsHere(s, 0);
      assert s[1..][k - 1..] == s[k..];
      assert [s[0]] + s[1..][..k - 1] == s[..k];
    }
  }

  lemma ExpandFree(s: string, database: string)
    requires Free(s)
    ensures Expand(s, database) == s
  {
    ExpandSkip(s, |s|, database);
  }

  /** One round of the loop, on the part that is still to be searched. */
  lemma ExpandMatch(s: string, p: nat, database: string)
    requires StartsHere(s, p) && forall i :: 0 <= i < p ==> !StartsHere(s, i)
    ensures Expand(s, database) == s[..p] + (database + Expand(s[p + SIZE..], database))
  {
    ExpandSkip(s, p, database);
    StartsInTail(s, p, 0);
    assert s[p..][SIZE..] == s[p + SIZE..];
  }

  /**
   The in-place loop terminates and yields one left-to-right pass over the original,
   even when the name contains the placeholder or overlaps its borders.
   */
  method ReplaceAll(original: string, database: string) returns (query: string)
    ensures query == Expand(original, database)
  {
    query := original;
    var pos := 0;
    assert query[..0] + Expand(query[0..], database) == Expand(original, database);
    while true
      invariant 0 <= pos <= |query|
      invariant query[..pos] + Expand(query[pos..], database) == Expand(original, database)
      decreases |query| - pos
    {
      var found := Find(query, pos);
      if found == -1 {
        forall i | 0 <= i
          ensures !StartsHere(query[pos..], i)
        {
          StartsInTail(query, pos, i);
        }
        ExpandFree(query[pos..], database);
        assert query[..pos] + query[pos..] == query;
        return;
      }
      LoopRound(query, pos, found, database);
      query := query[..found] + database + query[found + SIZE..];
      pos := found + |database|;
    }
  }

  /** The first match from `pos` on is the first one of the tail at `pos`. */
  lemma TailMatch(query: string, pos: nat, found: nat)
    requires pos <= found && StartsHere(query, found)
    requires forall i :: pos <= i < found ==> !StartsHere(query, i)
    ensures StartsHere(query[pos..], found - pos)
    ensures forall i :: 0 <= i < found - pos ==> !StartsHere(query[pos..], i)
  {
    assert found + SIZE <= |query|;
    forall i | 0 <= i < found - pos
      ensures !StartsHere(query[pos..], i)
    {
      StartsInTail(query, pos, i);
      assert pos <= pos + i < found;
    }
    StartsInTail(query, pos, found - pos);
  }

  lemma ExpandFound(query: string, pos: nat, found: nat, database: string)
    requires pos <= found && StartsHere(query, found)
    requires forall i :: pos <= i < found ==> !StartsHere(query, i)
    ensures Expand(query[pos..], database) == query[pos..found] + (database + Expand(query[found + SIZE..], database))
  {
    hide Expand;
    TailMatch(query, pos, found);
    ExpandMatch(query[pos..], found - pos, database);
    assert query[pos..][found - pos + SIZE..] == query[found + SIZE..];
    assert query[pos..][..found - pos] == query[pos..found];
  }

  lemma LoopRound(query: string, pos: nat, found: nat, database: string)
    requires pos <= found && StartsHere(query, found)
    requires forall i :: pos <= i < found ==> !StartsHere(query, i)
    ensures var next := query[..found] + database + query[found + SIZE..];
            var at := found + |database|;
            next[..at] + Expand(next[at..], database) == query[..pos] + Expand(query[pos..], database)
  {
    hide Expand;
    ExpandFound(query, pos, found, database);
    Halves(query, pos, found);
    Bytes.Cut(query[..found] + database, query[found + SIZE..]);
    Regroup(query[..found], query[..pos], query[pos..found], database, Expand(query[found + SIZE..], database));
  }

  lemma Halves(s: string, i: nat, j: nat)
    requires i <= j <= |s|
    ensures s[..i] + s[i..j] == s[..j]
  {
  }

  lemma Regroup(head: string, a: string, b: string, c: string, d: string)
    requires a + b == head
    ensures head + c + d == a + (b + (c + d))
  {
    Bytes.Assoc3(a, b, c, d);
  }

  /** Every match changes the length by the difference of the two. */
  lemma {:induction false} ExpandLength(s: string, database: string)
    ensures |Expand(s, database)| == |s| + Matches(s) * (|database| - SIZE)
  {
    if s == "" {
    } else if StartsHere(s, 0) {
      ExpandLength(s[SIZE..], database);
      assert (1 + Matches(s[SIZE..])) * (|database| - SIZE)
          == (|database| - SIZE) + Matches(s[SIZE..]) * (|database| - SIZE);
    } else {
      ExpandLength(s[1..], database);
    }
  }

  // ----- exec_bool -----

  const SELECT: string := "SELECT "

  /** A database name that cannot take part in a placeholder. */
  predicate Harmless(database: string) {
    database != "" && forall c :: c in database ==> c !in PLACEHOLDER
  }

  /**
   The loop of exec_bool finds placeholders in `expr` but replaces at the same
   positions of `query`; a position beyond `query` throws.
   */
  function BoolLoop(expr: string, database: string, query: string, pos: nat): Option<string>
    requires database != ""
    decreases |expr| - pos
  {
    var found := Find(expr, pos);
    if found == -1 then Some(query + expr)
    else if found > |query| then None
    else
      var end := if found + SIZE <= |query| then found + SIZE else |query|;
      BoolLoop(expr, database, query[..found] + database + query[end..], found + |database|)
  }

  /** The text that exec_bool sends, or None when it throws std::out_of_range. */
  function BoolQuery(expr: string, database: string): Option<string>
    requires database != ""
  {
    BoolLoop(expr, database, SELECT, 0)
  }

  method ExecBoolQuery(expr: string, database: string) returns (r: Option<string>)
    requires database != ""
    ensures r == BoolQuery(expr, database)
  {
    hide StartsHere;
    var query, pos := SELECT, 0;
    while true
      invariant 0 <= pos
      invariant BoolLoop(expr, database, query, pos) == BoolQuery(expr, database)
      decreases |expr| - pos
    {
      var found := Find(expr, pos);
      if found == -1 {
        return Some(query + expr);
      }
      if found > |query| {
        return None;
      }
      var end := if found + SIZE <= |query| then found + SIZE else |query|;
      query := query[..found] + database + query[end..];
      pos := found + |database|;
    }
  }

  /** Whatever it does: what it has put in front stays there, and the expression follows as it is. */
  lemma {:induction false} BoolKeeps(expr: string, database: string, query: string, pos: nat, n: nat)
    requires database != "" && n <= |query| && n <= pos
    ensures var r := BoolLoop(expr, database, query, pos);
            r.Some? ==>
              && |r.value| >= n + |expr|
              && r.value[..n] == query[..n]
              && r.value[|r.value| - |expr|..] == expr
    decreases |expr| - pos
  {
    hide StartsHere;
    var found := Find(expr, pos);
    if found == -1 {
      Bytes.Cut(query, expr);
      Bytes.Cut(query[..n], query[n..]);
      assert (query + expr)[..n] == query[..n];
    } else if found <= |query| {
      var end := if found + SIZE <= |query| then found + SIZE else |query|;
      RoundKeeps(query, database, found, end, n);
      BoolKeeps(expr, database, query[..found] + database + query[end..], found + |database|, n);
    }
  }

  lemma RoundKeeps(query: string, database: string, found: nat, end: nat, n: nat)
    requires n <= found <= end <= |query|
    ensures n <= |query[..found] + database + query[end..]|
    ensures (query[..found] + database + query[end..])[..n] == query[..n]
  {
  }

  lemma NotHere(s: string, k: nat)
    requires k < |s| && s[k] != '#'
    ensures !StartsHere(s, k)
  {
    assert k + SIZE <= |s| ==> s[k..k + SIZE][0] == s[k];
  }

  lemma ExpandHead(s: string, database: string)
    requires StartsHere(s, 0) && database != ""
    ensures Expand(s, database)[0] in database
  {
    assert Expand(s, database)[0] == database[0];
  }

  /** As long as the output shows no character of the name, it is copied input. */
  lemma {:induction false} CopiedPrefix(s: string, database: string, n: nat)
    requires database != "" && n <= |Expand(s, database)|
    requires forall i :: 0 <= i < n ==> Expand(s, database)[i] !in database
    ensures n <= |s| && s[..n] == Expand(s, database)[..n]
  {
    if n > 0 {
      if StartsHere(s, 0) {
        ExpandHead(s, database);
        assert false;
      } else {
        var rest := Expand(s[1..], database);
        assert forall i :: 0 <= i < n - 1 ==> rest[i] == Expand(s, database)[i + 1];
        CopiedPrefix(s[1..], database, n - 1);
        assert s[..n] == [s[0]] + s[1..][..n - 1];
      }
    }
  }

  /** The output starts with a placeholder only if the input does. */
  lemma HeadIsCopied(s: string, database: string)
    requires Harmless(database) && StartsHere(Expand(s, database), 0)
    ensures StartsHere(s, 0)
  {
    var e := Expand(s, database);
    forall i | 0 <= i < SIZE
      ensures e[i] !in database
    {
      assert e[i] == e[0..SIZE][i] == PLACEHOLDER[i];
    }
    CopiedPrefix(s, database, SIZE);
  }

  /** The pass leaves no placeholder behind when the name cannot form one. */
  lemma {:induction false} ExpandedIsFree(s: string, database: string, k: nat)
    requires Harmless(database)
    ensures !StartsHere(Expand(s, database), k)
    decreases |s|
  {
    var e := Expand(s, database);
    if s == "" {
    } else if StartsHere(s, 0) {
      if k < |database| {
        assert e[k] == database[k] && database[k] in database && PLACEHOLDER[0] == '#';
        NotHere(e, k);
      } else {
        ExpandedIsFree(s[SIZE..], database, k - |database|);
        StartsInTail(e, |database|, k - |database|);
        Bytes.Cut(database, Expand(s[SIZE..], database));
      }
    } else if k > 0 {
      ExpandedIsFree(s[1..], database, k - 1);
      StartsInTail(e, 1, k - 1);
      Bytes.Cut([s[0]], Expand(s[1..], database));
    } else if StartsHere(e, 0) {
      HeadIsCopied(s, database);
      assert false;
    }
  }

  // ----- the exact condition -----

  /** Behind the last match both texts end alike: the original in the placeholder, the expanded one in the name. */
  lemma {:induction false} LastMatch(s: string, database: string, i: nat) returns (tail: string)
    requires StartsHere(s, i)
    ensures |s| >= SIZE + |tail| && s[|s| - |tail| - SIZE..] == PLACEHOLDER + tail
    ensures var e := Expand(s, database);
            |e| >= |database| + |tail| && e[|e| - |tail| - |database|..] == database + tail
    decreases |s|
  {
    hide Expand, StartsHere;
    if StartsHere(s, 0) {
      tail := LastMatchBehind(s, database);
    } else {
      assert s != "" && StartsHere(s[1..], i - 1) by { OneFurther(s, i); }
      tail := LastMatch(s[1..], database, i - 1);
      OneCopied(s, database);
      Suffix([s[0]], s[1..], SIZE + |tail|);
      Suffix([s[0]], Expand(s[1..], database), |database| + |tail|);
    }
  }

  lemma OneFurther(s: string, i: nat)
    requires StartsHere(s, i) && !StartsHere(s, 0)
    ensures i > 0 && s != "" && StartsHere(s[1..], i - 1)
  {
    StartsInTail(s, 1, i - 1);
  }

  lemma OneCopied(s: string, database: string)
    requires s != "" && !StartsHere(s, 0)
    ensures s == [s[0]] + s[1..] && Expand(s, database) == [s[0]] + Expand(s[1..], database)
  {
  }

  lemma {:induction false} LastMatchBehind(s: string, database: string) returns (tail: string)
    requires StartsHere(s, 0)
    ensures |s| >= SIZE + |tail| && s[|s| - |tail| - SIZE..] == PLACEHOLDER + tail
    ensures var e := Expand(s, database);
            |e| >= |database| + |tail| && e[|e| - |tail| - |database|..] == database + tail
    decreases |s|, 0
  {
    var rest := s[SIZE..];
    assert s == PLACEHOLDER + rest;
    if Free(rest) {
      tail := rest;
      ExpandFree(rest, database);
    } else {
      var i: nat :| StartsHere(rest, i);
      tail := LastMatch(rest, database, i);
      Suffix(PLACEHOLDER, rest, SIZE + |tail|);
      Suffix(database, Expand(rest, database), |database| + |tail|);
    }
  }

  lemma Suffix(a: string, b: string, n: nat)
    requires n <= |b|
    ensures (a + b)[|a + b| - n..] == b[|b| - n..]
  {
  }

  lemma {:induction false} MatchCounted(s: string, i: nat)
    requires StartsHere(s, i)
    ensures Matches(s) >= 1
    decreases |s|
  {
    if !StartsHere(s, 0) {
      StartsInTail(s, 1, i - 1);
      MatchCounted(s[1..], i - 1);
    }
  }

  /** The text that is meant. */
  function Meant(expr: string, database: string): string {
    SELECT + Expand(expr, database)
  }

  /** With a short name the expanded text is too short. */
  lemma ShortNameDiffers(expr: string, database: string, p: nat, sent: string)
    requires database != "" && |database| < SIZE && StartsHere(expr, p)
    requires |sent| >= p + |database| + |expr|
    ensures sent != Meant(expr, database)
  {
    hide Expand, Matches, StartsHere;
    ExpandLength(expr, database);
    MatchCounted(expr, p);
    Shrinks(Matches(expr), |database|);
  }

  lemma Shrinks(matches: nat, n: nat)
    requires matches >= 1 && n < SIZE
    ensures matches * (n - SIZE) <= n - SIZE
  {
    assert (matches - 1) * (SIZE - n) >= 0;
  }

  /** Where the name stands in the text that is meant. */
  lemma NameInMeant(expr: string, database: string, p: nat, i: nat)
    requires StartsHere(expr, p) && (forall k :: 0 <= k < p ==> !StartsHere(expr, k)) && i < |database|
    ensures var m := Meant(expr, database);
            |SELECT| + p + i < |m| && m[|SELECT| + p + i] == database[i]
  {
    hide Expand;
    ExpandMatch(expr, p, database);
    assert p <= |expr|;
  }

  /** With a long name the text sent is not the one that is meant: the name would repeat itself every 7 characters. */
  lemma LongNameDiffers(expr: string, database: string, p: nat, sent: string)
    requires |database| >= SIZE && StartsHere(expr, p) && p <= |SELECT|
    requires forall k :: 0 <= k < p ==> !StartsHere(expr, k)
    requires |sent| >= p + |database| + |expr| && sent[..p + |database|] == SELECT[..p] + database
    requires sent[|sent| - |expr|..] == expr
    ensures sent != Meant(expr, database)
  {
    hide Expand, Meant, StartsHere;
    AperiodicEnd(database);
    if sent == Meant(expr, database) {
      NameEndsInPlaceholder(expr, database, p, sent);
      PeriodicName(expr, database, p, sent, |database| - SIZE);
    }
  }

  lemma AperiodicEnd(database: string)
    requires |database| >= SIZE
    ensures database[|database| - SIZE..] == PLACEHOLDER
        ==> database[|database| - SIZE] != database[|database| - SIZE + |SELECT|]
  {
    var end := database[|database| - SIZE..];
    assert end[0] == database[|database| - SIZE] && end[7] == database[|database| - SIZE + 7];
    assert PLACEHOLDER[0] == '#' && PLACEHOLDER[7] == 'A';
  }

  /** The name in its two places, seven characters apart. */
  lemma PeriodicName(expr: string, database: string, p: nat, sent: string, i: nat)
    requires StartsHere(expr, p) && (forall k :: 0 <= k < p ==> !StartsHere(expr, k)) && p <= |SELECT|
    requires i + |SELECT| < |database|
    requires sent == Meant(expr, database)
    requires |sent| >= p + |database| && sent[..p + |database|] == SELECT[..p] + database
    ensures database[i] == database[i + |SELECT|]
  {
    hide Expand, Meant, StartsHere;
    NameInMeant(expr, database, p, i);
    var front, at := SELECT[..p] + database, p + i + |SELECT|;
    assert front[at] == database[i + |SELECT|];
    assert sent[..p + |database|][at] == sent[at];
  }

  lemma NameEndsInPlaceholder(expr: string, database: string, p: nat, sent: string)
    requires |database| >= SIZE && StartsHere(expr, p) && |sent| >= |expr|
    requires sent == Meant(expr, database) && sent[|sent| - |expr|..] == expr
    ensures database[|database| - SIZE..] == PLACEHOLDER
  {
    hide Expand, StartsHere;
    var tail := LastMatch(expr, database, p);
    var e := Expand(expr, database);
    Suffix(SELECT, e, |database| + |tail|);
    assert sent[|sent| - |tail| - |database|..] == database + tail;
    assert sent[|sent| - |tail| - SIZE..] == expr[|expr| - |tail| - SIZE..];
    assert (database + tail)[|database| - SIZE..] == sent[|sent| - |tail| - SIZE..] == PLACEHOLDER + tail;
    assert (database + tail)[|database| - SIZE..][..SIZE] == database[|database| - SIZE..];
    assert (PLACEHOLDER + tail)[..SIZE] == PLACEHOLDER;
  }

  /**
   exec_bool sends the expanded condition exactly when there is nothing to expand:
   for every name, a condition with a placeholder throws or goes out as another text.
   */
  lemma BoolQueryExact(expr: string, database: string)
    requires database != ""
    ensures BoolQuery(expr, database) == Some(Meant(expr, database)) <==> Free(expr)
  {
    hide Expand, Meant;
    var p, r := Find(expr, 0), BoolQuery(expr, database);
    if p == -1 {
      ExpandFree(expr, database);
      assert Meant(expr, database) == SELECT + expr by { MeantFree(expr, database); }
    } else if r.Some? {
      assert p <= |SELECT| && SELECT[|SELECT|..] == "";
      var query := SELECT[..p] + database;
      assert SELECT[..p] + database + SELECT[|SELECT|..] == query;
      assert r == BoolLoop(expr, database, query, p + |database|);
      BoolKeeps(expr, database, query, p + |database|, |query|);
      if |database| < SIZE {
        ShortNameDiffers(expr, database, p, r.value);
      } else {
        LongNameDiffers(expr, database, p, r.value);
      }
    }
  }

  lemma MeantFree(expr: string, database: string)
    requires Free(expr)
    ensures Meant(expr, database) == SELECT + expr
  {
    ExpandFree(expr, database);
  }
}

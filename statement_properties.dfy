/**
 * What the splice of replaceAsterisksInStatement and the trimming of
 * trimStatement guarantee, stated over the functions of StatementText.
 */
module StatementProperties {
  import opened HsqlTypes
  import opened StatementText

  /**
   * Offsets without a column list (an asterisk that is no wildcard) are
   * skipped: when no offset has one, the statement comes back unchanged
   * from the cut point on.
   */
  lemma {:induction false} SpliceWithoutColumnLists(stmt: string, positions: seq<int>, m: AsteriskMap, lastPos: nat)
    requires lastPos <= |stmt|
    requires forall p :: p in positions ==> p !in m || m[p].None?
    ensures Splice(stmt, positions, m, lastPos) == Success(stmt[lastPos..])
    decreases |positions|
  {
    if positions != [] {
      assert positions[0] in positions;
      assert forall p :: p in positions[1..] ==> p in positions;
      SpliceWithoutColumnLists(stmt, positions[1..], m, lastPos);
    }
  }

  /** An empty combined map leaves the statement as it is. */
  lemma EmptyMapKeepsStatement(stmt: string, positions: seq<int>)
    ensures Splice(stmt, positions, map[], 0) == Success(stmt)
  {
    SpliceWithoutColumnLists(stmt, positions, map[], 0);
    assert stmt[0..] == stmt;
  }

  /**
   * When every recorded column list sits on a genuine '*' (in increasing
   * order, at or after the cut point), the search-based splice throws
   * nothing and agrees with exact-span replacement; offsets without a
   * column list are passed over.
   */
  lemma {:induction false} SpliceAtAsterisks(stmt: string, positions: seq<int>, m: AsteriskMap, lastPos: nat)
    requires lastPos <= |stmt|
    requires AtAsterisks(stmt, Edits(positions, m), lastPos)
    ensures Splice(stmt, positions, m, lastPos) == Success(ExactSplice(stmt, Edits(positions, m), lastPos))
    decreases |positions|
  {
    if positions != [] {
      var p := positions[0];
      if p in m && m[p].Some? {
        var es := Edits(positions, m);
        assert es == [(p, m[p].value)] + Edits(positions[1..], m);
        assert es[1..] == Edits(positions[1..], m);
        assert IndexOf(stmt, '*', p) == p;
        SpliceAtAsterisks(stmt, positions[1..], m, p + 1);
      } else {
        SpliceAtAsterisks(stmt, positions[1..], m, lastPos);
      }
    }
  }

  /** Number of '*' characters in `s`. */
  function Asterisks(s: string): nat {
    if s == [] then 0 else (if s[0] == '*' then 1 else 0) + Asterisks(s[1..])
  }

  lemma {:induction false} AsterisksConcat(a: string, b: string)
    ensures Asterisks(a + b) == Asterisks(a) + Asterisks(b)
    decreases |a|
  {
    if a != [] {
      assert (a + b)[0] == a[0];
      assert (a + b)[1..] == a[1..] + b;
      AsterisksConcat(a[1..], b);
    } else {
      assert a + b == b;
    }
  }

  /** Splitting the text at a '*': one lies at the split point. */
  lemma AsterisksAround(stmt: string, lastPos: nat, p: nat)
    requires lastPos <= p < |stmt| && stmt[p] == '*'
    ensures Asterisks(stmt[lastPos..]) == Asterisks(stmt[lastPos..p]) + 1 + Asterisks(stmt[p + 1..])
  {
    assert stmt[lastPos..] == stmt[lastPos..p] + ([stmt[p]] + stmt[p + 1..]);
    AsterisksConcat(stmt[lastPos..p], [stmt[p]] + stmt[p + 1..]);
    assert ([stmt[p]] + stmt[p + 1..])[1..] == stmt[p + 1..];
  }

  /** The spaces around a column list add no '*'. */
  lemma AsterisksOfSegment(before: string, text: string, rest: string)
    ensures Asterisks(before + " " + text + " " + rest)
         == Asterisks(before) + Asterisks(text) + Asterisks(rest)
  {
    assert Asterisks(" ") == 0 by {
      assert " "[1..] == [];
    }
    AsterisksConcat(before, " ");
    AsterisksConcat(before + " ", text);
    AsterisksConcat(before + " " + text, " ");
    AsterisksConcat(before + " " + text + " ", rest);
  }

  /** A column list without '*' contributes none. */
  lemma {:induction false} NoAsterisks(text: string)
    requires '*' !in text
    ensures Asterisks(text) == 0
    decreases |text|
  {
    if text != [] {
      assert text[0] in text;
      assert forall c :: c in text[1..] ==> c in text;
      NoAsterisks(text[1..]);
    }
  }

  /**
   * Exact-span replacement consumes one '*' per edit: when no column list
   * contains a '*' itself, the result holds exactly as many fewer.
   */
  lemma {:induction false} ExactSpliceConsumesAsterisks(stmt: string, es: seq<(int, string)>, lastPos: nat)
    requires lastPos <= |stmt| && AtAsterisks(stmt, es, lastPos)
    requires forall k :: 0 <= k < |es| ==> '*' !in es[k].1
    ensures Asterisks(ExactSplice(stmt, es, lastPos)) + |es| == Asterisks(stmt[lastPos..])
    decreases |es|
  {
    if es != [] {
      var p := es[0].0;
      var text := es[0].1;
      var tail := es[1..];
      var rest := ExactSplice(stmt, tail, p + 1);
      assert ExactSplice(stmt, es, lastPos) == stmt[lastPos..p] + " " + text + " " + rest;
      forall k | 0 <= k < |tail| ensures '*' !in tail[k].1 {
        assert tail[k] == es[k + 1];
      }
      ExactSpliceConsumesAsterisks(stmt, tail, p + 1);
      AsterisksAround(stmt, lastPos, p);
      assert '*' !in es[0].1;
      NoAsterisks(text);
      AsterisksOfSegment(stmt[lastPos..p], text, rest);
    }
  }

  /**
   * The column lists of an ascending listing of offsets form edits on
   * genuine asterisks when every offset with a column list holds a '*' at
   * or after the cut point. Offsets without a column list are unconstrained.
   */
  lemma {:induction false} EditsAt(stmt: string, ps: seq<int>, m: AsteriskMap, lastPos: nat)
    requires StrictlyIncreasing(ps)
    requires forall p :: p in ps && p in m && m[p].Some? ==> lastPos <= p < |stmt| && stmt[p] == '*'
    ensures AtAsterisks(stmt, Edits(ps, m), lastPos)
    decreases |ps|
  {
    if ps != [] {
      var p := ps[0];
      var tail := ps[1..];
      IncreasingTail(ps);
      if p in m && m[p].Some? {
        assert p in ps;
        EditsAt(stmt, tail, m, p + 1);
        EditsHead(ps, m);
      } else {
        EditsAt(stmt, tail, m, lastPos);
      }
    }
  }

  /** The rest of an ascending listing is ascending and lies above its head. */
  lemma IncreasingTail(ps: seq<int>)
    requires ps != [] && StrictlyIncreasing(ps)
    ensures StrictlyIncreasing(ps[1..])
    ensures forall q :: q in ps[1..] ==> q in ps && ps[0] < q
  {
    var tail := ps[1..];
    forall q | q in tail ensures q in ps && ps[0] < q {
      var k :| 0 <= k < |tail| && tail[k] == q;
      assert ps[k + 1] == q;
    }
    forall i, j | 0 <= i < j < |tail| ensures tail[i] < tail[j] {
      assert tail[i] == ps[i + 1] && tail[j] == ps[j + 1];
    }
  }

  /** An offset with a column list heads the edits. */
  lemma EditsHead(ps: seq<int>, m: AsteriskMap)
    requires ps != [] && ps[0] in m && m[ps[0]].Some?
    ensures Edits(ps, m) != [] && Edits(ps, m)[0] == (ps[0], m[ps[0]].value)
    ensures Edits(ps, m)[1..] == Edits(ps[1..], m)
  {
    var es := Edits(ps, m);
    assert es == [(ps[0], m[ps[0]].value)] + Edits(ps[1..], m);
  }

  /**
   * The expansion of replaceAsterisksInStatement, over the sorted offsets
   * of the combined map, equals exact-span replacement whenever every
   * offset with a column list lies on a '*' of the statement.
   */
  lemma SortedSpliceIsExact(stmt: string, m: AsteriskMap)
    requires forall p :: p in m && m[p].Some? ==> 0 <= p < |stmt| && stmt[p] == '*'
    ensures AtAsterisks(stmt, Edits(SortedKeys(m.Keys), m), 0)
    ensures Splice(stmt, SortedKeys(m.Keys), m, 0) == Success(ExactSplice(stmt, Edits(SortedKeys(m.Keys), m), 0))
  {
    var ps := SortedKeys(m.Keys);
    EditsAt(stmt, ps, m, 0);
    SpliceAtAsterisks(stmt, ps, m, 0);
  }

  /**
   * Under the same condition, and when no column list contains a '*', the
   * expanded statement has one '*' fewer per offset with a column list;
   * offsets whose list is null keep theirs.
   */
  lemma SortedSpliceConsumesAsterisks(stmt: string, m: AsteriskMap)
    requires forall p :: p in m && m[p].Some? ==> 0 <= p < |stmt| && stmt[p] == '*' && '*' !in m[p].value
    ensures var r := Splice(stmt, SortedKeys(m.Keys), m, 0);
            r.Success? && Asterisks(r.value) + |Edits(SortedKeys(m.Keys), m)| == Asterisks(stmt)
  {
    var ps := SortedKeys(m.Keys);
    SortedSpliceIsExact(stmt, m);
    EditsWithoutAsterisks(ps, m);
    ExactSpliceConsumesAsterisks(stmt, Edits(ps, m), 0);
    assert stmt[0..] == stmt;
  }

  lemma EditsWithoutAsterisks(ps: seq<int>, m: AsteriskMap)
    requires forall p :: p in m && m[p].Some? ==> '*' !in m[p].value
    ensures forall k :: 0 <= k < |Edits(ps, m)| ==> '*' !in Edits(ps, m)[k].1
  {
    var es := Edits(ps, m);
    forall k | 0 <= k < |es| ensures '*' !in es[k].1 {
      assert es[k].0 in m && m[es[k].0] == Some(es[k].1);
    }
  }

  /**
   * With no '*' at or after an offset, indexOf yields -1 and the cut point
   * falls back to 0: after the column list, the rest of the splice starts
   * again from the beginning of the statement.
   */
  lemma CutPointFallsBackToStart(stmt: string, pos: nat, text: string, rest: seq<int>, m: AsteriskMap, lastPos: nat)
    requires lastPos <= pos <= |stmt|
    requires pos in m && m[pos] == Some(text)
    requires forall k :: pos <= k < |stmt| ==> stmt[k] != '*'
    ensures Splice(stmt, [pos] + rest, m, lastPos)
         == Prefixed(stmt[lastPos..pos] + " " + text + " ", Splice(stmt, rest, m, 0))
  {
    assert ([pos] + rest)[1..] == rest;
    match Splice(stmt, rest, m, 0)
    case Success(_) =>
    case Failure(_) =>
  }

  /**
   * The cut point is found by search, not by span: after the column list
   * for an offset, the splice goes on one past the first '*' at or after
   * that offset, wherever that '*' lies.
   */
  lemma CutPointAtNextAsterisk(stmt: string, pos: nat, q: nat, text: string, rest: seq<int>, m: AsteriskMap, lastPos: nat)
    requires lastPos <= pos <= q < |stmt| && stmt[q] == '*'
    requires forall k :: pos <= k < q ==> stmt[k] != '*'
    requires pos in m && m[pos] == Some(text)
    ensures Splice(stmt, [pos] + rest, m, lastPos)
         == Prefixed(stmt[lastPos..pos] + " " + text + " ", Splice(stmt, rest, m, q + 1))
  {
    assert ([pos] + rest)[1..] == rest;
    assert IndexOf(stmt, '*', pos) == q;
    match Splice(stmt, rest, m, q + 1)
    case Success(_) =>
    case Failure(_) =>
  }

  /**
   * An instance of CutPointFallsBackToStart: in "ab" there is no '*', so
   * after the column list the whole statement is copied again.
   */
  lemma CutPointWithoutAsterisk()
    ensures Splice("ab", [0], map[0 := Some("x")], 0) == Success(" x ab")
  {
    var m := map[0 := Some("x")];
    assert [0][1..] == [];
    assert IndexOf("ab", '*', 2) == -1;
    assert IndexOf("ab", '*', 0) == -1;
    assert Splice("ab", [], m, 0) == Success("ab"[0..]);
    assert "ab"[0..] == "ab";
    assert "ab"[0..0] + " " + "x" + " " + "ab" == " x ab";
  }

  /**
   * An instance of CutPointAtNextAsterisk: an offset that is not on a '*'
   * cuts away everything up to the next '*' that follows it.
   */
  lemma StrayAsteriskSplice()
    ensures Splice("x+y*z", [0], map[0 := Some("c")], 0) == Success(" c z")
  {
    var m := map[0 := Some("c")];
    assert [0][1..] == [];
    assert IndexOf("x+y*z", '*', 3) == 3;
    assert IndexOf("x+y*z", '*', 0) == 3;
    assert Splice("x+y*z", [], m, 4) == Success("x+y*z"[4..]);
    assert "x+y*z"[4..] == "z";
    assert "x+y*z"[0..0] + " " + "c" + " " + "z" == " c z";
  }

  /** Trimming is idempotent. */
  lemma TrimIdempotent(s: string)
    ensures Trim(Trim(s)) == Trim(s)
  {
    var r := Trim(s);
    if r != [] {
      assert LeadingBlanks(r) == 0;
      assert TrailingEnd(r) == |r|;
      assert r[0..][..|r|] == r;
    }
  }

  /**
   * A definition followed by a separator and a comment line: with a
   * tokenizer that reads SELECT, *, FROM and T and then reports the end of
   * the statement at offset 15, the trailing text is dropped. The result
   * rests on that read sequence: a tokenizer that returned ';' as an
   * ordinary token would end at offset 16, and the result would keep the
   * ';'.
   */
  lemma TrimStatementExample()
    ensures var steps := [Token(0, "SELECT", false), Token(6, "*", false), Token(8, "FROM", false),
                          Token(13, "T", false), Token(15, "", false)];
            && TokenizerOf("SELECT * FROM T;\n-- trailing comment\n", steps)
            && TrimmedStatement("SELECT * FROM T;\n-- trailing comment\n", steps) == Success("SELECT * FROM T")
  {
    var s := "SELECT * FROM T;\n-- trailing comment\n";
    var steps := [Token(0, "SELECT", false), Token(6, "*", false), Token(8, "FROM", false),
                  Token(13, "T", false), Token(15, "", false)];
    assert Ends(steps[4]);
    assert TokenizerOf(s, steps);
    assert FirstEnd(steps) == 4;
    var t := s[..15];
    forall k | 0 <= k < 15 ensures t[k] == "SELECT * FROM T"[k] {}
    assert t == "SELECT * FROM T";
    assert LeadingBlanks(t) == 0;
    assert t[0..] == t;
    assert TrailingEnd(t) == 15;
    assert t[..15] == t;
  }

  /**
   * The same definition with a tokenizer that returns ';' as an ordinary
   * token: the loop ends only at offset 16, so the ';' stays in the
   * statement.
   */
  lemma TrimStatementKeepsSeparatorToken()
    ensures var steps := [Token(0, "SELECT", false), Token(6, "*", false), Token(8, "FROM", false),
                          Token(13, "T", false), Token(15, ";", false), Token(16, "", false)];
            && TokenizerOf("SELECT * FROM T;\n-- trailing comment\n", steps)
            && TrimmedStatement("SELECT * FROM T;\n-- trailing comment\n", steps) == Success("SELECT * FROM T;")
  {
    var s := "SELECT * FROM T;\n-- trailing comment\n";
    var steps := [Token(0, "SELECT", false), Token(6, "*", false), Token(8, "FROM", false),
                  Token(13, "T", false), Token(15, ";", false), Token(16, "", false)];
    assert Ends(steps[5]);
    assert TokenizerOf(s, steps);
    assert !Ends(steps[4]);
    assert FirstEnd(steps) == 5;
    var t := s[..16];
    forall k | 0 <= k < 16 ensures t[k] == "SELECT * FROM T;"[k] {}
    assert t == "SELECT * FROM T;";
    assert LeadingBlanks(t) == 0;
    assert t[0..] == t;
    assert TrailingEnd(t) == 16;
    assert t[..16] == t;
  }
}

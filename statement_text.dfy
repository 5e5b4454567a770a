/**
 * The text-level half of view compilation: trimming a definition to its
 * statement (View.trimStatement) and splicing column lists over the
 * recorded asterisks (the second half of View.replaceAsterisksInStatement),
 * together with the Java library behaviour they rely on (String.trim,
 * String.indexOf, sorting the recorded offsets).
 */
module StatementText {
  import opened HsqlTypes

  // ---------------------------------------------------------------------
  // String.trim
  // ---------------------------------------------------------------------

  /** String.trim drops every character whose code is at most U+0020. */
  predicate IsBlank(c: char) {
    c <= ' '
  }

  /** Number of blank characters at the start of `s`. */
  function LeadingBlanks(s: string): (st: nat)
    ensures st <= |s|
    ensures forall k :: 0 <= k < st ==> IsBlank(s[k])
    ensures st < |s| ==> !IsBlank(s[st])
  {
    if |s| == 0 || !IsBlank(s[0]) then 0
    else
      var st' := LeadingBlanks(s[1..]);
      assert forall k :: 1 <= k < 1 + st' ==> s[k] == s[1..][k - 1];
      1 + st'
  }

  /** Length of `s` once its trailing blank characters are dropped. */
  function TrailingEnd(s: string): (len: nat)
    ensures len <= |s|
    ensures forall k :: len <= k < |s| ==> IsBlank(s[k])
    ensures 0 < len ==> !IsBlank(s[len - 1])
  {
    if |s| == 0 || !IsBlank(s[|s| - 1]) then |s|
    else TrailingEnd(s[..|s| - 1])
  }

  /** String.trim: `s` without its leading and trailing blanks. */
  function Trim(s: string): (r: string)
    ensures LeadingBlanks(s) + |r| <= |s|
    ensures r == s[LeadingBlanks(s)..LeadingBlanks(s) + |r|]
    ensures forall k :: LeadingBlanks(s) + |r| <= k < |s| ==> IsBlank(s[k])
    ensures r == [] || (!IsBlank(r[0]) && !IsBlank(r[|r| - 1]))
  {
    var t := s[LeadingBlanks(s)..];
    t[..TrailingEnd(t)]
  }

  // ---------------------------------------------------------------------
  // View.trimStatement over an abstract tokenizer
  // ---------------------------------------------------------------------

  /**
   * One round of the do-while loop in trimStatement: the tokenizer's
   * position before the read, and either the token read (its text and
   * whether it was a value literal) or the error the read threw.
   */
  datatype Step =
    | Token(position: nat, str: string, wasValue: bool)
    | TokenFailure(message: string)

  /** The loop leaves at a step that threw or that read an empty non-value token. */
  predicate Ends(t: Step) {
    t.TokenFailure? || (|t.str| == 0 && !t.wasValue)
  }

  /**
   * What the tokenizer guarantees: it eventually reaches the end of its
   * input (or throws), and its positions are offsets into the text.
   */
  predicate TokenizerOf(s: string, steps: seq<Step>) {
    && (exists i :: 0 <= i < |steps| && Ends(steps[i]))
    && (forall i :: 0 <= i < |steps| && steps[i].Token? ==> steps[i].position <= |s|)
  }

  /** The first step at or after `from` at which the loop leaves. */
  function FirstEndFrom(steps: seq<Step>, from: nat): (k: nat)
    requires exists i :: from <= i < |steps| && Ends(steps[i])
    ensures from <= k < |steps| && Ends(steps[k])
    ensures forall i :: from <= i < k ==> !Ends(steps[i])
    decreases |steps| - from
  {
    if Ends(steps[from]) then from else FirstEndFrom(steps, from + 1)
  }

  function FirstEnd(steps: seq<Step>): (k: nat)
    requires exists i :: 0 <= i < |steps| && Ends(steps[i])
    ensures k < |steps| && Ends(steps[k])
    ensures forall i :: 0 <= i < k ==> !Ends(steps[i])
  {
    FirstEndFrom(steps, 0)
  }

  /**
   * The result of trimStatement: the trimmed text before the position at
   * which the first empty non-value token starts, or the tokenizer's error.
   */
  function TrimmedStatement(s: string, steps: seq<Step>): (r: Result<string>)
    requires TokenizerOf(s, steps)
    ensures r.Failure? <==> steps[FirstEnd(steps)].TokenFailure?
    ensures r.Success? ==> |r.value| <= steps[FirstEnd(steps)].position
    ensures r.Success? ==> r.value == [] || (!IsBlank(r.value[0]) && !IsBlank(r.value[|r.value| - 1]))
  {
    match steps[FirstEnd(steps)]
    case TokenFailure(msg) => Failure(TokenizerError(msg))
    case Token(position, _, _) => Success(Trim(s[..position]))
  }

  /** View.trimStatement: the do-while loop over the tokenizer's reads. */
  method TrimStatement(s: string, steps: seq<Step>) returns (r: Result<string>)
    requires TokenizerOf(s, steps)
    ensures r == TrimmedStatement(s, steps)
  {
    var i := 0;
    var position: nat;
    while true
      invariant i <= FirstEnd(steps)
      decreases FirstEnd(steps) - i
    {
      match steps[i]
      case TokenFailure(msg) =>
        return Failure(TokenizerError(msg));
      case Token(p, str, wasValue) =>
        position := p;
        if !(|str| != 0 || wasValue) {
          break;
        }
      i := i + 1;
    }
    return Success(Trim(s[..position]));
  }

  // ---------------------------------------------------------------------
  // Sorting the recorded offsets (keySet copy and ArrayUtil.sortArray)
  // ---------------------------------------------------------------------

  predicate StrictlyIncreasing(ps: seq<int>) {
    forall i, j :: 0 <= i < j < |ps| ==> ps[i] < ps[j]
  }

  lemma EmptyWithoutElements(s: set<int>)
    requires forall x :: x !in s
    ensures s == {}
  {
    assert forall x :: x in s <==> x in {};
  }

  lemma HasElement(s: set<int>)
    requires s != {}
    ensures exists x :: x in s
  {
    if forall x :: x !in s {
      EmptyWithoutElements(s);
      assert false;
    }
  }

  /** `x` is the least element of `s`. */
  predicate IsMinimum(x: int, s: set<int>) {
    x in s && forall y :: y in s ==> x <= y
  }

  lemma MinimumExists(s: set<int>)
    requires s != {}
    ensures exists x :: IsMinimum(x, s)
    decreases |s|
  {
    HasElement(s);
    var x :| x in s;
    var rest := s - {x};
    if rest == {} {
      forall z | z in s ensures x <= z {
        assert z !in rest;
      }
      assert IsMinimum(x, s);
    } else {
      MinimumExists(rest);
      var y :| IsMinimum(y, rest);
      if x < y {
        forall z | z in s ensures x <= z {
          if z != x { assert z in rest; }
        }
        assert IsMinimum(x, s);
      } else {
        forall z | z in s ensures y <= z {
          if z != x { assert z in rest; }
        }
        assert IsMinimum(y, s);
      }
    }
  }

  /** The elements of `s` in ascending order. */
  ghost function SortedKeys(s: set<int>): (ps: seq<int>)
    ensures StrictlyIncreasing(ps)
    ensures forall p :: p in ps <==> p in s
    ensures |ps| == |s|
    decreases |s|
  {
    if s == {} then []
    else
      MinimumExists(s);
      var x :| IsMinimum(x, s);
      var rest := SortedKeys(s - {x});
      assert forall p :: p in rest ==> x < p;
      [x] + rest
  }

  /** A set has one ascending listing only. */
  lemma SortedUnique(a: seq<int>, b: seq<int>)
    requires StrictlyIncreasing(a) && StrictlyIncreasing(b)
    requires forall p :: p in a <==> p in b
    ensures a == b
    decreases |a|
  {
    if a != [] {
      assert a[0] in a;
    }
    if b != [] {
      assert b[0] in b;
    }
    if a != [] && b != [] {
      assert a[0] == b[0];
      forall p ensures p in a[1..] <==> p in b[1..] {
        if p in a[1..] { assert p in a && p != a[0]; }
        if p in b[1..] { assert p in b && p != b[0]; }
      }
      SortedUnique(a[1..], b[1..]);
    }
  }

  /**
   * Copies the offsets of the combined map into an array and sorts it
   * ascending (the keySet loop and ArrayUtil.sortArray): here by taking
   * the least remaining offset each round.
   */
  method SortedPositions(asteriskPositions: AsteriskMap) returns (positions: seq<int>)
    ensures positions == SortedKeys(asteriskPositions.Keys)
  {
    var rest := asteriskPositions.Keys;
    positions := [];
    while rest != {}
      invariant rest <= asteriskPositions.Keys
      invariant StrictlyIncreasing(positions)
      invariant forall p :: p in positions <==> p in asteriskPositions.Keys && p !in rest
      invariant forall p, q :: p in positions && q in rest ==> p < q
      decreases |rest|
    {
      MinimumExists(rest);
      var x :| IsMinimum(x, rest);
      forall k | 0 <= k < |positions| ensures positions[k] < x {
        assert positions[k] in positions;
      }
      positions := positions + [x];
      rest := rest - {x};
    }
    SortedUnique(positions, SortedKeys(asteriskPositions.Keys));
  }

  // ---------------------------------------------------------------------
  // Splicing the column lists into the statement
  // ---------------------------------------------------------------------

  /**
   * String.indexOf for a one-character needle searched from `from`:
   * the first index at or after `from` holding `c`, or -1.
   */
  function IndexOf(s: string, c: char, from: nat): (r: int)
    ensures -1 <= r < |s|
    ensures r == -1 <==> forall k :: from <= k < |s| ==> s[k] != c
    ensures r != -1 ==> from <= r && s[r] == c && forall k :: from <= k < r ==> s[k] != c
    decreases |s| - from
  {
    if from >= |s| then -1
    else if s[from] == c then from
    else IndexOf(s, c, from + 1)
  }

  /**
   * The splice loop of replaceAsterisksInStatement, from cut point
   * `lastPos` over the remaining `positions`: offsets without a column
   * list are skipped; otherwise the text from the cut point up to the
   * offset is copied, then ' ', the column list and ' ', and the cut point
   * moves one past the first '*' at or after the offset (to 0 when there
   * is none, as indexOf then yields -1). A cut point past the offset, or an
   * offset past the end, makes substring throw.
   */
  function Splice(stmt: string, positions: seq<int>, m: AsteriskMap, lastPos: nat): (r: Result<string>)
    requires lastPos <= |stmt|
    ensures r.Failure? ==> r.error == StringIndexOutOfBounds
    decreases |positions|
  {
    if positions == [] then Success(stmt[lastPos..])
    else
      var pos := positions[0];
      var colList := if pos in m then m[pos] else None;
      if colList.None? then Splice(stmt, positions[1..], m, lastPos)
      else if pos < lastPos || pos > |stmt| then Failure(StringIndexOutOfBounds)
      else
        var next := IndexOf(stmt, '*', pos) + 1;
        match Splice(stmt, positions[1..], m, next)
        case Success(rest) => Success(stmt[lastPos..pos] + " " + colList.value + " " + rest)
        case Failure(e) => Failure(e)
  }

  /** `r` with `prefix` put in front of its text, if it has one. */
  function Prefixed(prefix: string, r: Result<string>): Result<string> {
    match r
    case Success(s) => Success(prefix + s)
    case Failure(e) => Failure(e)
  }

  /**
   * The splice loop itself: builds the expanded statement in a buffer,
   * advancing the cut point `lastPos`.
   */
  method ExpandStatement(statement: string, positions: seq<int>, asteriskPositions: AsteriskMap)
    returns (r: Result<string>)
    ensures r == Splice(statement, positions, asteriskPositions, 0)
  {
    var expanded := "";
    var lastPos: nat := 0;
    var i := 0;
    assert positions[0..] == positions;
    PrefixedEmpty(Splice(statement, positions, asteriskPositions, 0));
    while i < |positions|
      invariant 0 <= i <= |positions|
      invariant lastPos <= |statement|
      invariant Splice(statement, positions, asteriskPositions, 0)
             == Prefixed(expanded, Splice(statement, positions[i..], asteriskPositions, lastPos))
    {
      assert positions[i..][1..] == positions[i + 1..];
      var pos := positions[i];
      var colList := if pos in asteriskPositions then asteriskPositions[pos] else None;
      if colList.None? {
        i := i + 1;
        continue;
      }
      if pos < lastPos || pos > |statement| {
        return Failure(StringIndexOutOfBounds);
      }
      var segment := statement[lastPos..pos];
      lastPos := IndexOf(statement, '*', pos) + 1;
      PrefixedTwice(expanded, segment + " " + colList.value + " ",
                    Splice(statement, positions[i + 1..], asteriskPositions, lastPos));
      expanded := expanded + (segment + " " + colList.value + " ");
      i := i + 1;
    }
    expanded := expanded + statement[lastPos..];
    return Success(expanded);
  }

  lemma PrefixedEmpty(r: Result<string>)
    ensures Prefixed("", r) == r
  {
    match r
    case Success(s) => assert "" + s == s;
    case Failure(_) =>
  }

  lemma PrefixedTwice(a: string, b: string, r: Result<string>)
    ensures Prefixed(a, Prefixed(b, r)) == Prefixed(a + b, r)
  {
    match r
    case Success(s) => assert a + (b + s) == (a + b) + s;
    case Failure(_) =>
  }

  // ---------------------------------------------------------------------
  // The exact-span reference for the splice
  // ---------------------------------------------------------------------

  /** The recorded expansions (offset, column list), in the order of `positions`. */
  function Edits(positions: seq<int>, m: AsteriskMap): (es: seq<(int, string)>)
    ensures |es| <= |positions|
    ensures forall k :: 0 <= k < |es| ==> es[k].0 in positions && es[k].0 in m && m[es[k].0] == Some(es[k].1)
  {
    if positions == [] then []
    else
      var p := positions[0];
      if p in m && m[p].Some? then [(p, m[p].value)] + Edits(positions[1..], m)
      else Edits(positions[1..], m)
  }

  /**
   * Every edit names a genuine '*' of the statement, at or after the cut
   * point, in increasing order.
   */
  predicate AtAsterisks(stmt: string, es: seq<(int, string)>, lastPos: int) {
    es == [] || (0 <= lastPos <= es[0].0 < |stmt| && stmt[es[0].0] == '*' && AtAsterisks(stmt, es[1..], es[0].0 + 1))
  }

  /**
   * Exact-span replacement: each recorded '*' is replaced by its column
   * list between single spaces, and nothing else changes.
   */
  function ExactSplice(stmt: string, es: seq<(int, string)>, lastPos: nat): (r: string)
    requires lastPos <= |stmt| && AtAsterisks(stmt, es, lastPos)
    ensures |r| == |stmt| - lastPos + SpliceGrowth(es)
    decreases |es|
  {
    if es == [] then stmt[lastPos..]
    else stmt[lastPos..es[0].0] + " " + es[0].1 + " " + ExactSplice(stmt, es[1..], es[0].0 + 1)
  }

  /** How much longer the statement gets: each edit trades one '*' for its text and two spaces. */
  function SpliceGrowth(es: seq<(int, string)>): nat {
    if es == [] then 0 else |es[0].1| + 1 + SpliceGrowth(es[1..])
  }
}

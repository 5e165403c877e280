/**
 * The test-count scraper behind the dashboard's "Total Tests Collected" line
 * (`get_test_metrics`). It reads the standard output of
 * `pytest --collect-only` and reports the integer that follows the word
 * `collected`. The process run itself is outside the model: its captured
 * standard output is the input.
 */
module TestMetrics {
  import opened Text

  /** What the scraper returns: an integer, or the string "Unknown". */
  datatype Count = Collected(n: int) | Unknown

  const Keyword: string := "collected"

  /** Token `i` is exactly `collected` and the token after it parses as an integer. */
  predicate MatchAt(parts: seq<string>, i: int) {
    0 <= i && i + 1 < |parts| && parts[i] == Keyword && ParseInt(parts[i + 1]).Some?
  }

  /** `i` is the first token position of `parts` that matches. */
  predicate FirstMatchAt(parts: seq<string>, i: int) {
    MatchAt(parts, i) && forall j :: 0 <= j < i ==> !MatchAt(parts, j)
  }

  /** No token position from `i` up to, not including, `j` matches. */
  predicate NoMatchBetween(parts: seq<string>, i: int, j: int) {
    forall k :: i <= k < j ==> !MatchAt(parts, k)
  }

  /** Some whitespace-separated token of `line` is `collected` followed by an integer token. */
  predicate HasMatch(line: string) {
    var parts := Words(line);
    exists i | 0 <= i < |parts| :: MatchAt(parts, i)
  }

  /** Line `k` is the last line of `lines` that matches. */
  predicate LastMatchAt(lines: seq<string>, k: int) {
    0 <= k < |lines| && HasMatch(lines[k]) && forall k' :: k < k' < |lines| ==> !HasMatch(lines[k'])
  }

  /** The value a matching token position carries. */
  function ValueAt(parts: seq<string>, i: int): int
    requires MatchAt(parts, i)
  {
    ParseInt(parts[i + 1]).value
  }

  /**
   * The inner loop over the tokens of one line, from position `i` on: an exact
   * `collected` with a successor that parses ends the line (`break`); one whose
   * successor does not parse is passed over (`continue`); a trailing
   * `collected` has no successor and contributes nothing.
   */
  function ScanTokens(parts: seq<string>, i: nat): (r: Option<int>)
    ensures r.None? <==> forall j :: i <= j ==> !MatchAt(parts, j)
    ensures forall j :: i <= j && MatchAt(parts, j) && NoMatchBetween(parts, i, j) ==> r == Some(ValueAt(parts, j))
    decreases |parts| - i
  {
    if i >= |parts| then None
    else if MatchAt(parts, i) then Some(ValueAt(parts, i))
    else ScanTokens(parts, i + 1)
  }

  /** What one line contributes: lines without the substring `collected` are not split at all. */
  function LineValue(line: string): Option<int> {
    if Contains(line, Keyword) then ScanTokens(Words(line), 0) else None
  }

  /** The outer loop: each line with a value overwrites `collected`; the loop never stops early. */
  function ScanLines(lines: seq<string>, collected: Option<int>): Option<int>
    decreases |lines|
  {
    if |lines| == 0 then collected
    else
      var v := LineValue(lines[0]);
      ScanLines(lines[1..], if v.Some? then v else collected)
  }

  /**
   * `get_test_metrics` on the captured output `out`: strip it, split it into
   * lines, scan every line. The result is "Unknown" exactly when no line
   * matches; otherwise it is the value of the first match in the last
   * matching line.
   */
  function ParseCollected(out: string): (r: Count)
    ensures var lines := Lines(Strip(out));
      r == Unknown ==> forall k :: 0 <= k < |lines| ==> !HasMatch(lines[k])
    ensures var lines := Lines(Strip(out));
      (forall k :: 0 <= k < |lines| ==> !HasMatch(lines[k])) ==> r == Unknown
    ensures var lines := Lines(Strip(out));
      forall k, i :: LastMatchAt(lines, k) && FirstMatchAt(Words(lines[k]), i)
        ==> r == Collected(ValueAt(Words(lines[k]), i))
  {
    var lines := Lines(Strip(out));
    ScanSpec(lines);
    AsCount(ScanLines(lines, None))
  }

  /** The value the source returns for what the loops leave in `collected`. */
  function AsCount(v: Option<int>): Count {
    match v
    case Some(n) => Collected(n)
    case None => Unknown
  }

  /** Both loops, from `collected = None`, stated over the lines. */
  lemma ScanSpec(lines: seq<string>)
    ensures AsCount(ScanLines(lines, None)) == Unknown <==> forall k :: 0 <= k < |lines| ==> !HasMatch(lines[k])
    ensures forall k, i :: LastMatchAt(lines, k) && FirstMatchAt(Words(lines[k]), i)
              ==> AsCount(ScanLines(lines, None)) == Collected(ValueAt(Words(lines[k]), i))
  {
    ScanLinesNone(lines, None);
    ScanLinesLast(lines, None);
  }

  // ---------------------------------------------------------------------------
  // The substring filter and the two loops, stated declaratively
  // ---------------------------------------------------------------------------

  /** The substring test on a line never hides a match: a matching token occurs in the line. */
  lemma LineValueSpec(line: string)
    ensures LineValue(line).None? <==> !HasMatch(line)
    ensures forall i :: FirstMatchAt(Words(line), i) ==> LineValue(line) == Some(ValueAt(Words(line), i))
  {
    var parts := Words(line);
    if HasMatch(line) {
      var i :| 0 <= i < |parts| && MatchAt(parts, i);
      WordsOccur(line, i);
      assert parts[i] == Keyword;
    }
  }

  /** With no matching line the accumulator comes back unchanged; otherwise it is overwritten. */
  lemma {:induction false} ScanLinesNone(lines: seq<string>, collected: Option<int>)
    ensures (forall k :: 0 <= k < |lines| ==> !HasMatch(lines[k])) ==> ScanLines(lines, collected) == collected
    ensures collected.None? ==>
              (ScanLines(lines, collected).None? <==> forall k :: 0 <= k < |lines| ==> !HasMatch(lines[k]))
    decreases |lines|
  {
    if |lines| > 0 {
      LineValueSpec(lines[0]);
      var v := LineValue(lines[0]);
      var next := if v.Some? then v else collected;
      ScanLinesNone(lines[1..], next);
      assert forall k :: 1 <= k < |lines| ==> lines[1..][k - 1] == lines[k];
      if next.Some? {
        ScanLinesSome(lines[1..], next);
      }
    }
  }

  /** Once a value is held, the scan never returns to "no value". */
  lemma {:induction false} ScanLinesSome(lines: seq<string>, collected: Option<int>)
    requires collected.Some?
    ensures ScanLines(lines, collected).Some?
    decreases |lines|
  {
    if |lines| > 0 {
      var v := LineValue(lines[0]);
      ScanLinesSome(lines[1..], if v.Some? then v else collected);
    }
  }

  /** Last line wins: the scan returns the value of the last matching line. */
  lemma {:induction false} ScanLinesLast(lines: seq<string>, collected: Option<int>)
    ensures forall k, i :: LastMatchAt(lines, k) && FirstMatchAt(Words(lines[k]), i)
              ==> ScanLines(lines, collected) == Some(ValueAt(Words(lines[k]), i))
    decreases |lines|
  {
    if |lines| > 0 {
      var v := LineValue(lines[0]);
      var next := if v.Some? then v else collected;
      ScanLinesLast(lines[1..], next);
      forall k, i | LastMatchAt(lines, k) && FirstMatchAt(Words(lines[k]), i)
        ensures ScanLines(lines, collected) == Some(ValueAt(Words(lines[k]), i))
      {
        if k == 0 {
          LineValueSpec(lines[0]);
          ScanLinesNone(lines[1..], next);
          assert forall k' :: 0 <= k' < |lines[1..]| ==> !HasMatch(lines[1..][k']) by {
            forall k' | 0 <= k' < |lines[1..]| ensures !HasMatch(lines[1..][k']) {
              assert lines[1..][k'] == lines[k' + 1];
            }
          }
        } else {
          assert lines[1..][k - 1] == lines[k];
          assert LastMatchAt(lines[1..], k - 1) by {
            forall k' | k - 1 < k' < |lines[1..]| ensures !HasMatch(lines[1..][k']) {
              assert lines[1..][k'] == lines[k' + 1];
            }
          }
        }
      }
    }
  }

  // ---------------------------------------------------------------------------
  // The same two loops, written as loops
  // ---------------------------------------------------------------------------

  /** `get_test_metrics` as the nested loops of the source. */
  method CountCollected(out: string) returns (r: Count)
    ensures r == ParseCollected(out)
  {
    var lines := Lines(Strip(out));
    var collected: Option<int> := None;
    var k := 0;
    while k < |lines|
      invariant 0 <= k <= |lines|
      invariant ScanLines(lines[k..], collected) == ScanLines(lines, None)
    {
      var line := lines[k];
      if Contains(line, Keyword) {
        var v := FirstCollected(Words(line));
        if v.Some? {
          collected := v;
        }
      }
      assert lines[k..][0] == line && lines[k..][1..] == lines[k + 1..];
      k := k + 1;
    }
    r := AsCount(collected);
  }

  /**
   * The inner loop over one line's tokens: `break` at the first `collected`
   * whose successor parses, `continue` past one whose successor does not.
   */
  method FirstCollected(parts: seq<string>) returns (v: Option<int>)
    ensures v == ScanTokens(parts, 0)
  {
    v := None;
    var i := 0;
    while i < |parts|
      invariant 0 <= i <= |parts|
      invariant v == None && ScanTokens(parts, i) == ScanTokens(parts, 0)
    {
      if parts[i] == Keyword && i + 1 < |parts| {
        var parsed := ParseInt(parts[i + 1]);
        if parsed.Some? {
          v := parsed;
          break;
        }
      }
      i := i + 1;
    }
  }

  // ---------------------------------------------------------------------------
  // Output built from tokens
  // ---------------------------------------------------------------------------

  /** Lines of tokens joined by single spaces, lines joined by '\n'. */
  function Render(rows: seq<seq<string>>): string {
    JoinWith(RenderRows(rows), "\n")
  }

  function RenderRows(rows: seq<seq<string>>): (ls: seq<string>)
    ensures |ls| == |rows|
  {
    if |rows| == 0 then [] else [JoinWith(rows[0], " ")] + RenderRows(rows[1..])
  }

  /** The scan over the token lists directly, with the same last-row-wins rule. */
  function ScanRows(rows: seq<seq<string>>, collected: Option<int>): Option<int>
    decreases |rows|
  {
    if |rows| == 0 then collected
    else
      var v := ScanTokens(rows[0], 0);
      ScanRows(rows[1..], if v.Some? then v else collected)
  }

  lemma {:induction false} JoinedTokens(ws: seq<string>)
    requires Tokens(ws) && |ws| > 0
    ensures var s := JoinWith(ws, " ");
      |s| > 0 && s[0] == ws[0][0] && s[|s| - 1] == ws[|ws| - 1][|ws[|ws| - 1]| - 1] && '\n' !in s
    decreases |ws|
  {
    if |ws| > 1 {
      JoinedTokens(ws[1..]);
      var rest := JoinWith(ws[1..], " ");
      assert JoinWith(ws, " ") == ws[0] + " " + rest;
      assert forall k :: 0 <= k < |ws[0]| ==> ws[0][k] != '\n';
    } else {
      assert forall k :: 0 <= k < |ws[0]| ==> ws[0][k] != '\n';
    }
  }

  lemma StripUnchanged(s: string)
    requires s != [] && !IsSpace(s[0]) && !IsSpace(s[|s| - 1])
    ensures Strip(s) == s
  {
    StripPadded(s, []);
    assert s + [] == s;
  }

  /**
   * On output made of non-empty token lines, the scraper reads back exactly
   * the scan over the tokens: splitting lines and words recovers the tokens.
   */
  lemma RenderScan(rows: seq<seq<string>>)
    requires forall r :: 0 <= r < |rows| ==> Tokens(rows[r]) && |rows[r]| > 0
    ensures ParseCollected(Render(rows)) == AsCount(ScanRows(rows, None))
  {
    var ls := RenderRows(rows);
    RenderRowsFacts(rows);
    if |rows| > 0 {
      JoinEnds(ls);
      StripUnchanged(Render(rows));
    }
    LinesOfJoin(ls);
    ScanRowsLines(rows, None);
  }

  lemma {:induction false} RenderRowsFacts(rows: seq<seq<string>>)
    requires forall r :: 0 <= r < |rows| ==> Tokens(rows[r]) && |rows[r]| > 0
    ensures forall i :: 0 <= i < |rows| ==>
              var l := RenderRows(rows)[i];
              l == JoinWith(rows[i], " ") && l != [] && !IsSpace(l[0]) && !IsSpace(l[|l| - 1]) && '\n' !in l
    decreases |rows|
  {
    if |rows| > 0 {
      RenderRowsFacts(rows[1..]);
      JoinedTokens(rows[0]);
      forall i | 0 <= i < |rows|
        ensures var l := RenderRows(rows)[i];
          l == JoinWith(rows[i], " ") && l != [] && !IsSpace(l[0]) && !IsSpace(l[|l| - 1]) && '\n' !in l
      {
        if i == 0 {
          JoinedTokens(rows[0]);
          var w := rows[0][|rows[0]| - 1];
          assert !IsSpace(w[|w| - 1]);
        } else {
          assert rows[1..][i - 1] == rows[i];
        }
      }
    }
  }

  lemma {:induction false} ScanRowsLines(rows: seq<seq<string>>, collected: Option<int>)
    requires forall r :: 0 <= r < |rows| ==> Tokens(rows[r]) && |rows[r]| > 0
    ensures ScanLines(RenderRows(rows), collected) == ScanRows(rows, collected)
    decreases |rows|
  {
    if |rows| > 0 {
      var line := JoinWith(rows[0], " ");
      WordsOfJoin(rows[0]);
      LineValueSpec(line);
      var v := ScanTokens(rows[0], 0);
      assert LineValue(line) == v;
      assert RenderRows(rows)[1..] == RenderRows(rows[1..]);
      ScanRowsLines(rows[1..], if v.Some? then v else collected);
    }
  }

  // ---------------------------------------------------------------------------
  // The edge cases, on concrete outputs
  // ---------------------------------------------------------------------------

  /** pytest's usual output: the summary line mentions `collected` but not before an integer. */
  lemma PytestSummary(n: nat)
    ensures ParseCollected(Render([["collected", ShowNat(n), "items"],
                                   ["=====", ShowNat(n), "tests", "collected", "in", "0.01s", "====="]]))
            == Collected(n)
  {
    var r0 := ["collected", ShowNat(n), "items"];
    var r1 := ["=====", ShowNat(n), "tests", "collected", "in", "0.01s", "====="];
    CollectedItems(n);
    SummaryLine(n);
    assert ScanRows([r0, r1], None) == ScanRows([r1], Some(n));
    RenderScan([r0, r1]);
  }

  lemma CollectedItems(n: nat)
    ensures ScanTokens(["collected", ShowNat(n), "items"], 0) == Some(n)
    ensures Tokens(["collected", ShowNat(n), "items"])
  {
    ParseShowInt(n);
    NumberToken(n);
  }

  /** In the summary line `collected` is followed by `in`, which does not parse. */
  lemma SummaryLine(n: nat)
    ensures ScanTokens(["=====", ShowNat(n), "tests", "collected", "in", "0.01s", "====="], 0) == None
    ensures Tokens(["=====", ShowNat(n), "tests", "collected", "in", "0.01s", "====="])
  {
    var r1 := ["=====", ShowNat(n), "tests", "collected", "in", "0.01s", "====="];
    assert ParseInt("in").None?;
    NumberToken(n);
    assert forall j :: 0 <= j < |r1| ==> !MatchAt(r1, j);
  }

  /** Last line wins: a later matching line overwrites an earlier one. */
  lemma LastLineWins(a: nat, b: nat)
    ensures ParseCollected(Render([["collected", ShowNat(a)], ["collected", ShowNat(b)]])) == Collected(b)
  {
    var r0 := ["collected", ShowNat(a)];
    var r1 := ["collected", ShowNat(b)];
    CollectedNumber(a);
    CollectedNumber(b);
    assert ScanRows([r0, r1], None) == ScanRows([r1], Some(a));
    RenderScan([r0, r1]);
  }

  lemma CollectedNumber(n: nat)
    ensures ScanTokens(["collected", ShowNat(n)], 0) == Some(n)
    ensures Tokens(["collected", ShowNat(n)])
  {
    ParseShowInt(n);
    NumberToken(n);
  }

  /** A rendered number is a single token, and not the keyword. */
  lemma NumberToken(n: nat)
    ensures ShowNat(n) != [] && NoSpace(ShowNat(n)) && ShowNat(n) != Keyword
  {
    var s := ShowNat(n);
    assert IsDigit(s[0]);
    forall k | 0 <= k < |s| ensures !IsSpace(s[k]) {
      assert IsDigit(s[k]);
    }
  }

  /** Within a line the first match wins, and a non-integer successor is passed over. */
  lemma FirstTokenWins(a: nat, b: nat)
    ensures ParseCollected(Render([["collected", "x", "collected", ShowNat(a), "collected", ShowNat(b)]])) == Collected(a)
  {
    var r0 := ["collected", "x", "collected", ShowNat(a), "collected", ShowNat(b)];
    SkipsNonInteger(a, b);
    SkipsNonIntegerTokens(a, b);
    RenderScan([r0]);
  }

  /** The six tokens of the `FirstTokenWins` line are tokens. */
  lemma SkipsNonIntegerTokens(a: nat, b: nat)
    ensures Tokens(["collected", "x", "collected", ShowNat(a), "collected", ShowNat(b)])
  {
    var r0 := ["collected", "x", "collected", ShowNat(a), "collected", ShowNat(b)];
    NumberToken(a);
    NumberToken(b);
    KeywordToken();
    assert NoSpace("x");
    PairTokens(Keyword, "x");
    PairTokens(Keyword, ShowNat(a));
    PairTokens(Keyword, ShowNat(b));
    TokensAppend([Keyword, "x"], [Keyword, ShowNat(a)]);
    TokensAppend([Keyword, "x"] + [Keyword, ShowNat(a)], [Keyword, ShowNat(b)]);
    assert [Keyword, "x"] + [Keyword, ShowNat(a)] + [Keyword, ShowNat(b)] == r0;
  }

  /** `collected` is a token of its own. */
  lemma KeywordToken()
    ensures Keyword != [] && NoSpace(Keyword)
  {
    forall k | 0 <= k < |Keyword| ensures !IsSpace(Keyword[k]) {
    }
  }

  lemma PairTokens(w1: string, w2: string)
    requires w1 != [] && NoSpace(w1) && w2 != [] && NoSpace(w2)
    ensures Tokens([w1, w2])
  {
  }

  lemma TokensAppend(a: seq<string>, b: seq<string>)
    requires Tokens(a) && Tokens(b)
    ensures Tokens(a + b)
  {
    forall i | 0 <= i < |a + b| ensures (a + b)[i] != [] && NoSpace((a + b)[i]) {
      if i >= |a| {
        assert (a + b)[i] == b[i - |a|];
      }
    }
  }

  /** A `collected` followed by a token that does not parse is passed over; the next one matches. */
  lemma SkipsNonInteger(a: nat, b: nat)
    ensures ScanTokens(["collected", "x", "collected", ShowNat(a), "collected", ShowNat(b)], 0) == Some(a)
  {
    var r0 := ["collected", "x", "collected", ShowNat(a), "collected", ShowNat(b)];
    ParseShowInt(a);
    assert ParseInt("x").None?;
    assert !MatchAt(r0, 0) && !MatchAt(r0, 1) && MatchAt(r0, 2);
    assert NoMatchBetween(r0, 0, 2);
  }

  /** `collected:`, `uncollected` and a trailing `collected` never match. */
  lemma NearMissesAreUnknown(n: nat)
    ensures ParseCollected(Render([["collected:", ShowNat(n)], ["uncollected", ShowNat(n)], [ShowNat(n), "collected"]]))
            == Unknown
  {
    var r0 := ["collected:", ShowNat(n)];
    var r1 := ["uncollected", ShowNat(n)];
    var r2 := [ShowNat(n), "collected"];
    NearMiss(n, "collected:");
    NearMiss(n, "uncollected");
    TrailingKeyword(n);
    ScanRowsSkip(r0, [r1, r2], None);
    ScanRowsSkip(r1, [r2], None);
    ScanRowsSkip(r2, [], None);
    RenderScan([r0, r1, r2]);
  }

  /** A row without a match leaves the scan's value as it was. */
  lemma ScanRowsSkip(r: seq<string>, rest: seq<seq<string>>, collected: Option<int>)
    requires ScanTokens(r, 0) == None
    ensures ScanRows([r] + rest, collected) == ScanRows(rest, collected)
  {
    assert ([r] + rest)[0] == r && ([r] + rest)[1..] == rest;
  }

  /** A token that is not exactly `collected`, before a number, does not match. */
  lemma NearMiss(n: nat, w: string)
    requires w != Keyword && w != [] && NoSpace(w)
    ensures ScanTokens([w, ShowNat(n)], 0) == None && Tokens([w, ShowNat(n)])
  {
    NumberToken(n);
  }

  /** A `collected` with no token after it does not match. */
  lemma TrailingKeyword(n: nat)
    ensures ScanTokens([ShowNat(n), "collected"], 0) == None && Tokens([ShowNat(n), "collected"])
  {
    NumberToken(n);
  }

}

/**
 * String operations with the meaning Python's `str` gives them, restricted to
 * ASCII whitespace, '\n' line breaks and ASCII decimal digits: `strip()`,
 * `split()`, `split(sep)`, `splitlines()`, `sep.join(...)`, `int(...)`,
 * `str(...)`, `in`, `startswith`, `endswith` and `sorted` on strings.
 */
module Text {

  datatype Option<+T> = None | Some(value: T)

  // ---------------------------------------------------------------------------
  // Characters and infixes
  // ---------------------------------------------------------------------------

  /** Python's `str.isspace()` on ASCII: space, \t \n \v \f \r and the separators 0x1C-0x1F. */
  predicate IsSpace(c: char) {
    c == ' ' || 9 <= c as int <= 13 || 28 <= c as int <= 31
  }

  predicate AllSpace(s: string) {
    forall k :: 0 <= k < |s| ==> IsSpace(s[k])
  }

  predicate NoSpace(s: string) {
    forall k :: 0 <= k < |s| ==> !IsSpace(s[k])
  }

  /** Python's `s.startswith(p)`, arguments swapped. */
  predicate IsPrefix(p: string, s: string) {
    |p| <= |s| && s[..|p|] == p
  }

  /** Python's `s.endswith(suffix)`. */
  predicate EndsWith(s: string, suffix: string) {
    |suffix| <= |s| && s[|s| - |suffix|..] == suffix
  }

  /** Python's `t in s` on two strings. */
  predicate Contains(s: string, t: string) {
    exists i | 0 <= i <= |s| :: IsPrefix(t, s[i..])
  }

  lemma ContainsInfix(a: string, t: string, b: string)
    ensures Contains(a + t + b, t)
  {
    var s := a + t + b;
    assert s[|a|..][..|t|] == t;
  }

  lemma ContainsInSuffix(s: string, k: nat, t: string)
    requires k <= |s|
    requires Contains(s[k..], t)
    ensures Contains(s, t)
  {
    var i :| 0 <= i <= |s[k..]| && IsPrefix(t, s[k..][i..]);
    assert s[k..][i..] == s[k + i..];
  }

  /** The index of the first `c` in `s`, or `|s|` when `s` holds none. */
  function IndexOf(s: string, c: char): (n: nat)
    ensures n <= |s|
    ensures c !in s[..n]
    ensures n < |s| ==> s[n] == c
  {
    if |s| == 0 || s[0] == c then 0 else 1 + IndexOf(s[1..], c)
  }

  lemma IndexOfAbsent(s: string, c: char)
    requires c !in s
    ensures IndexOf(s, c) == |s|
  {
  }

  // ---------------------------------------------------------------------------
  // strip()
  // ---------------------------------------------------------------------------

  /** Number of leading whitespace characters. */
  function LeadingSpace(s: string): (n: nat)
    ensures n <= |s|
    ensures AllSpace(s[..n])
    ensures n < |s| ==> !IsSpace(s[n])
  {
    if |s| == 0 || !IsSpace(s[0]) then 0
    else
      var m := LeadingSpace(s[1..]);
      1 + m
  }

  /** Number of trailing whitespace characters. */
  function TrailingSpace(s: string): (n: nat)
    ensures n <= |s|
    ensures AllSpace(s[|s| - n..])
    ensures n < |s| ==> !IsSpace(s[|s| - n - 1])
  {
    if |s| == 0 || !IsSpace(s[|s| - 1]) then 0
    else
      var m := TrailingSpace(s[..|s| - 1]);
      TrailingStep(s, m);
      1 + m
  }

  /** One more whitespace character at the end lengthens the trailing run by one. */
  lemma TrailingStep(s: string, m: nat)
    requires |s| > 0 && IsSpace(s[|s| - 1])
    requires var t := s[..|s| - 1]; m <= |t| && AllSpace(t[|t| - m..]) && (m < |t| ==> !IsSpace(t[|t| - m - 1]))
    ensures AllSpace(s[|s| - (m + 1)..]) && (m + 1 < |s| ==> !IsSpace(s[|s| - (m + 1) - 1]))
  {
    var t := s[..|s| - 1];
    assert s[|s| - (m + 1)..] == t[|t| - m..] + [s[|s| - 1]];
  }

  /** `r` is the slice of `s` at `i` with only whitespace outside it. */
  predicate StrippedAt(s: string, r: string, i: int) {
    0 <= i <= i + |r| <= |s| && s[i..i + |r|] == r && AllSpace(s[..i]) && AllSpace(s[i + |r|..])
  }

  /** Python's `s.strip()`. */
  function Strip(s: string): (r: string)
    ensures exists i :: StrippedAt(s, r, i)
    ensures r != [] ==> !IsSpace(r[0]) && !IsSpace(r[|r| - 1])
    ensures r == [] <==> AllSpace(s)
  {
    var i := LeadingSpace(s);
    var n := TrailingSpace(s[i..]);
    SuffixOfSuffix(s, i, n);
    var j := |s| - n;
    StripBounds(s, i, j);
    var r := s[i..j];
    assert StrippedAt(s, r, i);
    r
  }

  /** The last `n` characters of `s[i..]` are the last `n` of `s`. */
  lemma SuffixOfSuffix(s: string, i: nat, n: nat)
    requires i <= |s| && n <= |s| - i
    ensures s[|s| - n..] == s[i..][|s| - i - n..]
    ensures n < |s| - i ==> s[|s| - n - 1] == s[i..][|s| - i - n - 1]
  {
  }

  /** Cutting whitespace runs off both ends leaves a slice with only whitespace outside it. */
  lemma StripBounds(s: string, i: nat, j: nat)
    requires i <= j <= |s|
    requires AllSpace(s[..i]) && (i < |s| ==> !IsSpace(s[i]))
    requires AllSpace(s[j..]) && (i < j ==> !IsSpace(s[j - 1]))
    ensures StrippedAt(s, s[i..j], i)
    ensures var r := s[i..j]; r != [] ==> !IsSpace(r[0]) && !IsSpace(r[|r| - 1])
    ensures i == j <==> AllSpace(s)
  {
    if i == j {
      assert s == s[..i] + s[j..];
    }
  }

  /** A string already free of whitespace at both ends, padded with whitespace: `strip()` removes the padding. */
  lemma StripPadded(s: string, t: string)
    requires s != [] && !IsSpace(s[0]) && !IsSpace(s[|s| - 1]) && AllSpace(t)
    ensures Strip(s + t) == s
  {
    var u := s + t;
    assert u[0] == s[0] && u[0..] == u;
    TrailingSpaceAppend(s, t);
    assert u[..|s|] == s;
  }

  /** Whitespace at both ends of a string free of it at its own ends: `strip()` removes exactly that whitespace. */
  lemma StripAround(l: string, s: string, t: string)
    requires AllSpace(l) && AllSpace(t)
    requires s != [] && !IsSpace(s[0]) && !IsSpace(s[|s| - 1])
    ensures Strip(l + s + t) == s
  {
    var u := l + s + t;
    var a, b := |l|, |l| + |s|;
    assert u[..a] == l && u[a..b] == s && u[b..] == t;
    assert u[a] == s[0] && u[b - 1] == s[|s| - 1];
    assert StrippedAt(u, s, a) by {
      StripBounds(u, a, b);
    }
    assert Strip(u) != [] by {
      assert !AllSpace(u);
    }
    StrippedUnique(u, Strip(u), s);
  }

  /** A slice with only whitespace outside it and none at its own ends is the only such slice. */
  lemma StrippedUnique(u: string, r: string, r': string)
    requires exists i :: StrippedAt(u, r, i)
    requires exists i :: StrippedAt(u, r', i)
    requires r != [] && !IsSpace(r[0]) && !IsSpace(r[|r| - 1])
    requires r' != [] && !IsSpace(r'[0]) && !IsSpace(r'[|r'| - 1])
    ensures r == r'
  {
    var i :| StrippedAt(u, r, i);
    var i' :| StrippedAt(u, r', i');
    assert u[i] == r[0] && u[i'] == r'[0];
    var e, e' := i + |r|, i' + |r'|;
    assert u[e - 1] == r[|r| - 1] && u[e' - 1] == r'[|r'| - 1];
  }

  lemma {:induction false} TrailingSpaceAppend(s: string, t: string)
    requires s != [] && !IsSpace(s[|s| - 1]) && AllSpace(t)
    ensures TrailingSpace(s + t) == |t|
    decreases |t|
  {
    var u := s + t;
    if t == [] {
      assert u == s;
    } else {
      var t' := t[..|t| - 1];
      assert u[..|u| - 1] == s + t' && u[|u| - 1] == t[|t| - 1];
      TrailingSpaceAppend(s, t');
    }
  }

  // ---------------------------------------------------------------------------
  // split() and " ".join()
  // ---------------------------------------------------------------------------

  /** Length of the leading run of non-whitespace characters. */
  function TokenEnd(s: string): (n: nat)
    ensures n <= |s|
    ensures NoSpace(s[..n])
    ensures n < |s| ==> IsSpace(s[n])
  {
    if |s| == 0 || IsSpace(s[0]) then 0
    else
      var m := TokenEnd(s[1..]);
      1 + m
  }

  /** Every token is non-empty and holds no whitespace. */
  predicate Tokens(ws: seq<string>) {
    forall i :: 0 <= i < |ws| ==> ws[i] != [] && NoSpace(ws[i])
  }

  /** Python's `s.split()` with no argument: the maximal runs of non-whitespace characters, in order. */
  function Words(s: string): (ws: seq<string>)
    ensures Tokens(ws)
    decreases |s|
  {
    if |s| == 0 then []
    else if IsSpace(s[0]) then Words(s[1..])
    else
      var n := TokenEnd(s);
      [s[..n]] + Words(s[n..])
  }

  /** Python's `sep.join(ls)`. */
  function JoinWith(ls: seq<string>, sep: string): string {
    if |ls| == 0 then ""
    else if |ls| == 1 then ls[0]
    else ls[0] + sep + JoinWith(ls[1..], sep)
  }

  /** Every word `split()` returns occurs in the string it came from. */
  lemma {:induction false} WordsOccur(s: string, i: nat)
    requires i < |Words(s)|
    ensures Contains(s, Words(s)[i])
    decreases |s|
  {
    if IsSpace(s[0]) {
      WordsOccur(s[1..], i);
      ContainsInSuffix(s, 1, Words(s)[i]);
    } else {
      var n := TokenEnd(s);
      if i == 0 {
        assert s[0..] == s;
        assert IsPrefix(s[..n], s[0..]);
      } else {
        WordsOccur(s[n..], i - 1);
        ContainsInSuffix(s, n, Words(s)[i]);
      }
    }
  }

  /** A string with no whitespace followed by whitespace (or nothing) is one token. */
  lemma {:induction false} TokenEndOfWord(w: string, t: string)
    requires NoSpace(w)
    requires t == [] || IsSpace(t[0])
    ensures TokenEnd(w + t) == |w|
    decreases |w|
  {
    if w != [] {
      assert (w + t)[1..] == w[1..] + t;
      TokenEndOfWord(w[1..], t);
    } else {
      assert w + t == t;
    }
  }

  /** `split()` undoes `" ".join()` on non-empty words without whitespace. */
  lemma {:induction false} WordsOfJoin(ws: seq<string>)
    requires Tokens(ws)
    ensures Words(JoinWith(ws, " ")) == ws
    decreases |ws|
  {
    if |ws| == 0 {
    } else if |ws| == 1 {
      TokenEndOfWord(ws[0], []);
      assert ws[0] + [] == ws[0];
      assert ws[0][|ws[0]|..] == [];
    } else {
      var rest := JoinWith(ws[1..], " ");
      var s := ws[0] + " " + rest;
      assert s == ws[0] + (" " + rest);
      TokenEndOfWord(ws[0], " " + rest);
      assert s[..|ws[0]|] == ws[0];
      assert s[|ws[0]|..] == " " + rest;
      assert (" " + rest)[1..] == rest;
      WordsOfJoin(ws[1..]);
      assert Words(s) == [ws[0]] + Words(" " + rest);
    }
  }

  /**
   * Whitespace gaps around `n` words: the first and last may be empty, the
   * ones between two words may not.
   */
  predicate Gaps(n: nat, gaps: seq<string>) {
    && |gaps| == n + 1
    && (forall i :: 0 <= i < |gaps| ==> AllSpace(gaps[i]))
    && (forall i :: 0 < i < n ==> gaps[i] != [])
  }

  /** The words laid out between the gaps: `gaps[0] + ws[0] + gaps[1] + ... + ws[n - 1] + gaps[n]`. */
  function Spread(ws: seq<string>, gaps: seq<string>): string
    requires |gaps| == |ws| + 1
    decreases |ws|
  {
    if |ws| == 0 then gaps[0] else gaps[0] + ws[0] + Spread(ws[1..], gaps[1..])
  }

  /**
   * `split()` in full: it returns `ws` exactly when the string is `ws` laid
   * out between whitespace gaps, every word non-empty and free of whitespace.
   */
  lemma WordsSpec(s: string, ws: seq<string>)
    requires Tokens(ws)
    ensures Words(s) == ws <==> exists gaps :: Gaps(|ws|, gaps) && Spread(ws, gaps) == s
  {
    if Words(s) == ws {
      var gaps := SpreadOfWords(s);
    }
    if exists gaps :: Gaps(|ws|, gaps) && Spread(ws, gaps) == s {
      var gaps :| Gaps(|ws|, gaps) && Spread(ws, gaps) == s;
      WordsOfSpread(ws, gaps);
    }
  }

  /** Words separated, preceded and followed by whitespace gaps come back from `split()`. */
  lemma {:induction false} WordsOfSpread(ws: seq<string>, gaps: seq<string>)
    requires Tokens(ws)
    requires Gaps(|ws|, gaps)
    ensures Words(Spread(ws, gaps)) == ws
    decreases |ws|
  {
    if |ws| == 0 {
      WordsOfSpace(gaps[0], []);
      assert gaps[0] + [] == gaps[0];
    } else {
      var rest := Spread(ws[1..], gaps[1..]);
      assert Gaps(|ws| - 1, gaps[1..]) by {
        forall i | 0 < i < |ws| - 1 ensures gaps[1..][i] != [] {
          assert gaps[1..][i] == gaps[i + 1];
        }
      }
      WordsOfSpread(ws[1..], gaps[1..]);
      SpreadStart(ws[1..], gaps[1..]);
      WordsCons(ws[0], rest);
      WordsOfSpace(gaps[0], ws[0] + rest);
      assert Spread(ws, gaps) == gaps[0] + (ws[0] + rest);
    }
  }

  /** Every string is its words laid out between whitespace gaps. */
  lemma {:induction false} SpreadOfWords(s: string) returns (gaps: seq<string>)
    ensures Gaps(|Words(s)|, gaps) && Spread(Words(s), gaps) == s
    decreases |s|
  {
    if |s| == 0 {
      gaps := [""];
    } else if IsSpace(s[0]) {
      var g := SpreadOfWords(s[1..]);
      gaps := GapPrepend(s[0], Words(s[1..]), g);
      assert [s[0]] + s[1..] == s;
    } else {
      var n := TokenEnd(s);
      var ws := Words(s[n..]);
      var g := SpreadOfWords(s[n..]);
      if ws != [] {
        assert s[n..] != [] && IsSpace(s[n..][0]);
        FirstGap(ws, g);
      }
      gaps := WordPrepend(s[..n], ws, g);
      assert s[..n] + s[n..] == s;
    }
  }

  /** One more whitespace character in front goes into the first gap. */
  lemma GapPrepend(c: char, ws: seq<string>, g: seq<string>) returns (gaps: seq<string>)
    requires IsSpace(c) && Gaps(|ws|, g)
    ensures Gaps(|ws|, gaps) && Spread(ws, gaps) == [c] + Spread(ws, g)
  {
    gaps := [[c] + g[0]] + g[1..];
    assert gaps[1..] == g[1..];
  }

  /** One more word in front comes with an empty first gap. */
  lemma WordPrepend(w: string, ws: seq<string>, g: seq<string>) returns (gaps: seq<string>)
    requires Gaps(|ws|, g) && (ws != [] ==> g[0] != [])
    ensures Gaps(|ws| + 1, gaps) && Spread([w] + ws, gaps) == w + Spread(ws, g)
  {
    gaps := [""] + g;
    assert gaps[1..] == g && ([w] + ws)[1..] == ws;
  }

  /** Laid-out words that start with whitespace have a non-empty first gap. */
  lemma FirstGap(ws: seq<string>, gaps: seq<string>)
    requires |ws| > 0 && ws[0] != [] && NoSpace(ws[0])
    requires |gaps| == |ws| + 1
    requires Spread(ws, gaps) != [] && IsSpace(Spread(ws, gaps)[0])
    ensures gaps[0] != []
  {
  }

  /** Leading whitespace does not change `split()`. */
  lemma {:induction false} WordsOfSpace(g: string, t: string)
    requires AllSpace(g)
    ensures Words(g + t) == Words(t)
    decreases |g|
  {
    if g == [] {
      assert g + t == t;
    } else {
      assert (g + t)[1..] == g[1..] + t;
      WordsOfSpace(g[1..], t);
    }
  }

  /** A word followed by whitespace, or by nothing, is the first thing `split()` returns. */
  lemma WordsCons(w: string, rest: string)
    requires w != [] && NoSpace(w)
    requires rest == [] || IsSpace(rest[0])
    ensures Words(w + rest) == [w] + Words(rest)
  {
    var u := w + rest;
    assert u[0] == w[0];
    TokenEndOfWord(w, rest);
    assert u[..|w|] == w && u[|w|..] == rest;
  }

  /** Laid-out words whose first gap is whitespace start with whitespace, or are empty. */
  lemma SpreadStart(ws: seq<string>, gaps: seq<string>)
    requires Gaps(|ws|, gaps)
    requires ws != [] ==> gaps[0] != []
    ensures var s := Spread(ws, gaps); s == [] || IsSpace(s[0])
  {
    if ws != [] {
      assert Spread(ws, gaps)[0] == gaps[0][0];
    }
  }

  // ---------------------------------------------------------------------------
  // split(sep) and splitlines()
  // ---------------------------------------------------------------------------

  /** Python's `s.split(c)` for a one-character separator: never empty, keeps empty parts. */
  function SplitOn(s: string, c: char): (parts: seq<string>)
    ensures |parts| >= 1
    ensures forall i :: 0 <= i < |parts| ==> c !in parts[i]
    decreases |s|
  {
    var n := IndexOf(s, c);
    if n == |s| then [s] else [s[..n]] + SplitOn(s[n + 1..], c)
  }

  /** Joining the parts of `s.split(c)` with `c` gives `s` back. */
  lemma {:induction false} JoinSplitOn(s: string, c: char)
    ensures JoinWith(SplitOn(s, c), [c]) == s
    decreases |s|
  {
    var n := IndexOf(s, c);
    if n < |s| {
      var post := s[n + 1..];
      SplitOnCut(s, c, n);
      JoinSplitOn(post, c);
      JoinWithCons(s[..n], SplitOn(post, c), [c]);
    }
  }

  /** `s.split(c)` cuts at the first `c`: the part before it, then the parts of the rest. */
  lemma SplitOnCut(s: string, c: char, n: nat)
    requires n == IndexOf(s, c) && n < |s|
    ensures SplitOn(s, c) == [s[..n]] + SplitOn(s[n + 1..], c)
    ensures s == s[..n] + [c] + s[n + 1..]
  {
  }

  /** Joining a list with one more item in front puts the item and a separator in front. */
  lemma JoinWithCons(x: string, ls: seq<string>, sep: string)
    requires |ls| > 0
    ensures JoinWith([x] + ls, sep) == x + sep + JoinWith(ls, sep)
  {
    assert ([x] + ls)[1..] == ls;
  }

  /** Appending `c + name` to a string appends `name` to its parts. */
  lemma {:induction false} SplitOnAppend(s: string, c: char, name: string)
    requires c !in name
    ensures SplitOn(s + [c] + name, c) == SplitOn(s, c) + [name]
    decreases |s|
  {
    var n := IndexOf(s, c);
    AppendSlices(s, c, name);
    if n < |s| {
      SplitOnAppend(s[n + 1..], c, name);
    } else {
      SplitOnAppendLast(s, c, name);
    }
  }

  lemma SplitOnAppendLast(s: string, c: char, name: string)
    requires c !in s && c !in name
    ensures SplitOn(s + [c] + name, c) == [s, name]
  {
    IndexOfAbsent(s, c);
    IndexOfAbsent(name, c);
    AppendSlices(s, c, name);
    assert s[..|s|] == s;
  }

  /** Where `s + [c] + name` is cut by its first `c`: at the first `c` of `s`, else at the appended one. */
  lemma AppendSlices(s: string, c: char, name: string)
    ensures var t := s + [c] + name; var n := IndexOf(s, c);
      && IndexOf(t, c) == n && t[..n] == s[..n]
      && t[n + 1..] == if n < |s| then s[n + 1..] + [c] + name else name
  {
    var t := s + [c] + name;
    var n := IndexOf(s, c);
    AppendIndex(s, c, name);
    if n < |s| {
      assert t[n + 1..] == s[n + 1..] + [c] + name;
    } else {
      assert t[n + 1..] == name;
    }
  }

  lemma AppendIndex(s: string, c: char, name: string)
    ensures IndexOf(s + [c] + name, c) == IndexOf(s, c)
    ensures (s + [c] + name)[..IndexOf(s, c)] == s[..IndexOf(s, c)]
  {
    var t := s + [c] + name;
    var n := IndexOf(s, c);
    assert t[..n] == s[..n];
    IndexOfFirst(t, c, n);
  }


  /** The first occurrence is the only position with `c` there and none before. */
  lemma IndexOfFirst(s: string, c: char, n: nat)
    requires n <= |s| && c !in s[..n] && (n < |s| ==> s[n] == c)
    ensures IndexOf(s, c) == n
  {
  }

  /** Finding `c` in `s + t` finds it in `s` first, or at `|s|` plus its place in `t`. */
  /** Python's `s.splitlines()` when '\n' is the only line break: no trailing empty line. */
  function Lines(s: string): (ls: seq<string>)
    ensures forall i :: 0 <= i < |ls| ==> '\n' !in ls[i]
    decreases |s|
  {
    if |s| == 0 then []
    else
      var n := IndexOf(s, '\n');
      if n == |s| then [s] else [s[..n]] + Lines(s[n + 1..])
  }

  /** The number of lines is the number of '\n', plus one for an unterminated last line. */
  lemma {:induction false} LinesCount(s: string)
    ensures |Lines(s)| == multiset(s)['\n'] + Unterminated(s)
    decreases |s|
  {
    if s != [] {
      var n := IndexOf(s, '\n');
      if n < |s| {
        LinesCountStep(s, n);
        LinesCount(s[n + 1..]);
      } else {
        assert multiset(s)['\n'] == 0;
      }
    }
  }

  /** 1 when `s` ends in a line without '\n' after it, else 0. */
  function Unterminated(s: string): nat {
    if s != [] && s[|s| - 1] != '\n' then 1 else 0
  }

  /** Cutting off the first line removes one line and one '\n', and keeps the end of the string. */
  lemma LinesCountStep(s: string, n: nat)
    requires n == IndexOf(s, '\n') && n < |s|
    ensures |Lines(s)| == 1 + |Lines(s[n + 1..])|
    ensures multiset(s)['\n'] == 1 + multiset(s[n + 1..])['\n']
    ensures Unterminated(s) == Unterminated(s[n + 1..])
  {
    var pre := s[..n];
    var post := s[n + 1..];
    assert '\n' !in pre;
    CountAround(s, n);
    if post != [] {
      assert post[|post| - 1] == s[|s| - 1];
    }
  }

  /** Counting a character around one of its occurrences. */
  lemma CountAround(s: string, n: nat)
    requires n < |s|
    ensures multiset(s)[s[n]] == multiset(s[..n])[s[n]] + 1 + multiset(s[n + 1..])[s[n]]
  {
    var pre := s[..n];
    var post := s[n + 1..];
    assert s == pre + [s[n]] + post;
  }

  /** `splitlines()` undoes `"\n".join()` when no line holds '\n' and the last line is not empty. */
  lemma {:induction false} LinesOfJoin(ls: seq<string>)
    requires forall i :: 0 <= i < |ls| ==> '\n' !in ls[i]
    requires ls == [] || ls[|ls| - 1] != []
    ensures Lines(JoinWith(ls, "\n")) == ls
    decreases |ls|
  {
    if |ls| == 1 {
      IndexOfAbsent(ls[0], '\n');
    } else if |ls| > 1 {
      var rest := ls[1..];
      forall i | 0 <= i < |rest| ensures '\n' !in rest[i] {
        assert rest[i] == ls[i + 1];
      }
      LinesOfJoin(rest);
      assert ls == [ls[0]] + rest;
      LinesOfJoinStep(ls[0], rest);
    }
  }

  lemma LinesOfJoinStep(x: string, rest: seq<string>)
    requires '\n' !in x && |rest| > 0
    requires Lines(JoinWith(rest, "\n")) == rest
    ensures Lines(JoinWith([x] + rest, "\n")) == [x] + rest
  {
    LinesCons(x, JoinWith(rest, "\n"));
    JoinWithCons(x, rest, "\n");
  }

  /** A first line without '\n', then '\n': `splitlines()` cuts it off first. */
  lemma LinesCons(a: string, rest: string)
    requires '\n' !in a
    ensures Lines(a + "\n" + rest) == [a] + Lines(rest)
  {
    var s := a + "\n" + rest;
    assert s[..|a|] == a && s[|a|] == '\n';
    IndexOfFirst(s, '\n', |a|);
    assert s[|a| + 1..] == rest;
  }

  /** The first and last characters of lines joined by '\n' are those of the first and last line. */
  lemma {:induction false} JoinEnds(ls: seq<string>)
    requires |ls| > 0
    requires forall i :: 0 <= i < |ls| ==> ls[i] != []
    ensures var s := JoinWith(ls, "\n");
      |s| > 0 && s[0] == ls[0][0] && s[|s| - 1] == ls[|ls| - 1][|ls[|ls| - 1]| - 1]
    decreases |ls|
  {
    if |ls| > 1 {
      JoinEnds(ls[1..]);
    }
  }

  /** Lines joined by '\n' begin with the first line and end with the last. */
  lemma {:induction false} JoinBounds(ls: seq<string>)
    requires |ls| > 0
    ensures var s := JoinWith(ls, "\n"); var z := ls[|ls| - 1];
      |ls[0]| <= |s| && s[..|ls[0]|] == ls[0] && |z| <= |s| && s[|s| - |z|..] == z
    decreases |ls|
  {
    if |ls| > 1 {
      JoinBounds(ls[1..]);
      var rest := JoinWith(ls[1..], "\n");
      var s := ls[0] + "\n" + rest;
      assert s[|s| - |rest|..] == rest;
    }
  }

  /** Where `s` begins with `p`, which holds more than whitespace: the whitespace `strip()` removes from the front of `s` lies inside `p`. */
  lemma LeadIn(s: string, p: string) returns (l: nat)
    requires |p| <= |s| && s[..|p|] == p && !AllSpace(p)
    ensures l < |p| && AllSpace(s[..l]) && !IsSpace(s[l])
    ensures forall c :: c in s[..l] ==> c in p
  {
    l := LeadingSpace(p);
    assert s[..l] == p[..l] && s[l] == p[l];
  }

  /** Where `s` ends with `z`, which holds more than whitespace: the whitespace `strip()` removes from the back of `s` lies inside `z`. */
  lemma TrailOut(s: string, z: string) returns (k: nat)
    requires |z| <= |s| && s[|s| - |z|..] == z && !AllSpace(z)
    ensures |s| - |z| < k <= |s| && AllSpace(s[k..]) && !IsSpace(s[k - 1])
    ensures forall c :: c in s[k..] ==> c in z
  {
    var t := TrailingSpace(z);
    k := |s| - t;
    assert s[k..] == z[|z| - t..] && s[k - 1] == z[|z| - t - 1];
  }

  /** Both edges of a string that is not all whitespace: the first non-space comes no later than the last. */
  lemma EdgesOrdered(s: string, l: nat, k: nat)
    requires l < |s| && AllSpace(s[..l]) && !IsSpace(s[l])
    requires 0 < k <= |s| && !IsSpace(s[k - 1])
    ensures l < k
  {
  }

  /**
   * A string that begins with `first` and ends with `last`, both more than
   * whitespace and free of '\n', split into the whitespace `strip()` removes
   * and the core it keeps: every '\n' of the string lies in the core.
   */
  lemma StripCore(s: string, first: string, last: string) returns (pre: string, core: string, rest: string)
    requires |first| <= |s| && s[..|first|] == first && !AllSpace(first) && '\n' !in first
    requires |last| <= |s| && s[|s| - |last|..] == last && !AllSpace(last) && '\n' !in last
    ensures s == pre + core + rest
    ensures AllSpace(pre) && AllSpace(rest)
    ensures core != [] && !IsSpace(core[0]) && !IsSpace(core[|core| - 1])
    ensures multiset(core)['\n'] == multiset(s)['\n']
  {
    var l := LeadIn(s, first);
    var k := TrailOut(s, last);
    EdgesOrdered(s, l, k);
    pre, core, rest := s[..l], s[l..k], s[k..];
    assert core[0] == s[l] && core[|core| - 1] == s[k - 1];
    assert s == pre + core + rest;
    assert multiset(s) == multiset(pre) + multiset(core) + multiset(rest);
  }

  /** Lines free of '\n' joined by '\n' hold one '\n' fewer than there are lines. */
  lemma {:induction false} JoinNewlines(ls: seq<string>)
    requires |ls| > 0
    requires forall i :: 0 <= i < |ls| ==> '\n' !in ls[i]
    ensures multiset(JoinWith(ls, "\n"))['\n'] == |ls| - 1
    decreases |ls|
  {
    if |ls| > 1 {
      JoinNewlines(ls[1..]);
      assert ls[1..][0] == ls[1];
      var rest := JoinWith(ls[1..], "\n");
      assert multiset(ls[0] + "\n" + rest) == multiset(ls[0]) + multiset("\n") + multiset(rest);
    }
  }

  /** Joining one more item appends the separator and the item. */
  lemma {:induction false} JoinWithSnoc(ls: seq<string>, x: string, sep: string)
    requires |ls| > 0
    ensures JoinWith(ls + [x], sep) == JoinWith(ls, sep) + sep + x
    decreases |ls|
  {
    if |ls| > 1 {
      assert (ls + [x])[1..] == ls[1..] + [x];
      JoinWithSnoc(ls[1..], x, sep);
    } else {
      assert ls + [x] == [ls[0], x];
    }
  }

  /** Joining two non-empty lists is joining each and putting the separator between. */
  lemma {:induction false} JoinWithConcat(a: seq<string>, b: seq<string>, sep: string)
    requires |a| > 0 && |b| > 0
    ensures JoinWith(a + b, sep) == JoinWith(a, sep) + sep + JoinWith(b, sep)
    decreases |a|
  {
    if |a| > 1 {
      assert (a + b)[1..] == a[1..] + b;
      JoinWithConcat(a[1..], b, sep);
    } else {
      assert (a + b)[1..] == b;
    }
  }

  // ---------------------------------------------------------------------------
  // int() and str()
  // ---------------------------------------------------------------------------

  predicate IsDigit(c: char) {
    '0' <= c <= '9'
  }

  /** One or more ASCII decimal digits. */
  predicate IsDigits(s: string) {
    |s| > 0 && forall k :: 0 <= k < |s| ==> IsDigit(s[k])
  }

  function DigitValue(c: char): nat
    requires IsDigit(c)
  {
    c as int - '0' as int
  }

  function DigitChar(d: nat): (c: char)
    requires d < 10
    ensures IsDigit(c) && DigitValue(c) == d
  {
    ('0' as int + d) as char
  }

  /** The value of a string of decimal digits, most significant first; leading zeros allowed. */
  function DigitsValue(s: string): nat
    requires forall k :: 0 <= k < |s| ==> IsDigit(s[k])
  {
    if |s| == 0 then 0 else 10 * DigitsValue(s[..|s| - 1]) + DigitValue(s[|s| - 1])
  }

  /** Python's `int(s)` on an optional sign and ASCII digits, with no limit on the number of digits; `None` where that parse fails. */
  function ParseInt(s: string): (r: Option<int>)
    ensures r.Some? <==> IsDigits(s) || (|s| >= 2 && (s[0] == '+' || s[0] == '-') && IsDigits(s[1..]))
  {
    if |s| > 0 && (s[0] == '+' || s[0] == '-') then
      if IsDigits(s[1..]) then
        var v: int := DigitsValue(s[1..]);
        Some(if s[0] == '-' then -v else v)
      else None
    else if IsDigits(s) then Some(DigitsValue(s))
    else None
  }

  /** Python's `str(n)` for a natural number. */
  function ShowNat(n: nat): (s: string)
    ensures IsDigits(s)
  {
    if n < 10 then [DigitChar(n)] else ShowNat(n / 10) + [DigitChar(n % 10)]
  }

  /** Python's `str(n)`. */
  function ShowInt(n: int): string {
    if n < 0 then "-" + ShowNat(-n) else ShowNat(n)
  }

  lemma {:induction false} DigitsValueShowNat(n: nat)
    ensures DigitsValue(ShowNat(n)) == n
  {
    var s := ShowNat(n);
    if n >= 10 {
      DigitsValueShowNat(n / 10);
      assert s[..|s| - 1] == ShowNat(n / 10);
    }
  }

  /** `int(str(n)) == n`. */
  lemma ParseShowInt(n: int)
    ensures ParseInt(ShowInt(n)) == Some(n)
  {
    if n < 0 {
      DigitsValueShowNat(-n);
      assert ShowInt(n)[1..] == ShowNat(-n);
    } else {
      DigitsValueShowNat(n);
    }
  }

  // ---------------------------------------------------------------------------
  // sorted() on strings
  // ---------------------------------------------------------------------------

  /** Python's `a <= b` on strings: lexicographic order of code points. */
  predicate LessEq(a: string, b: string) {
    |a| == 0 || (|b| > 0 && (a[0] < b[0] || (a[0] == b[0] && LessEq(a[1..], b[1..]))))
  }

  lemma {:induction false} LessEqTotal(a: string, b: string)
    ensures LessEq(a, b) || LessEq(b, a)
    decreases |a|
  {
    if |a| > 0 && |b| > 0 && a[0] == b[0] {
      LessEqTotal(a[1..], b[1..]);
    }
  }

  lemma {:induction false} LessEqTransitive(a: string, b: string, c: string)
    requires LessEq(a, b) && LessEq(b, c)
    ensures LessEq(a, c)
    decreases |a|
  {
    if |a| > 0 && a[0] == b[0] && b[0] == c[0] {
      LessEqTransitive(a[1..], b[1..], c[1..]);
    }
  }

  lemma {:induction false} LessEqAntisymmetric(a: string, b: string)
    requires LessEq(a, b) && LessEq(b, a)
    ensures a == b
    decreases |a|
  {
    if |a| > 0 {
      LessEqAntisymmetric(a[1..], b[1..]);
      assert a == [a[0]] + a[1..] && b == [b[0]] + b[1..];
    }
  }

  predicate Sorted(s: seq<string>) {
    forall i, j :: 0 <= i < j < |s| ==> LessEq(s[i], s[j])
  }

  /** Two sorted arrangements of the same strings are the same sequence. */
  lemma {:induction false} SortedUnique(a: seq<string>, b: seq<string>)
    requires Sorted(a) && Sorted(b) && multiset(a) == multiset(b)
    ensures a == b
    decreases |a|
  {
    assert |a| == |multiset(a)| == |multiset(b)| == |b|;
    if |a| > 0 {
      SameFirst(a, b);
      SameRest(a, b);
      SortedUnique(a[1..], b[1..]);
      assert a == [a[0]] + a[1..] && b == [b[0]] + b[1..];
    }
  }

  /** Sorted arrangements of the same strings start with the same string. */
  lemma SameFirst(a: seq<string>, b: seq<string>)
    requires Sorted(a) && Sorted(b) && multiset(a) == multiset(b) && |a| > 0 && |b| > 0
    ensures a[0] == b[0]
  {
    assert a[0] in multiset(b) && b[0] in multiset(a);
    LeastFirst(a, b[0]);
    LeastFirst(b, a[0]);
    LessEqAntisymmetric(a[0], b[0]);
  }

  /** Removing the common first string leaves sorted arrangements of the same strings. */
  lemma SameRest(a: seq<string>, b: seq<string>)
    requires Sorted(a) && multiset(a) == multiset(b) && |a| > 0 && |b| > 0 && a[0] == b[0]
    ensures Sorted(a[1..]) && multiset(a[1..]) == multiset(b[1..])
  {
    SortedTail(a);
    assert multiset(a[1..]) == multiset(a) - multiset{a[0]} by {
      assert a == [a[0]] + a[1..];
    }
    assert multiset(b[1..]) == multiset(b) - multiset{b[0]} by {
      assert b == [b[0]] + b[1..];
    }
  }

  /** Every suffix of a sorted sequence is sorted. */
  lemma SortedTail(a: seq<string>)
    requires Sorted(a) && |a| > 0
    ensures Sorted(a[1..])
  {
    forall i, j | 0 <= i < j < |a[1..]|
      ensures LessEq(a[1..][i], a[1..][j])
    {
      assert a[1..][i] == a[i + 1] && a[1..][j] == a[j + 1];
    }
  }

  /** The first element of a sorted sequence is below every element of it. */
  lemma LeastFirst(a: seq<string>, x: string)
    requires Sorted(a) && x in multiset(a)
    ensures LessEq(a[0], x)
  {
    var k :| 0 <= k < |a| && a[k] == x;
    if k == 0 {
      LessEqTotal(x, x);
    }
  }

  /** `sorted()` is determined by its contract: it is the only sorted permutation of its input. */
  lemma SortUnique(s: seq<string>, r: seq<string>)
    requires Sorted(r) && multiset(r) == multiset(s)
    ensures r == Sort(s)
  {
    SortedUnique(r, Sort(s));
  }

  /** Inserts `x` into a sorted sequence before the first element not below it. */
  function Insert(x: string, s: seq<string>): (r: seq<string>)
    requires Sorted(s)
    ensures Sorted(r)
    ensures multiset(r) == multiset(s) + multiset{x}
  {
    if |s| == 0 then [x]
    else if LessEq(x, s[0]) then
      InsertFront(x, s);
      [x] + s
    else
      var t := Insert(x, s[1..]);
      InsertAfter(x, s, t);
      [s[0]] + t
  }

  lemma InsertFront(x: string, s: seq<string>)
    requires Sorted(s) && |s| > 0 && LessEq(x, s[0])
    ensures Sorted([x] + s)
  {
    forall j | 0 <= j < |s| ensures LessEq(x, s[j]) {
      if j > 0 { LessEqTransitive(x, s[0], s[j]); }
    }
  }

  lemma InsertAfter(x: string, s: seq<string>, t: seq<string>)
    requires Sorted(s) && |s| > 0 && !LessEq(x, s[0])
    requires Sorted(t) && multiset(t) == multiset(s[1..]) + multiset{x}
    ensures Sorted([s[0]] + t)
    ensures multiset([s[0]] + t) == multiset(s) + multiset{x}
  {
    LessEqTotal(x, s[0]);
    forall j | 0 <= j < |t| ensures LessEq(s[0], t[j]) {
      assert t[j] in multiset(t);
      if t[j] != x {
        assert t[j] in multiset(s[1..]);
        var k :| 0 <= k < |s[1..]| && s[1..][k] == t[j];
        assert s[k + 1] == t[j];
      }
    }
    assert s == [s[0]] + s[1..];
  }

  /** Python's `sorted(s)` on strings. */
  function Sort(s: seq<string>): (r: seq<string>)
    ensures Sorted(r)
    ensures multiset(r) == multiset(s)
  {
    if |s| == 0 then []
    else
      assert s == [s[0]] + s[1..];
      Insert(s[0], Sort(s[1..]))
  }
}

/**
 * The version-control line of the dashboard (`get_git_metrics`): the current
 * branch and the number of uncommitted changes, or nothing at all outside a
 * Git working tree. The two `git` processes are outside the model: `run`
 * stands for running a query and capturing its standard output.
 */
module GitMetrics {
  import opened Text

  /** The pair the source returns: `(branch, changes_count)`, both None outside a repository. */
  datatype GitReport = GitReport(branch: Option<string>, changes: Option<nat>)

  const BranchQuery: seq<string> := ["git", "rev-parse", "--abbrev-ref", "HEAD"]
  const StatusQuery: seq<string> := ["git", "status", "--porcelain"]

  /**
   * The change count: the number of lines of the stripped
   * `git status --porcelain` output. Whitespace-only output counts 0;
   * otherwise every '\n' left after stripping separates two lines.
   */
  function ChangeCount(statusOut: string): (n: nat)
    ensures n == 0 <==> AllSpace(statusOut)
    ensures n == if AllSpace(statusOut) then 0 else multiset(Strip(statusOut))['\n'] + 1
  {
    var s := Strip(statusOut);
    LinesCount(s);
    |Lines(s)|
  }

  /**
   * `get_git_metrics`: without a `.git` entry nothing is queried and both
   * values are absent; otherwise the stripped branch name and the change count.
   * The second component lists the queries run, in order.
   */
  function GetGitMetrics(hasGitDir: bool, run: seq<string> -> string): (r: (GitReport, seq<seq<string>>))
    ensures !hasGitDir ==> r.0 == GitReport(None, None) && r.1 == []
    ensures hasGitDir ==> r.1 == [BranchQuery, StatusQuery]
    ensures hasGitDir ==> r.0.branch == Some(Strip(run(BranchQuery)))
    ensures hasGitDir ==> r.0.changes == Some(ChangeCount(run(StatusQuery)))
    ensures hasGitDir ==> r.0.changes.Some? && (r.0.changes.value == 0 <==> AllSpace(run(StatusQuery)))
  {
    if !hasGitDir then (GitReport(None, None), [])
    else
      var branch := Strip(run(BranchQuery));
      var changes := ChangeCount(run(StatusQuery));
      (GitReport(Some(branch), Some(changes)), [BranchQuery, StatusQuery])
  }

  /**
   * Porcelain output of `n` status lines, each ending in '\n', counts `n`
   * changes. A line may start with a space (` M path`, a change only in the
   * working tree); it only has to hold something other than whitespace.
   */
  lemma CountsStatusLines(entries: seq<string>)
    requires forall i :: 0 <= i < |entries| ==> !AllSpace(entries[i])
    requires forall i :: 0 <= i < |entries| ==> '\n' !in entries[i]
    ensures ChangeCount(JoinWith(entries, "\n") + "\n") == |entries|
  {
    if |entries| == 0 {
      assert JoinWith(entries, "\n") + "\n" == "\n";
    } else {
      CountsSomeStatusLines(entries);
    }
  }

  lemma CountsSomeStatusLines(entries: seq<string>)
    requires |entries| > 0
    requires forall i :: 0 <= i < |entries| ==> !AllSpace(entries[i])
    requires forall i :: 0 <= i < |entries| ==> '\n' !in entries[i]
    ensures ChangeCount(JoinWith(entries, "\n") + "\n") == |entries|
  {
    var out := JoinWith(entries, "\n") + "\n";
    var pre, core, post := StatusCore(entries);
    assert Strip(out) == core by {
      StripAround(pre, core, post);
    }
  }

  /** The joined lines split into leading whitespace, a core holding every separator, and trailing whitespace. */
  lemma StatusCore(entries: seq<string>) returns (pre: string, core: string, post: string)
    requires |entries| > 0
    requires forall i :: 0 <= i < |entries| ==> !AllSpace(entries[i])
    requires forall i :: 0 <= i < |entries| ==> '\n' !in entries[i]
    ensures JoinWith(entries, "\n") + "\n" == pre + core + post
    ensures AllSpace(pre) && AllSpace(post)
    ensures core != [] && !IsSpace(core[0]) && !IsSpace(core[|core| - 1])
    ensures multiset(core)['\n'] == |entries| - 1
  {
    var body := JoinWith(entries, "\n");
    JoinBounds(entries);
    JoinNewlines(entries);
    var rest;
    pre, core, rest := StripCore(body, entries[0], entries[|entries| - 1]);
    post := rest + "\n";
  }
}

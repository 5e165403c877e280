/**
 * The documentation line of the dashboard (`get_doc_status`): whether the
 * project has a `docs` entry holding `conf.py`. `present` stands for
 * `os.path.exists`, which is true of files and directories alike.
 */
module DocStatus {
  import opened Files

  datatype Status = SetUp | ConfMissing | NotSetUp

  /** The three strings the dashboard prints. */
  function Message(s: Status): string {
    match s
    case SetUp => "Documentation is set up."
    case ConfMissing => "Docs folder exists but 'conf.py' is missing."
    case NotSetUp => "Documentation not set up."
  }

  function DocsPath(projectPath: string): string {
    Join(projectPath, "docs")
  }

  function ConfPath(projectPath: string): string {
    Join(DocsPath(projectPath), "conf.py")
  }

  /**
   * `get_doc_status`: set up when both `docs` and `docs/conf.py` exist, the
   * missing-conf status when only `docs` exists, not set up when `docs` does
   * not exist, whatever is true of `conf.py`.
   */
  function GetDocStatus(present: string -> bool, projectPath: string): (s: Status)
    ensures s == SetUp <==> present(DocsPath(projectPath)) && present(ConfPath(projectPath))
    ensures s == ConfMissing <==> present(DocsPath(projectPath)) && !present(ConfPath(projectPath))
    ensures s == NotSetUp <==> !present(DocsPath(projectPath))
  {
    if present(DocsPath(projectPath)) then
      if present(ConfPath(projectPath)) then SetUp else ConfMissing
    else NotSetUp
  }

  /** The three statuses print three different strings. */
  lemma MessagesDistinct(a: Status, b: Status)
    ensures Message(a) == Message(b) <==> a == b
  {
    if a != b {
      assert Message(a)[..6] != Message(b)[..6] || |Message(a)| != |Message(b)|;
    }
  }

  /**
   * `conf.py` is consulted only when `docs` exists: two file systems that
   * agree on `docs`, and on `docs/conf.py` when `docs` exists, get the same
   * status.
   */
  lemma ConfConsultedOnlyWithDocs(e1: string -> bool, e2: string -> bool, projectPath: string)
    requires e1(DocsPath(projectPath)) == e2(DocsPath(projectPath))
    requires e1(DocsPath(projectPath)) ==> e1(ConfPath(projectPath)) == e2(ConfPath(projectPath))
    ensures GetDocStatus(e1, projectPath) == GetDocStatus(e2, projectPath)
  {
  }
}

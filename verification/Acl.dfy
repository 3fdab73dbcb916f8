/** ACL rows: parsing a line of `ls -le`, and the questions asked of rows. */
module Acl {
  import opened Wrappers
  import opened Text

  datatype Kind = Allow | Deny

  datatype Row = Row(index: int, principal: string, kind: Kind, perms: seq<string>, inherit: bool)

  datatype Grant = Grant(principal: string, perms: seq<string>, inherit: bool)

  datatype ReadResult = ReadResult(rows: seq<Row>, ok: bool)

  const DEVGROUP := "group:dev"

  const DEVPERMS := ["read", "write", "execute", "append", "delete", "delete_child",
                     "readattr", "writeattr", "readextattr", "writeextattr", "readsecurity"]

  const AGENTTRAVERSE := Grant("user:agent", ["execute", "readattr", "readextattr", "readsecurity"], false)

  const DEVINHERITABLE := Grant(DEVGROUP, DEVPERMS, true)

  const DEVPLAIN := Grant(DEVGROUP, DEVPERMS, false)

  // ---- parsing ------------------------------------------------------------------------------------------------

  predicate IsDigit(c: char) {
    '0' <= c <= '9'
  }

  function Digits(s: string): Option<int> {
    if s == "" then Some(0)
    else if !IsDigit(s[|s| - 1]) then None
    else
      match Digits(s[..|s| - 1])
      case None => None
      case Some(n) => Some(10 * n + (s[|s| - 1] as int - '0' as int))
  }

  const MAXINT := 0x7FFF_FFFF_FFFF_FFFF

  /** `strconv.Atoi` on a 64-bit machine. */
  function Atoi(s: string): Option<int> {
    var signed := s != "" && (s[0] == '-' || s[0] == '+');
    var body := if signed then s[1..] else s;
    if body == "" then None
    else
      match Digits(body)
      case None => None
      case Some(n) =>
        var value := if signed && s[0] == '-' then -n else n;
        if -MAXINT - 1 <= value <= MAXINT then Some(value) else None
  }

  /** The runs of non-space characters. */
  function Fields(s: string): seq<string> {
    if s == "" then []
    else
      var last := s[|s| - 1];
      var rest := Fields(s[..|s| - 1]);
      if IsSpace(last) then rest
      else if |s| == 1 || IsSpace(s[|s| - 2]) || rest == [] then rest + [[last]]
      else rest[..|rest| - 1] + [rest[|rest| - 1] + [last]]
  }

  function TrimIndent(s: string): string {
    if s != "" && (s[0] == ' ' || s[0] == '\t') then TrimIndent(s[1..]) else s
  }

  /** What follows the index and the colon. */
  function ParseRowFields(index: int, fields: seq<string>): Option<Row> {
    if |fields| < 3 then None
    else
      var k := if fields[1] == "inherited" then 2 else 1;
      if k + 1 >= |fields| || (fields[k] != "allow" && fields[k] != "deny") then None
      else
        var perms := Split(fields[k + 1], ',');
        Some(Row(index, fields[0], if fields[k] == "allow" then Allow else Deny, perms,
                 "file_inherit" in perms && "directory_inherit" in perms))
  }

  function ParseRow(line: string): Option<Row> {
    var trimmed := TrimIndent(line);
    var colon := IndexOf(trimmed, ':');
    if colon <= 0 then None
    else
      match Atoi(trimmed[..colon])
      case None => None
      case Some(index) => ParseRowFields(index, Fields(trimmed[colon + 1..]))
  }

  // ---- questions ----------------------------------------------------------------------------------------------

  predicate Satisfies(r: Row, g: Grant) {
    r.kind == Allow && r.principal == g.principal && (g.inherit ==> r.inherit)
  }

  function AclPermAliases(perm: string): seq<string> {
    if perm == "read" then ["read", "list"]
    else if perm == "write" then ["write", "add_file", "add_subdirectory"]
    else if perm == "execute" then ["execute", "search"]
    else if perm == "append" then ["append", "add_subdirectory"]
    else [perm]
  }

  predicate GrantsPerm(r: Row, perm: string) {
    exists a :: a in AclPermAliases(perm) && a in r.perms
  }

  predicate AclRowsSatisfy(rows: seq<Row>, g: Grant) {
    exists r :: r in rows && Satisfies(r, g)
  }

  predicate HomeHasAgentTraverse(rows: seq<Row>) {
    exists r :: r in rows && Satisfies(r, AGENTTRAVERSE) && GrantsPerm(r, "execute")
  }

  function AclSyntheticRowForGrant(g: Grant): Row {
    Row(0, g.principal, Allow, g.perms, g.inherit)
  }
}

/** The filter lists of core/filter_engine.cc: parsing "entry[:cmd|cmd],..." lists into
merged rule lists, and matching schemas and tables against them. */
module Rules {
  import opened Bytes

  /** The command classes, in the order of their bits. */
  datatype Command =
    | Select | Insert | Update | Delete | Replace | Load | Call | Create | Alter | Drop | Truncate | Rename
    | Other | Commit | Rollback | Begin | Savepoint

  /** A union of command classes. The source keeps it as one bit per class. */
  type Mask = set<Command>

  const CMD_DML: Mask := {Insert, Update, Delete, Replace, Load}
  const CMD_DDL: Mask := {Create, Alter, Drop, Truncate, Rename}
  const CMD_TCL: Mask := {Commit, Rollback, Begin, Savepoint}
  const CMD_ALL: Mask := {Select, Call, Other} + CMD_DML + CMD_DDL + CMD_TCL

  lemma AllCommands()
    ensures forall c: Command :: c in CMD_ALL
  {
    forall c: Command ensures c in CMD_ALL {
      match c { case Select => case Insert => case _ => }
    }
  }

  type Table = seq<(string, Mask)>

  /** The qualifier tokens. */
  function CmdTokens(): Table {
    [("select", {Select}), ("insert", {Insert}), ("update", {Update}), ("delete", {Delete}),
     ("replace", {Replace}), ("load", {Load}), ("call", {Call}), ("create", {Create}), ("alter", {Alter}),
     ("drop", {Drop}), ("truncate", {Truncate}), ("rename", {Rename}), ("other", {Other}),
     ("commit", {Commit}), ("rollback", {Rollback}), ("begin", {Begin}), ("savepoint", {Savepoint}),
     ("dml", CMD_DML), ("ddl", CMD_DDL), ("tcl", CMD_TCL), ("all", CMD_ALL)]
  }

  /** The first row with this key. */
  function Lookup(rows: Table, key: string): (r: Option<Mask>)
    ensures r.Some? <==> exists i :: 0 <= i < |rows| && rows[i].0 == key
    ensures r.Some? ==> (key, r.value) in rows
  {
    if rows == [] then None
    else if rows[0].0 == key then Some(rows[0].1)
    else
      var r := Lookup(rows[1..], key);
      assert forall i :: 0 <= i < |rows[1..]| ==> rows[1..][i] == rows[i + 1];
      assert forall i :: 0 < i < |rows| ==> rows[i] == rows[1..][i - 1];
      r
  }

  // ---- tokens ----

  function TrimLeft(s: string): string { if s != [] && IsSpace(s[0]) then TrimLeft(s[1..]) else s }

  function TrimRight(s: string): string {
    if s != [] && IsSpace(s[|s| - 1]) then TrimRight(s[..|s| - 1]) else s
  }

  function Trim(s: string): string { TrimRight(TrimLeft(s)) }

  /** Trimmed and folded to lower case. */
  function Clean(raw: string): string { Lower(Trim(raw)) }

  function Field(raw: string): seq<string> { if Clean(raw) == [] then [] else [Clean(raw)] }

  function NonEmpty(fields: seq<string>): seq<string> {
    if fields == [] then [] else Field(fields[0]) + NonEmpty(fields[1..])
  }

  /** The entries of a list; an absent list has none. */
  function Tokens(csv: Option<string>): seq<string> {
    if csv.None? then [] else NonEmpty(Split(csv.value, ','))
  }

  /** Strip one pair of surrounding backticks. */
  function StripTicks(part: string): string {
    if |part| >= 2 && part[0] == '`' && part[|part| - 1] == '`' then part[1..|part| - 1] else part
  }

  // ---- what one entry means ----

  datatype Result<+T> = Ok(value: T) | Bad(token: string)
  {
    function Error(): Option<string> { if Bad? then Some(token) else None }
  }

  datatype Rule =
    | SchemaRule(schema: string, cmds: Mask)
    | WildcardRule(schema: string, cmds: Mask)
    | TableRule(schema: string, table: string, cmds: Mask)

  /** The union of the named command classes; unknown names make the whole unknown. */
  function NamedCmds(names: seq<string>): Option<Mask> {
    if names == [] then Some({})
    else match (Lookup(CmdTokens(), Trim(names[0])), NamedCmds(names[1..]))
      case (Some(m), Some(rest)) => Some(m + rest)
      case _ => None
  }

  /** "name" or "name:cmd|cmd". */
  function NameAndCmds(token: string): (string, Option<Mask>) {
    var colon := IndexOf(token, ':');
    if colon == |token| then (token, Some(CMD_ALL))
    else (TrimRight(token[..colon]), NamedCmds(Split(token[colon + 1..], '|')))
  }

  function SchemaMeaning(token: string): Option<Rule> {
    var (name, cmds) := NameAndCmds(token);
    var schema := StripTicks(name);
    if cmds.None? || schema == [] || '.' in schema then None else Some(SchemaRule(schema, cmds.value))
  }

  function TableMeaning(token: string): Option<Rule> {
    var (name, cmds) := NameAndCmds(token);
    var dot := IndexOf(name, '.');
    if cmds.None? || dot == |name| || dot == 0 || dot == |name| - 1 || '.' in name[dot + 1..] then None
    else
      var schema, table := StripTicks(name[..dot]), StripTicks(name[dot + 1..]);
      if schema == [] || table == [] then None
      else if table == "*" then Some(WildcardRule(schema, cmds.value))
      else Some(TableRule(schema, table, cmds.value))
  }

  function Meaning(token: string, tables: bool): Option<Rule> {
    if tables then TableMeaning(token) else SchemaMeaning(token)
  }

  /** The rules of a list, or its first entry that means nothing. */
  function RulesOf(tokens: seq<string>, tables: bool): Result<seq<Rule>> {
    if tokens == [] then Ok([])
    else match Meaning(tokens[0], tables)
      case None => Bad(tokens[0])
      case Some(rule) =>
        match RulesOf(tokens[1..], tables)
        case Bad(token) => Bad(token)
        case Ok(rest) => Ok([rule] + rest)
  }

  // ---- the merged lists ----

  datatype Entry = Entry(name: string, cmds: Mask)

  type Id = n: nat | n < 0x1_0000_0000_0000_0000

  datatype FilterRules = FilterRules(schemas: seq<Entry>, wildcards: seq<Entry>, tables: seq<Entry>, connections: seq<Id>)

  const EmptyRules := FilterRules([], [], [], [])

  /** Merge into the entry of that name, or append a new one. */
  function Add(list: seq<Entry>, name: string, cmds: Mask): seq<Entry> {
    if list == [] then [Entry(name, cmds)]
    else if list[0].name == Lower(name) then [Entry(list[0].name, list[0].cmds + cmds)] + list[1..]
    else [list[0]] + Add(list[1..], name, cmds)
  }

  function AddRule(rules: FilterRules, rule: Rule): FilterRules {
    match rule
    case SchemaRule(schema, cmds) => rules.(schemas := Add(rules.schemas, schema, cmds))
    case WildcardRule(schema, cmds) => rules.(wildcards := Add(rules.wildcards, schema, cmds))
    case TableRule(schema, table, cmds) => rules.(tables := Add(rules.tables, schema + "." + table, cmds))
  }

  function AddRules(rules: FilterRules, added: seq<Rule>): FilterRules
    decreases added
  {
    if added == [] then rules else AddRules(AddRule(rules, added[0]), added[1..])
  }

  /** What parsing both lists yields. The connection list is not part of them. */
  function Parse(schemas: Option<string>, tables: Option<string>): Result<FilterRules> {
    match RulesOf(Tokens(schemas), false)
    case Bad(token) => Bad(token)
    case Ok(first) =>
      match RulesOf(Tokens(tables), true)
      case Bad(token) => Bad(token)
      case Ok(second) => Ok(AddRules(EmptyRules, first + second))
  }

  /** The union of the masks of all entries of one name. */
  function Named(list: seq<Entry>, name: string): Mask {
    if list == [] then {} else (if list[0].name == name then list[0].cmds else {}) + Named(list[1..], name)
  }

  function MatchSchema(rules: FilterRules, db: string): Mask {
    if db == [] then {} else Named(rules.schemas, Lower(db)) + Named(rules.wildcards, Lower(db))
  }

  function MatchTable(rules: FilterRules, db: string, table: string): Mask {
    if db == [] || table == [] then {}
    else Named(rules.wildcards, Lower(db)) + Named(rules.tables, Lower(db) + "." + Lower(table))
  }
}

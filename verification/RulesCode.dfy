/** The loops of the parser and the matchers, each proved against the functions of Rules. */
module RulesCode {
  import opened Bytes
  import opened Rules

  method CleanToken(raw: string) returns (out: string)
    ensures out == Clean(raw)
  {
    hide Lower;
    var b, e := 0, |raw|;
    assert raw[0..] == raw;
    while b < e && IsSpace(raw[b])
      invariant b <= e == |raw|
      invariant TrimLeft(raw) == TrimLeft(raw[b..])
    {
      assert raw[b..][1..] == raw[b + 1..];
      b := b + 1;
    }
    assert raw[b..e] == raw[b..];
    while e > b && IsSpace(raw[e - 1])
      invariant b <= e <= |raw|
      invariant Trim(raw) == TrimRight(raw[b..e])
    {
      DropLast(raw, b, e);
      e := e - 1;
    }
    out := Fold(raw[b..e]);
  }

  lemma DropLast(s: string, b: nat, e: nat)
    requires b < e <= |s|
    ensures s[b..e][..e - b - 1] == s[b..e - 1] && s[b..e][e - b - 1] == s[e - 1]
  {
  }

  method Fold(s: string) returns (out: string)
    ensures out == Lower(s)
  {
    out := [];
    for i := 0 to |s|
      invariant out == Lower(s[..i])
    {
      assert s[..i + 1] == s[..i] + [s[i]];
      LowerConcat(s[..i], [s[i]]);
      out := out + [ToLower(s[i])];
    }
    assert s[..|s|] == s;
  }

  method SplitCsv(csv: Option<string>) returns (tokens: seq<string>)
    ensures tokens == Tokens(csv)
  {
    hide Clean, NonEmpty, Split;
    tokens := [];
    if csv.None? {
      return;
    }
    var s := csv.value;
    var cur := "";
    var p := 0;
    assert cur + s[p..] == s;
    while true
      invariant p <= |s| && ',' !in cur
      invariant tokens + NonEmpty(Split(cur + s[p..], ',')) == NonEmpty(Split(s, ','))
      decreases |s| - p
    {
      if p == |s| || s[p] == ',' {
        var t := CleanToken(cur);
        FieldRead(cur, s, p);
        if t != [] {
          tokens := tokens + [t];
        }
        cur := "";
        if p == |s| {
          break;
        }
        assert cur + s[p + 1..] == s[p + 1..];
      } else {
        assert cur + s[p..] == cur + [s[p]] + s[p + 1..];
        cur := cur + [s[p]];
      }
      p := p + 1;
    }
  }

  lemma FieldRead(cur: string, s: string, p: nat)
    requires p <= |s| && ',' !in cur && (p < |s| ==> s[p] == ',')
    ensures NonEmpty(Split(cur + s[p..], ','))
            == Field(cur) + (if p < |s| then NonEmpty(Split(s[p + 1..], ',')) else [])
  {
    hide Clean, Split;
    if p == |s| {
      assert cur + s[p..] == cur;
      SplitSingle(cur, ',');
    } else {
      assert cur + s[p..] == cur + [','] + s[p + 1..];
      SplitHead(cur, s[p + 1..], ',');
      assert ([cur] + Split(s[p + 1..], ','))[1..] == Split(s[p + 1..], ',');
    }
  }

  method TrimToken(raw: string) returns (tok: string)
    ensures tok == Trim(raw)
  {
    tok := raw;
    while tok != [] && IsSpace(tok[0])
      invariant TrimLeft(tok) == TrimLeft(raw)
      decreases |tok|
    {
      tok := tok[1..];
    }
    while tok != [] && IsSpace(tok[|tok| - 1])
      invariant TrimRight(tok) == Trim(raw)
      decreases |tok|
    {
      tok := tok[..|tok| - 1];
    }
  }

  method FindToken(rows: Table, tok: string) returns (r: Option<Mask>)
    ensures r == Lookup(rows, tok)
  {
    var i := 0;
    assert rows[0..] == rows;
    while i < |rows|
      invariant i <= |rows|
      invariant Lookup(rows, tok) == Lookup(rows[i..], tok)
    {
      if rows[i].0 == tok {
        return Some(rows[i].1);
      }
      assert rows[i..][1..] == rows[i + 1..];
      i := i + 1;
    }
    return None;
  }

  /** Combine what was read with what is to come. */
  ghost function OrAll(m: Mask, r: Option<Mask>): Option<Mask> {
    match r case None => None case Some(n) => Some(m + n)
  }

  lemma NonZeroRows()
    ensures forall row <- CmdTokens() :: row.1 != {}
  {
  }

  method ParseCmdQualifier(quals: string) returns (r: Option<Mask>)
    ensures r == NamedCmds(Split(quals, '|'))
  {
    hide NamedCmds, Split, Trim, Lookup, CmdTokens;
    var cmds: Mask := {};
    var pos := 0;
    assert quals[0..] == quals;
    NothingRead(NamedCmds(Split(quals, '|')));
    while pos <= |quals|
      invariant pos <= |quals|
      invariant NamedCmds(Split(quals, '|')) == OrAll(cmds, NamedCmds(Split(quals[pos..], '|')))
      decreases |quals| - pos
    {
      var bar := pos + IndexOf(quals[pos..], '|');
      var tok := TrimToken(quals[pos..bar]);
      var known := FindToken(CmdTokens(), tok);
      QualifierRead(quals, pos, bar, cmds);
      if known.None? {
        return None;
      }
      cmds := cmds + known.value;
      if bar == |quals| {
        break;
      }
      pos := bar + 1;
    }
    return if cmds != {} then Some(cmds) else None;
  }

  lemma NothingRead(r: Option<Mask>)
    ensures OrAll({}, r) == r
  {
    if r.Some? {
      assert {} + r.value == r.value;
    }
  }

  lemma QualifierRead(s: string, pos: nat, bar: nat, cmds: Mask)
    requires pos <= |s| && bar == pos + IndexOf(s[pos..], '|')
    ensures var known := Lookup(CmdTokens(), Trim(s[pos..bar]));
            OrAll(cmds, NamedCmds(Split(s[pos..], '|')))
            == (if known.None? then None
               else if bar == |s| then Some(cmds + known.value)
               else OrAll(cmds + known.value, NamedCmds(Split(s[bar + 1..], '|'))))
            && (known.Some? ==> cmds + known.value != {})
  {
    hide CmdTokens, Split, Trim, Lookup, IndexOf;
    FirstField(s, pos, bar);
    NonZeroRows();
    var known := Lookup(CmdTokens(), Trim(s[pos..bar]));
    var rest := if bar == |s| then [] else Split(s[bar + 1..], '|');
    assert Split(s[pos..], '|')[1..] == rest;
    if known.Some? {
      assert known.value + {} == known.value;
    }
    if known.Some? && NamedCmds(rest).Some? {
      assert cmds + (known.value + NamedCmds(rest).value) == (cmds + known.value) + NamedCmds(rest).value;
    }
  }

  lemma FirstField(s: string, pos: nat, bar: nat)
    requires pos <= |s| && bar == pos + IndexOf(s[pos..], '|')
    ensures Split(s[pos..], '|') == [s[pos..bar]] + (if bar == |s| then [] else Split(s[bar + 1..], '|'))
  {
    var t := s[pos..];
    assert t[..bar - pos] == s[pos..bar];
    if bar < |s| {
      assert t[bar - pos + 1..] == s[bar + 1..];
    } else {
      assert s[pos..bar] == t;
    }
  }

  /** Split "name[:quals]" and resolve the command mask. */
  method SplitCmdQualifier(token: string) returns (name: string, cmds: Option<Mask>)
    ensures (name, cmds) == NameAndCmds(token)
  {
    hide NamedCmds, Split, IndexOf;
    var colon := IndexOf(token, ':');
    if colon == |token| {
      return token, Some(CMD_ALL);
    }
    name := token[..colon];
    while name != [] && IsSpace(name[|name| - 1])
      invariant TrimRight(name) == TrimRight(token[..colon])
      decreases |name|
    {
      name := name[..|name| - 1];
    }
    cmds := ParseCmdQualifier(token[colon + 1..]);
  }

  /** The body of the schema loop: what the entry contributes. */
  method SchemaEntry(token: string) returns (r: Option<Rule>)
    ensures r == SchemaMeaning(token)
  {
    hide NameAndCmds;
    var name, cmds := SplitCmdQualifier(token);
    if cmds.None? {
      return None;
    }
    var schema := StripTicks(name);
    if schema == [] || IndexOf(schema, '.') < |schema| {
      return None;
    }
    assert schema[..|schema|] == schema;
    return Some(SchemaRule(schema, cmds.value));
  }

  /** The body of the table loop. */
  method TableEntry(token: string) returns (r: Option<Rule>)
    ensures r == TableMeaning(token)
  {
    hide NameAndCmds;
    var tok, cmds := SplitCmdQualifier(token);
    if cmds.None? {
      return None;
    }
    var dot := IndexOf(tok, '.');
    if dot == |tok| || dot == 0 || dot == |tok| - 1 {
      return None;
    }
    var second := IndexOf(tok[dot + 1..], '.');
    assert tok[dot + 1..][..|tok[dot + 1..]|] == tok[dot + 1..];
    if second < |tok[dot + 1..]| {
      return None;
    }
    var schema, table := StripTicks(tok[..dot]), StripTicks(tok[dot + 1..]);
    if schema == [] || table == [] {
      return None;
    }
    return Some(if table == "*" then WildcardRule(schema, cmds.value) else TableRule(schema, table, cmds.value));
  }

  method CiEq(entry: string, s: string) returns (same: bool)
    ensures same == (entry == Lower(s))
  {
    if |entry| != |s| {
      return false;
    }
    for i := 0 to |s|
      invariant forall j :: 0 <= j < i ==> entry[j] == ToLower(s[j])
    {
      if entry[i] != ToLower(s[i]) {
        assert Lower(s)[i] != entry[i];
        return false;
      }
    }
    return true;
  }

  method CiEqQualified(entry: string, db: string, table: string) returns (same: bool)
    ensures same == (entry == Lower(db) + "." + Lower(table))
  {
    ghost var whole := Lower(db) + "." + Lower(table);
    if |entry| != |db| + 1 + |table| {
      return false;
    }
    for j := 0 to |db|
      invariant forall k :: 0 <= k < j ==> entry[k] == whole[k]
    {
      if entry[j] != ToLower(db[j]) {
        assert entry[j] != whole[j];
        return false;
      }
    }
    if entry[|db|] != '.' {
      assert entry[|db|] != whole[|db|];
      return false;
    }
    for j := 0 to |table|
      invariant forall k :: 0 <= k < |db| + 1 + j ==> entry[k] == whole[k]
    {
      if entry[|db| + 1 + j] != ToLower(table[j]) {
        assert entry[|db| + 1 + j] != whole[|db| + 1 + j];
        return false;
      }
    }
    return true;
  }

  /** The index of the entry of that name; the length when there is none. */
  method FindEntry(list: seq<Entry>, name: string) returns (k: nat)
    ensures k <= |list|
    ensures forall i :: 0 <= i < k ==> list[i].name != Lower(name)
    ensures k < |list| ==> list[k].name == Lower(name)
  {
    k := 0;
    while k < |list|
      invariant k <= |list|
      invariant forall i :: 0 <= i < k ==> list[i].name != Lower(name)
    {
      var same := CiEq(list[k].name, name);
      if same {
        return;
      }
      k := k + 1;
    }
  }

  method AddEntry(list: seq<Entry>, name: string, cmds: Mask) returns (r: seq<Entry>)
    ensures r == Add(list, name, cmds)
  {
    var k := FindEntry(list, name);
    AddAt(list, name, cmds, k);
    if k < |list| {
      r := list[k := Entry(list[k].name, list[k].cmds + cmds)];
    } else {
      r := list + [Entry(name, cmds)];
    }
  }

  lemma {:induction false} AddAt(list: seq<Entry>, name: string, cmds: Mask, k: nat)
    requires k <= |list|
    requires forall i :: 0 <= i < k ==> list[i].name != Lower(name)
    requires k < |list| ==> list[k].name == Lower(name)
    ensures Add(list, name, cmds)
            == if k < |list| then list[k := Entry(list[k].name, list[k].cmds + cmds)] else list + [Entry(name, cmds)]
  {
    if k > 0 {
      AddAt(list[1..], name, cmds, k - 1);
    }
  }

  /** Add the meaning of every entry of a list, in order; stop at one that means nothing. */
  method AddEntries(rules0: FilterRules, raw: seq<string>, tables: bool) returns (rules: FilterRules, bad: Option<string>)
    ensures bad == RulesOf(raw, tables).Error()
    ensures bad.None? ==> rules == AddRules(rules0, RulesOf(raw, tables).value)
  {
    hide Meaning;
    rules := rules0;
    ghost var done: seq<Rule> := [];
    var i := 0;
    PutBeforeNothing(RulesOf(raw, tables));
    assert raw[0..] == raw;
    while i < |raw|
      invariant i <= |raw|
      invariant rules == AddRules(rules0, done)
      invariant RulesOf(raw, tables) == PutBefore(done, RulesOf(raw[i..], tables))
    {
      var rule := EntryMeaning(raw[i], tables);
      assert raw[i..][1..] == raw[i + 1..];
      if rule.None? {
        return rules, Some(raw[i]);
      }
      AddRulesSnoc(rules0, done, rule.value);
      PutBeforeSnoc(done, rule.value, RulesOf(raw[i + 1..], tables));
      done := done + [rule.value];
      rules := ApplyRule(rules, rule.value);
      i := i + 1;
    }
    assert done + [] == done;
    return rules, None;
  }

  method EntryMeaning(token: string, tables: bool) returns (r: Option<Rule>)
    ensures r == Meaning(token, tables)
  {
    if tables {
      r := TableEntry(token);
    } else {
      r := SchemaEntry(token);
    }
  }

  method ApplyRule(rules: FilterRules, rule: Rule) returns (r: FilterRules)
    ensures r == AddRule(rules, rule)
  {
    match rule {
      case SchemaRule(schema, cmds) =>
        var list := AddEntry(rules.schemas, schema, cmds);
        r := rules.(schemas := list);
      case WildcardRule(schema, cmds) =>
        var list := AddEntry(rules.wildcards, schema, cmds);
        r := rules.(wildcards := list);
      case TableRule(schema, table, cmds) =>
        var list := AddEntry(rules.tables, schema + "." + table, cmds);
        r := rules.(tables := list);
    }
  }

  ghost function PutBefore(done: seq<Rule>, r: Result<seq<Rule>>): Result<seq<Rule>> {
    match r case Bad(token) => Bad(token) case Ok(rest) => Ok(done + rest)
  }

  lemma PutBeforeNothing(r: Result<seq<Rule>>)
    ensures PutBefore([], r) == r
  {
    if r.Ok? {
      assert [] + r.value == r.value;
    }
  }

  lemma PutBeforeSnoc(done: seq<Rule>, rule: Rule, r: Result<seq<Rule>>)
    ensures PutBefore(done, PutBefore([rule], r)) == PutBefore(done + [rule], r)
  {
    if r.Ok? {
      assert done + ([rule] + r.value) == done + [rule] + r.value;
    }
  }

  lemma {:induction false} AddRulesSnoc(rules: FilterRules, rs: seq<Rule>, rule: Rule)
    ensures AddRules(rules, rs + [rule]) == AddRule(AddRules(rules, rs), rule)
    decreases rs
  {
    if rs != [] {
      assert (rs + [rule])[1..] == rs[1..] + [rule];
      AddRulesSnoc(AddRule(rules, rs[0]), rs[1..], rule);
    }
  }

  lemma {:induction false} AddRulesConcat(rules: FilterRules, first: seq<Rule>, second: seq<Rule>)
    ensures AddRules(rules, first + second) == AddRules(AddRules(rules, first), second)
    decreases first
  {
    if first == [] {
      assert first + second == second;
    } else {
      assert (first + second)[1..] == first[1..] + second;
      AddRulesConcat(AddRule(rules, first[0]), first[1..], second);
    }
  }

  /** Parse both lists. On an entry that means nothing `out` is left as it was and the
      entry is reported; otherwise its three lists are replaced. */
  method ParseFilterLists(schemas: Option<string>, tables: Option<string>, out0: FilterRules)
    returns (out: FilterRules, error: Option<string>)
    ensures error == Parse(schemas, tables).Error()
    ensures out == if error.None? then Parse(schemas, tables).value.(connections := out0.connections) else out0
  {
    hide RulesOf, Tokens;
    var raw := SplitCsv(schemas);
    var rules, bad := AddEntries(EmptyRules, raw, false);
    if bad.Some? {
      return out0, bad;
    }
    raw := SplitCsv(tables);
    ghost var first := RulesOf(Tokens(schemas), false).value;
    rules, bad := AddEntries(rules, raw, true);
    if bad.Some? {
      return out0, bad;
    }
    AddRulesConcat(EmptyRules, first, RulesOf(Tokens(tables), true).value);
    out := FilterRules(rules.schemas, rules.wildcards, rules.tables, out0.connections);
    error := None;
  }

  /** The union of the masks of all entries of one name, by the matchers' loop. */
  method UnionOf(list: seq<Entry>, db: string) returns (cmds: Mask)
    ensures cmds == Named(list, Lower(db))
  {
    cmds := {};
    assert list[0..] == list;
    for i := 0 to |list|
      invariant Named(list, Lower(db)) == cmds + Named(list[i..], Lower(db))
    {
      var same := CiEq(list[i].name, db);
      assert list[i..][1..] == list[i + 1..];
      if same {
        cmds := cmds + list[i].cmds;
      }
    }
  }

  method MatchSchemaCode(rules: FilterRules, db: string) returns (cmds: Mask)
    ensures cmds == MatchSchema(rules, db)
  {
    if db == [] {
      return {};
    }
    var a := UnionOf(rules.schemas, db);
    var b := UnionOf(rules.wildcards, db);
    return a + b;
  }

  method MatchTableCode(rules: FilterRules, db: string, table: string) returns (cmds: Mask)
    ensures cmds == MatchTable(rules, db, table)
  {
    if db == [] || table == [] {
      return {};
    }
    var whole := Lower(db) + "." + Lower(table);
    cmds := UnionOf(rules.wildcards, db);
    ghost var wild := cmds;
    var list := rules.tables;
    assert list[0..] == list;
    for i := 0 to |list|
      invariant wild + Named(list, whole) == cmds + Named(list[i..], whole)
    {
      var same := CiEqQualified(list[i].name, db, table);
      assert list[i..][1..] == list[i + 1..];
      if same {
        cmds := cmds + list[i].cmds;
      }
    }
  }
}

/** What the entries of the filter lists mean, byte by byte: the forms a user writes, and what
a list with one of them matches. */
module EntryForms {
  import opened Bytes
  import opened Rules
  import opened RulesTheorems

  /** A name that needs no quoting. */
  predicate PlainName(s: string) { s != [] && forall c <- s :: c !in ".:,` \t\r\n" }

  predicate AllSpace(s: string) { forall c <- s :: c in " \t\r\n" }

  /** A name as written, in backticks or bare. */
  function Part(name: string, ticks: bool): string { if ticks then "`" + name + "`" else name }

  lemma StripsTicks(name: string, ticks: bool)
    requires PlainName(name)
    ensures StripTicks(Part(name, ticks)) == name
  {
    var p := Part(name, ticks);
    assert ticks ==> p[1..|p| - 1] == name;
    assert name[0] in name;
  }

  /** What a part never holds. */
  lemma PartBytes(name: string, ticks: bool)
    requires PlainName(name)
    ensures Part(name, ticks) != [] && forall c <- Part(name, ticks) :: c !in ".:, \t\r\n"
  {
    assert forall c <- Part(name, ticks) :: c == '`' || c in name;
  }

  // ---- the qualifier ----

  lemma {:induction false} TrimsRight(name: string, gap: string)
    requires name != [] && !IsSpace(name[|name| - 1]) && AllSpace(gap)
    ensures TrimRight(name + gap) == name
    decreases gap
  {
    if gap == [] {
      assert name + gap == name;
    } else {
      var s := name + gap;
      assert gap[|gap| - 1] in gap && s[|s| - 1] == gap[|gap| - 1];
      assert s[..|s| - 1] == name + gap[..|gap| - 1];
      assert forall c <- gap[..|gap| - 1] :: c in gap;
      TrimsRight(name, gap[..|gap| - 1]);
    }
  }

  /** Without a colon all commands are listed. */
  lemma NoQualifier(name: string)
    requires ':' !in name
    ensures NameAndCmds(name) == (name, Some(CMD_ALL))
  {
    hide NamedCmds, Split, TrimRight;
    assert name[..|name|] == name;
    IndexOfUnique(name, ':', |name|);
  }

  /** With one, those that are named behind it, between bars. */
  lemma Qualifier(name: string, gap: string, quals: seq<string>)
    requires name != [] && ':' !in name && !IsSpace(name[|name| - 1]) && AllSpace(gap)
    requires quals != [] && forall q <- quals :: '|' !in q
    ensures NameAndCmds(name + gap + ":" + Join(quals, '|')) == (name, NamedCmds(quals))
  {
    hide NamedCmds, Split, TrimRight, Join, IndexOf;
    var head, text := name + gap, Join(quals, '|');
    var token := head + ":" + text;
    assert ':' !in head;
    assert token[..|head|] == head && token[|head| + 1..] == text;
    IndexOfUnique(token, ':', |head|);
    TrimsRight(name, gap);
    SplitJoin(quals, '|');
  }

  /** Every name between the bars must be known, and the commands are those of all of them. */
  lemma {:induction false} QualifiersMean(quals: seq<string>)
    ensures NamedCmds(quals).Some? <==> forall q <- quals :: Lookup(CmdTokens(), Trim(q)).Some?
    ensures NamedCmds(quals).Some? ==>
              forall c :: c in NamedCmds(quals).value <==>
                exists q <- quals :: Lookup(CmdTokens(), Trim(q)).Some? && c in Lookup(CmdTokens(), Trim(q)).value
  {
    hide Lookup, CmdTokens, Trim;
    if quals != [] {
      assert quals[0] in quals && forall q <- quals :: q == quals[0] || q in quals[1..];
      assert forall q <- quals[1..] :: q in quals;
      QualifiersMean(quals[1..]);
    }
  }

  // ---- the entries ----

  /** schema.table, or schema.* for all tables of the schema. */
  function TableRuleFor(schema: string, table: string, cmds: Mask): Rule {
    if table == "*" then WildcardRule(schema, cmds) else TableRule(schema, table, cmds)
  }

  lemma DottedName(schema: string, table: string, st: bool, tt: bool)
    requires PlainName(schema) && PlainName(table)
    ensures var name, dot := Part(schema, st) + "." + Part(table, tt), |Part(schema, st)|;
            && IndexOf(name, '.') == dot && 0 < dot < |name| - 1
            && name[..dot] == Part(schema, st) && name[dot + 1..] == Part(table, tt) && '.' !in name[dot + 1..]
            && ':' !in name && !IsSpace(name[|name| - 1])
  {
    hide Part;
    PartBytes(schema, st);
    PartBytes(table, tt);
    var a, b := Part(schema, st), Part(table, tt);
    var name := a + "." + b;
    assert name[..|a|] == a && name[|a| + 1..] == b;
    IndexOfUnique(name, '.', |a|);
    assert name[|name| - 1] == b[|b| - 1] && b[|b| - 1] in b;
  }

  lemma TableEntryMeans(schema: string, table: string, st: bool, tt: bool)
    requires PlainName(schema) && PlainName(table)
    ensures TableMeaning(Part(schema, st) + "." + Part(table, tt)) == Some(TableRuleFor(schema, table, CMD_ALL))
  {
    hide Part, NameAndCmds, StripTicks, IndexOf;
    DottedName(schema, table, st, tt);
    NoQualifier(Part(schema, st) + "." + Part(table, tt));
    StripsTicks(schema, st);
    StripsTicks(table, tt);
  }

  lemma QualifiedTableEntryMeans(schema: string, table: string, st: bool, tt: bool, gap: string, quals: seq<string>)
    requires PlainName(schema) && PlainName(table) && AllSpace(gap) && quals != [] && forall q <- quals :: '|' !in q
    ensures var token := Part(schema, st) + "." + Part(table, tt) + gap + ":" + Join(quals, '|');
            TableMeaning(token)
            == if NamedCmds(quals).None? then None else Some(TableRuleFor(schema, table, NamedCmds(quals).value))
  {
    hide Part, NameAndCmds, StripTicks, IndexOf, NamedCmds, Join;
    DottedName(schema, table, st, tt);
    Qualifier(Part(schema, st) + "." + Part(table, tt), gap, quals);
    StripsTicks(schema, st);
    StripsTicks(table, tt);
  }

  lemma SchemaEntryMeans(schema: string, ticks: bool)
    requires PlainName(schema)
    ensures SchemaMeaning(Part(schema, ticks)) == Some(SchemaRule(schema, CMD_ALL))
  {
    hide Part, NameAndCmds, StripTicks;
    PartBytes(schema, ticks);
    NoQualifier(Part(schema, ticks));
    StripsTicks(schema, ticks);
  }

  lemma QualifiedSchemaEntryMeans(schema: string, ticks: bool, gap: string, quals: seq<string>)
    requires PlainName(schema) && AllSpace(gap) && quals != [] && forall q <- quals :: '|' !in q
    ensures SchemaMeaning(Part(schema, ticks) + gap + ":" + Join(quals, '|'))
            == if NamedCmds(quals).None? then None else Some(SchemaRule(schema, NamedCmds(quals).value))
  {
    hide Part, NameAndCmds, StripTicks, NamedCmds, Join;
    PartBytes(schema, ticks);
    var p := Part(schema, ticks);
    assert p[|p| - 1] in p;
    Qualifier(p, gap, quals);
    StripsTicks(schema, ticks);
  }

  /** What is no entry of the list of tables: no dot, nothing on one side of it, or two. */
  lemma NoTableEntries(a: string, b: string, c: string)
    requires ':' !in a && ':' !in b && ':' !in c && '.' !in a
    ensures TableMeaning(a).None? && TableMeaning("." + b).None? && TableMeaning(a + ".").None?
    ensures TableMeaning(a + "." + b + "." + c).None?
  {
    hide NameAndCmds, StripTicks;
    NoQualifier(a);
    assert a[..|a|] == a;
    IndexOfUnique(a, '.', |a|);
    NoQualifier("." + b);
    IndexOfUnique("." + b, '.', 0);
    NoQualifier(a + ".");
    assert (a + ".")[..|a|] == a;
    IndexOfUnique(a + ".", '.', |a|);
    var t := a + "." + b + "." + c;
    NoQualifier(t);
    assert t[..|a|] == a;
    IndexOfUnique(t, '.', |a|);
    assert t[|a| + 1..][|b|] == '.';
  }

  /** A table is no entry of the list of schemas. */
  lemma NoSchemaEntry(schema: string, table: string)
    requires PlainName(schema) && PlainName(table)
    ensures SchemaMeaning(schema + "." + table).None?
  {
    var t := schema + "." + table;
    NoQualifier(t);
    assert schema[0] in schema && t[0] == schema[0];
    assert t[|schema|] == '.';
  }

  // ---- from the text of a list to its matches ----

  lemma OneField(raw: string)
    ensures NonEmpty([raw]) == Field(raw)
  {
    hide Field;
    assert [raw][1..] == [] && NonEmpty([]) == [];
    assert NonEmpty([raw]) == Field(raw) + NonEmpty([]);
  }

  /** The entries of a list are those between its commas. */
  lemma TokensConcat(a: string, b: string)
    requires ',' !in a
    ensures Tokens(Some(a + "," + b)) == Tokens(Some(a)) + Tokens(Some(b))
  {
    hide Split, Clean;
    SplitHead(a, b, ',');
    assert a + [','] + b == a + "," + b;
    SplitSingle(a, ',');
    var fields := Split(b, ',');
    OneField(a);
    assert ([a] + fields)[0] == a && ([a] + fields)[1..] == fields;
    assert NonEmpty([a] + fields) == Field(a) + NonEmpty(fields);
  }

  lemma {:induction false} TrimsLeft(gap: string, s: string)
    requires AllSpace(gap) && s != [] && !IsSpace(s[0])
    ensures TrimLeft(gap + s) == s
    decreases gap
  {
    if gap == [] {
      assert gap + s == s;
    } else {
      assert gap[0] in gap && forall c <- gap[1..] :: c in gap;
      assert (gap + s)[1..] == gap[1..] + s;
      TrimsLeft(gap[1..], s);
    }
  }

  /** White space around an entry and the letter case do not matter. */
  lemma OneToken(pre: string, core: string, post: string)
    requires AllSpace(pre) && AllSpace(post) && core != [] && !IsSpace(core[0]) && !IsSpace(core[|core| - 1]) && ',' !in core
    ensures Tokens(Some(pre + core + post)) == [Lower(core)]
  {
    hide TrimLeft, TrimRight, Split, Lower;
    var raw := pre + core + post;
    assert ',' !in raw;
    SplitSingle(raw, ',');
    assert raw == pre + (core + post);
    assert (core + post)[0] == core[0];
    TrimsLeft(pre, core + post);
    TrimsRight(core, post);
    assert Clean(raw) == Lower(core);
    assert Lower(core) != [];
    OneField(raw);
  }

  lemma LowerPlain(name: string)
    requires PlainName(name)
    ensures PlainName(Lower(name)) && |Lower(name)| == |name|
  {
    forall c | c in Lower(name) ensures c !in ".:,` \t\r\n" {
      var i :| 0 <= i < |name| && Lower(name)[i] == c;
      assert name[i] in name;
    }
  }

  lemma LowerPart(name: string, ticks: bool)
    ensures Lower(Part(name, ticks)) == Part(Lower(name), ticks)
  {
    hide Lower;
    LowerConcat("`", name);
    LowerConcat("`" + name, "`");
    assert Lower("`") == "`" by { TickIsLower(); }
  }

  lemma TickIsLower()
    ensures Lower("`") == "`" && Lower(".") == "."
  {
  }

  lemma OneTableToken(pre: string, schema: string, table: string, post: string, st: bool, tt: bool)
    requires AllSpace(pre) && AllSpace(post) && PlainName(schema) && PlainName(table)
    ensures Tokens(Some(pre + (Part(schema, st) + "." + Part(table, tt)) + post))
            == [Part(Lower(schema), st) + "." + Part(Lower(table), tt)]
  {
    hide Tokens, Lower, Part;
    PartBytes(schema, st);
    PartBytes(table, tt);
    var a, b := Part(schema, st), Part(table, tt);
    var core := a + "." + b;
    assert core[0] == a[0] && a[0] in a && core[|core| - 1] == b[|b| - 1] && b[|b| - 1] in b;
    OneToken(pre, core, post);
    LowerConcat(a, ".");
    LowerConcat(a + ".", b);
    TickIsLower();
    LowerPart(schema, st);
    LowerPart(table, tt);
  }

  lemma NoTables(csv: Option<string>, r: Rule)
    requires Tokens(csv) == []
    ensures RulesOf(Tokens(csv), false) == Ok([]) && RulesOf(Tokens(csv), true) == Ok([])
  {
  }

  lemma OneRule(token: string, tables: bool, r: Rule)
    requires Meaning(token, tables) == Some(r)
    ensures RulesOf([token], tables) == Ok([r])
  {
    hide Meaning;
    assert [token][1..] == [] && RulesOf([], tables) == Ok([]) && [r] + [] == [r];
  }

  /** One entry in the list of tables, with white space around it, backticks or not and in
      any letter case: it matches exactly that table, for all commands, or with * exactly
      the tables of that schema. */
  lemma OneTableEntry(pre: string, schema: string, table: string, post: string, st: bool, tt: bool, db: string, tbl: string)
    requires AllSpace(pre) && AllSpace(post) && PlainName(schema) && PlainName(table) && tbl != []
    ensures var p := Parse(None, Some(pre + (Part(schema, st) + "." + Part(table, tt)) + post));
            && p.Ok?
            && MatchTable(p.value, db, tbl)
               == (if Lower(db) == Lower(schema) && (table == "*" || Lower(tbl) == Lower(table)) then CMD_ALL else {})
            && MatchSchema(p.value, db) == (if Lower(db) == Lower(schema) && table == "*" then CMD_ALL else {})
  {
    hide Tokens, TableMeaning, SchemaMeaning, MatchTable, MatchSchema, Lower, AddRules, PlainName, Part;
    var csv := Some(pre + (Part(schema, st) + "." + Part(table, tt)) + post);
    OneTableToken(pre, schema, table, post, st, tt);
    LowerPlain(schema);
    LowerPlain(table);
    var token := Part(Lower(schema), st) + "." + Part(Lower(table), tt);
    TableEntryMeans(Lower(schema), Lower(table), st, tt);
    var r := TableRuleFor(Lower(schema), Lower(table), CMD_ALL);
    OneRule(token, true, r);
    NoTokens();
    NoTables(None, r);
    assert Tokens(csv) == [token];
    assert EntryRules(None, csv) == {r} by { OnlyRule(csv, token, r); }
    ParseThenMatch(None, csv, db, tbl);
    assert Lower(table) == "*" <==> table == "*" by { StarIsLower(table); }
    MatchesOne(Parse(None, csv).value, r, db, tbl);
  }

  lemma OnlyRule(csv: Option<string>, token: string, r: Rule)
    requires Tokens(csv) == [token] && TableMeaning(token) == Some(r)
    ensures EntryRules(None, csv) == {r}
  {
    hide Tokens, TableMeaning, SchemaMeaning;
    NoTokens();
    assert token in Tokens(csv);
  }

  lemma StarIsLower(s: string)
    ensures Lower(s) == "*" <==> s == "*"
  {
    assert |s| == 1 ==> Lower(s)[0] == ToLower(s[0]);
  }

  /** What the matchers give when one rule says all. */
  lemma MatchesOne(rules: FilterRules, r: Rule, db: string, tbl: string)
    requires forall c :: c in MatchSchema(rules, db) <==> exists q :: q in {r} && NamesSchema(q, db) && c in q.cmds
    requires forall c :: c in MatchTable(rules, db, tbl) <==> exists q :: q in {r} && NamesTable(q, db, tbl) && c in q.cmds
    ensures MatchSchema(rules, db) == (if NamesSchema(r, db) then r.cmds else {})
    ensures MatchTable(rules, db, tbl) == (if NamesTable(r, db, tbl) then r.cmds else {})
  {
    hide MatchSchema, MatchTable, NamesSchema, NamesTable;
    assert r in {r};
  }

  /** One entry in the list of schemas: it matches exactly that schema, for all commands. */
  lemma OneSchemaEntry(pre: string, schema: string, post: string, ticks: bool, db: string, tbl: string)
    requires AllSpace(pre) && AllSpace(post) && PlainName(schema)
    ensures var p := Parse(Some(pre + Part(schema, ticks) + post), None);
            && p.Ok?
            && MatchSchema(p.value, db) == (if Lower(db) == Lower(schema) then CMD_ALL else {})
            && MatchTable(p.value, db, tbl) == {}
  {
    hide Tokens, TableMeaning, SchemaMeaning, MatchTable, MatchSchema, Lower, AddRules, PlainName, Part;
    var csv := Some(pre + Part(schema, ticks) + post);
    PartBytes(schema, ticks);
    var core := Part(schema, ticks);
    assert core[0] in core && core[|core| - 1] in core;
    OneToken(pre, core, post);
    LowerPart(schema, ticks);
    LowerPlain(schema);
    var token := Part(Lower(schema), ticks);
    SchemaEntryMeans(Lower(schema), ticks);
    var r := SchemaRule(Lower(schema), CMD_ALL);
    OneRule(token, false, r);
    NoTokens();
    NoTables(None, r);
    assert EntryRules(csv, None) == {r} by { OnlySchemaRule(csv, token, r); }
    ParseThenMatch(csv, None, db, tbl);
    MatchesOne(Parse(csv, None).value, r, db, tbl);
  }

  lemma OnlySchemaRule(csv: Option<string>, token: string, r: Rule)
    requires Tokens(csv) == [token] && SchemaMeaning(token) == Some(r)
    ensures EntryRules(csv, None) == {r}
  {
    hide Tokens, TableMeaning, SchemaMeaning;
    NoTokens();
    assert token in Tokens(csv);
  }
}

/** Parsing and matching agree with the plain reading of the lists: a command is allowed on
a schema or table exactly when some entry of the lists says so. */
module RulesTheorems {
  import opened Bytes
  import opened Rules
  import opened RulesCode

  // ---- the plain reading ----

  /** The entry speaks about the whole schema `db`. */
  predicate NamesSchema(r: Rule, db: string) { !r.TableRule? && r.schema == Lower(db) }

  /** The entry speaks about the table `db`.`table`; nothing speaks about a nameless table. */
  predicate NamesTable(r: Rule, db: string, table: string) {
    && table != [] && r.schema == Lower(db)
    && (r.WildcardRule? || (r.TableRule? && r.table == Lower(table)))
  }

  /** What every entry that means something looks like. */
  predicate Proper(r: Rule) {
    && r.schema != [] && '.' !in r.schema && Lower(r.schema) == r.schema
    && (r.TableRule? ==> r.table != [] && '.' !in r.table && Lower(r.table) == r.table)
  }

  // ---- entries mean proper rules ----

  predicate IsFolded(s: string) { Lower(s) == s }

  lemma FoldedPart(s: string, i: nat, j: nat)
    requires IsFolded(s) && i <= j <= |s|
    ensures IsFolded(s[i..j])
  {
    assert forall k :: 0 <= k < j - i ==> Lower(s[i..j])[k] == Lower(s)[i + k];
  }

  lemma FoldIsFolded(s: string)
    ensures IsFolded(Lower(s))
  {
  }

  lemma TrimRightFolded(s: string)
    requires IsFolded(s)
    ensures IsFolded(TrimRight(s))
  {
    if s != [] && IsSpace(s[|s| - 1]) {
      FoldedPart(s, 0, |s| - 1);
      TrimRightFolded(s[..|s| - 1]);
    }
  }

  lemma StripTicksFolded(s: string)
    requires IsFolded(s)
    ensures IsFolded(StripTicks(s))
    ensures forall c <- StripTicks(s) :: c in s
  {
    if |s| >= 2 {
      FoldedPart(s, 1, |s| - 1);
    }
  }

  lemma NameFolded(token: string)
    requires IsFolded(token)
    ensures IsFolded(NameAndCmds(token).0)
  {
    var colon := IndexOf(token, ':');
    FoldedPart(token, 0, colon);
    TrimRightFolded(token[..colon]);
  }

  lemma MeaningIsProper(token: string, tables: bool)
    requires IsFolded(token) && Meaning(token, tables).Some?
    ensures Proper(Meaning(token, tables).value)
  {
    hide NameAndCmds;
    NameFolded(token);
    var name := NameAndCmds(token).0;
    if tables {
      var dot := IndexOf(name, '.');
      FoldedPart(name, 0, dot);
      FoldedPart(name, dot + 1, |name|);
      assert name[dot + 1..|name|] == name[dot + 1..];
      StripTicksFolded(name[..dot]);
      StripTicksFolded(name[dot + 1..]);
    } else {
      StripTicksFolded(name);
    }
  }

  lemma {:induction false} NonEmptyFolded(fields: seq<string>)
    ensures forall t <- NonEmpty(fields) :: IsFolded(t) && t != []
  {
    hide IsFolded;
    if fields != [] {
      FoldIsFolded(Trim(fields[0]));
      NonEmptyFolded(fields[1..]);
    }
  }

  /** Parsing a list succeeds exactly when every entry means something, yields those
      meanings in order, and otherwise reports the first entry that does not. */
  lemma {:induction false} RulesOfEntries(tokens: seq<string>, tables: bool)
    ensures RulesOf(tokens, tables).Ok? <==> forall t <- tokens :: Meaning(t, tables).Some?
    ensures match RulesOf(tokens, tables)
            case Ok(rs) => |rs| == |tokens| && forall i :: 0 <= i < |rs| ==> Meaning(tokens[i], tables) == Some(rs[i])
            case Bad(token) =>
              exists i :: 0 <= i < |tokens| && tokens[i] == token && Meaning(token, tables).None?
                          && forall j :: 0 <= j < i ==> Meaning(tokens[j], tables).Some?
  {
    hide Meaning;
    if tokens == [] {
    } else if Meaning(tokens[0], tables).None? {
      assert tokens[0] in tokens;
    } else {
      RulesOfEntries(tokens[1..], tables);
      match RulesOf(tokens[1..], tables) {
        case Ok(rest) =>
        case Bad(token) =>
          var i :| 0 <= i < |tokens[1..]| && tokens[1..][i] == token && Meaning(token, tables).None?
                   && forall j :: 0 <= j < i ==> Meaning(tokens[1..][j], tables).Some?;
          assert forall j :: 0 < j < i + 1 ==> tokens[j] == tokens[1..][j - 1];
          assert tokens[i + 1] == token && token in tokens;
      }
    }
  }

  // ---- merging keeps the meaning ----

  lemma {:induction false} NamedAdd(list: seq<Entry>, name: string, cmds: Mask, key: string, c: Command)
    requires Lower(name) == name
    ensures c in Named(Add(list, name, cmds), key) <==> c in Named(list, key) || (name == key && c in cmds)
  {
    if list == [] {
      assert Named([Entry(name, cmds)], key) == (if name == key then cmds else {}) + Named([], key);
    } else if list[0].name == name {
      var merged := Entry(list[0].name, list[0].cmds + cmds);
      assert Add(list, name, cmds) == [merged] + list[1..];
      assert ([merged] + list[1..])[1..] == list[1..];
    } else {
      NamedAdd(list[1..], name, cmds, key, c);
      assert ([list[0]] + Add(list[1..], name, cmds))[1..] == Add(list[1..], name, cmds);
    }
  }

  /** One dot on each side of the comparison: joined names are equal exactly when the
      parts are. */
  lemma JoinedNames(schema: string, table: string, db: string, tbl: string)
    requires '.' !in schema && '.' !in table
    ensures schema + "." + table == db + "." + tbl <==> schema == db && table == tbl
  {
    if schema + "." + table == db + "." + tbl {
      var s := schema + "." + table;
      assert s[|schema|] == '.' && s[|db|] == (db + "." + tbl)[|db|] == '.';
      assert s[..|schema|] == schema && s[|schema| + 1..] == table;
      assert forall k :: 0 <= k < |schema| ==> s[k] in schema;
      assert forall k :: |schema| < k < |s| ==> s[k] == table[k - |schema| - 1] && s[k] in table;
      assert |db| == |schema|;
      assert s[..|schema|] == db && s[|schema| + 1..] == tbl;
    }
  }

  /** The masks after adding one rule. */
  lemma AddRuleMatches(rules: FilterRules, r: Rule, db: string, table: string, c: Command)
    requires Proper(r)
    ensures c in MatchSchema(AddRule(rules, r), db) <==> c in MatchSchema(rules, db) || (NamesSchema(r, db) && c in r.cmds)
    ensures db != [] && table != [] ==>
            (c in MatchTable(AddRule(rules, r), db, table)
             <==> c in MatchTable(rules, db, table) || (NamesTable(r, db, table) && c in r.cmds))
  {
    hide Named, Add;
    match r {
      case SchemaRule(schema, cmds) =>
        NamedAdd(rules.schemas, schema, cmds, Lower(db), c);
      case WildcardRule(schema, cmds) =>
        NamedAdd(rules.wildcards, schema, cmds, Lower(db), c);
      case TableRule(schema, name, cmds) =>
        JoinedNames(schema, name, Lower(db), Lower(table));
        assert Lower(schema + "." + name) == schema + "." + name by {
          LowerConcat(schema + ".", name);
          LowerConcat(schema, ".");
        }
        NamedAdd(rules.tables, schema + "." + name, cmds, Lower(db) + "." + Lower(table), c);
    }
  }

  lemma {:induction false} AddRulesMatch(rules: FilterRules, rs: seq<Rule>, db: string, table: string, c: Command)
    requires forall r <- rs :: Proper(r)
    ensures c in MatchSchema(AddRules(rules, rs), db)
            <==> c in MatchSchema(rules, db) || exists r <- rs :: NamesSchema(r, db) && c in r.cmds
    ensures db != [] && table != [] ==>
            (c in MatchTable(AddRules(rules, rs), db, table)
             <==> c in MatchTable(rules, db, table) || exists r <- rs :: NamesTable(r, db, table) && c in r.cmds)
    decreases rs
  {
    hide MatchSchema, MatchTable, Proper, NamesSchema, NamesTable, AddRule;
    if rs != [] {
      assert rs == [rs[0]] + rs[1..];
      assert rs[0] in rs;
      AddRuleMatches(rules, rs[0], db, table, c);
      AddRulesMatch(AddRule(rules, rs[0]), rs[1..], db, table, c);
    }
  }

  /** The rules the two lists spell out, entry by entry. */
  ghost function EntryRules(schemas: Option<string>, tables: Option<string>): set<Rule> {
    (set t | t in Tokens(schemas) && SchemaMeaning(t).Some? :: SchemaMeaning(t).value) +
    (set t | t in Tokens(tables) && TableMeaning(t).Some? :: TableMeaning(t).value)
  }

  lemma ParsedRules(schemas: Option<string>, tables: Option<string>, first: seq<Rule>, second: seq<Rule>)
    requires RulesOf(Tokens(schemas), false) == Ok(first) && RulesOf(Tokens(tables), true) == Ok(second)
    ensures EntryRules(schemas, tables) == (set r | r in first + second)
    ensures forall r <- first + second :: Proper(r)
  {
    hide SchemaMeaning, TableMeaning, Proper;
    var a, b := Tokens(schemas), Tokens(tables);
    RulesOfEntries(a, false);
    RulesOfEntries(b, true);
    assert forall r <- first :: exists i :: 0 <= i < |first| && first[i] == r;
    assert forall t <- a :: SchemaMeaning(t).Some? && SchemaMeaning(t).value in first by {
      assert forall i :: 0 <= i < |a| ==> Meaning(a[i], false) == Some(first[i]);
    }
    assert forall t <- b :: TableMeaning(t).Some? && TableMeaning(t).value in second by {
      assert forall i :: 0 <= i < |b| ==> Meaning(b[i], true) == Some(second[i]);
    }
    forall r | r in first ensures Proper(r) && r in EntryRules(schemas, tables) {
      var i :| 0 <= i < |first| && first[i] == r;
      ListIsFolded(schemas);
      MeaningIsProper(a[i], false);
    }
    forall r | r in second ensures Proper(r) && r in EntryRules(schemas, tables) {
      var i :| 0 <= i < |second| && second[i] == r;
      ListIsFolded(tables);
      MeaningIsProper(b[i], true);
    }
  }

  lemma ListIsFolded(csv: Option<string>)
    ensures forall t <- Tokens(csv) :: IsFolded(t) && t != []
  {
    hide NonEmpty, IsFolded;
    if csv.Some? {
      NonEmptyFolded(Split(csv.value, ','));
    }
  }

  /** Parse, then match, for all lists and all names: a command is allowed exactly when
      some entry names the schema (or the table) up to case and lists the command. */
  lemma ParseThenMatch(schemas: Option<string>, tables: Option<string>, db: string, table: string)
    requires Parse(schemas, tables).Ok?
    ensures var rules := Parse(schemas, tables).value;
            && (forall c :: c in MatchSchema(rules, db)
                 <==> exists r :: r in EntryRules(schemas, tables) && NamesSchema(r, db) && c in r.cmds)
            && (forall c :: c in MatchTable(rules, db, table)
                 <==> exists r :: r in EntryRules(schemas, tables) && NamesTable(r, db, table) && c in r.cmds)
  {
    hide RulesOf, Tokens, EntryRules, MatchSchema, MatchTable, AddRules, Lower;
    var first, second := RulesOf(Tokens(schemas), false).value, RulesOf(Tokens(tables), true).value;
    ParsedRules(schemas, tables, first, second);
    forall c: Command
      ensures c in MatchSchema(Parse(schemas, tables).value, db)
              <==> exists r :: r in EntryRules(schemas, tables) && NamesSchema(r, db) && c in r.cmds
      ensures c in MatchTable(Parse(schemas, tables).value, db, table)
              <==> exists r :: r in EntryRules(schemas, tables) && NamesTable(r, db, table) && c in r.cmds
    {
      EmptyMatchesNothing(db, table);
      AddRulesMatch(EmptyRules, first + second, db, table, c);
      NoNameNoMatch(Parse(schemas, tables).value, db, table);
    }
  }

  lemma EmptyMatchesNothing(db: string, table: string)
    ensures MatchSchema(EmptyRules, db) == {} && MatchTable(EmptyRules, db, table) == {}
  {
  }

  lemma NoNameNoMatch(rules: FilterRules, db: string, table: string)
    ensures db == [] || table == [] ==> MatchTable(rules, db, table) == {}
  {
  }

  /** Order and repetition of entries never matter. */
  lemma OrderNeverMatters(s1: Option<string>, t1: Option<string>, s2: Option<string>, t2: Option<string>, db: string, table: string)
    requires forall t :: t in Tokens(s1) <==> t in Tokens(s2)
    requires forall t :: t in Tokens(t1) <==> t in Tokens(t2)
    ensures Parse(s1, t1).Ok? == Parse(s2, t2).Ok?
    ensures Parse(s1, t1).Ok? ==>
              MatchSchema(Parse(s1, t1).value, db) == MatchSchema(Parse(s2, t2).value, db)
              && MatchTable(Parse(s1, t1).value, db, table) == MatchTable(Parse(s2, t2).value, db, table)
  {
    hide MatchSchema, MatchTable, AddRules, Meaning, SchemaMeaning, TableMeaning, NamesSchema, NamesTable, RulesOf, Tokens;
    RulesOfEntries(Tokens(s1), false);
    RulesOfEntries(Tokens(s2), false);
    RulesOfEntries(Tokens(t1), true);
    RulesOfEntries(Tokens(t2), true);
    if Parse(s1, t1).Ok? {
      ParseThenMatch(s1, t1, db, table);
      ParseThenMatch(s2, t2, db, table);
      assert EntryRules(s1, t1) == EntryRules(s2, t2);
    }
  }

  // ---- the two lists are independent ----

  lemma {:induction false} SchemaRulesOnly(rules: FilterRules, rs: seq<Rule>)
    requires forall r <- rs :: r.SchemaRule?
    ensures AddRules(rules, rs).wildcards == rules.wildcards && AddRules(rules, rs).tables == rules.tables
    ensures AddRules(rules, rs).connections == rules.connections
    decreases rs
  {
    if rs != [] {
      assert rs[0] in rs;
      SchemaRulesOnly(AddRule(rules, rs[0]), rs[1..]);
    }
  }

  lemma {:induction false} TableRulesOnly(rules: FilterRules, other: FilterRules, rs: seq<Rule>)
    requires forall r <- rs :: !r.SchemaRule?
    requires rules.wildcards == other.wildcards && rules.tables == other.tables
    ensures AddRules(rules, rs).schemas == rules.schemas && AddRules(rules, rs).connections == rules.connections
    ensures AddRules(rules, rs).wildcards == AddRules(other, rs).wildcards
    ensures AddRules(rules, rs).tables == AddRules(other, rs).tables
    decreases rs
  {
    hide Add;
    if rs != [] {
      assert rs[0] in rs;
      TableRulesOnly(AddRule(rules, rs[0]), AddRule(other, rs[0]), rs[1..]);
    }
  }

  lemma MeaningKind(tokens: seq<string>, tables: bool)
    requires RulesOf(tokens, tables).Ok?
    ensures forall r <- RulesOf(tokens, tables).value :: r.SchemaRule? == !tables
  {
    hide RulesOf, NameAndCmds;
    RulesOfEntries(tokens, tables);
    var rs := RulesOf(tokens, tables).value;
    forall r | r in rs ensures r.SchemaRule? == !tables {
      var i :| 0 <= i < |rs| && rs[i] == r;
      assert Meaning(tokens[i], tables) == Some(r);
    }
  }

  /** Both lists parse together exactly when each parses alone, and the result is the
      schema part of one with the table part of the other. */
  lemma ParseIsFieldwise(schemas: Option<string>, tables: Option<string>)
    ensures Parse(schemas, tables).Ok? <==> Parse(schemas, None).Ok? && Parse(None, tables).Ok?
    ensures Parse(schemas, tables).Ok? ==>
              Parse(schemas, tables).value
              == FilterRules(Parse(schemas, None).value.schemas, Parse(None, tables).value.wildcards,
                             Parse(None, tables).value.tables, [])
  {
    hide Tokens, Meaning, AddRules;
    assert Tokens(None) == [] by { NoTokens(); }
    if Parse(schemas, tables).Ok? {
      var first, second := RulesOf(Tokens(schemas), false).value, RulesOf(Tokens(tables), true).value;
      MeaningKind(Tokens(schemas), false);
      MeaningKind(Tokens(tables), true);
      assert first + [] == first && [] + second == second;
      AddRulesConcat(EmptyRules, first, second);
      SchemaRulesOnly(EmptyRules, first);
      TableRulesOnly(AddRules(EmptyRules, first), EmptyRules, second);
    }
  }

  lemma NoTokens()
    ensures Tokens(None) == []
  {
  }
}

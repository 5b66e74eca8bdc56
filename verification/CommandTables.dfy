/** The two command tables of core/filter_engine.cc against each other: what a qualifier lists
is what the keywords of that name are classified as. */
module CommandTables {
  import opened Bytes
  import opened Rules
  import opened Commands

  /** The qualifier tokens that name one class of their own. */
  function SingleTokens(): seq<string> {
    ["select", "insert", "update", "delete", "replace", "load", "call", "create", "alter", "drop", "truncate", "rename",
     "other", "commit", "rollback", "begin", "savepoint"]
  }

  function GroupTokens(): seq<string> { ["dml", "ddl", "tcl", "all"] }

  /** The keywords that have a class of their own, and WITH. */
  function KnownWords(): seq<string> {
    ["SELECT", "WITH", "INSERT", "UPDATE", "DELETE", "REPLACE", "LOAD", "CALL", "CREATE", "ALTER", "DROP", "TRUNCATE", "RENAME",
     "COMMIT", "ROLLBACK", "BEGIN", "SAVEPOINT"]
  }

  // ---- the names of each table differ ----

  /** Length and first two bytes tell the names apart. */
  function Sig(s: string): int { if |s| < 2 then 0 else |s| + 100 * s[0] as int + 100000 * s[1] as int }

  function Sigs(names: seq<string>): seq<int> { seq(|names|, i requires 0 <= i < |names| => Sig(names[i])) }

  predicate Distinct(xs: seq<int>) { forall i, j :: 0 <= i < j < |xs| ==> xs[i] != xs[j] }

  lemma SingleSigs()
    ensures Sigs(SingleTokens())
            == [10111506, 11010506, 11211706, 10110006, 10111407, 11110804, 9709904, 11409906, 10809705, 11410004, 11411608, 10111406,
                11611105, 11109906, 11111408, 10109805, 9711509]
  {
  }

  lemma GroupSigs()
    ensures Sigs(GroupTokens()) == [10910003, 10010003, 9911603, 10809703]
  {
  }

  lemma WordSigs()
    ensures Sigs(KnownWords())
            == [6908306, 7308704, 7807306, 8008506, 6906806, 6908207, 7907604, 6506704, 8206706, 7606505, 8206804, 8208408, 6908206,
                7906706, 7908208, 6906605, 6508309]
  {
  }

  lemma TokensDiffer()
    ensures Distinct(Sigs(SingleTokens() + GroupTokens()))
  {
    SingleSigs();
    GroupSigs();
    var a, b := Sigs(SingleTokens()), Sigs(GroupTokens());
    hide SingleTokens, GroupTokens, Sig;
    assert Sigs(SingleTokens() + GroupTokens()) == a + b;
    hide Sigs;
  }

  lemma WordsDiffer()
    ensures Distinct(Sigs(KnownWords()))
  {
    WordSigs();
    hide KnownWords, Sigs;
  }

  lemma RowsAreTokens()
    ensures |CmdTokens()| == 21 && forall i :: 0 <= i < 21 ==> CmdTokens()[i].0 == (SingleTokens() + GroupTokens())[i]
  {
  }

  lemma RowsAreWords()
    ensures |Keywords()| == 17 && forall i :: 0 <= i < 17 ==> Keywords()[i].0 == KnownWords()[i]
  {
  }
  // ---- looking up ----

  lemma {:induction false} LookupFinds(rows: Table, key: string, i: nat)
    requires i < |rows| && rows[i].0 == key && forall j :: 0 <= j < i ==> rows[j].0 != key
    ensures Lookup(rows, key) == Some(rows[i].1)
    decreases rows
  {
    if i > 0 {
      assert rows[0].0 != key;
      assert forall j :: 0 <= j < |rows| - 1 ==> rows[1..][j] == rows[j + 1];
      LookupFinds(rows[1..], key, i - 1);
    }
  }

  lemma {:induction false} ClassifyFinds(rows: seq<(string, Command)>, word: string, i: nat)
    requires i <= |rows| && (i < |rows| ==> rows[i].0 == word) && forall j :: 0 <= j < i ==> rows[j].0 != word
    ensures Classify(rows, word) == if i == |rows| then Other else rows[i].1
    decreases rows
  {
    if i > 0 {
      assert rows[0].0 != word;
      assert forall j :: 0 <= j < |rows| - 1 ==> rows[1..][j] == rows[j + 1];
      ClassifyFinds(rows[1..], word, i - 1);
    }
  }

  lemma TokenAt(i: nat)
    requires i < 21
    ensures |SingleTokens()| == 17 && |GroupTokens()| == 4
    ensures Lookup(CmdTokens(), (SingleTokens() + GroupTokens())[i]) == Some(CmdTokens()[i].1)
  {
    RowsAreTokens();
    TokensDiffer();
    TokenCounts();
    hide CmdTokens, SingleTokens, GroupTokens, Lookup, Sig;
    var names := SingleTokens() + GroupTokens();
    forall j | 0 <= j < i ensures names[j] != names[i] {
      assert Sigs(names)[j] == Sig(names[j]) && Sigs(names)[i] == Sig(names[i]);
    }
    LookupFinds(CmdTokens(), names[i], i);
  }

  lemma TokenCounts()
    ensures |SingleTokens()| == 17 && |GroupTokens()| == 4 && |KnownWords()| == 17
  {
  }

  lemma WordAt(i: nat)
    requires i < 17
    ensures |KnownWords()| == 17 && CommandClass(KnownWords()[i]) == Keywords()[i].1
  {
    RowsAreWords();
    WordsDiffer();
    TokenCounts();
    hide Keywords, KnownWords, Classify, Sig;
    var names := KnownWords();
    forall j | 0 <= j < i ensures names[j] != names[i] {
      assert Sigs(names)[j] == Sig(names[j]) && Sigs(names)[i] == Sig(names[i]);
    }
    ClassifyFinds(Keywords(), names[i], i);
  }

  /** Every word that is not in the table is classified as other. */
  lemma OtherWords(word: string)
    requires word !in KnownWords()
    ensures CommandClass(word) == Other
  {
    RowsAreWords();
    TokenCounts();
    hide Keywords, KnownWords, Classify;
    assert forall j :: 0 <= j < 17 ==> KnownWords()[j] in KnownWords();
    ClassifyFinds(Keywords(), word, 17);
  }

  /** A qualifier that is not in the list is unknown. */
  lemma OtherTokens(token: string)
    requires token !in SingleTokens() && token !in GroupTokens()
    ensures Lookup(CmdTokens(), token).None?
  {
    RowsAreTokens();
    TokenCounts();
    hide CmdTokens, SingleTokens, GroupTokens, Lookup;
    var names := SingleTokens() + GroupTokens();
    assert forall j :: 0 <= j < 21 ==> names[j] in SingleTokens() || names[j] in GroupTokens();
  }

  // ---- the agreement ----

  /** Where the keyword of the k-th token is. */
  function WordIndex(k: nat): nat { if k == 0 then 0 else if k < 12 then k + 1 else k }

  lemma TokensInUpperCase(k: nat)
    requires k < 17 && k != 12
    ensures |SingleTokens()| == 17 && |KnownWords()| == 17
    ensures Upper(SingleTokens()[k]) == KnownWords()[WordIndex(k)]
  {
    var s, w := SingleTokens(), KnownWords();
    if k < 6 {
      assert Upper(s[0]) == w[0] && Upper(s[1]) == w[2] && Upper(s[2]) == w[3];
      assert Upper(s[3]) == w[4] && Upper(s[4]) == w[5] && Upper(s[5]) == w[6];
    } else if k < 12 {
      assert Upper(s[6]) == w[7] && Upper(s[7]) == w[8] && Upper(s[8]) == w[9];
      assert Upper(s[9]) == w[10] && Upper(s[10]) == w[11] && Upper(s[11]) == w[12];
    } else {
      assert Upper(s[13]) == w[13] && Upper(s[14]) == w[14] && Upper(s[15]) == w[15] && Upper(s[16]) == w[16];
    }
  }

  lemma OtherInUpperCase()
    ensures |SingleTokens()| == 17 && Upper(SingleTokens()[12]) == "OTHER"
  {
    assert SingleTokens()[12] == "other";
  }

  lemma OtherIsNoKnownWord()
    ensures "OTHER" !in KnownWords()
  {
    WordSigs();
    TokenCounts();
    hide KnownWords;
    var names := KnownWords();
    assert Sig("OTHER") == 8407905;
    assert forall i :: 0 <= i < 17 ==> Sigs(names)[i] == Sig(names[i]);
  }

  lemma MasksAreClasses()
    ensures |CmdTokens()| == 21 && |Keywords()| == 17
    ensures forall k :: 0 <= k < 17 && k != 12 ==> CmdTokens()[k].1 == {Keywords()[WordIndex(k)].1}
    ensures CmdTokens()[12].1 == {Other}
  {
  }

  /** A qualifier lists exactly the class of the statements that begin with its own word. */
  lemma QualifiersAreTheirKeywords(k: nat)
    requires k < 17
    ensures |SingleTokens()| == 17
    ensures Lookup(CmdTokens(), SingleTokens()[k]) == Some({CommandClass(Upper(SingleTokens()[k]))})
  {
    TokenAt(k);
    MasksAreClasses();
    hide CmdTokens, SingleTokens, GroupTokens, KnownWords, Keywords, Lookup, CommandClass, Upper;
    if k == 12 {
      OtherInUpperCase();
      OtherIsNoKnownWord();
      OtherWords("OTHER");
    } else {
      TokensInUpperCase(k);
      WordAt(WordIndex(k));
    }
  }

  /** Different words have different classes, but for WITH, which counts as SELECT. */
  lemma ClassesDiffer(i: nat, j: nat)
    requires i < j < 17
    ensures |KnownWords()| == 17
    ensures CommandClass(KnownWords()[i]) == CommandClass(KnownWords()[j]) <==> i == 0 && j == 1
    ensures CommandClass(KnownWords()[i]) != Other && CommandClass(KnownWords()[j]) != Other
  {
    WordAt(i);
    WordAt(j);
    RowClasses();
  }

  lemma RowClasses()
    ensures |Keywords()| == 17
    ensures forall i, j :: 0 <= i < j < 17 ==> (Keywords()[i].1 == Keywords()[j].1 <==> i == 0 && j == 1)
    ensures forall i :: 0 <= i < 17 ==> Keywords()[i].1 != Other
  {
  }

  /** The classes of some words. */
  function ClassesOf(words: seq<string>): set<Command> { set w | w in words :: CommandClass(w) }

  /** The groups are the classes of the words they stand for. */
  lemma GroupsAreTheirKeywords()
    ensures Lookup(CmdTokens(), "dml") == Some(ClassesOf(["INSERT", "UPDATE", "DELETE", "REPLACE", "LOAD"]))
    ensures Lookup(CmdTokens(), "ddl") == Some(ClassesOf(["CREATE", "ALTER", "DROP", "TRUNCATE", "RENAME"]))
    ensures Lookup(CmdTokens(), "tcl") == Some(ClassesOf(["COMMIT", "ROLLBACK", "BEGIN", "SAVEPOINT"]))
    ensures Lookup(CmdTokens(), "all").Some? && forall word: string :: CommandClass(word) in Lookup(CmdTokens(), "all").value
  {
    GroupRows();
    GroupNames();
    hide CmdTokens, SingleTokens, GroupTokens, Lookup, CommandClass, ClassesOf;
    TokenAt(17);
    TokenAt(18);
    TokenAt(19);
    TokenAt(20);
    AllCommands();
  }

  lemma GroupNames()
    ensures var names := SingleTokens() + GroupTokens();
            |names| == 21 && names[17] == "dml" && names[18] == "ddl" && names[19] == "tcl" && names[20] == "all"
  {
  }

  lemma GroupRows()
    ensures |CmdTokens()| == 21
    ensures CmdTokens()[17].1 == ClassesOf(["INSERT", "UPDATE", "DELETE", "REPLACE", "LOAD"])
    ensures CmdTokens()[18].1 == ClassesOf(["CREATE", "ALTER", "DROP", "TRUNCATE", "RENAME"])
    ensures CmdTokens()[19].1 == ClassesOf(["COMMIT", "ROLLBACK", "BEGIN", "SAVEPOINT"])
    ensures CmdTokens()[20].1 == CMD_ALL
  {
    RowMasks();
    hide CmdTokens;
    NamedClasses();
    hide CommandClass;
    FiveClasses("INSERT", "UPDATE", "DELETE", "REPLACE", "LOAD");
    FiveClasses("CREATE", "ALTER", "DROP", "TRUNCATE", "RENAME");
    FourClasses("COMMIT", "ROLLBACK", "BEGIN", "SAVEPOINT");
  }

  lemma RowMasks()
    ensures |CmdTokens()| == 21
    ensures CmdTokens()[17].1 == {Insert, Update, Delete, Replace, Load}
    ensures CmdTokens()[18].1 == {Create, Alter, Drop, Truncate, Rename}
    ensures CmdTokens()[19].1 == {Commit, Rollback, Begin, Savepoint}
    ensures CmdTokens()[20].1 == CMD_ALL
  {
  }

  lemma FiveClasses(a: string, b: string, c: string, d: string, e: string)
    ensures ClassesOf([a, b, c, d, e]) == {CommandClass(a), CommandClass(b), CommandClass(c), CommandClass(d), CommandClass(e)}
  {
    hide CommandClass;
    var ws := [a, b, c, d, e];
    assert ws[0] in ws && ws[1] in ws && ws[2] in ws && ws[3] in ws && ws[4] in ws;
  }

  lemma FourClasses(a: string, b: string, c: string, d: string)
    ensures ClassesOf([a, b, c, d]) == {CommandClass(a), CommandClass(b), CommandClass(c), CommandClass(d)}
  {
    hide CommandClass;
    var ws := [a, b, c, d];
    assert ws[0] in ws && ws[1] in ws && ws[2] in ws && ws[3] in ws;
  }

  lemma NamedClasses()
    ensures CommandClass("INSERT") == Insert && CommandClass("UPDATE") == Update && CommandClass("DELETE") == Delete
    ensures CommandClass("REPLACE") == Replace && CommandClass("LOAD") == Load
    ensures CommandClass("CREATE") == Create && CommandClass("ALTER") == Alter && CommandClass("DROP") == Drop
    ensures CommandClass("TRUNCATE") == Truncate && CommandClass("RENAME") == Rename
    ensures CommandClass("COMMIT") == Commit && CommandClass("ROLLBACK") == Rollback && CommandClass("BEGIN") == Begin
    ensures CommandClass("SAVEPOINT") == Savepoint
  {
    WordNames();
    WordClasses();
    hide KnownWords, Keywords, CommandClass;
    WordAt(2);
    WordAt(3);
    WordAt(4);
    WordAt(5);
    WordAt(6);
    WordAt(8);
    WordAt(9);
    WordAt(10);
    WordAt(11);
    WordAt(12);
    WordAt(13);
    WordAt(14);
    WordAt(15);
    WordAt(16);
  }

  lemma WordClasses()
    ensures var k := Keywords();
            && |k| == 17 && k[2].1 == Insert && k[3].1 == Update && k[4].1 == Delete && k[5].1 == Replace && k[6].1 == Load
            && k[8].1 == Create && k[9].1 == Alter && k[10].1 == Drop && k[11].1 == Truncate && k[12].1 == Rename
            && k[13].1 == Commit && k[14].1 == Rollback && k[15].1 == Begin && k[16].1 == Savepoint
  {
  }

  lemma WordNames()
    ensures var w := KnownWords();
            && |w| == 17 && w[2] == "INSERT" && w[3] == "UPDATE" && w[4] == "DELETE" && w[5] == "REPLACE" && w[6] == "LOAD"
            && w[8] == "CREATE" && w[9] == "ALTER" && w[10] == "DROP" && w[11] == "TRUNCATE" && w[12] == "RENAME"
            && w[13] == "COMMIT" && w[14] == "ROLLBACK" && w[15] == "BEGIN" && w[16] == "SAVEPOINT"
  {
  }
}

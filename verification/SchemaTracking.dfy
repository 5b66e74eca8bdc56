/** What the session-schema tracker of src/selective_trace_mysql.cc makes of USE statements. */
module SchemaTracking {
  import opened Bytes
  import opened Commands
  import opened Statement

  /** At most 191 bytes of a name are stored. */
  lemma StoredName(name: string)
    ensures ClipDb(name) == if |name| <= 191 then name else name[..191]
  {
  }

  predicate SpellsUse(s: string) { |s| == 3 && Upper(s) == "USE" }

  /** The keyword lexer skips white space and parentheses, and so does the tracker. */
  lemma {:induction false} PrefixSkipped(prefix: string, s: string)
    requires (forall c <- prefix :: IsPrefixByte(c)) && (s != [] ==> !IsPrefixByte(s[0]))
    ensures PrefixLen(prefix + s) == |prefix| && Skip(prefix + s) == Skip(s)
  {
    hide Skip;
    if prefix == [] {
      assert prefix + s == s;
    } else {
      var t := prefix + s;
      assert prefix[0] in prefix && forall c <- prefix[1..] :: c in prefix;
      assert t[1..] == prefix[1..] + s;
      PrefixSkipped(prefix[1..], s);
      SkipOnce(t, 1);
    }
  }

  lemma GapSkipped(gap: string, s: string)
    requires (forall c <- gap :: IsSpace(c)) && s != [] && !IsSpace(s[0])
    ensures SpaceLen(gap + s) == |gap|
  {
    hide SpaceLen;
    assert forall i :: 0 <= i < |gap| ==> (gap + s)[i] in gap;
    SpaceLenUnique(gap + s, |gap|);
  }

  lemma UseIsTheKeyword(use: string, t: string)
    requires SpellsUse(use) && (t != [] ==> !IsIdent(t[0]))
    ensures Skip(use + t) == use + t && Keyword(use + t, 8) == "USE"
  {
    hide Skip;
    var s := use + t;
    assert Upper(use)[0] == 'U' && Upper(use)[1] == 'S' && Upper(use)[2] == 'E';
    assert s[1..][1..][1..] == t;
    assert Word(t, 4) == [];
    assert Word(s[1..][1..], 5) == "E";
    assert Word(s[1..], 6) == "SE";
    assert Word(s, 7) == "USE";
    assert "START"[1] == 'T';
    SkipDone(s);
  }

  /** Behind a prefix of white space and parentheses and the keyword, in any letter case,
      the tracker reads the name that follows the white space. */
  lemma UseTracks(prefix: string, use: string, gap: string, s: string)
    requires (forall c <- prefix :: IsPrefixByte(c)) && SpellsUse(use) && forall c <- gap :: IsSpace(c)
    requires s != [] && !IsSpace(s[0]) && (gap == [] ==> !IsIdent(s[0]))
    ensures SchemaNamed("Query", prefix + (use + (gap + s))) == ClipDb(NameAt(s))
  {
    hide Skip, Keyword, NameAt;
    var t := gap + s;
    var query := prefix + (use + t);
    assert t[0] == if gap == [] then s[0] else gap[0];
    assert gap != [] ==> gap[0] in gap;
    UseIsTheKeyword(use, t);
    assert Upper(use)[0] == 'U';
    PrefixSkipped(prefix, use + t);
    GapSkipped(gap, s);
    assert query[|prefix|..] == use + t && (use + t)[3..] == t && t[|gap|..] == s;
    assert "Query"[0] == 'Q';
  }

  lemma {:induction false} NameLenOf(name: string, rest: string)
    requires (forall c <- name :: IsNameByte(c)) && (rest != [] ==> !IsNameByte(rest[0]))
    ensures NameLen(name + rest) == |name|
  {
    if name == [] {
      assert name + rest == rest;
    } else {
      assert name[0] in name && forall c <- name[1..] :: c in name;
      assert (name + rest)[1..] == name[1..] + rest;
      NameLenOf(name[1..], rest);
    }
  }

  /** USE name. */
  lemma UseNameIsTracked(prefix: string, use: string, gap: string, name: string, rest: string)
    requires (forall c <- prefix :: IsPrefixByte(c)) && SpellsUse(use)
    requires gap != [] && forall c <- gap :: IsSpace(c)
    requires name != [] && (forall c <- name :: IsNameByte(c)) && (rest != [] ==> !IsNameByte(rest[0]))
    ensures SchemaNamed("Query", prefix + (use + (gap + (name + rest)))) == ClipDb(name)
  {
    hide SchemaNamed, NameLen;
    var s := name + rest;
    assert s[0] == name[0] && name[0] in name;
    UseTracks(prefix, use, gap, s);
    NameLenOf(name, rest);
    assert s[..|name|] == name;
  }

  /** USE `name`, where the white space and the closing backtick may be missing. */
  lemma UseQuotedNameIsTracked(prefix: string, use: string, gap: string, name: string, rest: string)
    requires (forall c <- prefix :: IsPrefixByte(c)) && SpellsUse(use) && forall c <- gap :: IsSpace(c)
    requires '`' !in name && (rest != [] ==> rest[0] == '`')
    ensures SchemaNamed("Query", prefix + (use + (gap + ("`" + (name + rest))))) == ClipDb(name)
  {
    hide SchemaNamed, IndexOf;
    var s := "`" + (name + rest);
    UseTracks(prefix, use, gap, s);
    assert s[1..] == name + rest && (name + rest)[..|name|] == name;
    IndexOfUnique(name + rest, '`', |name|);
  }

  // ---- comments ----

  lemma WordOfThree(s: string)
    requires Keyword(s, 8) == "USE"
    ensures |s| >= 3 && SpellsUse(s[..3])
  {
    hide Letters;
    var w := Word(s, 7);
    assert "OTHER"[..5] == "OTHER" && "OTHER"[0] == 'O' && "BEGIN"[0] == 'B' && "USE"[0] == 'U';
    assert w == "USE";
    assert w[0] == ToUpper(s[0]) && w[1..] == Word(s[1..], 6);
    assert w[1..][0] == ToUpper(s[1..][0]) && w[1..][1..] == Word(s[1..][1..], 5);
    assert w[2] == ToUpper(s[2]);
    assert Upper(s[..3]) == "USE";
  }

  lemma {:induction false} SkipShortens(s: string)
    ensures |Skip(s)| <= |s| && (TriviaLen(s) > 0 ==> |Skip(s)| < |s|)
    decreases |s|
  {
    hide TriviaLen;
    if TriviaLen(s) > 0 {
      SkipShortens(s[TriviaLen(s)..]);
    }
  }

  lemma CommentHead(s: string)
    requires s != [] && !IsPrefixByte(s[0]) && TriviaLen(s) > 0
    ensures s[0] == '/' || s[0] == '-' || s[0] == '#'
  {
  }

  /** The tracker drops three bytes for the keyword without looking at them. They are the
      keyword exactly when no comment stands in front of it. */
  lemma KeywordIsDroppedUnlessCommented(query: string)
    requires Extract(query, 8) == Some("USE")
    ensures var s := query[PrefixLen(query)..];
            |s| >= 3 && (SpellsUse(s[..3]) <==> Skip(query) == s)
  {
    hide Skip, Keyword, TriviaLen, PrefixLen;
    var n := PrefixLen(query);
    var s := query[n..];
    PrefixSkipped(query[..n], s);
    assert query[..n] + s == query;
    WordOfThree(Skip(s));
    SkipShortens(s);
    if TriviaLen(s) == 0 {
      SkipDone(s);
    } else {
      CommentHead(s);
      assert Upper(s[..3])[0] == s[0];
    }
  }

  /** What the tracker takes for the name: the text behind the prefix, three bytes and white
      space. */
  function Behind(query: string): string {
    var s := query[PrefixLen(query)..];
    if |s| < 3 then [] else SkipBlanks(s[3..])
  }

  /** A name byte, or a backtick that opens a non-empty name. */
  predicate OpensName(u: string) { u != [] && (IsNameByte(u[0]) || (u[0] == '`' && |u| > 1 && u[1] != '`')) }

  lemma NameAtEmpty(u: string)
    ensures NameAt(u) == [] <==> !OpensName(u)
  {
    if u != [] && u[0] == '`' && |u| > 1 {
      assert u[1..][0] == u[1];
    }
  }

  /** A USE statement leaves the schema as it was exactly when no name opens behind those
      three bytes, whatever they are. */
  lemma UseNamesNothingExactlyWhen(query: string)
    requires Extract(query, 8) == Some("USE")
    ensures SchemaNamed("Query", query) == [] <==> !OpensName(Behind(query))
  {
    hide Extract, PrefixLen, NameAt, OpensName, SpaceLen;
    KeywordIsDroppedUnlessCommented(query);
    NameAtEmpty(Behind(query));
    assert "Query"[0] == 'Q';
    assert query != [] by { NothingHasNoKeyword(); }
  }

  lemma NothingHasNoKeyword()
    ensures Extract("", 8) == Some("OTHER")
  {
    assert "OTHER"[..5] == "OTHER";
  }

  /** What the tracker sees of a comment: its body but for the first byte, and its end. */
  function AfterOpening(body: string): string { if body == [] then "/" else body[1..] + "*/" }

  /** So a USE behind a block comment leaves the schema unchanged, as documented, exactly when
      no name opens in the comment behind its first byte and white space. */
  lemma CommentedUseIsIgnoredExactlyWhen(prefix: string, body: string, use: string)
    requires (forall c <- prefix :: IsPrefixByte(c)) && Block(body).Valid() && Extract(use, 8) == Some("USE")
    ensures SchemaNamed("Query", prefix + (Block(body).Text() + use)) == [] <==> !OpensName(SkipBlanks(AfterOpening(body)))
  {
    hide Skip, Keyword, SchemaNamed, OpensName, PrefixLen, SpaceLen, Trivia.Valid;
    var s := Block(body).Text() + use;
    var query := prefix + s;
    assert s[0] == '/' && s[1] == '*';
    PrefixSkipped(prefix, s);
    assert query[|prefix|..] == s;
    OneItem(Block(body));
    TriviaIsTransparent([Block(body)], use, 8);
    UseNamesNothingExactlyWhen(query);
    CommentTail(body, use);
  }

  lemma CommentTail(body: string, use: string)
    ensures var s := Block(body).Text() + use;
            OpensName(SkipBlanks(s[3..])) <==> OpensName(SkipBlanks(AfterOpening(body)))
  {
    hide SpaceLen, OpensName;
    var v := AfterOpening(body);
    assert v != [] && !IsSpace(v[|v| - 1]);
    assert (Block(body).Text() + use)[3..] == v + use;
    BlanksBefore(v, use);
    assert body != [] ==> v[|v| - 2] == '*';
    OpensBefore(SkipBlanks(v), use);
  }

  lemma BlanksBefore(v: string, more: string)
    requires v != [] && !IsSpace(v[|v| - 1])
    ensures SkipBlanks(v) != [] && SkipBlanks(v + more) == SkipBlanks(v) + more
    ensures |v| > 1 && !IsSpace(v[|v| - 2]) ==> |SkipBlanks(v)| > 1
  {
    hide SpaceLen;
    var n := SpaceLen(v);
    var t := v + more;
    assert t[n] == v[n];
    assert forall i :: 0 <= i < n ==> t[i] == v[i];
    SpaceLenUnique(t, n);
    assert t[n..] == v[n..] + more;
  }

  lemma OpensBefore(u: string, more: string)
    requires |u| > 1 || (u != [] && u[0] != '`')
    ensures OpensName(u + more) <==> OpensName(u)
  {
    assert (u + more)[0] == u[0];
    assert |u| > 1 ==> (u + more)[1] == u[1];
  }

  /** So a comment invents a schema: in front of any USE statement, the name that opens the
      comment becomes the session schema, whatever the statement selects. */
  lemma CommentedUseNamesTheComment(name: string, use: string)
    requires Extract(use, 8) == Some("USE") && name != [] && forall c <- name :: IsNameByte(c)
    ensures SchemaNamed("Query", Block(" " + name).Text() + use) == ClipDb(name)
  {
    hide Extract, NameLen, ClipDb;
    var body := " " + name;
    var t := Block(body);
    assert forall i :: 0 < i < |body| ==> body[i] in name;
    assert t.Valid();
    assert TriviaText([t]) == t.Text() by { OneItem(t); }
    TriviaIsTransparent([t], use, 8);
    var query := t.Text() + use;
    assert query[0] == '/' && query[0..] == query;
    assert PrefixLen(query) == 0;
    var s := name + ("*/" + use);
    assert query[3..] == s;
    assert s[0] == name[0] && name[0] in name && s[0..] == s;
    assert SpaceLen(s) == 0;
    NameLenOf(name, "*/" + use);
    assert s[..|name|] == name;
    assert "Query"[0] == 'Q';
  }

  lemma OneItem(t: Trivia)
    ensures TriviaText([t]) == t.Text()
  {
    assert [t][1..] == [] && t.Text() + [] == t.Text();
  }
}

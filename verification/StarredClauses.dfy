/** The clauses of the masker over literal bytes: what a user writes and what the log shows. */
module StarredClauses {
  import opened Bytes
  import opened Masker
  import opened MaskerTheorems
  import opened MaskerClauses
  import opened ByteClasses

  /** A byte of a quoted text: as it is, or behind a backslash. */
  datatype Unit = Plain(c: char) | Escaped(c: char)

  function UnitsText(us: seq<Unit>): string {
    if us == [] then [] else (if us[0].Plain? then [us[0].c] else ['\\', us[0].c]) + UnitsText(us[1..])
  }

  /** No quote and no backslash stands for itself. */
  predicate UnitsOk(us: seq<Unit>, quote: char) { forall u <- us :: u.Plain? ==> u.c != quote && u.c != '\\' }

  /** These texts are exactly the closed bodies of the masker. */
  lemma {:induction false} UnitsAreBody(us: seq<Unit>, quote: char)
    requires UnitsOk(us, quote) && (quote == '\'' || quote == '"')
    ensures BodyOk(UnitsText(us), quote, true)
  {
    if us != [] {
      assert us[0] in us && forall u <- us[1..] :: u in us;
      UnitsAreBody(us[1..], quote);
      var t := UnitsText(us);
      assert us[0].Plain? ==> t[1..] == UnitsText(us[1..]);
      assert us[0].Escaped? ==> t[2..] == UnitsText(us[1..]);
    }
  }

  lemma {:induction false} BodyIsUnits(body: string, quote: char) returns (us: seq<Unit>)
    requires BodyOk(body, quote, true) && (quote == '\'' || quote == '"')
    ensures UnitsOk(us, quote) && UnitsText(us) == body
  {
    if body == [] {
      us := [];
    } else if body[0] == '\\' {
      var more := BodyIsUnits(body[2..], quote);
      us := [Escaped(body[1])] + more;
      assert us[1..] == more && body == ['\\', body[1]] + body[2..];
    } else {
      var more := BodyIsUnits(body[1..], quote);
      us := [Plain(body[0])] + more;
      assert us[1..] == more && body == [body[0]] + body[1..];
    }
  }

  /** A quoted text as written. */
  function InQuotes(quote: char, text: string): string { [quote] + text + [quote] }

  lemma QuotedIsLiteral(quote: char, us: seq<Unit>, post: string)
    requires UnitsOk(us, quote) && (quote == '\'' || quote == '"')
    ensures var h := Quoted(quote, UnitsText(us), true);
            && Literal(h, post) && h.Raw() == InQuotes(quote, UnitsText(us)) && h.Redacted() == InQuotes(quote, "***")
  {
    UnitsAreBody(us, quote);
    Classes(quote);
  }

  lemma SeparatorsAre(seps: string)
    requires forall c <- seps :: c in " \t\r\n(="
    ensures forall c <- seps :: IsSeparator(c)
  {
    forall c | c in seps ensures IsSeparator(c) {
      Classes(c);
    }
  }

  /** PASSWORD or OLD_PASSWORD, white space, parentheses and equal signs, and a quoted text:
      three stars stand in its place. */
  lemma PasswordIsStarred(pre: string, word: string, seps: string, quote: char, us: seq<Unit>, post: string)
    requires Upper(word) == "PASSWORD" || Upper(word) == "OLD_PASSWORD"
    requires (forall c <- seps :: c in " \t\r\n(=") && UnitsOk(us, quote) && (quote == '\'' || quote == '"')
    requires Opens(pre, word, seps + (InQuotes(quote, UnitsText(us)) + post))
    ensures Masked(pre + (word + (seps + (InQuotes(quote, UnitsText(us)) + post))))
            == (pre + word + seps) + (InQuotes(quote, "***") + Render(Cuts(Outside, false, post)))
  {
    hide Opens, Masked, Render, Cuts, InQuotes, Literal, UnitsText, UnitsOk;
    SeparatorsAre(seps);
    QuotedIsLiteral(quote, us, post);
    PasswordClause(pre, word, seps, Quoted(quote, UnitsText(us), true), post);
  }

  lemma HexIsLiteral(mark: char, digits: string, post: string)
    requires (mark == 'x' || mark == 'X') && (forall c <- digits :: c in "0123456789abcdefABCDEF")
    requires post != [] ==> post[0] !in "0123456789abcdefABCDEF"
    ensures var h := Hex(mark, digits); Literal(h, post) && h.Raw() == ['0', mark] + digits && h.Redacted() == "0x***"
  {
    forall c | c in digits ensures IsHexDigit(c) {
      Classes(c);
    }
    if post != [] {
      Classes(post[0]);
    }
  }

  /** The same for digits behind 0x. */
  lemma HashIsStarred(pre: string, word: string, seps: string, mark: char, digits: string, post: string)
    requires Upper(word) == "PASSWORD" || Upper(word) == "OLD_PASSWORD"
    requires (forall c <- seps :: c in " \t\r\n(=") && (mark == 'x' || mark == 'X')
    requires (forall c <- digits :: c in "0123456789abcdefABCDEF") && (post != [] ==> post[0] !in "0123456789abcdefABCDEF")
    requires Opens(pre, word, seps + ((['0', mark] + digits) + post))
    ensures Masked(pre + (word + (seps + ((['0', mark] + digits) + post))))
            == (pre + word + seps) + ("0x***" + Render(Cuts(Outside, true, post)))
  {
    hide Opens, Masked, Render, Cuts, Literal;
    SeparatorsAre(seps);
    HexIsLiteral(mark, digits, post);
    PasswordClause(pre, word, seps, Hex(mark, digits), post);
  }

  /** IDENTIFIED, a gap, BY, AS or USING, and a quoted text. */
  lemma IdentifiedIsStarred(pre: string, word: string, gap: string, connector: string, seps: string, quote: char, us: seq<Unit>,
                            post: string)
    requires Upper(word) == "IDENTIFIED" && (Upper(connector) == "BY" || Upper(connector) == "AS" || Upper(connector) == "USING")
    requires (forall c <- seps :: c in " \t\r\n(=") && UnitsOk(us, quote) && (quote == '\'' || quote == '"')
    requires var value := seps + (InQuotes(quote, UnitsText(us)) + post);
             Connects(gap, connector, value) && Opens(pre, word, gap + (connector + value))
    ensures Masked(pre + (word + (gap + (connector + (seps + (InQuotes(quote, UnitsText(us)) + post))))))
            == (pre + word + gap + connector + seps) + (InQuotes(quote, "***") + Render(Cuts(Outside, false, post)))
  {
    hide Opens, Connects, Masked, Render, Cuts, InQuotes, Literal, UnitsText, UnitsOk;
    SeparatorsAre(seps);
    QuotedIsLiteral(quote, us, post);
    IdentifiedByClause(pre, word, gap, connector, seps, Quoted(quote, UnitsText(us), true), post);
  }

  // ---- whole statements ----

  lemma Heads()
    ensures AllInert(false, "SELECT ") && AllInert(false, ")") && AllInert(false, "SET ") && AllInert(false, "CREATE USER u ")
    ensures Upper("PASSWORD") == "PASSWORD"
  {
    hide AllInert;
    NoTriggerLetters(false, "SELECT ");
    NoTriggerLetters(false, ")");
    NoTriggerLetters(false, "SET ");
    NoTriggerLetters(false, "CREATE USER u ");
  }

  /** The function call, for every password and both quotes. */
  lemma FunctionCallIsStarred(quote: char, us: seq<Unit>)
    requires UnitsOk(us, quote) && (quote == '\'' || quote == '"')
    ensures Masked("SELECT " + ("PASSWORD" + ("(" + (InQuotes(quote, UnitsText(us)) + ")"))))
            == ("SELECT " + "PASSWORD" + "(") + (InQuotes(quote, "***") + ")")
  {
    hide Masked, AllInert, UnitsText, UnitsOk, Render, Cuts, Upper, Quiet;
    Heads();
    var tail := "(" + (InQuotes(quote, UnitsText(us)) + ")");
    InertIsQuiet(false, "SELECT ", "PASSWORD" + tail);
    InertIsQuiet(false, ")", "");
    QuietText(")");
    PasswordIsStarred("SELECT ", "PASSWORD", "(", quote, us, ")");
  }

  /** The assignment. */
  lemma AssignmentIsStarred(quote: char, us: seq<Unit>)
    requires UnitsOk(us, quote) && (quote == '\'' || quote == '"')
    ensures Masked("SET " + ("PASSWORD" + (" = " + (InQuotes(quote, UnitsText(us)) + []))))
            == ("SET " + "PASSWORD" + " = ") + (InQuotes(quote, "***") + [])
  {
    hide Masked, AllInert, UnitsText, UnitsOk, Render, Cuts, Upper, Quiet;
    Heads();
    InertIsQuiet(false, "SET ", "PASSWORD" + (" = " + (InQuotes(quote, UnitsText(us)) + [])));
    NothingLeft(false);
    PasswordIsStarred("SET ", "PASSWORD", " = ", quote, us, []);
  }

  lemma ByWords()
    ensures Upper("IDENTIFIED") == "IDENTIFIED" && Upper("BY") == "BY"
  {
  }

  lemma SpaceIsAGap(tail: string)
    ensures Gap(true, " ", tail)
  {
    var s := " " + tail;
    assert s[0] == ' ' && " "[1..] == "";
    assert 2 <= |s| ==> Upper(s[..2])[0] == ' ';
    assert 5 <= |s| ==> Upper(s[..5])[0] == ' ';
  }

  /** CREATE USER. */
  lemma CreateUserIsStarred(quote: char, us: seq<Unit>)
    requires UnitsOk(us, quote) && (quote == '\'' || quote == '"')
    ensures Masked("CREATE USER u " + ("IDENTIFIED" + (" " + ("BY" + (" " + (InQuotes(quote, UnitsText(us)) + []))))))
            == ("CREATE USER u " + "IDENTIFIED" + " " + "BY" + " ") + (InQuotes(quote, "***") + [])
  {
    hide Masked, AllInert, UnitsText, UnitsOk, Render, Cuts, Upper, Quiet, Gap;
    Heads();
    ByWords();
    var value := " " + (InQuotes(quote, UnitsText(us)) + []);
    SpaceIsAGap("BY" + value);
    InertIsQuiet(false, "CREATE USER u ", "IDENTIFIED" + (" " + ("BY" + value)));
    NothingLeft(false);
    IdentifiedIsStarred("CREATE USER u ", "IDENTIFIED", " ", "BY", " ", quote, us, []);
  }
}

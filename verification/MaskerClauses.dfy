/** Which credentials masking finds: exactly the literal that follows a trigger word with
nothing but separators between them. */
module MaskerClauses {
  import opened Bytes
  import opened Masker
  import opened MaskerTheorems

  predicate Trigger(prev: bool, s: string) {
    Kw(prev, s, "IDENTIFIED") || Kw(prev, s, "OLD_PASSWORD") || Kw(prev, s, "PASSWORD")
  }

  predicate ConnectorWord(prev: bool, s: string) {
    Kw(prev, s, "BY") || Kw(prev, s, "AS") || Kw(prev, s, "USING")
  }

  function EndsInWord(prev: bool, s: string): bool { if s == [] then prev else IsIdent(s[|s| - 1]) }

  /** No trigger word begins inside `pre` when `tail` follows it. */
  predicate Quiet(prev: bool, pre: string, tail: string)
    decreases pre
  {
    pre == [] || (!Trigger(prev, pre + tail) && Quiet(IsIdent(pre[0]), pre[1..], tail))
  }

  /** No connector and no literal begins inside `gap` when `tail` follows it. */
  predicate Gap(prev: bool, gap: string, tail: string)
    decreases gap
  {
    gap == [] ||
    (!ConnectorWord(prev, gap + tail) && !StartsLiteral(gap + tail) && Gap(IsIdent(gap[0]), gap[1..], tail))
  }

  /** `gs` begins with copied segments that make up `text`, and goes on with `rest`. */
  ghost predicate Cut(gs: seq<Segment>, text: string, rest: seq<Segment>) {
    exists a: seq<Segment> :: gs == a + rest && AllCopied(a) && Unparse(a) == text
  }

  predicate AllCopied(a: seq<Segment>) { forall g <- a :: g.Copied? }

  lemma CutNone(gs: seq<Segment>)
    ensures Cut(gs, [], gs)
  {
    assert gs == [] + gs && Unparse([]) == [];
  }

  lemma CutOne(x: string, rest: seq<Segment>)
    ensures Cut([Copied(x)] + rest, x, rest)
  {
    ConsSegment(Copied(x), []);
    assert AllCopied([Copied(x)]) && [Copied(x)] + [] == [Copied(x)] && Unparse([]) == [];
  }

  lemma CutJoins(gs: seq<Segment>, x: string, mid: seq<Segment>, y: string, rest: seq<Segment>)
    requires Cut(gs, x, mid) && Cut(mid, y, rest)
    ensures Cut(gs, x + y, rest)
  {
    hide Unparse, Render;
    var a :| gs == a + mid && AllCopied(a) && Unparse(a) == x;
    var b :| mid == b + rest && AllCopied(b) && Unparse(b) == y;
    UnparseConcat(a, b);
    var ab := a + b;
    assert gs == ab + rest && AllCopied(ab) && Unparse(ab) == x + y;
  }

  lemma {:induction false} UnparseConcat(a: seq<Segment>, b: seq<Segment>)
    ensures Unparse(a + b) == Unparse(a) + Unparse(b) && Render(a + b) == Render(a) + Render(b)
  {
    if a == [] {
      assert a + b == b;
    } else {
      hide Unparse, Render;
      var g, more := a[0], a[1..];
      assert a == [g] + more && a + b == [g] + (more + b);
      UnparseConcat(more, b);
      ConsSegment(g, more);
      ConsSegment(g, more + b);
      Concat3(g.Raw(), Unparse(more), Unparse(b));
      Concat3(g.Redacted(), Render(more), Render(b));
    }
  }

  /** What is cut off is copied to the output. */
  lemma CutRenders(gs: seq<Segment>, text: string, rest: seq<Segment>)
    requires Cut(gs, text, rest)
    ensures Render(gs) == text + Render(rest) && Unparse(gs) == text + Unparse(rest)
    ensures HasLiteral(gs) == HasLiteral(rest)
  {
    hide Unparse, Render;
    var a :| gs == a + rest && AllCopied(a) && Unparse(a) == text;
    UnparseConcat(a, rest);
    RenderCopies(a);
    assert forall g <- rest :: g in gs;
  }

  // ---- one stretch of text at a time ----

  /** What the scanner makes of the suffix `s` from a given point on. */
  function Cuts(mode: Mode, prev: bool, s: string): seq<Segment> { Scan(State(mode, prev), s) }

  lemma CopyCut(mode: Mode, prev: bool, x: string, rest: string, next: Mode)
    requires x != [] && Step(State(mode, prev), x + rest) == Copy(x + rest, |x|, next)
    ensures Cut(Cuts(mode, prev, x + rest), x, Cuts(next, IsIdent(x[|x| - 1]), rest))
  {
    hide Step, Cut;
    var s := x + rest;
    assert s[..|x|] == x && s[|x|..] == rest;
    CutOne(x, Cuts(next, IsIdent(x[|x| - 1]), rest));
  }

  lemma GotoCuts(mode: Mode, prev: bool, s: string, next: Mode)
    requires s != [] ==> Step(State(mode, prev), s) == Goto(State(next, prev))
    ensures Cuts(mode, prev, s) == Cuts(next, prev, s)
  {
    hide Step;
  }

  lemma {:induction false} QuietIsCopied(prev: bool, pre: string, tail: string)
    requires Quiet(prev, pre, tail)
    ensures Cut(Cuts(Outside, prev, pre + tail), pre, Cuts(Outside, EndsInWord(prev, pre), tail))
    decreases pre
  {
    hide Cuts, Spells, Cut;
    if pre == [] {
      assert pre + tail == tail;
      CutNone(Cuts(Outside, prev, tail));
    } else {
      var c, more := pre[..1], pre[1..];
      assert pre + tail == c + (more + tail) && c + more == pre;
      CopyCut(Outside, prev, c, more + tail, Outside);
      QuietIsCopied(IsIdent(pre[0]), more, tail);
      CutJoins(Cuts(Outside, prev, pre + tail), c, Cuts(Outside, IsIdent(pre[0]), more + tail), more,
               Cuts(Outside, EndsInWord(prev, pre), tail));
    }
  }

  lemma {:induction false} GapIsCopied(prev: bool, gap: string, tail: string)
    requires Gap(prev, gap, tail)
    ensures Cut(Cuts(Connecting, prev, gap + tail), gap, Cuts(Connecting, EndsInWord(prev, gap), tail))
    decreases gap
  {
    hide Cuts, Spells, Cut;
    if gap == [] {
      assert gap + tail == tail;
      CutNone(Cuts(Connecting, prev, tail));
    } else {
      var c, more := gap[..1], gap[1..];
      assert gap + tail == c + (more + tail) && c + more == gap;
      CopyCut(Connecting, prev, c, more + tail, Connecting);
      GapIsCopied(IsIdent(gap[0]), more, tail);
      CutJoins(Cuts(Connecting, prev, gap + tail), c, Cuts(Connecting, IsIdent(gap[0]), more + tail), more,
               Cuts(Connecting, EndsInWord(prev, gap), tail));
    }
  }

  lemma {:induction false} SeparatorsAreCopied(prev: bool, seps: string, tail: string)
    requires forall c <- seps :: IsSeparator(c)
    ensures Cut(Cuts(AtValue, prev, seps + tail), seps, Cuts(AtValue, EndsInWord(prev, seps), tail))
  {
    hide Cuts, Cut;
    if seps == [] {
      assert seps + tail == tail;
      CutNone(Cuts(AtValue, prev, tail));
    } else {
      var c, more := seps[..1], seps[1..];
      assert seps[0] in seps && forall d <- more :: d in seps;
      assert seps + tail == c + (more + tail) && c + more == seps;
      CopyCut(AtValue, prev, c, more + tail, AtValue);
      SeparatorsAreCopied(IsIdent(seps[0]), more, tail);
      CutJoins(Cuts(AtValue, prev, seps + tail), c, Cuts(AtValue, IsIdent(seps[0]), more + tail), more,
               Cuts(AtValue, EndsInWord(prev, seps), tail));
    }
  }

  /** A literal that `post` does not continue; one that is not closed ends the query. */
  predicate Literal(h: Segment, post: string) {
    && h.WellFormed() && !h.Copied?
    && (h.Quoted? && !h.closed ==> post == [])
    && (h.Hex? && post != [] ==> !IsHexDigit(post[0]))
  }

  /** A literal, and ordinary text behind it. */
  function FromLiteral(h: Segment, post: string): seq<Segment> { [h] + Cuts(Outside, h.Hex?, post) }

  lemma LiteralIsRead(prev: bool, h: Segment, post: string)
    requires Literal(h, post)
    ensures Cuts(AtValue, prev, h.Raw() + post) == FromLiteral(h, post)
  {
    hide StepValue, BodyOk, AllHex;
    if h.Quoted? {
      QuotedRepeats(prev, h, post);
    } else {
      HexRepeats(prev, h, post);
    }
    assert (h.Raw() + post)[|h.Raw()|..] == post;
  }

  /** The separators and the literal behind them. */
  lemma ValueIsRead(prev: bool, seps: string, h: Segment, post: string)
    requires (forall c <- seps :: IsSeparator(c)) && Literal(h, post)
    ensures Cut(Cuts(AtValue, prev, seps + (h.Raw() + post)), seps, FromLiteral(h, post))
  {
    hide Cuts, Cut, Literal, FromLiteral;
    SeparatorsAreCopied(prev, seps, h.Raw() + post);
    LiteralIsRead(EndsInWord(prev, seps), h, post);
  }

  /** Separators and no literal: ordinary text again. */
  lemma NoValueIsRead(prev: bool, seps: string, rest: string)
    requires (forall c <- seps :: IsSeparator(c)) && !StartsLiteral(rest) && (rest != [] ==> !IsSeparator(rest[0]))
    ensures Cut(Cuts(AtValue, prev, seps + rest), seps, Cuts(Outside, EndsInWord(prev, seps), rest))
  {
    hide Cuts, Cut;
    SeparatorsAreCopied(prev, seps, rest);
    GotoCuts(AtValue, EndsInWord(prev, seps), rest, Outside);
  }

  lemma WordIsKw(prev: bool, word: string, tail: string, kw: string)
    requires Upper(word) == kw && !prev && (tail != [] ==> !IsIdent(tail[0]))
    ensures Kw(prev, word + tail, kw)
  {
    assert (word + tail)[..|word|] == word;
  }

  /** A clause opens: `pre` is copied, no word runs into the trigger word, and the trigger
      word does not run into what follows. */
  predicate Opens(pre: string, word: string, tail: string) {
    Quiet(false, pre, word + tail) && !EndsInWord(false, pre) && (tail != [] ==> !IsIdent(tail[0]))
  }

  /** The query is `lead`, copied, then the literal, then `post` read as ordinary text. */
  ghost predicate Redacts(query: string, lead: string, h: Segment, post: string) {
    query == lead + (h.Raw() + post) && Cut(Segments(query), lead, FromLiteral(h, post))
  }

  function Masked(query: string): string { Render(Segments(query)) }

  lemma RedactsRenders(query: string, lead: string, h: Segment, post: string)
    requires Redacts(query, lead, h, post) && !h.Copied?
    ensures Masked(query) == lead + (h.Redacted() + Render(Cuts(Outside, h.Hex?, post)))
    ensures HasLiteral(Segments(query))
  {
    hide Render, Unparse, Cut, Cuts, Segments;
    CutRenders(Segments(query), lead, FromLiteral(h, post));
    ConsSegment(h, Cuts(Outside, h.Hex?, post));
  }

  // ---- PASSWORD and OLD_PASSWORD ----

  lemma PasswordWord(pre: string, word: string, tail: string)
    requires Upper(word) == "PASSWORD" || Upper(word) == "OLD_PASSWORD"
    requires Opens(pre, word, tail)
    ensures Cut(Segments(pre + (word + tail)), pre + word, Cuts(AtValue, true, tail))
  {
    hide Cuts, Quiet, Spells, Cut;
    QuietIsCopied(false, pre, word + tail);
    WordIsKw(false, word, tail, Upper(word));
    OneTrigger(word + tail, Upper(word));
    CopyCut(Outside, false, word, tail, AtValue);
    assert Upper(word)[|word| - 1] == ToUpper(word[|word| - 1]);
    CutJoins(Cuts(Outside, false, pre + (word + tail)), pre, Cuts(Outside, false, word + tail), word, Cuts(AtValue, true, tail));
    assert Segments(pre + (word + tail)) == Cuts(Outside, false, pre + (word + tail)) by { SegmentsAreCuts(pre + (word + tail)); }
  }

  lemma SegmentsAreCuts(query: string)
    ensures Segments(query) == Cuts(Outside, false, query)
  {
  }

  /** PASSWORD or OLD_PASSWORD, in any case, with any separators before a literal: whatever
      precedes the word, the literal is redacted and scanning resumes behind it. */
  lemma PasswordClause(pre: string, word: string, seps: string, h: Segment, post: string)
    requires Upper(word) == "PASSWORD" || Upper(word) == "OLD_PASSWORD"
    requires (forall c <- seps :: IsSeparator(c)) && Literal(h, post)
    requires Opens(pre, word, seps + (h.Raw() + post))
    ensures var query := pre + (word + (seps + (h.Raw() + post)));
            && Redacts(query, pre + word + seps, h, post)
            && Masked(query) == (pre + word + seps) + (h.Redacted() + Render(Cuts(Outside, h.Hex?, post)))
  {
    hide Cuts, Cut, Literal, Opens, Segments, FromLiteral, Masked;
    var tail := seps + (h.Raw() + post);
    var query := pre + (word + tail);
    PasswordWord(pre, word, tail);
    ValueIsRead(true, seps, h, post);
    CutJoins(Segments(query), pre + word, Cuts(AtValue, true, tail), seps, FromLiteral(h, post));
    Reassociate(pre, word, seps, h.Raw() + post);
    assert !h.Copied? by { LiteralHead(h, post); }
    RedactsRenders(query, pre + word + seps, h, post);
  }

  /** The converse: when something else than a literal follows the separators, the clause
      ends there and what follows is read as ordinary text. */
  lemma PasswordWithoutLiteral(pre: string, word: string, seps: string, rest: string)
    requires Upper(word) == "PASSWORD" || Upper(word) == "OLD_PASSWORD"
    requires (forall c <- seps :: IsSeparator(c)) && !StartsLiteral(rest) && (rest != [] ==> !IsSeparator(rest[0]))
    requires Opens(pre, word, seps + rest)
    ensures Masked(pre + (word + (seps + rest))) == (pre + word + seps) + Render(Cuts(Outside, EndsInWord(true, seps), rest))
  {
    hide Cuts, Cut, Opens, Segments, Render, StartsLiteral;
    var query := pre + (word + (seps + rest));
    PasswordWord(pre, word, seps + rest);
    NoValueIsRead(true, seps, rest);
    CutJoins(Segments(query), pre + word, Cuts(AtValue, true, seps + rest), seps, Cuts(Outside, EndsInWord(true, seps), rest));
    CutRenders(Segments(query), pre + word + seps, Cuts(Outside, EndsInWord(true, seps), rest));
  }

  /** A byte at which no trigger word can begin. */
  predicate Inert(prev: bool, c: char) { prev || (ToUpper(c) != 'I' && ToUpper(c) != 'O' && ToUpper(c) != 'P') }

  lemma InertIsNoTrigger(prev: bool, s: string)
    requires s != [] && Inert(prev, s[0])
    ensures !Trigger(prev, s)
  {
    assert 8 <= |s| ==> Upper(s[..8])[0] == ToUpper(s[0]);
    assert 10 <= |s| ==> Upper(s[..10])[0] == ToUpper(s[0]);
    assert 12 <= |s| ==> Upper(s[..12])[0] == ToUpper(s[0]);
  }

  predicate AllInert(prev: bool, s: string)
    decreases s
  {
    s == [] || (Inert(prev, s[0]) && AllInert(IsIdent(s[0]), s[1..]))
  }

  lemma {:induction false} InertIsQuiet(prev: bool, pre: string, tail: string)
    requires AllInert(prev, pre)
    ensures Quiet(prev, pre, tail)
    decreases pre
  {
    hide Trigger;
    if pre != [] {
      InertIsNoTrigger(prev, pre + tail);
      InertIsQuiet(IsIdent(pre[0]), pre[1..], tail);
    }
  }

  /** Text without a trigger word comes back unchanged behind a clause that has no literal. */
  lemma NothingIsMasked(pre: string, seps: string, rest: string)
    requires AllInert(false, pre) && !EndsInWord(false, pre)
    requires (forall c <- seps :: IsSeparator(c)) && seps != [] && Quiet(false, rest, "")
    requires !StartsLiteral(rest) && (rest != [] ==> !IsSeparator(rest[0]))
    ensures var query := pre + ("PASSWORD" + (seps + rest)); Masked(query) == query
  {
    hide Cuts, AllInert, Masked, Render, StartsLiteral, Quiet;
    assert Upper("PASSWORD") == "PASSWORD";
    assert seps[0] in seps && seps[|seps| - 1] in seps;
    InertIsQuiet(false, pre, "PASSWORD" + (seps + rest));
    PasswordWithoutLiteral(pre, "PASSWORD", seps, rest);
    QuietText(rest);
    Reassociate(pre, "PASSWORD", seps, rest);
  }

  /** SET PASSWORD FOR u='...' is such a case, whatever the user and the password, as long
      as no trigger word begins in them: the documented form leaves its literal in the log. */
  lemma PasswordForIsNotMasked(account: string)
    requires Quiet(false, "FOR " + account, "")
    ensures var query := "SET " + ("PASSWORD" + (" " + ("FOR " + account))); Masked(query) == query
  {
    hide Masked, AllInert, Quiet;
    assert AllInert(false, "SET ") by { SetIsInert(); }
    NothingIsMasked("SET ", " ", "FOR " + account);
  }

  lemma SetIsInert()
    ensures AllInert(false, "SET ")
  {
  }

  lemma UserIsInert()
    ensures AllInert(false, "FOR u='s'")
  {
  }

  /** One such password. */
  lemma AnUnmaskedPassword()
    ensures var query := "SET " + ("PASSWORD" + (" " + ("FOR " + "u='s'"))); Masked(query) == query
  {
    hide Masked, AllInert;
    UserIsInert();
    InertIsQuiet(false, "FOR u='s'", "");
    assert "FOR " + "u='s'" == "FOR u='s'";
    PasswordForIsNotMasked("u='s'");
  }

  /** So is the documented form X'...' of a hash, whatever its digits. */
  lemma HexStringIsNotMasked(digits: string)
    requires AllHex(digits)
    ensures var query := "SET " + ("PASSWORD" + ("=" + ("X'" + digits + "'"))); Masked(query) == query
  {
    hide Masked, AllInert;
    SetIsInert();
    var hash := "X'" + digits + "'";
    assert forall c <- hash :: c in digits || c == 'X' || c == '\'';
    NoTriggerLetters(false, hash);
    InertIsQuiet(false, hash, "");
    assert hash[0] == 'X';
    NothingIsMasked("SET ", "=", hash);
  }

  lemma {:induction false} NoTriggerLetters(prev: bool, s: string)
    requires forall c <- s :: Inert(false, c)
    ensures AllInert(prev, s)
    decreases s
  {
    if s != [] {
      assert s[0] in s && forall c <- s[1..] :: c in s;
      NoTriggerLetters(IsIdent(s[0]), s[1..]);
    }
  }

  lemma QuietText(s: string)
    requires Quiet(false, s, "")
    ensures Render(Cuts(Outside, false, s)) == s
  {
    hide Cuts, Quiet, Render, Cut, Unparse;
    QuietIsCopied(false, s, "");
    assert s + "" == s;
    CutRenders(Cuts(Outside, false, s), s, Cuts(Outside, EndsInWord(false, s), ""));
    NothingLeft(EndsInWord(false, s));
  }

  lemma NothingLeft(prev: bool)
    ensures forall mode: Mode :: Cuts(mode, prev, []) == []
    ensures Render([]) == []
  {
  }

  lemma OneTrigger(s: string, kw: string)
    requires Kw(false, s, kw) && (kw == "PASSWORD" || kw == "OLD_PASSWORD")
    ensures StepOutside(false, s) == Copy(s, |kw|, AtValue)
  {
    FirstLetter(s, kw, "IDENTIFIED");
    if kw == "PASSWORD" {
      FirstLetter(s, kw, "OLD_PASSWORD");
    }
  }

  lemma FirstLetter(s: string, kw: string, other: string)
    requires Kw(false, s, kw) && kw != [] && other != [] && kw[0] != other[0]
    ensures !Kw(false, s, other)
  {
    assert Upper(s[..|kw|])[0] == ToUpper(s[0]);
    assert |other| <= |s| ==> Upper(s[..|other|])[0] == ToUpper(s[0]);
  }

  // ---- IDENTIFIED ----

  /** IDENTIFIED and any text without connector or literal. */
  lemma IdentifiedGap(pre: string, word: string, gap: string, tail: string)
    requires Upper(word) == "IDENTIFIED" && Gap(true, gap, tail) && Opens(pre, word, gap + tail)
    ensures Cut(Segments(pre + (word + (gap + tail))), pre + word + gap, Cuts(Connecting, EndsInWord(true, gap), tail))
  {
    hide Cuts, Cut, Quiet, Spells, Gap;
    var query := pre + (word + (gap + tail));
    QuietIsCopied(false, pre, word + (gap + tail));
    WordIsKw(false, word, gap + tail, "IDENTIFIED");
    CopyCut(Outside, false, word, gap + tail, Connecting);
    assert Upper(word)[|word| - 1] == ToUpper(word[|word| - 1]);
    GapIsCopied(true, gap, tail);
    SegmentsAreCuts(query);
    CutJoins(Segments(query), pre, Cuts(Outside, false, word + (gap + tail)), word, Cuts(Connecting, true, gap + tail));
    CutJoins(Segments(query), pre + word, Cuts(Connecting, true, gap + tail), gap, Cuts(Connecting, EndsInWord(true, gap), tail));
  }

  predicate IsConnector(word: string) { Upper(word) == "BY" || Upper(word) == "AS" || Upper(word) == "USING" }

  /** A connector that stands alone ends the gap. */
  predicate Connects(gap: string, connector: string, value: string) {
    && IsConnector(connector) && gap != [] && !IsIdent(gap[|gap| - 1]) && Gap(true, gap, connector + value)
    && (value != [] ==> !IsIdent(value[0]))
  }

  lemma IdentifiedWords(pre: string, word: string, gap: string, connector: string, value: string)
    requires Upper(word) == "IDENTIFIED" && Connects(gap, connector, value) && Opens(pre, word, gap + (connector + value))
    ensures Cut(Segments(pre + (word + (gap + (connector + value)))), pre + word + gap + connector, Cuts(Optional, true, value))
  {
    hide Cuts, Cut, Spells, Gap, Opens, Segments;
    var query, tail := pre + (word + (gap + (connector + value))), connector + value;
    IdentifiedGap(pre, word, gap, tail);
    WordIsKw(false, connector, value, Upper(connector));
    ConnectorRead(tail, Upper(connector));
    CopyCut(Connecting, false, connector, value, Optional);
    assert Upper(connector)[|connector| - 1] == ToUpper(connector[|connector| - 1]);
    CutJoins(Segments(query), pre + word + gap, Cuts(Connecting, false, tail), connector, Cuts(Optional, true, value));
  }

  /** Behind the connector: separators, if any, and a literal. A hexadecimal literal needs a
      separator, or it would be part of the connector's word. */
  lemma ValueIsRedacted(seps: string, h: Segment, post: string)
    requires (forall c <- seps :: IsSeparator(c)) && Literal(h, post) && (seps == [] ==> h.Quoted?)
    ensures Cut(Cuts(Optional, true, seps + (h.Raw() + post)), seps, FromLiteral(h, post))
  {
    hide Cuts, Cut, Literal, FromLiteral;
    LiteralIsNoWord(true, seps, h, post);
    GotoCuts(Optional, true, seps + (h.Raw() + post), AtValue);
    ValueIsRead(true, seps, h, post);
  }

  /** The same with the optional PASSWORD keyword in between. */
  lemma PasswordValueIsRedacted(spaces: string, password: string, seps: string, h: Segment, post: string)
    requires spaces != [] && (forall c <- spaces :: IsSpace(c)) && Upper(password) == "PASSWORD"
    requires (forall c <- seps :: IsSeparator(c)) && Literal(h, post) && (seps == [] ==> h.Quoted?)
    ensures Cut(Cuts(Optional, true, (spaces + password) + (seps + (h.Raw() + post))), spaces + password + seps, FromLiteral(h, post))
  {
    hide Cuts, Cut, Literal, FromLiteral;
    var tail := seps + (h.Raw() + post);
    assert tail != [] && !IsIdent(tail[0]) by { ValueHead(seps, h, post); }
    OptionalRead(spaces, password, tail);
    CopyCut(Optional, true, spaces + password, tail, AtValue);
    assert Upper(password)[7] == ToUpper(password[7]);
    ValueIsRead(true, seps, h, post);
    CutJoins(Cuts(Optional, true, (spaces + password) + tail), spaces + password, Cuts(AtValue, true, tail), seps, FromLiteral(h, post));
  }

  lemma ValueHead(seps: string, h: Segment, post: string)
    requires (forall c <- seps :: IsSeparator(c)) && Literal(h, post) && (seps == [] ==> h.Quoted?)
    ensures var s := seps + (h.Raw() + post); s != [] && !IsIdent(s[0])
  {
    hide BodyOk, AllHex;
    assert seps != [] ==> seps[0] in seps;
  }

  /** What a clause leads up to, put together. */
  lemma ClauseRedacts(query: string, lead: string, mid: seq<Segment>, more: string, h: Segment, post: string)
    requires Cut(Segments(query), lead, mid) && Cut(mid, more, FromLiteral(h, post)) && Literal(h, post)
    requires query == lead + (more + (h.Raw() + post))
    ensures Redacts(query, lead + more, h, post)
    ensures Masked(query) == (lead + more) + (h.Redacted() + Render(Cuts(Outside, h.Hex?, post)))
  {
    hide Cuts, Cut, Segments, FromLiteral, Literal, Masked;
    CutJoins(Segments(query), lead, mid, more, FromLiteral(h, post));
    assert !h.Copied? by { LiteralHead(h, post); }
    assert query == (lead + more) + (h.Raw() + post);
    RedactsRenders(query, lead + more, h, post);
  }

  /** IDENTIFIED ... BY '...': the literal is redacted, all else is copied. */
  lemma IdentifiedByClause(pre: string, word: string, gap: string, connector: string, seps: string, h: Segment, post: string)
    requires Upper(word) == "IDENTIFIED" && (forall c <- seps :: IsSeparator(c)) && Literal(h, post) && (seps == [] ==> h.Quoted?)
    requires var value := seps + (h.Raw() + post);
             Connects(gap, connector, value) && Opens(pre, word, gap + (connector + value))
    ensures var query, lead := pre + (word + (gap + (connector + (seps + (h.Raw() + post))))), pre + word + gap + connector + seps;
            && Redacts(query, lead, h, post)
            && Masked(query) == lead + (h.Redacted() + Render(Cuts(Outside, h.Hex?, post)))
  {
    hide Cuts, Cut, Literal, Opens, Connects, Segments, FromLiteral, Masked;
    var value := seps + (h.Raw() + post);
    IdentifiedWords(pre, word, gap, connector, value);
    ValueIsRedacted(seps, h, post);
    FourWords(pre, word, gap, connector, value);
    ClauseRedacts(pre + (word + (gap + (connector + value))), pre + word + gap + connector, Cuts(Optional, true, value), seps, h, post);
  }

  /** IDENTIFIED ... BY PASSWORD '...'. */
  lemma IdentifiedByPasswordClause(pre: string, word: string, gap: string, connector: string, spaces: string, password: string,
                                   seps: string, h: Segment, post: string)
    requires Upper(word) == "IDENTIFIED" && (forall c <- seps :: IsSeparator(c)) && Literal(h, post) && (seps == [] ==> h.Quoted?)
    requires spaces != [] && (forall c <- spaces :: IsSpace(c)) && Upper(password) == "PASSWORD"
    requires var value := (spaces + password) + (seps + (h.Raw() + post));
             Connects(gap, connector, value) && Opens(pre, word, gap + (connector + value))
    ensures var query := pre + (word + (gap + (connector + ((spaces + password) + (seps + (h.Raw() + post))))));
            var lead := pre + word + gap + connector + (spaces + password + seps);
            && Redacts(query, lead, h, post)
            && Masked(query) == lead + (h.Redacted() + Render(Cuts(Outside, h.Hex?, post)))
  {
    hide Cuts, Cut, Literal, Opens, Connects, Segments, FromLiteral, Masked;
    var value := (spaces + password) + (seps + (h.Raw() + post));
    IdentifiedWords(pre, word, gap, connector, value);
    PasswordValueIsRedacted(spaces, password, seps, h, post);
    FourWords(pre, word, gap, connector, value);
    assert value == (spaces + password + seps) + (h.Raw() + post);
    ClauseRedacts(pre + (word + (gap + (connector + value))), pre + word + gap + connector, Cuts(Optional, true, value),
                  spaces + password + seps, h, post);
  }

  lemma FourWords(a: string, b: string, c: string, d: string, e: string)
    ensures a + (b + (c + (d + e))) == (a + b + c + d) + e
  {
  }

  /** IDENTIFIED ... '...' with no connector: the first literal behind it is redacted. */
  lemma IdentifiedLiteralClause(pre: string, word: string, gap: string, h: Segment, post: string)
    requires Upper(word) == "IDENTIFIED" && Literal(h, post)
    requires Gap(true, gap, h.Raw() + post) && Opens(pre, word, gap + (h.Raw() + post))
    ensures var query, lead := pre + (word + (gap + (h.Raw() + post))), pre + word + gap;
            && Redacts(query, lead, h, post)
            && Masked(query) == lead + (h.Redacted() + Render(Cuts(Outside, h.Hex?, post)))
  {
    hide Cuts, Cut, Literal, Opens, Gap, Segments, FromLiteral, Masked;
    var prev, tail := EndsInWord(true, gap), h.Raw() + post;
    IdentifiedGap(pre, word, gap, tail);
    LiteralIsNoConnector(prev, h, post);
    GotoCuts(Connecting, prev, tail, Optional);
    assert [] + tail == tail;
    LiteralIsNoWord(prev, [], h, post);
    GotoCuts(Optional, prev, tail, AtValue);
    ValueIsRead(prev, [], h, post);
    Reassociate(pre, word, gap, tail);
    assert pre + word + gap + [] == pre + word + gap;
    ClauseRedacts(pre + (word + (gap + tail)), pre + word + gap, Cuts(Connecting, prev, tail), [], h, post);
  }

  /** The converses. With neither connector nor literal behind IDENTIFIED, nothing is
      redacted. */
  lemma IdentifiedWithoutValue(pre: string, word: string, gap: string)
    requires Upper(word) == "IDENTIFIED" && Gap(true, gap, []) && Opens(pre, word, gap + [])
    ensures var query := pre + (word + gap); Masked(query) == query && !HasLiteral(Segments(query))
  {
    hide Cuts, Cut, Opens, Gap, Segments, Render, Unparse;
    assert gap + [] == gap;
    IdentifiedGap(pre, word, gap, []);
    NothingLeft(EndsInWord(true, gap));
    CutRenders(Segments(pre + (word + gap)), pre + word + gap, []);
  }

  /** With a connector but no literal behind it, the clause ends there. */
  lemma IdentifiedWithoutLiteral(pre: string, word: string, gap: string, connector: string, seps: string, rest: string)
    requires Upper(word) == "IDENTIFIED" && (forall c <- seps :: IsSeparator(c))
    requires !StartsLiteral(rest) && (rest != [] ==> !IsSeparator(rest[0]))
    requires var value := seps + rest;
             && Connects(gap, connector, value) && Opens(pre, word, gap + (connector + value))
             && !Kw(SpaceLen(value) == 0, value[SpaceLen(value)..], "PASSWORD")
    ensures Masked(pre + (word + (gap + (connector + (seps + rest)))))
            == (pre + word + gap + connector + seps) + Render(Cuts(Outside, EndsInWord(true, seps), rest))
  {
    hide Cuts, Cut, Opens, Connects, Segments, Render, Unparse, StartsLiteral, Kw;
    var value := seps + rest;
    var query := pre + (word + (gap + (connector + value)));
    IdentifiedWords(pre, word, gap, connector, value);
    GotoCuts(Optional, true, value, AtValue);
    NoValueIsRead(true, seps, rest);
    var last := Cuts(Outside, EndsInWord(true, seps), rest);
    CutJoins(Segments(query), pre + word + gap + connector, Cuts(Optional, true, value), seps, last);
    CutRenders(Segments(query), pre + word + gap + connector + seps, last);
  }

  /** Nor with the optional PASSWORD and no literal behind that. */
  lemma IdentifiedPasswordWithoutLiteral(pre: string, word: string, gap: string, connector: string, spaces: string,
                                         password: string, seps: string, rest: string)
    requires Upper(word) == "IDENTIFIED" && (forall c <- seps :: IsSeparator(c))
    requires spaces != [] && (forall c <- spaces :: IsSpace(c)) && Upper(password) == "PASSWORD"
    requires !StartsLiteral(rest) && (rest != [] ==> !IsSeparator(rest[0])) && (seps + rest != [] ==> !IsIdent((seps + rest)[0]))
    requires var value := (spaces + password) + (seps + rest);
             Connects(gap, connector, value) && Opens(pre, word, gap + (connector + value))
    ensures Masked(pre + (word + (gap + (connector + ((spaces + password) + (seps + rest))))))
            == (pre + word + gap + connector + (spaces + password) + seps) + Render(Cuts(Outside, EndsInWord(true, seps), rest))
  {
    hide Cuts, Cut, Opens, Connects, Segments, Render, Unparse, StartsLiteral;
    var tail := seps + rest;
    var value := (spaces + password) + tail;
    var query := pre + (word + (gap + (connector + value)));
    IdentifiedWords(pre, word, gap, connector, value);
    OptionalRead(spaces, password, tail);
    CopyCut(Optional, true, spaces + password, tail, AtValue);
    assert Upper(password)[7] == ToUpper(password[7]);
    NoValueIsRead(true, seps, rest);
    var last := Cuts(Outside, EndsInWord(true, seps), rest);
    var lead := pre + word + gap + connector;
    CutJoins(Segments(query), lead, Cuts(Optional, true, value), spaces + password, Cuts(AtValue, true, tail));
    CutJoins(Segments(query), lead + (spaces + password), Cuts(AtValue, true, tail), seps, last);
    CutRenders(Segments(query), lead + (spaces + password) + seps, last);
  }

  lemma OptionalRead(spaces: string, password: string, rest: string)
    requires spaces != [] && (forall c <- spaces :: IsSpace(c)) && Upper(password) == "PASSWORD"
    requires rest != [] ==> !IsIdent(rest[0])
    ensures var s := (spaces + password) + rest; StepOptional(true, s) == Copy(s, |spaces + password|, AtValue)
  {
    hide Spells, SpaceLen;
    var s := (spaces + password) + rest;
    assert forall i :: 0 <= i < |spaces| ==> s[i] in spaces;
    assert Upper(password)[0] == ToUpper(password[0]) && s[|spaces|] == password[0];
    SpaceLenUnique(s, |spaces|);
    assert s[|spaces|..] == password + rest;
    WordIsKw(false, password, rest, "PASSWORD");
  }

  lemma ConnectorRead(s: string, kw: string)
    requires Kw(false, s, kw) && (kw == "BY" || kw == "AS" || kw == "USING")
    ensures StepConnecting(false, s) == Copy(s, |kw|, Optional)
  {
    if kw == "USING" {
      FirstLetter(s, kw, "BY");
      FirstLetter(s, kw, "AS");
    }
  }

  /** Behind separators, the first byte of a literal is not the P of PASSWORD. */
  lemma LiteralIsNoWord(prev: bool, seps: string, h: Segment, post: string)
    requires Literal(h, post) && forall c <- seps :: IsSeparator(c)
    ensures StepOptional(prev, seps + (h.Raw() + post)) == Goto(State(AtValue, prev))
  {
    hide BodyOk, AllHex, SpaceLen, Literal;
    var s := seps + (h.Raw() + post);
    var j := SpaceLen(s);
    assert h.Raw() != [] && (h.Raw()[0] == '0' || IsQuote(h.Raw()[0])) by { LiteralHead(h, post); }
    assert j < |s| && !IsUpper(ToUpper(s[j])) by {
      assert forall i :: 0 <= i < |seps| ==> s[i] in seps;
      assert s[|seps|] == h.Raw()[0];
    }
    assert s[j..][0] == s[j];
    NotPassword(prev && j == 0, s[j..]);
  }

  /** Nor the first letter of a connector. */
  lemma LiteralIsNoConnector(prev: bool, h: Segment, post: string)
    requires Literal(h, post)
    ensures StepConnecting(prev, h.Raw() + post) == Goto(State(Optional, prev))
  {
    hide BodyOk, AllHex;
    var s := h.Raw() + post;
    assert s[0] == h.Raw()[0];
    assert 2 <= |s| ==> Upper(s[..2])[0] == ToUpper(s[0]);
    assert 5 <= |s| ==> Upper(s[..5])[0] == ToUpper(s[0]);
  }

  lemma NotPassword(prev: bool, s: string)
    requires s != [] && ToUpper(s[0]) != 'P'
    ensures !Kw(prev, s, "PASSWORD")
  {
    assert 8 <= |s| ==> Upper(s[..8])[0] == ToUpper(s[0]);
  }

  lemma LiteralHead(h: Segment, post: string)
    requires Literal(h, post)
    ensures !h.Copied? && h.Raw() != [] && (h.Raw()[0] == '0' || IsQuote(h.Raw()[0]))
  {
  }
}

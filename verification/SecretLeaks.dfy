/** Inputs on which the secret does reach the log: exactly those that are not discreet, and a
family for each way. */
module SecretLeaks {
  import opened Bytes
  import opened Commands
  import opened Masker
  import opened MaskerTheorems
  import opened MaskerClauses
  import opened Statement
  import opened SchemaTracking
  import opened Leads
  import opened Secrets

  /** The same query with other bodies in its literals, which the masker redacts all the same. */
  ghost predicate Swapped(query: string, other: string) {
    exists hs :: AllAlike(Segments(query), hs) && Unparse(hs) == other
  }

  lemma {:induction false} LeadSplits(gs: seq<Segment>) returns (a: seq<Segment>)
    ensures gs == a + FromFirst(gs) && Unparse(a) == Lead(gs)
  {
    if gs == [] || !gs[0].Copied? {
      a := [];
    } else {
      var b := LeadSplits(gs[1..]);
      a := [gs[0]] + b;
      ConsSegment(gs[0], b);
    }
  }

  /** The text behind the first literal. */
  function Tail(query: string): string
    requires FromFirst(Segments(query)) != []
  {
    Unparse(FromFirst(Segments(query))[1..])
  }

  lemma SwapFirst(query: string, other: Segment)
    requires FromFirst(Segments(query)) != [] && Alike(FromFirst(Segments(query))[0], other)
    ensures Swapped(query, Lead(Segments(query)) + (other.Raw() + Tail(query)))
  {
    hide Segments, Unparse, Alike, AllAlike, Lead, FromFirst;
    var gs := Segments(query);
    var a := LeadSplits(gs);
    var h, rest := FromFirst(gs)[0], FromFirst(gs)[1..];
    assert FromFirst(gs) == [h] + rest;
    var hs := a + ([other] + rest);
    MaskingSplitsTheQuery(query);
    AlikeSwap(a, h, other, rest);
    UnparseConcat(a, [other] + rest);
    ConsSegment(other, rest);
    assert Unparse(hs) == Lead(gs) + (other.Raw() + Unparse(rest));
  }

  lemma AlikeSwap(a: seq<Segment>, h: Segment, other: Segment, rest: seq<Segment>)
    requires Alike(h, other) && forall g <- a + ([h] + rest) :: g.WellFormed()
    ensures AllAlike(a + ([h] + rest), a + ([other] + rest))
  {
    hide Alike, Segment.WellFormed;
    var gs, hs := a + ([h] + rest), a + ([other] + rest);
    AlikeItself();
    forall k | 0 <= k < |gs| ensures Alike(gs[k], hs[k]) {
      assert gs[k] in gs;
      assert k == |a| || hs[k] == gs[k];
    }
  }

  lemma AlikeItself()
    ensures forall g: Segment :: g.WellFormed() ==> Alike(g, g)
  {
  }

  predicate Plain(s: string, quote: char) { quote !in s && '\\' !in s }

  lemma {:induction false} PlainBody(s: string, quote: char, closed: bool)
    requires Plain(s, quote) && IsQuote(quote)
    ensures BodyOk(s, quote, closed)
  {
    if s != [] {
      assert s[0] in s && forall c <- s[1..] :: c in s;
      PlainBody(s[1..], quote, closed);
    }
  }

  predicate QuotedFirst(query: string) {
    var gs := FromFirst(Segments(query)); gs != [] && gs[0].Quoted?
  }

  /** What follows the lead when the first literal gets the body `secret`. */
  ghost function WithSecret(query: string, secret: string): string
    requires QuotedFirst(query)
  {
    var h := FromFirst(Segments(query))[0];
    [h.quote] + (secret + ((if h.closed then [h.quote] else []) + Tail(query)))
  }

  lemma SwapSecret(query: string, secret: string)
    requires QuotedFirst(query) && Plain(secret, FromFirst(Segments(query))[0].quote)
    ensures IsQuote(FromFirst(Segments(query))[0].quote)
    ensures Swapped(query, Lead(Segments(query)) + WithSecret(query, secret))
  {
    hide Segments, FromFirst, Lead, Swapped, Tail, BodyOk, WithSecret;
    FirstQuote(query);
    var h := FromFirst(Segments(query))[0];
    PlainBody(secret, h.quote, h.closed);
    SwapFirst(query, Quoted(h.quote, secret, h.closed));
    SecretRaw(query, secret);
  }

  lemma FirstQuote(query: string)
    requires QuotedFirst(query)
    ensures IsQuote(FromFirst(Segments(query))[0].quote)
  {
    hide Segments, FromFirst, BodyOk, Unparse, Render, HasLiteral;
    MaskingSplitsTheQuery(query);
    FirstIsWellFormed(Segments(query));
  }

  lemma SecretRaw(query: string, secret: string)
    requires QuotedFirst(query)
    ensures var h := FromFirst(Segments(query))[0];
            Quoted(h.quote, secret, h.closed).Raw() + Tail(query) == WithSecret(query, secret)
  {
    hide Segments, FromFirst, Tail;
  }

  lemma {:induction false} FirstIsWellFormed(gs: seq<Segment>)
    requires forall g <- gs :: g.WellFormed()
    ensures FromFirst(gs) != [] ==> FromFirst(gs)[0].WellFormed()
  {
    hide Segment.WellFormed;
    if gs != [] {
      assert gs[0] in gs && forall g <- gs[1..] :: g in gs;
      FirstIsWellFormed(gs[1..]);
    }
  }

  // ---- the command ----

  /** The comment that is open at the end of `p`, closed behind a quote. */
  lemma OpenItem(p: string, quote: char) returns (item: Trivia, close: string)
    requires !NoItem(p) && !ItemEnds(p, false) && IsQuote(quote)
    ensures item.Valid() && item.Text() == p + ([quote] + close) && Plain(close, quote)
  {
    hide IndexOf, DigitsLen, CloseAt;
    if StartsComment(p) {
      item, close := Block(p[2..] + [quote]), "*/";
      NeverCloses(p[2..]);
      assert p == "/*" + p[2..];
      assert |p| > 2 ==> p[2..][0] == p[2];
      assert |p| > 3 ==> p[2..][1] == p[3];
    } else {
      assert TriviaLen(p) == IndexOf(p, '\n') == |p| && p[..|p|] == p;
      close := "\n";
      if p[0] == '#' {
        item := Hash(p[1..] + [quote]);
        assert p == "#" + p[1..] && forall c <- p[1..] :: c in p;
      } else {
        item := Dashes(p[2..] + [quote]);
        assert p == "--" + p[2..] && forall c <- p[2..] :: c in p;
        assert |p| > 2 by { assert |p| == 2 ==> p == "--"; }
      }
    }
  }

  /** A comment that is open at the end of `p` can be closed behind a quote, and the next
      word spelled. */
  lemma {:induction false} OpenCommentTakesAnything(p: string, quote: char, s: string) returns (close: string)
    requires !Over(p, false) && IsQuote(quote) && s != [] && IsIdent(s[0])
    ensures Plain(close, quote) && Skip(p + ([quote] + (close + s))) == s
    decreases |p|
  {
    hide TriviaLen, ItemEnds, Skip, Trivia.Text, Trivia.Valid;
    if ItemEnds(p, false) {
      var n := TriviaLen(p);
      close := OpenCommentTakesAnything(p[n..], quote, s);
      var r := [quote] + (close + s);
      ItemBefore(p, false, r);
      SkipOnce(p + r, n);
      assert (p + r)[n..] == p[n..] + r;
    } else {
      var item;
      item, close := OpenItem(p, quote);
      assert p + ([quote] + (close + s)) == (p + ([quote] + close)) + s;
      SkipItem(item, s);
      WordIsNoTrivia(s);
    }
  }

  lemma WordIsNoTrivia(s: string)
    requires s != [] && IsIdent(s[0])
    ensures Skip(s) == s
  {
    SkipDone(s);
  }

  predicate IsCommandName(name: string) {
    0 < |name| <= 16 && (forall c <- name :: IsIdent(c)) && Upper(name) != "START"
  }

  lemma {:induction false} WordIsUpper(w: string, limit: nat)
    requires (forall c <- w :: IsIdent(c)) && |w| <= limit
    ensures Word(w, limit) == Upper(w)
  {
    if w != [] {
      assert w[0] in w && forall c <- w[1..] :: c in w;
      WordIsUpper(w[1..], limit - 1);
      assert Upper(w) == [ToUpper(w[0])] + Upper(w[1..]);
    }
  }

  /** A word in front of a byte that ends it is the command. */
  lemma WordIsTheCommand(query: string, w: string, x: string)
    requires Skip(query) == w + x && IsCommandName(w) && (x != [] ==> !IsIdent(x[0]))
    ensures CommandWord(query) == Upper(w)
  {
    hide Word, Letters, Skip, SkipBlanks, Upper;
    WordBefore(w, x, 16);
    WordIsUpper(w, 16);
  }

  /** A quoted literal inside a comment that is not over: its body can end the comment and
      spell the command, any command at all. */
  lemma CommentedSecretIsTheCommand(query: string, name: string)
    requires QuotedFirst(query) && !Over(Lead(Segments(query)), false) && IsCommandName(name)
    ensures exists other :: Swapped(query, other) && CommandWord(other) == Upper(name)
  {
    hide Segments, Lead, FromFirst, Over, Swapped, CommandWord, Upper, WithSecret, Skip, IsCommandName;
    SwapSecret(query, "");
    assert name != [] && name[0] in name && IsIdent(name[0]) && Plain(name, FromFirst(Segments(query))[0].quote) by {
      NameIsPlain(name, FromFirst(Segments(query))[0].quote);
    }
    var lead, quote := Lead(Segments(query)), FromFirst(Segments(query))[0].quote;
    var x := " " + SecretTail(query);
    var close := OpenCommentTakesAnything(lead, quote, name + x);
    var secret := close + name + " ";
    SwapSecret(query, secret);
    var other := lead + WithSecret(query, secret);
    SecretText(query, close, name);
    WordIsTheCommand(other, name, x);
  }

  lemma NameIsPlain(name: string, quote: char)
    requires IsCommandName(name) && IsQuote(quote)
    ensures name != [] && name[0] in name && IsIdent(name[0]) && Plain(name, quote)
  {
  }

  ghost function SecretTail(query: string): string
    requires QuotedFirst(query)
  {
    var h := FromFirst(Segments(query))[0];
    (if h.closed then [h.quote] else []) + Tail(query)
  }

  lemma SecretText(query: string, close: string, name: string)
    requires QuotedFirst(query)
    ensures WithSecret(query, close + name + " ")
            == [FromFirst(Segments(query))[0].quote] + (close + (name + (" " + SecretTail(query))))
  {
    hide Segments, FromFirst, Tail;
  }

  /** A hexadecimal literal glued to the first word: its digits are in the command. */
  lemma GluedSecretIsInTheCommand(query: string, digits: string)
    requires HexFirst(Segments(query)) && Over(Lead(Segments(query)), true) && AllHex(digits)
    requires var w := Remainder(Lead(Segments(query)));
             (forall c <- w :: IsIdent(c)) && |w| + 2 + |digits| <= 16
    requires Tail(query) != [] ==> !IsIdent(Tail(query)[0])
    ensures exists other, mark ::
              Swapped(query, other) && CommandWord(other) == Upper(Remainder(Lead(Segments(query))) + (['0', mark] + digits))
  {
    hide Segments, Lead, FromFirst, Over, Remainder, Swapped, CommandWord, Upper, Skip, Tail;
    MaskingSplitsTheQuery(query);
    FirstIsWellFormed(Segments(query));
    var lead, h := Lead(Segments(query)), FromFirst(Segments(query))[0];
    var w, other := Remainder(lead), Hex(h.mark, digits);
    SwapFirst(query, other);
    GluedIsTheCommand(lead, h.mark, digits, Tail(query));
  }

  lemma GluedIsTheCommand(lead: string, mark: char, digits: string, post: string)
    requires Over(lead, true) && (mark == 'x' || mark == 'X') && AllHex(digits) && (post != [] ==> !IsIdent(post[0]))
    requires (forall c <- Remainder(lead) :: IsIdent(c)) && |Remainder(lead)| + 2 + |digits| <= 16
    ensures CommandWord(lead + (Hex(mark, digits).Raw() + post)) == Upper(Remainder(lead) + (['0', mark] + digits))
  {
    hide Over, Remainder, CommandWord, Upper, Skip;
    var w, raw := Remainder(lead), Hex(mark, digits).Raw();
    assert raw == ['0', mark] + digits;
    var word := w + raw;
    SkipBefore(lead, true, raw + post);
    assert w + (raw + post) == word + post;
    assert forall c <- word :: c in w || c == '0' || c == mark || c in digits;
    NotStart(word, |w|);
    WordIsTheCommand(lead + (raw + post), word, post);
  }

  lemma NotStart(word: string, i: nat)
    requires i < |word| && word[i] == '0'
    ensures Upper(word) != "START"
  {
    assert Upper(word)[i] == '0';
    assert forall c <- "START" :: c != '0';
    assert Upper(word)[i] in Upper(word);
  }

  // ---- the schema ----

  /** A USE whose name opens with a backtick in front of the literal. */
  predicate NameOpen(query: string) {
    var lead := Lead(Segments(query));
    var u := Behind(lead);
    KeywordSettled(lead, false) && Keyword(Remainder(lead), 8) == "USE" && u != [] && u[0] == '`' && '`' !in u[1..]
  }

  /** A quoted literal inside a backticked schema name: the name, secret and all, becomes the
      session schema, which the log shows. */
  lemma SchemaHoldsTheSecret(query: string, secret: string)
    requires QuotedFirst(query) && NameOpen(query) && '`' !in secret && Plain(secret, FromFirst(Segments(query))[0].quote)
    ensures exists other :: Swapped(query, other)
                            && SchemaNamed("Query", other)
                               == ClipDb(Behind(Lead(Segments(query)))[1..] + ([FromFirst(Segments(query))[0].quote] + secret))
  {
    hide Segments, Lead, FromFirst, KeywordSettled, Remainder, Swapped, Keyword, Behind, ClipDb, UseTarget, Extract, NameAt, Tail,
         SchemaNamed, PrefixLen;
    var lead, quote := Lead(Segments(query)), FromFirst(Segments(query))[0].quote;
    SwapSecret(query, "");
    SwapSecret(query, secret + "`");
    var r := WithSecret(query, secret + "`");
    assert r[0] == quote;
    KeywordOfQuoted(lead, r, 8);
    LeadIsLong(query);
    TargetOfLead(lead, r);
    var name, more := Behind(lead)[1..] + ([quote] + secret), SecretTail(query);
    assert r == ([quote] + secret) + ("`" + more);
    assert Behind(lead) + r == "`" + (name + ("`" + more));
    TickedName(name, "`" + more);
    SchemaCases("Query", lead + r);
  }

  lemma KeywordOfQuoted(lead: string, r: string, size: nat)
    requires KeywordSettled(lead, false) && LiteralStart(r, false) && size >= 7
    ensures Extract(lead + r, size) == Some(Keyword(Remainder(lead), size))
  {
    hide Keyword, Skip, Over, Remainder, IdentLen;
    SkipBefore(lead, false, r);
    var s := Remainder(lead);
    var w, t := s[..IdentLen(s)], s[IdentLen(s)..];
    assert s == w + t && s + r == w + (t + r);
    KeywordBefore(w, t, r, size);
  }

  lemma TickedName(name: string, rest: string)
    requires '`' !in name && rest != [] && rest[0] == '`'
    ensures NameAt("`" + (name + rest)) == name
  {
    hide IndexOf;
    var u := "`" + (name + rest);
    assert u[1..] == name + rest && (name + rest)[..|name|] == name;
    IndexOfUnique(name + rest, '`', |name|);
  }

  lemma ClipsDiffer(x: string, y: string, i: nat)
    requires i < |x| && i < |y| && !Fills(i) && x[i] != y[i]
    ensures ClipDb(x) != ClipDb(y)
  {
    assert ClipDb(x)[i] == x[i] && ClipDb(y)[i] == y[i];
  }

  // ---- exactly when ----

  /** Any other secrets leave keyword and schema alone. */
  ghost predicate Safe(ev: StatusEvent) { forall other :: Swapped(ev.query, other) ==> Agrees(ev, other) }

  /** The literal of the same form with another body. */
  function WithBody(h: Segment, body: string): Segment
    requires !h.Copied?
  {
    if h.Quoted? then Quoted(h.quote, body, h.closed) else Hex(h.mark, body)
  }

  predicate OneByte(body: string) { body == "A" || body == "B" }

  lemma OneByteBody(h: Segment, body: string, t: string)
    requires !h.Copied? && h.WellFormed() && OneByte(body)
    ensures Alike(h, WithBody(h, body))
    ensures var r, m := WithBody(h, body).Raw() + t, MarkLen(h.Hex?); LiteralStart(r, h.Hex?) && |r| > m && r[m] == body[0]
  {
    assert AllHex(body);
    if h.Quoted? {
      PlainBody(body, h.quote, h.closed);
    }
  }

  /** The same mark and two different bytes behind it. */
  predicate Differ(r: string, r': string, hex: bool) {
    SameStart(r, r', hex) && |r| > MarkLen(hex) && |r'| > MarkLen(hex) && r[MarkLen(hex)] != r'[MarkLen(hex)]
    && IsIdent(r[MarkLen(hex)]) && IsIdent(r'[MarkLen(hex)])
  }

  lemma TwoBodies(h: Segment, t: string)
    requires !h.Copied? && h.WellFormed()
    ensures Alike(h, WithBody(h, "A")) && Alike(h, WithBody(h, "B"))
    ensures Differ(WithBody(h, "A").Raw() + t, WithBody(h, "B").Raw() + t, h.Hex?)
  {
    hide BodyOk, AllHex, Segment.WellFormed, Alike;
    OneByteBody(h, "A", t);
    OneByteBody(h, "B", t);
  }

  // The keyword.

  /** A word at the head of the text is at the head of the command. */
  lemma {:induction false} WordBegins(x: string, y: string, limit: nat)
    requires |x| <= limit && forall c <- x :: IsIdent(c)
    ensures Upper(x) <= Word(x + y, limit)
  {
    if x != [] {
      assert x[0] in x && forall c <- x[1..] :: c in x;
      assert (x + y)[1..] == x[1..] + y && (x + y)[0] == x[0];
      WordBegins(x[1..], y, limit - 1);
      assert Upper(x) == [ToUpper(x[0])] + Upper(x[1..]);
    }
  }

  lemma CommandBegins(query: string, x: string, y: string, i: nat)
    requires Skip(query) == x + y && |x| <= 16 && (forall c <- x :: IsIdent(c))
    requires i < |x| && ToUpper(x[i]) !in "START"
    ensures Upper(x) <= CommandWord(query)
  {
    hide Word, Letters, Skip, SkipBlanks;
    WordBegins(x, y, 16);
    assert Upper(x)[i] == ToUpper(x[i]) && Word(x + y, 16)[i] == Upper(x)[i];
    assert Word(x + y, 16)[i] in Word(x + y, 16);
  }

  /** Two commands that begin with words that differ in their last byte. */
  lemma CommandsDiffer(q: string, q': string, w: string, y: string, y': string, i: nat)
    requires Skip(q) == (w + "A") + y && Skip(q') == (w + "B") + y' && |w| < 16 && (forall c <- w :: IsIdent(c))
    requires i < |w| && ToUpper(w[i]) !in "START"
    ensures CommandWord(q) != CommandWord(q')
  {
    hide Skip, CommandWord;
    CommandBegins(q, w + "A", y, i);
    CommandBegins(q', w + "B", y', i);
    assert Upper(w + "A")[|w|] == 'A' && Upper(w + "B")[|w|] == 'B';
  }

  /** A word glued to a hexadecimal literal, with room for a digit. */
  lemma GluedLeaks(p: string, mark: char, t: string)
    requires Over(p, true) && !KeywordSettled(p, true) && (mark == 'x' || mark == 'X')
    ensures CommandWord(p + (['0', mark] + "A" + t)) != CommandWord(p + (['0', mark] + "B" + t))
  {
    hide Over, Remainder, Skip, CommandWord, IdentLen;
    var w := Remainder(p);
    assert w[..IdentLen(w)] == w;
    var r, r' := ['0', mark] + "A" + t, ['0', mark] + "B" + t;
    SkipBefore(p, true, r);
    SkipBefore(p, true, r');
    var x := w + ['0', mark];
    assert w + r == (x + "A") + t && w + r' == (x + "B") + t;
    assert x[|w|] == '0' && ToUpper('0') == '0';
    assert forall c <- x :: c in w || c == '0' || c == mark;
    CommandsDiffer(p + r, p + r', x, t, t, |w|);
  }

  /** The version digits of an executable comment take the 0 in. */
  lemma {:induction false} VersionTakesTheZero(p: string, r: string)
    requires Over(p, false) && !Over(p, true) && LiteralStart(r, true)
    ensures Skip(p + r) == r[1..]
    decreases |p|
  {
    hide TriviaLen, ItemEnds, Skip;
    if ItemEnds(p, true) {
      var n := TriviaLen(p);
      ItemBefore(p, true, r);
      SkipOnce(p + r, n);
      assert (p + r)[n..] == p[n..] + r;
      assert ItemEnds(p, false) by { EndsForQuotes(p); }
      VersionTakesTheZero(p[n..], r);
    } else {
      VersionLen(p, r);
      SkipOnce(p + r, |p| + 1);
      assert (p + r)[|p| + 1..] == r[1..];
      WordIsNoTrivia(r[1..]);
    }
  }

  lemma EndsForQuotes(p: string)
    requires ItemEnds(p, true)
    ensures ItemEnds(p, false)
  {
    hide TriviaLen;
  }

  lemma VersionLen(p: string, r: string)
    requires !NoItem(p) && ItemEnds(p, false) && !ItemEnds(p, true) && LiteralStart(r, true)
    ensures TriviaLen(p + r) == |p| + 1
  {
    hide CloseAt, DigitsLen;
    var q := p + r;
    assert q[0] == p[0] && q[1] == p[1] && q[2] == p[2];
    if HasAt(p, 2, '!') {
      assert q[3..] == p[3..] + r;
      DigitsTakeOne(p[3..], r);
    } else {
      assert q[3] == p[3] && q[4..] == p[4..] + r;
      DigitsTakeOne(p[4..], r);
    }
  }

  lemma {:induction false} DigitsTakeOne(d: string, r: string)
    requires DigitsLen(d) == |d| && LiteralStart(r, true)
    ensures DigitsLen(d + r) == |d| + 1
  {
    if d == [] {
      assert d + r == r && DigitsLen(r[1..]) == 0;
    } else {
      assert (d + r)[1..] == d[1..] + r;
      DigitsTakeOne(d[1..], r);
    }
  }

  lemma VersionLeaks(p: string, mark: char, t: string)
    requires Over(p, false) && !Over(p, true) && (mark == 'x' || mark == 'X')
    ensures CommandWord(p + (['0', mark] + "A" + t)) != CommandWord(p + (['0', mark] + "B" + t))
  {
    hide Over, Skip, CommandWord;
    var r, r' := ['0', mark] + "A" + t, ['0', mark] + "B" + t;
    VersionTakesTheZero(p, r);
    VersionTakesTheZero(p, r');
    assert r[1..] == ([mark] + "A") + t && r'[1..] == ([mark] + "B") + t;
    assert ToUpper(mark) == 'X';
    CommandsDiffer(p + r, p + r', [mark], t, t, 0);
  }

  lemma CommentLeaks(p: string, quote: char, closing: string, name: string) returns (secret: string)
    requires !Over(p, false) && IsQuote(quote) && IsCommandName(name)
    ensures Plain(secret, quote) && CommandWord(p + ([quote] + (secret + closing))) == Upper(name)
  {
    hide Over, Skip, CommandWord, Upper, IsCommandName;
    NameIsPlain(name, quote);
    var x := " " + closing;
    var close := OpenCommentTakesAnything(p, quote, name + x);
    secret := close + name + " ";
    assert [quote] + (secret + closing) == [quote] + (close + (name + x));
    WordIsTheCommand(p + ([quote] + (secret + closing)), name, x);
  }

  /** A literal at which the keyword is not settled decides it: two bodies give two commands. */
  lemma DecidingLeaks(p: string, h: Segment, t: string) returns (h1: Segment, h2: Segment)
    requires !h.Copied? && h.WellFormed() && !(h.Hex? && !Over(p, false)) && !KeywordSettled(p, h.Hex?)
    ensures Alike(h, h1) && Alike(h, h2) && CommandWord(p + (h1.Raw() + t)) != CommandWord(p + (h2.Raw() + t))
  {
    hide Over, CommandWord, BodyOk, KeywordSettled, Alike;
    if h.Hex? {
      h1, h2 := HexLeaks(p, h, t);
    } else {
      assert !Over(p, false) by { NotSettled(p); }
      h1, h2 := QuotedLeaks(p, h, t);
    }
  }

  lemma NotSettled(p: string)
    requires !KeywordSettled(p, false)
    ensures !Over(p, false)
  {
  }

  lemma HexLeaks(p: string, h: Segment, t: string) returns (h1: Segment, h2: Segment)
    requires h.Hex? && h.WellFormed() && Over(p, false) && !KeywordSettled(p, true)
    ensures Alike(h, h1) && Alike(h, h2) && CommandWord(p + (h1.Raw() + t)) != CommandWord(p + (h2.Raw() + t))
  {
    hide Over, CommandWord, KeywordSettled;
    h1, h2 := Hex(h.mark, "A"), Hex(h.mark, "B");
    assert h1.Raw() + t == ['0', h.mark] + "A" + t && h2.Raw() + t == ['0', h.mark] + "B" + t;
    if Over(p, true) {
      GluedLeaks(p, h.mark, t);
    } else {
      VersionLeaks(p, h.mark, t);
    }
  }

  lemma QuotedLeaks(p: string, h: Segment, t: string) returns (h1: Segment, h2: Segment)
    requires h.Quoted? && h.WellFormed() && !Over(p, false)
    ensures Alike(h, h1) && Alike(h, h2) && CommandWord(p + (h1.Raw() + t)) != CommandWord(p + (h2.Raw() + t))
  {
    hide Over, CommandWord, BodyOk, Upper, IsCommandName, Plain;
    var closing := (if h.closed then [h.quote] else []) + t;
    TwoNames();
    var a := CommentLeaks(p, h.quote, closing, "A");
    var b := CommentLeaks(p, h.quote, closing, "B");
    PlainBody(a, h.quote, h.closed);
    PlainBody(b, h.quote, h.closed);
    h1, h2 := Quoted(h.quote, a, h.closed), Quoted(h.quote, b, h.closed);
    QuotedRaw(h.quote, a, h.closed, t);
    QuotedRaw(h.quote, b, h.closed, t);
  }

  lemma QuotedRaw(quote: char, body: string, closed: bool, t: string)
    ensures Quoted(quote, body, closed).Raw() + t == [quote] + (body + ((if closed then [quote] else []) + t))
  {
  }

  lemma TwoNames()
    ensures IsCommandName("A") && IsCommandName("B") && Upper("A") != Upper("B")
  {
    assert Upper("A")[0] == 'A' && Upper("B")[0] == 'B';
  }

  lemma AlikeHead(g: Segment, h: Segment, gs: seq<Segment>, hs: seq<Segment>)
    requires Alike(g, h) && AllAlike(gs, hs)
    ensures AllAlike([g] + gs, [h] + hs)
  {
    hide Alike;
  }

  /** When the keyword is not safe, two queries alike have two commands. */
  lemma {:induction false} KeywordLeaks(p: string, gs: seq<Segment>) returns (hs: seq<Segment>, hs': seq<Segment>)
    requires !KeywordSafe(p, gs) && forall g <- gs :: g.WellFormed()
    ensures AllAlike(gs, hs) && AllAlike(gs, hs') && CommandWord(p + Unparse(hs)) != CommandWord(p + Unparse(hs'))
    decreases gs
  {
    hide Over, KeywordSettled, CommandWord, Alike, Unparse, Segment.WellFormed, Segment.Raw, AllAlike;
    var g, rest := gs[0], gs[1..];
    assert g in gs && (forall x <- rest :: x in gs) && gs == [g] + rest;
    AlikeItself();
    if g.Copied? || (g.Hex? && !Over(p, false)) {
      var t, t' := KeywordLeaks(p + g.Raw(), rest);
      hs, hs' := [g] + t, [g] + t';
      AlikeHead(g, g, rest, t);
      AlikeHead(g, g, rest, t');
      ConsSegment(g, t);
      ConsSegment(g, t');
      Concat3(p, g.Raw(), Unparse(t));
      Concat3(p, g.Raw(), Unparse(t'));
    } else {
      var h, h' := DecidingLeaks(p, g, Unparse(rest));
      hs, hs' := [h] + rest, [h'] + rest;
      AllAlikeItself(rest);
      AlikeHead(g, h, rest, rest);
      AlikeHead(g, h', rest, rest);
      ConsSegment(h, rest);
      ConsSegment(h', rest);
    }
  }

  lemma AllAlikeItself(gs: seq<Segment>)
    requires forall g <- gs :: g.WellFormed()
    ensures AllAlike(gs, gs)
  {
    hide Alike, Segment.WellFormed;
    AlikeItself();
  }

  lemma SafeMeansKeywordSafe(ev: StatusEvent)
    requires Safe(ev) && IsQuery(ev.kind)
    ensures KeywordSafe([], Segments(ev.query))
  {
    hide Segments, KeywordSafe, CommandWord, SchemaNamed, Unparse, AllAlike, Render, HasLiteral;
    MaskingSplitsTheQuery(ev.query);
    if !KeywordSafe([], Segments(ev.query)) {
      var hs, hs' := KeywordLeaks([], Segments(ev.query));
      SafeAt(ev, hs);
      SafeAt(ev, hs');
    }
  }

  lemma SafeAt(ev: StatusEvent, hs: seq<Segment>)
    requires Safe(ev) && IsQuery(ev.kind) && AllAlike(Segments(ev.query), hs)
    ensures CommandWord([] + Unparse(hs)) == CommandWord(ev.query)
  {
    hide Segments, CommandWord, SchemaNamed, Unparse, AllAlike;
    assert Swapped(ev.query, Unparse(hs));
    assert [] + Unparse(hs) == Unparse(hs);
  }

  // The schema.

  lemma NameLeaks(u: string, hex: bool, r: string, r': string)
    requires !NameEnds(u, hex) && Differ(r, r', hex)
    ensures ClipDb(NameAt(u + r)) != ClipDb(NameAt(u + r'))
  {
    hide NameLen, IndexOf, ClipDb, Fills;
    var m := MarkLen(hex);
    if u != [] && u[0] == '`' {
      OpenNameTakes(u, hex, r);
      OpenNameTakes(u, hex, r');
      ClipsDiffer(NameAt(u + r), NameAt(u + r'), |u| - 1 + m);
    } else {
      GluedNameTakes(u, r);
      GluedNameTakes(u, r');
      ClipsDiffer(NameAt(u + r), NameAt(u + r'), |u| + m);
    }
  }

  lemma OpenNameTakes(u: string, hex: bool, r: string)
    requires u != [] && u[0] == '`' && '`' !in u[1..] && LiteralStart(r, hex) && |r| > MarkLen(hex) && IsIdent(r[MarkLen(hex)])
    ensures var n := |u| - 1 + MarkLen(hex); |NameAt(u + r)| > n && NameAt(u + r)[n] == r[MarkLen(hex)]
  {
    hide IndexOf;
    var s, m := u[1..] + r, MarkLen(hex);
    var k := IndexOf(s, '`');
    assert (u + r)[1..] == s;
    assert k > |u| - 1 + m by {
      assert forall i :: 0 <= i < |u| - 1 ==> s[i] == u[1..][i];
      assert s[|u| - 1] == r[0] && s[|u| - 1 + m] == r[m] && (hex ==> s[|u|] == r[1]);
    }
    assert s[..k][|u| - 1 + m] == r[m];
  }

  lemma GluedNameTakes(u: string, r: string)
    requires (u == [] || u[0] != '`') && LiteralStart(r, true) && NameLen(u) == |u| && |r| > 2 && IsIdent(r[2])
    ensures |NameAt(u + r)| > |u| + 2 && NameAt(u + r)[|u| + 2] == r[2]
  {
    hide NameLen;
    NameLenThrough(u, r);
    assert (u + r)[0] == if u == [] then r[0] else u[0];
    assert NameLen(r) > 2 by { ThreeNameBytes(r); }
    assert (u + r)[..NameLen(u + r)][|u| + 2] == r[2];
  }

  lemma ThreeNameBytes(r: string)
    requires LiteralStart(r, true) && |r| > 2 && IsIdent(r[2])
    ensures NameLen(r) > 2
  {
    TwoNameBytes(r);
    assert r[2..][0] == r[2];
  }

  /** Two bodies in the first literal. */
  lemma TwoQueries(query: string) returns (r: string, r': string)
    requires FromFirst(Segments(query)) != []
    ensures Differ(r, r', HexFirst(Segments(query)))
    ensures Swapped(query, Lead(Segments(query)) + r) && Swapped(query, Lead(Segments(query)) + r')
  {
    hide Segments, Lead, FromFirst, Swapped, Tail, Differ, Alike, Segment.WellFormed, Segment.Raw, Unparse, Render, HasLiteral;
    MaskingSplitsTheQuery(query);
    FirstIsWellFormed(Segments(query));
    var h := FromFirst(Segments(query))[0];
    assert !h.Copied? by { FirstIsLiteral(Segments(query)); }
    TwoBodies(h, Tail(query));
    SwapFirst(query, WithBody(h, "A"));
    SwapFirst(query, WithBody(h, "B"));
    r, r' := WithBody(h, "A").Raw() + Tail(query), WithBody(h, "B").Raw() + Tail(query);
  }

  lemma {:induction false} FirstIsLiteral(gs: seq<Segment>)
    ensures FromFirst(gs) != [] ==> !FromFirst(gs)[0].Copied?
  {
    if gs != [] && gs[0].Copied? {
      FirstIsLiteral(gs[1..]);
    }
  }

  lemma SafeMeansNamed(ev: StatusEvent)
    requires Safe(ev) && FromFirst(Segments(ev.query)) != [] && ev.kind == "Query" && Extract(ev.query, 8) == Some("USE")
    ensures NameEnds(Behind(Lead(Segments(ev.query))), HexFirst(Segments(ev.query)))
  {
    hide Segments, Lead, FromFirst, Swapped, SchemaNamed, CommandWord, Behind, NameEnds, ClipDb, UseTarget, NameAt, Extract,
         KeywordSafe, Differ, PrefixLen;
    SafeMeansKeywordSafe(ev);
    var lead, hex := Lead(Segments(ev.query)), HexFirst(Segments(ev.query));
    LeadIsLong(ev.query);
    var r, r' := TwoQueries(ev.query);
    assert r != [] && r' != [] && !IsPrefixByte(r[0]) && !IsPrefixByte(r'[0]) by { DifferStarts(r, r', hex); }
    SwappedKeyword(ev.query, lead + r);
    SwappedKeyword(ev.query, lead + r');
    SchemaCases("Query", lead + r);
    SchemaCases("Query", lead + r');
    TargetOfLead(lead, r);
    TargetOfLead(lead, r');
    if !NameEnds(Behind(lead), hex) {
      NameLeaks(Behind(lead), hex, r, r');
    }
  }

  lemma DifferStarts(r: string, r': string, hex: bool)
    requires Differ(r, r', hex)
    ensures r != [] && r' != [] && !IsPrefixByte(r[0]) && !IsPrefixByte(r'[0])
  {
  }

  lemma SwappedKeyword(query: string, other: string)
    requires KeywordSafe([], Segments(query)) && Swapped(query, other)
    ensures Extract(other, 8) == Extract(query, 8)
  {
    hide Segments, KeywordSafe, Extract, Unparse, AllAlike;
    var hs :| AllAlike(Segments(query), hs) && Unparse(hs) == other;
    KeywordsAgree(query, hs, 8);
  }

  lemma SafeMeansLong(ev: StatusEvent)
    requires Safe(ev) && FromFirst(Segments(ev.query)) != [] && ev.kind == "Init DB"
    ensures Fills(|Lead(Segments(ev.query))| + MarkLen(HexFirst(Segments(ev.query))))
  {
    hide Segments, Lead, FromFirst, Swapped, SchemaNamed, CommandWord, ClipDb, Fills;
    var lead, hex := Lead(Segments(ev.query)), HexFirst(Segments(ev.query));
    var r, r' := TwoQueries(ev.query);
    SchemaCases("Init DB", lead + r);
    SchemaCases("Init DB", lead + r');
    if !Fills(|lead| + MarkLen(hex)) {
      ClipsDiffer(lead + r, lead + r', |lead| + MarkLen(hex));
    }
  }

  /** Keyword and schema are the same with every other secret exactly when the event is
      discreet. */
  lemma SecretsAreSafeExactlyWhen(ev: StatusEvent)
    ensures Safe(ev) <==> Discreet(ev)
  {
    hide Segments, Lead, FromFirst, Swapped, SchemaNamed, CommandWord, KeywordSafe, NameEnds, Behind, Fills, Extract;
    if Discreet(ev) {
      forall other | Swapped(ev.query, other) ensures Agrees(ev, other) {
        SwappedAgrees(ev, other);
      }
    }
    if Safe(ev) {
      if IsQuery(ev.kind) {
        SafeMeansKeywordSafe(ev);
      }
      if FromFirst(Segments(ev.query)) != [] {
        if ev.kind == "Query" && Extract(ev.query, 8) == Some("USE") {
          SafeMeansNamed(ev);
        }
        if ev.kind == "Init DB" {
          SafeMeansLong(ev);
        }
      }
    }
  }

  lemma SwappedAgrees(ev: StatusEvent, other: string)
    requires Discreet(ev) && Swapped(ev.query, other)
    ensures Agrees(ev, other)
  {
    hide Discreet, Agrees, Segments, Unparse, AllAlike;
    var hs :| AllAlike(Segments(ev.query), hs) && Unparse(hs) == other;
    AlikeQueriesAgree(ev, hs);
  }

  // ---- one of each ----

  /** What a clause leads up to is the lead. */
  lemma {:induction false} LeadOfCopies(a: seq<Segment>, rest: seq<Segment>)
    requires AllCopied(a) && (rest != [] ==> !rest[0].Copied?)
    ensures Lead(a + rest) == Unparse(a) && FromFirst(a + rest) == rest
  {
    if a == [] {
      assert a + rest == rest;
    } else {
      assert a[0] in a && forall g <- a[1..] :: g in a;
      assert (a + rest)[1..] == a[1..] + rest;
      LeadOfCopies(a[1..], rest);
    }
  }

  lemma RedactsLead(query: string, lead: string, h: Segment, post: string)
    requires Redacts(query, lead, h, post) && !h.Copied?
    ensures Lead(Segments(query)) == lead && FromFirst(Segments(query)) == FromLiteral(h, post)
    ensures HasLiteral(Segments(query))
  {
    hide Segments, Cuts;
    var a :| Segments(query) == a + FromLiteral(h, post) && AllCopied(a) && Unparse(a) == lead;
    LeadOfCopies(a, FromLiteral(h, post));
    assert h in Segments(query);
  }

  /** The masker redacts a quoted password behind any text without a trigger word. */
  lemma PasswordIsRedacted(pre: string, seps: string, secret: string, post: string)
    requires AllInert(false, pre) && !EndsInWord(false, pre) && (forall c <- seps :: IsSeparator(c)) && Plain(secret, '\'')
    ensures var h := Quoted('\'', secret, true);
            Redacts(pre + ("PASSWORD" + (seps + (h.Raw() + post))), pre + "PASSWORD" + seps, h, post)
  {
    hide Redacts, AllInert, BodyOk, Masked;
    assert Upper("PASSWORD") == "PASSWORD";
    PlainBody(secret, '\'', true);
    var h := Quoted('\'', secret, true);
    var tail := seps + (h.Raw() + post);
    assert tail[0] == if seps == [] then '\'' else seps[0];
    assert seps != [] ==> seps[0] in seps;
    InertIsQuiet(false, pre, "PASSWORD" + tail);
    PasswordClause(pre, "PASSWORD", seps, h, post);
  }

  /** A password inside a comment: the log's command can be made DROP, or any other. */
  lemma ACommentedPassword(post: string, name: string)
    requires IsCommandName(name)
    ensures var query := "/*" + ("PASSWORD" + (" " + (Quoted('\'', "x", true).Raw() + post)));
            exists other :: Swapped(query, other) && CommandWord(other) == Upper(name)
  {
    hide Swapped, CommandWord, Redacts, AllInert, Upper, Segment.Raw, IsCommandName, Over, Segments, FromFirst, Lead;
    CommentIsInert();
    PasswordIsRedacted("/*", " ", "x", post);
    var query := "/*" + ("PASSWORD" + (" " + (Quoted('\'', "x", true).Raw() + post)));
    RedactsLead(query, "/*" + "PASSWORD" + " ", Quoted('\'', "x", true), post);
    OpenPassword();
    CommentedSecretIsTheCommand(query, name);
  }

  lemma OpenPassword()
    ensures !Over("/*" + "PASSWORD" + " ", false)
  {
    hide CloseAt;
    var p := "/*" + "PASSWORD" + " ";
    assert p[0] == '/' && p[1] == '*' && p[2] == 'P';
    NoStar(p[2..]);
  }

  lemma {:induction false} NoStar(s: string)
    requires '*' !in s
    ensures CloseAt(s) == |s|
  {
    if |s| >= 2 {
      assert s[0] in s && forall c <- s[1..] :: c in s;
      NoStar(s[1..]);
    }
  }

  lemma CommentIsInert()
    ensures AllInert(false, "/*") && AllInert(false, "USE `")
  {
  }

  lemma GluedHashIsRedacted(digits: string)
    requires AllHex(digits)
    ensures var h := Hex('x', digits);
            Redacts("/*" + ("IDENTIFIED" + ("*/D" + (h.Raw() + []))), "/*" + "IDENTIFIED" + "*/D", h, [])
  {
    hide Redacts, Masked, AllInert, Upper, Gap;
    var h := Hex('x', digits);
    IdentifiedIsUpper();
    CommentIsInert();
    InertIsQuiet(false, "/*", "IDENTIFIED" + ("*/D" + (h.Raw() + [])));
    GapIsFree(h.Raw() + []);
    IdentifiedLiteralClause("/*", "IDENTIFIED", "*/D", h, []);
  }

  /** A hash behind a commented IDENTIFIED: its digits are in the command. */
  lemma AGluedHash(digits: string)
    requires AllHex(digits) && |digits| <= 13
    ensures var query := "/*" + ("IDENTIFIED" + ("*/D" + (Hex('x', digits).Raw() + [])));
            HasLiteral(Segments(query)) && CommandWord(query) == Upper("D" + Hex('x', digits).Raw())
  {
    hide Redacts, Masked, CommandWord, Segments, HasLiteral, Upper;
    var h := Hex('x', digits);
    var query := "/*" + ("IDENTIFIED" + ("*/D" + (h.Raw() + [])));
    GluedHashIsRedacted(digits);
    RedactsRenders(query, "/*" + "IDENTIFIED" + "*/D", h, []);
    GluedHashIsTheCommand(digits);
  }

  lemma GluedHashIsTheCommand(digits: string)
    requires AllHex(digits) && |digits| <= 13
    ensures var h := Hex('x', digits);
            CommandWord("/*" + ("IDENTIFIED" + ("*/D" + (h.Raw() + [])))) == Upper("D" + h.Raw())
  {
    hide CommandWord, Upper, Skip, Trivia.Valid;
    var h := Hex('x', digits);
    var word := "D" + h.Raw();
    var item := Block("IDENTIFIED");
    ItemIsValid();
    var query := "/*" + ("IDENTIFIED" + ("*/D" + (h.Raw() + [])));
    assert query == item.Text() + word;
    SkipItem(item, word);
    WordIsNoTrivia(word);
    assert word == word + [];
    assert forall c <- word :: c == 'D' || c == '0' || c == 'x' || c in digits;
    assert word[1] == '0';
    NotStart(word, 1);
    WordIsTheCommand(query, word, []);
  }

  lemma ItemIsValid()
    ensures Block("IDENTIFIED").Valid()
  {
  }

  lemma IdentifiedIsUpper()
    ensures Upper("IDENTIFIED") == "IDENTIFIED"
  {
  }

  lemma GapIsFree(tail: string)
    ensures Gap(true, "*/D", tail)
  {
    assert "*/D"[1..] == "/D" && "/D"[1..] == "D" && "D"[1..] == "";
    NoConnector(true, "*/D" + tail);
    NoConnector(false, "/D" + tail);
    NoConnector(false, "D" + tail);
  }

  lemma NoConnector(prev: bool, s: string)
    requires s != [] && ToUpper(s[0]) != 'B' && ToUpper(s[0]) != 'A' && ToUpper(s[0]) != 'U'
    ensures !ConnectorWord(prev, s)
  {
    assert 2 <= |s| ==> Upper(s[..2])[0] == ToUpper(s[0]);
    assert 5 <= |s| ==> Upper(s[..5])[0] == ToUpper(s[0]);
  }

  /** USE of a backticked name that holds a password: the password is the schema. */
  lemma ABacktickedPassword(secret: string)
    requires Plain(secret, '\'') && '`' !in secret
    ensures var h := Quoted('\'', secret, true);
            var query := "USE `" + ("PASSWORD" + ([] + (h.Raw() + "`")));
            HasLiteral(Segments(query)) && SchemaNamed("Query", query) == ClipDb("PASSWORD" + h.Raw())
  {
    hide Redacts, AllInert, SchemaNamed, ClipDb, Segments, HasLiteral, Masked, Upper;
    CommentIsInert();
    var h := Quoted('\'', secret, true);
    PasswordIsRedacted("USE `", [], secret, "`");
    var query := "USE `" + ("PASSWORD" + ([] + (h.Raw() + "`")));
    RedactsRenders(query, "USE `" + "PASSWORD" + [], h, "`");
    BacktickedName("PASSWORD" + h.Raw());
    Concat3("USE `", "PASSWORD", h.Raw() + "`");
    assert query == "USE `" + (("PASSWORD" + h.Raw()) + "`");
  }

  lemma BacktickedName(name: string)
    requires '`' !in name
    ensures SchemaNamed("Query", "USE `" + (name + "`")) == ClipDb(name)
  {
    hide SchemaNamed, ClipDb;
    assert SpellsUse("USE") by { assert Upper("USE") == "USE"; }
    UseQuotedNameIsTracked("", "USE", " ", name, "`");
    assert "" + ("USE" + (" " + ("`" + (name + "`")))) == "USE `" + (name + "`");
  }

  /** A schema set by protocol is stored as it is: two passwords, both of which the masker
      would redact, give two schemas. */
  lemma AProtocolSchema(x: string, y: string)
    requires Plain(x, '\'') && Plain(y, '\'') && x != y && |x| < 150 && |y| < 150
    ensures var q, q' := "PASSWORD" + Quoted('\'', x, true).Raw(), "PASSWORD" + Quoted('\'', y, true).Raw();
            Swapped(q, q') && SchemaNamed("Init DB", q) != SchemaNamed("Init DB", q')
  {
    hide Redacts, Swapped, SchemaNamed, AllInert, BodyOk, Segment.Raw, ClipDb, Plain;
    var g, h := Quoted('\'', x, true), Quoted('\'', y, true);
    var q, q' := "PASSWORD" + g.Raw(), "PASSWORD" + h.Raw();
    NothingIsInert();
    PasswordIsRedacted("", "", x, "");
    assert "" + ("PASSWORD" + ("" + (g.Raw() + ""))) == q && "" + "PASSWORD" + "" == "PASSWORD";
    PlainBody(x, '\'', true);
    PlainBody(y, '\'', true);
    SwapOnly(q, "PASSWORD", g, h);
    SchemaCases("Init DB", q);
    SchemaCases("Init DB", q');
    TextsDiffer(x, y);
  }

  lemma NothingIsInert()
    ensures AllInert(false, "")
  {
  }

  lemma TextsDiffer(x: string, y: string)
    requires x != y && |x| < 150 && |y| < 150
    ensures ClipDb("PASSWORD" + Quoted('\'', x, true).Raw()) != ClipDb("PASSWORD" + Quoted('\'', y, true).Raw())
  {
    Embraced("PASSWORD", x, y);
  }

  lemma Embraced(a: string, x: string, y: string)
    requires x != y && |a| + |x| < 180 && |a| + |y| < 180
    ensures ClipDb(a + Quoted('\'', x, true).Raw()) != ClipDb(a + Quoted('\'', y, true).Raw())
  {
    hide Segment.Raw;
    Unwrapped(a, x);
    Unwrapped(a, y);
    ShortIsStored(a + Quoted('\'', x, true).Raw());
    ShortIsStored(a + Quoted('\'', y, true).Raw());
  }

  lemma Unwrapped(a: string, x: string)
    ensures var q := a + Quoted('\'', x, true).Raw(); |q| == |a| + |x| + 2 && q[|a| + 1..|q| - 1] == x
  {
  }

  lemma ShortIsStored(name: string)
    requires |name| < DB_CAPACITY
    ensures ClipDb(name) == name
  {
  }

  lemma SwapOnly(query: string, lead: string, h: Segment, other: Segment)
    requires Redacts(query, lead, h, []) && !h.Copied? && Alike(h, other)
    ensures Swapped(query, lead + other.Raw())
  {
    hide Redacts, Swapped, Segments, Lead, FromFirst, Cuts, Alike;
    RedactsLead(query, lead, h, []);
    NothingLeft(h.Hex?);
    SwapFirst(query, other);
    assert FromFirst(Segments(query))[1..] == Cuts(Outside, h.Hex?, []);
    assert Unparse([]) == [];
    assert other.Raw() + [] == other.Raw();
  }
}

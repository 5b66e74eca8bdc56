/** Queries that differ in the bodies of their credential literals only: what the keyword
lexer and the schema tracker see of them. */
module Leads {
  import opened Bytes
  import opened Commands
  import opened Masker
  import opened MaskerTheorems
  import opened Statement
  import opened SchemaTracking

  // ---- what alike queries share ----

  /** The text in front of the first literal. */
  function Lead(gs: seq<Segment>): string {
    if gs == [] || !gs[0].Copied? then [] else gs[0].text + Lead(gs[1..])
  }

  /** The first literal and all behind it. */
  function FromFirst(gs: seq<Segment>): seq<Segment> {
    if gs == [] || !gs[0].Copied? then gs else FromFirst(gs[1..])
  }

  predicate HexFirst(gs: seq<Segment>) { FromFirst(gs) != [] && FromFirst(gs)[0].Hex? }

  /** A literal begins: with 0x, or with a quote. */
  predicate LiteralStart(r: string, hex: bool) {
    r != [] && (if hex then |r| > 1 && r[0] == '0' && (r[1] == 'x' || r[1] == 'X') else IsQuote(r[0]))
  }

  /** Two literals of one form begin, with the same bytes. */
  predicate SameStart(r: string, r': string, hex: bool) {
    LiteralStart(r, hex) && LiteralStart(r', hex) && r[0] == r'[0] && (hex ==> r[1] == r'[1])
  }

  lemma {:induction false} LeadOfAlike(gs: seq<Segment>, hs: seq<Segment>)
    requires AllAlike(gs, hs) && forall g <- gs :: g.WellFormed()
    ensures Unparse(gs) == Lead(gs) + Unparse(FromFirst(gs)) && Unparse(hs) == Lead(gs) + Unparse(FromFirst(hs))
    ensures AllAlike(FromFirst(gs), FromFirst(hs)) && (forall g <- FromFirst(gs) :: g.WellFormed())
    ensures FromFirst(gs) != [] ==> !FromFirst(gs)[0].Copied?
    decreases gs
  {
    hide BodyOk, AllHex, Unparse, AllAlike;
    assert [] + Unparse(gs) == Unparse(gs) && [] + Unparse(hs) == Unparse(hs);
    if gs != [] && gs[0].Copied? {
      assert forall g <- gs[1..] :: g in gs;
      SameHead(gs, hs);
      AlikeTails(gs, hs);
      LeadOfAlike(gs[1..], hs[1..]);
      assert gs == [gs[0]] + gs[1..] && hs == [hs[0]] + hs[1..];
      ConsSegment(gs[0], gs[1..]);
      ConsSegment(hs[0], hs[1..]);
      Concat3(gs[0].text, Lead(gs[1..]), Unparse(FromFirst(gs[1..])));
      Concat3(gs[0].text, Lead(gs[1..]), Unparse(FromFirst(hs[1..])));
    } else {
      assert FromFirst(gs) == gs && FromFirst(hs) == hs by { NoHead(gs, hs); }
    }
  }

  lemma SameHead(gs: seq<Segment>, hs: seq<Segment>)
    requires AllAlike(gs, hs) && gs != [] && gs[0].Copied?
    ensures hs != [] && hs[0] == gs[0]
  {
    assert Alike(gs[0], hs[0]);
  }

  lemma NoHead(gs: seq<Segment>, hs: seq<Segment>)
    requires AllAlike(gs, hs) && (gs == [] || !gs[0].Copied?)
    ensures FromFirst(gs) == gs && FromFirst(hs) == hs && Lead(gs) == []
  {
    assert gs != [] ==> Alike(gs[0], hs[0]);
  }

  lemma StartOfLiteral(gs: seq<Segment>, hs: seq<Segment>)
    requires AllAlike(gs, hs) && (forall g <- gs :: g.WellFormed()) && gs != [] && !gs[0].Copied?
    ensures SameStart(Unparse(gs), Unparse(hs), gs[0].Hex?)
  {
    hide BodyOk, AllHex;
    assert gs[0] in gs && Alike(gs[0], hs[0]);
    var g, h := gs[0].Raw(), hs[0].Raw();
    assert Unparse(gs)[0] == g[0] && Unparse(hs)[0] == h[0];
    assert gs[0].Hex? ==> Unparse(gs)[1] == g[1] && Unparse(hs)[1] == h[1];
  }

  // ---- the keyword ----

  lemma {:induction false} WordBefore(w: string, x: string, limit: nat)
    requires (forall c <- w :: IsIdent(c)) && (x != [] ==> !IsIdent(x[0]))
    ensures Word(w + x, limit) == Word(w, limit) && |Word(w, limit)| == Min(|w|, limit)
    decreases w
  {
    if w == [] {
      assert w + x == x;
    } else if limit > 0 {
      assert w[0] in w && forall c <- w[1..] :: c in w;
      assert (w + x)[1..] == w[1..] + x;
      WordBefore(w[1..], x, limit - 1);
    }
  }

  lemma {:induction false} LettersBefore(u: string, r: string, limit: nat)
    requires r != [] ==> !IsUpper(r[0]) && !IsLower(r[0])
    ensures Letters(u + r, limit) == Letters(u, limit)
    decreases u
  {
    if u == [] {
      assert u + r == r;
    } else if limit > 0 {
      assert (u + r)[1..] == u[1..] + r;
      LettersBefore(u[1..], r, limit - 1);
    }
  }

  lemma {:induction false} SpacesBefore(t: string, r: string)
    requires r != [] ==> !IsSpace(r[0])
    ensures SpaceLen(t + r) == SpaceLen(t) && SkipBlanks(t + r) == SkipBlanks(t) + r
    decreases t
  {
    if t == [] {
      assert t + r == r;
    } else {
      assert (t + r)[1..] == t[1..] + r;
      SpacesBefore(t[1..], r);
      var n := SpaceLen(t);
      assert (t + r)[n..] == t[n..] + r;
    }
  }

  // Skipping trivia in a text that a literal follows.

  /** The trivia item at the head ends inside `p`, also when a literal follows. */
  predicate ItemEnds(p: string, hex: bool) {
    if p != [] && IsPrefixByte(p[0]) then true
    else if !StartsComment(p) then TriviaLen(p) < |p|
    else if HasAt(p, 2, '!') || (HasAt(p, 2, 'M') && HasAt(p, 3, '!')) then TriviaLen(p) == |p| ==> !hex
    else 2 + CloseAt(p[2..]) + 1 < |p|
  }

  /** Nothing is skipped at the head of `p`. Two dashes in front of a literal are no comment. */
  predicate NoItem(p: string) { TriviaLen(p) == 0 || p == "--" }

  /** No comment is open at the end of `p`. */
  predicate Over(p: string, hex: bool)
    decreases |p|
  {
    NoItem(p) || (ItemEnds(p, hex) && Over(p[TriviaLen(p)..], hex))
  }

  /** Where skipping stops. */
  function Remainder(p: string): string
    decreases |p|
  {
    if NoItem(p) then p else Remainder(p[TriviaLen(p)..])
  }

  lemma {:induction false} CloseBefore(s: string, r: string)
    requires CloseAt(s) + 1 < |s|
    ensures CloseAt(s + r) == CloseAt(s)
    decreases s
  {
    assert (s + r)[0] == s[0] && (s + r)[1] == s[1];
    if !(s[0] == '*' && s[1] == '/') {
      assert (s + r)[1..] == s[1..] + r;
      CloseBefore(s[1..], r);
    }
  }

  lemma {:induction false} DigitsBefore(s: string, r: string)
    requires r != [] && DigitsLen(s) == |s| ==> !IsDigit(r[0])
    ensures DigitsLen(s + r) == DigitsLen(s)
    decreases s
  {
    if s == [] {
      assert s + r == r;
    } else {
      assert (s + r)[1..] == s[1..] + r;
      if IsDigit(s[0]) {
        DigitsBefore(s[1..], r);
      }
    }
  }

  lemma CommentBefore(p: string, hex: bool, r: string)
    requires StartsComment(p) && ItemEnds(p, hex) && LiteralStart(r, hex)
    ensures TriviaLen(p + r) == TriviaLen(p)
  {
    hide CloseAt, DigitsLen;
    var q := p + r;
    assert q[0] == p[0] && q[1] == p[1] && !IsPrefixByte(p[0]);
    if HasAt(p, 2, '!') {
      assert q[3..] == p[3..] + r && q[2] == p[2];
      DigitsBefore(p[3..], r);
    } else if HasAt(p, 2, 'M') && HasAt(p, 3, '!') {
      assert q[4..] == p[4..] + r && q[2] == p[2] && q[3] == p[3];
      DigitsBefore(p[4..], r);
    } else {
      assert q[2..] == p[2..] + r && q[2] == p[2] && q[3] == p[3];
      CloseBefore(p[2..], r);
    }
  }

  lemma ItemBefore(p: string, hex: bool, r: string)
    requires !NoItem(p) && ItemEnds(p, hex) && LiteralStart(r, hex)
    ensures TriviaLen(p + r) == TriviaLen(p)
  {
    hide CommentLen, IndexOf;
    var q := p + r;
    assert q[0] == p[0];
    if StartsComment(p) {
      CommentBefore(p, hex, r);
    } else if !IsPrefixByte(p[0]) {
      assert |p| > 1 ==> q[1] == p[1];
      assert |p| > 2 ==> q[2] == p[2];
      var k := IndexOf(p, '\n');
      assert q[..k] == p[..k];
      IndexOfUnique(q, '\n', k);
    }
  }

  lemma NoItemBefore(p: string, hex: bool, r: string)
    requires NoItem(p) && LiteralStart(r, hex)
    ensures TriviaLen(p + r) == 0
  {
    hide CommentLen, IndexOf;
    var q := p + r;
    if p == [] {
      assert q == r;
    } else {
      assert q[0] == p[0];
      assert q[1] == if |p| > 1 then p[1] else r[0];
      assert |p| > 1 ==> |q| > 2 && q[2] == if |p| > 2 then p[2] else r[0];
      NotSkipped(p);
    }
  }

  lemma NotSkipped(p: string)
    requires p != [] && NoItem(p)
    ensures !IsPrefixByte(p[0]) && !StartsComment(p) && p[0] != '#' && (p == "--" || !StartsDashes(p))
  {
    hide CommentLen;
  }

  /** Skipping stops in the lead, at the same place for every literal that follows. */
  lemma {:induction false} SkipBefore(p: string, hex: bool, r: string)
    requires Over(p, hex) && LiteralStart(r, hex)
    ensures Skip(p + r) == Remainder(p) + r
    decreases |p|
  {
    hide TriviaLen, ItemEnds;
    if NoItem(p) {
      NoItemBefore(p, hex, r);
      SkipDone(p + r);
    } else {
      var n := TriviaLen(p);
      ItemBefore(p, hex, r);
      SkipOnce(p + r, n);
      assert (p + r)[n..] == p[n..] + r;
      SkipBefore(p[n..], hex, r);
    }
  }

  /** Behind a word that is over, the keyword does not depend on a literal further on. */
  lemma KeywordBefore(w: string, t: string, r: string, size: nat)
    requires (forall c <- w :: IsIdent(c)) && (t != [] ==> !IsIdent(t[0])) && size >= 7
    requires r != [] ==> (if t == [] then !IsIdent(r[0]) else !IsUpper(r[0]) && !IsLower(r[0])) && !IsSpace(r[0])
    ensures Keyword(w + (t + r), size) == Keyword(w + t, size)
  {
    hide Word, Letters, SpaceLen, SkipBlanks;
    var n := Min(16, size - 1);
    assert t == [] ==> t + r == r;
    WordBefore(w, t + r, n);
    WordBefore(w, t, n);
    if Word(w, n) == "START" {
      assert |w| == 5;
      assert (w + (t + r))[5..] == t + r && (w + t)[5..] == t;
      SpacesBefore(t, r);
      LettersBefore(SkipBlanks(t), r, 11);
    }
  }

  function IdentLen(s: string): (n: nat)
    ensures n <= |s| && (forall c <- s[..n] :: IsIdent(c)) && (n < |s| ==> !IsIdent(s[n]))
  {
    if s == [] || !IsIdent(s[0]) then 0 else
      var n := 1 + IdentLen(s[1..]);
      assert s[..n] == [s[0]] + s[1..][..n - 1];
      n
  }

  /** A word that fills the buffer with the mark of a hexadecimal literal. */
  predicate Full(s: string) { |s| >= 14 }

  /** The keyword is read inside the lead: no comment is open at its end, and no word runs
      into a hexadecimal literal with room for its digits. */
  predicate KeywordSettled(lead: string, hex: bool) {
    Over(lead, hex) && (hex && IdentLen(Remainder(lead)) == |Remainder(lead)| ==> Full(Remainder(lead)))
  }

  lemma {:induction false} WordFills(x: string, y: string, limit: nat)
    requires |x| >= limit && forall c <- x :: IsIdent(c)
    ensures Word(x + y, limit) == Word(x, limit) && |Word(x, limit)| == limit
    decreases limit
  {
    if limit > 0 {
      assert x[0] in x && forall c <- x[1..] :: c in x;
      assert (x + y)[1..] == x[1..] + y;
      WordFills(x[1..], y, limit - 1);
    }
  }

  /** A word that is long enough takes no digit in. */
  lemma LongKeyword(s: string, r: string, r': string, size: nat)
    requires (forall c <- s :: IsIdent(c)) && Full(s) && SameStart(r, r', true) && size >= 7
    ensures Keyword(s + r, size) == Keyword(s + r', size)
  {
    hide Word, Letters;
    var n := Min(16, size - 1);
    var x := s + r[..2];
    assert r[..2] == r'[..2];
    assert s + r == x + r[2..] && s + r' == x + r'[2..];
    assert forall c <- x :: IsIdent(c);
    WordFills(x, r[2..], n);
    WordFills(x, r'[2..], n);
  }

  /** Then the keyword is the same for every literal. */
  lemma KeywordOfLead(lead: string, hex: bool, r: string, r': string, size: nat)
    requires KeywordSettled(lead, hex) && SameStart(r, r', hex) && size >= 7
    ensures Extract(lead + r, size) == Extract(lead + r', size)
  {
    hide Keyword, Skip, Over, Remainder, IdentLen, Full;
    SkipBefore(lead, hex, r);
    SkipBefore(lead, hex, r');
    var s := Remainder(lead);
    var w, t := s[..IdentLen(s)], s[IdentLen(s)..];
    assert s == w + t && s + r == w + (t + r) && s + r' == w + (t + r');
    if hex && t == [] {
      assert w == s;
      LongKeyword(s, r, r', size);
    } else {
      KeywordBefore(w, t, r, size);
      KeywordBefore(w, t, r', size);
    }
  }

  // ---- hexadecimal literals inside a comment ----

  /** The comment open at the end of `p` is a block comment. */
  predicate BlockOpen(p: string)
    decreases |p|
  {
    !NoItem(p) && (if ItemEnds(p, false) then BlockOpen(p[TriviaLen(p)..]) else StartsComment(p))
  }

  /** What is left of `s` behind the comment that it is in. */
  function AfterComment(block: bool, s: string): string {
    if block then (if CloseAt(s) + 1 < |s| then s[CloseAt(s) + 2..] else []) else s[IndexOf(s, '\n')..]
  }

  lemma {:induction false} NeverCloses(s: string)
    requires CloseAt(s) + 1 >= |s|
    ensures forall i :: 0 <= i < |s| - 1 ==> !(s[i] == '*' && s[i + 1] == '/')
  {
    if |s| >= 2 {
      NeverCloses(s[1..]);
      forall i | 0 <= i < |s| - 1 ensures !(s[i] == '*' && s[i + 1] == '/') {
        if i > 0 {
          assert s[i] == s[1..][i - 1] && s[i + 1] == s[1..][i];
        }
      }
    }
  }

  lemma {:induction false} CloseThrough(b: string, s: string)
    requires forall i :: 0 <= i < |b| - 1 ==> !(b[i] == '*' && b[i + 1] == '/')
    requires b != [] ==> b[|b| - 1] != '*'
    ensures CloseAt(b + s) == |b| + CloseAt(s)
    decreases b
  {
    if b == [] {
      assert b + s == s;
    } else {
      var t := b + s;
      assert t[0] == b[0] && (|b| > 1 ==> t[1] == b[1]);
      assert |b| > 1 ==> !(b[0] == '*' && b[0 + 1] == '/');
      assert t[1..] == b[1..] + s;
      CloseThrough(b[1..], s);
    }
  }

  lemma BlockSwallows(p: string, x: string, s: string)
    requires StartsComment(p) && !ItemEnds(p, false) && x != [] && forall c <- x :: IsIdent(c)
    requires x[0] == '0'
    ensures Skip(p + (x + s)) == Skip(AfterComment(true, s))
  {
    hide CloseAt, Skip, DigitsLen;
    var q := p + (x + s);
    var b := p[2..] + x;
    NeverCloses(p[2..]);
    assert x[|x| - 1] in x;
    assert forall i :: |p| - 2 <= i < |b| ==> b[i] in x;
    CloseThrough(b, s);
    assert q[2..] == b + s;
    assert q[0] == p[0] && q[1] == p[1] && q[2] == b[0] && q[3..] == q[2..][1..];
    assert |q| > 3 ==> q[3] == (b + s)[1];
    assert q[2] != '!' && !(HasAt(q, 2, 'M') && HasAt(q, 3, '!'));
    var n := TriviaLen(q);
    assert q[n..] == AfterComment(true, s);
    SkipOnce(q, n);
  }

  lemma LineSwallows(p: string, x: string, s: string)
    requires !NoItem(p) && !StartsComment(p) && !ItemEnds(p, false) && x != [] && forall c <- x :: IsIdent(c)
    ensures Skip(p + (x + s)) == Skip(AfterComment(false, s))
  {
    hide IndexOf, Skip, CommentLen;
    var q := p + (x + s);
    assert TriviaLen(p) == IndexOf(p, '\n') == |p| && p[..|p|] == p;
    var k := IndexOf(s, '\n');
    var n := |p| + |x| + k;
    assert q[..n] == p + x + s[..k];
    assert '\n' !in x;
    IndexOfUnique(q, '\n', n);
    assert q[0] == p[0] && (|p| > 1 ==> q[1] == p[1]) && (|p| > 2 ==> q[2] == p[2]);
    assert p[0] == '-' ==> |p| > 2 by { assert p[0] == '-' && |p| == 2 ==> p == "--"; }
    assert q[n..] == AfterComment(false, s);
    SkipOnce(q, n);
  }

  /** An item that ends for a quote but not for 0x has no room for a comment behind it. */
  lemma EndsForBoth(p: string)
    requires !NoItem(p) && ItemEnds(p, false) && !Over(p[TriviaLen(p)..], false)
    ensures ItemEnds(p, true)
  {
    hide CommentLen, IndexOf;
    assert p[|p|..] == [];
  }

  /** Digits inside a comment that is open do not matter. */
  lemma {:induction false} CommentSwallows(p: string, x: string, s: string)
    requires !Over(p, false) && LiteralStart(x, true) && forall c <- x :: IsIdent(c)
    ensures Skip(p + (x + s)) == Skip(AfterComment(BlockOpen(p), s))
    decreases |p|
  {
    hide TriviaLen, ItemEnds, Skip, AfterComment;
    if ItemEnds(p, false) {
      var n := TriviaLen(p);
      var r := x + s;
      EndsForBoth(p);
      ItemBefore(p, true, r);
      SkipOnce(p + r, n);
      assert (p + r)[n..] == p[n..] + r;
      CommentSwallows(p[n..], x, s);
    } else if StartsComment(p) {
      BlockSwallows(p, x, s);
    } else {
      LineSwallows(p, x, s);
    }
  }

  // ---- the whole query ----

  /** The keyword does not depend on the bodies of the literals in `gs`, behind `p`: up to
      the literal that could decide it, all are hexadecimal ones inside a comment, and at
      that one it is settled. */
  predicate KeywordSafe(p: string, gs: seq<Segment>)
    decreases gs
  {
    if gs == [] then true
    else if gs[0].Copied? || (gs[0].Hex? && !Over(p, false)) then KeywordSafe(p + gs[0].Raw(), gs[1..])
    else KeywordSettled(p, gs[0].Hex?)
  }

  /** Two texts that skipping leaves in the same way. */
  ghost predicate SkipAlike(p: string, p': string) { forall s: string :: Skip(p + s) == Skip(p' + s) }

  lemma SkipAlikeAt(p: string, p': string, s: string)
    requires SkipAlike(p, p')
    ensures Skip(p + s) == Skip(p' + s)
  {
  }

  lemma SkipAlikeGrows(p: string, p': string, x: string)
    requires SkipAlike(p, p')
    ensures SkipAlike(p + x, p' + x)
  {
    hide Skip;
    forall s: string ensures Skip((p + x) + s) == Skip((p' + x) + s) {
      assert (p + x) + s == p + (x + s) && (p' + x) + s == p' + (x + s);
      SkipAlikeAt(p, p', x + s);
    }
  }

  lemma SkipAlikeSwallows(p: string, p': string, x: string, x': string)
    requires SkipAlike(p, p') && !Over(p, false) && LiteralStart(x, true) && LiteralStart(x', true)
    requires (forall c <- x :: IsIdent(c)) && forall c <- x' :: IsIdent(c)
    ensures SkipAlike(p + x, p' + x')
  {
    hide Skip, Over;
    forall s: string ensures Skip((p + x) + s) == Skip((p' + x') + s) {
      assert (p + x) + s == p + (x + s) && (p' + x') + s == p' + (x' + s);
      SkipAlikeAt(p, p', x' + s);
      CommentSwallows(p, x, s);
      CommentSwallows(p, x', s);
    }
  }

  lemma HexIsWord(h: Segment)
    requires h.Hex? && h.WellFormed()
    ensures LiteralStart(h.Raw(), true) && forall c <- h.Raw() :: IsIdent(c)
  {
  }

  /** Alike queries have the same keyword. */
  lemma {:induction false} KeywordAgrees(p: string, p': string, gs: seq<Segment>, hs: seq<Segment>, size: nat)
    requires KeywordSafe(p, gs) && AllAlike(gs, hs) && (forall g <- gs :: g.WellFormed()) && SkipAlike(p, p') && size >= 7
    ensures Extract(p + Unparse(gs), size) == Extract(p' + Unparse(hs), size)
    decreases gs
  {
    hide Over, KeywordSettled, SkipAlike, Skip, Keyword, Alike, Segment.Raw, Segment.WellFormed;
    if gs == [] {
      SkipAlikeAt(p, p', []);
    } else if gs[0].Copied? || (gs[0].Hex? && !Over(p, false)) {
      var g, h := gs[0], hs[0];
      assert g in gs && Alike(g, h) && forall x <- gs[1..] :: x in gs;
      AlikeTails(gs, hs);
      GrownAlike(p, p', g, h);
      KeywordAgrees(p + g.Raw(), p' + h.Raw(), gs[1..], hs[1..], size);
      assert p + (g.Raw() + Unparse(gs[1..])) == (p + g.Raw()) + Unparse(gs[1..]);
      assert p' + (h.Raw() + Unparse(hs[1..])) == (p' + h.Raw()) + Unparse(hs[1..]);
    } else {
      StartOfLiteral(gs, hs);
      SkipAlikeAt(p, p', Unparse(hs));
      KeywordOfLead(p, gs[0].Hex?, Unparse(gs), Unparse(hs), size);
    }
  }

  lemma GrownAlike(p: string, p': string, g: Segment, h: Segment)
    requires SkipAlike(p, p') && Alike(g, h) && g.WellFormed() && (g.Copied? || (g.Hex? && !Over(p, false)))
    ensures SkipAlike(p + g.Raw(), p' + h.Raw())
  {
    hide SkipAlike, Over;
    if g.Copied? {
      SkipAlikeGrows(p, p', g.text);
    } else {
      HexIsWord(g);
      HexIsWord(h);
      SkipAlikeSwallows(p, p', g.Raw(), h.Raw());
    }
  }

  // ---- the schema ----

  /** How much of a literal is the same for all bodies. */
  function MarkLen(hex: bool): nat { if hex then 2 else 1 }

  /** So many bytes are stored whatever follows them. */
  predicate Fills(n: nat) { n >= DB_CAPACITY - 1 }

  /** The name at the head of `u` ends inside it, or in front of the literal, or is too long
      for a body to matter. */
  predicate NameEnds(u: string, hex: bool) {
    if u != [] && u[0] == '`' then '`' in u[1..] || Fills(|u| - 1 + MarkLen(hex))
    else hex && NameLen(u) == |u| ==> Fills(|u| + MarkLen(hex))
  }

  lemma {:induction false} NameLenBefore(u: string, r: string)
    requires r != [] && NameLen(u) == |u| ==> !IsNameByte(r[0])
    ensures NameLen(u + r) == NameLen(u)
    decreases u
  {
    if u == [] {
      assert u + r == r;
    } else {
      assert (u + r)[1..] == u[1..] + r;
      if IsNameByte(u[0]) {
        NameLenBefore(u[1..], r);
      }
    }
  }

  /** Names that begin with the same bytes, enough of them, are stored alike. */
  lemma FilledAlike(x: string, y: string, n: nat)
    requires n <= |x| && n <= |y| && x[..n] == y[..n] && Fills(n)
    ensures ClipDb(x) == ClipDb(y)
  {
    assert x[..DB_CAPACITY - 1] == x[..n][..DB_CAPACITY - 1];
    assert y[..DB_CAPACITY - 1] == y[..n][..DB_CAPACITY - 1];
    assert |x| == DB_CAPACITY - 1 ==> x[..DB_CAPACITY - 1] == x;
    assert |y| == DB_CAPACITY - 1 ==> y[..DB_CAPACITY - 1] == y;
  }

  /** The same schema is stored for every literal that follows. */
  lemma NameBefore(u: string, hex: bool, r: string, r': string)
    requires NameEnds(u, hex) && SameStart(r, r', hex)
    ensures ClipDb(NameAt(u + r)) == ClipDb(NameAt(u + r'))
  {
    hide NameLen, IndexOf, ClipDb;
    if u == [] || u[0] != '`' {
      if NameLen(u) == |u| && hex {
        GluedName(u, r);
        GluedName(u, r');
        FilledAlike(NameAt(u + r), NameAt(u + r'), |u| + 2);
      } else {
        BareBefore(u, hex, r);
        BareBefore(u, hex, r');
      }
    } else if '`' in u[1..] {
      TickedBefore(u, r);
      TickedBefore(u, r');
    } else {
      OpenName(u, hex, r);
      OpenName(u, hex, r');
      var m := MarkLen(hex);
      assert r[..m] == r'[..m];
      FilledAlike(NameAt(u + r), NameAt(u + r'), |u| - 1 + m);
    }
  }

  lemma BareBefore(u: string, hex: bool, r: string)
    requires (u == [] || u[0] != '`') && LiteralStart(r, hex) && (NameLen(u) == |u| ==> !hex)
    ensures NameAt(u + r) == u[..NameLen(u)]
  {
    hide NameLen, IndexOf;
    NameLenBefore(u, r);
    var s := u + r;
    assert s[0] == if u == [] then r[0] else u[0];
    assert s != [] && s[0] != '`';
    assert s[..NameLen(u)] == u[..NameLen(u)];
  }

  /** A bare name takes a hexadecimal literal in. */
  lemma GluedName(u: string, r: string)
    requires (u == [] || u[0] != '`') && LiteralStart(r, true) && NameLen(u) == |u|
    ensures |NameAt(u + r)| >= |u| + 2 && NameAt(u + r)[..|u| + 2] == u + r[..2]
  {
    hide NameLen;
    NameLenThrough(u, r);
    assert (u + r)[0] == if u == [] then r[0] else u[0];
    assert NameLen(r) >= 2 by { TwoNameBytes(r); }
    assert (u + r)[..NameLen(u + r)][..|u| + 2] == u + r[..2];
  }

  lemma TwoNameBytes(r: string)
    requires LiteralStart(r, true)
    ensures NameLen(r) == 2 + NameLen(r[2..])
  {
    assert r[1..][1..] == r[2..];
  }

  lemma {:induction false} NameLenThrough(u: string, r: string)
    requires NameLen(u) == |u|
    ensures NameLen(u + r) == |u| + NameLen(r)
    decreases u
  {
    if u == [] {
      assert u + r == r;
    } else {
      assert (u + r)[1..] == u[1..] + r;
      NameLenThrough(u[1..], r);
    }
  }

  lemma TickedBefore(u: string, r: string)
    requires u != [] && u[0] == '`' && '`' in u[1..]
    ensures NameAt(u + r) == u[1..][..IndexOf(u[1..], '`')]
  {
    hide IndexOf;
    var v := u[1..];
    var k := IndexOf(v, '`');
    assert (u + r)[1..] == v + r && v[..|v|] == v;
    assert (v + r)[..k] == v[..k];
    IndexOfUnique(v + r, '`', k);
  }

  /** A name that opens with a backtick and does not close takes the literal in. */
  lemma OpenName(u: string, hex: bool, r: string)
    requires u != [] && u[0] == '`' && '`' !in u[1..] && LiteralStart(r, hex)
    ensures var n := |u| - 1 + MarkLen(hex); |NameAt(u + r)| >= n && NameAt(u + r)[..n] == u[1..] + r[..MarkLen(hex)]
  {
    hide IndexOf;
    var s, m := u[1..] + r, MarkLen(hex);
    var k := IndexOf(s, '`');
    assert (u + r)[1..] == s;
    assert k >= |u| - 1 + m by {
      assert forall i :: 0 <= i < |u| - 1 ==> s[i] == u[1..][i];
      assert s[|u| - 1] == r[0] && (hex ==> s[|u|] == r[1]);
    }
    assert s[..k][..|u| - 1 + m] == u[1..] + r[..m];
  }

  lemma {:induction false} PrefixBefore(p: string, r: string)
    requires r != [] ==> !IsPrefixByte(r[0])
    ensures PrefixLen(p + r) == PrefixLen(p)
    decreases p
  {
    if p == [] {
      assert p + r == r;
    } else {
      assert (p + r)[1..] == p[1..] + r;
      if IsPrefixByte(p[0]) {
        PrefixBefore(p[1..], r);
      }
    }
  }

  // A literal stands behind a trigger word, so the lead is long enough for the tracker.

  lemma KwHead(prev: bool, s: string, kw: string)
    requires Kw(prev, s, kw) && kw != [] && IsUpper(kw[0])
    ensures !IsPrefixByte(s[0])
  {
    assert Upper(s[..|kw|])[0] == ToUpper(s[0]);
  }

  lemma {:induction false} LeadHasTrigger(prev: bool, s: string)
    requires FromFirst(Scan(State(Outside, prev), s)) != []
    ensures var lead := Lead(Scan(State(Outside, prev), s)); |lead| >= PrefixLen(lead) + 8
    decreases |s|
  {
    hide StepOutside, PrefixLen;
    if s != [] {
      var n, next := OutsideStep(prev, s);
      var gs := Scan(State(Outside, prev), s);
      assert gs[1..] == Scan(next, s[n..]);
      var lead, more := Lead(gs), Lead(gs[1..]);
      assert lead == s[..n] + more && lead[0] == s[0];
      if n == 1 {
        LeadHasTrigger(next.prev, s[n..]);
        PrefixStep(s[0], more);
        assert lead == [s[0]] + more;
      } else {
        TriggerHead(prev, s);
        NoPrefix(lead);
      }
    }
  }

  lemma OutsideStep(prev: bool, s: string) returns (n: nat, next: State)
    requires s != []
    ensures n <= |s| && StepOutside(prev, s) == Emit(Copied(s[..n]), next)
    ensures n >= 8 || (n == 1 && next.mode == Outside)
  {
    hide Spells;
    var a := StepOutside(prev, s);
    n, next := |a.seg.text|, a.next;
  }

  lemma TriggerHead(prev: bool, s: string)
    requires s != [] && |StepOutside(prev, s).seg.Raw()| != 1
    ensures !IsPrefixByte(s[0])
  {
    hide Spells;
    if Kw(prev, s, "IDENTIFIED") {
      KwHead(prev, s, "IDENTIFIED");
    } else if Kw(prev, s, "OLD_PASSWORD") {
      KwHead(prev, s, "OLD_PASSWORD");
    } else if Kw(prev, s, "PASSWORD") {
      KwHead(prev, s, "PASSWORD");
    }
  }

  lemma PrefixStep(c: char, s: string)
    ensures PrefixLen([c] + s) <= 1 + PrefixLen(s)
    ensures PrefixLen([c] + s) == 0 || PrefixLen([c] + s) == 1 + PrefixLen(s)
  {
    assert ([c] + s)[1..] == s;
  }

  lemma NoPrefix(s: string)
    requires s != [] && !IsPrefixByte(s[0])
    ensures PrefixLen(s) == 0
  {
  }

  /** What the tracker takes for the name. */
  lemma TargetOfLead(lead: string, r: string)
    requires |lead| >= PrefixLen(lead) + 3 && r != [] && !IsPrefixByte(r[0])
    ensures UseTarget(lead + r) == NameAt(Behind(lead) + r)
  {
    hide PrefixLen, SpaceLen, NameAt, SkipBlanks, UseTarget;
    PrefixBefore(lead, r);
    var n := PrefixLen(lead);
    var s := lead[n..];
    assert (lead + r)[n..] == s + r && (s + r)[3..] == s[3..] + r;
    SpacesBefore(s[3..], r);
    TargetIsBehind(lead + r);
  }

  lemma TargetIsBehind(query: string)
    ensures UseTarget(query) == NameAt(Behind(query))
  {
    hide PrefixLen, SpaceLen, NameLen, IndexOf;
  }
}

/** What the keyword lexer gives for the statements a user writes. */
module KeywordForms {
  import opened Bytes
  import opened Commands
  import opened Leads
  import opened SecretLeaks

  /** The first word, in upper case, at most sixteen bytes of it and what the buffer takes. */
  lemma KeywordIsTheWord(ts: seq<Trivia>, w: string, x: string, size: nat)
    requires (forall t <- ts :: t.Valid()) && w != [] && (forall c <- w :: IsIdent(c)) && (x != [] ==> !IsIdent(x[0]))
    requires size >= 2 && Upper(w)[..Min(|w|, Min(16, size - 1))] != "START"
    ensures Extract(TriviaText(ts) + (w + x), size) == Some(Upper(w)[..Min(|w|, Min(16, size - 1))])
  {
    hide Word, Letters, Skip, SkipBlanks, Upper;
    TriviaIsTransparent(ts, w + x, size);
    assert w[0] in w && (w + x)[0] == w[0];
    WordIsNoTrivia(w + x);
    var n := Min(16, size - 1);
    WordBefore(w, x, n);
    WordIsClipped(w, n);
  }

  lemma {:induction false} WordIsClipped(w: string, limit: nat)
    requires forall c <- w :: IsIdent(c)
    ensures Word(w, limit) == Upper(w)[..Min(|w|, limit)]
    decreases w
  {
    if w != [] && limit > 0 {
      assert w[0] in w && forall c <- w[1..] :: c in w;
      WordIsClipped(w[1..], limit - 1);
      assert Upper(w) == [ToUpper(w[0])] + Upper(w[1..]);
    }
  }

  lemma {:induction false} LettersAre(w: string, x: string, limit: nat)
    requires |w| == limit && forall c <- w :: IsUpper(c) || IsLower(c)
    ensures Letters(w + x, limit) == Upper(w)
    decreases w
  {
    if w != [] {
      assert w[0] in w && forall c <- w[1..] :: c in w;
      assert (w + x)[1..] == w[1..] + x && (w + x)[0] == w[0];
      LettersAre(w[1..], x, limit - 1);
      assert Upper(w) == [ToUpper(w[0])] + Upper(w[1..]);
    }
  }

  lemma UpperLetters(w: string, kw: string)
    requires Upper(w) == kw && forall c <- kw :: IsUpper(c)
    ensures |w| == |kw| && forall c <- w :: IsUpper(c) || IsLower(c)
  {
    forall c | c in w ensures IsUpper(c) || IsLower(c) {
      var i :| 0 <= i < |w| && w[i] == c;
      assert Upper(w)[i] == ToUpper(c) && kw[i] in kw;
    }
  }

  /** START, white space and TRANSACTION, in any letter case, open a transaction like BEGIN. */
  lemma StartTransaction(ts: seq<Trivia>, start: string, gap: string, transaction: string, x: string, size: nat)
    requires (forall t <- ts :: t.Valid()) && Upper(start) == "START" && Upper(transaction) == "TRANSACTION" && size >= 6
    requires gap != [] && forall c <- gap :: IsSpace(c)
    ensures Extract(TriviaText(ts) + (start + (gap + (transaction + x))), size) == Some("BEGIN")
  {
    hide Word, Letters, Skip, SkipBlanks, Upper;
    Uppers();
    UpperLetters(start, "START");
    UpperLetters(transaction, "TRANSACTION");
    var rest := gap + (transaction + x);
    var s := start + rest;
    assert gap[0] in gap && rest[0] == gap[0];
    StartIsRead(ts, start, rest, size);
    assert transaction[0] in transaction && (transaction + x)[0] == transaction[0];
    GapIsSkipped(gap, transaction + x);
    LettersAre(transaction, x, 11);
    assert s[5..] == rest;
  }

  /** START and anything else stays START. */
  lemma OtherStart(ts: seq<Trivia>, start: string, rest: string, size: nat)
    requires (forall t <- ts :: t.Valid()) && Upper(start) == "START" && size >= 6 && (rest != [] ==> !IsIdent(rest[0]))
    requires Letters(SkipBlanks(rest), 11) != "TRANSACTION"
    ensures Extract(TriviaText(ts) + (start + rest), size) == Some("START")
  {
    hide Word, Letters, Skip, SkipBlanks, Upper;
    Uppers();
    UpperLetters(start, "START");
    StartIsRead(ts, start, rest, size);
    assert (start + rest)[5..] == rest;
  }

  lemma Uppers()
    ensures (forall c <- "START" :: IsUpper(c)) && forall c <- "TRANSACTION" :: IsUpper(c)
    ensures |"START"| == 5 && |"TRANSACTION"| == 11
  {
  }

  lemma StartIsRead(ts: seq<Trivia>, start: string, rest: string, size: nat)
    requires (forall t <- ts :: t.Valid()) && Upper(start) == "START" && size >= 6 && (rest != [] ==> !IsIdent(rest[0]))
    ensures |start| == 5 && Word(start + rest, Min(16, size - 1)) == "START"
    ensures Extract(TriviaText(ts) + (start + rest), size) == Some(Keyword(start + rest, size))
  {
    hide Word, Skip, Keyword, Upper;
    Uppers();
    UpperLetters(start, "START");
    TriviaIsTransparent(ts, start + rest, size);
    assert start[0] in start && (start + rest)[0] == start[0];
    WordIsNoTrivia(start + rest);
    var n := Min(16, size - 1);
    WordBefore(start, rest, n);
    WordIsClipped(start, n);
    assert Upper(start)[..5] == Upper(start);
  }

  lemma GapIsSkipped(gap: string, s: string)
    requires (forall c <- gap :: IsSpace(c)) && s != [] && !IsSpace(s[0])
    ensures SkipBlanks(gap + s) == s
  {
    hide SpaceLen;
    assert forall i :: 0 <= i < |gap| ==> (gap + s)[i] in gap;
    SpaceLenUnique(gap + s, |gap|);
    assert (gap + s)[|gap|..] == s;
  }

  /** No word at all is OTHER. */
  lemma NoWordIsOther(ts: seq<Trivia>, x: string)
    requires (forall t <- ts :: t.Valid()) && x != [] && !IsIdent(x[0]) && TriviaLen(x) == 0
    ensures Extract(TriviaText(ts) + x, 24) == Some("OTHER")
  {
    hide Skip, Letters;
    TriviaIsTransparent(ts, x, 24);
    SkipDone(x);
    assert "OTHER"[..5] == "OTHER";
  }
}

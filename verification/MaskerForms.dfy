/** The converse of the clauses: whatever the query, every literal that is redacted stands
behind a trigger word in one of their forms. */
module MaskerForms {
  import opened Bytes
  import opened Masker
  import opened MaskerTheorems
  import opened MaskerClauses

  predicate AllSeparators(s: string) { forall c <- s :: IsSeparator(c) }

  /** Nothing, or white space and PASSWORD. */
  predicate IsOption(s: string) {
    s == [] || (|s| >= 8 && Upper(s[|s| - 8..]) == "PASSWORD" && forall c <- s[..|s| - 8] :: IsSpace(c))
  }

  /** A word that stands alone behind `pre`. */
  predicate Begins(pre: string, word: string, kw: string) { Upper(word) == kw && !EndsInWord(false, pre) }

  /** PASSWORD or OLD_PASSWORD, and separators. */
  predicate PasswordForm(t: string, pre: string, word: string, seps: string) {
    t == pre + word + seps && (Begins(pre, word, "PASSWORD") || Begins(pre, word, "OLD_PASSWORD")) && AllSeparators(seps)
  }

  /** IDENTIFIED, any text, a connector or none, the optional PASSWORD and separators. */
  predicate IdentifiedForm(t: string, pre: string, word: string, gap: string, con: string, opt: string, seps: string) {
    && t == pre + word + gap + con + opt + seps && Begins(pre, word, "IDENTIFIED")
    && (con == [] || IsConnector(con)) && IsOption(opt) && AllSeparators(seps)
  }

  /** What has been read when the scanner is in a mode. */
  ghost predicate Reached(mode: Mode, t: string) {
    match mode
    case Outside => true
    case Connecting => exists pre, word, gap :: IdentifiedForm(t, pre, word, gap, [], [], [])
    case Optional => exists pre, word, gap, con :: IdentifiedForm(t, pre, word, gap, con, [], [])
    case AtValue =>
      || (exists pre, word, seps :: PasswordForm(t, pre, word, seps))
      || exists pre, word, gap, con, opt, seps :: IdentifiedForm(t, pre, word, gap, con, opt, seps)
  }

  lemma KwWord(prev: bool, s: string, kw: string, pre: string)
    requires Kw(prev, s, kw) && prev == EndsInWord(false, pre)
    ensures Begins(pre, s[..|kw|], kw)
  {
  }

  lemma OutsideReaches(t: string, prev: bool, s: string)
    requires s != [] && prev == EndsInWord(false, t)
    ensures var a := StepOutside(prev, s); a.Emit? && a.seg.Copied? && Reached(a.next.mode, t + a.seg.text)
  {
    hide Spells;
    if Kw(prev, s, "IDENTIFIED") {
      KwWord(prev, s, "IDENTIFIED", t);
      assert IdentifiedForm(t + s[..10], t, s[..10], [], [], [], []);
    } else if Kw(prev, s, "OLD_PASSWORD") {
      KwWord(prev, s, "OLD_PASSWORD", t);
      assert PasswordForm(t + s[..12], t, s[..12], []);
    } else if Kw(prev, s, "PASSWORD") {
      KwWord(prev, s, "PASSWORD", t);
      assert PasswordForm(t + s[..8], t, s[..8], []);
    }
  }

  lemma KwIsConnector(prev: bool, s: string, kw: string)
    requires Kw(prev, s, kw) && (kw == "BY" || kw == "AS" || kw == "USING")
    ensures IsConnector(s[..|kw|])
  {
  }

  lemma ConnectingReaches(t: string, prev: bool, s: string)
    requires s != [] && Reached(Connecting, t)
    ensures var a := StepConnecting(prev, s);
            if a.Goto? then Reached(a.next.mode, t) else a.seg.Copied? && Reached(a.next.mode, t + a.seg.text)
  {
    hide Spells, IsConnector, Begins;
    var pre, word, gap :| IdentifiedForm(t, pre, word, gap, [], [], []);
    var a := StepConnecting(prev, s);
    if a.Goto? {
      assert IdentifiedForm(t, pre, word, gap, [], [], []);
    } else if a.next.mode == Optional {
      var con := a.seg.text;
      if Kw(prev, s, "BY") {
        KwIsConnector(prev, s, "BY");
      } else if Kw(prev, s, "AS") {
        KwIsConnector(prev, s, "AS");
      } else {
        KwIsConnector(prev, s, "USING");
      }
      assert IdentifiedForm(t + con, pre, word, gap, con, [], []);
    } else {
      assert t + s[..1] == pre + word + (gap + s[..1]) + [] + [] + [];
      assert IdentifiedForm(t + s[..1], pre, word, gap + s[..1], [], [], []);
    }
  }

  lemma OptionalReaches(t: string, prev: bool, s: string)
    requires s != [] && Reached(Optional, t)
    ensures var a := StepOptional(prev, s);
            if a.Goto? then Reached(a.next.mode, t) else a.seg.Copied? && Reached(a.next.mode, t + a.seg.text)
  {
    hide IsConnector, Begins, SpaceLen;
    var pre, word, gap, con :| IdentifiedForm(t, pre, word, gap, con, [], []);
    var a := StepOptional(prev, s);
    if a.Goto? {
      assert IdentifiedForm(t, pre, word, gap, con, [], []);
    } else {
      var opt, j := a.seg.text, SpaceLen(s);
      assert opt == s[..j + 8] && opt[j..] == s[j..][..8] && opt[..j] == s[..j];
      assert IdentifiedForm(t + opt, pre, word, gap, con, opt, []);
    }
  }

  lemma SeparatorReaches(t: string, c: char)
    requires Reached(AtValue, t) && IsSeparator(c)
    ensures Reached(AtValue, t + [c])
  {
    hide IsConnector, Begins, IsOption;
    if pre, word, seps :| PasswordForm(t, pre, word, seps) {
      assert t + [c] == pre + word + (seps + [c]);
      assert PasswordForm(t + [c], pre, word, seps + [c]);
    } else {
      var pre, word, gap, con, opt, seps :| IdentifiedForm(t, pre, word, gap, con, opt, seps);
      assert t + [c] == pre + word + gap + con + opt + (seps + [c]);
      assert IdentifiedForm(t + [c], pre, word, gap, con, opt, seps + [c]);
    }
  }

  lemma ValueReaches(t: string, prev: bool, s: string)
    requires s != [] && Reached(AtValue, t)
    ensures var a := StepValue(prev, s);
            if a.Goto? then a.next.mode == Outside
            else if a.seg.Copied? then Reached(a.next.mode, t + a.seg.text)
            else a.next == State(Outside, a.seg.Hex?)
  {
    hide Reached, BodyLen, HexLen, BodyOk, AllHex;
    if IsSeparator(s[0]) {
      SeparatorReaches(t, s[0]);
      assert s[..1] == [s[0]];
    }
  }

  lemma StepReaches(st: State, t: string, s: string)
    requires s != [] && Reached(st.mode, t) && st.prev == EndsInWord(false, t)
    ensures var a := Step(st, s);
            if a.Goto? then Reached(a.next.mode, t)
            else if a.seg.Copied? then Reached(a.next.mode, t + a.seg.text)
            else st.mode == AtValue && a.next == State(Outside, a.seg.Hex?)
  {
    hide StepOutside, StepConnecting, StepOptional, StepValue;
    match st.mode {
      case Outside => OutsideReaches(t, st.prev, s);
      case Connecting => ConnectingReaches(t, st.prev, s);
      case Optional => OptionalReaches(t, st.prev, s);
      case AtValue => ValueReaches(t, st.prev, s);
    }
  }

  /** The k-th segment of `gs`, read behind `t`, is a literal in one of the forms, and what
      follows it is read as ordinary text. */
  ghost predicate InForm(t: string, gs: seq<Segment>, k: nat)
    requires k < |gs|
  {
    && Reached(AtValue, t + Unparse(gs[..k]))
    && gs[k + 1..] == Cuts(Outside, gs[k].Hex?, Unparse(gs[k + 1..]))
  }

  lemma {:induction false} ScanIsInForm(st: State, t: string, s: string, k: nat)
    requires Reached(st.mode, t) && (s != [] ==> st.prev == EndsInWord(false, t))
    requires k < |Scan(st, s)| && !Scan(st, s)[k].Copied?
    ensures InForm(t, Scan(st, s), k)
    decreases |s|, st.mode.Rank()
  {
    hide Step, Reached, Unparse;
    StepReaches(st, t, s);
    match Step(st, s) {
      case Goto(next) => ScanIsInForm(next, t, s, k);
      case Emit(g, next) =>
        var n := |g.Raw()|;
        var rest := s[n..];
        var gs := Scan(next, rest);
        assert Scan(st, s) == [g] + gs;
        ScanCovers(next, rest);
        UnparseEmpty();
        if k == 0 {
          assert ([g] + gs)[..0] == [] && ([g] + gs)[1..] == gs && t + [] == t;
        } else {
          EmptyScan(next, rest);
          NextIsReady(st, t, s, g, next);
          ScanIsInForm(next, t + g.Raw(), rest, k - 1);
          FormShifts(t, g, gs, k);
        }
    }
  }

  /** What holds behind an emitted segment. */
  lemma NextIsReady(st: State, t: string, s: string, g: Segment, next: State)
    requires s != [] && Step(st, s) == Emit(g, next) && Reached(st.mode, t) && st.prev == EndsInWord(false, t)
    ensures 0 < |g.Raw()| <= |s| && Reached(next.mode, t + g.Raw())
    ensures |g.Raw()| < |s| ==> next.prev == EndsInWord(false, t + g.Raw())
  {
    hide Step, Reached;
    StepReaches(st, t, s);
    assert Sound(st, s, Step(st, s));
    var n := |g.Raw()|;
    assert g.Raw()[n - 1] == s[n - 1] && (t + g.Raw())[|t| + n - 1] == g.Raw()[n - 1];
    NextReached(g, next, t);
  }

  lemma EmptyScan(st: State, s: string)
    ensures s == [] ==> Scan(st, s) == []
  {
  }

  lemma NextReached(g: Segment, next: State, t: string)
    requires if g.Copied? then Reached(next.mode, t + g.text) else next.mode == Outside
    ensures Reached(next.mode, t + g.Raw())
  {
  }

  lemma FormShifts(t: string, g: Segment, gs: seq<Segment>, k: nat)
    requires 0 < k <= |gs| && InForm(t + g.Raw(), gs, k - 1)
    ensures InForm(t, [g] + gs, k)
  {
    hide Reached, Unparse, Cuts;
    var all := [g] + gs;
    assert all[..k] == [g] + gs[..k - 1] && all[k + 1..] == gs[k..];
    ConsSegment(g, gs[..k - 1]);
    Concat3(t, g.Raw(), Unparse(gs[..k - 1]));
  }

  /** Every literal segment of every query stands behind a trigger word, with nothing but
      what its form allows in between, and the text behind it is read afresh. */
  lemma EveryLiteralHasItsClause(query: string, k: nat)
    requires k < |Segments(query)| && !Segments(query)[k].Copied?
    ensures var gs := Segments(query);
            && query == Unparse(gs[..k]) + (gs[k].Raw() + Unparse(gs[k + 1..]))
            && Reached(AtValue, Unparse(gs[..k]))
            && gs[k + 1..] == Cuts(Outside, gs[k].Hex?, Unparse(gs[k + 1..]))
  {
    hide Scan, Unparse, Render;
    var gs := Segments(query);
    ScanIsInForm(State(Outside, false), [], query, k);
    ScanCovers(State(Outside, false), query);
    assert gs == gs[..k] + ([gs[k]] + gs[k + 1..]);
    UnparseConcat(gs[..k], [gs[k]] + gs[k + 1..]);
    ConsSegment(gs[k], gs[k + 1..]);
    assert [] + Unparse(gs[..k]) == Unparse(gs[..k]);
  }

  // ---- other words ----

  lemma {:induction false} InsideAWord(w: string, rest: string)
    requires forall c <- w :: IsIdent(c)
    ensures Quiet(true, w, rest)
    decreases w
  {
    hide Spells;
    if w != [] {
      assert w[0] in w && forall c <- w[1..] :: c in w;
      assert !Trigger(true, w + rest) by { NoTriggerInside(w + rest); }
      InsideAWord(w[1..], rest);
    }
  }

  lemma NoTriggerInside(s: string)
    ensures !Trigger(true, s)
  {
  }

  lemma WholeWordOnly(w: string, rest: string, kw: string)
    requires (forall c <- w :: IsIdent(c)) && (rest != [] ==> !IsIdent(rest[0])) && Kw(false, w + rest, kw)
    requires kw != [] && forall c <- kw :: IsUpper(c) || c == '_'
    ensures Upper(w) == kw
  {
    var s := w + rest;
    assert forall i :: 0 <= i < |w| ==> s[i] == w[i] && w[i] in w;
    assert forall i :: 0 <= i < |kw| ==> Upper(s[..|kw|])[i] == ToUpper(s[i]) && kw[i] in kw;
    assert |w| < |s| ==> s[|w|] == rest[0];
    assert |kw| == |w| ==> s[..|kw|] == w;
  }

  lemma TriggerBytes()
    ensures forall c <- "IDENTIFIED" :: IsUpper(c) || c == '_'
    ensures forall c <- "OLD_PASSWORD" :: IsUpper(c) || c == '_'
    ensures forall c <- "PASSWORD" :: IsUpper(c) || c == '_'
  {
  }

  /** A word is a trigger as a whole or not at all: any other word, one that merely begins or
      ends with a trigger included, is copied and arms nothing. */
  lemma OtherWordsAreCopied(w: string, rest: string)
    requires w != [] && (forall c <- w :: IsIdent(c)) && (rest != [] ==> !IsIdent(rest[0]))
    requires Upper(w) != "IDENTIFIED" && Upper(w) != "OLD_PASSWORD" && Upper(w) != "PASSWORD"
    ensures Cut(Cuts(Outside, false, w + rest), w, Cuts(Outside, true, rest))
  {
    hide Cut, Cuts, Spells, Upper;
    TriggerBytes();
    assert w[0] in w && (forall c <- w[1..] :: c in w) && w[|w| - 1] in w;
    assert !Trigger(false, w + rest) by {
      if Kw(false, w + rest, "IDENTIFIED") {
        WholeWordOnly(w, rest, "IDENTIFIED");
      }
      if Kw(false, w + rest, "OLD_PASSWORD") {
        WholeWordOnly(w, rest, "OLD_PASSWORD");
      }
      if Kw(false, w + rest, "PASSWORD") {
        WholeWordOnly(w, rest, "PASSWORD");
      }
    }
    InsideAWord(w[1..], rest);
    QuietIsCopied(false, w, rest);
  }
}

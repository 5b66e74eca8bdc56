/** What masking guarantees, for every query. */
module MaskerTheorems {
  import opened Bytes
  import opened Masker

  // ---- the segments cover the query, and the output is bounded ----

  lemma {:induction false} ScanCovers(st: State, s: string)
    ensures Unparse(Scan(st, s)) == s
    ensures forall g <- Scan(st, s) :: g.WellFormed()
    decreases |s|, st.mode.Rank()
  {
    hide Step, Unparse;
    if s == [] {
      UnparseEmpty();
    } else {
      match Step(st, s) {
        case Goto(next) => ScanCovers(next, s);
        case Emit(g, next) =>
          var rest := s[|g.Raw()|..];
          ScanCovers(next, rest);
          ConsSegment(g, Scan(next, rest));
          assert s == g.Raw() + rest;
      }
    }
  }

  lemma UnparseEmpty()
    ensures Unparse([]) == "" && Render([]) == ""
  {
  }

  /** Bytes already paid towards the next literal: the keyword that opened the clause. */
  function Paid(mode: Mode): nat { if mode == Outside then 0 else 8 }

  /** Growth is paid for: a literal adds three bytes at most, stands behind a keyword of
      at least eight bytes, and its own opening byte is the ninth. */
  function Allowance(mode: Mode, n: nat): nat { n + 3 * ((n + Paid(mode)) / 9) }

  ghost predicate PaidFor(mode: Mode, n: nat, a: Action) {
    match a
    case Goto(next) => Allowance(next.mode, n) <= Allowance(mode, n)
    case Emit(g, next) =>
      |g.Raw()| <= n && |g.Redacted()| + Allowance(next.mode, n - |g.Raw()|) <= Allowance(mode, n)
  }

  lemma CopyPaid(mode: Mode, s: string, n: nat, next: Mode)
    requires 0 < n <= |s| && Paid(next) <= Paid(mode) + n
    ensures PaidFor(mode, |s|, Copy(s, n, next))
  {
    assert |s| - n + Paid(next) <= |s| + Paid(mode);
  }

  lemma LiteralPaid(s: string, g: Segment, prev: bool)
    requires 0 < |g.Raw()| <= |s| && |g.Redacted()| <= |g.Raw()| + 3
    ensures PaidFor(AtValue, |s|, Emit(g, State(Outside, prev)))
  {
    assert (|s| + 8) / 9 >= (|s| - |g.Raw()| + 9) / 9 == (|s| - |g.Raw()|) / 9 + 1;
  }

  lemma ClauseGrowth(prev: bool, s: string)
    requires s != []
    ensures PaidFor(Outside, |s|, StepOutside(prev, s))
    ensures PaidFor(Connecting, |s|, StepConnecting(prev, s))
  {
    hide Spells, PaidFor;
    var out, con := StepOutside(prev, s), StepConnecting(prev, s);
    CopyPaid(Outside, s, |out.seg.text|, out.next.mode);
    if con.Emit? {
      CopyPaid(Connecting, s, |con.seg.text|, con.next.mode);
    } else {
      GotoPaid(Connecting, con.next, |s|);
    }
  }

  lemma GotoPaid(mode: Mode, next: State, n: nat)
    requires Paid(next.mode) <= Paid(mode)
    ensures PaidFor(mode, n, Goto(next))
  {
    assert n + Paid(next.mode) <= n + Paid(mode);
  }

  lemma ValueGrowth(prev: bool, s: string)
    requires s != []
    ensures PaidFor(Optional, |s|, StepOptional(prev, s))
    ensures PaidFor(AtValue, |s|, StepValue(prev, s))
  {
    hide Spells, BodyLen, HexLen, SpaceLen, BodyOk, AllHex, PaidFor;
    var opt, val := StepOptional(prev, s), StepValue(prev, s);
    if opt.Goto? {
      GotoPaid(Optional, opt.next, |s|);
    } else {
      CopyPaid(Optional, s, |opt.seg.text|, AtValue);
    }
    if val.Goto? {
      GotoPaid(AtValue, val.next, |s|);
    } else if val.seg.Copied? {
      CopyPaid(AtValue, s, 1, AtValue);
    } else {
      LiteralPaid(s, val.seg, val.next.prev);
    }
  }

  lemma StepGrowth(st: State, s: string)
    requires s != []
    ensures PaidFor(st.mode, |s|, Step(st, s))
  {
    hide PaidFor, StepOutside, StepConnecting, StepOptional, StepValue;
    ClauseGrowth(st.prev, s);
    ValueGrowth(st.prev, s);
  }

  lemma {:induction false} ScanGrowth(st: State, s: string)
    ensures |Render(Scan(st, s))| <= Allowance(st.mode, |s|)
    decreases |s|, st.mode.Rank()
  {
    hide Step, Render, Allowance;
    if s == [] {
      UnparseEmpty();
    } else {
      StepGrowth(st, s);
      match Step(st, s) {
        case Goto(next) => ScanGrowth(next, s);
        case Emit(g, next) =>
          ScanGrowth(next, s[|g.Raw()|..]);
          ConsSegment(g, Scan(next, s[|g.Raw()|..]));
      }
    }
  }

  lemma {:induction false} RenderCopies(gs: seq<Segment>)
    requires !HasLiteral(gs)
    ensures Render(gs) == Unparse(gs)
  {
    if gs != [] {
      assert gs == [gs[0]] + gs[1..];
      ConsSegment(gs[0], gs[1..]);
      RenderCopies(gs[1..]);
    }
  }

  /** The segmentation theorem: a query is the concatenation of its segments, its masked
      form is the same concatenation with the literal bodies redacted, a query without a
      credential literal comes back unchanged, and the output is bounded. */
  lemma MaskingSplitsTheQuery(query: string)
    ensures Unparse(Segments(query)) == query
    ensures forall g <- Segments(query) :: g.WellFormed()
    ensures !HasLiteral(Segments(query)) ==> Render(Segments(query)) == query
    ensures |Render(Segments(query))| <= |query| + 3 * (|query| / 9)
  {
    hide Scan, HasLiteral, Render, Unparse;
    ScanCovers(State(Outside, false), query);
    ScanGrowth(State(Outside, false), query);
    if !HasLiteral(Segments(query)) {
      RenderCopies(Segments(query));
    }
  }

  // ---- non-interference ----

  /** Same text, or a literal of the same form with any other body of that form. */
  predicate Alike(g: Segment, h: Segment) {
    match (g, h)
    case (Copied(x), Copied(y)) => x == y
    case (Quoted(q, _, c), Quoted(r, body, d)) => IsQuote(q) && q == r && c == d && BodyOk(body, r, d)
    case (Hex(m, _), Hex(n, body)) => (m == 'x' || m == 'X') && m == n && AllHex(body)
    case _ => false
  }

  predicate AllAlike(gs: seq<Segment>, hs: seq<Segment>) {
    |gs| == |hs| && forall k :: 0 <= k < |gs| ==> Alike(gs[k], hs[k])
  }

  /** A prefix that ends where a literal begins: in a quote, or in 0x. */
  predicate Stops(p: string) {
    && p != []
    && (IsQuote(p[|p| - 1]) || (|p| > 1 && StartsHex(p[|p| - 2..])))
  }

  predicate AgreeTo(s: string, t: string, n: nat) {
    0 < n <= |s| && n <= |t| && s[..n] == t[..n] && Stops(s[..n])
  }

  /** Equal, or equal up to and including the opening of a literal. */
  ghost predicate Agree(s: string, t: string) {
    s == t || exists n: nat :: AgreeTo(s, t, n)
  }

  lemma AgreeBehind(x: string, s: string, t: string)
    requires Agree(s, t)
    ensures Agree(x + s, x + t)
  {
    if s != t {
      var n: nat :| AgreeTo(s, t, n);
      assert (x + s)[..|x| + n] == x + s[..n];
      assert (x + t)[..|x| + n] == x + t[..n];
      StopsBehind(x, s[..n]);
      assert AgreeTo(x + s, x + t, |x| + n);
    }
  }

  lemma StopsBehind(x: string, p: string)
    requires Stops(p)
    ensures Stops(x + p)
  {
    assert |p| > 1 ==> (x + p)[|x + p| - 2..] == p[|p| - 2..];
  }

  lemma AgreeLiterals(g: Segment, h: Segment, u: string, v: string)
    requires Alike(g, h) && !g.Copied?
    ensures Agree(g.Raw() + u, h.Raw() + v)
  {
    var s, t := g.Raw() + u, h.Raw() + v;
    if g.Quoted? {
      assert s[..1] == [g.quote] && t[..1] == [g.quote];
      assert AgreeTo(s, t, 1);
    } else {
      assert s[..2] == ['0', g.mark] && t[..2] == ['0', g.mark];
      assert s[..2][0..] == s[..2];
      assert AgreeTo(s, t, 2);
    }
  }

  lemma {:induction false} UnparseAgrees(gs: seq<Segment>, hs: seq<Segment>)
    requires AllAlike(gs, hs)
    ensures Agree(Unparse(gs), Unparse(hs))
  {
    hide Agree, BodyOk, AllHex;
    if gs == [] {
      AgreeSame("");
    } else {
      assert Alike(gs[0], hs[0]);
      if gs[0].Copied? {
        UnparseAgrees(gs[1..], hs[1..]);
        AgreeBehind(gs[0].text, Unparse(gs[1..]), Unparse(hs[1..]));
      } else {
        AgreeLiterals(gs[0], hs[0], Unparse(gs[1..]), Unparse(hs[1..]));
      }
    }
  }

  lemma AgreeSame(s: string)
    ensures Agree(s, s)
  {
  }

  lemma KwLetters(prev: bool, s: string, kw: string)
    requires Kw(prev, s, kw)
    ensures forall k :: 0 <= k < |kw| ==> ToUpper(s[k]) == kw[k]
  {
    assert forall k :: 0 <= k < |kw| ==> Upper(s[..|kw|])[k] == ToUpper(s[k]);
  }

  /** Where a literal begins there is a byte that is neither blank nor in a keyword. */
  function StopAt(p: string): (k: nat)
    requires Stops(p)
    ensures k < |p| && !IsSpace(p[k]) && !IsUpper(ToUpper(p[k])) && p[k] != '_'
  {
    if IsQuote(p[|p| - 1]) then |p| - 1 else
      assert p[|p| - 2..][0] == p[|p| - 2];
      |p| - 2
  }

  /** Every test of the scanner gives the same answer on texts that agree. */
  lemma KwOneWay(prev: bool, s: string, t: string, n: nat, kw: string)
    requires AgreeTo(s, t, n) && Kw(prev, s, kw)
    requires forall c <- kw :: IsUpper(c) || c == '_'
    ensures Kw(prev, t, kw)
  {
    var p := StopAt(s[..n]);
    KwLetters(prev, s, kw);
    assert forall k :: 0 <= k < |kw| ==> kw[k] in kw;
    assert |kw| <= p;
    assert s[..n][..|kw|] == s[..|kw|] && t[..n][..|kw|] == t[..|kw|];
    assert s[..n][|kw|] == s[|kw|] && t[..n][|kw|] == t[|kw|];
  }

  lemma KwAgrees(prev: bool, s: string, t: string, kw: string)
    requires Agree(s, t) && forall c <- kw :: IsUpper(c) || c == '_'
    ensures Kw(prev, s, kw) == Kw(prev, t, kw)
  {
    hide Kw, Stops;
    if s != t {
      var n: nat :| AgreeTo(s, t, n);
      assert AgreeTo(t, s, n);
      if Kw(prev, s, kw) {
        KwOneWay(prev, s, t, n, kw);
      }
      if Kw(prev, t, kw) {
        KwOneWay(prev, t, s, n, kw);
      }
    }
  }

  lemma FirstAgrees(s: string, t: string)
    requires Agree(s, t)
    ensures s == [] <==> t == []
    ensures s != [] ==> s[0] == t[0]
    ensures StartsHex(s) == StartsHex(t)
  {
    if s != t {
      var n: nat :| AgreeTo(s, t, n);
      assert s[..n][0] == s[0] && t[..n][0] == t[0];
      if n > 1 {
        assert s[..n][1] == s[1] && t[..n][1] == t[1];
      }
    }
  }

  lemma SpaceLenAgrees(s: string, t: string)
    requires Agree(s, t)
    ensures SpaceLen(s) == SpaceLen(t)
    ensures Agree(s[SpaceLen(s)..], t[SpaceLen(t)..])
    ensures s[..SpaceLen(s)] == t[..SpaceLen(t)]
  {
    hide Stops, StartsHex, SpaceLen;
    if s != t {
      var n: nat :| AgreeTo(s, t, n);
      assert forall i :: 0 <= i < n ==> s[..n][i] == s[i] && t[..n][i] == t[i];
      var j, p := SpaceLen(s), StopAt(s[..n]);
      assert j <= p;
      SpaceLenUnique(t, j);
      AgreeAfter(s, t, n, j);
    }
  }

  lemma AgreeAfter(s: string, t: string, n: nat, j: nat)
    requires AgreeTo(s, t, n) && j <= StopAt(s[..n])
    ensures AgreeTo(s[j..], t[j..], n - j)
  {
    var p := s[..n];
    assert s[j..][..n - j] == p[j..] && t[j..][..n - j] == t[..n][j..];
    assert p[j..][n - j - 1] == p[n - 1];
    if !IsQuote(p[n - 1]) {
      assert p[j..][n - j - 2..] == p[n - 2..];
    }
  }

  // One transition on texts that agree: a change of mode is repeated, and so is a copy of
  // text that both have in common.

  predicate Repeats(a: Action, t: string) { a.Goto? || (a.seg.Copied? && a.seg.text <= t) }

  lemma OutsideRepeats(prev: bool, s: string, t: string)
    requires s != [] && t != [] && Agree(s, t) && Repeats(StepOutside(prev, s), t)
    ensures StepOutside(prev, t) == StepOutside(prev, s)
  {
    hide Spells, Agree;
    KwAgrees(prev, s, t, "IDENTIFIED");
    KwAgrees(prev, s, t, "OLD_PASSWORD");
    KwAgrees(prev, s, t, "PASSWORD");
  }

  lemma ConnectingRepeats(prev: bool, s: string, t: string)
    requires s != [] && t != [] && Agree(s, t) && Repeats(StepConnecting(prev, s), t)
    ensures StepConnecting(prev, t) == StepConnecting(prev, s)
  {
    hide Spells, Agree, StartsHex;
    KwAgrees(prev, s, t, "BY");
    KwAgrees(prev, s, t, "AS");
    KwAgrees(prev, s, t, "USING");
    FirstAgrees(s, t);
  }

  lemma OptionalRepeats(prev: bool, s: string, t: string)
    requires s != [] && t != [] && Agree(s, t) && Repeats(StepOptional(prev, s), t)
    ensures StepOptional(prev, t) == StepOptional(prev, s)
  {
    hide Spells, Agree, SpaceLen;
    SpaceLenAgrees(s, t);
    var j := SpaceLen(s);
    KwAgrees(prev && j == 0, s[j..], t[j..], "PASSWORD");
  }

  lemma ValueRepeats(prev: bool, s: string, t: string)
    requires s != [] && t != [] && Agree(s, t) && Repeats(StepValue(prev, s), t)
    ensures StepValue(prev, t) == StepValue(prev, s)
  {
    hide Agree, StartsHex, BodyLen, HexLen;
    FirstAgrees(s, t);
  }

  lemma StepRepeats(st: State, s: string, t: string)
    requires s != [] && t != [] && Agree(s, t) && Repeats(Step(st, s), t)
    ensures Step(st, t) == Step(st, s)
  {
    hide StepOutside, StepConnecting, StepOptional, StepValue, Agree;
    match st.mode {
      case Outside => OutsideRepeats(st.prev, s, t);
      case Connecting => ConnectingRepeats(st.prev, s, t);
      case Optional => OptionalRepeats(st.prev, s, t);
      case AtValue => ValueRepeats(st.prev, s, t);
    }
  }

  lemma {:induction false} BodyLenOf(body: string, quote: char, tail: string)
    requires IsQuote(quote)
    ensures BodyOk(body, quote, true) ==> BodyLen(body + ([quote] + tail), quote) == |body|
    ensures BodyOk(body, quote, false) ==> BodyLen(body, quote) == |body|
  {
    var s := body + ([quote] + tail);
    if body == [] {
    } else if body[0] == '\\' {
      if |body| > 1 {
        assert s[2..] == body[2..] + ([quote] + tail);
        BodyLenOf(body[2..], quote, tail);
      }
    } else {
      assert s[1..] == body[1..] + ([quote] + tail);
      BodyLenOf(body[1..], quote, tail);
    }
  }

  lemma {:induction false} HexLenOf(body: string, tail: string)
    requires AllHex(body) && (tail != [] ==> !IsHexDigit(tail[0]))
    ensures HexLen(body + tail) == |body|
  {
    if body == [] {
      assert body + tail == tail;
    } else {
      assert body[0] in body;
      assert (body + tail)[1..] == body[1..] + tail;
      HexLenOf(body[1..], tail);
    }
  }

  /** A quoted literal with another body of the same form is read as that literal. */
  lemma QuotedRepeats(prev: bool, h: Segment, v: string)
    requires h.Quoted? && h.WellFormed() && (!h.closed ==> v == [])
    ensures StepValue(prev, h.Raw() + v) == Emit(h, State(Outside, false))
  {
    hide BodyLen, BodyOk, StepValue;
    var rest := if h.closed then h.body + ([h.quote] + v) else h.body;
    BodyLenOf(h.body, h.quote, v);
    QuotedText(prev, h.quote, rest);
    assert h.Raw() + v == [h.quote] + rest;
    assert rest[..|h.body|] == h.body;
  }

  lemma QuotedText(prev: bool, quote: char, rest: string)
    requires IsQuote(quote)
    ensures var n := BodyLen(rest, quote);
            StepValue(prev, [quote] + rest) == Emit(Quoted(quote, rest[..n], n < |rest|), State(Outside, false))
  {
    hide BodyLen;
    var t := [quote] + rest;
    assert t[0] == quote && t[1..] == rest;
  }

  lemma HexRepeats(prev: bool, h: Segment, v: string)
    requires h.Hex? && h.WellFormed() && (v != [] ==> !IsHexDigit(v[0]))
    ensures StepValue(prev, h.Raw() + v) == Emit(h, State(Outside, true))
  {
    hide HexLen, AllHex;
    var t := h.Raw() + v;
    HexLenOf(h.body, v);
    assert t[2..] == h.body + v;
    assert t[2..][..|h.body|] == h.body;
  }

  /** A literal is read only where a value may stand; an open one takes the whole suffix,
      and no hex digit follows a hex literal. */
  lemma LiteralRead(st: State, s: string)
    requires s != [] && Step(st, s).Emit? && !Step(st, s).seg.Copied?
    ensures var g := Step(st, s).seg; var rest := s[|g.Raw()|..];
            st.mode == AtValue
            && (g.Quoted? ==> Step(st, s).next == State(Outside, false) && (!g.closed ==> rest == []))
            && (g.Hex? ==> Step(st, s).next == State(Outside, true) && (rest != [] ==> !IsHexDigit(rest[0])))
  {
    hide Spells, SpaceLen, BodyLen, HexLen, BodyOk, AllHex;
  }

  lemma LiteralRepeats(st: State, s: string, h: Segment, v: string)
    requires s != [] && Step(st, s).Emit? && !Step(st, s).seg.Copied? && Alike(Step(st, s).seg, h)
    requires Agree(s[|Step(st, s).seg.Raw()|..], v)
    ensures Step(st, h.Raw() + v) == Emit(h, Step(st, s).next)
  {
    hide StepValue, StepOutside, StepConnecting, StepOptional, BodyOk, AllHex, Agree;
    LiteralRead(st, s);
    FirstAgrees(s[|Step(st, s).seg.Raw()|..], v);
    if h.Quoted? {
      QuotedRepeats(st.prev, h, v);
    } else {
      HexRepeats(st.prev, h, v);
    }
  }

  lemma {:induction false} ScanRepeats(st: State, s: string, hs: seq<Segment>)
    requires AllAlike(Scan(st, s), hs)
    ensures Scan(st, Unparse(hs)) == hs
    decreases |s|, st.mode.Rank()
  {
    hide Step, Agree, Unparse, Alike;
    var gs, t := Scan(st, s), Unparse(hs);
    if s == [] {
      UnparseEmpty();
      return;
    }
    UnparseAgrees(gs, hs);
    ScanCovers(st, s);
    FirstAgrees(s, t);
    match Step(st, s) {
      case Goto(next) =>
        StepRepeats(st, s, t);
        ScanRepeats(next, s, hs);
      case Emit(g, next) =>
        var rest, h := s[|g.Raw()|..], hs[0];
        assert gs == [g] + Scan(next, rest);
        assert Alike(gs[0], h);
        AlikeTails(gs, hs);
        assert gs[1..] == Scan(next, rest);
        ScanRepeats(next, rest, hs[1..]);
        ConsSegment(h, hs[1..]);
        assert hs == [h] + hs[1..] && t == h.Raw() + Unparse(hs[1..]);
        EmitRepeats(st, s, h, Unparse(hs[1..]), gs[1..], hs[1..]);
        assert t[|h.Raw()|..] == Unparse(hs[1..]);
    }
  }

  lemma AlikeTails(gs: seq<Segment>, hs: seq<Segment>)
    requires AllAlike(gs, hs) && gs != []
    ensures AllAlike(gs[1..], hs[1..])
  {
    hide Alike;
  }

  lemma EmitRepeats(st: State, s: string, h: Segment, v: string, gs: seq<Segment>, hs: seq<Segment>)
    requires s != [] && Step(st, s).Emit? && Alike(Step(st, s).seg, h)
    requires gs == Scan(Step(st, s).next, s[|Step(st, s).seg.Raw()|..]) && AllAlike(gs, hs) && v == Unparse(hs)
    ensures Step(st, h.Raw() + v) == Emit(h, Step(st, s).next)
  {
    hide Step, Scan, Unparse, Agree, BodyOk, AllHex;
    var g := Step(st, s).seg;
    var rest := s[|g.Raw()|..];
    ScanCovers(Step(st, s).next, rest);
    UnparseAgrees(gs, hs);
    assert s == g.Raw() + rest;
    if g.Copied? {
      AgreeBehind(g.text, rest, v);
      StepRepeats(st, s, h.Raw() + v);
    } else {
      LiteralRepeats(st, s, h, v);
    }
  }

  /** Non-interference. Take any query, cut it into segments, and replace the body of any
      number of its masked literals by other bodies of the same form: the new query is cut
      at the same places, and its masked text and the masked flag are the same. */
  lemma MaskingIsNonInterfering(query: string, hs: seq<Segment>)
    requires AllAlike(Segments(query), hs)
    ensures Segments(Unparse(hs)) == hs
    ensures Render(Segments(Unparse(hs))) == Render(Segments(query))
    ensures HasLiteral(Segments(Unparse(hs))) == HasLiteral(Segments(query))
  {
    hide Scan, Render, Alike;
    ScanRepeats(State(Outside, false), query, hs);
    RenderAlike(Segments(query), hs);
  }

  lemma {:induction false} RenderAlike(gs: seq<Segment>, hs: seq<Segment>)
    requires AllAlike(gs, hs)
    ensures Render(gs) == Render(hs)
    ensures HasLiteral(gs) == HasLiteral(hs)
  {
    hide BodyOk, AllHex;
    if gs != [] {
      assert Alike(gs[0], hs[0]);
      AlikeTails(gs, hs);
      RenderAlike(gs[1..], hs[1..]);
      assert gs == [gs[0]] + gs[1..] && hs == [hs[0]] + hs[1..];
      ConsSegment(gs[0], gs[1..]);
      ConsSegment(hs[0], hs[1..]);
    }
  }
}

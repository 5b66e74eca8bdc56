/** Credential masking (`mask_secrets` and its helpers in core/filter_engine.cc).

The specification cuts a query into segments: text that is copied and literals that are
redacted. It is a transition system that reads the query as a suffix plus one bit, whether
the previous byte was part of a word; that bit and the suffix are all the scanner ever
looks at. */
module Masker {
  import opened Bytes

  // ---- what a query is cut into ----

  datatype Segment =
    | Copied(text: string)
    | Quoted(quote: char, body: string, closed: bool)
    | Hex(mark: char, body: string)
  {
    function Raw(): string {
      match this
      case Copied(text) => text
      case Quoted(quote, body, closed) => [quote] + body + (if closed then [quote] else [])
      case Hex(mark, body) => ['0', mark] + body
    }

    function Redacted(): string {
      match this
      case Copied(text) => text
      case Quoted(quote, _, closed) => [quote] + "***" + (if closed then [quote] else [])
      case Hex(_, _) => "0x***"
    }

    predicate WellFormed() {
      match this
      case Copied(_) => true
      case Quoted(quote, body, closed) => IsQuote(quote) && BodyOk(body, quote, closed)
      case Hex(mark, body) => (mark == 'x' || mark == 'X') && AllHex(body)
    }
  }

  function Unparse(gs: seq<Segment>): string {
    if gs == [] then [] else gs[0].Raw() + Unparse(gs[1..])
  }

  function Render(gs: seq<Segment>): string {
    if gs == [] then [] else gs[0].Redacted() + Render(gs[1..])
  }

  predicate HasLiteral(gs: seq<Segment>) {
    exists g <- gs :: !g.Copied?
  }

  predicate IsQuote(c: char) { c == '\'' || c == '"' }

  predicate IsSeparator(c: char) { IsSpace(c) || c == '(' || c == '=' }

  predicate IsHexDigit(c: char) { IsDigit(c) || 'a' <= c <= 'f' || 'A' <= c <= 'F' }

  /** A quoted body: no unescaped closing quote. A body that runs to the end of the query
      may end in a lone backslash; a closed one cannot. */
  predicate BodyOk(body: string, quote: char, closed: bool)
  {
    if body == [] then true
    else if body[0] == '\\' then
      if |body| == 1 then !closed else BodyOk(body[2..], quote, closed)
    else body[0] != quote && BodyOk(body[1..], quote, closed)
  }

  predicate AllHex(body: string) { forall c <- body :: IsHexDigit(c) }

  // ---- the pieces the scanner recognises at the head of a suffix ----

  /** `kw` stands at the head of `s` as a whole word. */
  predicate Kw(prev: bool, s: string, kw: string) { |kw| <= |s| && Spells(prev, s, kw) }

  predicate Spells(prev: bool, s: string, kw: string)
    requires |kw| <= |s|
  {
    && Upper(s[..|kw|]) == kw
    && !prev
    && (|kw| < |s| ==> !IsIdent(s[|kw|]))
  }

  /** Length of a quoted body: up to the closing quote, or all of `s`. */
  function BodyLen(s: string, quote: char): (n: nat)
    ensures n <= |s|
    ensures n < |s| ==> s[n] == quote
    ensures BodyOk(s[..n], quote, n < |s|)
  {
    if s == [] then 0
    else if s[0] == '\\' && |s| > 1 then
      var n := 2 + BodyLen(s[2..], quote);
      assert s[..n][2..] == s[2..][..n - 2];
      n
    else if s[0] == quote then 0
    else
      var n := 1 + BodyLen(s[1..], quote);
      assert s[..n][1..] == s[1..][..n - 1];
      n
  }

  function HexLen(s: string): (n: nat)
    ensures n <= |s|
    ensures AllHex(s[..n])
    ensures n < |s| ==> !IsHexDigit(s[n])
  {
    if s == [] || !IsHexDigit(s[0]) then 0
    else
      var n := 1 + HexLen(s[1..]);
      assert s[..n] == [s[0]] + s[1..][..n - 1];
      n
  }

  predicate StartsHex(s: string) { |s| > 1 && s[0] == '0' && (s[1] == 'x' || s[1] == 'X') }

  predicate StartsLiteral(s: string) { |s| > 0 && (IsQuote(s[0]) || StartsHex(s)) }

  // ---- the transition system ----

  /** Outside any clause; after IDENTIFIED, looking for BY, AS, USING or a literal; at the
      optional PASSWORD of such a clause; where a credential value may stand. */
  datatype Mode = Outside | Connecting | Optional | AtValue
  {
    function Rank(): nat {
      match this case Outside => 0 case AtValue => 1 case Optional => 2 case Connecting => 3
    }
  }

  datatype State = State(mode: Mode, prev: bool)

  /** Emit a segment and move past it, or change mode in place. */
  datatype Action = Emit(seg: Segment, next: State) | Goto(next: State)

  /** What any action must satisfy: an emitted segment is a nonempty, well-formed head of
      the suffix and leaves the word bit right; a change in place goes down in rank. */
  predicate Sound(st: State, s: string, a: Action) {
    match a
    case Goto(next) => next.mode.Rank() < st.mode.Rank() && next.prev == st.prev
    case Emit(g, next) =>
      && 0 < |g.Raw()| && g.Raw() <= s && g.WellFormed()
      && (|g.Raw()| < |s| ==> next.prev == IsIdent(s[|g.Raw()| - 1]))
  }

  function Copy(s: string, n: nat, mode: Mode): (a: Action)
    requires 0 < n <= |s|
    ensures forall st :: Sound(st, s, a)
  {
    Emit(Copied(s[..n]), State(mode, IsIdent(s[n - 1])))
  }

  function StepOutside(prev: bool, s: string): (a: Action)
    requires s != []
    ensures Sound(State(Outside, prev), s, a)
  {
    if Kw(prev, s, "IDENTIFIED") then Copy(s, 10, Connecting)
    else if Kw(prev, s, "OLD_PASSWORD") then Copy(s, 12, AtValue)
    else if Kw(prev, s, "PASSWORD") then Copy(s, 8, AtValue)
    else Copy(s, 1, Outside)
  }

  function StepConnecting(prev: bool, s: string): (a: Action)
    requires s != []
    ensures Sound(State(Connecting, prev), s, a)
  {
    if Kw(prev, s, "BY") then Copy(s, 2, Optional)
    else if Kw(prev, s, "AS") then Copy(s, 2, Optional)
    else if Kw(prev, s, "USING") then Copy(s, 5, Optional)
    else if StartsLiteral(s) then Goto(State(Optional, prev))
    else Copy(s, 1, Connecting)
  }

  function StepOptional(prev: bool, s: string): (a: Action)
    requires s != []
    ensures Sound(State(Optional, prev), s, a)
  {
    var j := SpaceLen(s);
    if Kw(prev && j == 0, s[j..], "PASSWORD") then Copy(s, j + 8, AtValue)
    else Goto(State(AtValue, prev))
  }

  function EmitQuoted(s: string): (a: Action)
    requires s != [] && IsQuote(s[0])
    ensures forall st :: Sound(st, s, a)
  {
    var n := BodyLen(s[1..], s[0]);
    var g := Quoted(s[0], s[1..][..n], 1 + n < |s|);
    assert g.Raw() == s[..|g.Raw()|];
    Emit(g, State(Outside, false))
  }

  function EmitHex(s: string): (a: Action)
    requires StartsHex(s)
    ensures forall st :: Sound(st, s, a)
  {
    var n := HexLen(s[2..]);
    var g := Hex(s[1], s[2..][..n]);
    assert g.Raw() == s[..2 + n];
    assert n > 0 ==> s[1 + n] in s[2..][..n] by {
      assert n > 0 ==> s[2..][..n][n - 1] == s[1 + n];
    }
    Emit(g, State(Outside, true))
  }

  function StepValue(prev: bool, s: string): (a: Action)
    requires s != []
    ensures Sound(State(AtValue, prev), s, a)
  {
    if IsSeparator(s[0]) then Copy(s, 1, AtValue)
    else if IsQuote(s[0]) then EmitQuoted(s)
    else if StartsHex(s) then EmitHex(s)
    else Goto(State(Outside, prev))
  }

  function Step(st: State, s: string): (a: Action)
    requires s != []
    ensures Sound(st, s, a)
  {
    match st.mode
    case Outside => StepOutside(st.prev, s)
    case Connecting => StepConnecting(st.prev, s)
    case Optional => StepOptional(st.prev, s)
    case AtValue => StepValue(st.prev, s)
  }

  function Scan(st: State, s: string): seq<Segment>
    decreases |s|, st.mode.Rank()
  {
    if s == [] then [] else
      match Step(st, s)
      case Goto(next) => Scan(next, s)
      case Emit(g, next) => [g] + Scan(next, s[|g.Raw()|..])
  }

  function Segments(query: string): seq<Segment> { Scan(State(Outside, false), query) }

  // ---- the code ----

  predicate PrevIdent(q: string, i: nat)
    requires i <= |q|
  {
    i > 0 && IsIdent(q[i - 1])
  }

  /** The segments still to come when the scanner stands at index `i` in `mode`. */
  ghost function Todo(q: string, i: nat, mode: Mode): seq<Segment>
    requires i <= |q|
  {
    Scan(State(mode, PrevIdent(q, i)), q[i..])
  }

  ghost function ActionAt(q: string, i: nat, mode: Mode): Action
    requires i < |q|
  {
    Step(State(mode, PrevIdent(q, i)), q[i..])
  }

  /** `out` and `masked` are what the whole query yields, up to the segments `todo`. */
  ghost predicate Yields(out: string, masked: bool, todo: seq<Segment>, q: string)
  {
    && out + Render(todo) == Render(Segments(q))
    && (masked || HasLiteral(todo) <==> HasLiteral(Segments(q)))
  }

  lemma ConsSegment(g: Segment, gs: seq<Segment>)
    ensures Unparse([g] + gs) == g.Raw() + Unparse(gs)
    ensures Render([g] + gs) == g.Redacted() + Render(gs)
    ensures HasLiteral([g] + gs) <==> !g.Copied? || HasLiteral(gs)
  {
    assert ([g] + gs)[1..] == gs;
    assert g in [g] + gs;
    assert forall h <- gs :: h in [g] + gs;
  }

  ghost predicate Emits(q: string, i: nat, mode: Mode, g: Segment, next: Mode) {
    i < |q| && ActionAt(q, i, mode).Emit? && ActionAt(q, i, mode).seg == g && ActionAt(q, i, mode).next.mode == next
  }

  lemma TodoEmits(q: string, i: nat, mode: Mode, g: Segment, next: Mode)
    requires Emits(q, i, mode, g, next)
    ensures i < i + |g.Raw()| <= |q| && g.Raw() == q[i..i + |g.Raw()|]
    ensures Todo(q, i, mode) == [g] + Todo(q, i + |g.Raw()|, next)
  {
    hide Step, BodyOk, AllHex, IsIdent, ToUpper;
    assert Sound(State(mode, PrevIdent(q, i)), q[i..], ActionAt(q, i, mode));
    var n := |g.Raw()|;
    var j := i + n;
    assert g.Raw() <= q[i..];
    assert q[i..][..n] == q[i..j];
    assert q[i..][n..] == q[j..];
    var after := ActionAt(q, i, mode).next;
    if j == |q| {
      ScanEmpty(after, q[j..]);
      ScanEmpty(State(next, PrevIdent(q, j)), q[j..]);
    } else {
      assert after == State(next, PrevIdent(q, j));
    }
  }

  /** One emitted segment: what the code appends, and where it then stands. */
  lemma Advance(q: string, i: nat, mode: Mode, g: Segment, next: Mode, out: string, masked: bool)
    requires Emits(q, i, mode, g, next) && Yields(out, masked, Todo(q, i, mode), q)
    ensures i < i + |g.Raw()| <= |q| && g.Raw() == q[i..i + |g.Raw()|]
    ensures Yields(out + g.Redacted(), masked || !g.Copied?, Todo(q, i + |g.Raw()|, next), q)
  {
    hide Yields, Todo, Emits;
    TodoEmits(q, i, mode, g, next);
    YieldsNext(out, masked, g, Todo(q, i + |g.Raw()|, next), q);
  }

  lemma YieldsNext(out: string, masked: bool, g: Segment, todo: seq<Segment>, q: string)
    requires Yields(out, masked, [g] + todo, q)
    ensures Yields(out + g.Redacted(), masked || !g.Copied?, todo, q)
  {
    hide Segments, Render, HasLiteral;
    ConsSegment(g, todo);
    assert out + (g.Redacted() + Render(todo)) == out + g.Redacted() + Render(todo);
  }

  lemma ScanEmpty(st: State, s: string)
    requires s == []
    ensures Scan(st, s) == []
  {
  }

  lemma CopyAt(q: string, i: nat, mode: Mode, n: nat, next: Mode, out: string, masked: bool)
    requires 0 < n && i + n <= |q| && Yields(out, masked, Todo(q, i, mode), q)
    requires ActionAt(q, i, mode) == Copy(q[i..], n, next)
    ensures Yields(out + q[i..i + n], masked, Todo(q, i + n, next), q)
  {
    hide Step, Scan, Yields;
    Advance(q, i, mode, Copied(q[i..][..n]), next, out, masked);
    assert q[i..][..n] == q[i..i + n];
  }

  lemma ModeChange(q: string, i: nat, mode: Mode, next: Mode)
    requires i <= |q| && (i < |q| ==> ActionAt(q, i, mode) == Goto(State(next, PrevIdent(q, i))))
    ensures Todo(q, i, mode) == Todo(q, i, next)
  {
    hide Step;
  }

  method KwAt(q: string, i: nat, kw: string) returns (found: bool)
    requires i <= |q|
    ensures found == Kw(PrevIdent(q, i), q[i..], kw)
  {
    var k := 0;
    while k < |kw|
      invariant k <= |kw| && i + k <= |q|
      invariant forall j :: 0 <= j < k ==> ToUpper(q[i + j]) == kw[j]
    {
      if i + k >= |q| || ToUpper(q[i + k]) != kw[k] {
        if |kw| <= |q[i..]| {
          assert Upper(q[i..][..|kw|])[k] == ToUpper(q[i + k]);
        }
        return false;
      }
      k := k + 1;
    }
    assert q[i..][..|kw|] == q[i..i + |kw|] && Upper(q[i..i + |kw|]) == kw;
    if i > 0 && IsIdent(q[i - 1]) {
      return false;
    }
    if i + k < |q| && IsIdent(q[i + k]) {
      assert q[i..][|kw|] == q[i + k];
      return false;
    }
    return true;
  }

  method SkipHexDigits(q: string, start: nat) returns (i: nat)
    requires start <= |q|
    ensures i == start + HexLen(q[start..])
  {
    i := start;
    while i < |q| && IsHexDigit(q[i])
      invariant start <= i <= |q|
      invariant HexLen(q[start..]) == i - start + HexLen(q[i..])
    {
      assert q[i..][1..] == q[i + 1..];
      i := i + 1;
    }
  }

  method SkipBody(q: string, start: nat, quote: char) returns (i: nat)
    requires start <= |q|
    ensures i == start + BodyLen(q[start..], quote)
  {
    i := start;
    while i < |q|
      invariant start <= i <= |q|
      invariant BodyLen(q[start..], quote) == i - start + BodyLen(q[i..], quote)
    {
      if q[i] == '\\' && i + 1 < |q| {
        assert q[i..][2..] == q[i + 2..];
        i := i + 2;
        continue;
      }
      if q[i] == quote {
        break;
      }
      assert q[i..][1..] == q[i + 1..];
      i := i + 1;
    }
  }

  /** Copy separators, then redact the literal that follows, if one does. */
  method MaskFollowingQuote(q: string, start: nat, out0: string, masked0: bool)
    returns (i: nat, out: string, masked: bool)
    requires start <= |q| && Yields(out0, masked0, Todo(q, start, AtValue), q)
    ensures start <= i <= |q| && Yields(out, masked, Todo(q, i, Outside), q)
  {
    hide Todo, Yields, StepValue, BodyLen, HexLen, BodyOk;
    i, out, masked := start, out0, masked0;
    while i < |q| && IsSeparator(q[i])
      invariant start <= i <= |q| && Yields(out, masked, Todo(q, i, AtValue), q)
    {
      ValueSeparator(q, i);
      CopyAt(q, i, AtValue, 1, AtValue, out, masked);
      out := out + q[i..i + 1];
      i := i + 1;
    }
    if i >= |q| {
      ModeChange(q, i, AtValue, Outside);
      return;
    }
    if IsQuote(q[i]) {
      i, out := MaskQuoted(q, i, out, masked);
      masked := true;
      return;
    }
    if i + 1 < |q| && q[i] == '0' && (q[i + 1] == 'x' || q[i + 1] == 'X') {
      i, out := MaskHex(q, i, out, masked);
      masked := true;
      return;
    }
    ValueNone(q, i);
    ModeChange(q, i, AtValue, Outside);
  }

  /** Redact a quoted literal, with its closing quote if it has one. */
  method MaskQuoted(q: string, start: nat, out0: string, ghost masked: bool) returns (i: nat, out: string)
    requires start < |q| && IsQuote(q[start]) && Yields(out0, masked, Todo(q, start, AtValue), q)
    ensures start < i <= |q| && Yields(out, true, Todo(q, i, Outside), q)
  {
    hide Todo, Yields, StepValue, BodyLen, BodyOk;
    var quote := q[start];
    i := SkipBody(q, start + 1, quote);
    ghost var g := Quoted(quote, q[start + 1..i], i < |q|);
    ValueQuoted(q, start, i);
    Advance(q, start, AtValue, g, Outside, out0, masked);
    if i < |q| {
      assert g.Redacted() == [quote] + "***" + [quote] && start + |g.Raw()| == i + 1;
      out := out0 + ([quote] + "***" + [quote]);
      i := i + 1;
    } else {
      assert g.Redacted() == [quote] + "***" + [] && start + |g.Raw()| == i;
      out := out0 + ([quote] + "***" + []);
    }
  }

  /** Redact an unquoted hex literal. */
  method MaskHex(q: string, start: nat, out0: string, ghost masked: bool) returns (i: nat, out: string)
    requires start < |q| && StartsHex(q[start..]) && Yields(out0, masked, Todo(q, start, AtValue), q)
    ensures start < i <= |q| && Yields(out, true, Todo(q, i, Outside), q)
  {
    hide Todo, Yields, StepValue, HexLen, AllHex;
    i := SkipHexDigits(q, start + 2);
    ghost var g := Hex(q[start + 1], q[start + 2..i]);
    ValueHex(q, start, i);
    Advance(q, start, AtValue, g, Outside, out0, masked);
    assert start + |g.Raw()| == i;
    out := out0 + "0x***";
  }

  lemma ValueSeparator(q: string, i: nat)
    requires i < |q| && IsSeparator(q[i])
    ensures ActionAt(q, i, AtValue) == Copy(q[i..], 1, AtValue)
  {
  }

  lemma ValueQuoted(q: string, i: nat, end: nat)
    requires i < |q| && IsQuote(q[i]) && end == i + 1 + BodyLen(q[i + 1..], q[i])
    ensures ActionAt(q, i, AtValue) == Emit(Quoted(q[i], q[i + 1..end], end < |q|), State(Outside, false))
  {
    hide BodyLen;
    assert q[i..][1..] == q[i + 1..];
    assert q[i + 1..][..end - i - 1] == q[i + 1..end];
  }

  lemma ValueHex(q: string, i: nat, end: nat)
    requires i < |q| && StartsHex(q[i..]) && end == i + 2 + HexLen(q[i + 2..])
    ensures ActionAt(q, i, AtValue) == Emit(Hex(q[i + 1], q[i + 2..end]), State(Outside, true))
  {
    hide HexLen, AllHex, IsIdent;
    assert q[i..][2..] == q[i + 2..];
    assert q[i + 2..][..end - i - 2] == q[i + 2..end];
  }

  lemma ValueNone(q: string, i: nat)
    requires i < |q| && !IsSeparator(q[i]) && !StartsLiteral(q[i..])
    ensures ActionAt(q, i, AtValue) == Goto(State(Outside, PrevIdent(q, i)))
  {
  }

  /** The loop after IDENTIFIED: copy up to and including a connector, or up to a literal. */
  method SeekConnector(q: string, start: nat, out0: string, ghost masked: bool)
    returns (i: nat, out: string)
    requires start <= |q| && Yields(out0, masked, Todo(q, start, Connecting), q)
    ensures start <= i <= |q| && Yields(out, masked, Todo(q, i, Optional), q)
  {
    hide Spells, Todo, Yields;
    i, out := start, out0;
    while i < |q|
      invariant start <= i <= |q| && Yields(out, masked, Todo(q, i, Connecting), q)
    {
      var word := KwAt(q, i, "BY");
      if word {
        CopyAt(q, i, Connecting, 2, Optional, out, masked);
        return i + 2, out + q[i..i + 2];
      }
      word := KwAt(q, i, "AS");
      if word {
        CopyAt(q, i, Connecting, 2, Optional, out, masked);
        return i + 2, out + q[i..i + 2];
      }
      word := KwAt(q, i, "USING");
      if word {
        CopyAt(q, i, Connecting, 5, Optional, out, masked);
        return i + 5, out + q[i..i + 5];
      }
      if IsQuote(q[i]) || (q[i] == '0' && i + 1 < |q| && (q[i + 1] == 'x' || q[i + 1] == 'X')) {
        break;
      }
      CopyAt(q, i, Connecting, 1, Connecting, out, masked);
      out := out + q[i..i + 1];
      i := i + 1;
    }
    ModeChange(q, i, Connecting, Optional);
  }

  /** The optional PASSWORD keyword before the literal. */
  method SkipPasswordWord(q: string, start: nat, out0: string, ghost masked: bool)
    returns (i: nat, out: string)
    requires start <= |q| && Yields(out0, masked, Todo(q, start, Optional), q)
    ensures start <= i <= |q| && Yields(out, masked, Todo(q, i, AtValue), q)
  {
    hide Spells, Todo, Yields, SpaceLen;
    i, out := start, out0;
    var j := SkipSpaces(q, i);
    assert q[i..][j - i..] == q[j..];
    assert PrevIdent(q, j) == (PrevIdent(q, i) && j == i) by {
      assert i < j ==> q[j - 1] == q[i..][j - 1 - i];
    }
    var word := KwAt(q, j, "PASSWORD");
    if word {
      CopyAt(q, i, Optional, j + 8 - i, AtValue, out, masked);
      out := out + q[i..j + 8];
      i := j + 8;
    } else {
      ModeChange(q, i, Optional, AtValue);
    }
  }

  method MaskSecrets(query: string) returns (masked: bool, out: string)
    ensures out == Render(Segments(query))
    ensures masked <==> HasLiteral(Segments(query))
  {
    hide Spells, Todo, Yields;
    masked, out := false, [];
    var i := 0;
    YieldsStart(query);
    while i < |query|
      invariant i <= |query| && Yields(out, masked, Todo(query, i, Outside), query)
    {
      var word := KwAt(query, i, "IDENTIFIED");
      if word {
        CopyAt(query, i, Outside, 10, Connecting, out, masked);
        out := out + query[i..i + 10];
        i := i + 10;
        i, out := SeekConnector(query, i, out, masked);
        i, out := SkipPasswordWord(query, i, out, masked);
        i, out, masked := MaskFollowingQuote(query, i, out, masked);
        continue;
      }
      word := KwAt(query, i, "OLD_PASSWORD");
      if word {
        CopyAt(query, i, Outside, 12, AtValue, out, masked);
        out := out + query[i..i + 12];
        i := i + 12;
        i, out, masked := MaskFollowingQuote(query, i, out, masked);
        continue;
      }
      word := KwAt(query, i, "PASSWORD");
      if word {
        CopyAt(query, i, Outside, 8, AtValue, out, masked);
        out := out + query[i..i + 8];
        i := i + 8;
        i, out, masked := MaskFollowingQuote(query, i, out, masked);
        continue;
      }
      CopyAt(query, i, Outside, 1, Outside, out, masked);
      out := out + query[i..i + 1];
      i := i + 1;
    }
    YieldsEnd(query, out, masked);
  }

  lemma YieldsStart(q: string)
    ensures Yields([], false, Todo(q, 0, Outside), q)
  {
    hide Scan, Render;
    assert q[0..] == q;
    assert [] + Render(Segments(q)) == Render(Segments(q));
  }

  lemma YieldsEnd(q: string, out: string, masked: bool)
    requires Yields(out, masked, Todo(q, |q|, Outside), q)
    ensures out == Render(Segments(q)) && (masked <==> HasLiteral(Segments(q)))
  {
    hide Segments;
    assert q[|q|..] == [] && out + [] == out;
  }
}

/** The SQL keyword lexer of core/filter_engine.cc: `extract_command` and `command_bit`. */
module Commands {
  import opened Bytes
  import opened Rules

  // ---- what stands before the keyword ----

  predicate HasAt(s: string, i: nat, c: char) { i < |s| && s[i] == c }

  function DigitsLen(s: string): (n: nat)
    ensures n <= |s|
  {
    if s != [] && IsDigit(s[0]) then 1 + DigitsLen(s[1..]) else 0
  }

  /** Index of the first comment terminator, or the length. */
  function CloseAt(s: string): (k: nat)
    ensures k <= |s|
  {
    if |s| < 2 then |s| else if s[0] == '*' && s[1] == '/' then 0 else 1 + CloseAt(s[1..])
  }

  predicate StartsComment(s: string) { HasAt(s, 0, '/') && HasAt(s, 1, '*') }

  predicate StartsDashes(s: string) { HasAt(s, 0, '-') && HasAt(s, 1, '-') && (|s| == 2 || IsSpace(s[2])) }

  /** Length of a comment: of an executable one the marker and the version digits only. */
  function CommentLen(s: string): (n: nat)
    requires StartsComment(s)
    ensures 0 < n <= |s|
  {
    if HasAt(s, 2, '!') then 3 + DigitsLen(s[3..])
    else if HasAt(s, 2, 'M') && HasAt(s, 3, '!') then 4 + DigitsLen(s[4..])
    else
      var k := 2 + CloseAt(s[2..]);
      if k + 1 < |s| then k + 2 else |s|
  }

  /** Length of the trivia item at the head, 0 when there is none. */
  function TriviaLen(s: string): (n: nat)
    ensures n <= |s|
  {
    if s == [] then 0
    else if IsSpace(s[0]) || s[0] == '(' then 1
    else if StartsComment(s) then CommentLen(s)
    else if StartsDashes(s) || s[0] == '#' then IndexOf(s, '\n')
    else 0
  }

  function Skip(s: string): string
    decreases |s|
  {
    if TriviaLen(s) == 0 then s else Skip(s[TriviaLen(s)..])
  }

  // ---- the keyword ----

  /** At most `limit` word bytes, in upper case. */
  function Word(s: string, limit: nat): (w: string)
    ensures |w| <= limit && |w| <= |s|
  {
    if limit == 0 || s == [] || !IsIdent(s[0]) then [] else [ToUpper(s[0])] + Word(s[1..], limit - 1)
  }

  /** At most `limit` letters, in upper case. */
  function Letters(s: string, limit: nat): (w: string)
    ensures |w| <= limit && |w| <= |s|
  {
    if limit == 0 || s == [] || !(IsUpper(s[0]) || IsLower(s[0])) then []
    else [ToUpper(s[0])] + Letters(s[1..], limit - 1)
  }

  function SkipBlanks(s: string): string { s[SpaceLen(s)..] }

  function Min(a: nat, b: nat): nat { if a < b then a else b }

  /** The keyword at the head of a statement, for a buffer of `size` bytes. */
  function Keyword(s: string, size: nat): string
    requires size > 0
  {
    var w := Word(s, Min(16, size - 1));
    if w == [] then "OTHER"[..Min(5, size - 1)]
    else if w == "START" && Letters(SkipBlanks(s[5..]), 11) == "TRANSACTION" then "BEGIN"
    else w
  }

  /** What is left in the buffer; nothing is written to an empty one. */
  function Extract(query: string, size: nat): Option<string> {
    if size == 0 then None else Some(Keyword(Skip(query), size))
  }

  // ---- the code ----

  /** The end of the comment that opens at `p`. */
  method SkipComment(q: string, p0: nat) returns (p: nat)
    requires p0 <= |q| && StartsComment(q[p0..])
    ensures p == p0 + CommentLen(q[p0..])
  {
    p := p0;
    ghost var s := q[p..];
    if p + 2 < |q| && q[p + 2] == '!' {
      assert s[3..] == q[p + 3..];
      p := SkipDigits(q, p + 3);
      return;
    }
    if p + 3 < |q| && q[p + 2] == 'M' && q[p + 3] == '!' {
      assert s[4..] == q[p + 4..];
      p := SkipDigits(q, p + 4);
      return;
    }
    assert s[2..] == q[p + 2..];
    p := p + 2;
    while p + 1 < |q| && !(q[p] == '*' && q[p + 1] == '/')
      invariant p0 + 2 <= p <= |q|
      invariant CloseAt(q[p0 + 2..]) == p - p0 - 2 + CloseAt(q[p..])
    {
      assert q[p..][1..] == q[p + 1..];
      p := p + 1;
    }
    p := if p + 1 < |q| then p + 2 else |q|;
  }

  method SkipDigits(q: string, p0: nat) returns (p: nat)
    requires p0 <= |q|
    ensures p == p0 + DigitsLen(q[p0..])
  {
    p := p0;
    while p < |q| && IsDigit(q[p])
      invariant p0 <= p <= |q|
      invariant DigitsLen(q[p0..]) == p - p0 + DigitsLen(q[p..])
    {
      assert q[p..][1..] == q[p + 1..];
      p := p + 1;
    }
  }

  method SkipLine(q: string, p0: nat) returns (p: nat)
    requires p0 <= |q|
    ensures p == p0 + IndexOf(q[p0..], '\n')
  {
    p := p0;
    while p < |q| && q[p] != '\n'
      invariant p0 <= p <= |q|
      invariant IndexOf(q[p0..], '\n') == p - p0 + IndexOf(q[p..], '\n')
    {
      assert q[p..][1..] == q[p + 1..];
      p := p + 1;
    }
  }

  /** One turn of the skipping loop: the end of the item at `p0`, or `p0` itself. */
  method SkipOneItem(q: string, p0: nat) returns (p: nat)
    requires p0 <= |q|
    ensures p == p0 + TriviaLen(q[p0..])
  {
    hide CommentLen, IndexOf;
    p := p0;
    if p < |q| && (IsSpace(q[p]) || q[p] == '(') {
      p := p + 1;
    } else if p + 1 < |q| && q[p] == '/' && q[p + 1] == '*' {
      p := SkipComment(q, p);
    } else if p + 1 < |q| && q[p] == '-' && q[p + 1] == '-' && (p + 2 == |q| || IsSpace(q[p + 2])) {
      p := SkipLine(q, p);
    } else if p < |q| && q[p] == '#' {
      p := SkipLine(q, p);
    }
  }

  method SkipTrivia(q: string) returns (p: nat)
    ensures p <= |q| && q[p..] == Skip(q)
  {
    hide Skip, TriviaLen;
    p := 0;
    assert q[0..] == q;
    while true
      invariant p <= |q| && Skip(q[p..]) == Skip(q)
      decreases |q| - p
    {
      var end := SkipOneItem(q, p);
      if end == p {
        SkipDone(q[p..]);
        break;
      }
      assert q[p..][end - p..] == q[end..];
      SkipOnce(q[p..], end - p);
      p := end;
    }
  }

  lemma SkipDone(s: string)
    requires TriviaLen(s) == 0
    ensures Skip(s) == s
  {
  }

  method ReadWord(q: string, p0: nat, limit: nat) returns (p: nat, buf: string)
    requires p0 <= |q|
    ensures buf == Word(q[p0..], limit) && p == p0 + |buf|
  {
    hide Word;
    p, buf := p0, [];
    while p < |q| && |buf| < limit
      invariant p0 <= p <= |q| && |buf| <= limit && p == p0 + |buf|
      invariant Word(q[p0..], limit) == buf + Word(q[p..], limit - |buf|)
    {
      var c := q[p];
      if IsLower(c) {
        c := c - 'a' + 'A';
      } else if !IsUpper(c) && !IsDigit(c) && c != '_' {
        break;
      }
      WordNext(buf, q, p, limit - |buf|);
      buf := buf + [c];
      p := p + 1;
    }
    WordEnd(buf, q, p, limit - |buf|);
  }

  lemma WordNext(buf: string, q: string, p: nat, limit: nat)
    requires p < |q| && limit > 0 && IsIdent(q[p])
    ensures buf + Word(q[p..], limit) == (buf + [ToUpper(q[p])]) + Word(q[p + 1..], limit - 1)
  {
    assert q[p..][1..] == q[p + 1..];
  }

  lemma WordEnd(buf: string, q: string, p: nat, limit: nat)
    requires p <= |q| && (p < |q| && limit > 0 ==> !IsIdent(q[p]))
    ensures buf + Word(q[p..], limit) == buf
  {
  }

  method ReadLetters(q: string, p0: nat, limit: nat) returns (w: string)
    requires p0 <= |q|
    ensures w == Letters(q[p0..], limit)
  {
    hide Letters;
    w := [];
    var p := p0;
    while p < |q| && |w| < limit
      invariant p0 <= p <= |q| && |w| <= limit
      invariant Letters(q[p0..], limit) == w + Letters(q[p..], limit - |w|)
    {
      var c := q[p];
      if IsLower(c) {
        c := c - 'a' + 'A';
      } else if !IsUpper(c) {
        break;
      }
      LettersNext(w, q, p, limit - |w|);
      w := w + [c];
      p := p + 1;
    }
    LettersEnd(w, q, p, limit - |w|);
  }

  lemma LettersNext(w: string, q: string, p: nat, limit: nat)
    requires p < |q| && limit > 0 && (IsUpper(q[p]) || IsLower(q[p]))
    ensures w + Letters(q[p..], limit) == (w + [ToUpper(q[p])]) + Letters(q[p + 1..], limit - 1)
  {
    assert q[p..][1..] == q[p + 1..];
  }

  lemma LettersEnd(w: string, q: string, p: nat, limit: nat)
    requires p <= |q| && (p < |q| && limit > 0 ==> !(IsUpper(q[p]) || IsLower(q[p])))
    ensures w + Letters(q[p..], limit) == w
  {
  }

  method ExtractCommand(query: string, size: nat) returns (buf: Option<string>)
    ensures buf == Extract(query, size)
  {
    hide Skip, Word, Letters;
    if size == 0 {
      return None;
    }
    var p := SkipTrivia(query);
    ghost var s := query[p..];
    var end, word := ReadWord(query, p, Min(16, size - 1));
    if word == "START" && size >= 6 {
      var q := end;
      assert s[5..] == query[end..];
      while q < |query| && IsSpace(query[q])
        invariant end <= q <= |query|
        invariant SkipBlanks(query[end..]) == SkipBlanks(query[q..])
      {
        assert query[q..][1..] == query[q + 1..];
        q := q + 1;
      }
      var w := ReadLetters(query, q, 11);
      if w == "TRANSACTION" {
        return Some("BEGIN");
      }
    }
    if word == [] {
      return Some("OTHER"[..Min(5, size - 1)]);
    }
    return Some(word);
  }

  // ---- trivia is transparent ----

  datatype Trivia = Blank(c: char) | Block(body: string) | Hash(body: string) | Dashes(body: string)
  {
    /** Whitespace and parentheses; closed ordinary block comments; `#` and `-- ` comments
        up to their newline. */
    predicate Valid() {
      match this
      case Blank(c) => IsSpace(c) || c == '('
      case Block(body) =>
        && (forall i :: 0 <= i < |body| - 1 ==> !(body[i] == '*' && body[i + 1] == '/'))
        && !HasAt(body, 0, '!') && !(HasAt(body, 0, 'M') && HasAt(body, 1, '!'))
      case Hash(body) => '\n' !in body
      case Dashes(body) => '\n' !in body && (body != [] ==> IsSpace(body[0]))
    }

    function Text(): string {
      match this
      case Blank(c) => [c]
      case Block(body) => "/*" + body + "*/"
      case Hash(body) => "#" + body + "\n"
      case Dashes(body) => "--" + body + "\n"
    }
  }

  function TriviaText(ts: seq<Trivia>): string { if ts == [] then [] else ts[0].Text() + TriviaText(ts[1..]) }

  lemma {:induction false} CloseAtBody(body: string, s: string)
    requires forall i :: 0 <= i < |body| - 1 ==> !(body[i] == '*' && body[i + 1] == '/')
    ensures CloseAt(body + ("*/" + s)) == |body|
  {
    var t := body + ("*/" + s);
    if body == [] {
      assert t == "*/" + s;
    } else {
      assert t[0] == body[0] && (|body| > 1 ==> t[1] == body[1]) && (|body| == 1 ==> t[1] == '*');
      assert |body| > 1 ==> !(body[0] == '*' && body[0 + 1] == '/');
      assert t[1..] == body[1..] + ("*/" + s);
      CloseAtBody(body[1..], s);
    }
  }

  lemma LineLen(head: string, body: string, s: string)
    requires '\n' !in head && '\n' !in body
    ensures IndexOf(head + body + "\n" + s, '\n') == |head| + |body|
  {
    var t := head + body + "\n" + s;
    assert t[..|head| + |body|] == head + body;
    IndexOfUnique(t, '\n', |head| + |body|);
  }

  lemma BlockLen(body: string, s: string)
    requires Block(body).Valid()
    ensures TriviaLen(Block(body).Text() + s) == |Block(body).Text()|
  {
    hide CloseAt;
    var t := Block(body).Text() + s;
    assert t[2..] == body + ("*/" + s);
    assert t[2] == t[2..][0] && t[3] == t[2..][1];
    CloseAtBody(body, s);
  }

  lemma SkipItem(t: Trivia, s: string)
    requires t.Valid()
    ensures Skip(t.Text() + s) == Skip(s)
  {
    hide TriviaLen;
    var u := t.Text() + s;
    match t {
      case Blank(c) =>
        assert u[1..] == s && TriviaLen(u) == 1 by { BlankLen(c, s); }
      case Block(body) =>
        BlockLen(body, s);
        assert u[|t.Text()|..] == s;
      case Hash(body) => SkipLineItem("#", body, s);
      case Dashes(body) => SkipLineItem("--", body, s);
    }
  }

  lemma BlankLen(c: char, s: string)
    requires IsSpace(c) || c == '('
    ensures TriviaLen([c] + s) == 1
  {
  }

  lemma SkipLineItem(head: string, body: string, s: string)
    requires head == "#" || head == "--"
    requires '\n' !in body && (head == "--" && body != [] ==> IsSpace(body[0]))
    ensures Skip(head + body + "\n" + s) == Skip(s)
  {
    var u := head + body + "\n" + s;
    var n := |head| + |body|;
    LineLen(head, body, s);
    assert u[n..] == ['\n'] + s;
    assert TriviaLen(u) == n by {
      hide IndexOf;
      assert head == "--" ==> u[2] == (if body == [] then '\n' else body[0]);
    }
    SkipOnce(u, n);
    BlankLen('\n', s);
    assert (['\n'] + s)[1..] == s;
    SkipOnce(['\n'] + s, 1);
  }

  lemma SkipOnce(s: string, n: nat)
    requires TriviaLen(s) == n > 0
    ensures Skip(s) == Skip(s[n..])
  {
  }

  /** Leading trivia never changes the keyword. */
  lemma {:induction false} TriviaIsTransparent(ts: seq<Trivia>, query: string, size: nat)
    requires forall t <- ts :: t.Valid()
    ensures Extract(TriviaText(ts) + query, size) == Extract(query, size)
  {
    hide Skip, Keyword;
    if ts == [] {
      assert TriviaText(ts) + query == query;
    } else {
      assert ts[0] in ts;
      assert TriviaText(ts) + query == ts[0].Text() + (TriviaText(ts[1..]) + query);
      SkipItem(ts[0], TriviaText(ts[1..]) + query);
      TriviaIsTransparent(ts[1..], query, size);
    }
  }

  /** Neither does the marker of an executable comment: its content is the statement. */
  lemma ExecutableCommentIsTransparent(digits: string, query: string, size: nat)
    requires (forall c <- digits :: IsDigit(c)) && (query != [] ==> !IsDigit(query[0]))
    ensures Extract("/*!" + (digits + query), size) == Extract(query, size)
    ensures Extract("/*M!" + (digits + query), size) == Extract(query, size)
  {
    hide Skip, Keyword;
    var s := "/*!" + (digits + query);
    DigitsLenOf(digits, query);
    assert s[3..] == digits + query && TriviaLen(s) == 3 + |digits|;
    assert s[3 + |digits|..] == query;
    SkipOnce(s, 3 + |digits|);
    var t := "/*M!" + (digits + query);
    assert t[4..] == digits + query && TriviaLen(t) == 4 + |digits|;
    assert t[4 + |digits|..] == query;
    SkipOnce(t, 4 + |digits|);
  }

  lemma {:induction false} DigitsLenOf(digits: string, s: string)
    requires (forall c <- digits :: IsDigit(c)) && (s != [] ==> !IsDigit(s[0]))
    ensures DigitsLen(digits + s) == |digits|
  {
    if digits == [] {
      assert digits + s == s;
    } else {
      assert digits[0] in digits;
      assert (digits + s)[1..] == digits[1..] + s;
      DigitsLenOf(digits[1..], s);
    }
  }

  // ---- what a keyword looks like ----

  predicate IsWordByte(c: char) { IsUpper(c) || IsDigit(c) || c == '_' }

  lemma {:induction false} WordBytes(s: string, limit: nat)
    ensures forall c <- Word(s, limit) :: IsWordByte(c)
  {
    if limit > 0 && s != [] && IsIdent(s[0]) {
      WordBytes(s[1..], limit - 1);
    }
  }

  /** The alphabet and the length of the result, for every query and buffer. */
  lemma KeywordShape(query: string, size: nat)
    requires size > 0
    ensures var w := Extract(query, size).value;
            (forall c <- w :: IsWordByte(c)) && |w| <= Min(16, size - 1) && (size >= 2 ==> w != [])
  {
    hide Skip, Word, Letters;
    WordBytes(Skip(query), Min(16, size - 1));
  }

  // ---- command classes ----

  function Keywords(): seq<(string, Command)> {
    [("SELECT", Select), ("WITH", Select), ("INSERT", Insert), ("UPDATE", Update), ("DELETE", Delete),
     ("REPLACE", Replace), ("LOAD", Load), ("CALL", Call), ("CREATE", Create), ("ALTER", Alter), ("DROP", Drop),
     ("TRUNCATE", Truncate), ("RENAME", Rename), ("COMMIT", Commit), ("ROLLBACK", Rollback), ("BEGIN", Begin),
     ("SAVEPOINT", Savepoint)]
  }

  function Classify(rows: seq<(string, Command)>, word: string): Command {
    if rows == [] then Other else if rows[0].0 == word then rows[0].1 else Classify(rows[1..], word)
  }

  /** The class of a keyword; unknown ones are Other. */
  function CommandClass(word: string): Command { Classify(Keywords(), word) }

  method CommandBit(word: string) returns (c: Command)
    ensures c == CommandClass(word)
  {
    hide Keywords;
    var rows := Keywords();
    assert rows[0..] == rows;
    for i := 0 to |rows|
      invariant Classify(rows, word) == Classify(rows[i..], word)
    {
      if rows[i].0 == word {
        return rows[i].1;
      }
      assert rows[i..][1..] == rows[i + 1..];
    }
    return Other;
  }
}

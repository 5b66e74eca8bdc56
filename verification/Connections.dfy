/** The connection filter of core/filter_engine.cc: a list of decimal ids, kept sorted and
without repetition, and searched by bisection. */
module Connections {
  import opened Bytes
  import opened Rules
  import RulesCode

  const WORD: nat := 0x1_0000_0000_0000_0000

  predicate IsDecimal(tok: string) { forall c <- tok :: IsDigit(c) }

  function Digit(c: char): nat
    requires IsDigit(c)
  {
    c as nat - '0' as nat
  }

  /** The number a decimal text denotes, without bound. */
  function Decimal(tok: string): nat
    requires IsDecimal(tok)
  {
    if tok == [] then 0 else
      assert tok[|tok| - 1] in tok;
      assert forall c <- tok[..|tok| - 1] :: c in tok;
      10 * Decimal(tok[..|tok| - 1]) + Digit(tok[|tok| - 1])
  }

  /** A digit more means ten times the number and its own value. */
  lemma DecimalMeans(tok: string, i: nat)
    requires IsDecimal(tok) && i < 10
    ensures IsDecimal(tok + ["0123456789"[i]]) && Decimal(tok + ["0123456789"[i]]) == 10 * Decimal(tok) + i
  {
    var c := "0123456789"[i];
    assert c as int == '0' as int + i;
    assert (tok + [c])[..|tok|] == tok;
  }

  /** The ids the entries denote: each decimal value modulo 2^64. */
  function Ids(tokens: seq<string>): Result<seq<Id>> {
    if tokens == [] then Ok([])
    else if !IsDecimal(tokens[0]) then Bad(tokens[0])
    else match Ids(tokens[1..])
      case Bad(token) => Bad(token)
      case Ok(rest) => Ok([Decimal(tokens[0]) % WORD] + rest)
  }

  predicate Increasing(ids: seq<Id>) { forall i, j :: 0 <= i < j < |ids| ==> ids[i] < ids[j] }

  predicate Ordered(ids: seq<Id>) { forall i, j :: 0 <= i < j < |ids| ==> ids[i] <= ids[j] }

  /** Put `id` in its place in an increasing list, unless it is there. */
  function Place(ids: seq<Id>, id: Id): (r: seq<Id>)
    requires Increasing(ids)
    ensures Increasing(r)
    ensures forall x :: x in r <==> x in ids || x == id
  {
    if ids == [] then [id]
    else if id == ids[0] then ids
    else if id < ids[0] then [id] + ids
    else
      var rest := Place(ids[1..], id);
      assert ids == [ids[0]] + ids[1..];
      assert forall i :: 0 <= i < |rest| ==> rest[i] in rest;
      [ids[0]] + rest
  }

  function PlaceAll(ids: seq<Id>): (r: seq<Id>)
    ensures Increasing(r)
    ensures forall x :: x in r <==> x in ids
  {
    if ids == [] then [] else
      assert ids == [ids[0]] + ids[1..];
      Place(PlaceAll(ids[1..]), ids[0])
  }

  /** What parsing a connection list yields. */
  function ParseConnections(csv: Option<string>): Result<seq<Id>> {
    match Ids(Tokens(csv))
    case Bad(token) => Bad(token)
    case Ok(ids) => Ok(PlaceAll(ids))
  }

  lemma TailMembers(a: seq<Id>)
    requires Increasing(a) && a != []
    ensures forall x :: x in a[1..] <==> x in a && x != a[0]
  {
    assert a == [a[0]] + a[1..];
    assert forall i :: 0 <= i < |a[1..]| ==> a[1..][i] == a[i + 1];
  }

  /** There is only one increasing list of a given set. */
  lemma {:induction false} IncreasingUnique(a: seq<Id>, b: seq<Id>)
    requires Increasing(a) && Increasing(b) && forall x :: x in a <==> x in b
    ensures a == b
  {
    assert forall i :: 0 <= i < |a| ==> a[i] in b;
    assert forall i :: 0 <= i < |b| ==> b[i] in a;
    if a != [] && b != [] {
      assert a[0] in b && b[0] in a;
      assert a[0] == b[0];
      TailMembers(a);
      TailMembers(b);
      IncreasingUnique(a[1..], b[1..]);
    }
  }

  /** Horner evaluation in 64-bit arithmetic. */
  method ParseId(tok: string) returns (r: Option<Id>)
    ensures r == if IsDecimal(tok) then Some(Decimal(tok) % WORD) else None
  {
    var v: Id := 0;
    for k := 0 to |tok|
      invariant IsDecimal(tok[..k]) && v == Decimal(tok[..k]) % WORD
    {
      var c := tok[k];
      if c < '0' || c > '9' {
        assert c in tok;
        return None;
      }
      assert tok[..k + 1] == tok[..k] + [c];
      assert tok[..k + 1][..k] == tok[..k];
      Horner(Decimal(tok[..k]), Digit(c));
      v := (v * 10 + Digit(c)) % WORD;
    }
    assert tok[..|tok|] == tok;
    return Some(v);
  }

  lemma Horner(n: nat, d: nat)
    ensures ((n % WORD) * 10 + d) % WORD == (10 * n + d) % WORD
  {
    var q := n / WORD;
    assert 10 * n + d == (n % WORD) * 10 + d + WORD * (10 * q);
    AddMultiple((n % WORD) * 10 + d, 10 * q);
  }

  lemma AddMultiple(m: nat, k: nat)
    ensures (m + WORD * k) % WORD == m % WORD
  {
    assert m == m % WORD + WORD * (m / WORD);
    assert m + WORD * k == m % WORD + WORD * (m / WORD + k);
  }

  /** std::sort: same elements, in order. */
  method Sort(ids: seq<Id>) returns (r: seq<Id>)
    ensures Ordered(r) && forall x :: x in r <==> x in ids
  {
    r := [];
    for n := 0 to |ids|
      invariant Ordered(r) && forall x :: x in r <==> x in ids[..n]
    {
      var k := 0;
      while k < |r| && r[k] < ids[n]
        invariant k <= |r| && forall i :: 0 <= i < k ==> r[i] < ids[n]
      {
        k := k + 1;
      }
      assert ids[..n + 1] == ids[..n] + [ids[n]];
      assert r == r[..k] + r[k..];
      r := r[..k] + [ids[n]] + r[k..];
    }
    assert ids[..|ids|] == ids;
  }

  /** std::unique on an ordered list: keep the first of each run. */
  method Unique(ids: seq<Id>) returns (r: seq<Id>)
    requires Ordered(ids)
    ensures Increasing(r) && forall x :: x in r <==> x in ids
  {
    r := [];
    for n := 0 to |ids|
      invariant Increasing(r) && forall x :: x in r <==> x in ids[..n]
      invariant n > 0 ==> r != [] && r[|r| - 1] == ids[n - 1]
      invariant n == 0 ==> r == []
    {
      assert ids[..n + 1] == ids[..n] + [ids[n]];
      if n == 0 || r[|r| - 1] != ids[n] {
        r := r + [ids[n]];
      }
    }
    assert ids[..|ids|] == ids;
  }

  /** Parse a connection list; on an entry that is not decimal the old list stays. */
  method ParseConnectionList(csv: Option<string>, out0: seq<Id>) returns (out: seq<Id>, error: Option<string>)
    ensures error == ParseConnections(csv).Error()
    ensures out == if error.None? then ParseConnections(csv).value else out0
  {
    var raw := RulesCode.SplitCsv(csv);
    var ids: seq<Id> := [];
    var i := 0;
    assert raw[0..] == raw;
    NothingBefore(Ids(raw));
    while i < |raw|
      invariant i <= |raw|
      invariant Ids(raw) == Before(ids, Ids(raw[i..]))
    {
      var v := ParseId(raw[i]);
      assert raw[i..][1..] == raw[i + 1..];
      if v.None? {
        return out0, Some(raw[i]);
      }
      BeforeNext(ids, v.value, Ids(raw[i + 1..]));
      ids := ids + [v.value];
      i := i + 1;
    }
    assert ids + [] == ids;
    var sorted := Sort(ids);
    out := Unique(sorted);
    IncreasingUnique(out, PlaceAll(ids));
    error := None;
  }

  ghost function Before(ids: seq<Id>, r: Result<seq<Id>>): Result<seq<Id>> {
    match r case Bad(token) => Bad(token) case Ok(rest) => Ok(ids + rest)
  }

  lemma NothingBefore(r: Result<seq<Id>>)
    ensures Before([], r) == r
  {
    if r.Ok? {
      assert [] + r.value == r.value;
    }
  }

  lemma BeforeNext(ids: seq<Id>, id: Id, r: Result<seq<Id>>)
    ensures Before(ids, Before([id], r)) == Before(ids + [id], r)
  {
    if r.Ok? {
      assert ids + ([id] + r.value) == ids + [id] + r.value;
    }
  }

  predicate MatchConnection(rules: FilterRules, conn: Id) { conn in rules.connections }

  /** std::binary_search. */
  method MatchConnectionCode(rules: FilterRules, conn: Id) returns (found: bool)
    requires Increasing(rules.connections)
    ensures found == MatchConnection(rules, conn)
  {
    var ids := rules.connections;
    var lo, hi := 0, |ids|;
    while lo < hi
      invariant lo <= hi <= |ids|
      invariant forall i :: 0 <= i < lo ==> ids[i] < conn
      invariant forall i :: hi <= i < |ids| ==> conn <= ids[i]
    {
      var mid := (lo + hi) / 2;
      if ids[mid] < conn { lo := mid + 1; } else { hi := mid; }
    }
    return lo < |ids| && ids[lo] == conn;
  }

  lemma {:induction false} IdsOfEntries(tokens: seq<string>, conn: Id)
    ensures Ids(tokens).Ok? <==> forall t <- tokens :: IsDecimal(t)
    ensures Ids(tokens).Ok? ==>
              (conn in Ids(tokens).value <==> exists t <- tokens :: IsDecimal(t) && Decimal(t) % WORD == conn)
  {
    hide Decimal;
    if tokens != [] {
      assert tokens == [tokens[0]] + tokens[1..];
      assert tokens[0] in tokens;
      IdsOfEntries(tokens[1..], conn);
    }
  }

  /** Parse, then match: a connection is listed exactly when some entry's decimal value is
      its id modulo 2^64; the list parses exactly when every entry is decimal. */
  lemma ConnectionsAgree(csv: Option<string>, conn: Id)
    ensures ParseConnections(csv).Ok? <==> forall t <- Tokens(csv) :: IsDecimal(t)
    ensures ParseConnections(csv).Ok? ==> Increasing(ParseConnections(csv).value)
    ensures ParseConnections(csv).Ok? ==>
              (MatchConnection(EmptyRules.(connections := ParseConnections(csv).value), conn)
               <==> exists t <- Tokens(csv) :: IsDecimal(t) && Decimal(t) % WORD == conn)
  {
    hide Decimal, Tokens, Ids;
    IdsOfEntries(Tokens(csv), conn);
  }
}

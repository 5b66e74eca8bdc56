/** The numbers of section 6 of RFC 8259, and the ones the plugin prints. */
module JsonNumber {
  import opened Bytes
  import opened Connections
  import opened Numbers
  import opened Commands

  // ---- the grammar: [ minus ] int [ frac ] [ exp ] ----

  /** A zero, or digits that do not begin with one. */
  function IntLen(s: string): (n: nat)
    ensures n <= |s|
  {
    if HasAt(s, 0, '0') then 1 else DigitsLen(s)
  }

  function FracLen(s: string): (n: nat)
    ensures n <= |s|
  {
    if HasAt(s, 0, '.') && DigitsLen(s[1..]) > 0 then 1 + DigitsLen(s[1..]) else 0
  }

  function SignLen(s: string): (n: nat)
    ensures n <= |s|
  {
    if HasAt(s, 0, '+') || HasAt(s, 0, '-') then 1 else 0
  }

  function ExpLen(s: string): (n: nat)
    ensures n <= |s|
  {
    if !HasAt(s, 0, 'e') && !HasAt(s, 0, 'E') then 0 else
      var k := 1 + SignLen(s[1..]);
      if DigitsLen(s[k..]) > 0 then k + DigitsLen(s[k..]) else 0
  }

  function MinusLen(s: string): (n: nat)
    ensures n <= |s|
  {
    if HasAt(s, 0, '-') then 1 else 0
  }

  /** Length of the number at the head, 0 when there is none. */
  function NumLen(s: string): (n: nat)
    ensures n <= |s|
  {
    var m := MinusLen(s);
    if IntLen(s[m..]) == 0 then 0 else
      var i := m + IntLen(s[m..]);
      var f := i + FracLen(s[i..]);
      f + ExpLen(s[f..])
  }

  predicate IsNumber(t: string) { t != [] && NumLen(t) == |t| }

  // ---- what may follow ----

  /** What may follow a value. */
  predicate Stops(rest: string) { rest != [] && (rest[0] == ',' || rest[0] == ']' || rest[0] == '}') }

  lemma {:induction false} DigitsStop(s: string, rest: string)
    requires Stops(rest)
    ensures DigitsLen(s + rest) == DigitsLen(s)
  {
    if s == [] {
      assert s + rest == rest;
    } else {
      assert (s + rest)[1..] == s[1..] + rest;
      DigitsStop(s[1..], rest);
    }
  }

  lemma PartsStop(s: string, rest: string)
    requires Stops(rest)
    ensures IntLen(s + rest) == IntLen(s) && FracLen(s + rest) == FracLen(s)
    ensures SignLen(s + rest) == SignLen(s) && MinusLen(s + rest) == MinusLen(s)
  {
    hide DigitsLen;
    DigitsStop(s, rest);
    if s == [] {
      assert s + rest == rest;
    } else {
      assert (s + rest)[1..] == s[1..] + rest;
      DigitsStop(s[1..], rest);
    }
  }

  lemma ExpStops(s: string, rest: string)
    requires Stops(rest)
    ensures ExpLen(s + rest) == ExpLen(s)
  {
    hide DigitsLen, SignLen;
    if s == [] {
      assert s + rest == rest;
    } else {
      assert (s + rest)[1..] == s[1..] + rest;
      PartsStop(s[1..], rest);
      var k := 1 + SignLen(s[1..]);
      assert (s + rest)[k..] == s[k..] + rest;
      DigitsStop(s[k..], rest);
    }
  }

  /** A number ends where the text around it goes on. */
  lemma NumberStops(s: string, rest: string)
    requires Stops(rest)
    ensures NumLen(s + rest) == NumLen(s)
  {
    hide IntLen, FracLen, ExpLen, MinusLen;
    PartsStop(s, rest);
    var m := MinusLen(s);
    assert (s + rest)[m..] == s[m..] + rest;
    PartsStop(s[m..], rest);
    var i := m + IntLen(s[m..]);
    assert (s + rest)[i..] == s[i..] + rest;
    PartsStop(s[i..], rest);
    var f := i + FracLen(s[i..]);
    assert (s + rest)[f..] == s[f..] + rest;
    ExpStops(s[f..], rest);
  }

  // ---- its bytes ----

  predicate IsNumByte(c: char) { IsDigit(c) || c == '+' || c == '-' || c == '.' || c == 'e' || c == 'E' }

  predicate NumBytes(s: string) { forall c <- s :: IsNumByte(c) }

  lemma {:induction false} DigitsBytes(s: string)
    ensures forall c <- s[..DigitsLen(s)] :: IsDigit(c)
  {
    if s != [] && IsDigit(s[0]) {
      DigitsBytes(s[1..]);
      assert s[..DigitsLen(s)] == [s[0]] + s[1..][..DigitsLen(s) - 1];
    }
  }

  lemma PartsBytes(s: string)
    ensures NumBytes(s[..IntLen(s)]) && NumBytes(s[..FracLen(s)]) && NumBytes(s[..MinusLen(s)])
  {
    hide DigitsLen;
    DigitsBytes(s);
    if FracLen(s) > 0 {
      DigitsBytes(s[1..]);
      assert s[..FracLen(s)] == [s[0]] + s[1..][..DigitsLen(s[1..])];
    }
  }

  lemma ExpBytes(s: string)
    ensures NumBytes(s[..ExpLen(s)])
  {
    hide DigitsLen;
    if ExpLen(s) > 0 {
      var k := 1 + SignLen(s[1..]);
      DigitsBytes(s[k..]);
      assert s[..ExpLen(s)] == s[..k] + s[k..][..DigitsLen(s[k..])];
    }
  }

  lemma NumberBytes(t: string)
    requires IsNumber(t)
    ensures NumBytes(t) && (IsDigit(t[0]) || t[0] == '-')
  {
    hide IntLen, FracLen, ExpLen, MinusLen, NumBytes;
    var m := MinusLen(t);
    PartsBytes(t);
    var i := m + IntLen(t[m..]);
    PartsBytes(t[m..]);
    var f := i + FracLen(t[i..]);
    PartsBytes(t[i..]);
    ExpBytes(t[f..]);
    assert t == t[..m] + t[m..][..i - m] + t[i..][..f - i] + t[f..][..|t| - f];
    FourParts(t[..m], t[m..][..i - m], t[i..][..f - i], t[f..][..|t| - f]);
    NumberHead(t);
  }

  lemma FourParts(a: string, b: string, c: string, d: string)
    requires NumBytes(a) && NumBytes(b) && NumBytes(c) && NumBytes(d)
    ensures NumBytes(a + b + c + d)
  {
  }

  lemma NumberHead(t: string)
    requires IsNumber(t)
    ensures IsDigit(t[0]) || t[0] == '-'
  {
    assert !HasAt(t, 0, '-') ==> t[0..] == t;
  }

  // ---- the numbers the plugin prints ----

  lemma {:induction false} AllDigits(t: string)
    requires IsDecimal(t)
    ensures DigitsLen(t) == |t|
  {
    if t != [] {
      assert t[0] in t && forall c <- t[1..] :: c in t;
      AllDigits(t[1..]);
    }
  }

  /** Printed without a superfluous zero in front. */
  predicate Canonical(t: string) { t != [] && IsDecimal(t) && (t == "0" || t[0] != '0') }

  lemma CanonicalIsInt(t: string, rest: string)
    requires Canonical(t) && (rest != [] ==> !IsDigit(rest[0]))
    ensures IntLen(t + rest) == |t|
  {
    hide DigitsLen;
    assert (t + rest)[0] == t[0];
    DigitsEnd(t, rest);
  }

  lemma {:induction false} DigitsEnd(t: string, rest: string)
    requires IsDecimal(t) && (rest != [] ==> !IsDigit(rest[0]))
    ensures DigitsLen(t + rest) == |t|
  {
    if t == [] {
      assert t + rest == rest;
    } else {
      assert t[0] in t && forall c <- t[1..] :: c in t;
      assert (t + rest)[1..] == t[1..] + rest;
      DigitsEnd(t[1..], rest);
    }
  }

  lemma {:induction false} DecIsCanonical(n: nat)
    ensures Canonical(Dec(n))
  {
    if n >= 10 {
      DecIsCanonical(n / 10);
      assert n / 10 > 0;
      assert Dec(n)[0] == Dec(n / 10)[0];
      if n / 10 < 10 {
        assert Dec(n / 10)[0] == DigitChar(n / 10);
      } else {
        assert |Dec(n / 10)| > 1;
      }
    }
  }

  lemma CanonicalIsNumber(t: string)
    requires Canonical(t)
    ensures IsNumber(t) && IsNumber("-" + t)
  {
    hide IntLen, Canonical;
    assert t + [] == t && t[0] in t by { CanonicalHead(t); }
    CanonicalIsInt(t, []);
    CanonicalHead(t);
    assert t[0..] == t && t[|t|..] == [];
    var s := "-" + t;
    assert s[1..] == t && s[|s|..] == [];
  }

  lemma CanonicalHead(t: string)
    requires Canonical(t)
    ensures t != [] && t[0] in t && IsDigit(t[0])
  {
  }

  lemma DecimalsAreNumbers(n: nat, i: int)
    ensures IsNumber(Dec(n)) && IsNumber(DecInt(i))
  {
    hide Dec, IsNumber, Canonical;
    DecIsCanonical(n);
    CanonicalIsNumber(Dec(n));
    var m := if i < 0 then -i else i;
    DecIsCanonical(m);
    CanonicalIsNumber(Dec(m));
  }

  /** What `%.3f` prints for a duration: an integer part and three decimals. */
  predicate IsDuration(t: string) {
    && 4 < |t| <= 40 && t[|t| - 4] == '.'
    && Canonical(t[..|t| - 4]) && IsDecimal(t[|t| - 3..])
  }

  lemma DurationIsNumber(t: string)
    requires IsDuration(t)
    ensures IsNumber(t) && (forall c <- t :: IsDigit(c) || c == '.') && t != [] && IsDigit(t[0])
  {
    hide IntLen, DigitsLen, Canonical;
    var k := |t| - 4;
    var whole, tail := t[..k], t[k..];
    assert t == whole + tail && tail[1..] == t[k + 1..];
    CanonicalIsInt(whole, tail);
    AllDigits(tail[1..]);
    CanonicalHead(whole);
    assert t[0..] == t && t[k..] == tail && t[|t|..] == [];
    assert IsDecimal(whole) by { CanonicalIsDecimal(whole); }
    assert forall c <- t :: c in whole || c == '.' || c in tail[1..] by {
      assert t == whole + ['.'] + tail[1..];
    }
  }

  lemma CanonicalIsDecimal(t: string)
    requires Canonical(t)
    ensures IsDecimal(t)
  {
  }
}

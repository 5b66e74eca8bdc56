/** The byte classes of the scanners, spelled out. */
module ByteClasses {
  import opened Bytes
  import opened Masker
  import opened Statement

  const DIGITS := "0123456789"
  const LOWER := "abcdefghijklmnopqrstuvwxyz"
  const UPPER := "ABCDEFGHIJKLMNOPQRSTUVWXYZ"

  /** For every byte: which class it is in. */
  lemma Classes(c: char)
    ensures IsSpace(c) <==> c in " \t\r\n"
    ensures IsDigit(c) <==> c in DIGITS
    ensures IsLower(c) <==> c in LOWER
    ensures IsUpper(c) <==> c in UPPER
    ensures IsIdent(c) <==> c in DIGITS || c in LOWER || c in UPPER || c == '_'
    ensures IsNameByte(c) <==> c in DIGITS || c in LOWER || c in UPPER || c == '_' || c == '$'
    ensures IsPrefixByte(c) <==> c in " \t\r\n("
    ensures IsSeparator(c) <==> c in " \t\r\n(="
    ensures IsQuote(c) <==> c in "'\""
    ensures IsHexDigit(c) <==> c in "0123456789abcdefABCDEF"
  {
    InRange(c, DIGITS, '0');
    InRange(c, LOWER, 'a');
    InRange(c, UPPER, 'A');
    HexBytes(c);
  }

  lemma Ranges()
    ensures |DIGITS| == 10 && forall i :: 0 <= i < 10 ==> DIGITS[i] as int == '0' as int + i
    ensures |LOWER| == 26 && forall i :: 0 <= i < 26 ==> LOWER[i] as int == 'a' as int + i
    ensures |UPPER| == 26 && forall i :: 0 <= i < 26 ==> UPPER[i] as int == 'A' as int + i
  {
  }

  /** A run of consecutive bytes. */
  lemma InRange(c: char, s: string, first: char)
    requires (s == DIGITS && first == '0') || (s == LOWER && first == 'a') || (s == UPPER && first == 'A')
    ensures c in s <==> first as int <= c as int < first as int + |s|
  {
    Ranges();
    hide DIGITS, LOWER, UPPER;
    if first as int <= c as int < first as int + |s| {
      assert s[c as int - first as int] == c;
    }
  }

  lemma HexBytes(c: char)
    ensures c in "0123456789abcdefABCDEF" <==> '0' <= c <= '9' || 'a' <= c <= 'f' || 'A' <= c <= 'F'
  {
    var s := "0123456789abcdefABCDEF";
    assert forall i :: 0 <= i < 22 ==> '0' <= s[i] <= '9' || 'a' <= s[i] <= 'f' || 'A' <= s[i] <= 'F';
    if '0' <= c <= '9' {
      assert s[c as int - '0' as int] == c;
    } else if 'a' <= c <= 'f' {
      assert s[10 + c as int - 'a' as int] == c;
    } else if 'A' <= c <= 'F' {
      assert s[16 + c as int - 'A' as int] == c;
    }
  }

  /** Folding pairs the letters and leaves every other byte alone. */
  lemma Folding(c: char)
    ensures |LOWER| == |UPPER| == 26
    ensures forall i :: 0 <= i < 26 ==> ToLower(UPPER[i]) == LOWER[i] && ToUpper(LOWER[i]) == UPPER[i]
    ensures c !in UPPER ==> ToLower(c) == c
    ensures c !in LOWER ==> ToUpper(c) == c
  {
    Ranges();
    InRange(c, LOWER, 'a');
    InRange(c, UPPER, 'A');
  }
}

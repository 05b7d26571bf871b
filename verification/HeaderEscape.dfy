/** Percent-escaping of extra user keys that travel as HTTP header names. */
module HeaderEscape {
  import opened Wrappers

  type byte = x: int | 0 <= x < 256

  const PERCENT: byte := '%' as int

  /** The table of the bytes below 127 that may occur in a header name: digits, letters and fifteen signs. */
  predicate LegalHeaderByte(b: byte) {
    b < 127 && (48 <= b <= 57 || 65 <= b <= 90 || 97 <= b <= 122
                || b in [33, 35, 36, 37, 38, 39, 42, 43, 45, 46, 94, 95, 96, 124, 126])
  }

  predicate ShouldEscape(b: byte) { !LegalHeaderByte(b) || b == PERCENT }

  /** A token character of section 3.2.6 of RFC 7230. */
  predicate IsTokenChar(b: byte) {
    || '0' as int <= b <= '9' as int || 'A' as int <= b <= 'Z' as int || 'a' as int <= b <= 'z' as int
    || b == '!' as int || b == '#' as int || b == '$' as int || b == '%' as int || b == '&' as int
    || b == '\'' as int || b == '*' as int || b == '+' as int || b == '-' as int || b == '.' as int
    || b == '^' as int || b == '_' as int || b == '`' as int || b == '|' as int || b == '~' as int
  }

  function UpperHexDigit(n: int): (d: byte)
    requires 0 <= n < 16
    ensures IsHexDigit(d) && HexValue(d) == n && IsTokenChar(d) && d != PERCENT
  {
    if n < 10 then '0' as int + n else 'A' as int + n - 10
  }

  function EscapeByte(b: byte): seq<byte> {
    if ShouldEscape(b) then [PERCENT, UpperHexDigit(b / 16), UpperHexDigit(b % 16)] else [b]
  }

  function Escape(key: seq<byte>): seq<byte> {
    if key == [] then [] else EscapeByte(key[0]) + Escape(key[1..])
  }

  lemma EscapeStep(key: seq<byte>, i: nat)
    requires i < |key|
    ensures Escape(key[i..]) == EscapeByte(key[i]) + Escape(key[i + 1..])
  {
    assert key[i..][1..] == key[i + 1..];
  }

  method AppendEscaped(r: seq<byte>, b: byte) returns (r': seq<byte>)
    ensures r' == r + EscapeByte(b)
  {
    if ShouldEscape(b) {
      r' := r + [PERCENT, UpperHexDigit(b / 16), UpperHexDigit(b % 16)];
    } else {
      r' := r + [b];
    }
  }

  method HeaderKeyEscape(key: seq<byte>) returns (r: seq<byte>)
    ensures r == Escape(key)
  {
    r := [];
    for i := 0 to |key|
      invariant Escape(key) == r + Escape(key[i..])
    {
      EscapeStep(key, i);
      Regroup(r, EscapeByte(key[i]), Escape(key[i + 1..]));
      r := AppendEscaped(r, key[i]);
    }
    assert key[|key|..] == [];
  }

  lemma Regroup<T>(a: seq<T>, b: seq<T>, c: seq<T>)
    ensures a + (b + c) == a + b + c
  {
  }

  // ---------- the reference decoder, section 2.1 of RFC 3986 ----------

  predicate IsHexDigit(d: byte) {
    '0' as int <= d <= '9' as int || 'A' as int <= d <= 'F' as int || 'a' as int <= d <= 'f' as int
  }

  function HexValue(d: byte): (v: int)
    requires IsHexDigit(d)
    ensures 0 <= v < 16
  {
    if d <= '9' as int then d - '0' as int
    else if d <= 'F' as int then d - 'A' as int + 10
    else d - 'a' as int + 10
  }

  /** Every percent sign must start an escape of two hexadecimal digits. */
  function Decode(s: seq<byte>): Option<seq<byte>> {
    if s == [] then Some([])
    else if s[0] != PERCENT then
      match Decode(s[1..])
      case Some(rest) => Some([s[0]] + rest)
      case None => None
    else if |s| < 3 || !IsHexDigit(s[1]) || !IsHexDigit(s[2]) then None
    else
      match Decode(s[3..])
      case Some(rest) => Some([HexValue(s[1]) * 16 + HexValue(s[2])] + rest)
      case None => None
  }

  // ---------- properties ----------

  lemma TableIsTokenChars(b: byte)
    ensures LegalHeaderByte(b) <==> IsTokenChar(b)
  {
  }

  /** The escaped key is a legal header name. */
  lemma {:induction false} EscapedIsToken(key: seq<byte>, i: nat)
    requires i < |Escape(key)|
    ensures IsTokenChar(Escape(key)[i])
  {
    var head := EscapeByte(key[0]);
    if i < |head| {
      TableIsTokenChars(key[0]);
      assert Escape(key)[i] == head[i];
    } else {
      EscapedIsToken(key[1..], i - |head|);
      assert Escape(key)[i] == Escape(key[1..])[i - |head|];
    }
  }

  lemma DecodeEscaped(b: byte, rest: seq<byte>)
    ensures Decode(EscapeByte(b) + rest)
            == match Decode(rest) case Some(tail) => Some([b] + tail) case None => None
  {
    var s := EscapeByte(b) + rest;
    if ShouldEscape(b) {
      assert s[3..] == rest;
      assert HexValue(s[1]) * 16 + HexValue(s[2]) == b;
    } else {
      assert s[1..] == rest;
    }
  }

  /** Decoding an escaped key gives the key back. */
  lemma {:induction false} EscapeRoundTrip(key: seq<byte>)
    ensures Decode(Escape(key)) == Some(key)
  {
    if key != [] {
      DecodeEscaped(key[0], Escape(key[1..]));
      EscapeRoundTrip(key[1..]);
      assert [key[0]] + key[1..] == key;
    }
  }

  /** A byte that a header name may hold and that is not the escape sign. */
  predicate IsPlain(b: byte) { IsTokenChar(b) && b != PERCENT }

  lemma PlainByteStays(b: byte)
    ensures EscapeByte(b) == [b] <==> IsPlain(b)
    ensures |EscapeByte(b)| == if IsPlain(b) then 1 else 3
  {
    TableIsTokenChars(b);
  }

  lemma {:induction false} EscapeGrows(key: seq<byte>)
    ensures |Escape(key)| >= |key|
    ensures |Escape(key)| == |key| <==> forall i :: 0 <= i < |key| ==> IsPlain(key[i])
  {
    if key != [] {
      EscapeGrows(key[1..]);
      PlainByteStays(key[0]);
      assert forall i :: 1 <= i < |key| ==> key[i] == key[1..][i - 1];
    }
  }

  /** Exactly the keys that need no escape are left as they are. */
  lemma {:induction false} UntouchedIff(key: seq<byte>)
    ensures Escape(key) == key <==> forall i :: 0 <= i < |key| ==> IsPlain(key[i])
  {
    EscapeGrows(key);
    if key != [] && IsPlain(key[0]) {
      PlainByteStays(key[0]);
      UntouchedIff(key[1..]);
      assert forall i :: 1 <= i < |key| ==> key[i] == key[1..][i - 1];
      assert key == [key[0]] + key[1..];
    }
  }

  /** Different keys get different header names. */
  lemma EscapeIsInjective(a: seq<byte>, b: seq<byte>)
    requires Escape(a) == Escape(b)
    ensures a == b
  {
    EscapeRoundTrip(a);
    EscapeRoundTrip(b);
  }
}

/** Byte and number encodings: `encoding/hex` and `%x`, `base64.StdEncoding`, and the
    decimal fields of `time.Time.Format`. */
module Encoding {
  import opened GoStrings

  type Byte = x: int | 0 <= x < 256

  type Bytes = seq<Byte>

  /** Two texts with one digest. */
  predicate Collides(h: string -> string, x: string, y: string) {
    x != y && h(x) == h(y)
  }

  // ---- hex --------------------------------------------------------------------------

  function HexDigit(n: int): (c: char)
    requires 0 <= n < 16
    ensures '0' <= c <= '9' || 'a' <= c <= 'f'
    ensures HexValue(c) == n
  {
    if n < 10 then ('0' as int + n) as char else ('a' as int + n - 10) as char
  }

  /** The value of a hex digit of either case, or -1. */
  function HexValue(c: char): (n: int)
    ensures -1 <= n < 16
  {
    if '0' <= c <= '9' then c as int - '0' as int
    else if 'a' <= c <= 'f' then c as int - 'a' as int + 10
    else if 'A' <= c <= 'F' then c as int - 'A' as int + 10
    else -1
  }

  predicate IsLowerHex(s: string) {
    forall i :: 0 <= i < |s| ==> '0' <= s[i] <= '9' || 'a' <= s[i] <= 'f'
  }

  /** `hex.EncodeToString`, and what `fmt.Sprintf("%x", b)` prints. */
  function Hex(b: Bytes): (s: string)
    ensures |s| == 2 * |b| && IsLowerHex(s)
  {
    if b == [] then "" else [HexDigit(b[0] / 16), HexDigit(b[0] % 16)] + Hex(b[1..])
  }

  /** `hex.DecodeString`. */
  function Unhex(s: string): Option<Bytes> {
    if s == "" then Some([])
    else if |s| == 1 || HexValue(s[0]) < 0 || HexValue(s[1]) < 0 then None
    else
      match Unhex(s[2..])
      case None => None
      case Some(rest) => Some([HexValue(s[0]) * 16 + HexValue(s[1])] + rest)
  }

  lemma {:induction false} HexRoundTrip(b: Bytes)
    ensures Unhex(Hex(b)) == Some(b)
  {
    hide Hex, HexValue, Unhex;
    if b == [] {
      UnhexEmpty();
    } else {
      HexRoundTrip(b[1..]);
      HexHead(b);
      var n: int := b[0];
      UnhexPair(Hex(b), n / 16, n % 16);
      assert n / 16 * 16 + n % 16 == n;
      assert b == [b[0]] + b[1..];
    }
  }

  lemma HexHead(b: Bytes)
    requires b != []
    ensures HexValue(Hex(b)[0]) == b[0] / 16 && HexValue(Hex(b)[1]) == b[0] % 16 && Hex(b)[2..] == Hex(b[1..])
  {
    hide HexDigit, HexValue;
  }

  lemma UnhexEmpty()
    ensures Hex([]) == "" && Unhex("") == Some([])
  {
  }

  lemma UnhexPair(s: string, hi: int, lo: int)
    requires |s| >= 2 && 0 <= hi < 16 && 0 <= lo < 16 && HexValue(s[0]) == hi && HexValue(s[1]) == lo
    requires Unhex(s[2..]).Some?
    ensures Unhex(s) == Some([hi * 16 + lo] + Unhex(s[2..]).value)
  {
  }

  const HEX_DIGITS := "0123456789abcdef"

  /** Each byte prints as the digit of its high half, then that of its low half, in place. */
  lemma {:induction false} HexAt(b: Bytes, i: nat)
    requires i < |b|
    ensures Hex(b)[2 * i] == HEX_DIGITS[b[i] / 16] && Hex(b)[2 * i + 1] == HEX_DIGITS[b[i] % 16]
  {
    hide HexDigit;
    if i == 0 {
      HexDigitAt(b[0] / 16);
      HexDigitAt(b[0] % 16);
    } else {
      HexAt(b[1..], i - 1);
    }
  }

  lemma HexDigitAt(n: int)
    requires 0 <= n < 16
    ensures HexDigit(n) == HEX_DIGITS[n]
  {
  }

  const HEX_CAPITALS := "0123456789ABCDEF"

  lemma HexValueIff(c: char, n: int)
    requires 0 <= n < 16
    ensures HexValue(c) == n <==> c == HEX_DIGITS[n] || c == HEX_CAPITALS[n]
  {
  }

  /** Decoding succeeds exactly on pairs of hex digits, small or capital, and gives each pair's byte in place. */
  lemma {:induction false} UnhexIff(s: string, b: Bytes)
    ensures Unhex(s) == Some(b) <==>
              |s| == 2 * |b| && forall i :: 0 <= i < |b| ==> IsPair(s[2 * i], s[2 * i + 1], b[i])
  {
    if s != "" && |s| > 1 && b != [] {
      UnhexIff(s[2..], b[1..]);
      assert b == [b[0]] + b[1..];
      if forall i :: 0 <= i < |b| ==> |s| == 2 * |b| && IsPair(s[2 * i], s[2 * i + 1], b[i]) {
        assert IsPair(s[0], s[1], b[0]);
        forall i | 0 <= i < |b[1..]| ensures IsPair(s[2..][2 * i], s[2..][2 * i + 1], b[1..][i]) {
          assert IsPair(s[2 * (i + 1)], s[2 * (i + 1) + 1], b[i + 1]);
        }
      }
      if Unhex(s) == Some(b) {
        forall i | 0 <= i < |b| ensures IsPair(s[2 * i], s[2 * i + 1], b[i]) {
          if i > 0 {
            assert IsPair(s[2..][2 * (i - 1)], s[2..][2 * (i - 1) + 1], b[1..][i - 1]);
          }
        }
      }
    }
  }

  predicate IsPair(hi: char, lo: char, b: Byte) {
    HexValue(hi) == b / 16 && HexValue(lo) == b % 16
  }

  lemma HexInjective(a: Bytes, b: Bytes)
    requires Hex(a) == Hex(b)
    ensures a == b
  {
    HexRoundTrip(a);
    HexRoundTrip(b);
  }

  // ---- base64 (section 4 of RFC 4648) -------------------------------------------------

  function Symbol(n: int): (c: char)
    requires 0 <= n < 64
    ensures SymbolValue(c) == n && c != '='
  {
    if n < 26 then ('A' as int + n) as char
    else if n < 52 then ('a' as int + n - 26) as char
    else if n < 62 then ('0' as int + n - 52) as char
    else if n == 62 then '+' else '/'
  }

  /** The sextet a symbol stands for, or -1. */
  function SymbolValue(c: char): (n: int)
    ensures -1 <= n < 64
  {
    if 'A' <= c <= 'Z' then c as int - 'A' as int
    else if 'a' <= c <= 'z' then c as int - 'a' as int + 26
    else if '0' <= c <= '9' then c as int - '0' as int + 52
    else if c == '+' then 62
    else if c == '/' then 63
    else -1
  }

  const CAPITALS := "ABCDEFGHIJKLMNOPQRSTUVWXYZ"
  const SMALLS := "abcdefghijklmnopqrstuvwxyz"
  const REST := "0123456789+/"
  const ALPHABET := CAPITALS + SMALLS + REST

  /** The standard alphabet, by position. */
  lemma SymbolAt(n: int)
    requires 0 <= n < 64
    ensures |ALPHABET| == 64 && Symbol(n) == ALPHABET[n]
  {
    hide SymbolValue;
    assert |CAPITALS| == 26 && |SMALLS| == 26 && |REST| == 12;
    if n < 26 {
      CapitalAt(n);
    } else if n < 52 {
      SmallAt(n - 26);
    } else {
      RestAt(n - 52);
    }
  }

  lemma CapitalAt(n: int)
    requires 0 <= n < 26
    ensures CAPITALS[n] == ('A' as int + n) as char
  {
  }

  lemma SmallAt(n: int)
    requires 0 <= n < 26
    ensures SMALLS[n] == ('a' as int + n) as char
  {
  }

  lemma RestAt(n: int)
    requires 0 <= n < 12
    ensures REST[n] == if n < 10 then ('0' as int + n) as char else if n == 10 then '+' else '/'
  {
  }

  predicate IsBase64Text(s: string) {
    forall i :: 0 <= i < |s| ==> s[i] == '=' || SymbolValue(s[i]) >= 0
  }

  /** `base64.StdEncoding.EncodeToString`. */
  function Base64(b: Bytes): (s: string)
    ensures IsBase64Text(s)
    ensures s == "" <==> b == []
  {
    if b == [] then ""
    else if |b| == 1 then
      [Symbol(b[0] / 4), Symbol(b[0] % 4 * 16), '=', '=']
    else if |b| == 2 then
      [Symbol(b[0] / 4), Symbol(b[0] % 4 * 16 + b[1] / 16), Symbol(b[1] % 16 * 4), '=']
    else
      [Symbol(b[0] / 4), Symbol(b[0] % 4 * 16 + b[1] / 16),
       Symbol(b[1] % 16 * 4 + b[2] / 64), Symbol(b[2] % 64)] + Base64(b[3..])
  }

  /** The decoder drops line breaks wherever they stand. */
  function DropLineBreaks(s: string): string {
    if s == "" then ""
    else if s[0] == '\r' || s[0] == '\n' then DropLineBreaks(s[1..])
    else [s[0]] + DropLineBreaks(s[1..])
  }

  /** One quantum after another; padding only in the last one; left-over bits are ignored. */
  function DecodeQuanta(s: string): Option<Bytes> {
    if s == "" then Some([])
    else if |s| < 4 || SymbolValue(s[0]) < 0 || SymbolValue(s[1]) < 0 then None
    else
      var v0, v1, v2, v3 := SymbolValue(s[0]), SymbolValue(s[1]), SymbolValue(s[2]), SymbolValue(s[3]);
      var b0 := v0 * 4 + v1 / 16;
      if s[2] == '=' then
        if s[3] == '=' && |s| == 4 then Some([b0]) else None
      else if v2 < 0 then None
      else
        var b1 := v1 % 16 * 16 + v2 / 4;
        if s[3] == '=' then
          if |s| == 4 then Some([b0, b1]) else None
        else if v3 < 0 then None
        else
          match DecodeQuanta(s[4..])
          case None => None
          case Some(rest) => Some([b0, b1, v2 % 4 * 64 + v3] + rest)
  }

  /** `base64.StdEncoding.DecodeString`. */
  function Unbase64(s: string): Option<Bytes> {
    DecodeQuanta(DropLineBreaks(s))
  }

  /** A line break anywhere in the text makes no difference to the decoder. */
  lemma LineBreaksIgnored(u: string, v: string)
    ensures Unbase64(u + "\n" + v) == Unbase64(u + "\r" + v) == Unbase64(u + v)
  {
    hide DecodeQuanta;
    DropConcat(u, "\n" + v);
    DropConcat(u, "\r" + v);
    DropConcat(u, v);
    assert u + "\n" + v == u + ("\n" + v) && u + "\r" + v == u + ("\r" + v);
    assert ("\n" + v)[1..] == v && ("\r" + v)[1..] == v;
  }

  lemma {:induction false} DropConcat(u: string, v: string)
    ensures DropLineBreaks(u + v) == DropLineBreaks(u) + DropLineBreaks(v)
  {
    if u == "" {
      assert u + v == v;
    } else {
      assert (u + v)[1..] == u[1..] + v;
      DropConcat(u[1..], v);
    }
  }

  lemma {:induction false} DropLineBreaksNone(s: string)
    requires IsBase64Text(s)
    ensures DropLineBreaks(s) == s
  {
    if s != "" {
      DropLineBreaksNone(s[1..]);
    }
  }

  lemma QuantumBits(x: Byte, y: Byte, z: Byte)
    ensures x / 4 * 4 + (x % 4 * 16 + y / 16) / 16 == x
    ensures (x % 4 * 16 + y / 16) % 16 * 16 + (y % 16 * 4 + z / 64) / 4 == y
    ensures (y % 16 * 4 + z / 64) % 4 * 64 + z % 64 == z
  {
  }

  lemma DecodeFull(s: string, x: Byte, y: Byte, z: Byte)
    requires |s| >= 4 && SymbolValue(s[0]) == x / 4 && SymbolValue(s[1]) == x % 4 * 16 + y / 16
    requires SymbolValue(s[2]) == y % 16 * 4 + z / 64 && SymbolValue(s[3]) == z % 64
    requires DecodeQuanta(s[4..]).Some?
    ensures DecodeQuanta(s) == Some([x, y, z] + DecodeQuanta(s[4..]).value)
  {
    QuantumBits(x, y, z);
  }

  lemma DecodePadded(s: string, x: Byte, y: Byte)
    requires |s| == 4 && s[3] == '='
    requires SymbolValue(s[0]) == x / 4 && SymbolValue(s[1]) == x % 4 * 16 + y / 16
    ensures s[2] == '=' ==> DecodeQuanta(s) == Some([x])
    ensures SymbolValue(s[2]) == y % 16 * 4 ==> DecodeQuanta(s) == Some([x, y])
  {
    QuantumBits(x, y, 0);
  }

  lemma EncodedShort(b: Bytes)
    requires 1 <= |b| <= 2
    ensures var s, y := Base64(b), if |b| == 2 then b[1] else 0;
            && |s| == 4 && s[3] == '='
            && SymbolValue(s[0]) == b[0] / 4 && SymbolValue(s[1]) == b[0] % 4 * 16 + y / 16
            && if |b| == 1 then s[2] == '=' else SymbolValue(s[2]) == y % 16 * 4
  {
    hide Symbol, SymbolValue;
  }

  lemma EncodedFull(b: Bytes)
    requires |b| >= 3
    ensures var s := Base64(b);
            && |s| >= 4 && s[4..] == Base64(b[3..])
            && SymbolValue(s[0]) == b[0] / 4 && SymbolValue(s[1]) == b[0] % 4 * 16 + b[1] / 16
            && SymbolValue(s[2]) == b[1] % 16 * 4 + b[2] / 64 && SymbolValue(s[3]) == b[2] % 64
  {
    hide Symbol, SymbolValue;
  }

  lemma {:induction false} QuantaRoundTrip(b: Bytes)
    ensures DecodeQuanta(Base64(b)) == Some(b)
  {
    hide DecodeQuanta, SymbolValue, Base64;
    if b == [] {
      EmptyQuanta();
    } else if |b| <= 2 {
      EncodedShort(b);
      DecodePadded(Base64(b), b[0], if |b| == 2 then b[1] else 0);
      assert b == if |b| == 1 then [b[0]] else [b[0], b[1]];
    } else {
      QuantaRoundTrip(b[3..]);
      EncodedFull(b);
      DecodeFull(Base64(b), b[0], b[1], b[2]);
      assert b == [b[0], b[1], b[2]] + b[3..];
    }
  }

  /** The symbols of the last quantum that are not followed only by whole bytes. */
  function Loose(b: Bytes): nat {
    if |b| % 3 == 0 then 0 else 4
  }

  /** What decodes is what encoding would have written, of the same length and padding, but for unused bits of a
      padded last quantum, which are ignored. */
  lemma {:induction false} DecodedText(s: string, b: Bytes)
    requires DecodeQuanta(s) == Some(b)
    ensures var t := Base64(b);
            && |t| == |s| >= Loose(b) && s[..|s| - Loose(b)] == t[..|s| - Loose(b)]
            && (|b| % 3 == 1 ==> s[|s| - 2..] == "==") && (|b| % 3 == 2 ==> s[|s| - 2] != '=' && s[|s| - 1] == '=')
  {
    hide DecodeQuanta, Base64, SymbolValue;
    if s == "" {
      DecodedNone(b);
    } else if |b| < 3 {
      DecodedShort(s, b);
    } else {
      DecodedQuantum(s, b);
      DecodedText(s[4..], b[3..]);
      var t := Base64(b);
      assert s == s[..4] + s[4..] && t == t[..4] + t[4..];
      assert |b[3..]| % 3 == |b| % 3;
    }
  }

  lemma DecodedNone(b: Bytes)
    requires DecodeQuanta("") == Some(b)
    ensures b == [] && Base64(b) == ""
  {
  }

  lemma DecodedShort(s: string, b: Bytes)
    requires s != "" && DecodeQuanta(s) == Some(b) && |b| < 3
    ensures |b| > 0 && |s| == |Base64(b)| == 4
    ensures if |b| == 1 then s[2..] == "==" else s[2] != '=' && s[3] == '='
  {
    hide Symbol, SymbolValue;
  }

  lemma DecodedQuantum(s: string, b: Bytes)
    requires s != "" && DecodeQuanta(s) == Some(b) && |b| >= 3
    ensures |s| >= 4 && DecodeQuanta(s[4..]) == Some(b[3..])
    ensures |Base64(b)| >= 4 && Base64(b)[..4] == s[..4] && Base64(b)[4..] == Base64(b[3..])
  {
    hide Base64, Symbol, SymbolValue, DecodeQuanta;
    DecodedHead(s, b);
    var v0, v1, v2, v3 := SymbolValue(s[0]), SymbolValue(s[1]), SymbolValue(s[2]), SymbolValue(s[3]);
    BitsQuantum(v0, v1, v2, v3);
    SymbolBack(s[0]);
    SymbolBack(s[1]);
    SymbolBack(s[2]);
    SymbolBack(s[3]);
    EncodedFull(b);
    FirstSymbols(b);
    assert Base64(b)[..4] == Base64(b)[0..4] && s[..4] == [s[0], s[1], s[2], s[3]];
  }

  lemma DecodedHead(s: string, b: Bytes)
    requires s != "" && DecodeQuanta(s) == Some(b) && |b| >= 3
    ensures |s| >= 4 && DecodeQuanta(s[4..]) == Some(b[3..])
    ensures var v0, v1, v2, v3 := SymbolValue(s[0]), SymbolValue(s[1]), SymbolValue(s[2]), SymbolValue(s[3]);
            && v0 >= 0 && v1 >= 0 && v2 >= 0 && v3 >= 0
            && b[0] == v0 * 4 + v1 / 16 && b[1] == v1 % 16 * 16 + v2 / 4 && b[2] == v2 % 4 * 64 + v3
  {
    hide SymbolValue;
  }

  lemma BitsQuantum(v0: int, v1: int, v2: int, v3: int)
    requires 0 <= v0 < 64 && 0 <= v1 < 64 && 0 <= v2 < 64 && 0 <= v3 < 64
    ensures var x, y, z := v0 * 4 + v1 / 16, v1 % 16 * 16 + v2 / 4, v2 % 4 * 64 + v3;
            x / 4 == v0 && x % 4 * 16 + y / 16 == v1 && y % 16 * 4 + z / 64 == v2 && z % 64 == v3
  {
  }

  lemma SymbolBack(c: char)
    requires SymbolValue(c) >= 0
    ensures Symbol(SymbolValue(c)) == c
  {
  }

  function Quantum(x: Byte, y: Byte, z: Byte): (q: nat)
    ensures q < 16777216
  {
    x * 65536 + y * 256 + z
  }

  /** Every three bytes, read as one 24-bit number, are written as its four base-64 digits, in place. */
  lemma {:induction false} Base64At(b: Bytes, i: nat)
    requires 3 * i + 2 < |b|
    ensures |Base64(b)| >= 4 * i + 4
    ensures Written(Base64(b)[4 * i..4 * i + 4], Quantum(b[3 * i], b[3 * i + 1], b[3 * i + 2]))
  {
    hide Base64, Quantum, Written;
    if i == 0 {
      FirstQuantum(b);
    } else {
      EncodedFull(b);
      Base64At(b[3..], i - 1);
      assert Base64(b)[4 * i..4 * i + 4] == Base64(b[3..])[4 * (i - 1)..4 * (i - 1) + 4];
    }
  }

  /** The four digits of this number. */
  predicate Written(s: string, q: nat) {
    && |s| == 4 && q < 16777216 && |ALPHABET| == 64
    && s[0] == ALPHABET[q / 262144] && s[1] == ALPHABET[q / 4096 % 64]
    && s[2] == ALPHABET[q / 64 % 64] && s[3] == ALPHABET[q % 64]
  }

  lemma FirstQuantum(b: Bytes)
    requires |b| >= 3
    ensures |Base64(b)| >= 4 && Written(Base64(b)[0..4], Quantum(b[0], b[1], b[2]))
  {
    hide Written, Base64, Quantum;
    QuantumDigits(b[0], b[1], b[2]);
    FirstSymbols(b);
    WrittenBy(Base64(b)[0..4], Quantum(b[0], b[1], b[2]));
  }

  lemma FirstSymbols(b: Bytes)
    requires |b| >= 3
    ensures |Base64(b)| >= 4
    ensures Base64(b)[0..4] == [Symbol(b[0] / 4), Symbol(b[0] % 4 * 16 + b[1] / 16),
                                Symbol(b[1] % 16 * 4 + b[2] / 64), Symbol(b[2] % 64)]
  {
    hide Symbol, SymbolValue;
  }

  lemma WrittenBy(s: string, q: nat)
    requires q < 16777216
    requires s == [Symbol(q / 262144), Symbol(q / 4096 % 64), Symbol(q / 64 % 64), Symbol(q % 64)]
    ensures Written(s, q)
  {
    hide Symbol, SymbolValue;
    SymbolAt(q / 262144);
    SymbolAt(q / 4096 % 64);
    SymbolAt(q / 64 % 64);
    SymbolAt(q % 64);
  }

  lemma FourDigits(a: nat, b: nat, c: nat, d: nat)
    requires b < 64 && c < 64 && d < 64
    ensures var q := a * 262144 + b * 4096 + c * 64 + d;
            q / 262144 == a && q / 4096 % 64 == b && q / 64 % 64 == c && q % 64 == d
  {
    var q := a * 262144 + b * 4096 + c * 64 + d;
    assert q / 4096 == a * 64 + b;
    assert q / 64 == (a * 64 + b) * 64 + c;
  }

  lemma QuantumDigits(x: Byte, y: Byte, z: Byte)
    ensures var q := Quantum(x, y, z);
            && q / 262144 == x / 4 && q / 4096 % 64 == x % 4 * 16 + y / 16
            && q / 64 % 64 == y % 16 * 4 + z / 64 && q % 64 == z % 64
  {
    FourDigits(x / 4, x % 4 * 16 + y / 16, y % 16 * 4 + z / 64, z % 64);
    assert x == x / 4 * 4 + x % 4 && y == y / 16 * 16 + y % 16 && z == z / 64 * 64 + z % 64;
  }

  /** One or two last bytes are written like three with zeros after them, the digits not needed replaced by `=`. */
  lemma Base64Last(b: Bytes)
    requires 1 <= |b| <= 2
    ensures var s, q := Base64(b), Quantum(b[0], if |b| == 2 then b[1] else 0, 0);
            && |s| == 4 && q < 16777216 && |ALPHABET| == 64
            && s[0] == ALPHABET[q / 262144] && s[1] == ALPHABET[q / 4096 % 64] && s[3] == '='
            && s[2] == if |b| == 1 then '=' else ALPHABET[q / 64 % 64]
  {
    hide Symbol, SymbolValue, Quantum;
    var y := if |b| == 2 then b[1] else 0;
    QuantumDigits(b[0], y, 0);
    SymbolAt(b[0] / 4);
    SymbolAt(b[0] % 4 * 16 + y / 16);
    SymbolAt(y % 16 * 4);
  }

  lemma EmptyQuanta()
    ensures DecodeQuanta(Base64([])) == Some([])
  {
  }

  lemma Base64RoundTrip(b: Bytes)
    ensures Unbase64(Base64(b)) == Some(b)
  {
    DropLineBreaksNone(Base64(b));
    QuantaRoundTrip(b);
  }

  /** Base64 text has no white space, quotes or key-ring delimiters in it. */
  lemma Base64Clean(b: Bytes)
    ensures Trimmed(Base64(b))
    ensures forall c :: c in Base64(b) ==> c !in ":,|\"\'"
  {
    hide Base64, IsSpace, SymbolValue;
    var s := Base64(b);
    forall i | 0 <= i < |s| ensures !IsSpace(s[i]) && s[i] !in ":,|\"\'" {
      SymbolClean(s[i]);
    }
  }

  lemma SymbolClean(c: char)
    requires c == '=' || SymbolValue(c) >= 0
    ensures !IsSpace(c) && c !in ":,|\"\'"
  {
  }

  // ---- civil timestamps -----------------------------------------------------------------

  predicate IsLeap(year: nat) {
    year % 4 == 0 && (year % 100 != 0 || year % 400 == 0)
  }

  function DaysIn(year: nat, month: nat): nat {
    if month == 2 then (if IsLeap(year) then 29 else 28)
    else if month == 4 || month == 6 || month == 9 || month == 11 then 30
    else 31
  }

  /** A UTC instant by its civil fields; the fields the format string prints. */
  datatype Civil = Civil(year: nat, month: nat, day: nat, hour: nat, minute: nat, second: nat, nanos: nat) {
    predicate Valid() {
      && 1 <= month <= 12 && 1 <= day <= DaysIn(year, month)
      && hour < 24 && minute < 60 && second < 60 && nanos < 1_000_000_000
    }
  }

  type Timestamp = t: Civil | t.Valid() witness Civil(0, 1, 1, 0, 0, 0, 0)

  predicate IsDigits(s: string) {
    forall i :: 0 <= i < |s| ==> '0' <= s[i] <= '9'
  }

  /** The number written by a string of decimal digits. */
  function Number(s: string): nat
    requires IsDigits(s)
  {
    if s == "" then 0 else Number(s[..|s| - 1]) * 10 + (s[|s| - 1] as int - '0' as int)
  }

  /** `n` in decimal, zero-padded to at least `width` digits. */
  function Pad(n: nat, width: nat): (s: string)
    ensures IsDigits(s) && Number(s) == n
    ensures |s| >= width
    decreases width, n
  {
    if n == 0 && width == 0 then ""
    else Pad(n / 10, if width == 0 then 0 else width - 1) + [('0' as int + n % 10) as char]
  }

  function Power10(k: nat): nat {
    if k == 0 then 1 else 10 * Power10(k - 1)
  }

  lemma {:induction false} PadWidth(n: nat, width: nat)
    requires n < Power10(width)
    ensures |Pad(n, width)| == width
    decreases width
  {
    if width > 0 {
      PadWidth(n / 10, width - 1);
    }
  }

  function StripZeros(s: string): (t: string)
    requires IsDigits(s)
    ensures IsDigits(t) && |t| <= |s|
  {
    if s != "" && s[|s| - 1] == '0' then StripZeros(s[..|s| - 1]) else s
  }

  function AppendZeros(s: string, n: nat): string
    decreases n
  {
    if n == 0 then s else AppendZeros(s + "0", n - 1)
  }

  lemma {:induction false} StripAppend(s: string)
    requires IsDigits(s)
    ensures AppendZeros(StripZeros(s), |s| - |StripZeros(s)|) == s
  {
    if s != "" && s[|s| - 1] == '0' {
      var h := s[..|s| - 1];
      StripAppend(h);
      AppendOneMore(StripZeros(h), |h| - |StripZeros(h)|);
      assert s == h + "0";
    }
  }

  lemma {:induction false} AppendOneMore(s: string, n: nat)
    ensures AppendZeros(s, n + 1) == AppendZeros(s, n) + "0"
    decreases n
  {
    if n > 0 {
      AppendOneMore(s + "0", n - 1);
    }
  }

  /** The `.999999999` verb: nothing for a whole second, else the digits without trailing zeros. */
  function Fraction(nanos: nat): (s: string)
    requires nanos < 1_000_000_000
  {
    if nanos == 0 then "" else "." + StripZeros(Pad(nanos, 9))
  }

  lemma NineDigits(n: nat)
    requires n < 1_000_000_000
    ensures |Pad(n, 9)| == 9
    ensures AppendZeros(StripZeros(Pad(n, 9)), 9 - |StripZeros(Pad(n, 9))|) == Pad(n, 9)
  {
    assert Power10(9) == 1_000_000_000;
    PadWidth(n, 9);
    StripAppend(Pad(n, 9));
  }

  lemma FractionInjective(m: nat, n: nat)
    requires m < 1_000_000_000 && n < 1_000_000_000
    requires Fraction(m) == Fraction(n)
    ensures m == n
  {
    if m > 0 && n > 0 {
      var p, q := Pad(m, 9), Pad(n, 9);
      NineDigits(m);
      NineDigits(n);
      Peel(".", StripZeros(p), ".", StripZeros(q));
      assert p == q;
    }
  }

  function SecondTail(t: Timestamp): string {
    Pad(t.second, 2) + (Fraction(t.nanos) + "Z")
  }

  function MinuteTail(t: Timestamp): string {
    Pad(t.minute, 2) + (":" + SecondTail(t))
  }

  function HourTail(t: Timestamp): string {
    Pad(t.hour, 2) + (":" + MinuteTail(t))
  }

  /** What follows the second dash of the printed time. */
  function DayTail(t: Timestamp): string {
    Pad(t.day, 2) + ("T" + HourTail(t))
  }

  /** `t.UTC().Format("2006-01-02T15:04:05.999999999Z")`. */
  function Stamp(t: Timestamp): string {
    Join([Pad(t.year, 4), Pad(t.month, 2), DayTail(t)], '-')
  }

  /** The printed time of a four-digit year, by position: fixed separators, each field's digits in its place, and a
      fraction only if there is one, which ends in no zero and reads as the nanoseconds when padded to nine digits. */
  lemma StampLayout(t: Timestamp)
    requires t.year < 10000
    ensures var s := Stamp(t);
            && |s| >= 20 && s[4] == '-' && s[7] == '-' && s[10] == 'T' && s[13] == ':' && s[16] == ':'
            && s[|s| - 1] == 'Z'
            && s[..4] == Pad(t.year, 4) && s[5..7] == Pad(t.month, 2) && s[8..10] == Pad(t.day, 2)
            && s[11..13] == Pad(t.hour, 2) && s[14..16] == Pad(t.minute, 2) && s[17..19] == Pad(t.second, 2)
            && var f := s[19..|s| - 1];
            if t.nanos == 0 then f == ""
            else && 1 < |f| <= 10 && f[0] == '.' && f[|f| - 1] != '0'
                 && AppendZeros(f[1..], 10 - |f|) == Pad(t.nanos, 9)
  {
    hide Pad, Fraction, Stamp, DayText;
    assert |Pad(t.year, 4)| == 4 by { assert Power10(4) == 10000; PadWidth(t.year, 4); }
    TwoDigits(t.month);
    TwoDigits(t.day);
    TwoDigits(t.hour);
    TwoDigits(t.minute);
    TwoDigits(t.second);
    StampText(t);
    FractionShape(t.nanos);
    var f, day := Fraction(t.nanos), DayText(t);
    assert day[4] == '-' && day[7] == '-' && day[..4] == Pad(t.year, 4) && day[5..7] == Pad(t.month, 2)
           && day[8..10] == Pad(t.day, 2) && |day| == 10;
    assert Stamp(t)[..10] == day && Stamp(t)[19..|Stamp(t)| - 1] == f;
    assert Stamp(t)[..4] == day[..4] && Stamp(t)[5..7] == day[5..7] && Stamp(t)[8..10] == day[8..10];
  }

  lemma StampText(t: Timestamp)
    ensures Stamp(t) == DayText(t) + "T" + Pad(t.hour, 2) + ":" + Pad(t.minute, 2) + ":" + Pad(t.second, 2)
                        + Fraction(t.nanos) + "Z"
    ensures DayText(t) == Pad(t.year, 4) + "-" + Pad(t.month, 2) + "-" + Pad(t.day, 2)
  {
    hide Pad, Fraction, Join;
    ThreeJoined(Pad(t.year, 4), Pad(t.month, 2), DayTail(t));
    ThreeJoined(Pad(t.year, 4), Pad(t.month, 2), Pad(t.day, 2));
    var tail := Pad(t.hour, 2) + ":" + Pad(t.minute, 2) + ":" + Pad(t.second, 2) + Fraction(t.nanos) + "Z";
    assert HourTail(t) == tail;
    assert Stamp(t) == DayText(t) + "T" + tail;
  }

  lemma ThreeJoined(a: string, b: string, c: string)
    ensures Join([a, b, c], '-') == a + "-" + b + "-" + c
  {
    assert [a, b, c][1..] == [b, c] && [b, c][1..] == [c];
    assert Join([b, c], '-') == b + "-" + c;
  }

  lemma FractionShape(n: nat)
    requires n < 1_000_000_000
    ensures var f := Fraction(n);
            if n == 0 then f == ""
            else |f| > 1 && f[0] == '.' && f[|f| - 1] != '0' && |f| <= 10 && AppendZeros(f[1..], 10 - |f|) == Pad(n, 9)
  {
    hide Pad;
    if n > 0 {
      NineDigits(n);
      var z := StripZeros(Pad(n, 9));
      assert Fraction(n)[1..] == z;
      StripLast(Pad(n, 9));
      if z == "" {
        ZeroNumber(9);
      }
    }
  }

  lemma {:induction false} StripLast(s: string)
    requires IsDigits(s)
    ensures StripZeros(s) != "" ==> StripZeros(s)[|StripZeros(s)| - 1] != '0'
  {
    if s != "" && s[|s| - 1] == '0' {
      StripLast(s[..|s| - 1]);
    }
  }

  lemma {:induction false} ZeroNumber(k: nat)
    ensures IsDigits(AppendZeros("", k)) && Number(AppendZeros("", k)) == 0
  {
    if k > 0 {
      ZeroNumber(k - 1);
      AppendOneMore("", k - 1);
      assert AppendZeros("", k)[..|AppendZeros("", k)| - 1] == AppendZeros("", k - 1);
    }
  }

  /** The printed day is how the printed time starts. */
  function DayText(t: Timestamp): string {
    Join([Pad(t.year, 4), Pad(t.month, 2), Pad(t.day, 2)], '-')
  }

  lemma DayTextStarts(t: Timestamp)
    ensures DayText(t) + "T" <= Stamp(t)
  {
    hide Pad, Fraction, DayText, Stamp;
    StampText(t);
  }

  // ---- order of times -----------------------------------------------------------------------

  /** A number that grows with the time. */
  function Instant(t: Timestamp): nat {
    var days := (t.year * 12 + t.month - 1) * 31 + t.day - 1;
    (((days * 24 + t.hour) * 60 + t.minute) * 60 + t.second) * 1_000_000_000 + t.nanos
  }

  /** The fields of a time, the most significant first. */
  function CivilFields(t: Timestamp): seq<nat> {
    [t.year, t.month, t.day, t.hour, t.minute, t.second, t.nanos]
  }

  /** Agreeing up to some field, and less in that one. */
  predicate Precedes(a: seq<nat>, b: seq<nat>) {
    exists i :: 0 <= i < |a| && i < |b| && a[i] < b[i] && a[..i] == b[..i]
  }

  ghost predicate Earlier(a: Timestamp, b: Timestamp) {
    Precedes(CivilFields(a), CivilFields(b))
  }

  /** The numbers are in the order of the fields, and tell all times apart. */
  lemma InstantOrder(a: Timestamp, b: Timestamp)
    ensures Instant(a) < Instant(b) <==> Earlier(a, b)
    ensures Instant(a) == Instant(b) ==> a == b
  {
    hide Instant, Precedes;
    if CivilFields(a) == CivilFields(b) {
      NotEarlier(a);
    } else {
      var i := FirstDifference(CivilFields(a), CivilFields(b));
      OrderAt(CivilFields(a), CivilFields(b), i);
      if CivilFields(a)[i] < CivilFields(b)[i] {
        InstantLess(a, b, i);
      } else {
        InstantLess(b, a, i);
      }
    }
  }

  lemma NotEarlier(a: Timestamp)
    ensures !Earlier(a, a)
  {
  }

  lemma {:induction false} FirstDifference(a: seq<nat>, b: seq<nat>) returns (i: nat)
    requires |a| == |b| && a != b
    ensures i < |a| && a[i] != b[i] && a[..i] == b[..i]
  {
    if a[0] != b[0] {
      i := 0;
    } else {
      assert a == [a[0]] + a[1..] && b == [b[0]] + b[1..];
      i := FirstDifference(a[1..], b[1..]);
      i := i + 1;
      assert a[..i] == [a[0]] + a[1..][..i - 1] && b[..i] == [b[0]] + b[1..][..i - 1];
    }
  }

  lemma OrderAt(a: seq<nat>, b: seq<nat>, i: nat)
    requires |a| == |b| && i < |a| && a[i] != b[i] && a[..i] == b[..i]
    ensures Precedes(a, b) <==> a[i] < b[i]
  {
    if Precedes(a, b) {
      var j :| 0 <= j < |a| && a[j] < b[j] && a[..j] == b[..j];
      assert forall k :: 0 <= k < i ==> a[..i][k] == b[..i][k];
      assert forall k :: 0 <= k < j ==> a[..j][k] == b[..j][k];
    }
  }

  lemma InstantLess(a: Timestamp, b: Timestamp, i: nat)
    requires i < 7 && CivilFields(a)[i] < CivilFields(b)[i] && CivilFields(a)[..i] == CivilFields(b)[..i]
    ensures Instant(a) < Instant(b)
  {
    hide Instant, CivilFields;
    AgreeUntil(a, b, i);
    LaterField(a, b, i);
  }

  lemma AgreeUntil(a: Timestamp, b: Timestamp, i: nat)
    requires i < 7 && CivilFields(a)[i] < CivilFields(b)[i] && CivilFields(a)[..i] == CivilFields(b)[..i]
    ensures if i == 0 then a.year < b.year else a.year == b.year
    ensures if i == 1 then a.month < b.month else i > 1 ==> a.month == b.month
    ensures if i == 2 then a.day < b.day else i > 2 ==> a.day == b.day
    ensures if i == 3 then a.hour < b.hour else i > 3 ==> a.hour == b.hour
    ensures if i == 4 then a.minute < b.minute else i > 4 ==> a.minute == b.minute
    ensures if i == 5 then a.second < b.second else i > 5 ==> a.second == b.second
    ensures i == 6 ==> a.nanos < b.nanos
  {
    var x, y := CivilFields(a), CivilFields(b);
    forall j | 0 <= j < i ensures x[j] == y[j] {
      assert x[..i][j] == y[..i][j];
    }
    assert x[0] == a.year && x[1] == a.month && x[2] == a.day && x[3] == a.hour && x[4] == a.minute && x[5] == a.second;
    assert y[0] == b.year && y[1] == b.month && y[2] == b.day && y[3] == b.hour && y[4] == b.minute && y[5] == b.second;
  }

  lemma LaterField(a: Timestamp, b: Timestamp, i: nat)
    requires if i == 0 then a.year < b.year else a.year == b.year
    requires if i == 1 then a.month < b.month else i > 1 ==> a.month == b.month
    requires if i == 2 then a.day < b.day else i > 2 ==> a.day == b.day
    requires if i == 3 then a.hour < b.hour else i > 3 ==> a.hour == b.hour
    requires if i == 4 then a.minute < b.minute else i > 4 ==> a.minute == b.minute
    requires if i == 5 then a.second < b.second else i > 5 ==> a.second == b.second
    requires i < 7 && (i == 6 ==> a.nanos < b.nanos)
    ensures Instant(a) < Instant(b)
  {
    assert a.day <= 31 && b.day <= 31;
  }

  ghost predicate IsStamp(s: string) {
    exists t: Timestamp :: Stamp(t) == s
  }

  lemma Peel(p: string, x: string, q: string, y: string)
    requires p + x == q + y && |p| == |q|
    ensures p == q && x == y
  {
    assert (p + x)[..|p|] == p && (p + x)[|p|..] == x;
    assert (q + y)[..|q|] == q && (q + y)[|q|..] == y;
  }

  lemma TwoDigits(n: nat)
    requires n < 100
    ensures |Pad(n, 2)| == 2
  {
    assert Power10(2) == 100;
    PadWidth(n, 2);
  }

  lemma FieldInjective(m: nat, sep: string, x: string, n: nat, y: string)
    requires m < 100 && n < 100
    requires Pad(m, 2) + (sep + x) == Pad(n, 2) + (sep + y)
    ensures m == n && x == y
  {
    TwoDigits(m);
    TwoDigits(n);
    Peel(Pad(m, 2), sep + x, Pad(n, 2), sep + y);
    Peel(sep, x, sep, y);
  }

  lemma SecondInjective(a: Timestamp, b: Timestamp)
    requires SecondTail(a) == SecondTail(b)
    ensures a.second == b.second && a.nanos == b.nanos
  {
    var x, y := Fraction(a.nanos) + "Z", Fraction(b.nanos) + "Z";
    assert "" + x == x && "" + y == y;
    FieldInjective(a.second, "", x, b.second, y);
    Peel(Fraction(a.nanos), "Z", Fraction(b.nanos), "Z");
    FractionInjective(a.nanos, b.nanos);
  }

  lemma TailInjective(a: Timestamp, b: Timestamp)
    requires DayTail(a) == DayTail(b)
    ensures a.day == b.day && a.hour == b.hour && a.minute == b.minute && a.second == b.second
    ensures a.nanos == b.nanos
  {
    FieldInjective(a.day, "T", HourTail(a), b.day, HourTail(b));
    FieldInjective(a.hour, ":", MinuteTail(a), b.hour, MinuteTail(b));
    FieldInjective(a.minute, ":", SecondTail(a), b.minute, SecondTail(b));
    SecondInjective(a, b);
  }

  predicate IsClock(s: string) {
    forall i :: 0 <= i < |s| ==> '0' <= s[i] <= '9' || s[i] in ".:TZ"
  }

  lemma ClockConcat(s: string, t: string)
    requires IsClock(s) && IsClock(t)
    ensures IsClock(s + t)
  {
  }

  lemma TailIsClock(t: Timestamp)
    ensures IsClock(DayTail(t))
  {
    ClockConcat(Fraction(t.nanos), "Z");
    ClockConcat(Pad(t.second, 2), Fraction(t.nanos) + "Z");
    ClockConcat(":", SecondTail(t));
    ClockConcat(Pad(t.minute, 2), ":" + SecondTail(t));
    ClockConcat(":", MinuteTail(t));
    ClockConcat(Pad(t.hour, 2), ":" + MinuteTail(t));
    ClockConcat("T", HourTail(t));
    ClockConcat(Pad(t.day, 2), "T" + HourTail(t));
  }

  lemma {:induction false} JoinNew(parts: seq<string>, sep: char, c: char)
    requires parts != [] && c != sep && Free(parts, c)
    ensures c !in Join(parts, sep)
  {
    if |parts| > 1 {
      JoinNew(parts[1..], sep, c);
    }
  }

  lemma ThreeParts(p: string, q: string, r: string)
    requires IsDigits(p) && IsDigits(q) && IsClock(r)
    ensures Split(Join([p, q, r], '-'), '-') == [p, q, r]
    ensures '|' !in Join([p, q, r], '-')
  {
    SplitJoin([p, q, r], '-');
    JoinNew([p, q, r], '-', '|');
  }

  lemma StampParts(t: Timestamp)
    ensures Split(Stamp(t), '-') == [Pad(t.year, 4), Pad(t.month, 2), DayTail(t)]
    ensures '|' !in Stamp(t)
  {
    TailIsClock(t);
    ThreeParts(Pad(t.year, 4), Pad(t.month, 2), DayTail(t));
  }

  /** Printed times determine the time they print. */
  lemma StampInjective(a: Timestamp, b: Timestamp)
    requires Stamp(a) == Stamp(b)
    ensures a == b
  {
    StampParts(a);
    StampParts(b);
    assert Pad(a.year, 4) == Pad(b.year, 4) && Pad(a.month, 2) == Pad(b.month, 2);
    TailInjective(a, b);
  }
}

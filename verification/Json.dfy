/** Hexadecimal digits, hex_value of src/http/utils.c. */
module Hex {
  import opened Common

  function HexValue(c: Byte): (v: int)
    ensures -1 <= v < 16
  {
    if '0' as int <= c <= '9' as int then c - '0' as int
    else if 'a' as int <= c <= 'f' as int then 10 + (c - 'a' as int)
    else if 'A' as int <= c <= 'F' as int then 10 + (c - 'A' as int)
    else -1
  }

  function LowerDigit(n: nat): (c: Byte)
    requires n < 16
    ensures HexValue(c) == n
  {
    if n < 10 then '0' as int + n else 'a' as int + n - 10
  }

  function UpperDigit(n: nat): (c: Byte)
    requires n < 16
    ensures HexValue(c) == n
  {
    if n < 10 then '0' as int + n else 'A' as int + n - 10
  }

  /** The characters with value `n` are its two digits; all others have none. */
  lemma DigitsExactly(c: Byte)
    ensures forall n: nat :: n < 16 ==> (HexValue(c) == n <==> c == LowerDigit(n) || c == UpperDigit(n))
    ensures HexValue(c) == -1 <==> forall n: nat :: n < 16 ==> c != LowerDigit(n) && c != UpperDigit(n)
  {
    if HexValue(c) >= 0 {
      assert c == LowerDigit(HexValue(c)) || c == UpperDigit(HexValue(c));
    }
  }
}

/**
 json_escape_string of src/http/utils.c: escaping into a buffer of six bytes per input byte
 plus one, with a guard that leaves room for the longest escape before each byte.
 */
module Json {
  import opened Common
  import opened Hex

  const BACKSLASH: Byte := 92
  const QUOTE: Byte := 34

  /** The letter of a two-byte escape, or 0 when the byte has none. */
  function ShortEscape(b: Byte): Byte {
    if b == QUOTE then QUOTE
    else if b == BACKSLASH then BACKSLASH
    else if b == 8 then 'b' as int
    else if b == 12 then 'f' as int
    else if b == 10 then 'n' as int
    else if b == 13 then 'r' as int
    else if b == 9 then 't' as int
    else 0
  }

  function EscapeByte(b: Byte): (r: seq<Byte>)
    ensures 1 <= |r| <= 6
  {
    if ShortEscape(b) != 0 then [BACKSLASH, ShortEscape(b)]
    else if b < 0x20 then
      [BACKSLASH, 'u' as int, '0' as int, '0' as int, LowerDigit(b / 16), LowerDigit(b % 16)]
    else [b]
  }

  function Escape(s: seq<Byte>): (r: seq<Byte>)
    ensures |s| <= |r| <= 6 * |s|
  {
    if s == [] then [] else Escape(s[..|s| - 1]) + EscapeByte(s[|s| - 1])
  }

  // ----- reading JSON back: section 7 of RFC 8259 -----------------------------------------------

  /** UTF-8 of a code point of the basic plane that is not a surrogate. */
  function Utf8(cp: nat): Option<seq<Byte>>
    requires cp < 0x10000
  {
    if cp < 0x80 then Some([cp])
    else if cp < 0x800 then Some([0xC0 + cp / 64, 0x80 + cp % 64])
    else if 0xD800 <= cp < 0xE000 then None
    else Some([0xE0 + cp / 4096, 0x80 + cp / 64 % 64, 0x80 + cp % 64])
  }

  function HexQuad(t: seq<Byte>): Option<nat>
    requires |t| >= 4
  {
    if HexValue(t[0]) < 0 || HexValue(t[1]) < 0 || HexValue(t[2]) < 0 || HexValue(t[3]) < 0 then None
    else Some(HexValue(t[0]) * 4096 + HexValue(t[1]) * 256 + HexValue(t[2]) * 16 + HexValue(t[3]))
  }

  /** The byte a two-character escape stands for. */
  function ShortMeaning(c: Byte): Option<Byte> {
    if c == QUOTE || c == BACKSLASH || c == '/' as int then Some(c)
    else if c == 'b' as int then Some(8)
    else if c == 'f' as int then Some(12)
    else if c == 'n' as int then Some(10)
    else if c == 'r' as int then Some(13)
    else if c == 't' as int then Some(9)
    else None
  }

  /** One character of a JSON string: its bytes and how much input it takes. */
  function ReadOne(t: seq<Byte>): (r: Option<(seq<Byte>, nat)>)
    requires t != []
    ensures r.Some? ==> 1 <= r.value.1 <= |t|
  {
    if t[0] == QUOTE || t[0] < 0x20 then None
    else if t[0] != BACKSLASH then Some(([t[0]], 1))
    else if |t| < 2 then None
    else if t[1] == 'u' as int then
      if |t| < 6 || HexQuad(t[2..6]).None? then None
      else
        var cp := HexQuad(t[2..6]).value;
        if cp >= 0x10000 || Utf8(cp).None? then None else Some((Utf8(cp).value, 6))
    else if ShortMeaning(t[1]).None? then None
    else Some(([ShortMeaning(t[1]).value], 2))
  }

  /** The value of the text between the quotes of a JSON string, if it is well formed. */
  function Unescape(t: seq<Byte>): Option<seq<Byte>>
    decreases |t|
  {
    if t == [] then Some([])
    else
      var one := ReadOne(t);
      if one.None? then None
      else
        var rest := Unescape(t[one.value.1..]);
        if rest.None? then None else Some(one.value.0 + rest.value)
  }

  lemma ReadEscaped(b: Byte, rest: seq<Byte>)
    ensures ReadOne(EscapeByte(b) + rest) == Some(([b], |EscapeByte(b)|))
  {
    var e := EscapeByte(b);
    var t := e + rest;
    assert t[0] == e[0];
    if ShortEscape(b) != 0 {
      assert t[1] == e[1];
    } else if b < 0x20 {
      assert t[1] == 'u' as int;
      assert t[2..6] == e[2..6];
      assert HexQuad(t[2..6]) == Some(b / 16 * 16 + b % 16);
    }
  }

  lemma {:induction false} EscapeHead(s: seq<Byte>)
    requires s != []
    ensures Escape(s) == EscapeByte(s[0]) + Escape(s[1..])
  {
    hide EscapeByte;
    var n := |s| - 1;
    if n > 0 {
      EscapeHead(s[..n]);
      var middle := s[1..n];
      assert s[..n][1..] == middle && s[1..][..n - 1] == middle;
      assert Escape(s[1..]) == Escape(middle) + EscapeByte(s[n]);
    } else {
      assert s[..n] == [] && s[1..] == [];
    }
  }

  /** Round trip: what is escaped reads back as the original bytes. */
  lemma {:induction false} UnescapeEscape(s: seq<Byte>)
    ensures Unescape(Escape(s)) == Some(s)
  {
    if s != [] {
      EscapeHead(s);
      ReadEscaped(s[0], Escape(s[1..]));
      assert Escape(s)[|EscapeByte(s[0])|..] == Escape(s[1..]);
      UnescapeEscape(s[1..]);
      assert [s[0]] + s[1..] == s;
    }
  }

  // ----- the guard ---------------------------------------------------------------------------------

  /** There is room for the byte at position `i` when the loop reaches it. */
  predicate Room(s: seq<Byte>, i: nat)
    requires i <= |s|
  {
    |Escape(s[..i])| + 7 < 6 * |s|
  }

  /** How many bytes the loop handles before its guard stops it, starting at `i`. */
  function KeptFrom(s: seq<Byte>, i: nat): (k: nat)
    requires i <= |s|
    ensures i <= k <= |s|
    ensures forall j :: i <= j < k ==> Room(s, j)
    ensures k < |s| ==> !Room(s, k)
    decreases |s| - i
  {
    if i == |s| || !Room(s, i) then i else KeptFrom(s, i + 1)
  }

  function Kept(s: seq<Byte>): nat { KeptFrom(s, 0) }

  lemma {:induction false} EscapeGrows(s: seq<Byte>, i: nat, j: nat)
    requires i <= j <= |s|
    ensures |Escape(s[..i])| <= |Escape(s[..j])|
    decreases j
  {
    if i < j {
      assert s[..j][..j - 1] == s[..j - 1];
      EscapeGrows(s, i, j - 1);
    }
  }

  lemma EscapeNone(src: seq<Byte>)
    ensures Escape(src[..0]) == []
  {
  }

  lemma EscapeNext(src: seq<Byte>, s: nat)
    requires s < |src|
    ensures Escape(src[..s + 1]) == Escape(src[..s]) + EscapeByte(src[s])
  {
    assert src[..s + 1][..s] == src[..s];
  }

  lemma KeptStep(s: seq<Byte>, i: nat)
    requires i <= |s|
    ensures KeptFrom(s, i) == if i == |s| || !Room(s, i) then i else KeptFrom(s, i + 1)
  {
  }

  /**
   json_escape_string on a C string.  The output never leaves its buffer, ends with a NUL, and
   is the escape of the first `Kept(src)` bytes.
   */
  method EscapeString(src: seq<Byte>) returns (dest: array<Byte>, d: nat)
    ensures dest.Length == 6 * |src| + 1
    ensures d < dest.Length && dest[d] == 0
    ensures dest[..d] == Escape(src[..Kept(src)])
  {
    hide Escape, KeptFrom, EscapeByte;
    var maxOut := 6 * |src| + 1;
    dest := new Byte[maxOut](_ => 0);
    d := 0;
    var s := 0;
    EscapeNone(src);
    while s < |src|
      invariant 0 <= s <= |src| && d <= 6 * |src|
      invariant dest.Length == maxOut && fresh(dest)
      invariant dest[..d] == Escape(src[..s])
      invariant Kept(src) == KeptFrom(src, s)
    {
      KeptStep(src, s);
      if d + 7 >= maxOut - 1 { break; }
      EscapeNext(src, s);
      d := Emit(dest, d, EscapeByte(src[s]));
      s := s + 1;
    }
    KeptStep(src, s);
    dest[d] := 0;
  }

  /** Append a few bytes to the output. */
  method Emit(dest: array<Byte>, d: nat, bytes: seq<Byte>) returns (d': nat)
    requires d + |bytes| < dest.Length
    modifies dest
    ensures d' == d + |bytes| && dest[..d'] == old(dest[..d]) + bytes
  {
    for i := 0 to |bytes|
      invariant dest[..d + i] == old(dest[..d]) + bytes[..i]
    {
      dest[d + i] := bytes[i];
      assert dest[..d + i + 1] == dest[..d + i] + [bytes[i]];
    }
    d' := d + |bytes|;
    assert bytes[..|bytes|] == bytes;
  }

  /** Exactly when the whole input is escaped. */
  lemma CompleteExactly(s: seq<Byte>)
    ensures Kept(s) == |s| <==> (|s| == 0 || |Escape(s[..|s| - 1])| + 7 < 6 * |s|)
  {
    if |s| > 0 && Room(s, |s| - 1) {
      forall i | 0 <= i < |s| ensures Room(s, i) { EscapeGrows(s, i, |s| - 1); }
    }
  }

  /** The output always reads back as a prefix of the input, and as all of it when complete. */
  lemma OutputReadsBack(s: seq<Byte>)
    ensures Unescape(Escape(s[..Kept(s)])) == Some(s[..Kept(s)])
    ensures Kept(s) == |s| ==> Unescape(Escape(s[..Kept(s)])) == Some(s)
  {
    UnescapeEscape(s[..Kept(s)]);
    assert s[..|s|] == s;
  }

  lemma {:induction false} ShortEscapesAtMostDouble(s: seq<Byte>)
    requires forall i :: 0 <= i < |s| ==> |EscapeByte(s[i])| <= 2
    ensures |Escape(s)| <= 2 * |s|
  {
    if s != [] { ShortEscapesAtMostDouble(s[..|s| - 1]); }
  }

  /** Text of two or more bytes without characters that need a \\u escape survives whole. */
  lemma OrdinaryTextSurvives(s: seq<Byte>)
    requires |s| >= 2 && forall i :: 0 <= i < |s| ==> |EscapeByte(s[i])| <= 2
    ensures Kept(s) == |s| && Unescape(Escape(s[..Kept(s)])) == Some(s)
  {
    ShortEscapesAtMostDouble(s[..|s| - 1]);
    CompleteExactly(s);
    OutputReadsBack(s);
  }

  /** A string of one byte is always lost: the guard stops before it. */
  lemma SingleByteIsLost(b: Byte)
    ensures Kept([b]) == 0 && Escape([b][..Kept([b])]) == []
  {
  }
}

/**
 Percent-decoding and query lookup: url_decode of src/http/utils.c (strict),
 url_decode_into and man_get_query_value of src/modules/man/man_query.c (lenient).
 */
module Query {
  import opened Common
  import opened Hex

  const PERCENT: Byte := 37
  const PLUS: Byte := 43
  const SPACE: Byte := 32
  const AMPERSAND: Byte := 38
  const EQUALS: Byte := 61
  const QUESTION: Byte := 63

  /** Size of the buffer that takes the encoded value. */
  const ENCODED_SIZE := 512

  // ----- decoding --------------------------------------------------------------------------------

  predicate HexPair(s: seq<Byte>) {
    |s| >= 3 && HexValue(s[1]) >= 0 && HexValue(s[2]) >= 0
  }

  function PairValue(s: seq<Byte>): Byte
    requires HexPair(s)
  {
    HexValue(s[1]) * 16 + HexValue(s[2])
  }

  /** Strict decoding: a percent sign must start a hexadecimal pair. */
  function Strict(s: seq<Byte>): Option<seq<Byte>>
    decreases |s|
  {
    if s == [] then Some([])
    else if s[0] == PERCENT then
      if !HexPair(s) then None
      else
        var rest := Strict(s[3..]);
        if rest.None? then None else Some([PairValue(s)] + rest.value)
    else
      var rest := Strict(s[1..]);
      if rest.None? then None else Some([if s[0] == PLUS then SPACE else s[0]] + rest.value)
  }

  /** Lenient decoding: a percent sign that starts no pair stands for itself. */
  function Lenient(s: seq<Byte>): seq<Byte>
    decreases |s|
  {
    if s == [] then []
    else if s[0] == PLUS then [SPACE] + Lenient(s[1..])
    else if s[0] == PERCENT && HexPair(s) then [PairValue(s)] + Lenient(s[3..])
    else [s[0]] + Lenient(s[1..])
  }

  /** Whatever the strict decoder accepts, the lenient one decodes to the same bytes. */
  lemma {:induction false} StrictImpliesLenient(s: seq<Byte>)
    requires Strict(s).Some?
    ensures Lenient(s) == Strict(s).value
    decreases |s|
  {
    if s != [] {
      if s[0] == PERCENT { StrictImpliesLenient(s[3..]); } else { StrictImpliesLenient(s[1..]); }
    }
  }

  // The decoding loops: `done` is the output for the first `i` bytes of the source.

  ghost predicate StrictAt(src: seq<Byte>, i: nat, done: seq<Byte>)
    requires i <= |src|
  {
    Strict(src) == match Strict(src[i..]) case None => None case Some(v) => Some(done + v)
  }

  ghost predicate LenientAt(src: seq<Byte>, i: nat, done: seq<Byte>)
    requires i <= |src|
  {
    Lenient(src) == done + Lenient(src[i..])
  }

  lemma AtStart(src: seq<Byte>)
    ensures StrictAt(src, 0, []) && LenientAt(src, 0, [])
  {
    assert src[0..] == src;
    var all := Strict(src);
    if all.Some? { assert [] + all.value == all.value; }
  }

  lemma AtEnd(src: seq<Byte>, done: seq<Byte>)
    ensures StrictAt(src, |src|, done) ==> Strict(src) == Some(done)
    ensures LenientAt(src, |src|, done) ==> Lenient(src) == done
  {
    assert src[|src|..] == [];
    assert done + [] == done;
  }

  /** One more output byte `b`, taken from `k` bytes of the source. */
  lemma StrictAdvance(src: seq<Byte>, i: nat, done: seq<Byte>, b: Byte, k: nat)
    requires i + k <= |src| && StrictAt(src, i, done)
    requires if k == 3 then src[i] == PERCENT && HexPair(src[i..]) && b == PairValue(src[i..])
             else k == 1 && src[i] != PERCENT && b == if src[i] == PLUS then SPACE else src[i]
    ensures StrictAt(src, i + k, done + [b])
  {
    assert src[i..][k..] == src[i + k..];
    var more := Strict(src[i + k..]);
    if more.Some? { assert done + ([b] + more.value) == (done + [b]) + more.value; }
  }

  lemma StrictGrows(src: seq<Byte>, i: nat, done: seq<Byte>)
    requires i < |src| && StrictAt(src, i, done)
    ensures Strict(src).Some? ==> |Strict(src).value| > |done|
    ensures src[i] == PERCENT && !HexPair(src[i..]) ==> Strict(src).None?
  {
  }

  lemma LenientAdvance(src: seq<Byte>, i: nat, done: seq<Byte>, b: Byte, k: nat)
    requires i + k <= |src| && LenientAt(src, i, done)
    requires if k == 3 then src[i] == PERCENT && HexPair(src[i..]) && b == PairValue(src[i..])
             else k == 1 && !(src[i] == PERCENT && HexPair(src[i..])) && b == if src[i] == PLUS then SPACE else src[i]
    ensures LenientAt(src, i + k, done + [b])
  {
    assert src[i..][k..] == src[i + k..];
    assert done + ([b] + Lenient(src[i + k..])) == (done + [b]) + Lenient(src[i + k..]);
  }

  /** url_decode: success means decodable and short enough to leave room for the terminator. */
  method UrlDecode(src: seq<Byte>, dst: array<Byte>) returns (rc: int)
    modifies dst
    ensures rc == if Strict(src).Some? && |Strict(src).value| < dst.Length then 0 else -1
    ensures rc == 0 ==> dst[..|Strict(src).value|] == Strict(src).value && dst[|Strict(src).value|] == 0
  {
    if dst.Length == 0 { return -1; }
    var i, out := 0, 0;
    ghost var done: seq<Byte> := [];
    AtStart(src);
    while i < |src|
      invariant 0 <= i <= |src| && 0 <= out < dst.Length
      invariant dst[..out] == done && StrictAt(src, i, done)
      decreases |src| - i
    {
      StrictGrows(src, i, done);
      if out + 1 >= dst.Length { return -1; }
      var b: Byte, k := src[i], 1;
      if src[i] == PERCENT {
        if i + 2 >= |src| { return -1; }
        var hi, lo := HexValue(src[i + 1]), HexValue(src[i + 2]);
        if hi < 0 || lo < 0 { return -1; }
        b, k := hi * 16 + lo, 3;
      } else if src[i] == PLUS {
        b := SPACE;
      }
      StrictAdvance(src, i, done, b, k);
      dst[out] := b;
      done, i, out := done + [b], i + k, out + 1;
    }
    AtEnd(src, done);
    dst[out] := 0;
    return 0;
  }

  /** url_decode_into: only the size can make it fail. */
  method UrlDecodeInto(src: seq<Byte>, dst: array<Byte>) returns (rc: int)
    modifies dst
    ensures rc == if |Lenient(src)| < dst.Length then 0 else -1
    ensures rc == 0 ==> dst[..|Lenient(src)|] == Lenient(src) && dst[|Lenient(src)|] == 0
  {
    if dst.Length == 0 { return -1; }
    var si, di := 0, 0;
    ghost var done: seq<Byte> := [];
    AtStart(src);
    while si < |src|
      invariant 0 <= si <= |src| && 0 <= di < dst.Length
      invariant dst[..di] == done && LenientAt(src, si, done)
      decreases |src| - si
    {
      if di + 1 >= dst.Length { return -1; }
      var b: Byte, k := src[si], 1;
      if src[si] == PLUS {
        b := SPACE;
      } else if src[si] == PERCENT && si + 2 < |src| && HexValue(src[si + 1]) >= 0 && HexValue(src[si + 2]) >= 0 {
        b, k := HexValue(src[si + 1]) * 16 + HexValue(src[si + 2]), 3;
      }
      LenientAdvance(src, si, done, b, k);
      dst[di] := b;
      done, si, di := done + [b], si + k, di + 1;
    }
    AtEnd(src, done);
    dst[di] := 0;
    return 0;
  }

  // ----- percent-encoding: section 2.1 of RFC 3986 -------------------------------------------------

  predicate Unreserved(b: Byte) {
    || 'a' as int <= b <= 'z' as int || 'A' as int <= b <= 'Z' as int || '0' as int <= b <= '9' as int
    || b == '-' as int || b == '.' as int || b == '_' as int || b == '~' as int
  }

  function EncodeByte(b: Byte): seq<Byte> {
    if Unreserved(b) then [b] else [PERCENT, UpperDigit(b / 16), UpperDigit(b % 16)]
  }

  function Encode(s: seq<Byte>): seq<Byte> {
    if s == [] then [] else EncodeByte(s[0]) + Encode(s[1..])
  }

  /** Round trip: both decoders undo percent-encoding. */
  lemma {:induction false} DecodeEncode(s: seq<Byte>)
    ensures Strict(Encode(s)) == Some(s)
    ensures Lenient(Encode(s)) == s
  {
    if s != [] {
      DecodeEncode(s[1..]);
      var e := Encode(s);
      assert [s[0]] + s[1..] == s;
      if Unreserved(s[0]) {
        assert e[1..] == Encode(s[1..]);
      } else {
        assert e[3..] == Encode(s[1..]);
        assert PairValue(e) == s[0];
      }
      StrictImpliesLenient(e);
    }
  }

  lemma {:induction false} EncodedIsClean(s: seq<Byte>)
    ensures AMPERSAND !in Encode(s) && EQUALS !in Encode(s) && QUESTION !in Encode(s)
  {
    if s != [] { EncodedIsClean(s[1..]); }
  }

  ghost predicate AllUnreserved(s: seq<Byte>) { forall i :: 0 <= i < |s| ==> Unreserved(s[i]) }

  /** Encoding changes a text exactly when it holds a reserved byte. */
  lemma {:induction false} UnchangedIffUnreserved(s: seq<Byte>)
    ensures |Encode(s)| >= |s|
    ensures Encode(s) == s <==> AllUnreserved(s)
    ensures Encode(s) != s ==> |Encode(s)| > |s|
  {
    if s != [] {
      UnchangedIffUnreserved(s[1..]);
      assert s == [s[0]] + s[1..];
      assert AllUnreserved(s) <==> Unreserved(s[0]) && AllUnreserved(s[1..]) by {
        assert forall i :: 0 <= i < |s| - 1 ==> s[1..][i] == s[i + 1];
        assert forall i :: 1 <= i < |s| ==> s[i] == s[1..][i - 1];
      }
      if Unreserved(s[0]) {
        assert Encode(s)[1..] == Encode(s[1..]);
      }
    }
  }

  // ----- looking a key up -----------------------------------------------------------------------------

  /** strchr: the first position of a byte, or the length. */
  function IndexOf(s: seq<Byte>, c: Byte): (k: nat)
    ensures k <= |s|
    ensures k < |s| ==> s[k] == c
    ensures forall j :: 0 <= j < k ==> s[j] != c
  {
    if s == [] then 0 else if s[0] == c then 0 else 1 + IndexOf(s[1..], c)
  }

  lemma IndexOfIs(s: seq<Byte>, c: Byte, k: nat)
    requires k <= |s| && (k < |s| ==> s[k] == c) && forall j :: 0 <= j < k ==> s[j] != c
    ensures IndexOf(s, c) == k
  {
  }

  /** What follows the first entry of a query string. */
  function Tail(qs: seq<Byte>): (r: seq<Byte>)
    requires qs != []
    ensures |r| < |qs|
  {
    var amp := IndexOf(qs, AMPERSAND);
    if amp < |qs| then qs[amp + 1..] else []
  }

  /** The first entry is `key=value` for the given key. */
  predicate Matches(qs: seq<Byte>, key: seq<Byte>) {
    var eq, amp := IndexOf(qs, EQUALS), IndexOf(qs, AMPERSAND);
    eq < |qs| && eq <= amp && qs[..eq] == key
  }

  /** The still encoded value of the first entry with the given key. */
  function RawValue(qs: seq<Byte>, key: seq<Byte>): Option<seq<Byte>>
    decreases |qs|
  {
    if qs == [] then None
    else if Matches(qs, key) then Some(qs[IndexOf(qs, EQUALS) + 1..IndexOf(qs, AMPERSAND)])
    else RawValue(Tail(qs), key)
  }

  /** A raw value decoded, if it fits the encoded buffer and the caller's. */
  function Delivered(raw: Option<seq<Byte>>, size: nat): Option<seq<Byte>> {
    if raw.None? || |raw.value| >= ENCODED_SIZE || |Lenient(raw.value)| >= size then None
    else Some(Lenient(raw.value))
  }

  /** The answer of man_get_query_value for an output buffer of `size` bytes. */
  function Answer(url: seq<Byte>, key: seq<Byte>, size: nat): Option<seq<Byte>> {
    var q := IndexOf(url, QUESTION);
    if size == 0 || q == |url| then None
    else Delivered(RawValue(url[q + 1..], key), size)
  }

  method FindByte(s: seq<Byte>, from: nat, c: Byte) returns (k: nat)
    requires from <= |s|
    ensures k == from + IndexOf(s[from..], c)
  {
    k := from;
    while k < |s|
      invariant from <= k <= |s|
      invariant forall j :: from <= j < k ==> s[j] != c
    {
      if s[k] == c { break; }
      k := k + 1;
    }
    IndexOfIs(s[from..], c, k - from);
  }

  /** The entry that starts at `qs`, with the two separators found at `eq` and `amp`. */
  ghost predicate EntryAt(url: seq<Byte>, qs: nat, eq: nat, amp: nat) {
    && qs < |url| && qs <= eq <= |url| && qs <= amp <= |url|
    && eq == qs + IndexOf(url[qs..], EQUALS) && amp == qs + IndexOf(url[qs..], AMPERSAND)
  }

  predicate Hit(url: seq<Byte>, qs: nat, eq: nat, amp: nat, key: seq<Byte>)
    requires qs <= eq <= |url|
  {
    eq < |url| && eq <= amp && url[qs..eq] == key
  }

  lemma HitIsMatch(url: seq<Byte>, qs: nat, eq: nat, amp: nat, key: seq<Byte>)
    requires EntryAt(url, qs, eq, amp)
    ensures Hit(url, qs, eq, amp, key) <==> Matches(url[qs..], key)
    ensures eq < |url| && eq <= amp ==> eq < amp
  {
    hide IndexOf;
    assert url[qs..][..eq - qs] == url[qs..eq];
    assert eq < |url| ==> url[qs..][eq - qs] == EQUALS;
    assert amp < |url| ==> url[qs..][amp - qs] == AMPERSAND;
  }

  lemma FirstEntryDecides(qs: seq<Byte>, key: seq<Byte>)
    requires qs != []
    ensures RawValue(qs, key)
         == if Matches(qs, key) then Some(qs[IndexOf(qs, EQUALS) + 1..IndexOf(qs, AMPERSAND)])
            else RawValue(Tail(qs), key)
  {
  }

  /** One round of the scan: a hit gives the value, a miss leaves what follows the entry. */
  lemma Round(url: seq<Byte>, qs: nat, eq: nat, amp: nat, key: seq<Byte>)
    requires EntryAt(url, qs, eq, amp)
    ensures Hit(url, qs, eq, amp, key) ==> eq < amp && RawValue(url[qs..], key) == Some(url[eq + 1..amp])
    ensures !Hit(url, qs, eq, amp, key) ==>
      RawValue(url[qs..], key) == RawValue(url[if amp < |url| then amp + 1 else amp..], key)
  {
    hide IndexOf, Matches, RawValue;
    HitIsMatch(url, qs, eq, amp, key);
    FirstEntryDecides(url[qs..], key);
    if Hit(url, qs, eq, amp, key) {
      assert url[qs..][eq - qs + 1..amp - qs] == url[eq + 1..amp];
    } else if amp < |url| {
      assert url[qs..][amp - qs + 1..] == url[amp + 1..];
    } else {
      assert url[amp..] == [];
    }
  }

  /** What is left to scan decides the raw value. */
  ghost predicate ScanAt(url: seq<Byte>, q: nat, qs: nat, key: seq<Byte>)
    requires q < |url| && qs <= |url|
  {
    RawValue(url[q + 1..], key) == RawValue(url[qs..], key)
  }

  lemma NothingLeft(rest: seq<Byte>, key: seq<Byte>, size: nat)
    requires rest == []
    ensures Delivered(RawValue(rest, key), size).None?
  {
  }

  lemma AnswerOf(url: seq<Byte>, q: nat, qs: nat, key: seq<Byte>, size: nat)
    requires q == IndexOf(url, QUESTION) < |url| && qs <= |url| && ScanAt(url, q, qs, key) && size > 0
    ensures Answer(url, key, size) == Delivered(RawValue(url[qs..], key), size)
    ensures qs == |url| ==> Answer(url, key, size).None?
  {
    hide Delivered, RawValue, IndexOf;
    if qs == |url| { NothingLeft(url[qs..], key, size); }
  }

  /** man_get_query_value; the scan ends because every round drops at least one byte. */
  method GetQueryValue(url: seq<Byte>, key: seq<Byte>, out: array<Byte>) returns (found: bool)
    modifies out
    ensures found == Answer(url, key, out.Length).Some?
    ensures found ==>
      var v := Answer(url, key, out.Length).value;
      |v| < out.Length && out[..|v|] == v && out[|v|] == 0
  {
    hide IndexOf, RawValue, Lenient;
    if out.Length == 0 { return false; }
    var q := FindByte(url, 0, QUESTION);
    assert url[0..] == url;
    if q == |url| { return false; }
    var qs := q + 1;
    while qs < |url|
      invariant q + 1 <= qs <= |url|
      invariant ScanAt(url, q, qs, key)
      decreases |url| - qs
    {
      var eq := FindByte(url, qs, EQUALS);
      var amp := FindByte(url, qs, AMPERSAND);
      Round(url, qs, eq, amp, key);
      AnswerOf(url, q, qs, key, out.Length);
      if Hit(url, qs, eq, amp, key) {
        if amp - (eq + 1) >= ENCODED_SIZE { return false; }
        var rc := UrlDecodeInto(url[eq + 1..amp], out);
        return rc == 0;
      }
      qs := if amp < |url| then amp + 1 else amp;
    }
    AnswerOf(url, q, qs, key, out.Length);
    return false;
  }

  // ----- printing and reading back -----------------------------------------------------------------------

  datatype Pair = Pair(key: seq<Byte>, value: seq<Byte>)

  function PrintPair(p: Pair): seq<Byte> { Encode(p.key) + [EQUALS] + Encode(p.value) }

  function Print(pairs: seq<Pair>): seq<Byte> {
    if pairs == [] then []
    else if |pairs| == 1 then PrintPair(pairs[0])
    else PrintPair(pairs[0]) + [AMPERSAND] + Print(pairs[1..])
  }

  /** The value of the first pair with the given key. */
  function FirstValue(pairs: seq<Pair>, key: seq<Byte>): Option<seq<Byte>> {
    if pairs == [] then None
    else if pairs[0].key == key then Some(pairs[0].value)
    else FirstValue(pairs[1..], key)
  }

  lemma EntryShape(p: Pair, qs: seq<Byte>, more: seq<Byte>)
    requires qs == PrintPair(p) || qs == PrintPair(p) + [AMPERSAND] + more
    ensures IndexOf(qs, EQUALS) == |Encode(p.key)|
    ensures IndexOf(qs, AMPERSAND) == |PrintPair(p)|
  {
    EncodedIsClean(p.key);
    EncodedIsClean(p.value);
    var e := PrintPair(p);
    assert forall j :: 0 <= j < |e| ==> qs[j] == e[j];
    IndexOfIs(qs, EQUALS, |Encode(p.key)|);
    IndexOfIs(qs, AMPERSAND, |e|);
  }

  lemma EncodeInjective(k: seq<Byte>, key: seq<Byte>)
    ensures Encode(k) == Encode(key) <==> k == key
  {
    DecodeEncode(k);
    DecodeEncode(key);
  }

  lemma Slices(k: seq<Byte>, v: seq<Byte>, end: seq<Byte>, qs: seq<Byte>)
    requires qs == k + [EQUALS] + v + end
    ensures qs[..|k|] == k
    ensures qs[|k| + 1..|k| + 1 + |v|] == v
    ensures qs[|k| + 1 + |v|..] == end
  {
  }

  lemma EntryParts(p: Pair, qs: seq<Byte>, more: seq<Byte>)
    requires (qs == PrintPair(p) && more == []) || qs == PrintPair(p) + [AMPERSAND] + more
    ensures qs[..|Encode(p.key)|] == Encode(p.key)
    ensures qs[|Encode(p.key)| + 1..|PrintPair(p)|] == Encode(p.value)
    ensures Tail(qs) == more
  {
    EntryShape(p, qs, more);
    var e := PrintPair(p);
    if |qs| == |e| {
      assert qs == e + [];
      Slices(Encode(p.key), Encode(p.value), [], qs);
    } else {
      assert qs == e + ([AMPERSAND] + more);
      Slices(Encode(p.key), Encode(p.value), [AMPERSAND] + more, qs);
      assert qs[|e| + 1..] == qs[|e|..][1..];
    }
  }

  lemma PrintedEntry(p: Pair, qs: seq<Byte>, more: seq<Byte>, key: seq<Byte>)
    requires (qs == PrintPair(p) && more == []) || qs == PrintPair(p) + [AMPERSAND] + more
    ensures RawValue(qs, key) == if Encode(p.key) == key then Some(Encode(p.value)) else RawValue(more, key)
  {
    EntryShape(p, qs, more);
    EntryParts(p, qs, more);
  }

  lemma {:induction false} LookupPrinted(pairs: seq<Pair>, key: seq<Byte>)
    ensures RawValue(Print(pairs), Encode(key))
         == match FirstValue(pairs, key) case None => None case Some(v) => Some(Encode(v))
    decreases |pairs|
  {
    if pairs != [] {
      PrintedEntry(pairs[0], Print(pairs), Print(pairs[1..]), Encode(key));
      EncodeInjective(pairs[0].key, key);
      LookupPrinted(pairs[1..], key);
    }
  }

  /**
   Reading a printed query back: for every list of pairs, a lookup of a key in its encoded form
   returns the value of the first pair with that key, decoded, when it fits the two size limits,
   and nothing when there is no such pair.
   */
  lemma QueryRoundTrip(path: seq<Byte>, pairs: seq<Pair>, key: seq<Byte>, size: nat)
    requires QUESTION !in path
    ensures Answer(path + [QUESTION] + Print(pairs), Encode(key), size)
         == match FirstValue(pairs, key)
            case None => None
            case Some(v) => if |Encode(v)| < ENCODED_SIZE && |v| < size then Some(v) else None
  {
    var url := path + [QUESTION] + Print(pairs);
    IndexOfIs(url, QUESTION, |path|);
    assert url[|path| + 1..] == Print(pairs);
    LookupPrinted(pairs, key);
    var first := FirstValue(pairs, key);
    if first.Some? { DecodeEncode(first.value); }
  }

  /**
   The code compares keys as written in the query, without decoding them.  A lookup of the key
   itself therefore finds its printed value exactly when the key needs no encoding.
   */
  lemma PlainKeyFoundExactly(path: seq<Byte>, key: seq<Byte>, v: seq<Byte>, size: nat)
    requires QUESTION !in path && |Encode(v)| < ENCODED_SIZE && |v| < size
    ensures Answer(path + [QUESTION] + Print([Pair(key, v)]), key, size) == Some(v) <==> AllUnreserved(key)
  {
    var url := path + [QUESTION] + Print([Pair(key, v)]);
    UnchangedIffUnreserved(key);
    if AllUnreserved(key) {
      QueryRoundTrip(path, [Pair(key, v)], key, size);
    } else {
      IndexOfIs(url, QUESTION, |path|);
      assert url[|path| + 1..] == PrintPair(Pair(key, v));
      PrintedEntry(Pair(key, v), PrintPair(Pair(key, v)), [], key);
    }
  }

  /** The answer a lookup of `key` in a printed list ought to give. */
  function Expected(pairs: seq<Pair>, key: seq<Byte>, size: nat): Option<seq<Byte>> {
    match FirstValue(pairs, key)
    case None => None
    case Some(v) => if |Encode(v)| < ENCODED_SIZE && |v| < size then Some(v) else None
  }

  ghost predicate PlainLookupRight(path: seq<Byte>, pairs: seq<Pair>, key: seq<Byte>, size: nat) {
    QUESTION !in path ==> Answer(path + [QUESTION] + Print(pairs), key, size) == Expected(pairs, key, size)
  }

  /** For which keys a lookup by the plain key is right on every printed list: those that need no encoding. */
  lemma PlainLookupExactly(key: seq<Byte>)
    ensures (forall path, pairs, size: nat :: PlainLookupRight(path, pairs, key, size)) <==> AllUnreserved(key)
  {
    UnchangedIffUnreserved(key);
    if AllUnreserved(key) {
      forall path, pairs, size: nat ensures PlainLookupRight(path, pairs, key, size) {
        if QUESTION !in path { QueryRoundTrip(path, pairs, key, size); }
      }
    } else {
      PlainKeyFoundExactly([], key, [], 1);
      assert !PlainLookupRight([], [Pair(key, [])], key, 1);
    }
  }
}

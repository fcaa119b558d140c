/**
 * `make_key`: 16 random bytes, encoded with the URL- and filename-safe
 * Base64 alphabet of section 5 of RFC 4648, with the `=` padding stripped,
 * behind the literal prefix `KEY-`. The random bytes are a parameter.
 *
 * The encoding works in two layers: bytes are cut into 6-bit values
 * (`Sextets`), and each value is written as one symbol (`Symbol`). The
 * decoder undoes both. It is strict (it refuses leftover bits that are not
 * zero), so each key has exactly one byte string behind it.
 */
module KeyCodec {
  import opened Wrappers

  newtype Byte = b: int | 0 <= b < 256

  const KeyPrefix: string := "KEY-"
  const RawKeyLength: nat := 16
  /** Encoded length of `RawKeyLength` bytes without padding. */
  const EncodedKeyLength: nat := 22

  // ---------------------------------------------------------------------------
  // The alphabet of section 5 of RFC 4648: A-Z a-z 0-9 - _
  // ---------------------------------------------------------------------------

  predicate IsUrlSafeChar(c: char) {
    'A' <= c <= 'Z' || 'a' <= c <= 'z' || '0' <= c <= '9' || c == '-' || c == '_'
  }

  predicate IsSextet(v: int) {
    0 <= v < 64
  }

  function Symbol(v: int): (c: char)
    requires IsSextet(v)
    ensures IsUrlSafeChar(c)
  {
    if v < 26 then (('A' as int) + v) as char
    else if v < 52 then (('a' as int) + v - 26) as char
    else if v < 62 then (('0' as int) + v - 52) as char
    else if v == 62 then '-'
    else '_'
  }

  function SymbolIndex(c: char): (v: int)
    requires IsUrlSafeChar(c)
    ensures IsSextet(v) && Symbol(v) == c
  {
    if 'A' <= c <= 'Z' then c as int - 'A' as int
    else if 'a' <= c <= 'z' then c as int - 'a' as int + 26
    else if '0' <= c <= '9' then c as int - '0' as int + 52
    else if c == '-' then 62
    else 63
  }

  lemma SymbolIndexOfSymbol(v: int)
    requires IsSextet(v)
    ensures SymbolIndex(Symbol(v)) == v
  {
  }

  predicate AllSextets(vs: seq<int>) {
    forall i :: 0 <= i < |vs| ==> IsSextet(vs[i])
  }

  predicate AllUrlSafe(s: string) {
    forall i :: 0 <= i < |s| ==> IsUrlSafeChar(s[i])
  }

  function Symbols(vs: seq<int>): (s: string)
    requires AllSextets(vs)
    ensures |s| == |vs| && AllUrlSafe(s)
  {
    seq(|vs|, i requires 0 <= i < |vs| => Symbol(vs[i]))
  }

  function SymbolIndices(s: string): (vs: seq<int>)
    requires AllUrlSafe(s)
    ensures |vs| == |s| && AllSextets(vs)
  {
    seq(|s|, i requires 0 <= i < |s| => SymbolIndex(s[i]))
  }

  lemma SymbolIndicesOfSymbols(vs: seq<int>)
    requires AllSextets(vs)
    ensures SymbolIndices(Symbols(vs)) == vs
  {
    forall i | 0 <= i < |vs| ensures SymbolIndices(Symbols(vs))[i] == vs[i] {
      SymbolIndexOfSymbol(vs[i]);
    }
  }

  lemma SymbolsOfSymbolIndices(s: string)
    requires AllUrlSafe(s)
    ensures Symbols(SymbolIndices(s)) == s
  {
  }

  // ---------------------------------------------------------------------------
  // Bytes to 6-bit values: 3 bytes give 4 values; a final 1 or 2 bytes give 2 or 3.
  // ---------------------------------------------------------------------------

  function SplitTriple(x0: int, x1: int, x2: int): seq<int> {
    [x0 / 4, (x0 % 4) * 16 + x1 / 16, (x1 % 16) * 4 + x2 / 64, x2 % 64]
  }

  function SplitPair(x0: int, x1: int): seq<int> {
    [x0 / 4, (x0 % 4) * 16 + x1 / 16, (x1 % 16) * 4]
  }

  function SplitSingle(x0: int): seq<int> {
    [x0 / 4, (x0 % 4) * 16]
  }

  function Sextets(bs: seq<Byte>): (vs: seq<int>)
    ensures AllSextets(vs)
    decreases |bs|
  {
    if |bs| >= 3 then SplitTriple(bs[0] as int, bs[1] as int, bs[2] as int) + Sextets(bs[3..])
    else if |bs| == 2 then SplitPair(bs[0] as int, bs[1] as int)
    else if |bs| == 1 then SplitSingle(bs[0] as int)
    else []
  }

  function JoinQuad(v0: int, v1: int, v2: int, v3: int): seq<Byte>
    requires IsSextet(v0) && IsSextet(v1) && IsSextet(v2) && IsSextet(v3)
  {
    [(v0 * 4 + v1 / 16) as Byte, ((v1 % 16) * 16 + v2 / 4) as Byte, ((v2 % 4) * 64 + v3) as Byte]
  }

  function JoinTrio(v0: int, v1: int, v2: int): seq<Byte>
    requires IsSextet(v0) && IsSextet(v1) && IsSextet(v2)
  {
    [(v0 * 4 + v1 / 16) as Byte, ((v1 % 16) * 16 + v2 / 4) as Byte]
  }

  function JoinDuo(v0: int, v1: int): seq<Byte>
    requires IsSextet(v0) && IsSextet(v1)
  {
    [(v0 * 4 + v1 / 16) as Byte]
  }

  /** 6-bit values back to bytes; `None` for a length of 1 mod 4 or leftover bits that are not zero. */
  function JoinSextets(vs: seq<int>): Option<seq<Byte>>
    requires AllSextets(vs)
    decreases |vs|
  {
    if |vs| >= 4 then
      match JoinSextets(vs[4..])
      case Some(tail) => Some(JoinQuad(vs[0], vs[1], vs[2], vs[3]) + tail)
      case None => None
    else if |vs| == 3 then
      if vs[2] % 4 != 0 then None else Some(JoinTrio(vs[0], vs[1], vs[2]))
    else if |vs| == 2 then
      if vs[1] % 16 != 0 then None else Some(JoinDuo(vs[0], vs[1]))
    else if |vs| == 1 then None
    else Some([])
  }

  // ---------------------------------------------------------------------------
  // Encoding and decoding text.
  // ---------------------------------------------------------------------------

  /** Base64url without padding: 4 symbols per 3 bytes, 2 or 3 for a final 1 or 2 bytes. */
  function Encode(bs: seq<Byte>): (s: string)
    ensures |s| == (|bs| / 3) * 4 + [0, 2, 3][|bs| % 3]
    ensures AllUrlSafe(s)
  {
    SextetsLength(bs);
    Symbols(Sextets(bs))
  }

  /** `base64.urlsafe_b64encode`: the symbols, padded with `=` to a multiple of 4. */
  function EncodePadded(bs: seq<Byte>): (s: string)
    ensures |s| % 4 == 0
  {
    Encode(bs) + (if |bs| % 3 == 1 then "==" else if |bs| % 3 == 2 then "=" else "")
  }

  /** `str.rstrip("=")`. */
  function StripPadding(s: string): (r: string)
    ensures |r| <= |s| && r == s[..|r|]
    ensures r == [] || r[|r| - 1] != '='
    ensures forall i :: |r| <= i < |s| ==> s[i] == '='
  {
    if |s| > 0 && s[|s| - 1] == '=' then StripPadding(s[..|s| - 1]) else s
  }

  /** Decodes unpadded base64url text; `None` for a bad symbol, length or leftover bits. */
  function Decode(s: string): Option<seq<Byte>> {
    if AllUrlSafe(s) then JoinSextets(SymbolIndices(s)) else None
  }

  // ---------------------------------------------------------------------------
  // Arithmetic of one group.
  // ---------------------------------------------------------------------------

  lemma Pack4(a: int, b: int)
    requires 0 <= b < 4
    ensures (a * 4 + b) / 4 == a && (a * 4 + b) % 4 == b
  {
  }

  lemma Pack16(a: int, b: int)
    requires 0 <= b < 16
    ensures (a * 16 + b) / 16 == a && (a * 16 + b) % 16 == b
  {
  }

  lemma Pack64(a: int, b: int)
    requires 0 <= b < 64
    ensures (a * 64 + b) / 64 == a && (a * 64 + b) % 64 == b
  {
  }

  /** Three bytes cut into four 6-bit values join back into the same bytes. */
  lemma SplitThenJoin(x0: Byte, x1: Byte, x2: Byte)
    ensures var v := SplitTriple(x0 as int, x1 as int, x2 as int);
      AllSextets(v) && JoinQuad(v[0], v[1], v[2], v[3]) == [x0, x1, x2]
  {
    Pack16(x0 as int % 4, x1 as int / 16);
    Pack4(x1 as int % 16, x2 as int / 64);
  }

  /** Four 6-bit values joined into three bytes cut back into the same values. */
  lemma JoinThenSplit(v0: int, v1: int, v2: int, v3: int)
    requires IsSextet(v0) && IsSextet(v1) && IsSextet(v2) && IsSextet(v3)
    ensures var x := JoinQuad(v0, v1, v2, v3);
      SplitTriple(x[0] as int, x[1] as int, x[2] as int) == [v0, v1, v2, v3]
  {
    Pack4(v0, v1 / 16);
    Pack16(v1 % 16, v2 / 4);
    Pack64(v2 % 4, v3);
  }

  // ---------------------------------------------------------------------------
  // Properties of the encoding.
  // ---------------------------------------------------------------------------

  lemma {:induction false} SextetsLength(bs: seq<Byte>)
    ensures |Sextets(bs)| == (|bs| / 3) * 4 + [0, 2, 3][|bs| % 3]
    decreases |bs|
  {
    if |bs| >= 3 {
      SextetsLength(bs[3..]);
    }
  }

  /** The alphabet of every encoded symbol, and the unpadded length. */
  lemma {:induction false} StripPaddingOfPadded(s: string, pad: string)
    requires s == [] || s[|s| - 1] != '='
    requires forall i :: 0 <= i < |pad| ==> pad[i] == '='
    ensures StripPadding(s + pad) == s
    decreases |pad|
  {
    if |pad| > 0 {
      assert (s + pad)[..|s + pad| - 1] == s + pad[..|pad| - 1];
      StripPaddingOfPadded(s, pad[..|pad| - 1]);
    } else {
      assert s + pad == s;
    }
  }

  /** Stripping `=` from the padded encoding gives exactly the unpadded encoding. */
  lemma StrippedEncoding(bs: seq<Byte>)
    ensures StripPadding(EncodePadded(bs)) == Encode(bs)
  {
    var e := Encode(bs);
    assert e == [] || e[|e| - 1] != '=';
    var pad := if |bs| % 3 == 1 then "==" else if |bs| % 3 == 2 then "=" else "";
    StripPaddingOfPadded(e, pad);
  }

  lemma SplitThree<T>(s: seq<T>)
    requires |s| >= 3
    ensures s == [s[0], s[1], s[2]] + s[3..]
  {
  }

  lemma PairArith(x0: int, x1: int)
    requires 0 <= x0 < 256 && 0 <= x1 < 256
    ensures var v := SplitPair(x0, x1);
      && AllSextets(v) && v[2] % 4 == 0
      && v[0] * 4 + v[1] / 16 == x0 && (v[1] % 16) * 16 + v[2] / 4 == x1
  {
    Pack16(x0 % 4, x1 / 16);
    Pack4(x1 % 16, 0);
  }

  lemma SingleArith(x0: int)
    requires 0 <= x0 < 256
    ensures var v := SplitSingle(x0);
      && AllSextets(v) && v[1] % 16 == 0 && v[0] * 4 + v[1] / 16 == x0
  {
    Pack16(x0 % 4, 0);
  }

  lemma JoinOfSplitPair(b0: Byte, b1: Byte)
    ensures var v := SplitPair(b0 as int, b1 as int);
      AllSextets(v) && v[2] % 4 == 0 && JoinTrio(v[0], v[1], v[2]) == [b0, b1]
  {
    var v := SplitPair(b0 as int, b1 as int);
    PairArith(b0 as int, b1 as int);
    var y0, y1 := v[0] * 4 + v[1] / 16, (v[1] % 16) * 16 + v[2] / 4;
    assert y0 == b0 as int && y1 == b1 as int;
    assert JoinTrio(v[0], v[1], v[2]) == [y0 as Byte, y1 as Byte];
  }

  lemma JoinOfSplitSingle(b0: Byte)
    ensures var v := SplitSingle(b0 as int);
      AllSextets(v) && v[1] % 16 == 0 && JoinDuo(v[0], v[1]) == [b0]
  {
    var v := SplitSingle(b0 as int);
    SingleArith(b0 as int);
    var y0 := v[0] * 4 + v[1] / 16;
    assert y0 == b0 as int;
    assert JoinDuo(v[0], v[1]) == [y0 as Byte];
  }

  lemma JoinSextetsPair(bs: seq<Byte>)
    requires |bs| == 2
    ensures JoinSextets(Sextets(bs)) == Some(bs)
  {
    var v := SplitPair(bs[0] as int, bs[1] as int);
    assert Sextets(bs) == v;
    JoinOfSplitPair(bs[0], bs[1]);
    assert JoinSextets(v) == Some(JoinTrio(v[0], v[1], v[2]));
    assert bs == [bs[0], bs[1]];
  }

  lemma JoinSextetsSingle(bs: seq<Byte>)
    requires |bs| == 1
    ensures JoinSextets(Sextets(bs)) == Some(bs)
  {
    var v := SplitSingle(bs[0] as int);
    assert Sextets(bs) == v;
    JoinOfSplitSingle(bs[0]);
    assert JoinSextets(v) == Some(JoinDuo(v[0], v[1]));
    assert bs == [bs[0]];
  }

  lemma JoinSextetsStep(bs: seq<Byte>)
    requires |bs| >= 3
    requires JoinSextets(Sextets(bs[3..])) == Some(bs[3..])
    ensures JoinSextets(Sextets(bs)) == Some(bs)
  {
    SplitThree(bs);
    var head := SplitTriple(bs[0] as int, bs[1] as int, bs[2] as int);
    var vs := head + Sextets(bs[3..]);
    assert Sextets(bs) == vs;
    assert vs[4..] == Sextets(bs[3..]);
    assert vs[..4] == head;
    SplitThenJoin(bs[0], bs[1], bs[2]);
  }

  /** Joining undoes splitting, for every byte string. */
  lemma {:induction false} JoinSplitSextets(bs: seq<Byte>)
    ensures JoinSextets(Sextets(bs)) == Some(bs)
    decreases |bs|
  {
    if |bs| >= 3 {
      JoinSplitSextets(bs[3..]);
      JoinSextetsStep(bs);
    } else if |bs| == 2 {
      JoinSextetsPair(bs);
    } else if |bs| == 1 {
      JoinSextetsSingle(bs);
    }
  }

  lemma TrioArith(v0: int, v1: int, v2: int)
    requires IsSextet(v0) && IsSextet(v1) && IsSextet(v2) && v2 % 4 == 0
    ensures var x0, x1 := v0 * 4 + v1 / 16, (v1 % 16) * 16 + v2 / 4;
      && 0 <= x0 < 256 && 0 <= x1 < 256 && SplitPair(x0, x1) == [v0, v1, v2]
  {
    Pack4(v0, v1 / 16);
    Pack16(v1 % 16, v2 / 4);
  }

  lemma DuoArith(v0: int, v1: int)
    requires IsSextet(v0) && IsSextet(v1) && v1 % 16 == 0
    ensures var x0 := v0 * 4 + v1 / 16;
      && 0 <= x0 < 256 && SplitSingle(x0) == [v0, v1]
  {
    Pack4(v0, v1 / 16);
  }

  lemma SplitOfJoinTrio(v0: int, v1: int, v2: int)
    requires IsSextet(v0) && IsSextet(v1) && IsSextet(v2) && v2 % 4 == 0
    ensures Sextets(JoinTrio(v0, v1, v2)) == [v0, v1, v2]
  {
    var bs := JoinTrio(v0, v1, v2);
    TrioArith(v0, v1, v2);
    assert Sextets(bs) == SplitPair(bs[0] as int, bs[1] as int);
  }

  lemma SplitOfJoinDuo(v0: int, v1: int)
    requires IsSextet(v0) && IsSextet(v1) && v1 % 16 == 0
    ensures Sextets(JoinDuo(v0, v1)) == [v0, v1]
  {
    var bs := JoinDuo(v0, v1);
    DuoArith(v0, v1);
    assert Sextets(bs) == SplitSingle(bs[0] as int);
  }

  lemma SplitJoinTrio(vs: seq<int>, bs: seq<Byte>)
    requires AllSextets(vs) && |vs| == 3
    requires JoinSextets(vs) == Some(bs)
    ensures Sextets(bs) == vs
  {
    assert vs[2] % 4 == 0 && bs == JoinTrio(vs[0], vs[1], vs[2]);
    SplitOfJoinTrio(vs[0], vs[1], vs[2]);
    assert vs == [vs[0], vs[1], vs[2]];
  }

  lemma SplitJoinDuo(vs: seq<int>, bs: seq<Byte>)
    requires AllSextets(vs) && |vs| == 2
    requires JoinSextets(vs) == Some(bs)
    ensures Sextets(bs) == vs
  {
    assert vs[1] % 16 == 0 && bs == JoinDuo(vs[0], vs[1]);
    SplitOfJoinDuo(vs[0], vs[1]);
    assert vs == [vs[0], vs[1]];
  }

  lemma SplitJoinStep(vs: seq<int>, bs: seq<Byte>, tail: seq<Byte>)
    requires AllSextets(vs) && |vs| >= 4
    requires JoinSextets(vs[4..]) == Some(tail) && Sextets(tail) == vs[4..]
    requires JoinSextets(vs) == Some(bs)
    ensures Sextets(bs) == vs
  {
    var group := JoinQuad(vs[0], vs[1], vs[2], vs[3]);
    assert bs == group + tail;
    assert bs[3..] == tail;
    JoinThenSplit(vs[0], vs[1], vs[2], vs[3]);
    assert vs == vs[..4] + vs[4..];
  }

  /** 6-bit values that join into bytes are exactly the values those bytes split into. */
  lemma {:induction false} SplitJoinSextets(vs: seq<int>)
    requires AllSextets(vs)
    ensures JoinSextets(vs).Some? ==> Sextets(JoinSextets(vs).value) == vs
    decreases |vs|
  {
    if JoinSextets(vs).Some? {
      var bs := JoinSextets(vs).value;
      if |vs| >= 4 {
        SplitJoinSextets(vs[4..]);
        SplitJoinStep(vs, bs, JoinSextets(vs[4..]).value);
      } else if |vs| == 3 {
        SplitJoinTrio(vs, bs);
      } else if |vs| == 2 {
        SplitJoinDuo(vs, bs);
      }
    }
  }

  /** Decoding undoes encoding, for every byte string. */
  lemma DecodeEncode(bs: seq<Byte>)
    ensures Decode(Encode(bs)) == Some(bs)
  {
    SymbolIndicesOfSymbols(Sextets(bs));
    JoinSplitSextets(bs);
  }

  /** Text the decoder accepts is exactly the encoding of what it decodes to. */
  lemma EncodeDecode(s: string)
    ensures Decode(s).Some? ==> Encode(Decode(s).value) == s
  {
    if Decode(s).Some? {
      SplitJoinSextets(SymbolIndices(s));
      SymbolsOfSymbolIndices(s);
    }
  }

  // ---------------------------------------------------------------------------
  // Keys.
  // ---------------------------------------------------------------------------

  /** `make_key` with its 16 random bytes given as `raw`. */
  function MakeKey(raw: seq<Byte>): (key: string)
    ensures |key| >= |KeyPrefix| && key[..|KeyPrefix|] == KeyPrefix
  {
    KeyPrefix + StripPadding(EncodePadded(raw))
  }

  /** The bytes behind a key, if it is `KEY-` followed by canonical unpadded base64url. */
  function ParseKey(key: string): Option<seq<Byte>> {
    if |key| >= |KeyPrefix| && key[..|KeyPrefix|] == KeyPrefix then Decode(key[|KeyPrefix|..]) else None
  }

  lemma KeyChars(e: string)
    requires AllUrlSafe(e)
    ensures forall i :: |KeyPrefix| <= i < |KeyPrefix + e| ==> IsUrlSafeChar((KeyPrefix + e)[i])
    ensures '=' !in KeyPrefix + e
  {
    var key := KeyPrefix + e;
    assert forall i :: |KeyPrefix| <= i < |key| ==> key[i] == e[i - |KeyPrefix|];
    assert forall i :: 0 <= i < |key| ==> key[i] != '=';
  }

  /** A key is `KEY-` and 22 URL-safe symbols, none of them `=`. */
  lemma MakeKeyShape(raw: seq<Byte>)
    requires |raw| == RawKeyLength
    ensures |MakeKey(raw)| == |KeyPrefix| + EncodedKeyLength
    ensures forall i :: |KeyPrefix| <= i < |MakeKey(raw)| ==> IsUrlSafeChar(MakeKey(raw)[i])
    ensures '=' !in MakeKey(raw)
  {
    var e := Encode(raw);
    assert |e| == EncodedKeyLength && AllUrlSafe(e) by {
    }
    assert MakeKey(raw) == KeyPrefix + e by {
      StrippedEncoding(raw);
    }
    KeyChars(e);
  }

  /** Every key parses back to the bytes it was made from. */
  lemma ParseMakeKey(raw: seq<Byte>)
    ensures ParseKey(MakeKey(raw)) == Some(raw)
  {
    StrippedEncoding(raw);
    DecodeEncode(raw);
    assert MakeKey(raw)[|KeyPrefix|..] == Encode(raw);
  }

  /** A string that parses to some bytes is the key made from those bytes, and nothing else. */
  lemma MakeParseKey(key: string)
    ensures ParseKey(key).Some? ==> MakeKey(ParseKey(key).value) == key
  {
    if ParseKey(key).Some? {
      var raw := ParseKey(key).value;
      var body := key[|KeyPrefix|..];
      assert key[..|KeyPrefix|] == KeyPrefix && Decode(body) == Some(raw);
      assert key == KeyPrefix + body;
      EncodeDecode(body);
      StrippedEncoding(raw);
    }
  }

  /** Different random bytes never give the same key. */
  lemma MakeKeyInjective(raw1: seq<Byte>, raw2: seq<Byte>)
    requires MakeKey(raw1) == MakeKey(raw2)
    ensures raw1 == raw2
  {
    ParseMakeKey(raw1);
    ParseMakeKey(raw2);
  }

  /** `[make_key() for _ in range(count)]`, the i-th key made from `blocks[i]`. */
  function MakeKeys(blocks: seq<seq<Byte>>): (keys: seq<string>)
    ensures |keys| == |blocks|
    ensures forall i :: 0 <= i < |blocks| ==> ParseKey(keys[i]) == Some(blocks[i])
  {
    var keys := seq(|blocks|, i requires 0 <= i < |blocks| => MakeKey(blocks[i]));
    assert forall i :: 0 <= i < |blocks| ==> ParseKey(keys[i]) == Some(blocks[i]) by {
      forall i | 0 <= i < |blocks| {
        ParseMakeKey(blocks[i]);
      }
    }
    keys
  }

  /** Keys made from pairwise different random blocks are pairwise different. */
  lemma MakeKeysDistinct(blocks: seq<seq<Byte>>)
    requires forall i, j :: 0 <= i < j < |blocks| ==> blocks[i] != blocks[j]
    ensures forall i, j :: 0 <= i < j < |blocks| ==> MakeKeys(blocks)[i] != MakeKeys(blocks)[j]
  {
    var keys := MakeKeys(blocks);
    forall i, j | 0 <= i < j < |blocks|
      ensures ParseKey(keys[i]) != ParseKey(keys[j])
    {
    }
  }

  // ---------------------------------------------------------------------------
  // The alphabet table and test vectors.
  // ---------------------------------------------------------------------------

  /**
   * The order of the table in section 5 of RFC 4648: 0-25 are `A`-`Z`,
   * 26-51 are `a`-`z`, 52-61 are `0`-`9`, 62 is `-` and 63 is `_`, each run
   * in consecutive character order.
   */
  lemma AlphabetOrder()
    ensures Symbol(0) == 'A' && Symbol(25) == 'Z'
    ensures Symbol(26) == 'a' && Symbol(51) == 'z'
    ensures Symbol(52) == '0' && Symbol(61) == '9'
    ensures Symbol(62) == '-' && Symbol(63) == '_'
    ensures forall v :: 0 <= v < 25 || 26 <= v < 51 || 52 <= v < 61 ==>
      Symbol(v + 1) as int == Symbol(v) as int + 1
  {
  }

  /** Encoding works group by group: bytes after a whole number of groups are encoded on their own. */
  lemma {:induction false} SextetsAppend(a: seq<Byte>, b: seq<Byte>)
    requires |a| % 3 == 0
    ensures Sextets(a + b) == Sextets(a) + Sextets(b)
    decreases |a|
  {
    if a != [] {
      assert (a + b)[3..] == a[3..] + b;
      SextetsAppend(a[3..], b);
    } else {
      assert a + b == b;
    }
  }

  // Test vectors of section 10 of RFC 4648, for the inputs "f", "fo", "foo", "foob" and "foobar".

  lemma VectorF()
    ensures EncodePadded([102]) == "Zg=="
  {
    assert Sextets([102]) == [25, 32];
  }

  lemma VectorFo()
    ensures EncodePadded([102, 111]) == "Zm8="
  {
    assert Sextets([102, 111]) == [25, 38, 60];
  }

  lemma VectorFoo()
    ensures EncodePadded([102, 111, 111]) == "Zm9v"
  {
    assert Sextets([102, 111, 111]) == [25, 38, 61, 47];
  }

  lemma VectorFoob()
    ensures EncodePadded([102, 111, 111, 98]) == "Zm9vYg=="
  {
    assert Sextets([102, 111, 111, 98]) == [25, 38, 61, 47, 24, 32];
  }

  lemma VectorFoobar()
    ensures EncodePadded([102, 111, 111, 98, 97, 114]) == "Zm9vYmFy"
  {
    assert Sextets([102, 111, 111, 98, 97, 114]) == [25, 38, 61, 47, 24, 38, 5, 50];
  }

  /** The two symbols where base64url differs from base64: 62 is `-` and 63 is `_`. */
  lemma VectorUrlSafeSymbols()
    ensures EncodePadded([251, 239, 255]) == "--__"
  {
    assert Sextets([251, 239, 255]) == [62, 62, 63, 63];
  }

  // The 16 bytes 0, 1, ..., 15, whose key is `KEY-` followed by their encoding (`StrippedEncoding`).

  lemma KeySextetsHead()
    ensures Sextets([0, 1, 2, 3, 4, 5, 6, 7, 8]) == [0, 0, 4, 2, 0, 48, 16, 5, 1, 32, 28, 8]
  {
  }

  lemma KeySextetsTail()
    ensures Sextets([9, 10, 11, 12, 13, 14, 15]) == [2, 16, 40, 11, 3, 0, 52, 14, 3, 48]
  {
  }

  lemma KeySextets()
    ensures Sextets([0, 1, 2, 3, 4, 5, 6, 7, 8, 9, 10, 11, 12, 13, 14, 15]) ==
      [0, 0, 4, 2, 0, 48, 16, 5, 1, 32, 28, 8, 2, 16, 40, 11, 3, 0, 52, 14, 3, 48]
  {
    var head: seq<Byte>, tail: seq<Byte> := [0, 1, 2, 3, 4, 5, 6, 7, 8], [9, 10, 11, 12, 13, 14, 15];
    assert [0, 1, 2, 3, 4, 5, 6, 7, 8, 9, 10, 11, 12, 13, 14, 15] == head + tail;
    SextetsAppend(head, tail);
    KeySextetsHead();
    KeySextetsTail();
  }

  lemma KeySymbols()
    ensures Symbols([0, 0, 4, 2, 0, 48, 16, 5, 1, 32, 28, 8, 2, 16, 40, 11, 3, 0, 52, 14, 3, 48]) ==
      "AAECAwQFBgcICQoLDA0ODw"
  {
  }

  lemma KeyVector()
    ensures Encode([0, 1, 2, 3, 4, 5, 6, 7, 8, 9, 10, 11, 12, 13, 14, 15]) == "AAECAwQFBgcICQoLDA0ODw"
  {
    KeySextets();
    KeySymbols();
  }
}

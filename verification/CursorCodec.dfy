/** Page cursors: the decimal text of a primary key in base64url (section 5 of RFC 4648). */
module CursorCodec {
  import opened Results

  type Bytes = seq<nat>

  predicate Octets(bs: Bytes) {
    forall i | 0 <= i < |bs| :: bs[i] < 256
  }

  // ---------- Decimal text, as ASCII octets ----------

  const MINUS := 45
  const ZERO := 48

  function Digits(n: nat): (bs: Bytes)
    ensures bs != [] && bs[0] != MINUS && Octets(bs)
  {
    if n < 10 then [ZERO + n] else Digits(n / 10) + [ZERO + n % 10]
  }

  function Decimal(k: int): (bs: Bytes)
    ensures Octets(bs)
  {
    if k < 0 then [MINUS] + Digits(-k) else Digits(k)
  }

  function ReadDigits(bs: Bytes): Option<nat> {
    if bs == [] then None
    else
      var n := |bs| - 1;
      if !(ZERO <= bs[n] < ZERO + 10) then None
      else if n == 0 then Some(bs[n] - ZERO)
      else
        var high := ReadDigits(bs[..n]);
        if high.None? then None else Some(10 * high.value + (bs[n] - ZERO))
  }

  function ReadDecimal(bs: Bytes): Option<int> {
    var negative := bs != [] && bs[0] == MINUS;
    var n: Option<nat> := ReadDigits(if negative then bs[1..] else bs);
    if n.None? then None else Some(if negative then -(n.value as int) else n.value)
  }

  lemma {:induction false} ReadDigitsOfDigits(n: nat)
    ensures ReadDigits(Digits(n)) == Some(n)
  {
    if n >= 10 {
      ReadDigitsOfDigits(n / 10);
      assert Digits(n)[..|Digits(n)| - 1] == Digits(n / 10);
    }
  }

  lemma ReadDecimalOfDecimal(k: int)
    ensures ReadDecimal(Decimal(k)) == Some(k)
  {
    var n: nat := if k < 0 then -k else k;
    var digits := Digits(n);
    ReadDigitsOfDigits(n);
    assert ([MINUS] + digits)[1..] == digits;
  }

  // ---------- base64url ----------

  function Symbol(v: nat): char
    requires v < 64
  {
    if v < 26 then 'A' + v as char
    else if v < 52 then 'a' + (v - 26) as char
    else if v < 62 then '0' + (v - 52) as char
    else if v == 62 then '-' else '_'
  }

  function SymbolValue(c: char): (v: Option<nat>)
    ensures v.Some? ==> v.value < 64
  {
    if 'A' <= c <= 'Z' then Some((c - 'A') as nat)
    else if 'a' <= c <= 'z' then Some((c - 'a') as nat + 26)
    else if '0' <= c <= '9' then Some((c - '0') as nat + 52)
    else if c == '-' then Some(62)
    else if c == '_' then Some(63)
    else None
  }

  lemma SymbolRoundTrip(v: nat)
    requires v < 64
    ensures SymbolValue(Symbol(v)) == Some(v) && Symbol(v) != '='
  {
  }

  function EncodeGroup(a: nat, b: nat, c: nat): string
    requires a < 256 && b < 256 && c < 256
  {
    [Symbol(a / 4), Symbol(a % 4 * 16 + b / 16), Symbol(b % 16 * 4 + c / 64), Symbol(c % 64)]
  }

  function Encode(bs: Bytes): string
    requires Octets(bs)
  {
    if bs == [] then ""
    else if |bs| == 1 then [Symbol(bs[0] / 4), Symbol(bs[0] % 4 * 16)] + "=="
    else if |bs| == 2 then [Symbol(bs[0] / 4), Symbol(bs[0] % 4 * 16 + bs[1] / 16), Symbol(bs[1] % 16 * 4), '=']
    else EncodeGroup(bs[0], bs[1], bs[2]) + Encode(bs[3..])
  }

  /** One final group, with one or two padding characters, or a full group. */
  function DecodeGroup(s: string): Option<Bytes>
    requires |s| == 4
  {
    var a, b := SymbolValue(s[0]), SymbolValue(s[1]);
    if a.None? || b.None? then None
    else if s[2] == '=' && s[3] == '=' then Some([a.value * 4 + b.value / 16])
    else
      var c := SymbolValue(s[2]);
      if c.None? then None
      else if s[3] == '=' then Some([a.value * 4 + b.value / 16, b.value % 16 * 16 + c.value / 4])
      else
        var d := SymbolValue(s[3]);
        if d.None? then None
        else Some([a.value * 4 + b.value / 16, b.value % 16 * 16 + c.value / 4, c.value % 4 * 64 + d.value])
  }

  function Decode(s: string): Option<Bytes> {
    if s == "" then Some([])
    else if |s| < 4 then None
    else if |s| == 4 then DecodeGroup(s)
    else
      var group, rest := DecodeGroup(s[..4]), Decode(s[4..]);
      if group.None? || rest.None? || |group.value| != 3 then None else Some(group.value + rest.value)
  }

  /** Splitting octets over sextets loses nothing. */
  lemma SplitOctets(a: nat, b: nat, c: nat)
    requires a < 256 && b < 256 && c < 256
    ensures (a % 4 * 16 + b / 16) / 16 == a % 4 && (a % 4 * 16 + b / 16) % 16 == b / 16
    ensures (b % 16 * 4 + c / 64) / 4 == b % 16 && (b % 16 * 4 + c / 64) % 4 == c / 64
  {
  }

  function Sextet(c: char): nat {
    if SymbolValue(c).Some? then SymbolValue(c).value else 0
  }

  /** A group of four symbols spells the same 24-bit number as its three octets. */
  lemma GroupNumber(a: nat, b: nat, c: nat)
    requires a < 256 && b < 256 && c < 256
    ensures var g := EncodeGroup(a, b, c);
            0x4_0000 * Sextet(g[0]) + 0x1000 * Sextet(g[1]) + 64 * Sextet(g[2]) + Sextet(g[3])
            == 0x1_0000 * a + 0x100 * b + c
  {
    SymbolRoundTrip(a / 4);
    SymbolRoundTrip(a % 4 * 16 + b / 16);
    SymbolRoundTrip(b % 16 * 4 + c / 64);
    SymbolRoundTrip(c % 64);
  }

  predicate UrlSafe(s: string) {
    forall i | 0 <= i < |s| :: SymbolValue(s[i]).Some? || s[i] == '='
  }

  lemma GroupIsSafe(a: nat, b: nat, c: nat)
    requires a < 256 && b < 256 && c < 256
    ensures UrlSafe(EncodeGroup(a, b, c))
  {
    SymbolRoundTrip(a / 4);
    SymbolRoundTrip(a % 4 * 16 + b / 16);
    SymbolRoundTrip(b % 16 * 4 + c / 64);
    SymbolRoundTrip(c % 64);
  }

  /** Encoded text has letters, digits, `-`, `_` and padding only, four characters for every three octets begun. */
  lemma {:induction false} EncodedShape(bs: Bytes)
    requires Octets(bs)
    ensures UrlSafe(Encode(bs)) && |Encode(bs)| == (|bs| + 2) / 3 * 4
    decreases |bs|
  {
    if |bs| >= 3 {
      EncodedShape(bs[3..]);
      GroupIsSafe(bs[0], bs[1], bs[2]);
      assert (|bs| + 2) / 3 == (|bs| - 3 + 2) / 3 + 1;
    } else if |bs| == 2 {
      GroupIsSafe(bs[0], bs[1], 0);
      assert Encode(bs) == EncodeGroup(bs[0], bs[1], 0)[..3] + "=";
    } else if |bs| == 1 {
      GroupIsSafe(bs[0], 0, 0);
      assert Encode(bs) == EncodeGroup(bs[0], 0, 0)[..2] + "==";
    }
  }

  /** Test vectors of section 10 of RFC 4648. */
  lemma Vectors()
    ensures Encode([102]) == "Zg==" && Encode([102, 111]) == "Zm8=" && Encode([102, 111, 111]) == "Zm9v"
  {
    assert EncodeGroup(102, 111, 111) == "Zm9v";
  }

  lemma CursorVectors()
    ensures EncodeCursor(42) == "NDI=" && EncodeCursor(-7) == "LTc="
  {
    assert Decimal(42) == [52, 50];
    assert Decimal(-7) == [45, 55];
  }

  lemma OneOctet(a: nat)
    requires a < 256
    ensures DecodeGroup(Encode([a])) == Some([a])
  {
    SymbolRoundTrip(a / 4);
    SymbolRoundTrip(a % 4 * 16);
    SplitOctets(a, 0, 0);
  }

  lemma TwoOctets(a: nat, b: nat)
    requires a < 256 && b < 256
    ensures DecodeGroup(Encode([a, b])) == Some([a, b])
  {
    SymbolRoundTrip(a / 4);
    SymbolRoundTrip(a % 4 * 16 + b / 16);
    SymbolRoundTrip(b % 16 * 4);
    SplitOctets(a, b, 0);
  }

  lemma ThreeOctets(a: nat, b: nat, c: nat)
    requires a < 256 && b < 256 && c < 256
    ensures DecodeGroup(EncodeGroup(a, b, c)) == Some([a, b, c])
  {
    SymbolRoundTrip(a / 4);
    SymbolRoundTrip(a % 4 * 16 + b / 16);
    SymbolRoundTrip(b % 16 * 4 + c / 64);
    SymbolRoundTrip(c % 64);
    SplitOctets(a, b, c);
  }

  lemma DecodeJoined(group: string, bs: Bytes, rest: string, more: Bytes)
    requires |group| == 4 && |bs| == 3 && DecodeGroup(group) == Some(bs)
    requires Decode(rest) == Some(more) && (rest == "" <==> more == [])
    ensures Decode(group + rest) == Some(bs + more)
  {
    if rest == "" {
      assert group + rest == group && bs + more == bs;
    } else {
      assert (group + rest)[..4] == group && (group + rest)[4..] == rest;
    }
  }

  /** Decoding undoes encoding, for every octet string. */
  lemma {:induction false} DecodeOfEncode(bs: Bytes)
    requires Octets(bs)
    ensures Decode(Encode(bs)) == Some(bs) && (Encode(bs) == "" <==> bs == [])
    decreases |bs|
  {
    if |bs| == 1 {
      OneOctet(bs[0]);
      assert bs == [bs[0]];
    } else if |bs| == 2 {
      TwoOctets(bs[0], bs[1]);
      assert bs == [bs[0], bs[1]];
    } else if |bs| >= 3 {
      DecodeOfEncode(bs[3..]);
      DecodeStep(bs);
    }
  }

  lemma FirstThree(bs: Bytes)
    requires |bs| >= 3
    ensures bs == [bs[0], bs[1], bs[2]] + bs[3..]
  {
  }

  lemma DecodeStep(bs: Bytes)
    requires Octets(bs) && |bs| >= 3
    requires Decode(Encode(bs[3..])) == Some(bs[3..]) && (Encode(bs[3..]) == "" <==> bs[3..] == [])
    ensures Decode(Encode(bs)) == Some(bs) && Encode(bs) != ""
  {
    var group, rest := EncodeGroup(bs[0], bs[1], bs[2]), Encode(bs[3..]);
    assert Encode(bs) == group + rest;
    ThreeOctets(bs[0], bs[1], bs[2]);
    FirstThree(bs);
    DecodeJoined(group, [bs[0], bs[1], bs[2]], rest, bs[3..]);
  }

  // ---------- Cursors ----------

  function EncodeCursor(pk: int): string {
    Encode(Decimal(pk))
  }

  function DecodeCursor(cursor: string): Option<int> {
    var text := Decode(cursor);
    if text.None? then None else ReadDecimal(text.value)
  }

  /** A cursor gives back the key it was made from, for every integer key. */
  lemma CursorRoundTrip(pk: int)
    ensures DecodeCursor(EncodeCursor(pk)) == Some(pk)
  {
    DecodeOfEncode(Decimal(pk));
    ReadDecimalOfDecimal(pk);
  }
}

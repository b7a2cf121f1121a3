/** The key encoders of backend/utils/key_utils.py (and the identical
    `bits_to_hex` / `bits_to_string` of backend/core/bb84.py): bits to and
    from hex digits (4 bits per digit) and bytes (8 bits per byte), both
    most significant bit first with the last group zero-padded; binary
    strings; Hamming distance, weight and XOR; the grouped display; and the
    balance check. */
module KeyUtils {
  import opened Basics

  type Byte = b: int | 0 <= b < 256

  // ---------------------------------------------------------------------
  // Bit groups and their values
  // ---------------------------------------------------------------------

  function Pow2(k: nat): (p: nat)
    ensures p >= 1
  {
    if k == 0 then 1 else 2 * Pow2(k - 1)
  }

  /** The value of a group of bits read most significant bit first; this is
      what `value = (value << 1) | bit` accumulates. */
  function Pack(s: seq<Bit>): (v: nat)
    ensures v < Pow2(|s|)
    ensures |s| == 4 ==> v < 16
    ensures |s| == 8 ==> v < 256
  {
    assert Pow2(4) == 16 && Pow2(8) == 256;
    if s == [] then 0 else 2 * Pack(s[..|s| - 1]) + s[|s| - 1]
  }

  /** The `w` low bits of `v`, most significant first. */
  function Unpack(v: nat, w: nat): (r: seq<Bit>)
    ensures |r| == w
  {
    if w == 0 then [] else Unpack(v / 2, w - 1) + [v % 2]
  }

  /** `(v >> i) & 1`. */
  function BitOf(v: nat, i: nat): Bit
  {
    if i == 0 then v % 2 else BitOf(v / 2, i - 1)
  }

  /** Number of zero bits that bring a length `n` up to a multiple of `w`. */
  function PadLength(n: nat, w: nat): nat
    requires w > 0
  {
    (w - n % w) % w
  }

  /** Unpacking the value of a group gives the group back. */
  lemma {:induction false} UnpackPack(s: seq<Bit>)
    ensures Unpack(Pack(s), |s|) == s
  {
    if s != [] {
      var init := s[..|s| - 1];
      UnpackPack(init);
      assert (2 * Pack(init) + s[|s| - 1]) / 2 == Pack(init);
      assert s == init + [s[|s| - 1]];
    }
  }

  /** Packing the `w` low bits of a value below `2^w` gives the value back. */
  lemma {:induction false} PackUnpack(v: nat, w: nat)
    requires v < Pow2(w)
    ensures Pack(Unpack(v, w)) == v
  {
    if w > 0 {
      PackUnpack(v / 2, w - 1);
      var r := Unpack(v, w);
      assert r[..|r| - 1] == Unpack(v / 2, w - 1);
    }
  }

  /** Entry `r` of `Unpack(v, w)` is bit `w - 1 - r` of `v`: the loops that
      append `(v >> i) & 1` for i from w-1 down to 0 produce it. */
  lemma {:induction false} UnpackIndex(v: nat, w: nat, r: nat)
    requires r < w
    ensures Unpack(v, w)[r] == BitOf(v, w - 1 - r)
  {
    if r < w - 1 {
      UnpackIndex(v / 2, w - 1, r);
    }
  }

  /** `chunk[0] * 8 + chunk[1] * 4 + chunk[2] * 2 + chunk[3]` is the value of the nibble. */
  lemma NibbleValue(c: seq<Bit>)
    requires |c| == 4
    ensures c[0] as int * 8 + c[1] as int * 4 + c[2] as int * 2 + c[3] as int == Pack(c)
  {
    assert c[..3][..2] == c[..2] && c[..2][..1] == c[..1] && c[..1][..0] == [];
    assert Pack(c[..1]) == c[0];
    assert Pack(c[..2]) == 2 * c[0] as int + c[1] as int;
    assert Pack(c[..3]) == 4 * c[0] as int + 2 * c[1] as int + c[2] as int;
  }

  // ---------------------------------------------------------------------
  // Hex
  // ---------------------------------------------------------------------

  /** `format(value, 'X')` for a value below 16. */
  function HexDigit(v: nat): (d: char)
    requires v < 16
    ensures HexValue(d) == Some(v)
  {
    "0123456789ABCDEF"[v]
  }

  /** `int(ch, 16)` for one character: decimal digits and the letters a-f in
      either case; anything else raises. */
  function HexValue(ch: char): (r: Option<nat>)
    ensures r.Some? ==> r.value < 16
  {
    if '0' <= ch <= '9' then Some(ch as int - '0' as int)
    else if 'a' <= ch <= 'f' then Some(ch as int - 'a' as int + 10)
    else if 'A' <= ch <= 'F' then Some(ch as int - 'A' as int + 10)
    else None
  }

  /** A hex digit with a lower-case letter turned upper-case. */
  function UpperHex(ch: char): char
  {
    if 'a' <= ch <= 'f' then (ch as int - 'a' as int + 'A' as int) as char else ch
  }

  function UpperHexString(s: string): (r: string)
    ensures |r| == |s| && forall i :: 0 <= i < |s| ==> r[i] == UpperHex(s[i])
  {
    seq(|s|, i requires 0 <= i < |s| => UpperHex(s[i]))
  }

  /** The digit written for a valid hex character is its upper-case form. */
  lemma HexDigitOfValue(ch: char)
    requires HexValue(ch).Some?
    ensures HexDigit(HexValue(ch).value) == UpperHex(ch)
  {
  }

  /** The hex string of a list of bits: one digit per group of 4, the last
      group padded with zeros. */
  function HexOf(bits: seq<Bit>): (h: string)
    ensures |h| == CeilDiv(|bits|, 4)
    decreases |bits|
  {
    if bits == [] then ""
    else
      var c := Min(4, |bits|);
      [HexDigit(Pack(bits[..c] + Zeros(4 - c)))] + HexOf(bits[c..])
  }

  /** Appending one more zero to a zero-padded list. */
  lemma ZerosSnoc(s: seq<Bit>, k: nat)
    ensures s + Zeros(k) + [0] == s + Zeros(k + 1)
  {
    assert Zeros(k) + [0] == Zeros(k + 1);
  }

  /** One step of `HexOf` taken at position `i`: the padded group starting
      at `i`, then the rest from the end of that group. */
  lemma HexOfAt(bits: seq<Bit>, i: nat, end: nat)
    requires i < |bits| && end == Min(i + 4, |bits|)
    ensures HexOf(bits[i..]) == [HexDigit(Pack(bits[i..end] + Zeros(4 - (end - i))))] + HexOf(bits[end..])
  {
    assert bits[i..][..end - i] == bits[i..end];
    assert bits[i..][end - i..] == bits[end..];
  }

  /** `bits_to_hex`. */
  method BitsToHex(bits: seq<Bit>) returns (hexString: string)
    ensures hexString == HexOf(bits)
  {
    if bits == [] {
      return "";
    }
    hexString := "";
    assert bits[0..] == bits;
    var i := 0;
    while i < |bits|
      invariant 0 <= i
      invariant HexOf(bits) == hexString + HexOf(bits[Min(i, |bits|)..])
    {
      var end := Min(i + 4, |bits|);
      var chunk := PadChunk(bits[i..end]);
      var value := chunk[0] as int * 8 + chunk[1] as int * 4 + chunk[2] as int * 2 + chunk[3] as int;
      EncodeStep(bits, hexString, i, end, chunk, value);
      hexString := hexString + [HexDigit(value)];
      i := i + 4;
    }
    assert bits[Min(i, |bits|)..] == [];
    assert hexString + HexOf([]) == hexString;
  }

  /** The padding step of `bits_to_hex`: zeros are appended to a short last
      group until it has 4 bits. */
  method PadChunk(group: seq<Bit>) returns (chunk: seq<Bit>)
    requires |group| <= 4
    ensures chunk == group + Zeros(4 - |group|)
  {
    chunk := group;
    assert chunk == group + Zeros(0);
    while |chunk| < 4
      invariant |group| <= |chunk| <= 4
      invariant chunk == group + Zeros(|chunk| - |group|)
    {
      ZerosSnoc(group, |chunk| - |group|);
      chunk := chunk + [0];
    }
  }

  /** One iteration of the encoding loop keeps the encoded prefix on track. */
  lemma EncodeStep(bits: seq<Bit>, done: string, i: nat, end: nat, chunk: seq<Bit>, value: int)
    requires i < |bits| && end == Min(i + 4, |bits|)
    requires chunk == bits[i..end] + Zeros(4 - (end - i))
    requires value == chunk[0] as int * 8 + chunk[1] as int * 4 + chunk[2] as int * 2 + chunk[3] as int
    requires HexOf(bits) == done + HexOf(bits[i..])
    ensures 0 <= value < 16
    ensures HexOf(bits) == done + [HexDigit(value)] + HexOf(bits[end..])
  {
    NibbleValue(chunk);
    HexOfAt(bits, i, end);
    ConcatAssoc(done, [HexDigit(value)], HexOf(bits[end..]));
  }

  /** `hex_to_bits` on values: 4 bits per character, or an error at the
      first character `int(_, 16)` refuses. */
  function DecodeHex(s: string): (r: Result<seq<Bit>>)
    ensures r.Ok? <==> forall i :: 0 <= i < |s| ==> HexValue(s[i]).Some?
    ensures r.Err? ==> r.error == InvalidCharacter
    ensures r.Ok? ==> |r.value| == 4 * |s|
  {
    if s == [] then Ok([])
    else
      match HexValue(s[0])
      case None => Err(InvalidCharacter)
      case Some(v) =>
        match DecodeHex(s[1..])
        case Err(e) => Err(e)
        case Ok(rest) =>
          assert forall i :: 1 <= i < |s| ==> s[i] == s[1..][i - 1];
          Ok(Unpack(v, 4) + rest)
  }

  /** `DecodeHex` on the suffix from `k` unfolds to the digit at `k` and the
      suffix from `k + 1`. */
  lemma DecodeHexAt(s: string, k: nat)
    requires k < |s|
    ensures HexValue(s[k]).None? ==> DecodeHex(s[k..]).Err?
    ensures HexValue(s[k]).Some? ==> (DecodeHex(s[k..]).Ok? <==> DecodeHex(s[k + 1..]).Ok?)
    ensures HexValue(s[k]).Some? && DecodeHex(s[k..]).Ok? ==>
      DecodeHex(s[k..]).value == Unpack(HexValue(s[k]).value, 4) + DecodeHex(s[k + 1..]).value
  {
    assert s[k..][0] == s[k] && s[k..][1..] == s[k + 1..];
  }

  /** `hex_to_bits`. */
  method HexToBits(hexString: string) returns (r: Result<seq<Bit>>)
    ensures r == DecodeHex(hexString)
  {
    var bits: seq<Bit> := [];
    assert hexString[0..] == hexString;
    for k := 0 to |hexString|
      invariant DecodeHex(hexString).Ok? <==> DecodeHex(hexString[k..]).Ok?
      invariant DecodeHex(hexString).Ok? ==> DecodeHex(hexString).value == bits + DecodeHex(hexString[k..]).value
    {
      var hexChar := hexString[k];
      var parsed := HexValue(hexChar);
      DecodeHexAt(hexString, k);
      if parsed.None? {
        return Err(InvalidCharacter);
      }
      ghost var before := bits;
      bits := AppendBits(bits, parsed.value, 4);
      DecodeStep(hexString, k, before, bits);
    }
    assert hexString[|hexString|..] == [];
    assert bits + [] == bits;
    r := Ok(bits);
  }

  /** The inner loop of `hex_to_bits` and `bytes_to_bits`: the `w` low bits
      of `value`, most significant first, appended as `(value >> i) & 1`. */
  method AppendBits(bits: seq<Bit>, value: nat, w: nat) returns (r: seq<Bit>)
    ensures r == bits + Unpack(value, w)
  {
    r := bits;
    var i := w - 1;
    while i >= 0
      invariant -1 <= i <= w - 1
      invariant r == bits + Unpack(value, w)[..w - 1 - i]
    {
      UnpackIndex(value, w, w - 1 - i);
      assert Unpack(value, w)[..w - 1 - i + 1] == Unpack(value, w)[..w - 1 - i] + [BitOf(value, i)];
      r := r + [BitOf(value, i)];
      i := i - 1;
    }
    assert Unpack(value, w)[..w] == Unpack(value, w);
  }

  /** One iteration of the decoding loop keeps the decoded prefix on track. */
  lemma DecodeStep(s: string, k: nat, before: seq<Bit>, after: seq<Bit>)
    requires k < |s| && HexValue(s[k]).Some?
    requires after == before + Unpack(HexValue(s[k]).value, 4)
    requires DecodeHex(s).Ok? <==> DecodeHex(s[k..]).Ok?
    requires DecodeHex(s).Ok? ==> DecodeHex(s).value == before + DecodeHex(s[k..]).value
    ensures DecodeHex(s).Ok? <==> DecodeHex(s[k + 1..]).Ok?
    ensures DecodeHex(s).Ok? ==> DecodeHex(s).value == after + DecodeHex(s[k + 1..]).value
  {
    DecodeHexAt(s, k);
    ChainStep(DecodeHex(s), DecodeHex(s[k..]), DecodeHex(s[k + 1..]), before, Unpack(HexValue(s[k]).value, 4), after);
  }

  /** The bookkeeping of one decoding step, on the three results involved. */
  lemma ChainStep(whole: Result<seq<Bit>>, here: Result<seq<Bit>>, next: Result<seq<Bit>>,
                  before: seq<Bit>, u: seq<Bit>, after: seq<Bit>)
    requires here.Ok? <==> next.Ok?
    requires here.Ok? ==> here.value == u + next.value
    requires whole.Ok? <==> here.Ok?
    requires whole.Ok? ==> whole.value == before + here.value
    requires after == before + u
    ensures whole.Ok? <==> next.Ok?
    ensures whole.Ok? ==> whole.value == after + next.value
  {
    if whole.Ok? {
      assert before + (u + next.value) == before + u + next.value;
    }
  }

  /** Round trip: decoding the hex of `b` gives `b` zero-padded to a multiple of 4. */
  lemma DecodeHexCons(d: char, t: string)
    requires HexValue(d).Some? && DecodeHex(t).Ok?
    ensures DecodeHex([d] + t) == Ok(Unpack(HexValue(d).value, 4) + DecodeHex(t).value)
  {
    assert ([d] + t)[0] == d && ([d] + t)[1..] == t;
  }

  lemma PadLengthFour(n: nat)
    ensures n >= 4 ==> PadLength(n - 4, 4) == PadLength(n, 4)
    ensures 1 <= n <= 4 ==> PadLength(n, 4) == 4 - n
    ensures PadLength(0, 4) == 0
  {
  }

  /** Decoding the first digit of `HexOf(b)` gives the first group, padded. */
  lemma DecodeHexOfHead(b: seq<Bit>)
    requires b != [] && DecodeHex(HexOf(b[Min(4, |b|)..])).Ok?
    ensures DecodeHex(HexOf(b))
      == Ok(b[..Min(4, |b|)] + Zeros(4 - Min(4, |b|)) + DecodeHex(HexOf(b[Min(4, |b|)..])).value)
  {
    var c := Min(4, |b|);
    var chunk := b[..c] + Zeros(4 - c);
    var digit := HexDigit(Pack(chunk));
    var tail := HexOf(b[c..]);
    assert HexOf(b) == [digit] + tail;
    UnpackPack(chunk);
    assert Unpack(HexValue(digit).value, 4) == chunk;
    DecodeHexCons(digit, tail);
  }

  /** Padding the first group to 4 and the rest to a multiple of 4 pads the
      whole list to a multiple of 4. */
  lemma PaddedSplit(b: seq<Bit>)
    requires b != []
    ensures b[..Min(4, |b|)] + Zeros(4 - Min(4, |b|)) + (b[Min(4, |b|)..] + Zeros(PadLength(|b| - Min(4, |b|), 4)))
      == b + Zeros(PadLength(|b|, 4))
  {
    PadLengthFour(|b|);
    if |b| > 4 {
      PadLengthFour(|b| - 4);
      assert b[..4] + Zeros(0) + (b[4..] + Zeros(PadLength(|b|, 4))) == b + Zeros(PadLength(|b|, 4));
    } else {
      assert b[..|b|] == b && b[|b|..] == [];
    }
  }

  lemma {:induction false} DecodeHexOf(b: seq<Bit>)
    ensures DecodeHex(HexOf(b)) == Ok(b + Zeros(PadLength(|b|, 4)))
    decreases |b|
  {
    if b == [] {
      PadLengthFour(0);
      assert b + Zeros(0) == [];
    } else {
      var c := Min(4, |b|);
      DecodeHexOf(b[c..]);
      DecodeHexOfHead(b);
      PaddedSplit(b);
    }
  }

  /** Round trip: the hex of the bits decoded from a valid hex string is that
      string in upper case. */
  lemma {:induction false} HexOfDecode(h: string)
    requires DecodeHex(h).Ok?
    ensures HexOf(DecodeHex(h).value) == UpperHexString(h)
    decreases |h|
  {
    if h != [] {
      DecodeHexHead(h);
      var v := HexValue(h[0]).value;
      var rest := DecodeHex(h[1..]).value;
      HexOfDecode(h[1..]);
      assert Pow2(4) == 16;
      PackUnpack(v, 4);
      HexDigitOfValue(h[0]);
      HexOfCons(Unpack(v, 4), rest);
      UpperHexStringCons(h);
    }
  }

  /** A decodable string decodes to its first digit's bits, then the rest's. */
  lemma DecodeHexHead(h: string)
    requires h != [] && DecodeHex(h).Ok?
    ensures HexValue(h[0]).Some? && DecodeHex(h[1..]).Ok?
    ensures DecodeHex(h).value == Unpack(HexValue(h[0]).value, 4) + DecodeHex(h[1..]).value
  {
  }

  lemma UpperHexStringCons(h: string)
    requires h != []
    ensures UpperHexString(h) == [UpperHex(h[0])] + UpperHexString(h[1..])
  {
  }

  /** A whole first group of 4 bits is one digit of `HexOf`. */
  lemma HexOfCons(chunk: seq<Bit>, rest: seq<Bit>)
    requires |chunk| == 4
    ensures HexOf(chunk + rest) == [HexDigit(Pack(chunk))] + HexOf(rest)
  {
    var b := chunk + rest;
    assert b[..4] + Zeros(0) == chunk;
    assert b[4..] == rest;
  }

  // ---------------------------------------------------------------------
  // Bytes
  // ---------------------------------------------------------------------

  /** The bytes of a list whose length is a multiple of 8, 8 bits each. */
  function PackBytes(p: seq<Bit>): (r: seq<Byte>)
    requires |p| % 8 == 0
    ensures |r| == |p| / 8
    decreases |p|
  {
    if p == [] then []
    else
      [Pack(p[..8])] + PackBytes(p[8..])
  }

  /** `bits_to_bytes` on values: pad with zeros to a multiple of 8, then one
      byte per group. */
  function BytesOf(bits: seq<Bit>): (r: seq<Byte>)
    ensures |r| == CeilDiv(|bits|, 8)
  {
    if bits == [] then [] else PackBytes(bits + Zeros(PadLength(|bits|, 8)))
  }

  /** `value = (value << 1) | bit` extends the value of a slice by one bit. */
  lemma PackSnoc(s: seq<Bit>, j: nat)
    requires j < |s|
    ensures Pack(s[..j + 1]) == 2 * Pack(s[..j]) + s[j]
  {
    assert s[..j + 1][..j] == s[..j];
  }

  /** One step of `PackBytes` taken at position `i`. */
  lemma PackBytesAt(p: seq<Bit>, i: nat)
    requires |p| % 8 == 0 && i % 8 == 0 && i < |p|
    ensures i + 8 <= |p| && (i + 8) % 8 == 0
    ensures |p[i..]| % 8 == 0 && |p[i + 8..]| % 8 == 0
    ensures PackBytes(p[i..]) == [Pack(p[i..i + 8])] + PackBytes(p[i + 8..])
  {
    assert p[i..][..8] == p[i..i + 8] && p[i..][8..] == p[i + 8..];
  }

  /** Padding a list of length `n` one zero at a time stops exactly at
      `n + PadLength(n, 8)`, the first multiple of 8 from `n` on. */
  lemma PadByteStep(n: nat, m: nat)
    requires n <= m <= n + PadLength(n, 8)
    ensures m % 8 == 0 <==> m == n + PadLength(n, 8)
  {
  }

  /** The padding step of `bits_to_bytes`: zeros are appended to a copy
      until its length is a multiple of 8. */
  method PadToByte(bits: seq<Bit>) returns (paddedBits: seq<Bit>)
    ensures paddedBits == bits + Zeros(PadLength(|bits|, 8))
    ensures |paddedBits| % 8 == 0
  {
    paddedBits := bits;
    assert paddedBits == bits + Zeros(0);
    while |paddedBits| % 8 != 0
      invariant |bits| <= |paddedBits| <= |bits| + PadLength(|bits|, 8)
      invariant paddedBits == bits + Zeros(|paddedBits| - |bits|)
      decreases |bits| + PadLength(|bits|, 8) - |paddedBits|
    {
      PadByteStep(|bits|, |paddedBits|);
      ZerosSnoc(bits, |paddedBits| - |bits|);
      paddedBits := paddedBits + [0];
    }
    PadByteStep(|bits|, |paddedBits|);
  }

  /** `bits_to_bytes`: works on a padded copy, so the caller's list is kept. */
  method BitsToBytes(bits: seq<Bit>) returns (r: seq<Byte>)
    ensures r == BytesOf(bits)
  {
    if bits == [] {
      return [];
    }
    var paddedBits := PadToByte(bits);
    var byteArray: seq<Byte> := [];
    assert paddedBits[0..] == paddedBits;
    var i := 0;
    while i < |paddedBits|
      invariant 0 <= i <= |paddedBits| && i % 8 == 0 && |paddedBits[i..]| % 8 == 0
      invariant PackBytes(paddedBits) == byteArray + PackBytes(paddedBits[i..])
    {
      var byteValue := PackGroup(paddedBits, i);
      PackStep(paddedBits, i, byteArray);
      byteArray := byteArray + [byteValue];
      i := i + 8;
    }
    assert paddedBits[i..] == [];
    assert byteArray + [] == byteArray;
    r := byteArray;
  }

  /** One iteration of the packing loop keeps the packed prefix on track. */
  lemma PackStep(p: seq<Bit>, i: nat, done: seq<Byte>)
    requires |p| % 8 == 0 && i % 8 == 0 && i < |p|
    requires PackBytes(p) == done + PackBytes(p[i..])
    ensures i + 8 <= |p| && (i + 8) % 8 == 0 && |p[i + 8..]| % 8 == 0
    ensures PackBytes(p) == done + [Pack(p[i..i + 8])] + PackBytes(p[i + 8..])
  {
    PackBytesAt(p, i);
    ConcatAssoc(done, [Pack(p[i..i + 8])], PackBytes(p[i + 8..]));
  }

  /** The inner loop of `bits_to_bytes`: `byte_value = (byte_value << 1) | bit`
      over the 8 bits from `i`. */
  method PackGroup(p: seq<Bit>, i: nat) returns (byteValue: nat)
    requires i + 8 <= |p|
    ensures byteValue == Pack(p[i..i + 8])
  {
    ghost var group := p[i..i + 8];
    byteValue := 0;
    for j := 0 to 8
      invariant byteValue == Pack(group[..j])
    {
      PackSnoc(group, j);
      byteValue := byteValue * 2 + p[i + j];
    }
    assert group[..8] == group;
  }

  /** `bytes_to_bits` on values: 8 bits per byte. */
  function BitsOfBytes(data: seq<Byte>): (r: seq<Bit>)
    ensures |r| == 8 * |data|
  {
    if data == [] then [] else Unpack(data[0], 8) + BitsOfBytes(data[1..])
  }

  /** `bytes_to_bits`. */
  method BytesToBits(data: seq<Byte>) returns (bits: seq<Bit>)
    ensures bits == BitsOfBytes(data)
  {
    bits := [];
    for k := 0 to |data|
      invariant BitsOfBytes(data) == bits + BitsOfBytes(data[k..])
    {
      var byte := data[k];
      UnpackStep(data, k, bits);
      bits := AppendBits(bits, byte, 8);
    }
    assert data[|data|..] == [];
    assert bits + [] == bits;
  }

  /** One iteration of the unpacking loop keeps the unpacked prefix on track. */
  lemma UnpackStep(data: seq<Byte>, k: nat, done: seq<Bit>)
    requires k < |data| && BitsOfBytes(data) == done + BitsOfBytes(data[k..])
    ensures BitsOfBytes(data) == done + Unpack(data[k], 8) + BitsOfBytes(data[k + 1..])
  {
    assert data[k..][0] == data[k] && data[k..][1..] == data[k + 1..];
    ConcatAssoc(done, Unpack(data[k], 8), BitsOfBytes(data[k + 1..]));
  }

  lemma {:induction false} BitsOfPackBytes(p: seq<Bit>)
    requires |p| % 8 == 0
    ensures BitsOfBytes(PackBytes(p)) == p
    decreases |p|
  {
    if p != [] {
      UnpackPack(p[..8]);
      BitsOfPackBytes(p[8..]);
      assert PackBytes(p)[1..] == PackBytes(p[8..]);
      assert p == p[..8] + p[8..];
    }
  }

  /** Round trip: the bits of the bytes of `b` are `b` zero-padded to a multiple of 8. */
  lemma BitsOfBytesOf(b: seq<Bit>)
    ensures BitsOfBytes(BytesOf(b)) == b + Zeros(PadLength(|b|, 8))
  {
    if b != [] {
      BitsOfPackBytes(b + Zeros(PadLength(|b|, 8)));
    }
  }

  /** Round trip: packing the bits of a byte string gives it back. */
  lemma {:induction false} BytesOfBitsOf(data: seq<Byte>)
    ensures BytesOf(BitsOfBytes(data)) == data
  {
    if data != [] {
      var bits := BitsOfBytes(data);
      assert PadLength(|bits|, 8) == 0;
      assert bits + Zeros(0) == bits;
      PackBytesOfBits(data);
    }
  }

  lemma {:induction false} PackBytesOfBits(data: seq<Byte>)
    ensures PackBytes(BitsOfBytes(data)) == data
  {
    if data != [] {
      var bits := BitsOfBytes(data);
      assert bits[..8] == Unpack(data[0], 8) && bits[8..] == BitsOfBytes(data[1..]);
      PackUnpack(data[0], 8);
      PackBytesOfBits(data[1..]);
    }
  }

  // ---------------------------------------------------------------------
  // Binary strings
  // ---------------------------------------------------------------------

  function BitChar(b: Bit): char
  {
    if b == 0 then '0' else '1'
  }

  /** `bits_to_string`: `''.join(str(bit) for bit in bits)`. */
  function BitsToString(bits: seq<Bit>): (s: string)
    ensures |s| == |bits|
    ensures forall i :: 0 <= i < |bits| ==> (s[i] == '1' <==> bits[i] == 1) && (s[i] == '0' <==> bits[i] == 0)
  {
    seq(|bits|, i requires 0 <= i < |bits| => BitChar(bits[i]))
  }

  /** `string_to_bits`: refuses any character other than '0' and '1'. */
  function StringToBits(s: string): (r: Result<seq<Bit>>)
    ensures r.Ok? <==> forall i :: 0 <= i < |s| ==> s[i] == '0' || s[i] == '1'
    ensures r.Err? ==> r.error == InvalidCharacter
    ensures r.Ok? ==> |r.value| == |s|
  {
    if forall i :: 0 <= i < |s| ==> s[i] == '0' || s[i] == '1' then
      Ok(seq(|s|, i requires 0 <= i < |s| => if s[i] == '0' then 0 else 1))
    else Err(InvalidCharacter)
  }

  /** The two conversions are inverse to each other. */
  lemma StringBitsRoundTrip(bits: seq<Bit>, s: string)
    ensures StringToBits(BitsToString(bits)) == Ok(bits)
    ensures StringToBits(s).Ok? ==> BitsToString(StringToBits(s).value) == s
  {
    var t := BitsToString(bits);
    assert StringToBits(t).Ok?;
    assert StringToBits(t).value == bits by {
      forall i | 0 <= i < |bits|
        ensures StringToBits(t).value[i] == bits[i]
      {
        assert t[i] == BitChar(bits[i]);
      }
    }
  }

  // ---------------------------------------------------------------------
  // Hamming distance and weight, XOR
  // ---------------------------------------------------------------------

  /** `sum(bits)`: the number of ones. */
  function Weight(bits: seq<Bit>): (w: nat)
    ensures w <= |bits|
  {
    if bits == [] then 0 else Weight(bits[..|bits| - 1]) + bits[|bits| - 1]
  }

  /** Number of positions where two equal-length lists differ. */
  function Differences(a: seq<Bit>, b: seq<Bit>): (d: nat)
    requires |a| == |b|
    ensures d <= |a|
  {
    if a == [] then 0
    else Differences(a[..|a| - 1], b[..|b| - 1]) + (if a[|a| - 1] != b[|b| - 1] then 1 else 0)
  }

  /** `calculate_hamming_distance`. */
  function HammingDistance(a: seq<Bit>, b: seq<Bit>): (r: Result<nat>)
    ensures r.Ok? <==> |a| == |b|
    ensures r.Err? ==> r.error == LengthMismatch
    ensures r.Ok? ==> r.value <= |a|
  {
    if |a| != |b| then Err(LengthMismatch) else Ok(Differences(a, b))
  }

  /** `calculate_hamming_weight`. */
  function HammingWeight(bits: seq<Bit>): (w: nat)
    ensures w <= |bits|
  {
    Weight(bits)
  }

  function Xor(x: Bit, y: Bit): Bit
  {
    if x == y then 0 else 1
  }

  /** `xor_bits`. */
  function XorBits(a: seq<Bit>, b: seq<Bit>): (r: Result<seq<Bit>>)
    ensures r.Ok? <==> |a| == |b|
    ensures r.Err? ==> r.error == LengthMismatch
    ensures r.Ok? ==> |r.value| == |a| && forall i :: 0 <= i < |a| ==> (r.value[i] == 1 <==> a[i] != b[i])
  {
    if |a| != |b| then Err(LengthMismatch)
    else Ok(seq(|a|, i requires 0 <= i < |a| => Xor(a[i], b[i])))
  }

  /** The distance is the weight of the XOR. */
  lemma {:induction false} DistanceIsWeightOfXor(a: seq<Bit>, b: seq<Bit>)
    requires |a| == |b|
    ensures HammingDistance(a, b) == Ok(HammingWeight(XorBits(a, b).value))
  {
    if a != [] {
      var n := |a|;
      DistanceIsWeightOfXor(a[..n - 1], b[..n - 1]);
      assert XorBits(a, b).value[..n - 1] == XorBits(a[..n - 1], b[..n - 1]).value;
    }
  }

  /** XOR-ing twice with the same key gives the message back. */
  lemma XorInvolution(a: seq<Bit>, k: seq<Bit>)
    requires |a| == |k|
    ensures XorBits(XorBits(a, k).value, k) == Ok(a)
  {
    var once := XorBits(a, k).value;
    var twice := XorBits(once, k).value;
    forall i | 0 <= i < |a|
      ensures twice[i] == a[i]
    {
      assert once[i] == Xor(a[i], k[i]);
    }
    assert twice == a;
  }

  // ---------------------------------------------------------------------
  // Display
  // ---------------------------------------------------------------------

  /** `' '.join(raw[i:i+g] for i in range(0, len(raw), g))`. */
  function Grouped(raw: string, g: nat): string
    requires g > 0
    decreases |raw|
  {
    if |raw| <= g then raw else raw[..g] + " " + Grouped(raw[g..], g)
  }

  /** Deleting the spaces. */
  function RemoveSpaces(s: string): string
  {
    if s == [] then [] else (if s[0] == ' ' then [] else [s[0]]) + RemoveSpaces(s[1..])
  }

  lemma {:induction false} RemoveSpacesAppend(s: string, t: string)
    ensures RemoveSpaces(s + t) == RemoveSpaces(s) + RemoveSpaces(t)
    decreases |s|
  {
    if s == [] {
      assert s + t == t;
    } else {
      var head := if s[0] == ' ' then [] else [s[0]];
      assert (s + t)[0] == s[0] && (s + t)[1..] == s[1..] + t;
      assert RemoveSpaces(s + t) == head + RemoveSpaces(s[1..] + t);
      RemoveSpacesAppend(s[1..], t);
      ConcatAssoc(head, RemoveSpaces(s[1..]), RemoveSpaces(t));
    }
  }

  lemma {:induction false} RemoveSpacesNone(s: string)
    requires forall i :: 0 <= i < |s| ==> s[i] != ' '
    ensures RemoveSpaces(s) == s
    decreases |s|
  {
    if s != [] {
      RemoveSpacesNone(s[1..]);
    }
  }

  /** Grouping only inserts spaces: removing them gives the raw string back. */
  lemma {:induction false} GroupedRoundTrip(raw: string, g: nat)
    requires g > 0 && forall i :: 0 <= i < |raw| ==> raw[i] != ' '
    ensures RemoveSpaces(Grouped(raw, g)) == raw
    decreases |raw|
  {
    if |raw| <= g {
      RemoveSpacesNone(raw);
    } else {
      var head, tail := raw[..g], raw[g..];
      var rest := Grouped(tail, g);
      assert Grouped(raw, g) == head + " " + rest;
      assert forall i :: 0 <= i < |tail| ==> tail[i] == raw[g + i];
      GroupedRoundTrip(tail, g);
      RemoveSpacesNone(head);
      RemoveSpacesAppend(head, " ");
      assert RemoveSpaces(" ") == [];
      assert RemoveSpaces(head + " ") == head;
      RemoveSpacesAppend(head + " ", rest);
      assert raw == head + tail;
    }
  }

  /** The raw character shown at index `i` of a display in groups of `g`
      (for an `i` that is not a separating space): group `i / (g + 1)`,
      offset `i % (g + 1)` within it. */
  function RawIndex(i: nat, g: nat): nat
    requires g > 0
  {
    (i / (g + 1)) * g + i % (g + 1)
  }

  /** Where the first group of a display maps its indices. */
  lemma GroupIndexHead(i: nat, g: nat)
    requires g > 0 && i <= g
    ensures i % (g + 1) == i && RawIndex(i, g) == i
  {
    DivModUnique(i, g + 1, 0, i);
  }

  /** One group further on in the display is `g` characters further on in the
      raw string. */
  lemma GroupIndexStep(j: nat, g: nat)
    requires g > 0
    ensures (j + (g + 1)) % (g + 1) == j % (g + 1)
    ensures RawIndex(j + (g + 1), g) == RawIndex(j, g) + g
  {
    DivModStep(j, g + 1);
    var q := j / (g + 1);
    assert (q + 1) * g == q * g + g;
  }

  /** Character `i` of a grouped display: every `(g + 1)`-th character is the
      separating space, the others are the raw characters in order. */
  lemma {:induction false} GroupedAt(raw: string, g: nat, i: nat)
    requires g > 0 && i < |Grouped(raw, g)|
    ensures i % (g + 1) == g ==> Grouped(raw, g)[i] == ' '
    ensures i % (g + 1) != g ==> RawIndex(i, g) < |raw| && Grouped(raw, g)[i] == raw[RawIndex(i, g)]
    decreases |raw|
  {
    if |raw| <= g {
      GroupIndexHead(i, g);
    } else if i <= g {
      GroupIndexHead(i, g);
      assert Grouped(raw, g) == raw[..g] + " " + Grouped(raw[g..], g);
    } else {
      var tail := raw[g..];
      assert Grouped(raw, g) == raw[..g] + " " + Grouped(tail, g);
      var j: nat := i - (g + 1);
      GroupedAt(tail, g, j);
      GroupIndexStep(j, g);
    }
  }

  /** The length of a grouped display: one space between consecutive groups. */
  lemma {:induction false} GroupedLength(raw: string, g: nat)
    requires g > 0
    ensures |Grouped(raw, g)| == |raw| + Max(0, CeilDiv(|raw|, g) - 1)
    decreases |raw|
  {
    if |raw| <= g {
      CeilDivSmall(|raw|, g);
    } else {
      GroupedLength(raw[g..], g);
      CeilDivStep(|raw|, g);
      assert CeilDiv(|raw| - g, g) >= 1;
    }
  }

  /** `' '.join(...)` with groups of `g`: the length, and every character of
      the display, in terms of the raw string. */
  lemma GroupedLayout(raw: string, g: nat)
    requires g > 0
    ensures |Grouped(raw, g)| == |raw| + Max(0, CeilDiv(|raw|, g) - 1)
    ensures forall i :: 0 <= i < |Grouped(raw, g)| && i % (g + 1) == g ==> Grouped(raw, g)[i] == ' '
    ensures forall i :: 0 <= i < |Grouped(raw, g)| && i % (g + 1) != g ==>
      RawIndex(i, g) < |raw| && Grouped(raw, g)[i] == raw[RawIndex(i, g)]
  {
    GroupedLength(raw, g);
    forall i | 0 <= i < |Grouped(raw, g)| {
      GroupedAt(raw, g, i);
    }
  }

  datatype DisplayFormat = Hex | Base64 | Binary

  function ParseFormat(s: string): Option<DisplayFormat>
  {
    if s == "hex" then Some(Hex)
    else if s == "base64" then Some(Base64)
    else if s == "binary" then Some(Binary)
    else None
  }

  /** `format_key_display`; `b64` stands for `bits_to_base64`, whose base64
      step is a library call. */
  function FormatKeyDisplay(bits: seq<Bit>, formatType: string, groupSize: int, b64: seq<Bit> -> string)
    : (r: Result<string>)
    ensures r.Ok? <==> ParseFormat(formatType).Some?
    ensures r.Err? ==> r.error == InvalidFormat
    ensures formatType == "hex" && groupSize <= 0 ==> r == Ok(HexOf(bits))
    ensures formatType == "binary" && groupSize <= 0 ==> r == Ok(BitsToString(bits))
  {
    match ParseFormat(formatType)
    case None => Err(InvalidFormat)
    case Some(f) =>
      var raw := match f
        case Hex => HexOf(bits)
        case Base64 => b64(bits)
        case Binary => BitsToString(bits);
      if groupSize > 0 then Ok(Grouped(raw, groupSize)) else Ok(raw)
  }

  /** The nibble 1010 is ten. */
  lemma PackTen()
    ensures Pack([1, 0, 1, 0]) == 10
  {
    assert [1, 0, 1, 0][..3] == [1, 0, 1] && [1, 0, 1][..2] == [1, 0] && [1, 0][..1] == [1];
    assert Pack([1]) == 1 && Pack([1, 0]) == 2 && Pack([1, 0, 1]) == 5;
  }

  /** The nibble 1101 is thirteen. */
  lemma PackThirteen()
    ensures Pack([1, 1, 0, 1]) == 13
  {
    assert [1, 1, 0, 1][..3] == [1, 1, 0] && [1, 1, 0][..2] == [1, 1] && [1, 1][..1] == [1];
    assert Pack([1]) == 1 && Pack([1, 1]) == 3 && Pack([1, 1, 0]) == 6;
  }

  /** `bits_to_hex` of the key 10101101. */
  lemma HexOfExample()
    ensures HexOf([1, 0, 1, 0, 1, 1, 0, 1]) == "AD"
  {
    var bits: seq<Bit> := [1, 0, 1, 0, 1, 1, 0, 1];
    var tail := bits[4..];
    assert bits[..4] + Zeros(0) == [1, 0, 1, 0] && tail[..4] + Zeros(0) == [1, 1, 0, 1];
    assert tail[4..] == [];
    PackTen();
    PackThirteen();
    assert HexOf(tail) == [HexDigit(13)] + HexOf(tail[4..]);
    assert HexOf(tail) == "D";
    assert HexOf(bits) == [HexDigit(10)] + HexOf(tail);
  }

  /** The hex display of the key 10101101 in groups of two, given as an
      example for `format_key_display`. */
  lemma FormatKeyDisplayHexExample(b64: seq<Bit> -> string)
    ensures FormatKeyDisplay([1, 0, 1, 0, 1, 1, 0, 1], "hex", 2, b64) == Ok("AD")
  {
    HexOfExample();
    assert Grouped("AD", 2) == "AD";
  }

  /** The binary display of the key 10101101 in groups of four, given as an
      example for `format_key_display`. */
  lemma FormatKeyDisplayBinaryExample(b64: seq<Bit> -> string)
    ensures FormatKeyDisplay([1, 0, 1, 0, 1, 1, 0, 1], "binary", 4, b64) == Ok("1010 1101")
  {
    var raw := BitsToString([1, 0, 1, 0, 1, 1, 0, 1]);
    assert raw == "10101101";
    assert raw[..4] == "1010" && raw[4..] == "1101";
    assert Grouped("1101", 4) == "1101";
    assert Grouped(raw, 4) == "1010 1101";
  }

  /** Hex digits contain no space, so the hex display ungroups to `HexOf`. */
  lemma HexDisplayUngroups(bits: seq<Bit>, groupSize: int, b64: seq<Bit> -> string)
    requires groupSize > 0
    ensures RemoveSpaces(FormatKeyDisplay(bits, "hex", groupSize, b64).value) == HexOf(bits)
  {
    HexHasNoSpace(bits);
    GroupedRoundTrip(HexOf(bits), groupSize);
  }

  lemma {:induction false} HexHasNoSpace(bits: seq<Bit>)
    ensures forall i :: 0 <= i < |HexOf(bits)| ==> HexOf(bits)[i] != ' '
    decreases |bits|
  {
    if bits != [] {
      HexHasNoSpace(bits[Min(4, |bits|)..]);
    }
  }

  /** A binary display ungroups to `BitsToString`. */
  lemma BinaryDisplayUngroups(bits: seq<Bit>, groupSize: int, b64: seq<Bit> -> string)
    requires groupSize > 0
    ensures RemoveSpaces(FormatKeyDisplay(bits, "binary", groupSize, b64).value) == BitsToString(bits)
  {
    GroupedRoundTrip(BitsToString(bits), groupSize);
  }

  // ---------------------------------------------------------------------
  // Key quality
  // ---------------------------------------------------------------------

  datatype KeyQuality = KeyQuality(length: nat, ones: nat, zeros: nat, balance: real, isBalanced: bool)

  /** `validate_key_quality`. */
  function ValidateKeyQuality(bits: seq<Bit>): (q: KeyQuality)
    ensures q.length == |bits| && q.ones + q.zeros == q.length && q.ones == HammingWeight(bits)
    ensures 0.0 <= q.balance <= 1.0
    ensures q.length > 0 ==> q.balance * q.length as real == q.ones as real
    ensures q.length == 0 ==> q.balance == 0.0
    ensures q.isBalanced <==> 0.4 <= q.balance <= 0.6
  {
    var length := |bits|;
    var ones := HammingWeight(bits);
    var balance := if length > 0 then ones as real / length as real else 0.0;
    KeyQuality(length, ones, length - ones, balance, 0.4 <= balance <= 0.6)
  }
}

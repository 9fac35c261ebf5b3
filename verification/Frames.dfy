/** WebSocket data frames: layout (section 5.2 of RFC 6455), masking (section 5.3), fragmentation (section 5.4), and
what the server's frame walk makes of a receive buffer.
*/
module Frames {
  import opened Bytes
  import opened ByteNums
  import Utf8

  const TWO_64: int := 0x1_0000_0000_0000_0000

  const CONTINUATION: byte := 0x0
  const TEXT: byte := 0x1
  const BINARY: byte := 0x2
  const CLOSE: byte := 0x8
  const PING: byte := 0x9
  const PONG: byte := 0xA

  /** What decoding reports; `NoError` is the source's `SUCCESS`. */
  datatype CloseFlag = NoError | ProtocolError | InternalUtf8

  // ---- The two header bytes ----

  datatype Header = Header(b0: byte, b1: byte)

  predicate Fin(h: Header) {
    h.b0 >> 7 == 1
  }

  function Opcode(h: Header): byte {
    h.b0 & 0x0F
  }

  predicate HasMask(h: Header) {
    h.b1 >> 7 == 1
  }

  function Len7(h: Header): byte {
    h.b1 & 0x7F
  }

  /** The header with the given flags; `bits` holds the reserved bits and the opcode. */
  function MakeHeader(fin: bool, bits: byte, masked: bool, len7: byte): Header {
    Header((if fin then 0x80 else 0) | bits, (if masked then 0x80 else 0) | len7)
  }

  lemma HeaderBits(fin: bool, bits: byte, masked: bool, len7: byte)
    requires bits < 0x80 && len7 < 0x80
    ensures var h := MakeHeader(fin, bits, masked, len7);
      Fin(h) == fin && Opcode(h) == bits & 0x0F && HasMask(h) == masked && Len7(h) == len7
  {
  }

  // ---- Length bytes ----

  function BigEndian(n: nat, k: nat): (bs: seq<byte>)
    ensures |bs| == k
  {
    if k == 0 then [] else BigEndian(n / 256, k - 1) + [ToByte(n % 256)]
  }

  /** A length byte as the source reads it, through `char`, whose signedness is up to the platform. */
  function CharValue(b: byte, signedChar: bool): int {
    if signedChar && b >= 0x80 then Num(b) - 256 else Num(b)
  }

  /** `(acc << 8) | v` on 64 bits. A negative `v` is sign-extended, and its ones hide all of `acc`. */
  function ShiftOr(acc: int, v: int): int {
    if v >= 0 then (acc * 256 + v) % TWO_64 else TWO_64 + v
  }

  function ReadLength(bs: seq<byte>, signedChar: bool): (n: int)
    ensures 0 <= n < TWO_64
  {
    if bs == [] then 0
    else ShiftOr(ReadLength(bs[..|bs| - 1], signedChar), CharValue(bs[|bs| - 1], signedChar))
  }

  function Pow256(k: nat): (r: nat)
    ensures r > 0
  {
    if k == 0 then 1 else 256 * Pow256(k - 1)
  }

  /** No byte has its top bit set, or the platform's `char` is unsigned. */
  predicate Clean(bs: seq<byte>, signedChar: bool) {
    signedChar ==> forall i :: 0 <= i < |bs| ==> bs[i] < 0x80
  }

  lemma Pow256Mono(j: nat, k: nat)
    requires j <= k
    ensures Pow256(j) <= Pow256(k)
  {
    if j < k {
      Pow256Mono(j, k - 1);
    }
  }

  lemma Pow256Top()
    ensures Pow256(8) == TWO_64 && Pow256(2) == 0x1_0000
  {
    assert Pow256(2) == 0x1_0000;
    assert Pow256(4) == 0x1_0000_0000;
    assert Pow256(6) == 0x1_0000_0000_0000;
  }

  lemma ShiftIn(a: nat, b: byte, signedChar: bool)
    requires signedChar ==> b < 0x80
    requires a * 256 + Num(b) < TWO_64
    ensures ShiftOr(a, CharValue(b, signedChar)) == a * 256 + Num(b)
  {
    hide Num, ToByte;
    TopBit(b);
  }

  /** The number that bytes spell, highest first. */
  function Spelled(bs: seq<byte>): nat {
    if bs == [] then 0 else 256 * Spelled(bs[..|bs| - 1]) + Num(bs[|bs| - 1])
  }

  lemma {:induction false} BigEndianSpells(n: nat, k: nat)
    requires n < Pow256(k)
    ensures Spelled(BigEndian(n, k)) == n
  {
    hide Num, ToByte, Pow256, BigEndian;
    if k == 0 {
      NoDigits(n);
    } else {
      Pow256Step(n, k);
      SplitLast(n, k);
      BigEndianSpells(n / 256, k - 1);
      LastByte(n);
    }
  }

  lemma NoDigits(n: nat)
    requires n < Pow256(0)
    ensures n == 0 && BigEndian(n, 0) == []
  {
  }

  lemma Spelled2(bs: seq<byte>)
    requires |bs| == 2
    ensures Spelled(bs) == Num(bs[0]) * 0x100 + Num(bs[1])
  {
    hide Num;
    assert bs[..1][..0] == [] && bs[..1][0] == bs[0];
    assert Spelled(bs[..1]) == Num(bs[0]);
  }

  lemma SpelledConcat(a: seq<byte>, b: seq<byte>)
    requires |b| == 2
    ensures Spelled(a + b) == 0x1_0000 * Spelled(a) + Spelled(b)
  {
    hide Num;
    Spelled2(b);
    var c := a + b;
    assert c[..|c| - 1] == a + b[..1] && (a + b[..1])[..|a|] == a;
    assert Spelled(a + b[..1]) == 256 * Spelled(a) + Num(b[0]);
  }

  lemma Spelled8(bs: seq<byte>)
    requires |bs| == 8
    ensures Spelled(bs)
         == Num(bs[0]) * 0x100_0000_0000_0000 + Num(bs[1]) * 0x1_0000_0000_0000 + Num(bs[2]) * 0x100_0000_0000
            + Num(bs[3]) * 0x1_0000_0000 + Num(bs[4]) * 0x100_0000 + Num(bs[5]) * 0x1_0000 + Num(bs[6]) * 0x100
            + Num(bs[7])
  {
    hide Num, Spelled;
    assert bs[..8] == bs && bs[..6] + bs[6..8] == bs[..8] && bs[..4] + bs[4..6] == bs[..6];
    assert bs[..2] + bs[2..4] == bs[..4];
    Spelled2(bs[..2]);
    Spelled2(bs[2..4]);
    Spelled2(bs[4..6]);
    Spelled2(bs[6..8]);
    SpelledConcat(bs[..2], bs[2..4]);
    SpelledConcat(bs[..4], bs[4..6]);
    SpelledConcat(bs[..6], bs[6..8]);
  }

  /** The reader inverts the big-endian writer on clean bytes. */
  lemma {:induction false} LengthRoundTrip(n: nat, k: nat, signedChar: bool)
    requires n < Pow256(k) && k <= 8 && Clean(BigEndian(n, k), signedChar)
    ensures ReadLength(BigEndian(n, k), signedChar) == n
  {
    if k > 0 {
      hide ShiftOr, CharValue, Num, ToByte, BigEndian, Pow256;
      Pow256Step(n, k);
      var bs := BigEndian(n, k);
      SplitLast(n, k);
      CleanPrefix(bs, k - 1, signedChar);
      LengthRoundTrip(n / 256, k - 1, signedChar);
      Pow256Mono(k, 8);
      Pow256Top();
      LastByte(n);
      ShiftIn(n / 256, bs[k - 1], signedChar);
    }
  }

  lemma CleanPrefix(bs: seq<byte>, k: nat, signedChar: bool)
    requires k < |bs| && Clean(bs, signedChar)
    ensures Clean(bs[..k], signedChar) && (signedChar ==> bs[k] < 0x80)
  {
  }

  lemma Pow256Step(n: nat, k: nat)
    requires k > 0 && n < Pow256(k)
    ensures n / 256 < Pow256(k - 1)
  {
  }

  lemma SplitLast(n: nat, k: nat)
    requires k > 0
    ensures |BigEndian(n, k)| == k
    ensures BigEndian(n, k)[..k - 1] == BigEndian(n / 256, k - 1) && BigEndian(n, k)[k - 1] == ToByte(n % 256)
  {
    hide ToByte;
  }

  lemma LastByte(n: nat)
    ensures Num(ToByte(n % 256)) == n % 256
    ensures n == n / 256 * 256 + n % 256
  {
    hide Num, ToByte;
    NumToByte(n % 256);
  }

  /** Where `char` is signed, a length byte with its top bit set makes the length read close to two to the 64. */
  lemma {:induction false} DirtyLength(bs: seq<byte>, i: nat)
    requires i < |bs| <= i + 7 && bs[i] >= 0x80 && forall j :: i < j < |bs| ==> bs[j] < 0x80
    ensures TWO_64 - 128 * Pow256(|bs| - 1 - i) <= ReadLength(bs, true)
  {
    hide Num, ToByte;
    TopBit(bs[i]);
    if i < |bs| - 1 {
      DirtyLength(bs[..|bs| - 1], i);
      Pow256Mono(|bs| - 1 - i, 6);
      Pow256Small();
      ShiftNearTop(ReadLength(bs[..|bs| - 1], true), CharValue(bs[|bs| - 1], true));
    }
  }

  lemma Pow256Small()
    ensures Pow256(6) == 0x1_0000_0000_0000
  {
    assert Pow256(3) == 0x100_0000;
  }

  lemma ShiftNearTop(acc: int, v: int)
    requires TWO_64 - 0x100_0000_0000_0000 < acc < TWO_64 && 0 <= v < 256
    ensures ShiftOr(acc, v) == TWO_64 - 256 * (TWO_64 - acc) + v
  {
    hide Num, ToByte;
    var x := TWO_64 - acc;
    assert acc * 256 + v == 255 * TWO_64 + (TWO_64 - 256 * x + v);
  }

  lemma {:induction false} LastDirty(bs: seq<byte>) returns (i: nat)
    requires !Clean(bs, true)
    ensures i < |bs| && bs[i] >= 0x80 && forall j :: i < j < |bs| ==> bs[j] < 0x80
  {
    if bs[|bs| - 1] >= 0x80 {
      i := |bs| - 1;
    } else {
      i := LastDirty(bs[..|bs| - 1]);
    }
  }

  // ---- Masking ----

  function Xor(a: byte, b: byte): byte {
    a ^ b
  }

  function Masked(p: seq<byte>, mask: seq<byte>): (r: seq<byte>)
    requires |mask| == 4
    ensures |r| == |p|
  {
    seq(|p|, i requires 0 <= i < |p| => Xor(p[i], mask[i % 4]))
  }

  lemma XorTwice(a: byte, b: byte)
    ensures Xor(Xor(a, b), b) == a
  {
  }

  /** Masking twice with one key restores the payload. */
  lemma MaskTwice(p: seq<byte>, mask: seq<byte>)
    requires |mask| == 4
    ensures Masked(Masked(p, mask), mask) == p
  {
    hide Xor;
    forall i | 0 <= i < |p| ensures Masked(Masked(p, mask), mask)[i] == p[i] {
      XorTwice(p[i], mask[i % 4]);
    }
  }

  // ---- Frames as a peer may send them ----

  datatype Form = Short | Medium | Long

  datatype Frame = Frame(fin: bool, bits: byte, form: Form, mask: seq<byte>, payload: seq<byte>)

  predicate Fits(n: nat, form: Form) {
    match form
    case Short => n < 126
    case Medium => n < 0x1_0000
    case Long => n < TWO_64 / 2
  }

  /** `mask` is empty or a key of four bytes; any length form that can hold the length is allowed. */
  predicate WellFormed(f: Frame) {
    f.bits < 0x80 && (f.mask == [] || |f.mask| == 4) && Fits(|f.payload|, f.form)
  }

  function FieldOf(n: nat, form: Form): byte
    requires Fits(n, form)
  {
    match form
    case Short => ToByte(n)
    case Medium => 0x7E
    case Long => 0x7F
  }

  function LengthBytes(n: nat, form: Form): seq<byte> {
    match form
    case Short => []
    case Medium => BigEndian(n, 2)
    case Long => BigEndian(n, 8)
  }

  function HeaderOf(f: Frame): Header
    requires WellFormed(f)
  {
    MakeHeader(f.fin, f.bits, f.mask != [], FieldOf(|f.payload|, f.form))
  }

  function Body(f: Frame): (r: seq<byte>)
    requires WellFormed(f)
    ensures |r| == |f.payload|
  {
    if f.mask == [] then f.payload else Masked(f.payload, f.mask)
  }

  function EncodeFrame(f: Frame): seq<byte>
    requires WellFormed(f)
  {
    [HeaderOf(f).b0, HeaderOf(f).b1] + LengthBytes(|f.payload|, f.form) + f.mask + Body(f)
  }

  /** A frame's length `n` is in the field `len7` of its header, or in the two or eight bytes that follow it, the
      highest first. */
  ghost predicate SpellsLength(n: nat, len7: byte, bs: seq<byte>, form: Form) {
    match form
    case Short => Num(len7) == n && bs == []
    case Medium => len7 == 0x7E && |bs| == 2 && n == Num(bs[0]) * 0x100 + Num(bs[1])
    case Long =>
      && len7 == 0x7F && |bs| == 8
      && n == Num(bs[0]) * 0x100_0000_0000_0000 + Num(bs[1]) * 0x1_0000_0000_0000 + Num(bs[2]) * 0x100_0000_0000
            + Num(bs[3]) * 0x1_0000_0000 + Num(bs[4]) * 0x100_0000 + Num(bs[5]) * 0x1_0000 + Num(bs[6]) * 0x100
            + Num(bs[7])
  }

  /** Each byte of the payload as it is, or XORed with the byte of the key at its position modulo four. */
  ghost predicate KeyedBy(body: seq<byte>, payload: seq<byte>, mask: seq<byte>)
    requires mask == [] || |mask| == 4
  {
    && |body| == |payload|
    && forall i :: 0 <= i < |payload| ==> body[i] == if mask == [] then payload[i] else payload[i] ^ mask[i % 4]
  }

  /** The layout of a frame, byte by byte, as section 5.2 of RFC 6455 has it. */
  lemma FrameBytes(f: Frame)
    requires WellFormed(f)
    ensures var e, n := EncodeFrame(f), |f.payload|;
      var p := if f.form.Short? then 2 else if f.form.Medium? then 4 else 10;
      var q := p + |f.mask|;
      && |e| == q + n
      && e[0] == (if f.fin then 0x80 else 0x00) | f.bits
      && (e[1] >= 0x80 <==> f.mask != [])
      && SpellsLength(n, e[1] & 0x7F, e[2..p], f.form)
      && e[p..q] == f.mask
      && KeyedBy(e[q..], f.payload, f.mask)
  {
    HeaderBytes(f);
    hide Num, ToByte, BigEndian, SpellsLength, HeaderOf, Body, LengthBytes, FieldOf, KeyedBy;
    var e, n := EncodeFrame(f), |f.payload|;
    var h, length := [HeaderOf(f).b0, HeaderOf(f).b1], LengthBytes(n, f.form);
    var p := if f.form.Short? then 2 else if f.form.Medium? then 4 else 10;
    LengthSpelled(n, f.form);
    LengthSize(n, f.form);
    FrameLayout(h, length, f.mask, Body(f), e, p);
    BodyKeyed(f);
  }

  lemma HeaderBytes(f: Frame)
    requires WellFormed(f)
    ensures HeaderOf(f).b0 == (if f.fin then 0x80 else 0x00) | f.bits
    ensures HeaderOf(f).b1 >= 0x80 <==> f.mask != []
    ensures HeaderOf(f).b1 & 0x7F == FieldOf(|f.payload|, f.form)
  {
    hide FieldOf;
    FieldBelow(f);
    SecondByte(f.mask != [], FieldOf(|f.payload|, f.form));
  }

  lemma LengthSize(n: nat, form: Form)
    ensures |LengthBytes(n, form)| == if form.Short? then 0 else if form.Medium? then 2 else 8
  {
  }

  lemma BodyKeyed(f: Frame)
    requires WellFormed(f)
    ensures KeyedBy(Body(f), f.payload, f.mask)
  {
  }

  lemma FrameLayout(h: seq<byte>, length: seq<byte>, mask: seq<byte>, body: seq<byte>, e: seq<byte>, p: nat)
    requires |h| == 2 && p == 2 + |length| && e == h + length + mask + body
    ensures |e| == p + |mask| + |body| && e[0] == h[0] && e[1] == h[1]
    ensures e[2..p] == length && e[p..p + |mask|] == mask && e[p + |mask|..] == body
  {
  }

  lemma SecondByte(masked: bool, len7: byte)
    requires len7 < 0x80
    ensures var b := (if masked then 0x80 else 0) | len7; (b >= 0x80 <==> masked) && b & 0x7F == len7
  {
  }

  lemma LengthSpelled(n: nat, form: Form)
    requires Fits(n, form)
    ensures SpellsLength(n, FieldOf(n, form), LengthBytes(n, form), form)
  {
    hide Num, ToByte, BigEndian;
    Pow256Top();
    match form
    case Short => NumToByte(n);
    case Medium =>
      BigEndianSpells(n, 2);
      Spelled2(BigEndian(n, 2));
    case Long =>
      BigEndianSpells(n, 8);
      Spelled8(BigEndian(n, 8));
  }

  function EncodeFrames(fs: seq<Frame>): seq<byte>
    requires forall i :: 0 <= i < |fs| ==> WellFormed(fs[i])
  {
    if fs == [] then [] else EncodeFrame(fs[0]) + EncodeFrames(fs[1..])
  }

  function Payloads(fs: seq<Frame>): seq<byte> {
    if fs == [] then [] else fs[0].payload + Payloads(fs[1..])
  }

  // ---- What the frame walk makes of a buffer ----

  /** `buffer` is the decode buffer that is left behind. `OutOfBounds` marks input on which the source reads past the
      receive buffer. */
  datatype Outcome =
    | Success(buffer: seq<byte>, header: Header)
    | Failure(flag: CloseFlag, buffer: seq<byte>)
    | OutOfBounds

  function Extension(h: Header): nat {
    if Len7(h) < 0x7E then 0 else if Len7(h) == 0x7E then 2 else 8
  }

  /** What one round leads to: the end of the walk, or another header in front of `p`. */
  datatype Round = Stop(outcome: Outcome) | Next(p: nat, header: Header, buffer: seq<byte>)

  /** One round, on the frame whose header `h` ends at `p`, with `acc` decoded before it. */
  function WalkFrame(data: seq<byte>, p: nat, h: Header, acc: seq<byte>, signedChar: bool): (r: Round)
    ensures r.Next? ==> p < r.p <= |data|
  {
    var ext := Extension(h);
    if (ext == 2 && |data| < 4) || (ext == 8 && |data| < 8) then Stop(Failure(ProtocolError, acc))
    else if p + ext > |data| then Stop(OutOfBounds)
    else
      var len := if ext == 0 then Num(Len7(h)) else ReadLength(data[p..p + ext], signedChar);
      PayloadRound(data, p + ext + (if HasMask(h) then 4 else 0), len, h, acc)
  }

  /** The rest of a round, once the payload is known to have `len` bytes from `q` on. */
  function PayloadRound(data: seq<byte>, q: nat, len: nat, h: Header, acc: seq<byte>): (r: Round)
    requires HasMask(h) ==> 4 <= q
    ensures r.Next? ==> q < r.p <= |data|
  {
    if (len + 2) % TWO_64 > |data| then Stop(Failure(ProtocolError, acc))
    else if q + len > |data| then Stop(OutOfBounds)
    else
      var payload := if HasMask(h) then Masked(data[q..q + len], data[q - 4..q]) else data[q..q + len];
      if Fin(h) || q >= |data| then Stop(Success(acc + payload, h))
      else if q + len + 2 > |data| then Stop(OutOfBounds)
      else Next(q + len + 2, Header(data[q + len], data[q + len + 1]), acc + payload)
  }

  /** The walk over the frames of `data`. */
  function Walk(data: seq<byte>, p: nat, h: Header, acc: seq<byte>, signedChar: bool): Outcome
    decreases |data| - p
  {
    match WalkFrame(data, p, h, acc, signedChar)
    case Stop(outcome) => outcome
    case Next(p', h', acc') => Walk(data, p', h', acc', signedChar)
  }

  /** Decoding a whole receive buffer on top of the decode buffer `acc`. */
  ghost function Decoded(data: seq<byte>, acc: seq<byte>, signedChar: bool): Outcome
    requires |data| >= 2
  {
    var h := Header(data[0], data[1]);
    var w := Walk(data, 2, h, acc, signedChar);
    if w.Success? && Opcode(h) == TEXT && Fin(h) && !Utf8.Text(w.buffer) then Failure(InternalUtf8, w.buffer) else w
  }

  /** The walk over a receive buffer stays in bounds. */
  predicate StaysInside(data: seq<byte>, signedChar: bool)
    requires |data| >= 2
  {
    Walk(data, 2, Header(data[0], data[1]), [], signedChar) != OutOfBounds
  }

  lemma {:induction false} BoundsIgnoreBuffer(
    data: seq<byte>, p: nat, h: Header, acc: seq<byte>, acc': seq<byte>, signedChar: bool)
    ensures Walk(data, p, h, acc, signedChar) == OutOfBounds <==> Walk(data, p, h, acc', signedChar) == OutOfBounds
    decreases |data| - p
  {
    hide ReadLength, Len7, Num, Masked, Fin, HasMask, Extension;
    var round, round' := WalkFrame(data, p, h, acc, signedChar), WalkFrame(data, p, h, acc', signedChar);
    if round.Next? {
      BoundsIgnoreBuffer(data, round.p, round.header, round.buffer, round'.buffer, signedChar);
    }
  }

  /** Whether decoding stays in bounds does not depend on what was decoded before. */
  lemma DecodedInside(data: seq<byte>, acc: seq<byte>, signedChar: bool)
    requires |data| >= 2
    ensures Decoded(data, acc, signedChar) != OutOfBounds <==> StaysInside(data, signedChar)
  {
    hide Walk, Fin, Opcode;
    BoundsIgnoreBuffer(data, 2, Header(data[0], data[1]), acc, [], signedChar);
  }

  predicate CleanFrame(f: Frame, signedChar: bool) {
    Clean(LengthBytes(|f.payload|, f.form), signedChar)
  }

  lemma ExtensionOf(f: Frame)
    requires WellFormed(f)
    ensures Fin(HeaderOf(f)) == f.fin && HasMask(HeaderOf(f)) == (f.mask != [])
    ensures Extension(HeaderOf(f)) == |LengthBytes(|f.payload|, f.form)|
    ensures f.form.Short? ==> Num(Len7(HeaderOf(f))) == |f.payload|
  {
    hide Num, ToByte;
    var len7 := FieldOf(|f.payload|, f.form);
    if f.form.Short? {
      SmallByte(|f.payload|);
    }
    HeaderBits(f.fin, f.bits, f.mask != [], len7);
  }

  lemma SmallByte(n: nat)
    requires n < 126
    ensures Num(ToByte(n)) == n && ToByte(n) < 0x7E
  {
    hide Num, ToByte;
    NumToByte(n);
    Below7E(ToByte(n));
  }

  lemma CleanLength(f: Frame, signedChar: bool)
    requires WellFormed(f) && !f.form.Short? && CleanFrame(f, signedChar)
    ensures ReadLength(LengthBytes(|f.payload|, f.form), signedChar) == |f.payload|
  {
    hide Num, ToByte;
    Pow256Top();
    LengthRoundTrip(|f.payload|, if f.form.Medium? then 2 else 8, signedChar);
  }

  /** Where a frame lies inside a buffer. */
  lemma FrameParts(pre: seq<byte>, f: Frame, rest: seq<byte>)
    requires WellFormed(f)
    ensures var data, p, ext := pre + EncodeFrame(f) + rest, |pre| + 2, |LengthBytes(|f.payload|, f.form)|;
      var q, len := p + ext + |f.mask|, |f.payload|;
      && |data| == q + len + |rest| && |EncodeFrame(f)| == 2 + ext + |f.mask| + len
      && data[p..p + ext] == LengthBytes(len, f.form)
      && data[p + ext..q] == f.mask
      && data[q..q + len] == Body(f)
      && data[q + len..] == rest
  {
    hide Num, ToByte;
  }

  /** What the walk reads of one whole clean frame. */
  lemma FrameRead(pre: seq<byte>, f: Frame, rest: seq<byte>, signedChar: bool)
    requires WellFormed(f) && CleanFrame(f, signedChar)
    ensures var data, h, p, ext := pre + EncodeFrame(f) + rest, HeaderOf(f), |pre| + 2, Extension(HeaderOf(f));
      var q, len := p + ext + (if HasMask(h) then 4 else 0), |f.payload|;
      && Fin(h) == f.fin && |data| == q + len + |rest| && |pre + EncodeFrame(f)| == q + len
      && (if ext == 0 then Num(Len7(h)) else ReadLength(data[p..p + ext], signedChar)) == len
      && (if HasMask(h) then Masked(data[q..q + len], data[q - 4..q]) else data[q..q + len]) == f.payload
      && data[q + len..] == rest
  {
    hide Num, ToByte, Fin, HasMask, Len7, Extension, EncodeFrame, HeaderOf, ReadLength;
    FrameParts(pre, f, rest);
    ExtensionOf(f);
    if !f.form.Short? {
      CleanLength(f, signedChar);
      NotShort(f);
    }
    if f.mask != [] {
      MaskTwice(f.payload, f.mask);
    }
  }

  lemma NotShort(f: Frame)
    requires WellFormed(f)
    ensures |LengthBytes(|f.payload|, f.form)| == 0 <==> f.form.Short?
  {
  }

  lemma NoWrap(n: nat)
    requires n < TWO_64
    ensures n % TWO_64 == n
  {
  }

  /** One round of the walk, on a frame that lies wholly inside the buffer. */
  lemma RoundInside(
    data: seq<byte>, p: nat, h: Header, acc: seq<byte>, signedChar: bool, q: nat, len: nat, payload: seq<byte>)
    requires q == p + Extension(h) + (if HasMask(h) then 4 else 0) && 2 <= p && q + len <= |data| < TWO_64 / 2
    requires len == if Extension(h) == 0 then Num(Len7(h)) else ReadLength(data[p..p + Extension(h)], signedChar)
    requires payload == if HasMask(h) then Masked(data[q..q + len], data[q - 4..q]) else data[q..q + len]
    ensures WalkFrame(data, p, h, acc, signedChar)
         == if Fin(h) || q >= |data| then Stop(Success(acc + payload, h))
            else if q + len + 2 > |data| then Stop(OutOfBounds)
            else Next(q + len + 2, Header(data[q + len], data[q + len + 1]), acc + payload)
  {
    hide Num, Fin, HasMask, Len7, ReadLength, Masked, Extension;
    NoWrap(len + 2);
    Extensions(h);
  }

  lemma Extensions(h: Header)
    ensures Extension(h) == 0 || Extension(h) == 2 || Extension(h) == 8
  {
    hide Len7;
  }

  /** One whole clean frame inside a buffer: its payload is appended, and the walk ends or goes on behind it. */
  lemma OneFrame(pre: seq<byte>, f: Frame, rest: seq<byte>, acc: seq<byte>, signedChar: bool)
    requires WellFormed(f) && CleanFrame(f, signedChar)
    requires |pre + EncodeFrame(f) + rest| < TWO_64 / 2
    ensures var data, next := pre + EncodeFrame(f) + rest, |pre + EncodeFrame(f)|;
      Walk(data, |pre| + 2, HeaderOf(f), acc, signedChar)
      == if f.fin || (rest == [] && f.payload == []) then Success(acc + f.payload, HeaderOf(f))
         else if |rest| < 2 then OutOfBounds
         else Walk(data, next + 2, Header(rest[0], rest[1]), acc + f.payload, signedChar)
  {
    hide Num, Fin, HasMask, Len7, EncodeFrame, HeaderOf, ReadLength, Masked, WalkFrame, Extension, WellFormed,
        CleanFrame;
    FrameRead(pre, f, rest, signedChar);
    var data, h, len := pre + EncodeFrame(f) + rest, HeaderOf(f), |f.payload|;
    var q := |pre| + 2 + Extension(h) + if HasMask(h) then 4 else 0;
    RoundInside(data, |pre| + 2, h, acc, signedChar, q, len, f.payload);
    if |rest| >= 2 {
      TwoBytes(data, q + len, rest);
    }
  }

  lemma TwoBytes(data: seq<byte>, n: nat, rest: seq<byte>)
    requires n <= |data| && data[n..] == rest && |rest| >= 2
    ensures n + 2 <= |data| && data[n] == rest[0] && data[n + 1] == rest[1]
  {
    assert data[n] == data[n..][0] && data[n + 1] == data[n..][1];
  }

  /** What comes of a frame whose length bytes the platform misreads: the length read is close to two to the 64, so that
      the source's bounds test reports an error, unless the addition in that test wraps around. */
  function Misread(f: Frame, acc: seq<byte>): Outcome {
    if ReadLength(LengthBytes(|f.payload|, f.form), true) >= TWO_64 - 2 then OutOfBounds
    else Failure(ProtocolError, acc)
  }

  lemma DirtyFrame(pre: seq<byte>, f: Frame, rest: seq<byte>, acc: seq<byte>, signedChar: bool)
    requires WellFormed(f) && !CleanFrame(f, signedChar)
    requires |pre + EncodeFrame(f) + rest| < TWO_64 / 2
    ensures Walk(pre + EncodeFrame(f) + rest, |pre| + 2, HeaderOf(f), acc, signedChar) == Misread(f, acc)
  {
    hide Num, ToByte, Fin, HasMask, Len7, EncodeFrame, HeaderOf, ReadLength, Masked, Extension;
    FrameParts(pre, f, rest);
    ExtensionOf(f);
    NotShort(f);
    DirtyFrameLength(f);
    RoundOutside(pre + EncodeFrame(f) + rest, |pre| + 2, HeaderOf(f), acc,
                 ReadLength(LengthBytes(|f.payload|, f.form), true));
  }

  /** One round of the walk, on a frame whose length is misread. */
  lemma RoundOutside(data: seq<byte>, p: nat, h: Header, acc: seq<byte>, len: nat)
    requires Extension(h) != 0 && p + Extension(h) <= |data| < TWO_64 / 2 && 2 <= p
    requires len == ReadLength(data[p..p + Extension(h)], true)
    requires TWO_64 - 0x80_0000_0000_0000 <= len < TWO_64
    ensures WalkFrame(data, p, h, acc, true)
         == Stop(if len >= TWO_64 - 2 then OutOfBounds else Failure(ProtocolError, acc))
  {
    hide Num, Fin, HasMask, Len7, ReadLength, Masked, Extension;
    if len >= TWO_64 - 2 {
      WrapsPast(len + 2);
    } else {
      NoWrap(len + 2);
    }
    Extensions(h);
  }

  lemma WrapsPast(n: nat)
    requires TWO_64 <= n < TWO_64 + 2
    ensures n % TWO_64 == n - TWO_64
  {
  }

  lemma DirtyFrameLength(f: Frame)
    requires WellFormed(f) && !CleanFrame(f, true)
    ensures TWO_64 - 0x80_0000_0000_0000 <= ReadLength(LengthBytes(|f.payload|, f.form), true) < TWO_64
  {
    hide Num, ToByte, ReadLength;
    var bs := LengthBytes(|f.payload|, f.form);
    var i := LastDirty(bs);
    if f.form.Long? {
      LeadingByte(|f.payload|);
    }
    DirtyLength(bs, i);
    Pow256Mono(|bs| - 1 - i, 6);
    Pow256Small();
  }

  lemma {:induction false} TopByte(n: nat, k: nat)
    requires n < 128 * Pow256(k)
    ensures BigEndian(n, k + 1)[0] < 0x80
  {
    hide Num, ToByte;
    if k == 0 {
      LastByte(n);
      TopBit(ToByte(n % 256));
      assert BigEndian(n, 1) == [ToByte(n % 256)];
    } else {
      TopByte(n / 256, k - 1);
      assert BigEndian(n, k + 1)[0] == BigEndian(n / 256, k)[0];
    }
  }

  lemma LeadingByte(n: nat)
    requires n < TWO_64 / 2
    ensures BigEndian(n, 8)[0] < 0x80
  {
    Pow256Small();
    assert Pow256(7) == 256 * Pow256(6);
    TopByte(n, 7);
  }

  // ---- Whole messages ----

  /** All frames but the last are non-final. */
  predicate Fragments(fs: seq<Frame>) {
    |fs| >= 1 && forall i :: 0 <= i < |fs| ==> WellFormed(fs[i]) && (i < |fs| - 1 ==> !fs[i].fin)
  }

  predicate AllClean(fs: seq<Frame>, signedChar: bool) {
    forall i :: 0 <= i < |fs| ==> CleanFrame(fs[i], signedChar)
  }

  lemma FramesStart(fs: seq<Frame>)
    requires |fs| >= 1 && forall i :: 0 <= i < |fs| ==> WellFormed(fs[i])
    ensures |EncodeFrames(fs)| >= 2
    ensures Header(EncodeFrames(fs)[0], EncodeFrames(fs)[1]) == HeaderOf(fs[0])
  {
    hide Num, ToByte, HeaderOf, Body;
  }

  /** The number of frames before the first one whose length the platform misreads. */
  function FirstMisread(fs: seq<Frame>, signedChar: bool): (k: nat)
    ensures k <= |fs| && forall i :: 0 <= i < k ==> CleanFrame(fs[i], signedChar)
    ensures k < |fs| ==> !CleanFrame(fs[k], signedChar)
  {
    if fs == [] || !CleanFrame(fs[0], signedChar) then 0 else 1 + FirstMisread(fs[1..], signedChar)
  }

  /** The walk over frames that the platform reads up to the first misread one, whatever comes after it. */
  lemma {:induction false} WalkMisread(pre: seq<byte>, fs: seq<Frame>, acc: seq<byte>, signedChar: bool)
    requires Fragments(fs) && FirstMisread(fs, signedChar) < |fs| && |pre + EncodeFrames(fs)| < TWO_64 / 2
    ensures var k := FirstMisread(fs, signedChar);
      Walk(pre + EncodeFrames(fs), |pre| + 2, HeaderOf(fs[0]), acc, signedChar)
      == Misread(fs[k], acc + Payloads(fs[..k]))
    decreases |fs|
  {
    hide Num, ToByte, HeaderOf, Walk, EncodeFrame, CleanFrame, Misread;
    var f, rest, k := fs[0], EncodeFrames(fs[1..]), FirstMisread(fs, signedChar);
    assert k < |fs|;
    assert pre + EncodeFrames(fs) == pre + EncodeFrame(f) + rest;
    if k == 0 {
      DirtyFrame(pre, f, rest, acc, signedChar);
      assert acc + Payloads(fs[..0]) == acc;
    } else {
      assert fs[..k][0] == f && fs[..k][1..] == fs[1..][..k - 1];
      OneFrame(pre, f, rest, acc, signedChar);
      FramesStart(fs[1..]);
      WalkMisread(pre + EncodeFrame(f), fs[1..], acc + f.payload, signedChar);
      assert acc + f.payload + Payloads(fs[1..][..k - 1]) == acc + Payloads(fs[..k]);
    }
  }

  /** The walk over the frames of one message, the last of them final, where the platform reads every length: all
      payloads in order, and the final frame's header. */
  lemma {:induction false} WalkMessage(pre: seq<byte>, fs: seq<Frame>, acc: seq<byte>, signedChar: bool)
    requires Fragments(fs) && fs[|fs| - 1].fin && |pre + EncodeFrames(fs)| < TWO_64 / 2 && AllClean(fs, signedChar)
    ensures Walk(pre + EncodeFrames(fs), |pre| + 2, HeaderOf(fs[0]), acc, signedChar)
         == Success(acc + Payloads(fs), HeaderOf(fs[|fs| - 1]))
    decreases |fs|
  {
    hide Num, ToByte, HeaderOf, Walk, EncodeFrame, CleanFrame;
    var f, rest := fs[0], EncodeFrames(fs[1..]);
    assert pre + EncodeFrames(fs) == pre + EncodeFrame(f) + rest;
    OneFrame(pre, f, rest, acc, signedChar);
    if |fs| == 1 {
      assert Payloads(fs) == f.payload + Payloads([]);
    } else {
      FramesStart(fs[1..]);
      WalkMessage(pre + EncodeFrame(f), fs[1..], acc + f.payload, signedChar);
      assert acc + f.payload + Payloads(fs[1..]) == acc + Payloads(fs);
    }
  }

  /** A buffer that ends on a fragment boundary stays in bounds exactly when its last fragment is empty; then the
      message is left to be continued. */
  lemma {:induction false} WalkUnfinished(pre: seq<byte>, fs: seq<Frame>, acc: seq<byte>, signedChar: bool)
    requires Fragments(fs) && !fs[|fs| - 1].fin && AllClean(fs, signedChar) && |pre + EncodeFrames(fs)| < TWO_64 / 2
    ensures Walk(pre + EncodeFrames(fs), |pre| + 2, HeaderOf(fs[0]), acc, signedChar)
         == if fs[|fs| - 1].payload == [] then Success(acc + Payloads(fs), HeaderOf(fs[|fs| - 1])) else OutOfBounds
    decreases |fs|
  {
    hide Num, ToByte, HeaderOf, Walk, EncodeFrame, CleanFrame;
    var f, rest := fs[0], EncodeFrames(fs[1..]);
    assert pre + EncodeFrames(fs) == pre + EncodeFrame(f) + rest;
    OneFrame(pre, f, rest, acc, signedChar);
    if |fs| == 1 {
      assert Payloads(fs) == f.payload + Payloads([]);
    } else {
      FramesStart(fs[1..]);
      WalkUnfinished(pre + EncodeFrame(f), fs[1..], acc + f.payload, signedChar);
      assert acc + f.payload + Payloads(fs[1..]) == acc + Payloads(fs);
    }
  }

  /** Unfragmented text, which must pass the UTF-8 check. */
  predicate LoneText(fs: seq<Frame>)
    requires Fragments(fs)
  {
    fs[0].fin && fs[0].bits & 0x0F == TEXT
  }

  /** Reassembly: for every message, every split into frames, every length form that fits and every choice of keys,
      decoding the buffer that holds exactly those frames appends exactly the original bytes and ends with the final
      frame's header, if and only if the platform reads every length byte and an unfragmented text (with whatever was
      left in the decode buffer before it) passes the UTF-8 check. Otherwise the outcome is the one of the first misread
      frame, or the rejection of the text. */
  lemma Reassembly(fs: seq<Frame>, acc: seq<byte>, signedChar: bool)
    requires Fragments(fs) && fs[|fs| - 1].fin && |EncodeFrames(fs)| < TWO_64 / 2
    ensures |EncodeFrames(fs)| >= 2
    ensures Decoded(EncodeFrames(fs), acc, signedChar) == Success(acc + Payloads(fs), HeaderOf(fs[|fs| - 1]))
       <==> AllClean(fs, signedChar) && (LoneText(fs) ==> Utf8.Text(acc + Payloads(fs)))
    ensures !AllClean(fs, signedChar) ==>
      var k := FirstMisread(fs, signedChar);
      Decoded(EncodeFrames(fs), acc, signedChar) == Misread(fs[k], acc + Payloads(fs[..k]))
    ensures AllClean(fs, signedChar) && LoneText(fs) && !Utf8.Text(acc + Payloads(fs)) ==>
              Decoded(EncodeFrames(fs), acc, signedChar) == Failure(InternalUtf8, acc + Payloads(fs))
  {
    hide Num, ToByte, Walk, HeaderOf, EncodeFrame, EncodeFrames, Utf8.Text, Fin, Opcode, ReadLength, CleanFrame,
        Payloads;
    FramesStart(fs);
    assert [] + EncodeFrames(fs) == EncodeFrames(fs);
    if AllClean(fs, signedChar) {
      WalkMessage([], fs, acc, signedChar);
    } else {
      WalkMisread([], fs, acc, signedChar);
    }
    FirstHeader(fs[0]);
  }

  lemma FirstHeader(f: Frame)
    requires WellFormed(f)
    ensures Fin(HeaderOf(f)) == f.fin && Opcode(HeaderOf(f)) == f.bits & 0x0F
  {
    hide Num, ToByte;
    ExtensionOf(f);
    FieldBelow(f);
    HeaderBits(f.fin, f.bits, f.mask != [], FieldOf(|f.payload|, f.form));
  }

  lemma FieldBelow(f: Frame)
    requires WellFormed(f)
    ensures FieldOf(|f.payload|, f.form) < 0x80
  {
    hide Num, ToByte;
    if f.form.Short? {
      SmallByte(|f.payload|);
    }
  }

  // ---- The frames the server sends ----

  function ShortestForm(n: nat): Form {
    if n < 126 then Short else if n < 0x1_0000 then Medium else Long
  }

  function TextFrame(payload: seq<byte>): Frame {
    Frame(true, TEXT, ShortestForm(|payload|), [], payload)
  }

  /** The header of an application message: final, text, unmasked, in the shortest length form; written into a buffer of
      ten zero bytes. */
  method SendFrame(payload: seq<byte>) returns (frame: seq<byte>)
    ensures |frame| >= 2
    ensures |payload| < TWO_64 / 2 ==> WellFormed(TextFrame(payload)) && frame == EncodeFrame(TextFrame(payload))
    ensures frame[0] == 0x81 && frame[1] < 0x80
    ensures var n := |payload|;
      var p := if n < 126 then 2 else if n <= 0xFFFF then 4 else 10;
      && |frame| == p + n && frame[p..] == payload
      && (n < 126 ==> SpellsLength(n, frame[1], frame[2..p], Short))
      && (126 <= n <= 0xFFFF ==> SpellsLength(n, frame[1], frame[2..p], Medium))
      && (0xFFFF < n < 0x1_0000_0000_0000_0000 ==> SpellsLength(n, frame[1], frame[2..p], Long))
  {
    hide Num, ToByte, ReadLength, BigEndian, WellFormed, EncodeFrame, SpellsLength;
    var size := |payload|;
    var buffer := new byte[10](_ => 0);
    var p := 2;
    var len7: byte;
    if size < 126 {
      len7 := ToByte(size);
    } else if size <= 0xFFFF {
      len7 := 0x7E;
      Store(buffer, p, size, 2);
      p := p + 2;
    } else {
      len7 := 0x7F;
      Store(buffer, p, size, 8);
      p := p + 8;
    }
    var header := MakeHeader(true, TEXT, false, len7);
    buffer[0], buffer[1] := header.b0, header.b1;
    assert buffer[2..p] == LengthBytes(size, ShortestForm(size));
    assert buffer[..p] == [header.b0, header.b1] + buffer[2..p];
    frame := buffer[..p] + payload;
    SentBytes(payload, len7, buffer[2..p], frame);
  }

  lemma SentBytes(payload: seq<byte>, len7: byte, length: seq<byte>, frame: seq<byte>)
    requires var n := |payload|;
      if n < 126 then len7 == ToByte(n) && length == []
      else if n <= 0xFFFF then len7 == 0x7E && length == BigEndian(n, 2)
      else len7 == 0x7F && length == BigEndian(n, 8)
    requires frame == [0x80 | TEXT, len7] + length + payload
    ensures frame[0] == 0x81 && frame[1] == len7 < 0x80
    ensures |payload| < TWO_64 / 2 ==> WellFormed(TextFrame(payload)) && frame == EncodeFrame(TextFrame(payload))
    ensures var n := |payload|;
      && |frame| == 2 + |length| + n && frame[2..2 + |length|] == length && frame[2 + |length|..] == payload
      && (n < TWO_64 ==>
            SpellsLength(n, frame[1], length, if n < 126 then Short else if n <= 0xFFFF then Medium else Long))
  {
    hide Num, ToByte, BigEndian, SpellsLength;
    TextBits();
    SentLength(|payload|, len7, length);
    if |payload| < 126 {
      SmallByte(|payload|);
    }
  }

  lemma SentLength(n: nat, len7: byte, length: seq<byte>)
    requires if n < 126 then len7 == ToByte(n) && length == []
             else if n <= 0xFFFF then len7 == 0x7E && length == BigEndian(n, 2)
             else len7 == 0x7F && length == BigEndian(n, 8)
    ensures n < TWO_64 ==>
      SpellsLength(n, len7, length, if n < 126 then Short else if n <= 0xFFFF then Medium else Long)
  {
    hide Num, ToByte, BigEndian, Pow256, Spelled;
    Pow256Top();
    if n < 126 {
      SmallByte(n);
    } else if n <= 0xFFFF {
      BigEndianSpells(n, 2);
      Spelled2(length);
    } else if n < TWO_64 {
      BigEndianSpells(n, 8);
      Spelled8(length);
    }
  }

  /** Stores `n` big-endian in `k` bytes at `p`. */
  method Store(buffer: array<byte>, p: nat, n: nat, k: nat)
    requires p + k <= buffer.Length
    modifies buffer
    ensures buffer[..] == old(buffer[..p]) + BigEndian(n, k) + old(buffer[p + k..])
    decreases k
  {
    hide ToByte;
    if k > 0 {
      buffer[p + k - 1] := ToByte(n % 256);
      assert buffer[p + k - 1..] == [ToByte(n % 256)] + old(buffer[p + k..]);
      assert buffer[..p] == old(buffer[..p]);
      Store(buffer, p, n / 256, k - 1);
    }
  }

  /** No other way to frame the payload unmasked is shorter. */
  lemma SendIsShortest(payload: seq<byte>, f: Frame)
    requires |payload| < TWO_64 / 2 && WellFormed(f) && f.payload == payload
    ensures WellFormed(TextFrame(payload)) && |EncodeFrame(TextFrame(payload))| <= |EncodeFrame(f)|
  {
    hide Num, ToByte, HeaderOf;
  }

  /** Decoding what `send` built gives the payload back exactly when it is UTF-8 and the platform reads its length. */
  lemma SendRoundTrip(payload: seq<byte>, signedChar: bool)
    requires |payload| < TWO_64 / 2 - 10
    ensures WellFormed(TextFrame(payload)) && |EncodeFrame(TextFrame(payload))| >= 2
    ensures var f := TextFrame(payload);
      Decoded(EncodeFrame(f), [], signedChar) == Success(payload, HeaderOf(f))
      <==> Utf8.Text(payload) && Clean(LengthBytes(|payload|, ShortestForm(|payload|)), signedChar)
  {
    hide Num, ToByte, HeaderOf, Decoded, Utf8.Text;
    var f := TextFrame(payload);
    TextBits();
    assert EncodeFrames([f]) == EncodeFrame(f) + EncodeFrames([]);
    assert EncodeFrames([f]) == EncodeFrame(f);
    assert Payloads([f]) == payload + Payloads([]);
    Reassembly([f], [], signedChar);
    assert [] + Payloads([f]) == payload;
    assert AllClean([f], signedChar) <==> CleanFrame(f, signedChar);
  }

  lemma TextBits()
    ensures TEXT & 0x0F == TEXT && TEXT < 0x80
  {
  }

  lemma TwoLengthBytes(n: nat)
    requires 128 <= n < 256
    ensures LengthBytes(n, Medium) == [ToByte(0), ToByte(n)] && !Clean(LengthBytes(n, Medium), true)
    ensures ReadLength(LengthBytes(n, Medium), true) == TWO_64 + n - 256
  {
    hide Num, ToByte;
    NumToByte(0);
    NumToByte(n);
    TopBit(ToByte(0));
    TopBit(ToByte(n));
    assert BigEndian(0, 0) == [] && BigEndian(0, 1) == [ToByte(0)];
    assert n / 256 == 0 && n % 256 == n;
    var bs := BigEndian(n, 2);
    assert bs == BigEndian(0, 1) + [ToByte(n)];
    assert bs[..1] == [ToByte(0)] && bs[..1][..0] == [] && ReadLength([], true) == 0;
    assert ReadLength(bs[..1], true) == 0;
    assert bs[1] == ToByte(n);
  }

  /** With a signed `char`, no payload of 128 to 255 bytes that `send` frames is decoded: up to 253 bytes it is a
      protocol error, at 254 and 255 bytes the walk leaves the buffer. */
  lemma SignedCharPayload(payload: seq<byte>)
    requires 128 <= |payload| < 256
    ensures WellFormed(TextFrame(payload)) && |EncodeFrame(TextFrame(payload))| >= 2
    ensures Decoded(EncodeFrame(TextFrame(payload)), [], true)
         == if |payload| < 254 then Failure(ProtocolError, []) else OutOfBounds
  {
    hide HeaderOf, Decoded, EncodeFrame, ReadLength, Num, ToByte;
    var f := TextFrame(payload);
    TextBits();
    TwoLengthBytes(|payload|);
    assert EncodeFrames([f]) == EncodeFrame(f) + EncodeFrames([]);
    assert EncodeFrames([f]) == EncodeFrame(f);
    FrameParts([], f, []);
    assert [] + EncodeFrame(f) + [] == EncodeFrame(f);
    Reassembly([f], [], true);
    assert !CleanFrame([f][0], true);
    assert FirstMisread([f], true) == 0 && [] + Payloads([f][..0]) == [];
  }
}

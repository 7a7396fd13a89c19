/** The fixed 64-byte frame exchanged by the adapter and its one-shot service
    helper: its byte layout, its constructors and its four validators. */
module HelperProtocol {
  import opened Basics

  const MAGIC: nat := 0x58325253
  const VERSION: nat := 1
  const MAX_NAME_BYTES: nat := 4096
  const MD5_BYTES: nat := 32
  const MAX_PAYLOAD_BYTES: nat := 8 * 1024 * 1024
  const MAX_WAIT_MS: nat := 300000
  const FRAME_BYTES: nat := 64
  const RESERVED_BYTES: nat := 28

  const TWO16: nat := 0x1_0000
  const TWO32: nat := 0x1_0000_0000
  const TWO64: nat := 0x1_0000_0000_0000_0000

  // Frame kinds.
  const REQUEST: nat := 1
  const READY: nat := 2
  const COMMIT: nat := 3
  const RESPONSE: nat := 4

  datatype ReadyStatus = Ready | ServiceUnavailable | ReadyProtocolError {
    function Code(): nat {
      match this
      case Ready => 1
      case ServiceUnavailable => 2
      case ReadyProtocolError => 3
    }
  }

  datatype ResponseStatus = Completed | CallFailed | ResponseTooLarge | ResponseProtocolError {
    function Code(): nat {
      match this
      case Completed => 1
      case CallFailed => 2
      case ResponseTooLarge => 3
      case ResponseProtocolError => 4
    }
  }

  datatype Frame = Frame(
    magic: nat, version: nat, kind: nat, requestId: nat, status: nat,
    nameBytes: nat, md5Bytes: nat, payloadBytes: nat, waitMs: nat, reserved: seq<Byte>)

  /** Every field fits the width the struct gives it. */
  predicate Fits(f: Frame) {
    && f.magic < TWO32 && f.version < TWO16 && f.kind < TWO16 && f.requestId < TWO64
    && f.status < TWO32 && f.nameBytes < TWO32 && f.md5Bytes < TWO32
    && f.payloadBytes < TWO32 && f.waitMs < TWO32 && |f.reserved| == RESERVED_BYTES
  }

  // ---- Byte layout -------------------------------------------------------

  function Pow256(k: nat): nat {
    if k == 0 then 1 else 256 * Pow256(k - 1)
  }

  function Little(n: nat, width: nat): (b: seq<Byte>)
    ensures |b| == width
  {
    if width == 0 then [] else [n % 256] + Little(n / 256, width - 1)
  }

  function FromLittle(b: seq<Byte>): nat {
    if b == [] then 0 else b[0] + 256 * FromLittle(b[1..])
  }

  lemma {:induction false} LittleRoundTrip(n: nat, width: nat)
    requires n < Pow256(width)
    ensures FromLittle(Little(n, width)) == n
  {
    if width > 0 {
      LittleRoundTrip(n / 256, width - 1);
      assert Little(n, width)[1..] == Little(n / 256, width - 1);
    }
  }

  lemma {:induction false} FromLittleRoundTrip(b: seq<Byte>)
    ensures Little(FromLittle(b), |b|) == b
  {
    if b != [] {
      FromLittleRoundTrip(b[1..]);
      assert b == [b[0]] + b[1..];
    }
  }

  lemma {:induction false} FromLittleBound(b: seq<Byte>)
    ensures FromLittle(b) < Pow256(|b|)
  {
    if b != [] {
      FromLittleBound(b[1..]);
    }
  }

  /** Little-endian fields one after another. */
  function Pack(values: seq<nat>, widths: seq<nat>): (b: seq<Byte>)
    requires |values| == |widths|
    ensures |b| == Sum(widths)
    decreases |values|
  {
    if values == [] then [] else Little(values[0], widths[0]) + Pack(values[1..], widths[1..])
  }

  function Unpack(b: seq<Byte>, widths: seq<nat>): (values: seq<nat>)
    requires |b| == Sum(widths)
    ensures |values| == |widths|
  {
    if widths == [] then [] else [FromLittle(b[..widths[0]])] + Unpack(b[widths[0]..], widths[1..])
  }

  function Sum(widths: seq<nat>): nat {
    if widths == [] then 0 else widths[0] + Sum(widths[1..])
  }

  predicate InWidth(values: seq<nat>, widths: seq<nat>)
    requires |values| == |widths|
  {
    forall i | 0 <= i < |values| :: values[i] < Pow256(widths[i])
  }

  lemma {:induction false} UnpackPack(values: seq<nat>, widths: seq<nat>)
    requires |values| == |widths| && InWidth(values, widths)
    ensures Unpack(Pack(values, widths), widths) == values
    decreases |values|
  {
    if values != [] {
      var b := Pack(values, widths);
      LittleRoundTrip(values[0], widths[0]);
      UnpackPack(values[1..], widths[1..]);
      assert b[..widths[0]] == Little(values[0], widths[0]);
      assert b[widths[0]..] == Pack(values[1..], widths[1..]);
    }
  }

  lemma PackCons(v: nat, values: seq<nat>, w: nat, widths: seq<nat>)
    requires |values| == |widths|
    ensures Pack([v] + values, [w] + widths) == Little(v, w) + Pack(values, widths)
  {
    assert ([v] + values)[1..] == values && ([w] + widths)[1..] == widths;
  }

  lemma {:induction false} PackUnpack(b: seq<Byte>, widths: seq<nat>)
    requires |b| == Sum(widths)
    ensures Pack(Unpack(b, widths), widths) == b
    decreases |widths|
  {
    if widths != [] {
      var w, rest := widths[0], widths[1..];
      FromLittleRoundTrip(b[..w]);
      PackUnpack(b[w..], rest);
      PackCons(FromLittle(b[..w]), Unpack(b[w..], rest), w, rest);
      assert widths == [w] + rest;
      assert b == b[..w] + b[w..];
    }
  }

  lemma {:induction false} UnpackInWidth(b: seq<Byte>, widths: seq<nat>)
    requires |b| == Sum(widths)
    ensures InWidth(Unpack(b, widths), widths)
    decreases |widths|
  {
    if widths != [] {
      var w := widths[0];
      FromLittleBound(b[..w]);
      UnpackInWidth(b[w..], widths[1..]);
    }
  }

  /** magic, version, kind, request id, status, the three sizes, the wait. */
  const WIDTHS: seq<nat> := [4, 2, 2, 8, 4, 4, 4, 4, 4]

  lemma WidthSum()
    ensures Sum(WIDTHS) == FRAME_BYTES - RESERVED_BYTES
  {
    assert WIDTHS[1..][1..] == [2, 8, 4, 4, 4, 4, 4];
    assert Sum([2, 8, 4, 4, 4, 4, 4]) == 30 by {
      assert [2, 8, 4, 4, 4, 4, 4][1..][1..] == [4, 4, 4, 4, 4];
      assert [4, 4, 4, 4, 4][1..][1..] == [4, 4, 4];
      assert [4, 4, 4][1..][1..] == [4];
    }
  }

  function Fields(f: Frame): (values: seq<nat>)
    ensures |values| == |WIDTHS|
  {
    [f.magic, f.version, f.kind, f.requestId, f.status, f.nameBytes, f.md5Bytes, f.payloadBytes, f.waitMs]
  }

  lemma FitsWidths(f: Frame)
    requires |f.reserved| == RESERVED_BYTES
    ensures Fits(f) <==> InWidth(Fields(f), WIDTHS)
  {
    assert Pow256(2) == TWO16;
    assert Pow256(4) == 256 * (256 * Pow256(2));
    assert Pow256(6) == 256 * (256 * Pow256(4));
    assert Pow256(8) == 256 * (256 * Pow256(6));
    var v := Fields(f);
    if InWidth(v, WIDTHS) {
      assert v[0] < Pow256(WIDTHS[0]) && v[1] < Pow256(WIDTHS[1]) && v[2] < Pow256(WIDTHS[2]);
      assert v[3] < Pow256(WIDTHS[3]) && v[4] < Pow256(WIDTHS[4]) && v[5] < Pow256(WIDTHS[5]);
      assert v[6] < Pow256(WIDTHS[6]) && v[7] < Pow256(WIDTHS[7]) && v[8] < Pow256(WIDTHS[8]);
    }
  }

  /** The object representation of the struct: fields in declaration order,
      without padding, little endian, then the reserved bytes. */
  function Encode(f: Frame): (b: seq<Byte>)
    requires |f.reserved| == RESERVED_BYTES
    ensures |b| == FRAME_BYTES
  {
    WidthSum();
    Pack(Fields(f), WIDTHS) + f.reserved
  }

  function Decode(b: seq<Byte>): (f: Frame)
    requires |b| == FRAME_BYTES
    ensures |f.reserved| == RESERVED_BYTES
  {
    WidthSum();
    var cut := FRAME_BYTES - RESERVED_BYTES;
    var v := Unpack(b[..cut], WIDTHS);
    Frame(v[0], v[1], v[2], v[3], v[4], v[5], v[6], v[7], v[8], b[cut..])
  }

  /** A frame whose fields fit comes back unchanged from its bytes. */
  lemma DecodeEncode(f: Frame)
    requires Fits(f)
    ensures Decode(Encode(f)) == f
  {
    WidthSum();
    FitsWidths(f);
    UnpackPack(Fields(f), WIDTHS);
    var cut := FRAME_BYTES - RESERVED_BYTES;
    assert Encode(f)[..cut] == Pack(Fields(f), WIDTHS);
    assert Encode(f)[cut..] == f.reserved;
  }

  /** Any 64 bytes are the bytes of exactly the frame they decode to. */
  lemma EncodeDecode(b: seq<Byte>)
    requires |b| == FRAME_BYTES
    ensures Fits(Decode(b)) && Encode(Decode(b)) == b
  {
    WidthSum();
    var cut := FRAME_BYTES - RESERVED_BYTES;
    PackUnpack(b[..cut], WIDTHS);
    UnpackInWidth(b[..cut], WIDTHS);
    assert Fields(Decode(b)) == Unpack(b[..cut], WIDTHS);
    FitsWidths(Decode(b));
    assert b == b[..cut] + b[cut..];
  }

  // ---- Constructors ------------------------------------------------------

  function ZeroBytes(n: nat): (b: seq<Byte>)
    ensures |b| == n && AllZero(b)
  {
    seq(n, _ => 0)
  }

  /** `Frame frame{}` leaves the reserved bytes zero. */
  function Reserved(): (b: seq<Byte>)
    ensures |b| == RESERVED_BYTES && AllZero(b)
  {
    ZeroBytes(RESERVED_BYTES)
  }

  /** The size_t arguments are narrowed to 32 bits without a check. */
  function MakeRequest(id: nat, nameBytes: nat, md5Bytes: nat, payloadBytes: nat, waitMs: nat): Frame {
    Frame(MAGIC, VERSION, REQUEST, id, 0, nameBytes % TWO32, md5Bytes % TWO32, payloadBytes % TWO32, waitMs, Reserved())
  }

  function MakeReady(id: nat, status: ReadyStatus): Frame {
    Frame(MAGIC, VERSION, READY, id, status.Code(), 0, 0, 0, 0, Reserved())
  }

  function MakeCommit(id: nat): Frame {
    Frame(MAGIC, VERSION, COMMIT, id, 0, 0, 0, 0, 0, Reserved())
  }

  function MakeResponse(id: nat, status: ResponseStatus, payloadBytes: nat): Frame {
    Frame(MAGIC, VERSION, RESPONSE, id, status.Code(), 0, 0, payloadBytes % TWO32, 0, Reserved())
  }

  // ---- Validators --------------------------------------------------------

  predicate AllZero(b: seq<Byte>) {
    forall i | 0 <= i < |b| :: b[i] == 0
  }

  predicate HexDigit(b: Byte) {
    48 <= b <= 57 || 97 <= b <= 102 || 65 <= b <= 70
  }

  predicate ValidMd5(b: seq<Byte>) {
    |b| == MD5_BYTES && forall i | 0 <= i < |b| :: HexDigit(b[i])
  }

  /** The scan behind the reserved-bytes test. */
  method BytesAreZero(b: seq<Byte>) returns (zero: bool)
    ensures zero <==> AllZero(b)
  {
    for i := 0 to |b|
      invariant AllZero(b[..i])
    {
      if b[i] != 0 {
        return false;
      }
      assert b[..i + 1] == b[..i] + [b[i]];
    }
    assert b[..|b|] == b;
    return true;
  }

  /** The scan behind the digest test. */
  method CheckServiceMd5(b: seq<Byte>) returns (valid: bool)
    ensures valid <==> ValidMd5(b)
  {
    if |b| != MD5_BYTES {
      return false;
    }
    for i := 0 to |b|
      invariant forall k | 0 <= k < i :: HexDigit(b[k])
    {
      if !HexDigit(b[i]) {
        return false;
      }
    }
    return true;
  }

  predicate ValidBase(f: Frame) {
    f.magic == MAGIC && f.version == VERSION && f.requestId != 0 && AllZero(f.reserved)
  }

  predicate ValidRequest(f: Frame) {
    && ValidBase(f) && f.kind == REQUEST && f.status == 0
    && 0 < f.nameBytes <= MAX_NAME_BYTES && f.md5Bytes == MD5_BYTES
    && f.payloadBytes <= MAX_PAYLOAD_BYTES && f.waitMs <= MAX_WAIT_MS
  }

  predicate ValidReady(f: Frame, id: nat) {
    && ValidBase(f) && f.requestId == id && f.kind == READY
    && f.nameBytes == 0 && f.md5Bytes == 0 && f.payloadBytes == 0 && f.waitMs == 0
    && 1 <= f.status <= 3
  }

  predicate ValidCommit(f: Frame, id: nat) {
    && ValidBase(f) && f.requestId == id && f.kind == COMMIT && f.status == 0
    && f.nameBytes == 0 && f.md5Bytes == 0 && f.payloadBytes == 0 && f.waitMs == 0
  }

  predicate ValidResponse(f: Frame, id: nat) {
    && ValidBase(f) && f.requestId == id && f.kind == RESPONSE
    && f.nameBytes == 0 && f.md5Bytes == 0 && f.waitMs == 0 && f.payloadBytes <= MAX_PAYLOAD_BYTES
    && (f.status == Completed.Code() || (f.payloadBytes == 0 && 2 <= f.status <= 4))
  }

  /** Sizes a request frame may announce without the narrowing losing anything. */
  predicate Announceable(id: nat, nameBytes: nat, md5Bytes: nat, payloadBytes: nat, waitMs: nat) {
    && 0 < id < TWO64 && 0 < nameBytes <= MAX_NAME_BYTES && md5Bytes == MD5_BYTES
    && payloadBytes <= MAX_PAYLOAD_BYTES && waitMs <= MAX_WAIT_MS
  }

  /** The receiver's validator judges the narrowed sizes: it accepts exactly the
      requests that are announceable modulo 2^32. Below 2^32 these are the
      announceable ones; a name of 2^32 + 1 bytes is the first it lets through. */
  lemma RequestAcceptedExactly(id: nat, nameBytes: nat, md5Bytes: nat, payloadBytes: nat, waitMs: nat)
    requires id < TWO64 && waitMs < TWO32
    ensures ValidRequest(MakeRequest(id, nameBytes, md5Bytes, payloadBytes, waitMs))
            <==> Announceable(id, nameBytes % TWO32, md5Bytes % TWO32, payloadBytes % TWO32, waitMs)
    ensures nameBytes < TWO32 && md5Bytes < TWO32 && payloadBytes < TWO32 ==>
              (ValidRequest(MakeRequest(id, nameBytes, md5Bytes, payloadBytes, waitMs))
               <==> Announceable(id, nameBytes, md5Bytes, payloadBytes, waitMs))
    ensures ValidRequest(MakeRequest(1, TWO32 + 1, MD5_BYTES, 0, 0))
  {
    assert (TWO32 + 1) % TWO32 == 1;
  }

  /** The bytes one side puts on the wire are accepted by the other side's
      validator for that kind and carry the sizes sent. */
  lemma RequestOnWire(id: nat, nameBytes: nat, md5Bytes: nat, payloadBytes: nat, waitMs: nat)
    requires Announceable(id, nameBytes, md5Bytes, payloadBytes, waitMs)
    ensures var f := MakeRequest(id, nameBytes, md5Bytes, payloadBytes, waitMs);
            && Decode(Encode(f)) == f && ValidRequest(f)
            && f.nameBytes == nameBytes && f.md5Bytes == md5Bytes && f.payloadBytes == payloadBytes
  {
    var f := MakeRequest(id, nameBytes, md5Bytes, payloadBytes, waitMs);
    DecodeEncode(f);
  }

  lemma ReadyOnWire(id: nat, status: ReadyStatus)
    requires 0 < id < TWO64
    ensures var f := MakeReady(id, status);
            && Decode(Encode(f)) == f && ValidReady(f, id) && f.status == status.Code()
  {
    DecodeEncode(MakeReady(id, status));
  }

  lemma CommitOnWire(id: nat)
    requires 0 < id < TWO64
    ensures var f := MakeCommit(id);
            && Decode(Encode(f)) == f && ValidCommit(f, id)
  {
    DecodeEncode(MakeCommit(id));
  }

  lemma ResponseOnWire(id: nat, status: ResponseStatus, payloadBytes: nat)
    requires 0 < id < TWO64 && payloadBytes <= MAX_PAYLOAD_BYTES
    requires status != Completed ==> payloadBytes == 0
    ensures var f := MakeResponse(id, status, payloadBytes);
            && Decode(Encode(f)) == f && ValidResponse(f, id) && f.status == status.Code()
            && f.payloadBytes == payloadBytes
  {
    DecodeEncode(MakeResponse(id, status, payloadBytes));
  }

  /** Whatever 64 bytes arrive, at most one of the four validators accepts them. */
  lemma KindsExclude(b: seq<Byte>, id: nat)
    requires |b| == FRAME_BYTES
    ensures var f := Decode(b);
            var accepted := [ValidRequest(f), ValidReady(f, id), ValidCommit(f, id), ValidResponse(f, id)];
            forall i, j | 0 <= i < j < 4 :: !(accepted[i] && accepted[j])
  {
  }
}

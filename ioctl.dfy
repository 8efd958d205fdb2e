/** The Linux ioctl request-code layout of `include/uapi/asm-generic/ioctl.h`:
    a 32-bit code holds, from the least significant bit up, the command
    number (8 bits), the type or "magic" (8 bits), the argument size
    (14 bits) and the direction (2 bits).

    The header builds a code with shifts and bitwise or, and takes it apart
    with shifts and masks. On non-negative integers whose fields fit their
    widths these are multiplication and addition by powers of two, and
    division and remainder by powers of two, which is how they are written
    here. */
module Ioctl {

  /** Rust's `u32`, the type of the request-code constants. */
  newtype u32 = x: int | 0 <= x < 0x1_0000_0000

  /** `1 << _IOC_TYPESHIFT`, `1 << _IOC_SIZESHIFT`, `1 << _IOC_DIRSHIFT`
      (the shifts are 8, 16 and 30; `_IOC_NRSHIFT` is 0). */
  const TYPE_UNIT: nat := 0x100
  const SIZE_UNIT: nat := 0x1_0000
  const DIR_UNIT: nat := 0x4000_0000

  /** One more than the largest value of each field (`_IOC_xMASK + 1`). */
  const NR_LIMIT: nat := 0x100
  const TYPE_LIMIT: nat := 0x100
  const SIZE_LIMIT: nat := 0x4000
  const DIR_LIMIT: nat := 4

  /** `_IOC_WRITE`, the direction of a request that writes to the device. */
  const IOC_WRITE: nat := 1

  /** The four fields of a request code. */
  datatype Request = Request(dir: nat, typ: nat, nr: nat, size: nat)

  /** Which field does not fit its width. */
  datatype Field = Dir | Type | Nr | Size

  datatype Encoded = Code(code: u32) | Overflow(field: Field)

  /** Every field fits its bit width (2, 8, 8 and 14 bits). */
  predicate InRange(q: Request) {
    q.dir < DIR_LIMIT && q.typ < TYPE_LIMIT && q.nr < NR_LIMIT && q.size < SIZE_LIMIT
  }

  /** `_IOC(dir, type, nr, size)`. A field too wide for its place would spill
      into the next field and give the code of a different request, so it is
      reported instead of truncated. */
  function Encode(q: Request): (r: Encoded)
    ensures r.Code? <==> InRange(q)
  {
    if q.dir >= DIR_LIMIT then Overflow(Dir)
    else if q.typ >= TYPE_LIMIT then Overflow(Type)
    else if q.nr >= NR_LIMIT then Overflow(Nr)
    else if q.size >= SIZE_LIMIT then Overflow(Size)
    else Code((q.dir * DIR_UNIT + q.size * SIZE_UNIT + q.typ * TYPE_UNIT + q.nr) as u32)
  }

  /** `_IOW(type, nr, size)`: a request that writes `size` bytes to the device. */
  function Iow(typ: nat, nr: nat, size: nat): Encoded {
    Encode(Request(IOC_WRITE, typ, nr, size))
  }

  /** `_IOC_DIR`, `_IOC_TYPE`, `_IOC_NR` and `_IOC_SIZE` together. */
  function Decode(c: u32): (q: Request)
    ensures InRange(q)
  {
    var n := c as nat;
    Request(n / DIR_UNIT % DIR_LIMIT, n / TYPE_UNIT % TYPE_LIMIT, n % NR_LIMIT, n / SIZE_UNIT % SIZE_LIMIT)
  }

  /** Decoding a code built from in-range fields gives the fields back. */
  lemma DecodeEncode(q: Request)
    requires InRange(q)
    ensures Encode(q).Code? && Decode(Encode(q).code) == q
  {
    Unpack(q.dir, q.typ, q.nr, q.size);
  }

  /** The field arithmetic behind DecodeEncode, on plain numbers. */
  lemma Unpack(dir: nat, typ: nat, nr: nat, size: nat)
    requires dir < 4 && typ < 0x100 && nr < 0x100 && size < 0x4000
    ensures var n := dir * 0x4000_0000 + size * 0x1_0000 + typ * 0x100 + nr;
      n / 0x4000_0000 % 4 == dir && n / 0x1_0000 % 0x4000 == size && n / 0x100 % 0x100 == typ && n % 0x100 == nr
  {
    var n := dir * 0x4000_0000 + size * 0x1_0000 + typ * 0x100 + nr;
    // each shift splits the code into the fields above it and those below
    var top := dir * 0x4000 + size;
    assert n == top * 0x1_0000 + (typ * 0x100 + nr);
    DivMod(top, typ * 0x100 + nr, 0x1_0000);
    DivMod(dir, size, 0x4000);
    assert n == dir * 0x4000_0000 + (size * 0x1_0000 + typ * 0x100 + nr);
    DivMod(dir, size * 0x1_0000 + typ * 0x100 + nr, 0x4000_0000);
    DivMod(0, dir, 4);
    assert n == (top * 0x100 + typ) * 0x100 + nr;
    DivMod(top * 0x100 + typ, nr, 0x100);
    DivMod(top, typ, 0x100);
  }

  /** Division and remainder undo multiplication and addition of a smaller
      number. */
  lemma DivMod(hi: nat, lo: nat, m: nat)
    requires lo < m
    ensures (hi * m + lo) / m == hi && (hi * m + lo) % m == lo
  {
    var n := hi * m + lo;
    var q, r := n / m, n % m;
    assert (q - hi) * m == lo - r;
    MultipleOrZero(q - hi, m);
  }

  /** A non-zero multiple of `m` is at least `m` away from zero. */
  lemma MultipleOrZero(k: int, m: nat)
    ensures k == 0 || k * m >= m || k * m + m <= 0
  {
    if k >= 1 {
      assert k * m == (k - 1) * m + m;
    } else if k <= -1 {
      assert k * m == (k + 1) * m - m;
    }
  }

  /** Every 32-bit code is the encoding of its own fields. */
  lemma {:induction false} EncodeDecode(c: u32)
    ensures Encode(Decode(c)) == Code(c)
  {
    var n := c as nat;
    // peel the fields off from the top: n == dir.rest, rest == size.low, low == typ.nr
    var dir, rest := n / DIR_UNIT, n % DIR_UNIT;
    var size, low := rest / SIZE_UNIT, rest % SIZE_UNIT;
    var typ, nr := low / TYPE_UNIT, low % TYPE_UNIT;
    var q := Request(dir, typ, nr, size);
    assert InRange(q);
    assert n == dir * DIR_UNIT + size * SIZE_UNIT + typ * TYPE_UNIT + nr;
    DecodeEncode(q);
    assert Decode(c) == q;
  }

  /** Different in-range requests have different codes. */
  lemma {:induction false} EncodeInjective(p: Request, q: Request)
    requires InRange(p) && InRange(q) && Encode(p) == Encode(q)
    ensures p == q
  {
    DecodeEncode(p);
    DecodeEncode(q);
  }
}

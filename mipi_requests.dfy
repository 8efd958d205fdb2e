/** The request codes of the MIPI/LVDS/SLVS combo device (`src/lib.rs`):
    sixteen literal `u32` constants, and what each of them means under the
    generic Linux ioctl layout of module Ioctl. All are `_IOW('m', nr, size)`
    codes: the caller writes a `size`-byte argument to the device. */
module MipiRequests {
  import opened Ioctl

  /** The device's ioctl magic, the character 'm'. */
  const MIPI_MAGIC: nat := 'm' as nat

  const HI_MIPI_SET_DEV_ATTR: u32 := 1113615617
  const HI_MIPI_SET_PHY_CMVMODE: u32 := 1074294020
  const HI_MIPI_RESET_SENSOR: u32 := 1074031877
  const HI_MIPI_UNRESET_SENSOR: u32 := 1074031878
  const HI_MIPI_RESET_MIPI: u32 := 1074031879
  const HI_MIPI_UNRESET_MIPI: u32 := 1074031880
  const HI_MIPI_RESET_SLVS: u32 := 1074031881
  const HI_MIPI_UNRESET_SLVS: u32 := 1074031882
  const HI_MIPI_SET_HS_MODE: u32 := 1074031883
  const HI_MIPI_ENABLE_MIPI_CLOCK: u32 := 1074031884
  const HI_MIPI_DISABLE_MIPI_CLOCK: u32 := 1074031885
  const HI_MIPI_ENABLE_SLVS_CLOCK: u32 := 1074031886
  const HI_MIPI_DISABLE_SLVS_CLOCK: u32 := 1074031887
  const HI_MIPI_ENABLE_SENSOR_CLOCK: u32 := 1074031888
  const HI_MIPI_DISABLE_SENSOR_CLOCK: u32 := 1074031889
  const HI_MIPI_CLEAR: u32 := 1074031890

  /** The constants in declaration order. */
  const ALL_REQUESTS: seq<u32> := [
    HI_MIPI_SET_DEV_ATTR, HI_MIPI_SET_PHY_CMVMODE,
    HI_MIPI_RESET_SENSOR, HI_MIPI_UNRESET_SENSOR,
    HI_MIPI_RESET_MIPI, HI_MIPI_UNRESET_MIPI,
    HI_MIPI_RESET_SLVS, HI_MIPI_UNRESET_SLVS,
    HI_MIPI_SET_HS_MODE,
    HI_MIPI_ENABLE_MIPI_CLOCK, HI_MIPI_DISABLE_MIPI_CLOCK,
    HI_MIPI_ENABLE_SLVS_CLOCK, HI_MIPI_DISABLE_SLVS_CLOCK,
    HI_MIPI_ENABLE_SENSOR_CLOCK, HI_MIPI_DISABLE_SENSOR_CLOCK,
    HI_MIPI_CLEAR
  ]

  /** The argument size, in bytes, of the request at position `i` in
      declaration order: the device attribute structure (608 bytes), the
      phy common-mode structure (8 bytes), and a 4-byte value for the rest. */
  function ArgumentSize(i: nat): nat {
    if i == 0 then 608 else if i == 1 then 8 else 4
  }

  /** The command number of the request at position `i` in declaration
      order: 1 and 4 for the two attribute requests, then 5, 6, ... */
  function CommandNumber(i: nat): nat {
    if i == 0 then 1 else if i == 1 then 4 else i + 3
  }

  /** The fields the request at position `i` in declaration order has. */
  function Expected(i: nat): Request {
    Request(IOC_WRITE, MIPI_MAGIC, CommandNumber(i), ArgumentSize(i))
  }

  /** `HI_MIPI_SET_DEV_ATTR` (0x42606D01) is `_IOW('m', 1, 608 bytes)`. */
  lemma SetDevAttrFields()
    ensures HI_MIPI_SET_DEV_ATTR == 0x4260_6D01
    ensures Decode(HI_MIPI_SET_DEV_ATTR) == Request(IOC_WRITE, 0x6D, 1, 608)
    ensures Iow(MIPI_MAGIC, 1, 608) == Code(HI_MIPI_SET_DEV_ATTR)
  {
  }

  /** `HI_MIPI_SET_PHY_CMVMODE` (0x40086D04) is `_IOW('m', 4, 8 bytes)`. */
  lemma SetPhyCmvModeFields()
    ensures HI_MIPI_SET_PHY_CMVMODE == 0x4008_6D04
    ensures Decode(HI_MIPI_SET_PHY_CMVMODE) == Request(IOC_WRITE, 0x6D, 4, 8)
    ensures Iow(MIPI_MAGIC, 4, 8) == Code(HI_MIPI_SET_PHY_CMVMODE)
  {
  }

  /** The value of each constant, by position: after the two attribute
      requests the codes are consecutive, from `HI_MIPI_RESET_SENSOR`
      (1074031877) to `HI_MIPI_CLEAR` (1074031890). */
  lemma {:induction false} RequestAt(i: nat)
    requires i < |ALL_REQUESTS|
    ensures ALL_REQUESTS[i] as int == if i == 0 then 1113615617 else if i == 1 then 1074294020 else 1074031875 + i
  {
  }

  /** Each constant is the code of the fields its position calls for, and
      decodes back to them. */
  lemma {:induction false} DeclaredFields(i: nat)
    requires i < |ALL_REQUESTS|
    ensures Encode(Expected(i)) == Code(ALL_REQUESTS[i])
    ensures Decode(ALL_REQUESTS[i]) == Expected(i)
  {
    RequestAt(i);
    DecodeEncode(Expected(i));
  }

  /** From `HI_MIPI_RESET_SENSOR` to `HI_MIPI_CLEAR` the codes are
      consecutive, and the one at position `i` is `_IOW('m', i + 3, 4 bytes)`. */
  lemma {:induction false} SensorAndClockFields()
    ensures forall i :: 2 <= i < |ALL_REQUESTS| ==>
      ALL_REQUESTS[i] as int == HI_MIPI_RESET_SENSOR as int + (i - 2)
      && Iow(MIPI_MAGIC, i + 3, 4) == Code(ALL_REQUESTS[i])
  {
    forall i | 2 <= i < |ALL_REQUESTS|
      ensures ALL_REQUESTS[i] as int == HI_MIPI_RESET_SENSOR as int + (i - 2)
      ensures Iow(MIPI_MAGIC, i + 3, 4) == Code(ALL_REQUESTS[i])
    {
      DeclaredFields(i);
    }
  }

  /** Every constant writes to the device and carries the magic 'm' (0x6D);
      re-encoding its decoded fields gives it back. */
  lemma {:induction false} AllWriteRequestsOfM()
    ensures forall c :: c in ALL_REQUESTS ==>
      Decode(c).dir == IOC_WRITE && Decode(c).typ == 0x6D && Encode(Decode(c)) == Code(c)
  {
    forall c | c in ALL_REQUESTS
      ensures Decode(c).dir == IOC_WRITE && Decode(c).typ == 0x6D && Encode(Decode(c)) == Code(c)
    {
      var i :| 0 <= i < |ALL_REQUESTS| && ALL_REQUESTS[i] == c;
      DeclaredFields(i);
      EncodeDecode(c);
    }
  }

  /** The sixteen constants are pairwise distinct, and so are their command
      numbers. */
  lemma {:induction false} RequestsDistinct()
    ensures |ALL_REQUESTS| == 16
    ensures forall i, j :: 0 <= i < j < |ALL_REQUESTS| ==>
      ALL_REQUESTS[i] != ALL_REQUESTS[j] && Decode(ALL_REQUESTS[i]).nr != Decode(ALL_REQUESTS[j]).nr
  {
    forall i, j | 0 <= i < j < |ALL_REQUESTS|
      ensures ALL_REQUESTS[i] != ALL_REQUESTS[j] && Decode(ALL_REQUESTS[i]).nr != Decode(ALL_REQUESTS[j]).nr
    {
      DeclaredFields(i);
      DeclaredFields(j);
      RequestAt(i);
      RequestAt(j);
    }
  }
}

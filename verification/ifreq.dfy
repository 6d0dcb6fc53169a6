/**
 * The `struct ifreq` record handed to the TUNSETIFF ioctl by `openTunDevice`:
 * a zeroed 40-byte array, the device name copied in with Go's `copy`, then the
 * `uint16` IFF_TUN flag stored at offset IFNAMSIZ. Layout as in the Linux
 * header include/uapi/linux/if.h; the store is taken to be little-endian.
 */
module IfReq {
  import opened Bytes

  /** sizeof(struct ifreq) on Linux. */
  const IfReqSize: nat := 40
  /** Size of the `ifr_name` field, and the offset of `ifr_flags`. */
  const IFNAMSIZ: nat := 16
  /** The "IP tunnel, no Ethernet header" mode flag. */
  const IFF_TUN: bv16 := 0x0001

  /** True when offset `i` lies in the two-byte flag field. */
  predicate InFlagField(i: int)
  {
    i == IFNAMSIZ || i == IFNAMSIZ + 1
  }

  /**
   * The record as built from the device name's bytes. The copy is not cut at
   * IFNAMSIZ: up to 40 name bytes are copied, and the flag store afterwards
   * overwrites name bytes 16 and 17.
   */
  function BuildIfReq(dev: seq<byte>): (r: seq<byte>)
    ensures |r| == IfReqSize
    ensures forall i :: 0 <= i < |dev| && i < IfReqSize && !InFlagField(i) ==> r[i] == dev[i]
    ensures forall i :: |dev| <= i < IfReqSize && !InFlagField(i) ==> r[i] == 0
    ensures r[IFNAMSIZ] == 0x01 && r[IFNAMSIZ + 1] == 0x00
    ensures DecodeU16LE(r[IFNAMSIZ..IFNAMSIZ + 2]) == IFF_TUN
  {
    PutU16LE(Copy(Zeros(IfReqSize), dev), IFNAMSIZ, IFF_TUN)
  }

  /** The `ifr_name` field of a record. */
  function NameField(r: seq<byte>): seq<byte>
    requires |r| == IfReqSize
  {
    r[..IFNAMSIZ]
  }

  /** True when the name field holds a NUL terminator. */
  predicate NameTerminated(r: seq<byte>)
    requires |r| == IfReqSize
  {
    exists i :: 0 <= i < IFNAMSIZ && NameField(r)[i] == 0
  }

  /** The C string a NUL-terminated buffer holds: the bytes before the first NUL. */
  function CString(s: seq<byte>): (r: seq<byte>)
    ensures |r| <= |s|
    ensures NoNul(r)
  {
    if |s| == 0 || s[0] == 0 then []
    else [s[0]] + CString(s[1..])
  }

  /** A NUL-free string followed by a NUL reads back as itself. */
  lemma {:induction false} CStringOfTerminated(name: seq<byte>, rest: seq<byte>)
    requires NoNul(name)
    requires |rest| > 0 && rest[0] == 0
    ensures CString(name + rest) == name
  {
    if |name| > 0 {
      assert (name + rest)[1..] == name[1..] + rest;
      CStringOfTerminated(name[1..], rest);
    } else {
      assert name + rest == rest;
    }
  }

  /**
   * A NUL-free name shorter than IFNAMSIZ survives the record intact: reading
   * the name field as a C string gives the name back, and the flag reads IFF_TUN.
   */
  lemma ShortNameRoundTrip(dev: seq<byte>)
    requires |dev| < IFNAMSIZ && NoNul(dev)
    ensures CString(NameField(BuildIfReq(dev))) == dev
    ensures DecodeU16LE(BuildIfReq(dev)[IFNAMSIZ..IFNAMSIZ + 2]) == IFF_TUN
  {
    var field := NameField(BuildIfReq(dev));
    assert field == dev + field[|dev|..];
    CStringOfTerminated(dev, field[|dev|..]);
  }

  /**
   * For a NUL-free name, the name field is NUL-terminated exactly when the name
   * is shorter than IFNAMSIZ: for a longer name the field holds no terminator
   * (its later bytes still spill past the field into the rest of the record).
   */
  lemma NameTerminatedIffShort(dev: seq<byte>)
    requires NoNul(dev)
    ensures NameTerminated(BuildIfReq(dev)) <==> |dev| < IFNAMSIZ
  {
    var r := BuildIfReq(dev);
    if |dev| < IFNAMSIZ {
      assert NameField(r)[|dev|] == 0;
    } else {
      forall i | 0 <= i < IFNAMSIZ
        ensures NameField(r)[i] != 0
      {
        assert r[i] == dev[i];
      }
    }
  }

  /** Name bytes past the end of the 40-byte record are dropped. */
  lemma OnlyFirstFortyBytesMatter(dev: seq<byte>)
    requires |dev| > IfReqSize
    ensures BuildIfReq(dev) == BuildIfReq(dev[..IfReqSize])
  {
  }
}

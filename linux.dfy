/**
 * The deterministic part of the character-device back end (/dev/net/tun):
 * the `struct ifreq` sent with TUNSETIFF, the parsing of the interface name
 * out of it, the read worker's frames and the adapter's hardware address.
 *
 * The layout of the request follows the Linux kernel's tun/tap interface
 * (Documentation/networking/tuntap.rst): the interface name in the first
 * IFNAMSIZ = 16 bytes, NUL-terminated, then `ifr_flags`, a 16-bit value in
 * the machine's byte order, little-endian here. Every answer of the kernel
 * (the bytes a read delivers, the interface's address) is a parameter.
 */
module AdapterLinux {
  import opened Common

  // ---------------------------------------------------------------------------
  // The TUNSETIFF request
  // ---------------------------------------------------------------------------

  /** Go's `uint16`. */
  type uint16 = x: int | 0 <= x < 0x1_0000

  const IffTun: bv16 := 0x0001
  const IffTap: bv16 := 0x0002
  const IffNoPi: bv16 := 0x1000

  /** The flags newTAP asks for: a tap device without packet information. */
  const TapFlags: uint16 := (IffTap | IffNoPi) as int

  /** IFNAMSIZ: the size of the name field, terminating NUL included. */
  const IfNameSize: nat := 16

  /** The size of the request buffer newTAP passes to the kernel. */
  const IfReqSize: nat := 32

  lemma TapFlagsValue()
    ensures TapFlags == 0x1002
  {
  }

  /** binary.LittleEndian.PutUint16: low byte first. */
  function LittleEndian16(v: uint16): (b: seq<byte>)
    ensures |b| == 2 && Uint16(b) == v
  {
    [v % 0x100, v / 0x100]
  }

  /** binary.LittleEndian.Uint16: the value of two bytes, low byte first. */
  function Uint16(b: seq<byte>): uint16
    requires |b| == 2
  {
    b[0] as int + 0x100 * b[1] as int
  }

  /** Encoding after decoding gives back the same two bytes. */
  lemma LittleEndian16OfUint16(b: seq<byte>)
    requires |b| == 2
    ensures LittleEndian16(Uint16(b)) == b
  {
  }

  /**
   * The name field of the request: when the name is non-empty and its bytes
   * with their terminating NUL are fewer than 16, the name, a NUL and zero
   * padding; otherwise 16 zero bytes, which asks the kernel to choose a name.
   */
  function NameField(name: seq<byte>): (f: seq<byte>)
    requires 0 !in name
    ensures |f| == IfNameSize
  {
    if name != [] && |name| + 1 < IfNameSize then name + [0] + Zeros(IfNameSize - |name| - 1)
    else Zeros(IfNameSize)
  }

  /** The 32-byte request newTAP hands to the TUNSETIFF ioctl. */
  function IfReq(name: seq<byte>): (r: seq<byte>)
    requires 0 !in name
    ensures |r| == IfReqSize
  {
    NameField(name) + LittleEndian16(TapFlags) + Zeros(IfReqSize - IfNameSize - 2)
  }

  /**
   * The request's layout, byte by byte: a name of 1 to 14 bytes followed by a
   * NUL in bytes 0..15, or 16 zero bytes; the flags 0x1002 in bytes 16 and
   * 17, low byte first; zero in bytes 18..31.
   */
  lemma IfReqLayout(name: seq<byte>)
    requires 0 !in name
    ensures 0 < |name| <= IfNameSize - 2 ==>
      IfReq(name)[..|name|] == name &&
      forall k :: |name| <= k < IfNameSize ==> IfReq(name)[k] == 0
    ensures !(0 < |name| <= IfNameSize - 2) ==>
      forall k :: 0 <= k < IfNameSize ==> IfReq(name)[k] == 0
    ensures IfReq(name)[16] == 0x02 && IfReq(name)[17] == 0x10
    ensures forall k :: 18 <= k < IfReqSize ==> IfReq(name)[k] == 0
  {
  }

  /**
   * Go's `copy(dst[lo:hi], src)` on an array of bytes: the first
   * min(hi - lo, |src|) bytes of `src` overwrite `dst` from `lo`; the count
   * is returned.
   */
  method CopyBytes(dst: array<byte>, lo: nat, hi: nat, src: seq<byte>) returns (n: nat)
    requires lo <= hi <= dst.Length
    modifies dst
    ensures n == if |src| < hi - lo then |src| else hi - lo
    ensures dst[..] == old(dst[..lo]) + src[..n] + old(dst[lo + n..])
  {
    n := if |src| < hi - lo then |src| else hi - lo;
    forall k | lo <= k < lo + n {
      dst[k] := src[k - lo];
    }
    assert dst[..] == old(dst[..lo]) + src[..n] + old(dst[lo + n..]);
  }

  /** binary.LittleEndian.PutUint16(dst[off:], v). */
  method PutUint16(dst: array<byte>, off: nat, v: uint16)
    requires off + 2 <= dst.Length
    modifies dst
    ensures dst[..] == old(dst[..off]) + LittleEndian16(v) + old(dst[off + 2..])
  {
    dst[off] := v % 0x100;
    dst[off + 1] := v / 0x100;
    assert dst[..] == old(dst[..off]) + LittleEndian16(v) + old(dst[off + 2..]);
  }

  /**
   * newTAP's request: a zeroed 32-byte buffer; when the name is non-empty and
   * its bytes with the terminating NUL that StringByteSlice appends are fewer
   * than 16, they are copied into bytes 0..14; the flags are written at
   * offset 16. StringByteSlice panics on a name containing a NUL byte.
   */
  method TunSetIffRequest(name: seq<byte>) returns (req: seq<byte>)
    requires 0 !in name
    ensures req == IfReq(name)
  {
    var flags: uint16 := TapFlags;
    var ifrReq := new byte[IfReqSize](_ => 0);
    var b := name + [0];
    if name != [] && |b| < IfNameSize {
      var n := CopyBytes(ifrReq, 0, 15, b);
      assert ifrReq[..] == b + Zeros(IfReqSize - |b|);
    }
    assert ifrReq[..IfNameSize] == NameField(name);
    PutUint16(ifrReq, 16, flags);
    req := ifrReq[..];
    assert req == NameField(name) + LittleEndian16(TapFlags) + Zeros(IfReqSize - IfNameSize - 2);
  }

  // ---------------------------------------------------------------------------
  // Parsing a NUL-terminated name
  // ---------------------------------------------------------------------------

  /** The index of the first NUL byte of `s`, or |s| when there is none. */
  function NameLength(s: seq<byte>): (i: nat)
    ensures i <= |s|
    ensures forall j :: 0 <= j < i ==> s[j] != 0
    ensures i < |s| ==> s[i] == 0
  {
    if s == [] || s[0] == 0 then 0 else 1 + NameLength(s[1..])
  }

  /** The name a NUL-terminated field holds. */
  function ParsedName(s: seq<byte>): (name: seq<byte>)
    ensures name <= s && 0 !in name
  {
    s[..NameLength(s)]
  }

  /**
   * parseName: scans for the first NUL byte and returns the bytes before it,
   * or all of `s` when it holds none.
   */
  method ParseName(s: seq<byte>) returns (name: seq<byte>)
    ensures name == ParsedName(s)
    ensures name <= s && 0 !in name
    ensures |name| < |s| ==> s[|name|] == 0
  {
    var i := 0;
    while i < |s|
      invariant 0 <= i <= |s|
      invariant forall j :: 0 <= j < i ==> s[j] != 0
    {
      if s[i] == 0 {
        break;
      }
      i := i + 1;
    }
    name := s[..i];
    NameLengthUnique(s, i);
  }

  /** Any index that ends a NUL-free prefix at a NUL or at the end is the name's length. */
  lemma NameLengthUnique(s: seq<byte>, i: nat)
    requires i <= |s|
    requires forall j :: 0 <= j < i ==> s[j] != 0
    requires i < |s| ==> s[i] == 0
    ensures NameLength(s) == i
  {
  }

  /**
   * The round trip of the request's name field: a NUL-free name of 1 to 14
   * bytes is read back unchanged; an empty or longer name gives the empty name.
   */
  lemma {:induction false} IfReqNameRoundTrip(name: seq<byte>)
    requires 0 !in name
    ensures ParsedName(IfReq(name)[..IfNameSize]) ==
      if 0 < |name| <= IfNameSize - 2 then name else []
  {
    var field := IfReq(name)[..IfNameSize];
    IfReqLayout(name);
    if 0 < |name| <= IfNameSize - 2 {
      assert field[..|name|] == name;
      NameLengthUnique(field, |name|);
    } else {
      NameLengthUnique(field, 0);
    }
  }

  // ---------------------------------------------------------------------------
  // The read worker
  // ---------------------------------------------------------------------------

  /** The kernel's answer to one read: the bytes of one frame, or an error. */
  datatype ReadAnswer = ReadBytes(data: seq<byte>) | ReadError(code: nat)

  /** A read never delivers more than the buffer it is given. */
  predicate FitsBuffer(a: ReadAnswer) {
    a.ReadBytes? ==> |a.data| <= FrameBufferSize
  }

  /**
   * One turn of fromTapWorker: a fresh 1800-byte buffer is read into; on an
   * error nothing is pushed, otherwise the filled prefix `p[:n]` is.
   */
  method ReadFrame(a: ReadAnswer) returns (frame: Option<seq<byte>>)
    requires FitsBuffer(a)
    ensures frame.Some? <==> a.ReadBytes?
    ensures frame.Some? ==> frame.value == a.data && |frame.value| <= FrameBufferSize
  {
    var p := new byte[FrameBufferSize](_ => 0);
    if a.ReadError? {
      return None;
    }
    var data := a.data;
    forall k | 0 <= k < |data| {
      p[k] := data[k];
    }
    var n := |data|;
    assert p[..n] == data;
    frame := Some(p[..n]);
  }

  /** The frames the read worker pushes: those of every successful read, in order. */
  function FramesRead(answers: seq<ReadAnswer>): seq<seq<byte>> {
    if answers == [] then []
    else (if answers[0].ReadBytes? then [answers[0].data] else []) + FramesRead(answers[1..])
  }

  /** A failed read does not end the worker: the frames of two runs of reads concatenate. */
  lemma {:induction false} FramesReadAppend(a: seq<ReadAnswer>, b: seq<ReadAnswer>)
    ensures FramesRead(a + b) == FramesRead(a) + FramesRead(b)
  {
    if a == [] {
      assert a + b == b;
    } else {
      assert (a + b)[0] == a[0];
      assert (a + b)[1..] == a[1..] + b;
      FramesReadAppend(a[1..], b);
    }
  }

  /**
   * The worker pushes at most one frame per read, and every pushed frame fits
   * the 1800-byte buffer it was read into. The bound is the kernel's side of
   * the read contract (FitsBuffer) carried through, not derived.
   */
  lemma {:induction false} FramesReadBounded(answers: seq<ReadAnswer>)
    requires forall k :: 0 <= k < |answers| ==> FitsBuffer(answers[k])
    ensures |FramesRead(answers)| <= |answers|
    ensures forall k :: 0 <= k < |FramesRead(answers)| ==> |FramesRead(answers)[k]| <= FrameBufferSize
  {
    if answers != [] {
      FramesReadBounded(answers[1..]);
    }
  }

  /**
   * fromTapWorker, over the kernel's answers to successive reads: each frame
   * is pushed to the receive queue; a failed read is logged and the worker
   * reads again.
   */
  method FromTapWorker(answers: seq<ReadAnswer>) returns (received: seq<seq<byte>>)
    requires forall k :: 0 <= k < |answers| ==> FitsBuffer(answers[k])
    ensures received == FramesRead(answers)
  {
    received := [];
    var i := 0;
    while i < |answers|
      invariant 0 <= i <= |answers|
      invariant received + FramesRead(answers[i..]) == FramesRead(answers)
    {
      var frame := ReadFrame(answers[i]);
      assert answers[i..][1..] == answers[i + 1..];
      if frame.Some? {
        received := received + [frame.value];
      }
      i := i + 1;
    }
  }

  // ---------------------------------------------------------------------------
  // The interface
  // ---------------------------------------------------------------------------

  /** The parts of tapInterface this model keeps: descriptor, MTU, name and hardware address. */
  class TapInterface {
    var fd: int
    var mtu: int
    var name: seq<byte>
    var macAddr: array<byte>

    ghost predicate Valid()
      reads this
    {
      macAddr.Length == MacLength
    }

    /**
     * The interface newTAP builds once the kernel accepted the request: its
     * name is parsed from the request's name field as the kernel left it, and
     * the hardware address the system reports for that name is copied into a
     * zeroed six-byte address (Go's copy: at most six bytes, fewer if the
     * reported address is shorter).
     */
    constructor (fd: int, nameField: seq<byte>, hardwareAddr: seq<byte>, mtu: int)
      ensures Valid() && fresh(macAddr)
      ensures this.fd == fd && this.mtu == mtu
      ensures name == ParsedName(nameField)
      ensures macAddr[..] == CopyPrefix(Zeros(MacLength), hardwareAddr)
    {
      this.fd := fd;
      this.mtu := mtu;
      var parsed := ParseName(nameField);
      name := parsed;
      var addr := new byte[MacLength](_ => 0);
      var n := CopyBytes(addr, 0, MacLength, hardwareAddr);
      macAddr := addr;
    }

    /** GetMACAddress: a fresh copy of the stored address. */
    method GetMacAddress() returns (m: array<byte>)
      requires Valid()
      ensures fresh(m) && m[..] == macAddr[..]
    {
      m := new byte[MacLength](_ => 0);
      forall k | 0 <= k < MacLength {
        m[k] := macAddr[k];
      }
    }
  }
}

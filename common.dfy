/** Types shared by both platform back ends of the tap adapter. */
module Common {

  /** Go's `byte`. */
  type byte = x: int | 0 <= x < 256

  /** Length of a hardware address: Go's `core.MacAddr` is a `[6]byte`. */
  const MacLength: nat := 6

  /** A hardware address, exactly six bytes. */
  type MacAddr = m: seq<byte> | |m| == MacLength witness [0, 0, 0, 0, 0, 0]

  /** Size of the buffer each read from the tap device is made into. */
  const FrameBufferSize: nat := 1800

  datatype Option<T> = None | Some(value: T)

  /** What an operating-system call hands back: a value or an error number. */
  datatype OsResult<T> = OsOk(value: T) | OsErr(code: nat)

  /** `n` zero bytes: the initial contents of a Go array of bytes. */
  function Zeros(n: nat): (z: seq<byte>)
    ensures |z| == n
    ensures forall k :: 0 <= k < n ==> z[k] == 0
  {
    seq(n, _ => 0)
  }

  /**
   * Go's `copy(dst, src)` for a byte array's prefix: the first min(|dst|, |src|)
   * bytes of `dst` are taken from `src`, the rest keep their value.
   */
  function CopyPrefix(dst: seq<byte>, src: seq<byte>): (r: seq<byte>)
    ensures |r| == |dst|
    ensures forall k :: 0 <= k < |dst| && k < |src| ==> r[k] == src[k]
    ensures forall k :: |src| <= k < |dst| ==> r[k] == dst[k]
  {
    if |src| < |dst| then src + dst[|src|..] else src[..|dst|]
  }
}

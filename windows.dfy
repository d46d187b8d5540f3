/**
 * The deterministic part of the driver-handle back end (the TAP-Windows driver):
 * I/O control codes, the media-status request, discovery of the adapter's
 * registry key, of its device path and of its interface name, reads of one
 * frame, and the adapter's hardware address.
 *
 * Every answer of the operating system (registry, DeviceIoControl, ReadFile,
 * the interface list) is a parameter.
 */
module AdapterWindows {
  import opened Common

  // ---------------------------------------------------------------------------
  // Errors
  // ---------------------------------------------------------------------------

  datatype Error =
    | AdapterNotFound                              // ErrAdapterNotFound
    | InterfaceNameNotFound                        // ErrInterfaceNameNotFound
    | Os(code: nat)                                // a system error passed through unchanged
    | IoctlFailed(request: IoctlKind, code: nat)   // DeviceIoControl failed, wrapped with the request's name
    | InvalidArgument                              // a path with an embedded NUL (EINVAL)

  datatype IoctlKind = SetMediaStatusRequest | GetMacAddressRequest

  datatype Result<T> = Ok(value: T) | Err(error: Error)

  // ---------------------------------------------------------------------------
  // I/O control codes
  // ---------------------------------------------------------------------------

  /** FILE_DEVICE_UNKNOWN of the Windows Driver Kit. */
  const FileDeviceUnknown: bv32 := 0x22

  /**
   * The CTL_CODE macro of the Windows Driver Kit on 32-bit unsigned values:
   * device type in bits 16..31, required access in bits 14..15, function in
   * bits 2..13 and transfer method in bits 0..1. Go's shifts on uint32 drop
   * the bits shifted out, as bv32 shifts do. When every field fits its bit
   * range, each field is recovered from the code by shifting and masking.
   */
  function CtlCode(deviceType: bv32, functionCode: bv32, transferMethod: bv32, access: bv32): (code: bv32)
    ensures FieldsFit(deviceType, functionCode, transferMethod, access) ==>
      code >> 16 == deviceType &&
      (code >> 14) & 0x3 == access &&
      (code >> 2) & 0xFFF == functionCode &&
      code & 0x3 == transferMethod
  {
    (deviceType << 16) | (access << 14) | (functionCode << 2) | transferMethod
  }

  /** Each field of a control code lies within its own bit range. */
  predicate FieldsFit(deviceType: bv32, functionCode: bv32, transferMethod: bv32, access: bv32) {
    deviceType < 0x1_0000 && functionCode < 0x1000 && transferMethod < 0x4 && access < 0x4
  }

  /** Within their ranges the four fields occupy disjoint bits: the OR is a sum. */
  lemma CtlCodeIsSum(deviceType: bv32, functionCode: bv32, transferMethod: bv32, access: bv32)
    requires FieldsFit(deviceType, functionCode, transferMethod, access)
    ensures CtlCode(deviceType, functionCode, transferMethod, access) ==
      deviceType * 0x1_0000 + access * 0x4000 + functionCode * 0x4 + transferMethod
  {
  }

  /** Within their ranges, different fields give different codes. */
  lemma CtlCodeInjective(d: bv32, f: bv32, m: bv32, a: bv32, d': bv32, f': bv32, m': bv32, a': bv32)
    requires FieldsFit(d, f, m, a) && FieldsFit(d', f', m', a')
    requires CtlCode(d, f, m, a) == CtlCode(d', f', m', a')
    ensures d == d' && f == f' && m == m' && a == a'
  {
  }

  /** ioctlGetMacAddress: TAP_WIN_IOCTL_GET_MAC, function 1 of the unknown device type. */
  const IoctlGetMacAddress: bv32 := CtlCode(FileDeviceUnknown, 1, 0, 0)

  /** ioctlSetMediaStatus: TAP_WIN_IOCTL_SET_MEDIA_STATUS, function 6 of the unknown device type. */
  const IoctlSetMediaStatus: bv32 := CtlCode(FileDeviceUnknown, 6, 0, 0)

  lemma IoctlCodeValues()
    ensures IoctlGetMacAddress == 0x220004
    ensures IoctlSetMediaStatus == 0x220018
  {
  }

  // ---------------------------------------------------------------------------
  // Requests sent with DeviceIoControl
  // ---------------------------------------------------------------------------

  /** One DeviceIoControl call: the code, the input buffer and the output buffer's size. */
  datatype IoctlCall = IoctlCall(code: bv32, input: seq<byte>, outputSize: nat)

  /**
   * setMediaStatus: fills a zeroed four-byte buffer whose first byte is 1 when
   * the link is to be connected, sends it with ioctlSetMediaStatus and wraps
   * the driver's error. `answer` is what DeviceIoControl returned.
   */
  method SetMediaStatus(connected: bool, answer: OsResult<()>) returns (call: IoctlCall, err: Option<Error>)
    ensures call.code == IoctlSetMediaStatus && call.outputSize == 4
    ensures |call.input| == 4
    ensures call.input[0] == 1 <==> connected
    ensures call.input[0] == 0 <==> !connected
    ensures call.input[1..] == [0, 0, 0]
    ensures err.None? <==> answer.OsOk?
    ensures answer.OsErr? ==> err == Some(IoctlFailed(SetMediaStatusRequest, answer.code))
  {
    var mediaStatus := new byte[4](_ => 0);
    if connected {
      mediaStatus[0] := 1;
    }
    call := IoctlCall(IoctlSetMediaStatus, mediaStatus[..], 4);
    if answer.OsOk? {
      err := None;
    } else {
      err := Some(IoctlFailed(SetMediaStatusRequest, answer.code));
    }
  }

  /**
   * getMacAddr: sends ioctlGetMacAddress over a zeroed six-byte buffer, into
   * which the driver writes the address. `answer` carries the bytes the driver
   * wrote, at most the six it was given, or its error.
   */
  method GetMacAddr(answer: OsResult<seq<byte>>) returns (call: IoctlCall, r: Result<MacAddr>)
    requires answer.OsOk? ==> |answer.value| <= MacLength
    ensures call == IoctlCall(IoctlGetMacAddress, Zeros(MacLength), MacLength)
    ensures r.Ok? <==> answer.OsOk?
    ensures r.Ok? ==> r.value[..|answer.value|] == answer.value
    ensures r.Ok? ==> forall k :: |answer.value| <= k < MacLength ==> r.value[k] == 0
    ensures answer.OsErr? ==> r == Err(IoctlFailed(GetMacAddressRequest, answer.code))
  {
    var macAddr := new byte[MacLength](_ => 0);
    call := IoctlCall(IoctlGetMacAddress, macAddr[..], MacLength);
    if answer.OsErr? {
      return call, Err(IoctlFailed(GetMacAddressRequest, answer.code));
    }
    var written := answer.value;
    forall k | 0 <= k < |written| {
      macAddr[k] := written[k];
    }
    r := Ok(macAddr[..]);
  }

  // ---------------------------------------------------------------------------
  // Registry discovery of the adapter
  // ---------------------------------------------------------------------------

  /** componentID: the component id of the TAP-Windows driver, version 9. */
  const TapComponentId: string := "tap0901"

  /**
   * One subkey of the network adapter class key, as it answers the search:
   * whether it can be opened for reading, and its ComponentId value if that
   * can be read. The name only labels the entry: the search identifies a
   * subkey by its position in the enumeration.
   */
  datatype SubKey = SubKey(name: string, opens: bool, componentId: Option<string>)

  /**
   * The network adapter class key: it cannot be opened, its subkey names
   * cannot be listed, or it lists these subkeys in enumeration order.
   */
  datatype ClassKey =
    | OpenFailed(openError: nat)
    | ListFailed(listError: nat)
    | Listed(subKeys: seq<SubKey>)

  /** An open registry key: the class key, or its subkey at an enumeration index. */
  datatype Key = ClassRoot | Sub(index: nat)

  /** The registry calls that open and close keys, in the order they are made. */
  datatype KeyEvent = Opened(key: Key) | Closed(key: Key)

  /** The search accepts a subkey that opens and whose ComponentId reads as `componentId`. */
  predicate IsTapKey(k: SubKey, componentId: string) {
    k.opens && k.componentId == Some(componentId)
  }

  /** The first index at or after `from` of a subkey the search accepts. */
  function FirstTapKey(keys: seq<SubKey>, componentId: string, from: nat): (r: Option<nat>)
    requires from <= |keys|
    ensures r.Some? ==> from <= r.value < |keys| && IsTapKey(keys[r.value], componentId)
    ensures r.Some? ==> forall j :: from <= j < r.value ==> !IsTapKey(keys[j], componentId)
    ensures r.None? ==> forall j :: from <= j < |keys| ==> !IsTapKey(keys[j], componentId)
    decreases |keys| - from
  {
    if from == |keys| then None
    else if IsTapKey(keys[from], componentId) then Some(from)
    else FirstTapKey(keys, componentId, from + 1)
  }

  /**
   * What getTAPAdapterRegistryKey returns: the first accepted subkey in
   * enumeration order; ErrAdapterNotFound when there is none; the system's
   * error when the class key cannot be opened or listed.
   */
  function SelectTapKey(cls: ClassKey, componentId: string): (r: Result<Key>)
    ensures cls.OpenFailed? ==> r == Err(Os(cls.openError))
    ensures cls.ListFailed? ==> r == Err(Os(cls.listError))
    ensures cls.Listed? ==> r.Ok? || r == Err(AdapterNotFound)
    ensures r.Ok? ==>
      cls.Listed? && r.value.Sub? && r.value.index < |cls.subKeys| &&
      IsTapKey(cls.subKeys[r.value.index], componentId) &&
      forall j :: 0 <= j < r.value.index ==> !IsTapKey(cls.subKeys[j], componentId)
    ensures r == Err(AdapterNotFound) <==>
      cls.Listed? && forall j :: 0 <= j < |cls.subKeys| ==> !IsTapKey(cls.subKeys[j], componentId)
  {
    match cls
    case OpenFailed(e) => Err(Os(e))
    case ListFailed(e) => Err(Os(e))
    case Listed(keys) =>
      match FirstTapKey(keys, componentId, 0)
      case Some(i) => Ok(Sub(i))
      case None => Err(AdapterNotFound)
  }

  /** How many subkeys the search looks at: up to and including the one it accepts. */
  function Examined(keys: seq<SubKey>, componentId: string): (n: nat)
    ensures n <= |keys|
  {
    match FirstTapKey(keys, componentId, 0)
    case Some(i) => i + 1
    case None => |keys|
  }

  /** The keys opened in a trace. */
  function OpenedKeys(t: seq<KeyEvent>): set<Key> {
    if t == [] then {}
    else OpenedKeys(t[..|t| - 1]) + (if t[|t| - 1].Opened? then {t[|t| - 1].key} else {})
  }

  /** The keys closed in a trace. */
  function ClosedKeys(t: seq<KeyEvent>): set<Key> {
    if t == [] then {}
    else ClosedKeys(t[..|t| - 1]) + (if t[|t| - 1].Closed? then {t[|t| - 1].key} else {})
  }

  /**
   * No key is opened twice, and a key is closed only while it is open: after
   * it was opened, and not a second time.
   */
  predicate WellFormedTrace(t: seq<KeyEvent>) {
    t == [] ||
    (WellFormedTrace(t[..|t| - 1]) &&
     (t[|t| - 1].Opened? ==> t[|t| - 1].key !in OpenedKeys(t[..|t| - 1])) &&
     (t[|t| - 1].Closed? ==>
        t[|t| - 1].key in OpenedKeys(t[..|t| - 1]) && t[|t| - 1].key !in ClosedKeys(t[..|t| - 1])))
  }

  /** Every subkey opened in the trace, except a kept one, is closed by the very next call. */
  predicate ClosedRightAfterOpen(t: seq<KeyEvent>, kept: set<Key>) {
    forall j :: 0 <= j < |t| && t[j].Opened? && t[j].key.Sub? && t[j].key !in kept ==>
      j + 1 < |t| && t[j + 1] == Closed(t[j].key)
  }

  /** The key handed to the caller, who must close it. */
  function Kept(r: Result<Key>): set<Key> {
    if r.Ok? then {r.value} else {}
  }

  /** The subkeys among the first `n` that open. */
  function OpenableBelow(keys: seq<SubKey>, n: nat): set<Key>
    requires n <= |keys|
  {
    set j | 0 <= j < n && keys[j].opens :: Sub(j)
  }

  lemma AppendOpened(t: seq<KeyEvent>, k: Key)
    requires WellFormedTrace(t)
    requires k !in OpenedKeys(t)
    ensures WellFormedTrace(t + [Opened(k)])
    ensures OpenedKeys(t + [Opened(k)]) == OpenedKeys(t) + {k}
    ensures ClosedKeys(t + [Opened(k)]) == ClosedKeys(t)
  {
  }

  lemma AppendClosed(t: seq<KeyEvent>, k: Key)
    requires WellFormedTrace(t)
    requires k in OpenedKeys(t) && k !in ClosedKeys(t)
    ensures WellFormedTrace(t + [Closed(k)])
    ensures OpenedKeys(t + [Closed(k)]) == OpenedKeys(t)
    ensures ClosedKeys(t + [Closed(k)]) == ClosedKeys(t) + {k}
  {
  }

  /**
   * Opening a key and then making a close call keeps the property, when that
   * close is of the opened key or the opened key is kept.
   */
  lemma AppendOpenedThenClose(t: seq<KeyEvent>, k: Key, next: KeyEvent, kept: set<Key>)
    requires ClosedRightAfterOpen(t, {})
    requires next.Closed?
    requires k.Sub? && k !in kept ==> next == Closed(k)
    ensures ClosedRightAfterOpen(t + [Opened(k), next], kept)
  {
    var t' := t + [Opened(k), next];
    forall j | 0 <= j < |t'| && t'[j].Opened? && t'[j].key.Sub? && t'[j].key !in kept
      ensures j + 1 < |t'| && t'[j + 1] == Closed(t'[j].key)
    {
      if j < |t| {
        assert t[j] == t'[j];
      }
    }
  }

  /** An event that opens no subkey, or opens the kept one, keeps the property. */
  lemma AppendOther(t: seq<KeyEvent>, e: KeyEvent, kept: set<Key>)
    requires ClosedRightAfterOpen(t, {})
    requires e.Opened? && e.key.Sub? ==> e.key in kept
    ensures ClosedRightAfterOpen(t + [e], kept)
  {
    var t' := t + [e];
    forall j | 0 <= j < |t'| && t'[j].Opened? && t'[j].key.Sub? && t'[j].key !in kept
      ensures j + 1 < |t'| && t'[j + 1] == Closed(t'[j].key)
    {
      assert j < |t|;
      assert t[j] == t'[j];
    }
  }

  /**
   * getTAPAdapterRegistryKey: opens the class key (closed on return), lists
   * its subkeys, and returns the first that opens and has the given
   * ComponentId. A subkey that does not open is skipped; one whose ComponentId
   * cannot be read or differs is closed and skipped. `trace` lists the keys
   * opened and closed, in order.
   */
  method GetTapAdapterRegistryKey(cls: ClassKey, componentId: string) returns (r: Result<Key>, trace: seq<KeyEvent>)
    ensures r == SelectTapKey(cls, componentId)
    ensures WellFormedTrace(trace)
    ensures ClosedKeys(trace) == OpenedKeys(trace) - Kept(r)
    ensures ClassRoot in OpenedKeys(trace) <==> !cls.OpenFailed?
    ensures !cls.OpenFailed? ==> trace[|trace| - 1] == Closed(ClassRoot)
    ensures ClosedRightAfterOpen(trace, Kept(r))
    ensures forall j: nat :: Sub(j) in OpenedKeys(trace) <==>
      cls.Listed? && j < Examined(cls.subKeys, componentId) && cls.subKeys[j].opens
  {
    trace := [];
    if cls.OpenFailed? {
      return Err(Os(cls.openError)), trace;
    }
    AppendOpened(trace, ClassRoot);
    AppendOther(trace, Opened(ClassRoot), {});
    trace := trace + [Opened(ClassRoot)];
    if cls.ListFailed? {
      AppendClosed(trace, ClassRoot);
      AppendOther(trace, Closed(ClassRoot), {});
      trace := trace + [Closed(ClassRoot)];
      return Err(Os(cls.listError)), trace;
    }
    var keys := cls.subKeys;
    var i := 0;
    while i < |keys|
      invariant 0 <= i <= |keys|
      invariant FirstTapKey(keys, componentId, 0) == FirstTapKey(keys, componentId, i)
      invariant WellFormedTrace(trace)
      invariant OpenedKeys(trace) == {ClassRoot} + OpenableBelow(keys, i)
      invariant ClosedKeys(trace) == OpenableBelow(keys, i)
      invariant ClosedRightAfterOpen(trace, {})
      invariant |trace| > 0
    {
      var k := keys[i];
      if k.opens {
        assert Sub(i) !in OpenableBelow(keys, i);
        ghost var before := trace;
        AppendOpened(trace, Sub(i));
        trace := trace + [Opened(Sub(i))];
        if k.componentId == Some(componentId) {
          AppendClosed(trace, ClassRoot);
          AppendOpenedThenClose(before, Sub(i), Closed(ClassRoot), {Sub(i)});
          trace := trace + [Closed(ClassRoot)];
          assert trace == before + [Opened(Sub(i)), Closed(ClassRoot)];
          assert OpenableBelow(keys, i + 1) == OpenableBelow(keys, i) + {Sub(i)};
          return Ok(Sub(i)), trace;
        }
        AppendClosed(trace, Sub(i));
        AppendOpenedThenClose(before, Sub(i), Closed(Sub(i)), {});
        trace := trace + [Closed(Sub(i))];
        assert trace == before + [Opened(Sub(i)), Closed(Sub(i))];
      }
      assert OpenableBelow(keys, i + 1) == OpenableBelow(keys, i) + (if k.opens then {Sub(i)} else {});
      i := i + 1;
    }
    AppendClosed(trace, ClassRoot);
    AppendOther(trace, Closed(ClassRoot), {});
    trace := trace + [Closed(ClassRoot)];
    r := Err(AdapterNotFound);
  }

  // ---------------------------------------------------------------------------
  // Device path
  // ---------------------------------------------------------------------------

  const DevicePathPrefix: string := @"\\.\Global\"
  const DevicePathSuffix: string := ".tap"

  /**
   * The path of the driver's device for an instance id, `\\.\Global\<id>.tap`,
   * as converted for CreateFile: the conversion to UTF-16 refuses a string
   * with an embedded NUL.
   */
  function DevicePath(deviceId: string): (r: Result<string>)
    ensures r.Err? <==> '\0' in deviceId
    ensures r.Err? ==> r.error == InvalidArgument
    ensures r.Ok? ==> DeviceIdOf(r.value) == Some(deviceId)
  {
    var path := DevicePathPrefix + deviceId + DevicePathSuffix;
    if '\0' in path then Err(InvalidArgument) else Ok(path)
  }

  /** The instance id a device path names, if it has the driver's form. */
  function DeviceIdOf(path: string): (id: Option<string>)
    ensures id.Some? ==> path == DevicePathPrefix + id.value + DevicePathSuffix
  {
    var n, m := |DevicePathPrefix|, |DevicePathSuffix|;
    if |path| >= n + m && path[..n] == DevicePathPrefix && path[|path| - m..] == DevicePathSuffix
    then Some(path[n..|path| - m])
    else None
  }

  /** Different instance ids give different device paths. */
  lemma DevicePathInjective(id1: string, id2: string)
    requires DevicePath(id1).Ok? && DevicePath(id1) == DevicePath(id2)
    ensures id1 == id2
  {
  }

  // ---------------------------------------------------------------------------
  // Interface name by hardware address
  // ---------------------------------------------------------------------------

  /** One entry of the system's interface list. */
  datatype Interface = Interface(name: string, hardwareAddr: seq<byte>)

  /**
   * getAdapterName: the name of the first interface whose hardware address is
   * byte for byte the given address, ErrInterfaceNameNotFound when none is,
   * and the system's error when the interface list cannot be read.
   */
  method GetAdapterName(addr: MacAddr, ifaces: OsResult<seq<Interface>>) returns (r: Result<string>)
    ensures ifaces.OsErr? ==> r == Err(Os(ifaces.code))
    ensures ifaces.OsOk? ==> r.Ok? || r == Err(InterfaceNameNotFound)
    ensures r.Ok? ==> ifaces.OsOk? && exists i :: (0 <= i < |ifaces.value| &&
      ifaces.value[i].hardwareAddr == addr && r.value == ifaces.value[i].name &&
      forall j :: 0 <= j < i ==> ifaces.value[j].hardwareAddr != addr)
    ensures r == Err(InterfaceNameNotFound) <==>
      ifaces.OsOk? && forall i :: 0 <= i < |ifaces.value| ==> ifaces.value[i].hardwareAddr != addr
  {
    if ifaces.OsErr? {
      return Err(Os(ifaces.code));
    }
    var list := ifaces.value;
    var i := 0;
    while i < |list|
      invariant 0 <= i <= |list|
      invariant forall j :: 0 <= j < i ==> list[j].hardwareAddr != addr
    {
      if list[i].hardwareAddr == addr {
        return Ok(list[i].name);
      }
      i := i + 1;
    }
    r := Err(InterfaceNameNotFound);
  }

  // ---------------------------------------------------------------------------
  // Reading one frame
  // ---------------------------------------------------------------------------

  /** ERROR_IO_PENDING: an overlapped operation was started and has not completed. */
  const ErrorIoPending: nat := 997

  /**
   * The system's answers to one overlapped read: ReadFile's status, then
   * GetOverlappedResult's, which on success carries the bytes the driver
   * wrote into the buffer.
   */
  datatype ReadAnswer = ReadAnswer(submit: OsResult<()>, completion: OsResult<seq<byte>>)

  /** The driver never writes more than the buffer it is given. */
  predicate FitsBuffer(a: ReadAnswer) {
    a.completion.OsOk? ==> |a.completion.value| <= FrameBufferSize
  }

  /**
   * The outcome of readPacket: a submit error other than ERROR_IO_PENDING, a
   * completion error, or the frame. The 1800-byte bound on the frame is the
   * driver's side of the contract (FitsBuffer) carried through, not derived.
   */
  function PacketOutcome(a: ReadAnswer): (r: Result<seq<byte>>)
    requires FitsBuffer(a)
    ensures r.Ok? ==> |r.value| <= FrameBufferSize
    ensures r.Ok? <==> (a.submit.OsOk? || a.submit.code == ErrorIoPending) && a.completion.OsOk?
  {
    if a.submit.OsErr? && a.submit.code != ErrorIoPending then Err(Os(a.submit.code))
    else if a.completion.OsErr? then Err(Os(a.completion.code))
    else Ok(a.completion.value)
  }

  /**
   * readPacket: reads into a fresh 1800-byte buffer and returns the prefix the
   * driver filled.
   */
  method ReadPacket(a: ReadAnswer) returns (r: Result<seq<byte>>)
    requires FitsBuffer(a)
    ensures r == PacketOutcome(a)
  {
    var buf := new byte[FrameBufferSize](_ => 0);
    if a.submit.OsErr? && a.submit.code != ErrorIoPending {
      return Err(Os(a.submit.code));
    }
    if a.completion.OsErr? {
      return Err(Os(a.completion.code));
    }
    var data := a.completion.value;
    forall k | 0 <= k < |data| {
      buf[k] := data[k];
    }
    var done := |data|;
    assert buf[..done] == data;
    r := Ok(buf[..done]);
  }

  /** The frames the read worker delivers: every frame up to the first failed read. */
  function DeliveredUntilError(answers: seq<ReadAnswer>): seq<seq<byte>>
    requires forall k :: 0 <= k < |answers| ==> FitsBuffer(answers[k])
  {
    if answers == [] then []
    else match PacketOutcome(answers[0])
      case Err(_) => []
      case Ok(p) => [p] + DeliveredUntilError(answers[1..])
  }

  /**
   * The delivered frames are the frames of the reads before the first failure,
   * in order, each at most 1800 bytes long.
   */
  lemma {:induction false} DeliveredUntilErrorIsPrefix(answers: seq<ReadAnswer>)
    requires forall k :: 0 <= k < |answers| ==> FitsBuffer(answers[k])
    ensures |DeliveredUntilError(answers)| <= |answers|
    ensures forall k :: 0 <= k < |DeliveredUntilError(answers)| ==>
      PacketOutcome(answers[k]) == Ok(DeliveredUntilError(answers)[k])
    ensures |DeliveredUntilError(answers)| < |answers| ==>
      PacketOutcome(answers[|DeliveredUntilError(answers)|]).Err?
    ensures forall k :: 0 <= k < |DeliveredUntilError(answers)| ==>
      |DeliveredUntilError(answers)[k]| <= FrameBufferSize
  {
    if answers != [] && PacketOutcome(answers[0]).Ok? {
      DeliveredUntilErrorIsPrefix(answers[1..]);
    }
  }

  /**
   * readWorker, over the system's answers to successive reads: each frame is
   * pushed to the receive queue; the first failed read ends the worker.
   */
  method ReadWorker(answers: seq<ReadAnswer>) returns (received: seq<seq<byte>>)
    requires forall k :: 0 <= k < |answers| ==> FitsBuffer(answers[k])
    ensures received == DeliveredUntilError(answers)
  {
    received := [];
    var i := 0;
    while i < |answers|
      invariant 0 <= i <= |answers|
      invariant received + DeliveredUntilError(answers[i..]) == DeliveredUntilError(answers)
    {
      var pkt := ReadPacket(answers[i]);
      if pkt.Err? {
        break;
      }
      assert answers[i..][1..] == answers[i + 1..];
      received := received + [pkt.value];
      i := i + 1;
    }
  }

  // ---------------------------------------------------------------------------
  // The adapter's hardware address
  // ---------------------------------------------------------------------------

  /** The parts of tapAdapter this model keeps: its name, MTU and hardware address. */
  class TapAdapter {
    var name: string
    var mtu: int
    var macAddr: array<byte>

    ghost predicate Valid()
      reads this
    {
      macAddr.Length == MacLength
    }

    /** newTAP copies the address the driver reported into the adapter. */
    constructor (name: string, mac: MacAddr)
      ensures Valid() && fresh(macAddr)
      ensures this.name == name && mtu == 0 && macAddr[..] == mac
    {
      this.name := name;
      mtu := 0;
      macAddr := new byte[MacLength](k requires 0 <= k < MacLength => mac[k]);
    }

    /** GetMACAddress: a fresh copy of the stored address. */
    method GetMacAddress() returns (m: array<byte>)
      requires Valid()
      ensures fresh(m) && m[..] == macAddr[..]
    {
      m := new byte[MacLength](_ => 0);
      forall k | 0 <= k < MacLength {
        m[k] := macAddr[k];
      }
    }
  }
}

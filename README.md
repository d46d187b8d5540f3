# govpn tap adapter — a Dafny model of its deterministic core

The `adapter` package of govpn presents a virtual Ethernet adapter (a tap
device) to the VPN as two queues of frames. It has two back ends: on Linux a
character device (`/dev/net/tun`) bound to an interface with the TUNSETIFF
ioctl; on Windows the TAP-Windows driver, found through the registry and
driven with DeviceIoControl and overlapped reads and writes.

This project models the byte-level and selection rules of both back ends and
proves what they guarantee. Every answer of the operating system is an input
value: the registry's class key and its subkeys, the interface list,
DeviceIoControl's status and output bytes, and the answers to successive reads.

- `common.dfy` (module `Common`): bytes, the six-byte hardware address, the
  1800-byte frame buffer size, `Option`, and `OsResult` for a system call's answer.
- `windows.dfy` (module `AdapterWindows`): the CTL_CODE packing of the I/O
  control codes; the media-status and get-MAC requests; the registry search
  for the TAP-Windows adapter (`tap0901`), with the trace of the keys it opens
  and closes; the device path; the interface-name lookup by hardware address;
  one overlapped read; the read worker's stop-at-first-error policy; and the
  adapter's stored hardware address.
- `linux.dfy` (module `AdapterLinux`): the 32-byte `struct ifreq` for
  TUNSETIFF, with the name in bytes 0..15 and `IFF_TAP | IFF_NO_PI` (0x1002)
  little-endian at offset 16, as in the Linux kernel's tun/tap interface;
  the parsing of a NUL-terminated name; one read into an 1800-byte buffer;
  the read worker's retry-on-error policy; and the interface's hardware address.

Where the code does step-by-step work, the model does too. `parseName`, the
registry search and the interface-name lookup are loops with invariants.
The request buffer, the media-status buffer and the MAC copies are arrays
written in place. Each such method is proved against a specification
function or states its result outright.

Behaviour of the code worth noting:

- Linux passes the requested name only when it has 1 to 14 bytes. The guard
  counts the terminating NUL that `StringByteSlice` appends, so it rejects a
  15-byte name even though IFNAMSIZ would allow one. For any other name the
  kernel chooses the interface name (`IfReqNameRoundTrip`).

## Model

| member | source | states |
|---|---|---|
| `AdapterWindows.CtlCode` | adapter/adapter_windows.go:247-249 | when device type, function, method and access fit 16, 12, 2 and 2 bits, each one is recovered from the packed code by shifting and masking |
| `AdapterWindows.CtlCodeIsSum` | adapter/adapter_windows.go:247-249 | within those ranges the fields occupy disjoint bits, so the OR of the shifted fields equals their weighted sum |
| `AdapterWindows.CtlCodeInjective` | adapter/adapter_windows.go:247-249 | within those ranges, two codes are equal only if all four fields are equal |
| `AdapterWindows.IoctlCodeValues` | adapter/adapter_windows.go:18-28 | ioctlGetMacAddress is 0x220004 and ioctlSetMediaStatus is 0x220018 |
| `AdapterWindows.SetMediaStatus` | adapter/adapter_windows.go:251-271 | the request uses ioctlSetMediaStatus with a 4-byte buffer; byte 0 is 1 exactly when connecting and 0 exactly when disconnecting; bytes 1..3 are 0; a driver error comes back wrapped, success gives no error |
| `AdapterWindows.GetMacAddr` | adapter/adapter_windows.go:272-289 | the request uses ioctlGetMacAddress with a zeroed 6-byte buffer; on success the address holds the driver's bytes followed by zeros; a driver error comes back wrapped |
| `AdapterWindows.FirstTapKey` | adapter/adapter_windows.go:321-337 | gives the first subkey from a given index that opens and has the given ComponentId, with none before it; if it gives none, no subkey from that index matches |
| `AdapterWindows.SelectTapKey` | adapter/adapter_windows.go:308-339 | if the class key cannot be opened or listed, the system error is returned; once it is listed the result is a key or AdapterNotFound, nothing else; the chosen key is the first subkey in enumeration order that opens and has the ComponentId; the result is AdapterNotFound exactly when no subkey does |
| `AdapterWindows.GetTapAdapterRegistryKey` | adapter/adapter_windows.go:308-339 | returns exactly SelectTapKey's answer; no key is opened twice; every key is closed only while it is open, and never twice; every subkey opened and not returned is closed by the very next call; every key opened is closed except the one returned; the class key is opened unless that fails, and its close is the last call; exactly the subkeys that open, up to and including the match, are opened |
| `AdapterWindows.DevicePath` | adapter/adapter_windows.go:90-94 | fails with EINVAL exactly when the instance id contains a NUL; otherwise the path has the form `\\.\Global\` + id + `.tap`, and DeviceIdOf reads the id back |
| `AdapterWindows.DeviceIdOf` | adapter/adapter_windows.go:90 | a path it accepts is the prefix, then the id it returns, then the suffix |
| `AdapterWindows.DevicePathInjective` | adapter/adapter_windows.go:90 | different instance ids give different device paths |
| `AdapterWindows.GetAdapterName` | adapter/adapter_windows.go:234-245 | once the interface list is read, the result is a name or ErrInterfaceNameNotFound, nothing else; a name returned is that of the first interface whose hardware address equals the 6-byte address, with none before it; returns ErrInterfaceNameNotFound exactly when no interface's address is equal; passes a listing error through |
| `AdapterWindows.PacketOutcome` | adapter/adapter_windows.go:156-168 | a read succeeds exactly when the submit succeeded or is pending and the completion succeeded; a frame is at most 1800 bytes, which is the driver's buffer contract carried through |
| `AdapterWindows.ReadPacket` | adapter/adapter_windows.go:156-168 | reading into a fresh 1800-byte buffer and slicing to the count the driver reports gives PacketOutcome |
| `AdapterWindows.DeliveredUntilErrorIsPrefix` | adapter/adapter_windows.go:179-188 | the delivered frames are those of the reads before the first failed read, in order; the read after them, if any, failed; every frame is at most 1800 bytes, the driver's buffer contract carried through |
| `AdapterWindows.ReadWorker` | adapter/adapter_windows.go:179-188 | the frames pushed to the receive queue are DeliveredUntilError of the read answers: a read error ends the worker |
| `AdapterWindows.TapAdapter.constructor` | adapter/adapter_windows.go:114-119 | the adapter stores a copy of the address the driver reported in a new array; its MTU is never set, so it keeps the zero value |
| `AdapterWindows.TapAdapter.GetMacAddress` | adapter/adapter_windows.go:213-217 | returns a freshly allocated array equal to the stored address |
| `AdapterLinux.TapFlagsValue` | adapter/adapter_linux.go:17-35 | IFF_TAP OR IFF_NO_PI is 0x1002 |
| `AdapterLinux.LittleEndian16` | adapter/adapter_linux.go:41 | the encoding has two bytes, and decoding them gives the value back |
| `AdapterLinux.LittleEndian16OfUint16` | adapter/adapter_linux.go:41 | encoding a decoded pair of bytes gives the same bytes |
| `AdapterLinux.NameField` | adapter/adapter_linux.go:36-40 | the name field is always IFNAMSIZ (16) bytes |
| `AdapterLinux.IfReq` | adapter/adapter_linux.go:35-41 | the request is always 32 bytes; IfReqLayout states its contents |
| `AdapterLinux.IfReqLayout` | adapter/adapter_linux.go:35-41 | a name of 1 to 14 bytes occupies the first bytes, followed by zeros up to byte 15; any other name leaves bytes 0..15 zero; byte 16 is 0x02 and byte 17 is 0x10; bytes 18..31 are zero |
| `AdapterLinux.CopyBytes` | adapter/adapter_linux.go:39 | Go's copy into a sub-slice: copies min(room, source length) bytes at the start of the range, returns that count and leaves every other byte unchanged |
| `AdapterLinux.PutUint16` | adapter/adapter_linux.go:41 | writes the little-endian encoding at the offset and leaves every other byte unchanged |
| `AdapterLinux.TunSetIffRequest` | adapter/adapter_linux.go:35-41 | filling the zeroed 32-byte array in place (name copy, then flags) produces exactly IfReq of the name |
| `AdapterLinux.NameLength` | adapter/adapter_linux.go:87-95 | gives the index of the first 0 byte, or the length when there is none: no earlier byte is 0 and the byte at that index is 0 |
| `AdapterLinux.ParsedName` | adapter/adapter_linux.go:87-95 | the parsed name is a prefix of its input and contains no 0 byte |
| `AdapterLinux.ParseName` | adapter/adapter_linux.go:87-95 | the scanning loop returns ParsedName: a NUL-free prefix ending at the first 0 byte or at the end of the input |
| `AdapterLinux.NameLengthUnique` | adapter/adapter_linux.go:88-94 | an index that ends a NUL-free prefix at a 0 byte, or at the end, is the name's length |
| `AdapterLinux.IfReqNameRoundTrip` | adapter/adapter_linux.go:36-49 | parsing the request's name field gives back a NUL-free name of 1 to 14 bytes unchanged, and gives the empty name for any other name |
| `AdapterLinux.ReadFrame` | adapter/adapter_linux.go:74-85 | a failed read pushes nothing; a successful one pushes exactly the bytes read, at most 1800 |
| `AdapterLinux.FramesReadAppend` | adapter/adapter_linux.go:74-85 | a failed read does not end the worker: the frames of two runs of reads are the frames of each run, concatenated |
| `AdapterLinux.FramesReadBounded` | adapter/adapter_linux.go:76-83 | the worker pushes at most one frame per read; every frame is at most 1800 bytes, which is the kernel's read contract carried through |
| `AdapterLinux.FromTapWorker` | adapter/adapter_linux.go:74-85 | the frames pushed to the receive queue are FramesRead of the read answers: those of every successful read, in order |
| `AdapterLinux.TapInterface.constructor` | adapter/adapter_linux.go:48-60 | the name is parsed from the request's name field as the kernel left it; the address is the reported hardware address copied into six zero bytes (truncated or zero-padded); fd and MTU are stored |
| `AdapterLinux.TapInterface.GetMacAddress` | adapter/adapter_linux.go:117-121 | returns a freshly allocated array equal to the stored address |

## Left out

- The goroutine workers' concurrency, Go channels and blocking are left out. The receive workers are modelled over a finite sequence of read answers, and the receive queue is the sequence of pushed frames. Queue capacity, backpressure and blocking are not modelled.
- The write workers (`writeWorker`, `toTapWorker`) and `writePacket` are left out. They write each queued frame in order and only log write errors; that is channel and system-call behaviour with no data transformation.
- System calls and foreign calls are left out: `CreateFile`, `ReadFile`/`WriteFile`, the raw `GetOverlappedResult` syscall wrapper, `DeviceIoControl`, `CreateEvent`/`createOverlapped`, DLL loading in `init`, `unix.Open`, the TUNSETIFF ioctl, `unix.Read`/`unix.Write`, `net.Interfaces`, `net.InterfaceByName`, and registry open/read/set. Only their answers appear, as input values.
- `getDeviceID` (reading NetCfgInstanceId) and `getMTU`/`setMTU` are single registry reads and writes. The MTU code in `newTAP` is commented out, and `originalMTU` is never set.
- The orchestration and error-path cleanup of `newTAP` on both platforms are left out. They depend on OS resource lifetimes. The Windows code also leaves the registry key open when `getDeviceID` or `createOverlapped` fails.
- `Close` on both platforms is left out. On Linux it closes the descriptor. On Windows it closes the send channel, sends the disconnected media status, closes the driver handle, and would write the saved MTU back to the registry before closing the key. Closing the send channel panics on a second call, so it is not idempotent.
- `GetName`, `GetMTU`, `TransmitChannel` and `ReceiveChannel` are left out. Each returns a stored field.
- Error message texts are left out. Wrapped errors keep only which request failed and the system's error number, and logging is not modelled.
- `AdapterWindows.ReadPacket` takes the byte count from the completed read to be the number of bytes the driver wrote, at most 1800. The overlapped structure and its event are not modelled.
- `AdapterWindows.GetMacAddr` takes the driver to write at most the six bytes of the buffer it is given, which is DeviceIoControl's contract for the output size.
- `AdapterLinux.TunSetIffRequest` (and `NameField`, `IfReq`) require a name without a NUL byte: `StringByteSlice` panics on such a name before the length guard runs, and the panic is not modelled.
- `AdapterLinux.ReadFrame` takes the kernel's read count to be at most the buffer's 1800 bytes, which is the system call's contract.

# lametun core, modelled in Dafny

lametun is a minimal point-to-point tunnel. It opens a Linux TUN device and a
UDP socket, then runs two loops. One is meant to relay each IP packet read from
the device to the UDP peer; the other writes each datagram received from the
peer to the device. Whether a write succeeds is left to the environment (see
"## Left out" for the write at main.go:133). This project models the
three pieces of `main.go` that hold sequential logic:

- **Role-flag validation** (`RoleConfig`). The `-listen` and `-server` flags must
  not both be set, and must not both be unset. Only a configuration with exactly
  one role goes on to open the TUN device.
- **The `struct ifreq` record** that `openTunDevice` passes to the TUNSETIFF
  ioctl (`IfReq`, with byte helpers in `Bytes`). The record is a zeroed 40-byte
  array. The device name is copied in with Go's `copy`, then the `uint16` flag
  `IFF_TUN` is stored at offset `IFNAMSIZ` = 16. The layout is Linux's
  `struct ifreq` from include/uapi/linux/if.h.
- **One relay direction as a trace function** (`PacketRelay`). A loop run is a
  function of what its endpoints do: a sequence of `Outcome`s, one per
  iteration. Each outcome is a failed read, or a read that delivered some bytes
  followed by a write that succeeded or failed. `Relay` gives the payloads handed
  to write, how the loop ended and how many reads it made. The two loops of
  `main` are methods proved equal to `Relay`:
  - `RelayUdpToTun` reuses one 2048-byte buffer for every read;
  - `RelayTunToUdp` allocates a fresh buffer for every read.

Assumptions:
- The `uint16` store through an `unsafe.Pointer` is modelled as little-endian.
- `IFNAMSIZ` = 16 and `IFF_TUN` = 0x0001 are the values from
  `golang.org/x/sys/unix`. That package is not part of this model.
- The device name is modelled as its bytes (`seq<bv8>`). Converting a Go string
  to bytes is the identity on those bytes.
- A read places at most `len(buffer)` bytes at the start of the buffer. This is
  Go's reader contract `0 <= n <= len(p)`. An `Outcome` records the bytes the
  endpoint offered, and `Payload` is what fits in the 2048-byte buffer.
- Running out of outcomes means the loop is still running (ending `Running`).
- A loop that has stopped sends one value on the `quit` channel. This is
  represented by its `Ending` being `StoppedOnRead` or `StoppedOnWrite`.

## Model

| member | source | states |
|---|---|---|
| RoleConfig.ValidateRole | main.go:59-67 | Refused with `ListenAndServer` iff `listen` is set and `server` is non-empty; refused with `NoRole` iff neither is set; accepted iff exactly one role is set; on acceptance the role is `Listener` iff `listen`, else `Dialer(server)` |
| RoleConfig.StartupOpensDeviceIffOneRole | main.go:59-69 | `main` reaches `openTunDevice` iff exactly one role flag is set, and opens the configured device name; both invalid combinations stop before any device is opened |
| RoleConfig.DefaultsAreRejected | main.go:51-67 | With the flag defaults (`listen` false, `server` empty), startup is refused with `NoRole` |
| Bytes.Copy | main.go:32 | Go `copy`: the destination keeps its length; bytes below `min(len(dst), len(src))` come from the source; later bytes are unchanged |
| Bytes.CopyPrefix | main.go:32 | The bytes `copy` transfers are exactly the first `n` source bytes, where `n` is the count `copy` returns |
| Bytes.EncodeU16LE | main.go:33 | The two-byte little-endian layout of a `uint16` decodes back to the same value |
| Bytes.DecodeEncodeU16LE | main.go:33 | Encoding a decoded byte pair gives back the same two bytes, so the layout is a bijection |
| Bytes.PutU16LE | main.go:33 | The 16-bit store changes only bytes `off` and `off+1`, which then decode to the stored value; the length is kept |
| IfReq.BuildIfReq | main.go:31-33 | The record is always 40 bytes; byte `i` equals `dev[i]` for `i < min(len(dev), 40)` outside {16, 17}; bytes at or past `len(dev)` outside {16, 17} are zero; bytes 16-17 always decode to `IFF_TUN`, whatever the name |
| IfReq.ShortNameRoundTrip | main.go:31-33 | A NUL-free name shorter than 16 bytes is read back unchanged from the name field as a C string, and the flag field reads `IFF_TUN` |
| IfReq.NameTerminatedIffShort | main.go:31-32 | For a NUL-free name, the 16-byte name field contains a NUL terminator iff the name is shorter than 16 bytes; longer names are handed over unterminated |
| IfReq.OnlyFirstFortyBytesMatter | main.go:31-32 | Name bytes past offset 40 do not affect the record |
| PacketRelay.Payload | main.go:122-133 | What is forwarded from one read is at most 2048 bytes, and is the offered bytes unchanged whenever they fit the buffer |
| PacketRelay.ReadInto | main.go:124 | A read keeps the buffer length, returns `n = min(offered, len(buffer))`, and `buffer[:n]` holds exactly the first `n` offered bytes, whatever the buffer held before |
| PacketRelay.ReadSlice | main.go:124-133 | Reading into a 2048-byte buffer and slicing `buffer[:n]` keeps the buffer at 2048 bytes and yields exactly `Payload(offered)`, whatever the buffer held before |
| PacketRelay.Relay | main.go:119-141 | A run never reads more outcomes than it is given, and makes at most one write attempt per read |
| PacketRelay.RelayEnding | main.go:96-115 | Every read before the last one succeeded and was written. The run is `Running` iff no outcome stops it and all outcomes were read. A read error ends the run at that read, with no write for it. A write error ends the run with that read's payload as the last attempt |
| PacketRelay.RelayAttempts | main.go:119-138 | The k-th write attempt is the payload of the k-th read, in read order: nothing is reordered, dropped or altered |
| PacketRelay.DeliveredAreWritten | main.go:107-111 | The payloads written successfully are exactly those of the run's reads whose write succeeded, in read order, each the payload of its read; there are `readCount` of them if the loop is still running, one fewer once it has stopped |
| PacketRelay.NothingAfterStop | main.go:97-115 | Once a read or write error has stopped the loop, appending any further outcomes changes neither the attempts, the ending, nor the number of reads |
| PacketRelay.RelayWhenEveryWriteFails | main.go:133-136 | If every write is rejected, the first outcome stops the loop: it makes exactly one read (if any outcome is given), attempts at most one payload, delivers none, and stops |
| PacketRelay.RelayExtends | main.go:119-138 | Extending the outcome sequence only extends what was forwarded (a prefix) and how many reads were made |
| PacketRelay.ForwardsIdentically | main.go:122-133 | With no errors and packets that fit the buffer, the forwarded sequence is exactly the offered packets, byte for byte and in order |
| PacketRelay.RelayUdpToTun | main.go:96-115 | The UDP-to-TUN loop reuses one buffer, but its run equals `Relay`: stale bytes from an earlier longer packet are never forwarded |
| PacketRelay.RelayTunToUdp | main.go:119-141 | The TUN-to-UDP loop, with a fresh buffer per read, has the same run as `Relay` |

## Left out

- Opening `/dev/net/tun`, the TUNSETIFF ioctl and `SetNonblock` (main.go:23-47). These are OS calls; only the record passed to the ioctl is modelled.
- `ListenUDP`, `ResolveUDPAddr`, `DialUDP`, `ReadFromUDP` and `WriteTo`. Their network semantics are library behaviour. A relay outcome stands for what these calls returned. The sender address discarded at main.go:98 and the nil address at main.go:133 are not modelled.
- The write at main.go:133 passes a nil address to `WriteTo`. Go's `UDPConn.WriteTo` rejects an address that is not a `*UDPAddr`, so as written every TUN-to-UDP write fails. The model leaves each write's outcome unconstrained rather than fixing it to a failure. `RelayWhenEveryWriteFails` states what that case costs: the loop delivers nothing. It attempts one write, which fails, and stops after its first read.
- The two goroutines, the `quit` channel and `main` waiting on it. Each direction is modelled on its own as a sequential function; nothing is said about how the two directions interleave.
- Flag parsing, `Printf` and stderr messages, `panic`, `os.Exit` status codes and `defer conn.Close()`. These are glue with no logic to state.
- Platform endianness other than the one little-endian assumption. The `unsafe.Pointer` cast itself is not modelled.
- How the kernel interprets the `ifreq` record (for example, a name field without a terminator) is not part of this model.
- PacketRelay.Payload: for an offered packet longer than 2048 bytes it models only the reader's bound (the first 2048 bytes land in the buffer). What the OS does with the rest is not part of this model.

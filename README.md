# Streams: in-memory stream and stream pump

This project models the stream core of libweave, the device agent's
connectivity layer, as found in `libweave/src/streams.cc`:

- `MemoryStream` is a byte buffer with a read cursor. `Read` copies
  `min(requested, unread)` bytes from the cursor into the front of the
  caller's buffer and advances the cursor. `Write` appends bytes at the end.
  Both always complete through their success callback.
- `StreamCopier` pumps a source stream into a destination stream through a
  fixed 4096-byte scratch buffer. It keeps a running total `size_done_`.
  Each non-empty read is written out in full before the next read. The first
  read of 0 bytes ends the job, which reports the total.

In the source, `MemoryStream` posts its read and write completions on the
task runner with zero delay (libweave/src/streams.cc:29-30, 39), and
`StreamCopier` runs its final success callback directly
(libweave/src/streams.cc:67). Here every completion is the method's return
value: a `Completion<T>` that is `Succeeded(v)` for the success callback run with `v`
and `Failed(message)` for the error callback. The source's
Copy → Read → OnSuccessRead → Write → Copy callback cycle is the `while` loop
of `StreamCopier.Copy`. Each turn of that loop is `CopyStep`: one read, with
its completion handed to `OnSuccessRead`.

Files:

- `copy_spec.dfy` (module `CopySpec`): the pump's behaviour stated on values.
  `CopyLog(s, b)` is the sequence of events (`ReadDone(requested, size)`,
  `Wrote(bytes)`) that a copier with a `b`-byte buffer produces on the
  unread bytes `s`. The lemmas state what every such log looks like.
- `streams.dfy` (module `Streams`): the classes `MemoryStream` and
  `StreamCopier`, with fields the methods update in place. `Copy` is proved
  to produce exactly `CopyLog` of the source's unread bytes.

`Copy` requires the source and the destination to be distinct objects
(`ReadyToCopy`). If they were the same stream with unread bytes, every byte
read would be appended back behind the cursor, and the copy would never end.

A copy of N unread bytes performs ceil(N / 4096) non-empty reads, each
followed by its write, and then one more read that returns 0 bytes. So there
are ceil(N / 4096) + 1 reads in all.

## Model

| member | source | states |
|---|---|---|
| `Streams.MemoryStream.constructor` | libweave/src/streams.cc:16-18 | A new stream holds the given bytes with its cursor at the start. |
| `Streams.MemoryStream.Read` | libweave/src/streams.cc:20-31 | Requires the cursor within the data, and keeps it there. Always succeeds, with `min(sizeToRead, unread)` bytes, which is 0 at end of data. The first that many buffer bytes are the unread bytes from the cursor. The rest of the buffer is unchanged. The cursor advances by exactly that count. The data is unchanged. |
| `Streams.MemoryStream.Write` | libweave/src/streams.cc:33-40 | Always succeeds. The data becomes the old data followed by the first `sizeToWrite` buffer bytes, so a zero-length write changes nothing. The cursor is unchanged, so the unread bytes grow by exactly the bytes written. |
| `Streams.StreamCopier.constructor` | libweave/src/streams.cc:42-43 | The copier keeps the two streams, allocates a fresh 4096-byte scratch buffer and starts its total at 0. |
| `Streams.StreamCopier.OnSuccessRead` | libweave/src/streams.cc:55-68 | Adds the read size to the running total. A non-empty read is appended in full to the destination. A read of 0 bytes writes nothing and finishes the job. |
| `Streams.StreamCopier.CopyStep` | libweave/src/streams.cc:45-53 | One read that asks for a buffer's worth (4096 bytes), recorded with that requested size: the cursor advances by `min(4096, unread)` and the total by the same amount. The destination gains exactly those bytes. The job finishes exactly when the read was empty. It reports the read event and, for a non-empty read, the write that follows it. |
| `Streams.StreamCopier.Copy` | libweave/src/streams.cc:45-68 | For distinct streams, completes with success and old total + k, where k is the number of unread source bytes. The destination ends as its old data followed by those k bytes. The source cursor ends at the end of its data, and the source data is unchanged. The events are exactly `CopyLog` of the unread bytes with a 4096-byte buffer. |
| `Streams.CopyBetween` | libweave/src/streams.cc:42-68 | A fresh copier between two fresh memory streams reports `Succeeded(|src|)` and leaves `dst + src` in the destination. Its log writes out exactly `src`, its reads total `|src|`, and it alternates reads and writes as the pump promises. |
| `CopySpec.ReadSize` | libweave/src/streams.cc:25 | A read delivers no more than was requested and no more than is left, and it delivers one of the two. |
| `CopySpec.CopyLogWritesAll` | libweave/src/streams.cc:55-67 | Round trip: the bytes written by a copy, concatenated in order, are exactly the bytes that were unread. |
| `CopySpec.CopyLogTotal` | libweave/src/streams.cc:58-67 | The sum of all read sizes, which is the total reported to the success callback, equals the number of unread bytes. |
| `CopySpec.CopyLogAlternates` | libweave/src/streams.cc:45-66 | Every read asks for at most the buffer size `b` and delivers no more than it asked for. Each non-zero read is followed by the write of exactly the bytes delivered before the next read. A single read of 0 bytes comes last. |
| `CopySpec.AlternatingReads` | libweave/src/streams.cc:55-67 | A log with that alternation has odd length, and its number of reads is half its length plus one: every read but the final empty one is paired with its write. |
| `CopySpec.CopyLogLength` | libweave/src/streams.cc:45-67 | The log of a copy of `n` bytes has odd length `2c + 1` with `(c - 1) * b < n <= c * b`. |
| `CopySpec.CopyLogReadCount` | libweave/src/streams.cc:45-67 | A copy of `n` bytes performs `c + 1` reads, where `(c - 1) * b < n <= c * b`, so `c` is ceil(n / b). The log is `c` read/write pairs plus the final empty read. |
| `CopySpec.CopyLogOneBuffer` | libweave/src/streams.cc:45-67 | A source with 1 to `b` unread bytes is drained by one read, one write of all of them, and the terminating empty read. |

## Left out

- Asynchronous delivery through the task runner (libweave/src/streams.cc:29-30, 39, 50, 63): completions are the methods' return values, delivered at once. The task runner is not a parameter of the `MemoryStream` constructor here.
- `WeakPtrFactory` invalidation, which cancels pending continuations when a copier is destroyed: objects are never destroyed in this model.
- Streams other than `MemoryStream`: in the source, `StreamCopier` works over any `InputStream`/`OutputStream`. Here both ends are `MemoryStream`s.
- Forwarding of `error_callback` by `StreamCopier`: the copier passes it to `Read` and `Write`, but a `MemoryStream` never calls it, so that path is unreachable.
- `Streams.StreamCopier.Copy`: `size_done_` is a `size_t` and wraps around modulo 2^64 in the source. The model's total is an unbounded `nat`, because no in-memory source can hold 2^64 bytes.
- libweave/examples/ubuntu/network_manager.cc (WiFi join, soft access point, TLS socket) is not part of this model. Its work is process spawning, shell commands, configuration files and OpenSSL calls driven by wall-clock retries, with no logic that can be stated apart from the operating system.
- libweave/src/privet/privet_manager.cc is not part of this model. It wires up handlers and publishers, and its only logic depends on string and JSON helpers defined in other files (`SplitAtFirst`, `base::JSONReader`/`JSONWriter`).
- buffet/commands/command_manager.h is not part of this model: it holds declarations only.

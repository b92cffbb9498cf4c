# crystald audio scheme — a Dafny model

crystald is a user-space audio daemon. It serves the `audio:` scheme of a microkernel
operating system. Clients create named endpoints through five scheme calls:

- `open` creates an endpoint named by the path;
- `fmap` maps its sample buffer;
- `fevent` subscribes to events on an id;
- `fsync` mixes (for a sink) or announces (for a source);
- `close` tears it down.

The daemon keeps a registry `AudioScheme` of three collections: the set of ids in use, a map from
id to `Endpoint`, and a map from name to id. An endpoint has a name, a buffer of `i32` samples, a
set of connection ids, and a role: a source, or a sink with a set of input ids.

The model is the class `Scheme.AudioScheme` with these collections as `set` and `map` fields. A
`seq` outbox stands for the packets written to the scheme file. The handlers that change the
registry (`open`, `fsync`, `close`, and `gen_file_id`) are methods; the read-only `fevent` and
`fmap` are functions of the registry. Each keeps the source's checks in the source's order and
returns a `Reply`: `Ok(value)`, `Err(EBADF | EINVAL)`, or `Panic`.
`Panic` stands for the points where the Rust code panics: `unreachable!`, an `unwrap` of nothing,
or indexing past an input buffer's end.

Supporting modules:

- `Native`: `usize`, `i32`, and `i32` wrap-around.
- `Syscall`: error numbers, replies, open flags and event packets.
- `Text`: Rust's `str::split` on one character and `str::parse::<usize>`.
- `OpenArgs`: how `open` reads `name?…?k=v&k=v`, with the argument loop as a method.
- `OrderedIds`: the ascending iteration order of a `BTreeSet`, and the existence of a free id.
- `Mixing`: truncating halving and the per-input mix loop.
- `Scenarios`: whole call sequences on a fresh daemon.

Behaviour of the code as written that the model keeps:

- The argument segment of an `open` path is the third `?`-piece. `iter.next()` takes the name and
  `iter.nth(1)` then skips one piece. So `name?buf_sz=256` is refused with `EINVAL`
  (`SingleQueryPathRefused`), and a creating path reads `name??buf_sz=256` (`CreatePathParses`).
  The bundled clients open the single-`?` form (src/bin/rms_sink.rs:11, src/bin/peak_sink.rs:12).
- `open` draws its id before it checks `O_CREAT`, `buf_sz` and the access mode. A refused create
  therefore leaves an id in use with no endpoint. `fevent` accepts that id, `fmap` answers `EBADF`,
  and `close` reaches `unreachable!` (`LeakedIdLifecycle`).
- A sink's buffer is not zeroed before mixing. The halved inputs add onto the samples it already
  holds.
- Halving is Rust's `/ 2`, which truncates toward zero (-3 becomes -1). It is not an arithmetic
  shift.
- There is no path that attaches a connection. A non-creating `open` is `EINVAL`, so nothing adds
  to `connections` or `inputs`. The model keeps both as general sets.
- `open` overwrites the name entry of an existing name. Closing the older endpoint then removes
  the entry while the newer endpoint lives on (`ReusedNameLifecycle`).

## Model

| member | source | states |
|---|---|---|
| Native.WrapI32 | src/scheme.rs:153 | the `i32` result of `+=` is the mathematical sum when that is in range, and is congruent to it modulo 2^32 otherwise |
| Native.WrapAddWrap | src/scheme.rs:150-155 | wrapping after each accumulation step gives the same sample as wrapping the whole sum once |
| Text.Split | src/scheme.rs:50 | `str::split` always yields at least one piece and at most one more than the string's length |
| Text.SplitPiecesLackSeparator | src/scheme.rs:50 | no piece of a split contains the separator |
| Text.JoinSplit | src/scheme.rs:53 | splitting loses nothing: joining the pieces with the separator gives the string back |
| Text.SplitAtSeparator | src/scheme.rs:54 | a separator splits a string into the pieces on its left followed by those on its right |
| Text.SplitJoin | src/scheme.rs:53 | splitting inverts joining when no piece holds the separator |
| Text.ParseUsizeSpec | src/scheme.rs:75-76 | `parse::<usize>` succeeds exactly on a non-empty run of decimal digits, with or without one leading `+`, whose value is below 2^64, and then yields that value |
| Text.ParseRejectsNonDigit | src/scheme.rs:75-77 | a string holding any character other than a digit or a leading `+` does not parse, so `open` answers `EINVAL` |
| Text.ParseRejects | src/scheme.rs:75-77 | the empty string, a lone `+`, `-1`, `x` and `+-1` do not parse |
| Text.ParseDecimal | src/scheme.rs:75-76 | `parse::<usize>` of any `usize` written in decimal gives back that number |
| Text.ParseSignedDecimal | src/scheme.rs:75-76 | `parse::<usize>` also accepts a leading `+` and leading zeros |
| OpenArgs.SplitCount | src/scheme.rs:50-51 | a split yields one piece more than there are separators |
| OpenArgs.PathName | src/scheme.rs:51 | the endpoint name is a prefix of the path and holds no `?` |
| OpenArgs.ArgSegment | src/scheme.rs:50-51 | `next()` then `nth(1)` finds an argument segment exactly when the path holds at least two `?`, and that segment holds no `?` |
| OpenArgs.Key | src/scheme.rs:54-55 | the key of a piece is the part before its first `=`: a prefix holding no `=`, and the whole piece exactly when the piece has no `=` |
| OpenArgs.HasValue | src/scheme.rs:56 | a piece has a value exactly when it holds an `=` |
| OpenArgs.Value | src/scheme.rs:54-56 | the value of a piece holds no `=` and follows the key and the first `=` in the piece |
| OpenArgs.KeyValueOfPiece | src/scheme.rs:54-57 | a piece `key=value`, with or without a further `=…`, yields that key and that value; only the first two `=`-parts are read |
| OpenArgs.ArgMap | src/scheme.rs:59-69 | the map built by inserting each piece in turn has at most one entry per piece, and the last piece's binding stands |
| OpenArgs.ArgMapKeys | src/scheme.rs:59-69 | the argument map's keys are exactly the pieces' keys |
| OpenArgs.ArgMapValues | src/scheme.rs:59-69 | when no key repeats, each key is bound to the value written beside it |
| OpenArgs.DuplicateKey | src/scheme.rs:65-67 | a key already in the map built so far means two pieces share a key |
| OpenArgs.ExtendDistinct | src/scheme.rs:65-67 | a piece whose key is not yet in the map keeps the keys distinct |
| OpenArgs.ExtendArgs | src/scheme.rs:60-68 | a piece with a value and a new key keeps the pieces so far well formed and adds exactly its own binding to the map |
| OpenArgs.ParseArgs | src/scheme.rs:53-69 | the argument loop succeeds exactly when every `&`-piece has a value and no key repeats, and then returns the map of those keys to those values |
| OrderedIds.AscendingSpec | src/scheme.rs:133 | `BTreeSet` iteration lists every element exactly once, in strictly increasing order |
| OrderedIds.PopLeast | src/scheme.rs:133 | one iterator step takes the least remaining id; the rest of the iteration is the ascending order of the others |
| OrderedIds.FreshIdExists | src/scheme.rs:206-214 | while fewer than 2^64 ids are in use, some `usize` is free, so the draw loop has something to find |
| Mixing.TruncHalf | src/scheme.rs:153 | `x / 2` leaves a remainder of -1, 0 or 1 with the sign of `x` |
| Mixing.TruncHalfInRange | src/scheme.rs:153 | a halved `i32` sample is within half the `i32` range |
| Mixing.TruncHalfVersusShift | src/scheme.rs:153 | truncating halving is odd-symmetric, and agrees with a shift right exactly on non-negative or even samples |
| Mixing.HalfSumBound | src/scheme.rs:150-155 | the halved contribution of `n` inputs to one sample lies within `n` half-ranges |
| Mixing.Mixdown | src/scheme.rs:150-155 | a mixdown keeps the buffer's length, and with no inputs leaves the buffer as it was |
| Mixing.MixdownHalvesEachInput | src/scheme.rs:153 | each input is halved on its own: 100 and 3 mix to 51, and -3 mixes to -1 |
| Mixing.MixdownStep | src/scheme.rs:150-155 | mixing one more input onto a mixdown, with wrap-around at each sample, gives the mixdown with that input appended |
| Mixing.MixInput | src/scheme.rs:152-154 | the inner loop adds each input sample's truncated half to the sample at the same index, with `i32` wrap-around |
| Scheme.Zeros | src/scheme.rs:82 | `vec![0; n]` is `n` zero samples |
| Syscall.HasCreate | src/scheme.rs:72 | the `O_CREAT` test holds exactly when the flags' residue below bit 26 reaches 2^25, that is, when bit 25 is set |
| Syscall.AccessMode | src/scheme.rs:79 | `flags & O_RDWR` keeps bits 16 and 17 in place and clears every other bit, so it is 0, `O_RDONLY`, `O_WRONLY` or `O_RDWR` |
| Scheme.ParsesArgs | src/scheme.rs:49-69 | a path that passes the argument loop holds at least two `?`, and every `&`-piece of its argument segment holds an `=` |
| Scheme.BufSize | src/scheme.rs:73-76 | the buffer size is the parse of the value beside the piece whose key is `buf_sz`, and is missing when no piece has that key |
| Scheme.ThreePieces | src/scheme.rs:50-51 | `name??body` splits on `?` into the name, an empty piece and the body |
| Scheme.SingleArgument | src/scheme.rs:53-69 | a segment holding one `key=value` pair passes the argument loop and maps the key to the value |
| Scheme.CreatePathParses | src/scheme.rs:49-76 | a path `name??buf_sz=n` passes argument parsing, names the endpoint `name`, and gives buffer size `n` |
| Scheme.SinglePiece | src/scheme.rs:50-53 | the argument segment of `name??body` is `body`, a single `&`-piece when `body` has no `&` |
| Scheme.UnparsableSizeRefused | src/scheme.rs:49-77 | `name??buf_sz=x` passes the argument loop but gives no buffer size |
| Scheme.SingleQueryPathRefused | src/scheme.rs:49-51 | a path `name?buf_sz=n` with a single `?` has no argument segment, so `open` refuses it |
| Scheme.Packets | src/scheme.rs:133-147 | one packet per id, in the given order, each of the given kind and length |
| Scheme.PacketsAppend | src/scheme.rs:157-171 | one more id adds one packet at the end |
| Scheme.Broadcast | src/scheme.rs:184-198 | the packets sent to an endpoint's connections: one per connection, each connection reached, all of one kind and length, targets strictly ascending |
| Scheme.SyncPanics | src/scheme.rs:148-155 | only a sink with at least one input can panic on sync, and a sink listing itself as an input always panics, since it is out of the map while it mixes |
| Scheme.InputBuffers | src/scheme.rs:151 | the `unwrap`ped buffers of the inputs, in the given order, each at least as long as the sink's buffer |
| Scheme.InputBuffersAppend | src/scheme.rs:150-151 | one more mixable input appends its buffer |
| Scheme.MixdownAppend | src/scheme.rs:150-155 | one pass of the outer mixing loop extends the mixdown by that input |
| Scheme.VisitedAllMixable | src/scheme.rs:150-151 | when the ascending walk over the inputs got through all of them, every input was a live endpoint with a long enough buffer |
| Scheme.MixInputs | src/scheme.rs:148-155 | the mixing loop panics exactly when some input is missing or has a buffer shorter than the sink's; otherwise it yields the mixdown of the inputs' buffers in ascending id order |
| Scheme.SinkOrderMixable | src/scheme.rs:150-151 | a sink that does not panic on sync has every input mixable, in ascending order |
| Scheme.Synced | src/scheme.rs:130-176 | a sync keeps the endpoint's name, role, connections and buffer length, and leaves a source as it was |
| Scheme.SyncedSamples | src/scheme.rs:148-155 | each sample of a synced sink becomes its old value plus the sum over its inputs, ascending, of their truncated halves at that index, wrapped to `i32` |
| Scheme.AudioScheme.constructor | src/scheme.rs:36-43 | a new registry has no ids, endpoints or names, and has sent nothing |
| Scheme.AudioScheme.FEvent | src/scheme.rs:104-110 | `fevent` returns the id exactly when it is in use, otherwise `EBADF`; it reads state only |
| Scheme.AudioScheme.FMap | src/scheme.rs:112-128 | `fmap` succeeds exactly when the id is in use, the offset is zero, the id is an endpoint and the size is its buffer length; `EBADF` exactly for an unused id or a non-endpoint at offset zero; `EINVAL` exactly for a used id with a non-zero offset or a wrong size; never panics |
| Scheme.AudioScheme.GenFileId | src/scheme.rs:206-214 | the id drawn was not in use, and the used set grows by exactly that id |
| Scheme.AudioScheme.NotifyAll | src/scheme.rs:184-198 | the outbox grows by exactly the broadcast to the connections, in ascending order |
| Scheme.AudioScheme.Open | src/scheme.rs:47-102 | `open` succeeds exactly when the arguments parse, `O_CREAT` is set, `buf_sz` parses and the access mode is read-only or write-only. Unparsable arguments draw no id; parsed ones draw exactly one fresh id. A failure leaves endpoints and names unchanged. Success returns the fresh id of a zeroed sink or source named by the path, with the name entry overwritten |
| Scheme.AudioScheme.Fsync | src/scheme.rs:130-176 | a non-endpoint gives `EBADF` with nothing changed. A sink with a missing or short input panics with the endpoint taken out. Otherwise `Ok(0)`: only that endpoint changes, to its synced value, and each connection gets one read-ready (source) or write-ready (sink) packet with the buffer length, ascending |
| Scheme.AudioScheme.Close | src/scheme.rs:178-203 | an unused id gives `EBADF` with nothing changed. A used id is given up. An endpoint is removed with its name entry, and each connection gets one zero-length write-ready packet, ascending. A used id without an endpoint panics |
| Scenarios.SinkFlags | src/scheme.rs:72-80 | `O_CREAT` together with `O_RDONLY` creates a read-only (sink) endpoint and `O_RDONLY` alone does not create |
| Scenarios.SinkLifecycle | src/scheme.rs:47-203 | create, `fmap` with the right size, `fevent`, `fsync` and `close` all succeed on a fresh daemon, and a second `close` gives `EBADF` |
| Scenarios.LeakedIdLifecycle | src/scheme.rs:71-102 | a parsed but non-creating `open` fails yet keeps its id, which `fevent` accepts, `fmap` refuses with `EBADF`, and `close` panics on |
| Scenarios.ReusedNameLifecycle | src/scheme.rs:97 | two creates under one name get distinct ids; closing the older removes the name entry while the newer endpoint stays |
| Scenarios.BadSizeOpen | src/scheme.rs:71-77 | a create whose `buf_sz` is not a number gives `EINVAL`, yet its id was drawn: it stays in use and `fevent` accepts it |
| Scenarios.SingleQueryOpen | src/scheme.rs:49-51 | `open` of `name?buf_sz=n` gives `EINVAL` and draws no id |

## Left out

- I/O is left out. The scheme file is an append-only `seq` of packets. The daemon's main loop, `fork` and the event queue of src/main.rs are not part of this model.
- The failed-write panic of `.expect` (src/scheme.rs:146, 170, 197) is left out: every write succeeds.
- UTF-8 decoding of the path is left out. The path is a Dafny string, so the `EINVAL` for invalid UTF-8 (src/scheme.rs:48) is not modelled.
- `fmap` returns the buffer's address (src/scheme.rs:124). The model returns the endpoint id as the handle.
- Mapping a buffer into a client and the client writing into it are left out. Between calls the buffers change only by `fsync`.
- The random draw of `gen_file_id` is left out. The id is an arbitrary free id, not a retry loop over random numbers.
- Scheme.AudioScheme.GenFileId: requires fewer than 2^64 ids in use. With every id taken, the source's loop would spin forever.
- Scheme.AudioScheme.Open: requires fewer than 2^64 ids in use, for the same reason, and `Valid()`, the registry invariant that every handler keeps.
- Scheme.AudioScheme.Fsync: the `i32` `+=` is modelled with release-build wrap-around. A debug build would panic on overflow instead.
- Scheme.AudioScheme.Fsync: buffers are immutable `seq` values replaced whole, not a `Vec` updated in place. No other reference to the buffer exists during the sync, so nothing observes the difference.
- A panic ends the daemon. After `Panic` the model's state is whatever the code had changed by then, and only `Valid()` is not promised.
- Allocation failure of `vec![0; buf_sz]` for huge sizes is left out.
- Dispatch of request packets to handlers through `SchemeMut::handle` is left out. The unused `uid` and `gid` arguments are left out.
- `AudioBuffer` in src/buffer.rs is unused by the scheme and is not part of this model.
- The example clients in src/bin are not part of this model.

/** The audio scheme: a registry of named endpoints, each owning a sample buffer, served
    through the five scheme calls `open`, `fevent`, `fmap`, `fsync` and `close`. */
module Scheme {
  import opened Native
  import opened Syscall
  import opened Text
  import opened OpenArgs
  import opened OrderedIds
  import opened Mixing

  /** A sink mixes its inputs into its buffer on sync; a source only announces its buffer. */
  datatype Role = Source | Sink(inputs: set<usize>)

  datatype Endpoint = Endpoint(name: string, buffer: seq<i32>, connections: set<usize>, role: Role)

  /** `vec![0; n]`. */
  function Zeros(n: nat): (z: seq<i32>)
    ensures |z| == n && forall i :: 0 <= i < n ==> z[i] == 0
  {
    seq(n, _ => 0)
  }

  // ---------------------------------------------------------------------------------------
  // What `open` reads from its path

  /** The `&`-pieces of the argument segment. */
  function ArgPieces(path: string): seq<string>
    requires ArgSegment(path).Some?
  {
    Split(ArgSegment(path).value, '&')
  }

  /** Whether `open` gets past its argument loop: the path has a third `?`-piece, every
      `&`-piece of it has an `=`, and no key repeats. */
  predicate ParsesArgs(path: string)
    ensures ParsesArgs(path) ==> CountOf(path, '?') >= 2
    ensures ParsesArgs(path) ==> forall k :: 0 <= k < |ArgPieces(path)| ==> '=' in ArgPieces(path)[k]
  {
    ArgSegment(path).Some? && WellFormedArgs(ArgPieces(path))
  }

  function Args(path: string): map<string, string>
    requires ParsesArgs(path)
  {
    ArgMap(ArgPieces(path))
  }

  /** The `buf_sz` argument parsed as a `usize`: the parse of the value beside the piece whose
      key is `buf_sz`, or None when no piece has that key. */
  function BufSize(path: string): (n: Option<usize>)
    requires ParsesArgs(path)
    ensures forall k :: 0 <= k < |ArgPieces(path)| && Key(ArgPieces(path)[k]) == "buf_sz" ==>
      n == ParseUsize(Value(ArgPieces(path)[k]))
    ensures (forall k :: 0 <= k < |ArgPieces(path)| ==> Key(ArgPieces(path)[k]) != "buf_sz") ==> n == None
  {
    ArgMapValues(ArgPieces(path));
    ArgMapKeys(ArgPieces(path));
    if "buf_sz" in Args(path) then ParseUsize(Args(path)["buf_sz"]) else None
  }

  /** The path that creates an endpoint `name` of `n` samples: the arguments sit in the third
      `?`-piece, so the second one is left empty. */
  function CreatePath(name: string, n: usize): string
  {
    name + "??buf_sz=" + Decimal(n)
  }

  lemma ThreePieces(name: string, body: string)
    requires '?' !in name && '?' !in body
    ensures Split(name + "??" + body, '?') == [name, "", body]
  {
    assert name + "??" + body == name + ['?'] + ([] + ['?'] + body);
    SplitAtSeparator(name, '?', [] + ['?'] + body);
    SplitAtSeparator([], '?', body);
    SplitWithoutSeparator(name, '?');
    SplitWithoutSeparator(body, '?');
  }

  /** An argument segment holding one `key=value` pair passes the argument loop and maps the
      key to the value. */
  lemma SingleArgument(key: string, value: string)
    requires '=' !in key && '=' !in value && '&' !in key && '&' !in value
    ensures WellFormedArgs(Split(key + "=" + value, '&'))
    ensures ArgMap(Split(key + "=" + value, '&')) == map[key := value]
  {
    var piece := key + "=" + value;
    KeyValueOfPiece(key, value, None);
    assert piece == key + ['='] + value + [];
    assert '&' !in piece;
    SplitWithoutSeparator(piece, '&');
    var pieces := [piece];
    assert pieces[..0] == [];
    assert ArgMap(pieces) == ArgMap([])[key := value];
  }

  /** No decimal digit is a separator of the path syntax. */
  lemma DigitsLackSeparators(digits: string)
    requires AllDigits(digits)
    ensures '?' !in digits && '&' !in digits && '=' !in digits
  {
    forall k | 0 <= k < |digits| ensures digits[k] != '?' && digits[k] != '&' && digits[k] != '=' {
      assert IsDigit(digits[k]);
    }
  }

  /** A create path names the endpoint and carries its size: `open` reads back exactly the
      name and the `buf_sz` that were written into it. */
  lemma CreatePathParses(name: string, n: usize)
    requires '?' !in name
    ensures ParsesArgs(CreatePath(name, n))
    ensures PathName(CreatePath(name, n)) == name
    ensures BufSize(CreatePath(name, n)).Some? && BufSize(CreatePath(name, n)).value == n
  {
    var digits := Decimal(n);
    DigitsLackSeparators(digits);
    var body := "buf_sz" + "=" + digits;
    assert '?' !in body;
    assert CreatePath(name, n) == name + "??" + body;
    ThreePieces(name, body);
    SingleArgument("buf_sz", digits);
    ParseDecimal(n);
  }

  /** The argument segment of `name??body` is `body`, one `&`-piece when `body` has no `&`. */
  lemma SinglePiece(name: string, body: string)
    requires '?' !in name && '?' !in body && '&' !in body
    ensures ArgSegment(name + "??" + body) == Some(body)
    ensures ArgPieces(name + "??" + body) == [body]
  {
    ThreePieces(name, body);
    SplitWithoutSeparator(body, '&');
  }

  /** A create path whose size is not a number passes the argument loop but has no buffer
      size. */
  lemma UnparsableSizeRefused(name: string)
    requires '?' !in name
    ensures ParsesArgs(name + "??buf_sz=x")
    ensures BufSize(name + "??buf_sz=x") == None
  {
    var body := "buf_sz" + ['='] + "x";
    assert name + "??buf_sz=x" == name + "??" + body;
    SinglePiece(name, body);
    KeyValueOfPiece("buf_sz", "x", None);
    assert body + [] == body;
    ParseRejects();
  }

  /** A path with a single `?`, `name?buf_sz=n`, has no third piece, so `open` refuses it
      before reading any argument. */
  lemma SingleQueryPathRefused(name: string, n: usize)
    requires '?' !in name
    ensures !ParsesArgs(name + "?buf_sz=" + Decimal(n))
  {
    var digits := Decimal(n);
    var body := "buf_sz=" + digits;
    DigitsLackSeparators(digits);
    assert name + "?buf_sz=" + digits == name + ['?'] + body;
    SplitAtSeparator(name, '?', body);
    SplitWithoutSeparator(name, '?');
    SplitWithoutSeparator(body, '?');
  }

  // ---------------------------------------------------------------------------------------
  // What `fsync` and `close` send

  /** One packet per id, in the given order. */
  function Packets(ids: seq<usize>, event: Event, len: usize): (packets: seq<Notification>)
    ensures |packets| == |ids|
    ensures forall k :: 0 <= k < |ids| ==> packets[k] == Notification(ids[k], event, len)
  {
    if ids == [] then [] else Packets(ids[..|ids| - 1], event, len) + [Notification(ids[|ids| - 1], event, len)]
  }

  lemma PacketsAppend(ids: seq<usize>, id: usize, event: Event, len: usize)
    ensures Packets(ids + [id], event, len) == Packets(ids, event, len) + [Notification(id, event, len)]
  {
    assert (ids + [id])[..|ids|] == ids;
  }

  /** The packets written to an endpoint's connections: one per connection, in ascending id
      order, all of the same kind and length. */
  ghost function Broadcast(connections: set<usize>, event: Event, len: usize): (packets: seq<Notification>)
    ensures |packets| == |connections|
    ensures forall c :: c in connections <==> exists k :: 0 <= k < |packets| && packets[k].target == c
    ensures forall k :: 0 <= k < |packets| ==> packets[k].event == event && packets[k].len == len
    ensures forall k, l :: 0 <= k < l < |packets| ==> packets[k].target < packets[l].target
  {
    var ids := Ascending(connections);
    AscendingSpec(connections);
    var packets := Packets(ids, event, len);
    forall c | c in connections ensures exists k :: 0 <= k < |packets| && packets[k].target == c {
      var k :| 0 <= k < |ids| && ids[k] == c;
      assert packets[k].target == c;
    }
    packets
  }

  // ---------------------------------------------------------------------------------------
  // What `fsync` computes

  /** Whether `input` can be mixed into a sink buffer of `len` samples while the sink itself
      is out of the map: another endpoint, whose buffer is at least as long. */
  predicate Mixable(others: map<usize, Endpoint>, len: nat, input: usize)
  {
    input in others && len <= |others[input].buffer|
  }

  /** Whether syncing `id` panics: it is a sink with an input that is not mixable (the
      `unwrap` finds no endpoint, or indexing runs past the end of the input's buffer). */
  ghost predicate SyncPanics(endpoints: map<usize, Endpoint>, id: usize)
    requires id in endpoints
    ensures SyncPanics(endpoints, id) ==> endpoints[id].role.Sink? && endpoints[id].role.inputs != {}
    // the sink is out of the map while it mixes, so listing itself as an input panics
    ensures endpoints[id].role.Sink? && id in endpoints[id].role.inputs ==> SyncPanics(endpoints, id)
  {
    && endpoints[id].role.Sink?
    && exists input :: input in endpoints[id].role.inputs && !Mixable(endpoints - {id}, |endpoints[id].buffer|, input)
  }

  predicate AllMixable(others: map<usize, Endpoint>, len: nat, ids: seq<usize>)
  {
    forall k :: 0 <= k < |ids| ==> Mixable(others, len, ids[k])
  }

  /** The buffers of the given inputs, in the given order. */
  function InputBuffers(others: map<usize, Endpoint>, len: nat, ids: seq<usize>): (buffers: seq<seq<i32>>)
    requires AllMixable(others, len, ids)
    ensures |buffers| == |ids|
    ensures forall k :: 0 <= k < |ids| ==> buffers[k] == others[ids[k]].buffer && len <= |buffers[k]|
  {
    if ids == [] then []
    else InputBuffers(others, len, ids[..|ids| - 1]) + [others[ids[|ids| - 1]].buffer]
  }

  lemma InputBuffersAppend(others: map<usize, Endpoint>, len: nat, ids: seq<usize>, id: usize)
    requires AllMixable(others, len, ids)
    requires id in others && len <= |others[id].buffer|
    ensures AllMixable(others, len, ids + [id])
    ensures InputBuffers(others, len, ids + [id]) == InputBuffers(others, len, ids) + [others[id].buffer]
  {
    assert (ids + [id])[..|ids|] == ids;
  }

  /** Mixing one more mixable input on top of the mixdown of `done` gives the mixdown of
      `done` followed by that input. */
  lemma MixdownAppend(buffer: seq<i32>, others: map<usize, Endpoint>, done: seq<usize>, input: usize,
                      added: seq<i32>, current: seq<i32>, next: seq<i32>)
    requires AllMixable(others, |buffer|, done) && Mixable(others, |buffer|, input)
    requires added == others[input].buffer
    requires current == Mixdown(buffer, InputBuffers(others, |buffer|, done))
    requires |next| == |current|
    requires forall i :: 0 <= i < |current| ==> next[i] == WrapI32(current[i] + TruncHalf(added[i]))
    ensures AllMixable(others, |buffer|, done + [input])
    ensures next == Mixdown(buffer, InputBuffers(others, |buffer|, done + [input]))
  {
    var before := InputBuffers(others, |buffer|, done);
    assert forall k :: 0 <= k < |before| ==> |buffer| <= |before[k]|;
    InputBuffersAppend(others, |buffer|, done, input);
    MixdownStep(buffer, before, current, added, next);
  }

  /** Once the ascending walk over a set has visited every id, each of them was mixable. */
  lemma VisitedAllMixable(inputs: set<usize>, others: map<usize, Endpoint>, len: nat, done: seq<usize>)
    requires done == Ascending(inputs) && AllMixable(others, len, done)
    ensures forall input :: input in inputs ==> Mixable(others, len, input)
  {
    AscendingSpec(inputs);
    forall input | input in inputs ensures Mixable(others, len, input) {
      var k :| 0 <= k < |done| && done[k] == input;
    }
  }

  /** The outer loop of a sink's sync: mix the inputs one by one, in ascending id order, into
      the sink's buffer. It panics (None) when it meets an input that is not mixable. */
  method MixInputs(buffer: seq<i32>, inputs: set<usize>, others: map<usize, Endpoint>)
    returns (mixed: Option<seq<i32>>)
    ensures mixed.None? <==> exists input :: input in inputs && !Mixable(others, |buffer|, input)
    ensures mixed.Some? ==>
      var order := Ascending(inputs);
      && AllMixable(others, |buffer|, order)
      && mixed.value == Mixdown(buffer, InputBuffers(others, |buffer|, order))
  {
    var current := buffer;
    var remaining := inputs;
    ghost var done: seq<usize> := [];
    while remaining != {}
      invariant remaining <= inputs
      invariant Ascending(inputs) == done + Ascending(remaining)
      invariant AllMixable(others, |buffer|, done)
      invariant current == Mixdown(buffer, InputBuffers(others, |buffer|, done))
      decreases remaining
    {
      var input, rest := PopLeast(remaining);
      if input !in others || |others[input].buffer| < |current| {
        assert input in inputs && !Mixable(others, |buffer|, input);
        return None;
      }
      var added := others[input].buffer;
      var next := MixInput(current, added);
      MixdownAppend(buffer, others, done, input, added, current, next);
      current := next;
      AscendingAdvance(done, remaining, input, rest);
      done := done + [input];
      remaining := rest;
    }
    assert Ascending(remaining) == [];
    VisitedAllMixable(inputs, others, |buffer|, done);
    return Some(current);
  }

  /** A sink that does not panic on sync has every input, in ascending order, mixable. */
  lemma {:induction false} SinkOrderMixable(endpoints: map<usize, Endpoint>, id: usize)
    requires id in endpoints && endpoints[id].role.Sink? && !SyncPanics(endpoints, id)
    ensures AllMixable(endpoints - {id}, |endpoints[id].buffer|, Ascending(endpoints[id].role.inputs))
  {
    var ep := endpoints[id];
    var order := Ascending(ep.role.inputs);
    AscendingSpec(ep.role.inputs);
    forall k | 0 <= k < |order| ensures Mixable(endpoints - {id}, |ep.buffer|, order[k]) {
      assert order[k] in order;
    }
  }

  /** Endpoint `id` after a sync that does not panic: a source is unchanged; a sink's buffer
      has gained the halved samples of all its inputs, taken in ascending id order. A sync
      changes only a sink's samples: name, role, connections and buffer length stay. */
  ghost function Synced(endpoints: map<usize, Endpoint>, id: usize): (synced: Endpoint)
    requires id in endpoints && !SyncPanics(endpoints, id)
    ensures var ep := endpoints[id];
      && synced.name == ep.name && synced.role == ep.role && synced.connections == ep.connections
      && |synced.buffer| == |ep.buffer|
      && (ep.role.Source? ==> synced == ep)
  {
    var ep := endpoints[id];
    match ep.role
    case Source => ep
    case Sink(inputs) =>
      SinkOrderMixable(endpoints, id);
      ep.(buffer := Mixdown(ep.buffer, InputBuffers(endpoints - {id}, |ep.buffer|, Ascending(inputs))))
  }

  /** Each sample of a synced sink becomes itself plus the sum, over its inputs in ascending
      id order, of their halved samples at the same index, wrapped to `i32`. */
  lemma SyncedSamples(endpoints: map<usize, Endpoint>, id: usize, i: nat)
    requires id in endpoints && endpoints[id].role.Sink? && !SyncPanics(endpoints, id)
    requires i < |endpoints[id].buffer|
    ensures AllMixable(endpoints - {id}, |endpoints[id].buffer|, Ascending(endpoints[id].role.inputs))
    ensures Synced(endpoints, id).buffer[i] ==
      WrapI32(endpoints[id].buffer[i]
              + HalfSum(InputBuffers(endpoints - {id}, |endpoints[id].buffer|, Ascending(endpoints[id].role.inputs)), i))
  {
    var ep := endpoints[id];
    SinkOrderMixable(endpoints, id);
    var buffers := InputBuffers(endpoints - {id}, |ep.buffer|, Ascending(ep.role.inputs));
    var mixed := Mixdown(ep.buffer, buffers);
    assert Synced(endpoints, id).buffer == mixed;
    assert mixed[i] == WrapI32(ep.buffer[i] + HalfSum(buffers, i));
  }

  // ---------------------------------------------------------------------------------------
  // The scheme

  class AudioScheme {
    var endpointNameToId: map<string, usize>
    var endpoints: map<usize, Endpoint>
    var usedFileIds: set<usize>
    /** Every packet written to the scheme file so far, oldest first. */
    var outbox: seq<Notification>

    /** Every endpoint id is in use; every name maps to a live endpoint of that name; every
        buffer length fits in a `usize`. */
    ghost predicate Valid()
      reads this
    {
      && endpoints.Keys <= usedFileIds
      && (forall name :: name in endpointNameToId ==>
            endpointNameToId[name] in endpoints && endpoints[endpointNameToId[name]].name == name)
      && (forall id :: id in endpoints ==> |endpoints[id].buffer| < USIZE_COUNT)
    }

    constructor ()
      ensures Valid()
      ensures endpointNameToId == map[] && endpoints == map[] && usedFileIds == {} && outbox == []
    {
      endpointNameToId, endpoints, usedFileIds, outbox := map[], map[], {}, [];
    }

    /** `fevent` acknowledges any id in use (an endpoint, or an id a failed `open` drew) by
        returning it, and answers `EBADF` to any other. */
    function FEvent(id: usize): (r: Reply)
      reads this
      ensures r == Ok(id) || r == Err(EBADF)
      ensures r.Ok? <==> id in usedFileIds
    {
      if id in usedFileIds then Ok(id) else Err(EBADF)
    }

    /** `fmap` checks, in order: the id is in use (else `EBADF`), the offset is zero (else
        `EINVAL`), the id is an endpoint (else `EBADF`), the size is the buffer's element
        count (else `EINVAL`). On success it returns a handle to the buffer, here the id. */
    function FMap(id: usize, offset: usize, size: usize): (r: Reply)
      reads this
      ensures r.Ok? <==> id in usedFileIds && offset == 0 && id in endpoints && size == |endpoints[id].buffer|
      ensures r.Ok? ==> r.value == id
      ensures r == Err(EBADF) <==> id !in usedFileIds || (offset == 0 && id !in endpoints)
      ensures r == Err(EINVAL) <==>
        id in usedFileIds && (offset != 0 || (id in endpoints && size != |endpoints[id].buffer|))
      ensures r != Panic
    {
      if id !in usedFileIds then Err(EBADF)
      else if offset != 0 then Err(EINVAL)
      else if id in endpoints then
        if size != |endpoints[id].buffer| then Err(EINVAL) else Ok(id)
      else Err(EBADF)
    }

    /** `gen_file_id`: draw an id not in use and mark it used. The random draw is modelled as
        an arbitrary choice among the free ids. */
    method GenFileId() returns (id: usize)
      requires |usedFileIds| < USIZE_COUNT
      modifies this`usedFileIds
      ensures id !in old(usedFileIds) && usedFileIds == old(usedFileIds) + {id}
    {
      FreshIdExists(usedFileIds);
      id :| id !in usedFileIds;
      usedFileIds := usedFileIds + {id};
    }

    /** Write one packet of the given kind and length to each connection, ascending. */
    method NotifyAll(connections: set<usize>, event: Event, len: usize)
      modifies this`outbox
      ensures outbox == old(outbox) + Broadcast(connections, event, len)
    {
      var remaining := connections;
      ghost var done: seq<usize> := [];
      while remaining != {}
        invariant remaining <= connections
        invariant Ascending(connections) == done + Ascending(remaining)
        invariant outbox == old(outbox) + Packets(done, event, len)
        decreases remaining
      {
        var target, rest := PopLeast(remaining);
        outbox := outbox + [Notification(target, event, len)];
        PacketsAppend(done, target, event, len);
        AscendingAdvance(done, remaining, target, rest);
        done := done + [target];
        remaining := rest;
      }
    }

    /** `open`: parse the path, draw an id, then create a sink (read-only) or a source
        (write-only) named by the path, with `buf_sz` zero samples. */
    method Open(path: string, flags: usize) returns (r: Reply)
      requires Valid()
      requires |usedFileIds| < USIZE_COUNT
      modifies this
      ensures Valid()
      ensures outbox == old(outbox)
      // a path whose arguments do not parse is refused before any id is drawn
      ensures !ParsesArgs(path) ==> r == Err(EINVAL) && usedFileIds == old(usedFileIds)
      // past the argument loop exactly one fresh id is drawn, even when `open` then fails
      ensures ParsesArgs(path) ==>
        exists id :: id !in old(usedFileIds) && usedFileIds == old(usedFileIds) + {id}
      ensures r.Ok? <==>
        ParsesArgs(path) && HasCreate(flags) && BufSize(path).Some? && AccessMode(flags) in {O_RDONLY, O_WRONLY}
      ensures !r.Ok? ==>
        r == Err(EINVAL) && endpoints == old(endpoints) && endpointNameToId == old(endpointNameToId)
      ensures r.Ok? ==>
        && r.value !in old(usedFileIds)
        && usedFileIds == old(usedFileIds) + {r.value}
        && endpoints == old(endpoints)[r.value := Endpoint(PathName(path), Zeros(BufSize(path).value), {},
                                                           if AccessMode(flags) == O_RDONLY then Sink({}) else Source)]
        && endpointNameToId == old(endpointNameToId)[PathName(path) := r.value]
    {
      var segment := ArgSegment(path);
      if segment.None? {
        return Err(EINVAL);
      }
      var name := PathName(path);
      var args := ParseArgs(segment.value);
      if args.None? {
        return Err(EINVAL);
      }
      var fileId := GenFileId();
      if HasCreate(flags) {
        if "buf_sz" !in args.value {
          return Err(EINVAL);
        }
        var bufferSize := ParseUsize(args.value["buf_sz"]);
        if bufferSize.None? {
          return Err(EINVAL);
        }
        var endpoint;
        if AccessMode(flags) == O_RDONLY {
          endpoint := Endpoint(name, Zeros(bufferSize.value), {}, Sink({}));
        } else if AccessMode(flags) == O_WRONLY {
          endpoint := Endpoint(name, Zeros(bufferSize.value), {}, Source);
        } else {
          return Err(EINVAL);
        }
        endpoints := endpoints[fileId := endpoint];
        endpointNameToId := endpointNameToId[name := fileId];
      } else {
        return Err(EINVAL);
      }
      return Ok(fileId);
    }

    /** `fsync`: take the endpoint out of the map; for a source, send a read-ready packet to
        each connection; for a sink, mix each input's halved samples into its buffer and send a
        write-ready packet to each connection; put the endpoint back. */
    method Fsync(id: usize) returns (r: Reply)
      requires Valid()
      modifies this
      ensures r != Panic ==> Valid()
      ensures usedFileIds == old(usedFileIds) && endpointNameToId == old(endpointNameToId)
      ensures id !in old(endpoints) ==> r == Err(EBADF) && endpoints == old(endpoints) && outbox == old(outbox)
      ensures id in old(endpoints) && SyncPanics(old(endpoints), id) ==>
        r == Panic && endpoints == old(endpoints) - {id} && outbox == old(outbox)
      ensures id in old(endpoints) && !SyncPanics(old(endpoints), id) ==>
        && r == Ok(0)
        && endpoints == old(endpoints)[id := Synced(old(endpoints), id)]
        && outbox == old(outbox) + Broadcast(old(endpoints)[id].connections,
                                             if old(endpoints)[id].role.Source? then EventRead else EventWrite,
                                             |old(endpoints)[id].buffer|)
    {
      if id !in endpoints {
        return Err(EBADF);
      }
      var endpoint := endpoints[id];
      endpoints := endpoints - {id};
      var event;
      match endpoint.role {
        case Source =>
          event := EventRead;
        case Sink(inputs) =>
          var mixed := MixInputs(endpoint.buffer, inputs, endpoints);
          if mixed.None? {
            return Panic;
          }
          endpoint := endpoint.(buffer := mixed.value);
          event := EventWrite;
      }
      NotifyAll(endpoint.connections, event, |endpoint.buffer|);
      endpoints := endpoints[id := endpoint];
      return Ok(0);
    }

    /** `close`: give the id up; if it names an endpoint, drop the endpoint and its name and
        send a zero-length write-ready packet (end of stream) to each connection. An id in use
        without an endpoint reaches `unreachable!`. */
    method Close(id: usize) returns (r: Reply)
      requires Valid()
      modifies this
      ensures Valid()
      ensures id !in old(usedFileIds) ==>
        && r == Err(EBADF)
        && usedFileIds == old(usedFileIds) && endpoints == old(endpoints)
        && endpointNameToId == old(endpointNameToId) && outbox == old(outbox)
      ensures id in old(usedFileIds) ==> usedFileIds == old(usedFileIds) - {id}
      ensures id in old(usedFileIds) && id !in old(endpoints) ==>
        && r == Panic
        && endpoints == old(endpoints) && endpointNameToId == old(endpointNameToId) && outbox == old(outbox)
      ensures id in old(endpoints) ==>
        && r == Ok(0)
        && endpoints == old(endpoints) - {id}
        && endpointNameToId == old(endpointNameToId) - {old(endpoints)[id].name}
        && outbox == old(outbox) + Broadcast(old(endpoints)[id].connections, EventWrite, 0)
    {
      if id !in usedFileIds {
        return Err(EBADF);
      }
      usedFileIds := usedFileIds - {id};
      if id in endpoints {
        var endpoint := endpoints[id];
        endpoints := endpoints - {id};
        endpointNameToId := endpointNameToId - {endpoint.name};
        NotifyAll(endpoint.connections, EventWrite, 0);
        return Ok(0);
      }
      return Panic;
    }
  }
}

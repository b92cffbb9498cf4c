/** Whole sequences of scheme calls on a freshly started daemon, with the replies each call
    must give. */
module Scenarios {
  import opened Native
  import opened Syscall
  import opened Text
  import opened OpenArgs
  import opened Scheme

  /** The create flags of a sink: `O_CREAT | O_RDONLY`. */
  lemma SinkFlags()
    ensures HasCreate(O_CREAT + O_RDONLY) && AccessMode(O_CREAT + O_RDONLY) == O_RDONLY
    ensures !HasCreate(O_RDONLY)
  {
  }

  /** A sink's life: created, mapped with its own size, polled, synced with no inputs, closed;
      a second close of the same id finds it gone. */
  method SinkLifecycle(name: string, n: usize)
    returns (created: Reply, mapped: Reply, polled: Reply, synced: Reply, closed: Reply, again: Reply)
    requires '?' !in name
    ensures created.Ok?
    ensures mapped == Ok(created.value) && polled == Ok(created.value)
    ensures synced == Ok(0) && closed == Ok(0)
    ensures again == Err(EBADF)
  {
    var scheme := new AudioScheme();
    CreatePathParses(name, n);
    SinkFlags();
    created := scheme.Open(CreatePath(name, n), O_CREAT + O_RDONLY);
    var id := created.value;
    mapped := scheme.FMap(id, 0, n);
    polled := scheme.FEvent(id);
    synced := scheme.Fsync(id);
    closed := scheme.Close(id);
    again := scheme.Close(id);
  }

  /** An `open` whose arguments parse but which does not create still draws an id and keeps
      it: the id answers `fevent`, has no buffer to map, and closing it panics. */
  method LeakedIdLifecycle(name: string, n: usize)
    returns (created: Reply, polled: Reply, mapped: Reply, closed: Reply)
    requires '?' !in name
    ensures created == Err(EINVAL)
    ensures polled.Ok? && mapped == Err(EBADF)
    ensures closed == Panic
  {
    var scheme := new AudioScheme();
    CreatePathParses(name, n);
    SinkFlags();
    created := scheme.Open(CreatePath(name, n), O_RDONLY);
    var id :| id in scheme.usedFileIds;
    polled := scheme.FEvent(id);
    mapped := scheme.FMap(id, 0, n);
    closed := scheme.Close(id);
  }

  /** Two endpoints under one name: the name entry follows the newer one, and closing the
      older one removes that entry while the newer endpoint stays open. */
  method ReusedNameLifecycle(name: string, n: usize)
    returns (first: Reply, second: Reply, closed: Reply, stillOpen: bool, named: bool)
    requires '?' !in name
    ensures first.Ok? && second.Ok? && first.value != second.value
    ensures closed == Ok(0)
    ensures stillOpen && !named
  {
    var scheme := new AudioScheme();
    CreatePathParses(name, n);
    SinkFlags();
    first := scheme.Open(CreatePath(name, n), O_CREAT + O_RDONLY);
    second := scheme.Open(CreatePath(name, n), O_CREAT + O_RDONLY);
    closed := scheme.Close(first.value);
    stillOpen := second.value in scheme.endpoints;
    named := name in scheme.endpointNameToId;
  }

  /** A path with a single `?` is refused and draws no id. */
  method SingleQueryOpen(name: string, n: usize) returns (created: Reply, used: nat)
    requires '?' !in name
    ensures created == Err(EINVAL) && used == 0
  {
    var scheme := new AudioScheme();
    SingleQueryPathRefused(name, n);
    SinkFlags();
    created := scheme.Open(name + "?buf_sz=" + Decimal(n), O_CREAT + O_RDONLY);
    used := |scheme.usedFileIds|;
  }

  /** A create whose `buf_sz` is not a number is refused with `EINVAL`, after its id was
      drawn: the id stays in use and `fevent` accepts it. */
  method BadSizeOpen(name: string) returns (created: Reply, polled: Reply, used: nat)
    requires '?' !in name
    ensures created == Err(EINVAL) && polled.Ok? && used == 1
  {
    var scheme := new AudioScheme();
    UnparsableSizeRefused(name);
    SinkFlags();
    created := scheme.Open(name + "??buf_sz=x", O_CREAT + O_RDONLY);
    used := |scheme.usedFileIds|;
    var id :| id in scheme.usedFileIds;
    polled := scheme.FEvent(id);
  }
}

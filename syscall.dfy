/** The parts of the operating system's scheme protocol that the audio scheme touches:
    error numbers, handler replies, open flags and the event packets the daemon writes back. */
module Syscall {
  import opened Native

  /** The two error numbers the audio scheme returns. */
  datatype Errno = EBADF | EINVAL

  /** What a handler hands back to the dispatcher: a numeric result, an error number, or a
      panic (`unreachable!`, an `unwrap` of nothing, an out-of-bounds index), after which
      the daemon is gone. */
  datatype Reply = Ok(value: usize) | Err(errno: Errno) | Panic

  /** The readiness kind carried by an event packet. */
  datatype Event = EventRead | EventWrite

  /** One `SYS_FEVENT` packet written to the scheme file: the connection it is for, the
      readiness kind, and the length it reports (zero means end of stream). */
  datatype Notification = Notification(target: usize, event: Event, len: usize)

  // Open flags, with the values of the operating system's syscall crate.
  const O_RDONLY: usize := 0x0001_0000
  const O_WRONLY: usize := 0x0002_0000
  const O_RDWR: usize := 0x0003_0000
  const O_CREAT: usize := 0x0200_0000

  /** `flags & O_CREAT == O_CREAT`: bit 25 of the flags is set, that is, the flags' residue
      below bit 26 reaches 2^25. */
  predicate HasCreate(flags: usize)
    ensures HasCreate(flags) <==> flags % (2 * O_CREAT) >= O_CREAT
  {
    var q, low := flags / O_CREAT, flags % O_CREAT;
    assert flags == O_CREAT * q + low;
    assert q == 2 * (q / 2) + q % 2;
    DivModUnique(flags, 2 * O_CREAT, q / 2, q % 2 * O_CREAT + low);
    q % 2 == 1
  }

  /** `flags & O_RDWR`: bits 16 and 17 of the flags, kept in place, with every bit below and
      above them cleared. */
  function AccessMode(flags: usize): (m: usize)
    ensures m == flags % (4 * O_RDONLY) - flags % O_RDONLY
    ensures m == 0 || m == O_RDONLY || m == O_WRONLY || m == O_RDWR
  {
    var q, low := flags / O_RDONLY, flags % O_RDONLY;
    assert flags == O_RDONLY * q + low;
    assert q == 4 * (q / 4) + q % 4;
    DivModUnique(flags, 4 * O_RDONLY, q / 4, q % 4 * O_RDONLY + low);
    q % 4 * O_RDONLY
  }
}

/**
 * The errno values of the macOS <sys/errno.h> that the modelled code compares
 * against (through the jextract-generated constants), and the JDK's IOStatus codes
 * that a channel operation returns instead of a byte count.
 */
module Errno {
  const EPERM: int := 1
  const ENOENT: int := 2
  const ESRCH: int := 3
  const EINTR: int := 4
  const EBADF: int := 9
  const ERANGE: int := 34
  const EAGAIN: int := 35
  /** the same value as EAGAIN on macOS */
  const EWOULDBLOCK: int := 35
  const ENAMETOOLONG: int := 63
}

module IOStatus {
  /** end of file */
  const EOF: int := -1
  /** nothing done, try again later */
  const UNAVAILABLE: int := -2
  /** the system call was interrupted */
  const INTERRUPTED: int := -3
}

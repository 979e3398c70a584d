/** The error numbers the program returns, negated. */
module Errno {
  const ENOENT: int := 2
  const EIO: int := 5
  const EBADF: int := 9
  const EAGAIN: int := 11
  const ENODEV: int := 19
  const EINVAL: int := 22
  const ENOTCONN: int := 128
}

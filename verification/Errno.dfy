/** Error numbers, as the kernel returns them negated. */
module Errno {
  const EPERM: int := 1
  const EIO: int := 5
  const E2BIG: int := 7
  const ENOMEM: int := 12
  const ENODEV: int := 19
  const EINVAL: int := 22
}

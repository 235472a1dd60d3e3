/** The error numbers of the system calls, which answer them negated. */
module Errno {
  const EPERM: int := 1
  const ESRCH: int := 3
  const EAGAIN: int := 11
  const ENOMEM: int := 12
  const EACCES: int := 13
  const EFAULT: int := 14
  const EINVAL: int := 22
}

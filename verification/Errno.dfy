/** The error numbers that the library reports, negated as it reports them. */
module Errno {
  const ENOENT := -2
  const ESRCH := -3
  const EIO := -5
  const ENOMEM := -12
  const EINVAL := -22
  const ENOTSUP := -95
  const EALREADY := -114
}

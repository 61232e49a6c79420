/** The error numbers the modelled calls return, negated. */
module Errno {
  const ENOENT := 2
  const ENOMEM := 12
  const EEXIST := 17
  const EINVAL := 22
  const ERANGE := 34
}

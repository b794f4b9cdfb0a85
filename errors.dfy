/**
 * Error kinds and the result type shared by the whole model.
 *
 * `LinuxError` stands for `axerrno::LinuxError` (the errno values the POSIX
 * layer returns); `AxError` for `axerrno::AxError` (the kernel's own error
 * kinds), of which the mount code names only `InvalidInput`. Only the kinds
 * the modelled code names are listed; every other error the backend may
 * report (`ENOENT`, `EIO`, ...) is `Other(errno)`, which this model does
 * not distinguish further.
 */
module Errors {

  datatype LinuxError =
    | EPERM | EBADF | EFAULT | EINVAL | EMFILE | ERANGE
    | Other(errno: int)

  datatype AxError = InvalidInput

  datatype Result<+T, +E> = Ok(value: T) | Err(error: E)

  datatype Option<+T> = None | Some(value: T)
}

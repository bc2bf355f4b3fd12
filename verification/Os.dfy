/** What the modelled programs share: optional values, Linux's error numbers, and interrupted calls. */
module Os {

  datatype Option<T> = None | Some(value: T)

  type Errno = e: int | 0 < e witness 1

  const EINTR: Errno := 4
  const EIO: Errno := 5
  const ENXIO: Errno := 6
  const EINVAL: Errno := 22
  const EBADMSG: Errno := 74
  const ENOTSUP: Errno := 95
  const EOPNOTSUPP: Errno := 95
  const EINPROGRESS: Errno := 115
  const ECANCELED: Errno := 125

  /** An error that does not make the programs call again. */
  type HardErrno = e: Errno | e != EINTR witness EIO

  /** One call of a function that the programs repeat while it is interrupted. */
  datatype Attempt<T> = Intr | Answered(value: T)

  /** The interruptions come to an end. */
  predicate Settles<T>(attempts: seq<Attempt<T>>) {
    attempts != [] && attempts[|attempts| - 1].Answered?
  }

  /** What the first call that is not interrupted answers. */
  function Answer<T>(attempts: seq<Attempt<T>>): T
    requires Settles(attempts)
  {
    if attempts[0].Answered? then attempts[0].value else Answer(attempts[1..])
  }
}

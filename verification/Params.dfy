/** The compile-time constants the kernel and its file system are built with, and
    what several of its parts share. */
module Params {
  const MAXOPBLOCKS: nat := 10
  const LOGSIZE: nat := 3 * MAXOPBLOCKS
  const PGSIZE: nat := 4096
  /** Unsigned 32-bit arithmetic wraps here. */
  const UINT: nat := 0x1_0000_0000

  datatype Option<T> = None | Some(value: T)

  type byte = x: int | 0 <= x < 256

  /** enum procstate */
  datatype RunState = UNUSED | EMBRYO | SLEEPING | RUNNABLE | RUNNING | ZOMBIE
}

/** The per-process file descriptor table, a field of every PCB. */
module Descriptors {
  const FDT_SIZE := 8

  /** Which pair of read/write routines a slot holds. */
  datatype Driver = Stdin | Stdout | Rtc | Directory | Regular

  datatype Descriptor = Descriptor(driver: Driver, inode: int, position: int, open: bool)

  /** pcb_init: slots 0 and 1 become the terminal, the others are closed and otherwise left stale. */
  function InitFiles(files: seq<Descriptor>): (r: seq<Descriptor>)
    requires |files| == FDT_SIZE
    ensures |r| == FDT_SIZE
  {
    seq(FDT_SIZE, i requires 0 <= i < FDT_SIZE =>
      if i == 0 then files[0].(driver := Stdin, open := true)
      else if i == 1 then files[1].(driver := Stdout, open := true)
      else files[i].(open := false))
  }
}

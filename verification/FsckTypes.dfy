/** What all the passes of fsck share. */
module FsckTypes {

  const MAXDUP := 10          // limits before asking whether to go on
  const MAXBAD := 10
  const DUPTBLSIZE := 100

  /** What a pass says of a block, and whether the program ends. */
  datatype Status = KeepOn | Skip | Stop | Exit

  /** The operator's answer to a question. */
  method Reply() returns (yes: bool) {
    yes := *;
  }

  /** Not a data block of the volume. */
  predicate OutRange(fmin: int, fmax: int, b: int) { b < fmin || b >= fmax }
}

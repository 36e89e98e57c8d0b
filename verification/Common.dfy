/** What several parts share: the sizes of the log (param.h) and a few plain definitions. */
module Common {

  const MAXOPBLOCKS: nat := 10          // blocks an operation may log
  const LOGSIZE: nat := 30              // MAXOPBLOCKS * 3

  datatype Option<T> = None | Some(value: T)

  function Min(a: nat, b: nat): (r: nat) { if a < b then a else b }

  function Max(a: nat, b: nat): (r: nat) { if a < b then b else a }

  ghost predicate NoRepeats(s: seq<nat>) {
    forall i, j | 0 <= i < j < |s| :: s[i] != s[j]
  }
}

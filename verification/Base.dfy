/** Values every module shares. */
module Base {
  datatype Option<+T> = None | Some(value: T)

  /** Milliseconds since the Unix epoch. */
  type Time = int

  /** A GitLab project of one instance. */
  datatype Project = Project(instance: string, id: string)

  function Max(a: int, b: int): int {
    if a >= b then a else b
  }

  function Min(a: int, b: int): int {
    if a <= b then a else b
  }

  function PowerOfTwo(n: nat): (p: nat)
    ensures p > 0
  {
    if n == 0 then 1 else 2 * PowerOfTwo(n - 1)
  }
}

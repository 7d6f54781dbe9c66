/** Small definitions that several components share. */
module Common {

  type Byte = x: int | 0 <= x < 0x100

  datatype Option<+T> = None | Some(value: T)

  /** Callbacks follow scripts: the i-th callback made makes the calls of the i-th
      script, and none when there are no scripts left. */
  function Head<T>(scripts: seq<seq<T>>): seq<T> {
    if scripts == [] then [] else scripts[0]
  }

  function Tail<T>(scripts: seq<seq<T>>): seq<seq<T>> {
    if scripts == [] then [] else scripts[1..]
  }

  function Script<T>(scripts: seq<seq<T>>, i: nat): seq<T> {
    if i < |scripts| then scripts[i] else []
  }
}

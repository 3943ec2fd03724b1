/** Types shared by several models. */
module Common {
  datatype Option<+T> = None | Some(value: T)

  type Byte = x: nat | x < 256

  /** One more than the largest 64-bit word. */
  const MODULUS: nat := 0x1_0000_0000_0000_0000

  type U64 = x: nat | x < MODULUS

  predicate EndsWith(s: string, suffix: string) {
    |suffix| <= |s| && s[|s| - |suffix|..] == suffix
  }

  lemma Associate<T>(a: seq<T>, b: seq<T>, c: seq<T>)
    ensures (a + b) + c == a + (b + c)
  {
  }
}

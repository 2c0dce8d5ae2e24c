/** Byte strings and the few library operations on them that the agent relies on. */
module Bytes {

  type byte = b: int | 0 <= b < 256

  type bytes = seq<byte>

  datatype Option<+T> = None | Some(value: T)

  /** `t` occurs in `s` at offset `i`. */
  predicate At(s: bytes, t: bytes, i: nat) {
    i + |t| <= |s| && s[i..i + |t|] == t
  }

  /** Offset of the first occurrence of `t` in `s` at or after `from`. */
  function Index(s: bytes, t: bytes, from: nat): (r: Option<nat>)
    ensures r.Some? ==> from <= r.value && At(s, t, r.value)
    ensures r.Some? ==> forall j :: from <= j < r.value ==> !At(s, t, j)
    ensures r.None? ==> forall j :: from <= j ==> !At(s, t, j)
    decreases |s| - from
  {
    if from + |t| > |s| then None
    else if At(s, t, from) then Some(from)
    else Index(s, t, from + 1)
  }

  /** Go's bytes.Replace(s, t, v, 1). */
  function ReplaceFirst(s: bytes, t: bytes, v: bytes): (r: bytes) {
    match Index(s, t, 0)
    case None => s
    case Some(i) => s[..i] + v + s[i + |t|..]
  }

  function TrimPrefix(s: bytes, p: bytes): (r: bytes) {
    if p <= s then s[|p|..] else s
  }
}

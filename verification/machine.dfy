/** Words, bytes and the option type that every component of the model shares. */
module Machine {
  const U16: nat := 0x1_0000
  const U32: nat := 0x1_0000_0000
  const U64: nat := 0x1_0000_0000_0000_0000

  newtype byte = b: int | 0 <= b < 256

  datatype Option<+T> = None | Some(value: T)

  lemma SliceOfSlice<T>(s: seq<T>, a: nat, n: nat, off: nat, m: nat)
    requires a + n <= |s| && off + m <= n
    ensures s[a..a+n][off..off+m] == s[a+off..a+off+m]
  {
    var t := s[a..a+n];
    var u := t[off..off+m];
    assert forall k :: 0 <= k < m ==> u[k] == t[off+k] == s[a+off+k];
  }
}

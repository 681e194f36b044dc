/** What several components use. */
module Common {
  datatype Option<T> = None | Some(value: T)

  const WRAP: nat := 0x1_0000_0000_0000_0000   // behind the largest 64-bit word

  type Octet = b: nat | b < 256

  ghost predicate Distinct(s: seq<nat>) {
    forall i, j :: 0 <= i < j < |s| ==> s[i] != s[j]
  }
}

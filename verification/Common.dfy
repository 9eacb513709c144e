/** Types shared by the components. */
module Common {

  datatype Option<+T> = None | Some(value: T)

  /** A slot address: slab index and offset inside the slab. */
  datatype SlabId = SlabId(slab: nat, offset: nat)

  const NULL_ID := SlabId(0, 0)

  predicate Less(a: SlabId, b: SlabId) {
    a.slab < b.slab || (a.slab == b.slab && a.offset < b.offset)
  }

  /** An unsigned char. */
  type Byte = n: int | 0 <= n < 256

  predicate IsDigit(c: char) { '0' <= c <= '9' }

  /** No element occurs twice. */
  ghost predicate Distinct<A>(s: seq<A>) { forall i, j | 0 <= i < j < |s| :: s[i] != s[j] }
}

/** Value types shared by every component of the storage engine. */
module Types {

  const TWO_TO_16 := 0x1_0000
  const TWO_TO_32 := 0x1_0000_0000
  const TWO_TO_64 := 0x1_0000_0000_0000_0000

  /** The bytes of one page of the data file. */
  const PAGE_SIZE := 4096

  /** The largest value a client may store. */
  const MAX_VALUE_SIZE := 0x20_0000

  type uint64 = n: nat | n < TWO_TO_64
  type byte = n: nat | n < 256

  type Key = int
  type PageId = int
  type Bytes = seq<byte>

  /** Page 0 holds the database metadata, so it never names a node or a data page. */
  const META_PAGE: PageId := 0

  /** A record identifier: one slot of one slotted page. */
  datatype RID = RID(pageID: PageId, slotID: nat)

  datatype Option<+T> = None | Some(value: T)

  function Max(a: nat, b: nat): nat {
    if a < b then b else a
  }

  function Power2(n: nat): nat {
    if n == 0 then 1 else 2 * Power2(n - 1)
  }

  /** How many steps round a circle of n places lead from place h to place i. */
  function Distance(h: nat, i: nat, n: nat): int
    requires h < n && i < n
  {
    if i >= h then i - h else i - h + n
  }

  lemma SomeMember<T>(s: set<T>)
    ensures s == {} || exists x :: x in s
  {
    if forall x :: x !in s { assert s == {}; }
  }

  /** A set, or the keys of a map, visited in no particular order. */
  method AnyOf<T(==)>(s: set<T>) returns (x: T)
    requires s != {}
    ensures x in s
  {
    SomeMember(s);
    x :| x in s;
  }
}

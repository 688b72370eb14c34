/** Tables whose keys are 32-bit numbers. Source: `int_cmp` and `int_hash_func` in inc/hash_map.h. */
module IntKeys {
  import H = HashMap

  /** `unsigned int` */
  type UInt32 = n: nat | n < 0x1_0000_0000

  /** `int_cmp`: an unsigned difference, returned as an `int`. */
  function IntCmp(l: UInt32, r: UInt32): int {
    var d := (l - r) % 0x1_0000_0000;
    if d < 0x8000_0000 then d else d - 0x1_0000_0000
  }

  /** The mixing steps of `int_hash_func` */
  function Mix(key: UInt32): nat {
    var a := key as bv32;
    var a := (a ^ 61) ^ (a >> 16);
    var a := a + (a << 3);
    var a := a ^ (a >> 4);
    var a := a * 0x27d4eb2d;
    var a := a ^ (a >> 15);
    a as nat
  }

  function IntHash(key: UInt32, capacity: nat): nat {
    if capacity == 0 then 0 else Mix(key) % capacity
  }

  ghost function SlotOf(c: int, capacity: nat): nat {
    if 0 <= c < 0x1_0000_0000 then IntHash(c, capacity) else 0
  }

  function UIntKeys(): H.Keys<UInt32> {
    H.Keys((l: UInt32, r: UInt32) => IntCmp(l, r), (k: UInt32, n) => IntHash(k, n), (k: UInt32) => k, (c, n) => SlotOf(c, n))
  }

  /** The comparator is equality although the difference wraps around, so these tables are finite maps. */
  lemma IntsAreConsistent()
    ensures UIntKeys().Consistent()
  {
    hide Mix;
    forall l: UInt32, r: UInt32
      ensures IntCmp(l, r) == 0 <==> l == r
    {
      CmpIsEquality(l, r);
    }
  }

  lemma CmpIsEquality(l: UInt32, r: UInt32)
    ensures IntCmp(l, r) == 0 <==> l == r
  {
    if l >= r {
      assert (l - r) % 0x1_0000_0000 == l - r;
    } else {
      assert (l - r) % 0x1_0000_0000 == l - r + 0x1_0000_0000;
    }
  }

  /** Keys that differ by one are spread over a table of 64 buckets. */
  lemma HashesAre()
    ensures Mix(0) == 3232319850 && Mix(1) == 663891101 && Mix(2) == 3329832309 && Mix(0xffff_ffff) == 1895078355
    ensures IntHash(0, 64) == 42 && IntHash(1, 64) == 29 && IntHash(2, 64) == 53
  {
  }
}

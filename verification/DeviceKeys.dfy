/** The comparator of the device table is a prefix test: why it is good enough for device identifiers, and for
    no less. Source: `str_cmp` in inc/hash_map.h, `get_dev_oid` in src/dev.c. */
module DeviceKeys {
  import H = HashMap

  predicate IsCString(s: string) {
    forall i :: 0 <= i < |s| ==> s[i] != '\0'
  }

  /** `strncmp(l, r, strlen(l))`: a string that ends has a zero there. */
  function StrCmp(l: string, r: string): int {
    if l == "" then 0
    else if r == "" then l[0] as int
    else if l[0] != r[0] then l[0] as int - r[0] as int
    else StrCmp(l[1..], r[1..])
  }

  /** The comparator accepts exactly the strings that the stored key is a prefix of. */
  lemma {:induction false} StrCmpIsPrefixTest(l: string, r: string)
    requires IsCString(l)
    ensures StrCmp(l, r) == 0 <==> l <= r
    decreases |l|
  {
    if l != "" && r != "" && l[0] == r[0] {
      StrCmpIsPrefixTest(l[1..], r[1..]);
      assert l == [l[0]] + l[1..] && r == [r[0]] + r[1..];
    }
  }

  /** So it is equality on a set of keys exactly when no key is a proper prefix of another. */
  lemma StrCmpIsEqualityIff(keys: set<string>)
    requires forall k :: k in keys ==> IsCString(k)
    ensures (forall l, r :: l in keys && r in keys ==> (StrCmp(l, r) == 0 <==> l == r)) <==>
      (forall l, r :: l in keys && r in keys ==> !(l < r))
  {
    forall l, r | l in keys && r in keys
      ensures (StrCmp(l, r) == 0 <==> l == r) <==> !(l < r)
    {
      StrCmpIsPrefixTest(l, r);
    }
  }

  /** Over all strings it is no comparator of a table, whatever the classes are taken to be. */
  lemma AnyStringIsTooMuch(keys: H.Keys<string>)
    requires forall l, r :: keys.cmp(l, r) == StrCmp(l, r)
    ensures !keys.Consistent()
  {
    StrCmpIsPrefixTest("a", "ab");
    StrCmpIsPrefixTest("ab", "a");
    assert keys.cmp("a", "ab") == 0 && keys.cmp("ab", "a") != 0;
  }

  // ----- device identifiers -----

  predicate IsHex(c: char) {
    '0' <= c <= '9' || 'a' <= c <= 'f'
  }

  /** What `get_dev_oid` makes: the 32 hexadecimal digits of a digest. */
  type Oid = s: string | |s| == 32 && forall i :: 0 <= i < |s| ==> IsHex(s[i]) witness seq(32, _ => '0')

  /** A number for every string, different for different strings of one length. */
  ghost function Number(s: string): nat {
    if s == "" then 0 else Number(s[1..]) * 0x11_0000 + s[0] as int
  }

  lemma {:induction false} NumberIsInjective(l: string, r: string)
    requires |l| == |r| && Number(l) == Number(r)
    ensures l == r
    decreases |l|
  {
    if l != "" {
      var m, n := Number(l[1..]), Number(r[1..]);
      assert m * 0x11_0000 + l[0] as int == n * 0x11_0000 + r[0] as int;
      assert l[0] == r[0] && m == n;
      NumberIsInjective(l[1..], r[1..]);
      assert l == [l[0]] + l[1..] && r == [r[0]] + r[1..];
    }
  }

  /** The slot of a number is that of the identifier it belongs to. */
  ghost function SlotOf(hash: (Oid, nat) -> nat, c: int, n: nat): nat {
    if exists s: Oid :: Number(s) == c then
      var s: Oid :| Number(s) == c;
      hash(s, n)
    else 0
  }

  ghost function OidKeys(hash: (Oid, nat) -> nat): H.Keys<Oid> {
    H.Keys((l: Oid, r: Oid) => StrCmp(l, r), hash, (s: Oid) => Number(s), (c, n) => SlotOf(hash, c, n))
  }

  /** On identifiers the comparator and any hash function that stays in range make a table of the kind that
      behaves as a finite map. */
  lemma OidsAreConsistent(hash: (Oid, nat) -> nat)
    requires forall s: Oid, n: nat :: n > 0 ==> hash(s, n) < n
    ensures OidKeys(hash).Consistent()
  {
    forall l: Oid, r: Oid
      ensures StrCmp(l, r) == 0 <==> Number(l) == Number(r)
    {
      StrCmpIsPrefixTest(l, r);
      assert l <= r ==> l == r[..|l|] && r[..|l|] == r;
      if Number(l) == Number(r) {
        NumberIsInjective(l, r);
      }
    }
    forall s: Oid, n: nat
      ensures SlotOf(hash, Number(s), n) == hash(s, n)
    {
      var t: Oid :| Number(t) == Number(s) && SlotOf(hash, Number(s), n) == hash(t, n);
      NumberIsInjective(t, s);
    }
  }
}

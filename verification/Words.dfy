// Machine words, saturating sums and prefixes, shared by the models.

module Words {

  type Byte = b: int | 0 <= b < 0x100

  /** A UTF-16 code unit. */
  type Unit = u: int | 0 <= u < 0x1_0000

  const U64_MAX: nat := 0xFFFF_FFFF_FFFF_FFFF

  function Sat(n: nat): nat { if n <= U64_MAX then n else U64_MAX }

  /** `u64::saturating_add`. */
  function SaturatingAdd(a: nat, b: nat): nat { Sat(a + b) }

  /** The longest prefix without any of `stops`. */
  function UpTo<T(==)>(s: seq<T>, stops: set<T>): (r: seq<T>)
    ensures r <= s && (forall u :: u in r ==> u !in stops) && (|r| < |s| ==> s[|r|] in stops)
  {
    if s == [] || s[0] in stops then [] else [s[0]] + UpTo(s[1..], stops)
  }
}

/**
 Subnet masks: the validity test, the conversion to a prefix length, and what
 both mean for matching addresses (prefix notation, section 3.1 of RFC 4632).
 */
module SubnetMask {
  import opened Wrappers
  import opened JsText

  // ----- binary arithmetic -----

  /** Bitwise conjunction of two naturals. */
  function BitAnd(a: nat, b: nat): nat {
    if a == 0 || b == 0 then 0 else (if a % 2 == b % 2 == 1 then 1 else 0) + 2 * BitAnd(a / 2, b / 2)
  }

  /** Drops the `k` low bits. */
  function DropBits(a: nat, k: nat): nat {
    if k == 0 then a else DropBits(a / 2, k - 1)
  }

  function SetBits(n: nat): nat {
    if n == 0 then 0 else n % 2 + SetBits(n / 2)
  }

  method CountSetBits(n: nat) returns (count: nat)
    ensures count == SetBits(n)
  {
    count := 0;
    var num := n;
    while num > 0
      invariant count + SetBits(num) == SetBits(n)
    {
      count := count + num % 2;
      num := num / 2;
    }
  }

  /** The number written with `p` ones followed by `width - p` zeros. */
  function Ones(width: nat, p: nat): nat
    requires p <= width
  {
    if width == 0 then 0
    else if p < width then 2 * Ones(width - 1, p)
    else 2 * Ones(width - 1, p - 1) + 1
  }

  function Pow2(n: nat): nat {
    if n == 0 then 1 else 2 * Pow2(n - 1)
  }

  /** `p` leading ones are 2^width - 2^(width - p). */
  lemma {:induction false} OnesClosedForm(width: nat, p: nat)
    requires p <= width
    ensures Ones(width, p) + Pow2(width - p) == Pow2(width)
  {
    if width > 0 {
      OnesClosedForm(width - 1, if p < width then p else p - 1);
    }
  }

  lemma {:induction false} SetBitsOfOnes(width: nat, p: nat)
    requires p <= width
    ensures SetBits(Ones(width, p)) == p
  {
    if width > 0 {
      SetBitsOfOnes(width - 1, if p < width then p else p - 1);
    }
  }

  lemma OnesInjective(width: nat, p: nat, q: nat)
    requires p <= width && q <= width && Ones(width, p) == Ones(width, q)
    ensures p == q
  {
    SetBitsOfOnes(width, p);
    SetBitsOfOnes(width, q);
  }

  lemma BitAndStep(a: nat, b: nat)
    ensures BitAnd(a, b) == (if a % 2 == b % 2 == 1 then 1 else 0) + 2 * BitAnd(a / 2, b / 2)
  {
  }

  /** Two addresses agree under a mask of `p` leading ones iff their first `p` bits agree. */
  lemma {:induction false} MaskedEqualIffPrefixEqual(a: nat, b: nat, width: nat, p: nat)
    requires p <= width && a < Pow2(width) && b < Pow2(width)
    ensures BitAnd(a, Ones(width, p)) == BitAnd(b, Ones(width, p))
       <==> DropBits(a, width - p) == DropBits(b, width - p)
  {
    if width > 0 {
      var q := if p < width then p else p - 1;
      BitAndStep(a, Ones(width, p));
      BitAndStep(b, Ones(width, p));
      MaskedEqualIffPrefixEqual(a / 2, b / 2, width - 1, q);
    }
  }

  /** The number with bit `k` flipped. */
  function FlipBit(a: nat, k: nat): nat {
    if k > 0 then 2 * FlipBit(a / 2, k - 1) + a % 2
    else if a % 2 == 0 then a + 1 else a - 1
  }

  /** Flipping bit `k` shows exactly while that bit is not dropped. */
  lemma {:induction false} FlipShows(a: nat, k: nat, j: nat)
    ensures DropBits(FlipBit(a, k), j) == DropBits(a, j) <==> j > k
  {
    if k == 0 {
      if j > 0 { assert FlipBit(a, 0) / 2 == a / 2; }
    } else if j > 0 {
      assert FlipBit(a, k) / 2 == FlipBit(a / 2, k - 1);
      FlipShows(a / 2, k - 1, j - 1);
    } else {
      FlipShows(a / 2, k - 1, 0);
    }
  }

  lemma {:induction false} FlipInRange(a: nat, k: nat, n: nat)
    requires k < n && a < Pow2(n)
    ensures FlipBit(a, k) < Pow2(n)
  {
    var half := Pow2(n - 1);
    assert Pow2(n) == 2 * half;
    hide Pow2;
    var q, r := a / 2, a % 2;
    assert a == 2 * q + r && q < half;
    if k > 0 {
      FlipInRange(q, k - 1, n - 1);
      assert FlipBit(a, k) == 2 * FlipBit(q, k - 1) + r;
    } else {
      assert FlipBit(a, 0) == 2 * q + (1 - r);
    }
  }

  /** Numbers that agree without the `j` low bits agree without more of them. */
  lemma {:induction false} DropMore(a: nat, b: nat, j: nat, k: nat)
    requires j <= k && DropBits(a, j) == DropBits(b, j)
    ensures DropBits(a, k) == DropBits(b, k)
  {
    if j > 0 {
      DropMore(a / 2, b / 2, j - 1, k - 1);
    }
  }

  // ----- octets -----

  /** The big-endian number that octets spell. */
  function BigEndian(os: seq<nat>): nat {
    if os == [] then 0 else 256 * BigEndian(os[..|os| - 1]) + os[|os| - 1]
  }

  function BitTotal(os: seq<nat>): nat {
    if os == [] then 0 else BitTotal(os[..|os| - 1]) + SetBits(os[|os| - 1])
  }

  predicate InRange(os: seq<nat>) {
    forall i :: 0 <= i < |os| ==> os[i] <= 255
  }

  function Shift(x: nat, k: nat): nat {
    if k == 0 then x else 2 * Shift(x, k - 1)
  }

  function Upper(width: nat, p: nat): nat {
    if p < width then p else width
  }

  function Lower(width: nat, p: nat): nat {
    if p < width then 0 else p - width
  }

  lemma {:induction false} OnesAppend(width: nat, k: nat, p: nat)
    requires p <= width + k
    ensures Ones(width + k, p) == Shift(Ones(width, Upper(width, p)), k) + Ones(k, Lower(width, p))
  {
    if k > 0 {
      OnesAppend(width, k - 1, if p < width + k then p else p - 1);
    }
  }

  lemma OnesOctet(r: nat)
    requires r <= 8
    ensures Ones(8, r) == [0, 128, 192, 224, 240, 248, 252, 254, 255][r]
  {
    OnesClosedForm(8, r);
    assert Pow2(0) == 1 && Pow2(1) == 2 && Pow2(2) == 4 && Pow2(3) == 8 && Pow2(4) == 16;
    assert Pow2(5) == 32 && Pow2(6) == 64 && Pow2(7) == 128 && Pow2(8) == 256;
  }

  lemma ShiftOctet(x: nat)
    ensures Shift(x, 8) == 256 * x
  {
    assert Shift(x, 1) == 2 * x;
    assert Shift(x, 2) == 4 * x;
    assert Shift(x, 3) == 8 * x;
    assert Shift(x, 4) == 16 * x;
    assert Shift(x, 5) == 32 * x;
    assert Shift(x, 6) == 64 * x;
    assert Shift(x, 7) == 128 * x;
  }

  /** Appending an octet to a mask prefix: the result is a mask iff both parts fit. */
  lemma OnesOneMoreOctet(v: nat, o: nat, width: nat, p: nat)
    requires o <= 255 && p <= width + 8
    ensures 256 * v + o == Ones(width + 8, p)
       <==> v == Ones(width, Upper(width, p)) && o == Ones(8, Lower(width, p))
  {
    OnesAppend(width, 8, p);
    OnesOctet(Lower(width, p));
    ShiftOctet(Ones(width, Upper(width, p)));
  }

  /** Every prefix of a mask of leading ones is one. */
  lemma {:induction false} PrefixOfMask(os: seq<nat>, n: nat, p: nat)
    requires InRange(os) && n <= |os| && p <= 8 * |os|
    requires BigEndian(os) == Ones(8 * |os|, p)
    ensures BigEndian(os[..n]) == Ones(8 * n, Upper(8 * n, p))
  {
    if n == |os| {
      assert os[..n] == os;
    } else {
      var init := os[..|os| - 1];
      var width := 8 * |init|;
      OnesOneMoreOctet(BigEndian(init), os[|os| - 1], width, p);
      PrefixOfMask(init, n, Upper(width, p));
      assert init[..n] == os[..n];
    }
  }

  /** The octets of a mask of `p` leading ones have `p` bits set in all. */
  lemma {:induction false} MaskBits(os: seq<nat>, p: nat)
    requires InRange(os) && p <= 8 * |os|
    requires BigEndian(os) == Ones(8 * |os|, p)
    ensures BitTotal(os) == p
  {
    if os != [] {
      var init := os[..|os| - 1];
      var width := 8 * |init|;
      OnesOneMoreOctet(BigEndian(init), os[|os| - 1], width, p);
      MaskBits(init, Upper(width, p));
      SetBitsOfOnes(8, Lower(width, p));
    }
  }

  // ----- masks as text -----

  predicate IsOctet(n: Option<int>) {
    n.Some? && 0 <= n.value <= 255
  }

  /** The octets of a dotted mask: four fields that `parseInt` reads as 0 to 255. */
  function DottedOctets(mask: string): (r: Option<seq<nat>>)
    ensures r.Some? ==> |r.value| == 4 && InRange(r.value)
  {
    var parts := Split(mask, '.');
    if '.' in mask && |parts| == 4 && forall i :: 0 <= i < 4 ==> IsOctet(ParseInt(parts[i])) then
      Some(seq(4, i requires 0 <= i < 4 => ParseInt(parts[i]).value))
    else None
  }

  /** A mask written as a prefix length, "0" to "32". */
  function PrefixLength(mask: string): (r: Option<nat>)
    ensures r.Some? ==> r.value <= 32 && mask == Digits(r.value)
  {
    var n := ParseInt(mask);
    if n.Some? && 0 <= n.value <= 32 && mask == Digits(n.value) then Some(n.value) else None
  }

  /** The 32-bit number a mask stands for. */
  function MaskNumber(mask: string): Option<nat> {
    if PrefixLength(mask).Some? then Some(Ones(32, PrefixLength(mask).value))
    else if DottedOctets(mask).Some? then Some(BigEndian(DottedOctets(mask).value))
    else None
  }

  /** The mask is `p` ones followed by zeros. */
  predicate IsPrefixMask(mask: string, p: nat) {
    p <= 32 && MaskNumber(mask) == Some(Ones(32, p))
  }

  /** The first `i` octets are `p` ones followed by zeros. */
  predicate OnesSoFar(os: seq<nat>, i: nat, p: nat)
    requires i <= |os|
  {
    p <= 8 * i && BigEndian(os[..i]) == Ones(8 * i, p)
  }

  lemma OneMoreOctet(os: seq<nat>, i: nat, p: nat)
    requires InRange(os) && i < |os| && p <= 8 * i + 8
    ensures OnesSoFar(os, i + 1, p)
       <==> OnesSoFar(os, i, Upper(8 * i, p)) && os[i] == Ones(8, Lower(8 * i, p))
  {
    var front := os[..i + 1];
    assert front[..|front| - 1] == os[..i];
    var width := 8 * i;
    assert width + 8 == 8 * (i + 1);
    OnesOneMoreOctet(BigEndian(os[..i]), os[i], width, p);
  }

  /** The octet after `p` ones in any mask whose octets start this way. */
  lemma NextOctet(os: seq<nat>, i: nat, p: nat, q: nat) returns (r: nat)
    requires InRange(os) && i < |os| && OnesSoFar(os, i, p) && OnesSoFar(os, |os|, q)
    ensures r <= 8 && os[i] == Ones(8, r) && (p < 8 * i ==> r == 0)
  {
    assert os[..|os|] == os;
    var u := Upper(8 * i + 8, q);
    PrefixOfMask(os, i + 1, q);
    assert OnesSoFar(os, i + 1, u);
    OneMoreOctet(os, i, u);
    OnesInjective(8 * i, p, Upper(8 * i, u));
    r := Lower(8 * i, u);
  }

  const TransitionOctets: seq<nat> := [0, 128, 192, 224, 240, 248, 252, 254, 255]

  lemma NextOctetOfAny(os: seq<nat>, i: nat, p: nat)
    requires InRange(os) && i < |os| && OnesSoFar(os, i, p)
    requires exists q :: OnesSoFar(os, |os|, q)
    ensures os[i] == 255 || os[i] in TransitionOctets
    ensures p < 8 * i ==> os[i] == 0
  {
    var q :| OnesSoFar(os, |os|, q);
    var r := NextOctet(os, i, p, q);
    OnesOctet(r);
    assert os[i] == TransitionOctets[r];
  }

  lemma AppendOctet(os: seq<nat>, i: nat, p: nat) returns (q: nat)
    requires InRange(os) && i < |os| && OnesSoFar(os, i, p)
    requires if p < 8 * i then os[i] == 0 else os[i] == 255 || os[i] in TransitionOctets
    ensures OnesSoFar(os, i + 1, q)
    ensures q < 8 * i + 8 <==> p < 8 * i || os[i] != 255
  {
    var r := 0;
    if p < 8 * i {
      OnesOctet(0);
    } else if os[i] == 255 {
      OnesOctet(8);
      r := 8;
    } else {
      r :| 0 <= r < 9 && TransitionOctets[r] == os[i];
      OnesOctet(r);
    }
    q := p + r;
    OneMoreOctet(os, i, q);
  }

  /** The scan over the octets: 255s, at most one transition octet, then zeros. */
  method IsContiguous(octets: seq<nat>) returns (ok: bool)
    requires InRange(octets)
    ensures ok <==> exists q :: OnesSoFar(octets, |octets|, q)
  {
    var foundZero := false;
    ghost var p: nat := 0;
    for i := 0 to |octets|
      invariant OnesSoFar(octets, i, p) && (foundZero <==> p < 8 * i)
    {
      var octet := octets[i];
      if exists q :: OnesSoFar(octets, |octets|, q) {
        NextOctetOfAny(octets, i, p);
      }
      if foundZero {
        if octet != 0 {
          return false;
        }
      } else if octet == 255 {
      } else if octet in TransitionOctets {
        foundZero := true;
      } else {
        return false;
      }
      p := AppendOctet(octets, i, p);
    }
    assert OnesSoFar(octets, |octets|, p);
    return true;
  }

  /** Accepts "0" to "32" and the dotted masks made of leading ones, and nothing else. */
  method IsValidSubnetMask(mask: string) returns (valid: bool)
    ensures valid <==> exists p :: IsPrefixMask(mask, p)
  {
    if PrefixLength(mask).Some? {
      assert IsPrefixMask(mask, PrefixLength(mask).value);
      return true;
    }
    var parsed := DottedOctets(mask);
    if parsed.None? {
      return false;
    }
    valid := IsContiguous(parsed.value);
    assert parsed.value[..4] == parsed.value;
    assert forall q :: IsPrefixMask(mask, q) <==> OnesSoFar(parsed.value, 4, q);
  }

  /** What `maskToCidr` returns. */
  function CidrOf(mask: string): Result<string, string> {
    if PrefixLength(mask).Some? then Ok(mask)
    else if DottedOctets(mask).Some? then Ok(Digits(BitTotal(DottedOctets(mask).value)))
    else Err("Invalid subnet mask format")
  }

  /** For a mask of `p` leading ones the conversion prints `p`, whichever way it was written. */
  lemma CidrIsPrefixLength(mask: string, p: nat)
    requires IsPrefixMask(mask, p)
    ensures CidrOf(mask) == Ok(Digits(p))
  {
    if PrefixLength(mask).Some? {
      OnesInjective(32, p, PrefixLength(mask).value);
    } else {
      MaskBits(DottedOctets(mask).value, p);
    }
  }

  method MaskToCidr(mask: string) returns (cidr: Result<string, string>)
    ensures cidr == CidrOf(mask)
    ensures forall p :: IsPrefixMask(mask, p) ==> cidr == Ok(Digits(p))
    ensures cidr.Err? <==> MaskNumber(mask).None?
  {
    forall p | IsPrefixMask(mask, p) ensures CidrOf(mask) == Ok(Digits(p)) {
      CidrIsPrefixLength(mask, p);
    }
    if PrefixLength(mask).Some? {
      return Ok(mask);
    }
    var octets := DottedOctets(mask);
    if octets.Some? {
      var bits := 0;
      for i := 0 to 4
        invariant bits == BitTotal(octets.value[..i])
      {
        assert octets.value[..i + 1][..i] == octets.value[..i];
        var n := CountSetBits(octets.value[i]);
        bits := bits + n;
      }
      assert octets.value[..4] == octets.value;
      return Ok(Digits(bits));
    }
    return Err("Invalid subnet mask format");
  }
}

/** Checks of an address, a netmask and a gateway.  A byte is a number below 256 and
    an `unsigned int` a number below 2^32; their bitwise `and` is taken digit by
    digit. */
module NetParm {
  import opened CTypes

  function And(a: nat, b: nat): (r: nat)
    ensures r <= a && r <= b
  {
    if a == 0 || b == 0 then 0
    else 2 * And(a / 2, b / 2) + if a % 2 == 1 && b % 2 == 1 then 1 else 0
  }

  function Pow2(k: nat): (p: nat)
    ensures p > 0
  {
    if k == 0 then 1 else 2 * Pow2(k - 1)
  }

  function Bit(x: nat, i: nat): nat {
    if i == 0 then x % 2 else Bit(x / 2, i - 1)
  }

  // ---------------------------------------------------------------- the bit trick

  lemma {:induction false} AndSelf(a: nat)
    ensures And(a, a) == a
  {
    if a > 0 {
      AndSelf(a / 2);
    }
  }

  /** Each bit is the two bits' product. */
  lemma {:induction false} AndBits(a: nat, b: nat, i: nat)
    ensures Bit(And(a, b), i) == if Bit(a, i) == 1 && Bit(b, i) == 1 then 1 else 0
    decreases i
  {
    AndHalf(a, b);
    if i > 0 {
      AndBits(a / 2, b / 2, i - 1);
    }
  }

  lemma AndHalf(a: nat, b: nat)
    ensures And(a, b) / 2 == And(a / 2, b / 2)
    ensures And(a, b) % 2 == if a % 2 == 1 && b % 2 == 1 then 1 else 0
  {
  }

  predicate IsPow2(b: nat) {
    b == 1 || (b > 0 && b % 2 == 0 && IsPow2(b / 2))
  }

  lemma {:induction false} Pow2IsPow2(k: nat)
    ensures IsPow2(Pow2(k))
  {
    if k > 0 {
      Pow2IsPow2(k - 1);
      assert Pow2(k) / 2 == Pow2(k - 1);
    }
  }

  lemma {:induction false} IsPow2Exponent(b: nat) returns (k: nat)
    requires IsPow2(b)
    ensures b == Pow2(k)
  {
    if b == 1 {
      k := 0;
    } else {
      k := IsPow2Exponent(b / 2);
      k := k + 1;
    }
  }

  /** `b & (b - 1)` is zero exactly for zero and the powers of two. */
  lemma {:induction false} ClearLowest(b: nat)
    requires b > 0
    ensures And(b, b - 1) == 0 <==> IsPow2(b)
  {
    if b % 2 == 1 {
      assert (b - 1) / 2 == b / 2;
      AndSelf(b / 2);
    } else {
      ClearLowest(b / 2);
      assert (b - 1) / 2 == b / 2 - 1;
    }
  }

  lemma {:induction false} Pow2Monotone(j: nat, k: nat)
    requires j <= k
    ensures Pow2(j) <= Pow2(k)
    ensures j < k ==> 2 * Pow2(j) <= Pow2(k)
  {
    if j < k {
      Pow2Monotone(j, k - 1);
    }
  }

  lemma Pow2Of32()
    ensures Pow2(32) == WORD
  {
    assert Pow2(8) == 256 by {
      assert Pow2(4) == 16;
    }
    assert Pow2(12) == 4096 && Pow2(16) == 0x1_0000;
    assert Pow2(20) == 0x10_0000 && Pow2(24) == 0x100_0000 && Pow2(28) == 0x1000_0000;
  }

  // ------------------------------------------------------------ prefix masks

  function MaskValue(m: seq<Byte>): (v: nat)
    requires |m| == 4
    ensures v < WORD
  {
    (m[0] as int) * 0x100_0000 + (m[1] as int) * 0x1_0000 + (m[2] as int) * 0x100 + m[3]
  }

  /** A contiguous prefix: ones down to bit `k`, zeros below it. */
  predicate IsPrefix(v: nat) {
    exists k | 0 <= k <= 32 :: v == WORD - Pow2(k)
  }

  /** `is_valid_netmask`: the bytes are summed up, negated with wrap-around, and the
      result is tested for at most one bit. */
  method IsValidNetmask(m: array<Byte>) returns (valid: bool)
    requires m.Length == 4
    ensures valid <==> IsPrefix(MaskValue(m[..]))
  {
    var n: seq<int> := [m[3], m[2], m[1], m[0]];
    var b, shift := 0, 1;
    for i := 0 to 4
      invariant shift == [1, 0x100, 0x1_0000, 0x100_0000, WORD][i]
      invariant b == [0, n[0], n[1] * 0x100 + n[0], n[2] * 0x1_0000 + n[1] * 0x100 + n[0], MaskValue(m[..])][i]
    {
      b := (b + n[i] * shift) % WORD;
      shift := shift * 256;
    }
    b := (WORD - 1 - b + 1) % WORD;
    valid := And(b, if b == 0 then WORD - 1 else b - 1) == 0;
    NegatedPrefix(MaskValue(m[..]));
  }

  lemma NegatedPrefix(v: nat)
    requires v < WORD
    ensures var b := (WORD - v) % WORD;
            IsPrefix(v) <==> And(b, if b == 0 then WORD - 1 else b - 1) == 0
  {
    hide And, Pow2, IsPow2;
    Pow2Of32();
    if v == 0 {
      AndZero(WORD - 1);
      assert WORD - v == Pow2(32);
    } else {
      var b := WORD - v;
      ClearLowest(b);
      if IsPow2(b) {
        var k := IsPow2Exponent(b);
        if k > 32 {
          Pow2Monotone(32, k);
        }
        assert v == WORD - Pow2(k);
      }
      if k :| 0 <= k <= 32 && v == WORD - Pow2(k) {
        Pow2IsPow2(k);
      }
    }
  }

  lemma AndZero(x: nat)
    ensures And(0, x) == 0
  {
  }

  lemma {:induction false} BitOfPow2(k: nat, x: nat, i: nat)
    ensures Bit(Pow2(k) * x, i) == if i < k then 0 else Bit(x, i - k)
  {
    if k > 0 {
      assert Pow2(k) * x == 2 * (Pow2(k - 1) * x);
      if i > 0 {
        BitOfPow2(k - 1, x, i - 1);
      }
    }
  }

  lemma {:induction false} BitOfOnes(n: nat, i: nat)
    ensures Bit(Pow2(n) - 1, i) == if i < n then 1 else 0
  {
    if n > 0 {
      assert Pow2(n) - 1 == 2 * (Pow2(n - 1) - 1) + 1;
      if i > 0 {
        BitOfOnes(n - 1, i - 1);
      }
    } else if i > 0 {
      BitOfOnes(0, i - 1);
    }
  }

  lemma {:induction false} Pow2Sum(j: nat, k: nat)
    ensures Pow2(j + k) == Pow2(j) * Pow2(k)
  {
    if k > 0 {
      Pow2Sum(j, k - 1);
      DoubledFactor(Pow2(j), Pow2(k - 1));
    }
  }

  lemma DoubledFactor(a: nat, x: nat)
    ensures a * (2 * x) == 2 * (a * x)
  {
  }

  /** The bits of a prefix mask, from the highest: ones, then zeros. */
  lemma PrefixBits(v: nat, k: nat, i: nat)
    requires k <= 32 && i < 32 && v == WORD - Pow2(k)
    ensures Bit(v, i) == if i >= k then 1 else 0
  {
    hide Pow2, Bit;
    Pow2Of32();
    Pow2Sum(k, 32 - k);
    assert v == Pow2(k) * (Pow2(32 - k) - 1) by {
      assert Pow2(k) * (Pow2(32 - k) - 1) == Pow2(k) * Pow2(32 - k) - Pow2(k);
    }
    BitOfPow2(k, Pow2(32 - k) - 1, i);
    if i >= k {
      BitOfOnes(32 - k, i - k);
    }
  }

  // ----------------------------------------------------------------- the gateway

  /** `is_valid_ipaddr`; the source's tests of single bytes against 0 and 255 from
      outside can never hold. */
  predicate IsValidIp(ip: seq<Byte>)
    requires |ip| == 4
  {
    && 4 <= ip[0] < 224 && ip[0] != 127
    && 0 < ip[3] < 255
  }

  predicate SameNet(ip: seq<Byte>, mask: seq<Byte>, gw: seq<Byte>)
    requires |ip| == |mask| == |gw| == 4
  {
    forall i | 0 <= i < 4 :: And(ip[i], mask[i]) == And(gw[i], mask[i])
  }

  predicate Accepts(ip: seq<Byte>, mask: seq<Byte>, gw: seq<Byte>)
    requires |ip| == |mask| == |gw| == 4
  {
    && IsValidIp(ip) && IsValidIp(gw)
    && IsPrefix(MaskValue(mask)) && MaskValue(mask) != 0 && MaskValue(mask) != WORD - 1
  }

  /** Every byte the mask only covers in part already agrees. */
  predicate PartialBytesAgree(ip: seq<Byte>, mask: seq<Byte>, gw: seq<Byte>)
    requires |ip| == |mask| == |gw| == 4
  {
    forall i | 0 <= i < 4 && mask[i] != 255 :: And(ip[i], mask[i]) == And(gw[i], mask[i])
  }

  /** `check_net_parm`: a gateway outside the net gets the address's bytes where the
      mask byte is 255.  What comes out is a valid gateway; it is in the net exactly
      if the bytes the mask covers in part agreed beforehand. */
  method CheckNetParm(ip: array<Byte>, mask: array<Byte>, gw: array<Byte>) returns (ok: bool)
    requires ip.Length == mask.Length == gw.Length == 4 && gw != ip && gw != mask
    modifies gw
    ensures ok <==> Accepts(ip[..], mask[..], old(gw[..]))
    ensures ok <==>
              && 4 <= ip[0] <= 223 && ip[0] != 127 && 1 <= ip[3] <= 254
              && 4 <= old(gw[0]) <= 223 && old(gw[0]) != 127 && 1 <= old(gw[3]) <= 254
              && (exists k | 1 <= k <= 31 ::
                    (((mask[0] as int) * 256 + mask[1]) * 256 + mask[2]) * 256 + mask[3] == 0x1_0000_0000 - Pow2(k))
    ensures !ok || SameNet(ip[..], mask[..], old(gw[..])) ==> gw[..] == old(gw[..])
    ensures ok && !SameNet(ip[..], mask[..], old(gw[..])) ==>
              forall i | 0 <= i < 4 :: gw[i] == if mask[i] == 255 then ip[i] else old(gw[i])
    ensures ok ==> IsValidIp(gw[..])
    ensures ok ==> (SameNet(ip[..], mask[..], gw[..]) <==> PartialBytesAgree(ip[..], mask[..], old(gw[..])))
  {
    hide And, MaskValue, IsPrefix, Pow2;
    NoBytes(mask[..]);
    ProperPrefix(mask[..]);
    if !IsValidIp(ip[..]) {
      return false;
    }
    if mask[0] == 0 && mask[1] == 0 && mask[2] == 0 && mask[3] == 0 {
      return false;
    }
    if mask[0] == 255 && mask[1] == 255 && mask[2] == 255 && mask[3] == 255 {
      return false;
    }
    var valid := IsValidNetmask(mask);
    if !valid {
      return false;
    }
    if !IsValidIp(gw[..]) {
      return false;
    }
    LastByteNotFull(mask[..]);
    if And(ip[0], mask[0]) != And(gw[0], mask[0]) || And(ip[1], mask[1]) != And(gw[1], mask[1])
       || And(ip[2], mask[2]) != And(gw[2], mask[2]) || And(ip[3], mask[3]) != And(gw[3], mask[3]) {
      RepairGateway(ip, mask, gw);
    }
    ok := true;
  }

  /** The gateway takes over the address's bytes under mask bytes of 255. */
  method RepairGateway(ip: array<Byte>, mask: array<Byte>, gw: array<Byte>)
    requires ip.Length == mask.Length == gw.Length == 4 && gw != ip && gw != mask
    requires IsValidIp(ip[..]) && IsValidIp(gw[..]) && mask[3] != 255
    requires !SameNet(ip[..], mask[..], gw[..])
    modifies gw
    ensures forall i | 0 <= i < 4 :: gw[i] == if mask[i] == 255 then ip[i] else old(gw[i])
    ensures IsValidIp(gw[..])
    ensures SameNet(ip[..], mask[..], gw[..]) <==> PartialBytesAgree(ip[..], mask[..], old(gw[..]))
  {
    hide And;
    gw[0] := if mask[0] == 255 then ip[0] else gw[0];
    gw[1] := if mask[1] == 255 then ip[1] else gw[1];
    gw[2] := if mask[2] == 255 then ip[2] else gw[2];
  }

  /** A prefix mask that is neither all zeros nor all ones. */
  lemma ProperPrefix(m: seq<Byte>)
    requires |m| == 4
    ensures IsPrefix(MaskValue(m)) && MaskValue(m) != 0 && MaskValue(m) != WORD - 1 <==>
              exists k | 1 <= k <= 31 ::
                (((m[0] as int) * 256 + m[1]) * 256 + m[2]) * 256 + m[3] == 0x1_0000_0000 - Pow2(k)
  {
    var v := (((m[0] as int) * 256 + m[1]) * 256 + m[2]) * 256 + m[3];
    assert MaskValue(m) == v;
    Pow2Of32();
    assert Pow2(0) == 1;
    hide Pow2;
    if IsPrefix(v) && v != 0 && v != WORD - 1 {
      var k :| 0 <= k <= 32 && v == WORD - Pow2(k);
      assert 1 <= k <= 31;
    }
    if k :| 1 <= k <= 31 && v == 0x1_0000_0000 - Pow2(k) {
      Pow2Monotone(k, 31);
      Pow2Monotone(31, 32);
      Pow2Monotone(1, k);
      Pow2Monotone(0, 1);
      assert v == WORD - Pow2(k);
    }
  }

  lemma NoBytes(m: seq<Byte>)
    requires |m| == 4
    ensures MaskValue(m) == 0 <==> m[0] == 0 && m[1] == 0 && m[2] == 0 && m[3] == 0
    ensures MaskValue(m) == WORD - 1 <==> m[0] == 255 && m[1] == 255 && m[2] == 255 && m[3] == 255
  {
  }

  /** Only the all-ones prefix has a last byte of 255. */
  lemma LastByteNotFull(m: seq<Byte>)
    requires |m| == 4 && IsPrefix(MaskValue(m)) && MaskValue(m) != WORD - 1
    ensures m[3] != 255
  {
  }

  /** A byte-aligned mask has no byte it covers in part, so the gateway ends up in
      the net. */
  lemma AlignedMaskAgrees(ip: seq<Byte>, mask: seq<Byte>, gw: seq<Byte>)
    requires |ip| == |mask| == |gw| == 4
    requires forall i | 0 <= i < 4 :: mask[i] == 0 || mask[i] == 255
    ensures PartialBytesAgree(ip, mask, gw)
  {
  }

  /** 192.168.1.2 with mask 255.255.254.0 and gateway 192.168.4.1: the source answers
      that all is well and leaves a gateway outside the net. */
  lemma UnalignedMaskCanFail()
    ensures var ip: seq<Byte>, mask: seq<Byte>, gw: seq<Byte> := [192, 168, 1, 2], [255, 255, 254, 0], [192, 168, 4, 1];
            Accepts(ip, mask, gw) && !PartialBytesAgree(ip, mask, gw)
  {
    var ip: seq<Byte>, mask: seq<Byte>, gw: seq<Byte> := [192, 168, 1, 2], [255, 255, 254, 0], [192, 168, 4, 1];
    assert And(1, 254) == 0;
    assert And(4, 254) == 4;
    assert Pow2(9) == 512 by { assert Pow2(5) == 32; }
    assert MaskValue(mask) == WORD - Pow2(9);
    assert And(ip[2], mask[2]) != And(gw[2], mask[2]);
  }
}

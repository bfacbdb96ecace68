// The Internet checksum of a 20-octet IPv4 header (RFC 791, section 3.1; RFC 1071, section 1).
module Checksum {
  import opened Bits

  // End-around-carry addition of 16-bit words.
  function OnesAdd(a: u16, b: u16): u16 {
    var s: int := a as int + b as int;
    if s >= 0x1_0000 then s - 0xFFFF else s
  }

  // What a receiver computes over a header, word by word.
  function OnesSum(words: seq<u16>): u16 {
    if words == [] then 0 else OnesAdd(OnesSum(words[..|words| - 1]), words[|words| - 1])
  }

  function Total(words: seq<u16>): nat {
    if words == [] then 0 else Total(words[..|words| - 1]) + words[|words| - 1]
  }

  function WordAt(h: Bytes, i: nat): u16
    requires 2 * i + 1 < |h|
  {
    FromBE16([h[2 * i], h[2 * i + 1]])
  }

  // The 16-bit words of an even number of octets.
  function Words(h: Bytes): (r: seq<u16>)
    requires |h| % 2 == 0
    ensures 2 * |r| == |h|
    ensures forall i :: 0 <= i < |r| ==> r[i] == WordAt(h, i)
  {
    seq(|h| / 2, i requires 0 <= i < |h| / 2 => WordAt(h, i))
  }

  // One fold of the carries above bit 16.
  function Fold(s: nat): nat {
    s % 0x1_0000 + s / 0x1_0000
  }

  // Ten word additions, two folds, complement. The caller zeroes the checksum field first.
  function IpHeaderChecksum(h: Bytes): u16
    requires |h| == 20
  {
    var w := Words(h);
    var sum := w[0] as int + w[1] + w[2] + w[3] + w[4] + w[5] + w[6] + w[7] + w[8] + w[9];
    0xFFFF - Fold(Fold(sum)) % 0x1_0000
  }

  // The residue modulo 65535 in 1..65535, and 0 only for 0.
  function Residue(t: nat): u16 {
    if t == 0 then 0 else (t - 1) % 0xFFFF + 1
  }

  lemma {:induction false} OnesSumIsResidue(words: seq<u16>)
    ensures OnesSum(words) == Residue(Total(words))
  {
    if words != [] {
      OnesSumIsResidue(words[..|words| - 1]);
      ResidueAdd(Total(words[..|words| - 1]), words[|words| - 1]);
    }
  }

  lemma ResidueAdd(t: nat, w: u16)
    ensures OnesAdd(Residue(t), w) == Residue(t + w)
  {
    if t > 0 {
      var q: int, r: int := (t - 1) / 0xFFFF, (t - 1) % 0xFFFF;
      assert t - 1 == 0xFFFF * q + r;
      if r + w < 0xFFFF {
        ResidueOf(t + w, q, r + w);
      } else if r + w < 0x1_FFFE {
        ResidueOf(t + w, q + 1, r + w - 0xFFFF);
      }
    } else if w > 0 {
      ResidueOf(w, 0, w - 1);
    }
  }

  lemma ResidueOf(t: nat, q: int, r: int)
    requires t > 0 && t - 1 == 0xFFFF * q + r && 0 <= r < 0xFFFF
    ensures Residue(t) == r + 1
  {
  }

  // Two folds always suffice for ten words: the result fits in 16 bits and is the residue.
  lemma TwoFoldsSuffice(t: nat)
    requires t <= 10 * 0xFFFF
    ensures Fold(Fold(t)) < 0x1_0000 && Fold(Fold(t)) == Residue(t)
  {
    var hi: int, lo: int := t / 0x1_0000, t % 0x1_0000;
    assert t == 0xFFFF * hi + (hi + lo);
    if t > 0 {
      if hi + lo < 0x1_0000 {
        ResidueOf(t, hi, hi + lo - 1);
      } else {
        ResidueOf(t, hi + 1, hi + lo - 1 - 0xFFFF);
      }
    }
  }

  // A single fold does not suffice.
  lemma OneFoldIsNotEnough()
    ensures exists t: nat :: t <= 10 * 0xFFFF && Fold(t) >= 0x1_0000
  {
    assert Fold(0x1_FFFF) == 0x1_0000;
  }

  function WithChecksum(h: Bytes, sum: u16): (r: Bytes)
    requires |h| == 20
    ensures |r| == 20
  {
    h[..10] + BE16(sum) + h[12..]
  }

  lemma {:induction false} TotalSplit(a: seq<u16>, b: seq<u16>)
    ensures Total(a + b) == Total(a) + Total(b)
  {
    if b == [] {
      assert a + b == a;
    } else {
      var s := a + b;
      assert s[..|s| - 1] == a + b[..|b| - 1] && s[|s| - 1] == b[|b| - 1];
      TotalSplit(a, b[..|b| - 1]);
    }
  }

  lemma TotalOfTen(w: seq<u16>)
    requires |w| == 10
    ensures Total(w) == w[0] as int + w[1] + w[2] + w[3] + w[4] + w[5] + w[6] + w[7] + w[8] + w[9]
    ensures Total(w) <= 10 * 0xFFFF
  {
    var a, b := w[..5], w[5..];
    assert w == a + b;
    TotalSplit(a, b);
    TotalOfFive(a);
    TotalOfFive(b);
  }

  lemma TotalOfFive(w: seq<u16>)
    requires |w| == 5
    ensures Total(w) == w[0] as int + w[1] + w[2] + w[3] + w[4]
  {
    var v4, v3, v2, v1 := w[..4], w[..3], w[..2], w[..1];
    assert v4[..3] == v3 && v3[..2] == v2 && v2[..1] == v1 && v1[..0] == [];
    assert Total(w) == Total(v4) + w[4] && Total(v4) == Total(v3) + w[3];
    assert Total(v3) == Total(v2) + w[2] && Total(v2) == Total(v1) + w[1];
  }

  lemma {:induction false} TotalUpdate(w: seq<u16>, i: nat, v: u16)
    requires i < |w|
    ensures Total(w[i := v]) == Total(w) - w[i] + v
  {
    var last := |w| - 1;
    if i == last {
      assert w[i := v][..last] == w[..last];
    } else {
      assert w[i := v][..last] == w[..last][i := v];
      TotalUpdate(w[..last], i, v);
    }
  }

  lemma WordsWithChecksum(h: Bytes, sum: u16)
    requires |h| == 20
    ensures Words(WithChecksum(h, sum)) == Words(h)[5 := sum]
  {
    hide BE16, FromBE16;
    var g := WithChecksum(h, sum);
    BE16RoundTrip(sum);
    assert BE16(sum) == [g[10], g[11]];
    forall i | 0 <= i < 10 && i != 5
      ensures Words(g)[i] == Words(h)[i]
    {
      assert g[2 * i] == h[2 * i] && g[2 * i + 1] == h[2 * i + 1];
    }
    assert Words(g)[5] == sum;
  }

  // For any ten words with a zeroed checksum field: the header with the computed checksum
  // sums to all ones at the receiver.
  lemma ChecksumVerifies(h: Bytes)
    requires |h| == 20 && h[10] == h[11] == 0
    ensures OnesSum(Words(WithChecksum(h, IpHeaderChecksum(h)))) == 0xFFFF
  {
    hide Words, WordAt, Total, OnesSum, Fold, Residue;
    var sum := IpHeaderChecksum(h);
    WordsWithChecksum(h, sum);
    TotalUpdate(Words(h), 5, sum);
    ZeroChecksumWord(h);
    TotalOfTen(Words(h));
    var t := Total(Words(h));
    TwoFoldsSuffice(t);
    OnesSumIsResidue(Words(h)[5 := sum]);
    ComplementClosesRing(t);
  }

  lemma ZeroChecksumWord(h: Bytes)
    requires |h| == 20 && h[10] == h[11] == 0
    ensures Words(h)[5] == 0
  {
    assert Words(h)[5] == WordAt(h, 5);
  }

  lemma ComplementClosesRing(t: nat)
    ensures Residue(t + (0xFFFF - Residue(t))) == 0xFFFF
  {
    if t == 0 {
      ResidueOf(0xFFFF, 0, 0xFFFE);
    } else {
      var q: int, r: int := (t - 1) / 0xFFFF, (t - 1) % 0xFFFF;
      assert t - 1 == 0xFFFF * q + r;
      ResidueOf(t + (0xFFFF - Residue(t)), q, 0xFFFE);
    }
  }
}

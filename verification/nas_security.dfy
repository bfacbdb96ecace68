// NAS security contexts of both generations as values: what protecting and unprotecting
// a message computes, the COUNT it consumes, and the envelope it travels in. AES-CTR and
// AES-CMAC are parameters.
module NasSecurity {
  import opened Bits

  const NAS_BEARER: byte := 0

  datatype Direction = Uplink | Downlink

  // The two AES modes under a 16-byte key: byte `i` of the keystream that starts at a
  // counter block, and the leftmost 32 bits of the CMAC of a byte string.
  datatype Crypto = Crypto(ctr: (Bytes, Bytes, nat) -> byte, cmac: (Bytes, Bytes) -> Octets4)

  function DirectionBit(dir: Direction): nat {
    if dir.Uplink? then 0 else 1
  }

  // COUNT, then BEARER (5 bits), DIRECTION (1 bit) and two zero bits.
  function CountBearerDirection(count: u32, bearer: byte, dir: Direction): (r: Bytes)
    ensures |r| == 5
  {
    var tail: byte := (bearer as int % 32) * 8 + DirectionBit(dir) * 4;
    BE32(count) + [tail]
  }

  function CounterBlock(count: u32, bearer: byte, dir: Direction): (r: Bytes)
    ensures |r| == 16
  {
    CountBearerDirection(count, bearer, dir) + [0, 0, 0, 0, 0, 0, 0, 0, 0, 0, 0]
  }

  // Distinct (COUNT, DIRECTION) never start from the same keystream block.
  lemma CounterBlockInjective(c1: u32, d1: Direction, c2: u32, d2: Direction, bearer: byte)
    ensures CounterBlock(c1, bearer, d1) == CounterBlock(c2, bearer, d2) <==> c1 == c2 && d1 == d2
  {
    if CounterBlock(c1, bearer, d1) == CounterBlock(c2, bearer, d2) {
      assert CounterBlock(c1, bearer, d1)[..5] == CountBearerDirection(c1, bearer, d1);
      assert CounterBlock(c2, bearer, d2)[..5] == CountBearerDirection(c2, bearer, d2);
      PrefixInjective(c1, d1, c2, d2, bearer);
    }
  }

  lemma PrefixInjective(c1: u32, d1: Direction, c2: u32, d2: Direction, bearer: byte)
    requires CountBearerDirection(c1, bearer, d1) == CountBearerDirection(c2, bearer, d2)
    ensures c1 == c2 && d1 == d2
  {
    var p1, p2 := CountBearerDirection(c1, bearer, d1), CountBearerDirection(c2, bearer, d2);
    assert p1[..4] == BE32(c1) && p2[..4] == BE32(c2);
    BE32RoundTrip(c1);
    BE32RoundTrip(c2);
    assert p1[4] == p2[4];
  }

  function Eea2Apply(c: Crypto, key: Bytes, count: u32, bearer: byte, dir: Direction, data: Bytes): (r: Bytes)
    ensures |r| == |data|
  {
    seq<byte>(|data|, i requires 0 <= i < |data| => XorByte(data[i], c.ctr(key, CounterBlock(count, bearer, dir), i)))
  }

  lemma Eea2Inverse(c: Crypto, key: Bytes, count: u32, bearer: byte, dir: Direction, data: Bytes)
    ensures Eea2Apply(c, key, count, bearer, dir, Eea2Apply(c, key, count, bearer, dir, data)) == data
  {
    hide XorByte, CounterBlock;
    forall i | 0 <= i < |data|
      ensures Eea2Apply(c, key, count, bearer, dir, Eea2Apply(c, key, count, bearer, dir, data))[i] == data[i]
    {
      XorByteInvolution(data[i], c.ctr(key, CounterBlock(count, bearer, dir), i));
    }
  }

  function MacInput(count: u32, bearer: byte, dir: Direction, message: Bytes): Bytes {
    CountBearerDirection(count, bearer, dir) + message
  }

  // What is MACed determines the COUNT, the direction and the message.
  lemma MacInputInjective(c1: u32, d1: Direction, m1: Bytes, c2: u32, d2: Direction, m2: Bytes, bearer: byte)
    requires MacInput(c1, bearer, d1, m1) == MacInput(c2, bearer, d2, m2)
    ensures c1 == c2 && d1 == d2 && m1 == m2
  {
    var i1, i2 := MacInput(c1, bearer, d1, m1), MacInput(c2, bearer, d2, m2);
    assert i1[..5] == CountBearerDirection(c1, bearer, d1) && i1[5..] == m1;
    assert i2[..5] == CountBearerDirection(c2, bearer, d2) && i2[5..] == m2;
    PrefixInjective(c1, d1, c2, d2, bearer);
  }

  // ---- COUNT reconstruction ------------------------------------------------------------

  // `last & 0xFFFFFF00` is the multiple of 256 at or below `last`; or-ing a byte into it adds it.
  function ReconstructCount(last: u32, seqByte: byte): u32 {
    var high := last - last % 0x100;
    var candidate := high + seqByte;
    if candidate >= last then candidate
    else (high + 0x100) % 0x1_0000_0000 + seqByte
  }

  lemma ReconstructGap(last: u32, d: nat)
    requires d < 0x100
    ensures ReconstructCount(last, (last + d) % 0x1_0000_0000 % 0x100) == (last + d) % 0x1_0000_0000
  {
    var q: int, r: int := last / 0x100, last % 0x100;
    assert last == 0x100 * q + r;
    var target := (last + d) % 0x1_0000_0000;
    if r + d < 0x100 {
      assert target == 0x100 * q + (r + d);
      assert target % 0x100 == r + d;
    } else if q + 1 < 0x100_0000 {
      assert target == 0x100 * (q + 1) + (r + d - 0x100);
      assert target % 0x100 == r + d - 0x100;
    } else {
      assert target == r + d - 0x100;
      assert target % 0x100 == r + d - 0x100;
    }
  }

  // The reconstructed COUNT is the least one at or above `last` with that low byte, except
  // in the last block of 256, where it wraps to the start of the COUNT space.
  lemma ReconstructNeverGoesBack(last: u32, seqByte: byte)
    ensures ReconstructCount(last, seqByte) % 0x100 == seqByte
    ensures ReconstructCount(last, seqByte) >= last <==> !(last >= 0xFFFF_FF00 && seqByte < last % 0x100)
    ensures ReconstructCount(last, seqByte) >= last ==> ReconstructCount(last, seqByte) < last + 0x100
  {
  }

  // ---- Contexts -------------------------------------------------------------------------

  datatype NasCtx = NasCtx(kEnc: Bytes, kInt: Bytes, ciphered: bool, integrity: bool, dl: u32, ul: u32)

  datatype Protected = Protected(count: u32, macI: Octets4, payload: Bytes)

  function CountOf(ctx: NasCtx, dir: Direction): u32 {
    if dir.Uplink? then ctx.ul else ctx.dl
  }

  function WithCount(ctx: NasCtx, dir: Direction, count: u32): NasCtx {
    if dir.Uplink? then ctx.(ul := count) else ctx.(dl := count)
  }

  function Next(count: u32): u32 {
    (count + 1) % 0x1_0000_0000
  }

  function Cipher(c: Crypto, ctx: NasCtx, count: u32, bearer: byte, dir: Direction, data: Bytes): (r: Bytes)
    ensures |r| == |data|
  {
    if ctx.ciphered then Eea2Apply(c, ctx.kEnc, count, bearer, dir, data) else data
  }

  // Ciphers, then computes the MAC over the ciphertext.
  function ProtectAt(c: Crypto, ctx: NasCtx, count: u32, bearer: byte, dir: Direction, plain: Bytes): Protected {
    var payload := Cipher(c, ctx, count, bearer, dir, plain);
    var macI := if ctx.integrity then c.cmac(ctx.kInt, MacInput(count, bearer, dir, payload)) else [0, 0, 0, 0];
    Protected(count, macI, payload)
  }

  function Protect(c: Crypto, ctx: NasCtx, dir: Direction, bearer: byte, plain: Bytes): (NasCtx, Protected) {
    var count := CountOf(ctx, dir);
    (WithCount(ctx, dir, Next(count)), ProtectAt(c, ctx, count, bearer, dir, plain))
  }

  predicate MacVerifies(
    c: Crypto, ctx: NasCtx, count: u32, bearer: byte, dir: Direction, macI: Octets4, ciphertext: Bytes)
  {
    !ctx.integrity || c.cmac(ctx.kInt, MacInput(count, bearer, dir, ciphertext)) == macI
  }

  // Verifies before deciphering; COUNT moves only on success.
  function Unprotect(
    c: Crypto, ctx: NasCtx, dir: Direction, bearer: byte, seqByte: byte, macI: Octets4, ciphertext: Bytes
  ): (NasCtx, Option<Bytes>)
  {
    var count := ReconstructCount(CountOf(ctx, dir), seqByte);
    if MacVerifies(c, ctx, count, bearer, dir, macI, ciphertext) then
      (WithCount(ctx, dir, Next(count)), Some(Cipher(c, ctx, count, bearer, dir, ciphertext)))
    else (ctx, None)
  }

  lemma CipherInverse(c: Crypto, ctx: NasCtx, count: u32, bearer: byte, dir: Direction, data: Bytes)
    ensures Cipher(c, ctx, count, bearer, dir, Cipher(c, ctx, count, bearer, dir, data)) == data
  {
    Eea2Inverse(c, ctx.kEnc, count, bearer, dir, data);
  }

  // ---- Envelopes --------------------------------------------------------------------------

  // EPS packs the security header type and the protocol discriminator into one octet; 5GS
  // gives each its own. Both put only the low byte of COUNT on the wire.
  datatype Family = Eps | FiveGs

  const EPS_MM_PD: byte := 0x07
  const FIVEGS_MM_EPD: byte := 0x7E

  datatype Envelope = Envelope(macI: Octets4, seqByte: byte, ciphertext: Bytes)

  function Seal(f: Family, sht: byte, p: Protected): Bytes {
    var head := if f.Eps? then [(sht * 16) % 0x100 + EPS_MM_PD] else [FIVEGS_MM_EPD, sht % 16];
    head + p.macI + [p.count % 0x100] + p.payload
  }

  function HeadLen(f: Family): nat {
    if f.Eps? then 1 else 2
  }

  // None of the malformed cases looks at the context.
  function Open(f: Family, buf: Bytes): Option<Envelope> {
    var h := HeadLen(f);
    if |buf| < h + 5 then None
    else if f.FiveGs? && buf[0] != FIVEGS_MM_EPD then None
    else
      var sht := if f.Eps? then buf[0] / 16 else buf[1] % 16;
      if sht == 0 then None
      else Some(Envelope(buf[h..h + 4], buf[h + 4], buf[h + 5..]))
  }

  lemma OpenSeal(f: Family, sht: byte, p: Protected)
    ensures sht % 16 != 0 <==> Open(f, Seal(f, sht, p)).Some?
    ensures sht % 16 != 0 ==> Open(f, Seal(f, sht, p)) == Some(Envelope(p.macI, p.count % 0x100, p.payload))
  {
    if f.Eps? {
      OpenSealEps(sht, p);
    } else {
      OpenSealFiveGs(sht, p);
    }
  }

  lemma OpenSealEps(sht: byte, p: Protected)
    ensures Open(Eps, Seal(Eps, sht, p)) ==
            if sht % 16 == 0 then None else Some(Envelope(p.macI, p.count % 0x100, p.payload))
  {
    HighNibble(sht);
    SlicesOf([(sht * 16) % 0x100 + EPS_MM_PD], p.macI, [p.count % 0x100], p.payload);
  }

  lemma HighNibble(sht: byte)
    ensures ((sht * 16) % 0x100 + EPS_MM_PD) / 16 == sht % 16
  {
    var hi: int, lo: int := sht / 16, sht % 16;
    assert sht * 16 == 0x100 * hi + 16 * lo;
    assert (sht * 16) % 0x100 == 16 * lo;
  }

  lemma OpenSealFiveGs(sht: byte, p: Protected)
    ensures Open(FiveGs, Seal(FiveGs, sht, p)) ==
            if sht % 16 == 0 then None else Some(Envelope(p.macI, p.count % 0x100, p.payload))
  {
    SlicesOf([FIVEGS_MM_EPD, sht % 16], p.macI, [p.count % 0x100], p.payload);
  }

  lemma SlicesOf(head: Bytes, macI: Octets4, low: Bytes, rest: Bytes)
    requires |low| == 1
    ensures var buf := head + macI + low + rest;
            var h := |head|;
            && buf[..h] == head && buf[h..h + 4] == macI && buf[h + 4] == low[0] && buf[h + 5..] == rest
  {
  }

  function EncodeProtected(
    c: Crypto, f: Family, ctx: NasCtx, dir: Direction, sht: byte, bearer: byte, plain: Bytes): (NasCtx, Bytes)
  {
    var r := Protect(c, ctx, dir, bearer, plain);
    (r.0, Seal(f, sht, r.1))
  }

  function DecodeProtected(
    c: Crypto, f: Family, ctx: NasCtx, dir: Direction, bearer: byte, buf: Bytes): (NasCtx, Option<Bytes>)
  {
    var e := Open(f, buf);
    if e.None? then (ctx, None)
    else Unprotect(c, ctx, dir, bearer, e.value.seqByte, e.value.macI, e.value.ciphertext)
  }

  lemma SenderMovesOne(c: Crypto, f: Family, ctx: NasCtx, sht: byte, plain: Bytes)
    ensures EncodeProtected(c, f, ctx, Downlink, sht, NAS_BEARER, plain).0 == ctx.(dl := Next(ctx.dl))
  {
  }

  // Two contexts of one association: they agree on everything but the COUNTs.
  predicate Paired(a: NasCtx, b: NasCtx) {
    a.kEnc == b.kEnc && a.kInt == b.kInt && a.ciphered == b.ciphered && a.integrity == b.integrity
  }

  // Whatever gap of fewer than 256 messages lies between what the receiver expects and
  // what the sender sends next, wrapping included: the envelope is accepted, decodes to
  // the exact inner message, and leaves the receiver's COUNT one past the sender's.
  lemma DeliverAcrossGap(
    c: Crypto, f: Family, snd: NasCtx, rcv: NasCtx, dir: Direction, sht: byte, bearer: byte, plain: Bytes, gap: nat)
    requires Paired(snd, rcv) && sht % 16 != 0 && gap < 0x100
    requires CountOf(snd, dir) == (CountOf(rcv, dir) + gap) % 0x1_0000_0000
    ensures var sent := EncodeProtected(c, f, snd, dir, sht, bearer, plain);
            && CountOf(sent.0, dir) == Next(CountOf(snd, dir))
            && DecodeProtected(c, f, rcv, dir, bearer, sent.1) ==
               (WithCount(rcv, dir, CountOf(sent.0, dir)), Some(plain))
  {
    hide Open, Seal, Eea2Apply, MacInput, ReconstructCount;
    var count := CountOf(snd, dir);
    var p := ProtectAt(c, snd, count, bearer, dir, plain);
    OpenSeal(f, sht, p);
    ReconstructGap(CountOf(rcv, dir), gap);
    CipherInverse(c, rcv, count, bearer, dir, plain);
  }

  // A rejected envelope, whatever it is, leaves the context as it was; an accepted one moves
  // only the COUNT of its own direction.
  lemma OnlyAcceptedEnvelopesMoveCount(c: Crypto, f: Family, ctx: NasCtx, dir: Direction, bearer: byte, buf: Bytes)
    ensures var r := DecodeProtected(c, f, ctx, dir, bearer, buf);
            && (r.1.None? ==> r.0 == ctx)
            && Paired(r.0, ctx)
            && var other := if dir.Uplink? then Downlink else Uplink;
               CountOf(r.0, other) == CountOf(ctx, other)
  {
  }
}

// NAS security on the wire (annex B of TS 33.401, section 6.4 of TS 33.501): where COUNT, bearer
// and direction stand in what is ciphered with and MACed, and every octet of an envelope.
module NasWire {
  import opened Bits
  import opened NasSecurity

  // A number read from four octets, most significant first.
  function Number(b: Bytes): nat
    requires |b| == 4
  {
    var b0: int, b1: int, b2: int, b3: int := b[0], b[1], b[2], b[3];
    0x100_0000 * b0 + 0x1_0000 * b1 + 0x100 * b2 + b3
  }

  lemma NumberOfBE32(count: u32)
    ensures Number(BE32(count)) == count
  {
    BE32RoundTrip(count);
  }

  // COUNT, then the bearer above the direction bit, 4 for downlink, then zeros.
  lemma CounterBlockLayout(count: u32, bearer: byte, dir: Direction)
    ensures var b := CounterBlock(count, bearer, dir);
            && |b| == 16 && Number(b[0..4]) == count
            && b[4] == 8 * (bearer % 32) + (if dir == Uplink then 0 else 4)
            && forall i :: 5 <= i < 16 ==> b[i] == 0
  {
    hide BE32;
    NumberOfBE32(count);
    assert CounterBlock(count, bearer, dir)[0..4] == BE32(count);
  }

  // The same five octets, then the message.
  lemma MacInputLayout(count: u32, bearer: byte, dir: Direction, message: Bytes)
    ensures var m := MacInput(count, bearer, dir, message);
            && |m| == 5 + |message| && Number(m[0..4]) == count
            && m[4] == 8 * (bearer % 32) + (if dir == Uplink then 0 else 4)
            && m[5..] == message
  {
    hide BE32;
    NumberOfBE32(count);
    assert MacInput(count, bearer, dir, message)[0..4] == BE32(count);
  }

  // Exclusive or is bit by bit.
  lemma XorByteBits(a: byte, b: byte, i: nat)
    requires i < 8
    ensures ByteBits(XorByte(a, b))[i] == (ByteBits(a)[i] != ByteBits(b)[i])
  {
    BitsOfValue(XorBits(ByteBits(a), ByteBits(b)));
  }

  // An octet of text under the keystream, or in the clear when ciphering is off.
  function Masked(c: Crypto, ctx: NasCtx, count: u32, bearer: byte, dir: Direction, x: byte, i: nat): byte {
    if ctx.ciphered then XorByte(x, c.ctr(ctx.kEnc, CounterBlock(count, bearer, dir), i)) else x
  }

  // One protected message. EPS has one octet in front, 5GS two; then four octets of MAC, the low
  // octet of COUNT, and the payload.
  lemma {:induction false} EnvelopeLayout(
    c: Crypto, f: Family, ctx: NasCtx, dir: Direction, sht: byte, bearer: byte, plain: Bytes)
    ensures var (next, sent) := EncodeProtected(c, f, ctx, dir, sht, bearer, plain);
            var h := if f == Eps then 1 else 2;
            var count := if dir == Uplink then ctx.ul else ctx.dl;
            && |sent| == h + 5 + |plain|
            && (f == Eps ==> sent[0] == 16 * (sht % 16) + 7)
            && (f == FiveGs ==> sent[0] == 126 && sent[1] == sht % 16)
            && sent[h + 4] == count % 256
            && (ctx.integrity ==> sent[h..h + 4] == c.cmac(ctx.kInt, MacInput(count, bearer, dir, sent[h + 5..])))
            && (!ctx.integrity ==> sent[h..h + 4] == [0, 0, 0, 0])
            && (forall i :: 0 <= i < |plain| ==> sent[h + 5..][i] == Masked(c, ctx, count, bearer, dir, plain[i], i))
            && next == if dir == Uplink then ctx.(ul := (count + 1) % 0x1_0000_0000)
                       else ctx.(dl := (count + 1) % 0x1_0000_0000)
  {
    var count := if dir == Uplink then ctx.ul else ctx.dl;
    var p := ProtectAt(c, ctx, count, bearer, dir, plain);
    EncodeParts(c, f, ctx, dir, sht, bearer, plain, count);
    SealLayout(f, sht, p);
    CipherIsMasked(c, ctx, count, bearer, dir, plain);
    var h := if f == Eps then 1 else 2;
    hide *;
    assert Seal(f, sht, p)[h + 5..] == Cipher(c, ctx, count, bearer, dir, plain);
  }

  lemma EncodeParts(
    c: Crypto, f: Family, ctx: NasCtx, dir: Direction, sht: byte, bearer: byte, plain: Bytes, count: u32)
    requires count == if dir == Uplink then ctx.ul else ctx.dl
    ensures var p := ProtectAt(c, ctx, count, bearer, dir, plain);
            var next := if dir == Uplink then ctx.(ul := (count + 1) % 0x1_0000_0000)
                        else ctx.(dl := (count + 1) % 0x1_0000_0000);
            && EncodeProtected(c, f, ctx, dir, sht, bearer, plain) == (next, Seal(f, sht, p))
            && p.count == count && p.payload == Cipher(c, ctx, count, bearer, dir, plain)
            && |p.payload| == |plain|
            && (ctx.integrity ==> p.macI == c.cmac(ctx.kInt, MacInput(count, bearer, dir, p.payload)))
            && (!ctx.integrity ==> p.macI == [0, 0, 0, 0])
  {
    hide Cipher, MacInput, Seal;
  }

  lemma CipherIsMasked(c: Crypto, ctx: NasCtx, count: u32, bearer: byte, dir: Direction, plain: Bytes)
    ensures var r := Cipher(c, ctx, count, bearer, dir, plain);
            forall i :: 0 <= i < |plain| ==> r[i] == Masked(c, ctx, count, bearer, dir, plain[i], i)
  {
    hide CounterBlock, XorByte;
  }

  lemma SealLayout(f: Family, sht: byte, p: Protected)
    ensures var sent := Seal(f, sht, p);
            var h := if f == Eps then 1 else 2;
            && |sent| == h + 5 + |p.payload|
            && (f == Eps ==> sent[0] == 16 * (sht % 16) + 7)
            && (f == FiveGs ==> sent[0] == 126 && sent[1] == sht % 16)
            && sent[h..h + 4] == p.macI && sent[h + 4] == p.count % 256 && sent[h + 5..] == p.payload
  {
    var head := if f == Eps then [(sht * 16) % 0x100 + EPS_MM_PD] else [FIVEGS_MM_EPD, sht % 16];
    FirstOctetIs(sht);
    SlicesOf(head, p.macI, [p.count % 0x100], p.payload);
  }

  lemma FirstOctetIs(sht: byte)
    ensures (sht * 16) % 0x100 + EPS_MM_PD == 16 * (sht % 16) + 7
  {
    var hi: int, lo: int := sht / 16, sht % 16;
    assert sht == 16 * hi + lo;
    assert sht * 16 == 0x100 * hi + 16 * lo;
  }

  // Everything a buffer must be to be looked at: long enough, of this protocol, and with a
  // security header type other than plain.
  predicate IsProtected(f: Family, buf: Bytes) {
    if f == Eps then |buf| >= 6 && buf[0] / 16 != 0
    else |buf| >= 7 && buf[0] == 126 && buf[1] % 16 != 0
  }

  // The COUNT a low octet stands for, the MAC over it, and the plain text under it.
  predicate MacIsRight(c: Crypto, f: Family, ctx: NasCtx, dir: Direction, bearer: byte, buf: Bytes)
    requires IsProtected(f, buf)
  {
    var h := if f == Eps then 1 else 2;
    var count := ReconstructCount(if dir == Uplink then ctx.ul else ctx.dl, buf[h + 4]);
    c.cmac(ctx.kInt, MacInput(count, bearer, dir, buf[h + 5..])) == buf[h..h + 4]
  }

  // With integrity on, a buffer is accepted exactly when it is protected and its MAC is right;
  // then the text is deciphered and the COUNT moves past it, and otherwise nothing moves.
  lemma AcceptedExactly(c: Crypto, f: Family, ctx: NasCtx, dir: Direction, bearer: byte, buf: Bytes)
    requires ctx.integrity
    ensures var (next, plain) := DecodeProtected(c, f, ctx, dir, bearer, buf);
            && (plain.Some? <==> IsProtected(f, buf) && MacIsRight(c, f, ctx, dir, bearer, buf))
            && (plain.None? ==> next == ctx)
            && (plain.Some? ==>
                  var h := if f == Eps then 1 else 2;
                  var count := ReconstructCount(if dir == Uplink then ctx.ul else ctx.dl, buf[h + 4]);
                  && |plain.value| == |buf| - h - 5
                  && (forall i :: 0 <= i < |plain.value| ==>
                        plain.value[i] == Masked(c, ctx, count, bearer, dir, buf[h + 5..][i], i))
                  && next == if dir == Uplink then ctx.(ul := (count + 1) % 0x1_0000_0000)
                             else ctx.(dl := (count + 1) % 0x1_0000_0000))
  {
    hide CounterBlock, MacInput, Cipher, ReconstructCount, Masked;
    if IsProtected(f, buf) {
      var h := if f == Eps then 1 else 2;
      var count := ReconstructCount(if dir == Uplink then ctx.ul else ctx.dl, buf[h + 4]);
      CipherIsMasked(c, ctx, count, bearer, dir, buf[h + 5..]);
    }
  }
}

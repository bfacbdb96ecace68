// The two NAS security contexts as the objects the handlers hold: COUNT is a field that
// protecting and accepting advance. Each method is tied to the value semantics of
// NasSecurity, which is where their properties are proved.
module NasContexts {
  import opened Bits
  import opened NasSecurity

  datatype NasEeaAlgorithm = Eea0 | Eea1 | Eea2 | Eea3
  datatype NasEiaAlgorithm = Eia0 | Eia1 | Eia2 | Eia3

  // EPS: algorithms are negotiated identifiers, the bearer is an argument.
  class NasSecurityContext {
    const crypto: Crypto
    const kNasEnc: Bytes
    const kNasInt: Bytes
    const eea: NasEeaAlgorithm
    const eia: NasEiaAlgorithm
    var dlCount: u32
    var ulCount: u32

    constructor (crypto: Crypto, kNasEnc: Bytes, kNasInt: Bytes, eea: NasEeaAlgorithm, eia: NasEiaAlgorithm)
      ensures State() == NasCtx(kNasEnc, kNasInt, eea != Eea0, eia != Eia0, 0, 0)
      ensures this.crypto == crypto
    {
      this.crypto, this.kNasEnc, this.kNasInt, this.eea, this.eia := crypto, kNasEnc, kNasInt, eea, eia;
      dlCount, ulCount := 0, 0;
    }

    function State(): NasCtx
      reads this
    {
      NasCtx(kNasEnc, kNasInt, eea != Eea0, eia != Eia0, dlCount, ulCount)
    }

    method ProtectDownlink(bearer: byte, plain: Bytes) returns (p: Protected)
      modifies this`dlCount
      ensures (State(), p) == Protect(crypto, old(State()), Downlink, bearer, plain)
    {
      var count := dlCount;
      dlCount := Next(dlCount);
      p := ProtectAtCount(count, bearer, Downlink, plain);
    }

    method UnprotectUplink(bearer: byte, seqByte: byte, macI: Octets4, ciphertext: Bytes) returns (plain: Option<Bytes>)
      modifies this`ulCount
      ensures (State(), plain) == Unprotect(crypto, old(State()), Uplink, bearer, seqByte, macI, ciphertext)
    {
      var count := ReconstructCount(ulCount, seqByte);
      plain := UnprotectAtCount(count, bearer, Uplink, macI, ciphertext);
      if plain.Some? {
        ulCount := Next(count);
      }
    }

    method ProtectUplink(bearer: byte, plain: Bytes) returns (p: Protected)
      modifies this`ulCount
      ensures (State(), p) == Protect(crypto, old(State()), Uplink, bearer, plain)
    {
      var count := ulCount;
      ulCount := Next(ulCount);
      p := ProtectAtCount(count, bearer, Uplink, plain);
    }

    method UnprotectDownlink(bearer: byte, seqByte: byte, macI: Octets4, ciphertext: Bytes)
      returns (plain: Option<Bytes>)
      modifies this`dlCount
      ensures (State(), plain) == Unprotect(crypto, old(State()), Downlink, bearer, seqByte, macI, ciphertext)
    {
      var count := ReconstructCount(dlCount, seqByte);
      plain := UnprotectAtCount(count, bearer, Downlink, macI, ciphertext);
      if plain.Some? {
        dlCount := Next(count);
      }
    }

    method ProtectAtCount(count: u32, bearer: byte, dir: Direction, plain: Bytes) returns (p: Protected)
      ensures forall dl, ul ::
        p == ProtectAt(crypto, State().(dl := dl, ul := ul), count, bearer, dir, plain)
    {
      var payload := plain;
      if eea != Eea0 {
        payload := Eea2Apply(crypto, kNasEnc, count, bearer, dir, payload);
      }
      var macI: Octets4 := [0, 0, 0, 0];
      if eia != Eia0 {
        macI := crypto.cmac(kNasInt, MacInput(count, bearer, dir, payload));
      }
      p := Protected(count, macI, payload);
    }

    method UnprotectAtCount(count: u32, bearer: byte, dir: Direction, macI: Octets4, ciphertext: Bytes)
      returns (plain: Option<Bytes>)
      ensures plain.Some? == MacVerifies(crypto, State(), count, bearer, dir, macI, ciphertext)
      ensures plain.Some? ==> plain.value == Cipher(crypto, State(), count, bearer, dir, ciphertext)
    {
      if eia != Eia0 && crypto.cmac(kNasInt, MacInput(count, bearer, dir, ciphertext)) != macI {
        return None;
      }
      var payload := ciphertext;
      if eea != Eea0 {
        payload := Eea2Apply(crypto, kNasEnc, count, bearer, dir, payload);
      }
      plain := Some(payload);
    }
  }

  // 5GS: raw algorithm octets, zero meaning null, and a fixed bearer.
  class Nas5gsSecurityContext {
    const crypto: Crypto
    const kNasEnc: Bytes
    const kNasInt: Bytes
    const nasCipherAlg: byte
    const nasIntegrityAlg: byte
    var dlCount: u32
    var ulCount: u32

    constructor (crypto: Crypto, kNasEnc: Bytes, kNasInt: Bytes, nasCipherAlg: byte, nasIntegrityAlg: byte)
      ensures State() == NasCtx(kNasEnc, kNasInt, nasCipherAlg != 0, nasIntegrityAlg != 0, 0, 0)
      ensures this.crypto == crypto
    {
      this.crypto, this.kNasEnc, this.kNasInt := crypto, kNasEnc, kNasInt;
      this.nasCipherAlg, this.nasIntegrityAlg := nasCipherAlg, nasIntegrityAlg;
      dlCount, ulCount := 0, 0;
    }

    function State(): NasCtx
      reads this
    {
      NasCtx(kNasEnc, kNasInt, nasCipherAlg != 0, nasIntegrityAlg != 0, dlCount, ulCount)
    }

    method ProtectDownlink(plain: Bytes) returns (p: Protected)
      modifies this`dlCount
      ensures (State(), p) == Protect(crypto, old(State()), Downlink, NAS_BEARER, plain)
    {
      var count := dlCount;
      dlCount := Next(dlCount);
      p := ProtectAtCount(count, Downlink, plain);
    }

    method UnprotectUplink(seqByte: byte, macI: Octets4, ciphertext: Bytes) returns (plain: Option<Bytes>)
      modifies this`ulCount
      ensures (State(), plain) == Unprotect(crypto, old(State()), Uplink, NAS_BEARER, seqByte, macI, ciphertext)
    {
      var count := ReconstructCount(ulCount, seqByte);
      plain := UnprotectAtCount(count, Uplink, macI, ciphertext);
      if plain.Some? {
        ulCount := Next(count);
      }
    }

    method ProtectUplink(plain: Bytes) returns (p: Protected)
      modifies this`ulCount
      ensures (State(), p) == Protect(crypto, old(State()), Uplink, NAS_BEARER, plain)
    {
      var count := ulCount;
      ulCount := Next(ulCount);
      p := ProtectAtCount(count, Uplink, plain);
    }

    method UnprotectDownlink(seqByte: byte, macI: Octets4, ciphertext: Bytes) returns (plain: Option<Bytes>)
      modifies this`dlCount
      ensures (State(), plain) == Unprotect(crypto, old(State()), Downlink, NAS_BEARER, seqByte, macI, ciphertext)
    {
      var count := ReconstructCount(dlCount, seqByte);
      plain := UnprotectAtCount(count, Downlink, macI, ciphertext);
      if plain.Some? {
        dlCount := Next(count);
      }
    }

    method ProtectAtCount(count: u32, dir: Direction, plain: Bytes) returns (p: Protected)
      ensures forall dl, ul ::
        p == ProtectAt(crypto, State().(dl := dl, ul := ul), count, NAS_BEARER, dir, plain)
    {
      var payload := plain;
      if nasCipherAlg != 0 {
        payload := Eea2Apply(crypto, kNasEnc, count, NAS_BEARER, dir, payload);
      }
      var macI: Octets4 := [0, 0, 0, 0];
      if nasIntegrityAlg != 0 {
        macI := crypto.cmac(kNasInt, MacInput(count, NAS_BEARER, dir, payload));
      }
      p := Protected(count, macI, payload);
    }

    method UnprotectAtCount(count: u32, dir: Direction, macI: Octets4, ciphertext: Bytes) returns (plain: Option<Bytes>)
      ensures plain.Some? == MacVerifies(crypto, State(), count, NAS_BEARER, dir, macI, ciphertext)
      ensures plain.Some? ==> plain.value == Cipher(crypto, State(), count, NAS_BEARER, dir, ciphertext)
    {
      if nasIntegrityAlg != 0 && crypto.cmac(kNasInt, MacInput(count, NAS_BEARER, dir, ciphertext)) != macI {
        return None;
      }
      var payload := ciphertext;
      if nasCipherAlg != 0 {
        payload := Eea2Apply(crypto, kNasEnc, count, NAS_BEARER, dir, payload);
      }
      plain := Some(payload);
    }
  }

  // ---- EPS envelope -----------------------------------------------------------------------

  method EncodeProtectedDownlink(ctx: NasSecurityContext, sht: byte, bearer: byte, plain: Bytes) returns (buf: Bytes)
    modifies ctx`dlCount
    ensures (ctx.State(), buf) == EncodeProtected(ctx.crypto, Eps, old(ctx.State()), Downlink, sht, bearer, plain)
  {
    var p := ctx.ProtectDownlink(bearer, plain);
    buf := [(sht * 16) % 0x100 + EPS_MM_PD];
    buf := buf + p.macI;
    buf := buf + [p.count % 0x100];
    buf := buf + p.payload;
  }

  method EncodeProtectedUplink(ctx: NasSecurityContext, sht: byte, bearer: byte, plain: Bytes) returns (buf: Bytes)
    modifies ctx`ulCount
    ensures (ctx.State(), buf) == EncodeProtected(ctx.crypto, Eps, old(ctx.State()), Uplink, sht, bearer, plain)
  {
    var p := ctx.ProtectUplink(bearer, plain);
    buf := [(sht * 16) % 0x100 + EPS_MM_PD];
    buf := buf + p.macI;
    buf := buf + [p.count % 0x100];
    buf := buf + p.payload;
  }

  method DecodeProtectedUplink(ctx: NasSecurityContext, buf: Bytes, bearer: byte) returns (plain: Option<Bytes>)
    modifies ctx`ulCount
    ensures (ctx.State(), plain) == DecodeProtected(ctx.crypto, Eps, old(ctx.State()), Uplink, bearer, buf)
  {
    if |buf| < 6 {
      return None;
    }
    var sht := buf[0] / 16;
    if sht == 0 {
      return None;
    }
    plain := ctx.UnprotectUplink(bearer, buf[5], buf[1..5], buf[6..]);
  }

  method DecodeProtectedDownlink(ctx: NasSecurityContext, buf: Bytes, bearer: byte) returns (plain: Option<Bytes>)
    modifies ctx`dlCount
    ensures (ctx.State(), plain) == DecodeProtected(ctx.crypto, Eps, old(ctx.State()), Downlink, bearer, buf)
  {
    if |buf| < 6 {
      return None;
    }
    var sht := buf[0] / 16;
    if sht == 0 {
      return None;
    }
    plain := ctx.UnprotectDownlink(bearer, buf[5], buf[1..5], buf[6..]);
  }

  // ---- 5GS envelope -------------------------------------------------------------------------

  method EncodeProtectedDownlink5gs(ctx: Nas5gsSecurityContext, sht: byte, plain: Bytes) returns (buf: Bytes)
    modifies ctx`dlCount
    ensures (ctx.State(), buf) ==
            EncodeProtected(ctx.crypto, FiveGs, old(ctx.State()), Downlink, sht, NAS_BEARER, plain)
  {
    var p := ctx.ProtectDownlink(plain);
    buf := [FIVEGS_MM_EPD];
    buf := buf + [sht % 16];
    assert buf == [FIVEGS_MM_EPD, sht % 16];
    buf := buf + p.macI;
    buf := buf + [p.count % 0x100];
    buf := buf + p.payload;
  }

  method EncodeProtectedUplink5gs(ctx: Nas5gsSecurityContext, sht: byte, plain: Bytes) returns (buf: Bytes)
    modifies ctx`ulCount
    ensures (ctx.State(), buf) ==
            EncodeProtected(ctx.crypto, FiveGs, old(ctx.State()), Uplink, sht, NAS_BEARER, plain)
  {
    var p := ctx.ProtectUplink(plain);
    buf := [FIVEGS_MM_EPD];
    buf := buf + [sht % 16];
    assert buf == [FIVEGS_MM_EPD, sht % 16];
    buf := buf + p.macI;
    buf := buf + [p.count % 0x100];
    buf := buf + p.payload;
  }

  method DecodeProtectedUplink5gs(ctx: Nas5gsSecurityContext, buf: Bytes) returns (plain: Option<Bytes>)
    modifies ctx`ulCount
    ensures (ctx.State(), plain) == DecodeProtected(ctx.crypto, FiveGs, old(ctx.State()), Uplink, NAS_BEARER, buf)
  {
    if |buf| < 7 || buf[0] != FIVEGS_MM_EPD {
      return None;
    }
    var sht := buf[1] % 16;
    if sht == 0 {
      return None;
    }
    plain := ctx.UnprotectUplink(buf[6], buf[2..6], buf[7..]);
  }

  method DecodeProtectedDownlink5gs(ctx: Nas5gsSecurityContext, buf: Bytes) returns (plain: Option<Bytes>)
    modifies ctx`dlCount
    ensures (ctx.State(), plain) == DecodeProtected(ctx.crypto, FiveGs, old(ctx.State()), Downlink, NAS_BEARER, buf)
  {
    if |buf| < 7 || buf[0] != FIVEGS_MM_EPD {
      return None;
    }
    var sht := buf[1] % 16;
    if sht == 0 {
      return None;
    }
    plain := ctx.UnprotectDownlink(buf[6], buf[2..6], buf[7..]);
  }
}

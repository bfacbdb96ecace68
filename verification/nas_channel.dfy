// Whole runs of the NAS channel between a network and a UE that share a security context.
// The channel may drop, delay, reorder, duplicate, alter or invent envelopes in both
// directions: a run is any list of sends by either party and deliveries of any bytes.
module NasChannel {
  import opened Bits
  import opened NasSecurity

  // COUNT values from here on share their block of 256 with no later block.
  const LAST_BLOCK: nat := 0xFFFF_FF00

  datatype Event = Send(dir: Direction, sht: byte, plain: Bytes) | Deliver(dir: Direction, buf: Bytes)

  // What was sent in a direction and what its receiver accepted, oldest first.
  datatype Log = Log(sent: seq<Bytes>, got: seq<Bytes>)

  // `maced` holds every byte string either party has computed a MAC over.
  datatype Link = Link(net: NasCtx, ue: NasCtx, up: Log, down: Log, maced: set<Bytes>)

  // The parts of the setting that stay fixed: primitives, envelope family and bearer.
  datatype Setting = Setting(c: Crypto, f: Family, bearer: byte)

  function Sender(k: Link, dir: Direction): NasCtx {
    if dir.Uplink? then k.ue else k.net
  }

  function Receiver(k: Link, dir: Direction): NasCtx {
    if dir.Uplink? then k.net else k.ue
  }

  function LogOf(k: Link, dir: Direction): Log {
    if dir.Uplink? then k.up else k.down
  }

  function WithSender(k: Link, dir: Direction, ctx: NasCtx): Link {
    if dir.Uplink? then k.(ue := ctx) else k.(net := ctx)
  }

  function WithReceiver(k: Link, dir: Direction, ctx: NasCtx): Link {
    if dir.Uplink? then k.(net := ctx) else k.(ue := ctx)
  }

  function WithLog(k: Link, dir: Direction, log: Log): Link {
    if dir.Uplink? then k.(up := log) else k.(down := log)
  }

  function SendStep(s: Setting, k: Link, dir: Direction, sht: byte, plain: Bytes): Link {
    var count := CountOf(Sender(k, dir), dir);
    var r := Protect(s.c, Sender(k, dir), dir, s.bearer, plain);
    var log := LogOf(k, dir);
    WithLog(WithSender(k, dir, r.0), dir, log.(sent := log.sent + [plain]))
      .(maced := k.maced + {MacInput(count, s.bearer, dir, r.1.payload)})
  }

  function DeliverStep(s: Setting, k: Link, dir: Direction, buf: Bytes): Link {
    var r := DecodeProtected(s.c, s.f, Receiver(k, dir), dir, s.bearer, buf);
    var log := LogOf(k, dir);
    var after := WithReceiver(k, dir, r.0);
    if r.1.None? then after else WithLog(after, dir, log.(got := log.got + [r.1.value]))
  }

  function Step(s: Setting, k: Link, e: Event): Link {
    match e
    case Send(dir, sht, plain) => SendStep(s, k, dir, sht, plain)
    case Deliver(dir, buf) => DeliverStep(s, k, dir, buf)
  }

  function Run(s: Setting, k: Link, events: seq<Event>): Link
    decreases |events|
  {
    if events == [] then k else Run(s, Step(s, k, events[0]), events[1..])
  }

  // The symbolic MAC: a verification succeeds only on input that one of the two parties
  // has already computed a MAC over (in whichever direction it sent it).
  predicate Unforged(s: Setting, k: Link, e: Event) {
    match e
    case Send(_, _, _) => true
    case Deliver(dir, buf) =>
      var env := Open(s.f, buf);
      env.Some? ==>
        var count := ReconstructCount(CountOf(Receiver(k, dir), dir), env.value.seqByte);
        MacVerifies(s.c, Receiver(k, dir), count, s.bearer, dir, env.value.macI, env.value.ciphertext) ==>
          MacInput(count, s.bearer, dir, env.value.ciphertext) in k.maced
  }

  predicate UnforgedRun(s: Setting, k: Link, events: seq<Event>)
    decreases |events|
  {
    events == [] || (Unforged(s, k, events[0]) && UnforgedRun(s, Step(s, k, events[0]), events[1..]))
  }

  function Sends(events: seq<Event>, dir: Direction): nat {
    if events == [] then 0
    else (if events[0].Send? && events[0].dir == dir then 1 else 0) + Sends(events[1..], dir)
  }

  // ---- In-order delivery -----------------------------------------------------------------

  // `ix` names, for each accepted message, the send it came from.
  ghost predicate Picks(ix: seq<nat>, got: seq<Bytes>, sent: seq<Bytes>, bound: nat) {
    && |ix| == |got|
    && bound <= |sent|
    && (forall j :: 0 <= j < |ix| ==> ix[j] < bound && got[j] == sent[ix[j]])
    && (forall j, m :: 0 <= j < m < |ix| ==> ix[j] < ix[m])
  }

  // An in-order subsequence, each message at most once.
  ghost predicate InOrder(log: Log) {
    exists ix: seq<nat> :: Picks(ix, log.got, log.sent, |log.sent|)
  }

  ghost predicate Fresh(k: Link) {
    && Paired(k.net, k.ue) && k.net.integrity
    && k.net.dl == k.net.ul == k.ue.dl == k.ue.ul == 0
    && k.up == k.down == Log([], [])
    && k.maced == {}
  }

  ghost predicate DirectionInv(k: Link, dir: Direction) {
    var log := LogOf(k, dir);
    && CountOf(Sender(k, dir), dir) == |log.sent| <= LAST_BLOCK
    && CountOf(Receiver(k, dir), dir) <= |log.sent|
    && exists ix: seq<nat> :: Picks(ix, log.got, log.sent, CountOf(Receiver(k, dir), dir))
  }

  function SentMacInput(s: Setting, k: Link, dir: Direction, i: nat): Bytes
    requires i < |LogOf(k, dir).sent| < 0x1_0000_0000
  {
    MacInput(i, s.bearer, dir, Cipher(s.c, k.net, i, s.bearer, dir, LogOf(k, dir).sent[i]))
  }

  ghost predicate MacedWasSent(s: Setting, k: Link)
    requires |k.up.sent| <= LAST_BLOCK && |k.down.sent| <= LAST_BLOCK
  {
    forall m :: m in k.maced ==>
      exists dir: Direction, i: nat :: i < |LogOf(k, dir).sent| && m == SentMacInput(s, k, dir, i)
  }

  ghost predicate Inv(s: Setting, k: Link) {
    && Paired(k.net, k.ue) && k.net.integrity
    && DirectionInv(k, Uplink) && DirectionInv(k, Downlink)
    && MacedWasSent(s, k)
  }

  lemma CipherIgnoresCounts(c: Crypto, a: NasCtx, b: NasCtx, count: u32, bearer: byte, dir: Direction, data: Bytes)
    requires Paired(a, b)
    ensures Cipher(c, a, count, bearer, dir, data) == Cipher(c, b, count, bearer, dir, data)
  {
  }

  lemma SendKeepsInv(s: Setting, k: Link, dir: Direction, sht: byte, plain: Bytes)
    requires Inv(s, k) && |LogOf(k, dir).sent| < LAST_BLOCK
    ensures Inv(s, SendStep(s, k, dir, sht, plain))
  {
    hide Cipher, MacInput;
    var n := SendStep(s, k, dir, sht, plain);
    var count := CountOf(Sender(k, dir), dir);
    CipherIgnoresCounts(s.c, Sender(k, dir), k.net, count, s.bearer, dir, plain);
    forall m | m in n.maced
      ensures exists d: Direction, i: nat :: i < |LogOf(n, d).sent| && m == SentMacInput(s, n, d, i)
    {
      if m in k.maced {
        var d: Direction, i: nat :| i < |LogOf(k, d).sent| && m == SentMacInput(s, k, d, i);
        CipherIgnoresCounts(s.c, k.net, n.net, i, s.bearer, d, LogOf(k, d).sent[i]);
        assert m == SentMacInput(s, n, d, i);
      } else {
        CipherIgnoresCounts(s.c, k.net, n.net, count, s.bearer, dir, plain);
        assert m == SentMacInput(s, n, dir, count);
      }
    }
    SendKeepsDirection(s, k, dir, sht, plain, Uplink);
    SendKeepsDirection(s, k, dir, sht, plain, Downlink);
  }

  lemma SendKeepsDirection(s: Setting, k: Link, dir: Direction, sht: byte, plain: Bytes, d: Direction)
    requires DirectionInv(k, d) && |LogOf(k, dir).sent| < LAST_BLOCK
    ensures DirectionInv(SendStep(s, k, dir, sht, plain), d)
  {
    hide Cipher, MacInput;
    var n := SendStep(s, k, dir, sht, plain);
    var ix: seq<nat> :| Picks(ix, LogOf(k, d).got, LogOf(k, d).sent, CountOf(Receiver(k, d), d));
    assert Picks(ix, LogOf(n, d).got, LogOf(n, d).sent, CountOf(Receiver(n, d), d));
  }

  // The heart of the argument: with at most LAST_BLOCK sends, the COUNT an accepted
  // envelope reconstructs to is that of one send of the same direction not accepted yet.
  lemma AcceptedWasSentLater(s: Setting, k: Link, dir: Direction, buf: Bytes) returns (i: nat)
    requires Inv(s, k) && Unforged(s, k, Deliver(dir, buf))
    requires DecodeProtected(s.c, s.f, Receiver(k, dir), dir, s.bearer, buf).1.Some?
    ensures CountOf(Receiver(k, dir), dir) <= i < |LogOf(k, dir).sent|
    ensures DecodeProtected(s.c, s.f, Receiver(k, dir), dir, s.bearer, buf) ==
            (WithCount(Receiver(k, dir), dir, i + 1), Some(LogOf(k, dir).sent[i]))
  {
    hide Cipher, MacInput, ReconstructCount, Open;
    var rcv := Receiver(k, dir);
    var env := Open(s.f, buf).value;
    var count := ReconstructCount(CountOf(rcv, dir), env.seqByte);
    var m := MacInput(count, s.bearer, dir, env.ciphertext);
    assert m in k.maced;
    var d: Direction, j: nat :| j < |LogOf(k, d).sent| && m == SentMacInput(s, k, d, j);
    var plain := LogOf(k, d).sent[j];
    MacInputInjective(count, dir, env.ciphertext, j, d, Cipher(s.c, k.net, j, s.bearer, d, plain), s.bearer);
    CipherIgnoresCounts(s.c, k.net, rcv, j, s.bearer, d, plain);
    CipherInverse(s.c, rcv, count, s.bearer, dir, plain);
    ReconstructNeverGoesBack(CountOf(rcv, dir), env.seqByte);
    i := j;
  }

  lemma DeliverKeepsInv(s: Setting, k: Link, dir: Direction, buf: Bytes)
    requires Inv(s, k) && Unforged(s, k, Deliver(dir, buf))
    ensures Inv(s, DeliverStep(s, k, dir, buf))
  {
    hide Cipher, MacInput, ReconstructCount, Open, DecodeProtected, Unforged;
    var n := DeliverStep(s, k, dir, buf);
    var r := DecodeProtected(s.c, s.f, Receiver(k, dir), dir, s.bearer, buf);
    OnlyAcceptedEnvelopesMoveCount(s.c, s.f, Receiver(k, dir), dir, s.bearer, buf);
    if r.1.Some? {
      var i := AcceptedWasSentLater(s, k, dir, buf);
      AcceptExtendsPicks(k, n, dir, i);
    } else {
      assert n == k;
    }
    var other := if dir.Uplink? then Downlink else Uplink;
    assert LogOf(n, other) == LogOf(k, other);
    assert DirectionInv(n, other);
    forall m | m in n.maced
      ensures exists d: Direction, i: nat :: i < |LogOf(n, d).sent| && m == SentMacInput(s, n, d, i)
    {
      var d: Direction, i: nat :| i < |LogOf(k, d).sent| && m == SentMacInput(s, k, d, i);
      CipherIgnoresCounts(s.c, k.net, n.net, i, s.bearer, d, LogOf(k, d).sent[i]);
      assert m == SentMacInput(s, n, d, i);
    }
  }

  lemma AcceptExtendsPicks(k: Link, n: Link, dir: Direction, i: nat)
    requires DirectionInv(k, dir) && CountOf(Receiver(k, dir), dir) <= i < |LogOf(k, dir).sent|
    requires LogOf(n, dir) == LogOf(k, dir).(got := LogOf(k, dir).got + [LogOf(k, dir).sent[i]])
    requires CountOf(Receiver(n, dir), dir) == i + 1
    requires CountOf(Sender(n, dir), dir) == CountOf(Sender(k, dir), dir)
    ensures DirectionInv(n, dir)
  {
    var log := LogOf(k, dir);
    var ix: seq<nat> :| Picks(ix, log.got, log.sent, CountOf(Receiver(k, dir), dir));
    assert Picks(ix + [i], LogOf(n, dir).got, log.sent, i + 1);
  }

  lemma {:induction false} RunKeepsInv(s: Setting, k: Link, events: seq<Event>)
    requires Inv(s, k) && UnforgedRun(s, k, events)
    requires |k.up.sent| + Sends(events, Uplink) <= LAST_BLOCK
    requires |k.down.sent| + Sends(events, Downlink) <= LAST_BLOCK
    ensures Inv(s, Run(s, k, events))
    decreases |events|
  {
    hide SendStep, DeliverStep, Unforged;
    if events != [] {
      var e := events[0];
      StepLogs(s, k, e);
      match e {
        case Send(dir, sht, plain) => SendKeepsInv(s, k, dir, sht, plain);
        case Deliver(dir, buf) => DeliverKeepsInv(s, k, dir, buf);
      }
      RunKeepsInv(s, Step(s, k, e), events[1..]);
    }
  }

  lemma StepLogs(s: Setting, k: Link, e: Event)
    ensures forall d :: LogOf(Step(s, k, e), d).sent ==
                        LogOf(k, d).sent + (if e.Send? && e.dir == d then [e.plain] else [])
  {
    hide Protect, DecodeProtected, MacInput;
    forall d: Direction
      ensures LogOf(Step(s, k, e), d).sent == LogOf(k, d).sent + (if e.Send? && e.dir == d then [e.plain] else [])
    {
      assert LogOf(k, d).sent + [] == LogOf(k, d).sent;
      match e
      case Send(dir, sht, plain) =>
        assert LogOf(SendStep(s, k, dir, sht, plain), dir).sent == LogOf(k, dir).sent + [plain];
      case Deliver(dir, buf) => assert LogOf(DeliverStep(s, k, dir, buf), dir).sent == LogOf(k, dir).sent;
    }
  }

  // Safety over every run: what a receiver accepts is an in-order subsequence of what its
  // peer sent in that direction, whatever the channel did.
  lemma AcceptedInOrder(s: Setting, k: Link, events: seq<Event>)
    requires Fresh(k) && UnforgedRun(s, k, events)
    requires Sends(events, Uplink) <= LAST_BLOCK && Sends(events, Downlink) <= LAST_BLOCK
    ensures InOrder(Run(s, k, events).up) && InOrder(Run(s, k, events).down)
  {
    hide Run, UnforgedRun, Sends;
    assert Picks([], [], [], 0);
    assert DirectionInv(k, Uplink) && DirectionInv(k, Downlink);
    RunKeepsInv(s, k, events);
    var last := Run(s, k, events);
    forall d: Direction
      ensures InOrder(LogOf(last, d))
    {
      assert DirectionInv(last, d);
      var log := LogOf(last, d);
      var ix: seq<nat> :| Picks(ix, log.got, log.sent, CountOf(Receiver(last, d), d));
      assert Picks(ix, log.got, log.sent, |log.sent|);
    }
    assert LogOf(last, Uplink) == last.up && LogOf(last, Downlink) == last.down;
  }

  // ---- The bound is exact -------------------------------------------------------------------

  // Every run with at most `n` sends in each direction delivers in order.
  ghost predicate SafeUpTo(s: Setting, k: Link, n: nat) {
    forall events: seq<Event> ::
      UnforgedRun(s, k, events) && Sends(events, Uplink) <= n && Sends(events, Downlink) <= n ==>
        InOrder(Run(s, k, events).up) && InOrder(Run(s, k, events).down)
  }

  // The wire form of an empty uplink message under COUNT `count`.
  function Wire(s: Setting, k: Link, count: u32): Bytes {
    Seal(s.f, 2, ProtectAt(s.c, k.ue, count, s.bearer, Uplink, []))
  }

  // `n` empty uplink messages, each delivered as it is sent.
  function PingPong(s: Setting, k: Link, n: nat): seq<Event>
    decreases n
  {
    if n == 0 then []
    else
      var sent := SendStep(s, k, Uplink, 2, []);
      var got := DeliverStep(s, sent, Uplink, Wire(s, k, k.ue.ul));
      [Send(Uplink, 2, []), Deliver(Uplink, Wire(s, k, k.ue.ul))] + PingPong(s, got, n - 1)
  }

  lemma PingPongOnce(s: Setting, k: Link)
    requires Paired(k.net, k.ue) && k.ue.ul == k.net.ul < 0xFFFF_FFFF
    ensures var sent := SendStep(s, k, Uplink, 2, []);
            var deliver := Deliver(Uplink, Wire(s, k, k.ue.ul));
            var got := Step(s, sent, deliver);
            && Unforged(s, sent, deliver)
            && got.net == k.net.(ul := k.ue.ul + 1) && got.ue == k.ue.(ul := k.ue.ul + 1)
            && got.up == Log(k.up.sent + [[]], k.up.got + [[]])
            && k.maced <= got.maced
            && MacInput(k.ue.ul, s.bearer, Uplink, Cipher(s.c, k.ue, k.ue.ul, s.bearer, Uplink, [])) in got.maced
  {
    hide Cipher, MacInput, ReconstructCount, Open, Seal;
    var sent := SendStep(s, k, Uplink, 2, []);
    assert EncodeProtected(s.c, s.f, k.ue, Uplink, 2, s.bearer, []).1 == Wire(s, k, k.ue.ul);
    DeliverAcrossGap(s.c, s.f, k.ue, k.net, Uplink, 2, s.bearer, [], 0);
    OpenSeal(s.f, 2, ProtectAt(s.c, k.ue, k.ue.ul, s.bearer, Uplink, []));
    ReconstructGap(k.net.ul, 0);
  }

  lemma {:induction false} PingPongRun(s: Setting, k: Link, n: nat)
    requires Paired(k.net, k.ue) && k.ue.ul == k.net.ul && k.ue.ul + n < 0x1_0000_0000
    ensures var events := PingPong(s, k, n);
            var last := Run(s, k, events);
            && UnforgedRun(s, k, events)
            && Sends(events, Uplink) == n && Sends(events, Downlink) == 0
            && last.net == k.net.(ul := k.ue.ul + n) && last.ue == k.ue.(ul := k.ue.ul + n)
            && |last.up.sent| == |k.up.sent| + n && |last.up.got| == |k.up.got| + n
            && k.maced <= last.maced
    decreases n
  {
    hide Unforged, SendStep, DeliverStep, Wire;
    if n > 0 {
      var first := Send(Uplink, 2, []);
      var second := Deliver(Uplink, Wire(s, k, k.ue.ul));
      var sent := Step(s, k, first);
      var got := Step(s, sent, second);
      PingPongOnce(s, k);
      PingPongRun(s, got, n - 1);
      var rest := PingPong(s, got, n - 1);
      var events := PingPong(s, k, n);
      assert events == [first] + ([second] + rest);
      assert events[1..] == [second] + rest && events[1..][1..] == rest;
      assert Unforged(s, k, first) by { UnforgedSend(s, k, first); }
    }
  }

  lemma UnforgedSend(s: Setting, k: Link, e: Event)
    requires e.Send?
    ensures Unforged(s, k, e)
  {
  }

  lemma {:induction false} RunSnoc(s: Setting, k: Link, events: seq<Event>, e: Event)
    ensures Run(s, k, events + [e]) == Step(s, Run(s, k, events), e)
    ensures UnforgedRun(s, k, events + [e]) == (UnforgedRun(s, k, events) && Unforged(s, Run(s, k, events), e))
    ensures forall d :: e.Deliver? ==> Sends(events + [e], d) == Sends(events, d)
    decreases |events|
  {
    hide Unforged, Step;
    if events == [] {
      assert [e][1..] == [] && events + [e] == [e];
    } else {
      assert (events + [e])[1..] == events[1..] + [e] && (events + [e])[0] == events[0];
      RunSnoc(s, Step(s, k, events[0]), events[1..], e);
    }
  }

  // After LAST_BLOCK + 1 sends the receiver's COUNT is inside the last block, and the very
  // first envelope reconstructs to COUNT 0 again: it is accepted a second time.
  lemma ReplayPastLastBlock(s: Setting, k: Link) returns (events: seq<Event>)
    requires Fresh(k)
    ensures UnforgedRun(s, k, events)
    ensures Sends(events, Uplink) == LAST_BLOCK + 1 && Sends(events, Downlink) == 0
    ensures |Run(s, k, events).up.got| == |Run(s, k, events).up.sent| + 1
  {
    hide Run, UnforgedRun, Unforged, Sends, SendStep, DeliverStep, Wire, PingPong;
    var n := LAST_BLOCK + 1;
    PingPongRun(s, k, n);
    PingPongFirst(s, k, n);
    var ladder := PingPong(s, k, n);
    var last := Run(s, k, ladder);
    var replay := Deliver(Uplink, Wire(s, k, 0));
    RunSnoc(s, k, ladder, replay);
    ReplayAccepted(s, k, last);
    events := ladder + [replay];
  }

  lemma PingPongFirst(s: Setting, k: Link, n: nat)
    requires Fresh(k) && 0 < n < 0x1_0000_0000
    ensures MacInput(0, s.bearer, Uplink, Cipher(s.c, k.ue, 0, s.bearer, Uplink, [])) in
            Run(s, k, PingPong(s, k, n)).maced
  {
    hide Unforged, SendStep, DeliverStep, Wire, Cipher, MacInput;
    var first := Send(Uplink, 2, []);
    var second := Deliver(Uplink, Wire(s, k, k.ue.ul));
    var got := Step(s, Step(s, k, first), second);
    PingPongOnce(s, k);
    PingPongRun(s, got, n - 1);
    var rest := PingPong(s, got, n - 1);
    assert PingPong(s, k, n) == [first] + ([second] + rest);
    assert PingPong(s, k, n)[1..] == [second] + rest && PingPong(s, k, n)[1..][1..] == rest;
  }

  lemma ReplayAccepted(s: Setting, k: Link, last: Link)
    requires Fresh(k) && last.net == k.net.(ul := LAST_BLOCK + 1)
    requires MacInput(0, s.bearer, Uplink, Cipher(s.c, k.ue, 0, s.bearer, Uplink, [])) in last.maced
    ensures var replay := Deliver(Uplink, Wire(s, k, 0));
            && Unforged(s, last, replay)
            && |Step(s, last, replay).up.got| == |last.up.got| + 1
            && Step(s, last, replay).up.sent == last.up.sent
  {
    hide Cipher, MacInput, Open, Seal;
    OpenSeal(s.f, 2, ProtectAt(s.c, k.ue, 0, s.bearer, Uplink, []));
    assert ReconstructCount(LAST_BLOCK + 1, 0) == 0;
    CipherIgnoresCounts(s.c, k.ue, last.net, 0, s.bearer, Uplink, []);
  }

  lemma {:induction false} PicksFit(ix: seq<nat>, got: seq<Bytes>, sent: seq<Bytes>, bound: nat)
    requires Picks(ix, got, sent, bound)
    ensures |got| <= bound
  {
    if got != [] {
      var last := |got| - 1;
      PicksFit(ix[..last], got[..last], sent, ix[last]);
    }
  }

  // For a fresh association with integrity on, in-order acceptance holds in every run of
  // at most `n` sends per direction exactly when `n` stays below the last block of COUNTs.
  lemma SafeExactlyUpToLastBlock(s: Setting, k: Link, n: nat)
    requires Fresh(k)
    ensures SafeUpTo(s, k, n) <==> n <= LAST_BLOCK
  {
    hide Run, UnforgedRun, Sends;
    if n <= LAST_BLOCK {
      forall events: seq<Event> |
        UnforgedRun(s, k, events) && Sends(events, Uplink) <= n && Sends(events, Downlink) <= n
        ensures InOrder(Run(s, k, events).up) && InOrder(Run(s, k, events).down)
      {
        AcceptedInOrder(s, k, events);
      }
    } else {
      var events := ReplayPastLastBlock(s, k);
      var up := Run(s, k, events).up;
      if InOrder(up) {
        var ix: seq<nat> :| Picks(ix, up.got, up.sent, |up.sent|);
        PicksFit(ix, up.got, up.sent, |up.sent|);
      }
    }
  }

  // ---- Delivery across losses ---------------------------------------------------------------

  // What a sender puts on the wire for a list of (security header type, message).
  function SendAll(s: Setting, snd: NasCtx, dir: Direction, msgs: seq<(byte, Bytes)>): (NasCtx, seq<Bytes>)
    decreases |msgs|
  {
    if msgs == [] then (snd, [])
    else
      var first := EncodeProtected(s.c, s.f, snd, dir, msgs[0].0, s.bearer, msgs[0].1);
      var rest := SendAll(s, first.0, dir, msgs[1..]);
      (rest.0, [first.1] + rest.1)
  }

  function ReceiveAll(s: Setting, rcv: NasCtx, dir: Direction, bufs: seq<Bytes>): (NasCtx, seq<Option<Bytes>>)
    decreases |bufs|
  {
    if bufs == [] then (rcv, [])
    else
      var first := DecodeProtected(s.c, s.f, rcv, dir, s.bearer, bufs[0]);
      var rest := ReceiveAll(s, first.0, dir, bufs[1..]);
      (rest.0, [first.1] + rest.1)
  }

  // `arrived` lists in order the sends that arrive; fewer than 256 are lost in a row.
  predicate InOrderArrivals(arrived: seq<nat>, from: nat, total: nat): (r: bool)
    ensures r ==> forall j :: 0 <= j < |arrived| ==> arrived[j] < total
    decreases |arrived|
  {
    if arrived == [] then true
    else
      assert forall j :: 0 < j < |arrived| ==> arrived[j] == arrived[1..][j - 1];
      from <= arrived[0] < from + 0x100 && arrived[0] < total && InOrderArrivals(arrived[1..], arrived[0] + 1, total)
  }

  // The COUNT `i` messages after `start`.
  function CountAfter(start: u32, i: nat): u32 {
    (start + i) % 0x1_0000_0000
  }

  lemma CountAfterSum(start: u32, i: nat, j: nat)
    ensures CountAfter(CountAfter(start, i), j) == CountAfter(start, i + j)
    ensures Next(CountAfter(start, i)) == CountAfter(start, i + 1)
  {
    var q: int := (start + i) / 0x1_0000_0000;
    assert start + i + j == q * 0x1_0000_0000 + (CountAfter(start, i) + j);
  }

  function At(s: Setting, snd: NasCtx, dir: Direction, msgs: seq<(byte, Bytes)>, i: nat): Bytes
    requires i < |msgs|
  {
    Seal(s.f, msgs[i].0, ProtectAt(s.c, snd, CountAfter(CountOf(snd, dir), i), s.bearer, dir, msgs[i].1))
  }

  lemma AtShifted(s: Setting, snd: NasCtx, next: NasCtx, dir: Direction, msgs: seq<(byte, Bytes)>, i: nat)
    requires 0 < i < |msgs| && Paired(snd, next) && CountOf(next, dir) == CountAfter(CountOf(snd, dir), 1)
    ensures At(s, next, dir, msgs[1..], i - 1) == At(s, snd, dir, msgs, i)
  {
    hide Seal, Cipher, MacInput, CountAfter;
    CountAfterSum(CountOf(snd, dir), 1, i - 1);
    CipherIgnoresCounts(s.c, next, snd, CountAfter(CountOf(snd, dir), i), s.bearer, dir, msgs[i].1);
  }

  lemma {:induction false} SendAllAt(s: Setting, snd: NasCtx, dir: Direction, msgs: seq<(byte, Bytes)>)
    ensures var r := SendAll(s, snd, dir, msgs);
            && |r.1| == |msgs|
            && (forall i :: 0 <= i < |msgs| ==> r.1[i] == At(s, snd, dir, msgs, i))
            && r.0 == WithCount(snd, dir, CountAfter(CountOf(snd, dir), |msgs|))
    decreases |msgs|
  {
    hide Seal, Cipher, MacInput;
    if msgs != [] {
      var first := EncodeProtected(s.c, s.f, snd, dir, msgs[0].0, s.bearer, msgs[0].1);
      SendAllAt(s, first.0, dir, msgs[1..]);
      SendAllFirst(s, snd, dir, msgs);
      CountAfterSum(CountOf(snd, dir), 1, |msgs| - 1);
      hide At, CountAfter, EncodeProtected;
      forall i | 0 < i < |msgs|
        ensures SendAll(s, snd, dir, msgs).1[i] == At(s, snd, dir, msgs, i)
      {
        AtShifted(s, snd, first.0, dir, msgs, i);
        assert SendAll(s, snd, dir, msgs).1[i] == SendAll(s, first.0, dir, msgs[1..]).1[i - 1];
      }
    }
  }

  lemma SendAllFirst(s: Setting, snd: NasCtx, dir: Direction, msgs: seq<(byte, Bytes)>)
    requires msgs != []
    ensures var first := EncodeProtected(s.c, s.f, snd, dir, msgs[0].0, s.bearer, msgs[0].1);
            && first.1 == At(s, snd, dir, msgs, 0)
            && Paired(snd, first.0)
            && first.0 == WithCount(snd, dir, CountAfter(CountOf(snd, dir), 1))
  {
    hide Seal, Cipher, MacInput;
  }

  function Chosen<T>(items: seq<T>, arrived: seq<nat>): (r: seq<T>)
    requires forall j :: 0 <= j < |arrived| ==> arrived[j] < |items|
    ensures |r| == |arrived|
  {
    if arrived == [] then [] else [items[arrived[0]]] + Chosen(items, arrived[1..])
  }

  function Accepted(msgs: seq<(byte, Bytes)>): (r: seq<Option<Bytes>>)
    ensures |r| == |msgs|
  {
    if msgs == [] then [] else [Some(msgs[0].1)] + Accepted(msgs[1..])
  }

  // Over an unbounded in-order run, COUNT wrapping included, with fewer than 256 losses in
  // a row: everything that arrives is accepted and decodes to the exact message, and the
  // receiver's COUNT ends one past that of the last arrival.
  lemma {:induction false} InOrderRunDelivers(
    s: Setting, snd: NasCtx, rcv: NasCtx, dir: Direction, msgs: seq<(byte, Bytes)>, arrived: seq<nat>, from: nat)
    requires Paired(snd, rcv) && CountOf(rcv, dir) == CountAfter(CountOf(snd, dir), from)
    requires forall i :: 0 <= i < |msgs| ==> msgs[i].0 % 16 != 0
    requires InOrderArrivals(arrived, from, |msgs|)
    ensures var wire := SendAll(s, snd, dir, msgs).1;
            var next := if arrived == [] then from else arrived[|arrived| - 1] + 1;
            && |wire| == |msgs|
            && ReceiveAll(s, rcv, dir, Chosen(wire, arrived)) ==
               (WithCount(rcv, dir, CountAfter(CountOf(snd, dir), next)), Accepted(Chosen(msgs, arrived)))
    decreases |arrived|
  {
    hide SendAll, DecodeProtected, EncodeProtected, At, CountAfter;
    SendAllAt(s, snd, dir, msgs);
    var wire := SendAll(s, snd, dir, msgs).1;
    if arrived != [] {
      var i := arrived[0];
      ArrivalAccepted(s, snd, rcv, dir, msgs, from, i);
      var after := WithCount(rcv, dir, CountAfter(CountOf(snd, dir), i + 1));
      InOrderRunDelivers(s, snd, after, dir, msgs, arrived[1..], i + 1);
      assert Chosen(wire, arrived)[1..] == Chosen(wire, arrived[1..]);
    }
  }

  lemma ArrivalAccepted(
    s: Setting, snd: NasCtx, rcv: NasCtx, dir: Direction, msgs: seq<(byte, Bytes)>, from: nat, i: nat)
    requires Paired(snd, rcv) && CountOf(rcv, dir) == CountAfter(CountOf(snd, dir), from)
    requires from <= i < from + 0x100 && i < |msgs| && msgs[i].0 % 16 != 0
    ensures DecodeProtected(s.c, s.f, rcv, dir, s.bearer, At(s, snd, dir, msgs, i)) ==
            (WithCount(rcv, dir, CountAfter(CountOf(snd, dir), i + 1)), Some(msgs[i].1))
  {
    hide Seal, MacInput, Cipher, DecodeProtected, CountAfter;
    var count := CountAfter(CountOf(snd, dir), i);
    var at := WithCount(snd, dir, count);
    CipherIgnoresCounts(s.c, at, snd, count, s.bearer, dir, msgs[i].1);
    CountAfterSum(CountOf(snd, dir), from, i - from);
    CountAfterSum(CountOf(snd, dir), i, 0);
    assert count == (CountOf(rcv, dir) + (i - from)) % 0x1_0000_0000 by { CountAfterIs(CountOf(rcv, dir), i - from); }
    DeliverAcrossGap(s.c, s.f, at, rcv, dir, msgs[i].0, s.bearer, msgs[i].1, i - from);
  }

  lemma CountAfterIs(start: u32, i: nat)
    ensures CountAfter(start, i) == (start + i) % 0x1_0000_0000
  {
  }
}

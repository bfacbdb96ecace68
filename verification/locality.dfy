// Isolation between the subscribers of one node, for any node whose steps each touch one
// entity: what an entity goes through is a fold over the messages addressed to it.
module Locality {
  import opened Bits
  import opened Ecs
  import opened Upf
  import opened Control

  // A step as its entity sees it: the user plane's address, its own slot and id, the message,
  // and the TEID on offer.
  type Sight<!I, !M> = (Option<Octets4>, Slot, u32, I, u32) -> Local<M>

  // One step of a node, with the entity it was addressed to and the TEID it took for it.
  datatype Seen<I, M> =
    Seen(before: Node, input: I, addressed: Option<u32>, taken: Option<u32>, out: seq<M>, after: Node)

  // A message together with the TEID its step took, if it took one.
  datatype Handed<I> = Handed(input: I, taken: Option<u32>)

  // The TEID a step takes, as the user plane is told of it.
  function Taken(events: seq<UpfEvent>): Option<u32> {
    if events != [] && events[0].CreateSession? then Some(events[0].ulTeid) else None
  }

  // The part of a run that is addressed to one entity, in order.
  function Own<I, M>(run: seq<Seen<I, M>>, id: u32): seq<Handed<I>> {
    if run == [] then []
    else
      var rest := Own(run[1..], id);
      if run[0].addressed == Some(id) then [Handed(run[0].input, run[0].taken)] + rest else rest
  }

  function Messages<I>(own: seq<Handed<I>>): seq<I> {
    seq(|own|, k requires 0 <= k < |own| => own[k].input)
  }

  // What the node sends in the steps addressed to one entity.
  function Sent<I, M>(run: seq<Seen<I, M>>, id: u32): seq<M> {
    if run == [] then []
    else if run[0].addressed == Some(id) then run[0].out + Sent(run[1..], id)
    else Sent(run[1..], id)
  }

  // The TEID to offer when a step is run alone: where none is taken, any will do.
  function Offer<I>(h: Handed<I>): u32 {
    if h.taken.Some? then h.taken.value else 0
  }

  function LocalRun<I, M>(
    local: Sight<I, M>, upf: Option<Octets4>, slot: Slot, id: u32, own: seq<Handed<I>>): (Slot, seq<M>)
    decreases |own|
  {
    if own == [] then (slot, [])
    else
      var l := local(upf, slot, id, own[0].input, Offer(own[0]));
      var rest := LocalRun(local, upf, l.slot, id, own[1..]);
      (rest.0, l.out + rest.1)
  }

  // The steps that took a TEID are those that take one when the entity is run alone.
  ghost predicate TakesExactly<I, M>(
    local: Sight<I, M>, upf: Option<Octets4>, slot: Slot, id: u32, own: seq<Handed<I>>)
    decreases |own|
  {
    own == [] ||
    (var l := local(upf, slot, id, own[0].input, Offer(own[0]));
     (own[0].taken.Some? <==> l.took) && TakesExactly(local, upf, l.slot, id, own[1..]))
  }

  lemma Unroll<I, M>(
    local: Sight<I, M>, upf: Option<Octets4>, slot: Slot, id: u32, h: Handed<I>, rest: seq<Handed<I>>)
    ensures var l := local(upf, slot, id, h.input, Offer(h));
            var after := LocalRun(local, upf, l.slot, id, rest);
            && LocalRun(local, upf, slot, id, [h] + rest) == (after.0, l.out + after.1)
            && (TakesExactly(local, upf, slot, id, [h] + rest)
                <==> (h.taken.Some? <==> l.took) && TakesExactly(local, upf, l.slot, id, rest))
  {
    assert ([h] + rest)[1..] == rest;
  }

  lemma NoMore<I, M>(local: Sight<I, M>, upf: Option<Octets4>, slot: Slot, id: u32)
    ensures LocalRun(local, upf, slot, id, []) == (slot, []) && TakesExactly(local, upf, slot, id, [])
  {
  }

  // A step that does not take the TEID on offer does the same whatever was on offer.
  ghost predicate IgnoresUntaken<I(!new), M>(local: Sight<I, M>) {
    forall upf: Option<Octets4>, slot: Slot, id: u32, i: I, t1: u32, t2: u32 ::
      !local(upf, slot, id, i, t1).took ==> local(upf, slot, id, i, t2) == local(upf, slot, id, i, t1)
  }

  // The step touches the entity it is addressed to, as that entity sees it, and no other.
  ghost predicate TouchesOne<I, M>(local: Sight<I, M>, x: Seen<I, M>) {
    && x.after.upf == x.before.upf
    && match x.addressed
       case None => x.after == x.before && x.out == []
       case Some(id) =>
         var teid := Alloc(x.before.teids).1;
         var l := local(x.before.upf, SlotOf(x.before.world, id), id, x.input, teid);
         && SlotOf(x.after.world, id) == l.slot && x.out == l.out && x.taken == (if l.took then Some(teid) else None)
         && forall other: u32 :: other != id ==> SlotOf(x.after.world, other) == SlotOf(x.before.world, other)
  }

  // The steps follow each other from one node state to another, and each touches one entity.
  ghost predicate Connects<I, M>(local: Sight<I, M>, from: Node, run: seq<Seen<I, M>>, to: Node)
    decreases |run|
  {
    if run == [] then from == to
    else run[0].before == from && TouchesOne(local, run[0]) && Connects(local, run[0].after, run[1..], to)
  }

  // Main result. Over any interleaving, an entity's components, the messages it is sent and
  // the steps at which it takes a TEID are those of its own subsequence run alone.
  lemma {:induction false} EntityIsItsOwnRun<I(!new), M>(
    local: Sight<I, M>, from: Node, run: seq<Seen<I, M>>, to: Node, id: u32)
    requires IgnoresUntaken(local) && Connects(local, from, run, to)
    ensures (SlotOf(to.world, id), Sent(run, id)) ==
            LocalRun(local, from.upf, SlotOf(from.world, id), id, Own(run, id))
    ensures TakesExactly(local, from.upf, SlotOf(from.world, id), id, Own(run, id))
    decreases |run|
  {
    hide SlotOf, Alloc;
    if run != [] {
      EntityIsItsOwnRun(local, run[0].after, run[1..], to, id);
      if run[0].addressed == Some(id) {
        var h := Handed(run[0].input, run[0].taken);
        OfferDoesNotMatter(local, from.upf, SlotOf(from.world, id), id, h, Alloc(from.teids).1);
        Unroll(local, from.upf, SlotOf(from.world, id), id, h, Own(run[1..], id));
      }
    }
  }

  lemma OfferDoesNotMatter<I(!new), M>(
    local: Sight<I, M>, upf: Option<Octets4>, slot: Slot, id: u32, h: Handed<I>, teid: u32)
    requires IgnoresUntaken(local)
    requires h.taken == if local(upf, slot, id, h.input, teid).took then Some(teid) else None
    ensures local(upf, slot, id, h.input, Offer(h)) == local(upf, slot, id, h.input, teid)
  {
  }

  // Two runs that hand an entity the same messages and TEIDs leave it the same and send it
  // the same, whatever was on offer at its other steps.
  lemma {:induction false} SameHandedSameEntity<I(!new), M>(
    local: Sight<I, M>, from1: Node, run1: seq<Seen<I, M>>, to1: Node,
    from2: Node, run2: seq<Seen<I, M>>, to2: Node, id: u32)
    requires IgnoresUntaken(local)
    requires Connects(local, from1, run1, to1) && Connects(local, from2, run2, to2)
    requires from1.upf == from2.upf && SlotOf(from1.world, id) == SlotOf(from2.world, id)
    requires Own(run1, id) == Own(run2, id)
    ensures SlotOf(to1.world, id) == SlotOf(to2.world, id) && Sent(run1, id) == Sent(run2, id)
  {
    hide SlotOf, Own, Sent, LocalRun, Connects, IgnoresUntaken, TakesExactly;
    EntityIsItsOwnRun(local, from1, run1, to1, id);
    EntityIsItsOwnRun(local, from2, run2, to2, id);
  }

  // ---- Steps of a run alone --------------------------------------------------------------------

  // What may be true of an entity and the message it is about to process.
  type Moment<!I> = (Slot, Handed<I>) -> bool

  ghost predicate Sometime<I, M>(
    p: Moment<I>, local: Sight<I, M>, upf: Option<Octets4>, slot: Slot, id: u32, own: seq<Handed<I>>)
    decreases |own|
  {
    own != [] &&
    (p(slot, own[0])
     || Sometime(p, local, upf, local(upf, slot, id, own[0].input, Offer(own[0])).slot, id, own[1..]))
  }

  lemma SometimeUnroll<I, M>(
    p: Moment<I>, local: Sight<I, M>, upf: Option<Octets4>, slot: Slot, id: u32, h: Handed<I>, rest: seq<Handed<I>>)
    ensures Sometime(p, local, upf, slot, id, [h] + rest)
            <==> p(slot, h) || Sometime(p, local, upf, local(upf, slot, id, h.input, Offer(h)).slot, id, rest)
  {
    assert ([h] + rest)[1..] == rest;
  }

  lemma SometimeNever<I, M>(p: Moment<I>, local: Sight<I, M>, upf: Option<Octets4>, slot: Slot, id: u32)
    ensures !Sometime(p, local, upf, slot, id, [])
  {
  }

  lemma {:induction false} SometimeAlike<I(!new), M>(
    p: Moment<I>, q: Moment<I>, local: Sight<I, M>, upf: Option<Octets4>, slot: Slot, id: u32, own: seq<Handed<I>>)
    requires forall s: Slot, h: Handed<I> :: p(s, h) <==> q(s, h)
    ensures Sometime(p, local, upf, slot, id, own) <==> Sometime(q, local, upf, slot, id, own)
    decreases |own|
  {
    if own != [] {
      SometimeAlike(p, q, local, upf, local(upf, slot, id, own[0].input, Offer(own[0])).slot, id, own[1..]);
    }
  }

  // ---- Authentication -----------------------------------------------------------------------------

  // How a node authenticates: the response an entity is expected to give, and the one a
  // message to it carries.
  datatype Challenge<!I> = Challenge(expected: Slot -> Bytes, answer: (Slot, I) -> Option<Bytes>)

  // Steps authenticate an entity exactly when it answers with the expected response.
  ghost predicate Guards<I(!new), M>(c: Challenge<I>, local: Sight<I, M>) {
    forall upf: Option<Octets4>, slot: Slot, id: u32, i: I, teid: u32 :: slot.auth != Authenticated ==>
      (local(upf, slot, id, i, teid).slot.auth == Authenticated
       <==> slot.live && c.answer(slot, i) == Some(c.expected(slot)))
  }

  // A challenge is outstanding while the expected response is not the zeros that clearing
  // leaves.
  predicate Outstanding<I>(c: Challenge<I>, slot: Slot) {
    c.expected(slot) != ZeroBytes(|c.expected(slot)|)
  }

  // A live entity that is not authenticated answers the outstanding challenge as expected.
  function AnswersChallenge<I>(c: Challenge<I>): Moment<I> {
    (slot: Slot, h: Handed<I>) =>
      && slot.live && slot.auth != Authenticated && Outstanding(c, slot)
      && c.answer(slot, h.input) == Some(c.expected(slot))
  }

  // With no challenge outstanding it answers as many zeros as the last expected response had
  // octets.
  function AnswersZeros<I>(c: Challenge<I>): Moment<I> {
    (slot: Slot, h: Handed<I>) =>
      && slot.live && slot.auth != Authenticated && !Outstanding(c, slot)
      && c.answer(slot, h.input) == Some(ZeroBytes(|c.expected(slot)|))
  }

  // The step authenticates it, with or without an outstanding challenge.
  function GetsAuthenticated<I, M>(
    c: Challenge<I>, local: Sight<I, M>, upf: Option<Octets4>, id: u32, challenged: bool): Moment<I>
  {
    (slot: Slot, h: Handed<I>) =>
      && slot.auth != Authenticated && local(upf, slot, id, h.input, Offer(h)).slot.auth == Authenticated
      && Outstanding(c, slot) == challenged
  }

  lemma MomentsMeet<I(!new), M>(
    c: Challenge<I>, local: Sight<I, M>, upf: Option<Octets4>, id: u32, slot: Slot, h: Handed<I>)
    requires Guards(c, local)
    ensures GetsAuthenticated(c, local, upf, id, true)(slot, h) <==> AnswersChallenge(c)(slot, h)
    ensures GetsAuthenticated(c, local, upf, id, false)(slot, h) <==> AnswersZeros(c)(slot, h)
  {
    var l := local(upf, slot, id, h.input, Offer(h));
    assert slot.auth != Authenticated ==>
        (l.slot.auth == Authenticated <==> slot.live && c.answer(slot, h.input) == Some(c.expected(slot)));
    assert !Outstanding(c, slot) <==> c.expected(slot) == ZeroBytes(|c.expected(slot)|);
  }

  // Over its own run: an entity is authenticated under a challenge exactly when it answers
  // one, and without a challenge exactly when it answers zeros; there is no third way.
  lemma AuthenticatedExactlyBy<I(!new), M>(
    c: Challenge<I>, local: Sight<I, M>, upf: Option<Octets4>, slot: Slot, id: u32, own: seq<Handed<I>>)
    requires Guards(c, local)
    ensures Sometime(GetsAuthenticated(c, local, upf, id, true), local, upf, slot, id, own)
            <==> Sometime(AnswersChallenge(c), local, upf, slot, id, own)
    ensures Sometime(GetsAuthenticated(c, local, upf, id, false), local, upf, slot, id, own)
            <==> Sometime(AnswersZeros(c), local, upf, slot, id, own)
    ensures slot.auth != Authenticated && LocalRun(local, upf, slot, id, own).0.auth == Authenticated ==>
              || Sometime(AnswersChallenge(c), local, upf, slot, id, own)
              || Sometime(AnswersZeros(c), local, upf, slot, id, own)
  {
    var challenged, answers := GetsAuthenticated(c, local, upf, id, true), AnswersChallenge(c);
    forall s: Slot, h: Handed<I>
      ensures challenged(s, h) <==> answers(s, h)
    {
      MomentsMeet(c, local, upf, id, s, h);
    }
    SometimeAlike(challenged, answers, local, upf, slot, id, own);
    var unchallenged, zeros := GetsAuthenticated(c, local, upf, id, false), AnswersZeros(c);
    forall s: Slot, h: Handed<I>
      ensures unchallenged(s, h) <==> zeros(s, h)
    {
      MomentsMeet(c, local, upf, id, s, h);
    }
    SometimeAlike(unchallenged, zeros, local, upf, slot, id, own);
    if slot.auth != Authenticated && LocalRun(local, upf, slot, id, own).0.auth == Authenticated {
      OnceNotThenAuthenticated(c, local, upf, slot, id, own);
    }
  }

  lemma {:induction false} OnceNotThenAuthenticated<I, M>(
    c: Challenge<I>, local: Sight<I, M>, upf: Option<Octets4>, slot: Slot, id: u32, own: seq<Handed<I>>)
    requires slot.auth != Authenticated && LocalRun(local, upf, slot, id, own).0.auth == Authenticated
    ensures || Sometime(GetsAuthenticated(c, local, upf, id, true), local, upf, slot, id, own)
            || Sometime(GetsAuthenticated(c, local, upf, id, false), local, upf, slot, id, own)
    decreases |own|
  {
    var next := local(upf, slot, id, own[0].input, Offer(own[0])).slot;
    if next.auth != Authenticated {
      OnceNotThenAuthenticated(c, local, upf, next, id, own[1..]);
    }
  }
}

/**
 * What the monitor's runs deliver: order on every channel, each unbuffered
 * send ending exactly one way, and a drained channel staying drained.
 */
module History {
  import opened Options
  import opened Channels
  import opened Monitor

  // -------------------------------------------------- order in a queue

  function Without(ids: seq<nat>, gone: set<nat>): seq<nat> {
    if ids == [] then [] else
      var earlier := Without(ids[..|ids| - 1], gone);
      if ids[|ids| - 1] in gone then earlier else earlier + [ids[|ids| - 1]]
  }

  lemma WithoutSnoc(ids: seq<nat>, x: nat, gone: set<nat>)
    ensures Without(ids + [x], gone) == if x in gone then Without(ids, gone) else Without(ids, gone) + [x]
  {
    assert (ids + [x])[..|ids|] == ids;
  }

  lemma {:induction false} WithoutMembers(ids: seq<nat>, gone: set<nat>)
    ensures forall x :: x in Without(ids, gone) <==> x in ids && x !in gone
    ensures Distinct(ids) ==> Distinct(Without(ids, gone))
  {
    if ids != [] {
      var rest, x := ids[..|ids| - 1], ids[|ids| - 1];
      WithoutMembers(rest, gone);
      assert ids == rest + [x];
      if Distinct(ids) {
        assert x !in rest;
      }
    }
  }

  lemma {:induction false} RemoveAfter<S>(xs: seq<S>, ys: seq<S>, x: S)
    requires x !in xs
    ensures Remove(xs + ys, x) == xs + Remove(ys, x)
  {
    if xs == [] {
      assert xs + ys == ys;
    } else {
      assert (xs + ys)[1..] == xs[1..] + ys;
      RemoveAfter(xs[1..], ys, x);
    }
  }

  lemma {:induction false} RemoveBefore<S>(xs: seq<S>, y: S, x: S)
    requires x in xs
    ensures Remove(xs + [y], x) == Remove(xs, x) + [y]
  {
    assert (xs + [y])[1..] == xs[1..] + [y];
    if xs[0] != x {
      RemoveBefore(xs[1..], y, x);
    }
  }

  lemma {:induction false} RemoveMissing<S>(xs: seq<S>, x: S)
    requires x !in xs
    ensures Remove(xs, x) == xs
  {
    if xs != [] {
      RemoveMissing(xs[1..], x);
    }
  }

  /** Withdrawing one more sender takes it out of the queue and leaves the order of the rest. */
  lemma {:induction false} WithoutOneMore(ids: seq<nat>, gone: set<nat>, x: nat)
    requires Distinct(ids)
    ensures Without(ids, gone + {x}) == Remove(Without(ids, gone), x)
  {
    if ids != [] {
      var rest, y := ids[..|ids| - 1], ids[|ids| - 1];
      assert ids == rest + [y];
      WithoutOneMore(rest, gone, x);
      WithoutMembers(rest, gone);
      if y == x {
        assert x !in rest;
        RemoveMissing(Without(rest, gone), x);
        if x !in gone {
          RemoveAfter(Without(rest, gone), [x], x);
          assert Remove([x], x) == [];
        }
      } else if y !in gone {
        if x in Without(rest, gone) {
          RemoveBefore(Without(rest, gone), y, x);
        } else {
          RemoveMissing(Without(rest, gone), x);
          RemoveMissing(Without(rest, gone) + [y], x);
        }
      }
    }
  }

  // ------------------------------------------------------- the invariant

  /** First in, first out: through the buffer, and past the senders withdrawn. */
  ghost predicate InOrder<T>(ch: Chan<T, nat>, p: Past<T>, withdrawn: set<nat>) {
    && p.took + ch.buffer == p.put
    && p.met + ch.senders == Without(p.made, withdrawn)
    && Distinct(p.made)
  }

  /** A drained channel has nothing left and is closed to more. */
  ghost predicate Lasting<T>(ch: Chan<T, nat>, p: Past<T>) {
    p.drained ==> ch.closed && ch.buffer == [] && ch.senders == []
  }

  ghost predicate MadeOn<T>(s: Sys<T>, c: nat, made: seq<nat>) {
    forall id: nat :: id in made <==> id < |s.offers| && s.offers[id].0 == c
  }

  ghost predicate MetOn<T>(s: Sys<T>, c: nat, met: seq<nat>) {
    forall id: nat :: id in met <==> id in s.met && id < |s.offers| && s.offers[id].0 == c
  }

  ghost predicate ChanBooks<T>(s: Sys<T>, c: nat)
    requires c in s.chans
  {
    var ch, p := s.chans[c], PastOf(s, c);
    ChanOk(ch) && InOrder(ch, p, s.withdrawn) && Lasting(ch, p) && MadeOn(s, c, p.made) && MetOn(s, c, p.met)
  }

  /** Offers are withdrawn only from closed channels. */
  ghost predicate WithdrawnOk<T>(s: Sys<T>) {
    forall id | id in s.withdrawn :: id < |s.offers| && s.offers[id].0 in s.chans && s.chans[s.offers[id].0].closed
  }

  ghost predicate MetOk<T>(s: Sys<T>) {
    forall id | id in s.met :: id < |s.offers|
  }

  ghost predicate Books<T>(s: Sys<T>) {
    && (forall c | c in s.chans :: ChanBooks(s, c))
    && (forall id: nat | id < |s.offers| :: s.offers[id].0 in s.chans)
    && MetOk(s)
    && WithdrawnOk(s)
  }

  /** Each plain unbuffered sender waits on its own offer, not yet withdrawn. */
  ghost predicate Owned<T>(s: Sys<T>) {
    && (forall t | t in s.threads && s.threads[t].w.ForTaker? ::
      var w := s.threads[t].w;
      w.id < |s.offers| && s.offers[w.id].0 == w.c && w.id !in s.withdrawn)
    && (forall t, u | t in s.threads && u in s.threads && t != u && s.threads[t].w.ForTaker?
       && s.threads[u].w.ForTaker? ::
      s.threads[t].w.id != s.threads[u].w.id)
  }

  ghost predicate Sound<T>(s: Sys<T>) {
    Quiet(s) && Books(s) && Owned(s)
  }

  // -------------------------------------------------- steps keep the books

  lemma SameBooks<T>(s: Sys<T>, s': Sys<T>)
    requires Books(s)
    requires s'.past == s.past && s'.offers == s.offers && s'.met == s.met && s'.withdrawn == s.withdrawn
    requires s'.chans.Keys == s.chans.Keys
    requires forall c | c in s.chans :: s'.chans[c] == s.chans[c].(waiting := s'.chans[c].waiting)
    ensures Books(s')
  {
    forall c | c in s'.chans ensures ChanBooks(s', c) {
      assert ChanBooks(s, c);
    }
  }

  /** What an event on channel `c` may change of the books. */
  ghost predicate OnlyOn<T>(s: Sys<T>, s': Sys<T>, c: nat) {
    && c in s.chans && c in s'.chans
    && s'.chans == s.chans[c := s'.chans[c]]
    && (forall d | d in s.chans && d != c :: PastOf(s', d) == PastOf(s, d))
    && |s.offers| <= |s'.offers|
    && (forall id: nat | id < |s.offers| :: s'.offers[id] == s.offers[id])
    && (forall id: nat | |s.offers| <= id < |s'.offers| :: s'.offers[id].0 == c)
    && (forall id | id in s'.met :: id in s.met || (id < |s'.offers| && s'.offers[id].0 == c))
    && s.met <= s'.met
    && s.withdrawn <= s'.withdrawn
    && (forall id | id in s'.withdrawn ::
       id in s.withdrawn || (id < |s'.offers| && s'.offers[id].0 == c && s'.chans[c].closed))
    && (s.chans[c].closed ==> s'.chans[c].closed)
  }

  lemma {:induction false} WithoutOthers(ids: seq<nat>, gone: set<nat>, gone': set<nat>)
    requires forall id | id in ids :: id in gone <==> id in gone'
    ensures Without(ids, gone) == Without(ids, gone')
  {
    if ids != [] {
      assert forall id | id in ids[..|ids| - 1] :: id in ids;
      WithoutOthers(ids[..|ids| - 1], gone, gone');
    }
  }

  /** An event on one channel leaves the books of the others alone. */
  lemma OthersKeep<T>(s: Sys<T>, s': Sys<T>, c: nat)
    requires Books(s) && OnlyOn(s, s', c) && ChanBooks(s', c)
    ensures Books(s')
  {
    forall d | d in s'.chans ensures ChanBooks(s', d) {
      if d != c {
        OtherKeeps(s, s', c, d);
      }
    }
  }

  lemma OtherKeeps<T>(s: Sys<T>, s': Sys<T>, c: nat, d: nat)
    requires Books(s) && OnlyOn(s, s', c) && d in s.chans && d != c
    ensures ChanBooks(s', d)
  {
    assert ChanBooks(s, d);
    WithoutOthers(PastOf(s, d).made, s.withdrawn, s'.withdrawn);
  }

  lemma PutOrder<T>(ch: Chan<T, nat>, p: Past<T>, withdrawn: set<nat>, v: T)
    requires InOrder(ch, p, withdrawn)
    ensures InOrder(Put(ch, v), p.(put := p.put + [v]), withdrawn)
  {
  }

  lemma OfferOrder<T>(ch: Chan<T, nat>, p: Past<T>, withdrawn: set<nat>, id: nat)
    requires InOrder(ch, p, withdrawn) && id !in p.made && id !in withdrawn
    ensures InOrder(Offer(ch, id), p.(made := p.made + [id]), withdrawn)
  {
    WithoutSnoc(p.made, id, withdrawn);
  }

  lemma TakeOrder<T>(ch: Chan<T, nat>, p: Past<T>, withdrawn: set<nat>)
    requires InOrder(ch, p, withdrawn) && ch.buffer != []
    ensures InOrder(Receive(ch).0, p.(took := p.took + [ch.buffer[0]]), withdrawn)
  {
    assert ch.buffer == [ch.buffer[0]] + ch.buffer[1..];
  }

  lemma MeetOrder<T>(ch: Chan<T, nat>, p: Past<T>, withdrawn: set<nat>)
    requires InOrder(ch, p, withdrawn) && ch.buffer == [] && ch.senders != []
    ensures InOrder(Receive(ch).0, p.(met := p.met + [ch.senders[0]]), withdrawn)
  {
    assert ch.senders == [ch.senders[0]] + ch.senders[1..];
  }

  lemma WithdrawOrder<T>(ch: Chan<T, nat>, p: Past<T>, withdrawn: set<nat>, id: nat)
    requires InOrder(ch, p, withdrawn) && id !in p.met
    ensures InOrder(ch.(senders := Remove(ch.senders, id)), p, withdrawn + {id})
  {
    WithoutOneMore(p.made, withdrawn, id);
    RemoveAfter(p.met, ch.senders, id);
  }

  lemma PutBooks<T>(s: Sys<T>, c: nat, v: T)
    requires Books(s) && c in s.chans && !s.chans[c].closed && |s.chans[c].buffer| < s.chans[c].cap
    ensures Books(DoPut(s, c, v))
  {
    assert ChanBooks(s, c);
    PutOrder(s.chans[c], PastOf(s, c), s.withdrawn, v);
    OthersKeep(s, DoPut(s, c, v), c);
  }

  lemma OfferKnown<T>(s: Sys<T>, c: nat, v: T)
    requires Books(s) && c in s.chans
    ensures var s', p := DoOffer(s, c, v), PastOf(s, c); MadeOn(s', c, p.made + [|s.offers|]) && MetOn(s', c, p.met)
  {
    assert ChanBooks(s, c);
    var s', p := DoOffer(s, c, v), PastOf(s, c);
    forall id: nat ensures id in p.made + [|s.offers|] <==> id < |s'.offers| && s'.offers[id].0 == c {
      assert id in p.made <==> id < |s.offers| && s.offers[id].0 == c;
    }
  }

  lemma OfferBooks<T>(s: Sys<T>, c: nat, v: T)
    requires Books(s) && c in s.chans && !s.chans[c].closed && !s.chans[c].nil && s.chans[c].cap == 0
    ensures Books(DoOffer(s, c, v))
  {
    assert ChanBooks(s, c);
    OfferOrder(s.chans[c], PastOf(s, c), s.withdrawn, |s.offers|);
    OfferKnown(s, c, v);
    OthersKeep(s, DoOffer(s, c, v), c);
  }

  lemma ReceiveBooks<T>(s: Sys<T>, c: nat)
    requires Books(s) && c in s.chans && s.chans[c].ReceiveReady()
    ensures Books(DoReceive(s, c))
  {
    var (ch, got) := Receive(s.chans[c]);
    assert ChanBooks(s, c);
    match got
    case FromBuffer(v) =>
      TakeBooks(s, c);
      SameBooks(DoTake(s, c, ch, v), DoReceive(s, c));
    case FromSender(id) =>
      MeetBooks(s, c);
      SameBooks(DoMeet(s, c, ch, id), DoReceive(s, c));
    case Nothing =>
      NothingBooks(s, c);
  }

  lemma NothingBooks<T>(s: Sys<T>, c: nat)
    requires Books(s) && c in s.chans && s.chans[c].ReceiveReady() && Receive(s.chans[c]).1.Nothing?
    ensures Books(DoReceive(s, c))
  {
    assert ChanBooks(s, c);
    OthersKeep(s, DoReceive(s, c), c);
  }

  lemma TakeBooks<T>(s: Sys<T>, c: nat)
    requires Books(s) && c in s.chans && s.chans[c].buffer != []
    ensures Books(DoTake(s, c, Receive(s.chans[c]).0, s.chans[c].buffer[0]))
  {
    var ch := s.chans[c];
    assert ChanBooks(s, c);
    TakeOrder(ch, PastOf(s, c), s.withdrawn);
    OthersKeep(s, DoTake(s, c, Receive(ch).0, ch.buffer[0]), c);
  }

  lemma MeetBooks<T>(s: Sys<T>, c: nat)
    requires Books(s) && c in s.chans && s.chans[c].buffer == [] && s.chans[c].senders != []
    ensures Books(DoMeet(s, c, Receive(s.chans[c]).0, s.chans[c].senders[0]))
  {
    var ch := s.chans[c];
    assert ChanBooks(s, c);
    MeetOrder(ch, PastOf(s, c), s.withdrawn);
    Queued(s, c, ch.senders[0]);
    OthersKeep(s, DoMeet(s, c, Receive(ch).0, ch.senders[0]), c);
  }

  /** A queued sender is an offer neither met nor withdrawn. */
  lemma Queued<T>(s: Sys<T>, c: nat, id: nat)
    requires Books(s) && c in s.chans
    ensures id in s.chans[c].senders <==> id < |s.offers| && s.offers[id].0 == c && id !in s.met && id !in s.withdrawn
  {
    assert ChanBooks(s, c);
    var p, queue := PastOf(s, c), s.chans[c].senders;
    WithoutMembers(p.made, s.withdrawn);
    Halves(p.met, queue, id);
    assert id in p.made <==> id < |s.offers| && s.offers[id].0 == c;
    assert id in p.met <==> id in s.met && id < |s.offers| && s.offers[id].0 == c;
    assert id in p.met + queue <==> id in p.made && id !in s.withdrawn;
  }

  /** A member of a sequence without repetition is in one of its two halves. */
  lemma Halves(xs: seq<nat>, ys: seq<nat>, x: nat)
    requires Distinct(xs + ys)
    ensures x in ys <==> x in xs + ys && x !in xs
  {
    if x in ys {
      InOneHalf(xs, ys, x);
    }
  }

  lemma InOneHalf(xs: seq<nat>, ys: seq<nat>, x: nat)
    requires Distinct(xs + ys) && x in ys
    ensures x !in xs && x in xs + ys
  {
    var j :| 0 <= j < |ys| && ys[j] == x;
    assert (xs + ys)[|xs| + j] == x;
    forall i | 0 <= i < |xs| ensures xs[i] != x {
      assert (xs + ys)[i] == xs[i];
    }
  }

  lemma WithdrawBooks<T>(s: Sys<T>, c: nat, id: nat)
    requires Books(s) && c in s.chans && s.chans[c].closed
    requires id < |s.offers| && s.offers[id].0 == c && id !in s.met
    ensures Books(DoWithdraw(s, c, id))
  {
    assert ChanBooks(s, c);
    var ch, p := s.chans[c], PastOf(s, c);
    WithdrawOrder(ch, p, s.withdrawn, id);
    RemoveEmpty(ch.senders, id);
    OthersKeep(s, DoWithdraw(s, c, id), c);
  }

  lemma ShutBooks<T>(s: Sys<T>, c: nat)
    requires Books(s) && c in s.chans && !s.chans[c].nil
    ensures Books(DoShut(s, c))
  {
    assert ChanBooks(s, c);
    OthersKeep(s, DoShut(s, c), c);
  }
}

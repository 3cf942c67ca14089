/**
 * How each operation of the monitor ends: when a thread goes on, with what
 * outcome, which case a select takes, and what a turn adds to the offers.
 */
module Outcomes {
  import opened Options
  import opened Channels
  import opened Monitor
  import opened History
  import opened Runs
  import opened Accounting

  // ------------------------------------------------------- who goes on

  /** What the acting thread needs in order to finish in this turn. */
  function Awaits<T>(s: Sys<T>, a: Action<T>): Wait<T>
    requires Enabled(s, a) && (a.Send? || a.ReceiveFrom? || a.Select? || a.Resume?)
  {
    match a
    case Send(_, c, v) =>
      if s.chans[c].nil then OnNil
      else if s.chans[c].cap > 0 then ForSpace(c, v)
      else ForTaker(c, |s.offers|)
    case ReceiveFrom(_, c) => if s.chans[c].nil then OnNil else ForValue(c)
    case Select(_, ks, _) => ForAny(ks)
    case Resume(t, _) => s.threads[t].w
  }

  /** Thread `t` has finished if it could, and is parked on `w` if not. */
  ghost predicate Turned<T>(s: Sys<T>, s': Sys<T>, t: nat, w: Wait<T>)
    requires WaitOf(s, w)
  {
    if Guard(s, w) then t !in s'.threads && t in s'.results
    else t in s'.threads && s'.threads[t] == Parked(w)
  }

  lemma SendTurned<T>(s: Sys<T>, t: nat, c: nat, v: T)
    requires Sound(s) && Enabled(s, Send(t, c, v))
    ensures var w := Awaits(s, Send(t, c, v)); WaitOf(s, w) && Turned(s, BeginSend(s, t, c, v), t, w)
  {
    assert ChanBooks(s, c);
    assert |s.offers| !in s.met;
  }

  lemma ValueTurned<T>(s: Sys<T>, t: nat, c: nat)
    requires c in s.chans && !s.chans[c].nil
    ensures Turned(s, TryValue(s, t, c), t, ForValue(c))
  {
  }

  lemma AnyTurned<T>(s: Sys<T>, t: nat, ks: seq<Case<T>>, pick: nat)
    requires CasesOf(s, ks) && PickOk(s, ks, pick)
    ensures Turned(s, TryAny(s, t, ks, pick), t, ForAny(ks))
  {
  }

  lemma ContinueTurned<T>(s: Sys<T>, t: nat, w: Wait<T>, pick: nat)
    requires Sound(s) && WaitOf(s, w) && (w.ForAny? ==> PickOk(s, w.cases, pick))
    ensures Turned(s, Continue(s, t, w, pick), t, w)
  {
    match w
    case OnNil =>
    case ForSpace(c, v) => assert ChanBooks(s, c);
    case ForTaker(c, id) =>
    case ForValue(c) => ValueTurned(s, t, c);
    case ForAny(ks) => AnyTurned(s, t, ks, pick);
  }

  /** A thread's turn ends its operation exactly when what it waits for is there. */
  lemma GoesOnExactly<T>(s: Sys<T>, a: Action<T>)
    requires Sound(s) && Enabled(s, a) && (a.Send? || a.ReceiveFrom? || a.Select? || a.Resume?)
    ensures WaitOf(s, Awaits(s, a)) && Turned(s, Step(s, a), ActorOf(a), Awaits(s, a))
  {
    match a
    case Send(t, c, v) => SendTurned(s, t, c, v);
    case ReceiveFrom(t, c) => if !s.chans[c].nil { ValueTurned(Wake(Count(s, c, 1)), t, c); }
    case Select(t, ks, pick) => AnyTurned(s, t, ks, pick);
    case Resume(t, pick) => ContinueTurned(s, t, s.threads[t].w, pick);
  }

  // ---------------------------------------------------------- outcomes

  /** The offer of the acting thread has met its receiver. */
  predicate Taken<T>(s: Sys<T>, a: Action<T>)
    requires Enabled(s, a)
  {
    a.Resume? && s.threads[a.t].w.ForTaker? && s.threads[a.t].w.id in s.met
  }

  /** Only closed channels make a send panic or a receive end; only the absence of a ready case makes a default run. */
  ghost predicate EndsAs<T>(s: Sys<T>, d: Deed<T>, taken: bool, o: Outcome<T>) {
    match d
    case Sends(c, _) =>
      c in s.chans && o == if s.chans[c].closed && !taken then Panicked else Sent
    case Receives(c) =>
      && c in s.chans
      && (o.Ended? || o.Received?)
      && (o.Ended? <==> s.chans[c].buffer == [] && s.chans[c].senders == [])
      && (o.Ended? ==> s.chans[c].closed)
    case Closes(c) => c in s.chans && o == if s.chans[c].nil || s.chans[c].closed then Panicked else Done
    case Other => o.Defaulted?
  }

  lemma GetsEnds<T>(s: Sys<T>, c: nat)
    requires Books(s) && c in s.chans && s.chans[c].ReceiveReady()
    ensures EndsAs(s, Receives(c), false, Gets(s, c))
  {
    QueuedKnown(s, c);
    if s.chans[c].senders != [] {
      assert s.chans[c].senders[0] in s.chans[c].senders;
    }
  }

  lemma ValueEnds<T>(s: Sys<T>, t: nat, c: nat)
    requires Books(s) && c in s.chans
    ensures var r := ResultOf(TryValue(s, t, c), t); r.Some? ==> EndsAs(s, Receives(c), false, r.value)
  {
    if s.chans[c].ReceiveReady() {
      GetsEnds(s, c);
    }
  }

  lemma ReceiveFromEnds<T>(s: Sys<T>, t: nat, c: nat)
    requires Books(s) && c in s.chans
    ensures var r := ResultOf(BeginReceive(s, t, c), t); r.Some? ==> EndsAs(s, Receives(c), false, r.value)
  {
    if !s.chans[c].nil {
      CountedBooks(s, c);
      ValueEnds(Wake(Count(s, c, 1)), t, c);
    }
  }

  lemma AnyEnds<T>(s: Sys<T>, t: nat, ks: seq<Case<T>>, pick: nat)
    requires Books(s) && PickOk(s, ks, pick)
    ensures var r := ResultOf(TryAny(s, t, ks, pick), t); r.Some? ==> EndsAs(s, CaseDeed(s, ks, pick), false, r.value)
  {
    if AnyReady(s, ks) {
      AnyResult(s, t, ks, pick);
      match ks[pick]
      case ReceiveCase(c) => GetsEnds(s, c);
      case SendCase(c, v) =>
    }
  }

  lemma SendEnds<T>(s: Sys<T>, t: nat, c: nat, v: T)
    requires Sound(s) && c in s.chans
    ensures var r := ResultOf(BeginSend(s, t, c, v), t); r.Some? ==> EndsAs(s, Sends(c, v), false, r.value)
  {
    assert |s.offers| !in s.met;
    assert ChanBooks(s, c);
  }

  /** Whatever ends, ends as it should. */
  lemma OutcomeRight<T>(s: Sys<T>, a: Action<T>)
    requires Sound(s) && Enabled(s, a)
    ensures var r := ResultOf(Step(s, a), ActorOf(a)); r.Some? ==> EndsAs(s, DeedOf(s, a), Taken(s, a), r.value)
  {
    match a
    case Send(t, c, v) => SendEnds(s, t, c, v);
    case ReceiveFrom(t, c) => ReceiveFromEnds(s, t, c);
    case Close(_, _) =>
    case Select(t, ks, pick) => AnyEnds(s, t, ks, pick);
    case Resume(t, pick) => ResumeEnds(s, t, pick);
    case Spurious(_) =>
  }

  lemma ResumeEnds<T>(s: Sys<T>, t: nat, pick: nat)
    requires Sound(s) && Enabled(s, Resume(t, pick))
    ensures var a := Resume(t, pick); var r := ResultOf(Step(s, a), t);
            r.Some? ==> EndsAs(s, WaitDeed(s, s.threads[t].w, pick), Taken(s, a), r.value)
  {
    match s.threads[t].w
    case OnNil =>
    case ForSpace(c, v) =>
    case ForTaker(c, id) =>
    case ForValue(c) => ValueEnds(s, t, c);
    case ForAny(ks) => AnyEnds(s, t, ks, pick);
  }

  /**
   * A select takes the ready case picked, whichever of them that is, and a
   * default only when nothing is ready: then the last one.
   */
  lemma SelectTakes<T>(s: Sys<T>, t: nat, ks: seq<Case<T>>, pick: nat)
    requires CasesOf(s, ks) && PickOk(s, ks, pick)
    ensures var s' := TryAny(s, t, ks, pick);
            t in s'.threads || (t in s'.results && TakesCase(s, ks, pick, s'.results[t]))
  {
  }

  ghost predicate TakesCase<T>(s: Sys<T>, ks: seq<Case<T>>, pick: nat, o: Outcome<T>) {
    && o.Chose? && o.i < |ks|
    && ((exists i :: 0 <= i < |ks| && CaseReady(s, ks[i])) ==> o.i == pick && CaseReady(s, ks[o.i]))
    && ((forall i | 0 <= i < |ks| :: !CaseReady(s, ks[i])) ==>
      o.o == Defaulted && ks[o.i].DefaultCase? && forall j | o.i < j < |ks| :: !ks[j].DefaultCase?)
  }

  // -------------------------------------------------- offers and channels

  /** The offer a turn makes: by starting a plain send, or by a select's send, on an open unbuffered channel. */
  function Offered<T>(s: Sys<T>, a: Action<T>): seq<(nat, T)>
    requires Enabled(s, a)
  {
    match a
    case Send(_, c, v) => if OpenUnbuffered(s, c) then [(c, v)] else []
    case Select(_, ks, pick) => CaseOffered(s, ks, pick)
    case Resume(t, pick) =>
      (match s.threads[t].w
       case ForAny(ks) => CaseOffered(s, ks, pick)
       case _ => [])
    case _ => []
  }

  predicate OpenUnbuffered<T>(s: Sys<T>, c: nat) {
    c in s.chans && !s.chans[c].nil && !s.chans[c].closed && s.chans[c].cap == 0
  }

  function CaseOffered<T>(s: Sys<T>, ks: seq<Case<T>>, pick: nat): seq<(nat, T)> {
    match CaseDeed(s, ks, pick)
    case Sends(c, v) => if OpenUnbuffered(s, c) then [(c, v)] else []
    case _ => []
  }

  /** The offer a turn withdraws: a plain sender's own, unmet, once the channel is closed. */
  function Withdrawn<T>(s: Sys<T>, a: Action<T>): set<nat>
    requires Scoped(s) && Enabled(s, a)
  {
    if a.Resume? then
      (match s.threads[a.t].w
       case ForTaker(c, id) =>
         assert WaitOf(s, s.threads[a.t].w);
         if s.chans[c].closed && id !in s.met then {id} else {}
       case _ => {})
    else {}
  }

  lemma ReceiveOffers<T>(s: Sys<T>, c: nat)
    requires c in s.chans
    ensures DoReceive(s, c).offers == s.offers && DoReceive(s, c).withdrawn == s.withdrawn
  {
  }

  lemma AnyOffers<T>(s: Sys<T>, t: nat, ks: seq<Case<T>>, pick: nat)
    requires PickOk(s, ks, pick)
    ensures OffersChange(s, TryAny(s, t, ks, pick), CaseOffered(s, ks, pick), {})
  {
    if AnyReady(s, ks) && ks[pick].ReceiveCase? {
      ReceiveOffers(s, ks[pick].c);
    }
  }

  ghost predicate OffersChange<T>(s: Sys<T>, s': Sys<T>, more: seq<(nat, T)>, gone: set<nat>) {
    s'.offers == s.offers + more && s'.withdrawn == s.withdrawn + gone
  }

  /** Offers are made and withdrawn as the senders ask, and never otherwise. */
  lemma OffersExact<T>(s: Sys<T>, a: Action<T>)
    requires Sound(s) && Enabled(s, a)
    ensures OffersChange(s, Step(s, a), Offered(s, a), Withdrawn(s, a))
  {
    match a
    case Send(t, c, v) => SendOffers(s, t, c, v);
    case ReceiveFrom(t, c) => BeginReceiveOffers(s, t, c);
    case Close(t, c) => CloseOffers(s, t, c);
    case Select(t, ks, pick) => AnyOffers(s, t, ks, pick);
    case Spurious(t) => SpuriousOffers(s, t);
    case Resume(t, pick) => ResumeOffers(s, t, pick);
  }

  lemma CloseOffers<T>(s: Sys<T>, t: nat, c: nat)
    requires c in s.chans
    ensures OffersChange(s, DoClose(s, t, c), [], {})
  {
  }

  lemma SpuriousOffers<T>(s: Sys<T>, t: nat)
    requires t in s.threads && Scoped(s)
    ensures OffersChange(s, Step(s, Spurious(t)), [], {})
  {
  }

  lemma BeginReceiveOffers<T>(s: Sys<T>, t: nat, c: nat)
    requires c in s.chans
    ensures OffersChange(s, BeginReceive(s, t, c), [], {})
  {
    if !s.chans[c].nil {
      ValueOffers(Wake(Count(s, c, 1)), t, c);
    }
  }

  lemma ValueOffers<T>(s: Sys<T>, t: nat, c: nat)
    requires c in s.chans
    ensures OffersChange(s, TryValue(s, t, c), [], {})
  {
    ReceiveOffers(s, c);
  }

  lemma SpaceOffers<T>(s: Sys<T>, t: nat, c: nat, v: T)
    requires c in s.chans
    ensures OffersChange(s, TrySpace(s, t, c, v), [], {})
  {
  }

  lemma TakerOffers<T>(s: Sys<T>, t: nat, c: nat, id: nat)
    requires c in s.chans
    ensures OffersChange(s, TryTaker(s, t, c, id), [], if s.chans[c].closed && id !in s.met then {id} else {})
  {
  }

  lemma ResumeOffers<T>(s: Sys<T>, t: nat, pick: nat)
    requires Sound(s) && Enabled(s, Resume(t, pick))
    ensures var a := Resume(t, pick); OffersChange(s, Step(s, a), Offered(s, a), Withdrawn(s, a))
  {
    match s.threads[t].w
    case OnNil =>
    case ForSpace(c, v) => SpaceOffers(s, t, c, v);
    case ForTaker(c, id) => TakerOffers(s, t, c, id);
    case ForValue(c) => ValueOffers(s, t, c);
    case ForAny(ks) => AnyOffers(s, t, ks, pick);
  }

  lemma SendOffers<T>(s: Sys<T>, t: nat, c: nat, v: T)
    requires Sound(s) && c in s.chans
    ensures OffersChange(s, BeginSend(s, t, c, v), if OpenUnbuffered(s, c) then [(c, v)] else [], {})
  {
    if OpenUnbuffered(s, c) {
      var s1 := Wake(DoOffer(s, c, v));
      assert s1.offers == s.offers + [(c, v)] && s1.withdrawn == s.withdrawn && !s1.chans[c].closed;
      OpenTaker(s1, t, c, |s.offers|);
    } else if !s.chans[c].nil && !s.chans[c].closed {
      SpaceOffers(s, t, c, v);
    }
  }

  lemma OpenTaker<T>(s: Sys<T>, t: nat, c: nat, id: nat)
    requires c in s.chans && !s.chans[c].closed
    ensures var s' := TryTaker(s, t, c, id); s'.offers == s.offers && s'.withdrawn == s.withdrawn
  {
  }

  /** A channel is closed by a close of it and by nothing else; its kind never changes. */
  lemma ClosedExactly<T>(s: Sys<T>, a: Action<T>, c: nat)
    requires Sound(s) && Enabled(s, a) && c in s.chans
    ensures SameKinds(s, Step(s, a))
    ensures Step(s, a).chans[c].closed <==> s.chans[c].closed || (a.Close? && a.c == c && !s.chans[c].nil)
  {
    StepKinds(s, a);
    match a
    case Send(t, d, v) => SendCloses(s, t, d, v, c);
    case ReceiveFrom(t, d) => BeginReceiveCloses(s, t, d, c);
    case Close(t, d) => CloseCloses(s, t, d, c);
    case Select(t, ks, pick) => AnyCloses(s, t, ks, pick, c);
    case Spurious(_) =>
    case Resume(t, pick) => ContinueCloses(s, t, s.threads[t].w, pick, c);
  }

  lemma BeginReceiveCloses<T>(s: Sys<T>, t: nat, d: nat, c: nat)
    requires c in s.chans && d in s.chans
    ensures var s' := BeginReceive(s, t, d); c in s'.chans && s'.chans[c].closed == s.chans[c].closed
  {
    if !s.chans[d].nil {
      ValueCloses(Wake(Count(s, d, 1)), t, d, c);
    }
  }

  lemma CloseCloses<T>(s: Sys<T>, t: nat, d: nat, c: nat)
    requires c in s.chans && d in s.chans
    ensures var s' := DoClose(s, t, d);
            c in s'.chans && s'.chans[c].closed == (s.chans[c].closed || (d == c && !s.chans[c].nil))
  {
  }

  lemma ContinueCloses<T>(s: Sys<T>, t: nat, w: Wait<T>, pick: nat, c: nat)
    requires WaitOf(s, w) && c in s.chans
    ensures var s' := Continue(s, t, w, pick); c in s'.chans && s'.chans[c].closed == s.chans[c].closed
  {
    match w
    case ForValue(d) => ValueCloses(s, t, d, c);
    case ForAny(ks) => AnyCloses(s, t, ks, pick, c);
    case _ =>
  }

  lemma SendCloses<T>(s: Sys<T>, t: nat, d: nat, v: T, c: nat)
    requires c in s.chans && d in s.chans
    ensures var s' := BeginSend(s, t, d, v); c in s'.chans && s'.chans[c].closed == s.chans[c].closed
  {
    SpaceCloses(s, t, d, v, c);
    TakerCloses(Wake(DoOffer(s, d, v)), t, d, |s.offers|, c);
  }

  lemma SpaceCloses<T>(s: Sys<T>, t: nat, d: nat, v: T, c: nat)
    requires c in s.chans && d in s.chans
    ensures var s' := TrySpace(s, t, d, v); c in s'.chans && s'.chans[c].closed == s.chans[c].closed
  {
  }

  lemma TakerCloses<T>(s: Sys<T>, t: nat, d: nat, id: nat, c: nat)
    requires c in s.chans && d in s.chans
    ensures var s' := TryTaker(s, t, d, id); c in s'.chans && s'.chans[c].closed == s.chans[c].closed
  {
  }

  lemma ReceiveCloses<T>(s: Sys<T>, d: nat, c: nat)
    requires c in s.chans && d in s.chans
    ensures var s' := DoReceive(s, d); c in s'.chans && d in s'.chans && s'.chans[c].closed == s.chans[c].closed
  {
  }

  lemma ValueCloses<T>(s: Sys<T>, t: nat, d: nat, c: nat)
    requires c in s.chans && d in s.chans
    ensures var s' := TryValue(s, t, d); c in s'.chans && s'.chans[c].closed == s.chans[c].closed
  {
    ReceiveCloses(s, d, c);
  }

  lemma AnyCloses<T>(s: Sys<T>, t: nat, ks: seq<Case<T>>, pick: nat, c: nat)
    requires c in s.chans
    ensures var s' := TryAny(s, t, ks, pick); c in s'.chans && s'.chans[c].closed == s.chans[c].closed
  {
    if AnyReady(s, ks) && pick < |ks| && CaseReady(s, ks[pick]) && ks[pick].ReceiveCase? {
      ReceiveCloses(s, ks[pick].c, c);
    }
  }
}

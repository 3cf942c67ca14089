/**
 * Every run of the monitor: the invariants of each step carried over all
 * interleavings of sends, receives, closes and selects, and what they say
 * about one send and one channel.
 */
module Runs {
  import opened Options
  import opened Channels
  import opened Monitor
  import opened History

  // ------------------------------------------------ one turn of a thread

  lemma TrySpaceBooks<T>(s: Sys<T>, t: nat, c: nat, v: T)
    requires Books(s) && c in s.chans && s.chans[c].cap > 0
    ensures Books(TrySpace(s, t, c, v))
  {
    assert ChanBooks(s, c);
    if s.chans[c].closed || |s.chans[c].buffer| == s.chans[c].cap {
      SameBooks(s, TrySpace(s, t, c, v));
    } else {
      PutBooks(s, c, v);
      SameBooks(DoPut(s, c, v), TrySpace(s, t, c, v));
    }
  }

  lemma TryTakerBooks<T>(s: Sys<T>, t: nat, c: nat, id: nat)
    requires Books(s) && c in s.chans && id < |s.offers| && s.offers[id].0 == c
    ensures Books(TryTaker(s, t, c, id))
  {
    if id !in s.met && s.chans[c].closed {
      WithdrawBooks(s, c, id);
      SameBooks(DoWithdraw(s, c, id), TryTaker(s, t, c, id));
    } else {
      SameBooks(s, TryTaker(s, t, c, id));
    }
  }

  lemma CountBooks<T>(s: Sys<T>, c: nat, t: nat, o: Outcome<T>)
    requires Books(s) && c in s.chans
    ensures Books(Leave(Wake(Count(s, c, -1)), t, o))
  {
    SameBooks(s, Leave(Wake(Count(s, c, -1)), t, o));
  }

  lemma TryValueBooks<T>(s: Sys<T>, t: nat, c: nat)
    requires Books(s) && c in s.chans
    ensures Books(TryValue(s, t, c))
  {
    if s.chans[c].ReceiveReady() {
      ReceiveBooks(s, c);
      CountBooks(DoReceive(s, c), c, t, Gets(s, c));
    } else {
      SameBooks(s, TryValue(s, t, c));
    }
  }

  lemma CommitBooks<T>(s: Sys<T>, k: Case<T>)
    requires Books(s) && CaseReady(s, k)
    ensures Books(Commit(s, k))
  {
    assert ChanBooks(s, k.c);
    match k
    case SendCase(c, v) =>
      if !s.chans[c].closed {
        if s.chans[c].cap > 0 {
          PutBooks(s, c, v);
          SameBooks(DoPut(s, c, v), Commit(s, k));
        } else {
          OfferBooks(s, c, v);
          SameBooks(DoOffer(s, c, v), Commit(s, k));
        }
      }
    case ReceiveCase(c) =>
      ReceiveBooks(s, c);
  }

  lemma TryAnyBooks<T>(s: Sys<T>, t: nat, ks: seq<Case<T>>, pick: nat)
    requires Books(s)
    ensures Books(TryAny(s, t, ks, pick))
  {
    if AnyReady(s, ks) && pick < |ks| && CaseReady(s, ks[pick]) {
      CommitBooks(s, ks[pick]);
      SameBooks(Commit(s, ks[pick]), TryAny(s, t, ks, pick));
    } else {
      SameBooks(s, TryAny(s, t, ks, pick));
    }
  }

  lemma BeginSendBooks<T>(s: Sys<T>, t: nat, c: nat, v: T)
    requires Books(s) && c in s.chans
    ensures Books(BeginSend(s, t, c, v))
  {
    var ch := s.chans[c];
    if ch.nil || ch.closed {
      SameBooks(s, BeginSend(s, t, c, v));
    } else if ch.cap > 0 {
      TrySpaceBooks(s, t, c, v);
    } else {
      OfferBooks(s, c, v);
      SameBooks(DoOffer(s, c, v), Wake(DoOffer(s, c, v)));
      TryTakerBooks(Wake(DoOffer(s, c, v)), t, c, |s.offers|);
    }
  }

  lemma BeginReceiveBooks<T>(s: Sys<T>, t: nat, c: nat)
    requires Books(s) && c in s.chans
    ensures Books(BeginReceive(s, t, c))
  {
    if s.chans[c].nil {
      SameBooks(s, BeginReceive(s, t, c));
    } else {
      SameBooks(s, Wake(Count(s, c, 1)));
      TryValueBooks(Wake(Count(s, c, 1)), t, c);
    }
  }

  lemma StepBooks<T>(s: Sys<T>, a: Action<T>)
    requires Scoped(s) && Books(s) && Owned(s) && Enabled(s, a)
    ensures Books(Step(s, a))
  {
    match a
    case Send(t, c, v) => BeginSendBooks(s, t, c, v);
    case ReceiveFrom(t, c) => BeginReceiveBooks(s, t, c);
    case Close(_, c) =>
      if s.chans[c].nil || s.chans[c].closed {
        SameBooks(s, Step(s, a));
      } else {
        ShutBooks(s, c);
        SameBooks(DoShut(s, c), Step(s, a));
      }
    case Select(t, ks, pick) => TryAnyBooks(s, t, ks, pick);
    case Resume(t, pick) =>
      match s.threads[t].w {
        case OnNil => SameBooks(s, Step(s, a));
        case ForSpace(c, v) => TrySpaceBooks(s, t, c, v);
        case ForTaker(c, id) => TryTakerBooks(s, t, c, id);
        case ForValue(c) => TryValueBooks(s, t, c);
        case ForAny(ks) => TryAnyBooks(s, t, ks, pick);
      }
    case Spurious(_) => SameBooks(s, Step(s, a));
  }

  // ------------------------------------------------ who owns which offer

  /** Threads waiting for a taker in `s'` did so in `s`. */
  ghost predicate NoNewOwners<T>(s: Sys<T>, s': Sys<T>) {
    forall t | t in s'.threads && s'.threads[t].w.ForTaker? :: t in s.threads && s'.threads[t].w == s.threads[t].w
  }

  ghost predicate OffersGrow<T>(s: Sys<T>, s': Sys<T>) {
    |s.offers| <= |s'.offers| && forall id: nat | id < |s.offers| :: s'.offers[id] == s.offers[id]
  }

  lemma OwnedKept<T>(s: Sys<T>, s': Sys<T>)
    requires Owned(s) && NoNewOwners(s, s') && OffersGrow(s, s') && s'.withdrawn == s.withdrawn
    ensures Owned(s')
  {
  }

  lemma TryTakerOwned<T>(s: Sys<T>, t: nat, c: nat, id: nat)
    requires Owned(Park(s, t, ForTaker(c, id))) && c in s.chans
    ensures Owned(TryTaker(s, t, c, id))
  {
    var s1, s' := Park(s, t, ForTaker(c, id)), TryTaker(s, t, c, id);
    if id in s.met {
      OwnedKept(s1, s');
    } else if s.chans[c].closed {
      forall u | u in s'.threads && s'.threads[u].w.ForTaker? ensures s'.threads[u].w.id != id {
        assert s1.threads[u] == s'.threads[u] && s1.threads[t].w.id == id;
      }
      forall u | u in s'.threads ensures s'.threads[u] == s1.threads[u] {
      }
    }
  }

  lemma OfferOwned<T>(s: Sys<T>, t: nat, c: nat, v: T)
    requires Books(s) && Owned(s) && c in s.chans && t !in s.threads
    ensures Owned(Park(Wake(DoOffer(s, c, v)), t, ForTaker(c, |s.offers|)))
  {
    var s1, id := Wake(DoOffer(s, c, v)), |s.offers|;
    OwnedKept(s, s1);
    forall u | u in s1.threads && s1.threads[u].w.ForTaker? ensures s1.threads[u].w.id != id {
      assert s1.threads[u].w == s.threads[u].w;
    }
    NewOwner(s1, t, c, id);
  }

  lemma NewOwner<T>(s: Sys<T>, t: nat, c: nat, id: nat)
    requires Owned(s) && t !in s.threads && id < |s.offers| && s.offers[id].0 == c && id !in s.withdrawn
    requires forall u | u in s.threads && s.threads[u].w.ForTaker? :: s.threads[u].w.id != id
    ensures Owned(Park(s, t, ForTaker(c, id)))
  {
    var s' := Park(s, t, ForTaker(c, id));
    forall u | u in s'.threads && u != t ensures s'.threads[u] == s.threads[u] {
    }
  }

  lemma BeginSendOwned<T>(s: Sys<T>, t: nat, c: nat, v: T)
    requires Books(s) && Owned(s) && c in s.chans && t !in s.threads
    ensures Owned(BeginSend(s, t, c, v))
  {
    var ch := s.chans[c];
    if ch.nil || ch.closed || ch.cap > 0 {
      OwnedKept(s, BeginSend(s, t, c, v));
    } else {
      OfferOwned(s, t, c, v);
      TryTakerOwned(Wake(DoOffer(s, c, v)), t, c, |s.offers|);
    }
  }

  /** A receive makes nobody wait for a taker. */
  lemma ReceiveOwned<T>(s: Sys<T>, c: nat)
    requires Owned(s) && c in s.chans
    ensures NoNewOwners(s, DoReceive(s, c)) && OffersGrow(s, DoReceive(s, c))
        && DoReceive(s, c).withdrawn == s.withdrawn
    ensures c in DoReceive(s, c).chans
  {
  }

  lemma TryValueOwned<T>(s: Sys<T>, t: nat, c: nat)
    requires Owned(s) && c in s.chans
    ensures Owned(TryValue(s, t, c))
  {
    if s.chans[c].ReceiveReady() {
      ReceiveOwned(s, c);
      OwnedKept(s, DoReceive(s, c));
      CountOwned(DoReceive(s, c), c, t, Gets(s, c));
    } else {
      OwnedKept(s, Park(s, t, ForValue(c)));
    }
  }

  lemma CountOwned<T>(s: Sys<T>, c: nat, t: nat, o: Outcome<T>)
    requires Owned(s) && c in s.chans
    ensures Owned(Leave(Wake(Count(s, c, -1)), t, o))
  {
    OwnedKept(s, Leave(Wake(Count(s, c, -1)), t, o));
  }

  lemma BeginReceiveOwned<T>(s: Sys<T>, t: nat, c: nat)
    requires Owned(s) && c in s.chans
    ensures Owned(BeginReceive(s, t, c))
  {
    if s.chans[c].nil {
      OwnedKept(s, Park(s, t, OnNil));
    } else {
      OwnedKept(s, Wake(Count(s, c, 1)));
      TryValueOwned(Wake(Count(s, c, 1)), t, c);
    }
  }

  lemma CommitOwned<T>(s: Sys<T>, k: Case<T>)
    requires Owned(s) && CaseReady(s, k)
    ensures Owned(Commit(s, k))
  {
    match k
    case SendCase(_, _) => OwnedKept(s, Commit(s, k));
    case ReceiveCase(c) =>
      ReceiveOwned(s, c);
      OwnedKept(s, DoReceive(s, c));
  }

  lemma TryAnyOwned<T>(s: Sys<T>, t: nat, ks: seq<Case<T>>, pick: nat)
    requires Owned(s)
    ensures Owned(TryAny(s, t, ks, pick))
  {
    if AnyReady(s, ks) {
      if pick < |ks| && CaseReady(s, ks[pick]) {
        CommitOwned(s, ks[pick]);
        OwnedKept(Commit(s, ks[pick]), TryAny(s, t, ks, pick));
      }
    } else {
      OwnedKept(s, TryAny(s, t, ks, pick));
    }
  }

  lemma ContinueOwned<T>(s: Sys<T>, t: nat, pick: nat)
    requires Owned(s) && t in s.threads && WaitOf(s, s.threads[t].w)
    ensures Owned(Continue(s, t, s.threads[t].w, pick))
  {
    match s.threads[t].w
    case ForTaker(c, id) =>
      OwnedKept(s, Park(s, t, ForTaker(c, id)));
      TryTakerOwned(s, t, c, id);
    case ForValue(c) => TryValueOwned(s, t, c);
    case ForAny(ks) => TryAnyOwned(s, t, ks, pick);
    case ForSpace(c, v) => OwnedKept(s, TrySpace(s, t, c, v));
    case OnNil => OwnedKept(s, Park(s, t, OnNil));
  }

  lemma StepOwned<T>(s: Sys<T>, a: Action<T>)
    requires Scoped(s) && Books(s) && Owned(s) && Enabled(s, a)
    ensures Owned(Step(s, a))
  {
    match a
    case Send(t, c, v) => BeginSendOwned(s, t, c, v);
    case Select(t, ks, pick) => TryAnyOwned(s, t, ks, pick);
    case Resume(t, pick) => ContinueOwned(s, t, pick);
    case ReceiveFrom(t, c) => BeginReceiveOwned(s, t, c);
    case Close(t, c) => OwnedKept(s, DoClose(s, t, c));
    case Spurious(_) => OwnedKept(s, Step(s, a));
  }

  // ------------------------------------------------------- whole runs

  lemma StepSound<T>(s: Sys<T>, a: Action<T>)
    requires Sound(s) && Enabled(s, a)
    ensures Sound(Step(s, a))
  {
    forall c | c in s.chans ensures ChanOk(s.chans[c]) {
      assert ChanBooks(s, c);
    }
    StepQuiet(s, a);
    StepBooks(s, a);
    StepOwned(s, a);
  }

  ghost predicate Legal<T>(s: Sys<T>, acts: seq<Action<T>>)
    decreases |acts|
  {
    acts == [] || (Scoped(s) && Enabled(s, acts[0]) && Legal(Step(s, acts[0]), acts[1..]))
  }

  ghost function Exec<T>(s: Sys<T>, acts: seq<Action<T>>): Sys<T>
    requires Legal(s, acts)
    decreases |acts|
  {
    if acts == [] then s else Exec(Step(s, acts[0]), acts[1..])
  }

  lemma InitialSound<T>(s: Sys<T>)
    requires Initial(s)
    ensures Sound(s)
  {
  }

  lemma {:induction false} RunSound<T>(s: Sys<T>, acts: seq<Action<T>>)
    requires Sound(s) && Legal(s, acts)
    ensures Sound(Exec(s, acts))
    decreases |acts|
  {
    if acts != [] {
      StepSound(s, acts[0]);
      RunSound(Step(s, acts[0]), acts[1..]);
    }
  }

  /** No lost wakeups: after any run, a thread parked on the condition could not go on. */
  lemma NoLostWakeups<T>(s: Sys<T>, acts: seq<Action<T>>, t: nat)
    requires Initial(s) && Legal(s, acts)
    requires var now := Exec(s, acts); t in now.threads && now.threads[t].Parked?
    ensures var now := Exec(s, acts); WaitOf(now, now.threads[t].w) && !Guard(now, now.threads[t].w)
  {
    InitialSound(s);
    RunSound(s, acts);
  }

  /** A buffered channel delivers what was put in, in order, within its capacity, with no sender queued. */
  lemma BufferedInOrder<T>(s: Sys<T>, acts: seq<Action<T>>, c: nat)
    requires Initial(s) && Legal(s, acts)
    requires c in Exec(s, acts).chans
    ensures var now := Exec(s, acts); var ch, p := now.chans[c], PastOf(now, c);
            && p.took + ch.buffer == p.put
            && |ch.buffer| <= ch.cap
            && (ch.cap > 0 ==> ch.senders == [])
  {
    InitialSound(s);
    RunSound(s, acts);
    assert ChanBooks(Exec(s, acts), c);
  }

  /** Every unbuffered send, plain or by select, is queued, met or withdrawn, never two of these. */
  lemma SendEndsOnce<T>(s: Sys<T>, acts: seq<Action<T>>, id: nat)
    requires Initial(s) && Legal(s, acts)
    requires id < |Exec(s, acts).offers|
    ensures var now := Exec(s, acts); var c := now.offers[id].0;
            && c in now.chans
            && var queue, met := now.chans[c].senders, PastOf(now, c).met;
              && multiset(queue)[id] + multiset(met)[id] + (if id in now.withdrawn then 1 else 0) == 1
              && (id in met <==> id in now.met)
              && (id in now.withdrawn ==> now.chans[c].closed)
  {
    InitialSound(s);
    RunSound(s, acts);
    OfferEndsOnce(Exec(s, acts), id);
  }

  /** Offers stay made, meetings stay met, withdrawals stay withdrawn. */
  ghost predicate Grows<T>(s: Sys<T>, s': Sys<T>) {
    OffersGrow(s, s') && s.met <= s'.met && s.withdrawn <= s'.withdrawn
  }

  lemma ReceiveGrows<T>(s: Sys<T>, c: nat)
    requires c in s.chans
    ensures Grows(s, DoReceive(s, c)) && c in DoReceive(s, c).chans
  {
  }

  lemma CommitGrows<T>(s: Sys<T>, k: Case<T>)
    requires CaseReady(s, k)
    ensures Grows(s, Commit(s, k))
  {
    if k.ReceiveCase? {
      ReceiveGrows(s, k.c);
    }
  }

  lemma TryAnyGrows<T>(s: Sys<T>, t: nat, ks: seq<Case<T>>, pick: nat)
    ensures Grows(s, TryAny(s, t, ks, pick))
  {
    if AnyReady(s, ks) && pick < |ks| && CaseReady(s, ks[pick]) {
      CommitGrows(s, ks[pick]);
    }
  }

  lemma TryValueGrows<T>(s: Sys<T>, t: nat, c: nat)
    requires c in s.chans
    ensures Grows(s, TryValue(s, t, c))
  {
    ReceiveGrows(s, c);
  }

  lemma BeginSendGrows<T>(s: Sys<T>, t: nat, c: nat, v: T)
    requires c in s.chans
    ensures Grows(s, BeginSend(s, t, c, v))
  {
    assert Grows(s, Wake(DoOffer(s, c, v)));
    assert Grows(Wake(DoOffer(s, c, v)), TryTaker(Wake(DoOffer(s, c, v)), t, c, |s.offers|));
  }

  lemma StepGrows<T>(s: Sys<T>, a: Action<T>)
    requires Scoped(s) && Enabled(s, a)
    ensures Grows(s, Step(s, a))
  {
    match a
    case Send(t, c, v) => BeginSendGrows(s, t, c, v);
    case ReceiveFrom(t, c) => TryValueGrows(Wake(Count(s, c, 1)), t, c);
    case Close(_, c) =>
    case Select(t, ks, pick) => TryAnyGrows(s, t, ks, pick);
    case Resume(t, pick) =>
      match s.threads[t].w {
        case ForValue(c) => TryValueGrows(s, t, c);
        case ForAny(ks) => TryAnyGrows(s, t, ks, pick);
        case _ =>
      }
    case Spurious(_) =>
  }

  lemma {:induction false} RunGrows<T>(s: Sys<T>, acts: seq<Action<T>>)
    requires Legal(s, acts)
    ensures Grows(s, Exec(s, acts))
    decreases |acts|
  {
    if acts != [] {
      StepGrows(s, acts[0]);
      RunGrows(Step(s, acts[0]), acts[1..]);
    }
  }

  /** An end is for good: a met send is never withdrawn later, a withdrawn one never met. */
  lemma SendEndsForGood<T>(s: Sys<T>, before: seq<Action<T>>, later: seq<Action<T>>, id: nat)
    requires Initial(s) && Legal(s, before) && Legal(Exec(s, before), later)
    requires id < |Exec(s, before).offers|
    ensures var now, end := Exec(s, before), Exec(Exec(s, before), later);
            && (id in now.met ==> id in end.met && id !in end.withdrawn)
            && (id in now.withdrawn ==> id in end.withdrawn && id !in end.met)
  {
    var now := Exec(s, before);
    InitialSound(s);
    RunSound(s, before);
    RunSound(now, later);
    RunGrows(now, later);
    OfferEndsOnce(Exec(now, later), id);
  }

  lemma OfferEndsOnce<T>(s: Sys<T>, id: nat)
    requires Books(s) && id < |s.offers|
    ensures var c := s.offers[id].0;
            && c in s.chans
            && var queue, met := s.chans[c].senders, PastOf(s, c).met;
              && multiset(queue)[id] + multiset(met)[id] + (if id in s.withdrawn then 1 else 0) == 1
              && (id in met <==> id in s.met)
              && (id in s.withdrawn ==> s.chans[c].closed)
  {
    var c := s.offers[id].0;
    assert ChanBooks(s, c);
    var p, queue := PastOf(s, c), s.chans[c].senders;
    WithoutMembers(p.made, s.withdrawn);
    CountDistinct(p.met + queue, id);
  }

  lemma {:induction false} CountDistinct(xs: seq<nat>, x: nat)
    requires Distinct(xs)
    ensures multiset(xs)[x] == if x in xs then 1 else 0
  {
    if xs != [] {
      var rest := xs[..|xs| - 1];
      CountDistinct(rest, x);
      assert xs == rest + [xs[|xs| - 1]];
    }
  }

}

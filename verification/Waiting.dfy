/**
 * Who waits for what: a step touches its own thread's wait only, a channel's
 * waitingReceivers is the number of threads inside a receive on it, a plain
 * unbuffered send leaves in one of two ways, and a drained channel stays so.
 */
module Waiting {
  import opened Channels
  import opened Monitor
  import opened History
  import opened Runs

  function Actor<T>(a: Action<T>): nat {
    a.t
  }

  /** Other threads are neither begun nor ended, and wait for what they waited for. */
  ghost predicate Others<T>(s: Sys<T>, s': Sys<T>, t: nat) {
    forall u: nat | u != t ::
      && (u in s'.threads <==> u in s.threads)
      && (u in s.threads ==> s'.threads[u].w == s.threads[u].w)
  }

  /** Same threads, same waits, same receiver counts. */
  ghost predicate Still<T>(s: Sys<T>, s': Sys<T>) {
    && s'.threads.Keys == s.threads.Keys
    && (forall u | u in s.threads :: s'.threads[u].w == s.threads[u].w)
    && SameCounts(s, s')
  }

  ghost predicate SameCounts<T>(s: Sys<T>, s': Sys<T>) {
    && s'.chans.Keys == s.chans.Keys
    && (forall c | c in s.chans :: s'.chans[c].waiting == s.chans[c].waiting)
  }

  lemma PutStill<T>(s: Sys<T>, c: nat, v: T)
    requires c in s.chans
    ensures Still(s, Wake(DoPut(s, c, v)))
  {
  }

  lemma OfferStill<T>(s: Sys<T>, c: nat, v: T)
    requires c in s.chans
    ensures Still(s, Wake(DoOffer(s, c, v)))
  {
  }

  lemma ReceiveStill<T>(s: Sys<T>, c: nat)
    requires c in s.chans
    ensures Still(s, DoReceive(s, c))
  {
  }

  lemma WithdrawStill<T>(s: Sys<T>, c: nat, id: nat)
    requires c in s.chans
    ensures Still(s, DoWithdraw(s, c, id))
  {
  }

  lemma CommitStill<T>(s: Sys<T>, k: Case<T>)
    requires CaseReady(s, k)
    ensures Still(s, Commit(s, k))
  {
    match k
    case SendCase(c, v) =>
      PutStill(s, c, v);
      OfferStill(s, c, v);
    case ReceiveCase(c) =>
      ReceiveStill(s, c);
  }

  /** A turn in which nobody enters or leaves a receive. */
  ghost predicate PlainTurn<T>(s: Sys<T>, s': Sys<T>, t: nat) {
    && Others(s, s', t) && SameCounts(s, s')
    && (t in s'.threads ==> !s'.threads[t].w.ForValue?)
  }

  lemma StillThenGone<T>(s: Sys<T>, s1: Sys<T>, t: nat)
    requires Still(s, s1)
    ensures forall o :: PlainTurn(s, Leave(s1, t, o), t)
  {
  }

  lemma StillThenParked<T>(s: Sys<T>, t: nat, w: Wait<T>)
    requires !w.ForValue?
    ensures PlainTurn(s, Park(s, t, w), t)
  {
  }

  lemma TrySpaceTurn<T>(s: Sys<T>, t: nat, c: nat, v: T)
    requires c in s.chans
    ensures PlainTurn(s, TrySpace(s, t, c, v), t)
  {
    PutStill(s, c, v);
    StillThenGone(s, s, t);
    StillThenGone(s, Wake(DoPut(s, c, v)), t);
    StillThenParked(s, t, ForSpace(c, v));
  }

  lemma TryTakerTurn<T>(s: Sys<T>, t: nat, c: nat, id: nat)
    requires c in s.chans
    ensures PlainTurn(s, TryTaker(s, t, c, id), t)
  {
    WithdrawStill(s, c, id);
    StillThenGone(s, s, t);
    StillThenGone(s, DoWithdraw(s, c, id), t);
    StillThenParked(s, t, ForTaker(c, id));
  }

  lemma TryAnyTurn<T>(s: Sys<T>, t: nat, ks: seq<Case<T>>, pick: nat)
    requires PickOk(s, ks, pick)
    ensures PlainTurn(s, TryAny(s, t, ks, pick), t)
  {
    if AnyReady(s, ks) {
      CommitStill(s, ks[pick]);
      StillThenGone(s, Commit(s, ks[pick]), t);
    } else {
      StillThenGone(s, s, t);
      StillThenParked(s, t, ForAny(ks));
    }
  }

  lemma BeginSendTurn<T>(s: Sys<T>, t: nat, c: nat, v: T)
    requires c in s.chans
    ensures PlainTurn(s, BeginSend(s, t, c, v), t)
  {
    StillThenParked(s, t, OnNil);
    StillThenGone(s, s, t);
    TrySpaceTurn(s, t, c, v);
    OfferStill(s, c, v);
    var s1 := Wake(DoOffer(s, c, v));
    TryTakerTurn(s1, t, c, |s.offers|);
    assert Others(s, TryTaker(s1, t, c, |s.offers|), t);
  }

  /** Thread `t` is inside a receive on `c`. */
  predicate Receiving<T>(s: Sys<T>, t: nat, c: nat) {
    t in s.threads && s.threads[t].w.ForValue? && s.threads[t].w.c == c
  }

  /** A turn keeps each channel's count in step with what its own thread does. */
  ghost predicate CountedTurn<T>(s: Sys<T>, s': Sys<T>, t: nat) {
    && Others(s, s', t)
    && s'.chans.Keys == s.chans.Keys
    && forall c | c in s.chans ::
        s'.chans[c].waiting - (if Receiving(s', t, c) then 1 else 0) ==
        s.chans[c].waiting - (if Receiving(s, t, c) then 1 else 0)
  }

  lemma PlainCounted<T>(s: Sys<T>, s': Sys<T>, t: nat)
    requires PlainTurn(s, s', t) && (t in s.threads ==> !s.threads[t].w.ForValue?)
    ensures CountedTurn(s, s', t)
  {
  }

  /** One more receiver is counted than the threads show, until this turn ends. */
  ghost predicate ReceiveTurn<T>(s: Sys<T>, s': Sys<T>, t: nat, c: nat) {
    && Others(s, s', t)
    && s'.chans.Keys == s.chans.Keys
    && (forall d | d in s.chans && d != c :: s'.chans[d].waiting == s.chans[d].waiting)
    && c in s.chans
    && (t in s'.threads ==> s'.threads[t].w == ForValue(c) && s'.chans[c].waiting == s.chans[c].waiting)
    && (t !in s'.threads ==> s'.chans[c].waiting == s.chans[c].waiting - 1)
  }

  lemma TryValueTurn<T>(s: Sys<T>, t: nat, c: nat)
    requires c in s.chans
    ensures ReceiveTurn(s, TryValue(s, t, c), t, c)
  {
    if s.chans[c].ReceiveReady() {
      ReceiveStill(s, c);
      LastCount(s, DoReceive(s, c), t, c);
    }
  }

  lemma LastCount<T>(s: Sys<T>, s1: Sys<T>, t: nat, c: nat)
    requires Still(s, s1) && c in s.chans
    ensures forall o :: ReceiveTurn(s, Leave(Wake(Count(s1, c, -1)), t, o), t, c)
  {
  }

  lemma BeginReceiveTurn<T>(s: Sys<T>, t: nat, c: nat)
    requires c in s.chans && t !in s.threads
    ensures CountedTurn(s, BeginReceive(s, t, c), t)
  {
    if s.chans[c].nil {
      StillThenParked(s, t, OnNil);
    } else {
      TryValueTurn(Wake(Count(s, c, 1)), t, c);
    }
  }

  lemma ResumeTurn<T>(s: Sys<T>, t: nat, pick: nat)
    requires Scoped(s) && Enabled(s, Resume(t, pick))
    ensures CountedTurn(s, Step(s, Resume(t, pick)), t)
  {
    var w := s.threads[t].w;
    match w
    case OnNil =>
      StillThenParked(s, t, OnNil);
    case ForSpace(c, v) =>
      TrySpaceTurn(s, t, c, v);
      PlainCounted(s, TrySpace(s, t, c, v), t);
    case ForTaker(c, id) =>
      TryTakerTurn(s, t, c, id);
      PlainCounted(s, TryTaker(s, t, c, id), t);
    case ForValue(c) =>
      TryValueTurn(s, t, c);
    case ForAny(ks) =>
      TryAnyTurn(s, t, ks, pick);
      PlainCounted(s, TryAny(s, t, ks, pick), t);
  }

  lemma CloseTurn<T>(s: Sys<T>, t: nat, c: nat)
    requires c in s.chans
    ensures PlainTurn(s, DoClose(s, t, c), t)
  {
    StillThenGone(s, s, t);
    assert Still(s, Wake(DoShut(s, c)));
    StillThenGone(s, Wake(DoShut(s, c)), t);
  }

  lemma StepTurn<T>(s: Sys<T>, a: Action<T>)
    requires Scoped(s) && Enabled(s, a)
    ensures CountedTurn(s, Step(s, a), Actor(a))
  {
    match a
    case Send(t, c, v) =>
      BeginSendTurn(s, t, c, v);
      PlainCounted(s, BeginSend(s, t, c, v), t);
    case ReceiveFrom(t, c) =>
      BeginReceiveTurn(s, t, c);
    case Close(t, c) =>
      CloseTurn(s, t, c);
      PlainCounted(s, DoClose(s, t, c), t);
    case Select(t, ks, pick) =>
      TryAnyTurn(s, t, ks, pick);
      PlainCounted(s, TryAny(s, t, ks, pick), t);
    case Resume(t, pick) =>
      ResumeTurn(s, t, pick);
    case Spurious(_) =>
  }

  // --------------------------------------------- waiting receivers counted

  ghost function Receivers<T>(s: Sys<T>, c: nat): set<nat> {
    set t | t in s.threads && Receiving(s, t, c)
  }

  ghost predicate Counted<T>(s: Sys<T>) {
    forall c | c in s.chans :: s.chans[c].waiting == |Receivers(s, c)|
  }

  lemma WithoutOne(x: set<nat>, t: nat)
    ensures |x - {t}| == |x| - if t in x then 1 else 0
  {
    if t !in x {
      assert x - {t} == x;
    }
  }

  lemma OneMoves<T>(s: Sys<T>, s': Sys<T>, t: nat, c: nat)
    requires Others(s, s', t)
    ensures |Receivers(s', c)| - (if Receiving(s', t, c) then 1 else 0)
        == |Receivers(s, c)| - (if Receiving(s, t, c) then 1 else 0)
  {
    var now, was := Receivers(s', c), Receivers(s, c);
    forall u: nat | u != t ensures u in now <==> u in was {
    }
    assert now - {t} == was - {t};
    WithoutOne(now, t);
    WithoutOne(was, t);
  }

  lemma StepCounted<T>(s: Sys<T>, a: Action<T>)
    requires Scoped(s) && Counted(s) && Enabled(s, a)
    ensures Counted(Step(s, a))
  {
    var s', t := Step(s, a), Actor(a);
    StepTurn(s, a);
    forall c | c in s'.chans ensures s'.chans[c].waiting == |Receivers(s', c)| {
      OneMoves(s, s', t, c);
    }
  }

  lemma {:induction false} RunCounted<T>(s: Sys<T>, acts: seq<Action<T>>)
    requires Legal(s, acts) && Counted(s)
    ensures Counted(Exec(s, acts))
    decreases |acts|
  {
    if acts != [] {
      StepCounted(s, acts[0]);
      RunCounted(Step(s, acts[0]), acts[1..]);
    }
  }

  /** After any run, waitingReceivers is the number of threads inside a receive on the channel. */
  lemma WaitingReceiversCounted<T>(s: Sys<T>, acts: seq<Action<T>>, c: nat)
    requires Initial(s) && Legal(s, acts) && c in Exec(s, acts).chans
    ensures var now := Exec(s, acts); now.chans[c].waiting == |Receivers(now, c)|
  {
    forall d | d in s.chans ensures s.chans[d].waiting == |Receivers(s, d)| {
      assert Receivers(s, d) == {};
    }
    RunCounted(s, acts);
  }

  /** After any run, a select finds an open unbuffered channel ready to send on iff some thread is receiving on it. */
  lemma SelectSendReadyExact<T>(s: Sys<T>, acts: seq<Action<T>>, c: nat)
    requires Initial(s) && Legal(s, acts) && c in Exec(s, acts).chans
    requires var ch := Exec(s, acts).chans[c]; !ch.nil && ch.cap == 0 && !ch.closed
    ensures var now := Exec(s, acts); now.chans[c].SendReady() <==> exists t :: Receiving(now, t, c)
  {
    WaitingReceiversCounted(s, acts, c);
    var now := Exec(s, acts);
    var rs := Receivers(now, c);
    if rs == {} {
      forall t: nat ensures !Receiving(now, t, c) {
        assert t !in rs;
      }
    } else {
      var t :| t in rs;
      assert Receiving(now, t, c);
    }
  }

  // -------------------------------------------- how a plain send leaves

  /** Taken by a receive, or withdrawn after a close; never by another thread's step. */
  lemma SendLeaves<T>(s: Sys<T>, a: Action<T>, t: nat)
    requires Sound(s) && Enabled(s, a)
    requires t in s.threads && s.threads[t].w.ForTaker? && t !in Step(s, a).threads
    ensures var w := s.threads[t].w; var s' := Step(s, a);
            && a.Resume? && a.t == t
            && (w.id in s.met ==> s'.met == s.met && s'.withdrawn == s.withdrawn && w.id !in s'.withdrawn)
            && (w.id !in s.met ==> s.chans[w.c].closed && s'.met == s.met && s'.withdrawn == s.withdrawn + {w.id})
  {
    StepTurn(s, a);
    var w := s.threads[t].w;
    assert Actor(a) == t;
    assert Step(s, a) == TryTaker(s, t, w.c, w.id);
  }

  // ---------------------------------------------------- drained channels

  /** Closed with nothing left, and this history. */
  ghost predicate Dry<T>(s: Sys<T>, c: nat, p: Past<T>) {
    && c in s.chans && PastOf(s, c) == p && p.drained
    && s.chans[c].closed && s.chans[c].buffer == [] && s.chans[c].senders == []
  }

  lemma DryReceive<T>(s: Sys<T>, d: nat, c: nat, p: Past<T>)
    requires Dry(s, c, p) && d in s.chans
    ensures Dry(DoReceive(s, d), c, p)
  {
  }

  lemma DryCommit<T>(s: Sys<T>, k: Case<T>, c: nat, p: Past<T>)
    requires Dry(s, c, p) && CaseReady(s, k)
    ensures Dry(Commit(s, k), c, p)
  {
    if k.ReceiveCase? {
      DryReceive(s, k.c, c, p);
    }
  }

  lemma DryAny<T>(s: Sys<T>, t: nat, ks: seq<Case<T>>, pick: nat, c: nat, p: Past<T>)
    requires Dry(s, c, p)
    ensures Dry(TryAny(s, t, ks, pick), c, p)
  {
    if AnyReady(s, ks) && pick < |ks| && CaseReady(s, ks[pick]) {
      DryCommit(s, ks[pick], c, p);
    }
  }

  lemma DryValue<T>(s: Sys<T>, t: nat, d: nat, c: nat, p: Past<T>)
    requires Dry(s, c, p) && d in s.chans
    ensures Dry(TryValue(s, t, d), c, p)
  {
    DryReceive(s, d, c, p);
  }

  lemma DryTaker<T>(s: Sys<T>, t: nat, d: nat, id: nat, c: nat, p: Past<T>)
    requires Dry(s, c, p) && d in s.chans
    ensures Dry(TryTaker(s, t, d, id), c, p)
  {
  }

  lemma DryStep<T>(s: Sys<T>, a: Action<T>, c: nat, p: Past<T>)
    requires Scoped(s) && Enabled(s, a) && Dry(s, c, p)
    ensures Dry(Step(s, a), c, p)
  {
    match a
    case Send(t, d, v) =>
      if d != c { DryTaker(Wake(DoOffer(s, d, v)), t, d, |s.offers|, c, p); }
    case ReceiveFrom(t, d) =>
      DryValue(Wake(Count(s, d, 1)), t, d, c, p);
    case Close(t, d) =>
    case Select(t, ks, pick) =>
      DryAny(s, t, ks, pick, c, p);
    case Resume(t, pick) =>
      match s.threads[t].w {
        case OnNil =>
        case ForSpace(d, v) =>
        case ForTaker(d, id) => DryTaker(s, t, d, id, c, p);
        case ForValue(d) => DryValue(s, t, d, c, p);
        case ForAny(ks) => DryAny(s, t, ks, pick, c, p);
      }
    case Spurious(_) =>
  }

  lemma {:induction false} DryRun<T>(s: Sys<T>, acts: seq<Action<T>>, c: nat, p: Past<T>)
    requires Legal(s, acts) && Dry(s, c, p)
    ensures Dry(Exec(s, acts), c, p)
    decreases |acts|
  {
    if acts != [] {
      DryStep(s, acts[0], c, p);
      DryRun(Step(s, acts[0]), acts[1..], c, p);
    }
  }

  /**
   * Once any receive on a channel has reported ok = false, no run delivers,
   * puts in, meets or queues another value on it, and every receive is ready
   * and finds nothing.
   */
  lemma DrainedStaysDrained<T>(s: Sys<T>, before: seq<Action<T>>, later: seq<Action<T>>, c: nat)
    requires Initial(s) && Legal(s, before) && Legal(Exec(s, before), later)
    requires var now := Exec(s, before); c in now.chans && PastOf(now, c).drained
    ensures var now, end := Exec(s, before), Exec(Exec(s, before), later);
            && c in end.chans && PastOf(end, c) == PastOf(now, c)
            && end.chans[c].ReceiveReady() && Receive(end.chans[c]).1 == Nothing
  {
    InitialSound(s);
    RunSound(s, before);
    var now := Exec(s, before);
    assert ChanBooks(now, c);
    DryRun(now, later, c, PastOf(now, c));
    RunSound(now, later);
    assert ChanBooks(Exec(now, later), c);
  }

  // ------------------------------------------------ a run of the monitor

  /** One thread's send on an unbuffered channel, and another's receive. */
  function Handover<T>(v: T): seq<Action<T>> {
    [Send(0, 0, v), ReceiveFrom(1, 0), Resume(0, 0)]
  }

  ghost predicate OneChannel<T>(s: Sys<T>) {
    Initial(s) && 0 in s.chans && s.chans[0] == Chan(0, false, [], [], 0, false)
  }

  /** Both operations are over: the send returned, the receive with its value. */
  ghost predicate HandedOver<T>(s: Sys<T>, v: T) {
    && |s.threads| == 0 && PastOf(s, 0).met == [0] && s.offers == [(0, v)]
    && 0 in s.results && s.results[0] == Sent && 1 in s.results && s.results[1] == Received(v)
  }

  /** The sender waits until the receive meets it, and then both are gone. */
  lemma HandoverRuns<T>(s: Sys<T>, v: T)
    requires OneChannel(s)
    ensures Legal(s, Handover(v))
    ensures HandedOver(Exec(s, Handover(v)), v)
  {
    var a, b, c := Send(0, 0, v), ReceiveFrom(1, 0), Resume(0, 0);
    HandoverOffers(s, v);
    var s1 := Step(s, a);
    HandoverMeets(s1, v);
    var s2 := Step(s1, b);
    HandoverReturns(s2, v);
    ThreeSteps(s, a, b, c);
  }

  lemma OneStep<T>(s: Sys<T>, a: Action<T>, rest: seq<Action<T>>)
    requires Scoped(s) && Enabled(s, a) && Legal(Step(s, a), rest)
    ensures Legal(s, [a] + rest) && Exec(s, [a] + rest) == Exec(Step(s, a), rest)
  {
    assert ([a] + rest)[0] == a && ([a] + rest)[1..] == rest;
  }

  lemma ThreeSteps<T>(s: Sys<T>, a: Action<T>, b: Action<T>, c: Action<T>)
    requires Scoped(s) && Enabled(s, a)
    requires var s1 := Step(s, a); Scoped(s1) && Enabled(s1, b)
    requires var s2 := Step(Step(s, a), b); Scoped(s2) && Enabled(s2, c)
    ensures Legal(s, [a, b, c]) && Exec(s, [a, b, c]) == Step(Step(Step(s, a), b), c)
  {
    var s1 := Step(s, a);
    var s2 := Step(s1, b);
    OneStep(s2, c, []);
    OneStep(s1, b, [c] + []);
    OneStep(s, a, [b] + ([c] + []));
    assert [a, b, c] == [a] + ([b] + ([c] + []));
  }

  /** The receive has met the sender and gone; the sender is woken. */
  ghost predicate Meeting<T>(s: Sys<T>, v: T) {
    && 1 in s.results && s.results[1] == Received(v) && Met(s, v)
  }

  ghost predicate Met<T>(s: Sys<T>, v: T) {
    && s.threads == map[0 := Woken(ForTaker(0, 0))] && s.met == {0} && PastOf(s, 0).met == [0]
    && s.offers == [(0, v)] && 0 in s.chans && s.chans[0].cap == 0
  }

  lemma HandoverReturns<T>(s: Sys<T>, v: T)
    requires Meeting(s, v)
    ensures Scoped(s) && Enabled(s, Resume(0, 0))
    ensures HandedOver(Step(s, Resume(0, 0)), v)
  {
    assert Step(s, Resume(0, 0)) == Leave(s, 0, Sent);
  }

  ghost predicate Offering<T>(s: Sys<T>, v: T) {
    && 0 in s.chans && s.chans[0] == Chan(0, false, [], [0], 0, false)
    && s.threads == map[0 := Parked(ForTaker(0, 0))] && s.offers == [(0, v)] && s.met == {} && PastOf(s, 0).met == []
  }

  lemma HandoverOffers<T>(s: Sys<T>, v: T)
    requires OneChannel(s)
    ensures Scoped(s) && Enabled(s, Send(0, 0, v)) && Offering(Step(s, Send(0, 0, v)), v)
  {
    var s' := Step(s, Send(0, 0, v));
    assert s.offers == [] && s.threads == map[];
    assert s'.threads == map[0 := Parked(ForTaker(0, 0))];
  }

  lemma HandoverMeets<T>(s: Sys<T>, v: T)
    requires Offering(s, v)
    ensures Scoped(s) && Enabled(s, ReceiveFrom(1, 0)) && Meeting(Step(s, ReceiveFrom(1, 0)), v)
  {
    var s1 := Wake(Count(s, 0, 1));
    assert s1.chans[0] == Chan(0, false, [], [0], 1, false) && s1.threads == map[0 := Woken(ForTaker(0, 0))];
    MeetingTurn(s1, v);
    assert Step(s, ReceiveFrom(1, 0)) == TryValue(s1, 1, 0);
  }

  lemma MeetingTurn<T>(s: Sys<T>, v: T)
    requires 0 in s.chans && s.chans[0] == Chan(0, false, [], [0], 1, false)
    requires s.threads == map[0 := Woken(ForTaker(0, 0))] && s.offers == [(0, v)]
    requires s.met == {} && PastOf(s, 0).met == []
    ensures Meeting(TryValue(s, 1, 0), v)
  {
    SenderMet(s, v);
    var s2 := DoReceive(s, 0);
    var s3 := Wake(Count(s2, 0, -1));
    assert s3.threads == s2.threads && 1 !in s3.threads;
    assert TryValue(s, 1, 0) == Leave(s3, 1, Received(v));
  }

  lemma SenderMet<T>(s: Sys<T>, v: T)
    requires 0 in s.chans && s.chans[0] == Chan(0, false, [], [0], 1, false)
    requires s.threads == map[0 := Woken(ForTaker(0, 0))] && s.offers == [(0, v)]
    requires s.met == {} && PastOf(s, 0).met == []
    ensures s.chans[0].ReceiveReady() && Met(DoReceive(s, 0), v) && Gets(s, 0) == Received(v)
  {
    assert Receive(s.chans[0]).1 == FromSender(0);
  }
}

/**
 * What operations return against what channels record: a send that returned put
 * its value in, a receive that returned a value took it out, and nothing else
 * does either. Carried over runs: the values received, then the buffer, are the
 * values of the sends that returned.
 */
module Accounting {
  import opened Options
  import opened Channels
  import opened Monitor
  import opened History
  import opened Runs

  /** What the acting thread's turn is about. */
  datatype Deed<T> = Sends(c: nat, v: T) | Receives(c: nat) | Closes(c: nat) | Other

  function CaseDeed<T>(s: Sys<T>, ks: seq<Case<T>>, pick: nat): Deed<T> {
    if !AnyReady(s, ks) || pick >= |ks| then Other else
      match ks[pick]
      case SendCase(c, v) => Sends(c, v)
      case ReceiveCase(c) => Receives(c)
      case DefaultCase => Other
  }

  function WaitDeed<T>(s: Sys<T>, w: Wait<T>, pick: nat): Deed<T> {
    match w
    case OnNil => Other
    case ForSpace(c, v) => Sends(c, v)
    case ForTaker(c, id) => if id < |s.offers| then Sends(c, s.offers[id].1) else Other
    case ForValue(c) => Receives(c)
    case ForAny(ks) => CaseDeed(s, ks, pick)
  }

  function DeedOf<T>(s: Sys<T>, a: Action<T>): Deed<T>
    requires Enabled(s, a)
  {
    match a
    case Send(_, c, v) => Sends(c, v)
    case ReceiveFrom(_, c) => Receives(c)
    case Close(_, c) => Closes(c)
    case Select(_, ks, pick) => CaseDeed(s, ks, pick)
    case Resume(t, pick) => WaitDeed(s, s.threads[t].w, pick)
    case Spurious(_) => Other
  }

  /** The outcome of thread `t`'s operation, the choice of a select aside; none while it waits. */
  function ResultOf<T>(s: Sys<T>, t: nat): Option<Outcome<T>> {
    if t in s.threads || t !in s.results then None
    else match s.results[t] {
      case Chose(_, o) => Some(o)
      case o => Some(o)
    }
  }

  // ------------------------------------------------------------- one turn

  /** The value a finished send leaves on channel `c`. */
  function SentHere<T>(d: Deed<T>, r: Option<Outcome<T>>, c: nat): seq<T> {
    if d.Sends? && d.c == c && r.Some? && r.value.Sent? then [d.v] else []
  }

  /** The value a finished receive brings from channel `c`. */
  function ReceivedHere<T>(d: Deed<T>, r: Option<Outcome<T>>, c: nat): seq<T> {
    if d.Receives? && d.c == c && r.Some? && r.value.Received? then [r.value.v] else []
  }

  /** The values of the offers named, in order. */
  function ValuesOf<T>(offers: seq<(nat, T)>, ids: seq<nat>): seq<T> {
    if ids == [] then [] else ValuesOf(offers, ids[..|ids| - 1]) + ValueAt(offers, ids[|ids| - 1])
  }

  function ValueAt<T>(offers: seq<(nat, T)>, id: nat): seq<T> {
    if id < |offers| then [offers[id].1] else []
  }

  lemma ValuesSnoc<T>(offers: seq<(nat, T)>, ids: seq<nat>, id: nat)
    ensures ValuesOf(offers, ids + [id]) == ValuesOf(offers, ids) + ValueAt(offers, id)
  {
    assert (ids + [id])[..|ids|] == ids;
  }

  lemma {:induction false} ValuesGrow<T>(s: Sys<T>, s': Sys<T>, ids: seq<nat>)
    requires OffersGrow(s, s') && forall id | id in ids :: id < |s.offers|
    ensures ValuesOf(s'.offers, ids) == ValuesOf(s.offers, ids)
  {
    if ids != [] {
      var rest := ids[..|ids| - 1];
      forall id | id in rest ensures id < |s.offers| {
        assert id in ids;
      }
      assert ids[|ids| - 1] in ids;
      ValuesGrow(s, s', rest);
    }
  }

  ghost predicate Known<T>(s: Sys<T>, c: nat) {
    forall id | id in PastOf(s, c).met :: id < |s.offers|
  }

  /** Values sent into and received from the buffer of `c`; no meeting. */
  ghost predicate Passes<T>(s: Sys<T>, s': Sys<T>, c: nat, sent: seq<T>, received: seq<T>) {
    var p, p' := PastOf(s, c), PastOf(s', c);
    p'.put == p.put + sent && p'.took == p.took + received && p'.met == p.met
  }

  /** Values received by meeting senders on `c`; nothing through the buffer. */
  ghost predicate Meets<T>(s: Sys<T>, s': Sys<T>, c: nat, received: seq<T>) {
    var p, p' := PastOf(s, c), PastOf(s', c);
    && p'.put == p.put && p'.took == p.took
    && Known(s, c) && Known(s', c) && OffersGrow(s, s')
    && ValuesOf(s'.offers, p'.met) == ValuesOf(s.offers, p.met) + received
  }

  /** The whole effect of a turn on the record of channel `c`. */
  ghost predicate Accounted<T>(s: Sys<T>, s': Sys<T>, c: nat, d: Deed<T>, r: Option<Outcome<T>>)
    requires c in s.chans
  {
    if s.chans[c].cap > 0 then Passes(s, s', c, SentHere(d, r, c), ReceivedHere(d, r, c))
    else Meets(s, s', c, ReceivedHere(d, r, c))
  }

  /** A turn that leaves the records of `c` alone. */
  lemma Untouched<T>(s: Sys<T>, s': Sys<T>, c: nat, d: Deed<T>, r: Option<Outcome<T>>)
    requires c in s.chans && Known(s, c) && OffersGrow(s, s')
    requires PastOf(s', c).put == PastOf(s, c).put && PastOf(s', c).took == PastOf(s, c).took
    requires PastOf(s', c).met == PastOf(s, c).met
    requires SentHere(d, r, c) == [] || s.chans[c].cap == 0
    requires ReceivedHere(d, r, c) == []
    ensures Accounted(s, s', c, d, r)
  {
    ValuesGrow(s, s', PastOf(s, c).met);
  }

  lemma SpaceAccounted<T>(s: Sys<T>, t: nat, c: nat, v: T, d: nat)
    requires c in s.chans && s.chans[c].cap > 0 && d in s.chans && Known(s, d)
    ensures var s' := TrySpace(s, t, c, v); Accounted(s, s', d, Sends(c, v), ResultOf(s', t))
  {
    var s' := TrySpace(s, t, c, v);
    if d != c || s.chans[c].closed || |s.chans[c].buffer| == s.chans[c].cap {
      Untouched(s, s', d, Sends(c, v), ResultOf(s', t));
    }
  }

  lemma TakerAccounted<T>(s: Sys<T>, t: nat, c: nat, id: nat, v: T, d: nat)
    requires c in s.chans && s.chans[c].cap == 0 && d in s.chans && Known(s, d)
    ensures var s' := TryTaker(s, t, c, id); Accounted(s, s', d, Sends(c, v), ResultOf(s', t))
  {
    var s' := TryTaker(s, t, c, id);
    Untouched(s, s', d, Sends(c, v), ResultOf(s', t));
  }

  lemma QueuedKnown<T>(s: Sys<T>, c: nat)
    requires Books(s) && c in s.chans
    ensures Known(s, c) && forall id | id in s.chans[c].senders :: id < |s.offers| && s.offers[id].0 == c
  {
    assert ChanBooks(s, c);
    WithoutMembers(PastOf(s, c).made, s.withdrawn);
    forall id | id in s.chans[c].senders ensures id in PastOf(s, c).made {
      assert id in PastOf(s, c).met + s.chans[c].senders;
    }
  }

  lemma TakeAccounted<T>(s: Sys<T>, s': Sys<T>, c: nat, v: T, d: nat)
    requires c in s.chans && d in s.chans && Known(s, d) && s.chans[c].cap > 0
    requires s'.past == s.past[c := PastOf(s, c).(took := PastOf(s, c).took + [v])] && s'.offers == s.offers
    ensures Accounted(s, s', d, Receives(c), Some(Received(v)))
  {
  }

  lemma MeetAccounted<T>(s: Sys<T>, s': Sys<T>, c: nat, id: nat, d: nat)
    requires c in s.chans && d in s.chans && Known(s, d) && s.chans[c].cap == 0 && id < |s.offers|
    requires s'.past == s.past[c := PastOf(s, c).(met := PastOf(s, c).met + [id])] && s'.offers == s.offers
    ensures Accounted(s, s', d, Receives(c), Some(Received(s.offers[id].1)))
  {
    if d == c {
      MetHere(s, s', c, id);
    } else {
      assert PastOf(s', d) == PastOf(s, d);
    }
  }

  lemma MetHere<T>(s: Sys<T>, s': Sys<T>, c: nat, id: nat)
    requires Known(s, c) && id < |s.offers|
    requires PastOf(s', c) == PastOf(s, c).(met := PastOf(s, c).met + [id]) && s'.offers == s.offers
    ensures Meets(s, s', c, [s.offers[id].1])
  {
    ValuesSnoc(s.offers, PastOf(s, c).met, id);
  }

  /** How a receive on `c` changes the records, by what it finds. */
  lemma ReceiveRecords<T>(s: Sys<T>, c: nat)
    requires c in s.chans
    ensures var s', p, ch := DoReceive(s, c), PastOf(s, c), s.chans[c];
            && s'.offers == s.offers
            && s'.past == s.past[c :=
               if ch.buffer != [] then p.(took := p.took + [ch.buffer[0]])
               else if ch.senders != [] then p.(met := p.met + [ch.senders[0]])
               else p.(drained := true)]
  {
  }

  lemma GetsNext<T>(s: Sys<T>, c: nat)
    requires c in s.chans
    ensures var ch := s.chans[c];
            && (ch.buffer != [] ==> Gets(s, c) == Received(ch.buffer[0]))
            && (ch.buffer == [] && ch.senders == [] ==> Gets(s, c) == Ended)
            && (ch.buffer == [] && ch.senders != [] && ch.senders[0] < |s.offers| ==>
              Gets(s, c) == Received(s.offers[ch.senders[0]].1))
  {
  }

  lemma FromBufferAccounted<T>(s: Sys<T>, c: nat, d: nat)
    requires c in s.chans && d in s.chans && Known(s, d) && s.chans[c].cap > 0 && s.chans[c].buffer != []
    ensures Accounted(s, DoReceive(s, c), d, Receives(c), Some(Gets(s, c)))
  {
    ReceiveRecords(s, c);
    GetsNext(s, c);
    TakeAccounted(s, DoReceive(s, c), c, s.chans[c].buffer[0], d);
  }

  lemma FromSenderAccounted<T>(s: Sys<T>, c: nat, d: nat)
    requires c in s.chans && d in s.chans && Known(s, d) && s.chans[c].cap == 0
    requires s.chans[c].buffer == [] && s.chans[c].senders != [] && s.chans[c].senders[0] < |s.offers|
    ensures Accounted(s, DoReceive(s, c), d, Receives(c), Some(Gets(s, c)))
  {
    ReceiveRecords(s, c);
    GetsNext(s, c);
    MeetAccounted(s, DoReceive(s, c), c, s.chans[c].senders[0], d);
  }

  lemma FromNothingAccounted<T>(s: Sys<T>, c: nat, d: nat)
    requires c in s.chans && d in s.chans && Known(s, d) && s.chans[c].buffer == [] && s.chans[c].senders == []
    ensures Accounted(s, DoReceive(s, c), d, Receives(c), Some(Gets(s, c)))
  {
    Untouched(s, DoReceive(s, c), d, Receives(c), Some(Gets(s, c)));
  }

  /** What a receive adds to the records is what it gets. */
  lemma ReceiveAccounted<T>(s: Sys<T>, c: nat, d: nat)
    requires Books(s) && c in s.chans && d in s.chans
    ensures Accounted(s, DoReceive(s, c), d, Receives(c), Some(Gets(s, c)))
  {
    assert ChanBooks(s, c);
    QueuedKnown(s, d);
    QueuedKnown(s, c);
    var ch := s.chans[c];
    if ch.buffer != [] {
      FromBufferAccounted(s, c, d);
    } else if ch.senders != [] {
      assert ch.senders[0] in ch.senders;
      FromSenderAccounted(s, c, d);
    } else {
      FromNothingAccounted(s, c, d);
    }
  }

  /** Counting, signalling and leaving touch no record. */
  lemma SameRecords<T>(s: Sys<T>, s1: Sys<T>, s1': Sys<T>, s': Sys<T>, c: nat, d: Deed<T>, r: Option<Outcome<T>>)
    requires c in s.chans && c in s1.chans && s1.chans[c].cap == s.chans[c].cap && Accounted(s1, s1', c, d, r)
    requires s1.past == s.past && s1.offers == s.offers && s1'.past == s'.past && s1'.offers == s'.offers
    ensures Accounted(s, s', c, d, r)
  {
    assert PastOf(s, c) == PastOf(s1, c) && PastOf(s', c) == PastOf(s1', c);
  }

  lemma ValueAccounted<T>(s: Sys<T>, t: nat, c: nat, d: nat)
    requires Books(s) && c in s.chans && d in s.chans
    ensures var s' := TryValue(s, t, c); Accounted(s, s', d, Receives(c), ResultOf(s', t))
  {
    var s' := TryValue(s, t, c);
    QueuedKnown(s, d);
    if s.chans[c].ReceiveReady() {
      ReceiveAccounted(s, c, d);
      ReceiveRecords(s, c);
      SameRecords(s, s, DoReceive(s, c), s', d, Receives(c), Some(Gets(s, c)));
      GetsPlain(s, c);
    } else {
      Untouched(s, s', d, Receives(c), ResultOf(s', t));
    }
  }

  lemma GetsPlain<T>(s: Sys<T>, c: nat)
    requires c in s.chans
    ensures Gets(s, c).Received? || Gets(s, c).Ended?
  {
  }

  lemma CommitSendAccounted<T>(s: Sys<T>, c: nat, v: T, d: nat)
    requires CaseReady(s, SendCase(c, v)) && d in s.chans && Known(s, d)
    ensures var k := SendCase(c, v); Accounted(s, Commit(s, k), d, Sends(c, v), Some(CaseOutcome(s, k)))
  {
    var k := SendCase(c, v);
    var s' := Commit(s, k);
    if s.chans[c].closed || s.chans[c].cap == 0 || d != c {
      Untouched(s, s', d, Sends(c, v), Some(CaseOutcome(s, k)));
    }
  }

  lemma CommitAccounted<T>(s: Sys<T>, k: Case<T>, d: nat)
    requires Books(s) && CaseReady(s, k) && d in s.chans
    ensures var deed := if k.SendCase? then Sends(k.c, k.v) else Receives(k.c);
            Accounted(s, Commit(s, k), d, deed, Some(CaseOutcome(s, k)))
  {
    QueuedKnown(s, d);
    match k
    case ReceiveCase(c) => ReceiveAccounted(s, c, d);
    case SendCase(c, v) => CommitSendAccounted(s, c, v, d);
  }

  lemma ReadyAccounted<T>(s: Sys<T>, t: nat, ks: seq<Case<T>>, pick: nat, d: nat)
    requires Books(s) && AnyReady(s, ks) && pick < |ks| && CaseReady(s, ks[pick]) && d in s.chans
    ensures var s' := TryAny(s, t, ks, pick); Accounted(s, s', d, CaseDeed(s, ks, pick), Some(CaseOutcome(s, ks[pick])))
  {
    CommitAccounted(s, ks[pick], d);
    SameRecords(s, s, Commit(s, ks[pick]), TryAny(s, t, ks, pick), d, CaseDeed(s, ks, pick),
                Some(CaseOutcome(s, ks[pick])));
  }

  lemma AnyResult<T>(s: Sys<T>, t: nat, ks: seq<Case<T>>, pick: nat)
    requires AnyReady(s, ks) && pick < |ks| && CaseReady(s, ks[pick])
    ensures ResultOf(TryAny(s, t, ks, pick), t) == Some(CaseOutcome(s, ks[pick]))
  {
  }

  lemma AnyAccounted<T>(s: Sys<T>, t: nat, ks: seq<Case<T>>, pick: nat, d: nat)
    requires Books(s) && PickOk(s, ks, pick) && d in s.chans
    ensures var s' := TryAny(s, t, ks, pick); Accounted(s, s', d, CaseDeed(s, ks, pick), ResultOf(s', t))
  {
    if AnyReady(s, ks) {
      ReadyAccounted(s, t, ks, pick, d);
      AnyResult(s, t, ks, pick);
    } else {
      QueuedKnown(s, d);
      var s' := TryAny(s, t, ks, pick);
      Untouched(s, s', d, CaseDeed(s, ks, pick), ResultOf(s', t));
    }
  }

  lemma SendAccounted<T>(s: Sys<T>, t: nat, c: nat, v: T, d: nat)
    requires Books(s) && c in s.chans && d in s.chans
    ensures var s' := BeginSend(s, t, c, v); Accounted(s, s', d, Sends(c, v), ResultOf(s', t))
  {
    var ch := s.chans[c];
    QueuedKnown(s, d);
    if ch.nil || ch.closed {
      var s' := BeginSend(s, t, c, v);
      Untouched(s, s', d, Sends(c, v), ResultOf(s', t));
    } else if ch.cap > 0 {
      SpaceAccounted(s, t, c, v, d);
    } else {
      OfferAccounted(s, t, c, v, d);
    }
  }

  lemma OfferAccounted<T>(s: Sys<T>, t: nat, c: nat, v: T, d: nat)
    requires c in s.chans && s.chans[c].cap == 0 && d in s.chans && Known(s, d)
    ensures var s' := TryTaker(Wake(DoOffer(s, c, v)), t, c, |s.offers|);
            Accounted(s, s', d, Sends(c, v), ResultOf(s', t))
  {
    var s' := TryTaker(Wake(DoOffer(s, c, v)), t, c, |s.offers|);
    Untouched(s, s', d, Sends(c, v), ResultOf(s', t));
  }

  lemma ReceiveFromAccounted<T>(s: Sys<T>, t: nat, c: nat, d: nat)
    requires Books(s) && c in s.chans && d in s.chans
    ensures var s' := BeginReceive(s, t, c); Accounted(s, s', d, Receives(c), ResultOf(s', t))
  {
    if s.chans[c].nil {
      QueuedKnown(s, d);
      Untouched(s, Park(s, t, OnNil), d, Receives(c), None);
    } else {
      CountedBooks(s, c);
      CountedAccounted(s, Wake(Count(s, c, 1)), t, c, d);
    }
  }

  lemma CountedBooks<T>(s: Sys<T>, c: nat)
    requires Books(s) && c in s.chans
    ensures Books(Wake(Count(s, c, 1)))
  {
    SameBooks(s, Wake(Count(s, c, 1)));
  }

  lemma CountedAccounted<T>(s: Sys<T>, s1: Sys<T>, t: nat, c: nat, d: nat)
    requires Books(s1) && c in s1.chans && d in s.chans && d in s1.chans && s1.chans[d].cap == s.chans[d].cap
    requires s1.past == s.past && s1.offers == s.offers
    ensures var s' := TryValue(s1, t, c); Accounted(s, s', d, Receives(c), ResultOf(s', t))
  {
    var s' := TryValue(s1, t, c);
    ValueAccounted(s1, t, c, d);
    SameRecords(s, s1, s', s', d, Receives(c), ResultOf(s', t));
  }

  function ActorOf<T>(a: Action<T>): nat {
    a.t
  }

  /**
   * A turn adds to a buffered channel's record what its send put there when it
   * returned, and to either record what its receive returned; nothing else.
   */
  lemma StepAccounted<T>(s: Sys<T>, a: Action<T>, c: nat)
    requires Sound(s) && Enabled(s, a) && c in s.chans
    ensures var s' := Step(s, a); Accounted(s, s', c, DeedOf(s, a), ResultOf(s', ActorOf(a)))
  {
    match a
    case Send(t, d, v) => SendAccounted(s, t, d, v, c);
    case ReceiveFrom(t, d) => ReceiveFromAccounted(s, t, d, c);
    case Select(t, ks, pick) => AnyAccounted(s, t, ks, pick, c);
    case Resume(t, pick) => ResumeAccounted(s, t, pick, c);
    case Close(t, d) => CloseAccounted(s, t, d, c);
    case Spurious(t) => SpuriousAccounted(s, t, c);
  }

  lemma CloseAccounted<T>(s: Sys<T>, t: nat, d: nat, c: nat)
    requires Books(s) && d in s.chans && c in s.chans
    ensures var s' := DoClose(s, t, d); Accounted(s, s', c, Closes(d), ResultOf(s', t))
  {
    QueuedKnown(s, c);
    Untouched(s, DoClose(s, t, d), c, Closes(d), ResultOf(DoClose(s, t, d), t));
  }

  lemma SpuriousAccounted<T>(s: Sys<T>, t: nat, c: nat)
    requires Sound(s) && t in s.threads && c in s.chans
    ensures var s' := Step(s, Spurious(t)); Accounted(s, s', c, Other, ResultOf(s', t))
  {
    QueuedKnown(s, c);
    Untouched(s, Step(s, Spurious(t)), c, Other, ResultOf(Step(s, Spurious(t)), t));
  }

  lemma ResumeAccounted<T>(s: Sys<T>, t: nat, pick: nat, c: nat)
    requires Sound(s) && Enabled(s, Resume(t, pick)) && c in s.chans
    ensures var w, s' := s.threads[t].w, Step(s, Resume(t, pick));
            Accounted(s, s', c, WaitDeed(s, w, pick), ResultOf(s', t))
  {
    var w := s.threads[t].w;
    QueuedKnown(s, c);
    match w
    case OnNil => Untouched(s, Step(s, Resume(t, pick)), c, Other, ResultOf(Step(s, Resume(t, pick)), t));
    case ForSpace(d, v) => SpaceAccounted(s, t, d, v, c);
    case ForTaker(d, id) => TakerAccounted(s, t, d, id, s.offers[id].1, c);
    case ForValue(d) => ValueAccounted(s, t, d, c);
    case ForAny(ks) => AnyAccounted(s, t, ks, pick, c);
  }

  /** A send that returned left its value last in the buffer; a receive that returned a value took the first. */
  lemma BufferedTurn<T>(s: Sys<T>, a: Action<T>, c: nat)
    requires Sound(s) && Enabled(s, a) && c in s.chans && s.chans[c].cap > 0
    ensures var s', d := Step(s, a), DeedOf(s, a); var r := ResultOf(s', ActorOf(a));
            && c in s'.chans
            && ReceivedHere(d, r, c) + s'.chans[c].buffer == s.chans[c].buffer + SentHere(d, r, c)
  {
    var s', d := Step(s, a), DeedOf(s, a);
    var r := ResultOf(s', ActorOf(a));
    StepAccounted(s, a, c);
    StepSound(s, a);
    StepKinds(s, a);
    KeptOrder(s, c);
    KeptOrder(s', c);
    SameTail(PastOf(s, c).took, ReceivedHere(d, r, c), s'.chans[c].buffer, s.chans[c].buffer, SentHere(d, r, c));
  }

  lemma SameTail<T>(taken: seq<T>, a: seq<T>, b: seq<T>, x: seq<T>, y: seq<T>)
    requires (taken + a) + b == (taken + x) + y
    ensures a + b == x + y
  {
    assert taken + (a + b) == (taken + a) + b && taken + (x + y) == (taken + x) + y;
    assert (taken + (a + b))[|taken|..] == a + b && (taken + (x + y))[|taken|..] == x + y;
  }

  lemma KeptOrder<T>(s: Sys<T>, c: nat)
    requires Sound(s) && c in s.chans
    ensures PastOf(s, c).took + s.chans[c].buffer == PastOf(s, c).put
  {
    assert ChanBooks(s, c);
  }

  // ----------------------------------------------------------- whole runs

  ghost function SentOn<T>(s: Sys<T>, acts: seq<Action<T>>, c: nat): seq<T>
    requires Legal(s, acts)
    decreases |acts|
  {
    if acts == [] then [] else
      var s' := Step(s, acts[0]);
      SentHere(DeedOf(s, acts[0]), ResultOf(s', ActorOf(acts[0])), c) + SentOn(s', acts[1..], c)
  }

  ghost function ReceivedOn<T>(s: Sys<T>, acts: seq<Action<T>>, c: nat): seq<T>
    requires Legal(s, acts)
    decreases |acts|
  {
    if acts == [] then [] else
      var s' := Step(s, acts[0]);
      ReceivedHere(DeedOf(s, acts[0]), ResultOf(s', ActorOf(acts[0])), c) + ReceivedOn(s', acts[1..], c)
  }

  lemma StepKinds<T>(s: Sys<T>, a: Action<T>)
    requires Scoped(s) && Enabled(s, a)
    ensures SameKinds(s, Step(s, a))
  {
    match a
    case Send(t, c, v) => BeginSendKinds(s, t, c, v);
    case ReceiveFrom(t, c) => BeginReceiveKinds(s, t, c);
    case Close(t, c) => CloseKinds(s, t, c);
    case Select(t, ks, pick) => AnyKinds(s, t, ks, pick);
    case Spurious(_) =>
    case Resume(t, pick) => ContinueKinds(s, t, s.threads[t].w, pick);
  }

  lemma ContinueKinds<T>(s: Sys<T>, t: nat, w: Wait<T>, pick: nat)
    requires WaitOf(s, w)
    ensures SameKinds(s, Continue(s, t, w, pick))
  {
    match w
    case OnNil =>
    case ForSpace(c, v) => SpaceKinds(s, t, c, v);
    case ForTaker(c, id) => TakerKinds(s, t, c, id);
    case ForValue(c) => ValueKinds(s, t, c);
    case ForAny(ks) => AnyKinds(s, t, ks, pick);
  }

  lemma SpaceKinds<T>(s: Sys<T>, t: nat, c: nat, v: T)
    requires c in s.chans
    ensures SameKinds(s, TrySpace(s, t, c, v))
  {
  }

  lemma TakerKinds<T>(s: Sys<T>, t: nat, c: nat, id: nat)
    requires c in s.chans
    ensures SameKinds(s, TryTaker(s, t, c, id))
  {
  }

  lemma CloseKinds<T>(s: Sys<T>, t: nat, c: nat)
    requires c in s.chans
    ensures SameKinds(s, DoClose(s, t, c))
  {
  }

  lemma BeginSendKinds<T>(s: Sys<T>, t: nat, c: nat, v: T)
    requires c in s.chans
    ensures SameKinds(s, BeginSend(s, t, c, v))
  {
    SpaceKinds(s, t, c, v);
    OfferKinds(s, t, c, v);
  }

  lemma OfferKinds<T>(s: Sys<T>, t: nat, c: nat, v: T)
    requires c in s.chans
    ensures SameKinds(s, TryTaker(Wake(DoOffer(s, c, v)), t, c, |s.offers|))
  {
    assert SameKinds(s, Wake(DoOffer(s, c, v)));
    TakerKinds(Wake(DoOffer(s, c, v)), t, c, |s.offers|);
  }

  lemma BeginReceiveKinds<T>(s: Sys<T>, t: nat, c: nat)
    requires c in s.chans
    ensures SameKinds(s, BeginReceive(s, t, c))
  {
    if !s.chans[c].nil {
      ValueKinds(Wake(Count(s, c, 1)), t, c);
    }
  }

  lemma ValueKinds<T>(s: Sys<T>, t: nat, c: nat)
    requires c in s.chans
    ensures SameKinds(s, TryValue(s, t, c))
  {
    if s.chans[c].ReceiveReady() {
      ReceiveKinds(s, c);
      CountKinds(s, DoReceive(s, c), c, t, Gets(s, c));
    }
  }

  lemma CountKinds<T>(s: Sys<T>, s1: Sys<T>, c: nat, t: nat, o: Outcome<T>)
    requires c in s1.chans && SameKinds(s, s1)
    ensures SameKinds(s, Leave(Wake(Count(s1, c, -1)), t, o))
  {
  }

  lemma AnyKinds<T>(s: Sys<T>, t: nat, ks: seq<Case<T>>, pick: nat)
    ensures SameKinds(s, TryAny(s, t, ks, pick))
  {
    if AnyReady(s, ks) && pick < |ks| && CaseReady(s, ks[pick]) {
      CommitKinds(s, ks[pick]);
    }
  }

  lemma CommitKinds<T>(s: Sys<T>, k: Case<T>)
    requires CaseReady(s, k)
    ensures SameKinds(s, Commit(s, k))
  {
    match k
    case SendCase(c, v) => CommitSendKinds(s, c, v);
    case ReceiveCase(c) => ReceiveKinds(s, c);
  }

  lemma CommitSendKinds<T>(s: Sys<T>, c: nat, v: T)
    requires CaseReady(s, SendCase(c, v))
    ensures SameKinds(s, Commit(s, SendCase(c, v)))
  {
    if !s.chans[c].closed {
      assert SameKinds(s, DoPut(s, c, v)) && SameKinds(s, DoOffer(s, c, v));
    }
  }

  ghost predicate RunAccounted<T>(s: Sys<T>, s': Sys<T>, c: nat, sent: seq<T>, received: seq<T>)
    requires c in s.chans
  {
    && c in s'.chans && s'.chans[c].cap == s.chans[c].cap
    && if s.chans[c].cap > 0 then Passes(s, s', c, sent, received) else Meets(s, s', c, received)
  }

  lemma PassesThen<T>(s: Sys<T>, s': Sys<T>, end: Sys<T>, c: nat, a: seq<T>, b: seq<T>, a': seq<T>, b': seq<T>)
    requires Passes(s, s', c, a, b) && Passes(s', end, c, a', b')
    ensures Passes(s, end, c, a + a', b + b')
  {
  }

  lemma MeetsThen<T>(s: Sys<T>, s': Sys<T>, end: Sys<T>, c: nat, first: seq<T>, more: seq<T>)
    requires Meets(s, s', c, first) && Meets(s', end, c, more)
    ensures Meets(s, end, c, first + more)
  {
  }

  /** One turn, then a run. */
  lemma TurnThenRun<T>(s: Sys<T>, s': Sys<T>, end: Sys<T>, c: nat, d: Deed<T>, r: Option<Outcome<T>>,
                       sent: seq<T>, received: seq<T>)
    requires c in s.chans && c in s'.chans && s'.chans[c].cap == s.chans[c].cap
    requires Accounted(s, s', c, d, r) && RunAccounted(s', end, c, sent, received)
    ensures RunAccounted(s, end, c, SentHere(d, r, c) + sent, ReceivedHere(d, r, c) + received)
  {
    if s.chans[c].cap > 0 {
      PassesThen(s, s', end, c, SentHere(d, r, c), ReceivedHere(d, r, c), sent, received);
    } else {
      MeetsThen(s, s', end, c, ReceivedHere(d, r, c), received);
    }
  }

  lemma NoRun<T>(s: Sys<T>, c: nat)
    requires c in s.chans && Known(s, c)
    ensures RunAccounted(s, s, c, [], [])
  {
  }

  lemma {:induction false} RunsAccounted<T>(s: Sys<T>, acts: seq<Action<T>>, c: nat)
    requires Sound(s) && Legal(s, acts) && c in s.chans
    ensures RunAccounted(s, Exec(s, acts), c, SentOn(s, acts, c), ReceivedOn(s, acts, c))
    decreases |acts|
  {
    if acts == [] {
      QueuedKnown(s, c);
      NoRun(s, c);
    } else {
      var s', a := Step(s, acts[0]), acts[0];
      StepAccounted(s, a, c);
      StepSound(s, a);
      StepKinds(s, a);
      RunsAccounted(s', acts[1..], c);
      TurnThenRun(s, s', Exec(s', acts[1..]), c, DeedOf(s, a), ResultOf(s', ActorOf(a)),
                  SentOn(s', acts[1..], c), ReceivedOn(s', acts[1..], c));
    }
  }

  /**
   * First in, first out, as the callers see it: on a buffered channel the values
   * received, then the buffer, are those of the sends that returned, in order.
   * On an unbuffered one the values received are those of the offers met, in
   * order.
   */
  lemma DeliveredAsSent<T>(s: Sys<T>, acts: seq<Action<T>>, c: nat)
    requires Initial(s) && Legal(s, acts) && c in s.chans
    ensures c in Exec(s, acts).chans
    ensures Delivered(Exec(s, acts), c, s.chans[c].cap, SentOn(s, acts, c), ReceivedOn(s, acts, c))
  {
    InitialSound(s);
    RunsAccounted(s, acts, c);
    RunSound(s, acts);
    FreshRecords(s, c);
    RunDelivered(s, Exec(s, acts), c, SentOn(s, acts, c), ReceivedOn(s, acts, c));
  }

  ghost predicate Delivered<T>(now: Sys<T>, c: nat, cap: nat, sent: seq<T>, received: seq<T>)
    requires c in now.chans
  {
    && Known(now, c)
    && (cap > 0 ==> received + now.chans[c].buffer == sent)
    && (cap == 0 ==> received == ValuesOf(now.offers, PastOf(now, c).met))
  }

  lemma RunDelivered<T>(s: Sys<T>, now: Sys<T>, c: nat, sent: seq<T>, received: seq<T>)
    requires c in s.chans && RunAccounted(s, now, c, sent, received) && PastOf(s, c) == Past([], [], [], [], false)
    requires Sound(now)
    ensures Delivered(now, c, s.chans[c].cap, sent, received)
  {
    KeptOrder(now, c);
    if s.chans[c].cap == 0 {
      assert ValuesOf(s.offers, []) == [];
    } else {
      assert PastOf(now, c).put == sent && PastOf(now, c).took == received;
    }
  }

  lemma FreshRecords<T>(s: Sys<T>, c: nat)
    requires Initial(s)
    ensures PastOf(s, c) == Past([], [], [], [], false)
  {
  }
}

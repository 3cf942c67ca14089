/**
 * The channel and select monitor (GpChan and GpSelect in
 * internal/javabackend/runtime.go): any number of threads, one lock, one
 * condition. A step is what one thread does between taking the lock and giving
 * it up, by returning or by waiting on the condition; a woken thread competes
 * for the lock and rechecks its guard. Spurious wakeups are steps too.
 */
module Monitor {
  import opened Channels

  datatype Case<T> = SendCase(c: nat, v: T) | ReceiveCase(c: nat) | DefaultCase

  /** What a waiting thread is waiting for. */
  datatype Wait<T> =
    | OnNil
    | ForSpace(c: nat, v: T)
    | ForTaker(c: nat, id: nat)
    | ForValue(c: nat)
    | ForAny(cases: seq<Case<T>>)

  /** A thread inside an operation is parked on the condition or woken; others are absent. */
  datatype Thread<T> = Parked(w: Wait<T>) | Woken(w: Wait<T>)

  /**
   * What has happened on a channel: the values put into and taken out of its
   * buffer, the senders queued and met by a receive (each in order), and
   * whether a receive ever came up empty.
   */
  datatype Past<T> = Past(put: seq<T>, took: seq<T>, made: seq<nat>, met: seq<nat>, drained: bool)

  /** How an operation ended; a select says which case it chose. */
  datatype Outcome<T> =
    | Sent
    | Received(v: T)
    | Ended
    | Panicked
    | Done
    | Defaulted
    | Chose(i: nat, o: Outcome<T>)

  /**
   * `offers` gives each sender's channel and value; `met` are those marked taken;
   * `results` is each thread's last outcome.
   */
  datatype Sys<T> = Sys(
    chans: map<nat, Chan<T, nat>>,
    threads: map<nat, Thread<T>>,
    offers: seq<(nat, T)>,
    met: set<nat>,
    withdrawn: set<nat>,
    past: map<nat, Past<T>>,
    results: map<nat, Outcome<T>>)

  function PastOf<T>(s: Sys<T>, c: nat): Past<T> {
    if c in s.past then s.past[c] else Past([], [], [], [], false)
  }

  // -------------------------------------------------------------- pieces

  /** signalAll */
  function Wake<T>(s: Sys<T>): Sys<T> {
    s.(threads := map t | t in s.threads :: Woken(s.threads[t].w))
  }

  function Park<T>(s: Sys<T>, t: nat, w: Wait<T>): Sys<T> {
    s.(threads := s.threads[t := Parked(w)])
  }

  function Leave<T>(s: Sys<T>, t: nat, o: Outcome<T>): Sys<T> {
    s.(threads := s.threads - {t}, results := s.results[t := o])
  }

  function With<T>(s: Sys<T>, c: nat, ch: Chan<T, nat>): Sys<T> {
    s.(chans := s.chans[c := ch])
  }

  function Recall<T>(s: Sys<T>, c: nat, p: Past<T>): Sys<T> {
    s.(past := s.past[c := p])
  }

  function DoPut<T>(s: Sys<T>, c: nat, v: T): Sys<T>
    requires c in s.chans
  {
    var p := PastOf(s, c);
    Recall(With(s, c, Put(s.chans[c], v)), c, p.(put := p.put + [v]))
  }

  function DoOffer<T>(s: Sys<T>, c: nat, v: T): Sys<T>
    requires c in s.chans
  {
    var id, p := |s.offers|, PastOf(s, c);
    Recall(With(s, c, Offer(s.chans[c], id)).(offers := s.offers + [(c, v)]), c, p.(made := p.made + [id]))
  }

  function DoTake<T>(s: Sys<T>, c: nat, ch: Chan<T, nat>, v: T): Sys<T> {
    var p := PastOf(s, c);
    Recall(With(s, c, ch), c, p.(took := p.took + [v]))
  }

  function DoMeet<T>(s: Sys<T>, c: nat, ch: Chan<T, nat>, id: nat): Sys<T> {
    var p := PastOf(s, c);
    Recall(With(s, c, ch).(met := s.met + {id}), c, p.(met := p.met + [id]))
  }

  /** Nothing is signalled when nothing was taken. */
  function DoReceive<T>(s: Sys<T>, c: nat): Sys<T>
    requires c in s.chans
  {
    var (ch, got) := Receive(s.chans[c]);
    match got
    case FromBuffer(v) => Wake(DoTake(s, c, ch, v))
    case FromSender(id) => Wake(DoMeet(s, c, ch, id))
    case Nothing => Recall(s, c, PastOf(s, c).(drained := true))
  }

  function DoWithdraw<T>(s: Sys<T>, c: nat, id: nat): Sys<T>
    requires c in s.chans
  {
    var ch := s.chans[c];
    With(s, c, ch.(senders := Remove(ch.senders, id))).(withdrawn := s.withdrawn + {id})
  }

  function DoShut<T>(s: Sys<T>, c: nat): Sys<T>
    requires c in s.chans
  {
    With(s, c, s.chans[c].(closed := true))
  }

  function Count<T>(s: Sys<T>, c: nat, d: int): Sys<T>
    requires c in s.chans
  {
    With(s, c, s.chans[c].(waiting := s.chans[c].waiting + d))
  }

  // ------------------------------------------------- one turn with the lock

  function TrySpace<T>(s: Sys<T>, t: nat, c: nat, v: T): Sys<T>
    requires c in s.chans
  {
    if s.chans[c].closed then Leave(s, t, Panicked)
    else if |s.chans[c].buffer| == s.chans[c].cap then Park(s, t, ForSpace(c, v))
    else Leave(Wake(DoPut(s, c, v)), t, Sent)
  }

  function TryTaker<T>(s: Sys<T>, t: nat, c: nat, id: nat): Sys<T>
    requires c in s.chans
  {
    if id in s.met then Leave(s, t, Sent)
    else if s.chans[c].closed then Leave(DoWithdraw(s, c, id), t, Panicked)
    else Park(s, t, ForTaker(c, id))
  }

  /** What a receive on the channel returns now. */
  function Gets<T>(s: Sys<T>, c: nat): Outcome<T>
    requires c in s.chans
  {
    match Receive(s.chans[c]).1
    case FromBuffer(v) => Received(v)
    case FromSender(id) => if id < |s.offers| then Received(s.offers[id].1) else Ended
    case Nothing => Ended
  }

  function TryValue<T>(s: Sys<T>, t: nat, c: nat): Sys<T>
    requires c in s.chans
  {
    if s.chans[c].ReceiveReady() then Leave(Wake(Count(DoReceive(s, c), c, -1)), t, Gets(s, c))
    else Park(s, t, ForValue(c))
  }

  predicate CaseReady<T>(s: Sys<T>, k: Case<T>) {
    match k
    case SendCase(c, _) => c in s.chans && s.chans[c].SendReady()
    case ReceiveCase(c) => c in s.chans && s.chans[c].ReceiveReady()
    case DefaultCase => false
  }

  predicate AnyReady<T>(s: Sys<T>, ks: seq<Case<T>>) {
    exists i | 0 <= i < |ks| :: CaseReady(s, ks[i])
  }

  predicate HasDefault<T>(ks: seq<Case<T>>) {
    exists i | 0 <= i < |ks| :: ks[i].DefaultCase?
  }

  /** A send chosen because its channel is closed panics; an unbuffered one leaves its value and goes on. */
  function Commit<T>(s: Sys<T>, k: Case<T>): Sys<T>
    requires CaseReady(s, k)
  {
    match k
    case SendCase(c, v) =>
      if s.chans[c].closed then s
      else if s.chans[c].cap > 0 then Wake(DoPut(s, c, v))
      else Wake(DoOffer(s, c, v))
    case ReceiveCase(c) => DoReceive(s, c)
  }

  function CaseOutcome<T>(s: Sys<T>, k: Case<T>): Outcome<T>
    requires CaseReady(s, k)
  {
    match k
    case SendCase(c, _) => if s.chans[c].closed then Panicked else Sent
    case ReceiveCase(c) => Gets(s, c)
  }

  /** The fallback is the last default. */
  function LastDefault<T>(ks: seq<Case<T>>): (i: nat)
    requires HasDefault(ks)
    ensures i < |ks| && ks[i].DefaultCase? && forall j | i < j < |ks| :: !ks[j].DefaultCase?
  {
    if ks[|ks| - 1].DefaultCase? then |ks| - 1 else
      var rest := ks[..|ks| - 1];
      assert forall i | 0 <= i < |ks| && ks[i].DefaultCase? :: i < |rest| && rest[i].DefaultCase?;
      LastDefault(rest)
  }

  function TryAny<T>(s: Sys<T>, t: nat, ks: seq<Case<T>>, pick: nat): Sys<T> {
    if AnyReady(s, ks) then
      if pick < |ks| && CaseReady(s, ks[pick]) then
        Leave(Commit(s, ks[pick]), t, Chose(pick, CaseOutcome(s, ks[pick])))
      else
        s
    else if HasDefault(ks) then Leave(s, t, Chose(LastDefault(ks), Defaulted))
    else Park(s, t, ForAny(ks))
  }

  // --------------------------------------------------------------- steps

  datatype Action<T> =
    | Send(t: nat, c: nat, v: T)
    | ReceiveFrom(t: nat, c: nat)
    | Close(t: nat, c: nat)
    | Select(t: nat, cases: seq<Case<T>>, pick: nat)
    | Resume(t: nat, pick: nat)
    | Spurious(t: nat)

  predicate CasesOf<T>(s: Sys<T>, ks: seq<Case<T>>) {
    forall i | 0 <= i < |ks| && !ks[i].DefaultCase? :: ks[i].c in s.chans
  }

  /** `pick` is the random choice among the ready cases. */
  predicate Enabled<T>(s: Sys<T>, a: Action<T>) {
    match a
    case Send(t, c, _) => t !in s.threads && c in s.chans
    case ReceiveFrom(t, c) => t !in s.threads && c in s.chans
    case Close(t, c) => t !in s.threads && c in s.chans
    case Select(t, ks, pick) => t !in s.threads && CasesOf(s, ks) && PickOk(s, ks, pick)
    case Resume(t, pick) =>
      t in s.threads && s.threads[t].Woken? && (s.threads[t].w.ForAny? ==> PickOk(s, s.threads[t].w.cases, pick))
    case Spurious(t) => t in s.threads
  }

  predicate PickOk<T>(s: Sys<T>, ks: seq<Case<T>>, pick: nat) {
    AnyReady(s, ks) ==> pick < |ks| && CaseReady(s, ks[pick])
  }

  predicate WaitOf<T>(s: Sys<T>, w: Wait<T>) {
    match w
    case OnNil => true
    case ForSpace(c, _) => c in s.chans && s.chans[c].cap > 0
    case ForTaker(c, _) => c in s.chans && s.chans[c].cap == 0
    case ForValue(c) => c in s.chans && !s.chans[c].nil
    case ForAny(ks) => CasesOf(s, ks)
  }

  predicate Scoped<T>(s: Sys<T>) {
    forall t | t in s.threads :: WaitOf(s, s.threads[t].w)
  }

  function BeginSend<T>(s: Sys<T>, t: nat, c: nat, v: T): Sys<T>
    requires c in s.chans
  {
    var ch := s.chans[c];
    if ch.nil then Park(s, t, OnNil)
    else if ch.closed then Leave(s, t, Panicked)
    else if ch.cap > 0 then TrySpace(s, t, c, v)
    else TryTaker(Wake(DoOffer(s, c, v)), t, c, |s.offers|)
  }

  function BeginReceive<T>(s: Sys<T>, t: nat, c: nat): Sys<T>
    requires c in s.chans
  {
    if s.chans[c].nil then Park(s, t, OnNil) else TryValue(Wake(Count(s, c, 1)), t, c)
  }

  function DoClose<T>(s: Sys<T>, t: nat, c: nat): Sys<T>
    requires c in s.chans
  {
    if s.chans[c].nil || s.chans[c].closed then Leave(s, t, Panicked)
    else Leave(Wake(DoShut(s, c)), t, Done)
  }

  function Continue<T>(s: Sys<T>, t: nat, w: Wait<T>, pick: nat): Sys<T>
    requires WaitOf(s, w)
  {
    match w
    case OnNil => Park(s, t, OnNil)
    case ForSpace(c, v) => TrySpace(s, t, c, v)
    case ForTaker(c, id) => TryTaker(s, t, c, id)
    case ForValue(c) => TryValue(s, t, c)
    case ForAny(ks) => TryAny(s, t, ks, pick)
  }

  function Step<T>(s: Sys<T>, a: Action<T>): Sys<T>
    requires Scoped(s) && Enabled(s, a)
  {
    match a
    case Send(t, c, v) => BeginSend(s, t, c, v)
    case ReceiveFrom(t, c) => BeginReceive(s, t, c)
    case Close(t, c) => DoClose(s, t, c)
    case Select(t, ks, pick) => TryAny(s, t, ks, pick)
    case Resume(t, pick) => Continue(s, t, s.threads[t].w, pick)
    case Spurious(t) => s.(threads := s.threads[t := Woken(s.threads[t].w)])
  }

  /** Every channel freshly made, no thread inside an operation. */
  ghost predicate Initial<T>(s: Sys<T>) {
    && (forall c | c in s.chans ::
      var ch := s.chans[c]; ch == Chan(ch.cap, ch.nil, [], [], 0, false) && (ch.nil ==> ch.cap == 0))
    && |s.threads| == 0 && |s.offers| == 0 && s.met == {} && s.withdrawn == {} && |s.past| == 0 && |s.results| == 0
  }

  // --------------------------------------------------- no lost wakeups

  /** The condition under which a waiting thread would go on. */
  predicate Guard<T>(s: Sys<T>, w: Wait<T>)
    requires WaitOf(s, w)
  {
    match w
    case OnNil => false
    case ForSpace(c, _) => s.chans[c].closed || |s.chans[c].buffer| < s.chans[c].cap
    case ForTaker(c, id) => id in s.met || s.chans[c].closed
    case ForValue(c) => s.chans[c].ReceiveReady()
    case ForAny(ks) => AnyReady(s, ks) || HasDefault(ks)
  }

  ghost predicate Quiet<T>(s: Sys<T>) {
    Scoped(s) && forall t | t in s.threads && s.threads[t].Parked? :: !Guard(s, s.threads[t].w)
  }

  /** A channel within its bounds: the buffer and the sender queue are never both in use. */
  predicate ChanOk<T>(ch: Chan<T, nat>) {
    && |ch.buffer| <= ch.cap
    && (ch.cap > 0 ==> ch.senders == [])
    && (ch.nil ==> ch.cap == 0 && ch.senders == [] && !ch.closed)
  }

  predicate ChansOk<T>(s: Sys<T>) {
    forall c | c in s.chans :: ChanOk(s.chans[c])
  }

  lemma WakeQuiet<T>(s: Sys<T>)
    requires Scoped(s)
    ensures Quiet(Wake(s))
  {
  }

  lemma ParkQuiet<T>(s: Sys<T>, t: nat, w: Wait<T>)
    requires Quiet(s) && WaitOf(s, w) && !Guard(s, w)
    ensures Quiet(Park(s, t, w))
  {
    var s' := Park(s, t, w);
    forall u | u in s'.threads
      ensures WaitOf(s', s'.threads[u].w) && Guard(s', s'.threads[u].w) == Guard(s, s'.threads[u].w)
    {
      SameGuard(s, s', s'.threads[u].w);
    }
  }

  lemma LeaveQuiet<T>(s: Sys<T>, t: nat, o: Outcome<T>)
    requires Quiet(s)
    ensures Quiet(Leave(s, t, o))
  {
    var s' := Leave(s, t, o);
    forall u | u in s'.threads
      ensures WaitOf(s', s'.threads[u].w) && Guard(s', s'.threads[u].w) == Guard(s, s'.threads[u].w)
    {
      SameGuard(s, s', s'.threads[u].w);
    }
  }

  /** Guards look at channels and meetings only. */
  lemma SameGuard<T>(s: Sys<T>, s': Sys<T>, w: Wait<T>)
    requires s'.chans == s.chans && s'.met == s.met && WaitOf(s, w)
    ensures WaitOf(s', w) && Guard(s', w) == Guard(s, w)
  {
    if w.ForAny? {
      forall i | 0 <= i < |w.cases| ensures CaseReady(s', w.cases[i]) == CaseReady(s, w.cases[i]) {
      }
    }
  }

  /** Changes that keep every channel's kind keep waits meaningful. */
  ghost predicate SameKinds<T>(s: Sys<T>, s': Sys<T>) {
    && s'.chans.Keys == s.chans.Keys
    && forall c | c in s.chans :: s'.chans[c].cap == s.chans[c].cap && s'.chans[c].nil == s.chans[c].nil
  }

  ghost predicate SameThreads<T>(s: Sys<T>, s': Sys<T>) {
    s'.threads.Keys == s.threads.Keys && forall t | t in s.threads :: s'.threads[t].w == s.threads[t].w
  }

  lemma KindsScoped<T>(s: Sys<T>, s': Sys<T>)
    requires Scoped(s) && SameKinds(s, s') && SameThreads(s, s')
    ensures Scoped(s')
  {
    forall t | t in s'.threads ensures WaitOf(s', s'.threads[t].w) {
      assert WaitOf(s, s.threads[t].w);
    }
  }

  lemma ReceiveKinds<T>(s: Sys<T>, c: nat)
    requires c in s.chans
    ensures SameKinds(s, DoReceive(s, c)) && SameThreads(s, DoReceive(s, c))
  {
  }

  /** A receive that took nothing changed nothing; any other signalled. */
  lemma ReceiveQuiet<T>(s: Sys<T>, c: nat)
    requires Quiet(s) && c in s.chans
    ensures Quiet(DoReceive(s, c))
  {
    var (ch, got) := Receive(s.chans[c]);
    ReceiveKinds(s, c);
    KindsScoped(s, DoReceive(s, c));
    if got.Nothing? {
      forall t | t in s.threads && s.threads[t].Parked? ensures !Guard(DoReceive(s, c), s.threads[t].w) {
        SameGuard(s, DoReceive(s, c), s.threads[t].w);
      }
    }
  }

  /** Withdrawing a sender enables nobody. */
  lemma WithdrawQuiet<T>(s: Sys<T>, c: nat, id: nat)
    requires Quiet(s) && c in s.chans
    ensures Quiet(DoWithdraw(s, c, id))
  {
    var s' := DoWithdraw(s, c, id);
    KindsScoped(s, s');
    RemoveEmpty(s.chans[c].senders, id);
    forall t | t in s'.threads && s'.threads[t].Parked? ensures !Guard(s', s'.threads[t].w) {
      var w := s.threads[t].w;
      assert !Guard(s, w);
      if w.ForAny? {
        forall i | 0 <= i < |w.cases| ensures !CaseReady(s', w.cases[i]) {
          assert !CaseReady(s, w.cases[i]);
        }
      }
    }
  }

  lemma RemoveEmpty<S>(xs: seq<S>, x: S)
    ensures xs == [] ==> Remove(xs, x) == []
  {
  }

  lemma CommitQuiet<T>(s: Sys<T>, k: Case<T>)
    requires Quiet(s) && CaseReady(s, k)
    ensures Quiet(Commit(s, k))
  {
    match k
    case SendCase(c, v) =>
      if !s.chans[c].closed {
        var s' := if s.chans[c].cap > 0 then DoPut(s, c, v) else DoOffer(s, c, v);
        KindsScoped(s, s');
        WakeQuiet(s');
      }
    case ReceiveCase(c) =>
      ReceiveQuiet(s, c);
  }

  lemma TryAnyQuiet<T>(s: Sys<T>, t: nat, ks: seq<Case<T>>, pick: nat)
    requires Quiet(s) && CasesOf(s, ks)
    ensures Quiet(TryAny(s, t, ks, pick))
  {
    if AnyReady(s, ks) {
      if pick < |ks| && CaseReady(s, ks[pick]) {
        CommitQuiet(s, ks[pick]);
        LeaveQuiet(Commit(s, ks[pick]), t, Chose(pick, CaseOutcome(s, ks[pick])));
      }
    } else if HasDefault(ks) {
      LeaveQuiet(s, t, Chose(LastDefault(ks), Defaulted));
    } else {
      ParkQuiet(s, t, ForAny(ks));
    }
  }

  lemma TrySpaceQuiet<T>(s: Sys<T>, t: nat, c: nat, v: T)
    requires Quiet(s) && ChansOk(s) && c in s.chans && s.chans[c].cap > 0
    ensures Quiet(TrySpace(s, t, c, v))
  {
    if s.chans[c].closed {
      LeaveQuiet(s, t, Panicked);
    } else if |s.chans[c].buffer| == s.chans[c].cap {
      ParkQuiet(s, t, ForSpace(c, v));
    } else {
      KindsScoped(s, DoPut(s, c, v));
      WakeQuiet(DoPut(s, c, v));
      LeaveQuiet(Wake(DoPut(s, c, v)), t, Sent);
    }
  }

  lemma TryTakerQuiet<T>(s: Sys<T>, t: nat, c: nat, id: nat)
    requires Quiet(s) && c in s.chans && s.chans[c].cap == 0
    ensures Quiet(TryTaker(s, t, c, id))
  {
    if id in s.met {
      LeaveQuiet(s, t, Sent);
    } else if s.chans[c].closed {
      WithdrawQuiet(s, c, id);
      LeaveQuiet(DoWithdraw(s, c, id), t, Panicked);
    } else {
      ParkQuiet(s, t, ForTaker(c, id));
    }
  }

  lemma TryValueQuiet<T>(s: Sys<T>, t: nat, c: nat)
    requires Quiet(s) && c in s.chans && !s.chans[c].nil
    ensures Quiet(TryValue(s, t, c))
  {
    if s.chans[c].ReceiveReady() {
      ReceiveKinds(s, c);
      var s' := Count(DoReceive(s, c), c, -1);
      KindsScoped(s, s');
      WakeQuiet(s');
      LeaveQuiet(Wake(s'), t, Gets(s, c));
    } else {
      ParkQuiet(s, t, ForValue(c));
    }
  }

  lemma CloseQuiet<T>(s: Sys<T>, t: nat, c: nat)
    requires Quiet(s) && c in s.chans
    ensures Quiet(DoClose(s, t, c))
  {
    if s.chans[c].nil || s.chans[c].closed {
      LeaveQuiet(s, t, Panicked);
    } else {
      KindsScoped(s, DoShut(s, c));
      WakeQuiet(DoShut(s, c));
      LeaveQuiet(Wake(DoShut(s, c)), t, Done);
    }
  }

  /** Every step that could make a parked thread's guard true signals the condition in that same step. */
  lemma StepQuiet<T>(s: Sys<T>, a: Action<T>)
    requires Quiet(s) && ChansOk(s) && Enabled(s, a)
    ensures Quiet(Step(s, a))
  {
    match a
    case Send(t, c, v) =>
      BeginSendQuiet(s, t, c, v);
    case ReceiveFrom(t, c) =>
      if s.chans[c].nil {
        ParkQuiet(s, t, OnNil);
      } else {
        KindsScoped(s, Count(s, c, 1));
        WakeQuiet(Count(s, c, 1));
        TryValueQuiet(Wake(Count(s, c, 1)), t, c);
      }
    case Close(t, c) =>
      CloseQuiet(s, t, c);
    case Select(t, ks, pick) =>
      TryAnyQuiet(s, t, ks, pick);
    case Resume(t, pick) =>
      ContinueQuiet(s, t, s.threads[t].w, pick);
    case Spurious(t) =>
      var s' := Step(s, a);
      forall u | u in s'.threads
        ensures WaitOf(s', s'.threads[u].w) && Guard(s', s'.threads[u].w) == Guard(s, s'.threads[u].w)
      {
        SameGuard(s, s', s'.threads[u].w);
      }
  }

  lemma BeginSendQuiet<T>(s: Sys<T>, t: nat, c: nat, v: T)
    requires Quiet(s) && ChansOk(s) && c in s.chans
    ensures Quiet(BeginSend(s, t, c, v))
  {
    var ch := s.chans[c];
    if ch.nil {
      ParkQuiet(s, t, OnNil);
    } else if ch.closed {
      LeaveQuiet(s, t, Panicked);
    } else if ch.cap > 0 {
      TrySpaceQuiet(s, t, c, v);
    } else {
      KindsScoped(s, DoOffer(s, c, v));
      WakeQuiet(DoOffer(s, c, v));
      TryTakerQuiet(Wake(DoOffer(s, c, v)), t, c, |s.offers|);
    }
  }

  lemma ContinueQuiet<T>(s: Sys<T>, t: nat, w: Wait<T>, pick: nat)
    requires Quiet(s) && ChansOk(s) && WaitOf(s, w)
    ensures Quiet(Continue(s, t, w, pick))
  {
    match w
    case OnNil => ParkQuiet(s, t, OnNil);
    case ForSpace(c, v) => TrySpaceQuiet(s, t, c, v);
    case ForTaker(c, id) => TryTakerQuiet(s, t, c, id);
    case ForValue(c) => TryValueQuiet(s, t, c);
    case ForAny(ks) => TryAnyQuiet(s, t, ks, pick);
  }
}

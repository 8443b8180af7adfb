/**
  The whole-file fetch surface (packages/hub/src/fetch.ts, `fetchAssetsWithBudget`).

  One dispatch loop walks the deduplicated targets in order and waits for budget before each; the
  dispatched fetches settle in any order, fail, or are cancelled.  JavaScript runs one continuation
  at a time, so the protocol is a transition system whose events are the continuations: `Enabled`
  says when one may run and `Apply` what it does.  The class `FetchCall` holds the variables of the
  call and implements every continuation.  The theorems hold for every order of the continuations.
 */
module FetchAssets {
  import opened Wrappers
  import opened FileRefs
  import opened ByteBudget
  import opened FetchErrors
  import JsMap

  type Bytes = seq<bv8>

  // ----- state --------------------------------------------------------------------------------

  /** `content(key)` is what a source hands over for the file with that identity key. */
  datatype Call = Call(targets: seq<FileRef>, maxBytes: int, content: string -> Bytes)

  datatype Outcome = Table | Throw(error: Error)

  /** Where the dispatch loop is suspended. */
  datatype Phase =
    | Parked              // in `admit`, its callback in the waiter slot
    | Woken               // resumed by a release, before it checks the budget again
    | Admitted            // budget acquired, fetch not started yet
    | Draining            // all dispatched, waiting for the running fetches
    | Returned(outcome: Outcome)

  /** One fetch.  `Stored` and `Failed` are settled fetches whose bytes are not returned yet. */
  datatype Status = Idle | Reading | Stored | Failed(reason: Error) | Released(ok: bool)

  datatype State = State(
    admission: Admission,
    phase: Phase,
    started: nat,
    status: seq<Status>,
    external: Option<Error>,
    failure: Option<Error>,
    signal: Option<Error>,
    bytes: map<string, Bytes>,
    readLog: seq<nat>,
    failures: seq<Error>
  )

  datatype Event =
    | Cancel(reason: Error)
    | Recheck
    | Start(unreachable: Option<Error>)
    | ReadOk(target: nat, tight: bool)
    | ReadFail(target: nat, error: Error)
    | Settle(target: nat)
    | Return

  // ----- transitions --------------------------------------------------------------------------

  predicate WellFormed(c: Call, s: State) {
    |s.status| == |c.targets| && s.started <= |c.targets|
  }

  function TryAdmit(c: Call, s: State): State
    requires WellFormed(c, s) && s.started < |c.targets|
  {
    var size := c.targets[s.started].size;
    s.(phase := if Passes(s.admission, c.maxBytes, size) then Admitted else Parked,
       admission := AfterAttempt(s.admission, c.maxBytes, size))
  }

  /** The head of the dispatch loop. */
  function Head(c: Call, s: State): State
    requires WellFormed(c, s)
  {
    if s.started == |c.targets| || s.signal.Some? then s.(phase := Draining) else TryAdmit(c, s)
  }

  function Init(c: Call, external: Option<Error>): State {
    Head(c, State(Admission(0, false), Draining, 0, seq(|c.targets|, _ => Idle), external, None, external, map[], [], []))
  }

  predicate Enabled(c: Call, s: State, e: Event) {
    WellFormed(c, s) &&
    match e
    case Cancel(_) => s.external.None? && !s.phase.Returned?
    case Recheck => s.phase.Woken? && s.started < |c.targets|
    case Start(_) => s.phase.Admitted? && s.started < |c.targets|
    case ReadOk(i, _) => i < |s.status| && s.status[i].Reading?
    case ReadFail(i, _) => i < |s.status| && s.status[i].Reading?
    case Settle(i) => i < |s.status| && (s.status[i].Stored? || s.status[i].Failed?)
    case Return => s.phase.Draining? && forall i :: 0 <= i < s.started ==> s.status[i].Released?
  }

  /** What the fetch does up to its first suspension. */
  function FirstStatus(s: State, unreachable: Option<Error>): Status {
    if s.signal.Some? then Failed(s.signal.value)
    else if unreachable.Some? then Failed(Surfaced(unreachable.value, s.signal))
    else Reading
  }

  function Settled(c: Call, s: State, i: nat): State
    requires WellFormed(c, s) && i < |s.status|
  {
    var s1 := if s.status[i].Failed? then
                s.(failure := Abort(s.failure, s.status[i].reason),
                   signal := Abort(s.signal, s.status[i].reason),
                   failures := s.failures + [s.status[i].reason])
              else s;
    s1.(admission := AfterRelease(s.admission, c.targets[i].size),
        status := s.status[i := Released(!s.status[i].Failed?)],
        phase := if s.admission.waiting then Woken else s.phase)
  }

  function Apply(c: Call, s: State, e: Event): State
    requires Enabled(c, s, e)
  {
    match e
    case Cancel(reason) => s.(external := Some(reason), signal := Abort(s.signal, reason))
    case Recheck => TryAdmit(c, s)
    case Start(unreachable) =>
      var first := FirstStatus(s, unreachable);
      Head(c, s.(started := s.started + 1,
                 status := s.status[s.started := first],
                 readLog := if first.Reading? then s.readLog + [s.started] else s.readLog))
    case ReadOk(i, tight) =>
      if s.signal.Some? then s.(status := s.status[i := Failed(s.signal.value)])
      else if !tight then s.(status := s.status[i := Failed(NotTight)])
      else
        var key := FileRefKey(c.targets[i]);
        s.(status := s.status[i := Stored], bytes := s.bytes[key := c.content(key)])
    case ReadFail(i, error) => s.(status := s.status[i := Failed(Surfaced(error, s.signal))])
    case Settle(i) => Settled(c, s, i)
    case Return =>
      s.(phase := Returned(if s.failure.Some? then Throw(s.failure.value)
                           else if s.signal.Some? then Throw(s.signal.value)
                           else Table))
  }

  predicate Legal(c: Call, s: State, events: seq<Event>)
    decreases |events|
  {
    events != [] ==> Enabled(c, s, events[0]) && Legal(c, Apply(c, s, events[0]), events[1..])
  }

  function After(c: Call, s: State, events: seq<Event>): State
    requires Legal(c, s, events)
    decreases |events|
  {
    if events == [] then s else After(c, Apply(c, s, events[0]), events[1..])
  }

  // ----- bytes held by the fetches ------------------------------------------------------------

  predicate Holds(st: Status) { st.Reading? || st.Stored? || st.Failed? }

  function Charge(ref: FileRef, st: Status): nat { if Holds(st) then ref.size else 0 }

  /** The sizes of the fetches that were dispatched and have not returned their bytes. */
  function Held(targets: seq<FileRef>, status: seq<Status>): nat
    requires |targets| == |status|
  {
    if status == [] then 0
    else
      var n := |status| - 1;
      Held(targets[..n], status[..n]) + Charge(targets[n], status[n])
  }

  lemma {:induction false} HeldUpdate(targets: seq<FileRef>, status: seq<Status>, i: nat, st: Status)
    requires |targets| == |status| && i < |status|
    ensures Held(targets, status[i := st]) ==
            Held(targets, status) - Charge(targets[i], status[i]) + Charge(targets[i], st)
  {
    var n := |status| - 1;
    if i < n {
      assert status[i := st][..n] == status[..n][i := st];
      HeldUpdate(targets[..n], status[..n], i, st);
    } else {
      assert status[i := st][..n] == status[..n];
    }
  }

  lemma {:induction false} HeldAtLeast(targets: seq<FileRef>, status: seq<Status>, i: nat)
    requires |targets| == |status| && i < |status|
    ensures Charge(targets[i], status[i]) <= Held(targets, status)
  {
    var n := |status| - 1;
    if i < n {
      HeldAtLeast(targets[..n], status[..n], i);
    }
  }

  lemma {:induction false} HeldWitness(targets: seq<FileRef>, status: seq<Status>) returns (i: nat)
    requires |targets| == |status| && Held(targets, status) > 0
    ensures i < |status| && Charge(targets[i], status[i]) > 0
  {
    var n := |status| - 1;
    if Charge(targets[n], status[n]) > 0 {
      i := n;
    } else {
      i := HeldWitness(targets[..n], status[..n]);
    }
  }

  lemma {:induction false} NothingHeld(targets: seq<FileRef>, status: seq<Status>)
    requires |targets| == |status| && forall i :: 0 <= i < |status| ==> status[i].Idle?
    ensures Held(targets, status) == 0
  {
    if status != [] {
      NothingHeld(targets[..|status| - 1], status[..|status| - 1]);
    }
  }

  // ----- invariants ---------------------------------------------------------------------------

  /** The dispatched targets are a prefix of the list. */
  ghost predicate Shape(c: Call, s: State) {
    && WellFormed(c, s)
    && (forall i :: 0 <= i < |s.status| ==> (s.status[i].Idle? <==> i >= s.started))
    && (s.phase.Parked? || s.phase.Woken? || s.phase.Admitted? ==> s.started < |c.targets|)
    && (s.phase.Draining? || s.phase.Returned? ==> s.started == |c.targets| || s.signal.Some?)
    && (s.phase.Returned? ==> forall i :: 0 <= i < s.started ==> s.status[i].Released?)
  }

  /** `inFlight` is exactly what was acquired and not returned; the slot is set exactly while parked. */
  ghost predicate Accounts(c: Call, s: State)
    requires Shape(c, s)
  {
    && s.admission.inFlight == Held(c.targets, s.status) + (if s.phase.Admitted? then c.targets[s.started].size else 0)
    && (s.admission.waiting <==> s.phase.Parked?)
    && (s.phase.Parked? ==>
          s.admission.inFlight > 0 && s.admission.inFlight + c.targets[s.started].size > c.maxBytes)
    && (s.phase.Admitted? ==> Held(c.targets, s.status) == 0 || s.admission.inFlight <= c.maxBytes)
  }

  /** Target i has acquired budget and not returned it. */
  ghost predicate InFlight(c: Call, s: State, i: int)
    requires WellFormed(c, s)
  {
    0 <= i < |c.targets| && (Holds(s.status[i]) || (s.phase.Admitted? && i == s.started))
  }

  ghost predicate WithinBudget(c: Call, s: State)
    requires WellFormed(c, s)
  {
    s.admission.inFlight <= c.maxBytes || SoleHolder(c, s)
  }

  ghost predicate SoleHolder(c: Call, s: State)
    requires WellFormed(c, s)
  {
    forall i, j :: InFlight(c, s, i) && InFlight(c, s, j) && c.targets[i].size > 0 && c.targets[j].size > 0 ==> i == j
  }

  /** How the recorded failures, the two controllers and the combined signal relate. */
  ghost predicate Causes(s: State) {
    && s.failure == (if s.failures == [] then None else Some(s.failures[0]))
    && (s.signal.None? ==> s.external.None? && s.failures == [])
    && (s.external.None? ==> s.signal == s.failure)
    && (s.signal.Some? && s.signal != s.failure ==> s.signal == s.external)
    && (s.failures == [] <==> forall i :: 0 <= i < |s.status| ==> s.status[i] != Released(false))
    && (s.phase.Returned? ==>
          s.phase.outcome == if s.failures != [] then Throw(s.failures[0])
                             else if s.external.Some? then Throw(s.external.value)
                             else Table)
  }

  ghost predicate Clean(st: Status) { st.Idle? || st.Reading? || st.Stored? || st == Released(true) }

  /** A target was read once if its fetch has not failed, at most once if it has, and in target order. */
  ghost predicate ReadLog(s: State)
    requires s.started <= |s.status|
  {
    && (forall k, l :: 0 <= k < l < |s.readLog| ==> s.readLog[k] < s.readLog[l])
    && (forall k :: 0 <= k < |s.readLog| ==> s.readLog[k] < s.started)
    && ((forall i :: 0 <= i < |s.status| ==> Clean(s.status[i])) ==> s.readLog == Iota(s.started))
  }

  function Iota(n: nat): seq<nat> { seq(n, i => i) }

  ghost predicate Results(c: Call, s: State)
    requires WellFormed(c, s)
  {
    && (forall k :: k in s.bytes ==> s.bytes[k] == c.content(k))
    && (forall i :: 0 <= i < |s.status| && (s.status[i].Stored? || s.status[i] == Released(true)) ==>
          FileRefKey(c.targets[i]) in s.bytes)
  }

  ghost predicate Inv(c: Call, s: State) {
    && Shape(c, s) && Accounts(c, s) && WithinBudget(c, s)
    && Causes(s) && ReadLog(s) && Results(c, s)
  }

  // ----- every step keeps the invariants ------------------------------------------------------

  lemma HeadKeepsAccounts(c: Call, s: State)
    requires WellFormed(c, s) && !s.admission.waiting && s.admission.inFlight == Held(c.targets, s.status)
    requires forall i :: 0 <= i < |s.status| ==> (s.status[i].Idle? <==> i >= s.started)
    requires s.admission.inFlight <= c.maxBytes || SoleHolder(c, s.(phase := Draining))
    ensures Shape(c, Head(c, s)) && Accounts(c, Head(c, s)) && WithinBudget(c, Head(c, s))
  {
    if s.started < |c.targets| && s.signal.None? {
      AdmissionKeepsAccounts(c, s);
    } else {
      assert forall i :: InFlight(c, Head(c, s), i) ==> InFlight(c, s.(phase := Draining), i);
    }
  }

  lemma AdmissionKeepsAccounts(c: Call, s: State)
    requires WellFormed(c, s) && s.started < |c.targets|
    requires !s.admission.waiting && s.admission.inFlight == Held(c.targets, s.status)
    requires forall i :: 0 <= i < |s.status| ==> (s.status[i].Idle? <==> i >= s.started)
    requires s.admission.inFlight <= c.maxBytes || SoleHolder(c, s.(phase := Draining))
    ensures var t := TryAdmit(c, s); Shape(c, t) && Accounts(c, t) && WithinBudget(c, t)
  {
    var t := TryAdmit(c, s);
    if t.phase.Parked? {
      assert forall i :: InFlight(c, t, i) ==> InFlight(c, s.(phase := Draining), i);
    } else if t.admission.inFlight > c.maxBytes {
      forall i, j | InFlight(c, t, i) && InFlight(c, t, j) && c.targets[i].size > 0 && c.targets[j].size > 0
        ensures i == j
      {
        HeldAtLeast(c.targets, s.status, i);
        HeldAtLeast(c.targets, s.status, j);
      }
    }
  }

  /** Changing the status of a dispatched fetch that keeps its budget changes no account. */
  lemma StatusChangeKeepsAccounts(c: Call, s: State, i: nat, st: Status)
    requires Shape(c, s) && Accounts(c, s) && WithinBudget(c, s)
    requires i < s.started && Holds(s.status[i]) && Holds(st)
    ensures var t := s.(status := s.status[i := st]); Shape(c, t) && Accounts(c, t) && WithinBudget(c, t)
  {
    var t := s.(status := s.status[i := st]);
    HeldUpdate(c.targets, s.status, i, st);
    assert forall j :: InFlight(c, t, j) <==> InFlight(c, s, j);
  }

  lemma StartKeepsAccounts(c: Call, s: State, unreachable: Option<Error>)
    requires Shape(c, s) && Accounts(c, s) && WithinBudget(c, s) && Enabled(c, s, Start(unreachable))
    ensures var t := Apply(c, s, Start(unreachable)); Shape(c, t) && Accounts(c, t) && WithinBudget(c, t)
  {
    var first := FirstStatus(s, unreachable);
    var status := s.status[s.started := first];
    HeldUpdate(c.targets, s.status, s.started, first);
    var s1 := s.(started := s.started + 1, status := status,
                 readLog := if first.Reading? then s.readLog + [s.started] else s.readLog);
    assert forall j :: InFlight(c, s1.(phase := Draining), j) ==> InFlight(c, s, j);
    HeadKeepsAccounts(c, s1);
  }

  lemma SettleKeepsAccounts(c: Call, s: State, i: nat)
    requires Shape(c, s) && Accounts(c, s) && WithinBudget(c, s) && Enabled(c, s, Settle(i))
    ensures var t := Settled(c, s, i); Shape(c, t) && Accounts(c, t) && WithinBudget(c, t)
  {
    var t := Settled(c, s, i);
    HeldUpdate(c.targets, s.status, i, t.status[i]);
    assert t.status == s.status[i := t.status[i]];
    assert forall j :: InFlight(c, t, j) ==> InFlight(c, s, j);
  }

  lemma StepKeepsAccounts(c: Call, s: State, e: Event)
    requires Shape(c, s) && Accounts(c, s) && WithinBudget(c, s) && Enabled(c, s, e)
    ensures var t := Apply(c, s, e); Shape(c, t) && Accounts(c, t) && WithinBudget(c, t)
  {
    var t := Apply(c, s, e);
    match e
    case Cancel(_) =>
      assert forall j :: InFlight(c, t, j) ==> InFlight(c, s, j);
    case Recheck =>
      assert forall j :: InFlight(c, s.(phase := Draining), j) ==> InFlight(c, s, j);
      AdmissionKeepsAccounts(c, s);
    case Start(unreachable) =>
      StartKeepsAccounts(c, s, unreachable);
    case ReadOk(i, _) =>
      StatusChangeKeepsAccounts(c, s, i, t.status[i]);
      assert forall j :: InFlight(c, t, j) ==> InFlight(c, s.(status := t.status), j);
    case ReadFail(i, _) =>
      StatusChangeKeepsAccounts(c, s, i, t.status[i]);
    case Settle(i) =>
      SettleKeepsAccounts(c, s, i);
    case Return =>
      assert forall j :: InFlight(c, t, j) ==> InFlight(c, s, j);
  }

  lemma SettleKeepsCauses(c: Call, s: State, i: nat)
    requires Shape(c, s) && Causes(s) && Enabled(c, s, Settle(i))
    ensures Causes(Apply(c, s, Settle(i)))
  {
    var t := Apply(c, s, Settle(i));
    assert t.status[i] == Released(!s.status[i].Failed?);
    assert forall j :: 0 <= j < |s.status| && j != i ==> t.status[j] == s.status[j];
  }

  /** A status that changes without being released. */
  lemma UnreleasedKeepsCauses(s: State, i: nat, st: Status)
    requires Causes(s) && i < |s.status| && !s.status[i].Released? && !st.Released?
    ensures Causes(s.(status := s.status[i := st]))
  {
    assert forall j :: 0 <= j < |s.status| && j != i ==> s.status[i := st][j] == s.status[j];
  }

  lemma StepKeepsCauses(c: Call, s: State, e: Event)
    requires Shape(c, s) && Causes(s) && Enabled(c, s, e)
    ensures Causes(Apply(c, s, e))
  {
    if e.Settle? {
      SettleKeepsCauses(c, s, e.target);
    } else if e.Start? {
      UnreleasedKeepsCauses(s, s.started, FirstStatus(s, e.unreachable));
    } else if e.ReadOk? || e.ReadFail? {
      UnreleasedKeepsCauses(s, e.target, Apply(c, s, e).status[e.target]);
    }
  }

  lemma StepKeepsReadLog(c: Call, s: State, e: Event)
    requires Shape(c, s) && ReadLog(s) && Enabled(c, s, e)
    ensures Apply(c, s, e).started <= |Apply(c, s, e).status| && ReadLog(Apply(c, s, e))
  {
    var t := Apply(c, s, e);
    if forall i :: 0 <= i < |t.status| ==> Clean(t.status[i]) {
      forall i | 0 <= i < |s.status|
        ensures Clean(s.status[i])
      {
        assert Clean(t.status[i]);
      }
      assert e.Start? ==> t.readLog == s.readLog + [s.started] by {
        if e.Start? {
          assert t.status[s.started] == FirstStatus(s, e.unreachable);
        }
      }
      assert Iota(s.started) + [s.started] == Iota(s.started + 1);
    }
  }

  lemma StepKeepsResults(c: Call, s: State, e: Event)
    requires Shape(c, s) && Results(c, s) && Enabled(c, s, e)
    ensures WellFormed(c, Apply(c, s, e)) && Results(c, Apply(c, s, e))
  {
  }

  lemma StepKeepsInv(c: Call, s: State, e: Event)
    requires Inv(c, s) && Enabled(c, s, e)
    ensures Inv(c, Apply(c, s, e))
  {
    StepKeepsAccounts(c, s, e);
    StepKeepsCauses(c, s, e);
    StepKeepsReadLog(c, s, e);
    StepKeepsResults(c, s, e);
  }

  lemma InitInv(c: Call, external: Option<Error>)
    requires c.maxBytes >= 0
    ensures Inv(c, Init(c, external))
  {
    var s := State(Admission(0, false), Draining, 0, seq(|c.targets|, _ => Idle), external, None, external, map[], [], []);
    NothingHeld(c.targets, s.status);
    HeadKeepsAccounts(c, s);
    assert Iota(0) == [];
  }

  lemma {:induction false} RunKeepsInv(c: Call, s: State, events: seq<Event>)
    requires Inv(c, s) && Legal(c, s, events)
    ensures Inv(c, After(c, s, events))
    decreases |events|
  {
    if events != [] {
      StepKeepsInv(c, s, events[0]);
      RunKeepsInv(c, Apply(c, s, events[0]), events[1..]);
    }
  }

  // ----- no lost wakeup, no deadlock, termination ---------------------------------------------

  /** While the dispatch loop is parked, its callback is registered and some fetch will still release. */
  lemma NoLostWakeup(c: Call, s: State) returns (i: nat)
    requires Inv(c, s) && s.phase.Parked?
    ensures s.admission.waiting
    ensures i < s.started && Holds(s.status[i]) && c.targets[i].size > 0
  {
    i := HeldWitness(c.targets, s.status);
  }

  /**
    No wakeup is lost: a settlement while the loop is parked resumes it, and whatever settles, starts or
    is cancelled after that, the loop stays resumed until it has checked the budget again.
   */
  lemma {:induction false} SettlementWakes(c: Call, s: State, events: seq<Event>)
    requires Inv(c, s) && (s.phase.Parked? || s.phase.Woken?) && Legal(c, s, events)
    requires forall k :: 0 <= k < |events| ==> !events[k].Recheck?
    ensures var t := After(c, s, events);
            && t.started == s.started
            && (t.phase.Woken? <==> s.phase.Woken? || exists k :: 0 <= k < |events| && events[k].Settle?)
            && (t.phase.Parked? <==> !t.phase.Woken?)
    decreases |events|
  {
    if events != [] {
      var rest := events[1..];
      StepKeepsInv(c, s, events[0]);
      assert forall k :: 0 <= k < |rest| ==> rest[k] == events[k + 1];
      SettlementWakes(c, Apply(c, s, events[0]), rest);
      assert (exists k :: 0 <= k < |events| && events[k].Settle?) <==>
             events[0].Settle? || exists k :: 0 <= k < |rest| && rest[k].Settle? by {
        if k :| 0 <= k < |events| && events[k].Settle? {
          assert k > 0 ==> rest[k - 1] == events[k];
        }
      }
    }
  }

  /** Until the call has returned, some continuation other than a cancellation can run. */
  lemma NextStep(c: Call, s: State) returns (e: Event)
    requires Inv(c, s) && !s.phase.Returned?
    ensures Enabled(c, s, e) && !e.Cancel?
  {
    if s.phase.Woken? {
      e := Recheck;
    } else if s.phase.Admitted? {
      e := Start(None);
    } else if s.phase.Draining? && forall i :: 0 <= i < s.started ==> s.status[i].Released? {
      e := Return;
    } else {
      var i: nat;
      if s.phase.Parked? {
        i := NoLostWakeup(c, s);
      } else {
        i :| i < s.started && !s.status[i].Released?;
      }
      e := if s.status[i].Reading? then ReadOk(i, true) else Settle(i);
    }
  }

  function Weight(st: Status): nat {
    match st case Idle => 4 case Reading => 3 case Stored => 2 case Failed(_) => 2 case Released(_) => 0
  }

  function TotalWeight(status: seq<Status>): nat {
    if status == [] then 0 else TotalWeight(status[..|status| - 1]) + Weight(status[|status| - 1])
  }

  function PhaseWeight(p: Phase): nat {
    match p case Woken => 3 case Parked => 2 case Admitted => 2 case Draining => 1 case Returned(_) => 0
  }

  /** Remaining targets and running fetches, then the dispatch loop, then whether a cancellation can come. */
  function Measure(s: State): nat {
    TotalWeight(s.status) + PhaseWeight(s.phase) + (if s.external.None? then 1 else 0)
  }

  lemma {:induction false} WeightUpdate(status: seq<Status>, i: nat, st: Status)
    requires i < |status|
    ensures TotalWeight(status[i := st]) == TotalWeight(status) - Weight(status[i]) + Weight(st)
  {
    var n := |status| - 1;
    if i < n {
      assert status[i := st][..n] == status[..n][i := st];
      WeightUpdate(status[..n], i, st);
    } else {
      assert status[i := st][..n] == status[..n];
    }
  }

  lemma StepShrinksMeasure(c: Call, s: State, e: Event)
    requires Shape(c, s) && Accounts(c, s) && Enabled(c, s, e)
    ensures Measure(Apply(c, s, e)) < Measure(s)
  {
    var t := Apply(c, s, e);
    match e
    case Start(u) => WeightUpdate(s.status, s.started, FirstStatus(s, u));
    case ReadOk(i, _) => WeightUpdate(s.status, i, t.status[i]);
    case ReadFail(i, _) => WeightUpdate(s.status, i, t.status[i]);
    case Settle(i) =>
      WeightUpdate(s.status, i, t.status[i]);
      assert t.status == s.status[i := t.status[i]];
    case Cancel(_) =>
    case Recheck =>
    case Return =>
  }

  lemma {:induction false} RunShrinksMeasure(c: Call, s: State, events: seq<Event>)
    requires Inv(c, s) && Legal(c, s, events)
    ensures |events| + Measure(After(c, s, events)) <= Measure(s)
    decreases |events|
  {
    if events != [] {
      StepKeepsInv(c, s, events[0]);
      StepShrinksMeasure(c, s, events[0]);
      RunShrinksMeasure(c, Apply(c, s, events[0]), events[1..]);
    }
  }

  lemma {:induction false} IdleWeight(status: seq<Status>)
    requires forall i :: 0 <= i < |status| ==> status[i].Idle?
    ensures TotalWeight(status) == 4 * |status|
  {
    if status != [] {
      IdleWeight(status[..|status| - 1]);
    }
  }

  /** Every schedule ends within four steps per target and four more, and it ends by returning. */
  lemma EveryScheduleReturns(c: Call, external: Option<Error>, events: seq<Event>)
    requires c.maxBytes >= 0 && Legal(c, Init(c, external), events)
    ensures |events| <= 4 * |c.targets| + 4
    ensures (forall e: Event :: Enabled(c, After(c, Init(c, external), events), e) ==> e.Cancel?) ==>
              After(c, Init(c, external), events).phase.Returned?
  {
    InitInv(c, external);
    RunShrinksMeasure(c, Init(c, external), events);
    RunKeepsInv(c, Init(c, external), events);
    IdleWeight(Init(c, external).status);
    var s := After(c, Init(c, external), events);
    if !s.phase.Returned? {
      var e := NextStep(c, s);
    }
  }

  // ----- budget, cancellation, outcome --------------------------------------------------------

  /**
    `inFlight` is what the dispatched fetches hold; above the budget only one fetch of positive size is in
    flight, so with positive sizes only one fetch at all.
   */
  lemma BudgetSafety(c: Call, external: Option<Error>, events: seq<Event>, i: nat, j: nat)
    requires c.maxBytes >= 0 && Legal(c, Init(c, external), events)
    requires i < |c.targets| && j < |c.targets|
    ensures var s := After(c, Init(c, external), events);
            && Shape(c, s)
            && s.admission.inFlight ==
               Held(c.targets, s.status) + (if s.phase.Admitted? then c.targets[s.started].size else 0)
            && ((&& s.admission.inFlight > c.maxBytes
                 && InFlight(c, s, i) && InFlight(c, s, j)
                 && c.targets[i].size >= 1 && c.targets[j].size >= 1) ==> i == j)
  {
    InitInv(c, external);
    RunKeepsInv(c, Init(c, external), events);
  }

  /**
    A target waits exactly when it has to: while the loop is parked something is in flight and the target
    does not fit beside it, and a target just admitted fits or is alone.
   */
  lemma WaitsOnlyForBudget(c: Call, external: Option<Error>, events: seq<Event>)
    requires c.maxBytes >= 0 && Legal(c, Init(c, external), events)
    ensures var s := After(c, Init(c, external), events);
            && |c.targets| == |s.status|
            && var held := Held(c.targets, s.status);
               && (s.phase.Parked? ==>
                     s.started < |c.targets| && held > 0 && held + c.targets[s.started].size > c.maxBytes)
               && (s.phase.Admitted? ==>
                     s.started < |c.targets| && (held == 0 || held + c.targets[s.started].size <= c.maxBytes))
  {
    InitInv(c, external);
    RunKeepsInv(c, Init(c, external), events);
  }

  predicate Dispatching(p: Phase) { p.Parked? || p.Woken? || p.Admitted? }

  /** The dispatched targets are always a prefix of the list, and reads start in its order, once each. */
  lemma DispatchOrder(c: Call, external: Option<Error>, events: seq<Event>)
    requires c.maxBytes >= 0 && Legal(c, Init(c, external), events)
    ensures var s := After(c, Init(c, external), events);
            && |s.status| == |c.targets|
            && (forall i :: 0 <= i < |s.status| ==> (s.status[i].Idle? <==> i >= s.started))
            && (forall k, l :: 0 <= k < l < |s.readLog| ==> s.readLog[k] < s.readLog[l])
            && (forall k :: 0 <= k < |s.readLog| ==> s.readLog[k] < s.started)
  {
    InitInv(c, external);
    RunKeepsInv(c, Init(c, external), events);
  }

  /**
    Once the signal is aborted, no further file is read, and the loop dispatches at most the one target it
    was already waiting for.
   */
  lemma {:induction false} NoReadAfterAbort(c: Call, s: State, events: seq<Event>)
    requires Inv(c, s) && s.signal.Some? && Legal(c, s, events)
    ensures After(c, s, events).readLog == s.readLog
    ensures After(c, s, events).signal == s.signal
    ensures After(c, s, events).started + (if Dispatching(After(c, s, events).phase) then 1 else 0)
            <= s.started + (if Dispatching(s.phase) then 1 else 0)
    decreases |events|
  {
    if events != [] {
      StepKeepsInv(c, s, events[0]);
      NoReadAfterAbort(c, Apply(c, s, events[0]), events[1..]);
    }
  }

  /**
    When the call returns, every dispatched fetch has settled.  It returns the table exactly when nothing
    failed and nothing was cancelled, and then every target was read once, in order, and every identity
    key has the bytes of its own file.  Otherwise it throws the first failure, or else the caller's
    reason.
   */
  lemma OutcomeOfCall(c: Call, external: Option<Error>, events: seq<Event>)
    requires c.maxBytes >= 0 && Legal(c, Init(c, external), events)
    requires After(c, Init(c, external), events).phase.Returned?
    ensures var s := After(c, Init(c, external), events);
            && (forall i :: 0 <= i < |s.status| ==> s.status[i].Released? || s.status[i].Idle?)
            && (s.phase.outcome.Table? <==> s.failures == [] && s.external.None?)
            && (s.phase.outcome.Table? ==> s.readLog == Iota(|c.targets|))
            && (s.phase.outcome.Table? ==>
                  forall key :: key in KeySet(c.targets) ==> key in s.bytes && s.bytes[key] == c.content(key))
            && (s.phase.outcome.Throw? && s.failures != [] ==> s.phase.outcome.error == s.failures[0])
            && (s.phase.outcome.Throw? && s.failures == [] ==> s.external == Some(s.phase.outcome.error))
  {
    InitInv(c, external);
    RunKeepsInv(c, Init(c, external), events);
    var s := After(c, Init(c, external), events);
    if s.phase.outcome.Table? {
      forall i | 0 <= i < |s.status|
        ensures s.status[i] == Released(true)
      {
        assert s.status[i].Released?;
      }
    }
  }

  /** A call that is never cancelled throws the first reason its signal was aborted with. */
  lemma ThrownIsFirstAbort(c: Call, events: seq<Event>)
    requires c.maxBytes >= 0 && Legal(c, Init(c, None), events)
    requires After(c, Init(c, None), events).phase.Returned? && After(c, Init(c, None), events).external.None?
    ensures var s := After(c, Init(c, None), events);
            && (s.phase.outcome.Throw? <==> s.signal.Some?)
            && (s.phase.outcome.Throw? ==> s.signal == Some(s.phase.outcome.error))
  {
    InitInv(c, None);
    RunKeepsInv(c, Init(c, None), events);
  }

  // ----- what a cancelled call throws ---------------------------------------------------------

  // Read off the schedule alone: when the call was cancelled, how each fetch ended, and which failed
  // fetch was the first to settle.

  /** The reason the call was cancelled with, before it or by one of the events. */
  function CancelReason(external: Option<Error>, events: seq<Event>): Option<Error> {
    if events == [] then external
    else
      var before, last := CancelReason(external, events[..|events| - 1]), events[|events| - 1];
      if before.None? && last.Cancel? then Some(last.reason) else before
  }

  function Starts(events: seq<Event>): nat {
    if events == [] then 0 else Starts(events[..|events| - 1]) + (if events[|events| - 1].Start? then 1 else 0)
  }

  /** What the caller sees of an error: itself if it tells enough or is the cancellation, else wrapped. */
  function Reported(error: Error, cancelled: Option<Error>): Error {
    match error
    case Hub(_) => error
    case AbortError(_) => error
    case FetchFailure(_) => error
    case _ => if cancelled == Some(error) then error else FetchFailure(error)
  }

  /** The event that ended a fetch, and the reason the call was cancelled with before it. */
  datatype Ending = Ending(event: Event, cancelled: Option<Error>) {

    predicate Fails() {
      cancelled.Some? || event.ReadFail? || event.Start? || (event.ReadOk? && !event.tight)
    }

    /** What a fetch that ended so, before any failure settled, fails with. */
    function Cause(): Error {
      match event
      case ReadFail(_, error) => Reported(error, cancelled)
      case Start(unreachable) =>
        if cancelled.Some? then cancelled.value
        else if unreachable.Some? then Reported(unreachable.value, None)
        else NotTight
      case _ => if cancelled.Some? then cancelled.value else NotTight
    }

    /**
      Foreign to the cancellation with r: the source rejected the aborted read with something else, or
      the fetch had failed by itself before the call was cancelled.
     */
    predicate Foreign(r: Error) {
      if cancelled.Some? then event.ReadFail? && Reported(event.error, Some(r)) != r else Cause() != r
    }
  }

  /** How the fetch of target i ended, if it did. */
  function EndOf(external: Option<Error>, events: seq<Event>, i: nat): Option<Ending> {
    if events == [] then None
    else
      var before, last := events[..|events| - 1], events[|events| - 1];
      var cancelled := CancelReason(external, before);
      if (last.ReadOk? || last.ReadFail?) && last.target == i then Some(Ending(last, cancelled))
      else if last.Start? && Starts(before) == i && (cancelled.Some? || last.unreachable.Some?) then
        Some(Ending(last, cancelled))
      else EndOf(external, before, i)
  }

  /** How the failed fetch that settled first had ended, and the cancellation before it settled. */
  datatype FirstFailure = FirstFailure(ending: Ending, cancelled: Option<Error>)

  function FirstFailed(external: Option<Error>, events: seq<Event>): Option<FirstFailure> {
    if events == [] then None
    else
      var before, last := events[..|events| - 1], events[|events| - 1];
      var earlier := FirstFailed(external, before);
      if earlier.Some? || !last.Settle? then earlier
      else
        var ending := EndOf(external, before, last.target);
        if ending.Some? && ending.value.Fails() then Some(FirstFailure(ending.value, CancelReason(external, before)))
        else None
  }

  lemma {:induction false} EndedUnderThisCancellation(external: Option<Error>, events: seq<Event>, i: nat)
    ensures var ending := EndOf(external, events, i);
            ending.Some? && ending.value.cancelled.Some? ==> ending.value.cancelled == CancelReason(external, events)
  {
    if events != [] {
      EndedUnderThisCancellation(external, events[..|events| - 1], i);
    }
  }

  lemma {:induction false} FirstFailedEnded(external: Option<Error>, events: seq<Event>)
    ensures var first := FirstFailed(external, events);
            first.Some? ==>
              && first.value.ending.Fails()
              && (first.value.ending.cancelled.Some? ==> first.value.ending.cancelled == first.value.cancelled)
  {
    if events != [] {
      var before, last := events[..|events| - 1], events[|events| - 1];
      FirstFailedEnded(external, before);
      if last.Settle? {
        EndedUnderThisCancellation(external, before, last.target);
      }
    }
  }

  /** The status of a fetch as its ending says, as long as no failure has settled. */
  ghost predicate EndedAs(ending: Option<Ending>, status: Status) {
    match ending
    case None => status.Idle? || status.Reading?
    case Some(e) => if e.Fails() then status == Failed(e.Cause()) else status.Stored? || status == Released(true)
  }

  ghost predicate NoFailureYet(external: Option<Error>, events: seq<Event>, s: State) {
    && s.failures == [] && s.external == s.signal == CancelReason(external, events)
    && s.started == Starts(events)
    && forall i :: 0 <= i < |s.status| ==> EndedAs(EndOf(external, events, i), s.status[i])
  }

  /** What the schedule so far says about the first failure. */
  ghost predicate Tracks(external: Option<Error>, events: seq<Event>, s: State) {
    match FirstFailed(external, events)
    case None => NoFailureYet(external, events, s)
    case Some(first) =>
      && s.failures != [] && s.failures[0] == first.ending.Cause()
      && s.signal == Some(if first.cancelled.Some? then first.cancelled.value else first.ending.Cause())
  }

  lemma InitTracks(c: Call, external: Option<Error>)
    ensures Tracks(external, [], Init(c, external))
  {
    var s := Init(c, external);
    forall i | 0 <= i < |s.status|
      ensures s.status[i].Idle?
    {
    }
  }

  lemma StepKeepsNoFailure(c: Call, external: Option<Error>, events: seq<Event>, s: State, e: Event)
    requires Shape(c, s) && Enabled(c, s, e) && NoFailureYet(external, events, s)
    requires FirstFailed(external, events).None? && FirstFailed(external, events + [e]).None?
    ensures NoFailureYet(external, events + [e], Apply(c, s, e))
  {
    var more, t := events + [e], Apply(c, s, e);
    assert more[..|more| - 1] == events;
    forall i | 0 <= i < |t.status|
      ensures EndedAs(EndOf(external, more, i), t.status[i])
    {
      assert EndedAs(EndOf(external, events, i), s.status[i]);
    }
  }

  lemma StepTracks(c: Call, external: Option<Error>, events: seq<Event>, s: State, e: Event)
    requires Shape(c, s) && Enabled(c, s, e) && Tracks(external, events, s)
    ensures Tracks(external, events + [e], Apply(c, s, e))
  {
    var more := events + [e];
    assert more[..|more| - 1] == events;
    if FirstFailed(external, more).None? {
      StepKeepsNoFailure(c, external, events, s, e);
    } else if FirstFailed(external, events).None? {
      assert EndedAs(EndOf(external, events, e.target), s.status[e.target]);
    }
  }

  lemma StepKeepsReason(c: Call, external: Option<Error>, events: seq<Event>, s: State, e: Event)
    requires Enabled(c, s, e) && s.external == CancelReason(external, events)
    ensures Apply(c, s, e).external == CancelReason(external, events + [e])
  {
    assert (events + [e])[..|events|] == events;
  }

  /** Nobody cancels, every source is reachable, and every read yields a tight view. */
  ghost predicate Undisturbed(external: Option<Error>, events: seq<Event>) {
    && external.None?
    && forall e :: e in events ==>
         !e.Cancel? && !e.ReadFail? && (e.ReadOk? ==> e.tight) && (e.Start? ==> e.unreachable.None?)
  }

  /** Some fetch has failed, and may still have to settle. */
  ghost predicate Disturbed(s: State) {
    s.external.Some? || exists i :: 0 <= i < |s.status| && s.status[i].Failed?
  }

  lemma StepDisturbs(c: Call, external: Option<Error>, events: seq<Event>, s: State, e: Event)
    requires Inv(c, s) && Enabled(c, s, e)
    requires Undisturbed(external, events) || Disturbed(s) || s.failures != []
    ensures var t := Apply(c, s, e);
            Undisturbed(external, events + [e]) || Disturbed(t) || t.failures != []
  {
    var t := Apply(c, s, e);
    if !Disturbed(t) && t.failures == [] {
      forall i | 0 <= i < |s.status|
        ensures !s.status[i].Failed?
      {
        assert !t.status[i].Failed?;
      }
      assert e.Start? ==> t.status[s.started] == FirstStatus(s, e.unreachable);
      assert e.ReadOk? || e.ReadFail? ==> !t.status[e.target].Failed?;
    }
  }

  /** What the schedule so far says about the state it led to. */
  ghost predicate Traced(c: Call, external: Option<Error>, events: seq<Event>, s: State) {
    && Inv(c, s) && Tracks(external, events, s) && s.external == CancelReason(external, events)
    && (Undisturbed(external, events) || Disturbed(s) || s.failures != [])
  }

  lemma StepKeepsTrace(c: Call, external: Option<Error>, events: seq<Event>, s: State, e: Event)
    requires Traced(c, external, events, s) && Enabled(c, s, e)
    ensures Traced(c, external, events + [e], Apply(c, s, e))
  {
    StepKeepsInv(c, s, e);
    StepTracks(c, external, events, s, e);
    StepKeepsReason(c, external, events, s, e);
    StepDisturbs(c, external, events, s, e);
  }

  lemma InitTrace(c: Call, external: Option<Error>)
    requires c.maxBytes >= 0
    ensures Traced(c, external, [], Init(c, external))
  {
    InitInv(c, external);
    InitTracks(c, external);
  }

  /** The last event of a run runs after all others. */
  lemma {:induction false} LastStep(c: Call, s: State, events: seq<Event>)
    requires Legal(c, s, events) && events != []
    ensures var before, last := events[..|events| - 1], events[|events| - 1];
            && Legal(c, s, before) && Enabled(c, After(c, s, before), last)
            && After(c, s, events) == Apply(c, After(c, s, before), last)
    decreases |events|
  {
    var before := events[..|events| - 1];
    if before != [] {
      LastStep(c, Apply(c, s, events[0]), events[1..]);
      assert before[1..] == events[1..][..|events| - 2];
    }
  }

  /** Every run from the start is traced. */
  lemma {:induction false} Trace(c: Call, external: Option<Error>, events: seq<Event>)
    requires c.maxBytes >= 0 && Legal(c, Init(c, external), events)
    ensures Traced(c, external, events, After(c, Init(c, external), events))
  {
    if events == [] {
      InitTrace(c, external);
    } else {
      var before, last := events[..|events| - 1], events[|events| - 1];
      LastStep(c, Init(c, external), events);
      Trace(c, external, before);
      StepKeepsTrace(c, external, before, After(c, Init(c, external), before), last);
      assert before + [last] == events;
    }
  }

  /**
    A call that throws does not throw the first abort reason exactly when the caller had cancelled before
    the first failed fetch settled, and that fetch had ended by a cause foreign to the cancellation.
   */
  lemma ThrownIsFirstAbortIff(c: Call, external: Option<Error>, events: seq<Event>)
    requires c.maxBytes >= 0 && Legal(c, Init(c, external), events)
    requires var s := After(c, Init(c, external), events); s.phase.Returned? && s.phase.outcome.Throw?
    ensures var s, first := After(c, Init(c, external), events), FirstFailed(external, events);
            && s.signal.Some?
            && (s.signal.value != s.phase.outcome.error <==>
                  first.Some? && first.value.cancelled.Some? && first.value.ending.Foreign(first.value.cancelled.value))
  {
    Trace(c, external, events);
    FirstFailedEnded(external, events);
  }

  lemma {:induction false} UndisturbedIsQuiet(external: Option<Error>, events: seq<Event>)
    requires Undisturbed(external, events)
    ensures CancelReason(external, events).None? && FirstFailed(external, events).None?
    ensures forall i: nat :: EndOf(external, events, i).Some? ==> !EndOf(external, events, i).value.Fails()
  {
    if events != [] {
      UndisturbedIsQuiet(external, events[..|events| - 1]);
    }
  }

  /**
    The outcome, read off the schedule: the table exactly when nobody cancelled, every source was reached
    and every read was good; else what the failed fetch that settled first had ended with, or else the
    reason the caller cancelled with.
   */
  lemma OutcomeIsScheduled(c: Call, external: Option<Error>, events: seq<Event>)
    requires c.maxBytes >= 0 && Legal(c, Init(c, external), events)
    requires After(c, Init(c, external), events).phase.Returned?
    ensures var outcome, first := After(c, Init(c, external), events).phase.outcome, FirstFailed(external, events);
            && (outcome.Table? <==> Undisturbed(external, events))
            && (first.Some? ==> outcome == Throw(first.value.ending.Cause()))
            && (first.None? && outcome.Throw? ==> CancelReason(external, events) == Some(outcome.error))
  {
    Trace(c, external, events);
    if Undisturbed(external, events) {
      UndisturbedIsQuiet(external, events);
    } else {
      var t := After(c, Init(c, external), events);
      assert forall i :: 0 <= i < |t.status| ==> !t.status[i].Failed?;
    }
  }

  /** Before the cancellation nothing fails, and after it the sources reject reads with the caller's reason. */
  predicate SourcesHonourCancellation(external: Option<Error>, events: seq<Event>) {
    events != [] ==>
      var before, last := events[..|events| - 1], events[|events| - 1];
      var cancelled := CancelReason(external, before);
      && SourcesHonourCancellation(external, before)
      && (last.ReadFail? ==> cancelled == Some(last.error))
      && (cancelled.None? && last.ReadOk? ==> last.tight)
      && (cancelled.None? && last.Start? ==> last.unreachable.None?)
  }

  lemma {:induction false} HonouredEndings(external: Option<Error>, events: seq<Event>, i: nat)
    requires SourcesHonourCancellation(external, events)
    ensures var ending := EndOf(external, events, i);
            ending.Some? && ending.value.Fails() ==>
              ending.value.cancelled.Some? && !ending.value.Foreign(ending.value.cancelled.value)
  {
    if events != [] {
      HonouredEndings(external, events[..|events| - 1], i);
    }
  }

  lemma {:induction false} HonouredFirstFailure(external: Option<Error>, events: seq<Event>)
    requires SourcesHonourCancellation(external, events)
    ensures var first := FirstFailed(external, events);
            first.Some? ==> first.value.cancelled.Some? && !first.value.ending.Foreign(first.value.cancelled.value)
  {
    if events != [] {
      var before, last := events[..|events| - 1], events[|events| - 1];
      HonouredFirstFailure(external, before);
      if last.Settle? {
        HonouredEndings(external, before, last.target);
        EndedUnderThisCancellation(external, before, last.target);
      }
    }
  }

  /** With sources that honour the cancellation, a cancelled call throws the caller's own reason. */
  lemma HonouredCancellationIsThrown(c: Call, external: Option<Error>, events: seq<Event>)
    requires c.maxBytes >= 0 && Legal(c, Init(c, external), events)
    requires After(c, Init(c, external), events).phase.Returned?
    requires SourcesHonourCancellation(external, events)
    ensures var s := After(c, Init(c, external), events);
            && s.external == CancelReason(external, events)
            && (s.external.Some? <==> s.phase.outcome.Throw?)
            && (s.external.Some? ==> s.phase.outcome.error == s.external.value)
  {
    Trace(c, external, events);
    HonouredFirstFailure(external, events);
    FirstFailedEnded(external, events);
    KeepsFirstCancellation(external, events);
  }

  lemma {:induction false} KeepsFirstCancellation(external: Option<Error>, events: seq<Event>)
    ensures var first := FirstFailed(external, events);
            first.Some? && first.value.cancelled.Some? ==> first.value.cancelled == CancelReason(external, events)
  {
    if events != [] {
      KeepsFirstCancellation(external, events[..|events| - 1]);
    }
  }

  lemma LegalCons(c: Call, s: State, e: Event, rest: seq<Event>)
    requires Enabled(c, s, e) && Legal(c, Apply(c, s, e), rest)
    ensures Legal(c, s, [e] + rest)
    ensures After(c, s, [e] + rest) == After(c, Apply(c, s, e), rest)
  {
    assert ([e] + rest)[1..] == rest;
  }

  /**
    With a cancellation that is not so: a read that fails on its own after it is what the call throws,
    although the signal was first aborted with the caller's reason.
   */
  lemma CancelledCallMayThrowOtherReason() returns (c: Call, events: seq<Event>)
    ensures c.maxBytes >= 0 && Legal(c, Init(c, None), events)
    ensures After(c, Init(c, None), events).signal == Some(Raw(1))
    ensures After(c, Init(c, None), events).phase == Returned(Throw(Hub(2)))
  {
    c := Call([FileRef("a", 1, "", None, None)], 1, (k: string) => []);
    var s0 := Init(c, None);
    assert s0.status == [Idle];
    var s1 := Apply(c, s0, Start(None));
    assert s1.status == [Reading];
    var s2 := Apply(c, s1, Cancel(Raw(1)));
    events := [Start(None)] + ([Cancel(Raw(1))] + FailingEnd());
    FailsAfterCancel(c, s2);
    LegalCons(c, s1, Cancel(Raw(1)), FailingEnd());
    LegalCons(c, s0, Start(None), [Cancel(Raw(1))] + FailingEnd());
  }

  function FailingEnd(): seq<Event> { [ReadFail(0, Hub(2))] + ([Settle(0)] + ([Return] + [])) }

  /** A cancelled read that rejects with a hub error of its own. */
  lemma FailsAfterCancel(c: Call, s: State)
    requires |c.targets| == 1 && s.status == [Reading] && s.started == 1 && s.phase.Draining?
    requires s.failure.None? && s.external == s.signal == Some(Raw(1)) && !s.admission.waiting
    ensures Legal(c, s, FailingEnd())
    ensures After(c, s, FailingEnd()).signal == Some(Raw(1))
    ensures After(c, s, FailingEnd()).phase == Returned(Throw(Hub(2)))
  {
    var s3 := Apply(c, s, ReadFail(0, Hub(2)));
    var s4 := Apply(c, s3, Settle(0));
    LegalCons(c, s4, Return, []);
    LegalCons(c, s3, Settle(0), [Return] + []);
    LegalCons(c, s, ReadFail(0, Hub(2)), [Settle(0)] + ([Return] + []));
  }

  // ----- the result table ---------------------------------------------------------------------

  function RefsOf(files: JsMap.Map<string, FileRef>): seq<FileRef> {
    seq(|files|, i requires 0 <= i < |files| => files[i].1)
  }

  /** Builds the caller's table; missing bytes are an internal error. */
  method AssembleTable(files: JsMap.Map<string, FileRef>, bytes: map<string, Bytes>)
    returns (table: Option<JsMap.Map<string, Bytes>>)
    ensures table.Some? <==> KeySet(RefsOf(files)) <= bytes.Keys
    ensures table.Some? ==> |table.value| == |files|
    ensures table.Some? ==> forall i :: 0 <= i < |files| ==>
              FileRefKey(files[i].1) in bytes && table.value[i] == (files[i].0, bytes[FileRefKey(files[i].1)])
  {
    var entries: JsMap.Map<string, Bytes> := [];
    for n := 0 to |files|
      invariant |entries| == n
      invariant forall i :: 0 <= i < n ==>
                  FileRefKey(files[i].1) in bytes && entries[i] == (files[i].0, bytes[FileRefKey(files[i].1)])
    {
      var key := FileRefKey(files[n].1);
      if key !in bytes {
        assert RefsOf(files)[n] == files[n].1;
        return None;
      }
      entries := entries + [(files[n].0, bytes[key])];
    }
    assert forall i :: 0 <= i < |files| ==> RefsOf(files)[i] == files[i].1;
    return Some(entries);
  }

  /** A successful call over the deduplicated files has the bytes of every file of the caller's table. */
  lemma TableIsComplete(c: Call, files: JsMap.Map<string, FileRef>, external: Option<Error>, events: seq<Event>)
    requires c.maxBytes >= 0 && c.targets == Unique(RefsOf(files))
    requires Legal(c, Init(c, external), events)
    requires After(c, Init(c, external), events).phase == Returned(Table)
    ensures var s := After(c, Init(c, external), events);
            && DistinctKeys(c.targets)
            && KeySet(RefsOf(files)) <= s.bytes.Keys
            && forall i :: 0 <= i < |files| ==>
                 var key := FileRefKey(files[i].1); key in s.bytes && s.bytes[key] == c.content(key)
  {
    OutcomeOfCall(c, external, events);
    UniqueProperties(RefsOf(files));
    forall i | 0 <= i < |files|
      ensures FileRefKey(files[i].1) in KeySet(RefsOf(files))
    {
      assert RefsOf(files)[i] == files[i].1;
    }
  }

  // ----- the variables of one call ------------------------------------------------------------

  /** The closure of one call: each method is one continuation, run to its next suspension. */
  class FetchCall {
    const call: Call
    const admission: ByteAdmission
    var phase: Phase
    var running: nat
    var status: seq<Status>
    var external: Option<Error>
    var failure: Option<Error>
    var signal: Option<Error>
    var bytesByRef: map<string, Bytes>
    ghost var readLog: seq<nat>
    ghost var failures: seq<Error>

    ghost function View(): State
      reads this, admission
    {
      State(admission.View(), phase, running, status, external, failure, signal, bytesByRef, readLog, failures)
    }

    ghost predicate Ready(e: Event)
      reads this, admission
    {
      admission.maxBytes == call.maxBytes && Enabled(call, View(), e)
    }

    constructor (call: Call, external: Option<Error>)
      ensures this.call == call && admission.maxBytes == call.maxBytes && fresh(admission)
      ensures View() == Init(call, external)
    {
      this.call := call;
      admission := new ByteAdmission(call.maxBytes);
      phase, running, status := Draining, 0, seq(|call.targets|, _ => Idle);
      this.external, failure, signal := external, None, external;
      bytesByRef, readLog, failures := map[], [], [];
      new;
      Dispatch();
    }

    /** The dispatch loop from its head to its next suspension. */
    method Dispatch()
      requires admission.maxBytes == call.maxBytes && WellFormed(call, View())
      modifies this, admission
      ensures View() == Head(call, old(View()))
    {
      if running == |call.targets| || signal.Some? {
        phase := Draining;
      } else {
        Admit();
      }
    }

    method Admit()
      requires admission.maxBytes == call.maxBytes && WellFormed(call, View()) && running < |call.targets|
      modifies this, admission
      ensures View() == TryAdmit(call, old(View()))
    {
      var admitted := admission.Attempt(call.targets[running].size);
      phase := if admitted then Admitted else Parked;
    }

    method OnCancel(reason: Error)
      requires Ready(Cancel(reason))
      modifies this
      ensures View() == Apply(call, old(View()), Cancel(reason))
    {
      external := Some(reason);
      if signal.None? {
        signal := Some(reason);
      }
    }

    method OnRecheck()
      requires Ready(Recheck)
      modifies this, admission
      ensures View() == Apply(call, old(View()), Recheck)
    {
      Admit();
    }

    /** Starts the next fetch: the cancellation check, then the source, then back to the loop. */
    method OnStart(unreachable: Option<Error>)
      requires Ready(Start(unreachable))
      modifies this, admission
      ensures View() == Apply(call, old(View()), Start(unreachable))
    {
      if signal.Some? {
        status := status[running := Failed(signal.value)];
      } else if unreachable.Some? {
        status := status[running := Failed(Surfaced(unreachable.value, signal))];
      } else {
        status := status[running := Reading];
        readLog := readLog + [running];
      }
      running := running + 1;
      Dispatch();
    }

    method OnReadOk(i: nat, tight: bool)
      requires Ready(ReadOk(i, tight))
      modifies this
      ensures View() == Apply(call, old(View()), ReadOk(i, tight))
    {
      if signal.Some? {
        status := status[i := Failed(signal.value)];
      } else if !tight {
        status := status[i := Failed(NotTight)];
      } else {
        var key := FileRefKey(call.targets[i]);
        bytesByRef := bytesByRef[key := call.content(key)];
        status := status[i := Stored];
      }
    }

    method OnReadFail(i: nat, error: Error)
      requires Ready(ReadFail(i, error))
      modifies this
      ensures View() == Apply(call, old(View()), ReadFail(i, error))
    {
      status := status[i := Failed(Surfaced(error, signal))];
    }

    /** The end of one fetch: abort the others if it failed, and return its bytes either way. */
    method OnSettle(i: nat)
      requires Ready(Settle(i))
      modifies this, admission
      ensures View() == Apply(call, old(View()), Settle(i))
    {
      var failed := status[i].Failed?;
      if failed {
        var reason := status[i].reason;
        failure := Abort(failure, reason);
        signal := Abort(signal, reason);
        failures := failures + [reason];
      }
      var resumed := admission.Release(call.targets[i].size);
      if resumed {
        phase := Woken;
      }
      status := status[i := Released(!failed)];
    }

    method OnReturn()
      requires Ready(Return)
      modifies this
      ensures View() == Apply(call, old(View()), Return)
    {
      if failure.Some? {
        phase := Returned(Throw(failure.value));
      } else if signal.Some? {
        phase := Returned(Throw(signal.value));
      } else {
        phase := Returned(Table);
      }
    }
  }
}

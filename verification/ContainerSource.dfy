/**
  The block source of one container (packages/hub/src/container.ts, `openContainerSource`).

  Reads of a part share a memoised plan (seek or scan).  Scanning reads share one holding slot for the
  full read of one part, in flight or finished; a read of another part takes the slot over.  A failed
  attempt runs a handler that forgets it before anybody sees the rejection.  The events are those
  continuations, in any order; the reference definition is slicing the part's bytes.
 */
module ContainerSource {
  import opened Wrappers

  type Bytes = seq<bv8>

  /** `content[i]` is the file of part i; `canOpen`: the source has range readers at all. */
  datatype Container = Container(content: seq<Bytes>, canOpen: bool)

  /** `OpenFailed` has failed, and its handler has not run yet; only then it becomes `PlanRejected`. */
  datatype PlanState = Opening | OpenFailed | SeekPlan | ScanPlan | PlanRejected
  datatype PlanTry = PlanTry(part: nat, state: PlanState)

  datatype WholeState = Fetching | FetchFailed | Whole(bytes: Bytes) | WholeRejected
  datatype WholeTry = WholeTry(part: nat, state: WholeState)

  datatype Held = Held(part: nat, attempt: nat)

  datatype Attempt = PlanAttempt(id: nat) | WholeAttempt(id: nat)

  datatype Progress = AwaitPlan | AwaitSeek | AwaitWhole | Resolved(bytes: Bytes) | Rejected

  /** One `read` call, the attempts it joined, and the attempts that were rejected when it was issued. */
  datatype ReadCall = ReadCall(
    part: int,
    offset: int,
    length: int,
    progress: Progress,
    plan: Option<nat>,
    whole: Option<nat>,
    rejectedBefore: set<Attempt>
  )

  datatype State = State(
    plans: map<nat, nat>,
    planTries: seq<PlanTry>,
    held: Option<Held>,
    wholes: seq<WholeTry>,
    calls: seq<ReadCall>
  )

  datatype OpenOutcome = OpenedSeek | OpenedScan | OpenError

  datatype Event =
    | Issue(part: int, offset: int, length: int)
    | PlanSettles(plan: nat, outcome: OpenOutcome)
    | PlanHandler(plan: nat)
    | Resume(read: nat)
    | SeekSettles(read: nat, ok: bool)
    | WholeSettles(whole: nat, ok: bool)
    | WholeHandler(whole: nat)
    | Finish(read: nat)

  // ----- the reference definition -------------------------------------------------------------

  predicate ValidRange(c: Container, part: int, offset: int, length: int) {
    && 0 <= part < |c.content|
    && |c.content[part]| > 0
    && 0 <= offset && 0 <= length && offset + length <= |c.content[part]|
  }

  function Slice(c: Container, part: int, offset: int, length: int): Bytes
    requires ValidRange(c, part, offset, length)
  {
    c.content[part][offset..offset + length]
  }

  // ----- transitions --------------------------------------------------------------------------

  const Init := State(map[], [], None, [], [])

  function RejectedNow(s: State): (r: set<Attempt>)
    ensures forall a :: a in r <==> IsRejected(s, a)
  {
    (set p | 0 <= p < |s.planTries| && s.planTries[p].state.PlanRejected? :: PlanAttempt(p))
    + (set w | 0 <= w < |s.wholes| && s.wholes[w].state.WholeRejected? :: WholeAttempt(w))
  }

  predicate IsRejected(s: State, a: Attempt) {
    match a
    case PlanAttempt(p) => p < |s.planTries| && s.planTries[p].state.PlanRejected?
    case WholeAttempt(w) => w < |s.wholes| && s.wholes[w].state.WholeRejected?
  }

  predicate Enabled(c: Container, s: State, e: Event) {
    match e
    case Issue(_, _, _) => true
    case PlanSettles(p, outcome) =>
      p < |s.planTries| && s.planTries[p].state.Opening? && (c.canOpen || outcome.OpenedScan?)
    case PlanHandler(p) => p < |s.planTries| && s.planTries[p].state.OpenFailed?
    case Resume(r) =>
      && r < |s.calls| && s.calls[r].progress.AwaitPlan? && s.calls[r].part >= 0
      && s.calls[r].plan.Some? && s.calls[r].plan.value < |s.planTries|
      && !s.planTries[s.calls[r].plan.value].state.Opening? && !s.planTries[s.calls[r].plan.value].state.OpenFailed?
    case SeekSettles(r, _) =>
      && r < |s.calls| && s.calls[r].progress.AwaitSeek?
      && s.calls[r].plan.Some? && s.calls[r].plan.value < |s.planTries|
      && ValidRange(c, s.planTries[s.calls[r].plan.value].part, s.calls[r].offset, s.calls[r].length)
    case WholeSettles(w, _) => w < |s.wholes| && s.wholes[w].state.Fetching? && s.wholes[w].part < |c.content|
    case WholeHandler(w) => w < |s.wholes| && s.wholes[w].state.FetchFailed?
    case Finish(r) =>
      && r < |s.calls| && s.calls[r].progress.AwaitWhole?
      && s.calls[r].whole.Some? && s.calls[r].whole.value < |s.wholes|
      && match s.wholes[s.calls[r].whole.value].state {
           case Whole(bytes) => 0 <= s.calls[r].offset <= s.calls[r].offset + s.calls[r].length <= |bytes|
           case WholeRejected => true
           case _ => false
         }
  }

  /** The plan of a part: the remembered one, or a new attempt. */
  function JoinPlan(s: State, part: nat): (State, nat) {
    if part in s.plans then (s, s.plans[part])
    else (s.(plans := s.plans[part := |s.planTries|], planTries := s.planTries + [PlanTry(part, Opening)]),
          |s.planTries|)
  }

  /** The full read of a part: the one in the slot, or a new one that takes the slot. */
  function JoinWhole(s: State, part: nat): (State, nat) {
    if s.held.Some? && s.held.value.part == part then (s, s.held.value.attempt)
    else (s.(held := Some(Held(part, |s.wholes|)), wholes := s.wholes + [WholeTry(part, Fetching)]),
          |s.wholes|)
  }

  function SetRead(s: State, r: nat, call: ReadCall): State
    requires r < |s.calls|
  {
    s.(calls := s.calls[r := call])
  }

  function Apply(c: Container, s: State, e: Event): State
    requires Enabled(c, s, e)
  {
    match e
    case Issue(part, offset, length) =>
      var call := ReadCall(part, offset, length, Rejected, None, None, RejectedNow(s));
      if !ValidRange(c, part, offset, length) then s.(calls := s.calls + [call])
      else
        var (s1, p) := JoinPlan(s, part);
        s1.(calls := s1.calls + [call.(progress := AwaitPlan, plan := Some(p))])
    case PlanSettles(p, outcome) =>
      var state := match outcome
        case OpenedSeek => SeekPlan case OpenedScan => ScanPlan case OpenError => OpenFailed;
      s.(planTries := s.planTries[p := s.planTries[p].(state := state)])
    case PlanHandler(p) =>
      s.(plans := s.plans - {s.planTries[p].part},
         planTries := s.planTries[p := s.planTries[p].(state := PlanRejected)])
    case Resume(r) =>
      var call := s.calls[r];
      (match s.planTries[call.plan.value].state
       case SeekPlan => SetRead(s, r, call.(progress := AwaitSeek))
       case ScanPlan =>
         var (s1, w) := JoinWhole(s, call.part);
         SetRead(s1, r, call.(progress := AwaitWhole, whole := Some(w)))
       case _ => SetRead(s, r, call.(progress := Rejected)))
    case SeekSettles(r, ok) =>
      var call := s.calls[r];
      var bytes := Slice(c, s.planTries[call.plan.value].part, call.offset, call.length);
      SetRead(s, r, call.(progress := if ok then Resolved(bytes) else Rejected))
    case WholeSettles(w, ok) =>
      var state := if ok then Whole(c.content[s.wholes[w].part]) else FetchFailed;
      s.(wholes := s.wholes[w := s.wholes[w].(state := state)])
    case WholeHandler(w) =>
      s.(held := if s.held.Some? && s.held.value.attempt == w then None else s.held,
         wholes := s.wholes[w := s.wholes[w].(state := WholeRejected)])
    case Finish(r) =>
      var call := s.calls[r];
      (match s.wholes[call.whole.value].state
       case Whole(bytes) => SetRead(s, r, call.(progress := Resolved(bytes[call.offset..call.offset + call.length])))
       case _ => SetRead(s, r, call.(progress := Rejected)))
  }

  predicate Legal(c: Container, s: State, events: seq<Event>)
    decreases |events|
  {
    events != [] ==> Enabled(c, s, events[0]) && Legal(c, Apply(c, s, events[0]), events[1..])
  }

  function After(c: Container, s: State, events: seq<Event>): State
    requires Legal(c, s, events)
    decreases |events|
  {
    if events == [] then s else After(c, Apply(c, s, events[0]), events[1..])
  }

  // ----- invariants ---------------------------------------------------------------------------

  /** The memo holds the newest attempt of each part, never a rejected one; an unsettled attempt is in it. */
  ghost predicate Memo(c: Container, s: State) {
    && (forall i :: i in s.plans ==>
          && s.plans[i] < |s.planTries|
          && s.planTries[s.plans[i]].part == i
          && !s.planTries[s.plans[i]].state.PlanRejected?)
    && (forall p :: 0 <= p < |s.planTries| ==> s.planTries[p].part < |c.content|)
    && (forall p :: 0 <= p < |s.planTries| && (s.planTries[p].state.Opening? || s.planTries[p].state.OpenFailed?) ==>
          s.planTries[p].part in s.plans && s.plans[s.planTries[p].part] == p)
  }

  /** The slot names an attempt of its own part that is not rejected; a finished attempt has its part's bytes. */
  ghost predicate Slot(c: Container, s: State) {
    && (s.held.Some? ==>
          && s.held.value.attempt < |s.wholes|
          && s.wholes[s.held.value.attempt].part == s.held.value.part
          && !s.wholes[s.held.value.attempt].state.WholeRejected?)
    && (forall w :: 0 <= w < |s.wholes| ==>
          && s.wholes[w].part < |c.content|
          && (s.wholes[w].state.Whole? ==> s.wholes[w].state.bytes == c.content[s.wholes[w].part]))
  }

  /** A read joined attempts of its own part, none of them rejected when it was issued. */
  ghost predicate GoodRead(c: Container, s: State, call: ReadCall) {
    && (forall a :: a in call.rejectedBefore ==> IsRejected(s, a))
    && (!call.progress.Rejected? ==> ValidRange(c, call.part, call.offset, call.length) && call.plan.Some?)
    && (call.plan.Some? ==>
          && call.plan.value < |s.planTries|
          && s.planTries[call.plan.value].part == call.part
          && PlanAttempt(call.plan.value) !in call.rejectedBefore)
    && (call.whole.Some? ==>
          && call.whole.value < |s.wholes|
          && s.wholes[call.whole.value].part == call.part
          && WholeAttempt(call.whole.value) !in call.rejectedBefore)
    && (call.progress.AwaitWhole? ==> call.whole.Some?)
    && (call.progress.AwaitPlan? ==> call.whole.None?)
    && (call.progress.Resolved? ==> call.progress.bytes == Slice(c, call.part, call.offset, call.length))
  }

  ghost predicate Reads(c: Container, s: State) {
    forall r :: 0 <= r < |s.calls| ==> GoodRead(c, s, s.calls[r])
  }

  ghost predicate Inv(c: Container, s: State) {
    Memo(c, s) && Slot(c, s) && Reads(c, s)
  }

  lemma JoinPlanKeepsMemo(c: Container, s: State, part: nat)
    requires Memo(c, s) && part < |c.content|
    ensures Memo(c, JoinPlan(s, part).0)
  {
  }

  lemma PlanStepKeepsMemo(c: Container, s: State, e: Event)
    requires Memo(c, s) && Enabled(c, s, e) && (e.PlanSettles? || e.PlanHandler?)
    ensures Memo(c, Apply(c, s, e))
  {
  }

  lemma StepKeepsMemo(c: Container, s: State, e: Event)
    requires Memo(c, s) && Enabled(c, s, e)
    ensures Memo(c, Apply(c, s, e))
  {
    if e.PlanSettles? || e.PlanHandler? {
      PlanStepKeepsMemo(c, s, e);
    } else if e.Issue? {
      if ValidRange(c, e.part, e.offset, e.length) {
        JoinPlanKeepsMemo(c, s, e.part);
      }
    } else {
      var t := Apply(c, s, e);
      assert t.plans == s.plans && t.planTries == s.planTries;
    }
  }

  lemma StepKeepsSlot(c: Container, s: State, e: Event)
    requires Memo(c, s) && Slot(c, s) && Reads(c, s) && Enabled(c, s, e)
    ensures Slot(c, Apply(c, s, e))
  {
    if e.Resume? {
      assert GoodRead(c, s, s.calls[e.read]);
    }
  }

  /** Attempts keep their part, and a rejected one stays rejected. */
  ghost predicate Extends(s: State, t: State) {
    && |s.planTries| <= |t.planTries| && |s.wholes| <= |t.wholes|
    && (forall p :: 0 <= p < |s.planTries| ==> t.planTries[p].part == s.planTries[p].part)
    && (forall w :: 0 <= w < |s.wholes| ==> t.wholes[w].part == s.wholes[w].part)
    && (forall a :: IsRejected(s, a) ==> IsRejected(t, a))
  }

  lemma StepExtends(c: Container, s: State, e: Event)
    requires Enabled(c, s, e)
    ensures Extends(s, Apply(c, s, e))
  {
  }

  lemma GoodReadStays(c: Container, s: State, t: State, call: ReadCall)
    requires GoodRead(c, s, call) && Extends(s, t)
    ensures GoodRead(c, t, call)
  {
  }

  /** A new read joins a plan that was not rejected before it. */
  lemma NewReadIsGood(c: Container, s: State, e: Event)
    requires Memo(c, s) && Enabled(c, s, e) && e.Issue?
    ensures var t := Apply(c, s, e);
            |t.calls| == |s.calls| + 1 && t.calls[..|s.calls|] == s.calls && GoodRead(c, t, t.calls[|s.calls|])
  {
  }

  lemma ResumedReadIsGood(c: Container, s: State, r: nat)
    requires Memo(c, s) && Slot(c, s) && Reads(c, s) && Enabled(c, s, Resume(r))
    ensures var t := Apply(c, s, Resume(r));
            |t.calls| == |s.calls| && t.calls == s.calls[r := t.calls[r]] && GoodRead(c, t, t.calls[r])
  {
    assert GoodRead(c, s, s.calls[r]);
  }

  /** A read that moves on stays good. */
  lemma MovedReadIsGood(c: Container, s: State, e: Event)
    requires Memo(c, s) && Slot(c, s) && Reads(c, s) && Enabled(c, s, e) && (e.Resume? || e.SeekSettles? || e.Finish?)
    ensures var t := Apply(c, s, e);
            |t.calls| == |s.calls| && t.calls == s.calls[e.read := t.calls[e.read]] && GoodRead(c, t, t.calls[e.read])
  {
    if e.Resume? {
      ResumedReadIsGood(c, s, e.read);
    } else {
      assert GoodRead(c, s, s.calls[e.read]);
    }
  }

  lemma StepKeepsReads(c: Container, s: State, e: Event)
    requires Memo(c, s) && Slot(c, s) && Reads(c, s) && Enabled(c, s, e)
    ensures Reads(c, Apply(c, s, e))
  {
    var t := Apply(c, s, e);
    StepExtends(c, s, e);
    forall r | 0 <= r < |s.calls|
      ensures GoodRead(c, t, s.calls[r])
    {
      assert GoodRead(c, s, s.calls[r]);
      GoodReadStays(c, s, t, s.calls[r]);
    }
    if e.Issue? {
      NewReadIsGood(c, s, e);
      assert forall r :: 0 <= r < |s.calls| ==> t.calls[r] == t.calls[..|s.calls|][r];
    } else if e.Resume? || e.SeekSettles? || e.Finish? {
      MovedReadIsGood(c, s, e);
    } else {
      assert t.calls == s.calls;
    }
  }

  lemma StepKeepsInv(c: Container, s: State, e: Event)
    requires Inv(c, s) && Enabled(c, s, e)
    ensures Inv(c, Apply(c, s, e))
  {
    StepKeepsMemo(c, s, e);
    StepKeepsSlot(c, s, e);
    StepKeepsReads(c, s, e);
  }

  lemma {:induction false} RunKeepsInv(c: Container, s: State, events: seq<Event>)
    requires Inv(c, s) && Legal(c, s, events)
    ensures Inv(c, After(c, s, events))
    decreases |events|
  {
    if events != [] {
      StepKeepsInv(c, s, events[0]);
      RunKeepsInv(c, Apply(c, s, events[0]), events[1..]);
    }
  }

  // ----- theorems over whole runs -------------------------------------------------------------

  /** Every read that resolves has exactly the bytes of its range of its part. */
  lemma ReadsRefineSlicing(c: Container, events: seq<Event>, r: nat)
    requires Legal(c, Init, events) && r < |After(c, Init, events).calls|
    requires After(c, Init, events).calls[r].progress.Resolved?
    ensures var call := After(c, Init, events).calls[r];
            && ValidRange(c, call.part, call.offset, call.length)
            && call.progress.bytes == Slice(c, call.part, call.offset, call.length)
  {
    RunKeepsInv(c, Init, events);
    assert GoodRead(c, After(c, Init, events), After(c, Init, events).calls[r]);
  }

  /** No read is served by an attempt that had been rejected when the read was issued. */
  lemma FailuresAreNotServedLater(c: Container, before: seq<Event>, part: int, offset: int, length: int, later: seq<Event>)
    requires Legal(c, Init, before)
    requires Legal(c, Apply(c, After(c, Init, before), Issue(part, offset, length)), later)
    ensures var s := After(c, Init, before);
            var t := After(c, Apply(c, s, Issue(part, offset, length)), later);
            && |s.calls| < |t.calls|
            && (t.calls[|s.calls|].plan.Some? ==> !IsRejected(s, PlanAttempt(t.calls[|s.calls|].plan.value)))
            && (t.calls[|s.calls|].whole.Some? ==> !IsRejected(s, WholeAttempt(t.calls[|s.calls|].whole.value)))
  {
    RunKeepsInv(c, Init, before);
    var s := After(c, Init, before);
    var s1 := Apply(c, s, Issue(part, offset, length));
    StepKeepsInv(c, s, Issue(part, offset, length));
    RunKeepsInv(c, s1, later);
    CallsKeepTheirIssue(c, s1, later, |s.calls|);
    var t := After(c, s1, later);
    assert GoodRead(c, t, t.calls[|s.calls|]);
  }

  lemma {:induction false} CallsKeepTheirIssue(c: Container, s: State, events: seq<Event>, r: nat)
    requires Legal(c, s, events) && r < |s.calls|
    ensures r < |After(c, s, events).calls|
    ensures After(c, s, events).calls[r].rejectedBefore == s.calls[r].rejectedBefore
    decreases |events|
  {
    if events != [] {
      CallsKeepTheirIssue(c, Apply(c, s, events[0]), events[1..], r);
    }
  }

  /** When a failed opening is forgotten, the memo entry removed is its own, and every other part keeps its plan. */
  lemma HandlerForgetsOwnPlan(c: Container, s: State, p: nat)
    requires Inv(c, s) && Enabled(c, s, PlanHandler(p))
    ensures var t := Apply(c, s, PlanHandler(p)); var part := s.planTries[p].part;
            && part in s.plans && s.plans[part] == p && part !in t.plans
            && forall i :: i != part ==> (i in t.plans <==> i in s.plans) && (i in t.plans ==> t.plans[i] == s.plans[i])
  {
  }

  /** A full read that a read joins has not failed, and it is a read of the same part. */
  lemma JoinedFullReadIsFresh(c: Container, s: State, r: nat)
    requires Inv(c, s) && Enabled(c, s, Resume(r)) && Apply(c, s, Resume(r)).calls[r].progress.AwaitWhole?
    ensures var t := Apply(c, s, Resume(r)); var w := t.calls[r].whole;
            && w.Some? && w.value < |t.wholes| && t.wholes[w.value].part == s.calls[r].part
            && !IsRejected(s, WholeAttempt(w.value)) && !IsRejected(t, WholeAttempt(w.value))
            && t.held == Some(Held(t.wholes[w.value].part, w.value))
  {
    assert GoodRead(c, s, s.calls[r]);
  }

  // ----- the slot -----------------------------------------------------------------------------

  /** The event fails the attempt in the slot, or continues a read that scans another part. */
  predicate Displaces(s: State, e: Event, h: Held) {
    match e
    case WholeHandler(w) => w == h.attempt
    case Resume(r) =>
      && r < |s.calls| && s.calls[r].part != h.part
      && s.calls[r].plan.Some? && s.calls[r].plan.value < |s.planTries|
      && s.planTries[s.calls[r].plan.value].state.ScanPlan?
    case _ => false
  }

  /**
    The slot changes exactly when its own attempt is handled as failed or a scan of another part takes it
    over; the failure of an attempt that was evicted never clears it, not for a successor of its own part
    either.
   */
  lemma SlotChangesIffDisplaced(c: Container, s: State, e: Event)
    requires Inv(c, s) && Enabled(c, s, e) && s.held.Some?
    ensures Apply(c, s, e).held != s.held <==> Displaces(s, e, s.held.value)
  {
    if e.Resume? {
      assert GoodRead(c, s, s.calls[e.read]);
    }
  }

  /** A failing full read that was evicted leaves whatever holds the slot now. */
  lemma EvictedFailureKeepsSuccessor(c: Container, s: State, w: nat)
    requires Inv(c, s) && Enabled(c, s, WholeHandler(w))
    ensures var t := Apply(c, s, WholeHandler(w));
            && (s.held.Some? && s.held.value.attempt != w ==> t.held == s.held)
            && (s.held.Some? && s.held.value.attempt == w ==> t.held.None?)
            && (s.held.None? ==> t.held.None?)
  {
    if s.held.Some? {
      SlotChangesIffDisplaced(c, s, WholeHandler(w));
    }
  }

  /** No event of the run displaces the attempt in the slot. */
  predicate Undisturbed(c: Container, s: State, events: seq<Event>, h: Held)
    requires Legal(c, s, events)
    decreases |events|
  {
    events != [] ==> !Displaces(s, events[0], h) && Undisturbed(c, Apply(c, s, events[0]), events[1..], h)
  }

  /** Part p stays in the slot during the whole run. */
  predicate StaysOn(c: Container, s: State, events: seq<Event>, p: nat)
    requires Legal(c, s, events)
    decreases |events|
  {
    && s.held.Some? && s.held.value.part == p
    && (events != [] ==> StaysOn(c, Apply(c, s, events[0]), events[1..], p))
  }

  /** An attempt in the slot survives the settling and the failure of every other attempt. */
  lemma {:induction false} SlotSurvives(c: Container, s: State, events: seq<Event>, h: Held)
    requires Inv(c, s) && s.held == Some(h) && Legal(c, s, events) && Undisturbed(c, s, events, h)
    ensures StaysOn(c, s, events, h.part) && After(c, s, events).held == Some(h)
    decreases |events|
  {
    if events != [] {
      SlotChangesIffDisplaced(c, s, events[0]);
      StepKeepsInv(c, s, events[0]);
      SlotSurvives(c, Apply(c, s, events[0]), events[1..], h);
    }
  }

  /** The full read that read r has joined. */
  function Joined(s: State, r: nat): Option<nat> {
    if r < |s.calls| then s.calls[r].whole else None
  }

  /** Every read that joined a full read between s and t joined the attempt h, and is a read of its part. */
  ghost predicate JoinsOnly(s: State, t: State, h: Held) {
    forall r :: 0 <= r < |t.calls| ==>
      && (Joined(s, r).Some? ==> Joined(t, r) == Joined(s, r))
      && (Joined(s, r).None? && Joined(t, r).Some? ==> Joined(t, r) == Some(h.attempt) && t.calls[r].part == h.part)
  }

  lemma StepOnSlot(c: Container, s: State, e: Event)
    requires Inv(c, s) && Enabled(c, s, e) && s.held.Some?
    requires var t := Apply(c, s, e); t.held.Some? && t.held.value.part == s.held.value.part
    ensures var t := Apply(c, s, e); t.held == s.held && |t.wholes| == |s.wholes| && JoinsOnly(s, t, s.held.value)
    ensures |s.calls| <= |Apply(c, s, e).calls|
    ensures forall r :: 0 <= r < |s.calls| ==> Apply(c, s, e).calls[r].part == s.calls[r].part
  {
    if e.Resume? {
      assert GoodRead(c, s, s.calls[e.read]);
    }
  }

  /**
    While a part stays in the slot, its full read is shared: no other full read starts, and every read
    that needs a full read meanwhile joins the one in the slot.
   */
  lemma {:induction false} FullReadIsShared(c: Container, s: State, events: seq<Event>, p: nat)
    requires Inv(c, s) && Legal(c, s, events) && StaysOn(c, s, events, p)
    ensures var t := After(c, s, events);
            t.held == s.held && |t.wholes| == |s.wholes| && JoinsOnly(s, t, s.held.value)
    ensures |s.calls| <= |After(c, s, events).calls|
    ensures forall r :: 0 <= r < |s.calls| ==> After(c, s, events).calls[r].part == s.calls[r].part
    decreases |events|
  {
    if events != [] {
      var s1 := Apply(c, s, events[0]);
      StepOnSlot(c, s, events[0]);
      StepKeepsInv(c, s, events[0]);
      FullReadIsShared(c, s1, events[1..], p);
      var t := After(c, s1, events[1..]);
      forall r | 0 <= r < |t.calls|
        ensures Joined(s, r).Some? ==> Joined(t, r) == Joined(s, r)
        ensures Joined(s, r).None? && Joined(t, r).Some? ==>
                  Joined(t, r) == Some(s.held.value.attempt) && t.calls[r].part == s.held.value.part
      {
        assert r < |s1.calls| ==> t.calls[r].part == s1.calls[r].part;
      }
    }
  }

  // ----- the memo of plans --------------------------------------------------------------------

  /** Reads of the part issued between s and t joined the attempt p, and no other attempt was made for it. */
  ghost predicate PlansOnce(s: State, t: State, part: nat, p: nat) {
    && |s.calls| <= |t.calls| && |s.planTries| <= |t.planTries|
    && part in t.plans && t.plans[part] == p
    && (forall r :: |s.calls| <= r < |t.calls| && t.calls[r].part == part && t.calls[r].plan.Some? ==>
          t.calls[r].plan == Some(p))
    && (forall q :: |s.planTries| <= q < |t.planTries| ==> t.planTries[q].part != part)
    && (forall r :: 0 <= r < |s.calls| ==> t.calls[r].part == s.calls[r].part && t.calls[r].plan == s.calls[r].plan)
    && (forall q :: 0 <= q < |s.planTries| ==> t.planTries[q].part == s.planTries[q].part)
  }

  lemma StepPlansOnce(c: Container, s: State, e: Event, part: nat)
    requires Memo(c, s) && Enabled(c, s, e) && part in s.plans && e != PlanHandler(s.plans[part])
    ensures PlansOnce(s, Apply(c, s, e), part, s.plans[part])
  {
    if e.Resume? || e.SeekSettles? || e.Finish? {
      MovedReadKeepsPlan(c, s, e);
    }
  }

  lemma MovedReadKeepsPlan(c: Container, s: State, e: Event)
    requires Enabled(c, s, e) && (e.Resume? || e.SeekSettles? || e.Finish?)
    ensures var t := Apply(c, s, e);
            && t.plans == s.plans && t.planTries == s.planTries && |t.calls| == |s.calls|
            && forall r :: 0 <= r < |s.calls| ==> t.calls[r].part == s.calls[r].part && t.calls[r].plan == s.calls[r].plan
  {
  }

  lemma PlansOnceTwice(s: State, t: State, u: State, part: nat, p: nat)
    requires PlansOnce(s, t, part, p) && PlansOnce(t, u, part, p)
    ensures PlansOnce(s, u, part, p)
  {
  }

  /**
    A part is opened once for all its reads: from the moment a plan is remembered until the plan fails, no
    other opening of the part is started, and every read of it that passes the range checks joins the plan.
   */
  lemma {:induction false} PlanIsShared(c: Container, s: State, events: seq<Event>, part: nat)
    requires Inv(c, s) && Legal(c, s, events) && part in s.plans && PlanHandler(s.plans[part]) !in events
    ensures PlansOnce(s, After(c, s, events), part, s.plans[part])
    decreases |events|
  {
    if events != [] {
      StepPlansOnce(c, s, events[0], part);
      StepKeepsInv(c, s, events[0]);
      assert forall e :: e in events[1..] ==> e in events;
      PlanIsShared(c, Apply(c, s, events[0]), events[1..], part);
      PlansOnceTwice(s, Apply(c, s, events[0]), After(c, s, events), part, s.plans[part]);
    }
  }

  // ----- how every read ends ------------------------------------------------------------------

  // Read off the schedule: which reads were issued, and how the attempts they joined settled.

  datatype Request = Request(part: int, offset: int, length: int)

  function Requests(events: seq<Event>): seq<Request> {
    if events == [] then []
    else
      var before, last := events[..|events| - 1], events[|events| - 1];
      Requests(before) + (if last.Issue? then [Request(last.part, last.offset, last.length)] else [])
  }

  /** Within a part of the container that has bytes. */
  predicate InPart(c: Container, q: Request) {
    0 <= q.part < |c.content|
    && var size := |c.content[q.part]|;
       0 < size && 0 <= q.offset <= size && 0 <= q.length <= size - q.offset
  }

  /** The state of a plan is how its opening settled. */
  ghost predicate PlanLogged(events: seq<Event>, p: nat, state: PlanState) {
    && (PlanSettles(p, OpenedSeek) in events <==> state.SeekPlan?)
    && (PlanSettles(p, OpenedScan) in events <==> state.ScanPlan?)
    && (PlanSettles(p, OpenError) in events <==> state.OpenFailed? || state.PlanRejected?)
  }

  ghost predicate WholeLogged(events: seq<Event>, w: nat, state: WholeState) {
    && (WholeSettles(w, true) in events <==> state.Whole?)
    && (WholeSettles(w, false) in events <==> state.FetchFailed? || state.WholeRejected?)
  }

  /** What the schedule says a read has come to. */
  ghost predicate ReadLogged(c: Container, events: seq<Event>, r: nat, call: ReadCall) {
    match call.progress
    case AwaitPlan =>
      call.plan.Some? && call.whole.None? && SeekSettles(r, true) !in events && SeekSettles(r, false) !in events
    case AwaitSeek =>
      && call.plan.Some? && call.whole.None? && SeekSettles(r, true) !in events && SeekSettles(r, false) !in events
      && PlanSettles(call.plan.value, OpenedSeek) in events
    case AwaitWhole =>
      && call.plan.Some? && call.whole.Some? && SeekSettles(r, true) !in events && SeekSettles(r, false) !in events
      && PlanSettles(call.plan.value, OpenedScan) in events
    case Resolved(_) => Served(events, r, call)
    case Rejected => Refused(c, events, r, call)
  }

  /** Through a ranged read or a full read that succeeded. */
  ghost predicate Served(events: seq<Event>, r: nat, call: ReadCall) {
    && call.plan.Some?
    && if PlanSettles(call.plan.value, OpenedSeek) in events then
         call.whole.None? && SeekSettles(r, true) in events && SeekSettles(r, false) !in events
       else
         && PlanSettles(call.plan.value, OpenedScan) in events
         && call.whole.Some? && WholeSettles(call.whole.value, true) in events
         && WholeSettles(call.whole.value, false) !in events && SeekSettles(r, false) !in events
  }

  /** Its range was refused, or what it joined or asked for failed. */
  ghost predicate Refused(c: Container, events: seq<Event>, r: nat, call: ReadCall) {
    || !InPart(c, Request(call.part, call.offset, call.length))
    || (call.plan.Some? && PlanSettles(call.plan.value, OpenError) in events)
    || SeekSettles(r, false) in events
    || (call.whole.Some? && WholeSettles(call.whole.value, false) in events)
  }

  /** No event of the schedule is about an attempt or a read that does not exist. */
  ghost predicate NothingAhead(events: seq<Event>, s: State) {
    forall e :: e in events ==> match e
      case PlanSettles(p, _) => p < |s.planTries|
      case WholeSettles(w, _) => w < |s.wholes|
      case SeekSettles(r, _) => r < |s.calls|
      case _ => true
  }

  ghost predicate CallsAre(s: State, requests: seq<Request>) {
    && |requests| == |s.calls|
    && forall r :: 0 <= r < |s.calls| ==>
         Request(s.calls[r].part, s.calls[r].offset, s.calls[r].length) == requests[r]
  }

  /** What the schedule so far says about the state it led to. */
  ghost predicate Logged(c: Container, events: seq<Event>, s: State) {
    && NothingAhead(events, s)
    && CallsAre(s, Requests(events))
    && (forall p :: 0 <= p < |s.planTries| ==> PlanLogged(events, p, s.planTries[p].state))
    && (forall w :: 0 <= w < |s.wholes| ==> WholeLogged(events, w, s.wholes[w].state))
    && (forall r :: 0 <= r < |s.calls| ==> ReadLogged(c, events, r, s.calls[r]))
  }

  lemma StepLogsPlans(c: Container, events: seq<Event>, s: State, e: Event)
    requires Logged(c, events, s) && Enabled(c, s, e)
    ensures var t := Apply(c, s, e);
            forall p :: 0 <= p < |t.planTries| ==> PlanLogged(events + [e], p, t.planTries[p].state)
  {
    var t, more := Apply(c, s, e), events + [e];
    assert forall d :: d in more <==> d in events || d == e;
    forall p | 0 <= p < |t.planTries|
      ensures PlanLogged(more, p, t.planTries[p].state)
    {
      if p < |s.planTries| {
        assert PlanLogged(events, p, s.planTries[p].state);
      }
    }
  }

  lemma StepLogsWholes(c: Container, events: seq<Event>, s: State, e: Event)
    requires Logged(c, events, s) && Enabled(c, s, e)
    ensures var t := Apply(c, s, e);
            forall w :: 0 <= w < |t.wholes| ==> WholeLogged(events + [e], w, t.wholes[w].state)
  {
    var t, more := Apply(c, s, e), events + [e];
    assert forall d :: d in more <==> d in events || d == e;
    forall w | 0 <= w < |t.wholes|
      ensures WholeLogged(more, w, t.wholes[w].state)
    {
      if w < |s.wholes| {
        assert WholeLogged(events, w, s.wholes[w].state);
      }
    }
  }

  lemma StepLogsRequests(c: Container, events: seq<Event>, s: State, e: Event)
    requires NothingAhead(events, s) && CallsAre(s, Requests(events)) && Enabled(c, s, e)
    ensures NothingAhead(events + [e], Apply(c, s, e)) && CallsAre(Apply(c, s, e), Requests(events + [e]))
  {
    var more := events + [e];
    assert more[..|more| - 1] == events;
    assert forall d :: d in more <==> d in events || d == e;
  }

  /** What is known of a read stays known when something else happens. */
  lemma OtherStepLogsRead(c: Container, events: seq<Event>, s: State, e: Event, r: nat)
    requires Logged(c, events, s) && Enabled(c, s, e) && r < |s.calls| && GoodRead(c, s, s.calls[r])
    requires e != Resume(r) && e != Finish(r) && !(e.SeekSettles? && e.read == r)
    ensures ReadLogged(c, events + [e], r, s.calls[r])
  {
    var more, call := events + [e], s.calls[r];
    assert ReadLogged(c, events, r, call);
    assert forall d :: d in more <==> d in events || d == e;
    if call.plan.Some? {
      assert PlanLogged(events, call.plan.value, s.planTries[call.plan.value].state);
    }
    if call.whole.Some? {
      assert WholeLogged(events, call.whole.value, s.wholes[call.whole.value].state);
    }
  }

  lemma OwnStepLogsRead(c: Container, events: seq<Event>, s: State, e: Event)
    requires Logged(c, events, s) && Enabled(c, s, e) && (e.Resume? || e.SeekSettles? || e.Finish?)
    requires GoodRead(c, s, s.calls[e.read])
    ensures ReadLogged(c, events + [e], e.read, Apply(c, s, e).calls[e.read])
  {
    var more, call := events + [e], s.calls[e.read];
    assert ReadLogged(c, events, e.read, call);
    assert forall d :: d in more <==> d in events || d == e;
    assert PlanLogged(events, call.plan.value, s.planTries[call.plan.value].state);
    if call.whole.Some? {
      assert WholeLogged(events, call.whole.value, s.wholes[call.whole.value].state);
    }
  }

  lemma StepLogsReads(c: Container, events: seq<Event>, s: State, e: Event)
    requires Inv(c, s) && Logged(c, events, s) && Enabled(c, s, e)
    ensures var t := Apply(c, s, e);
            forall r :: 0 <= r < |t.calls| ==> ReadLogged(c, events + [e], r, t.calls[r])
  {
    var t := Apply(c, s, e);
    forall r | 0 <= r < |t.calls|
      ensures ReadLogged(c, events + [e], r, t.calls[r])
    {
      if r < |s.calls| {
        assert GoodRead(c, s, s.calls[r]);
        if e == Resume(r) || e == Finish(r) || (e.SeekSettles? && e.read == r) {
          OwnStepLogsRead(c, events, s, e);
        } else {
          OtherStepLogsRead(c, events, s, e, r);
        }
      } else {
        NewReadLogged(c, events, s, e);
      }
    }
  }

  lemma NewReadLogged(c: Container, events: seq<Event>, s: State, e: Event)
    requires Logged(c, events, s) && Enabled(c, s, e) && e.Issue?
    ensures var t := Apply(c, s, e);
            |t.calls| == |s.calls| + 1 && ReadLogged(c, events + [e], |s.calls|, t.calls[|s.calls|])
  {
    assert forall d :: d in events + [e] <==> d in events || d == e;
  }

  lemma StepLogs(c: Container, events: seq<Event>, s: State, e: Event)
    requires Inv(c, s) && Logged(c, events, s) && Enabled(c, s, e)
    ensures Logged(c, events + [e], Apply(c, s, e))
  {
    StepLogsPlans(c, events, s, e);
    StepLogsWholes(c, events, s, e);
    StepLogsRequests(c, events, s, e);
    StepLogsReads(c, events, s, e);
  }

  /** The last event of a run runs after all others. */
  lemma {:induction false} LastStep(c: Container, s: State, events: seq<Event>)
    requires Legal(c, s, events) && events != []
    ensures var before, last := events[..|events| - 1], events[|events| - 1];
            && Legal(c, s, before) && Enabled(c, After(c, s, before), last)
            && After(c, s, events) == Apply(c, After(c, s, before), last)
    decreases |events|
  {
    var before := events[..|events| - 1];
    if before != [] {
      LastStep(c, Apply(c, s, events[0]), events[1..]);
      assert before[1..] == events[1..][..|events| - 2];
    }
  }

  lemma {:induction false} RunLogs(c: Container, events: seq<Event>)
    requires Legal(c, Init, events)
    ensures Inv(c, After(c, Init, events)) && Logged(c, events, After(c, Init, events))
  {
    if events != [] {
      var before, last := events[..|events| - 1], events[|events| - 1];
      LastStep(c, Init, events);
      RunLogs(c, before);
      StepLogs(c, before, After(c, Init, before), last);
      StepKeepsInv(c, After(c, Init, before), last);
      assert before + [last] == events;
    }
  }

  /**
    How a settled read has ended: rejected exactly when its range is not within a part that has bytes, the
    plan it joined failed to open, its own ranged read failed, or the full read it joined failed; in every
    other case with the bytes of the range it asked for.
   */
  lemma SettledReadIsExact(c: Container, events: seq<Event>, r: nat)
    requires Legal(c, Init, events) && r < |After(c, Init, events).calls| && !Unsettled(After(c, Init, events).calls[r])
    ensures var call := After(c, Init, events).calls[r];
            && r < |Requests(events)| && var q := Requests(events)[r];
            && (call.progress.Rejected? <==>
                  || !InPart(c, q)
                  || (call.plan.Some? && PlanSettles(call.plan.value, OpenError) in events)
                  || SeekSettles(r, false) in events
                  || (call.whole.Some? && WholeSettles(call.whole.value, false) in events))
            && (!call.progress.Rejected? ==>
                  && InPart(c, q) && call.progress == Resolved(c.content[q.part][q.offset..q.offset + q.length])
                  && Served(events, r, call))
  {
    RunLogs(c, events);
    var s := After(c, Init, events);
    assert GoodRead(c, s, s.calls[r]) && ReadLogged(c, events, r, s.calls[r]);
    var call := s.calls[r];
    if call.progress.Resolved? {
      assert PlanLogged(events, call.plan.value, s.planTries[call.plan.value].state);
    }
  }

  // ----- every read settles -------------------------------------------------------------------

  predicate Unsettled(call: ReadCall) {
    call.progress.AwaitPlan? || call.progress.AwaitSeek? || call.progress.AwaitWhole?
  }

  /** While a read waits, something other than a new read can happen. */
  lemma NextStep(c: Container, s: State, r: nat) returns (e: Event)
    requires Inv(c, s) && r < |s.calls| && Unsettled(s.calls[r])
    ensures Enabled(c, s, e) && !e.Issue?
  {
    var call := s.calls[r];
    assert GoodRead(c, s, call);
    if call.progress.AwaitWhole? {
      var w := call.whole.value;
      e := match s.wholes[w].state
        case Fetching => WholeSettles(w, false)
        case FetchFailed => WholeHandler(w)
        case _ => Finish(r);
    } else if call.progress.AwaitSeek? {
      e := SeekSettles(r, true);
    } else {
      var p := call.plan.value;
      e := match s.planTries[p].state
        case Opening => PlanSettles(p, OpenedScan)
        case OpenFailed => PlanHandler(p)
        case _ => Resume(r);
    }
  }

  function PlanWeight(t: PlanTry): nat {
    if t.state.Opening? then 2 else if t.state.OpenFailed? then 1 else 0
  }

  function WholeWeight(t: WholeTry): nat {
    if t.state.Fetching? then 2 else if t.state.FetchFailed? then 1 else 0
  }

  function ReadWeight(call: ReadCall): nat {
    if call.progress.AwaitPlan? then 4 else if Unsettled(call) then 1 else 0
  }

  function SumOf(weights: seq<nat>): nat {
    if weights == [] then 0 else SumOf(weights[..|weights| - 1]) + weights[|weights| - 1]
  }

  lemma {:induction false} SumUpdate(weights: seq<nat>, i: nat, x: nat)
    requires i < |weights|
    ensures SumOf(weights[i := x]) == SumOf(weights) - weights[i] + x
  {
    var n := |weights| - 1;
    if i < n {
      assert weights[i := x][..n] == weights[..n][i := x];
      SumUpdate(weights[..n], i, x);
    } else {
      assert weights[i := x][..n] == weights[..n];
    }
  }

  function PlanWeights(s: State): seq<nat> {
    seq(|s.planTries|, p requires 0 <= p < |s.planTries| => PlanWeight(s.planTries[p]))
  }

  function WholeWeights(s: State): seq<nat> {
    seq(|s.wholes|, w requires 0 <= w < |s.wholes| => WholeWeight(s.wholes[w]))
  }

  function ReadWeights(s: State): seq<nat> {
    seq(|s.calls|, r requires 0 <= r < |s.calls| => ReadWeight(s.calls[r]))
  }

  function Measure(s: State): nat {
    SumOf(PlanWeights(s)) + SumOf(WholeWeights(s)) + SumOf(ReadWeights(s))
  }

  lemma PlanStepShrinks(s: State, p: nat, x: PlanTry, plans: map<nat, nat>)
    requires p < |s.planTries| && PlanWeight(x) < PlanWeight(s.planTries[p])
    ensures Measure(s.(planTries := s.planTries[p := x], plans := plans)) < Measure(s)
  {
    var t := s.(planTries := s.planTries[p := x], plans := plans);
    assert PlanWeights(t) == PlanWeights(s)[p := PlanWeight(x)];
    assert WholeWeights(t) == WholeWeights(s) && ReadWeights(t) == ReadWeights(s);
    SumUpdate(PlanWeights(s), p, PlanWeight(x));
  }

  lemma WholeStepShrinks(s: State, w: nat, x: WholeTry, held: Option<Held>)
    requires w < |s.wholes| && WholeWeight(x) < WholeWeight(s.wholes[w])
    ensures Measure(s.(wholes := s.wholes[w := x], held := held)) < Measure(s)
  {
    var t := s.(wholes := s.wholes[w := x], held := held);
    assert WholeWeights(t) == WholeWeights(s)[w := WholeWeight(x)];
    assert PlanWeights(t) == PlanWeights(s) && ReadWeights(t) == ReadWeights(s);
    SumUpdate(WholeWeights(s), w, WholeWeight(x));
  }

  lemma ReadStepShrinks(s: State, r: nat, x: ReadCall)
    requires r < |s.calls|
    ensures Measure(SetRead(s, r, x)) == Measure(s) - ReadWeight(s.calls[r]) + ReadWeight(x)
  {
    var t := SetRead(s, r, x);
    assert ReadWeights(t) == ReadWeights(s)[r := ReadWeight(x)];
    assert PlanWeights(t) == PlanWeights(s) && WholeWeights(t) == WholeWeights(s);
    SumUpdate(ReadWeights(s), r, ReadWeight(x));
  }

  lemma JoinWholeAdds(s: State, part: nat)
    ensures Measure(JoinWhole(s, part).0) <= Measure(s) + 2
    ensures JoinWhole(s, part).0.calls == s.calls
  {
    var t := JoinWhole(s, part).0;
    if t != s {
      assert WholeWeights(t)[..|s.wholes|] == WholeWeights(s);
      assert PlanWeights(t) == PlanWeights(s) && ReadWeights(t) == ReadWeights(s);
    }
  }

  lemma AttemptStepShrinks(c: Container, s: State, e: Event)
    requires Enabled(c, s, e) && (e.PlanSettles? || e.PlanHandler? || e.WholeSettles? || e.WholeHandler?)
    ensures Measure(Apply(c, s, e)) < Measure(s)
  {
    var t := Apply(c, s, e);
    match e
    case PlanSettles(p, _) => PlanStepShrinks(s, p, t.planTries[p], t.plans);
    case PlanHandler(p) => PlanStepShrinks(s, p, t.planTries[p], t.plans);
    case WholeSettles(w, _) => WholeStepShrinks(s, w, t.wholes[w], t.held);
    case WholeHandler(w) => WholeStepShrinks(s, w, t.wholes[w], t.held);
  }

  lemma ResumeShrinks(c: Container, s: State, r: nat)
    requires Enabled(c, s, Resume(r))
    ensures Measure(Apply(c, s, Resume(r))) < Measure(s)
  {
    var t := Apply(c, s, Resume(r));
    if t.calls[r].progress.AwaitWhole? {
      JoinWholeAdds(s, s.calls[r].part);
      ReadStepShrinks(JoinWhole(s, s.calls[r].part).0, r, t.calls[r]);
    } else {
      ReadStepShrinks(s, r, t.calls[r]);
    }
  }

  lemma StepShrinksMeasure(c: Container, s: State, e: Event)
    requires Enabled(c, s, e) && !e.Issue?
    ensures Measure(Apply(c, s, e)) < Measure(s)
  {
    if e.SeekSettles? || e.Finish? {
      ReadStepShrinks(s, e.read, Apply(c, s, e).calls[e.read]);
    } else if e.Resume? {
      ResumeShrinks(c, s, e.read);
    } else {
      AttemptStepShrinks(c, s, e);
    }
  }

  lemma {:induction false} RunShrinksMeasure(c: Container, s: State, events: seq<Event>)
    requires Inv(c, s) && Legal(c, s, events)
    requires forall k :: 0 <= k < |events| ==> !events[k].Issue?
    ensures |events| + Measure(After(c, s, events)) <= Measure(s)
    decreases |events|
  {
    if events != [] {
      StepKeepsInv(c, s, events[0]);
      StepShrinksMeasure(c, s, events[0]);
      assert forall k :: 0 <= k < |events[1..]| ==> events[1..][k] == events[k + 1];
      RunShrinksMeasure(c, Apply(c, s, events[0]), events[1..]);
    }
  }

  /** From any reachable state, without new reads, every schedule is finite and ends with every read settled. */
  lemma EveryReadSettles(c: Container, before: seq<Event>, events: seq<Event>)
    requires Legal(c, Init, before) && Legal(c, After(c, Init, before), events)
    requires forall k :: 0 <= k < |events| ==> !events[k].Issue?
    ensures |events| <= Measure(After(c, Init, before))
    ensures var t := After(c, After(c, Init, before), events);
            (forall e: Event :: Enabled(c, t, e) ==> e.Issue?) ==>
              forall r :: 0 <= r < |t.calls| ==> !Unsettled(t.calls[r])
  {
    RunKeepsInv(c, Init, before);
    var s := After(c, Init, before);
    RunShrinksMeasure(c, s, events);
    RunKeepsInv(c, s, events);
    var t := After(c, s, events);
    if exists r :: 0 <= r < |t.calls| && Unsettled(t.calls[r]) {
      var r: nat :| r < |t.calls| && Unsettled(t.calls[r]);
      var e := NextStep(c, t, r);
    }
  }

  // ----- the variables of one open container --------------------------------------------------

  /** The closure of `openContainerSource`: `plans` and `held` are its variables, the rest its promises. */
  class BlockSource {
    const container: Container
    var plans: map<nat, nat>
    var planTries: seq<PlanTry>
    var held: Option<Held>
    var wholes: seq<WholeTry>
    var calls: seq<ReadCall>

    function View(): State
      reads this
    {
      State(plans, planTries, held, wholes, calls)
    }

    constructor (container: Container)
      ensures this.container == container && View() == Init
    {
      this.container := container;
      plans, planTries, held, wholes, calls := map[], [], None, [], [];
    }

    method PlanFor(index: nat) returns (plan: nat)
      modifies this
      ensures (View(), plan) == JoinPlan(old(View()), index)
    {
      if index in plans {
        return plans[index];
      }
      plan := |planTries|;
      planTries := planTries + [PlanTry(index, Opening)];
      plans := plans[index := plan];
    }

    method ReadWhole(index: nat) returns (attempt: nat)
      modifies this
      ensures (View(), attempt) == JoinWhole(old(View()), index)
    {
      if held.Some? && held.value.part == index {
        return held.value.attempt;
      }
      attempt := |wholes|;
      wholes := wholes + [WholeTry(index, Fetching)];
      held := Some(Held(index, attempt));
    }

    /** A call of `read` up to its first suspension: the checks, then the plan. */
    method Read(part: int, offset: int, length: int)
      modifies this
      ensures View() == Apply(container, old(View()), Issue(part, offset, length))
    {
      var call := ReadCall(part, offset, length, Rejected, None, None, RejectedNow(View()));
      if part < 0 || part >= |container.content| || |container.content[part]| == 0 {
        calls := calls + [call];
        return;
      }
      if offset < 0 || length < 0 || offset + length > |container.content[part]| {
        calls := calls + [call];
        return;
      }
      var plan := PlanFor(part);
      calls := calls + [call.(progress := AwaitPlan, plan := Some(plan))];
    }

    method OnPlanSettles(p: nat, outcome: OpenOutcome)
      requires Enabled(container, View(), PlanSettles(p, outcome))
      modifies this
      ensures View() == Apply(container, old(View()), PlanSettles(p, outcome))
    {
      match outcome {
        case OpenedSeek => planTries := planTries[p := planTries[p].(state := SeekPlan)];
        case OpenedScan => planTries := planTries[p := planTries[p].(state := ScanPlan)];
        case OpenError => planTries := planTries[p := planTries[p].(state := OpenFailed)];
      }
    }

    /** The handler of a failed opening: forget it, then reject. */
    method OnPlanHandler(p: nat)
      requires Enabled(container, View(), PlanHandler(p))
      modifies this
      ensures View() == Apply(container, old(View()), PlanHandler(p))
    {
      plans := plans - {planTries[p].part};
      planTries := planTries[p := planTries[p].(state := PlanRejected)];
    }

    /** A read continues with its settled plan. */
    method OnResume(r: nat)
      requires Enabled(container, View(), Resume(r))
      modifies this
      ensures View() == Apply(container, old(View()), Resume(r))
    {
      var call := calls[r];
      var state := planTries[call.plan.value].state;
      if state.SeekPlan? {
        calls := calls[r := call.(progress := AwaitSeek)];
      } else if state.ScanPlan? {
        var attempt := ReadWhole(call.part);
        calls := calls[r := call.(progress := AwaitWhole, whole := Some(attempt))];
      } else {
        calls := calls[r := call.(progress := Rejected)];
      }
    }

    method OnSeekSettles(r: nat, ok: bool)
      requires Enabled(container, View(), SeekSettles(r, ok))
      modifies this
      ensures View() == Apply(container, old(View()), SeekSettles(r, ok))
    {
      var call := calls[r];
      var file := container.content[planTries[call.plan.value].part];
      calls := calls[r := call.(progress := if ok then Resolved(file[call.offset..call.offset + call.length]) else Rejected)];
    }

    method OnWholeSettles(w: nat, ok: bool)
      requires Enabled(container, View(), WholeSettles(w, ok))
      modifies this
      ensures View() == Apply(container, old(View()), WholeSettles(w, ok))
    {
      wholes := wholes[w := wholes[w].(state := if ok then Whole(container.content[wholes[w].part]) else FetchFailed)];
    }

    /** The handler of a failed full read: empty the slot if it is still its own, then reject. */
    method OnWholeHandler(w: nat)
      requires Enabled(container, View(), WholeHandler(w))
      modifies this
      ensures View() == Apply(container, old(View()), WholeHandler(w))
    {
      if held.Some? && held.value.attempt == w {
        held := None;
      }
      wholes := wholes[w := wholes[w].(state := WholeRejected)];
    }

    method OnFinish(r: nat)
      requires Enabled(container, View(), Finish(r))
      modifies this
      ensures View() == Apply(container, old(View()), Finish(r))
    {
      var call := calls[r];
      var state := wholes[call.whole.value].state;
      if state.Whole? {
        calls := calls[r := call.(progress := Resolved(state.bytes[call.offset..call.offset + call.length]))];
      } else {
        calls := calls[r := call.(progress := Rejected)];
      }
    }
  }
}

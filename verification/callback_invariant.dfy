/** The invariant of the callback handler: what every step of the driver and of the actions keeps. */
module CallbackInvariant {
  import opened Collections
  import opened TransitionGuard
  import opened CallbackProtocol

  predicate Transitional(code: StateCode) {
    code.MotionEnabling? || code.MotionDisabling? || code.ClearingFaults?
  }

  // ----- The history of changes ----------------------------------------------------------------------

  /** The state that the change numbered `k` left. */
  function Origin(changes: seq<Change>, k: nat): StateCode
    requires k <= |changes|
  {
    if k == 0 then Deactivated else changes[k - 1].to
  }

  /** A change is to what was wanted, except that a failing Disabled() makes a fault of anything short of one. */
  predicate Landed(c: Change, wanted: StateCode) {
    if c.hook == Some(false) && !wanted.FatallyFaulted? && !wanted.InitFailed? then c.to.Faulted? else c.to == wanted
  }

  /** The change numbered `k` is allowed, leaves the state before it, and has the cause it names. */
  predicate Lawful(changes: seq<Change>, inserted: seq<Request>, k: nat)
    requires k < |changes|
  {
    var c := changes[k];
    && Guard(c.from, c.to) == Allowed && c.from == Origin(changes, k) && c.hook.Some? == c.from.MotionEnabled?
    && (k > 0 ==> changes[k - 1].time <= c.time)
    && match c.source
       case ByDriver => !Transitional(c.to) && !c.to.MotionEnabled?
       case ByRequest(id) =>
         && id < |inserted| && c.from == inserted[id].from && Landed(c, inserted[id].to)
         && inserted[id].timestamp <= c.time && (k > 0 ==> changes[k - 1].time <= inserted[id].timestamp)
  }

  ghost predicate History(changes: seq<Change>, inserted: seq<Request>) {
    forall k :: 0 <= k < |changes| ==> Lawful(changes, inserted, k)
  }

  /** Requests are applied in the order of their numbers, and none that is not below `applied`. */
  ghost predicate InOrder(changes: seq<Change>, applied: nat) {
    && (forall k :: 0 <= k < |changes| && changes[k].source.ByRequest? ==> changes[k].source.id < applied)
    && (forall j, k :: 0 <= j < k < |changes| && changes[j].source.ByRequest? && changes[k].source.ByRequest? ==>
          changes[j].source.id < changes[k].source.id)
  }

  /** Shared memory and the published buffer show the current state, or up to its turn the one before. */
  predicate Shown(m: Machine) {
    match m.stage
    case Settled => m.shared == m.published && m.shared.code == m.code
    case Publishing(shown) =>
      shown.code == m.code && m.changes != [] && m.shared == shown
      && m.published.code == m.changes[|m.changes| - 1].from
    case _ =>
      m.stage.shown.code == m.code && m.changes != [] && m.shared == m.published
      && m.shared.code == m.changes[|m.changes| - 1].from
  }

  function LastTime(changes: seq<Change>): nat {
    if changes == [] then 0 else changes[|changes| - 1].time
  }

  ghost predicate MachineInv(m: Machine, inserted: seq<Request>) {
    && History(m.changes, inserted) && m.code == Origin(m.changes, |m.changes|) && Shown(m)
    && LastTime(m.changes) <= m.now && m.updateTime <= m.now
    && (!m.stage.Timing? ==> LastTime(m.changes) <= m.updateTime)
  }

  /** The wish is one that Lawful has room for. */
  predicate Sound(m: Machine, inserted: seq<Request>, wish: Wish) {
    match wish.source
    case ByDriver => !Transitional(wish.to) && !wish.to.MotionEnabled?
    case ByRequest(id) =>
      id < |inserted| && inserted[id].to == wish.to && Timely(m, inserted[id]) && inserted[id].timestamp <= m.now
  }

  lemma AllowedLandings(from: StateCode, to: StateCode, failed: bool)
    requires Guard(from, to) == Allowed
    ensures Guard(from, Landing(from, to, failed)) == Allowed
  {
  }

  lemma SetStateKeepsInv(m: Machine, inserted: seq<Request>, wish: Wish, disabled: Option<string>)
    requires MachineInv(m, inserted) && Sound(m, inserted, wish) && m.stage.Settled?
    ensures MachineInv(SetState(m, wish, disabled), inserted)
  {
    if Guard(m.code, wish.to) == Allowed {
      var m' := SetState(m, wish, disabled);
      AllowedLandings(m.code, wish.to, disabled.Some?);
      hide Guard;
      assert forall k :: 0 <= k < |m.changes| ==> m'.changes[k] == m.changes[k];
      forall k | 0 <= k < |m'.changes| ensures Lawful(m'.changes, inserted, k) {
        if k < |m.changes| { assert Lawful(m.changes, inserted, k); }
      }
    }
  }

  lemma WantedIsSound(m: Machine, q: Requests, d: DriverPc, i: Input)
    requires QueueInv(q, d) && Stamped(q, m.now)
    ensures Wanted(m, d, i).Some? ==> Sound(Prelude(m, d, i), q.inserted, Wanted(m, d, i).value)
  {
    if d.DApply? { assert q.inserted[d.id] == d.request; }
  }

  lemma DriverKeepsMachine(m: Machine, q: Requests, d: DriverPc, i: Input)
    requires MachineInv(m, q.inserted) && QueueInv(q, d) && Stamped(q, m.now) && m.stage.Settled?
    ensures MachineInv(MachineAfter(m, d, i), q.inserted)
  {
    hide Wanted, SetState, QueueInv, Stamped, History;
    WantedIsSound(m, q, d, i);
    var wanted := Wanted(m, d, i);
    if wanted.Some? { SetStateKeepsInv(Prelude(m, d, i), q.inserted, wanted.value, i.disabled); }
  }

  // ----- Requests and their answers --------------------------------------------------------------------

  /** How many of the removed requests have been answered. */
  function Answered(q: Requests, d: DriverPc): int {
    if d.DApply? || d.DAnswer? then |q.removed| - 1 else if d.DDrop? then |q.removed| + 1 else |q.removed|
  }

  /** How many requests have been decided on. */
  function Applied(q: Requests, d: DriverPc): int {
    if d.DApply? then |q.removed| - 1 else |q.removed|
  }

  /** Requests are removed in the order of insertion and answered one by one as they are removed. */
  ghost predicate QueueInv(q: Requests, d: DriverPc) {
    && q.inserted == q.removed + q.queue && |q.queue| <= MAX_PENDING_REQUESTS
    && (d.DApply? || d.DAnswer? ==> d.id + 1 == |q.removed|) && (d.DApply? ==> d.request == q.removed[d.id])
    && (d.DDrop? ==> q.queue != [])
    && |q.answers| == Answered(q, d) && (forall k :: 0 <= k < |q.answers| ==> q.answers[k].id == k)
  }

  /** No request comes from the future. */
  ghost predicate Stamped(q: Requests, now: nat) {
    forall k :: 0 <= k < |q.inserted| ==> q.inserted[k].timestamp <= now
  }

  lemma RemovalKeeps(q: Requests, d: DriverPc, d': DriverPc)
    requires QueueInv(q, d) && q.queue != []
    requires (d.DPop? && d' == DApply(|q.removed|, q.queue[0])) || (d.DDrop? && d'.DCancel?)
    ensures QueueInv(q.(queue := q.queue[1..], removed := q.removed + [q.queue[0]]), d')
  {
    assert q.queue == [q.queue[0]] + q.queue[1..];
  }

  lemma AnswerKeeps(q: Requests, d: DriverPc, d': DriverPc, a: Answer)
    requires QueueInv(q, d)
    requires || (d.DAnswer? && a.id == d.id && d'.DHook?)
             || (d.DCancel? && q.queue != [] && a.id == |q.removed| && d'.DDrop?)
    ensures QueueInv(q.(answers := q.answers + [a]), d')
  {
  }

  lemma DriverKeepsQueue(m: Machine, q: Requests, d: DriverPc, i: Input)
    requires QueueInv(q, d)
    ensures QueueInv(RequestsAfter(m, q, d, i), DriverNext(m, q, d, i))
    ensures RequestsAfter(m, q, d, i).inserted == q.inserted && q.answers <= RequestsAfter(m, q, d, i).answers
  {
    hide Changes, Timely;
    var d' := DriverNext(m, q, d, i);
    match d {
      case DPop => if q.queue != [] { RemovalKeeps(q, d, d'); }
      case DDrop(_) => RemovalKeeps(q, d, d');
      case DAnswer(id, status) => AnswerKeeps(q, d, d', Answer(id, status, |m.changes|));
      case DCancel(_) => if q.queue != [] { AnswerKeeps(q, d, d', Answer(|q.removed|, Cancelled, |m.changes|)); }
      case DApply(_, _) =>
      case _ => assert !d'.DApply? && !d'.DAnswer? && !d'.DDrop?;
    }
  }

  /** The request `id` has been answered, and if with Ok, then for a change that it has made. */
  predicate OkForChange(changes: seq<Change>, answers: seq<Answer>, id: nat)
    requires id < |answers|
  {
    var a := answers[id];
    a.status.Ok? ==> 1 <= a.at <= |changes| && changes[a.at - 1].source == ByRequest(id)
  }

  /** The change numbered `k`, if made by a request, has been or is about to be answered with Ok. */
  predicate ChangeForOk(changes: seq<Change>, answers: seq<Answer>, d: DriverPc, k: nat)
    requires k < |changes|
  {
    match changes[k].source
    case ByDriver => true
    case ByRequest(id) => if id < |answers| then answers[id].status.Ok? else d == DAnswer(id, Ok)
  }

  /** A request is answered Ok exactly when it has changed the state. */
  ghost predicate AnswersInv(changes: seq<Change>, answers: seq<Answer>, d: DriverPc) {
    && (forall id :: 0 <= id < |answers| ==> OkForChange(changes, answers, id))
    && (d.DAnswer? && d.status.Ok? ==> changes != [] && changes[|changes| - 1].source == ByRequest(d.id))
    && (forall k :: 0 <= k < |changes| ==> ChangeForOk(changes, answers, d, k))
  }

  /** A driver step adds at most one change, and Changes says whether. */
  lemma ChangeMade(m: Machine, d: DriverPc, i: Input)
    ensures var changes := MachineAfter(m, d, i).changes;
            if Changes(m, d, i) then
              |changes| == |m.changes| + 1 && changes[..|m.changes|] == m.changes
              && changes[|m.changes|].source == if d.DApply? then ByRequest(d.id) else ByDriver
            else changes == m.changes
  {
    hide Guard, Landing, Truncated;
    assert Prelude(m, d, i).changes == m.changes && Prelude(m, d, i).code == m.code;
  }

  lemma DriverChangeKeeps(changes: seq<Change>, changes': seq<Change>, answers: seq<Answer>, d: DriverPc,
                          d': DriverPc, applied: nat, applied': nat)
    requires AnswersInv(changes, answers, d) && InOrder(changes, applied) && applied <= applied'
    requires || changes' == changes
             || (&& |changes'| == |changes| + 1 && changes'[..|changes|] == changes
                 && changes'[|changes|].source.ByDriver?)
    requires !d.DAnswer? && (d'.DAnswer? ==> !d'.status.Ok?)
    ensures AnswersInv(changes', answers, d') && InOrder(changes', applied')
  {
    assert forall k :: 0 <= k < |changes| ==> changes'[k] == changes'[..|changes|][k];
    forall id | 0 <= id < |answers| ensures OkForChange(changes', answers, id) {
      assert OkForChange(changes, answers, id);
    }
    forall k | 0 <= k < |changes'| ensures ChangeForOk(changes', answers, d', k) {
      if k < |changes| { assert ChangeForOk(changes, answers, d, k); }
    }
  }

  lemma ApplyingKeeps(changes: seq<Change>, changes': seq<Change>, answers: seq<Answer>, d: DriverPc)
    requires d.DApply? && |answers| == d.id && AnswersInv(changes, answers, d) && InOrder(changes, d.id)
    requires |changes'| == |changes| + 1 && changes'[..|changes|] == changes
             && changes'[|changes|].source == ByRequest(d.id)
    ensures AnswersInv(changes', answers, DAnswer(d.id, Ok)) && InOrder(changes', d.id + 1)
  {
    assert forall k :: 0 <= k < |changes| ==> changes'[k] == changes'[..|changes|][k];
    forall id | 0 <= id < |answers| ensures OkForChange(changes', answers, id) {
      assert OkForChange(changes, answers, id);
    }
    forall k | 0 <= k < |changes'| ensures ChangeForOk(changes', answers, DAnswer(d.id, Ok), k) {
      if k < |changes| { assert ChangeForOk(changes, answers, d, k); }
    }
  }

  lemma AnsweringKeeps(changes: seq<Change>, answers: seq<Answer>, d: DriverPc)
    requires d.DAnswer? && |answers| == d.id && AnswersInv(changes, answers, d)
    ensures AnswersInv(changes, answers + [Answer(d.id, d.status, |changes|)], DHook)
  {
    var answers' := answers + [Answer(d.id, d.status, |changes|)];
    forall id | 0 <= id < |answers'| ensures OkForChange(changes, answers', id) {
      if id < |answers| { assert OkForChange(changes, answers, id); }
    }
    forall k | 0 <= k < |changes| ensures ChangeForOk(changes, answers', DHook, k) {
      assert ChangeForOk(changes, answers, d, k);
    }
  }

  lemma CancellingKeeps(changes: seq<Change>, answers: seq<Answer>, d: DriverPc, d': DriverPc, at: nat)
    requires !d.DAnswer? && !d'.DAnswer? && AnswersInv(changes, answers, d) && InOrder(changes, |answers|)
    ensures AnswersInv(changes, answers + [Answer(|answers|, Cancelled, at)], d')
  {
    var answers' := answers + [Answer(|answers|, Cancelled, at)];
    forall id | 0 <= id < |answers'| ensures OkForChange(changes, answers', id) {
      if id < |answers| { assert OkForChange(changes, answers, id); }
    }
    forall k | 0 <= k < |changes| ensures ChangeForOk(changes, answers', d', k) {
      assert ChangeForOk(changes, answers, d, k);
    }
  }

  lemma DriverKeepsAnswers(m: Machine, q: Requests, d: DriverPc, i: Input)
    requires QueueInv(q, d) && AnswersInv(m.changes, q.answers, d) && InOrder(m.changes, Applied(q, d))
    ensures var q', d' := RequestsAfter(m, q, d, i), DriverNext(m, q, d, i);
            AnswersInv(MachineAfter(m, d, i).changes, q'.answers, d')
            && Applied(q', d') >= 0 && InOrder(MachineAfter(m, d, i).changes, Applied(q', d'))
  {
    hide AnswersInv, InOrder, MachineAfter, Changes, Timely;
    var changes' := MachineAfter(m, d, i).changes;
    var q', d' := RequestsAfter(m, q, d, i), DriverNext(m, q, d, i);
    ChangeMade(m, d, i);
    match d {
      case DApply(id, r) =>
        if Changes(m, d, i) { ApplyingKeeps(m.changes, changes', q.answers, d); }
        else { DriverChangeKeeps(m.changes, changes', q.answers, d, d', id, id + 1); }
      case DAnswer(id, status) =>
        assert !Changes(m, d, i) by { NoChange(m, d, i); }
        AnsweringKeeps(m.changes, q.answers, d);
      case DCancel(next) =>
        assert !Changes(m, d, i) by { NoChange(m, d, i); }
        if q.queue == [] { DriverChangeKeeps(m.changes, changes', q.answers, d, d', |q.removed|, |q.removed|); }
        else { CancellingKeeps(m.changes, q.answers, d, d', |m.changes|); }
      case _ => DriverChangeKeeps(m.changes, changes', q.answers, d, d', |q.removed|, Applied(q', d'));
    }
  }

  lemma NoChange(m: Machine, d: DriverPc, i: Input)
    requires d.DAnswer? || d.DCancel? || d.DDrop? || d.DPop?
    ensures !Changes(m, d, i)
  {
  }

  // ----- The hooks ------------------------------------------------------------------------------------

  /** The hooks among `calls`: true for Enabled, false for Disabled. */
  function Hooks(calls: seq<Call>): seq<bool> {
    if calls == [] then []
    else
      var last := calls[|calls| - 1];
      Hooks(calls[..|calls| - 1]) + if last.Apply? then [] else [last.Enabled?]
  }

  /** The hooks that a history of changes calls for: one at each entry to MotionEnabled and one at each exit. */
  function Trace(changes: seq<Change>): seq<bool> {
    if changes == [] then []
    else
      var last := changes[|changes| - 1];
      Trace(changes[..|changes| - 1])
      + (if last.from.MotionEnabled? then [false] else []) + (if last.to.MotionEnabled? then [true] else [])
  }

  /** The last Enabled() or Disabled() among `calls`. */
  function LastHook(calls: seq<Call>): Option<Call> {
    if calls == [] then None
    else if calls[|calls| - 1].Apply? then LastHook(calls[..|calls| - 1])
    else Some(calls[|calls| - 1])
  }

  /** ApplyCommand has only been called while the last hook was a successful Enabled(). */
  ghost predicate Proper(calls: seq<Call>) {
    forall k :: 0 <= k < |calls| && calls[k].Apply? ==> LastHook(calls[..k]) == Some(Enabled(true))
  }

  /** The state has changed to MotionEnabled in this cycle and Enabled() is still to be called. */
  predicate Pending(m: Machine, d: DriverPc) {
    (d.DAnswer? || d.DHook?) && HookDue(m)
  }

  ghost predicate HookInv(m: Machine, d: DriverPc) {
    && (d.DPop? || d.DApply? ==> m.previous == m.code)
    && Proper(m.calls) && Hooks(m.calls) + (if Pending(m, d) then [true] else []) == Trace(m.changes)
    && (m.code.MotionEnabled? && !Pending(m, d) ==> LastHook(m.calls) == Some(Enabled(true)))
  }

  lemma CallAdded(calls: seq<Call>, c: Call)
    requires Proper(calls) && (c.Apply? ==> LastHook(calls) == Some(Enabled(true)))
    ensures var calls' := calls + [c];
            && Proper(calls') && Hooks(calls') == Hooks(calls) + (if c.Apply? then [] else [c.Enabled?])
            && LastHook(calls') == (if c.Apply? then LastHook(calls) else Some(c))
  {
    var calls' := calls + [c];
    assert calls'[..|calls|] == calls;
    forall k | 0 <= k < |calls'| && calls'[k].Apply? ensures LastHook(calls'[..k]) == Some(Enabled(true)) {
      assert k < |calls| ==> calls'[..k] == calls[..k];
    }
  }

  lemma ChangeAdded(changes: seq<Change>, c: Change)
    ensures Trace(changes + [c])
         == Trace(changes) + (if c.from.MotionEnabled? then [false] else [])
            + (if c.to.MotionEnabled? then [true] else [])
  {
    assert (changes + [c])[..|changes|] == changes;
  }

  /** A change of state out of a machine whose hooks are up to date. */
  lemma SetStateHooks(m: Machine, wish: Wish, disabled: Option<string>)
    requires Guard(m.code, wish.to) == Allowed && Proper(m.calls) && Hooks(m.calls) == Trace(m.changes)
    ensures var m' := SetState(m, wish, disabled);
            && Proper(m'.calls)
            && Hooks(m'.calls) + (if m'.code.MotionEnabled? then [true] else []) == Trace(m'.changes)
            && (m'.code.MotionEnabled? ==> m.code.MotionEnabling? && wish.to.MotionEnabled?)
  {
    var m' := SetState(m, wish, disabled);
    EnabledFrom(m.code, wish.to, disabled.Some?);
    hide Guard, Landing, Truncated, Hooks, Trace, Proper, LastHook;
    if m.code.MotionEnabled? { CallAdded(m.calls, Disabled(disabled.None?)); }
    ChangeAdded(m.changes, m'.changes[|m.changes|]);
    assert Hooks(m.calls) + [] == Hooks(m.calls);
  }

  lemma EnabledFrom(from: StateCode, to: StateCode, failed: bool)
    requires Guard(from, to) == Allowed
    ensures Landing(from, to, failed).MotionEnabled? ==> from.MotionEnabling? && to.MotionEnabled?
  {
  }

  /** The Enabled hook of OnReadStatus, and the fault when it fails. */
  lemma HookStep(m: Machine, i: Input)
    requires HookInv(m, DHook)
    ensures HookInv(MachineAfter(m, DHook, i), DRead)
  {
    hide Hooks, Trace, LastHook, Truncated, Proper;
    if HookDue(m) {
      CallAdded(m.calls, Enabled(i.outcome.Succeeded?));
      if !i.outcome.Succeeded? { SetStateHooks(Prelude(m, DHook, i), Wanted(m, DHook, i).value, i.disabled); }
    } else {
      assert Hooks(m.calls) + [] == Hooks(m.calls);
    }
  }

  /** Any other driver step. */
  lemma OtherHookStep(m: Machine, q: Requests, d: DriverPc, i: Input)
    requires HookInv(m, d) && !d.DHook?
    ensures HookInv(MachineAfter(m, d, i), DriverNext(m, q, d, i))
  {
    hide Hooks, Trace, LastHook, Truncated, Proper, SetState;
    var m0, d', wanted := Prelude(m, d, i), DriverNext(m, q, d, i), Wanted(m, d, i);
    assert Hooks(m.calls) + [] == Hooks(m.calls);
    if d.DAnswer? {
      NoChange(m, d, i);
    } else {
      if d.DIdle? && i.callback.OnApplyCommand? && m.code.MotionEnabled? {
        CallAdded(m.calls, Apply);
        assert Hooks(m0.calls) + [] == Hooks(m0.calls);
      }
      if Changes(m, d, i) {
        SetStateHooks(m0, wanted.value, i.disabled);
        SetStatePrevious(m0, wanted.value, i.disabled);
      } else if wanted.Some? {
        assert SetState(m0, wanted.value, i.disabled) == m0 by { Refused(m0, wanted.value, i.disabled); }
      }
    }
  }

  lemma SetStatePrevious(m: Machine, wish: Wish, disabled: Option<string>)
    ensures SetState(m, wish, disabled).previous == m.previous
  {
  }

  lemma Refused(m: Machine, wish: Wish, disabled: Option<string>)
    requires Guard(m.code, wish.to) != Allowed
    ensures SetState(m, wish, disabled) == m
  {
  }

  // ----- The actions ----------------------------------------------------------------------------------

  /** A closing request comes right after the request with which its action entered, once that succeeded. */
  ghost predicate Closes(q: Requests, k: nat)
    requires k < |q.inserted|
  {
    q.inserted[k].closes.Some? ==> Entered(q, k, q.inserted[k].closes.value, q.inserted[k].from)
  }

  /** The request before the one numbered `k` was granted its change to the transitional state `code`. */
  ghost predicate Entered(q: Requests, k: nat, entry: nat, code: StateCode) {
    && entry + 1 == k <= |q.inserted| && entry < |q.answers| && q.answers[entry].status.Ok?
    && q.inserted[entry].to == code && Transitional(code)
  }

  ghost predicate ActionInv(q: Requests, pc: ActionPc) {
    match pc
    case AWaiting(kind, id) => id + 1 == |q.inserted| && q.inserted[id].to == Entry(kind)
    case ARunning(kind, entry) => Entered(q, |q.inserted|, entry, Entry(kind))
    case AClosing(kind, entry, _, _) => Entered(q, |q.inserted|, entry, Entry(kind))
    case ALeaving(kind, entry, _, _, _) => Entered(q, |q.inserted|, entry, Entry(kind))
    case _ => true
  }

  /** The holder of action_lock_, and nobody else, is active. */
  ghost predicate ActionsInv(q: Requests, lock: Option<nat>, actions: seq<ActionPc>) {
    && (forall k :: 0 <= k < |q.inserted| ==> Closes(q, k))
    && (forall t :: 0 <= t < |actions| ==> ActionInv(q, actions[t]) && (lock != Some(t) <==> actions[t].AIdle?))
  }

  lemma MoreAnswers(q: Requests, q': Requests, lock: Option<nat>, actions: seq<ActionPc>)
    requires ActionsInv(q, lock, actions) && q'.inserted == q.inserted && q.answers <= q'.answers
    ensures ActionsInv(q', lock, actions)
  {
    forall k | 0 <= k < |q'.inserted| ensures Closes(q', k) { assert Closes(q, k); }
    forall t | 0 <= t < |actions| ensures ActionInv(q', actions[t]) { assert ActionInv(q, actions[t]); }
  }

  lemma ActionKeepsInv(s: State, t: nat, kind: Kind, outcome: Outcome, message: string)
    requires t < |s.actions| && ActionsInv(s.q, s.lock, s.actions)
    ensures var s' := Step(s, Act(t, kind, outcome, message)); ActionsInv(s'.q, s'.lock, s'.actions)
  {
    hide Guard, Truncated;
    var s', pc := Step(s, Act(t, kind, outcome, message)), s.actions[t];
    assert ActionInv(s.q, pc);
    forall k | 0 <= k < |s'.q.inserted| ensures Closes(s'.q, k) {
      if k < |s.q.inserted| { assert Closes(s.q, k); }
    }
    forall u | 0 <= u < |s'.actions|
      ensures ActionInv(s'.q, s'.actions[u]) && (s'.lock != Some(u) <==> s'.actions[u].AIdle?)
    {
      assert u != t ==> s'.actions[u] == s.actions[u];
    }
  }

  /** An action between its look at reject_new_requests_ and its insertion. */
  predicate InsideLock(pc: ActionPc) {
    pc.AStamped? || pc.ALeaving?
  }

  /** Shutdown holds the lock while it cancels. */
  predicate Unlocking(d: DriverPc) {
    (d.DCancel? || d.DDrop?) && d.next.ThenUnlock?
  }

  /** non_rt_buffer_lock_ keeps actions that insert and Shutdown apart. */
  ghost predicate BufferInv(q: Requests, d: DriverPc, actions: seq<ActionPc>, now: nat) {
    && (Unlocking(d) ==> q.locked && q.reject)
    && forall t :: 0 <= t < |actions| && InsideLock(actions[t]) ==>
         q.locked && !Unlocking(d) && actions[t].stamp <= now
  }

  lemma DriverKeepsBuffer(m: Machine, q: Requests, d: DriverPc, i: Input, actions: seq<ActionPc>, now: nat)
    requires BufferInv(q, d, actions, now)
    ensures BufferInv(RequestsAfter(m, q, d, i), DriverNext(m, q, d, i), actions, now)
  {
    hide Changes, Timely;
    match d {
      case DCancel(next) =>
      case DDrop(next) =>
      case DIdle =>
      case _ => assert !Unlocking(DriverNext(m, q, d, i));
    }
  }

  lemma ActionKeepsBuffer(s: State, t: nat, kind: Kind, outcome: Outcome, message: string)
    requires t < |s.actions| && ActionsInv(s.q, s.lock, s.actions) && BufferInv(s.q, s.driver, s.actions, s.m.now)
    ensures var s' := Step(s, Act(t, kind, outcome, message)); BufferInv(s'.q, s'.driver, s'.actions, s'.m.now)
  {
    hide Guard, Truncated;
    var s', pc := Step(s, Act(t, kind, outcome, message)), s.actions[t];
    forall u | 0 <= u < |s'.actions| && InsideLock(s'.actions[u])
      ensures s'.q.locked && !Unlocking(s'.driver) && s'.actions[u].stamp <= s'.m.now
    {
      assert u != t ==> s'.actions[u] == s.actions[u];
    }
  }

  // ----- Every run --------------------------------------------------------------------------------------

  ghost predicate Inv(s: State) {
    && MachineInv(s.m, s.q.inserted) && QueueInv(s.q, s.driver) && Stamped(s.q, s.m.now)
    && AnswersInv(s.m.changes, s.q.answers, s.driver)
    && Applied(s.q, s.driver) >= 0 && InOrder(s.m.changes, Applied(s.q, s.driver))
    && HookInv(s.m, s.driver) && ActionsInv(s.q, s.lock, s.actions) && BufferInv(s.q, s.driver, s.actions, s.m.now)
  }

  /** Showing the new state changes nothing else. */
  lemma AdvanceKeepsInv(s: State)
    requires Inv(s) && !s.m.stage.Settled?
    ensures Inv(s.(m := Advance(s.m)))
  {
    hide History, QueueInv, Stamped, AnswersInv, InOrder, ActionsInv, BufferInv, Proper, Hooks, Trace, LastHook;
  }

  lemma DriveKeepsInv(s: State, i: Input)
    requires Inv(s)
    ensures Inv(Step(s, Drive(i)))
  {
    if !s.m.stage.Settled? {
      AdvanceKeepsInv(s);
      return;
    }
    hide MachineInv, QueueInv, Stamped, AnswersInv, InOrder, HookInv, ActionsInv, BufferInv;
    hide MachineAfter, RequestsAfter, DriverNext;
    DriverKeepsBuffer(s.m, s.q, s.driver, i, s.actions, s.m.now);
    DriverKeepsMachine(s.m, s.q, s.driver, i);
    DriverKeepsQueue(s.m, s.q, s.driver, i);
    DriverKeepsAnswers(s.m, s.q, s.driver, i);
    TimeStays(s.m, s.q, s.driver, i);
    if s.driver.DHook? {
      HookStep(s.m, i);
      assert DriverNext(s.m, s.q, s.driver, i) == DRead by { AfterHook(s.m, s.q, i); }
    } else {
      OtherHookStep(s.m, s.q, s.driver, i);
    }
    MoreAnswers(s.q, RequestsAfter(s.m, s.q, s.driver, i), s.lock, s.actions);
  }

  lemma AfterHook(m: Machine, q: Requests, i: Input)
    ensures DriverNext(m, q, DHook, i) == DRead
  {
  }

  lemma TimeStays(m: Machine, q: Requests, d: DriverPc, i: Input)
    requires Stamped(q, m.now)
    ensures MachineAfter(m, d, i).now == m.now && RequestsAfter(m, q, d, i).inserted == q.inserted
    ensures Stamped(RequestsAfter(m, q, d, i), m.now)
  {
    assert MachineAfter(m, d, i).now == m.now;
  }

  lemma InsertKeeps(s: State, q': Requests)
    requires Inv(s) && |s.q.queue| < MAX_PENDING_REQUESTS && |q'.inserted| == |s.q.inserted| + 1
    requires q' == s.q.(locked := q'.locked, queue := q'.queue, inserted := q'.inserted)
    requires var r := q'.inserted[|s.q.inserted|];
             r.timestamp <= s.m.now && q'.queue == s.q.queue + [r] && q'.inserted == s.q.inserted + [r]
    ensures MachineInv(s.m, q'.inserted) && QueueInv(q', s.driver) && Stamped(q', s.m.now)
  {
    forall k | 0 <= k < |s.m.changes| ensures Lawful(s.m.changes, q'.inserted, k) {
      assert Lawful(s.m.changes, s.q.inserted, k);
    }
  }

  lemma LockKeeps(s: State, q': Requests)
    requires Inv(s) && q' == s.q.(locked := q'.locked)
    ensures MachineInv(s.m, q'.inserted) && QueueInv(q', s.driver) && Stamped(q', s.m.now)
  {
    hide MachineInv;
  }

  lemma ActKeepsInv(s: State, t: nat, kind: Kind, outcome: Outcome, message: string)
    requires Inv(s) && t < |s.actions|
    ensures Inv(Step(s, Act(t, kind, outcome, message)))
  {
    ActionKeepsInv(s, t, kind, outcome, message);
    ActionKeepsBuffer(s, t, kind, outcome, message);
    var pc, q' := s.actions[t], Inserting(s.q, s.actions[t]);
    assert InsideLock(pc) ==> pc.stamp <= s.m.now;
    hide MachineInv, QueueInv, Stamped, AnswersInv, InOrder, HookInv, ActionsInv, BufferInv, ActionNext, Truncated;
    if InsideLock(pc) && HasRoom(s.q) { InsertKeeps(s, q'); } else { LockKeeps(s, q'); }
  }

  lemma StepKeepsInv(s: State, e: Event)
    requires Inv(s)
    ensures Inv(Step(s, e))
  {
    match e {
      case Drive(i) => DriveKeepsInv(s, i);
      case Act(t, kind, outcome, message) => if t < |s.actions| { ActKeepsInv(s, t, kind, outcome, message); }
      case GiveUp(t) => GiveUpKeepsInv(s, t);
      case Tick(_) =>
        hide History, QueueInv, AnswersInv, InOrder, ActionsInv, Proper, Hooks, Trace, LastHook;
      case Observe =>
        hide History, QueueInv, AnswersInv, InOrder, ActionsInv, BufferInv, Proper, Hooks, Trace, LastHook;
    }
  }

  lemma GiveUpKeepsInv(s: State, t: nat)
    requires Inv(s)
    ensures Inv(Step(s, GiveUp(t)))
  {
    hide MachineInv, QueueInv, Stamped, AnswersInv, InOrder, HookInv;
  }

  lemma InitRequests(threads: nat)
    ensures var s := Init(threads);
            && MachineInv(s.m, s.q.inserted) && QueueInv(s.q, s.driver) && Stamped(s.q, s.m.now)
            && Applied(s.q, s.driver) == 0
  {
  }

  lemma InitHistory(threads: nat)
    ensures var s := Init(threads); AnswersInv(s.m.changes, s.q.answers, s.driver) && InOrder(s.m.changes, 0)
  {
  }

  lemma InitHooks(threads: nat)
    ensures var s := Init(threads);
            && HookInv(s.m, s.driver) && ActionsInv(s.q, s.lock, s.actions)
            && BufferInv(s.q, s.driver, s.actions, s.m.now)
  {
  }

  lemma InitHolds(threads: nat)
    ensures Inv(Init(threads))
  {
    hide MachineInv, QueueInv, Stamped, AnswersInv, InOrder, HookInv, ActionsInv, BufferInv, Init, Applied;
    InitRequests(threads);
    InitHistory(threads);
    InitHooks(threads);
  }

  lemma {:induction false} RunsKeepInv(threads: nat, es: seq<Event>)
    ensures Inv(Run(Init(threads), es))
  {
    hide Inv, Step, Init;
    if es == [] {
      InitHolds(threads);
    } else {
      RunsKeepInv(threads, es[..|es| - 1]);
      StepKeepsInv(Run(Init(threads), es[..|es| - 1]), es[|es| - 1]);
    }
  }
}

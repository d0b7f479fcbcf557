/** Alert rules: polling, firing, resolving, and the alert history. */
module AlertRules {
  import opened Common

  datatype State = Idle | Firing | Resolved

  datatype Kind =
    | Budget(thresholdTokens: int)
    | ErrorRate(thresholdPercent: real)
    | AbstentionRate(thresholdPercent: real)
    | CircuitBreaker(service: string)

  datatype Rule = Rule(id: int, kind: Kind, enabled: bool, state: State)

  datatype Entry = Entry(rule: int, firedAt: int, resolvedAt: Option<int>, notificationSent: bool)

  /** What one evaluation read: token usage, job counts, or nothing because reading them raised. */
  datatype Measurement = Tokens(used: int) | Jobs(hits: nat, total: nat) | Unreadable

  /** A notification under way: the rule's state is set, the history not yet written. */
  datatype Pending = Pending(rule: int, firing: bool)

  /** What happened to a rule: it fired, it recovered, or a cycle only took it from resolved back to idle. */
  datatype Event = Fired(rule: int) | Recovered(rule: int) | Rested(rule: int)

  /**
   * The engine's loop waits for `pending`, its notification, or for the job counts of the rule `sampled`, here as the
   * loop read it; `inflight` are the notifications of breaker events. `log` is every event so far, `used` every rule
   * identifier ever given out.
   */
  datatype System = System(
    rules: seq<Rule>, history: seq<Entry>, pending: Option<Pending>, sampled: Option<Rule>, inflight: seq<Pending>,
    log: seq<Event>, used: set<int>)

  predicate Waiting(s: System) {
    s.pending.Some? || s.sampled.Some?
  }

  // ---- Evaluation ----

  function Percent(hits: nat, total: nat): real {
    if total == 0 then 0.0 else hits as real / total as real * 100.0
  }

  /** Whether the threshold is crossed; None leaves the rule as it is. */
  function Crossed(kind: Kind, m: Measurement): Option<bool> {
    match (kind, m)
    case (Budget(threshold), Tokens(used)) => Some(used >= threshold)
    case (ErrorRate(threshold), Jobs(failed, total)) => Some(Percent(failed, total) > threshold)
    case (AbstentionRate(threshold), Jobs(flagged, total)) => Some(total > 0 && Percent(flagged, total) > threshold)
    case _ => None
  }

  predicate Polled(r: Rule) {
    !r.kind.CircuitBreaker?
  }

  /** Marks the rule's latest unresolved entry. */
  function ResolveLatest(history: seq<Entry>, id: int, now: int): seq<Entry> {
    if history == [] then []
    else if Last(history).rule == id && Last(history).resolvedAt.None?
    then Init(history) + [Last(history).(resolvedAt := Some(now))]
    else ResolveLatest(Init(history), id, now) + [Last(history)]
  }

  function Record(history: seq<Entry>, p: Pending, sent: bool, now: int): seq<Entry> {
    if p.firing then history + [Entry(p.rule, now, None, sent)] else ResolveLatest(history, p.rule, now)
  }

  // ---- Steps ----

  /**
   * Everything that can happen to the two stores, cut wherever a task waits. The engine's loop polls one rule at a
   * time; it waits for the job counts of an abstention rule and for notifications. Breaker events set a rule's state
   * and write the history once their own notification is through, so several may overlap. Requests to the API run in
   * between.
   */
  datatype Step =
    | Poll(i: nat, m: Measurement)
    | Measure(m: Measurement)
    | Deliver(sent: bool, now: int)
    | CircuitEvent(i: nat, tripped: bool)
    | CircuitDeliver(k: nat, sent: bool, now: int)
    | Create(id: int, kind: Kind, enabled: bool)
    | Update(i: nat, kind: Kind, enabled: bool)
    | Delete(i: nat)

  function SetState(rules: seq<Rule>, i: nat, state: State): seq<Rule>
    requires i < |rules|
  {
    rules[i := rules[i].(state := state)]
  }

  /** Sets the state of the rule at `i`, unless it is no longer in the store, and begins to notify. */
  function Notifying(s: System, i: nat, p: Pending): System
    requires i <= |s.rules|
  {
    s.(rules := if i < |s.rules| then SetState(s.rules, i, if p.firing then Firing else Resolved) else s.rules,
       pending := Some(p))
  }

  function Judged(s: System, i: nat, r: Rule, m: Measurement): System
    requires i <= |s.rules|
  {
    var crossed := Crossed(r.kind, m);
    if crossed == Some(true) && r.state != Firing then Notifying(s, i, Pending(r.id, true))
    else if crossed == Some(false) && r.state == Firing then Notifying(s, i, Pending(r.id, false))
    else s
  }

  function PollRule(s: System, i: nat, m: Measurement): System
    requires i < |s.rules| && !Waiting(s)
  {
    var r := s.rules[i];
    if !r.enabled then s
    else if r.state == Resolved then s.(rules := SetState(s.rules, i, Idle), log := s.log + [Rested(r.id)])
    else if r.kind.AbstentionRate? then s.(sampled := Some(r))
    else Judged(s, i, r, m)
  }

  function IndexOf(rules: seq<Rule>, id: int): (i: nat)
    ensures i <= |rules| && (i < |rules| ==> rules[i].id == id) && forall k :: 0 <= k < i ==> rules[k].id != id
  {
    if rules == [] || rules[0].id == id then 0 else 1 + IndexOf(rules[1..], id)
  }

  /** The job counts are there: the threshold is the one read before, the state the one of now. */
  function MeasureRule(s: System, m: Measurement): System
    requires s.sampled.Some?
  {
    var r, i := s.sampled.value, IndexOf(s.rules, s.sampled.value.id);
    Judged(s.(sampled := None), i, if i < |s.rules| then r.(state := s.rules[i].state) else r, m)
  }

  function EventOf(p: Pending): Event {
    if p.firing then Fired(p.rule) else Recovered(p.rule)
  }

  function DeliverPending(s: System, sent: bool, now: int): System
    requires s.pending.Some?
  {
    s.(history := Record(s.history, s.pending.value, sent, now), pending := None,
       log := s.log + [EventOf(s.pending.value)])
  }

  function DeliverCircuit(s: System, k: nat, sent: bool, now: int): System
    requires k < |s.inflight|
  {
    s.(history := Record(s.history, s.inflight[k], sent, now), inflight := s.inflight[..k] + s.inflight[k + 1..],
       log := s.log + [EventOf(s.inflight[k])])
  }

  /** A rule keeps its kind when its configuration changes. */
  predicate SameKind(a: Kind, b: Kind) {
    a.Budget? == b.Budget? && a.ErrorRate? == b.ErrorRate? && a.AbstentionRate? == b.AbstentionRate?
  }

  predicate Enabled(s: System, step: Step) {
    match step
    case Poll(i, _) => i < |s.rules| && !Waiting(s)
    case Measure(_) => s.sampled.Some?
    case Deliver(_, _) => s.pending.Some?
    case CircuitEvent(i, _) => i < |s.rules| && s.rules[i].enabled && s.rules[i].kind.CircuitBreaker?
    case CircuitDeliver(k, _, _) => k < |s.inflight|
    case Create(id, _, _) => id !in s.used
    case Update(i, kind, _) => i < |s.rules| && SameKind(s.rules[i].kind, kind)
    case Delete(i) => i < |s.rules|
  }

  function Next(s: System, step: Step): System
    requires Enabled(s, step)
  {
    match step
    case Poll(i, m) => PollRule(s, i, m)
    case Measure(m) => MeasureRule(s, m)
    case Deliver(sent, now) => DeliverPending(s, sent, now)
    case CircuitEvent(i, tripped) =>
      s.(rules := SetState(s.rules, i, if tripped then Firing else Resolved),
         inflight := s.inflight + [Pending(s.rules[i].id, tripped)])
    case CircuitDeliver(k, sent, now) => DeliverCircuit(s, k, sent, now)
    case Create(id, kind, enabled) => s.(rules := s.rules + [Rule(id, kind, enabled, Idle)], used := s.used + {id})
    case Update(i, kind, enabled) => s.(rules := s.rules[i := s.rules[i].(kind := kind, enabled := enabled)])
    case Delete(i) => s.(rules := s.rules[..i] + s.rules[i + 1..])
  }

  ghost predicate Run(s: System, steps: seq<Step>, end: System)
    decreases |steps|
  {
    if steps == [] then s == end
    else Enabled(s, steps[0]) && Run(Next(s, steps[0]), steps[1..], end)
  }

  // ---- What the history and the log say about a rule ----

  function Unresolved(history: seq<Entry>, id: int): nat {
    if history == [] then 0
    else Unresolved(Init(history), id) + if Last(history).rule == id && Last(history).resolvedAt.None? then 1 else 0
  }

  function Entries(history: seq<Entry>, id: int): nat {
    if history == [] then 0 else Entries(Init(history), id) + if Last(history).rule == id then 1 else 0
  }

  /** The events of one rule, in order. */
  function Trace(log: seq<Event>, id: int): seq<Event> {
    if log == [] then [] else Trace(Init(log), id) + if Last(log).rule == id then [Last(log)] else []
  }

  /** Fired, recovered, rested, and over again from the start. */
  predicate InTurn(trace: seq<Event>) {
    forall k :: 0 <= k < |trace| ==>
      match k % 3
      case 0 => trace[k].Fired?
      case 1 => trace[k].Recovered?
      case _ => trace[k].Rested?
  }

  function StateAfter(events: nat): State {
    match events % 3
    case 0 => Idle
    case 1 => Firing
    case _ => Resolved
  }

  /** The rule's state, its events and its history entries tell the same story. */
  ghost predicate Consistent(s: System, r: Rule) {
    var n := |Trace(s.log, r.id)|;
    && InTurn(Trace(s.log, r.id))
    && Entries(s.history, r.id) == (n + 2) / 3
    && Unresolved(s.history, r.id) == (if n % 3 == 1 then 1 else 0)
    && if s.pending.Some? && s.pending.value.rule == r.id
       then (if s.pending.value.firing then StateAfter(n) == Idle && r.state == Firing
             else StateAfter(n) == Firing && r.state == Resolved)
       else r.state == StateAfter(n)
  }

  ghost predicate IdsDistinct(rules: seq<Rule>) {
    forall i, j :: 0 <= i < j < |rules| ==> rules[i].id != rules[j].id
  }

  ghost predicate IdsKnown(s: System) {
    && IdsDistinct(s.rules)
    && (forall r :: r in s.rules ==> r.id in s.used)
    && (forall h :: h in s.history ==> h.rule in s.used)
    && (forall e :: e in s.log ==> e.rule in s.used)
    && (s.pending.Some? ==> s.pending.value.rule in s.used)
    && (forall p :: p in s.inflight ==> p.rule in s.used)
    && (s.pending.Some? ==> forall r :: r in s.rules && r.id == s.pending.value.rule ==> Polled(r))
    && (forall p, r :: p in s.inflight && r in s.rules && r.id == p.rule ==> !Polled(r))
  }

  /** While the loop waits for job counts, it is for a polled rule that is not resolved. */
  ghost predicate SampledKnown(s: System) {
    s.sampled.Some? ==>
      && s.pending.None? && s.sampled.value.id in s.used
      && (forall r :: r in s.rules && r.id == s.sampled.value.id ==> Polled(r) && r.state != Resolved)
  }

  ghost predicate Inv(s: System) {
    IdsKnown(s) && SampledKnown(s) && forall r :: r in s.rules && Polled(r) ==> Consistent(s, r)
  }

  // ---- Each step keeps the invariant ----

  lemma TraceSnoc(log: seq<Event>, e: Event, id: int)
    ensures Trace(log + [e], id) == if e.rule == id then Trace(log, id) + [e] else Trace(log, id)
  {
    assert Init(log + [e]) == log;
  }

  lemma HistorySnoc(history: seq<Entry>, h: Entry, id: int)
    ensures Unresolved(history + [h], id)
         == Unresolved(history, id) + if h.rule == id && h.resolvedAt.None? then 1 else 0
    ensures Entries(history + [h], id) == Entries(history, id) + if h.rule == id then 1 else 0
  {
    assert Init(history + [h]) == history;
  }

  lemma {:induction false} ResolveLatestCounts(history: seq<Entry>, id: int, now: int, other: int)
    ensures Entries(ResolveLatest(history, id, now), other) == Entries(history, other)
    ensures other != id ==> Unresolved(ResolveLatest(history, id, now), other) == Unresolved(history, other)
    ensures other == id ==> Unresolved(ResolveLatest(history, id, now), id) == Max(Unresolved(history, id) - 1, 0)
  {
    if history != [] {
      var last := Last(history);
      HistorySnoc(Init(history), last.(resolvedAt := Some(now)), other);
      ResolveLatestCounts(Init(history), id, now, other);
      HistorySnoc(ResolveLatest(Init(history), id, now), last, other);
    }
  }

  lemma {:induction false} ResolveLatestIds(history: seq<Entry>, id: int, now: int, used: set<int>)
    requires forall h :: h in history ==> h.rule in used
    ensures forall h :: h in ResolveLatest(history, id, now) ==> h.rule in used
  {
    if history != [] {
      assert Last(history) in history && forall h :: h in Init(history) ==> h in history;
      ResolveLatestIds(Init(history), id, now, used);
    }
  }

  /** Recording a notification moves the counts of its own rule only. */
  lemma RecordCounts(history: seq<Entry>, p: Pending, sent: bool, now: int, id: int)
    ensures p.rule != id ==> && Entries(Record(history, p, sent, now), id) == Entries(history, id)
                             && Unresolved(Record(history, p, sent, now), id) == Unresolved(history, id)
    ensures p.rule == id && p.firing ==> && Entries(Record(history, p, sent, now), id) == Entries(history, id) + 1
                                         && Unresolved(Record(history, p, sent, now), id) == Unresolved(history, id) + 1
    ensures p.rule == id && !p.firing ==> && Entries(Record(history, p, sent, now), id) == Entries(history, id)
                                          && Unresolved(Record(history, p, sent, now), id)
                                             == Max(Unresolved(history, id) - 1, 0)
  {
    if p.firing {
      HistorySnoc(history, Entry(p.rule, now, None, sent), id);
    } else {
      ResolveLatestCounts(history, p.rule, now, id);
    }
  }

  lemma RecordIds(history: seq<Entry>, p: Pending, sent: bool, now: int, used: set<int>)
    requires p.rule in used && forall h :: h in history ==> h.rule in used
    ensures forall h :: h in Record(history, p, sent, now) ==> h.rule in used
  {
    if !p.firing {
      ResolveLatestIds(history, p.rule, now, used);
    }
  }

  /** Only the rule at `i` changed, and only its state: the others are the rules they were. */
  lemma OthersUnchanged(rules: seq<Rule>, i: nat, r: Rule)
    requires i < |rules| && r.id == rules[i].id && IdsDistinct(rules)
    ensures IdsDistinct(rules[i := r])
    ensures forall q :: q in rules[i := r] ==> q == r || (q in rules && q.id != r.id)
  {
    forall q | q in rules[i := r] ensures q == r || (q in rules && q.id != r.id) {
      var k :| 0 <= k < |rules| && rules[i := r][k] == q;
      if k != i {
        assert rules[k].id != rules[i].id;
      }
    }
  }

  lemma RestTurn(n: nat)
    requires StateAfter(n) == Resolved
    ensures n % 3 == 2 && StateAfter(n + 1) == Idle && (n + 3) / 3 == (n + 2) / 3
  {
  }

  /** What the engine may judge: a rule as it is in the store, or one that was and is no more. */
  ghost predicate Judgeable(s: System, i: nat, r: Rule) {
    && i <= |s.rules| && !Waiting(s) && r.id in s.used
    && (i < |s.rules| ==> && s.rules[i].id == r.id && s.rules[i].state == r.state && Polled(s.rules[i])
                          && r.state != Resolved)
    && (i == |s.rules| ==> forall q :: q in s.rules ==> q.id != r.id)
  }

  lemma JudgedOwn(s: System, i: nat, r: Rule, m: Measurement)
    requires Judgeable(s, i, r) && i < |s.rules| && Consistent(s, s.rules[i])
    ensures |Judged(s, i, r, m).rules| == |s.rules| && Consistent(Judged(s, i, r, m), Judged(s, i, r, m).rules[i])
  {
    hide Crossed, Trace, Unresolved, Entries, InTurn;
  }

  lemma JudgedOther(s: System, i: nat, r: Rule, m: Measurement, q: Rule)
    requires Judgeable(s, i, r) && Consistent(s, q) && q.id != r.id
    ensures Consistent(Judged(s, i, r, m), q)
  {
    hide Crossed, Trace, Unresolved, Entries, InTurn;
  }

  lemma JudgedIds(s: System, i: nat, r: Rule, m: Measurement)
    requires IdsKnown(s) && Judgeable(s, i, r)
    ensures var s' := Judged(s, i, r, m);
      && IdsKnown(s') && SampledKnown(s') && |s'.rules| == |s.rules|
      && (i < |s.rules| ==> s'.rules[i].kind == s.rules[i].kind)
      && s'.log == s.log && s'.history == s.history && s'.inflight == s.inflight && s'.used == s.used
      && forall q :: q in s'.rules ==> (i < |s.rules| && q == s'.rules[i]) || (q in s.rules && q.id != r.id)
  {
    hide Crossed;
    var s' := Judged(s, i, r, m);
    if i < |s.rules| {
      assert s'.rules == s.rules[i := s'.rules[i]];
      OthersUnchanged(s.rules, i, s'.rules[i]);
    }
  }

  lemma JudgedKeeps(s: System, i: nat, r: Rule, m: Measurement)
    requires Inv(s) && Judgeable(s, i, r)
    ensures Inv(Judged(s, i, r, m))
  {
    JudgedIds(s, i, r, m);
    assert i < |s.rules| ==> s.rules[i] in s.rules;
    hide Judged, Consistent, IdsKnown, SampledKnown, Judgeable;
    var s' := Judged(s, i, r, m);
    forall q | q in s'.rules && Polled(q) ensures Consistent(s', q) {
      if i < |s.rules| && q == s'.rules[i] {
        JudgedOwn(s, i, r, m);
      } else {
        JudgedOther(s, i, r, m, q);
      }
    }
  }

  lemma MeasureJudges(s: System, m: Measurement)
    requires Inv(s) && s.sampled.Some?
    ensures var i, now := IndexOf(s.rules, s.sampled.value.id), s.(sampled := None);
      && Inv(now) && i <= |s.rules|
      && exists r :: Judgeable(now, i, r) && r.id == s.sampled.value.id && MeasureRule(s, m) == Judged(now, i, r, m)
  {
    var r, i, now := s.sampled.value, IndexOf(s.rules, s.sampled.value.id), s.(sampled := None);
    forall q | q in s.rules && Polled(q) ensures Consistent(now, q) {
      assert Consistent(s, q);
    }
    if i < |s.rules| {
      assert s.rules[i] in s.rules;
      assert Judgeable(now, i, r.(state := s.rules[i].state));
    } else {
      assert Judgeable(now, i, r);
    }
  }

  lemma MeasureKeeps(s: System, m: Measurement)
    requires Inv(s) && s.sampled.Some?
    ensures Inv(MeasureRule(s, m))
  {
    MeasureJudges(s, m);
    hide Inv, Judged, MeasureRule, Judgeable;
    var i, now := IndexOf(s.rules, s.sampled.value.id), s.(sampled := None);
    var r :| Judgeable(now, i, r) && r.id == s.sampled.value.id && MeasureRule(s, m) == Judged(now, i, r, m);
    JudgedKeeps(now, i, r, m);
  }

  lemma RestKeeps(s: System, i: nat)
    requires Inv(s) && i < |s.rules| && !Waiting(s) && s.rules[i].state == Resolved
    ensures Inv(s.(rules := SetState(s.rules, i, Idle), log := s.log + [Rested(s.rules[i].id)]))
  {
    var r := s.rules[i];
    var s' := s.(rules := SetState(s.rules, i, Idle), log := s.log + [Rested(r.id)]);
    assert r in s.rules;
    OthersUnchanged(s.rules, i, s'.rules[i]);
    hide Trace, Unresolved, Entries, InTurn;
    forall q | q in s'.rules && Polled(q) ensures Consistent(s', q) {
      TraceSnoc(s.log, Rested(r.id), q.id);
      if q == s'.rules[i] {
        assert Consistent(s, r);
        InTurnSnoc(Trace(s.log, r.id), Rested(r.id));
        RestTurn(|Trace(s.log, r.id)|);
      } else {
        assert Consistent(s, q);
      }
    }
  }

  lemma PollKeeps(s: System, i: nat, m: Measurement)
    requires Inv(s) && i < |s.rules| && !Waiting(s)
    ensures Inv(PollRule(s, i, m))
  {
    var r := s.rules[i];
    assert r in s.rules;
    if r.enabled && r.state == Resolved {
      RestKeeps(s, i);
    } else if r.enabled && r.kind.AbstentionRate? {
      var s' := s.(sampled := Some(r));
      forall q | q in s'.rules && Polled(q) ensures Consistent(s', q) {
        assert Consistent(s, q);
      }
    } else if r.enabled && Polled(r) {
      assert Judgeable(s, i, r);
      JudgedKeeps(s, i, r, m);
    }
  }

  lemma DeliverConsistent(s: System, sent: bool, now: int, q: Rule)
    requires Consistent(s, q) && s.pending.Some?
    ensures Consistent(DeliverPending(s, sent, now), q)
  {
    hide Record, Trace, Unresolved, Entries, InTurn;
    RecordCounts(s.history, s.pending.value, sent, now, q.id);
    TraceSnoc(s.log, EventOf(s.pending.value), q.id);
    InTurnSnoc(Trace(s.log, q.id), EventOf(s.pending.value));
  }

  lemma InTurnSnoc(trace: seq<Event>, e: Event)
    requires InTurn(trace)
    ensures InTurn(trace + [e]) <==> match |trace| % 3
                                     case 0 => e.Fired?
                                     case 1 => e.Recovered?
                                     case _ => e.Rested?
  {
    var all := trace + [e];
    assert all[|trace|] == e && forall k :: 0 <= k < |trace| ==> all[k] == trace[k];
  }

  lemma DeliverKeeps(s: System, sent: bool, now: int)
    requires Inv(s) && s.pending.Some?
    ensures Inv(DeliverPending(s, sent, now))
  {
    var s', p := DeliverPending(s, sent, now), s.pending.value;
    RecordIds(s.history, p, sent, now, s.used);
    forall q | q in s'.rules && Polled(q) ensures Consistent(s', q) {
      DeliverConsistent(s, sent, now, q);
    }
  }

  lemma CircuitKeeps(s: System, i: nat, tripped: bool)
    requires Inv(s) && Enabled(s, CircuitEvent(i, tripped))
    ensures Inv(Next(s, CircuitEvent(i, tripped)))
  {
    var s' := Next(s, CircuitEvent(i, tripped));
    OthersUnchanged(s.rules, i, s'.rules[i]);
    assert s.rules[i] in s.rules;
    forall q | q in s'.rules && Polled(q) ensures Consistent(s', q) {
      assert Consistent(s, q);
    }
    hide Consistent;
  }

  lemma InflightLeft(s: System, k: nat, sent: bool, now: int)
    requires k < |s.inflight|
    ensures var s', p := DeliverCircuit(s, k, sent, now), s.inflight[k];
      && s' == s.(history := Record(s.history, p, sent, now), log := s.log + [EventOf(p)], inflight := s'.inflight)
      && forall q :: q in s'.inflight ==> q in s.inflight
  {
  }

  lemma CircuitDeliverKeeps(s: System, k: nat, sent: bool, now: int)
    requires Inv(s) && k < |s.inflight|
    ensures Inv(DeliverCircuit(s, k, sent, now))
  {
    var s', p := DeliverCircuit(s, k, sent, now), s.inflight[k];
    assert p in s.inflight;
    InflightLeft(s, k, sent, now);
    RecordIds(s.history, p, sent, now, s.used);
    hide DeliverCircuit, Record, Trace, Unresolved, Entries, InTurn;
    forall q | q in s'.rules && Polled(q) ensures Consistent(s', q) {
      assert Consistent(s, q) && q.id != p.rule;
      RecordCounts(s.history, p, sent, now, q.id);
      TraceSnoc(s.log, EventOf(p), q.id);
    }
    hide Consistent;
  }

  lemma {:induction false} UnknownIdHasNoPast(log: seq<Event>, history: seq<Entry>, id: int)
    requires forall e :: e in log ==> e.rule != id
    requires forall h :: h in history ==> h.rule != id
    ensures Trace(log, id) == [] && Unresolved(history, id) == 0 && Entries(history, id) == 0
  {
    if log != [] {
      UnknownIdHasNoPast(Init(log), history, id);
      assert Last(log) in log;
    } else if history != [] {
      UnknownIdHasNoPast(log, Init(history), id);
      assert Last(history) in history;
    }
  }

  lemma CreateKeeps(s: System, id: int, kind: Kind, enabled: bool)
    requires Inv(s) && id !in s.used
    ensures Inv(Next(s, Create(id, kind, enabled)))
  {
    var s' := Next(s, Create(id, kind, enabled));
    UnknownIdHasNoPast(s.log, s.history, id);
    forall q | q in s'.rules && Polled(q) ensures Consistent(s', q) {
      assert q in s.rules ==> Consistent(s, q);
    }
  }

  lemma UpdateKeeps(s: System, i: nat, kind: Kind, enabled: bool)
    requires Inv(s) && Enabled(s, Update(i, kind, enabled))
    ensures Inv(Next(s, Update(i, kind, enabled)))
  {
    var s' := Next(s, Update(i, kind, enabled));
    OthersUnchanged(s.rules, i, s'.rules[i]);
    forall q | q in s'.rules && Polled(q) ensures Consistent(s', q) {
      assert Consistent(s, if q == s'.rules[i] then s.rules[i] else q);
    }
  }

  lemma DeleteKeeps(s: System, i: nat)
    requires Inv(s) && i < |s.rules|
    ensures Inv(Next(s, Delete(i)))
  {
    var s' := Next(s, Delete(i));
    forall q | q in s'.rules && Polled(q) ensures Consistent(s', q) {
      assert Consistent(s, q);
    }
  }

  lemma StepKeeps(s: System, step: Step)
    requires Inv(s) && Enabled(s, step)
    ensures Inv(Next(s, step))
  {
    match step
    case Poll(i, m) => PollKeeps(s, i, m);
    case Measure(m) => MeasureKeeps(s, m);
    case Deliver(sent, now) => DeliverKeeps(s, sent, now);
    case CircuitEvent(i, tripped) => CircuitKeeps(s, i, tripped);
    case CircuitDeliver(k, sent, now) => CircuitDeliverKeeps(s, k, sent, now);
    case Create(id, kind, enabled) => CreateKeeps(s, id, kind, enabled);
    case Update(i, kind, enabled) => UpdateKeeps(s, i, kind, enabled);
    case Delete(i) => DeleteKeeps(s, i);
  }

  lemma {:induction false} RunKeeps(s: System, steps: seq<Step>, end: System)
    requires Inv(s) && Run(s, steps, end)
    ensures Inv(end)
    decreases |steps|
  {
    if steps != [] {
      StepKeeps(s, steps[0]);
      RunKeeps(Next(s, steps[0]), steps[1..], end);
    }
  }

  // ---- The theorems ----

  /** The stores as the module seeds them: an idle budget rule, a firing error-rate rule and its one entry. */
  function Seeded(budget: int, errors: int, circuit: int, now: int): System {
    System([Rule(budget, Budget(1000000), true, Idle),
            Rule(errors, ErrorRate(10.0), true, Firing),
            Rule(circuit, CircuitBreaker("delivery-api"), false, Resolved)],
           [Entry(errors, now, None, true)], None, None, [], [Fired(errors)], {budget, errors, circuit})
  }

  lemma SeedCounts(budget: int, errors: int, circuit: int, now: int, id: int)
    ensures var s := Seeded(budget, errors, circuit, now);
            && Trace(s.log, id) == (if id == errors then [Fired(errors)] else [])
            && Unresolved(s.history, id) == Entries(s.history, id) == if id == errors then 1 else 0
  {
    var s := Seeded(budget, errors, circuit, now);
    TraceSnoc([], Fired(errors), id);
    assert [] + [Fired(errors)] == s.log;
    HistorySnoc([], s.history[0], id);
    assert [] + [s.history[0]] == s.history;
  }

  lemma SeedConsistent(budget: int, errors: int, circuit: int, now: int)
    requires budget != errors && errors != circuit && budget != circuit
    ensures Inv(Seeded(budget, errors, circuit, now))
  {
    hide Trace, Unresolved, Entries, IdsKnown;
    var s := Seeded(budget, errors, circuit, now);
    SeedKnown(budget, errors, circuit, now);
    SeedCounts(budget, errors, circuit, now, budget);
    SeedCounts(budget, errors, circuit, now, errors);
    assert Consistent(s, s.rules[0]);
    assert Consistent(s, s.rules[1]);
  }

  lemma SeedKnown(budget: int, errors: int, circuit: int, now: int)
    requires budget != errors && errors != circuit && budget != circuit
    ensures IdsKnown(Seeded(budget, errors, circuit, now))
  {
  }

  /**
   * In every run, whatever the interleaving: once no notification of it is under way, a polled rule has one
   * unresolved history entry when it is firing and none otherwise, and as many entries as it has fired.
   */
  lemma HistoryMatchesState(s: System, steps: seq<Step>, end: System, r: Rule)
    requires Inv(s) && Run(s, steps, end)
    requires r in end.rules && Polled(r) && (end.pending.Some? ==> end.pending.value.rule != r.id)
    ensures Unresolved(end.history, r.id) == if r.state == Firing then 1 else 0
    ensures 3 * Entries(end.history, r.id) == |Trace(end.log, r.id)| + match r.state
                                                                       case Idle => 0
                                                                       case Firing => 2
                                                                       case Resolved => 1
  {
    RunKeeps(s, steps, end);
    assert Consistent(end, r);
    hide Inv, Run, Trace, Unresolved, Entries;
  }

  lemma FiringsInTurn(trace: seq<Event>, i: nat, j: nat)
    requires InTurn(trace) && i < j < |trace| && trace[i].Fired? && trace[j].Fired?
    ensures i % 3 == 0 && j % 3 == 0
    ensures i + 2 < j && trace[i + 1].Recovered? && trace[i + 2].Rested?
    ensures trace[j - 2].Recovered? && trace[j - 1].Rested?
  {
    assert i % 3 == 0 && j % 3 == 0;
  }

  /** Between any two firings of a polled rule it recovers once, and then a cycle passes without evaluating it. */
  lemma NotificationsAlternate(s: System, steps: seq<Step>, end: System, r: Rule, i: nat, j: nat)
    requires Inv(s) && Run(s, steps, end) && r in end.rules && Polled(r)
    requires i < j < |Trace(end.log, r.id)|
    requires Trace(end.log, r.id)[i].Fired? && Trace(end.log, r.id)[j].Fired?
    ensures i + 2 < j
    ensures Trace(end.log, r.id)[i + 1].Recovered? && Trace(end.log, r.id)[i + 2].Rested?
    ensures Trace(end.log, r.id)[j - 2].Recovered? && Trace(end.log, r.id)[j - 1].Rested?
  {
    RunKeeps(s, steps, end);
    assert Consistent(end, r);
    hide *;
    FiringsInTurn(Trace(end.log, r.id), i, j);
  }

  // ---- Requests ----

  /** What requests do to the rules: a new one is idle, an update keeps identifier and state, no other rule changes. */
  lemma RequestMeaning(s: System, step: Step)
    requires Enabled(s, step) && (step.Create? || step.Update? || step.Delete?)
    ensures var after := Next(s, step);
      && after.history == s.history && after.log == s.log && after.pending == s.pending && after.inflight == s.inflight
      && (step.Create? ==> after.rules == s.rules + [Rule(step.id, step.kind, step.enabled, Idle)])
      && (step.Update? ==>
            && |after.rules| == |s.rules|
            && (forall k :: 0 <= k < |s.rules| && k != step.i ==> after.rules[k] == s.rules[k])
            && after.rules[step.i] == Rule(s.rules[step.i].id, step.kind, step.enabled, s.rules[step.i].state))
      && (step.Delete? ==>
            && |after.rules| == |s.rules| - 1 && after.rules[..step.i] == s.rules[..step.i]
            && after.rules[step.i..] == s.rules[step.i + 1..])
  {
  }

  // ---- When a rule fires ----

  /** The readings a rule can be judged by. */
  predicate Fits(kind: Kind, m: Measurement) {
    (kind.Budget? && m.Tokens?) || ((kind.ErrorRate? || kind.AbstentionRate?) && m.Jobs?)
  }

  /**
   * A budget is crossed by reaching it; a rate only by going above it: more failed, or flagged, jobs in a hundred than
   * the threshold says. Of no jobs at all none is flagged, and none has failed.
   */
  predicate Above(kind: Kind, m: Measurement)
    requires Fits(kind, m)
  {
    match kind
    case Budget(threshold) => m.used >= threshold
    case ErrorRate(threshold) =>
      if m.total == 0 then threshold < 0.0 else 100.0 * m.hits as real > threshold * m.total as real
    case AbstentionRate(threshold) => m.total > 0 && 100.0 * m.hits as real > threshold * m.total as real
    case CircuitBreaker(_) => false
  }

  lemma PercentAbove(hits: nat, total: nat, threshold: real)
    requires total > 0
    ensures Percent(hits, total) > threshold <==> 100.0 * hits as real > threshold * total as real
  {
    var share := hits as real / total as real;
    assert share * total as real == hits as real;
    var margin := share * 100.0 - threshold;
    assert 100.0 * hits as real - threshold * total as real == margin * total as real;
    if margin > 0.0 {
      assert margin * total as real > 0.0;
    } else {
      assert margin * total as real <= 0.0;
    }
  }

  lemma CrossedIffAbove(kind: Kind, m: Measurement)
    ensures Fits(kind, m) <==> Crossed(kind, m).Some?
    ensures Fits(kind, m) ==> Crossed(kind, m) == Some(Above(kind, m))
  {
    if kind.ErrorRate? && m.Jobs? && m.total > 0 {
      PercentAbove(m.hits, m.total, kind.thresholdPercent);
    } else if kind.AbstentionRate? && m.Jobs? && m.total > 0 {
      PercentAbove(m.hits, m.total, kind.thresholdPercent);
    }
  }

  /** Looking at the rule at `i`, and getting its job counts if it waits for them. */
  function Judgement(s: System, i: nat, m: Measurement): System
    requires i < |s.rules| && !Waiting(s)
  {
    var polled := PollRule(s, i, m);
    if polled.sampled.Some? then MeasureRule(polled, m) else polled
  }

  /**
   * What a cycle makes of an enabled rule that does not rest: it is firing afterwards exactly when it is above its
   * threshold, a notification begins exactly when that is news, and a reading that raised changes nothing.
   */
  lemma CycleFiresIff(s: System, i: nat, m: Measurement)
    requires Inv(s) && i < |s.rules| && !Waiting(s) && s.rules[i].enabled && s.rules[i].state != Resolved
    ensures var r, after := s.rules[i], Judgement(s, i, m);
      && |after.rules| == |s.rules| && after.log == s.log && after.history == s.history
      && (Fits(r.kind, m) ==>
            && (after.rules[i].state == Firing <==> Above(r.kind, m))
            && after.pending == (if (r.state == Firing) == Above(r.kind, m) then None
                                 else Some(Pending(r.id, Above(r.kind, m)))))
      && (!Fits(r.kind, m) ==> after == s)
  {
    CrossedIffAbove(s.rules[i].kind, m);
    var r := s.rules[i];
    if r.kind.AbstentionRate? {
      SampledAtOnce(s, i, m);
    }
    hide Inv, Crossed, Above, MeasureRule, IndexOf;
  }

  /** When nothing comes in between, waiting for the job counts is as good as having them. */
  lemma SampledAtOnce(s: System, i: nat, m: Measurement)
    requires i < |s.rules| && !Waiting(s) && Inv(s)
    requires s.rules[i].enabled && s.rules[i].state != Resolved && s.rules[i].kind.AbstentionRate?
    ensures PollRule(s, i, m).sampled.Some?
    ensures MeasureRule(PollRule(s, i, m), m) == Judged(s, i, s.rules[i], m)
  {
    var r, polled := s.rules[i], PollRule(s, i, m);
    assert IndexOf(s.rules, r.id) == i;
    assert polled.(sampled := None) == s;
    assert r.(state := r.state) == r;
  }

  /** A resolved rule that is enabled rests at its next turn, and a disabled one has none. */
  lemma CycleRests(s: System, i: nat, m: Measurement)
    requires i < |s.rules| && !Waiting(s) && (s.rules[i].state == Resolved || !s.rules[i].enabled)
    ensures var r, after := s.rules[i], Judgement(s, i, m);
      && (!r.enabled ==> after == s)
      && (r.enabled ==> && after.rules == s.rules[i := r.(state := Idle)] && after.log == s.log + [Rested(r.id)]
                        && after.pending == None && after.history == s.history)
  {
  }

  // ---- What a notification writes ----

  /** The rule's unresolved entry that was added last. */
  predicate LatestOpen(history: seq<Entry>, id: int, k: nat) {
    && k < |history| && history[k].rule == id && history[k].resolvedAt.None?
    && forall j :: k < j < |history| ==> history[j].rule != id || history[j].resolvedAt.Some?
  }

  /** A firing adds an open entry at the end; a recovery closes the rule's latest open entry and touches no other. */
  lemma {:induction false} RecordMeaning(history: seq<Entry>, p: Pending, sent: bool, now: int)
    ensures var after := Record(history, p, sent, now);
      && (p.firing ==> after == history + [Entry(p.rule, now, None, sent)])
      && (!p.firing ==>
            |after| == |history| &&
            forall k :: 0 <= k < |history| ==>
              after[k] == if LatestOpen(history, p.rule, k) then history[k].(resolvedAt := Some(now)) else history[k])
  {
    if !p.firing && history != [] {
      var rest, last := Init(history), Last(history);
      RecordMeaning(rest, p, sent, now);
      if last.rule == p.rule && last.resolvedAt.None? {
        assert LatestOpen(history, p.rule, |history| - 1);
      } else {
        assert forall k :: 0 <= k < |rest| ==> (LatestOpen(history, p.rule, k) <==> LatestOpen(rest, p.rule, k));
      }
    }
  }

  // ---- Disabled rules ----

  ghost predicate Moves(s: System, step: Step, r: Rule)
    requires Enabled(s, step)
  {
    exists q :: q in Next(s, step).rules && q.id == r.id && q.state != r.state
  }

  lemma MeasureMovesIff(s: System, m: Measurement, r: Rule)
    requires Inv(s) && s.sampled.Some? && r in s.rules
    ensures Moves(s, Measure(m), r)
            <==> s.sampled.value.id == r.id && Crossed(s.sampled.value.kind, m) == Some(r.state != Firing)
  {
    var s' := MeasureRule(s, m);
    MeasureKeeps(s, m);
    var k :| 0 <= k < |s.rules| && s.rules[k] == r;
    MeasuredState(s, m, k);
    hide MeasureRule, Crossed, Consistent, SampledKnown, IdsDistinct;
    assert s'.rules[k] in s'.rules;
    forall q | q in s'.rules && q.id == r.id ensures q == s'.rules[k] {
      SameRule(s'.rules, q, s'.rules[k]);
    }
  }

  lemma MeasuredState(s: System, m: Measurement, k: nat)
    requires IdsDistinct(s.rules) && s.sampled.Some? && k < |s.rules|
    ensures var s', r := MeasureRule(s, m), s.rules[k];
      && |s'.rules| == |s.rules| && s'.rules[k].id == r.id
      && (s'.rules[k].state != r.state
          <==> s.sampled.value.id == r.id && Crossed(s.sampled.value.kind, m) == Some(r.state != Firing))
  {
    var i := IndexOf(s.rules, s.sampled.value.id);
    assert i == k <==> s.sampled.value.id == s.rules[k].id;
    hide Crossed, IndexOf, IdsDistinct;
  }

  /**
   * Disabling a polled rule stops it, except exactly when the engine is waiting for its job counts: these are still
   * judged, by the threshold read before.
   */
  lemma DisabledRuleMovesIff(s: System, step: Step, r: Rule)
    requires Inv(s) && Enabled(s, step) && r in s.rules && Polled(r) && !r.enabled
    ensures Moves(s, step, r)
            <==> && step.Measure? && s.sampled.value.id == r.id
                 && Crossed(s.sampled.value.kind, step.m) == Some(r.state != Firing)
  {
    var s' := Next(s, step);
    match step {
      case Measure(m) => MeasureMovesIff(s, m, r);
      case Poll(i, m) =>
        PollOne(s, i, m);
        OthersUnchanged(s.rules, i, s'.rules[i]);
      case CircuitEvent(i, _) => OthersUnchanged(s.rules, i, s'.rules[i]);
      case Update(i, _, _) => OthersUnchanged(s.rules, i, s'.rules[i]);
      case _ =>
    }
    hide Consistent, Crossed, Record;
    if !step.Measure? {
      forall q | q in s'.rules && q.id == r.id ensures q.state == r.state {
        if q in s.rules {
          SameRule(s.rules, q, r);
        }
      }
    }
  }

  lemma SameRule(rules: seq<Rule>, q: Rule, r: Rule)
    requires IdsDistinct(rules) && q in rules && r in rules && q.id == r.id
    ensures q == r
  {
  }

  lemma PollOne(s: System, i: nat, m: Measurement)
    requires i < |s.rules| && !Waiting(s)
    ensures var s' := PollRule(s, i, m);
      && |s'.rules| == |s.rules| && s'.rules == s.rules[i := s'.rules[i]] && s'.rules[i].id == s.rules[i].id
      && (!s.rules[i].enabled ==> s' == s)
  {
    hide Crossed;
  }

  // ---- Breaker rules ----

  /** How many entries the events leave unresolved: each firing adds one, a recovery takes one if there is one. */
  function Level(trace: seq<Event>): nat {
    if trace == [] then 0
    else match Last(trace)
      case Fired(_) => Level(Init(trace)) + 1
      case Recovered(_) => Max(Level(Init(trace)) - 1, 0)
      case Rested(_) => Level(Init(trace))
  }

  /** The last firing has not been followed by a recovery. */
  predicate StillFiring(trace: seq<Event>) {
    trace != [] && (Last(trace).Fired? || (Last(trace).Rested? && StillFiring(Init(trace))))
  }

  /** No firing follows a firing without a recovery between them. */
  ghost predicate NoDoubleFire(trace: seq<Event>) {
    forall i, j :: 0 <= i < j < |trace| && trace[i].Fired? && trace[j].Fired? ==>
      exists m :: i < m < j && trace[m].Recovered?
  }

  /** Every rule's unresolved entries are what its events leave. */
  ghost predicate Leveled(s: System, id: int) {
    Unresolved(s.history, id) == Level(Trace(s.log, id))
  }

  lemma LevelSnoc(trace: seq<Event>, e: Event)
    ensures Level(trace + [e]) == match e
                                  case Fired(_) => Level(trace) + 1
                                  case Recovered(_) => Max(Level(trace) - 1, 0)
                                  case Rested(_) => Level(trace)
    ensures StillFiring(trace + [e]) <==> e.Fired? || (e.Rested? && StillFiring(trace))
  {
    assert Init(trace + [e]) == trace;
  }

  lemma DeliveryLeveled(history: seq<Entry>, log: seq<Event>, p: Pending, sent: bool, now: int, id: int)
    requires Unresolved(history, id) == Level(Trace(log, id))
    ensures Unresolved(Record(history, p, sent, now), id) == Level(Trace(log + [EventOf(p)], id))
  {
    RecordCounts(history, p, sent, now, id);
    TraceSnoc(log, EventOf(p), id);
    LevelSnoc(Trace(log, id), EventOf(p));
  }

  lemma StepLeveled(s: System, step: Step, id: int)
    requires Enabled(s, step) && Leveled(s, id)
    ensures Leveled(Next(s, step), id)
  {
    hide Record, Unresolved, Trace, Level, Crossed;
    match step {
      case Poll(i, m) =>
        TraceSnoc(s.log, Rested(s.rules[i].id), id);
        LevelSnoc(Trace(s.log, id), Rested(s.rules[i].id));
      case Deliver(sent, now) => DeliveryLeveled(s.history, s.log, s.pending.value, sent, now, id);
      case CircuitDeliver(k, sent, now) => DeliveryLeveled(s.history, s.log, s.inflight[k], sent, now, id);
      case _ =>
    }
  }

  /** In every run, of whatever rule: its unresolved entries are a function of its events. */
  lemma {:induction false} RunLeveled(s: System, steps: seq<Step>, end: System, id: int)
    requires Leveled(s, id) && Run(s, steps, end)
    ensures Leveled(end, id)
    decreases |steps|
  {
    hide Leveled, Next, Enabled;
    if steps != [] {
      StepLeveled(s, steps[0], id);
      RunLeveled(Next(s, steps[0]), steps[1..], end, id);
    }
  }

  lemma StepEvents(s: System, step: Step, id: int) returns (more: seq<Event>)
    requires Enabled(s, step)
    ensures |more| <= 1 && Trace(Next(s, step).log, id) == Trace(s.log, id) + more
  {
    var after := Next(s, step);
    more := [];
    if after.log != s.log {
      var e := Last(after.log);
      OneEvent(s, step);
      hide Trace, Next, Enabled;
      TraceSnoc(s.log, e, id);
      more := if e.rule == id then [e] else [];
    }
    hide Trace, Next, Enabled;
    assert Trace(s.log, id) + [] == Trace(s.log, id);
  }

  lemma OneEvent(s: System, step: Step)
    requires Enabled(s, step)
    ensures var log := Next(s, step).log; log == s.log || (log != [] && log == s.log + [Last(log)])
  {
    hide Crossed, Record, SetState, IndexOf;
  }

  lemma DoubleFireSnoc(trace: seq<Event>, e: Event)
    requires NoDoubleFire(trace)
    ensures NoDoubleFire(trace + [e]) <==> !(e.Fired? && StillFiring(trace))
  {
    var all := trace + [e];
    assert forall i :: 0 <= i < |trace| ==> all[i] == trace[i];
    if e.Fired? && StillFiring(trace) {
      var i := LastFiring(trace);
      assert all[i].Fired? && all[|trace|].Fired? && forall m :: i < m < |trace| ==> !all[m].Recovered?;
      assert !NoDoubleFire(all);
    } else {
      forall i, j | 0 <= i < j < |all| && all[i].Fired? && all[j].Fired?
        ensures exists m :: i < m < j && all[m].Recovered?
      {
        if j < |trace| {
          var m :| i < m < j && trace[m].Recovered?;
          assert all[m].Recovered?;
        } else {
          var m := RecoveryAfter(trace, i);
          assert all[m].Recovered?;
        }
      }
    }
  }

  lemma {:induction false} LastFiring(trace: seq<Event>) returns (i: nat)
    requires StillFiring(trace)
    ensures i < |trace| && trace[i].Fired? && forall m :: i < m < |trace| ==> !trace[m].Recovered?
  {
    if Last(trace).Fired? {
      i := |trace| - 1;
    } else {
      i := LastFiring(Init(trace));
    }
  }

  lemma {:induction false} RecoveryAfter(trace: seq<Event>, i: nat) returns (m: nat)
    requires !StillFiring(trace) && i < |trace| && trace[i].Fired?
    ensures i < m < |trace| && trace[m].Recovered?
  {
    if Last(trace).Recovered? {
      m := |trace| - 1;
    } else {
      m := RecoveryAfter(Init(trace), i);
    }
  }

  lemma {:induction false} SingleFireLevel(trace: seq<Event>)
    requires NoDoubleFire(trace)
    ensures Level(trace) == if StillFiring(trace) then 1 else 0
  {
    if trace != [] {
      var before, e := Init(trace), Last(trace);
      assert trace == before + [e];
      assert NoDoubleFire(before) by {
        forall i, j | 0 <= i < j < |before| && before[i].Fired? && before[j].Fired?
          ensures exists m :: i < m < j && before[m].Recovered?
        {
          assert trace[i] == before[i] && trace[j] == before[j];
          var m :| i < m < j && trace[m].Recovered?;
          assert before[m].Recovered?;
        }
      }
      SingleFireLevel(before);
      DoubleFireSnoc(before, e);
    }
  }

  lemma PrefixSingleFire(trace: seq<Event>, more: seq<Event>)
    requires NoDoubleFire(trace + more)
    ensures NoDoubleFire(trace)
  {
    var all := trace + more;
    forall i, j | 0 <= i < j < |trace| && trace[i].Fired? && trace[j].Fired?
      ensures exists m :: i < m < j && trace[m].Recovered?
    {
      assert all[i] == trace[i] && all[j] == trace[j];
      var m :| i < m < j && all[m].Recovered?;
      assert trace[m].Recovered?;
    }
  }

  lemma {:induction false} RunEvents(s: System, steps: seq<Step>, end: System, id: int) returns (more: seq<Event>)
    requires Run(s, steps, end)
    ensures Trace(end.log, id) == Trace(s.log, id) + more
    decreases |steps|
  {
    hide Trace, Next, Enabled;
    if steps == [] {
      more := [];
    } else {
      var first := StepEvents(s, steps[0], id);
      var rest := RunEvents(Next(s, steps[0]), steps[1..], end, id);
      more := first + rest;
      ConcatAssociates(Trace(s.log, id), first, rest);
    }
  }

  /** At no point of the run does the rule have two unresolved entries. */
  ghost predicate AtMostOne(s: System, steps: seq<Step>, id: int)
    decreases |steps|
  {
    && Unresolved(s.history, id) <= 1
    && (steps != [] ==> Enabled(s, steps[0]) && AtMostOne(Next(s, steps[0]), steps[1..], id))
  }

  lemma {:induction false} AtMostOneIffFrom(s: System, steps: seq<Step>, end: System, id: int)
    requires Leveled(s, id) && NoDoubleFire(Trace(s.log, id)) && Run(s, steps, end)
    ensures AtMostOne(s, steps, id) <==> NoDoubleFire(Trace(end.log, id))
    decreases |steps|
  {
    SingleFireLevel(Trace(s.log, id));
    assert Unresolved(s.history, id) <= 1;
    if steps != [] {
      var next := Next(s, steps[0]);
      StepLeveled(s, steps[0], id);
      var first := StepEvents(s, steps[0], id);
      var rest := RunEvents(next, steps[1..], end, id);
      if NoDoubleFire(Trace(next.log, id)) {
        hide Leveled, NoDoubleFire, Next, Enabled, Trace, Level, Unresolved;
        AtMostOneIffFrom(next, steps[1..], end, id);
      } else {
        SecondFiring(Trace(s.log, id), first);
        if NoDoubleFire(Trace(end.log, id)) {
          PrefixSingleFire(Trace(next.log, id), rest);
        }
        hide Next, Enabled, Trace, Level, NoDoubleFire;
        assert Unresolved(next.history, id) == 2;
      }
    }
  }

  lemma SecondFiring(trace: seq<Event>, more: seq<Event>)
    requires NoDoubleFire(trace) && |more| <= 1 && !NoDoubleFire(trace + more)
    ensures Level(trace + more) == 2
  {
    assert trace + [] == trace;
    if more != [] {
      assert more == [more[0]];
      DoubleFireSnoc(trace, more[0]);
      SingleFireLevel(trace);
      LevelSnoc(trace, more[0]);
    }
  }

  /**
   * In every run, whatever overlaps: a rule that starts without past never has two unresolved entries exactly when
   * no firing of it follows a firing without a recovery between them.
   */
  lemma AtMostOneIff(s: System, steps: seq<Step>, end: System, id: int)
    requires Trace(s.log, id) == [] && Unresolved(s.history, id) == 0 && Run(s, steps, end)
    ensures AtMostOne(s, steps, id) <==> NoDoubleFire(Trace(end.log, id))
    ensures Unresolved(end.history, id) == Level(Trace(end.log, id))
  {
    assert Level([]) == 0 && Leveled(s, id);
    AtMostOneIffFrom(s, steps, end, id);
    RunLeveled(s, steps, end, id);
  }

  // ---- A breaker rule's state in every run ----

  /** What breaker rules come to in a step of the engine's loop: it can only rest them. */
  lemma LoopRestsBreakers(s: System, step: Step)
    requires Inv(s) && Enabled(s, step) && (step.Poll? || step.Measure?)
    ensures var s' := Next(s, step);
      && s'.inflight == s.inflight && s'.used == s.used
      && (s'.log == s.log || (step.Poll? && s'.log == s.log + [Rested(s.rules[step.i].id)]))
      && (forall r :: r in s'.rules && !Polled(r) ==>
            exists q :: q in s.rules && q.id == r.id && !Polled(q) && (q.state == Firing <==> r.state == Firing))
  {
    var s' := Next(s, step);
    if step.Measure? {
      MeasureJudges(s, step.m);
      var i, now := IndexOf(s.rules, s.sampled.value.id), s.(sampled := None);
      var r :| Judgeable(now, i, r) && r.id == s.sampled.value.id && s' == Judged(now, i, r, step.m);
      JudgedIds(now, i, r, step.m);
    } else {
      var r := s.rules[step.i];
      assert r in s.rules;
      if r.enabled && r.state != Resolved && Polled(r) && !r.kind.AbstentionRate? {
        JudgedIds(s, step.i, r, step.m);
      }
      OthersUnchanged(s.rules, step.i, s'.rules[step.i]);
    }
  }

  /** The rule is firing when it was last tripped; `tripped` says so. An identifier not yet used is not tripped. */
  ghost predicate TrippedIs(s: System, id: int, tripped: bool) {
    && (forall r :: r in s.rules && r.id == id && !Polled(r) ==> (r.state == Firing <==> tripped))
    && (id !in s.used ==> !tripped)
  }

  /** What the last breaker event that reached the rule said; `prior` when there was none. */
  ghost function LastTripped(s: System, steps: seq<Step>, id: int, prior: bool): bool
    decreases |steps|
  {
    if steps == [] || !Enabled(s, steps[0]) then prior
    else LastTripped(Next(s, steps[0]), steps[1..], id, NowTripped(s, steps[0], id, prior))
  }

  function NowTripped(s: System, step: Step, id: int, prior: bool): bool
    requires Enabled(s, step)
  {
    if step.CircuitEvent? && s.rules[step.i].id == id then step.tripped else prior
  }

  /** Where a run starts. */
  ghost predicate FiringNow(s: System, id: int) {
    exists r :: r in s.rules && r.id == id && !Polled(r) && r.state == Firing
  }

  lemma TrippedStart(s: System, id: int)
    requires IdsKnown(s)
    ensures TrippedIs(s, id, FiringNow(s, id))
  {
  }

  lemma TrippedStep(s: System, step: Step, id: int, prior: bool)
    requires Inv(s) && Enabled(s, step) && TrippedIs(s, id, prior)
    ensures TrippedIs(Next(s, step), id, NowTripped(s, step, id, prior))
  {
    var s' := Next(s, step);
    if step.Poll? || step.Measure? {
      LoopRestsBreakers(s, step);
      hide Inv, Next;
    } else if step.CircuitEvent? || step.Update? {
      assert s.rules[step.i] in s.rules;
      OthersUnchanged(s.rules, step.i, s'.rules[step.i]);
      hide Consistent;
    }
  }

  lemma {:induction false} TrippedRun(s: System, steps: seq<Step>, end: System, id: int, prior: bool)
    requires Inv(s) && TrippedIs(s, id, prior) && Run(s, steps, end)
    ensures TrippedIs(end, id, LastTripped(s, steps, id, prior))
    decreases |steps|
  {
    if steps != [] {
      StepKeeps(s, steps[0]);
      TrippedStep(s, steps[0], id, prior);
      hide Inv, TrippedIs, Enabled, Next, NowTripped;
      TrippedRun(Next(s, steps[0]), steps[1..], end, id, NowTripped(s, steps[0], id, prior));
    }
  }

  /** How many more times the events fire than recover. */
  function Excess(events: seq<Event>): int {
    if events == [] then 0
    else Excess(Init(events)) + match Last(events)
                                case Fired(_) => 1
                                case Recovered(_) => -1
                                case Rested(_) => 0
  }

  /** The most that any ending of the trace, the empty one included, fires beyond recovering. */
  ghost predicate LargestExcess(trace: seq<Event>, n: int) {
    && (forall k :: 0 <= k <= |trace| ==> Excess(trace[k..]) <= n)
    && (exists k :: 0 <= k <= |trace| && Excess(trace[k..]) == n)
  }

  lemma {:induction false} LevelIsLargestExcess(trace: seq<Event>)
    ensures LargestExcess(trace, Level(trace))
  {
    assert trace[|trace|..] == [];
    if trace != [] {
      var before, e := Init(trace), Last(trace);
      LevelIsLargestExcess(before);
      forall k | 0 <= k < |trace| ensures Excess(trace[k..]) == Excess(before[k..]) + Excess([e]) {
        assert Init(trace[k..]) == before[k..] && Init([e]) == [];
      }
      var k :| 0 <= k <= |before| && Excess(before[k..]) == Level(before);
      assert Excess(trace[if Level(before) + Excess([e]) < 0 then |trace| else k..]) == Level(trace);
    }
  }

  /**
   * The documented machine for breaker rules, in every run, whatever overlaps or is under way: the rule is firing
   * exactly when the last event that reached it tripped it, and its history agrees with that exactly when its
   * recorded events leave one entry or none accordingly, which is when the most any ending of them fires beyond
   * recovering is one or none.
   */
  lemma BreakerHistoryMatchesStateIff(s: System, steps: seq<Step>, end: System, r: Rule)
    requires Inv(s) && Leveled(s, r.id) && Run(s, steps, end)
    requires r in end.rules && !Polled(r)
    ensures r.state == Firing <==> LastTripped(s, steps, r.id, FiringNow(s, r.id))
    ensures var tripped := LastTripped(s, steps, r.id, FiringNow(s, r.id));
            var trace, left := Trace(end.log, r.id), if tripped then 1 else 0;
            && (Unresolved(end.history, r.id) == (if r.state == Firing then 1 else 0) <==> Level(trace) == left)
            && (Level(trace) == left <==> LargestExcess(trace, left))
  {
    TrippedStart(s, r.id);
    TrippedRun(s, steps, end, r.id, FiringNow(s, r.id));
    RunLeveled(s, steps, end, r.id);
    hide Inv, Run, Trace, Unresolved, Level, LastTripped;
    LevelIsLargestExcess(Trace(end.log, r.id));
  }

  // ---- Breaker events that do not overlap ----

  ghost predicate NoneFor(ps: seq<Pending>, id: int) {
    forall p :: p in ps ==> p.rule != id
  }

  /** At most one notification of the rule is under way. */
  ghost predicate OneFor(ps: seq<Pending>, id: int) {
    forall a, b :: 0 <= a < b < |ps| ==> ps[a].rule != id || ps[b].rule != id
  }

  lemma RemovedFor(ps: seq<Pending>, k: nat, id: int)
    requires k < |ps| && OneFor(ps, id)
    ensures OneFor(ps[..k] + ps[k + 1..], id)
    ensures ps[k].rule == id ==> NoneFor(ps[..k] + ps[k + 1..], id)
    ensures ps[k].rule != id ==> (NoneFor(ps[..k] + ps[k + 1..], id) <==> NoneFor(ps, id))
    ensures forall p :: p in ps[..k] + ps[k + 1..] ==> p in ps
  {
    var rest := ps[..k] + ps[k + 1..];
    assert forall a :: 0 <= a < |rest| ==> rest[a] == ps[if a < k then a else a + 1];
    assert forall a :: 0 <= a < |ps| && a != k ==> ps[a] in rest;
  }

  lemma AddedFor(ps: seq<Pending>, p: Pending, id: int)
    requires OneFor(ps, id) && (p.rule == id ==> NoneFor(ps, id))
    ensures OneFor(ps + [p], id)
    ensures NoneFor(ps + [p], id) <==> NoneFor(ps, id) && p.rule != id
    ensures forall q :: q in ps + [p] <==> q in ps || q == p
  {
    var all := ps + [p];
    assert p in all && forall a :: 0 <= a < |ps| ==> all[a] == ps[a] && ps[a] in all;
  }

  /** A breaker event reaches the rule only when the one before it has been recorded. */
  ghost predicate Orderly(s: System, steps: seq<Step>, id: int)
    decreases |steps|
  {
    steps == [] ||
    (&& Enabled(s, steps[0])
     && (steps[0].CircuitEvent? && s.rules[steps[0].i].id == id ==> NoneFor(s.inflight, id))
     && Orderly(Next(s, steps[0]), steps[1..], id))
  }

  /** The rule's state follows its last event, or the notification under way. */
  ghost predicate Follows(s: System, r: Rule) {
    && (NoneFor(s.inflight, r.id) ==> (r.state == Firing <==> StillFiring(Trace(s.log, r.id))))
    && (forall p :: p in s.inflight && p.rule == r.id ==> (r.state == Firing <==> p.firing))
  }

  ghost predicate FollowInv(s: System, id: int) {
    OneFor(s.inflight, id) && forall r :: r in s.rules && r.id == id && !Polled(r) ==> Follows(s, r)
  }

  lemma FollowLoop(s: System, step: Step, id: int)
    requires Inv(s) && FollowInv(s, id) && Enabled(s, step) && (step.Poll? || step.Measure?)
    ensures FollowInv(Next(s, step), id)
  {
    hide Inv, Next, Trace, StillFiring, Level, Polled, OneFor, NoneFor;
    var s' := Next(s, step);
    LoopRestsBreakers(s, step);
    if step.Poll? {
      TraceSnoc(s.log, Rested(s.rules[step.i].id), id);
      LevelSnoc(Trace(s.log, id), Rested(s.rules[step.i].id));
    }
    forall r | r in s'.rules && r.id == id && !Polled(r) ensures Follows(s', r) {
      var q :| q in s.rules && q.id == r.id && !Polled(q) && (q.state == Firing <==> r.state == Firing);
      assert Follows(s, q);
    }
  }

  lemma FollowEvent(s: System, i: nat, tripped: bool, id: int)
    requires Inv(s) && FollowInv(s, id) && Enabled(s, CircuitEvent(i, tripped))
    requires s.rules[i].id == id ==> NoneFor(s.inflight, id)
    ensures FollowInv(Next(s, CircuitEvent(i, tripped)), id)
  {
    var s' := Next(s, CircuitEvent(i, tripped));
    OthersUnchanged(s.rules, i, s'.rules[i]);
    AddedFor(s.inflight, Pending(s.rules[i].id, tripped), id);
    hide Inv, Trace, StillFiring, OneFor, NoneFor;
    forall r | r in s'.rules && r.id == id && !Polled(r) ensures Follows(s', r) {
      if r != s'.rules[i] {
        assert Follows(s, r);
      }
    }
  }

  lemma FollowDeliver(s: System, k: nat, sent: bool, now: int, id: int)
    requires FollowInv(s, id) && k < |s.inflight|
    ensures FollowInv(DeliverCircuit(s, k, sent, now), id)
  {
    hide Trace, StillFiring, Level, Record, OneFor, NoneFor;
    var s', p := DeliverCircuit(s, k, sent, now), s.inflight[k];
    TraceSnoc(s.log, EventOf(p), id);
    LevelSnoc(Trace(s.log, id), EventOf(p));
    RemovedFor(s.inflight, k, id);
    assert p in s.inflight;
    forall r | r in s'.rules && r.id == id && !Polled(r) ensures Follows(s', r) {
      assert Follows(s, r);
    }
  }

  lemma FollowOther(s: System, step: Step, id: int)
    requires Inv(s) && FollowInv(s, id) && Enabled(s, step)
    requires step.Deliver? || step.Create? || step.Update? || step.Delete?
    ensures FollowInv(Next(s, step), id)
  {
    var s' := Next(s, step);
    match step {
      case Deliver(_, _) => TraceSnoc(s.log, EventOf(s.pending.value), id);
      case Create(_, _, _) => UnknownIdHasNoPast(s.log, s.history, step.id);
      case Update(i, _, _) => OthersUnchanged(s.rules, i, s'.rules[i]);
      case _ =>
    }
    assert step.Update? ==> s.rules[step.i] in s.rules;
    hide Trace, Consistent, Record;
    forall r | r in s'.rules && r.id == id && !Polled(r) ensures Follows(s', r) {
      assert r in s.rules ==> Follows(s, r);
      assert step.Update? && s.rules[step.i].id == id ==> Follows(s, s.rules[step.i]);
    }
  }

  lemma {:induction false} FollowRun(s: System, steps: seq<Step>, end: System, id: int)
    requires Inv(s) && FollowInv(s, id) && Run(s, steps, end) && Orderly(s, steps, id)
    ensures FollowInv(end, id)
    decreases |steps|
  {
    if steps != [] {
      StepKeeps(s, steps[0]);
      match steps[0] {
        case Poll(_, _) => FollowLoop(s, steps[0], id);
        case Measure(_) => FollowLoop(s, steps[0], id);
        case CircuitEvent(i, tripped) => FollowEvent(s, i, tripped, id);
        case CircuitDeliver(k, sent, now) => FollowDeliver(s, k, sent, now, id);
        case _ => FollowOther(s, steps[0], id);
      }
      hide Inv, FollowInv, Enabled, Next;
      FollowRun(Next(s, steps[0]), steps[1..], end, id);
    }
  }

  /**
   * When its notifications do not overlap, and while none is under way, the rule's state is what its recorded events
   * say last; then its history agrees with it exactly when these leave as many entries, and without a double firing
   * they do.
   */
  lemma OrderlyBreakerHistory(s: System, steps: seq<Step>, end: System, r: Rule)
    requires Inv(s) && FollowInv(s, r.id) && Leveled(s, r.id) && Run(s, steps, end) && Orderly(s, steps, r.id)
    requires r in end.rules && !Polled(r) && NoneFor(end.inflight, r.id)
    ensures var trace := Trace(end.log, r.id);
            && (r.state == Firing <==> StillFiring(trace))
            && (Unresolved(end.history, r.id) == (if r.state == Firing then 1 else 0)
                <==> Level(trace) == if StillFiring(trace) then 1 else 0)
            && (NoDoubleFire(trace) ==> Unresolved(end.history, r.id) == if r.state == Firing then 1 else 0)
  {
    BreakerHistoryMatchesStateIff(s, steps, end, r);
    FollowRun(s, steps, end, r.id);
    assert Follows(end, r);
    hide Inv, Run, Trace, Unresolved, Level, LastTripped, NoDoubleFire, FollowInv, Orderly, StillFiring;
    if NoDoubleFire(Trace(end.log, r.id)) {
      SingleFireLevel(Trace(end.log, r.id));
    }
  }

  /** A rule created in the run starts out as the theorems ask. */
  lemma FreshRuleFollows(s: System, id: int)
    requires Inv(s) && id !in s.used
    ensures !FiringNow(s, id) && FollowInv(s, id)
    ensures Leveled(s, id) && Trace(s.log, id) == [] && Unresolved(s.history, id) == 0
  {
    UnknownIdHasNoPast(s.log, s.history, id);
    assert Level([]) == 0;
  }

  /** A double firing does happen: nothing keeps a breaker rule from firing again while it is firing. */
  lemma CircuitRuleFiresWhileFiring(s: System, i: nat, now: int)
    requires i < |s.rules| && s.rules[i].enabled && s.rules[i].kind.CircuitBreaker? && s.inflight == []
    ensures var once := Next(Next(s, CircuitEvent(i, true)), CircuitDeliver(0, true, now));
            var twice := Next(Next(once, CircuitEvent(i, true)), CircuitDeliver(0, true, now));
            && once.inflight == [] && once.rules[i].state == Firing && twice.rules[i].state == Firing
            && Unresolved(twice.history, s.rules[i].id) == Unresolved(s.history, s.rules[i].id) + 2
  {
    var p := Pending(s.rules[i].id, true);
    assert [] + [p] == [p] && [p][..0] + [p][1..] == [];
    RecordCounts(s.history, p, true, now, p.rule);
    RecordCounts(Record(s.history, p, true, now), p, true, now, p.rule);
  }

  /**
   * And so does the overlap: when a breaker opens and closes while the first notification is under way, and the
   * second one gets through first, the rule is resolved with an entry that stays unresolved.
   */
  lemma OverlapLeavesEntry(s: System, i: nat, now: int)
    requires i < |s.rules| && s.rules[i].enabled && s.rules[i].kind.CircuitBreaker? && s.inflight == []
    requires Unresolved(s.history, s.rules[i].id) == 0
    ensures var both := Next(Next(s, CircuitEvent(i, true)), CircuitEvent(i, false));
            && |both.inflight| == 2
            && var end := Next(Next(both, CircuitDeliver(1, true, now)), CircuitDeliver(0, true, now));
               end.inflight == [] && end.rules[i].state == Resolved && Unresolved(end.history, s.rules[i].id) == 1
  {
    var id := s.rules[i].id;
    var opening, closing := Pending(id, true), Pending(id, false);
    var both := Next(Next(s, CircuitEvent(i, true)), CircuitEvent(i, false));
    assert both.inflight == [opening, closing];
    var closed := Next(both, CircuitDeliver(1, true, now));
    assert closed.inflight == [opening];
    RecordCounts(s.history, closing, true, now, id);
    RecordCounts(closed.history, opening, true, now, id);
    assert [opening][..0] + [opening][1..] == [];
  }

  /** The general theorem at that overlap: the last event did not trip the rule, yet the events leave an entry. */
  lemma OverlapDisagrees(s: System, i: nat, now: int)
    requires Inv(s) && i < |s.rules| && s.rules[i].enabled && s.rules[i].kind.CircuitBreaker? && s.inflight == []
    requires Leveled(s, s.rules[i].id) && Unresolved(s.history, s.rules[i].id) == 0
    ensures var id, steps := s.rules[i].id, Overlapping(i, now);
            exists end, r :: && Run(s, steps, end) && r in end.rules && r.id == id && NoneFor(end.inflight, id)
                             && !LastTripped(s, steps, id, FiringNow(s, id)) && Level(Trace(end.log, id)) == 1
                             && r.state != Firing && Unresolved(end.history, id) == 1
  {
    hide Inv, Trace, Unresolved, Level, Record, LastTripped, FiringNow;
    var id, steps := s.rules[i].id, Overlapping(i, now);
    var both := Next(Next(s, steps[0]), steps[1]);
    OverlapLeavesEntry(s, i, now);
    var closed := Next(both, steps[2]);
    var end := Next(closed, steps[3]);
    var r := end.rules[i];
    assert Run(end, steps[4..], end);
    assert Run(closed, steps[3..], end);
    assert Run(both, steps[2..], end);
    assert Run(Next(s, steps[0]), steps[1..], end);
    assert Run(s, steps, end);
    assert end.rules[i].id == id;
    assert r in end.rules && NoneFor(end.inflight, id);
    BreakerHistoryMatchesStateIff(s, steps, end, r);
    RunLeveled(s, steps, end, id);
  }

  function Overlapping(i: nat, now: int): seq<Step> {
    [CircuitEvent(i, true), CircuitEvent(i, false), CircuitDeliver(1, true, now), CircuitDeliver(0, true, now)]
  }

  /** For polled rules the absence of cancellation is needed: a lost notification leaves a firing rule without entry. */
  lemma CancellationLosesEntry(s: System, i: nat, total: int)
    requires Inv(s) && !Waiting(s) && i < |s.rules| && s.rules[i].enabled
    requires s.rules[i].kind.Budget? && s.rules[i].state == Idle && total >= s.rules[i].kind.thresholdTokens
    ensures var s' := Next(s, Poll(i, Tokens(total))).(pending := None);
            s'.rules[i].state == Firing && Unresolved(s'.history, s.rules[i].id) == 0
  {
    assert Consistent(s, s.rules[i]);
  }
}

/** The engine over the two stores. */
module AlertEngines {
  import opened Common
  import opened AlertRules

  /** What the engine meets when it comes to a rule: the measurement, and whether the notifier succeeds. */
  datatype Reading = Reading(m: Measurement, sent: bool)

  /** Polling a rule, with its job counts at hand, and seeing its notification through. */
  function Evaluated(s: System, i: nat, reading: Reading, now: int): System
    requires i < |s.rules| && !Waiting(s)
  {
    var r := s.rules[i];
    var polled := if r.enabled && r.state != Resolved then Judged(s, i, r, reading.m) else PollRule(s, i, reading.m);
    if polled.pending.Some? then DeliverPending(polled, reading.sent, now) else polled
  }

  function CycleTo(s: System, readings: seq<Reading>, now: int, k: nat): (s': System)
    requires k <= |s.rules| == |readings| && !Waiting(s)
    ensures |s'.rules| == |s.rules| && !Waiting(s')
  {
    if k == 0 then s else Evaluated(CycleTo(s, readings, now, k - 1), k - 1, readings[k - 1], now)
  }

  lemma EvaluatedKeeps(s: System, i: nat, reading: Reading, now: int)
    requires i < |s.rules| && !Waiting(s) && Inv(s)
    ensures Inv(Evaluated(s, i, reading, now))
  {
    var r := s.rules[i];
    var polled := PollRule(s, i, reading.m);
    StepKeeps(s, Poll(i, reading.m));
    if r.enabled && r.state != Resolved && r.kind.AbstentionRate? {
      StepKeeps(polled, Measure(reading.m));
      SampledAtOnce(s, i, reading.m);
      polled := MeasureRule(polled, reading.m);
    }
    if polled.pending.Some? {
      StepKeeps(polled, Deliver(reading.sent, now));
    }
  }

  lemma OneTurn(s: System, other: System, j: nat, reading: Reading, now: int, i: nat)
    requires j < |s.rules| == |other.rules| && i < |s.rules| && !Waiting(s) && !Waiting(other)
    ensures |Evaluated(s, j, reading, now).rules| == |s.rules|
    ensures |Evaluated(other, j, reading, now).rules| == |s.rules|
    ensures i != j ==> Evaluated(s, j, reading, now).rules[i] == s.rules[i]
    ensures i == j && s.rules[i] == other.rules[i] ==>
              Evaluated(s, j, reading, now).rules[i] == Evaluated(other, j, reading, now).rules[i]
  {
    hide Crossed, Record;
  }

  /** Every rule has its turn once, and what a cycle makes of it is what that turn does, whatever the others read. */
  lemma {:induction false} CycleTakesTurns(s: System, readings: seq<Reading>, now: int, k: nat, i: nat)
    requires k <= |s.rules| == |readings| && !Waiting(s) && i < |s.rules|
    ensures CycleTo(s, readings, now, k).rules[i]
         == if i < k then Evaluated(s, i, readings[i], now).rules[i] else s.rules[i]
  {
    if k > 0 {
      CycleTakesTurns(s, readings, now, k - 1, i);
      OneTurn(CycleTo(s, readings, now, k - 1), s, k - 1, readings[k - 1], now, i);
      hide Evaluated, Waiting;
    }
  }

  /** A whole cycle is made of steps of the state machine, and keeps its invariant. */
  lemma {:induction false} CycleKeeps(s: System, readings: seq<Reading>, now: int, k: nat)
    requires k <= |s.rules| == |readings| && !Waiting(s) && Inv(s)
    ensures Inv(CycleTo(s, readings, now, k))
  {
    hide Inv, PollRule, Judged, DeliverPending, Evaluated;
    if k > 0 {
      CycleKeeps(s, readings, now, k - 1);
      EvaluatedKeeps(CycleTo(s, readings, now, k - 1), k - 1, readings[k - 1], now);
    }
  }

  class AlertEngine {
    var rules: seq<Rule>
    var history: seq<Entry>
    ghost var inflight: seq<Pending>
    ghost var log: seq<Event>
    ghost var used: set<int>

    ghost function View(): System
      reads this
    {
      System(rules, history, None, None, inflight, log, used)
    }

    /** Writes the history; for a recovery it looks for the rule's latest unresolved entry from the end. */
    method EmitNotification(p: Pending, sent: bool, now: int)
      modifies this`history, this`log
      ensures history == Record(old(history), p, sent, now) && log == old(log) + [EventOf(p)]
    {
      log := log + [EventOf(p)];
      if p.firing {
        history := history + [Entry(p.rule, now, None, sent)];
        return;
      }
      var k := |history|;
      assert history[..k] == history;
      while k > 0
        invariant 0 <= k <= |history|
        invariant history == old(history)
        invariant ResolveLatest(history, p.rule, now) == ResolveLatest(history[..k], p.rule, now) + history[k..]
      {
        assert Init(history[..k]) == history[..k - 1] && Last(history[..k]) == history[k - 1];
        if history[k - 1].rule == p.rule && history[k - 1].resolvedAt.None? {
          history := history[k - 1 := history[k - 1].(resolvedAt := Some(now))];
          return;
        }
        k := k - 1;
      }
    }

    method EvaluateRule(i: nat, reading: Reading, now: int)
      requires i < |rules|
      modifies this`rules, this`history, this`log
      ensures View() == Evaluated(old(View()), i, reading, now)
    {
      var rule := rules[i];
      if !rule.enabled {
        return;
      }
      if rule.state == Resolved {
        rules := rules[i := rule.(state := Idle)];
        log := log + [Rested(rule.id)];
        return;
      }
      var crossed := Crossed(rule.kind, reading.m);
      if crossed.Some? {
        if crossed.value {
          if rule.state != Firing {
            rules := rules[i := rule.(state := Firing)];
            EmitNotification(Pending(rule.id, true), reading.sent, now);
          }
        } else if rule.state == Firing {
          rules := rules[i := rule.(state := Resolved)];
          EmitNotification(Pending(rule.id, false), reading.sent, now);
        }
      }
    }

    /** One evaluation cycle; it leaves state, events and history of every polled rule in agreement. */
    method EvaluateAllRules(readings: seq<Reading>, now: int)
      requires |readings| == |rules|
      modifies this`rules, this`history, this`log
      ensures View() == CycleTo(old(View()), readings, now, |old(rules)|)
      ensures Inv(old(View())) ==> Inv(View())
    {
      ghost var before := View();
      for i := 0 to |rules|
        invariant |rules| == |before.rules|
        invariant View() == CycleTo(before, readings, now, i)
      {
        EvaluateRule(i, readings[i], now);
      }
      if Inv(before) {
        CycleKeeps(before, readings, now, |before.rules|);
      }
    }
  }
}

/** Who enqueues notifications: the evaluation of alert rules, which opens, fires and resolves the events (service/alert.go). */
module AlertEvents {
  import opened Prelude
  import Delivery = AlertDelivery

  datatype Status = Pending | Firing | Resolved
  datatype Level = Info | Warning | Critical

  datatype Event = Event(key: int, level: Level, status: Status, count: int)

  /** The events and, for each rule and target, its active one: the unresolved event that holds the active key. */
  datatype Alerts = Alerts(events: map<int, Event>, active: map<int, int>, nextId: int)

  datatype Rule = Rule(level: Level, forTimes: int)

  /** What was observed: nothing usable, a target that is no longer in scope, or a value and the rule it breaks. */
  datatype Sample = Unknown | OutOfScope | Value(broken: Option<Rule>)

  /** `recovers` when a resolution counts as a recovery, `enabled` when notifications are switched on. */
  datatype Evaluation = Evaluation(key: int, sample: Sample, recovers: bool, enabled: bool, now: int)

  function Notice(id: int, level: Level, kind: Delivery.Kind, e: Evaluation): seq<Delivery.Action> {
    if level.Info? || !e.enabled then [] else [Delivery.Enqueueing(Some(id), kind, e.now)]
  }

  /** Resolving an event gives up its active key, so that no later evaluation finds it. */
  function Resolve(s: Alerts, key: int): Alerts
    requires key in s.active && s.active[key] in s.events
  {
    var id := s.active[key];
    s.(events := s.events[id := s.events[id].(status := Status.Resolved)], active := s.active - {key})
  }

  /** An event that fired and recovers is reported as resolved. */
  function Recovery(s: Alerts, e: Evaluation): seq<Delivery.Action>
    requires e.key in s.active && s.active[e.key] in s.events
  {
    var id := s.active[e.key];
    if s.events[id].status.Firing? && e.recovers then Notice(id, s.events[id].level, Delivery.Kind.Resolved, e) else []
  }

  /** The same rule is still broken: a pending event counts the observation and fires when it is the last one needed. */
  function Observe(s: Alerts, id: int, rule: Rule, e: Evaluation): (Alerts, seq<Delivery.Action>)
    requires id in s.events
  {
    var event := s.events[id];
    if !event.status.Pending? then (s, [])
    else if event.count + 1 >= rule.forTimes then
      (s.(events := s.events[id := event.(status := Status.Firing, count := event.count + 1)]), Notice(id, event.level, Delivery.Kind.Firing, e))
    else (s.(events := s.events[id := event.(count := event.count + 1)]), [])
  }

  /** A rule is newly broken: a new event, which fires at once if one observation is enough. */
  function Create(s: Alerts, rule: Rule, e: Evaluation): (Alerts, seq<Delivery.Action>) {
    var fires := rule.forTimes <= 1;
    var event := Event(e.key, rule.level, if fires then Status.Firing else Status.Pending, 1);
    (Alerts(s.events[s.nextId := event], s.active[e.key := s.nextId], s.nextId + 1),
     if fires then Notice(s.nextId, rule.level, Delivery.Kind.Firing, e) else [])
  }

  /** One evaluation transaction: the new alerts and what it enqueues. */
  function Evaluate(s: Alerts, e: Evaluation): (Alerts, seq<Delivery.Action>) {
    var known := e.key in s.active && s.active[e.key] in s.events;
    match e.sample
    case Unknown => (s, [])
    case OutOfScope => if known then (Resolve(s, e.key), []) else (s, [])
    case Value(None) => if known then (Resolve(s, e.key), Recovery(s, e)) else (s, [])
    case Value(Some(rule)) =>
      if !known then Create(s, rule, e)
      else if s.events[s.active[e.key]].level == rule.level then Observe(s, s.active[e.key], rule, e)
      else
        var created := Create(Resolve(s, e.key), rule, e);
        (created.0, Recovery(s, e) + created.1)
  }

  // -------------------------------------------------------------- evaluations and delivery workers together

  datatype Move = Evaluating(evaluation: Evaluation) | Working(action: Delivery.Action)

  datatype World = World(alerts: Alerts, actions: seq<Delivery.Action>)

  const Quiet := World(Alerts(map[], map[], 1), [])

  /** Workers and operators enqueue nothing for an event, only test messages. */
  predicate ForNoEvent(a: Delivery.Action) {
    !a.Enqueueing? || a.kind.Test?
  }

  function Next(w: World, m: Move): World {
    match m
    case Evaluating(e) =>
      var done := Evaluate(w.alerts, e);
      World(done.0, w.actions + done.1)
    case Working(a) => World(w.alerts, w.actions + [a])
  }

  function Run(moves: seq<Move>, n: nat := |moves|): World
    requires n <= |moves|
  {
    if n == 0 then Quiet else Next(Run(moves, n - 1), moves[n - 1])
  }

  /** All that is enqueued for events comes from evaluations. */
  ghost predicate OnlyEvaluations(moves: seq<Move>) {
    forall i :: 0 <= i < |moves| && moves[i].Working? ==> ForNoEvent(moves[i].action)
  }

  /** The active event of a key is the one unresolved event of that key, and ids are not reused. */
  ghost predicate Keyed(s: Alerts) {
    && (forall id :: id in s.events ==> 0 < id < s.nextId)
    && s.nextId > 0
    && (forall key :: key in s.active ==>
          s.active[key] in s.events && s.events[s.active[key]].key == key && !s.events[s.active[key]].status.Resolved?)
    && (forall id :: id in s.events && !s.events[id].status.Resolved? ==> s.events[id].key in s.active && s.active[s.events[id].key] == id)
  }

  /** A firing notification belongs to an event that fired, a resolved one to an event that is over. */
  ghost predicate Justified(s: Alerts, a: Delivery.Action) {
    a.Enqueueing? && !a.kind.Test? ==>
      && a.event.Some? && a.event.value in s.events
      && (a.kind.Firing? ==> !s.events[a.event.value].status.Pending?)
      && (a.kind.Resolved? ==> s.events[a.event.value].status.Resolved?)
  }

  /** What a transaction enqueues fits the events before and after it. */
  ghost predicate Fits(s: Alerts, t: Alerts, added: seq<Delivery.Action>) {
    && (forall i :: 0 <= i < |added| ==> Justified(t, added[i]))
    && (forall i :: 0 <= i < |added| && added[i].Enqueueing? && added[i].kind.Firing? ==>
          added[i].event.Some? && (added[i].event.value in s.events ==> !s.events[added[i].event.value].status.Resolved?))
    && Delivery.FiringFirst(added)
  }

  /** Events only move on: from pending to firing to resolved. */
  ghost predicate MovesOn(s: Alerts, t: Alerts) {
    forall id :: id in s.events ==>
      && id in t.events
      && (s.events[id].status.Resolved? ==> t.events[id].status.Resolved?)
      && (!s.events[id].status.Pending? ==> !t.events[id].status.Pending?)
  }

  lemma ResolvingFits(s: Alerts, e: Evaluation)
    requires Keyed(s) && e.key in s.active
    ensures var t := Resolve(s, e.key);
            Keyed(t) && MovesOn(s, t) && t.nextId == s.nextId && e.key !in t.active && Fits(s, t, Recovery(s, e)) && Fits(s, t, [])
  {
  }

  lemma CreationFits(s: Alerts, rule: Rule, e: Evaluation)
    requires Keyed(s) && e.key !in s.active
    ensures var done := Create(s, rule, e); Keyed(done.0) && MovesOn(s, done.0) && Fits(s, done.0, done.1)
  {
  }

  lemma ObservationFits(s: Alerts, rule: Rule, e: Evaluation)
    requires Keyed(s) && e.key in s.active
    ensures var done := Observe(s, s.active[e.key], rule, e); Keyed(done.0) && MovesOn(s, done.0) && Fits(s, done.0, done.1)
  {
  }

  lemma StaysJustified(s: Alerts, t: Alerts, a: Delivery.Action)
    requires Justified(s, a) && MovesOn(s, t)
    ensures Justified(t, a)
  {
    if a.Enqueueing? && !a.kind.Test? {
      var id := a.event.value;
      assert id in s.events && id in t.events;
    }
  }

  /** What two consecutive changes enqueue fits them together. */
  lemma FitsTogether(s: Alerts, t: Alerts, u: Alerts, first: seq<Delivery.Action>, second: seq<Delivery.Action>)
    requires Keyed(s) && Keyed(t) && Keyed(u) && MovesOn(s, t) && MovesOn(t, u) && Fits(s, t, first) && Fits(t, u, second)
    ensures MovesOn(s, u) && Fits(s, u, first + second)
  {
    forall i | 0 <= i < |first + second| ensures Justified(u, (first + second)[i]) {
      if i < |first| {
        assert (first + second)[i] == first[i];
        StaysJustified(t, u, first[i]);
      } else {
        assert (first + second)[i] == second[i - |first|];
      }
    }
    forall j | 0 <= j < |second| && second[j].Enqueueing? && second[j].kind.Firing? && second[j].event.value in s.events
      ensures !s.events[second[j].event.value].status.Resolved?
    {
      var id := second[j].event.value;
      assert id in s.events ==> id in t.events;
    }
    forall i, j | 0 <= i < |first| && 0 <= j < |second| && first[i].Enqueueing? && second[j].Enqueueing? && first[i].kind.Resolved? && second[j].kind.Firing?
      ensures first[i].event != second[j].event
    {
      assert Justified(t, first[i]);
    }
  }

  lemma EvaluationFits(s: Alerts, e: Evaluation)
    requires Keyed(s)
    ensures var done := Evaluate(s, e); Keyed(done.0) && MovesOn(s, done.0) && Fits(s, done.0, done.1)
  {
    assert MovesOn(s, s) && Fits(s, s, []);
    if e.key in s.active {
      ResolvingFits(s, e);
      if e.sample.Value? && e.sample.broken.Some? {
        var rule, t := e.sample.broken.value, Resolve(s, e.key);
        ObservationFits(s, rule, e);
        CreationFits(t, rule, e);
        hide Keyed, MovesOn, Fits, Resolve, Create, Observe, Recovery;
        FitsTogether(s, t, Create(t, rule, e).0, Recovery(s, e), Create(t, rule, e).1);
      }
    } else if e.sample.Value? && e.sample.broken.Some? {
      CreationFits(s, e.sample.broken.value, e);
    }
  }

  ghost predicate Ok(w: World) {
    && Keyed(w.alerts) && Delivery.FiringFirst(w.actions)
    && forall i :: 0 <= i < |w.actions| ==> Justified(w.alerts, w.actions[i])
  }

  lemma NextKeepsOrder(w: World, m: Move)
    requires Ok(w) && (m.Working? ==> ForNoEvent(m.action))
    ensures Ok(Next(w, m))
  {
    var added := match m case Evaluating(e) => Evaluate(w.alerts, e).1 case Working(a) => [a];
    var next := Next(w, m);
    if m.Evaluating? { EvaluationFits(w.alerts, m.evaluation); }
    assert Fits(w.alerts, next.alerts, added) && MovesOn(w.alerts, next.alerts);
    hide Evaluate, Next;
    OkAfter(w, next, added);
  }

  lemma OkAfter(w: World, next: World, added: seq<Delivery.Action>)
    requires Ok(w) && next.actions == w.actions + added && Keyed(next.alerts)
    requires MovesOn(w.alerts, next.alerts) && Fits(w.alerts, next.alerts, added)
    ensures Ok(next)
  {
    hide Keyed;
    forall i | 0 <= i < |next.actions| ensures Justified(next.alerts, next.actions[i]) {
      if i < |w.actions| {
        assert next.actions[i] == w.actions[i];
        StaysJustified(w.alerts, next.alerts, w.actions[i]);
      } else {
        assert next.actions[i] == added[i - |w.actions|];
      }
    }
    forall i, j | 0 <= i < |w.actions| && 0 <= j < |added| && w.actions[i].Enqueueing? && added[j].Enqueueing? && w.actions[i].kind.Resolved? && added[j].kind.Firing?
      ensures w.actions[i].event != added[j].event
    {
      assert Justified(w.alerts, w.actions[i]);
    }
    forall i, j | 0 <= i < j < |next.actions| && next.actions[i].Enqueueing? && next.actions[j].Enqueueing?
                  && next.actions[i].kind.Resolved? && next.actions[j].kind.Firing?
      ensures next.actions[i].event != next.actions[j].event
    {
      if |w.actions| <= i {
        assert added[i - |w.actions|] == next.actions[i] && added[j - |w.actions|] == next.actions[j];
      }
    }
  }

  /** Evaluations enqueue no event's firing notification after its resolved one. */
  lemma {:induction false} EvaluationsEnqueueFiringFirst(moves: seq<Move>, n: nat)
    requires OnlyEvaluations(moves) && n <= |moves|
    ensures Ok(Run(moves, n)) && Delivery.FiringFirst(Run(moves, n).actions)
  {
    if n > 0 {
      EvaluationsEnqueueFiringFirst(moves, n - 1);
      NextKeepsOrder(Run(moves, n - 1), moves[n - 1]);
    }
  }

  /** Whatever is evaluated, claimed, reported, disabled or exhausted in whatever order: no resolved notification is
      handed out before the firing one of its event is over. */
  lemma NotificationsArriveInOrder(moves: seq<Move>, n: nat, f: int, r: int)
    requires OnlyEvaluations(moves) && n <= |moves|
    ensures var rows := Delivery.Play(Run(moves, n).actions).rows;
            f in rows && r in rows && rows[r].kind.Resolved? && Delivery.Same(rows[f], rows[r].event, Delivery.Kind.Firing) && Delivery.Begun(rows[r]) ==>
              !rows[f].status.Pending?
  {
    EvaluationsEnqueueFiringFirst(moves, n);
    var actions := Run(moves, n).actions;
    var rows := Delivery.Play(actions).rows;
    if f in rows && r in rows && rows[r].kind.Resolved? && Delivery.Same(rows[f], rows[r].event, Delivery.Kind.Firing) {
      Delivery.FiringFirstMeansInOrder(actions, |actions|, f, r);
    }
  }
}

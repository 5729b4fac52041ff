/** Node-local provider health: a cooldown map, its operations over whole traces, and the linearizability
    of `clear`, which looks under one lock and removes under another. */
module Health {
  import opened Common

  type Provider = Bytes
  type Cooldowns = map<Provider, nat>

  const MAX_U64: nat := 0xFFFF_FFFF_FFFF_FFFF

  predicate Down(m: Cooldowns, p: Provider, now: nat) { p in m && now < m[p] }

  // ---- The table --------------------------------------------------------------------------------

  class HealthTable {
    var cooldownUntil: Cooldowns
    ghost var calls: seq<Call>

    /** The table is what its history leaves. */
    ghost predicate Valid()
      reads this
    {
      cooldownUntil == Replay(calls)
    }

    constructor ()
      ensures Valid() && calls == [] && cooldownUntil == map[]
    {
      cooldownUntil, calls := map[], [];
    }

    method Penalize(p: Provider, now: nat, cooldown: nat)
      requires Valid() && now + cooldown <= MAX_U64
      modifies this
      ensures Valid() && calls == old(calls) + [Call.Penalize(p, now, cooldown)]
      ensures cooldownUntil == old(cooldownUntil)[p := now + cooldown]
    {
      ReplayNext(calls, Call.Penalize(p, now, cooldown));
      cooldownUntil := cooldownUntil[p := now + cooldown];
      calls := calls + [Call.Penalize(p, now, cooldown)];
    }

    method IsDown(p: Provider, now: nat) returns (down: bool)
      requires Valid()
      ensures down <==> InCooldown(calls, p, now)
    {
      down := p in cooldownUntil && now < cooldownUntil[p];
      ReplayTells(calls, p, now);
    }

    method Clear(p: Provider)
      requires Valid()
      modifies this
      ensures Valid() && calls == old(calls) + [Call.Clear(p)]
      ensures cooldownUntil == old(cooldownUntil) - {p}
    {
      ReplayNext(calls, Call.Clear(p));
      calls := calls + [Call.Clear(p)];
      if p !in cooldownUntil {
        assert cooldownUntil - {p} == cooldownUntil;
        return;
      }
      cooldownUntil := cooldownUntil - {p};
    }

    /** Every provider whose last update is a penalty, once, in some order, with its state. */
    method Snapshot(now: nat) returns (r: seq<(Provider, bool)>)
      requires Valid()
      ensures |r| == |cooldownUntil|
      ensures forall p, down :: (p, down) in r <==> Penalized(calls, p) && down == InCooldown(calls, p, now)
    {
      r := [];
      var left := cooldownUntil.Keys;
      while left != {}
        invariant left <= cooldownUntil.Keys && |r| + |left| == |cooldownUntil.Keys|
        invariant forall p, down ::
                    (p, down) in r <==> p in cooldownUntil && p !in left && down == Down(cooldownUntil, p, now)
        decreases left
      {
        var p :| p in left;
        r := r + [(p, now < cooldownUntil[p])];
        left := left - {p};
      }
      forall p, down ensures (p, down) in r <==> Penalized(calls, p) && down == InCooldown(calls, p, now) {
        ReplayTells(calls, p, now);
      }
    }
  }

  // ---- Whole traces -----------------------------------------------------------------------------

  type Thread = nat

  datatype Call = Penalize(provider: Provider, now: nat, cooldown: nat) | Clear(provider: Provider)
                | IsDown(provider: Provider, now: nat) | Snapshot(now: nat)

  datatype Answer = Unit | Bool(down: bool) | All(states: map<Provider, bool>)

  /** The specification: each operation at once. */
  function Atomic(m: Cooldowns, call: Call): (Cooldowns, Answer) {
    match call
    case Penalize(p, now, cooldown) => (m[p := now + cooldown], Unit)
    case Clear(p) => (m - {p}, Unit)
    case IsDown(p, now) => (m, Bool(Down(m, p, now)))
    case Snapshot(now) => (m, All(map p | p in m :: now < m[p]))
  }

  /** The table after a history of operations. */
  function Replay(calls: seq<Call>): Cooldowns {
    if calls == [] then map[] else Atomic(Replay(calls[..|calls| - 1]), calls[|calls| - 1]).0
  }

  predicate Updates(call: Call, p: Provider) { (call.Penalize? || call.Clear?) && call.provider == p }

  /** Call `k` is the last of the history that updates the provider, and it is a penalty. */
  ghost predicate LastPenalty(calls: seq<Call>, k: nat, p: Provider) {
    && k < |calls| && calls[k].Penalize? && calls[k].provider == p
    && forall j :: k < j < |calls| ==> !Updates(calls[j], p)
  }

  ghost predicate Penalized(calls: seq<Call>, p: Provider) { exists k: nat :: LastPenalty(calls, k, p) }

  ghost predicate InCooldown(calls: seq<Call>, p: Provider, now: nat) {
    exists k: nat :: LastPenalty(calls, k, p) && now < calls[k].now + calls[k].cooldown
  }

  /** One more call decides for the provider it updates, and for no other. */
  lemma LastPenaltyNext(calls: seq<Call>, call: Call, k: nat, p: Provider)
    ensures LastPenalty(calls + [call], k, p)
            <==> if Updates(call, p) then call.Penalize? && k == |calls| else LastPenalty(calls, k, p)
  {
    var all := calls + [call];
    assert all[|calls|] == call && forall j :: 0 <= j < |calls| ==> all[j] == calls[j];
  }

  lemma CooldownNext(calls: seq<Call>, call: Call, p: Provider, now: nat)
    ensures Penalized(calls + [call], p) <==> if Updates(call, p) then call.Penalize? else Penalized(calls, p)
    ensures InCooldown(calls + [call], p, now)
            <==> if Updates(call, p) then call.Penalize? && now < call.now + call.cooldown
                 else InCooldown(calls, p, now)
  {
    var all := calls + [call];
    forall k: nat ensures LastPenalty(all, k, p)
                          <==> if Updates(call, p) then call.Penalize? && k == |calls| else LastPenalty(calls, k, p) {
      LastPenaltyNext(calls, call, k, p);
    }
    if Updates(call, p) {
      assert call.Penalize? ==> LastPenalty(all, |calls|, p);
    } else {
      assert forall k: nat :: LastPenalty(calls, k, p) <==> LastPenalty(all, k, p);
      assert forall k: nat :: LastPenalty(calls, k, p) ==> all[k] == calls[k];
    }
  }

  /** The last operation on a provider decides, over every history. */
  lemma {:induction false} ReplayTells(calls: seq<Call>, p: Provider, now: nat)
    ensures p in Replay(calls) <==> Penalized(calls, p)
    ensures Down(Replay(calls), p, now) <==> InCooldown(calls, p, now)
    decreases |calls|
  {
    if calls != [] {
      var init, last := calls[..|calls| - 1], calls[|calls| - 1];
      ReplayTells(init, p, now);
      CooldownNext(init, last, p, now);
      assert calls == init + [last];
    }
  }

  lemma ReplayNext(calls: seq<Call>, call: Call)
    ensures Replay(calls + [call]) == Atomic(Replay(calls), call).0
  {
    assert (calls + [call])[..|calls|] == calls;
  }

  /** The operations that update one provider. */
  function On(calls: seq<Call>, p: Provider): seq<Call> {
    if calls == [] then []
    else On(calls[..|calls| - 1], p) + (if Updates(calls[|calls| - 1], p) then [calls[|calls| - 1]] else [])
  }

  /** A provider is down exactly when the last operation that updated it was a penalty whose cooldown has not
      elapsed; reads and operations on other providers do not matter. */
  lemma {:induction false} DownIff(calls: seq<Call>, p: Provider, now: nat)
    ensures var mine := On(calls, p);
            Down(Replay(calls), p, now)
            <==> mine != [] && mine[|mine| - 1].Penalize? && now < mine[|mine| - 1].now + mine[|mine| - 1].cooldown
    decreases |calls|
  {
    if calls != [] { DownIff(calls[..|calls| - 1], p, now); }
  }

  /** With no new operation, a provider that is up stays up as time goes on. */
  lemma UpStaysUp(calls: seq<Call>, p: Provider, now: nat, later: nat)
    requires now <= later && !Down(Replay(calls), p, now)
    ensures !Down(Replay(calls), p, later)
  {
    DownIff(calls, p, now);
  }

  // ---- Interleaved threads ----------------------------------------------------------------------

  /** Where a thread is: outside, before its (next) lock section, between `clear`'s two sections, or
      about to return. */
  datatype Pc = Idle | Before(call: Call) | Seen(provider: Provider) | After(call: Call, answer: Answer)

  datatype State = State(table: Cooldowns, pcs: map<Thread, Pc>)

  function PcOf(s: State, t: Thread): Pc { if t in s.pcs then s.pcs[t] else Idle }

  function Put(s: State, t: Thread, pc: Pc): State { s.(pcs := s.pcs[t := pc]) }

  datatype Event = Invoke(thread: Thread, call: Call) | Section(thread: Thread) | Return(thread: Thread, answer: Answer)

  /** One step of the program. `clear` checks under the read lock; only if the provider is there does it
      go on to remove it under the write lock, in a later section. */
  function Step(s: State, e: Event): Option<State> {
    var pc := PcOf(s, e.thread);
    match e
    case Invoke(t, call) => if pc == Idle then Some(Put(s, t, Before(call))) else None
    case Return(t, answer) => if pc.After? && pc.answer == answer then Some(Put(s, t, Idle)) else None
    case Section(t) =>
      if pc.Before? && pc.call.Clear? then
        if pc.call.provider in s.table then Some(Put(s, t, Seen(pc.call.provider)))
        else Some(Put(s, t, After(pc.call, Unit)))
      else if pc.Before? then
        var (table, answer) := Atomic(s.table, pc.call);
        Some(Put(s, t, After(pc.call, answer)).(table := table))
      else if pc.Seen? then
        Some(Put(s, t, After(Clear(pc.provider), Unit)).(table := s.table - {pc.provider}))
      else None
  }

  /** A run: an interleaving of events, each possible when it happens. */
  function Exec(events: seq<Event>): Option<State> {
    if events == [] then Some(State(map[], map[]))
    else match Exec(events[..|events| - 1])
      case None => None
      case Some(s) => Step(s, events[|events| - 1])
  }

  // ---- Linearization ----------------------------------------------------------------------------

  datatype Done = Done(thread: Thread, call: Call, answer: Answer)

  /** The operation a step takes effect for: the one whose last lock section it is. */
  function TakesEffect(s: State, s': State, e: Event): seq<Done> {
    var pc := PcOf(s', e.thread);
    if e.Section? && pc.After? then [Done(e.thread, pc.call, pc.answer)] else []
  }

  /** The operations of a run in the order they take effect. */
  function Linearize(events: seq<Event>): seq<Done>
    requires Exec(events).Some?
  {
    if events == [] then []
    else
      var init := events[..|events| - 1];
      Linearize(init) + TakesEffect(Exec(init).value, Exec(events).value, events[|events| - 1])
  }

  /** A sequential history: every answer is the one the specification gives. */
  ghost predicate Legal(history: seq<Done>, table: Cooldowns)
    decreases |history|
  {
    if history == [] then table == map[]
    else
      var last := history[|history| - 1];
      exists before :: Legal(history[..|history| - 1], before) && Atomic(before, last.call) == (table, last.answer)
  }

  /** The calls of one thread, and what it was answered. */
  function Invoked(events: seq<Event>, t: Thread): seq<Call> {
    if events == [] then []
    else
      var e := events[|events| - 1];
      Invoked(events[..|events| - 1], t) + (if e.Invoke? && e.thread == t then [e.call] else [])
  }

  function Returned(events: seq<Event>, t: Thread): seq<Answer> {
    if events == [] then []
    else
      var e := events[|events| - 1];
      Returned(events[..|events| - 1], t) + (if e.Return? && e.thread == t then [e.answer] else [])
  }

  function CallsBy(history: seq<Done>, t: Thread): seq<Call> {
    if history == [] then []
    else
      var d := history[|history| - 1];
      CallsBy(history[..|history| - 1], t) + (if d.thread == t then [d.call] else [])
  }

  function AnswersTo(history: seq<Done>, t: Thread): seq<Answer> {
    if history == [] then []
    else
      var d := history[|history| - 1];
      AnswersTo(history[..|history| - 1], t) + (if d.thread == t then [d.answer] else [])
  }

  /** The call a thread is in that has not taken effect. */
  function Waiting(pc: Pc): seq<Call> {
    match pc
    case Before(call) => [call]
    case Seen(p) => [Clear(p)]
    case _ => []
  }

  /** The answer a thread has that it has not returned. */
  function Unreturned(pc: Pc): seq<Answer> {
    if pc.After? then [pc.answer] else []
  }

  lemma LegalSnoc(history: seq<Done>, before: Cooldowns, d: Done, table: Cooldowns)
    requires Legal(history, before) && Atomic(before, d.call) == (table, d.answer)
    ensures Legal(history + [d], table)
  {
    var h := history + [d];
    assert h[..|h| - 1] == history && h[|h| - 1] == d;
    assert Legal(h[..|h| - 1], before);
  }

  /** A step that takes effect does what its operation does at once; any other leaves the table alone. */
  lemma StepIsAtomic(s: State, s': State, e: Event)
    requires Step(s, e) == Some(s')
    ensures var h := TakesEffect(s, s', e);
            if h == [] then s'.table == s.table else |h| == 1 && Atomic(s.table, h[0].call) == (s'.table, h[0].answer)
  {
    var pc := PcOf(s, e.thread);
    if e.Section? && pc.Before? && pc.call.Clear? && pc.call.provider !in s.table {
      assert s.table - {pc.call.provider} == s.table;
    }
  }

  /** Taking effect in this order is a legal sequential history ending in the real table. */
  lemma {:induction false} LinearizationIsLegal(events: seq<Event>)
    requires Exec(events).Some?
    ensures Legal(Linearize(events), Exec(events).value.table)
    decreases |events|
  {
    if events != [] {
      var init, e := events[..|events| - 1], events[|events| - 1];
      var s, s' := Exec(init).value, Exec(events).value;
      LinearizationIsLegal(init);
      StepIsAtomic(s, s', e);
      var h := TakesEffect(s, s', e);
      if h == [] {
        assert Linearize(init) + h == Linearize(init);
      } else {
        LegalSnoc(Linearize(init), s.table, h[0], s'.table);
        assert h == [h[0]];
      }
    }
  }

  function NewCall(e: Event, t: Thread): seq<Call> { if e.Invoke? && e.thread == t then [e.call] else [] }

  function NewReturn(e: Event, t: Thread): seq<Answer> { if e.Return? && e.thread == t then [e.answer] else [] }

  function NewEffect(h: seq<Done>, t: Thread): (seq<Call>, seq<Answer>) {
    if h != [] && h[0].thread == t then ([h[0].call], [h[0].answer]) else ([], [])
  }

  /** A step moves no thread but its own. */
  lemma StepFrame(s: State, s': State, e: Event, t: Thread)
    requires Step(s, e) == Some(s') && t != e.thread
    ensures PcOf(s', t) == PcOf(s, t)
  {
  }

  lemma OwnStepBooks(s: State, s': State, e: Event)
    requires Step(s, e) == Some(s')
    ensures var t := e.thread;
            var pc, pc', h := PcOf(s, t), PcOf(s', t), NewEffect(TakesEffect(s, s', e), t);
            && Waiting(pc) + NewCall(e, t) == h.0 + Waiting(pc')
            && Unreturned(pc) + h.1 == NewReturn(e, t) + Unreturned(pc')
  {
    match e
    case Invoke(_, _) =>
    case Return(_, _) =>
    case Section(_) =>
  }

  /** One step keeps the books of every thread. */
  lemma StepBooks(s: State, s': State, e: Event, t: Thread)
    requires Step(s, e) == Some(s')
    ensures var pc, pc', h := PcOf(s, t), PcOf(s', t), NewEffect(TakesEffect(s, s', e), t);
            && Waiting(pc) + NewCall(e, t) == h.0 + Waiting(pc')
            && Unreturned(pc) + h.1 == NewReturn(e, t) + Unreturned(pc')
  {
    if t == e.thread { OwnStepBooks(s, s', e); } else { StepFrame(s, s', e, t); }
  }

  lemma EffectBooks(before: seq<Done>, h: seq<Done>, t: Thread)
    requires |h| <= 1
    ensures CallsBy(before + h, t) == CallsBy(before, t) + NewEffect(h, t).0
    ensures AnswersTo(before + h, t) == AnswersTo(before, t) + NewEffect(h, t).1
  {
    if h == [] { assert before + h == before; } else { assert (before + h)[..|before|] == before; }
  }

  /** At every moment, for every thread: its operations that took effect are its invocations in order,
      except the one it may be waiting in; and its returns are their answers in order, except the one
      it may be about to return. */
  lemma {:induction false} EffectsBetweenCallAndReturn(events: seq<Event>, t: Thread)
    requires Exec(events).Some?
    ensures var done, pc := Linearize(events), PcOf(Exec(events).value, t);
            && Invoked(events, t) == CallsBy(done, t) + Waiting(pc)
            && AnswersTo(done, t) == Returned(events, t) + Unreturned(pc)
    decreases |events|
  {
    if events != [] {
      var init, e := events[..|events| - 1], events[|events| - 1];
      var s, s', before := Exec(init).value, Exec(events).value, Linearize(init);
      var h := NewEffect(TakesEffect(s, s', e), t);
      EffectsBetweenCallAndReturn(init, t);
      StepBooks(s, s', e, t);
      EffectBooks(before, TakesEffect(s, s', e), t);
      Assoc(CallsBy(before, t), Waiting(PcOf(s, t)), NewCall(e, t));
      Assoc(CallsBy(before, t), h.0, Waiting(PcOf(s', t)));
      Assoc(Returned(init, t), Unreturned(PcOf(s, t)), h.1);
      Assoc(Returned(init, t), NewReturn(e, t), Unreturned(PcOf(s', t)));
    }
  }

  lemma {:induction false} LinearizePrefix(events: seq<Event>, n: nat)
    requires Exec(events).Some? && n <= |events|
    ensures Exec(events[..n]).Some? && Linearize(events[..n]) <= Linearize(events)
    decreases |events|
  {
    if n == |events| {
      assert events[..n] == events;
    } else {
      var init := events[..|events| - 1];
      LinearizePrefix(init, n);
      assert init[..n] == events[..n];
    }
  }

  /** Linearizability. There is one sequential order of the operations that took effect, legal for the
      atomic specification and ending in the run's table, which keeps every thread's calls and answers,
      and every operation's place between its call and its return: at any earlier moment `n`, a prefix
      of that order has taken effect, holding everything already returned and nothing not yet invoked. */
  lemma Linearizable(events: seq<Event>, n: nat, t: Thread)
    requires Exec(events).Some? && n <= |events|
    ensures Legal(Linearize(events), Exec(events).value.table)
    ensures CallsBy(Linearize(events), t) <= Invoked(events, t)
    ensures Returned(events, t) <= AnswersTo(Linearize(events), t)
    ensures Exec(events[..n]).Some? && Linearize(events[..n]) <= Linearize(events)
    ensures |Returned(events[..n], t)| <= |CallsBy(Linearize(events[..n]), t)| <= |Invoked(events[..n], t)|
  {
    LinearizationIsLegal(events);
    EffectsBetweenCallAndReturn(events, t);
    LinearizePrefix(events, n);
    EffectsBetweenCallAndReturn(events[..n], t);
    SameCount(Linearize(events[..n]), t);
  }

  /** The calls of a sequential history. */
  function CallsOf(history: seq<Done>): seq<Call> {
    seq(|history|, k requires 0 <= k < |history| => history[k].call)
  }

  lemma {:induction false} LegalIsReplay(history: seq<Done>, table: Cooldowns)
    requires Legal(history, table)
    ensures table == Replay(CallsOf(history))
    decreases |history|
  {
    if history != [] {
      var init, last := history[..|history| - 1], history[|history| - 1];
      var before :| Legal(init, before) && Atomic(before, last.call) == (table, last.answer);
      LegalIsReplay(init, before);
      assert CallsOf(history)[..|history| - 1] == CallsOf(init);
    }
  }

  lemma {:induction false} LegalBefore(history: seq<Done>, table: Cooldowns, n: nat) returns (before: Cooldowns)
    requires Legal(history, table) && n < |history|
    ensures Legal(history[..n], before) && Atomic(before, history[n].call).1 == history[n].answer
    decreases |history|
  {
    var init, last := history[..|history| - 1], history[|history| - 1];
    before :| Legal(init, before) && Atomic(before, last.call) == (table, last.answer);
    if n < |init| {
      before := LegalBefore(init, before, n);
      assert init[..n] == history[..n];
    } else {
      assert history[..n] == init;
    }
  }

  /** What an operation must be answered, going by the operations before it alone. */
  ghost predicate Answered(before: seq<Call>, call: Call, answer: Answer) {
    match call
    case IsDown(p, now) => answer == Bool(InCooldown(before, p, now))
    case Snapshot(now) =>
      && answer.All?
      && (forall p :: p in answer.states <==> Penalized(before, p))
      && (forall p :: p in answer.states ==> answer.states[p] == InCooldown(before, p, now))
    case _ => answer == Unit
  }

  /** In every interleaving, a provider is answered to be down exactly when the last penalty or clearing of it that
      took effect before was a penalty whose cooldown had not elapsed; a snapshot lists exactly the providers last
      penalised, each with that. */
  lemma AnswersTell(events: seq<Event>, n: nat)
    requires Exec(events).Some? && n < |Linearize(events)|
    ensures var done := Linearize(events);
            Answered(CallsOf(done[..n]), done[n].call, done[n].answer)
  {
    var done := Linearize(events);
    LinearizationIsLegal(events);
    var before := LegalBefore(done, Exec(events).value.table, n);
    LegalIsReplay(done[..n], before);
    AtomicTells(CallsOf(done[..n]), done[n].call);
  }

  /** The specification answers by the history. */
  lemma AtomicTells(calls: seq<Call>, call: Call)
    ensures Answered(calls, call, Atomic(Replay(calls), call).1)
  {
    match call
    case IsDown(p, now) => ReplayTells(calls, p, now);
    case Snapshot(now) =>
      var m := Replay(calls);
      forall p ensures (p in m <==> Penalized(calls, p)) && (Down(m, p, now) <==> InCooldown(calls, p, now)) {
        ReplayTells(calls, p, now);
      }
    case _ =>
  }

  lemma {:induction false} SameCount(history: seq<Done>, t: Thread)
    ensures |CallsBy(history, t)| == |AnswersTo(history, t)|
    decreases |history|
  {
    if history != [] { SameCount(history[..|history| - 1], t); }
  }
}

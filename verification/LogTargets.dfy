/** Where the records of a call go: to the appender that the category is bound to while the call runs. */
module LogTargets {
  import opened Options
  import opened LogWalk
  import opened LogQuotes

  /** The category is bound to the appender after the first k actions, and the call is under way then. */
  ghost predicate BoundAt(cfg: Config, actions: seq<Action>, k: nat, id: nat, c: nat, a: nat) {
    k <= |actions| &&
    var s := RunAll(cfg, Initial(), actions[..k]);
    id < |s.calls| && id !in s.done && c in s.binding && s.binding[c] == a
  }

  ghost predicate BoundDuring(cfg: Config, actions: seq<Action>, id: nat, c: nat, a: nat) {
    exists k: nat :: BoundAt(cfg, actions, k, id, c, a)
  }

  lemma {:induction false} RunNext(cfg: Config, s: State, actions: seq<Action>, action: Action)
    ensures RunAll(cfg, s, actions + [action]) == Apply(cfg, RunAll(cfg, s, actions), action)
    decreases |actions|
  {
    var all := actions + [action];
    if actions == [] {
      assert all[1..] == [];
    } else {
      assert all[1..] == actions[1..] + [action];
      RunNext(cfg, Apply(cfg, s, actions[0]), actions[1..], action);
    }
  }

  lemma {:induction false} BoundStays(cfg: Config, actions: seq<Action>, action: Action, id: nat, c: nat, a: nat)
    requires BoundDuring(cfg, actions, id, c, a)
    ensures BoundDuring(cfg, actions + [action], id, c, a)
  {
    var k: nat :| BoundAt(cfg, actions, k, id, c, a);
    assert (actions + [action])[..k] == actions[..k];
    assert BoundAt(cfg, actions + [action], k, id, c, a);
  }

  lemma {:induction false} BoundNow(cfg: Config, actions: seq<Action>, id: nat, c: nat, a: nat)
    requires var s := RunAll(cfg, Initial(), actions);
      id < |s.calls| && id !in s.done && c in s.binding && s.binding[c] == a
    ensures BoundDuring(cfg, actions, id, c, a)
  {
    assert actions[..|actions|] == actions;
    assert BoundAt(cfg, actions, |actions|, id, c, a);
  }

  /** The appender that a phase is about to write to. */
  function Aim(p: Phase): Option<(nat, nat, nat)> {
    match p
    case Found(call, c, Some(a)) => Some((call.id, c, a))
    case Locked(call, c, a) => Some((call.id, c, a))
    case Headed(call, c, a) => Some((call.id, c, a))
    case _ => None
  }

  ghost predicate AimFits(cfg: Config, actions: seq<Action>, p: Phase) {
    Aim(p).Some? ==> var (id, c, a) := Aim(p).value; BoundDuring(cfg, actions, id, c, a)
  }

  ghost predicate SentFits(cfg: Config, actions: seq<Action>, s: State, id: nat, c: nat) {
    Sent(s, id, c) ==> BoundDuring(cfg, actions, id, c, s.sent[(id, c)])
  }

  ghost predicate TargetInv(cfg: Config, actions: seq<Action>) {
    var s := RunAll(cfg, Initial(), actions);
    && (forall t: nat {:trigger PhaseOf(s, t)} :: AimFits(cfg, actions, PhaseOf(s, t)))
    && (forall id: nat, c: nat {:trigger Sent(s, id, c)} :: SentFits(cfg, actions, s, id, c))
  }

  /** What an action changes of the aims: a category that is looked at is aimed at the appender it is bound to;
      what is sent was aimed at. */
  ghost predicate Aimed(s: State, s1: State, t: nat) {
    var p, p1 := PhaseOf(s, t), PhaseOf(s1, t);
    && (forall u: nat {:trigger PhaseOf(s1, u)} :: u != t ==> PhaseOf(s1, u) == PhaseOf(s, u))
    && (Aim(p1).Some? ==> Aim(p1) == Aim(p) || LooksUp(s, p, p1))
    && (s1.sent == s.sent
        || (Aim(p).Some? && var (id, c, a) := Aim(p).value; s1.sent == s.sent[(id, c) := a]))
  }

  predicate LooksUp(s: State, p: Phase, p1: Phase) {
    p.Look? && p1.Found? && p1.call == p.call && p1.ac == Bound(s, p1.c)
  }

  /** Whose phase becomes p1. */
  lemma {:induction false} AimedTo(s: State, s1: State, t: nat, p1: Phase)
    requires s1.threads == s.threads[t := p1] && s1.sent == s.sent
    requires Aim(p1).None? || Aim(p1) == Aim(PhaseOf(s, t)) || LooksUp(s, PhaseOf(s, t), p1)
    ensures Aimed(s, s1, t)
  {
  }

  lemma {:induction false} Unmoved(s: State, t: nat)
    ensures Aimed(s, s, t)
  {
  }

  lemma {:induction false} DeliverAims(s: State, t: nat, call: Call, c: nat, a: nat)
    requires Aim(PhaseOf(s, t)) == Some((call.id, c, a))
    ensures Aimed(s, Deliver(s, t, call, c, a), t)
  {
  }

  lemma {:induction false} LogAims(cfg: Config, s: State, t: nat)
    requires Logs(PhaseOf(s, t))
    ensures Aimed(s, Apply(cfg, s, Run(t)), t)
  {
    match PhaseOf(s, t) {
      case Enter(call) => EnterAims(cfg, s, t, call);
      case Careful(call, next) => CarefulAims(cfg, s, t, call, next);
      case Begin(call) => BeginAims(cfg, s, t, call);
      case Look(call, pos) => LookAims(cfg, s, t, call, pos);
      case Found(call, c, ac) => FoundAims(cfg, s, t, call, c, ac);
      case Locked(call, c, a) => WriteAims(cfg, s, t, call, c, a);
      case Headed(call, c, a) => BodyAims(cfg, s, t, call, c, a);
      case Written(call, c, a) => UnlockAims(cfg, s, t, call, c, a);
      case Onward(call, c) => OnwardAims(cfg, s, t, call, c);
    }
  }

  lemma {:induction false} EnterAims(cfg: Config, s: State, t: nat, call: Call)
    requires PhaseOf(s, t) == Enter(call)
    ensures Aimed(s, Apply(cfg, s, Run(t)), t)
  {
    AimedTo(s, To(s, t, Careful(call, NextOf(s, Head))), t, Careful(call, NextOf(s, Head)));
  }

  lemma {:induction false} CarefulAims(cfg: Config, s: State, t: nat, call: Call, next: Node)
    requires PhaseOf(s, t) == Careful(call, next)
    ensures Aimed(s, Apply(cfg, s, Run(t)), t)
  {
    if next == Head && PrevOf(s, Head) == next {
      AimedTo(s, Finish(s, t, call), t, Idle);
    } else {
      AimedTo(s, To(s, t, Begin(call)), t, Begin(call));
    }
  }

  lemma {:induction false} BeginAims(cfg: Config, s: State, t: nat, call: Call)
    requires PhaseOf(s, t) == Begin(call)
    ensures Aimed(s, Apply(cfg, s, Run(t)), t)
  {
    AimedTo(s, To(s, t, Look(call, NextOf(s, Head))), t, Look(call, NextOf(s, Head)));
  }

  lemma {:induction false} LookAims(cfg: Config, s: State, t: nat, call: Call, pos: Node)
    requires PhaseOf(s, t) == Look(call, pos)
    ensures Aimed(s, Apply(cfg, s, Run(t)), t)
  {
    if pos == Head {
      AimedTo(s, Finish(s, t, call), t, Idle);
    } else {
      AimedTo(s, To(s, t, Found(call, pos.c, Bound(s, pos.c))), t, Found(call, pos.c, Bound(s, pos.c)));
    }
  }

  lemma {:induction false} BodyAims(cfg: Config, s: State, t: nat, call: Call, c: nat, a: nat)
    requires PhaseOf(s, t) == Headed(call, c, a)
    ensures Aimed(s, Apply(cfg, s, Run(t)), t)
  {
    DeliverAims(s, t, call, c, a);
  }

  lemma {:induction false} UnlockAims(cfg: Config, s: State, t: nat, call: Call, c: nat, a: nat)
    requires PhaseOf(s, t) == Written(call, c, a)
    ensures Aimed(s, Apply(cfg, s, Run(t)), t)
  {
    AimedTo(s, To(s, t, Onward(call, c)).(locks := s.locks - {a}), t, Onward(call, c));
  }

  lemma {:induction false} OnwardAims(cfg: Config, s: State, t: nat, call: Call, c: nat)
    requires PhaseOf(s, t) == Onward(call, c)
    ensures Aimed(s, Apply(cfg, s, Run(t)), t)
  {
    AimedTo(s, To(s, t, Look(call, NextOf(s, Cat(c)))), t, Look(call, NextOf(s, Cat(c))));
  }

  lemma {:induction false} FoundAims(cfg: Config, s: State, t: nat, call: Call, c: nat, ac: Option<nat>)
    requires PhaseOf(s, t) == Found(call, c, ac)
    ensures Aimed(s, Apply(cfg, s, Run(t)), t)
  {
    if cfg.categoryKind(c) != call.kind || ac.None? {
      AimedTo(s, To(s, t, Onward(call, c)), t, Onward(call, c));
    } else if ac.value in s.locks {
      assert Apply(cfg, s, Run(t)) == s;
    } else {
      AimedTo(s, To(s, t, Locked(call, c, ac.value)).(locks := s.locks[ac.value := t]), t, Locked(call, c, ac.value));
    }
  }

  lemma {:induction false} WriteAims(cfg: Config, s: State, t: nat, call: Call, c: nat, a: nat)
    requires PhaseOf(s, t) == Locked(call, c, a)
    ensures Aimed(s, Apply(cfg, s, Run(t)), t)
  {
    if call.raw {
      DeliverAims(s, t, call, c, a);
    } else {
      AimedTo(s, To(Put(s, a, Header(call.id, c)), t, Headed(call, c, a)), t, Headed(call, c, a));
    }
  }

  lemma {:induction false} WaitCategoryAims(cfg: Config, s: State, t: nat, c: nat)
    requires PhaseOf(s, t) == WaitCategory(c)
    ensures Aimed(s, Apply(cfg, s, Run(t)), t)
  {
    if s.registry.None? {
      AimedTo(s, To(s, t, Reading(c)).(registry := Some(t)), t, Reading(c));
    }
  }

  lemma {:induction false} Link1Aims(cfg: Config, s: State, t: nat, c: nat, next: Node)
    requires PhaseOf(s, t) == Link1(c, next)
    ensures Aimed(s, Apply(cfg, s, Run(t)), t)
  {
    AimedTo(s, To(s, t, Link2(c, next)).(prev := s.prev[next := Cat(c)]), t, Link2(c, next));
  }

  lemma {:induction false} Link2Aims(cfg: Config, s: State, t: nat, c: nat, next: Node)
    requires PhaseOf(s, t) == Link2(c, next)
    ensures Aimed(s, Apply(cfg, s, Run(t)), t)
  {
    AimedTo(s, To(s, t, Link3(c, next)).(next := s.next[Cat(c) := next]), t, Link3(c, next));
  }

  lemma {:induction false} Link3Aims(cfg: Config, s: State, t: nat, c: nat, next: Node)
    requires PhaseOf(s, t) == Link3(c, next)
    ensures Aimed(s, Apply(cfg, s, Run(t)), t)
  {
    AimedTo(s, To(s, t, Link4(c, next)).(prev := s.prev[Cat(c) := Head]), t, Link4(c, next));
  }

  lemma {:induction false} Link4Aims(cfg: Config, s: State, t: nat, c: nat, next: Node)
    requires PhaseOf(s, t) == Link4(c, next)
    ensures Aimed(s, Apply(cfg, s, Run(t)), t)
  {
    var s1 := To(s, t, Binding(c)).(next := s.next[Head := Cat(c)], order := [c] + s.order);
    AimedTo(s, s1, t, Binding(c));
  }

  lemma {:induction false} BindingAims(cfg: Config, s: State, t: nat, c: nat)
    requires PhaseOf(s, t) == Binding(c)
    ensures Aimed(s, Apply(cfg, s, Run(t)), t)
  {
    var found := FirstMatch(cfg, s.appenders, c);
    if found.None? {
      AimedTo(s, To(s, t, Releasing), t, Releasing);
    } else {
      var a := found.value;
      AimedTo(s, To(s, t, Counting(a)).(binding := s.binding[c := a]), t, Counting(a));
    }
  }

  lemma {:induction false} CountingAims(cfg: Config, s: State, t: nat, a: nat)
    requires PhaseOf(s, t) == Counting(a)
    ensures Aimed(s, Apply(cfg, s, Run(t)), t)
  {
    if a !in s.locks {
      var s1 := To(s, t, Counted(a)).(locks := s.locks[a := t], quotes := s.quotes[a := Quote(s, a) + 1]);
      AimedTo(s, s1, t, Counted(a));
    }
  }

  lemma {:induction false} CountedAims(cfg: Config, s: State, t: nat, a: nat)
    requires PhaseOf(s, t) == Counted(a)
    ensures Aimed(s, Apply(cfg, s, Run(t)), t)
  {
    AimedTo(s, To(s, t, Releasing).(locks := s.locks - {a}), t, Releasing);
  }

  lemma {:induction false} WaitAppenderAims(cfg: Config, s: State, t: nat, a: nat)
    requires PhaseOf(s, t) == WaitAppender(a)
    ensures Aimed(s, Apply(cfg, s, Run(t)), t)
  {
    if s.registry.None? {
      var p1 := Walking(a, NextOf(s, Head));
      AimedTo(s, To(s, t, p1).(registry := Some(t), appenders := [a] + s.appenders), t, p1);
    }
  }

  lemma {:induction false} WalkEndAims(cfg: Config, s: State, t: nat, a: nat)
    requires PhaseOf(s, t) == Walking(a, Head)
    ensures Aimed(s, Apply(cfg, s, Run(t)), t)
  {
    AimedTo(s, To(s, t, Releasing), t, Releasing);
  }

  lemma {:induction false} WalkPastAims(cfg: Config, s: State, t: nat, a: nat, c: nat)
    requires PhaseOf(s, t) == Walking(a, Cat(c)) && cfg.appenderKind(a) != cfg.wanted(c)
    ensures Aimed(s, Apply(cfg, s, Run(t)), t)
  {
    AimedTo(s, To(s, t, Walking(a, NextOf(s, Cat(c)))), t, Walking(a, NextOf(s, Cat(c))));
  }

  lemma {:induction false} WalkBindAims(cfg: Config, s: State, t: nat, a: nat, c: nat)
    requires PhaseOf(s, t) == Walking(a, Cat(c)) && cfg.appenderKind(a) == cfg.wanted(c)
    ensures Aimed(s, Apply(cfg, s, Run(t)), t)
  {
    AimedTo(s, To(s, t, CountingFor(a, c)).(binding := s.binding[c := a]), t, CountingFor(a, c));
  }

  lemma {:induction false} WalkingAims(cfg: Config, s: State, t: nat, a: nat, pos: Node)
    requires PhaseOf(s, t) == Walking(a, pos)
    ensures Aimed(s, Apply(cfg, s, Run(t)), t)
  {
    if pos == Head {
      WalkEndAims(cfg, s, t, a);
    } else if cfg.appenderKind(a) != cfg.wanted(pos.c) {
      WalkPastAims(cfg, s, t, a, pos.c);
    } else {
      WalkBindAims(cfg, s, t, a, pos.c);
    }
  }

  lemma {:induction false} CountingForAims(cfg: Config, s: State, t: nat, a: nat, c: nat)
    requires PhaseOf(s, t) == CountingFor(a, c)
    ensures Aimed(s, Apply(cfg, s, Run(t)), t)
  {
    if a !in s.locks {
      var s1 := To(s, t, CountedFor(a, c)).(locks := s.locks[a := t], quotes := s.quotes[a := Quote(s, a) + 1]);
      AimedTo(s, s1, t, CountedFor(a, c));
    }
  }

  lemma {:induction false} CountedForAims(cfg: Config, s: State, t: nat, a: nat, c: nat)
    requires PhaseOf(s, t) == CountedFor(a, c)
    ensures Aimed(s, Apply(cfg, s, Run(t)), t)
  {
    var p1 := Walking(a, NextOf(s, Cat(c)));
    AimedTo(s, To(s, t, p1).(locks := s.locks - {a}), t, p1);
  }

  lemma {:induction false} ReadingAims(cfg: Config, s: State, t: nat, c: nat)
    requires PhaseOf(s, t) == Reading(c)
    ensures Aimed(s, Apply(cfg, s, Run(t)), t)
  {
    AimedTo(s, To(s, t, Link1(c, NextOf(s, Head))), t, Link1(c, NextOf(s, Head)));
  }

  lemma {:induction false} ReleasingAims(cfg: Config, s: State, t: nat)
    requires PhaseOf(s, t) == Releasing
    ensures Aimed(s, Apply(cfg, s, Run(t)), t)
  {
    AimedTo(s, To(s, t, Idle).(registry := None), t, Idle);
  }

  /** Registering. */
  lemma {:induction false} RegistryAims(cfg: Config, s: State, t: nat)
    requires !Logs(PhaseOf(s, t)) && !PhaseOf(s, t).Idle?
    ensures Aimed(s, Apply(cfg, s, Run(t)), t)
  {
    match PhaseOf(s, t) {
      case WaitCategory(c) => WaitCategoryAims(cfg, s, t, c);
      case Reading(c) => ReadingAims(cfg, s, t, c);
      case Link1(c, next) => Link1Aims(cfg, s, t, c, next);
      case Link2(c, next) => Link2Aims(cfg, s, t, c, next);
      case Link3(c, next) => Link3Aims(cfg, s, t, c, next);
      case Link4(c, next) => Link4Aims(cfg, s, t, c, next);
      case Binding(c) => BindingAims(cfg, s, t, c);
      case Counting(a) => CountingAims(cfg, s, t, a);
      case Counted(a) => CountedAims(cfg, s, t, a);
      case WaitAppender(a) => WaitAppenderAims(cfg, s, t, a);
      case Walking(a, pos) => WalkingAims(cfg, s, t, a, pos);
      case CountingFor(a, c) => CountingForAims(cfg, s, t, a, c);
      case CountedFor(a, c) => CountedForAims(cfg, s, t, a, c);
      case Releasing => ReleasingAims(cfg, s, t);
    }
  }

  lemma {:induction false} StartAims(cfg: Config, s: State, action: Action)
    requires !action.Run?
    ensures Aimed(s, Apply(cfg, s, action), action.t)
  {
    var s1, t := Apply(cfg, s, action), action.t;
    if s1 == s {
      Unmoved(s, t);
    } else {
      AimedTo(s, s1, t, PhaseOf(s1, t));
    }
  }

  lemma {:induction false} ActionAims(cfg: Config, s: State, action: Action)
    ensures Aimed(s, Apply(cfg, s, action), action.t)
  {
    if !action.Run? {
      StartAims(cfg, s, action);
    } else if Logs(PhaseOf(s, action.t)) {
      LogAims(cfg, s, action.t);
    } else if !PhaseOf(s, action.t).Idle? {
      RegistryAims(cfg, s, action.t);
    }
  }

  lemma {:induction false} StepKeepsTargets(cfg: Config, actions: seq<Action>, action: Action)
    requires TargetInv(cfg, actions) && Inv(cfg, RunAll(cfg, Initial(), actions))
    ensures TargetInv(cfg, actions + [action])
  {
    var next, t := actions + [action], action.t;
    var s, s1 := RunAll(cfg, Initial(), actions), RunAll(cfg, Initial(), actions + [action]);
    RunNext(cfg, Initial(), actions, action);
    ActionAims(cfg, s, action);
    assert ThreadInv(cfg, s, t);
    forall u: nat ensures AimFits(cfg, next, PhaseOf(s1, u)) {
      var p1 := PhaseOf(s1, u);
      assert AimFits(cfg, actions, PhaseOf(s, u));
      if Aim(p1).Some? {
        var (id, c, a) := Aim(p1).value;
        if Aim(p1) != Aim(PhaseOf(s, u)) { BoundNow(cfg, actions, id, c, a); }
        BoundStays(cfg, actions, action, id, c, a);
      }
    }
    assert AimFits(cfg, actions, PhaseOf(s, t));
    forall id: nat, c: nat ensures SentFits(cfg, next, s1, id, c) {
      if Sent(s1, id, c) {
        assert Sent(s, id, c) ==> SentFits(cfg, actions, s, id, c);
        BoundStays(cfg, actions, action, id, c, s1.sent[(id, c)]);
      }
    }
  }

  lemma {:induction false} RunKeepsTargets(cfg: Config, actions: seq<Action>)
    ensures TargetInv(cfg, actions)
    decreases |actions|
  {
    if actions == [] {
      forall id: nat, c: nat ensures SentFits(cfg, actions, Initial(), id, c) {}
    } else {
      var init := actions[..|actions| - 1];
      assert actions == init + [actions[|actions| - 1]];
      RunFits(cfg, init);
      RunKeepsTargets(cfg, init);
      StepKeepsTargets(cfg, init, actions[|actions| - 1]);
    }
  }

  lemma {:induction false} BindingsAppend(cfg: Config, s: State, first: seq<Action>, rest: seq<Action>)
    ensures Bindings(cfg, s, first) <= Bindings(cfg, s, first + rest)
    decreases |first|
  {
    var all := first + rest;
    if first != [] {
      assert all[1..] == first[1..] + rest;
      BindingsAppend(cfg, Apply(cfg, s, first[0]), first[1..], rest);
    }
  }

  /** A binding in force during a call was made, of a listed category to a listed appender of its type. */
  lemma {:induction false} BoundWasMade(cfg: Config, actions: seq<Action>, id: nat, c: nat, a: nat)
    requires BoundDuring(cfg, actions, id, c, a)
    ensures (c, a) in Bindings(cfg, Initial(), actions)
    ensures var s := RunAll(cfg, Initial(), actions);
      c in s.order && a in s.appenders && cfg.appenderKind(a) == cfg.wanted(c)
  {
    var k: nat :| BoundAt(cfg, actions, k, id, c, a);
    var m, hist := RunAll(cfg, Initial(), actions[..k]), Bindings(cfg, Initial(), actions[..k]);
    RunFits(cfg, actions[..k]);
    assert BindingFits(m, hist, c) && Made(hist, c, a);
    BindingsAppend(cfg, Initial(), actions[..k], actions[k..]);
    assert actions[..k] + actions[k..] == actions;
    RunFits(cfg, actions);
    assert Made(Bindings(cfg, Initial(), actions), c, a);
  }

  /** The category was bound to no other appender. */
  predicate OnlyBoundTo(cfg: Config, actions: seq<Action>, c: nat, b: nat) {
    forall p :: p in Bindings(cfg, Initial(), actions) && p.0 == c ==> p.1 == b
  }

  /** Whatever the threads do, at any time: a record for a category is only ever in the output of an appender
      that the category was bound to at some moment of the call. */
  lemma {:induction false} RecordsGoWhereBound(cfg: Config, actions: seq<Action>, a: nat, id: nat, c: nat)
    requires Bodies(Output(RunAll(cfg, Initial(), actions), a), id, c) > 0
    ensures BoundDuring(cfg, actions, id, c, a)
  {
    var s := RunAll(cfg, Initial(), actions);
    RunFits(cfg, actions);
    RunKeepsTargets(cfg, actions);
    assert SentOnce(s, a, id, c) && SentFits(cfg, actions, s, id, c);
  }

  /** Whatever the threads do: once a call has returned, every category of its type that was listed and bound
      before the call has exactly one record of it, in exactly one output. That is the output of an appender the
      category was bound to at some moment of the call: a listed one of the wanted type, and the only one the
      category was ever bound to if there is only one. */
  lemma {:induction false} EveryListenerServedOnce(cfg: Config, actions: seq<Action>, id: nat, c: nat) returns (a: nat)
    requires var s := RunAll(cfg, Initial(), actions);
      id in s.done && id < |s.calls| && Before(s, id, c) && cfg.categoryKind(c) == s.calls[id].kind
    ensures var s := RunAll(cfg, Initial(), actions);
      && (forall b: nat :: Bodies(Output(s, b), id, c) == if b == a then 1 else 0)
      && BoundDuring(cfg, actions, id, c, a)
      && c in s.order && a in s.appenders && cfg.appenderKind(a) == cfg.wanted(c)
      && (c, a) in Bindings(cfg, Initial(), actions)
      && (forall b {:trigger OnlyBoundTo(cfg, actions, c, b)} :: OnlyBoundTo(cfg, actions, c, b) ==> a == b)
  {
    var s := RunAll(cfg, Initial(), actions);
    RunFits(cfg, actions);
    assert Served(cfg, s, id, c);
    a := s.sent[(id, c)];
    forall b: nat ensures Bodies(Output(s, b), id, c) == if b == a then 1 else 0 {
      assert SentOnce(s, b, id, c);
    }
    RecordsGoWhereBound(cfg, actions, a, id, c);
    BoundWasMade(cfg, actions, id, c, a);
  }
}

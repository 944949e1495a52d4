/** What holds over all runs. */
module LogRuns {
  import opened LogWalk
  import opened LogSteps

  lemma StepKeepsInv(cfg: Config, s: State, action: Action)
    requires Inv(cfg, s)
    ensures Inv(cfg, Apply(cfg, s, action))
  {
    match action
    case StartLog(t, kind, raw) => StartLogStep(cfg, s, t, kind, raw);
    case StartCategory(t, c) => StartCategoryStep(cfg, s, t, c);
    case StartAppender(t, a) => StartAppenderStep(cfg, s, t, a);
    case Run(t) =>
      match PhaseOf(s, t)
      case Idle =>
      case Enter(_) => EnterStep(cfg, s, t);
      case Careful(_, _) => CarefulStep(cfg, s, t);
      case Begin(_) => BeginStep(cfg, s, t);
      case Look(_, _) => LookStep(cfg, s, t);
      case Found(_, _, _) => FoundStep(cfg, s, t);
      case Locked(call, _, _) => if call.raw { DeliverStep(cfg, s, t); } else { HeaderStep(cfg, s, t); }
      case Headed(_, _, _) => DeliverStep(cfg, s, t);
      case Written(_, _, _) => WrittenStep(cfg, s, t);
      case Onward(_, _) => OnwardStep(cfg, s, t);
      case WaitCategory(_) => WaitStep(cfg, s, t);
      case WaitAppender(_) => WaitStep(cfg, s, t);
      case Reading(_) => ReadStep(cfg, s, t);
      case Link1(_, _) => FirstPrevStep(cfg, s, t);
      case Link2(_, _) => NextStep(cfg, s, t);
      case Link3(_, _) => NewPrevStep(cfg, s, t);
      case Link4(_, _) => PublishStep(cfg, s, t);
      case Binding(_) => BindStep(cfg, s, t);
      case Walking(_, _) => WalkStep(cfg, s, t);
      case Counting(_) => CountStep(cfg, s, t);
      case CountingFor(_, _) => CountForStep(cfg, s, t);
      case Counted(_) => CountedStep(cfg, s, t);
      case CountedFor(_, _) => CountedStep(cfg, s, t);
      case Releasing => ReleaseStep(cfg, s, t);
  }

  lemma {:induction false} RunKeepsInv(cfg: Config, s: State, actions: seq<Action>)
    requires Inv(cfg, s)
    ensures Inv(cfg, RunAll(cfg, s, actions))
    decreases |actions|
  {
    if actions != [] {
      StepKeepsInv(cfg, s, actions[0]);
      RunKeepsInv(cfg, Apply(cfg, s, actions[0]), actions[1..]);
    }
  }

  /** Whatever the threads do, in whatever order: each output is a concatenation of whole records, but for
      one header at its end, which the holder of the appender's lock has just written. */
  lemma WholeRecords(cfg: Config, actions: seq<Action>, a: nat)
    ensures var s := RunAll(cfg, Initial(), actions);
      var out := Output(s, a);
      || Records(out)
      || (&& out != [] && Records(out[..|out| - 1]) && a in s.locks
          && var p := PhaseOf(s, s.locks[a]);
             p.Headed? && p.a == a && out[|out| - 1] == Header(p.call.id, p.c))
  {
    var s := RunAll(cfg, Initial(), actions);
    InitialInv(cfg);
    RunKeepsInv(cfg, Initial(), actions);
    assert OutputInv(s, a);
  }

  /** At any time, also in the middle of a call: no category has a second record of a call, and none of
      another type has one. */
  lemma NeverTwice(cfg: Config, actions: seq<Action>, a: nat, b: nat, id: nat, c: nat)
    ensures var s := RunAll(cfg, Initial(), actions);
      && Bodies(Output(s, a), id, c) <= 1
      && (Bodies(Output(s, a), id, c) == 1 ==> id < |s.calls| && s.calls[id].kind == cfg.categoryKind(c))
      && (a != b ==> Bodies(Output(s, a), id, c) + Bodies(Output(s, b), id, c) <= 1)
  {
    var s := RunAll(cfg, Initial(), actions);
    InitialInv(cfg);
    RunKeepsInv(cfg, Initial(), actions);
    assert SentOnce(s, a, id, c) && SentOnce(s, b, id, c);
  }

  /** A thread that waits for a lock another one holds. */
  predicate Waits(cfg: Config, s: State, t: nat) {
    match PhaseOf(s, t)
    case Found(call, c, ac) => cfg.categoryKind(c) == call.kind && ac.Some? && ac.value in s.locks
    case WaitCategory(_) => s.registry.Some?
    case WaitAppender(_) => s.registry.Some?
    case Counting(a) => a in s.locks
    case CountingFor(a, _) => a in s.locks
    case _ => false
  }

  /** The two kinds of locks never lead to a standstill: as long as a thread is busy, some busy thread does
      not wait. */
  lemma NoStandstill(cfg: Config, actions: seq<Action>, t: nat) returns (u: nat)
    requires !PhaseOf(RunAll(cfg, Initial(), actions), t).Idle?
    ensures var s := RunAll(cfg, Initial(), actions); !PhaseOf(s, u).Idle? && !Waits(cfg, s, u)
  {
    var s := RunAll(cfg, Initial(), actions);
    InitialInv(cfg);
    RunKeepsInv(cfg, Initial(), actions);
    if a :| a in s.locks {
      u := s.locks[a];
      assert OutputInv(s, a);
    } else if s.registry.Some? {
      u := s.registry.value;
      assert ThreadInv(cfg, s, u);
    } else {
      u := t;
    }
  }
}

/** Every step of a thread that logs or registers keeps the invariant of module LogWalk: the records that are
    written, the links of the list, the locks, and what the calls of the other threads have done so far stay
    as they have to be. */
module LogSteps {
  import opened Sequences
  import opened Options
  import opened LogWalk

  // What a step of one thread means for the others

  predicate SamePhase(s: State, s1: State, u: nat) {
    PhaseOf(s1, u) == PhaseOf(s, u)
  }

  predicate SameLock(s: State, s1: State, a: nat, t: nat) {
    && (a in s.locks && s.locks[a] != t ==> a in s1.locks && s1.locks[a] == s.locks[a])
    && (a in s1.locks && s1.locks[a] != t ==> a in s.locks && s.locks[a] == s1.locks[a])
  }

  predicate SameSent(s: State, s1: State, t: nat, id: nat, c: nat) {
    && (Sent(s, id, c) ==> Sent(s1, id, c))
    && (Sent(s1, id, c) ==> Sent(s, id, c) || (Logs(PhaseOf(s, t)) && PhaseOf(s, t).call.id == id))
  }

  predicate SameBefore(s: State, s1: State, id: nat) {
    (id in s.before <==> id in s1.before) && (id in s.before ==> s1.before[id] == s.before[id])
  }

  /** Thread t changes its own phase, its own call and, inside the registry lock, the list. */
  ghost predicate StepOf(s: State, s1: State, t: nat) {
    var p := PhaseOf(s, t);
    && (forall u: nat {:trigger SamePhase(s, s1, u)} :: u != t ==> SamePhase(s, s1, u))
    && (forall a: nat {:trigger SameLock(s, s1, a, t)} :: SameLock(s, s1, a, t))
    && (forall id: nat, c: nat {:trigger SameSent(s, s1, t, id, c)} :: SameSent(s, s1, t, id, c))
    && (s1.order == s.order
        || (p.Link4? && Registers(p) && s1.order == [p.c] + s.order))
    && (s1.next == s.next || Registers(p))
    && (forall c :: c in s.binding ==> c in s1.binding)
    && (s1.calls == s.calls || (|s1.calls| == |s.calls| + 1 && s1.calls[..|s.calls|] == s.calls))
    && (forall id: nat {:trigger SameBefore(s, s1, id)} :: id < |s.calls| ==> SameBefore(s, s1, id))
    && (s1.done == s.done || (Logs(p) && s1.done == s.done + {p.call.id}))
    && (s1.registry == s.registry
        || (s.registry == None && s1.registry == Some(t)) || (s.registry == Some(t) && s1.registry == None))
    && s.used <= s1.used
  }

  lemma RestGrows(order: seq<nat>, c: nat, pos: Node)
    requires c !in order && (pos == Head || pos.c in order)
    ensures Rest([c] + order, pos) == Rest(order, pos)
    ensures pos != Head ==> Behind([c] + order, pos.c) == Behind(order, pos.c)
  {
    assert ([c] + order)[1..] == order;
  }

  lemma StillListedKept(s: State, s1: State, t: nat, id: nat)
    requires StepOf(s, s1, t) && StillListed(s, id) && id < |s.calls|
    ensures StillListed(s1, id)
    ensures forall c: nat :: Before(s1, id, c) <==> Before(s, id, c)
  {
    assert SameBefore(s, s1, id);
    forall c: nat | Before(s1, id, c) ensures c in s1.order && c in s1.binding {
      assert Before(s, id, c);
    }
  }

  lemma UpToKept(cfg: Config, s: State, s1: State, t: nat, call: Call, rest: seq<nat>)
    requires StepOf(s, s1, t) && UpTo(cfg, s, call, rest) && call.id < |s.calls|
    requires !Logs(PhaseOf(s, t)) || PhaseOf(s, t).call.id != call.id
    ensures UpTo(cfg, s1, call, rest)
  {
    StillListedKept(s, s1, t, call.id);
    forall c: nat ensures Sent(s1, call.id, c) <==> Sent(s, call.id, c) {
      assert SameSent(s, s1, t, call.id, c);
    }
    forall c: nat | Before(s1, call.id, c) && cfg.categoryKind(c) == call.kind
      ensures c in rest || Sent(s1, call.id, c)
    {
      assert Before(s, call.id, c);
    }
  }

  lemma CallKept(cfg: Config, s: State, s1: State, t: nat, p: Phase)
    requires StepOf(s, s1, t) && Logs(p) && CallInv(cfg, s, p)
    requires !Logs(PhaseOf(s, t)) || PhaseOf(s, t).call.id != p.call.id
    requires PhaseOf(s, t).Link4? ==> PhaseOf(s, t).c !in s.order
    ensures CallInv(cfg, s1, p)
  {
    var call := p.call;
    assert s1.calls[call.id] == s.calls[call.id];
    if s1.order != s.order {
      var n := PhaseOf(s, t).c;
      match p {
        case Look(_, pos) => RestGrows(s.order, n, pos);
        case Found(_, c, _) => RestGrows(s.order, n, Cat(c));
        case Locked(_, c, _) => RestGrows(s.order, n, Cat(c));
        case Headed(_, c, _) => RestGrows(s.order, n, Cat(c));
        case Written(_, c, _) => RestGrows(s.order, n, Cat(c));
        case Onward(_, c) => RestGrows(s.order, n, Cat(c));
        case _ =>
      }
    }
    match p {
      case Enter(_) => NothingKept(s, s1, t, call.id);
      case Begin(_) => NothingKept(s, s1, t, call.id);
      case Careful(_, next) => NothingKept(s, s1, t, call.id);
      case Look(_, pos) => UpToKept(cfg, s, s1, t, call, Rest(s.order, pos));
      case Found(_, c, ac) =>
        UpToKept(cfg, s, s1, t, call, Rest(s.order, Cat(c)));
        StillListedKept(s, s1, t, call.id);
      case Locked(_, c, _) => UpToKept(cfg, s, s1, t, call, Rest(s.order, Cat(c)));
      case Headed(_, c, _) => UpToKept(cfg, s, s1, t, call, Rest(s.order, Cat(c)));
      case Written(_, c, _) => UpToKept(cfg, s, s1, t, call, Behind(s.order, c));
      case Onward(_, c) => UpToKept(cfg, s, s1, t, call, Behind(s.order, c));
    }
  }

  lemma NothingKept(s: State, s1: State, t: nat, id: nat)
    requires StepOf(s, s1, t) && NothingSent(s, id) && StillListed(s, id) && id < |s.calls|
    requires !Logs(PhaseOf(s, t)) || PhaseOf(s, t).call.id != id
    ensures NothingSent(s1, id) && StillListed(s1, id)
    ensures forall c: nat :: Before(s1, id, c) <==> Before(s, id, c)
  {
    StillListedKept(s, s1, t, id);
    forall c: nat ensures !Sent(s1, id, c) {
      assert SameSent(s, s1, t, id, c) && !Sent(s, id, c);
    }
  }

  /** The other threads do not notice. */
  lemma OthersKept(cfg: Config, s: State, s1: State, t: nat, u: nat)
    requires Inv(cfg, s) && StepOf(s, s1, t) && t != u
    ensures ThreadInv(cfg, s1, u)
  {
    var p, q := PhaseOf(s, t), PhaseOf(s, u);
    assert ThreadInv(cfg, s, u) && ThreadInv(cfg, s, t) && SamePhase(s, s1, u);
    assert Apart(s, t, u) && Apart(s, u, t);
    if Logs(q) { CallKept(cfg, s, s1, t, q); }
    if Holds(q).Some? { assert SameLock(s, s1, Holds(q).value, t); }
    if Registers(q) { assert !Registers(p); }
  }

  // What a step keeps of the rest

  /** Outputs that nobody writes to, while t holds no half-written record. */
  lemma OutputsKept(cfg: Config, s: State, s1: State, t: nat)
    requires Inv(cfg, s) && StepOf(s, s1, t) && s1.output == s.output && s1.sent == s.sent
    requires !PhaseOf(s, t).Headed? && !PhaseOf(s1, t).Headed? && LocksFit(s, s1, t)
    ensures forall a: nat {:trigger OutputInv(s1, a)} :: OutputInv(s1, a)
    ensures forall a: nat, id: nat, c: nat {:trigger SentOnce(s1, a, id, c)} :: SentOnce(s1, a, id, c)
  {
    forall a: nat ensures OutputInv(s1, a) {
      assert OutputInv(s, a) && SameLock(s, s1, a, t);
      if a in s1.locks && s1.locks[a] != t { assert SamePhase(s, s1, s1.locks[a]); }
    }
    forall a: nat, id: nat, c: nat ensures SentOnce(s1, a, id, c) {
      assert SentOnce(s, a, id, c);
    }
  }

  lemma ServedKept(cfg: Config, s: State, s1: State, t: nat)
    requires Inv(cfg, s) && StepOf(s, s1, t) && s1.done == s.done
    ensures forall id: nat, c: nat {:trigger Served(cfg, s1, id, c)} :: id < |s1.calls| ==> Served(cfg, s1, id, c)
  {
    forall id: nat, c: nat | id < |s1.calls| ensures Served(cfg, s1, id, c) {
      if id in s1.done && Before(s1, id, c) {
        assert SameBefore(s, s1, id) && s1.calls[id] == s.calls[id];
        assert Served(cfg, s, id, c) && Before(s, id, c) && SameSent(s, s1, t, id, c);
      }
    }
  }

  /** The phases before and after fit: a call or a category that is coming in belongs to one thread. */
  ghost predicate Continues(s: State, s1: State, t: nat) {
    var p, p1 := PhaseOf(s, t), PhaseOf(s1, t);
    && (Logs(p1) ==> (Logs(p) && p1.call.id == p.call.id) || p1.call.id == |s.calls|)
    && (Coming(p1).Some? ==> Coming(p1) == Coming(p) || Coming(p1).value !in s.used)
  }

  lemma ApartKept(cfg: Config, s: State, s1: State, t: nat)
    requires Inv(cfg, s) && StepOf(s, s1, t) && Continues(s, s1, t)
    ensures forall u: nat, v: nat {:trigger Apart(s1, u, v)} :: u != v ==> Apart(s1, u, v)
  {
    forall u: nat, v: nat | u != v ensures Apart(s1, u, v) {
      assert Apart(s, u, v) && ThreadInv(cfg, s, u) && ThreadInv(cfg, s, v);
      if u != t { assert SamePhase(s, s1, u); }
      if v != t { assert SamePhase(s, s1, v); }
    }
  }

  lemma ThreadsKept(cfg: Config, s: State, s1: State, t: nat)
    requires Inv(cfg, s) && StepOf(s, s1, t) && ThreadInv(cfg, s1, t)
    ensures forall u: nat {:trigger ThreadInv(cfg, s1, u)} :: ThreadInv(cfg, s1, u)
  {
    forall u: nat ensures ThreadInv(cfg, s1, u) {
      if u != t { OthersKept(cfg, s, s1, t, u); }
    }
  }

  /** A step that leaves the list, the outputs and the finished calls alone. */
  lemma QuietStep(cfg: Config, s: State, s1: State, t: nat)
    requires Inv(cfg, s) && StepOf(s, s1, t) && ThreadInv(cfg, s1, t) && Continues(s, s1, t)
    requires s1.next == s.next && s1.order == s.order && s1.output == s.output && s1.sent == s.sent
    requires s1.calls == s.calls && s1.done == s.done
    requires !PhaseOf(s, t).Headed? && !PhaseOf(s1, t).Headed? && LocksFit(s, s1, t)
    ensures Inv(cfg, s1)
  {
    ThreadsKept(cfg, s, s1, t);
    ApartKept(cfg, s, s1, t);
    OutputsKept(cfg, s, s1, t);
    ServedKept(cfg, s, s1, t);
    ChainKept(s, s1);
    forall id: nat, c: nat | Sent(s1, id, c) ensures Fits(cfg, s1, id, c) { assert Sent(s, id, c); }
  }

  lemma ChainKept(s: State, s1: State)
    requires Chain(s) && s1.next == s.next && s1.order == s.order
    ensures Chain(s1)
  {
    forall i: nat | i < |s1.order| ensures LinkAt(s1, i) { assert LinkAt(s, i); }
  }

  // The walk

  /** Only the phase changes. */
  lemma PhaseStep(cfg: Config, s: State, t: nat, p1: Phase)
    requires Inv(cfg, s) && !PhaseOf(s, t).Headed? && !p1.Headed?
    requires Logs(p1) ==> Logs(PhaseOf(s, t)) && p1.call == PhaseOf(s, t).call && CallInv(cfg, s, p1)
    requires LinkInv(s, p1) && Holds(p1) == None && (Registers(p1) <==> Registers(PhaseOf(s, t)))
    requires Coming(p1).Some? ==> Coming(p1) == Coming(PhaseOf(s, t))
    requires Holds(PhaseOf(s, t)) == None
    ensures Inv(cfg, To(s, t, p1))
  {
    var s1 := To(s, t, p1);
    assert ThreadInv(cfg, s, t);
    if Logs(p1) { SameCall(cfg, s, s1, p1); }
    QuietStep(cfg, s, s1, t);
  }

  /** What a call knows does not depend on the phases, the locks or the outputs. */
  lemma SameCall(cfg: Config, s: State, s1: State, p: Phase)
    requires Logs(p) && CallInv(cfg, s, p)
    requires s1.order == s.order && s1.binding == s.binding && s1.calls == s.calls && s1.done == s.done
    requires s1.before == s.before && s1.sent == s.sent
    ensures CallInv(cfg, s1, p)
  {
    forall c: nat ensures Before(s1, p.call.id, c) <==> Before(s, p.call.id, c) {
    }
    forall c: nat ensures Sent(s1, p.call.id, c) <==> Sent(s, p.call.id, c) {
    }
  }

  lemma EnterStep(cfg: Config, s: State, t: nat)
    requires Inv(cfg, s) && PhaseOf(s, t).Enter?
    ensures Inv(cfg, Apply(cfg, s, Run(t)))
  {
    var call := PhaseOf(s, t).call;
    assert ThreadInv(cfg, s, t);
    FirstIsAll(s);
    PhaseStep(cfg, s, t, Careful(call, NextOf(s, Head)));
  }

  lemma BeginStep(cfg: Config, s: State, t: nat)
    requires Inv(cfg, s) && PhaseOf(s, t).Begin?
    ensures Inv(cfg, Apply(cfg, s, Run(t)))
  {
    var call := PhaseOf(s, t).call;
    assert ThreadInv(cfg, s, t);
    FirstIsAll(s);
    PhaseStep(cfg, s, t, Look(call, NextOf(s, Head)));
  }

  lemma CarefulStep(cfg: Config, s: State, t: nat)
    requires Inv(cfg, s) && PhaseOf(s, t).Careful?
    ensures Inv(cfg, Apply(cfg, s, Run(t)))
  {
    var p := PhaseOf(s, t);
    assert ThreadInv(cfg, s, t);
    if p.next == Head && PrevOf(s, Head) == p.next {
      FinishStep(cfg, s, t, p.call);
    } else {
      PhaseStep(cfg, s, t, Begin(p.call));
    }
  }

  /** A call returns when nothing is ahead of it. */
  lemma FinishStep(cfg: Config, s: State, t: nat, call: Call)
    requires Inv(cfg, s) && Logs(PhaseOf(s, t)) && call == PhaseOf(s, t).call && CallInv(cfg, s, PhaseOf(s, t))
    requires !PhaseOf(s, t).Headed? && Holds(PhaseOf(s, t)) == None
    requires forall c: nat {:trigger Before(s, call.id, c)} ::
      Before(s, call.id, c) && cfg.categoryKind(c) == call.kind ==> Sent(s, call.id, c)
    ensures Inv(cfg, Finish(s, t, call))
  {
    var s1 := Finish(s, t, call);
    assert ThreadInv(cfg, s, t);
    ThreadsKept(cfg, s, s1, t);
    ApartKept(cfg, s, s1, t);
    OutputsKept(cfg, s, s1, t);
    ChainKept(s, s1);
    forall id: nat, c: nat | Sent(s1, id, c) ensures Fits(cfg, s1, id, c) { assert Sent(s, id, c); }
    forall id: nat, c: nat | id < |s1.calls| ensures Served(cfg, s1, id, c) {
      assert Served(cfg, s, id, c);
      if Before(s1, id, c) { assert Before(s, id, c); }
      if Sent(s, id, c) { assert Sent(s1, id, c); }
    }
  }

  lemma LookStep(cfg: Config, s: State, t: nat)
    requires Inv(cfg, s) && PhaseOf(s, t).Look?
    ensures Inv(cfg, Apply(cfg, s, Run(t)))
  {
    var p := PhaseOf(s, t);
    assert ThreadInv(cfg, s, t);
    if p.pos == Head {
      FinishStep(cfg, s, t, p.call);
    } else {
      PhaseStep(cfg, s, t, Found(p.call, p.pos.c, Bound(s, p.pos.c)));
    }
  }

  /** A category that is passed over is taken off what is ahead. */
  lemma Passed(cfg: Config, s: State, call: Call, c: nat)
    requires AllDifferent(s.order) && c in s.order && UpTo(cfg, s, call, Rest(s.order, Cat(c)))
    requires cfg.categoryKind(c) == call.kind ==> !Before(s, call.id, c)
    ensures UpTo(cfg, s, call, Behind(s.order, c))
  {
    RestIsBehind(s.order, c);
  }

  lemma FoundStep(cfg: Config, s: State, t: nat)
    requires Inv(cfg, s) && PhaseOf(s, t).Found?
    ensures Inv(cfg, Apply(cfg, s, Run(t)))
  {
    var p := PhaseOf(s, t);
    assert ThreadInv(cfg, s, t);
    if cfg.categoryKind(p.c) != p.call.kind || p.ac.None? {
      Passed(cfg, s, p.call, p.c);
      PhaseStep(cfg, s, t, Onward(p.call, p.c));
    } else if p.ac.value !in s.locks {
      LockStep(cfg, s, t, p.ac.value, Locked(p.call, p.c, p.ac.value), s.quotes);
    }
  }

  /** A free lock is taken. */
  lemma LockStep(cfg: Config, s: State, t: nat, a: nat, p1: Phase, quotes: map<nat, int>)
    requires Inv(cfg, s) && a !in s.locks && Holds(p1) == Some(a) && !p1.Headed?
    requires Holds(PhaseOf(s, t)) == None && !PhaseOf(s, t).Idle?
    requires Logs(p1) ==> Logs(PhaseOf(s, t)) && p1.call == PhaseOf(s, t).call && CallInv(cfg, s, p1)
    requires (Registers(p1) <==> Registers(PhaseOf(s, t))) && Coming(p1) == None && LinkInv(s, p1)
    ensures Inv(cfg, To(s, t, p1).(locks := s.locks[a := t], quotes := quotes))
  {
    var s1 := To(s, t, p1).(locks := s.locks[a := t], quotes := quotes);
    assert ThreadInv(cfg, s, t);
    if Logs(p1) { SameCall(cfg, s, s1, p1); }
    QuietStep(cfg, s, s1, t);
  }

  /** A lock is given back. */
  lemma UnlockStep(cfg: Config, s: State, t: nat, a: nat, p1: Phase)
    requires Inv(cfg, s) && Holds(PhaseOf(s, t)) == Some(a) && !PhaseOf(s, t).Headed?
    requires Holds(p1) == None && !p1.Headed?
    requires Logs(p1) ==> Logs(PhaseOf(s, t)) && p1.call == PhaseOf(s, t).call && CallInv(cfg, s, p1)
    requires (Registers(p1) <==> Registers(PhaseOf(s, t))) && Coming(p1) == None && LinkInv(s, p1)
    ensures Inv(cfg, To(s, t, p1).(locks := s.locks - {a}))
  {
    var s1 := To(s, t, p1).(locks := s.locks - {a});
    assert ThreadInv(cfg, s, t);
    if Logs(p1) { SameCall(cfg, s, s1, p1); }
    QuietStep(cfg, s, s1, t);
  }

  lemma WrittenStep(cfg: Config, s: State, t: nat)
    requires Inv(cfg, s) && PhaseOf(s, t).Written?
    ensures Inv(cfg, Apply(cfg, s, Run(t)))
  {
    var p := PhaseOf(s, t);
    assert ThreadInv(cfg, s, t);
    UnlockStep(cfg, s, t, p.a, Onward(p.call, p.c));
  }

  lemma OnwardStep(cfg: Config, s: State, t: nat)
    requires Inv(cfg, s) && PhaseOf(s, t).Onward?
    ensures Inv(cfg, Apply(cfg, s, Run(t)))
  {
    var p := PhaseOf(s, t);
    assert ThreadInv(cfg, s, t);
    NextIsRest(s, p.c);
    PhaseStep(cfg, s, t, Look(p.call, NextOf(s, Cat(p.c))));
  }

  // The records

  lemma BodiesAppend(out: seq<Write>, w: Write, id: nat, c: nat)
    ensures Bodies(out + [w], id, c) == Bodies(out, id, c) + if w.Body? && w.id == id && w.c == c then 1 else 0
  {
    assert (out + [w])[..|out|] == out;
  }

  /** A step that writes to an output. */
  lemma WriteStep(cfg: Config, s: State, s1: State, t: nat)
    requires Inv(cfg, s) && StepOf(s, s1, t) && ThreadInv(cfg, s1, t) && Continues(s, s1, t)
    requires s1.next == s.next && s1.order == s.order && s1.calls == s.calls && s1.done == s.done
    requires forall a: nat {:trigger OutputInv(s1, a)} :: OutputInv(s1, a)
    requires forall a: nat, id: nat, c: nat {:trigger SentOnce(s1, a, id, c)} :: SentOnce(s1, a, id, c)
    requires forall id: nat, c: nat {:trigger Sent(s1, id, c)} :: Sent(s1, id, c) ==> Fits(cfg, s1, id, c)
    ensures Inv(cfg, s1)
  {
    ThreadsKept(cfg, s, s1, t);
    ApartKept(cfg, s, s1, t);
    ServedKept(cfg, s, s1, t);
    ChainKept(s, s1);
  }

  lemma HeaderStep(cfg: Config, s: State, t: nat)
    requires Inv(cfg, s) && PhaseOf(s, t).Locked? && !PhaseOf(s, t).call.raw
    ensures Inv(cfg, Apply(cfg, s, Run(t)))
  {
    var p, s1 := PhaseOf(s, t), Apply(cfg, s, Run(t));
    assert ThreadInv(cfg, s, t);
    SameCall(cfg, s, s1, Headed(p.call, p.c, p.a));
    forall id: nat, c: nat | Sent(s1, id, c) ensures Fits(cfg, s1, id, c) { assert Sent(s, id, c); }
    HeaderOutputs(cfg, s, s1, t);
    WriteStep(cfg, s, s1, t);
  }

  lemma HeaderOutputs(cfg: Config, s: State, s1: State, t: nat)
    requires Inv(cfg, s) && StepOf(s, s1, t) && PhaseOf(s, t).Locked? && ThreadInv(cfg, s, t)
    requires var p := PhaseOf(s, t);
      s1 == To(Put(s, p.a, Header(p.call.id, p.c)), t, Headed(p.call, p.c, p.a))
    ensures forall a: nat {:trigger OutputInv(s1, a)} :: OutputInv(s1, a)
    ensures forall a: nat, id: nat, c: nat {:trigger SentOnce(s1, a, id, c)} :: SentOnce(s1, a, id, c)
  {
    var p := PhaseOf(s, t);
    var w := Header(p.call.id, p.c);
    forall a: nat ensures OutputInv(s1, a) {
      assert OutputInv(s, a);
      if a == p.a {
        var out := Output(s, a);
        assert (out + [w])[..|out|] == out;
      } else {
        OtherOutput(s, s1, t, a);
      }
    }
    forall a: nat, id: nat, c: nat ensures SentOnce(s1, a, id, c) {
      assert SentOnce(s, a, id, c);
      if a == p.a { BodiesAppend(Output(s, a), w, id, c); }
    }
  }

  /** Another appender's output, when t changes its phase within the record it writes. */
  lemma OtherOutput(s: State, s1: State, t: nat, a: nat)
    requires OutputInv(s, a) && StepOf(s, s1, t) && s1.locks == s.locks && Output(s1, a) == Output(s, a)
    requires Holds(PhaseOf(s, t)) == Holds(PhaseOf(s1, t)) && Holds(PhaseOf(s, t)) != Some(a)
    ensures OutputInv(s1, a)
  {
    if a in s.locks && s.locks[a] != t { assert SamePhase(s, s1, s.locks[a]); }
  }

  /** The body completes the record. */
  lemma DeliverStep(cfg: Config, s: State, t: nat)
    requires Inv(cfg, s)
    requires PhaseOf(s, t).Headed? || (PhaseOf(s, t).Locked? && PhaseOf(s, t).call.raw)
    ensures Inv(cfg, Apply(cfg, s, Run(t)))
  {
    var p := PhaseOf(s, t);
    assert ThreadInv(cfg, s, t);
    RestIsBehind(s.order, p.c);
    assert !Sent(s, p.call.id, p.c);
    Delivered(cfg, s, Deliver(s, t, p.call, p.c, p.a), t);
  }

  lemma Delivered(cfg: Config, s: State, s1: State, t: nat)
    requires Inv(cfg, s)
    requires PhaseOf(s, t).Headed? || (PhaseOf(s, t).Locked? && PhaseOf(s, t).call.raw)
    requires s1 == Deliver(s, t, PhaseOf(s, t).call, PhaseOf(s, t).c, PhaseOf(s, t).a)
    requires !Sent(s, PhaseOf(s, t).call.id, PhaseOf(s, t).c)
    ensures Inv(cfg, s1)
  {
    var p := PhaseOf(s, t);
    assert ThreadInv(cfg, s, t);
    DeliverIsStep(cfg, s, s1, t);
    DeliveredCall(cfg, s, s1, t);
    DeliveredOutputs(cfg, s, s1, t);
    forall id: nat, c: nat | Sent(s1, id, c) ensures Fits(cfg, s1, id, c) {
      if id != p.call.id || c != p.c { assert Sent(s, id, c); }
    }
    WriteStep(cfg, s, s1, t);
  }

  lemma DeliverIsStep(cfg: Config, s: State, s1: State, t: nat)
    requires Inv(cfg, s) && (PhaseOf(s, t).Headed? || PhaseOf(s, t).Locked?)
    requires s1 == Deliver(s, t, PhaseOf(s, t).call, PhaseOf(s, t).c, PhaseOf(s, t).a)
    ensures StepOf(s, s1, t)
  {
    forall id: nat, c: nat ensures SameSent(s, s1, t, id, c) {
    }
  }

  lemma DeliveredOutputs(cfg: Config, s: State, s1: State, t: nat)
    requires Inv(cfg, s) && StepOf(s, s1, t)
    requires PhaseOf(s, t).Headed? || (PhaseOf(s, t).Locked? && PhaseOf(s, t).call.raw)
    requires s1 == Deliver(s, t, PhaseOf(s, t).call, PhaseOf(s, t).c, PhaseOf(s, t).a)
    requires !Sent(s, PhaseOf(s, t).call.id, PhaseOf(s, t).c)
    ensures forall a: nat {:trigger OutputInv(s1, a)} :: OutputInv(s1, a)
    ensures forall a: nat, id: nat, c: nat {:trigger SentOnce(s1, a, id, c)} :: SentOnce(s1, a, id, c)
  {
    var p := PhaseOf(s, t);
    assert ThreadInv(cfg, s, t);
    forall a: nat ensures OutputInv(s1, a) {
      assert OutputInv(s, a);
      if a == p.a { DeliveredRecord(s, s1, t, p); } else { OtherOutput(s, s1, t, a); }
    }
    forall a: nat, id: nat, c: nat ensures SentOnce(s1, a, id, c) {
      assert SentOnce(s, a, id, c);
      DeliveredOnce(s, s1, t, p, a, id, c);
    }
  }

  lemma DeliveredRecord(s: State, s1: State, t: nat, p: Phase)
    requires (p.Headed? && !p.call.raw) || (p.Locked? && p.call.raw)
    requires PhaseOf(s, t) == p && s1 == Deliver(s, t, p.call, p.c, p.a)
    requires p.a in s.locks && s.locks[p.a] == t && OutputInv(s, p.a)
    ensures OutputInv(s1, p.a)
  {
    var out, w := Output(s, p.a), Body(p.call.id, p.c, p.call.raw);
    assert Output(s1, p.a) == out + [w] && PhaseOf(s1, t).Written?;
    RecordCompleted(out, w);
  }

  lemma DeliveredOnce(s: State, s1: State, t: nat, p: Phase, a: nat, id: nat, c: nat)
    requires p.Headed? || p.Locked?
    requires s1 == Deliver(s, t, p.call, p.c, p.a) && !Sent(s, p.call.id, p.c) && SentOnce(s, a, id, c)
    ensures SentOnce(s1, a, id, c)
  {
    var out, w := Output(s, a), Body(p.call.id, p.c, p.call.raw);
    if a == p.a {
      assert Output(s1, a) == out + [w];
      BodiesAppend(out, w, id, c);
    } else {
      assert Output(s1, a) == out;
    }
  }

  lemma RecordCompleted(out: seq<Write>, w: Write)
    requires w.Body?
    requires if w.raw then Records(out)
             else out != [] && out[|out| - 1] == Header(w.id, w.c) && Records(out[..|out| - 1])
    ensures Records(out + [w])
  {
    var all := out + [w];
    if w.raw {
      assert all[..|all| - 1] == out;
    } else {
      assert all[..|all| - 2] == out[..|out| - 1] && all[|all| - 2] == out[|out| - 1];
    }
  }

  lemma DeliveredCall(cfg: Config, s: State, s1: State, t: nat)
    requires Inv(cfg, s) && (PhaseOf(s, t).Headed? || PhaseOf(s, t).Locked?)
    requires CallInv(cfg, s, PhaseOf(s, t)) && s1 == Deliver(s, t, PhaseOf(s, t).call, PhaseOf(s, t).c, PhaseOf(s, t).a)
    ensures CallInv(cfg, s1, PhaseOf(s1, t))
  {
    var p := PhaseOf(s, t);
    RestIsBehind(s.order, p.c);
    BehindHasNoMore(s.order, p.c);
    forall c: nat ensures Before(s1, p.call.id, c) <==> Before(s, p.call.id, c) {
    }
    forall c: nat ensures Sent(s1, p.call.id, c) <==> Sent(s, p.call.id, c) || c == p.c {
    }
  }

  // Registrations

  /** The registry lock is taken. */
  lemma RegistryStep(cfg: Config, s: State, t: nat, p1: Phase, appenders: seq<nat>)
    requires Inv(cfg, s) && s.registry.None? && (PhaseOf(s, t).WaitCategory? || PhaseOf(s, t).WaitAppender?)
    requires (p1.Reading? && Coming(PhaseOf(s, t)) == Coming(p1)) || p1.Walking?
    ensures Inv(cfg, To(s, t, p1).(registry := Some(t), appenders := appenders))
  {
    assert ThreadInv(cfg, s, t);
    QuietStep(cfg, s, To(s, t, p1).(registry := Some(t), appenders := appenders), t);
  }

  lemma WaitStep(cfg: Config, s: State, t: nat)
    requires Inv(cfg, s) && (PhaseOf(s, t).WaitCategory? || PhaseOf(s, t).WaitAppender?)
    ensures Inv(cfg, Apply(cfg, s, Run(t)))
  {
    if s.registry.None? {
      match PhaseOf(s, t)
      case WaitCategory(c) => RegistryStep(cfg, s, t, Reading(c), s.appenders);
      case WaitAppender(a) => RegistryStep(cfg, s, t, Walking(a, NextOf(s, Head)), [a] + s.appenders);
    }
  }

  lemma ReleaseStep(cfg: Config, s: State, t: nat)
    requires Inv(cfg, s) && PhaseOf(s, t).Releasing?
    ensures Inv(cfg, Apply(cfg, s, Run(t)))
  {
    assert ThreadInv(cfg, s, t);
    QuietStep(cfg, s, Apply(cfg, s, Run(t)), t);
  }

  lemma ReadStep(cfg: Config, s: State, t: nat)
    requires Inv(cfg, s) && PhaseOf(s, t).Reading?
    ensures Inv(cfg, Apply(cfg, s, Run(t)))
  {
    assert ThreadInv(cfg, s, t);
    PhaseStep(cfg, s, t, Link1(PhaseOf(s, t).c, NextOf(s, Head)));
  }

  /** The two writes to prev, which no walk reads. */
  lemma FirstPrevStep(cfg: Config, s: State, t: nat)
    requires Inv(cfg, s) && PhaseOf(s, t).Link1?
    ensures Inv(cfg, Apply(cfg, s, Run(t)))
  {
    var p := PhaseOf(s, t);
    assert ThreadInv(cfg, s, t);
    PrevStep(cfg, s, t, Link2(p.c, p.next), s.prev[p.next := Cat(p.c)]);
  }

  lemma NewPrevStep(cfg: Config, s: State, t: nat)
    requires Inv(cfg, s) && PhaseOf(s, t).Link3?
    ensures Inv(cfg, Apply(cfg, s, Run(t)))
  {
    var p := PhaseOf(s, t);
    assert ThreadInv(cfg, s, t);
    PrevStep(cfg, s, t, Link4(p.c, p.next), s.prev[Cat(p.c) := Head]);
  }

  /** Nothing depends on prev but the test for an empty list. */
  lemma PrevStep(cfg: Config, s: State, t: nat, p1: Phase, prev: map<Node, Node>)
    requires Inv(cfg, s) && (p1.Link2? || p1.Link4?) && LinkInv(s, p1)
    requires Registers(PhaseOf(s, t)) && Holds(PhaseOf(s, t)) == None && Coming(PhaseOf(s, t)) == Coming(p1)
    ensures Inv(cfg, To(s, t, p1).(prev := prev))
  {
    assert ThreadInv(cfg, s, t);
    QuietStep(cfg, s, To(s, t, p1).(prev := prev), t);
  }

  /** A step that writes a link. */
  lemma LinkStep(cfg: Config, s: State, s1: State, t: nat)
    requires Inv(cfg, s) && StepOf(s, s1, t) && ThreadInv(cfg, s1, t) && Continues(s, s1, t) && Chain(s1)
    requires AllDifferent(s1.order) && forall c :: c in s1.order ==> c in s1.used
    requires s1.output == s.output && s1.sent == s.sent && s1.calls == s.calls && s1.done == s.done
    requires !PhaseOf(s, t).Headed? && !PhaseOf(s1, t).Headed? && LocksFit(s, s1, t)
    ensures Inv(cfg, s1)
  {
    ThreadsKept(cfg, s, s1, t);
    ApartKept(cfg, s, s1, t);
    OutputsKept(cfg, s, s1, t);
    ServedKept(cfg, s, s1, t);
    forall id: nat, c: nat | Sent(s1, id, c) ensures Fits(cfg, s1, id, c) { assert Sent(s, id, c); }
  }

  /** new->next is written while nothing leads to the new node. */
  lemma NextStep(cfg: Config, s: State, t: nat)
    requires Inv(cfg, s) && PhaseOf(s, t).Link2?
    ensures Inv(cfg, Apply(cfg, s, Run(t)))
  {
    var p, s1 := PhaseOf(s, t), Apply(cfg, s, Run(t));
    assert ThreadInv(cfg, s, t);
    forall i: nat | i < |s1.order| ensures LinkAt(s1, i) {
      assert LinkAt(s, i) && s.order[i] in s.order;
    }
    LinkStep(cfg, s, s1, t);
  }

  /** The last write puts the new node in front of the list, for every walk that starts later. */
  lemma PublishStep(cfg: Config, s: State, t: nat)
    requires Inv(cfg, s) && PhaseOf(s, t).Link4?
    ensures Inv(cfg, Apply(cfg, s, Run(t)))
  {
    var p, s1 := PhaseOf(s, t), Apply(cfg, s, Run(t));
    assert ThreadInv(cfg, s, t);
    assert s1.order[1..] == s.order;
    forall i: nat | i < |s1.order| ensures LinkAt(s1, i) {
      if i > 0 { assert LinkAt(s, i - 1); }
    }
    LinkStep(cfg, s, s1, t);
  }

  /** A category gets an appender, or another one. */
  lemma RebindStep(cfg: Config, s: State, t: nat, c: nat, a: nat, p1: Phase)
    requires Inv(cfg, s) && (PhaseOf(s, t).Binding? || PhaseOf(s, t).Walking?) && (p1.Counting? || p1.CountingFor?)
    ensures Inv(cfg, To(s, t, p1).(binding := s.binding[c := a]))
  {
    assert ThreadInv(cfg, s, t);
    QuietStep(cfg, s, To(s, t, p1).(binding := s.binding[c := a]), t);
  }

  lemma BindStep(cfg: Config, s: State, t: nat)
    requires Inv(cfg, s) && PhaseOf(s, t).Binding?
    ensures Inv(cfg, Apply(cfg, s, Run(t)))
  {
    var c := PhaseOf(s, t).c;
    match FirstMatch(cfg, s.appenders, c)
    case None => PhaseStep(cfg, s, t, Releasing);
    case Some(a) => RebindStep(cfg, s, t, c, a, Counting(a));
  }

  lemma WalkStep(cfg: Config, s: State, t: nat)
    requires Inv(cfg, s) && PhaseOf(s, t).Walking?
    ensures Inv(cfg, Apply(cfg, s, Run(t)))
  {
    var p := PhaseOf(s, t);
    if p.pos == Head {
      PhaseStep(cfg, s, t, Releasing);
    } else if cfg.appenderKind(p.a) != cfg.wanted(p.pos.c) {
      PhaseStep(cfg, s, t, Walking(p.a, NextOf(s, p.pos)));
    } else {
      RebindStep(cfg, s, t, p.pos.c, p.a, CountingFor(p.a, p.pos.c));
    }
  }

  lemma CountStep(cfg: Config, s: State, t: nat)
    requires Inv(cfg, s) && PhaseOf(s, t).Counting?
    ensures Inv(cfg, Apply(cfg, s, Run(t)))
  {
    var p := PhaseOf(s, t);
    assert ThreadInv(cfg, s, t);
    if p.a !in s.locks { LockStep(cfg, s, t, p.a, Counted(p.a), s.quotes[p.a := Quote(s, p.a) + 1]); }
  }

  lemma CountForStep(cfg: Config, s: State, t: nat)
    requires Inv(cfg, s) && PhaseOf(s, t).CountingFor?
    ensures Inv(cfg, Apply(cfg, s, Run(t)))
  {
    var p := PhaseOf(s, t);
    assert ThreadInv(cfg, s, t);
    if p.a !in s.locks { LockStep(cfg, s, t, p.a, CountedFor(p.a, p.c), s.quotes[p.a := Quote(s, p.a) + 1]); }
  }

  lemma CountedStep(cfg: Config, s: State, t: nat)
    requires Inv(cfg, s) && (PhaseOf(s, t).Counted? || PhaseOf(s, t).CountedFor?)
    ensures Inv(cfg, Apply(cfg, s, Run(t)))
  {
    var p := PhaseOf(s, t);
    assert ThreadInv(cfg, s, t);
    UnlockStep(cfg, s, t, p.a, if p.Counted? then Releasing else Walking(p.a, NextOf(s, Cat(p.c))));
  }

  // Calls and registrations begin

  lemma StartCategoryStep(cfg: Config, s: State, t: nat, c: nat)
    requires Inv(cfg, s)
    ensures Inv(cfg, Apply(cfg, s, StartCategory(t, c)))
  {
    var s1 := To(s, t, WaitCategory(c)).(used := s.used + {c});
    assert ThreadInv(cfg, s, t);
    if PhaseOf(s, t).Idle? && c !in s.used { QuietStep(cfg, s, s1, t); }
  }

  lemma StartAppenderStep(cfg: Config, s: State, t: nat, a: nat)
    requires Inv(cfg, s)
    ensures Inv(cfg, Apply(cfg, s, StartAppender(t, a)))
  {
    var s1 := To(s, t, WaitAppender(a)).(usedAppenders := s.usedAppenders + {a});
    assert ThreadInv(cfg, s, t);
    if PhaseOf(s, t).Idle? && a !in s.usedAppenders { QuietStep(cfg, s, s1, t); }
  }

  lemma StartLogStep(cfg: Config, s: State, t: nat, kind: string, raw: bool)
    requires Inv(cfg, s)
    ensures Inv(cfg, Apply(cfg, s, StartLog(t, kind, raw)))
  {
    if PhaseOf(s, t).Idle? { CallBegins(cfg, s, t, Call(|s.calls|, kind, raw)); }
  }

  lemma CallBegins(cfg: Config, s: State, t: nat, call: Call)
    requires Inv(cfg, s) && PhaseOf(s, t).Idle? && call.id == |s.calls|
    ensures Inv(cfg, To(s, t, Enter(call)).(calls := s.calls + [call], before := s.before[call.id := Listed(s)]))
  {
    var s1 := To(s, t, Enter(call)).(calls := s.calls + [call], before := s.before[call.id := Listed(s)]);
    assert ThreadInv(cfg, s, t);
    forall c: nat ensures !Sent(s1, call.id, c) {
      assert Sent(s1, call.id, c) <==> Sent(s, call.id, c);
    }
    ThreadsKept(cfg, s, s1, t);
    ApartKept(cfg, s, s1, t);
    OutputsKept(cfg, s, s1, t);
    ServedKept(cfg, s, s1, t);
    ChainKept(s, s1);
    forall id: nat, c: nat | Sent(s1, id, c) ensures Fits(cfg, s1, id, c) { assert Sent(s, id, c); }
  }
}

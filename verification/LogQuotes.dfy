/** The counters of the appenders over all runs. A counter lags behind only while a registration that holds the
    registry lock has bound a category and is about to count it. Whenever the lock is free it is the number of
    bindings that were ever made to its appender, as nobody counts down when a category gets another one. */
module LogQuotes {
  import opened Options
  import opened Sequences
  import opened LogWalk
  import opened LogRuns

  // Bindings that are made

  /** The category that a step binds, and the appender. */
  function Binds(cfg: Config, s: State, action: Action): seq<(nat, nat)> {
    if !action.Run? then []
    else
      match PhaseOf(s, action.t)
      case Binding(c) =>
        var found := FirstMatch(cfg, s.appenders, c);
        if found.Some? then [(c, found.value)] else []
      case Walking(a, pos) =>
        if pos != Head && cfg.appenderKind(a) == cfg.wanted(pos.c) then [(pos.c, a)] else []
      case _ => []
  }

  /** All bindings that a run makes, in turn. */
  function Bindings(cfg: Config, s: State, actions: seq<Action>): seq<(nat, nat)>
    decreases |actions|
  {
    if actions == [] then [] else Binds(cfg, s, actions[0]) + Bindings(cfg, Apply(cfg, s, actions[0]), actions[1..])
  }

  predicate Made(hist: seq<(nat, nat)>, c: nat, a: nat) {
    (c, a) in hist
  }

  /** How many were made to an appender. */
  function MadeTo(hist: seq<(nat, nat)>, a: nat): nat {
    if hist == [] then 0
    else MadeTo(hist[..|hist| - 1], a) + if hist[|hist| - 1].1 == a then 1 else 0
  }

  lemma MadeToNext(hist: seq<(nat, nat)>, c: nat, b: nat, a: nat)
    ensures MadeTo(hist + [(c, b)], a) == MadeTo(hist, a) + if a == b then 1 else 0
    ensures forall x: nat, y: nat {:trigger Made(hist, x, y)} {:trigger Made(hist + [(c, b)], x, y)} ::
              Made(hist + [(c, b)], x, y) <==> Made(hist, x, y) || (x == c && y == b)
  {
    var next := hist + [(c, b)];
    assert next[..|next| - 1] == hist;
  }

  lemma MadeOnce(hist: seq<(nat, nat)>, c: nat, a: nat)
    requires NoRepeats(hist) && !Made(hist, c, a)
    ensures NoRepeats(hist + [(c, a)])
  {
    InsertNoRepeats(hist, |hist|, (c, a));
    assert InsertAt(hist, |hist|, (c, a)) == hist + [(c, a)];
  }

  // The bindings that are in force

  /** The number of listed categories that are bound to an appender. */
  function Count(order: seq<nat>, binding: map<nat, nat>, a: nat): nat {
    if order == [] then 0
    else Count(order[1..], binding, a) + if order[0] in binding && binding[order[0]] == a then 1 else 0
  }

  function InForce(order: seq<nat>, binding: map<nat, nat>, a: nat): set<nat> {
    set c | c in order && c in binding && binding[c] == a
  }

  lemma {:induction false} CountIsSize(order: seq<nat>, binding: map<nat, nat>, a: nat)
    requires AllDifferent(order)
    ensures Count(order, binding, a) == |InForce(order, binding, a)|
  {
    if order != [] {
      CountIsSize(order[1..], binding, a);
      var c, rest := order[0], InForce(order[1..], binding, a);
      if c in binding && binding[c] == a {
        assert InForce(order, binding, a) == rest + {c};
      } else {
        assert InForce(order, binding, a) == rest;
      }
    }
  }

  function EverBound(hist: seq<(nat, nat)>, a: nat): set<nat> {
    set p | p in hist && p.1 == a :: p.0
  }

  lemma {:induction false} MadeIsSize(hist: seq<(nat, nat)>, a: nat)
    requires NoRepeats(hist)
    ensures MadeTo(hist, a) == |EverBound(hist, a)|
  {
    if hist != [] {
      var rest, p := hist[..|hist| - 1], hist[|hist| - 1];
      assert hist == rest + [p];
      forall i: nat, j: nat | i < |rest| && j < |rest| && i != j ensures Differ(rest, i, j) {
        assert Differ(hist, i, j);
      }
      forall i: nat | i < |rest| ensures rest[i] != p { assert Differ(hist, i, |hist| - 1); }
      MadeIsSize(rest, a);
      if p.1 == a {
        assert forall x :: x in EverBound(rest, a) ==> (x, a) in rest;
        assert p == (p.0, a) && p !in rest;
        assert EverBound(hist, a) == EverBound(rest, a) + {p.0};
      } else {
        assert EverBound(hist, a) == EverBound(rest, a);
      }
    }
  }

  lemma SameSize(s: set<nat>, t: set<nat>)
    requires s <= t
    ensures |s| == |t| <==> s == t
  {
    assert t == s + (t - s);
  }

  lemma {:induction false} MatchIs(cfg: Config, appenders: seq<nat>, c: nat)
    requires FirstMatch(cfg, appenders, c).Some?
    ensures var a := FirstMatch(cfg, appenders, c).value; a in appenders && cfg.appenderKind(a) == cfg.wanted(c)
  {
    if cfg.appenderKind(appenders[0]) != cfg.wanted(c) { MatchIs(cfg, appenders[1..], c); }
  }

  // What every step keeps

  /** The phase of the thread that holds the registry lock. */
  function Holder(s: State): Phase {
    if s.registry.Some? then PhaseOf(s, s.registry.value) else Idle
  }

  /** The appender whose counter is about to be raised. */
  function Lagging(p: Phase): Option<nat> {
    match p
    case Counting(a) => Some(a)
    case CountingFor(a, _) => Some(a)
    case _ => None
  }

  /** A walk that binds categories to a new appender has bound none of those ahead. */
  ghost predicate Ahead(s: State, hist: seq<(nat, nat)>, rest: seq<nat>, a: nat) {
    a in s.appenders && forall c: nat {:trigger Made(hist, c, a)} :: c in rest ==> !Made(hist, c, a)
  }

  ghost predicate HolderInv(s: State, hist: seq<(nat, nat)>, p: Phase) {
    match p
    case Binding(c) => c in s.order && c !in s.binding
    case Walking(a, pos) => (pos == Head || pos.c in s.order) && Ahead(s, hist, Rest(s.order, pos), a)
    case CountingFor(a, c) => c in s.order && Ahead(s, hist, Behind(s.order, c), a)
    case CountedFor(a, c) => c in s.order && Ahead(s, hist, Behind(s.order, c), a)
    case _ => true
  }

  /** Listed categories were bound to listed appenders of their types, and are bound since. */
  predicate MadeFits(cfg: Config, s: State, hist: seq<(nat, nat)>, c: nat, a: nat) {
    Made(hist, c, a) ==> c in s.order && a in s.appenders && cfg.appenderKind(a) == cfg.wanted(c) && c in s.binding
  }

  /** A binding in force was made. */
  predicate BindingFits(s: State, hist: seq<(nat, nat)>, c: nat) {
    c in s.binding ==> Made(hist, c, s.binding[c])
  }

  predicate QuoteFits(s: State, hist: seq<(nat, nat)>, a: nat) {
    Quote(s, a) + (if Lagging(Holder(s)) == Some(a) then 1 else 0) == MadeTo(hist, a)
  }

  /** An appender that is still to be listed. */
  predicate WaitFits(s: State, t: nat) {
    var p := PhaseOf(s, t);
    p.WaitAppender? ==> p.a in s.usedAppenders && p.a !in s.appenders
  }

  predicate WaitApart(s: State, t: nat, u: nat) {
    var p, q := PhaseOf(s, t), PhaseOf(s, u);
    p.WaitAppender? && q.WaitAppender? ==> p.a != q.a
  }

  ghost predicate QuoteInv(cfg: Config, s: State, hist: seq<(nat, nat)>) {
    && (forall a :: a in s.appenders ==> a in s.usedAppenders) && NoRepeats(hist)
    && (forall c: nat, a: nat {:trigger Made(hist, c, a)} :: MadeFits(cfg, s, hist, c, a))
    && (forall c: nat {:trigger BindingFits(s, hist, c)} :: BindingFits(s, hist, c))
    && (forall a: nat {:trigger QuoteFits(s, hist, a)} :: QuoteFits(s, hist, a))
    && (forall t: nat {:trigger WaitFits(s, t)} :: WaitFits(s, t))
    && (forall t: nat, u: nat {:trigger WaitApart(s, t, u)} :: t != u ==> WaitApart(s, t, u))
    && HolderInv(s, hist, Holder(s))
  }

  lemma HolderIs(cfg: Config, s: State, t: nat, hist: seq<(nat, nat)>)
    requires QuoteInv(cfg, s, hist) && s.registry == Some(t)
    ensures Holder(s) == PhaseOf(s, t) && HolderInv(s, hist, PhaseOf(s, t))
  {
  }

  /** Nothing the counters depend on has changed. */
  predicate SameRegistry(s: State, s1: State) {
    && s1.order == s.order && s1.binding == s.binding && s1.appenders == s.appenders && s1.quotes == s.quotes
    && s1.usedAppenders == s.usedAppenders
  }

  /** Only thread t has moved, and it does not wait to list an appender. */
  ghost predicate Moves(s: State, s1: State, t: nat) {
    && !PhaseOf(s1, t).WaitAppender?
    && forall u: nat {:trigger PhaseOf(s1, u)} :: u != t ==> PhaseOf(s1, u) == PhaseOf(s, u)
  }

  lemma WaitsKept(s: State, s1: State, t: nat)
    requires Moves(s, s1, t) && s.usedAppenders <= s1.usedAppenders
    requires forall u: nat {:trigger WaitFits(s, u)} :: WaitFits(s, u)
    requires forall u: nat, v: nat {:trigger WaitApart(s, u, v)} :: u != v ==> WaitApart(s, u, v)
    requires s1.appenders == s.appenders
          || (PhaseOf(s, t).WaitAppender? && s1.appenders == [PhaseOf(s, t).a] + s.appenders)
    ensures forall u: nat {:trigger WaitFits(s1, u)} :: WaitFits(s1, u)
    ensures forall u: nat, v: nat {:trigger WaitApart(s1, u, v)} :: u != v ==> WaitApart(s1, u, v)
  {
    forall u: nat ensures WaitFits(s1, u) {
      if u != t { assert WaitFits(s, u) && WaitApart(s, u, t); }
    }
    forall u: nat, v: nat | u != v ensures WaitApart(s1, u, v) {
      if u != t && v != t { assert WaitApart(s, u, v); }
    }
  }

  /** A step that touches neither lists nor bindings nor counters. */
  lemma QuietKeeps(cfg: Config, s: State, s1: State, t: nat, hist: seq<(nat, nat)>)
    requires QuoteInv(cfg, s, hist) && SameRegistry(s, s1) && Moves(s, s1, t)
    requires Lagging(Holder(s1)) == Lagging(Holder(s)) && HolderInv(s1, hist, Holder(s1))
    ensures QuoteInv(cfg, s1, hist)
  {
    WaitsKept(s, s1, t);
    forall c: nat, a: nat ensures MadeFits(cfg, s1, hist, c, a) { assert MadeFits(cfg, s, hist, c, a); }
    forall c: nat ensures BindingFits(s1, hist, c) { assert BindingFits(s, hist, c); }
    forall a: nat ensures QuoteFits(s1, hist, a) { assert QuoteFits(s, hist, a); }
  }

  lemma HolderKept(s: State, s1: State, hist: seq<(nat, nat)>)
    requires SameRegistry(s, s1) && HolderInv(s, hist, Holder(s)) && Holder(s1) == Holder(s)
    ensures HolderInv(s1, hist, Holder(s1))
  {
  }

  /** Logging and the steps outside the registry lock. */
  lemma OutsideStep(cfg: Config, s: State, t: nat, hist: seq<(nat, nat)>)
    requires Inv(cfg, s) && QuoteInv(cfg, s, hist) && !Registers(PhaseOf(s, t)) && !PhaseOf(s, t).WaitAppender?
    ensures QuoteInv(cfg, Apply(cfg, s, Run(t)), hist)
  {
    var s1 := Apply(cfg, s, Run(t));
    assert ThreadInv(cfg, s, t);
    if s1 != s {
      OutsideMoves(cfg, s, t);
      OutsideKeeps(cfg, s, s1, t, hist);
    }
  }

  /** What such a step leaves alone. */
  ghost predicate Outside(s: State, s1: State, t: nat) {
    && SameRegistry(s, s1) && Moves(s, s1, t)
    && (s1.registry == s.registry || (s.registry == None && s1.registry == Some(t) && PhaseOf(s1, t).Reading?))
  }

  lemma OutsideTo(s: State, s1: State, t: nat, p: Phase)
    requires s1.threads == s.threads[t := p] && !p.WaitAppender? && SameRegistry(s, s1)
    requires s1.registry == s.registry || (s.registry == None && s1.registry == Some(t) && p.Reading?)
    ensures Outside(s, s1, t)
  {
  }

  lemma OutsideMoves(cfg: Config, s: State, t: nat)
    requires !Registers(PhaseOf(s, t)) && !PhaseOf(s, t).WaitAppender? && !PhaseOf(s, t).Idle?
    requires Apply(cfg, s, Run(t)) != s
    ensures Outside(s, Apply(cfg, s, Run(t)), t)
  {
    match PhaseOf(s, t)
    case Enter(call) => EnterMoves(cfg, s, t, call);
    case Careful(call, next) => CarefulMoves(cfg, s, t, call, next);
    case Begin(call) => BeginMoves(cfg, s, t, call);
    case Look(call, pos) => LookMoves(cfg, s, t, call, pos);
    case Found(call, c, ac) => FoundMoves(cfg, s, t, call, c, ac);
    case Locked(call, c, a) => WriteMoves(cfg, s, t, call, c, a);
    case Headed(call, c, a) => BodyMoves(cfg, s, t, call, c, a);
    case Written(call, c, a) => UnlockMoves(cfg, s, t, call, c, a);
    case Onward(call, c) => OnwardMoves(cfg, s, t, call, c);
    case WaitCategory(c) => WaitMoves(cfg, s, t, c);
  }

  lemma EnterMoves(cfg: Config, s: State, t: nat, call: Call)
    requires PhaseOf(s, t) == Enter(call)
    ensures Outside(s, Apply(cfg, s, Run(t)), t)
  {
    OutsideTo(s, To(s, t, Careful(call, NextOf(s, Head))), t, Careful(call, NextOf(s, Head)));
  }

  lemma CarefulMoves(cfg: Config, s: State, t: nat, call: Call, next: Node)
    requires PhaseOf(s, t) == Careful(call, next)
    ensures Outside(s, Apply(cfg, s, Run(t)), t)
  {
    if next == Head && PrevOf(s, Head) == next {
      OutsideTo(s, Finish(s, t, call), t, Idle);
    } else {
      OutsideTo(s, To(s, t, Begin(call)), t, Begin(call));
    }
  }

  lemma BeginMoves(cfg: Config, s: State, t: nat, call: Call)
    requires PhaseOf(s, t) == Begin(call)
    ensures Outside(s, Apply(cfg, s, Run(t)), t)
  {
    OutsideTo(s, To(s, t, Look(call, NextOf(s, Head))), t, Look(call, NextOf(s, Head)));
  }

  lemma BodyMoves(cfg: Config, s: State, t: nat, call: Call, c: nat, a: nat)
    requires PhaseOf(s, t) == Headed(call, c, a)
    ensures Outside(s, Apply(cfg, s, Run(t)), t)
  {
    OutsideTo(s, Deliver(s, t, call, c, a), t, Written(call, c, a));
  }

  lemma UnlockMoves(cfg: Config, s: State, t: nat, call: Call, c: nat, a: nat)
    requires PhaseOf(s, t) == Written(call, c, a)
    ensures Outside(s, Apply(cfg, s, Run(t)), t)
  {
    OutsideTo(s, To(s, t, Onward(call, c)).(locks := s.locks - {a}), t, Onward(call, c));
  }

  lemma OnwardMoves(cfg: Config, s: State, t: nat, call: Call, c: nat)
    requires PhaseOf(s, t) == Onward(call, c)
    ensures Outside(s, Apply(cfg, s, Run(t)), t)
  {
    OutsideTo(s, To(s, t, Look(call, NextOf(s, Cat(c)))), t, Look(call, NextOf(s, Cat(c))));
  }

  lemma WaitMoves(cfg: Config, s: State, t: nat, c: nat)
    requires PhaseOf(s, t) == WaitCategory(c) && Apply(cfg, s, Run(t)) != s
    ensures Outside(s, Apply(cfg, s, Run(t)), t)
  {
    OutsideTo(s, To(s, t, Reading(c)).(registry := Some(t)), t, Reading(c));
  }

  lemma LookMoves(cfg: Config, s: State, t: nat, call: Call, pos: Node)
    requires PhaseOf(s, t) == Look(call, pos)
    ensures Outside(s, Apply(cfg, s, Run(t)), t)
  {
    if pos == Head {
      OutsideTo(s, Finish(s, t, call), t, Idle);
    } else {
      OutsideTo(s, To(s, t, Found(call, pos.c, Bound(s, pos.c))), t, Found(call, pos.c, Bound(s, pos.c)));
    }
  }

  lemma FoundMoves(cfg: Config, s: State, t: nat, call: Call, c: nat, ac: Option<nat>)
    requires PhaseOf(s, t) == Found(call, c, ac) && Apply(cfg, s, Run(t)) != s
    ensures Outside(s, Apply(cfg, s, Run(t)), t)
  {
    if cfg.categoryKind(c) != call.kind || ac.None? {
      OutsideTo(s, To(s, t, Onward(call, c)), t, Onward(call, c));
    } else {
      OutsideTo(s, To(s, t, Locked(call, c, ac.value)).(locks := s.locks[ac.value := t]), t, Locked(call, c, ac.value));
    }
  }

  lemma WriteMoves(cfg: Config, s: State, t: nat, call: Call, c: nat, a: nat)
    requires PhaseOf(s, t) == Locked(call, c, a)
    ensures Outside(s, Apply(cfg, s, Run(t)), t)
  {
    if call.raw {
      OutsideTo(s, Deliver(s, t, call, c, a), t, Written(call, c, a));
    } else {
      OutsideTo(s, To(Put(s, a, Header(call.id, c)), t, Headed(call, c, a)), t, Headed(call, c, a));
    }
  }

  lemma OutsideKeeps(cfg: Config, s: State, s1: State, t: nat, hist: seq<(nat, nat)>)
    requires QuoteInv(cfg, s, hist) && Outside(s, s1, t) && s.registry != Some(t)
    ensures QuoteInv(cfg, s1, hist)
  {
    if s.registry.Some? { HolderKept(s, s1, hist); }
    QuietKeeps(cfg, s, s1, t, hist);
  }

  /** A category is put in front of the list, not bound yet. */
  lemma PublishKeeps(cfg: Config, s: State, t: nat, hist: seq<(nat, nat)>)
    requires Inv(cfg, s) && QuoteInv(cfg, s, hist) && PhaseOf(s, t).Link4?
    ensures QuoteInv(cfg, Apply(cfg, s, Run(t)), hist)
  {
    var s1, c := Apply(cfg, s, Run(t)), PhaseOf(s, t).c;
    assert ThreadInv(cfg, s, t) && BindingFits(s, hist, c);
    assert s1.order[1..] == s.order;
    WaitsKept(s, s1, t);
    forall x: nat, a: nat ensures MadeFits(cfg, s1, hist, x, a) { assert MadeFits(cfg, s, hist, x, a); }
    forall x: nat ensures BindingFits(s1, hist, x) { assert BindingFits(s, hist, x); }
    forall a: nat ensures QuoteFits(s1, hist, a) { assert QuoteFits(s, hist, a); }
    if c in s.binding { assert MadeFits(cfg, s, hist, c, s.binding[c]); }
  }

  /** A category is bound to a listed appender of its type for the first time; the counter lags then. */
  lemma BoundKeeps(cfg: Config, s: State, s1: State, t: nat, c: nat, a: nat, hist: seq<(nat, nat)>)
    requires QuoteInv(cfg, s, hist) && s.registry == Some(t) && Lagging(Holder(s)) == None && !Made(hist, c, a)
    requires c in s.order && a in s.appenders && cfg.appenderKind(a) == cfg.wanted(c)
    requires SameRegistry(s, s1.(binding := s.binding)) && s1.binding == s.binding[c := a] && Moves(s, s1, t)
    requires s1.registry == Some(t) && Lagging(PhaseOf(s1, t)) == Some(a)
    requires HolderInv(s1, hist + [(c, a)], PhaseOf(s1, t))
    ensures QuoteInv(cfg, s1, hist + [(c, a)])
  {
    var next := hist + [(c, a)];
    WaitsKept(s, s1, t);
    MadeOnce(hist, c, a);
    forall x: nat, y: nat ensures MadeFits(cfg, s1, next, x, y) {
      MadeToNext(hist, c, a, y);
      assert MadeFits(cfg, s, hist, x, y);
    }
    forall x: nat ensures BindingFits(s1, next, x) {
      MadeToNext(hist, c, a, a);
      assert BindingFits(s, hist, x);
    }
    forall x: nat ensures QuoteFits(s1, next, x) {
      MadeToNext(hist, c, a, x);
      assert QuoteFits(s, hist, x);
    }
  }

  lemma BindingKeeps(cfg: Config, s: State, t: nat, hist: seq<(nat, nat)>)
    requires Inv(cfg, s) && QuoteInv(cfg, s, hist) && PhaseOf(s, t).Binding?
    ensures QuoteInv(cfg, Apply(cfg, s, Run(t)), hist + Binds(cfg, s, Run(t)))
  {
    assert ThreadInv(cfg, s, t);
    CategoryBinds(cfg, s, t, PhaseOf(s, t).c, hist);
  }

  lemma CategoryBinds(cfg: Config, s: State, t: nat, c: nat, hist: seq<(nat, nat)>)
    requires QuoteInv(cfg, s, hist) && PhaseOf(s, t) == Binding(c) && s.registry == Some(t)
    ensures QuoteInv(cfg, Apply(cfg, s, Run(t)), hist + Binds(cfg, s, Run(t)))
  {
    var s1, found := Apply(cfg, s, Run(t)), FirstMatch(cfg, s.appenders, c);
    if found.Some? {
      assert s1 == To(s, t, Counting(found.value)).(binding := s.binding[c := found.value]);
      FirstBinding(cfg, s, s1, t, c, found.value, hist);
    } else {
      assert s1 == To(s, t, Releasing);
      QuietKeeps(cfg, s, s1, t, hist);
      assert hist + [] == hist;
    }
  }

  lemma FirstBinding(cfg: Config, s: State, s1: State, t: nat, c: nat, a: nat, hist: seq<(nat, nat)>)
    requires QuoteInv(cfg, s, hist) && PhaseOf(s, t) == Binding(c) && s.registry == Some(t)
    requires FirstMatch(cfg, s.appenders, c) == Some(a)
    requires s1 == To(s, t, Counting(a)).(binding := s.binding[c := a])
    ensures QuoteInv(cfg, s1, hist + [(c, a)])
  {
    HolderIs(cfg, s, t, hist);
    MatchIs(cfg, s.appenders, c);
    assert MadeFits(cfg, s, hist, c, a);
    BoundKeeps(cfg, s, s1, t, c, a, hist);
  }

  /** The counter is raised. */
  lemma Raised(cfg: Config, s: State, s1: State, t: nat, a: nat, hist: seq<(nat, nat)>)
    requires QuoteInv(cfg, s, hist) && s.registry == Some(t) && Lagging(PhaseOf(s, t)) == Some(a)
    requires SameRegistry(s, s1.(quotes := s.quotes)) && s1.quotes == s.quotes[a := Quote(s, a) + 1] && Moves(s, s1, t)
    requires s1.registry == Some(t) && Lagging(PhaseOf(s1, t)) == None && HolderInv(s1, hist, PhaseOf(s1, t))
    ensures QuoteInv(cfg, s1, hist)
  {
    WaitsKept(s, s1, t);
    forall x: nat, y: nat ensures MadeFits(cfg, s1, hist, x, y) { assert MadeFits(cfg, s, hist, x, y); }
    forall x: nat ensures BindingFits(s1, hist, x) { assert BindingFits(s, hist, x); }
    forall x: nat ensures QuoteFits(s1, hist, x) { assert QuoteFits(s, hist, x); }
  }

  lemma CountKeeps(cfg: Config, s: State, t: nat, hist: seq<(nat, nat)>)
    requires Inv(cfg, s) && QuoteInv(cfg, s, hist) && PhaseOf(s, t).Counting?
    ensures QuoteInv(cfg, Apply(cfg, s, Run(t)), hist)
  {
    var s1, a := Apply(cfg, s, Run(t)), PhaseOf(s, t).a;
    assert ThreadInv(cfg, s, t);
    if s1 != s { Raised(cfg, s, s1, t, a, hist); }
  }

  lemma CountForKeeps(cfg: Config, s: State, t: nat, hist: seq<(nat, nat)>)
    requires Inv(cfg, s) && QuoteInv(cfg, s, hist) && PhaseOf(s, t).CountingFor?
    ensures QuoteInv(cfg, Apply(cfg, s, Run(t)), hist)
  {
    var s1, a := Apply(cfg, s, Run(t)), PhaseOf(s, t).a;
    assert ThreadInv(cfg, s, t);
    HolderIs(cfg, s, t, hist);
    if s1 != s { Raised(cfg, s, s1, t, a, hist); }
  }

  /** The new appender is listed; nothing was bound to it yet. */
  lemma ListedKeeps(cfg: Config, s: State, t: nat, hist: seq<(nat, nat)>)
    requires Inv(cfg, s) && QuoteInv(cfg, s, hist) && PhaseOf(s, t).WaitAppender?
    ensures QuoteInv(cfg, Apply(cfg, s, Run(t)), hist)
  {
    var s1, a := Apply(cfg, s, Run(t)), PhaseOf(s, t).a;
    assert WaitFits(s, t);
    if s1 != s {
      FirstIsAll(s);
      WaitsKept(s, s1, t);
      forall x: nat, y: nat ensures MadeFits(cfg, s1, hist, x, y) { assert MadeFits(cfg, s, hist, x, y); }
      forall x: nat ensures BindingFits(s1, hist, x) { assert BindingFits(s, hist, x); }
      forall x: nat ensures QuoteFits(s1, hist, x) { assert QuoteFits(s, hist, x); }
      forall c: nat | c in Rest(s.order, NextOf(s, Head)) ensures !Made(hist, c, a) {
        assert MadeFits(cfg, s, hist, c, a);
      }
    }
  }

  /** The walk that binds categories to a new appender. */
  lemma WalkKeeps(cfg: Config, s: State, t: nat, hist: seq<(nat, nat)>)
    requires Inv(cfg, s) && QuoteInv(cfg, s, hist) && PhaseOf(s, t).Walking?
    ensures QuoteInv(cfg, Apply(cfg, s, Run(t)), hist + Binds(cfg, s, Run(t)))
  {
    var p := PhaseOf(s, t);
    assert ThreadInv(cfg, s, t);
    assert hist + [] == hist;
    HolderIs(cfg, s, t, hist);
    if p.pos == Head {
      assert Apply(cfg, s, Run(t)) == To(s, t, Releasing);
      QuietKeeps(cfg, s, To(s, t, Releasing), t, hist);
    } else {
      RestIsBehind(s.order, p.pos.c);
      NextIsRest(s, p.pos.c);
      BehindHasNoMore(s.order, p.pos.c);
      if cfg.appenderKind(p.a) != cfg.wanted(p.pos.c) {
        WalkPasses(cfg, s, t, p.a, p.pos.c, hist);
      } else {
        WalkBinds(cfg, s, t, p.a, p.pos.c, hist);
      }
    }
  }

  lemma WalkPasses(cfg: Config, s: State, t: nat, a: nat, c: nat, hist: seq<(nat, nat)>)
    requires QuoteInv(cfg, s, hist) && PhaseOf(s, t) == Walking(a, Cat(c)) && s.registry == Some(t) && c in s.order
    requires Rest(s.order, Cat(c)) == [c] + Behind(s.order, c)
    requires Rest(s.order, NextOf(s, Cat(c))) == Behind(s.order, c)
    requires NextOf(s, Cat(c)) == Head || NextOf(s, Cat(c)).c in s.order
    requires cfg.appenderKind(a) != cfg.wanted(c)
    ensures QuoteInv(cfg, Apply(cfg, s, Run(t)), hist)
  {
    var s1 := To(s, t, Walking(a, NextOf(s, Cat(c))));
    assert Apply(cfg, s, Run(t)) == s1;
    HolderIs(cfg, s, t, hist);
    assert Ahead(s1, hist, Behind(s.order, c), a);
    QuietKeeps(cfg, s, s1, t, hist);
  }

  lemma WalkBinds(cfg: Config, s: State, t: nat, a: nat, c: nat, hist: seq<(nat, nat)>)
    requires QuoteInv(cfg, s, hist) && PhaseOf(s, t) == Walking(a, Cat(c)) && s.registry == Some(t) && c in s.order
    requires Rest(s.order, Cat(c)) == [c] + Behind(s.order, c) && c !in Behind(s.order, c)
    requires cfg.appenderKind(a) == cfg.wanted(c)
    ensures QuoteInv(cfg, Apply(cfg, s, Run(t)), hist + [(c, a)])
  {
    var s1, next := To(s, t, CountingFor(a, c)).(binding := s.binding[c := a]), hist + [(c, a)];
    assert Apply(cfg, s, Run(t)) == s1;
    HolderIs(cfg, s, t, hist);
    assert c in [c] + Behind(s.order, c);
    forall x: nat | x in Behind(s.order, c) ensures !Made(next, x, a) {
      MadeToNext(hist, c, a, a);
      assert !Made(hist, x, a);
    }
    BoundKeeps(cfg, s, s1, t, c, a, hist);
  }

  /** The other steps inside the registry lock. */
  lemma InsideStep(cfg: Config, s: State, t: nat, hist: seq<(nat, nat)>)
    requires Inv(cfg, s) && QuoteInv(cfg, s, hist) && Registers(PhaseOf(s, t))
    requires var p := PhaseOf(s, t);
      p.Reading? || p.Link1? || p.Link2? || p.Link3? || p.Counted? || p.CountedFor? || p.Releasing?
    ensures QuoteInv(cfg, Apply(cfg, s, Run(t)), hist)
  {
    var s1, p := Apply(cfg, s, Run(t)), PhaseOf(s, t);
    assert ThreadInv(cfg, s, t);
    HolderIs(cfg, s, t, hist);
    if p.CountedFor? { NextIsRest(s, p.c); }
    QuietKeeps(cfg, s, s1, t, hist);
  }

  lemma StartKeeps(cfg: Config, s: State, action: Action, hist: seq<(nat, nat)>)
    requires Inv(cfg, s) && QuoteInv(cfg, s, hist) && !action.Run?
    ensures QuoteInv(cfg, Apply(cfg, s, action), hist)
  {
    var s1, t := Apply(cfg, s, action), action.t;
    assert ThreadInv(cfg, s, t);
    if s1 != s {
      if s.registry.Some? { assert s.registry != Some(t); }
      if action.StartAppender? {
        forall u: nat ensures WaitFits(s1, u) {
          if u != t { assert WaitFits(s, u); }
        }
        forall u: nat, v: nat | u != v ensures WaitApart(s1, u, v) {
          assert WaitApart(s, u, v) && WaitFits(s, u) && WaitFits(s, v);
        }
        forall c: nat, a: nat ensures MadeFits(cfg, s1, hist, c, a) { assert MadeFits(cfg, s, hist, c, a); }
        forall c: nat ensures BindingFits(s1, hist, c) { assert BindingFits(s, hist, c); }
        forall a: nat ensures QuoteFits(s1, hist, a) { assert QuoteFits(s, hist, a); }
        HolderKept(s, s1.(usedAppenders := s.usedAppenders), hist);
        assert HolderInv(s1, hist, Holder(s1));
      } else {
        HolderKept(s, s1, hist);
        QuietKeeps(cfg, s, s1, t, hist);
      }
    }
  }

  lemma StepKeepsQuotes(cfg: Config, s: State, action: Action, hist: seq<(nat, nat)>)
    requires Inv(cfg, s) && QuoteInv(cfg, s, hist)
    ensures QuoteInv(cfg, Apply(cfg, s, action), hist + Binds(cfg, s, action))
  {
    assert hist + [] == hist;
    if action.Run? {
      var t := action.t;
      match PhaseOf(s, t)
      case WaitAppender(_) => ListedKeeps(cfg, s, t, hist);
      case Link4(_, _) => PublishKeeps(cfg, s, t, hist);
      case Binding(_) => BindingKeeps(cfg, s, t, hist);
      case Counting(_) => CountKeeps(cfg, s, t, hist);
      case CountingFor(_, _) => CountForKeeps(cfg, s, t, hist);
      case Walking(_, _) => WalkKeeps(cfg, s, t, hist);
      case Reading(_) => InsideStep(cfg, s, t, hist);
      case Link1(_, _) => InsideStep(cfg, s, t, hist);
      case Link2(_, _) => InsideStep(cfg, s, t, hist);
      case Link3(_, _) => InsideStep(cfg, s, t, hist);
      case Counted(_) => InsideStep(cfg, s, t, hist);
      case CountedFor(_, _) => InsideStep(cfg, s, t, hist);
      case Releasing => InsideStep(cfg, s, t, hist);
      case _ => OutsideStep(cfg, s, t, hist);
    } else {
      StartKeeps(cfg, s, action, hist);
    }
  }

  // Over all runs

  lemma {:induction false} RunKeepsQuotes(cfg: Config, s: State, actions: seq<Action>, hist: seq<(nat, nat)>)
    requires Inv(cfg, s) && QuoteInv(cfg, s, hist)
    ensures QuoteInv(cfg, RunAll(cfg, s, actions), hist + Bindings(cfg, s, actions))
    decreases |actions|
  {
    if actions == [] {
      assert hist + [] == hist;
    } else {
      var s1, made := Apply(cfg, s, actions[0]), Binds(cfg, s, actions[0]);
      StepKeepsInv(cfg, s, actions[0]);
      StepKeepsQuotes(cfg, s, actions[0], hist);
      RunKeepsQuotes(cfg, s1, actions[1..], hist + made);
      Regroup(hist, made, Bindings(cfg, s1, actions[1..]));
    }
  }

  lemma NothingMade(cfg: Config)
    ensures QuoteInv(cfg, Initial(), [])
  {
    var s := Initial();
    forall c: nat, a: nat ensures MadeFits(cfg, s, [], c, a) {}
    forall c: nat ensures BindingFits(s, [], c) {}
    forall a: nat ensures QuoteFits(s, [], a) {}
    forall t: nat ensures WaitFits(s, t) {}
    forall t: nat, u: nat ensures WaitApart(s, t, u) {}
  }

  /** Any run keeps the invariant of the counters. */
  lemma RunFits(cfg: Config, actions: seq<Action>)
    ensures Inv(cfg, RunAll(cfg, Initial(), actions))
    ensures QuoteInv(cfg, RunAll(cfg, Initial(), actions), Bindings(cfg, Initial(), actions))
  {
    InitialInv(cfg);
    RunKeepsInv(cfg, Initial(), actions);
    NothingMade(cfg);
    RunKeepsQuotes(cfg, Initial(), actions, []);
    assert [] + Bindings(cfg, Initial(), actions) == Bindings(cfg, Initial(), actions);
  }

  /** Whatever the threads do: whenever the registry lock is free every counter is the number of bindings that
      were made to its appender. That is the number of categories bound to it exactly when none that was bound
      to it was bound to another one later. */
  lemma QuotesCountBindings(cfg: Config, actions: seq<Action>, a: nat)
    requires RunAll(cfg, Initial(), actions).registry == None
    ensures var s, hist := RunAll(cfg, Initial(), actions), Bindings(cfg, Initial(), actions);
      && Quote(s, a) == MadeTo(hist, a) && NoRepeats(hist)
      && (forall c :: (c, a) in hist ==> c in s.binding)
      && (Quote(s, a) == Count(s.order, s.binding, a) <==> forall c :: (c, a) in hist ==> s.binding[c] == a)
  {
    var s, hist := RunAll(cfg, Initial(), actions), Bindings(cfg, Initial(), actions);
    RunFits(cfg, actions);
    assert QuoteFits(s, hist, a);
    MadeInForce(cfg, s, hist, a);
  }

  lemma MadeInForce(cfg: Config, s: State, hist: seq<(nat, nat)>, a: nat)
    requires QuoteInv(cfg, s, hist) && AllDifferent(s.order)
    ensures forall c :: (c, a) in hist ==> c in s.binding
    ensures MadeTo(hist, a) == Count(s.order, s.binding, a) <==> forall c :: (c, a) in hist ==> s.binding[c] == a
  {
    var now, ever := InForce(s.order, s.binding, a), EverBound(hist, a);
    CountIsSize(s.order, s.binding, a);
    MadeIsSize(hist, a);
    forall c | (c, a) in hist ensures c in s.binding && c in s.order && c in ever {
      assert Made(hist, c, a) && MadeFits(cfg, s, hist, c, a);
    }
    forall c | c in now ensures c in ever { assert BindingFits(s, hist, c) && Made(hist, c, a); }
    SameSize(now, ever);
    if now == ever {
      forall c | (c, a) in hist ensures s.binding[c] == a { assert c in ever; }
    } else if forall c :: (c, a) in hist ==> s.binding[c] == a {
      forall c | c in ever ensures c in now { assert (c, a) in hist; }
      assert false;
    }
  }

  /** No two of these appenders have the same type. */
  predicate DistinctKinds(cfg: Config, appenders: seq<nat>) {
    forall a, b :: a in appenders && b in appenders && cfg.appenderKind(a) == cfg.appenderKind(b) ==> a == b
  }

  /** With one appender of each type nothing is bound twice: whenever the registry lock is free every counter is
      the number of listed categories bound to the appender, and each of them is bound to a listed appender of
      its type. */
  lemma QuotesAgree(cfg: Config, actions: seq<Action>, a: nat, c: nat)
    requires RunAll(cfg, Initial(), actions).registry == None
    requires DistinctKinds(cfg, RunAll(cfg, Initial(), actions).appenders)
    ensures var s := RunAll(cfg, Initial(), actions);
      && Quote(s, a) == Count(s.order, s.binding, a)
      && (c in s.binding ==>
            c in s.order && s.binding[c] in s.appenders && cfg.appenderKind(s.binding[c]) == cfg.wanted(c))
  {
    var s, hist := RunAll(cfg, Initial(), actions), Bindings(cfg, Initial(), actions);
    RunFits(cfg, actions);
    QuotesCountBindings(cfg, actions, a);
    forall x | (x, a) in hist ensures s.binding[x] == a {
      assert Made(hist, x, a) && BindingFits(s, hist, x);
      assert MadeFits(cfg, s, hist, x, a) && MadeFits(cfg, s, hist, x, s.binding[x]);
    }
    if c in s.binding { assert BindingFits(s, hist, c) && MadeFits(cfg, s, hist, c, s.binding[c]); }
  }
}

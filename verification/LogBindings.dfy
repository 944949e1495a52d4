/** Which appender a category is bound to while threads register: whenever the registry lock is free, the first
    listed one of its type, which is the newest. */
module LogBindings {
  import opened Options
  import opened LogWalk
  import opened LogRuns
  import opened LogQuotes

  /** The first listed appender of the wanted type, or none if there is none. */
  ghost predicate IsFirst(cfg: Config, appenders: seq<nat>, c: nat, found: Option<nat>) {
    match found
    case None => forall j :: 0 <= j < |appenders| ==> cfg.appenderKind(appenders[j]) != cfg.wanted(c)
    case Some(a) => exists i :: 0 <= i < |appenders| && FirstAt(cfg, appenders, c, a, i)
  }

  predicate FirstAt(cfg: Config, appenders: seq<nat>, c: nat, a: nat, i: nat)
    requires i < |appenders|
  {
    && appenders[i] == a && cfg.appenderKind(a) == cfg.wanted(c)
    && forall j :: 0 <= j < i ==> cfg.appenderKind(appenders[j]) != cfg.wanted(c)
  }

  lemma {:induction false} MatchIsFirst(cfg: Config, appenders: seq<nat>, c: nat)
    ensures IsFirst(cfg, appenders, c, FirstMatch(cfg, appenders, c))
  {
    if appenders != [] {
      var rest := appenders[1..];
      MatchIsFirst(cfg, rest, c);
      if cfg.appenderKind(appenders[0]) == cfg.wanted(c) {
        assert FirstAt(cfg, appenders, c, appenders[0], 0);
      } else if FirstMatch(cfg, rest, c).Some? {
        var a := FirstMatch(cfg, rest, c).value;
        var i :| 0 <= i < |rest| && FirstAt(cfg, rest, c, a, i);
        forall j | 0 <= j < i + 1 ensures cfg.appenderKind(appenders[j]) != cfg.wanted(c) {
          if j > 0 { assert appenders[j] == rest[j - 1]; }
        }
        assert FirstAt(cfg, appenders, c, a, i + 1);
      } else {
        forall j | 0 <= j < |appenders| ensures cfg.appenderKind(appenders[j]) != cfg.wanted(c) {
          if j > 0 { assert appenders[j] == rest[j - 1]; }
        }
      }
    }
  }

  // What every step keeps

  /** A category is bound as the list of appenders says. */
  predicate Follows(cfg: Config, s: State, appenders: seq<nat>, c: nat) {
    Bound(s, c) == FirstMatch(cfg, appenders, c)
  }

  ghost predicate AllFollow(cfg: Config, s: State, order: seq<nat>, appenders: seq<nat>) {
    forall c: nat {:trigger Follows(cfg, s, appenders, c)} :: c in order ==> Follows(cfg, s, appenders, c)
  }

  /** The categories that a walk has still ahead follow the list without the new appender, the others the whole
      one. */
  ghost predicate HalfFollow(cfg: Config, s: State, ahead: seq<nat>, a: nat) {
    && s.appenders != [] && s.appenders[0] == a
    && (forall c: nat {:trigger Follows(cfg, s, s.appenders, c)} ::
          c in s.order && c !in ahead ==> Follows(cfg, s, s.appenders, c))
    && (forall c: nat {:trigger Follows(cfg, s, s.appenders[1..], c)} ::
          c in ahead ==> Follows(cfg, s, s.appenders[1..], c))
  }

  /** All but the category that is being registered. */
  ghost predicate OthersFollow(cfg: Config, s: State, c0: nat) {
    forall c: nat {:trigger Follows(cfg, s, s.appenders, c)} ::
      c in s.order && c != c0 ==> Follows(cfg, s, s.appenders, c)
  }

  ghost predicate BindInv(cfg: Config, s: State, p: Phase) {
    match p
    case Binding(c0) => OthersFollow(cfg, s, c0)
    case Walking(a, pos) => HalfFollow(cfg, s, Rest(s.order, pos), a)
    case CountingFor(a, c) => HalfFollow(cfg, s, Behind(s.order, c), a)
    case CountedFor(a, c) => HalfFollow(cfg, s, Behind(s.order, c), a)
    case _ => AllFollow(cfg, s, s.order, s.appenders)
  }

  /** Order, bindings and appenders are the same. */
  predicate SameLists(s: State, s1: State) {
    s1.order == s.order && s1.binding == s.binding && s1.appenders == s.appenders
  }

  lemma {:induction false} SameBindInv(cfg: Config, s: State, s1: State, p: Phase)
    requires SameLists(s, s1) && BindInv(cfg, s, p)
    ensures BindInv(cfg, s1, p)
  {
    forall appenders: seq<nat>, c: nat ensures Follows(cfg, s1, appenders, c) <==> Follows(cfg, s, appenders, c) {}
  }

  /** Steps that are not about lists: the phase of the holder keeps its case. */
  lemma {:induction false} QuietBinds(cfg: Config, s: State, s1: State, p: Phase, p1: Phase)
    requires SameLists(s, s1) && BindInv(cfg, s, p)
    requires p1 == p || (AllFollow(cfg, s, s.order, s.appenders)
                         && !p1.Binding? && !p1.Walking? && !p1.CountingFor? && !p1.CountedFor?)
    ensures BindInv(cfg, s1, p1)
  {
    SameBindInv(cfg, s, s1, p);
    forall appenders: seq<nat>, c: nat ensures Follows(cfg, s1, appenders, c) <==> Follows(cfg, s, appenders, c) {}
  }

  /** The new appender is listed in front; nothing is bound to it yet. */
  lemma {:induction false} ListedBinds(cfg: Config, s: State, s1: State, a: nat)
    requires AllFollow(cfg, s, s.order, s.appenders) && Chain(s)
    requires s1.order == s.order && s1.binding == s.binding && s1.appenders == [a] + s.appenders
    ensures HalfFollow(cfg, s1, Rest(s1.order, NextOf(s, Head)), a)
  {
    FirstIsAll(s);
    assert s1.appenders[1..] == s.appenders;
    forall c: nat | c in s.order ensures Follows(cfg, s1, s.appenders, c) { assert Follows(cfg, s, s.appenders, c); }
  }

  /** A category is put in front of the list. */
  lemma {:induction false} PublishedBinds(cfg: Config, s: State, s1: State, c0: nat)
    requires AllFollow(cfg, s, s.order, s.appenders)
    requires s1.order == [c0] + s.order && s1.binding == s.binding && s1.appenders == s.appenders
    ensures OthersFollow(cfg, s1, c0)
  {
    forall c: nat | c in s1.order && c != c0 ensures Follows(cfg, s1, s1.appenders, c) {
      assert Follows(cfg, s, s.appenders, c);
    }
  }

  /** It is bound to the first match, or stays unbound. */
  lemma {:induction false} BoundBinds(cfg: Config, s: State, s1: State, c0: nat)
    requires OthersFollow(cfg, s, c0) && c0 !in s.binding
    requires s1.order == s.order && s1.appenders == s.appenders
    requires var found := FirstMatch(cfg, s.appenders, c0);
      s1.binding == if found.Some? then s.binding[c0 := found.value] else s.binding
    ensures AllFollow(cfg, s1, s1.order, s1.appenders)
  {
    forall c: nat | c in s1.order ensures Follows(cfg, s1, s1.appenders, c) {
      if c != c0 { assert Follows(cfg, s, s.appenders, c); }
    }
  }

  /** The walk passes a category, binding it when the type fits. */
  lemma {:induction false} PassedBinds(cfg: Config, s: State, s1: State, a: nat, c0: nat, ahead: seq<nat>)
    requires HalfFollow(cfg, s, [c0] + ahead, a) && c0 !in ahead
    requires s1.order == s.order && s1.appenders == s.appenders
    requires s1.binding == if cfg.appenderKind(a) == cfg.wanted(c0) then s.binding[c0 := a] else s.binding
    ensures HalfFollow(cfg, s1, ahead, a)
  {
    var all, old_ := s.appenders, s.appenders[1..];
    assert c0 in [c0] + ahead;
    assert Follows(cfg, s, old_, c0);
    forall c: nat | c in s1.order && c !in ahead ensures Follows(cfg, s1, all, c) {
      if c != c0 { assert Follows(cfg, s, all, c); }
    }
    forall c: nat | c in ahead ensures Follows(cfg, s1, old_, c) {
      assert c in [c0] + ahead && Follows(cfg, s, old_, c);
    }
  }

  // Steps

  lemma {:induction false} WalkPassesOn(cfg: Config, s: State, t: nat, a: nat, c: nat)
    requires s.registry == Some(t) && PhaseOf(s, t) == Walking(a, Cat(c)) && cfg.appenderKind(a) != cfg.wanted(c)
    requires Rest(s.order, NextOf(s, Cat(c))) == Behind(s.order, c) && c !in Behind(s.order, c)
    requires HalfFollow(cfg, s, [c] + Behind(s.order, c), a)
    ensures var s1 := Apply(cfg, s, Run(t)); BindInv(cfg, s1, PhaseOf(s1, t)) && s1.registry == Some(t)
  {
    var s1 := To(s, t, Walking(a, NextOf(s, Cat(c))));
    assert Apply(cfg, s, Run(t)) == s1;
    PassedBinds(cfg, s, s1, a, c, Behind(s.order, c));
  }

  lemma {:induction false} WalkBindsHere(cfg: Config, s: State, t: nat, a: nat, c: nat)
    requires s.registry == Some(t) && PhaseOf(s, t) == Walking(a, Cat(c)) && cfg.appenderKind(a) == cfg.wanted(c)
    requires c !in Behind(s.order, c) && HalfFollow(cfg, s, [c] + Behind(s.order, c), a)
    ensures var s1 := Apply(cfg, s, Run(t)); BindInv(cfg, s1, PhaseOf(s1, t)) && s1.registry == Some(t)
  {
    var s1 := To(s, t, CountingFor(a, c)).(binding := s.binding[c := a]);
    assert Apply(cfg, s, Run(t)) == s1;
    PassedBinds(cfg, s, s1, a, c, Behind(s.order, c));
  }

  lemma {:induction false} WalkBindsOn(cfg: Config, s: State, t: nat, a: nat, c: nat)
    requires Inv(cfg, s) && s.registry == Some(t) && PhaseOf(s, t) == Walking(a, Cat(c)) && c in s.order
    requires HalfFollow(cfg, s, Rest(s.order, Cat(c)), a)
    ensures var s1 := Apply(cfg, s, Run(t)); BindInv(cfg, s1, PhaseOf(s1, t)) && s1.registry == Some(t)
  {
    RestIsBehind(s.order, c);
    BehindHasNoMore(s.order, c);
    NextIsRest(s, c);
    if cfg.appenderKind(a) != cfg.wanted(c) {
      WalkPassesOn(cfg, s, t, a, c);
    } else {
      WalkBindsHere(cfg, s, t, a, c);
    }
  }

  lemma {:induction false} WalkEnds(cfg: Config, s: State, t: nat, a: nat)
    requires s.registry == Some(t) && PhaseOf(s, t) == Walking(a, Head) && HalfFollow(cfg, s, Rest(s.order, Head), a)
    ensures var s1 := Apply(cfg, s, Run(t)); BindInv(cfg, s1, PhaseOf(s1, t)) && s1.registry == Some(t)
  {
    var s1 := To(s, t, Releasing);
    assert Apply(cfg, s, Run(t)) == s1;
    forall c: nat | c in s1.order ensures Follows(cfg, s1, s1.appenders, c) { assert Follows(cfg, s, s.appenders, c); }
  }

  lemma {:induction false} CategoryIsBound(cfg: Config, s: State, t: nat, c: nat)
    requires s.registry == Some(t) && PhaseOf(s, t) == Binding(c) && OthersFollow(cfg, s, c) && c !in s.binding
    ensures var s1 := Apply(cfg, s, Run(t)); BindInv(cfg, s1, PhaseOf(s1, t)) && s1.registry == Some(t)
  {
    var found := FirstMatch(cfg, s.appenders, c);
    if found.Some? {
      var s1 := To(s, t, Counting(found.value)).(binding := s.binding[c := found.value]);
      assert Apply(cfg, s, Run(t)) == s1;
      BoundBinds(cfg, s, s1, c);
    } else {
      var s1 := To(s, t, Releasing);
      assert Apply(cfg, s, Run(t)) == s1;
      BoundBinds(cfg, s, s1, c);
    }
  }

  lemma {:induction false} CountedGoesOn(cfg: Config, s: State, t: nat, a: nat, c: nat)
    requires Inv(cfg, s) && s.registry == Some(t) && PhaseOf(s, t) == CountedFor(a, c) && c in s.order
    requires HalfFollow(cfg, s, Behind(s.order, c), a)
    ensures var s1 := Apply(cfg, s, Run(t)); BindInv(cfg, s1, PhaseOf(s1, t)) && s1.registry == Some(t)
  {
    NextIsRest(s, c);
    var s1 := To(s, t, Walking(a, NextOf(s, Cat(c)))).(locks := s.locks - {a});
    assert Apply(cfg, s, Run(t)) == s1;
    SameBindInv(cfg, s, s1, CountedFor(a, c));
  }

  lemma {:induction false} CountingGoesOn(cfg: Config, s: State, t: nat, a: nat, c: nat)
    requires s.registry == Some(t) && PhaseOf(s, t) == CountingFor(a, c) && HalfFollow(cfg, s, Behind(s.order, c), a)
    ensures var s1 := Apply(cfg, s, Run(t)); BindInv(cfg, s1, PhaseOf(s1, t)) && s1.registry == Some(t)
  {
    if a !in s.locks {
      var s1 := To(s, t, CountedFor(a, c)).(locks := s.locks[a := t], quotes := s.quotes[a := Quote(s, a) + 1]);
      assert Apply(cfg, s, Run(t)) == s1;
      SameBindInv(cfg, s, s1, CountedFor(a, c));
    }
  }

  lemma {:induction false} Published(cfg: Config, s: State, t: nat, c: nat, next: Node)
    requires s.registry == Some(t) && PhaseOf(s, t) == Link4(c, next) && AllFollow(cfg, s, s.order, s.appenders)
    ensures var s1 := Apply(cfg, s, Run(t)); BindInv(cfg, s1, PhaseOf(s1, t)) && s1.registry == Some(t)
  {
    var s1 := To(s, t, Binding(c)).(next := s.next[Head := Cat(c)], order := [c] + s.order);
    assert Apply(cfg, s, Run(t)) == s1;
    PublishedBinds(cfg, s, s1, c);
  }

  /** Steps inside the registry lock that change no list. */
  lemma {:induction false} LinkTo(cfg: Config, s: State, s1: State, t: nat, p1: Phase)
    requires s.registry == Some(t) && AllFollow(cfg, s, s.order, s.appenders) && SameLists(s, s1)
    requires s1.registry == s.registry && s1.threads == s.threads[t := p1]
    requires p1.Link1? || p1.Link2? || p1.Link3? || p1.Link4?
    ensures BindInv(cfg, s1, PhaseOf(s1, t)) && s1.registry == Some(t)
  {
    QuietBinds(cfg, s, s1, Idle, p1);
  }

  lemma {:induction false} ReadingBinds(cfg: Config, s: State, t: nat, c: nat)
    requires s.registry == Some(t) && PhaseOf(s, t) == Reading(c) && AllFollow(cfg, s, s.order, s.appenders)
    ensures var s1 := Apply(cfg, s, Run(t)); BindInv(cfg, s1, PhaseOf(s1, t)) && s1.registry == Some(t)
  {
    LinkTo(cfg, s, To(s, t, Link1(c, NextOf(s, Head))), t, Link1(c, NextOf(s, Head)));
  }

  lemma {:induction false} Link1Binds(cfg: Config, s: State, t: nat, c: nat, next: Node)
    requires s.registry == Some(t) && PhaseOf(s, t) == Link1(c, next) && AllFollow(cfg, s, s.order, s.appenders)
    ensures var s1 := Apply(cfg, s, Run(t)); BindInv(cfg, s1, PhaseOf(s1, t)) && s1.registry == Some(t)
  {
    LinkTo(cfg, s, To(s, t, Link2(c, next)).(prev := s.prev[next := Cat(c)]), t, Link2(c, next));
  }

  lemma {:induction false} Link2Binds(cfg: Config, s: State, t: nat, c: nat, next: Node)
    requires s.registry == Some(t) && PhaseOf(s, t) == Link2(c, next) && AllFollow(cfg, s, s.order, s.appenders)
    ensures var s1 := Apply(cfg, s, Run(t)); BindInv(cfg, s1, PhaseOf(s1, t)) && s1.registry == Some(t)
  {
    LinkTo(cfg, s, To(s, t, Link3(c, next)).(next := s.next[Cat(c) := next]), t, Link3(c, next));
  }

  lemma {:induction false} Link3Binds(cfg: Config, s: State, t: nat, c: nat, next: Node)
    requires s.registry == Some(t) && PhaseOf(s, t) == Link3(c, next) && AllFollow(cfg, s, s.order, s.appenders)
    ensures var s1 := Apply(cfg, s, Run(t)); BindInv(cfg, s1, PhaseOf(s1, t)) && s1.registry == Some(t)
  {
    LinkTo(cfg, s, To(s, t, Link4(c, next)).(prev := s.prev[Cat(c) := Head]), t, Link4(c, next));
  }

  lemma {:induction false} LockStep(cfg: Config, s: State, t: nat)
    requires s.registry == Some(t) && AllFollow(cfg, s, s.order, s.appenders)
    requires var p := PhaseOf(s, t); p.Counting? || p.Counted? || p.Releasing?
    ensures var s1 := Apply(cfg, s, Run(t));
      if PhaseOf(s, t).Releasing? then s1.registry == None && AllFollow(cfg, s1, s1.order, s1.appenders)
      else BindInv(cfg, s1, PhaseOf(s1, t)) && s1.registry == Some(t)
  {
    var s1 := Apply(cfg, s, Run(t));
    QuietBinds(cfg, s, s1, Idle, if PhaseOf(s, t).Releasing? then Idle else PhaseOf(s1, t));
  }

  /** The thread that holds the registry lock moves. */
  lemma {:induction false} HolderStep(cfg: Config, s: State, t: nat, hist: seq<(nat, nat)>)
    requires Inv(cfg, s) && QuoteInv(cfg, s, hist) && s.registry == Some(t) && BindInv(cfg, s, PhaseOf(s, t))
    ensures var s1 := Apply(cfg, s, Run(t)); BindInv(cfg, s1, Holder(s1))
  {
    HolderIs(cfg, s, t, hist);
    assert ThreadInv(cfg, s, t);
    match PhaseOf(s, t) {
      case Walking(a, pos) => if pos == Head { WalkEnds(cfg, s, t, a); } else { WalkBindsOn(cfg, s, t, a, pos.c); }
      case CountingFor(a, c) => CountingGoesOn(cfg, s, t, a, c);
      case CountedFor(a, c) => CountedGoesOn(cfg, s, t, a, c);
      case Binding(c) => CategoryIsBound(cfg, s, t, c);
      case Link4(c, next) => Published(cfg, s, t, c, next);
      case Reading(c) => ReadingBinds(cfg, s, t, c);
      case Link1(c, next) => Link1Binds(cfg, s, t, c, next);
      case Link2(c, next) => Link2Binds(cfg, s, t, c, next);
      case Link3(c, next) => Link3Binds(cfg, s, t, c, next);
      case _ => LockStep(cfg, s, t);
    }
  }

  /** A thread outside the lock moves. */
  lemma {:induction false} OutsiderStep(cfg: Config, s: State, t: nat)
    requires Inv(cfg, s) && s.registry != Some(t) && BindInv(cfg, s, Holder(s)) && !PhaseOf(s, t).WaitAppender?
    ensures var s1 := Apply(cfg, s, Run(t)); BindInv(cfg, s1, Holder(s1))
  {
    var s1 := Apply(cfg, s, Run(t));
    assert ThreadInv(cfg, s, t);
    if s1 != s {
      OutsideMoves(cfg, s, t);
      QuietBinds(cfg, s, s1, Holder(s), Holder(s1));
    }
  }

  lemma {:induction false} AppenderIsListed(cfg: Config, s: State, t: nat, a: nat)
    requires Inv(cfg, s) && PhaseOf(s, t) == WaitAppender(a) && BindInv(cfg, s, Holder(s))
    ensures var s1 := Apply(cfg, s, Run(t)); BindInv(cfg, s1, Holder(s1))
  {
    if s.registry == None {
      var p1 := Walking(a, NextOf(s, Head));
      var s1 := To(s, t, p1).(registry := Some(t), appenders := [a] + s.appenders);
      assert Apply(cfg, s, Run(t)) == s1;
      ListedBinds(cfg, s, s1, a);
    }
  }

  lemma {:induction false} StartChangesNoList(cfg: Config, s: State, action: Action)
    requires !action.Run? && Apply(cfg, s, action) != s
    ensures var s1 := Apply(cfg, s, action);
      SameLists(s, s1) && s1.registry == s.registry && PhaseOf(s, action.t).Idle?
      && forall u: nat {:trigger PhaseOf(s1, u)} :: u != action.t ==> PhaseOf(s1, u) == PhaseOf(s, u)
  {
  }

  lemma {:induction false} StartBinds(cfg: Config, s: State, action: Action)
    requires Inv(cfg, s) && BindInv(cfg, s, Holder(s)) && !action.Run?
    ensures var s1 := Apply(cfg, s, action); BindInv(cfg, s1, Holder(s1))
  {
    var s1, t := Apply(cfg, s, action), action.t;
    assert ThreadInv(cfg, s, t);
    if s1 != s {
      StartChangesNoList(cfg, s, action);
      QuietBinds(cfg, s, s1, Holder(s), Holder(s1));
    }
  }

  lemma {:induction false} StepKeepsBindings(cfg: Config, s: State, action: Action, hist: seq<(nat, nat)>)
    requires Inv(cfg, s) && QuoteInv(cfg, s, hist) && BindInv(cfg, s, Holder(s))
    ensures var s1 := Apply(cfg, s, action); BindInv(cfg, s1, Holder(s1))
  {
    if !action.Run? {
      StartBinds(cfg, s, action);
    } else if s.registry == Some(action.t) {
      HolderStep(cfg, s, action.t, hist);
    } else if PhaseOf(s, action.t).WaitAppender? {
      AppenderIsListed(cfg, s, action.t, PhaseOf(s, action.t).a);
    } else {
      OutsiderStep(cfg, s, action.t);
    }
  }

  lemma {:induction false} RunKeepsBindings(cfg: Config, s: State, actions: seq<Action>, hist: seq<(nat, nat)>)
    requires Inv(cfg, s) && QuoteInv(cfg, s, hist) && BindInv(cfg, s, Holder(s))
    ensures var s1 := RunAll(cfg, s, actions); BindInv(cfg, s1, Holder(s1))
    decreases |actions|
  {
    if actions != [] {
      var s1 := Apply(cfg, s, actions[0]);
      StepKeepsInv(cfg, s, actions[0]);
      StepKeepsQuotes(cfg, s, actions[0], hist);
      StepKeepsBindings(cfg, s, actions[0], hist);
      RunKeepsBindings(cfg, s1, actions[1..], hist + Binds(cfg, s, actions[0]));
    }
  }

  /** Whatever the threads do: whenever the registry lock is free every listed category is bound to the first
      listed appender of its type, and to none exactly when none is listed. */
  lemma {:induction false} BindingsFollowTheLists(cfg: Config, actions: seq<Action>, c: nat)
    requires RunAll(cfg, Initial(), actions).registry == None
    ensures var s := RunAll(cfg, Initial(), actions);
      c in s.order ==> IsFirst(cfg, s.appenders, c, Bound(s, c))
  {
    var s := RunAll(cfg, Initial(), actions);
    InitialInv(cfg);
    NothingMade(cfg);
    RunKeepsBindings(cfg, Initial(), actions, []);
    if c in s.order {
      assert Follows(cfg, s, s.appenders, c);
      MatchIsFirst(cfg, s.appenders, c);
    }
  }
}

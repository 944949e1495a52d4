/** Threads that log while others register. */
module LogWalk {
  // The walk over the categories takes no lock, each appender is written under its own. Every memory access
  // that another thread can see is a step of its own.

  import opened Sequences
  import opened Options

  /** The types in the registered structures, which never change. */
  datatype Config = Config(categoryKind: nat -> string, wanted: nat -> string, appenderKind: nat -> string)

  /** A link of the category list: its head or the node of a category. */
  datatype Node = Head | Cat(c: nat)

  datatype Call = Call(id: nat, kind: string, raw: bool)

  /** What reaches an output: the header or the body of the record of a call for a category. */
  datatype Write = Header(id: nat, c: nat) | Body(id: nat, c: nat, raw: bool)

  /** Where a thread stands. */
  datatype Phase =
    | Idle
      // log_easy_class_vprintf and log_easy_class_raw_vprintf
    | Enter(call: Call)
    | Careful(call: Call, next: Node)
    | Begin(call: Call)
    | Look(call: Call, pos: Node)
    | Found(call: Call, c: nat, ac: Option<nat>)
    | Locked(call: Call, c: nat, a: nat)
    | Headed(call: Call, c: nat, a: nat)
    | Written(call: Call, c: nat, a: nat)
    | Onward(call: Call, c: nat)
      // category_class_register
    | WaitCategory(c: nat)
    | Reading(c: nat)
    | Link1(c: nat, next: Node)
    | Link2(c: nat, next: Node)
    | Link3(c: nat, next: Node)
    | Link4(c: nat, next: Node)
    | Binding(c: nat)
    | Counting(a: nat)
    | Counted(a: nat)
      // appender_class_regitser
    | WaitAppender(a: nat)
    | Walking(a: nat, pos: Node)
    | CountingFor(a: nat, c: nat)
    | CountedFor(a: nat, c: nat)
    | Releasing

  datatype State = State(
    next: map<Node, Node>,
    prev: map<Node, Node>,
    binding: map<nat, nat>,
    appenders: seq<nat>,
    quotes: map<nat, int>,
    registry: Option<nat>,
    locks: map<nat, nat>,
    output: map<nat, seq<Write>>,
    threads: map<nat, Phase>,
    used: set<nat>,
    usedAppenders: set<nat>,
    // history: the listed categories in list order, the calls that were made and those that returned, what
    // was listed and bound before a call, and the appender each record went to
    order: seq<nat>,
    calls: seq<Call>,
    done: set<nat>,
    before: map<nat, set<nat>>,
    sent: map<(nat, nat), nat>
  )

  function NextOf(s: State, n: Node): Node {
    if n in s.next then s.next[n] else n
  }

  function PrevOf(s: State, n: Node): Node {
    if n in s.prev then s.prev[n] else n
  }

  function Bound(s: State, c: nat): Option<nat> {
    if c in s.binding then Some(s.binding[c]) else None
  }

  function PhaseOf(s: State, t: nat): Phase {
    if t in s.threads then s.threads[t] else Idle
  }

  function Output(s: State, a: nat): seq<Write> {
    if a in s.output then s.output[a] else []
  }

  function Quote(s: State, a: nat): int {
    if a in s.quotes then s.quotes[a] else 0
  }

  function Initial(): State {
    State(map[], map[], map[], [], map[], None, map[], map[], map[], {}, {}, [], [], {}, map[], map[])
  }

  // Steps

  datatype Action =
    | StartLog(t: nat, kind: string, raw: bool)
    | StartCategory(t: nat, c: nat)
    | StartAppender(t: nat, a: nat)
    | Run(t: nat)

  function To(s: State, t: nat, phase: Phase): State {
    s.(threads := s.threads[t := phase])
  }

  function Put(s: State, a: nat, w: Write): State {
    s.(output := s.output[a := Output(s, a) + [w]])
  }

  /** What is listed and bound at the moment. */
  function Listed(s: State): set<nat> {
    set c | c in s.order && c in s.binding
  }

  function FirstMatch(cfg: Config, as_: seq<nat>, c: nat): Option<nat> {
    if as_ == [] then None
    else if cfg.appenderKind(as_[0]) == cfg.wanted(c) then Some(as_[0])
    else FirstMatch(cfg, as_[1..], c)
  }

  /** An action that cannot be taken, such as one that waits for a lock, changes nothing. */
  function Apply(cfg: Config, s: State, action: Action): State {
    match action
    case StartLog(t, kind, raw) =>
      if PhaseOf(s, t) != Idle then s
      else
        var call := Call(|s.calls|, kind, raw);
        To(s, t, Enter(call)).(calls := s.calls + [call], before := s.before[call.id := Listed(s)])
    case StartCategory(t, c) =>
      if PhaseOf(s, t) != Idle || c in s.used then s
      else To(s, t, WaitCategory(c)).(used := s.used + {c})
    case StartAppender(t, a) =>
      if PhaseOf(s, t) != Idle || a in s.usedAppenders then s
      else To(s, t, WaitAppender(a)).(usedAppenders := s.usedAppenders + {a})
    case Run(t) =>
      if PhaseOf(s, t).Idle? then s else Advance(cfg, s, t, PhaseOf(s, t))
  }

  function Advance(cfg: Config, s: State, t: nat, phase: Phase): State
    requires !phase.Idle?
  {
    match phase
    case Enter(call) => To(s, t, Careful(call, NextOf(s, Head)))
    case Careful(call, next) =>
      if next == Head && PrevOf(s, Head) == next then Finish(s, t, call) else To(s, t, Begin(call))
    case Begin(call) => To(s, t, Look(call, NextOf(s, Head)))
    case Look(call, pos) =>
      if pos == Head then Finish(s, t, call) else To(s, t, Found(call, pos.c, Bound(s, pos.c)))
    case Found(call, c, ac) =>
      if cfg.categoryKind(c) != call.kind || ac.None? then To(s, t, Onward(call, c))
      else if ac.value in s.locks then s
      else To(s, t, Locked(call, c, ac.value)).(locks := s.locks[ac.value := t])
    case Locked(call, c, a) =>
      if call.raw then Deliver(s, t, call, c, a) else To(Put(s, a, Header(call.id, c)), t, Headed(call, c, a))
    case Headed(call, c, a) => Deliver(s, t, call, c, a)
    case Written(call, c, a) => To(s, t, Onward(call, c)).(locks := s.locks - {a})
    case Onward(call, c) => To(s, t, Look(call, NextOf(s, Cat(c))))
    case WaitCategory(c) => if s.registry.Some? then s else To(s, t, Reading(c)).(registry := Some(t))
    case Reading(c) => To(s, t, Link1(c, NextOf(s, Head)))
    case Link1(c, next) => To(s, t, Link2(c, next)).(prev := s.prev[next := Cat(c)])
    case Link2(c, next) => To(s, t, Link3(c, next)).(next := s.next[Cat(c) := next])
    case Link3(c, next) => To(s, t, Link4(c, next)).(prev := s.prev[Cat(c) := Head])
    case Link4(c, next) => To(s, t, Binding(c)).(next := s.next[Head := Cat(c)], order := [c] + s.order)
    case Binding(c) =>
      (match FirstMatch(cfg, s.appenders, c)
       case None => To(s, t, Releasing)
       case Some(a) => To(s, t, Counting(a)).(binding := s.binding[c := a]))
    case Counting(a) =>
      if a in s.locks then s
      else To(s, t, Counted(a)).(locks := s.locks[a := t], quotes := s.quotes[a := Quote(s, a) + 1])
    case Counted(a) => To(s, t, Releasing).(locks := s.locks - {a})
    case WaitAppender(a) =>
      if s.registry.Some? then s
      else To(s, t, Walking(a, NextOf(s, Head))).(registry := Some(t), appenders := [a] + s.appenders)
    case Walking(a, pos) =>
      if pos == Head then To(s, t, Releasing)
      else if cfg.appenderKind(a) != cfg.wanted(pos.c) then To(s, t, Walking(a, NextOf(s, pos)))
      else To(s, t, CountingFor(a, pos.c)).(binding := s.binding[pos.c := a])
    case CountingFor(a, c) =>
      if a in s.locks then s
      else To(s, t, CountedFor(a, c)).(locks := s.locks[a := t], quotes := s.quotes[a := Quote(s, a) + 1])
    case CountedFor(a, c) => To(s, t, Walking(a, NextOf(s, Cat(c)))).(locks := s.locks - {a})
    case Releasing => To(s, t, Idle).(registry := None)
  }

  function Finish(s: State, t: nat, call: Call): State {
    To(s, t, Idle).(done := s.done + {call.id})
  }

  function Deliver(s: State, t: nat, call: Call, c: nat, a: nat): State {
    To(Put(s, a, Body(call.id, c, call.raw)), t, Written(call, c, a)).(sent := s.sent[(call.id, c) := a])
  }

  function RunAll(cfg: Config, s: State, actions: seq<Action>): State
    decreases |actions|
  {
    if actions == [] then s else RunAll(cfg, Apply(cfg, s, actions[0]), actions[1..])
  }

  // The list that is walked

  /** The node at a position of the list; the head closes it. */
  function NodeAt(order: seq<nat>, i: nat): Node {
    if i < |order| then Cat(order[i]) else Head
  }

  predicate LinkAt(s: State, i: nat)
    requires i < |s.order|
  {
    NextOf(s, Cat(s.order[i])) == NodeAt(s.order, i + 1)
  }

  /** Following next from the head leads over the listed categories and back. */
  ghost predicate Chain(s: State) {
    && NextOf(s, Head) == NodeAt(s.order, 0)
    && forall i: nat {:trigger LinkAt(s, i)} :: i < |s.order| ==> LinkAt(s, i)
  }

  /** The part of the list that a walk has still in front of it when it stands at a node. */
  function Rest(order: seq<nat>, pos: Node): (r: seq<nat>)
    ensures forall c :: c in r ==> c in order
  {
    if pos == Head || order == [] then []
    else if order[0] == pos.c then order
    else Rest(order[1..], pos)
  }

  function Behind(order: seq<nat>, c: nat): (r: seq<nat>)
    ensures forall x :: x in r ==> x in order
  {
    if order == [] then [] else if order[0] == c then order[1..] else Behind(order[1..], c)
  }

  lemma {:induction false} RestIsBehind(order: seq<nat>, c: nat)
    requires c in order
    ensures Rest(order, Cat(c)) == [c] + Behind(order, c)
  {
    if order[0] != c { RestIsBehind(order[1..], c); }
  }

  lemma {:induction false} BehindHasNoMore(order: seq<nat>, c: nat)
    requires AllDifferent(order)
    ensures c !in Behind(order, c)
  {
    if order != [] && order[0] != c { BehindHasNoMore(order[1..], c); }
  }

  /** Stepping along next takes exactly one category off what is left. */
  lemma {:induction false} RestAt(order: seq<nat>, i: nat)
    requires AllDifferent(order) && i < |order|
    ensures Behind(order, order[i]) == order[i + 1..] == Rest(order, NodeAt(order, i + 1))
  {
    if i > 0 {
      assert order[i] == order[1..][i - 1] && order[i] in order[1..];
      RestAt(order[1..], i - 1);
      assert order[i + 1..] == order[1..][i..];
      if i + 1 < |order| { assert order[i + 1] == order[1..][i] && order[i + 1] in order[1..]; }
    } else if |order| > 1 {
      assert order[1] in order[1..] && order[1..][0] == order[1];
    }
  }

  lemma NextIsRest(s: State, c: nat)
    requires Chain(s) && AllDifferent(s.order) && c in s.order
    ensures Rest(s.order, NextOf(s, Cat(c))) == Behind(s.order, c)
    ensures NextOf(s, Cat(c)) == Head || NextOf(s, Cat(c)).c in s.order
  {
    var i :| 0 <= i < |s.order| && s.order[i] == c;
    assert LinkAt(s, i);
    RestAt(s.order, i);
  }

  lemma FirstIsAll(s: State)
    requires Chain(s)
    ensures Rest(s.order, NextOf(s, Head)) == s.order
    ensures NextOf(s, Head) == Head <==> s.order == []
    ensures NextOf(s, Head) == Head || NextOf(s, Head).c in s.order
  {
  }

  // What every step keeps

  /** Whole records only: a body of a raw call, or a header and the body that belongs to it. */
  predicate Records(out: seq<Write>)
    decreases |out|
  {
    var n := |out|;
    out == []
    || (out[n - 1].Body? && out[n - 1].raw && Records(out[..n - 1]))
    || (&& n > 1 && out[n - 1].Body? && !out[n - 1].raw && out[n - 2] == Header(out[n - 1].id, out[n - 1].c)
        && Records(out[..n - 2]))
  }

  /** The number of bodies of a call for a category. */
  function Bodies(out: seq<Write>, id: nat, c: nat): nat {
    if out == [] then 0
    else
      var w := out[|out| - 1];
      Bodies(out[..|out| - 1], id, c) + if w.Body? && w.id == id && w.c == c then 1 else 0
  }

  /** The lock a phase holds on an appender. */
  function Holds(p: Phase): Option<nat> {
    match p
    case Locked(_, _, a) => Some(a)
    case Headed(_, _, a) => Some(a)
    case Written(_, _, a) => Some(a)
    case Counted(a) => Some(a)
    case CountedFor(a, _) => Some(a)
    case _ => None
  }

  predicate Logs(p: Phase) {
    p.Enter? || p.Careful? || p.Begin? || p.Look? || p.Found? || p.Locked? || p.Headed? || p.Written? || p.Onward?
  }

  /** Inside the registry lock. */
  predicate Registers(p: Phase) {
    !p.Idle? && !Logs(p) && !p.WaitCategory? && !p.WaitAppender?
  }

  /** The category that a registration has not put into the list yet. */
  function Coming(p: Phase): Option<nat> {
    match p
    case WaitCategory(c) => Some(c)
    case Reading(c) => Some(c)
    case Link1(c, _) => Some(c)
    case Link2(c, _) => Some(c)
    case Link3(c, _) => Some(c)
    case Link4(c, _) => Some(c)
    case _ => None
  }

  predicate Sent(s: State, id: nat, c: nat) {
    (id, c) in s.sent
  }

  /** Nothing was written for a call yet. */
  ghost predicate NothingSent(s: State, id: nat) {
    forall c: nat {:trigger Sent(s, id, c)} :: !Sent(s, id, c)
  }

  predicate Before(s: State, id: nat, c: nat) {
    id in s.before && c in s.before[id]
  }

  /** What was listed and bound before the call is listed and bound still. */
  ghost predicate StillListed(s: State, id: nat) {
    forall c: nat {:trigger Before(s, id, c)} :: Before(s, id, c) ==> c in s.order && c in s.binding
  }

  /** Each matching category of before is sent or still ahead; nothing that is ahead is sent. */
  ghost predicate UpTo(cfg: Config, s: State, call: Call, rest: seq<nat>) {
    && StillListed(s, call.id)
    && (forall c: nat {:trigger Before(s, call.id, c)} ::
          Before(s, call.id, c) && cfg.categoryKind(c) == call.kind ==> c in rest || Sent(s, call.id, c))
    && (forall c: nat {:trigger Sent(s, call.id, c)} :: c in rest ==> !Sent(s, call.id, c))
  }

  ghost predicate CallInv(cfg: Config, s: State, p: Phase)
    requires Logs(p)
  {
    var call := p.call;
    && call.id < |s.calls| && s.calls[call.id] == call && call.id !in s.done
    && match p
       case Enter(_) => NothingSent(s, call.id) && StillListed(s, call.id)
       case Begin(_) => NothingSent(s, call.id) && StillListed(s, call.id)
       case Careful(_, next) =>
         && NothingSent(s, call.id) && StillListed(s, call.id)
         && (next == Head ==> forall c: nat {:trigger Before(s, call.id, c)} :: !Before(s, call.id, c))
       case Look(_, pos) => (pos == Head || pos.c in s.order) && UpTo(cfg, s, call, Rest(s.order, pos))
       case Found(_, c, ac) =>
         c in s.order && UpTo(cfg, s, call, Rest(s.order, Cat(c))) && (ac.None? ==> !Before(s, call.id, c))
       case Locked(_, c, _) =>
         c in s.order && UpTo(cfg, s, call, Rest(s.order, Cat(c))) && cfg.categoryKind(c) == call.kind
       case Headed(_, c, _) =>
         && c in s.order && UpTo(cfg, s, call, Rest(s.order, Cat(c))) && cfg.categoryKind(c) == call.kind
         && !call.raw
       case Written(_, c, _) => c in s.order && UpTo(cfg, s, call, Behind(s.order, c))
       case Onward(_, c) => c in s.order && UpTo(cfg, s, call, Behind(s.order, c))
  }

  /** The links a registration writes, as long as it holds the registry lock. */
  ghost predicate LinkInv(s: State, p: Phase) {
    match p
    case Link1(c, next) => next == NextOf(s, Head)
    case Link2(c, next) => next == NextOf(s, Head)
    case Link3(c, next) => next == NextOf(s, Head) && NextOf(s, Cat(c)) == next
    case Link4(c, next) => next == NextOf(s, Head) && NextOf(s, Cat(c)) == next
    case _ => true
  }

  /** What holds of one thread. */
  ghost predicate ThreadInv(cfg: Config, s: State, t: nat) {
    var p := PhaseOf(s, t);
    && (Logs(p) ==> CallInv(cfg, s, p))
    && LinkInv(s, p)
    && (Holds(p).Some? ==> Holds(p).value in s.locks && s.locks[Holds(p).value] == t)
    && (Registers(p) <==> s.registry == Some(t))
    && (Coming(p).Some? ==> Coming(p).value in s.used && Coming(p).value !in s.order)
  }

  /** Two threads never share a call or a category that is being listed. */
  predicate Apart(s: State, t: nat, u: nat) {
    var p, q := PhaseOf(s, t), PhaseOf(s, u);
    && (Logs(p) && Logs(q) ==> p.call.id != q.call.id)
    && (Coming(p).Some? ==> Coming(p) != Coming(q))
  }

  /** The output of an appender: whole records, and the header that the holder of its lock has written. */
  ghost predicate OutputInv(s: State, a: nat) {
    var out := Output(s, a);
    && (a in s.locks ==> Holds(PhaseOf(s, s.locks[a])) == Some(a))
    && if a in s.locks && PhaseOf(s, s.locks[a]).Headed? then
         var p := PhaseOf(s, s.locks[a]);
         out != [] && out[|out| - 1] == Header(p.call.id, p.c) && Records(out[..|out| - 1])
       else Records(out)
  }

  /** Locks are taken and given back one at a time, by the thread whose phase says so. */
  predicate LocksFit(s: State, s1: State, t: nat) {
    var h, h1 := Holds(PhaseOf(s, t)), Holds(PhaseOf(s1, t));
    || (h1 == h && s1.locks == s.locks)
    || (h.None? && h1.Some? && h1.value !in s.locks && s1.locks == s.locks[h1.value := t])
    || (h.Some? && h1.None? && s1.locks == s.locks - {h.value})
  }

  /** A record is in the output it was sent to, once, and in no other. */
  predicate SentOnce(s: State, a: nat, id: nat, c: nat) {
    Bodies(Output(s, a), id, c) == if Sent(s, id, c) && s.sent[(id, c)] == a then 1 else 0
  }

  /** A call that returned has reached every matching category that was listed and bound before it. */
  predicate Served(cfg: Config, s: State, id: nat, c: nat)
    requires id < |s.calls|
  {
    id in s.done && Before(s, id, c) && cfg.categoryKind(c) == s.calls[id].kind ==> Sent(s, id, c)
  }

  /** Records go to categories of the type of the call. */
  predicate Fits(cfg: Config, s: State, id: nat, c: nat) {
    id < |s.calls| && s.calls[id].kind == cfg.categoryKind(c)
  }

  ghost predicate Inv(cfg: Config, s: State) {
    && Chain(s) && AllDifferent(s.order) && (forall c :: c in s.order ==> c in s.used)
    && (forall t: nat {:trigger ThreadInv(cfg, s, t)} :: ThreadInv(cfg, s, t))
    && (forall t: nat, u: nat {:trigger Apart(s, t, u)} :: t != u ==> Apart(s, t, u))
    && (forall a: nat {:trigger OutputInv(s, a)} :: OutputInv(s, a))
    && (forall a: nat, id: nat, c: nat {:trigger SentOnce(s, a, id, c)} :: SentOnce(s, a, id, c))
    && (forall id: nat, c: nat {:trigger Sent(s, id, c)} :: Sent(s, id, c) ==> Fits(cfg, s, id, c))
    && (forall id: nat {:trigger s.calls[id]} :: id < |s.calls| ==> s.calls[id].id == id)
    && (forall id :: id in s.done ==> id < |s.calls|)
    && (forall id: nat, c: nat {:trigger Served(cfg, s, id, c)} :: id < |s.calls| ==> Served(cfg, s, id, c))
  }

  lemma InitialInv(cfg: Config)
    ensures Inv(cfg, Initial())
  {
  }
}

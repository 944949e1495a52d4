/** The registry of appenders and categories. */
module Registry {
  // Lists that grow at the front, bindings from categories to appenders, and the counters that say how many
  // categories use an appender.

  import opened Sequences

  class Appender {
    /** appender_class_type */
    const kind: string
    var quote: int

    constructor (kind: string)
      ensures this.kind == kind && quote == 0
    {
      this.kind := kind;
      quote := 0;
    }
  }

  class Category {
    /** category_class_type */
    const kind: string
    /** The type of the appender it asks for. */
    const appenderKind: string
    var appender: Appender?

    constructor (kind: string, appenderKind: string)
      ensures this.kind == kind && this.appenderKind == appenderKind && appender == null
    {
      this.kind := kind;
      this.appenderKind := appenderKind;
      appender := null;
    }
  }

  predicate Match(a: Appender, c: Category) {
    a.kind == c.appenderKind
  }

  // What the lists determine

  /** The number of categories that ask for a type. */
  function Clients(cs: seq<Category>, kind: string): (n: nat)
    ensures n <= |cs|
  {
    if cs == [] then 0 else (if cs[0].appenderKind == kind then 1 else 0) + Clients(cs[1..], kind)
  }

  /** The first listed appender of a type. */
  function Owner(acs: seq<Appender>, kind: string): (a: Appender?)
    ensures a != null ==> a in acs && a.kind == kind
    ensures a == null ==> forall x :: x in acs ==> x.kind != kind
  {
    if acs == [] then null else if acs[0].kind == kind then acs[0] else Owner(acs[1..], kind)
  }

  predicate DistinctKinds(acs: seq<Appender>) {
    forall i, j :: 0 <= i < j < |acs| ==> acs[i].kind != acs[j].kind
  }

  lemma {:induction false} ClientsJoin(a: seq<Category>, b: seq<Category>, kind: string)
    ensures Clients(a + b, kind) == Clients(a, kind) + Clients(b, kind)
  {
    if a == [] {
      assert a + b == b;
    } else {
      assert (a + b)[0] == a[0] && (a + b)[1..] == a[1..] + b;
      ClientsJoin(a[1..], b, kind);
    }
  }

  function Without<T(==)>(s: seq<T>, x: T): (r: seq<T>)
    ensures forall y :: y in r ==> y in s
    ensures x !in s ==> r == s
  {
    if s == [] then [] else if s[0] == x then s[1..] else [s[0]] + Without(s[1..], x)
  }

  lemma {:induction false} WithoutKeeps<T>(s: seq<T>, x: T)
    requires AllDifferent(s)
    ensures AllDifferent(Without(s, x)) && x !in Without(s, x)
    ensures forall y :: y in Without(s, x) <==> y in s && y != x
  {
    if s != [] && s[0] != x {
      WithoutKeeps(s[1..], x);
      var t := Without(s[1..], x);
      assert ([s[0]] + t)[1..] == t;
    }
  }

  lemma {:induction false} WithoutKeepsKinds(s: seq<Appender>, x: Appender)
    requires DistinctKinds(s) && x in s
    ensures DistinctKinds(Without(s, x))
    ensures forall k :: Owner(Without(s, x), k) == if k == x.kind then null else Owner(s, k)
  {
    var r := Without(s, x);
    if s[0] == x {
      forall k ensures Owner(s[1..], k) == if k == x.kind then null else Owner(s, k) {
      }
    } else {
      WithoutKeepsKinds(s[1..], x);
      var t := Without(s[1..], x);
      assert r == [s[0]] + t;
      forall k ensures Owner(r, k) == if k == x.kind then null else Owner(s, k) {
        assert r[1..] == t;
      }
      forall j | 0 <= j < |t| ensures s[0].kind != t[j].kind {
        assert t[j] in s[1..];
      }
    }
  }

  /** Only one listed appender has the type of a. */
  lemma {:induction false} OwnerIs(s: seq<Appender>, a: Appender)
    requires DistinctKinds(s) && a in s
    ensures Owner(s, a.kind) == a
  {
    if s[0] != a {
      assert a in s[1..];
      OwnerIs(s[1..], a);
    }
  }

  lemma {:induction false} ClientsWithout(s: seq<Category>, c: Category, kind: string)
    requires c in s
    ensures Clients(Without(s, c), kind) == Clients(s, kind) - if c.appenderKind == kind then 1 else 0
  {
    if s[0] != c {
      ClientsWithout(s[1..], c, kind);
      assert Without(s, c)[1..] == Without(s[1..], c);
    }
  }

  /** The number of categories bound to an appender. */
  function Bound(cs: seq<Category>, a: Appender): (n: nat)
    reads cs
  {
    if cs == [] then 0 else (if cs[0].appender == a then 1 else 0) + Bound(cs[1..], a)
  }

  lemma {:induction false} BoundIsClients(cs: seq<Category>, a: Appender)
    requires forall c :: c in cs ==> (c.appender == a <==> c.appenderKind == a.kind)
    ensures Bound(cs, a) == Clients(cs, a.kind)
  {
    if cs != [] {
      assert cs[0] in cs;
      BoundIsClients(cs[1..], a);
    }
  }

  lemma {:induction false} NoneBound(cs: seq<Category>, a: Appender)
    requires forall c :: c in cs ==> c.appender != a
    ensures Bound(cs, a) == 0
  {
    if cs != [] {
      assert cs[0] in cs;
      NoneBound(cs[1..], a);
    }
  }

  class LogEasy {
    var appenders: seq<Appender>
    var categories: seq<Category>

    constructor ()
      ensures appenders == [] && categories == []
    {
      appenders, categories := [], [];
    }

    /** Every listed category is bound to the listed appender of its type, if there is one, and every
        listed appender counts the categories bound to it. */
    ghost predicate Valid()
      reads this, appenders, categories
    {
      && AllDifferent(appenders) && AllDifferent(categories) && DistinctKinds(appenders)
      && (forall c :: c in categories ==> c.appender == Owner(appenders, c.appenderKind))
      && (forall a :: a in appenders ==> a.quote == Clients(categories, a.kind))
    }

    /** Every counter is the number of bindings. */
    ghost predicate CountsAgree()
      reads this, appenders, categories
    {
      forall a :: a in appenders ==> a.quote == Bound(categories, a)
    }

    lemma ValidCountsAgree()
      requires Valid()
      ensures CountsAgree()
    {
      forall a | a in appenders ensures a.quote == Bound(categories, a) {
        forall c | c in categories ensures c.appender == a <==> c.appenderKind == a.kind {
          if c.appenderKind == a.kind { OwnerIs(appenders, a); }
        }
        BoundIsClients(categories, a);
      }
    }

    /** appender_mach_category_register */
    method BindCategories(ac: Appender)
      modifies categories`appender, ac`quote
      ensures forall c :: c in categories ==> c.appender == if Match(ac, c) then ac else old(c.appender)
      ensures ac.quote == old(ac.quote) + Clients(categories, ac.kind)
    {
      var i := 0;
      while i < |categories|
        invariant 0 <= i <= |categories|
        invariant forall c :: c in categories[..i] ==> c.appender == if Match(ac, c) then ac else old(c.appender)
        invariant forall c :: c in categories && c !in categories[..i] ==> c.appender == old(c.appender)
        invariant ac.quote == old(ac.quote) + Clients(categories[..i], ac.kind)
      {
        var pos := categories[i];
        assert categories[..i + 1] == categories[..i] + [pos];
        ClientsJoin(categories[..i], [pos], ac.kind);
        if Match(ac, pos) {
          pos.appender := ac;
          ac.quote := ac.quote + 1;
        }
        i := i + 1;
      }
      assert categories[..i] == categories;
    }

    /** appender_mach_category_unregister */
    method UnbindCategories(ac: Appender)
      modifies categories`appender, ac`quote
      ensures forall c :: c in categories ==> c.appender == if Match(ac, c) then null else old(c.appender)
      ensures ac.quote == old(ac.quote) - Clients(categories, ac.kind)
    {
      var i := 0;
      while i < |categories|
        invariant 0 <= i <= |categories|
        invariant forall c :: c in categories[..i] ==> c.appender == if Match(ac, c) then null else old(c.appender)
        invariant forall c :: c in categories && c !in categories[..i] ==> c.appender == old(c.appender)
        invariant ac.quote == old(ac.quote) - Clients(categories[..i], ac.kind)
      {
        var pos := categories[i];
        assert categories[..i + 1] == categories[..i] + [pos];
        ClientsJoin(categories[..i], [pos], ac.kind);
        if Match(ac, pos) {
          pos.appender := null;
          ac.quote := ac.quote - 1;
        }
        i := i + 1;
      }
      assert categories[..i] == categories;
    }

    /** The loop of the two category_mach_appender functions: the first appender that matches. */
    method FirstMatch(cc: Category) returns (ac: Appender?)
      ensures ac == Owner(appenders, cc.appenderKind)
    {
      var i := 0;
      while i < |appenders|
        invariant 0 <= i <= |appenders|
        invariant Owner(appenders, cc.appenderKind) == Owner(appenders[i..], cc.appenderKind)
      {
        assert appenders[i..][1..] == appenders[i + 1..];
        if Match(appenders[i], cc) {
          return appenders[i];
        }
        i := i + 1;
      }
      ac := null;
    }

    /** appender_class_regitser: nothing is listed when the appender cannot be opened. */
    method RegisterAppender(ac: Appender, opens: bool) returns (ok: bool)
      modifies this`appenders, categories`appender, ac`quote
      ensures ok == opens
      ensures !ok ==> unchanged(this) && unchanged(categories) && ac.quote == old(ac.quote)
      ensures ok ==> appenders == [ac] + old(appenders) && ac.quote == old(ac.quote) + Clients(categories, ac.kind)
      ensures ok ==> forall c :: c in categories ==>
                c.appender == if Match(ac, c) then ac else old(c.appender)
      ensures old(Valid()) && Owner(old(appenders), ac.kind) == null && old(ac.quote) == 0 ==> Valid()
    {
      if !opens {
        return false;
      }
      appenders := [ac] + appenders;
      BindCategories(ac);
      return true;
    }

    /** appender_class_unregister */
    method UnregisterAppender(ac: Appender)
      modifies this`appenders, categories`appender, ac`quote
      ensures appenders == Without(old(appenders), ac)
      ensures ac.quote == old(ac.quote) - Clients(categories, ac.kind)
      ensures forall c :: c in categories ==>
                c.appender == if Match(ac, c) then null else old(c.appender)
      ensures old(Valid()) && ac in old(appenders) ==> Valid() && ac.quote == 0
    {
      ghost var was := appenders;
      appenders := Without(appenders, ac);
      UnbindCategories(ac);
      if old(Valid()) && ac in was {
        WithoutKeeps(was, ac);
        WithoutKeepsKinds(was, ac);
      }
    }

    /** category_class_register */
    method RegisterCategory(cc: Category)
      modifies this`categories, cc`appender, appenders`quote
      ensures categories == [cc] + old(categories)
      ensures cc.appender == if Owner(appenders, cc.appenderKind) != null then Owner(appenders, cc.appenderKind)
                             else old(cc.appender)
      ensures forall a :: a in appenders ==>
                a.quote == old(a.quote) + if a == Owner(appenders, cc.appenderKind) then 1 else 0
      ensures old(Valid()) && cc !in old(categories) && old(cc.appender) == null ==> Valid()
    {
      categories := [cc] + categories;
      var ac := FirstMatch(cc);
      if ac != null {
        cc.appender := ac;
        ac.quote := ac.quote + 1;
      }
      if old(Valid()) {
        forall a | a in appenders ensures a == Owner(appenders, cc.appenderKind) <==> a.kind == cc.appenderKind {
          OwnerIs(appenders, a);
        }
      }
    }

    /** category_class_unregister */
    method UnregisterCategory(cc: Category)
      modifies this`categories, cc`appender, appenders`quote
      ensures categories == Without(old(categories), cc)
      ensures cc.appender == if Owner(appenders, cc.appenderKind) != null then null else old(cc.appender)
      ensures forall a :: a in appenders ==>
                a.quote == old(a.quote) - if a == Owner(appenders, cc.appenderKind) then 1 else 0
      ensures old(Valid()) && cc in old(categories) ==> Valid() && cc.appender == null
    {
      ghost var was := categories;
      categories := Without(categories, cc);
      var ac := FirstMatch(cc);
      if ac != null {
        cc.appender := null;
        ac.quote := ac.quote - 1;
      }
      if old(Valid()) && cc in was {
        WithoutKeeps(was, cc);
        forall a | a in appenders
          ensures a == Owner(appenders, cc.appenderKind) <==> a.kind == cc.appenderKind
          ensures a.quote == Clients(categories, a.kind)
        {
          OwnerIs(appenders, a);
          ClientsWithout(was, cc, a.kind);
        }
      }
    }

    /** An appender of a type that is listed already takes over all bindings of the other one but not its
        count: the counts agree exactly when there was no such appender, or nothing was bound to it. */
    method RegisterAnother(ac: Appender)
      requires Valid() && ac !in appenders && ac.quote == 0 && forall c :: c in categories ==> c.appender != ac
      modifies this`appenders, categories`appender, ac`quote
      ensures appenders == [ac] + old(appenders)
      ensures CountsAgree() <==> Owner(old(appenders), ac.kind) == null || Clients(categories, ac.kind) == 0
    {
      ghost var was, other := appenders, Owner(appenders, ac.kind);
      forall a, c | a in was && c in categories ensures c.appender == a <==> c.appenderKind == a.kind {
        if c.appenderKind == a.kind { OwnerIs(was, a); }
      }
      var done := RegisterAppender(ac, true);
      BoundIsClients(categories, ac);
      forall a | a in was && a != other ensures a.quote == Bound(categories, a) {
        OwnerIs(was, a);
        BoundIsClients(categories, a);
      }
      if other != null {
        NoneBound(categories, other);
        assert other in appenders && other.quote == Clients(categories, ac.kind);
      }
    }

    /** Any legal history from any valid state. The pools hold all appenders and categories it mentions;
        those that are not listed count nothing and are bound to nothing. */
    method Run(history: seq<Event>, ghost acs: set<Appender>, ghost cs: set<Category>)
      requires Valid() && Within(appenders, categories, acs, cs)
      requires Unused(acs, cs, appenders, categories) && AllLegal(history, appenders, categories, acs, cs)
      modifies this, acs`quote, cs`appender
      ensures Valid() && CountsAgree()
      ensures appenders == AppendersAfterAll(history, old(appenders))
      ensures categories == CategoriesAfterAll(history, old(categories))
      ensures forall c :: c in categories ==>
                c.appender == Owner(AppendersAfterAll(history, old(appenders)), c.appenderKind)
      ensures forall a :: a in appenders ==>
                a.quote == Clients(CategoriesAfterAll(history, old(categories)), a.kind)
    {
      var i := 0;
      while i < |history|
        invariant 0 <= i <= |history| && Valid() && Within(appenders, categories, acs, cs)
        invariant Unused(acs, cs, appenders, categories)
        invariant AllLegal(history[i..], appenders, categories, acs, cs)
        invariant AppendersAfterAll(history[i..], appenders) == AppendersAfterAll(history, old(appenders))
        invariant CategoriesAfterAll(history[i..], categories) == CategoriesAfterAll(history, old(categories))
      {
        assert history[i..][0] == history[i] && history[i..][1..] == history[i + 1..];
        Perform(history[i], acs, cs);
        i := i + 1;
      }
      ValidCountsAgree();
    }

    method Perform(e: Event, ghost acs: set<Appender>, ghost cs: set<Category>)
      requires Valid() && Within(appenders, categories, acs, cs)
      requires Unused(acs, cs, appenders, categories) && Legal(e, appenders, categories, acs, cs)
      modifies this, acs`quote, cs`appender
      ensures Valid() && Within(appenders, categories, acs, cs)
      ensures Unused(acs, cs, appenders, categories)
      ensures appenders == AppendersAfter(e, old(appenders)) && categories == CategoriesAfter(e, old(categories))
    {
      match e {
        case AddAppender(a, opens) =>
          var ok := RegisterAppender(a, opens);
        case DropAppender(a) =>
          WithoutKeeps(appenders, a);
          UnregisterAppender(a);
        case AddCategory(c) =>
          RegisterCategory(c);
        case DropCategory(c) =>
          WithoutKeeps(categories, c);
          UnregisterCategory(c);
      }
    }
  }

  /** A bound category and a second appender of its type: the first one goes on counting it. */
  method SecondAppenderMiscounts(kind: string, other: string) returns (registry: LogEasy)
    ensures fresh(registry) && !registry.CountsAgree()
  {
    registry := new LogEasy();
    var category := new Category(other, kind);
    var one := new Appender(kind);
    var two := new Appender(kind);
    registry.RegisterCategory(category);
    var ok := registry.RegisterAppender(one, true);
    registry.RegisterAnother(two);
  }

  // Histories

  datatype Event = AddAppender(a: Appender, opens: bool) | DropAppender(a: Appender)
    | AddCategory(c: Category) | DropCategory(c: Category)

  function AppendersAfter(e: Event, acs: seq<Appender>): seq<Appender> {
    match e
    case AddAppender(a, opens) => if opens then [a] + acs else acs
    case DropAppender(a) => Without(acs, a)
    case _ => acs
  }

  function CategoriesAfter(e: Event, cs: seq<Category>): seq<Category> {
    match e
    case AddCategory(c) => [c] + cs
    case DropCategory(c) => Without(cs, c)
    case _ => cs
  }

  function AppendersAfterAll(history: seq<Event>, acs: seq<Appender>): seq<Appender> {
    if history == [] then acs else AppendersAfterAll(history[1..], AppendersAfter(history[0], acs))
  }

  function CategoriesAfterAll(history: seq<Event>, cs: seq<Category>): seq<Category> {
    if history == [] then cs else CategoriesAfterAll(history[1..], CategoriesAfter(history[0], cs))
  }

  /** A type is registered once at a time, nothing is listed twice, and only what is listed is dropped. */
  predicate Legal(
      e: Event, acs: seq<Appender>, cs: seq<Category>, appenders: set<Appender>, categories: set<Category>)
  {
    match e
    case AddAppender(a, _) => a in appenders && Owner(acs, a.kind) == null
    case DropAppender(a) => a in acs
    case AddCategory(c) => c in categories && c !in cs
    case DropCategory(c) => c in cs
  }

  predicate AllLegal(
      history: seq<Event>, acs: seq<Appender>, cs: seq<Category>, appenders: set<Appender>,
      categories: set<Category>)
    decreases |history|
  {
    history == []
    || (&& Legal(history[0], acs, cs, appenders, categories)
        && AllLegal(history[1..], AppendersAfter(history[0], acs), CategoriesAfter(history[0], cs), appenders,
                    categories))
  }

  ghost predicate Within(listed: seq<Appender>, known: seq<Category>, acs: set<Appender>, cs: set<Category>) {
    (forall a :: a in listed ==> a in acs) && (forall c :: c in known ==> c in cs)
  }

  ghost predicate Unused(acs: set<Appender>, cs: set<Category>, listed: seq<Appender>, known: seq<Category>)
    reads acs, cs
  {
    && (forall a :: a in acs && a !in listed ==> a.quote == 0)
    && (forall c :: c in cs && c !in known ==> c.appender == null)
  }

  lemma {:induction false} LegalKeepsDistinct(
      history: seq<Event>, acs: seq<Appender>, cs: seq<Category>, appenders: set<Appender>,
      categories: set<Category>)
    requires AllLegal(history, acs, cs, appenders, categories)
    requires DistinctKinds(acs) && AllDifferent(acs) && AllDifferent(cs)
    ensures DistinctKinds(AppendersAfterAll(history, acs)) && AllDifferent(AppendersAfterAll(history, acs))
    ensures AllDifferent(CategoriesAfterAll(history, cs))
    decreases |history|
  {
    if history != [] {
      var e := history[0];
      match e {
        case DropAppender(a) =>
          WithoutKeeps(acs, a);
          WithoutKeepsKinds(acs, a);
        case DropCategory(c) =>
          WithoutKeeps(cs, c);
        case _ =>
      }
      LegalKeepsDistinct(
        history[1..], AppendersAfter(e, acs), CategoriesAfter(e, cs), appenders, categories);
    }
  }

  lemma {:induction false} ClientsOfSameSet(cs: seq<Category>, ds: seq<Category>, kind: string)
    requires AllDifferent(cs) && AllDifferent(ds) && forall c :: c in cs <==> c in ds
    ensures Clients(cs, kind) == Clients(ds, kind)
    decreases |cs|
  {
    if ds != [] { assert ds[0] in ds; }
    if cs != [] {
      WithoutKeeps(ds, cs[0]);
      ClientsWithout(ds, cs[0], kind);
      ClientsOfSameSet(cs[1..], Without(ds, cs[0]), kind);
    }
  }

  lemma OwnerOfSameSet(acs: seq<Appender>, bs: seq<Appender>, kind: string)
    requires DistinctKinds(acs) && DistinctKinds(bs) && forall a :: a in acs <==> a in bs
    ensures Owner(acs, kind) == Owner(bs, kind)
  {
    var a := Owner(acs, kind);
    if a != null { OwnerIs(bs, a); }
  }

  /** The order of registrations does not matter: after two legal histories with the same things listed,
      every type has the same appender and the same number of categories, which are what Run leaves in the
      bindings and the counters. */
  lemma OrderDoesNotMatter(
      one: seq<Event>, other: seq<Event>, appenders: set<Appender>, categories: set<Category>, kind: string)
    requires AllLegal(one, [], [], appenders, categories) && AllLegal(other, [], [], appenders, categories)
    requires forall a :: a in AppendersAfterAll(one, []) <==> a in AppendersAfterAll(other, [])
    requires forall c :: c in CategoriesAfterAll(one, []) <==> c in CategoriesAfterAll(other, [])
    ensures Owner(AppendersAfterAll(one, []), kind) == Owner(AppendersAfterAll(other, []), kind)
    ensures Clients(CategoriesAfterAll(one, []), kind) == Clients(CategoriesAfterAll(other, []), kind)
  {
    LegalKeepsDistinct(one, [], [], appenders, categories);
    LegalKeepsDistinct(other, [], [], appenders, categories);
    OwnerOfSameSet(AppendersAfterAll(one, []), AppendersAfterAll(other, []), kind);
    ClientsOfSameSet(CategoriesAfterAll(one, []), CategoriesAfterAll(other, []), kind);
  }
}

/** One kind of input: its registered instances and its running ones.

    A reload terminates the registered instances of a conf if their kind knows how to,
    removes them and everything that reflect.DeepEqual finds equal to them, and runs and
    registers new instances. A singleton kind registers an instance only if it has none,
    but runs it all the same. */
module InputKind {
  import opened Distinctness

  type Key = string

  /** An instance, numbered in the order in which the instances of its kind are made. */
  datatype Info = Info(key: Key, config: string, id: nat)

  /** plain: no field of the kind compares by identity, as channels do; ends: the kind
      has a Terminate method. */
  datatype Rule = Rule(singleton: bool, plain: bool, ends: bool)

  /** `list` is the kind's entry in InputsInfo; `running` the instances whose goroutine
      was started and not terminated. */
  datatype Kind = Kind(list: seq<Info>, running: set<Info>, made: nat)

  /** reflect.DeepEqual of two inputs of the kind. */
  predicate Twin(rule: Rule, x: Info, y: Info) {
    x.id == y.id || (rule.plain && x.config == y.config)
  }

  /** Configurations of the instances of one conf, in order. */
  function Of(xs: seq<Info>, key: Key): seq<string> {
    if xs == [] then []
    else if xs[0].key == key then [xs[0].config] + Of(xs[1..], key)
    else Of(xs[1..], key)
  }

  predicate Hit(rule: Rule, gone: set<Info>, y: Info) {
    exists x :: x in gone && Twin(rule, x, y)
  }

  /** What removing `gone` leaves of a list: everything that is equal to none of them. */
  function Kept(rule: Rule, xs: seq<Info>, gone: set<Info>): (r: seq<Info>)
    ensures forall y :: y in r <==> y in xs && !Hit(rule, gone, y)
  {
    if xs == [] then []
    else if Hit(rule, gone, xs[0]) then Kept(rule, xs[1..], gone)
    else [xs[0]] + Kept(rule, xs[1..], gone)
  }

  /** The instances that GetInputsByConfKey finds. */
  function With(k: Kind, key: Key): set<Info> {
    set x | x in k.list && x.key == key
  }

  function Stop(rule: Rule, k: Kind, key: Key): Kind {
    k.(list := Kept(rule, k.list, With(k, key)), running := if rule.ends then k.running - With(k, key) else k.running)
  }

  /** RunInput and AddInput. */
  function StartOne(rule: Rule, k: Kind, key: Key, config: string): Kind {
    var x := Info(key, config, k.made);
    Kind(if rule.singleton && k.list != [] then k.list else k.list + [x], k.running + {x}, k.made + 1)
  }

  function Start(rule: Rule, k: Kind, key: Key, configs: seq<string>): Kind {
    if configs == [] then k
    else
      var n := |configs| - 1;
      StartOne(rule, Start(rule, k, key, configs[..n]), key, configs[n])
  }

  function Reload(rule: Rule, k: Kind, key: Key, configs: seq<string>): Kind {
    Start(rule, Stop(rule, k, key), key, configs)
  }

  /** The configurations that the changed confs ask for. */
  type News = map<Key, seq<string>>

  /** Reloading changed confs in the order of a walk. */
  function Walk(rule: Rule, k: Kind, news: News, order: seq<Key>): Kind
    requires forall a :: a in order ==> a in news
  {
    if order == [] then k
    else
      var n := |order| - 1;
      Reload(rule, Walk(rule, k, news, order[..n]), order[n], news[order[n]])
  }

  // ------------------------------------------------------------------------------
  // What every step keeps
  // ------------------------------------------------------------------------------

  /** Registered instances run, and instances have different numbers. */
  ghost predicate Valid(k: Kind) {
    && (forall x :: x in k.list ==> x in k.running)
    && (forall x :: x in k.running ==> x.id < k.made)
    && (forall x, y :: x in k.running && y in k.running && x.id == y.id ==> x == y)
  }

  /** `x` runs without being registered. */
  predicate Stray(k: Kind, x: Info) {
    x in k.running && x !in k.list
  }

  /** Running instances are registered, so that a later reload can stop them. */
  ghost predicate Tracked(k: Kind) {
    forall x :: x in k.running ==> x in k.list
  }

  lemma SomeStray(k: Kind) returns (x: Info)
    requires !Tracked(k)
    ensures Stray(k, x)
  {
    x :| x in k.running && x !in k.list;
  }

  lemma StopValid(rule: Rule, k: Kind, key: Key)
    requires Valid(k)
    ensures Valid(Stop(rule, k, key))
  {
    forall x | x in Stop(rule, k, key).list
      ensures x !in With(k, key)
    {
      assert Twin(rule, x, x);
    }
  }

  lemma {:induction false} StartValid(rule: Rule, k: Kind, key: Key, configs: seq<string>)
    requires Valid(k)
    ensures Valid(Start(rule, k, key, configs))
    ensures k.made <= Start(rule, k, key, configs).made
    decreases |configs|
  {
    if configs != [] {
      StartValid(rule, k, key, configs[..|configs| - 1]);
    }
  }

  lemma {:induction false} WalkValid(rule: Rule, k: Kind, news: News, order: seq<Key>)
    requires Valid(k) && forall a :: a in order ==> a in news
    ensures Valid(Walk(rule, k, news, order))
    decreases |order|
  {
    if order != [] {
      var n := |order| - 1;
      WalkValid(rule, k, news, order[..n]);
      StopValid(rule, Walk(rule, k, news, order[..n]), order[n]);
      StartValid(rule, Stop(rule, Walk(rule, k, news, order[..n]), order[n]), order[n], news[order[n]]);
    }
  }

  /** An instance that runs without being registered is out of reach: starting others
      does not register it. */
  lemma {:induction false} StrayStart(rule: Rule, k: Kind, key: Key, configs: seq<string>, x: Info)
    requires Valid(k) && Stray(k, x)
    ensures Stray(Start(rule, k, key, configs), x)
    decreases |configs|
  {
    if configs != [] {
      StrayStart(rule, k, key, configs[..|configs| - 1], x);
      StartValid(rule, k, key, configs[..|configs| - 1]);
    }
  }

  /** No walk stops it. */
  lemma {:induction false} StrayWalk(rule: Rule, k: Kind, news: News, from: seq<Key>, order: seq<Key>, x: Info)
    requires Valid(k) && from <= order && forall a :: a in order ==> a in news
    requires Stray(Walk(rule, k, news, from), x)
    ensures Stray(Walk(rule, k, news, order), x)
    decreases |order|
  {
    if |from| < |order| {
      var n := |order| - 1;
      StrayWalk(rule, k, news, from, order[..n], x);
      WalkValid(rule, k, news, order[..n]);
      var w := Walk(rule, k, news, order[..n]);
      StopValid(rule, w, order[n]);
      StrayStart(rule, Stop(rule, w, order[n]), order[n], news[order[n]], x);
    } else {
      assert from == order;
    }
  }

  // ------------------------------------------------------------------------------
  // Exactly when one conf is stopped and started as intended
  // ------------------------------------------------------------------------------

  lemma {:induction false} OfAppend(xs: seq<Info>, x: Info, key: Key)
    ensures Of(xs + [x], key) == Of(xs, key) + if x.key == key then [x.config] else []
  {
    if xs == [] {
      assert xs + [x] == [x] && [x][1..] == [];
    } else {
      assert (xs + [x])[1..] == xs[1..] + [x];
      OfAppend(xs[1..], x, key);
    }
  }

  lemma {:induction false} OfMembers(xs: seq<Info>, key: Key, c: string)
    ensures c in Of(xs, key) <==> exists x :: x in xs && x.key == key && x.config == c
  {
    if xs != [] {
      OfMembers(xs[1..], key, c);
      if exists x :: x in xs && x.key == key && x.config == c {
        var x :| x in xs && x.key == key && x.config == c;
        assert x == xs[0] || x in xs[1..];
      }
      if c in Of(xs[1..], key) {
        var x :| x in xs[1..] && x.key == key && x.config == c;
        assert x in xs;
      }
      assert xs[0] in xs;
    }
  }

  lemma OfNone(xs: seq<Info>, key: Key)
    ensures Of(xs, key) == [] <==> forall x :: x in xs ==> x.key != key
  {
    if Of(xs, key) != [] {
      OfMembers(xs, key, Of(xs, key)[0]);
    }
    forall x | x in xs && x.key == key
      ensures Of(xs, key) != []
    {
      OfMembers(xs, key, x.config);
    }
  }

  lemma {:induction false} KeptShrinks(rule: Rule, xs: seq<Info>, gone: set<Info>, key: Key)
    ensures |Of(Kept(rule, xs, gone), key)| <= |Of(xs, key)|
  {
    if xs != [] {
      KeptShrinks(rule, xs[1..], gone, key);
      var r := Kept(rule, xs[1..], gone);
      assert ([xs[0]] + r)[1..] == r;
    }
  }

  /** Removal leaves a conf alone exactly if nothing of it is equal to what is removed. */
  lemma {:induction false} KeptExactly(rule: Rule, xs: seq<Info>, gone: set<Info>, key: Key)
    ensures Of(Kept(rule, xs, gone), key) == Of(xs, key) <==>
              forall y :: y in xs && Hit(rule, gone, y) ==> y.key != key
  {
    if xs != [] {
      KeptExactly(rule, xs[1..], gone, key);
      KeptShrinks(rule, xs[1..], gone, key);
      var r := Kept(rule, xs[1..], gone);
      assert ([xs[0]] + r)[1..] == r;
      assert xs[0] in xs && forall y :: y in xs <==> y == xs[0] || y in xs[1..];
      if xs[0].key == key {
        assert Of(xs, key)[1..] == Of(xs[1..], key);
        assert Of([xs[0]] + r, key)[1..] == Of(r, key);
      }
    }
  }

  /** The registered configurations, conf by conf. */
  type Confs = Key -> seq<string>

  function Listed(k: Kind): Confs {
    key => Of(k.list, key)
  }

  /** No other conf of a plain kind has a configuration that `key` has, and a kind that
      cannot be terminated has no instance there. */
  ghost predicate Apart(rule: Rule, has: Confs, key: Key) {
    && (!rule.ends ==> has(key) == [])
    && (rule.plain ==> forall b, c :: b != key && c in has(key) ==> c !in has(b))
  }

  /** Whatever Stop hits and does not itself terminate is an equal instance of another
      conf of a plain kind. */
  lemma HitByStop(rule: Rule, k: Kind, key: Key, y: Info)
    requires Valid(k) && y in k.list && y.key != key
    ensures Hit(rule, With(k, key), y) ==> rule.plain && y.config in Listed(k)(key) && y.config in Listed(k)(y.key)
  {
    OfMembers(k.list, key, y.config);
    OfMembers(k.list, y.key, y.config);
  }

  /** Stopping a conf always removes its own instances. It leaves the registry complete
      exactly if they can be terminated and no other conf has an equal instance, and then
      the others keep theirs. */
  lemma StopExactly(rule: Rule, k: Kind, key: Key)
    requires Valid(k) && Tracked(k)
    ensures Of(Stop(rule, k, key).list, key) == []
    ensures Tracked(Stop(rule, k, key)) <==> Apart(rule, Listed(k), key)
    ensures Apart(rule, Listed(k), key) ==>
              forall b :: b != key ==> Of(Stop(rule, k, key).list, b) == Of(k.list, b)
  {
    var s := Stop(rule, k, key);
    OfNone(k.list, key);
    OfNone(s.list, key);
    forall x | x in s.list
      ensures x.key != key
    {
      assert x.key == key ==> x in With(k, key) && Twin(rule, x, x);
    }
    if Apart(rule, Listed(k), key) {
      forall y | y in k.list && y.key != key
        ensures !Hit(rule, With(k, key), y)
      {
        HitByStop(rule, k, key, y);
      }
      forall b | b != key
        ensures Of(s.list, b) == Of(k.list, b)
      {
        KeptExactly(rule, k.list, With(k, key), b);
      }
    } else if !rule.ends && Listed(k)(key) != [] {
      EndlessIsStray(rule, k, key);
    } else {
      var b, c :| b != key && c in Listed(k)(key) && c in Listed(k)(b);
      EqualIsStray(rule, k, key, b, c);
    }
  }

  /** An instance that cannot be terminated is removed and runs on. */
  lemma EndlessIsStray(rule: Rule, k: Kind, key: Key)
    requires Valid(k) && !rule.ends && Of(k.list, key) != []
    ensures exists y :: Stray(Stop(rule, k, key), y)
  {
    OfNone(k.list, key);
    var x :| x in k.list && x.key == key;
    assert x in With(k, key) && Twin(rule, x, x);
    assert Hit(rule, With(k, key), x);
    assert Stray(Stop(rule, k, key), x);
  }

  /** The equal instance of another conf is removed and runs on. */
  lemma EqualIsStray(rule: Rule, k: Kind, key: Key, b: Key, c: string)
    requires Valid(k) && rule.plain && b != key && c in Of(k.list, key) && c in Of(k.list, b)
    ensures exists y :: Stray(Stop(rule, k, key), y)
  {
    OfMembers(k.list, key, c);
    OfMembers(k.list, b, c);
    var x :| x in k.list && x.key == key && x.config == c;
    var y :| y in k.list && y.key == b && y.config == c;
    assert x in With(k, key) && Twin(rule, x, y);
    assert Hit(rule, With(k, key), y);
    assert Stray(Stop(rule, k, key), y);
  }

  /** The registry stays complete when a conf is started exactly if a singleton kind gets
      at most one instance and has none registered; then the conf has got its instances
      and the others keep theirs. */
  ghost predicate Room(rule: Rule, k: Kind, configs: seq<string>) {
    rule.singleton && configs != [] ==> |configs| == 1 && k.list == []
  }

  /** One more instance that is registered. */
  lemma StartOneListed(rule: Rule, k: Kind, key: Key, config: string)
    requires Tracked(k) && (rule.singleton ==> k.list == [])
    ensures Tracked(StartOne(rule, k, key, config))
    ensures forall b :: Of(StartOne(rule, k, key, config).list, b) == Of(k.list, b) + if b == key then [config] else []
  {
    var x := Info(key, config, k.made);
    forall b
      ensures Of(k.list + [x], b) == Of(k.list, b) + if b == key then [config] else []
    {
      OfAppend(k.list, x, b);
    }
  }

  /** One that is not. */
  lemma StartOneStrays(rule: Rule, k: Kind, key: Key, config: string)
    requires Valid(k) && rule.singleton && k.list != []
    ensures !Tracked(StartOne(rule, k, key, config))
  {
    assert Stray(StartOne(rule, k, key, config), Info(key, config, k.made));
  }

  /** What the conf has got after all or some of its instances were started. */
  ghost predicate Got(k: Kind, k': Kind, key: Key, configs: seq<string>) {
    Tracked(k') && forall b :: Of(k'.list, b) == Of(k.list, b) + if b == key then configs else []
  }

  lemma GotMore(rule: Rule, k: Kind, m: Kind, key: Key, configs: seq<string>, config: string)
    requires Got(k, m, key, configs) && (rule.singleton ==> m.list == [])
    ensures Got(k, StartOne(rule, m, key, config), key, configs + [config])
  {
    StartOneListed(rule, m, key, config);
  }

  lemma {:induction false} StartGets(rule: Rule, k: Kind, key: Key, configs: seq<string>)
    requires Tracked(k) && Room(rule, k, configs)
    ensures Got(k, Start(rule, k, key, configs), key, configs)
    decreases |configs|
  {
    if configs != [] {
      var n := |configs| - 1;
      StartGets(rule, k, key, configs[..n]);
      GotMore(rule, k, Start(rule, k, key, configs[..n]), key, configs[..n], configs[n]);
      assert configs[..n] + [configs[n]] == configs;
    }
  }

  lemma StartExactly(rule: Rule, k: Kind, key: Key, configs: seq<string>)
    requires Valid(k) && Tracked(k)
    ensures Tracked(Start(rule, k, key, configs)) <==> Room(rule, k, configs)
    ensures Room(rule, k, configs) ==> Got(k, Start(rule, k, key, configs), key, configs)
  {
    if Room(rule, k, configs) {
      StartGets(rule, k, key, configs);
    } else {
      var n := |configs| - 1;
      StartedNotEmpty(rule, k, key, configs[..n]);
      StartValid(rule, k, key, configs[..n]);
      StartOneStrays(rule, Start(rule, k, key, configs[..n]), key, configs[n]);
    }
  }

  lemma {:induction false} StartedNotEmpty(rule: Rule, k: Kind, key: Key, configs: seq<string>)
    ensures Start(rule, k, key, configs).list == [] <==> k.list == [] && configs == []
    decreases |configs|
  {
    if configs != [] {
      StartedNotEmpty(rule, k, key, configs[..|configs| - 1]);
    }
  }

  // ------------------------------------------------------------------------------
  // Exactly when a pass over the changed confs does what it is for
  // ------------------------------------------------------------------------------

  /** A walk visits every changed conf once. */
  ghost predicate IsOrder(order: seq<Key>, news: News) {
    Distinct(order) && forall a :: a in order <==> a in news
  }

  /** The confs in `done` have what they ask for, the others what they had, and every
      running instance is registered. */
  ghost predicate Right(k: Kind, has: Confs, news: News, done: seq<Key>) {
    && Valid(k) && Tracked(k)
    && forall a :: Of(k.list, a) == if a in done && a in news then news[a] else has(a)
  }

  /** A changed conf that asks for an instance of a singleton kind asks for one, and no
      other conf has one or asks for one. */
  ghost predicate Alone(has: Confs, news: News) {
    forall a, b :: a in news && news[a] != [] ==>
      |news[a]| == 1 && (b != a ==> has(b) == [] && (b in news ==> news[b] == []))
  }

  /** No configuration of a changed conf is one of another conf, or one that another conf
      asks for. */
  ghost predicate Unshared(has: Confs, news: News) {
    forall a, b, c :: a in news && b != a && c in has(a) ==> c !in has(b) && (b in news ==> c !in news[b])
  }

  /** No changed conf has an instance. */
  ghost predicate Unused(has: Confs, news: News) {
    forall a :: a in news ==> has(a) == []
  }

  ghost predicate Fit(rule: Rule, has: Confs, news: News) {
    && (rule.singleton ==> Alone(has, news))
    && (rule.plain ==> Unshared(has, news))
    && (!rule.ends ==> Unused(has, news))
  }

  lemma {:induction false} FitWalk(rule: Rule, k: Kind, news: News, order: seq<Key>)
    requires Valid(k) && Tracked(k) && Fit(rule, Listed(k), news)
    requires Distinct(order) && forall a :: a in order ==> a in news
    ensures Right(Walk(rule, k, news, order), Listed(k), news, order)
    decreases |order|
  {
    if order != [] {
      var n := |order| - 1;
      FitWalk(rule, k, news, order[..n]);
      assert order[n] !in order[..n];
      assert order[..n] + [order[n]] == order;
      FitStep(rule, Walk(rule, k, news, order[..n]), Listed(k), news, order[..n], order[n]);
    }
  }

  lemma FitApart(rule: Rule, k: Kind, has: Confs, news: News, done: seq<Key>, key: Key)
    requires Right(k, has, news, done) && Fit(rule, has, news) && key in news && key !in done
    ensures Apart(rule, Listed(k), key)
  {
    if rule.plain {
      forall b, c | b != key && c in Listed(k)(key)
        ensures c !in Listed(k)(b)
      {
        assert c in has(key);
      }
    }
  }

  lemma FitRoom(rule: Rule, k: Kind, s: Kind, has: Confs, news: News, done: seq<Key>, key: Key)
    requires Right(k, has, news, done) && Fit(rule, has, news) && key in news
    requires forall b :: Of(s.list, b) == if b == key then [] else Of(k.list, b)
    ensures Room(rule, s, news[key])
  {
    if rule.singleton && news[key] != [] {
      forall b
        ensures Of(s.list, b) == []
      {
        assert b != key ==> has(b) == [];
      }
      NothingListed(s.list);
    }
  }

  lemma FitStep(rule: Rule, k: Kind, has: Confs, news: News, done: seq<Key>, key: Key)
    requires Right(k, has, news, done) && Fit(rule, has, news) && key in news && key !in done
    ensures Right(Reload(rule, k, key, news[key]), has, news, done + [key])
  {
    FitApart(rule, k, has, news, done, key);
    StopExactly(rule, k, key);
    FitRoom(rule, k, Stop(rule, k, key), has, news, done, key);
    ReloadedHas(rule, k, key, news[key]);
  }

  lemma NothingListed(xs: seq<Info>)
    ensures (forall b :: Of(xs, b) == []) ==> xs == []
  {
    if xs != [] {
      OfNone(xs, xs[0].key);
    }
  }

  /** Some walk leaves an instance running that no later reload can stop. */
  ghost predicate CanStray(rule: Rule, k: Kind, news: News) {
    exists order, x :: IsOrder(order, news) && Stray(Walk(rule, k, news, order), x)
  }

  /** A stray on the first part of a walk is one on a whole walk. */
  lemma StraySoon(rule: Rule, k: Kind, news: News, from: seq<Key>, x: Info)
    requires Valid(k) && Distinct(from) && forall a :: a in from ==> a in news
    requires Stray(Walk(rule, k, news, from), x)
    ensures CanStray(rule, k, news)
  {
    var order := OrderFrom(from, news, news.Keys - set a | a in from);
    StrayWalk(rule, k, news, from, order, x);
  }

  lemma {:induction false} OrderFrom(from: seq<Key>, news: News, rest: set<Key>) returns (order: seq<Key>)
    requires Distinct(from) && forall a :: a in news <==> a in from || a in rest
    requires forall a :: a in from ==> a !in rest
    ensures IsOrder(order, news) && from <= order
    decreases rest
  {
    if rest == {} {
      order := from;
    } else {
      var a :| a in rest;
      order := OrderFrom(from + [a], news, rest - {a});
    }
  }

  lemma WalkOne(rule: Rule, k: Kind, news: News, a: Key)
    requires a in news
    ensures Walk(rule, k, news, [a]) == Reload(rule, k, a, news[a])
  {
    assert [a][..0] == [];
  }

  lemma WalkTwo(rule: Rule, k: Kind, news: News, a: Key, b: Key)
    requires a in news && b in news
    ensures Walk(rule, k, news, [a, b]) == Reload(rule, Reload(rule, k, a, news[a]), b, news[b])
  {
    assert [a, b][..1] == [a];
    WalkOne(rule, k, news, a);
  }

  /** A reload that finds equal instances elsewhere or has no room leaves a stray. */
  lemma ReloadStrays(rule: Rule, k: Kind, key: Key, configs: seq<string>) returns (x: Info)
    requires Valid(k) && Tracked(k)
    requires !Apart(rule, Listed(k), key) || !Room(rule, Stop(rule, k, key), configs)
    ensures Stray(Reload(rule, k, key, configs), x)
  {
    var s := Stop(rule, k, key);
    StopValid(rule, k, key);
    StopExactly(rule, k, key);
    if Tracked(s) {
      StartExactly(rule, s, key, configs);
      x := SomeStray(Start(rule, s, key, configs));
    } else {
      x := SomeStray(s);
      StrayStart(rule, s, key, configs, x);
    }
  }

  /** The first conf of a walk meets what the confs had. */
  lemma FirstStrays(rule: Rule, k: Kind, news: News, a: Key)
    requires Valid(k) && Tracked(k) && a in news
    requires !Apart(rule, Listed(k), a) || !Room(rule, Stop(rule, k, a), news[a])
    ensures CanStray(rule, k, news)
  {
    var x := ReloadStrays(rule, k, a, news[a]);
    WalkOne(rule, k, news, a);
    assert Distinct([a]);
    StraySoon(rule, k, news, [a], x);
  }

  /** The second conf of a walk meets what the first one has got. */
  lemma SecondStrays(rule: Rule, k: Kind, news: News, a: Key, b: Key)
    requires Valid(k) && Tracked(k) && a in news && b in news && a != b
    requires
      var k1 := Reload(rule, k, a, news[a]);
      Tracked(k1) ==> !Apart(rule, Listed(k1), b) || !Room(rule, Stop(rule, k1, b), news[b])
    ensures CanStray(rule, k, news)
  {
    var k1 := Reload(rule, k, a, news[a]);
    if Tracked(k1) {
      WalkValid(rule, k, news, [a]);
      WalkOne(rule, k, news, a);
      var x := ReloadStrays(rule, k1, b, news[b]);
      WalkTwo(rule, k, news, a, b);
      assert Distinct([a, b]);
      StraySoon(rule, k, news, [a, b], x);
    } else {
      WalkOne(rule, k, news, a);
      var x := SomeStray(k1);
      assert Distinct([a]);
      StraySoon(rule, k, news, [a], x);
    }
  }

  /** What a conf that was reloaded without a stray has got. */
  lemma ReloadedHas(rule: Rule, k: Kind, key: Key, configs: seq<string>)
    requires Valid(k) && Tracked(k)
    requires Apart(rule, Listed(k), key) && Room(rule, Stop(rule, k, key), configs)
    ensures Valid(Reload(rule, k, key, configs)) && Tracked(Reload(rule, k, key, configs))
    ensures forall b :: Of(Reload(rule, k, key, configs).list, b) == if b == key then configs else Of(k.list, b)
  {
    StopExactly(rule, k, key);
    StopValid(rule, k, key);
    StartExactly(rule, Stop(rule, k, key), key, configs);
    StartValid(rule, Stop(rule, k, key), key, configs);
  }

  /** A pair of confs that breaks Alone. */
  lemma NotAlone(rule: Rule, k: Kind, news: News, a: Key, b: Key)
    requires Valid(k) && Tracked(k) && rule.singleton && a in news && news[a] != []
    requires |news[a]| != 1 || (b != a && (Of(k.list, b) != [] || (b in news && news[b] != [])))
    ensures CanStray(rule, k, news)
  {
    if !Apart(rule, Listed(k), a) || !Room(rule, Stop(rule, k, a), news[a]) {
      FirstStrays(rule, k, news, a);
    } else {
      StopExactly(rule, k, a);
      assert Of(k.list, b) == [] by {
        assert Of(Stop(rule, k, a).list, b) == [];
      }
      ReloadedHas(rule, k, a, news[a]);
      TakenBySecond(rule, Reload(rule, k, a, news[a]), a, b, news[b]);
      SecondStrays(rule, k, news, a, b);
    }
  }

  /** There is no room for a conf while another one has an instance. */
  lemma TakenBySecond(rule: Rule, k: Kind, a: Key, b: Key, configs: seq<string>)
    requires Valid(k) && Tracked(k) && rule.singleton && a != b && Of(k.list, a) != [] && configs != []
    ensures !Apart(rule, Listed(k), b) || !Room(rule, Stop(rule, k, b), configs)
  {
    StopExactly(rule, k, b);
  }

  /** Two confs and a configuration that break Unshared. */
  lemma Shared(rule: Rule, k: Kind, news: News, a: Key, b: Key, c: string)
    requires Valid(k) && Tracked(k) && rule.plain && a in news && b != a && c in Of(k.list, a)
    requires c in Of(k.list, b) || (b in news && c in news[b])
    ensures CanStray(rule, k, news)
  {
    if c in Of(k.list, b) {
      assert c in Listed(k)(a) && c in Listed(k)(b);
      FirstStrays(rule, k, news, a);
    } else if !Apart(rule, Listed(k), b) || !Room(rule, Stop(rule, k, b), news[b]) {
      FirstStrays(rule, k, news, b);
    } else {
      var k1 := Reload(rule, k, b, news[b]);
      ReloadedHas(rule, k, b, news[b]);
      assert c in Listed(k1)(a) && c in Listed(k1)(b);
      SecondStrays(rule, k, news, b, a);
    }
  }

  lemma UnfitStrays(rule: Rule, k: Kind, news: News)
    requires Valid(k) && Tracked(k) && !Fit(rule, Listed(k), news)
    ensures CanStray(rule, k, news)
  {
    var has := Listed(k);
    if rule.singleton && !Alone(has, news) {
      var a, b :| a in news && news[a] != [] && !(|news[a]| == 1 && (b != a ==> has(b) == [] && (b in news ==> news[b] == [])));
      NotAlone(rule, k, news, a, b);
    } else if !rule.ends && !Unused(has, news) {
      var a :| a in news && has(a) != [];
      FirstStrays(rule, k, news, a);
    } else {
      var a, b, c :| a in news && b != a && c in has(a) && !(c !in has(b) && (b in news ==> c !in news[b]));
      Shared(rule, k, news, a, b, c);
    }
  }

  /** Every walk over the changed confs leaves each of them with what it asks for, the
      others with what they had, and nothing running unregistered, exactly if the
      condition holds. */
  lemma PassIsRightExactly(rule: Rule, k: Kind, news: News)
    requires Valid(k) && Tracked(k)
    ensures (forall order :: IsOrder(order, news) ==> Right(Walk(rule, k, news, order), Listed(k), news, order))
            <==> Fit(rule, Listed(k), news)
  {
    if Fit(rule, Listed(k), news) {
      forall order | IsOrder(order, news)
        ensures Right(Walk(rule, k, news, order), Listed(k), news, order)
      {
        FitWalk(rule, k, news, order);
      }
    } else {
      UnfitStrays(rule, k, news);
    }
  }

  // ------------------------------------------------------------------------------
  // Runs of passes
  // ------------------------------------------------------------------------------

  ghost predicate AreOrders(orders: seq<seq<Key>>, newss: seq<News>) {
    |orders| == |newss| && forall i :: 0 <= i < |newss| ==> IsOrder(orders[i], newss[i])
  }

  predicate IsWalk(order: seq<Key>, news: News) {
    Distinct(order) && forall a :: a in order ==> a in news
  }

  /** Passes that may end before every changed conf was visited. */
  predicate AreWalks(orders: seq<seq<Key>>, newss: seq<News>) {
    |orders| == |newss| && forall i :: 0 <= i < |newss| ==> IsWalk(orders[i], newss[i])
  }

  function Passes(rule: Rule, k: Kind, newss: seq<News>, orders: seq<seq<Key>>): Kind
    requires AreWalks(orders, newss)
  {
    if newss == [] then k
    else
      var n := |newss| - 1;
      assert IsWalk(orders[n], newss[n]);
      Walk(rule, Passes(rule, k, newss[..n], orders[..n]), newss[n], orders[n])
  }

  /** What a conf asked for last, or had before. */
  function Last(has: Confs, newss: seq<News>, key: Key): seq<string> {
    if newss == [] then has(key)
    else
      var n := |newss| - 1;
      if key in newss[n] then newss[n][key] else Last(has, newss[..n], key)
  }

  function Lasts(has: Confs, newss: seq<News>): Confs {
    key => Last(has, newss, key)
  }

  /** Every conf has what it asked for last, and nothing runs unregistered. */
  ghost predicate UpToDate(k: Kind, has: Confs, newss: seq<News>) {
    Valid(k) && Tracked(k) && forall key :: Of(k.list, key) == Last(has, newss, key)
  }

  /** Each pass meets the condition on what the confs asked for before. */
  ghost predicate FitAll(rule: Rule, has: Confs, newss: seq<News>) {
    forall i :: 0 <= i < |newss| ==> Fit(rule, Lasts(has, newss[..i]), newss[i])
  }

  lemma FitAllSplit(rule: Rule, has: Confs, newss: seq<News>)
    requires newss != []
    ensures
      var n := |newss| - 1;
      FitAll(rule, has, newss) <==> FitAll(rule, has, newss[..n]) && Fit(rule, Lasts(has, newss[..n]), newss[n])
  {
    var n := |newss| - 1;
    assert forall i :: 0 <= i < n ==> newss[..n][..i] == newss[..i] && newss[..n][i] == newss[i];
  }

  lemma FitSame(rule: Rule, has: Confs, has': Confs, news: News)
    requires forall key :: has(key) == has'(key)
    ensures Fit(rule, has, news) <==> Fit(rule, has', news)
  {
  }

  lemma {:induction false} PassesValid(rule: Rule, k: Kind, newss: seq<News>, orders: seq<seq<Key>>)
    requires Valid(k) && AreWalks(orders, newss)
    ensures Valid(Passes(rule, k, newss, orders))
    decreases |newss|
  {
    if newss != [] {
      var n := |newss| - 1;
      PassesValid(rule, k, newss[..n], orders[..n]);
      assert IsWalk(orders[n], newss[n]);
      WalkValid(rule, Passes(rule, k, newss[..n], orders[..n]), newss[n], orders[n]);
    }
  }

  /** An instance that runs unregistered is never stopped by any run of reloads. */
  lemma {:induction false} StrayRunsOn(rule: Rule, k: Kind, newss: seq<News>, orders: seq<seq<Key>>, x: Info)
    requires Valid(k) && AreWalks(orders, newss) && Stray(k, x)
    ensures Stray(Passes(rule, k, newss, orders), x)
    decreases |newss|
  {
    if newss != [] {
      var n := |newss| - 1;
      StrayRunsOn(rule, k, newss[..n], orders[..n], x);
      PassesValid(rule, k, newss[..n], orders[..n]);
      assert IsWalk(orders[n], newss[n]);
      StrayWalk(rule, Passes(rule, k, newss[..n], orders[..n]), newss[n], [], orders[n], x);
    }
  }

  lemma {:induction false} FitPasses(rule: Rule, k: Kind, newss: seq<News>, orders: seq<seq<Key>>)
    requires Valid(k) && Tracked(k) && AreOrders(orders, newss) && FitAll(rule, Listed(k), newss)
    ensures UpToDate(Passes(rule, k, newss, orders), Listed(k), newss)
    decreases |newss|
  {
    if newss != [] {
      var n := |newss| - 1;
      FitAllSplit(rule, Listed(k), newss);
      FitPasses(rule, k, newss[..n], orders[..n]);
      var k1 := Passes(rule, k, newss[..n], orders[..n]);
      FitSame(rule, Listed(k1), Lasts(Listed(k), newss[..n]), newss[n]);
      assert IsOrder(orders[n], newss[n]);
      FitWalk(rule, k1, newss[n], orders[n]);
    }
  }

  /** Orders in which the run leaves a stray. */
  lemma {:induction false} UnfitRunStrays(rule: Rule, k: Kind, newss: seq<News>) returns (orders: seq<seq<Key>>, x: Info)
    requires Valid(k) && Tracked(k) && !FitAll(rule, Listed(k), newss)
    ensures AreOrders(orders, newss) && Stray(Passes(rule, k, newss, orders), x)
    decreases |newss|
  {
    var n := |newss| - 1;
    FitAllSplit(rule, Listed(k), newss);
    if FitAll(rule, Listed(k), newss[..n]) {
      orders := AnyOrders(newss[..n]);
      FitPasses(rule, k, newss[..n], orders);
      var k1 := Passes(rule, k, newss[..n], orders);
      FitSame(rule, Listed(k1), Lasts(Listed(k), newss[..n]), newss[n]);
      UnfitStrays(rule, k1, newss[n]);
      var order, y :| IsOrder(order, newss[n]) && Stray(Walk(rule, k1, newss[n], order), y);
      x := y;
      OnePassMore(rule, k, newss, orders, order);
      orders := orders + [order];
    } else {
      orders, x := UnfitRunStrays(rule, k, newss[..n]);
      PassesValid(rule, k, newss[..n], orders);
      var order := OrderFrom([], newss[n], newss[n].Keys);
      StrayWalk(rule, Passes(rule, k, newss[..n], orders), newss[n], [], order, x);
      OnePassMore(rule, k, newss, orders, order);
      orders := orders + [order];
    }
  }

  lemma {:induction false} OnePassMore(rule: Rule, k: Kind, newss: seq<News>, orders: seq<seq<Key>>, order: seq<Key>)
    requires newss != [] && AreOrders(orders, newss[..|newss| - 1]) && IsOrder(order, newss[|newss| - 1])
    ensures AreOrders(orders + [order], newss)
    ensures Passes(rule, k, newss, orders + [order])
            == Walk(rule, Passes(rule, k, newss[..|newss| - 1], orders), newss[|newss| - 1], order)
  {
    var n := |newss| - 1;
    assert (orders + [order])[..n] == orders;
  }

  lemma {:induction false} AnyOrders(newss: seq<News>) returns (orders: seq<seq<Key>>)
    ensures AreOrders(orders, newss)
    decreases |newss|
  {
    if newss == [] {
      orders := [];
    } else {
      var n := |newss| - 1;
      orders := AnyOrders(newss[..n]);
      var order := OrderFrom([], newss[n], newss[n].Keys);
      orders := orders + [order];
    }
  }

  /** Over any run of passes, in whatever orders the confs are walked, the instances are
      those last asked for and nothing runs unregistered, exactly if every pass meets the
      condition. */
  lemma RunIsRightExactly(rule: Rule, k: Kind, newss: seq<News>)
    requires Valid(k) && Tracked(k)
    ensures (forall orders :: AreOrders(orders, newss) ==> UpToDate(Passes(rule, k, newss, orders), Listed(k), newss))
            <==> FitAll(rule, Listed(k), newss)
  {
    if FitAll(rule, Listed(k), newss) {
      forall orders | AreOrders(orders, newss)
        ensures UpToDate(Passes(rule, k, newss, orders), Listed(k), newss)
      {
        FitPasses(rule, k, newss, orders);
      }
    } else {
      var orders, x := UnfitRunStrays(rule, k, newss);
      assert !Tracked(Passes(rule, k, newss, orders));
    }
  }

  /** Two instances of a singleton kind in one conf: the second runs and can never be
      stopped, whatever the registry holds. */
  lemma SecondSingletonStrays(rule: Rule, k: Kind, key: Key, configs: seq<string>, newss: seq<News>, orders: seq<seq<Key>>)
    requires Valid(k) && Tracked(k) && rule.singleton && |configs| >= 2 && AreWalks(orders, newss)
    ensures exists x: Info :: x.key == key && x.config in configs
                              && Stray(Passes(rule, Reload(rule, k, key, configs), newss, orders), x)
  {
    var s := Stop(rule, k, key);
    var n := |configs| - 1;
    StopValid(rule, k, key);
    StartValid(rule, s, key, configs);
    StartedNotEmpty(rule, s, key, configs[..n]);
    StartValid(rule, s, key, configs[..n]);
    var x := Info(key, configs[n], Start(rule, s, key, configs[..n]).made);
    assert Stray(Reload(rule, k, key, configs), x);
    StrayRunsOn(rule, Reload(rule, k, key, configs), newss, orders, x);
  }

  /** Two confs that ask for an instance of a singleton kind: both run, and the order of
      the walk decides which of them is registered. */
  lemma OrderDecides(a: Key, b: Key, c: string, d: string, plain: bool, ends: bool)
    requires a != b
    ensures
      var k := Walk(Rule(true, plain, ends), Kind([], {}, 0), map[a := [c], b := [d]], [a, b]);
      k.list == [Info(a, c, 0)] && k.running == {Info(a, c, 0), Info(b, d, 1)}
  {
    var rule, none, news := Rule(true, plain, ends), Kind([], {}, 0), map[a := [c], b := [d]];
    WalkTwo(rule, none, news, a, b);
    assert [c][..0] == [] && [d][..0] == [];
    var x := Info(a, c, 0);
    assert With(none, a) == {} && Stop(rule, none, a) == none;
    assert Start(rule, none, a, [c]) == StartOne(rule, none, a, [c][0]);
    var k := Reload(rule, none, a, [c]);
    assert k == Kind([x], {x}, 1);
    assert With(k, b) == {};
    assert Kept(rule, [x][1..], {}) == [];
    assert Stop(rule, k, b) == k;
    assert Start(rule, k, b, [d]) == StartOne(rule, k, b, [d][0]);
  }
}

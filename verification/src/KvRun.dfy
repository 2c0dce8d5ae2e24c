/** The loop that pulls the key-value configuration and reloads inputs. */
module KvRun {
  import opened Bytes
  import opened InputKind
  import opened KvReload
  import KvPull

  /** The state after some pulls. */
  function After(lib: KvPull.Library, s: KvPull.State, es: seq<KvPull.Event>): KvPull.State {
    if es == [] then s
    else
      var n := |es| - 1;
      KvPull.Pull(lib, After(lib, s, es[..n]), es[n].r, es[n].w).0
  }

  /** The dictionaries that were handed to a reload, one after the other. */
  function Installed(lib: KvPull.Library, s: KvPull.State, es: seq<KvPull.Event>): seq<Dict> {
    if es == [] then []
    else
      var n := |es| - 1;
      var (s', reload) := KvPull.Pull(lib, After(lib, s, es[..n]), es[n].r, es[n].w);
      Installed(lib, s, es[..n]) + if reload then [s'.kv] else []
  }

  /** Every kind has been through the walks of all reloads. */
  ghost predicate Ran(world: World, confs: map<Key, Conf>, kvs: seq<Dict>, before: Kinds, after: Kinds, walks: seq<seq<Key>>) {
    forall n ::
      && AreWalks(walks, AllNews(world, confs, kvs, n))
      && Get(after, n) == Passes(RuleOf(world, n), Get(before, n), AllNews(world, confs, kvs, n), walks)
  }

  /** No pass met a conf that did not parse, so all passes went to the end. */
  ghost predicate Complete(world: World, confs: map<Key, Conf>, kvs: seq<Dict>, walks: seq<seq<Key>>) {
    forall n :: AreOrders(walks, AllNews(world, confs, kvs, n))
  }

  predicate AllParse(world: World, confs: map<Key, Conf>, kvs: seq<Dict>) {
    forall d, key :: d in kvs && key in confs ==> !Unparsed(world, confs, d, key)
  }

  lemma RanMore(world: World, confs: map<Key, Conf>, kvs: seq<Dict>, kv: Dict,
                before: Kinds, mid: Kinds, after: Kinds, walks: seq<seq<Key>>, walked: seq<Key>)
    requires Ran(world, confs, kvs, before, mid, walks) && Walked(world, confs, kv, mid, after, walked)
    ensures Ran(world, confs, kvs + [kv], before, after, walks + [walked])
  {
    forall n
      ensures AreWalks(walks + [walked], AllNews(world, confs, kvs + [kv], n))
      ensures Get(after, n) == Passes(RuleOf(world, n), Get(before, n), AllNews(world, confs, kvs + [kv], n), walks + [walked])
    {
      var all := AllNews(world, confs, kvs + [kv], n);
      assert all[..|kvs|] == AllNews(world, confs, kvs, n);
      assert (walks + [walked])[..|kvs|] == walks;
      assert AreWalks(walks, AllNews(world, confs, kvs, n));
      assert IsWalk(walked, NewsOf(world, confs, kv, n));
    }
  }

  lemma CompleteMore(world: World, confs: map<Key, Conf>, kvs: seq<Dict>, kv: Dict,
                     walks: seq<seq<Key>>, walked: seq<Key>, failed: Option<Key>)
    requires Complete(world, confs, kvs, walks) && WalkOf(world, confs, kv, walked, failed)
    requires failed.None?
    ensures Complete(world, confs, kvs + [kv], walks + [walked])
  {
    forall n
      ensures AreOrders(walks + [walked], AllNews(world, confs, kvs + [kv], n))
    {
      assert AreOrders(walks, AllNews(world, confs, kvs, n));
      assert IsOrder(walked, NewsOf(world, confs, kv, n));
    }
  }

  /** `pull`: every tick pulls, and reloads if the pull says so. */
  method PullAndReload(lib: KvPull.Library, world: World, kv: KvPull.KV, f: KvPull.File, agent: Agent, es: seq<KvPull.Event>)
    returns (ghost walks: seq<seq<Key>>)
    modifies kv, f, agent`kinds
    ensures kv.View(f) == After(lib, old(kv.View(f)), es)
    ensures Ran(world, agent.confs, Installed(lib, old(kv.View(f)), es), old(agent.kinds), agent.kinds, walks)
    ensures AllParse(world, agent.confs, Installed(lib, old(kv.View(f)), es)) ==>
              Complete(world, agent.confs, Installed(lib, old(kv.View(f)), es), walks)
    ensures
      var kvs := Installed(lib, old(kv.View(f)), es);
      AllParse(world, agent.confs, kvs) ==>
        forall name ::
          && AsLoaded(world, agent.confs, Get(old(agent.kinds), name), name)
          && FitAll(RuleOf(world, name), Listed(Get(old(agent.kinds), name)), AllNews(world, agent.confs, kvs, name))
          ==> ServesLatest(world, agent.confs, kvs, Get(old(agent.kinds), name), Get(agent.kinds, name), name)
  {
    ghost var s := kv.View(f);
    ghost var kvs := [];
    walks := [];
    var i := 0;
    assert es[..0] == [];
    while i < |es|
      invariant 0 <= i <= |es|
      invariant kv.View(f) == After(lib, s, es[..i]) && kvs == Installed(lib, s, es[..i])
      invariant Ran(world, agent.confs, kvs, old(agent.kinds), agent.kinds, walks)
      invariant AllParse(world, agent.confs, kvs) ==> Complete(world, agent.confs, kvs, walks)
    {
      assert es[..i + 1][..i] == es[..i];
      var isReload := kv.DoPullKV(lib, es[i].r, f, es[i].w);
      if isReload {
        walks := Tick(world, agent, kv.kv, kvs, old(agent.kinds), walks);
        kvs := kvs + [kv.kv];
      }
      i := i + 1;
    }
    assert es[..i] == es;
    AllServeLatest(world, agent.confs, kvs, old(agent.kinds), agent.kinds, walks);
  }

  lemma AllServeLatest(world: World, confs: map<Key, Conf>, kvs: seq<Dict>, before: Kinds, after: Kinds, walks: seq<seq<Key>>)
    requires Ran(world, confs, kvs, before, after, walks)
    requires AllParse(world, confs, kvs) ==> Complete(world, confs, kvs, walks)
    ensures AllParse(world, confs, kvs) ==>
              forall name ::
                && AsLoaded(world, confs, Get(before, name), name)
                && FitAll(RuleOf(world, name), Listed(Get(before, name)), AllNews(world, confs, kvs, name))
                ==> ServesLatest(world, confs, kvs, Get(before, name), Get(after, name), name)
  {
    if AllParse(world, confs, kvs) {
      forall name | AsLoaded(world, confs, Get(before, name), name)
                    && FitAll(RuleOf(world, name), Listed(Get(before, name)), AllNews(world, confs, kvs, name))
        ensures ServesLatest(world, confs, kvs, Get(before, name), Get(after, name), name)
      {
        RunningIsLatest(world, confs, kvs, before, after, walks, name);
      }
    }
  }

  method Tick(world: World, agent: Agent, kv: Dict, ghost kvs: seq<Dict>, ghost before: Kinds, ghost walks: seq<seq<Key>>)
    returns (ghost walks': seq<seq<Key>>)
    requires Ran(world, agent.confs, kvs, before, agent.kinds, walks)
    requires AllParse(world, agent.confs, kvs) ==> Complete(world, agent.confs, kvs, walks)
    modifies agent`kinds
    ensures Ran(world, agent.confs, kvs + [kv], before, agent.kinds, walks')
    ensures AllParse(world, agent.confs, kvs + [kv]) ==> Complete(world, agent.confs, kvs + [kv], walks')
  {
    ghost var mid := agent.kinds;
    var failed, walked := agent.ReloadInputsWithKV(world, kv);
    RanMore(world, agent.confs, kvs, kv, before, mid, agent.kinds, walks, walked);
    walks' := walks + [walked];
    if AllParse(world, agent.confs, kvs + [kv]) {
      assert forall d :: d in kvs ==> d in kvs + [kv];
      assert kv in kvs + [kv];
      CompleteMore(world, agent.confs, kvs, kv, walks, walked, failed);
    }
  }

  /** The inputs of a kind as the confs were loaded. */
  ghost predicate AsLoaded(world: World, confs: map<Key, Conf>, k: Kind, name: Name) {
    && Valid(k) && Tracked(k)
    && forall key :: key in confs ==> Lists(world, confs[key].loaded, name, Of(k.list, key))
  }

  /** A template conf runs the inputs of its latest rendering that differed from the one
      at load time, or those of load time if none did; other confs run on; and every
      running input is registered. */
  ghost predicate ServesLatest(world: World, confs: map<Key, Conf>, kvs: seq<Dict>, before: Kind, after: Kind, name: Name) {
    && Valid(after) && Tracked(after)
    && (forall key :: key in confs ==> Lists(world, Latest(world, confs[key], kvs), name, Of(after.list, key)))
    && (forall key :: key !in confs ==> Of(after.list, key) == Of(before.list, key))
  }

  lemma RunningIsLatest(world: World, confs: map<Key, Conf>, kvs: seq<Dict>, before: Kinds, after: Kinds, walks: seq<seq<Key>>, name: Name)
    requires Ran(world, confs, kvs, before, after, walks) && Complete(world, confs, kvs, walks)
    requires AsLoaded(world, confs, Get(before, name), name)
    requires FitAll(RuleOf(world, name), Listed(Get(before, name)), AllNews(world, confs, kvs, name))
    ensures ServesLatest(world, confs, kvs, Get(before, name), Get(after, name), name)
  {
    assert AreOrders(walks, AllNews(world, confs, kvs, name));
    FitPasses(RuleOf(world, name), Get(before, name), AllNews(world, confs, kvs, name), walks);
    forall key
      ensures Last(Listed(Get(before, name)), AllNews(world, confs, kvs, name), key)
              == if key in confs then InputsOf(world, Latest(world, confs[key], kvs), name) else Of(Get(before, name).list, key)
    {
      LastIsLatest(world, confs, kvs, Listed(Get(before, name)), key, name);
    }
  }

  // ------------------------------------------------------------------------------
  // The current dictionary
  // ------------------------------------------------------------------------------

  /** The dictionary in memory is the one of the last reload. */
  lemma {:induction false} CurrentIsInstalled(lib: KvPull.Library, s: KvPull.State, es: seq<KvPull.Event>)
    ensures
      var kvs := Installed(lib, s, es);
      After(lib, s, es).kv == if kvs == [] then s.kv else kvs[|kvs| - 1]
    decreases |es|
  {
    if es != [] {
      CurrentIsInstalled(lib, s, es[..|es| - 1]);
    }
  }

  /** A pull leads to a reload exactly if it changes the value, and the reload gets the
      dictionary of the new value. */
  lemma {:induction false} ReloadsExactlyOnChange(lib: KvPull.Library, s: KvPull.State, es: seq<KvPull.Event>, e: KvPull.Event)
    requires KvPull.Lawful(lib) && KvPull.Parsed(lib, s)
    ensures
      var before, after := After(lib, s, es), After(lib, s, es + [e]);
      && KvPull.Parsed(lib, after) && KvPull.Shows(lib, after.value, after.kv)
      && Installed(lib, s, es + [e]) == if after.value == before.value then Installed(lib, s, es) else Installed(lib, s, es) + [after.kv]
  {
    StaysParsed(lib, s, es);
    assert (es + [e])[..|es|] == es;
    KvPull.PullStep(lib, After(lib, s, es), e.r, e.w);
  }

  lemma {:induction false} StaysParsed(lib: KvPull.Library, s: KvPull.State, es: seq<KvPull.Event>)
    requires KvPull.Lawful(lib) && KvPull.Parsed(lib, s)
    ensures KvPull.Parsed(lib, After(lib, s, es))
    decreases |es|
  {
    if es != [] {
      var n := |es| - 1;
      StaysParsed(lib, s, es[..n]);
      KvPull.PullStep(lib, After(lib, s, es[..n]), es[n].r, es[n].w);
    }
  }

  /** After any run of pulls the inputs of a conf are those of its current rendering
      exactly if that differs from the rendering at load time, or if the inputs had not
      moved away from those of load time. */
  lemma {:induction false} MatchesCurrentExactly(lib: KvPull.Library, world: World, s: KvPull.State, es: seq<KvPull.Event>,
                              confs: map<Key, Conf>, before: Kind, after: Kind, key: Key, name: Name)
    requires ServesLatest(world, confs, Installed(lib, s, es), before, after, name)
    requires key in confs && world.render(confs[key].raw, s.kv) == Some(confs[key].loaded)
    requires world.render(confs[key].raw, After(lib, s, es).kv).Some?
    ensures
      var c := confs[key];
      var now := world.render(c.raw, After(lib, s, es).kv).value;
      Lists(world, now, name, Of(after.list, key)) <==>
        now != c.loaded
        || InputsOf(world, Latest(world, c, Installed(lib, s, es)), name) == InputsOf(world, c.loaded, name)
  {
    CurrentIsInstalled(lib, s, es);
    AfterHas(world, confs, Installed(lib, s, es), before, after, name, key);
    MatchesExactly(world, confs[key], s.kv, Installed(lib, s, es), After(lib, s, es).kv, name);
  }

  lemma {:induction false} MatchesExactly(world: World, c: Conf, first: Dict, kvs: seq<Dict>, current: Dict, name: Name)
    requires world.render(c.raw, first) == Some(c.loaded) && world.render(c.raw, current).Some?
    requires current == if kvs == [] then first else kvs[|kvs| - 1]
    ensures
      var now := world.render(c.raw, current).value;
      InputsOf(world, Latest(world, c, kvs), name) == InputsOf(world, now, name) <==>
        now != c.loaded || InputsOf(world, Latest(world, c, kvs), name) == InputsOf(world, c.loaded, name)
  {
    LatestIsCurrent(world, c, first, kvs, current);
  }

  lemma {:induction false} LatestIsCurrent(world: World, c: Conf, first: Dict, kvs: seq<Dict>, current: Dict)
    requires world.render(c.raw, first) == Some(c.loaded) && world.render(c.raw, current).Some?
    requires current == if kvs == [] then first else kvs[|kvs| - 1]
    ensures world.render(c.raw, current).value != c.loaded ==> Latest(world, c, kvs) == world.render(c.raw, current).value
  {
  }

  lemma {:induction false} AfterHas(world: World, confs: map<Key, Conf>, kvs: seq<Dict>, before: Kind, after: Kind, name: Name, key: Key)
    requires ServesLatest(world, confs, kvs, before, after, name) && key in confs
    ensures Of(after.list, key) == InputsOf(world, Latest(world, confs[key], kvs), name)
  {
  }

  /** A, B, A: the value that was there at load time comes back, and the conf still runs
      the inputs of B. */
  lemma {:induction false} BackAgainIsMissed(lib: KvPull.Library, world: World, s: KvPull.State, b: string, m: int, n: int,
                          confs: map<Key, Conf>, before: Kind, after: Kind, key: Key, name: Name)
    requires KvPull.Lawful(lib) && KvPull.Parsed(lib, s)
    requires b != s.value && KvPull.Dictionary(lib, b).Some? && s.version < m < n
    requires key in confs && world.render(confs[key].raw, s.kv) == Some(confs[key].loaded)
    requires
      var shown := world.render(confs[key].raw, KvPull.Dictionary(lib, b).value);
      shown.Some? && shown.value != confs[key].loaded
    requires ServesLatest(world, confs, Installed(lib, s, Visit(s, b, m, n)), before, after, name)
    ensures After(lib, s, Visit(s, b, m, n)).kv == s.kv
    ensures Lists(world, world.render(confs[key].raw, KvPull.Dictionary(lib, b).value).value, name, Of(after.list, key))
  {
    var es := Visit(s, b, m, n);
    var d := KvPull.Dictionary(lib, b).value;
    assert es[..1] == [es[0]] && es[..1][..0] == [];
    assert After(lib, s, es[..1][..0]) == s;
    var s1 := After(lib, s, es[..1]);
    assert s1.value == b && s1.kv == d && s1.version == m && s1.md5 == lib.hash(b);
    assert Installed(lib, s, es[..1]) == [d];
    assert Installed(lib, s, es) == [d] + [s.kv];
    assert ([d] + [s.kv])[..1] == [d];
    assert Latest(world, confs[key], [d]) == world.render(confs[key].raw, d).value;
  }

  /** Two pulls: the value `b`, then the one of `s` again. */
  function Visit(s: KvPull.State, b: string, m: int, n: int): seq<KvPull.Event> {
    [KvPull.Event(KvPull.Got(b, m), KvPull.Written), KvPull.Event(KvPull.Got(s.value, n), KvPull.Written)]
  }
}

/** Reloading inputs when the key-value configuration has changed.

    Every template conf is remembered with the rendering it had when it was loaded. A
    reload renders all of them again; for those whose rendering differs from the one at
    load time it stops and removes the running inputs and starts those of the new
    rendering. The remembered rendering is never refreshed. */
module KvReload {
  import opened Bytes
  import opened Distinctness
  import opened InputKind

  type Name = string
  type Dict = map<string, string>

  /** render: the template engine; inputs: the TOML decoder and the constructors, for
      confs in array form; singletons: kinds that implement Singleton; plain: kinds
      without a field that compares by identity; endless: kinds that do not implement
      InputV2 and so have no Terminate. */
  datatype World = World(
    render: (string, Dict) -> Option<string>,
    inputs: string -> Option<map<Name, seq<string>>>,
    singletons: set<Name>,
    plain: set<Name>,
    endless: set<Name>)

  function RuleOf(world: World, name: Name): Rule {
    Rule(name in world.singletons, name in world.plain, name !in world.endless)
  }

  /** A conf's raw text and its rendering at load time. */
  datatype Conf = Conf(raw: string, loaded: string)

  type Kinds = map<Name, Kind>

  function Get(kinds: Kinds, name: Name): Kind {
    if name in kinds then kinds[name] else Kind([], {}, 0)
  }

  // ------------------------------------------------------------------------------
  // What a reload does
  // ------------------------------------------------------------------------------

  /** The new rendering of a conf if it differs from the one at load time. */
  function Changed(world: World, c: Conf, kv: Dict): Option<string> {
    match world.render(c.raw, kv)
    case None => None
    case Some(text) => if text == c.loaded then None else Some(text)
  }

  /** The inputs of a text; none if it does not parse. */
  function InputsOf(world: World, text: string, name: Name): seq<string> {
    match world.inputs(text)
    case None => []
    case Some(m) => if name in m then m[name] else []
  }

  /** `configs` are all instances of the kind that the text lists, in order. */
  predicate Lists(world: World, text: string, name: Name, configs: seq<string>) {
    match world.inputs(text)
    case None => configs == []
    case Some(m) => if name in m then configs == m[name] else configs == []
  }

  /** The conf renders, and not to the text it was loaded with. */
  predicate Renewed(world: World, c: Conf, kv: Dict) {
    world.render(c.raw, kv).Some? && world.render(c.raw, kv).value != c.loaded
  }

  /** What the changed confs ask for of one kind. */
  function NewsOf(world: World, confs: map<Key, Conf>, kv: Dict, name: Name): News {
    map key | key in confs && Changed(world, confs[key], kv).Some? ::
      InputsOf(world, Changed(world, confs[key], kv).value, name)
  }

  predicate Unparsed(world: World, confs: map<Key, Conf>, kv: Dict, key: Key) {
    && key in confs && Renewed(world, confs[key], kv)
    && world.inputs(world.render(confs[key].raw, kv).value).None?
  }

  /** A walk visits confs that render to a new text, all of them unless it ends with the
      first one whose new text does not parse. */
  ghost predicate WalkOf(world: World, confs: map<Key, Conf>, kv: Dict, walked: seq<Key>, failed: Option<Key>) {
    && Distinct(walked)
    && (forall key :: key in walked ==> key in confs && Renewed(world, confs[key], kv))
    && (match failed
        case None =>
          && (forall key :: key in confs && Renewed(world, confs[key], kv) ==> key in walked)
          && (forall key :: key in walked ==> !Unparsed(world, confs, kv, key))
        case Some(f) =>
          && walked != [] && walked[|walked| - 1] == f && Unparsed(world, confs, kv, f)
          && (forall key :: key in walked && key != f ==> !Unparsed(world, confs, kv, key)))
  }

  /** Every kind has been through the walk. */
  ghost predicate Walked(world: World, confs: map<Key, Conf>, kv: Dict, before: Kinds, after: Kinds, walked: seq<Key>) {
    Distinct(walked) &&
    forall n ::
      && IsWalk(walked, NewsOf(world, confs, kv, n))
      && Get(after, n) == Walk(RuleOf(world, n), Get(before, n), NewsOf(world, confs, kv, n), walked)
  }

  lemma WalkedMore(world: World, confs: map<Key, Conf>, kv: Dict, before: Kinds, mid: Kinds, after: Kinds, walked: seq<Key>, key: Key)
    requires Walked(world, confs, kv, before, mid, walked)
    requires key in confs && Changed(world, confs[key], kv).Some? && key !in walked
    requires forall n :: Get(after, n) ==
               Reload(RuleOf(world, n), Get(mid, n), key, InputsOf(world, Changed(world, confs[key], kv).value, n))
    ensures Walked(world, confs, kv, before, after, walked + [key])
  {
    assert (walked + [key])[..|walked|] == walked;
    forall n
      ensures IsWalk(walked + [key], NewsOf(world, confs, kv, n))
      ensures Get(after, n) == Walk(RuleOf(world, n), Get(before, n), NewsOf(world, confs, kv, n), walked + [key])
    {
      assert IsWalk(walked, NewsOf(world, confs, kv, n));
    }
  }

  /** `infos` lists the registered instances of a conf and nothing else. */
  ghost predicate AreInputsOf(infos: seq<(Name, Info)>, kinds: Kinds, key: Key) {
    forall n, x :: (n, x) in infos <==> x in Get(kinds, n).list && x.key == key
  }

  /** Nothing but one kind has changed. */
  ghost predicate OnlyKind(before: Kinds, after: Kinds, name: Name) {
    forall n :: n != name ==> Get(after, n) == Get(before, n)
  }

  class Agent {
    var confs: map<Key, Conf>
    var kinds: Kinds

    /** RemoveInput: the list is built anew without everything that is deeply equal. */
    method RemoveInput(world: World, name: Name, x: Info)
      modifies this`kinds
      ensures OnlyKind(old(kinds), kinds, name)
      ensures Get(kinds, name)
              == Get(old(kinds), name).(list := Kept(RuleOf(world, name), Get(old(kinds), name).list, {x}))
    {
      if name !in kinds {
        return;
      }
      var list := kinds[name].list;
      var newList := [];
      var i := 0;
      while i < |list|
        invariant 0 <= i <= |list| && kinds == old(kinds)
        invariant newList == Kept(RuleOf(world, name), list[..i], {x})
      {
        KeptNext(RuleOf(world, name), list, i, x);
        if !Twin(RuleOf(world, name), x, list[i]) {
          newList := newList + [list[i]];
        }
        i := i + 1;
      }
      assert list[..i] == list;
      kinds := kinds[name := kinds[name].(list := newList)];
    }

    method Terminate(world: World, name: Name, x: Info)
      modifies this`kinds
      ensures OnlyKind(old(kinds), kinds, name)
      ensures Get(kinds, name) == Get(old(kinds), name).(
                running := Ended(RuleOf(world, name), Get(old(kinds), name).running, {x}))
    {
      if name in kinds && name !in world.endless {
        kinds := kinds[name := kinds[name].(running := kinds[name].running - {x})];
      }
    }

    /** RunInput starts a new instance, AddInput registers it unless its kind is a
        singleton that has one. */
    method RunAndAdd(world: World, key: Key, name: Name, config: string)
      modifies this`kinds
      ensures OnlyKind(old(kinds), kinds, name)
      ensures Get(kinds, name) == StartOne(RuleOf(world, name), Get(old(kinds), name), key, config)
    {
      var k := Get(kinds, name);
      var x := Info(key, config, k.made);
      k := k.(running := k.running + {x}, made := k.made + 1);
      if !(name in world.singletons && |k.list| > 0) {
        k := k.(list := k.list + [x]);
      }
      kinds := kinds[name := k];
    }

    /** The registered instances of a conf, of all kinds and in no particular order. */
    method GetInputsByConfKey(key: Key) returns (arr: seq<(Name, Info)>)
      ensures AreInputsOf(arr, kinds, key)
    {
      arr := [];
      var rest := kinds.Keys;
      while rest != {}
        invariant rest <= kinds.Keys
        invariant forall n, x :: (n, x) in arr <==> n in kinds && n !in rest && x in kinds[n].list && x.key == key
      {
        var name :| name in rest;
        rest := rest - {name};
        var list := kinds[name].list;
        var i := 0;
        ghost var arr0 := arr;
        while i < |list|
          invariant 0 <= i <= |list|
          invariant forall n, x :: (n, x) in arr <==> (n, x) in arr0 || (n == name && x in list[..i] && x.key == key)
        {
          assert list[..i + 1] == list[..i] + [list[i]];
          if list[i].key == key {
            arr := arr + [(name, list[i])];
          }
          i := i + 1;
        }
        assert list[..i] == list;
      }
    }

    /** Terminates and removes the inputs of a conf. */
    method StopInputs(world: World, key: Key)
      modifies this`kinds
      ensures forall n :: Get(kinds, n) == Stop(RuleOf(world, n), Get(old(kinds), n), key)
    {
      var infos := GetInputsByConfKey(key);
      RemoveAll(world, infos);
      AllOfConfGone(world, old(kinds), kinds, infos, key);
    }

    method RemoveAll(world: World, infos: seq<(Name, Info)>)
      modifies this`kinds
      ensures AllGone(world, old(kinds), kinds, infos)
    {
      var i := 0;
      NothingGone(world, kinds, infos);
      while i < |infos|
        invariant 0 <= i <= |infos|
        invariant AllGone(world, old(kinds), kinds, infos[..i])
      {
        ghost var before := kinds;
        TerminateAndRemove(world, infos[i].0, infos[i].1);
        OneMoreGone(world, old(kinds), before, kinds, infos, i);
        i := i + 1;
      }
      assert infos[..i] == infos;
    }

    method TerminateAndRemove(world: World, name: Name, x: Info)
      modifies this`kinds
      ensures OneGone(world, old(kinds), kinds, name, x)
    {
      Terminate(world, name, x);
      RemoveInput(world, name, x);
    }

    /** Runs and registers the inputs of a conf. */
    method StartInputs(world: World, key: Key, m: map<Name, seq<string>>)
      modifies this`kinds
      ensures forall n :: Get(kinds, n) == Start(RuleOf(world, n), Get(old(kinds), n), key, if n in m then m[n] else [])
    {
      var rest := m.Keys;
      while rest != {}
        invariant rest <= m.Keys
        invariant forall n :: Get(kinds, n) ==
                    Start(RuleOf(world, n), Get(old(kinds), n), key, if n in m && n !in rest then m[n] else [])
      {
        var name :| name in rest;
        rest := rest - {name};
        StartKind(world, key, name, m[name]);
      }
    }

    method StartKind(world: World, key: Key, name: Name, configs: seq<string>)
      modifies this`kinds
      ensures OnlyKind(old(kinds), kinds, name)
      ensures Get(kinds, name) == Start(RuleOf(world, name), Get(old(kinds), name), key, configs)
    {
      var i := 0;
      while i < |configs|
        invariant 0 <= i <= |configs|
        invariant OnlyKind(old(kinds), kinds, name)
        invariant Get(kinds, name) == Start(RuleOf(world, name), Get(old(kinds), name), key, configs[..i])
      {
        RunAndAdd(world, key, name, configs[i]);
        assert configs[..i + 1][..i] == configs[..i];
        i := i + 1;
      }
      assert configs[..i] == configs;
    }

    /** reloadInputsWithKV. Confs that do not render are passed over. The changed confs
        are walked in some order, and the first one that does not parse ends the walk
        after its inputs were stopped. */
    method ReloadInputsWithKV(world: World, kv: Dict) returns (failed: Option<Key>, ghost walked: seq<Key>)
      modifies this`kinds
      ensures WalkOf(world, confs, kv, walked, failed)
      ensures failed.Some? <==> exists key :: Unparsed(world, confs, kv, key)
      ensures Walked(world, confs, kv, old(kinds), kinds, walked)
    {
      var changed := ChangedConfs(world, kv);
      var rest := changed.Keys;
      walked := [];
      while rest != {}
        invariant rest <= changed.Keys
        invariant forall a :: a in walked <==> a in changed && a !in rest
        invariant forall a :: a in walked ==> !Unparsed(world, confs, kv, a)
        invariant Walked(world, confs, kv, old(kinds), kinds, walked)
      {
        var key :| key in rest;
        rest := rest - {key};
        ghost var before := kinds;
        var ok := ReloadConf(world, key, changed[key]);
        WalkedMore(world, confs, kv, old(kinds), before, kinds, walked, key);
        walked := walked + [key];
        if !ok {
          assert Unparsed(world, confs, kv, key);
          return Some(key), walked;
        }
      }
      return None, walked;
    }

    method ReloadConf(world: World, key: Key, text: string) returns (ok: bool)
      modifies this`kinds
      ensures ok <==> world.inputs(text).Some?
      ensures forall n :: Get(kinds, n) == Reload(RuleOf(world, n), Get(old(kinds), n), key, InputsOf(world, text, n))
    {
      StopInputs(world, key);
      match world.inputs(text) {
        case None =>
          return false;
        case Some(m) =>
          StartInputs(world, key, m);
          return true;
      }
    }

    /** The loop over the remembered confs. */
    method ChangedConfs(world: World, kv: Dict) returns (changed: map<Key, string>)
      ensures forall k :: k in changed <==> k in confs && Changed(world, confs[k], kv).Some?
      ensures forall k :: k in changed ==> changed[k] == Changed(world, confs[k], kv).value
    {
      changed := map[];
      var rest := confs.Keys;
      while rest != {}
        invariant rest <= confs.Keys
        invariant forall k :: k in changed <==> k in confs && k !in rest && Changed(world, confs[k], kv).Some?
        invariant forall k :: k in changed ==> changed[k] == Changed(world, confs[k], kv).value
      {
        var key :| key in rest;
        rest := rest - {key};
        match world.render(confs[key].raw, kv) {
          case None =>
          case Some(text) =>
            if text != confs[key].loaded {
              changed := changed[key := text];
            }
        }
      }
    }
  }

  function Ended(rule: Rule, running: set<Info>, gone: set<Info>): set<Info> {
    if rule.ends then running - gone else running
  }

  function Without(rule: Rule, k: Kind, gone: set<Info>): Kind {
    k.(list := Kept(rule, k.list, gone), running := Ended(rule, k.running, gone))
  }

  ghost function Among(infos: seq<(Name, Info)>, name: Name): set<Info> {
    set p | p in infos && p.0 == name :: p.1
  }

  lemma AmongMore(infos: seq<(Name, Info)>, i: nat)
    requires i < |infos|
    ensures forall n :: Among(infos[..i + 1], n) == if n == infos[i].0 then Among(infos[..i], n) + {infos[i].1} else Among(infos[..i], n)
  {
    assert infos[..i + 1] == infos[..i] + [infos[i]];
    forall n
      ensures Among(infos[..i + 1], n) == if n == infos[i].0 then Among(infos[..i], n) + {infos[i].1} else Among(infos[..i], n)
    {
      forall x | x in Among(infos[..i], n) || (n == infos[i].0 && x == infos[i].1)
        ensures x in Among(infos[..i + 1], n)
      {
        assert (n, x) in infos[..i + 1];
      }
    }
  }

  /** The instances listed in `infos` were terminated and removed. */
  ghost predicate AllGone(world: World, before: Kinds, after: Kinds, infos: seq<(Name, Info)>) {
    forall n :: Get(after, n) == Without(RuleOf(world, n), Get(before, n), Among(infos, n))
  }

  ghost predicate OneGone(world: World, before: Kinds, after: Kinds, name: Name, x: Info) {
    && Get(after, name) == Without(RuleOf(world, name), Get(before, name), {x})
    && OnlyKind(before, after, name)
  }

  lemma NothingGone(world: World, kinds: Kinds, infos: seq<(Name, Info)>)
    ensures AllGone(world, kinds, kinds, infos[..0])
  {
    forall n
      ensures Get(kinds, n) == Without(RuleOf(world, n), Get(kinds, n), Among(infos[..0], n))
    {
      KeptAll(RuleOf(world, n), Get(kinds, n).list);
      assert Among(infos[..0], n) == {};
    }
  }

  lemma OneMoreGone(world: World, before: Kinds, mid: Kinds, after: Kinds, infos: seq<(Name, Info)>, i: nat)
    requires i < |infos| && AllGone(world, before, mid, infos[..i])
    requires OneGone(world, mid, after, infos[i].0, infos[i].1)
    ensures AllGone(world, before, after, infos[..i + 1])
  {
    AmongMore(infos, i);
    var (name, x) := infos[i];
    forall n
      ensures Get(after, n) == Without(RuleOf(world, n), Get(before, n), Among(infos[..i + 1], n))
    {
      assert Get(mid, n) == Without(RuleOf(world, n), Get(before, n), Among(infos[..i], n));
      if n == name {
        WithoutTwice(RuleOf(world, n), Get(before, n), Among(infos[..i], n), {x});
      }
    }
  }

  lemma WithoutTwice(rule: Rule, k: Kind, a: set<Info>, b: set<Info>)
    ensures Without(rule, Without(rule, k, a), b) == Without(rule, k, a + b)
  {
    KeptTwice(rule, k.list, a, b);
    assert k.running - a - b == k.running - (a + b);
  }

  lemma AllOfConfGone(world: World, before: Kinds, after: Kinds, infos: seq<(Name, Info)>, key: Key)
    requires AllGone(world, before, after, infos)
    requires AreInputsOf(infos, before, key)
    ensures forall n :: Get(after, n) == Stop(RuleOf(world, n), Get(before, n), key)
  {
    forall n
      ensures Get(after, n) == Stop(RuleOf(world, n), Get(before, n), key)
    {
      forall x
        ensures x in Among(infos, n) <==> x in With(Get(before, n), key)
      {
        assert (n, x) in infos <==> x in With(Get(before, n), key);
      }
      assert Among(infos, n) == With(Get(before, n), key);
    }
  }

  lemma {:induction false} KeptMore(rule: Rule, xs: seq<Info>, y: Info, gone: set<Info>)
    ensures Kept(rule, xs + [y], gone) == Kept(rule, xs, gone) + if Hit(rule, gone, y) then [] else [y]
  {
    if xs == [] {
      assert xs + [y] == [y] && [y][1..] == [];
    } else {
      assert (xs + [y])[1..] == xs[1..] + [y];
      KeptMore(rule, xs[1..], y, gone);
    }
  }

  lemma {:induction false} KeptNext(rule: Rule, xs: seq<Info>, i: nat, x: Info)
    requires i < |xs|
    ensures Kept(rule, xs[..i + 1], {x}) == if Twin(rule, x, xs[i]) then Kept(rule, xs[..i], {x}) else Kept(rule, xs[..i], {x}) + [xs[i]]
  {
    KeptMore(rule, xs[..i], xs[i], {x});
    assert xs[..i + 1] == xs[..i] + [xs[i]];
    assert Hit(rule, {x}, xs[i]) <==> Twin(rule, x, xs[i]);
  }

  lemma {:induction false} KeptAll(rule: Rule, xs: seq<Info>)
    ensures Kept(rule, xs, {}) == xs
  {
    if xs != [] {
      KeptAll(rule, xs[1..]);
    }
  }

  /** Removing one after the other is removing both. */
  lemma {:induction false} KeptTwice(rule: Rule, xs: seq<Info>, a: set<Info>, b: set<Info>)
    ensures Kept(rule, Kept(rule, xs, a), b) == Kept(rule, xs, a + b)
  {
    if xs != [] {
      KeptTwice(rule, xs[1..], a, b);
      var r := Kept(rule, xs[1..], a);
      assert ([xs[0]] + r)[1..] == r;
      assert Hit(rule, a + b, xs[0]) <==> Hit(rule, a, xs[0]) || Hit(rule, b, xs[0]);
    }
  }

  // ------------------------------------------------------------------------------
  // What passes leave
  // ------------------------------------------------------------------------------

  /** After a pass, every changed conf that was reached has the inputs of its new
      rendering, all others run on, and nothing runs unregistered. A pass that ended
      early leaves the conf at which it ended without inputs. */
  lemma PassReloads(world: World, confs: map<Key, Conf>, kv: Dict, before: Kinds, after: Kinds,
                    walked: seq<Key>, failed: Option<Key>, name: Name)
    requires Walked(world, confs, kv, before, after, walked) && WalkOf(world, confs, kv, walked, failed)
    requires Valid(Get(before, name)) && Tracked(Get(before, name))
    requires Fit(RuleOf(world, name), Listed(Get(before, name)), NewsOf(world, confs, kv, name))
    ensures Tracked(Get(after, name))
    ensures forall key :: key in walked ==>
              Lists(world, world.render(confs[key].raw, kv).value, name, Of(Get(after, name).list, key))
    ensures forall key :: key !in walked ==> Of(Get(after, name).list, key) == Of(Get(before, name).list, key)
    ensures failed.Some? ==> Of(Get(after, name).list, failed.value) == []
    ensures forall key :: key in confs && world.render(confs[key].raw, kv).None? ==>
              key !in walked && Of(Get(after, name).list, key) == Of(Get(before, name).list, key)
  {
    assert IsWalk(walked, NewsOf(world, confs, kv, name));
    FitWalk(RuleOf(world, name), Get(before, name), NewsOf(world, confs, kv, name), walked);
  }

  /** The last of the renderings that differs from the one at load time. */
  function Latest(world: World, c: Conf, kvs: seq<Dict>): string {
    if kvs == [] then c.loaded
    else match Changed(world, c, kvs[|kvs| - 1])
         case Some(text) => text
         case None => Latest(world, c, kvs[..|kvs| - 1])
  }

  /** It is the loaded text if no dictionary renewed the conf. */
  lemma {:induction false} LatestIsLoaded(world: World, c: Conf, kvs: seq<Dict>)
    requires forall i :: 0 <= i < |kvs| ==> !Renewed(world, c, kvs[i])
    ensures Latest(world, c, kvs) == c.loaded
    decreases |kvs|
  {
    if kvs != [] {
      LatestIsLoaded(world, c, kvs[..|kvs| - 1]);
    }
  }

  /** Otherwise it is the text under the last one that did. */
  lemma {:induction false} LatestIsLastRenewed(world: World, c: Conf, kvs: seq<Dict>, i: nat)
    requires i < |kvs| && Renewed(world, c, kvs[i]) && forall j :: i < j < |kvs| ==> !Renewed(world, c, kvs[j])
    ensures world.render(c.raw, kvs[i]) == Some(Latest(world, c, kvs))
    decreases |kvs|
  {
    if i < |kvs| - 1 {
      LatestIsLastRenewed(world, c, kvs[..|kvs| - 1], i);
    }
  }

  function AllNews(world: World, confs: map<Key, Conf>, kvs: seq<Dict>, name: Name): (r: seq<News>)
    ensures |r| == |kvs| && forall i :: 0 <= i < |kvs| ==> r[i] == NewsOf(world, confs, kvs[i], name)
  {
    seq(|kvs|, i requires 0 <= i < |kvs| => NewsOf(world, confs, kvs[i], name))
  }

  /** What a template conf asked for last is what its latest differing rendering asks for;
      a conf that is no template never asks. */
  lemma {:induction false} LastIsLatest(world: World, confs: map<Key, Conf>, kvs: seq<Dict>, has: Confs, key: Key, name: Name)
    requires key in confs ==> has(key) == InputsOf(world, confs[key].loaded, name)
    ensures Last(has, AllNews(world, confs, kvs, name), key)
            == if key in confs then InputsOf(world, Latest(world, confs[key], kvs), name) else has(key)
    decreases |kvs|
  {
    if kvs != [] {
      var n := |kvs| - 1;
      LastIsLatest(world, confs, kvs[..n], has, key, name);
      assert AllNews(world, confs, kvs, name)[..n] == AllNews(world, confs, kvs[..n], name);
    }
  }
}

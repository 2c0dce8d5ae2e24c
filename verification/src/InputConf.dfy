/** Collecting inputs from the conf files of a directory: `LoadInputConf`. */
module InputConf {
  import opened Bytes

  type Kind = string

  /** An instance of an input, as its configuration. */
  type Instance = string

  /** hash: SHA-256; load: environment and encryption references, template rendering
      and TOML, giving the instances of every kind or an error; singletons: the kinds
      whose inputs implement Singleton. */
  datatype World = World(
    hash: bytes -> string,
    load: bytes -> Option<map<Kind, seq<Instance>>>,
    singletons: set<Kind>)

  /** The hash has no collisions, and a kind that is listed has an instance. */
  ghost predicate Lawful(world: World) {
    && (forall a, b :: world.hash(a) == world.hash(b) ==> a == b)
    && (forall data, k :: world.load(data).Some? && k in world.load(data).value ==> world.load(data).value[k] != [])
  }

  type Loaded = map<Kind, seq<Instance>>

  function Get(m: Loaded, k: Kind): seq<Instance> {
    if k in m then m[k] else []
  }

  /** The instances of a kind in a file on its own, if the file was not loaded before. */
  function InFile(world: World, seen: set<string>, data: bytes, k: Kind): seq<Instance> {
    if world.hash(data) in seen then []
    else match world.load(data)
         case None => []
         case Some(m) => Get(m, k)
  }

  /** All instances of a kind in file order; a file with the content of an earlier one
      contributes nothing. */
  function Collected(world: World, seen: set<string>, files: seq<bytes>, k: Kind): seq<Instance> {
    if files == [] then []
    else
      var n := |files| - 1;
      Collected(world, seen, files[..n], k) + if files[n] in files[..n] then [] else InFile(world, seen, files[n], k)
  }

  /** A conf file; its content is missing if it cannot be read. */
  datatype File = File(path: string, content: Option<bytes>)

  /** The contents that are loaded. */
  function Readable(main: string, found: seq<File>): seq<bytes> {
    if found == [] then []
    else
      var n := |found| - 1;
      var f := found[n];
      if f.path != main && f.content.Some? then Readable(main, found[..n]) + [f.content.value]
      else Readable(main, found[..n])
  }

  /** The main conf and files that cannot be read are not loaded. */
  predicate Loads(main: string, f: File) {
    f.path != main && f.content.Some?
  }

  /** The file is loaded, and its content was neither seen before nor in an earlier file. */
  predicate FirstTime(world: World, main: string, seen: set<string>, found: seq<File>, i: nat)
    requires i < |found|
  {
    && Loads(main, found[i]) && world.hash(found[i].content.value) !in seen
    && forall j :: 0 <= j < i && Loads(main, found[j]) ==> found[j].content != found[i].content
  }

  /** All instances of a kind in the first `n` files, file after file. */
  function Gathered(world: World, main: string, seen: set<string>, found: seq<File>, k: Kind, n: nat): seq<Instance>
    requires n <= |found|
  {
    if n == 0 then []
    else
      var before := Gathered(world, main, seen, found, k, n - 1);
      if !FirstTime(world, main, seen, found, n - 1) then before
      else match world.load(found[n - 1].content.value)
           case None => before
           case Some(m) => if k in m then before + m[k] else before
  }

  lemma {:induction false} ReadableHas(main: string, found: seq<File>, data: bytes)
    ensures data in Readable(main, found) <==> exists j :: 0 <= j < |found| && Loads(main, found[j]) && found[j].content == Some(data)
    decreases |found|
  {
    if found != [] {
      var n := |found| - 1;
      ReadableHas(main, found[..n], data);
      if j :| 0 <= j < |found[..n]| && Loads(main, found[..n][j]) && found[..n][j].content == Some(data) {
        assert found[j].content == Some(data);
      }
      if j :| 0 <= j < |found| && Loads(main, found[j]) && found[j].content == Some(data) {
        assert j < n ==> found[..n][j] == found[j];
      }
    }
  }

  lemma {:induction false} CollectedIsGathered(world: World, main: string, seen: set<string>, found: seq<File>, k: Kind, n: nat)
    requires n <= |found|
    ensures Collected(world, seen, Readable(main, found[..n]), k) == Gathered(world, main, seen, found, k, n)
    ensures n == |found| ==> found[..n] == found
  {
    if n > 0 {
      CollectedIsGathered(world, main, seen, found, k, n - 1);
      assert found[..n][..n - 1] == found[..n - 1];
      var f := found[n - 1];
      if Loads(main, f) {
        var before := Readable(main, found[..n - 1]);
        assert (before + [f.content.value])[..|before|] == before;
        ReadableHas(main, found[..n - 1], f.content.value);
        FirstTimeExactly(world, main, seen, found, n - 1);
      }
    }
  }

  lemma FirstTimeExactly(world: World, main: string, seen: set<string>, found: seq<File>, i: nat)
    requires i < |found| && Loads(main, found[i])
    ensures FirstTime(world, main, seen, found, i) <==>
              && world.hash(found[i].content.value) !in seen
              && !exists j :: 0 <= j < |found[..i]| && Loads(main, found[..i][j]) && found[..i][j].content == Some(found[i].content.value)
  {
    if j :| 0 <= j < i && Loads(main, found[j]) && found[j].content == found[i].content {
      assert found[..i][j] == found[j];
    }
  }

  /** What is kept of them: a singleton is loaded once. */
  function Kept(world: World, all: seq<Instance>, k: Kind): seq<Instance> {
    if k in world.singletons && all != [] then all[..1] else all
  }

  /** The instances of one more file, added to those collected so far. */
  function Merged(world: World, have: seq<Instance>, arr: seq<Instance>, k: Kind): seq<Instance> {
    if k in world.singletons && have != [] then have
    else have + if |arr| > 1 && k in world.singletons then arr[..1] else arr
  }

  lemma MergedIsKept(world: World, all: seq<Instance>, arr: seq<Instance>, k: Kind)
    ensures Merged(world, Kept(world, all, k), arr, k) == Kept(world, all + arr, k)
  {
    if k in world.singletons {
      if all != [] {
        assert (all + arr)[..1] == all[..1];
      } else {
        assert all + arr == arr;
        assert |arr| == 1 ==> arr[..1] == arr;
      }
    }
  }

  class Loader {
    /** ConfigFileHash */
    var hashes: set<string>

    constructor ()
      ensures hashes == {}
    {
      hashes := {};
    }

    method CheckConfFileDupOrSet(world: World, data: bytes) returns (dup: bool)
      modifies this
      ensures dup <==> world.hash(data) in old(hashes)
      ensures hashes == old(hashes) + {world.hash(data)}
    {
      dup := world.hash(data) in hashes;
      hashes := hashes + {world.hash(data)};
    }

    /** The inner loop over the kinds of one file, in any order. */
    method Merge(world: World, have: Loaded, more: Loaded) returns (ret: Loaded)
      requires forall k :: k in more ==> more[k] != []
      ensures forall k :: Get(ret, k) == Merged(world, Get(have, k), Get(more, k), k)
    {
      ret := have;
      var rest := more.Keys;
      while rest != {}
        invariant rest <= more.Keys
        invariant forall k :: Get(ret, k) == if k in rest then Get(have, k) else Merged(world, Get(have, k), Get(more, k), k)
      {
        var k :| k in rest;
        rest := rest - {k};
        var loaded := k in world.singletons && Get(ret, k) != [];
        if !loaded {
          var arr := more[k];
          if |arr| > 1 && k in world.singletons {
            arr := arr[..1];
          }
          ret := ret[k := Get(ret, k) + arr];
        }
      }
    }

    /** For each kind the instances of all files in file order, byte-identical files
        and those loaded before left out; of a singleton kind only the first found. The
        main conf and files that cannot be read are passed over. */
    method LoadInputConf(world: World, main: string, found: seq<File>) returns (ret: Loaded)
      requires Lawful(world)
      modifies this
      ensures HasKept(world, old(hashes), Readable(main, found), ret)
      ensures Recorded(world, old(hashes), Readable(main, found), hashes)
      ensures forall k :: Get(ret, k) ==
                var all := Gathered(world, main, old(hashes), found, k, |found|);
                if k in world.singletons && |all| > 1 then [all[0]] else all
    {
      ghost var seen := hashes;
      ret := map[];
      var i := 0;
      while i < |found|
        invariant 0 <= i <= |found|
        invariant Recorded(world, seen, Readable(main, found[..i]), hashes)
        invariant HasKept(world, seen, Readable(main, found[..i]), ret)
      {
        assert found[..i + 1][..i] == found[..i];
        if found[i].path != main && found[i].content.Some? {
          ret := LoadOne(world, seen, Readable(main, found[..i]), found[i].content.value, ret);
        }
        i := i + 1;
      }
      assert found[..i] == found;
      forall k
        ensures Get(ret, k) ==
                var all := Gathered(world, main, seen, found, k, |found|);
                if k in world.singletons && |all| > 1 then [all[0]] else all
      {
        CollectedIsGathered(world, main, seen, found, k, |found|);
      }
    }

    /** One round of the loop over the files. */
    method LoadOne(world: World, ghost seen: set<string>, ghost before: seq<bytes>, data: bytes, have: Loaded) returns (ret: Loaded)
      requires Lawful(world)
      requires Recorded(world, seen, before, hashes) && HasKept(world, seen, before, have)
      modifies this
      ensures Recorded(world, seen, before + [data], hashes) && HasKept(world, seen, before + [data], ret)
    {
      var dup := CheckConfFileDupOrSet(world, data);
      RecordedMore(world, seen, before, data, old(hashes));
      var more: Loaded := map[];
      if !dup {
        match world.load(data) {
          case None =>
          case Some(x) => more := x;
        }
      }
      ret := Merge(world, have, more);
      KeptMore(world, seen, before, data, have, more, ret);
    }
  }

  /** The hashes are those seen at the start and those of the files. */
  ghost predicate Recorded(world: World, seen: set<string>, files: seq<bytes>, hashes: set<string>) {
    forall h :: h in hashes <==> h in seen || exists j :: 0 <= j < |files| && world.hash(files[j]) == h
  }

  ghost predicate HasKept(world: World, seen: set<string>, files: seq<bytes>, ret: Loaded) {
    forall k :: Get(ret, k) == Kept(world, Collected(world, seen, files, k), k)
  }

  lemma RecordedMore(world: World, seen: set<string>, files: seq<bytes>, data: bytes, hashes: set<string>)
    requires Lawful(world) && Recorded(world, seen, files, hashes)
    ensures Recorded(world, seen, files + [data], hashes + {world.hash(data)})
    ensures world.hash(data) in hashes <==> world.hash(data) in seen || data in files
  {
    var more := files + [data];
    assert more[|files|] == data;
    forall h
      ensures h in hashes + {world.hash(data)} <==> h in seen || exists j :: 0 <= j < |more| && world.hash(more[j]) == h
    {
      if exists j :: 0 <= j < |files| && world.hash(files[j]) == h {
        var j :| 0 <= j < |files| && world.hash(files[j]) == h;
        assert more[j] == files[j];
      }
    }
  }

  lemma KeptMore(world: World, seen: set<string>, files: seq<bytes>, data: bytes, have: Loaded, more: Loaded, ret: Loaded)
    requires HasKept(world, seen, files, have)
    requires forall k :: Get(more, k) == if data in files then [] else InFile(world, seen, data, k)
    requires forall k :: Get(ret, k) == Merged(world, Get(have, k), Get(more, k), k)
    ensures HasKept(world, seen, files + [data], ret)
  {
    forall k
      ensures Get(ret, k) == Kept(world, Collected(world, seen, files + [data], k), k)
    {
      assert (files + [data])[..|files|] == files;
      MergedIsKept(world, Collected(world, seen, files, k), Get(more, k), k);
    }
  }

  /** For a singleton kind: nothing, or the first instance of the first file that has one. */
  lemma {:induction false} SingletonIsFirst(world: World, seen: set<string>, files: seq<bytes>, k: Kind)
    requires k in world.singletons
    ensures
      var kept := Kept(world, Collected(world, seen, files, k), k);
      && (kept == [] <==> forall i :: 0 <= i < |files| ==> InFile(world, seen, files[i], k) == [])
      && (kept != [] ==> exists i :: 0 <= i < |files| && InFile(world, seen, files[i], k) != []
                                     && kept == InFile(world, seen, files[i], k)[..1]
                                     && forall j :: 0 <= j < i ==> InFile(world, seen, files[j], k) == [])
    decreases |files|
  {
    if files != [] {
      var n := |files| - 1;
      var prev := files[..n];
      SingletonIsFirst(world, seen, prev, k);
      assert forall i :: 0 <= i < n ==> prev[i] == files[i];
      var all := Collected(world, seen, prev, k);
      var arr := InFile(world, seen, files[n], k);
      if all != [] {
        var i :| 0 <= i < |prev| && InFile(world, seen, prev[i], k) != []
                 && Kept(world, all, k) == InFile(world, seen, prev[i], k)[..1]
                 && forall j :: 0 <= j < i ==> InFile(world, seen, prev[j], k) == [];
        assert Collected(world, seen, files, k)[..1] == all[..1];
        assert InFile(world, seen, files[i], k) != [];
      } else {
        if files[n] in prev {
          var m :| 0 <= m < n && prev[m] == files[n];
        }
        assert Collected(world, seen, files, k) == arr;
      }
    }
  }
}

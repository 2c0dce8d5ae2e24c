/** Versioned global tags, and the feeders that cache them.

    Writers change the tags under a lock and then bump a version counter. A feeder that
    finds its version out of date first takes over the current version and then copies
    the host tags and the election tags into the shared cache, one after the other,
    under a lock of its own. Loads and stores of the versions take no lock. */
module GlobalTags {
  import opened Bytes

  type Labels = map<string, string>

  // ------------------------------------------------------------------------------
  // The operations
  // ------------------------------------------------------------------------------

  const TWO_63: int := 0x8000_0000_0000_0000
  const TWO_64: int := 0x1_0000_0000_0000_0000

  /** The int64 that an atomic counter holds after `n` increments from zero. */
  function Wrap64(n: nat): int { (n + TWO_63) % TWO_64 - TWO_63 }

  function Increment(v: int): int { if v == TWO_63 - 1 then -TWO_63 else v + 1 }

  lemma IncrementWraps(n: nat)
    ensures Increment(Wrap64(n)) == Wrap64(n + 1)
  {
    var r := (n + TWO_63) % TWO_64;
    assert (n + 1 + TWO_63) % TWO_64 == if r + 1 == TWO_64 then 0 else r + 1;
  }

  class Globals {
    var hostTags: Labels
    var electionTags: Labels
    var tagVersion: int
    /** Number of increments so far. */
    ghost var bumps: nat

    ghost predicate Valid()
      reads this
    {
      tagVersion == Wrap64(bumps)
    }

    constructor ()
      ensures Valid() && bumps == 0 && hostTags == map[] && electionTags == map[]
    {
      hostTags, electionTags, tagVersion, bumps := map[], map[], 0, 0;
    }

    method Bump()
      requires Valid()
      modifies this`tagVersion, this`bumps
      ensures Valid() && bumps == old(bumps) + 1
    {
      IncrementWraps(bumps);
      tagVersion := Increment(tagVersion);
      bumps := bumps + 1;
    }

    method SetGlobalHostTags(k: string, v: string)
      requires Valid()
      modifies this
      ensures Valid() && bumps == old(bumps) + 1
      ensures hostTags == old(hostTags)[k := v] && electionTags == old(electionTags)
    {
      hostTags := hostTags[k := v];
      Bump();
    }

    method SetGlobalHostTagsByMap(tags: Labels)
      requires Valid()
      modifies this
      ensures Valid() && bumps == old(bumps) + 1
      ensures hostTags == old(hostTags) + tags && electionTags == old(electionTags)
    {
      var rest := tags.Keys;
      while rest != {}
        invariant rest <= tags.Keys
        invariant hostTags == old(hostTags) + (tags - rest)
        invariant Valid() && bumps == old(bumps) && electionTags == old(electionTags)
      {
        var k :| k in rest;
        hostTags := hostTags[k := tags[k]];
        rest := rest - {k};
      }
      assert tags - {} == tags;
      Bump();
    }

    method SetGlobalElectionTags(k: string, v: string)
      requires Valid()
      modifies this
      ensures Valid() && bumps == old(bumps) + 1
      ensures electionTags == old(electionTags)[k := v] && hostTags == old(hostTags)
    {
      electionTags := electionTags[k := v];
      Bump();
    }

    method SetGlobalElectionTagsByMap(tags: Labels)
      requires Valid()
      modifies this
      ensures Valid() && bumps == old(bumps) + 1
      ensures electionTags == old(electionTags) + tags && hostTags == old(hostTags)
    {
      var rest := tags.Keys;
      while rest != {}
        invariant rest <= tags.Keys
        invariant electionTags == old(electionTags) + (tags - rest)
        invariant Valid() && bumps == old(bumps) && hostTags == old(hostTags)
      {
        var k :| k in rest;
        electionTags := electionTags[k := tags[k]];
        rest := rest - {k};
      }
      assert tags - {} == tags;
      Bump();
    }

    method ClearGlobalHostTags()
      requires Valid()
      modifies this
      ensures Valid() && bumps == old(bumps) + 1
      ensures hostTags == map[] && electionTags == old(electionTags)
    {
      hostTags := map[];
      Bump();
    }

    method ClearGlobalElectionTags()
      requires Valid()
      modifies this
      ensures Valid() && bumps == old(bumps) + 1
      ensures electionTags == map[] && hostTags == old(hostTags)
    {
      electionTags := map[];
      Bump();
    }

    method ClearGlobalTags()
      requires Valid()
      modifies this
      ensures Valid() && bumps == old(bumps) + 3
      ensures hostTags == map[] && electionTags == map[]
    {
      ClearGlobalHostTags();
      ClearGlobalElectionTags();
      Bump();
    }
  }

  /** dynamicGlobalTaggerImpl */
  class Tagger {
    var ver: int

    method Updated(g: Globals) returns (r: bool)
      ensures r <==> ver != g.tagVersion
    {
      r := ver != g.tagVersion;
    }

    method UpdateVersion(g: Globals)
      modifies this
      ensures ver == g.tagVersion
    {
      ver := g.tagVersion;
    }
  }

  // ------------------------------------------------------------------------------
  // All interleavings of writers and feeders
  // ------------------------------------------------------------------------------

  datatype Tags = Tags(host: Labels, election: Labels)

  /** Who holds the tag lock for writing, and whether it has bumped the version yet. */
  datatype Writer = NoWriter | Writing(bumped: bool)

  /** Where a feeder is; `v` is the number of bumps behind the version it has loaded. */
  datatype Feeder =
    | Resting
    | Loaded(v: nat)
    | Stored(v: nat)
    | Locked(v: nat)
    | HostCopied(v: nat)

  /** `version` and `ver` count bumps; the code sees them through Wrap64. */
  datatype State = State(
    tags: Tags, version: nat, writer: Writer,
    ver: nat, cache: Tags, refresher: Option<nat>, feeders: seq<Feeder>)

  function Start(n: nat): State {
    var none := Tags(map[], map[]);
    State(none, 0, NoWriter, 0, none, None, seq(n, _ => Resting))
  }

  predicate Updated(s: State) { Wrap64(s.ver) != Wrap64(s.version) }

  datatype Step =
    | WriteLock
    | WriteHost(host: Labels)
    | WriteElection(election: Labels)
    | WriteBump
    | WriteUnlock
    | BareBump
    | Load(f: nat)
    | Store(f: nat)
    | Lock(f: nat)
    | CopyHost(f: nat)
    | CopyElection(f: nat)

  predicate Enabled(s: State, step: Step) {
    match step
    case WriteLock => s.writer.NoWriter?
    case WriteHost(_) => s.writer == Writing(false)
    case WriteElection(_) => s.writer == Writing(false)
    case WriteBump => s.writer == Writing(false)
    case WriteUnlock => s.writer == Writing(true)
    case BareBump => true
    case Load(f) => f < |s.feeders| && s.feeders[f].Resting?
    case Store(f) => f < |s.feeders| && s.feeders[f].Loaded?
    case Lock(f) => f < |s.feeders| && s.feeders[f].Stored? && s.refresher.None?
    case CopyHost(f) => f < |s.feeders| && s.feeders[f].Locked? && s.writer.NoWriter?
    case CopyElection(f) => f < |s.feeders| && s.feeders[f].HostCopied? && s.writer.NoWriter?
  }

  function Move(s: State, f: nat, p: Feeder): State
    requires f < |s.feeders|
  {
    s.(feeders := s.feeders[f := p])
  }

  function Apply(s: State, step: Step): State
    requires Enabled(s, step)
  {
    match step
    case WriteLock => s.(writer := Writing(false))
    case WriteHost(host) => s.(tags := s.tags.(host := host))
    case WriteElection(election) => s.(tags := s.tags.(election := election))
    case WriteBump => s.(writer := Writing(true), version := s.version + 1)
    case WriteUnlock => s.(writer := NoWriter)
    case BareBump => s.(version := s.version + 1)
    case Load(f) => Move(s, f, Loaded(s.version))
    case Store(f) => Move(s, f, Stored(s.feeders[f].v)).(ver := s.feeders[f].v)
    case Lock(f) => Move(s, f, Locked(s.feeders[f].v)).(refresher := Some(f))
    case CopyHost(f) => Move(s, f, HostCopied(s.feeders[f].v)).(cache := s.cache.(host := s.tags.host))
    case CopyElection(f) =>
      Move(s, f, Resting).(cache := s.cache.(election := s.tags.election), refresher := None)
  }

  function Exec(s: State, steps: seq<Step>): Option<State>
    decreases |steps|
  {
    if steps == [] then Some(s)
    else if Enabled(s, steps[0]) then Exec(Apply(s, steps[0]), steps[1..])
    else None
  }

  /** A feeder that has stored a version and has not finished copying. */
  predicate Refreshing(p: Feeder) { p.Stored? || p.Locked? || p.HostCopied? }

  predicate Counted(s: State) {
    && s.ver <= s.version
    && forall f :: 0 <= f < |s.feeders| && !s.feeders[f].Resting? ==> s.feeders[f].v <= s.version
  }

  /** Only the holder of the feeders' lock copies. */
  predicate Exclusive(s: State) {
    forall f :: 0 <= f < |s.feeders| && (s.feeders[f].Locked? || s.feeders[f].HostCopied?) ==> s.refresher == Some(f)
  }

  /** A host copy is current as long as the version loaded before it is. */
  predicate HostCurrent(s: State) {
    forall f :: 0 <= f < |s.feeders| && s.feeders[f].HostCopied? && s.feeders[f].v == s.version && s.writer != Writing(false) ==>
      s.cache.host == s.tags.host
  }

  /** Some feeder that loaded the current version still has to finish its copies. */
  predicate Pending(s: State) {
    exists f :: 0 <= f < |s.feeders| && Refreshing(s.feeders[f]) && s.feeders[f].v == s.version
  }

  predicate Current(s: State) {
    s.ver == s.version && s.writer != Writing(false) ==> s.cache == s.tags || Pending(s)
  }

  predicate Inv(s: State) {
    Counted(s) && Exclusive(s) && HostCurrent(s) && Current(s)
  }

  lemma FeederStep(s: State, step: Step)
    requires Inv(s) && Enabled(s, step)
    requires step.Load? || step.Store? || step.Lock? || step.CopyHost?
    ensures Inv(Apply(s, step))
  {
    var s' := Apply(s, step);
    var f := step.f;
    assert forall g :: 0 <= g < |s.feeders| && g != f ==> s'.feeders[g] == s.feeders[g];
    if s'.ver == s'.version && s'.writer != Writing(false) && s'.cache != s'.tags {
      if step.Store? || (s'.feeders[f].v == s.version && Refreshing(s.feeders[f])) {
        assert Refreshing(s'.feeders[f]) && s'.feeders[f].v == s'.version;
      } else {
        var g :| 0 <= g < |s.feeders| && Refreshing(s.feeders[g]) && s.feeders[g].v == s.version;
        assert Refreshing(s'.feeders[g]) && s'.feeders[g].v == s'.version;
      }
    }
  }

  lemma FinishStep(s: State, f: nat)
    requires Inv(s) && Enabled(s, CopyElection(f))
    ensures Inv(Apply(s, CopyElection(f)))
  {
    var s' := Apply(s, CopyElection(f));
    assert forall g :: 0 <= g < |s.feeders| && g != f ==> s'.feeders[g] == s.feeders[g];
    if s'.ver == s'.version && s'.cache != s'.tags {
      assert s.cache != s.tags;
      var g :| 0 <= g < |s.feeders| && Refreshing(s.feeders[g]) && s.feeders[g].v == s.version;
      assert Refreshing(s'.feeders[g]) && s'.feeders[g].v == s'.version;
    }
  }

  lemma InvStep(s: State, step: Step)
    requires Inv(s) && Enabled(s, step)
    ensures Inv(Apply(s, step))
  {
    match step
    case Load(_) => FeederStep(s, step);
    case Store(_) => FeederStep(s, step);
    case Lock(_) => FeederStep(s, step);
    case CopyHost(_) => FeederStep(s, step);
    case CopyElection(f) => FinishStep(s, f);
    case _ =>
  }

  lemma {:induction false} InvRun(s: State, steps: seq<Step>)
    requires Inv(s) && Exec(s, steps).Some?
    ensures Inv(Exec(s, steps).value)
    decreases |steps|
  {
    if steps != [] {
      InvStep(s, steps[0]);
      InvRun(Apply(s, steps[0]), steps[1..]);
    }
  }

  lemma WrapInjective(a: nat, b: nat)
    requires a < TWO_64 && b < TWO_64 && Wrap64(a) == Wrap64(b)
    ensures a == b
  {
  }

  /** In every interleaving of any writers and any number of feeders with fewer than
      2^64 bumps: whenever no writer holds the lock and Updated() is false, the cached
      host and election tags are the current ones, or a feeder that loaded the current
      version still has to finish its copies. */
  lemma CacheIsCurrent(n: nat, steps: seq<Step>)
    requires Exec(Start(n), steps).Some?
    ensures
      var s := Exec(Start(n), steps).value;
      s.version < TWO_64 && s.writer.NoWriter? && !Updated(s) ==> s.cache == s.tags || Pending(s)
  {
    InvRun(Start(n), steps);
    var s := Exec(Start(n), steps).value;
    if s.version < TWO_64 && !Updated(s) {
      WrapInjective(s.ver, s.version);
    }
  }

  /** The second case is met: once a feeder has stored the new version, Updated() is
      false for every other feeder as well, and until the copies are made they attach
      the old tags. */
  lemma StaleWhileRefreshing(host: Labels)
    requires host != map[]
    ensures
      var r := Exec(Start(2), [WriteLock, WriteHost(host), WriteBump, WriteUnlock, Load(0), Store(0)]);
      && r.Some? && r.value.writer.NoWriter? && !Updated(r.value)
      && r.value.feeders == [Stored(1), Resting] && r.value.cache != r.value.tags
  {
    var steps := [WriteLock, WriteHost(host), WriteBump, WriteUnlock, Load(0), Store(0)];
    var a := Apply(Start(2), WriteLock);
    var b := Apply(a, WriteHost(host));
    var c := Apply(b, WriteBump);
    var d := Apply(c, WriteUnlock);
    var e := Apply(d, Load(0));
    var g := Apply(e, Store(0));
    assert Start(2).feeders == [Resting, Resting];
    assert g.feeders == [Stored(1), Resting];
    OneStep(Start(2), steps, 0);
    OneStep(a, steps, 1);
    OneStep(b, steps, 2);
    OneStep(c, steps, 3);
    OneStep(d, steps, 4);
    OneStep(e, steps, 5);
  }

  lemma OneStep(s: State, steps: seq<Step>, i: nat)
    requires i < |steps| && Enabled(s, steps[i])
    ensures Exec(s, steps[i..]) == Exec(Apply(s, steps[i]), steps[i + 1..])
  {
    assert steps[i..][1..] == steps[i + 1..];
  }

  // ------------------------------------------------------------------------------
  // What steps do
  // ------------------------------------------------------------------------------

  /** The tags as the last writes in a run left them. */
  function Written(t: Tags, steps: seq<Step>): Tags
    decreases |steps|
  {
    if steps == [] then t
    else
      var last := steps[|steps| - 1];
      var before := Written(t, steps[..|steps| - 1]);
      match last
      case WriteHost(host) => Tags(host, before.election)
      case WriteElection(election) => Tags(before.host, election)
      case _ => before
  }

  function Bumps(steps: seq<Step>): nat {
    if steps == [] then 0
    else Bumps(steps[..|steps| - 1]) + if steps[|steps| - 1].WriteBump? || steps[|steps| - 1].BareBump? then 1 else 0
  }

  lemma {:induction false} ExecLast(s: State, steps: seq<Step>)
    requires steps != [] && Exec(s, steps).Some?
    ensures
      var front, last := steps[..|steps| - 1], steps[|steps| - 1];
      && Exec(s, front).Some? && Enabled(Exec(s, front).value, last)
      && Exec(s, steps) == Some(Apply(Exec(s, front).value, last))
    decreases |steps|
  {
    if |steps| > 1 {
      ExecLast(Apply(s, steps[0]), steps[1..]);
      assert steps[1..][..|steps| - 2] == steps[..|steps| - 1][1..];
    } else {
      assert steps[1..] == [] && steps[..0] == [];
    }
  }

  /** In every run the tags are those last written, and the version counts the bumps. */
  lemma {:induction false} TagsAreWritten(s: State, steps: seq<Step>)
    requires Exec(s, steps).Some?
    ensures Exec(s, steps).value.tags == Written(s.tags, steps)
    ensures Exec(s, steps).value.version == s.version + Bumps(steps)
    decreases |steps|
  {
    if steps != [] {
      ExecLast(s, steps);
      TagsAreWritten(s, steps[..|steps| - 1]);
    }
  }

  /** A feeder that refreshes while nobody writes, and nobody else refreshes, brings the
      cache and the stored version up to date, whatever they were. */
  lemma RefreshBringsCurrent(s: State, f: nat)
    requires s.writer.NoWriter? && s.refresher.None? && f < |s.feeders| && s.feeders[f].Resting?
    ensures
      var e := Exec(s, [Load(f), Store(f), Lock(f), CopyHost(f), CopyElection(f)]);
      && e.Some? && e.value.cache == s.tags && e.value.tags == s.tags && e.value.ver == e.value.version == s.version
      && e.value.feeders == s.feeders && e.value.refresher.None? && !Updated(e.value)
  {
    var steps := [Load(f), Store(f), Lock(f), CopyHost(f), CopyElection(f)];
    var a := Apply(s, Load(f));
    var b := Apply(a, Store(f));
    var c := Apply(b, Lock(f));
    var d := Apply(c, CopyHost(f));
    var e := Apply(d, CopyElection(f));
    OneStep(s, steps, 0);
    OneStep(a, steps, 1);
    OneStep(b, steps, 2);
    OneStep(c, steps, 3);
    OneStep(d, steps, 4);
    assert e.feeders == s.feeders;
  }

  /** A change that is not yet taken over is reported. */
  lemma ChangeIsReported(s: State)
    requires s.ver < s.version < s.ver + TWO_64
    ensures Updated(s)
  {
    DifferentResidue(s.ver + TWO_63, s.version + TWO_63);
  }

  lemma DifferentResidue(a: nat, b: nat)
    requires a < b < a + TWO_64
    ensures a % TWO_64 != b % TWO_64
  {
  }

  /** Copying before taking over the version loses an update that comes in between:
      the cache is stale, nobody is active, and Updated() is false. */
  lemma CopyFirstLosesUpdate(s: State, host: Labels)
    requires s.writer.NoWriter? && host != s.tags.host
    ensures
      var copied := s.(cache := s.tags);
      && Enabled(copied, WriteLock)
      && var locked := Apply(copied, WriteLock);
      && Enabled(locked, WriteHost(host))
      && var written := Apply(locked, WriteHost(host));
      && Enabled(written, WriteBump)
      && var bumped := Apply(written, WriteBump);
      && Enabled(bumped, WriteUnlock)
      && var free := Apply(bumped, WriteUnlock);
      && var last := free.(ver := free.version);
      && last.writer.NoWriter? && !Updated(last) && last.cache != last.tags
  {
  }
}

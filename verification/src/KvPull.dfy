/** Pulling the key-value configuration from the centre.

    The agent keeps the last value in memory, parsed and hashed, and a copy in a file
    that is read at the next start. JSON and the hash are taken as functions with the
    laws in `Lawful`. */
module KvPull {
  import opened Bytes

  type Json = string
  type Dict = map<string, string>

  /** decode: a JSON object; show: fmt.Sprintf("%v"); marshal and unmarshal: the two
      exported fields of KV. */
  datatype Library = Library(
    decode: string -> Option<map<string, Json>>,
    show: Json -> string,
    hash: string -> string,
    marshal: (string, int) -> string,
    unmarshal: string -> Option<(string, int)>)

  /** The hash has no collisions and is never the empty string, which a KV that was
      never parsed has; a marshalled KV reads back. */
  ghost predicate Lawful(lib: Library) {
    && (forall a, b :: lib.hash(a) == lib.hash(b) ==> a == b)
    && (forall a :: lib.hash(a) != "")
    && (forall v, n :: lib.unmarshal(lib.marshal(v, n)) == Some((v, n)))
  }

  /** What a value means. The empty value is the empty dictionary. */
  function Dictionary(lib: Library, value: string): Option<Dict> {
    if value == "" then Some(map[])
    else match lib.decode(value)
         case None => None
         case Some(m) => Some(map k | k in m :: lib.show(m[k]))
  }

  /** A value that parses: nothing, or a JSON object. */
  predicate Parses(lib: Library, value: string) {
    value == "" || lib.decode(value).Some?
  }

  /** The dictionary holds the members of the value, each as it prints. */
  predicate Shows(lib: Library, value: string, kv: Dict) {
    if value == "" then kv == map[]
    else
      && lib.decode(value).Some?
      && kv.Keys == lib.decode(value).value.Keys
      && forall k :: k in kv ==> kv[k] == lib.show(lib.decode(value).value[k])
  }

  datatype State = State(value: string, version: int, kv: Dict, md5: string, file: Option<string>)

  /** A pull fails without a dataway, on a network error, on malformed JSON and when the
      answer holds no KV. */
  datatype Response = Failed | Got(value: string, version: int)

  /** A failed os.WriteFile may leave the file alone or damage it. */
  datatype Write = Written | Unwritten | Damaged(content: string)

  /** The response is newer, or forced by version -1, and well-formed. */
  predicate Usable(lib: Library, s: State, r: Response) {
    r.Got? && (r.version == -1 || r.version > s.version) && Dictionary(lib, r.value).Some?
  }

  predicate Accepted(lib: Library, s: State, r: Response, w: Write) {
    Usable(lib, s, r) && w.Written?
  }

  /** The state after a pull, and whether the inputs are to be reloaded. */
  function Pull(lib: Library, s: State, r: Response, w: Write): (State, bool) {
    if !Usable(lib, s, r) then (s, false)
    else match w
         case Unwritten => (s, false)
         case Damaged(content) => (s.(file := Some(content)), false)
         case Written =>
           var stored := s.(version := r.version, file := Some(lib.marshal(r.value, r.version)));
           if lib.hash(r.value) == s.md5 then (stored, false)
           else (stored.(value := r.value, kv := Dictionary(lib, r.value).value, md5 := lib.hash(r.value)), true)
  }

  /** LoadKVFile at start-up, if it succeeds. */
  function Load(lib: Library, file: Option<string>): Option<State> {
    match file
    case None => None
    case Some(content) =>
      match lib.unmarshal(content)
      case None => None
      case Some((value, version)) =>
        match Dictionary(lib, value)
        case None => None
        case Some(d) => Some(State(value, version, d, lib.hash(value), file))
  }

  class File {
    var content: Option<string>
  }

  class KV {
    var value: string
    var version: int
    var kv: Dict
    var md5: string

    constructor (value: string, version: int)
      ensures this.value == value && this.version == version && kv == map[] && md5 == ""
    {
      this.value, this.version, kv, md5 := value, version, map[], "";
    }

    ghost function View(f: File): State
      reads this, f
    {
      State(value, version, kv, md5, f.content)
    }

    /** parseKV. On failure the dictionary is emptied and the hash is kept. */
    method ParseKV(lib: Library) returns (ok: bool)
      modifies this`kv, this`md5
      ensures ok <==> Dictionary(lib, value).Some?
      ensures ok ==> kv == Dictionary(lib, value).value && md5 == lib.hash(value)
      ensures ok <==> Parses(lib, value)
      ensures ok ==> Shows(lib, value, kv)
      ensures !ok ==> kv == map[] && md5 == old(md5)
    {
      var initial: map<string, Json> := map[];
      kv := map[];
      if value != "" {
        match lib.decode(value) {
          case None => return false;
          case Some(m) => initial := m;
        }
      }
      var rest := initial.Keys;
      while rest != {}
        invariant rest <= initial.Keys
        invariant kv == map k | k in initial && k !in rest :: lib.show(initial[k])
      {
        var k :| k in rest;
        kv := kv[k := lib.show(initial[k])];
        rest := rest - {k};
      }
      md5 := lib.hash(value);
      return true;
    }

    method LoadKVFile(lib: Library, f: File) returns (ok: bool)
      modifies this
      ensures ok <==> Load(lib, f.content).Some?
      ensures ok ==> View(f) == Load(lib, f.content).value
      ensures ok <==> f.content.Some? && lib.unmarshal(f.content.value).Some? && Parses(lib, lib.unmarshal(f.content.value).value.0)
      ensures ok ==> Some((value, version)) == lib.unmarshal(f.content.value) && Shows(lib, value, kv) && md5 == lib.hash(value)
      ensures !ok ==> md5 == old(md5)
      ensures
        var decoded := if f.content.None? then None else lib.unmarshal(f.content.value);
        !ok ==>
          match decoded
          case None => View(f) == old(View(f))
          case Some(p) => value == p.0 && version == p.1 && kv == map[]
    {
      if f.content.None? {
        return false;
      }
      match lib.unmarshal(f.content.value) {
        case None => return false;
        case Some(p) =>
          value, version := p.0, p.1;
          ok := ParseKV(lib);
      }
    }

    method DoPullKV(lib: Library, r: Response, f: File, w: Write) returns (isReload: bool)
      modifies this, f
      ensures (View(f), isReload) == Pull(lib, old(View(f)), r, w)
      ensures
        var newer := r.Got? && (r.version == -1 || r.version > old(version)) && Parses(lib, r.value);
        && (isReload <==> newer && w.Written? && lib.hash(r.value) != old(md5))
        && (newer && w.Written? ==> version == r.version && f.content == Some(lib.marshal(r.value, r.version)))
        && (!(newer && w.Written?) ==> value == old(value) && version == old(version) && kv == old(kv) && md5 == old(md5))
        && (newer && w.Damaged? ==> f.content == Some(w.content))
        && (!newer || w.Unwritten? ==> f.content == old(f.content))
      ensures isReload ==> value == r.value && Shows(lib, value, kv) && md5 == lib.hash(value)
      ensures !isReload ==> value == old(value) && kv == old(kv) && md5 == old(md5)
    {
      if r.Failed? {
        return false;
      }
      if r.version != -1 && r.version <= version {
        return false;
      }
      var newKV := new KV(r.value, r.version);
      var ok := newKV.ParseKV(lib);
      if !ok {
        return false;
      }
      match w {
        case Unwritten => return false;
        case Damaged(content) =>
          f.content := Some(content);
          return false;
        case Written =>
          f.content := Some(lib.marshal(r.value, r.version));
      }
      version := newKV.version;
      isReload := false;
      if newKV.md5 != md5 {
        kv, md5, value := newKV.kv, newKV.md5, newKV.value;
        isReload := true;
      }
    }
  }

  // ------------------------------------------------------------------------------
  // Runs
  // ------------------------------------------------------------------------------

  /** The memory holds a parsed value. */
  predicate Parsed(lib: Library, s: State) {
    Dictionary(lib, s.value) == Some(s.kv) && s.md5 == lib.hash(s.value)
  }

  /** The next start would find the same version and the same dictionary. */
  predicate Stored(lib: Library, s: State) {
    Load(lib, s.file) == Some(s)
  }

  datatype Event = Event(r: Response, w: Write)

  /** `ts` are the states before, between and after the pulls. */
  predicate IsTrace(lib: Library, ts: seq<State>, es: seq<Event>) {
    |ts| == |es| + 1 && forall i :: 0 <= i < |es| ==> ts[i + 1] == Pull(lib, ts[i], es[i].r, es[i].w).0
  }

  /** One pull: it reloads exactly when the value changes, never lowers the version
      unless the centre sent -1, and keeps the file in step. */
  lemma PullStep(lib: Library, s: State, r: Response, w: Write)
    requires Lawful(lib) && (Parsed(lib, s) || s.md5 == "")
    ensures var (s', reload) := Pull(lib, s, r, w);
            && (Parsed(lib, s) ==> Parsed(lib, s') && (reload <==> s'.value != s.value))
            && (Accepted(lib, s, r, w) ==>
                  Parsed(lib, s') && Stored(lib, s') && s'.value == r.value && s'.version == r.version)
            && (!Accepted(lib, s, r, w) ==> s' == s.(file := s'.file) && !reload)
            && (s'.version < s.version ==> r.Got? && r.version == -1 && s'.version == -1)
            && (!w.Damaged? && Stored(lib, s) ==> Stored(lib, s'))
  {
    if Accepted(lib, s, r, w) {
      var s' := Pull(lib, s, r, w).0;
      assert lib.hash(r.value) == s.md5 ==> Parsed(lib, s);
      assert s'.value == r.value;
      assert lib.unmarshal(s'.file.value) == Some((r.value, r.version));
    }
  }

  /** Once parsed, always parsed, through failed and successful pulls alike; the reload
      flags tell exactly where the value changed. */
  lemma {:induction false} ParsedRun(lib: Library, ts: seq<State>, es: seq<Event>, from: nat, i: nat)
    requires Lawful(lib) && IsTrace(lib, ts, es) && from <= i < |ts| && Parsed(lib, ts[from])
    ensures Parsed(lib, ts[i]) && Shows(lib, ts[i].value, ts[i].kv) && ts[i].md5 == lib.hash(ts[i].value)
    ensures i < |es| ==> (Pull(lib, ts[i], es[i].r, es[i].w).1 <==> ts[i + 1].value != ts[i].value)
  {
    if from < i {
      ParsedRun(lib, ts, es, from, i - 1);
      PullStep(lib, ts[i - 1], es[i - 1].r, es[i - 1].w);
    }
    if i < |es| {
      PullStep(lib, ts[i], es[i].r, es[i].w);
    }
  }

  /** The version of a parsed KV falls only where the centre sent -1. */
  lemma {:induction false} VersionRun(lib: Library, ts: seq<State>, es: seq<Event>, i: nat, j: nat)
    requires Lawful(lib) && IsTrace(lib, ts, es) && i <= j < |ts|
    requires Parsed(lib, ts[i])
    requires forall k :: i <= k < j && es[k].r.Got? ==> es[k].r.version != -1
    ensures ts[i].version <= ts[j].version
  {
    if i < j {
      VersionRun(lib, ts, es, i, j - 1);
      ParsedRun(lib, ts, es, i, j - 1);
      PullStep(lib, ts[j - 1], es[j - 1].r, es[j - 1].w);
    }
  }

  /** After an accepted pull, as long as no write damages the file, a restart restores
      the very state: value, version, dictionary and hash. */
  lemma {:induction false} StoredRun(lib: Library, ts: seq<State>, es: seq<Event>, i: nat, j: nat)
    requires Lawful(lib) && IsTrace(lib, ts, es) && i < j < |ts|
    requires Parsed(lib, ts[i]) || ts[i].md5 == ""
    requires Accepted(lib, ts[i], es[i].r, es[i].w)
    requires forall k :: i < k < j ==> !es[k].w.Damaged?
    ensures Parsed(lib, ts[j]) && Load(lib, ts[j].file) == Some(ts[j])
  {
    PullStep(lib, ts[i], es[i].r, es[i].w);
    if i + 1 < j {
      StoredRun(lib, ts, es, i, j - 1);
      PullStep(lib, ts[j - 1], es[j - 1].r, es[j - 1].w);
    }
  }

  /** A damaging write is the exact exception: the file is written before the memory is
      updated, and then holds whatever the failed write left. */
  lemma DamagedFile(lib: Library, s: State, r: Response, content: string)
    requires Lawful(lib) && Parsed(lib, s) && Usable(lib, s, r)
    ensures Stored(lib, Pull(lib, s, r, Damaged(content)).0) <==> lib.unmarshal(content) == Some((s.value, s.version))
  {
  }
}

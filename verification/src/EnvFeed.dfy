/** Environment references in configuration text: `feedEnvs`. */
module EnvFeed {
  import opened Bytes
  import opened TextPass
  import TomlString

  const DOLLAR: byte := 0x24
  const LBRACE: byte := 0x7B
  const RBRACE: byte := 0x7D
  const BOM: bytes := [0xEF, 0xBB, 0xBF]

  type Environ = map<bytes, bytes>

  function TrimBOM(data: bytes): bytes { TrimPrefix(data, BOM) }

  /** The class \w of Go's regexp package. */
  predicate Word(b: byte) {
    '0' as int <= b <= '9' as int || 'A' as int <= b <= 'Z' as int || 'a' as int <= b <= 'z' as int || b == '_' as int
  }

  /** End of the run of word bytes that starts at `i`. */
  function WordEnd(data: bytes, i: nat): (e: nat)
    requires i <= |data|
    ensures i <= e <= |data|
    ensures forall j :: i <= j < e ==> Word(data[j])
    ensures e < |data| ==> !Word(data[e])
    decreases |data| - i
  {
    if i < |data| && Word(data[i]) then WordEnd(data, i + 1) else i
  }

  /** The match of `\$\{(\w+)\}|\$(\w+)` that starts at `i`, if there is one. */
  function MatchAt(data: bytes, i: nat): (r: Option<Ref>)
    ensures r.Some? ==>
              && r.value.start == i && At(data, r.value.text, i) && r.value.text != []
              && r.value.text[0] == DOLLAR && DOLLAR !in r.value.text[1..]
              && TomlString.QUOTE !in r.value.text
              && r.value.name != [] && forall b :: b in r.value.name ==> Word(b)
  {
    if i >= |data| || data[i] != DOLLAR then None
    else if Braced(data, i) then
      var e := WordEnd(data, i + 2);
      Parts(data, i, i + 2, e, e + 1);
      Some(Ref(i, data[i..e + 1], data[i + 2..e]))
    else
      var e := WordEnd(data, i + 1);
      if e == i + 1 then None
      else
        Parts(data, i, i + 1, e, e);
        Some(Ref(i, data[i..e], data[i + 1..e]))
  }

  lemma Parts(data: bytes, i: nat, from: nat, to: nat, end: nat)
    requires i < from < to <= end <= |data| && data[i] == DOLLAR
    requires forall j :: from <= j < to ==> Word(data[j])
    requires forall j :: i < j < from || to <= j < end ==> data[j] == LBRACE || data[j] == RBRACE
    ensures data[i..end] != [] && data[i..end][0] == DOLLAR && DOLLAR !in data[i..end][1..]
    ensures TomlString.QUOTE !in data[i..end]
    ensures data[from..to] != [] && forall b :: b in data[from..to] ==> Word(b)
  {
    assert forall k :: 0 <= k < end - i - 1 ==> data[i..end][1..][k] == data[i + 1 + k];
  }

  predicate Braced(data: bytes, i: nat)
    requires i < |data|
  {
    && i + 1 < |data| && data[i + 1] == LBRACE
    && var e := WordEnd(data, i + 2); i + 2 < e < |data| && data[e] == RBRACE
  }

  function FindRefs(data: bytes): seq<Ref> {
    FindAll(MatchAt, data, 0)
  }

  predicate IsWord(w: bytes) {
    w != [] && forall b :: b in w ==> Word(b)
  }

  /** `${name}` at its place in the text. */
  predicate IsBraced(data: bytes, r: Ref) {
    At(data, r.text, r.start) && IsWord(r.name) && r.text == [DOLLAR, LBRACE] + r.name + [RBRACE]
  }

  /** `$name` at its place in the text, with the longest name there is. */
  predicate IsBare(data: bytes, r: Ref) {
    && At(data, r.text, r.start) && IsWord(r.name) && r.text == [DOLLAR] + r.name
    && (r.start + |r.text| < |data| ==> !Word(data[r.start + |r.text|]))
  }

  lemma {:induction false} WordEndIsUnique(data: bytes, i: nat, e: nat)
    requires i <= e <= |data| && (forall j :: i <= j < e ==> Word(data[j])) && (e < |data| ==> !Word(data[e]))
    ensures WordEnd(data, i) == e
    decreases e - i
  {
    if i < e {
      WordEndIsUnique(data, i + 1, e);
    }
  }

  lemma BracedMatches(data: bytes, r: Ref)
    requires IsBraced(data, r)
    ensures MatchAt(data, r.start) == Some(r)
  {
    var i, e := r.start, r.start + 2 + |r.name|;
    AtParts(data, [DOLLAR, LBRACE] + r.name, [RBRACE], i);
    AtParts(data, [DOLLAR, LBRACE], r.name, i);
    assert data[i] == data[i..i + 2][0] && data[i + 1] == data[i..i + 2][1] && data[e] == data[e..e + 1][0];
    forall j | i + 2 <= j < e
      ensures Word(data[j])
    {
      assert data[j] == data[i + 2..e][j - i - 2];
      assert data[j] in r.name;
    }
    WordEndIsUnique(data, i + 2, e);
    assert Braced(data, i);
  }

  lemma BareMatches(data: bytes, r: Ref)
    requires IsBare(data, r)
    ensures MatchAt(data, r.start) == Some(r)
  {
    var i, e := r.start, r.start + |r.text|;
    AtParts(data, [DOLLAR], r.name, i);
    assert data[i] == data[i..i + 1][0];
    forall j | i + 1 <= j < e
      ensures Word(data[j])
    {
      assert data[j] == data[i + 1..e][j - i - 1];
      assert data[j] in r.name;
    }
    assert Word(data[i + 1]);
    WordEndIsUnique(data, i + 1, e);
  }

  lemma MatchIsReference(data: bytes, r: Ref)
    requires MatchAt(data, r.start) == Some(r)
    ensures IsBraced(data, r) || IsBare(data, r)
  {
    var i := r.start;
    if Braced(data, i) {
      var e := WordEnd(data, i + 2);
      assert data[i..e + 1] == [DOLLAR, LBRACE] + data[i + 2..e] + [RBRACE];
    } else {
      var e := WordEnd(data, i + 1);
      assert data[i..e] == [DOLLAR] + data[i + 1..e];
    }
  }

  /** The references of a text are exactly its braced words and its longest bare words,
      with the word between the braces or behind the dollar as the name. */
  lemma RefsAreTheMatches(data: bytes, r: Ref)
    ensures r in FindRefs(data) <==> IsBraced(data, r) || IsBare(data, r)
  {
    FoundAreMatches(MatchAt, data, 0, DOLLAR);
    if IsBraced(data, r) || IsBare(data, r) {
      if IsBraced(data, r) {
        BracedMatches(data, r);
      } else {
        BareMatches(data, r);
      }
      MatchesAreFound(MatchAt, data, 0, r.start, DOLLAR);
    } else if r in FindRefs(data) {
      MatchIsReference(data, r);
    }
  }

  /** What the file means: from left to right every reference to a set variable is read as
      its escaped value, and all else as it stands. */
  function Reads(env: Environ): Ref -> Reading {
    (r: Ref) => if r.name in env then Replace(TomlString.Escape(env[r.name])) else Keep
  }

  function Fed(data: bytes, env: Environ): bytes {
    Meaning(MatchAt, Reads(env), data, 0)
  }

  lemma {:induction false} EditsFollow(rs: seq<Ref>, env: Environ)
    requires forall k :: 0 <= k < |rs| ==> IsWord(rs[k].name)
    ensures Follows(rs, ToEdits(rs, env), Reads(env))
  {
    if rs != [] {
      NameOf(rs[0]);
      EditsFollow(rs[1..], env);
    }
  }

  lemma SubstitutedIsFed(data: bytes, env: Environ)
    ensures Substituted(data, env) == Fed(data, env)
  {
    EnvEditsArePlaced(data, env);
    FoundAreMatches(MatchAt, data, 0, DOLLAR);
    forall k | 0 <= k < |FindRefs(data)|
      ensures IsWord(FindRefs(data)[k].name)
    {
      var r := FindRefs(data)[k];
      assert MatchAt(data, r.start) == Some(r);
    }
    EditsFollow(FindRefs(data), env);
    SubstIsMeaning(MatchAt, Reads(env), data, EnvEdits(data, env), 0, 0, DOLLAR);
    assert data[0..0] + Fed(data, env) == Fed(data, env);
  }

  lemma NameOf(r: Ref)
    ensures IsWord(r.name) ==> TrimPrefix(r.name, [DOLLAR]) == r.name
  {
    if IsWord(r.name) {
      assert r.name[0] in r.name;
    }
  }

  lemma MarkIsTrimmed(text: bytes)
    ensures TrimBOM([0xEF, 0xBB, 0xBF] + text) == text
    ensures !([0xEF, 0xBB, 0xBF] <= text) ==> TrimBOM(text) == text
  {
    assert ([0xEF, 0xBB, 0xBF] + text)[3..] == text;
  }

  /** What the loop does with a reference: the value is looked up under the name,
      which keeps no `$`, and escaped. */
  function ToEdit(m: Ref, env: Environ): Edit {
    var name := TrimPrefix(m.name, [DOLLAR]);
    Edit(m.start, m.text, if name in env then Some(TomlString.Escape(env[name])) else None)
  }

  function ToEdits(ms: seq<Ref>, env: Environ): (es: seq<Edit>)
    ensures |es| == |ms|
    ensures forall k :: 0 <= k < |ms| ==> es[k] == ToEdit(ms[k], env)
  {
    if ms == [] then [] else [ToEdit(ms[0], env)] + ToEdits(ms[1..], env)
  }

  function EnvEdits(data: bytes, env: Environ): seq<Edit> {
    ToEdits(FindRefs(data), env)
  }

  lemma EnvEditsArePlaced(data: bytes, env: Environ)
    ensures Placed(data, EnvEdits(data, env), 0) && Marked(EnvEdits(data, env), DOLLAR)
  {
    FoundArePlaced(MatchAt, data, 0, 0, EnvEdits(data, env), DOLLAR);
  }

  /** The loop: references are found once; then every set one is replaced at its
      first occurrence in the changing text. */
  method FeedEnvs(raw: bytes, env: Environ) returns (data: bytes)
    ensures data == Run(TrimBOM(raw), EnvEdits(TrimBOM(raw), env))
    ensures Unambiguous(TrimBOM(raw), env) ==> data == Fed(TrimBOM(raw), env)
  {
    data := TrimBOM(raw);
    var refs := FindRefs(data);
    ghost var es := EnvEdits(data, env);
    var i := 0;
    while i < |refs|
      invariant 0 <= i <= |refs|
      invariant Run(data, es[i..]) == Run(TrimBOM(raw), es)
    {
      var name := TrimPrefix(refs[i].name, [DOLLAR]);
      if name in env {
        data := ReplaceFirst(data, refs[i].text, TomlString.Escape(env[name]));
      }
      assert es[i..][1..] == es[i + 1..];
      i := i + 1;
    }
    if Unambiguous(TrimBOM(raw), env) {
      UnambiguousFeed(TrimBOM(raw), env);
      SubstitutedIsFed(TrimBOM(raw), env);
    }
  }

  /** The text with every set reference replaced in its own place. */
  function Substituted(data: bytes, env: Environ): bytes {
    EnvEditsArePlaced(data, env);
    Subst(data, EnvEdits(data, env), 0)
  }

  /** No set reference can be read, after substitution, before its own place. */
  predicate Unambiguous(data: bytes, env: Environ) {
    EnvEditsArePlaced(data, env);
    Clear(data, EnvEdits(data, env), 0, [])
  }

  /** All variables in use have a value that is not empty and does not start with `$`. */
  predicate TellingValues(data: bytes, env: Environ) {
    forall k :: 0 <= k < |FindRefs(data)| && FindRefs(data)[k].name in env ==>
      var v := env[FindRefs(data)[k].name]; v != [] && v[0] != DOLLAR
  }

  lemma RefNames(data: bytes)
    ensures forall k :: 0 <= k < |FindRefs(data)| ==>
              TrimPrefix(FindRefs(data)[k].name, [DOLLAR]) == FindRefs(data)[k].name
  {
    FoundAreMatches(MatchAt, data, 0, DOLLAR);
    forall k | 0 <= k < |FindRefs(data)|
      ensures TrimPrefix(FindRefs(data)[k].name, [DOLLAR]) == FindRefs(data)[k].name
    {
      var r := FindRefs(data)[k];
      assert MatchAt(data, r.start) == Some(r);
      assert r.name[0] in r.name;
    }
  }

  /** An unambiguous text is substituted simultaneously, whatever the values are. */
  lemma UnambiguousFeed(data: bytes, env: Environ)
    requires Unambiguous(data, env)
    ensures Run(data, EnvEdits(data, env)) == Substituted(data, env)
  {
    EnvEditsArePlaced(data, env);
    ClearRun(data, EnvEdits(data, env), 0, []);
    assert [] + data[0..] == data;
    assert [] + Substituted(data, env) == Substituted(data, env);
  }

  /** Exactly the unambiguous texts are substituted simultaneously. */
  lemma FeedIsSubstitutionExactly(data: bytes, env: Environ)
    requires TellingValues(data, env)
    ensures Run(data, EnvEdits(data, env)) == Substituted(data, env) <==> Unambiguous(data, env)
  {
    var es := EnvEdits(data, env);
    EnvEditsArePlaced(data, env);
    RefNames(data);
    RunIsSubstExactly(data, es, DOLLAR);
  }

  predicate EveryDollarMatches(data: bytes) {
    forall p :: 0 <= p < |data| && data[p] == DOLLAR ==> MatchAt(data, p).Some?
  }

  lemma {:induction false} EscapeAddsNoDollar(v: bytes)
    requires DOLLAR !in v
    ensures DOLLAR !in TomlString.Escape(v)
  {
    if v != [] {
      EscapeAddsNoDollar(v[1..]);
    }
  }

  function UnsetTexts(rs: seq<Ref>, env: Environ): set<bytes> {
    set k | 0 <= k < |rs| && rs[k].name !in env :: rs[k].text
  }

  /** No set value holds a `$`, and no set reference and unset reference are prefixes
      of one another. */
  predicate PlainRefs(rs: seq<Ref>, env: Environ) {
    forall k :: 0 <= k < |rs| && rs[k].name in env ==>
      && DOLLAR !in env[rs[k].name]
      && forall u :: u in UnsetTexts(rs, env) ==> !(u <= rs[k].text) && !(rs[k].text <= u)
  }

  lemma PlainRefsArePlainEdits(data: bytes, env: Environ)
    requires PlainRefs(FindRefs(data), env)
    ensures PlainEdits(EnvEdits(data, env), DOLLAR, UnsetTexts(FindRefs(data), env))
  {
    var rs := FindRefs(data);
    FoundAreMatches(MatchAt, data, 0, DOLLAR);
    RefNames(data);
    forall k | 0 <= k < |rs|
      ensures PlainEdit(EnvEdits(data, env)[k], DOLLAR, UnsetTexts(rs, env))
    {
      assert MatchAt(data, rs[k].start) == Some(rs[k]);
      if rs[k].name in env {
        EscapeAddsNoDollar(env[rs[k].name]);
      }
    }
  }

  /** When every `$` starts a reference, no set value holds a `$`, and no set
      reference and unset reference are prefixes of one another, the loop computes
      the simultaneous substitution. */
  lemma PlainFeed(data: bytes, env: Environ)
    requires EveryDollarMatches(data)
    requires PlainRefs(FindRefs(data), env)
    ensures Run(data, EnvEdits(data, env)) == Substituted(data, env)
  {
    EnvEditsArePlaced(data, env);
    GapsArePlain(MatchAt, data, 0, 0, EnvEdits(data, env), DOLLAR);
    PlainRefsArePlainEdits(data, env);
    PlainIsClear(data, EnvEdits(data, env), 0, [], DOLLAR, UnsetTexts(FindRefs(data), env));
    UnambiguousFeed(data, env);
  }

  lemma RefsHoldNoQuote(data: bytes, env: Environ)
    ensures Free(EnvEdits(data, env), TomlString.QUOTE)
  {
    FoundAreMatches(MatchAt, data, 0, DOLLAR);
    forall k | 0 <= k < |FindRefs(data)|
      ensures TomlString.QUOTE !in EnvEdits(data, env)[k].text
    {
      var r := FindRefs(data)[k];
      assert MatchAt(data, r.start) == Some(r);
    }
  }

  /** The reference stands between two quotation marks. */
  predicate Quoted(data: bytes, r: Ref) {
    var end := r.start + |r.text|;
    0 < r.start && end < |data| && data[r.start - 1] == TomlString.QUOTE && data[end] == TomlString.QUOTE
  }

  /** A value between two quotation marks reads back. */
  lemma ReadsInPlace(data: bytes, es: seq<Edit>, k: nat, v: bytes)
    requires Placed(data, es, 0) && Free(es, TomlString.QUOTE) && k < |es| && Enclosed(data, es[k], TomlString.QUOTE)
    requires es[k].value == Some(TomlString.Escape(v)) && TomlString.NoControl(v)
    ensures
      var before, behind := Before(data, es, k), Behind(data, es, k);
      && Subst(data, es, 0) == before + TomlString.Escape(v) + behind
      && before != [] && before[|before| - 1] == TomlString.QUOTE
      && behind != [] && TomlString.ReadBasic(TomlString.Escape(v) + behind) == Some(TomlString.Parsed(v, behind[1..]))
  {
    BetweenMarks(data, es, k, TomlString.QUOTE);
    ReadsUpToQuote(v, Behind(data, es, k));
  }

  /** A set reference between quotation marks becomes, in its own place, a basic string
      that reads as the value of the variable, whatever quotation marks and backslashes
      it holds; in an unambiguous text that is what the loop writes. */
  lemma QuotedReferenceReadsAsValue(data: bytes, env: Environ, k: nat)
    requires k < |FindRefs(data)| && FindRefs(data)[k].name in env && Quoted(data, FindRefs(data)[k])
    requires TomlString.NoControl(env[FindRefs(data)[k].name])
    ensures Placed(data, EnvEdits(data, env), 0)
    ensures
      var v := env[FindRefs(data)[k].name];
      var before, behind := Before(data, EnvEdits(data, env), k), Behind(data, EnvEdits(data, env), k);
      && Substituted(data, env) == before + TomlString.Escape(v) + behind
      && before != [] && before[|before| - 1] == TomlString.QUOTE
      && behind != [] && TomlString.ReadBasic(TomlString.Escape(v) + behind) == Some(TomlString.Parsed(v, behind[1..]))
      && (Unambiguous(data, env) ==> Run(data, EnvEdits(data, env)) == before + TomlString.Escape(v) + behind)
  {
    EnvEditsArePlaced(data, env);
    RefsHoldNoQuote(data, env);
    ToEditOfSet(data, env, k);
    ReadsInPlace(data, EnvEdits(data, env), k, env[FindRefs(data)[k].name]);
    if Unambiguous(data, env) {
      UnambiguousFeed(data, env);
    }
  }

  lemma ToEditOfSet(data: bytes, env: Environ, k: nat)
    requires k < |FindRefs(data)| && FindRefs(data)[k].name in env
    ensures EnvEdits(data, env)[k] == Edit(FindRefs(data)[k].start, FindRefs(data)[k].text,
                                           Some(TomlString.Escape(env[FindRefs(data)[k].name])))
  {
    RefNames(data);
  }

  lemma ReadsUpToQuote(v: bytes, behind: bytes)
    requires TomlString.NoControl(v) && behind != [] && behind[0] == TomlString.QUOTE
    ensures TomlString.ReadBasic(TomlString.Escape(v) + behind) == Some(TomlString.Parsed(v, behind[1..]))
  {
    assert behind == [TomlString.QUOTE] + behind[1..];
    TomlString.EscapeRoundTrip(v, behind[1..]);
  }

  /** Whatever the values are, the loop replaces every set reference in its own place
      exactly if the text is unambiguous. */
  lemma FeedLandsExactly(data: bytes, env: Environ)
    ensures Placed(data, EnvEdits(data, env), 0)
    ensures Landed(data, EnvEdits(data, env)) == Own(data, EnvEdits(data, env), 0, []) <==> Unambiguous(data, env)
  {
    EnvEditsArePlaced(data, env);
    LandsExactly(data, EnvEdits(data, env));
  }

  const SHADOWED: bytes := [DOLLAR, 65, 66, 32, DOLLAR, 65]

  lemma ShadowedRefs()
    ensures FindRefs(SHADOWED) == [Ref(0, [DOLLAR, 65, 66], [65, 66]), Ref(4, [DOLLAR, 65], [65])]
  {
    var data := SHADOWED;
    var ab := Ref(0, [DOLLAR, 65, 66], [65, 66]);
    var a := Ref(4, [DOLLAR, 65], [65]);
    assert WordEnd(data, 2) == 3 == WordEnd(data, 1);
    assert data[0..3] == ab.text && data[1..3] == ab.name;
    assert MatchAt(data, 0) == Some(ab);
    assert WordEnd(data, 5) == 6;
    assert data[4..6] == a.text && data[5..6] == a.name;
    assert MatchAt(data, 4) == Some(a);
    assert FindAll(MatchAt, data, 6) == [];
    assert FindAll(MatchAt, data, 4) == [a] + FindAll(MatchAt, data, 6);
    assert FindAll(MatchAt, data, 3) == [a];
  }

  /** `$AB $A` with A set and AB unset: the value lands inside the reference to AB. */
  lemma PrefixOfUnsetGoesWrong()
    ensures
      var env: Environ := map[[65] := [120]];
      && Substituted(SHADOWED, env) == [DOLLAR, 65, 66, 32, 120]
      && Run(SHADOWED, EnvEdits(SHADOWED, env)) == [120, 66, 32, DOLLAR, 65]
  {
    var env: Environ := map[[65] := [120]];
    var ab := Edit(0, [DOLLAR, 65, 66], None);
    var a := Edit(4, [DOLLAR, 65], Some([120]));
    ShadowedRefs();
    RefNames(SHADOWED);
    assert TomlString.Escape([120]) == [120];
    assert EnvEdits(SHADOWED, env) == [ab, a];
    EnvEditsArePlaced(SHADOWED, env);
    ShadowedResult(ab, a);
  }

  lemma ShadowedResult(ab: Edit, a: Edit)
    requires ab == Edit(0, [DOLLAR, 65, 66], None) && a == Edit(4, [DOLLAR, 65], Some([120]))
    requires Placed(SHADOWED, [ab, a], 0)
    ensures Subst(SHADOWED, [ab, a], 0) == [DOLLAR, 65, 66, 32, 120]
    ensures Run(SHADOWED, [ab, a]) == [120, 66, 32, DOLLAR, 65]
  {
    var data, es := SHADOWED, [ab, a];
    assert es[1..] == [a] && es[1..][1..] == [];
    assert Subst(data, es[1..][1..], 6) == [];
    assert Subst(data, es[1..], 3) == [32, 120];
    assert At(data, a.text, 0);
    assert Index(data, a.text, 0) == Some(0);
    assert Run(data, es) == Run(data, es[1..]);
    assert Run(data, es[1..]) == Step(data, a);
  }

  // HIDDEN is `$$C$A`.

  lemma HiddenRefs()
    ensures FindRefs(HIDDEN) == [Ref(1, [DOLLAR, 67], [67]), Ref(3, [DOLLAR, 65], [65])]
  {
    var data: bytes := [36, 36, 67, 36, 65];
    assert data == HIDDEN;
    var c := Ref(1, [DOLLAR, 67], [67]);
    var a := Ref(3, [DOLLAR, 65], [65]);
    assert WordEnd(data, 1) == 1;
    assert MatchAt(data, 0) == None;
    assert WordEnd(data, 3) == 3 == WordEnd(data, 2);
    assert data[1..3] == c.text && data[2..3] == c.name;
    assert MatchAt(data, 1) == Some(c);
    assert WordEnd(data, 4) == 5;
    assert data[3..5] == a.text && data[4..5] == a.name;
    assert MatchAt(data, 3) == Some(a);
    assert FindAll(MatchAt, data, 5) == [];
    assert FindAll(MatchAt, data, 3) == [a] + FindAll(MatchAt, data, 5);
    assert FindAll(MatchAt, data, 1) == [c] + FindAll(MatchAt, data, 3);
  }

  /** The condition on values is needed for the result alone: in `$$C$A` with C set to
      `A` and A set to nothing, the replacement of `$A` hits an earlier place, and yet
      the result is the simultaneous substitution. */
  lemma EmptyValueHidesMiss()
    ensures
      var env: Environ := map[[67] := [65], [65] := []];
      && !Unambiguous(HIDDEN, env)
      && Run(HIDDEN, EnvEdits(HIDDEN, env)) == Substituted(HIDDEN, env) == [DOLLAR, 65]
  {
    var env: Environ := map[[67] := [65], [65] := []];
    HiddenRefs();
    RefNames(HIDDEN);
    assert TomlString.Escape([65]) == [65];
    assert EnvEdits(HIDDEN, env) == [Edit(1, [DOLLAR, 67], Some([65])), Edit(3, [DOLLAR, 65], Some([]))];
    EmptyHides();
  }
}

/** The rewriting loop shared by `feedEnvs` and `decodeEncs`: the references are found
    once, on the original text, and then each of them is replaced by one
    first-occurrence replacement in a buffer that keeps changing.

    The question is when that loop computes the simultaneous substitution in which
    every reference is replaced in its own place. */
module TextPass {
  import opened Bytes

  /** A match of a reference pattern: the whole match and its captured group. */
  datatype Ref = Ref(start: nat, text: bytes, name: bytes)

  /** Says which match of a pattern starts at an offset, if any. */
  type Matcher = (bytes, nat) -> Option<Ref>

  /** Matches lie where they are found, are not empty and start with the byte `c`. */
  ghost predicate Sound(m: Matcher, data: bytes, c: byte) {
    forall i :: m(data, i).Some? ==>
      var r := m(data, i).value;
      r.start == i && At(data, r.text, i) && r.text != [] && r.text[0] == c
  }

  /** Regexp.FindAllSubmatch: leftmost matches that do not overlap. */
  function FindAll(m: Matcher, data: bytes, i: nat): (r: seq<Ref>)
    decreases |data| - i
  {
    if i >= |data| then []
    else match m(data, i)
         case None => FindAll(m, data, i + 1)
         case Some(r) => [r] + FindAll(m, data, i + if r.text == [] then 1 else |r.text|)
  }

  /** Everything found is a match at its own offset. */
  lemma {:induction false} FoundAreMatches(m: Matcher, data: bytes, i: nat, c: byte)
    requires Sound(m, data, c)
    ensures forall k :: 0 <= k < |FindAll(m, data, i)| ==>
              var r := FindAll(m, data, i)[k]; m(data, r.start) == Some(r)
    decreases |data| - i
  {
    if i < |data| {
      match m(data, i) {
        case None => FoundAreMatches(m, data, i + 1, c);
        case Some(r) => FoundAreMatches(m, data, i + |r.text|, c);
      }
    }
  }

  /** A match that is not found overlaps one that is found before it. */
  lemma {:induction false} FoundAreLeftmost(m: Matcher, data: bytes, i: nat, p: nat, c: byte) returns (r: Ref)
    requires Sound(m, data, c) && i <= p < |data| && m(data, p).Some?
    ensures r in FindAll(m, data, i) && m(data, r.start) == Some(r) && r.start <= p < r.start + |r.text|
    decreases |data| - i
  {
    match m(data, i) {
      case None => r := FoundAreLeftmost(m, data, i + 1, p, c);
      case Some(s) =>
        if p < i + |s.text| {
          r := s;
        } else {
          r := FoundAreLeftmost(m, data, i + |s.text|, p, c);
        }
    }
  }

  /** The mark that starts a match lies behind any match before it. */
  lemma MarkIsBehind(m: Matcher, data: bytes, i: nat, p: nat, c: byte)
    requires Sound(m, data, c) && i < p < |data| && m(data, i).Some? && m(data, p).Some?
    requires c !in m(data, i).value.text[1..]
    ensures i + |m(data, i).value.text| <= p
  {
    var r := m(data, i).value;
    AtHead(data, m(data, p).value.text, p);
    assert forall q :: i < q < i + |r.text| ==> data[q] == r.text[1..][q - i - 1];
  }

  /** No match is passed over when a match holds the mark only once. */
  lemma {:induction false} MatchesAreFound(m: Matcher, data: bytes, i: nat, p: nat, c: byte)
    requires Sound(m, data, c)
    requires forall j :: m(data, j).Some? ==> c !in m(data, j).value.text[1..]
    requires i <= p < |data| && m(data, p).Some?
    ensures m(data, p).value in FindAll(m, data, i)
    decreases |data| - i
  {
    match m(data, i) {
      case None => MatchesAreFound(m, data, i + 1, p, c);
      case Some(r) =>
        if i < p {
          MarkIsBehind(m, data, i, p, c);
          MatchesAreFound(m, data, i + |r.text|, p, c);
        }
    }
  }

  /** One reference of the original text, with the value that replaces it, if any. */
  datatype Edit = Edit(start: nat, text: bytes, value: Option<bytes>) {
    function End(): nat { start + |text| }

    /** What stands in this reference's place after the substitution. */
    function Shown(): bytes {
      match value
      case None => text
      case Some(v) => v
    }
  }

  /** The edits lie in `data` one after the other, from offset `from` on. */
  predicate Placed(data: bytes, es: seq<Edit>, from: nat) {
    && from <= |data|
    && (es != [] ==>
          && from <= es[0].start
          && es[0].text != []
          && At(data, es[0].text, es[0].start)
          && Placed(data, es[1..], es[0].End()))
  }

  /** The simultaneous substitution of `data` from offset `from` on. */
  function Subst(data: bytes, es: seq<Edit>, from: nat): (r: bytes)
    requires Placed(data, es, from)
  {
    if es == [] then data[from..]
    else data[from..es[0].start] + es[0].Shown() + Subst(data, es[1..], es[0].End())
  }

  /** The edits are made, in order, for the first of the references. */
  predicate EditsOf(rs: seq<Ref>, es: seq<Edit>) {
    && |es| <= |rs|
    && forall k :: 0 <= k < |es| ==> es[k].start == rs[k].start && es[k].text == rs[k].text
  }

  lemma {:induction false} FoundArePlaced(m: Matcher, data: bytes, i: nat, from: nat, es: seq<Edit>, c: byte)
    requires Sound(m, data, c)
    requires from <= i && from <= |data|
    requires EditsOf(FindAll(m, data, i), es)
    ensures Placed(data, es, from) && Marked(es, c)
    decreases |data| - i
  {
    if i < |data| {
      match m(data, i) {
        case None => FoundArePlaced(m, data, i + 1, from, es, c);
        case Some(r) =>
          if es != [] {
            FoundArePlaced(m, data, i + |r.text|, i + |r.text|, es[1..], c);
            assert forall k :: 0 < k < |es| ==> es[k] == es[1..][k - 1];
          }
      }
    }
  }

  /** How a reference is read: as it stands, as a value, or not at all, and then nothing
      behind it is read either. */
  datatype Reading = Keep | Replace(value: bytes) | Halt

  /** What a text means when its references are read from left to right. */
  function Meaning(m: Matcher, read: Ref -> Reading, data: bytes, i: nat): bytes
    decreases |data| - i
  {
    if i >= |data| then []
    else match m(data, i)
         case None => [data[i]] + Meaning(m, read, data, i + 1)
         case Some(r) =>
           var next := i + if r.text == [] then 1 else |r.text|;
           match read(r)
           case Keep => r.text + Meaning(m, read, data, next)
           case Replace(v) => v + Meaning(m, read, data, next)
           case Halt => data[i..]
  }

  /** The edits make of the references what `read` says. */
  predicate Follows(rs: seq<Ref>, es: seq<Edit>, read: Ref -> Reading)
    decreases |rs|
  {
    if rs == [] then es == []
    else match read(rs[0])
         case Halt => es == []
         case Keep =>
           es != [] && es[0] == Edit(rs[0].start, rs[0].text, None) && Follows(rs[1..], es[1..], read)
         case Replace(v) =>
           es != [] && es[0] == Edit(rs[0].start, rs[0].text, Some(v)) && Follows(rs[1..], es[1..], read)
  }

  /** The simultaneous substitution is what the text means. */
  lemma {:induction false} SubstIsMeaning(m: Matcher, read: Ref -> Reading, data: bytes, es: seq<Edit>, from: nat, i: nat, c: byte)
    requires Sound(m, data, c) && from <= i <= |data|
    requires Follows(FindAll(m, data, i), es, read) && Placed(data, es, from)
    ensures Subst(data, es, from) == data[from..i] + Meaning(m, read, data, i)
    decreases |data| - i
  {
    if i < |data| {
      match m(data, i) {
        case None =>
          SubstIsMeaning(m, read, data, es, from, i + 1, c);
          MeaningOfByte(m, read, data, from, i);
        case Some(r) =>
          FollowsNext(m, read, data, es, i, c);
          if read(r) == Halt {
            assert data[from..] == data[from..i] + data[i..];
          } else {
            SubstIsMeaning(m, read, data, es[1..], i + |r.text|, i + |r.text|, c);
            MeaningOfRef(m, read, data, es[0], from, i, c);
          }
      }
    }
  }

  lemma {:induction false} MeaningOfByte(m: Matcher, read: Ref -> Reading, data: bytes, from: nat, i: nat)
    requires from <= i < |data| && m(data, i).None?
    ensures data[from..i + 1] + Meaning(m, read, data, i + 1) == data[from..i] + Meaning(m, read, data, i)
  {
    assert data[from..i + 1] == data[from..i] + [data[i]];
  }

  lemma {:induction false} MeaningOfRef(m: Matcher, read: Ref -> Reading, data: bytes, e: Edit, from: nat, i: nat, c: byte)
    requires Sound(m, data, c) && from <= i < |data| && m(data, i).Some? && read(m(data, i).value) != Halt
    requires
      var r := m(data, i).value;
      e == Edit(i, r.text, if read(r).Keep? then None else Some(read(r).value))
    ensures
      var next := i + |m(data, i).value.text|;
      && next <= |data|
      && data[from..i] + e.Shown() + (data[next..next] + Meaning(m, read, data, next))
         == data[from..i] + Meaning(m, read, data, i)
  {
    var next := i + |m(data, i).value.text|;
    Front(data[from..i], e.Shown(), data[next..next], Meaning(m, read, data, next));
  }

  lemma FollowsNext(m: Matcher, read: Ref -> Reading, data: bytes, es: seq<Edit>, i: nat, c: byte)
    requires Sound(m, data, c) && i < |data| && m(data, i).Some? && Follows(FindAll(m, data, i), es, read)
    ensures
      var r := m(data, i).value;
      if read(r) == Halt then es == []
      else
        && es != [] && es[0] == Edit(i, r.text, if read(r).Keep? then None else Some(read(r).value))
        && Follows(FindAll(m, data, i + |r.text|), es[1..], read)
  {
    var r := m(data, i).value;
    var rs := FindAll(m, data, i);
    assert rs[0] == r && rs[1..] == FindAll(m, data, i + |r.text|);
  }

  lemma Front(a: bytes, b: bytes, none: bytes, c: bytes)
    requires none == []
    ensures a + b + (none + c) == a + (b + c)
  {
  }

  /** No reference holds the byte `q`. */
  predicate Free(es: seq<Edit>, q: byte) {
    forall k :: 0 <= k < |es| ==> q !in es[k].text
  }

  lemma PlacedCons(data: bytes, e: Edit, es: seq<Edit>, from: nat)
    requires from <= e.start && e.text != [] && At(data, e.text, e.start) && Placed(data, es, e.End())
    ensures Placed(data, [e] + es, from)
    ensures Subst(data, [e] + es, from) == data[from..e.start] + e.Shown() + Subst(data, es, e.End())
  {
    assert ([e] + es)[1..] == es;
  }

  lemma AtCut(data: bytes, t: bytes, i: nat, to: nat)
    requires At(data, t, i) && i + |t| <= to <= |data|
    ensures At(data[..to], t, i)
  {
    assert data[..to][i..i + |t|] == data[i..i + |t|];
  }

  /** The references before and behind a reference lie in the text before and behind it. */
  lemma {:induction false} PlacedAround(data: bytes, es: seq<Edit>, from: nat, k: nat)
    requires Placed(data, es, from) && k < |es|
    ensures from <= es[k].start <= |data| && Placed(data[..es[k].start], es[..k], from)
    ensures Placed(data, es[k + 1..], es[k].End())
    decreases k
  {
    if k > 0 {
      PlacedAround(data, es[1..], es[0].End(), k - 1);
      PartsShift(es, k);
      AtCut(data, es[0].text, es[0].start, es[k].start);
      PlacedCons(data[..es[k].start], es[0], es[1..][..k - 1], from);
    }
  }

  lemma PartsShift(es: seq<Edit>, k: nat)
    requires 0 < k < |es|
    ensures es[1..][k - 1] == es[k] && es[1..][k..] == es[k + 1..] && es[..k] == [es[0]] + es[1..][..k - 1]
  {
  }

  /** The substitution falls apart at a reference: the text before it, what stands in its
      place, and the text behind it are each substituted on their own. */
  lemma {:induction false} SubstAround(data: bytes, es: seq<Edit>, from: nat, k: nat)
    requires Placed(data, es, from) && k < |es|
    ensures from <= es[k].start <= |data| && Placed(data[..es[k].start], es[..k], from)
    ensures Placed(data, es[k + 1..], es[k].End())
    ensures Subst(data, es, from)
            == Subst(data[..es[k].start], es[..k], from) + es[k].Shown() + Subst(data, es[k + 1..], es[k].End())
    decreases k
  {
    PlacedAround(data, es, from, k);
    if k > 0 {
      SubstAround(data, es[1..], es[0].End(), k - 1);
      PartsShift(es, k);
      SubstFront(data, es[0], es[1..][..k - 1], from, es[k].start);
      Regrouped(data[from..es[0].start], es[0].Shown(), Subst(data[..es[k].start], es[1..][..k - 1], es[0].End()),
                es[k].Shown(), Subst(data, es[k + 1..], es[k].End()));
    }
  }

  lemma SubstFront(data: bytes, e: Edit, es: seq<Edit>, from: nat, to: nat)
    requires from <= e.start && e.text != [] && At(data, e.text, e.start) && e.End() <= to <= |data|
    requires Placed(data[..to], es, e.End())
    ensures Placed(data[..to], [e] + es, from)
    ensures Subst(data[..to], [e] + es, from) == data[from..e.start] + e.Shown() + Subst(data[..to], es, e.End())
  {
    AtCut(data, e.text, e.start, to);
    PlacedCons(data[..to], e, es, from);
    assert data[..to][from..e.start] == data[from..e.start];
  }

  lemma Regrouped(a: bytes, b: bytes, c: bytes, d: bytes, e: bytes)
    ensures a + b + (c + d + e) == a + b + c + d + e
  {
  }

  /** A byte that no reference holds stays in front of the text behind a reference. */
  lemma TailStartsWith(data: bytes, es: seq<Edit>, from: nat, q: byte)
    requires Placed(data, es, from) && Free(es, q) && from < |data| && data[from] == q
    ensures Subst(data, es, from) != [] && Subst(data, es, from)[0] == q
  {
    if es != [] {
      AtHead(data, es[0].text, es[0].start);
      assert es[0].text[0] in es[0].text;
      assert data[from..es[0].start][0] == q;
    }
  }

  lemma EndsWithout(data: bytes, e: Edit, q: byte)
    requires e.text != [] && At(data, e.text, e.start) && q !in e.text
    ensures data[e.End() - 1] != q
  {
    assert data[e.End() - 1] == data[e.start..e.End()][|e.text| - 1];
  }

  /** And at the end of the text before one. */
  lemma {:induction false} FrontEndsWith(data: bytes, es: seq<Edit>, from: nat, q: byte)
    requires Placed(data, es, from) && Free(es, q) && from < |data| && data[|data| - 1] == q
    ensures Subst(data, es, from) != [] && Subst(data, es, from)[|Subst(data, es, from)| - 1] == q
    decreases |es|
  {
    if es != [] {
      EndsWithout(data, es[0], q);
      assert Free(es[1..], q);
      FrontEndsWith(data, es[1..], es[0].End(), q);
      LastOf(data[from..es[0].start] + es[0].Shown(), Subst(data, es[1..], es[0].End()));
    }
  }

  lemma LastOf(a: bytes, b: bytes)
    requires b != []
    ensures (a + b)[|a + b| - 1] == b[|b| - 1]
  {
  }

  /** Between two bytes `q` that belong to no reference. */
  predicate Enclosed(data: bytes, e: Edit, q: byte) {
    0 < e.start && e.End() < |data| && data[e.start - 1] == q && data[e.End()] == q
  }

  lemma MarkBefore(data: bytes, es: seq<Edit>, k: nat, q: byte)
    requires Placed(data, es, 0) && Free(es, q) && k < |es| && Enclosed(data, es[k], q)
    requires Placed(data[..es[k].start], es[..k], 0)
    ensures var before := Subst(data[..es[k].start], es[..k], 0); before != [] && before[|before| - 1] == q
  {
    assert Free(es[..k], q);
    FrontEndsWith(data[..es[k].start], es[..k], 0, q);
  }

  lemma MarkBehind(data: bytes, es: seq<Edit>, k: nat, q: byte)
    requires Placed(data, es, 0) && Free(es, q) && k < |es| && Enclosed(data, es[k], q)
    requires Placed(data, es[k + 1..], es[k].End())
    ensures var behind := Subst(data, es[k + 1..], es[k].End()); behind != [] && behind[0] == q
  {
    assert Free(es[k + 1..], q);
    TailStartsWith(data, es[k + 1..], es[k].End(), q);
  }

  /** The substituted text before and behind a reference. */
  ghost function Before(data: bytes, es: seq<Edit>, k: nat): bytes
    requires Placed(data, es, 0) && k < |es|
  {
    SubstAround(data, es, 0, k);
    Subst(data[..es[k].start], es[..k], 0)
  }

  ghost function Behind(data: bytes, es: seq<Edit>, k: nat): bytes
    requires Placed(data, es, 0) && k < |es|
  {
    SubstAround(data, es, 0, k);
    Subst(data, es[k + 1..], es[k].End())
  }

  /** A reference between two such bytes is still between them after the substitution. */
  lemma BetweenMarks(data: bytes, es: seq<Edit>, k: nat, q: byte)
    requires Placed(data, es, 0) && Free(es, q) && k < |es| && Enclosed(data, es[k], q)
    ensures
      var before, behind := Before(data, es, k), Behind(data, es, k);
      && Subst(data, es, 0) == before + es[k].Shown() + behind
      && before != [] && before[|before| - 1] == q && behind != [] && behind[0] == q
  {
    SubstAround(data, es, 0, k);
    MarkBefore(data, es, k, q);
    MarkBehind(data, es, k, q);
  }

  function Step(buf: bytes, e: Edit): (r: bytes) {
    match e.value
    case None => buf
    case Some(v) => ReplaceFirst(buf, e.text, v)
  }

  /** The loop of first-occurrence replacements. */
  function Run(buf: bytes, es: seq<Edit>): (r: bytes)
    decreases |es|
  {
    if es == [] then buf else Run(Step(buf, es[0]), es[1..])
  }

  /** Reading `before` and then `t`, the first `t` seen is the one at the end. */
  predicate OnlyAtEnd(before: bytes, t: bytes) {
    forall q :: 0 <= q < |before| ==> !At(before + t, t, q)
  }

  /** No replaced reference can be read earlier: for every edit that has a value, the
      substituted text that precedes it, followed by the reference itself, contains
      the reference only at the end. `done` is the substituted text before `from`. */
  predicate Clear(data: bytes, es: seq<Edit>, from: nat, done: bytes)
    requires Placed(data, es, from)
  {
    es != [] ==>
      var before := done + data[from..es[0].start];
      && (es[0].value.Some? ==> OnlyAtEnd(before, es[0].text))
      && Clear(data, es[1..], es[0].End(), before + es[0].Shown())
  }

  lemma AtParts(s: bytes, a: bytes, b: bytes, i: nat)
    requires At(s, a + b, i)
    ensures At(s, a, i) && At(s, b, i + |a|)
  {
    var t := s[i..i + |a + b|];
    assert s[i..i + |a|] == t[..|a|] && s[i + |a|..i + |a| + |b|] == t[|a|..];
    assert (a + b)[..|a|] == a && (a + b)[|a|..] == b;
  }

  lemma AtPrefix(s: bytes, rest: bytes, t: bytes, q: nat)
    requires q + |t| <= |s|
    ensures At(s + rest, t, q) <==> At(s, t, q)
  {
    assert (s + rest)[q..q + |t|] == s[q..q + |t|];
  }

  lemma IndexAtEnd(before: bytes, t: bytes, rest: bytes)
    requires OnlyAtEnd(before, t)
    ensures Index(before + t + rest, t, 0) == Some(|before|)
  {
    var s := before + t + rest;
    assert s[|before|..|before| + |t|] == t;
    assert At(s, t, |before|);
    forall q | 0 <= q < |before|
      ensures !At(s, t, q)
    {
      AtPrefix(before + t, rest, t, q);
    }
  }

  lemma ReplaceAtEnd(before: bytes, t: bytes, rest: bytes, v: bytes)
    requires OnlyAtEnd(before, t)
    ensures ReplaceFirst(before + t + rest, t, v) == before + v + rest
  {
    IndexAtEnd(before, t, rest);
    var s := before + t + rest;
    assert s[..|before|] == before;
    assert s[|before| + |t|..] == rest;
  }

  /** A reference splits the text around it. */
  lemma Around(data: bytes, e: Edit, from: nat, done: bytes)
    requires from <= e.start && At(data, e.text, e.start)
    ensures done + data[from..] == done + data[from..e.start] + e.text + data[e.End()..]
  {
    assert data[from..] == data[from..e.start] + data[e.start..e.End()] + data[e.End()..];
  }

  /** A clear text is rewritten to its simultaneous substitution. */
  lemma {:induction false} ClearRun(data: bytes, es: seq<Edit>, from: nat, done: bytes)
    requires Placed(data, es, from)
    requires Clear(data, es, from, done)
    ensures Run(done + data[from..], es) == done + Subst(data, es, from)
    decreases |es|
  {
    if es != [] {
      var e := es[0];
      var before := done + data[from..e.start];
      var rest := data[e.End()..];
      Around(data, e, from, done);
      StepInPlace(before, e, rest);
      ClearRun(data, es[1..], e.End(), before + e.Shown());
      Assoc(done, data[from..e.start], e.Shown(), Subst(data, es[1..], e.End()));
    }
  }

  lemma StepInPlace(before: bytes, e: Edit, rest: bytes)
    requires e.value.Some? ==> OnlyAtEnd(before, e.text)
    ensures Step(before + e.text + rest, e) == before + e.Shown() + rest
  {
    if e.value.Some? {
      ReplaceAtEnd(before, e.text, rest, e.value.value);
    }
  }

  lemma Assoc(a: bytes, b: bytes, c: bytes, d: bytes)
    ensures a + (b + c + d) == a + b + c + d
  {
  }

  /** Every reference starts with the byte `c`. */
  predicate Marked(es: seq<Edit>, c: byte) {
    forall i :: 0 <= i < |es| ==> es[i].text != [] && es[i].text[0] == c
  }

  /** Every replacement value shows, in its first byte, that a replacement took place. */
  predicate Telling(es: seq<Edit>, c: byte) {
    forall i :: 0 <= i < |es| && es[i].value.Some? ==>
      es[i].value.value != [] && es[i].value.value[0] != c
  }

  /** `buf` and `goal` agree up to `q`, where `goal` still shows a `c` that `buf` lost. */
  predicate LostAt(buf: bytes, goal: bytes, c: byte, q: nat) {
    q < |buf| && q < |goal| && buf[..q] == goal[..q] && goal[q] == c && buf[q] != c
  }

  /** Later replacements never repair a lost reference. */
  lemma {:induction false} LostStaysLost(buf: bytes, goal: bytes, es: seq<Edit>, c: byte, q: nat)
    requires Marked(es, c) && Telling(es, c)
    requires LostAt(buf, goal, c, q)
    ensures Run(buf, es) != goal
    decreases |es|
  {
    if es != [] {
      var e := es[0];
      var next := Step(buf, e);
      var q' := q;
      if e.value.Some? && Index(buf, e.text, 0).Some? {
        var i := Index(buf, e.text, 0).value;
        assert buf[i] == buf[i..i + |e.text|][0] == c;
        if i < q {
          q' := i;
          assert goal[i] == goal[..q][i] == buf[..q][i];
          assert next[..i] == buf[..i] == buf[..q][..i] == goal[..q][..i] == goal[..i];
        } else {
          assert next[..q] == buf[..q];
        }
      }
      assert LostAt(next, goal, c, q');
      LostStaysLost(next, goal, es[1..], c, q');
    }
  }

  /** The first replacement that hits an earlier place spoils the result for good. */
  lemma {:induction false} UnclearRun(data: bytes, es: seq<Edit>, from: nat, done: bytes, c: byte)
    requires Placed(data, es, from)
    requires Marked(es, c) && Telling(es, c)
    requires !Clear(data, es, from, done)
    ensures Run(done + data[from..], es) != done + Subst(data, es, from)
    decreases |es|
  {
    var e := es[0];
    var before := done + data[from..e.start];
    var rest := data[e.End()..];
    var tail := Subst(data, es[1..], e.End());
    Around(data, e, from, done);
    Assoc(done, data[from..e.start], e.Shown(), tail);
    if e.value.Some? && !OnlyAtEnd(before, e.text) {
      var goal := before + e.Shown() + tail;
      MissedStep(before, e, rest, goal, c);
      var i := Index(before + e.text + rest, e.text, 0).value;
      LostStaysLost(Step(before + e.text + rest, e), goal, es[1..], c, i);
    } else {
      StepInPlace(before, e, rest);
      UnclearRun(data, es[1..], e.End(), before + e.Shown(), c);
    }
  }

  lemma MissedStep(before: bytes, e: Edit, rest: bytes, goal: bytes, c: byte)
    requires e.value.Some? && Marked([e], c) && Telling([e], c)
    requires !OnlyAtEnd(before, e.text)
    requires before <= goal
    ensures Index(before + e.text + rest, e.text, 0).Some?
    ensures LostAt(Step(before + e.text + rest, e), goal, c, Index(before + e.text + rest, e.text, 0).value)
  {
    var buf := before + e.text + rest;
    assert [e][0] == e;
    var q :| 0 <= q < |before| && At(before + e.text, e.text, q);
    AtPrefix(before + e.text, rest, e.text, q);
    var i := Index(buf, e.text, 0).value;
    assert i <= q;
    assert buf[i] == buf[i..i + |e.text|][0];
    assert goal[i] == before[i] == buf[i];
    assert buf[..i] == before[..i] == goal[..i];
  }

  /** The exact condition: when every value is non-empty and does not itself start with
      the reference mark, the loop computes the simultaneous substitution if and only
      if the text is clear. */
  lemma RunIsSubstExactly(data: bytes, es: seq<Edit>, c: byte)
    requires Placed(data, es, 0)
    requires Marked(es, c) && Telling(es, c)
    ensures Run(data, es) == Subst(data, es, 0) <==> Clear(data, es, 0, [])
  {
    assert [] + data[0..] == data;
    assert [] + Subst(data, es, 0) == Subst(data, es, 0);
    if Clear(data, es, 0, []) {
      ClearRun(data, es, 0, []);
    } else {
      UnclearRun(data, es, 0, [], c);
    }
  }

  // ------------------------------------------------------------------------------
  // Where replacements land
  // ------------------------------------------------------------------------------

  /** Where the loop makes its replacements. */
  function Landed(buf: bytes, es: seq<Edit>): seq<Option<nat>>
    decreases |es|
  {
    if es == [] then []
    else [if es[0].value.Some? then Index(buf, es[0].text, 0) else None] + Landed(Step(buf, es[0]), es[1..])
  }

  /** Where the replaced references stand once everything before them is substituted. */
  function Own(data: bytes, es: seq<Edit>, from: nat, done: bytes): seq<Option<nat>>
    requires Placed(data, es, from)
  {
    if es == [] then []
    else
      var before := done + data[from..es[0].start];
      [if es[0].value.Some? then Some(|before|) else None] + Own(data, es[1..], es[0].End(), before + es[0].Shown())
  }

  /** From offset `from` on, with `done` before it, every replacement lands in its own
      place. */
  predicate AllLand(data: bytes, es: seq<Edit>, from: nat, done: bytes)
    requires Placed(data, es, from)
  {
    Landed(done + data[from..], es) == Own(data, es, from, done)
  }

  /** Whatever the values are, every reference is replaced in its own place exactly if the
      text is clear. */
  lemma {:induction false} LandsExactly(data: bytes, es: seq<Edit>)
    requires Placed(data, es, 0)
    ensures Landed(data, es) == Own(data, es, 0, []) <==> Clear(data, es, 0, [])
  {
    assert [] + data[0..] == data;
    LandsFrom(data, es, 0, []);
  }

  lemma {:induction false} LandsFrom(data: bytes, es: seq<Edit>, from: nat, done: bytes)
    requires Placed(data, es, from)
    ensures AllLand(data, es, from, done) <==> Clear(data, es, from, done)
    decreases |es|
  {
    if es != [] {
      LandsStep(data, es, from, done);
      LandsFrom(data, es[1..], es[0].End(), done + data[from..es[0].start] + es[0].Shown());
    }
  }

  lemma {:induction false} LandsStep(data: bytes, es: seq<Edit>, from: nat, done: bytes)
    requires Placed(data, es, from) && es != []
    ensures
      var before := done + data[from..es[0].start];
      AllLand(data, es, from, done) <==>
        FirstFound(before, es[0]) && AllLand(data, es[1..], es[0].End(), before + es[0].Shown())
  {
    var before := done + data[from..es[0].start];
    var rest := data[es[0].End()..];
    Around(data, es[0], from, done);
    LandsNext(before, es[0], rest, es);
    OwnNext(data, es, from, done);
    Glue(Landed(before + es[0].text + rest, es), Own(data, es, from, done), FirstFound(before, es[0]),
         Landed(before + es[0].Shown() + rest, es[1..]), AllLand(data, es[1..], es[0].End(), before + es[0].Shown()));
  }

  lemma Glue(landed: seq<Option<nat>>, own: seq<Option<nat>>, first: bool, tail: seq<Option<nat>>, clear: bool)
    requires landed != [] && own != [] && (landed[0] == own[0] <==> first)
    requires (first ==> landed[1..] == tail) && (tail == own[1..] <==> clear)
    ensures landed == own <==> first && clear
  {
    ConsSame(landed, own);
  }

  /** An edit with a value finds its own reference first. */
  predicate FirstFound(before: bytes, e: Edit) {
    e.value.Some? ==> OnlyAtEnd(before, e.text)
  }

  /** The first replacement of the loop is in its own place exactly if there is no earlier
      one, and then the others follow. */
  lemma {:induction false} LandsNext(before: bytes, e: Edit, rest: bytes, es: seq<Edit>)
    requires es != [] && es[0] == e
    ensures
      var landed := Landed(before + e.text + rest, es);
      && landed != []
      && (landed[0] == (if e.value.Some? then Some(|before|) else None) <==> FirstFound(before, e))
      && (FirstFound(before, e) ==> landed[1..] == Landed(before + e.Shown() + rest, es[1..]))
  {
    if FirstFound(before, e) {
      StepInPlace(before, e, rest);
      if e.value.Some? {
        IndexAtEnd(before, e.text, rest);
      }
    } else {
      MissesOwn(before, e, rest);
    }
  }

  lemma {:induction false} OwnNext(data: bytes, es: seq<Edit>, from: nat, done: bytes)
    requires Placed(data, es, from) && es != []
    ensures
      var own := Own(data, es, from, done);
      var before := done + data[from..es[0].start];
      && own != [] && own[0] == (if es[0].value.Some? then Some(|before|) else None)
      && own[1..] == Own(data, es[1..], es[0].End(), before + es[0].Shown())
  {
  }

  lemma MissesOwn(before: bytes, e: Edit, rest: bytes)
    requires !OnlyAtEnd(before, e.text)
    ensures Index(before + e.text + rest, e.text, 0) != Some(|before|)
  {
    var q :| 0 <= q < |before| && At(before + e.text, e.text, q);
    AtPrefix(before + e.text, rest, e.text, q);
  }

  lemma ConsSame(a: seq<Option<nat>>, b: seq<Option<nat>>)
    requires a != [] && b != []
    ensures a == b <==> a[0] == b[0] && a[1..] == b[1..]
  {
    if a[0] == b[0] && a[1..] == b[1..] {
      assert a == [a[0]] + a[1..] && b == [b[0]] + b[1..];
    }
  }

  /** A replacement by nothing can miss its place without a trace in the result. */
  lemma EmptyHides()
    ensures
      var es := [Edit(1, [36, 67], Some([65])), Edit(3, [36, 65], Some([]))];
      Placed(HIDDEN, es, 0) && !Clear(HIDDEN, es, 0, []) && Run(HIDDEN, es) == Subst(HIDDEN, es, 0) == [36, 65]
  {
    var c, a := Edit(1, [36, 67], Some([65])), Edit(3, [36, 65], Some([]));
    HiddenSubst(c, a);
    HiddenRun(c, a);
  }

  const HIDDEN: bytes := [36, 36, 67, 36, 65]

  lemma HiddenSubst(c: Edit, a: Edit)
    requires c == Edit(1, [36, 67], Some([65])) && a == Edit(3, [36, 65], Some([]))
    ensures Placed(HIDDEN, [c, a], 0) && !Clear(HIDDEN, [c, a], 0, []) && Subst(HIDDEN, [c, a], 0) == [36, 65]
  {
    var es := [c, a];
    assert es[1..] == [a] && [a][1..] == [];
    assert Placed(HIDDEN, [], 5);
    assert At(HIDDEN, a.text, 3) && At(HIDDEN, c.text, 1);
    assert Placed(HIDDEN, [a], 3);
    assert Subst(HIDDEN, [a], 3) == [];
    var before: bytes := [36, 65];
    assert [] + HIDDEN[0..1] + c.Shown() == before && before + HIDDEN[3..3] == before;
    assert At(before + a.text, a.text, 0);
    assert !OnlyAtEnd(before, a.text);
    assert !Clear(HIDDEN, [a], 3, before);
  }

  lemma HiddenRun(c: Edit, a: Edit)
    requires c == Edit(1, [36, 67], Some([65])) && a == Edit(3, [36, 65], Some([]))
    ensures Run(HIDDEN, [c, a]) == [36, 65]
  {
    assert [c, a][1..] == [a] && [a][1..] == [];
    assert !At(HIDDEN, c.text, 0) by {
      assert HIDDEN[0..2][1] == 36 && c.text[1] == 67;
    }
    assert Index(HIDDEN, c.text, 1) == Some(1);
    var mid: bytes := [36, 65, 36, 65];
    assert Step(HIDDEN, c) == mid;
    assert At(mid, a.text, 0);
    assert Step(mid, a) == [36, 65];
    assert Run(mid, [a]) == Run([36, 65], []);
  }

  /** Conditions on the references alone: a value holds no mark `c`, the texts of
      references without a value are among `unset`, and none of those is related by
      prefix to a reference that has a value. */
  predicate PlainEdit(e: Edit, c: byte, unset: set<bytes>) {
    && e.text != [] && e.text[0] == c && c !in e.text[1..]
    && match e.value
       case None => e.text in unset
       case Some(v) => c !in v && forall u :: u in unset ==> !(u <= e.text) && !(e.text <= u)
  }

  predicate PlainEdits(es: seq<Edit>, c: byte, unset: set<bytes>) {
    forall k :: 0 <= k < |es| ==> PlainEdit(es[k], c, unset)
  }

  /** No mark `c` between the references. */
  predicate PlainGaps(data: bytes, es: seq<Edit>, from: nat, c: byte)
    requires Placed(data, es, from)
  {
    es != [] ==> c !in data[from..es[0].start] && PlainGaps(data, es[1..], es[0].End(), c)
  }

  /** When every mark starts a match, there is no mark between the matches. */
  lemma {:induction false} GapsArePlain(m: Matcher, data: bytes, i: nat, from: nat, es: seq<Edit>, c: byte)
    requires Sound(m, data, c)
    requires from <= i <= |data| && c !in data[from..i]
    requires forall p :: 0 <= p < |data| && data[p] == c ==> m(data, p).Some?
    requires EditsOf(FindAll(m, data, i), es)
    requires Placed(data, es, from)
    ensures PlainGaps(data, es, from, c)
    decreases |data| - i
  {
    if i < |data| {
      match m(data, i) {
        case None =>
          assert data[from..i + 1] == data[from..i] + [data[i]];
          GapsArePlain(m, data, i + 1, from, es, c);
        case Some(r) =>
          if es != [] {
            GapsArePlain(m, data, i + |r.text|, i + |r.text|, es[1..], c);
          }
      }
    }
  }

  /** Every mark of the substituted text starts a reference without a value. */
  predicate MarksAreUnset(done: bytes, c: byte, unset: set<bytes>) {
    forall q :: 0 <= q < |done| && done[q] == c ==> exists u :: u in unset && At(done, u, q)
  }

  lemma AtHead(s: bytes, t: bytes, q: nat)
    requires t != []
    ensures At(s, t, q) ==> q < |s| && s[q] == t[0]
  {
    assert At(s, t, q) ==> s[q] == s[q..q + |t|][0];
  }

  lemma AtBoth(s: bytes, a: bytes, b: bytes, q: nat)
    ensures At(s, a, q) && At(s, b, q) ==> a <= b || b <= a
  {
    if At(s, a, q) && At(s, b, q) {
      assert forall j :: 0 <= j < |a| ==> a[j] == s[q + j];
      assert forall j :: 0 <= j < |b| ==> b[j] == s[q + j];
    }
  }

  lemma OnlyOwnPlace(before: bytes, e: Edit, c: byte, unset: set<bytes>)
    requires MarksAreUnset(before, c, unset)
    requires PlainEdit(e, c, unset) && e.value.Some?
    ensures OnlyAtEnd(before, e.text)
  {
    var s := before + e.text;
    forall q | 0 <= q < |before|
      ensures !At(s, e.text, q)
    {
      if before[q] == c {
        var u :| u in unset && At(before, u, q);
        AtPrefix(before, e.text, u, q);
        AtBoth(s, u, e.text, q);
      } else {
        AtHead(s, e.text, q);
      }
    }
  }

  lemma MarksGrow(done: bytes, more: bytes, c: byte, unset: set<bytes>)
    requires MarksAreUnset(done, c, unset)
    requires c !in more || (more in unset && c !in more[1..])
    ensures MarksAreUnset(done + more, c, unset)
  {
    forall q | 0 <= q < |done + more| && (done + more)[q] == c
      ensures exists u :: u in unset && At(done + more, u, q)
    {
      if q < |done| {
        var u :| u in unset && At(done, u, q);
        AtPrefix(done, more, u, q);
      } else {
        assert forall j :: 0 < j < |more| ==> more[j] == more[1..][j - 1];
        assert (done + more)[|done|..] == more;
        assert At(done + more, more, q);
      }
    }
  }

  /** Plain references between plain gaps make a clear text. */
  lemma {:induction false} PlainIsClear(data: bytes, es: seq<Edit>, from: nat, done: bytes, c: byte, unset: set<bytes>)
    requires Placed(data, es, from)
    requires PlainEdits(es, c, unset) && PlainGaps(data, es, from, c)
    requires MarksAreUnset(done, c, unset)
    ensures Clear(data, es, from, done)
    decreases |es|
  {
    if es != [] {
      var e := es[0];
      var before := done + data[from..e.start];
      MarksGrow(done, data[from..e.start], c, unset);
      if e.value.Some? {
        OnlyOwnPlace(before, e, c, unset);
      }
      MarksGrow(before, e.Shown(), c, unset);
      PlainIsClear(data, es[1..], e.End(), before + e.Shown(), c, unset);
    }
  }
}

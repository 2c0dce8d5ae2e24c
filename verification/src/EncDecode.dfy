/** Encrypted references in configuration text: `decodeEncs`. */
module EncDecode {
  import opened Bytes
  import opened TextPass
  import EnvFeed

  const OPEN: bytes := ['E' as int, 'N' as int, 'C' as int, '[' as int]
  const CLOSE: byte := ']' as int
  const NEWLINE: byte := 0x0A

  /** The first closing bracket at or after `i` on the same line: the lazy `.*?`
      stops there and does not cross a line end. */
  function CloseAt(data: bytes, i: nat): (r: Option<nat>)
    ensures r.Some? ==> i <= r.value < |data| && data[r.value] == CLOSE
    ensures r.Some? ==> forall j :: i <= j < r.value ==> data[j] != CLOSE && data[j] != NEWLINE
    decreases |data| - i
  {
    if i >= |data| || data[i] == NEWLINE then None
    else if data[i] == CLOSE then Some(i)
    else CloseAt(data, i + 1)
  }

  /** The match of `ENC\[(.*?)\]` that starts at `i`, if there is one. */
  function MatchAt(data: bytes, i: nat): (r: Option<Ref>)
    ensures r.Some? ==>
              && r.value.start == i && At(data, r.value.text, i)
              && OPEN <= r.value.text && CLOSE !in r.value.name
  {
    if !At(data, OPEN, i) then None
    else match CloseAt(data, i + 4)
         case None => None
         case Some(e) =>
           assert data[i..e + 1] == OPEN + data[i + 4..e + 1];
           Some(Ref(i, data[i..e + 1], data[i + 4..e]))
  }

  /** What the text between the brackets resolves to. A value is what a file or an
      AES decryption yields; it is empty for unknown schemes and for failures. */
  datatype Resolved = BadURL | Value(value: bytes)

  type Resolver = bytes -> Resolved

  /** The replacements of the loop, which gives up at the first malformed URL and
      passes over references that resolve to nothing. */
  function EncEdits(rs: seq<Ref>, resolve: Resolver): (es: seq<Edit>)
    ensures |es| <= |rs|
  {
    if rs == [] then []
    else match resolve(rs[0].name)
         case BadURL => []
         case Value(v) =>
           [Edit(rs[0].start, rs[0].text, if v == [] then None else Some(v))] + EncEdits(rs[1..], resolve)
  }

  function Edits(data: bytes, resolve: Resolver): seq<Edit> {
    EncEdits(FindAll(MatchAt, data, 0), resolve)
  }

  lemma EditsArePlaced(data: bytes, resolve: Resolver)
    ensures Placed(data, Edits(data, resolve), 0)
  {
    EditsOfRefs(FindAll(MatchAt, data, 0), resolve);
    FoundArePlaced(MatchAt, data, 0, 0, Edits(data, resolve), OPEN[0]);
  }

  /** No bracket that is replaced can be read, after substitution, before its own place. */
  predicate Unambiguous(data: bytes, resolve: Resolver) {
    EditsArePlaced(data, resolve);
    Clear(data, Edits(data, resolve), 0, [])
  }

  lemma UnambiguousDecode(data: bytes, resolve: Resolver)
    ensures Unambiguous(data, resolve) ==> Run(data, Edits(data, resolve)) == Decoded(data, resolve)
  {
    if Unambiguous(data, resolve) {
      SubstitutedIsDecoded(data, resolve);
      ClearRun(data, Edits(data, resolve), 0, []);
      assert [] + data[0..] == data;
      assert [] + Subst(data, Edits(data, resolve), 0) == Subst(data, Edits(data, resolve), 0);
    }
  }

  /** The loop: brackets are found once; then every one that resolves is replaced at its
      first occurrence in the changing text, up to the first malformed address. */
  method DecodeEncs(raw: bytes, resolve: Resolver) returns (data: bytes)
    ensures data == Run(EnvFeed.TrimBOM(raw), Edits(EnvFeed.TrimBOM(raw), resolve))
    ensures
      var text := EnvFeed.TrimBOM(raw);
      Unambiguous(text, resolve) ==> data == Decoded(text, resolve)
  {
    data := ReplaceAll(EnvFeed.TrimBOM(raw), resolve);
    UnambiguousDecode(EnvFeed.TrimBOM(raw), resolve);
  }

  method ReplaceAll(text: bytes, resolve: Resolver) returns (data: bytes)
    ensures data == Run(text, Edits(text, resolve))
  {
    data := text;
    var refs := FindAll(MatchAt, data, 0);
    ghost var es := EncEdits(refs, resolve);
    var i := 0;
    while i < |refs|
      invariant 0 <= i <= |refs|
      invariant Run(data, EncEdits(refs[i..], resolve)) == Run(text, es)
    {
      assert refs[i..][1..] == refs[i + 1..];
      match resolve(refs[i].name) {
        case BadURL => return;
        case Value(v) =>
          if v != [] {
            data := ReplaceFirst(data, refs[i].text, v);
          }
      }
      i := i + 1;
    }
  }

  lemma {:induction false} EditsOfRefs(rs: seq<Ref>, resolve: Resolver)
    ensures EditsOf(rs, EncEdits(rs, resolve))
    ensures forall k :: 0 <= k < |EncEdits(rs, resolve)| && EncEdits(rs, resolve)[k].value.Some? ==>
              && EncEdits(rs, resolve)[k].value.value != []
              && resolve(rs[k].name) == Value(EncEdits(rs, resolve)[k].value.value)
  {
    if rs != [] && resolve(rs[0].name).Value? {
      EditsOfRefs(rs[1..], resolve);
    }
  }

  /** `ENC[name]` at its place in the text, the name free of closing brackets and line
      ends. */
  predicate IsBracket(data: bytes, r: Ref) {
    At(data, r.text, r.start) && r.text == OPEN + r.name + [CLOSE] && CLOSE !in r.name && NEWLINE !in r.name
  }

  lemma {:induction false} CloseAtIsUnique(data: bytes, i: nat, e: nat)
    requires i <= e < |data| && data[e] == CLOSE && forall j :: i <= j < e ==> data[j] != CLOSE && data[j] != NEWLINE
    ensures CloseAt(data, i) == Some(e)
    decreases e - i
  {
    if i < e {
      CloseAtIsUnique(data, i + 1, e);
    }
  }

  lemma InBracket(data: bytes, i: nat, name: bytes)
    requires At(data, OPEN + name + [CLOSE], i)
    ensures At(data, OPEN, i) && data[i + 4..i + 4 + |name|] == name && data[i + 4 + |name|] == CLOSE
  {
    AtParts(data, OPEN + name, [CLOSE], i);
    AtParts(data, OPEN, name, i);
    assert data[i + 4 + |name|] == data[i + 4 + |name|..i + 4 + |name| + 1][0];
  }

  lemma BracketMatches(data: bytes, r: Ref)
    requires IsBracket(data, r)
    ensures MatchAt(data, r.start) == Some(r)
  {
    var i, e := r.start, r.start + 4 + |r.name|;
    InBracket(data, i, r.name);
    forall j | i + 4 <= j < e
      ensures data[j] != CLOSE && data[j] != NEWLINE
    {
      assert data[j] == data[i + 4..e][j - i - 4];
      assert data[j] in r.name;
    }
    CloseAtIsUnique(data, i + 4, e);
  }

  lemma MatchIsBracket(data: bytes, r: Ref)
    requires MatchAt(data, r.start) == Some(r)
    ensures IsBracket(data, r)
  {
    var e := CloseAt(data, r.start + 4).value;
    assert data[r.start..e + 1] == OPEN + data[r.start + 4..e] + [CLOSE];
  }

  /** A match is exactly a bracket. */
  lemma MatchesAreBrackets(data: bytes, r: Ref)
    ensures MatchAt(data, r.start) == Some(r) <==> IsBracket(data, r)
  {
    if IsBracket(data, r) {
      BracketMatches(data, r);
    }
    if MatchAt(data, r.start) == Some(r) {
      MatchIsBracket(data, r);
    }
  }

  /** How a bracket is read: as what it resolves to, if that is not empty; a malformed
      address halts. */
  function Reads(resolve: Resolver): Ref -> Reading {
    (r: Ref) =>
      match resolve(r.name)
      case BadURL => Halt
      case Value(v) => if v == [] then Keep else Replace(v)
  }

  function Decoded(data: bytes, resolve: Resolver): bytes {
    Meaning(MatchAt, Reads(resolve), data, 0)
  }

  lemma {:induction false} EditsFollow(rs: seq<Ref>, resolve: Resolver)
    ensures Follows(rs, EncEdits(rs, resolve), Reads(resolve))
  {
    if rs != [] && resolve(rs[0].name).Value? {
      EditsFollow(rs[1..], resolve);
    }
  }

  /** The simultaneous substitution of the loop's edits is what the file means. */
  lemma SubstitutedIsDecoded(data: bytes, resolve: Resolver)
    ensures Placed(data, Edits(data, resolve), 0)
    ensures Subst(data, Edits(data, resolve), 0) == Decoded(data, resolve)
  {
    EditsArePlaced(data, resolve);
    EditsFollow(FindAll(MatchAt, data, 0), resolve);
    SubstIsMeaning(MatchAt, Reads(resolve), data, Edits(data, resolve), 0, 0, OPEN[0]);
    assert data[0..0] + Decoded(data, resolve) == Decoded(data, resolve);
  }

  /** Whatever the references resolve to, each of them is replaced in its own place
      exactly if none can be read, after substitution, before it. */
  lemma DecodeLandsExactly(data: bytes, resolve: Resolver)
    ensures Placed(data, Edits(data, resolve), 0)
    ensures Landed(data, Edits(data, resolve)) == Own(data, Edits(data, resolve), 0, [])
            <==> Clear(data, Edits(data, resolve), 0, [])
  {
    EditsOfRefs(FindAll(MatchAt, data, 0), resolve);
    FoundArePlaced(MatchAt, data, 0, 0, Edits(data, resolve), OPEN[0]);
    LandsExactly(data, Edits(data, resolve));
  }

  /** Decoding equals the simultaneous substitution of the references before the
      first malformed URL exactly when no reference can be read, after substitution,
      before its own place; decoded values are only asked not to start with `E`. */
  lemma DecodeIsSubstitutionExactly(data: bytes, resolve: Resolver)
    requires forall k :: 0 <= k < |FindAll(MatchAt, data, 0)| ==>
               var v := resolve(FindAll(MatchAt, data, 0)[k].name);
               v.Value? && v.value != [] ==> v.value[0] != OPEN[0]
    ensures Placed(data, Edits(data, resolve), 0)
    ensures Run(data, Edits(data, resolve)) == Subst(data, Edits(data, resolve), 0)
            <==> Clear(data, Edits(data, resolve), 0, [])
  {
    EditsOfRefs(FindAll(MatchAt, data, 0), resolve);
    FoundArePlaced(MatchAt, data, 0, 0, Edits(data, resolve), OPEN[0]);
    RunIsSubstExactly(data, Edits(data, resolve), OPEN[0]);
  }
}

/** The standard encoding of section 4 of RFC 4648, as Go's base64.StdEncoding reads and
    writes it: padded, and with line ends ignored on reading. */
module Base64 {
  import opened Bytes

  const PAD: byte := '=' as int

  type sextet = n: int | 0 <= n < 64

  function Symbol(n: sextet): byte {
    if n < 26 then 'A' as int + n
    else if n < 52 then 'a' as int + n - 26
    else if n < 62 then '0' as int + n - 52
    else if n == 62 then '+' as int
    else '/' as int
  }

  function Sextet(b: byte): Option<sextet> {
    if 'A' as int <= b <= 'Z' as int then Some(b - 'A' as int)
    else if 'a' as int <= b <= 'z' as int then Some(b - 'a' as int + 26)
    else if '0' as int <= b <= '9' as int then Some(b - '0' as int + 52)
    else if b == '+' as int then Some(62)
    else if b == '/' as int then Some(63)
    else None
  }

  lemma SymbolReadsBack(n: sextet)
    ensures Sextet(Symbol(n)) == Some(n) && Symbol(n) != PAD && !LineEnd(Symbol(n))
  {
  }

  /** Three bytes as four sextets. */
  function First(a: byte): sextet { a / 4 }
  function Second(a: byte, b: byte): sextet { a % 4 * 16 + b / 16 }
  function Third(b: byte, c: byte): sextet { b % 16 * 4 + c / 64 }
  function Fourth(c: byte): sextet { c % 64 }

  /** Four sextets as three bytes. */
  function Byte0(p: sextet, q: sextet): byte { p * 4 + q / 16 }
  function Byte1(q: sextet, r: sextet): byte { q % 16 * 16 + r / 4 }
  function Byte2(r: sextet, u: sextet): byte { r % 4 * 64 + u }

  /** The four sextets are the bits of the three bytes, in order. */
  lemma SameBits(a: byte, b: byte, c: byte)
    ensures ((First(a) * 64 + Second(a, b)) * 64 + Third(b, c)) * 64 + Fourth(c) == (a * 256 + b) * 256 + c
  {
  }

  lemma Recut(a: byte, b: byte, c: byte)
    ensures Byte0(First(a), Second(a, b)) == a
    ensures Byte1(Second(a, b), Third(b, c)) == b
    ensures Byte2(Third(b, c), Fourth(c)) == c
  {
  }

  function Encode(s: bytes): (t: bytes) {
    if s == [] then []
    else if |s| == 1 then [Symbol(First(s[0])), Symbol(Second(s[0], 0)), PAD, PAD]
    else if |s| == 2 then [Symbol(First(s[0])), Symbol(Second(s[0], s[1])), Symbol(Third(s[1], 0)), PAD]
    else [Symbol(First(s[0])), Symbol(Second(s[0], s[1])), Symbol(Third(s[1], s[2])), Symbol(Fourth(s[2]))] + Encode(s[3..])
  }

  predicate LineEnd(b: byte) { b == 0x0A || b == 0x0D }

  function Strip(t: bytes): bytes {
    if t == [] then []
    else if LineEnd(t[0]) then Strip(t[1..])
    else [t[0]] + Strip(t[1..])
  }

  function Decode(t: bytes): (s: Option<bytes>) {
    Groups(Strip(t))
  }

  /** One group of four symbols; only the last one may be padded. Bits that do not
      belong to a byte are not looked at. */
  function Group(t: bytes, last: bool): (s: Option<bytes>)
    requires |t| == 4
  {
    var p, q, r, u := Sextet(t[0]), Sextet(t[1]), Sextet(t[2]), Sextet(t[3]);
    if p.None? || q.None? then None
    else if last && t[2] == PAD && t[3] == PAD then Some([Byte0(p.value, q.value)])
    else if r.None? then None
    else if last && t[3] == PAD then Some([Byte0(p.value, q.value), Byte1(q.value, r.value)])
    else if u.None? then None
    else Some([Byte0(p.value, q.value), Byte1(q.value, r.value), Byte2(r.value, u.value)])
  }

  function Groups(t: bytes): (s: Option<bytes>) {
    if t == [] then Some([])
    else if |t| < 4 then None
    else match Group(t[..4], |t| == 4)
         case None => None
         case Some(head) =>
           match Groups(t[4..])
           case None => None
           case Some(rest) => Some(head + rest)
  }

  /** Symbols, and at the very end one or two padding marks, in groups of four. */
  predicate WellFormed(t: bytes) {
    && |t| % 4 == 0
    && forall i :: 0 <= i < |t| ==>
         Sextet(t[i]).Some? || (t[i] == PAD && (i == |t| - 1 || (i == |t| - 2 && t[|t| - 1] == PAD)))
  }

  /** Exactly the well-formed texts are decoded, once line ends are taken out. */
  lemma DecodesExactly(t: bytes)
    ensures Decode(t).Some? <==> WellFormed(Strip(t))
  {
    GroupsExactly(Strip(t));
  }

  lemma {:induction false} GroupsExactly(t: bytes)
    ensures Groups(t).Some? <==> WellFormed(t)
    decreases |t|
  {
    if |t| >= 4 {
      GroupsExactly(t[4..]);
      GroupExactly(t);
    }
  }

  lemma GroupExactly(t: bytes)
    requires |t| >= 4
    ensures WellFormed(t) <==> Group(t[..4], |t| == 4).Some? && WellFormed(t[4..])
  {
    var u := t[4..];
    assert forall i :: 0 <= i < |u| ==> u[i] == t[i + 4];
    assert forall i :: 0 <= i < 4 ==> t[..4][i] == t[i];
    assert Sextet(PAD).None?;
  }

  /** Line ends are ignored wherever they stand. */
  lemma {:induction false} LineEndsAreIgnored(a: bytes, b: bytes, end: byte)
    requires end == 0x0A || end == 0x0D
    ensures Decode(a + ([end] + b)) == Decode(a + b)
  {
    StripsLineEnd(a, b, end);
  }

  lemma {:induction false} StripsLineEnd(a: bytes, b: bytes, end: byte)
    requires end == 0x0A || end == 0x0D
    ensures Strip(a + ([end] + b)) == Strip(a + b)
  {
    if a == [] {
      assert a + ([end] + b) == [end] + b && ([end] + b)[1..] == b && a + b == b;
    } else {
      assert (a + ([end] + b))[1..] == a[1..] + ([end] + b) && (a + b)[1..] == a[1..] + b;
      StripsLineEnd(a[1..], b, end);
    }
  }

  /** Nothing else is. */
  lemma {:induction false} StripKeepsRest(t: bytes)
    ensures (forall i :: 0 <= i < |t| ==> t[i] != 0x0A && t[i] != 0x0D) ==> Strip(t) == t
  {
    if t != [] {
      assert forall i :: 0 <= i < |t[1..]| ==> t[1..][i] == t[i + 1];
      StripKeepsRest(t[1..]);
    }
  }

  /** Vectors of section 10 of RFC 4648, and one for the last two symbols. */
  lemma Vectors()
    ensures Encode([102]) == ['Z' as int, 'g' as int, PAD, PAD]
    ensures Encode([102, 111]) == ['Z' as int, 'm' as int, '8' as int, PAD]
    ensures Encode([102, 111, 111]) == ['Z' as int, 'm' as int, '9' as int, 'v' as int]
    ensures Encode([0xFB, 0xFF, 0xFE]) == ['+' as int, '/' as int, '/' as int, '+' as int]
  {
    assert Encode([102, 111, 111][3..]) == [] && Encode([0xFB, 0xFF, 0xFE][3..]) == [];
  }

  lemma WholeGroup(p: sextet, q: sextet, r: sextet, u: sextet, last: bool)
    ensures Group([Symbol(p), Symbol(q), Symbol(r), Symbol(u)], last) == Some([Byte0(p, q), Byte1(q, r), Byte2(r, u)])
  {
    SymbolReadsBack(p);
    SymbolReadsBack(q);
    SymbolReadsBack(r);
    SymbolReadsBack(u);
  }

  lemma OneInGroup(p: sextet, q: sextet)
    ensures Group([Symbol(p), Symbol(q), PAD, PAD], true) == Some([Byte0(p, q)])
  {
    SymbolReadsBack(p);
    SymbolReadsBack(q);
  }

  lemma TwoInGroup(p: sextet, q: sextet, r: sextet)
    ensures Group([Symbol(p), Symbol(q), Symbol(r), PAD], true) == Some([Byte0(p, q), Byte1(q, r)])
  {
    SymbolReadsBack(p);
    SymbolReadsBack(q);
    SymbolReadsBack(r);
  }

  lemma {:induction false} EncodedHasNoLineEnd(s: bytes)
    ensures Strip(Encode(s)) == Encode(s)
  {
    if |s| >= 3 {
      EncodedHasNoLineEnd(s[3..]);
      StripFour(Encode(s)[..4], Encode(s[3..]));
      assert Encode(s) == Encode(s)[..4] + Encode(s[3..]);
    } else if s != [] {
      StripFour(Encode(s), []);
      assert Encode(s) == Encode(s) + [];
    }
  }

  lemma StripFour(head: bytes, tail: bytes)
    requires |head| == 4 && forall i :: 0 <= i < 4 ==> !LineEnd(head[i])
    ensures Strip(head + tail) == head + Strip(tail)
  {
    var t := head + tail;
    assert t[1..] == head[1..] + tail && t[1..][1..] == head[2..] + tail;
    assert t[1..][1..][1..] == head[3..] + tail && t[1..][1..][1..][1..] == tail;
    assert Strip(t[1..][1..][1..]) == [head[3]] + Strip(tail);
    assert Strip(t[1..][1..]) == [head[2]] + ([head[3]] + Strip(tail));
    assert head == [head[0], head[1], head[2], head[3]];
  }

  lemma GroupsCons(head: bytes, tail: bytes)
    requires |head| == 4 && Group(head, tail == []).Some? && Groups(tail).Some?
    ensures Groups(head + tail) == Some(Group(head, tail == []).value + Groups(tail).value)
  {
    assert (head + tail)[..4] == head && (head + tail)[4..] == tail;
  }

  lemma {:induction false} GroupsReadBack(s: bytes)
    ensures Groups(Encode(s)) == Some(s)
  {
    if |s| >= 3 {
      GroupsReadBack(s[3..]);
      var head := [Symbol(First(s[0])), Symbol(Second(s[0], s[1])), Symbol(Third(s[1], s[2])), Symbol(Fourth(s[2]))];
      WholeGroup(First(s[0]), Second(s[0], s[1]), Third(s[1], s[2]), Fourth(s[2]), Encode(s[3..]) == []);
      Recut(s[0], s[1], s[2]);
      GroupsCons(head, Encode(s[3..]));
      assert s == [s[0], s[1], s[2]] + s[3..];
    } else if s != [] {
      LastGroupReadsBack(s);
      GroupsCons(Encode(s), []);
      assert Encode(s) + [] == Encode(s);
      assert s + [] == s;
    }
  }

  lemma LastGroupReadsBack(s: bytes)
    requires 1 <= |s| <= 2
    ensures |Encode(s)| == 4 && Group(Encode(s), true) == Some(s)
  {
    if |s| == 1 {
      assert s == [s[0]];
      LastOne(s[0], 0);
    } else {
      assert s == [s[0], s[1]];
      LastTwo(s[0], s[1], 0);
    }
  }

  lemma LastOne(a: byte, zero: byte)
    requires zero == 0
    ensures Group(Encode([a]), true) == Some([a])
  {
    var p, q := First(a), Second(a, zero);
    assert Encode([a]) == [Symbol(p), Symbol(q), PAD, PAD];
    OneInGroup(p, q);
    Recut(a, zero, zero);
  }

  lemma LastTwo(a: byte, b: byte, zero: byte)
    requires zero == 0
    ensures Group(Encode([a, b]), true) == Some([a, b])
  {
    var p, q, r := First(a), Second(a, b), Third(b, zero);
    assert Encode([a, b]) == [Symbol(p), Symbol(q), Symbol(r), PAD];
    TwoInGroup(p, q, r);
    Recut(a, b, zero);
  }

  /** Every byte string reads back. */
  lemma DecodeEncode(s: bytes)
    ensures Decode(Encode(s)) == Some(s)
  {
    EncodedHasNoLineEnd(s);
    GroupsReadBack(s);
  }
}

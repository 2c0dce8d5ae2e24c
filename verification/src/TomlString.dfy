/** The escaper that `feedEnvs` applies to inserted values, and the reader it is
    meant for: the basic string of TOML v1.0.0 (section "String"). */
module TomlString {
  import opened Bytes

  const QUOTE: byte := 0x22
  const BACKSLASH: byte := 0x5C

  /** The two single-byte rules of envVarEscaper. */
  function EscapeByte(b: byte): bytes {
    if b == QUOTE then [BACKSLASH, QUOTE]
    else if b == BACKSLASH then [BACKSLASH, BACKSLASH]
    else [b]
  }

  function Escape(v: bytes): (r: bytes)
    ensures v == [] <==> r == []
    ensures v != [] ==> r[0] == if v[0] == QUOTE then BACKSLASH else v[0]
  {
    if v == [] then [] else EscapeByte(v[0]) + Escape(v[1..])
  }

  /** Control characters that a basic string may not hold unescaped: all but tab. */
  predicate Control(b: byte) {
    b <= 0x08 || 0x0A <= b <= 0x1F || b == 0x7F
  }

  /** The compact escape sequences. */
  function Unescaped(b: byte): Option<byte> {
    if b == QUOTE || b == BACKSLASH then Some(b)
    else if b == 'b' as int then Some(0x08)
    else if b == 't' as int then Some(0x09)
    else if b == 'n' as int then Some(0x0A)
    else if b == 'f' as int then Some(0x0C)
    else if b == 'r' as int then Some(0x0D)
    else None
  }

  /** A basic string and the text that follows its closing quotation mark. */
  datatype Parsed = Parsed(value: bytes, rest: bytes)

  /** Reads a basic string whose opening quotation mark has been consumed. */
  function ReadBasic(s: bytes): (r: Option<Parsed>) {
    if s == [] then None
    else if s[0] == QUOTE then Some(Parsed([], s[1..]))
    else if s[0] == BACKSLASH then
      if |s| < 2 || Unescaped(s[1]).None? then None
      else Prepend(Unescaped(s[1]).value, ReadBasic(s[2..]))
    else if Control(s[0]) then None
    else Prepend(s[0], ReadBasic(s[1..]))
  }

  function Prepend(b: byte, p: Option<Parsed>): Option<Parsed> {
    match p
    case None => None
    case Some(q) => Some(Parsed([b] + q.value, q.rest))
  }

  predicate NoControl(v: bytes) {
    forall i :: 0 <= i < |v| ==> !Control(v[i])
  }

  lemma ReadEscapedByte(b: byte, tail: bytes)
    ensures ReadBasic(EscapeByte(b) + tail) == if Control(b) then None else Prepend(b, ReadBasic(tail))
  {
    var s := EscapeByte(b) + tail;
    if b == QUOTE || b == BACKSLASH {
      assert s[2..] == tail;
    } else {
      assert s[1..] == tail;
    }
  }

  lemma NoControlCons(v: bytes)
    requires v != []
    ensures NoControl(v) <==> !Control(v[0]) && NoControl(v[1..])
  {
    assert forall i :: 0 < i < |v| ==> v[i] == v[1..][i - 1];
  }

  /** An escaped value between quotation marks reads back as the value, and what
      follows the literal is untouched, exactly when it has no control character. */
  lemma {:induction false} EscapeRoundTrip(v: bytes, rest: bytes)
    ensures ReadBasic(Escape(v) + ([QUOTE] + rest)) == if NoControl(v) then Some(Parsed(v, rest)) else None
  {
    if v == [] {
      assert Escape(v) + ([QUOTE] + rest) == [QUOTE] + rest;
      assert ([QUOTE] + rest)[1..] == rest;
    } else {
      var tail := Escape(v[1..]) + ([QUOTE] + rest);
      assert Escape(v) + ([QUOTE] + rest) == EscapeByte(v[0]) + tail;
      ReadEscapedByte(v[0], tail);
      EscapeRoundTrip(v[1..], rest);
      NoControlCons(v);
      assert v == [v[0]] + v[1..];
    }
  }

  /** Length of the run of backslashes that ends just before offset `i`. */
  function SlashRun(s: bytes, i: nat): nat
    requires i <= |s|
  {
    if i > 0 && s[i - 1] == BACKSLASH then 1 + SlashRun(s, i - 1) else 0
  }

  lemma {:induction false} SlashRunShift(p: bytes, s: bytes, i: nat)
    requires i <= |s|
    requires p == [] || p[|p| - 1] != BACKSLASH || SlashRun(p, |p|) % 2 == 0
    ensures SlashRun(p + s, |p| + i) % 2 == SlashRun(s, i) % 2
  {
    if i == 0 {
      SlashRunPrefix(p, s, |p|);
    } else if s[i - 1] == BACKSLASH {
      SlashRunShift(p, s, i - 1);
    }
  }

  lemma {:induction false} SlashRunPrefix(p: bytes, s: bytes, i: nat)
    requires i <= |p|
    ensures SlashRun(p + s, i) == SlashRun(p, i)
  {
    if i > 0 && p[i - 1] == BACKSLASH {
      SlashRunPrefix(p, s, i - 1);
    }
  }

  /** Every quotation mark of an escaped value follows an odd run of backslashes, and
      the value ends with an even one: the literal never ends early. */
  lemma {:induction false} QuotesAreEscaped(v: bytes)
    ensures forall i :: 0 <= i < |Escape(v)| && Escape(v)[i] == QUOTE ==> SlashRun(Escape(v), i) % 2 == 1
    ensures SlashRun(Escape(v), |Escape(v)|) % 2 == 0
  {
    if v != [] {
      QuotesAreEscaped(v[1..]);
      var t := Escape(v[1..]);
      var p := EscapeByte(v[0]);
      assert SlashRun(p, 0) == 0;
      assert SlashRun(p, 1) == if p[0] == BACKSLASH then 1 else 0;
      SlashRunShift(p, t, |t|);
      forall i | 0 <= i < |Escape(v)| && Escape(v)[i] == QUOTE
        ensures SlashRun(Escape(v), i) % 2 == 1
      {
        if i < |p| {
          assert p == [BACKSLASH, QUOTE] && i == 1;
          SlashRunPrefix(p, t, 1);
        } else {
          SlashRunShift(p, t, i - |p|);
        }
      }
    }
  }
}

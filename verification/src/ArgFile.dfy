/** The file in which the rewriter hands new launch parameters to the launcher.

    `marshal` (Go) writes a path, arguments and environment as three groups: a count, the
    strings, and a group separator, each followed by a record separator. `read_args` (C)
    reads a group into an array that it allocates from the count. */
module ArgFile {
  import opened Bytes

  const RS: byte := 0x1E
  const GS: byte := 0x1D
  const NUL: byte := 0
  const INT_MAX: int := 0x7FFF_FFFF

  // ------------------------------------------------------------------------------
  // Numbers
  // ------------------------------------------------------------------------------

  predicate Digit(b: byte) { '0' as int <= b <= '9' as int }

  predicate Space(b: byte) { b == ' ' as int || 0x09 <= b <= 0x0D }

  /** strconv.Itoa for a length. */
  function Itoa(n: nat): (r: bytes)
    ensures r != [] && forall i :: 0 <= i < |r| ==> Digit(r[i])
  {
    if n < 10 then ['0' as int + n] else Itoa(n / 10) + ['0' as int + n % 10]
  }

  /** The digits at the beginning of `b`, read after `acc`. */
  function Value(b: bytes, acc: int): int {
    if b == [] || !Digit(b[0]) then acc else Value(b[1..], acc * 10 + (b[0] - '0' as int))
  }

  function SkipSpace(b: bytes): bytes {
    if b != [] && Space(b[0]) then SkipSpace(b[1..]) else b
  }

  function Clamp64(n: int): int {
    if n > 0x7FFF_FFFF_FFFF_FFFF then 0x7FFF_FFFF_FFFF_FFFF
    else if n < -0x8000_0000_0000_0000 then -0x8000_0000_0000_0000
    else n
  }

  function Wrap32(n: int): (r: int)
    ensures -INT_MAX - 1 <= r <= INT_MAX
    ensures -INT_MAX - 1 <= n <= INT_MAX ==> r == n
  {
    (n + 0x8000_0000) % 0x1_0000_0000 - 0x8000_0000
  }

  /** atoi, as the strtol it is defined by, cut to an int. */
  function Atoi(b: bytes): (r: int)
    ensures -INT_MAX - 1 <= r <= INT_MAX
  {
    var t := SkipSpace(b);
    Wrap32(Clamp64(
      if t != [] && t[0] == '-' as int then -Value(t[1..], 0)
      else if t != [] && t[0] == '+' as int then Value(t[1..], 0)
      else Value(t, 0)))
  }

  lemma {:induction false} ValueOfItoa(n: nat, t: bytes)
    ensures Value(Itoa(n) + t, 0) == Value(t, n)
  {
    var d := n % 10;
    var s: bytes := ['0' as int + d] + t;
    assert s[1..] == t;
    if n < 10 {
      assert Itoa(n) + t == s;
    } else {
      assert Itoa(n) + t == Itoa(n / 10) + s;
      ValueOfItoa(n / 10, s);
    }
  }

  lemma AtoiOfItoa(n: nat)
    requires n <= INT_MAX
    ensures Atoi(Itoa(n)) == n
  {
    ValueOfItoa(n, []);
    assert Itoa(n) + [] == Itoa(n);
    assert SkipSpace(Itoa(n)) == Itoa(n);
  }

  predicate Spaces(b: bytes) { forall i :: 0 <= i < |b| ==> Space(b[i]) }

  /** Behind any white space the digits count, up to the first byte that is none. */
  lemma AtoiOfDigits(spaces: bytes, n: nat, rest: bytes)
    requires Spaces(spaces) && n <= INT_MAX && (rest != [] ==> !Digit(rest[0]))
    ensures Atoi(spaces + (Itoa(n) + rest)) == n
  {
    ValueOfItoa(n, rest);
    AtoiSkips(spaces, Itoa(n) + rest);
  }

  /** A sign before them counts as well. */
  lemma AtoiOfSigned(spaces: bytes, minus: bool, n: nat, rest: bytes)
    requires Spaces(spaces) && n <= INT_MAX && (rest != [] ==> !Digit(rest[0]))
    ensures Atoi(spaces + ([if minus then '-' as int else '+' as int] + (Itoa(n) + rest))) == if minus then 0 - n else n
  {
    var t := [if minus then '-' as int else '+' as int] + (Itoa(n) + rest);
    assert t[1..] == Itoa(n) + rest;
    ValueOfItoa(n, rest);
    AtoiSkips(spaces, t);
  }

  /** What starts with neither is 0. */
  lemma AtoiOfOther(spaces: bytes, t: bytes)
    requires Spaces(spaces)
    requires t != [] ==> !Space(t[0]) && !Digit(t[0]) && t[0] != '+' as int && t[0] != '-' as int
    ensures Atoi(spaces + t) == 0
  {
    AtoiSkips(spaces, t);
  }

  lemma {:induction false} AtoiSkips(spaces: bytes, t: bytes)
    requires Spaces(spaces)
    ensures SkipSpace(spaces + t) == SkipSpace(t)
    ensures t != [] && !Space(t[0]) ==> SkipSpace(spaces + t) == t
  {
    if spaces == [] {
      assert spaces + t == t;
    } else {
      assert (spaces + t)[1..] == spaces[1..] + t;
      AtoiSkips(spaces[1..], t);
    }
  }

  // ------------------------------------------------------------------------------
  // Writing
  // ------------------------------------------------------------------------------

  function Strings(args: seq<bytes>): bytes {
    if args == [] then [] else args[0] + [RS] + Strings(args[1..])
  }

  function Group(args: seq<bytes>): bytes {
    Itoa(|args|) + [RS] + (Strings(args) + [GS, RS])
  }

  /** The rewriter's marshal. */
  method Marshal(path: bytes, args: seq<bytes>, envp: seq<bytes>) returns (s: bytes)
    ensures s == Group([path]) + Group(args) + Group(envp)
  {
    s := ['1' as int, RS];
    s := s + path + [RS];
    s := s + [GS, RS];
    assert Itoa(1) == ['1' as int];
    assert Strings([path]) == path + [RS] + Strings([path][1..]);
    assert s == Group([path]);
    s := AppendGroup(s, args);
    s := AppendGroup(s, envp);
  }

  method AppendGroup(before: bytes, args: seq<bytes>) returns (s: bytes)
    ensures s == before + Group(args)
  {
    s := before + Itoa(|args|) + [RS];
    var i := 0;
    while i < |args|
      invariant 0 <= i <= |args|
      invariant s + Strings(args[i..]) == before + Itoa(|args|) + [RS] + Strings(args)
    {
      assert args[i..][1..] == args[i + 1..];
      assert s + Strings(args[i..]) == (s + args[i] + [RS]) + Strings(args[i + 1..]);
      s := s + args[i] + [RS];
      i := i + 1;
    }
    assert args[i..] == [];
    assert s + [] == s;
    s := s + [GS, RS];
  }

  // ------------------------------------------------------------------------------
  // Reading
  // ------------------------------------------------------------------------------

  /** getdelim: the bytes up to and including the next separator, or up to the end. */
  function Record(s: bytes): (r: bytes)
    ensures r <= s && (s != [] ==> r != [])
  {
    if s == [] then [] else if s[0] == RS then [RS] else [s[0]] + Record(s[1..])
  }

  /** A C string ends at the first NUL. */
  function CString(b: bytes): (r: bytes)
    ensures r <= b && NUL !in r
    ensures r == b <==> NUL !in b
  {
    if b == [] || b[0] == NUL then [] else [b[0]] + CString(b[1..])
  }

  /** The string that remains when the last byte of a record is overwritten with NUL. */
  function Content(rec: bytes): bytes
    requires rec != []
  {
    CString(rec[..|rec| - 1])
  }

  /** read_args returns NULL or an array of pointers, which are NULL or strings. */
  datatype Args = Null | Slots(s: seq<Option<bytes>>)

  /** malloc and memset of one slot more than the count; a size beyond `limit` slots or a
      negative one, which becomes huge as a size_t, cannot be allocated. */
  function Allocate(count: int, limit: nat): (r: Args)
    requires -INT_MAX - 1 <= count <= INT_MAX
    ensures r.Slots? ==> |r.s| == count + 1 && forall i :: 0 <= i < |r.s| ==> r.s[i].None?
    ensures r.Slots? <==> -1 <= count < INT_MAX && count + 1 <= limit
  {
    var n := Wrap32(count + 1);
    if n < 0 || n > limit then Null else Slots(seq(n, _ => None))
  }

  /** The loop of read_args from line `ln` on; the answer and the unread input. */
  function Lines(s: bytes, ln: nat, count: int, arr: seq<Option<bytes>>): (r: (Args, bytes))
    requires 1 <= ln && |arr| == count + 1
    ensures r.0.Slots? ==> |r.0.s| == |arr|
    ensures r.0.Slots? && |arr| > 0 && arr[|arr| - 1].None? ==> r.0.s[|arr| - 1].None?
    decreases |s|
  {
    var rec := Record(s);
    var rest := s[|rec|..];
    if s == [] || rec == [GS, RS] then (Slots(arr), rest)
    else if ln > count then (Null, rest)
    else Lines(rest, ln + 1, count, arr[ln - 1 := Some(Content(rec))])
  }

  /** read_args from the count on. */
  function Counted(s: bytes, count: int, limit: nat): (r: (Args, bytes))
    requires -INT_MAX - 1 <= count <= INT_MAX
    ensures r.0.Slots? ==> |r.0.s| == count + 1 && (count >= 0 ==> r.0.s[count].None?)
  {
    match Allocate(count, limit)
    case Null => (Null, s)
    case Slots(arr) => Lines(s, 1, count, arr)
  }

  function ReadArgs(s: bytes, limit: nat): (r: (Args, bytes)) {
    var rec := Record(s);
    var rest := s[|rec|..];
    if s == [] || rec == [GS, RS] then (Null, rest) else Counted(rest, Atoi(Content(rec)), limit)
  }

  /** Whatever the file holds, the array that is returned has one slot more than the
      count; its last slot is NULL, unless the count was -1 and there is no slot at all. */
  lemma AlwaysTerminated(s: bytes, limit: nat)
    requires ReadArgs(s, limit).0.Slots?
    ensures s != []
    ensures
      var slots := ReadArgs(s, limit).0.s;
      var count := Atoi(Content(Record(s)));
      && |slots| == count + 1
      && (slots != [] ==> slots[|slots| - 1].None?)
      && (slots == [] <==> count == -1)
  {
    var rec := Record(s);
    var count := Atoi(Content(rec));
    assert ReadArgs(s, limit) == Counted(s[|rec|..], count, limit);
  }

  class File {
    var unread: bytes

    constructor (content: bytes)
      ensures unread == content
    {
      unread := content;
    }

    /** read_rewrite_record; None at the end of the file. */
    method ReadRecord() returns (line: Option<bytes>)
      modifies this
      ensures line.None? <==> old(unread) == []
      ensures line.Some? ==> line.value == Record(old(unread))
      ensures unread == old(unread)[|Record(old(unread))|..]
    {
      if unread == [] {
        return None;
      }
      var rec := Record(unread);
      unread := unread[|rec|..];
      return Some(rec);
    }

    /** read_args, writing the array slot by slot. Every store is within its bounds. */
    method Read(limit: nat) returns (ok: bool, arr: array<Option<bytes>>)
      modifies this
      ensures fresh(arr)
      ensures ReadArgs(old(unread), limit).1 == unread
      ensures ok <==> ReadArgs(old(unread), limit).0.Slots?
      ensures ok ==> ReadArgs(old(unread), limit).0 == Slots(arr[..])
    {
      ok, arr := false, new Option<bytes>[0];
      var line := ReadRecord();
      if line.None? || line.value == [GS, RS] {
        return;
      }
      var total := Atoi(Content(line.value));
      ghost var slots := Allocate(total, limit);
      var size := Wrap32(total + 1);
      if size < 0 || size > limit {
        return;
      }
      arr := new Option<bytes>[size](_ => None);
      assert arr[..] == slots.s;
      var ln := 1;
      while true
        invariant 1 <= ln && arr.Length == total + 1 && fresh(arr)
        invariant Lines(unread, ln, total, arr[..]) == ReadArgs(old(unread), limit)
        decreases |unread|
      {
        line := ReadRecord();
        if line.None? || line.value == [GS, RS] {
          return true, arr;
        }
        if ln > total {
          return false, arr;
        }
        ghost var before := arr[..];
        arr[ln - 1] := Some(Content(line.value));
        assert arr[..] == before[ln - 1 := Some(Content(line.value))];
        ln := ln + 1;
      }
    }
  }

  // ------------------------------------------------------------------------------
  // Reading what was written
  // ------------------------------------------------------------------------------

  /** Strings that survive: no separator, no NUL, and not a lone group separator. */
  predicate Clean(a: bytes) { RS !in a && NUL !in a && a != [GS] }

  predicate AllClean(args: seq<bytes>) { forall i :: 0 <= i < |args| ==> Clean(args[i]) }

  /** An array for `n` strings of which the first `k` have been stored. */
  function Padded(args: seq<bytes>, k: nat, n: nat): (r: seq<Option<bytes>>)
    requires k <= |args| && k <= n
    ensures |r| == n + 1
  {
    seq(n + 1, i requires 0 <= i <= n => if i < k then Some(args[i]) else None)
  }

  /** Clean strings and then a group separator, or the end of the file: they fill the
      first slots if the count allows for them, and are refused otherwise. */
  lemma {:induction false} LinesCounted(args: seq<bytes>, k: nat, n: nat, tail: bytes)
    requires AllClean(args) && k <= |args| && k <= n && (tail == [] || Record(tail) == [GS, RS])
    ensures
      var r := Lines(Strings(args[k..]) + tail, k + 1, n, Padded(args, k, n));
      if |args| <= n then r == (Slots(Padded(args, |args|, n)), tail[|Record(tail)|..]) else r.0 == Null
    decreases |args| - k
  {
    if k == |args| {
      assert Strings(args[k..]) + tail == tail;
    } else {
      var t := Strings(args[k + 1..]) + tail;
      assert args[k..][1..] == args[k + 1..];
      assert Strings(args[k..]) + tail == args[k] + ([RS] + t);
      CleanRecord(args[k], t);
      if k < n {
        assert Padded(args, k, n)[k := Some(args[k])] == Padded(args, k + 1, n);
        LinesCounted(args, k + 1, n, tail);
      }
    }
  }

  /** What is read of a count and clean strings, whether or not the count fits: as many
      slots as the count says and one more, the strings in the first of them; nothing if
      there are more strings than the count says. */
  lemma CountDecides(count: bytes, args: seq<bytes>, tail: bytes, limit: nat)
    requires Clean(count) && AllClean(args) && (tail == [] || Record(tail) == [GS, RS])
    requires 0 <= Atoi(count) < INT_MAX && Atoi(count) + 1 <= limit
    ensures
      var n := Atoi(count);
      var r := ReadArgs(count + ([RS] + (Strings(args) + tail)), limit);
      if |args| <= n then r == (Slots(Padded(args, |args|, n)), tail[|Record(tail)|..]) else r.0 == Null
  {
    CleanRecord(count, Strings(args) + tail);
    CountedDecides(Atoi(count), args, tail, limit);
  }

  lemma CountedDecides(n: nat, args: seq<bytes>, tail: bytes, limit: nat)
    requires AllClean(args) && (tail == [] || Record(tail) == [GS, RS]) && n < INT_MAX && n + 1 <= limit
    ensures
      var r := Counted(Strings(args) + tail, n, limit);
      if |args| <= n then r == (Slots(Padded(args, |args|, n)), tail[|Record(tail)|..]) else r.0 == Null
  {
    assert args[0..] == args;
    LinesCounted(args, 0, n, tail);
    assert Allocate(n, limit).s == Padded(args, 0, n);
  }

  /** The array when the first `k` of the strings have been stored. */
  function Filled(args: seq<bytes>, k: nat): (r: seq<Option<bytes>>)
    requires k <= |args|
    ensures |r| == |args| + 1
  {
    seq(|args| + 1, i requires 0 <= i <= |args| => if i < k then Some(args[i]) else None)
  }

  lemma {:induction false} RecordOf(x: bytes, t: bytes)
    requires RS !in x
    ensures Record(x + ([RS] + t)) == x + [RS]
  {
    if x == [] {
      assert x + ([RS] + t) == [RS] + t;
    } else {
      assert (x + ([RS] + t))[1..] == x[1..] + ([RS] + t);
      RecordOf(x[1..], t);
    }
  }

  lemma {:induction false} RecordHoldsNoSeparator(s: bytes)
    requires s != []
    ensures RS !in Record(s)[..|Record(s)| - 1]
  {
    if s[0] != RS && s[1..] != [] {
      RecordHoldsNoSeparator(s[1..]);
      var r := Record(s[1..]);
      assert Record(s)[..|Record(s)| - 1] == [s[0]] + r[..|r| - 1];
    }
  }

  /** An unclean string does not come back as itself. */
  lemma UncleanRecord(a: bytes, t: bytes)
    requires !Clean(a)
    ensures var rec := Record(a + ([RS] + t)); rec == [GS, RS] || Content(rec) != a
  {
    var s := a + ([RS] + t);
    if RS in a {
      RecordHoldsNoSeparator(s);
    } else {
      RecordOf(a, t);
      assert (a + [RS])[..|a|] == a;
    }
  }

  lemma CleanRecord(a: bytes, t: bytes)
    requires Clean(a)
    ensures
      var s := a + ([RS] + t);
      var rec := Record(s);
      rec != [GS, RS] && Content(rec) == a && s[|rec|..] == t
  {
    RecordOf(a, t);
    assert (a + [RS])[..|a|] == a;
    assert a + ([RS] + t) == (a + [RS]) + t;
    assert a + [RS] == [GS, RS] ==> a == [GS];
  }

  /** Slots below the current line are not written again. */
  lemma {:induction false} LinesKeepSlot(s: bytes, ln: nat, count: int, arr: seq<Option<bytes>>, j: nat)
    requires 1 <= ln && |arr| == count + 1 && j < ln - 1 && j < |arr|
    ensures Lines(s, ln, count, arr).0.Slots? ==> Lines(s, ln, count, arr).0.s[j] == arr[j]
    decreases |s|
  {
    var rec := Record(s);
    if s != [] && rec != [GS, RS] && ln <= count {
      var arr' := arr[ln - 1 := Some(Content(rec))];
      assert arr'[j] == arr[j];
      LinesKeepSlot(s[|rec|..], ln + 1, count, arr', j);
    }
  }

  function Tail(args: seq<bytes>, k: nat, rest: bytes): bytes
    requires k <= |args|
  {
    Strings(args[k..]) + ([GS, RS] + rest)
  }

  lemma TailStep(args: seq<bytes>, k: nat, rest: bytes)
    requires k < |args|
    ensures Tail(args, k, rest) == args[k] + ([RS] + Tail(args, k + 1, rest))
  {
    assert args[k..][1..] == args[k + 1..];
  }

  lemma TailEnd(args: seq<bytes>, rest: bytes)
    ensures
      var s := Tail(args, |args|, rest);
      s != [] && Record(s) == [GS, RS] && s[2..] == rest
  {
    var s := Tail(args, |args|, rest);
    assert args[|args|..] == [];
    assert s == [GS] + ([RS] + rest);
    RecordOf([GS], rest);
  }

  lemma {:induction false} LinesExactly(args: seq<bytes>, k: nat, rest: bytes)
    requires k <= |args|
    requires forall i :: 0 <= i < k ==> Clean(args[i])
    ensures
      var r := Lines(Tail(args, k, rest), k + 1, |args|, Filled(args, k));
      && (AllClean(args) ==> r == (Slots(Filled(args, |args|)), rest))
      && (!AllClean(args) ==> r.0 != Slots(Filled(args, |args|)))
    decreases |args| - k
  {
    var s := Tail(args, k, rest);
    if k == |args| {
      TailEnd(args, rest);
    } else {
      var t := Tail(args, k + 1, rest);
      TailStep(args, k, rest);
      var rec := Record(s);
      if Clean(args[k]) {
        CleanRecord(args[k], t);
        assert Filled(args, k)[k := Some(args[k])] == Filled(args, k + 1);
        LinesExactly(args, k + 1, rest);
      } else {
        UncleanRecord(args[k], t);
        LinesUnclean(args, k, s);
      }
    }
  }

  lemma LinesUnclean(args: seq<bytes>, k: nat, s: bytes)
    requires k < |args| && s != [] && (Record(s) == [GS, RS] || Content(Record(s)) != args[k])
    ensures Lines(s, k + 1, |args|, Filled(args, k)).0 != Slots(Filled(args, |args|))
  {
    var rec := Record(s);
    assert Filled(args, |args|)[k] == Some(args[k]) && Filled(args, k)[k] == None;
    if rec != [GS, RS] {
      LinesKeepSlot(s[|rec|..], k + 2, |args|, Filled(args, k)[k := Some(Content(rec))], k);
    }
  }

  /** A written group reads back exactly when all its strings are clean; the reader then
      stands right behind it. */
  lemma GroupReadsBackExactly(args: seq<bytes>, rest: bytes, limit: nat)
    requires |args| < INT_MAX && |args| + 1 <= limit
    ensures ReadArgs(Group(args) + rest, limit).0 == Slots(Filled(args, |args|)) <==> AllClean(args)
    ensures AllClean(args) ==> ReadArgs(Group(args) + rest, limit).1 == rest
  {
    var n := Itoa(|args|);
    var tail := Tail(args, 0, rest);
    assert args[0..] == args;
    var s := Group(args) + rest;
    assert s == n + ([RS] + tail);
    NumberIsClean(|args|);
    CleanRecord(n, tail);
    AtoiOfItoa(|args|);
    assert Allocate(|args|, limit).s == Filled(args, 0);
    LinesExactly(args, 0, rest);
  }

  lemma NumberIsClean(n: nat)
    ensures Clean(Itoa(n))
  {
    assert Itoa(n) == [GS] ==> !Digit(Itoa(n)[0]);
  }

  /** The strings of an array up to the first NULL. */
  function ListOf(slots: seq<Option<bytes>>): seq<bytes> {
    if slots == [] || slots[0].None? then [] else [slots[0].value] + ListOf(slots[1..])
  }

  lemma {:induction false} ListOfFilled(args: seq<bytes>)
    ensures ListOf(Filled(args, |args|)) == args
  {
    if args != [] {
      ListOfFilled(args[1..]);
      assert Filled(args, |args|)[1..] == Filled(args[1..], |args| - 1);
    }
  }

  /** The parameters for the new image, or None when the original call is made. */
  datatype Launch = Launch(path: seq<bytes>, argv: seq<bytes>, envp: seq<bytes>)

  /** The three-group loop of execve. An array without slots has no first element to
      look at; it is taken for one that starts with NULL. */
  function ReadLaunch(s: bytes, limit: nat): Option<Launch> {
    var (a, s1) := ReadArgs(s, limit);
    if a.Null? || ListOf(a.s) == [] then None
    else
      var (b, s2) := ReadArgs(s1, limit);
      if b.Null? then None
      else
        var (c, _) := ReadArgs(s2, limit);
        if c.Null? then None else Some(Launch(ListOf(a.s), ListOf(b.s), ListOf(c.s)))
  }

  /** The launcher gives up, and starts the program as it was asked to, exactly if one of
      the three groups cannot be read or the first one has no string to start with. */
  lemma LaunchGivesUpExactly(s: bytes, limit: nat)
    ensures
      var a := ReadArgs(s, limit);
      var b := ReadArgs(a.1, limit);
      var c := ReadArgs(b.1, limit);
      ReadLaunch(s, limit) == None <==> a.0.Null? || a.0.s == [] || a.0.s[0].None? || b.0.Null? || c.0.Null?
  {
    var a := ReadArgs(s, limit);
    if a.0.Slots? {
      ListOfNone(a.0.s);
    }
  }

  lemma ListOfNone(slots: seq<Option<bytes>>)
    ensures ListOf(slots) == [] <==> slots == [] || slots[0].None?
  {
  }

  /** What the rewriter marshals is what the launcher executes. */
  lemma LaunchReadsBack(path: bytes, args: seq<bytes>, envp: seq<bytes>, limit: nat)
    requires |args| < INT_MAX && |envp| < INT_MAX && limit >= 2 && limit > |args| && limit > |envp|
    requires Clean(path) && AllClean(args) && AllClean(envp)
    ensures ReadLaunch(Group([path]) + Group(args) + Group(envp), limit) == Some(Launch([path], args, envp))
  {
    var s := Group([path]) + Group(args) + Group(envp);
    assert s == Group([path]) + (Group(args) + Group(envp));
    GroupReadsBackExactly([path], Group(args) + Group(envp), limit);
    GroupReadsBackExactly(args, Group(envp), limit);
    GroupReadsBackExactly(envp, [], limit);
    assert Group(envp) + [] == Group(envp);
    ListOfFilled([path]);
    ListOfFilled(args);
    ListOfFilled(envp);
  }
}

/** The heartbeat loop of the DCA client and its back-off. */
module Heartbeat {

  const LIMIT: int := 1000
  const RESTART_AT: int := 10

  /** What a round finds: the connection answers; it does not but a new one is made; or
      no new one can be made. */
  datatype Outcome = Alive | Reconnected | Failed

  function Pow2(n: nat): nat { if n == 0 then 1 else 2 * Pow2(n - 1) }

  /** math.Log2 cut to an integer. */
  function Log2(n: int): (k: nat)
    requires n >= 1
    ensures Pow2(k) <= n < Pow2(k + 1)
  {
    if n == 1 then 0 else 1 + Log2(n / 2)
  }

  /** `factor` is the multiple of the heartbeat interval that the ticker runs at. */
  datatype State = State(failCount: int, factor: nat)

  const Start := State(0, 1)

  /** The failure count at the moment the ticker may be reset. */
  function Counted(s: State, o: Outcome): int {
    match o
    case Alive => s.failCount
    case Reconnected => 0
    case Failed => s.failCount + 1
  }

  /** One round of the loop. */
  function Round(s: State, o: Outcome): State
    requires s.failCount >= 0
  {
    var n := Counted(s, o);
    State(if n > LIMIT then RESTART_AT else n, if n > 0 then Log2(2 + n) else s.factor)
  }

  function After(s: State, os: seq<Outcome>): (r: State)
    requires 0 <= s.failCount <= LIMIT
    ensures 0 <= r.failCount <= LIMIT
  {
    if os == [] then s else Round(After(s, os[..|os| - 1]), os[|os| - 1])
  }

  class Client {
    var failCount: int
    var factor: nat

    /** The loop, over the outcomes of its rounds. */
    method Heartbeat(os: seq<Outcome>)
      requires 0 <= failCount <= LIMIT
      modifies this
      ensures State(failCount, factor) == After(old(State(failCount, factor)), os)
    {
      var i := 0;
      while i < |os|
        invariant 0 <= i <= |os| && 0 <= failCount <= LIMIT
        invariant State(failCount, factor) == After(old(State(failCount, factor)), os[..i])
      {
        assert os[..i + 1][..i] == os[..i];
        match os[i] {
          case Alive =>
          case Reconnected => failCount := 0;
          case Failed => failCount := failCount + 1;
        }
        if failCount > 0 {
          factor := Log2(2 + failCount);
        }
        if failCount > LIMIT {
          failCount := RESTART_AT;
        }
        i := i + 1;
      }
      assert os[..i] == os;
    }
  }

  lemma PowersUpTo1024()
    ensures Pow2(0) == 1 && Pow2(1) == 2 && Pow2(2) == 4 && Pow2(9) == 512 && Pow2(10) == 1024
  {
    assert Pow2(4) == 16;
    assert Pow2(7) == 8 * Pow2(4);
  }

  lemma {:induction false} Pow2Grows(a: nat, b: nat)
    requires a <= b
    ensures Pow2(a) <= Pow2(b)
  {
    if a < b {
      Pow2Grows(a, b - 1);
    }
  }

  lemma Pow2Below(a: nat, b: nat, x: int)
    requires Pow2(a) <= x < Pow2(b)
    ensures a < b
  {
    if b <= a {
      Pow2Grows(b, a);
    }
  }

  /** In every run the count stays between 0 and 1001, and a reset of the ticker uses a
      factor k between 1 and 9 with 2^k <= 2 + count < 2^(k+1). */
  lemma FactorOfEveryRun(os: seq<Outcome>, o: Outcome)
    ensures
      var s := After(Start, os);
      var n := Counted(s, o);
      && 0 <= n <= LIMIT + 1
      && (n > 0 ==>
            var k := Round(s, o).factor;
            1 <= k <= 9 && Pow2(k) <= 2 + n < Pow2(k + 1))
  {
    var n := Counted(After(Start, os), o);
    if n > 0 {
      var k := Log2(2 + n);
      PowersUpTo1024();
      Pow2Below(k, 10, 2 + n);
      Pow2Below(1, k + 1, 2 + n);
    }
  }

  lemma {:induction false} Log2Grows(m: int, n: int)
    requires 1 <= m <= n
    ensures Log2(m) <= Log2(n)
  {
    if Log2(m) > Log2(n) {
      Pow2Grows(Log2(n) + 1, Log2(m));
    }
  }

  lemma TwoFailures(s: State)
    requires 0 <= s.failCount <= LIMIT
    ensures Round(s, Failed).failCount >= 0
    ensures s.failCount < LIMIT ==> Round(s, Failed).factor <= Round(Round(s, Failed), Failed).factor
  {
    var n := s.failCount + 1;
    var factor := Log2(2 + n);
    assert Round(s, Failed) == State(if n > LIMIT then RESTART_AT else n, factor);
    if n <= LIMIT {
      Log2Grows(2 + n, 2 + (n + 1));
      assert Round(State(n, factor), Failed).factor == Log2(2 + (n + 1));
    }
  }

  /** Within a streak of failures the factor falls only when the count was cut from 1001
      to 10 in the round before. */
  lemma FactorFallsOnlyAtCut(os: seq<Outcome>)
    ensures
      var first := Round(After(Start, os), Failed);
      var second := Round(first, Failed);
      second.factor < first.factor ==> Counted(After(Start, os), Failed) == LIMIT + 1
  {
    TwoFailures(After(Start, os));
  }

  /** The count after n failures in a row: up to 1001, and from there in rounds of 991. */
  function StreakCount(n: nat): int {
    if n <= 1000 then n else 10 + (n - 1001) % 991
  }

  lemma {:induction false} Streak(os: seq<Outcome>)
    requires forall i :: 0 <= i < |os| ==> os[i].Failed?
    ensures After(Start, os).failCount == StreakCount(|os|)
  {
    if os != [] {
      var n := |os| - 1;
      Streak(os[..n]);
      StreakStep(n);
      assert After(Start, os).failCount == Next(After(Start, os[..n]).failCount);
    }
  }

  /** What one more failure makes of the count. */
  function Next(n: int): int {
    if n + 1 > LIMIT then RESTART_AT else n + 1
  }

  lemma StreakStep(n: nat)
    ensures StreakCount(n + 1) == Next(StreakCount(n))
  {
    if n > 1000 {
      NextResidue(n - 1001);
    }
  }

  lemma NextResidue(m: nat)
    ensures (m + 1) % 991 == if m % 991 == 990 then 0 else m % 991 + 1
  {
  }

  /** A heartbeat that is answered does not forget earlier failures; only a new connection
      does. */
  lemma OnlyReconnectionResets(os: seq<Outcome>)
    ensures After(Start, os + [Alive]).failCount == After(Start, os).failCount
    ensures After(Start, os + [Reconnected]).failCount == 0
  {
    assert (os + [Alive])[..|os|] == os && (os + [Reconnected])[..|os|] == os;
  }

  /** The ticker is not set back after a recovery: as long as the new connection answers,
      it keeps the factor of the last failure. */
  lemma {:induction false} RecoveryKeepsFactor(os: seq<Outcome>, alive: seq<Outcome>)
    requires forall i :: 0 <= i < |alive| ==> alive[i].Alive?
    ensures After(Start, os + [Reconnected] + alive) == State(0, After(Start, os).factor)
  {
    var all := os + [Reconnected] + alive;
    if alive == [] {
      assert all[..|all| - 1] == os;
    } else {
      var fewer := alive[..|alive| - 1];
      assert all[..|all| - 1] == os + [Reconnected] + fewer;
      RecoveryKeepsFactor(os, fewer);
    }
  }
}

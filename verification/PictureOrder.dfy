/**
 * Picture order count type 0: the reconstruction of calc_poc, which is that of section 8.2.1.1 of
 * ITU-T H.264, and what a decoder recovers over a whole run, for any modulus.
 */
module PictureOrder {
  import opened Arithmetic

  /** The branches of calc_poc; section 8.2.1.1, equation 8-3. */
  function PocMsb(prevMsb: int, prevLsb: int, lsb: int, modulus: nat): int {
    if lsb < prevLsb && prevLsb - lsb >= modulus / 2 then prevMsb + modulus
    else if lsb > prevLsb && lsb - prevLsb > modulus / 2 then prevMsb - modulus
    else prevMsb
  }

  /** p may follow prev: it lies at most half the modulus away. */
  predicate InWindow(p: int, prev: int, modulus: nat) {
    prev - modulus / 2 < p <= prev + modulus / 2
  }

  predicate Modulus(m: int) {
    m > 0 && m % 2 == 0
  }

  /** The order count that a decoder reconstructs behind a reference picture with order count prev. */
  function ReadPoc(prev: int, lsb: nat, modulus: nat): int
    requires Modulus(modulus) && lsb < modulus
  {
    PocMsb(prev - prev % modulus, prev % modulus, lsb, modulus) + lsb
  }

  /** The count is congruent to its low part and lies in the window ... */
  lemma PocIsInWindow(prev: int, lsb: nat, modulus: nat)
    requires Modulus(modulus) && lsb < modulus
    ensures InWindow(ReadPoc(prev, lsb, modulus), prev, modulus)
    ensures ReadPoc(prev, lsb, modulus) % modulus == lsb
  {
    var q := prev / modulus;
    assert prev == q * modulus + prev % modulus;
    var p := ReadPoc(prev, lsb, modulus);
    if p - lsb == q * modulus {
      DivMod(p, q, lsb, modulus);
    } else if p - lsb == q * modulus + modulus {
      assert p == (q + 1) * modulus + lsb;
      DivMod(p, q + 1, lsb, modulus);
    } else {
      assert p == (q - 1) * modulus + lsb;
      DivMod(p, q - 1, lsb, modulus);
    }
  }

  /** ... and no other integer is. */
  lemma PocIsUnique(prev: int, p: int, modulus: nat)
    requires Modulus(modulus) && InWindow(p, prev, modulus)
    ensures ReadPoc(prev, p % modulus, modulus) == p
  {
    var r := ReadPoc(prev, p % modulus, modulus);
    PocIsInWindow(prev, p % modulus, modulus);
    assert p == p / modulus * modulus + p % modulus;
    assert r == r / modulus * modulus + r % modulus;
    assert r - p == (r / modulus - p / modulus) * modulus;
    SmallMultiple(r / modulus - p / modulus, modulus, r - p);
  }

  // ---------------------------------------------------------------------------------------------
  // Whole runs
  // ---------------------------------------------------------------------------------------------

  /** A coded picture: its true order count, and whether later pictures refer to it. */
  datatype Coded = Coded(idr: bool, reference: bool, poc: int)

  function Before(prev: int, c: Coded): int {
    if c.idr then 0 else prev
  }

  function After(prev: int, c: Coded, poc: int): int {
    if c.reference then poc else Before(prev, c)
  }

  /** What a decoder makes of the low parts of a run. */
  function ReadRun(prev: int, run: seq<Coded>, modulus: nat): (pocs: seq<int>)
    requires Modulus(modulus)
    ensures |pocs| == |run|
    decreases |run|
  {
    if run == [] then []
    else
      var poc := ReadPoc(Before(prev, run[0]), run[0].poc % modulus, modulus);
      [poc] + ReadRun(After(prev, run[0], poc), run[1..], modulus)
  }

  function Pocs(run: seq<Coded>): (pocs: seq<int>)
    ensures |pocs| == |run|
  {
    seq(|run|, i requires 0 <= i < |run| => run[i].poc)
  }

  /** Every picture is at most half the modulus away from the reference picture before it. */
  ghost predicate StepsFit(prev: int, run: seq<Coded>, modulus: nat)
    decreases |run|
  {
    run != [] ==>
      && InWindow(run[0].poc, Before(prev, run[0]), modulus)
      && StepsFit(After(prev, run[0], run[0].poc), run[1..], modulus)
  }

  lemma HeadAndTail<T>(a: T, s: seq<T>, b: T, t: seq<T>)
    ensures [a] + s == [b] + t <==> a == b && s == t
  {
    if [a] + s == [b] + t {
      assert ([a] + s)[0] == ([b] + t)[0];
      assert s == ([a] + s)[1..] && t == ([b] + t)[1..];
    }
  }

  lemma WindowDecides(prev: int, p: int, modulus: nat)
    requires Modulus(modulus)
    ensures ReadPoc(prev, p % modulus, modulus) == p <==> InWindow(p, prev, modulus)
  {
    PocIsInWindow(prev, p % modulus, modulus);
    if InWindow(p, prev, modulus) {
      PocIsUnique(prev, p, modulus);
    }
  }

  /** The decoder recovers every order count of a run exactly when all its steps fit. */
  lemma {:induction false} RunIsRecoveredIff(prev: int, run: seq<Coded>, modulus: nat)
    requires Modulus(modulus)
    ensures ReadRun(prev, run, modulus) == Pocs(run) <==> StepsFit(prev, run, modulus)
    decreases |run|
  {
    if run != [] {
      var c := run[0];
      var poc := ReadPoc(Before(prev, c), c.poc % modulus, modulus);
      assert Pocs(run) == [c.poc] + Pocs(run[1..]);
      WindowDecides(Before(prev, c), c.poc, modulus);
      HeadAndTail(poc, ReadRun(After(prev, c, poc), run[1..], modulus), c.poc, Pocs(run[1..]));
      if poc == c.poc {
        RunIsRecoveredIff(After(prev, c, poc), run[1..], modulus);
      }
    }
  }

  lemma {:induction false} StepsFitLarger(prev: int, run: seq<Coded>, small: nat, large: nat)
    requires small <= large && StepsFit(prev, run, small)
    ensures StepsFit(prev, run, large)
    decreases |run|
  {
    if run != [] {
      StepsFitLarger(After(prev, run[0], run[0].poc), run[1..], small, large);
    }
  }

  /** The encoder counts modulo one number, the decoder modulo a smaller one: they agree if steps are small. */
  lemma ModuliAgree(prev: int, run: seq<Coded>, small: nat, large: nat)
    requires Modulus(small) && Modulus(large) && small <= large && StepsFit(prev, run, small)
    ensures ReadRun(prev, run, small) == ReadRun(prev, run, large) == Pocs(run)
  {
    StepsFitLarger(prev, run, small, large);
    RunIsRecoveredIff(prev, run, small);
    RunIsRecoveredIff(prev, run, large);
  }
}

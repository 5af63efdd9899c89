/** The values the history engine moves around, and the one list operation its
    rings implement: keeping the last n entries. */
module Samples {

  /** A metric reading. Absent stands for the program's NaN; a present reading is
      a real number, so float rounding is not modelled. */
  datatype Reading = Absent | Present(value: real)

  /** One value per registered metric. */
  type Row = seq<Reading>

  /** A sample row with the clock reading that came with it. */
  datatype Sample = Sample(ts: int, row: Row)

  function LastN<T>(s: seq<T>, n: nat): (r: seq<T>)
  {
    if |s| <= n then s else s[|s| - n..]
  }

  /** Trimming early does not change what a later trim keeps. */
  lemma {:induction false} LastNOfTrimmed<T>(s: seq<T>, t: seq<T>, n: nat)
    ensures LastN(LastN(s, n) + t, n) == LastN(s + t, n)
  {
    var l := LastN(LastN(s, n) + t, n);
    var r := LastN(s + t, n);
    if |s| > n {
      assert |l| == |r|;
      forall i | 0 <= i < |l| ensures l[i] == r[i] {}
    }
  }
}

/** What several components share. */
module Basics {

  datatype Option<+T> = None | Some(value: T)

  /** Nanoseconds; 0 is the zero `time.Time`. */
  type Time = int

  const NANOS_PER_SECOND := 1_000_000_000

  lemma SubsetSize<T>(a: set<T>, b: set<T>)
    requires a <= b
    ensures |a| <= |b| && (|a| == |b| <==> a == b)
  {
    assert b == a + (b - a);
    if a != b {
      var x :| x in b - a;
      assert |b - a| > 0;
    }
  }

  lemma MinusOneMore<K, V>(m: map<K, V>, gone: set<K>, x: K)
    ensures m - gone - {x} == m - (gone + {x})
  {
  }

  lemma TailConcat<T>(a: seq<T>, b: seq<T>, n: nat)
    requires n <= |a|
    ensures (a + b)[n..] == a[n..] + b
  {
  }
}

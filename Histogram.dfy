/**
 * The integer bins of util/Histogram.kt: a frequency array updated in place and
 * a running maximum. Bins are Kotlin `Int`s, so an increment past
 * `Int.MAX_VALUE` wraps to `Int.MIN_VALUE`.
 */
module Histograms {
  import opened Wrappers

  /** What `IntArray(n)` throws for a negative size. */
  datatype Failure = NegativeArraySize

  const IntMin: int := -0x8000_0000
  const IntMax: int := 0x7fff_ffff

  /** Kotlin's `++` on an `Int`. */
  function Inc32(x: int): (r: int)
    requires IntMin <= x <= IntMax
    ensures IntMin <= r <= IntMax
    ensures x < IntMax ==> r == x + 1
    ensures x == IntMax ==> r == IntMin
  {
    if x == IntMax then IntMin else x + 1
  }

  /** The largest bin, or 0 when every bin is below 0 or there are none. */
  function MaxOf(s: seq<int>): (m: int)
    ensures 0 <= m
    ensures forall k :: 0 <= k < |s| ==> s[k] <= m
    ensures m == 0 || exists k :: 0 <= k < |s| && s[k] == m
  {
    if s == [] then 0
    else
      var rest := MaxOf(s[..|s| - 1]);
      if s[|s| - 1] > rest then s[|s| - 1] else rest
  }

  /** Any bound that every bin stays under and that some bin reaches (or that is 0) is MaxOf. */
  lemma MaxOfUnique(s: seq<int>, m: int)
    requires 0 <= m
    requires forall k :: 0 <= k < |s| ==> s[k] <= m
    requires m == 0 || exists k :: 0 <= k < |s| && s[k] == m
    ensures MaxOf(s) == m
  {
  }

  /** Raising one bin by one raises the maximum to that bin's new count if it is larger. */
  lemma MaxOfIncrement(s: seq<int>, i: int)
    requires 0 <= i < |s|
    ensures MaxOf(s[i := s[i] + 1]) == if s[i] + 1 > MaxOf(s) then s[i] + 1 else MaxOf(s)
  {
    var t := s[i := s[i] + 1];
    var m := if s[i] + 1 > MaxOf(s) then s[i] + 1 else MaxOf(s);
    if m != 0 && m == MaxOf(s) {
      var k :| 0 <= k < |s| && s[k] == m;
      assert t[k] == m;
    }
    if m != 0 && m != MaxOf(s) {
      assert t[i] == m;
    }
    MaxOfUnique(t, m);
  }

  class Histogram {
    const n: int
    const freq: array<int>
    var maxFreq: int

    /** Every bin and the maximum are Kotlin `Int`s. */
    ghost predicate Valid()
      reads this, freq
    {
      freq.Length == n &&
      (forall k :: 0 <= k < n ==> IntMin <= freq[k] <= IntMax) &&
      IntMin <= maxFreq <= IntMax
    }

    /** No bin has wrapped, and `maxFreq` is the largest bin. */
    ghost predicate Consistent()
      reads this, freq
    {
      Valid() && (forall k :: 0 <= k < n ==> 0 <= freq[k]) && maxFreq == MaxOf(freq[..])
    }

    /** Construction once `IntArray(n)` has succeeded; `NewHistogram` covers a negative `n`. */
    constructor (n: int)
      requires 0 <= n
      ensures this.n == n && fresh(freq)
      ensures freq[..] == seq(n, _ => 0) && maxFreq == 0
      ensures Consistent()
    {
      this.n := n;
      freq := new int[n];
      maxFreq := 0;
      new;
      Clear();
    }

    method AddDataPoint(i: int)
      requires Valid()
      modifies this, freq
      ensures Valid()
      ensures i < 0 || i >= n ==> freq[..] == old(freq[..]) && maxFreq == old(maxFreq)
      ensures 0 <= i < n ==> freq[..] == old(freq[..])[i := Inc32(old(freq[i]))]
      ensures 0 <= i < n ==> maxFreq == if freq[i] > old(maxFreq) then freq[i] else old(maxFreq)
      ensures old(Consistent()) && (0 <= i < n ==> old(freq[i]) < IntMax) ==> Consistent()
    {
      if i >= n || i < 0 {
        return;
      }
      ghost var before := freq[..];
      freq[i] := Inc32(freq[i]);
      if freq[i] > maxFreq {
        maxFreq := freq[i];
      }
      if old(Consistent()) && before[i] < IntMax {
        assert freq[..] == before[i := before[i] + 1];
        MaxOfIncrement(before, i);
      }
    }

    method Clear()
      requires freq.Length == n
      modifies this, freq
      ensures freq[..] == seq(n, _ => 0) && maxFreq == 0
      ensures Consistent()
    {
      for i := 0 to freq.Length
        invariant forall k :: 0 <= k < i ==> freq[k] == 0
      {
        freq[i] := 0;
      }
      maxFreq := 0;
      assert freq[..] == seq(n, _ => 0);
      MaxOfUnique(freq[..], 0);
    }
  }

  /** `Histogram(n)`: `IntArray(n)` throws `NegativeArraySizeException` for a negative `n`. */
  method NewHistogram(n: int) returns (r: Result<Histogram, Failure>)
    ensures n < 0 <==> r == Err(NegativeArraySize)
    ensures r.Ok? ==> fresh(r.value) && fresh(r.value.freq) && r.value.n == n
    ensures r.Ok? ==> r.value.freq[..] == seq(n, _ => 0) && r.value.maxFreq == 0 && r.value.Consistent()
  {
    if n < 0 {
      return Err(NegativeArraySize);
    }
    var h := new Histogram(n);
    return Ok(h);
  }
}

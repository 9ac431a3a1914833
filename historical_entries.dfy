/** Historical entry enumeration: every crossover of a history that would
    have been an entry had it been the latest crossover known at the time.

    The source filters the crossover list and, for each crossover, verifies
    the prefix of the list that ends at that crossover's index. The index is
    found by an identity search; in this value model the crossover's own
    position is used, which is what the identity search finds when the
    collaborator returns distinct objects. */
module HistoricalEntries {
  import opened EntryRules

  /** The filter restricted to the first `n` crossovers: crossover `i` is kept
      when the prefix ending at `i` is an entry. */
  function KeptUpTo(crossovers: seq<Crossover>, n: nat): seq<Crossover>
    requires n <= |crossovers|
    decreases n
  {
    if n == 0 then []
    else KeptUpTo(crossovers, n - 1) +
         (if ShouldEnterFromCrossovers(crossovers[..n]) then [crossovers[n - 1]] else [])
  }

  /** The whole filter. */
  function HistoricalFilter(crossovers: seq<Crossover>): seq<Crossover> {
    KeptUpTo(crossovers, |crossovers|)
  }

  /** Positions of the crossovers the filter keeps among the first `n`:
      strictly increasing, and never the first crossover, which has no
      predecessor to compare with. */
  function KeptIndices(crossovers: seq<Crossover>, n: nat): (idx: seq<nat>)
    requires n <= |crossovers|
    ensures forall j :: 0 <= j < |idx| ==> 1 <= idx[j] < n
    ensures forall j, j' :: 0 <= j < j' < |idx| ==> idx[j] < idx[j']
    decreases n
  {
    if n == 0 then []
    else KeptIndices(crossovers, n - 1) +
         (if ShouldEnterFromCrossovers(crossovers[..n]) then [n - 1] else [])
  }

  /** The filter keeps exactly the crossovers at the kept positions, in order. */
  lemma {:induction false} KeptUpToAtIndices(crossovers: seq<Crossover>, n: nat)
    requires n <= |crossovers|
    ensures |KeptUpTo(crossovers, n)| == |KeptIndices(crossovers, n)|
    ensures forall j :: 0 <= j < |KeptIndices(crossovers, n)| ==>
              KeptUpTo(crossovers, n)[j] == crossovers[KeptIndices(crossovers, n)[j]]
  {
    if n > 0 {
      KeptUpToAtIndices(crossovers, n - 1);
      var kept, idx := KeptUpTo(crossovers, n - 1), KeptIndices(crossovers, n - 1);
      var enters := ShouldEnterFromCrossovers(crossovers[..n]);
      assert KeptUpTo(crossovers, n) == kept + (if enters then [crossovers[n - 1]] else []);
      assert KeptIndices(crossovers, n) == idx + (if enters then [n - 1] else []);
    }
  }

  /** A position is kept exactly when the prefix ending there verifies. */
  lemma {:induction false} KeptIndicesExactly(crossovers: seq<Crossover>, n: nat, i: nat)
    requires i < n <= |crossovers|
    ensures i in KeptIndices(crossovers, n) <==> ShouldEnterFromCrossovers(crossovers[..i + 1])
  {
    var idx := KeptIndices(crossovers, n - 1);
    var enters := ShouldEnterFromCrossovers(crossovers[..n]);
    assert KeptIndices(crossovers, n) == idx + (if enters then [n - 1] else []);
    if i < n - 1 {
      KeptIndicesExactly(crossovers, n - 1, i);
      assert n - 1 !in idx;
    }
  }

  /** The result of the filter is the order-preserving subsequence of the
      crossovers at the positions `i` whose prefix `crossovers[..i + 1]` is an
      entry; the first crossover is never among them. */
  lemma HistoricalFilterSpec(crossovers: seq<Crossover>)
    ensures var idx := KeptIndices(crossovers, |crossovers|);
            && |HistoricalFilter(crossovers)| == |idx|
            && (forall j :: 0 <= j < |idx| ==> HistoricalFilter(crossovers)[j] == crossovers[idx[j]])
            && (forall j, j' :: 0 <= j < j' < |idx| ==> idx[j] < idx[j'])
            && (forall i :: 0 <= i < |crossovers| ==>
                  (i in idx <==> ShouldEnterFromCrossovers(crossovers[..i + 1])))
            && 0 !in idx
  {
    KeptUpToAtIndices(crossovers, |crossovers|);
    forall i | 0 <= i < |crossovers|
      ensures i in KeptIndices(crossovers, |crossovers|) <==> ShouldEnterFromCrossovers(crossovers[..i + 1])
    {
      KeptIndicesExactly(crossovers, |crossovers|, i);
    }
  }

  /** Keeping more of the history only appends: the filter of a shorter
      prefix is a prefix of the filter of a longer one. */
  lemma {:induction false} KeptUpToGrows(crossovers: seq<Crossover>, m: nat, n: nat)
    requires m <= n <= |crossovers|
    ensures KeptUpTo(crossovers, m) <= KeptUpTo(crossovers, n)
    decreases n - m
  {
    if m < n {
      KeptUpToGrows(crossovers, m, n - 1);
      var prefix := KeptUpTo(crossovers, n - 1);
      assert KeptUpTo(crossovers, n) ==
             prefix + (if ShouldEnterFromCrossovers(crossovers[..n]) then [crossovers[n - 1]] else []);
    }
  }

  /** The filter of the first `n` crossovers reads nothing beyond them. */
  lemma {:induction false} KeptUpToReadsPrefix(a: seq<Crossover>, b: seq<Crossover>, n: nat)
    requires n <= |a| && n <= |b| && a[..n] == b[..n]
    ensures KeptUpTo(a, n) == KeptUpTo(b, n)
  {
    if n > 0 {
      assert a[..n - 1] == a[..n][..n - 1] == b[..n][..n - 1] == b[..n - 1];
      KeptUpToReadsPrefix(a, b, n - 1);
      assert a[n - 1] == a[..n][n - 1] == b[..n][n - 1] == b[n - 1];
    }
  }

  /** No lookahead: crossovers that arrive later never change the decisions
      already made about earlier ones; they can only add entries at the end. */
  lemma NoLookahead(history: seq<Crossover>, later: seq<Crossover>)
    ensures HistoricalFilter(history) <= HistoricalFilter(history + later)
  {
    var whole := history + later;
    assert whole[..|history|] == history[..|history|];
    KeptUpToReadsPrefix(history, whole, |history|);
    KeptUpToGrows(whole, |history|, |whole|);
  }

  /** Single forward pass carrying the previous crossover: each crossover is
      compared with its predecessor only. */
  function ScanFrom(prev: Crossover, rest: seq<Crossover>): seq<Crossover>
    decreases |rest|
  {
    if rest == [] then []
    else (if CheckPair(prev, rest[0]).Pass? then [rest[0]] else []) + ScanFrom(rest[0], rest[1..])
  }

  function ForwardScan(crossovers: seq<Crossover>): seq<Crossover> {
    if crossovers == [] then [] else ScanFrom(crossovers[0], crossovers[1..])
  }

  /** Extending the scanned sequence by one crossover appends at most that
      crossover, decided by its predecessor alone. */
  lemma {:induction false} ScanFromSnoc(prev: Crossover, rest: seq<Crossover>, x: Crossover)
    ensures ScanFrom(prev, rest + [x]) ==
            ScanFrom(prev, rest) +
            (if CheckPair(if rest == [] then prev else rest[|rest| - 1], x).Pass? then [x] else [])
    decreases |rest|
  {
    if rest == [] {
      assert ScanFrom(x, []) == [];
    } else {
      assert (rest + [x])[0] == rest[0];
      assert (rest + [x])[1..] == rest[1..] + [x];
      ScanFromSnoc(rest[0], rest[1..], x);
    }
  }

  lemma {:induction false} KeptUpToIsScan(crossovers: seq<Crossover>, n: nat)
    requires 1 <= n <= |crossovers|
    ensures KeptUpTo(crossovers, n) == ScanFrom(crossovers[0], crossovers[1..n])
  {
    if n == 1 {
      assert KeptUpTo(crossovers, 0) == [];
      assert !ShouldEnterFromCrossovers(crossovers[..1]);
    } else {
      KeptUpToIsScan(crossovers, n - 1);
      var rest := crossovers[1..n - 1];
      assert crossovers[1..n] == rest + [crossovers[n - 1]];
      ScanFromSnoc(crossovers[0], rest, crossovers[n - 1]);
      var pre := crossovers[..n];
      assert pre[|pre| - 2] == (if rest == [] then crossovers[0] else rest[|rest| - 1]);
      assert pre[|pre| - 1] == crossovers[n - 1];
    }
  }

  /** Re-verifying every prefix, as the source does, gives exactly the result
      of the single forward pass. */
  lemma HistoricalIsForwardScan(crossovers: seq<Crossover>)
    ensures HistoricalFilter(crossovers) == ForwardScan(crossovers)
  {
    if crossovers != [] {
      KeptUpToIsScan(crossovers, |crossovers|);
      assert crossovers[1..|crossovers|] == crossovers[1..];
    }
  }
}

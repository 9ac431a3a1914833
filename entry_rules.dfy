/** Crossover-pair verification: the rule that decides whether the last
    crossover of a sequence is an entry signal, by comparing it with the
    crossover immediately before it.

    The source signals a failed rule by throwing a message and catching it at
    the boundary of the verification routine; here every check returns a
    Verdict naming the rule that failed, and the checks stop at the first
    failure just as the thrown message does. */
module EntryRules {

  /** Reading of the MACD indicator at a crossover. */
  datatype Macd = Macd(cross: real)

  /** Reading of the stochastic oscillator (%K and %D lines) at a crossover. */
  datatype Stoch = Stoch(k: real, d: real)

  /** A crossover event as produced by the technical-analysis collaborator. */
  datatype Crossover = Crossover(time: int, macd: Macd, rsi: real, stoch: Stoch)

  /** The individual conditions, in the order in which they are checked. */
  datatype Rule =
    | MacdRising          // MACD cross strictly above the previous one
    | RsiRising           // RSI strictly above the previous one
    | RsiAbove50          // RSI strictly above 50
    | StochAligned        // %K strictly above %D
    | StochOutsideBands   // (%K, %D) in none of the blacklisted bands

  /** Outcome of a verification: the crossover passes, there is no previous
      crossover to compare with, or the named rule was the first to fail. */
  datatype Verdict = Pass | NoPrevious | Fail(rule: Rule)

  /** Position of a rule in the checking order. */
  function Rank(rule: Rule): nat {
    match rule
    case MacdRising => 0
    case RsiRising => 1
    case RsiAbove50 => 2
    case StochAligned => 3
    case StochOutsideBands => 4
  }

  const MacdRules: seq<Rule> := [MacdRising]
  const RsiRules: seq<Rule> := [RsiRising, RsiAbove50]
  const StochRules: seq<Rule> := [StochAligned, StochOutsideBands]
  const AllRules: seq<Rule> := MacdRules + RsiRules + StochRules

  /** An inclusive rectangle of (%K, %D) values. */
  datatype Band = Band(kLow: real, kHigh: real, dLow: real, dHigh: real) {
    predicate Contains(k: real, d: real) {
      kLow <= k <= kHigh && dLow <= d <= dHigh
    }
  }

  /** The overbought-exhaustion zones in which no entry is taken. */
  const BlacklistedBands: seq<Band> := [
    Band(90.0, 99.0, 90.0, 99.0),
    Band(80.0, 89.0, 80.0, 89.0),
    Band(80.0, 84.0, 70.0, 79.0)
  ]

  /** Reference reading of the blacklist: some band of the table holds (k, d). */
  ghost predicate InBlacklistedBand(k: real, d: real) {
    exists i :: 0 <= i < |BlacklistedBands| && BlacklistedBands[i].Contains(k, d)
  }

  /** What each rule demands of the pair (previous, current). */
  ghost predicate Holds(rule: Rule, prev: Crossover, cur: Crossover) {
    match rule
    case MacdRising => cur.macd.cross > prev.macd.cross
    case RsiRising => cur.rsi > prev.rsi
    case RsiAbove50 => cur.rsi > 50.0
    case StochAligned => cur.stoch.k > cur.stoch.d
    case StochOutsideBands => !InBlacklistedBand(cur.stoch.k, cur.stoch.d)
  }

  /** The current crossover is an entry signal relative to the previous one:
      every rule holds. */
  ghost predicate EntrySignal(prev: Crossover, cur: Crossover) {
    forall rule :: Holds(rule, prev, cur)
  }

  /** `v` is a faithful report of checking the rules of `group` in order:
      it passes exactly when all of them hold, and a failure names a rule of
      the group that does not hold while every rule checked before it does. */
  ghost predicate Reports(v: Verdict, group: seq<Rule>, prev: Crossover, cur: Crossover) {
    && !v.NoPrevious?
    && (v.Pass? <==> forall q :: q in group ==> Holds(q, prev, cur))
    && (v.Fail? ==>
          && v.rule in group
          && !Holds(v.rule, prev, cur)
          && forall q :: q in group && Rank(q) < Rank(v.rule) ==> Holds(q, prev, cur))
  }

  /** The checking order leaves no rule out, and a rule's rank is its
      position in that order. */
  lemma EveryRuleChecked()
    ensures forall rule :: rule in AllRules
    ensures forall i :: 0 <= i < |AllRules| ==> Rank(AllRules[i]) == i
  {
    forall rule ensures rule in AllRules {
      match rule
      case MacdRising => assert AllRules[0] == rule;
      case RsiRising => assert AllRules[1] == rule;
      case RsiAbove50 => assert AllRules[2] == rule;
      case StochAligned => assert AllRules[3] == rule;
      case StochOutsideBands => assert AllRules[4] == rule;
    }
  }

  function InRange(n: real, low: real, high: real): bool {
    n >= low && n <= high
  }

  /** The blacklist test as the source writes it, as a disjunction of range
      checks; it agrees with the band table. */
  function Blacklisted(k: real, d: real): (r: bool)
    ensures r <==> InBlacklistedBand(k, d)
  {
    var r := (InRange(k, 90.0, 99.0) && InRange(d, 90.0, 99.0)) ||
             (InRange(k, 80.0, 89.0) && InRange(d, 80.0, 89.0)) ||
             (InRange(k, 80.0, 84.0) && InRange(d, 70.0, 79.0));
    assert BlacklistedBands[0].Contains(k, d) <==> InRange(k, 90.0, 99.0) && InRange(d, 90.0, 99.0);
    assert BlacklistedBands[1].Contains(k, d) <==> InRange(k, 80.0, 89.0) && InRange(d, 80.0, 89.0);
    assert BlacklistedBands[2].Contains(k, d) <==> InRange(k, 80.0, 84.0) && InRange(d, 70.0, 79.0);
    r
  }

  /** The MACD cross must strictly rise. */
  function VerifyMacd(prev: Crossover, cur: Crossover): (r: Verdict)
    ensures Reports(r, MacdRules, prev, cur)
  {
    if !(cur.macd.cross > prev.macd.cross) then
      assert MacdRising in MacdRules;
      Fail(MacdRising)
    else Pass
  }

  /** The RSI must strictly rise, then be strictly above 50. */
  function VerifyRsi(prev: Crossover, cur: Crossover): (r: Verdict)
    ensures Reports(r, RsiRules, prev, cur)
  {
    if !(cur.rsi > prev.rsi) then
      assert RsiRising in RsiRules;
      Fail(RsiRising)
    else if !(cur.rsi > 50.0) then
      assert RsiAbove50 in RsiRules;
      Fail(RsiAbove50)
    else Pass
  }

  /** %K must be strictly above %D, then (%K, %D) must lie outside every
      blacklisted band. Only the current crossover is read, so the report
      holds whatever the previous crossover is. */
  function VerifyStoch(cur: Crossover): (r: Verdict)
    ensures forall prev :: Reports(r, StochRules, prev, cur)
  {
    if !(cur.stoch.k > cur.stoch.d) then
      assert StochAligned in StochRules;
      Fail(StochAligned)
    else if Blacklisted(cur.stoch.k, cur.stoch.d) then Fail(StochOutsideBands)
    else Pass
  }

  /** The body of the source's try block: MACD, then RSI, then stochastic,
      stopping at the first failure. */
  function CheckPair(prev: Crossover, cur: Crossover): (r: Verdict)
    ensures Reports(r, AllRules, prev, cur)
    ensures r.Pass? <==> EntrySignal(prev, cur)
  {
    var macd := VerifyMacd(prev, cur);
    if macd.Fail? then macd
    else
      var rsi := VerifyRsi(prev, cur);
      if rsi.Fail? then rsi
      else
        var stoch := VerifyStoch(cur);
        assert Reports(stoch, StochRules, prev, cur);
        EveryRuleChecked();
        stoch
  }

  /** Verification of a whole sequence, with the reason kept: fewer than two
      crossovers give NoPrevious, otherwise the last two are checked. */
  function Diagnose(crossovers: seq<Crossover>): (r: Verdict)
    ensures r.NoPrevious? <==> |crossovers| < 2
    ensures |crossovers| >= 2 ==>
              Reports(r, AllRules, crossovers[|crossovers| - 2], crossovers[|crossovers| - 1])
  {
    if |crossovers| < 2 then NoPrevious
    else CheckPair(crossovers[|crossovers| - 2], crossovers[|crossovers| - 1])
  }

  /** The boolean the source returns: the reason is dropped. */
  function ShouldEnterFromCrossovers(crossovers: seq<Crossover>): (r: bool)
    ensures r <==> |crossovers| >= 2 &&
                   EntrySignal(crossovers[|crossovers| - 2], crossovers[|crossovers| - 1])
  {
    Diagnose(crossovers).Pass?
  }

  /** A sequence with no previous crossover is never an entry. */
  lemma ShortSequenceNeverEnters(crossovers: seq<Crossover>)
    requires |crossovers| < 2
    ensures Diagnose(crossovers) == NoPrevious
    ensures !ShouldEnterFromCrossovers(crossovers)
  {
  }

  /** A MACD cross that does not rise rejects the pair whatever the RSI and
      stochastic readings are: MACD is checked first. */
  lemma MacdShortCircuits(prev: Crossover, cur: Crossover)
    requires cur.macd.cross <= prev.macd.cross
    ensures CheckPair(prev, cur) == Fail(MacdRising)
  {
  }

  /** With MACD passing, an RSI that does not rise, or does not exceed 50,
      rejects the pair before the stochastic is looked at. */
  lemma RsiRejects(prev: Crossover, cur: Crossover)
    requires cur.macd.cross > prev.macd.cross
    requires cur.rsi <= prev.rsi || cur.rsi <= 50.0
    ensures CheckPair(prev, cur) == Fail(if cur.rsi <= prev.rsi then RsiRising else RsiAbove50)
  {
  }

  /** With MACD and RSI passing, %K not above %D rejects the pair. */
  lemma StochMisalignedRejects(prev: Crossover, cur: Crossover)
    requires cur.macd.cross > prev.macd.cross && cur.rsi > prev.rsi && cur.rsi > 50.0
    requires cur.stoch.k <= cur.stoch.d
    ensures CheckPair(prev, cur) == Fail(StochAligned)
  {
  }

  /** A reading in one of the blacklisted bands is rejected even when %K is
      above %D; the bands are the three inclusive rectangles of the table. */
  lemma BandRejects(prev: Crossover, cur: Crossover, i: nat)
    requires cur.macd.cross > prev.macd.cross && cur.rsi > prev.rsi && cur.rsi > 50.0
    requires cur.stoch.k > cur.stoch.d
    requires i < |BlacklistedBands| && BlacklistedBands[i].Contains(cur.stoch.k, cur.stoch.d)
    ensures CheckPair(prev, cur) == Fail(StochOutsideBands)
  {
  }

  /** Sample readings inside each band, all twelve band corners (the bounds
      are inclusive), and readings in the gaps between the bands, which are
      not blacklisted because readings are not integers only. */
  lemma BlacklistSamples()
    ensures Blacklisted(95.0, 92.0) && Blacklisted(85.0, 87.0) && Blacklisted(82.0, 75.0)
    ensures Blacklisted(90.0, 90.0) && Blacklisted(90.0, 99.0) && Blacklisted(99.0, 90.0) && Blacklisted(99.0, 99.0)
    ensures Blacklisted(80.0, 80.0) && Blacklisted(80.0, 89.0) && Blacklisted(89.0, 80.0) && Blacklisted(89.0, 89.0)
    ensures Blacklisted(80.0, 70.0) && Blacklisted(80.0, 79.0) && Blacklisted(84.0, 70.0) && Blacklisted(84.0, 79.0)
    ensures !Blacklisted(89.5, 85.0) && !Blacklisted(85.0, 75.0) && !Blacklisted(99.5, 95.0)
  {
  }

  /** The decision depends only on the last two crossovers: sequences that
      agree on them get the same verdict, whatever comes before. */
  lemma OnlyLastPairMatters(a: seq<Crossover>, b: seq<Crossover>)
    requires |a| >= 2 && |b| >= 2
    requires a[|a| - 2..] == b[|b| - 2..]
    ensures Diagnose(a) == Diagnose(b)
  {
  }

  /** Prepending earlier crossovers never changes the decision. */
  lemma PrependIrrelevant(earlier: seq<Crossover>, crossovers: seq<Crossover>)
    requires |crossovers| >= 2
    ensures Diagnose(earlier + crossovers) == Diagnose(crossovers)
  {
  }

  /** Two crossovers where every rule holds form an entry. */
  lemma AcceptedPair()
    ensures ShouldEnterFromCrossovers([
              Crossover(1, Macd(0.1), 45.0, Stoch(20.0, 30.0)),
              Crossover(2, Macd(0.3), 55.0, Stoch(60.0, 40.0))])
  {
  }

  /** The same pair with %K below %D fails on the alignment rule. */
  lemma MisalignedPair()
    ensures Diagnose([
              Crossover(1, Macd(0.1), 45.0, Stoch(20.0, 30.0)),
              Crossover(2, Macd(0.3), 55.0, Stoch(92.0, 95.0))]) == Fail(StochAligned)
  {
  }
}

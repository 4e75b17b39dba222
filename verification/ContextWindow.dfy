/** The context window manager (go/llm/context_window.go): when to compact, and what the
    compaction it runs does to its own bookkeeping. Ratios are reals; floating-point
    rounding is not modelled. */
module ContextWindow {
  import opened Options
  import opened Sorting
  import opened Compaction
  import opened CompactionGuarantees

  datatype CompactEvent = CompactEvent(stepIndex: int, tokensBefore: int, tokensAfter: int, budgetTokens: int,
                                       messagesBefore: nat, messagesAfter: nat, phaseReached: int)

  /** A number without its fraction: rounded towards zero. */
  predicate WholePart(x: real, n: int) {
    if x >= 0.0 then n as real <= x < (n + 1) as real else (n - 1) as real < x <= n as real
  }

  /** A conversion from real to integer. */
  function Truncate(x: real): (n: int)
    ensures WholePart(x, n) && forall m :: WholePart(x, m) ==> m == n
  {
    if x >= 0.0 then x.Floor else -((-x).Floor)
  }

  function CountTokens(ms: seq<Message>): int {
    Tokens(ms)
  }

  predicate Below(x: real, y: real) {
    x < y
  }

  predicate Rising(s: seq<real>) {
    forall i, j :: 0 <= i < j < |s| ==> s[i] <= s[j]
  }

  lemma {:induction false} InsertRises(x: real, s: seq<real>)
    requires Rising(s)
    ensures Rising(Insert(x, s, Below))
  {
    if s != [] && !Below(x, s[0]) {
      InsertRises(x, s[1..]);
      RisesBehind(x, s, Insert(x, s[1..], Below));
    }
  }

  lemma RisesBehind(x: real, s: seq<real>, r: seq<real>)
    requires Rising(s) && s != [] && s[0] <= x && Rising(r) && forall y :: y in r ==> y == x || y in s[1..]
    ensures Rising([s[0]] + r)
  {
    forall i | 0 <= i < |r| ensures s[0] <= r[i] {
      assert r[i] in r;
    }
  }

  lemma {:induction false} InsertCounts(x: real, s: seq<real>)
    ensures multiset(Insert(x, s, Below)) == multiset{x} + multiset(s)
  {
    if s != [] {
      assert s == [s[0]] + s[1..];
      if !Below(x, s[0]) { InsertCounts(x, s[1..]); }
    }
  }

  /** Sorting thresholds, which may repeat. */
  lemma {:induction false} SortRises(s: seq<real>)
    ensures Rising(Sort(s, Below)) && multiset(Sort(s, Below)) == multiset(s)
  {
    if s != [] {
      SortRises(s[1..]);
      InsertRises(s[0], Sort(s[1..], Below));
      InsertCounts(s[0], Sort(s[1..], Below));
      assert s == [s[0]] + s[1..];
    }
  }

  class ContextWindowManager {
    var contextWindow: int
    var compactionRatio: real
    var counter: seq<Message> -> int
    var lastKnownTokens: Option<int>
    var thresholds: seq<real>
    var fired: set<real>
    var reports: bool

    /** Without a counter the default one is used; thresholds are optional, and an empty list
        of them is ignored. `reports` tells whether a compaction callback was given. */
    constructor (contextWindow: int, counter: Option<seq<Message> -> int>, thresholds: seq<real>, reports: bool)
      ensures this.contextWindow == contextWindow && compactionRatio == 0.75 && this.reports == reports
      ensures lastKnownTokens == None && fired == {}
      ensures forall ms :: this.counter(ms) == if counter.Some? then counter.value(ms) else Tokens(ms)
      ensures Rising(this.thresholds)
      ensures multiset(this.thresholds) == multiset(if thresholds == [] then [0.65, 0.80] else thresholds)
    {
      this.contextWindow, compactionRatio, this.reports := contextWindow, 0.75, reports;
      if counter.Some? { this.counter := counter.value; } else { this.counter := CountTokens; }
      lastKnownTokens, fired := None, {};
      this.thresholds := if thresholds == [] then [0.65, 0.80] else Sort(thresholds, Below);
      new;
      SortRises(thresholds);
      assert Rising([0.65, 0.80]);
    }

    function Target(): (target: int)
      reads `contextWindow, `compactionRatio
      ensures WholePart(contextWindow as real * compactionRatio, target)
    {
      Truncate(contextWindow as real * compactionRatio)
    }

    function Estimate(messages: seq<Message>): int
      reads this
    {
      if lastKnownTokens.Some? then lastKnownTokens.value else counter(messages)
    }

    /** Runs the tiered strategy with its defaults, reports what it did, and forgets the
        known token count and the thresholds that had fired. The bookkeeping is left alone
        when there is nothing to compact. */
    method Compact(messages: seq<Message>) returns (r: Result, event: Option<CompactEvent>)
      modifies this`lastKnownTokens, this`fired
      ensures messages == [] <==> r.EmptyMessages?
      ensures messages == [] ==> lastKnownTokens == old(lastKnownTokens) && fired == old(fired) && event == None
      ensures messages != [] ==> lastKnownTokens == None && fired == {} && (event.Some? <==> reports)
      ensures messages != [] ==>
                exists phase :: Compacts(2, 200, messages, Target(), counter, r.messages, phase)
                                && (event.Some? ==> event.value.phaseReached == phase)
      ensures event.Some? ==>
                && event.value.tokensBefore == counter(messages) && event.value.tokensAfter == counter(r.messages)
                && event.value.messagesBefore == |messages| && event.value.messagesAfter == |r.messages|
                && event.value.budgetTokens == contextWindow
                && event.value.stepIndex == (if messages[|messages| - 1].step.AtStep?
                                             then messages[|messages| - 1].step.index else 0)
    {
      var strategy := new TieredCompact();
      r := strategy.Compact(messages, Target(), counter);
      event := None;
      if r.EmptyMessages? { return; }
      var last := messages[|messages| - 1].step;
      if reports {
        event := Some(CompactEvent(if last.AtStep? then last.index else 0, counter(messages), counter(r.messages),
                                   contextWindow, |messages|, |r.messages|, strategy.lastPhase));
      }
      ghost var phase, target := strategy.lastPhase, Target();
      assert Compacts(2, 200, messages, target, counter, r.messages, phase);
      lastKnownTokens := None;
      fired := {};
      assert Target() == target;
      assert Compacts(2, 200, messages, Target(), counter, r.messages, phase);
    }

    /** A threshold fires at most once between compactions, the lowest one first: the one
        that fires is reached and had not fired, all before it had fired or are not
        reached, and nothing fires exactly when every reached threshold has. */
    method CheckThresholds(messages: seq<Message>) returns (hit: Option<real>)
      modifies this`fired
      ensures var tokens := match lastKnownTokens case Some(known) => known case None => counter(messages);
              var budget := contextWindow;
              if tokens == 0 || budget == 0 then hit == None && fired == old(fired)
              else
                var pct := tokens as real / budget as real;
                match hit
                case Some(t) =>
                  && fired == old(fired) + {t} && t !in old(fired)
                  && exists i :: && 0 <= i < |thresholds| && thresholds[i] == t && pct >= t
                                 && forall k :: 0 <= k < i ==> pct < thresholds[k] || thresholds[k] in old(fired)
                case None =>
                  fired == old(fired)
                  && forall k :: 0 <= k < |thresholds| ==> pct < thresholds[k] || thresholds[k] in old(fired)
    {
      var tokens, budget := Estimate(messages), contextWindow;
      if tokens == 0 || budget == 0 { return None; }
      var pct := tokens as real / budget as real;
      for i := 0 to |thresholds|
        invariant fired == old(fired)
        invariant forall k :: 0 <= k < i ==> pct < thresholds[k] || thresholds[k] in fired
      {
        if pct >= thresholds[i] && thresholds[i] !in fired {
          fired := fired + {thresholds[i]};
          return Some(thresholds[i]);
        }
      }
      return None;
    }
  }

  /** With the default counter a compaction leaves at most as many tokens as before, and
      either meets the target or went through all phases. */
  lemma CompactionHelps(ms: seq<Message>, target: int, counter: seq<Message> -> int, r: seq<Message>, phase: int)
    requires (forall s :: counter(s) == Tokens(s)) && Compacts(2, 200, ms, target, counter, r, phase)
    ensures Tokens(r) <= Tokens(ms) && (Tokens(r) <= target || phase == 3)
  {
    StageCostsNoMore(phase, 2, 200, ms);
  }
}

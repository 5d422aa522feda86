/** The failure-tier ladder of a service domain (functions/freg/attribution.rs). */
module FaultTier {
  import opened Machine

  /** The record's atomics; the 32-bit counters wrap. */
  datatype Rec = Rec(consecutive: nat, total: nat, lastTick: nat, downgraded: nat, tier: nat)

  datatype Event = Fail(tick: nat, gap: nat, dependents: nat) | Success

  const NEW := Rec(0, 0, 0, 0, 0)

  function Max(a: nat, b: nat): nat {
    if a >= b then a else b
  }

  function SuggestedTier(n: nat, gap: nat, dependents: nat): nat {
    var base := if n >= 5 then 2 else if n >= 3 then 1 else 0;
    var heartbeat := if gap > 500 then 1 else 0;
    var dependency := if dependents > 0 && n >= 3 then 1 else 0;
    Min(Max(Max(base, heartbeat), dependency), 2)
  }

  function RecordFailure(r: Rec, e: Event): Rec
    requires e.Fail?
  {
    var n := (r.consecutive + 1) % TWO32;
    var t := SuggestedTier(n, e.gap, e.dependents);
    Rec(n, (r.total + 1) % TWO64, e.tick,
        if t > r.tier then (r.downgraded + 1) % TWO32 else r.downgraded,
        if t > r.tier then t else r.tier)
  }

  function RecordSuccess(r: Rec): Rec {
    r.(consecutive := 0, tier := if r.tier > 0 then r.tier - 1 else r.tier)
  }

  function Step(r: Rec, e: Event): Rec {
    if e.Fail? then RecordFailure(r, e) else RecordSuccess(r)
  }

  function After(es: seq<Event>): Rec {
    if es == [] then NEW else Step(After(es[..|es| - 1]), es[|es| - 1])
  }

  /** How many failures the history ends with. */
  function Streak(es: seq<Event>): nat {
    if es == [] || es[|es| - 1].Success? then 0 else 1 + Streak(es[..|es| - 1])
  }

  /** Successes that found the domain degraded. */
  function Recoveries(es: seq<Event>): nat {
    if es == [] then 0
    else
      var before := es[..|es| - 1];
      Recoveries(before) + if es[|es| - 1].Success? && After(before).tier > 0 then 1 else 0
  }

  /**
   * Over every sequential run: the tier stays within 0..2, the downgrade
   * counter is the tier plus the recoveries, the streak counter is the streak
   * (both modulo 2^32), and a streak of three or five forces tier one or two.
   */
  ghost predicate Ladder(es: seq<Event>) {
    var r := After(es);
    && r.tier <= 2
    && r.downgraded == (r.tier + Recoveries(es)) % TWO32
    && r.consecutive == Streak(es) % TWO32
    && (Streak(es) >= 3 ==> r.tier >= 1)
    && (Streak(es) >= 5 ==> r.tier == 2)
  }

  lemma WrappedNext(a: nat, b: nat)
    requires a == b % TWO32
    ensures (a + 1) % TWO32 == (b + 1) % TWO32
  {
  }

  lemma Snoc(es: seq<Event>, e: Event)
    ensures After(es + [e]) == Step(After(es), e)
    ensures Streak(es + [e]) == if e.Success? then 0 else 1 + Streak(es)
    ensures Recoveries(es + [e]) == Recoveries(es) + if e.Success? && After(es).tier > 0 then 1 else 0
  {
    assert (es + [e])[..|es|] == es;
  }

  lemma LadderStep(es: seq<Event>, e: Event)
    requires Ladder(es)
    ensures Ladder(es + [e])
  {
    hide After, Streak, Recoveries;
    Snoc(es, e);
    var r := After(es);
    if e.Success? {
      assert r.tier > 0 ==> r.tier - 1 + (Recoveries(es) + 1) == r.tier + Recoveries(es);
    } else {
      WrappedNext(r.consecutive, Streak(es));
      WrappedNext(r.downgraded, r.tier + Recoveries(es));
    }
  }

  lemma {:induction false} LadderHolds(es: seq<Event>)
    ensures Ladder(es)
  {
    if es != [] {
      var before, e := es[..|es| - 1], es[|es| - 1];
      LadderHolds(before);
      LadderStep(before, e);
      assert before + [e] == es;
    }
  }

  /** Each event moves the tier by at most one step: up only on a failure, down exactly on a success above zero. */
  lemma OneStepAtATime(es: seq<Event>, e: Event)
    ensures var t, t' := After(es).tier, After(es + [e]).tier;
            && (e.Success? ==> t' == if t > 0 then t - 1 else 0)
            && (e.Fail? ==> t <= t' <= t + 1)
            && (t' > t ==> After(es + [e]).downgraded == (After(es).downgraded + 1) % TWO32)
  {
    hide After, Streak, Recoveries;
    LadderHolds(es);
    Snoc(es, e);
    WrappedNext(After(es).consecutive, Streak(es));
  }

  /** The tier is two exactly while the last five events, or more, were failures. */
  lemma {:induction false} QuarantinedIff(es: seq<Event>)
    ensures After(es).tier == 2 <==> Streak(es) >= 5
  {
    if es != [] {
      var before := es[..|es| - 1];
      QuarantinedIff(before);
      LadderHolds(before);
      LadderHolds(es);
    }
  }

  /** Tier two is entered exactly by the fifth failure in a row. */
  lemma QuarantineNeedsFive(es: seq<Event>, e: Event)
    ensures After(es).tier < 2 && After(es + [e]).tier == 2 <==> Streak(es + [e]) == 5
    ensures Streak(es + [e]) == 5 ==> e.Fail? && |es| >= 4 && forall i :: |es| - 4 <= i < |es| ==> es[i].Fail?
  {
    hide After, Streak, Recoveries;
    QuarantinedIff(es);
    QuarantinedIff(es + [e]);
    LadderHolds(es);
    Snoc(es, e);
    if Streak(es + [e]) == 5 {
      StreakAllFail(es, 4);
    }
  }

  /** A failure that came after a long silence, among the failures the history ends with. */
  ghost predicate Silent(es: seq<Event>) {
    exists i :: 0 <= i < |es| && |es| - Streak(es) <= i && es[i].Fail? && es[i].gap > 500
  }

  /** Just before its last failures the history has one success, and before that at least five failures. */
  ghost predicate Recovering(es: seq<Event>) {
    var m := |es| - Streak(es);
    m > 0 && Streak(es[..m - 1]) >= 5
  }

  lemma {:induction false} StreakBound(es: seq<Event>)
    ensures Streak(es) <= |es|
  {
    if es != [] {
      StreakBound(es[..|es| - 1]);
    }
  }

  lemma SilentNext(es: seq<Event>, e: Event)
    requires e.Fail?
    ensures Silent(es + [e]) <==> Silent(es) || e.gap > 500
    ensures Recovering(es + [e]) <==> Recovering(es)
  {
    hide After, Recoveries;
    Snoc(es, e);
    StreakBound(es);
    hide Streak;
    var all := es + [e];
    assert all[|es|] == e && forall i :: 0 <= i < |es| ==> all[i] == es[i];
    var m := |es| - Streak(es);
    if m > 0 {
      assert all[..m - 1] == es[..m - 1];
    }
    if Silent(es) {
      var i :| 0 <= i < |es| && |es| - Streak(es) <= i && es[i].Fail? && es[i].gap > 500;
      assert all[i].gap > 500;
    }
    if Silent(all) {
      var i :| 0 <= i < |all| && |all| - Streak(all) <= i && all[i].Fail? && all[i].gap > 500;
      assert i < |es| ==> es[i].gap > 500;
    }
  }

  lemma RecoveredNext(es: seq<Event>)
    ensures !Silent(es + [Success]) && (Recovering(es + [Success]) <==> Streak(es) >= 5)
  {
    hide After, Recoveries;
    Snoc(es, Success);
    assert (es + [Success])[..|es|] == es;
  }

  /**
   * The domain is degraded exactly when the failures it ends with are three or
   * more, or one of them broke a long silence, or they follow a single success
   * after five failures.
   */
  lemma {:induction false} DegradedIff(es: seq<Event>)
    ensures After(es).tier >= 1 <==> Streak(es) >= 3 || Silent(es) || Recovering(es)
  {
    if es != [] {
      var before, e := es[..|es| - 1], es[|es| - 1];
      assert es == before + [e];
      DegradedIff(before);
      LadderHolds(before);
      QuarantinedIff(before);
      Snoc(before, e);
      hide After, Streak, Recoveries, Silent, Recovering;
      WrappedNext(After(before).consecutive, Streak(before));
      if e.Fail? {
        SilentNext(before, e);
      } else {
        RecoveredNext(before);
      }
    }
  }

  /** Domains that depend on the failing one change nothing: three failures degrade it anyway. */
  lemma DependentsIgnored(r: Rec, tick: nat, gap: nat, dependents: nat)
    ensures RecordFailure(r, Fail(tick, gap, dependents)) == RecordFailure(r, Fail(tick, gap, 0))
  {
  }

  /** What a failure is rated: two from the fifth in a row, one from the third or after a long silence. */
  lemma SuggestedTierIff(n: nat, gap: nat, dependents: nat)
    ensures SuggestedTier(n, gap, dependents) == if n >= 5 then 2 else if n >= 3 || gap > 500 then 1 else 0
  {
  }

  function Failures(es: seq<Event>): nat {
    if es == [] then 0 else Failures(es[..|es| - 1]) + if es[|es| - 1].Fail? then 1 else 0
  }

  function LastTick(es: seq<Event>): nat {
    if es == [] then 0 else if es[|es| - 1].Fail? then es[|es| - 1].tick else LastTick(es[..|es| - 1])
  }

  /** The record counts all failures and remembers when the last one was. */
  lemma {:induction false} TotalsHold(es: seq<Event>)
    ensures After(es).total == Failures(es) % TWO64 && After(es).lastTick == LastTick(es)
  {
    if es != [] {
      TotalsHold(es[..|es| - 1]);
    }
  }

  lemma {:induction false} StreakAllFail(es: seq<Event>, n: nat)
    requires Streak(es) >= n
    ensures |es| >= n && forall i :: |es| - n <= i < |es| ==> es[i].Fail?
    decreases n
  {
    if n > 0 {
      StreakAllFail(es[..|es| - 1], n - 1);
      assert forall i :: |es| - n <= i < |es| - 1 ==> es[i] == es[..|es| - 1][i];
    }
  }

  class DomainFailureRecord {
    var consecutive: nat
    var total: nat
    var lastTick: nat
    var downgraded: nat
    var tier: nat

    ghost function State(): Rec
      reads this
    {
      Rec(consecutive, total, lastTick, downgraded, tier)
    }

    constructor ()
      ensures State() == NEW
    {
      consecutive, total, lastTick, downgraded, tier := 0, 0, 0, 0, 0;
    }

    method Failure(tick: nat, gap: nat, dependents: nat) returns (suggested: nat)
      modifies this
      ensures State() == RecordFailure(old(State()), Fail(tick, gap, dependents))
      ensures suggested == SuggestedTier(consecutive, gap, dependents) <= tier
      ensures tier == Max(old(tier), suggested)
    {
      total := (total + 1) % TWO64;
      consecutive := (consecutive + 1) % TWO32;
      lastTick := tick;
      var n := consecutive;
      var base := if n >= 5 then 2 else if n >= 3 then 1 else 0;
      var heartbeat := if gap > 500 then 1 else 0;
      var dependency := if dependents > 0 && n >= 3 then 1 else 0;
      suggested := Min(Max(Max(base, heartbeat), dependency), 2);
      if suggested > tier {
        tier := suggested;
        downgraded := (downgraded + 1) % TWO32;
      }
    }

    method Recover()
      modifies this
      ensures State() == RecordSuccess(old(State()))
    {
      consecutive := 0;
      if tier > 0 {
        tier := tier - 1;
      }
    }
  }
}

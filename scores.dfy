/**
 * precompute_scores.py: per-foundation aggregation of matched grants into a
 * giving velocity, a set of recipient states and a list of amounts; the
 * ask-amount basis (sorted, 5% trimmed from each end); and one score row per
 * foundation.
 *
 * Amounts are integers. `np.mean` is not computed: a row carries the list
 * whose mean the script takes. `math.log10` is replaced by exact integer
 * arithmetic (see FinancialScore).
 */
module Scores {
  import opened Wrappers

  // ---------------------------------------------------------------------
  // Inputs
  // ---------------------------------------------------------------------

  /** A row of the grants query: `foundation_ein, grant_amount, recipient_state`. */
  datatype ScoreGrant = ScoreGrant(foundationEin: string, amount: Option<int>, recipientState: Option<string>)

  /** A row of `SELECT ein, city, state, assets_fmv FROM foundations`. */
  datatype Foundation = Foundation(ein: string, assets: Option<int>)

  /** `grant['grant_amount'] or 0` */
  function AmountOrZero(g: ScoreGrant): int
  {
    if g.amount.Some? then g.amount.value else 0
  }

  /** `if grant['grant_amount']:` */
  predicate HasAmount(g: ScoreGrant)
  {
    g.amount.Some? && g.amount.value != 0
  }

  // ---------------------------------------------------------------------
  // What the loops compute, per foundation
  // ---------------------------------------------------------------------

  /** The sum of the foundation's amounts, a null amount counting 0. */
  function Velocity(grants: seq<ScoreGrant>, ein: string): (r: int)
    ensures (forall j :: 0 <= j < |grants| ==> grants[j].foundationEin != ein) ==> r == 0
  {
    if grants == [] then 0
    else
      var g := grants[|grants| - 1];
      Velocity(grants[..|grants| - 1], ein) + (if g.foundationEin == ein then AmountOrZero(g) else 0)
  }

  /** The distinct truthy recipient states of the foundation's grants. */
  function States(grants: seq<ScoreGrant>, ein: string): (r: set<string>)
    ensures forall st :: st in r ==> st != ""
    ensures (forall j :: 0 <= j < |grants| ==> grants[j].foundationEin != ein) ==> r == {}
  {
    if grants == [] then {}
    else
      var g := grants[|grants| - 1];
      States(grants[..|grants| - 1], ein)
      + (if g.foundationEin == ein && Truthy(g.recipientState) then {g.recipientState.value} else {})
  }

  /** The foundation's truthy amounts, in grant order. */
  function Amounts(grants: seq<ScoreGrant>, ein: string): (r: seq<int>)
    ensures |r| <= |grants|
    ensures forall k :: 0 <= k < |r| ==> r[k] != 0
  {
    if grants == [] then []
    else
      var g := grants[|grants| - 1];
      Amounts(grants[..|grants| - 1], ein) + (if g.foundationEin == ein && HasAmount(g) then [g.amount.value] else [])
  }

  function Sum(xs: seq<int>): int
  {
    if xs == [] then 0 else Sum(xs[..|xs| - 1]) + xs[|xs| - 1]
  }

  /** `d.get(ein, 0)` on `giving_velocity` */
  function VelocityOf(velocity: map<string, int>, ein: string): int
  {
    if ein in velocity then velocity[ein] else 0
  }

  /** `national_funder.get(ein, set())` */
  function StatesOf(national: map<string, set<string>>, ein: string): set<string>
  {
    if ein in national then national[ein] else {}
  }

  /** One more grant adds its amount to its foundation's velocity. */
  lemma VelocityStep(grants: seq<ScoreGrant>, i: nat, ein: string)
    requires i < |grants|
    ensures Velocity(grants[..i + 1], ein)
            == Velocity(grants[..i], ein) + (if grants[i].foundationEin == ein then AmountOrZero(grants[i]) else 0)
  {
    assert grants[..i + 1][..i] == grants[..i];
    assert grants[..i + 1][i] == grants[i];
  }

  /** One more grant adds its truthy state to its foundation's states. */
  lemma StatesStep(grants: seq<ScoreGrant>, i: nat, ein: string)
    requires i < |grants|
    ensures States(grants[..i + 1], ein)
            == States(grants[..i], ein)
               + (if grants[i].foundationEin == ein && Truthy(grants[i].recipientState) then {grants[i].recipientState.value} else {})
  {
    assert grants[..i + 1][..i] == grants[..i];
    assert grants[..i + 1][i] == grants[i];
  }

  /** One more grant appends its truthy amount to its foundation's amounts. */
  lemma AmountsStep(grants: seq<ScoreGrant>, i: nat, ein: string)
    requires i < |grants|
    ensures Amounts(grants[..i + 1], ein)
            == Amounts(grants[..i], ein) + (if grants[i].foundationEin == ein && HasAmount(grants[i]) then [grants[i].amount.value] else [])
  {
    assert grants[..i + 1][..i] == grants[..i];
    assert grants[..i + 1][i] == grants[i];
  }

  /**
   * The loop over `grants` filling the defaultdicts `giving_velocity` and
   * `national_funder`: every foundation's velocity is the sum of its amounts,
   * and a foundation has a state set, never empty, exactly when one of its
   * grants names a state.
   */
  method AccumulateGrants(grants: seq<ScoreGrant>) returns (velocity: map<string, int>, national: map<string, set<string>>)
    ensures forall ein :: VelocityOf(velocity, ein) == Velocity(grants, ein)
    ensures forall ein :: StatesOf(national, ein) == States(grants, ein)
    ensures forall ein :: ein in national ==> national[ein] != {}
  {
    velocity := map[];
    national := map[];
    var i := 0;
    while i < |grants|
      invariant i <= |grants|
      invariant forall ein :: VelocityOf(velocity, ein) == Velocity(grants[..i], ein)
      invariant forall ein :: StatesOf(national, ein) == States(grants[..i], ein)
      invariant forall ein :: ein in national ==> national[ein] != {}
    {
      var velocity0, national0 := velocity, national;
      var grant := grants[i];
      var ein := grant.foundationEin;
      velocity := velocity[ein := VelocityOf(velocity, ein) + AmountOrZero(grant)];
      if grant.recipientState.Some? && grant.recipientState.value != "" {
        national := national[ein := StatesOf(national, ein) + {grant.recipientState.value}];
      }
      i := i + 1;
      forall e
        ensures VelocityOf(velocity, e) == Velocity(grants[..i], e)
        ensures StatesOf(national, e) == States(grants[..i], e)
      {
        VelocityStep(grants, i - 1, e);
        StatesStep(grants, i - 1, e);
        assert VelocityOf(velocity0, e) == Velocity(grants[..i - 1], e);
        assert StatesOf(national0, e) == States(grants[..i - 1], e);
      }
    }
    assert grants[..i] == grants;
  }

  /**
   * The loop filling `grants_by_foundation`: a foundation has a list exactly
   * when it has a truthy amount, so no stored list is empty.
   */
  method GroupAmounts(grants: seq<ScoreGrant>) returns (byFoundation: map<string, seq<int>>)
    ensures forall ein :: ein in byFoundation <==> Amounts(grants, ein) != []
    ensures forall ein :: ein in byFoundation ==> byFoundation[ein] == Amounts(grants, ein)
  {
    byFoundation := map[];
    var i := 0;
    while i < |grants|
      invariant i <= |grants|
      invariant forall ein :: ein in byFoundation <==> Amounts(grants[..i], ein) != []
      invariant forall ein :: ein in byFoundation ==> byFoundation[ein] == Amounts(grants[..i], ein)
    {
      var byFoundation0 := byFoundation;
      var grant := grants[i];
      if grant.amount.Some? && grant.amount.value != 0 {
        var ein := grant.foundationEin;
        var list := if ein in byFoundation then byFoundation[ein] else [];
        byFoundation := byFoundation[ein := list + [grant.amount.value]];
      }
      i := i + 1;
      forall e
        ensures e in byFoundation <==> Amounts(grants[..i], e) != []
        ensures e in byFoundation ==> byFoundation[e] == Amounts(grants[..i], e)
      {
        AmountsStep(grants, i - 1, e);
        assert e in byFoundation0 <==> Amounts(grants[..i - 1], e) != [];
        if e in byFoundation0 {
          assert byFoundation0[e] == Amounts(grants[..i - 1], e);
        }
      }
    }
    assert grants[..i] == grants;
  }

  /**
   * The stored amounts are exactly the foundation's non-zero amounts, and
   * the velocity is their sum: null and zero amounts add nothing.
   */
  lemma {:induction false} AmountsAndVelocity(grants: seq<ScoreGrant>, ein: string)
    ensures forall x :: x in Amounts(grants, ein) <==>
              exists j :: 0 <= j < |grants| && grants[j].foundationEin == ein && grants[j].amount == Some(x) && x != 0
    ensures Velocity(grants, ein) == Sum(Amounts(grants, ein))
  {
    if grants != [] {
      var front := grants[..|grants| - 1];
      var g := grants[|grants| - 1];
      AmountsAndVelocity(front, ein);
      var extra := if g.foundationEin == ein && HasAmount(g) then [g.amount.value] else [];
      SumAppend(Amounts(front, ein), extra);
      forall x
        ensures x in Amounts(grants, ein) <==>
                exists j :: 0 <= j < |grants| && grants[j].foundationEin == ein && grants[j].amount == Some(x) && x != 0
      {
        if exists j :: 0 <= j < |grants| && grants[j].foundationEin == ein && grants[j].amount == Some(x) && x != 0 {
          var j :| 0 <= j < |grants| && grants[j].foundationEin == ein && grants[j].amount == Some(x) && x != 0;
          if j < |front| {
            assert front[j] == grants[j];
          }
        }
        if x in Amounts(front, ein) {
          var j :| 0 <= j < |front| && front[j].foundationEin == ein && front[j].amount == Some(x) && x != 0;
          assert grants[j] == front[j];
        }
      }
    }
  }

  lemma {:induction false} SumAppend(a: seq<int>, b: seq<int>)
    ensures Sum(a + b) == Sum(a) + Sum(b)
    decreases |b|
  {
    if b == [] {
      assert a + b == a;
    } else {
      assert (a + b)[..|a + b| - 1] == a + b[..|b| - 1];
      SumAppend(a, b[..|b| - 1]);
    }
  }

  /** Every state in a foundation's set is one of its grants' truthy states. */
  lemma {:induction false} StatesFromGrants(grants: seq<ScoreGrant>, ein: string, s: string)
    ensures s in States(grants, ein) <==>
            exists j :: 0 <= j < |grants| && grants[j].foundationEin == ein && grants[j].recipientState == Some(s) && s != ""
  {
    if grants != [] {
      var front := grants[..|grants| - 1];
      StatesFromGrants(front, ein, s);
      if exists j :: 0 <= j < |grants| && grants[j].foundationEin == ein && grants[j].recipientState == Some(s) && s != "" {
        var j :| 0 <= j < |grants| && grants[j].foundationEin == ein && grants[j].recipientState == Some(s) && s != "";
        if j < |front| {
          assert front[j] == grants[j];
        }
      }
      if s in States(front, ein) {
        var j :| 0 <= j < |front| && front[j].foundationEin == ein && front[j].recipientState == Some(s) && s != "";
        assert grants[j] == front[j];
      }
    }
  }

  // ---------------------------------------------------------------------
  // The ask-amount basis: sort, trim 5% from each end
  // ---------------------------------------------------------------------

  predicate Sorted(s: seq<int>)
  {
    forall i, j :: 0 <= i < j < |s| ==> s[i] <= s[j]
  }

  function Insert(x: int, s: seq<int>): (r: seq<int>)
    ensures |r| == |s| + 1
    ensures multiset(r) == multiset(s) + multiset{x}
  {
    if s == [] || x <= s[0] then [x] + s
    else
      assert s == [s[0]] + s[1..];
      [s[0]] + Insert(x, s[1..])
  }

  lemma {:induction false} InsertSorted(x: int, s: seq<int>)
    requires Sorted(s)
    ensures Sorted(Insert(x, s))
  {
    if s != [] && x > s[0] {
      InsertSorted(x, s[1..]);
      var r := Insert(x, s[1..]);
      forall k | 0 <= k < |r|
        ensures s[0] <= r[k]
      {
        assert r[k] in multiset(r);
        assert r[k] in multiset(s[1..]) + multiset{x};
        if r[k] in multiset(s[1..]) {
          var m :| 0 <= m < |s[1..]| && s[1..][m] == r[k];
          assert s[1..][m] == s[m + 1];
        }
      }
    }
  }

  /** `list.sort()`: a sorted permutation. */
  function SortSeq(s: seq<int>): (r: seq<int>)
    ensures |r| == |s|
    ensures multiset(r) == multiset(s)
  {
    if s == [] then []
    else
      assert s == [s[0]] + s[1..];
      Insert(s[0], SortSeq(s[1..]))
  }

  lemma {:induction false} SortSeqSorted(s: seq<int>)
    ensures Sorted(SortSeq(s))
  {
    if s != [] {
      SortSeqSorted(s[1..]);
      InsertSorted(s[0], SortSeq(s[1..]));
    }
  }

  /** `amounts.sort()`, in place. */
  method SortInPlace(a: array<int>)
    modifies a
    ensures a[..] == SortSeq(old(a[..]))
    ensures Sorted(a[..]) && multiset(a[..]) == multiset(old(a[..]))
  {
    var s := SortSeq(a[..]);
    SortSeqSorted(a[..]);
    forall i | 0 <= i < a.Length {
      a[i] := s[i];
    }
    assert a[..] == s;
  }

  /** `int(len(amounts) * 0.05)`, as exact arithmetic. */
  function TrimCount(n: nat): nat
  {
    n / 20
  }

  /** `amounts[trim_count:-trim_count] if trim_count > 0 else amounts` */
  function Trimmed(s: seq<int>): seq<int>
  {
    var t := TrimCount(|s|);
    if t > 0 then s[t..|s| - t] else s
  }

  /**
   * From three amounts on, the trim drops `n / 20` elements from each end
   * and always leaves at least one.
   */
  lemma TrimmedShape(s: seq<int>)
    requires |s| >= 3
    ensures |Trimmed(s)| == |s| - 2 * TrimCount(|s|) >= 1
    ensures Trimmed(s) == s[TrimCount(|s|)..|s| - TrimCount(|s|)]
  {
  }

  /**
   * A trimmed sorted list is sorted, and lies between the last element
   * dropped at the low end and the first dropped at the high end.
   */
  lemma TrimmedOfSorted(s: seq<int>)
    requires |s| >= 3 && Sorted(s)
    ensures Sorted(Trimmed(s))
    ensures TrimCount(|s|) > 0 ==> forall k :: 0 <= k < |Trimmed(s)| ==>
              s[TrimCount(|s|) - 1] <= Trimmed(s)[k] <= s[|s| - TrimCount(|s|)]
  {
    var t := TrimCount(|s|);
    forall k | 0 <= k < |Trimmed(s)|
      ensures Trimmed(s)[k] == s[t + k]
    {
    }
  }

  /** The value stored in `smart_ask_amounts`: the mean of this list, or 0. */
  datatype Ask = NoAsk | MeanOf(basis: seq<int>)

  /** What the loop over `grants_by_foundation.items()` stores for one list of amounts. */
  function AskOf(amounts: seq<int>): (r: Ask)
    ensures r.NoAsk? <==> amounts == []
    ensures r.MeanOf? ==> 0 < |r.basis| <= |amounts|
  {
    if |amounts| < 3 then (if amounts != [] then MeanOf(amounts) else NoAsk)
    else
      TrimmedShape(SortSeq(amounts));
      var trimmed := Trimmed(SortSeq(amounts));
      if trimmed != [] then MeanOf(trimmed) else NoAsk
  }

  /**
   * A foundation with amounts always gets a mean: of all its amounts below
   * three, otherwise of its sorted amounts with `n / 20` dropped from each
   * end (TrimmedShape), at least one remaining.
   */
  lemma AskOfBasis(amounts: seq<int>)
    requires amounts != []
    ensures AskOf(amounts).MeanOf?
    ensures |amounts| < 3 ==> AskOf(amounts).basis == amounts
    ensures |amounts| >= 3 ==>
              && AskOf(amounts).basis == Trimmed(SortSeq(amounts))
              && |AskOf(amounts).basis| == |amounts| - 2 * TrimCount(|amounts|) >= 1
  {
    if |amounts| >= 3 {
      AskOfLong(amounts);
      TrimmedShape(SortSeq(amounts));
    }
  }

  lemma AskOfLong(amounts: seq<int>)
    requires |amounts| >= 3
    ensures AskOf(amounts) == MeanOf(Trimmed(SortSeq(amounts)))
  {
    TrimmedShape(SortSeq(amounts));
  }

  /** One turn of the loop over `grants_by_foundation.items()`; the list is sorted in place. */
  method SmartAsk(amounts: array<int>) returns (ask: Ask)
    modifies amounts
    ensures ask == AskOf(old(amounts[..]))
    ensures amounts.Length < 3 ==> amounts[..] == old(amounts[..])
    ensures amounts.Length >= 3 ==> amounts[..] == SortSeq(old(amounts[..]))
  {
    if amounts.Length < 3 {
      ask := if amounts.Length > 0 then MeanOf(amounts[..]) else NoAsk;
      return;
    }
    SortInPlace(amounts);
    var trimCount := amounts.Length / 20;
    var trimmed := if trimCount > 0 then amounts[trimCount..amounts.Length - trimCount] else amounts[..];
    ask := if trimmed != [] then MeanOf(trimmed) else NoAsk;
  }

  /** The loop filling `smart_ask_amounts`, one entry per foundation with amounts. */
  method SmartAskAmounts(byFoundation: map<string, seq<int>>) returns (asks: map<string, Ask>)
    ensures asks.Keys == byFoundation.Keys
    ensures forall ein :: ein in asks ==> asks[ein] == AskOf(byFoundation[ein])
  {
    asks := map[];
    var remaining := byFoundation.Keys;
    while remaining != {}
      invariant remaining <= byFoundation.Keys
      invariant asks.Keys == byFoundation.Keys - remaining
      invariant forall ein :: ein in asks ==> asks[ein] == AskOf(byFoundation[ein])
      decreases remaining
    {
      var ein :| ein in remaining;
      var list := byFoundation[ein];
      var amounts := new int[|list|];
      forall i | 0 <= i < |list| {
        amounts[i] := list[i];
      }
      assert amounts[..] == list;
      var ask := SmartAsk(amounts);
      asks := asks[ein := ask];
      remaining := remaining - {ein};
    }
  }

  // ---------------------------------------------------------------------
  // Scores
  // ---------------------------------------------------------------------

  /** `100 if num_states > 10 else (50 if num_states >= 5 else 0)` */
  function NationalScore(numStates: nat): (r: int)
    ensures r == 0 || r == 50 || r == 100
    ensures r == 0 <==> numStates < 5
  {
    if numStates > 10 then 100 else if numStates >= 5 then 50 else 0
  }

  /** The national score takes the values 0, 50 and 100 and never drops as the state count grows. */
  lemma NationalScoreTiers(m: nat, n: nat)
    requires m <= n
    ensures NationalScore(n) in {0, 50, 100}
    ensures NationalScore(m) <= NationalScore(n)
    ensures NationalScore(n) == 100 <==> n >= 11
    ensures NationalScore(n) == 0 <==> n <= 4
  {
  }

  function Pow(b: nat, e: nat): nat
  {
    if e == 0 then 1 else b * Pow(b, e - 1)
  }

  /** The largest `k <= top` with `10^k <= p`, or 0 when there is none. */
  function Level(p: nat, top: nat): (r: nat)
    ensures r <= top
    ensures r == 0 || Pow(10, r) <= p
    ensures forall j :: r < j <= top ==> p < Pow(10, j)
  {
    if top == 0 || Pow(10, top) <= p then top else Level(p, top - 1)
  }

  /**
   * `int(min(100, math.log10(assets) * 10)) if assets and assets > 0 else 0`,
   * in exact arithmetic: `floor(10 * log10(a))` is the largest `k` with
   * `10^k <= a^10`.
   */
  function FinancialScore(assets: Option<int>): (r: nat)
    ensures r <= 100
    ensures assets.None? || assets.value <= 0 ==> r == 0
  {
    if assets.Some? && assets.value > 0 then Level(Pow(assets.value, 10), 100) else 0
  }

  lemma {:induction false} PowMonotone(a: nat, b: nat, e: nat)
    requires a <= b
    ensures Pow(a, e) <= Pow(b, e)
    ensures a < b && e > 0 ==> Pow(a, e) < Pow(b, e)
  {
    if e > 0 {
      PowMonotone(a, b, e - 1);
      var x := Pow(a, e - 1);
      var y := Pow(b, e - 1);
      assert Pow(a, e) == a * x && Pow(b, e) == b * y;
      MulMonotone(a, b, x);
      MulMonotone(x, y, b);
      if a < b {
        PowPositive(b, e - 1);
        MulStrict(a, b, y);
        MulMonotone(x, y, a);
      }
    }
  }

  lemma MulStrict(a: nat, b: nat, c: nat)
    requires a < b && c > 0
    ensures a * c < b * c
  {
  }

  lemma MulMonotone(a: nat, b: nat, c: nat)
    requires a <= b
    ensures a * c <= b * c && c * a <= c * b
  {
  }

  lemma {:induction false} PowPositive(b: nat, e: nat)
    requires b > 0
    ensures Pow(b, e) > 0
  {
    if e > 0 {
      PowPositive(b, e - 1);
    }
  }

  lemma {:induction false} PowAdd(b: nat, m: nat, n: nat)
    ensures Pow(b, m + n) == Pow(b, m) * Pow(b, n)
    decreases m
  {
    if m > 0 {
      PowAdd(b, m - 1, n);
      assert Pow(b, m + n) == b * Pow(b, m - 1 + n);
    }
  }

  lemma {:induction false} PowPow(b: nat, m: nat, n: nat)
    ensures Pow(Pow(b, m), n) == Pow(b, m * n)
    decreases n
  {
    if n > 0 {
      PowPow(b, m, n - 1);
      PowAdd(b, m, m * (n - 1));
      assert m + m * (n - 1) == m * n;
    }
  }

  /** More assets never lower the financial score. */
  lemma FinancialMonotone(a: int, b: int)
    requires 0 < a <= b
    ensures FinancialScore(Some(a)) <= FinancialScore(Some(b))
  {
    PowMonotone(a, b, 10);
  }

  /** The score reaches its cap of 100 exactly from assets of 10^10 on. */
  lemma FinancialCap(a: int)
    requires a > 0
    ensures FinancialScore(Some(a)) == 100 <==> a >= Pow(10, 10)
  {
    PowPow(10, 10, 10);
    if a >= Pow(10, 10) {
      PowMonotone(Pow(10, 10), a, 10);
    } else {
      PowMonotone(a, Pow(10, 10), 10);
    }
  }

  /** One dict of `scores_to_insert`. */
  datatype ScoreRow = ScoreRow(foundationEin: string, geoScore: int, financialScore: int,
                               givingVelocityScore: int, nationalFunderScore: int, smartAsk: Ask)

  /** `smart_ask_amounts.get(ein, 0)` */
  function AskFor(asks: map<string, Ask>, ein: string): Ask
  {
    if ein in asks then asks[ein] else NoAsk
  }

  /** The dict appended for foundation `f`, from the three accumulated dicts. */
  function RowFor(f: Foundation, velocity: map<string, int>, national: map<string, set<string>>,
                  asks: map<string, Ask>): (r: ScoreRow)
    ensures r.foundationEin == f.ein && r.geoScore == 0
    ensures 0 <= r.financialScore <= 100
    ensures r.nationalFunderScore == 0 || r.nationalFunderScore == 50 || r.nationalFunderScore == 100
    ensures f.ein !in velocity ==> r.givingVelocityScore == 0
  {
    ScoreRow(f.ein, 0, FinancialScore(f.assets), VelocityOf(velocity, f.ein),
             NationalScore(|StatesOf(national, f.ein)|), AskFor(asks, f.ein))
  }

  /** The loop over `foundations` appending to `scores_to_insert`. */
  method BuildScoreRows(foundations: seq<Foundation>, velocity: map<string, int>,
                        national: map<string, set<string>>, asks: map<string, Ask>)
    returns (rows: seq<ScoreRow>)
    ensures |rows| == |foundations|
    ensures forall i :: 0 <= i < |rows| ==> rows[i] == RowFor(foundations[i], velocity, national, asks)
  {
    rows := [];
    var i := 0;
    while i < |foundations|
      invariant i <= |foundations|
      invariant |rows| == i
      invariant forall k :: 0 <= k < i ==> rows[k] == RowFor(foundations[k], velocity, national, asks)
    {
      var f := foundations[i];
      var financialScore := FinancialScore(f.assets);
      var numStates := |StatesOf(national, f.ein)|;
      var nationalScore := if numStates > 10 then 100 else if numStates >= 5 then 50 else 0;
      rows := rows + [ScoreRow(f.ein, 0, financialScore, VelocityOf(velocity, f.ein), nationalScore, AskFor(asks, f.ein))];
      i := i + 1;
    }
  }

  /** The row a foundation gets, from the grants alone. */
  function ExpectedRow(f: Foundation, grants: seq<ScoreGrant>): ScoreRow
  {
    ScoreRow(f.ein, 0, FinancialScore(f.assets), Velocity(grants, f.ein),
             NationalScore(|States(grants, f.ein)|),
             if Amounts(grants, f.ein) == [] then NoAsk else AskOf(Amounts(grants, f.ein)))
  }

  /**
   * `main` after the two queries: exactly one row per foundation, in
   * foundation order, each computed from that foundation's grants.
   */
  method PrecomputeScores(foundations: seq<Foundation>, grants: seq<ScoreGrant>) returns (rows: seq<ScoreRow>)
    ensures |rows| == |foundations|
    ensures forall i :: 0 <= i < |rows| ==> rows[i] == ExpectedRow(foundations[i], grants)
  {
    var velocity, national := AccumulateGrants(grants);
    var byFoundation := GroupAmounts(grants);
    var asks := SmartAskAmounts(byFoundation);
    rows := BuildScoreRows(foundations, velocity, national, asks);
  }

  /**
   * Every row has geo score 0, a financial score within 0..100, and a smart
   * ask of 0 exactly when the foundation has no truthy amount.
   */
  lemma ExpectedRowShape(f: Foundation, grants: seq<ScoreGrant>)
    ensures ExpectedRow(f, grants).geoScore == 0
    ensures 0 <= ExpectedRow(f, grants).financialScore <= 100
    ensures ExpectedRow(f, grants).smartAsk.NoAsk? <==> Amounts(grants, f.ein) == []
  {
    if Amounts(grants, f.ein) != [] {
      AskOfBasis(Amounts(grants, f.ein));
    }
  }
}

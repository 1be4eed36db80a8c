/**
 * The shared champion pool of src/models/pool.py: how many undrawn copies of
 * each champion are left, per cost tier, the instance-id counter, and the
 * weighted choice that `get` uses twice per attempt.
 *
 * The random value that `uniform(0, total)` would produce is a parameter
 * everywhere, and weights are integers.
 */
module Pool {
  import opened Wrappers
  import opened Champions

  // ---------------------------------------------------------------------
  // Weighted choice (choose_rand_from_list)

  /** Total of a list of weights (`sum(weighted_list)`). */
  function Sum(w: seq<int>): int
  {
    if |w| == 0 then 0 else w[0] + Sum(w[1..])
  }

  /** Prefix(w, n) = w[0] + ... + w[n-1]. */
  function Prefix(w: seq<int>, n: nat): int
    requires n <= |w|
  {
    Sum(w[..n])
  }

  lemma PrefixTail(w: seq<int>, n: nat)
    requires n < |w|
    ensures Prefix(w, n + 1) == w[0] + Prefix(w[1..], n)
  {
    assert w[..n + 1][1..] == w[1..][..n];
  }

  lemma {:induction false} PrefixSnoc(w: seq<int>, n: nat)
    requires n < |w|
    ensures Prefix(w, n + 1) == Prefix(w, n) + w[n]
  {
    PrefixTail(w, n);
    if n == 0 {
      assert w[1..][..0] == [];
      assert w[..0] == [];
    } else {
      PrefixTail(w, n - 1);
      PrefixSnoc(w[1..], n - 1);
    }
  }

  /**
   * The walk of choose_rand_from_list, stated recursively: take each weight
   * off r in turn and answer the first index where what is left is zero or
   * below; -1 when that never happens.
   */
  function Pick(w: seq<int>, r: int): (i: int)
    ensures -1 <= i < |w|
  {
    if |w| == 0 then -1
    else if r - w[0] <= 0 then 0
    else
      var j := Pick(w[1..], r - w[0]);
      if j == -1 then -1 else j + 1
  }

  /**
   * The independent description of the choice: i is the least index whose
   * prefix sum w[0] + ... + w[i] reaches r, and i = -1 means that no prefix
   * sum does.
   */
  predicate FirstReaching(w: seq<int>, r: int, i: int)
    requires -1 <= i < |w|
  {
    && (i >= 0 ==> r <= Prefix(w, i + 1))
    && forall n :: 1 <= n <= |w| && (i == -1 || n <= i) ==> Prefix(w, n) < r
  }

  lemma {:induction false} PickIsFirstReaching(w: seq<int>, r: int)
    ensures FirstReaching(w, r, Pick(w, r))
  {
    if w != [] {
      PrefixTail(w, 0);
      assert w[1..][..0] == [];
      if r - w[0] > 0 {
        PickIsFirstReaching(w[1..], r - w[0]);
        var j := Pick(w[1..], r - w[0]);
        if j >= 0 {
          PrefixTail(w, j + 1);
        }
        forall n | 1 <= n <= |w| && (Pick(w, r) == -1 || n <= Pick(w, r))
          ensures Prefix(w, n) < r
        {
          PrefixTail(w, n - 1);
          if n > 1 {
            assert Prefix(w[1..], n - 1) < r - w[0];
          }
        }
      }
    }
  }

  /** Pick is exactly the first index reaching r: both directions. */
  lemma FirstReachingIsPick(w: seq<int>, r: int, i: int)
    requires -1 <= i < |w|
    ensures FirstReaching(w, r, i) <==> i == Pick(w, r)
  {
    PickIsFirstReaching(w, r);
  }

  /**
   * choose_rand_from_list(weighted_list) with `uniform(0, total)` replaced
   * by the given r: subtract the weights one by one and stop as soon as the
   * remainder is zero or below.
   */
  method ChooseRandFromList(weights: seq<int>, r: int) returns (i: int)
    ensures -1 <= i < |weights|
    ensures FirstReaching(weights, r, i)
    ensures i == Pick(weights, r)
  {
    var rand := r;
    assert weights[..0] == [];
    for k := 0 to |weights|
      invariant rand == r - Prefix(weights, k)
      invariant forall n :: 1 <= n <= k ==> Prefix(weights, n) < r
    {
      PrefixSnoc(weights, k);
      rand := rand - weights[k];
      if rand <= 0 {
        i := k;
        FirstReachingIsPick(weights, r, i);
        return;
      }
    }
    i := -1;
    FirstReachingIsPick(weights, r, i);
  }

  /** With r at most the total weight, the walk never falls off the end. */
  lemma PickInRange(w: seq<int>, r: int)
    requires w != [] && r <= Sum(w)
    ensures 0 <= Pick(w, r) < |w|
  {
    PickIsFirstReaching(w, r);
    assert w[..|w|] == w;
    assert Prefix(w, |w|) == Sum(w);
  }

  /** A strictly positive r never lands on an index of weight zero or less. */
  lemma PickedWeightPositive(w: seq<int>, r: int)
    requires r > 0 && Pick(w, r) >= 0
    ensures w[Pick(w, r)] > 0
  {
    var i := Pick(w, r);
    PickIsFirstReaching(w, r);
    PrefixSnoc(w, i);
    if i > 0 {
      assert Prefix(w, i) < r;
    } else {
      assert w[..0] == [];
    }
  }

  lemma {:induction false} SumOfZeros(w: seq<int>)
    requires forall i :: 0 <= i < |w| ==> w[i] == 0
    ensures Sum(w) == 0
  {
    if w != [] {
      SumOfZeros(w[1..]);
    }
  }

  /** All-zero weights leave `uniform(0, 0)` only 0, and the walk stops at index 0. */
  lemma AllZeroPicksFirst(w: seq<int>, r: int)
    requires w != [] && forall i :: 0 <= i < |w| ==> w[i] == 0
    requires 0 <= r <= Sum(w)
    ensures r == 0 && Pick(w, r) == 0
  {
    SumOfZeros(w);
  }

  lemma {:induction false} SumUpdate(w: seq<int>, k: nat, v: int)
    requires k < |w|
    ensures Sum(w[k := v]) == Sum(w) - w[k] + v
  {
    if k == 0 {
      assert w[k := v][1..] == w[1..];
    } else {
      assert w[k := v][1..] == w[1..][k - 1 := v];
      SumUpdate(w[1..], k - 1, v);
    }
  }

  // ---------------------------------------------------------------------
  // Cost tiers: the inner dicts {champion name: copies left}

  /** One key of a tier's dict with its count. */
  datatype Tally = Tally(name: string, count: int)

  /** A tier's dict in insertion order, which is the order its list comprehension sees. */
  type Tier = seq<Tally>

  /** The count column of a tier (the list comprehensions of `get`). */
  function Counts(t: Tier): seq<int>
  {
    seq(|t|, i requires 0 <= i < |t| => t[i].count)
  }

  /** Copies of a tier still in the pool. */
  function Supply(t: Tier): int
  {
    Sum(Counts(t))
  }

  /** Dict keys are unique. */
  predicate DistinctNames(t: Tier)
  {
    forall i, j :: 0 <= i < j < |t| ==> t[i].name != t[j].name
  }

  /** Where a name sits among a tier's keys: its first position, or -1 when it is not a key. */
  function IndexOf(t: Tier, name: string): (k: int)
    ensures -1 <= k < |t|
    ensures k >= 0 ==> t[k].name == name
    ensures forall i :: 0 <= i < |t| && (k == -1 || i < k) ==> t[i].name != name
  {
    if |t| == 0 then -1
    else if t[0].name == name then 0
    else
      var k := IndexOf(t[1..], name);
      if k == -1 then -1 else k + 1
  }

  /** The tier after one copy of its k-th champion leaves. */
  function Take(t: Tier, k: nat): Tier
    requires k < |t|
  {
    t[k := Tally(t[k].name, t[k].count - 1)]
  }

  /** The tier after n copies of its k-th champion come back. */
  function Give(t: Tier, k: nat, n: int): Tier
    requires k < |t|
  {
    t[k := Tally(t[k].name, t[k].count + n)]
  }

  /** Dict assignment `tier[name] = n`: overwrite the key in place, or append it. */
  function Store(t: Tier, name: string, n: int): Tier
  {
    var k := IndexOf(t, name);
    if k == -1 then t + [Tally(name, n)] else t[k := Tally(name, n)]
  }

  /** Taking one copy lowers exactly that count by one, and the tier's supply by one. */
  lemma TakeAccounting(t: Tier, k: nat)
    requires k < |t|
    ensures Counts(Take(t, k)) == Counts(t)[k := t[k].count - 1]
    ensures Supply(Take(t, k)) == Supply(t) - 1
  {
    assert Counts(Take(t, k)) == Counts(t)[k := t[k].count - 1];
    SumUpdate(Counts(t), k, t[k].count - 1);
  }

  /** Giving n copies raises exactly that count by n, and the tier's supply by n. */
  lemma GiveAccounting(t: Tier, k: nat, n: int)
    requires k < |t|
    ensures Counts(Give(t, k, n)) == Counts(t)[k := t[k].count + n]
    ensures Supply(Give(t, k, n)) == Supply(t) + n
  {
    assert Counts(Give(t, k, n)) == Counts(t)[k := t[k].count + n];
    SumUpdate(Counts(t), k, t[k].count + n);
  }

  /** In a tier with unique keys, the key at position k is found at k. */
  lemma IndexOfDistinct(t: Tier, k: nat)
    requires DistinctNames(t) && k < |t|
    ensures IndexOf(t, t[k].name) == k
  {
  }

  /** What `tier[name] = n` does: name now maps to n, every other key keeps its place and count. */
  lemma StoreFacts(t: Tier, name: string, n: int)
    ensures var u := Store(t, name, n);
      && |t| <= |u| <= |t| + 1
      && IndexOf(u, name) >= 0 && u[IndexOf(u, name)].count == n
      && (forall i :: 0 <= i < |u| ==> (u[i].name == name && u[i].count == n) || (i < |t| && u[i] == t[i]))
      && (forall i :: 0 <= i < |t| ==> u[i].name == t[i].name)
      && (forall m :: m != name ==> IndexOf(u, m) == IndexOf(t, m))
      && (DistinctNames(t) ==> DistinctNames(u))
  {
    var u := Store(t, name, n);
    var k := IndexOf(t, name);
    var at := if k == -1 then |t| else k;
    assert u[at].name == name && u[at].count == n;
    assert forall i :: 0 <= i < at ==> u[i] == t[i];
    assert IndexOf(u, name) == at;
    forall m | m != name
      ensures IndexOf(u, m) == IndexOf(t, m)
    {
      var p, q := IndexOf(u, m), IndexOf(t, m);
      if q >= 0 {
        assert u[q].name == m;
      }
      if p >= 0 && p < |t| {
        assert t[p].name == m;
      }
    }
  }

  // ---------------------------------------------------------------------
  // Pool state and the specification of get / put

  /** `cost_to_counts` and `max_id`; `name_to_champ` never changes after construction. */
  datatype PoolState = PoolState(counts: map<int, Tier>, maxId: int)

  /** Unique keys, no negative count, every name known to the catalog. */
  ghost predicate WellFormedTier(t: Tier, catalog: map<string, Champion>)
  {
    DistinctNames(t) && forall i :: 0 <= i < |t| ==> t[i].count >= 0 && t[i].name in catalog
  }

  ghost predicate WellFormed(s: PoolState, catalog: map<string, Champion>)
  {
    s.maxId >= 0 && forall c :: c in s.counts ==> WellFormedTier(s.counts[c], catalog)
  }

  /** Where the two weighted draws of one `get` attempt land. */
  datatype Choice =
    | NoCost                            // the cost draw gave -1
    | NoTier(cost: int)                 // the drawn cost is not a key of cost_to_counts
    | NoChamp(cost: int)                // the champion draw gave -1
    | Depleted(cost: int, index: int)   // the drawn champion has no copies left
    | Chosen(cost: int, index: int)     // a champion with copies left

  function Choose(counts: map<int, Tier>, rates: seq<int>, rCost: int, rChamp: int): (ch: Choice)
    ensures ch.Depleted? || ch.Chosen? ==> ch.cost in counts && 0 <= ch.index < |counts[ch.cost]|
    ensures ch.Chosen? ==> counts[ch.cost][ch.index].count > 0
  {
    var cost := Pick(rates, rCost);
    if cost == -1 then NoCost
    else if cost !in counts then NoTier(cost)
    else
      var k := Pick(Counts(counts[cost]), rChamp);
      if k == -1 then NoChamp(cost)
      else if counts[cost][k].count <= 0 then Depleted(cost, k)
      else Chosen(cost, k)
  }

  /** What one call of `get` hands back. */
  datatype Outcome =
    | Got(champ: Champion)   // a fresh clone
    | Nothing                // a weighted draw gave -1: `get` returns None
    | KeyError               // a dict lookup raised
    | Retry                  // the drawn champion was depleted: `get` calls itself again

  /** One attempt of `get`, without its recursive retry. */
  function DrawStep(s: PoolState, catalog: map<string, Champion>, rates: seq<int>, rCost: int, rChamp: int): (Outcome, PoolState)
  {
    match Choose(s.counts, rates, rCost, rChamp)
    case NoCost => (Nothing, s)
    case NoTier(_) => (KeyError, s)
    case NoChamp(_) => (Nothing, s)
    case Depleted(_, _) => (Retry, s)
    case Chosen(cost, k) =>
      var t := s.counts[cost];
      var s' := PoolState(s.counts[cost := Take(t, k)], s.maxId + 1);
      if t[k].name in catalog then (Got(Clone(catalog[t[k].name], s'.maxId)), s') else (KeyError, s')
  }

  /** s' is s with one copy of one champion that had a copy left drawn, and the id counter bumped. */
  ghost predicate TookOne(s: PoolState, s': PoolState)
  {
    && s'.maxId == s.maxId + 1
    && exists c, k :: c in s.counts && 0 <= k < |s.counts[c]| && s.counts[c][k].count > 0
                      && s'.counts == s.counts[c := Take(s.counts[c], k)]
  }

  /**
   * One attempt of `get` on a well-formed pool: it either draws one copy of
   * a champion that had one, bumps max_id and hands out a clone carrying the
   * new id, or it changes nothing at all. Either way the pool stays
   * well-formed, so counts never go negative.
   */
  lemma DrawAccounting(s: PoolState, catalog: map<string, Champion>, rates: seq<int>, rCost: int, rChamp: int)
    requires WellFormed(s, catalog)
    ensures var step := DrawStep(s, catalog, rates, rCost, rChamp);
      && WellFormed(step.1, catalog)
      && (step.0.Got? ==> TookOne(s, step.1) && step.0.champ.id == step.1.maxId)
      && (!step.0.Got? ==> step.1 == s)
  {
    var ch := Choose(s.counts, rates, rCost, rChamp);
    if ch.Chosen? {
      var t := s.counts[ch.cost];
      var s' := DrawStep(s, catalog, rates, rCost, rChamp).1;
      assert s'.counts[ch.cost] == Take(t, ch.index);
      assert WellFormedTier(Take(t, ch.index), catalog);
      assert forall c :: c in s'.counts ==> WellFormedTier(s'.counts[c], catalog);
    }
  }

  /** A depleted champion is drawn only when the champion draw's random value is zero or below. */
  lemma DepletedOnlyOnZeroDraw(counts: map<int, Tier>, rates: seq<int>, rCost: int, rChamp: int)
    requires forall c :: c in counts ==> forall i :: 0 <= i < |counts[c]| ==> counts[c][i].count >= 0
    requires Choose(counts, rates, rCost, rChamp).Depleted?
    ensures rChamp <= 0
  {
    var ch := Choose(counts, rates, rCost, rChamp);
    var w := Counts(counts[ch.cost]);
    if rChamp > 0 {
      PickedWeightPositive(w, rChamp);
    }
  }

  /**
   * A tier that every copy has left: once the cost draw selects it, every
   * champion draw `uniform(0, 0)` can produce picks its first, depleted,
   * champion, so every attempt retries and changes nothing.
   */
  lemma ExhaustedTierRetries(s: PoolState, catalog: map<string, Champion>, rates: seq<int>, rCost: int, rChamp: int)
    requires Pick(rates, rCost) >= 0 && Pick(rates, rCost) in s.counts
    requires var t := s.counts[Pick(rates, rCost)]; t != [] && forall i :: 0 <= i < |t| ==> t[i].count == 0
    requires 0 <= rChamp <= Supply(s.counts[Pick(rates, rCost)])
    ensures Choose(s.counts, rates, rCost, rChamp) == Depleted(Pick(rates, rCost), 0)
    ensures DrawStep(s, catalog, rates, rCost, rChamp) == (Retry, s)
  {
    var t := s.counts[Pick(rates, rCost)];
    AllZeroPicksFirst(Counts(t), rChamp);
    assert Pick(Counts(s.counts[Pick(rates, rCost)]), rChamp) == 0;
    assert Choose(s.counts, rates, rCost, rChamp).Depleted?;
  }

  /**
   * `get` with its retries bounded by a finite list of random pairs: each
   * attempt that draws a depleted champion moves on to the next pair, and
   * when the pairs run out the answer is Retry with the pool untouched.
   */
  function GetSpec(s: PoolState, catalog: map<string, Champion>, rates: seq<int>, draws: seq<(int, int)>): (Outcome, PoolState)
    decreases |draws|
  {
    if |draws| == 0 then (Retry, s)
    else
      var step := DrawStep(s, catalog, rates, draws[0].0, draws[0].1);
      if step.0.Retry? then GetSpec(step.1, catalog, rates, draws[1..]) else step
  }

  /** Every tier the cost draw can land on, for any r in [0, sum of rates], exists and has no copies left. */
  ghost predicate Exhausted(s: PoolState, rates: seq<int>)
  {
    forall rc :: 0 <= rc <= Sum(rates) ==>
      && Pick(rates, rc) >= 0 && Pick(rates, rc) in s.counts && s.counts[Pick(rates, rc)] != []
      && forall i :: 0 <= i < |s.counts[Pick(rates, rc)]| ==> s.counts[Pick(rates, rc)][i].count == 0
  }

  /**
   * When every tier the rates can pick is exhausted, however many attempts
   * `get` makes, with random values in the ranges `uniform` gives, each one
   * retries and the pool stays as it was: the source recurses until Python's
   * recursion limit stops it.
   */
  lemma {:induction false} ExhaustedPoolNeverGets(s: PoolState, catalog: map<string, Champion>, rates: seq<int>, draws: seq<(int, int)>)
    requires Exhausted(s, rates)
    requires forall j :: 0 <= j < |draws| ==> 0 <= draws[j].0 <= Sum(rates) && draws[j].1 == 0
    ensures GetSpec(s, catalog, rates, draws) == (Retry, s)
  {
    if |draws| > 0 {
      var rc := draws[0].0;
      assert 0 <= rc <= Sum(rates);
      SumOfZeros(Counts(s.counts[Pick(rates, rc)]));
      ExhaustedTierRetries(s, catalog, rates, rc, draws[0].1);
      assert forall j :: 0 <= j < |draws| - 1 ==> draws[1..][j] == draws[j + 1];
      ExhaustedPoolNeverGets(s, catalog, rates, draws[1..]);
    }
  }

  /** The whole of `get`: one copy leaves and max_id moves on by one, or nothing changes. */
  lemma {:induction false} GetAccounting(s: PoolState, catalog: map<string, Champion>, rates: seq<int>, draws: seq<(int, int)>)
    requires WellFormed(s, catalog)
    ensures var res := GetSpec(s, catalog, rates, draws);
      && WellFormed(res.1, catalog)
      && (res.0.Got? ==> TookOne(s, res.1) && res.0.champ.id == res.1.maxId)
      && (!res.0.Got? ==> res.1 == s)
  {
    if draws != [] {
      DrawAccounting(s, catalog, rates, draws[0].0, draws[0].1);
      var step := DrawStep(s, catalog, rates, draws[0].0, draws[0].1);
      if step.0.Retry? {
        GetAccounting(step.1, catalog, rates, draws[1..]);
      }
    }
  }

  /** 3^n, the number of base copies in a champion of level n + 1. */
  function Pow3(n: nat): (p: nat)
    ensures p >= 1
  {
    if n == 0 then 1 else 3 * Pow3(n - 1)
  }

  /** `put`: false stands for the KeyError of a missing cost tier or name. */
  function PutStep(s: PoolState, champ: Champion): (bool, PoolState)
  {
    if champ.cost !in s.counts then (false, s)
    else
      var t := s.counts[champ.cost];
      var k := IndexOf(t, champ.name);
      if k == -1 then (false, s)
      else (true, PoolState(s.counts[champ.cost := Give(t, k, Pow3(champ.level - 1))], s.maxId))
  }

  /**
   * `put` raises the returned champion's count by exactly 3^(level-1) and
   * touches no other count and not max_id; when its keys are missing it
   * changes nothing.
   */
  lemma PutAccounting(s: PoolState, catalog: map<string, Champion>, champ: Champion)
    ensures var res := PutStep(s, champ);
      && (res.0 <==> champ.cost in s.counts && IndexOf(s.counts[champ.cost], champ.name) >= 0)
      && (!res.0 ==> res.1 == s)
      && (res.0 ==>
            var t, t' := s.counts[champ.cost], res.1.counts[champ.cost];
            var k := IndexOf(t, champ.name);
            && res.1.counts == s.counts[champ.cost := t']
            && res.1.maxId == s.maxId
            && |t'| == |t|
            && (forall i :: 0 <= i < |t| ==> t'[i].name == t[i].name)
            && Counts(t') == Counts(t)[k := t[k].count + Pow3(champ.level - 1)]
            && Supply(t') == Supply(t) + Pow3(champ.level - 1))
      && (WellFormed(s, catalog) ==> WellFormed(res.1, catalog))
  {
    if champ.cost in s.counts {
      var t := s.counts[champ.cost];
      var k := IndexOf(t, champ.name);
      if k >= 0 {
        GiveAccounting(t, k, Pow3(champ.level - 1));
      }
    }
  }

  /** Catalog entries are filed under their own name, in the tier of their own cost, at level 1. */
  ghost predicate Coherent(s: PoolState, catalog: map<string, Champion>)
  {
    forall c, i :: c in s.counts && 0 <= i < |s.counts[c]| && s.counts[c][i].name in catalog ==>
      var entry := catalog[s.counts[c][i].name];
      entry.name == s.counts[c][i].name && entry.cost == c && entry.level == 1
  }

  /** Returning a freshly drawn champion restores every count the draw changed. */
  lemma PutUndoesDraw(s: PoolState, catalog: map<string, Champion>, rates: seq<int>, rCost: int, rChamp: int)
    requires WellFormed(s, catalog) && Coherent(s, catalog)
    requires DrawStep(s, catalog, rates, rCost, rChamp).0.Got?
    ensures var step := DrawStep(s, catalog, rates, rCost, rChamp);
      var back := PutStep(step.1, step.0.champ);
      back.0 && back.1.counts == s.counts
  {
    var ch := Choose(s.counts, rates, rCost, rChamp);
    var t := s.counts[ch.cost];
    var k := ch.index;
    var step := DrawStep(s, catalog, rates, rCost, rChamp);
    assert step.1.counts == s.counts[ch.cost := Take(t, k)];
    assert step.0.champ == Clone(catalog[t[k].name], step.1.maxId);
    assert ch.Chosen? && ch.cost in s.counts && 0 <= k < |s.counts[ch.cost]|;
    assert s.counts[ch.cost][k].name in catalog;
    assert catalog[s.counts[ch.cost][k].name].cost == ch.cost;
    assert step.0.champ.level == 1;
    IndexOfDistinct(Take(t, k), k);
    assert Give(Take(t, k), k, Pow3(0)) == t;
    var back := PutStep(step.1, step.0.champ);
    assert back.1.counts == s.counts[ch.cost := Take(t, k)][ch.cost := t];
  }

  // ---------------------------------------------------------------------
  // The constructor as written

  /** Line 28 as written: `cost_to_counts[cost]` must already exist, else KeyError (None). */
  function StoreAsWritten(counts: map<int, Tier>, champ: Champion, poolSize: map<int, nat>): Option<map<int, Tier>>
  {
    if champ.cost !in poolSize || champ.cost !in counts then None
    else Some(counts[champ.cost := Store(counts[champ.cost], champ.name, poolSize[champ.cost])])
  }

  /** The loop of `__init__` as written, starting from the dict it is given. */
  function InitAsWritten(counts: map<int, Tier>, catalog: seq<Champion>, poolSize: map<int, nat>): Option<map<int, Tier>>
  {
    if |catalog| == 0 then Some(counts)
    else match StoreAsWritten(counts, catalog[0], poolSize)
      case None => None
      case Some(next) => InitAsWritten(next, catalog[1..], poolSize)
  }

  /** As written, line 28 fails on the first champion of any non-empty catalog. */
  lemma InitAsWrittenRaises(catalog: seq<Champion>, poolSize: map<int, nat>)
    requires catalog != []
    ensures InitAsWritten(map[], catalog, poolSize) == None
  {
  }

  /** Tier c of counts holds name with n copies. */
  predicate Stocked(counts: map<int, Tier>, c: int, name: string, n: int)
  {
    c in counts && IndexOf(counts[c], name) >= 0 && counts[c][IndexOf(counts[c], name)].count == n
  }

  /** Every key of every tier is a catalog champion of that cost. */
  ghost predicate Listed(catalog: seq<Champion>, cost: int, name: string)
  {
    exists i :: 0 <= i < |catalog| && catalog[i].cost == cost && catalog[i].name == name
  }

  ghost predicate FromCatalog(counts: map<int, Tier>, catalog: seq<Champion>)
  {
    forall c, k :: c in counts && 0 <= k < |counts[c]| ==> Listed(catalog, c, counts[c][k].name)
  }

  /** What the constructor's loop has established after the champions of `prefix`. */
  ghost predicate Built(counts: map<int, Tier>, champs: map<string, Champion>, prefix: seq<Champion>, poolSize: map<int, nat>)
  {
    && (forall c :: c in counts ==> WellFormedTier(counts[c], champs))
    && (forall j :: 0 <= j < |prefix| ==>
          prefix[j].cost in poolSize && Stocked(counts, prefix[j].cost, prefix[j].name, poolSize[prefix[j].cost]))
    && FromCatalog(counts, prefix)
    && champs.Keys == (set j | 0 <= j < |prefix| :: prefix[j].name)
    && (forall n :: n in champs ==> champs[n] in prefix && champs[n].name == n)
  }

  /** The tier that `cost_to_counts[champ.cost][champ.name] = n` leaves behind. */
  function Stored(counts: map<int, Tier>, champ: Champion, n: int): map<int, Tier>
  {
    var tier := if champ.cost in counts then counts[champ.cost] else [];
    counts[champ.cost := Store(tier, champ.name, n)]
  }

  lemma StoredWellFormed(counts: map<int, Tier>, champs: map<string, Champion>, champ: Champion, n: nat)
    requires forall c :: c in counts ==> WellFormedTier(counts[c], champs)
    ensures var champs' := champs[champ.name := champ];
      forall c :: c in Stored(counts, champ, n) ==> WellFormedTier(Stored(counts, champ, n)[c], champs')
  {
    var tier := if champ.cost in counts then counts[champ.cost] else [];
    StoreFacts(tier, champ.name, n);
    var champs' := champs[champ.name := champ];
    forall c | c in counts
      ensures WellFormedTier(counts[c], champs')
    {
    }
  }

  lemma StoredStocked(counts: map<int, Tier>, prefix: seq<Champion>, champ: Champion, poolSize: map<int, nat>)
    requires champ.cost in poolSize
    requires forall j :: 0 <= j < |prefix| ==>
      prefix[j].cost in poolSize && Stocked(counts, prefix[j].cost, prefix[j].name, poolSize[prefix[j].cost])
    ensures var counts' := Stored(counts, champ, poolSize[champ.cost]);
      var prefix' := prefix + [champ];
      forall j :: 0 <= j < |prefix'| ==>
        prefix'[j].cost in poolSize && Stocked(counts', prefix'[j].cost, prefix'[j].name, poolSize[prefix'[j].cost])
  {
    var tier := if champ.cost in counts then counts[champ.cost] else [];
    StoreFacts(tier, champ.name, poolSize[champ.cost]);
    var prefix' := prefix + [champ];
    forall j | 0 <= j < |prefix'|
      ensures prefix'[j].cost in poolSize
      ensures Stocked(Stored(counts, champ, poolSize[champ.cost]), prefix'[j].cost, prefix'[j].name, poolSize[prefix'[j].cost])
    {
      if j < |prefix| {
        assert prefix'[j] == prefix[j];
      }
    }
  }

  lemma StoredFromCatalog(counts: map<int, Tier>, prefix: seq<Champion>, champ: Champion, n: int)
    requires FromCatalog(counts, prefix)
    ensures FromCatalog(Stored(counts, champ, n), prefix + [champ])
  {
    var tier := if champ.cost in counts then counts[champ.cost] else [];
    StoreFacts(tier, champ.name, n);
    var counts': map<int, Tier> := Stored(counts, champ, n);
    var prefix' := prefix + [champ];
    forall c: int, k: int | c in counts' && 0 <= k < |counts'[c]|
      ensures Listed(prefix', c, counts'[c][k].name)
    {
      if c == champ.cost && counts'[c][k].name == champ.name {
        assert prefix'[|prefix|] == champ;
      } else {
        assert c in counts && k < |counts[c]| && counts'[c][k] == counts[c][k];
        assert Listed(prefix, c, counts[c][k].name);
        var j :| 0 <= j < |prefix| && prefix[j].cost == c && prefix[j].name == counts[c][k].name;
        assert prefix'[j] == prefix[j];
      }
    }
  }

  lemma StoredNames(champs: map<string, Champion>, prefix: seq<Champion>, champ: Champion)
    requires champs.Keys == (set j | 0 <= j < |prefix| :: prefix[j].name)
    requires forall n :: n in champs ==> champs[n] in prefix && champs[n].name == n
    ensures var champs' := champs[champ.name := champ];
      var prefix' := prefix + [champ];
      && champs'.Keys == (set j | 0 <= j < |prefix'| :: prefix'[j].name)
      && (forall n :: n in champs' ==> champs'[n] in prefix' && champs'[n].name == n)
  {
    var champs', prefix' := champs[champ.name := champ], prefix + [champ];
    forall m | m in champs'.Keys
      ensures m in (set j | 0 <= j < |prefix'| :: prefix'[j].name)
    {
      if m == champ.name {
        assert prefix'[|prefix|].name == m;
      } else {
        var j :| 0 <= j < |prefix| && prefix[j].name == m;
        assert prefix'[j].name == m;
      }
    }
    forall m | m in (set j | 0 <= j < |prefix'| :: prefix'[j].name)
      ensures m in champs'.Keys
    {
      var j :| 0 <= j < |prefix'| && prefix'[j].name == m;
      if j < |prefix| {
        assert prefix[j].name == m;
      }
    }
  }

  /** One turn of the constructor's loop keeps Built. */
  lemma BuildStep(counts: map<int, Tier>, champs: map<string, Champion>, prefix: seq<Champion>, champ: Champion, poolSize: map<int, nat>)
    requires Built(counts, champs, prefix, poolSize) && champ.cost in poolSize
    ensures Built(Stored(counts, champ, poolSize[champ.cost]), champs[champ.name := champ], prefix + [champ], poolSize)
  {
    StoredWellFormed(counts, champs, champ, poolSize[champ.cost]);
    StoredStocked(counts, prefix, champ, poolSize);
    StoredFromCatalog(counts, prefix, champ, poolSize[champ.cost]);
    StoredNames(champs, prefix, champ);
  }

  // ---------------------------------------------------------------------
  // The pool object

  class Pool {
    var maxId: int
    var costToCounts: map<int, Tier>
    var nameToChamp: map<string, Champion>

    ghost function State(): PoolState
      reads this
    {
      PoolState(costToCounts, maxId)
    }

    ghost predicate Valid()
      reads this
    {
      WellFormed(State(), nameToChamp)
    }

    /**
     * `Pool(champ_data_list)` as intended: every catalog champion gets
     * `poolSize[cost]` copies under its cost tier, max_id starts at 0 and
     * name_to_champ maps every name to its (last) catalog entry.
     */
    constructor (catalog: seq<Champion>, poolSize: map<int, nat>)
      requires forall i :: 0 <= i < |catalog| ==> catalog[i].cost in poolSize
      ensures Valid() && maxId == 0
      ensures forall i :: 0 <= i < |catalog| ==>
        Stocked(costToCounts, catalog[i].cost, catalog[i].name, poolSize[catalog[i].cost])
      ensures FromCatalog(costToCounts, catalog)
      ensures nameToChamp.Keys == set i | 0 <= i < |catalog| :: catalog[i].name
      ensures forall n :: n in nameToChamp ==> nameToChamp[n] in catalog && nameToChamp[n].name == n
    {
      var counts: map<int, Tier> := map[];
      var champs: map<string, Champion> := map[];
      for i := 0 to |catalog|
        invariant Built(counts, champs, catalog[..i], poolSize)
      {
        var champ := catalog[i];
        BuildStep(counts, champs, catalog[..i], champ, poolSize);
        assert catalog[..i + 1] == catalog[..i] + [champ];
        counts := Stored(counts, champ, poolSize[champ.cost]);
        champs := champs[champ.name := champ];
      }
      assert catalog[..|catalog|] == catalog;
      maxId := 0;
      costToCounts := counts;
      nameToChamp := champs;
    }

    /** One attempt of `get` (lines 33-56) without the recursive retry of line 53. */
    method Draw(rates: seq<int>, rCost: int, rChamp: int) returns (outcome: Outcome)
      requires Valid()
      modifies this
      ensures Valid() && nameToChamp == old(nameToChamp)
      ensures (outcome, State()) == DrawStep(old(State()), nameToChamp, rates, rCost, rChamp)
    {
      ghost var s := State();
      DrawAccounting(s, nameToChamp, rates, rCost, rChamp);
      var cost := ChooseRandFromList(rates, rCost);
      if cost == -1 {
        return Nothing;
      }
      if cost !in costToCounts {
        return KeyError;
      }
      var tier := costToCounts[cost];
      var champCounts := Counts(tier);
      var k := ChooseRandFromList(champCounts, rChamp);
      if k == -1 {
        return Nothing;
      }
      var tally := tier[k];
      if tally.count <= 0 {
        return Retry;
      }
      costToCounts := costToCounts[cost := tier[k := Tally(tally.name, tally.count - 1)]];
      maxId := maxId + 1;
      outcome := Got(Clone(nameToChamp[tally.name], maxId));
    }

    /**
     * `get(player)`, with `rates` the drop-rate row of the player's level and
     * one pair of random values per attempt; the retry of line 53 moves on to
     * the next pair.
     */
    method Get(rates: seq<int>, draws: seq<(int, int)>) returns (outcome: Outcome)
      requires Valid()
      modifies this
      ensures Valid() && nameToChamp == old(nameToChamp)
      ensures (outcome, State()) == GetSpec(old(State()), nameToChamp, rates, draws)
    {
      outcome := Retry;
      for i := 0 to |draws|
        invariant Valid() && nameToChamp == old(nameToChamp)
        invariant State() == old(State()) && outcome == Retry
        invariant GetSpec(old(State()), nameToChamp, rates, draws) == GetSpec(State(), nameToChamp, rates, draws[i..])
      {
        ghost var before := State();
        ghost var step := DrawStep(before, nameToChamp, rates, draws[i].0, draws[i].1);
        assert draws[i..][0] == draws[i] && draws[i..][1..] == draws[i + 1..];
        assert GetSpec(before, nameToChamp, rates, draws[i..])
            == if step.0.Retry? then GetSpec(step.1, nameToChamp, rates, draws[i + 1..]) else step;
        outcome := Draw(rates, draws[i].0, draws[i].1);
        if !outcome.Retry? {
          return;
        }
      }
      assert draws[|draws|..] == [];
    }

    /** `put(champ)`: false when a dict lookup would raise KeyError. */
    method Put(champ: Champion) returns (ok: bool)
      requires Valid()
      modifies this
      ensures Valid() && nameToChamp == old(nameToChamp)
      ensures (ok, State()) == PutStep(old(State()), champ)
    {
      PutAccounting(State(), nameToChamp, champ);
      if champ.cost !in costToCounts {
        return false;
      }
      var tier := costToCounts[champ.cost];
      var k := IndexOf(tier, champ.name);
      if k == -1 {
        return false;
      }
      costToCounts := costToCounts[champ.cost := tier[k := Tally(champ.name, tier[k].count + Pow3(champ.level - 1))]];
      ok := true;
    }
  }
}

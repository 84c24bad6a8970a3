/**
 * Values and specification functions of the waiting-list ranking: nominator
 * records, ledger entries, the self-nomination seeding, the validator index,
 * the attachment of bonded amounts and the stake sums.
 */
module Staking {
  import opened Wrappers

  /** An account identity (an SS58 address on the chain). */
  type Key = string

  /** The ledger's fixed-point unit: `active` plancks per coin. */
  const PlancksPerCoin: nat := 1_000_000_000

  /**
   * A nominator record (`NominatorInfo`). `bonded` is `None` until a ledger
   * entry sets it: the constructor never initialises that attribute.
   */
  datatype Nominator = Nominator(key: Key, targets: seq<Key>, bonded: Option<real>)

  /** One value of the ledger map: the stash it belongs to and its active amount in plancks. */
  datatype LedgerEntry = LedgerEntry(stash: Key, active: nat)

  /** The exceptions the ranking can raise. */
  datatype StakeError =
    | MissingValidator(key: Key)   // KeyError on all_validators[key]
    | MissingNominator(key: Key)   // KeyError on all_nominators[key]
    | BondedUnset(key: Key)        // AttributeError: bonded was never attached
    | ZeroFanOut(key: Key)         // ZeroDivisionError: the nominator targets nobody

  /** `number_of_validators`: the fan-out of a nominator. */
  function FanOut(n: Nominator): nat
  {
    |n.targets|
  }

  /** Fixed-point plancks to coins. */
  function ToCoins(active: nat): (c: real)
    ensures c >= 0.0
    ensures c * PlancksPerCoin as real == active as real
  {
    active as real / PlancksPerCoin as real
  }

  // ---------------------------------------------------------------------
  // Seeding self-nominations

  /**
   * `seeded` is the nominator map after seeding: every validator has an
   * entry, entries present before are unchanged and each added entry
   * nominates exactly its own validator.
   */
  predicate SeededFrom(raw: map<Key, seq<Key>>, validators: set<Key>, seeded: map<Key, seq<Key>>)
  {
    && seeded.Keys == raw.Keys + validators
    && (forall k :: k in raw ==> seeded[k] == raw[k])
    && (forall v :: v in validators && v !in raw ==> seeded[v] == [v])
  }

  /** `get_data`, building `all_nominators`: wrap every targets list into a nominator record with no bonded amount yet. */
  function ToNominators(targets: map<Key, seq<Key>>): (noms: map<Key, Nominator>)
  {
    map k | k in targets :: Nominator(k, targets[k], None)
  }

  /** The targets list of every record. */
  function TargetsOf(noms: map<Key, Nominator>): map<Key, seq<Key>>
  {
    map k | k in noms :: noms[k].targets
  }

  /** The seeded entry of a validator with no nomination of its own has fan-out exactly 1. */
  lemma SeededSelfFanOut(raw: map<Key, seq<Key>>, validators: set<Key>, seeded: map<Key, seq<Key>>, v: Key)
    requires SeededFrom(raw, validators, seeded)
    requires v in validators && v !in raw
    ensures v in ToNominators(seeded)
    ensures FanOut(ToNominators(seeded)[v]) == 1
    ensures v in AllTargets(ToNominators(seeded), seeded.Keys)
  {
    var noms := ToNominators(seeded);
    assert v in noms[v].targets;
  }

  // ---------------------------------------------------------------------
  // Validator index

  /** Every validator some nominator in `within` targets. */
  function AllTargets(noms: map<Key, Nominator>, within: set<Key>): set<Key>
  {
    set n, v | n in within && n in noms && v in noms[n].targets :: v
  }

  /**
   * The nominator set the index gives validator `v` once the nominators in
   * `within` are registered: `v` itself and every nominator targeting it.
   */
  function Backers(noms: map<Key, Nominator>, within: set<Key>, v: Key): set<Key>
  {
    {v} + set n | n in within && n in noms && v in noms[n].targets
  }

  /** A nominator that registered into `v` targets `v`, so its fan-out is at least 1. */
  lemma BackerFanOut(noms: map<Key, Nominator>, within: set<Key>, v: Key, n: Key)
    requires n in Backers(noms, within, v) && n != v
    ensures n in noms && v in noms[n].targets && FanOut(noms[n]) >= 1
  {
  }

  // ---------------------------------------------------------------------
  // Attaching bonded amounts

  /** One iteration of the ledger loop: a known stash gets its bonded amount, an unknown one is skipped. */
  function AttachEntry(noms: map<Key, Nominator>, e: LedgerEntry): map<Key, Nominator>
  {
    if e.stash in noms then noms[e.stash := noms[e.stash].(bonded := Some(ToCoins(e.active)))]
    else noms
  }

  /** The ledger loop over the entries in iteration order. */
  function Attach(noms: map<Key, Nominator>, ledger: seq<LedgerEntry>): map<Key, Nominator>
    decreases |ledger|
  {
    if ledger == [] then noms
    else AttachEntry(Attach(noms, ledger[..|ledger| - 1]), ledger[|ledger| - 1])
  }

  /** The active amount of the last ledger entry whose stash is `k`, if any. */
  function LastActive(ledger: seq<LedgerEntry>, k: Key): Option<nat>
    decreases |ledger|
  {
    if ledger == [] then None
    else if ledger[|ledger| - 1].stash == k then Some(ledger[|ledger| - 1].active)
    else LastActive(ledger[..|ledger| - 1], k)
  }

  /**
   * `LastActive` finds the entry processed last: none when no entry names
   * `k`, otherwise the active amount of the entry after which no other
   * entry names `k`.
   */
  lemma {:induction false} LastActiveIsLast(ledger: seq<LedgerEntry>, k: Key)
    ensures LastActive(ledger, k).None? <==> (forall j :: 0 <= j < |ledger| ==> ledger[j].stash != k)
    ensures forall j :: 0 <= j < |ledger| && ledger[j].stash == k
                     && (forall j' :: j < j' < |ledger| ==> ledger[j'].stash != k)
                     ==> LastActive(ledger, k) == Some(ledger[j].active)
    decreases |ledger|
  {
    if ledger != [] {
      var init := ledger[..|ledger| - 1];
      LastActiveIsLast(init, k);
      assert forall j :: 0 <= j < |init| ==> init[j] == ledger[j];
    }
  }

  /**
   * After the ledger loop the same nominators exist with the same targets;
   * a nominator named by some entry has the amount of the last such entry,
   * every other nominator keeps its bonded amount.
   */
  lemma {:induction false} AttachResult(noms: map<Key, Nominator>, ledger: seq<LedgerEntry>)
    ensures Attach(noms, ledger).Keys == noms.Keys
    ensures forall k :: k in noms ==>
      Attach(noms, ledger)[k] == noms[k].(bonded := match LastActive(ledger, k)
                                                    case Some(a) => Some(ToCoins(a))
                                                    case None => noms[k].bonded)
    decreases |ledger|
  {
    if ledger != [] {
      AttachResult(noms, ledger[..|ledger| - 1]);
    }
  }

  /** Entries whose stash is not a nominator change nothing. */
  lemma {:induction false} AttachUnknownStashes(noms: map<Key, Nominator>, ledger: seq<LedgerEntry>)
    requires forall j :: 0 <= j < |ledger| ==> ledger[j].stash !in noms
    ensures Attach(noms, ledger) == noms
    decreases |ledger|
  {
    if ledger != [] {
      AttachUnknownStashes(noms, ledger[..|ledger| - 1]);
    }
  }

  /** When exactly one entry names a nominator, its bonded amount is that entry's active amount in coins. */
  lemma AttachDistinctStash(noms: map<Key, Nominator>, ledger: seq<LedgerEntry>, j: nat)
    requires j < |ledger| && ledger[j].stash in noms
    requires forall i :: 0 <= i < |ledger| && i != j ==> ledger[i].stash != ledger[j].stash
    ensures ledger[j].stash in Attach(noms, ledger)
    ensures Attach(noms, ledger)[ledger[j].stash].bonded == Some(ToCoins(ledger[j].active))
  {
    AttachResult(noms, ledger);
    LastActiveIsLast(ledger, ledger[j].stash);
  }

  /** Attaching keeps every targets list, hence the validator index. */
  lemma AttachKeepsTargets(noms: map<Key, Nominator>, ledger: seq<LedgerEntry>)
    ensures TargetsOf(Attach(noms, ledger)) == TargetsOf(noms)
    ensures forall within, v :: Backers(Attach(noms, ledger), within, v) == Backers(noms, within, v)
    ensures forall within :: AllTargets(Attach(noms, ledger), within) == AllTargets(noms, within)
  {
    AttachResult(noms, ledger);
  }

  // ---------------------------------------------------------------------
  // Stake estimation

  /**
   * The first exception the loop body of `estimate_effective_stake` raises
   * for nominator `k`, if any: the lookup, then the bonded attribute, then
   * the division by the fan-out.
   */
  function Problem(noms: map<Key, Nominator>, k: Key): Option<StakeError>
  {
    if k !in noms then Some(MissingNominator(k))
    else if noms[k].bonded.None? then Some(BondedUnset(k))
    else if FanOut(noms[k]) == 0 then Some(ZeroFanOut(k))
    else None
  }

  /** Every nominator of the set contributes without raising. */
  predicate Estimable(nominators: set<Key>, noms: map<Key, Nominator>)
  {
    forall k :: k in nominators ==> Problem(noms, k).None?
  }

  /** Bonded amount of every nominator that has one. */
  function BondedMap(noms: map<Key, Nominator>): map<Key, real>
  {
    map k | k in noms && noms[k].bonded.Some? :: noms[k].bonded.value
  }

  /** Bonded amount divided by fan-out, for every nominator that contributes. */
  function ShareMap(noms: map<Key, Nominator>): map<Key, real>
  {
    map k | k in noms && Problem(noms, k).None? :: noms[k].bonded.value / FanOut(noms[k]) as real
  }

  /** The sum of `w` over the keys in `s`. */
  ghost function SetSum(s: set<Key>, w: map<Key, real>): real
    requires s <= w.Keys
    decreases s
  {
    if s == {} then 0.0
    else var k :| k in s; w[k] + SetSum(s - {k}, w)
  }

  /** The sum over a set may start with any of its elements: accumulation order does not matter. */
  lemma {:induction false} SetSumRemove(s: set<Key>, w: map<Key, real>, x: Key)
    requires s <= w.Keys && x in s
    ensures SetSum(s, w) == w[x] + SetSum(s - {x}, w)
    decreases s
  {
    var y :| y in s && SetSum(s, w) == w[y] + SetSum(s - {y}, w);
    if y != x {
      SetSumRemove(s - {y}, w, x);
      SetSumRemove(s - {x}, w, y);
      assert s - {y} - {x} == s - {x} - {y};
    }
  }

  /** A sum of non-negative weights is non-negative. */
  lemma {:induction false} SetSumNonNegative(s: set<Key>, w: map<Key, real>)
    requires s <= w.Keys
    requires forall k :: k in s ==> w[k] >= 0.0
    ensures SetSum(s, w) >= 0.0
    decreases s
  {
    if s != {} {
      var k :| k in s;
      SetSumRemove(s, w, k);
      SetSumNonNegative(s - {k}, w);
    }
  }

  /** `total_stake`: the sum of the bonded amounts of the nominator set. */
  ghost function TotalStake(nominators: set<Key>, noms: map<Key, Nominator>): real
    requires Estimable(nominators, noms)
  {
    SetSum(nominators, BondedMap(noms))
  }

  /** `effective_stake`: the sum of bonded amount over fan-out for the nominator set. */
  ghost function EffectiveStake(nominators: set<Key>, noms: map<Key, Nominator>): real
    requires Estimable(nominators, noms)
  {
    SetSum(nominators, ShareMap(noms))
  }

  /** Bonded amounts are never negative, so splitting them never yields more than the total. */
  lemma {:induction false} EffectiveAtMostTotal(nominators: set<Key>, noms: map<Key, Nominator>)
    requires Estimable(nominators, noms)
    requires forall k :: k in nominators ==> noms[k].bonded.value >= 0.0
    ensures 0.0 <= EffectiveStake(nominators, noms) <= TotalStake(nominators, noms)
    decreases nominators
  {
    if nominators != {} {
      var k :| k in nominators;
      SetSumRemove(nominators, BondedMap(noms), k);
      SetSumRemove(nominators, ShareMap(noms), k);
      EffectiveAtMostTotal(nominators - {k}, noms);
      SplitAtMostWhole(noms[k].bonded.value, FanOut(noms[k]) as real);
    }
  }

  /** A non-negative amount split over at least one validator gives each at most the amount. */
  lemma SplitAtMostWhole(b: real, n: real)
    requires b >= 0.0 && n >= 1.0
    ensures 0.0 <= b / n <= b
  {
    var q := b / n;
    assert q * n == b;
    assert q * (n - 1.0) >= 0.0;
  }
}

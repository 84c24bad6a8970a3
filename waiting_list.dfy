/**
 * The waiting-list ranking of `XXNetworkInterfaceExtended`: the chain state
 * arrives as plain maps, is seeded and indexed in place, the waiting
 * validators get their stakes estimated and the list is sorted by
 * effective stake.
 */
module WaitingList {
  import opened Wrappers
  import opened Staking
  import Ranking

  /** `get_data`, seeding loop: add a self-nomination for every validator that has no nominator entry. */
  method SeedSelfNominations(raw: map<Key, seq<Key>>, validatorKeys: set<Key>)
    returns (seeded: map<Key, seq<Key>>)
    ensures SeededFrom(raw, validatorKeys, seeded)
  {
    seeded := raw;
    var remaining := validatorKeys;
    while remaining != {}
      invariant remaining <= validatorKeys
      invariant SeededFrom(raw, validatorKeys - remaining, seeded)
      decreases remaining
    {
      var validator :| validator in remaining;
      if validator !in seeded {
        seeded := seeded[validator := [validator]];
      }
      remaining := remaining - {validator};
    }
  }

  /** `ValidatorInfo`: a validator, the keys of its nominators and the stakes estimated for it. */
  class ValidatorInfo {
    const key: Key
    var nominators: set<Key>
    var totalStake: real
    var effectiveStake: real
    var selfStake: real

    /** The validator's own key is always one of its nominators. */
    ghost predicate Valid()
      reads this
    {
      key in nominators
    }

    constructor (key: Key)
      ensures Valid()
      ensures this.key == key && nominators == {key}
      ensures totalStake == 0.0 && effectiveStake == 0.0 && selfStake == 0.0
    {
      this.key := key;
      nominators := {key};
      totalStake, effectiveStake, selfStake := 0.0, 0.0, 0.0;
    }

    /** Adds a nominator key; adding one already present changes nothing. */
    method AddNominator(k: Key)
      modifies this
      ensures nominators == old(nominators) + {k}
      ensures k in old(nominators) ==> nominators == old(nominators)
      ensures old(Valid()) ==> Valid()
      ensures totalStake == old(totalStake) && effectiveStake == old(effectiveStake)
      ensures selfStake == old(selfStake)
    {
      nominators := nominators + {k};
    }

    /**
     * Accumulates, over the nominator set in any order, the bonded amounts
     * into `totalStake` and bonded amount over fan-out into
     * `effectiveStake`, and records the validator's own bonded amount. Fails
     * with the exception the first unusable nominator raises.
     */
    method EstimateEffectiveStake(allNominators: map<Key, Nominator>) returns (outcome: Outcome<StakeError>)
      modifies this
      ensures nominators == old(nominators)
      ensures outcome.Pass? <==> Estimable(nominators, allNominators)
      ensures outcome.Fail? ==> RaisedBy(nominators, allNominators, outcome.error)
      ensures outcome.Pass? ==> Estimated(this, allNominators, old(StakesOf(this)))
    {
      var remaining := nominators;
      while remaining != {}
        invariant remaining <= nominators == old(nominators)
        invariant Estimable(nominators - remaining, allNominators)
        invariant totalStake == old(totalStake) + SetSum(nominators - remaining, BondedMap(allNominators))
        invariant effectiveStake == old(effectiveStake) + SetSum(nominators - remaining, ShareMap(allNominators))
        invariant selfStake == if key in nominators - remaining then allNominators[key].bonded.value else old(selfStake)
        decreases remaining
      {
        var nominatorKey :| nominatorKey in remaining;
        if nominatorKey !in allNominators {
          return Fail(MissingNominator(nominatorKey));
        }
        var nominator := allNominators[nominatorKey];
        if nominator.bonded.None? {
          return Fail(BondedUnset(nominatorKey));
        }
        var bonded := nominator.bonded.value;
        var n := FanOut(nominator);
        totalStake := totalStake + bonded;
        if n == 0 {
          return Fail(ZeroFanOut(nominatorKey));
        }
        effectiveStake := effectiveStake + bonded / n as real;
        if nominatorKey == key {
          selfStake := bonded;
        }
        var done := nominators - remaining;
        SetSumRemove(done + {nominatorKey}, BondedMap(allNominators), nominatorKey);
        SetSumRemove(done + {nominatorKey}, ShareMap(allNominators), nominatorKey);
        assert done + {nominatorKey} - {nominatorKey} == done;
        remaining := remaining - {nominatorKey};
        assert nominators - remaining == done + {nominatorKey};
      }
      assert nominators - remaining == nominators;
      return Pass;
    }
  }

  /** `e` is the exception some nominator in `keys` raises. */
  ghost predicate RaisedBy(keys: set<Key>, noms: map<Key, Nominator>, e: StakeError)
  {
    exists k :: k in keys && Problem(noms, k) == Some(e)
  }

  /** The effective stake of each validator in `infos`, as a total function on validators. */
  function StakeKey(infos: seq<ValidatorInfo>): (key: ValidatorInfo -> real)
    reads set i | 0 <= i < |infos| :: infos[i]
    ensures forall i :: 0 <= i < |infos| ==> key(infos[i]) == infos[i].effectiveStake
  {
    var stakes := map v | v in infos :: v.effectiveStake;
    (v: ValidatorInfo) => if v in stakes then stakes[v] else 0.0
  }

  /** The three stakes `estimate_effective_stake` accumulates. */
  datatype Stakes = Stakes(total: real, effective: real, self: real)

  /** The current stakes of `v`. */
  ghost function StakesOf(v: ValidatorInfo): Stakes
    reads v
  {
    Stakes(v.totalStake, v.effectiveStake, v.selfStake)
  }

  /**
   * `v` holds the stakes it started from plus what its nominators
   * contribute, and its own bonded amount as self stake.
   */
  ghost predicate Estimated(v: ValidatorInfo, noms: map<Key, Nominator>, start: Stakes)
    reads v
  {
    && Estimable(v.nominators, noms)
    && v.totalStake == start.total + TotalStake(v.nominators, noms)
    && v.effectiveStake == start.effective + EffectiveStake(v.nominators, noms)
    && v.selfStake == if v.key in v.nominators then noms[v.key].bonded.value else start.self
  }

  /** The state `XXNetworkInterfaceExtended` builds up while ranking the waiting list. */
  class NetworkInterfaceExtended {
    var allNominators: map<Key, Nominator>
    var waitingValidatorKeys: set<Key>
    var ledger: seq<LedgerEntry>
    var allValidators: map<Key, ValidatorInfo>
    var waitingValidatorInfos: seq<ValidatorInfo>

    /** Every indexed validator is filed under its own key and has itself as a nominator. */
    ghost predicate Valid()
      reads this, allValidators.Values
    {
      IndexValid(allValidators)
    }

    /** Every waiting validator is indexed and its stakes can be estimated without an exception. */
    ghost predicate Ready()
      reads this, allValidators.Values
    {
      AllReady(allValidators, waitingValidatorKeys, allNominators)
    }

    constructor ()
      ensures Valid()
      ensures allNominators == map[] && waitingValidatorKeys == {} && ledger == []
      ensures allValidators == map[] && waitingValidatorInfos == []
    {
      allNominators, waitingValidatorKeys, ledger := map[], {}, [];
      allValidators, waitingValidatorInfos := map[], [];
    }

    /**
     * `get_data`, with the four chain queries given as arguments: the
     * nominators' targets, the validator keys, the active validator keys
     * and the ledger entries in iteration order.
     */
    method GetData(rawNominators: map<Key, seq<Key>>, validatorKeys: set<Key>, activeKeys: set<Key>,
                   ledgerEntries: seq<LedgerEntry>)
      modifies this
      ensures SeededFrom(rawNominators, validatorKeys, TargetsOf(allNominators))
      ensures forall k :: k in allNominators ==> allNominators[k].key == k && allNominators[k].bonded.None?
      ensures waitingValidatorKeys <= validatorKeys && waitingValidatorKeys !! activeKeys
      ensures forall v :: v in validatorKeys && v !in activeKeys ==> v in waitingValidatorKeys
      ensures ledger == ledgerEntries
      ensures allValidators == old(allValidators) && waitingValidatorInfos == old(waitingValidatorInfos)
    {
      var seeded := SeedSelfNominations(rawNominators, validatorKeys);
      allNominators := ToNominators(seeded);
      assert TargetsOf(allNominators) == seeded;
      waitingValidatorKeys := validatorKeys - activeKeys;
      ledger := ledgerEntries;
    }

    /** `setup_auxiliary_data`, first loop: the index from validators to the keys of their nominators. */
    method BuildValidatorIndex()
      modifies this
      ensures allNominators == old(allNominators) && waitingValidatorKeys == old(waitingValidatorKeys)
      ensures ledger == old(ledger) && waitingValidatorInfos == old(waitingValidatorInfos)
      ensures Valid()
      ensures allValidators.Keys == AllTargets(allNominators, allNominators.Keys)
      ensures forall k :: k in allValidators ==>
        && fresh(allValidators[k])
        && allValidators[k].nominators == Backers(allNominators, allNominators.Keys, k)
        && allValidators[k].totalStake == 0.0 && allValidators[k].effectiveStake == 0.0
        && allValidators[k].selfStake == 0.0
      ensures forall n, v :: n in allNominators && v in allNominators[n].targets ==>
        v in allValidators && n in allValidators[v].nominators
    {
      allValidators := IndexValidators(allNominators);
    }

    /** `setup_auxiliary_data`, ledger loop: sets the bonded amount of every nominator some ledger entry names. */
    method AttachBondedAmounts()
      modifies this
      ensures allNominators == Attach(old(allNominators), ledger)
      ensures waitingValidatorKeys == old(waitingValidatorKeys) && ledger == old(ledger)
      ensures allValidators == old(allValidators) && waitingValidatorInfos == old(waitingValidatorInfos)
    {
      var i := 0;
      while i < |ledger|
        invariant 0 <= i <= |ledger|
        invariant allNominators == Attach(old(allNominators), ledger[..i])
        invariant waitingValidatorKeys == old(waitingValidatorKeys) && ledger == old(ledger)
        invariant allValidators == old(allValidators) && waitingValidatorInfos == old(waitingValidatorInfos)
      {
        var entry := ledger[i];
        var bonded := ToCoins(entry.active);
        if entry.stash in allNominators {
          allNominators := allNominators[entry.stash := allNominators[entry.stash].(bonded := Some(bonded))];
        }
        assert ledger[..i + 1][..i] == ledger[..i];
        i := i + 1;
      }
      assert ledger[..i] == ledger;
    }

    /** `setup_auxiliary_data`: the validator index, then the bonded amounts. */
    method SetupAuxiliaryData()
      modifies this
      ensures Valid()
      ensures allNominators == Attach(old(allNominators), ledger)
      ensures waitingValidatorKeys == old(waitingValidatorKeys) && ledger == old(ledger)
      ensures waitingValidatorInfos == old(waitingValidatorInfos)
      ensures allValidators.Keys == AllTargets(old(allNominators), old(allNominators).Keys)
      ensures forall k :: k in allValidators ==>
        && fresh(allValidators[k])
        && allValidators[k].nominators == Backers(allNominators, allNominators.Keys, k)
        && allValidators[k].totalStake == 0.0 && allValidators[k].effectiveStake == 0.0
        && allValidators[k].selfStake == 0.0
    {
      BuildValidatorIndex();
      AttachBondedAmounts();
      AttachResult(old(allNominators), ledger);
      AttachKeepsTargets(old(allNominators), ledger);
    }

    /**
     * `process_data`: estimates the stakes of every waiting validator, in
     * any order, and collects them into `waitingValidatorInfos`.
     */
    method ProcessData() returns (outcome: Outcome<StakeError>)
      requires Valid()
      modifies this, allValidators.Values
      ensures allNominators == old(allNominators) && waitingValidatorKeys == old(waitingValidatorKeys)
      ensures ledger == old(ledger) && allValidators == old(allValidators)
      ensures forall k :: k in allValidators ==> allValidators[k].nominators == old(allValidators[k].nominators)
      ensures Valid()
      ensures outcome.Pass? <==> Ready()
      ensures outcome.Fail? ==> Raises(allValidators, waitingValidatorKeys, allNominators, outcome.error)
      ensures outcome.Pass? ==> Listed(waitingValidatorInfos, allValidators, waitingValidatorKeys)
      ensures outcome.Pass? ==> forall w :: w in waitingValidatorKeys ==>
        Estimated(allValidators[w], allNominators, old(StakesOf(allValidators[w])))
      ensures forall k :: k in allValidators && k !in waitingValidatorKeys ==>
        StakesOf(allValidators[k]) == old(StakesOf(allValidators[k]))
    {
      outcome, waitingValidatorInfos := EstimateWaiting(allValidators, waitingValidatorKeys, allNominators);
    }

    /** The sort of `output_info`: descending by effective stake, stable. */
    method OutputInfo()
      modifies this
      ensures waitingValidatorInfos
              == Ranking.SortDesc(old(waitingValidatorInfos), old(StakeKey(waitingValidatorInfos)))
      ensures multiset(waitingValidatorInfos) == multiset(old(waitingValidatorInfos))
      ensures Ranking.SameTies(waitingValidatorInfos, old(waitingValidatorInfos), old(StakeKey(waitingValidatorInfos)))
      ensures forall i, j :: 0 <= i < j < |waitingValidatorInfos| ==>
        waitingValidatorInfos[i].effectiveStake >= waitingValidatorInfos[j].effectiveStake
      ensures allNominators == old(allNominators) && waitingValidatorKeys == old(waitingValidatorKeys)
      ensures ledger == old(ledger) && allValidators == old(allValidators)
    {
      var key := StakeKey(waitingValidatorInfos);
      ghost var before := waitingValidatorInfos;
      waitingValidatorInfos := Ranking.SortDescending(waitingValidatorInfos, key);
      forall i | 0 <= i < |waitingValidatorInfos| ensures key(waitingValidatorInfos[i]) == waitingValidatorInfos[i].effectiveStake {
        assert waitingValidatorInfos[i] in multiset(before);
      }
    }

    /**
     * `info_waiting_list`: the four steps in order. On success every waiting
     * validator is listed once, its stakes estimated from zero, and the
     * list runs from the highest effective stake down; otherwise the
     * exception names a waiting validator that could not be estimated.
     */
    method InfoWaitingList(rawNominators: map<Key, seq<Key>>, validatorKeys: set<Key>, activeKeys: set<Key>,
                           ledgerEntries: seq<LedgerEntry>)
      returns (outcome: Outcome<StakeError>)
      modifies this
      ensures SeededFrom(rawNominators, validatorKeys, TargetsOf(allNominators))
      ensures waitingValidatorKeys == validatorKeys - activeKeys && ledger == ledgerEntries
      ensures allValidators.Keys == AllTargets(allNominators, allNominators.Keys)
      ensures forall k :: k in allValidators ==> allValidators[k].nominators == Backers(allNominators, allNominators.Keys, k)
      ensures forall k :: k in allNominators ==>
        && allNominators[k].key == k
        && allNominators[k].bonded
           == if LastActive(ledgerEntries, k).Some? then Some(ToCoins(LastActive(ledgerEntries, k).value)) else None
      ensures outcome.Pass? <==> AllReady(allValidators, waitingValidatorKeys, allNominators)
      ensures outcome.Fail? ==> Raises(allValidators, waitingValidatorKeys, allNominators, outcome.error)
      ensures outcome.Pass? ==> Published(waitingValidatorInfos, allValidators, waitingValidatorKeys, allNominators)
    {
      Load(rawNominators, validatorKeys, activeKeys, ledgerEntries);
      outcome := Report();
    }

    /** The first two steps of `info_waiting_list`: the queried data and the index built from it. */
    method Load(rawNominators: map<Key, seq<Key>>, validatorKeys: set<Key>, activeKeys: set<Key>,
                ledgerEntries: seq<LedgerEntry>)
      modifies this
      ensures Valid()
      ensures SeededFrom(rawNominators, validatorKeys, TargetsOf(allNominators))
      ensures waitingValidatorKeys == validatorKeys - activeKeys && ledger == ledgerEntries
      ensures allValidators.Keys == AllTargets(allNominators, allNominators.Keys)
      ensures forall k :: k in allValidators ==> fresh(allValidators[k]) && StakesOf(allValidators[k]) == Stakes(0.0, 0.0, 0.0)
      ensures forall k :: k in allValidators ==> allValidators[k].nominators == Backers(allNominators, allNominators.Keys, k)
      ensures forall k :: k in allNominators ==>
        && allNominators[k].key == k
        && allNominators[k].bonded
           == if LastActive(ledgerEntries, k).Some? then Some(ToCoins(LastActive(ledgerEntries, k).value)) else None
    {
      GetData(rawNominators, validatorKeys, activeKeys, ledgerEntries);
      ghost var seeded := allNominators;
      SetupAuxiliaryData();
      AttachKeepsTargets(seeded, ledger);
      AttachResult(seeded, ledger);
    }

    /** The last two steps of `info_waiting_list`: estimation, then the sorted report. */
    method Report() returns (outcome: Outcome<StakeError>)
      requires Valid()
      requires forall k :: k in allValidators ==> StakesOf(allValidators[k]) == Stakes(0.0, 0.0, 0.0)
      modifies this, allValidators.Values
      ensures allNominators == old(allNominators) && waitingValidatorKeys == old(waitingValidatorKeys)
      ensures ledger == old(ledger) && allValidators == old(allValidators)
      ensures forall k :: k in allValidators ==> allValidators[k].nominators == old(allValidators[k].nominators)
      ensures outcome.Pass? <==> AllReady(allValidators, waitingValidatorKeys, allNominators)
      ensures outcome.Fail? ==> Raises(allValidators, waitingValidatorKeys, allNominators, outcome.error)
      ensures outcome.Pass? ==> Published(waitingValidatorInfos, allValidators, waitingValidatorKeys, allNominators)
    {
      outcome := ProcessData();
      if outcome.Fail? {
        return;
      }
      ghost var unsorted := waitingValidatorInfos;
      OutputInfo();
      ListedPermuted(unsorted, waitingValidatorInfos, allValidators, waitingValidatorKeys);
    }
  }

  /** Every validator of the index is filed under its own key and has itself as a nominator. */
  ghost predicate IndexValid(validators: map<Key, ValidatorInfo>)
    reads validators.Values
  {
    forall k :: k in validators ==> validators[k].key == k && validators[k].Valid()
  }

  /** Every waiting validator is indexed and its stakes can be estimated without an exception. */
  ghost predicate AllReady(validators: map<Key, ValidatorInfo>, waiting: set<Key>, noms: map<Key, Nominator>)
    reads validators.Values
  {
    forall w :: w in waiting ==> w in validators && Estimable(validators[w].nominators, noms)
  }

  /** `e` is an exception estimating the waiting validators can raise. */
  ghost predicate Raises(validators: map<Key, ValidatorInfo>, waiting: set<Key>, noms: map<Key, Nominator>,
                         e: StakeError)
    reads validators.Values
  {
    exists w :: w in waiting &&
      if w !in validators then e == MissingValidator(w)
      else RaisedBy(validators[w].nominators, noms, e)
  }

  /**
   * What `output_info` reports: each waiting validator once, its stakes
   * estimated from zero, from the highest effective stake down.
   */
  ghost predicate Published(infos: seq<ValidatorInfo>, validators: map<Key, ValidatorInfo>, waiting: set<Key>,
                            noms: map<Key, Nominator>)
    reads validators.Values
  {
    && Listed(infos, validators, waiting)
    && (forall w :: w in waiting ==> w in validators && Estimated(validators[w], noms, Stakes(0.0, 0.0, 0.0)))
    && forall i, j :: 0 <= i < j < |infos| ==> infos[i].effectiveStake >= infos[j].effectiveStake
  }

  /** `infos` holds the indexed validators of `keys`, each exactly once. */
  ghost predicate Listed(infos: seq<ValidatorInfo>, validators: map<Key, ValidatorInfo>, keys: set<Key>)
  {
    && |infos| == |keys|
    && (forall i :: 0 <= i < |infos| ==>
          infos[i].key in keys && infos[i].key in validators && validators[infos[i].key] == infos[i])
    && (forall i, j :: 0 <= i < j < |infos| ==> infos[i].key != infos[j].key)
  }

  /**
   * What the loop of `process_data` knows of validator `v`, filed under
   * `k`, that started with nominator set `backers` and stakes `start`:
   * estimated once `done`, untouched before.
   */
  ghost predicate Progress(v: ValidatorInfo, k: Key, noms: map<Key, Nominator>, backers: set<Key>, start: Stakes,
                           done: bool)
    reads v
  {
    && v.key == k && v.nominators == backers && v.Valid()
    && if done then Estimated(v, noms, start) else StakesOf(v) == start
  }

  /** The loop of `process_data`, over the waiting keys in any order. */
  method EstimateWaiting(validators: map<Key, ValidatorInfo>, waiting: set<Key>, noms: map<Key, Nominator>)
    returns (outcome: Outcome<StakeError>, infos: seq<ValidatorInfo>)
    requires IndexValid(validators)
    modifies validators.Values
    ensures forall k :: k in validators ==> validators[k].nominators == old(validators[k].nominators)
    ensures IndexValid(validators)
    ensures outcome.Pass? <==> AllReady(validators, waiting, noms)
    ensures outcome.Fail? ==> Raises(validators, waiting, noms, outcome.error)
    ensures outcome.Pass? ==> Listed(infos, validators, waiting)
    ensures outcome.Pass? ==> forall w :: w in waiting ==>
      Estimated(validators[w], noms, old(StakesOf(validators[w])))
    ensures forall k :: k in validators && k !in waiting ==>
      StakesOf(validators[k]) == old(StakesOf(validators[k]))
  {
    ghost var before := map k | k in validators :: StakesOf(validators[k]);
    ghost var backers := map k | k in validators :: validators[k].nominators;
    infos := [];
    var remaining := waiting;
    ghost var done: set<Key> := {};
    outcome := Pass;
    while remaining != {}
      invariant remaining <= waiting && done <= waiting && done <= validators.Keys
      invariant forall k :: k in waiting ==> (k in done <==> k !in remaining)
      invariant Listed(infos, validators, done)
      invariant forall k :: k in validators ==> Progress(validators[k], k, noms, backers[k], before[k], k in done)
      decreases remaining
    {
      var validatorKey :| validatorKey in remaining;
      if validatorKey !in validators {
        outcome := Fail(MissingValidator(validatorKey));
        break;
      }
      var validator := validators[validatorKey];
      var result := EstimateOne(validators, noms, backers, before, done, validatorKey);
      if result.Fail? {
        outcome := result;
        break;
      }
      ListedStep(infos, validators, done, validatorKey);
      infos := infos + [validator];
      remaining := remaining - {validatorKey};
      done := done + {validatorKey};
    }
    if outcome.Pass? {
      assert done == waiting;
    }
  }

  /** One step of the loop of `process_data`: estimates the stakes of the validator filed under `k0`. */
  method EstimateOne(validators: map<Key, ValidatorInfo>, noms: map<Key, Nominator>,
                     ghost backers: map<Key, set<Key>>, ghost before: map<Key, Stakes>, ghost done: set<Key>, k0: Key)
    returns (result: Outcome<StakeError>)
    requires validators.Keys <= backers.Keys && validators.Keys <= before.Keys && k0 in validators && k0 !in done
    requires forall k :: k in validators ==> Progress(validators[k], k, noms, backers[k], before[k], k in done)
    modifies validators[k0]
    ensures result.Fail? ==> RaisedBy(validators[k0].nominators, noms, result.error)
    ensures result.Pass? <==> Estimable(validators[k0].nominators, noms)
    ensures validators[k0].nominators == backers[k0]
    ensures forall k :: k in validators && k != k0 ==> Progress(validators[k], k, noms, backers[k], before[k], k in done)
    ensures result.Pass? ==>
      forall k :: k in validators ==> Progress(validators[k], k, noms, backers[k], before[k], k in done + {k0})
  {
    var validator := validators[k0];
    assert Progress(validator, k0, noms, backers[k0], before[k0], false);
    result := validator.EstimateEffectiveStake(noms);
    if result.Pass? {
      assert Progress(validator, k0, noms, backers[k0], before[k0], true);
    }
  }

  /** Listing one more indexed validator, not listed yet, keeps the list exact. */
  lemma ListedStep(infos: seq<ValidatorInfo>, validators: map<Key, ValidatorInfo>, keys: set<Key>, k: Key)
    requires Listed(infos, validators, keys)
    requires k in validators && validators[k].key == k && k !in keys
    ensures Listed(infos + [validators[k]], validators, keys + {k})
  {
    var bigger := infos + [validators[k]];
    assert |keys + {k}| == |keys| + 1;
    assert forall i :: 0 <= i < |infos| ==> bigger[i] == infos[i];
  }

  /**
   * Files a fresh `ValidatorInfo` under every target of every nominator
   * and registers the nominator into the entry of each of its targets.
   */
  method IndexValidators(noms: map<Key, Nominator>) returns (validators: map<Key, ValidatorInfo>)
    ensures IndexValid(validators)
    ensures validators.Keys == AllTargets(noms, noms.Keys)
    ensures forall k :: k in validators ==>
      && fresh(validators[k])
      && validators[k].nominators == Backers(noms, noms.Keys, k)
      && StakesOf(validators[k]) == Stakes(0.0, 0.0, 0.0)
  {
    validators := map[];
    ghost var expected: map<Key, set<Key>> := map[];
    var remaining := noms.Keys;
    while remaining != {}
      invariant remaining <= noms.Keys
      invariant IndexOf(expected, noms, noms.Keys - remaining, [], [])
      invariant validators.Keys == expected.Keys
      invariant forall k :: k in validators ==> fresh(validators[k]) && Blank(validators[k], k, expected[k])
      decreases remaining
    {
      var nominator :| nominator in remaining;
      ghost var done := noms.Keys - remaining;
      var targets := noms[nominator].targets;
      var j := 0;
      while j < |targets|
        invariant 0 <= j <= |targets|
        invariant IndexOf(expected, noms, done, targets[..j], [nominator])
        invariant validators.Keys == expected.Keys
        invariant forall k :: k in validators ==> fresh(validators[k]) && Blank(validators[k], k, expected[k])
      {
        var validator := targets[j];
        validators := Register(validators, expected, validator, nominator);
        IndexOfStep(expected, noms, done, targets, j, nominator);
        expected := Enrolled(expected, validator, nominator);
        j := j + 1;
      }
      IndexOfDone(expected, noms, done, nominator);
      remaining := remaining - {nominator};
      assert noms.Keys - remaining == done + {nominator};
    }
    IndexOfKeys(expected, noms, noms.Keys);
  }

  /** `v` is filed under `k`, has the nominator set `backers` and no stakes yet. */
  ghost predicate Blank(v: ValidatorInfo, k: Key, backers: set<Key>)
    reads v
  {
    v.key == k && v.nominators == backers && StakesOf(v) == Stakes(0.0, 0.0, 0.0)
  }

  /**
   * The body of the inner loop of `setup_auxiliary_data`: registers `nominator` into the entry of `validator`,
   * filing a fresh `ValidatorInfo` under it first when it has none.
   */
  method Register(validators: map<Key, ValidatorInfo>, ghost expected: map<Key, set<Key>>, validator: Key,
                  nominator: Key)
    returns (updated: map<Key, ValidatorInfo>)
    requires validators.Keys == expected.Keys
    requires forall k :: k in validators ==> Blank(validators[k], k, expected[k])
    modifies if validator in validators then {validators[validator]} else {}
    ensures updated.Keys == validators.Keys + {validator}
    ensures forall k :: k in validators ==> updated[k] == validators[k]
    ensures validator !in validators ==> fresh(updated[validator])
    ensures updated.Keys == Enrolled(expected, validator, nominator).Keys
    ensures forall k :: k in updated ==> Blank(updated[k], k, Enrolled(expected, validator, nominator)[k])
  {
    updated := validators;
    if validator !in updated {
      var info := new ValidatorInfo(validator);
      updated := updated[validator := info];
    }
    updated[validator].AddNominator(nominator);
  }

  /** The nominator sets after registering `nominator` into the entry of `validator`. */
  function Enrolled(expected: map<Key, set<Key>>, validator: Key, nominator: Key): (r: map<Key, set<Key>>)
    ensures r.Keys == expected.Keys + {validator}
    ensures forall k :: k in expected && k != validator ==> r[k] == expected[k]
    ensures nominator in r[validator] && (validator in expected ==> r[validator] == expected[validator] + {nominator})
    ensures validator !in expected ==> r[validator] == {validator, nominator}
  {
    expected[validator := (if validator in expected then expected[validator] else {validator}) + {nominator}]
  }

  /**
   * `expected` holds the nominator sets of the index built from the
   * nominators in `done` and, for the targets in `extra`, the nominators in `n`.
   */
  ghost predicate IndexOf(expected: map<Key, set<Key>>, noms: map<Key, Nominator>, done: set<Key>,
                          extra: seq<Key>, n: seq<Key>)
  {
    && expected.Keys == AllTargets(noms, done) + Elements(extra)
    && forall k :: k in expected ==>
         expected[k] == Backers(noms, done, k) + (if k in extra then Elements(n) else {})
  }

  /** Registering the nominator into its next target extends `expected` by that target. */
  lemma IndexOfStep(expected: map<Key, set<Key>>, noms: map<Key, Nominator>, done: set<Key>, targets: seq<Key>,
                    j: nat, nominator: Key)
    requires j < |targets|
    requires IndexOf(expected, noms, done, targets[..j], [nominator])
    ensures IndexOf(Enrolled(expected, targets[j], nominator), noms, done, targets[..j + 1], [nominator])
  {
    var v := targets[j];
    assert targets[..j + 1] == targets[..j] + [v];
    assert Elements(targets[..j + 1]) == Elements(targets[..j]) + {v};
    assert Elements([nominator]) == {nominator};
    if v !in expected {
      assert Backers(noms, done, v) == {v};
    }
  }

  /** Once all targets of `nominator` are registered, it counts as done. */
  lemma IndexOfDone(expected: map<Key, set<Key>>, noms: map<Key, Nominator>, done: set<Key>, nominator: Key)
    requires nominator in noms
    requires IndexOf(expected, noms, done, noms[nominator].targets, [nominator])
    ensures IndexOf(expected, noms, done + {nominator}, [], [])
  {
    IndexStep(noms, done, nominator);
    assert Elements([nominator]) == {nominator};
    assert Elements([]) == {};
  }

  /** With nothing pending, `expected` is exactly the index of the nominators in `done`. */
  lemma IndexOfKeys(expected: map<Key, set<Key>>, noms: map<Key, Nominator>, done: set<Key>)
    requires IndexOf(expected, noms, done, [], [])
    ensures expected.Keys == AllTargets(noms, done)
    ensures forall k :: k in expected ==> expected[k] == Backers(noms, done, k)
  {
    assert Elements([]) == {};
  }

  /** Reordering a list of distinct validators keeps it a listing of the same keys. */
  lemma ListedPermuted(infos: seq<ValidatorInfo>, reordered: seq<ValidatorInfo>, validators: map<Key, ValidatorInfo>,
                       keys: set<Key>)
    requires Listed(infos, validators, keys)
    requires multiset(reordered) == multiset(infos)
    ensures Listed(reordered, validators, keys)
  {
    assert |reordered| == |multiset(reordered)| == |infos|;
    forall i | 0 <= i < |reordered|
      ensures reordered[i].key in keys && reordered[i].key in validators && validators[reordered[i].key] == reordered[i]
    {
      assert reordered[i] in multiset(infos);
    }
    forall i, j | 0 <= i < j < |reordered| ensures reordered[i].key != reordered[j].key {
      if reordered[i].key == reordered[j].key {
        TwiceCounted(reordered, i, j);
        DistinctCounted(infos, reordered[i]);
        assert false;
      }
    }
  }

  /** An element at two positions of a sequence occurs at least twice in its multiset. */
  lemma TwiceCounted<T>(s: seq<T>, i: nat, j: nat)
    requires i < j < |s| && s[i] == s[j]
    ensures multiset(s)[s[i]] >= 2
  {
    assert s == s[..j] + [s[j]] + s[j + 1..];
    assert s[i] in s[..j];
  }

  /** In a list of validators with distinct keys every validator occurs at most once. */
  lemma {:induction false} DistinctCounted(s: seq<ValidatorInfo>, v: ValidatorInfo)
    requires forall i, j :: 0 <= i < j < |s| ==> s[i].key != s[j].key
    ensures multiset(s)[v] <= 1
    decreases |s|
  {
    if s != [] {
      var t := s[1..];
      assert s == [s[0]] + t;
      forall i, j | 0 <= i < j < |t| ensures t[i].key != t[j].key {
        assert t[i] == s[i + 1] && t[j] == s[j + 1];
      }
      DistinctCounted(t, v);
      if s[0] == v {
        forall j | 0 <= j < |t| ensures t[j] != v {
          assert t[j] == s[j + 1];
        }
      }
    }
  }

  /** Registering one more nominator extends the index by its targets. */
  lemma IndexStep(noms: map<Key, Nominator>, done: set<Key>, n: Key)
    requires n in noms
    ensures AllTargets(noms, done + {n}) == AllTargets(noms, done) + Elements(noms[n].targets)
    ensures forall k :: Backers(noms, done + {n}, k)
                        == Backers(noms, done, k) + (if k in noms[n].targets then {n} else {})
  {
    forall v | v in Elements(noms[n].targets) ensures v in AllTargets(noms, done + {n}) {
      assert n in done + {n} && v in noms[n].targets;
    }
  }

  /** The elements of a sequence. */
  function Elements(s: seq<Key>): set<Key>
  {
    set x | x in s
  }
}

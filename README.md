# Waiting-list ranking and team-multiplier scanner

This project models two pieces of the xx network staking scripts in Dafny and proves properties of them.

The first piece is the offline part of `XXNetworkInterfaceExtended.info_waiting_list`. Once the chain data has been fetched, it runs these steps:

- seed a self-nomination for every validator without a nominator entry;
- index the validators with the keys of their nominators;
- attach the bonded amounts from the staking ledger;
- estimate the total, effective and self stake of every waiting validator;
- sort the waiting list by effective stake, highest first.

The second piece is the line scanner of `TeamMultiplierApi`. It finds the start marker in a team-multiplier log, then collects the node keys and multiplier values after it.

The project has five modules:

- `Wrappers` — `Option`, `Result` and `Outcome`.
- `Staking` — value types and specification functions for nominators, the ledger, the validator index and stake sums, with lemmas about them.
- `Ranking` — a stable descending sort: its specification, its properties, and a method that computes it.
- `WaitingList` — the classes `ValidatorInfo` and `NetworkInterfaceExtended`. Their methods change fields in place, as the Python objects do.
- `TeamMultiplier` — `find_start_index` and `find_next` as recursive functions, and `current_tm_values` as a `while` loop proved against a specification function.

How the Python behaviour is represented:

- **Exceptions.** A Python exception becomes a `Fail` or `Failure` value that names the exception. Each comes from a specific line:
  - `KeyError` at src/xxapi_extended.py:69 and :118;
  - `AttributeError` for a `bonded` attribute that was never set, at src/xxapi_extended.py:119;
  - `ZeroDivisionError` at src/xxapi_extended.py:124;
  - the abort at src/tmapi.py:69;
  - a `float()` rejection at src/tmapi.py:67.
- **Amounts** are `real`s. The ledger's `active` amount is a `nat` of plancks, and one coin is 10^9 plancks.
- **Python sets and dicts** with no defined order are iterated with `:|`, so every proof holds for every iteration order.

## Model

| member | source | states |
|---|---|---|
| Staking.ToCoins | src/xxapi_extended.py:60 | The bonded amount is non-negative, and multiplied by 10^9 it gives back the ledger's `active` amount exactly. |
| Staking.SeededSelfFanOut | src/xxapi_extended.py:32-34 | A validator that gets a seeded self-entry has fan-out exactly 1 and is one of the indexed targets. |
| Staking.BackerFanOut | src/xxapi_extended.py:52-55 | Every nominator registered into validator V, other than V itself, targets V, so its fan-out is at least 1. |
| Staking.LastActiveIsLast | src/xxapi_extended.py:58-64 | No ledger amount exists for a key iff no entry has that stash. Otherwise the amount is that of the last entry with that stash. |
| Staking.AttachResult | src/xxapi_extended.py:58-64 | The ledger loop keeps the same nominators and targets. A nominator named by some entry gets the amount of the last such entry divided by 10^9. Every other nominator keeps its bonded amount. |
| Staking.AttachUnknownStashes | src/xxapi_extended.py:61-62 | Entries whose stash is not a nominator change nothing. |
| Staking.AttachDistinctStash | src/xxapi_extended.py:58-64 | When exactly one entry names a nominator, its bonded amount is that entry's `active` divided by 10^9. |
| Staking.AttachKeepsTargets | src/xxapi_extended.py:63-64 | Attaching bonded amounts leaves every targets list unchanged, so the nominator sets and keys of the validator index are unchanged too. |
| Staking.SetSumRemove | src/xxapi_extended.py:117-125 | The sum over a nominator set may start with any element, so the accumulated stakes do not depend on set iteration order. |
| Staking.SetSumNonNegative | src/xxapi_extended.py:123 | A sum of non-negative bonded amounts is non-negative. |
| Staking.EffectiveAtMostTotal | src/xxapi_extended.py:123-125 | With non-negative bonded amounts: 0 <= effective stake <= total stake. |
| Ranking.SortDescProperties | src/xxapi_extended.py:83 | The sort specification is non-increasing in the key, a permutation of its input, and stable: each class of equal keys keeps its order. |
| Ranking.StableSortUnique | src/xxapi_extended.py:83 | Any two non-increasing sequences with the same tie classes are equal, so every stable descending sort gives the same list. |
| Ranking.SortDescending | src/xxapi_extended.py:83 | Returns the stable descending sort of its input: non-increasing, a permutation, ties kept in order. |
| WaitingList.SeedSelfNominations | src/xxapi_extended.py:32-34 | After seeding, every validator key has an entry, existing entries are unchanged, and each added entry targets exactly its own validator. |
| WaitingList.ValidatorInfo.constructor | src/xxapi_extended.py:104-109 | A new validator info has its own key as its only nominator and all three stakes zero. |
| WaitingList.ValidatorInfo.AddNominator | src/xxapi_extended.py:111-112 | The nominator set gains the key. Adding a key already present changes nothing. The stakes are untouched. |
| WaitingList.ValidatorInfo.EstimateEffectiveStake | src/xxapi_extended.py:114-127 | Succeeds iff every nominator is known, has a bonded amount and has fan-out >= 1. On success it adds the sum of bonded amounts to the total stake and the sum of bonded amount over fan-out to the effective stake, and sets the self stake to the validator's own bonded amount. On failure the error is one that some nominator raises. |
| WaitingList.StakeKey | src/xxapi_extended.py:83 | The sort key maps each listed validator to its effective stake. |
| WaitingList.NetworkInterfaceExtended.GetData | src/xxapi_extended.py:25-46 | The nominator map is the seeded map with no bonded amounts. The waiting keys are exactly the validator keys that are not active. The ledger is stored as given. |
| WaitingList.NetworkInterfaceExtended.BuildValidatorIndex | src/xxapi_extended.py:49-55 | The index holds exactly the targets of all nominators. Each entry is fresh, filed under its own key, with zero stakes and the nominator set {itself} plus every nominator targeting it. Every target V of every nominator N is indexed, and V's set contains N. |
| WaitingList.NetworkInterfaceExtended.AttachBondedAmounts | src/xxapi_extended.py:57-64 | The nominator map becomes the result of the ledger loop over the stored entries. Nothing else changes. |
| WaitingList.NetworkInterfaceExtended.SetupAuxiliaryData | src/xxapi_extended.py:48-64 | Builds the index, then attaches the bonded amounts. The index keys and nominator sets agree with the final nominator map. |
| WaitingList.NetworkInterfaceExtended.ProcessData | src/xxapi_extended.py:66-71 | Succeeds iff every waiting validator is indexed and can be estimated. On success the list holds each waiting validator exactly once, each estimated from its previous stakes. On failure the error is one a waiting validator raises. Validators that are not waiting are untouched. |
| WaitingList.NetworkInterfaceExtended.OutputInfo | src/xxapi_extended.py:83 | The list becomes its stable descending sort by effective stake: a permutation that is non-increasing, with ties kept in order. |
| WaitingList.NetworkInterfaceExtended.InfoWaitingList | src/xxapi_extended.py:16-23 | Runs the four steps. Each validator's nominator set is itself plus every nominator targeting it, and each nominator's bonded amount is the last ledger entry for it divided by 10^9, or unset. It succeeds iff every waiting validator is indexed and can be estimated. On success each waiting validator is listed once, with stakes summed from zero over those nominator sets and amounts, highest effective stake first. On failure the error is one a waiting validator raises. |
| WaitingList.NetworkInterfaceExtended.Load | src/xxapi_extended.py:16-19 | After `get_data` and `setup_auxiliary_data`: the index is valid, fresh, has zero stakes and is keyed by all targets; each nominator set is itself plus every nominator targeting it; each bonded amount is the last ledger entry for that nominator divided by 10^9, or unset. |
| WaitingList.NetworkInterfaceExtended.Report | src/xxapi_extended.py:21-23 | `process_data` followed by `output_info`, starting from zero stakes: nominator sets unchanged, and the same success condition, error and result as `InfoWaitingList`. |
| WaitingList.EstimateWaiting | src/xxapi_extended.py:67-71 | The loop over the waiting keys, in any order. It fails with `KeyError` on an unindexed key or with the error a validator raises. Otherwise it lists every waiting validator once, each estimated, and leaves the nominator sets and the other validators unchanged. |
| WaitingList.EstimateOne | src/xxapi_extended.py:69-70 | Estimating one validator keeps the loop's per-validator invariant: it moves that validator from untouched to estimated, and leaves every other validator as it was. |
| WaitingList.ListedStep | src/xxapi_extended.py:71 | Appending a validator that is not yet listed keeps the list an exact enumeration of the processed keys. |
| WaitingList.ListedPermuted | src/xxapi_extended.py:83 | Any permutation of an exact enumeration of the waiting validators is still one. |
| WaitingList.IndexValidators | src/xxapi_extended.py:50-55 | The nested loop builds an index whose keys are all targets, and whose entries are fresh, with zero stakes and the nominator set {itself} plus every nominator targeting it. |
| WaitingList.Register | src/xxapi_extended.py:53-55 | Files a fresh entry when the validator has none, then adds the nominator. That entry's set becomes the expected one, and all other entries are unchanged. |
| WaitingList.IndexOfStep | src/xxapi_extended.py:52-55 | One inner-loop registration extends the partial index by one target. |
| WaitingList.IndexOfDone | src/xxapi_extended.py:51-55 | After all of its targets, the nominator counts as fully registered. |
| WaitingList.IndexOfKeys | src/xxapi_extended.py:50-55 | When nothing is pending, the partial index is exactly the index of the processed nominators. |
| WaitingList.IndexStep | src/xxapi_extended.py:51-55 | Registering nominator N adds N's targets to the index keys, and adds N to the nominator set of exactly those targets. |
| TeamMultiplier.FindStartFrom | src/tmapi.py:50-55 | Returns i+1 for the first line i from the start index that contains the marker, and None iff no such line exists. |
| TeamMultiplier.FindStartIndex | src/tmapi.py:50-55 | Returns one past the first line that contains "Adjusting multiplier values", so a found index is >= 1. Returns None iff no line contains it. |
| TeamMultiplier.FindNext | src/tmapi.py:57-71 | A found entry lies at the first node line i in [k, len-2], and it returns index i+2 > k. The value comes from line i+1. It returns "nothing more" iff no line in [k, len-2] is a node line, so a node line at the last index is never picked up. |
| TeamMultiplier.FindNextFailure | src/tmapi.py:64-69 | A failure always comes from the first node line in range, whose next line has no "Node receives" or no number. |
| TeamMultiplier.FirstNodeFailureRaises | src/tmapi.py:59-69 | Conversely, such a first node line makes `find_next` fail with its error: the line is never skipped. |
| TeamMultiplier.CurrentTmValues | src/tmapi.py:11-24 | The loop returns the specification map: {} without a start marker, otherwise the entries stored in order, or the first error. |
| TeamMultiplier.OverwriteKeys | src/tmapi.py:21-23 | The collected keys are the initial keys plus exactly the entry keys. |
| TeamMultiplier.OverwriteLastWins | src/tmapi.py:22 | The last entry for a key decides its value. |
| TeamMultiplier.OverwriteKeeps | src/tmapi.py:22 | A key that no entry names keeps its value. |
| TeamMultiplier.TmValuesContents | src/tmapi.py:14-24 | A log that scans without error yields exactly the keys of its entries, each with the value of its last entry. |

## Left out

- Chain queries (`map_query`, `item_query` and the substrate client): their results are the arguments of `GetData`. The Python keeps the ledger as a dict; the model takes its values as a sequence in iteration order.
- Fetching the log: `read_latest_log` and `latest_url`, with HTTP, the current date and the fallback to yesterday's log. The log is given as its sequence of lines.
- The two regular expressions and `float()`: they are the functions of a `LineParser` on a line. The start marker has no regex metacharacters, so it is modelled as a plain substring search.
- Floating-point arithmetic: amounts are exact reals, so there is no rounding in `/ 1_000_000_000` or `bonded / n`.
- Logging: the `g_staking_verbose` global, the intro text, and the report loop of `output_info` (src/xxapi_extended.py:84-90). None of them affects the results.
- The constructor of `XXNetworkInterfaceExtended` (src/xxapi_extended.py:11-14) only sets up the client and logging. The model's constructor just starts from empty state.
- info_waiting_list.py is not part of this model: it only builds the interface and calls `info_waiting_list()`.
- Iteration order of Python sets and dicts is left open. Sets are iterated by arbitrary choice, and the ledger keeps iteration order.
- The sort algorithm: Python uses Timsort. The model sorts by stable insertion, and `Ranking.StableSortUnique` shows that every stable descending sort gives the same list.
- Source line 69 raises a string rather than an exception object, so Python actually raises `TypeError`. Both abort the scan, and the model records the intended error, `NoReceivesLine`.
- Nominators with no ledger entry: `NominatorInfo` never initialises `bonded` (src/xxapi_extended.py:96-98), so line 119 raises `AttributeError` for such a nominator. The model follows the code with the `BondedUnset` error; counting such a nominator as zero would be a design alternative, which is not modelled.
- WaitingList.ValidatorInfo.EstimateEffectiveStake: on failure it states which error occurs, but not the partly accumulated stakes at that point. Nothing uses a validator after its estimation fails.
- WaitingList.NetworkInterfaceExtended.InfoWaitingList: on failure it says nothing about the validators estimated before the exception, because the run ends there.

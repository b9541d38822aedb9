# Towny town core, verified in Dafny

This project models the core of Towny's `Town` object, the siege-war surrender
request, and the repository's source formatter script.

**The town (`town.dfy`, module `TownObject`).** `Town` is a class whose fields
the methods update in place:
- the claim map, keyed by world coordinate;
- the home block and the world registration that follows it;
- the home spawn, and the outpost and jail spawn lists;
- the resident roster, the mayor and mayoral succession;
- the outlaw list and the nation link;
- the tax and price settings, each clamped to its configured maximum;
- the bank balance that `collect` deposits into, under the bank cap;
- the plot-group map, keyed by name.

The configuration the town reads (`TownySettings`) is the value `Settings`.
The class invariant `Valid()` says:
- every claim is stored under its own coordinate;
- the home block is one of the claims;
- a spawn lies in the home block's cell whenever both are set;
- the roster and the outlaw list hold no duplicates.

**Succession (`succession.dfy`, module `Succession`).** This states the
`LinkedHashSet` computation of `getMayoralSuccession` as functions. It also
gives an independent characterisation: residents grouped by the first
configured rank they hold, roster order within a group. The two are proved
equal, so the order:
- is duplicate-free;
- holds everyone but the mayor;
- puts ranked residents before unranked ones.

**Claim costs (`claim_cost.dfy`, module `ClaimCost`).** The claim-cost loops
are stated as functions over exact reals. They are proved equal to a sum of
rounded geometric terms at exponents count .. count+n-1, and monotone in the
number of claims. The bonus cap is computed in Java `int` arithmetic, so its
wrap-around is part of the model.

**Surrender (`surrender.dfy`, module `SurrenderTown`).** This is the
surrender request: a resident lookup and a chain of five checks, the first
failing one deciding the player's message. A `Siege` class holds the state that `defenderSurrender`
updates.

**Formatter (`formatter.dfy`, module `Formatter`).**
- The `EOL` lookups.
- `clean_line`: trailing whitespace stripped, tabs expanded to four-column
  stops. It is proved against a character-by-character reference expansion.
- The join and terminator logic of `clean`.

**Where the code does something other than its names and comments suggest,
the model follows the code.**
- The first claim's price uses the current claim count as exponent, not
  count + 1. `ClaimCost.ClaimCostExample` shows that with 2
  claims, price 100 and increase 1.1, one more claim costs round(100 × 1.1²) =
  121.
- A surrender with zero active attackers is not rejected. It passes every
  check and fails on the attacker lookup: `SurrenderTown.ZeroAttackersCrash`.
- A bonus request so large that purchased + request passes the `int` maximum
  wraps negative and skips the cap: `ClaimCost.BonusCap` and
  `ClaimCost.BonusWrapExample`.
- An outpost or jail spawn index of `Integer.MIN_VALUE` wraps in `index - 1`
  and selects the last spawn, not the first.
- `setWorld` calls `removeTown` on the new world rather than the old one: the
  parameter shadows the field. So the old world keeps listing the town, except
  when `setHomeBlock` removed it beforehand.
- The terminator test in `clean` compares the text *without* its last |eol|
  characters to eol. It does not test how the text ends:
  `Formatter.TerminatorSkippedIff` and `Formatter.PrefixTestExample`.

## Model

| member | source | states |
|---|---|---|
| TownObject.Clamp | src/com/palmergames/bukkit/towny/object/Town.java:119-125 | Math.min: the result is at most the request and at most the ceiling, and is one of the two |
| TownObject.ModeSwitchBounds | src/com/palmergames/bukkit/towny/object/Town.java:335-341 | after a tax-mode switch the stored tax respects the new mode's ceiling, and the reported tax is at most 100, even when -1 stands for a default over 100 |
| TownObject.CollectRespectsCap | src/com/palmergames/bukkit/towny/object/Town.java:959-974 | with the economy on and a positive cap, a deposit never takes the balance past the cap, and it is skipped exactly when amount + balance exceeds the cap |
| TownObject.BankCapExample | src/com/palmergames/bukkit/towny/object/Town.java:959-974 | cap 1000, balance 900: a deposit of 200 is skipped, one of 100 brings the balance to 1000 |
| TownObject.Town.constructor | src/com/palmergames/bukkit/towny/object/Town.java:37-72 | a new town satisfies the invariant, has no claims, residents, spawns or nation, and takes its default plot taxes, percentage mode and percent-tax cap from the configuration |
| TownObject.Town.GetTownBlock | src/com/palmergames/bukkit/towny/object/Town.java:104-108 | a claim is found exactly when the coordinate is in the claim map, and it is the claim stored under that coordinate |
| TownObject.Town.SetWorld | src/com/palmergames/bukkit/towny/object/Town.java:551-573 | the town's world becomes the argument; on a change the new world lists the town and the old world's registry is untouched; the same world changes nothing |
| TownObject.Town.SetSpawn | src/com/palmergames/bukkit/towny/object/Town.java:738-746 | fails without a home block, and succeeds exactly when the location's cell is the home block's; a failure leaves the spawn unchanged |
| TownObject.Town.GetSpawn | src/com/palmergames/bukkit/towny/object/Town.java:758-765 | returns the spawn when a home block and a spawn are set; otherwise clears the spawn and fails |
| TownObject.Town.SetHomeBlock | src/com/palmergames/bukkit/towny/object/Town.java:456-482 | none clears the home block and answers false; an unclaimed block is refused with nothing changed; otherwise it becomes the home block, the town moves to its world's registry, and a spawn outside it is cleared; the invariant is kept |
| TownObject.Town.AddTownBlock | src/com/palmergames/bukkit/towny/object/Town.java:89-102 | a claimed coordinate is refused with nothing changed; otherwise the claim is stored under its coordinate, and the first claim of a town without a home block becomes its home block, the town moving to that claim's world registry (and leaving the old one's) |
| TownObject.Town.RemoveOutpostSpawn | src/com/palmergames/bukkit/towny/object/Town.java:873-882 | the loop over the copy leaves exactly the outpost spawns outside the cell, in their order |
| TownObject.Town.RemoveJailSpawn | src/com/palmergames/bukkit/towny/object/Town.java:1024-1033 | the loop over the copy leaves exactly the jail spawns outside the cell, in their order |
| TownObject.Town.RemoveTownBlock | src/com/palmergames/bukkit/towny/object/Town.java:776-796 | an unclaimed coordinate changes nothing; otherwise the claim leaves the map, its outpost or jail spawns are removed, and the home block is cleared if it was this claim; the invariant is kept |
| TownObject.Town.AddOutpostSpawn | src/com/palmergames/bukkit/towny/object/Town.java:814-830 | old spawns in the cell are always removed; the spawn is appended exactly when the claim there is an outpost, else the matching error; afterwards it is the only outpost spawn in its cell |
| TownObject.Town.GetOutpostSpawn | src/com/palmergames/bukkit/towny/object/Town.java:848-854 | the index is clamped to 1..count, except that Integer.MIN_VALUE wraps in index - 1 and gives the last spawn; with no spawns the level-limited error, or an index-out-of-bounds failure otherwise |
| TownObject.Town.AddJailSpawn | src/com/palmergames/bukkit/towny/object/Town.java:1004-1022 | wilderness is refused with nothing changed; otherwise old spawns in the cell are removed and the spawn is appended exactly when the claim is a jail |
| TownObject.Town.GetJailSpawn | src/com/palmergames/bukkit/towny/object/Town.java:1051-1056 | fails exactly when there are no jail spawns; otherwise the index clamped to 1..count, except that Integer.MIN_VALUE wraps in index - 1 and gives the last spawn |
| TownObject.Town.AddResidentCheck | src/com/palmergames/bukkit/towny/object/Town.java:232-243 | passes exactly when the resident is not on the roster and belongs to no other town |
| TownObject.Town.AddResident | src/com/palmergames/bukkit/towny/object/Town.java:226-230 | the resident is appended exactly when the check passes; the roster stays duplicate-free and the mayor stays a resident |
| TownObject.Town.SetMayor | src/com/palmergames/bukkit/towny/object/Town.java:133-140 | succeeds exactly for a resident, who becomes mayor; otherwise the mayor is unchanged |
| TownObject.Town.GetResidentsWithRank | src/com/palmergames/bukkit/towny/object/Town.java:188-197 | the residents holding the rank and no others, in roster order |
| TownObject.Town.GetMayoralSuccession | src/com/palmergames/bukkit/towny/object/Town.java:660-683 | the nested loops compute the succession order: duplicate-free, exactly the residents other than the mayor, ordered by rank group then roster |
| TownObject.Town.MayoralSuccession | src/com/palmergames/bukkit/towny/object/Town.java:629-648 | the first candidate of the succession order becomes mayor; with no candidate the outgoing mayor stays |
| TownObject.Town.Remove | src/com/palmergames/bukkit/towny/object/Town.java:614-621 | the resident leaves the roster; a leaving mayor is replaced by the first successor; another mayor is unchanged |
| TownObject.Town.RemoveResident | src/com/palmergames/bukkit/towny/object/Town.java:595-607 | a non-resident is NotRegistered with nothing changed; otherwise removal, EmptyTown exactly when the roster becomes empty, and on success the mayor is a resident |
| TownObject.SuccessorStays | src/com/palmergames/bukkit/towny/object/Town.java:595-621 | when someone besides the leaving resident remains, the mayor after removal is still on the roster |
| TownObject.AddEach | src/com/palmergames/bukkit/towny/object/Town.java:664-678 | LinkedHashSet.add in a loop computes the insertion-ordered union |
| TownObject.Town.AddOutlawCheck | src/com/palmergames/bukkit/towny/object/Town.java:1098-1109 | passes exactly when the resident is not an outlaw and not of this town, with the matching error key otherwise |
| TownObject.Town.AddOutlaw | src/com/palmergames/bukkit/towny/object/Town.java:1092-1096 | the resident is appended exactly when the check passes; the list stays duplicate-free |
| TownObject.Town.RemoveOutlaw | src/com/palmergames/bukkit/towny/object/Town.java:1111-1115 | the outlaws afterwards are exactly the previous ones other than the resident |
| TownObject.Town.SetNation | src/com/palmergames/bukkit/towny/object/Town.java:150-164 | fails exactly when joining a different nation while in one, and then leaves the nation unchanged; otherwise the nation becomes the argument |
| TownObject.Town.IsAlliedWith | src/com/palmergames/bukkit/towny/object/Town.java:1133-1147 | no alliance without a nation on both sides; same nation implies allied; different nations are allied exactly when the first lists the second |
| TownObject.Town.IsPVP | src/com/palmergames/bukkit/towny/object/Town.java:300-311 | the admin enable override wins over the disable override, which wins over the town's setting |
| TownObject.Town.SetTaxes | src/com/palmergames/bukkit/towny/object/Town.java:119-125 | the stored tax is the request clamped to the ceiling of the current mode |
| TownObject.Town.GetTaxes | src/com/palmergames/bukkit/towny/object/Town.java:128-131 | re-clamps the stored tax, and reports the configured default for -1 |
| TownObject.Town.SetTaxPercentage | src/com/palmergames/bukkit/towny/object/Town.java:335-341 | switches the mode, and the stored tax then respects the new ceiling |
| TownObject.Town.SetPlotPrice | src/com/palmergames/bukkit/towny/object/Town.java:884-886 | the plot price is the request clamped to the maximum plot price |
| TownObject.Town.SetCommercialPlotPrice | src/com/palmergames/bukkit/towny/object/Town.java:913-915 | the commercial price is the request clamped to the maximum plot price |
| TownObject.Town.SetEmbassyPlotPrice | src/com/palmergames/bukkit/towny/object/Town.java:922-924 | the embassy price is the request clamped to the maximum plot price |
| TownObject.Town.SetPlotTax | src/com/palmergames/bukkit/towny/object/Town.java:935-937 | the plot tax is the request clamped to the maximum plot tax |
| TownObject.Town.SetCommercialPlotTax | src/com/palmergames/bukkit/towny/object/Town.java:943-945 | the commercial tax is the request clamped to the maximum plot tax |
| TownObject.Town.SetEmbassyPlotTax | src/com/palmergames/bukkit/towny/object/Town.java:951-953 | the embassy tax is the request clamped to the maximum plot tax |
| TownObject.Town.SetMaxPercentTaxAmount | src/com/palmergames/bukkit/towny/object/Town.java:1301-1304 | the cap is the request clamped to the configured percent-tax maximum |
| TownObject.Town.GetPlotTypePrice | src/com/palmergames/bukkit/towny/object/Town.java:892-911 | the price of the plot type's own setting, never below zero |
| TownObject.Town.GetTownBlockCostN | src/com/palmergames/bukkit/towny/object/Town.java:381-399 | the loop computes the claim-cost function at the current claim count |
| TownObject.Town.GetBonusBlockCostN | src/com/palmergames/bukkit/towny/object/Town.java:401-427 | the loop, with the cap's sum and difference in Java int arithmetic, computes the bonus-cost function at the purchased count and the configured maximum |
| TownObject.Town.Collect | src/com/palmergames/bukkit/towny/object/Town.java:959-974 | the balance changes exactly by a deposit that the cap rule allows |
| TownObject.Town.AddPlotGroup | src/com/palmergames/bukkit/towny/object/Town.java:1208-1214 | the map is created if missing, and the group is stored under its name, where the name lookup finds it |
| TownObject.Town.RemovePlotGroup | src/com/palmergames/bukkit/towny/object/Town.java:1216-1225 | the entry under the group's name is dropped, so the name is no longer known; a missing map stays missing |
| TownObject.Town.RenamePlotGroup | src/com/palmergames/bukkit/towny/object/Town.java:1203-1206 | the old name is dropped and the group stored under its name, where the lookup finds it; a different old name is no longer known; with no map the call fails |
| TownObject.Town.GetPlotObjectGroupFromName | src/com/palmergames/bukkit/towny/object/Town.java:1256-1262 | a group is found exactly when the map exists and the name is a key, and it is the group stored there |
| TownObject.Town.HasPlotGroupName | src/com/palmergames/bukkit/towny/object/Town.java:1252-1254 | a name is known exactly when the lookup by name finds a group |
| TownObject.Town.GetObjectGroupFromId | src/com/palmergames/bukkit/towny/object/Town.java:1236-1245 | a found group is in the map with that id; nothing is found only when no group has the id |
| Succession.WithRank | src/com/palmergames/bukkit/towny/object/Town.java:188-197 | membership: exactly the roster's residents holding the rank |
| Succession.AddAllAppendsNew | src/com/palmergames/bukkit/towny/object/Town.java:664-678 | adding a duplicate-free list to the LinkedHashSet appends exactly its new elements, in order |
| Succession.RankFoldIsGrouped | src/com/palmergames/bukkit/towny/object/Town.java:664-672 | after the first k ranks the set holds rank groups 0..k-1, each in roster order |
| Succession.AllIsGrouped | src/com/palmergames/bukkit/towny/object/Town.java:664-678 | after the roster loop the set is all groups, unranked residents last |
| Succession.GroupedOrdered | src/com/palmergames/bukkit/towny/object/Town.java:650-683 | the grouped list is ordered by rank group, then by roster position |
| Succession.SuccessionOrderSpec | src/com/palmergames/bukkit/towny/object/Town.java:660-683 | the succession order is duplicate-free, holds exactly the residents other than the mayor, and is ordered by group then roster |
| Succession.RankedBeforeUnranked | src/com/palmergames/bukkit/towny/object/Town.java:650-656 | a resident with a configured rank comes before every resident with none |
| Succession.MayorNotInSuccession | src/com/palmergames/bukkit/towny/object/Town.java:679-680 | the outgoing mayor is never in its own succession order |
| Succession.SuccessionEmptyIff | src/com/palmergames/bukkit/towny/object/Town.java:660-683 | the order is empty exactly when no one but the mayor is on the roster |
| Succession.SuccessionExample | src/com/palmergames/bukkit/towny/object/Town.java:660-683 | roster A (mayor), B (the one rank holder), C gives the order B, C |
| Succession.RankBeatsRosterExample | src/com/palmergames/bukkit/towny/object/Town.java:660-683 | roster C, B with B holding the rank gives the order B, C |
| ClaimCost.Round | src/com/palmergames/bukkit/towny/object/Town.java:397 | Math.round: within one half of the argument, halves rounded up |
| ClaimCost.TownBlockCostN | src/com/palmergames/bukkit/towny/object/Town.java:381-399 | a negative count is an error and zero costs nothing |
| ClaimCost.BonusBlockCostN | src/com/palmergames/bukkit/towny/object/Town.java:401-427 | a negative count is an error; the cap is applied in Java int arithmetic |
| ClaimCost.CostIsSumOfRoundedTerms | src/com/palmergames/bukkit/towny/object/Town.java:381-399 | the loop's cost, first term unrounded then the total rounded, equals the sum of n rounded terms at exponents count .. count+n-1 |
| ClaimCost.CostMonotone | src/com/palmergames/bukkit/towny/object/Town.java:381-399 | with non-negative price and increase, claiming more never costs less |
| ClaimCost.BonusCap | src/com/palmergames/bukkit/towny/object/Town.java:406-412 | while purchased + request fits an int, the costed bonus count never exceeds the request or the headroom, and a request that fits is costed as asked; past the int maximum the sum wraps negative and the full request is costed |
| ClaimCost.BonusWrapExample | src/com/palmergames/bukkit/towny/object/Town.java:406-412 | ten purchased, maximum 100: a request of 200 is cut to 90, a request of Integer.MAX_VALUE is costed in full |
| ClaimCost.OverCapChargesFirstTerm | src/com/palmergames/bukkit/towny/object/Town.java:406-426 | a town already past the bonus maximum is still charged the first term, while the int sums do not wrap |
| ClaimCost.ClaimCostExample | src/com/palmergames/bukkit/towny/object/Town.java:381-399 | price 100, increase 1.1, two claims: one more costs 121, two more 254 |
| SurrenderTown.FailedCheck | src/com/palmergames/bukkit/towny/war/siegewar/playeractions/SurrenderTown.java:25-41 | no check fails exactly when the requester is a registered resident of the besieged town, has the permission, the siege is in progress and at most one attacker is active; an unregistered requester gets the lookup's message, a townless one the not-a-member key |
| SurrenderTown.FirstFailure | src/com/palmergames/bukkit/towny/war/siegewar/playeractions/SurrenderTown.java:25-41 | the key of a failing check all of whose predecessors pass; none exactly when all pass |
| SurrenderTown.ChainIsFirstFailure | src/com/palmergames/bukkit/towny/war/siegewar/playeractions/SurrenderTown.java:25-41 | the early-exit chain reports the first failing check of the list, in source order |
| SurrenderTown.Decide | src/com/palmergames/bukkit/towny/war/siegewar/playeractions/SurrenderTown.java:25-49 | rejected exactly when the lookup or a check fails, with its message; a surrender names the single attacker; a crash only with no attackers |
| SurrenderTown.SurrenderIff | src/com/palmergames/bukkit/towny/war/siegewar/playeractions/SurrenderTown.java:25-44 | a surrender happens exactly for a registered member of the besieged town with permission, an in-progress siege and exactly one attacker |
| SurrenderTown.ZeroAttackersCrash | src/com/palmergames/bukkit/towny/war/siegewar/playeractions/SurrenderTown.java:40-55 | a valid request against a siege with no active attackers ends in the failed attacker lookup |
| SurrenderTown.CompleteDefenderSurrender | src/com/palmergames/bukkit/towny/war/siegewar/playeractions/SurrenderTown.java:52-61 | sets the status to defender surrender and the first attacker as winner, and announces it; with no attackers fails with the siege unchanged |
| SurrenderTown.ProcessTownSurrenderRequest | src/com/palmergames/bukkit/towny/war/siegewar/playeractions/SurrenderTown.java:22-50 | a failed lookup or check sends its message and cancels the event with the siege untouched; success completes the siege and leaves the event alone |
| Formatter.FromName | formatter.py:22-25 | a member is found exactly for the names CRLF and LF, and has that name |
| Formatter.FromNameToValue | formatter.py:27-31 | CRLF maps to carriage return plus line feed, LF to line feed, other names to nothing |
| Formatter.NameRoundTrip | formatter.py:15-31 | looking up a member's name gives back the member and its value |
| Formatter.StripTrailing | formatter.py:34 | the result is a prefix of the input, everything removed is whitespace, and the result does not end in whitespace |
| Formatter.Piece | formatter.py:111-115 | a tab becomes 1 to 4 spaces ending on a multiple of 4; any other character is copied |
| Formatter.TabStop | formatter.py:111-115 | in the expansion a tab advances the column by 1 to 4 to a multiple of 4, and any other character advances it by one and is copied |
| Formatter.CharPreserved | formatter.py:111-117 | every non-tab character appears in the output at the column reached before it, so the other characters keep their order |
| Formatter.ExpandPrefix | formatter.py:111-117 | expanding more characters only extends the output |
| Formatter.ExpandLength | formatter.py:111-117 | the output is never shorter than the input |
| Formatter.ExpandNoTab | formatter.py:111-117 | a line without tabs expands to itself |
| Formatter.NoTabsAfterExpand | formatter.py:111-117 | the expansion holds no tab |
| Formatter.CleanedLineEnd | formatter.py:101-117 | a cleaned line never ends in whitespace |
| Formatter.CleanedLineWithoutTabs | formatter.py:101-105 | a line without tabs is only stripped, whether or not tabs are replaced |
| Formatter.ExpandTabs | formatter.py:106-117 | the cut-at-each-tab loop computes the reference expansion |
| Formatter.CleanLine | formatter.py:101-117 | clean_line is the strip followed, when asked, by the expansion |
| Formatter.DropLast | formatter.py:84 | slice(-k) keeps all but the last k characters, and nothing when k is 0 |
| Formatter.CleanedLines | formatter.py:90-91 | one cleaned line per input line, in order |
| Formatter.Clean | formatter.py:82-96 | the loop computes the joined cleaned lines, with the terminator appended unless the slice test says otherwise |
| Formatter.TerminatorSkippedIff | formatter.py:84-96 | the terminator is skipped exactly when eol is empty, or the joined text is twice eol's length and starts with eol |
| Formatter.PrefixTestExample | formatter.py:95-96 | lines "\n" and "x" with a line-feed terminator are written as "\nx", with no final terminator |
| Formatter.CleanExample | formatter.py:82-117 | lines "a\t" and "\tb" with tab replacement and CRLF become "a\r\n    b\r\n" |

## Left out

- TownObject.Town.SetHomeBlock: the nation-proximity expulsion (Town.java:483-506) is not modelled. It needs the capital's home block, a square root over floating point and `Nation.removeTown`, which are not part of this model.
- TownObject.Town.GetObjectGroupFromId: promises some group with the id. The source returns the first one in `HashMap` iteration order, which is unspecified.
- TownObject.Town.Collect: the deposit into the bank account is assumed to succeed. An `EconomyException` from the account is not modelled.
- ClaimCost.TownBlockCostN: the exponent count + i is exact, not Java `int` addition. It could only wrap past 2^31 claims.
- ClaimCost.BonusBlockCostN: the exponent purchased + i is exact, not Java `int` addition, as for claims.
- TownObject.Town.GetOutpostSpawn: the index is a Java `int`. A null `Integer` (a NullPointerException on unboxing) is not modelled.
- TownObject.Town.GetJailSpawn: the index is a Java `int`. A null `Integer` is not modelled.
- SurrenderTown.Decide: the text of a failed resident lookup is the data source's message, taken as part of the lookup result.
- TownObject.Town.RemoveTownBlock: "is this the home block" compares coordinates. The source compares references. The claim map holds one claim per coordinate, so the two agree for blocks taken from the map.
- TownObject.Town.RemovePlotGroup: the source also clears the id of every member block's group and saves the block. Town blocks are values here, and persistence is not modelled.
- TownObject.Town.SetNation: nations are compared by value. The source compares references (`==`).
- SurrenderTown.ProcessTownSurrenderRequest: towns are identified by name. The source compares `Town` references.
- Floating point: `double` is modelled as exact `real`. `Math.round` is floor(x + 0.5), and `Math.pow` takes natural exponents only. Rounding error and overflow of `double` are not modelled.
- Persistence: `saveTown`, `saveTownBlock` and the siege save are left out. So are messaging, `Translation` and `TownyPerms.assignPermissions`. Errors carry the language key instead of the translated text.
- Concurrency: `ConcurrentHashMap` is a `map` field, updated one operation at a time.
- Outside lookups are parameters:
  - the claim at a location and the wilderness test (`TownyAPI`);
  - the resident lookup by player name, and the resident's town;
  - the permission test;
  - the configuration (`TownySettings`).
- `Coord.parseCoord`: the cell is floor(x / 16) and floor(z / 16), the default town block size. A configured size other than 16 is not modelled; Coord.java is not part of this model.
- `TownyWorld`, `Resident`, `Nation`, `PlotGroup` and `TownBlock`: only the parts the town reads are modelled. A plot group's UUID is a natural number.
- The siege's other completion fields, the siege save and the formatted names in the announcement are left out. The announcement carries the defending town's and the winner's names.
- Deprecated and display-only members of Town.java are left out: the deprecated wrappers, `findNewMayor`, `getTreeString`, `getFormattedName` and the metadata accessors. So are the `force*` loading setters, `getTownBlocksForPlotGroup` and the plain getters.
- Formatter: file reading and writing, `argparse`, `main` and `iter_filepaths` are I/O and are left out. The `UnicodeError` report is left out too.
- Formatter.Clean: takes `keep_tabs` as a parameter and passes it on as `replace_tabs`, as the source does. In the source, `filepath in KEEP_TABS` tests a `Path` against a set of strings, so it is always false.
- TownyVehicleListener.java is not part of this model.

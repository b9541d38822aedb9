/** The Town aggregate (Town.java): its claim map and home block, the home
    spawn and the outpost and jail spawns, the resident roster with its mayor
    and mayoral succession, the outlaw list, the plot-group map, the clamped
    tax and price settings, the claim-cost schedules and the bank-cap rule. */
module TownObject {
  import opened TownyObjects
  import opened Succession
  import ClaimCost

  /** The configuration values Town.java reads from TownySettings. */
  datatype Settings = Settings(
    maxTownTax: real,
    maxTownTaxPercent: real,
    maxTownTaxPercentAmount: real,
    townDefaultTax: real,
    townDefaultPlotTax: real,
    townDefaultShopTax: real,
    townDefaultEmbassyTax: real,
    townDefaultTaxPercentage: bool,
    maxPlotPrice: real,
    maxPlotTax: real,
    claimPrice: real,
    claimPriceIncrease: real,
    purchasedBonusBlocksCost: real,
    purchasedBonusBlocksIncrease: real,
    maxPurchasedBlocks: int,
    usingEconomy: bool,
    townBankCap: real,
    orderOfMayoralSuccession: seq<string>,
    outpostsLimitedByLevels: bool)

  /** A world's registry of the towns whose home block lies in it
      (TownyWorld.addTown / removeTown). */
  class TownyWorld {
    const name: string
    var towns: set<Town>

    constructor (name: string)
      ensures this.name == name && towns == {}
    {
      this.name := name;
      towns := {};
    }

    /** addTown: AlreadyRegistered when the town is already listed. */
    method AddTown(t: Town) returns (o: Outcome)
      modifies this
      ensures o.Pass? <==> t !in old(towns)
      ensures towns == old(towns) + {t}
    {
      if t in towns {
        o := Fail(AlreadyRegistered(""));
      } else {
        towns := towns + {t};
        o := Pass;
      }
    }

    /** removeTown: NotRegistered when the town is not listed. */
    method RemoveTown(t: Town) returns (o: Outcome)
      modifies this
      ensures o.Pass? <==> t in old(towns)
      ensures towns == old(towns) - {t}
    {
      if t in towns {
        towns := towns - {t};
        o := Pass;
      } else {
        o := Fail(NotRegistered(""));
      }
    }
  }

  /** A claim: its cell in a world, whether it is an outpost, its plot type
      and its plot group. */
  datatype TownBlock = TownBlock(world: TownyWorld, x: int, z: int, outpost: bool,
                                 kind: TownBlockType, group: Option<PlotGroup>)
  {
    function Coordinate(): WorldCoord { WorldCoord(world.name, x, z) }
    function Cell(): Coord { Coord(x, z) }
    predicate IsJail() { kind == Jail }
  }

  /** The applicable tax ceiling: percentage mode or flat mode. */
  function TaxCeiling(cfg: Settings, isPercentage: bool): real
  {
    if isPercentage then cfg.maxTownTaxPercent else cfg.maxTownTax
  }

  /** Math.min as used by every clamping setter. */
  function Clamp(requested: real, ceiling: real): (r: real)
    ensures r <= requested && r <= ceiling
    ensures r == requested || r == ceiling
  {
    if requested <= ceiling then requested else ceiling
  }

  /** What getTaxes reports for a stored (already clamped) tax: -1 stands for
      the configured default. */
  function ReportedTax(cfg: Settings, stored: real): real
  {
    if stored == -1.0 then cfg.townDefaultTax else stored
  }

  /** The tax stored by setTaxPercentage: getTaxes clamps under the new mode,
      and a reported value over 100 resets the tax through setTaxes(0). */
  function TaxAfterModeSwitch(cfg: Settings, isPercentage: bool, stored: real): real
  {
    var clamped := Clamp(stored, TaxCeiling(cfg, isPercentage));
    if ReportedTax(cfg, clamped) > 100.0 then Clamp(0.0, TaxCeiling(cfg, isPercentage)) else clamped
  }

  /** After a mode switch the stored tax respects the new ceiling, and what
      getTaxes reports is at most 100, even when -1 stands for a configured
      default over 100 (the reset stores 0). */
  lemma ModeSwitchBounds(cfg: Settings, isPercentage: bool, stored: real)
    requires TaxCeiling(cfg, isPercentage) >= 0.0
    ensures TaxAfterModeSwitch(cfg, isPercentage, stored) <= TaxCeiling(cfg, isPercentage)
    ensures ReportedTax(cfg, TaxAfterModeSwitch(cfg, isPercentage, stored)) <= 100.0
  {
  }

  /** The result of collect: deposited, or skipped because the deposit would
      pass the bank cap (members are notified), or nothing when the economy is
      off. */
  datatype CollectOutcome = Deposited(newBalance: real) | Capped(cap: real) | NoEconomy

  function CollectEffect(cfg: Settings, amount: real, balance: real): CollectOutcome
  {
    if !cfg.usingEconomy then NoEconomy
    else if cfg.townBankCap > 0.0 && amount + balance > cfg.townBankCap then Capped(cfg.townBankCap)
    else Deposited(balance + amount)
  }

  /** A deposit never takes a balance within a positive cap past the cap; a
      capped deposit changes nothing. */
  lemma CollectRespectsCap(cfg: Settings, amount: real, balance: real)
    requires cfg.usingEconomy && cfg.townBankCap > 0.0
    ensures CollectEffect(cfg, amount, balance).Deposited? ==>
      CollectEffect(cfg, amount, balance).newBalance <= cfg.townBankCap
    ensures CollectEffect(cfg, amount, balance).Capped? <==> amount + balance > cfg.townBankCap
  {
  }

  /** A bank cap of 1000 and a balance of 900: a deposit of 200 is skipped
      and the balance stays 900; a deposit of 100 is made. */
  lemma BankCapExample(cfg: Settings)
    requires cfg.usingEconomy && cfg.townBankCap == 1000.0
    ensures CollectEffect(cfg, 200.0, 900.0) == Capped(1000.0)
    ensures CollectEffect(cfg, 100.0, 900.0) == Deposited(1000.0)
  {
  }

  class Town {
    const name: string
    var residents: seq<Resident>
    var outlaws: seq<Resident>
    var outpostSpawns: seq<Location>
    var jailSpawns: seq<Location>
    /** null until the first plot group is added. */
    var plotGroups: Option<map<string, PlotGroup>>
    var mayor: Option<Resident>
    var bonusBlocks: int
    var purchasedBlocks: nat
    var taxes: real
    var plotTax: real
    var commercialPlotTax: real
    var embassyPlotTax: real
    var plotPrice: real
    var commercialPlotPrice: real
    var embassyPlotPrice: real
    var maxPercentTaxAmount: real
    var nation: Option<Nation>
    var isTaxPercentage: bool
    var homeBlock: Option<TownBlock>
    var world: TownyWorld?
    var spawn: Option<Location>
    var pvp: bool
    var adminDisabledPVP: bool
    var adminEnabledPVP: bool
    var townBlocks: map<WorldCoord, TownBlock>
    /** The holding balance of the town's bank account. */
    var holdings: real

    /** Every claim is stored under its own coordinate, the home block is one
        of the claims, a spawn lies in the home block whenever both are set,
        and the roster and outlaw list hold no duplicates. */
    ghost predicate Valid()
      reads this
    {
      && NoDup(residents)
      && NoDup(outlaws)
      && (forall c :: c in townBlocks ==> townBlocks[c].Coordinate() == c)
      && (homeBlock.Some? ==> homeBlock.value.Coordinate() in townBlocks)
      && (spawn.Some? && homeBlock.Some? ==> AtCoord(spawn.value, homeBlock.value.Cell()))
    }

    /** The mayor is on the roster. setMayor only installs residents; the one
        way to lose it is removing the last resident (EmptyTown), which leaves
        the outgoing mayor in place. */
    ghost predicate MayorIsResident()
      reads this
    {
      mayor.Some? ==> mayor.value in residents
    }

    constructor (name: string, cfg: Settings)
      ensures Valid()
      ensures this.name == name && residents == [] && outlaws == [] && mayor.None?
      ensures townBlocks == map[] && homeBlock.None? && spawn.None? && world == null
      ensures outpostSpawns == [] && jailSpawns == [] && plotGroups.None? && nation.None?
      ensures plotTax == cfg.townDefaultPlotTax && commercialPlotTax == cfg.townDefaultShopTax
      ensures embassyPlotTax == cfg.townDefaultEmbassyTax
      ensures maxPercentTaxAmount == cfg.maxTownTaxPercentAmount
      ensures isTaxPercentage == cfg.townDefaultTaxPercentage
    {
      this.name := name;
      residents, outlaws := [], [];
      outpostSpawns, jailSpawns := [], [];
      plotGroups := None;
      mayor := None;
      bonusBlocks, purchasedBlocks := 0, 0;
      taxes := 0.0;
      plotTax := cfg.townDefaultPlotTax;
      commercialPlotTax := cfg.townDefaultShopTax;
      embassyPlotTax := cfg.townDefaultEmbassyTax;
      plotPrice, commercialPlotPrice, embassyPlotPrice := 0.0, 0.0, 0.0;
      maxPercentTaxAmount := cfg.maxTownTaxPercentAmount;
      nation := None;
      isTaxPercentage := cfg.townDefaultTaxPercentage;
      homeBlock := None;
      world := null;
      spawn := None;
      pvp, adminDisabledPVP, adminEnabledPVP := false, false, false;
      townBlocks := map[];
      holdings := 0.0;
    }

    // -------------------------------------------------------------------
    // Claim map and home block.

    /** getTownBlock: the claim at a coordinate, if the town holds one. */
    function GetTownBlock(c: WorldCoord): (r: Option<TownBlock>)
      reads this
      requires Valid()
      ensures r.Some? <==> c in townBlocks
      ensures r.Some? ==> r.value.Coordinate() == c && r.value in townBlocks.Values
    {
      if c in townBlocks then Some(townBlocks[c]) else None
    }

    /** setWorld as written: on a change it calls removeTown on the NEW world
        (the parameter shadows the field), so the old world keeps listing the
        town; the new world lists it afterwards. */
    method SetWorld(w: TownyWorld?)
      modifies this`world, w
      ensures world == w
      ensures w != null && old(world) != w ==> w.towns == old(w.towns) + {this}
      ensures w != null && old(world) == w ==> unchanged(w)
      ensures old(world) != null && old(world) != w ==> unchanged(old(world))
    {
      if w == null {
        world := null;
        return;
      }
      if world == w {
        return;
      }
      if world != null {
        var _ := w.RemoveTown(this);
      }
      world := w;
      var _ := w.AddTown(this);
    }

    /** setSpawn: fails without change when no home block is set or when the
        location's cell is not the home block's (x and z only). */
    method SetSpawn(loc: Location) returns (o: Outcome)
      requires Valid()
      modifies this`spawn
      ensures Valid()
      ensures homeBlock.None? ==> o == Fail(TownyError("msg_err_homeblock_has_not_been_set"))
      ensures homeBlock.Some? ==> (o.Pass? <==> AtCoord(loc, homeBlock.value.Cell()))
      ensures homeBlock.Some? && o.Fail? ==> o == Fail(TownyError("msg_err_spawn_not_within_homeblock"))
      ensures spawn == if o.Pass? then Some(loc) else old(spawn)
    {
      if homeBlock.None? {
        return Fail(TownyError("msg_err_homeblock_has_not_been_set"));
      }
      var cell := ParseCoord(loc);
      if homeBlock.value.x == cell.x && homeBlock.value.z == cell.z {
        spawn := Some(loc);
        o := Pass;
      } else {
        o := Fail(TownyError("msg_err_spawn_not_within_homeblock"));
      }
    }

    /** getSpawn: the spawn when a home block and a spawn are set; otherwise
        the spawn is cleared and the call fails. */
    method GetSpawn() returns (r: Result<Location>)
      requires Valid()
      modifies this`spawn
      ensures Valid()
      ensures homeBlock.Some? && old(spawn).Some? ==> r == Ok(old(spawn).value) && spawn == old(spawn)
      ensures !(homeBlock.Some? && old(spawn).Some?) ==>
        r == Err(TownyError("msg_err_town_has_not_set_a_spawn_location")) && spawn.None?
    {
      if homeBlock.Some? && spawn.Some? {
        r := Ok(spawn.value);
      } else {
        spawn := None;
        r := Err(TownyError("msg_err_town_has_not_set_a_spawn_location"));
      }
    }

    /** setHomeBlock: null clears the home block and answers false; a block
        the town does not claim is refused; otherwise it becomes the home
        block, the town moves to its world, and a spawn outside it is cleared. */
    method SetHomeBlock(tb: Option<TownBlock>) returns (r: Result<bool>)
      requires Valid()
      modifies this`homeBlock, this`world, this`spawn, world, if tb.Some? then {tb.value.world} else {}
      ensures Valid()
      ensures tb.None? ==> r == Ok(false) && homeBlock.None? && world == old(world) && spawn == old(spawn)
      ensures tb.None? && old(world) != null ==> unchanged(old(world))
      ensures tb.Some? && tb.value.Coordinate() !in townBlocks ==>
        r == Err(TownyError("msg_err_town_has_no_claim_over_this_town_block"))
        && homeBlock == old(homeBlock) && world == old(world) && spawn == old(spawn)
        && unchanged(tb.value.world) && (old(world) != null ==> unchanged(old(world)))
      ensures tb.Some? && tb.value.Coordinate() in townBlocks ==>
        r == Ok(true) && homeBlock == tb && world == tb.value.world
        && spawn == (if old(spawn).Some? && AtCoord(old(spawn).value, tb.value.Cell()) then old(spawn) else None)
      ensures tb.Some? && tb.value.Coordinate() in townBlocks && old(world) != tb.value.world ==>
        tb.value.world.towns == old(tb.value.world.towns) + {this}
        && (old(world) != null ==> old(world).towns == old(world.towns) - {this})
      ensures tb.Some? && old(world) == tb.value.world ==> unchanged(tb.value.world)
    {
      if tb.None? {
        homeBlock := None;
        return Ok(false);
      }
      var b := tb.value;
      if b.Coordinate() !in townBlocks {
        return Err(TownyError("msg_err_town_has_no_claim_over_this_town_block"));
      }
      homeBlock := tb;
      if world != b.world {
        if world != null && this in world.towns {
          var _ := world.RemoveTown(this);
        }
        SetWorld(b.world);
      }
      // setSpawn(spawn) again: a spawn outside the new home block is dropped.
      if spawn.Some? && !AtCoord(spawn.value, b.Cell()) {
        spawn := None;
      }
      r := Ok(true);
    }

    /** addTownBlock: a coordinate already claimed is refused with nothing
        changed; otherwise the claim is stored, and when it is the only claim
        and no home block is set it becomes the home block. */
    method AddTownBlock(tb: TownBlock) returns (o: Outcome)
      requires Valid()
      modifies this`townBlocks, this`homeBlock, this`world, this`spawn, world, tb.world
      ensures Valid()
      ensures tb.Coordinate() in old(townBlocks) ==>
        o == Fail(AlreadyRegistered("")) && townBlocks == old(townBlocks)
        && homeBlock == old(homeBlock) && world == old(world) && spawn == old(spawn)
        && unchanged(tb.world) && (old(world) != null ==> unchanged(old(world)))
      ensures tb.Coordinate() !in old(townBlocks) ==>
        o == Pass && townBlocks == old(townBlocks)[tb.Coordinate() := tb]
      ensures tb.Coordinate() !in old(townBlocks) && old(townBlocks) == map[] && old(homeBlock).None? ==>
        homeBlock == Some(tb) && world == tb.world
        && spawn == (if old(spawn).Some? && AtCoord(old(spawn).value, tb.Cell()) then old(spawn) else None)
      ensures tb.Coordinate() !in old(townBlocks) && old(townBlocks) == map[] && old(homeBlock).None?
              && old(world) != tb.world ==>
        tb.world.towns == old(tb.world.towns) + {this}
        && (old(world) != null ==> old(world).towns == old(world.towns) - {this})
      ensures old(world) == tb.world ==> unchanged(tb.world)
      ensures tb.Coordinate() !in old(townBlocks) && !(old(townBlocks) == map[] && old(homeBlock).None?) ==>
        homeBlock == old(homeBlock) && world == old(world) && spawn == old(spawn)
        && unchanged(tb.world) && (old(world) != null ==> unchanged(old(world)))
    {
      var c := tb.Coordinate();
      if c in townBlocks {
        return Fail(AlreadyRegistered(""));
      }
      ghost var before := townBlocks;
      townBlocks := townBlocks[c := tb];
      assert before == map[] ==> townBlocks.Keys == {c};
      assert before != map[] ==> exists k :: k in before && k != c;
      assert before != map[] ==> |townBlocks.Keys| >= 2 by {
        if before != map[] {
          var k :| k in before && k != c;
          assert {k, c} <= townBlocks.Keys;
          assert |{k, c}| == 2;
          SubsetCard({k, c}, townBlocks.Keys);
        }
      }
      if |townBlocks| < 2 && homeBlock.None? {
        var _ := SetHomeBlock(Some(tb));
      }
      o := Pass;
    }

    /** removeOutpostSpawn: every outpost spawn in the cell is removed, the
        others keep their order. */
    method RemoveOutpostSpawn(c: Coord)
      modifies this`outpostSpawns
      ensures outpostSpawns == WithoutCell(old(outpostSpawns), c)
    {
      var copy := outpostSpawns;
      var i := 0;
      while i < |copy|
        invariant 0 <= i <= |copy|
        invariant outpostSpawns == WithoutCell(copy[..i], c) + copy[i..]
      {
        WithoutCellStep(copy, i, c);
        if AtCoord(copy[i], c) {
          outpostSpawns := Discard(outpostSpawns, copy[i]);
        }
        i := i + 1;
      }
      assert copy[..|copy|] == copy;
    }

    /** removeJailSpawn: every jail spawn in the cell is removed, the others
        keep their order. */
    method RemoveJailSpawn(c: Coord)
      modifies this`jailSpawns
      ensures jailSpawns == WithoutCell(old(jailSpawns), c)
    {
      var copy := jailSpawns;
      var i := 0;
      while i < |copy|
        invariant 0 <= i <= |copy|
        invariant jailSpawns == WithoutCell(copy[..i], c) + copy[i..]
      {
        WithoutCellStep(copy, i, c);
        if AtCoord(copy[i], c) {
          jailSpawns := Discard(jailSpawns, copy[i]);
        }
        i := i + 1;
      }
      assert copy[..|copy|] == copy;
    }

    /** removeTownBlock: nothing happens for an unclaimed coordinate;
        otherwise the outpost spawns (for an outpost) and the jail spawns (for
        a jail) in its cell are removed, the home block is cleared if it was
        this claim, and the claim leaves the map. The home spawn is kept. */
    method RemoveTownBlock(tb: TownBlock)
      requires Valid()
      modifies this`townBlocks, this`homeBlock, this`outpostSpawns, this`jailSpawns
      ensures Valid()
      ensures tb.Coordinate() !in old(townBlocks) ==> unchanged(this)
      ensures tb.Coordinate() in old(townBlocks) ==>
        && townBlocks == old(townBlocks) - {tb.Coordinate()}
        && outpostSpawns == (if tb.outpost then WithoutCell(old(outpostSpawns), tb.Cell()) else old(outpostSpawns))
        && jailSpawns == (if tb.IsJail() then WithoutCell(old(jailSpawns), tb.Cell()) else old(jailSpawns))
        && homeBlock == (if old(homeBlock).Some? && old(homeBlock).value.Coordinate() == tb.Coordinate()
                         then None else old(homeBlock))
    {
      var c := tb.Coordinate();
      if c !in townBlocks {
        return;
      }
      if tb.outpost {
        RemoveOutpostSpawn(tb.Cell());
      }
      if tb.IsJail() {
        RemoveJailSpawn(tb.Cell());
      }
      // The claim map holds one claim per coordinate, so "this is the home
      // block" is a comparison of coordinates; setHomeBlock(null) clears it.
      if homeBlock.Some? && homeBlock.value.Coordinate() == c {
        homeBlock := None;
      }
      townBlocks := townBlocks - {c};
    }

    // -------------------------------------------------------------------
    // Outpost and jail spawns.

    /** addOutpostSpawn: first every outpost spawn in the location's cell is
        removed, then the claim at the location (looked up by the caller) is
        checked; the new spawn is appended only when it is an outpost claim.
        A failed call has still removed the old spawns. */
    method AddOutpostSpawn(loc: Location, claim: Option<TownBlock>) returns (o: Outcome)
      modifies this`outpostSpawns
      ensures claim.None? ==> o == Fail(TownyError("msg_err_location_is_not_within_a_town"))
      ensures claim.Some? && !claim.value.outpost ==>
        o == Fail(TownyError("msg_err_location_is_not_within_an_outpost_plot"))
      ensures o.Pass? <==> claim.Some? && claim.value.outpost
      ensures outpostSpawns == WithoutCell(old(outpostSpawns), ParseCoord(loc)) + (if o.Pass? then [loc] else [])
      ensures o.Pass? ==> forall l :: l in outpostSpawns && AtCoord(l, ParseCoord(loc)) ==> l == loc
    {
      RemoveOutpostSpawn(ParseCoord(loc));
      if claim.None? {
        return Fail(TownyError("msg_err_location_is_not_within_a_town"));
      }
      if !claim.value.outpost {
        return Fail(TownyError("msg_err_location_is_not_within_an_outpost_plot"));
      }
      outpostSpawns := outpostSpawns + [loc];
      o := Pass;
    }

    /** getOutpostSpawn: the index is clamped to 1 .. count (1-based). With no
        outpost spawn the call fails: with a TownyException when outposts are
        limited by levels, otherwise by indexing at -1. index - 1 is Java int
        arithmetic: at MinInt32 it wraps to MaxInt32, which clamps to the last
        spawn. */
    function GetOutpostSpawn(cfg: Settings, index: int): (r: Result<Location>)
      requires IsInt32(index)
      reads this
      ensures |outpostSpawns| == 0 && cfg.outpostsLimitedByLevels ==>
        r == Err(TownyError("msg_err_town_has_no_outpost_spawns_set"))
      ensures |outpostSpawns| == 0 && !cfg.outpostsLimitedByLevels ==> r == Err(IndexOutOfBounds)
      ensures r.Ok? <==> |outpostSpawns| > 0
      ensures r.Ok? ==> r.value in outpostSpawns
      ensures 1 <= index <= |outpostSpawns| ==> r == Ok(outpostSpawns[index - 1])
      ensures |outpostSpawns| > 0 && index > |outpostSpawns| ==> r == Ok(outpostSpawns[|outpostSpawns| - 1])
      ensures |outpostSpawns| > 0 && MinInt32 < index < 1 ==> r == Ok(outpostSpawns[0])
      ensures 0 < |outpostSpawns| <= MaxInt32 && index == MinInt32 ==> r == Ok(outpostSpawns[|outpostSpawns| - 1])
    {
      var count := |outpostSpawns|;
      if count == 0 && cfg.outpostsLimitedByLevels then Err(TownyError("msg_err_town_has_no_outpost_spawns_set"))
      else
        var lower := if Wrap32(index - 1) < 0 then 0 else Wrap32(index - 1);
        var i := if count - 1 < lower then count - 1 else lower;
        if i < 0 then Err(IndexOutOfBounds) else Ok(outpostSpawns[i])
    }

    /** addJailSpawn: a location in the wilderness is refused with nothing
        changed; otherwise every jail spawn in the cell is removed, and the
        new spawn is appended only when the claim there is a jail plot. */
    method AddJailSpawn(loc: Location, wilderness: bool, claim: Option<TownBlock>) returns (o: Outcome)
      modifies this`jailSpawns
      ensures wilderness ==> o == Fail(TownyError("msg_err_location_is_not_within_a_town")) && jailSpawns == old(jailSpawns)
      ensures !wilderness && claim.None? ==> o == Fail(TownyError("msg_err_location_is_not_within_a_town"))
      ensures !wilderness && claim.Some? && !claim.value.IsJail() ==>
        o == Fail(TownyError("msg_err_location_is_not_within_a_jail_plot"))
      ensures o.Pass? <==> !wilderness && claim.Some? && claim.value.IsJail()
      ensures !wilderness ==>
        jailSpawns == WithoutCell(old(jailSpawns), ParseCoord(loc)) + (if o.Pass? then [loc] else [])
      ensures o.Pass? ==> forall l :: l in jailSpawns && AtCoord(l, ParseCoord(loc)) ==> l == loc
    {
      if wilderness {
        return Fail(TownyError("msg_err_location_is_not_within_a_town"));
      }
      RemoveJailSpawn(ParseCoord(loc));
      if claim.None? {
        return Fail(TownyError("msg_err_location_is_not_within_a_town"));
      }
      if !claim.value.IsJail() {
        return Fail(TownyError("msg_err_location_is_not_within_a_jail_plot"));
      }
      jailSpawns := jailSpawns + [loc];
      o := Pass;
    }

    /** getJailSpawn: the index is clamped to 1 .. count (1-based); no jail
        spawn is an error. As for outposts, index - 1 wraps at MinInt32 and
        selects the last spawn. */
    function GetJailSpawn(index: int): (r: Result<Location>)
      requires IsInt32(index)
      reads this
      ensures |jailSpawns| == 0 <==> r == Err(TownyError("msg_err_town_has_no_jail_spawns_set"))
      ensures r.Ok? ==> r.value in jailSpawns
      ensures 1 <= index <= |jailSpawns| ==> r == Ok(jailSpawns[index - 1])
      ensures |jailSpawns| > 0 && index > |jailSpawns| ==> r == Ok(jailSpawns[|jailSpawns| - 1])
      ensures |jailSpawns| > 0 && MinInt32 < index < 1 ==> r == Ok(jailSpawns[0])
      ensures 0 < |jailSpawns| <= MaxInt32 && index == MinInt32 ==> r == Ok(jailSpawns[|jailSpawns| - 1])
    {
      var count := |jailSpawns|;
      if count == 0 then Err(TownyError("msg_err_town_has_no_jail_spawns_set"))
      else
        var lower := if Wrap32(index - 1) < 0 then 0 else Wrap32(index - 1);
        Ok(jailSpawns[if count - 1 < lower then count - 1 else lower])
    }

    // -------------------------------------------------------------------
    // Residents, mayor and mayoral succession.

    /** addResidentCheck: refused when the resident is already on the roster,
        or belongs to another town (residentTown is the resident's town, null
        when it has none). */
    function AddResidentCheck(r: Resident, residentTown: Town?): (o: Outcome)
      reads this
      ensures o.Pass? <==> r !in residents && (residentTown == null || residentTown == this)
      ensures o.Fail? ==> o.error == AlreadyRegistered("msg_err_already_in_town")
    {
      if r in residents then Fail(AlreadyRegistered("msg_err_already_in_town"))
      else if residentTown != null && residentTown != this then Fail(AlreadyRegistered("msg_err_already_in_town"))
      else Pass
    }

    /** addResident: the check, then the resident is appended to the roster. */
    method AddResident(r: Resident, residentTown: Town?) returns (o: Outcome)
      requires Valid()
      modifies this`residents
      ensures Valid()
      ensures o == old(AddResidentCheck(r, residentTown))
      ensures residents == if o.Pass? then old(residents) + [r] else old(residents)
      ensures old(MayorIsResident()) ==> MayorIsResident()
    {
      o := AddResidentCheck(r, residentTown);
      if o.Pass? {
        NoDupAppend(residents, r);
        residents := residents + [r];
      }
    }

    /** setMayor: only a resident can become mayor. */
    method SetMayor(m: Resident) returns (o: Outcome)
      requires Valid()
      modifies this`mayor
      ensures Valid()
      ensures o.Pass? <==> m in residents
      ensures o.Fail? ==> o.error == TownyError("msg_err_mayor_doesnt_belong_to_town")
      ensures mayor == if o.Pass? then Some(m) else old(mayor)
      ensures o.Pass? ==> MayorIsResident()
    {
      if m !in residents {
        return Fail(TownyError("msg_err_mayor_doesnt_belong_to_town"));
      }
      mayor := Some(m);
      o := Pass;
    }

    /** getResidentsWithRank: the residents holding the rank, in roster order. */
    method GetResidentsWithRank(rank: string) returns (ranked: seq<Resident>)
      ensures ranked == WithRank(residents, rank)
      ensures forall x :: x in ranked <==> x in residents && x.HasTownRank(rank)
    {
      ranked := [];
      var i := 0;
      while i < |residents|
        invariant 0 <= i <= |residents|
        invariant ranked == WithRank(residents[..i], rank)
      {
        assert residents[..i + 1][..i] == residents[..i];
        if residents[i].HasTownRank(rank) {
          ranked := ranked + [residents[i]];
        }
        i := i + 1;
      }
      assert residents[..|residents|] == residents;
    }

    /** getMayoralSuccession: the LinkedHashSet filled with the residents of
        each configured rank in turn, then with the whole roster, and the
        current mayor removed. The result holds every resident but the mayor,
        once each, ranked residents first by configured rank, roster order
        within a rank. */
    method GetMayoralSuccession(order: seq<string>) returns (succession: seq<Resident>)
      requires Valid()
      ensures succession == SuccessionOrder(residents, order, mayor)
      ensures NoDup(succession)
      ensures forall x :: x in succession <==> x in residents && mayor != Some(x)
      ensures Ordered(residents, order, succession)
    {
      var acc: seq<Resident> := [];
      var k := 0;
      while k < |order|
        invariant 0 <= k <= |order|
        invariant acc == RankFold(residents, order[..k])
      {
        assert order[..k + 1][..k] == order[..k];
        var ranked := GetResidentsWithRank(order[k]);
        acc := AddEach(acc, ranked);
        k := k + 1;
      }
      assert order[..|order|] == order;
      acc := AddEach(acc, residents);
      if mayor.Some? {
        acc := Discard(acc, mayor.value);
      }
      succession := acc;
      SuccessionOrderSpec(residents, order, mayor);
    }

    /** mayoralSuccession: the candidates are tried in order until the mayor
        changes. Every candidate is a resident, so the first one is installed;
        with no candidate the outgoing mayor stays. */
    method MayoralSuccession(order: seq<string>)
      requires Valid()
      modifies this`mayor
      ensures Valid()
      ensures SuccessionOrder(residents, order, old(mayor)) == [] ==> mayor == old(mayor)
      ensures SuccessionOrder(residents, order, old(mayor)) != [] ==>
        mayor == Some(SuccessionOrder(residents, order, old(mayor))[0])
      ensures mayor != old(mayor) ==> MayorIsResident()
    {
      var candidates := GetMayoralSuccession(order);
      var outgoing := mayor;
      var i := 0;
      var done := false;
      while i < |candidates| && !done
        invariant 0 <= i <= |candidates|
        invariant Valid()
        invariant !done ==> i == 0 && mayor == outgoing
        invariant done ==> candidates != [] && mayor == Some(candidates[0]) && MayorIsResident()
      {
        var _ := SetMayor(candidates[i]);
        if mayor != outgoing {
          done := true;
        }
        i := i + 1;
      }
    }

    /** remove: removing the mayor first runs mayoral succession; then the
        resident leaves the roster. */
    method Remove(r: Resident, order: seq<string>)
      requires Valid() && r in residents
      modifies this`residents, this`mayor
      ensures Valid()
      ensures residents == Discard(old(residents), r) && r !in residents
      ensures old(mayor) == Some(r) ==>
        mayor == (if SuccessionOrder(old(residents), order, old(mayor)) == [] then old(mayor)
                  else Some(SuccessionOrder(old(residents), order, old(mayor))[0]))
      ensures old(mayor) != Some(r) ==> mayor == old(mayor)
      ensures residents != [] && old(MayorIsResident()) ==> MayorIsResident()
    {
      ghost var before, outgoing := residents, mayor;
      if mayor == Some(r) {
        MayoralSuccession(order);
      }
      DiscardNoDup(residents, r);
      residents := Discard(residents, r);
      if residents != [] && old(MayorIsResident()) {
        SuccessorStays(before, order, r, outgoing, mayor);
      }
    }

    /** removeResident: a non-resident is NotRegistered; otherwise the
        resident is removed, and a town left without residents reports
        EmptyTown. */
    method RemoveResident(r: Resident, order: seq<string>) returns (o: Outcome)
      requires Valid()
      modifies this`residents, this`mayor
      ensures Valid()
      ensures r !in old(residents) ==>
        o == Fail(NotRegistered("")) && residents == old(residents) && mayor == old(mayor)
      ensures r in old(residents) ==> residents == Discard(old(residents), r) && r !in residents
      ensures r in old(residents) ==> (o == Fail(EmptyTown) <==> residents == []) && (o.Pass? <==> residents != [])
      ensures r in old(residents) && old(mayor) == Some(r) ==>
        mayor == (if SuccessionOrder(old(residents), order, old(mayor)) == [] then old(mayor)
                  else Some(SuccessionOrder(old(residents), order, old(mayor))[0]))
      ensures old(mayor) != Some(r) ==> mayor == old(mayor)
      ensures o.Pass? && old(MayorIsResident()) ==> MayorIsResident()
    {
      if r !in residents {
        return Fail(NotRegistered(""));
      }
      Remove(r, order);
      if |residents| == 0 {
        return Fail(EmptyTown);
      }
      o := Pass;
    }

    // -------------------------------------------------------------------
    // Outlaws.

    /** addOutlawCheck: refused when already an outlaw, or when the resident
        belongs to this town (residentTown is the resident's town). */
    function AddOutlawCheck(r: Resident, residentTown: Town?): (o: Outcome)
      reads this
      ensures o.Pass? <==> r !in outlaws && residentTown != this
      ensures r in outlaws ==> o == Fail(AlreadyRegistered("msg_err_resident_already_an_outlaw"))
      ensures r !in outlaws && residentTown == this ==> o == Fail(AlreadyRegistered("msg_err_not_outlaw_in_your_town"))
    {
      if r in outlaws then Fail(AlreadyRegistered("msg_err_resident_already_an_outlaw"))
      else if residentTown != null && residentTown == this then Fail(AlreadyRegistered("msg_err_not_outlaw_in_your_town"))
      else Pass
    }

    method AddOutlaw(r: Resident, residentTown: Town?) returns (o: Outcome)
      requires Valid()
      modifies this`outlaws
      ensures Valid()
      ensures o == old(AddOutlawCheck(r, residentTown))
      ensures outlaws == if o.Pass? then old(outlaws) + [r] else old(outlaws)
    {
      o := AddOutlawCheck(r, residentTown);
      if o.Pass? {
        NoDupAppend(outlaws, r);
        outlaws := outlaws + [r];
      }
    }

    /** removeOutlaw: the resident is no longer an outlaw, the others stay. */
    method RemoveOutlaw(r: Resident)
      requires Valid()
      modifies this`outlaws
      ensures Valid()
      ensures outlaws == Discard(old(outlaws), r)
      ensures forall x :: x in outlaws <==> x in old(outlaws) && x != r
    {
      DiscardNoDup(outlaws, r);
      forall x ensures x in Discard(outlaws, r) <==> x in outlaws && x != r {
        DiscardMembers(outlaws, r, x);
      }
      if r in outlaws {
        outlaws := Discard(outlaws, r);
      }
    }

    // -------------------------------------------------------------------
    // Nation, alliance and PVP.

    /** setNation: null leaves the nation; the same nation is a no-op; a town
        already in another nation is refused. */
    method SetNation(n: Option<Nation>) returns (o: Outcome)
      modifies this`nation
      ensures o.Fail? <==> n.Some? && old(nation).Some? && old(nation) != n
      ensures o.Fail? ==> o.error == AlreadyRegistered("") && nation == old(nation)
      ensures o.Pass? ==> nation == n
    {
      if n.None? {
        nation := None;
        return Pass;
      }
      if nation == n {
        return Pass;
      }
      if nation.Some? {
        return Fail(AlreadyRegistered(""));
      }
      nation := n;
      o := Pass;
    }

    /** isAlliedWith: both towns are in nations, and this town's nation lists
        the other's as an ally or is the same nation. */
    predicate IsAlliedWith(other: Town): (r: bool)
      reads this, other
      ensures r ==> nation.Some? && other.nation.Some?
      ensures nation.Some? && nation == other.nation ==> r
      ensures nation.Some? && other.nation.Some? && nation != other.nation ==>
        (r <==> other.nation.value.name in nation.value.allies)
    {
      nation.Some? && other.nation.Some?
      && (nation.value.HasAlly(other.nation.value) || nation.value == other.nation.value)
    }

    /** isPVP: an admin override wins, the enable override first. */
    predicate IsPVP(): (r: bool)
      reads this
      ensures adminEnabledPVP ==> r
      ensures !adminEnabledPVP && adminDisabledPVP ==> !r
      ensures !adminEnabledPVP && !adminDisabledPVP ==> (r <==> pvp)
    {
      if adminEnabledPVP then true
      else if adminDisabledPVP then false
      else pvp
    }

    // -------------------------------------------------------------------
    // Clamping setters.

    /** setTaxes: the requested tax, capped by the ceiling of the current mode. */
    method SetTaxes(cfg: Settings, t: real)
      modifies this`taxes
      ensures taxes == Clamp(t, TaxCeiling(cfg, isTaxPercentage))
    {
      taxes := Clamp(t, TaxCeiling(cfg, isTaxPercentage));
    }

    /** getTaxes: re-clamps the stored tax, then reports it with -1 standing
        for the configured default. */
    method GetTaxes(cfg: Settings) returns (t: real)
      modifies this`taxes
      ensures taxes == Clamp(old(taxes), TaxCeiling(cfg, isTaxPercentage))
      ensures t == ReportedTax(cfg, taxes)
    {
      SetTaxes(cfg, taxes);
      t := if taxes == -1.0 then cfg.townDefaultTax else taxes;
    }

    /** setTaxPercentage: switches the mode, and resets the tax through
        setTaxes(0) when the re-clamped tax reads over 100. */
    method SetTaxPercentage(cfg: Settings, isPercentage: bool)
      modifies this`isTaxPercentage, this`taxes
      ensures isTaxPercentage == isPercentage
      ensures taxes == TaxAfterModeSwitch(cfg, isPercentage, old(taxes))
      ensures TaxCeiling(cfg, isPercentage) >= 0.0 ==> taxes <= TaxCeiling(cfg, isPercentage)
    {
      isTaxPercentage := isPercentage;
      var t := GetTaxes(cfg);
      if t > 100.0 {
        SetTaxes(cfg, 0.0);
      }
      if TaxCeiling(cfg, isPercentage) >= 0.0 {
        ModeSwitchBounds(cfg, isPercentage, old(taxes));
      }
    }

    method SetPlotPrice(cfg: Settings, price: real)
      modifies this`plotPrice
      ensures plotPrice == Clamp(price, cfg.maxPlotPrice)
    {
      plotPrice := Clamp(price, cfg.maxPlotPrice);
    }

    method SetCommercialPlotPrice(cfg: Settings, price: real)
      modifies this`commercialPlotPrice
      ensures commercialPlotPrice == Clamp(price, cfg.maxPlotPrice)
    {
      commercialPlotPrice := Clamp(price, cfg.maxPlotPrice);
    }

    method SetEmbassyPlotPrice(cfg: Settings, price: real)
      modifies this`embassyPlotPrice
      ensures embassyPlotPrice == Clamp(price, cfg.maxPlotPrice)
    {
      embassyPlotPrice := Clamp(price, cfg.maxPlotPrice);
    }

    method SetPlotTax(cfg: Settings, tax: real)
      modifies this`plotTax
      ensures plotTax == Clamp(tax, cfg.maxPlotTax)
    {
      plotTax := Clamp(tax, cfg.maxPlotTax);
    }

    method SetCommercialPlotTax(cfg: Settings, tax: real)
      modifies this`commercialPlotTax
      ensures commercialPlotTax == Clamp(tax, cfg.maxPlotTax)
    {
      commercialPlotTax := Clamp(tax, cfg.maxPlotTax);
    }

    method SetEmbassyPlotTax(cfg: Settings, tax: real)
      modifies this`embassyPlotTax
      ensures embassyPlotTax == Clamp(tax, cfg.maxPlotTax)
    {
      embassyPlotTax := Clamp(tax, cfg.maxPlotTax);
    }

    method SetMaxPercentTaxAmount(cfg: Settings, amount: real)
      modifies this`maxPercentTaxAmount
      ensures maxPercentTaxAmount == Clamp(amount, cfg.maxTownTaxPercentAmount)
    {
      maxPercentTaxAmount := Clamp(amount, cfg.maxTownTaxPercentAmount);
    }

    /** getPlotTypePrice: the commercial price for commercial plots, the
        embassy price for embassies, the plot price otherwise, never below 0. */
    function GetPlotTypePrice(kind: TownBlockType): (r: real)
      reads this
      ensures r >= 0.0
      ensures kind == Commercial ==> r == (if commercialPlotPrice < 0.0 then 0.0 else commercialPlotPrice)
      ensures kind == Embassy ==> r == (if embassyPlotPrice < 0.0 then 0.0 else embassyPlotPrice)
      ensures kind != Commercial && kind != Embassy ==> r == (if plotPrice < 0.0 then 0.0 else plotPrice)
    {
      var p := match kind
        case Commercial => commercialPlotPrice
        case Embassy => embassyPlotPrice
        case _ => plotPrice;
      if p < 0.0 then 0.0 else p
    }

    // -------------------------------------------------------------------
    // Claim costs and the bank.

    /** getTownBlockCostN, the loop as written. */
    method GetTownBlockCostN(cfg: Settings, inputN: int) returns (r: Result<real>)
      ensures r == ClaimCost.TownBlockCostN(cfg.claimPrice, cfg.claimPriceIncrease, |townBlocks|, inputN)
    {
      if inputN < 0 {
        return Err(TownyError("msg_err_negative"));
      }
      if inputN == 0 {
        return Ok(0.0);
      }
      var count := |townBlocks|;
      var nextPrice := ClaimCost.Term(cfg.claimPrice, cfg.claimPriceIncrease, count);
      var i := 1;
      var cost := nextPrice;
      while i < inputN
        invariant 1 <= i <= inputN
        invariant cost == ClaimCost.Term(cfg.claimPrice, cfg.claimPriceIncrease, count)
                        + ClaimCost.RoundedTail(cfg.claimPrice, cfg.claimPriceIncrease, count, i) as real
      {
        nextPrice := ClaimCost.Round(ClaimCost.Term(cfg.claimPrice, cfg.claimPriceIncrease, count + i)) as real;
        assert ClaimCost.RoundedTail(cfg.claimPrice, cfg.claimPriceIncrease, count, i + 1)
            == ClaimCost.RoundedTail(cfg.claimPrice, cfg.claimPriceIncrease, count, i) + nextPrice.Floor;
        cost := cost + nextPrice;
        i := i + 1;
      }
      r := Ok(ClaimCost.Round(cost) as real);
    }

    /** getBonusBlockCostN, the loop as written. */
    method GetBonusBlockCostN(cfg: Settings, inputN: int) returns (r: Result<real>)
      ensures r == ClaimCost.BonusBlockCostN(cfg.purchasedBonusBlocksCost, cfg.purchasedBonusBlocksIncrease,
                                             purchasedBlocks, cfg.maxPurchasedBlocks, inputN)
    {
      if inputN < 0 {
        return Err(TownyError("msg_err_negative"));
      }
      var current := purchasedBlocks;
      var n;
      if Wrap32(current + inputN) > cfg.maxPurchasedBlocks {
        n := Wrap32(cfg.maxPurchasedBlocks - current);
      } else {
        n := inputN;
      }
      if n == 0 {
        return Ok(0.0);
      }
      var price, increase := cfg.purchasedBonusBlocksCost, cfg.purchasedBonusBlocksIncrease;
      var nextPrice := ClaimCost.Term(price, increase, current);
      var i := 1;
      var cost := nextPrice;
      while i < n
        invariant 1 <= i && (i <= n || i == 1)
        invariant cost == ClaimCost.Term(price, increase, current)
                        + ClaimCost.RoundedTail(price, increase, current, i) as real
      {
        nextPrice := ClaimCost.Round(ClaimCost.Term(price, increase, current + i)) as real;
        assert ClaimCost.RoundedTail(price, increase, current, i + 1)
            == ClaimCost.RoundedTail(price, increase, current, i) + nextPrice.Floor;
        cost := cost + nextPrice;
        i := i + 1;
      }
      assert ClaimCost.RoundedTail(price, increase, current, i) == ClaimCost.RoundedTail(price, increase, current, n);
      r := Ok(ClaimCost.Round(cost) as real);
    }

    /** collect: deposits the amount unless the economy is off or the deposit
        would take the balance past a positive bank cap. */
    method Collect(cfg: Settings, amount: real) returns (effect: CollectOutcome)
      modifies this`holdings
      ensures effect == CollectEffect(cfg, amount, old(holdings))
      ensures holdings == if effect.Deposited? then effect.newBalance else old(holdings)
    {
      if cfg.usingEconomy {
        var bankCap := cfg.townBankCap;
        if bankCap > 0.0 {
          if amount + holdings > bankCap {
            return Capped(bankCap);
          }
        }
        holdings := holdings + amount;
        return Deposited(holdings);
      }
      effect := NoEconomy;
    }

    // -------------------------------------------------------------------
    // Plot groups, keyed by name.

    /** addPlotGroup: creates the map on first use, then stores the group
        under its name, replacing any group of that name. */
    method AddPlotGroup(g: PlotGroup)
      modifies this`plotGroups
      ensures plotGroups == Some((if old(plotGroups).Some? then old(plotGroups).value else map[])[g.name := g])
      ensures HasPlotGroupName(g.name) && GetPlotObjectGroupFromName(g.name) == Some(g)
    {
      var groups := if plotGroups.Some? then plotGroups.value else map[];
      plotGroups := Some(groups[g.name := g]);
    }

    /** removePlotGroup: drops the entry under the group's name, if any. */
    method RemovePlotGroup(g: PlotGroup)
      modifies this`plotGroups
      ensures old(plotGroups).None? ==> plotGroups.None?
      ensures old(plotGroups).Some? ==> plotGroups == Some(old(plotGroups).value - {g.name})
      ensures !HasPlotGroupName(g.name)
    {
      if plotGroups.Some? {
        plotGroups := Some(plotGroups.value - {g.name});
      }
    }

    /** renamePlotGroup: the old name is dropped and the group stored under its
        (new) name; before any group exists the map is null. */
    method RenamePlotGroup(oldName: string, g: PlotGroup) returns (o: Outcome)
      modifies this`plotGroups
      ensures old(plotGroups).None? ==> o == Fail(NullPointer) && plotGroups.None?
      ensures old(plotGroups).Some? ==> o.Pass? && plotGroups == Some((old(plotGroups).value - {oldName})[g.name := g])
      ensures o.Pass? ==> GetPlotObjectGroupFromName(g.name) == Some(g)
                          && (oldName != g.name ==> !HasPlotGroupName(oldName))
    {
      if plotGroups.None? {
        return Fail(NullPointer);
      }
      plotGroups := Some((plotGroups.value - {oldName})[g.name := g]);
      o := Pass;
    }

    predicate HasPlotGroupName(name: string): (r: bool)
      reads this
      ensures r <==> GetPlotObjectGroupFromName(name).Some?
    {
      plotGroups.Some? && name in plotGroups.value
    }

    /** getPlotObjectGroupFromName: the group under the name, if any. */
    function GetPlotObjectGroupFromName(name: string): (r: Option<PlotGroup>)
      reads this
      ensures r.Some? <==> plotGroups.Some? && name in plotGroups.value
      ensures r.Some? ==> r.value == plotGroups.value[name]
    {
      if plotGroups.Some? && name in plotGroups.value then Some(plotGroups.value[name]) else None
    }

    /** getObjectGroupFromID: some group with the id, found by a search over
        the map's values (in no specified order), or null. */
    method GetObjectGroupFromId(id: nat) returns (r: Option<PlotGroup>)
      ensures r.Some? ==> plotGroups.Some? && r.value in plotGroups.value.Values && r.value.id == id
      ensures r.None? ==> plotGroups.None? || forall g :: g in plotGroups.value.Values ==> g.id != id
    {
      if plotGroups.None? {
        return None;
      }
      var remaining := plotGroups.value.Values;
      while remaining != {}
        invariant remaining <= plotGroups.value.Values
        invariant forall g :: g in plotGroups.value.Values && g !in remaining ==> g.id != id
        decreases |remaining|
      {
        var g :| g in remaining;
        if g.id == id {
          return Some(g);
        }
        remaining := remaining - {g};
      }
      r := None;
    }
  }

  /** When someone other than the leaving resident r remains, the mayor after
      removeResident is still a resident: a leaving mayor had a successor. */
  lemma SuccessorStays(roster: seq<Resident>, order: seq<string>, r: Resident,
                       outgoing: Option<Resident>, incoming: Option<Resident>)
    requires NoDup(roster) && r in roster && Discard(roster, r) != []
    requires outgoing.Some? ==> outgoing.value in roster
    requires outgoing == Some(r) ==> incoming == (if SuccessionOrder(roster, order, outgoing) == [] then outgoing
                                                  else Some(SuccessionOrder(roster, order, outgoing)[0]))
    requires outgoing != Some(r) ==> incoming == outgoing
    ensures incoming.Some? ==> incoming.value in Discard(roster, r)
  {
    var x := Discard(roster, r)[0];
    DiscardMembers(roster, r, x);
    SuccessionOrderSpec(roster, order, outgoing);
    if outgoing == Some(r) {
      assert x in SuccessionOrder(roster, order, outgoing);
    }
    if incoming.Some? {
      DiscardMembers(roster, r, incoming.value);
    }
  }

  /** LinkedHashSet.add of each element in turn: an element already present
      is skipped. */
  method AddEach(acc: seq<Resident>, xs: seq<Resident>) returns (r: seq<Resident>)
    ensures r == AddAll(acc, xs)
  {
    r := acc;
    var j := 0;
    while j < |xs|
      invariant 0 <= j <= |xs|
      invariant r == AddAll(acc, xs[..j])
    {
      assert xs[..j + 1][..j] == xs[..j];
      if xs[j] !in r {
        r := r + [xs[j]];
      }
      j := j + 1;
    }
    assert xs[..|xs|] == xs;
  }

  lemma SubsetCard<T>(a: set<T>, b: set<T>)
    requires a <= b
    ensures |a| <= |b|
  {
    assert b == a + (b - a);
  }
}

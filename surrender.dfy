/** A defending town's surrender request (SurrenderTown.java): a resident
    lookup and five checks in a fixed order, the first failing one deciding the player's error message
    and cancelling the block placement; otherwise the siege is completed as a
    defender surrender won by the first active attacker. Towns are identified
    by name. */
module SurrenderTown {
  import opened TownyObjects

  datatype SiegeStatus = InProgress | AttackerWin | DefenderWin | DefenderSurrender | AttackerAbandon

  /** The siege state the surrender updates. */
  class Siege {
    const defendingTown: string
    var status: SiegeStatus
    var activeAttackers: seq<Nation>
    var attackerWinner: Option<Nation>

    constructor (defendingTown: string, attackers: seq<Nation>)
      ensures this.defendingTown == defendingTown && status == InProgress
      ensures activeAttackers == attackers && attackerWinner.None?
    {
      this.defendingTown := defendingTown;
      status := InProgress;
      activeAttackers := attackers;
      attackerWinner := None;
    }
  }

  /** The block placement that triggered the request. */
  class BlockPlaceEvent {
    var cancelled: bool

    constructor ()
      ensures !cancelled
    {
      cancelled := false;
    }
  }

  const NotATownMember := "msg_err_siege_war_action_not_a_town_member"
  const NotYourTown := "msg_err_siege_war_cannot_surrender_not_your_town"
  const CommandDisabled := "msg_err_command_disable"
  const SiegeFinished := "msg_err_siege_war_cannot_surrender_siege_finished"
  const MultipleAttackers := "msg_err_siege_war_cannot_surrender_multiple_attackers"
  const TownSurrender := "msg_siege_war_town_surrender"

  /** The data source's lookup of the player's resident: not registered (a
      NotRegisteredException carrying the data source's message, caught like
      the other checks), or the resident's town, None when it has none. */
  datatype Lookup = Unregistered(message: string) | Registered(town: Option<string>)

  /** The requester's town as the later checks see it. */
  function TownOf(requester: Lookup): Option<string>
  {
    if requester.Registered? then requester.town else None
  }

  /** The message a failed lookup carries. */
  function LookupMessage(requester: Lookup): string
  {
    if requester.Unregistered? then requester.message else ""
  }

  /** The checks of processTownSurrenderRequest in order: the message of the
      first failing one (the data source's message for a failed lookup, a
      language key otherwise), or None when all pass. */
  function FailedCheck(requester: Lookup, placedTown: string, hasPermission: bool,
                       status: SiegeStatus, attackerCount: nat): (key: Option<string>)
    ensures key.None? <==> requester == Registered(Some(placedTown)) && hasPermission
                           && status == InProgress && attackerCount <= 1
    ensures requester.Unregistered? ==> key == Some(requester.message)
    ensures requester == Registered(None) ==> key == Some(NotATownMember)
  {
    if requester.Unregistered? then Some(requester.message)
    else if requester.town.None? then Some(NotATownMember)
    else if requester.town.value != placedTown then Some(NotYourTown)
    else if !hasPermission then Some(CommandDisabled)
    else if status != InProgress then Some(SiegeFinished)
    else if attackerCount > 1 then Some(MultipleAttackers)
    else None
  }

  /** The same checks as a list of (passes, key) pairs, in the order the
      source runs them. */
  function Checklist(requester: Lookup, placedTown: string, hasPermission: bool,
                     status: SiegeStatus, attackerCount: nat): seq<(bool, string)>
  {
    [ (requester.Registered?, LookupMessage(requester)),
      (TownOf(requester).Some?, NotATownMember),
      (TownOf(requester) == Some(placedTown), NotYourTown),
      (hasPermission, CommandDisabled),
      (status == InProgress, SiegeFinished),
      (attackerCount <= 1, MultipleAttackers) ]
  }

  /** The key of the first check that does not pass. */
  function FirstFailure(checks: seq<(bool, string)>): (key: Option<string>)
    ensures key.None? <==> forall i :: 0 <= i < |checks| ==> checks[i].0
    ensures key.Some? ==> exists i :: 0 <= i < |checks| && !checks[i].0 && checks[i].1 == key.value
                                      && forall j :: 0 <= j < i ==> checks[j].0
  {
    if checks == [] then None
    else if !checks[0].0 then Some(checks[0].1)
    else
      var rest := FirstFailure(checks[1..]);
      if rest.Some? then
        ghost var i :| 0 <= i < |checks[1..]| && !checks[1..][i].0 && checks[1..][i].1 == rest.value
                       && forall j :: 0 <= j < i ==> checks[1..][j].0;
        assert !checks[i + 1].0 && checks[i + 1].1 == rest.value;
        assert forall j :: 0 <= j < i + 1 ==> checks[j].0 by {
          forall j | 0 <= j < i + 1 ensures checks[j].0 {
            if j > 0 {
              assert checks[j] == checks[1..][j - 1];
            }
          }
        }
        rest
      else
        assert forall i :: 1 <= i < |checks| ==> checks[i] == checks[1..][i - 1];
        rest
  }

  /** The chain of early exits is the first failure of the checklist. */
  lemma ChainIsFirstFailure(requester: Lookup, placedTown: string, hasPermission: bool,
                            status: SiegeStatus, attackerCount: nat)
    ensures FailedCheck(requester, placedTown, hasPermission, status, attackerCount)
         == FirstFailure(Checklist(requester, placedTown, hasPermission, status, attackerCount))
  {
    var c := Checklist(requester, placedTown, hasPermission, status, attackerCount);
    assert c[1..] == [c[1], c[2], c[3], c[4], c[5]];
    assert c[1..][1..] == [c[2], c[3], c[4], c[5]];
    assert c[1..][1..][1..] == [c[3], c[4], c[5]];
    assert c[1..][1..][1..][1..] == [c[4], c[5]];
    assert c[1..][1..][1..][1..][1..] == [c[5]];
    assert c[1..][1..][1..][1..][1..][1..] == [];
  }

  /** What the request leads to. */
  datatype Response =
    | Rejected(key: string)        // error message sent to the player, event cancelled
    | Surrendered(winner: Nation)  // siege completed, global announcement
    | Crashed                      // get(0) on no attackers: an uncaught IndexOutOfBoundsException

  function Decide(requester: Lookup, placedTown: string, hasPermission: bool,
                  status: SiegeStatus, attackers: seq<Nation>): (r: Response)
    ensures r.Rejected? <==> FailedCheck(requester, placedTown, hasPermission, status, |attackers|).Some?
    ensures r.Rejected? ==> r.key == FailedCheck(requester, placedTown, hasPermission, status, |attackers|).value
    ensures r.Surrendered? ==> |attackers| == 1 && r.winner == attackers[0]
    ensures r.Crashed? ==> attackers == []
  {
    var failed := FailedCheck(requester, placedTown, hasPermission, status, |attackers|);
    if failed.Some? then Rejected(failed.value)
    else if |attackers| == 0 then Crashed
    else Surrendered(attackers[0])
  }

  /** A surrender happens exactly when the requester is a registered resident
      of the besieged town, holds the permission, the siege is in progress
      and there is one active attacker. */
  lemma SurrenderIff(requester: Lookup, placedTown: string, hasPermission: bool,
                     status: SiegeStatus, attackers: seq<Nation>)
    ensures Decide(requester, placedTown, hasPermission, status, attackers).Surrendered?
        <==> requester == Registered(Some(placedTown)) && hasPermission && status == InProgress && |attackers| == 1
  {
  }

  /** Zero attackers passes every check (the count check only rejects more
      than one) and then fails on the first attacker lookup: no error message,
      no cancellation, no surrender. */
  lemma ZeroAttackersCrash(placedTown: string)
    ensures Decide(Registered(Some(placedTown)), placedTown, true, InProgress, []) == Crashed
  {
  }

  /** The result of the request as the outside world sees it. */
  datatype Output =
    | PlayerError(key: string)
    | GlobalMessage(key: string, town: string, nation: string)
    | Uncaught(error: Error)

  /** defenderSurrender: completes the siege with the first active attacker as
      winner and announces it; with no active attacker the lookup fails before
      anything changes. */
  method CompleteDefenderSurrender(siege: Siege) returns (out: Output)
    modifies siege
    ensures old(siege.activeAttackers) == [] ==> out == Uncaught(IndexOutOfBounds) && unchanged(siege)
    ensures old(siege.activeAttackers) != [] ==>
      && siege.status == DefenderSurrender
      && siege.attackerWinner == Some(old(siege.activeAttackers)[0])
      && siege.activeAttackers == old(siege.activeAttackers)
      && out == GlobalMessage(TownSurrender, siege.defendingTown, siege.activeAttackers[0].name)
  {
    if |siege.activeAttackers| == 0 {
      return Uncaught(IndexOutOfBounds);
    }
    var winner := siege.activeAttackers[0];
    siege.status := DefenderSurrender;
    siege.attackerWinner := Some(winner);
    out := GlobalMessage(TownSurrender, siege.defendingTown, winner.name);
  }

  /** processTownSurrenderRequest: runs the checks; a failure sends its key to
      the player and cancels the event with the siege untouched; success
      completes the siege. The siege is the one of the town where the block
      was placed. */
  method ProcessTownSurrenderRequest(requester: Lookup, hasPermission: bool,
                                     placedTown: string, siege: Siege, event: BlockPlaceEvent)
    returns (out: Output)
    requires siege.defendingTown == placedTown
    modifies siege, event
    ensures Decide(requester, placedTown, hasPermission, old(siege.status), old(siege.activeAttackers)).Rejected? ==>
      && out == PlayerError(Decide(requester, placedTown, hasPermission, old(siege.status), old(siege.activeAttackers)).key)
      && event.cancelled && unchanged(siege)
    ensures Decide(requester, placedTown, hasPermission, old(siege.status), old(siege.activeAttackers)).Surrendered? ==>
      && siege.status == DefenderSurrender
      && siege.attackerWinner == Some(old(siege.activeAttackers)[0])
      && siege.activeAttackers == old(siege.activeAttackers)
      && out == GlobalMessage(TownSurrender, placedTown, old(siege.activeAttackers)[0].name)
      && unchanged(event)
    ensures Decide(requester, placedTown, hasPermission, old(siege.status), old(siege.activeAttackers)).Crashed? ==>
      out == Uncaught(IndexOutOfBounds) && unchanged(siege) && unchanged(event)
  {
    var failed := FailedCheck(requester, placedTown, hasPermission, siege.status, |siege.activeAttackers|);
    if failed.Some? {
      event.cancelled := true;
      return PlayerError(failed.value);
    }
    out := CompleteDefenderSurrender(siege);
  }
}

/**
 A room as the object that the sections update in place, with the collector that takes over what they
 detach. Every method is proved to do to the fields exactly what RoomLifecycle says of the room's value.
 */
module LiveRoom {
  import L = RoomLifecycle

  type Timer = L.Timer
  type Participant = L.Participant

  /** What a section gathers while it holds the room's mutex and settles after releasing it. */
  class Resources {
    const serial: nat
    const launch: bool
    ghost var armed: set<Timer>
    var detached: seq<Timer>
    var stopped: seq<Timer>
    var delta: int

    constructor (serial: nat, launch: bool)
      ensures this.serial == serial && this.launch == launch
      ensures armed == {} && detached == [] && stopped == [] && delta == 0
    {
      this.serial, this.launch := serial, launch;
      armed, detached, stopped, delta := {}, [], [], 0;
    }
  }

  class Room {
    const ref: nat
    const name: nat
    const capacity: nat
    var players: seq<Participant>
    var removed: bool
    var ending: bool
    var started: bool
    var matchStatus: L.Phase
    var readyPlayers: set<nat>
    var clients: map<nat, nat>
    var reservations: map<nat, nat>
    var countdown: nat
    var timers: map<L.Kind, Timer>

    function View(): L.Room
      reads this
    {
      L.Room(ref, name, capacity, players, removed, ending, started, matchStatus, readyPlayers, clients, reservations,
             countdown, timers)
    }

    /** The section in progress: the room's fields and what the collector holds. */
    ghost function Work(r: Resources): L.Work
      reads this, r
    {
      L.Work(View(), r.serial, r.launch, r.armed, multiset(r.detached), multiset(r.stopped), r.delta)
    }

    constructor (ref: nat, name: nat, capacity: nat)
      ensures View() == L.NewRoom(ref, name, capacity)
    {
      this.ref, this.name, this.capacity := ref, name, capacity;
      players, removed, ending, started, matchStatus := [], false, false, false, L.Forming;
      readyPlayers, clients, reservations, countdown, timers := {}, map[], map[], 0, map[];
    }

    method MatchmakingHumanCount() returns (count: nat)
      ensures count == L.HumanCount(players)
    {
      count := 0;
      var i := 0;
      while i < |players|
        invariant 0 <= i <= |players| && count == L.HumanCount(players[..i])
      {
        assert players[..i + 1][..i] == players[..i];
        if !players[i].isBot { count := count + 1; }
        i := i + 1;
      }
      assert players[..i] == players;
    }

    method AllMatchClientsAttached() returns (all: bool)
      ensures all == L.AllAttached(View())
    {
      if |players| != capacity {
        return false;
      }
      var i := 0;
      while i < |players|
        invariant 0 <= i <= |players|
        invariant forall k :: 0 <= k < i && !players[k].isBot ==> players[k].id in clients
      {
        if !players[i].isBot && players[i].id !in clients {
          assert players[i] in players;
          return false;
        }
        i := i + 1;
      }
      var humans := MatchmakingHumanCount();
      return humans > 0;
    }

    method AllMatchPlayersReady() returns (all: bool)
      ensures all == L.AllReady(View())
    {
      if |players| != capacity {
        return false;
      }
      var i := 0;
      while i < |players|
        invariant 0 <= i <= |players|
        invariant forall k :: 0 <= k < i && !players[k].isBot ==> players[k].id in readyPlayers
      {
        if !players[i].isBot && players[i].id !in readyPlayers {
          assert players[i] in players;
          return false;
        }
        i := i + 1;
      }
      var humans := MatchmakingHumanCount();
      return humans > 0;
    }

    method DetachTimer(r: Resources, k: L.Kind)
      modifies `timers, r
      ensures Work(r) == L.Detach(old(Work(r)), k)
    {
      if k in timers {
        r.detached := r.detached + [timers[k]];
        timers := timers - {k};
      }
    }

    method StopMatchCountdownLocked(r: Resources)
      modifies `timers, r
      ensures Work(r) == L.StopCountdown(old(Work(r)))
    {
      if L.Countdown in timers {
        r.stopped := r.stopped + [timers[L.Countdown]];
        timers := timers - {L.Countdown};
      }
    }

    method ArmTimer(r: Resources, k: L.Kind)
      modifies `timers, r
      ensures Work(r) == L.Arm(old(Work(r)), k)
    {
      var t := L.Timer(ref, k, r.serial);
      r.armed := r.armed + {t};
      timers := timers[k := t];
      if !r.launch {
        timers := timers - {k};
        assert timers == old(timers) - {k};
        if k == L.Countdown || k == L.Gameplay {
          r.stopped := r.stopped + [t];
        } else {
          r.detached := r.detached + [t];
        }
      }
    }

    method ArmBotFillLocked(r: Resources)
      modifies `timers, r
      ensures Work(r) == L.ArmBotFill(old(Work(r)))
    {
      var humans := MatchmakingHumanCount();
      if removed || ending || started || matchStatus != L.Forming || humans != 1 || L.BotFill in timers {
        return;
      }
      ArmTimer(r, L.BotFill);
    }

    method ArmMatchedAttachDeadlineLocked(r: Resources)
      modifies `timers, r
      ensures Work(r) == L.ArmAttach(old(Work(r)))
    {
      var humans := MatchmakingHumanCount();
      if removed || ending || matchStatus != L.Matched || humans == 0 || L.Attach in timers {
        return;
      }
      ArmTimer(r, L.Attach);
    }

    method ArmReadyDeadlineLocked(r: Resources)
      modifies `timers, r
      ensures Work(r) == L.ArmReady(old(Work(r)))
    {
      var humans := MatchmakingHumanCount();
      var allReady := AllMatchPlayersReady();
      if removed || ending || matchStatus != L.Loading || humans == 0 || allReady || L.Ready in timers {
        return;
      }
      ArmTimer(r, L.Ready);
    }

    method MarkRoomMatchedIfFullLocked(r: Resources)
      modifies `timers, `matchStatus, `readyPlayers, r
      ensures Work(r) == L.MarkMatchedIfFull(old(Work(r)))
    {
      if |players| != capacity {
        return;
      }
      matchStatus := L.Matched;
      readyPlayers := {};
      ArmMatchedAttachDeadlineLocked(r);
    }

    method StartMatchCountdownLocked(r: Resources)
      modifies `timers, `matchStatus, `countdown, r
      ensures Work(r) == L.StartCountdown(old(Work(r)))
    {
      hide L.Detach, L.Arm;
      DetachTimer(r, L.Ready);
      matchStatus := L.Starting;
      countdown := L.COUNTDOWN_SECONDS;
      ArmTimer(r, L.Countdown);
    }

    method AdvanceMatchLoadingLocked(r: Resources)
      modifies `timers, `matchStatus, `countdown, r
      ensures Work(r) == L.AdvanceLoading(old(Work(r)))
    {
      hide L.Detach, L.AllAttached, L.AllReady, L.StartCountdown, L.ArmReady;
      var attached := AllMatchClientsAttached();
      if started || matchStatus != L.Matched || !attached {
        return;
      }
      matchStatus := L.Loading;
      DetachTimer(r, L.Attach);
      var ready := AllMatchPlayersReady();
      if ready {
        StartMatchCountdownLocked(r);
      } else {
        ArmReadyDeadlineLocked(r);
      }
    }

    method StartRoomLocked(r: Resources)
      modifies `timers, `matchStatus, `countdown, `started, r
      ensures Work(r) == L.StartRoom(old(Work(r)))
    {
      hide L.StopCountdown, L.Arm;
      StopMatchCountdownLocked(r);
      started := true;
      matchStatus := L.Started;
      countdown := 0;
      if L.Gameplay !in timers {
        ArmTimer(r, L.Gameplay);
      }
    }

    method DetachTimers(r: Resources)
      modifies `timers, r
      ensures Work(r) == L.DetachAll(old(Work(r)))
    {
      hide L.Detach;
      DetachTimer(r, L.Countdown);
      DetachTimer(r, L.BotFill);
      DetachTimer(r, L.Attach);
      DetachTimer(r, L.Ready);
      DetachTimer(r, L.Gameplay);
    }

    method RemoveRoomLocked(r: Resources)
      modifies this, r
      ensures Work(r) == L.Remove(old(Work(r)))
    {
      hide L.Detach, L.DetachAll;
      DetachTimers(r);
      removed := true;
      r.delta := r.delta - |clients|;
      clients := map[];
      reservations := map[];
    }

    method AppendParticipants(r: Resources, ids: seq<nat>, isBot: bool)
      modifies `players
      ensures Work(r) == L.Append(old(Work(r)), ids, isBot)
    {
      var i := 0;
      while i < |ids|
        invariant 0 <= i <= |ids| && players == old(players) + L.Participants(ids[..i], isBot)
      {
        assert L.Participants(ids[..i + 1], isBot) == L.Participants(ids[..i], isBot) + [L.Participant(ids[i], isBot)];
        players := players + [L.Participant(ids[i], isBot)];
        i := i + 1;
      }
      assert ids[..i] == ids;
    }

    /** A human joins; the caller has seen that the room accepts matchmaking. */
    method TryJoinMatchmaking(r: Resources, id: nat)
      modifies this, r
      ensures Work(r) == L.Joined(old(Work(r)), id)
    {
      hide L.Detach, L.MarkMatchedIfFull, L.ArmBotFill, L.Append, L.HumanCount;
      var humans := MatchmakingHumanCount();
      AppendParticipants(r, [id], false);
      MarkRoomMatchedIfFullLocked(r);
      if humans == 0 {
        ArmBotFillLocked(r);
      } else if |players| == capacity {
        DetachTimer(r, L.BotFill);
      }
    }

    method AppendBots(r: Resources, ids: seq<nat>)
      modifies this, r
      ensures Work(r) == L.BotsAdded(old(Work(r)), ids)
    {
      hide L.Detach, L.MarkMatchedIfFull, L.AdvanceLoading, L.Append;
      AppendParticipants(r, ids, true);
      MarkRoomMatchedIfFullLocked(r);
      if |players| == capacity {
        DetachTimer(r, L.BotFill);
      }
      AdvanceMatchLoadingLocked(r);
    }

    /** A reserved client attaches; its session is known by the section's serial number. */
    method AttachClientSession(r: Resources, player: nat)
      modifies this, r
      ensures Work(r) == L.ClientAttached(old(Work(r)), player)
    {
      hide L.AdvanceLoading;
      reservations := reservations - {player};
      clients := clients[player := r.serial];
      r.delta := r.delta + 1;
      AdvanceMatchLoadingLocked(r);
    }

    /** A connected client's session ends; before the match has started that cancels the room. */
    method ReleaseClient(r: Resources, player: nat)
      modifies this, r
      ensures Work(r) == L.ClientReleased(old(Work(r)), player)
    {
      hide L.Remove;
      clients := clients - {player};
      readyPlayers := readyPlayers - {player};
      r.delta := r.delta - 1;
      if !started && matchStatus != L.Forming {
        RemoveRoomLocked(r);
      }
    }

    method MarkClientReady(r: Resources, player: nat)
      modifies this, r
      ensures Work(r) == L.PlayerReady(old(Work(r)), player)
    {
      hide L.StartCountdown, L.AllReady;
      readyPlayers := readyPlayers + {player};
      var ready := AllMatchPlayersReady();
      if matchStatus == L.Loading && ready {
        StartMatchCountdownLocked(r);
      }
    }
  }
}

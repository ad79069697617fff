/** Who has won: the results of a snapshot, when a match ends, and the ledger in which the first claim counts. */
module GameEnd {
  datatype Outcome = Win | Lose | Draw

  datatype Mode = Duel | Solo | Teams(names: seq<string>) | Survival

  datatype Player = Player(id: nat, team: string, dead: bool)

  predicate Distinct(ps: seq<Player>) {
    forall i, j :: 0 <= i < j < |ps| ==> ps[i].id != ps[j].id
  }

  // ---------- What a snapshot says ----------

  function LiveCount(ps: seq<Player>): nat {
    if ps == [] then 0 else LiveCount(ps[..|ps| - 1]) + if ps[|ps| - 1].dead then 0 else 1
  }

  predicate Eliminated(ps: seq<Player>, team: string) {
    forall p :: p in ps && p.team == team ==> p.dead
  }

  /** A player's result in a snapshot, if it has one. */
  predicate HasResult(mode: Mode, ps: seq<Player>, p: Player) {
    match mode
    case Solo => LiveCount(ps) < |ps| && (p.dead || LiveCount(ps) <= 1)
    case Teams(names) =>
      (exists t :: t in names && Eliminated(ps, t)) && (p.team in names || forall t :: t in names ==> Eliminated(ps, t))
    case _ => LiveCount(ps) < |ps|
  }

  function ResultOf(mode: Mode, ps: seq<Player>, p: Player): Outcome {
    match mode
    case Solo => if LiveCount(ps) == 0 then Draw else if p.dead then Lose else Win
    case Teams(names) =>
      if forall t :: t in names ==> Eliminated(ps, t) then Draw
      else if Eliminated(ps, p.team) then Lose else Win
    case _ => if LiveCount(ps) == 0 then Draw else if p.dead then Lose else Win
  }

  predicate ShouldEnd(mode: Mode, ps: seq<Player>) {
    ps != []
    && match mode
       case Solo => LiveCount(ps) < |ps| && LiveCount(ps) <= 1
       case Teams(names) => exists t :: t in names && Eliminated(ps, t)
       case _ => LiveCount(ps) < |ps|
  }

  /** Exactly the players with a result, each with its own. */
  ghost predicate IsResults(results: map<nat, Outcome>, mode: Mode, ps: seq<Player>) {
    && (forall p :: p in ps ==>
          (p.id in results <==> HasResult(mode, ps, p)) && (p.id in results ==> results[p.id] == ResultOf(mode, ps, p)))
    && (forall id :: id in results ==> exists p :: p in ps && p.id == id)
  }

  // ---------- The calculators ----------

  method LivePlayerCount(ps: seq<Player>) returns (alive: nat)
    ensures alive == LiveCount(ps)
  {
    alive := 0;
    var i := 0;
    while i < |ps|
      invariant 0 <= i <= |ps| && alive == LiveCount(ps[..i])
    {
      assert ps[..i + 1][..i] == ps[..i];
      if !ps[i].dead { alive := alive + 1; }
      i := i + 1;
    }
    assert ps[..i] == ps;
  }

  lemma {:induction false} LiveBound(ps: seq<Player>)
    ensures LiveCount(ps) <= |ps|
    ensures LiveCount(ps) == 0 <==> forall p :: p in ps ==> p.dead
    ensures LiveCount(ps) == |ps| <==> forall p :: p in ps ==> !p.dead
  {
    if ps != [] {
      var init := ps[..|ps| - 1];
      LiveBound(init);
      assert forall p :: p in ps <==> p in init || p == ps[|ps| - 1];
    }
  }

  /** The results of the first `upTo` players. */
  function Filled(mode: Mode, ps: seq<Player>, upTo: nat): map<nat, Outcome>
    requires upTo <= |ps|
  {
    if upTo == 0 then map[]
    else
      var p := ps[upTo - 1];
      var before := Filled(mode, ps, upTo - 1);
      if HasResult(mode, ps, p) then before[p.id := ResultOf(mode, ps, p)] else before
  }

  function Results(mode: Mode, ps: seq<Player>): map<nat, Outcome> {
    Filled(mode, ps, |ps|)
  }

  lemma {:induction false} NothingFilled(mode: Mode, ps: seq<Player>, upTo: nat)
    requires upTo <= |ps| && forall p :: p in ps ==> !HasResult(mode, ps, p)
    ensures Filled(mode, ps, upTo) == map[]
  {
    if upTo > 0 {
      NothingFilled(mode, ps, upTo - 1);
    }
  }

  lemma {:induction false} FilledExact(mode: Mode, ps: seq<Player>, upTo: nat)
    requires Distinct(ps) && upTo <= |ps|
    ensures forall i :: 0 <= i < upTo ==>
              (ps[i].id in Filled(mode, ps, upTo) <==> HasResult(mode, ps, ps[i]))
              && (HasResult(mode, ps, ps[i]) ==> Filled(mode, ps, upTo)[ps[i].id] == ResultOf(mode, ps, ps[i]))
    ensures forall id :: id in Filled(mode, ps, upTo) ==> exists i :: 0 <= i < upTo && ps[i].id == id
  {
    hide HasResult, ResultOf;
    if upTo > 0 {
      FilledExact(mode, ps, upTo - 1);
      var after := Filled(mode, ps, upTo);
      assert ps[upTo - 1].id !in Filled(mode, ps, upTo - 1);
      forall id | id in after
        ensures exists i :: 0 <= i < upTo && ps[i].id == id
      {
        if id in Filled(mode, ps, upTo - 1) {
          var j :| 0 <= j < upTo - 1 && ps[j].id == id;
          assert ps[j].id == id;
        } else {
          assert ps[upTo - 1].id == id;
        }
      }
    }
  }

  /** The results hold exactly the players that have one, each with its own. */
  lemma ResultsExact(mode: Mode, ps: seq<Player>)
    requires Distinct(ps)
    ensures IsResults(Results(mode, ps), mode, ps)
  {
    hide HasResult, ResultOf, Filled;
    FilledExact(mode, ps, |ps|);
    forall p | p in ps
      ensures p.id in Results(mode, ps) <==> HasResult(mode, ps, p)
      ensures p.id in Results(mode, ps) ==> Results(mode, ps)[p.id] == ResultOf(mode, ps, p)
    {
      var i :| 0 <= i < |ps| && ps[i] == p;
      assert ps[i].id == p.id;
    }
  }

  method SoloGameEndResults(ps: seq<Player>) returns (results: map<nat, Outcome>)
    ensures results == Results(Solo, ps)
  {
    results := map[];
    if ps == [] {
      return;
    }
    var alive := LivePlayerCount(ps);
    LiveBound(ps);
    if alive == |ps| {
      NothingFilled(Solo, ps, |ps|);
      return;
    }
    var i := 0;
    while i < |ps|
      invariant 0 <= i <= |ps| && results == Filled(Solo, ps, i)
    {
      if alive == 0 {
        results := results[ps[i].id := Draw];
      } else if ps[i].dead {
        results := results[ps[i].id := Lose];
      } else if alive == 1 {
        results := results[ps[i].id := Win];
      }
      i := i + 1;
    }
  }

  method PlayerSurvivalGameEndResults(mode: Mode, ps: seq<Player>) returns (results: map<nat, Outcome>)
    requires mode.Duel? || mode.Survival?
    ensures results == Results(mode, ps)
  {
    results := map[];
    if ps == [] {
      return;
    }
    var alive := LivePlayerCount(ps);
    LiveBound(ps);
    if alive == |ps| {
      NothingFilled(mode, ps, |ps|);
      return;
    }
    var i := 0;
    while i < |ps|
      invariant 0 <= i <= |ps| && results == Filled(mode, ps, i)
    {
      if alive == 0 {
        results := results[ps[i].id := Draw];
      } else if ps[i].dead {
        results := results[ps[i].id := Lose];
      } else {
        results := results[ps[i].id := Win];
      }
      i := i + 1;
    }
  }

  /** Which configured teams have nobody left. */
  method ConfiguredTeamEliminations(names: seq<string>, ps: seq<Player>) returns (eliminated: map<string, bool>)
    ensures forall t :: t in eliminated <==> t in names
    ensures forall t :: t in eliminated ==> (eliminated[t] <==> Eliminated(ps, t))
  {
    var live: map<string, nat> := map[];
    var i := 0;
    while i < |ps|
      invariant 0 <= i <= |ps|
      invariant forall t :: t in live && live[t] > 0 <==> !Eliminated(ps[..i], t)
    {
      assert forall p :: p in ps[..i + 1] <==> p in ps[..i] || p == ps[i] by { assert ps[..i + 1] == ps[..i] + [ps[i]]; }
      if !ps[i].dead {
        live := live[ps[i].team := (if ps[i].team in live then live[ps[i].team] else 0) + 1];
      }
      i := i + 1;
    }
    assert ps[..i] == ps;
    eliminated := map[];
    var k := 0;
    while k < |names|
      invariant 0 <= k <= |names|
      invariant forall t :: t in eliminated <==> t in names[..k]
      invariant forall t :: t in eliminated ==> (eliminated[t] <==> Eliminated(ps, t))
    {
      assert names[..k + 1] == names[..k] + [names[k]];
      eliminated := eliminated[names[k] := !(names[k] in live && live[names[k]] > 0)];
      k := k + 1;
    }
    assert names[..k] == names;
  }

  method TeamGameEndResults(names: seq<string>, ps: seq<Player>) returns (results: map<nat, Outcome>)
    ensures results == Results(Teams(names), ps)
  {
    hide Eliminated;
    results := map[];
    if ps == [] {
      return;
    }
    var eliminated := ConfiguredTeamEliminations(names, ps);
    if forall t :: t in eliminated ==> !eliminated[t] {
      NothingFilled(Teams(names), ps, |ps|);
      return;
    }
    var all := forall t :: t in eliminated ==> eliminated[t];
    var i := 0;
    while i < |ps|
      invariant 0 <= i <= |ps| && results == Filled(Teams(names), ps, i)
    {
      if all {
        results := results[ps[i].id := Draw];
      } else if ps[i].team in eliminated {
        results := results[ps[i].id := if eliminated[ps[i].team] then Lose else Win];
      }
      i := i + 1;
    }
  }

  method CalculateGameEndResults(mode: Mode, ps: seq<Player>) returns (results: map<nat, Outcome>)
    ensures results == Results(mode, ps)
  {
    match mode
    case Solo => results := SoloGameEndResults(ps);
    case Teams(names) => results := TeamGameEndResults(names, ps);
    case _ => results := PlayerSurvivalGameEndResults(mode, ps);
  }

  /** Whether a snapshot ends the match, mode by mode. */
  method ShouldEndGame(mode: Mode, ps: seq<Player>) returns (ends: bool)
    ensures ends == ShouldEnd(mode, ps)
  {
    hide Eliminated;
    if ps == [] {
      return false;
    }
    match mode
    case Solo =>
      var alive := LivePlayerCount(ps);
      return alive < |ps| && alive <= 1;
    case Teams(names) =>
      var eliminated := ConfiguredTeamEliminations(names, ps);
      var todo := eliminated.Keys;
      while todo != {}
        invariant todo <= eliminated.Keys && forall t :: t in eliminated && t !in todo ==> !eliminated[t]
        decreases |todo|
      {
        var team :| team in todo;
        if eliminated[team] {
          return true;
        }
        todo := todo - {team};
      }
      return false;
    case _ =>
      var results := PlayerSurvivalGameEndResults(mode, ps);
      LiveBound(ps);
      if LiveCount(ps) < |ps| {
        assert ps[|ps| - 1].id in results;
      } else {
        NothingFilled(mode, ps, |ps|);
      }
      return |results| > 0;
  }

  // ---------- The ledger ----------

  /** All results outside `todo` have been looked at, and those that were new are claimed. */
  ghost predicate Claimed(results: map<nat, Outcome>, before: map<nat, Outcome>, todo: set<nat>, claimed: map<nat, Outcome>) {
    claimed == results - before.Keys - todo
  }

  lemma ClaimOne(results: map<nat, Outcome>, before: map<nat, Outcome>, todo: set<nat>, claimed: map<nat, Outcome>, id: nat)
    requires Claimed(results, before, todo, claimed) && id in todo && id in results
    ensures id in before + claimed <==> id in before
    ensures Claimed(results, before, todo - {id}, if id in before then claimed else claimed[id := results[id]])
    ensures before + claimed[id := results[id]] == (before + claimed)[id := results[id]]
  {
  }

  lemma ClaimEnds(results: map<nat, Outcome>, before: map<nat, Outcome>)
    ensures Claimed(results, before, results.Keys, map[]) && before + map[] == before
    ensures forall claimed :: Claimed(results, before, {}, claimed) ==>
              claimed == results - before.Keys && before + claimed == results + before
  {
    forall claimed | Claimed(results, before, {}, claimed)
      ensures claimed == results - before.Keys && before + claimed == results + before
    {
      assert claimed == results - before.Keys - {};
    }
  }

  class Ledger {
    var finalized: map<nat, Outcome>

    constructor ()
      ensures finalized == map[]
    {
      finalized := map[];
    }

    /** Only the players without a result yet get one, and exactly those are returned. */
    method ClaimFinalizedGameEndResults(results: map<nat, Outcome>) returns (claimed: map<nat, Outcome>)
      modifies this
      ensures finalized == results + old(finalized)
      ensures claimed == results - old(finalized).Keys
    {
      hide Claimed;
      ClaimEnds(results, finalized);
      claimed := map[];
      var todo := results.Keys;
      while todo != {}
        invariant todo <= results.Keys && Claimed(results, old(finalized), todo, claimed)
        invariant finalized == old(finalized) + claimed
        decreases |todo|
      {
        var id :| id in todo;
        ClaimOne(results, old(finalized), todo, claimed, id);
        if id !in finalized {
          finalized := finalized[id := results[id]];
          claimed := claimed[id := results[id]];
        }
        todo := todo - {id};
      }
    }

    /** What a tick does with its snapshot. */
    method RecordTick(mode: Mode, ps: seq<Player>) returns (claimed: map<nat, Outcome>, terminal: bool)
      modifies this
      ensures finalized == Results(mode, ps) + old(finalized)
      ensures claimed == Results(mode, ps) - old(finalized).Keys
      ensures terminal == ShouldEnd(mode, ps)
    {
      var results := CalculateGameEndResults(mode, ps);
      claimed := ClaimFinalizedGameEndResults(results);
      terminal := ShouldEndGame(mode, ps);
    }
  }

  // ---------- A whole match ----------

  /** The ledger after these snapshots: each tick claims what is not claimed yet. */
  function LedgerAfter(mode: Mode, snaps: seq<seq<Player>>): map<nat, Outcome>
    decreases |snaps|
  {
    if snaps == [] then map[]
    else Results(mode, snaps[|snaps| - 1]) + LedgerAfter(mode, snaps[..|snaps| - 1])
  }

  predicate SamePlayers(a: seq<Player>, b: seq<Player>) {
    |a| == |b| && forall i :: 0 <= i < |a| ==> b[i].id == a[i].id && b[i].team == a[i].team && (a[i].dead ==> b[i].dead)
  }

  /** The snapshots of a match: deaths are final, and only the last snapshot can end it. */
  predicate Match(mode: Mode, snaps: seq<seq<Player>>) {
    && (forall k :: 0 <= k < |snaps| ==> snaps[k] != [] && Distinct(snaps[k]))
    && (forall k :: 0 < k < |snaps| ==> SamePlayers(snaps[k - 1], snaps[k]))
    && (forall k :: 0 <= k < |snaps| - 1 ==> !ShouldEnd(mode, snaps[k]))
  }

  /** A claimed result never changes. */
  lemma {:induction false} ResultsAreFinal(mode: Mode, snaps: seq<seq<Player>>, k: nat)
    requires k <= |snaps|
    ensures forall id :: id in LedgerAfter(mode, snaps[..k]) ==>
              id in LedgerAfter(mode, snaps) && LedgerAfter(mode, snaps)[id] == LedgerAfter(mode, snaps[..k])[id]
    decreases |snaps|
  {
    hide Results;
    if k == |snaps| {
      assert snaps[..k] == snaps;
    } else {
      var init := snaps[..|snaps| - 1];
      assert init[..k] == snaps[..k];
      ResultsAreFinal(mode, init, k);
    }
  }

  /** Ending says that every player of a configured team has a result at that tick. */
  lemma EndingSettles(mode: Mode, ps: seq<Player>, p: Player)
    requires ShouldEnd(mode, ps) && p in ps && (mode.Teams? ==> p.team in mode.names)
    ensures HasResult(mode, ps, p)
  {
  }

  lemma EveryoneSettled(mode: Mode, snaps: seq<seq<Player>>, p: Player)
    requires Match(mode, snaps) && snaps != [] && ShouldEnd(mode, snaps[|snaps| - 1])
    requires p in snaps[|snaps| - 1] && (mode.Teams? ==> p.team in mode.names)
    ensures p.id in LedgerAfter(mode, snaps)
  {
    var last := snaps[|snaps| - 1];
    EndingSettles(mode, last, p);
    ResultsExact(mode, last);
  }

  /** Outside Solo, nobody has a result before the match ends. */
  lemma {:induction false} NothingBeforeTheEnd(mode: Mode, snaps: seq<seq<Player>>)
    requires Match(mode, snaps) && !mode.Solo? && (snaps == [] || !ShouldEnd(mode, snaps[|snaps| - 1]))
    ensures LedgerAfter(mode, snaps) == map[]
    decreases |snaps|
  {
    if snaps != [] {
      var init := snaps[..|snaps| - 1];
      MatchPrefix(mode, snaps);
      NothingBeforeTheEnd(mode, init);
      NothingFilled(mode, snaps[|snaps| - 1], |snaps[|snaps| - 1]|);
    }
  }

  /** Somebody of this team lives. */
  ghost predicate TeamLives(ps: seq<Player>, team: string) {
    exists p :: p in ps && p.team == team && !p.dead
  }

  ghost predicate Lives(ps: seq<Player>) {
    exists p :: p in ps && !p.dead
  }

  /**
   What ends a match and what its end means, mode by mode: in a duel and in survival the first death, and then the
   living have won unless nobody lives; between teams the end of a team, and then the teams with somebody left
   have won unless there is none; in Solo that at most one lives.
   */
  lemma EndMeans(mode: Mode, ps: seq<Player>)
    requires ps != []
    ensures match mode
      case Solo =>
        ShouldEnd(mode, ps) <==>
          (exists p :: p in ps && p.dead) && forall i, j :: 0 <= i < j < |ps| ==> ps[i].dead || ps[j].dead
      case Teams(names) => ShouldEnd(mode, ps) <==> exists t :: t in names && !TeamLives(ps, t)
      case _ => ShouldEnd(mode, ps) <==> exists p :: p in ps && p.dead
    ensures !mode.Solo? && ShouldEnd(mode, ps) ==>
      forall p :: p in ps && HasResult(mode, ps, p) ==>
        ResultOf(mode, ps, p) ==
          match mode
          case Teams(names) =>
            if forall t :: t in names ==> !TeamLives(ps, t) then Draw else if TeamLives(ps, p.team) then Win else Lose
          case _ => if !Lives(ps) then Draw else if p.dead then Lose else Win
  {
    LiveBound(ps);
    AtMostOneAlive(ps);
    if mode.Teams? {
      forall t
        ensures Eliminated(ps, t) <==> !TeamLives(ps, t)
      {
        if !Eliminated(ps, t) { var p :| p in ps && p.team == t && !p.dead; }
      }
    }
  }

  lemma {:induction false} AtMostOneAlive(ps: seq<Player>)
    ensures LiveCount(ps) == 0 <==> !Lives(ps)
    ensures LiveCount(ps) <= 1 <==> forall i, j :: 0 <= i < j < |ps| ==> ps[i].dead || ps[j].dead
  {
    if ps != [] {
      var n := |ps| - 1;
      var init := ps[..n];
      AtMostOneAlive(init);
      assert forall p :: p in ps <==> p in init || p == ps[n];
      if !ps[n].dead && Lives(init) {
        var i :| 0 <= i < n && !init[i].dead;
        assert !ps[i].dead;
      }
    }
  }

  lemma MatchPrefix(mode: Mode, snaps: seq<seq<Player>>)
    requires Match(mode, snaps) && snaps != []
    ensures Match(mode, snaps[..|snaps| - 1])
    ensures |snaps| > 1 ==> !ShouldEnd(mode, snaps[|snaps| - 2]) && SamePlayers(snaps[|snaps| - 2], snaps[|snaps| - 1])
  {
    hide Distinct, SamePlayers, ShouldEnd;
    var init := snaps[..|snaps| - 1];
    assert forall k :: 0 <= k < |init| ==> init[k] == snaps[k];
  }

  /** Outside Solo the terminal snapshot alone decides. */
  lemma TerminalDecides(mode: Mode, snaps: seq<seq<Player>>, p: Player)
    requires Match(mode, snaps) && !mode.Solo? && snaps != [] && ShouldEnd(mode, snaps[|snaps| - 1])
    requires p in snaps[|snaps| - 1] && (mode.Teams? ==> p.team in mode.names)
    ensures p.id in LedgerAfter(mode, snaps)
    ensures LedgerAfter(mode, snaps)[p.id] == ResultOf(mode, snaps[|snaps| - 1], p)
  {
    hide ResultOf, HasResult, ShouldEnd, Filled;
    var last := snaps[|snaps| - 1];
    EveryoneSettled(mode, snaps, p);
    MatchPrefix(mode, snaps);
    var init := snaps[..|snaps| - 1];
    assert init != [] ==> init[|init| - 1] == snaps[|snaps| - 2];
    NothingBeforeTheEnd(mode, init);
    ResultsExact(mode, last);
  }

  lemma SoloSnapshot(ps: seq<Player>)
    requires Distinct(ps) && ps != [] && !ShouldEnd(Solo, ps)
    ensures forall i :: 0 <= i < |ps| ==> (ps[i].id in Results(Solo, ps) <==> ps[i].dead)
    ensures forall id :: id in Results(Solo, ps) ==> Results(Solo, ps)[id] == Lose
    ensures forall id :: id in Results(Solo, ps) ==> exists i :: 0 <= i < |ps| && ps[i].id == id && ps[i].dead
  {
    hide Filled;
    ResultsExact(Solo, ps);
    LiveBound(ps);
    assert forall i :: 0 <= i < |ps| ==> ps[i] in ps;
  }

  /** While a Solo match goes on, exactly the dead have a result, and it is Lose. */
  lemma {:induction false} SoloGoesOn(snaps: seq<seq<Player>>)
    requires Match(Solo, snaps) && snaps != [] && !ShouldEnd(Solo, snaps[|snaps| - 1])
    ensures var last := snaps[|snaps| - 1];
      && (forall i :: 0 <= i < |last| ==> (last[i].id in LedgerAfter(Solo, snaps) <==> last[i].dead))
      && (forall id :: id in LedgerAfter(Solo, snaps) ==> LedgerAfter(Solo, snaps)[id] == Lose)
    decreases |snaps|
  {
    hide Results, ShouldEnd;
    var last := snaps[|snaps| - 1];
    SoloSnapshot(last);
    if |snaps| > 1 {
      var init := snaps[..|snaps| - 1];
      MatchPrefix(Solo, snaps);
      assert init[|init| - 1] == snaps[|snaps| - 2];
      SoloGoesOn(init);
    }
  }

  /**
   A Solo match: whoever is alive at the end has won, whoever died before the last tick has lost, and those
   who died in the last tick have lost too if somebody is left, and drawn if nobody is.
   */
  lemma SoloOutcome(snaps: seq<seq<Player>>, i: nat)
    requires Match(Solo, snaps) && snaps != [] && ShouldEnd(Solo, snaps[|snaps| - 1])
    requires i < |snaps[|snaps| - 1]|
    ensures var last := snaps[|snaps| - 1];
      var ledger := LedgerAfter(Solo, snaps);
      && last[i].id in ledger
      && ledger[last[i].id] ==
         (if !last[i].dead then Win
          else if |snaps| > 1 && i < |snaps[|snaps| - 2]| && snaps[|snaps| - 2][i].dead then Lose
          else if LiveCount(last) == 0 then Draw
          else Lose)
  {
    hide Filled;
    var last := snaps[|snaps| - 1];
    assert last[i] in last;
    ResultsExact(Solo, last);
    EveryoneSettled(Solo, snaps, last[i]);
    MatchPrefix(Solo, snaps);
    LiveBound(last);
    if |snaps| > 1 {
      var init := snaps[..|snaps| - 1];
      assert init[|init| - 1] == snaps[|snaps| - 2];
      SoloGoesOn(init);
    } else {
      assert snaps[..|snaps| - 1] == [];
    }
  }

  /** A Solo match ends with one winner and everybody else losing, exactly if one player lives, and otherwise without a winner. */
  lemma SoloHasOneWinner(snaps: seq<seq<Player>>)
    requires Match(Solo, snaps) && snaps != [] && ShouldEnd(Solo, snaps[|snaps| - 1])
    ensures var last := snaps[|snaps| - 1];
      var ledger := LedgerAfter(Solo, snaps);
      && (forall i :: 0 <= i < |last| ==> last[i].id in ledger)
      && if LiveCount(last) == 1
         then exists w :: 0 <= w < |last| && !last[w].dead
                          && forall i :: 0 <= i < |last| ==> ledger[last[i].id] == if i == w then Win else Lose
         else forall i :: 0 <= i < |last| ==> ledger[last[i].id] != Win
  {
    hide Match, ShouldEnd;
    var last := snaps[|snaps| - 1];
    forall i | 0 <= i < |last|
      ensures var ledger := LedgerAfter(Solo, snaps);
        && last[i].id in ledger && (ledger[last[i].id] == Win <==> !last[i].dead)
        && (LiveCount(last) > 0 ==> ledger[last[i].id] != Draw)
    {
      SoloOutcome(snaps, i);
    }
    LiveBound(last);
    AtMostOneLives(snaps);
    if LiveCount(last) == 1 {
      var p :| p in last && !p.dead;
      var w :| 0 <= w < |last| && last[w] == p;
      forall i | 0 <= i < |last| && i != w
        ensures last[i].dead
      {
        if !last[i].dead { TwoAlive(last, if i < w then i else w, if i < w then w else i); }
      }
    }
  }

  lemma AtMostOneLives(snaps: seq<seq<Player>>)
    requires snaps != [] && ShouldEnd(Solo, snaps[|snaps| - 1])
    ensures LiveCount(snaps[|snaps| - 1]) <= 1
  {
  }

  lemma {:induction false} TwoAlive(ps: seq<Player>, i: nat, j: nat)
    requires i < j < |ps| && !ps[i].dead && !ps[j].dead
    ensures LiveCount(ps) >= 2
  {
    var init := ps[..|ps| - 1];
    if j < |ps| - 1 {
      TwoAlive(init, i, j);
    } else {
      LiveBound(init);
      assert init[i] in init;
    }
  }
}

/** Which team and slot a player index gets: the teams are dealt round by round until they are full. */
module TeamAssignment {
  datatype Team = Team(name: string, size: int)

  /** How many of the first `upTo` teams still have this slot. */
  function Open(teams: seq<Team>, slot: nat, upTo: nat): nat
    requires upTo <= |teams|
  {
    if upTo == 0 then 0 else Open(teams, slot, upTo - 1) + if slot < teams[upTo - 1].size then 1 else 0
  }

  /** How many places there are in the slots below this one. */
  function Before(teams: seq<Team>, slot: nat): nat {
    if slot == 0 then 0 else Before(teams, slot - 1) + Open(teams, slot - 1, |teams|)
  }

  /** The number of places dealt before this one. */
  function Rank(teams: seq<Team>, t: nat, slot: nat): nat
    requires t < |teams|
  {
    Before(teams, slot) + Open(teams, slot, t)
  }

  predicate Place(teams: seq<Team>, t: nat, slot: nat) {
    t < |teams| && slot < teams[t].size
  }

  /** The places of all teams, cut off at a slot. */
  function PlacesBelow(teams: seq<Team>, slot: nat, upTo: nat): nat
    requires upTo <= |teams|
  {
    if upTo == 0 then 0
    else
      var size := teams[upTo - 1].size;
      PlacesBelow(teams, slot, upTo - 1) + if size < 0 then 0 else if size < slot then size else slot
  }

  function TotalSize(teams: seq<Team>): nat {
    if teams == [] then 0
    else TotalSize(teams[..|teams| - 1]) + if teams[|teams| - 1].size < 0 then 0 else teams[|teams| - 1].size
  }

  function MaxSize(teams: seq<Team>): nat {
    if teams == [] then 0
    else
      var rest := MaxSize(teams[..|teams| - 1]);
      if teams[|teams| - 1].size > rest then teams[|teams| - 1].size else rest
  }

  /** Dealing ends when a round reaches no team, which is after the largest team is full. */
  method MatchTeamForPlayerIndex(index: int, teams: seq<Team>) returns (name: string, slot: nat, ok: bool, ghost team: nat)
    ensures 0 <= index < TotalSize(teams) ==>
              && Place(teams, team, slot) && Rank(teams, team, slot) == index
              && name == teams[team].name && ok == (name != "")
    ensures !(0 <= index < TotalSize(teams)) ==> name == "" && slot == 0 && !ok
  {
    hide Before, Open, TotalSize, MaxSize;
    team := 0;
    if index < 0 || |teams| == 0 {
      NoTeams(teams);
      return "", 0, false, 0;
    }
    var dealt: nat := 0;
    slot := 0;
    BeforeStep(teams, 0);
    while true
      invariant dealt == Before(teams, slot) <= index
      invariant slot <= MaxSize(teams)
      decreases MaxSize(teams) - slot
    {
      var progressed := false;
      var t := 0;
      OpenStep(teams, slot, 0);
      while t < |teams|
        invariant 0 <= t <= |teams|
        invariant dealt == Before(teams, slot) + Open(teams, slot, t) <= index
        invariant progressed <==> Open(teams, slot, t) > 0
      {
        OpenStep(teams, slot, t);
        if slot < teams[t].size {
          if dealt == index {
            RankBelowTotal(teams, t, slot);
            return teams[t].name, slot, teams[t].name != "", t;
          }
          dealt := dealt + 1;
          progressed := true;
        }
        t := t + 1;
      }
      BeforeStep(teams, slot);
      if !progressed {
        NothingOpen(teams, slot);
        BeforeAll(teams, slot);
        return "", 0, false, 0;
      }
      OpenBelowMax(teams, slot);
      slot := slot + 1;
    }
  }

  lemma NoTeams(teams: seq<Team>)
    ensures teams == [] ==> TotalSize(teams) == 0
  {
  }

  lemma BeforeStep(teams: seq<Team>, slot: nat)
    ensures Before(teams, 0) == 0 && Before(teams, slot + 1) == Before(teams, slot) + Open(teams, slot, |teams|)
  {
  }

  lemma OpenStep(teams: seq<Team>, slot: nat, t: nat)
    requires t <= |teams|
    ensures Open(teams, slot, 0) == 0
    ensures t < |teams| ==> Open(teams, slot, t + 1) == Open(teams, slot, t) + if slot < teams[t].size then 1 else 0
  {
  }

  lemma {:induction false} OpenMonotone(teams: seq<Team>, slot: nat, t: nat, u: nat)
    requires t <= u <= |teams|
    ensures Open(teams, slot, t) <= Open(teams, slot, u)
    ensures t < u && slot < teams[t].size ==> Open(teams, slot, t) < Open(teams, slot, u)
    decreases u - t
  {
    if t < u {
      OpenMonotone(teams, slot, t, u - 1);
    }
  }

  lemma {:induction false} OpenWitness(teams: seq<Team>, slot: nat, upTo: nat)
    requires upTo <= |teams| && Open(teams, slot, upTo) > 0
    ensures slot < MaxSize(teams[..upTo])
  {
    assert teams[..upTo][..upTo - 1] == teams[..upTo - 1];
    if slot >= teams[upTo - 1].size {
      OpenWitness(teams, slot, upTo - 1);
    }
  }

  lemma OpenBelowMax(teams: seq<Team>, slot: nat)
    requires Open(teams, slot, |teams|) > 0
    ensures slot < MaxSize(teams)
  {
    OpenWitness(teams, slot, |teams|);
    assert teams[..|teams|] == teams;
  }

  lemma NothingOpen(teams: seq<Team>, slot: nat)
    requires Open(teams, slot, |teams|) == 0
    ensures forall t :: 0 <= t < |teams| ==> teams[t].size <= slot
  {
    forall t | 0 <= t < |teams|
      ensures teams[t].size <= slot
    {
      OpenMonotone(teams, slot, t, |teams|);
    }
  }

  /** Counting by slots and counting by teams give the same number of places. */
  lemma {:induction false} BeforeIsPlaces(teams: seq<Team>, slot: nat)
    ensures Before(teams, slot) == PlacesBelow(teams, slot, |teams|)
  {
    if slot == 0 {
      NoPlaces(teams, |teams|);
    } else {
      BeforeIsPlaces(teams, slot - 1);
      OneMoreSlot(teams, slot - 1, |teams|);
    }
  }

  lemma {:induction false} NoPlaces(teams: seq<Team>, upTo: nat)
    requires upTo <= |teams|
    ensures PlacesBelow(teams, 0, upTo) == 0
  {
    if upTo > 0 { NoPlaces(teams, upTo - 1); }
  }

  lemma {:induction false} OneMoreSlot(teams: seq<Team>, slot: nat, upTo: nat)
    requires upTo <= |teams|
    ensures PlacesBelow(teams, slot + 1, upTo) == PlacesBelow(teams, slot, upTo) + Open(teams, slot, upTo)
  {
    if upTo > 0 { OneMoreSlot(teams, slot, upTo - 1); }
  }

  lemma {:induction false} AllPlaces(teams: seq<Team>, slot: nat, upTo: nat)
    requires upTo <= |teams|
    ensures PlacesBelow(teams, slot, upTo) <= TotalSize(teams[..upTo])
    ensures (forall t :: 0 <= t < upTo ==> teams[t].size <= slot) ==> PlacesBelow(teams, slot, upTo) == TotalSize(teams[..upTo])
  {
    if upTo > 0 {
      AllPlaces(teams, slot, upTo - 1);
      assert teams[..upTo][..upTo - 1] == teams[..upTo - 1];
    }
  }

  lemma BeforeAll(teams: seq<Team>, slot: nat)
    ensures Before(teams, slot) <= TotalSize(teams)
    ensures (forall t :: 0 <= t < |teams| ==> teams[t].size <= slot) ==> Before(teams, slot) == TotalSize(teams)
  {
    BeforeIsPlaces(teams, slot);
    AllPlaces(teams, slot, |teams|);
    assert teams[..|teams|] == teams;
  }

  // ---------- The deal is a bijection ----------

  lemma RankBelowTotal(teams: seq<Team>, t: nat, slot: nat)
    requires Place(teams, t, slot)
    ensures Rank(teams, t, slot) < TotalSize(teams)
  {
    OpenMonotone(teams, slot, t, |teams|);
    BeforeStep(teams, slot);
    BeforeAll(teams, slot + 1);
  }

  lemma {:induction false} BeforeMonotone(teams: seq<Team>, r: nat, s: nat)
    requires r <= s
    ensures Before(teams, r) <= Before(teams, s)
    decreases s - r
  {
    if r < s { BeforeMonotone(teams, r, s - 1); }
  }

  /** Different places have different ranks: the earlier slot, and within a slot the earlier team, comes first. */
  lemma RanksDiffer(teams: seq<Team>, t: nat, r: nat, u: nat, s: nat)
    requires Place(teams, t, r) && Place(teams, u, s)
    ensures (r < s || (r == s && t < u)) ==> Rank(teams, t, r) < Rank(teams, u, s)
    ensures Rank(teams, t, r) == Rank(teams, u, s) <==> t == u && r == s
  {
    RankOrder(teams, t, r, u, s);
    RankOrder(teams, u, s, t, r);
  }

  lemma RankOrder(teams: seq<Team>, t: nat, r: nat, u: nat, s: nat)
    requires Place(teams, t, r) && Place(teams, u, s)
    ensures (r < s || (r == s && t < u)) ==> Rank(teams, t, r) < Rank(teams, u, s)
  {
    OpenMonotone(teams, r, t, |teams|);
    BeforeStep(teams, r);
    if r < s {
      BeforeMonotone(teams, r + 1, s);
    } else if r == s && t < u {
      OpenMonotone(teams, r, t, u);
    }
  }

  /** The index is dealt to this place. */
  predicate DealtTo(teams: seq<Team>, index: int, t: nat, slot: nat) {
    Place(teams, t, slot) && Rank(teams, t, slot) == index
  }

  ghost predicate HasPlace(teams: seq<Team>, index: int) {
    exists t: nat, slot: nat :: DealtTo(teams, index, t, slot)
  }

  /** Every index below the total is the rank of a place. */
  lemma RanksCover(teams: seq<Team>, index: nat)
    requires index < TotalSize(teams)
    ensures HasPlace(teams, index)
  {
    var m := MaxSize(teams);
    MaxBounds(teams);
    BeforeAll(teams, m);
    var slot := SlotOf(teams, index, m);
    BeforeStep(teams, slot);
    var t := TeamOf(teams, slot, index - Before(teams, slot), |teams|);
    assert DealtTo(teams, index, t, slot);
  }

  lemma {:induction false} MaxBounds(teams: seq<Team>)
    ensures forall t :: 0 <= t < |teams| ==> teams[t].size <= MaxSize(teams)
  {
    if teams != [] {
      MaxBounds(teams[..|teams| - 1]);
    }
  }

  lemma {:induction false} SlotOf(teams: seq<Team>, index: nat, slot: nat) returns (s: nat)
    requires index < Before(teams, slot)
    ensures s < slot && Before(teams, s) <= index < Before(teams, s + 1)
  {
    if Before(teams, slot - 1) <= index {
      s := slot - 1;
    } else {
      s := SlotOf(teams, index, slot - 1);
    }
  }

  lemma {:induction false} TeamOf(teams: seq<Team>, slot: nat, k: nat, upTo: nat) returns (t: nat)
    requires upTo <= |teams| && k < Open(teams, slot, upTo)
    ensures t < upTo && slot < teams[t].size && Open(teams, slot, t) == k
  {
    if Open(teams, slot, upTo - 1) <= k {
      t := upTo - 1;
    } else {
      t := TeamOf(teams, slot, k, upTo - 1);
    }
  }

  /**
   When the sizes add up to the match size, the indices of a match and the places of its teams correspond
   one to one: every index has a place, no two places share an index, and no other index has one.
   */
  lemma DealIsBijection(teams: seq<Team>, playersPerMatch: nat)
    requires TotalSize(teams) == playersPerMatch
    ensures forall index :: HasPlace(teams, index) <==> 0 <= index < playersPerMatch
    ensures forall t: nat, slot: nat :: Place(teams, t, slot) ==> DealtTo(teams, Rank(teams, t, slot), t, slot)
    ensures forall index, t: nat, r: nat, u: nat, s: nat ::
              (DealtTo(teams, index, t, r) && DealtTo(teams, index, u, s) ==> t == u && r == s)
  {
    forall index
      ensures HasPlace(teams, index) <==> 0 <= index < playersPerMatch
    {
      if HasPlace(teams, index) {
        var t: nat, slot: nat :| DealtTo(teams, index, t, slot);
        RankBelowTotal(teams, t, slot);
      } else if 0 <= index < playersPerMatch {
        RanksCover(teams, index);
      }
    }
    forall index, t: nat, r: nat, u: nat, s: nat | DealtTo(teams, index, t, r) && DealtTo(teams, index, u, s)
      ensures t == u && r == s
    {
      RanksDiffer(teams, t, r, u, s);
    }
  }
}

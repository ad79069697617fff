/**
 Dashes that move together within one tick: an event loop that always goes to the earliest contact, stops
 the dashers in it, and looks again. When contacts happen is a parameter; how they are used is not.
 */
module SkillDash {
  import opened Wrappers
  import opened World

  const COLLISION_EPS: real := 0.000001
  const TIME_EPS: real := 0.000000000001

  datatype Candidate = Candidate(
    player: nat,
    origin: Vector2,
    target: Vector2,
    position: Vector2,
    direction: Vector2,
    distance: real,
    radius: real,
    collided: bool,
    active: bool)

  /**
   The contact finders, each from the dasher's place at the current time to its target: local times of
   contact with the map and with players that do not dash, with a stopped dasher, and with a moving one.
   */
  datatype Finders = Finders(
    solo: (Candidate, real) -> seq<real>,
    blocker: (Candidate, Candidate, real) -> Option<real>,
    pair: (Candidate, Candidate, real) -> Option<real>)

  function AddScaled(origin: Vector2, direction: Vector2, distance: real): Vector2 {
    Vector2(origin.x + direction.x * distance, origin.y + direction.y * distance)
  }

  function Share(whole: real, part: real): real {
    whole * part
  }

  function GlobalTime(current: real, local: real): real {
    current + Share(1.0 - current, Clamp(local, 0.0, 1.0))
  }

  // ---------- A round of contacts ----------

  datatype Contact = Contact(time: real, participants: seq<nat>)

  datatype Found = Found(earliest: Option<real>, contacts: seq<Contact>)

  function Record(f: Found, c: Contact, current: real): Found {
    if c.time < current - TIME_EPS || c.time > 1.0 + TIME_EPS then f
    else
      var sooner := f.earliest.None? || c.time < f.earliest.value - TIME_EPS;
      var earliest := if sooner then c.time else f.earliest.value;
      var kept := if sooner then [] else f.contacts;
      Found(Some(earliest), if AbsReal(c.time - earliest) <= TIME_EPS then kept + [c] else kept)
  }

  /** A report counts exactly if it lies in the rest of the tick, to within the tolerance. */
  lemma RecordWindow(f: Found, c: Contact, current: real)
    ensures var g := Record(f, c, current);
      if current - TIME_EPS <= c.time <= 1.0 + TIME_EPS
      then g.earliest.Some? && g.earliest.value <= c.time + TIME_EPS && (g.earliest.value >= c.time ==> c in g.contacts)
      else g == f
  {
  }

  /** The contacts recorded one after the other. */
  function Fold(f: Found, reports: seq<Contact>, current: real): Found
    decreases |reports|
  {
    if reports == [] then f
    else Record(Fold(f, reports[..|reports| - 1], current), reports[|reports| - 1], current)
  }

  function SoloReports(cs: seq<Candidate>, finders: Finders, current: real, i: nat, upTo: nat): seq<Contact>
    requires i < |cs| && upTo <= |finders.solo(cs[i], current)|
  {
    if upTo == 0 then []
    else SoloReports(cs, finders, current, i, upTo - 1)
         + [Contact(GlobalTime(current, finders.solo(cs[i], current)[upTo - 1]), [i])]
  }

  function BlockerReports(cs: seq<Candidate>, finders: Finders, current: real, i: nat, upTo: nat): seq<Contact>
    requires i < |cs| && upTo <= |cs|
  {
    if upTo == 0 then []
    else
      var j := upTo - 1;
      var rest := BlockerReports(cs, finders, current, i, j);
      if cs[j].active || cs[j].player == cs[i].player || finders.blocker(cs[i], cs[j], current).None? then rest
      else rest + [Contact(GlobalTime(current, finders.blocker(cs[i], cs[j], current).value), [i])]
  }

  function PairReports(cs: seq<Candidate>, finders: Finders, current: real, left: nat, upTo: nat): seq<Contact>
    requires left < |cs| && left < upTo <= |cs|
    decreases upTo
  {
    if upTo == left + 1 then []
    else
      var right := upTo - 1;
      var rest := PairReports(cs, finders, current, left, right);
      if !cs[right].active || finders.pair(cs[left], cs[right], current).None? then rest
      else rest + [Contact(GlobalTime(current, finders.pair(cs[left], cs[right], current).value), [left, right])]
  }

  /** What the round's first pass reports for the dashers below an index, in order. */
  function FirstPass(cs: seq<Candidate>, finders: Finders, current: real, upTo: nat): seq<Contact>
    requires upTo <= |cs|
  {
    if upTo == 0 then []
    else
      var i := upTo - 1;
      var rest := FirstPass(cs, finders, current, i);
      if !cs[i].active then rest
      else rest + SoloReports(cs, finders, current, i, |finders.solo(cs[i], current)|)
                + BlockerReports(cs, finders, current, i, |cs|)
  }

  function SecondPass(cs: seq<Candidate>, finders: Finders, current: real, upTo: nat): seq<Contact>
    requires upTo <= |cs|
  {
    if upTo == 0 then []
    else
      var i := upTo - 1;
      var rest := SecondPass(cs, finders, current, i);
      if !cs[i].active then rest else rest + PairReports(cs, finders, current, i, |cs|)
  }

  function Reports(cs: seq<Candidate>, finders: Finders, current: real): seq<Contact> {
    FirstPass(cs, finders, current, |cs|) + SecondPass(cs, finders, current, |cs|)
  }

  const NOTHING: Found := Found(None, [])

  function Round(cs: seq<Candidate>, finders: Finders, current: real): Found {
    Fold(NOTHING, Reports(cs, finders, current), current)
  }

  lemma {:induction false} FoldAppends(f: Found, a: seq<Contact>, b: seq<Contact>, current: real)
    ensures Fold(f, a + b, current) == Fold(Fold(f, a, current), b, current)
    decreases |b|
  {
    if b == [] {
      assert a + b == a;
    } else {
      assert (a + b)[..|a + b| - 1] == a + b[..|b| - 1];
      FoldAppends(f, a, b[..|b| - 1], current);
    }
  }

  lemma FoldOne(f: Found, a: seq<Contact>, c: Contact, current: real)
    ensures Fold(f, a + [c], current) == Record(Fold(f, a, current), c, current)
  {
    assert (a + [c])[..|a|] == a;
  }

  method RecordSolo(f: Found, cs: seq<Candidate>, finders: Finders, current: real, i: nat) returns (g: Found)
    requires i < |cs|
    ensures g == Fold(f, SoloReports(cs, finders, current, i, |finders.solo(cs[i], current)|), current)
  {
    hide Record, GlobalTime;
    g := f;
    var times := finders.solo(cs[i], current);
    var k := 0;
    while k < |times|
      invariant 0 <= k <= |times|
      invariant g == Fold(f, SoloReports(cs, finders, current, i, k), current)
    {
      var contact := Contact(GlobalTime(current, times[k]), [i]);
      FoldOne(f, SoloReports(cs, finders, current, i, k), contact, current);
      g := Record(g, contact, current);
      k := k + 1;
    }
  }

  method RecordBlockers(f: Found, cs: seq<Candidate>, finders: Finders, current: real, i: nat) returns (g: Found)
    requires i < |cs|
    ensures g == Fold(f, BlockerReports(cs, finders, current, i, |cs|), current)
  {
    hide Record, GlobalTime;
    g := f;
    var j := 0;
    while j < |cs|
      invariant 0 <= j <= |cs|
      invariant g == Fold(f, BlockerReports(cs, finders, current, i, j), current)
    {
      if !cs[j].active && cs[j].player != cs[i].player {
        var hit := finders.blocker(cs[i], cs[j], current);
        if hit.Some? {
          var contact := Contact(GlobalTime(current, hit.value), [i]);
          FoldOne(f, BlockerReports(cs, finders, current, i, j), contact, current);
          g := Record(g, contact, current);
        }
      }
      j := j + 1;
    }
  }

  method RecordPairs(f: Found, cs: seq<Candidate>, finders: Finders, current: real, left: nat) returns (g: Found)
    requires left < |cs|
    ensures g == Fold(f, PairReports(cs, finders, current, left, |cs|), current)
  {
    hide Record, GlobalTime;
    g := f;
    var right := left + 1;
    while right < |cs|
      invariant left < right <= |cs|
      invariant g == Fold(f, PairReports(cs, finders, current, left, right), current)
    {
      if cs[right].active {
        var hit := finders.pair(cs[left], cs[right], current);
        if hit.Some? {
          var contact := Contact(GlobalTime(current, hit.value), [left, right]);
          FoldOne(f, PairReports(cs, finders, current, left, right), contact, current);
          g := Record(g, contact, current);
        }
      }
      right := right + 1;
    }
  }

  method EarliestContacts(cs: seq<Candidate>, finders: Finders, current: real) returns (f: Found)
    ensures f == Round(cs, finders, current)
  {
    hide Record, Fold, SoloReports, BlockerReports, PairReports;
    f := NOTHING;
    var n := |cs|;
    FoldAppends(NOTHING, [], [], current);
    assert Fold(NOTHING, [], current) == NOTHING by { FoldNone(NOTHING, current); }
    var index := 0;
    while index < n
      invariant 0 <= index <= n
      invariant f == Fold(NOTHING, FirstPass(cs, finders, current, index), current)
    {
      if cs[index].active {
        var solo := SoloReports(cs, finders, current, index, |finders.solo(cs[index], current)|);
        FoldAppends(NOTHING, FirstPass(cs, finders, current, index), solo, current);
        f := RecordSolo(f, cs, finders, current, index);
        FoldAppends(NOTHING, FirstPass(cs, finders, current, index) + solo, BlockerReports(cs, finders, current, index, n), current);
        f := RecordBlockers(f, cs, finders, current, index);
      }
      index := index + 1;
    }
    var first := FirstPass(cs, finders, current, n);
    assert first + [] == first;
    var left := 0;
    while left < n
      invariant 0 <= left <= n
      invariant f == Fold(NOTHING, first + SecondPass(cs, finders, current, left), current)
    {
      if cs[left].active {
        var second := SecondPass(cs, finders, current, left);
        var pairs := PairReports(cs, finders, current, left, n);
        FoldAppends(NOTHING, first + second, pairs, current);
        assert first + (second + pairs) == (first + second) + pairs;
        f := RecordPairs(f, cs, finders, current, left);
      }
      left := left + 1;
    }
  }

  lemma FoldNone(f: Found, current: real)
    ensures Fold(f, [], current) == f
  {
  }

  // ---------- What a round finds ----------

  predicate OfMoving(c: Contact, cs: seq<Candidate>, current: real) {
    && c.participants != [] && current <= c.time <= 1.0
    && forall p :: p in c.participants ==> p < |cs| && cs[p].active
  }

  predicate AllOfMoving(reports: seq<Contact>, cs: seq<Candidate>, current: real) {
    forall c :: c in reports ==> OfMoving(c, cs, current)
  }

  lemma GlobalTimeWithin(current: real, local: real)
    requires 0.0 <= current <= 1.0
    ensures current <= GlobalTime(current, local) <= 1.0
  {
    hide Share;
    Part(1.0 - current, Clamp(local, 0.0, 1.0));
  }

  lemma Part(whole: real, part: real)
    requires whole >= 0.0 && 0.0 <= part <= 1.0
    ensures 0.0 <= Share(whole, part) <= whole
  {
    assert whole * (1.0 - part) >= 0.0;
  }

  lemma {:induction false} SoloOfMoving(cs: seq<Candidate>, finders: Finders, current: real, i: nat, upTo: nat)
    requires 0.0 <= current <= 1.0 && i < |cs| && cs[i].active && upTo <= |finders.solo(cs[i], current)|
    ensures AllOfMoving(SoloReports(cs, finders, current, i, upTo), cs, current)
  {
    hide GlobalTime;
    if upTo > 0 {
      SoloOfMoving(cs, finders, current, i, upTo - 1);
      GlobalTimeWithin(current, finders.solo(cs[i], current)[upTo - 1]);
    }
  }

  lemma {:induction false} BlockersOfMoving(cs: seq<Candidate>, finders: Finders, current: real, i: nat, upTo: nat)
    requires 0.0 <= current <= 1.0 && i < |cs| && cs[i].active && upTo <= |cs|
    ensures AllOfMoving(BlockerReports(cs, finders, current, i, upTo), cs, current)
  {
    hide GlobalTime;
    if upTo > 0 {
      BlockersOfMoving(cs, finders, current, i, upTo - 1);
      if finders.blocker(cs[i], cs[upTo - 1], current).Some? {
        GlobalTimeWithin(current, finders.blocker(cs[i], cs[upTo - 1], current).value);
      }
    }
  }

  lemma {:induction false} PairsOfMoving(cs: seq<Candidate>, finders: Finders, current: real, left: nat, upTo: nat)
    requires 0.0 <= current <= 1.0 && left < |cs| && cs[left].active && left < upTo <= |cs|
    ensures AllOfMoving(PairReports(cs, finders, current, left, upTo), cs, current)
    decreases upTo
  {
    hide GlobalTime;
    if upTo > left + 1 {
      PairsOfMoving(cs, finders, current, left, upTo - 1);
      if finders.pair(cs[left], cs[upTo - 1], current).Some? {
        GlobalTimeWithin(current, finders.pair(cs[left], cs[upTo - 1], current).value);
      }
    }
  }

  lemma {:induction false} PassesOfMoving(cs: seq<Candidate>, finders: Finders, current: real, upTo: nat)
    requires 0.0 <= current <= 1.0 && upTo <= |cs|
    ensures AllOfMoving(FirstPass(cs, finders, current, upTo), cs, current)
    ensures AllOfMoving(SecondPass(cs, finders, current, upTo), cs, current)
  {
    hide SoloReports, BlockerReports, PairReports, OfMoving;
    if upTo > 0 {
      var i := upTo - 1;
      PassesOfMoving(cs, finders, current, i);
      if cs[i].active {
        SoloOfMoving(cs, finders, current, i, |finders.solo(cs[i], current)|);
        BlockersOfMoving(cs, finders, current, i, |cs|);
        PairsOfMoving(cs, finders, current, i, |cs|);
      }
    }
  }

  /**
   The recorded time is within the tolerance of the earliest report, and its contacts within it of the recorded time;
   of the reports up to the recorded time none is missing.
   */
  ghost predicate FoundIn(f: Found, reports: seq<Contact>) {
    && (f.earliest.None? <==> reports == [])
    && (f.earliest.None? ==> f.contacts == [])
    && (f.earliest.Some? ==>
          && f.contacts != []
          && (exists c :: c in reports && c.time == f.earliest.value)
          && (forall c :: c in reports ==> f.earliest.value - TIME_EPS <= c.time)
          && (forall c :: c in f.contacts ==> c in reports && AbsReal(c.time - f.earliest.value) <= TIME_EPS)
          && (forall c :: c in reports && c.time <= f.earliest.value ==> c in f.contacts))
  }

  lemma {:induction false} FoldFinds(reports: seq<Contact>, cs: seq<Candidate>, current: real)
    requires AllOfMoving(reports, cs, current)
    ensures FoundIn(Fold(NOTHING, reports, current), reports)
    decreases |reports|
  {
    if reports != [] {
      var init := reports[..|reports| - 1];
      assert forall c :: c in init ==> c in reports;
      FoldFinds(init, cs, current);
      assert reports == init + [reports[|reports| - 1]];
      assert OfMoving(reports[|reports| - 1], cs, current);
      RecordFinds(Fold(NOTHING, init, current), init, reports[|reports| - 1], current);
    }
  }

  lemma RecordFinds(f: Found, reports: seq<Contact>, c: Contact, current: real)
    requires FoundIn(f, reports) && current <= c.time <= 1.0
    ensures FoundIn(Record(f, c, current), reports + [c])
  {
    var g := Record(f, c, current);
    var all := reports + [c];
    assert c in all;
    assert forall d :: d in reports ==> d in all;
    if f.earliest.Some? && !(c.time < f.earliest.value - TIME_EPS) {
      var d :| d in reports && d.time == f.earliest.value;
      assert d in all;
    }
  }

  /** Everything a round of the loop may rely on. */
  lemma RoundFinds(cs: seq<Candidate>, finders: Finders, current: real)
    requires 0.0 <= current <= 1.0
    ensures var f := Round(cs, finders, current);
      && FoundIn(f, Reports(cs, finders, current)) && AllOfMoving(Reports(cs, finders, current), cs, current)
      && (f.earliest.Some? ==> current <= f.earliest.value <= 1.0 && f.contacts != [] && AllOfMoving(f.contacts, cs, current))
  {
    hide FirstPass, SecondPass, Fold, Record;
    PassesOfMoving(cs, finders, current, |cs|);
    FoldFinds(Reports(cs, finders, current), cs, current);
  }

  // ---------- Which contacts are reported ----------

  ghost predicate SoloContact(c: Contact, cs: seq<Candidate>, finders: Finders, current: real, i: nat, k: nat) {
    && i < |cs| && cs[i].active && k < |finders.solo(cs[i], current)|
    && c == Contact(GlobalTime(current, finders.solo(cs[i], current)[k]), [i])
  }

  ghost predicate BlockerContact(c: Contact, cs: seq<Candidate>, finders: Finders, current: real, i: nat, j: nat) {
    && i < |cs| && j < |cs| && cs[i].active && !cs[j].active && cs[i].player != cs[j].player
    && finders.blocker(cs[i], cs[j], current).Some?
    && c == Contact(GlobalTime(current, finders.blocker(cs[i], cs[j], current).value), [i])
  }

  ghost predicate PairContact(c: Contact, cs: seq<Candidate>, finders: Finders, current: real, i: nat, j: nat) {
    && i < j < |cs| && cs[i].active && cs[j].active
    && finders.pair(cs[i], cs[j], current).Some?
    && c == Contact(GlobalTime(current, finders.pair(cs[i], cs[j], current).value), [i, j])
  }

  /**
   A round reports exactly the contacts of each moving dasher with what does not dash, of each with each stopped
   dasher, and of each two moving ones.
   */
  lemma ReportsExact(cs: seq<Candidate>, finders: Finders, current: real, c: Contact)
    ensures c in Reports(cs, finders, current) <==>
              || (exists i: nat, k: nat :: SoloContact(c, cs, finders, current, i, k))
              || (exists i: nat, j: nat :: BlockerContact(c, cs, finders, current, i, j))
              || (exists i: nat, j: nat :: PairContact(c, cs, finders, current, i, j))
  {
    hide SoloContact, BlockerContact, PairContact, FirstPass, SecondPass;
    FirstPassExact(cs, finders, current, |cs|, c);
    SecondPassExact(cs, finders, current, |cs|, c);
    forall i: nat, k: nat | SoloContact(c, cs, finders, current, i, k) ensures i < |cs| { SoloInner(c, cs, finders, current, i, k); }
    forall i: nat, j: nat | BlockerContact(c, cs, finders, current, i, j) ensures i < |cs| { BlockerInner(c, cs, finders, current, i, j); }
    forall i: nat, j: nat | PairContact(c, cs, finders, current, i, j) ensures i < |cs| { PairInner(c, cs, finders, current, i, j); }
  }

  lemma {:induction false} SoloExact(cs: seq<Candidate>, finders: Finders, current: real, i: nat, upTo: nat, c: Contact)
    requires i < |cs| && cs[i].active && upTo <= |finders.solo(cs[i], current)|
    ensures c in SoloReports(cs, finders, current, i, upTo) <==>
              exists k: nat :: k < upTo && SoloContact(c, cs, finders, current, i, k)
  {
    hide GlobalTime;
    if upTo > 0 {
      SoloExact(cs, finders, current, i, upTo - 1, c);
      assert SoloContact(c, cs, finders, current, i, upTo - 1)
        <==> c == Contact(GlobalTime(current, finders.solo(cs[i], current)[upTo - 1]), [i]);
    }
  }

  lemma {:induction false} BlockersExact(cs: seq<Candidate>, finders: Finders, current: real, i: nat, upTo: nat, c: Contact)
    requires i < |cs| && cs[i].active && upTo <= |cs|
    ensures c in BlockerReports(cs, finders, current, i, upTo) <==>
              exists j: nat :: j < upTo && BlockerContact(c, cs, finders, current, i, j)
  {
    hide BlockerReports, BlockerContact;
    if upTo == 0 {
      assert BlockerReports(cs, finders, current, i, 0) == [] by { NoReports(cs, finders, current, i); }
    } else {
      BlockersExact(cs, finders, current, i, upTo - 1, c);
      NextBlocker(cs, finders, current, i, upTo - 1, c);
    }
  }

  lemma NoReports(cs: seq<Candidate>, finders: Finders, current: real, i: nat)
    requires i < |cs|
    ensures BlockerReports(cs, finders, current, i, 0) == PairReports(cs, finders, current, i, i + 1) == []
  {
  }

  lemma NextBlocker(cs: seq<Candidate>, finders: Finders, current: real, i: nat, j: nat, c: Contact)
    requires i < |cs| && cs[i].active && j < |cs|
    ensures c in BlockerReports(cs, finders, current, i, j + 1) <==>
              c in BlockerReports(cs, finders, current, i, j) || BlockerContact(c, cs, finders, current, i, j)
  {
    hide GlobalTime;
  }

  lemma NextPair(cs: seq<Candidate>, finders: Finders, current: real, i: nat, j: nat, c: Contact)
    requires i < j < |cs| && cs[i].active
    ensures c in PairReports(cs, finders, current, i, j + 1) <==>
              c in PairReports(cs, finders, current, i, j) || PairContact(c, cs, finders, current, i, j)
  {
    hide GlobalTime;
  }

  lemma {:induction false} PairsExact(cs: seq<Candidate>, finders: Finders, current: real, i: nat, upTo: nat, c: Contact)
    requires i < |cs| && cs[i].active && i < upTo <= |cs|
    ensures c in PairReports(cs, finders, current, i, upTo) <==>
              exists j: nat :: j < upTo && PairContact(c, cs, finders, current, i, j)
    decreases upTo
  {
    hide PairReports, PairContact;
    if upTo == i + 1 {
      NoReports(cs, finders, current, i);
      forall j: nat | j < upTo ensures !PairContact(c, cs, finders, current, i, j) { NotBefore(c, cs, finders, current, i, j); }
    } else {
      PairsExact(cs, finders, current, i, upTo - 1, c);
      NextPair(cs, finders, current, i, upTo - 1, c);
    }
  }

  lemma NotBefore(c: Contact, cs: seq<Candidate>, finders: Finders, current: real, i: nat, j: nat)
    requires j <= i
    ensures !PairContact(c, cs, finders, current, i, j)
  {
  }

  lemma {:induction false} FirstPassExact(cs: seq<Candidate>, finders: Finders, current: real, upTo: nat, c: Contact)
    requires upTo <= |cs|
    ensures c in FirstPass(cs, finders, current, upTo) <==>
              || (exists i: nat, k: nat :: i < upTo && SoloContact(c, cs, finders, current, i, k))
              || (exists i: nat, j: nat :: i < upTo && BlockerContact(c, cs, finders, current, i, j))
  {
    hide SoloReports, BlockerReports, SoloContact, BlockerContact;
    if upTo > 0 {
      var i := upTo - 1;
      FirstPassExact(cs, finders, current, i, c);
      if cs[i].active {
        SoloExact(cs, finders, current, i, |finders.solo(cs[i], current)|, c);
        BlockersExact(cs, finders, current, i, |cs|, c);
        forall k: nat | SoloContact(c, cs, finders, current, i, k) ensures k < |finders.solo(cs[i], current)| {
          SoloInner(c, cs, finders, current, i, k);
        }
        forall j: nat | BlockerContact(c, cs, finders, current, i, j) ensures j < |cs| {
          BlockerInner(c, cs, finders, current, i, j);
        }
      } else {
        forall k: nat | SoloContact(c, cs, finders, current, i, k) ensures false { SoloInner(c, cs, finders, current, i, k); }
        forall j: nat | BlockerContact(c, cs, finders, current, i, j) ensures false { BlockerInner(c, cs, finders, current, i, j); }
      }
    }
  }

  lemma SoloInner(c: Contact, cs: seq<Candidate>, finders: Finders, current: real, i: nat, k: nat)
    requires SoloContact(c, cs, finders, current, i, k)
    ensures i < |cs| && cs[i].active && k < |finders.solo(cs[i], current)|
  {
  }

  lemma BlockerInner(c: Contact, cs: seq<Candidate>, finders: Finders, current: real, i: nat, j: nat)
    requires BlockerContact(c, cs, finders, current, i, j)
    ensures i < |cs| && cs[i].active && j < |cs|
  {
  }

  lemma PairInner(c: Contact, cs: seq<Candidate>, finders: Finders, current: real, i: nat, j: nat)
    requires PairContact(c, cs, finders, current, i, j)
    ensures i < |cs| && cs[i].active && j < |cs|
  {
  }

  lemma {:induction false} SecondPassExact(cs: seq<Candidate>, finders: Finders, current: real, upTo: nat, c: Contact)
    requires upTo <= |cs|
    ensures c in SecondPass(cs, finders, current, upTo) <==>
              exists i: nat, j: nat :: i < upTo && PairContact(c, cs, finders, current, i, j)
  {
    hide PairReports, PairContact;
    if upTo > 0 {
      var i := upTo - 1;
      SecondPassExact(cs, finders, current, i, c);
      if cs[i].active {
        PairsExact(cs, finders, current, i, |cs|, c);
        forall j: nat | PairContact(c, cs, finders, current, i, j) ensures j < |cs| { PairInner(c, cs, finders, current, i, j); }
      } else {
        forall j: nat | PairContact(c, cs, finders, current, i, j) ensures false { PairInner(c, cs, finders, current, i, j); }
      }
    }
  }

  /** How far along its way a dasher is at a time. */
  function WayAt(distance: real, time: real): real {
    Share(distance, time)
  }

  /**
   The local time of a contact on the way that is left becomes the time at which the dasher is there: what it has
   gone by then is what it had gone before, and the contact's part of the rest.
   */
  lemma GlobalTimeIsThere(distance: real, current: real, local: real)
    requires 0.0 <= local <= 1.0
    ensures WayAt(distance, GlobalTime(current, local))
         == WayAt(distance, current) + Share(distance - WayAt(distance, current), local)
  {
    assert GlobalTime(current, local) == current + (1.0 - current) * local;
    var gone := distance * current;
    assert distance * ((1.0 - current) * local) == (distance - gone) * local;
  }

  // ---------- The event loop ----------

  function Active(cs: seq<Candidate>): set<nat> {
    set i | 0 <= i < |cs| && cs[i].active
  }

  predicate Stops(contacts: seq<Contact>, i: nat) {
    exists c :: c in contacts && i in c.participants
  }

  /** Where a dasher stops that meets something at time `t`. */
  function Travel(distance: real, t: real): real {
    Max(Share(distance, t) - COLLISION_EPS, 0.0)
  }

  function Stopped(c: Candidate, time: real): Candidate {
    c.(position := AddScaled(c.origin, c.direction, Travel(c.distance, time)), active := false, collided := true)
  }

  function AfterRound(cs: seq<Candidate>, f: Found): seq<Candidate>
    requires f.earliest.Some?
  {
    seq(|cs|, i requires 0 <= i < |cs| => if cs[i].active && Stops(f.contacts, i) then Stopped(cs[i], f.earliest.value) else cs[i])
  }

  function Arrived(cs: seq<Candidate>): seq<Candidate> {
    seq(|cs|, i requires 0 <= i < |cs| => if cs[i].active then cs[i].(position := cs[i].target, active := false) else cs[i])
  }

  /** A round with a contact stops at least one dasher. */
  lemma RoundStops(cs: seq<Candidate>, finders: Finders, current: real)
    requires 0.0 <= current <= 1.0 && Round(cs, finders, current).earliest.Some?
    ensures |Active(AfterRound(cs, Round(cs, finders, current)))| < |Active(cs)|
  {
    hide Round, Stopped;
    var f := Round(cs, finders, current);
    RoundFinds(cs, finders, current);
    var contact := f.contacts[0];
    var p := contact.participants[0];
    assert OfMoving(contact, cs, current) && contact in f.contacts && p in contact.participants;
    assert Stops(f.contacts, p);
    assert !Stopped(cs[p], f.earliest.value).active by { StoppedStays(cs[p], f.earliest.value); }
    assert Active(AfterRound(cs, f)) <= Active(cs) - {p} by { StoppedInactive(cs, f); }
    ProperSubset(Active(AfterRound(cs, f)), Active(cs), p);
  }

  lemma StoppedStays(c: Candidate, time: real)
    ensures !Stopped(c, time).active
  {
  }

  lemma StoppedInactive(cs: seq<Candidate>, f: Found)
    requires f.earliest.Some?
    ensures Active(AfterRound(cs, f)) == set i | i in Active(cs) && !Stops(f.contacts, i)
  {
  }

  lemma ProperSubset(a: set<nat>, b: set<nat>, p: nat)
    requires a <= b - {p} && p in b
    ensures |a| < |b|
  {
    SubsetSize(a, b - {p});
  }

  lemma {:induction false} SubsetSize(a: set<nat>, b: set<nat>)
    requires a <= b
    ensures |a| <= |b|
  {
    if a != {} {
      var x :| x in a;
      SubsetSize(a - {x}, b - {x});
    }
  }

  /** The whole loop; it ends because every round with a contact stops somebody. */
  function Resolved(cs: seq<Candidate>, finders: Finders, current: real): seq<Candidate>
    requires 0.0 <= current <= 1.0
    decreases |Active(cs)|
  {
    if current >= 1.0 - TIME_EPS then Arrived(cs)
    else
      var f := Round(cs, finders, current);
      if f.earliest.None? then Arrived(cs)
      else
        RoundStops(cs, finders, current);
        RoundFinds(cs, finders, current);
        Resolved(AfterRound(cs, f), finders, Max(current, f.earliest.value))
  }

  method ApplySkillDashes(candidates: array<Candidate>, finders: Finders)
    modifies candidates
    ensures candidates[..] == Resolved(old(candidates[..]), finders, 0.0)
  {
    hide Round, AfterRound, Arrived, Active;
    var current := 0.0;
    while current < 1.0 - TIME_EPS
      invariant 0.0 <= current <= 1.0
      invariant Resolved(candidates[..], finders, current) == Resolved(old(candidates[..]), finders, 0.0)
      decreases |Active(candidates[..])|
    {
      var f := EarliestContacts(candidates[..], finders, current);
      if f.earliest.None? {
        break;
      }
      RoundStops(candidates[..], finders, current);
      RoundFinds(candidates[..], finders, current);
      StopParticipants(candidates, f);
      current := Max(current, f.earliest.value);
    }
    SettleAll(candidates);
  }

  /** The dashers that are still moving reach their targets. */
  method SettleAll(candidates: array<Candidate>)
    modifies candidates
    ensures candidates[..] == Arrived(old(candidates[..]))
  {
    var i := 0;
    while i < candidates.Length
      invariant 0 <= i <= candidates.Length
      invariant forall k :: i <= k < candidates.Length ==> candidates[k] == old(candidates[k])
      invariant forall k :: 0 <= k < i ==> candidates[k] == Arrived(old(candidates[..]))[k]
    {
      if candidates[i].active {
        candidates[i] := candidates[i].(position := candidates[i].target, active := false);
      }
      i := i + 1;
    }
  }

  method StopParticipants(candidates: array<Candidate>, f: Found)
    requires f.earliest.Some?
    requires forall c :: c in f.contacts ==>
               AbsReal(c.time - f.earliest.value) <= TIME_EPS && forall p :: p in c.participants ==> p < candidates.Length
    modifies candidates
    ensures candidates[..] == AfterRound(old(candidates[..]), f)
  {
    hide Stopped;
    var stop := new bool[candidates.Length](i => false);
    var k := 0;
    while k < |f.contacts|
      invariant 0 <= k <= |f.contacts|
      invariant candidates[..] == old(candidates[..])
      invariant forall i :: 0 <= i < stop.Length ==> (stop[i] <==> Stops(f.contacts[..k], i))
    {
      var c := f.contacts[k];
      assert c in f.contacts && f.contacts[..k + 1] == f.contacts[..k] + [c];
      if AbsReal(c.time - f.earliest.value) <= TIME_EPS {
        var p := 0;
        while p < |c.participants|
          invariant 0 <= p <= |c.participants| && candidates[..] == old(candidates[..])
          invariant forall i :: 0 <= i < stop.Length ==> (stop[i] <==> Stops(f.contacts[..k], i) || i in c.participants[..p])
        {
          var participant := c.participants[p];
          assert participant in c.participants;
          stop[participant] := true;
          p := p + 1;
        }
        assert c.participants[..p] == c.participants;
      }
      k := k + 1;
    }
    assert f.contacts[..k] == f.contacts;
    assert forall j :: 0 <= j < candidates.Length ==> candidates[j] == candidates[..][j];
    var i := 0;
    while i < candidates.Length
      invariant 0 <= i <= candidates.Length
      invariant forall j :: 0 <= j < stop.Length ==> (stop[j] <==> Stops(f.contacts, j))
      invariant forall j :: i <= j < candidates.Length ==> candidates[j] == old(candidates[j])
      invariant forall j :: 0 <= j < i ==> candidates[j] == AfterRound(old(candidates[..]), f)[j]
    {
      if candidates[i].active && stop[i] {
        candidates[i] := Stopped(candidates[i], f.earliest.value);
      }
      i := i + 1;
    }
  }

  // ---------- What the loop promises ----------

  predicate Starting(c: Candidate) {
    c.active && !c.collided && c.distance > 0.0 && c.position == c.origin && c.target == AddScaled(c.origin, c.direction, c.distance)
  }

  predicate SameDash(a: Candidate, b: Candidate) {
    && a.player == b.player && a.origin == b.origin && a.target == b.target
    && a.direction == b.direction && a.distance == b.distance && a.radius == b.radius
  }

  /** A dasher that is done: at its target, or stopped short of a contact at some time not before `since`. */
  ghost predicate Done(c: Candidate, since: real) {
    && !c.active
    && if !c.collided then c.position == c.target
       else exists t :: since <= t <= 1.0 && c.position == AddScaled(c.origin, c.direction, Travel(c.distance, t))
  }

  /** From any time on: the done stay as they are, and every moving dasher ends at its target or at a later contact. */
  lemma {:induction false} ResolvedSettles(cs: seq<Candidate>, finders: Finders, current: real)
    requires 0.0 <= current <= 1.0
    requires forall i :: 0 <= i < |cs| && cs[i].active ==> !cs[i].collided
    ensures var after := Resolved(cs, finders, current);
      && |after| == |cs|
      && (forall i :: 0 <= i < |cs| && !cs[i].active ==> after[i] == cs[i])
      && (forall i :: 0 <= i < |cs| && cs[i].active ==> SameDash(cs[i], after[i]) && Done(after[i], current))
    decreases |Active(cs)|
  {
    hide Round, Travel, AddScaled, Active;
    if current < 1.0 - TIME_EPS {
      var f := Round(cs, finders, current);
      if f.earliest.Some? {
        RoundStops(cs, finders, current);
        RoundFinds(cs, finders, current);
        var time := f.earliest.value;
        ResolvedSettles(AfterRound(cs, f), finders, Max(current, time));
        assert Resolved(cs, finders, current) == Resolved(AfterRound(cs, f), finders, time);
        forall i | 0 <= i < |cs| && cs[i].active
          ensures SameDash(cs[i], Resolved(cs, finders, current)[i]) && Done(Resolved(cs, finders, current)[i], current)
        {
          if Stops(f.contacts, i) {
            StoppedIsDone(cs[i], time, current);
          }
        }
      }
    }
  }

  lemma StoppedIsDone(c: Candidate, time: real, since: real)
    requires since <= time <= 1.0
    ensures SameDash(c, Stopped(c, time)) && Done(Stopped(c, time), since)
  {
  }

  predicate IsAlong(c: Candidate, travel: real) {
    c.position.x - c.origin.x == c.direction.x * travel && c.position.y - c.origin.y == c.direction.y * travel
  }

  lemma AddScaledIsAlong(c: Candidate, travel: real)
    ensures c.position == AddScaled(c.origin, c.direction, travel) <==> IsAlong(c, travel)
  {
  }

  /** A done dasher has gone some way along its direction, never more than its distance, and all of it unless it met something. */
  ghost predicate Travelled(c: Candidate) {
    exists travel :: 0.0 <= travel <= c.distance && IsAlong(c, travel) && (!c.collided ==> travel == c.distance)
  }

  lemma DoneTravelled(c: Candidate)
    requires Done(c, 0.0) && c.distance > 0.0 && c.target == AddScaled(c.origin, c.direction, c.distance)
    ensures Travelled(c)
  {
    hide AddScaled, Share, IsAlong;
    if c.collided {
      var t :| 0.0 <= t <= 1.0 && c.position == AddScaled(c.origin, c.direction, Travel(c.distance, t));
      Part(c.distance, t);
      var travel := Travel(c.distance, t);
      AddScaledIsAlong(c, travel);
      assert 0.0 <= travel <= c.distance;
    } else {
      AddScaledIsAlong(c, c.distance);
    }
  }

  /**
   A whole tick: every dasher stays on its segment, those that meet nothing reach their targets, and the
   earliest contact of all stops exactly where it happens those who are in it, while nobody stops earlier.
   */
  lemma DashesResolve(cs: seq<Candidate>, finders: Finders)
    requires forall i :: 0 <= i < |cs| ==> Starting(cs[i])
    ensures var after := Resolved(cs, finders, 0.0);
      && |after| == |cs|
      && (forall i :: 0 <= i < |cs| ==> SameDash(cs[i], after[i]) && !after[i].active && Travelled(after[i]))
    ensures var after := Resolved(cs, finders, 0.0);
      var f := Round(cs, finders, 0.0);
      if f.earliest.None? then forall i :: 0 <= i < |cs| ==> !after[i].collided
      else forall i :: 0 <= i < |cs| ==>
             && (Stops(f.contacts, i) ==> after[i] == Stopped(cs[i], f.earliest.value))
             && Done(after[i], f.earliest.value)
  {
    hide Round, AddScaled, Travel, Active;
    ResolvedSettles(cs, finders, 0.0);
    forall i | 0 <= i < |cs|
      ensures Travelled(Resolved(cs, finders, 0.0)[i])
    {
      assert Starting(cs[i]);
      DoneTravelled(Resolved(cs, finders, 0.0)[i]);
    }
    var f := Round(cs, finders, 0.0);
    if f.earliest.Some? {
      RoundStops(cs, finders, 0.0);
      RoundFinds(cs, finders, 0.0);
      var after := AfterRound(cs, f);
      var time := f.earliest.value;
      assert Resolved(cs, finders, 0.0) == Resolved(after, finders, time);
      ResolvedSettles(after, finders, time);
      forall i | 0 <= i < |cs|
        ensures Done(Resolved(cs, finders, 0.0)[i], time)
        ensures Stops(f.contacts, i) ==> Resolved(cs, finders, 0.0)[i] == Stopped(cs[i], time)
      {
        assert Starting(cs[i]);
        if Stops(f.contacts, i) {
          StoppedIsDone(cs[i], time, time);
        }
      }
    }
  }
}

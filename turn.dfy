/**
 * One turn of the world: the turn counter advances, every listed cell's
 * occupant acts, a random peep may arrive, and then every peep alive at
 * that point ages by one year or dies.
 */
module Turn {
  import opened Outcomes
  import opened Locations
  import opened DoubleMap
  import opened Peeps
  import opened Population
  import opened WorldModel
  import opened Actions

  /**
   * Advances `w` by one turn. `locs` lists the cells whose occupants act,
   * in order, and `moveDraws(k)` is the random draw of the `k`-th of them;
   * `birthDraw` and `genderChoice` are the random peep's draws;
   * `deathDraw(i)` is the death draw of the `i`-th peep of the list. The
   * ghost results record the actions as `DoActions` does (against the
   * peeps' state `start` at the beginning of the turn), the peep list
   * `acted` after them and its alive count `aliveActed`, which decides the
   * random peep.
   */
  method NextTurn(w: World, locs: seq<Location>, moveDraws: nat -> MoveDraw, birthDraw: bool,
                  genderChoice: GenderChoice, deathDraw: nat -> bool)
    returns (ran: seq<Option<Effect>>, ghost steps: seq<Step>, ghost grids: seq<Bindings<Peep>>,
             ghost start: map<Peep, PeepState>, ghost acted: seq<Peep>, ghost aliveActed: nat)
    requires w.Valid()
    modifies w, w.grid, w.peeps
    ensures w.Valid()
    ensures w.turn == old(w.turn) + 1
    // the actions, at the new turn, from the state at the beginning of the turn
    ensures start == old(Snapshot(w.peeps))
    ensures |ran| == |locs| && Recorded(w.settings, w.allowMoves, old(w.turn) + 1, locs, moveDraws, start, ran, steps, grids)
    ensures grids[0] == old(w.grid.Model())
    // the actions only append the recorded newborns, all alive
    ensures |old(w.peeps)| <= |acted| && acted[..|old(w.peeps)|] == old(w.peeps)
    ensures |acted| == |old(w.peeps)| + |Births(steps)|
    ensures aliveActed == old(CountAlive(w.peeps)) + |Births(steps)|
    // every peep ends with the look turn and, for a peep of the start, the place the actions left it with
    ensures forall p :: p in acted ==> p.lookTurn == (if p in Looked(ran, steps) then w.turn
                                                      else if p in old(w.peeps) then old(p.lookTurn) else 0)
    ensures forall p :: p in old(w.peeps) ==> p.location == PlaceAfter(ran, steps, p, old(p.location))
    // the random peep, at the origin, after the actions
    ensures var born := birthDraw && aliveActed < w.settings.newPeepMax && aliveActed < w.settings.maxPeeps;
            && |w.peeps| == |acted| + (if born then 1 else 0) && w.peeps[..|acted|] == acted
            && (born ==>
                  var p := w.peeps[|acted|];
                  && p.id == |acted| && p.gender == ChosenGender("", genderChoice)
                  && p.location == Origin && p.lookTurn == 0
                  && w.grid.Model() == Assign(grids[|locs|], p, Origin))
            && (!born ==> w.grid.Model() == grids[|locs|])
    // then every peep alive ages or dies
    ensures forall i :: 0 <= i < |old(w.peeps)| ==>
              if old(w.peeps[i].isAlive)
              then (w.peeps[i].age, w.peeps[i].isAlive) == AgeOutcome(w.settings.maxAge, old(w.peeps[i].age), deathDraw(i))
              else w.peeps[i].age == old(w.peeps[i].age) && !w.peeps[i].isAlive
    ensures forall i :: |old(w.peeps)| <= i < |w.peeps| ==>
              fresh(w.peeps[i]) && (w.peeps[i].age, w.peeps[i].isAlive) == AgeOutcome(w.settings.maxAge, 0, deathDraw(i))
  {
    ghost var alive, snapshot := CountAlive(w.peeps), Snapshot(w.peeps);
    w.turn := w.turn + 1;
    assert CountAlive(w.peeps) == alive && Snapshot(w.peeps) == snapshot;
    ran, steps, grids, start, acted, aliveActed := Advance(w, locs, moveDraws, birthDraw, genderChoice, deathDraw, w.turn);
  }

  /**
   * The body of a turn once its counter has advanced to `turn`: the
   * actions, then the random peep and the ageing.
   */
  method Advance(w: World, locs: seq<Location>, moveDraws: nat -> MoveDraw, birthDraw: bool,
                 genderChoice: GenderChoice, deathDraw: nat -> bool, ghost turn: int)
    returns (ran: seq<Option<Effect>>, ghost steps: seq<Step>, ghost grids: seq<Bindings<Peep>>,
             ghost start: map<Peep, PeepState>, ghost acted: seq<Peep>, ghost aliveActed: nat)
    requires w.Valid() && w.turn == turn
    modifies w`peeps, w.grid, w.peeps
    ensures w.Valid()
    ensures w.turn == turn
    // the actions, at this turn, from the state at the beginning of the turn
    ensures start == old(Snapshot(w.peeps))
    ensures |ran| == |locs| && Recorded(w.settings, w.allowMoves, turn, locs, moveDraws, start, ran, steps, grids)
    ensures grids[0] == old(w.grid.Model())
    // the actions only append the recorded newborns, all alive
    ensures |old(w.peeps)| <= |acted| && acted[..|old(w.peeps)|] == old(w.peeps)
    ensures |acted| == |old(w.peeps)| + |Births(steps)|
    ensures aliveActed == old(CountAlive(w.peeps)) + |Births(steps)|
    // every peep ends with the look turn and, for a peep of the start, the place the actions left it with
    ensures forall p :: p in acted ==> p.lookTurn == (if p in Looked(ran, steps) then turn
                                                      else if p in old(w.peeps) then old(p.lookTurn) else 0)
    ensures forall p :: p in old(w.peeps) ==> p.location == PlaceAfter(ran, steps, p, old(p.location))
    // the random peep, at the origin, after the actions
    ensures var born := birthDraw && aliveActed < w.settings.newPeepMax && aliveActed < w.settings.maxPeeps;
            && |w.peeps| == |acted| + (if born then 1 else 0) && w.peeps[..|acted|] == acted
            && (born ==>
                  var p := w.peeps[|acted|];
                  && p.id == |acted| && p.gender == ChosenGender("", genderChoice)
                  && p.location == Origin && p.lookTurn == 0
                  && w.grid.Model() == Assign(grids[|locs|], p, Origin))
            && (!born ==> w.grid.Model() == grids[|locs|])
    // then every peep alive ages or dies
    ensures forall i :: 0 <= i < |old(w.peeps)| ==>
              if old(w.peeps[i].isAlive)
              then (w.peeps[i].age, w.peeps[i].isAlive) == AgeOutcome(w.settings.maxAge, old(w.peeps[i].age), deathDraw(i))
              else w.peeps[i].age == old(w.peeps[i].age) && !w.peeps[i].isAlive
    ensures forall i :: |old(w.peeps)| <= i < |w.peeps| ==>
              fresh(w.peeps[i]) && (w.peeps[i].age, w.peeps[i].isAlive) == AgeOutcome(w.settings.maxAge, 0, deathDraw(i))
  {
    ran, steps, grids, start, aliveActed := CountedActions(w, locs, moveDraws, turn);
    acted := w.peeps;
    ArriveAndAge(w, birthDraw, genderChoice, deathDraw);
  }

  /**
   * The end of a turn: a random peep may arrive at the origin (when the
   * draw allows it and the alive count is below both caps), and then every
   * peep alive ages by one year or dies. No peep there before moves or
   * looks around.
   */
  method ArriveAndAge(w: World, birthDraw: bool, genderChoice: GenderChoice, deathDraw: nat -> bool)
    requires w.Valid()
    modifies w`peeps, w.grid, w.peeps
    ensures w.Valid()
    ensures var born := birthDraw && old(CountAlive(w.peeps)) < w.settings.newPeepMax
                        && old(CountAlive(w.peeps)) < w.settings.maxPeeps;
            && |w.peeps| == |old(w.peeps)| + (if born then 1 else 0) && w.peeps[..|old(w.peeps)|] == old(w.peeps)
            && (born ==>
                  var p := w.peeps[|old(w.peeps)|];
                  && p.id == |old(w.peeps)| && p.gender == ChosenGender("", genderChoice)
                  && p.location == Origin && p.lookTurn == 0
                  && w.grid.Model() == Assign(old(w.grid.Model()), p, Origin))
            && (!born ==> w.grid.Model() == old(w.grid.Model()))
    ensures forall i :: 0 <= i < |old(w.peeps)| ==>
              if old(w.peeps[i].isAlive)
              then (w.peeps[i].age, w.peeps[i].isAlive) == AgeOutcome(w.settings.maxAge, old(w.peeps[i].age), deathDraw(i))
              else w.peeps[i].age == old(w.peeps[i].age) && !w.peeps[i].isAlive
    ensures forall i :: |old(w.peeps)| <= i < |w.peeps| ==>
              fresh(w.peeps[i]) && (w.peeps[i].age, w.peeps[i].isAlive) == AgeOutcome(w.settings.maxAge, 0, deathDraw(i))
    ensures forall p :: p in old(w.peeps) ==> p.location == old(p.location) && p.lookTurn == old(p.lookTurn)
  {
    var _ := w.RandomPeep(birthDraw, genderChoice);
    ghost var arrived := w.peeps;
    AgePeeps(w, deathDraw);
    assert w.peeps == arrived;
    forall p | p in old(w.peeps)
      ensures p.location == old(p.location) && p.lookTurn == old(p.lookTurn)
    {
      var i :| 0 <= i < |old(w.peeps)| && old(w.peeps)[i] == p;
      assert arrived[i] == p;
    }
  }

  /**
   * `DoActions`, together with the alive count afterwards: the actions
   * keep every peep's liveness and add only the recorded newborns, all
   * alive, so the count grows by the number of births.
   */
  method CountedActions(w: World, locs: seq<Location>, draws: nat -> MoveDraw, ghost turn: int)
    returns (ran: seq<Option<Effect>>, ghost steps: seq<Step>, ghost grids: seq<Bindings<Peep>>,
             ghost start: map<Peep, PeepState>, ghost alive: nat)
    requires w.Valid() && w.turn == turn
    modifies w`peeps, w.grid, w.peeps
    ensures w.Valid()
    ensures w.Grown()
    ensures start == old(Snapshot(w.peeps))
    ensures |ran| == |locs| && Recorded(w.settings, w.allowMoves, turn, locs, draws, start, ran, steps, grids)
    ensures grids[0] == old(w.grid.Model()) && grids[|locs|] == w.grid.Model()
    ensures |w.peeps| == |old(w.peeps)| + |Births(steps)|
    ensures alive == CountAlive(w.peeps) == old(CountAlive(w.peeps)) + |Births(steps)|
    ensures forall p :: p in w.peeps ==> p.lookTurn == (if p in Looked(ran, steps) then turn
                                                        else if p in old(w.peeps) then old(p.lookTurn) else 0)
    ensures forall p :: p in old(w.peeps) ==> p in w.peeps
    ensures forall p :: p in old(w.peeps) ==> p.location == PlaceAfter(ran, steps, p, old(p.location))
  {
    ghost var flags := AliveFlags(w.peeps);
    CountAliveByFlags(w.peeps);
    ran, steps, grids, start := DoActions(w, locs, draws);
    alive := CountAlive(w.peeps);
    CountAliveGrown(w.peeps, flags);
  }

  /** Ages every peep alive now, in list order, with `deathDraw(i)` for the `i`-th. */
  method AgePeeps(w: World, deathDraw: nat -> bool)
    requires w.Valid()
    modifies w.peeps
    ensures forall i :: 0 <= i < |w.peeps| ==>
              if old(w.peeps[i].isAlive)
              then (w.peeps[i].age, w.peeps[i].isAlive) == AgeOutcome(w.settings.maxAge, old(w.peeps[i].age), deathDraw(i))
              else w.peeps[i].age == old(w.peeps[i].age) && !w.peeps[i].isAlive
    ensures forall i :: 0 <= i < |w.peeps| ==>
              w.peeps[i].location == old(w.peeps[i].location) && w.peeps[i].lookTurn == old(w.peeps[i].lookTurn)
  {
    for i := 0 to |w.peeps|
      invariant forall j :: 0 <= j < i ==>
                  if old(w.peeps[j].isAlive)
                  then (w.peeps[j].age, w.peeps[j].isAlive) == AgeOutcome(w.settings.maxAge, old(w.peeps[j].age), deathDraw(j))
                  else w.peeps[j].age == old(w.peeps[j].age) && !w.peeps[j].isAlive
      invariant forall j :: i <= j < |w.peeps| ==>
                  w.peeps[j].age == old(w.peeps[j].age) && w.peeps[j].isAlive == old(w.peeps[j].isAlive)
      invariant forall j :: 0 <= j < |w.peeps| ==>
                  w.peeps[j].location == old(w.peeps[j].location) && w.peeps[j].lookTurn == old(w.peeps[j].lookTurn)
    {
      var p := w.peeps[i];
      assert forall j :: 0 <= j < |w.peeps| && j != i ==> w.peeps[j].id != p.id;
      if p.isAlive {
        p.AgeOrDie(w.settings.maxAge, deathDraw(i));
      }
    }
  }
}

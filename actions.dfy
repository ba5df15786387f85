/**
 * Action arbitration: every occupant of a cell is offered the same fixed
 * list of candidate actions with priorities, the one with the strictly
 * highest priority seen first is chosen, and its effect is run.
 */
module Actions {
  import opened Outcomes
  import opened Locations
  import opened DoubleMap
  import opened Peeps
  import opened WorldModel

  /** What running a chosen action does. */
  datatype Effect = LookEffect | MoveEffect | NoOp

  type Action = string

  /** The candidate actions, in the order they are offered. */
  const ActionNames: seq<Action> := ["move", "skip", "look"]

  datatype PriorityAction = PriorityAction(p: int, a: Action, f: Effect)

  /** A draw of `rand.Intn(3)`. */
  type Choice3 = c: nat | c < 3

  /** The random draws one peep's turn consumes: its X and Y steps and the spawn draw of a meeting. */
  datatype MoveDraw = MoveDraw(xChoice: Choice3, yChoice: Choice3, spawn: bool)

  // ---------------------------------------------------------------------
  // Candidate priorities

  /**
   * Looking around wins over moving (10) unless the peep still remembers
   * its last look, that is, looked fewer than `remember` turns ago (1).
   */
  function LookAction(turn: int, lookTurn: int, remember: int): (pa: (int, Effect))
    ensures pa.1 == LookEffect
    ensures pa.0 == 10 <==> turn - lookTurn >= remember
    ensures pa.0 == 1 <==> turn - lookTurn < remember
  {
    if turn - lookTurn < remember then (1, LookEffect) else (10, LookEffect)
  }

  /** Moving sits strictly between a remembered look and a stale one. */
  function MoveAction(): (pa: (int, Effect))
    ensures pa.1 == MoveEffect
    ensures forall t, lt, rem :: LookAction(t, lt, rem).0 == 1 ==> LookAction(t, lt, rem).0 < pa.0
    ensures forall t, lt, rem :: LookAction(t, lt, rem).0 == 10 ==> pa.0 < LookAction(t, lt, rem).0
  {
    (5, MoveEffect)
  }

  /** Skipping does nothing, and no positive priority loses to it. */
  function SkipAction(): (pa: (int, Effect))
    ensures pa.1 == NoOp
    ensures pa.0 <= 0
  {
    (0, NoOp)
  }

  /** The priority and effect of the named action; an unknown name does nothing at priority 0. */
  function ActionPriority(a: Action, turn: int, lookTurn: int, remember: int): (pa: PriorityAction)
    ensures pa.a == a
    ensures a == "move" ==> (pa.p, pa.f) == MoveAction()
    ensures a == "look" ==> (pa.p, pa.f) == LookAction(turn, lookTurn, remember)
    ensures a == "skip" ==> (pa.p, pa.f) == SkipAction()
    ensures a !in ActionNames ==> pa.p == 0 && pa.f == NoOp
  {
    var (p, f) :=
      if a == "move" then MoveAction()
      else if a == "look" then LookAction(turn, lookTurn, remember)
      else if a == "skip" then SkipAction()
      else (0, NoOp);
    PriorityAction(p, a, f)
  }

  /** The prioritised candidates offered to a peep. */
  function Candidates(turn: int, lookTurn: int, remember: int): seq<PriorityAction>
  {
    [ ActionPriority(ActionNames[0], turn, lookTurn, remember),
      ActionPriority(ActionNames[1], turn, lookTurn, remember),
      ActionPriority(ActionNames[2], turn, lookTurn, remember) ]
  }

  // ---------------------------------------------------------------------
  // Selection

  /** `cs[i]` has the highest priority of all, positive, and strictly beats everything before it. */
  predicate IsFirstMax(cs: seq<PriorityAction>, i: int)
  {
    && 0 <= i < |cs| && cs[i].p > 0
    && (forall j :: 0 <= j < i ==> cs[j].p < cs[i].p)
    && (forall j :: 0 <= j < |cs| ==> cs[j].p <= cs[i].p)
  }

  /** `best` is what a running strict maximum starting from 0 picks from `cs`. */
  predicate Chosen(cs: seq<PriorityAction>, best: Option<Effect>)
  {
    && (best == None <==> forall j :: 0 <= j < |cs| ==> cs[j].p <= 0)
    && (best.Some? ==> exists i :: 0 <= i < |cs| && IsFirstMax(cs, i) && cs[i].f == best.value)
  }

  /**
   * Keeps the candidate whose priority is strictly greater than the best so
   * far (which starts at 0), in the order the candidates arrive.
   */
  method BestAction(cs: seq<PriorityAction>) returns (best: Option<Effect>)
    ensures Chosen(cs, best)
  {
    best := None;
    var highest := 0;
    ghost var at := -1;
    for k := 0 to |cs|
      invariant best == None <==> at == -1
      invariant at == -1 ==> highest == 0 && forall j :: 0 <= j < k ==> cs[j].p <= 0
      invariant at != -1 ==>
                  && 0 <= at < k && best == Some(cs[at].f) && highest == cs[at].p > 0
                  && (forall j :: 0 <= j < at ==> cs[j].p < highest)
                  && (forall j :: 0 <= j < k ==> cs[j].p <= highest)
    {
      if cs[k].p > highest {
        highest := cs[k].p;
        best := Some(cs[k].f);
        at := k;
      }
    }
    if at != -1 {
      assert IsFirstMax(cs, at);
    }
  }

  /** The candidates written out: move at 5, skip at 0, look at 10 or 1. */
  lemma CandidatesValues(turn: int, lookTurn: int, remember: int)
    ensures Candidates(turn, lookTurn, remember)
      == [ PriorityAction(5, "move", MoveEffect),
           PriorityAction(0, "skip", NoOp),
           PriorityAction(LookAction(turn, lookTurn, remember).0, "look", LookEffect) ]
  {
    assert "skip" != "move" by { assert "skip"[0] != "move"[0]; }
    assert "skip" != "look" by { assert "skip"[0] != "look"[0]; }
    assert "look" != "move" by { assert "look"[0] != "move"[0]; }
  }

  /** The effect a peep whose last look was at `lookTurn` is expected to run. */
  function ChosenEffect(turn: int, lookTurn: int, remember: int): Effect
  {
    if turn - lookTurn >= remember then LookEffect else MoveEffect
  }

  /**
   * Whatever order the candidates arrive in, the choice is the look when
   * the peep's last look is stale and the move otherwise, never nothing.
   */
  lemma ChoiceIsLookOrMove(cs: seq<PriorityAction>, best: Option<Effect>, turn: int, lookTurn: int, remember: int)
    requires multiset(cs) == multiset(Candidates(turn, lookTurn, remember))
    requires Chosen(cs, best)
    ensures best == Some(ChosenEffect(turn, lookTurn, remember))
  {
    CandidatesValues(turn, lookTurn, remember);
    var move := PriorityAction(5, "move", MoveEffect);
    var skip := PriorityAction(0, "skip", NoOp);
    var look := PriorityAction(LookAction(turn, lookTurn, remember).0, "look", LookEffect);
    var c := [move, skip, look];
    assert multiset(cs) == multiset(c);
    assert move in multiset(cs);
    var k :| 0 <= k < |cs| && cs[k] == move;
    assert cs[k].p > 0;
    var i :| 0 <= i < |cs| && IsFirstMax(cs, i) && cs[i].f == best.value;
    assert cs[i] in multiset(c);
    assert cs[i].p >= 5;
    if turn - lookTurn >= remember {
      assert look in multiset(cs);
      var h :| 0 <= h < |cs| && cs[h] == look;
      assert cs[i].p >= 10;
    }
  }

  /** The offered candidates, in their fixed order, lead to the look or the move. */
  lemma OfferedChoice(turn: int, lookTurn: int, remember: int, best: Option<Effect>)
    requires Chosen(Candidates(turn, lookTurn, remember), best)
    ensures best == Some(ChosenEffect(turn, lookTurn, remember))
  {
    ChoiceIsLookOrMove(Candidates(turn, lookTurn, remember), best, turn, lookTurn, remember);
  }

  // ---------------------------------------------------------------------
  // Effects

  /** Records that `e` looked around in the current turn. */
  method LookAround(w: World, e: Peep)
    modifies e`lookTurn
    ensures e.lookTurn == w.turn
  {
    e.lookTurn := w.turn;
  }

  /** A look in the current turn is remembered for the rest of the turn (when memory is positive). */
  lemma LookIsRemembered(turn: int, remember: int)
    requires remember > 0
    ensures LookAction(turn, turn, remember).0 == 1
    ensures LookAction(turn + remember, turn, remember).0 == 10
  {
  }

  /** The step a peep takes: one of -1, 0, 1 along X and along Y, never along Z. */
  function BestPeepMove(xChoice: Choice3, yChoice: Choice3): (d: (int, int, int))
    ensures -1 <= d.0 <= 1 && -1 <= d.1 <= 1 && d.2 == 0
  {
    var m := [-1, 0, 1];
    (m[xChoice], m[yChoice], 0)
  }

  /** Every unit step in the plane is drawn by some pair of choices. */
  lemma BestPeepMoveCovers(dx: int, dy: int)
    requires -1 <= dx <= 1 && -1 <= dy <= 1
    ensures exists xc: Choice3, yc: Choice3 :: BestPeepMove(xc, yc) == (dx, dy, 0)
  {
    var xc: Choice3 := dx + 1;
    var yc: Choice3 := dy + 1;
    assert BestPeepMove(xc, yc) == (dx, dy, 0);
  }

  /** The `Move` outcome behind an outcome of `MovePeep`. */
  function MoveOutcome(r: Outcome): Outcome
  {
    if r.Fail? && r.error.MoveFailed? then Fail(r.error.cause) else r
  }

  /**
   * What moving `peep` with `draw` does, with outcome `r`: refused, with
   * nothing changed, when moves are switched off or the peep is dead;
   * otherwise the drawn `Move`, whose error is wrapped.
   */
  twostate predicate PeepMoved(w: World, peep: Peep, draw: MoveDraw, r: Outcome)
    reads w, w.peeps, w.grid, peep
  {
    && (!w.allowMoves ==>
          r == Fail(MovesDisabled) && w.peeps == old(w.peeps) && w.grid.Model() == old(w.grid.Model())
          && peep.location == old(peep.location))
    && (w.allowMoves && !old(peep.isAlive) ==>
          r == Fail(DeadPeep) && w.peeps == old(w.peeps) && w.grid.Model() == old(w.grid.Model())
          && peep.location == old(peep.location))
    && (w.allowMoves && old(peep.isAlive) ==>
          var d := BestPeepMove(draw.xChoice, draw.yChoice);
          && (r.Fail? ==> r.error.MoveFailed?)
          && w.MovedBy(peep, d.0, d.1, d.2, draw.spawn, MoveOutcome(r)))
  }

  /** `after` is `before` with `n`, an exister new to it and of `m`'s gender, bound at some cell. */
  ghost predicate BornBeside(before: Bindings<Peep>, after: Bindings<Peep>, m: Peep, n: Peep)
  {
    && n !in before.byExister && n.gender == m.gender
    && exists c :: after == Assign(before, n, c)
  }

  /**
   * What a move leaves on the grid, as values: `m`, which stood at `from`
   * and was `alive`, moves with `draw` and outcome `r`, turning the grid
   * `before` into `after` and ending at `to`. Refused moves (switched off,
   * dead mover, target outside the grid) change nothing; a step onto the
   * mover's own cell binds it there again; a successful step frees `from`
   * and binds the target; a bump into the target's occupant leaves the
   * mover where it was, and the meeting adds at most one newborn. `born`
   * lists the peeps the move added: none, or the meeting's newborn.
   */
  ghost predicate MoveRecorded(size: Size, allowMoves: bool, before: Bindings<Peep>, after: Bindings<Peep>,
                               m: Peep, from: Location, to: Location, alive: bool, draw: MoveDraw, r: Outcome,
                               born: seq<Peep>)
  {
    var d := BestPeepMove(draw.xChoice, draw.yChoice);
    var dst := Shift(from, d.0, d.1, d.2);
    if !allowMoves then r == Fail(MovesDisabled) && after == before && to == from && born == []
    else if !alive then r == Fail(DeadPeep) && after == before && to == from && born == []
    else if !InGrid(size, dst) then r == Fail(MoveFailed(OutsideWorld)) && after == before && to == from && born == []
    else if dst == from then r == Ok && after == Assign(before, m, from) && to == from && born == []
    else if r == Ok then after == Assign(RemoveLocation(before, from), m, dst) && to == dst && born == []
    else
      && dst in before.byLocation && before.byLocation[dst].id != m.id
      && r == Fail(MoveFailed(LocationTaken(before.byLocation[dst].id)))
      && to == from
      && ((after == before && born == []) || (|born| == 1 && BornBeside(before, after, m, born[0])))
  }

  /** Moves `peep` one drawn step, as `PeepMoved` describes and `MoveRecorded` records. */
  method MovePeep(w: World, peep: Peep, draw: MoveDraw) returns (r: Outcome)
    requires w.Valid() && peep in w.peeps
    modifies w`peeps, w.grid, peep`location
    ensures w.Valid()
    ensures w.Grown()
    ensures PeepMoved(w, peep, draw, r)
    ensures MoveRecorded(w.settings.size, w.allowMoves, old(w.grid.Model()), w.grid.Model(),
                         peep, old(peep.location), peep.location, old(peep.isAlive), draw, r, w.peeps[|old(w.peeps)|..])
    ensures NeverLooked(w.peeps, |old(w.peeps)|)
  {
    if !w.allowMoves {
      return Fail(MovesDisabled);
    }
    if !peep.isAlive {
      return Fail(DeadPeep);
    }
    var (x, y, z) := BestPeepMove(draw.xChoice, draw.yChoice);
    var moved := w.Move(peep, x, y, z, draw.spawn);
    ghost var dst := Shift(old(peep.location), x, y, z);
    if InGrid(w.settings.size, dst) && dst != old(peep.location) && old(w.Collision(peep, dst)) {
      ghost var sq := old(w.grid.byLocation[dst]);
      if old(w.SpawnAllowed(peep, dst, sq, draw.spawn)) {
        ghost var nb := w.peeps[|old(w.peeps)|];
        ghost var c := old(w.SpawnCell(dst, sq)).value;
        assert nb !in old(w.grid.byExister);
        assert w.grid.Model() == Assign(old(w.grid.Model()), nb, c);
        assert w.peeps[|old(w.peeps)|..] == [nb];
      }
    }
    if moved.Fail? {
      return Fail(MoveFailed(moved.error));
    }
    return Ok;
  }

  // Dispatch

  /** Every peep of `ps` other than `e` keeps its location and its look turn. */
  twostate predicate OthersKept(ps: seq<Peep>, e: Option<Peep>)
    reads ps
  {
    forall p :: p in ps && Some(p) != e ==> p.location == old(p.location) && p.lookTurn == old(p.lookTurn)
  }

  /** Each peep of `ps` either kept its look turn or looked in `turn`. */
  twostate predicate LooksAdvanced(ps: seq<Peep>, turn: int)
    reads ps
  {
    forall p :: p in ps ==> p.lookTurn == old(p.lookTurn) || p.lookTurn == turn
  }

  /** The peeps of `ps` from position `from` on have never looked around. */
  predicate NeverLooked(ps: seq<Peep>, from: nat)
    reads ps
  {
    forall i :: from <= i < |ps| ==> ps[i].lookTurn == 0
  }

  /** The exister bound at `l` in `b`, if any. */
  function Occupant(b: Bindings<Peep>, l: Location): Option<Peep>
  {
    if l in b.byLocation then Some(b.byLocation[l]) else None
  }

  /**
   * Runs the closure of effect `f` for `e`: the look marks the current
   * turn, the move is `MovePeep`'s (with outcome `moved`), the skip does
   * nothing.
   */
  method RunEffect(w: World, e: Peep, f: Effect, draw: MoveDraw) returns (ghost moved: Outcome)
    requires w.Valid() && e in w.peeps
    modifies w`peeps, w.grid, e`location, e`lookTurn
    ensures w.Valid()
    ensures w.Grown()
    ensures f == LookEffect ==>
              && e.lookTurn == w.turn && e.location == old(e.location)
              && w.peeps == old(w.peeps) && w.grid.Model() == old(w.grid.Model())
    ensures f == MoveEffect ==> e.lookTurn == old(e.lookTurn) && PeepMoved(w, e, draw, moved)
    ensures f == MoveEffect ==>
              MoveRecorded(w.settings.size, w.allowMoves, old(w.grid.Model()), w.grid.Model(),
                           e, old(e.location), e.location, old(e.isAlive), draw, moved, w.peeps[|old(w.peeps)|..])
    ensures f == NoOp ==>
              && e.lookTurn == old(e.lookTurn) && e.location == old(e.location)
              && w.peeps == old(w.peeps) && w.grid.Model() == old(w.grid.Model())
    ensures OthersKept(old(w.peeps), Some(e))
    ensures LooksAdvanced(old(w.peeps), w.turn)
    ensures NeverLooked(w.peeps, |old(w.peeps)|)
  {
    moved := Ok;
    match f {
      case LookEffect =>
        LookAround(w, e);
      case MoveEffect =>
        var r := MovePeep(w, e, draw);
        moved := r;
      case NoOp =>
    }
  }

  /**
   * What `doActions` does for the occupant `e` of a cell: the best of its
   * candidate actions is chosen and its effect run, a move as
   * `MoveRecorded` describes with outcome `moved`. Other peeps keep their
   * location and look turn, and the grid changes only through a move.
   */
  method Act(w: World, e: Peep, draw: MoveDraw) returns (best: Option<Effect>, ghost moved: Outcome)
    requires w.Valid() && e in w.peeps
    modifies w`peeps, w.grid, e`location, e`lookTurn
    ensures w.Valid()
    ensures w.Grown()
    ensures best == Some(ChosenEffect(w.turn, old(e.lookTurn), w.settings.peepRememberTurns))
    ensures best == Some(LookEffect) ==>
              && e.lookTurn == w.turn && e.location == old(e.location)
              && w.peeps == old(w.peeps) && w.grid.Model() == old(w.grid.Model())
    ensures best == Some(MoveEffect) ==>
              && e.lookTurn == old(e.lookTurn)
              && MoveRecorded(w.settings.size, w.allowMoves, old(w.grid.Model()), w.grid.Model(),
                              e, old(e.location), e.location, old(e.isAlive), draw, moved, w.peeps[|old(w.peeps)|..])
    ensures OthersKept(old(w.peeps), Some(e))
    ensures NeverLooked(w.peeps, |old(w.peeps)|)
  {
    best := BestAction(Candidates(w.turn, e.lookTurn, w.settings.peepRememberTurns));
    OfferedChoice(w.turn, e.lookTurn, w.settings.peepRememberTurns, best);
    moved := RunEffect(w, e, best.value, draw);
  }

  /**
   * What one pass of the `doActions` loop found and did: the occupant
   * `who` of the cell, and for an occupant its look turn, location and
   * liveness when its turn came, its location `to` afterwards, the
   * outcome of its move and the peeps the pass added (`born`).
   */
  datatype Step = Step(who: Option<Peep>, look: int, from: Location, to: Location, alive: bool, moved: Outcome,
                       born: seq<Peep>)

  /**
   * A pass over cell `l` as recorded in `s`: the occupant of `l` in the
   * grid `before` ran exactly the effect chosen for its look turn and an
   * empty cell ran nothing; the grid `after` is unchanged, and no peep
   * added, unless a move ran, and then it is as `MoveRecorded` says.
   */
  ghost predicate StepRecorded(settings: Settings, allowMoves: bool, turn: int, before: Bindings<Peep>,
                               after: Bindings<Peep>, l: Location, draw: MoveDraw, ran: Option<Effect>, s: Step)
  {
    && s.who == Occupant(before, l)
    && (ran.None? <==> s.who.None?)
    && (s.who.Some? ==> ran == Some(ChosenEffect(turn, s.look, settings.peepRememberTurns)))
    && (ran != Some(MoveEffect) ==> after == before && s.to == s.from && s.born == [])
    && (ran == Some(MoveEffect) ==>
          MoveRecorded(settings.size, allowMoves, before, after, s.who.value, s.from, s.to, s.alive, draw, s.moved, s.born))
  }

  /**
   * One pass of the `doActions` loop, for the cell `l`: nothing for an
   * empty cell, otherwise `Act` on its occupant, as recorded in `step`.
   * Every peep keeps its liveness; only the occupant may change its look
   * turn (by looking) and its location (by moving); the peep list grows
   * by the recorded newborns, which have never looked around.
   */
  method ActOn(w: World, l: Location, draw: MoveDraw) returns (ran: Option<Effect>, ghost step: Step)
    requires w.Valid()
    modifies w`peeps, w.grid, w.peeps
    ensures w.Valid()
    ensures w.Grown()
    ensures StepRecorded(w.settings, w.allowMoves, w.turn, old(w.grid.Model()), w.grid.Model(), l, draw, ran, step)
    ensures step.who.Some? ==>
              var p := step.who.value;
              && p in old(w.peeps) && step.look == old(p.lookTurn)
              && step.from == old(p.location) && step.alive == old(p.isAlive)
    ensures forall p :: p in old(w.peeps) ==>
              && p.lookTurn == (if Some(p) == step.who && ran == Some(LookEffect) then w.turn else old(p.lookTurn))
              && p.location == (if Some(p) == step.who then step.to else old(p.location))
              && p.isAlive == old(p.isAlive) && p.age == old(p.age)
    ensures w.peeps == old(w.peeps) + step.born
    ensures forall p :: p in w.peeps && p !in old(w.peeps) ==> fresh(p) && p.isAlive && p.age == 0 && p.lookTurn == 0
  {
    var occupant := w.grid.GetByLocation(l);
    if occupant.None? {
      return None, Step(None, 0, Origin, Origin, false, Ok, []); // empty spot
    }
    var e := occupant.value;
    ghost var look, from, alive := e.lookTurn, e.location, e.isAlive;
    ghost var moved;
    ran, moved := Act(w, e, draw);
    step := Step(occupant, look, from, e.location, alive, moved, w.peeps[|old(w.peeps)|..]);
    assert w.peeps == old(w.peeps) + step.born;
    forall p | p in old(w.peeps)
      ensures p.isAlive == old(p.isAlive) && p.age == old(p.age)
    {
      var i :| 0 <= i < |old(w.peeps)| && old(w.peeps)[i] == p;
      assert w.peeps[i] == p;
    }
    forall p | p in w.peeps && p !in old(w.peeps)
      ensures fresh(p) && p.isAlive && p.age == 0 && p.lookTurn == 0
    {
      var i :| 0 <= i < |w.peeps| && w.peeps[i] == p;
      assert i >= |old(w.peeps)|;
    }
  }

  /** The peeps that looked around in the recorded passes. */
  ghost function Looked(ran: seq<Option<Effect>>, steps: seq<Step>): set<Peep>
    requires |steps| == |ran|
  {
    set j | 0 <= j < |ran| && ran[j] == Some(LookEffect) && steps[j].who.Some? :: steps[j].who.value
  }

  /** The peeps the recorded passes added, in order. */
  ghost function Births(steps: seq<Step>): seq<Peep>
    decreases |steps|
  {
    if steps == [] then [] else steps[0].born + Births(steps[1..])
  }

  /**
   * One more pass appends its newborns to the births, so a map over the
   * peeps of the start and the earlier births that grew by them ranges
   * over the peeps of the start and all births.
   */
  lemma {:induction false} BirthsSnoc(steps: seq<Step>, s: Step)
    ensures Births(steps + [s]) == Births(steps) + s.born
    decreases |steps|
  {
    if steps != [] {
      assert (steps + [s])[1..] == steps[1..] + [s];
      BirthsSnoc(steps[1..], s);
    }
  }

  /** One more pass adds its newborns to the number of births. */
  lemma BirthsCount(steps: seq<Step>, s: Step)
    ensures |Births(steps + [s])| == |Births(steps)| + |s.born|
  {
    BirthsSnoc(steps, s);
  }

  /** Where the recorded passes leave `p`, which started at `start`: the end of its last move. */
  ghost function PlaceAfter(ran: seq<Option<Effect>>, steps: seq<Step>, p: Peep, start: Location): Location
    requires |steps| == |ran|
    decreases |ran|
  {
    if ran == [] then start
    else if ran[|ran| - 1] == Some(MoveEffect) && steps[|ran| - 1].who == Some(p) then steps[|ran| - 1].to
    else PlaceAfter(ran[..|ran| - 1], steps[..|ran| - 1], p, start)
  }

  /** A peep's look turn, location, liveness and age. */
  datatype PeepState = PeepState(look: int, place: Location, alive: bool, age: nat)

  /** The look turn, location, liveness and age of every peep of `ps`. */
  ghost function Snapshot(ps: seq<Peep>): (m: map<Peep, PeepState>)
    reads ps
    ensures m.Keys == set p | p in ps
    ensures forall i :: 0 <= i < |ps| ==> m[ps[i]] == PeepState(ps[i].lookTurn, ps[i].location, ps[i].isAlive, ps[i].age)
  {
    map p | p in ps :: PeepState(p.lookTurn, p.location, p.isAlive, p.age)
  }

  /**
   * The occupant of pass `s`, after the passes `ran`/`steps`, had the look
   * turn of its last look (or of `start`, or 0 for a newborn), the
   * location its last move left it at (for a peep of `start`) and its
   * liveness from `start` (a newborn is alive).
   */
  ghost predicate StepStart(ran: seq<Option<Effect>>, steps: seq<Step>, s: Step, turn: int, start: map<Peep, PeepState>)
    requires |steps| == |ran| && s.who.Some?
  {
    var p := s.who.value;
    && s.look == (if p in Looked(ran, steps) then turn else if p in start then start[p].look else 0)
    && s.alive == (p in start ==> start[p].alive)
    && (p in start ==> s.from == PlaceAfter(ran, steps, p, start[p].place))
  }

  /**
   * `now` holds every peep's look turn, location, liveness and age after
   * the passes `ran`/`steps`, as the record and `start` determine them:
   * the current turn once it looked, the end of its last move, its
   * liveness and age from `start`; a newborn starts unlooked, alive and
   * of age 0.
   */
  ghost predicate Tracks(now: map<Peep, PeepState>, start: map<Peep, PeepState>, ran: seq<Option<Effect>>,
                         steps: seq<Step>, turn: int)
    requires |steps| == |ran|
  {
    && (forall p :: p in start ==> p in now)
    && (forall j :: 0 <= j < |ran| && steps[j].who.Some? ==> steps[j].who.value in now)
    && forall p :: p in now ==>
         && now[p].look == (if p in Looked(ran, steps) then turn else if p in start then start[p].look else 0)
         && now[p].alive == (p in start ==> start[p].alive)
         && now[p].age == (if p in start then start[p].age else 0)
         && (p in start ==> now[p].place == PlaceAfter(ran, steps, p, start[p].place))
  }

  /**
   * One pass keeps `Tracks`: its occupant saw the tracked state, and
   * afterwards only the occupant changed (its look turn by a look, its
   * location to `s.to`), besides newborns that never looked.
   */
  lemma TracksStep(now: map<Peep, PeepState>, now': map<Peep, PeepState>, start: map<Peep, PeepState>,
                   ran: seq<Option<Effect>>, steps: seq<Step>, r: Option<Effect>, s: Step, turn: int)
    requires |steps| == |ran| && Tracks(now, start, ran, steps, turn)
    requires r.None? <==> s.who.None?
    requires r != Some(MoveEffect) ==> s.to == s.from
    requires s.who.Some? ==>
               var p := s.who.value;
               p in now && s.look == now[p].look && s.from == now[p].place && s.alive == now[p].alive
    requires forall p :: p in now ==>
               && p in now'
               && now'[p] == (if Some(p) == s.who
                              then now[p].(look := if r == Some(LookEffect) then turn else now[p].look, place := s.to)
                              else now[p])
    requires forall p :: p in now' && p !in now ==> now'[p].look == 0 && now'[p].alive && now'[p].age == 0
    ensures Tracks(now', start, ran + [r], steps + [s], turn)
    ensures s.who.Some? ==> StepStart(ran, steps, s, turn, start)
  {
    LookedSnoc(ran, steps, r, s);
    var ran', steps' := ran + [r], steps + [s];
    assert ran'[..|ran|] == ran && steps'[..|ran|] == steps;
    forall j | 0 <= j < |ran'| && steps'[j].who.Some?
      ensures steps'[j].who.value in now'
    {
      if j < |ran| {
        assert steps'[j] == steps[j];
      }
    }
  }

  /**
   * The first `|ran|` passes of `doActions` over `locs`, as recorded: each
   * pass turned its grid into the next one as `StepRecorded` says, and its
   * occupant started from the state the earlier passes left it in.
   */
  ghost predicate Recorded(settings: Settings, allowMoves: bool, turn: int, locs: seq<Location>, draws: nat -> MoveDraw,
                           start: map<Peep, PeepState>, ran: seq<Option<Effect>>, steps: seq<Step>, grids: seq<Bindings<Peep>>)
    decreases |ran|
  {
    && |steps| == |ran| && |ran| <= |locs| && |grids| == |ran| + 1
    && (ran != [] ==>
          var j := |ran| - 1;
          && Recorded(settings, allowMoves, turn, locs, draws, start, ran[..j], steps[..j], grids[..j + 1])
          && StepRecorded(settings, allowMoves, turn, grids[j], grids[j + 1], locs[j], draws(j), ran[j], steps[j])
          && (steps[j].who.Some? ==> StepStart(ran[..j], steps[..j], steps[j], turn, start)))
  }

  /** A record grows by one pass at a time. */
  lemma RecordedSnoc(settings: Settings, allowMoves: bool, turn: int, locs: seq<Location>, draws: nat -> MoveDraw,
                     start: map<Peep, PeepState>, ran: seq<Option<Effect>>, steps: seq<Step>, grids: seq<Bindings<Peep>>,
                     r: Option<Effect>, s: Step, g: Bindings<Peep>)
    requires Recorded(settings, allowMoves, turn, locs, draws, start, ran, steps, grids)
    requires |ran| < |locs|
    requires StepRecorded(settings, allowMoves, turn, grids[|ran|], g, locs[|ran|], draws(|ran|), r, s)
    requires s.who.Some? ==> StepStart(ran, steps, s, turn, start)
    ensures Recorded(settings, allowMoves, turn, locs, draws, start, ran + [r], steps + [s], grids + [g])
  {
    assert (ran + [r])[..|ran|] == ran && (steps + [s])[..|ran|] == steps && (grids + [g])[..|ran| + 1] == grids;
  }

  /** Every pass of a record is recorded. */
  lemma {:induction false} RecordedAt(settings: Settings, allowMoves: bool, turn: int, locs: seq<Location>,
                                      draws: nat -> MoveDraw, start: map<Peep, PeepState>, ran: seq<Option<Effect>>,
                                      steps: seq<Step>, grids: seq<Bindings<Peep>>, k: nat)
    requires Recorded(settings, allowMoves, turn, locs, draws, start, ran, steps, grids)
    requires k < |ran|
    ensures StepRecorded(settings, allowMoves, turn, grids[k], grids[k + 1], locs[k], draws(k), ran[k], steps[k])
    ensures steps[k].who.Some? ==> StepStart(ran[..k], steps[..k], steps[k], turn, start)
    decreases |ran|
  {
    var j := |ran| - 1;
    if k < j {
      RecordedAt(settings, allowMoves, turn, locs, draws, start, ran[..j], steps[..j], grids[..j + 1], k);
      assert ran[..j][..k] == ran[..k] && steps[..j][..k] == steps[..k];
    }
  }

  /**
   * Each pass of a record adds at most one peep, and only a move that
   * bumped into another peep adds one.
   */
  lemma {:induction false} BirthsPerPass(settings: Settings, allowMoves: bool, turn: int, locs: seq<Location>,
                                         draws: nat -> MoveDraw, start: map<Peep, PeepState>, ran: seq<Option<Effect>>,
                                         steps: seq<Step>, grids: seq<Bindings<Peep>>)
    requires Recorded(settings, allowMoves, turn, locs, draws, start, ran, steps, grids)
    ensures |Births(steps)| <= |steps|
    ensures forall k :: 0 <= k < |steps| && steps[k].born != [] ==>
              ran[k] == Some(MoveEffect) && steps[k].moved.Fail? && steps[k].moved.error.MoveFailed?
              && steps[k].moved.error.cause.LocationTaken?
    decreases |ran|
  {
    if ran != [] {
      var j := |ran| - 1;
      BirthsPerPass(settings, allowMoves, turn, locs, draws, start, ran[..j], steps[..j], grids[..j + 1]);
      assert steps[..j] + [steps[j]] == steps;
      BirthsSnoc(steps[..j], steps[j]);
      forall k | 0 <= k < |steps| && steps[k].born != []
        ensures ran[k] == Some(MoveEffect) && steps[k].moved.Fail? && steps[k].moved.error.MoveFailed?
                && steps[k].moved.error.cause.LocationTaken?
      {
        if k < j {
          assert steps[..j][k] == steps[k] && ran[..j][k] == ran[k];
        }
      }
    }
  }

  /**
   * A peep of the start that was dead, or any peep when moves are switched
   * off, ends where it started.
   */
  lemma {:induction false} StayPut(settings: Settings, allowMoves: bool, turn: int, locs: seq<Location>,
                                   draws: nat -> MoveDraw, start: map<Peep, PeepState>, ran: seq<Option<Effect>>,
                                   steps: seq<Step>, grids: seq<Bindings<Peep>>, p: Peep)
    requires Recorded(settings, allowMoves, turn, locs, draws, start, ran, steps, grids)
    requires p in start && (!allowMoves || !start[p].alive)
    ensures PlaceAfter(ran, steps, p, start[p].place) == start[p].place
    decreases |ran|
  {
    if ran != [] {
      var j := |ran| - 1;
      StayPut(settings, allowMoves, turn, locs, draws, start, ran[..j], steps[..j], grids[..j + 1], p);
    }
  }

  /** One more pass adds its occupant to the lookers when it looked. */
  lemma LookedSnoc(ran: seq<Option<Effect>>, steps: seq<Step>, r: Option<Effect>, s: Step)
    requires |steps| == |ran|
    ensures Looked(ran + [r], steps + [s])
            == Looked(ran, steps) + (if r == Some(LookEffect) && s.who.Some? then {s.who.value} else {})
  {
    var a, b := ran + [r], steps + [s];
    forall p | p in Looked(a, b)
      ensures p in Looked(ran, steps) + (if r == Some(LookEffect) && s.who.Some? then {s.who.value} else {})
    {
      var j :| 0 <= j < |a| && a[j] == Some(LookEffect) && b[j].who.Some? && b[j].who.value == p;
      if j < |ran| {
        assert ran[j] == a[j] && steps[j] == b[j];
      }
    }
    forall p | p in Looked(ran, steps)
      ensures p in Looked(a, b)
    {
      var j :| 0 <= j < |ran| && ran[j] == Some(LookEffect) && steps[j].who.Some? && steps[j].who.value == p;
      assert a[j] == ran[j] && b[j] == steps[j];
    }
    if r == Some(LookEffect) && s.who.Some? {
      assert a[|ran|] == r && b[|ran|] == s;
    }
  }

  /**
   * `ActOn` on the `k`-th cell of `locs`, extending the record by the pass
   * (which leaves the grid `g`) and carrying the tracked state of every
   * peep through it: `now` before it and `now'` after it.
   */
  method ActOnTracked(w: World, locs: seq<Location>, draws: nat -> MoveDraw, k: nat, ghost turn: int,
                      ghost start: map<Peep, PeepState>, ghost now: map<Peep, PeepState>,
                      ghost ran: seq<Option<Effect>>, ghost steps: seq<Step>, ghost grids: seq<Bindings<Peep>>)
    returns (r: Option<Effect>, ghost s: Step, ghost now': map<Peep, PeepState>, ghost g: Bindings<Peep>)
    requires w.Valid() && w.turn == turn
    requires Recorded(w.settings, w.allowMoves, turn, locs, draws, start, ran, steps, grids)
    requires |ran| == k < |locs| && grids[k] == w.grid.Model()
    requires now == Snapshot(w.peeps) && Tracks(now, start, ran, steps, turn)
    modifies w`peeps, w.grid, w.peeps
    ensures w.Valid() && w.turn == turn && w.Grown()
    ensures |w.peeps| - |Births(steps + [s])| == |old(w.peeps)| - |Births(steps)|
    ensures Recorded(w.settings, w.allowMoves, turn, locs, draws, start, ran + [r], steps + [s], grids + [g])
    ensures g == w.grid.Model()
    ensures now' == Snapshot(w.peeps) && Tracks(now', start, ran + [r], steps + [s], turn)
  {
    r, s := ActOn(w, locs[k], draws(k));
    g := w.grid.Model();
    RecordedSnoc(w.settings, w.allowMoves, turn, locs, draws, start, ran, steps, grids, r, s, g);
    BirthsCount(steps, s);
    now' := Snapshot(w.peeps);
    TracksStep(now, now', start, ran, steps, r, s, turn);
  }

  /**
   * The loop of `doActions` over `locs`, from the peeps' state `start`:
   * the record of its passes, the tracked state `now` of every peep at the
   * end, and a peep list that grew at its end by fresh peeps, as many as
   * the record's births.
   */
  method Passes(w: World, locs: seq<Location>, draws: nat -> MoveDraw, ghost turn: int, ghost start: map<Peep, PeepState>)
    returns (ran: seq<Option<Effect>>, ghost steps: seq<Step>, ghost grids: seq<Bindings<Peep>>,
             ghost now: map<Peep, PeepState>)
    requires w.Valid() && w.turn == turn && start == Snapshot(w.peeps)
    modifies w`peeps, w.grid, w.peeps
    ensures w.Valid() && w.turn == turn
    ensures |old(w.peeps)| <= |w.peeps|
    ensures forall i :: 0 <= i < |old(w.peeps)| ==> w.peeps[i] == old(w.peeps)[i]
    ensures forall i :: |old(w.peeps)| <= i < |w.peeps| ==> fresh(w.peeps[i])
    ensures |w.peeps| - |Births(steps)| == |old(w.peeps)|
    ensures |ran| == |locs| && Recorded(w.settings, w.allowMoves, turn, locs, draws, start, ran, steps, grids)
    ensures grids[0] == old(w.grid.Model()) && grids[|locs|] == w.grid.Model()
    ensures now == Snapshot(w.peeps) && Tracks(now, start, ran, steps, turn)
  {
    now := start;
    ran, steps, grids := [], [], [w.grid.Model()];
    for k := 0 to |locs|
      invariant w.Valid()
      invariant |old(w.peeps)| <= |w.peeps|
      invariant forall i :: 0 <= i < |old(w.peeps)| ==> w.peeps[i] == old(w.peeps)[i]
      invariant forall i :: |old(w.peeps)| <= i < |w.peeps| ==> fresh(w.peeps[i])
      invariant |w.peeps| - |Births(steps)| == |old(w.peeps)|
      invariant |ran| == k
      invariant Recorded(w.settings, w.allowMoves, turn, locs, draws, start, ran, steps, grids)
      invariant grids[0] == old(w.grid.Model()) && grids[k] == w.grid.Model()
      invariant now == Snapshot(w.peeps) && Tracks(now, start, ran, steps, turn)
    {
      var r;
      ghost var s, now', g;
      r, s, now', g := ActOnTracked(w, locs, draws, k, turn, start, now, ran, steps, grids);
      ran, steps, grids, now := ran + [r], steps + [s], grids + [g], now';
    }
  }

  /**
   * Runs one chosen effect for each listed cell that has an occupant, in
   * the order given; `draws(k)` are the draws for the `k`-th cell. The
   * ghost results record, for pass `k`, what it found and did
   * (`steps[k]`) and the grid before it (`grids[k]`), and the state of
   * every peep at the start (`start`); `Recorded` ties them together
   * (`RecordedAt` reads off any one pass). An occupant's look turn is the
   * current turn once it has looked in an earlier pass, and otherwise its
   * look turn at the start (0 for a newborn); a peep of the start moves
   * from where its last move left it, and keeps its liveness. The peep
   * list grows by as many peeps as the record's newborns (`Births`).
   */
  method DoActions(w: World, locs: seq<Location>, draws: nat -> MoveDraw)
    returns (ran: seq<Option<Effect>>, ghost steps: seq<Step>, ghost grids: seq<Bindings<Peep>>,
             ghost start: map<Peep, PeepState>)
    requires w.Valid()
    modifies w`peeps, w.grid, w.peeps
    ensures w.Valid()
    ensures w.Grown()
    ensures start == old(Snapshot(w.peeps))
    ensures |ran| == |locs| && Recorded(w.settings, w.allowMoves, w.turn, locs, draws, start, ran, steps, grids)
    ensures grids[0] == old(w.grid.Model()) && grids[|locs|] == w.grid.Model()
    ensures |w.peeps| == |old(w.peeps)| + |Births(steps)|
    ensures forall p :: p in old(w.peeps) ==> p in w.peeps
    ensures forall p :: p in w.peeps ==> p.lookTurn == (if p in Looked(ran, steps) then w.turn
                                                        else if p in old(w.peeps) then old(p.lookTurn) else 0)
    ensures forall p :: p in old(w.peeps) ==> p.location == PlaceAfter(ran, steps, p, old(p.location))
  {
    start := Snapshot(w.peeps);
    ghost var now;
    ran, steps, grids, now := Passes(w, locs, draws, w.turn, start);
  }
}

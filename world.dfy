/**
 * The world: its peeps, its turn counter, its settings and the grid that
 * indexes which peep is where, with the grid rules (occupancy, free-cell
 * search, moving, meeting and spawning), peep creation and the population
 * statistics.
 */
module WorldModel {
  import opened Outcomes
  import opened Locations
  import opened DoubleMap
  import opened Peeps
  import opened Population

  /** The settings the turn engine reads. */
  datatype Settings = Settings(
    maxAge: nat,            // nobody lives beyond this age
    maxPeeps: int,          // absolute cap on alive peeps
    newPeepMax: int,        // no random immigrant once this many peeps are alive
    size: Size,             // world size; X and Y lose one border line
    spawnAge: nat,          // minimum age to spawn
    peepRememberTurns: int) // how long a peep remembers its last look

  /** `p` was just created with this id, gender and location, and has never looked around. */
  predicate NewBorn(p: Peep, id: nat, gender: Gender, location: Location)
    reads p
  {
    p.id == id && p.gender == gender && p.location == location && p.age == 0 && p.isAlive && p.lookTurn == 0
  }

  /** Whether some element of `list` is the same location as `loc`. */
  method ListContains(list: seq<Location>, loc: Location) returns (b: bool)
    ensures b <==> loc in list
  {
    for i := 0 to |list|
      invariant loc !in list[..i]
    {
      if SameAs(list[i], loc) {
        return true;
      }
    }
    return false;
  }

  class World {
    var peeps: seq<Peep>
    var turn: int
    const settings: Settings
    const grid: Dmap<Peep>
    /** Whether peeps may move at all (a global switch turned off in tests). */
    const allowMoves: bool

    /**
     * Peep ids are their positions in `peeps` (so distinct ids mean distinct
     * peeps), every peep has a gender, and the grid only names peeps of
     * this world.
     */
    ghost predicate Valid()
      reads this, grid
    {
      && (forall i :: 0 <= i < |peeps| ==> peeps[i].id == i && peeps[i].gender != "")
      && (forall l :: l in grid.byLocation ==> grid.byLocation[l] in peeps)
      && (forall p :: p in grid.byExister ==> p in peeps)
    }

    /**
     * Between two states the peep list only grew at its end, the peeps
     * already there kept their age and liveness, and every added peep is a
     * live newborn.
     */
    twostate predicate Grown()
      reads this, peeps
    {
      && |old(peeps)| <= |peeps| && peeps[..|old(peeps)|] == old(peeps)
      && (forall i :: 0 <= i < |old(peeps)| ==>
            peeps[i].age == old(peeps[i].age) && peeps[i].isAlive == old(peeps[i].isAlive))
      && (forall i :: |old(peeps)| <= i < |peeps| ==> fresh(peeps[i]) && peeps[i].age == 0 && peeps[i].isAlive)
    }

    /** An empty world at turn 0. */
    constructor (settings: Settings, allowMoves: bool)
      ensures Valid()
      ensures this.settings == settings && this.allowMoves == allowMoves
      ensures peeps == [] && turn == 0 && fresh(grid)
      ensures grid.Model() == Bindings(map[], map[])
    {
      this.settings := settings;
      this.allowMoves := allowMoves;
      peeps := [];
      turn := 0;
      grid := new Dmap<Peep>();
    }

    // -------------------------------------------------------------------
    // Population statistics

    /** The number of alive peeps. */
    method AlivePeeps() returns (n: nat)
      ensures n == CountAlive(peeps)
    {
      n := 0;
      for i := 0 to |peeps|
        invariant n == CountAlive(peeps[..i])
      {
        assert peeps[..i + 1][..i] == peeps[..i];
        if peeps[i].isAlive {
          n := n + 1;
        }
      }
      assert peeps[..|peeps|] == peeps;
    }

    /** The number of dead peeps. */
    method DeadPeeps() returns (n: nat)
      ensures n == CountDead(peeps)
    {
      n := 0;
      for i := 0 to |peeps|
        invariant n == CountDead(peeps[..i])
      {
        assert peeps[..i + 1][..i] == peeps[..i];
        if !peeps[i].isAlive {
          n := n + 1;
        }
      }
      assert peeps[..|peeps|] == peeps;
    }

    /** How many alive peeps there are of each gender. */
    method PeepGenders() returns (genders: map<Gender, nat>)
      ensures genders == Histogram(peeps)
    {
      genders := map[];
      for i := 0 to |peeps|
        invariant genders == Histogram(peeps[..i])
      {
        assert peeps[..i + 1][..i] == peeps[..i];
        var p := peeps[i];
        if p.isAlive {
          genders := genders[p.gender := (if p.gender in genders then genders[p.gender] else 0) + 1];
        }
      }
      assert peeps[..|peeps|] == peeps;
    }

    /** The largest age of an alive peep, or 0 when none is alive. */
    method PeepMaxAge() returns (max: nat)
      ensures forall i :: 0 <= i < |peeps| && peeps[i].isAlive ==> peeps[i].age <= max
      ensures max == 0 || exists i :: 0 <= i < |peeps| && peeps[i].isAlive && peeps[i].age == max
      ensures !SomeAlive(peeps) ==> max == 0
    {
      max := 0;
      for i := 0 to |peeps|
        invariant forall j :: 0 <= j < i && peeps[j].isAlive ==> peeps[j].age <= max
        invariant max == 0 || exists j :: 0 <= j < i && peeps[j].isAlive && peeps[j].age == max
      {
        if peeps[i].age > max && peeps[i].isAlive {
          max := peeps[i].age;
        }
      }
    }

    /**
     * The smallest age of an alive peep, starting from `maxAge`; 0 when
     * none is alive.
     */
    method PeepMinAge() returns (min: nat)
      ensures !SomeAlive(peeps) ==> min == 0
      ensures SomeAlive(peeps) ==> min <= settings.maxAge
      ensures SomeAlive(peeps) ==> forall i :: 0 <= i < |peeps| && peeps[i].isAlive ==> min <= peeps[i].age
      ensures SomeAlive(peeps) ==>
                min == settings.maxAge || exists i :: 0 <= i < |peeps| && peeps[i].isAlive && peeps[i].age == min
    {
      var alive := AlivePeeps();
      CountAlivePositive(peeps);
      if alive == 0 {
        return 0;
      }
      min := settings.maxAge;
      for i := 0 to |peeps|
        invariant min <= settings.maxAge
        invariant forall j :: 0 <= j < i && peeps[j].isAlive ==> min <= peeps[j].age
        invariant min == settings.maxAge || exists j :: 0 <= j < i && peeps[j].isAlive && peeps[j].age == min
      {
        if peeps[i].age < min && peeps[i].isAlive {
          min := peeps[i].age;
        }
      }
    }

    /** The integer average age of the alive peeps, or 0 when none is alive. */
    method PeepAvgAge() returns (avg: nat)
      ensures CountAlive(peeps) > 0 ==> avg == SumAges(peeps) / CountAlive(peeps)
      ensures CountAlive(peeps) == 0 ==> avg == 0
    {
      var sum: nat := 0;
      var alive: nat := 0;
      for i := 0 to |peeps|
        invariant sum == SumAges(peeps[..i]) && alive == CountAlive(peeps[..i])
      {
        assert peeps[..i + 1][..i] == peeps[..i];
        if peeps[i].isAlive {
          sum := sum + peeps[i].age;
          alive := alive + 1;
        }
      }
      assert peeps[..|peeps|] == peeps;
      assert sum == SumAges(peeps) && alive == CountAlive(peeps);
      if alive > 0 {
        avg := sum / alive;
        return;
      }
      return 0;
    }

    // -------------------------------------------------------------------
    // Occupancy and the free-cell search

    /**
     * A cell is occupied when a peep is bound there and that peep is alive:
     * an empty cell and a dead occupant's cell are both free.
     */
    function IsOccupiedLocation(l: Location): (occupied: bool)
      reads grid, grid.byLocation.Values`isAlive
      ensures occupied <==> l in grid.byLocation && grid.byLocation[l].isAlive
    {
      match grid.GetByLocation(l)
      case None => false
      case Some(e) => e.isAlive
    }

    /** Every in-grid neighbour of `l` is occupied. */
    predicate Surrounded(l: Location)
      reads grid, grid.byLocation.Values`isAlive
    {
      forall c :: c in Neighbors(settings.size, l) ==> IsOccupiedLocation(c)
    }

    /** The first unoccupied location of `ns`. */
    function FirstFreeIn(ns: seq<Location>): Option<Location>
      reads grid, grid.byLocation.Values`isAlive
    {
      if ns == [] then None
      else if !IsOccupiedLocation(ns[0]) then Some(ns[0])
      else FirstFreeIn(ns[1..])
    }

    /** The first free neighbour of the first location of `locs` that has one. */
    function FirstFree(locs: seq<Location>): Option<Location>
      reads grid, grid.byLocation.Values`isAlive
    {
      if locs == [] then None
      else
        match FirstFreeIn(Neighbors(settings.size, locs[0]))
        case Some(n) => Some(n)
        case None => FirstFree(locs[1..])
    }

    /** `FirstFreeIn` finds the first unoccupied element, and fails only when all are occupied. */
    lemma {:induction false} FirstFreeInMeaning(ns: seq<Location>)
      ensures FirstFreeIn(ns) == None <==> forall c :: c in ns ==> IsOccupiedLocation(c)
      ensures FirstFreeIn(ns).Some? ==>
                exists k :: 0 <= k < |ns| && ns[k] == FirstFreeIn(ns).value && !IsOccupiedLocation(ns[k])
                  && forall j :: 0 <= j < k ==> IsOccupiedLocation(ns[j])
    {
      if ns != [] && IsOccupiedLocation(ns[0]) {
        FirstFreeInMeaning(ns[1..]);
        assert forall c :: c in ns ==> c == ns[0] || c in ns[1..];
        if FirstFreeIn(ns[1..]).Some? {
          var k :| 0 <= k < |ns[1..]| && ns[1..][k] == FirstFreeIn(ns[1..]).value && !IsOccupiedLocation(ns[1..][k])
                   && forall j :: 0 <= j < k ==> IsOccupiedLocation(ns[1..][j]);
          assert ns[k + 1] == ns[1..][k];
          assert forall j :: 1 <= j < k + 1 ==> ns[j] == ns[1..][j - 1];
        }
      }
    }

    /** The free-cell search fails exactly when every location given is surrounded. */
    lemma {:induction false} FirstFreeFails(locs: seq<Location>)
      ensures FirstFree(locs) == None <==> forall i :: 0 <= i < |locs| ==> Surrounded(locs[i])
    {
      if locs != [] {
        FirstFreeInMeaning(Neighbors(settings.size, locs[0]));
        FirstFreeFails(locs[1..]);
        assert forall i :: 1 <= i < |locs| ==> locs[i] == locs[1..][i - 1];
      }
    }

    /**
     * When the free-cell search succeeds, it returns a free, in-grid,
     * adjacent neighbour of `locs[i]`, the first location given that is
     * not surrounded.
     */
    lemma {:induction false} FirstFreeFound(locs: seq<Location>) returns (i: nat)
      requires FirstFree(locs).Some?
      ensures i < |locs| && forall j :: 0 <= j < i ==> Surrounded(locs[j])
      ensures var n := FirstFree(locs).value;
                && n in Neighbors(settings.size, locs[i]) && !IsOccupiedLocation(n)
                && Adjacent(locs[i], n) && InGrid(settings.size, n)
    {
      var ns := Neighbors(settings.size, locs[0]);
      FirstFreeInMeaning(ns);
      match FirstFreeIn(ns)
      case Some(n) =>
        NeighborsMembers(settings.size, locs[0], n);
        i := 0;
      case None =>
        var k := FirstFreeFound(locs[1..]);
        var n := FirstFree(locs).value;
        NeighborsMembers(settings.size, locs[k + 1], n);
        i := k + 1;
        assert locs[i] == locs[1..][k];
        assert forall j :: 1 <= j < i ==> locs[j] == locs[1..][j - 1];
    }

    /** The first free neighbour of the given locations, or an error when there is none. */
    method FindEmptyLocation(locs: seq<Location>) returns (r: Result<Location>)
      ensures r.Success? <==> FirstFree(locs).Some?
      ensures r.Success? ==> r.value == FirstFree(locs).value
      ensures r.Failure? ==> r.error == NoEmptyLocation
    {
      for i := 0 to |locs|
        invariant FirstFree(locs) == FirstFree(locs[i..])
      {
        var ns := LocationNeighbors(settings.size, locs[i]);
        assert locs[i..][1..] == locs[i + 1..];
        for j := 0 to |ns|
          invariant FirstFreeIn(ns) == FirstFreeIn(ns[j..])
        {
          assert ns[j..][1..] == ns[j + 1..];
          if !IsOccupiedLocation(ns[j]) {
            return Success(ns[j]);
          }
        }
      }
      return Failure(NoEmptyLocation);
    }

    // -------------------------------------------------------------------
    // Meeting and spawning

    /** A peep may spawn once its age reaches `spawnAge`. */
    function OfSpawnAge(e: Peep): (ofAge: bool)
      reads e`age
      ensures ofAge <==> settings.spawnAge <= e.age
    {
      e.age >= settings.spawnAge
    }

    /** Another live peep than `m` occupies `dst`. */
    predicate Collision(m: Peep, dst: Location)
      reads grid, grid.byLocation.Values`isAlive
    {
      IsOccupiedLocation(dst) && grid.byLocation[dst].id != m.id
    }

    /** Where a child of `left`, standing at `leftLoc`, and `right` would be placed. */
    function SpawnCell(leftLoc: Location, right: Peep): Option<Location>
      reads grid, grid.byLocation.Values`isAlive, right`location
    {
      FirstFree([leftLoc, right.location])
    }

    /**
     * Two peeps that meet spawn a child when they have the same gender, are
     * both of spawn age, a free neighbour exists, the spawn draw succeeds
     * and the population cap is not reached.
     */
    ghost predicate SpawnAllowed(left: Peep, leftLoc: Location, right: Peep, spawnDraw: bool)
      reads this, grid, grid.byLocation.Values`isAlive, (set p | p in peeps)`isAlive
      reads left`age, right`age, right`location
    {
      && left.gender == right.gender
      && OfSpawnAge(left) && OfSpawnAge(right)
      && SpawnCell(leftLoc, right).Some?
      && spawnDraw
      && CountAlive(peeps) < settings.maxPeeps
    }

    /**
     * The effect of a meeting: exactly one newborn of `left`'s gender at the
     * free cell when spawning is allowed, and no change otherwise.
     */
    twostate predicate Spawned(left: Peep, leftLoc: Location, right: Peep, spawnDraw: bool)
      reads this, peeps, grid
    {
      if old(SpawnAllowed(left, leftLoc, right, spawnDraw)) then
        && |peeps| == |old(peeps)| + 1
        && peeps[..|old(peeps)|] == old(peeps)
        && fresh(peeps[|old(peeps)|])
        && NewBorn(peeps[|old(peeps)|], |old(peeps)|, left.gender, old(SpawnCell(leftLoc, right)).value)
        && grid.Model() == Assign(old(grid.Model()), peeps[|old(peeps)|], old(SpawnCell(leftLoc, right)).value)
      else
        peeps == old(peeps) && grid.Model() == old(grid.Model())
    }

    /** Two peeps of the same gender and of spawn age may spawn a child next to them. */
    method SameGenderSpawn(left: Peep, right: Peep, spawnDraw: bool)
      requires Valid() && left in peeps
      modifies this`peeps, grid
      ensures Valid()
      ensures Grown()
      ensures Spawned(left, left.location, right, spawnDraw)
      decreases 2
    {
      if left.gender == right.gender && OfSpawnAge(left) && OfSpawnAge(right) {
        var loc := FindEmptyLocation([left.location, right.location]);
        if loc.Success? && spawnDraw {
          var _ := NewPeep(left.gender, loc.value, 0);
        }
      }
    }

    /** Called when a mover bumps into another peep. */
    method Meet(left: Peep, right: Peep, spawnDraw: bool)
      requires Valid() && left in peeps
      modifies this`peeps, grid
      ensures Valid()
      ensures Grown()
      ensures Spawned(left, left.location, right, spawnDraw)
      decreases 3
    {
      SameGenderSpawn(left, right, spawnDraw);
    }

    // -------------------------------------------------------------------
    // Peep creation

    /**
     * Creates a peep with the requested gender (a drawn one when empty),
     * appends it and binds it in the grid at `location`; fails when
     * `maxPeeps` peeps are already alive.
     */
    method NewPeep(gender: Gender, location: Location, choice: GenderChoice) returns (r: Result<Peep>)
      requires Valid()
      modifies this`peeps, grid
      ensures Valid()
      ensures Grown()
      ensures old(CountAlive(peeps)) >= settings.maxPeeps ==>
                r == Failure(PopulationCap) && peeps == old(peeps) && grid.Model() == old(grid.Model())
      ensures old(CountAlive(peeps)) < settings.maxPeeps ==>
                && r.Success? && fresh(r.value)
                && peeps == old(peeps) + [r.value]
                && NewBorn(r.value, |old(peeps)|, ChosenGender(gender, choice), location)
                && grid.Model() == Assign(old(grid.Model()), r.value, location)
      decreases 1
    {
      var alive := AlivePeeps();
      if alive >= settings.maxPeeps {
        return Failure(PopulationCap);
      }
      var p := new Peep(|peeps|, ChosenGender(gender, choice), location);
      peeps := peeps + [p];
      var _ := UpdateGrid(p, location, location, false);
      return Success(p);
    }

    /**
     * The random immigrant at the origin: refused when `newPeepMax` peeps
     * are alive; otherwise created when the birth draw succeeds (and the
     * population cap allows it).
     */
    method RandomPeep(birthDraw: bool, choice: GenderChoice) returns (r: Outcome)
      requires Valid()
      modifies this`peeps, grid
      ensures Valid()
      ensures Grown()
      ensures old(CountAlive(peeps)) >= settings.newPeepMax ==>
                r == Fail(TooManyPeeps) && peeps == old(peeps) && grid.Model() == old(grid.Model())
      ensures old(CountAlive(peeps)) < settings.newPeepMax ==> r == Ok
      ensures old(CountAlive(peeps)) < settings.newPeepMax && birthDraw && old(CountAlive(peeps)) < settings.maxPeeps ==>
                && |peeps| == |old(peeps)| + 1 && peeps[..|old(peeps)|] == old(peeps)
                && fresh(peeps[|old(peeps)|])
                && NewBorn(peeps[|old(peeps)|], |old(peeps)|, ChosenGender("", choice), Origin)
                && grid.Model() == Assign(old(grid.Model()), peeps[|old(peeps)|], Origin)
      ensures !(birthDraw && old(CountAlive(peeps)) < settings.newPeepMax && old(CountAlive(peeps)) < settings.maxPeeps) ==>
                peeps == old(peeps) && grid.Model() == old(grid.Model())
    {
      var alive := AlivePeeps();
      if alive >= settings.newPeepMax {
        return Fail(TooManyPeeps);
      }
      if birthDraw {
        var p := NewPeep("", Origin, choice);
        if p.Success? {
          assert peeps[..|old(peeps)|] == old(peeps);
        }
      }
      return Ok;
    }

    // -------------------------------------------------------------------
    // Moving

    /**
     * Moves `m`'s binding from `src` to `dst`. With `src == dst` it binds
     * `m` at `src` again; another live peep at `dst` is a meeting and an
     * error; a `dst` outside the grid is an error; otherwise `src` is
     * unbound and `m` bound at `dst`.
     */
    method UpdateGrid(m: Peep, src: Location, dst: Location, spawnDraw: bool) returns (r: Outcome)
      requires Valid() && m in peeps
      modifies this`peeps, grid
      ensures Valid()
      ensures Grown()
      ensures src == dst ==>
                r == Ok && peeps == old(peeps) && grid.Model() == Assign(old(grid.Model()), m, src)
      ensures src != dst && old(Collision(m, dst)) ==>
                && r == Fail(LocationTaken(old(grid.byLocation[dst]).id))
                && Spawned(m, m.location, old(grid.byLocation[dst]), spawnDraw)
                && (m in grid.byExister <==> m in old(grid.byExister))
                && (m in old(grid.byExister) ==> grid.byExister[m] == old(grid.byExister[m]))
                && dst in grid.byLocation && grid.byLocation[dst] == old(grid.byLocation[dst])
      ensures src != dst && !old(Collision(m, dst)) && !InGrid(settings.size, dst) ==>
                r == Fail(OutsideWorld) && peeps == old(peeps) && grid.Model() == old(grid.Model())
      ensures src != dst && !old(Collision(m, dst)) && InGrid(settings.size, dst) ==>
                r == Ok && peeps == old(peeps)
                && grid.Model() == Assign(RemoveLocation(old(grid.Model()), src), m, dst)
      decreases if src == dst then 0 else 5
    {
      if src == dst {
        // bound again so that a newly created peep enters the grid
        grid.Set(m, src);
        return Ok;
      }
      if IsOccupiedLocation(dst) {
        var squatter := grid.GetByLocation(dst);
        if squatter.Some? && squatter.value.id != m.id {
          // we have a meeting
          r := Bump(m, squatter.value, dst, spawnDraw);
          return;
        }
      }
      var outside := CheckOutsideGrid(settings.size, dst.x, dst.y, dst.z);
      if outside.Fail? {
        return outside;
      }
      grid.DelByLocation(src);
      grid.Set(m, dst);
      return Ok;
    }

    /**
     * The meeting branch of `UpdateGrid`: the mover `m` bumped into the
     * live `squatter` at `dst`. They meet, and the move fails with the
     * squatter's id; `m`'s binding and `dst`'s occupant stay as they were.
     */
    method Bump(m: Peep, squatter: Peep, dst: Location, spawnDraw: bool) returns (r: Outcome)
      requires Valid() && m in peeps
      requires dst in grid.byLocation && grid.byLocation[dst] == squatter && squatter.isAlive && squatter.id != m.id
      modifies this`peeps, grid
      ensures Valid()
      ensures Grown()
      ensures r == Fail(LocationTaken(squatter.id))
      ensures Spawned(m, m.location, squatter, spawnDraw)
      ensures m in grid.byExister <==> m in old(grid.byExister)
      ensures m in old(grid.byExister) ==> grid.byExister[m] == old(grid.byExister[m])
      ensures dst in grid.byLocation && grid.byLocation[dst] == squatter
      decreases 4
    {
      ghost var cell := FirstFree([m.location, squatter.location]);
      if cell.Some? {
        // the free cell is unoccupied, so it is not `dst`
        var _ := FirstFreeFound([m.location, squatter.location]);
      }
      ghost var before := grid.Model();
      Meet(m, squatter, spawnDraw);
      if |peeps| != |old(peeps)| {
        assert cell.value != dst;
        AssignFrame(before, peeps[|old(peeps)|], cell.value, m, dst);
      }
      return Fail(LocationTaken(squatter.id));
    }

    /**
     * What `Move(m, x, y, z)` does, between the state before and after it,
     * with outcome `r`. A target outside the grid and a nonzero Z change
     * nothing. Otherwise the grid is updated as `UpdateGrid` does from the
     * target: a bump into another live peep is a meeting at the target,
     * and on any failure the mover stands where it started.
     */
    twostate predicate MovedBy(m: Peep, x: int, y: int, z: int, spawnDraw: bool, r: Outcome)
      reads this, peeps, grid, m
    {
      var src := old(m.location);
      var dst := Shift(src, x, y, z);
      && (!InGrid(settings.size, dst) ==>
            r == Fail(OutsideWorld) && peeps == old(peeps) && grid.Model() == old(grid.Model()))
      && (InGrid(settings.size, dst) && z != 0 ==>
            r == Fail(VerticalMove) && peeps == old(peeps) && grid.Model() == old(grid.Model()))
      && (InGrid(settings.size, dst) && z == 0 && dst == src ==>
            r == Ok && peeps == old(peeps) && grid.Model() == Assign(old(grid.Model()), m, src))
      && (InGrid(settings.size, dst) && z == 0 && dst != src && !old(Collision(m, dst)) ==>
            r == Ok && peeps == old(peeps) && grid.Model() == Assign(RemoveLocation(old(grid.Model()), src), m, dst))
      && (InGrid(settings.size, dst) && z == 0 && dst != src && old(Collision(m, dst)) ==>
            && r == Fail(LocationTaken(old(grid.byLocation[dst]).id))
            && Spawned(m, dst, old(grid.byLocation[dst]), spawnDraw)
            && (m in grid.byExister <==> m in old(grid.byExister))
            && (m in old(grid.byExister) ==> grid.byExister[m] == old(grid.byExister[m]))
            && dst in grid.byLocation && grid.byLocation[dst] == old(grid.byLocation[dst]))
      && m.location == (if r == Ok then dst else src)
    }

    /**
     * Moves `m` by (x, y, z): refused when the target leaves the grid or
     * `z` is nonzero; otherwise the grid is updated, and on any failure the
     * mover is put back where it was.
     */
    method Move(m: Peep, x: int, y: int, z: int, spawnDraw: bool) returns (r: Outcome)
      requires Valid() && m in peeps
      modifies this`peeps, grid, m`location
      ensures Valid()
      ensures Grown()
      ensures MovedBy(m, x, y, z, spawnDraw, r)
    {
      var src := m.location;
      var bounds := CheckMovementOutsideGrid(settings.size, src, x, y, z);
      if bounds.Fail? {
        return bounds;
      }
      r := StepAxes(m, x, y, z);
      if r.Fail? {
        return;
      }
      ghost var dst := m.location;
      assert Collision(m, dst) == old(Collision(m, dst));
      label stepped:
      r := Relocate(m, src, spawnDraw);
      if dst != src && old(Collision(m, dst)) {
        ghost var sq := old(grid.byLocation[dst]);
        assert old@stepped(SpawnAllowed(m, dst, sq, spawnDraw)) == old(SpawnAllowed(m, dst, sq, spawnDraw));
        assert old@stepped(SpawnCell(dst, sq)) == old(SpawnCell(dst, sq));
      }
    }

    /**
     * The grid part of `Move`, once the mover already stands at its target:
     * `UpdateGrid` from `src` to there, and back to `src` on failure.
     */
    method Relocate(m: Peep, src: Location, spawnDraw: bool) returns (r: Outcome)
      requires Valid() && m in peeps
      modifies this`peeps, grid, m`location
      ensures Valid()
      ensures Grown()
      ensures var dst := old(m.location);
        && (dst == src ==>
              r == Ok && peeps == old(peeps) && grid.Model() == Assign(old(grid.Model()), m, src))
        && (dst != src && !old(Collision(m, dst)) && InGrid(settings.size, dst) ==>
              r == Ok && peeps == old(peeps) && grid.Model() == Assign(RemoveLocation(old(grid.Model()), src), m, dst))
        && (dst != src && old(Collision(m, dst)) ==>
              && r == Fail(LocationTaken(old(grid.byLocation[dst]).id))
              && Spawned(m, dst, old(grid.byLocation[dst]), spawnDraw)
              && (m in grid.byExister <==> m in old(grid.byExister))
              && (m in old(grid.byExister) ==> grid.byExister[m] == old(grid.byExister[m]))
              && dst in grid.byLocation && grid.byLocation[dst] == old(grid.byLocation[dst]))
        && (InGrid(settings.size, dst) ==> m.location == (if r == Ok then dst else src))
    {
      var dst := m.location;
      r := UpdateGrid(m, src, dst, spawnDraw);
      if r.Fail? {
        assert |peeps| > |old(peeps)| ==> peeps[|old(peeps)|] != m;
        m.SetLocation(src);
      }
    }

    /** The per-axis part of `Move`: X and Y steps, then Z, undone when Z refuses. */
    static method StepAxes(m: Peep, x: int, y: int, z: int) returns (r: Outcome)
      modifies m`location
      ensures r == Ok <==> z == 0
      ensures r.Fail? ==> r.error == VerticalMove
      ensures m.location == (if r == Ok then Shift(old(m.location), x, y, z) else old(m.location))
    {
      var src := m.location;
      m.MoveX(x);
      m.MoveY(y);
      r := m.MoveZ(z);
      if r.Fail? {
        m.SetLocation(src);
      }
    }

    // -------------------------------------------------------------------
    // Display

    /**
     * The letter shown for a peep: the first letter of its gender, lower
     * case below half of `maxAge` and upper case from then on.
     */
    function ExisterIcon(e: Peep): (icon: char)
      reads e
      requires e.gender != ""
      ensures ToLower(icon) == ToLower(e.gender[0])
      ensures e.age < settings.maxAge / 2 ==> !IsUpperAscii(icon)
      ensures e.age >= settings.maxAge / 2 ==> !IsLowerAscii(icon)
    {
      var midAge := settings.maxAge / 2;
      if e.age < midAge then ToLower(e.gender[0]) else ToUpper(e.gender[0])
    }
  }

  /**
   * A red peep in a world with `maxAge` 10 shows as 'R' at age 9 and as 'r'
   * at age 1.
   */
  method ExisterIconExample() returns (older: char, younger: char)
    ensures older == 'R' && younger == 'r'
  {
    var w := new World(Settings(10, 20, 0, TestSize, 5, 4), false);
    var p := new Peep(0, "red", Origin);
    p.age := 9;
    older := w.ExisterIcon(p);
    p.age := 1;
    younger := w.ExisterIcon(p);
  }
}

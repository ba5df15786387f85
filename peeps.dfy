/**
 * Peeps: the inhabitants of the world. A peep is an object whose location,
 * age, liveness and last look turn change in place.
 */
module Peeps {
  import opened Outcomes
  import opened Locations

  /** A peep's gender is a name; new random peeps get one of `Genders`. */
  type Gender = string

  const Genders: seq<Gender> := ["blue", "red", "green", "yellow"]

  /** A draw of `rand.Intn(len(genders))`. */
  type GenderChoice = c: nat | c < 4

  /** The gender `NewPeep` gives: the requested one, or a drawn one when none is requested. */
  function ChosenGender(gender: Gender, choice: GenderChoice): (g: Gender)
    ensures g != ""
    ensures gender != "" ==> g == gender
    ensures gender == "" ==> g in Genders
  {
    if gender == "" then Genders[choice] else gender
  }

  // ---------------------------------------------------------------------
  // Letter case of the icon

  predicate IsUpperAscii(c: char) { 'A' <= c <= 'Z' }
  predicate IsLowerAscii(c: char) { 'a' <= c <= 'z' }

  /** `unicode.ToLower` on ASCII letters. */
  function ToLower(c: char): (r: char)
    ensures !IsUpperAscii(r)
    ensures IsUpperAscii(c) ==> IsLowerAscii(r) && r as int - 'a' as int == c as int - 'A' as int
    ensures IsLowerAscii(c) || !IsUpperAscii(c) ==> r == c
  {
    if IsUpperAscii(c) then (c as int + 32) as char else c
  }

  /** `unicode.ToUpper` on ASCII letters. */
  function ToUpper(c: char): (r: char)
    ensures !IsLowerAscii(r)
    ensures IsLowerAscii(c) ==> IsUpperAscii(r) && r as int - 'A' as int == c as int - 'a' as int
    ensures IsUpperAscii(c) || !IsLowerAscii(c) ==> r == c
  {
    if IsLowerAscii(c) then (c as int - 32) as char else c
  }

  // ---------------------------------------------------------------------
  // One aging step

  /**
   * How one pass of aging may change a peep's (age, alive) pair: a dead peep
   * is untouched; a peep at or past `maxAge` dies and keeps its age; a
   * newborn (age 0) cannot die at random, since the death chance involves
   * log10 of the age, which is minus infinity at 0; any other peep either
   * dies keeping its age or survives one year older.
   */
  predicate AgeStep(maxAge: nat, age: nat, alive: bool, age': nat, alive': bool)
  {
    if !alive then !alive' && age' == age
    else if age >= maxAge then !alive' && age' == age
    else if age == 0 then alive' && age' == 1
    else (alive' && age' == age + 1) || (!alive' && age' == age)
  }

  /**
   * Aging never lowers an age and never revives: a peep is alive after the
   * step exactly when it was alive, below `maxAge`, and became one year older.
   */
  lemma AgeStepMonotone(maxAge: nat, age: nat, alive: bool, age': nat, alive': bool)
    requires AgeStep(maxAge, age, alive, age', alive')
    ensures age <= age' <= age + 1
    ensures alive' ==> alive && age < maxAge
    ensures alive' <==> age' == age + 1
  {
  }

  /**
   * The (age, alive) pair one aging pass leaves on a live peep, given the
   * death draw: it is one of the steps `AgeStep` allows.
   */
  function AgeOutcome(maxAge: nat, age: nat, deathDraw: bool): (r: (nat, bool))
    ensures AgeStep(maxAge, age, true, r.0, r.1)
    ensures deathDraw && age > 0 ==> !r.1
    ensures !deathDraw ==> (r.1 <==> age < maxAge)
  {
    if age >= maxAge then (age, false)
    else if age > 0 && deathDraw then (age, false)
    else (age + 1, true)
  }

  class Peep {
    const id: nat
    const gender: Gender
    var age: nat
    var isAlive: bool
    var location: Location
    var lookTurn: int

    /** A live newborn with a fresh id. */
    constructor (id: nat, gender: Gender, location: Location)
      ensures this.id == id && this.gender == gender && this.location == location
      ensures age == 0 && isAlive && lookTurn == 0
    {
      this.id := id;
      this.gender := gender;
      this.location := location;
      age := 0;
      isAlive := true;
      lookTurn := 0;
    }

    method SetLocation(l: Location)
      modifies this`location
      ensures location == l
    {
      location := l;
    }

    /** Moves `steps` along X; Y and Z stay. */
    method MoveX(steps: int)
      modifies this`location
      ensures location == Shift(old(location), steps, 0, 0)
    {
      location := location.(x := location.x + steps);
    }

    /** Moves `steps` along Y; X and Z stay. */
    method MoveY(steps: int)
      modifies this`location
      ensures location == Shift(old(location), 0, steps, 0)
    {
      location := location.(y := location.y + steps);
    }

    /** Peeps cannot move along Z: any nonzero step is an error, and nothing moves. */
    method MoveZ(steps: int) returns (r: Outcome)
      ensures r == Ok <==> steps == 0
      ensures r.Fail? ==> r.error == VerticalMove
    {
      if steps != 0 {
        return Fail(VerticalMove);
      }
      return Ok;
    }

    method AddAge()
      modifies this`age
      ensures age == old(age) + 1
    {
      age := age + 1;
    }

    method Die()
      modifies this`isAlive
      ensures !isAlive
    {
      isAlive := false;
    }

    /**
     * Kills the peep when it has reached `maxAge`, or when the random death
     * draw `deathDraw` succeeds; otherwise adds one year.
     */
    method AgeOrDie(maxAge: nat, deathDraw: bool)
      modifies this`age, this`isAlive
      ensures old(age) >= maxAge ==> !isAlive && age == old(age)
      ensures old(age) < maxAge && old(age) > 0 && deathDraw ==> !isAlive && age == old(age)
      ensures old(age) < maxAge && !(old(age) > 0 && deathDraw) ==>
                isAlive == old(isAlive) && age == old(age) + 1
      ensures old(isAlive) ==> (age, isAlive) == AgeOutcome(maxAge, old(age), deathDraw)
    {
      if age >= maxAge {
        Die();
        return;
      }
      // log10(0) is minus infinity, so a newborn's death draw always fails
      if age > 0 && deathDraw {
        Die();
        return;
      }
      AddAge();
    }
  }
}

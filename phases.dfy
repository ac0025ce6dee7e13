/**
 * The sub-phases of the shooting state (booth.py, class ShootPhase) and their
 * cyclic successor: get ready, then three, two, one, shoot, and after a shot
 * back to three.
 */
module Phases {
  import opened Wrappers

  datatype ShootPhase = GetReady | CountdownThree | CountdownTwo | CountdownOne | Shoot

  /** The enum value booth.py gives each phase; a countdown phase shows it on screen. */
  function Value(p: ShootPhase): (v: int)
    ensures 1 <= v <= 5
    ensures p == Shoot <==> v == 5
  {
    match p
    case GetReady => 4
    case CountdownThree => 3
    case CountdownTwo => 2
    case CountdownOne => 1
    case Shoot => 5
  }

  /** The lookup `ShootPhase(v)`, which has no answer (raises) for a value no phase has. */
  function FromValue(v: int): (r: Option<ShootPhase>)
    ensures r.Some? <==> 1 <= v <= 5
    ensures r.Some? ==> Value(r.value) == v
  {
    if v == 4 then Some(GetReady)
    else if v == 3 then Some(CountdownThree)
    else if v == 2 then Some(CountdownTwo)
    else if v == 1 then Some(CountdownOne)
    else if v == 5 then Some(Shoot)
    else None
  }

  /** `ShootPhase.__next__`: shoot wraps to three, one goes to shoot, the rest count down by value. */
  function Next(p: ShootPhase): (r: ShootPhase)
    ensures r != GetReady
    ensures r == Shoot <==> p == CountdownOne
    ensures p != Shoot && p != CountdownOne ==> Value(r) == Value(p) - 1
  {
    if p == Shoot then CountdownThree
    else if p == CountdownOne then Shoot
    else FromValue(Value(p) - 1).value
  }

  /** The phase reached after `n` advances. */
  function Advance(p: ShootPhase, n: nat): ShootPhase
    decreases n
  {
    if n == 0 then p else Advance(Next(p), n - 1)
  }

  /**
   * From any phase other than shoot, the shot comes after exactly as many
   * advances as the phase's value, and not before: the number shown during a
   * countdown is the number of steps left, and get ready is four steps away.
   */
  lemma {:induction false} StepsToShoot(p: ShootPhase)
    requires p != Shoot
    ensures Advance(p, Value(p)) == Shoot
    ensures forall j :: 0 <= j < Value(p) ==> Advance(p, j) != Shoot
    decreases Value(p)
  {
    if p != CountdownOne {
      var q := Next(p);
      StepsToShoot(q);
      forall j | 0 < j < Value(p)
        ensures Advance(p, j) != Shoot
      {
        assert Advance(p, j) == Advance(q, j - 1);
      }
    }
  }

  /** After a shot the phases repeat with period four: three, two, one, shoot, three. */
  lemma CaptureCycle(p: ShootPhase)
    requires p != GetReady
    ensures Advance(p, 4) == p
  {
  }
}

/**
 * The idiom every role handler repeats: give a command; if the engine answers that the target is
 * out of range, move toward it through the stuck-detecting wrapper; if the wrapper reports the
 * creep stuck, apply the role's recovery. Also the state flip rule shared by the two-phase roles
 * and the engine's closest-object queries.
 */
module RoleSteps {
  import opened Common
  import opened Schema
  import opened World
  import opened Movement

  /** What a role does when the movement wrapper answers ERR_STUCK. */
  datatype Recovery =
    | FlipOnStuck(flag: Flag)           // handleStuck(creep, flag)
    | ClearOnStuck(field: TargetField)  // handleStuckClearProperty(creep, field)
    | StepAndWait                       // one random step, stuckTicks = 0
    | ResetCounter                      // stuckTicks = 0 only
    | AbandonRoom                       // delete targetRoom, stuckTicks = 0
    | SuicideOnStuck                    // creep.suicide()

  /** `m0`/`before` became `m1`/`after` by the recovery `r`. */
  ghost predicate Recovered(before: seq<Action>, m0: CreepMemory, after: seq<Action>, m1: CreepMemory, r: Recovery, answer: Answers)
  {
    match r
    case FlipOnStuck(f) =>
      && EndsWithRandomStep(before, after)
      && m1 == (if StepAnswer(before, after, answer) == OK then m0 else Flip(m0, f)).(stuckTicks := Some(0))
    case ClearOnStuck(f) =>
      && EndsWithRandomStep(before, after)
      && m1 == (if StepAnswer(before, after, answer) == OK then m0 else Clear(m0, f)).(stuckTicks := Some(0))
    case StepAndWait => EndsWithRandomStep(before, after) && m1 == m0.(stuckTicks := Some(0))
    case ResetCounter => after == before && m1 == m0.(stuckTicks := Some(0))
    case AbandonRoom => after == before && m1 == m0.(targetRoom := None, stuckTicks := Some(0))
    case SuicideOnStuck => after == before + [Suicide] && m1 == m0
  }

  /** The movement wrapper's verdict for the answer `code` to a move order and the memory it left. */
  predicate Stuck(code: Code, tracked: CreepMemory)
  {
    Attempted(code) && StuckCount(tracked) >= STUCK_THRESHOLD
  }

  /**
   * A stuck-checked move: the move order, the stuck bookkeeping of the wrapper, and the recovery
   * exactly when the wrapper answered ERR_STUCK.
   */
  ghost predicate Moved(
    before: seq<Action>, m0: CreepMemory, after: seq<Action>, m1: CreepMemory,
    here: XY, target: Pos, range: nat, r: Recovery, answer: Answers)
  {
    var a := Action.MoveTo(target, range);
    var tracked := Track(m0, here, answer(a));
    && (Stuck(answer(a), tracked) ==> Recovered(before + [a], tracked, after, m1, r, answer))
    && (!Stuck(answer(a), tracked) ==> after == before + [a] && m1 == tracked)
  }

  /** A command, followed by a stuck-checked move toward `target` when it was out of range. */
  ghost predicate Commanded(
    before: seq<Action>, m0: CreepMemory, after: seq<Action>, m1: CreepMemory,
    here: XY, cmd: Action, target: Pos, r: Recovery, answer: Answers)
  {
    && (answer(cmd) == ERR_NOT_IN_RANGE ==> Moved(before + [cmd], m0, after, m1, here, target, 0, r, answer))
    && (answer(cmd) != ERR_NOT_IN_RANGE ==> after == before + [cmd] && m1 == m0)
  }

  /** Nothing issued and the memory as given. */
  ghost predicate Idle(before: seq<Action>, m0: CreepMemory, after: seq<Action>, m1: CreepMemory)
  {
    after == before && m1 == m0
  }

  method Recover(creep: Creep, r: Recovery, answer: Answers)
    modifies creep
    ensures Recovered(old(creep.issued), old(creep.memory), creep.issued, creep.memory, r, answer)
  {
    match r
    case FlipOnStuck(f) =>
      HandleStuck(creep, f, answer);
    case ClearOnStuck(f) =>
      HandleStuckClearProperty(creep, f, answer);
    case StepAndWait =>
      RandomStepAndWait(creep, answer);
    case ResetCounter =>
      creep.memory := creep.memory.(stuckTicks := Some(0));
    case AbandonRoom =>
      creep.memory := creep.memory.(targetRoom := None, stuckTicks := Some(0));
    case SuicideOnStuck =>
      var _ := creep.Issue(Suicide, answer);
  }

  /** `moveTo(creep, target, { range })` followed by the role's reaction to ERR_STUCK. */
  method MoveRecovering(creep: Creep, target: Pos, range: nat, r: Recovery, answer: Answers)
    modifies creep
    ensures Moved(old(creep.issued), old(creep.memory), creep.issued, creep.memory, ToXY(creep.pos), target, range, r, answer)
  {
    var code := Movement.MoveTo(creep, target, range, answer);
    if code == ERR_STUCK {
      Recover(creep, r, answer);
    }
  }

  /** `if (creep.<cmd>(target) === ERR_NOT_IN_RANGE) { moveTo(creep, target); ... }`. */
  method CommandRecovering(creep: Creep, cmd: Action, target: Pos, r: Recovery, answer: Answers)
    modifies creep
    ensures Commanded(old(creep.issued), old(creep.memory), creep.issued, creep.memory, ToXY(creep.pos), cmd, target, r, answer)
  {
    var code := creep.Issue(cmd, answer);
    if code == ERR_NOT_IN_RANGE {
      MoveRecovering(creep, target, 0, r, answer);
    }
  }

  /**
   * The two-phase flip: a creep in its spending phase that is empty goes back to gathering, and a
   * gathering creep that is full starts spending.
   */
  function NextPhase(spending: bool, used: nat, free: nat): (r: bool)
    ensures free == 0 ==> r
    ensures used == 0 && free > 0 ==> !r
    ensures used > 0 && free > 0 ==> r == spending
  {
    var afterEmpty := if spending && used == 0 then false else spending;
    if !afterEmpty && free == 0 then true else afterEmpty
  }

  /**
   * `findClosestByPath`: the engine's path search picks one of the candidates. Every candidate
   * is taken to be reachable, so the answer is empty only when there are none.
   */
  method ClosestByPath<T(==)>(candidates: seq<T>) returns (r: Option<T>)
    ensures r.None? <==> |candidates| == 0
    ensures r.Some? ==> r.value in candidates
  {
    if |candidates| == 0 {
      return None;
    }
    assert candidates[0] in candidates;
    var c :| c in candidates;
    return Some(c);
  }

  /** `from.findClosestByRange(objects)`: the first object at the smallest range. */
  function ClosestByRange<T>(from: Pos, objects: seq<T>, posOf: T -> Pos): (i: nat)
    requires |objects| > 0
    ensures i < |objects|
    ensures forall j :: 0 <= j < |objects| ==> Range(from, posOf(objects[i])) <= Range(from, posOf(objects[j]))
    ensures forall j :: 0 <= j < i ==> Range(from, posOf(objects[i])) < Range(from, posOf(objects[j]))
  {
    ArgMin(objects, (x: T) => Range(from, posOf(x)) as int)
  }

  /** Health below num/den of the maximum: `s.hits < s.hitsMax * (num / den)` over exact integers. */
  predicate Below(s: Structure, num: nat, den: nat)
  {
    s.hits * den < s.hitsMax * num
  }

  /**
   * `at.findInRange(FIND_STRUCTURES, 1, { filter: container })[0]`: the first container, in the
   * room's order, within range 1 of `at`.
   */
  function AdjacentContainer(structures: seq<Structure>, at: Pos): (r: Option<Structure>)
    ensures r.Some? ==> r.value in structures && r.value.stype == Container && InRange(r.value.pos, at, 1)
    ensures r.None? ==> forall s :: s in structures && s.stype == Container ==> !InRange(s.pos, at, 1)
  {
    if |structures| == 0 then None
    else if structures[0].stype == Container && InRange(structures[0].pos, at, 1) then Some(structures[0])
    else AdjacentContainer(structures[1..], at)
  }

  /** The centre tile of a room, where roles head when travelling between rooms. */
  function Centre(roomName: string): Pos
  {
    Pos(25, 25, roomName)
  }
}

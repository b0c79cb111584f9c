/**
 * Movement with stuck detection: every attempted move compares the creep's position with the one
 * remembered last time and counts repeats; three repeats make the wrapper answer ERR_STUCK. The
 * recovery first tries one step in a random direction and, if even that fails, flips or deletes a
 * named memory field.
 */
module Movement {
  import opened Common
  import opened Schema
  import opened World

  const STUCK_THRESHOLD: nat := 3

  /** The boolean memory fields a stuck creep may flip. */
  datatype Flag = Working | IsReturning | IsBuilding

  /** The memory fields a stuck creep may delete. */
  datatype TargetField = TargetId | TargetRoom

  function FlagValue(m: CreepMemory, f: Flag): bool
  {
    match f
    case Working => m.working
    case IsReturning => m.isReturning
    case IsBuilding => m.isBuilding
  }

  /** `memory[f] = !memory[f]`; an absent flag reads as false and so becomes true. */
  function Flip(m: CreepMemory, f: Flag): (r: CreepMemory)
    ensures FlagValue(r, f) == !FlagValue(m, f)
    ensures forall g :: g != f ==> FlagValue(r, g) == FlagValue(m, g)
    ensures r.(working := m.working, isReturning := m.isReturning, isBuilding := m.isBuilding) == m
  {
    match f
    case Working => m.(working := !m.working)
    case IsReturning => m.(isReturning := !m.isReturning)
    case IsBuilding => m.(isBuilding := !m.isBuilding)
  }

  /** `delete memory[f]`. */
  function Clear(m: CreepMemory, f: TargetField): (r: CreepMemory)
    ensures f == TargetId ==> r.targetId.None? && r.(targetId := m.targetId) == m
    ensures f == TargetRoom ==> r.targetRoom.None? && r.(targetRoom := m.targetRoom) == m
  {
    match f
    case TargetId => m.(targetId := None)
    case TargetRoom => m.(targetRoom := None)
  }

  /** `memory.stuckTicks || 0`. */
  function StuckCount(m: CreepMemory): nat
  {
    if m.stuckTicks.Some? then m.stuckTicks.value else 0
  }

  /** The engine took the move order: it moved, or will once its fatigue allows. */
  predicate Attempted(c: Code)
  {
    c == OK || c == ERR_TIRED
  }

  /** The stuck bookkeeping after a move order at `here` that the engine answered with `moveResult`. */
  function Track(m: CreepMemory, here: XY, moveResult: Code): (r: CreepMemory)
    // only the counter and the remembered position ever change
    ensures r.(stuckTicks := m.stuckTicks, lastPos := m.lastPos) == m
    // no attempt: the counter restarts and the remembered position stays
    ensures !Attempted(moveResult) ==> r.lastPos == m.lastPos && r.stuckTicks == Some(0)
    // an attempt always remembers where it was made
    ensures Attempted(moveResult) ==> r.lastPos == Some(here)
    // ... and counts one more repeat at the same place, restarts elsewhere, and leaves the
    // counter alone when there was nothing to compare with
    ensures Attempted(moveResult) && m.lastPos == Some(here) ==> r.stuckTicks == Some(StuckCount(m) + 1)
    ensures Attempted(moveResult) && m.lastPos.Some? && m.lastPos != Some(here) ==> r.stuckTicks == Some(0)
    ensures Attempted(moveResult) && m.lastPos.None? ==> r.stuckTicks == m.stuckTicks
  {
    if Attempted(moveResult) then
      var counted :=
        if m.lastPos.None? then m
        else if m.lastPos.value == here then m.(stuckTicks := Some(StuckCount(m) + 1))
        else m.(stuckTicks := Some(0));
      counted.(lastPos := Some(here))
    else m.(stuckTicks := Some(0))
  }

  /** The memory after n move orders in a row at `here`, each one taken by the engine. */
  function Repeated(m: CreepMemory, here: XY, n: nat): CreepMemory
  {
    if n == 0 then m else Track(Repeated(m, here, n - 1), here, OK)
  }

  /** Starting from memory that remembers no position, n attempts in one place count n - 1 repeats. */
  lemma {:induction false} RepeatedCount(m: CreepMemory, here: XY, n: nat)
    requires m.lastPos.None? && StuckCount(m) == 0 && n >= 1
    ensures Repeated(m, here, n).lastPos == Some(here)
    ensures StuckCount(Repeated(m, here, n)) == n - 1
  {
    if n > 1 {
      RepeatedCount(m, here, n - 1);
    }
  }

  /**
   * From fresh memory, a creep that does not move is reported stuck for the first time on its
   * fourth attempt: the first attempt only remembers the position.
   */
  lemma FirstStuckOnFourthCall(m: CreepMemory, here: XY)
    requires m.lastPos.None? && StuckCount(m) == 0
    ensures StuckCount(Repeated(m, here, 1)) < STUCK_THRESHOLD
    ensures StuckCount(Repeated(m, here, 2)) < STUCK_THRESHOLD
    ensures StuckCount(Repeated(m, here, 3)) < STUCK_THRESHOLD
    ensures StuckCount(Repeated(m, here, 4)) >= STUCK_THRESHOLD
  {
    RepeatedCount(m, here, 1);
    RepeatedCount(m, here, 2);
    RepeatedCount(m, here, 3);
    RepeatedCount(m, here, 4);
  }

  /** `moveTo`: order the move, update the stuck bookkeeping, and answer ERR_STUCK after three repeats. */
  method MoveTo(creep: Creep, target: Pos, range: nat, answer: Answers) returns (code: Code)
    modifies creep
    ensures creep.issued == old(creep.issued) + [Action.MoveTo(target, range)]
    ensures creep.memory == Track(old(creep.memory), ToXY(creep.pos), answer(Action.MoveTo(target, range)))
    ensures code == ERR_STUCK <==> Attempted(answer(Action.MoveTo(target, range))) && StuckCount(creep.memory) >= STUCK_THRESHOLD
    ensures code != ERR_STUCK ==> code == answer(Action.MoveTo(target, range))
  {
    var moveResult := creep.Issue(Action.MoveTo(target, range), answer);
    var m := creep.memory;
    if moveResult == OK || moveResult == ERR_TIRED {
      if m.lastPos.Some? {
        var lastPos := m.lastPos.value;
        if lastPos.x == creep.pos.x && lastPos.y == creep.pos.y {
          m := m.(stuckTicks := Some(StuckCount(m) + 1));
        } else {
          m := m.(stuckTicks := Some(0));
        }
      }
      m := m.(lastPos := Some(XY(creep.pos.x, creep.pos.y)));
      creep.memory := m;
      if StuckCount(m) >= STUCK_THRESHOLD {
        return ERR_STUCK;
      }
    } else {
      creep.memory := m.(stuckTicks := Some(0));
    }
    code := moveResult;
  }

  /** The last command `creep` issued is a step in one of the eight directions. */
  predicate EndsWithRandomStep(before: seq<Action>, after: seq<Action>)
  {
    && |after| == |before| + 1
    && after[..|before|] == before
    && after[|before|].Step? && 1 <= after[|before|].direction <= 8
  }

  /** The answer the engine gave to the step that `EndsWithRandomStep` describes. */
  function StepAnswer(before: seq<Action>, after: seq<Action>, answer: Answers): EngineCode
    requires EndsWithRandomStep(before, after)
  {
    answer(after[|before|])
  }

  /**
   * `handleStuck`: one step in a random direction; if the engine refuses it, flip the named
   * flag. Either way the counter restarts.
   */
  method HandleStuck(creep: Creep, property: Flag, answer: Answers)
    modifies creep
    ensures EndsWithRandomStep(old(creep.issued), creep.issued)
    ensures StepAnswer(old(creep.issued), creep.issued, answer) == OK ==> creep.memory == old(creep.memory).(stuckTicks := Some(0))
    ensures StepAnswer(old(creep.issued), creep.issued, answer) != OK ==> creep.memory == Flip(old(creep.memory), property).(stuckTicks := Some(0))
  {
    var randomDir :| 1 <= randomDir <= 8;
    var moveResult := creep.Issue(Step(randomDir), answer);
    if moveResult == OK {
      creep.memory := creep.memory.(stuckTicks := Some(0));
    } else {
      creep.memory := Flip(creep.memory, property).(stuckTicks := Some(0));
    }
  }

  /**
   * `handleStuckClearProperty`: as `HandleStuck`, but a refused step deletes the named field.
   */
  method HandleStuckClearProperty(creep: Creep, property: TargetField, answer: Answers)
    modifies creep
    ensures EndsWithRandomStep(old(creep.issued), creep.issued)
    ensures StepAnswer(old(creep.issued), creep.issued, answer) == OK ==> creep.memory == old(creep.memory).(stuckTicks := Some(0))
    ensures StepAnswer(old(creep.issued), creep.issued, answer) != OK ==> creep.memory == Clear(old(creep.memory), property).(stuckTicks := Some(0))
  {
    var randomDir :| 1 <= randomDir <= 8;
    var moveResult := creep.Issue(Step(randomDir), answer);
    if moveResult == OK {
      creep.memory := creep.memory.(stuckTicks := Some(0));
    } else {
      creep.memory := Clear(creep.memory, property).(stuckTicks := Some(0));
    }
  }

  /**
   * The recovery some roles write out inline: one random step, whatever the engine answers, and
   * the counter restarts.
   */
  method RandomStepAndWait(creep: Creep, answer: Answers)
    modifies creep
    ensures EndsWithRandomStep(old(creep.issued), creep.issued)
    ensures creep.memory == old(creep.memory).(stuckTicks := Some(0))
  {
    var randomDir :| 1 <= randomDir <= 8;
    var _ := creep.Issue(Step(randomDir), answer);
    creep.memory := creep.memory.(stuckTicks := Some(0));
  }
}

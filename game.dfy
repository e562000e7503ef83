/**
 * The Mirror Maze engine (game.js): two players move in mirrored directions
 * over the grid of the current level; a move is committed only when both
 * target cells are free, and a level is won when each player stands on its
 * own goal.
 */
module Game {
  import opened Wrappers
  import opened Levels

  /** One step requested by the player: player 1 moves by it, player 2 against it. */
  datatype Delta = Delta(dx: int, dy: int)

  /** A step of one cell along exactly one axis. */
  predicate IsUnitStep(d: Delta)
  {
    -1 <= d.dx <= 1 && -1 <= d.dy <= 1 && (d.dx == 0) != (d.dy == 0)
  }

  function Abs(n: int): nat
  {
    if n < 0 then -n else n
  }

  /** The keyboard handler (game.js:33-47): the four arrow keys, every other key is ignored. */
  function KeyDirection(key: string): (r: Option<Delta>)
    ensures r.Some? <==> key in ["ArrowLeft", "ArrowRight", "ArrowUp", "ArrowDown"]
    ensures r.Some? ==> IsUnitStep(r.value)
    ensures r == Some(Delta(-1, 0)) <==> key == "ArrowLeft"
    ensures r == Some(Delta(1, 0)) <==> key == "ArrowRight"
    ensures r == Some(Delta(0, -1)) <==> key == "ArrowUp"
    ensures r == Some(Delta(0, 1)) <==> key == "ArrowDown"
  {
    if key == "ArrowLeft" then Some(Delta(-1, 0))
    else if key == "ArrowRight" then Some(Delta(1, 0))
    else if key == "ArrowUp" then Some(Delta(0, -1))
    else if key == "ArrowDown" then Some(Delta(0, 1))
    else None
  }

  /** The arrow key that requests a given unit step. */
  function ArrowKey(d: Delta): string
    requires IsUnitStep(d)
  {
    if d.dx < 0 then "ArrowLeft"
    else if d.dx > 0 then "ArrowRight"
    else if d.dy < 0 then "ArrowUp"
    else "ArrowDown"
  }

  /** Every unit step has exactly one arrow key, in both directions of the mapping. */
  lemma ArrowKeyRoundTrip(d: Delta, key: string)
    ensures IsUnitStep(d) ==> KeyDirection(ArrowKey(d)) == Some(d)
    ensures KeyDirection(key).Some? ==> ArrowKey(KeyDirection(key).value) == key
  {
  }

  /**
   * The touch handler (game.js:59-71): a swipe is horizontal when its
   * horizontal extent is strictly larger, and a non-positive extent on the
   * chosen axis (a tap included) counts as left or up.
   */
  function SwipeDirection(dx: int, dy: int): (r: Delta)
    ensures IsUnitStep(r)
    ensures r.dy == 0 <==> Abs(dx) > Abs(dy)
    ensures Abs(dx) > Abs(dy) ==> r.dx == (if dx > 0 then 1 else -1)
    ensures Abs(dx) <= Abs(dy) ==> r.dy == (if dy > 0 then 1 else -1)
  {
    if Abs(dx) > Abs(dy) then Delta(if dx > 0 then 1 else -1, 0)
    else Delta(0, if dy > 0 then 1 else -1)
  }

  /** Swiping any positive distance along a unit step yields that step. */
  lemma SwipeAlong(d: Delta, k: int)
    requires IsUnitStep(d) && k > 0
    ensures SwipeDirection(d.dx * k, d.dy * k) == d
  {
    if d.dx == 0 {
      assert d.dx * k == 0;
    } else {
      assert d.dy * k == 0;
    }
  }

  /** The positions and obstacles of the level being played (game.js:7-13, 85-91). */
  datatype GameState = GameState(player1: Pos, player2: Pos, goal1: Pos, goal2: Pos, walls: seq<Pos>)

  /**
   * The timer (game.js:15-20). Times are integer milliseconds of an injected
   * clock; `levelTimes` is a sparse array, absent entries are `None`.
   */
  datatype Timer = Timer(startTime: int, currentTime: int, isRunning: bool, levelTimes: seq<Option<int>>)

  /** What a key press or swipe led to: the alert at game.js:161 is `GameCompleted`. */
  datatype Outcome = Blocked | Moved | LevelCleared(next: nat) | GameCompleted(total: int)

  /**
   * The cell test of isValidMove (game.js:120-137): the grid size comes from
   * the catalog entry of `level`, the walls from the game state.
   */
  predicate CanEnter(level: Level, walls: seq<Pos>, p: Pos)
  {
    InBounds(level, p) && p !in walls
  }

  /** `times[k] = t` on a JavaScript array: the array grows with holes when `k` is past its end. */
  function Record(times: seq<Option<int>>, k: nat, t: int): (r: seq<Option<int>>)
    ensures |r| == if k < |times| then |times| else k + 1
    ensures r[k] == Some(t)
    ensures forall i :: 0 <= i < |r| && i != k ==> r[i] == if i < |times| then times[i] else None
  {
    if k < |times| then times[k := Some(t)] else times + seq(k - |times|, _ => None) + [Some(t)]
  }

  /** `levelTimes.reduce((a, b) => a + b, 0)`: reduce visits only the entries present. */
  function TotalTime(times: seq<Option<int>>): int
  {
    if times == [] then 0
    else TotalTime(times[..|times| - 1]) + match times[|times| - 1] { case Some(t) => t case None => 0 }
  }

  /** The recorded value of entry `k`, zero for a hole or an index past the end. */
  function EntryAt(times: seq<Option<int>>, k: nat): int
  {
    if k < |times| && times[k].Some? then times[k].value else 0
  }

  /** Recording a time replaces that entry's share of the total and leaves the rest. */
  lemma {:induction false} TotalAfterRecord(times: seq<Option<int>>, k: nat, t: int)
    ensures TotalTime(Record(times, k, t)) == TotalTime(times) - EntryAt(times, k) + t
    decreases |times|
  {
    var r := Record(times, k, t);
    if k < |times| {
      if k == |times| - 1 {
        assert r[..|r| - 1] == times[..|times| - 1];
      } else {
        var init := times[..|times| - 1];
        assert r[..|r| - 1] == Record(init, k, t);
        TotalAfterRecord(init, k, t);
        assert EntryAt(times, k) == EntryAt(init, k);
      }
    } else {
      TotalOfHoles(times, k - |times|);
      assert r[..|r| - 1] == times + seq(k - |times|, _ => None);
    }
  }

  /** Holes add nothing to the total. */
  lemma {:induction false} TotalOfHoles(times: seq<Option<int>>, n: nat)
    ensures TotalTime(times + seq(n, _ => None)) == TotalTime(times)
  {
    if n > 0 {
      var s := times + seq(n, _ => None);
      assert s[..|s| - 1] == times + seq(n - 1, _ => None);
      TotalOfHoles(times, n - 1);
    } else {
      assert times + seq(n, _ => None) == times;
    }
  }

  /**
   * checkWinCondition (game.js:139-164) as a relation between the state
   * before and after: a win needs each player on its own goal; the level
   * time is recorded only while the timer runs, and the level then either
   * advances by one (with a load scheduled) or, on the last level, the sum
   * of the recorded times is reported.
   */
  ghost predicate WinCheck(level: nat, st: GameState, t: Timer, pending: nat, now: int,
                           level': nat, t': Timer, pending': nat, outcome: Outcome)
  {
    if !(st.player1 == st.goal1 && st.player2 == st.goal2) then
      level' == level && t' == t && pending' == pending && outcome == Moved
    else
      && t' == (if t.isRunning
                then t.(isRunning := false, levelTimes := Record(t.levelTimes, level, now - t.startTime))
                else t)
      && if level + 1 < |LEVELS| then
           level' == level + 1 && pending' == pending + 1 && outcome == LevelCleared(level')
         else
           level' == level && pending' == pending && outcome == GameCompleted(TotalTime(t'.levelTimes))
  }

  /** Both players can step left off the goals in `st`'s cells and back, on the grid of `l`. */
  ghost predicate CanStepOffGoalsAndBack(l: Level, st: Level)
  {
    && CanEnter(l, st.walls, Pos(st.goal1.x - 1, st.goal1.y))
    && CanEnter(l, st.walls, Pos(st.goal2.x + 1, st.goal2.y))
    && CanEnter(l, st.walls, st.goal1)
    && CanEnter(l, st.walls, st.goal2)
  }

  /**
   * In the window after level 4 is won, `currentLevel` names level 5 while
   * the state still holds level 4's cells; `MovePlayers(-1, 0)` then
   * `MovePlayers(1, 0)` commits both moves and the second wins on the last
   * level, so the game reports completion before level 5 is played.
   */
  lemma StepOffGoalsAfterLevel4()
    ensures CanStepOffGoalsAndBack(LEVELS[4], LEVELS[3])
  {
    SegmentCells();
    DeadEndsWellFormed();
  }

  /** On level 5 the same two moves win again after the game was completed, so completion is reported again. */
  lemma StepOffGoalsOnLevel5()
    ensures CanStepOffGoalsAndBack(LEVELS[4], LEVELS[4])
  {
    SegmentCells();
    UltimateChallengeWellFormed();
  }

  /**
   * A game session (the MirrorMaze class of game.js without its canvas).
   * `pendingLoads` counts the level loads scheduled by a win and not yet run
   * (game.js:157-159); until one runs, `currentLevel` already names the next
   * level while `state` still holds the previous level's cells.
   */
  class MirrorMaze {
    var currentLevel: nat
    var state: GameState
    var timer: Timer
    var pendingLoads: nat

    /** Both players stand on free cells: inside the grid of `currentLevel`, off every wall. */
    ghost predicate Valid()
      reads this
    {
      && currentLevel < |LEVELS|
      && CanEnter(LEVELS[currentLevel], state.walls, state.player1)
      && CanEnter(LEVELS[currentLevel], state.walls, state.player2)
    }

    /** The constructor (game.js:2-26) loads the first level. */
    constructor (now: int)
      ensures Valid()
      ensures currentLevel == 0 && pendingLoads == 0
      ensures state == GameState(LEVELS[0].player1, LEVELS[0].player2, LEVELS[0].goal1, LEVELS[0].goal2, LEVELS[0].walls)
      ensures timer == Timer(now, 0, true, [])
    {
      currentLevel := 0;
      state := GameState(Pos(0, 0), Pos(0, 0), Pos(0, 0), Pos(0, 0), []);
      timer := Timer(0, 0, false, []);
      pendingLoads := 0;
      new;
      LoadLevel(0, now);
    }

    /** loadLevel (game.js:81-100): copy the catalog entry and restart the timer. */
    method LoadLevel(levelIndex: nat, now: int)
      requires levelIndex < |LEVELS|
      modifies this
      ensures Valid()
      ensures currentLevel == levelIndex && pendingLoads == old(pendingLoads)
      ensures state == GameState(LEVELS[levelIndex].player1, LEVELS[levelIndex].player2,
                                 LEVELS[levelIndex].goal1, LEVELS[levelIndex].goal2, LEVELS[levelIndex].walls)
      ensures timer == old(timer).(startTime := now, isRunning := true, currentTime := 0)
    {
      currentLevel := levelIndex;
      var level := LEVELS[levelIndex];
      state := GameState(level.player1, level.player2, level.goal1, level.goal2, level.walls);
      timer := timer.(startTime := now, isRunning := true, currentTime := 0);
      StartsAreFree(levelIndex);
    }

    /** The restart button (game.js:30) reloads the level `currentLevel` names. */
    method Restart(now: int)
      requires Valid()
      modifies this
      ensures Valid()
      ensures currentLevel == old(currentLevel) && pendingLoads == old(pendingLoads)
      ensures state == GameState(LEVELS[currentLevel].player1, LEVELS[currentLevel].player2,
                                 LEVELS[currentLevel].goal1, LEVELS[currentLevel].goal2, LEVELS[currentLevel].walls)
      ensures timer == old(timer).(startTime := now, isRunning := true, currentTime := 0)
    {
      LoadLevel(currentLevel, now);
    }

    /**
     * A scheduled load firing (game.js:157-159): it loads the level that
     * `currentLevel` names when it fires, not when it was scheduled.
     */
    method FirePendingLoad(now: int)
      requires Valid() && pendingLoads > 0
      modifies this
      ensures Valid()
      ensures currentLevel == old(currentLevel) && pendingLoads == old(pendingLoads) - 1
      ensures state == GameState(LEVELS[currentLevel].player1, LEVELS[currentLevel].player2,
                                 LEVELS[currentLevel].goal1, LEVELS[currentLevel].goal2, LEVELS[currentLevel].walls)
      ensures timer == old(timer).(startTime := now, isRunning := true, currentTime := 0)
    {
      pendingLoads := pendingLoads - 1;
      LoadLevel(currentLevel, now);
    }

    /** isValidMove (game.js:120-137): a bounds check, then a scan of the walls. */
    method IsValidMove(position: Pos) returns (ok: bool)
      requires currentLevel < |LEVELS|
      ensures ok <==> CanEnter(LEVELS[currentLevel], state.walls, position)
    {
      var level := LEVELS[currentLevel];
      if position.x < 0 || position.x >= level.width || position.y < 0 || position.y >= level.height {
        return false;
      }
      var i := 0;
      while i < |state.walls|
        invariant 0 <= i <= |state.walls|
        invariant position !in state.walls[..i]
      {
        var wall := state.walls[i];
        if wall.x == position.x && wall.y == position.y {
          assert state.walls[i] == position;
          return false;
        }
        assert state.walls[..i + 1] == state.walls[..i] + [wall];
        i := i + 1;
      }
      assert state.walls[..i] == state.walls;
      return true;
    }

    /** checkWinCondition (game.js:139-164), with the clock reading `now`. */
    method CheckWinCondition(now: int) returns (outcome: Outcome)
      requires Valid()
      modifies this
      ensures Valid() && state == old(state)
      ensures WinCheck(old(currentLevel), state, old(timer), old(pendingLoads), now,
                       currentLevel, timer, pendingLoads, outcome)
    {
      var player1OnGoal := state.player1.x == state.goal1.x && state.player1.y == state.goal1.y;
      var player2OnGoal := state.player2.x == state.goal2.x && state.player2.y == state.goal2.y;
      outcome := Moved;
      if player1OnGoal && player2OnGoal {
        if timer.isRunning {
          var completionTime := now - timer.startTime;
          timer := timer.(isRunning := false, levelTimes := Record(timer.levelTimes, currentLevel, completionTime));
        }
        if currentLevel < |LEVELS| - 1 {
          StillOnGrid(currentLevel, state.player1);
          StillOnGrid(currentLevel, state.player2);
          currentLevel := currentLevel + 1;
          pendingLoads := pendingLoads + 1;
          outcome := LevelCleared(currentLevel);
        } else {
          outcome := GameCompleted(TotalTime(timer.levelTimes));
        }
      }
    }

    /**
     * movePlayers (game.js:102-118): player 1's target is its cell plus the
     * step and player 2's its cell minus the step; both move, and the win is
     * checked, only when both targets are free, otherwise nothing changes.
     */
    method MovePlayers(dx: int, dy: int, now: int) returns (outcome: Outcome)
      requires Valid()
      modifies this
      ensures Valid()
      ensures
        var newPlayer1 := Pos(old(state).player1.x + dx, old(state).player1.y + dy);
        var newPlayer2 := Pos(old(state).player2.x - dx, old(state).player2.y - dy);
        if CanEnter(LEVELS[old(currentLevel)], old(state).walls, newPlayer1)
           && CanEnter(LEVELS[old(currentLevel)], old(state).walls, newPlayer2)
        then
          && state == old(state).(player1 := newPlayer1, player2 := newPlayer2)
          && WinCheck(old(currentLevel), state, old(timer), old(pendingLoads), now,
                      currentLevel, timer, pendingLoads, outcome)
        else
          && outcome == Blocked
          && state == old(state) && currentLevel == old(currentLevel)
          && timer == old(timer) && pendingLoads == old(pendingLoads)
    {
      var newPlayer1 := Pos(state.player1.x + dx, state.player1.y + dy);
      var newPlayer2 := Pos(state.player2.x - dx, state.player2.y - dy);
      var ok1 := IsValidMove(newPlayer1);
      var ok2 := IsValidMove(newPlayer2);
      if ok1 && ok2 {
        state := state.(player1 := newPlayer1, player2 := newPlayer2);
        outcome := CheckWinCondition(now);
      } else {
        outcome := Blocked;
      }
    }
  }
}

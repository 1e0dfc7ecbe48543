# Star Pusher: a verified model of the Sokoban core

Star Pusher is a Sokoban game with a reinforcement-learning side. This project models its simulation core in Dafny and proves properties of that model. The core has two halves:

- **The numeric-grid training environment `SokobanEnv`.** Cells hold the codes 0 empty, 1 wall, 2 box, 3 target, 4 box on target and 5 player. The model covers:
  - the push physics of `step` and its bookkeeping (box list, on-target count, step counter);
  - the shaped reward;
  - the curriculum scheduler of `reset`;
  - the seven-channel observation;
  - the converters between level text and numeric grids.
- **The character-map game of `starpusher.py`**, repeated in `starpusher_specify_map_ai_verify.py`. The model covers:
  - `read_map`, `isWall`, `isBlocked`, `makeMove` with its training log, `isLevelFinished` and the recursive `floodFill`;
  - level navigation and the replay of a recorded action string;
  - the level-file splitting and export of `prepare_dataset.py`;
  - the state-to-grid encoder of `ai_assistant.py`.

A refinement lemma (`AiMap.MoveRefines`) connects the two physics implementations. Under `convert_to_ai_map`, a character-map move of `makeMove` matches the environment's `step` on the encoded board.

## Modules

| file | module | contents |
|---|---|---|
| common.dfy | Common | `Option`, `Result` |
| grid.dfy | Grid | positions, rectangular grids, row-major scans, cell counts |
| text.dfy | Text | Python's `strip`, `split`, `join`, `readlines`, `str(n)` |
| encoders.dfy | Encoders | `chars_to_numerical`, `numerical_to_chars`, the one-hot channels |
| physics.dfy | Physics | the move resolver of `step` and `_move_player` on values |
| rewards.dfy | Rewards | distances, positioning, accessibility, corners, the step reward |
| curriculum.dfy | Curriculum | the phase machine and map ranges of `reset`, the step limit |
| environment.dfy | Environment | class `SokobanEnv` over an `array2<int>` room |
| char_game.dfy | CharGame | `read_map`, `makeMove`, navigation, classes `Session` and `LevelRun` |
| flood_fill.dfy | FloodFill | the in-place recursive `floodFill` on an `array2<char>` |
| dataset.dfy | Dataset | `select_maps`, `choose_all_maps`, `export_to_txt_file` |
| ai_map.dfy | AiMap | `convert_to_ai_map` and the refinement of `makeMove` by `step` |

## Model

| member | source | states |
|---|---|---|
| Physics.Direction | Star_pusher/model_related.py:1388-1389 | each action moves one cell along exactly one axis |
| Physics.MovePlayer | Star_pusher/model_related.py:1611-1624 | the destination becomes 5; the vacated cell becomes 0 if it showed the player, else 3; all other cells are unchanged |
| Physics.MovePlayerErasesTarget | Star_pusher/model_related.py:1611-1624 | after any walk or push, the player's old cell is 0, so a target the player stood on is erased and the restore-to-3 branch is never taken |
| Physics.WalkedOverTargetIsLost | Star_pusher/model_related.py:1613-1616 | concrete case: in the row [5, 3, 0], two steps right give [0, 0, 5], although (0, 1) is still a listed target |
| Physics.FirstIndex | Star_pusher/starpusher.py:531 | `list.index`: the first position holding the value |
| Physics.RemoveFirst | Star_pusher/model_related.py:1470 | `list.remove`: exactly one occurrence is dropped (multiset difference) |
| Physics.BlockedLeavesBoard | Star_pusher/model_related.py:1402-1477 | a blocked action (off grid, wall, or box whose far cell is off grid, a wall or a box) leaves room, player, box list and on-target count unchanged; the player moves iff the action is not blocked |
| Physics.WalkMovesPlayer | Star_pusher/model_related.py:1478-1480 | a walk moves the player one cell and rewrites only its two cells; boxes and count are unchanged |
| Physics.PushMovesOneBox | Star_pusher/model_related.py:1449-1475 | a push moves exactly one box one cell in the action's direction: the box list loses that box and gains the far cell, and the player ends in the box's old cell |
| Physics.PushNext | Star_pusher/model_related.py:1449-1475 | the pushed board spelled out: room after `PushRoom`, player, box list and count changed by `OnTargetChange` |
| Physics.PushRoomCells | Star_pusher/model_related.py:1454-1467 | the origin cell goes 2→0 or 4→3, then becomes the player; the destination goes 0→2 or 3→4 |
| Physics.PushRoomCount | Star_pusher/model_related.py:1454-1467 | the number of 4-cells changes by exactly the on-target change, which is in {-1, 0, +1} |
| Physics.PushRoomBoxCells | Star_pusher/model_related.py:1454-1471 | after a push, every listed box cell shows 2 or 4 and every other cell shows neither |
| Physics.ReplaceDistinct | Star_pusher/model_related.py:1470-1471 | remove-then-append keeps the box list duplicate-free and has the expected members |
| Physics.NextConsistent | Star_pusher/model_related.py:1383-1477 | every action keeps the bookkeeping consistent with the room: player cell, box cells, distinct boxes, on-target count |
| Physics.WalkConsistent | Star_pusher/model_related.py:1478-1480 | a walk keeps the bookkeeping consistent |
| Physics.PushConsistent | Star_pusher/model_related.py:1449-1475 | a push keeps the bookkeeping consistent |
| Physics.MovePlayerKeepsCount | Star_pusher/model_related.py:1611-1624 | moving the player does not change the number of boxes on targets |
| Physics.MovePlayerKeepsBoxCells | Star_pusher/model_related.py:1611-1624 | moving the player between box-free cells keeps every box cell |
| Physics.NextKeepsCodes | Star_pusher/model_related.py:1383-1477 | a step writes only codes 0..5 |
| Rewards.Uncovered | Star_pusher/model_related.py:1328-1330 | the targets kept are exactly those whose cell is not 4 |
| Rewards.Closest | Star_pusher/model_related.py:1326-1335 | the strict `<` scan keeps the first nearest target: no target is nearer, and every earlier one is strictly farther |
| Rewards.Nearest | Star_pusher/model_related.py:1269-1277 | the minimum distance is reached by some target and bounds all others |
| Rewards.ManhattanTriangle | Star_pusher/model_related.py:1276 | the Manhattan distance satisfies the triangle inequality |
| Rewards.NearestLipschitz | Star_pusher/model_related.py:1269-1277 | moving a box one cell changes its nearest-target distance by at most the cells moved |
| Rewards.SumNearestZero | Star_pusher/model_related.py:1258-1283 | the sum is 0 iff there is nothing to measure against or every counted box stands on a measured position |
| Rewards.DistancesZero | Star_pusher/model_related.py:1258-1283 | `_calculate_distances` is 0 iff no target is uncovered or every box is in the target list |
| Rewards.BoxTargetDistancesZero | Star_pusher/model_related.py:1284-1314 | `_calculate_box_target_distances` is 0 iff the state has no 2-cell or no 3-cell |
| Rewards.OnTargetReward | Star_pusher/model_related.py:1485-1488 | +1.5 per box placed, −0.5 per box removed; the sign follows the change |
| Rewards.DistanceShaping | Star_pusher/model_related.py:1491-1501 | positive iff the total distance fell, negative iff it rose, between −0.1 and +0.3 per unit |
| Rewards.SpecificShaping | Star_pusher/model_related.py:1503-1522 | the per-box bonus is never negative |
| Rewards.SpecificShapingOneCell | Star_pusher/model_related.py:1503-1522 | for a one-cell push the per-box bonus is exactly 0 or 0.2 |
| Rewards.NearBox | Star_pusher/model_related.py:1525-1532 | true iff some neighbour offset lands in bounds on a 2 or 4 cell |
| Rewards.Proximity | Star_pusher/model_related.py:1524-1532 | 0.05 iff the player has a box neighbour, else 0; added at most once |
| Rewards.PushCellBehindBox | Star_pusher/model_related.py:1340-1355 | the ideal push cell is adjacent to the box and one farther from the target; when \|dx\| = \|dy\| it is in the box's row (the column-axis tie-break), and when \|dx\| > \|dy\| it is in the box's column |
| Rewards.BoxPositioning | Star_pusher/model_related.py:1320-1368 | one box's share is in [0, 0.3], and positive only for a box not on a target with an uncovered target |
| Rewards.Positioning | Star_pusher/model_related.py:1316-1369 | the positioning reward is between 0 and 0.3 per box |
| Rewards.PositioningFullShare | Star_pusher/model_related.py:1357-1367 | a player standing on a free in-bounds push cell earns the full 0.3 for that box |
| Rewards.FreeSides | Star_pusher/model_related.py:1373-1379 | the count of free sides is at most the number of offsets |
| Rewards.AccessibleTwoSides | Star_pusher/model_related.py:1371-1381 | `_is_box_accessible` iff two different in-bounds sides hold 0, 3 or 5 |
| Rewards.CornerOrientations | Star_pusher/model_related.py:1562-1580 | a box is seen as cornered iff it has walls right and below, or left and above (in-bounds code 1) |
| Rewards.UpperRightCornerMissed | Star_pusher/model_related.py:1562-1577 | a box with walls above and to its right is not detected |
| Rewards.CornerPenalty | Star_pusher/model_related.py:1552-1580 | −0.4 per cornered box not on a target cell and not in the target list; in [−0.4·n, 0] |
| Rewards.AccessPenalty | Star_pusher/model_related.py:1542-1550 | −0.8 iff the pushed box is not accessible and not on a 4-cell, else 0 |
| Rewards.OffGridReward | Star_pusher/model_related.py:1402-1417 | leaving the grid earns exactly −0.1 |
| Rewards.CompletionOverride | Star_pusher/model_related.py:1582-1586 | any on-grid step that ends with every box on a target earns exactly 10.0 |
| Rewards.BlockedReward | Star_pusher/model_related.py:1420-1540 | a blocked on-grid move that does not complete earns −0.1 (wall) or −0.2 (box) plus proximity and positioning only |
| Curriculum.RateComparisons | Star_pusher/model_related.py:1179-1188 | the cross-multiplied tests `5·sum ≥ 3·n` and `4·sum < n` are the rate comparisons ≥ 0.6 and < 0.25 |
| Curriculum.DivideCompare | Star_pusher/model_related.py:1179-1182 | for n > 0, sum/n ≥ c iff sum ≥ c·n |
| Curriculum.UpdateBounds | Star_pusher/model_related.py:1177-1195 | the phase stays in [0, 4] and moves by at most one; a phase change clears the buffer; the buffer never exceeds 2·30 |
| Curriculum.UpdateTransitions | Star_pusher/model_related.py:1177-1195 | advance iff the buffer is full, the rate is ≥ 0.6 and the phase is < 4; regress iff it is full, the rate is < 0.25 and the phase is > 0; a short buffer changes nothing |
| Curriculum.AdvanceAtThreshold | Star_pusher/model_related.py:1182-1186 | 18 successes in 30 advance phase 0 to 1 with an empty buffer |
| Curriculum.ClampPhase | Star_pusher/model_related.py:1207 | `max(0, min(phase, 4))` is in [0, 4] and the identity there |
| Curriculum.MapRangeNonEmpty | Star_pusher/model_related.py:1198-1217 | the range never ends past the map count, and it is non-empty iff its start is below the count |
| Curriculum.MapRangesTile | Star_pusher/model_related.py:1198-1204 | with at least 8 maps the five ranges [0,1), [1,3), [3,5), [5,7), [7,n) are non-empty and tile 0..n−1 |
| Curriculum.MaxSteps | Star_pusher/model_related.py:1588-1593 | the step limit is 100, 150 or 200, and 200 iff the phase is 4 |
| Curriculum.SumRepeat | Star_pusher/model_related.py:1179 | n copies of v sum to v·n |
| Encoders.NumOf | Star_pusher/model_related.py:2025-2041 | every character maps to a code; an unknown one leaves the 0 of the zero grid |
| Encoders.CharOf | Star_pusher/model_related.py:2058-2075 | each code prints as a known character, never `+`, that parses back to it |
| Encoders.Lines | Star_pusher/model_related.py:2015 | `strip().split('\n')` always yields at least one line |
| Encoders.CellCode | Star_pusher/model_related.py:2038-2041 | a cell's code is a valid code |
| Encoders.ParseNumeric | Star_pusher/model_related.py:2012-2053 | fails iff a known character stands beyond the first line's width (numpy IndexError); otherwise a height×width grid of valid codes |
| Encoders.FilledGrid | Star_pusher/model_related.py:2022-2041 | the filled grid has the lines' shape and every cell's code |
| Encoders.CharsToNumerical | Star_pusher/model_related.py:2012-2053 | the array method succeeds iff the value model does, and then holds the same grid |
| Encoders.FillGrid | Star_pusher/model_related.py:2038-2041 | the nested loops succeed iff nothing overflows, and then fill `FilledGrid` |
| Encoders.FillLine | Star_pusher/model_related.py:2039-2041 | the inner loop writes row i's codes, touches no other row, and fails iff a known character overflows |
| Encoders.ParseFilled | Star_pusher/model_related.py:2012-2053 | a grid of the parsed shape holding every cell's code is the parse result |
| Encoders.CellChar | Star_pusher/model_related.py:2074-2079 | the printed character parses back to the code, and is `+` iff a player stands on a listed position |
| Encoders.RowChars | Star_pusher/model_related.py:2071-2082 | one printed character per cell, in order |
| Encoders.Rows | Star_pusher/model_related.py:2071-2084 | one printed line per row |
| Encoders.LinesOfJoin | Star_pusher/model_related.py:2015 | trimmed lines joined with newlines are split back into the same lines |
| Encoders.NumericRoundTrip | Star_pusher/model_related.py:2012-2084 | `chars_to_numerical(numerical_to_chars(g, ps)) == g` for a rectangular grid of valid codes whose rows start and end with a non-empty cell |
| Encoders.CharsRoundTrip | Star_pusher/model_related.py:2012-2084 | a trimmed rectangular text of level characters survives parse-then-print, with the `+` cells passed as player-on-target positions |
| Encoders.ParseKnownLines | Star_pusher/model_related.py:2012-2053 | such a text parses to `FilledGrid` of its lines |
| Encoders.PrintFilled | Star_pusher/model_related.py:2055-2084 | printing the parsed grid with the `+` cells listed gives back the lines |
| Encoders.Channel | Star_pusher/model_related.py:1636-1650 | a valid code lights exactly one of the 7 channels; channel 2 iff a player is on a target |
| Encoders.ObsValue | Star_pusher/model_related.py:1629-1650 | each entry is 0 or 1, and 1 exactly at the lit channel |
| Encoders.DecodeChannel | Star_pusher/model_related.py:1636-1650 | a channel reads back to a valid code, and "on target" only for the player |
| Encoders.OneHotRoundTrip | Star_pusher/model_related.py:1626-1652 | every code lights exactly one channel, and decoding it returns the code and the on-target flag |
| Environment.LoadedConsistent | Star_pusher/model_related.py:1220-1238 | the board read off a playable level is consistent, and its targets lie inside it |
| Environment.StepKeepsInvariant | Star_pusher/model_related.py:1383-1477 | a step keeps the environment's board invariant |
| Environment.DirectionLetter | Star_pusher/model_related.py:1657-1664 | the letter is `X` iff the action is outside 0..3 |
| Environment.DirectionLetterMatches | Star_pusher/model_related.py:1657-1664 | U, D, L, R name exactly the offsets their actions move by |
| Environment.PlayerOnTarget | Star_pusher/model_related.py:1667-1670 | exactly the listed targets whose cell now shows the player |
| Environment.SokobanEnv.constructor | Star_pusher/model_related.py:1130-1172 | phase 0, empty buffer, the first map loaded, last direction 0 |
| Environment.SokobanEnv.AdvanceCurriculum | Star_pusher/model_related.py:1177-1195 | phase and buffer become `Update` of the old ones; nothing else changes |
| Environment.SokobanEnv.LoadMap | Star_pusher/model_related.py:1220-1238 | a fresh copy of the level, with the player, box list and on-target count read off it |
| Environment.SokobanEnv.LoadTargets | Star_pusher/model_related.py:1233-1244 | targets in row-major order, starting distances, steps reset to 0 |
| Environment.SokobanEnv.Reset | Star_pusher/model_related.py:1174-1256 | curriculum step, then the chosen map in the phase's range; info holds the clamped phase |
| Environment.SokobanEnv.GetObservation | Star_pusher/model_related.py:1626-1652 | a fresh 7×h×w array holding the one-hot encoding of every cell |
| Environment.SokobanEnv.WriteCell | Star_pusher/model_related.py:1455-1465 | one cell of the room is written |
| Environment.SokobanEnv.MovePlayerTo | Star_pusher/model_related.py:1611-1624 | the room becomes `MovePlayer` of the old one; everything else is unchanged |
| Environment.SokobanEnv.Push | Star_pusher/model_related.py:1449-1475 | the room becomes `PushRoom`, the box list is remove-then-append, and the count changes by the on-target change |
| Environment.SokobanEnv.Walk | Star_pusher/model_related.py:1478-1480 | the board becomes `Next` of the old one |
| Environment.SokobanEnv.Move | Star_pusher/model_related.py:1402-1480 | returns the branch taken, and the board becomes `Next` of the old one |
| Environment.SokobanEnv.ShapeReward | Star_pusher/model_related.py:1482-1580 | accumulates exactly `ShapedReward` and the new distance total |
| Environment.SokobanEnv.Play | Star_pusher/model_related.py:1402-1580 | the move and its reward, equal to `StepReward` |
| Environment.SokobanEnv.Tally | Star_pusher/model_related.py:1392-1597 | steps +1 on every action (blocked ones included); terminated iff won on grid; truncated iff steps ≥ limit; 1 and 0 appended to the buffer accordingly |
| Environment.SokobanEnv.Step | Star_pusher/model_related.py:1383-1609 | the whole `step`: new board, reward, steps +1, termination and truncation flags, buffer appends and info |
| Environment.SokobanEnv.TextRepresentation | Star_pusher/model_related.py:1654-1678 | the board printed with players on targets shown as `+`, and the letter of the last action |
| CharGame.Offset | Star_pusher/starpusher.py:500-519 | every direction moves one cell along one axis |
| CharGame.Letters | Star_pusher/starpusher.py:500-519 | one letter per move |
| CharGame.DecodeActions | Star_pusher/starpusher_specify_map_ai_verify.py:46-60 | one move per L/R/U/D character, in order; other characters are dropped |
| CharGame.DecodeAppend | Star_pusher/starpusher_specify_map_ai_verify.py:50-58 | decoding distributes over concatenation |
| CharGame.LettersRoundTrip | Star_pusher/starpusher.py:500-519 | a training log decodes back to the moves that produced it |
| CharGame.AiActions | Star_pusher/ai_assistant.py:56-71 | "LRRD" decodes to left, right, right, down |
| CharGame.ParseLevel | Star_pusher/starpusher.py:712-753 | each outcome exactly when its condition holds, checked in the source's order: a row shorter than the first fails; else no `@` in the scanned columns fails (`+` is not a start); else an empty goal scan fails; else fewer stars than goals fails; otherwise success, with the player at the last `@` in row-major order and goals from `.`/`*`, stars from `$`/`*`, each in row-major order |
| CharGame.ReadMap | Star_pusher/starpusher_specify_map_ai_verify.py:489-530 | the nested loops compute exactly `ParseLevel` |
| CharGame.ParsedWellPlaced | Star_pusher/starpusher.py:732-736 | the parsed stars are distinct and on open cells of the map |
| CharGame.IsWall | Star_pusher/starpusher.py:376-383 | a wall is on the map; false off the map |
| CharGame.IsBlocked | Star_pusher/starpusher.py:466-479 | true iff off the map, `#`, `x`, or a star |
| CharGame.MoveEffect | Star_pusher/starpusher.py:482-539 | refused iff a wall or an unpushable star is ahead, with nothing changed; otherwise the player steps one cell, and at most the star ahead changes, in place at its index, one cell further |
| CharGame.MoveKeepsWellPlaced | Star_pusher/starpusher.py:527-532 | a move keeps the stars distinct and on open cells |
| CharGame.MovePermutesStars | Star_pusher/starpusher.py:531-532 | the star multiset loses the pushed star and gains its new cell |
| CharGame.ReplaceMultiset | Star_pusher/starpusher.py:532 | an in-place replacement swaps one multiset element |
| CharGame.WalkOffMap | Star_pusher/starpusher.py:376-383 | on an unwalled map, the player walks off the map |
| CharGame.NextIndex | Star_pusher/starpusher.py:172-195 | the index stays in [0, n); reset keeps it |
| CharGame.NavigationInverse | Star_pusher/starpusher.py:182-193 | back undoes next, and next undoes back |
| CharGame.Forward | Star_pusher/starpusher.py:182-185 | k forward steps stay in [0, n) |
| CharGame.ForwardCycle | Star_pusher/starpusher.py:182-185 | up to one full round, k forward steps add k modulo n; n steps return to the start |
| CharGame.Session.constructor | Star_pusher/starpusher.py:163 | index 0, empty training log |
| CharGame.Session.Navigate | Star_pusher/starpusher.py:172-195 | the log is cleared and the index becomes `NextIndex` |
| CharGame.LevelRun.constructor | Star_pusher/starpusher_specify_map_ai_verify.py:163-174 | a copy of the start state, step counter 0, the decoded replay queue, `ai_step` 0, interval 500 |
| CharGame.LevelRun.MakeMove | Star_pusher/starpusher.py:482-539 | the new state is `Move` of the old; the log grows by the move's letter iff the move succeeded |
| CharGame.LevelRun.Shift | Star_pusher/starpusher.py:521-539 | the in-place position updates produce `Move` |
| CharGame.LevelRun.IsLevelFinished | Star_pusher/starpusher.py:833-839 | true iff every goal holds a star |
| CharGame.LevelRun.Apply | Star_pusher/starpusher_specify_map_ai_verify.py:198-208 | no move once the level is complete; otherwise the move is applied, the step counter grows iff it succeeded, and completion is set iff every goal holds a star |
| CharGame.LevelRun.ReplayTick | Star_pusher/starpusher_specify_map_ai_verify.py:184-195 | a move is issued iff the interval is negative and actions remain; `ai_step` grows by at most one and never passes the queue length; the interval resets to 1000 then counts down |
| CharGame.WallPrefix | Star_pusher/starpusher_specify_map_ai_verify.py:63-73 | the stripped lines from the start while each begins with `#`; the next line, if any, does not |
| FloodFill.Filled | Star_pusher/starpusher.py:756-775 | the grid keeps its shape |
| FloodFill.FilledChanges | Star_pusher/starpusher.py:756-775 | only cells holding the old character change, each to the new one: exactly those reachable from the start |
| FloodFill.FilledIdempotent | Star_pusher/starpusher.py:756-775 | filling again from the same cell changes nothing |
| FloodFill.NothingLeft | Star_pusher/starpusher.py:756-775 | after a fill, no old-character cell is reachable from the start |
| FloodFill.Fill | Star_pusher/starpusher.py:756-775 | the recursive in-place fill leaves exactly `Filled` of the old grid |
| FloodFill.Claim | Star_pusher/starpusher.py:765-766 | the start cell is overwritten iff it holds the old character |
| FloodFill.Spread | Star_pusher/starpusher.py:768-775 | each guarded recursive call keeps the fill invariant and seals one more neighbour |
| FloodFill.Neighbour | Star_pusher/starpusher.py:768-775 | the four tried cells are orthogonal neighbours |
| FloodFill.SealedAll | Star_pusher/starpusher.py:768-775 | after the four calls, no neighbour holds the old character |
| FloodFill.TwoCellFill | Star_pusher/starpusher.py:756-775 | concrete case: `"  "` filled from (0,0) becomes `"oo"` |
| Dataset.ScanKeepsLines | Star_pusher/prepare_dataset.py:70-77 | the closed maps plus the open one are exactly the file's stripped `#` lines, and no closed map is empty |
| Dataset.SelectMapsKeepsLines | Star_pusher/prepare_dataset.py:62-81 | at least one map; maps laid end to end are the `#` lines; only the last map can be empty |
| Dataset.SelectMapsBoxoban | Star_pusher/prepare_dataset.py:62-81 | a file of headed levels splits back into those levels |
| Dataset.ScanBlock | Star_pusher/prepare_dataset.py:72-77 | a level block closes the current map if it is non-empty, then collects the block's rows |
| Dataset.RowLines | Star_pusher/prepare_dataset.py:86-88 | each row followed by a newline |
| Dataset.StripLine | Star_pusher/prepare_dataset.py:77 | a map row with its newline strips back to the row |
| Dataset.PathJoin | Star_pusher/prepare_dataset.py:42 | the joined path ends with the file name; an absolute name wins; a relative name keeps the directory as prefix, with at most one `/` added and only when the directory does not already end in one |
| Dataset.SelectMapsIn | Star_pusher/prepare_dataset.py:62-81 | the loop computes `SelectMaps` of the chosen file and its joined path |
| Dataset.Stem | Star_pusher/prepare_dataset.py:43 | `name[:-4]`: the name without its last four characters |
| Dataset.Names | Star_pusher/prepare_dataset.py:57 | `<stem>_<i>.txt` for i from 0 |
| Dataset.MapNameInjective | Star_pusher/prepare_dataset.py:50-57 | with one stem, `<stem>_<i>.txt` equals `<stem>_<j>.txt` iff `i == j` |
| Dataset.NamesDistinct | Star_pusher/prepare_dataset.py:43-57 | the names given to the maps of one file are pairwise distinct (across files, two names with the same `[:-4]` stem, such as `a.txt` and `a.bak`, give the same `a_0.txt`) |
| Dataset.ChooseAllMaps | Star_pusher/prepare_dataset.py:35-59 | maps and names have equal length |
| Dataset.ChooseAllMapsKeepsLines | Star_pusher/prepare_dataset.py:35-59 | the maps laid end to end are every file's `#` lines, in file order |
| Dataset.SingleFileAgrees | Star_pusher/prepare_dataset.py:35-59 | on one file, the loop as written equals the corrected version |
| Dataset.StaleCurrentMap | Star_pusher/prepare_dataset.py:45-57 | two concrete files where the loop as written returns the first file's map twice, grown by the second file's first row |
| Dataset.StaleFirstFile | Star_pusher/prepare_dataset.py:45-57 | after a one-row file, the returned map is still the live `current_map` |
| Dataset.StaleSecondFile | Star_pusher/prepare_dataset.py:45-57 | the next file's first row joins that shared list |
| Dataset.StaleCorrected | Star_pusher/prepare_dataset.py:35-59 | the corrected version returns the three maps the files hold |
| Dataset.ChooseAllMapsIn | Star_pusher/prepare_dataset.py:35-59 | the loop with its list objects, aliasing included, yields exactly `ChooseAllMapsAsWritten` |
| Dataset.TakeLine | Star_pusher/prepare_dataset.py:46-54 | one line of the inner loop mirrors `PassLine` |
| Dataset.CloseMap | Star_pusher/prepare_dataset.py:48-52 | the `;` test appends the current list object and starts a fresh one |
| Dataset.AddRowTo | Star_pusher/prepare_dataset.py:53-54 | the `#` test appends to the current list, visible through every alias |
| Dataset.ExportToTxt | Star_pusher/prepare_dataset.py:83-91 | the written text is the rows, each plus newline, then a newline, then the actions |
| Dataset.ExportedLines | Star_pusher/prepare_dataset.py:83-91 | read back by `readlines`: the row lines, an empty line, then the action lines |
| Dataset.ExportReadBack | Star_pusher/prepare_dataset.py:86-89 | the exported text read back line by line starts with the row lines |
| Dataset.WallPrefixRows | Star_pusher/starpusher_specify_map_ai_verify.py:66-71 | the `#`-prefix filter on exported text recovers exactly the rows when every row starts with `#` |
| Dataset.WallPrefixLength | Star_pusher/starpusher_specify_map_ai_verify.py:66-71 | it recovers as many lines as there are rows |
| AiMap.AiCell | Star_pusher/ai_assistant.py:34-50 | every cell code is in 0..5 |
| AiMap.ConvertToAiMap | Star_pusher/ai_assistant.py:22-53 | a height×width grid of codes in 0..5, each cell by the priority of `AiCell` |
| AiMap.ConvertToAiMapIn | Star_pusher/ai_assistant.py:22-53 | the nested loops fill an array equal to `ConvertToAiMap` |
| AiMap.AiCellMeaning | Star_pusher/ai_assistant.py:34-50 | `#`→1 regardless of player or stars; else player→5; else star→4 on a goal, else 2; else `.`→3; else 0 |
| AiMap.HiddenGoals | Star_pusher/ai_assistant.py:39-50 | a `*` goal without star or player encodes as 0, not 3; a player on a goal encodes as 5 |
| AiMap.CountBoxesOnTarget | Star_pusher/ai_assistant.py:41-45 | the number of 4-cells equals the stars on goals that are neither under the player nor on a wall |
| AiMap.ActionOf | Star_pusher/model_related.py:1388 | the environment action whose direction is the character move's offset |
| AiMap.EncodeConsistent | Star_pusher/ai_assistant.py:22-53 | a faithful character state encodes to a consistent environment board |
| AiMap.MoveRefines | Star_pusher/starpusher.py:482-539 | under `convert_to_ai_map`, `makeMove` matches `step`: it moves iff `step` is not blocked, and the new player, grid and star multiset match `step`'s board |
| Text.StripSpec | Star_pusher/prepare_dataset.py:54 | `strip` keeps a contiguous slice and drops only whitespace |
| Text.StripEnds | Star_pusher/prepare_dataset.py:54 | what `strip` keeps neither starts nor ends with whitespace |
| Text.StripTrimmed | Star_pusher/model_related.py:2015 | a string with non-space ends is its own strip |
| Text.StripNoLeadingSpace | Star_pusher/prepare_dataset.py:54 | a line starting with `#` loses only trailing whitespace |
| Text.IndexOf | Star_pusher/model_related.py:2015 | the first occurrence of the separator, or the length |
| Text.Split | Star_pusher/model_related.py:2015 | `split` yields at least one piece and none holds the separator |
| Text.SplitJoin | Star_pusher/model_related.py:2084 | splitting a join of separator-free pieces gives them back |
| Text.ReadLines | Star_pusher/prepare_dataset.py:46 | `readlines` never yields an empty line |
| Text.ReadLinesCons | Star_pusher/prepare_dataset.py:46 | a newline-ended first line is read first |
| Text.NatToString | Star_pusher/prepare_dataset.py:50 | `str(n)` is a non-empty string of digits with no leading zero |
| Text.NatToStringValue | Star_pusher/prepare_dataset.py:50 | `str(n)` read back as a decimal number is `n` |
| Text.NatToStringInjective | Star_pusher/prepare_dataset.py:50 | distinct map indices give distinct `str` texts |
| Grid.SetCell | Star_pusher/model_related.py:1455-1465 | exactly one cell is replaced |
| Grid.ScanPositions | Star_pusher/model_related.py:1229-1235 | `np.argwhere`: every matching cell, in row-major order |
| Grid.CountSetCell | Star_pusher/model_related.py:1238 | writing one cell changes a value's count by the cell's change |

## Left out

- The game runs in "training" mode: `makeMove`'s log is always kept. The `mode` switch is a module constant outside the modelled functions.
- `decorateMap` is not modelled. `runLevel` moves the player on its copy of the map, and `CharGame.Move`, `CharGame.LevelRun` and `CharGame.Session` move on the map `read_map` returns instead. The copy differs from that map in walls, not only in looks:
  - runs of `#` at the left and right ends of a row become ` ` when their neighbours in the original map are walls;
  - a ` ` cell outside the flood-filled inside with two perpendicular wall neighbours becomes the wall `x`;
  - other outside ` ` cells may get a random, passable decoration `1`–`4`.
  So on a map without a closed outer wall, or where a blanked border cell lies next to a reachable cell, a move can be blocked in the game and free in the model, or the other way round. That the two agree on enclosed levels is not proved.
- `Physics.Action`: actions are the integers 0 to 3. `step` indexes its offset list with the action, so a negative action wraps around in Python and an action of 4 or more raises `IndexError`; neither case is modelled.
- `FloodFill.Fill`: the map is a rectangular `array2`. The source fills a list of rows, which may be ragged; filling a ragged map is not modelled. `Fill` requires the old and new characters to differ. With equal characters the source recurses until the stack overflows; its only call site fills ` ` with `o`.
- The main loop's save of a solved level is modelled by `Dataset.ExportToTxt` on its own. `CharGame.Session.Navigate` only clears the log and moves the index.
- Randomness becomes parameters:
  - `np.random.randint` in `reset` becomes the map index, required to lie in the phase's range;
  - `random.choice` in `select_maps` becomes the chosen file.
- Directory listing, `isfile` and `natsort` become a given sequence of files in natural-sort order. `open`/`readlines` becomes each file's line sequence. A written file becomes its content, returned as a string.
- `os.path.join` is modelled for two parts only.
- Rewards and success rates are exact `real`s. IEEE-754 rounding is not modelled.
- `step` and `reset` use a room array whose shape comes from the first map. Maps of another shape are excluded by the constructor's precondition.
- The `try/except IndexError` handlers in `step` are not modelled. Every index they guard is in bounds on a consistent board.
- `AiMap.MoveRefines`: stated only for faithful states and for moves whose target cell is in bounds. `convert_to_ai_map` loses targets under the player and under `*` goals, and a character move off an unwalled map has no grid counterpart.
- The ML side (PPO, networks, training callbacks, evaluation, plotting), `multiprocessing` inference, pygame rendering, input and windowing, `print`, and the dataset download at import time are foreign or I/O code with no modellable logic.
- `create_maps`' level literals are data only.

## Findings

| source | as written | input that shows it | evidently intended | confidence | as-written member | corrected member |
|---|---|---|---|---|---|---|
| Star_pusher/prepare_dataset.py:45-57 | `current_map` is appended at the end of each file but not reset, so the next file's first `#` lines extend the already-returned list, and its first `;` appends that same list again under `<file>_0` | files `a.txt` = [`#a`] and `b.txt` = [`#x`, `; 1`, `#b`] give maps [[`#a`,`#x`], [`#a`,`#x`], [`#b`]] | each file cut into its own maps: [[`#a`], [`#x`], [`#b`]] under the same names | not executed | Dataset.ChooseAllMapsIn | Dataset.ChooseAllMaps |

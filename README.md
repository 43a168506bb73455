# Portfolio website: verified model of its stateful logic

This project models, in Dafny, the parts of the portfolio website that carry
real state-machine or list logic:

- **The Snake easter-egg game** (`src/components/SnakeGame.jsx`): a 20 x 20
  grid, a snake stored head first, regular food worth 10 points, special food
  worth 50 points that lives for 150 ticks, a direction queue guarded against
  reversals, a menu / playing / game-over state machine and a high score.
  `snake_game.dfy` holds the rules (module `SnakeGame`): the retry loops that
  place food, the special-food spawn rule and timer, the key table and the
  reversal guard, the tick as a function `TickResult` on a `Board` value, and
  the class `Game` whose methods `Start`, `KeyPress`, `Tick` and `OnGameOver`
  update the component's state in place and are proved against those
  functions. `snake_render.dfy` (module `SnakeRender`) holds the integer
  geometry of the canvas squares.
- **The project graph** (`src/components/NeuralMap.jsx`): the nested loops
  that connect every pair of projects i < j sharing a tag, compared
  case-insensitively (`neural_map.dfy`, module `NeuralMap`).
- **The typewriter heading and blinking cursor** (`src/pages/Home.jsx`):
  class `Typewriter` in `home.dfy`.
- **The theme toggle** (`src/context/ThemeContext.jsx`): class
  `ThemeProvider` in `theme.dfy`.

Inputs that the browser supplies are parameters: every `Math.random()` result
is a real in [0, 1) (a `Draw` is the pair drawn for one candidate cell, a
stream of at least 50 of them feeds one retry loop, and the coin of the 20%
special-food chance is one more real), key presses are a `Key` value, and each
timer callback is one method call. The nested state updates of a tick are
read in order: the snake updater first, then the special-food timer updater,
which runs on every tick.

Behaviour of the code that a reader might not expect, modelled as written:

- New food is drawn against the snake as it was before the move, so it can
  land on the cell the head has just entered (`FoodMayRespawnUnderHead`: for
  instance the snake (5,5),(4,5),(3,5) moving right onto food at (6,5) with a
  first candidate of (6,5)). A restart likewise draws food against the previous
  game's snake, not against the fresh snake at (10,10).
- When all 50 candidates collide, the last one is kept even though it lies
  on the snake (or on the food, for special food).
- The self-collision test includes the tail cell that a plain move would
  vacate, so following one's own tail ends the game.
- The reversal guard compares with the committed direction and rejects any
  key on the same axis, so repeating the current direction is ignored too;
  the queued direction is never cleared once adopted.
- Special food is drawn against the food as it was before the tick, not
  against the food drawn in the same tick, so a new special item can share
  its cell with the new regular food (`SpecialMayLandOnNewFood`).
- Eating special food grows the snake just as regular food does, and regular
  food is checked first.
- A special item spawned with timer 150 counts down on every tick (the tick
  that spawns it included) and is removed by the tick that sees timer 0, one
  tick after the countdown reaches zero (`SpecialExpires`).

## Model

| member | source | states |
|---|---|---|
| `SnakeGame.Scale` | src/components/SnakeGame.jsx:37-38 | `Math.floor(Math.random() * GRID_COUNT)` lies in [0, GRID_COUNT) for every random number in [0, 1) |
| `SnakeGame.CellOf` | src/components/SnakeGame.jsx:36-39 | every candidate cell lies on the 20 x 20 board |
| `SnakeGame.AttemptsFrom` | src/components/SnakeGame.jsx:35-44 | a retry loop that has drawn n candidates ends having drawn between n and 50 |
| `SnakeGame.AttemptsFromStops` | src/components/SnakeGame.jsx:41-44 | the loop goes on exactly while the candidate collides and fewer than 50 were drawn: all earlier candidates collided, and the last is free unless 50 were drawn |
| `SnakeGame.RetryPolicy` | src/components/SnakeGame.jsx:30-47 | between 1 and 50 candidates are drawn; the result is the first free candidate when one of the 50 is free; a result on the avoided cells means all 50 candidates collided |
| `SnakeGame.Retry` | src/components/SnakeGame.jsx:30-47 | the placed cell is on the board |
| `SnakeGame.GenerateFood` | src/components/SnakeGame.jsx:30-47 | the do-while loop returns the cell `Retry` chooses for the given snake: on the board, off the snake unless 50 attempts failed |
| `SnakeGame.ShouldSpawn` | src/components/SnakeGame.jsx:52 | no contract of its own: the trigger rule; specified by `SpawnPolicy` and `GenerateSpecialFood` |
| `SnakeGame.SpawnedSpecial` | src/components/SnakeGame.jsx:50-75 | no contract of its own: the item `generateSpecialFood` returns; specified by `SpawnPolicy`, and `GenerateSpecialFood` is proved equal to it |
| `SnakeGame.SpawnPolicy` | src/components/SnakeGame.jsx:50-75 | special food appears iff the count is a positive multiple of 4 or the coin is below 0.2, always on a positive multiple of 4; it has timer 150, is on the board, and lies on the food or the snake only if all 50 candidates did |
| `SnakeGame.GenerateSpecialFood` | src/components/SnakeGame.jsx:50-75 | returns an item iff the trigger rule holds, and then exactly the item `SpawnPolicy` describes (retry against the food and the snake) |
| `SnakeGame.TimerStep` | src/components/SnakeGame.jsx:189-194 | the timer drops by 1 while positive; the item is removed exactly when there is none or its timer is 0; position kept; a non-negative timer stays non-negative |
| `SnakeGame.SpecialExpires` | src/components/SnakeGame.jsx:189-194 | an uneaten item with timer t has timer t - n after n <= t ticks and is gone after t + 1 ticks |
| `SnakeGame.KeyDirection` | src/components/SnakeGame.jsx:113-124 | arrow and WASD keys, and only they, map to a direction, always a unit step |
| `SnakeGame.Accepts` | src/components/SnakeGame.jsx:127-128 | no contract of its own: the axis guard; specified by `AcceptsPerpendicularOnly` |
| `SnakeGame.AcceptsPerpendicularOnly` | src/components/SnakeGame.jsx:126-131 | the axis guard accepts a key iff the snake has no direction yet or the key turns it by 90 degrees: neither the same direction nor its reversal is accepted |
| `SnakeGame.Effective` | src/components/SnakeGame.jsx:142 | a tick adopts the queued direction once one is queued, else keeps the committed one |
| `SnakeGame.MoveKeepsWellFormed` | src/components/SnakeGame.jsx:155-183 | a head that is on the board and off the whole snake, prepended with or without dropping the tail, leaves the snake on the board without repeated cells |
| `SnakeGame.SnakeStep` | src/components/SnakeGame.jsx:137-186 | no contract of its own: the snake updater on a board; specified by `TickMovement`, `TickScoring` and `TickKeepsBoardOk` through `TickResult`, and `Game.UpdateSnake` is proved equal to it |
| `SnakeGame.TickResult` | src/components/SnakeGame.jsx:136-195 | no contract of its own: the whole `gameLoop` on a board (snake updater, then timer updater); specified by `TickMovement`, `TickScoring`, `TickKeepsBoardOk`, `FoodMayRespawnUnderHead` and `SpecialMayLandOnNewFood`, and `Game.Tick` is proved equal to it |
| `SnakeGame.TickKeepsBoardOk` | src/components/SnakeGame.jsx:136-195 | a tick keeps the snake non-empty, on the board and free of repeats, food and special food on the board, the timer non-negative, and the score equal to 10 per regular food plus a multiple of 50 |
| `SnakeGame.TickMovement` | src/components/SnakeGame.jsx:145-185 | no direction: the snake stays; wall or self hit (tail included): game over with the snake unchanged; else the new head is prepended and the tail dropped unless food or special food was eaten; the snake grows iff the score rose |
| `SnakeGame.TickScoring` | src/components/SnakeGame.jsx:168-194 | the score never falls; regular food (checked first) adds exactly 10, counts one food, redraws food against the pre-move snake and spawns special food only if none exists; special food adds exactly 50 and clears the item; otherwise score, count and food are unchanged and only the timer steps |
| `SnakeGame.FoodMayRespawnUnderHead` | src/components/SnakeGame.jsx:166-172 | food drawn after eating avoids only the pre-move snake: when the head moves onto the food and the first candidate is the new head's cell, the new food lies on the new head |
| `SnakeGame.SpecialMayLandOnNewFood` | src/components/SnakeGame.jsx:68 | special food spawned after eating avoids the food of before the tick: when the first special candidate misses the old food and the snake and equals the newly drawn food, the special item (timer 149 after the tick's countdown) lies on the new food |
| `SnakeGame.Game.constructor` | src/components/SnakeGame.jsx:10-27 | initial state: menu, snake [(10,10)], food (15,15), no special food, no direction, score 0, the stored high score |
| `SnakeGame.Game.InitGame` | src/components/SnakeGame.jsx:78-87 | snake [(10,10)], food drawn against the previous snake, no special food, no direction queued or committed, score and food count 0, state menu, high score kept |
| `SnakeGame.Game.Start` | src/components/SnakeGame.jsx:90-93 | the state after initGame, then playing |
| `SnakeGame.Game.KeyPress` | src/components/SnakeGame.jsx:96-133 | Escape only asks to close; Space starts from menu or game over and does nothing while playing; a direction key is queued only while playing and only if the axis guard accepts it; nothing else changes |
| `SnakeGame.Game.Tick` | src/components/SnakeGame.jsx:136-195 | adopts the queued direction (never the reversal of the committed one), leaves the queue as it is, and moves the board to `TickResult`; the invariant is kept |
| `SnakeGame.Game.UpdateSnake` | src/components/SnakeGame.jsx:137-186 | the snake updater: the board becomes `SnakeStep` of the old board |
| `SnakeGame.Game.UpdateSpecialTimer` | src/components/SnakeGame.jsx:189-194 | the timer updater: special food becomes `TimerStep` of the old one |
| `SnakeGame.Game.OnGameOver` | src/components/SnakeGame.jsx:198-203 | on game over the high score becomes max(high score, score) with exactly one write iff the score is higher; it never decreases |
| `SnakeRender.CellRect` | src/components/SnakeGame.jsx:265-298 | each painted square is non-empty, inside its own cell and inside the 400 x 400 canvas |
| `SnakeRender.DistinctCellsDisjoint` | src/components/SnakeGame.jsx:265-298 | squares of different cells never overlap |
| `SnakeRender.SnakeSegmentsDisjoint` | src/components/SnakeGame.jsx:256-272 | the segments of a snake without repeated cells are painted as pairwise disjoint squares |
| `NeuralMap.AnyMatch` | src/components/NeuralMap.jsx:50 | no contract of its own: the recursive `some`; specified by `AnyMatchIsSome` |
| `NeuralMap.AnyMatchIsSome` | src/components/NeuralMap.jsx:50 | the recursive `some` holds iff some tag of the list equals the given one after lower-casing |
| `NeuralMap.SharedTags` | src/components/NeuralMap.jsx:49-51 | no contract of its own: the recursive `filter`; specified by `SharedTagsSpec` and `SharedTagsCount` |
| `NeuralMap.SharedTagsSpec` | src/components/NeuralMap.jsx:49-51 | the shared list is an in-order sublist of the first project's tags in which every tag occurs as often as in the first list if it matches a tag of the second and not at all otherwise; so it is exactly the filtered list, and empty iff no tag matches |
| `NeuralMap.SharedTagsCount` | src/components/NeuralMap.jsx:49-51 | a matching tag keeps its number of occurrences in the shared list, a tag that matches nothing has none |
| `NeuralMap.ShareTagIsShared` | src/components/NeuralMap.jsx:49-52 | the shared list is non-empty iff some tag of one project equals some tag of the other case-insensitively |
| `NeuralMap.Edge` | src/components/NeuralMap.jsx:49-54 | no contract of its own: the edge of one pair (i, j), present iff the shared list is non-empty; specified by `ConnectionsSound` and `ConnectionsComplete` |
| `NeuralMap.Row` | src/components/NeuralMap.jsx:48-55 | no contract of its own: the edges of row i from column j on; specified by `AddRow` and, through `Connections`, by `ConnectionsSound`, `ConnectionsComplete` and `ConnectionsOrdered` |
| `NeuralMap.RowsFrom` | src/components/NeuralMap.jsx:47-56 | no contract of its own: the edges of the rows from i on; specified by `BuildConnections` and the three `Connections` lemmas |
| `NeuralMap.Connections` | src/components/NeuralMap.jsx:45-56 | no contract of its own: the whole edge list; specified by `ConnectionsSound`, `ConnectionsComplete`, `ConnectionsOrdered` and `PortfolioGraph`, and `BuildConnections` is proved equal to it |
| `NeuralMap.BuildConnections` | src/components/NeuralMap.jsx:45-56 | the outer loop produces exactly the edge list `Connections`, rows in order of i |
| `NeuralMap.AddRow` | src/components/NeuralMap.jsx:48-55 | the inner loop appends, in order of j, exactly the edges (i, j, shared) with a non-empty shared list |
| `NeuralMap.ConnectionsSound` | src/components/NeuralMap.jsx:47-53 | every edge has 0 <= from < to < number of projects (no self-loops) and carries the non-empty shared tags of its pair |
| `NeuralMap.ConnectionsComplete` | src/components/NeuralMap.jsx:47-55 | a pair (i, j) appears iff 0 <= i < j < number of projects and the two share a tag case-insensitively |
| `NeuralMap.ConnectionsOrdered` | src/components/NeuralMap.jsx:47-53 | edges are strictly ordered by (from, to), so each pair appears at most once |
| `NeuralMap.PortfolioGraph` | src/components/NeuralMap.jsx:9-56 | for the site's three projects the only edge is (0, 1) with shared tags ["Python"] |
| `Home.Typewriter.constructor` | src/pages/Home.jsx:6-10 | typed text "" at index 0, cursor shown, text "Hi, I'm Mahi Nigam" |
| `Home.Typewriter.TypeStep` | src/pages/Home.jsx:13-21 | a step fires iff characters remain and then appends exactly the next character and advances the index by 1; the typed text is always the prefix up to the index; once done it equals the whole text |
| `Home.Typewriter.Blink` | src/pages/Home.jsx:23-28 | each interval flips the cursor, so two flips restore it |
| `Theme.Toggled` | src/context/ThemeContext.jsx:8 | the result is 'retro' or 'glass', and it is 'glass' iff the previous theme was 'retro' |
| `Theme.ToggleTwice` | src/context/ThemeContext.jsx:8 | on 'retro' and 'glass' a toggle changes the theme and two toggles restore it |
| `Theme.ThemeProvider.constructor` | src/context/ThemeContext.jsx:5 | the initial theme is 'glass' |
| `Theme.ThemeProvider.ToggleTheme` | src/context/ThemeContext.jsx:7-9 | the theme becomes the toggle of the previous one, always 'retro' or 'glass' |

## Left out

- Timers and scheduling: `setInterval`/`clearInterval` of the game loop, the typewriter timeout, the cursor interval and the keydown listener registration are not modelled; callers invoke `Tick`, `KeyPress`, `TypeStep` and `Blink` directly. `Tick` requires the playing state because the interval runs only then. The React scheduler's ordering of nested state updates is read sequentially (snake updater, then timer updater).
- Persistence: reading the high score from `localStorage` with `parseInt` (including a malformed stored value) is replaced by the constructor's non-negative parameter; the write is counted by the ghost field `highScoreWrites`.
- Randomness: `Math.random()` results are parameters; floating-point rounding of `random * 20` is replaced by exact real arithmetic. How many random numbers a call consumes (the coin is drawn only when the food count is not a positive multiple of 4) is not modelled; each loop gets its own stream of at least 50 candidates, since the browser's generator never runs out.
- Escape: `onClose` belongs to the hosting page; `KeyPress` only returns that it was requested.
- Canvas drawing: colours, glow, transparency, the grid-line loop and the flicker of special food (`Math.sin(Date.now())`) are presentation, floating point and wall clock; only the integer square geometry is modelled. The component's JSX overlays are not modelled (it renders nothing, as `isRetro` is fixed to false).
- `toLowerCase`: modelled as ASCII lower-casing; the project tags are ASCII.
- The 3D project scene (drift, cursor pull, curves, particles, selection handlers) and the entrance-animation delays of the home page are floating-point animation.
- The other pages and components (Blog, Resume, Work, Projects, Contact, About, Skills, Thoughts, Hero, Footer, App, Navbar, ProjectDossier, CursorGlow, the Tailwind configuration) hold static content, styling or DOM glue and are not part of this model.

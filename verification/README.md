# BoxWorld game state in Dafny

BoxWorld is a grid puzzle. An agent walks on a flat, row-major board of
`rows * cols` cells. Colour cells are either bare keys (no colour cell beside
them) or key|lock pairs, where the right cell is the lock and the left cell
holds the box contents. The agent picks up a bare key into a one-slot
inventory. It opens a lock whose colour it holds, which consumes the held key
and gives it the box contents. Holding the goal colour solves the level.

This project models the engine of `BoxWorldGameState` as pure functions over an
immutable state record, and proves properties of it. The record holds:

- `board: seq<Element>`;
- the agent index;
- `inventory: Option<Element>`;
- the key and lock index sets;
- the two reward signals;
- the 64-bit Zobrist hash.

The modules follow the source:

- `Definitions`: the element and action enumerations and their counts.
- `Geometry`: `InBounds` / `IndexFromAction` on the flat board.
- `BoardParser`: the `rows|cols|e0|…` board string reader, as written and corrected.
- `KeyLock`: the key/lock classifier.
- `States`: the `SharedStateInfo` / `LocalState` fields, game equality and the step invariant `Valid`.
- `Bits` and `Zobrist`: 64-bit XOR and the hash of a board.
- `Engine`: the hash-maintaining mutators and `apply_action`.
- `EngineProperties` and `StepProperties`: what one step does and keeps.
- `Loading`: `reset`.
- `Observation`: the one-hot observation encoders and their shapes.
- `Image`: the HWC sprite renderer.

Two notes on representation:

- 64-bit words are `nat`s below 2^64, and XOR on them is defined bit by bit (`Bits.Xor`).
- Observation values are 0/1 naturals rather than floats.

The invariant `States.Valid` is what a step needs and keeps:

- positive dimensions and tables of the size `reset` draws;
- the agent index names an Agent cell;
- a held item is a holdable colour;
- every key index is a colour cell;
- every lock index is a colour cell with a colour cell to its left in the same row, and that left cell is neither a key nor a lock;
- no index is both a key and a lock.

The requirement that a lock's left cell is neither a key nor a lock is the
spacing the level generator keeps between pairs (`KeyLock.NoColourTriple`: no
three colour cells side by side in a row). Without it, opening the right-hand
lock of three adjacent colour cells clears the middle cell but leaves it in the
lock set.

`Valid` only asks that the index sets point at suitable cells. The stronger
`States.Classified` asks that they are exactly the bare keys and the locks of
the current board, on a board without colour triples. Reset establishes it
(`Loading.LoadedClassified`), and every step keeps it
(`StepProperties.ApplyActionKeepsClassified`).

## Model

| member | source | states |
|---|---|---|
| Definitions.ElementCode | src/definitions.h:8-26 | every element's code is below kNumElements = 15; the twelve key colours are exactly the codes below 12, and kColourN has code N |
| Definitions.ElementOfCode | src/definitions.h:8-26 | every code below 15 names exactly one element, the one with that code, so the cast in the board reader is total on 0..14 |
| Definitions.ElementCodeRoundTrip | src/definitions.h:8-27 | decoding an element's code gives the element back; the holdable items (twelve keys and the goal) are exactly the codes below kNumColours = 13 |
| Definitions.ElementCodeInjective | src/definitions.h:8-24 | distinct elements have distinct codes |
| Definitions.ActionCode | src/definitions.h:31-37 | action codes are Up 0, Right 1, Down 2, Left 3, all below kNumActions = 4 |
| Definitions.Opposite | src/boxworld_base.cpp:57-62 | each action has a different action whose (col, row) offset is the negation of its own |
| Definitions.OffsetIsUnitStep | src/boxworld_base.cpp:57-62 | every offset moves exactly one of row and column, by one |
| Geometry.ColOf | src/boxworld_base.cpp:425 | the column of an index lies below cols and is at most the index |
| Geometry.RowOf | src/boxworld_base.cpp:426 | the row, computed as the index minus its column divided by cols, is the index divided by cols |
| Geometry.InBounds | src/boxworld_base.cpp:433-442 | definition: the start's column and row shifted by the action offset both stay inside the grid, checked per axis |
| Geometry.IndexFromAction | src/boxworld_base.cpp:424-431 | the neighbour index is the start index plus the column offset plus cols times the row offset |
| Geometry.Neighbour | src/boxworld_base.cpp:424-431 | for an in-bounds move the neighbour index lies on the board, differs from the start, and equals idx + dcol + cols * drow |
| Geometry.RowColDecompose | src/boxworld_base.cpp:425-426 | the row and column read off an index recombine to it in row-major order and lie inside the grid |
| Geometry.RowColOfFlat | src/boxworld_base.cpp:425-426 | the row-major index of (row, col) gives back that row and column |
| Geometry.InBoundsNoWrap | src/boxworld_base.cpp:433-442 | a move is in bounds exactly when there is a row above (Up), a row below (Down), a column to the left (Left) or to the right (Right), so no move wraps between rows |
| Geometry.NeighbourInGrid | src/boxworld_base.cpp:424-442 | an in-bounds neighbour is a board cell other than the start, whose row and column are the start's shifted by the action offset |
| Geometry.NeighbourRoundTrip | src/boxworld_base.cpp:424-442 | from an in-bounds neighbour, the opposite action is in bounds and leads back to the start |
| KeyLock.InitKeyLockIndices | src/boxworld_base.cpp:342-361 | the key set is exactly the colour cells with no colour cell on either side, and the lock set exactly the colour cells with a colour cell on their left |
| KeyLock.IsBareKey | src/boxworld_base.cpp:346-351 | definition: a colour cell (neither Empty nor Agent) with no colour cell directly left or right of it in its row |
| KeyLock.IsLock | src/boxworld_base.cpp:346-352 | definition: a colour cell whose left neighbour in its row is a colour cell |
| KeyLock.KeysAndLocksDisjoint | src/boxworld_base.cpp:351-353 | no cell is both a bare key and a lock, which is the classifier's assertion |
| KeyLock.LockNeighbourhood | src/boxworld_base.cpp:347-352 | a lock is not in column 0; the cell to its left is a colour cell and not a bare key, and with no three colour cells in a row it is not a lock either |
| KeyLock.SideUnchanged | src/boxworld_base.cpp:347-350 | when the colour cells that are cleared have no uncleared colour cell beside them in the row, a surviving colour cell sees the same colour cells to its left and right as before |
| KeyLock.ClearingKeepsClassification | src/boxworld_base.cpp:346-352 | clearing such colour cells makes no other cell change between bare key, lock and neither, and keeps a board free of colour triples |
| BoardParser.SizeT | src/boxworld_base.cpp:319 | the size_t conversion yields a value below 2^64 and leaves representable values unchanged |
| BoardParser.SplitAll | src/boxworld_base.cpp:305-311 | every piece between '\|' delimiters, at least one, none containing '\|' |
| BoardParser.Split | src/boxworld_base.cpp:305-311 | the tokens std::getline extracts on '\|': no token contains '\|', and a final empty piece is not extracted |
| BoardParser.StoI | src/boxworld_base.cpp:317-318 | a number that std::stoi accepts lies in the int range |
| BoardParser.ParseCodes | src/boxworld_base.cpp:327-333 | on success there is one code per cell token, each at most the bound, each the stoi value of its token |
| BoardParser.LastIndexOf | src/boxworld_base.cpp:335-337 | the agent index is the position of the last Agent cell, after which no Agent occurs, and 0 when there is none |
| BoardParser.ParseTokensAsWritten | src/boxworld_base.cpp:313-340 | as written: fewer than two tokens fail with TooFewTokens; on success the token count equals the size_t-wrapped rows * cols + 2 and every code is at most 15 |
| BoardParser.ParseTokens | src/boxworld_base.cpp:313-340 | corrected: fewer than two tokens fail; on success both dimensions are positive, the board has rows * cols cells, each cell is the element its token names, and the agent index is the last Agent cell |
| BoardParser.ParseBoardAsWritten | src/boxworld_base.cpp:304-340 | as written, from the board string: fewer than two tokens fail with TooFewTokens; on success the token count equals the size_t-wrapped rows * cols + 2 and every code is at most 15 |
| BoardParser.ParseBoard | src/boxworld_base.cpp:304-340 | corrected, from the board string: fewer than two tokens fail; on success both dimensions are positive, the board has rows * cols cells, each the element its token names, and the agent index is the last Agent cell |
| BoardParser.BoardOfCodes | src/boxworld_base.cpp:334-338 | the board built from valid codes has the element of each code in order, and its agent index is the last Agent cell |
| BoardParser.CodesToElements | src/boxworld_base.cpp:334-337 | the last Agent code and the last Agent element sit at the same position |
| BoardParser.SizeOfPositiveProduct | src/boxworld_base.cpp:319 | for positive int dimensions the expected token count is exactly rows * cols + 2, with no wrap-around |
| States.GameEqual | src/boxworld_base.cpp:16-31 | definition: two games are equal when agent index, inventory, board, rows and cols agree; hash, reward signals and index sets take no part |
| States.Classified | src/boxworld_base.cpp:342-361 | definition: the key set is exactly the bare keys and the lock set exactly the locks of the current board, which has no three colour cells side by side |
| ParserProperties.SplitJoin | src/boxworld_base.cpp:305-311 | splitting on '\|' recovers tokens joined with '\|' when no token contains '\|' and the last is non-empty |
| ParserProperties.JoinSplitAll | src/boxworld_base.cpp:305-311 | joining the pieces the split cuts with '\|' gives the board string back, so splitting loses and adds no character |
| ParserProperties.StoIOfDigits | src/boxworld_base.cpp:317-318 | stoi of a digit string within the int range is its decimal value |
| ParserProperties.StoIFormatNumber | src/boxworld_base.cpp:317-318 | stoi of the decimal rendering of n ≤ INT_MAX is n |
| ParserProperties.ParseFormattedCells | src/boxworld_base.cpp:327-333 | the cell tokens of any board read back as that board's element codes |
| ParserProperties.ParseTokensSuccess | src/boxworld_base.cpp:313-340 | positive dimensions, a matching token count and readable codes give exactly the board of those codes |
| ParserProperties.ParseCodesFirstOutOfRange | src/boxworld_base.cpp:328-333 | a cell code above the bound fails with UnknownElement |
| ParserProperties.ParseCodesFailsLater | src/boxworld_base.cpp:327-333 | a valid first cell passes the error of a later cell through unchanged |
| ParserProperties.ParseTokensCellFailure | src/boxworld_base.cpp:327-333 | when the header is accepted, a bad cell is the error of the whole parse |
| ParserProperties.ParseFormatRoundTrip | src/boxworld_base.cpp:304-340 | writing any board with positive int dimensions as a board string and reading it back gives the same dimensions, board and last-Agent index |
| ParserExamples.StoIDigit | src/boxworld_base.cpp:317 | a one-digit token reads as its digit |
| ParserExamples.StoITwoDigits | src/boxworld_base.cpp:317 | a two-digit token reads as its decimal value |
| ParserExamples.StoINegativeDigit | src/boxworld_base.cpp:317 | a minus sign followed by a digit reads as the negated digit |
| ParserExamples.ParseTokensAsWrittenSuccess | src/boxworld_base.cpp:313-340 | as written: a matching count and codes of at most 15 give the raw board with the last Agent index, whatever the signs of the dimensions |
| ParserExamples.DefaultBoardRejected | src/boxworld_base.h:31-34 | the tokens of the default board string are rejected with UnknownElement, because codes 18 to 20 exceed the element range |
| ParserExamples.AsWrittenAcceptsCode15 | src/boxworld_base.cpp:329 | as written, the board string "1\|1\|15" is accepted with cell code 15, which names no element |
| ParserExamples.CorrectedRejectsCode15 | src/boxworld_base.cpp:329 | corrected, "1\|1\|15" fails with UnknownElement |
| ParserExamples.AsWrittenAcceptsZeroColumns | src/boxworld_base.cpp:317-321 | as written, "3\|0" is accepted as a 3-by-0 board |
| ParserExamples.AsWrittenAcceptsNegativeDimensions | src/boxworld_base.cpp:317-321 | as written, "-1\|-2\|13\|14" is accepted, since (-1) * (-2) + 2 matches the four tokens |
| ParserExamples.CorrectedRejectsNonPositiveDimensions | src/boxworld_base.cpp:317-321 | corrected, the board strings "3\|0" and "-1\|-2\|13\|14" both fail with NonPositiveDimension |
| Zobrist.BoardHash | src/boxworld_base.cpp:119-122 | definition: the XOR, in cell order, of the board table entry of each of the first n cells' (element, index) pair |
| Zobrist.InventoryHash | src/boxworld_base.cpp:396-413 | definition: the inventory table entry of the held colour, and 0 when nothing is held |
| Zobrist.FullHash | src/boxworld_base.cpp:119-122 | definition: the board hash of every cell XOR the inventory hash |
| Zobrist.HashConsistent | src/boxworld_base.cpp:119-122 | definition: the stored hash equals the full hash of the stored board and inventory |
| Zobrist.BoardHashPrefixFrame | src/boxworld_base.cpp:119-122 | the hash of the first n cells does not depend on cells from n on |
| Zobrist.BoardHashUpdate | src/boxworld_base.cpp:119-122 | writing element e into a cell of the hashed prefix changes the prefix hash by XOR-ing out the old (element, cell) entry and XOR-ing in the new one |
| Zobrist.CellUpdate | src/boxworld_base.cpp:381-393 | overwriting one cell changes the whole-board hash exactly by the two XORs each mutator applies |
| Zobrist.EqualGamesEqualHashes | src/boxworld_base.cpp:16-31 | two games equal under operator== with the same tables and consistent hashes report the same hash |
| Engine.Target | src/boxworld_base.cpp:138 | the target of an in-bounds move is a board cell other than the agent's |
| Engine.MoveAgent | src/boxworld_base.cpp:375-394 | the agent ends on the target, the old cell is Empty, every other cell, the inventory, the index sets and the reward signals are unchanged |
| Engine.AddToInventory | src/boxworld_base.cpp:396-407 | with an empty inventory, the colour at the cell becomes the held item and the cell becomes Empty; nothing else changes |
| Engine.RemoveFromInventory | src/boxworld_base.cpp:409-413 | the inventory becomes empty and board, agent, index sets and signals are unchanged |
| Engine.RemoveLock | src/boxworld_base.cpp:415-422 | the cell becomes Empty and every other cell and field is unchanged |
| Engine.HasKey | src/boxworld_base.cpp:444-446 | definition: the held item equals the element of the cell at the index; for a lock that is the lock cell's own colour, as the comment at src/boxworld_base.cpp:149-150 intends, not the box contents to its left |
| Engine.CollectKey | src/boxworld_base.cpp:141-147 | the key leaves the key set and becomes the held item, the agent ends on its cell, the colour signal is its code + 1 and the index signal the target + 1; other cells are unchanged |
| Engine.ContentsOf | src/boxworld_base.cpp:156 | a lock's contents are the cell directly to its left, which holds a colour |
| Engine.OpenLock | src/boxworld_base.cpp:151-159 | the lock leaves the lock set, the contents to its left become the held item, the lock and contents cells are cleared, the agent ends on the lock, and the signals are the lock colour + 1 and the lock index + 1 |
| Engine.PickupAllowed | src/boxworld_base.cpp:396-407 | definition: AddToInventory's assertion that the inventory is empty, lifted to the step: an in-bounds move onto a bare key needs an empty inventory |
| Engine.ApplyAction | src/boxworld_base.cpp:125-160 | the step keeps the board and agent index in shape, never adds to the key or lock set, and leaves the index signal 0 or the agent's new index + 1; StepProperties states the full outcome |
| Engine.IsSolution | src/boxworld_base.cpp:162-164 | definition: the goal colour is held |
| Engine.LegalActions | src/boxworld_base.cpp:166-169 | all four actions, action_space_size of them, each at the position of its code |
| Engine.GetRewardSignal | src/boxworld_base.cpp:261-263 | definition: the colour signal when asked for colour, otherwise the index signal |
| EngineProperties.MoveAgentKeepsHash | src/boxworld_base.cpp:375-394 | a move from the Agent cell onto an Empty cell keeps the hash equal to the hash of board and inventory |
| EngineProperties.AddToInventoryKeepsHash | src/boxworld_base.cpp:396-407 | picking a colour into the empty inventory keeps the hash consistent |
| EngineProperties.RemoveFromInventoryKeepsHash | src/boxworld_base.cpp:409-413 | dropping the held colour keeps the hash consistent |
| EngineProperties.RemoveLockKeepsHash | src/boxworld_base.cpp:415-422 | clearing a cell keeps the hash consistent |
| EngineProperties.CollectKeyKeepsHash | src/boxworld_base.cpp:141-147 | the key branch keeps the hash consistent |
| EngineProperties.OpenLockKeepsHash | src/boxworld_base.cpp:151-159 | the lock branch keeps the hash consistent |
| EngineProperties.KeyCollectedValid | src/boxworld_base.cpp:141-147 | any state with the key branch's effects is valid again |
| EngineProperties.LockOpenedValid | src/boxworld_base.cpp:151-159 | any state with the lock branch's effects is valid again |
| EngineProperties.CollectKeyKeepsValid | src/boxworld_base.cpp:141-147 | the key branch keeps the step invariant |
| EngineProperties.OpenLockKeepsValid | src/boxworld_base.cpp:151-159 | the lock branch keeps the step invariant |
| StepProperties.BlockedMove | src/boxworld_base.cpp:125-160 | an off-board move, or one onto a colour cell that is neither a bare key nor a lock of the held colour, changes nothing but zeroing both reward signals |
| StepProperties.StepOntoEmpty | src/boxworld_base.cpp:133-138 | onto an Empty cell the agent moves, the fall-through finds no key or lock, inventory and index sets are unchanged and both signals are 0 |
| StepProperties.PickUpKey | src/boxworld_base.cpp:141-147 | stepping onto a bare key with an empty inventory moves the agent there, holds the key, removes it from the key set and sets both signals |
| StepProperties.OpenLockStep | src/boxworld_base.cpp:151-159 | stepping onto a lock of the held colour clears the contents cell, holds the contents, removes the lock from the lock set, moves the agent onto it and sets both signals |
| StepProperties.ApplyActionFollowsRules | src/boxworld_base.cpp:125-160 | apply_action, fall-through included, yields exactly the outcome the rules give for blocked, empty, key and lock targets |
| StepProperties.MovedValid | src/boxworld_base.cpp:134-136 | a plain move onto an Empty cell keeps the step invariant |
| StepProperties.RulesKeepValid | src/boxworld_base.cpp:125-160 | every rule outcome keeps the step invariant |
| StepProperties.RulesKeepAgentUnique | src/boxworld_base.cpp:125-160 | every rule outcome keeps exactly one Agent cell, at the agent index |
| StepProperties.RulesShrinkIndexSets | src/boxworld_base.cpp:125-160 | rule outcomes never add indices; a key leaves only when the agent steps on it with an empty inventory, a lock only when stepped on holding its colour |
| StepProperties.RulesRewardSignals | src/boxworld_base.h:144-149 | both signals are 0 together; they are non-zero exactly when a key or lock was taken, and the index signal is then the agent's new index + 1 |
| StepProperties.MovedClassified | src/boxworld_base.cpp:134-136 | a plain move changes no colour cell, so the index sets stay the classification of the board |
| StepProperties.KeyCollectedClassified | src/boxworld_base.cpp:141-147 | after a key pickup the key set is exactly the bare keys of the new board and the lock set exactly its locks |
| StepProperties.LockOpenedClassified | src/boxworld_base.cpp:151-159 | after a lock is opened, its lock and box contents cleared, the sets are exactly the bare keys and locks of the new board |
| StepProperties.RulesKeepClassified | src/boxworld_base.cpp:125-160 | every rule outcome keeps the index sets equal to the classification of the board |
| StepProperties.ApplyActionKeepsValid | src/boxworld_base.cpp:125-160 | apply_action keeps the step invariant |
| StepProperties.ApplyActionKeepsClassified | src/boxworld_base.cpp:125-160 | the key and lock sets never diverge from the board: if before a step they are its bare keys and locks, after it they are the bare keys and locks of the new board |
| StepProperties.StepOntoEmptyKeepsHash | src/boxworld_base.cpp:133-136 | a plain move keeps the hash equal to the hash of board and inventory |
| StepProperties.PickUpKeyKeepsHash | src/boxworld_base.cpp:141-147 | a key pickup keeps the hash consistent |
| StepProperties.OpenLockStepKeepsHash | src/boxworld_base.cpp:151-159 | opening a lock keeps the hash consistent |
| StepProperties.ApplyActionKeepsHash | src/boxworld_base.cpp:125-160 | after any step the incremental hash is the XOR over every cell's entry plus the held item's entry, the formula reset uses |
| StepProperties.ApplyActionKeepsAgentUnique | src/boxworld_base.cpp:125-160 | exactly one Agent cell, at the agent index, before a step means the same after it |
| StepProperties.IndexSetsOnlyShrink | src/boxworld_base.cpp:125-160 | no step inserts into the key or lock set; anything removed is the target, taken under the pickup or key-match condition |
| StepProperties.RewardSignals | src/boxworld_base.h:144-149 | after a step get_reward_signal is 0 in both forms when nothing was collected or opened, and otherwise the index form is 1 + the target index |
| StepProperties.SolvedIsStable | src/boxworld_base.cpp:162-164 | once the goal is held it stays held while no lock has the goal colour |
| StepProperties.StepThereAndBack | src/boxworld_base.cpp:375-394 | a step onto an Empty cell followed by the opposite step restores the state, hash included, with zeroed signals |
| Loading.Tables | src/boxworld_base.cpp:102-116 | the board table is the first 15 * rows * cols draws, code major, and the inventory table the next 13 |
| Loading.Reset | src/boxworld_base.cpp:93-123 | a parse error is returned as is; otherwise the state has the parsed board and agent index, nothing held, zero signals, the classifier's sets and a hash equal to the XOR over all cells |
| Loading.LoadedValid | src/boxworld_base.cpp:93-123 | a loaded level with an agent and no three colour cells in a row satisfies the step invariant |
| Loading.LoadedClassified | src/boxworld_base.cpp:98-99 | a loaded level without colour triples starts with its index sets equal to the classification of its board |
| Loading.LoadedAgentUnique | src/boxworld_base.cpp:335-337 | a loaded level with one Agent cell has it at the agent index |
| Observation.Plane | src/boxworld_base.cpp:185-197 | every observation entry is 0 or 1 |
| Observation.Encoded | src/boxworld_base.cpp:181 | the observation has channels * rows * cols entries |
| Observation.FillBoard | src/boxworld_base.cpp:185-190 | the board loop marks, in each board channel, exactly the cells holding that element |
| Observation.GetObservation | src/boxworld_base.cpp:179-200 | the observation is the one-hot encoding of board and inventory over all 27 channels |
| Observation.GetObservationEnvironment | src/boxworld_base.cpp:202-216 | the environment observation is the same encoding over the 14 board channels |
| Observation.EncodedAt | src/boxworld_base.cpp:188 | entry ch * rows * cols + i is channel ch of cell i |
| Observation.BoardChannelMarksElement | src/boxworld_base.cpp:185-190 | for a non-Empty element e, channel e of cell i is 1 exactly when the cell holds e |
| Observation.InventoryChannelMarksHeld | src/boxworld_base.cpp:193-197 | channel 14 + c is 1 at every cell exactly when colour c is held |
| Observation.BoardChannelsOneHot | src/boxworld_base.cpp:185-190 | at most one board channel is set per cell, and none for an Empty cell |
| Observation.EnvironmentIsPrefix | src/boxworld_base.cpp:202-216 | the environment observation is the first 14 channels of the full observation |
| Observation.ObservationShapeAsWritten | src/boxworld_base.cpp:171-173 | as written, the shape is channels, cols, rows, with product 27 * rows * cols |
| Observation.ObservationShape | src/boxworld_base.h:106-110 | the documented CHW shape, with product 27 * rows * cols |
| Observation.ObservationShapeEnvironment | src/boxworld_base.h:112-116 | the documented CHW shape without inventory, with product 14 * rows * cols |
| Observation.ObservationShapeEnvironmentAsWritten | src/boxworld_base.cpp:175-177 | as written, the environment shape is kNumElements - 1 = 14 channels, then cols, then rows, with product 14 * rows * cols |
| Observation.ShapeAddressesCells | src/boxworld_base.h:118-123 | viewed with the CHW shape, element (channel, row, col) is the entry written for the cell at that row and column |
| Observation.AsWrittenShapeMisplacesCells | src/boxworld_base.cpp:171-177 | viewed with either as-written shape, a 2-by-3 board shows cell (0, 2) where (1, 0) should be |
| Image.PixelOf | src/boxworld_base.cpp:73-89 | definition: the colour kElementToPixelMap gives each element |
| Image.PaletteInjective | src/boxworld_base.cpp:73-89 | distinct elements get distinct colours and none is black, the border colour |
| Image.ImageShape | src/boxworld_base.cpp:218-222 | the image is (rows + 2) * 32 high, (cols + 2) * 32 wide, with 3 channels |
| Image.Hwc | src/boxworld_base.h:138-142 | definition: the position of channel ch of pixel (y, x) in a flat height-width-channel vector |
| Image.HwcBound | src/boxworld_base.h:138-142 | the HWC index of an in-range pixel channel lies inside the image |
| Image.HwcInjective | src/boxworld_base.h:138-142 | distinct pixel channels have distinct HWC indices |
| Image.Rendered | src/boxworld_base.cpp:236-259 | definition: byte ch of pixel (y, x) is that channel of the sprite the pixel lies in: the held item in the corner, the board cell inside, black elsewhere on the border |
| Image.FillSpriteIndex | src/boxworld_base.cpp:225-228 | fill_sprite's index arithmetic addresses HWC pixel (h * 32 + r, w * 32 + c) of an image cols sprites wide |
| Image.FillSprite | src/boxworld_base.cpp:224-234 | the sprite at (h, w) is painted with the pixel and every byte outside it is unchanged |
| Image.InSpriteOfDiv | src/boxworld_base.cpp:224-234 | a pixel lies in sprite (h, w) exactly when its coordinates divided by 32 are (h, w) |
| Image.ImageLength | src/boxworld_base.cpp:238-241 | the allocated (rows + 2) * (cols + 2) sprites of 3072 bytes are exactly the product of image_shape |
| Image.BlankPainted | src/boxworld_base.cpp:241-247 | with nothing held, the zeroed image is the rendering so far |
| Image.CornerPainted | src/boxworld_base.cpp:243-247 | painting the held item's sprite into the corner gives the rendering so far |
| Image.CellPainted | src/boxworld_base.cpp:252-255 | painting board cell (h-1, w-1) into sprite (h, w) extends the rendering by one sprite |
| Image.RowPainted | src/boxworld_base.cpp:251-257 | a finished sprite row moves painting to the start of the next row |
| Image.AllPainted | src/boxworld_base.cpp:251-258 | once every row is done, every byte is the rendered value |
| Image.PaintRow | src/boxworld_base.cpp:252-256 | one pass of the inner loop paints board row h - 1 into sprite row h |
| Image.PaintCorner | src/boxworld_base.cpp:241-247 | the image has the full length and shows the held item's sprite in the corner, black elsewhere |
| Image.ToImage | src/boxworld_base.cpp:236-259 | the image has the length image_shape gives, and every pixel channel is black on the border except the corner, which shows the held item, and inside shows the colour of its board cell |
| Image.PixelOfChannels | src/boxworld_base.cpp:66-70 | two pixels with equal r, g, b channels are equal |
| Image.CellShown | src/boxworld_base.cpp:250-256 | the top-left pixel of sprite (row + 1, col + 1) has the colour of board cell row * cols + col |
| Image.SameCell | src/boxworld_base.cpp:250-256 | equal renderings at a cell's sprite mean equal elements in that cell |
| Image.RenderingDeterminesState | src/boxworld_base.cpp:236-259 | two states of the same dimensions with equal images have equal boards and equal inventories |

## Left out

- Zobrist table generation with mt19937 and uniform_int_distribution. `Loading.Reset` takes the generator's output stream as a parameter `draws` and keeps only the draw order.
- The inventory table is appended to on every reset without being cleared. The same seed draws the same values and only the first 13 entries are read, so this has no effect and is not modelled.
- The sharing of SharedStateInfo between copies through shared_ptr, and the GameParameters variant map. Rows, cols and the tables are an immutable `Config`.
- operator<<, get_item_str and the std::cerr diagnostics: text output only.
- get_hash, get_agent_index, get_item, get_indices and get_target_indices. They read a field of the state or list an index set, and are the fields themselves in this model.
- The pybind11 bindings, the level generator script and the test programs. Only the element spacing of generated levels is kept, as `KeyLock.NoColourTriple`.
- Float typing of observations: values are 0/1 naturals.
- Exceptions. `std::invalid_argument` and `std::out_of_range` are the `Failure` values of `ParseError`, and the message texts are dropped.
- BoardParser.ParseTokensAsWritten: does not model the int overflow of `rows * cols` in the token-count check, which is undefined behaviour in the source. Products beyond int are computed exactly before the size_t conversion.
- Engine.ApplyAction: requires the step invariant `Valid` and `PickupAllowed`, so it says nothing about boards the reader accepts but `Valid` excludes. These are boards with no Agent cell (the reader then leaves agent_idx at 0, and MoveAgent moves a phantom agent out of cell 0, writing Empty over whatever was there and leaving the hash inconsistent), with no cells (dimensions must be positive), whose tables are not of the drawn size, and whose colour cells break the key/lock placement: three colour cells side by side in a row, where opening the right-hand lock clears the middle cell but leaves it in the lock set. `PickupAllowed` is AddToInventory's assertion that the inventory is empty, lifted to the step: without it a second key would overwrite the held one and its inventory entry would never be XOR-ed out of the hash.
- Loading.Reset: reads the board through the corrected reader `BoardParser.ParseBoard`, so it returns a failure for three kinds of board the source's reset accepts from its reader (see Findings):
  - a cell code of 15 ("1|1|15"): the source's reset throws out_of_range when it hashes that cell (src/boxworld_base.cpp:120-121);
  - zero columns ("3|0"): the source loads an empty board, and the first apply_action divides by zero in `index % cols` (src/boxworld_base.cpp:436);
  - negative dimensions ("-1|-2|13|14"): the source stores rows and cols as 2^64 - 1 and 2^64 - 2, whose size_t product 2 matches the two cells, so the level loads; InBounds then compares against `static_cast<int>(cols)` = -2, so every move is blocked and every step does nothing.
- ParserExamples.DefaultBoardRejected: is stated over the pieces between the '|' separators of the default board string rather than over the string itself, whose split is not proved here.
- Geometry.IndexFromAction: is computed over unbounded integers. In the source it is size_t arithmetic, which wraps for an off-board neighbour; every call there follows an InBounds test, where both agree.
- Observation.GetObservation and Image.ToImage: require a board of rows * cols cells. The source asserts this at src/boxworld_base.cpp:184 or indexes with `.at`.

## Findings

| source | as written | input that shows it | evidently intended | confidence | as-written member | corrected member |
|---|---|---|---|---|---|---|
| src/boxworld_base.cpp:329 | `el_idx > kNumElements` accepts code 15, which names no element; reset then throws out_of_range when hashing that cell | "1\|1\|15" | reject codes ≥ kNumElements | not executed | ParserExamples.AsWrittenAcceptsCode15 | ParserExamples.CorrectedRejectsCode15 |
| src/boxworld_base.cpp:317-321 | zero or negative dimensions pass the count check; with cols = 0 the geometry divides by zero | "3\|0" and "-1\|-2\|13\|14" | reject non-positive rows or cols | not executed | ParserExamples.AsWrittenAcceptsZeroColumns, ParserExamples.AsWrittenAcceptsNegativeDimensions | ParserExamples.CorrectedRejectsNonPositiveDimensions |
| src/boxworld_base.cpp:171-177 | observation_shape returns {channels, cols, rows} and observation_shape_environment returns {kNumElements - 1, cols, rows}, while the encoder writes rows-major cells and the header documents CHW | a 2-row, 3-column board viewed at (0, 1, 0) | {channels, rows, cols} | not executed | Observation.AsWrittenShapeMisplacesCells | Observation.ShapeAddressesCells |
